/** Type definitions in the program's own terms: a definition numbers its variants, a field name
    keeps its first position, and the schemas the interpreter reads hold the names the program
    wrote (crates/compiler-core/src/codegen/bcgen.rs, crates/vm-core/src/bytefile.rs). */
module TypeLaws {
  import opened Results
  import opened Bytecode
  import opened Scoping
  import opened Linking
  import GF = GeneratedFile
  import StringTable
  import Utf8
  import RT = Runtime

  type Strings = seq<Byte>

  // ---------------------------------------------------------------- type definitions

  predicate DistinctNames(variants: seq<VariantDef>) {
    forall i, j :: 0 <= i < j < |variants| ==> variants[i].name != variants[j].name
  }

  predicate Defines(variants: seq<VariantDef>, name: string) { exists k :: 0 <= k < |variants| && variants[k].name == name }

  /** The tables hold the variants of a type: each with its fields, and its position as its tag. */
  predicate Known(g: Gen, variants: seq<VariantDef>) {
    forall k :: 0 <= k < |variants| ==> KnownAs(g, variants[k], k)
  }

  predicate KnownAs(g: Gen, d: VariantDef, tag: nat) {
    && d.name in g.variants && g.variants[d.name].fields == d.fields
    && g.variants[d.name].schema < |g.schemas| && g.schemas[g.variants[d.name].schema].tag == tag
  }

  lemma {:induction false} VariantsKnown(g: Gen, typeName: string, variants: seq<VariantDef>, tag: nat)
    requires DistinctNames(variants)
    ensures forall k :: 0 <= k < |variants| ==> KnownAs(AddVariants(g, typeName, variants, tag), variants[k], tag + k)
    ensures forall name :: name in g.variants && !Defines(variants, name) ==>
      name in AddVariants(g, typeName, variants, tag).variants && AddVariants(g, typeName, variants, tag).variants[name] == g.variants[name]
    decreases |variants|
  {
    if variants != [] {
      var v, rest := variants[0], variants[1..];
      var (offsets, tab) := AddStrings(StringTable.Added(g.strings, NameBytes(typeName)), v.fields);
      var g1 := g.(
        variants := g.variants[v.name := VariantInfo(|g.schemas|, v.fields)],
        fieldIndices := AddFields(g.fieldIndices, v.fields, 0),
        schemas := g.schemas + [StoredSchema(|g.strings|, tag, offsets)],
        strings := tab);
      VariantsKnown(g1, typeName, rest, tag + 1);
      var r := AddVariants(g, typeName, variants, tag);
      assert r == AddVariants(g1, typeName, rest, tag + 1);
      forall k | 0 <= k < |variants| ensures KnownAs(r, variants[k], tag + k) {
        if k > 0 { assert rest[k - 1] == variants[k]; } else { assert r.schemas[|g.schemas|] == g1.schemas[|g.schemas|]; }
      }
      forall name | name in g.variants && !Defines(variants, name)
        ensures name in r.variants && r.variants[name] == g.variants[name]
      {
        assert variants[0].name != name;
        assert !Defines(rest, name) by {
          forall k | 0 <= k < |rest| ensures rest[k].name != name { assert variants[k + 1] == rest[k]; }
        }
      }
    }
  }

  /** A type's variants are numbered in their order, unless a later type takes their names. */
  lemma {:induction false} TypeKnown(g: Gen, types: seq<TypeDef>, t: nat)
    requires t < |types| && DistinctNames(types[t].variants)
    requires forall u, i :: t < u < |types| && 0 <= i < |types[t].variants| ==> !Defines(types[u].variants, types[t].variants[i].name)
    requires forall u :: t < u < |types| ==> DistinctNames(types[u].variants)
    ensures Known(AddTypes(g, types), types[t].variants)
    decreases |types|
  {
    hide DistinctNames, Defines;
    var g1 := AddVariants(g, types[0].name, types[0].variants, 0);
    if t > 0 {
      TypeKnown(g1, types[1..], t - 1);
    } else {
      VariantsKnown(g, types[0].name, types[0].variants, 0);
      StaysKnown(g1, types[1..], types[0].variants);
    }
  }

  lemma {:induction false} StaysKnown(g: Gen, types: seq<TypeDef>, variants: seq<VariantDef>)
    requires Known(g, variants)
    requires forall u, i :: 0 <= u < |types| && 0 <= i < |variants| ==> !Defines(types[u].variants, variants[i].name)
    requires forall u :: 0 <= u < |types| ==> DistinctNames(types[u].variants)
    ensures Known(AddTypes(g, types), variants)
    decreases |types|
  {
    hide DistinctNames, Defines;
    if types != [] {
      var g1 := AddVariants(g, types[0].name, types[0].variants, 0);
      VariantsKnown(g, types[0].name, types[0].variants, 0);
      forall k | 0 <= k < |variants| ensures KnownAs(g1, variants[k], k) {
        assert !Defines(types[0].variants, variants[k].name);
        assert g1.schemas[..|g.schemas|] == g.schemas;
      }
      StaysKnown(g1, types[1..], variants);
    }
  }

  /** The interpreter's schemas have the generator's tags. */
  predicate SameTags(lib: RT.Library, g: Gen) {
    |lib.schemas| == |g.schemas| && forall i :: 0 <= i < |g.schemas| ==> lib.schemas[i].tag == g.schemas[i].tag
  }

  lemma TagsAreRead(lib: RT.Library, g: Gen, strings: Strings)
    ensures SameTags(WithSchemas(lib, g.schemas, strings), g)
  {
    hide CString;
    var r := WithSchemas(lib, g.schemas, strings);
    forall i | 0 <= i < |g.schemas| ensures r.schemas[i].tag == g.schemas[i].tag { assert r.schemas[i] == ReadSchema(strings, g.schemas[i]); }
  }

  /** A field name keeps the position it was first seen at; a new one gets its first position. */
  lemma {:induction false} FieldIndexIs(indices: map<string, nat>, fields: seq<string>, k: nat, name: string)
    ensures name in indices ==> name in AddFields(indices, fields, k) && AddFields(indices, fields, k)[name] == indices[name]
    ensures name !in indices && name !in fields ==> name !in AddFields(indices, fields, k)
    ensures forall i :: 0 <= i < |fields| && fields[i] == name && name !in indices && name !in fields[..i] ==>
      name in AddFields(indices, fields, k) && AddFields(indices, fields, k)[name] == k + i
    decreases |fields|
  {
    if fields != [] {
      var next := if fields[0] in indices then indices else indices[fields[0] := k];
      FieldIndexIs(next, fields[1..], k + 1, name);
      forall i | 0 <= i < |fields| && fields[i] == name && name !in indices && name !in fields[..i]
        ensures name in AddFields(indices, fields, k) && AddFields(indices, fields, k)[name] == k + i
      {
        if i > 0 {
          assert fields[0] == fields[..i][0] && fields[1..][..i - 1] == fields[..i][1..];
          assert fields[1..][i - 1] == name;
        }
      }
    }
  }

  // ---------------------------------------------------------------- what the interpreter reads

  function Codes(name: string): (r: seq<int>)
    ensures |r| == |name|
  {
    seq(|name|, i requires 0 <= i < |name| => name[i] as int)
  }

  /** The UTF-8 of a name's characters. */
  function Written(name: string): seq<Byte>
    requires GF.Plain(name)
  {
    assert forall i :: 0 <= i < |name| ==> name[i] in name;
    Utf8.EncodeAll(Codes(name))
  }

  /** A name is stored as the UTF-8 of its characters. */
  lemma {:induction false} NameBytesAre(name: string)
    requires GF.Plain(name)
    ensures NameBytes(name) == Written(name)
    decreases |name|
  {
    if name != [] {
      assert forall c :: c in name[1..] ==> c in name;
      NameBytesAre(name[1..]);
      assert Codes(name) == [name[0] as int] + Codes(name[1..]);
      assert name[0] in name && Codes(name)[1..] == Codes(name[1..]);
    }
  }

  lemma {:induction false} WholeString(s: seq<Byte>, more: seq<Byte>)
    requires Utf8.NulFree(s)
    ensures StringTable.UpToNul(s + [0] + more) == s
    decreases |s|
  {
    if s == [] {
      assert ([] + [0] + more)[0] == 0;
    } else {
      WholeString(s[1..], more);
      assert (s + [0] + more)[1..] == s[1..] + [0] + more;
    }
  }

  /** A string that was added is read from its offset in every later table. */
  lemma AddedIsRead(table: Strings, s: seq<Byte>, later: Strings)
    requires Utf8.NulFree(s) && StringTable.Added(table, s) <= later
    ensures CString(later, |table|) == s
  {
    var more := later[|StringTable.Added(table, s)|..];
    assert later == StringTable.Added(table, s) + more;
    assert later[|table|..] == s + [0] + more;
    WholeString(s, more);
  }

  lemma NameIsRead(table: Strings, name: string, later: Strings)
    requires GF.Plain(name) && StringTable.Added(table, NameBytes(name)) <= later
    ensures CString(later, |table|) == Written(name)
  {
    NameBytesAre(name);
    assert forall i :: 0 <= i < |name| ==> name[i] in name;
    Utf8.DecodeUndoesEncode(Codes(name));
    AddedIsRead(table, NameBytes(name), later);
  }

  /** The stored field names are read back in their order. */
  lemma {:induction false} NamesAreRead(tab: Strings, names: seq<string>, later: Strings)
    requires (forall n :: n in names ==> GF.Plain(n)) && AddStrings(tab, names).1 <= later
    ensures forall i :: 0 <= i < |names| ==> CString(later, AddStrings(tab, names).0[i]) == Written(names[i])
    decreases |names|
  {
    hide CString, GF.Plain, Written;
    if names != [] {
      var tab1 := StringTable.Added(tab, NameBytes(names[0]));
      NamesAreRead(tab1, names[1..], later);
      assert names[0] in names;
      NameIsRead(tab, names[0], later);
    }
  }

  /** A schema as the interpreter reads it: the type's name, the variant's number, and the
      fields' names in order. */
  predicate ReadsAs(later: Strings, s: StoredSchema, typeName: string, tag: nat, fields: seq<string>)
    requires GF.Plain(typeName) && forall n :: n in fields ==> GF.Plain(n)
  {
    var r := ReadSchema(later, s);
    && r.name == Written(typeName) && r.tag == tag && |r.fields| == |fields|
    && forall i :: 0 <= i < |fields| ==> r.fields[i] == Written(fields[i])
  }

  /** So are the schemas of a type's variants read, from any later table. */
  lemma {:induction false} SchemasAreRead(g: Gen, typeName: string, variants: seq<VariantDef>, tag: nat, later: Strings)
    requires GF.Plain(typeName) && forall d :: d in variants ==> forall n :: n in d.fields ==> GF.Plain(n)
    requires AddVariants(g, typeName, variants, tag).strings <= later
    ensures |AddVariants(g, typeName, variants, tag).schemas| == |g.schemas| + |variants|
    ensures forall k :: 0 <= k < |variants| ==>
      ReadsAs(later, AddVariants(g, typeName, variants, tag).schemas[|g.schemas| + k], typeName, tag + k, variants[k].fields)
    decreases |variants|
  {
    hide CString, GF.Plain, AddStrings, Written, ReadsAs, AddFields;
    if variants != [] {
      var v := variants[0];
      var tab0 := StringTable.Added(g.strings, NameBytes(typeName));
      var (offsets, tab) := AddStrings(tab0, v.fields);
      var g1 := g.(
        variants := g.variants[v.name := VariantInfo(|g.schemas|, v.fields)],
        fieldIndices := AddFields(g.fieldIndices, v.fields, 0),
        schemas := g.schemas + [StoredSchema(|g.strings|, tag, offsets)],
        strings := tab);
      var r := AddVariants(g1, typeName, variants[1..], tag + 1);
      assert r == AddVariants(g, typeName, variants, tag);
      assert r.schemas[|g.schemas|] == g1.schemas[|g.schemas|];
      OneSchema(g.strings, typeName, v.fields, tag, later);
      SchemasAreRead(g1, typeName, variants[1..], tag + 1, later);
      forall k | 0 <= k < |variants| ensures ReadsAs(later, r.schemas[|g.schemas| + k], typeName, tag + k, variants[k].fields) {
        if k > 0 { assert variants[1..][k - 1] == variants[k]; }
      }
    }
  }

  lemma OneSchema(table: Strings, typeName: string, fields: seq<string>, tag: nat, later: Strings)
    requires GF.Plain(typeName) && forall n :: n in fields ==> GF.Plain(n)
    requires AddStrings(StringTable.Added(table, NameBytes(typeName)), fields).1 <= later
    ensures ReadsAs(later, StoredSchema(|table|, tag, AddStrings(StringTable.Added(table, NameBytes(typeName)), fields).0), typeName, tag, fields)
  {
    hide CString, GF.Plain, AddStrings, Written;
    NameIsRead(table, typeName, later);
    NamesAreRead(StringTable.Added(table, NameBytes(typeName)), fields, later);
  }
}
