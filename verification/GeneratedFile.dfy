/** The file `generate` produces (crates/compiler-core/src/codegen/bcgen.rs): after the code,
    the table gets the names of main and of every function, and a symbol for each. Written
    and read back it is the same file. */
module GeneratedFile {
  import opened Results
  import opened Bytecode
  import opened Numbers
  import opened Encoding
  import opened Assembly
  import opened Ast
  import opened Codegen
  import opened Linking
  import opened Container
  import opened StringTable
  import CC = CompilerCorrectness
  import F = Frames
  import PC = ProgramCorrectness
  import M = Machine
  import RT = Runtime
  import Utf8

  function FunctionNames(module_: string, functions: seq<FunctionDef>): seq<string> {
    if functions == [] then [] else [Qualified(module_, functions[0].name)] + FunctionNames(module_, functions[1..])
  }

  function Exported(ms: seq<ModuleDef>): seq<string> {
    if ms == [] then [] else FunctionNames(ms[0].name, ms[0].functions) + Exported(ms[1..])
  }

  /** Each name is appended to the table, then looked up again from its start. */
  function AddSymbols(strings: seq<Byte>, names: seq<string>, labels: Labels): Result<(seq<Byte>, seq<Symbol>)>
    decreases |names|
  {
    if names == [] then Ok((strings, []))
    else if names[0] !in labels then Err(UnknownLabel)
    else
      var strings1 := Added(strings, NameBytes(names[0]));
      match FindFrom(strings1, 0, NameBytes(names[0]))
      case None => Err(InvalidString)
      case Some(at) =>
        var (strings2, rest) :- AddSymbols(strings1, names[1..], labels);
        Ok((strings2, [Symbol(at, labels[names[0]])] + rest))
  }

  /** The finished file. */
  function FileOf(ms: seq<ModuleDef>, labels: Labels, bytes: seq<Byte>): Result<Contents> {
    var (g, _, _) :- EmitProgram(ms);
    var (strings, symbols) :- AddSymbols(g.strings, [MAIN] + Exported(ms), labels);
    var _ :- Need(MAIN in labels, UnknownLabel);
    Ok(Contents(|strings|, g.globals, |symbols|, symbols, g.schemas, strings, bytes, labels[MAIN]))
  }

  // Names

  predicate Plain(name: string) { forall c :: c in name ==> c != '\0' }

  lemma {:induction false} NameHasNoNul(name: string)
    requires Plain(name)
    ensures Utf8.NulFree(NameBytes(name))
  {
    if name != [] {
      assert name[0] in name;
      assert forall c :: c in name[1..] ==> c in name;
      Utf8.DecodeEncodeOne(name[0] as int, []);
      NameHasNoNul(name[1..]);
    }
  }

  lemma {:induction false} NulFreeIsWhole(s: seq<Byte>)
    requires Utf8.NulFree(s)
    ensures UpToNul(s) == s
  {
    if s != [] { NulFreeIsWhole(s[1..]); }
  }

  lemma MainName()
    ensures NameBytes(MAIN) == MAIN_NAME && Plain(MAIN)
  {
    assert NameBytes("n") == [110] + NameBytes("");
    assert NameBytes("in") == [105] + NameBytes("n");
    assert NameBytes("ain") == [97] + NameBytes("in");
    assert NameBytes("main") == [109] + NameBytes("ain");
  }

  // Schemas

  predicate SchemasIn(schemas: seq<StoredSchema>, tab: Strings) {
    forall s :: s in schemas ==> s.nameOffset < |tab| && OffsetsIn(s.fieldOffsets, |tab|)
  }

  lemma {:induction false} StringsIn(tab: Strings, names: seq<string>)
    ensures OffsetsIn(AddStrings(tab, names).0, |AddStrings(tab, names).1|)
    decreases |names|
  {
    if names != [] { StringsIn(Added(tab, NameBytes(names[0])), names[1..]); }
  }

  lemma {:induction false} VariantsIn(g: Gen, typeName: string, variants: seq<VariantDef>, tag: nat)
    requires SchemasIn(g.schemas, g.strings)
    ensures var r := AddVariants(g, typeName, variants, tag); SchemasIn(r.schemas, r.strings)
    decreases |variants|
  {
    if variants != [] {
      var v := variants[0];
      var (offsets, tab) := AddStrings(Added(g.strings, NameBytes(typeName)), v.fields);
      StringsIn(Added(g.strings, NameBytes(typeName)), v.fields);
      var g1 := g.(
        variants := g.variants[v.name := Scoping.VariantInfo(|g.schemas|, v.fields)],
        fieldIndices := AddFields(g.fieldIndices, v.fields, 0),
        schemas := g.schemas + [StoredSchema(|g.strings|, tag, offsets)],
        strings := tab);
      assert |g.strings| < |tab|;
      assert SchemasIn(g1.schemas, g1.strings);
      VariantsIn(g1, typeName, variants[1..], tag + 1);
    }
  }

  lemma {:induction false} TypesIn(g: Gen, types: seq<TypeDef>)
    requires SchemasIn(g.schemas, g.strings)
    ensures var r := AddTypes(g, types); SchemasIn(r.schemas, r.strings)
    decreases |types|
  {
    if types != [] {
      VariantsIn(g, types[0].name, types[0].variants, 0);
      TypesIn(AddVariants(g, types[0].name, types[0].variants, 0), types[1..]);
    }
  }

  lemma {:induction false} ModulesIn(ms: seq<ModuleDef>, g: Gen)
    requires EmitModules(ms, g).Ok? && SchemasIn(g.schemas, g.strings)
    ensures var r := ModulesGen(EmitModules(ms, g)); SchemasIn(r.schemas, r.strings)
    decreases |ms|
  {
    hide EmitUnits, AddTypes, TopScope, Terminated, UnitsOf;
    if ms != [] {
      var g1 := AddTypes(g, ms[0].types);
      TypesIn(g, ms[0].types);
      var (n, tab, _) := EmitUnits(UnitsOf(ms[0], g1), g1.labels, g1.strings).value;
      ModulesIn(ms[1..], g1.(globals := TopScope(ms[0], g1).globalCounter, labels := n, strings := tab));
    }
  }

  lemma {:induction false} UpToNulStable(s: seq<Byte>, more: seq<Byte>)
    requires s != [] && s[|s| - 1] == 0
    ensures UpToNul(s + more) == UpToNul(s)
    decreases |s|
  {
    if s[0] != 0 {
      assert (s + more)[1..] == s[1..] + more;
      UpToNulStable(s[1..], more);
    }
  }

  lemma CStringStable(strings: Strings, more: Strings, offset: nat)
    requires Terminated(strings) && offset < |strings|
    ensures CString(strings + more, offset) == CString(strings, offset)
  {
    assert (strings + more)[offset..] == strings[offset..] + more;
    UpToNulStable(strings[offset..], more);
  }

  /** Strings that are added later change no schema. */
  lemma SchemasStable(lib: RT.Library, schemas: seq<StoredSchema>, strings: Strings, more: Strings)
    requires Terminated(strings) && SchemasIn(schemas, strings)
    ensures WithSchemas(lib, schemas, strings + more) == WithSchemas(lib, schemas, strings)
  {
    hide Terminated, CString;
    forall i | 0 <= i < |schemas| ensures ReadSchema(strings + more, schemas[i]) == ReadSchema(strings, schemas[i]) {
      var s := schemas[i];
      assert s in schemas;
      CStringStable(strings, more, s.nameOffset);
      forall k | 0 <= k < |s.fieldOffsets| ensures CString(strings + more, s.fieldOffsets[k]) == CString(strings, s.fieldOffsets[k]) {
        assert s.fieldOffsets[k] in s.fieldOffsets;
        CStringStable(strings, more, s.fieldOffsets[k]);
      }
      assert ReadSchema(strings + more, s).fields == ReadSchema(strings, s).fields;
    }
    assert WithSchemas(lib, schemas, strings + more).schemas == WithSchemas(lib, schemas, strings).schemas;
  }

  // Symbols

  lemma StringAtInside(table: seq<Byte>, offset: int)
    requires StringAt(table, offset).Ok?
    ensures 0 <= offset < |table|
  {
  }

  /** Every name is found and its symbol points at its string and its code. */
  lemma {:induction false} SymbolsAdded(strings: seq<Byte>, names: seq<string>, labels: Labels, codeSize: nat)
    requires Terminated(strings) && forall n :: n in names ==> Plain(n) && n in labels && OffsetOf(labels, n) < codeSize
    ensures match AddSymbols(strings, names, labels)
      case Err(_) => false
      case Ok((strings', symbols)) =>
        && |symbols| == |names| && strings <= strings' && Terminated(strings')
        && (forall s :: s in symbols ==> s.offset < codeSize && s.name < |strings'|)
        && (names != [] ==> StringAt(strings', symbols[0].name) == Ok(NameBytes(names[0])) && symbols[0].offset == OffsetOf(labels, names[0]))
    decreases |names|
  {
    hide StringAt, UpToNul, NameBytes, Plain, FindFrom;
    if names != [] {
      var name := NameBytes(names[0]);
      assert names[0] in names;
      NameHasNoNul(names[0]);
      NulFreeIsWhole(name);
      FindFromComplete(strings, 0, name, []);
      var strings1 := Added(strings, name);
      assert strings1 + [] == strings1;
      SymbolsAdded(strings1, names[1..], labels, codeSize);
      var strings2 := AddSymbols(strings1, names[1..], labels).value.0;
      var at := FindFrom(strings1, 0, name).value;
      FindFromReads(strings1, 0, name);
      StringAtInside(strings1, at);
      StringAtStable(strings1, strings2[|strings1|..], at);
      assert strings2 == strings1 + strings2[|strings1|..];
    }
  }

  /** The symbol points at the name's string and at its code. */
  predicate Symbolises(strings: Strings, s: Symbol, name: string, labels: Labels) {
    StringAt(strings, s.name) == Ok(NameBytes(name)) && s.offset == OffsetOf(labels, name)
  }

  /** The i-th symbol is the i-th name's. */
  lemma {:induction false} SymbolsNamed(strings: seq<Byte>, names: seq<string>, labels: Labels, codeSize: nat)
    requires Terminated(strings) && forall n :: n in names ==> Plain(n) && n in labels && OffsetOf(labels, n) < codeSize
    ensures match AddSymbols(strings, names, labels)
      case Err(_) => false
      case Ok((strings', symbols)) => |symbols| == |names| && forall i :: 0 <= i < |names| ==> Symbolises(strings', symbols[i], names[i], labels)
    decreases |names|
  {
    hide StringAt, UpToNul, NameBytes, Plain, FindFrom, Added;
    SymbolsAdded(strings, names, labels, codeSize);
    if names != [] {
      var strings1 := Added(strings, NameBytes(names[0]));
      EndsTerminated(strings, NameBytes(names[0]));
      SymbolsNamed(strings1, names[1..], labels, codeSize);
      var (strings2, symbols) := AddSymbols(strings, names, labels).value;
      forall i | 0 <= i < |names| ensures Symbolises(strings2, symbols[i], names[i], labels) {
        if i > 0 { assert names[1..][i - 1] == names[i]; }
      }
    }
  }

  lemma EndsTerminated(strings: seq<Byte>, name: seq<Byte>)
    ensures Terminated(Added(strings, name))
  {
  }

  /** A unit's label is the offset of a BEGIN. */
  lemma LabelInCode(k: F.Linked, units: seq<NamedUnit>, u: NamedUnit, bytes: seq<Byte>)
    requires PC.UnitsPlaced(k, units) && u in units && k.img.program == DecodedAt(bytes)
    ensures u.name in k.labels && CC.Here(k, u.name) < |bytes|
  {
    hide Codegen.EmitBlock, Fetch, CodeAt, F.Placed;
    var n: nat, tab: Strings :| CC.UnitAt(k, k.labels[u.name], u.unit, n, tab);
    var body := Codegen.EmitBlock(u.unit.cfg, GenEnv(u.unit.scope, n, [], tab), u.unit.body).value.1;
    var begin, epilogue := [BEGIN(u.unit.arity, FrameSize(u.unit))], Epilogue(u.unit.scope.inFunction, u.unit.body);
    F.PlacedSplit(k, k.labels[u.name], begin + body, epilogue);
    F.PlacedSplit(k, k.labels[u.name], begin, body);
    F.PlacedOne(k, k.labels[u.name], begin[0]);
  }

  lemma {:induction false} FunctionsNamed(m: ModuleDef, cfg: Scoping.Config, top: Scoping.Scope, functions: seq<FunctionDef>, name: string)
    requires name in FunctionNames(m.name, functions)
    ensures exists u :: u in FunctionUnits(m, cfg, top, functions) && u.name == name
    decreases |functions|
  {
    var units := FunctionUnits(m, cfg, top, functions);
    if name == Qualified(m.name, functions[0].name) {
      assert units[0] in units;
    } else {
      FunctionsNamed(m, cfg, top, functions[1..], name);
      var u :| u in FunctionUnits(m, cfg, top, functions[1..]) && u.name == name;
      assert u in units;
    }
  }

  lemma {:induction false} ExportedNamed(ms: seq<ModuleDef>, g: Gen, name: string)
    requires EmitModules(ms, g).Ok? && name in Exported(ms)
    ensures exists u :: u in ModulesUnits(EmitModules(ms, g)) && u.name == name
    decreases |ms|
  {
    hide EmitUnits, AddTypes, TopScope;
    var m := ms[0];
    var g1 := AddTypes(g, m.types);
    var units := UnitsOf(m, g1);
    var (n, tab, _) := EmitUnits(units, g1.labels, g1.strings).value;
    var g2 := g1.(globals := TopScope(m, g1).globalCounter, labels := n, strings := tab);
    var all := ModulesUnits(EmitModules(ms, g));
    if name in FunctionNames(m.name, m.functions) {
      FunctionsNamed(m, ConfigOf(m, g1), TopScope(m, g1), m.functions, name);
      var u :| u in FunctionUnits(m, ConfigOf(m, g1), TopScope(m, g1), m.functions) && u.name == name;
      assert u in units && u in all;
    } else {
      ExportedNamed(ms[1..], g2, name);
      var u :| u in ModulesUnits(EmitModules(ms[1..], g2)) && u.name == name;
      assert u in all;
    }
  }

  lemma MainInCode(k: F.Linked, at: nat, ms: seq<ModuleDef>, bytes: seq<Byte>)
    requires F.Placed(k, at, MainCode(ms)) && k.img.program == DecodedAt(bytes)
    ensures MAIN in k.labels && CC.Here(k, MAIN) < |bytes|
  {
    hide Fetch, CodeAt, F.Placed;
    var rest := InitCalls(ms) + ([NULL] + [END]);
    assert MainCode(ms) == [LABEL(MAIN)] + ([BEGIN(0, 0)] + rest);
    F.PlacedSplit(k, at, [LABEL(MAIN)], [BEGIN(0, 0)] + rest);
    F.PlacedLabel(k, at, MAIN);
    F.PlacedSplit(k, at, [BEGIN(0, 0)], rest);
    F.PlacedOne(k, at, BEGIN(0, 0));
  }

  /** All exported names are in the code. */
  lemma NamesInCode(ms: seq<ModuleDef>, labels: Labels, bytes: seq<Byte>, lib: RT.Library)
    requires EmitProgram(ms).Ok? && PC.Assembled(ProgramCode(ms), labels, bytes)
    ensures forall n :: n in [MAIN] + Exported(ms) ==> n in labels && OffsetOf(labels, n) < |bytes|
  {
    hide EmitModules, PC.Assembled, PC.UnitsPlaced, F.Placed, MainCode, Exported, Fetch;
    var k := PC.Link(ms, labels, bytes, [], lib);
    var units, code := ProgramUnits(ms), ModulesCode(EmitModules(ms, NEW_GEN));
    PC.LinkLoads(ms, labels, bytes, [], lib);
    F.PlacedSplit(k, 0, code, MainCode(ms));
    assert k.img.strings == ProgramGen(ms).strings + [];
    PC.ModulesLink(k, 0, ms, NEW_GEN);
    MainInCode(k, Extent(code), ms, bytes);
    forall n | n in Exported(ms) ensures n in labels && OffsetOf(labels, n) < |bytes| {
      ExportedNamed(ms, NEW_GEN, n);
      var u :| u in units && u.name == n;
      LabelInCode(k, units, u, bytes);
    }
  }

  /** Everything fits the widths of the file format. */
  predicate Small(c: Contents) {
    && Fits32(|c.strings|) && Fits32(|c.symbols|) && Fits32(|c.schemas|) && Fits32(c.globalAreaSize)
    && forall s :: s in c.schemas ==> Fits16(s.tag) && Fits16(|s.fieldOffsets|)
  }

  /** The generated file is well formed: it parses back to itself, with main as entry. */
  lemma GeneratedSurvives(ms: seq<ModuleDef>, labels: Labels, bytes: seq<Byte>, lib: RT.Library)
    requires EmitProgram(ms).Ok? && PC.Assembled(ProgramCode(ms), labels, bytes)
    requires forall n :: n in Exported(ms) ==> Plain(n)
    ensures match FileOf(ms, labels, bytes)
      case Err(_) => false
      case Ok(c) => (Small(c) ==> WellFormed(c) && ParseFile(EncodeFile(c)) == Ok(c)) && c.code == bytes && ProgramGen(ms).strings <= c.strings
  {
    hide EmitModules, PC.Assembled, ParseFile, EncodeFile, Exported, AddSymbols, Terminated, FindMain;
    var g := ProgramGen(ms);
    NamesInCode(ms, labels, bytes, lib);
    MainName();
    StartsTerminated(ms);
    ModulesIn(ms, NEW_GEN);
    SymbolsAdded(g.strings, [MAIN] + Exported(ms), labels, |bytes|);
    var c := FileOf(ms, labels, bytes).value;
    if Small(c) {
      FitsSigned(ms, labels, bytes);
      FirstIsMain(c);
      assert CheckSymbols(c.symbols, |c.code| % TWO32, |c.strings|).Ok?;
      forall s | s in c.schemas ensures SchemaOk(s, |c.strings|) {
        assert s in g.schemas && |g.strings| <= |c.strings|;
      }
      SurvivesIff(c);
    }
  }

  lemma FitsSigned(ms: seq<ModuleDef>, labels: Labels, bytes: seq<Byte>)
    requires EmitProgram(ms).Ok? && PC.Assembled(ProgramCode(ms), labels, bytes)
    ensures |bytes| < 0x8000_0000
  {
    hide EmitProgram;
  }

  lemma StartsTerminated(ms: seq<ModuleDef>)
    requires EmitProgram(ms).Ok?
    ensures Terminated(ProgramGen(ms).strings)
  {
    hide EmitModules;
  }

  lemma FirstIsMain(c: Contents)
    requires c.symbols != [] && c.symbols[0].name <= |c.strings| && c.symbols[0].offset == c.main
    requires StringAt(c.strings, c.symbols[0].name) == Ok(MAIN_NAME)
    ensures FindMain(c.symbols, c.strings) == Ok(c.main)
  {
  }
}
