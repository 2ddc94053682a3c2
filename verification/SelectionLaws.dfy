/** Variants in the program's own terms: an instance is one of its own variant and of no other, a
    selection runs the case that names it, and the names a case binds are the instance's fields
    (crates/compiler-core/src/codegen/bcgen.rs, crates/vm-interp/src/interpreter.rs,
    runtime/variant.c). */
module SelectionLaws {
  import opened Results
  import opened Bytecode
  import opened Ast
  import opened Scoping
  import opened Semantics
  import opened Linking
  import opened HeldLoops
  import opened NameLaws
  import opened TypeLaws
  import RT = Runtime

  // ---------------------------------------------------------------- instances

  /** An instance made with one schema is accepted by exactly the schemas of the same tag. */
  lemma MatchesIff(lib: RT.Library, h: Heap, s: int, vs: seq<Value>, v: Value, h': Heap, t: int)
    requires RT.NewVariant(lib, h, s, vs) == Ok((v, h')) && 0 <= t < |lib.schemas|
    ensures RT.MatchesVariant(lib, h', v, t) == Ok(lib.schemas[t].tag == lib.schemas[s].tag)
  {
  }

  /** What is no instance is accepted by none. */
  lemma OthersNeverMatch(lib: RT.Library, h: Heap, v: Value, t: int)
    requires (match RT.Deref(h, v) case Some(Variant(_, _)) => false case _ => true) && 0 <= t < |lib.schemas|
    ensures RT.MatchesVariant(lib, h, v, t) == Ok(false)
  {
  }

  // ---------------------------------------------------------------- construction and fields

  /** A constructor makes an instance of its own schema, with the arguments as its fields. */
  lemma Constructed(w: World, fuel: nat, cfg: Config, sc: Scope, name: string, arguments: seq<Expr>, vs: seq<Value>, m: Mem, m1: Mem)
    requires name in cfg.variants && |arguments| == |cfg.variants[name].fields|
    requires cfg.variants[name].schema < |w.lib.schemas| && |w.lib.schemas[cfg.variants[name].schema].fields| == |arguments|
    requires EvalExprs(w, fuel, cfg, sc, arguments, m) == Ok((vs, m1))
    ensures EvalExpr(w, fuel, cfg, sc, FunctionCall(Name(name), arguments), m)
      == Ok((RT.Ref(|m1.heap|), m1.(heap := m1.heap + [RT.Variant(cfg.variants[name].schema, vs)])))
  {
    hide EvalExprs;
  }

  /** `e.f` is the content at the field's position. */
  lemma FieldRead(w: World, fuel: nat, cfg: Config, sc: Scope, e: Expr, f: string, a: nat, m: Mem, m1: Mem)
    requires EvalExpr(w, fuel, cfg, sc, e, m) == Ok((RT.Ref(a), m1)) && a < |m1.heap| && m1.heap[a].Variant?
    requires f in cfg.fieldIndices && cfg.fieldIndices[f] < |m1.heap[a].fields|
    ensures EvalExpr(w, fuel, cfg, sc, Binary(Dot, e, Name(f)), m) == Ok((m1.heap[a].fields[cfg.fieldIndices[f]], m1))
  {
  }

  /** `e.f := x` changes that content of that one object and nothing else. */
  lemma FieldAssigned(w: World, fuel: nat, cfg: Config, sc: Scope, e: Expr, f: string, x: Expr, v: Value, a: nat, m: Mem, m1: Mem, m2: Mem)
    requires EvalExpr(w, fuel, cfg, sc, x, m) == Ok((v, m1)) && EvalExpr(w, fuel, cfg, sc, e, m1) == Ok((RT.Ref(a), m2))
    requires a < |m2.heap| && m2.heap[a].Variant? && f in cfg.fieldIndices && cfg.fieldIndices[f] < |m2.heap[a].fields|
    ensures var o, i := m2.heap[a], cfg.fieldIndices[f];
      EvalStmt(w, fuel, cfg, sc, Assignment(FieldTarget(e, f), x), m)
        == Ok((Normal, m2.(heap := m2.heap[a := RT.Variant(o.schema, o.fields[i := v])])))
  {
    hide EvalExpr;
  }

  // ---------------------------------------------------------------- selection

  /** The case names the variant, with or without names for its fields. */
  predicate Names(c: Case, d: VariantDef) {
    && c.values != []
    && ((c.values[0] == Name(d.name) && d.fields == []) || (c.values[0].FunctionCall? && c.values[0].function_ == Name(d.name)))
  }

  predicate NamesOther(c: Case, variants: seq<VariantDef>, k: nat) { exists i :: 0 <= i < |variants| && i != k && Names(c, variants[i]) }

  /** The names a case gives to the fields. */
  function Given(c: Case): seq<Expr> { if c.values != [] && c.values[0].FunctionCall? then c.values[0].arguments else [] }

  /** An instance of the variant. */
  predicate InstanceOf(g: Gen, d: VariantDef, h: Heap, v: Value) {
    d.name in g.variants && RT.IsVariant(h, v) && h[v.addr].schema == g.variants[d.name].schema
  }

  /** A case is taken for an instance of the variant it names, and for no other of the type. */
  lemma TestIff(w: World, fuel: nat, cfg: Config, sc: Scope, subject: Subject, c: Case, g: Gen, variants: seq<VariantDef>, i: nat, k: nat,
                v: Value, m: Mem)
    requires Known(g, variants) && cfg.variants == g.variants && SameTags(w.lib, g) && i < |variants| && k < |variants|
    requires Names(c, variants[i]) && InstanceOf(g, variants[k], m.heap, v) && EvalSubject(w, cfg, sc, subject, m) == Ok((v, m))
    ensures EvalTest(w, fuel, cfg, sc, subject, c, m) == Ok((i == k, m)) && Bindings(cfg, c) == Given(c)
  {
    hide EvalSubject, EvalExpr;
    assert KnownAs(g, variants[i], i) && KnownAs(g, variants[k], k);
  }

  /** What taking a case means: its names are bound, its body runs. */
  function Taken(w: World, fuel: nat, cfg: Config, sc: Scope, subject: Subject, c: Case, m: Mem): Result<(Option<Flow>, Mem)> {
    var m2 :- BindFields(w, cfg, sc, subject, Given(c), 0, m);
    var (flow, m3) :- EvalBlock(w, fuel, cfg, BindAll(sc, Given(c)), c.body, m2);
    Ok((Some(flow), m3))
  }

  /** A selection over an instance of the k-th variant passes over the cases of the type's other
      variants and runs the first case that names the k-th. */
  lemma {:induction false} SelectsItsCase(w: World, fuel: nat, cfg: Config, sc: Scope, subject: Subject, cases: seq<Case>, j: nat,
                                          g: Gen, variants: seq<VariantDef>, k: nat, v: Value, m: Mem)
    requires Known(g, variants) && cfg.variants == g.variants && SameTags(w.lib, g) && k < |variants| && j < |cases|
    requires InstanceOf(g, variants[k], m.heap, v) && Names(cases[j], variants[k])
    requires forall p :: 0 <= p < j ==> NamesOther(cases[p], variants, k)
    requires forall p :: 0 <= p <= j ==> EvalSubject(w, cfg, AfterCases(cfg, sc, cases[..p]), subject, m) == Ok((v, m))
    ensures EvalCases(w, fuel, cfg, sc, subject, cases, m) == Taken(w, fuel, cfg, AfterCases(cfg, sc, cases[..j]), subject, cases[j], m)
    decreases j
  {
    hide EvalSubject, EvalTest, EvalBlock, BindFields, Known, SameTags, InstanceOf, Names, Given, AfterCase;
    assert cases[..0] == [] && AfterCases(cfg, sc, cases[..0]) == sc;
    if j == 0 {
      TestIff(w, fuel, cfg, sc, subject, cases[0], g, variants, k, k, v, m);
    } else {
      assert NamesOther(cases[0], variants, k);
      var i :| 0 <= i < |variants| && i != k && Names(cases[0], variants[i]);
      TestIff(w, fuel, cfg, sc, subject, cases[0], g, variants, i, k, v, m);
      var sc1 := AfterCase(cfg, sc, cases[0]);
      forall p | 0 <= p < j
        ensures AfterCases(cfg, sc1, cases[1..][..p]) == AfterCases(cfg, sc, cases[..p + 1])
      {
        assert cases[..p + 1] == [cases[0]] + cases[1..][..p];
      }
      SelectsItsCase(w, fuel, cfg, sc1, subject, cases[1..], j - 1, g, variants, k, v, m);
    }
  }

  /** So does a whole selection whose subject is computed: it runs that case and ends as it does. */
  lemma SelectionRuns(w: World, fuel: nat, cfg: Config, sc: Scope, s: Stmt, j: nat, g: Gen, variants: seq<VariantDef>, k: nat,
                      v: Value, m: Mem, m1: Mem, m2: Mem)
    requires Known(g, variants) && cfg.variants == g.variants && SameTags(w.lib, g) && k < |variants|
    requires s.ValueMatch? && !s.subject.Name? && j < |s.cases| && Names(s.cases[j], variants[k])
    requires forall p :: 0 <= p < j ==> NamesOther(s.cases[p], variants, k)
    requires EvalExpr(w, fuel, cfg, Allocate(sc, HiddenName("match", s.span)), s.subject, m) == Ok((v, m1))
    requires InstanceOf(g, variants[k], m1.heap, v) && Write(m1, NextSlot(sc), v) == Ok(m2)
    ensures var sc1 := Allocate(sc, HiddenName("match", s.span));
      EvalStmt(w, fuel, cfg, sc, s, m) ==
        match Taken(w, fuel, cfg, AfterCases(cfg, sc1, s.cases[..j]), Held(NextSlot(sc)), s.cases[j], m2)
        case Ok((flow, m3)) => Ok((flow.value, m3))
        case Err(e) => Err(e)
  {
    hide EvalExpr, EvalCases, EvalBlock, BindFields, Known, SameTags, Names, NamesOther, Given, AfterCases, HiddenName;
    var sc1 := Allocate(sc, HiddenName("match", s.span));
    assert EvalSubject(w, cfg, sc1, Held(NextSlot(sc)), m2) == Ok((v, m2));
    SelectsItsCase(w, fuel, cfg, sc1, Held(NextSlot(sc)), s.cases, j, g, variants, k, v, m2);
    EvaluatesMatch(w, fuel, cfg, sc, s, v, m, m1, m2);
  }

  lemma EvaluatesMatch(w: World, fuel: nat, cfg: Config, sc: Scope, s: Stmt, v: Value, m: Mem, m1: Mem, m2: Mem)
    requires s.ValueMatch? && !s.subject.Name?
    requires EvalExpr(w, fuel, cfg, Allocate(sc, HiddenName("match", s.span)), s.subject, m) == Ok((v, m1)) && Write(m1, NextSlot(sc), v) == Ok(m2)
    ensures var sc1 := Allocate(sc, HiddenName("match", s.span));
      match EvalCases(w, fuel, cfg, sc1, Held(NextSlot(sc)), s.cases, m2)
      case Ok((Some(flow), m3)) => EvalStmt(w, fuel, cfg, sc, s, m) == Ok((flow, m3))
      case Ok((None, _)) => true
      case Err(e) => EvalStmt(w, fuel, cfg, sc, s, m) == Err(e)
  {
    hide EvalExpr, EvalCases, HiddenName, EvalElse;
    assert EvalHeld(w, fuel, cfg, Allocate(sc, HiddenName("match", s.span)), s.subject, NextSlot(sc), m) == Ok(m2);
  }

  // ---------------------------------------------------------------- bound fields

  /** The subject can be read again while the names are bound. */
  predicate Rereads(cfg: Config, sc: Scope, subject: Subject, names: seq<Expr>) {
    match subject
    case Held(x) => (x.rel.Local? ==> x.index < sc.localCounter) && (x.rel.Global? ==> x.index < sc.globalCounter)
    case Reread(name) => IsVariable(cfg, name) && forall n :: n in names ==> n != Name(name)
  }

  predicate DifferentNames(cfg: Config, names: seq<Expr>) {
    && (forall i :: 0 <= i < |names| ==> names[i].Name? && IsVariable(cfg, names[i].name))
    && forall i, j :: 0 <= i < j < |names| ==> names[i] != names[j]
  }

  /** One name bound: the subject and every other name keep their values. */
  lemma BindsOne(w: World, cfg: Config, sc: Scope, subject: Subject, names: seq<Expr>, v: Value, field: Value, m: Mem, m2: Mem)
    requires Standing(sc) && names != [] && DifferentNames(cfg, names) && Rereads(cfg, sc, subject, names)
    requires EvalSubject(w, cfg, sc, subject, m) == Ok((v, m)) && Write(m, NextSlot(sc), field) == Ok(m2)
    ensures var sc1 := Allocate(sc, names[0].name);
      && Standing(sc1) && Rereads(cfg, sc1, subject, names[1..]) && EvalSubject(w, cfg, sc1, subject, m2) == Ok((v, m2))
      && NameValue(w, cfg, sc1, names[0].name, m2) == Ok(field)
      && forall y :: y != names[0].name && IsVariable(cfg, y) ==> NameValue(w, cfg, sc1, y, m2) == NameValue(w, cfg, sc, y, m)
  {
    var n := names[0].name;
    NewestReads(w, cfg, sc, n, field, m, m2);
    hide Standing, NextSlot, Allocate, NameValue;
    if subject.Held? {
      HeldStays(cfg, sc, subject, names, n, field, m, m2);
    } else {
      assert names[0] in names && subject.name != n && forall x :: x in names[1..] ==> x in names;
      NamedStays(w, cfg, sc, n, subject.name, v, m, m2);
    }
  }

  /** A name just given a slot reads it, and every other reads what it read. */
  lemma NewestReads(w: World, cfg: Config, sc: Scope, n: string, field: Value, m: Mem, m2: Mem)
    requires Standing(sc) && IsVariable(cfg, n) && Write(m, NextSlot(sc), field) == Ok(m2)
    ensures var sc1 := Allocate(sc, n);
      && Standing(sc1) && NameValue(w, cfg, sc1, n, m2) == Ok(field)
      && forall y :: y != n && IsVariable(cfg, y) ==> NameValue(w, cfg, sc1, y, m2) == NameValue(w, cfg, sc, y, m)
  {
    AllocateDistinct(sc, n);
    hide Distinct;
    forall y | y != n && IsVariable(cfg, y) ensures NameValue(w, cfg, Allocate(sc, n), y, m2) == NameValue(w, cfg, sc, y, m) {
      OtherName(w, cfg, sc, n, y, field, m, m2);
    }
  }

  lemma HeldStays(cfg: Config, sc: Scope, subject: Subject, names: seq<Expr>, n: string, field: Value, m: Mem, m2: Mem)
    requires subject.Held? && names != [] && Rereads(cfg, sc, subject, names) && Write(m, NextSlot(sc), field) == Ok(m2)
    ensures Rereads(cfg, Allocate(sc, n), subject, names[1..]) && Read(m2, subject.slot) == Read(m, subject.slot)
  {
    WriteElsewhere(m, subject.slot, NextSlot(sc), field);
  }

  /** A variable whose value stays is read again as before. */
  lemma NamedStays(w: World, cfg: Config, sc: Scope, n: string, name: string, v: Value, m: Mem, m2: Mem)
    requires IsVariable(cfg, name) && EvalName(w, cfg, sc, name, m) == Ok((v, m))
    requires NameValue(w, cfg, Allocate(sc, n), name, m2) == NameValue(w, cfg, sc, name, m)
    ensures EvalName(w, cfg, Allocate(sc, n), name, m2) == Ok((v, m2))
  {
    hide Allocate, FindVariable;
  }

  /** One level of the binding: the first name's field is written to the next slot. */
  lemma BindStep(w: World, cfg: Config, sc: Scope, subject: Subject, names: seq<Expr>, k: nat, a: nat, m: Mem, m': Mem) returns (m2: Mem)
    requires names != [] && EvalSubject(w, cfg, sc, subject, m) == Ok((RT.Ref(a), m)) && a < |m.heap| && m.heap[a].Variant?
    requires BindFields(w, cfg, sc, subject, names, k, m) == Ok(m')
    ensures k < |m.heap[a].fields| && names[0].Name? && Write(m, NextSlot(sc), m.heap[a].fields[k]) == Ok(m2) && m2.heap == m.heap
    ensures BindFields(w, cfg, Allocate(sc, names[0].name), subject, names[1..], k + 1, m2) == Ok(m')
  {
    hide EvalSubject, NextSlot, Allocate;
    m2 := Write(m, NextSlot(sc), m.heap[a].fields[k]).value;
  }

  /** The names read the fields from the k-th on. */
  predicate ReadFields(w: World, cfg: Config, sc: Scope, names: seq<Expr>, k: nat, fields: seq<Value>, m: Mem) {
    k + |names| <= |fields| && forall i :: 0 <= i < |names| ==> names[i].Name? && NameValue(w, cfg, sc, names[i].name, m) == Ok(fields[k + i])
  }

  /** Every variable but those named has the value it had. */
  ghost predicate OthersKeep(w: World, cfg: Config, before: Scope, m: Mem, names: seq<Expr>, after: Scope, m': Mem) {
    forall y :: IsVariable(cfg, y) && Name(y) !in names ==> NameValue(w, cfg, after, y, m') == NameValue(w, cfg, before, y, m)
  }

  lemma OneMoreRead(w: World, cfg: Config, sc: Scope, name: Expr, rest: seq<Expr>, k: nat, fields: seq<Value>, m: Mem)
    requires name.Name? && k < |fields| && NameValue(w, cfg, sc, name.name, m) == Ok(fields[k]) && ReadFields(w, cfg, sc, rest, k + 1, fields, m)
    ensures ReadFields(w, cfg, sc, [name] + rest, k, fields, m)
  {
    hide NameValue;
  }

  lemma KeepOn(w: World, cfg: Config, sc: Scope, m: Mem, name: Expr, sc1: Scope, m1: Mem, rest: seq<Expr>, sc2: Scope, m2: Mem)
    requires OthersKeep(w, cfg, sc, m, [name], sc1, m1) && OthersKeep(w, cfg, sc1, m1, rest, sc2, m2)
    ensures OthersKeep(w, cfg, sc, m, [name] + rest, sc2, m2)
  {
    hide NameValue, IsVariable;
  }

  /** The i-th name of a case reads the instance's i-th field; other names keep their values. */
  lemma {:induction false} BoundRead(w: World, cfg: Config, sc: Scope, subject: Subject, names: seq<Expr>, k: nat, a: nat, m: Mem, m': Mem)
    requires Standing(sc) && DifferentNames(cfg, names) && Rereads(cfg, sc, subject, names)
    requires EvalSubject(w, cfg, sc, subject, m) == Ok((RT.Ref(a), m)) && a < |m.heap| && m.heap[a].Variant? && k <= |m.heap[a].fields|
    requires BindFields(w, cfg, sc, subject, names, k, m) == Ok(m')
    ensures ReadFields(w, cfg, BindAll(sc, names), names, k, m.heap[a].fields, m')
    ensures OthersKeep(w, cfg, sc, m, names, BindAll(sc, names), m') && m'.heap == m.heap
    decreases |names|
  {
    hide EvalSubject, NameValue, Standing, IsVariable, Rereads, Write, NextSlot, Allocate, ReadFields, OthersKeep, DifferentNames;
    if names == [] {
      NothingBound(w, cfg, sc, k, m.heap[a].fields, m);
    } else {
      var n, fields, rest := names[0], m.heap[a].fields, names[1..];
      var m2 := BindStep(w, cfg, sc, subject, names, k, a, m, m');
      var sc1, sc2 := Allocate(sc, n.name), BindAll(sc, names);
      OthersDiffer(cfg, names);
      BindsOne(w, cfg, sc, subject, names, RT.Ref(a), fields[k], m, m2);
      BoundRead(w, cfg, sc1, subject, rest, k + 1, a, m2, m');
      assert names == [n] + rest && sc2 == BindAll(sc1, rest);
      hide BindFields, BindAll;
      FirstStays(w, cfg, sc1, m2, n, rest, sc2, m');
      OneMoreRead(w, cfg, sc2, n, rest, k, fields, m');
      KeepsOthers(w, cfg, sc, m, n, sc1, m2);
      KeepOn(w, cfg, sc, m, n, sc1, m2, rest, sc2, m');
    }
  }

  lemma NothingBound(w: World, cfg: Config, sc: Scope, k: nat, fields: seq<Value>, m: Mem)
    ensures k <= |fields| ==> ReadFields(w, cfg, sc, [], k, fields, m)
    ensures OthersKeep(w, cfg, sc, m, [], sc, m)
  {
    hide NameValue;
  }

  lemma OthersDiffer(cfg: Config, names: seq<Expr>)
    requires DifferentNames(cfg, names) && names != []
    ensures DifferentNames(cfg, names[1..]) && names[0].Name? && IsVariable(cfg, names[0].name) && names[0] !in names[1..]
  {
  }

  lemma FirstStays(w: World, cfg: Config, sc1: Scope, m2: Mem, n: Expr, rest: seq<Expr>, sc2: Scope, m': Mem)
    requires n.Name? && IsVariable(cfg, n.name) && n !in rest && OthersKeep(w, cfg, sc1, m2, rest, sc2, m')
    ensures NameValue(w, cfg, sc2, n.name, m') == NameValue(w, cfg, sc1, n.name, m2)
  {
    hide NameValue, IsVariable;
    assert Name(n.name) !in rest;
  }

  lemma KeepsOthers(w: World, cfg: Config, sc: Scope, m: Mem, n: Expr, sc1: Scope, m2: Mem)
    requires n.Name? && forall y :: y != n.name && IsVariable(cfg, y) ==> NameValue(w, cfg, sc1, y, m2) == NameValue(w, cfg, sc, y, m)
    ensures OthersKeep(w, cfg, sc, m, [n], sc1, m2)
  {
    hide NameValue, IsVariable;
    forall y | IsVariable(cfg, y) && Name(y) !in [n] ensures NameValue(w, cfg, sc1, y, m2) == NameValue(w, cfg, sc, y, m) {
      assert y != n.name by { assert Name(n.name) == n && n in [n]; }
    }
  }
}
