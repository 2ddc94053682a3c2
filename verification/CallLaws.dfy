/** In every compiled program each unit has an entry of its own, so a call by name runs the body
    that the module defines under that name (crates/compiler-core/src/codegen/bcgen.rs,
    crates/vm-core/src/bytefile.rs). */
module CallLaws {
  import opened Results
  import opened Bytecode
  import opened Assembly
  import opened Ast
  import opened Scoping
  import opened Codegen
  import opened Linking
  import opened Semantics
  import opened NameLaws
  import F = Frames
  import PC = ProgramCorrectness
  import RT = Runtime

  /** The units' entries climb within [low, high). */
  predicate Climbing(labels: Labels, units: seq<NamedUnit>, low: nat, high: nat) {
    && (forall i :: 0 <= i < |units| ==> units[i].name in labels && low <= labels[units[i].name] < high)
    && forall i, j :: 0 <= i < j < |units| ==> labels[units[i].name] < labels[units[j].name]
  }

  lemma ClimbOn(labels: Labels, a: seq<NamedUnit>, b: seq<NamedUnit>, low: nat, mid: nat, high: nat)
    requires Climbing(labels, a, low, mid) && Climbing(labels, b, mid, high) && low <= mid <= high
    ensures Climbing(labels, a + b, low, high)
  {
  }

  lemma ClimbOne(labels: Labels, u: NamedUnit, low: nat, high: nat)
    requires u.name in labels && labels[u.name] == low < high
    ensures Climbing(labels, [u], low, high)
  {
  }

  /** A unit's code begins with BEGIN, so it takes space. */
  lemma UnitTakesSpace(u: Unit, body: Code)
    ensures Extent(UnitCode(u, body)) > 0
  {
    hide FrameSize, Epilogue;
    var code := UnitCode(u, body);
    assert code[0].BEGIN? && Extent(code) == Size(code[0]) + Extent(code[1..]);
  }

  lemma {:induction false} UnitsClimb(k: F.Linked, ip: nat, units: seq<NamedUnit>, n: nat, tab: Strings)
    requires EmitUnits(units, n, tab).Ok? && F.Placed(k, ip, UnitsCode(EmitUnits(units, n, tab)))
    ensures Climbing(k.labels, units, ip, ip + Extent(UnitsCode(EmitUnits(units, n, tab))))
    decreases |units|
  {
    hide F.Placed, Extent, EmitBlock, UnitCode, Climbing;
    if units == [] {
      NoneClimb(k.labels, ip);
    } else {
      var u, name := units[0].unit, units[0].name;
      var (env, body) := EmitBlock(u.cfg, GenEnv(u.scope, n, [], tab), u.body).value;
      var code, rest := UnitCode(u, body), UnitsCode(EmitUnits(units[1..], env.labels, env.strings));
      F.PlacedSplit(k, ip, [LABEL(name)] + code, rest);
      F.PlacedSplit(k, ip, [LABEL(name)], code);
      F.PlacedLabel(k, ip, name);
      UnitTakesSpace(u, body);
      var mid := ip + Extent(code);
      UnitsClimb(k, mid, units[1..], env.labels, env.strings);
      ClimbOne(k.labels, units[0], ip, mid);
      assert units == [units[0]] + units[1..];
      ClimbOn(k.labels, [units[0]], units[1..], ip, mid, mid + Extent(rest));
    }
  }

  lemma NoneClimb(labels: Labels, ip: nat)
    ensures forall high: nat :: Climbing(labels, [], ip, high)
  {
  }

  lemma {:induction false} ModulesClimb(k: F.Linked, ip: nat, ms: seq<ModuleDef>, g: Gen)
    requires EmitModules(ms, g).Ok? && F.Placed(k, ip, ModulesCode(EmitModules(ms, g)))
    ensures Climbing(k.labels, ModulesUnits(EmitModules(ms, g)), ip, ip + Extent(ModulesCode(EmitModules(ms, g))))
    decreases |ms|
  {
    hide F.Placed, Extent, EmitUnits, Climbing, AddTypes, TopScope, FunctionUnits, ConfigOf;
    if ms == [] {
      NoneClimb(k.labels, ip);
    } else {
      var m := ms[0];
      var g1 := AddTypes(g, m.types);
      var units := UnitsOf(m, g1);
      var (n, tab, code) := EmitUnits(units, g1.labels, g1.strings).value;
      var g2 := g1.(globals := TopScope(m, g1).globalCounter, labels := n, strings := tab);
      var rest := EmitModules(ms[1..], g2);
      F.PlacedSplit(k, ip, code, ModulesCode(rest));
      UnitsClimb(k, ip, units, g1.labels, g1.strings);
      ModulesClimb(k, ip + Extent(code), ms[1..], g2);
      ClimbOn(k.labels, units, ModulesUnits(rest), ip, ip + Extent(code), ip + Extent(code) + Extent(ModulesCode(rest)));
    }
  }

  // ---------------------------------------------------------------- modules of a program

  /** What the generator knows when it comes to the i-th module, its types included. */
  function GenAt(ms: seq<ModuleDef>, g: Gen, i: nat): Gen
    requires i < |ms| && EmitModules(ms, g).Ok?
    decreases |ms|
  {
    var g1 := AddTypes(g, ms[0].types);
    if i == 0 then g1
    else
      var (n, tab, _) := EmitUnits(UnitsOf(ms[0], g1), g1.labels, g1.strings).value;
      GenAt(ms[1..], g1.(globals := TopScope(ms[0], g1).globalCounter, labels := n, strings := tab), i - 1)
  }

  lemma {:induction false} UnitsIncluded(ms: seq<ModuleDef>, g: Gen, i: nat)
    requires i < |ms| && EmitModules(ms, g).Ok?
    ensures forall u :: u in UnitsOf(ms[i], GenAt(ms, g, i)) ==> u in ModulesUnits(EmitModules(ms, g))
    decreases |ms|
  {
    hide EmitUnits, AddTypes, TopScope, UnitsOf;
    var g1 := AddTypes(g, ms[0].types);
    var (n, tab, _) := EmitUnits(UnitsOf(ms[0], g1), g1.labels, g1.strings).value;
    var g2 := g1.(globals := TopScope(ms[0], g1).globalCounter, labels := n, strings := tab);
    assert ModulesUnits(EmitModules(ms, g)) == UnitsOf(ms[0], g1) + ModulesUnits(EmitModules(ms[1..], g2));
    if i > 0 { UnitsIncluded(ms[1..], g2, i - 1); }
  }

  /** Every module of an assembled program has its units at entries of their own. */
  lemma ProgramHolds(ms: seq<ModuleDef>, labels: Labels, bytes: seq<Byte>, more: Strings, lib: RT.Library, i: nat)
    requires EmitProgram(ms).Ok? && PC.Assembled(ProgramCode(ms), labels, bytes) && i < |ms|
    ensures Holds(labels, ProgramUnits(ms), ms[i], GenAt(ms, NEW_GEN, i))
  {
    hide EmitModules, MainCode, F.Placed, PC.Assembled, Extent, GenAt, UnitsOf;
    var k := PC.Link(ms, labels, bytes, more, lib);
    var emitted := ModulesCode(EmitModules(ms, NEW_GEN));
    PC.LinkLoads(ms, labels, bytes, more, lib);
    F.PlacedSplit(k, 0, emitted, MainCode(ms));
    ModulesClimb(k, 0, ms, NEW_GEN);
    UnitsIncluded(ms, NEW_GEN, i);
    OwnEntries(labels, ProgramUnits(ms), 0, Extent(emitted));
  }

  lemma OwnEntries(labels: Labels, units: seq<NamedUnit>, low: nat, high: nat)
    requires Climbing(labels, units, low, high)
    ensures forall u, v :: u in units && v in units && u.name in labels && v.name in labels && labels[u.name] == labels[v.name] ==> u == v
    ensures forall u :: u in units ==> u.name in labels
  {
  }

  /** In an assembled program a call by name runs the body defined under that name, in a frame
      that holds the arguments by position. */
  lemma ProgramCallRuns(ms: seq<ModuleDef>, labels: Labels, bytes: seq<Byte>, more: Strings, lib: RT.Library, fuel: nat, i: nat, f: nat,
                        sc: Scope, arguments: seq<Expr>, vs: seq<Value>, m0: Mem, m1: Mem)
    requires EmitProgram(ms).Ok? && PC.Assembled(ProgramCode(ms), labels, bytes) && i < |ms| && Callable(ms[i], GenAt(ms, NEW_GEN, i), f)
    requires fuel > 0 && |arguments| == |ms[i].functions[f].parameters|
    requires EvalExprs(WorldOf(labels, ProgramUnits(ms), lib), fuel, ConfigOf(ms[i], GenAt(ms, NEW_GEN, i)), sc, arguments, m0) == Ok((vs, m1))
    ensures var w, g, d := WorldOf(labels, ProgramUnits(ms), lib), GenAt(ms, NEW_GEN, i), ms[i].functions[f];
      EvalExpr(w, fuel, ConfigOf(ms[i], g), sc, FunctionCall(Name(d.name), arguments), m0) ==
        Called(w, fuel - 1, Semantics.Unit(ConfigOf(ms[i], g), FunctionScope(TopScope(ms[i], g), d.parameters), |d.parameters|, d.body), vs,
          CalledIn(ms[i], g, d, vs, m1), m1)
  {
    hide EmitModules, MainCode, PC.Assembled, GenAt, Callable, Holds, EvalExprs, EvalExpr, TopScope, FunctionScope, Called, WorldOf;
    ProgramHolds(ms, labels, bytes, more, lib, i);
    CallRunsBody(labels, ProgramUnits(ms), lib, fuel, ms[i], GenAt(ms, NEW_GEN, i), f, sc, arguments, vs, m0, m1);
  }
}
