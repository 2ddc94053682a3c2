/** From modules to a finished run: the assembled bytes of a compiled program, executed from
    the boot state, compute what the modules mean. */
module ProgramCorrectness {
  import opened Results
  import opened Bytecode
  import opened Numbers
  import opened Encoding
  import opened Assembly
  import opened Ast
  import opened Scoping
  import opened Codegen
  import opened Linking
  import opened Semantics
  import opened Frames
  import opened CompilerCorrectness
  import M = Machine
  import RT = Runtime

  // Where the units stand

  ghost predicate UnitsPlaced(k: Linked, units: seq<NamedUnit>) {
    forall u :: u in units ==> u.name in k.labels && UnitPlaced(k, Here(k, u.name), u.unit)
  }

  lemma UnitPlaces(k: Linked, ip: nat, name: string, u: Unit, n: nat, tab: Strings, env: GenEnv, body: Code, rest: Code)
    requires EmitBlock(u.cfg, GenEnv(u.scope, n, [], tab), u.body) == Ok((env, body))
    requires u.scope.localCounter == 0 && env.strings <= k.img.strings
    requires Placed(k, ip, [LABEL(name)] + UnitCode(u, body) + rest)
    ensures name in k.labels && Here(k, name) == ip && UnitPlaced(k, ip, u)
    ensures Placed(k, Past(ip, UnitCode(u, body)), rest)
  {
    hide Placed, Extent, EmitBlock, UnitCode;
    var code := UnitCode(u, body);
    PlacedSplit(k, ip, [LABEL(name)] + code, rest);
    PlacedSplit(k, ip, [LABEL(name)], code);
    PlacedLabel(k, ip, name);
    assert UnitAt(k, ip, u, n, tab);
  }

  predicate FreshFrames(units: seq<NamedUnit>) { forall u :: u in units ==> u.unit.scope.localCounter == 0 }

  /** Linking puts every unit in place, at its label. */
  lemma {:induction false} UnitsLink(k: Linked, ip: nat, units: seq<NamedUnit>, n: nat, tab: Strings)
    requires FreshFrames(units) && EmitUnits(units, n, tab).Ok? && UnitsTable(EmitUnits(units, n, tab)) <= k.img.strings
    requires Placed(k, ip, UnitsCode(EmitUnits(units, n, tab)))
    ensures UnitsPlaced(k, units)
    decreases |units|
  {
    hide Placed, Extent, EmitBlock, UnitCode, UnitPlaced;
    if units != [] {
      var u := units[0].unit;
      var (env, body) := EmitBlock(u.cfg, GenEnv(u.scope, n, [], tab), u.body).value;
      var rest := UnitsCode(EmitUnits(units[1..], env.labels, env.strings));
      UnitPlaces(k, ip, units[0].name, u, n, tab, env, body, rest);
      UnitsLink(k, Past(ip, UnitCode(u, body)), units[1..], env.labels, env.strings);
      assert units == [units[0]] + units[1..];
    }
  }

  lemma {:induction false} FunctionUnitsFresh(m: ModuleDef, cfg: Config, top: Scope, functions: seq<FunctionDef>)
    ensures FreshFrames(FunctionUnits(m, cfg, top, functions))
  {
    if functions != [] { FunctionUnitsFresh(m, cfg, top, functions[1..]); }
  }

  lemma UnitsOfFresh(m: ModuleDef, g: Gen)
    ensures FreshFrames(UnitsOf(m, g))
  {
    FunctionUnitsFresh(m, ConfigOf(m, g), TopScope(m, g), m.functions);
  }

  lemma {:induction false} ModulesLink(k: Linked, ip: nat, ms: seq<ModuleDef>, g: Gen)
    requires EmitModules(ms, g).Ok? && ModulesGen(EmitModules(ms, g)).strings <= k.img.strings
    requires Placed(k, ip, ModulesCode(EmitModules(ms, g)))
    ensures UnitsPlaced(k, ModulesUnits(EmitModules(ms, g)))
    ensures forall m :: m in ms ==> InitLabel(m) in k.labels
    decreases |ms|
  {
    hide Placed, Extent, EmitBlock, UnitPlaced, EmitUnits, AddTypes, TopScope;
    if ms != [] {
      var m := ms[0];
      var g1 := AddTypes(g, m.types);
      var units := UnitsOf(m, g1);
      var (n, tab, code) := EmitUnits(units, g1.labels, g1.strings).value;
      var g2 := g1.(globals := TopScope(m, g1).globalCounter, labels := n, strings := tab);
      var (g3, units', code') := EmitModules(ms[1..], g2).value;
      PlacedSplit(k, ip, code, code');
      UnitsOfFresh(m, g1);
      UnitsLink(k, ip, units, g1.labels, g1.strings);
      ModulesLink(k, ip + Extent(code), ms[1..], g2);
      assert units[0] in units && units[0].name == InitLabel(m);
      assert ms == [m] + ms[1..];
    }
  }

  lemma {:induction false} UnitMapPlaced(k: Linked, units: seq<NamedUnit>, entry: nat)
    requires UnitsPlaced(k, units) && entry in UnitMap(k.labels, units)
    ensures UnitPlaced(k, entry, UnitMap(k.labels, units)[entry])
  {
    hide UnitPlaced;
    if units != [] {
      assert units[0] in units;
      if entry != k.labels[units[0].name] {
        assert forall u :: u in units[1..] ==> u in units;
        UnitMapPlaced(k, units[1..], entry);
      }
    }
  }

  // The entry code

  /** Main's own frame: the words of the emulated call below it. */
  function MainFrame(globals: nat): Frame { Frame([RT.Int(0), RT.Int(2)] + RT.Zeros(5), 0, globals, 0) }

  lemma MainBegins(k: Linked, ip: nat)
    requires Placed(k, ip, [BEGIN(0, 0)]) && FitsI32(k.img.globals)
    ensures M.Reaches(k.img, M.Boot(k.img, ip),
      At(MainFrame(k.img.globals), StartMem(k.img.globals), [], Past(ip, [BEGIN(0, 0)])))
  {
    hide Placed, M.ExecPrim, M.ExecEnd, M.ExecCallc, M.ExecCall, M.ExecLoad, M.ExecStore;
    PlacedOne(k, ip, BEGIN(0, 0));
    var g := k.img.globals;
    var s := M.Boot(k.img, ip);
    var fr, m := MainFrame(g), StartMem(g);
    var below := RT.Zeros(g) + fr.below;
    assert s.stack == below + [RT.Int(0)] && s.stack[..|below|] == below;
    assert Base(fr, m) + [] == below + M.FrameMeta(0, 0, g, RT.Int(0)) + RT.Zeros(0);
    M.ReachesByStep(k.img, s, At(fr, m, [], ip + Extent([BEGIN(0, 0)])));
  }

  lemma {:induction false} InitsRun(k: Linked, fuel: nat, ms: seq<ModuleDef>, fr: Frame, m: Mem, ip: nat)
    requires Ready(k, m, fr) && Placed(k, ip, InitCalls(ms)) && EvalProgram(k.w, fuel, ms, m).Ok?
    ensures Changes(k, fr, m, [], ip, EvalProgram(k.w, fuel, ms, m), Past(ip, InitCalls(ms)))
    decreases |ms|
  {
    hide Computes, Loaded, Placed, Extent, Invoke, InvokeDone;
    if ms == [] {
      Nothing(k, fr, m, [], ip);
    } else {
      var callee := Static(InitLabel(ms[0]));
      var call, rest := [CALL(Named(InitLabel(ms[0])), 0)], InitCalls(ms[1..]);
      var (v, m1) := Invoke(k.w, fuel, callee, [], [], m).value;
      PlacedSplit(k, ip, call + [DROP], rest);
      PlacedSplit(k, ip, call, [DROP]);
      NoTemps();
      ExtentNil();
      Nothing(k, fr, m, [], ip);
      InvokeRuns(k, fuel, callee, [], [], fr, m, [], ip);
      ThenCall(k, fuel, callee, fr, m, [], ip, m, [], ip, m, [], ip);
      ThenOp(k, fr, m, [], ip, m1, [v], ip + Extent(call), DROP, M.Effect([], m1.heap, []));
      var at := ip + Extent(call + [DROP]);
      InitsRun(k, fuel, ms[1..], fr, m1, at);
      Then(k, fr, m, [], ip, m1, [], at, EvalProgram(k.w, fuel, ms[1..], m1).value, [], at + Extent(rest));
    }
  }

  /** Main's END returns to the globals boundary, which stops the run. */
  lemma MainEnds(k: Linked, m: Mem, v: Value, ip: nat)
    requires |m.globals| == k.img.globals && m.args == [] && m.locals == [] && Placed(k, ip, [END])
    ensures M.Step(k.img, At(MainFrame(k.img.globals), m, [v], ip)) == M.Halted(MainFinal(k.img.globals, m, v))
  {
    hide Placed, M.ExecPrim, M.ExecBegin, M.ExecCallc, M.ExecCall, M.ExecLoad, M.ExecStore;
    PlacedOne(k, ip, END);
    var g, fr := k.img.globals, MainFrame(k.img.globals);
    var s := At(fr, m, [v], ip);
    var base := Base(fr, m);
    assert s.stack == base + [v] && |base| == g + 7 + M.META;
    assert s.stack[g + 7 + 3] == RT.Int(g) && s.stack[g + 7 + 4] == RT.Int(0);
    assert s.stack[..g + 7] == m.globals + fr.below;
  }

  /** Globals as the program left them, the boot words, and main's result. */
  function MainFinal(globals: nat, m: Mem, v: Value): M.State {
    M.State(m.globals + MainFrame(globals).below + [v], m.heap, 0, globals, 0, 0, m.log)
  }

  /** The booted machine halts (or meets its stack limit) with the globals, heap and output of
      that memory. */
  ghost predicate Delivers(img: M.Image, main: nat, r: Result<Mem>) {
    match r
    case Ok(m) => (var (v, h) := RT.Alloc(m.heap, RT.Null); M.Halts(img, M.Boot(img, main), MainFinal(img.globals, m.(heap := h), v)))
    case Err(_) => false
  }

  lemma MainRuns(k: Linked, fuel: nat, ms: seq<ModuleDef>, ip: nat)
    requires Loaded(k) && k.img.lib == k.w.lib && k.img.lib.depth > 0 && k.w.entries == k.labels && FitsI32(k.img.globals)
    requires Placed(k, ip, MainCode(ms)) && EvalProgram(k.w, fuel, ms, StartMem(k.img.globals)).Ok?
    ensures MAIN in k.labels && Here(k, MAIN) == ip
    ensures Delivers(k.img, ip, EvalProgram(k.w, fuel, ms, StartMem(k.img.globals)))
  {
    hide M.Reaches, M.Halts, At, Loaded, Placed, Extent, EvalProgram, InitCalls, M.Step;
    var fr, m := MainFrame(k.img.globals), StartMem(k.img.globals);
    var begin, calls := [BEGIN(0, 0)], InitCalls(ms);
    PlacedSplit(k, ip, [LABEL(MAIN)] + begin + calls, [NULL] + [END]);
    PlacedSplit(k, ip + Extent([LABEL(MAIN)] + begin + calls), [NULL], [END]);
    PlacedSplit(k, ip, [LABEL(MAIN)] + begin, calls);
    PlacedSplit(k, ip, [LABEL(MAIN)], begin);
    PlacedLabel(k, ip, MAIN);
    MainBegins(k, ip);
    var callsAt := ip + Extent(begin);
    var nullAt := callsAt + Extent(calls);
    InitsRun(k, fuel, ms, fr, m, callsAt);
    var m' := EvalProgram(k.w, fuel, ms, m).value;
    var (v, h) := RT.Alloc(m'.heap, RT.Null);
    ThenNull(k, fr, m, callsAt, m', nullAt, v, h);
    var last := At(fr, m'.(heap := h), [v], nullAt + Extent([NULL]));
    M.ReachesTrans(k.img, M.Boot(k.img, ip), At(fr, m, [], callsAt), last);
    MainEnds(k, m'.(heap := h), v, nullAt + Extent([NULL]));
    M.ReachesThenHalts(k.img, M.Boot(k.img, ip), last, MainFinal(k.img.globals, m'.(heap := h), v));
  }

  lemma ThenNull(k: Linked, fr: Frame, m: Mem, ip: nat, m1: Mem, ip1: nat, v: Value, h: RT.Heap)
    requires Computes(k, fr, m, [], ip, m1, [], ip1) && |m1.globals| == k.img.globals
    requires Placed(k, ip1, [NULL]) && (v, h) == RT.Alloc(m1.heap, RT.Null)
    ensures M.Reaches(k.img, At(fr, m, [], ip), At(fr, m1.(heap := h), [v], Past(ip1, [NULL])))
  {
    hide M.Reaches, At, Placed, Extent;
    ThenOp(k, fr, m, [], ip, m1, [], ip1, NULL, M.Effect([v], h, []));
    assert [] + [v] == [v];
  }

  // The theorem

  /** An instruction never ends beyond the code. */
  lemma FetchWithin(code: seq<Byte>, ip: nat)
    requires Fetch(code, ip).Ok?
    ensures Fetch(code, ip).value.next <= |code|
  {
  }

  /** Labels from the first pass, bytes from the second. */
  ghost predicate Assembled(code: Code, labels: Labels, bytes: seq<Byte>) {
    AllCodable(code) && Place(code, 0, map[]) == Ok(labels) && Emit(labels, code) == Ok(bytes) && FitsI32(|bytes|)
  }

  /** Everything the compiled program and its source share. */
  function Link(ms: seq<ModuleDef>, labels: Labels, bytes: seq<Byte>, more: Strings, lib: RT.Library): Linked {
    var g := ProgramGen(ms);
    Linked(WorldOf(labels, ProgramUnits(ms), lib), M.Image(DecodedAt(bytes), g.strings + more, g.globals, lib), labels)
  }

  lemma LinkLoads(ms: seq<ModuleDef>, labels: Labels, bytes: seq<Byte>, more: Strings, lib: RT.Library)
    requires EmitProgram(ms).Ok? && Assembled(ProgramCode(ms), labels, bytes)
    ensures var k := Link(ms, labels, bytes, more, lib); Placed(k, 0, ProgramCode(ms)) && Loaded(k)
  {
    hide Fetch, EmitModules, Place, Emit, UnitPlaced, CodeAt, Placed, AllCodable, Extent, MainCode, UnitMap, UnitsPlaced;
    var k := Link(ms, labels, bytes, more, lib);
    var (g, units, code) := EmitProgram(ms).value;
    var emitted := EmitModules(ms, NEW_GEN).value;
    PlaceGrows(code, 0, map[]);
    AssembledCodeAt([], code, [], map[], labels);
    assert [] + bytes + [] == bytes;
    PlacedIs(k, code);
    PlacedSplit(k, 0, emitted.2, MainCode(ms));
    assert g.strings <= k.img.strings;
    ModulesLink(k, 0, ms, NEW_GEN);
    forall a | a in k.img.program ensures FitsI32(k.img.program[a].next) { FetchWithin(bytes, a); }
    forall a | a in k.w.units ensures UnitPlaced(k, a, k.w.units[a]) { UnitMapPlaced(k, units, a); }
  }

  lemma PlacedIs(k: Linked, code: Code)
    requires CodeAt(k.img.program, k.labels, 0, code)
    ensures Placed(k, 0, code)
  {
  }

  /** The whole chain: generator, two-pass assembler, byte-level fetch and machine. When the
      modules' initialisation has a meaning, the booted machine halts (or meets its stack
      limit) with exactly those globals, that heap and that output. */
  lemma ProgramRuns(ms: seq<ModuleDef>, labels: Labels, bytes: seq<Byte>, more: Strings, lib: RT.Library, fuel: nat)
    requires EmitProgram(ms).Ok? && Assembled(ProgramCode(ms), labels, bytes)
    requires lib.depth > 0 && FitsI32(ProgramGen(ms).globals)
    requires var k := Link(ms, labels, bytes, more, lib); EvalProgram(k.w, fuel, ms, StartMem(k.img.globals)).Ok?
    ensures MAIN in labels
    ensures var k := Link(ms, labels, bytes, more, lib);
      Delivers(k.img, OffsetOf(labels, MAIN), EvalProgram(k.w, fuel, ms, StartMem(k.img.globals)))
  {
    hide M.Halts, Loaded, Placed, Extent, EvalProgram, EmitModules, MainCode, Assembled;
    var k := Link(ms, labels, bytes, more, lib);
    LinkLoads(ms, labels, bytes, more, lib);
    var code := ModulesCode(EmitModules(ms, NEW_GEN));
    PlacedSplit(k, 0, code, MainCode(ms));
    MainRuns(k, fuel, ms, Extent(code));
  }
}
