/** A compiled and assembled program is linked safely: every label is defined once, every
    call leads to a BEGIN of the right arity, slots fit their frames, and so every run of it
    keeps its frames intact. */
module ProgramSafety {
  import opened Results
  import opened Bytecode
  import opened Numbers
  import opened Encoding
  import opened Assembly
  import opened Ast
  import opened Scoping
  import opened Codegen
  import opened Linking
  import opened Balance
  import opened BalancedCode
  import opened Safety
  import CC = CompilerCorrectness
  import F = Frames
  import PC = ProgramCorrectness
  import M = Machine
  import RT = Runtime

  // What the modules must promise

  /** Constructors refer to stored schemas with their number of fields. */
  predicate VariantsStored(g: Gen) {
    forall v :: v in g.variants ==>
      var info := g.variants[v];
      info.schema < |g.schemas| && |g.schemas[info.schema].fieldOffsets| == |info.fields|
  }

  /** The interpreter's schemas are those of the bytefile. */
  predicate SchemasRead(g: Gen, lib: RT.Library) {
    |lib.schemas| == |g.schemas| && forall i :: 0 <= i < |g.schemas| ==> |lib.schemas[i].fields| == |g.schemas[i].fieldOffsets|
  }

  lemma {:induction false} VariantsAdded(g: Gen, typeName: string, variants: seq<VariantDef>, tag: nat)
    requires VariantsStored(g)
    ensures VariantsStored(AddVariants(g, typeName, variants, tag))
    decreases |variants|
  {
    if variants != [] {
      var v := variants[0];
      var (offsets, tab) := AddStrings(StringTable.Added(g.strings, NameBytes(typeName)), v.fields);
      var g1 := g.(
        variants := g.variants[v.name := VariantInfo(|g.schemas|, v.fields)],
        fieldIndices := AddFields(g.fieldIndices, v.fields, 0),
        schemas := g.schemas + [StoredSchema(|g.strings|, tag, offsets)],
        strings := tab);
      VariantsAdded(g1, typeName, variants[1..], tag + 1);
    }
  }

  lemma {:induction false} TypesAdded(g: Gen, types: seq<TypeDef>)
    requires VariantsStored(g)
    ensures VariantsStored(AddTypes(g, types))
    decreases |types|
  {
    if types != [] {
      VariantsAdded(g, types[0].name, types[0].variants, 0);
      TypesAdded(AddVariants(g, types[0].name, types[0].variants, 0), types[1..]);
    }
  }

  /** Calls in a unit give the arguments their callees take; BEGIN has 16 bits for the arity. */
  predicate UnitMatches(u: Unit) { BlockMatches(u.cfg, u.body) && u.arity < 65536 }

  /** An imported function is defined, with that many parameters, by some module. */
  predicate DefinedBy(units: seq<NamedUnit>, target: (string, nat)) {
    exists u :: u in units && u.name == target.0 && u.unit.arity == target.1
  }

  predicate TargetsDefined(units: seq<NamedUnit>, cfg: Config) {
    forall c :: c in cfg.callTargets.Values ==> DefinedBy(units, c)
  }

  predicate ImportsDefined(ms: seq<ModuleDef>, units: seq<NamedUnit>) {
    forall m :: m in ms ==> forall c :: c in m.imports.Values ==> DefinedBy(units, c)
  }

  // Units fit their frames

  function UnitCtx(lib: RT.Library, globals: nat, u: Unit): Ctx { Ctx(lib, u.cfg, FrameSize(u), u.arity, globals) }

  predicate UnitFits(lib: RT.Library, globals: nat, u: Unit) {
    var x := UnitCtx(lib, globals, u);
    SchemasMatch(x) && InScope(x, u.scope) && Room(x, AfterBlock(u.cfg, u.scope, u.body)) && u.scope.localCounter == 0
  }

  lemma SchemasKnown(m: ModuleDef, g: Gen, last: Gen, lib: RT.Library, u: Unit, globals: nat)
    requires VariantsStored(g) && g.schemas <= last.schemas && SchemasRead(last, lib) && u.cfg == ConfigOf(m, g)
    ensures SchemasMatch(UnitCtx(lib, globals, u))
  {
  }

  lemma TopScopeFits(m: ModuleDef, g: Gen)
    ensures SlotsBelow(TopScope(m, g)) && TopScope(m, g).localCounter == 0 && g.globals <= TopScope(m, g).globalCounter
    ensures forall x :: x in TopScope(m, g).globals ==> g.globals <= TopScope(m, g).globals[x] < TopScope(m, g).globalCounter
  {
    BlockExtends(ConfigOf(m, g), InitScope(g.globals), m.toplevel);
  }

  lemma InitFits(m: ModuleDef, g: Gen, last: Gen, lib: RT.Library)
    requires VariantsStored(g) && g.schemas <= last.schemas && SchemasRead(last, lib) && TopScope(m, g).globalCounter <= last.globals
    ensures UnitFits(lib, last.globals, UnitsOf(m, g)[0].unit)
  {
    var u := UnitsOf(m, g)[0].unit;
    SchemasKnown(m, g, last, lib, u, last.globals);
    TopScopeFits(m, g);
  }

  /** A function's frame holds every local it names, its arguments are its parameters. */
  lemma FunctionFits(m: ModuleDef, g: Gen, last: Gen, lib: RT.Library, f: FunctionDef)
    requires VariantsStored(g) && g.schemas <= last.schemas && SchemasRead(last, lib) && TopScope(m, g).globalCounter <= last.globals
    ensures UnitFits(lib, last.globals,
      Semantics.Unit(ConfigOf(m, g), FunctionScope(TopScope(m, g), f.parameters), |f.parameters|, f.body))
  {
    var u := Semantics.Unit(ConfigOf(m, g), FunctionScope(TopScope(m, g), f.parameters), |f.parameters|, f.body);
    SchemasKnown(m, g, last, lib, u, last.globals);
    TopScopeFits(m, g);
    BlockExtends(u.cfg, u.scope, u.body);
  }

  predicate AllUnitsFit(lib: RT.Library, globals: nat, units: seq<NamedUnit>) {
    forall u :: u in units ==> UnitFits(lib, globals, u.unit)
  }

  lemma {:induction false} FunctionUnitsFit(m: ModuleDef, g: Gen, last: Gen, lib: RT.Library, functions: seq<FunctionDef>)
    requires VariantsStored(g) && g.schemas <= last.schemas && SchemasRead(last, lib) && TopScope(m, g).globalCounter <= last.globals
    ensures AllUnitsFit(lib, last.globals, FunctionUnits(m, ConfigOf(m, g), TopScope(m, g), functions))
    decreases |functions|
  {
    hide UnitFits, SchemasRead, VariantsStored;
    if functions != [] {
      FunctionFits(m, g, last, lib, functions[0]);
      FunctionUnitsFit(m, g, last, lib, functions[1..]);
    }
  }

  lemma {:induction false} GlobalsGrow(ms: seq<ModuleDef>, g: Gen)
    requires EmitModules(ms, g).Ok?
    ensures g.globals <= ModulesGen(EmitModules(ms, g)).globals
    decreases |ms|
  {
    hide EmitUnits, AddTypes, TopScope;
    if ms != [] {
      var g1 := AddTypes(g, ms[0].types);
      TopScopeFits(ms[0], g1);
      var (n, tab, _) := EmitUnits(UnitsOf(ms[0], g1), g1.labels, g1.strings).value;
      GlobalsGrow(ms[1..], g1.(globals := TopScope(ms[0], g1).globalCounter, labels := n, strings := tab));
    }
  }

  lemma {:induction false} ModulesFit(ms: seq<ModuleDef>, g: Gen, lib: RT.Library)
    requires VariantsStored(g) && EmitModules(ms, g).Ok? && SchemasRead(ModulesGen(EmitModules(ms, g)), lib)
    ensures AllUnitsFit(lib, ModulesGen(EmitModules(ms, g)).globals, ModulesUnits(EmitModules(ms, g)))
    decreases |ms|
  {
    hide UnitFits, EmitUnits, AddTypes, TopScope, SchemasRead, ConfigOf;
    if ms != [] {
      var m := ms[0];
      var g1 := AddTypes(g, m.types);
      TypesAdded(g, m.types);
      var (n, tab, _) := EmitUnits(UnitsOf(m, g1), g1.labels, g1.strings).value;
      var g2 := g1.(globals := TopScope(m, g1).globalCounter, labels := n, strings := tab);
      var (last, units', _) := EmitModules(ms[1..], g2).value;
      GlobalsGrow(ms[1..], g2);
      InitFits(m, g1, last, lib);
      FunctionUnitsFit(m, g1, last, lib, m.functions);
      ModulesFit(ms[1..], g2, lib);
    }
  }

  // Callees exist

  lemma {:induction false} OwnTargets(m: ModuleDef, cfg: Config, top: Scope, functions: seq<FunctionDef>)
    ensures forall c :: c in FunctionTargets(m.name, functions).Values ==> DefinedBy(FunctionUnits(m, cfg, top, functions), c)
    decreases |functions|
  {
    if functions != [] {
      var f := functions[0];
      var units, rest := FunctionUnits(m, cfg, top, functions), FunctionUnits(m, cfg, top, functions[1..]);
      OwnTargets(m, cfg, top, functions[1..]);
      forall c | c in FunctionTargets(m.name, functions).Values ensures DefinedBy(units, c) {
        if c in FunctionTargets(m.name, functions[1..]).Values {
          var u :| u in rest && u.name == c.0 && u.unit.arity == c.1;
          assert u in units;
        } else {
          assert units[0] in units;
        }
      }
    }
  }

  lemma DefinedInMore(units: seq<NamedUnit>, more: seq<NamedUnit>, c: (string, nat))
    requires DefinedBy(units, c) && forall u :: u in units ==> u in more
    ensures DefinedBy(more, c)
  {
    var u :| u in units && u.name == c.0 && u.unit.arity == c.1;
    assert u in more;
  }

  predicate AllTargetsDefined(all: seq<NamedUnit>, units: seq<NamedUnit>) { forall u :: u in units ==> TargetsDefined(all, u.unit.cfg) }

  lemma {:induction false} SameConfig(m: ModuleDef, cfg: Config, top: Scope, functions: seq<FunctionDef>)
    ensures forall u :: u in FunctionUnits(m, cfg, top, functions) ==> u.unit.cfg == cfg
    decreases |functions|
  {
    if functions != [] { SameConfig(m, cfg, top, functions[1..]); }
  }

  lemma ModuleTargets(m: ModuleDef, g: Gen, all: seq<NamedUnit>)
    requires (forall u :: u in UnitsOf(m, g) ==> u in all) && forall c :: c in m.imports.Values ==> DefinedBy(all, c)
    ensures AllTargetsDefined(all, UnitsOf(m, g))
  {
    hide DefinedBy, TopScope;
    var cfg, top := ConfigOf(m, g), TopScope(m, g);
    OwnTargets(m, cfg, top, m.functions);
    SameConfig(m, cfg, top, m.functions);
    forall c | c in cfg.callTargets.Values ensures DefinedBy(all, c) {
      if c !in m.imports.Values {
        assert c in FunctionTargets(m.name, m.functions).Values;
        DefinedInMore(FunctionUnits(m, cfg, top, m.functions), all, c);
      }
    }
  }

  lemma {:induction false} ModulesTargets(ms: seq<ModuleDef>, g: Gen, all: seq<NamedUnit>)
    requires EmitModules(ms, g).Ok? && ImportsDefined(ms, all) && forall u :: u in ModulesUnits(EmitModules(ms, g)) ==> u in all
    ensures AllTargetsDefined(all, ModulesUnits(EmitModules(ms, g)))
    decreases |ms|
  {
    hide EmitUnits, AddTypes, TopScope, UnitsOf, TargetsDefined, DefinedBy;
    if ms != [] {
      var m := ms[0];
      var g1 := AddTypes(g, m.types);
      var (n, tab, _) := EmitUnits(UnitsOf(m, g1), g1.labels, g1.strings).value;
      var g2 := g1.(globals := TopScope(m, g1).globalCounter, labels := n, strings := tab);
      ModuleTargets(m, g1, all);
      ModulesTargets(ms[1..], g2, all);
    }
  }

  // From units to pieces

  /** Code made of what the generator emits for a unit's body, and of an epilogue. */
  ghost predicate EmittedFor(u: Unit, body: Code) {
    exists n: nat, tab: Strings :: BodyFrom(EmitBlock(u.cfg, GenEnv(u.scope, n, [], tab), u.body), body)
  }

  predicate BodyFrom(r: Emitted, body: Code) {
    r.Ok? && forall i :: i in body ==> i in r.value.1 || i == NULL || i == END
  }

  /** The reachable code of a placed unit. */
  lemma UnitPiece(k: F.Linked, entry: nat, u: Unit) returns (p: Piece)
    requires CC.UnitPlaced(k, entry, u) && UnitFits(k.img.lib, k.img.globals, u) && UnitMatches(u)
    ensures p.cfg == u.cfg && p.entry == entry && p.arity == u.arity && p.locals == FrameSize(u) && p.arity < 65536
    ensures CodeAt(k.img.program, k.labels, p.entry, [BEGIN(p.arity, p.locals)] + p.body)
    ensures EndsInEnd(CtxOf(k.img, p), p.body) && EmittedFor(u, p.body)
  {
    hide CodeAt, EndsInEnd, EmitBlock, FrameSize, AfterBlock, BlockMatches, Balanced;
    var x := UnitCtx(k.img.lib, k.img.globals, u);
    var n: nat, tab: Strings :| CC.UnitAt(k, entry, u, n, tab);
    var env := GenEnv(u.scope, n, [], tab);
    var body, begin := EmitBlock(u.cfg, env, u.body).value.1, [BEGIN(u.arity, FrameSize(u))];
    BlockBalanced(x, env, u.body);
    var live;
    if u.scope.inFunction && HasReturn(u.body) {
      live := ReturningBlock(x, env, u.body);
      assert begin + body + [] == begin + live + body[|live|..];
      CodeAtSplit(k.img.program, k.labels, entry, begin + live, body[|live|..]);
    } else {
      live := body + [NULL, END];
      EpilogueEnds(x, body);
      assert begin + body + [NULL, END] == begin + live;
    }
    p := Piece(u.cfg, entry, u.arity, FrameSize(u), live);
    assert BodyFrom(EmitBlock(u.cfg, env, u.body), live);
  }

  ghost predicate PieceOf(k: F.Linked, u: NamedUnit, p: Piece) {
    && u.name in k.labels && p.entry == k.labels[u.name] && p.arity == u.unit.arity && p.cfg == u.unit.cfg && p.arity < 65536
    && CodeAt(k.img.program, k.labels, p.entry, [BEGIN(p.arity, p.locals)] + p.body)
    && EndsInEnd(CtxOf(k.img, p), p.body) && EmittedFor(u.unit, p.body)
  }

  ghost predicate Covered(k: F.Linked, u: NamedUnit, pieces: set<Piece>) { exists p :: p in pieces && PieceOf(k, u, p) }

  ghost predicate Sourced(k: F.Linked, units: seq<NamedUnit>, p: Piece) { exists u :: u in units && PieceOf(k, u, p) }

  ghost predicate PiecesOf(k: F.Linked, units: seq<NamedUnit>, pieces: set<Piece>) {
    (forall u :: u in units ==> Covered(k, u, pieces)) && (forall p :: p in pieces ==> Sourced(k, units, p))
  }

  lemma {:induction false} UnitPieces(k: F.Linked, units: seq<NamedUnit>) returns (pieces: set<Piece>)
    requires PC.UnitsPlaced(k, units) && AllUnitsFit(k.img.lib, k.img.globals, units) && forall u :: u in units ==> UnitMatches(u.unit)
    ensures PiecesOf(k, units, pieces)
    decreases |units|
  {
    hide CC.UnitPlaced, UnitFits, UnitMatches, PieceOf;
    if units == [] {
      pieces := {};
    } else {
      var u := units[0];
      assert forall w :: w in units[1..] ==> w in units;
      var rest := UnitPieces(k, units[1..]);
      assert u in units;
      var p := UnitPiece(k, k.labels[u.name], u.unit);
      PieceIs(k, u, p);
      pieces := rest + {p};
      OneMorePiece(k, units, rest, p);
    }
  }

  lemma OneMorePiece(k: F.Linked, units: seq<NamedUnit>, rest: set<Piece>, p: Piece)
    requires units != [] && PiecesOf(k, units[1..], rest) && PieceOf(k, units[0], p)
    ensures PiecesOf(k, units, rest + {p})
  {
    hide PieceOf, Covered, Sourced;
    assert units == [units[0]] + units[1..];
    forall u | u in units ensures Covered(k, u, rest + {p}) {
      if u in units[1..] { CoveredByMore(k, u, rest, rest + {p}); } else { CoveredNow(k, u, rest + {p}, p); }
    }
    forall q | q in rest + {p} ensures Sourced(k, units, q) {
      if q in rest { SourcedInMore(k, units[1..], units, q); } else { SourcedNow(k, units, units[0], q); }
    }
  }

  lemma CoveredNow(k: F.Linked, u: NamedUnit, pieces: set<Piece>, p: Piece)
    requires p in pieces && PieceOf(k, u, p)
    ensures Covered(k, u, pieces)
  {
  }

  lemma SourcedNow(k: F.Linked, units: seq<NamedUnit>, u: NamedUnit, p: Piece)
    requires u in units && PieceOf(k, u, p)
    ensures Sourced(k, units, p)
  {
  }

  lemma CoveredByMore(k: F.Linked, u: NamedUnit, pieces: set<Piece>, more: set<Piece>)
    requires Covered(k, u, pieces) && pieces <= more
    ensures Covered(k, u, more)
  {
    hide PieceOf;
    var p :| p in pieces && PieceOf(k, u, p);
    assert p in more;
  }

  lemma SourcedInMore(k: F.Linked, units: seq<NamedUnit>, more: seq<NamedUnit>, p: Piece)
    requires Sourced(k, units, p) && forall u :: u in units ==> u in more
    ensures Sourced(k, more, p)
  {
    hide PieceOf;
    var u :| u in units && PieceOf(k, u, p);
    assert u in more;
  }

  lemma PieceIs(k: F.Linked, u: NamedUnit, p: Piece)
    requires u.name in k.labels && p.cfg == u.unit.cfg && p.entry == k.labels[u.name] && p.arity == u.unit.arity && p.arity < 65536
    requires CodeAt(k.img.program, k.labels, p.entry, [BEGIN(p.arity, p.locals)] + p.body)
    requires EndsInEnd(CtxOf(k.img, p), p.body) && EmittedFor(u.unit, p.body)
    ensures PieceOf(k, u, p)
  {
  }

  // Main

  function InitTarget(m: ModuleDef): (string, nat) { (InitLabel(m), 0) }

  lemma {:induction false} InitCallsBalanced(x: Ctx, ms: seq<ModuleDef>)
    requires forall m :: m in ms ==> InitTarget(m) in x.cfg.callTargets.Values
    ensures Balanced(x, InitCalls(ms), [])
    decreases |ms|
  {
    hide Balanced, Rises, Takes;
    if ms == [] {
      BalancedNil(x, []);
    } else {
      var call := CALL(Named(InitLabel(ms[0])), 0);
      assert ms[0] in ms;
      RisesOne(x, call);
      StoreOps(x, 0);
      RisesTakes(x, [call], 1, DROP, 0);
      BalancedRises(x, [call] + [DROP], []);
      InitCallsBalanced(x, ms[1..]);
      BalancedSeq(x, [call] + [DROP], InitCalls(ms[1..]), []);
    }
  }

  lemma MainPiece(k: F.Linked, ms: seq<ModuleDef>, at: nat) returns (p: Piece)
    requires F.Placed(k, at, MainCode(ms))
    ensures MAIN in k.labels && k.labels[MAIN] == at && p.entry == at && p.arity == 0
    ensures CodeAt(k.img.program, k.labels, p.entry, [BEGIN(0, 0)] + p.body) && p.locals == 0
    ensures EndsInEnd(CtxOf(k.img, p), p.body) && p.body == InitCalls(ms) + ([NULL] + [END])
    ensures forall c :: c in p.cfg.callTargets.Values ==> exists m :: m in ms && c == InitTarget(m)
  {
    hide CodeAt, EndsInEnd, InitLabel;
    var body := InitCalls(ms) + ([NULL] + [END]);
    var targets := map name | name in (set m | m in ms :: InitLabel(m)) :: (name, 0);
    p := Piece(Config(targets, map[], map[]), at, 0, 0, body);
    var x := CtxOf(k.img, p);
    forall m | m in ms ensures InitTarget(m) in targets.Values {
      assert InitLabel(m) in targets && targets[InitLabel(m)] == InitTarget(m);
    }
    InitCallsBalanced(x, ms);
    EpilogueEnds(x, InitCalls(ms));
    assert InitCalls(ms) + [NULL, END] == body;
    assert MainCode(ms) == [LABEL(MAIN)] + ([BEGIN(0, 0)] + body);
    F.PlacedSplit(k, at, [LABEL(MAIN)], [BEGIN(0, 0)] + body);
    F.PlacedLabel(k, at, MAIN);
    PlacedHere(k, at, [BEGIN(0, 0)] + body);
  }

  lemma PlacedHere(k: F.Linked, at: nat, code: Code)
    requires F.Placed(k, at, code)
    ensures CodeAt(k.img.program, k.labels, at, code)
  {
  }

  // The theorem

  /** What the source promises the linker: calls match their callees, imports are defined. */
  predicate ProgramMatches(ms: seq<ModuleDef>) {
    var units := ProgramUnits(ms);
    ImportsDefined(ms, units) && forall u :: u in units ==> UnitMatches(u.unit)
  }

  lemma {:induction false} InitsDefined(ms: seq<ModuleDef>, g: Gen)
    requires EmitModules(ms, g).Ok?
    ensures forall m :: m in ms ==> DefinedBy(ModulesUnits(EmitModules(ms, g)), InitTarget(m))
    decreases |ms|
  {
    hide EmitUnits, AddTypes, TopScope, InitLabel;
    if ms != [] {
      var m := ms[0];
      var g1 := AddTypes(g, m.types);
      var units := UnitsOf(m, g1);
      var (n, tab, _) := EmitUnits(units, g1.labels, g1.strings).value;
      var g2 := g1.(globals := TopScope(m, g1).globalCounter, labels := n, strings := tab);
      InitsDefined(ms[1..], g2);
      var all, rest := ModulesUnits(EmitModules(ms, g)), ModulesUnits(EmitModules(ms[1..], g2));
      assert units[0] in all && units[0].name == InitLabel(m) && units[0].unit.arity == 0;
      assert DefinedBy(all, InitTarget(m));
      forall m' | m' in ms[1..] ensures DefinedBy(all, InitTarget(m')) { DefinedInMore(rest, all, InitTarget(m')); }
    }
  }

  lemma TargetsKnown(k: F.Linked, units: seq<NamedUnit>, pieces: set<Piece>, more: set<Piece>, cfg: Config)
    requires PiecesOf(k, units, pieces) && TargetsDefined(units, cfg) && pieces <= more
    ensures CalleesKnown(k.labels, more, cfg)
  {
    hide PieceOf, DefinedBy, PiecesOf;
    forall c | c in cfg.callTargets.Values
      ensures c.0 in k.labels && exists q :: q in more && q.entry == k.labels[c.0] && q.arity == c.1
    {
      var q := PieceFor(k, units, pieces, c);
      assert q in more;
    }
  }

  lemma PieceFor(k: F.Linked, units: seq<NamedUnit>, pieces: set<Piece>, c: (string, nat)) returns (q: Piece)
    requires PiecesOf(k, units, pieces) && DefinedBy(units, c)
    ensures q in pieces && c.0 in k.labels && q.entry == k.labels[c.0] && q.arity == c.1
  {
    hide CodeAt, EndsInEnd, Sourced;
    var u :| u in units && u.name == c.0 && u.unit.arity == c.1;
    assert Covered(k, u, pieces);
    q :| q in pieces && PieceOf(k, u, q);
  }

  /** A piece is main, or comes from a unit of the program. */
  ghost predicate FromProgram(ms: seq<ModuleDef>, p: Piece) {
    p.body == InitCalls(ms) + ([NULL] + [END]) || exists u :: u in ProgramUnits(ms) && EmittedFor(u.unit, p.body)
  }

  lemma FromUnits(k: F.Linked, ms: seq<ModuleDef>, pieces: set<Piece>, main: Piece)
    requires PiecesOf(k, ProgramUnits(ms), pieces) && main.body == InitCalls(ms) + ([NULL] + [END])
    ensures forall p :: p in pieces + {main} ==> FromProgram(ms, p)
  {
    hide EmittedFor, CodeAt, EndsInEnd, ProgramUnits, Covered;
    forall p | p in pieces ensures FromProgram(ms, p) {
      assert Sourced(k, ProgramUnits(ms), p);
      var u :| u in ProgramUnits(ms) && PieceOf(k, u, p);
      assert u in ProgramUnits(ms) && EmittedFor(u.unit, p.body);
    }
  }

  /** Every compiled and assembled program is safely linked, whatever its operands do at run
      time. */
  lemma ProgramLinks(ms: seq<ModuleDef>, labels: Labels, bytes: seq<Byte>, more: Strings, lib: RT.Library)
    returns (pieces: set<Piece>, main: Piece)
    requires EmitProgram(ms).Ok? && PC.Assembled(ProgramCode(ms), labels, bytes)
    requires ProgramMatches(ms) && SchemasRead(ProgramGen(ms), lib)
    ensures Safety.Linked(PC.Link(ms, labels, bytes, more, lib).img, labels, pieces)
    ensures main in pieces && main.arity == 0 && MAIN in labels && main.entry == OffsetOf(labels, MAIN)
    ensures forall p :: p in pieces ==> FromProgram(ms, p)
  {
    hide EmitModules, MainCode, CC.UnitPlaced, UnitMatches, UnitFits, CodeAt, EndsInEnd, EmittedFor, FromProgram, PC.Assembled, F.Placed,
      SchemasRead, TargetsDefined, DefinedBy;
    var k := PC.Link(ms, labels, bytes, more, lib);
    var (g, units, code) := EmitProgram(ms).value;
    var emitted := ModulesCode(EmitModules(ms, NEW_GEN));
    PC.LinkLoads(ms, labels, bytes, more, lib);
    F.PlacedSplit(k, 0, emitted, MainCode(ms));
    PC.ModulesLink(k, 0, ms, NEW_GEN);
    ModulesFit(ms, NEW_GEN, lib);
    var units' := UnitPieces(k, units);
    main := MainPiece(k, ms, Extent(emitted));
    pieces := units' + {main};
    ModulesTargets(ms, NEW_GEN, units);
    InitsDefined(ms, NEW_GEN);
    MainDefined(ms, units, main);
    TargetsKnown(k, units, units', pieces, main.cfg);
    forall p | p in units' ensures PieceOk(k.img, labels, pieces, p) {
      assert Sourced(k, units, p);
      var u :| u in units && PieceOf(k, u, p);
      TargetsKnown(k, units, units', pieces, u.unit.cfg);
    }
    FromUnits(k, ms, units', main);
    Fitting(k);
  }

  lemma Fitting(k: F.Linked)
    requires CC.Loaded(k)
    ensures CC.NextsFit(k)
  {
    hide CC.UnitPlaced;
  }

  lemma MainDefined(ms: seq<ModuleDef>, units: seq<NamedUnit>, main: Piece)
    requires forall m :: m in ms ==> DefinedBy(units, InitTarget(m))
    requires forall c :: c in main.cfg.callTargets.Values ==> exists m :: m in ms && c == InitTarget(m)
    ensures TargetsDefined(units, main.cfg)
  {
    hide DefinedBy, InitLabel;
  }

  /** Frame safety of every run: no reachable state underflows the stack, reads a missing
      slot, leaves the code or meets an unknown opcode. */
  lemma ProgramRunsSafely(ms: seq<ModuleDef>, labels: Labels, bytes: seq<Byte>, more: Strings, lib: RT.Library, n: nat)
    requires EmitProgram(ms).Ok? && PC.Assembled(ProgramCode(ms), labels, bytes)
    requires ProgramMatches(ms) && SchemasRead(ProgramGen(ms), lib)
    requires ProgramGen(ms).globals + BOOT + 1 <= M.MAX_STACK
    ensures MAIN in labels
    ensures var img := PC.Link(ms, labels, bytes, more, lib).img;
      exists pieces :: Safety.Linked(img, labels, pieces) && SafeOutcome(img, pieces, M.Run(img, M.Boot(img, OffsetOf(labels, MAIN)), n))
  {
    hide EmitProgram, PC.Assembled, Safety.Linked, SafeOutcome, M.Run, Safe;
    var pieces, main := ProgramLinks(ms, labels, bytes, more, lib);
    var img := PC.Link(ms, labels, bytes, more, lib).img;
    LinkGlobals(ms, labels, bytes, more, lib);
    BootSafe(img, pieces, main);
    RunSafe(img, labels, pieces, M.Boot(img, main.entry), n);
  }

  lemma LinkGlobals(ms: seq<ModuleDef>, labels: Labels, bytes: seq<Byte>, more: Strings, lib: RT.Library)
    ensures PC.Link(ms, labels, bytes, more, lib).img.globals == ProgramGen(ms).globals
    ensures PC.Link(ms, labels, bytes, more, lib).img.lib == lib
  {
    hide EmitProgram, DecodedAt, UnitMap;
  }
}
