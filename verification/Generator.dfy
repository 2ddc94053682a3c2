/** The code generator as it runs (crates/compiler-core/src/codegen/bcgen.rs): counters, name
    maps and the loop-label stack change statement by statement, strings go to the bytefile,
    instructions are collected in loops. Every method emits what the function of module
    Codegen or Linking says. An error result stands for a panic. */
module Generators {
  import opened Results
  import opened Bytecode
  import opened Numbers
  import opened Ast
  import opened Scoping
  import opened Bytefiles
  import opened Container
  import opened Linking
  import opened GeneratedFile
  import opened Assembly
  import Semantics
  import G = Codegen
  import StringTable

  type Code = G.Code
  type Strings = G.Strings

  // Collecting instructions

  function Joined<A>(front: Code, r: Result<(A, Code)>): Result<(A, Code)> {
    if r.Ok? then Ok((r.value.0, front + r.value.1)) else r
  }

  lemma JoinNothing<A>(r: Result<(A, Code)>)
    ensures Joined([], r) == r
  {
    if r.Ok? { assert [] + r.value.1 == r.value.1; }
  }

  lemma JoinMore<A>(a: Code, b: Code, r: Result<(A, Code)>)
    ensures Joined(a, Joined(b, r)) == Joined(a + b, r)
  {
    if r.Ok? { assert a + (b + r.value.1) == a + b + r.value.1; }
  }

  /** One more expression of a list. */
  lemma ExprsStep(cfg: Config, sc: Scope, tab: Strings, es: seq<Expr>, k: nat)
    requires k < |es|
    ensures G.EmitExprs(cfg, sc, tab, es[k..]) ==
      var first := G.EmitExpr(cfg, sc, tab, es[k]);
      if first.Ok? then Joined(first.value.1, G.EmitExprs(cfg, sc, first.value.0, es[k + 1..])) else Err(first.fault)
  {
    hide G.EmitExpr;
    assert es[k..][1..] == es[k + 1..];
  }

  /** One more statement of a block. */
  lemma BlockStep(cfg: Config, env: G.GenEnv, stmts: seq<Stmt>, k: nat)
    requires k < |stmts|
    ensures G.EmitBlock(cfg, env, stmts[k..]) ==
      var first := G.EmitStmt(cfg, env, stmts[k]);
      if first.Ok? then Joined(first.value.1, G.EmitBlock(cfg, first.value.0, stmts[k + 1..])) else Err(first.fault)
  {
    hide G.EmitStmt;
    assert stmts[k..][1..] == stmts[k + 1..];
  }

  /** A loop body, emitted with the loop's end label innermost. */
  function InLoop(cfg: Config, env: G.GenEnv, end: string, body: seq<Stmt>): G.Emitted {
    var (env1, code) :- G.EmitBlock(cfg, env.(ends := env.ends + [end]), body);
    Ok((env1.(ends := env.ends), code))
  }

  /** Start, bound and step of a counting loop. */
  datatype Counting = Counting(start: Code, to: Code, step: Code)

  function CountingOf(cfg: Config, sc: Scope, tab: Strings, h: LoopHeader): Result<(Strings, Counting)>
    requires h.For?
  {
    var (tab1, from) :- G.EmitMaybe(cfg, sc, tab, h.from);
    var (tab2, to) :- G.EmitMaybe(cfg, sc, tab1, h.to);
    var (tab3, given) :- G.EmitMaybe(cfg, sc, tab2, h.step);
    Ok((tab3, Counting(if h.from.Present? then from else [CONST(0)], to, if h.step.Present? then given else [CONST(1)])))
  }

  /** A counting loop, its body emitted by `InLoop`. */
  lemma ForEmitted(cfg: Config, env: G.GenEnv, s: Stmt)
    requires s.Loop? && s.header.For?
    ensures var h, n, x := s.header, env.labels, NextSlot(env.scope);
      var counting := CountingOf(cfg, env.scope, env.strings, h);
      if counting.Err? then G.EmitFor(cfg, env, s).Err? else
      var (tab, c) := counting.value;
      var end := G.Fresh("for_end", n + 1);
      var body := InLoop(cfg, env.(scope := Allocate(env.scope, h.variable), strings := tab, labels := n + 2), end, s.body);
      if body.Err? then G.EmitFor(cfg, env, s).Err? else
      var guard := G.ForTest(h.to, x, c.step, c.to, G.SimpleGuard(h.step, c.to), end);
      G.EmitFor(cfg, env, s) == Ok((body.value.0.(scope := Deallocate(body.value.0.scope, h.variable)),
        c.start + [G.StoreTo(x)] + G.LoopCode(G.Fresh("for_loop", n), guard, body.value.1, G.ForAdvance(x, c.step), end)))
  {
    hide G.EmitMaybe, G.EmitBlock, G.LoopCode, G.ForTest, G.ForAdvance, G.SimpleGuard, G.Fresh, Allocate, Deallocate, NextSlot;
  }

  lemma InputsStep(sc: Scope, variables: seq<LValue>, k: nat)
    requires k < |variables| && variables[k].NameTarget?
    ensures var found := FindVariable(sc, variables[k].name);
      G.EmitInputs(sc, variables[k..]) ==
        if found.Ok? then Joined([G.StoreTo(found.value)], G.EmitInputs(sc, variables[k + 1..]))
        else Joined([G.StoreTo(NextSlot(sc))], G.EmitInputs(Allocate(sc, variables[k].name), variables[k + 1..]))
  {
    assert variables[k..][1..] == variables[k + 1..];
  }

  lemma CasesStep(cfg: Config, env: G.GenEnv, subject: Subject, end: string, cases: seq<Case>, k: nat)
    requires k < |cases|
    ensures G.EmitCases(cfg, env, subject, end, cases[k..]) ==
      var first := G.EmitCase(cfg, env, subject, end, cases[k]);
      if first.Ok? then Joined(first.value.1, G.EmitCases(cfg, first.value.0, subject, end, cases[k + 1..])) else Err(first.fault)
  {
    hide G.EmitCase;
    assert cases[k..][1..] == cases[k + 1..];
  }

  lemma BindingsStep(cfg: Config, sc: Scope, subject: Subject, names: seq<Expr>, k: nat)
    requires k < |names|
    ensures G.EmitBindings(cfg, sc, subject, names[k..], k) ==
      if !names[k].Name? then Err(NotImplemented)
      else
        var load := G.EmitSubject(cfg, sc, subject);
        if load.Err? then Err(load.fault)
        else Joined(load.value + [FIELD(k)] + [G.StoreTo(NextSlot(sc))],
          G.EmitBindings(cfg, Allocate(sc, names[k].name), subject, names[k + 1..], k + 1))
  {
    hide G.EmitSubject;
    assert names[k..][1..] == names[k + 1..];
  }

  function JoinedUnits(front: Code, r: Result<(nat, Strings, Code)>): Result<(nat, Strings, Code)> {
    if r.Ok? then Ok((r.value.0, r.value.1, front + r.value.2)) else r
  }

  lemma JoinUnitsNothing(r: Result<(nat, Strings, Code)>)
    ensures JoinedUnits([], r) == r
  {
    if r.Ok? { assert [] + r.value.2 == r.value.2; }
  }

  lemma JoinUnitsMore(a: Code, b: Code, r: Result<(nat, Strings, Code)>)
    ensures JoinedUnits(a, JoinedUnits(b, r)) == JoinedUnits(a + b, r)
  {
    if r.Ok? { assert a + (b + r.value.2) == a + b + r.value.2; }
  }

  lemma NoUnits(n: nat, tab: Strings)
    ensures EmitUnits([], n, tab) == Ok((n, tab, []))
  {
  }

  lemma UnitsStep(units: seq<NamedUnit>, n: nat, tab: Strings, k: nat)
    requires k < |units|
    ensures var u := units[k].unit;
      var first := G.EmitBlock(u.cfg, G.GenEnv(u.scope, n, [], tab), u.body);
      EmitUnits(units[k..], n, tab) ==
        if first.Err? then Err(first.fault)
        else JoinedUnits([LABEL(units[k].name)] + UnitCode(u, first.value.1),
                         EmitUnits(units[k + 1..], first.value.0.labels, first.value.0.strings))
  {
    hide G.EmitBlock, UnitCode;
    assert units[k..][1..] == units[k + 1..];
  }

  lemma {:induction false} FunctionUnitsAre(m: ModuleDef, cfg: Config, top: Scope, functions: seq<FunctionDef>)
    ensures |FunctionUnits(m, cfg, top, functions)| == |functions|
    ensures forall k :: 0 <= k < |functions| ==>
      FunctionUnits(m, cfg, top, functions)[k] ==
        NamedUnit(Qualified(m.name, functions[k].name),
                  Semantics.Unit(cfg, FunctionScope(top, functions[k].parameters), |functions[k].parameters|, functions[k].body))
  {
    if functions != [] { FunctionUnitsAre(m, cfg, top, functions[1..]); }
  }

  /** A single module's share of the program. */
  lemma OneModule(m: ModuleDef, g: Gen)
    ensures var g1 := AddTypes(g, m.types);
      var r := EmitUnits(UnitsOf(m, g1), g1.labels, g1.strings);
      EmitModules([m], g) ==
        if r.Err? then Err(r.fault)
        else Ok((g1.(globals := TopScope(m, g1).globalCounter, labels := r.value.0, strings := r.value.1), UnitsOf(m, g1), r.value.2))
  {
    hide AddTypes, EmitUnits, UnitsOf, TopScope;
    assert [m][1..] == [];
    var g1 := AddTypes(g, m.types);
    assert UnitsOf(m, g1) + [] == UnitsOf(m, g1);
    var r := EmitUnits(UnitsOf(m, g1), g1.labels, g1.strings);
    if r.Ok? { assert r.value.2 + [] == r.value.2; }
  }

  lemma MapsRegroup<K, V>(a: map<K, V>, b: map<K, V>, c: map<K, V>)
    ensures a + (b + c) == a + b + c
  {
  }

  lemma OffsetsRegroup(a: seq<nat>, b: seq<nat>, c: seq<nat>)
    ensures a + (b + c) == a + b + c
  {
  }

  lemma CodeRegroup(a: Code, b: Code, c: Code)
    ensures a + (b + c) == a + b + c
  {
  }

  type Modules = Result<(Gen, seq<NamedUnit>, Code)>

  function JoinedModules(units: seq<NamedUnit>, front: Code, r: Modules): Modules {
    if r.Ok? then Ok((r.value.0, units + r.value.1, front + r.value.2)) else r
  }

  lemma JoinModulesNothing(r: Modules)
    ensures JoinedModules([], [], r) == r
  {
    if r.Ok? { assert [] + r.value.1 == r.value.1 && [] + r.value.2 == r.value.2; }
  }

  lemma JoinModulesMore(u: seq<NamedUnit>, a: Code, v: seq<NamedUnit>, b: Code, r: Modules)
    ensures JoinedModules(u, a, JoinedModules(v, b, r)) == JoinedModules(u + v, a + b, r)
  {
    if r.Ok? { assert u + (v + r.value.1) == u + v + r.value.1 && a + (b + r.value.2) == a + b + r.value.2; }
  }

  lemma NoModules(g: Gen)
    ensures EmitModules([], g) == Ok((g, [], []))
  {
  }

  lemma ModulesStep(ms: seq<ModuleDef>, g: Gen, k: nat)
    requires k < |ms|
    ensures var one := EmitModules([ms[k]], g);
      EmitModules(ms[k..], g) ==
        if one.Err? then Err(one.fault) else JoinedModules(one.value.1, one.value.2, EmitModules(ms[k + 1..], one.value.0))
  {
    hide AddTypes, EmitUnits, UnitsOf, TopScope;
    assert ms[k..][1..] == ms[k + 1..];
    OneModule(ms[k], g);
  }

  type Symbols = Result<(seq<Byte>, seq<Symbol>)>

  function JoinedSymbols(front: seq<Symbol>, r: Symbols): Symbols {
    if r.Ok? then Ok((r.value.0, front + r.value.1)) else r
  }

  lemma JoinSymbolsNothing(r: Symbols)
    ensures JoinedSymbols([], r) == r
  {
    if r.Ok? { assert [] + r.value.1 == r.value.1; }
  }

  lemma JoinSymbolsMore(a: seq<Symbol>, b: seq<Symbol>, r: Symbols)
    ensures JoinedSymbols(a, JoinedSymbols(b, r)) == JoinedSymbols(a + b, r)
  {
    if r.Ok? { assert a + (b + r.value.1) == a + b + r.value.1; }
  }

  lemma NamesStep(strings: seq<Byte>, names: seq<string>, labels: Labels, k: nat)
    requires k < |names|
    ensures AddSymbols(strings, names[k..], labels) ==
      if names[k] !in labels then Err(UnknownLabel)
      else
        var strings1 := StringTable.Added(strings, NameBytes(names[k]));
        var at := StringTable.FindFrom(strings1, 0, NameBytes(names[k]));
        if at.None? then Err(InvalidString)
        else JoinedSymbols([Symbol(at.value, labels[names[k]])], AddSymbols(strings1, names[k + 1..], labels))
  {
    hide StringTable.Added, StringTable.FindFrom;
    assert names[k..][1..] == names[k + 1..];
  }

  /** The assembler knows main. */
  lemma MainPlaced(ms: seq<ModuleDef>, code: Code, labels: Labels)
    requires Place(code + MainCode(ms), 0, map[]) == Ok(labels)
    ensures MAIN in labels
  {
    PlacedAll(code + MainCode(ms), 0, map[], |code|);
  }

  lemma {:induction false} PlacedAll(code: Code, offset: nat, labels: Labels, k: nat)
    requires Place(code, offset, labels).Ok? && k < |code| && code[k].LABEL? && LabelsFit(labels)
    ensures code[k].mark in Place(code, offset, labels).value
  {
    if code[0].LABEL? {
      var labels1 := labels[code[0].mark := offset];
      PlaceGrows(code[1..], offset, labels1);
      if k > 0 { PlacedAll(code[1..], offset, labels1, k - 1); }
    } else {
      PlacedAll(code[1..], offset + Size(code[0]), labels, k - 1);
    }
  }

  class BcGen {
    const bytefile: Bytefile
    var cfg: Config
    var inFunction: bool
    var localCounter: nat
    var argCounter: nat
    var labelCounter: nat
    var globalCounter: nat
    var locals: map<string, nat>
    var args: map<string, nat>
    var globals: map<string, nat>
    var loopEndLabels: seq<string>

    function Scoped(): Scope
      reads this
    {
      Scope(inFunction, localCounter, globalCounter, locals, globals, args)
    }

    function Env(): G.GenEnv
      reads this, bytefile
    {
      G.GenEnv(Scoped(), labelCounter, loopEndLabels, bytefile.strings)
    }

    constructor ()
      ensures fresh(bytefile) && bytefile.Valid() && bytefile.Data() == Contents(0, 0, 0, [], [], [], [], 0) && bytefile.labels == map[]
      ensures Env() == G.GenEnv(Scope(false, 0, 0, map[], map[], map[]), 0, [], [])
      ensures cfg == Config(map[], map[], map[])
    {
      bytefile := new Bytefile();
      cfg := Config(map[], map[], map[]);
      inFunction, localCounter, argCounter, labelCounter, globalCounter := false, 0, 0, 0, 0;
      locals, args, globals, loopEndLabels := map[], map[], map[], [];
    }

    /** An expression was emitted as the function says. */
    ghost predicate Made(spec: Result<(Strings, Code)>, r: Result<Code>)
      reads bytefile
    {
      match spec
      case Ok(tc) => r == Ok(tc.1) && bytefile.strings == tc.0 && bytefile.Valid()
      case Err(_) => r.Err?
    }

    /** A statement was. */
    ghost predicate Done(spec: G.Emitted, r: Result<Code>)
      reads this, bytefile
    {
      match spec
      case Ok(ec) => r == Ok(ec.1) && Env() == ec.0 && bytefile.Valid()
      case Err(_) => r.Err?
    }

    // ---------------------------------------------------------------- names and labels

    method AllocateVariable(name: string) returns (x: Variable)
      modifies `locals, `localCounter, `globals, `globalCounter
      ensures x == NextSlot(old(Scoped())) && Scoped() == Allocate(old(Scoped()), name)
    {
      if inFunction {
        x := Variable(Local, localCounter);
        locals := locals[name := localCounter];
        localCounter := localCounter + 1;
      } else {
        x := Variable(Global, globalCounter);
        globals := globals[name := globalCounter];
        globalCounter := globalCounter + 1;
      }
    }

    method DeallocateVariable(name: string)
      modifies `locals, `globals
      ensures Scoped() == Deallocate(old(Scoped()), name)
    {
      if inFunction { locals := locals - {name}; } else { globals := globals - {name}; }
    }

    method FreshLabel(prefix: string) returns (name: string)
      modifies `labelCounter
      ensures name == G.Fresh(prefix, old(labelCounter)) && labelCounter == old(labelCounter) + 1
    {
      name := prefix + "_" + Decimal(labelCounter);
      labelCounter := labelCounter + 1;
    }

    // ---------------------------------------------------------------- expressions

    method EmitAll(es: seq<Expr>) returns (r: Result<Code>)
      requires bytefile.Valid()
      modifies bytefile`strings, bytefile`stringtabSize
      ensures Made(G.EmitExprs(cfg, Scoped(), old(bytefile.strings), es), r)
      decreases es, 0
    {
      hide G.EmitExpr;
      var instrs: Code := [];
      assert es[0..] == es;
      JoinNothing(G.EmitExprs(cfg, Scoped(), bytefile.strings, es));
      for k := 0 to |es|
        invariant bytefile.Valid()
        invariant Joined(instrs, G.EmitExprs(cfg, Scoped(), bytefile.strings, es[k..])) == G.EmitExprs(cfg, Scoped(), old(bytefile.strings), es)
      {
        ExprsStep(cfg, Scoped(), bytefile.strings, es, k);
        var code := EmitExpr(es[k]);
        if code.Err? { return code; }
        JoinMore(instrs, code.value, G.EmitExprs(cfg, Scoped(), bytefile.strings, es[k + 1..]));
        instrs := instrs + code.value;
      }
      assert instrs + [] == instrs;
      return Ok(instrs);
    }

    method EmitMaybe(e: MaybeExpr) returns (r: Result<Code>)
      requires bytefile.Valid()
      modifies bytefile`strings, bytefile`stringtabSize
      ensures Made(G.EmitMaybe(cfg, Scoped(), old(bytefile.strings), e), r)
      decreases e, 0
    {
      hide G.EmitExpr;
      if e.Absent? { return Ok([]); }
      r := EmitExpr(e.expr);
    }

    method EmitBinary(e: Expr) returns (r: Result<Code>)
      requires bytefile.Valid() && e.Binary?
      modifies bytefile`strings, bytefile`stringtabSize
      ensures Made(G.EmitExpr(cfg, Scoped(), old(bytefile.strings), e), r)
      decreases e, 0
    {
      if e.operator.Dot? {
        if !e.right.Name? || e.right.name !in cfg.fieldIndices { return Err(UnknownName); }
        var code := EmitExpr(e.left);
        if code.Err? { return code; }
        return Ok(code.value + [FIELD(cfg.fieldIndices[e.right.name])]);
      }
      var a := EmitExpr(e.left);
      if a.Err? { return a; }
      var b := EmitExpr(e.right);
      if b.Err? { return b; }
      return Ok(a.value + b.value + [BINOP(Operator(e.operator).value)]);
    }

    method EmitCallee(f: Expr) returns (r: Result<Code>)
      requires bytefile.Valid()
      modifies bytefile`strings, bytefile`stringtabSize
      ensures Made(G.EmitCallee(cfg, Scoped(), old(bytefile.strings), f), r)
      decreases f, 2
    {
      hide G.EmitExpr, CalleeOf;
      if !CalleeOf(cfg, f).Computed? { return Ok([]); }
      r := EmitExpr(f);
    }

    /** A constructor, a builtin, a known function, or whatever value the callee computes. */
    method EmitCall(e: Expr) returns (r: Result<Code>)
      requires bytefile.Valid() && e.FunctionCall?
      modifies bytefile`strings, bytefile`stringtabSize
      ensures Made(G.EmitExpr(cfg, Scoped(), old(bytefile.strings), e), r)
      decreases e, 0
    {
      hide G.EmitExprs, G.EmitCallee, CalleeOf;
      var f, n := e.function_, |e.arguments|;
      if f.Name? && f.name in cfg.variants {
        if n != |cfg.variants[f.name].fields| { return Err(ArityMismatch); }
        var code := EmitAll(e.arguments);
        if code.Err? { return code; }
        return Ok(code.value + [VARIANT(cfg.variants[f.name].schema)]);
      }
      var callee := EmitCallee(f);
      if callee.Err? { return callee; }
      var code := EmitAll(e.arguments);
      if code.Err? { return code; }
      return Ok(callee.value + code.value + [G.CallCode(CalleeOf(cfg, f), n)]);
    }

    method EmitSlice(e: Expr) returns (r: Result<Code>)
      requires bytefile.Valid() && e.SliceExpr?
      modifies bytefile`strings, bytefile`stringtabSize
      ensures Made(G.EmitExpr(cfg, Scoped(), old(bytefile.strings), e), r)
      decreases e, 0
    {
      hide G.EmitMaybe;
      var instrs := EmitExpr(e.collection);
      if instrs.Err? { return instrs; }
      var bounds := 0;
      var from := EmitMaybe(e.from);
      if from.Err? { return from; }
      if e.from.Present? { bounds := bounds + 1; }
      var to := EmitMaybe(e.to);
      if to.Err? { return to; }
      if e.to.Present? { bounds := bounds + 2; }
      return Ok(instrs.value + from.value + to.value + [SLICE(bounds)]);
    }

    method EmitExpr(e: Expr) returns (r: Result<Code>)
      requires bytefile.Valid()
      modifies bytefile`strings, bytefile`stringtabSize
      ensures Made(G.EmitExpr(cfg, Scoped(), old(bytefile.strings), e), r)
      decreases e, 1
    {
      hide G.EmitExprs, G.EmitMaybe, G.EmitCallee;
      match e {
        case IntegerLit(n) => return Ok([CONST(AsI32(n))]);
        case BooleanLit(b) => return Ok([BOOL(b)]);
        case RealLit(f) => return Ok([CONSTF(f)]);
        case TextLit(bytes) =>
          var offset := bytefile.InternString(bytes);
          return Ok([STRING(offset)]);
        case NullLit => return Ok([NULL]);
        case Name(name) => r := EmitName(name);
        case Binary(_, _, _) => r := EmitBinary(e);
        case Unary(unary, operand) =>
          var code := EmitExpr(operand);
          if code.Err? { return code; }
          return Ok(code.value + G.UnaryCode(unary));
        case TupleConstruct(elements) =>
          var code := EmitAll(elements);
          if code.Err? { return code; }
          return Ok(code.value + [TUPLE(|elements|)]);
        case FunctionCall(_, _) => r := EmitCall(e);
        case Subscript(collection, index) =>
          var c := EmitExpr(collection);
          if c.Err? { return c; }
          var i := EmitExpr(index);
          if i.Err? { return i; }
          return Ok(c.value + i.value + [ELEM]);
        case SliceExpr(_, _, _) => r := EmitSlice(e);
      }
    }

    method EmitName(name: string) returns (r: Result<Code>)
      ensures r == G.EmitName(cfg, Scoped(), name)
    {
      if name in cfg.variants {
        if cfg.variants[name].fields != [] { return Err(ArityMismatch); }
        return Ok([VARIANT(cfg.variants[name].schema)]);
      }
      if name in cfg.callTargets {
        return Ok([CLOSURE(G.Named(cfg.callTargets[name].0), cfg.callTargets[name].1)]);
      }
      var x := FindVariable(Scoped(), name);
      if x.Err? { return Err(x.fault); }
      return Ok([G.LoadOf(x.value)]);
    }

    // ---------------------------------------------------------------- statements

    method EmitBlock(stmts: seq<Stmt>) returns (r: Result<Code>)
      requires bytefile.Valid()
      modifies this`localCounter, this`globalCounter, this`labelCounter, this`locals, this`globals, this`loopEndLabels
      modifies bytefile`strings, bytefile`stringtabSize
      ensures Done(G.EmitBlock(cfg, old(Env()), stmts), r)
      decreases stmts, 0
    {
      hide G.EmitStmt;
      var instrs: Code := [];
      assert stmts[0..] == stmts;
      JoinNothing(G.EmitBlock(cfg, Env(), stmts));
      for k := 0 to |stmts|
        invariant bytefile.Valid()
        invariant Joined(instrs, G.EmitBlock(cfg, Env(), stmts[k..])) == G.EmitBlock(cfg, old(Env()), stmts)
      {
        BlockStep(cfg, Env(), stmts, k);
        var code := EmitStatement(stmts[k]);
        if code.Err? { return code; }
        JoinMore(instrs, code.value, G.EmitBlock(cfg, Env(), stmts[k + 1..]));
        instrs := instrs + code.value;
      }
      assert instrs + [] == instrs;
      return Ok(instrs);
    }

    method EmitElse(elseBody: MaybeBody) returns (r: Result<Code>)
      requires bytefile.Valid()
      modifies this`localCounter, this`globalCounter, this`labelCounter, this`locals, this`globals, this`loopEndLabels
      modifies bytefile`strings, bytefile`stringtabSize
      ensures Done(G.EmitElse(cfg, old(Env()), elseBody), r)
      decreases elseBody, 0
    {
      hide G.EmitBlock;
      if elseBody.NoBody? { return Ok([]); }
      r := EmitBlock(elseBody.stmts);
    }

    method EmitStatement(s: Stmt) returns (r: Result<Code>)
      requires bytefile.Valid()
      modifies this`localCounter, this`globalCounter, this`labelCounter, this`locals, this`globals, this`loopEndLabels
      modifies bytefile`strings, bytefile`stringtabSize
      ensures Done(G.EmitStmt(cfg, old(Env()), s), r)
      decreases s, 1
    {
      hide G.EmitExpr, G.EmitExprs, G.EmitCallee, G.EmitAssign, G.EmitInputs, G.EmitConditional, G.EmitMatch, G.EmitWhile,
        G.EmitRepeat, G.EmitFor, CalleeOf, Allocate, NextSlot, AfterStmt, AfterInputs, G.CallCode, G.PackCount, G.Named, G.StoreTo;
      match s {
        case Declaration(target, value) =>
          var code := EmitExpr(value);
          if code.Err? { return code; }
          if !target.NameTarget? { return Err(NotImplemented); }
          var x := AllocateVariable(target.name);
          return Ok(code.value + [G.StoreTo(x)]);
        case Assignment(target, value) =>
          var code := EmitExpr(value);
          if code.Err? { return code; }
          var store := EmitAssign(target);
          if store.Err? { return store; }
          return Ok(code.value + store.value);
        case ProcedureCall(procedure, arguments) =>
          var callee := EmitCallee(procedure);
          if callee.Err? { return callee; }
          var code := EmitAll(arguments);
          if code.Err? { return code; }
          return Ok(callee.value + code.value + [G.CallCode(CalleeOf(cfg, procedure), |arguments|)] + [DROP]);
        case Conditional(_, _, _) => r := EmitConditional(s);
        case ValueMatch(_, _, _, _) => r := EmitMatch(s);
        case Loop(header, _) =>
          if header.While? { r := EmitWhile(s); } else if header.Repeat? { r := EmitRepeat(s); } else { r := EmitFor(s); }
        case Output(noNewline, values) =>
          var code := EmitAll(values);
          if code.Err? { return code; }
          return Ok(code.value + [CALLBUILTIN(Lwrite, G.PackCount(|values|, !noNewline))]);
        case Input(textMode, variables) =>
          var stores := EmitInputs(variables);
          if stores.Err? { return stores; }
          return Ok([CALLBUILTIN(Lread, G.PackCount(|variables|, !textMode))] + stores.value);
        case ExitLoop =>
          if loopEndLabels == [] { return Err(NoEnclosingLoop); }
          return Ok([JMP(G.Named(loopEndLabels[|loopEndLabels| - 1]))]);
        case ReturnFromFunction(result) =>
          var code := EmitExpr(result);
          if code.Err? { return code; }
          return Ok(code.value + [END]);
        case _ => return Err(NotImplemented);
      }
    }

    method EmitAssign(target: LValue) returns (r: Result<Code>)
      requires bytefile.Valid()
      modifies bytefile`strings, bytefile`stringtabSize
      ensures Made(G.EmitAssign(cfg, Scoped(), old(bytefile.strings), target), r)
    {
      hide G.EmitExpr, G.EmitMaybe;
      match target {
        case NameTarget(name) =>
          var x := FindVariable(Scoped(), name);
          if x.Err? { return Err(x.fault); }
          return Ok([G.StoreTo(x.value)]);
        case SubscriptTarget(collection, index) =>
          if !collection.Name? { return Err(NotImplemented); }
          var x := FindVariable(Scoped(), collection.name);
          if x.Err? { return Err(x.fault); }
          var i := EmitExpr(index);
          if i.Err? { return i; }
          return Ok(i.value + [G.LoadOf(x.value), STA, DROP]);
        case SliceTarget(collection, from, to) =>
          if !collection.Name? { return Err(NotImplemented); }
          var x := FindVariable(Scoped(), collection.name);
          if x.Err? { return Err(x.fault); }
          var a := EmitMaybe(from);
          if a.Err? { return a; }
          var b := EmitMaybe(to);
          if b.Err? { return b; }
          return Ok([G.LoadOf(x.value)] + a.value + b.value + [SLICE(G.BoundsMask(from, to)), STS]);
        case FieldTarget(left, field) =>
          if field !in cfg.fieldIndices { return Err(UnknownName); }
          var code := EmitExpr(left);
          if code.Err? { return code; }
          return Ok(code.value + [SETFIELD(cfg.fieldIndices[field])]);
      }
    }

    /** A variable that does not exist yet is declared. */
    method EmitInputs(variables: seq<LValue>) returns (r: Result<Code>)
      modifies `localCounter, `globalCounter, `locals, `globals
      ensures match G.EmitInputs(old(Scoped()), variables)
        case Ok(sc) => r == Ok(sc.1) && Scoped() == sc.0
        case Err(_) => r.Err?
    {
      var instrs: Code := [];
      assert variables[0..] == variables;
      JoinNothing(G.EmitInputs(Scoped(), variables));
      for k := 0 to |variables|
        invariant Joined(instrs, G.EmitInputs(Scoped(), variables[k..])) == G.EmitInputs(old(Scoped()), variables)
      {
        if !variables[k].NameTarget? { return Err(NotImplemented); }
        InputsStep(Scoped(), variables, k);
        var found := FindVariable(Scoped(), variables[k].name);
        var x := NextSlot(Scoped());
        if found.Ok? { x := found.value; } else { x := AllocateVariable(variables[k].name); }
        JoinMore(instrs, [G.StoreTo(x)], G.EmitInputs(Scoped(), variables[k + 1..]));
        instrs := instrs + [G.StoreTo(x)];
      }
      assert instrs + [] == instrs;
      return Ok(instrs);
    }

    method EmitConditional(s: Stmt) returns (r: Result<Code>)
      requires bytefile.Valid() && s.Conditional?
      modifies this`localCounter, this`globalCounter, this`labelCounter, this`locals, this`globals, this`loopEndLabels
      modifies bytefile`strings, bytefile`stringtabSize
      ensures Done(G.EmitConditional(cfg, old(Env()), s), r)
      decreases s, 0
    {
      hide G.EmitExpr, G.EmitBlock, G.EmitElse, G.ConditionalCode, G.ElseTail, G.Fresh, AfterBlock, AfterElse, AfterStmt;
      var cond := EmitExpr(s.condition);
      if cond.Err? { return cond; }
      var begin := FreshLabel("if_begin");
      var end := FreshLabel("if_skip");
      var other := end;
      if s.elseBody.Body? { other := FreshLabel("else"); }
      assert Env() == old(Env()).(strings := bytefile.strings, labels := labelCounter);
      var thenCode := EmitBlock(s.thenBody);
      if thenCode.Err? { return thenCode; }
      var elseCode := EmitElse(s.elseBody);
      if elseCode.Err? { return elseCode; }
      if s.elseBody.Body? {
        return Ok(G.ConditionalCode(cond.value, begin, other, thenCode.value, G.ElseTail(end, other, elseCode.value)));
      }
      return Ok(G.ConditionalCode(cond.value, begin, end, thenCode.value, [LABEL(end)]));
    }

    /** `выход` inside the body jumps to `end`. */
    method EmitLoopBody(end: string, body: seq<Stmt>) returns (r: Result<Code>)
      requires bytefile.Valid()
      modifies this`localCounter, this`globalCounter, this`labelCounter, this`locals, this`globals, this`loopEndLabels
      modifies bytefile`strings, bytefile`stringtabSize
      ensures Done(InLoop(cfg, old(Env()), end, body), r)
      decreases body, 1
    {
      hide G.EmitBlock;
      loopEndLabels := loopEndLabels + [end];
      r := EmitBlock(body);
      if r.Ok? { loopEndLabels := loopEndLabels[..|loopEndLabels| - 1]; }
    }

    method EmitWhile(s: Stmt) returns (r: Result<Code>)
      requires bytefile.Valid() && s.Loop? && s.header.While?
      modifies this`localCounter, this`globalCounter, this`labelCounter, this`locals, this`globals, this`loopEndLabels
      modifies bytefile`strings, bytefile`stringtabSize
      ensures Done(G.EmitWhile(cfg, old(Env()), s), r)
      decreases s, 0
    {
      hide G.EmitExpr, G.EmitBlock, G.LoopCode, G.Fresh;
      var loop := FreshLabel("while_loop");
      var end := FreshLabel("while_end");
      var cond := EmitExpr(s.header.condition);
      if cond.Err? { return cond; }
      var body := EmitLoopBody(end, s.body);
      if body.Err? { return body; }
      return Ok(G.LoopCode(loop, cond.value + [G.LeaveUnless(end)], body.value, [], end));
    }

    method EmitRepeat(s: Stmt) returns (r: Result<Code>)
      requires bytefile.Valid() && s.Loop? && s.header.Repeat?
      modifies this`localCounter, this`globalCounter, this`labelCounter, this`locals, this`globals, this`loopEndLabels
      modifies bytefile`strings, bytefile`stringtabSize
      ensures Done(G.EmitRepeat(cfg, old(Env()), s), r)
      decreases s, 0
    {
      hide G.EmitExpr, G.EmitBlock, G.LoopCode, G.RepeatGuard, G.RepeatAdvance, G.Fresh, Allocate, Deallocate, NextSlot, LoopVariable;
      var name := LoopVariable(s.header);
      var x := AllocateVariable(name);
      var count := EmitExpr(s.header.count);
      if count.Err? { return count; }
      var loop := FreshLabel("repeat_loop");
      var end := FreshLabel("repeat_end");
      var body := EmitLoopBody(end, s.body);
      if body.Err? { return body; }
      DeallocateVariable(name);
      return Ok(count.value + [G.StoreTo(x)] + G.LoopCode(loop, G.RepeatGuard(x, end), body.value, G.RepeatAdvance(x), end));
    }

    method EmitCounting(h: LoopHeader) returns (r: Result<Counting>)
      requires bytefile.Valid() && h.For?
      modifies bytefile`strings, bytefile`stringtabSize
      ensures match CountingOf(cfg, Scoped(), old(bytefile.strings), h)
        case Ok(tc) => r == Ok(tc.1) && bytefile.strings == tc.0 && bytefile.Valid()
        case Err(_) => r.Err?
      decreases h, 0
    {
      hide G.EmitMaybe;
      var from := EmitMaybe(h.from);
      if from.Err? { return Err(from.fault); }
      var to := EmitMaybe(h.to);
      if to.Err? { return Err(to.fault); }
      var given := EmitMaybe(h.step);
      if given.Err? { return Err(given.fault); }
      return Ok(Counting(if h.from.Present? then from.value else [CONST(0)], to.value,
                         if h.step.Present? then given.value else [CONST(1)]));
    }

    /** Bounds and step are emitted before the loop variable exists. */
    method EmitFor(s: Stmt) returns (r: Result<Code>)
      requires bytefile.Valid() && s.Loop? && s.header.For?
      modifies this`localCounter, this`globalCounter, this`labelCounter, this`locals, this`globals, this`loopEndLabels
      modifies bytefile`strings, bytefile`stringtabSize
      ensures Done(G.EmitFor(cfg, old(Env()), s), r)
      decreases s, 0
    {
      hide G.EmitFor, InLoop, CountingOf, G.LoopCode, G.ForTest, G.ForAdvance, G.SimpleGuard, G.Fresh, Allocate, Deallocate, NextSlot;
      var h := s.header;
      ForEmitted(cfg, Env(), s);
      var counting := EmitCounting(h);
      if counting.Err? { return Err(counting.fault); }
      var c := counting.value;
      var x := AllocateVariable(h.variable);
      var loop := FreshLabel("for_loop");
      var end := FreshLabel("for_end");
      var guard := G.ForTest(h.to, x, c.step, c.to, G.SimpleGuard(h.step, c.to), end);
      var body := EmitLoopBody(end, s.body);
      if body.Err? { return body; }
      DeallocateVariable(h.variable);
      return Ok(c.start + [G.StoreTo(x)] + G.LoopCode(loop, guard, body.value, G.ForAdvance(x, c.step), end));
    }

    // ---------------------------------------------------------------- selection

    method EmitMatch(s: Stmt) returns (r: Result<Code>)
      requires bytefile.Valid() && s.ValueMatch?
      modifies this`localCounter, this`globalCounter, this`labelCounter, this`locals, this`globals, this`loopEndLabels
      modifies bytefile`strings, bytefile`stringtabSize
      ensures Done(G.EmitMatch(cfg, old(Env()), s), r)
      decreases s, 0
    {
      hide G.EmitExpr, G.EmitCases, G.EmitElse, G.Fresh, Allocate, Deallocate, NextSlot, HiddenName;
      var name, plain := HiddenName("match", s.span), s.subject.Name?;
      var hold: Code, subject := [], if plain then Reread(s.subject.name) else Held(NextSlot(Scoped()));
      if !plain {
        var x := AllocateVariable(name);
        var code := EmitExpr(s.subject);
        if code.Err? { return code; }
        hold := code.value + [G.StoreTo(x)];
      }
      var end := FreshLabel("match_end");
      var cases := EmitCases(subject, end, s.cases);
      if cases.Err? { return cases; }
      var other := EmitElse(s.elseBody);
      if other.Err? { return other; }
      if !plain { DeallocateVariable(name); }
      return Ok(hold + cases.value + other.value + [LABEL(end)]);
    }

    method EmitCases(subject: Subject, end: string, cases: seq<Case>) returns (r: Result<Code>)
      requires bytefile.Valid()
      modifies this`localCounter, this`globalCounter, this`labelCounter, this`locals, this`globals, this`loopEndLabels
      modifies bytefile`strings, bytefile`stringtabSize
      ensures Done(G.EmitCases(cfg, old(Env()), subject, end, cases), r)
      decreases cases, 0
    {
      hide G.EmitCase;
      var instrs: Code := [];
      assert cases[0..] == cases;
      JoinNothing(G.EmitCases(cfg, Env(), subject, end, cases));
      for k := 0 to |cases|
        invariant bytefile.Valid()
        invariant Joined(instrs, G.EmitCases(cfg, Env(), subject, end, cases[k..])) == G.EmitCases(cfg, old(Env()), subject, end, cases)
      {
        CasesStep(cfg, Env(), subject, end, cases, k);
        var code := EmitCase(subject, end, cases[k]);
        if code.Err? { return code; }
        JoinMore(instrs, code.value, G.EmitCases(cfg, Env(), subject, end, cases[k + 1..]));
        instrs := instrs + code.value;
      }
      assert instrs + [] == instrs;
      return Ok(instrs);
    }

    method EmitCase(subject: Subject, end: string, c: Case) returns (r: Result<Code>)
      requires bytefile.Valid()
      modifies this`localCounter, this`globalCounter, this`labelCounter, this`locals, this`globals, this`loopEndLabels
      modifies bytefile`strings, bytefile`stringtabSize
      ensures Done(G.EmitCase(cfg, old(Env()), subject, end, c), r)
      decreases c, 1
    {
      hide G.EmitTest, G.EmitBindings, G.EmitBlock, G.Fresh, G.CaseCode, Bindings;
      var next := FreshLabel("match_next");
      var test := EmitTest(subject, c);
      if test.Err? { return test; }
      var bind := EmitBindings(subject, Bindings(cfg, c));
      if bind.Err? { return bind; }
      var body := EmitBlock(c.body);
      if body.Err? { return body; }
      return Ok(G.CaseCode(test.value, next, bind.value, body.value, end));
    }

    method EmitSubject(subject: Subject) returns (r: Result<Code>)
      ensures r == G.EmitSubject(cfg, Scoped(), subject)
    {
      match subject {
        case Reread(name) => r := EmitName(name);
        case Held(x) => return Ok([G.LoadOf(x)]);
      }
    }

    method EmitTest(subject: Subject, c: Case) returns (r: Result<Code>)
      requires bytefile.Valid()
      modifies bytefile`strings, bytefile`stringtabSize
      ensures Made(G.EmitTest(cfg, Scoped(), old(bytefile.strings), subject, c), r)
    {
      hide G.EmitExpr, G.EmitSubject, PatternOf;
      if c.values == [] { return Err(NotImplemented); }
      var load := EmitSubject(subject);
      if load.Err? { return load; }
      var pattern := PatternOf(cfg, c.values[0]);
      if pattern.Constructor? { return Ok(load.value + [ISVARIANT(pattern.info.schema)]); }
      var value := EmitExpr(c.values[0]);
      if value.Err? { return value; }
      return Ok(load.value + value.value + [BINOP(EQ)]);
    }

    /** Field by field: load the subject, take the field, store it in a new variable. */
    method EmitBindings(subject: Subject, names: seq<Expr>) returns (r: Result<Code>)
      modifies `localCounter, `globalCounter, `locals, `globals
      ensures match G.EmitBindings(cfg, old(Scoped()), subject, names, 0)
        case Ok(sc) => r == Ok(sc.1) && Scoped() == sc.0
        case Err(_) => r.Err?
    {
      hide G.EmitSubject;
      var instrs: Code := [];
      assert names[0..] == names;
      JoinNothing(G.EmitBindings(cfg, Scoped(), subject, names, 0));
      for k := 0 to |names|
        invariant Joined(instrs, G.EmitBindings(cfg, Scoped(), subject, names[k..], k)) == G.EmitBindings(cfg, old(Scoped()), subject, names, 0)
      {
        BindingsStep(cfg, Scoped(), subject, names, k);
        if !names[k].Name? { return Err(NotImplemented); }
        var load := EmitSubject(subject);
        if load.Err? { return load; }
        var x := AllocateVariable(names[k].name);
        var code := load.value + [FIELD(k)] + [G.StoreTo(x)];
        JoinMore(instrs, code, G.EmitBindings(cfg, Scoped(), subject, names[k + 1..], k + 1));
        instrs := instrs + code;
      }
      assert instrs + [] == instrs;
      return Ok(instrs);
    }

    // ---------------------------------------------------------------- definitions

    /** What is carried from module to module. */
    function Carried(): Gen
      reads this, bytefile
    {
      Gen(cfg.variants, cfg.fieldIndices, bytefile.schemas, globalCounter, labelCounter, bytefile.strings)
    }

    /** Call targets of the module, and a clean set of names. */
    method ConfigureModule(m: ModuleDef)
      modifies `cfg, `locals, `args, `globals, `localCounter, `argCounter, `inFunction
      ensures cfg == ConfigOf(m, old(Carried())) && Scoped() == InitScope(globalCounter)
    {
      locals, args, globals, localCounter, argCounter, inFunction := map[], map[], map[], 0, 0, false;
      var targets := FunctionTargetsOf(m);
      cfg := cfg.(callTargets := targets + m.imports);
    }

    static method FunctionTargetsOf(m: ModuleDef) returns (targets: map<string, (string, nat)>)
      ensures targets == FunctionTargets(m.name, m.functions)
    {
      targets := map[];
      ghost var all := FunctionTargets(m.name, m.functions);
      assert m.functions[0..] == m.functions && map[] + all == all;
      for k := 0 to |m.functions|
        invariant targets + FunctionTargets(m.name, m.functions[k..]) == all
      {
        var f := m.functions[k];
        assert m.functions[k..][1..] == m.functions[k + 1..];
        var one := map[f.name := (Qualified(m.name, f.name), |f.parameters|)];
        MapsRegroup(targets, one, FunctionTargets(m.name, m.functions[k + 1..]));
        targets := targets + one;
      }
      assert targets + map[] == targets;
    }

    method AddFieldNames(fields: seq<string>) returns (offsets: seq<nat>)
      requires bytefile.Valid()
      modifies bytefile`strings, bytefile`stringtabSize
      ensures bytefile.Valid() && (offsets, bytefile.strings) == AddStrings(old(bytefile.strings), fields)
    {
      offsets := [];
      assert fields[0..] == fields;
      assert [] + AddStrings(bytefile.strings, fields).0 == AddStrings(bytefile.strings, fields).0;
      for k := 0 to |fields|
        invariant bytefile.Valid()
        invariant var rest := AddStrings(bytefile.strings, fields[k..]);
          (offsets + rest.0, rest.1) == AddStrings(old(bytefile.strings), fields)
      {
        assert fields[k..][1..] == fields[k + 1..];
        var offset := bytefile.AddString(NameBytes(fields[k]));
        OffsetsRegroup(offsets, [offset], AddStrings(bytefile.strings, fields[k + 1..]).0);
        offsets := offsets + [offset];
      }
      assert fields[|fields|..] == [] && offsets + [] == offsets;
    }

    /** Each variant of the type gets a schema; a field keeps the index it first had. */
    method EmitTypeDef(t: TypeDef)
      requires bytefile.Valid()
      modifies `cfg, bytefile`strings, bytefile`stringtabSize, bytefile`schemas
      ensures bytefile.Valid() && Carried() == AddVariants(old(Carried()), t.name, t.variants, 0)
      ensures cfg.callTargets == old(cfg.callTargets)
    {
      hide AddStrings, AddFields;
      for k := 0 to |t.variants|
        invariant bytefile.Valid() && cfg.callTargets == old(cfg.callTargets)
        invariant AddVariants(Carried(), t.name, t.variants[k..], k) == AddVariants(old(Carried()), t.name, t.variants, 0)
      {
        var v := t.variants[k];
        assert t.variants[k..][1..] == t.variants[k + 1..];
        var nameOffset := bytefile.AddString(NameBytes(t.name));
        var fieldOffsets := AddFieldNames(v.fields);
        var schema := bytefile.AddVariantSchema(StoredSchema(nameOffset, k, fieldOffsets));
        cfg := cfg.(variants := cfg.variants[v.name := VariantInfo(schema, v.fields)]);
        IndexFields(v.fields);
      }
    }

    method IndexFields(fields: seq<string>)
      modifies `cfg
      ensures cfg == old(cfg).(fieldIndices := AddFields(old(cfg).fieldIndices, fields, 0))
    {
      for k := 0 to |fields|
        invariant cfg == old(cfg).(fieldIndices := cfg.fieldIndices)
        invariant AddFields(cfg.fieldIndices, fields[k..], k) == AddFields(old(cfg).fieldIndices, fields, 0)
      {
        assert fields[k..][1..] == fields[k + 1..];
        if fields[k] !in cfg.fieldIndices { cfg := cfg.(fieldIndices := cfg.fieldIndices[fields[k] := k]); }
      }
    }

    /** A unit's code: label, BEGIN, body, and a null result where no RETURN stands. */
    ghost predicate UnitDone(name: string, u: Unit, n: nat, tab: Strings, r: Result<Code>)
      reads this, bytefile
    {
      match G.EmitBlock(u.cfg, G.GenEnv(u.scope, n, [], tab), u.body)
      case Ok(ec) =>
        && r == Ok([LABEL(name)] + UnitCode(u, ec.1)) && labelCounter == ec.0.labels && bytefile.strings == ec.0.strings
        && loopEndLabels == [] && bytefile.Valid()
      case Err(_) => r.Err?
    }

    /** The module's own statements become its initialisation. */
    method EmitTopLevelDef(m: ModuleDef) returns (r: Result<Code>)
      requires bytefile.Valid() && Scoped() == InitScope(globalCounter) && loopEndLabels == []
      modifies this`localCounter, this`globalCounter, this`labelCounter, this`locals, this`globals, this`loopEndLabels
      modifies bytefile`strings, bytefile`stringtabSize
      ensures UnitDone(InitLabel(m), Semantics.Unit(cfg, old(Scoped()), 0, m.toplevel), old(labelCounter), old(bytefile.strings), r)
      ensures r.Ok? ==> Scoped() == AfterBlock(cfg, old(Scoped()), m.toplevel)
    {
      hide G.EmitBlock, AfterBlock;
      var body := EmitBlock(m.toplevel);
      if body.Err? { return body; }
      return Ok([LABEL(InitLabel(m))] + ([BEGIN(0, 0)] + body.value + [NULL, END]));
    }

    method NameArguments(parameters: seq<string>)
      modifies `args, `argCounter
      ensures args == ArgSlots(parameters)
    {
      args, argCounter := map[], 0;
      for k := 0 to |parameters|
        invariant args == ArgSlots(parameters[..k]) && argCounter == k
      {
        assert parameters[..k + 1][..k] == parameters[..k];
        args := args[parameters[k] := argCounter];
        argCounter := argCounter + 1;
      }
      assert parameters[..|parameters|] == parameters;
    }

    /** A function: its arguments are named, its locals start afresh, its globals are the
        module's. */
    method EmitFunctionDef(m: ModuleDef, f: FunctionDef) returns (r: Result<Code>)
      requires bytefile.Valid() && loopEndLabels == []
      modifies this`localCounter, this`globalCounter, this`labelCounter, this`locals, this`globals, this`loopEndLabels
      modifies this`args, this`argCounter, this`inFunction
      modifies bytefile`strings, bytefile`stringtabSize
      ensures UnitDone(Qualified(m.name, f.name), Semantics.Unit(cfg, FunctionScope(old(Scoped()), f.parameters), |f.parameters|, f.body),
                       old(labelCounter), old(bytefile.strings), r)
      ensures r.Ok? ==> globals == old(globals) && globalCounter == old(globalCounter)
    {
      hide G.EmitBlock, AfterBlock, CountLocals, G.HasReturn;
      inFunction, locals, localCounter := true, map[], 0;
      NameArguments(f.parameters);
      var begin := BEGIN(|f.parameters|, CountLocals(cfg, f.body));
      BlockExtends(cfg, Scoped(), f.body);
      var body := EmitBlock(f.body);
      if body.Err? { return body; }
      inFunction := false;
      var epilogue := if G.HasReturn(f.body) then [] else [NULL, END];
      return Ok([LABEL(Qualified(m.name, f.name))] + ([begin] + body.value + epilogue));
    }

    /** One module: names, types, initialisation, functions. */
    method EmitModule(m: ModuleDef) returns (r: Result<Code>)
      requires bytefile.Valid() && loopEndLabels == []
      modifies this, bytefile`strings, bytefile`stringtabSize, bytefile`schemas
      ensures match EmitModules([m], old(Carried()))
        case Ok(guc) => r == Ok(guc.2) && Carried() == guc.0 && loopEndLabels == [] && bytefile.Valid()
        case Err(_) => r.Err?
    {
      hide G.EmitBlock, AfterBlock, EmitModules, AddVariants, FunctionTargets, UnitCode, EmitUnits, FunctionUnits, G.EmitStmt;
      ConfigureModule(m);
      for k := 0 to |m.types|
        invariant bytefile.Valid() && loopEndLabels == [] && Scoped() == InitScope(globalCounter)
        invariant cfg.callTargets == ConfigOf(m, old(Carried())).callTargets
        invariant AddTypes(Carried(), m.types[k..]) == AddTypes(old(Carried()), m.types)
      {
        assert m.types[k..][1..] == m.types[k + 1..];
        EmitTypeDef(m.types[k]);
      }
      ghost var g := AddTypes(old(Carried()), m.types);
      assert Carried() == g && cfg == ConfigOf(m, g);
      OneModule(m, old(Carried()));
      UnitsStep(UnitsOf(m, g), g.labels, g.strings, 0);
      var instrs := EmitTopLevelDef(m);
      if instrs.Err? { return instrs; }
      ghost var top := TopScope(m, g);
      assert Scoped() == top;
      assert UnitsOf(m, g)[1..] == FunctionUnits(m, cfg, top, m.functions);
      r := EmitFunctions(m, top);
      if r.Ok? { r := Ok(instrs.value + r.value); }
    }

    method EmitFunctions(m: ModuleDef, ghost top: Scope) returns (r: Result<Code>)
      requires bytefile.Valid() && loopEndLabels == [] && globals == top.globals && globalCounter == top.globalCounter
      modifies this, bytefile`strings, bytefile`stringtabSize
      ensures match EmitUnits(FunctionUnits(m, old(cfg), top, m.functions), old(labelCounter), old(bytefile.strings))
        case Ok(ntc) =>
          && r == Ok(ntc.2) && labelCounter == ntc.0 && bytefile.strings == ntc.1
          && loopEndLabels == [] && bytefile.Valid() && cfg == old(cfg) && globalCounter == old(globalCounter)
        case Err(_) => r.Err?
    {
      hide EmitUnits, UnitCode, G.EmitBlock;
      var instrs: Code := [];
      ghost var units := FunctionUnits(m, cfg, top, m.functions);
      FunctionUnitsAre(m, cfg, top, m.functions);
      assert units[0..] == units;
      JoinUnitsNothing(EmitUnits(units, labelCounter, bytefile.strings));
      for k := 0 to |m.functions|
        invariant bytefile.Valid() && loopEndLabels == [] && globals == top.globals && globalCounter == top.globalCounter && cfg == old(cfg)
        invariant JoinedUnits(instrs, EmitUnits(units[k..], labelCounter, bytefile.strings))
          == EmitUnits(units, old(labelCounter), old(bytefile.strings))
      {
        UnitsStep(units, labelCounter, bytefile.strings, k);
        var code := EmitFunctionDef(m, m.functions[k]);
        if code.Err? { return code; }
        JoinUnitsMore(instrs, code.value, EmitUnits(units[k + 1..], labelCounter, bytefile.strings));
        instrs := instrs + code.value;
      }
      assert units[|m.functions|..] == [];
      NoUnits(labelCounter, bytefile.strings);
      assert instrs + [] == instrs;
      return Ok(instrs);
    }

    // ---------------------------------------------------------------- the program

    method EmitAllModules(ms: seq<ModuleDef>) returns (r: Result<Code>)
      requires bytefile.Valid() && loopEndLabels == []
      modifies this, bytefile`strings, bytefile`stringtabSize, bytefile`schemas
      ensures match EmitModules(ms, old(Carried()))
        case Ok(guc) => r == Ok(guc.2) && Carried() == guc.0 && bytefile.Valid()
        case Err(_) => r.Err?
    {
      hide EmitModules;
      var instrs: Code := [];
      ghost var units: seq<NamedUnit>, all := [], EmitModules(ms, Carried());
      assert ms[0..] == ms;
      JoinModulesNothing(all);
      for k := 0 to |ms|
        invariant bytefile.Valid() && loopEndLabels == []
        invariant JoinedModules(units, instrs, EmitModules(ms[k..], Carried())) == all
      {
        ModulesStep(ms, Carried(), k);
        ghost var one := EmitModules([ms[k]], Carried());
        var code := EmitModule(ms[k]);
        if code.Err? { return code; }
        JoinModulesMore(units, instrs, one.value.1, code.value, EmitModules(ms[k + 1..], Carried()));
        units, instrs := units + one.value.1, instrs + code.value;
      }
      NoModules(Carried());
      assert ms[|ms|..] == [] && instrs + [] == instrs;
      return Ok(instrs);
    }

    /** main initialises every module once, in order. */
    static method MainInstructions(ms: seq<ModuleDef>) returns (instrs: Code)
      ensures instrs == MainCode(ms)
    {
      instrs := [LABEL(MAIN)] + [BEGIN(0, 0)];
      ghost var front := instrs;
      assert ms[0..] == ms && front + InitCalls(ms) == instrs + InitCalls(ms);
      for k := 0 to |ms|
        invariant instrs + InitCalls(ms[k..]) == front + InitCalls(ms)
      {
        assert ms[k..][1..] == ms[k + 1..];
        var call := [CALL(G.Named(InitLabel(ms[k])), 0)] + [DROP];
        CodeRegroup(instrs, call, InitCalls(ms[k + 1..]));
        instrs := instrs + call;
      }
      assert ms[|ms|..] == [] && instrs + [] == instrs;
      instrs := instrs + [NULL, END];
    }

    /** A symbol for main and for every function. */
    method AddPublicSymbols(names: seq<string>) returns (r: Result<()>)
      requires bytefile.Valid()
      modifies bytefile`strings, bytefile`stringtabSize, bytefile`symbols, bytefile`symbolsNumber
      ensures match AddSymbols(old(bytefile.strings), names, bytefile.labels)
        case Ok(ss) => r.Ok? && bytefile.strings == ss.0 && bytefile.symbols == old(bytefile.symbols) + ss.1 && bytefile.Valid()
        case Err(_) => r.Err?
    {
      ghost var added: seq<Symbol>, all := [], AddSymbols(bytefile.strings, names, bytefile.labels);
      assert names[0..] == names;
      JoinSymbolsNothing(all);
      for k := 0 to |names|
        invariant bytefile.Valid() && bytefile.symbols == old(bytefile.symbols) + added
        invariant JoinedSymbols(added, AddSymbols(bytefile.strings, names[k..], bytefile.labels)) == all
      {
        NamesStep(bytefile.strings, names, bytefile.labels, k);
        if names[k] !in bytefile.labels { return Err(UnknownLabel); }
        var offset := bytefile.labels[names[k]];
        var _ := bytefile.AddString(NameBytes(names[k]));
        r := bytefile.AddPublicSymbol(NameBytes(names[k]), offset);
        if r.Err? { return; }
        ghost var symbol := bytefile.symbols[|bytefile.symbols| - 1];
        JoinSymbolsMore(added, [symbol], AddSymbols(bytefile.strings, names[k + 1..], bytefile.labels));
        added := added + [symbol];
      }
      assert names[|names|..] == [] && added + [] == added;
      return Ok(());
    }

    /** From modules in dependency order to the finished bytefile. It succeeds exactly when
        every statement can be emitted, no label clashes and every instruction encodes. */
    method Generate(ms: seq<ModuleDef>) returns (r: Result<()>)
      requires bytefile.Valid() && Carried() == NEW_GEN && loopEndLabels == []
      requires bytefile.Data() == Contents(0, 0, 0, [], [], [], [], 0) && bytefile.labels == map[]
      modifies this, bytefile
      ensures r.Ok? <==> ms != [] && Generates(ms)
      ensures r.Ok? ==> Assembles(EmitProgram(ms).value.2, bytefile.labels, bytefile.code)
      ensures r.Ok? ==> FileOf(ms, bytefile.labels, bytefile.code) == Ok(bytefile.Data()) && bytefile.Valid()
    {
      hide EmitModules, Place, Emit, AddSymbols, MainCode;
      if ms == [] { return Err(NotImplemented); }
      var code := EmitAllModules(ms);
      if code.Err? { return Err(code.fault); }
      bytefile.globalAreaSize := globalCounter;
      var main := MainInstructions(ms);
      assert EmitProgram(ms).value.2 == code.value + main;
      r := bytefile.AddInstructions(code.value + main);
      if r.Err? { return; }
      assert bytefile.code == Emit(bytefile.labels, code.value + main).value;
      MainPlaced(ms, code.value, bytefile.labels);
      bytefile.main := bytefile.labels[MAIN];
      ghost var added := AddSymbols(bytefile.strings, [MAIN] + Exported(ms), bytefile.labels);
      if added.Ok? { assert [] + added.value.1 == added.value.1; }
      r := AddPublicSymbols([MAIN] + Exported(ms));
    }
  }

  /** The two passes of the assembler turn the code into these bytes, with these labels. */
  predicate Assembles(code: Code, labels: Labels, bytes: seq<Byte>) {
    Place(code, 0, map[]) == Ok(labels) && Emit(labels, code) == Ok(bytes)
  }

  predicate Generates(ms: seq<ModuleDef>) {
    && EmitProgram(ms).Ok?
    && var code := EmitProgram(ms).value.2;
      && Place(code, 0, map[]).Ok? && Emit(Place(code, 0, map[]).value, code).Ok?
      && FileOf(ms, Place(code, 0, map[]).value, Emit(Place(code, 0, map[]).value, code).value).Ok?
  }
}
