/** What names mean, said without the compiler's own tables: parameters read their arguments,
    declarations hide what they shadow and nothing else, other names read the globals, and a
    call by name runs the body the module defines (crates/compiler-core/src/codegen/bcgen.rs). */
module NameLaws {
  import opened Results
  import opened Bytecode
  import opened Ast
  import opened Scoping
  import opened Semantics
  import opened Linking
  import opened HeldLoops
  import opened LabelNames
  import opened OperatorLaws
  import opened Codegen
  import RT = Runtime

  predicate IsVariable(cfg: Config, name: string) { name !in cfg.variants && name !in cfg.callTargets }

  /** The value a name has. */
  function NameValue(w: World, cfg: Config, sc: Scope, name: string, m: Mem): Result<Value> {
    var (v, _) :- EvalName(w, cfg, sc, name, m);
    Ok(v)
  }

  // ---------------------------------------------------------------- parameters

  /** A parameter is known by its position; of two with one name the last is meant. */
  lemma {:induction false} ArgSlotIs(parameters: seq<string>, i: nat)
    requires i < |parameters| && parameters[i] !in parameters[i + 1..]
    ensures parameters[i] in ArgSlots(parameters) && ArgSlots(parameters)[parameters[i]] == i
    decreases |parameters|
  {
    var last := |parameters| - 1;
    if i < last {
      assert parameters[last] == parameters[i + 1..][last - i - 1];
      assert parameters[i + 1..] == parameters[..last][i + 1..] + [parameters[last]];
      ArgSlotIs(parameters[..last], i);
    }
  }

  lemma {:induction false} ArgSlotNames(parameters: seq<string>)
    ensures forall x :: x in ArgSlots(parameters) <==> x in parameters
    decreases |parameters|
  {
    if parameters != [] {
      var last := |parameters| - 1;
      ArgSlotNames(parameters[..last]);
      assert parameters == parameters[..last] + [parameters[last]];
    }
  }

  /** In a called function a parameter reads its argument, whatever the module's globals are. */
  lemma ParameterReads(w: World, cfg: Config, top: Scope, parameters: seq<string>, i: nat, u: Unit, vs: seq<Value>, m: Mem)
    requires i < |parameters| == |vs| && parameters[i] !in parameters[i + 1..] && IsVariable(cfg, parameters[i])
    ensures EvalName(w, cfg, FunctionScope(top, parameters), parameters[i], Entered(u, vs, m)) == Ok((vs[i], Entered(u, vs, m)))
  {
    hide ArgSlots;
    ArgSlotIs(parameters, i);
  }

  /** Assigning to a parameter changes that argument and nothing else, no global in particular. */
  lemma ParameterAssigned(w: World, fuel: nat, cfg: Config, top: Scope, parameters: seq<string>, i: nat, e: Expr, v: Value, m: Mem, m1: Mem)
    requires i < |parameters| == |m1.args| && parameters[i] !in parameters[i + 1..] && IsVariable(cfg, parameters[i])
    requires EvalExpr(w, fuel, cfg, FunctionScope(top, parameters), e, m) == Ok((v, m1))
    ensures EvalStmt(w, fuel, cfg, FunctionScope(top, parameters), Assignment(NameTarget(parameters[i]), e), m)
      == Ok((Normal, m1.(args := m1.args[i := v])))
    ensures EvalName(w, cfg, FunctionScope(top, parameters), parameters[i], m1.(args := m1.args[i := v])) == Ok((v, m1.(args := m1.args[i := v])))
  {
    hide ArgSlots, EvalExpr;
    ArgSlotIs(parameters, i);
  }

  // ---------------------------------------------------------------- declarations

  /** A scope as a unit's statements meet it: every name has a slot of its own, and outside
      functions there are only globals. */
  predicate Standing(sc: Scope) { Distinct(sc) && (sc.inFunction || (sc.locals == map[] && sc.args == map[])) }

  lemma StmtStanding(cfg: Config, sc: Scope, s: Stmt)
    requires Standing(sc)
    ensures Standing(AfterStmt(cfg, sc, s))
  {
    hide Distinct;
    StmtDistinct(cfg, sc, s);
    StmtExtends(cfg, sc, s);
  }

  lemma UnitsStanding(m: ModuleDef, g: Gen)
    ensures forall u :: u in UnitsOf(m, g) ==> Standing(u.unit.scope)
  {
    hide Distinct;
    UnitsDistinct(m, g);
    InFunctions(m, ConfigOf(m, g), TopScope(m, g), m.functions);
  }

  lemma {:induction false} InFunctions(m: ModuleDef, cfg: Config, top: Scope, functions: seq<FunctionDef>)
    ensures forall u :: u in FunctionUnits(m, cfg, top, functions) ==> u.unit.scope.inFunction
    decreases |functions|
  {
    if functions != [] { InFunctions(m, cfg, top, functions[1..]); }
  }

  /** After a declaration, in a function or at the top level, its name has the value declared
      and every other variable has the value it had. */
  lemma DeclaredReads(w: World, fuel: nat, cfg: Config, sc: Scope, n: string, e: Expr, v: Value, m: Mem, m1: Mem, m2: Mem)
    requires Standing(sc) && EvalExpr(w, fuel, cfg, sc, e, m) == Ok((v, m1))
    requires EvalStmt(w, fuel, cfg, sc, Declaration(NameTarget(n), e), m) == Ok((Normal, m2))
    ensures var after := AfterStmt(cfg, sc, Declaration(NameTarget(n), e));
      && (IsVariable(cfg, n) ==> NameValue(w, cfg, after, n, m2) == Ok(v))
      && (forall y :: y != n && IsVariable(cfg, y) ==> NameValue(w, cfg, after, y, m2) == NameValue(w, cfg, sc, y, m1))
      && m2.heap == m1.heap && m2.log == m1.log && m2.args == m1.args
  {
    hide EvalExpr;
    forall y | y != n && IsVariable(cfg, y)
      ensures NameValue(w, cfg, Allocate(sc, n), y, m2) == NameValue(w, cfg, sc, y, m1)
    {
      OtherName(w, cfg, sc, n, y, v, m1, m2);
    }
  }

  lemma OtherName(w: World, cfg: Config, sc: Scope, n: string, y: string, v: Value, m1: Mem, m2: Mem)
    requires Standing(sc) && y != n && IsVariable(cfg, y) && Write(m1, NextSlot(sc), v) == Ok(m2)
    ensures NameValue(w, cfg, Allocate(sc, n), y, m2) == NameValue(w, cfg, sc, y, m1)
  {
    assert FindVariable(Allocate(sc, n), y) == FindVariable(sc, y);
    if FindVariable(sc, y).Ok? {
      OwnsFound(sc, y);
      OwnsNext(sc, n, y, FindVariable(sc, y).value);
      WriteElsewhere(m1, FindVariable(sc, y).value, NextSlot(sc), v);
    }
  }

  /** Assigning to a variable gives it the value and leaves every other name's value. */
  lemma AssignedReads(w: World, fuel: nat, cfg: Config, sc: Scope, n: string, e: Expr, v: Value, m: Mem, m1: Mem, m2: Mem)
    requires Standing(sc) && EvalExpr(w, fuel, cfg, sc, e, m) == Ok((v, m1))
    requires EvalStmt(w, fuel, cfg, sc, Assignment(NameTarget(n), e), m) == Ok((Normal, m2))
    ensures IsVariable(cfg, n) ==> NameValue(w, cfg, sc, n, m2) == Ok(v)
    ensures forall y :: y != n && IsVariable(cfg, y) ==> NameValue(w, cfg, sc, y, m2) == NameValue(w, cfg, sc, y, m1)
    ensures m2.heap == m1.heap && m2.log == m1.log
  {
    hide EvalExpr;
    var x := FindVariable(sc, n).value;
    forall y | y != n && IsVariable(cfg, y)
      ensures NameValue(w, cfg, sc, y, m2) == NameValue(w, cfg, sc, y, m1)
    {
      if FindVariable(sc, y).Ok? {
        OwnsFound(sc, y);
        OwnsOnly(sc, y, FindVariable(sc, y).value, n);
        WriteElsewhere(m1, FindVariable(sc, y).value, x, v);
      }
    }
  }

  // ---------------------------------------------------------------- globals

  /** Anywhere in a function's body, a name that is neither local nor parameter is the global. */
  lemma GlobalReads(w: World, cfg: Config, top: Scope, parameters: seq<string>, before: seq<Stmt>, name: string, m: Mem)
    requires name in top.globals && top.globals[name] < |m.globals| && IsVariable(cfg, name)
    requires name !in parameters && name !in AfterBlock(cfg, FunctionScope(top, parameters), before).locals
    ensures EvalName(w, cfg, AfterBlock(cfg, FunctionScope(top, parameters), before), name, m) == Ok((m.globals[top.globals[name]], m))
  {
    hide AfterBlock, ArgSlots;
    BlockExtends(cfg, FunctionScope(top, parameters), before);
    ArgSlotNames(parameters);
  }

  /** A name that nothing declares has no meaning. */
  lemma UnknownHasNone(w: World, cfg: Config, top: Scope, parameters: seq<string>, name: string, m: Mem)
    requires name !in top.globals && name !in parameters && IsVariable(cfg, name)
    ensures EvalName(w, cfg, FunctionScope(top, parameters), name, m) == Err(UnknownName)
  {
    hide ArgSlots;
    ArgSlotNames(parameters);
  }

  // ---------------------------------------------------------------- calls by name

  function Names(functions: seq<FunctionDef>): seq<string> { seq(|functions|, i requires 0 <= i < |functions| => functions[i].name) }

  /** A function's label is the module's and its own name, its arity the number of its
      parameters; the first of two functions with one name is hidden. */
  lemma {:induction false} FunctionTargetIs(module_: string, functions: seq<FunctionDef>, i: nat)
    requires i < |functions| && functions[i].name !in Names(functions)[i + 1..]
    ensures var targets := FunctionTargets(module_, functions);
      functions[i].name in targets && targets[functions[i].name] == (module_ + "::" + functions[i].name, |functions[i].parameters|)
    decreases |functions|
  {
    if i > 0 {
      assert Names(functions[1..])[i..] == Names(functions)[i + 1..];
      FunctionTargetIs(module_, functions[1..], i - 1);
    } else {
      OnlyNamed(module_, functions[1..]);
      assert Names(functions[1..]) == Names(functions)[1..];
    }
  }

  lemma {:induction false} OnlyNamed(module_: string, functions: seq<FunctionDef>)
    ensures forall x :: x in FunctionTargets(module_, functions) ==> x in Names(functions)
    decreases |functions|
  {
    if functions != [] {
      OnlyNamed(module_, functions[1..]);
      assert Names(functions) == [functions[0].name] + Names(functions[1..]);
    }
  }

  /** The unit of the i-th function: its body, its parameters, the globals of its module. */
  lemma {:induction false} FunctionUnitIs(m: ModuleDef, cfg: Config, top: Scope, functions: seq<FunctionDef>, i: nat)
    requires i < |functions|
    ensures |FunctionUnits(m, cfg, top, functions)| == |functions|
    ensures FunctionUnits(m, cfg, top, functions)[i] == NamedUnit(m.name + "::" + functions[i].name,
      Semantics.Unit(cfg, FunctionScope(top, functions[i].parameters), |functions[i].parameters|, functions[i].body))
    decreases |functions|
  {
    if i > 0 {
      FunctionUnitIs(m, cfg, top, functions[1..], i - 1);
    } else if |functions| > 1 {
      FunctionUnitIs(m, cfg, top, functions[1..], 0);
    }
  }

  /** Units at entries of their own are found by their labels. */
  lemma {:induction false} UnitFound(labels: map<string, nat>, units: seq<NamedUnit>, u: NamedUnit)
    requires u in units && u.name in labels
    requires forall v :: v in units && v.name in labels && labels[v.name] == labels[u.name] ==> v == u
    ensures labels[u.name] in UnitMap(labels, units) && UnitMap(labels, units)[labels[u.name]] == u.unit
    decreases |units|
  {
    if u in units[1..] {
      UnitFound(labels, units[1..], u);
      assert units[0] in units;
    } else {
      assert u == units[0];
    }
  }

  /** The module's i-th function, where its name is neither a builtin's, nor a constructor's, nor
      imported, nor given again to a later function. */
  predicate Callable(m: ModuleDef, g: Gen, i: nat) {
    && i < |m.functions| && m.functions[i].name !in Names(m.functions)[i + 1..]
    && var name := m.functions[i].name;
       name !in m.imports && name !in g.variants && BuiltinNamed(name).None?
  }

  /** The linked program holds the module's units at entries of their own. */
  predicate Holds(labels: map<string, nat>, units: seq<NamedUnit>, m: ModuleDef, g: Gen) {
    && (forall u :: u in UnitsOf(m, g) ==> u in units && u.name in labels)
    && (forall u, v :: u in units && v in units && u.name in labels && v.name in labels && labels[u.name] == labels[v.name] ==> u == v)
  }

  /** The frame a call opens: the arguments by position, every local at integer 0. */
  function CalledIn(m: ModuleDef, g: Gen, f: FunctionDef, vs: seq<Value>, mem: Mem): Mem {
    var locals := AfterBlock(ConfigOf(m, g), FunctionScope(TopScope(m, g), f.parameters), f.body).localCounter;
    Mem(mem.globals, vs, seq(locals, _ => RT.Int(0)), mem.heap, mem.log)
  }

  /** What a call of a unit gives its caller. */
  function Called(w: World, fuel: nat, u: Unit, vs: seq<Value>, frame: Mem, caller: Mem): Result<ValueAnd>
    requires |frame.globals| == |caller.globals|
  {
    var (flow, m) :- EvalBlock(w, fuel, u.cfg, u.scope, u.body, frame);
    Returned(caller, flow, m)
  }

  /** A call by a name that stands for a unit's label runs that unit. */
  lemma CallRunsUnit(labels: map<string, nat>, units: seq<NamedUnit>, lib: RT.Library, fuel: nat, cfg: Config, name: string, u: NamedUnit,
                     sc: Scope, arguments: seq<Expr>, vs: seq<Value>, m0: Mem, m1: Mem)
    requires name in cfg.callTargets && cfg.callTargets[name] == (u.name, u.unit.arity) && name !in cfg.variants && BuiltinNamed(name).None?
    requires u in units && u.name in labels && fuel > 0 && |arguments| == u.unit.arity
    requires forall v :: v in units && v.name in labels && labels[v.name] == labels[u.name] ==> v == u
    requires EvalExprs(WorldOf(labels, units, lib), fuel, cfg, sc, arguments, m0) == Ok((vs, m1))
    ensures EvalExpr(WorldOf(labels, units, lib), fuel, cfg, sc, FunctionCall(Name(name), arguments), m0)
      == Called(WorldOf(labels, units, lib), fuel - 1, u.unit, vs, Entered(u.unit, vs, m1), m1)
  {
    hide EvalBlock, EvalExprs, UnitMap, AfterBlock, BuiltinNamed;
    UnitFound(labels, units, u);
  }

  /** A call by name runs the function's own body in a new frame that holds the arguments. */
  lemma CallRunsBody(labels: map<string, nat>, units: seq<NamedUnit>, lib: RT.Library, fuel: nat, m: ModuleDef, g: Gen, i: nat,
                     sc: Scope, arguments: seq<Expr>, vs: seq<Value>, m0: Mem, m1: Mem)
    requires Callable(m, g, i) && Holds(labels, units, m, g) && fuel > 0 && |arguments| == |m.functions[i].parameters|
    requires EvalExprs(WorldOf(labels, units, lib), fuel, ConfigOf(m, g), sc, arguments, m0) == Ok((vs, m1))
    ensures var w, cfg, f := WorldOf(labels, units, lib), ConfigOf(m, g), m.functions[i];
      EvalExpr(w, fuel, cfg, sc, FunctionCall(Name(f.name), arguments), m0) ==
        Called(w, fuel - 1, Semantics.Unit(cfg, FunctionScope(TopScope(m, g), f.parameters), |f.parameters|, f.body), vs, CalledIn(m, g, f, vs, m1), m1)
  {
    hide EvalBlock, EvalExprs, UnitMap, TopScope, FunctionScope, AfterBlock, BuiltinNamed, FunctionTargets, FunctionUnits, Called, Names;
    var cfg, f := ConfigOf(m, g), m.functions[i];
    FunctionTargetIs(m.name, m.functions, i);
    FunctionUnitIs(m, cfg, TopScope(m, g), m.functions, i);
    var u := FunctionUnits(m, cfg, TopScope(m, g), m.functions)[i];
    assert UnitsOf(m, g)[i + 1] == u && u in UnitsOf(m, g);
    assert Entered(u.unit, vs, m1) == CalledIn(m, g, f, vs, m1);
    CallRunsUnit(labels, units, lib, fuel, cfg, f.name, u, sc, arguments, vs, m0, m1);
  }

  /** An imported name means the imported function, whatever the module defines itself. */
  lemma ImportedCallRuns(labels: map<string, nat>, units: seq<NamedUnit>, lib: RT.Library, fuel: nat, m: ModuleDef, g: Gen, name: string, u: NamedUnit,
                         sc: Scope, arguments: seq<Expr>, vs: seq<Value>, m0: Mem, m1: Mem)
    requires name in m.imports && m.imports[name] == (u.name, u.unit.arity) && name !in g.variants && BuiltinNamed(name).None?
    requires u in units && u.name in labels && fuel > 0 && |arguments| == u.unit.arity
    requires forall v :: v in units && v.name in labels && labels[v.name] == labels[u.name] ==> v == u
    requires EvalExprs(WorldOf(labels, units, lib), fuel, ConfigOf(m, g), sc, arguments, m0) == Ok((vs, m1))
    ensures EvalExpr(WorldOf(labels, units, lib), fuel, ConfigOf(m, g), sc, FunctionCall(Name(name), arguments), m0)
      == Called(WorldOf(labels, units, lib), fuel - 1, u.unit, vs, Entered(u.unit, vs, m1), m1)
  {
    hide EvalBlock, EvalExprs, UnitMap, AfterBlock, BuiltinNamed, FunctionTargets, Called;
    CallRunsUnit(labels, units, lib, fuel, ConfigOf(m, g), name, u, sc, arguments, vs, m0, m1);
  }

  /** A function that returns the difference of its two parameters. */
  lemma DifferenceOfParameters(w: World, fuel: nat, cfg: Config, top: Scope, a: string, b: string, x: int, y: int, mem: Mem)
    requires a != b && IsVariable(cfg, a) && IsVariable(cfg, b) && -0x8000_0000 <= x - y < 0x8000_0000
    requires mem.args == [RT.Int(x), RT.Int(y)] && w.lib.depth > 0
    ensures EvalBlock(w, fuel, cfg, FunctionScope(top, [a, b]), [ReturnFromFunction(Binary(Subtract, Name(a), Name(b)))], mem)
      == Ok((Return(RT.Int(x - y)), mem))
  {
    hide ArgSlots;
    var sc, e := FunctionScope(top, [a, b]), Binary(Subtract, Name(a), Name(b));
    ArgSlotIs([a, b], 0);
    ArgSlotIs([a, b], 1);
    assert EvalExpr(w, fuel, cfg, sc, e, mem) == Ok((RT.Int(x - y), mem)) by {
      assert Operands(w, fuel, cfg, sc, Name(a), Name(b), mem, RT.Int(x), RT.Int(y), mem);
      IntegerLaw(w, fuel, cfg, sc, Subtract, Name(a), Name(b), x, y, mem, mem);
    }
    hide EvalExpr;
    assert EvalStmt(w, fuel, cfg, sc, ReturnFromFunction(e), mem) == Ok((Return(RT.Int(x - y)), mem));
  }

  // ---------------------------------------------------------------- frames and hidden names

  /** Nothing is read, declarations name variables, and cases have one value and bind names. */
  predicate Simple(cfg: Config, s: Stmt)
    decreases s
  {
    match s
    case Declaration(target, _) => target.NameTarget?
    case Conditional(_, thenBody, elseBody) => AllSimple(cfg, thenBody) && (elseBody.Body? ==> AllSimple(cfg, elseBody.stmts))
    case ValueMatch(_, _, cases, elseBody) =>
      (forall c :: c in cases ==> SimpleCase(cfg, c)) && (elseBody.Body? ==> AllSimple(cfg, elseBody.stmts))
    case Loop(_, body) => AllSimple(cfg, body)
    case Input(_, _) => false
    case _ => true
  }

  predicate AllSimple(cfg: Config, stmts: seq<Stmt>)
    decreases stmts
  {
    forall s :: s in stmts ==> Simple(cfg, s)
  }

  predicate SimpleCase(cfg: Config, c: Case)
    decreases c
  {
    |c.values| == 1 && (forall e :: e in Bindings(cfg, c) ==> e.Name?) && AllSimple(cfg, c.body)
  }

  /** Selections on a plain name: each has a slot counted that it does not take. */
  function Spare(s: Stmt): nat
    decreases s
  {
    match s
    case Conditional(_, thenBody, elseBody) => SpareIn(thenBody) + (if elseBody.Body? then SpareIn(elseBody.stmts) else 0)
    case ValueMatch(_, subject, cases, elseBody) =>
      (if subject.Name? then 1 else 0) + SpareInCases(cases) + (if elseBody.Body? then SpareIn(elseBody.stmts) else 0)
    case Loop(_, body) => SpareIn(body)
    case _ => 0
  }

  function SpareIn(stmts: seq<Stmt>): nat
    decreases stmts
  {
    if stmts == [] then 0 else Spare(stmts[0]) + SpareIn(stmts[1..])
  }

  function SpareInCases(cases: seq<Case>): nat
    decreases cases
  {
    if cases == [] then 0 else SpareIn(cases[0].body) + SpareInCases(cases[1..])
  }

  /** The counter after some text: as many slots as counted, less the spare ones. */
  predicate Takes(before: Scope, after: Scope, counted: nat, spare: nat) {
    after.inFunction && after.localCounter + spare == before.localCounter + counted
  }

  /** The frame size counted for such a body is exactly the number of slots it takes, and one
      more for each selection on a plain name. */
  lemma {:induction false} CountIsExact(cfg: Config, sc: Scope, stmts: seq<Stmt>)
    requires sc.inFunction && AllSimple(cfg, stmts)
    ensures Takes(sc, AfterBlock(cfg, sc, stmts), CountLocals(cfg, stmts), SpareIn(stmts))
    decreases stmts, 0
  {
    hide Simple, CountStmt, AfterStmt, Spare;
    if stmts != [] {
      StmtCountIsExact(cfg, sc, stmts[0]);
      CountIsExact(cfg, AfterStmt(cfg, sc, stmts[0]), stmts[1..]);
    }
  }

  lemma {:induction false} ElseCountIsExact(cfg: Config, sc: Scope, elseBody: MaybeBody)
    requires sc.inFunction && (elseBody.Body? ==> AllSimple(cfg, elseBody.stmts))
    ensures Takes(sc, AfterElse(cfg, sc, elseBody), CountElse(cfg, elseBody), if elseBody.Body? then SpareIn(elseBody.stmts) else 0)
    decreases elseBody, 0
  {
    hide AllSimple, AfterBlock, CountLocals, SpareIn;
    if elseBody.Body? { CountIsExact(cfg, sc, elseBody.stmts); }
  }

  lemma {:induction false} CasesCountIsExact(cfg: Config, sc: Scope, cases: seq<Case>)
    requires sc.inFunction && forall c :: c in cases ==> SimpleCase(cfg, c)
    ensures Takes(sc, AfterCases(cfg, sc, cases), CountCases(cfg, cases), SpareInCases(cases))
    decreases cases, 0
  {
    hide AllSimple, AfterBlock, CountLocals, SpareIn, Bindings, BindAll, CountBindings;
    if cases != [] {
      var c := cases[0];
      assert SimpleCase(cfg, c);
      BindingsTaken(cfg, sc, c);
      var bound := BindAll(sc, Bindings(cfg, c));
      CountIsExact(cfg, bound, c.body);
      CasesCountIsExact(cfg, AfterCase(cfg, sc, c), cases[1..]);
    }
  }

  lemma BindingsTaken(cfg: Config, sc: Scope, c: Case)
    requires sc.inFunction && |c.values| == 1 && forall e :: e in Bindings(cfg, c) ==> e.Name?
    ensures Takes(sc, BindAll(sc, Bindings(cfg, c)), CountBindings(cfg, c.values), 0)
  {
    hide PatternOf;
    BindAllTakes(sc, Bindings(cfg, c));
    assert c.values[1..] == [] && CountBindings(cfg, c.values[1..]) == 0;
  }

  lemma {:induction false} BindAllTakes(sc: Scope, names: seq<Expr>)
    requires sc.inFunction && forall e :: e in names ==> e.Name?
    ensures Takes(sc, BindAll(sc, names), |names|, 0)
    decreases |names|
  {
    if names != [] {
      assert names[0] in names;
      BindAllTakes(Allocate(sc, names[0].name), names[1..]);
    }
  }

  lemma {:induction false} StmtCountIsExact(cfg: Config, sc: Scope, s: Stmt)
    requires sc.inFunction && Simple(cfg, s)
    ensures Takes(sc, AfterStmt(cfg, sc, s), CountStmt(cfg, s), Spare(s))
    decreases s, 1
  {
    hide AfterBlock, CountLocals, AllSimple, LoopVariable, AfterElse, CountElse, AfterCases, CountCases, SpareIn, SpareInCases, SimpleCase, HiddenName;
    if s.Conditional? {
      CountIsExact(cfg, sc, s.thenBody);
      ElseCountIsExact(cfg, AfterBlock(cfg, sc, s.thenBody), s.elseBody);
    } else if s.ValueMatch? {
      var sc1 := if s.subject.Name? then sc else Allocate(sc, HiddenName("match", s.span));
      CasesCountIsExact(cfg, sc1, s.cases);
      ElseCountIsExact(cfg, AfterCases(cfg, sc1, s.cases), s.elseBody);
    } else if s.Loop? {
      CountIsExact(cfg, if s.header.While? then sc else Allocate(sc, LoopVariable(s.header)), s.body);
    }
  }

  /** Hidden variables of different loops and selections have different names. */
  lemma HiddenNamesDiffer(kind: string, span: Span, kind': string, span': Span)
    requires ':' !in kind && ':' !in kind' && HiddenName(kind, span) == HiddenName(kind', span')
    ensures kind == kind' && span == span'
  {
    var first, first' := Fresh(kind, span.start), Fresh(kind', span'.start);
    assert HiddenName(kind, span) == Fresh(first, span.end) && HiddenName(kind', span') == Fresh(first', span'.end);
    SameFresh(kind, span.start, first, span.end, kind', span'.start, first', span'.end);
  }

  lemma SameFresh(kind: string, a: nat, first: string, b: nat, kind': string, a': nat, first': string, b': nat)
    requires ':' !in kind && ':' !in kind' && first == Fresh(kind, a) && first' == Fresh(kind', a') && Fresh(first, b) == Fresh(first', b')
    ensures kind == kind' && a == a' && b == b'
  {
    hide Decimal;
    FreshNumbered(kind, a);
    FreshNumbered(kind', a');
    FreshNumbered(first, b);
    FreshNumbered(first', b');
    NumberUnique(Fresh(first, b), b, b');
    SamePrefix(first, first', b);
    NumberUnique(first, a, a');
    SamePrefix(kind, kind', a);
  }

  lemma SamePrefix(p: string, q: string, n: nat)
    requires Fresh(p, n) == Fresh(q, n)
    ensures p == q
  {
    hide Decimal;
    assert Fresh(p, n)[..|p|] == p && Fresh(q, n)[..|q|] == q && |p| == |q|;
  }
}
