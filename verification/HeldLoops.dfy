/** A `для` loop reads its bound and its step again in every round; the language specification
    passes both once, as arguments (crates/compiler-core/src/codegen/bcgen.rs,
    doc/archive/spec_old.md). What that changes, and a condition on the program text under which
    it changes nothing: both are literals, or variables that the body leaves alone. */
module HeldLoops {
  import opened Results
  import opened Bytecode
  import opened Numbers
  import opened Ast
  import opened Scoping
  import opened Semantics
  import opened ForLoops
  import opened Linking
  import RT = Runtime

  type Value = RT.Value

  // The loop with bound and step held from the start

  /** The sign of the step decides first, then the variable is compared. */
  function HalfEnd(w: World, x: Variable, b: Value, side: Op, sign: Result<ValueAnd>): Result<ValueAnd> {
    var (p, m) :- sign;
    var v :- Read(m, x);
    var (q, m1) :- InHeap(m, RT.Binop(w.lib, m.heap, side, v, b));
    InHeap(m1, RT.Binop(w.lib, m1.heap, AND, p, q))
  }

  function HeldHalf(w: World, x: Variable, b: Value, c: Value, sign: Op, side: Op, m: Mem): Result<ValueAnd> {
    HalfEnd(w, x, b, side, InHeap(m, RT.Binop(w.lib, m.heap, sign, c, RT.Int(0))))
  }

  /** Without a bound the loop goes on. */
  function HeldGuard(w: World, x: Variable, b: Option<Value>, c: Value, m: Mem): Result<(bool, Mem)> {
    if b.None? then Ok((true, m))
    else
      var (up, m1) :- HeldHalf(w, x, b.value, c, GT, LEQ, m);
      var (down, m2) :- HeldHalf(w, x, b.value, c, LEQ, GEQ, m1);
      var (either, m3) :- InHeap(m2, RT.Binop(w.lib, m2.heap, OR, up, down));
      var more :- IsTrue(either);
      Ok((more, m3))
  }

  function HeldFor(w: World, fuel: nat, cfg: Config, sc: Scope, s: Stmt, b: Option<Value>, c: Value, m: Mem): Result<(Flow, Mem)>
    requires IsFor(s)
    decreases fuel
  {
    var x := NextSlot(sc);
    var (more, m1) :- HeldGuard(w, x, b, c, m);
    if !more then Ok((Normal, m1))
    else
      var (flow, m2) :- EvalBlock(w, fuel, cfg, Allocate(sc, s.header.variable), s.body, m1);
      if flow.Return? then Ok((flow, m2))
      else if flow.Exit? then Ok((Normal, m2))
      else if fuel == 0 then Err(OutOfFuel)
      else
        var v :- Read(m2, x);
        var (next, h) :- RT.Binop(w.lib, m2.heap, ADD, v, c);
        var m3 :- Write(m2.(heap := h), x, next);
        HeldFor(w, fuel - 1, cfg, sc, s, b, c, m3)
  }

  /** One round on integers. */
  lemma HeldRound(w: World, fuel: nat, cfg: Config, sc: Scope, s: Stmt, i: int, b: int, c: int, m: Mem)
    requires IsFor(s) && Read(m, NextSlot(sc)) == Ok(RT.Int(i))
    ensures HeldGuard(w, NextSlot(sc), Some(RT.Int(b)), RT.Int(c), m) == Ok((Goes(c, i, b), m))
  {
    hide RT.Binop, EvalBlock, Read;
    Compared(w.lib, m.heap, GT, c, 0);
    Compared(w.lib, m.heap, LEQ, c, 0);
    Compared(w.lib, m.heap, LEQ, i, b);
    Compared(w.lib, m.heap, GEQ, i, b);
    Conjoined(w.lib, m.heap, c > 0, i <= b);
    Conjoined(w.lib, m.heap, c <= 0, i >= b);
    Conjoined(w.lib, m.heap, c > 0 && i <= b, c <= 0 && i >= b);
    assert m.(heap := m.heap) == m;
  }

  // A bound that moves

  function Frame(n: int, i: int): Mem { Mem([], [], [RT.Int(n), RT.Int(i)], [], []) }

  const IN_FRAME := Scope(true, 1, 0, map["n" := 0], map[], map[])

  /** `для i до n:` with `n := 0` as its body. */
  const MOVING := Loop(For("i", Absent, Present(Name("n")), Absent), [Assignment(NameTarget("n"), IntegerLit(0))])

  lemma MovingBody(w: World, fuel: nat, cfg: Config, n: int, i: int)
    ensures EvalBlock(w, fuel, cfg, Allocate(IN_FRAME, "i"), MOVING.body, Frame(n, i)) == Ok((Normal, Frame(0, i)))
  {
    var sc, s := Allocate(IN_FRAME, "i"), MOVING.body[0];
    assert EvalStmt(w, fuel, cfg, sc, s, Frame(n, i)) == Ok((Normal, Frame(0, i))) by {
      assert [RT.Int(n), RT.Int(i)][0 := RT.Int(0)] == [RT.Int(0), RT.Int(i)];
    }
    assert MOVING.body[1..] == [];
  }

  lemma MovingRound(w: World, fuel: nat, cfg: Config, n: int, i: int)
    requires "n" !in cfg.variants && "n" !in cfg.callTargets && FitsI32(i + 1) && fuel > 0
    ensures EvalFor(w, fuel, cfg, IN_FRAME, MOVING, Frame(n, i)) ==
      if i <= n then EvalFor(w, fuel - 1, cfg, IN_FRAME, MOVING, Frame(0, i + 1)) else Ok((Normal, Frame(n, i)))
    ensures HeldFor(w, fuel, cfg, IN_FRAME, MOVING, Some(RT.Int(3)), RT.Int(1), Frame(n, i)) ==
      if i <= 3 then HeldFor(w, fuel - 1, cfg, IN_FRAME, MOVING, Some(RT.Int(3)), RT.Int(1), Frame(0, i + 1)) else Ok((Normal, Frame(n, i)))
  {
    hide EvalBlock, EvalFor;
    MovingBody(w, fuel, cfg, n, i);
    assert Read(Frame(n, i), NextSlot(IN_FRAME)) == Ok(RT.Int(i));
    assert Write(Frame(0, i), NextSlot(IN_FRAME), RT.Int(i + 1)) == Ok(Frame(0, i + 1)) by {
      assert [RT.Int(0), RT.Int(i)][1 := RT.Int(i + 1)] == [RT.Int(0), RT.Int(i + 1)];
    }
    OneRound(w, fuel, cfg, IN_FRAME, MOVING, i, n, 1, Frame(n, i), Frame(0, i));
    HeldRound(w, fuel, cfg, IN_FRAME, MOVING, i, 3, 1, Frame(n, i));
    assert Frame(0, i).(heap := []) == Frame(0, i);
  }

  /** From 1, with `n` at 3: one round, where the held bound gives three. */
  lemma BoundMoves(w: World, cfg: Config)
    requires "n" !in cfg.variants && "n" !in cfg.callTargets
    ensures EvalFor(w, 4, cfg, IN_FRAME, MOVING, Frame(3, 1)) == Ok((Normal, Frame(0, 2)))
    ensures HeldFor(w, 4, cfg, IN_FRAME, MOVING, Some(RT.Int(3)), RT.Int(1), Frame(3, 1)) == Ok((Normal, Frame(0, 4)))
  {
    hide EvalFor, HeldFor;
    MovingRound(w, 4, cfg, 3, 1);
    MovingRound(w, 3, cfg, 0, 2);
    MovingRound(w, 2, cfg, 0, 3);
    MovingRound(w, 1, cfg, 0, 4);
  }

  // Names have slots of their own

  predicate Injective(slots: map<string, nat>) { forall a, b :: a in slots && b in slots && slots[a] == slots[b] ==> a == b }

  /** No two names of a kind share a slot, and every slot has been taken. */
  predicate Distinct(sc: Scope) { SlotsBelow(sc) && Injective(sc.locals) && Injective(sc.globals) && Injective(sc.args) }

  lemma AllocateDistinct(sc: Scope, name: string)
    requires Distinct(sc)
    ensures Distinct(Allocate(sc, name)) && Distinct(Deallocate(sc, name))
  {
  }

  lemma {:induction false} StmtDistinct(cfg: Config, sc: Scope, s: Stmt)
    requires Distinct(sc)
    ensures Distinct(AfterStmt(cfg, sc, s))
    decreases s, 0
  {
    hide Distinct, Allocate, Deallocate;
    match s
    case Declaration(target, _) => if target.NameTarget? { AllocateDistinct(sc, target.name); }
    case Conditional(_, thenBody, elseBody) =>
      BlockDistinct(cfg, sc, thenBody);
      ElseDistinct(cfg, AfterBlock(cfg, sc, thenBody), elseBody);
    case ValueMatch(span, subject, cases, elseBody) =>
      var name := HiddenName("match", span);
      AllocateDistinct(sc, name);
      var sc1 := if subject.Name? then sc else Allocate(sc, name);
      CasesDistinct(cfg, sc1, cases);
      ElseDistinct(cfg, AfterCases(cfg, sc1, cases), elseBody);
      AllocateDistinct(AfterElse(cfg, AfterCases(cfg, sc1, cases), elseBody), name);
    case Loop(header, body) =>
      if header.While? {
        BlockDistinct(cfg, sc, body);
      } else {
        var name := LoopVariable(header);
        AllocateDistinct(sc, name);
        BlockDistinct(cfg, Allocate(sc, name), body);
        AllocateDistinct(AfterBlock(cfg, Allocate(sc, name), body), name);
      }
    case Input(_, variables) => InputsDistinct(sc, variables);
    case _ =>
  }

  lemma {:induction false} BlockDistinct(cfg: Config, sc: Scope, stmts: seq<Stmt>)
    requires Distinct(sc)
    ensures Distinct(AfterBlock(cfg, sc, stmts))
    decreases stmts, 0
  {
    hide Distinct, AfterStmt;
    if stmts != [] {
      StmtDistinct(cfg, sc, stmts[0]);
      BlockDistinct(cfg, AfterStmt(cfg, sc, stmts[0]), stmts[1..]);
    }
  }

  lemma {:induction false} ElseDistinct(cfg: Config, sc: Scope, elseBody: MaybeBody)
    requires Distinct(sc)
    ensures Distinct(AfterElse(cfg, sc, elseBody))
    decreases elseBody, 0
  {
    hide Distinct;
    if elseBody.Body? { BlockDistinct(cfg, sc, elseBody.stmts); }
  }

  lemma {:induction false} CasesDistinct(cfg: Config, sc: Scope, cases: seq<Case>)
    requires Distinct(sc)
    ensures Distinct(AfterCases(cfg, sc, cases))
    decreases cases, 0
  {
    hide Distinct;
    if cases != [] {
      BindAllDistinct(sc, Bindings(cfg, cases[0]));
      BlockDistinct(cfg, BindAll(sc, Bindings(cfg, cases[0])), cases[0].body);
      CasesDistinct(cfg, AfterCase(cfg, sc, cases[0]), cases[1..]);
    }
  }

  lemma {:induction false} BindAllDistinct(sc: Scope, names: seq<Expr>)
    requires Distinct(sc)
    ensures Distinct(BindAll(sc, names))
    decreases names
  {
    hide Distinct, Allocate;
    if names != [] {
      if names[0].Name? { AllocateDistinct(sc, names[0].name); }
      BindAllDistinct(if names[0].Name? then Allocate(sc, names[0].name) else sc, names[1..]);
    }
  }

  lemma {:induction false} InputsDistinct(sc: Scope, variables: seq<LValue>)
    requires Distinct(sc)
    ensures Distinct(AfterInputs(sc, variables))
    decreases variables
  {
    hide Distinct, Allocate, FindVariable;
    if variables != [] {
      var v := variables[0];
      var new_ := v.NameTarget? && FindVariable(sc, v.name).Err?;
      if new_ { AllocateDistinct(sc, v.name); }
      InputsDistinct(if new_ then Allocate(sc, v.name) else sc, variables[1..]);
    }
  }

  // Text that leaves a variable alone

  /** The expression calls a function of the program, which may change globals. */
  predicate Calls(cfg: Config, e: Expr)
    decreases e
  {
    match e
    case Binary(_, left, right) => Calls(cfg, left) || Calls(cfg, right)
    case Unary(_, operand) => Calls(cfg, operand)
    case TupleConstruct(elements) => exists a :: a in elements && Calls(cfg, a)
    case FunctionCall(f, arguments) => MayRun(cfg, f) || exists a :: a in arguments && Calls(cfg, a)
    case Subscript(collection, index) => Calls(cfg, collection) || Calls(cfg, index)
    case SliceExpr(collection, from, to) => Calls(cfg, collection) || MaybeCalls(cfg, from) || MaybeCalls(cfg, to)
    case _ => false
  }

  predicate MaybeCalls(cfg: Config, e: MaybeExpr)
    decreases e
  {
    e.Present? && Calls(cfg, e.expr)
  }

  /** Neither a constructor nor a builtin. */
  predicate MayRun(cfg: Config, f: Expr) { !(f.Name? && f.name in cfg.variants) && !CalleeOf(cfg, f).Library? }

  /** Evaluating the expression cannot change `x`. */
  predicate Quiet(cfg: Config, x: Variable, e: Expr) { x.rel.Global? ==> !Calls(cfg, e) }

  predicate MaybeQuiet(cfg: Config, x: Variable, e: MaybeExpr) { e.Present? ==> Quiet(cfg, x, e.expr) }

  predicate AllQuiet(cfg: Config, x: Variable, es: seq<Expr>) { forall e :: e in es ==> Quiet(cfg, x, e) }

  predicate TargetSpares(cfg: Config, x: Variable, name: string, target: LValue) {
    match target
    case NameTarget(n) => n != name
    case SubscriptTarget(_, index) => Quiet(cfg, x, index)
    case SliceTarget(_, from, to) => MaybeQuiet(cfg, x, from) && MaybeQuiet(cfg, x, to)
    case FieldTarget(left, _) => Quiet(cfg, x, left)
  }

  /** The statement does not assign to `name`, whose variable is `x`, and, when that is a
      global, calls nothing. */
  predicate Spares(cfg: Config, x: Variable, name: string, s: Stmt)
    decreases s
  {
    match s
    case Declaration(_, value) => Quiet(cfg, x, value)
    case Assignment(target, value) => Quiet(cfg, x, value) && TargetSpares(cfg, x, name, target)
    case ProcedureCall(f, arguments) => (x.rel.Global? ==> CalleeOf(cfg, f).Library?) && AllQuiet(cfg, x, arguments)
    case Conditional(condition, thenBody, elseBody) =>
      Quiet(cfg, x, condition) && BlockSpares(cfg, x, name, thenBody) && ElseSpares(cfg, x, name, elseBody)
    case ValueMatch(_, subject, cases, elseBody) =>
      Quiet(cfg, x, subject) && CasesSpare(cfg, x, name, cases) && ElseSpares(cfg, x, name, elseBody)
    case Loop(header, body) => HeaderSpares(cfg, x, header) && BlockSpares(cfg, x, name, body)
    case Output(_, values) => AllQuiet(cfg, x, values)
    case Input(_, variables) => NameTarget(name) !in variables
    case ReturnFromFunction(result) => Quiet(cfg, x, result)
    case _ => true
  }

  predicate HeaderSpares(cfg: Config, x: Variable, header: LoopHeader) {
    match header
    case While(condition) => Quiet(cfg, x, condition)
    case Repeat(count, _) => Quiet(cfg, x, count)
    case For(_, from, to, step) => MaybeQuiet(cfg, x, from) && MaybeQuiet(cfg, x, to) && MaybeQuiet(cfg, x, step)
  }

  predicate BlockSpares(cfg: Config, x: Variable, name: string, stmts: seq<Stmt>)
    decreases stmts
  {
    stmts == [] || (Spares(cfg, x, name, stmts[0]) && BlockSpares(cfg, x, name, stmts[1..]))
  }

  predicate ElseSpares(cfg: Config, x: Variable, name: string, elseBody: MaybeBody)
    decreases elseBody
  {
    elseBody.Body? ==> BlockSpares(cfg, x, name, elseBody.stmts)
  }

  predicate CasesSpare(cfg: Config, x: Variable, name: string, cases: seq<Case>)
    decreases cases
  {
    cases == [] ||
    (AllQuiet(cfg, x, cases[0].values) && BlockSpares(cfg, x, name, cases[0].body) && CasesSpare(cfg, x, name, cases[1..]))
  }

  // Expressions

  lemma {:induction false} NoCallsNoChange(w: World, fuel: nat, cfg: Config, sc: Scope, e: Expr, m: Mem)
    requires !Calls(cfg, e)
    ensures match EvalExpr(w, fuel, cfg, sc, e, m) case Ok((_, m')) => m'.globals == m.globals case Err(_) => true
    decreases e, 1
  {
    hide Invoke, EvalStmt, EvalBlock, RT.Binop, RT.NewText, RT.NewVariant, RT.Elem, RT.SliceOf, RT.Field, RT.Unop, RT.CallBuiltin;
    match e
    case Binary(operator, left, right) =>
      NoCallsNoChange(w, fuel, cfg, sc, left, m);
      var r := EvalExpr(w, fuel, cfg, sc, left, m);
      if r.Ok? { NoCallsNoChange(w, fuel, cfg, sc, right, r.value.1); }
    case Unary(_, operand) => NoCallsNoChange(w, fuel, cfg, sc, operand, m);
    case TupleConstruct(elements) => AllNoChange(w, fuel, cfg, sc, elements, m);
    case FunctionCall(f, arguments) =>
      AllNoChange(w, fuel, cfg, sc, arguments, m);
      if !(f.Name? && f.name in cfg.variants) { LibraryNoChange(w, fuel, cfg, sc, f, arguments, m); }
    case Subscript(collection, index) =>
      NoCallsNoChange(w, fuel, cfg, sc, collection, m);
      var r := EvalExpr(w, fuel, cfg, sc, collection, m);
      if r.Ok? { NoCallsNoChange(w, fuel, cfg, sc, index, r.value.1); }
    case SliceExpr(collection, from, to) =>
      NoCallsNoChange(w, fuel, cfg, sc, collection, m);
      var r := EvalExpr(w, fuel, cfg, sc, collection, m);
      if r.Ok? {
        MaybeNoChange(w, fuel, cfg, sc, from, r.value.1);
        var q := EvalMaybe(w, fuel, cfg, sc, from, r.value.1);
        if q.Ok? { MaybeNoChange(w, fuel, cfg, sc, to, q.value.1); }
      }
    case _ =>
  }

  lemma {:induction false} MaybeNoChange(w: World, fuel: nat, cfg: Config, sc: Scope, e: MaybeExpr, m: Mem)
    requires !MaybeCalls(cfg, e)
    ensures match EvalMaybe(w, fuel, cfg, sc, e, m) case Ok((_, m')) => m'.globals == m.globals case Err(_) => true
    decreases e, 0
  {
    if e.Present? { NoCallsNoChange(w, fuel, cfg, sc, e.expr, m); }
  }

  lemma {:induction false} AllNoChange(w: World, fuel: nat, cfg: Config, sc: Scope, es: seq<Expr>, m: Mem)
    requires forall e :: e in es ==> !Calls(cfg, e)
    ensures match EvalExprs(w, fuel, cfg, sc, es, m) case Ok((_, m')) => m'.globals == m.globals case Err(_) => true
    decreases es, 0
  {
    hide EvalExpr, Calls;
    if es != [] {
      NoCallsNoChange(w, fuel, cfg, sc, es[0], m);
      var r := EvalExpr(w, fuel, cfg, sc, es[0], m);
      if r.Ok? { AllNoChange(w, fuel, cfg, sc, es[1..], r.value.1); }
    }
  }

  lemma LibraryNoChange(w: World, fuel: nat, cfg: Config, sc: Scope, f: Expr, arguments: seq<Expr>, m: Mem)
    requires CalleeOf(cfg, f).Library? && forall e :: e in arguments ==> !Calls(cfg, e)
    ensures EvalCallee(w, fuel, cfg, sc, f, m) == Ok(([], m))
    ensures match EvalExprs(w, fuel, cfg, sc, arguments, m)
      case Err(_) => true
      case Ok((vs, m1)) =>
        (fuel > 0 ==> match Invoke(w, fuel - 1, CalleeOf(cfg, f), [], vs, m1) case Ok((_, m2)) => m2.globals == m.globals case Err(_) => true)
    decreases arguments, 1
  {
    hide EvalStmt, EvalBlock, EvalExpr, EvalExprs, Calls, RT.CallBuiltin;
    AllNoChange(w, fuel, cfg, sc, arguments, m);
  }

  // Statements

  /** The variable's slot has been taken, and no other name leads to it. */
  predicate Owns(sc: Scope, name: string, x: Variable) {
    match x.rel
    case Local => x.index < sc.localCounter && forall y :: y in sc.locals && sc.locals[y] == x.index ==> y == name
    case Global => x.index < sc.globalCounter && forall y :: y in sc.globals && sc.globals[y] == x.index ==> y == name
    case Arg => forall y :: y in sc.args && sc.args[y] == x.index ==> y == name
    case Capture => true
  }

  lemma OwnsAfter(sc: Scope, after: Scope, n: nat, name: string, x: Variable)
    requires Owns(sc, name, x) && Extends(sc, after, n)
    ensures Owns(after, name, x)
  {
  }

  lemma OwnsNext(sc: Scope, more: string, name: string, x: Variable)
    requires Owns(sc, name, x)
    ensures Owns(Allocate(sc, more), name, x) && NextSlot(sc) != x
  {
  }

  lemma OwnsFound(sc: Scope, name: string)
    requires Distinct(sc) && FindVariable(sc, name).Ok?
    ensures Owns(sc, name, FindVariable(sc, name).value)
  {
  }

  lemma OwnsOnly(sc: Scope, name: string, x: Variable, other: string)
    requires Owns(sc, name, x) && other != name
    ensures FindVariable(sc, other) != Ok(x)
  {
  }

  lemma WriteElsewhere(m: Mem, x: Variable, y: Variable, v: Value)
    requires x != y
    ensures match Write(m, y, v) case Ok(m') => Read(m', x) == Read(m, x) case Err(_) => true
  {
  }

  lemma HeapElsewhere(m: Mem, h: RT.Heap, x: Variable)
    ensures Read(m.(heap := h), x) == Read(m, x)
  {
  }

  lemma FrameKeeps(m: Mem, m': Mem, x: Variable)
    requires SameFrame(m, m') && (x.rel.Global? ==> m'.globals == m.globals)
    ensures Read(m', x) == Read(m, x)
  {
  }

  lemma ExprKeeps(w: World, fuel: nat, cfg: Config, sc: Scope, e: Expr, m: Mem, x: Variable)
    requires Quiet(cfg, x, e)
    ensures match EvalExpr(w, fuel, cfg, sc, e, m) case Ok((_, m')) => Read(m', x) == Read(m, x) case Err(_) => true
  {
    hide EvalExpr, Calls, Read;
    if x.rel.Global? { NoCallsNoChange(w, fuel, cfg, sc, e, m); }
    var r := EvalExpr(w, fuel, cfg, sc, e, m);
    if r.Ok? { FrameKeeps(m, r.value.1, x); }
  }

  lemma MaybeKeeps(w: World, fuel: nat, cfg: Config, sc: Scope, e: MaybeExpr, m: Mem, x: Variable)
    requires MaybeQuiet(cfg, x, e)
    ensures match EvalMaybe(w, fuel, cfg, sc, e, m) case Ok((_, m')) => Read(m', x) == Read(m, x) case Err(_) => true
  {
    hide EvalExpr, Quiet, Read;
    if e.Present? { ExprKeeps(w, fuel, cfg, sc, e.expr, m, x); }
  }

  lemma ExprsKeep(w: World, fuel: nat, cfg: Config, sc: Scope, es: seq<Expr>, m: Mem, x: Variable)
    requires AllQuiet(cfg, x, es)
    ensures match EvalExprs(w, fuel, cfg, sc, es, m) case Ok((_, m')) => Read(m', x) == Read(m, x) case Err(_) => true
  {
    hide EvalExprs, Calls, Read;
    if x.rel.Global? { AllNoChange(w, fuel, cfg, sc, es, m); }
    var r := EvalExprs(w, fuel, cfg, sc, es, m);
    if r.Ok? { FrameKeeps(m, r.value.1, x); }
  }

  lemma AssignKeeps(w: World, fuel: nat, cfg: Config, sc: Scope, target: LValue, v: Value, m: Mem, name: string, x: Variable)
    requires Owns(sc, name, x) && TargetSpares(cfg, x, name, target)
    ensures match EvalAssign(w, fuel, cfg, sc, target, v, m) case Ok(m') => Read(m', x) == Read(m, x) case Err(_) => true
  {
    hide EvalExpr, EvalMaybe, EvalStmt, EvalBlock, Invoke, Quiet, Owns, Write, RT.SetItem, RT.SliceOf, RT.SliceAssign, RT.SetField;
    match target
    case NameTarget(n) =>
      OwnsOnly(sc, name, x, n);
      if FindVariable(sc, n).Ok? { WriteElsewhere(m, x, FindVariable(sc, n).value, v); }
    case SubscriptTarget(_, index) => ExprKeeps(w, fuel, cfg, sc, index, m, x);
    case SliceTarget(_, from, to) =>
      MaybeKeeps(w, fuel, cfg, sc, from, m, x);
      var r := EvalMaybe(w, fuel, cfg, sc, from, m);
      if r.Ok? { MaybeKeeps(w, fuel, cfg, sc, to, r.value.1, x); }
    case FieldTarget(left, _) => ExprKeeps(w, fuel, cfg, sc, left, m, x);
  }

  lemma CallKeeps(w: World, fuel: nat, cfg: Config, sc: Scope, s: Stmt, m: Mem, name: string, x: Variable)
    requires s.ProcedureCall? && Spares(cfg, x, name, s)
    ensures match EvalStmt(w, fuel, cfg, sc, s, m) case Ok((_, m')) => Read(m', x) == Read(m, x) case Err(_) => true
  {
    hide EvalExpr, EvalExprs, EvalBlock, EvalCallee, Invoke, Calls, Read, CalleeOf;
    if x.rel.Global? { LibraryNoChange(w, fuel, cfg, sc, s.procedure, s.arguments, m); }
    var r := EvalStmt(w, fuel, cfg, sc, s, m);
    if r.Ok? { FrameKeeps(m, r.value.1, x); }
  }

  lemma {:induction false} StmtKeeps(w: World, fuel: nat, cfg: Config, sc: Scope, s: Stmt, m: Mem, name: string, x: Variable)
    requires Owns(sc, name, x) && Spares(cfg, x, name, s)
    ensures match EvalStmt(w, fuel, cfg, sc, s, m) case Ok((_, m')) => Read(m', x) == Read(m, x) case Err(_) => true
    decreases fuel, s, 5
  {
    hide EvalExpr, EvalExprs, EvalBlock, EvalAssign, EvalConditional, EvalMatch, EvalWhile, EvalRepeat, EvalFor, EvalMaybe, Invoke, Quiet, Owns,
      Read, Write, NextSlot, Allocate, TargetSpares, BlockSpares, ElseSpares, CasesSpare, RT.Write, RT.Binop;
    match s
    case Declaration(target, value) =>
      ExprKeeps(w, fuel, cfg, sc, value, m, x);
      OwnsNext(sc, "", name, x);
      var r := EvalExpr(w, fuel, cfg, sc, value, m);
      if r.Ok? { WriteElsewhere(r.value.1, x, NextSlot(sc), r.value.0); }
    case Assignment(target, value) =>
      ExprKeeps(w, fuel, cfg, sc, value, m, x);
      var r := EvalExpr(w, fuel, cfg, sc, value, m);
      if r.Ok? { AssignKeeps(w, fuel, cfg, sc, target, r.value.0, r.value.1, name, x); }
    case ProcedureCall(_, _) => CallKeeps(w, fuel, cfg, sc, s, m, name, x);
    case Conditional(_, _, _) => ConditionalKeeps(w, fuel, cfg, sc, s, m, name, x);
    case ValueMatch(_, _, _, _) => MatchKeeps(w, fuel, cfg, sc, s, m, name, x);
    case Loop(_, _) => LoopKeeps(w, fuel, cfg, sc, s, m, name, x);
    case Output(_, values) =>
      ExprsKeep(w, fuel, cfg, sc, values, m, x);
      var r := EvalStmt(w, fuel, cfg, sc, s, m);
      if r.Ok? { LogElsewhere(EvalExprs(w, fuel, cfg, sc, values, m).value.1, r.value.1, x); }
    case ReturnFromFunction(result) => ExprKeeps(w, fuel, cfg, sc, result, m, x);
    case _ =>
  }

  lemma LogElsewhere(m: Mem, m': Mem, x: Variable)
    requires m' == m.(log := m'.log)
    ensures Read(m', x) == Read(m, x)
  {
  }

  lemma {:induction false} BlockKeeps(w: World, fuel: nat, cfg: Config, sc: Scope, stmts: seq<Stmt>, m: Mem, name: string, x: Variable)
    requires Owns(sc, name, x) && BlockSpares(cfg, x, name, stmts)
    ensures match EvalBlock(w, fuel, cfg, sc, stmts, m) case Ok((_, m')) => Read(m', x) == Read(m, x) case Err(_) => true
    decreases fuel, stmts, 0
  {
    hide EvalStmt, Spares, Owns, Read, AfterStmt, Extends, CountStmt;
    if stmts != [] {
      StmtKeeps(w, fuel, cfg, sc, stmts[0], m, name, x);
      StmtExtends(cfg, sc, stmts[0]);
      OwnsAfter(sc, AfterStmt(cfg, sc, stmts[0]), CountStmt(cfg, stmts[0]), name, x);
      var r := EvalStmt(w, fuel, cfg, sc, stmts[0], m);
      if r.Ok? { BlockKeeps(w, fuel, cfg, AfterStmt(cfg, sc, stmts[0]), stmts[1..], r.value.1, name, x); }
    }
  }

  lemma {:induction false} ElseKeeps(w: World, fuel: nat, cfg: Config, sc: Scope, elseBody: MaybeBody, m: Mem, name: string, x: Variable)
    requires Owns(sc, name, x) && ElseSpares(cfg, x, name, elseBody)
    ensures match EvalElse(w, fuel, cfg, sc, elseBody, m) case Ok((_, m')) => Read(m', x) == Read(m, x) case Err(_) => true
    decreases fuel, elseBody
  {
    hide EvalBlock, BlockSpares, Owns, Read;
    if elseBody.Body? { BlockKeeps(w, fuel, cfg, sc, elseBody.stmts, m, name, x); }
  }

  lemma {:induction false} ConditionalKeeps(w: World, fuel: nat, cfg: Config, sc: Scope, s: Stmt, m: Mem, name: string, x: Variable)
    requires s.Conditional? && Owns(sc, name, x) && Spares(cfg, x, name, s)
    ensures match EvalConditional(w, fuel, cfg, sc, s, m) case Ok((_, m')) => Read(m', x) == Read(m, x) case Err(_) => true
    decreases fuel, s, 4
  {
    hide EvalExpr, EvalBlock, EvalElse, BlockSpares, ElseSpares, Quiet, Owns, Read, AfterBlock, Extends, CountLocals;
    ExprKeeps(w, fuel, cfg, sc, s.condition, m, x);
    var r := EvalExpr(w, fuel, cfg, sc, s.condition, m);
    if r.Ok? {
      BlockKeeps(w, fuel, cfg, sc, s.thenBody, r.value.1, name, x);
      BlockExtends(cfg, sc, s.thenBody);
      OwnsAfter(sc, AfterBlock(cfg, sc, s.thenBody), CountLocals(cfg, s.thenBody), name, x);
      ElseKeeps(w, fuel, cfg, AfterBlock(cfg, sc, s.thenBody), s.elseBody, r.value.1, name, x);
    }
  }

  // Selection

  lemma {:induction false} MatchKeeps(w: World, fuel: nat, cfg: Config, sc: Scope, s: Stmt, m: Mem, name: string, x: Variable)
    requires s.ValueMatch? && Owns(sc, name, x) && Spares(cfg, x, name, s)
    ensures match EvalMatch(w, fuel, cfg, sc, s, m) case Ok((_, m')) => Read(m', x) == Read(m, x) case Err(_) => true
    decreases fuel, s, 4
  {
    hide EvalExpr, EvalCases, EvalElse, CasesSpare, ElseSpares, Quiet, Owns, Read, Write, AfterCases, Extends, CountCases, Allocate, NextSlot, HiddenName;
    var hidden, plain := HiddenName("match", s.span), s.subject.Name?;
    var sc1 := if plain then sc else Allocate(sc, hidden);
    OwnsNext(sc, hidden, name, x);
    ExprKeeps(w, fuel, cfg, sc1, s.subject, m, x);
    var r := EvalExpr(w, fuel, cfg, sc1, s.subject, m);
    if r.Ok? { WriteElsewhere(r.value.1, x, NextSlot(sc), r.value.0); }
    var m1 := if plain then Ok(m) else EvalHeld(w, fuel, cfg, sc1, s.subject, NextSlot(sc), m);
    if m1.Ok? {
      var subject := if plain then Reread(s.subject.name) else Held(NextSlot(sc));
      CasesKeep(w, fuel, cfg, sc1, subject, s.cases, m1.value, name, x);
      CasesExtend(cfg, sc1, s.cases);
      OwnsAfter(sc1, AfterCases(cfg, sc1, s.cases), CountCases(cfg, s.cases), name, x);
      var q := EvalCases(w, fuel, cfg, sc1, subject, s.cases, m1.value);
      if q.Ok? { ElseKeeps(w, fuel, cfg, AfterCases(cfg, sc1, s.cases), s.elseBody, q.value.1, name, x); }
    }
  }

  lemma SubjectKeeps(w: World, cfg: Config, sc: Scope, subject: Subject, m: Mem, x: Variable)
    ensures match EvalSubject(w, cfg, sc, subject, m) case Ok((_, m')) => Read(m', x) == Read(m, x) case Err(_) => true
  {
    hide RT.NewVariant;
  }

  lemma TestKeeps(w: World, fuel: nat, cfg: Config, sc: Scope, subject: Subject, c: Case, m: Mem, x: Variable)
    requires AllQuiet(cfg, x, c.values)
    ensures match EvalTest(w, fuel, cfg, sc, subject, c, m) case Ok((_, m')) => Read(m', x) == Read(m, x) case Err(_) => true
  {
    hide EvalExpr, EvalSubject, PatternOf, Quiet, Read, RT.Binop, RT.MatchesVariant;
    SubjectKeeps(w, cfg, sc, subject, m, x);
    if c.values != [] && EvalSubject(w, cfg, sc, subject, m).Ok? {
      var m1 := EvalSubject(w, cfg, sc, subject, m).value.1;
      assert Quiet(cfg, x, c.values[0]);
      ExprKeeps(w, fuel, cfg, sc, c.values[0], m1, x);
      var r := EvalTest(w, fuel, cfg, sc, subject, c, m);
      if r.Ok? && PatternOf(cfg, c.values[0]).Plain? {
        var m2 := EvalExpr(w, fuel, cfg, sc, c.values[0], m1).value.1;
        HeapElsewhere(m2, r.value.1.heap, x);
      }
    }
  }

  lemma {:induction false} BindKeeps(w: World, cfg: Config, sc: Scope, subject: Subject, names: seq<Expr>, k: nat, m: Mem, name: string, x: Variable)
    requires Owns(sc, name, x)
    ensures match BindFields(w, cfg, sc, subject, names, k, m) case Ok(m') => Read(m', x) == Read(m, x) case Err(_) => true
    decreases names
  {
    hide EvalSubject, Owns, Read, Write, Allocate, NextSlot, RT.Field;
    if names != [] && names[0].Name? {
      SubjectKeeps(w, cfg, sc, subject, m, x);
      OwnsNext(sc, names[0].name, name, x);
      var r := EvalSubject(w, cfg, sc, subject, m);
      if r.Ok? && RT.Field(r.value.1.heap, r.value.0, k).Ok? {
        var field := RT.Field(r.value.1.heap, r.value.0, k).value;
        WriteElsewhere(r.value.1, x, NextSlot(sc), field);
        var m2 := Write(r.value.1, NextSlot(sc), field);
        if m2.Ok? { BindKeeps(w, cfg, Allocate(sc, names[0].name), subject, names[1..], k + 1, m2.value, name, x); }
      }
    }
  }

  lemma {:induction false} CasesKeep(w: World, fuel: nat, cfg: Config, sc: Scope, subject: Subject, cases: seq<Case>, m: Mem,
                                     name: string, x: Variable)
    requires Owns(sc, name, x) && CasesSpare(cfg, x, name, cases)
    ensures match EvalCases(w, fuel, cfg, sc, subject, cases, m) case Ok((_, m')) => Read(m', x) == Read(m, x) case Err(_) => true
    decreases fuel, cases
  {
    hide EvalTest, EvalBlock, BindFields, AllQuiet, BlockSpares, Owns, Read, BindAll, Bindings, AfterBlock, Extends, CountLocals;
    if cases != [] {
      var c := cases[0];
      var bound, names := BindAll(sc, Bindings(cfg, c)), Bindings(cfg, c);
      TestKeeps(w, fuel, cfg, sc, subject, c, m, x);
      BindAllExtends(sc, names);
      OwnsAfter(sc, bound, |names|, name, x);
      BlockExtends(cfg, bound, c.body);
      OwnsAfter(bound, AfterCase(cfg, sc, c), CountLocals(cfg, c.body), name, x);
      var r := EvalTest(w, fuel, cfg, sc, subject, c, m);
      if r.Ok? {
        BindKeeps(w, cfg, sc, subject, names, 0, r.value.1, name, x);
        var q := BindFields(w, cfg, sc, subject, names, 0, r.value.1);
        if q.Ok? { BlockKeeps(w, fuel, cfg, bound, c.body, q.value, name, x); }
        CasesKeep(w, fuel, cfg, AfterCase(cfg, sc, c), subject, cases[1..], r.value.1, name, x);
      }
    }
  }

  // Loops

  lemma {:induction false} LoopKeeps(w: World, fuel: nat, cfg: Config, sc: Scope, s: Stmt, m: Mem, name: string, x: Variable)
    requires s.Loop? && Owns(sc, name, x) && Spares(cfg, x, name, s)
    ensures match EvalLoop(w, fuel, cfg, sc, s, m) case Ok((_, m')) => Read(m', x) == Read(m, x) case Err(_) => true
    decreases fuel, s, 4
  {
    hide EvalExpr, EvalMaybe, EvalWhile, EvalRepeat, EvalFor, BlockSpares, Quiet, Owns, Read, Write, Allocate, NextSlot, HiddenName;
    match s.header
    case While(_) => WhileKeeps(w, fuel, cfg, sc, s, m, name, x);
    case Repeat(count, span) =>
      var sc1 := Allocate(sc, HiddenName("repeat", span));
      OwnsNext(sc, HiddenName("repeat", span), name, x);
      ExprKeeps(w, fuel, cfg, sc1, count, m, x);
      var r := EvalExpr(w, fuel, cfg, sc1, count, m);
      if r.Ok? {
        WriteElsewhere(r.value.1, x, NextSlot(sc), r.value.0);
        var q := Write(r.value.1, NextSlot(sc), r.value.0);
        if q.Ok? { RepeatKeeps(w, fuel, cfg, sc1, NextSlot(sc), s, q.value, name, x); }
      }
    case For(_, from, _, _) =>
      OwnsNext(sc, "", name, x);
      MaybeKeeps(w, fuel, cfg, sc, from, m, x);
      var r := EvalMaybe(w, fuel, cfg, sc, from, m);
      if r.Ok? {
        var start := if r.value.0.Some? then r.value.0.value else RT.Int(0);
        WriteElsewhere(r.value.1, x, NextSlot(sc), start);
        var q := Write(r.value.1, NextSlot(sc), start);
        if q.Ok? { ForKeeps(w, fuel, cfg, sc, s, q.value, name, x); }
      }
  }

  lemma {:induction false} WhileKeeps(w: World, fuel: nat, cfg: Config, sc: Scope, s: Stmt, m: Mem, name: string, x: Variable)
    requires IsWhile(s) && Owns(sc, name, x) && Spares(cfg, x, name, s)
    ensures match EvalWhile(w, fuel, cfg, sc, s, m) case Ok((_, m')) => Read(m', x) == Read(m, x) case Err(_) => true
    decreases fuel, s, 3
  {
    hide EvalExpr, EvalBlock, BlockSpares, Quiet, Owns, Read;
    ExprKeeps(w, fuel, cfg, sc, s.header.condition, m, x);
    var r := EvalExpr(w, fuel, cfg, sc, s.header.condition, m);
    if r.Ok? {
      BlockKeeps(w, fuel, cfg, sc, s.body, r.value.1, name, x);
      var q := EvalBlock(w, fuel, cfg, sc, s.body, r.value.1);
      if q.Ok? && fuel > 0 { WhileKeeps(w, fuel - 1, cfg, sc, s, q.value.1, name, x); }
    }
  }

  lemma AdvanceKeeps(w: World, y: Variable, op: Op, delta: Value, m: Mem, x: Variable)
    requires x != y
    ensures match Advance(w, y, op, delta, m) case Ok(m') => Read(m', x) == Read(m, x) case Err(_) => true
  {
    hide Read, Write, RT.Binop;
    var v := Read(m, y);
    if v.Ok? && RT.Binop(w.lib, m.heap, op, v.value, delta).Ok? {
      var (next, h) := RT.Binop(w.lib, m.heap, op, v.value, delta).value;
      HeapElsewhere(m, h, x);
      WriteElsewhere(m.(heap := h), x, y, next);
    }
  }

  lemma {:induction false} RepeatKeeps(w: World, fuel: nat, cfg: Config, sc: Scope, y: Variable, s: Stmt, m: Mem, name: string, x: Variable)
    requires IsRepeat(s) && Owns(sc, name, x) && Spares(cfg, x, name, s) && x != y
    ensures match EvalRepeat(w, fuel, cfg, sc, y, s, m) case Ok((_, m')) => Read(m', x) == Read(m, x) case Err(_) => true
    decreases fuel, s, 3
  {
    hide EvalExpr, EvalBlock, BlockSpares, Quiet, Owns, Read, Advance, RT.Binop;
    var v := Read(m, y);
    if v.Ok? && RT.Binop(w.lib, m.heap, GT, v.value, RT.Int(0)).Ok? {
      var m1 := m.(heap := RT.Binop(w.lib, m.heap, GT, v.value, RT.Int(0)).value.1);
      HeapElsewhere(m, m1.heap, x);
      BlockKeeps(w, fuel, cfg, sc, s.body, m1, name, x);
      var q := EvalBlock(w, fuel, cfg, sc, s.body, m1);
      if q.Ok? && fuel > 0 {
        AdvanceKeeps(w, y, SUB, RT.Int(1), q.value.1, x);
        var m3 := Advance(w, y, SUB, RT.Int(1), q.value.1);
        if m3.Ok? { RepeatKeeps(w, fuel - 1, cfg, sc, y, s, m3.value, name, x); }
      }
    }
  }

  lemma StepKeeps(w: World, fuel: nat, cfg: Config, sc: Scope, step: MaybeExpr, m: Mem, x: Variable)
    requires MaybeQuiet(cfg, x, step)
    ensures match EvalStep(w, fuel, cfg, sc, step, m) case Ok((_, m')) => Read(m', x) == Read(m, x) case Err(_) => true
  {
    hide EvalExpr, Quiet, Read;
    if step.Present? { ExprKeeps(w, fuel, cfg, sc, step.expr, m, x); }
  }

  lemma BinopKeeps(m: Mem, r: Result<(Value, RT.Heap)>, x: Variable)
    ensures match InHeap(m, r) case Ok((_, m')) => Read(m', x) == Read(m, x) case Err(_) => true
  {
  }

  lemma HalfKeeps(w: World, fuel: nat, cfg: Config, sc: Scope, s: Stmt, sign: Op, side: Op, m: Mem, x: Variable)
    requires IsFor(s) && s.header.to.Present? && HeaderSpares(cfg, x, s.header)
    ensures match EvalHalf(w, fuel, cfg, sc, s, sign, side, m) case Ok((_, m')) => Read(m', x) == Read(m, x) case Err(_) => true
  {
    hide EvalHalf, EvalStep, EvalExpr, Calls, Read;
    if x.rel.Global? { HalfNoChange(w, fuel, cfg, sc, s, sign, side, m); }
    var r := EvalHalf(w, fuel, cfg, sc, s, sign, side, m);
    if r.Ok? { FrameKeeps(m, r.value.1, x); }
  }

  lemma HalfNoChange(w: World, fuel: nat, cfg: Config, sc: Scope, s: Stmt, sign: Op, side: Op, m: Mem)
    requires IsFor(s) && s.header.to.Present? && !Calls(cfg, s.header.to.expr) && !MaybeCalls(cfg, s.header.step)
    ensures match EvalHalf(w, fuel, cfg, sc, s, sign, side, m) case Ok((_, m')) => m'.globals == m.globals case Err(_) => true
  {
    hide EvalExpr, EvalStmt, EvalBlock, Invoke, Calls, Read, NextSlot, RT.Binop;
    if s.header.step.Present? { NoCallsNoChange(w, fuel, cfg, sc, s.header.step.expr, m); }
    var r := EvalStep(w, fuel, cfg, sc, s.header.step, m);
    if r.Ok? {
      var p := InHeap(r.value.1, RT.Binop(w.lib, r.value.1.heap, sign, r.value.0, RT.Int(0)));
      if p.Ok? { NoCallsNoChange(w, fuel, cfg, sc, s.header.to.expr, p.value.1); }
    }
  }

  lemma GuardKeeps(w: World, fuel: nat, cfg: Config, sc: Scope, s: Stmt, m: Mem, x: Variable)
    requires IsFor(s) && HeaderSpares(cfg, x, s.header)
    ensures match EvalGuard(w, fuel, cfg, sc, s, m) case Ok((_, m')) => Read(m', x) == Read(m, x) case Err(_) => true
  {
    hide EvalHalf, HeaderSpares, Read, RT.Binop, InHeap;
    if s.header.to.Present? {
      HalfKeeps(w, fuel, cfg, sc, s, GT, LEQ, m, x);
      var up := EvalHalf(w, fuel, cfg, sc, s, GT, LEQ, m);
      if up.Ok? {
        HalfKeeps(w, fuel, cfg, sc, s, LEQ, GEQ, up.value.1, x);
        var down := EvalHalf(w, fuel, cfg, sc, s, LEQ, GEQ, up.value.1);
        if down.Ok? { BinopKeeps(down.value.1, RT.Binop(w.lib, down.value.1.heap, OR, up.value.0, down.value.0), x); }
      }
    }
  }

  lemma {:induction false} ForKeeps(w: World, fuel: nat, cfg: Config, sc: Scope, s: Stmt, m: Mem, name: string, x: Variable)
    requires IsFor(s) && Owns(sc, name, x) && Spares(cfg, x, name, s)
    ensures match EvalFor(w, fuel, cfg, sc, s, m) case Ok((_, m')) => Read(m', x) == Read(m, x) case Err(_) => true
    decreases fuel, s, 3
  {
    hide EvalGuard, EvalBlock, EvalStep, BlockSpares, MaybeQuiet, Owns, Read, Write, RT.Binop, Allocate, NextSlot;
    var sc1, y := Allocate(sc, s.header.variable), NextSlot(sc);
    OwnsNext(sc, s.header.variable, name, x);
    GuardKeeps(w, fuel, cfg, sc, s, m, x);
    var g := EvalGuard(w, fuel, cfg, sc, s, m);
    if g.Ok? {
      BlockKeeps(w, fuel, cfg, sc1, s.body, g.value.1, name, x);
      var q := EvalBlock(w, fuel, cfg, sc1, s.body, g.value.1);
      if q.Ok? && fuel > 0 && Read(q.value.1, y).Ok? {
        var v, m2 := Read(q.value.1, y).value, q.value.1;
        StepKeeps(w, fuel, cfg, sc, s.header.step, m2, x);
        var d := EvalStep(w, fuel, cfg, sc, s.header.step, m2);
        if d.Ok? && RT.Binop(w.lib, d.value.1.heap, ADD, v, d.value.0).Ok? {
          var (next, h) := RT.Binop(w.lib, d.value.1.heap, ADD, v, d.value.0).value;
          HeapElsewhere(d.value.1, h, x);
          WriteElsewhere(d.value.1.(heap := h), x, y, next);
          var m4 := Write(d.value.1.(heap := h), y, next);
          if m4.Ok? { ForKeeps(w, fuel - 1, cfg, sc, s, m4.value, name, x); }
        }
      }
    }
  }

  // The condition on the text

  /** A literal, or the value of a variable. */
  function FixedValue(cfg: Config, sc: Scope, e: Expr, m: Mem): Option<Value> {
    match e
    case IntegerLit(n) => if FitsI32(n) then Some(RT.Int(n)) else None
    case BooleanLit(b) => Some(RT.Bool(b))
    case RealLit(f) => Some(RT.Flt(f))
    case Name(name) => if name in cfg.variants || name in cfg.callTargets then None else VariableValue(FindVariable(sc, name), m)
    case _ => None
  }

  function VariableValue(x: Result<Variable>, m: Mem): Option<Value> {
    if x.Ok? && Read(m, x.value).Ok? then Some(Read(m, x.value).value) else None
  }

  /** A literal, or a variable that the body leaves alone. The loop variable may have its name:
      bound and step mean the variable outside. */
  predicate Fixed(cfg: Config, sc: Scope, e: Expr, body: seq<Stmt>) {
    match e
    case IntegerLit(_) => true
    case BooleanLit(_) => true
    case RealLit(_) => true
    case Name(name) =>
      && name !in cfg.variants && name !in cfg.callTargets
      && (match FindVariable(sc, name) case Ok(x) => BlockSpares(cfg, x, name, body) case Err(_) => false)
    case _ => false
  }

  predicate FixedHeader(cfg: Config, sc: Scope, s: Stmt)
    requires IsFor(s)
  {
    && (s.header.to.Present? ==> Fixed(cfg, sc, s.header.to.expr, s.body))
    && (s.header.step.Present? ==> Fixed(cfg, sc, s.header.step.expr, s.body))
  }

  /** Bound and step are `b` and `c`; a missing step is 1. */
  predicate HasValues(cfg: Config, sc: Scope, s: Stmt, b: Option<Value>, c: Value, m: Mem)
    requires IsFor(s)
  {
    && (if s.header.to.Absent? then b.None? else b.Some? && FixedValue(cfg, sc, s.header.to.expr, m) == b)
    && (if s.header.step.Absent? then c == RT.Int(1) else FixedValue(cfg, sc, s.header.step.expr, m) == Some(c))
  }

  lemma FixedEvaluates(w: World, fuel: nat, cfg: Config, sc: Scope, e: Expr, m: Mem)
    requires FixedValue(cfg, sc, e, m).Some?
    ensures EvalExpr(w, fuel, cfg, sc, e, m) == Ok((FixedValue(cfg, sc, e, m).value, m))
  {
    hide EvalStmt, EvalBlock, Invoke, FindVariable, Read;
  }

  lemma ValuesInHeap(cfg: Config, sc: Scope, s: Stmt, b: Option<Value>, c: Value, m: Mem, h: RT.Heap)
    requires IsFor(s) && HasValues(cfg, sc, s, b, c, m)
    ensures HasValues(cfg, sc, s, b, c, m.(heap := h))
  {
    hide FindVariable;
  }

  lemma InHeapOnly(m: Mem, r: Result<(Value, RT.Heap)>)
    ensures match InHeap(m, r) case Ok((_, m')) => m' == m.(heap := m'.heap) case Err(_) => true
  {
  }

  lemma StepEvaluates(w: World, fuel: nat, cfg: Config, sc: Scope, s: Stmt, b: Option<Value>, c: Value, m: Mem)
    requires IsFor(s) && HasValues(cfg, sc, s, b, c, m)
    ensures EvalStep(w, fuel, cfg, sc, s.header.step, m) == Ok((c, m))
  {
    hide EvalExpr, FixedValue;
    if s.header.step.Present? { FixedEvaluates(w, fuel, cfg, sc, s.header.step.expr, m); }
  }

  lemma EvalHalfEnds(w: World, fuel: nat, cfg: Config, sc: Scope, s: Stmt, b: Value, c: Value, sign: Op, side: Op, m: Mem)
    requires IsFor(s) && s.header.to.Present? && EvalStep(w, fuel, cfg, sc, s.header.step, m) == Ok((c, m))
    requires var p := InHeap(m, RT.Binop(w.lib, m.heap, sign, c, RT.Int(0)));
      p.Ok? ==> EvalExpr(w, fuel, cfg, sc, s.header.to.expr, p.value.1) == Ok((b, p.value.1))
    ensures EvalHalf(w, fuel, cfg, sc, s, sign, side, m)
      == HalfEnd(w, NextSlot(sc), b, side, InHeap(m, RT.Binop(w.lib, m.heap, sign, c, RT.Int(0))))
  {
    hide EvalExpr, EvalStep, EvalBlock, EvalStmt, Invoke, NextSlot, Read, RT.Binop, InHeap;
  }

  lemma HalfHeld(w: World, fuel: nat, cfg: Config, sc: Scope, s: Stmt, b: Value, c: Value, sign: Op, side: Op, m: Mem)
    requires IsFor(s) && s.header.to.Present? && HasValues(cfg, sc, s, Some(b), c, m)
    ensures EvalHalf(w, fuel, cfg, sc, s, sign, side, m) == HeldHalf(w, NextSlot(sc), b, c, sign, side, m)
    ensures match HeldHalf(w, NextSlot(sc), b, c, sign, side, m) case Ok((_, m')) => m' == m.(heap := m'.heap) case Err(_) => true
  {
    hide EvalExpr, EvalStep, EvalHalf, HalfEnd, HasValues, NextSlot, RT.Binop, InHeap;
    StepEvaluates(w, fuel, cfg, sc, s, Some(b), c, m);
    HeldHalfHeap(w, NextSlot(sc), b, c, sign, side, m);
    var r := RT.Binop(w.lib, m.heap, sign, c, RT.Int(0));
    InHeapOnly(m, r);
    if InHeap(m, r).Ok? { BoundEvaluates(w, fuel, cfg, sc, s, b, c, m, InHeap(m, r).value.1.heap); }
    EvalHalfEnds(w, fuel, cfg, sc, s, b, c, sign, side, m);
  }

  lemma BoundEvaluates(w: World, fuel: nat, cfg: Config, sc: Scope, s: Stmt, b: Value, c: Value, m: Mem, h: RT.Heap)
    requires IsFor(s) && s.header.to.Present? && HasValues(cfg, sc, s, Some(b), c, m)
    ensures EvalExpr(w, fuel, cfg, sc, s.header.to.expr, m.(heap := h)) == Ok((b, m.(heap := h)))
  {
    hide EvalExpr, FixedValue;
    ValuesInHeap(cfg, sc, s, Some(b), c, m, h);
    FixedEvaluates(w, fuel, cfg, sc, s.header.to.expr, m.(heap := h));
  }

  lemma HeldHalfHeap(w: World, x: Variable, b: Value, c: Value, sign: Op, side: Op, m: Mem)
    ensures match HeldHalf(w, x, b, c, sign, side, m) case Ok((_, m')) => m' == m.(heap := m'.heap) case Err(_) => true
  {
    hide Read, RT.Binop;
  }

  lemma GuardHeld(w: World, fuel: nat, cfg: Config, sc: Scope, s: Stmt, b: Option<Value>, c: Value, m: Mem)
    requires IsFor(s) && HasValues(cfg, sc, s, b, c, m)
    ensures EvalGuard(w, fuel, cfg, sc, s, m) == HeldGuard(w, NextSlot(sc), b, c, m)
    ensures match HeldGuard(w, NextSlot(sc), b, c, m) case Ok((_, m')) => m' == m.(heap := m'.heap) case Err(_) => true
  {
    hide EvalHalf, HeldHalf, FixedValue, NextSlot, RT.Binop;
    if s.header.to.Present? {
      HalfHeld(w, fuel, cfg, sc, s, b.value, c, GT, LEQ, m);
      var up := HeldHalf(w, NextSlot(sc), b.value, c, GT, LEQ, m);
      if up.Ok? {
        ValuesInHeap(cfg, sc, s, b, c, m, up.value.1.heap);
        HalfHeld(w, fuel, cfg, sc, s, b.value, c, LEQ, GEQ, up.value.1);
      }
    }
  }

  /** A round leaves a fixed expression its value. */
  lemma FixedKept(w: World, fuel: nat, cfg: Config, sc: Scope, variable: string, body: seq<Stmt>, e: Expr, m: Mem, h: RT.Heap, next: Value)
    requires Distinct(sc) && Fixed(cfg, sc, e, body)
    ensures match EvalBlock(w, fuel, cfg, Allocate(sc, variable), body, m)
      case Err(_) => true
      case Ok((_, m1)) =>
        FixedValue(cfg, sc, e, m1) == FixedValue(cfg, sc, e, m) &&
        match Write(m1.(heap := h), NextSlot(sc), next)
        case Ok(m2) => FixedValue(cfg, sc, e, m2) == FixedValue(cfg, sc, e, m)
        case Err(_) => true
  {
    hide EvalBlock, BlockSpares, Distinct, Owns, FindVariable, Read, Write, Allocate, NextSlot;
    if e.Name? {
      var x := FindVariable(sc, e.name).value;
      OwnsFound(sc, e.name);
      OwnsNext(sc, variable, e.name, x);
      BlockKeeps(w, fuel, cfg, Allocate(sc, variable), body, m, e.name, x);
      var r := EvalBlock(w, fuel, cfg, Allocate(sc, variable), body, m);
      if r.Ok? {
        HeapElsewhere(r.value.1, h, x);
        WriteElsewhere(r.value.1.(heap := h), x, NextSlot(sc), next);
      }
    }
  }

  lemma ValuesKept(w: World, fuel: nat, cfg: Config, sc: Scope, s: Stmt, b: Option<Value>, c: Value, m: Mem, h: RT.Heap, next: Value)
    requires IsFor(s) && Distinct(sc) && FixedHeader(cfg, sc, s) && HasValues(cfg, sc, s, b, c, m)
    ensures match EvalBlock(w, fuel, cfg, Allocate(sc, s.header.variable), s.body, m)
      case Err(_) => true
      case Ok((_, m1)) =>
        HasValues(cfg, sc, s, b, c, m1) &&
        match Write(m1.(heap := h), NextSlot(sc), next) case Ok(m2) => HasValues(cfg, sc, s, b, c, m2) case Err(_) => true
  {
    hide EvalBlock, Fixed, FixedValue, Distinct, Write, Allocate, NextSlot;
    if s.header.to.Present? { FixedKept(w, fuel, cfg, sc, s.header.variable, s.body, s.header.to.expr, m, h, next); }
    if s.header.step.Present? { FixedKept(w, fuel, cfg, sc, s.header.variable, s.body, s.header.step.expr, m, h, next); }
  }

  /** When bound and step are fixed on the text, the loop is the one that holds them. */
  lemma {:induction false} ForIsHeld(w: World, fuel: nat, cfg: Config, sc: Scope, s: Stmt, b: Option<Value>, c: Value, m: Mem)
    requires IsFor(s) && Distinct(sc) && FixedHeader(cfg, sc, s) && HasValues(cfg, sc, s, b, c, m)
    ensures EvalFor(w, fuel, cfg, sc, s, m) == HeldFor(w, fuel, cfg, sc, s, b, c, m)
    decreases fuel
  {
    hide EvalGuard, HeldGuard, EvalBlock, EvalExpr, Distinct, FixedHeader, FixedValue, Read, Write, Allocate, NextSlot, RT.Binop;
    GuardHeld(w, fuel, cfg, sc, s, b, c, m);
    var g, x := HeldGuard(w, NextSlot(sc), b, c, m), NextSlot(sc);
    if g.Ok? && g.value.0 && fuel > 0 {
      var m1 := g.value.1;
      ValuesInHeap(cfg, sc, s, b, c, m, m1.heap);
      var q := EvalBlock(w, fuel, cfg, Allocate(sc, s.header.variable), s.body, m1);
      if q.Ok? && Read(q.value.1, x).Ok? {
        var m2, v := q.value.1, Read(q.value.1, x).value;
        ValuesKept(w, fuel, cfg, sc, s, b, c, m1, m2.heap, v);
        if s.header.step.Present? { FixedEvaluates(w, fuel, cfg, sc, s.header.step.expr, m2); }
        if RT.Binop(w.lib, m2.heap, ADD, v, c).Ok? {
          var (next, h) := RT.Binop(w.lib, m2.heap, ADD, v, c).value;
          ValuesKept(w, fuel, cfg, sc, s, b, c, m1, h, next);
          var m3 := Write(m2.(heap := h), x, next);
          if m3.Ok? { ForIsHeld(w, fuel - 1, cfg, sc, s, b, c, m3.value); }
        }
      }
    }
  }

  // The count, on the text

  /** `n` rounds of the body, unless one of them leaves the loop, with the variable advanced by
      `c` after each. */
  function RunRounds(w: World, fuel: nat, cfg: Config, sc: Scope, s: Stmt, i: int, c: int, n: nat, m: Mem): Result<(Flow, Mem)>
    requires IsFor(s)
    decreases n
  {
    if n == 0 then Ok((Normal, m))
    else
      var (flow, m1) :- EvalBlock(w, fuel, cfg, Allocate(sc, s.header.variable), s.body, m);
      if flow.Return? then Ok((flow, m1))
      else if flow.Exit? then Ok((Normal, m1))
      else if fuel == 0 then Err(OutOfFuel)
      else
        var m2 :- Write(m1, NextSlot(sc), RT.Int(i + c));
        RunRounds(w, fuel - 1, cfg, sc, s, i + c, c, n - 1, m2)
  }

  /** The body does not assign the loop variable either. */
  predicate SparesVariable(cfg: Config, sc: Scope, s: Stmt)
    requires IsFor(s)
  {
    BlockSpares(cfg, NextSlot(sc), s.header.variable, s.body)
  }

  lemma VariableKept(w: World, fuel: nat, cfg: Config, sc: Scope, s: Stmt, m: Mem)
    requires IsFor(s) && Distinct(sc) && SparesVariable(cfg, sc, s)
    ensures match EvalBlock(w, fuel, cfg, Allocate(sc, s.header.variable), s.body, m)
      case Ok((_, m1)) => Read(m1, NextSlot(sc)) == Read(m, NextSlot(sc))
      case Err(_) => true
  {
    hide EvalBlock, BlockSpares, Read;
    BlockKeeps(w, fuel, cfg, Allocate(sc, s.header.variable), s.body, m, s.header.variable, NextSlot(sc));
  }

  lemma AddInts(lib: RT.Library, h: RT.Heap, m: int, n: int)
    requires FitsI32(m + n)
    ensures RT.Binop(lib, h, ADD, RT.Int(m), RT.Int(n)) == Ok((RT.Int(m + n), h))
  {
  }

  lemma WrittenReads(m: Mem, x: Variable, v: Value)
    ensures match Write(m, x, v) case Ok(m') => Read(m', x) == Ok(v) case Err(_) => true
  {
  }

  lemma {:induction false} HeldIsRounds(w: World, fuel: nat, cfg: Config, sc: Scope, s: Stmt, a: int, b: int, c: int, m: Mem)
    requires IsFor(s) && Distinct(sc) && SparesVariable(cfg, sc, s)
    requires Read(m, NextSlot(sc)) == Ok(RT.Int(a)) && c != 0 && FitsI32(a) && FitsI32(a + Trips(a, b, c) * c)
    ensures HeldFor(w, fuel, cfg, sc, s, Some(RT.Int(b)), RT.Int(c), m) == RunRounds(w, fuel, cfg, sc, s, a, c, Trips(a, b, c), m)
    decreases fuel
  {
    hide HeldGuard, EvalBlock, Distinct, SparesVariable, Read, Write, Allocate, NextSlot, RT.Binop, Trips, Goes;
    HeldRound(w, fuel, cfg, sc, s, a, b, c, m);
    TripsStep(a, b, c);
    if Goes(c, a, b) {
      var x := NextSlot(sc);
      WithinRange(a, Trips(a, b, c), c);
      VariableKept(w, fuel, cfg, sc, s, m);
      var q := EvalBlock(w, fuel, cfg, Allocate(sc, s.header.variable), s.body, m);
      if q.Ok? && fuel > 0 {
        var m1 := q.value.1;
        AddInts(w.lib, m1.heap, a, c);
        assert m1.(heap := m1.heap) == m1;
        WrittenReads(m1, x, RT.Int(a + c));
        var m2 := Write(m1, x, RT.Int(a + c));
        if m2.Ok? { HeldIsRounds(w, fuel - 1, cfg, sc, s, a + c, b, c, m2.value); }
      }
    }
  }

  /** A loop over integers whose bound, step and variable are fixed on the text is
      max(0, floor((b - a) / c) + 1) rounds of its body, unless a round leaves it. */
  lemma CountOnText(w: World, fuel: nat, cfg: Config, sc: Scope, s: Stmt, a: int, b: int, c: int, m: Mem)
    requires IsFor(s) && Distinct(sc) && FixedHeader(cfg, sc, s) && SparesVariable(cfg, sc, s)
    requires HasValues(cfg, sc, s, Some(RT.Int(b)), RT.Int(c), m) && Read(m, NextSlot(sc)) == Ok(RT.Int(a))
    requires c != 0 && FitsI32(a) && FitsI32(a + Trips(a, b, c) * c)
    ensures EvalFor(w, fuel, cfg, sc, s, m) == RunRounds(w, fuel, cfg, sc, s, a, c, Trips(a, b, c), m)
  {
    hide EvalFor, HeldFor, RunRounds, Distinct, FixedHeader, HasValues, SparesVariable, Read, Trips;
    ForIsHeld(w, fuel, cfg, sc, s, Some(RT.Int(b)), RT.Int(c), m);
    HeldIsRounds(w, fuel, cfg, sc, s, a, b, c, m);
  }

  // Every scope of a program is distinct

  lemma {:induction false} ArgsInjective(parameters: seq<string>)
    ensures Injective(ArgSlots(parameters))
  {
    if parameters != [] { ArgsInjective(parameters[..|parameters| - 1]); }
  }

  lemma {:induction false} FunctionsDistinct(m: ModuleDef, cfg: Config, top: Scope, functions: seq<FunctionDef>)
    requires Distinct(top)
    ensures forall u :: u in FunctionUnits(m, cfg, top, functions) ==> Distinct(u.unit.scope)
    decreases |functions|
  {
    hide ArgSlots;
    if functions != [] {
      ArgsInjective(functions[0].parameters);
      FunctionsDistinct(m, cfg, top, functions[1..]);
    }
  }

  /** Units start in distinct scopes, so by `StmtDistinct` every statement stands in one. */
  lemma UnitsDistinct(m: ModuleDef, g: Gen)
    ensures forall u :: u in UnitsOf(m, g) ==> Distinct(u.unit.scope)
  {
    hide Distinct;
    InitDistinct(g.globals);
    BlockDistinct(ConfigOf(m, g), InitScope(g.globals), m.toplevel);
    FunctionsDistinct(m, ConfigOf(m, g), TopScope(m, g), m.functions);
  }

  lemma InitDistinct(globals: nat)
    ensures Distinct(InitScope(globals))
  {
  }
}
