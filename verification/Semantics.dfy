/** What programs mean: a fuel-bounded evaluator of the syntax tree with static scoping.
    Fuel is spent by calls and by loop iterations. */
module Semantics {
  import opened Results
  import opened Bytecode
  import opened Numbers
  import opened Ast
  import opened Scoping
  import StringTable
  import RT = Runtime

  type Value = RT.Value
  type Heap = RT.Heap

  /** The variables of the running frame, the globals, the heap and the output so far. */
  datatype Mem = Mem(globals: seq<Value>, args: seq<Value>, locals: seq<Value>, heap: Heap, log: seq<RT.Event>)

  /** A function body or a module's top level, with the static context it is read in. */
  datatype Unit = Unit(cfg: Config, scope: Scope, arity: nat, body: seq<Stmt>)

  /** The linked program: function values are represented by entry addresses. */
  datatype World = World(entries: map<string, nat>, units: map<nat, Unit>, lib: RT.Library)

  datatype Flow = Normal | Exit | Return(value: Value)

  type ValueAnd = (Value, Mem)

  predicate SameShape(m: Mem, m': Mem) {
    |m'.globals| == |m.globals| && |m'.args| == |m.args| && |m'.locals| == |m.locals|
  }

  /** Evaluating an expression can change globals, heap and output, never the frame. */
  predicate SameFrame(m: Mem, m': Mem) {
    |m'.globals| == |m.globals| && m'.args == m.args && m'.locals == m.locals
  }

  function Read(m: Mem, x: Variable): Result<Value> {
    match x.rel
    case Global => if x.index < |m.globals| then Ok(m.globals[x.index]) else Err(Undefined)
    case Local => if x.index < |m.locals| then Ok(m.locals[x.index]) else Err(Undefined)
    case Arg => if x.index < |m.args| then Ok(m.args[x.index]) else Err(Undefined)
    case Capture => Err(NotImplemented)
  }

  function Write(m: Mem, x: Variable, v: Value): (r: Result<Mem>)
    ensures r.Ok? ==> SameShape(m, r.value)
  {
    match x.rel
    case Global => if x.index < |m.globals| then Ok(m.(globals := m.globals[x.index := v])) else Err(Undefined)
    case Local => if x.index < |m.locals| then Ok(m.(locals := m.locals[x.index := v])) else Err(Undefined)
    case Arg => if x.index < |m.args| then Ok(m.(args := m.args[x.index := v])) else Err(Undefined)
    case Capture => Err(NotImplemented)
  }

  /** A result of the runtime library put back into the memory. */
  function InHeap(m: Mem, r: Result<(Value, Heap)>): (q: Result<ValueAnd>)
    ensures q.Ok? ==> SameFrame(m, q.value.1)
  {
    var (v, h) :- r;
    Ok((v, m.(heap := h)))
  }

  function HeapOnly(m: Mem, r: Result<Heap>): (q: Result<Mem>)
    ensures q.Ok? ==> SameFrame(m, q.value)
  {
    var h :- r;
    Ok(m.(heap := h))
  }

  function IsTrue(v: Value): Result<bool> {
    if v.Bool? then Ok(v.b) else Err(TypeMismatch)
  }

  // Expressions

  function EvalExpr(w: World, fuel: nat, cfg: Config, sc: Scope, e: Expr, m: Mem): (r: Result<ValueAnd>)
    ensures r.Ok? ==> SameFrame(m, r.value.1)
    decreases fuel, e, 1
  {
    match e
    case IntegerLit(n) => if FitsI32(n) then Ok((RT.Int(n), m)) else Err(IntegerRange)
    case BooleanLit(b) => Ok((RT.Bool(b), m))
    case RealLit(f) => Ok((RT.Flt(f), m))
    case TextLit(bytes) => InHeap(m, RT.NewText(m.heap, StringTable.UpToNul(bytes)))
    case NullLit => InHeap(m, Ok(RT.Alloc(m.heap, RT.Null)))
    case Name(name) => EvalName(w, cfg, sc, name, m)
    case Binary(operator, left, right) =>
      if operator.Dot? then
        var _ :- Need(right.Name? && right.name in cfg.fieldIndices, UnknownName);
        var (v, m1) :- EvalExpr(w, fuel, cfg, sc, left, m);
        var field :- RT.Field(m1.heap, v, cfg.fieldIndices[right.name]);
        Ok((field, m1))
      else
        var op :- Operator(operator);
        var (a, m1) :- EvalExpr(w, fuel, cfg, sc, left, m);
        var (b, m2) :- EvalExpr(w, fuel, cfg, sc, right, m1);
        InHeap(m2, RT.Binop(w.lib, m2.heap, op, a, b))
    case Unary(unary, operand) =>
      var (v, m1) :- EvalExpr(w, fuel, cfg, sc, operand, m);
      ApplyUnary(w, unary, v, m1)
    case TupleConstruct(elements) =>
      var (vs, m1) :- EvalExprs(w, fuel, cfg, sc, elements, m);
      InHeap(m1, Ok(RT.Alloc(m1.heap, RT.Tuple(vs))))
    case FunctionCall(f, arguments) =>
      if f.Name? && f.name in cfg.variants then
        var _ :- Need(|arguments| == |cfg.variants[f.name].fields|, ArityMismatch);
        var (vs, m1) :- EvalExprs(w, fuel, cfg, sc, arguments, m);
        InHeap(m1, RT.NewVariant(w.lib, m1.heap, cfg.variants[f.name].schema, vs))
      else
        var (c, m1) :- EvalCallee(w, fuel, cfg, sc, f, m);
        var (vs, m2) :- EvalExprs(w, fuel, cfg, sc, arguments, m1);
        if fuel == 0 then Err(OutOfFuel) else Invoke(w, fuel - 1, CalleeOf(cfg, f), c, vs, m2)
    case Subscript(collection, index) =>
      var (c, m1) :- EvalExpr(w, fuel, cfg, sc, collection, m);
      var (i, m2) :- EvalExpr(w, fuel, cfg, sc, index, m1);
      InHeap(m2, RT.Elem(m2.heap, c, i))
    case SliceExpr(collection, from, to) =>
      var (c, m1) :- EvalExpr(w, fuel, cfg, sc, collection, m);
      var (a, m2) :- EvalMaybe(w, fuel, cfg, sc, from, m1);
      var (b, m3) :- EvalMaybe(w, fuel, cfg, sc, to, m2);
      InHeap(m3, RT.SliceOf(m3.heap, c, a, b))
  }

  function ApplyUnary(w: World, unary: UnaryOperator, v: Value, m: Mem): (r: Result<ValueAnd>)
    ensures r.Ok? ==> SameFrame(m, r.value.1)
  {
    match unary
    case Minus => InHeap(m, RT.Unop(w.lib, m.heap, Negate, v))
    case Plus => Ok((v, m))
    case Negation => InHeap(m, RT.Unop(w.lib, m.heap, Not, v))
    case Length => InHeap(m, RT.CallBuiltin(w.lib, m.heap, Llength, v))
  }

  /** A name is a constructor without fields, a function as a value, or a variable. */
  function EvalName(w: World, cfg: Config, sc: Scope, name: string, m: Mem): (r: Result<ValueAnd>)
    ensures r.Ok? ==> SameFrame(m, r.value.1)
  {
    if name in cfg.variants then
      var _ :- Need(cfg.variants[name].fields == [], ArityMismatch);
      InHeap(m, RT.NewVariant(w.lib, m.heap, cfg.variants[name].schema, []))
    else if name in cfg.callTargets then
      var target := cfg.callTargets[name];
      var _ :- Need(target.0 in w.entries, UnknownLabel);
      InHeap(m, Ok(RT.Alloc(m.heap, RT.Callable(w.entries[target.0], target.1))))
    else
      var x :- FindVariable(sc, name);
      var v :- Read(m, x);
      Ok((v, m))
  }

  function EvalExprs(w: World, fuel: nat, cfg: Config, sc: Scope, es: seq<Expr>, m: Mem): (r: Result<(seq<Value>, Mem)>)
    ensures r.Ok? ==> |r.value.0| == |es| && SameFrame(m, r.value.1)
    decreases fuel, es
  {
    if es == [] then Ok(([], m))
    else
      var (v, m1) :- EvalExpr(w, fuel, cfg, sc, es[0], m);
      var (vs, m2) :- EvalExprs(w, fuel, cfg, sc, es[1..], m1);
      Ok(([v] + vs, m2))
  }

  function EvalMaybe(w: World, fuel: nat, cfg: Config, sc: Scope, e: MaybeExpr, m: Mem): (r: Result<(Option<Value>, Mem)>)
    ensures r.Ok? ==> SameFrame(m, r.value.1) && r.value.0.Some? == e.Present?
    decreases fuel, e
  {
    if e.Absent? then Ok((None, m))
    else
      var (v, m1) :- EvalExpr(w, fuel, cfg, sc, e.expr, m);
      Ok((Some(v), m1))
  }

  function ApplyBuiltin(w: World, builtin: Builtin, vs: seq<Value>, m: Mem): (r: Result<ValueAnd>)
    ensures r.Ok? ==> SameFrame(m, r.value.1)
  {
    if |vs| != 1 then Err(ArityMismatch) else InHeap(m, RT.CallBuiltin(w.lib, m.heap, builtin, vs[0]))
  }

  /** Entry address of a callee; a callable value also checks its argument count. */
  function EntryOf(w: World, h: Heap, callee: Callee, c: seq<Value>, arguments: nat): Result<nat>
    requires callee.Computed? ==> c != []
  {
    if callee.Static? then
      if callee.entryLabel in w.entries then Ok(w.entries[callee.entryLabel]) else Err(UnknownLabel)
    else if callee.Computed? && RT.IsObj(h, c[0]) && h[c[0].addr].Callable? then
      if h[c[0].addr].arity == arguments then Ok(h[c[0].addr].entry) else Err(ArityMismatch)
    else Err(TypeMismatch)
  }

  /** A computed callee is evaluated before the arguments. */
  function EvalCallee(w: World, fuel: nat, cfg: Config, sc: Scope, f: Expr, m: Mem): (r: Result<(seq<Value>, Mem)>)
    ensures r.Ok? ==> SameFrame(m, r.value.1) && |r.value.0| == (if CalleeOf(cfg, f).Computed? then 1 else 0)
    decreases fuel, f, 2
  {
    if !CalleeOf(cfg, f).Computed? then Ok(([], m))
    else
      var (c, m1) :- EvalExpr(w, fuel, cfg, sc, f, m);
      Ok(([c], m1))
  }

  /** A call runs the body in a frame of its own, its locals starting at integer 0. */
  function Invoke(w: World, fuel: nat, callee: Callee, c: seq<Value>, vs: seq<Value>, m: Mem): (r: Result<ValueAnd>)
    requires callee.Computed? ==> c != []
    ensures r.Ok? ==> SameFrame(m, r.value.1)
    decreases fuel
  {
    if callee.Library? then ApplyBuiltin(w, callee.builtin, vs, m)
    else
      var u :- UnitOf(w, m.heap, callee, c, |vs|);
      var (flow, m1) :- EvalBlock(w, fuel, u.cfg, u.scope, u.body, Entered(u, vs, m));
      Returned(m, flow, m1)
  }

  function UnitOf(w: World, h: Heap, callee: Callee, c: seq<Value>, arguments: nat): (r: Result<Unit>)
    requires callee.Computed? ==> c != []
    ensures r.Ok? ==> EntryOf(w, h, callee, c, arguments).Ok? && r.value.arity == arguments
    ensures r.Ok? ==> EntryOf(w, h, callee, c, arguments).value in w.units
    ensures r.Ok? ==> r.value == w.units[EntryOf(w, h, callee, c, arguments).value]
  {
    var entry :- EntryOf(w, h, callee, c, arguments);
    if entry !in w.units then Err(Undefined)
    else if w.units[entry].arity != arguments then Err(ArityMismatch)
    else Ok(w.units[entry])
  }

  /** The value of a finished call: null without an explicit result. */
  function Returned(caller: Mem, flow: Flow, callee: Mem): (r: Result<ValueAnd>)
    requires |callee.globals| == |caller.globals|
    ensures r.Ok? ==> SameFrame(caller, r.value.1)
  {
    match flow
    case Return(v) => Ok((v, Left(caller, callee)))
    case Normal =>
      var (v, h) := RT.Alloc(callee.heap, RT.Null);
      Ok((v, Left(caller, callee.(heap := h))))
    case Exit => Err(NoEnclosingLoop)
  }

  function Entered(u: Unit, vs: seq<Value>, m: Mem): Mem {
    Mem(m.globals, vs, RT.Zeros(AfterBlock(u.cfg, u.scope, u.body).localCounter), m.heap, m.log)
  }

  /** The caller's frame with what the callee left of globals, heap and output. */
  function Left(caller: Mem, callee: Mem): Mem {
    caller.(globals := callee.globals, heap := callee.heap, log := callee.log)
  }

  // Statements

  function EvalStmt(w: World, fuel: nat, cfg: Config, sc: Scope, s: Stmt, m: Mem): (r: Result<(Flow, Mem)>)
    ensures r.Ok? ==> SameShape(m, r.value.1)
    decreases fuel, s, 5
  {
    match s
    case Declaration(target, value) =>
      var _ :- Need(target.NameTarget?, NotImplemented);
      var (v, m1) :- EvalExpr(w, fuel, cfg, sc, value, m);
      Finish(Write(m1, NextSlot(sc), v))
    case Assignment(target, value) =>
      var (v, m1) :- EvalExpr(w, fuel, cfg, sc, value, m);
      Finish(EvalAssign(w, fuel, cfg, sc, target, v, m1))
    case ProcedureCall(procedure, arguments) =>
      var (c, m1) :- EvalCallee(w, fuel, cfg, sc, procedure, m);
      var (vs, m2) :- EvalExprs(w, fuel, cfg, sc, arguments, m1);
      if fuel == 0 then Err(OutOfFuel)
      else
        var (_, m3) :- Invoke(w, fuel - 1, CalleeOf(cfg, procedure), c, vs, m2);
        Ok((Normal, m3))
    case Conditional(_, _, _) => EvalConditional(w, fuel, cfg, sc, s, m)
    case ValueMatch(_, _, _, _) => EvalMatch(w, fuel, cfg, sc, s, m)
    case Loop(_, _) => EvalLoop(w, fuel, cfg, sc, s, m)
    case Output(noNewline, values) =>
      var (vs, m1) :- EvalExprs(w, fuel, cfg, sc, values, m);
      var _ :- Need(|vs| < NEWLINE_FLAG, IntegerRange);
      var events :- RT.Write(w.lib, m1.heap, vs, !noNewline);
      Ok((Normal, m1.(log := m1.log + events)))
    case ExitLoop => Ok((Exit, m))
    case ReturnFromFunction(result) =>
      var (v, m1) :- EvalExpr(w, fuel, cfg, sc, result, m);
      Ok((Return(v), m1))
    case _ => Err(NotImplemented)
  }

  function EvalConditional(w: World, fuel: nat, cfg: Config, sc: Scope, s: Stmt, m: Mem): (r: Result<(Flow, Mem)>)
    requires s.Conditional?
    ensures r.Ok? ==> SameShape(m, r.value.1)
    decreases fuel, s, 4
  {
    var (v, m1) :- EvalExpr(w, fuel, cfg, sc, s.condition, m);
    var holds :- IsTrue(v);
    if holds then EvalBlock(w, fuel, cfg, sc, s.thenBody, m1)
    else EvalElse(w, fuel, cfg, AfterBlock(cfg, sc, s.thenBody), s.elseBody, m1)
  }

  function Finish(r: Result<Mem>): Result<(Flow, Mem)> {
    var m :- r;
    Ok((Normal, m))
  }

  function EvalAssign(w: World, fuel: nat, cfg: Config, sc: Scope, target: LValue, v: Value, m: Mem): (r: Result<Mem>)
    ensures r.Ok? ==> SameShape(m, r.value)
    decreases fuel, target
  {
    match target
    case NameTarget(name) =>
      var x :- FindVariable(sc, name);
      Write(m, x, v)
    case SubscriptTarget(collection, index) =>
      var _ :- Need(collection.Name?, NotImplemented);
      var x :- FindVariable(sc, collection.name);
      var (i, m1) :- EvalExpr(w, fuel, cfg, sc, index, m);
      var c :- Read(m1, x);
      HeapOnly(m1, RT.SetItem(m1.heap, c, i, v))
    case SliceTarget(collection, from, to) =>
      var _ :- Need(collection.Name?, NotImplemented);
      var x :- FindVariable(sc, collection.name);
      var c :- Read(m, x);
      var (a, m1) :- EvalMaybe(w, fuel, cfg, sc, from, m);
      var (b, m2) :- EvalMaybe(w, fuel, cfg, sc, to, m1);
      var (slice, h) :- RT.SliceOf(m2.heap, c, a, b);
      HeapOnly(m2, RT.SliceAssign(h, slice, v))
    case FieldTarget(left, field) =>
      var _ :- Need(field in cfg.fieldIndices, UnknownName);
      var (l, m1) :- EvalExpr(w, fuel, cfg, sc, left, m);
      HeapOnly(m1, RT.SetField(m1.heap, l, cfg.fieldIndices[field], v))
  }

  function EvalBlock(w: World, fuel: nat, cfg: Config, sc: Scope, stmts: seq<Stmt>, m: Mem): (r: Result<(Flow, Mem)>)
    ensures r.Ok? ==> SameShape(m, r.value.1)
    decreases fuel, stmts, 0
  {
    if stmts == [] then Ok((Normal, m))
    else
      var (flow, m1) :- EvalStmt(w, fuel, cfg, sc, stmts[0], m);
      if flow.Normal? then EvalBlock(w, fuel, cfg, AfterStmt(cfg, sc, stmts[0]), stmts[1..], m1)
      else Ok((flow, m1))
  }

  function EvalElse(w: World, fuel: nat, cfg: Config, sc: Scope, elseBody: MaybeBody, m: Mem): (r: Result<(Flow, Mem)>)
    ensures r.Ok? ==> SameShape(m, r.value.1)
    decreases fuel, elseBody
  {
    if elseBody.NoBody? then Ok((Normal, m)) else EvalBlock(w, fuel, cfg, sc, elseBody.stmts, m)
  }

  // Selection

  /** A subject that is not a plain name is computed once, into a hidden variable. */
  function EvalMatch(w: World, fuel: nat, cfg: Config, sc: Scope, s: Stmt, m: Mem): (r: Result<(Flow, Mem)>)
    requires s.ValueMatch?
    ensures r.Ok? ==> SameShape(m, r.value.1)
    decreases fuel, s, 4
  {
    var plain := s.subject.Name?;
    var sc1 := if plain then sc else Allocate(sc, HiddenName("match", s.span));
    var m1 :- (if plain then Ok(m) else EvalHeld(w, fuel, cfg, sc1, s.subject, NextSlot(sc), m));
    var subject := if plain then Reread(s.subject.name) else Held(NextSlot(sc));
    var (flow, m2) :- EvalCases(w, fuel, cfg, sc1, subject, s.cases, m1);
    if flow.Some? then Ok((flow.value, m2))
    else EvalElse(w, fuel, cfg, AfterCases(cfg, sc1, s.cases), s.elseBody, m2)
  }

  function EvalHeld(w: World, fuel: nat, cfg: Config, sc: Scope, subject: Expr, x: Variable, m: Mem): (r: Result<Mem>)
    ensures r.Ok? ==> SameShape(m, r.value)
    decreases fuel, subject, 2
  {
    var (v, m1) :- EvalExpr(w, fuel, cfg, sc, subject, m);
    Write(m1, x, v)
  }

  function EvalSubject(w: World, cfg: Config, sc: Scope, subject: Subject, m: Mem): (r: Result<ValueAnd>)
    ensures r.Ok? ==> SameFrame(m, r.value.1)
  {
    match subject
    case Reread(name) => EvalName(w, cfg, sc, name, m)
    case Held(x) =>
      var v :- Read(m, x);
      Ok((v, m))
  }

  /** The first case that matches decides; without one the flow is missing. */
  function EvalCases(w: World, fuel: nat, cfg: Config, sc: Scope, subject: Subject, cases: seq<Case>, m: Mem)
    : (r: Result<(Option<Flow>, Mem)>)
    ensures r.Ok? ==> SameShape(m, r.value.1)
    decreases fuel, cases
  {
    if cases == [] then Ok((None, m))
    else
      var c := cases[0];
      var (matches, m1) :- EvalTest(w, fuel, cfg, sc, subject, c, m);
      if !matches then EvalCases(w, fuel, cfg, AfterCase(cfg, sc, c), subject, cases[1..], m1)
      else
        var m2 :- BindFields(w, cfg, sc, subject, Bindings(cfg, c), 0, m1);
        var (flow, m3) :- EvalBlock(w, fuel, cfg, BindAll(sc, Bindings(cfg, c)), c.body, m2);
        Ok((Some(flow), m3))
  }

  /** A constructor pattern compares tags, any other pattern is an expression to equal. */
  function EvalTest(w: World, fuel: nat, cfg: Config, sc: Scope, subject: Subject, c: Case, m: Mem): (r: Result<(bool, Mem)>)
    ensures r.Ok? ==> SameFrame(m, r.value.1)
    decreases fuel, c
  {
    var _ :- Need(c.values != [], NotImplemented);
    var (v, m1) :- EvalSubject(w, cfg, sc, subject, m);
    match PatternOf(cfg, c.values[0])
    case Constructor(info, _) =>
      var matches :- RT.MatchesVariant(w.lib, m1.heap, v, info.schema);
      Ok((matches, m1))
    case Plain =>
      var (p, m2) :- EvalExpr(w, fuel, cfg, sc, c.values[0], m1);
      var (same, m3) :- InHeap(m2, RT.Binop(w.lib, m2.heap, EQ, v, p));
      var matches :- IsTrue(same);
      Ok((matches, m3))
  }

  function BindFields(w: World, cfg: Config, sc: Scope, subject: Subject, names: seq<Expr>, k: nat, m: Mem)
    : (r: Result<Mem>)
    ensures r.Ok? ==> SameShape(m, r.value)
    decreases names
  {
    if names == [] then Ok(m)
    else
      var _ :- Need(names[0].Name?, NotImplemented);
      var (v, m1) :- EvalSubject(w, cfg, sc, subject, m);
      var field :- RT.Field(m1.heap, v, k);
      var m2 :- Write(m1, NextSlot(sc), field);
      BindFields(w, cfg, Allocate(sc, names[0].name), subject, names[1..], k + 1, m2)
  }

  // Loops

  function EvalLoop(w: World, fuel: nat, cfg: Config, sc: Scope, s: Stmt, m: Mem): (r: Result<(Flow, Mem)>)
    requires s.Loop?
    ensures r.Ok? ==> SameShape(m, r.value.1)
    decreases fuel, s, 4
  {
    match s.header
    case While(condition) => EvalWhile(w, fuel, cfg, sc, s, m)
    case Repeat(count, span) =>
      var sc1 := Allocate(sc, HiddenName("repeat", span));
      var (v, m1) :- EvalExpr(w, fuel, cfg, sc1, count, m);
      var m2 :- Write(m1, NextSlot(sc), v);
      EvalRepeat(w, fuel, cfg, sc1, NextSlot(sc), s, m2)
    case For(variable, from, to, step) =>
      var (start, m1) :- EvalMaybe(w, fuel, cfg, sc, from, m);
      var m2 :- Write(m1, NextSlot(sc), if start.Some? then start.value else RT.Int(0));
      EvalFor(w, fuel, cfg, sc, s, m2)
  }

  function EvalWhile(w: World, fuel: nat, cfg: Config, sc: Scope, s: Stmt, m: Mem): (r: Result<(Flow, Mem)>)
    requires s.Loop? && s.header.While?
    ensures r.Ok? ==> SameShape(m, r.value.1)
    decreases fuel, s, 3
  {
    var (v, m1) :- EvalExpr(w, fuel, cfg, sc, s.header.condition, m);
    var holds :- IsTrue(v);
    if !holds then Ok((Normal, m1))
    else
      var (flow, m2) :- EvalBlock(w, fuel, cfg, sc, s.body, m1);
      if flow.Return? then Ok((flow, m2))
      else if flow.Exit? then Ok((Normal, m2))
      else if fuel == 0 then Err(OutOfFuel)
      else EvalWhile(w, fuel - 1, cfg, sc, s, m2)
  }

  /** Runs the body while the remaining count is positive. */
  function EvalRepeat(w: World, fuel: nat, cfg: Config, sc: Scope, x: Variable, s: Stmt, m: Mem)
    : (r: Result<(Flow, Mem)>)
    requires s.Loop?
    ensures r.Ok? ==> SameShape(m, r.value.1)
    decreases fuel, s, 3
  {
    var v :- Read(m, x);
    var (more, h) :- RT.Binop(w.lib, m.heap, GT, v, RT.Int(0));
    var m1 := m.(heap := h);
    var holds :- IsTrue(more);
    if !holds then Ok((Normal, m1))
    else
      var (flow, m2) :- EvalBlock(w, fuel, cfg, sc, s.body, m1);
      if flow.Return? then Ok((flow, m2))
      else if flow.Exit? then Ok((Normal, m2))
      else if fuel == 0 then Err(OutOfFuel)
      else
        var m3 :- Advance(w, x, SUB, RT.Int(1), m2);
        EvalRepeat(w, fuel - 1, cfg, sc, x, s, m3)
  }

  function Advance(w: World, x: Variable, op: Op, delta: Value, m: Mem): (r: Result<Mem>)
    ensures r.Ok? ==> SameShape(m, r.value)
  {
    var v :- Read(m, x);
    var (next, h) :- RT.Binop(w.lib, m.heap, op, v, delta);
    Write(m.(heap := h), x, next)
  }

  /** `sc` is the scope before the loop: bounds and step never see the loop variable. */
  function EvalFor(w: World, fuel: nat, cfg: Config, sc: Scope, s: Stmt, m: Mem): (r: Result<(Flow, Mem)>)
    requires s.Loop? && s.header.For?
    ensures r.Ok? ==> SameShape(m, r.value.1)
    decreases fuel, s, 3
  {
    var x := NextSlot(sc);
    var (more, m1) :- EvalGuard(w, fuel, cfg, sc, s, m);
    if !more then Ok((Normal, m1))
    else
      var (flow, m2) :- EvalBlock(w, fuel, cfg, Allocate(sc, s.header.variable), s.body, m1);
      if flow.Return? then Ok((flow, m2))
      else if flow.Exit? then Ok((Normal, m2))
      else if fuel == 0 then Err(OutOfFuel)
      else
        var v :- Read(m2, x);
        var (delta, m3) :- EvalStep(w, fuel, cfg, sc, s.header.step, m2);
        var (next, h) :- RT.Binop(w.lib, m3.heap, ADD, v, delta);
        var m4 :- Write(m3.(heap := h), x, next);
        EvalFor(w, fuel - 1, cfg, sc, s, m4)
  }

  /** A missing step is 1. */
  function EvalStep(w: World, fuel: nat, cfg: Config, sc: Scope, step: MaybeExpr, m: Mem): (r: Result<ValueAnd>)
    ensures r.Ok? ==> SameFrame(m, r.value.1)
    decreases fuel, step
  {
    if step.Absent? then Ok((RT.Int(1), m)) else EvalExpr(w, fuel, cfg, sc, step.expr, m)
  }

  /** `(step > 0 and variable <= to) or (step <= 0 and variable >= to)`, all of it strict;
      without an upper bound the loop is unbounded. */
  function EvalGuard(w: World, fuel: nat, cfg: Config, sc: Scope, s: Stmt, m: Mem): (r: Result<(bool, Mem)>)
    requires s.Loop? && s.header.For?
    ensures r.Ok? ==> SameFrame(m, r.value.1)
    decreases fuel, s, 2
  {
    if s.header.to.Absent? then Ok((true, m))
    else
      var (up, m1) :- EvalHalf(w, fuel, cfg, sc, s, GT, LEQ, m);
      var (down, m2) :- EvalHalf(w, fuel, cfg, sc, s, LEQ, GEQ, m1);
      var (either, m3) :- InHeap(m2, RT.Binop(w.lib, m2.heap, OR, up, down));
      var more :- IsTrue(either);
      Ok((more, m3))
  }

  function EvalHalf(w: World, fuel: nat, cfg: Config, sc: Scope, s: Stmt, sign: Op, side: Op, m: Mem)
    : (r: Result<ValueAnd>)
    requires s.Loop? && s.header.For? && s.header.to.Present?
    ensures r.Ok? ==> SameFrame(m, r.value.1)
    decreases fuel, s, 1
  {
    var (delta, m1) :- EvalStep(w, fuel, cfg, sc, s.header.step, m);
    var (p, m2) :- InHeap(m1, RT.Binop(w.lib, m1.heap, sign, delta, RT.Int(0)));
    var v :- Read(m2, NextSlot(sc));
    var (bound, m3) :- EvalExpr(w, fuel, cfg, sc, s.header.to.expr, m2);
    var (q, m4) :- InHeap(m3, RT.Binop(w.lib, m3.heap, side, v, bound));
    InHeap(m4, RT.Binop(w.lib, m4.heap, AND, p, q))
  }
}
