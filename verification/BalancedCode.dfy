/** Everything the code generator emits is balanced: an expression leaves one value, a
    statement none, branches meet at equal depth, END sees exactly the result, jumps land,
    and every slot and callee exists. */
module BalancedCode {
  import opened Results
  import opened Bytecode
  import opened Numbers
  import opened Ast
  import opened Scoping
  import opened Codegen
  import opened Balance
  import M = Machine
  import RT = Runtime
  import StringTable

  /** Constructors know their schemas. */
  predicate SchemasMatch(x: Ctx) {
    forall v :: v in x.cfg.variants ==>
      var info := x.cfg.variants[v];
      info.schema < |x.lib.schemas| && |x.lib.schemas[info.schema].fields| == |info.fields|
  }

  /** Visible slots and the next ones are inside the frame. */
  predicate InScope(x: Ctx, sc: Scope) {
    && SlotsBelow(sc) && sc.localCounter <= x.locals && sc.globalCounter <= x.globals
    && (forall a :: a in sc.args ==> sc.args[a] < x.args)
  }

  // Calls give each callee the arguments it takes

  predicate CallMatches(cfg: Config, f: Expr, n: nat) {
    match CalleeOf(cfg, f)
    case Library(_) => n == 1
    case Static(_) => f.Name? && f.name in cfg.callTargets && cfg.callTargets[f.name].1 == n
    case Computed => true
  }

  predicate ExprMatches(cfg: Config, e: Expr)
    decreases e
  {
    match e
    case Binary(_, left, right) => ExprMatches(cfg, left) && ExprMatches(cfg, right)
    case Unary(_, operand) => ExprMatches(cfg, operand)
    case TupleConstruct(elements) => forall x :: x in elements ==> ExprMatches(cfg, x)
    case FunctionCall(f, arguments) =>
      && (forall x :: x in arguments ==> ExprMatches(cfg, x)) && ExprMatches(cfg, f)
      && ((f.Name? && f.name in cfg.variants) || CallMatches(cfg, f, |arguments|))
    case Subscript(collection, index) => ExprMatches(cfg, collection) && ExprMatches(cfg, index)
    case SliceExpr(collection, from, to) => ExprMatches(cfg, collection) && MaybeMatches(cfg, from) && MaybeMatches(cfg, to)
    case _ => true
  }

  predicate MaybeMatches(cfg: Config, e: MaybeExpr)
    decreases e
  {
    e.Absent? || ExprMatches(cfg, e.expr)
  }

  predicate TargetMatches(cfg: Config, target: LValue) {
    match target
    case NameTarget(_) => true
    case SubscriptTarget(_, index) => ExprMatches(cfg, index)
    case SliceTarget(_, from, to) => MaybeMatches(cfg, from) && MaybeMatches(cfg, to)
    case FieldTarget(left, _) => ExprMatches(cfg, left)
  }

  predicate StmtMatches(cfg: Config, s: Stmt)
    decreases s
  {
    match s
    case Declaration(_, value) => ExprMatches(cfg, value)
    case Assignment(target, value) => ExprMatches(cfg, value) && TargetMatches(cfg, target)
    case ProcedureCall(procedure, arguments) =>
      ExprMatches(cfg, procedure) && (forall x :: x in arguments ==> ExprMatches(cfg, x)) && CallMatches(cfg, procedure, |arguments|)
    case Conditional(condition, thenBody, elseBody) =>
      ExprMatches(cfg, condition) && BlockMatches(cfg, thenBody) && ElseMatches(cfg, elseBody)
    case ValueMatch(_, subject, cases, elseBody) =>
      ExprMatches(cfg, subject) && CasesMatch(cfg, cases) && ElseMatches(cfg, elseBody)
    case Loop(header, body) => HeaderMatches(cfg, header) && BlockMatches(cfg, body)
    case Output(_, values) => (forall x :: x in values ==> ExprMatches(cfg, x)) && |values| < NEWLINE_FLAG
    case Input(_, variables) => |variables| < NEWLINE_FLAG
    case ReturnFromFunction(result) => ExprMatches(cfg, result)
    case _ => true
  }

  predicate HeaderMatches(cfg: Config, h: LoopHeader) {
    match h
    case While(condition) => ExprMatches(cfg, condition)
    case Repeat(count, _) => ExprMatches(cfg, count)
    case For(_, from, to, step) => MaybeMatches(cfg, from) && MaybeMatches(cfg, to) && MaybeMatches(cfg, step)
  }

  predicate BlockMatches(cfg: Config, stmts: seq<Stmt>)
    decreases stmts
  {
    stmts == [] || (StmtMatches(cfg, stmts[0]) && BlockMatches(cfg, stmts[1..]))
  }

  predicate ElseMatches(cfg: Config, elseBody: MaybeBody)
    decreases elseBody
  {
    elseBody.NoBody? || BlockMatches(cfg, elseBody.stmts)
  }

  predicate CasesMatch(cfg: Config, cases: seq<Case>)
    decreases cases
  {
    cases == [] ||
    ((forall x :: x in cases[0].values ==> ExprMatches(cfg, x)) && BlockMatches(cfg, cases[0].body) && CasesMatch(cfg, cases[1..]))
  }

  // Expressions

  /** There is code, and it leaves `n` more temporaries. */
  ghost predicate RisesIn(x: Ctx, r: Result<(Strings, Code)>, n: nat) {
    match r case Ok((_, code)) => Rises(x, code, n) case Err(_) => false
  }

  /** There is code, and it is balanced. */
  ghost predicate BalancedIn(x: Ctx, r: Emitted, ends: seq<string>) {
    match r case Ok((_, code)) => Balanced(x, code, ends) case Err(_) => false
  }

  lemma NameRises(x: Ctx, sc: Scope, name: string)
    requires SchemasMatch(x) && InScope(x, sc) && EmitName(x.cfg, sc, name).Ok?
    ensures match EmitName(x.cfg, sc, name) case Ok(code) => Rises(x, code, 1) case Err(_) => false
  {
    var i := EmitName(x.cfg, sc, name).value[0];
    if name !in x.cfg.variants && name in x.cfg.callTargets {
      assert x.cfg.callTargets[name] in x.cfg.callTargets.Values;
    }
    RisesOne(x, i);
  }

  lemma {:induction false} ExprRises(x: Ctx, sc: Scope, tab: Strings, e: Expr)
    requires SchemasMatch(x) && InScope(x, sc) && ExprMatches(x.cfg, e) && EmitExpr(x.cfg, sc, tab, e).Ok?
    ensures RisesIn(x, EmitExpr(x.cfg, sc, tab, e), 1)
    decreases e, 1
  {
    hide Rises, SchemasMatch, InScope, DepthAfter, Fits;
    if e.Name? {
      NameRises(x, sc, e.name);
    } else if e.Binary? || e.Unary? {
      OperatorRises(x, sc, tab, e);
    } else if e.TupleConstruct? {
      ExprsRise(x, sc, tab, e.elements);
      TupleOp(x, |e.elements|);
      RisesOp(x, EmitExprs(x.cfg, sc, tab, e.elements).value.1, |e.elements|, TUPLE(|e.elements|), 1);
    } else if e.FunctionCall? {
      CallRises(x, sc, tab, e);
    } else if e.Subscript? || e.SliceExpr? {
      AccessRises(x, sc, tab, e);
    } else {
      LiteralRises(x, sc, tab, e);
    }
  }

  lemma LiteralRises(x: Ctx, sc: Scope, tab: Strings, e: Expr)
    requires e.IntegerLit? || e.BooleanLit? || e.RealLit? || e.TextLit? || e.NullLit?
    requires EmitExpr(x.cfg, sc, tab, e).Ok?
    ensures RisesIn(x, EmitExpr(x.cfg, sc, tab, e), 1)
  {
    hide Rises;
    RisesOne(x, EmitExpr(x.cfg, sc, tab, e).value.1[0]);
  }

  lemma TupleOp(x: Ctx, n: nat)
    ensures Fits(x, TUPLE(n)) && forall d: nat :: d >= n ==> DepthAfter(x.lib, TUPLE(n), d) == Some(d - n + 1)
  {
  }

  /** An instruction that takes `m` operands and leaves `n` values. */
  ghost predicate Takes(x: Ctx, i: Instr, m: nat, n: nat) {
    Straight([i]) && Fits(x, i) && forall d: nat :: d >= m ==> DepthAfter(x.lib, i, d) == Some(d - m + n)
  }

  /** Instructions that only the runtime library is concerned with. */
  predicate IsPlain(i: Instr) {
    !i.LABEL? && !i.NOP? && !i.LINE? && !i.JMP? && !i.CJMP? && !i.END? && !i.CALL? && !i.CALLC? && !i.BEGIN? && !i.LOAD? && !i.STORE?
  }

  lemma TakesPops(x: Ctx, i: Instr)
    requires IsPlain(i) && Fits(x, i)
    ensures Takes(x, i, M.Pops(x.lib, i), Pushes(i))
  {
    hide M.Pops, Pushes, Fits;
  }

  lemma SimpleOps(x: Ctx, op: Op, uop: UnaryOp, index: int)
    ensures Takes(x, BINOP(op), 2, 1) && Takes(x, UNARY(uop), 1, 1) && Takes(x, FIELD(index), 1, 1)
    ensures Takes(x, CALLBUILTIN(Llength, 0), 1, 1) && Takes(x, ELEM, 2, 1)
  {
    hide Takes;
    TakesPops(x, BINOP(op));
    TakesPops(x, UNARY(uop));
    TakesPops(x, FIELD(index));
    TakesPops(x, CALLBUILTIN(Llength, 0));
    TakesPops(x, ELEM);
  }

  lemma StoreOps(x: Ctx, index: int)
    ensures Takes(x, CONST(index), 0, 1) && Takes(x, STS, 2, 0) && Takes(x, STA, 3, 1) && Takes(x, DROP, 1, 0)
    ensures Takes(x, SETFIELD(index), 2, 0) && Takes(x, ISVARIANT(index), 1, 1) && Takes(x, FIELD(index), 1, 1)
  {
    hide Takes;
    TakesPops(x, CONST(index));
    TakesPops(x, STS);
    TakesPops(x, STA);
    TakesPops(x, DROP);
    TakesPops(x, SETFIELD(index));
    TakesPops(x, ISVARIANT(index));
    TakesPops(x, FIELD(index));
  }

  lemma RisesTakes(x: Ctx, a: Code, m: nat, i: Instr, n: nat)
    requires Rises(x, a, m) && Takes(x, i, m, n)
    ensures Rises(x, a + [i], n)
  {
    hide Rises, Fits, DepthAfter;
    RisesOp(x, a, m, i, n);
  }

  /** The same with values below that stay. */
  lemma RisesTakesOver(x: Ctx, a: Code, k: nat, m: nat, i: Instr, n: nat)
    requires Rises(x, a, k + m) && Takes(x, i, m, n)
    ensures Rises(x, a + [i], k + n)
  {
    hide Rises, Fits, DepthAfter;
    RisesOp(x, a, k + m, i, k + n);
  }

  lemma {:induction false} OperatorRises(x: Ctx, sc: Scope, tab: Strings, e: Expr)
    requires e.Binary? || e.Unary?
    requires SchemasMatch(x) && InScope(x, sc) && ExprMatches(x.cfg, e) && EmitExpr(x.cfg, sc, tab, e).Ok?
    ensures RisesIn(x, EmitExpr(x.cfg, sc, tab, e), 1)
    decreases e, 0
  {
    hide Rises, Takes, SchemasMatch, InScope;
    if e.Unary? {
      var code := EmitExpr(x.cfg, sc, tab, e.operand).value.1;
      ExprRises(x, sc, tab, e.operand);
      SimpleOps(x, ADD, if e.unary.Minus? then Negate else Not, 0);
      if e.unary.Plus? { assert code + [] == code; } else { RisesTakes(x, code, 1, UnaryCode(e.unary)[0], 1); }
    } else if e.operator.Dot? {
      ExprRises(x, sc, tab, e.left);
      SimpleOps(x, ADD, Not, x.cfg.fieldIndices[e.right.name]);
      RisesTakes(x, EmitExpr(x.cfg, sc, tab, e.left).value.1, 1, FIELD(x.cfg.fieldIndices[e.right.name]), 1);
    } else {
      var op := Operator(e.operator).value;
      var (tab1, a) := EmitExpr(x.cfg, sc, tab, e.left).value;
      var b := EmitExpr(x.cfg, sc, tab1, e.right).value.1;
      ExprRises(x, sc, tab, e.left);
      ExprRises(x, sc, tab1, e.right);
      SimpleOps(x, op, Not, 0);
      RisesSeq(x, a, 1, b, 1);
      RisesTakes(x, a + b, 2, BINOP(op), 1);
    }
  }

  lemma {:induction false} ExprsRise(x: Ctx, sc: Scope, tab: Strings, es: seq<Expr>)
    requires SchemasMatch(x) && InScope(x, sc) && (forall e :: e in es ==> ExprMatches(x.cfg, e)) && EmitExprs(x.cfg, sc, tab, es).Ok?
    ensures RisesIn(x, EmitExprs(x.cfg, sc, tab, es), |es|)
    decreases es, 0
  {
    hide Rises, SchemasMatch, InScope, EmitExpr, ExprMatches;
    if es == [] {
      RisesNone(x);
    } else {
      var (tab1, first) := EmitExpr(x.cfg, sc, tab, es[0]).value;
      ExprRises(x, sc, tab, es[0]);
      ExprsRise(x, sc, tab1, es[1..]);
      RisesSeq(x, first, 1, EmitExprs(x.cfg, sc, tab1, es[1..]).value.1, |es| - 1);
    }
  }

  function Count(e: MaybeExpr): nat { if e.Present? then 1 else 0 }

  lemma {:induction false} MaybeRises(x: Ctx, sc: Scope, tab: Strings, e: MaybeExpr)
    requires SchemasMatch(x) && InScope(x, sc) && MaybeMatches(x.cfg, e) && EmitMaybe(x.cfg, sc, tab, e).Ok?
    ensures RisesIn(x, EmitMaybe(x.cfg, sc, tab, e), Count(e))
    decreases e, 0
  {
    hide Rises, SchemasMatch, InScope, EmitExpr, ExprMatches;
    if e.Absent? { RisesNone(x); } else { ExprRises(x, sc, tab, e.expr); }
  }

  lemma SliceOp(x: Ctx, from: MaybeExpr, to: MaybeExpr)
    ensures Takes(x, SLICE(BoundsMask(from, to)), 1 + Count(from) + Count(to), 1)
  {
  }

  lemma {:induction false} AccessRises(x: Ctx, sc: Scope, tab: Strings, e: Expr)
    requires e.Subscript? || e.SliceExpr?
    requires SchemasMatch(x) && InScope(x, sc) && ExprMatches(x.cfg, e) && EmitExpr(x.cfg, sc, tab, e).Ok?
    ensures RisesIn(x, EmitExpr(x.cfg, sc, tab, e), 1)
    decreases e, 0
  {
    hide Rises, Takes, SchemasMatch, InScope;
    var (tab1, c) := EmitExpr(x.cfg, sc, tab, e.collection).value;
    ExprRises(x, sc, tab, e.collection);
    if e.Subscript? {
      var i := EmitExpr(x.cfg, sc, tab1, e.index).value.1;
      ExprRises(x, sc, tab1, e.index);
      SimpleOps(x, ADD, Not, 0);
      RisesSeq(x, c, 1, i, 1);
      RisesTakes(x, c + i, 2, ELEM, 1);
    } else {
      var (tab2, a) := EmitMaybe(x.cfg, sc, tab1, e.from).value;
      var b := EmitMaybe(x.cfg, sc, tab2, e.to).value.1;
      MaybeRises(x, sc, tab1, e.from);
      MaybeRises(x, sc, tab2, e.to);
      RisesSeq(x, c, 1, a, Count(e.from));
      RisesSeq(x, c + a, 1 + Count(e.from), b, Count(e.to));
      SliceOp(x, e.from, e.to);
      RisesTakes(x, c + a + b, 1 + Count(e.from) + Count(e.to), SLICE(BoundsMask(e.from, e.to)), 1);
    }
  }

  // Calls

  function CalleeCount(cfg: Config, f: Expr): nat { if CalleeOf(cfg, f).Computed? then 1 else 0 }

  lemma CallOp(x: Ctx, f: Expr, n: nat)
    requires CallMatches(x.cfg, f, n)
    ensures Takes(x, CallCode(CalleeOf(x.cfg, f), n), CalleeCount(x.cfg, f) + n, 1)
  {
    var i := CallCode(CalleeOf(x.cfg, f), n);
    if CalleeOf(x.cfg, f).Static? {
      assert x.cfg.callTargets[f.name] in x.cfg.callTargets.Values;
      assert Fits(x, i);
    } else if CalleeOf(x.cfg, f).Library? {
      NamedBuiltin(f.name);
    }
  }

  lemma NamedBuiltin(name: string)
    requires BuiltinNamed(name).Some?
    ensures BuiltinNamed(name).value != Lread && BuiltinNamed(name).value != Lwrite
  {
  }

  lemma {:induction false} CalleeRises(x: Ctx, sc: Scope, tab: Strings, f: Expr)
    requires SchemasMatch(x) && InScope(x, sc) && ExprMatches(x.cfg, f) && EmitCallee(x.cfg, sc, tab, f).Ok?
    ensures RisesIn(x, EmitCallee(x.cfg, sc, tab, f), CalleeCount(x.cfg, f))
    decreases f, 2
  {
    hide Rises, SchemasMatch, InScope, EmitExpr, ExprMatches;
    if CalleeOf(x.cfg, f).Computed? { ExprRises(x, sc, tab, f); } else { RisesNone(x); }
  }

  /** Callee, arguments and call instruction leave the result. */
  lemma CallTogether(x: Ctx, f: Expr, n: nat, c: Code, code: Code)
    requires CallMatches(x.cfg, f, n) && Rises(x, c, CalleeCount(x.cfg, f)) && Rises(x, code, n)
    ensures Rises(x, c + code + [CallCode(CalleeOf(x.cfg, f), n)], 1)
  {
    hide Rises, Takes, CallMatches, CalleeOf, CallCode;
    RisesSeq(x, c, CalleeCount(x.cfg, f), code, n);
    CallOp(x, f, n);
    RisesTakes(x, c + code, CalleeCount(x.cfg, f) + n, CallCode(CalleeOf(x.cfg, f), n), 1);
  }

  lemma VariantOp(x: Ctx, name: string)
    requires SchemasMatch(x) && name in x.cfg.variants
    ensures Takes(x, VARIANT(x.cfg.variants[name].schema), |x.cfg.variants[name].fields|, 1)
  {
  }

  lemma {:induction false} CallRises(x: Ctx, sc: Scope, tab: Strings, e: Expr)
    requires e.FunctionCall?
    requires SchemasMatch(x) && InScope(x, sc) && ExprMatches(x.cfg, e) && EmitExpr(x.cfg, sc, tab, e).Ok?
    ensures RisesIn(x, EmitExpr(x.cfg, sc, tab, e), 1)
    decreases e, 0
  {
    hide Rises, Takes, SchemasMatch, InScope, CallMatches, CalleeOf, CallCode, EmitCallee;
    var f, n := e.function_, |e.arguments|;
    if f.Name? && f.name in x.cfg.variants {
      ExprsRise(x, sc, tab, e.arguments);
      VariantOp(x, f.name);
      RisesTakes(x, EmitExprs(x.cfg, sc, tab, e.arguments).value.1, n, VARIANT(x.cfg.variants[f.name].schema), 1);
    } else {
      var (tab1, c) := EmitCallee(x.cfg, sc, tab, f).value;
      CalleeRises(x, sc, tab, f);
      ExprsRise(x, sc, tab1, e.arguments);
      CallTogether(x, f, n, c, EmitExprs(x.cfg, sc, tab1, e.arguments).value.1);
    }
  }

  // Scopes along a statement

  lemma MidScope(x: Ctx, sc: Scope, mid: Scope, after: Scope, m: nat, n: nat)
    requires Extends(sc, mid, m) && Extends(mid, after, n) && InScope(x, sc)
    requires after.localCounter <= x.locals && after.globalCounter <= x.globals
    ensures InScope(x, mid) && InScope(x, after)
  {
  }

  predicate Room(x: Ctx, sc: Scope) { sc.localCounter <= x.locals && sc.globalCounter <= x.globals }

  lemma SlotOps(x: Ctx, v: Variable)
    requires SlotFits(x, v.rel, v.index)
    ensures Takes(x, LoadOf(v), 0, 1) && Takes(x, StoreTo(v), 1, 0)
  {
  }

  lemma NewSlot(x: Ctx, sc: Scope, name: string)
    requires Room(x, Allocate(sc, name))
    ensures SlotFits(x, NextSlot(sc).rel, NextSlot(sc).index)
    ensures Takes(x, LoadOf(NextSlot(sc)), 0, 1) && Takes(x, StoreTo(NextSlot(sc)), 1, 0)
  {
    SlotOps(x, NextSlot(sc));
  }

  lemma FoundSlot(x: Ctx, sc: Scope, name: string)
    requires InScope(x, sc) && FindVariable(sc, name).Ok?
    ensures var v := FindVariable(sc, name).value; Takes(x, LoadOf(v), 0, 1) && Takes(x, StoreTo(v), 1, 0)
  {
    SlotOps(x, FindVariable(sc, name).value);
  }

  // Assignment: the value is below, the store code uses it up

  lemma {:induction false} AssignStores(x: Ctx, sc: Scope, tab: Strings, target: LValue, a: Code)
    requires SchemasMatch(x) && InScope(x, sc) && TargetMatches(x.cfg, target) && EmitAssign(x.cfg, sc, tab, target).Ok?
    requires Rises(x, a, 1)
    ensures Rises(x, a + EmitAssign(x.cfg, sc, tab, target).value.1, 0)
  {
    hide Rises, Takes, SchemasMatch, InScope, EmitExpr, EmitMaybe, ExprMatches, FindVariable;
    var code := EmitAssign(x.cfg, sc, tab, target).value.1;
    StoreOps(x, 0);
    match target
    case NameTarget(name) =>
      FoundSlot(x, sc, name);
      RisesTakes(x, a, 1, code[0], 0);
    case SubscriptTarget(collection, index) =>
      var i, load := EmitExpr(x.cfg, sc, tab, index).value.1, LoadOf(FindVariable(sc, collection.name).value);
      FoundSlot(x, sc, collection.name);
      ExprRises(x, sc, tab, index);
      RisesSeq(x, a, 1, i, 1);
      RisesTakesOver(x, a + i, 2, 0, load, 1);
      RisesTakes(x, a + i + [load], 3, STA, 1);
      RisesTakes(x, a + i + [load] + [STA], 1, DROP, 0);
      assert a + code == a + i + [load] + [STA] + [DROP];
    case SliceTarget(collection, from, to) =>
      var load, cut := LoadOf(FindVariable(sc, collection.name).value), SLICE(BoundsMask(from, to));
      var (tab1, p) := EmitMaybe(x.cfg, sc, tab, from).value;
      var q := EmitMaybe(x.cfg, sc, tab1, to).value.1;
      FoundSlot(x, sc, collection.name);
      MaybeRises(x, sc, tab, from);
      MaybeRises(x, sc, tab1, to);
      SliceOp(x, from, to);
      RisesTakesOver(x, a, 1, 0, load, 1);
      RisesSeq(x, a + [load], 2, p, Count(from));
      RisesSeq(x, a + [load] + p, 2 + Count(from), q, Count(to));
      RisesTakesOver(x, a + [load] + p + q, 1, 1 + Count(from) + Count(to), cut, 1);
      RisesTakes(x, a + [load] + p + q + [cut], 2, STS, 0);
      assert a + code == a + [load] + p + q + [cut] + [STS];
    case FieldTarget(left, field) =>
      var l, set_ := EmitExpr(x.cfg, sc, tab, left).value.1, SETFIELD(x.cfg.fieldIndices[field]);
      ExprRises(x, sc, tab, left);
      StoreOps(x, x.cfg.fieldIndices[field]);
      RisesSeq(x, a, 1, l, 1);
      RisesTakes(x, a + l, 2, set_, 0);
      assert a + code == a + l + [set_];
  }

  // Statements

  ghost predicate StmtReady(x: Ctx, env: GenEnv, s: Stmt) {
    && SchemasMatch(x) && InScope(x, env.scope) && Room(x, AfterStmt(x.cfg, env.scope, s))
    && StmtMatches(x.cfg, s) && EmitStmt(x.cfg, env, s).Ok?
  }

  lemma {:induction false} StmtBalanced(x: Ctx, env: GenEnv, s: Stmt)
    requires StmtReady(x, env, s)
    ensures BalancedIn(x, EmitStmt(x.cfg, env, s), env.ends)
    ensures InScope(x, AfterStmt(x.cfg, env.scope, s))
    decreases s, 2
  {
    hide Balanced, SchemasMatch, AfterStmt, StmtMatches, EmitStmt, SlotsBelow;
    StmtExtends(x.cfg, env.scope, s);
    ExtendsSelf(env.scope, 0);
    MidScope(x, env.scope, env.scope, AfterStmt(x.cfg, env.scope, s), 0, CountStmt(x.cfg, s));
    if s.Conditional? {
      ConditionalBalanced(x, env, s);
    } else if s.ValueMatch? {
      MatchBalanced(x, env, s);
    } else if s.Loop? {
      if s.header.While? {
        WhileBalanced(x, env, s);
      } else if s.header.Repeat? {
        RepeatBalanced(x, env, s);
      } else {
        ForBalanced(x, env, s);
      }
    } else {
      SimpleBalanced(x, env, s);
    }
  }

  lemma SimpleBalanced(x: Ctx, env: GenEnv, s: Stmt)
    requires !s.Conditional? && !s.ValueMatch? && !s.Loop? && StmtReady(x, env, s)
    ensures BalancedIn(x, EmitStmt(x.cfg, env, s), env.ends)
  {
    hide Balanced, Rises, Takes, SchemasMatch, InScope, EmitExpr, EmitExprs, EmitCallee, ExprMatches, EmitAssign, CallMatches, CalleeOf, CallCode;
    match s
    case Declaration(target, value) =>
      var code := EmitExpr(x.cfg, env.scope, env.strings, value).value.1;
      ExprRises(x, env.scope, env.strings, value);
      NewSlot(x, env.scope, target.name);
      RisesTakes(x, code, 1, StoreTo(NextSlot(env.scope)), 0);
      BalancedRises(x, code + [StoreTo(NextSlot(env.scope))], env.ends);
    case Assignment(target, value) =>
      var (tab, code) := EmitExpr(x.cfg, env.scope, env.strings, value).value;
      ExprRises(x, env.scope, env.strings, value);
      AssignStores(x, env.scope, tab, target, code);
      BalancedRises(x, code + EmitAssign(x.cfg, env.scope, tab, target).value.1, env.ends);
    case ProcedureCall(f, arguments) =>
      var (tab, c) := EmitCallee(x.cfg, env.scope, env.strings, f).value;
      var code := EmitExprs(x.cfg, env.scope, tab, arguments).value.1;
      CalleeRises(x, env.scope, env.strings, f);
      ExprsRise(x, env.scope, tab, arguments);
      CallTogether(x, f, |arguments|, c, code);
      StoreOps(x, 0);
      RisesTakes(x, c + code + [CallCode(CalleeOf(x.cfg, f), |arguments|)], 1, DROP, 0);
      BalancedRises(x, c + code + [CallCode(CalleeOf(x.cfg, f), |arguments|)] + [DROP], env.ends);
    case Output(noNewline, values) =>
      var code, write := EmitExprs(x.cfg, env.scope, env.strings, values).value.1, CALLBUILTIN(Lwrite, PackCount(|values|, !noNewline));
      ExprsRise(x, env.scope, env.strings, values);
      WriteOp(x, |values|, !noNewline);
      RisesTakes(x, code, |values|, write, 0);
      BalancedRises(x, code + [write], env.ends);
    case Input(textMode, variables) =>
      InputBalanced(x, env, s);
    case ExitLoop =>
      BalancedJump(x, env.ends[|env.ends| - 1], env.ends);
    case ReturnFromFunction(result) =>
      var code := EmitExpr(x.cfg, env.scope, env.strings, result).value.1;
      ExprRises(x, env.scope, env.strings, result);
      BalancedThen(x, code, END, env.ends);
    case _ =>
  }

  lemma WriteOp(x: Ctx, n: nat, flag: bool)
    requires n < NEWLINE_FLAG
    ensures Takes(x, CALLBUILTIN(Lwrite, PackCount(n, flag)), n, 0)
    ensures Takes(x, CALLBUILTIN(Lread, PackCount(n, flag)), 0, n)
  {
  }

  lemma InputBalanced(x: Ctx, env: GenEnv, s: Stmt)
    requires s.Input? && StmtReady(x, env, s)
    ensures BalancedIn(x, EmitStmt(x.cfg, env, s), env.ends)
  {
    hide Balanced, Rises, Takes, SchemasMatch, InScope, EmitInputs, AfterInputs;
    var n, read := |s.variables|, CALLBUILTIN(Lread, PackCount(|s.variables|, !s.textMode));
    WriteOp(x, n, !s.textMode);
    RisesNone(x);
    RisesTakes(x, [], 0, read, n);
    assert [] + [read] == [read];
    InputsStore(x, env.scope, s.variables, [read]);
    BalancedRises(x, [read] + EmitInputs(env.scope, s.variables).value.1, env.ends);
  }

  /** Each store takes one of the lines pushed before. */
  /** The first variable's slot, old or new, and the scope for the others. */
  lemma FirstInput(x: Ctx, sc: Scope, name: string, others: seq<LValue>)
    requires var sc1 := if FindVariable(sc, name).Ok? then sc else Allocate(sc, name); InScope(x, sc) && Room(x, AfterInputs(sc1, others))
    ensures var found := FindVariable(sc, name);
      && InScope(x, if found.Ok? then sc else Allocate(sc, name))
      && Takes(x, StoreTo(if found.Ok? then found.value else NextSlot(sc)), 1, 0)
  {
    hide AfterInputs, FindVariable, Takes;
    var found := FindVariable(sc, name);
    var sc1 := if found.Ok? then sc else Allocate(sc, name);
    AfterInputsExtends(sc1, others);
    ExtendsSelf(sc, 0);
    AllocateExtends(sc, name);
    MidScope(x, sc, sc1, AfterInputs(sc1, others), if found.Ok? then 0 else 1, |others|);
    if found.Ok? { FoundSlot(x, sc, name); } else { NewSlot(x, sc, name); }
  }

  lemma {:induction false} InputsStore(x: Ctx, sc: Scope, variables: seq<LValue>, a: Code)
    requires InScope(x, sc) && Room(x, AfterInputs(sc, variables)) && EmitInputs(sc, variables).Ok? && Rises(x, a, |variables|)
    ensures Rises(x, a + EmitInputs(sc, variables).value.1, 0)
    decreases |variables|
  {
    hide Rises, Takes;
    if variables == [] {
      assert a + [] == a;
    } else {
      var name := variables[0].name;
      var found := FindVariable(sc, name);
      var v := if found.Ok? then found.value else NextSlot(sc);
      var sc1 := if found.Ok? then sc else Allocate(sc, name);
      var rest := EmitInputs(sc1, variables[1..]).value.1;
      FirstInput(x, sc, name, variables[1..]);
      hide FindVariable, Allocate, NextSlot, InScope, Room;
      RisesTakesOver(x, a, |variables| - 1, 1, StoreTo(v), 0);
      InputsStore(x, sc1, variables[1..], a + [StoreTo(v)]);
      assert a + ([StoreTo(v)] + rest) == a + [StoreTo(v)] + rest;
    }
  }

  ghost predicate BlockReady(x: Ctx, env: GenEnv, stmts: seq<Stmt>) {
    && SchemasMatch(x) && InScope(x, env.scope) && Room(x, AfterBlock(x.cfg, env.scope, stmts))
    && BlockMatches(x.cfg, stmts) && EmitBlock(x.cfg, env, stmts).Ok?
  }

  lemma {:induction false} BlockBalanced(x: Ctx, env: GenEnv, stmts: seq<Stmt>)
    requires BlockReady(x, env, stmts)
    ensures BalancedIn(x, EmitBlock(x.cfg, env, stmts), env.ends)
    ensures InScope(x, AfterBlock(x.cfg, env.scope, stmts))
    decreases stmts, 3
  {
    hide Balanced, SchemasMatch, AfterStmt, StmtMatches, EmitStmt, SlotsBelow;
    if stmts == [] {
      BalancedNil(x, env.ends);
    } else {
      var (env1, first) := EmitStmt(x.cfg, env, stmts[0]).value;
      var mid, after := AfterStmt(x.cfg, env.scope, stmts[0]), AfterBlock(x.cfg, env.scope, stmts);
      StmtExtends(x.cfg, env.scope, stmts[0]);
      BlockExtends(x.cfg, mid, stmts[1..]);
      MidScope(x, env.scope, mid, after, CountStmt(x.cfg, stmts[0]), CountLocals(x.cfg, stmts[1..]));
      StmtBalanced(x, env, stmts[0]);
      BlockBalanced(x, env1, stmts[1..]);
      BalancedSeq(x, first, EmitBlock(x.cfg, env1, stmts[1..]).value.1, env.ends);
    }
  }

  ghost predicate ElseReady(x: Ctx, env: GenEnv, elseBody: MaybeBody) {
    && SchemasMatch(x) && InScope(x, env.scope) && Room(x, AfterElse(x.cfg, env.scope, elseBody))
    && ElseMatches(x.cfg, elseBody) && EmitElse(x.cfg, env, elseBody).Ok?
  }

  lemma {:induction false} ElseBalanced(x: Ctx, env: GenEnv, elseBody: MaybeBody)
    requires ElseReady(x, env, elseBody)
    ensures BalancedIn(x, EmitElse(x.cfg, env, elseBody), env.ends)
    decreases elseBody, 3
  {
    hide Balanced, SchemasMatch, AfterBlock, BlockMatches, EmitBlock, SlotsBelow;
    if elseBody.NoBody? { BalancedNil(x, env.ends); } else { BlockBalanced(x, env, elseBody.stmts); }
  }

  // Conditionals

  /** A condition and its branch, with the label in between that nothing jumps to. */
  lemma BranchBalanced(x: Ctx, cond: Code, begin: string, target: string, ends: seq<string>)
    requires Rises(x, cond, 1) && target in ends
    ensures Balanced(x, cond + [LABEL(begin), CJMP(Named(target), ISZERO)], ends)
  {
    hide Balanced, Rises;
    var branch := CJMP(Named(target), ISZERO);
    BalancedThen(x, cond, branch, ends);
    assert cond + [LABEL(begin), branch] == cond + [LABEL(begin)] + [branch];
    LabelBetween(x, cond, begin, branch, ends);
  }

  lemma LabelBetween(x: Ctx, a: Code, name: string, i: Instr, ends: seq<string>)
    requires Rises(x, a, 1) && Balanced(x, a + [i], ends)
    ensures Balanced(x, a + [LABEL(name)] + [i], ends)
  {
    DepthSplit(x.lib, a, [i], 0);
    DepthSplit(x.lib, a + [LABEL(name)], [i], 0);
    DepthSplit(x.lib, a, [LABEL(name)], 0);
    DepthOne(x.lib, LABEL(name), 1);
    LandingsSplit(x.lib, a, [i], 0);
    LandingsSplit(x.lib, a + [LABEL(name)], [i], 0);
    LandingsSplit(x.lib, a, [LABEL(name)], 0);
    TargetsSplit(a, [i]);
    TargetsSplit(a + [LABEL(name)], [i]);
    TargetsSplit(a, [LABEL(name)]);
    OneTarget(LABEL(name));
  }

  /** Code that lands on its own final label. */
  lemma CloseAtEnd(x: Ctx, a: Code, end: string, ends: seq<string>)
    requires Balanced(x, a, ends + [end])
    ensures Balanced(x, a + [LABEL(end)], ends)
  {
    hide Targets, Fits;
    BalancedLabel(x, end, ends + [end]);
    BalancedSeq(x, a, [LABEL(end)], ends + [end]);
    LandsLater(x, a, [LABEL(end)], end);
    BalancedClose(x, a + [LABEL(end)], end, ends);
  }

  /** `a` may jump to a label between it and `b`. */
  lemma CloseBetween(x: Ctx, a: Code, mark: string, b: Code, ends: seq<string>)
    requires Balanced(x, a, ends + [mark]) && Balanced(x, b, ends)
    ensures Balanced(x, a + [LABEL(mark)] + b, ends)
  {
    hide Balanced;
    CloseAtEnd(x, a, mark, ends);
    BalancedSeq(x, a + [LABEL(mark)], b, ends);
  }

  /** Both shapes of a conditional. */
  lemma ConditionalTogether(x: Ctx, cond: Code, begin: string, end: string, other: string, thenCode: Code, elseCode: Code, ends: seq<string>)
    requires Rises(x, cond, 1) && Balanced(x, thenCode, ends) && Balanced(x, elseCode, ends)
    ensures Balanced(x, ConditionalCode(cond, begin, end, thenCode, [LABEL(end)]), ends)
    ensures Balanced(x, ConditionalCode(cond, begin, other, thenCode, ElseTail(end, other, elseCode)), ends)
  {
    hide Balanced, Rises;
    var test := cond + [LABEL(begin), CJMP(Named(end), ISZERO)];
    BranchBalanced(x, cond, begin, end, ends + [end]);
    BalancedWeaken(x, thenCode, ends, ends + [end]);
    BalancedSeq(x, test, thenCode, ends + [end]);
    CloseAtEnd(x, test + thenCode, end, ends);
    assert ConditionalCode(cond, begin, end, thenCode, [LABEL(end)]) == test + thenCode + [LABEL(end)];
    var test2, all := cond + [LABEL(begin), CJMP(Named(other), ISZERO)], ends + [end] + [other];
    BranchBalanced(x, cond, begin, other, all);
    BalancedWeaken(x, thenCode, ends, all);
    BalancedSeq(x, test2, thenCode, all);
    BalancedJump(x, end, all);
    BalancedSeq(x, test2 + thenCode, [JMP(Named(end))], all);
    BalancedWeaken(x, elseCode, ends, ends + [end]);
    CloseBetween(x, test2 + thenCode + [JMP(Named(end))], other, elseCode, ends + [end]);
    CloseAtEnd(x, test2 + thenCode + [JMP(Named(end))] + [LABEL(other)] + elseCode, end, ends);
    assert ConditionalCode(cond, begin, other, thenCode, ElseTail(end, other, elseCode))
        == test2 + thenCode + [JMP(Named(end))] + [LABEL(other)] + elseCode + [LABEL(end)];
  }

  lemma OneOf(cfg: Config, env: GenEnv, s: Stmt)
    ensures s.Conditional? ==> EmitStmt(cfg, env, s) == EmitConditional(cfg, env, s)
    ensures s.ValueMatch? ==> EmitStmt(cfg, env, s) == EmitMatch(cfg, env, s)
    ensures s.Loop? && s.header.While? ==> EmitStmt(cfg, env, s) == EmitWhile(cfg, env, s)
    ensures s.Loop? && s.header.Repeat? ==> EmitStmt(cfg, env, s) == EmitRepeat(cfg, env, s)
    ensures s.Loop? && s.header.For? ==> EmitStmt(cfg, env, s) == EmitFor(cfg, env, s)
  {
    hide EmitConditional, EmitMatch, EmitWhile, EmitRepeat, EmitFor;
  }

  lemma {:induction false} ConditionalBalanced(x: Ctx, env: GenEnv, s: Stmt)
    requires s.Conditional? && StmtReady(x, env, s)
    ensures BalancedIn(x, EmitStmt(x.cfg, env, s), env.ends)
    decreases s, 1
  {
    hide Balanced, Rises, SchemasMatch, SlotsBelow, EmitStmt, EmitBlock, EmitElse, AfterBlock, AfterElse, ConditionalCode, ElseTail;
    OneOf(x.cfg, env, s);
    var n := env.labels;
    var begin, end, other := Fresh("if_begin", n), Fresh("if_skip", n + 1), Fresh("else", n + 2);
    var (tab, cond) := EmitExpr(x.cfg, env.scope, env.strings, s.condition).value;
    var env1 := env.(strings := tab, labels := if s.elseBody.Body? then n + 3 else n + 2);
    var (env2, thenCode) := EmitBlock(x.cfg, env1, s.thenBody).value;
    var mid := AfterBlock(x.cfg, env.scope, s.thenBody);
    BlockExtends(x.cfg, env.scope, s.thenBody);
    ElseExtends(x.cfg, mid, s.elseBody);
    MidScope(x, env.scope, mid, AfterElse(x.cfg, mid, s.elseBody), CountLocals(x.cfg, s.thenBody), CountElse(x.cfg, s.elseBody));
    ExprRises(x, env.scope, env.strings, s.condition);
    BlockBalanced(x, env1, s.thenBody);
    ElseBalanced(x, env2, s.elseBody);
    ConditionalTogether(x, cond, begin, end, other, thenCode, EmitElse(x.cfg, env2, s.elseBody).value.1, env.ends);
  }

  // Loops

  lemma LoopTogether(x: Ctx, loop: string, guard: Code, body: Code, advance: Code, end: string, ends: seq<string>)
    requires Balanced(x, guard, ends + [end]) && Balanced(x, body, ends + [end]) && Rises(x, advance, 0)
    ensures Balanced(x, LoopCode(loop, guard, body, advance, end), ends)
  {
    hide Balanced, Rises;
    var all := ends + [end] + [loop];
    BalancedWeaken(x, guard, ends + [end], all);
    BalancedWeaken(x, body, ends + [end], all);
    BalancedRises(x, advance, all);
    BalancedJump(x, loop, all);
    BalancedLabel(x, loop, all);
    BalancedSeq(x, guard, body, all);
    BalancedSeq(x, guard + body, advance, all);
    BalancedSeq(x, guard + body + advance, [JMP(Named(loop))], all);
    var rest := guard + body + advance + [JMP(Named(loop))];
    BalancedSeq(x, [LABEL(loop)], rest, all);
    CloseAtStart(x, loop, rest, ends + [end]);
    CloseAtEnd(x, [LABEL(loop)] + rest, end, ends);
    assert LoopCode(loop, guard, body, advance, end) == [LABEL(loop)] + rest + [LABEL(end)];
  }

  lemma CloseAtStart(x: Ctx, loop: string, rest: Code, ends: seq<string>)
    requires Balanced(x, [LABEL(loop)] + rest, ends + [loop])
    ensures Balanced(x, [LABEL(loop)] + rest, ends)
  {
    BalancedLabel(x, loop, ends);
    LandsEarlier(x, [LABEL(loop)], rest, loop);
    BalancedClose(x, [LABEL(loop)] + rest, loop, ends);
  }

  lemma {:induction false} WhileBalanced(x: Ctx, env: GenEnv, s: Stmt)
    requires IsWhile(s) && StmtReady(x, env, s)
    ensures BalancedIn(x, EmitStmt(x.cfg, env, s), env.ends)
    decreases s, 1
  {
    hide Balanced, Rises, SchemasMatch, SlotsBelow, EmitStmt, EmitBlock, AfterBlock, LoopCode;
    OneOf(x.cfg, env, s);
    var loop, end := Fresh("while_loop", env.labels), Fresh("while_end", env.labels + 1);
    var (tab, cond) := EmitExpr(x.cfg, env.scope, env.strings, s.header.condition).value;
    var env1 := env.(strings := tab, labels := env.labels + 2, ends := env.ends + [end]);
    ExprRises(x, env.scope, env.strings, s.header.condition);
    BalancedThen(x, cond, LeaveUnless(end), env.ends + [end]);
    BlockBalanced(x, env1, s.body);
    RisesNone(x);
    LoopTogether(x, loop, cond + [LeaveUnless(end)], EmitBlock(x.cfg, env1, s.body).value.1, [], end, env.ends);
  }

  lemma RepeatParts(x: Ctx, v: Variable, end: string, ends: seq<string>)
    requires SlotFits(x, v.rel, v.index)
    ensures Balanced(x, RepeatGuard(v, end), ends + [end]) && Rises(x, RepeatAdvance(v), 0)
  {
    hide Balanced, Rises, Takes;
    RisesNone(x);
    StoreOps(x, 0);
    StoreOps(x, 1);
    SimpleOps(x, GT, Not, 0);
    SimpleOps(x, SUB, Not, 0);
    SlotOps(x, v);
    RisesTakes(x, [], 0, LoadOf(v), 1);
    RisesTakesOver(x, [] + [LoadOf(v)], 1, 0, CONST(0), 1);
    RisesTakes(x, [] + [LoadOf(v)] + [CONST(0)], 2, BINOP(GT), 1);
    BalancedThen(x, [] + [LoadOf(v)] + [CONST(0)] + [BINOP(GT)], LeaveUnless(end), ends + [end]);
    RisesTakesOver(x, [] + [LoadOf(v)], 1, 0, CONST(1), 1);
    RisesTakes(x, [] + [LoadOf(v)] + [CONST(1)], 2, BINOP(SUB), 1);
    RisesTakes(x, [] + [LoadOf(v)] + [CONST(1)] + [BINOP(SUB)], 1, StoreTo(v), 0);
    assert RepeatGuard(v, end) == [] + [LoadOf(v)] + [CONST(0)] + [BINOP(GT)] + [LeaveUnless(end)];
    assert RepeatAdvance(v) == [] + [LoadOf(v)] + [CONST(1)] + [BINOP(SUB)] + [StoreTo(v)];
  }

  /** Scopes around a loop with a variable of its own. */
  lemma LoopScopes(x: Ctx, sc: Scope, s: Stmt)
    requires s.Loop? && !s.header.While? && InScope(x, sc) && Room(x, AfterStmt(x.cfg, sc, s))
    ensures var sc1 := Allocate(sc, LoopVariable(s.header));
      InScope(x, sc1) && Room(x, AfterBlock(x.cfg, sc1, s.body)) && SlotFits(x, NextSlot(sc).rel, NextSlot(sc).index)
      && Takes(x, LoadOf(NextSlot(sc)), 0, 1) && Takes(x, StoreTo(NextSlot(sc)), 1, 0)
  {
    hide AfterBlock, SlotsBelow, LoopVariable, Takes;
    var sc1 := Allocate(sc, LoopVariable(s.header));
    AllocateExtends(sc, LoopVariable(s.header));
    BlockExtends(x.cfg, sc1, s.body);
    MidScope(x, sc, sc1, AfterBlock(x.cfg, sc1, s.body), 1, CountLocals(x.cfg, s.body));
    NewSlot(x, sc, LoopVariable(s.header));
  }

  lemma {:induction false} RepeatBalanced(x: Ctx, env: GenEnv, s: Stmt)
    requires IsRepeat(s) && StmtReady(x, env, s)
    ensures BalancedIn(x, EmitStmt(x.cfg, env, s), env.ends)
    decreases s, 1
  {
    hide Balanced, Rises, Takes, SchemasMatch, InScope, EmitStmt, EmitBlock, AfterStmt, LoopCode, RepeatGuard, RepeatAdvance, Room;
    OneOf(x.cfg, env, s);
    LoopScopes(x, env.scope, s);
    var v, sc := NextSlot(env.scope), Allocate(env.scope, LoopVariable(s.header));
    var (tab, count) := EmitExpr(x.cfg, sc, env.strings, s.header.count).value;
    var loop, end := Fresh("repeat_loop", env.labels), Fresh("repeat_end", env.labels + 1);
    var env1 := env.(scope := sc, strings := tab, labels := env.labels + 2, ends := env.ends + [end]);
    var code := LoopCode(loop, RepeatGuard(v, end), EmitBlock(x.cfg, env1, s.body).value.1, RepeatAdvance(v), end);
    ExprRises(x, sc, env.strings, s.header.count);
    RisesTakes(x, count, 1, StoreTo(v), 0);
    BalancedRises(x, count + [StoreTo(v)], env.ends);
    RepeatParts(x, v, end, env.ends);
    BlockBalanced(x, env1, s.body);
    LoopTogether(x, loop, RepeatGuard(v, end), EmitBlock(x.cfg, env1, s.body).value.1, RepeatAdvance(v), end, env.ends);
    BalancedSeq(x, count + [StoreTo(v)], code, env.ends);
  }

  // Ranged loops

  lemma HalfRises(x: Ctx, v: Variable, step: Code, to: Code, sign: Op, side: Op)
    requires SlotFits(x, v.rel, v.index) && Rises(x, step, 1) && Rises(x, to, 1)
    ensures Rises(x, HalfGuard(v, step, to, sign, side), 1)
  {
    hide Rises, Takes;
    StoreOps(x, 0);
    SimpleOps(x, sign, Not, 0);
    SimpleOps(x, side, Not, 0);
    SimpleOps(x, AND, Not, 0);
    SlotOps(x, v);
    RisesTakesOver(x, step, 1, 0, CONST(0), 1);
    RisesTakes(x, step + [CONST(0)], 2, BINOP(sign), 1);
    RisesTakesOver(x, step + [CONST(0)] + [BINOP(sign)], 1, 0, LoadOf(v), 1);
    RisesSeq(x, step + [CONST(0)] + [BINOP(sign)] + [LoadOf(v)], 2, to, 1);
    RisesTakesOver(x, step + [CONST(0)] + [BINOP(sign)] + [LoadOf(v)] + to, 1, 2, BINOP(side), 1);
    RisesTakes(x, step + [CONST(0)] + [BINOP(sign)] + [LoadOf(v)] + to + [BINOP(side)], 2, BINOP(AND), 1);
  }

  lemma TestBalanced(x: Ctx, bound: MaybeExpr, v: Variable, step: Code, to: Code, simple: bool, end: string, ends: seq<string>)
    requires SlotFits(x, v.rel, v.index) && Rises(x, step, 1) && (bound.Present? ==> Rises(x, to, 1))
    ensures Balanced(x, ForTest(bound, v, step, to, simple, end), ends + [end])
  {
    hide Balanced, Rises, Takes, HalfGuard;
    if bound.Absent? {
      BalancedNil(x, ends + [end]);
    } else {
      SimpleOps(x, LEQ, Not, 0);
      SimpleOps(x, OR, Not, 0);
      SlotOps(x, v);
      RisesNone(x);
      RisesTakes(x, [], 0, LoadOf(v), 1);
      assert [] + [LoadOf(v)] == [LoadOf(v)];
      RisesSeq(x, [LoadOf(v)], 1, to, 1);
      RisesTakes(x, [LoadOf(v)] + to, 2, BINOP(LEQ), 1);
      HalfRises(x, v, step, to, GT, LEQ);
      HalfRises(x, v, step, to, LEQ, GEQ);
      RisesSeq(x, HalfGuard(v, step, to, GT, LEQ), 1, HalfGuard(v, step, to, LEQ, GEQ), 1);
      RisesTakes(x, HalfGuard(v, step, to, GT, LEQ) + HalfGuard(v, step, to, LEQ, GEQ), 2, BINOP(OR), 1);
      BalancedThen(x, ForGuard(v, step, to, simple), LeaveUnless(end), ends + [end]);
    }
  }

  lemma AdvanceRises(x: Ctx, v: Variable, step: Code)
    requires SlotFits(x, v.rel, v.index) && Rises(x, step, 1)
    ensures Rises(x, ForAdvance(v, step), 0)
  {
    hide Rises, Takes;
    SimpleOps(x, ADD, Not, 0);
    SlotOps(x, v);
    RisesNone(x);
    RisesTakes(x, [], 0, LoadOf(v), 1);
    assert [] + [LoadOf(v)] == [LoadOf(v)];
    RisesSeq(x, [LoadOf(v)], 1, step, 1);
    RisesTakes(x, [LoadOf(v)] + step, 2, BINOP(ADD), 1);
    RisesTakes(x, [LoadOf(v)] + step + [BINOP(ADD)], 1, StoreTo(v), 0);
    assert ForAdvance(v, step) == [LoadOf(v)] + step + [BINOP(ADD)] + [StoreTo(v)];
  }

  /** A part left out is replaced by a constant. */
  lemma OrConstant(x: Ctx, sc: Scope, tab: Strings, e: MaybeExpr, n: int)
    requires SchemasMatch(x) && InScope(x, sc) && MaybeMatches(x.cfg, e) && EmitMaybe(x.cfg, sc, tab, e).Ok?
    ensures Rises(x, if e.Present? then EmitMaybe(x.cfg, sc, tab, e).value.1 else [CONST(n)], 1)
  {
    hide Rises, Takes, SchemasMatch, InScope, EmitMaybe;
    MaybeRises(x, sc, tab, e);
    RisesNone(x);
    StoreOps(x, n);
    RisesTakes(x, [], 0, CONST(n), 1);
    assert [] + [CONST(n)] == [CONST(n)];
  }

  lemma {:induction false} ForBalanced(x: Ctx, env: GenEnv, s: Stmt)
    requires IsFor(s) && StmtReady(x, env, s)
    ensures BalancedIn(x, EmitStmt(x.cfg, env, s), env.ends)
    decreases s, 1
  {
    hide Balanced, Rises, Takes, SchemasMatch, InScope, EmitStmt, EmitBlock, EmitMaybe, AfterStmt, LoopCode, ForTest, ForAdvance, Room, SimpleGuard;
    OneOf(x.cfg, env, s);
    LoopScopes(x, env.scope, s);
    var h, v, sc := s.header, NextSlot(env.scope), env.scope;
    var (tab1, from) := EmitMaybe(x.cfg, sc, env.strings, h.from).value;
    var (tab2, to) := EmitMaybe(x.cfg, sc, tab1, h.to).value;
    var (tab3, given) := EmitMaybe(x.cfg, sc, tab2, h.step).value;
    var step := if h.step.Present? then given else [CONST(1)];
    var start := if h.from.Present? then from else [CONST(0)];
    var loop, end := Fresh("for_loop", env.labels), Fresh("for_end", env.labels + 1);
    var env1 := env.(scope := Allocate(sc, h.variable), strings := tab3, labels := env.labels + 2, ends := env.ends + [end]);
    var test, body := ForTest(h.to, v, step, to, SimpleGuard(h.step, to), end), EmitBlock(x.cfg, env1, s.body).value.1;
    OrConstant(x, sc, env.strings, h.from, 0);
    OrConstant(x, sc, tab2, h.step, 1);
    MaybeRises(x, sc, tab1, h.to);
    TestBalanced(x, h.to, v, step, to, SimpleGuard(h.step, to), end, env.ends);
    AdvanceRises(x, v, step);
    RisesTakes(x, start, 1, StoreTo(v), 0);
    BalancedRises(x, start + [StoreTo(v)], env.ends);
    BlockBalanced(x, env1, s.body);
    LoopTogether(x, loop, test, body, ForAdvance(v, step), end, env.ends);
    BalancedSeq(x, start + [StoreTo(v)], LoopCode(loop, test, body, ForAdvance(v, step), end), env.ends);
  }

  // Selection

  predicate SubjectFits(x: Ctx, subject: Subject) { subject.Held? ==> SlotFits(x, subject.slot.rel, subject.slot.index) }

  lemma SubjectRises(x: Ctx, sc: Scope, subject: Subject)
    requires SchemasMatch(x) && InScope(x, sc) && SubjectFits(x, subject) && EmitSubject(x.cfg, sc, subject).Ok?
    ensures match EmitSubject(x.cfg, sc, subject) case Ok(code) => Rises(x, code, 1) case Err(_) => false
  {
    hide Rises, Takes, SchemasMatch, InScope, EmitName;
    if subject.Reread? {
      NameRises(x, sc, subject.name);
    } else {
      SlotOps(x, subject.slot);
      RisesNone(x);
      RisesTakes(x, [], 0, LoadOf(subject.slot), 1);
      assert [] + [LoadOf(subject.slot)] == [LoadOf(subject.slot)];
    }
  }

  lemma {:induction false} BindingsBalanced(x: Ctx, sc: Scope, subject: Subject, names: seq<Expr>, k: nat)
    requires SchemasMatch(x) && InScope(x, sc) && SubjectFits(x, subject) && EmitBindings(x.cfg, sc, subject, names, k).Ok?
    requires Room(x, BindAll(sc, names))
    ensures Rises(x, EmitBindings(x.cfg, sc, subject, names, k).value.1, 0) && InScope(x, BindAll(sc, names))
    decreases |names|
  {
    hide Rises, Takes, SchemasMatch, EmitSubject, SlotsBelow;
    if names == [] {
      RisesNone(x);
    } else {
      var load, v := EmitSubject(x.cfg, sc, subject).value, NextSlot(sc);
      var sc1 := Allocate(sc, names[0].name);
      AllocateExtends(sc, names[0].name);
      BindAllExtends(sc1, names[1..]);
      MidScope(x, sc, sc1, BindAll(sc1, names[1..]), 1, |names| - 1);
      NewSlot(x, sc, names[0].name);
      SubjectRises(x, sc, subject);
      StoreOps(x, k);
      RisesTakes(x, load, 1, FIELD(k), 1);
      RisesTakes(x, load + [FIELD(k)], 1, StoreTo(v), 0);
      BindingsBalanced(x, sc1, subject, names[1..], k + 1);
      RisesSeq(x, load + [FIELD(k)] + [StoreTo(v)], 0, EmitBindings(x.cfg, sc1, subject, names[1..], k + 1).value.1, 0);
    }
  }

  lemma TestRises(x: Ctx, sc: Scope, tab: Strings, subject: Subject, c: Case)
    requires SchemasMatch(x) && InScope(x, sc) && SubjectFits(x, subject) && EmitTest(x.cfg, sc, tab, subject, c).Ok?
    requires forall e :: e in c.values ==> ExprMatches(x.cfg, e)
    ensures RisesIn(x, EmitTest(x.cfg, sc, tab, subject, c), 1)
  {
    hide Rises, Takes, SchemasMatch, InScope, EmitSubject, EmitExpr, ExprMatches;
    var load := EmitSubject(x.cfg, sc, subject).value;
    SubjectRises(x, sc, subject);
    if PatternOf(x.cfg, c.values[0]).Constructor? {
      StoreOps(x, PatternOf(x.cfg, c.values[0]).info.schema);
      RisesTakes(x, load, 1, ISVARIANT(PatternOf(x.cfg, c.values[0]).info.schema), 1);
    } else {
      var value := EmitExpr(x.cfg, sc, tab, c.values[0]).value.1;
      assert c.values[0] in c.values;
      ExprRises(x, sc, tab, c.values[0]);
      SimpleOps(x, EQ, Not, 0);
      RisesSeq(x, load, 1, value, 1);
      RisesTakes(x, load + value, 2, BINOP(EQ), 1);
    }
  }

  lemma CaseTogether(x: Ctx, test: Code, next: string, bind: Code, body: Code, end: string, ends: seq<string>)
    requires Rises(x, test, 1) && Rises(x, bind, 0) && Balanced(x, body, ends) && end in ends
    ensures Balanced(x, CaseCode(test, next, bind, body, end), ends)
  {
    hide Balanced, Rises;
    var all := ends + [next];
    BalancedThen(x, test, LeaveUnless(next), all);
    BalancedRises(x, bind, all);
    BalancedWeaken(x, body, ends, all);
    BalancedJump(x, end, all);
    BalancedSeq(x, test + [LeaveUnless(next)], bind, all);
    BalancedSeq(x, test + [LeaveUnless(next)] + bind, body, all);
    BalancedSeq(x, test + [LeaveUnless(next)] + bind + body, [JMP(Named(end))], all);
    CloseAtEnd(x, test + [LeaveUnless(next)] + bind + body + [JMP(Named(end))], next, ends);
    assert CaseCode(test, next, bind, body, end) == test + [LeaveUnless(next)] + bind + body + [JMP(Named(end))] + [LABEL(next)];
  }

  ghost predicate CasesReady(x: Ctx, env: GenEnv, subject: Subject, end: string, cases: seq<Case>) {
    && SchemasMatch(x) && InScope(x, env.scope) && Room(x, AfterCases(x.cfg, env.scope, cases)) && SubjectFits(x, subject)
    && CasesMatch(x.cfg, cases) && EmitCases(x.cfg, env, subject, end, cases).Ok?
  }

  /** Scopes along one case. */
  lemma CaseScopes(x: Ctx, sc: Scope, cases: seq<Case>)
    requires cases != [] && InScope(x, sc) && Room(x, AfterCases(x.cfg, sc, cases))
    ensures var bound := BindAll(sc, Bindings(x.cfg, cases[0]));
      InScope(x, bound) && InScope(x, AfterCase(x.cfg, sc, cases[0])) && Room(x, AfterBlock(x.cfg, bound, cases[0].body))
      && Room(x, bound) && AfterCase(x.cfg, sc, cases[0]) == AfterBlock(x.cfg, bound, cases[0].body)
      && AfterCases(x.cfg, sc, cases) == AfterCases(x.cfg, AfterCase(x.cfg, sc, cases[0]), cases[1..])
  {
    hide AfterBlock, SlotsBelow, Bindings;
    var c := cases[0];
    var bound, mid := BindAll(sc, Bindings(x.cfg, c)), AfterCase(x.cfg, sc, c);
    BindAllExtends(sc, Bindings(x.cfg, c));
    BlockExtends(x.cfg, bound, c.body);
    CasesExtend(x.cfg, mid, cases[1..]);
    ExtendsTrans(sc, bound, mid, |Bindings(x.cfg, c)|, CountLocals(x.cfg, c.body));
    MidScope(x, sc, mid, AfterCases(x.cfg, sc, cases), |Bindings(x.cfg, c)| + CountLocals(x.cfg, c.body), CountCases(x.cfg, cases[1..]));
    MidScope(x, sc, bound, mid, |Bindings(x.cfg, c)|, CountLocals(x.cfg, c.body));
  }

  lemma {:induction false} CasesBalanced(x: Ctx, env: GenEnv, subject: Subject, end: string, cases: seq<Case>)
    requires CasesReady(x, env, subject, end, cases)
    ensures BalancedIn(x, EmitCases(x.cfg, env, subject, end, cases), env.ends + [end])
    decreases cases, 3
  {
    hide Balanced, Rises, SchemasMatch, InScope, EmitTest, EmitBindings, EmitBlock, BlockMatches, AfterBlock, BindAll, CaseCode, Room, Bindings;
    if cases == [] {
      BalancedNil(x, env.ends + [end]);
    } else {
      var c, next := cases[0], Fresh("match_next", env.labels);
      CaseScopes(x, env.scope, cases);
      var (env1, first) := EmitCase(x.cfg, env, subject, end, c).value;
      var (tab, test) := EmitTest(x.cfg, env.scope, env.strings, subject, c).value;
      var (sc, bind) := EmitBindings(x.cfg, env.scope, subject, Bindings(x.cfg, c), 0).value;
      var env0 := env.(scope := sc, strings := tab, labels := env.labels + 1);
      TestRises(x, env.scope, env.strings, subject, c);
      BindingsBalanced(x, env.scope, subject, Bindings(x.cfg, c), 0);
      BlockBalanced(x, env0, c.body);
      BalancedWeaken(x, EmitBlock(x.cfg, env0, c.body).value.1, env.ends, env.ends + [end]);
      CaseTogether(x, test, next, bind, EmitBlock(x.cfg, env0, c.body).value.1, end, env.ends + [end]);
      CasesBalanced(x, env1, subject, end, cases[1..]);
      BalancedSeq(x, first, EmitCases(x.cfg, env1, subject, end, cases[1..]).value.1, env.ends + [end]);
    }
  }

  /** Scopes along a selection. */
  lemma MatchScopes(x: Ctx, sc: Scope, s: Stmt)
    requires s.ValueMatch? && InScope(x, sc) && Room(x, AfterStmt(x.cfg, sc, s))
    ensures var sc1 := if s.subject.Name? then sc else Allocate(sc, HiddenName("match", s.span));
      InScope(x, sc1) && Room(x, AfterCases(x.cfg, sc1, s.cases)) && InScope(x, AfterCases(x.cfg, sc1, s.cases))
      && Room(x, AfterElse(x.cfg, AfterCases(x.cfg, sc1, s.cases), s.elseBody))
      && (!s.subject.Name? ==> SlotFits(x, NextSlot(sc).rel, NextSlot(sc).index) && Takes(x, StoreTo(NextSlot(sc)), 1, 0))
  {
    hide AfterCases, AfterElse, SlotsBelow, HiddenName, Takes;
    var name := HiddenName("match", s.span);
    var sc1 := if s.subject.Name? then sc else Allocate(sc, name);
    var mid := AfterCases(x.cfg, sc1, s.cases);
    var last := AfterElse(x.cfg, mid, s.elseBody);
    ExtendsSelf(sc, 0);
    AllocateExtends(sc, name);
    CasesExtend(x.cfg, sc1, s.cases);
    ElseExtends(x.cfg, mid, s.elseBody);
    ExtendsTrans(sc1, mid, last, CountCases(x.cfg, s.cases), CountElse(x.cfg, s.elseBody));
    MidScope(x, sc, sc1, last, 1, CountCases(x.cfg, s.cases) + CountElse(x.cfg, s.elseBody));
    MidScope(x, sc1, mid, last, CountCases(x.cfg, s.cases), CountElse(x.cfg, s.elseBody));
    if !s.subject.Name? { NewSlot(x, sc, name); }
  }

  lemma {:induction false} MatchBalanced(x: Ctx, env: GenEnv, s: Stmt)
    requires s.ValueMatch? && StmtReady(x, env, s)
    ensures BalancedIn(x, EmitStmt(x.cfg, env, s), env.ends)
    decreases s, 1
  {
    hide Balanced, Rises, Takes, SchemasMatch, InScope, Room, EmitStmt, EmitCases, EmitElse, EmitExpr, AfterStmt, AfterCases, AfterElse, HiddenName;
    OneOf(x.cfg, env, s);
    MatchScopes(x, env.scope, s);
    var plain, v := s.subject.Name?, NextSlot(env.scope);
    var sc := if plain then env.scope else Allocate(env.scope, HiddenName("match", s.span));
    var hold := if plain then [] else EmitExpr(x.cfg, sc, env.strings, s.subject).value.1 + [StoreTo(v)];
    var tab := if plain then env.strings else EmitExpr(x.cfg, sc, env.strings, s.subject).value.0;
    var subject, end := if plain then Reread(s.subject.name) else Held(v), Fresh("match_end", env.labels);
    var env1 := env.(scope := sc, strings := tab, labels := env.labels + 1);
    var (env2, cases) := EmitCases(x.cfg, env1, subject, end, s.cases).value;
    var other := EmitElse(x.cfg, env2, s.elseBody).value.1;
    if plain {
      BalancedNil(x, env.ends + [end]);
    } else {
      ExprRises(x, sc, env.strings, s.subject);
      RisesTakes(x, EmitExpr(x.cfg, sc, env.strings, s.subject).value.1, 1, StoreTo(v), 0);
      BalancedRises(x, hold, env.ends + [end]);
    }
    CasesBalanced(x, env1, subject, end, s.cases);
    ElseBalanced(x, env2, s.elseBody);
    BalancedWeaken(x, other, env.ends, env.ends + [end]);
    BalancedSeq(x, hold, cases, env.ends + [end]);
    BalancedSeq(x, hold + cases, other, env.ends + [end]);
    CloseAtEnd(x, hold + cases + other, end, env.ends);
  }

  // Units

  /** The part of a unit that control can reach: balanced, and it ends with END. */
  ghost predicate EndsInEnd(x: Ctx, code: Code) { Balanced(x, code, []) && code != [] && code[|code| - 1] == END }

  /** With an explicit return at the top level the code ends there; what follows it is never
      reached. */
  lemma ReturnEnds(x: Ctx, env: GenEnv, s: Stmt)
    requires s.ReturnFromFunction? && BalancedIn(x, EmitStmt(x.cfg, env, s), []) && EmitStmt(x.cfg, env, s).Ok?
    ensures EndsInEnd(x, EmitStmt(x.cfg, env, s).value.1)
  {
    hide Balanced, EmitExpr;
  }

  lemma EndsLater(x: Ctx, a: Code, b: Code)
    requires Balanced(x, a, []) && EndsInEnd(x, b)
    ensures EndsInEnd(x, a + b)
  {
    hide Balanced;
    BalancedSeq(x, a, b, []);
  }

  lemma {:induction false} ReturningBlock(x: Ctx, env: GenEnv, stmts: seq<Stmt>) returns (live: Code)
    requires BlockReady(x, env, stmts) && env.ends == [] && HasReturn(stmts)
    ensures EndsInEnd(x, live) && match EmitBlock(x.cfg, env, stmts) case Ok((_, code)) => live <= code case Err(_) => false
    decreases |stmts|
  {
    hide Balanced, SchemasMatch, AfterStmt, StmtMatches, SlotsBelow, EmitStmt, EndsInEnd, StringTable.Grown, CountStmt;
    var (env1, first) := EmitStmt(x.cfg, env, stmts[0]).value;
    var rest := EmitBlock(x.cfg, env1, stmts[1..]).value.1;
    var mid, after := AfterStmt(x.cfg, env.scope, stmts[0]), AfterBlock(x.cfg, env.scope, stmts);
    StmtExtends(x.cfg, env.scope, stmts[0]);
    BlockExtends(x.cfg, mid, stmts[1..]);
    MidScope(x, env.scope, mid, after, CountStmt(x.cfg, stmts[0]), CountLocals(x.cfg, stmts[1..]));
    StmtBalanced(x, env, stmts[0]);
    if stmts[0].ReturnFromFunction? {
      ReturnEnds(x, env, stmts[0]);
      live := first;
    } else {
      assert HasReturn(stmts[1..]) by {
        var i :| 0 <= i < |stmts| && stmts[i].ReturnFromFunction?;
        assert stmts[1..][i - 1].ReturnFromFunction?;
      }
      var live' := ReturningBlock(x, env1, stmts[1..]);
      EndsLater(x, first, live');
      live := first + live';
    }
  }

  /** Without one, the epilogue returns null. */
  lemma EpilogueEnds(x: Ctx, body: Code)
    requires Balanced(x, body, [])
    ensures EndsInEnd(x, body + [NULL, END])
  {
    hide Balanced;
    RisesOne(x, NULL);
    BalancedThen(x, [NULL], END, []);
    BalancedSeq(x, body, [NULL] + [END], []);
    assert body + [NULL, END] == body + ([NULL] + [END]);
  }
}
