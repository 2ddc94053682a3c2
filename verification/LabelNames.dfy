/** No two labels of a program clash (crates/compiler-core/src/codegen/bcgen.rs,
    crates/vm-core/src/bytefile.rs): every generated label carries a number of its own, so the
    assembler's first pass refuses a program exactly when two of its modules or functions share
    a qualified name. */
module LabelNames {
  import opened Results
  import opened Bytecode
  import opened Numbers
  import opened Ast
  import opened Scoping
  import opened Codegen
  import opened Assembly
  import opened Linking
  import StringTable

  /** The labels a piece of code defines. */
  function Marks(code: Code): multiset<string> {
    if code == [] then multiset{} else (if code[0].LABEL? then multiset{code[0].mark} else multiset{}) + Marks(code[1..])
  }

  ghost predicate Once(marks: multiset<string>) { forall m :: marks[m] <= 1 }

  lemma {:induction false} MarksSplit(a: Code, b: Code)
    ensures Marks(a + b) == Marks(a) + Marks(b)
  {
    if a == [] {
      assert a + b == b;
    } else {
      assert (a + b)[1..] == a[1..] + b;
      MarksSplit(a[1..], b);
    }
  }

  // ---------------------------------------------------------------- numbers

  /** The label ends in an underscore and this number. */
  predicate Numbered(m: string, n: nat) {
    var d := Decimal(n);
    |m| > |d| && m[|m| - |d|..] == d && m[|m| - |d| - 1] == '_'
  }

  lemma DigitInjective(a: nat, b: nat)
    requires a < 10 && b < 10 && "0123456789"[a] == "0123456789"[b]
    ensures a == b
  {
  }

  lemma {:induction false} DecimalInjective(n: nat, k: nat)
    requires Decimal(n) == Decimal(k)
    ensures n == k
    decreases n
  {
    var last := |Decimal(n)| - 1;
    assert (n >= 10 <==> last >= 1) && (k >= 10 <==> last >= 1);
    if n >= 10 {
      assert Decimal(n)[..last] == Decimal(n / 10) && Decimal(k)[..last] == Decimal(k / 10);
      assert Decimal(n)[last] == "0123456789"[n % 10] && Decimal(k)[last] == "0123456789"[k % 10];
      DigitInjective(n % 10, k % 10);
      DecimalInjective(n / 10, k / 10);
    } else {
      DigitInjective(n, k);
    }
  }

  lemma LastUnderscore(m: string, n: nat) returns (p: nat)
    requires Numbered(m, n)
    ensures p == |m| - |Decimal(n)| - 1 && m[p] == '_' && forall j :: p < j < |m| ==> m[j] != '_'
  {
    var d := Decimal(n);
    p := |m| - |d| - 1;
    assert forall j :: p < j < |m| ==> m[j] == d[j - p - 1];
  }

  /** A label has at most one number: its digits stop at the underscore. */
  lemma NumberUnique(m: string, n: nat, k: nat)
    requires Numbered(m, n) && Numbered(m, k)
    ensures n == k
  {
    var p := LastUnderscore(m, n);
    var q := LastUnderscore(m, k);
    assert p == q;
    DecimalInjective(n, k);
  }

  lemma FreshNumbered(prefix: string, n: nat)
    requires ':' !in prefix
    ensures Numbered(Fresh(prefix, n), n) && ':' !in Fresh(prefix, n)
  {
    var m, d := Fresh(prefix, n), Decimal(n);
    assert m[|m| - |d|..] == d;
  }

  /** A generated label whose number lies between the two counters. */
  ghost predicate Made(m: string, lo: nat, hi: nat) { ':' !in m && exists n: nat :: lo <= n < hi && Numbered(m, n) }

  /** The code's generated labels use numbers of this range, each at most once. */
  ghost predicate Own(code: Code, lo: nat, hi: nat) {
    lo <= hi && Once(Marks(code)) && forall m :: m in Marks(code) ==> Made(m, lo, hi)
  }

  lemma OwnSeq(a: Code, b: Code, lo: nat, mid: nat, hi: nat)
    requires Own(a, lo, mid) && Own(b, mid, hi)
    ensures Own(a + b, lo, hi)
  {
    MarksSplit(a, b);
    forall m | m in Marks(a) && m in Marks(b)
      ensures false
    {
      var n: nat :| lo <= n < mid && Numbered(m, n);
      var k: nat :| mid <= k < hi && Numbered(m, k);
      NumberUnique(m, n, k);
    }
  }

  /** Code with the same labels, in whatever order. */
  lemma OwnSame(a: Code, b: Code, lo: nat, hi: nat)
    requires Own(a, lo, hi) && Marks(b) == Marks(a)
    ensures Own(b, lo, hi)
  {
  }

  lemma OwnLabel(prefix: string, n: nat)
    requires ':' !in prefix
    ensures Own([LABEL(Fresh(prefix, n))], n, n + 1)
  {
    FreshNumbered(prefix, n);
    assert Marks([LABEL(Fresh(prefix, n))]) == multiset{Fresh(prefix, n)};
  }

  predicate Plain(code: Code) { forall i :: i in code ==> !i.LABEL? }

  lemma {:induction false} PlainMarks(code: Code)
    requires Plain(code)
    ensures Marks(code) == multiset{}
  {
    if code != [] {
      assert code[0] in code && forall i :: i in code[1..] ==> i in code;
      PlainMarks(code[1..]);
    }
  }

  lemma OwnPlain(code: Code, n: nat)
    requires Plain(code)
    ensures Own(code, n, n)
  {
    PlainMarks(code);
  }

  // ---------------------------------------------------------------- expressions

  lemma {:induction false} ExprPlain(cfg: Config, sc: Scope, tab: Strings, e: Expr)
    requires EmitExpr(cfg, sc, tab, e).Ok?
    ensures Plain(EmitExpr(cfg, sc, tab, e).value.1)
    decreases e, 1
  {
    hide StringTable.Intern, StringTable.Grown, CalleeOf, FindVariable;
    match e {
      case IntegerLit(_) =>
      case BooleanLit(_) =>
      case RealLit(_) =>
      case TextLit(_) =>
      case NullLit =>
      case Name(_) =>
      case Binary(operator, left, right) =>
        ExprPlain(cfg, sc, tab, left);
        if !operator.Dot? { ExprPlain(cfg, sc, EmitExpr(cfg, sc, tab, left).value.0, right); }
      case Unary(_, operand) => ExprPlain(cfg, sc, tab, operand);
      case TupleConstruct(elements) => ExprsPlain(cfg, sc, tab, elements);
      case FunctionCall(f, arguments) => CallPlain(cfg, sc, tab, e);
      case Subscript(collection, index) =>
        ExprPlain(cfg, sc, tab, collection);
        ExprPlain(cfg, sc, EmitExpr(cfg, sc, tab, collection).value.0, index);
      case SliceExpr(collection, from, to) =>
        ExprPlain(cfg, sc, tab, collection);
        var tab1 := EmitExpr(cfg, sc, tab, collection).value.0;
        MaybePlain(cfg, sc, tab1, from);
        MaybePlain(cfg, sc, EmitMaybe(cfg, sc, tab1, from).value.0, to);
    }
  }

  lemma {:induction false} CallPlain(cfg: Config, sc: Scope, tab: Strings, e: Expr)
    requires e.FunctionCall? && EmitExpr(cfg, sc, tab, e).Ok?
    ensures Plain(EmitExpr(cfg, sc, tab, e).value.1)
    decreases e, 0
  {
    hide CalleeOf, EmitExprs, EmitCallee;
    var f := e.function_;
    if f.Name? && f.name in cfg.variants {
      ExprsPlain(cfg, sc, tab, e.arguments);
    } else {
      CalleePlain(cfg, sc, tab, f);
      ExprsPlain(cfg, sc, EmitCallee(cfg, sc, tab, f).value.0, e.arguments);
    }
  }

  lemma {:induction false} CalleePlain(cfg: Config, sc: Scope, tab: Strings, f: Expr)
    requires EmitCallee(cfg, sc, tab, f).Ok?
    ensures Plain(EmitCallee(cfg, sc, tab, f).value.1)
    decreases f, 2
  {
    hide CalleeOf, EmitExpr;
    if CalleeOf(cfg, f).Computed? { ExprPlain(cfg, sc, tab, f); }
  }

  lemma {:induction false} ExprsPlain(cfg: Config, sc: Scope, tab: Strings, es: seq<Expr>)
    requires EmitExprs(cfg, sc, tab, es).Ok?
    ensures Plain(EmitExprs(cfg, sc, tab, es).value.1)
    decreases es, 0
  {
    hide EmitExpr;
    if es != [] {
      ExprPlain(cfg, sc, tab, es[0]);
      ExprsPlain(cfg, sc, EmitExpr(cfg, sc, tab, es[0]).value.0, es[1..]);
    }
  }

  lemma {:induction false} MaybePlain(cfg: Config, sc: Scope, tab: Strings, e: MaybeExpr)
    requires EmitMaybe(cfg, sc, tab, e).Ok?
    ensures Plain(EmitMaybe(cfg, sc, tab, e).value.1)
    decreases e, 0
  {
    hide EmitExpr;
    if e.Present? { ExprPlain(cfg, sc, tab, e.expr); }
  }

  lemma AssignPlain(cfg: Config, sc: Scope, tab: Strings, target: LValue)
    requires EmitAssign(cfg, sc, tab, target).Ok?
    ensures Plain(EmitAssign(cfg, sc, tab, target).value.1)
  {
    hide EmitExpr, EmitMaybe, FindVariable;
    match target {
      case NameTarget(_) =>
      case SubscriptTarget(_, index) => ExprPlain(cfg, sc, tab, index);
      case SliceTarget(_, from, to) =>
        MaybePlain(cfg, sc, tab, from);
        MaybePlain(cfg, sc, EmitMaybe(cfg, sc, tab, from).value.0, to);
      case FieldTarget(left, _) => ExprPlain(cfg, sc, tab, left);
    }
  }

  lemma {:induction false} InputsPlain(sc: Scope, variables: seq<LValue>)
    requires EmitInputs(sc, variables).Ok?
    ensures Plain(EmitInputs(sc, variables).value.1)
    decreases variables
  {
    hide FindVariable;
    if variables != [] {
      var v := variables[0];
      InputsPlain(if FindVariable(sc, v.name).Ok? then sc else Allocate(sc, v.name), variables[1..]);
    }
  }

  lemma {:induction false} BindingsPlain(cfg: Config, sc: Scope, subject: Subject, names: seq<Expr>, k: nat)
    requires EmitBindings(cfg, sc, subject, names, k).Ok?
    ensures Plain(EmitBindings(cfg, sc, subject, names, k).value.1)
    decreases names
  {
    hide FindVariable;
    if names != [] { BindingsPlain(cfg, Allocate(sc, names[0].name), subject, names[1..], k + 1); }
  }

  lemma TestPlain(cfg: Config, sc: Scope, tab: Strings, subject: Subject, c: Case)
    requires EmitTest(cfg, sc, tab, subject, c).Ok?
    ensures Plain(EmitTest(cfg, sc, tab, subject, c).value.1)
  {
    hide EmitExpr, FindVariable, PatternOf;
    if PatternOf(cfg, c.values[0]).Plain? { ExprPlain(cfg, sc, tab, c.values[0]); }
  }

  // ---------------------------------------------------------------- statements

  ghost predicate OwnEmitted(env: GenEnv, r: Emitted) { r.Ok? ==> Own(r.value.1, env.labels, r.value.0.labels) }

  lemma {:induction false} StmtOwn(cfg: Config, env: GenEnv, s: Stmt)
    ensures OwnEmitted(env, EmitStmt(cfg, env, s))
    decreases s, 1
  {
    hide Own, EmitConditional, EmitMatch, EmitWhile, EmitRepeat, EmitFor;
    if EmitStmt(cfg, env, s).Ok? {
      if s.Conditional? {
        ConditionalOwn(cfg, env, s);
      } else if s.ValueMatch? {
        MatchOwn(cfg, env, s);
      } else if s.Loop? {
        if s.header.While? { WhileOwn(cfg, env, s); }
        else if s.header.Repeat? { RepeatOwn(cfg, env, s); }
        else { ForOwn(cfg, env, s); }
      } else {
        SimplePlain(cfg, env, s);
        OwnPlain(EmitStmt(cfg, env, s).value.1, env.labels);
      }
    }
  }

  lemma SimplePlain(cfg: Config, env: GenEnv, s: Stmt)
    requires EmitStmt(cfg, env, s).Ok? && !s.Conditional? && !s.ValueMatch? && !s.Loop?
    ensures Plain(EmitStmt(cfg, env, s).value.1) && EmitStmt(cfg, env, s).value.0.labels == env.labels
  {
    hide EmitExpr, EmitExprs, EmitCallee, EmitAssign, EmitInputs, CalleeOf, AfterStmt, FindVariable;
    match s {
      case Declaration(_, value) => ExprPlain(cfg, env.scope, env.strings, value);
      case Assignment(target, value) =>
        ExprPlain(cfg, env.scope, env.strings, value);
        AssignPlain(cfg, env.scope, EmitExpr(cfg, env.scope, env.strings, value).value.0, target);
      case ProcedureCall(procedure, arguments) =>
        CalleePlain(cfg, env.scope, env.strings, procedure);
        ExprsPlain(cfg, env.scope, EmitCallee(cfg, env.scope, env.strings, procedure).value.0, arguments);
      case Output(_, values) => ExprsPlain(cfg, env.scope, env.strings, values);
      case Input(_, variables) => InputsPlain(env.scope, variables);
      case ReturnFromFunction(result) => ExprPlain(cfg, env.scope, env.strings, result);
      case ExitLoop =>
    }
  }

  lemma {:induction false} BlockOwn(cfg: Config, env: GenEnv, stmts: seq<Stmt>)
    ensures OwnEmitted(env, EmitBlock(cfg, env, stmts))
    decreases stmts, 0
  {
    hide Own, EmitStmt;
    if EmitBlock(cfg, env, stmts).Ok? {
      if stmts == [] {
        OwnPlain([], env.labels);
      } else {
        StmtOwn(cfg, env, stmts[0]);
        var (env1, first) := EmitStmt(cfg, env, stmts[0]).value;
        BlockOwn(cfg, env1, stmts[1..]);
        var (env2, rest) := EmitBlock(cfg, env1, stmts[1..]).value;
        OwnSeq(first, rest, env.labels, env1.labels, env2.labels);
      }
    }
  }

  lemma {:induction false} ElseOwn(cfg: Config, env: GenEnv, elseBody: MaybeBody)
    ensures OwnEmitted(env, EmitElse(cfg, env, elseBody))
    decreases elseBody, 0
  {
    hide Own, EmitBlock;
    if elseBody.NoBody? { OwnPlain([], env.labels); } else { BlockOwn(cfg, env, elseBody.stmts); }
  }

  /** Three labels and two bodies; the labels' order in the code is not the order of their
      numbers. */
  lemma ConditionalOwn(cfg: Config, env: GenEnv, s: Stmt)
    requires s.Conditional?
    ensures OwnEmitted(env, EmitConditional(cfg, env, s))
    decreases s, 0
  {
    hide Own, EmitExpr, EmitBlock, EmitElse, Fresh, ConditionalCode, ElseTail, Marks, StringTable.Grown;
    if EmitConditional(cfg, env, s).Ok? {
      var n := env.labels;
      var begin, end, other := Fresh("if_begin", n), Fresh("if_skip", n + 1), Fresh("else", n + 2);
      var (tab, cond) := EmitExpr(cfg, env.scope, env.strings, s.condition).value;
      var env1 := env.(strings := tab, labels := if s.elseBody.Body? then n + 3 else n + 2);
      var (env2, thenCode) := EmitBlock(cfg, env1, s.thenBody).value;
      var (env3, elseCode) := EmitElse(cfg, env2, s.elseBody).value;
      ExprPlain(cfg, env.scope, env.strings, s.condition);
      BlockOwn(cfg, env1, s.thenBody);
      ElseOwn(cfg, env2, s.elseBody);
      OwnLabel("if_begin", n);
      OwnLabel("if_skip", n + 1);
      OwnSeq([LABEL(begin)], [LABEL(end)], n, n + 1, n + 2);
      var labels := [LABEL(begin)] + [LABEL(end)];
      if s.elseBody.Body? {
        OwnLabel("else", n + 2);
        OwnSeq(labels, [LABEL(other)], n, n + 2, n + 3);
        OwnSeq(labels + [LABEL(other)], thenCode, n, n + 3, env2.labels);
        OwnSeq(labels + [LABEL(other)] + thenCode, elseCode, n, env2.labels, env3.labels);
        ElseMarks(cond, begin, end, other, thenCode, elseCode);
        OwnSame(labels + [LABEL(other)] + thenCode + elseCode,
          ConditionalCode(cond, begin, other, thenCode, ElseTail(end, other, elseCode)), n, env3.labels);
      } else {
        NoElse(cfg, env2);
        OwnSeq(labels, thenCode, n, n + 2, env2.labels);
        NoElseMarks(cond, begin, end, thenCode);
        OwnSame(labels + thenCode, ConditionalCode(cond, begin, end, thenCode, [LABEL(end)]), n, env2.labels);
      }
    }
  }

  lemma NoElse(cfg: Config, env: GenEnv)
    ensures EmitElse(cfg, env, NoBody) == Ok((env, []))
  {
  }

  lemma MarksOf(i: Instr)
    ensures Marks([i]) == if i.LABEL? then multiset{i.mark} else multiset{}
  {
    assert [i][1..] == [];
  }

  lemma TestMarks(cond: Code, begin: string, target: string)
    requires Plain(cond)
    ensures Marks(cond + [LABEL(begin), CJMP(Named(target), ISZERO)]) == multiset{begin}
  {
    PlainMarks(cond);
    var pair := [LABEL(begin)] + [CJMP(Named(target), ISZERO)];
    assert [LABEL(begin), CJMP(Named(target), ISZERO)] == pair;
    MarksSplit(cond, pair);
    MarksSplit([LABEL(begin)], [CJMP(Named(target), ISZERO)]);
    MarksOf(LABEL(begin));
    MarksOf(CJMP(Named(target), ISZERO));
  }

  lemma NoElseMarks(cond: Code, begin: string, end: string, thenCode: Code)
    requires Plain(cond)
    ensures Marks(ConditionalCode(cond, begin, end, thenCode, [LABEL(end)])) == Marks([LABEL(begin)] + [LABEL(end)] + thenCode)
  {
    var test := cond + [LABEL(begin), CJMP(Named(end), ISZERO)];
    TestMarks(cond, begin, end);
    hide Marks;
    MarksSplit(test + thenCode, [LABEL(end)]);
    MarksSplit(test, thenCode);
    MarksSplit([LABEL(begin)] + [LABEL(end)], thenCode);
    MarksSplit([LABEL(begin)], [LABEL(end)]);
    MarksOf(LABEL(begin));
    MarksOf(LABEL(end));
  }

  lemma ElseMarks(cond: Code, begin: string, end: string, other: string, thenCode: Code, elseCode: Code)
    requires Plain(cond)
    ensures Marks(ConditionalCode(cond, begin, other, thenCode, ElseTail(end, other, elseCode)))
      == Marks([LABEL(begin)] + [LABEL(end)] + [LABEL(other)] + thenCode + elseCode)
  {
    var test, tail := cond + [LABEL(begin), CJMP(Named(other), ISZERO)], ElseTail(end, other, elseCode);
    TestMarks(cond, begin, other);
    hide Marks;
    var pair := [JMP(Named(end))] + [LABEL(other)];
    assert tail == pair + elseCode + [LABEL(end)];
    MarksSplit(test + thenCode, tail);
    MarksSplit(test, thenCode);
    MarksSplit(pair + elseCode, [LABEL(end)]);
    MarksSplit(pair, elseCode);
    MarksSplit([JMP(Named(end))], [LABEL(other)]);
    MarksOf(JMP(Named(end)));
    MarksOf(LABEL(other));
    MarksOf(LABEL(end));
    MarksOf(LABEL(begin));
    MarksSplit([LABEL(begin)] + [LABEL(end)] + [LABEL(other)] + thenCode, elseCode);
    MarksSplit([LABEL(begin)] + [LABEL(end)] + [LABEL(other)], thenCode);
    MarksSplit([LABEL(begin)] + [LABEL(end)], [LABEL(other)]);
    MarksSplit([LABEL(begin)], [LABEL(end)]);
  }

  /** A loop: a start and an end label around its body. */
  lemma LoopOwn(loop: string, end: string, before: Code, guard: Code, body: Code, advance: Code, n: nat, hi: nat)
    requires Own([LABEL(loop)], n, n + 1) && Own([LABEL(end)], n + 1, n + 2) && Own(body, n + 2, hi)
    requires Plain(before) && Plain(guard) && Plain(advance)
    ensures Own(before + LoopCode(loop, guard, body, advance, end), n, hi)
  {
    hide Own, Marks;
    OwnSeq([LABEL(loop)], [LABEL(end)], n, n + 1, n + 2);
    OwnSeq([LABEL(loop)] + [LABEL(end)], body, n, n + 2, hi);
    var pair := [JMP(Named(loop))] + [LABEL(end)];
    assert LoopCode(loop, guard, body, advance, end) == [LABEL(loop)] + guard + body + advance + pair;
    PlainMarks(before);
    PlainMarks(guard);
    PlainMarks(advance);
    MarksSplit(before, LoopCode(loop, guard, body, advance, end));
    MarksSplit([LABEL(loop)] + guard + body + advance, pair);
    MarksSplit([LABEL(loop)] + guard + body, advance);
    MarksSplit([LABEL(loop)] + guard, body);
    MarksSplit([LABEL(loop)], guard);
    MarksSplit([JMP(Named(loop))], [LABEL(end)]);
    MarksOf(JMP(Named(loop)));
    MarksSplit([LABEL(loop)] + [LABEL(end)], body);
    MarksSplit([LABEL(loop)], [LABEL(end)]);
    OwnSame([LABEL(loop)] + [LABEL(end)] + body, before + LoopCode(loop, guard, body, advance, end), n, hi);
  }

  lemma WhileOwn(cfg: Config, env: GenEnv, s: Stmt)
    requires s.Loop? && s.header.While?
    ensures OwnEmitted(env, EmitWhile(cfg, env, s))
    decreases s, 0
  {
    hide Own, EmitExpr, EmitBlock, Fresh, LoopCode;
    if EmitWhile(cfg, env, s).Ok? {
      var n := env.labels;
      var loop, end := Fresh("while_loop", n), Fresh("while_end", n + 1);
      var (tab, cond) := EmitExpr(cfg, env.scope, env.strings, s.header.condition).value;
      var env1 := env.(strings := tab, labels := n + 2, ends := env.ends + [end]);
      var (env2, body) := EmitBlock(cfg, env1, s.body).value;
      ExprPlain(cfg, env.scope, env.strings, s.header.condition);
      BlockOwn(cfg, env1, s.body);
      OwnLabel("while_loop", n);
      OwnLabel("while_end", n + 1);
      LoopOwn(loop, end, [], cond + [LeaveUnless(end)], body, [], n, env2.labels);
      var code := LoopCode(loop, cond + [LeaveUnless(end)], body, [], end);
      assert [] + code == code;
    }
  }

  lemma RepeatOwn(cfg: Config, env: GenEnv, s: Stmt)
    requires s.Loop? && s.header.Repeat?
    ensures OwnEmitted(env, EmitRepeat(cfg, env, s))
    decreases s, 0
  {
    hide Own, EmitExpr, EmitBlock, Fresh, LoopCode, LoopVariable, Allocate, Deallocate, NextSlot;
    if EmitRepeat(cfg, env, s).Ok? {
      var n, x := env.labels, NextSlot(env.scope);
      var sc := Allocate(env.scope, LoopVariable(s.header));
      var loop, end := Fresh("repeat_loop", n), Fresh("repeat_end", n + 1);
      var (tab, count) := EmitExpr(cfg, sc, env.strings, s.header.count).value;
      var env1 := env.(scope := sc, strings := tab, labels := n + 2, ends := env.ends + [end]);
      var (env2, body) := EmitBlock(cfg, env1, s.body).value;
      ExprPlain(cfg, sc, env.strings, s.header.count);
      BlockOwn(cfg, env1, s.body);
      OwnLabel("repeat_loop", n);
      OwnLabel("repeat_end", n + 1);
      LoopOwn(loop, end, count + [StoreTo(x)], RepeatGuard(x, end), body, RepeatAdvance(x), n, env2.labels);
    }
  }

  lemma ForOwn(cfg: Config, env: GenEnv, s: Stmt)
    requires s.Loop? && s.header.For?
    ensures OwnEmitted(env, EmitFor(cfg, env, s))
    decreases s, 0
  {
    hide Own, EmitMaybe, EmitBlock, Fresh, LoopCode, Allocate, Deallocate, NextSlot, ForTest, ForAdvance, SimpleGuard;
    if EmitFor(cfg, env, s).Ok? {
      var h, n, x := s.header, env.labels, NextSlot(env.scope);
      var loop, end := Fresh("for_loop", n), Fresh("for_end", n + 1);
      var (tab1, from) := EmitMaybe(cfg, env.scope, env.strings, h.from).value;
      var (tab2, to) := EmitMaybe(cfg, env.scope, tab1, h.to).value;
      var (tab3, given) := EmitMaybe(cfg, env.scope, tab2, h.step).value;
      var step := if h.step.Present? then given else [CONST(1)];
      var start := if h.from.Present? then from else [CONST(0)];
      MaybePlain(cfg, env.scope, env.strings, h.from);
      MaybePlain(cfg, env.scope, tab1, h.to);
      MaybePlain(cfg, env.scope, tab2, h.step);
      var env1 := env.(scope := Allocate(env.scope, h.variable), strings := tab3, labels := n + 2, ends := env.ends + [end]);
      var (env2, body) := EmitBlock(cfg, env1, s.body).value;
      BlockOwn(cfg, env1, s.body);
      OwnLabel("for_loop", n);
      OwnLabel("for_end", n + 1);
      var guard := ForTest(h.to, x, step, to, SimpleGuard(h.step, to), end);
      GuardPlain(h.to, x, step, to, SimpleGuard(h.step, to), end);
      LoopOwn(loop, end, start + [StoreTo(x)], guard, body, ForAdvance(x, step), n, env2.labels);
    }
  }

  lemma GuardPlain(bound: MaybeExpr, x: Variable, step: Code, to: Code, simple: bool, end: string)
    requires Plain(step) && Plain(to)
    ensures Plain(ForTest(bound, x, step, to, simple, end)) && Plain(ForAdvance(x, step))
  {
  }

  lemma MatchOwn(cfg: Config, env: GenEnv, s: Stmt)
    requires s.ValueMatch?
    ensures OwnEmitted(env, EmitMatch(cfg, env, s))
    decreases s, 0
  {
    hide Own, EmitExpr, EmitCases, EmitElse, Fresh, Allocate, Deallocate, NextSlot, HiddenName, Marks;
    if EmitMatch(cfg, env, s).Ok? {
      var n, name, x := env.labels, HiddenName("match", s.span), NextSlot(env.scope);
      var sc := if s.subject.Name? then env.scope else Allocate(env.scope, name);
      var (tab, code) := (if s.subject.Name? then Ok((env.strings, [])) else EmitExpr(cfg, sc, env.strings, s.subject)).value;
      if !s.subject.Name? { ExprPlain(cfg, sc, env.strings, s.subject); }
      var hold := if s.subject.Name? then [] else code + [StoreTo(x)];
      var subject := if s.subject.Name? then Reread(s.subject.name) else Held(x);
      var end := Fresh("match_end", n);
      var env1 := env.(scope := sc, strings := tab, labels := n + 1);
      CasesOwn(cfg, env1, subject, end, s.cases);
      var (env2, cases) := EmitCases(cfg, env1, subject, end, s.cases).value;
      ElseOwn(cfg, env2, s.elseBody);
      var (env3, other) := EmitElse(cfg, env2, s.elseBody).value;
      OwnLabel("match_end", n);
      OwnSeq([LABEL(end)], cases, n, n + 1, env2.labels);
      OwnSeq([LABEL(end)] + cases, other, n, env2.labels, env3.labels);
      PlainMarks(hold);
      MarksSplit(hold + cases + other, [LABEL(end)]);
      MarksSplit(hold + cases, other);
      MarksSplit(hold, cases);
      MarksSplit([LABEL(end)] + cases, other);
      MarksSplit([LABEL(end)], cases);
      OwnSame([LABEL(end)] + cases + other, hold + cases + other + [LABEL(end)], n, env3.labels);
    }
  }

  lemma {:induction false} CasesOwn(cfg: Config, env: GenEnv, subject: Subject, end: string, cases: seq<Case>)
    ensures OwnEmitted(env, EmitCases(cfg, env, subject, end, cases))
    decreases cases, 0
  {
    hide Own, EmitCase;
    if EmitCases(cfg, env, subject, end, cases).Ok? {
      if cases == [] {
        OwnPlain([], env.labels);
      } else {
        CaseOwn(cfg, env, subject, end, cases[0]);
        var (env1, first) := EmitCase(cfg, env, subject, end, cases[0]).value;
        CasesOwn(cfg, env1, subject, end, cases[1..]);
        var (env2, rest) := EmitCases(cfg, env1, subject, end, cases[1..]).value;
        OwnSeq(first, rest, env.labels, env1.labels, env2.labels);
      }
    }
  }

  lemma CaseOwn(cfg: Config, env: GenEnv, subject: Subject, end: string, c: Case)
    ensures OwnEmitted(env, EmitCase(cfg, env, subject, end, c))
    decreases c, 1
  {
    hide Own, EmitTest, EmitBindings, EmitBlock, Fresh, Bindings, Marks;
    if EmitCase(cfg, env, subject, end, c).Ok? {
      var n := env.labels;
      var next := Fresh("match_next", n);
      var (tab, test) := EmitTest(cfg, env.scope, env.strings, subject, c).value;
      var (sc, bind) := EmitBindings(cfg, env.scope, subject, Bindings(cfg, c), 0).value;
      var env1 := env.(scope := sc, strings := tab, labels := n + 1);
      var (env2, body) := EmitBlock(cfg, env1, c.body).value;
      TestPlain(cfg, env.scope, env.strings, subject, c);
      BindingsPlain(cfg, env.scope, subject, Bindings(cfg, c), 0);
      BlockOwn(cfg, env1, c.body);
      OwnLabel("match_next", n);
      OwnSeq([LABEL(next)], body, n, n + 1, env2.labels);
      var front := test + [LeaveUnless(next)] + bind;
      PlainMarks(front);
      var pair := [JMP(Named(end))] + [LABEL(next)];
      MarksSplit(front + body, pair);
      MarksSplit(front, body);
      MarksSplit([JMP(Named(end))], [LABEL(next)]);
      MarksOf(JMP(Named(end)));
      MarksSplit([LABEL(next)], body);
      OwnSame([LABEL(next)] + body, CaseCode(test, next, bind, body, end), n, env2.labels);
    }
  }

  // ---------------------------------------------------------------- programs

  function Names(units: seq<NamedUnit>): multiset<string> {
    if units == [] then multiset{} else multiset{units[0].name} + Names(units[1..])
  }

  lemma {:induction false} NamesSplit(a: seq<NamedUnit>, b: seq<NamedUnit>)
    ensures Names(a + b) == Names(a) + Names(b)
  {
    if a == [] {
      assert a + b == b;
    } else {
      assert (a + b)[1..] == a[1..] + b;
      NamesSplit(a[1..], b);
    }
  }

  /** The code's labels are the names, each as often as given, and generated ones. */
  ghost predicate Mixes(code: Code, names: multiset<string>, lo: nat, hi: nat) {
    && lo <= hi && (forall m :: m in names ==> ':' in m)
    && (forall m :: ':' in m ==> Marks(code)[m] == names[m])
    && (forall m :: m in Marks(code) && ':' !in m ==> Marks(code)[m] == 1 && Made(m, lo, hi))
  }

  lemma MixesSeq(a: Code, b: Code, x: multiset<string>, y: multiset<string>, lo: nat, mid: nat, hi: nat)
    requires Mixes(a, x, lo, mid) && Mixes(b, y, mid, hi)
    ensures Mixes(a + b, x + y, lo, hi)
  {
    MarksSplit(a, b);
    forall m | m in Marks(a) && m in Marks(b) && ':' !in m
      ensures false
    {
      var n: nat :| lo <= n < mid && Numbered(m, n);
      var k: nat :| mid <= k < hi && Numbered(m, k);
      NumberUnique(m, n, k);
    }
    forall m | m in Marks(a + b) && ':' !in m
      ensures Marks(a + b)[m] == 1 && Made(m, lo, hi)
    {
      assert m in Marks(a) || m in Marks(b);
    }
  }

  lemma MixesUnit(name: string, u: Unit, body: Code, lo: nat, hi: nat)
    requires Own(body, lo, hi) && ':' in name
    ensures Mixes([LABEL(name)] + UnitCode(u, body), multiset{name}, lo, hi)
  {
    hide UnitCode, Marks, Numbered;
    UnitMarks(name, u, body);
  }

  lemma UnitMarks(name: string, u: Unit, body: Code)
    ensures Marks([LABEL(name)] + UnitCode(u, body)) == multiset{name} + Marks(body)
  {
    hide HasReturn, FrameSize;
    var epilogue := Epilogue(u.scope.inFunction, u.body);
    assert Plain(epilogue);
    PlainMarks(epilogue);
    var begin := BEGIN(u.arity, FrameSize(u));
    MarksSplit([LABEL(name)], UnitCode(u, body));
    MarksSplit([begin] + body, epilogue);
    MarksSplit([begin], body);
    MarksOf(begin);
    MarksOf(LABEL(name));
  }

  predicate Qualifieds(units: seq<NamedUnit>) { forall u :: u in units ==> ':' in u.name }

  lemma {:induction false} UnitsMix(units: seq<NamedUnit>, n: nat, tab: Strings)
    requires EmitUnits(units, n, tab).Ok? && Qualifieds(units)
    ensures Mixes(UnitsCode(EmitUnits(units, n, tab)), Names(units), n, UnitsLabels(EmitUnits(units, n, tab)))
    decreases |units|
  {
    hide Mixes, UnitCode, EmitBlock;
    if units == [] {
      NothingMixes(n);
    } else {
      var u := units[0].unit;
      var (env, body) := EmitBlock(u.cfg, GenEnv(u.scope, n, [], tab), u.body).value;
      BlockOwn(u.cfg, GenEnv(u.scope, n, [], tab), u.body);
      assert units[0] in units && forall v :: v in units[1..] ==> v in units;
      MixesUnit(units[0].name, u, body, n, env.labels);
      UnitsMix(units[1..], env.labels, env.strings);
      var rest := EmitUnits(units[1..], env.labels, env.strings).value;
      MixesSeq([LABEL(units[0].name)] + UnitCode(u, body), rest.2, multiset{units[0].name}, Names(units[1..]), n, env.labels, rest.0);
    }
  }

  lemma NothingMixes(n: nat)
    ensures Mixes([], multiset{}, n, n)
  {
  }

  lemma {:induction false} FunctionsQualified(m: ModuleDef, cfg: Config, top: Scope, functions: seq<FunctionDef>)
    ensures Qualifieds(FunctionUnits(m, cfg, top, functions))
  {
    if functions != [] {
      QualifiedHasColon(m.name, functions[0].name);
      FunctionsQualified(m, cfg, top, functions[1..]);
    }
  }

  lemma QualifiedHasColon(module_: string, definition: string)
    ensures ':' in Qualified(module_, definition)
  {
    assert Qualified(module_, definition)[|module_|] == ':';
  }

  lemma {:induction false} ModulesMix(ms: seq<ModuleDef>, g: Gen)
    requires EmitModules(ms, g).Ok?
    ensures var (g', units, code) := EmitModules(ms, g).value; Mixes(code, Names(units), g.labels, g'.labels)
    decreases |ms|
  {
    hide Mixes, AddTypes, EmitUnits, TopScope;
    if ms == [] {
      NothingMixes(g.labels);
    } else {
      var m := ms[0];
      var g1 := AddTypes(g, m.types);
      var units := UnitsOf(m, g1);
      QualifiedHasColon(m.name, "<init>");
      FunctionsQualified(m, ConfigOf(m, g1), TopScope(m, g1), m.functions);
      var (n, tab, code) := EmitUnits(units, g1.labels, g1.strings).value;
      UnitsMix(units, g1.labels, g1.strings);
      var g2 := g1.(globals := TopScope(m, g1).globalCounter, labels := n, strings := tab);
      ModulesMix(ms[1..], g2);
      var (g3, units', code') := EmitModules(ms[1..], g2).value;
      NamesSplit(units, units');
      MixesSeq(code, code', Names(units), Names(units'), g.labels, n, g3.labels);
    }
  }

  lemma {:induction false} InitCallsPlain(ms: seq<ModuleDef>)
    ensures Plain(InitCalls(ms))
  {
    if ms != [] { InitCallsPlain(ms[1..]); }
  }

  /** main's label is neither qualified nor numbered. */
  lemma ProgramMarks(ms: seq<ModuleDef>)
    requires EmitProgram(ms).Ok?
    ensures var (_, units, code) := EmitProgram(ms).value; Once(Marks(code)) <==> Once(Names(units))
  {
    hide EmitModules;
    var (g, units, code) := EmitModules(ms, NEW_GEN).value;
    ModulesMix(ms, NEW_GEN);
    InitCallsPlain(ms);
    var rest := [BEGIN(0, 0)] + InitCalls(ms) + ([NULL] + [END]);
    assert MainCode(ms) == [LABEL(MAIN)] + rest;
    PlainMarks(rest);
    MarksSplit([LABEL(MAIN)], rest);
    MarksOf(LABEL(MAIN));
    MarksSplit(code, MainCode(ms));
    var all := Marks(code + MainCode(ms));
    assert all == Marks(code) + multiset{MAIN};
    MainUnnumbered();
    assert !Made(MAIN, 0, g.labels);
    assert MAIN !in Marks(code);
    if Once(Names(units)) {
      forall m ensures all[m] <= 1 { if ':' in m { assert Marks(code)[m] == Names(units)[m]; } }
    }
    if Once(all) {
      forall m ensures Names(units)[m] <= 1 {
        if m in Names(units) { assert Names(units)[m] == Marks(code)[m] <= all[m]; }
      }
    }
  }

  lemma MainUnnumbered()
    ensures ':' !in MAIN && forall n: nat :: !Numbered(MAIN, n)
  {
    assert '_' !in MAIN;
  }

  lemma OnceEmpty()
    ensures Once(multiset{})
  {
  }

  lemma OnceMore(l: string, rest: multiset<string>)
    ensures Once(multiset{l} + rest) <==> Once(rest) && l !in rest
  {
    var all := multiset{l} + rest;
    if Once(all) {
      assert all[l] <= 1;
      forall m ensures rest[m] <= 1 { assert rest[m] <= all[m]; }
    }
  }

  predicate NoneIn(marks: multiset<string>, labels: Labels) { forall m :: m in marks ==> m !in labels }

  lemma NoneInNothing(labels: Labels)
    ensures NoneIn(multiset{}, labels)
  {
  }

  lemma NoneInMore(mark: string, marks: multiset<string>, labels: Labels, offset: nat)
    ensures NoneIn(marks, labels[mark := offset]) <==> NoneIn(marks, labels) && mark !in marks
    ensures NoneIn(multiset{mark} + marks, labels) <==> mark !in labels && NoneIn(marks, labels)
  {
  }

  /** The first pass accepts a piece of code exactly when its labels are new and different. */
  lemma {:induction false} PlaceIff(code: Code, offset: nat, labels: Labels)
    requires FitsI32(offset + Extent(code))
    ensures Place(code, offset, labels).Ok? <==> Once(Marks(code)) && NoneIn(Marks(code), labels)
    decreases |code|
  {
    hide Once, Size, NoneIn;
    if code == [] {
      OnceEmpty();
      NoneInNothing(labels);
    } else {
      var rest := code[1..];
      if code[0].LABEL? {
        PlaceIff(rest, offset, labels[code[0].mark := offset]);
        OnceMore(code[0].mark, Marks(rest));
        NoneInMore(code[0].mark, Marks(rest), labels, offset);
      } else {
        PlaceIff(rest, offset + Size(code[0]), labels);
        assert Marks(code) == Marks(rest);
      }
    }
  }

  /** Labels clash exactly when two modules or functions have the same qualified name. */
  lemma LabelsClashIff(ms: seq<ModuleDef>)
    requires EmitProgram(ms).Ok? && FitsI32(Extent(ProgramCode(ms)))
    ensures Place(ProgramCode(ms), 0, map[]).Ok? <==> Once(Names(ProgramUnits(ms)))
  {
    hide EmitProgram, Once, Names;
    ProgramMarks(ms);
    PlaceIff(ProgramCode(ms), 0, map[]);
  }
}
