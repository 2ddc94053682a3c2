/** Which generated code the byte encoding can hold (crates/compiler-core/src/codegen/bcgen.rs,
    crates/vm-core/src/decoder.rs). `encode` leaves out the operand of a builtin call when it is
    zero, but the readers of input and output calls expect one: output without newline and
    without values is accepted, compiled, and falls apart in the code section. Within the sizes
    the operands can hold, nothing else does. */
module Codability {
  import opened Results
  import opened Bytecode
  import opened Numbers
  import opened Encoding
  import opened Assembly
  import opened Ast
  import opened Scoping
  import opened Codegen
  import opened Linking
  import LabelNames
  import opened Balance
  import opened BalancedCode
  import PS = ProgramSafety
  import RT = Runtime
  import StringTable

  const LIMIT := 0x7FFF_FFFF

  /** The instruction can be encoded, slots left aside. */
  predicate Coded(i: Instr) { BuiltinShape(i) && (i.LOAD? || i.STORE? || OperandsFit(i)) }

  predicate AllCoded(code: Code) { forall i :: i in code ==> Coded(i) }

  /** Arities, schemas and field positions fit. */
  predicate ConfigFits(cfg: Config) {
    && (forall c :: c in cfg.callTargets ==> cfg.callTargets[c].1 <= LIMIT)
    && (forall v :: v in cfg.variants ==> cfg.variants[v].schema <= LIMIT)
    && (forall f :: f in cfg.fieldIndices ==> cfg.fieldIndices[f] <= LIMIT)
  }

  predicate Within(tab: Strings, code: Code) { |tab| <= LIMIT && |code| <= LIMIT }

  /** Instructions the generator puts around expressions and bodies. */
  predicate IsGlue(i: Instr) {
    i.LABEL? || ((i.JMP? || i.CJMP?) && i.dest.offset.None?) || i.LOAD? || i.STORE? || i.BINOP? || i.DROP? || i.END? || i.NULL?
    || i.STA? || i.STS? || i.ELEM? || (i.CONST? && 0 <= i.value <= 1) || (i.SLICE? && 0 <= i.bounds < 4)
  }

  lemma Glue()
    ensures forall i :: IsGlue(i) ==> Coded(i)
  {
  }

  // ---------------------------------------------------------------- expressions

  lemma {:induction false} ExprCoded(cfg: Config, sc: Scope, tab: Strings, e: Expr)
    requires EmitExpr(cfg, sc, tab, e).Ok? && ConfigFits(cfg) && Within(EmitExpr(cfg, sc, tab, e).value.0, EmitExpr(cfg, sc, tab, e).value.1)
    ensures AllCoded(EmitExpr(cfg, sc, tab, e).value.1) && |EmitExpr(cfg, sc, tab, e).value.1| >= 1
    decreases e, 1
  {
    hide CalleeOf, FindVariable, Operator, Coded, UnaryCode, BoundsMask;
    Glue();
    match e {
      case IntegerLit(_) => LeafCoded(cfg, sc, tab, e);
      case BooleanLit(_) => LeafCoded(cfg, sc, tab, e);
      case RealLit(_) => LeafCoded(cfg, sc, tab, e);
      case TextLit(_) => LeafCoded(cfg, sc, tab, e);
      case NullLit =>
      case Name(_) => LeafCoded(cfg, sc, tab, e);
      case Binary(operator, left, right) =>
        ExprCoded(cfg, sc, tab, left);
        if operator.Dot? { NumberCoded(cfg.fieldIndices[right.name]); }
        else { ExprCoded(cfg, sc, EmitExpr(cfg, sc, tab, left).value.0, right); }
      case Unary(unary, operand) =>
        ExprCoded(cfg, sc, tab, operand);
        UnaryCoded(unary);
      case TupleConstruct(elements) =>
        ExprsCoded(cfg, sc, tab, elements);
        NumberCoded(|elements|);
      case FunctionCall(f, arguments) => CallCoded(cfg, sc, tab, e);
      case Subscript(collection, index) =>
        ExprCoded(cfg, sc, tab, collection);
        ExprCoded(cfg, sc, EmitExpr(cfg, sc, tab, collection).value.0, index);
      case SliceExpr(collection, from, to) =>
        ExprCoded(cfg, sc, tab, collection);
        var tab1 := EmitExpr(cfg, sc, tab, collection).value.0;
        MaybeCoded(cfg, sc, tab1, from);
        MaybeCoded(cfg, sc, EmitMaybe(cfg, sc, tab1, from).value.0, to);
        UnaryCoded(Plus);
    }
  }

  lemma LeafCoded(cfg: Config, sc: Scope, tab: Strings, e: Expr)
    requires e.IntegerLit? || e.BooleanLit? || e.RealLit? || e.TextLit? || e.Name?
    requires EmitExpr(cfg, sc, tab, e).Ok? && ConfigFits(cfg) && Within(EmitExpr(cfg, sc, tab, e).value.0, EmitExpr(cfg, sc, tab, e).value.1)
    ensures AllCoded(EmitExpr(cfg, sc, tab, e).value.1) && |EmitExpr(cfg, sc, tab, e).value.1| >= 1
  {
    hide FindVariable;
    if e.TextLit? { InternedWithin(tab, e.bytes); }
  }

  lemma NumberCoded(n: nat)
    requires n <= LIMIT
    ensures Coded(TUPLE(n)) && Coded(FIELD(n)) && Coded(SETFIELD(n)) && Coded(VARIANT(n)) && Coded(ISVARIANT(n))
  {
  }

  lemma UnaryCoded(unary: UnaryOperator)
    ensures AllCoded(UnaryCode(unary)) && forall from, to :: Coded(SLICE(BoundsMask(from, to)))
  {
  }

  lemma InternedWithin(tab: Strings, bytes: seq<Byte>)
    ensures StringTable.Intern(tab, bytes).0 < |StringTable.Intern(tab, bytes).1|
  {
    if StringTable.FindFrom(tab, 0, bytes).Some? { StringTable.FindFromReads(tab, 0, bytes); }
  }

  lemma {:induction false} CallCoded(cfg: Config, sc: Scope, tab: Strings, e: Expr)
    requires e.FunctionCall? && EmitExpr(cfg, sc, tab, e).Ok? && ConfigFits(cfg)
    requires Within(EmitExpr(cfg, sc, tab, e).value.0, EmitExpr(cfg, sc, tab, e).value.1)
    ensures AllCoded(EmitExpr(cfg, sc, tab, e).value.1) && |EmitExpr(cfg, sc, tab, e).value.1| >= 1
    decreases e, 0
  {
    hide CalleeOf, EmitExprs, EmitCallee, BuiltinNamed;
    var f := e.function_;
    if f.Name? && f.name in cfg.variants {
      ExprsCoded(cfg, sc, tab, e.arguments);
    } else {
      CalleeCoded(cfg, sc, tab, f);
      var tab1 := EmitCallee(cfg, sc, tab, f).value.0;
      ExprsCoded(cfg, sc, tab1, e.arguments);
      CallIsCoded(cfg, f, |e.arguments|);
    }
  }

  lemma CallIsCoded(cfg: Config, f: Expr, n: nat)
    requires n <= LIMIT
    ensures Coded(CallCode(CalleeOf(cfg, f), n))
  {
  }

  lemma {:induction false} CalleeCoded(cfg: Config, sc: Scope, tab: Strings, f: Expr)
    requires EmitCallee(cfg, sc, tab, f).Ok? && ConfigFits(cfg) && Within(EmitCallee(cfg, sc, tab, f).value.0, EmitCallee(cfg, sc, tab, f).value.1)
    ensures AllCoded(EmitCallee(cfg, sc, tab, f).value.1)
    decreases f, 2
  {
    hide CalleeOf, EmitExpr;
    if CalleeOf(cfg, f).Computed? { ExprCoded(cfg, sc, tab, f); }
  }

  lemma {:induction false} ExprsCoded(cfg: Config, sc: Scope, tab: Strings, es: seq<Expr>)
    requires EmitExprs(cfg, sc, tab, es).Ok? && ConfigFits(cfg) && Within(EmitExprs(cfg, sc, tab, es).value.0, EmitExprs(cfg, sc, tab, es).value.1)
    ensures AllCoded(EmitExprs(cfg, sc, tab, es).value.1) && |EmitExprs(cfg, sc, tab, es).value.1| >= |es|
    decreases es, 0
  {
    hide EmitExpr, Coded;
    if es != [] {
      ExprCoded(cfg, sc, tab, es[0]);
      ExprsCoded(cfg, sc, EmitExpr(cfg, sc, tab, es[0]).value.0, es[1..]);
    }
  }

  lemma {:induction false} MaybeCoded(cfg: Config, sc: Scope, tab: Strings, e: MaybeExpr)
    requires EmitMaybe(cfg, sc, tab, e).Ok? && ConfigFits(cfg) && Within(EmitMaybe(cfg, sc, tab, e).value.0, EmitMaybe(cfg, sc, tab, e).value.1)
    ensures AllCoded(EmitMaybe(cfg, sc, tab, e).value.1)
    decreases e, 0
  {
    hide EmitExpr, Coded;
    if e.Present? { ExprCoded(cfg, sc, tab, e.expr); }
  }

  // ---------------------------------------------------------------- statements

  /** A call of the output or input builtin with its operand: the operand is not zero. */
  predicate Speaks(n: nat, flag: bool) { flag || n % NEWLINE_FLAG != 0 }

  lemma SpeaksIff(name: Builtin, n: nat, flag: bool)
    requires name in {Lread, Lwrite}
    ensures Coded(CALLBUILTIN(name, PackCount(n, flag))) <==> Speaks(n, flag)
  {
  }

  /** No output without newline and values, and no input of text without variables, up to the
      30 bits of the count. */
  predicate StmtSpeaks(s: Stmt)
    decreases s
  {
    match s
    case Output(noNewline, values) => Speaks(|values|, !noNewline)
    case Input(textMode, variables) => Speaks(|variables|, !textMode)
    case Conditional(_, thenBody, elseBody) => BlockSpeaks(thenBody) && ElseSpeaks(elseBody)
    case ValueMatch(_, _, cases, elseBody) => CasesSpeak(cases) && ElseSpeaks(elseBody)
    case Loop(_, body) => BlockSpeaks(body)
    case _ => true
  }

  predicate BlockSpeaks(stmts: seq<Stmt>)
    decreases stmts
  {
    stmts == [] || (StmtSpeaks(stmts[0]) && BlockSpeaks(stmts[1..]))
  }

  predicate ElseSpeaks(elseBody: MaybeBody)
    decreases elseBody
  {
    elseBody.NoBody? || BlockSpeaks(elseBody.stmts)
  }

  predicate CasesSpeak(cases: seq<Case>)
    decreases cases
  {
    cases == [] || (BlockSpeaks(cases[0].body) && CasesSpeak(cases[1..]))
  }

  /** The emitted code can be encoded exactly when `speaks`. */
  ghost predicate CodedIff(cfg: Config, r: Emitted, speaks: bool) {
    r.Ok? && ConfigFits(cfg) && Within(r.value.0.strings, r.value.1) ==> (AllCoded(r.value.1) <==> speaks)
  }

  lemma {:induction false} StmtCoded(cfg: Config, env: GenEnv, s: Stmt)
    ensures CodedIff(cfg, EmitStmt(cfg, env, s), StmtSpeaks(s))
    decreases s, 1
  {
    hide AllCoded, ConfigFits, EmitConditional, EmitMatch, EmitWhile, EmitRepeat, EmitFor;
    if s.Conditional? {
      ConditionalCoded(cfg, env, s);
    } else if s.ValueMatch? {
      MatchCoded(cfg, env, s);
    } else if s.Loop? {
      if s.header.While? { WhileCoded(cfg, env, s); }
      else if s.header.Repeat? { RepeatCoded(cfg, env, s); }
      else { ForCoded(cfg, env, s); }
    } else {
      SimpleCoded(cfg, env, s);
    }
  }

  lemma SimpleCoded(cfg: Config, env: GenEnv, s: Stmt)
    requires !s.Conditional? && !s.ValueMatch? && !s.Loop?
    ensures CodedIff(cfg, EmitStmt(cfg, env, s), StmtSpeaks(s))
  {
    hide EmitExpr, EmitExprs, EmitCallee, EmitAssign, EmitInputs, CalleeOf, AfterStmt, FindVariable, ConfigFits, Coded, CallCode, PackCount, Speaks;
    var r := EmitStmt(cfg, env, s);
    Glue();
    if r.Ok? && ConfigFits(cfg) && Within(r.value.0.strings, r.value.1) {
      match s {
        case Declaration(_, value) => ExprCoded(cfg, env.scope, env.strings, value);
        case Assignment(target, value) =>
          ExprCoded(cfg, env.scope, env.strings, value);
          AssignCoded(cfg, env.scope, EmitExpr(cfg, env.scope, env.strings, value).value.0, target);
        case ProcedureCall(procedure, arguments) =>
          CalleeCoded(cfg, env.scope, env.strings, procedure);
          ExprsCoded(cfg, env.scope, EmitCallee(cfg, env.scope, env.strings, procedure).value.0, arguments);
          CallIsCoded(cfg, procedure, |arguments|);
        case Output(noNewline, values) =>
          ExprsCoded(cfg, env.scope, env.strings, values);
          SpeaksIff(Lwrite, |values|, !noNewline);
          assert r.value.1[|r.value.1| - 1] in r.value.1;
        case Input(textMode, variables) =>
          InputsCoded(env.scope, variables);
          SpeaksIff(Lread, |variables|, !textMode);
          assert r.value.1[0] in r.value.1;
        case ReturnFromFunction(result) => ExprCoded(cfg, env.scope, env.strings, result);
        case ExitLoop =>
      }
    }
  }

  lemma AssignCoded(cfg: Config, sc: Scope, tab: Strings, target: LValue)
    requires EmitAssign(cfg, sc, tab, target).Ok? && ConfigFits(cfg) && Within(EmitAssign(cfg, sc, tab, target).value.0, EmitAssign(cfg, sc, tab, target).value.1)
    ensures AllCoded(EmitAssign(cfg, sc, tab, target).value.1)
  {
    hide EmitExpr, EmitMaybe, FindVariable;
    Glue();
    match target {
      case NameTarget(_) =>
      case SubscriptTarget(_, index) => ExprCoded(cfg, sc, tab, index);
      case SliceTarget(_, from, to) =>
        MaybeCoded(cfg, sc, tab, from);
        MaybeCoded(cfg, sc, EmitMaybe(cfg, sc, tab, from).value.0, to);
      case FieldTarget(left, _) => ExprCoded(cfg, sc, tab, left);
    }
  }

  lemma {:induction false} InputsCoded(sc: Scope, variables: seq<LValue>)
    requires EmitInputs(sc, variables).Ok?
    ensures AllCoded(EmitInputs(sc, variables).value.1)
    decreases variables
  {
    hide FindVariable;
    if variables != [] {
      var v := variables[0];
      InputsCoded(if FindVariable(sc, v.name).Ok? then sc else Allocate(sc, v.name), variables[1..]);
    }
  }

  lemma {:induction false} BlockCoded(cfg: Config, env: GenEnv, stmts: seq<Stmt>)
    ensures CodedIff(cfg, EmitBlock(cfg, env, stmts), BlockSpeaks(stmts))
    decreases stmts, 0
  {
    hide EmitStmt, Coded, ConfigFits;
    if stmts != [] && EmitBlock(cfg, env, stmts).Ok? {
      StmtCoded(cfg, env, stmts[0]);
      BlockCoded(cfg, EmitStmt(cfg, env, stmts[0]).value.0, stmts[1..]);
    }
  }

  lemma {:induction false} ElseCoded(cfg: Config, env: GenEnv, elseBody: MaybeBody)
    ensures CodedIff(cfg, EmitElse(cfg, env, elseBody), ElseSpeaks(elseBody))
    decreases elseBody, 0
  {
    hide EmitBlock, Coded, ConfigFits;
    if elseBody.Body? { BlockCoded(cfg, env, elseBody.stmts); }
  }

  lemma ConditionalCoded(cfg: Config, env: GenEnv, s: Stmt)
    requires s.Conditional?
    ensures CodedIff(cfg, EmitConditional(cfg, env, s), StmtSpeaks(s))
    decreases s, 0
  {
    hide EmitExpr, EmitBlock, EmitElse, Fresh, Coded, ConfigFits, BlockSpeaks;
    var r := EmitConditional(cfg, env, s);
    if r.Ok? && ConfigFits(cfg) && Within(r.value.0.strings, r.value.1) {
      var n := env.labels;
      var (tab, cond) := EmitExpr(cfg, env.scope, env.strings, s.condition).value;
      var env1 := env.(strings := tab, labels := if s.elseBody.Body? then n + 3 else n + 2);
      var (env2, thenCode) := EmitBlock(cfg, env1, s.thenBody).value;
      var (env3, elseCode) := EmitElse(cfg, env2, s.elseBody).value;
      Glue();
      ExprCoded(cfg, env.scope, env.strings, s.condition);
      BlockCoded(cfg, env1, s.thenBody);
      ElseCoded(cfg, env2, s.elseBody);
      if s.elseBody.NoBody? { LabelNames.NoElse(cfg, env2); }
    }
  }

  lemma WhileCoded(cfg: Config, env: GenEnv, s: Stmt)
    requires s.Loop? && s.header.While?
    ensures CodedIff(cfg, EmitWhile(cfg, env, s), StmtSpeaks(s))
    decreases s, 0
  {
    hide EmitExpr, EmitBlock, Fresh, Coded, ConfigFits;
    var r := EmitWhile(cfg, env, s);
    if r.Ok? && ConfigFits(cfg) && Within(r.value.0.strings, r.value.1) {
      var n := env.labels;
      var tab := EmitExpr(cfg, env.scope, env.strings, s.header.condition).value.0;
      var env1 := env.(strings := tab, labels := n + 2, ends := env.ends + [Fresh("while_end", n + 1)]);
      Glue();
      ExprCoded(cfg, env.scope, env.strings, s.header.condition);
      BlockCoded(cfg, env1, s.body);
    }
  }

  lemma RepeatCoded(cfg: Config, env: GenEnv, s: Stmt)
    requires s.Loop? && s.header.Repeat?
    ensures CodedIff(cfg, EmitRepeat(cfg, env, s), StmtSpeaks(s))
    decreases s, 0
  {
    hide EmitExpr, EmitBlock, Fresh, LoopVariable, Allocate, Deallocate, NextSlot, Coded, ConfigFits;
    var r := EmitRepeat(cfg, env, s);
    if r.Ok? && ConfigFits(cfg) && Within(r.value.0.strings, r.value.1) {
      var n := env.labels;
      var sc := Allocate(env.scope, LoopVariable(s.header));
      var tab := EmitExpr(cfg, sc, env.strings, s.header.count).value.0;
      var env1 := env.(scope := sc, strings := tab, labels := n + 2, ends := env.ends + [Fresh("repeat_end", n + 1)]);
      Glue();
      ExprCoded(cfg, sc, env.strings, s.header.count);
      BlockCoded(cfg, env1, s.body);
    }
  }

  lemma ForCoded(cfg: Config, env: GenEnv, s: Stmt)
    requires s.Loop? && s.header.For?
    ensures CodedIff(cfg, EmitFor(cfg, env, s), StmtSpeaks(s))
    decreases s, 0
  {
    hide EmitMaybe, EmitBlock, Fresh, Allocate, Deallocate, NextSlot, ForTest, ForAdvance, SimpleGuard, Coded, ConfigFits;
    var r := EmitFor(cfg, env, s);
    if r.Ok? && ConfigFits(cfg) && Within(r.value.0.strings, r.value.1) {
      var h, n, x := s.header, env.labels, NextSlot(env.scope);
      var end := Fresh("for_end", n + 1);
      var (tab1, from) := EmitMaybe(cfg, env.scope, env.strings, h.from).value;
      var (tab2, to) := EmitMaybe(cfg, env.scope, tab1, h.to).value;
      var (tab3, given) := EmitMaybe(cfg, env.scope, tab2, h.step).value;
      var env1 := env.(scope := Allocate(env.scope, h.variable), strings := tab3, labels := n + 2, ends := env.ends + [end]);
      Glue();
      GuardCoded(h.to, x, if h.step.Present? then given else [CONST(1)], to, SimpleGuard(h.step, to), end);
      MaybeWithin(cfg, env.scope, env.strings, h.from);
      MaybeWithin(cfg, env.scope, tab1, h.to);
      MaybeWithin(cfg, env.scope, tab2, h.step);
      BlockCoded(cfg, env1, s.body);
    }
  }

  lemma GuardCoded(bound: MaybeExpr, x: Variable, step: Code, to: Code, simple: bool, end: string)
    ensures AllCoded(step) && AllCoded(to) ==> AllCoded(ForTest(bound, x, step, to, simple, end)) && AllCoded(ForAdvance(x, step))
    ensures |ForAdvance(x, step)| >= |step| && (bound.Present? ==> |ForTest(bound, x, step, to, simple, end)| >= |to|)
  {
    hide Coded;
    Glue();
  }

  lemma MaybeWithin(cfg: Config, sc: Scope, tab: Strings, e: MaybeExpr)
    ensures var r := EmitMaybe(cfg, sc, tab, e); r.Ok? && ConfigFits(cfg) && Within(r.value.0, r.value.1) ==> AllCoded(r.value.1)
    ensures e.Absent? ==> EmitMaybe(cfg, sc, tab, e) == Ok((tab, []))
  {
    hide EmitExpr, AllCoded, ConfigFits;
    var r := EmitMaybe(cfg, sc, tab, e);
    if r.Ok? && ConfigFits(cfg) && Within(r.value.0, r.value.1) { MaybeCoded(cfg, sc, tab, e); }
  }

  lemma MatchCoded(cfg: Config, env: GenEnv, s: Stmt)
    requires s.ValueMatch?
    ensures CodedIff(cfg, EmitMatch(cfg, env, s), StmtSpeaks(s))
    decreases s, 0
  {
    hide EmitExpr, EmitCases, EmitElse, Fresh, Allocate, Deallocate, NextSlot, HiddenName, Coded, ConfigFits, CasesSpeak;
    var r := EmitMatch(cfg, env, s);
    if r.Ok? && ConfigFits(cfg) && Within(r.value.0.strings, r.value.1) {
      var name, x := HiddenName("match", s.span), NextSlot(env.scope);
      var sc := if s.subject.Name? then env.scope else Allocate(env.scope, name);
      var (tab, code) := (if s.subject.Name? then Ok((env.strings, [])) else EmitExpr(cfg, sc, env.strings, s.subject)).value;
      var subject := if s.subject.Name? then Reread(s.subject.name) else Held(x);
      var end := Fresh("match_end", env.labels);
      var env1 := env.(scope := sc, strings := tab, labels := env.labels + 1);
      var env2 := EmitCases(cfg, env1, subject, end, s.cases).value.0;
      Glue();
      if !s.subject.Name? { ExprCoded(cfg, sc, env.strings, s.subject); }
      CasesCoded(cfg, env1, subject, end, s.cases);
      ElseCoded(cfg, env2, s.elseBody);
    }
  }

  lemma {:induction false} CasesCoded(cfg: Config, env: GenEnv, subject: Subject, end: string, cases: seq<Case>)
    ensures CodedIff(cfg, EmitCases(cfg, env, subject, end, cases), CasesSpeak(cases))
    decreases cases, 0
  {
    hide EmitCase, Coded, ConfigFits, BlockSpeaks;
    if cases != [] && EmitCases(cfg, env, subject, end, cases).Ok? {
      CaseCoded(cfg, env, subject, end, cases[0]);
      CasesCoded(cfg, EmitCase(cfg, env, subject, end, cases[0]).value.0, subject, end, cases[1..]);
    }
  }

  lemma CaseCoded(cfg: Config, env: GenEnv, subject: Subject, end: string, c: Case)
    ensures CodedIff(cfg, EmitCase(cfg, env, subject, end, c), BlockSpeaks(c.body))
    decreases c, 1
  {
    hide EmitTest, EmitBindings, EmitBlock, Fresh, Bindings, Coded, ConfigFits, BlockSpeaks;
    var r := EmitCase(cfg, env, subject, end, c);
    if r.Ok? && ConfigFits(cfg) && Within(r.value.0.strings, r.value.1) {
      var (tab, test) := EmitTest(cfg, env.scope, env.strings, subject, c).value;
      var (sc, bind) := EmitBindings(cfg, env.scope, subject, Bindings(cfg, c), 0).value;
      var env1 := env.(scope := sc, strings := tab, labels := env.labels + 1);
      Glue();
      TestCoded(cfg, env.scope, env.strings, subject, c);
      BindingsCoded(cfg, env.scope, subject, Bindings(cfg, c), 0);
      BlockCoded(cfg, env1, c.body);
    }
  }

  lemma TestCoded(cfg: Config, sc: Scope, tab: Strings, subject: Subject, c: Case)
    requires EmitTest(cfg, sc, tab, subject, c).Ok? && ConfigFits(cfg) && Within(EmitTest(cfg, sc, tab, subject, c).value.0, EmitTest(cfg, sc, tab, subject, c).value.1)
    ensures AllCoded(EmitTest(cfg, sc, tab, subject, c).value.1)
  {
    hide EmitExpr, FindVariable;
    Glue();
    if PatternOf(cfg, c.values[0]).Plain? { ExprCoded(cfg, sc, tab, c.values[0]); }
  }

  lemma {:induction false} BindingsCoded(cfg: Config, sc: Scope, subject: Subject, names: seq<Expr>, k: nat)
    requires EmitBindings(cfg, sc, subject, names, k).Ok? && ConfigFits(cfg)
    requires k + |EmitBindings(cfg, sc, subject, names, k).value.1| <= LIMIT
    ensures AllCoded(EmitBindings(cfg, sc, subject, names, k).value.1)
    decreases names
  {
    hide FindVariable;
    Glue();
    if names != [] { BindingsCoded(cfg, Allocate(sc, names[0].name), subject, names[1..], k + 1); }
  }

  // ---------------------------------------------------------------- programs

  predicate ProgramSpeaks(ms: seq<ModuleDef>) {
    forall m :: m in ms ==> BlockSpeaks(m.toplevel) && forall f :: f in m.functions ==> BlockSpeaks(f.body)
  }

  /** Arity, frame and the tables a unit refers to fit their operands. */
  predicate UnitSized(u: Unit) { ConfigFits(u.cfg) && u.arity <= LIMIT && FrameSize(u) <= LIMIT }

  /** String table, code, global area, arities, frames, schemas and field positions fit. */
  predicate SizesFit(ms: seq<ModuleDef>) {
    EmitProgram(ms).Ok? ==>
      var (g, units, code) := EmitProgram(ms).value;
      Within(g.strings, code) && g.globals <= LIMIT && forall u :: u in units ==> UnitSized(u.unit)
  }

  /** A unit that fits its frame, whose calls match, and whose sizes fit. */
  ghost predicate UnitReady(lib: RT.Library, globals: nat, u: Unit) {
    PS.UnitFits(lib, globals, u) && PS.UnitMatches(u) && UnitSized(u)
  }

  predicate SlotCoded(i: Instr) { (i.LOAD? || i.STORE?) ==> FitsI32(i.index) }

  lemma CodableSplit(a: Code, b: Code)
    ensures AllCodable(a + b) <==> AllCodable(a) && AllCodable(b)
  {
    hide Codable;
    if AllCodable(a + b) {
      forall i | i in a ensures Codable(i) { assert i in a + b; }
      forall i | i in b ensures Codable(i) { assert i in a + b; }
    }
  }

  lemma BothCodable(code: Code)
    requires forall i :: i in code ==> SlotCoded(i)
    ensures AllCodable(code) <==> AllCoded(code)
  {
    forall i | i in code ensures Codable(i) <==> Coded(i) { assert SlotCoded(i); }
  }

  lemma UnitCodable(lib: RT.Library, globals: nat, name: string, u: Unit, n: nat, tab: Strings)
    requires UnitReady(lib, globals, u) && globals <= LIMIT
    requires var r := EmitBlock(u.cfg, GenEnv(u.scope, n, [], tab), u.body); r.Ok? && Within(r.value.0.strings, r.value.1)
    ensures var body := EmitBlock(u.cfg, GenEnv(u.scope, n, [], tab), u.body).value.1;
      AllCodable([LABEL(name)] + UnitCode(u, body)) <==> BlockSpeaks(u.body)
  {
    hide EmitBlock, BlockMatches, AfterBlock, FrameSize, BlockSpeaks, ConfigFits, Coded, Codable, HasReturn;
    var env := GenEnv(u.scope, n, [], tab);
    var body, x := EmitBlock(u.cfg, env, u.body).value.1, PS.UnitCtx(lib, globals, u);
    BlockCoded(u.cfg, env, u.body);
    BlockBalanced(x, env, u.body);
    forall i | i in body ensures SlotCoded(i) { assert Fits(x, i); }
    BothCodable(body);
    var front, epilogue := [LABEL(name)] + [BEGIN(u.arity, FrameSize(u))], Epilogue(u.scope.inFunction, u.body);
    FrontCodable(name, u);
    assert [LABEL(name)] + UnitCode(u, body) == front + body + epilogue;
    CodableSplit(front + body, epilogue);
    CodableSplit(front, body);
  }

  lemma FrontCodable(name: string, u: Unit)
    requires UnitSized(u)
    ensures AllCodable([LABEL(name)] + [BEGIN(u.arity, FrameSize(u))]) && AllCodable(Epilogue(u.scope.inFunction, u.body))
  {
    hide FrameSize, HasReturn;
  }

  lemma {:induction false} UnitsCodable(lib: RT.Library, globals: nat, units: seq<NamedUnit>, n: nat, tab: Strings)
    requires EmitUnits(units, n, tab).Ok? && Within(UnitsTable(EmitUnits(units, n, tab)), UnitsCode(EmitUnits(units, n, tab)))
    requires globals <= LIMIT && forall u :: u in units ==> UnitReady(lib, globals, u.unit)
    ensures AllCodable(UnitsCode(EmitUnits(units, n, tab))) <==> forall u :: u in units ==> BlockSpeaks(u.unit.body)
    decreases |units|
  {
    hide UnitReady, UnitCode, EmitBlock, Codable, BlockSpeaks;
    if units != [] {
      var u := units[0].unit;
      var (env, body) := EmitBlock(u.cfg, GenEnv(u.scope, n, [], tab), u.body).value;
      assert units[0] in units && forall v :: v in units[1..] ==> v in units;
      UnitLonger(u, body);
      UnitCodable(lib, globals, units[0].name, u, n, tab);
      UnitsCodable(lib, globals, units[1..], env.labels, env.strings);
      CodableSplit([LABEL(units[0].name)] + UnitCode(u, body), UnitsCode(EmitUnits(units[1..], env.labels, env.strings)));
      assert (forall v :: v in units ==> BlockSpeaks(v.unit.body))
        <==> BlockSpeaks(u.body) && forall v :: v in units[1..] ==> BlockSpeaks(v.unit.body) by {
        assert units == [units[0]] + units[1..];
      }
    }
  }

  lemma UnitLonger(u: Unit, body: Code)
    ensures |UnitCode(u, body)| > |body|
  {
    hide FrameSize, HasReturn;
  }

  lemma {:induction false} ModulesCodable(lib: RT.Library, globals: nat, ms: seq<ModuleDef>, g: Gen)
    requires EmitModules(ms, g).Ok? && Within(ModulesGen(EmitModules(ms, g)).strings, ModulesCode(EmitModules(ms, g)))
    requires globals <= LIMIT && forall u :: u in ModulesUnits(EmitModules(ms, g)) ==> UnitReady(lib, globals, u.unit)
    ensures AllCodable(ModulesCode(EmitModules(ms, g))) <==> forall u :: u in ModulesUnits(EmitModules(ms, g)) ==> BlockSpeaks(u.unit.body)
    decreases |ms|
  {
    hide UnitReady, EmitUnits, AddTypes, TopScope, UnitsOf, Codable, BlockSpeaks;
    if ms != [] {
      var m := ms[0];
      var g1 := AddTypes(g, m.types);
      var units := UnitsOf(m, g1);
      var (n, tab, code) := EmitUnits(units, g1.labels, g1.strings).value;
      var g2 := g1.(globals := TopScope(m, g1).globalCounter, labels := n, strings := tab);
      var (last, units', code') := EmitModules(ms[1..], g2).value;
      assert forall u :: u in units + units' <==> u in units || u in units';
      UnitsCodable(lib, globals, units, g1.labels, g1.strings);
      ModulesCodable(lib, globals, ms[1..], g2);
      CodableSplit(code, code');
    }
  }

  predicate UnitsSpeak(units: seq<NamedUnit>) { forall u :: u in units ==> BlockSpeaks(u.unit.body) }

  lemma UnitsSpeakNone()
    ensures UnitsSpeak([])
  {
  }

  lemma UnitsSpeakOne(u: NamedUnit)
    ensures UnitsSpeak([u]) <==> BlockSpeaks(u.unit.body)
  {
    assert u in [u];
  }

  lemma UnitsSpeakBoth(a: seq<NamedUnit>, b: seq<NamedUnit>)
    ensures UnitsSpeak(a + b) <==> UnitsSpeak(a) && UnitsSpeak(b)
  {
    hide BlockSpeaks;
    assert forall u :: u in a + b <==> u in a || u in b;
  }

  lemma {:induction false} FunctionsSpeak(m: ModuleDef, cfg: Config, top: Scope, functions: seq<FunctionDef>)
    ensures UnitsSpeak(FunctionUnits(m, cfg, top, functions)) <==> forall f :: f in functions ==> BlockSpeaks(f.body)
    decreases |functions|
  {
    hide BlockSpeaks, UnitsSpeak;
    if functions != [] {
      var units, rest := FunctionUnits(m, cfg, top, functions), FunctionUnits(m, cfg, top, functions[1..]);
      FunctionsSpeak(m, cfg, top, functions[1..]);
      assert units == [units[0]] + rest && functions == [functions[0]] + functions[1..];
      UnitsSpeakOne(units[0]);
      UnitsSpeakBoth([units[0]], rest);
    } else {
      UnitsSpeakNone();
    }
  }

  lemma {:induction false} ModulesSpeak(ms: seq<ModuleDef>, g: Gen)
    requires EmitModules(ms, g).Ok?
    ensures UnitsSpeak(ModulesUnits(EmitModules(ms, g))) <==> ProgramSpeaks(ms)
    decreases |ms|
  {
    hide EmitUnits, AddTypes, TopScope, BlockSpeaks, FunctionUnits, ConfigOf, UnitsSpeak;
    UnitsSpeakNone();
    if ms != [] {
      var m := ms[0];
      var g1 := AddTypes(g, m.types);
      var units, functions := UnitsOf(m, g1), FunctionUnits(m, ConfigOf(m, g1), TopScope(m, g1), m.functions);
      var (n, tab, _) := EmitUnits(units, g1.labels, g1.strings).value;
      var g2 := g1.(globals := TopScope(m, g1).globalCounter, labels := n, strings := tab);
      var units' := ModulesUnits(EmitModules(ms[1..], g2));
      FunctionsSpeak(m, ConfigOf(m, g1), TopScope(m, g1), m.functions);
      ModulesSpeak(ms[1..], g2);
      assert ms == [m] + ms[1..] && ModulesUnits(EmitModules(ms, g)) == [units[0]] + functions + units';
      UnitsSpeakOne(units[0]);
      UnitsSpeakBoth([units[0]] + functions, units');
      UnitsSpeakBoth([units[0]], functions);
    }
  }

  lemma {:induction false} InitCallsCodable(ms: seq<ModuleDef>)
    ensures AllCodable(InitCalls(ms))
  {
    hide InitLabel;
    if ms != [] {
      var call := CALL(Named(InitLabel(ms[0])), 0);
      assert Codable(call) && Codable(DROP);
      hide Codable;
      InitCallsCodable(ms[1..]);
      CodableSplit([call] + [DROP], InitCalls(ms[1..]));
    }
  }

  lemma MainCodable(ms: seq<ModuleDef>)
    ensures AllCodable(MainCode(ms))
  {
    assert Codable(LABEL(MAIN)) && Codable(BEGIN(0, 0)) && Codable(NULL) && Codable(END);
    hide Codable, InitCalls;
    InitCallsCodable(ms);
    CodableSplit([LABEL(MAIN)] + [BEGIN(0, 0)] + InitCalls(ms), [NULL] + [END]);
    CodableSplit([LABEL(MAIN)] + [BEGIN(0, 0)], InitCalls(ms));
  }

  /** A program whose calls match and whose sizes fit compiles to code that the byte encoding
      can hold if and only if it neither writes nothing without newline nor reads no text. */
  lemma CodableIff(ms: seq<ModuleDef>, lib: RT.Library)
    requires EmitProgram(ms).Ok? && SizesFit(ms) && PS.ProgramMatches(ms) && PS.SchemasRead(ProgramGen(ms), lib)
    ensures AllCodable(ProgramCode(ms)) <==> ProgramSpeaks(ms)
  {
    hide EmitModules, MainCode, PS.UnitFits, PS.UnitMatches, UnitSized, PS.SchemasRead, PS.ImportsDefined, AllCodable, ProgramSpeaks;
    var (g, units, code) := EmitModules(ms, NEW_GEN).value;
    PS.ModulesFit(ms, NEW_GEN, lib);
    ModulesCodable(lib, g.globals, ms, NEW_GEN);
    ModulesSpeak(ms, NEW_GEN);
    MainCodable(ms);
    CodableSplit(code, MainCode(ms));
  }

  /** The program `вывод бпс:`: the assembler accepts the call and drops its operand, and what
      is read back is another instruction, or none. */
  lemma SilentOutput(env: GenEnv, cfg: Config)
    ensures EmitStmt(cfg, env, Output(true, [])) == Ok((env, [CALLBUILTIN(Lwrite, 0)]))
    ensures Encode(CALLBUILTIN(Lwrite, 0)) == Ok([0x71]) && Fetch([0x71], 0) == Err(EndOfCode)
  {
    assert EmitExprs(cfg, env.scope, env.strings, []) == Ok((env.strings, []));
    assert [] + [CALLBUILTIN(Lwrite, 0)] == [CALLBUILTIN(Lwrite, 0)];
    var code: seq<Byte> := [0x71];
    assert code + [] == code && Encode(CALLBUILTIN(Lwrite, 0)) == Ok(code + []);
    assert FetchBuiltin(code, 0, 0x71) == Operand(code, 0, n => CALLBUILTIN(Lwrite, n));
    assert ReadByte(code, 0) == Ok(0x71);
  }
}
