/** Tidy program text compiles to tidy code (crates/compiler-core/src/codegen/bcgen.rs): no
    slice is written or assigned, no item is assigned, and `*` is not used beside tuples. */
module TidyCode {
  import opened Results
  import opened Bytecode
  import opened Ast
  import opened Scoping
  import opened Codegen
  import opened TameHeaps
  import opened Linking

  // Tidy text

  predicate TidyExpr(e: Expr, tuples: bool)
    decreases e
  {
    match e
    case Binary(operator, left, right) => (tuples ==> operator != Multiply) && TidyExpr(left, tuples) && TidyExpr(right, tuples)
    case Unary(_, operand) => TidyExpr(operand, tuples)
    case TupleConstruct(elements) => tuples && TidyExprs(elements, tuples)
    case FunctionCall(f, arguments) => TidyExpr(f, tuples) && TidyExprs(arguments, tuples)
    case Subscript(collection, index) => TidyExpr(collection, tuples) && TidyExpr(index, tuples)
    case SliceExpr(_, _, _) => false
    case _ => true
  }

  predicate TidyExprs(es: seq<Expr>, tuples: bool)
    decreases es
  {
    forall e :: e in es ==> TidyExpr(e, tuples)
  }

  predicate TidyMaybe(e: MaybeExpr, tuples: bool) { e.Present? ==> TidyExpr(e.expr, tuples) }

  predicate TidyTarget(target: LValue, tuples: bool) {
    target.NameTarget? || (target.FieldTarget? && TidyExpr(target.left, tuples))
  }

  predicate TidyHeader(h: LoopHeader, tuples: bool) {
    match h
    case While(condition) => TidyExpr(condition, tuples)
    case Repeat(count, _) => TidyExpr(count, tuples)
    case For(_, from, to, step) => TidyMaybe(from, tuples) && TidyMaybe(to, tuples) && TidyMaybe(step, tuples)
  }

  predicate TidyStmt(s: Stmt, tuples: bool)
    decreases s
  {
    match s
    case Declaration(_, value) => TidyExpr(value, tuples)
    case Assignment(target, value) => TidyTarget(target, tuples) && TidyExpr(value, tuples)
    case ProcedureCall(procedure, arguments) => TidyExpr(procedure, tuples) && TidyExprs(arguments, tuples)
    case Conditional(condition, thenBody, elseBody) =>
      TidyExpr(condition, tuples) && TidyBlock(thenBody, tuples) && TidyElse(elseBody, tuples)
    case ValueMatch(_, subject, cases, elseBody) =>
      TidyExpr(subject, tuples) && TidyCases(cases, tuples) && TidyElse(elseBody, tuples)
    case Loop(header, body) => TidyHeader(header, tuples) && TidyBlock(body, tuples)
    case Output(_, values) => TidyExprs(values, tuples)
    case ReturnFromFunction(result) => TidyExpr(result, tuples)
    case _ => true
  }

  predicate TidyBlock(stmts: seq<Stmt>, tuples: bool)
    decreases stmts
  {
    stmts == [] || (TidyStmt(stmts[0], tuples) && TidyBlock(stmts[1..], tuples))
  }

  predicate TidyElse(elseBody: MaybeBody, tuples: bool)
    decreases elseBody
  {
    elseBody.NoBody? || TidyBlock(elseBody.stmts, tuples)
  }

  predicate TidyCases(cases: seq<Case>, tuples: bool)
    decreases cases
  {
    cases == [] || (TidyCase(cases[0], tuples) && TidyCases(cases[1..], tuples))
  }

  predicate TidyCase(c: Case, tuples: bool)
    decreases c
  {
    TidyExprs(c.values, tuples) && TidyBlock(c.body, tuples)
  }

  /** Every body of every module. */
  predicate TidyText(ms: seq<ModuleDef>, tuples: bool) {
    forall m :: m in ms ==> TidyBlock(m.toplevel, tuples) && forall f :: f in m.functions ==> TidyBlock(f.body, tuples)
  }

  // Expressions

  /** Instructions the generator puts around expressions and bodies. */
  predicate IsGlue(i: Instr) {
    i.LABEL? || i.JMP? || i.CJMP? || i.LOAD? || i.STORE? || i.DROP? || i.END? || i.NULL? || i.CALLBUILTIN? || i.ELEM? || i.CONST?
    || i.FIELD? || i.SETFIELD? || i.VARIANT? || i.ISVARIANT? || (i.BINOP? && i.op != MUL)
  }

  lemma Glue(tuples: bool)
    ensures forall i :: IsGlue(i) ==> Tidy(i, tuples)
  {
  }

  lemma {:induction false} ExprTidy(cfg: Config, sc: Scope, tab: Strings, e: Expr, tuples: bool)
    requires EmitExpr(cfg, sc, tab, e).Ok? && TidyExpr(e, tuples)
    ensures AllTidy(EmitExpr(cfg, sc, tab, e).value.1, tuples)
    decreases e, 1
  {
    hide CalleeOf, FindVariable, EmitName, UnaryCode, Operator, Tidy, TidyExprs;
    Glue(tuples);
    match e {
      case IntegerLit(_) => LeafTidy(cfg, sc, tab, e, tuples);
      case BooleanLit(_) => LeafTidy(cfg, sc, tab, e, tuples);
      case RealLit(_) => LeafTidy(cfg, sc, tab, e, tuples);
      case TextLit(_) => LeafTidy(cfg, sc, tab, e, tuples);
      case NullLit =>
      case Name(_) => LeafTidy(cfg, sc, tab, e, tuples);
      case Binary(operator, left, right) =>
        ExprTidy(cfg, sc, tab, left, tuples);
        if !operator.Dot? {
          ExprTidy(cfg, sc, EmitExpr(cfg, sc, tab, left).value.0, right, tuples);
          OperatorTidy(operator, tuples);
        }
      case Unary(unary, operand) =>
        ExprTidy(cfg, sc, tab, operand, tuples);
        UnaryTidy(unary, tuples);
      case TupleConstruct(elements) =>
        ExprsTidy(cfg, sc, tab, elements, tuples);
        TupleTidy(|elements|);
      case FunctionCall(_, _) => FunctionTidy(cfg, sc, tab, e, tuples);
      case Subscript(collection, index) =>
        ExprTidy(cfg, sc, tab, collection, tuples);
        ExprTidy(cfg, sc, EmitExpr(cfg, sc, tab, collection).value.0, index, tuples);
    }
  }

  lemma LeafTidy(cfg: Config, sc: Scope, tab: Strings, e: Expr, tuples: bool)
    requires e.IntegerLit? || e.BooleanLit? || e.RealLit? || e.TextLit? || e.Name?
    requires EmitExpr(cfg, sc, tab, e).Ok?
    ensures AllTidy(EmitExpr(cfg, sc, tab, e).value.1, tuples)
  {
    hide EmitName;
    if e.Name? { NameTidy(cfg, sc, e.name, tuples); }
  }

  lemma OperatorTidy(operator: BinaryOperator, tuples: bool)
    requires Operator(operator).Ok? && (tuples ==> operator != Multiply)
    ensures Tidy(BINOP(Operator(operator).value), tuples)
  {
  }

  lemma UnaryTidy(unary: UnaryOperator, tuples: bool)
    ensures AllTidy(UnaryCode(unary), tuples)
  {
  }

  lemma TupleTidy(n: nat)
    ensures Tidy(TUPLE(n), true)
  {
  }

  lemma {:induction false} FunctionTidy(cfg: Config, sc: Scope, tab: Strings, e: Expr, tuples: bool)
    requires e.FunctionCall? && EmitExpr(cfg, sc, tab, e).Ok? && TidyExpr(e, tuples)
    ensures AllTidy(EmitExpr(cfg, sc, tab, e).value.1, tuples)
    decreases e, 0
  {
    hide CalleeOf, EmitExprs, EmitCallee, CallCode, Tidy, TidyExprs;
    Glue(tuples);
    var f := e.function_;
    if f.Name? && f.name in cfg.variants {
      ExprsTidy(cfg, sc, tab, e.arguments, tuples);
    } else {
      CalleeTidy(cfg, sc, tab, f, tuples);
      ExprsTidy(cfg, sc, EmitCallee(cfg, sc, tab, f).value.0, e.arguments, tuples);
      CallTidy(cfg, f, |e.arguments|, tuples);
    }
  }

  lemma NameTidy(cfg: Config, sc: Scope, name: string, tuples: bool)
    requires EmitName(cfg, sc, name).Ok?
    ensures AllTidy(EmitName(cfg, sc, name).value, tuples)
  {
    hide FindVariable;
  }

  lemma CallTidy(cfg: Config, f: Expr, n: nat, tuples: bool)
    ensures Tidy(CallCode(CalleeOf(cfg, f), n), tuples)
  {
    hide CalleeOf;
  }

  lemma {:induction false} CalleeTidy(cfg: Config, sc: Scope, tab: Strings, f: Expr, tuples: bool)
    requires EmitCallee(cfg, sc, tab, f).Ok? && TidyExpr(f, tuples)
    ensures AllTidy(EmitCallee(cfg, sc, tab, f).value.1, tuples)
    decreases f, 2
  {
    hide CalleeOf, EmitExpr;
    if CalleeOf(cfg, f).Computed? { ExprTidy(cfg, sc, tab, f, tuples); }
  }

  lemma {:induction false} ExprsTidy(cfg: Config, sc: Scope, tab: Strings, es: seq<Expr>, tuples: bool)
    requires EmitExprs(cfg, sc, tab, es).Ok? && TidyExprs(es, tuples)
    ensures AllTidy(EmitExprs(cfg, sc, tab, es).value.1, tuples)
    decreases es, 0
  {
    hide EmitExpr, Tidy, TidyExpr;
    if es != [] {
      ExprTidy(cfg, sc, tab, es[0], tuples);
      ExprsTidy(cfg, sc, EmitExpr(cfg, sc, tab, es[0]).value.0, es[1..], tuples);
    }
  }

  lemma {:induction false} MaybeTidy(cfg: Config, sc: Scope, tab: Strings, e: MaybeExpr, tuples: bool)
    requires EmitMaybe(cfg, sc, tab, e).Ok? && TidyMaybe(e, tuples)
    ensures AllTidy(EmitMaybe(cfg, sc, tab, e).value.1, tuples)
  {
    hide EmitExpr, Tidy, TidyExpr;
    if e.Present? { ExprTidy(cfg, sc, tab, e.expr, tuples); }
  }

  // Statements

  predicate YieldsTidy(r: Emitted, tuples: bool) { r.Ok? ==> AllTidy(r.value.1, tuples) }

  lemma {:induction false} StmtTidy(cfg: Config, env: GenEnv, s: Stmt, tuples: bool)
    requires TidyStmt(s, tuples)
    ensures YieldsTidy(EmitStmt(cfg, env, s), tuples)
    decreases s, 1
  {
    hide AllTidy, TidyStmt, EmitConditional, EmitMatch, EmitWhile, EmitRepeat, EmitFor;
    if s.Conditional? {
      ConditionalTidy(cfg, env, s, tuples);
    } else if s.ValueMatch? {
      MatchTidy(cfg, env, s, tuples);
    } else if s.Loop? {
      if s.header.While? { WhileTidy(cfg, env, s, tuples); }
      else if s.header.Repeat? { RepeatTidy(cfg, env, s, tuples); }
      else { ForTidy(cfg, env, s, tuples); }
    } else {
      SimpleTidy(cfg, env, s, tuples);
    }
  }

  lemma SimpleTidy(cfg: Config, env: GenEnv, s: Stmt, tuples: bool)
    requires TidyStmt(s, tuples) && !s.Conditional? && !s.ValueMatch? && !s.Loop?
    ensures YieldsTidy(EmitStmt(cfg, env, s), tuples)
  {
    hide EmitExpr, EmitExprs, EmitCallee, EmitAssign, EmitInputs, CalleeOf, AfterStmt, Tidy, CallCode, PackCount, TidyExpr, TidyExprs, TidyTarget;
    Glue(tuples);
    if EmitStmt(cfg, env, s).Ok? {
      match s {
        case Declaration(_, value) => ExprTidy(cfg, env.scope, env.strings, value, tuples);
        case Assignment(target, value) =>
          ExprTidy(cfg, env.scope, env.strings, value, tuples);
          AssignTidy(cfg, env.scope, EmitExpr(cfg, env.scope, env.strings, value).value.0, target, tuples);
        case ProcedureCall(procedure, arguments) =>
          CalleeTidy(cfg, env.scope, env.strings, procedure, tuples);
          ExprsTidy(cfg, env.scope, EmitCallee(cfg, env.scope, env.strings, procedure).value.0, arguments, tuples);
          CallTidy(cfg, procedure, |arguments|, tuples);
        case Output(_, values) => ExprsTidy(cfg, env.scope, env.strings, values, tuples);
        case Input(_, variables) => InputsTidy(env.scope, variables, tuples);
        case ReturnFromFunction(result) => ExprTidy(cfg, env.scope, env.strings, result, tuples);
        case ExitLoop =>
      }
    }
  }

  lemma AssignTidy(cfg: Config, sc: Scope, tab: Strings, target: LValue, tuples: bool)
    requires EmitAssign(cfg, sc, tab, target).Ok? && TidyTarget(target, tuples)
    ensures AllTidy(EmitAssign(cfg, sc, tab, target).value.1, tuples)
  {
    hide EmitExpr, FindVariable, TidyExpr;
    if target.FieldTarget? { ExprTidy(cfg, sc, tab, target.left, tuples); }
  }

  lemma {:induction false} InputsTidy(sc: Scope, variables: seq<LValue>, tuples: bool)
    requires EmitInputs(sc, variables).Ok?
    ensures AllTidy(EmitInputs(sc, variables).value.1, tuples)
    decreases variables
  {
    hide FindVariable;
    if variables != [] {
      var v := variables[0];
      InputsTidy(if FindVariable(sc, v.name).Ok? then sc else Allocate(sc, v.name), variables[1..], tuples);
    }
  }

  lemma {:induction false} BlockTidy(cfg: Config, env: GenEnv, stmts: seq<Stmt>, tuples: bool)
    requires TidyBlock(stmts, tuples)
    ensures YieldsTidy(EmitBlock(cfg, env, stmts), tuples)
    decreases stmts, 0
  {
    hide EmitStmt, Tidy, TidyStmt;
    if stmts != [] && EmitBlock(cfg, env, stmts).Ok? {
      StmtTidy(cfg, env, stmts[0], tuples);
      BlockTidy(cfg, EmitStmt(cfg, env, stmts[0]).value.0, stmts[1..], tuples);
    }
  }

  lemma {:induction false} ElseTidy(cfg: Config, env: GenEnv, elseBody: MaybeBody, tuples: bool)
    requires TidyElse(elseBody, tuples)
    ensures YieldsTidy(EmitElse(cfg, env, elseBody), tuples)
    decreases elseBody, 0
  {
    hide EmitBlock, Tidy, TidyBlock;
    if elseBody.Body? { BlockTidy(cfg, env, elseBody.stmts, tuples); }
  }

  lemma ConditionalTidy(cfg: Config, env: GenEnv, s: Stmt, tuples: bool)
    requires s.Conditional? && TidyStmt(s, tuples)
    ensures YieldsTidy(EmitConditional(cfg, env, s), tuples)
    decreases s, 0
  {
    hide EmitExpr, EmitBlock, EmitElse, Fresh, Tidy, TidyExpr, TidyBlock;
    if EmitConditional(cfg, env, s).Ok? {
      var n := env.labels;
      var tab := EmitExpr(cfg, env.scope, env.strings, s.condition).value.0;
      var env1 := env.(strings := tab, labels := if s.elseBody.Body? then n + 3 else n + 2);
      Glue(tuples);
      ExprTidy(cfg, env.scope, env.strings, s.condition, tuples);
      BlockTidy(cfg, env1, s.thenBody, tuples);
      ElseTidy(cfg, EmitBlock(cfg, env1, s.thenBody).value.0, s.elseBody, tuples);
    }
  }

  lemma WhileTidy(cfg: Config, env: GenEnv, s: Stmt, tuples: bool)
    requires s.Loop? && s.header.While? && TidyStmt(s, tuples)
    ensures YieldsTidy(EmitWhile(cfg, env, s), tuples)
    decreases s, 0
  {
    hide EmitExpr, EmitBlock, Fresh, Tidy, TidyExpr, TidyBlock;
    if EmitWhile(cfg, env, s).Ok? {
      var n := env.labels;
      var tab := EmitExpr(cfg, env.scope, env.strings, s.header.condition).value.0;
      var env1 := env.(strings := tab, labels := n + 2, ends := env.ends + [Fresh("while_end", n + 1)]);
      Glue(tuples);
      ExprTidy(cfg, env.scope, env.strings, s.header.condition, tuples);
      BlockTidy(cfg, env1, s.body, tuples);
    }
  }

  lemma RepeatTidy(cfg: Config, env: GenEnv, s: Stmt, tuples: bool)
    requires s.Loop? && s.header.Repeat? && TidyStmt(s, tuples)
    ensures YieldsTidy(EmitRepeat(cfg, env, s), tuples)
    decreases s, 0
  {
    hide EmitExpr, EmitBlock, Fresh, LoopVariable, Allocate, Deallocate, NextSlot, Tidy, TidyExpr, TidyBlock;
    if EmitRepeat(cfg, env, s).Ok? {
      var n := env.labels;
      var sc := Allocate(env.scope, LoopVariable(s.header));
      var tab := EmitExpr(cfg, sc, env.strings, s.header.count).value.0;
      var env1 := env.(scope := sc, strings := tab, labels := n + 2, ends := env.ends + [Fresh("repeat_end", n + 1)]);
      Glue(tuples);
      ExprTidy(cfg, sc, env.strings, s.header.count, tuples);
      BlockTidy(cfg, env1, s.body, tuples);
    }
  }

  lemma ForTidy(cfg: Config, env: GenEnv, s: Stmt, tuples: bool)
    requires s.Loop? && s.header.For? && TidyStmt(s, tuples)
    ensures YieldsTidy(EmitFor(cfg, env, s), tuples)
    decreases s, 0
  {
    hide EmitMaybe, EmitBlock, Fresh, Allocate, Deallocate, NextSlot, ForTest, ForAdvance, SimpleGuard, Tidy, TidyMaybe, TidyBlock;
    if EmitFor(cfg, env, s).Ok? {
      var h, n, x := s.header, env.labels, NextSlot(env.scope);
      var end := Fresh("for_end", n + 1);
      var (tab1, from) := EmitMaybe(cfg, env.scope, env.strings, h.from).value;
      var (tab2, to) := EmitMaybe(cfg, env.scope, tab1, h.to).value;
      var (tab3, given) := EmitMaybe(cfg, env.scope, tab2, h.step).value;
      var env1 := env.(scope := Allocate(env.scope, h.variable), strings := tab3, labels := n + 2, ends := env.ends + [end]);
      Glue(tuples);
      MaybeTidy(cfg, env.scope, env.strings, h.from, tuples);
      MaybeTidy(cfg, env.scope, tab1, h.to, tuples);
      MaybeTidy(cfg, env.scope, tab2, h.step, tuples);
      GuardTidy(h.to, x, if h.step.Present? then given else [CONST(1)], to, SimpleGuard(h.step, to), end, tuples);
      BlockTidy(cfg, env1, s.body, tuples);
    }
  }

  lemma GuardTidy(bound: MaybeExpr, x: Variable, step: Code, to: Code, simple: bool, end: string, tuples: bool)
    requires AllTidy(step, tuples) && AllTidy(to, tuples)
    ensures AllTidy(ForTest(bound, x, step, to, simple, end), tuples) && AllTidy(ForAdvance(x, step), tuples)
  {
    hide Tidy;
    Glue(tuples);
  }

  lemma MatchTidy(cfg: Config, env: GenEnv, s: Stmt, tuples: bool)
    requires s.ValueMatch? && TidyStmt(s, tuples)
    ensures YieldsTidy(EmitMatch(cfg, env, s), tuples)
    decreases s, 0
  {
    hide EmitExpr, EmitCases, EmitElse, Fresh, Allocate, Deallocate, NextSlot, HiddenName, Tidy, TidyExpr, TidyCases, TidyElse;
    if EmitMatch(cfg, env, s).Ok? {
      var name, x := HiddenName("match", s.span), NextSlot(env.scope);
      var sc := if s.subject.Name? then env.scope else Allocate(env.scope, name);
      var (tab, code) := (if s.subject.Name? then Ok((env.strings, [])) else EmitExpr(cfg, sc, env.strings, s.subject)).value;
      var subject := if s.subject.Name? then Reread(s.subject.name) else Held(x);
      var end := Fresh("match_end", env.labels);
      var env1 := env.(scope := sc, strings := tab, labels := env.labels + 1);
      Glue(tuples);
      if !s.subject.Name? { ExprTidy(cfg, sc, env.strings, s.subject, tuples); }
      CasesTidy(cfg, env1, subject, end, s.cases, tuples);
      ElseTidy(cfg, EmitCases(cfg, env1, subject, end, s.cases).value.0, s.elseBody, tuples);
    }
  }

  lemma {:induction false} CasesTidy(cfg: Config, env: GenEnv, subject: Subject, end: string, cases: seq<Case>, tuples: bool)
    requires TidyCases(cases, tuples)
    ensures YieldsTidy(EmitCases(cfg, env, subject, end, cases), tuples)
    decreases cases, 0
  {
    hide EmitCase, Tidy, TidyCase;
    if cases != [] && EmitCases(cfg, env, subject, end, cases).Ok? {
      CaseTidy(cfg, env, subject, end, cases[0], tuples);
      CasesTidy(cfg, EmitCase(cfg, env, subject, end, cases[0]).value.0, subject, end, cases[1..], tuples);
    }
  }

  lemma CaseTidy(cfg: Config, env: GenEnv, subject: Subject, end: string, c: Case, tuples: bool)
    requires TidyCase(c, tuples)
    ensures YieldsTidy(EmitCase(cfg, env, subject, end, c), tuples)
    decreases c, 1
  {
    hide EmitTest, EmitBindings, EmitBlock, Fresh, Bindings, Tidy, TidyExpr, TidyBlock;
    if EmitCase(cfg, env, subject, end, c).Ok? {
      var tab := EmitTest(cfg, env.scope, env.strings, subject, c).value.0;
      var sc := EmitBindings(cfg, env.scope, subject, Bindings(cfg, c), 0).value.0;
      Glue(tuples);
      TestTidy(cfg, env.scope, env.strings, subject, c, tuples);
      BindingsTidy(cfg, env.scope, subject, Bindings(cfg, c), 0, tuples);
      BlockTidy(cfg, env.(scope := sc, strings := tab, labels := env.labels + 1), c.body, tuples);
    }
  }

  lemma SubjectTidy(cfg: Config, sc: Scope, subject: Subject, tuples: bool)
    requires EmitSubject(cfg, sc, subject).Ok?
    ensures AllTidy(EmitSubject(cfg, sc, subject).value, tuples)
  {
    hide EmitName;
    if subject.Reread? { NameTidy(cfg, sc, subject.name, tuples); }
  }

  lemma TestTidy(cfg: Config, sc: Scope, tab: Strings, subject: Subject, c: Case, tuples: bool)
    requires EmitTest(cfg, sc, tab, subject, c).Ok? && TidyExprs(c.values, tuples)
    ensures AllTidy(EmitTest(cfg, sc, tab, subject, c).value.1, tuples)
  {
    hide EmitExpr, EmitSubject, PatternOf, Tidy, TidyExpr;
    Glue(tuples);
    SubjectTidy(cfg, sc, subject, tuples);
    if PatternOf(cfg, c.values[0]).Plain? { ExprTidy(cfg, sc, tab, c.values[0], tuples); }
  }

  lemma {:induction false} BindingsTidy(cfg: Config, sc: Scope, subject: Subject, names: seq<Expr>, k: nat, tuples: bool)
    requires EmitBindings(cfg, sc, subject, names, k).Ok?
    ensures AllTidy(EmitBindings(cfg, sc, subject, names, k).value.1, tuples)
    decreases names
  {
    hide EmitSubject, Tidy;
    Glue(tuples);
    if names != [] {
      SubjectTidy(cfg, sc, subject, tuples);
      BindingsTidy(cfg, Allocate(sc, names[0].name), subject, names[1..], k + 1, tuples);
    }
  }

  // Units

  predicate UnitsTidy(units: seq<NamedUnit>, tuples: bool) { forall u :: u in units ==> TidyBlock(u.unit.body, tuples) }

  lemma {:induction false} FunctionsTidy(m: ModuleDef, cfg: Config, top: Scope, functions: seq<FunctionDef>, tuples: bool)
    requires forall f :: f in functions ==> TidyBlock(f.body, tuples)
    ensures UnitsTidy(FunctionUnits(m, cfg, top, functions), tuples)
    decreases |functions|
  {
    hide TidyBlock;
    if functions != [] { FunctionsTidy(m, cfg, top, functions[1..], tuples); }
  }

  /** Tidy modules give tidy units. */
  lemma {:induction false} ModulesTidy(ms: seq<ModuleDef>, g: Gen, tuples: bool)
    requires EmitModules(ms, g).Ok? && TidyText(ms, tuples)
    ensures UnitsTidy(ModulesUnits(EmitModules(ms, g)), tuples)
    decreases |ms|
  {
    hide EmitUnits, AddTypes, TopScope, TidyBlock, FunctionUnits, ConfigOf;
    if ms != [] {
      var m := ms[0];
      var g1 := AddTypes(g, m.types);
      var (n, tab, _) := EmitUnits(UnitsOf(m, g1), g1.labels, g1.strings).value;
      assert m in ms;
      FunctionsTidy(m, ConfigOf(m, g1), TopScope(m, g1), m.functions, tuples);
      ModulesTidy(ms[1..], g1.(globals := TopScope(m, g1).globalCounter, labels := n, strings := tab), tuples);
    }
  }
}
