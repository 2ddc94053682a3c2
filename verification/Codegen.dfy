/** What the code generator produces (crates/compiler-core/src/codegen/bcgen.rs), as
    functions of the syntax tree; class BcGen computes them with mutable state. An error
    result stands for a panic. */
module Codegen {
  import opened Results
  import opened Bytecode
  import opened Numbers
  import opened Ast
  import opened Scoping
  import StringTable

  type Strings = seq<Byte>
  type Code = seq<Instr>

  /** Label counter, enclosing loops' end labels, and the bytefile's string table. */
  datatype GenEnv = GenEnv(scope: Scope, labels: nat, ends: seq<string>, strings: Strings)

  function Fresh(prefix: string, n: nat): string { prefix + "_" + Decimal(n) }

  function Named(name: string): Label { Label(name, None) }

  function LoadOf(x: Variable): Instr { LOAD(x.rel, x.index) }

  function StoreTo(x: Variable): Instr { STORE(x.rel, x.index) }

  // Expressions: only the string table grows

  function EmitExpr(cfg: Config, sc: Scope, tab: Strings, e: Expr): (r: Result<(Strings, Code)>)
    ensures r.Ok? ==> StringTable.Grown(tab, r.value.0)
    decreases e, 1
  {
    match e
    case IntegerLit(n) => Ok((tab, [CONST(AsI32(n))]))
    case BooleanLit(b) => Ok((tab, [BOOL(b)]))
    case RealLit(f) => Ok((tab, [CONSTF(f)]))
    case TextLit(bytes) =>
      var (offset, tab1) := StringTable.Intern(tab, bytes);
      Ok((tab1, [STRING(offset)]))
    case NullLit => Ok((tab, [NULL]))
    case Name(name) =>
      var code :- EmitName(cfg, sc, name);
      Ok((tab, code))
    case Binary(operator, left, right) =>
      if operator.Dot? then
        var _ :- Need(right.Name? && right.name in cfg.fieldIndices, UnknownName);
        var (tab1, code) :- EmitExpr(cfg, sc, tab, left);
        Ok((tab1, code + [FIELD(cfg.fieldIndices[right.name])]))
      else
        var op :- Operator(operator);
        var (tab1, a) :- EmitExpr(cfg, sc, tab, left);
        var (tab2, b) :- EmitExpr(cfg, sc, tab1, right);
        Ok((tab2, a + b + [BINOP(op)]))
    case Unary(unary, operand) =>
      var (tab1, code) :- EmitExpr(cfg, sc, tab, operand);
      Ok((tab1, code + UnaryCode(unary)))
    case TupleConstruct(elements) =>
      var (tab1, code) :- EmitExprs(cfg, sc, tab, elements);
      Ok((tab1, code + [TUPLE(|elements|)]))
    case FunctionCall(f, arguments) =>
      if f.Name? && f.name in cfg.variants then
        var info := cfg.variants[f.name];
        var _ :- Need(|arguments| == |info.fields|, ArityMismatch);
        var (tab1, code) :- EmitExprs(cfg, sc, tab, arguments);
        Ok((tab1, code + [VARIANT(info.schema)]))
      else
        var (tab1, c) :- EmitCallee(cfg, sc, tab, f);
        var (tab2, code) :- EmitExprs(cfg, sc, tab1, arguments);
        Ok((tab2, c + code + [CallCode(CalleeOf(cfg, f), |arguments|)]))
    case Subscript(collection, index) =>
      var (tab1, c) :- EmitExpr(cfg, sc, tab, collection);
      var (tab2, i) :- EmitExpr(cfg, sc, tab1, index);
      Ok((tab2, c + i + [ELEM]))
    case SliceExpr(collection, from, to) =>
      var (tab1, c) :- EmitExpr(cfg, sc, tab, collection);
      var (tab2, a) :- EmitMaybe(cfg, sc, tab1, from);
      var (tab3, b) :- EmitMaybe(cfg, sc, tab2, to);
      Ok((tab3, c + a + b + [SLICE(BoundsMask(from, to))]))
  }

  function UnaryCode(unary: UnaryOperator): Code {
    match unary
    case Minus => [UNARY(Negate)]
    case Plus => []
    case Negation => [UNARY(Not)]
    case Length => [CALLBUILTIN(Llength, 0)]
  }

  function EmitCallee(cfg: Config, sc: Scope, tab: Strings, f: Expr): (r: Result<(Strings, Code)>)
    ensures r.Ok? ==> StringTable.Grown(tab, r.value.0)
    decreases f, 2
  {
    if CalleeOf(cfg, f).Computed? then EmitExpr(cfg, sc, tab, f) else Ok((tab, []))
  }

  function CallCode(callee: Callee, n: nat): Instr {
    match callee
    case Library(builtin) => CALLBUILTIN(builtin, 0)
    case Static(name) => CALL(Named(name), n)
    case Computed => CALLC(n)
  }

  /** Bit 0: `from` is on the stack; bit 1: `to` is. */
  function BoundsMask(from: MaybeExpr, to: MaybeExpr): int {
    (if from.Present? then 1 else 0) + (if to.Present? then 2 else 0)
  }

  function EmitName(cfg: Config, sc: Scope, name: string): Result<Code> {
    if name in cfg.variants then
      var _ :- Need(cfg.variants[name].fields == [], ArityMismatch);
      Ok([VARIANT(cfg.variants[name].schema)])
    else if name in cfg.callTargets then
      Ok([CLOSURE(Named(cfg.callTargets[name].0), cfg.callTargets[name].1)])
    else
      var x :- FindVariable(sc, name);
      Ok([LoadOf(x)])
  }

  function EmitExprs(cfg: Config, sc: Scope, tab: Strings, es: seq<Expr>): (r: Result<(Strings, Code)>)
    ensures r.Ok? ==> StringTable.Grown(tab, r.value.0)
    decreases es, 0
  {
    if es == [] then Ok((tab, []))
    else
      var (tab1, first) :- EmitExpr(cfg, sc, tab, es[0]);
      var (tab2, rest) :- EmitExprs(cfg, sc, tab1, es[1..]);
      Ok((tab2, first + rest))
  }

  function EmitMaybe(cfg: Config, sc: Scope, tab: Strings, e: MaybeExpr): (r: Result<(Strings, Code)>)
    ensures r.Ok? ==> StringTable.Grown(tab, r.value.0)
    decreases e, 0
  {
    if e.Absent? then Ok((tab, [])) else EmitExpr(cfg, sc, tab, e.expr)
  }

  // Statements

  type Emitted = Result<(GenEnv, Code)>

  /** Emission moves the scope as the text does, closes the loops it opens, uses new label
      numbers and only adds strings. */
  predicate Threads(env: GenEnv, r: Emitted, after: Scope) {
    r.Ok? ==>
      && r.value.0.scope == after && r.value.0.ends == env.ends
      && env.labels <= r.value.0.labels && StringTable.Grown(env.strings, r.value.0.strings)
  }

  function EmitStmt(cfg: Config, env: GenEnv, s: Stmt): (r: Emitted)
    ensures Threads(env, r, AfterStmt(cfg, env.scope, s))
    decreases s, 1
  {
    match s
    case Declaration(target, value) =>
      var (tab, code) :- EmitExpr(cfg, env.scope, env.strings, value);
      var _ :- Need(target.NameTarget?, NotImplemented);
      var env1 := env.(scope := Allocate(env.scope, target.name), strings := tab);
      Ok((env1, code + [StoreTo(NextSlot(env.scope))]))
    case Assignment(target, value) =>
      var (tab, code) :- EmitExpr(cfg, env.scope, env.strings, value);
      var (tab1, store) :- EmitAssign(cfg, env.scope, tab, target);
      Ok((env.(strings := tab1), code + store))
    case ProcedureCall(procedure, arguments) =>
      var (tab, c) :- EmitCallee(cfg, env.scope, env.strings, procedure);
      var (tab1, code) :- EmitExprs(cfg, env.scope, tab, arguments);
      Ok((env.(strings := tab1), c + code + [CallCode(CalleeOf(cfg, procedure), |arguments|)] + [DROP]))
    case Conditional(condition, thenBody, elseBody) => EmitConditional(cfg, env, s)
    case ValueMatch(_, _, _, _) => EmitMatch(cfg, env, s)
    case Loop(header, _) =>
      if header.While? then EmitWhile(cfg, env, s)
      else if header.Repeat? then EmitRepeat(cfg, env, s)
      else EmitFor(cfg, env, s)
    case Output(noNewline, values) =>
      var (tab, code) :- EmitExprs(cfg, env.scope, env.strings, values);
      Ok((env.(strings := tab), code + [CALLBUILTIN(Lwrite, PackCount(|values|, !noNewline))]))
    case Input(textMode, variables) =>
      var (sc, stores) :- EmitInputs(env.scope, variables);
      Ok((env.(scope := sc), [CALLBUILTIN(Lread, PackCount(|variables|, !textMode))] + stores))
    case ExitLoop =>
      var _ :- Need(env.ends != [], NoEnclosingLoop);
      Ok((env, [JMP(Named(env.ends[|env.ends| - 1]))]))
    case ReturnFromFunction(result) =>
      var (tab, code) :- EmitExpr(cfg, env.scope, env.strings, result);
      Ok((env.(strings := tab), code + [END]))
    case _ => Err(NotImplemented)
  }

  /** Argument count with the format flag in bit 30. */
  function PackCount(n: nat, flag: bool): int { n % NEWLINE_FLAG + (if flag then NEWLINE_FLAG else 0) }

  function EmitAssign(cfg: Config, sc: Scope, tab: Strings, target: LValue): (r: Result<(Strings, Code)>)
    ensures r.Ok? ==> StringTable.Grown(tab, r.value.0)
  {
    match target
    case NameTarget(name) =>
      var x :- FindVariable(sc, name);
      Ok((tab, [StoreTo(x)]))
    case SubscriptTarget(collection, index) =>
      var _ :- Need(collection.Name?, NotImplemented);
      var x :- FindVariable(sc, collection.name);
      var (tab1, i) :- EmitExpr(cfg, sc, tab, index);
      Ok((tab1, i + [LoadOf(x), STA, DROP]))
    case SliceTarget(collection, from, to) =>
      var _ :- Need(collection.Name?, NotImplemented);
      var x :- FindVariable(sc, collection.name);
      var (tab1, a) :- EmitMaybe(cfg, sc, tab, from);
      var (tab2, b) :- EmitMaybe(cfg, sc, tab1, to);
      Ok((tab2, [LoadOf(x)] + a + b + [SLICE(BoundsMask(from, to)), STS]))
    case FieldTarget(left, field) =>
      var _ :- Need(field in cfg.fieldIndices, UnknownName);
      var (tab1, code) :- EmitExpr(cfg, sc, tab, left);
      Ok((tab1, code + [SETFIELD(cfg.fieldIndices[field])]))
  }

  function EmitInputs(sc: Scope, variables: seq<LValue>): (r: Result<(Scope, Code)>)
    ensures r.Ok? ==> r.value.0 == AfterInputs(sc, variables)
    decreases variables
  {
    if variables == [] then Ok((sc, []))
    else
      var _ :- Need(variables[0].NameTarget?, NotImplemented);
      var found := FindVariable(sc, variables[0].name);
      var x := if found.Ok? then found.value else NextSlot(sc);
      var sc1 := if found.Ok? then sc else Allocate(sc, variables[0].name);
      var (sc2, rest) :- EmitInputs(sc1, variables[1..]);
      Ok((sc2, [StoreTo(x)] + rest))
  }

  function EmitBlock(cfg: Config, env: GenEnv, stmts: seq<Stmt>): (r: Emitted)
    ensures Threads(env, r, AfterBlock(cfg, env.scope, stmts))
    decreases stmts, 0
  {
    if stmts == [] then Ok((env, []))
    else
      var (env1, first) :- EmitStmt(cfg, env, stmts[0]);
      var (env2, rest) :- EmitBlock(cfg, env1, stmts[1..]);
      Ok((env2, first + rest))
  }

  function EmitElse(cfg: Config, env: GenEnv, elseBody: MaybeBody): (r: Emitted)
    ensures Threads(env, r, AfterElse(cfg, env.scope, elseBody))
    decreases elseBody, 0
  {
    if elseBody.NoBody? then Ok((env, [])) else EmitBlock(cfg, env, elseBody.stmts)
  }

  // Conditionals

  function ConditionalCode(cond: Code, begin: string, target: string, thenCode: Code, tail: Code): Code {
    cond + [LABEL(begin), CJMP(Named(target), ISZERO)] + thenCode + tail
  }

  function ElseTail(end: string, elseLabel: string, elseCode: Code): Code {
    [JMP(Named(end)), LABEL(elseLabel)] + elseCode + [LABEL(end)]
  }

  function EmitConditional(cfg: Config, env: GenEnv, s: Stmt): (r: Emitted)
    requires s.Conditional?
    ensures Threads(env, r, AfterStmt(cfg, env.scope, s))
    decreases s, 0
  {
    var n := env.labels;
    var begin, end, other := Fresh("if_begin", n), Fresh("if_skip", n + 1), Fresh("else", n + 2);
    var (tab, cond) :- EmitExpr(cfg, env.scope, env.strings, s.condition);
    var env1 := env.(strings := tab, labels := if s.elseBody.Body? then n + 3 else n + 2);
    var (env2, thenCode) :- EmitBlock(cfg, env1, s.thenBody);
    var (env3, elseCode) :- EmitElse(cfg, env2, s.elseBody);
    if s.elseBody.Body? then
      Ok((env3, ConditionalCode(cond, begin, other, thenCode, ElseTail(end, other, elseCode))))
    else
      Ok((env3, ConditionalCode(cond, begin, end, thenCode, [LABEL(end)])))
  }

  // Loops

  /** A loop: its guard jumps to the end label, its body falls through to the advance. */
  function LoopCode(loop: string, guard: Code, body: Code, advance: Code, end: string): Code {
    [LABEL(loop)] + guard + body + advance + [JMP(Named(loop)), LABEL(end)]
  }

  function LeaveUnless(end: string): Instr { CJMP(Named(end), ISZERO) }

  function EmitWhile(cfg: Config, env: GenEnv, s: Stmt): (r: Emitted)
    requires s.Loop? && s.header.While?
    ensures Threads(env, r, AfterStmt(cfg, env.scope, s))
    decreases s, 0
  {
    var loop, end := Fresh("while_loop", env.labels), Fresh("while_end", env.labels + 1);
    var (tab, cond) :- EmitExpr(cfg, env.scope, env.strings, s.header.condition);
    var env1 := env.(strings := tab, labels := env.labels + 2, ends := env.ends + [end]);
    var (env2, body) :- EmitBlock(cfg, env1, s.body);
    Ok((env2.(ends := env.ends), LoopCode(loop, cond + [LeaveUnless(end)], body, [], end)))
  }

  function RepeatGuard(x: Variable, end: string): Code { [LoadOf(x), CONST(0), BINOP(GT), LeaveUnless(end)] }

  function RepeatAdvance(x: Variable): Code { [LoadOf(x), CONST(1), BINOP(SUB), StoreTo(x)] }

  function EmitRepeat(cfg: Config, env: GenEnv, s: Stmt): (r: Emitted)
    requires s.Loop? && s.header.Repeat?
    ensures Threads(env, r, AfterStmt(cfg, env.scope, s))
    decreases s, 0
  {
    var x, name := NextSlot(env.scope), LoopVariable(s.header);
    var sc := Allocate(env.scope, name);
    var (tab, count) :- EmitExpr(cfg, sc, env.strings, s.header.count);
    var loop, end := Fresh("repeat_loop", env.labels), Fresh("repeat_end", env.labels + 1);
    var env1 := env.(scope := sc, strings := tab, labels := env.labels + 2, ends := env.ends + [end]);
    var (env2, body) :- EmitBlock(cfg, env1, s.body);
    Ok((env2.(scope := Deallocate(env2.scope, name), ends := env.ends),
        count + [StoreTo(x)] + LoopCode(loop, RepeatGuard(x, end), body, RepeatAdvance(x), end)))
  }

  /** A default step with a bound that is a plain load or constant needs one comparison. */
  predicate SimpleGuard(step: MaybeExpr, to: Code) {
    step.Absent? && |to| == 1 && (to[0].LOAD? || to[0].CONST? || to[0].CONSTF?)
  }

  function HalfGuard(x: Variable, step: Code, to: Code, sign: Op, side: Op): Code {
    step + [CONST(0)] + [BINOP(sign)] + [LoadOf(x)] + to + [BINOP(side)] + [BINOP(AND)]
  }

  function ForGuard(x: Variable, step: Code, to: Code, simple: bool): Code {
    if simple then [LoadOf(x)] + to + [BINOP(LEQ)]
    else HalfGuard(x, step, to, GT, LEQ) + HalfGuard(x, step, to, LEQ, GEQ) + [BINOP(OR)]
  }

  /** Without an upper bound the loop is left only from inside. */
  function ForTest(bound: MaybeExpr, x: Variable, step: Code, to: Code, simple: bool, end: string): Code {
    if bound.Absent? then [] else ForGuard(x, step, to, simple) + [LeaveUnless(end)]
  }

  function ForAdvance(x: Variable, step: Code): Code { [LoadOf(x)] + step + ([BINOP(ADD)] + [StoreTo(x)]) }

  function EmitFor(cfg: Config, env: GenEnv, s: Stmt): (r: Emitted)
    requires s.Loop? && s.header.For?
    ensures Threads(env, r, AfterStmt(cfg, env.scope, s))
    decreases s, 0
  {
    var h := s.header;
    var (tab1, from) :- EmitMaybe(cfg, env.scope, env.strings, h.from);
    var (tab2, to) :- EmitMaybe(cfg, env.scope, tab1, h.to);
    var (tab3, given) :- EmitMaybe(cfg, env.scope, tab2, h.step);
    var step := if h.step.Present? then given else [CONST(1)];
    var start := if h.from.Present? then from else [CONST(0)];
    var x := NextSlot(env.scope);
    var loop, end := Fresh("for_loop", env.labels), Fresh("for_end", env.labels + 1);
    var env1 := env.(scope := Allocate(env.scope, h.variable), strings := tab3,
                     labels := env.labels + 2, ends := env.ends + [end]);
    var (env2, body) :- EmitBlock(cfg, env1, s.body);
    var guard := ForTest(h.to, x, step, to, SimpleGuard(h.step, to), end);
    Ok((env2.(scope := Deallocate(env2.scope, h.variable), ends := env.ends),
        start + [StoreTo(x)] + LoopCode(loop, guard, body, ForAdvance(x, step), end)))
  }

  // Selection

  function EmitMatch(cfg: Config, env: GenEnv, s: Stmt): (r: Emitted)
    requires s.ValueMatch?
    ensures Threads(env, r, AfterStmt(cfg, env.scope, s))
    decreases s, 0
  {
    var name, x := HiddenName("match", s.span), NextSlot(env.scope);
    var sc := if s.subject.Name? then env.scope else Allocate(env.scope, name);
    var (tab, code) :- (if s.subject.Name? then Ok((env.strings, [])) else EmitExpr(cfg, sc, env.strings, s.subject));
    var hold := if s.subject.Name? then [] else code + [StoreTo(x)];
    var subject := if s.subject.Name? then Reread(s.subject.name) else Held(x);
    var end := Fresh("match_end", env.labels);
    var env1 := env.(scope := sc, strings := tab, labels := env.labels + 1);
    var (env2, cases) :- EmitCases(cfg, env1, subject, end, s.cases);
    var (env3, other) :- EmitElse(cfg, env2, s.elseBody);
    Ok((if s.subject.Name? then env3 else env3.(scope := Deallocate(env3.scope, name)),
        hold + cases + other + [LABEL(end)]))
  }

  function EmitSubject(cfg: Config, sc: Scope, subject: Subject): Result<Code> {
    match subject
    case Reread(name) => EmitName(cfg, sc, name)
    case Held(x) => Ok([LoadOf(x)])
  }

  /** One case: the test skips to `next`, bindings and body run, then the match is left. */
  function CaseCode(test: Code, next: string, bind: Code, body: Code, end: string): Code {
    test + [LeaveUnless(next)] + bind + body + ([JMP(Named(end))] + [LABEL(next)])
  }

  function EmitCases(cfg: Config, env: GenEnv, subject: Subject, end: string, cases: seq<Case>): (r: Emitted)
    ensures Threads(env, r, AfterCases(cfg, env.scope, cases))
    decreases cases, 0
  {
    if cases == [] then Ok((env, []))
    else
      var (env1, first) :- EmitCase(cfg, env, subject, end, cases[0]);
      var (env2, rest) :- EmitCases(cfg, env1, subject, end, cases[1..]);
      Ok((env2, first + rest))
  }

  function EmitCase(cfg: Config, env: GenEnv, subject: Subject, end: string, c: Case): (r: Emitted)
    ensures Threads(env, r, AfterCase(cfg, env.scope, c))
    decreases c, 1
  {
    var next := Fresh("match_next", env.labels);
    var (tab, test) :- EmitTest(cfg, env.scope, env.strings, subject, c);
    var (sc, bind) :- EmitBindings(cfg, env.scope, subject, Bindings(cfg, c), 0);
    var (env1, body) :- EmitBlock(cfg, env.(scope := sc, strings := tab, labels := env.labels + 1), c.body);
    Ok((env1, CaseCode(test, next, bind, body, end)))
  }

  function EmitTest(cfg: Config, sc: Scope, tab: Strings, subject: Subject, c: Case): (r: Result<(Strings, Code)>)
    ensures r.Ok? ==> StringTable.Grown(tab, r.value.0)
  {
    var _ :- Need(c.values != [], NotImplemented);
    var load :- EmitSubject(cfg, sc, subject);
    match PatternOf(cfg, c.values[0])
    case Constructor(info, _) => Ok((tab, load + [ISVARIANT(info.schema)]))
    case Plain =>
      var (tab1, value) :- EmitExpr(cfg, sc, tab, c.values[0]);
      Ok((tab1, load + value + [BINOP(EQ)]))
  }

  function EmitBindings(cfg: Config, sc: Scope, subject: Subject, names: seq<Expr>, k: nat): (r: Result<(Scope, Code)>)
    ensures r.Ok? ==> r.value.0 == BindAll(sc, names)
    decreases names
  {
    if names == [] then Ok((sc, []))
    else
      var _ :- Need(names[0].Name?, NotImplemented);
      var load :- EmitSubject(cfg, sc, subject);
      var (sc1, rest) :- EmitBindings(cfg, Allocate(sc, names[0].name), subject, names[1..], k + 1);
      Ok((sc1, load + [FIELD(k)] + [StoreTo(NextSlot(sc))] + rest))
  }

  // Functions

  predicate HasReturn(body: seq<Stmt>) { exists i :: 0 <= i < |body| && body[i].ReturnFromFunction? }

  function Epilogue(inFunction: bool, body: seq<Stmt>): Code {
    if inFunction && HasReturn(body) then [] else [NULL, END]
  }
}
