/** Names and their slots (crates/compiler-core/src/codegen/bcgen.rs, `Env` and
    `count_locals`). A function has one flat scope; statements extend it in textual order,
    whatever execution does, and a declaration always takes a new slot. */
module Scoping {
  import opened Results
  import opened Bytecode
  import opened Ast

  datatype VariantInfo = VariantInfo(schema: nat, fields: seq<string>)

  /** What a module's definitions bind: call targets with label and arity, constructors,
      and field positions. */
  datatype Config = Config(
    callTargets: map<string, (string, nat)>,
    variants: map<string, VariantInfo>,
    fieldIndices: map<string, nat>)

  datatype Scope = Scope(
    inFunction: bool,
    localCounter: nat,
    globalCounter: nat,
    locals: map<string, nat>,
    globals: map<string, nat>,
    args: map<string, nat>)

  datatype Variable = Variable(rel: ValueRel, index: nat)

  /** The slot the next declaration takes. */
  function NextSlot(sc: Scope): Variable {
    if sc.inFunction then Variable(Local, sc.localCounter) else Variable(Global, sc.globalCounter)
  }

  function Allocate(sc: Scope, name: string): Scope {
    if sc.inFunction then sc.(locals := sc.locals[name := sc.localCounter], localCounter := sc.localCounter + 1)
    else sc.(globals := sc.globals[name := sc.globalCounter], globalCounter := sc.globalCounter + 1)
  }

  function Deallocate(sc: Scope, name: string): Scope {
    if sc.inFunction then sc.(locals := sc.locals - {name}) else sc.(globals := sc.globals - {name})
  }

  function FindVariable(sc: Scope, name: string): Result<Variable> {
    if name in sc.locals then Ok(Variable(Local, sc.locals[name]))
    else if name in sc.args then Ok(Variable(Arg, sc.args[name]))
    else if name in sc.globals then Ok(Variable(Global, sc.globals[name]))
    else Err(UnknownName)
  }

  // Hidden names

  function Decimal(n: nat): (s: string)
    ensures |s| >= 1 && forall i :: 0 <= i < |s| ==> '0' <= s[i] <= '9'
  {
    if n < 10 then ["0123456789"[n]] else Decimal(n / 10) + ["0123456789"[n % 10]]
  }

  function HiddenName(kind: string, span: Span): string {
    kind + "_" + Decimal(span.start) + "_" + Decimal(span.end)
  }

  // Built-in functions

  function BuiltinNamed(name: string): Option<Builtin> {
    if name == "abs" || name == "абс" then Some(Abs)
    else if name == "тип_корт" then Some(Ttuple)
    else if name == "тип_срез" then Some(Tslice)
    else if name == "корень" || name == "sqrt" then Some(Sqrt)
    else if name == "целч" then Some(Floor)
    else if name == "окрч" then Some(Round)
    else if name == "тип_цел" then Some(Tint)
    else if name == "тип_пуст" then Some(Tnull)
    else if name == "тип_текст" then Some(Ttext)
    else if name == "тип_лог" then Some(Tbool)
    else if name == "тип_вещ" then Some(Tfloat)
    else None
  }

  /** A callee's name is looked up among builtins, then functions; anything else is a value. */
  datatype Callee = Library(builtin: Builtin) | Static(entryLabel: string) | Computed

  function CalleeOf(cfg: Config, f: Expr): Callee {
    if f.Name? && BuiltinNamed(f.name).Some? then Library(BuiltinNamed(f.name).value)
    else if f.Name? && f.name in cfg.callTargets then Static(cfg.callTargets[f.name].0)
    else Computed
  }

  function Operator(op: BinaryOperator): Result<Op> {
    match op
    case Power => Ok(POW) case Multiply => Ok(MUL) case Divide => Ok(DIV)
    case IntegerDivide => Ok(IDIV) case Remainder => Ok(MOD) case Add => Ok(ADD)
    case Subtract => Ok(SUB) case Greater => Ok(GT) case Less => Ok(LT)
    case GreaterOrEqual => Ok(GEQ) case LessOrEqual => Ok(LEQ) case Equal => Ok(EQ)
    case NotEqual => Ok(NEQ) case And => Ok(AND) case Or => Ok(OR)
    case Dot => Err(NotImplemented)
  }

  // Patterns

  datatype Pattern = Constructor(info: VariantInfo, bindings: seq<Expr>) | Plain

  function PatternOf(cfg: Config, e: Expr): (p: Pattern)
    ensures p.Constructor? && p.bindings != [] ==> e.FunctionCall? && p.bindings == e.arguments
  {
    if e.Name? && e.name in cfg.variants && cfg.variants[e.name].fields == [] then
      Constructor(cfg.variants[e.name], [])
    else if e.FunctionCall? && e.function_.Name? && e.function_.name in cfg.variants then
      Constructor(cfg.variants[e.function_.name], e.arguments)
    else Plain
  }

  /** Names a case's pattern binds; only its first value is a pattern. */
  function Bindings(cfg: Config, c: Case): seq<Expr> {
    if c.values == [] || PatternOf(cfg, c.values[0]).Plain? then [] else PatternOf(cfg, c.values[0]).bindings
  }

  function BindAll(sc: Scope, names: seq<Expr>): Scope
    decreases names
  {
    if names == [] then sc
    else BindAll(if names[0].Name? then Allocate(sc, names[0].name) else sc, names[1..])
  }

  /** A plain name is read again for every case; any other subject is held in a slot. */
  datatype Subject = Reread(name: string) | Held(slot: Variable)

  // The textual effect of statements

  function AfterStmt(cfg: Config, sc: Scope, s: Stmt): Scope
    decreases s
  {
    match s
    case Declaration(target, _) => if target.NameTarget? then Allocate(sc, target.name) else sc
    case Conditional(_, thenBody, elseBody) => AfterElse(cfg, AfterBlock(cfg, sc, thenBody), elseBody)
    case ValueMatch(span, subject, cases, elseBody) =>
      if subject.Name? then AfterElse(cfg, AfterCases(cfg, sc, cases), elseBody)
      else
        var name := HiddenName("match", span);
        Deallocate(AfterElse(cfg, AfterCases(cfg, Allocate(sc, name), cases), elseBody), name)
    case Loop(header, body) =>
      if header.While? then AfterBlock(cfg, sc, body)
      else
        var name := LoopVariable(header);
        Deallocate(AfterBlock(cfg, Allocate(sc, name), body), name)
    case Input(_, variables) => AfterInputs(sc, variables)
    case _ => sc
  }

  function LoopVariable(header: LoopHeader): string
    requires !header.While?
  {
    if header.Repeat? then HiddenName("repeat", header.span) else header.variable
  }

  function AfterBlock(cfg: Config, sc: Scope, stmts: seq<Stmt>): Scope
    decreases stmts
  {
    if stmts == [] then sc else AfterBlock(cfg, AfterStmt(cfg, sc, stmts[0]), stmts[1..])
  }

  function AfterElse(cfg: Config, sc: Scope, elseBody: MaybeBody): Scope
    decreases elseBody
  {
    if elseBody.NoBody? then sc else AfterBlock(cfg, sc, elseBody.stmts)
  }

  function AfterCases(cfg: Config, sc: Scope, cases: seq<Case>): Scope
    decreases cases
  {
    if cases == [] then sc else AfterCases(cfg, AfterCase(cfg, sc, cases[0]), cases[1..])
  }

  function AfterCase(cfg: Config, sc: Scope, c: Case): Scope
    decreases c
  {
    AfterBlock(cfg, BindAll(sc, Bindings(cfg, c)), c.body)
  }

  function AfterInputs(sc: Scope, variables: seq<LValue>): Scope
    decreases variables
  {
    if variables == [] then sc
    else
      var v := variables[0];
      AfterInputs(if v.NameTarget? && FindVariable(sc, v.name).Err? then Allocate(sc, v.name) else sc, variables[1..])
  }

  // The frame size computed before emission

  function CountBindings(cfg: Config, values: seq<Expr>): nat {
    if values == [] then 0
    else (match PatternOf(cfg, values[0]) case Plain => 0 case Constructor(_, bs) => |bs|)
         + CountBindings(cfg, values[1..])
  }

  function CountLocals(cfg: Config, body: seq<Stmt>): nat
    decreases body
  {
    if body == [] then 0 else CountStmt(cfg, body[0]) + CountLocals(cfg, body[1..])
  }

  function CountStmt(cfg: Config, s: Stmt): nat
    decreases s
  {
    match s
    case Declaration(_, _) => 1
    case Conditional(_, thenBody, elseBody) => CountLocals(cfg, thenBody) + CountElse(cfg, elseBody)
    case ValueMatch(_, _, cases, elseBody) => 1 + CountCases(cfg, cases) + CountElse(cfg, elseBody)
    case Loop(header, body) => (if header.While? then 0 else 1) + CountLocals(cfg, body)
    case Input(_, variables) => |variables|
    case _ => 0
  }

  function CountElse(cfg: Config, elseBody: MaybeBody): nat
    decreases elseBody
  {
    if elseBody.NoBody? then 0 else CountLocals(cfg, elseBody.stmts)
  }

  function CountCases(cfg: Config, cases: seq<Case>): nat
    decreases cases
  {
    if cases == [] then 0
    else CountLocals(cfg, cases[0].body) + CountBindings(cfg, cases[0].values) + CountCases(cfg, cases[1..])
  }

  // Slots never exceed the count

  /** Every visible variable has a slot below its counter. */
  predicate SlotsBelow(sc: Scope) {
    && (forall x :: x in sc.locals ==> sc.locals[x] < sc.localCounter)
    && (forall x :: x in sc.globals ==> sc.globals[x] < sc.globalCounter)
  }

  /** What is visible afterwards was visible before, or has a slot from `next` on. */
  predicate OldOrNew(before: map<string, nat>, after: map<string, nat>, next: nat) {
    forall x :: x in after ==> after[x] >= next || (x in before && after[x] == before[x])
  }

  /** `after` extends `before` by at most `n` new slots of the current context; no slot is
      taken twice. */
  predicate Extends(before: Scope, after: Scope, n: nat) {
    && after.inFunction == before.inFunction && after.args == before.args
    && (SlotsBelow(before) ==> SlotsBelow(after))
    && OldOrNew(before.locals, after.locals, before.localCounter)
    && OldOrNew(before.globals, after.globals, before.globalCounter)
    && (if before.inFunction then
          before.localCounter <= after.localCounter <= before.localCounter + n
          && after.globals == before.globals && after.globalCounter == before.globalCounter
        else
          before.globalCounter <= after.globalCounter <= before.globalCounter + n
          && after.locals == before.locals && after.localCounter == before.localCounter)
  }

  lemma {:induction false} BindAllExtends(sc: Scope, names: seq<Expr>)
    ensures Extends(sc, BindAll(sc, names), |names|)
    decreases names
  {
    if names != [] {
      BindAllExtends(if names[0].Name? then Allocate(sc, names[0].name) else sc, names[1..]);
    }
  }

  lemma {:induction false} AfterInputsExtends(sc: Scope, variables: seq<LValue>)
    ensures Extends(sc, AfterInputs(sc, variables), |variables|)
    decreases variables
  {
    if variables != [] {
      var v := variables[0];
      AfterInputsExtends(if v.NameTarget? && FindVariable(sc, v.name).Err? then Allocate(sc, v.name) else sc, variables[1..]);
    }
  }

  lemma BindingsCounted(cfg: Config, c: Case)
    ensures |Bindings(cfg, c)| <= CountBindings(cfg, c.values)
  {
  }

  /** The frame is large enough: no statement takes more slots than `count_locals` counted. */
  lemma {:induction false} StmtExtends(cfg: Config, sc: Scope, s: Stmt)
    ensures Extends(sc, AfterStmt(cfg, sc, s), CountStmt(cfg, s))
    decreases s, 1
  {
    if s.Conditional? {
      BlockExtends(cfg, sc, s.thenBody);
      var mid := AfterBlock(cfg, sc, s.thenBody);
      ElseExtends(cfg, mid, s.elseBody);
      ExtendsTrans(sc, mid, AfterElse(cfg, mid, s.elseBody), CountLocals(cfg, s.thenBody), CountElse(cfg, s.elseBody));
    } else if s.ValueMatch? {
      MatchExtends(cfg, sc, s);
    } else if s.Loop? {
      LoopExtends(cfg, sc, s.header, s.body);
    } else if s.Input? {
      AfterInputsExtends(sc, s.variables);
    }
  }

  lemma {:induction false} MatchExtends(cfg: Config, sc: Scope, s: Stmt)
    requires s.ValueMatch?
    ensures Extends(sc, AfterStmt(cfg, sc, s), CountStmt(cfg, s))
    decreases s, 0
  {
    hide Extends, AfterCases, AfterElse, CountCases, CountElse, Allocate, Deallocate, HiddenName;
    var name := HiddenName("match", s.span);
    var sc1 := if s.subject.Name? then sc else Allocate(sc, name);
    var mid := AfterCases(cfg, sc1, s.cases);
    ExtendsSelf(sc, 1);
    AllocateExtends(sc, name);
    CasesExtend(cfg, sc1, s.cases);
    ElseExtends(cfg, mid, s.elseBody);
    var end := AfterElse(cfg, mid, s.elseBody);
    ExtendsTrans(sc1, mid, end, CountCases(cfg, s.cases), CountElse(cfg, s.elseBody));
    ExtendsTrans(sc, sc1, end, 1, CountCases(cfg, s.cases) + CountElse(cfg, s.elseBody));
    DeallocateExtends(sc, end, name, CountStmt(cfg, s));
  }

  lemma {:induction false} LoopExtends(cfg: Config, sc: Scope, header: LoopHeader, body: seq<Stmt>)
    ensures Extends(sc, AfterStmt(cfg, sc, Loop(header, body)), CountStmt(cfg, Loop(header, body)))
    decreases body, 1
  {
    hide Extends, AfterBlock, CountLocals, Allocate, Deallocate, LoopVariable;
    if header.While? {
      BlockExtends(cfg, sc, body);
    } else {
      var name := LoopVariable(header);
      var sc1 := Allocate(sc, name);
      var end := AfterBlock(cfg, sc1, body);
      AllocateExtends(sc, name);
      BlockExtends(cfg, sc1, body);
      ExtendsTrans(sc, sc1, end, 1, CountLocals(cfg, body));
      DeallocateExtends(sc, end, name, 1 + CountLocals(cfg, body));
    }
  }

  lemma DeallocateExtends(a: Scope, b: Scope, name: string, n: nat)
    requires Extends(a, b, n)
    ensures Extends(a, Deallocate(b, name), n)
  {
  }

  lemma AllocateExtends(sc: Scope, name: string)
    ensures Extends(sc, Allocate(sc, name), 1)
  {
  }

  lemma ExtendsSelf(sc: Scope, n: nat)
    ensures Extends(sc, sc, n)
  {
  }

  lemma ExtendsTrans(a: Scope, b: Scope, c: Scope, m: nat, n: nat)
    requires Extends(a, b, m) && Extends(b, c, n)
    ensures Extends(a, c, m + n)
  {
  }

  lemma {:induction false} BlockExtends(cfg: Config, sc: Scope, stmts: seq<Stmt>)
    ensures Extends(sc, AfterBlock(cfg, sc, stmts), CountLocals(cfg, stmts))
    decreases stmts, 0
  {
    if stmts != [] {
      StmtExtends(cfg, sc, stmts[0]);
      var mid := AfterStmt(cfg, sc, stmts[0]);
      BlockExtends(cfg, mid, stmts[1..]);
      ExtendsTrans(sc, mid, AfterBlock(cfg, sc, stmts), CountStmt(cfg, stmts[0]), CountLocals(cfg, stmts[1..]));
    }
  }

  lemma {:induction false} ElseExtends(cfg: Config, sc: Scope, elseBody: MaybeBody)
    ensures Extends(sc, AfterElse(cfg, sc, elseBody), CountElse(cfg, elseBody))
    decreases elseBody
  {
    if elseBody.Body? { BlockExtends(cfg, sc, elseBody.stmts); }
  }

  lemma {:induction false} CasesExtend(cfg: Config, sc: Scope, cases: seq<Case>)
    ensures Extends(sc, AfterCases(cfg, sc, cases), CountCases(cfg, cases))
    decreases cases
  {
    if cases != [] {
      var c := cases[0];
      BindAllExtends(sc, Bindings(cfg, c));
      BindingsCounted(cfg, c);
      var bound, mid := BindAll(sc, Bindings(cfg, c)), AfterCase(cfg, sc, c);
      BlockExtends(cfg, bound, c.body);
      ExtendsTrans(sc, bound, mid, CountBindings(cfg, c.values), CountLocals(cfg, c.body));
      CasesExtend(cfg, mid, cases[1..]);
      ExtendsTrans(sc, mid, AfterCases(cfg, sc, cases),
        CountBindings(cfg, c.values) + CountLocals(cfg, c.body), CountCases(cfg, cases[1..]));
    }
  }

  /** A loop variable that reuses a visible name hides it for good: after the loop the outer
      variable is back exactly when the name was not declared in this context. */
  lemma LoopVariableRestored(cfg: Config, sc: Scope, header: LoopHeader, body: seq<Stmt>)
    requires !header.While? && (sc.inFunction || (sc.locals == map[] && sc.args == map[]))
    ensures var after := AfterStmt(cfg, sc, Loop(header, body));
      FindVariable(after, LoopVariable(header)) == FindVariable(sc, LoopVariable(header))
      <==> LoopVariable(header) !in (if sc.inFunction then sc.locals else sc.globals)
  {
    var sc1 := Allocate(sc, LoopVariable(header));
    BlockExtends(cfg, sc1, body);
  }
}
