/** Compiled code means what the source means: wherever the evaluator delivers a result, the
    machine running the emitted code reaches the same memory, for all nestings and calls. */
module CompilerCorrectness {
  import opened Results
  import opened Bytecode
  import opened Numbers
  import opened Encoding
  import opened Assembly
  import opened Ast
  import opened Scoping
  import opened Codegen
  import opened Semantics
  import opened Frames
  import opened Linking
  import M = Machine
  import RT = Runtime
  import StringTable

  type Value = RT.Value
  type Mem = Semantics.Mem

  /** The unit was emitted from this generator state and stands at its entry. */
  ghost predicate UnitAt(k: Linked, entry: nat, u: Unit, n: nat, tab: Strings) {
    match EmitBlock(u.cfg, GenEnv(u.scope, n, [], tab), u.body)
    case Ok((env, body)) => env.strings <= k.img.strings && u.scope.localCounter == 0 && Placed(k, entry, UnitCode(u, body))
    case Err(_) => false
  }

  ghost predicate UnitPlaced(k: Linked, entry: nat, u: Unit) {
    exists n: nat, tab: Strings :: UnitAt(k, entry, u, n, tab)
  }

  /** The image runs the world: every unit's code is in place, and code offsets fit a boxed
      return address. */
  ghost predicate Loaded(k: Linked) {
    && NextsFit(k)
    && (forall a :: a in k.w.units ==> UnitPlaced(k, a, k.w.units[a]))
  }

  ghost predicate Ready(k: Linked, m: Mem, fr: Frame) {
    && Loaded(k)
    && k.img.lib == k.w.lib && k.img.lib.depth > 0 && k.w.entries == k.labels
    && |m.globals| == k.img.globals && fr.below != []
  }

  // Runs of code, composed without looking inside

  /** From one memory and ip to another, with new temporaries on top. */
  ghost predicate Computes(k: Linked, fr: Frame, m: Mem, temps: seq<Value>, ip: nat, m': Mem, vs: seq<Value>, ip': nat) {
    M.Reaches(k.img, At(fr, m, temps, ip), At(fr, m', temps + vs, ip'))
  }

  // Total forms: results that are there lead somewhere

  /** Emitted code is in place. */
  ghost predicate Stands(k: Linked, ip: nat, r: Result<(Strings, Code)>) {
    match r case Ok((tab, code)) => tab <= k.img.strings && Placed(k, ip, code) case Err(_) => false
  }

  ghost predicate StandsAlone(k: Linked, ip: nat, r: Result<Code>) {
    match r case Ok(code) => Placed(k, ip, code) case Err(_) => false
  }

  ghost predicate Gives(k: Linked, fr: Frame, m: Mem, temps: seq<Value>, ip: nat, r: Result<(Value, Mem)>, ip': nat) {
    match r case Ok((v, m')) => Computes(k, fr, m, temps, ip, m', [v], ip') case Err(_) => true
  }

  ghost predicate Changes(k: Linked, fr: Frame, m: Mem, temps: seq<Value>, ip: nat, r: Result<Mem>, ip': nat) {
    match r case Ok(m') => Computes(k, fr, m, temps, ip, m', [], ip') case Err(_) => true
  }

  function CodeOf(r: Result<(Strings, Code)>): Code { match r case Ok((_, code)) => code case Err(_) => [] }

  /** Where a label stands. */
  function Here(k: Linked, name: string): nat { OffsetOf(k.labels, name) }

  predicate EndsAt(k: Linked, ip: nat) { ip in k.img.program && k.img.program[ip].instr == END }

  /** The end label of the innermost loop. */
  predicate InLoop(k: Linked, ends: seq<string>) { ends != [] && ends[|ends| - 1] in k.labels }

  function Innermost(k: Linked, ends: seq<string>): nat { if InLoop(k, ends) then k.labels[ends[|ends| - 1]] else 0 }

  predicate NextsFit(k: Linked) { forall a :: a in k.img.program ==> FitsI32(k.img.program[a].next) }

  predicate CallableAt(h: RT.Heap, v: Value, entry: nat, n: nat) { RT.IsObj(h, v) && h[v.addr] == RT.Callable(entry, n) }

  predicate IsDot(e: Expr) { e.Binary? && e.operator.Dot? }

  predicate IsOperation(e: Expr) { e.Binary? && !e.operator.Dot? }

  predicate IsConstructor(cfg: Config, e: Expr) { e.FunctionCall? && e.function_.Name? && e.function_.name in cfg.variants }

  predicate IsCall(cfg: Config, e: Expr) { e.FunctionCall? && !IsConstructor(cfg, e) }

  lemma NoTemps()
    ensures forall temps: seq<Value> :: temps + [] == temps
    ensures forall temps: seq<Value> :: [] + temps == temps
  {
  }

  lemma Nothing(k: Linked, fr: Frame, m: Mem, temps: seq<Value>, ip: nat)
    ensures Computes(k, fr, m, temps, ip, m, [], Past(ip, []))
  {
    hide EvalStmt, EmitStmt, EvalBlock, EmitBlock, Invoke, UnitPlaced, UnitAt, M.Reaches, M.Run, M.Step, M.Prim, M.Exec, EvalExpr, EmitExpr,
      EvalExprs, EmitExprs, EvalMaybe, Extent, AfterStmt, AfterBlock, Flows;
    assert temps + [] == temps;
    ExtentNil();
    M.ReachesSelf(k.img, At(fr, m, temps, ip));
  }

  lemma Then(k: Linked, fr: Frame, m: Mem, temps: seq<Value>, ip: nat, m1: Mem, vs: seq<Value>, ip1: nat,
             m2: Mem, ws: seq<Value>, ip2: nat)
    requires Computes(k, fr, m, temps, ip, m1, vs, ip1) && Computes(k, fr, m1, temps + vs, ip1, m2, ws, ip2)
    ensures Computes(k, fr, m, temps, ip, m2, vs + ws, ip2)
  {
    hide M.Reaches, At, EvalStmt, EmitStmt, EvalBlock, EmitBlock, Invoke, UnitPlaced, UnitAt, M.Run, M.Step, M.Prim, M.Exec, EvalExpr, EmitExpr,
      EvalExprs, EmitExprs, EvalMaybe;
    assert temps + vs + ws == temps + (vs + ws);
    M.ReachesTrans(k.img, At(fr, m, temps, ip), At(fr, m1, temps + vs, ip1), At(fr, m2, temps + vs + ws, ip2));
  }

  /** An instruction without variables or control, on operands just computed. */
  lemma ThenOp(k: Linked, fr: Frame, m: Mem, temps: seq<Value>, ip: nat, m1: Mem, ops: seq<Value>, ip1: nat,
               i: Instr, effect: M.Effect)
    requires Computes(k, fr, m, temps, ip, m1, ops, ip1)
    requires |m1.globals| == k.img.globals
    requires Placed(k, ip1, [i]) && !i.LABEL? && !M.IsControl(Target(k.labels, i))
    requires M.Performs(k.img, Target(k.labels, i), m1.heap, ops, effect)
    ensures Computes(k, fr, m, temps, ip, Frames.After(m1, effect), effect.pushes, Past(ip1, [i]))
  {
    hide M.Reaches, At, Placed, M.Performs, Extent;
    PrimRuns(k, i, effect, fr, m1, temps, ops, ip1);
    M.ReachesTrans(k.img, At(fr, m, temps, ip), At(fr, m1, temps + ops, ip1),
      At(fr, Frames.After(m1, effect), temps + effect.pushes, Past(ip1, [i])));
  }

  lemma Chain3(img: M.Image, a: M.State, b: M.State, c: M.State, d: M.State)
    requires M.Reaches(img, a, b) && M.Reaches(img, b, c) && M.Reaches(img, c, d)
    ensures M.Reaches(img, a, d)
  {
    hide *;
    M.ReachesTrans(img, a, b, c);
    M.ReachesTrans(img, a, c, d);
  }

  /** An operation that yields one value and a heap. */
  function Push1(r: (Value, RT.Heap)): M.Effect { M.Effect([r.0], r.1, []) }

  // Expressions

  /** Emitted code in place and a value computed by the evaluator... */
  ghost predicate ExprStart(k: Linked, fuel: nat, cfg: Config, sc: Scope, tab: Strings, e: Expr, fr: Frame, m: Mem, ip: nat) {
    && Ready(k, m, fr)
    && Stands(k, ip, EmitExpr(cfg, sc, tab, e))
    && EvalExpr(k.w, fuel, cfg, sc, e, m).Ok?
  }

  /** ...the machine reaches the evaluator's memory with the value as one more temporary. */
  ghost predicate ExprDone(k: Linked, fuel: nat, cfg: Config, sc: Scope, tab: Strings, e: Expr, fr: Frame, m: Mem,
                           temps: seq<Value>, ip: nat)
  {
    EmitExpr(cfg, sc, tab, e).Ok? ==>
      Gives(k, fr, m, temps, ip, EvalExpr(k.w, fuel, cfg, sc, e, m), Past(ip, CodeOf(EmitExpr(cfg, sc, tab, e))))
  }

  lemma {:induction false} ExprRuns(k: Linked, fuel: nat, cfg: Config, sc: Scope, tab: Strings, e: Expr,
                                    fr: Frame, m: Mem, temps: seq<Value>, ip: nat)
    requires ExprStart(k, fuel, cfg, sc, tab, e, fr, m, ip)
    ensures ExprDone(k, fuel, cfg, sc, tab, e, fr, m, temps, ip)
    decreases fuel, e, 2
  {
    hide ExprStart, ExprDone;
    if e.Name? {
      NameExprRuns(k, fuel, cfg, sc, tab, e, fr, m, temps, ip);
    } else if e.Binary? {
      if e.operator.Dot? {
        DotRuns(k, fuel, cfg, sc, tab, e, fr, m, temps, ip);
      } else {
        BinaryRuns(k, fuel, cfg, sc, tab, e, fr, m, temps, ip);
      }
    } else if e.Unary? {
      UnaryRuns(k, fuel, cfg, sc, tab, e, fr, m, temps, ip);
    } else if e.TupleConstruct? {
      TupleRuns(k, fuel, cfg, sc, tab, e, fr, m, temps, ip);
    } else if e.FunctionCall? {
      if e.function_.Name? && e.function_.name in cfg.variants {
        ConstructorRuns(k, fuel, cfg, sc, tab, e, fr, m, temps, ip);
      } else {
        FunctionCallRuns(k, fuel, cfg, sc, tab, e, fr, m, temps, ip);
      }
    } else if e.Subscript? {
      SubscriptRuns(k, fuel, cfg, sc, tab, e, fr, m, temps, ip);
    } else if e.SliceExpr? {
      SliceRuns(k, fuel, cfg, sc, tab, e, fr, m, temps, ip);
    } else {
      LiteralRuns(k, fuel, cfg, sc, tab, e, fr, m, temps, ip);
    }
  }

  lemma LiteralRuns(k: Linked, fuel: nat, cfg: Config, sc: Scope, tab: Strings, e: Expr, fr: Frame, m: Mem, temps: seq<Value>, ip: nat)
    requires e.IntegerLit? || e.BooleanLit? || e.RealLit? || e.TextLit? || e.NullLit?
    requires ExprStart(k, fuel, cfg, sc, tab, e, fr, m, ip)
    ensures ExprDone(k, fuel, cfg, sc, tab, e, fr, m, temps, ip)
  {
    hide Computes, Loaded, Placed, Extent, EmitStmt, EvalStmt, EvalBlock, EmitBlock, Invoke, RT.Binop, RT.VmBinop, RT.NewText,
      StringTable.Intern, StringTable.StringAt, StringTable.Terminated, M.IsControl;
    var (tab1, code) := EmitExpr(cfg, sc, tab, e).value;
    if e.TextLit? {
      assert k.img.strings == tab1 + k.img.strings[|tab1|..];
      StringTable.InternReads(tab, e.bytes, k.img.strings[|tab1|..]);
    }
    assert code == [code[0]];
    PushRuns(k, fr, m, temps, ip, code[0], EvalExpr(k.w, fuel, cfg, sc, e, m).value);
  }

  /** An instruction without operands that pushes one value. */
  lemma PushRuns(k: Linked, fr: Frame, m: Mem, temps: seq<Value>, ip: nat, i: Instr, r: (Value, Mem))
    requires Ready(k, m, fr) && Placed(k, ip, [i])
    requires i.CONST? || i.BOOL? || i.CONSTF? || i.STRING? || i.NULL?
    requires r.1 == m.(heap := r.1.heap) && M.Performs(k.img, i, m.heap, [], M.Effect([r.0], r.1.heap, []))
    ensures Computes(k, fr, m, temps, ip, r.1, [r.0], Past(ip, [i]))
  {
    hide Computes, Loaded, Placed, Extent, M.Performs;
    Nothing(k, fr, m, temps, ip);
    ExtentNil();
    ThenOp(k, fr, m, temps, ip, m, [], ip, i, M.Effect([r.0], r.1.heap, []));
  }

  lemma NameExprRuns(k: Linked, fuel: nat, cfg: Config, sc: Scope, tab: Strings, e: Expr, fr: Frame, m: Mem, temps: seq<Value>, ip: nat)
    requires e.Name?
    requires ExprStart(k, fuel, cfg, sc, tab, e, fr, m, ip)
    ensures ExprDone(k, fuel, cfg, sc, tab, e, fr, m, temps, ip)
  {
    hide Computes, Placed, EmitBlock, Invoke, Ready, Emits;
    NameRuns(k, cfg, sc, e.name, fr, m, temps, ip);
  }

  lemma NameRuns(k: Linked, cfg: Config, sc: Scope, name: string, fr: Frame, m: Mem, temps: seq<Value>, ip: nat)
    requires Ready(k, m, fr)
    requires StandsAlone(k, ip, EmitName(cfg, sc, name)) && EvalName(k.w, cfg, sc, name, m).Ok?
    ensures EmitName(cfg, sc, name).Ok? ==> match EmitName(cfg, sc, name)
      case Ok(code) => Gives(k, fr, m, temps, ip, EvalName(k.w, cfg, sc, name, m), Past(ip, code)) case Err(_) => true
  {
    hide M.Reaches, At, Loaded, Placed, Extent, EvalStmt, Invoke, UnitPlaced, UnitAt, M.Run, M.Step, M.Exec, EvalMaybe, EmitMaybe, EvalCallee,
      EmitCallee, RT.Binop, RT.VmBinop, RT.Equal, EvalExpr, EmitExpr, EndsPlaced;
    var (v, m') := EvalName(k.w, cfg, sc, name, m).value;
    if name in cfg.variants || name in cfg.callTargets {
      Nothing(k, fr, m, temps, ip);
      ExtentNil();
      ThenOp(k, fr, m, temps, ip, m, [], ip, EmitName(cfg, sc, name).value[0], M.Effect([v], m'.heap, []));
    } else {
      LoadRuns(k, fr, m, temps, ip, FindVariable(sc, name).value);
    }
  }

  /** No label, no jump: the instruction stays as it is when labels are resolved. */
  predicate Plain(k: Linked, i: Instr) { !i.LABEL? && Target(k.labels, i) == i && !M.IsControl(i) }

  lemma UnaryPerforms(k: Linked, unary: UnaryOperator, v: Value, m: Mem, v': Value, m': Mem)
    requires k.img.lib == k.w.lib && Semantics.ApplyUnary(k.w, unary, v, m) == Ok((v', m'))
    ensures m' == m.(heap := m'.heap)
    ensures if unary.Plus? then UnaryCode(unary) == [] && v' == v && m' == m
      else exists i :: UnaryCode(unary) == [i] && Plain(k, i) && M.Performs(k.img, i, m.heap, [v], M.Effect([v'], m'.heap, []))
  {
    hide RT.Unop, RT.CallBuiltin;
    if !unary.Plus? {
      var i := UnaryCode(unary)[0];
      assert UnaryCode(unary) == [i];
    }
  }

  lemma {:induction false} UnaryRuns(k: Linked, fuel: nat, cfg: Config, sc: Scope, tab: Strings, e: Expr,
                                     fr: Frame, m: Mem, temps: seq<Value>, ip: nat)
    requires e.Unary? && ExprStart(k, fuel, cfg, sc, tab, e, fr, m, ip)
    ensures ExprDone(k, fuel, cfg, sc, tab, e, fr, m, temps, ip)
    decreases fuel, e, 1
  {
    hide EvalStmt, EmitStmt, EvalBlock, EmitBlock, Invoke, Computes, Loaded, Placed, Extent, M.Performs, M.IsControl, Semantics.ApplyUnary, UnaryCode,
      RT.Binop, RT.Equal;
    var code := EmitExpr(cfg, sc, tab, e.operand).value.1;
    var (v, m1) := EvalExpr(k.w, fuel, cfg, sc, e.operand, m).value;
    var (v', m') := EvalExpr(k.w, fuel, cfg, sc, e, m).value;
    PlacedSplit(k, ip, code, UnaryCode(e.unary));
    ExprRuns(k, fuel, cfg, sc, tab, e.operand, fr, m, temps, ip);
    UnaryPerforms(k, e.unary, v, m1, v', m');
    if e.unary.Plus? {
      ExtentNil();
      assert code + [] == code;
    } else {
      var i := UnaryCode(e.unary)[0];
      ThenOp(k, fr, m, temps, ip, m1, [v], ip + Extent(code), i, M.Effect([v'], m'.heap, []));
    }
  }

  lemma {:induction false} DotRuns(k: Linked, fuel: nat, cfg: Config, sc: Scope, tab: Strings, e: Expr,
                                   fr: Frame, m: Mem, temps: seq<Value>, ip: nat)
    requires IsDot(e) && ExprStart(k, fuel, cfg, sc, tab, e, fr, m, ip)
    ensures ExprDone(k, fuel, cfg, sc, tab, e, fr, m, temps, ip)
    decreases fuel, e, 1
  {
    hide EvalStmt, EmitStmt, EvalBlock, EmitBlock, Invoke, Computes, Loaded, Placed, Extent, UnitPlaced, M.Performs, M.Pops, RT.Field, RT.Binop,
      RT.Equal;
    var index := cfg.fieldIndices[e.right.name];
    var code := EmitExpr(cfg, sc, tab, e.left).value.1;
    var (v, m1) := EvalExpr(k.w, fuel, cfg, sc, e.left, m).value;
    var x := EvalExpr(k.w, fuel, cfg, sc, e, m).value.0;
    PlacedSplit(k, ip, code, [FIELD(index)]);
    ExprRuns(k, fuel, cfg, sc, tab, e.left, fr, m, temps, ip);
    M.FieldPerforms(k.img, m1.heap, v, index, x);
    ThenOp(k, fr, m, temps, ip, m1, [v], ip + Extent(code), FIELD(index), M.Effect([x], m1.heap, []));
  }

  /** Two operands, then an operator on both. */
  lemma PairThenOp(k: Linked, fr: Frame, m: Mem, temps: seq<Value>, ip: nat, m1: Mem, a: Value, ip1: nat,
                   m2: Mem, b: Value, ip2: nat, i: Instr, r: (Value, RT.Heap))
    requires Computes(k, fr, m, temps, ip, m1, [a], ip1) && Computes(k, fr, m1, temps + [a], ip1, m2, [b], ip2)
    requires |m2.globals| == k.img.globals && Placed(k, ip2, [i]) && (i.BINOP? || i.ELEM?)
    requires M.Performs(k.img, i, m2.heap, [a, b], Push1(r))
    ensures Computes(k, fr, m, temps, ip, m2.(heap := r.1), [r.0], Past(ip2, [i]))
  {
    hide Computes, Placed, Extent, M.Performs;
    Then(k, fr, m, temps, ip, m1, [a], ip1, m2, [b], ip2);
    assert [a] + [b] == [a, b];
    ThenOp(k, fr, m, temps, ip, m2, [a, b], ip2, i, Push1(r));
  }

  lemma {:induction false} BinaryRuns(k: Linked, fuel: nat, cfg: Config, sc: Scope, tab: Strings, e: Expr,
                                      fr: Frame, m: Mem, temps: seq<Value>, ip: nat)
    requires IsOperation(e) && ExprStart(k, fuel, cfg, sc, tab, e, fr, m, ip)
    ensures ExprDone(k, fuel, cfg, sc, tab, e, fr, m, temps, ip)
    decreases fuel, e, 1
  {
    hide Computes, Loaded, Placed, Extent, RT.Binop, RT.VmBinop, EvalStmt, EmitStmt, EvalBlock, EmitBlock, Invoke, UnitPlaced, UnitAt, EvalExprs,
      EmitExprs, EvalMaybe, EmitMaybe, EvalCallee, EmitCallee, RT.Equal, RT.CallBuiltin;
    var op := Operator(e.operator).value;
    var (tab1, a) := EmitExpr(cfg, sc, tab, e.left).value;
    var b := EmitExpr(cfg, sc, tab1, e.right).value.1;
    var (va, m1) := EvalExpr(k.w, fuel, cfg, sc, e.left, m).value;
    var (vb, m2) := EvalExpr(k.w, fuel, cfg, sc, e.right, m1).value;
    PlacedSplit(k, ip, a + b, [BINOP(op)]);
    PlacedSplit(k, ip, a, b);
    ExprRuns(k, fuel, cfg, sc, tab, e.left, fr, m, temps, ip);
    ExprRuns(k, fuel, cfg, sc, tab1, e.right, fr, m1, temps + [va], ip + Extent(a));
    RT.FastPathsAgree(k.img.lib, m2.heap, op, va, vb);
    PairThenOp(k, fr, m, temps, ip, m1, va, ip + Extent(a), m2, vb, ip + Extent(a + b), BINOP(op),
      RT.Binop(k.w.lib, m2.heap, op, va, vb).value);
  }

  lemma {:induction false} SubscriptRuns(k: Linked, fuel: nat, cfg: Config, sc: Scope, tab: Strings, e: Expr,
                                         fr: Frame, m: Mem, temps: seq<Value>, ip: nat)
    requires e.Subscript? && ExprStart(k, fuel, cfg, sc, tab, e, fr, m, ip)
    ensures ExprDone(k, fuel, cfg, sc, tab, e, fr, m, temps, ip)
    decreases fuel, e, 1
  {
    hide Computes, Placed, Extent, RT.Elem, EvalStmt, Invoke, UnitPlaced;
    var (tab1, a) := EmitExpr(cfg, sc, tab, e.collection).value;
    var b := EmitExpr(cfg, sc, tab1, e.index).value.1;
    var (c, m1) := EvalExpr(k.w, fuel, cfg, sc, e.collection, m).value;
    var (i, m2) := EvalExpr(k.w, fuel, cfg, sc, e.index, m1).value;
    PlacedSplit(k, ip, a + b, [ELEM]);
    PlacedSplit(k, ip, a, b);
    ExprRuns(k, fuel, cfg, sc, tab, e.collection, fr, m, temps, ip);
    ExprRuns(k, fuel, cfg, sc, tab1, e.index, fr, m1, temps + [c], ip + Extent(a));
    PairThenOp(k, fr, m, temps, ip, m1, c, ip + Extent(a), m2, i, ip + Extent(a + b), ELEM, RT.Elem(m2.heap, c, i).value);
  }

  lemma {:induction false} TupleRuns(k: Linked, fuel: nat, cfg: Config, sc: Scope, tab: Strings, e: Expr,
                                     fr: Frame, m: Mem, temps: seq<Value>, ip: nat)
    requires e.TupleConstruct? && ExprStart(k, fuel, cfg, sc, tab, e, fr, m, ip)
    ensures ExprDone(k, fuel, cfg, sc, tab, e, fr, m, temps, ip)
    decreases fuel, e, 1
  {
    hide Computes, Placed, Extent, EvalStmt, Invoke, UnitPlaced, UnitAt;
    var code, i := EmitExprs(cfg, sc, tab, e.elements).value.1, TUPLE(|e.elements|);
    var (vs, m1) := EvalExprs(k.w, fuel, cfg, sc, e.elements, m).value;
    PlacedSplit(k, ip, code, [i]);
    ExprsRun(k, fuel, cfg, sc, tab, e.elements, fr, m, temps, ip);
    ThenOp(k, fr, m, temps, ip, m1, vs, ip + Extent(code), i, Push1(RT.Alloc(m1.heap, RT.Tuple(vs))));
  }

  lemma {:induction false} ConstructorRuns(k: Linked, fuel: nat, cfg: Config, sc: Scope, tab: Strings, e: Expr,
                                           fr: Frame, m: Mem, temps: seq<Value>, ip: nat)
    requires IsConstructor(cfg, e)
    requires ExprStart(k, fuel, cfg, sc, tab, e, fr, m, ip)
    ensures ExprDone(k, fuel, cfg, sc, tab, e, fr, m, temps, ip)
    decreases fuel, e, 1
  {
    hide Computes, Loaded, Placed, Extent, EmitBlock, Invoke, M.Reaches, M.Run;
    var schema := cfg.variants[e.function_.name].schema;
    var code := EmitExprs(cfg, sc, tab, e.arguments).value.1;
    var (vs, m1) := EvalExprs(k.w, fuel, cfg, sc, e.arguments, m).value;
    PlacedSplit(k, ip, code, [VARIANT(schema)]);
    ExprsRun(k, fuel, cfg, sc, tab, e.arguments, fr, m, temps, ip);
    ThenOp(k, fr, m, temps, ip, m1, vs, ip + Extent(code), VARIANT(schema),
      Push1(RT.NewVariant(k.w.lib, m1.heap, schema, vs).value));
  }

  ghost predicate ExprsStart(k: Linked, fuel: nat, cfg: Config, sc: Scope, tab: Strings, es: seq<Expr>, fr: Frame, m: Mem, ip: nat) {
    && Ready(k, m, fr)
    && Stands(k, ip, EmitExprs(cfg, sc, tab, es))
    && EvalExprs(k.w, fuel, cfg, sc, es, m).Ok?
  }

  ghost predicate ExprsDone(k: Linked, fuel: nat, cfg: Config, sc: Scope, tab: Strings, es: seq<Expr>, fr: Frame, m: Mem,
                            temps: seq<Value>, ip: nat)
  {
    match (EmitExprs(cfg, sc, tab, es), EvalExprs(k.w, fuel, cfg, sc, es, m))
    case (Ok((_, code)), Ok((vs, m'))) => Computes(k, fr, m, temps, ip, m', vs, Past(ip, code))
    case _ => true
  }

  lemma {:induction false} ExprsRun(k: Linked, fuel: nat, cfg: Config, sc: Scope, tab: Strings, es: seq<Expr>,
                                    fr: Frame, m: Mem, temps: seq<Value>, ip: nat)
    requires ExprsStart(k, fuel, cfg, sc, tab, es, fr, m, ip)
    ensures ExprsDone(k, fuel, cfg, sc, tab, es, fr, m, temps, ip)
    decreases fuel, es, 0
  {
    hide Computes, Loaded, Placed, Extent, EmitExpr, EvalExpr, EvalStmt, EmitStmt, EvalBlock, EmitBlock, Invoke, UnitPlaced, UnitAt;
    if es == [] {
      Nothing(k, fr, m, temps, ip);
    } else {
      var (tab1, first) := EmitExpr(cfg, sc, tab, es[0]).value;
      var rest := EmitExprs(cfg, sc, tab1, es[1..]).value.1;
      var (v, m1) := EvalExpr(k.w, fuel, cfg, sc, es[0], m).value;
      var (vs, m2) := EvalExprs(k.w, fuel, cfg, sc, es[1..], m1).value;
      PlacedSplit(k, ip, first, rest);
      ExprRuns(k, fuel, cfg, sc, tab, es[0], fr, m, temps, ip);
      ExprsRun(k, fuel, cfg, sc, tab1, es[1..], fr, m1, temps + [v], ip + Extent(first));
      Then(k, fr, m, temps, ip, m1, [v], ip + Extent(first), m2, vs, ip + Extent(first) + Extent(rest));
    }
  }

  function Opt(v: Option<Value>): seq<Value> { if v.Some? then [v.value] else [] }

  ghost predicate MaybeStart(k: Linked, fuel: nat, cfg: Config, sc: Scope, tab: Strings, e: MaybeExpr, fr: Frame, m: Mem, ip: nat) {
    && Ready(k, m, fr)
    && Stands(k, ip, EmitMaybe(cfg, sc, tab, e))
    && EvalMaybe(k.w, fuel, cfg, sc, e, m).Ok?
  }

  ghost predicate MaybeDone(k: Linked, fuel: nat, cfg: Config, sc: Scope, tab: Strings, e: MaybeExpr, fr: Frame, m: Mem,
                            temps: seq<Value>, ip: nat)
  {
    match (EmitMaybe(cfg, sc, tab, e), EvalMaybe(k.w, fuel, cfg, sc, e, m))
    case (Ok((_, code)), Ok((v, m'))) => Computes(k, fr, m, temps, ip, m', Opt(v), Past(ip, code))
    case _ => true
  }

  lemma {:induction false} MaybeRuns(k: Linked, fuel: nat, cfg: Config, sc: Scope, tab: Strings, e: MaybeExpr,
                                     fr: Frame, m: Mem, temps: seq<Value>, ip: nat)
    requires MaybeStart(k, fuel, cfg, sc, tab, e, fr, m, ip)
    ensures MaybeDone(k, fuel, cfg, sc, tab, e, fr, m, temps, ip)
    decreases fuel, e, 0
  {
    hide Computes, Loaded, Placed, Extent, EmitExpr, EvalExpr, EvalStmt, EmitStmt, EvalBlock, EmitBlock, Invoke, UnitPlaced, UnitAt, M.Reaches,
      M.Run, M.Step, M.Prim, M.Exec, EvalExprs, EmitExprs;
    if e.Absent? {
      Nothing(k, fr, m, temps, ip);
    } else {
      ExprRuns(k, fuel, cfg, sc, tab, e.expr, fr, m, temps, ip);
    }
  }

  /** Collection and bounds are on the stack; the slice takes their place. */
  lemma SliceThenOp(k: Linked, fr: Frame, m: Mem, temps: seq<Value>, ip: nat, from: MaybeExpr, to: MaybeExpr,
                    m1: Mem, c: Value, ip1: nat, m2: Mem, x: Option<Value>, ip2: nat, m3: Mem, y: Option<Value>, ip3: nat)
    requires Computes(k, fr, m, temps, ip, m1, [c], ip1)
    requires Computes(k, fr, m1, temps + [c], ip1, m2, Opt(x), ip2)
    requires Computes(k, fr, m2, temps + [c] + Opt(x), ip2, m3, Opt(y), ip3)
    requires x.Some? == from.Present? && y.Some? == to.Present?
    requires |m3.globals| == k.img.globals && Placed(k, ip3, [SLICE(BoundsMask(from, to))])
    ensures Gives(k, fr, m, temps, ip, InHeap(m3, RT.SliceOf(m3.heap, c, x, y)), Past(ip3, [SLICE(BoundsMask(from, to))]))
  {
    hide Computes, Placed, Extent, RT.SliceOf;
    if RT.SliceOf(m3.heap, c, x, y).Ok? {
      var i, ops := SLICE(BoundsMask(from, to)), [c] + Opt(x) + Opt(y);
      Then(k, fr, m, temps, ip, m1, [c], ip1, m2, Opt(x), ip2);
      assert temps + [c] + Opt(x) == temps + ([c] + Opt(x));
      Then(k, fr, m, temps, ip, m2, [c] + Opt(x), ip2, m3, Opt(y), ip3);
      ThenOp(k, fr, m, temps, ip, m3, ops, ip3, i, Push1(RT.SliceOf(m3.heap, c, x, y).value));
    }
  }

  lemma {:induction false} SliceRuns(k: Linked, fuel: nat, cfg: Config, sc: Scope, tab: Strings, e: Expr,
                                     fr: Frame, m: Mem, temps: seq<Value>, ip: nat)
    requires e.SliceExpr? && ExprStart(k, fuel, cfg, sc, tab, e, fr, m, ip)
    ensures ExprDone(k, fuel, cfg, sc, tab, e, fr, m, temps, ip)
    decreases fuel, e, 1
  {
    hide Computes, Loaded, Placed, Extent, RT.SliceOf, EmitBlock, Invoke;
    var (tab1, a) := EmitExpr(cfg, sc, tab, e.collection).value;
    var (tab2, b) := EmitMaybe(cfg, sc, tab1, e.from).value;
    var d := EmitMaybe(cfg, sc, tab2, e.to).value.1;
    var (c, m1) := EvalExpr(k.w, fuel, cfg, sc, e.collection, m).value;
    var (x, m2) := EvalMaybe(k.w, fuel, cfg, sc, e.from, m1).value;
    var (y, m3) := EvalMaybe(k.w, fuel, cfg, sc, e.to, m2).value;
    PlacedSplit(k, ip, a + b + d, [SLICE(BoundsMask(e.from, e.to))]);
    PlacedSplit(k, ip, a + b, d);
    PlacedSplit(k, ip, a, b);
    ExprRuns(k, fuel, cfg, sc, tab, e.collection, fr, m, temps, ip);
    MaybeRuns(k, fuel, cfg, sc, tab1, e.from, fr, m1, temps + [c], ip + Extent(a));
    MaybeRuns(k, fuel, cfg, sc, tab2, e.to, fr, m2, temps + [c] + Opt(x), ip + Extent(a + b));
    SliceThenOp(k, fr, m, temps, ip, e.from, e.to, m1, c, ip + Extent(a), m2, x, ip + Extent(a + b), m3, y, ip + Extent(a + b + d));
  }

  // Calls

  ghost predicate CalleeStart(k: Linked, fuel: nat, cfg: Config, sc: Scope, tab: Strings, f: Expr, fr: Frame, m: Mem, ip: nat) {
    && Ready(k, m, fr)
    && Stands(k, ip, EmitCallee(cfg, sc, tab, f))
    && EvalCallee(k.w, fuel, cfg, sc, f, m).Ok?
  }

  ghost predicate CalleeDone(k: Linked, fuel: nat, cfg: Config, sc: Scope, tab: Strings, f: Expr, fr: Frame, m: Mem,
                             temps: seq<Value>, ip: nat)
  {
    match (EmitCallee(cfg, sc, tab, f), EvalCallee(k.w, fuel, cfg, sc, f, m))
    case (Ok((_, code)), Ok((c, m'))) => Computes(k, fr, m, temps, ip, m', c, Past(ip, code))
    case _ => true
  }

  lemma {:induction false} CalleeRuns(k: Linked, fuel: nat, cfg: Config, sc: Scope, tab: Strings, f: Expr,
                                      fr: Frame, m: Mem, temps: seq<Value>, ip: nat)
    requires CalleeStart(k, fuel, cfg, sc, tab, f, fr, m, ip)
    ensures CalleeDone(k, fuel, cfg, sc, tab, f, fr, m, temps, ip)
    decreases fuel, f, 3
  {
    hide Computes, Loaded, Placed, Extent, EmitExpr, EvalExpr, EvalStmt, EmitStmt, EvalBlock, EmitBlock, Invoke, UnitPlaced, UnitAt, M.Reaches,
      M.Run, M.Step, M.Prim, M.Exec, EvalExprs, EmitExprs;
    if CalleeOf(cfg, f).Computed? {
      ExprRuns(k, fuel, cfg, sc, tab, f, fr, m, temps, ip);
    } else {
      Nothing(k, fr, m, temps, ip);
    }
  }

  ghost predicate InvokeStart(k: Linked, fuel: nat, callee: Callee, c: seq<Value>, vs: seq<Value>, fr: Frame, m: Mem, ip: nat) {
    && Ready(k, m, fr) && |c| == (if callee.Computed? then 1 else 0)
    && Placed(k, ip, [CallCode(callee, |vs|)])
    && Invoke(k.w, fuel, callee, c, vs, m).Ok?
  }

  ghost predicate InvokeDone(k: Linked, fuel: nat, callee: Callee, c: seq<Value>, vs: seq<Value>, fr: Frame, m: Mem,
                             temps: seq<Value>, ip: nat)
  {
    (callee.Computed? ==> c != []) && Invoke(k.w, fuel, callee, c, vs, m).Ok? ==>
      var (v, m') := Invoke(k.w, fuel, callee, c, vs, m).value;
      M.Reaches(k.img, At(fr, m, temps + c + vs, ip), At(fr, m', temps + [v], ip + Extent([CallCode(callee, |vs|)])))
  }

  /** Callee and arguments are on the stack; the result takes their place. */
  lemma ThenCall(k: Linked, fuel: nat, callee: Callee, fr: Frame, m: Mem, temps: seq<Value>, ip: nat,
                 m1: Mem, c: seq<Value>, ip1: nat, m2: Mem, vs: seq<Value>, ip2: nat)
    requires Computes(k, fr, m, temps, ip, m1, c, ip1) && Computes(k, fr, m1, temps + c, ip1, m2, vs, ip2)
    requires (callee.Computed? ==> c != []) && Invoke(k.w, fuel, callee, c, vs, m2).Ok?
    requires InvokeDone(k, fuel, callee, c, vs, fr, m2, temps, ip2)
    ensures var (v, m3) := Invoke(k.w, fuel, callee, c, vs, m2).value;
      Computes(k, fr, m, temps, ip, m3, [v], ip2 + Extent([CallCode(callee, |vs|)]))
  {
    hide M.Reaches, At, Extent, Invoke, EvalStmt, EmitStmt, EvalBlock, EmitBlock, UnitPlaced, UnitAt, M.Run, M.Step, M.Prim, M.Exec, EvalExpr,
      EmitExpr, EvalExprs, EmitExprs, EvalMaybe;
    var (v, m3) := Invoke(k.w, fuel, callee, c, vs, m2).value;
    Then(k, fr, m, temps, ip, m1, c, ip1, m2, vs, ip2);
    assert temps + (c + vs) == temps + c + vs;
    M.ReachesTrans(k.img, At(fr, m, temps, ip), At(fr, m2, temps + c + vs, ip2),
      At(fr, m3, temps + [v], ip2 + Extent([CallCode(callee, |vs|)])));
  }

  lemma {:induction false} FunctionCallRuns(k: Linked, fuel: nat, cfg: Config, sc: Scope, tab: Strings, e: Expr,
                                            fr: Frame, m: Mem, temps: seq<Value>, ip: nat)
    requires IsCall(cfg, e)
    requires ExprStart(k, fuel, cfg, sc, tab, e, fr, m, ip)
    ensures ExprDone(k, fuel, cfg, sc, tab, e, fr, m, temps, ip)
    decreases fuel, e, 1
  {
    hide Computes, Loaded, Placed, Extent, Invoke, EmitCallee, EvalCallee, CallCode, CalleeOf, InvokeDone;
    var callee, n := CalleeOf(cfg, e.function_), |e.arguments|;
    var (tab1, a) := EmitCallee(cfg, sc, tab, e.function_).value;
    var b := EmitExprs(cfg, sc, tab1, e.arguments).value.1;
    var (c, m1) := EvalCallee(k.w, fuel, cfg, sc, e.function_, m).value;
    var (vs, m2) := EvalExprs(k.w, fuel, cfg, sc, e.arguments, m1).value;
    PlacedSplit(k, ip, a + b, [CallCode(callee, n)]);
    PlacedSplit(k, ip, a, b);
    CalleeRuns(k, fuel, cfg, sc, tab, e.function_, fr, m, temps, ip);
    ExprsRun(k, fuel, cfg, sc, tab1, e.arguments, fr, m1, temps + c, ip + Extent(a));
    InvokeRuns(k, fuel - 1, callee, c, vs, fr, m2, temps, ip + Extent(a + b));
    ThenCall(k, fuel - 1, callee, fr, m, temps, ip, m1, c, ip + Extent(a), m2, vs, ip + Extent(a + b));
  }

  /** The stack between globals and arguments as the callee sees it. */
  function CalleeFrame(u: Unit, fr: Frame, m: Mem, temps: seq<Value>, ret: nat): Frame {
    var taken := AfterBlock(u.cfg, u.scope, u.body).localCounter;
    Frame(fr.below + m.args + Meta(fr, m) + m.locals + RT.Zeros(fr.pad) + temps,
          if taken <= FrameSize(u) then FrameSize(u) - taken else 0, FrameStart(fr, m), ret)
  }

  /** Just after CALL or CALLC: arguments and return ip on top of the caller's stack. */
  function Entering(fr: Frame, m: Mem, temps: seq<Value>, vs: seq<Value>, ret: nat, entry: nat): M.State {
    At(fr, m, temps + vs + [RT.Int(ret)], entry)
  }

  /** count_locals made the frame large enough for the unit's variables. */
  lemma FrameFits(u: Unit)
    requires u.scope.localCounter == 0
    ensures AfterBlock(u.cfg, u.scope, u.body).localCounter <= FrameSize(u)
  {
    BlockExtends(u.cfg, u.scope, u.body);
  }

  /** The stack BEGIN builds is the callee's frame on the caller's stack. */
  lemma BeginStack(u: Unit, fr: Frame, m: Mem, temps: seq<Value>, vs: seq<Value>, ret: nat)
    requires AfterBlock(u.cfg, u.scope, u.body).localCounter <= FrameSize(u)
    requires FitsI32(FrameStart(fr, m)) && FitsI32(|vs|) && FitsI32(FrameSize(u))
    ensures Base(CalleeFrame(u, fr, m, temps, ret), Entered(u, vs, m)) ==
      Base(fr, m) + temps + vs + M.FrameMeta(|vs|, FrameSize(u), FrameStart(fr, m), RT.Int(ret)) + RT.Zeros(FrameSize(u))
  {
    hide AfterBlock, CountLocals;
    var n, size := AfterBlock(u.cfg, u.scope, u.body).localCounter, FrameSize(u);
    var fr', m' := CalleeFrame(u, fr, m, temps, ret), Entered(u, vs, m);
    assert Base(fr, m) + temps + vs == m.globals + fr'.below + vs;
    assert RT.Zeros(n) + RT.Zeros(size - n) == RT.Zeros(size);
    assert M.FrameMeta(|vs|, size, FrameStart(fr, m), RT.Int(ret)) == Meta(fr', m');
  }

  lemma BeginRuns(k: Linked, u: Unit, fr: Frame, m: Mem, temps: seq<Value>, vs: seq<Value>, ret: nat, entry: nat)
    requires Ready(k, m, fr) && |vs| == u.arity
    requires AfterBlock(u.cfg, u.scope, u.body).localCounter <= FrameSize(u)
    requires Placed(k, entry, [BEGIN(u.arity, FrameSize(u))])
    ensures M.Reaches(k.img, Entering(fr, m, temps, vs, ret, entry),
      At(CalleeFrame(u, fr, m, temps, ret), Entered(u, vs, m), [], Past(entry, [BEGIN(u.arity, FrameSize(u))])))
  {
    hide AfterBlock, FrameSize, Loaded, Placed, M.Reaches, M.ExecPrim, M.ExecLoad, M.ExecStore, M.ExecCallc, M.ExecCall, M.ExecCjmp, M.ExecEnd, Base,
      M.FrameMeta, CalleeFrame, Entered, EvalStmt, EmitStmt, EvalBlock;
    var size := FrameSize(u);
    PlacedOne(k, entry, BEGIN(u.arity, size));
    var s := Entering(fr, m, temps, vs, ret, entry);
    var below := Base(fr, m) + temps + vs;
    assert s.stack == below + [RT.Int(ret)] && s.stack[..|below|] == below;
    var t := At(CalleeFrame(u, fr, m, temps, ret), Entered(u, vs, m), [], entry + 9);
    BaseSize(fr, m);
    if |below| + M.META + size <= M.MAX_STACK {
      BeginStack(u, fr, m, temps, vs, ret);
      CalleeSizes(u, fr, m, temps, vs, ret);
      assert t.stack == Base(CalleeFrame(u, fr, m, temps, ret), Entered(u, vs, m));
    }
    M.ReachesByStep(k.img, s, t);
  }

  lemma BaseSize(fr: Frame, m: Mem)
    ensures |Base(fr, m)| == FrameStart(fr, m) + M.META + |m.locals| + fr.pad
  {
  }

  lemma CalleeSizes(u: Unit, fr: Frame, m: Mem, temps: seq<Value>, vs: seq<Value>, ret: nat)
    requires AfterBlock(u.cfg, u.scope, u.body).localCounter <= FrameSize(u)
    ensures var fr', m' := CalleeFrame(u, fr, m, temps, ret), Entered(u, vs, m);
      && FrameStart(fr', m') == |Base(fr, m)| + |temps| + |vs| && m'.args == vs
      && |m'.locals| + fr'.pad == FrameSize(u) && m'.heap == m.heap && m'.log == m.log
  {
    hide AfterBlock, CountLocals;
  }

  /** Where END finds the words of a callee's frame, and what it leaves. */
  lemma EndWords(u: Unit, fr: Frame, m: Mem, temps: seq<Value>, m': Mem, v: Value, ret: nat, ip: nat)
    requires AfterBlock(u.cfg, u.scope, u.body).localCounter <= FrameSize(u)
    ensures var fr' := CalleeFrame(u, fr, m, temps, ret);
      var s, fp := At(fr', m', [v], ip), FrameStart(fr', m');
      && |s.stack| == fp + M.META + |m'.locals| + fr'.pad + 1
      && s.stack[fp + 3] == RT.Int(FrameStart(fr, m)) && s.stack[fp + 4] == RT.Int(ret)
      && s.stack[..fp - |m'.args|] == m'.globals + fr'.below && s.stack[|s.stack| - 1] == v
  {
    hide AfterBlock, CountLocals, FrameSize;
    var fr' := CalleeFrame(u, fr, m, temps, ret);
    var s, base, fp := At(fr', m', [v], ip), Base(fr', m'), FrameStart(fr', m');
    assert s.stack == base + [v] && |base| == fp + M.META + |m'.locals| + fr'.pad;
    assert base == m'.globals + fr'.below + m'.args + Meta(fr', m') + (m'.locals + RT.Zeros(fr'.pad));
    assert s.stack[fp + 3] == Meta(fr', m')[3] && s.stack[fp + 4] == Meta(fr', m')[4];
  }

  /** The caller's stack with the result is its own frame again. */
  lemma CallerStack(u: Unit, fr: Frame, m: Mem, temps: seq<Value>, m': Mem, v: Value, ret: nat)
    requires AfterBlock(u.cfg, u.scope, u.body).localCounter <= FrameSize(u) && |m'.globals| == |m.globals|
    ensures var stack, start := m'.globals + CalleeFrame(u, fr, m, temps, ret).below + [v], FrameStart(fr, m);
      && stack == Base(fr, Left(m, m')) + (temps + [v]) && |stack| > start + 2
      && stack[start + 1] == RT.Int(|m.args|) && stack[start + 2] == RT.Int(|m.locals| + fr.pad)
  {
    hide AfterBlock, CountLocals, FrameSize;
    var stack, start := m'.globals + CalleeFrame(u, fr, m, temps, ret).below + [v], FrameStart(fr, m);
    assert stack == Base(fr, Left(m, m')) + (temps + [v]);
    assert stack[start + 1] == Meta(fr, m)[1] && stack[start + 2] == Meta(fr, m)[2];
  }

  /** END pops the frame whole and finds the caller's frame untouched below it. */
  lemma EndRuns(k: Linked, u: Unit, fr: Frame, m: Mem, temps: seq<Value>, m': Mem, v: Value, ret: nat, ip: nat)
    requires Ready(k, m, fr) && |m'.globals| == |m.globals| && |m'.args| == u.arity
    requires AfterBlock(u.cfg, u.scope, u.body).localCounter <= FrameSize(u)
    requires |m'.locals| == AfterBlock(u.cfg, u.scope, u.body).localCounter
    requires EndsAt(k, ip)
    ensures M.Reaches(k.img, At(CalleeFrame(u, fr, m, temps, ret), m', [v], ip), At(fr, Left(m, m'), temps + [v], ret))
  {
    hide AfterBlock, CountLocals, FrameSize, Loaded, Placed, Base, M.Reaches, M.Step, M.Leave;
    var fr' := CalleeFrame(u, fr, m, temps, ret);
    var s, t := At(fr', m', [v], ip), At(fr, Left(m, m'), temps + [v], ret);
    EndWords(u, fr, m, temps, m', v, ret, ip);
    CallerStack(u, fr, m, temps, m', v, ret);
    M.EndStep(k.img, s, FrameStart(fr, m), ret);
    M.LeaveStep(k.img, s.(ip := k.img.program[ip].next), t.stack, FrameStart(fr, m), ret, |m.args|, |m.locals| + fr.pad);
    M.ReachesByStep(k.img, s, t);
  }

  /** A block that ends normally holds no return of its own. */
  lemma {:induction false} NormalHasNoReturn(w: World, fuel: nat, cfg: Config, sc: Scope, stmts: seq<Stmt>, m: Mem)
    requires match EvalBlock(w, fuel, cfg, sc, stmts, m) case Ok((flow, _)) => flow.Normal? case Err(_) => false
    ensures !HasReturn(stmts)
    decreases |stmts|
  {
    hide EvalExpr, AfterStmt, Invoke, EvalExprs, EmitExprs, EvalMaybe, EmitMaybe, Extent, AfterBlock, Flows, Computes, At, EvalLoop, EvalCases,
      EmitCases;
    if stmts != [] {
      var m1 := EvalStmt(w, fuel, cfg, sc, stmts[0], m).value.1;
      NormalHasNoReturn(w, fuel, cfg, AfterStmt(cfg, sc, stmts[0]), stmts[1..], m1);
      assert forall i :: 0 < i < |stmts| ==> stmts[i] == stmts[1..][i - 1];
    }
  }

  /** Entering, running and leaving a unit: the caller gets its stack back plus the value. */
  lemma {:induction false} UnitRuns(k: Linked, fuel: nat, u: Unit, entry: nat, fr: Frame, m: Mem, temps: seq<Value>,
                                    vs: seq<Value>, ret: nat)
    requires Ready(k, m, fr) && UnitPlaced(k, entry, u) && |vs| == u.arity
    ensures match EvalBlock(k.w, fuel, u.cfg, u.scope, u.body, Entered(u, vs, m))
      case Err(_) => true
      case Ok((flow, m1)) =>
        match Returned(m, flow, m1)
        case Err(_) => true
        case Ok((v, m')) => M.Reaches(k.img, Entering(fr, m, temps, vs, ret, entry), At(fr, m', temps + [v], ret))
    decreases fuel, u.body, 7
  {
    hide M.Reaches, At, AfterBlock, FrameSize, Loaded, Placed, Extent, EvalStmt, EmitStmt, EvalBlock, EmitBlock, Invoke;
    var done := EvalBlock(k.w, fuel, u.cfg, u.scope, u.body, Entered(u, vs, m));
    if done.Err? || Returned(m, done.value.0, done.value.1).Err? { return; }
    var n: nat, tab: Strings :| UnitAt(k, entry, u, n, tab);
    var body := EmitBlock(u.cfg, GenEnv(u.scope, n, [], tab), u.body).value.1;
    var begin, epilogue := [BEGIN(u.arity, FrameSize(u))], Epilogue(u.scope.inFunction, u.body);
    PlacedSplit(k, entry, begin + body, epilogue);
    PlacedSplit(k, entry, begin, body);
    FrameFits(u);
    BeginRuns(k, u, fr, m, temps, vs, ret, entry);
    var fr', m0 := CalleeFrame(u, fr, m, temps, ret), Entered(u, vs, m);
    var (flow, m1) := EvalBlock(k.w, fuel, u.cfg, u.scope, u.body, m0).value;
    var start, bodyAt, endAt := Entering(fr, m, temps, vs, ret, entry), entry + Extent(begin), entry + Extent(begin + body);
    BlockRuns(k, fuel, u.cfg, GenEnv(u.scope, n, [], tab), u.body, fr', m0, bodyAt);
    if flow.Return? {
      var ip: nat :| EndsWith(k, fr', At(fr', m0, [], bodyAt), flow.value, m1, ip);
      EndRuns(k, u, fr, m, temps, m1, flow.value, ret, ip);
      Chain3(k.img, start, At(fr', m0, [], bodyAt), At(fr', m1, [flow.value], ip), At(fr, Left(m, m1), temps + [flow.value], ret));
    } else {
      NoTemps();
      NormalHasNoReturn(k.w, fuel, u.cfg, u.scope, u.body, m0);
      NullEndRuns(k, u, fr, m, temps, m1, ret, endAt);
      var (v, m2) := Returned(m, flow, m1).value;
      Chain3(k.img, start, At(fr', m0, [], bodyAt), At(fr', m1, [], endAt), At(fr, m2, temps + [v], ret));
    }
  }

  lemma NullEndRuns(k: Linked, u: Unit, fr: Frame, m: Mem, temps: seq<Value>, m': Mem, ret: nat, ip: nat)
    requires Ready(k, m, fr) && |m'.globals| == |m.globals| && |m'.args| == u.arity
    requires AfterBlock(u.cfg, u.scope, u.body).localCounter <= FrameSize(u)
    requires |m'.locals| == AfterBlock(u.cfg, u.scope, u.body).localCounter
    requires Placed(k, ip, [NULL, END])
    ensures var (v, h) := RT.Alloc(m'.heap, RT.Null);
      M.Reaches(k.img, At(CalleeFrame(u, fr, m, temps, ret), m', [], ip), At(fr, Left(m, m'.(heap := h)), temps + [v], ret))
  {
    hide AfterBlock, CountLocals, Loaded, Placed, Extent, UnitPlaced, UnitAt, M.Run;
    var fr' := CalleeFrame(u, fr, m, temps, ret);
    var (v, h) := RT.Alloc(m'.heap, RT.Null);
    assert [NULL, END] == [NULL] + [END];
    PlacedSplit(k, ip, [NULL], [END]);
    Nothing(k, fr', m', [], ip);
    ExtentNil();
    ThenOp(k, fr', m', [], ip, m', [], ip, NULL, M.Effect([v], h, []));
    assert [] + [v] == [v];
    PlacedOne(k, ip + Extent([NULL]), END);
    EndRuns(k, u, fr, m, temps, m'.(heap := h), v, ret, ip + Extent([NULL]));
    M.ReachesTrans(k.img, At(fr', m', [], ip), At(fr', m'.(heap := h), [v], ip + Extent([NULL])),
      At(fr, Left(m, m'.(heap := h)), temps + [v], ret));
  }

  lemma LibraryRuns(k: Linked, builtin: Builtin, c: seq<Value>, vs: seq<Value>, fr: Frame, m: Mem, temps: seq<Value>, ip: nat)
    requires Ready(k, m, fr) && c == [] && Placed(k, ip, [CALLBUILTIN(builtin, 0)])
    requires ApplyBuiltin(k.w, builtin, vs, m).Ok?
    ensures match ApplyBuiltin(k.w, builtin, vs, m)
      case Ok((v, m')) => M.Reaches(k.img, At(fr, m, temps + c + vs, ip), At(fr, m', temps + [v], Past(ip, [CALLBUILTIN(builtin, 0)])))
      case Err(_) => true
  {
    hide M.Reaches, At, Placed, Loaded, RT.CallBuiltin;
    var (v, m') := ApplyBuiltin(k.w, builtin, vs, m).value;
    assert temps + c + vs == temps + vs;
    NoInput(k, builtin, m, vs[0]);
    PrimRuns(k, CALLBUILTIN(builtin, 0), M.Effect([v], m'.heap, []), fr, m, temps, vs, ip);
  }

  lemma NoInput(k: Linked, builtin: Builtin, m: Mem, v: Value)
    requires RT.CallBuiltin(k.w.lib, m.heap, builtin, v).Ok?
    ensures builtin != Lread && builtin != Lwrite
  {
  }

  /** Calls are transparent: callee and arguments are replaced by the value, everything below
      and the frame registers are the caller's again. */
  lemma {:induction false} InvokeRuns(k: Linked, fuel: nat, callee: Callee, c: seq<Value>, vs: seq<Value>,
                                      fr: Frame, m: Mem, temps: seq<Value>, ip: nat)
    requires InvokeStart(k, fuel, callee, c, vs, fr, m, ip)
    ensures InvokeDone(k, fuel, callee, c, vs, fr, m, temps, ip)
    decreases fuel
  {
    hide AfterBlock, AfterStmt, CountLocals, UnitAt, M.Reaches, At, Extent, Placed, EvalBlock, M.Step, M.Exec, EvalCallee, EmitCallee, RT.Binop,
      RT.VmBinop, RT.Equal, RT.CallBuiltin, Emits, Finishes;
    var i := CallCode(callee, |vs|);
    var (v, m') := Invoke(k.w, fuel, callee, c, vs, m).value;
    if callee.Library? {
      LibraryRuns(k, callee.builtin, c, vs, fr, m, temps, ip);
    } else {
      var u := UnitOf(k.w, m.heap, callee, c, |vs|).value;
      var entry := EntryOf(k.w, m.heap, callee, c, |vs|).value;
      var ret := ip + Extent([i]);
      if callee.Static? {
        CallStep(k, fr, m, temps, c, vs, callee.entryLabel, ip);
      } else {
        assert c == [c[0]];
        CallcStep(k, fr, m, temps, c, vs, entry, ip);
      }
      UnitRuns(k, fuel, u, entry, fr, m, temps, vs, ret);
      M.ReachesTrans(k.img, At(fr, m, temps + c + vs, ip), Entering(fr, m, temps, vs, ret, entry), At(fr, m', temps + [v], ret));
    }
  }

  lemma CallStep(k: Linked, fr: Frame, m: Mem, temps: seq<Value>, c: seq<Value>, vs: seq<Value>, name: string, ip: nat)
    requires Ready(k, m, fr) && c == [] && Placed(k, ip, [CALL(Named(name), |vs|)]) && name in k.labels
    ensures M.Reaches(k.img, At(fr, m, temps + c + vs, ip),
      Entering(fr, m, temps, vs, Past(ip, [CALL(Named(name), |vs|)]), Here(k, name)))
  {
    hide UnitPlaced, Placed, M.ExecPrim, M.ExecLoad, M.ExecStore, M.ExecBegin, M.ExecCallc, M.ExecCjmp, M.ExecEnd;
    PlacedOne(k, ip, CALL(Named(name), |vs|));
    var s, ret := At(fr, m, temps + c + vs, ip), ip + 9;
    assert s.stack + [RT.Int(ret)] == Base(fr, m) + (temps + vs + [RT.Int(ret)]);
    M.ReachesByStep(k.img, s, Entering(fr, m, temps, vs, ret, k.labels[name]));
  }

  lemma CallcStep(k: Linked, fr: Frame, m: Mem, temps: seq<Value>, c: seq<Value>, vs: seq<Value>, entry: nat, ip: nat)
    requires Ready(k, m, fr) && Placed(k, ip, [CALLC(|vs|)])
    requires exists v :: c == [v] && CallableAt(m.heap, v, entry, |vs|)
    ensures M.Reaches(k.img, At(fr, m, temps + c + vs, ip), Entering(fr, m, temps, vs, Past(ip, [CALLC(|vs|)]), entry))
  {
    hide M.ExecPrim;
    PlacedOne(k, ip, CALLC(|vs|));
    var s, ret := At(fr, m, temps + c + vs, ip), ip + 5;
    var base := Base(fr, m) + temps;
    assert s.stack == base + c + vs;
    assert s.stack[|base|] == c[0] && s.stack[..|base|] == base && s.stack[|base| + 1..] == vs;
    assert base + vs + [RT.Int(ret)] == Base(fr, m) + (temps + vs + [RT.Int(ret)]);
    M.ReachesByStep(k.img, s, Entering(fr, m, temps, vs, ret, entry));
  }

  // Statements

  predicate EndsPlaced(k: Linked, ends: seq<string>) { forall l :: l in ends ==> l in k.labels }

  /** END is about to run with the result as the frame's one temporary. */
  ghost predicate EndsWith(k: Linked, fr: Frame, start: M.State, v: Value, m': Mem, ip: nat) {
    && EndsAt(k, ip)
    && M.Reaches(k.img, start, At(fr, m', [v], ip))
  }

  /** Where each way of finishing a statement leads: past its code, to the end of the
      innermost loop, or to an END; the frame's memory is the evaluator's in each case. */
  ghost predicate Flows(k: Linked, ends: seq<string>, fr: Frame, m: Mem, ip: nat, flow: Flow, m': Mem, next: nat) {
    match flow
    case Normal => Computes(k, fr, m, [], ip, m', [], next)
    case Exit => InLoop(k, ends) && Computes(k, fr, m, [], ip, m', [], Innermost(k, ends))
    case Return(v) => exists ip': nat :: EndsWith(k, fr, At(fr, m, [], ip), v, m', ip')
  }

  /** Code that comes before a statement. */
  lemma ThenFlow(k: Linked, ends: seq<string>, fr: Frame, m: Mem, ip: nat, m1: Mem, ip1: nat, flow: Flow, m': Mem, next: nat)
    requires Computes(k, fr, m, [], ip, m1, [], ip1) && Flows(k, ends, fr, m1, ip1, flow, m', next)
    ensures Flows(k, ends, fr, m, ip, flow, m', next)
  {
    hide M.Reaches, At, EvalStmt, EmitStmt, EvalBlock, EmitBlock, Invoke, UnitPlaced, UnitAt, M.Run, M.Step, M.Prim, M.Exec, EvalExpr, EmitExpr,
      EvalExprs, EmitExprs, EvalMaybe;
    NoTemps();
    match flow
    case Normal => Then(k, fr, m, [], ip, m1, [], ip1, m', [], next);
    case Exit => Then(k, fr, m, [], ip, m1, [], ip1, m', [], k.labels[ends[|ends| - 1]]);
    case Return(v) =>
      var ip': nat :| EndsWith(k, fr, At(fr, m1, [], ip1), v, m', ip');
      M.ReachesTrans(k.img, At(fr, m, [], ip), At(fr, m1, [], ip1), At(fr, m', [v], ip'));
      assert EndsWith(k, fr, At(fr, m, [], ip), v, m', ip');
  }

  lemma ThenStore(k: Linked, fr: Frame, m: Mem, temps: seq<Value>, ip: nat, m1: Mem, v: Value, ip1: nat, x: Variable)
    requires Computes(k, fr, m, temps, ip, m1, [v], ip1) && |m1.globals| == k.img.globals
    requires Placed(k, ip1, [StoreTo(x)]) && Semantics.Write(m1, x, v).Ok?
    ensures Changes(k, fr, m, temps, ip, Semantics.Write(m1, x, v), Past(ip1, [StoreTo(x)]))
  {
    hide M.Reaches, At, Placed, Extent, EvalStmt, EmitStmt, EvalBlock, EmitBlock, Invoke, UnitPlaced, UnitAt, M.Run, M.Step, M.Prim, M.Exec,
      EvalExpr, EmitExpr, EvalExprs, EmitExprs;
    var m2 := Semantics.Write(m1, x, v).value;
    StoreRuns(k, fr, m1, temps, ip1, x, v);
    assert temps + [] == temps;
    M.ReachesTrans(k.img, At(fr, m, temps, ip), At(fr, m1, temps + [v], ip1), At(fr, m2, temps, ip1 + Extent([StoreTo(x)])));
  }

  lemma ThenLoad(k: Linked, fr: Frame, m: Mem, temps: seq<Value>, ip: nat, m1: Mem, vs: seq<Value>, ip1: nat, x: Variable)
    requires Computes(k, fr, m, temps, ip, m1, vs, ip1) && |m1.globals| == k.img.globals
    requires Placed(k, ip1, [LoadOf(x)]) && Semantics.Read(m1, x).Ok?
    ensures match Semantics.Read(m1, x)
      case Ok(v) => Computes(k, fr, m, temps, ip, m1, vs + [v], Past(ip1, [LoadOf(x)]))
      case Err(_) => true
  {
    hide M.Reaches, At, Placed, Extent, EvalStmt, EmitStmt, EvalBlock, EmitBlock, Invoke, UnitPlaced, UnitAt, M.Run, M.Step, M.Prim, M.Exec,
      EvalExpr, EmitExpr, EvalExprs, EmitExprs;
    LoadRuns(k, fr, m1, temps + vs, ip1, x);
    Then(k, fr, m, temps, ip, m1, vs, ip1, m1, [Semantics.Read(m1, x).value], ip1 + Extent([LoadOf(x)]));
  }

  lemma ThenBranch(k: Linked, fr: Frame, m: Mem, ip: nat, m1: Mem, b: bool, ip1: nat, name: string)
    requires Computes(k, fr, m, [], ip, m1, [RT.Bool(b)], ip1) && |m1.globals| == k.img.globals
    requires Placed(k, ip1, [LeaveUnless(name)]) && name in k.labels
    ensures Computes(k, fr, m, [], ip, m1, [], if b then Past(ip1, [LeaveUnless(name)]) else Here(k, name))
  {
    hide M.Reaches, At, Placed, Extent, EvalStmt, EmitStmt, EvalBlock, EmitBlock, Invoke, UnitPlaced, UnitAt, M.Run, M.Step, M.Prim, M.Exec,
      EvalExpr, EmitExpr, EvalExprs, EmitExprs;
    BranchRuns(k, fr, m1, [], b, ip1, name);
    NoTemps();
    M.ReachesTrans(k.img, At(fr, m, [], ip), At(fr, m1, [] + [RT.Bool(b)], ip1),
      At(fr, m1, [], if b then ip1 + Extent([LeaveUnless(name)]) else k.labels[name]));
  }

  lemma ThenJump(k: Linked, fr: Frame, m: Mem, ip: nat, m1: Mem, ip1: nat, name: string)
    requires Computes(k, fr, m, [], ip, m1, [], ip1)
    requires Placed(k, ip1, [JMP(Named(name))]) && name in k.labels
    ensures Computes(k, fr, m, [], ip, m1, [], Here(k, name))
  {
    hide M.Reaches, At, Placed, Extent, EvalStmt, EmitStmt, EvalBlock, EmitBlock, Invoke, UnitPlaced, UnitAt, M.Run, M.Step, M.Prim, M.Exec,
      EvalExpr, EmitExpr, EvalExprs, EmitExprs;
    JumpRuns(k, fr, m1, [], ip1, name);
    NoTemps();
    M.ReachesTrans(k.img, At(fr, m, [], ip), At(fr, m1, [], ip1), At(fr, m1, [], k.labels[name]));
  }

  /** A branch that ends with a jump over the code after it. */
  lemma FlowJump(k: Linked, ends: seq<string>, fr: Frame, m: Mem, ip: nat, flow: Flow, m': Mem, ip1: nat, name: string)
    requires Flows(k, ends, fr, m, ip, flow, m', ip1)
    requires Placed(k, ip1, [JMP(Named(name))]) && name in k.labels
    ensures Flows(k, ends, fr, m, ip, flow, m', Here(k, name))
  {
    hide Computes, Placed, EvalStmt, EmitStmt, EvalBlock, EmitBlock, Invoke, UnitPlaced, UnitAt, M.Reaches, M.Run, M.Step, M.Prim, M.Exec, EvalExpr,
      EmitExpr, EvalExprs, EmitExprs;
    if flow.Normal? { ThenJump(k, fr, m, ip, m', ip1, name); }
  }

  ghost predicate Emits(k: Linked, m: Mem, fr: Frame, env: GenEnv, r: Emitted, ip: nat) {
    && Ready(k, m, fr) && EndsPlaced(k, env.ends)
    && match r case Ok((env', code)) => env'.strings <= k.img.strings && Placed(k, ip, code) case Err(_) => false
  }

  ghost predicate Finishes(k: Linked, env: GenEnv, r: Emitted, fr: Frame, m: Mem, ip: nat, eval: Result<(Flow, Mem)>) {
    match (r, eval)
    case (Ok((_, code)), Ok((flow, m'))) => Flows(k, env.ends, fr, m, ip, flow, m', Past(ip, code))
    case _ => true
  }

  ghost predicate StmtStart(k: Linked, fuel: nat, cfg: Config, env: GenEnv, s: Stmt, fr: Frame, m: Mem, ip: nat) {
    Emits(k, m, fr, env, EmitStmt(cfg, env, s), ip) && EvalStmt(k.w, fuel, cfg, env.scope, s, m).Ok?
  }

  ghost predicate StmtDone(k: Linked, fuel: nat, cfg: Config, env: GenEnv, s: Stmt, fr: Frame, m: Mem, ip: nat) {
    Finishes(k, env, EmitStmt(cfg, env, s), fr, m, ip, EvalStmt(k.w, fuel, cfg, env.scope, s, m))
  }

  ghost predicate BlockStart(k: Linked, fuel: nat, cfg: Config, env: GenEnv, stmts: seq<Stmt>, fr: Frame, m: Mem, ip: nat) {
    Emits(k, m, fr, env, EmitBlock(cfg, env, stmts), ip) && EvalBlock(k.w, fuel, cfg, env.scope, stmts, m).Ok?
  }

  ghost predicate BlockDone(k: Linked, fuel: nat, cfg: Config, env: GenEnv, stmts: seq<Stmt>, fr: Frame, m: Mem, ip: nat) {
    Finishes(k, env, EmitBlock(cfg, env, stmts), fr, m, ip, EvalBlock(k.w, fuel, cfg, env.scope, stmts, m))
  }

  lemma {:induction false} BlockRuns(k: Linked, fuel: nat, cfg: Config, env: GenEnv, stmts: seq<Stmt>, fr: Frame, m: Mem, ip: nat)
    requires BlockStart(k, fuel, cfg, env, stmts, fr, m, ip)
    ensures BlockDone(k, fuel, cfg, env, stmts, fr, m, ip)
    decreases fuel, stmts, 6
  {
    hide Placed, Extent, EvalStmt, EmitStmt, AfterStmt, UnitPlaced, M.Reaches, M.Run;
    if stmts == [] {
      Nothing(k, fr, m, [], ip);
    } else {
      var (env1, first) := EmitStmt(cfg, env, stmts[0]).value;
      var rest := EmitBlock(cfg, env1, stmts[1..]).value.1;
      var (flow, m1) := EvalStmt(k.w, fuel, cfg, env.scope, stmts[0], m).value;
      PlacedSplit(k, ip, first, rest);
      StmtRuns(k, fuel, cfg, env, stmts[0], fr, m, ip);
      if flow.Normal? {
        var (flow', m') := EvalBlock(k.w, fuel, cfg, env1.scope, stmts[1..], m1).value;
        BlockRuns(k, fuel, cfg, env1, stmts[1..], fr, m1, ip + Extent(first));
        ThenFlow(k, env.ends, fr, m, ip, m1, ip + Extent(first), flow', m', ip + Extent(first) + Extent(rest));
      }
    }
  }

  lemma {:induction false} StmtRuns(k: Linked, fuel: nat, cfg: Config, env: GenEnv, s: Stmt, fr: Frame, m: Mem, ip: nat)
    requires StmtStart(k, fuel, cfg, env, s, fr, m, ip)
    ensures StmtDone(k, fuel, cfg, env, s, fr, m, ip)
    decreases fuel, s, 6
  {
    hide StmtStart, StmtDone, Emits, Finishes, EmitStmt, EvalStmt, Flows, Computes, Ready;
    if s.Declaration? {
      DeclarationRuns(k, fuel, cfg, env, s, fr, m, ip);
    } else if s.Assignment? {
      AssignmentRuns(k, fuel, cfg, env, s, fr, m, ip);
    } else if s.ProcedureCall? {
      ProcedureCallRuns(k, fuel, cfg, env, s, fr, m, ip);
    } else if s.Conditional? {
      ConditionalRuns(k, fuel, cfg, env, s, fr, m, ip);
    } else if s.ValueMatch? {
      MatchRuns(k, fuel, cfg, env, s, fr, m, ip);
    } else if s.Loop? {
      if s.header.While? {
        WhileRuns(k, fuel, cfg, env, s, fr, m, ip);
      } else if s.header.Repeat? {
        RepeatRuns(k, fuel, cfg, env, s, fr, m, ip);
      } else {
        ForRuns(k, fuel, cfg, env, s, fr, m, ip);
      }
    } else {
      SimpleRuns(k, fuel, cfg, env, s, fr, m, ip);
    }
  }

  /** Output, exit and return; the other statements have no meaning to the evaluator. */
  lemma {:induction false} SimpleRuns(k: Linked, fuel: nat, cfg: Config, env: GenEnv, s: Stmt, fr: Frame, m: Mem, ip: nat)
    requires !s.Declaration? && !s.Assignment? && !s.ProcedureCall? && !s.Conditional? && !s.ValueMatch? && !s.Loop?
    requires StmtStart(k, fuel, cfg, env, s, fr, m, ip)
    ensures StmtDone(k, fuel, cfg, env, s, fr, m, ip)
    decreases fuel, s, 5
  {
    hide EmitStmt, EvalBlock, EmitBlock, Invoke, UnitPlaced, M.Exec, EvalExpr, EmitExpr, EvalExprs, EmitExprs, AfterStmt, AfterBlock, Flows,
      Computes, At, EvalLoop, EvalCases, EmitCases, Ready, Emits, Finishes, LoopCode, CallCode, Scoping.BindAll, StringTable.Intern,
      StringTable.Grown, Epilogue;
    if s.Output? {
      OutputRuns(k, fuel, cfg, env, s, fr, m, ip);
    } else if s.ExitLoop? {
      ExitRuns(k, fuel, cfg, env, s, fr, m, ip);
    } else if s.ReturnFromFunction? {
      ReturnRuns(k, fuel, cfg, env, s, fr, m, ip);
    }
  }

  lemma {:induction false} DeclarationRuns(k: Linked, fuel: nat, cfg: Config, env: GenEnv, s: Stmt, fr: Frame, m: Mem, ip: nat)
    requires s.Declaration? && StmtStart(k, fuel, cfg, env, s, fr, m, ip)
    ensures StmtDone(k, fuel, cfg, env, s, fr, m, ip)
    decreases fuel, s, 5
  {
    hide Computes, Loaded, Placed, Extent, EmitExpr, EvalExpr, Semantics.Write, EmitBlock, Invoke, UnitPlaced, UnitAt, M.Reaches, EmitCallee,
      RT.Binop, RT.VmBinop, RT.Equal;
    var (tab, code) := EmitExpr(cfg, env.scope, env.strings, s.value).value;
    var (v, m1) := EvalExpr(k.w, fuel, cfg, env.scope, s.value, m).value;
    PlacedSplit(k, ip, code, [StoreTo(NextSlot(env.scope))]);
    ExprRuns(k, fuel, cfg, env.scope, env.strings, s.value, fr, m, [], ip);
    ThenStore(k, fr, m, [], ip, m1, v, ip + Extent(code), NextSlot(env.scope));
  }

  lemma Unpacked(n: nat, flag: bool)
    requires n < NEWLINE_FLAG
    ensures M.WriteCount(PackCount(n, flag)) == n && M.WriteNewline(PackCount(n, flag)) == flag
  {
  }

  lemma {:induction false} OutputRuns(k: Linked, fuel: nat, cfg: Config, env: GenEnv, s: Stmt, fr: Frame, m: Mem, ip: nat)
    requires s.Output? && StmtStart(k, fuel, cfg, env, s, fr, m, ip)
    ensures StmtDone(k, fuel, cfg, env, s, fr, m, ip)
    decreases fuel, s, 4
  {
    hide StringTable.Terminated, EmitExpr, EvalExpr, EmitBlock, EvalBlock, Invoke, Computes, Loaded, Placed, Extent, EmitExprs, EvalExprs, UnitAt,
      M.Reaches, M.Performs, M.Pops, RT.Write, PackCount, M.WriteCount, M.WriteNewline, RT.Binop, RT.Equal;
    var (tab, code) := EmitExprs(cfg, env.scope, env.strings, s.values).value;
    var (vs, m1) := EvalExprs(k.w, fuel, cfg, env.scope, s.values, m).value;
    var i := CALLBUILTIN(Lwrite, PackCount(|s.values|, !s.noNewline));
    var events := RT.Write(k.w.lib, m1.heap, vs, !s.noNewline).value;
    Unpacked(|vs|, !s.noNewline);
    PlacedSplit(k, ip, code, [i]);
    ExprsRun(k, fuel, cfg, env.scope, env.strings, s.values, fr, m, [], ip);
    M.WritePerforms(k.img, m1.heap, vs, i.n, events);
    ThenOp(k, fr, m, [], ip, m1, vs, ip + Extent(code), i, M.Effect([], m1.heap, events));
    assert m1.log + [] == m1.log;
  }

  lemma {:induction false} ExitRuns(k: Linked, fuel: nat, cfg: Config, env: GenEnv, s: Stmt, fr: Frame, m: Mem, ip: nat)
    requires s.ExitLoop? && StmtStart(k, fuel, cfg, env, s, fr, m, ip)
    ensures StmtDone(k, fuel, cfg, env, s, fr, m, ip)
  {
    hide Computes, Loaded, Placed, Extent, EvalBlock, EmitBlock, Invoke, UnitPlaced, UnitAt, M.Exec, EvalExpr, EmitExpr, EvalExprs, EmitExprs,
      EvalMaybe, EmitMaybe, EvalCallee, EmitCallee, RT.Binop, RT.VmBinop, RT.Equal, Ready;
    var end := env.ends[|env.ends| - 1];
    assert end in env.ends;
    Nothing(k, fr, m, [], ip);
    ExtentNil();
    ThenJump(k, fr, m, ip, m, ip, end);
  }

  lemma {:induction false} ReturnRuns(k: Linked, fuel: nat, cfg: Config, env: GenEnv, s: Stmt, fr: Frame, m: Mem, ip: nat)
    requires s.ReturnFromFunction? && StmtStart(k, fuel, cfg, env, s, fr, m, ip)
    ensures StmtDone(k, fuel, cfg, env, s, fr, m, ip)
    decreases fuel, s, 4
  {
    hide M.Reaches, At, Loaded, Placed, Extent, EmitExpr, EvalExpr, EmitBlock, Invoke, EvalMaybe, EmitMaybe, EvalCallee, EmitCallee, RT.Binop,
      RT.VmBinop, RT.Equal, RT.CallBuiltin, Ready;
    var (tab, code) := EmitExpr(cfg, env.scope, env.strings, s.result).value;
    var (v, m1) := EvalExpr(k.w, fuel, cfg, env.scope, s.result, m).value;
    PlacedSplit(k, ip, code, [END]);
    PlacedOne(k, ip + Extent(code), END);
    ExprRuns(k, fuel, cfg, env.scope, env.strings, s.result, fr, m, [], ip);
    assert [] + [v] == [v];
    assert EndsWith(k, fr, At(fr, m, [], ip), v, m1, ip + Extent(code));
  }

  lemma {:induction false} ProcedureCallRuns(k: Linked, fuel: nat, cfg: Config, env: GenEnv, s: Stmt, fr: Frame, m: Mem, ip: nat)
    requires s.ProcedureCall? && StmtStart(k, fuel, cfg, env, s, fr, m, ip)
    ensures StmtDone(k, fuel, cfg, env, s, fr, m, ip)
    decreases fuel, s, 5
  {
    hide EmitExpr, EvalExpr, EmitBlock, EvalBlock, Computes, Loaded, Placed, Extent, Invoke, EmitCallee, EvalCallee, CallCode, CalleeOf, InvokeDone,
      EmitExprs, EvalExprs, UnitPlaced, UnitAt, M.Reaches, M.Performs, EvalMaybe, EmitMaybe, RT.Binop, RT.Equal, RT.NewText, M.Prim, M.Pops;
    var callee, n := CalleeOf(cfg, s.procedure), |s.arguments|;
    var (tab1, a) := EmitCallee(cfg, env.scope, env.strings, s.procedure).value;
    var b := EmitExprs(cfg, env.scope, tab1, s.arguments).value.1;
    var (c, m1) := EvalCallee(k.w, fuel, cfg, env.scope, s.procedure, m).value;
    var (vs, m2) := EvalExprs(k.w, fuel, cfg, env.scope, s.arguments, m1).value;
    PlacedSplit(k, ip, a + b + [CallCode(callee, n)], [DROP]);
    PlacedSplit(k, ip, a + b, [CallCode(callee, n)]);
    PlacedSplit(k, ip, a, b);
    CalleeRuns(k, fuel, cfg, env.scope, env.strings, s.procedure, fr, m, [], ip);
    ExprsRun(k, fuel, cfg, env.scope, tab1, s.arguments, fr, m1, [] + c, ip + Extent(a));
    InvokeRuns(k, fuel - 1, callee, c, vs, fr, m2, [], ip + Extent(a + b));
    ThenCall(k, fuel - 1, callee, fr, m, [], ip, m1, c, ip + Extent(a), m2, vs, ip + Extent(a + b));
    var (v, m3) := Invoke(k.w, fuel - 1, callee, c, vs, m2).value;
    M.DropPerforms(k.img, m3.heap, v);
    ThenOp(k, fr, m, [], ip, m3, [v], ip + Extent(a + b + [CallCode(callee, n)]), DROP, M.Effect([], m3.heap, []));
  }

  // Assignment

  ghost predicate AssignStart(k: Linked, fuel: nat, cfg: Config, sc: Scope, tab: Strings, target: LValue, v: Value, fr: Frame, m: Mem, ip: nat) {
    && Ready(k, m, fr)
    && Stands(k, ip, EmitAssign(cfg, sc, tab, target))
    && EvalAssign(k.w, fuel, cfg, sc, target, v, m).Ok?
  }

  /** The assigned value on top is consumed by the store code. */
  ghost predicate AssignDone(k: Linked, fuel: nat, cfg: Config, sc: Scope, tab: Strings, target: LValue, v: Value, fr: Frame, m: Mem, ip: nat) {
    match (EmitAssign(cfg, sc, tab, target), EvalAssign(k.w, fuel, cfg, sc, target, v, m))
    case (Ok((_, code)), Ok(m')) =>
      forall m0: Mem, ip0: nat :: Computes(k, fr, m0, [], ip0, m, [v], ip) ==> Computes(k, fr, m0, [], ip0, m', [], Past(ip, code))
    case _ => true
  }

  lemma {:induction false} AssignmentRuns(k: Linked, fuel: nat, cfg: Config, env: GenEnv, s: Stmt, fr: Frame, m: Mem, ip: nat)
    requires s.Assignment? && StmtStart(k, fuel, cfg, env, s, fr, m, ip)
    ensures StmtDone(k, fuel, cfg, env, s, fr, m, ip)
    decreases fuel, s, 5
  {
    hide Computes, Loaded, Placed, Extent, EmitExpr, EvalExpr, EmitAssign, EvalAssign, EmitBlock, Invoke, UnitPlaced, UnitAt, M.Reaches, EmitCallee,
      RT.Binop, RT.VmBinop, RT.Equal;
    var (tab, code) := EmitExpr(cfg, env.scope, env.strings, s.value).value;
    var store := EmitAssign(cfg, env.scope, tab, s.target).value.1;
    var (v, m1) := EvalExpr(k.w, fuel, cfg, env.scope, s.value, m).value;
    PlacedSplit(k, ip, code, store);
    ExprRuns(k, fuel, cfg, env.scope, env.strings, s.value, fr, m, [], ip);
    match s.target
    case NameTarget(_) => NameTargetRuns(k, fuel, cfg, env.scope, tab, s.target, v, fr, m1, ip + Extent(code));
    case SubscriptTarget(_, _) => SubscriptTargetRuns(k, fuel, cfg, env.scope, tab, s.target, v, fr, m1, ip + Extent(code));
    case SliceTarget(_, _, _) => SliceTargetRuns(k, fuel, cfg, env.scope, tab, s.target, v, fr, m1, ip + Extent(code));
    case FieldTarget(_, _) => FieldTargetRuns(k, fuel, cfg, env.scope, tab, s.target, v, fr, m1, ip + Extent(code));
  }

  lemma NameTargetRuns(k: Linked, fuel: nat, cfg: Config, sc: Scope, tab: Strings, target: LValue, v: Value, fr: Frame, m: Mem, ip: nat)
    requires target.NameTarget? && AssignStart(k, fuel, cfg, sc, tab, target, v, fr, m, ip)
    ensures AssignDone(k, fuel, cfg, sc, tab, target, v, fr, m, ip)
  {
    hide Computes, Loaded, Placed, Extent, M.Run, M.Step, M.Prim, M.Exec, EvalExpr, EmitExpr, EvalExprs, EmitExprs, EvalMaybe, EmitMaybe, EvalCallee,
      EmitCallee, RT.Binop, RT.VmBinop;
    forall m0: Mem, ip0: nat | Computes(k, fr, m0, [], ip0, m, [v], ip)
      ensures Computes(k, fr, m0, [], ip0, EvalAssign(k.w, fuel, cfg, sc, target, v, m).value, [],
        ip + Extent(EmitAssign(cfg, sc, tab, target).value.1))
    {
      ThenStore(k, fr, m0, [], ip0, m, v, ip, FindVariable(sc, target.name).value);
    }
  }

  lemma {:induction false} SubscriptTargetRuns(k: Linked, fuel: nat, cfg: Config, sc: Scope, tab: Strings, target: LValue, v: Value, fr: Frame, m: Mem, ip: nat)
    requires target.SubscriptTarget? && AssignStart(k, fuel, cfg, sc, tab, target, v, fr, m, ip)
    ensures AssignDone(k, fuel, cfg, sc, tab, target, v, fr, m, ip)
    decreases fuel, target, 4
  {
    hide Computes, Loaded, Placed, Extent, EmitExpr, EvalExpr, RT.SetItem, Semantics.Read;
    var x := FindVariable(sc, target.collection.name).value;
    var code := EmitExpr(cfg, sc, tab, target.index).value.1;
    var (i, m1) := EvalExpr(k.w, fuel, cfg, sc, target.index, m).value;
    var c, m2 := Semantics.Read(m1, x).value, EvalAssign(k.w, fuel, cfg, sc, target, v, m).value;
    assert [LoadOf(x), STA, DROP] == [LoadOf(x)] + ([STA] + [DROP]);
    PlacedSplit(k, ip, code, [LoadOf(x), STA, DROP]);
    PlacedSplit(k, ip + Extent(code), [LoadOf(x)], [STA] + [DROP]);
    PlacedSplit(k, ip + Extent(code) + Extent([LoadOf(x)]), [STA], [DROP]);
    ExprRuns(k, fuel, cfg, sc, tab, target.index, fr, m, [v], ip);
    forall m0: Mem, ip0: nat | Computes(k, fr, m0, [], ip0, m, [v], ip)
      ensures Computes(k, fr, m0, [], ip0, m2, [], ip + Extent(EmitAssign(cfg, sc, tab, target).value.1))
    {
      NoTemps();
      Then(k, fr, m0, [], ip0, m, [v], ip, m1, [i], ip + Extent(code));
      ThenLoad(k, fr, m0, [], ip0, m1, [v] + [i], ip + Extent(code), x);
      var at := ip + Extent(code) + Extent([LoadOf(x)]);
      assert [v] + [i] + [c] == [v, i, c];
      M.StoreItemPerforms(k.img, m1.heap, v, i, c, m2.heap);
      M.DropPerforms(k.img, m2.heap, c);
      ThenOp(k, fr, m0, [], ip0, m1, [v, i, c], at, STA, M.Effect([c], m2.heap, []));
      ThenOp(k, fr, m0, [], ip0, m2, [c], at + Extent([STA]), DROP, M.Effect([], m2.heap, []));
    }
  }

  lemma {:induction false} FieldTargetRuns(k: Linked, fuel: nat, cfg: Config, sc: Scope, tab: Strings, target: LValue, v: Value, fr: Frame, m: Mem, ip: nat)
    requires target.FieldTarget? && AssignStart(k, fuel, cfg, sc, tab, target, v, fr, m, ip)
    ensures AssignDone(k, fuel, cfg, sc, tab, target, v, fr, m, ip)
    decreases fuel, target, 4
  {
    hide Computes, Loaded, Placed, Extent, EmitExpr, EvalExpr, RT.SetField, EvalStmt, EmitStmt, EvalBlock, EmitBlock, Invoke, UnitPlaced, UnitAt,
      EvalMaybe, EmitMaybe, EvalCallee, EmitCallee, RT.Binop, RT.VmBinop, RT.Equal, RT.CallBuiltin, AfterStmt, AfterBlock, Flows, At, EvalLoop,
      EvalCases, EmitCases, M.Reaches, Emits;
    var code, i := EmitExpr(cfg, sc, tab, target.left).value.1, SETFIELD(cfg.fieldIndices[target.field]);
    var (l, m1) := EvalExpr(k.w, fuel, cfg, sc, target.left, m).value;
    var m2 := EvalAssign(k.w, fuel, cfg, sc, target, v, m).value;
    PlacedSplit(k, ip, code, [i]);
    ExprRuns(k, fuel, cfg, sc, tab, target.left, fr, m, [v], ip);
    forall m0: Mem, ip0: nat | Computes(k, fr, m0, [], ip0, m, [v], ip)
      ensures Computes(k, fr, m0, [], ip0, m2, [], ip + Extent(EmitAssign(cfg, sc, tab, target).value.1))
    {
      NoTemps();
      Then(k, fr, m0, [], ip0, m, [v], ip, m1, [l], ip + Extent(code));
      assert [v] + [l] == [v, l];
      ThenOp(k, fr, m0, [], ip0, m1, [v, l], ip + Extent(code), i, M.Effect([], m2.heap, []));
    }
  }

  lemma {:induction false} SliceTargetRuns(k: Linked, fuel: nat, cfg: Config, sc: Scope, tab: Strings, target: LValue, v: Value, fr: Frame, m: Mem, ip: nat)
    requires target.SliceTarget? && AssignStart(k, fuel, cfg, sc, tab, target, v, fr, m, ip)
    ensures AssignDone(k, fuel, cfg, sc, tab, target, v, fr, m, ip)
    decreases fuel, target, 4
  {
    hide EvalStmt, Computes, Loaded, Placed, Extent, EmitExpr, EvalExpr, EmitMaybe, EvalMaybe;
    var x := FindVariable(sc, target.collection.name).value;
    var (tab1, a) := EmitMaybe(cfg, sc, tab, target.from).value;
    var b := EmitMaybe(cfg, sc, tab1, target.to).value.1;
    var load, cut := [LoadOf(x)], [SLICE(BoundsMask(target.from, target.to))];
    var c := Semantics.Read(m, x).value;
    var (from, m1) := EvalMaybe(k.w, fuel, cfg, sc, target.from, m).value;
    var (to, m2) := EvalMaybe(k.w, fuel, cfg, sc, target.to, m1).value;
    var slice := RT.SliceOf(m2.heap, c, from, to).value;
    var m3 := EvalAssign(k.w, fuel, cfg, sc, target, v, m).value;
    assert EmitAssign(cfg, sc, tab, target).value.1 == load + a + b + (cut + [STS]);
    PlacedSplit(k, ip, load + a + b, cut + [STS]);
    PlacedSplit(k, ip + Extent(load + a + b), cut, [STS]);
    PlacedSplit(k, ip, load + a, b);
    PlacedSplit(k, ip, load, a);
    MaybeRuns(k, fuel, cfg, sc, tab, target.from, fr, m, [v] + [c], ip + Extent(load));
    MaybeRuns(k, fuel, cfg, sc, tab1, target.to, fr, m1, [v] + [c] + Opt(from), ip + Extent(load + a));
    Nothing(k, fr, m, [v], ip);
    ExtentNil();
    ThenLoad(k, fr, m, [v], ip, m, [], ip, x);
    NoTemps();
    SliceThenOp(k, fr, m, [v], ip, target.from, target.to, m, c, ip + Extent(load), m1, from, ip + Extent(load + a),
      m2, to, ip + Extent(load + a + b));
    var m2', at := m2.(heap := slice.1), ip + Extent(load + a + b) + Extent(cut);
    forall m0: Mem, ip0: nat | Computes(k, fr, m0, [], ip0, m, [v], ip)
      ensures Computes(k, fr, m0, [], ip0, m3, [], ip + Extent(EmitAssign(cfg, sc, tab, target).value.1))
    {
      Then(k, fr, m0, [], ip0, m, [v], ip, m2', [slice.0], at);
      assert [v] + [slice.0] == [v, slice.0];
      M.StoreSlicePerforms(k.img, m2'.heap, v, slice.0, m3.heap);
      ThenOp(k, fr, m0, [], ip0, m2', [v, slice.0], at, STS, M.Effect([], m3.heap, []));
    }
  }

  // Compound statements

  /** What emitting and evaluating one come to. */
  lemma StmtParts(k: Linked, fuel: nat, cfg: Config, env: GenEnv, s: Stmt, m: Mem)
    ensures s.Conditional? ==> EmitStmt(cfg, env, s) == EmitConditional(cfg, env, s)
    ensures s.Conditional? ==> EvalStmt(k.w, fuel, cfg, env.scope, s, m) == EvalConditional(k.w, fuel, cfg, env.scope, s, m)
    ensures s.ValueMatch? ==> EmitStmt(cfg, env, s) == EmitMatch(cfg, env, s)
    ensures s.ValueMatch? ==> EvalStmt(k.w, fuel, cfg, env.scope, s, m) == EvalMatch(k.w, fuel, cfg, env.scope, s, m)
    ensures IsWhile(s) ==> EmitStmt(cfg, env, s) == EmitWhile(cfg, env, s)
    ensures IsWhile(s) ==> EvalStmt(k.w, fuel, cfg, env.scope, s, m) == EvalWhile(k.w, fuel, cfg, env.scope, s, m)
    ensures IsRepeat(s) ==> EmitStmt(cfg, env, s) == EmitRepeat(cfg, env, s)
    ensures IsFor(s) ==> EmitStmt(cfg, env, s) == EmitFor(cfg, env, s)
    ensures IsRepeat(s) || IsFor(s) ==> EvalStmt(k.w, fuel, cfg, env.scope, s, m) == EvalLoop(k.w, fuel, cfg, env.scope, s, m)
  {
    hide EmitConditional, EvalConditional, EmitMatch, EvalMatch, EmitWhile, EvalWhile, EmitRepeat, EmitFor, Invoke, UnitPlaced, EvalExpr, EmitExpr,
      EvalExprs, EmitExprs, EvalMaybe, EmitMaybe, EvalCallee, EmitCallee, RT.Binop, RT.VmBinop, RT.Equal, RT.CallBuiltin, Loaded, Placed;
    if s.Loop? { assert EvalStmt(k.w, fuel, cfg, env.scope, s, m) == EvalLoop(k.w, fuel, cfg, env.scope, s, m); }
  }

  // Conditionals

  lemma {:induction false} ElseRuns(k: Linked, fuel: nat, cfg: Config, env: GenEnv, elseBody: MaybeBody, fr: Frame, m: Mem, ip: nat)
    requires Emits(k, m, fr, env, EmitElse(cfg, env, elseBody), ip) && EvalElse(k.w, fuel, cfg, env.scope, elseBody, m).Ok?
    ensures Finishes(k, env, EmitElse(cfg, env, elseBody), fr, m, ip, EvalElse(k.w, fuel, cfg, env.scope, elseBody, m))
    decreases fuel, elseBody, 6
  {
    hide Computes, Loaded, Placed, Extent, EmitBlock, EvalBlock, EvalStmt, EmitStmt, Invoke, UnitPlaced, UnitAt, M.Reaches, M.Run, M.Step, M.Prim,
      M.Exec, EvalExpr, EmitExpr, EvalExprs, EmitExprs, RT.CallBuiltin, AfterStmt, AfterBlock;
    if elseBody.NoBody? {
      Nothing(k, fr, m, [], ip);
    } else {
      BlockRuns(k, fuel, cfg, env, elseBody.stmts, fr, m, ip);
    }
  }

  /** Offsets of the pieces of a conditional. */
  lemma ConditionalPlaces(k: Linked, ip: nat, cond: Code, begin: string, target: string, thenCode: Code, tail: Code)
    requires Placed(k, ip, ConditionalCode(cond, begin, target, thenCode, tail))
    ensures Placed(k, ip, cond) && Placed(k, ip + Extent(cond), [LeaveUnless(target)])
    ensures var at := ip + Extent(cond) + Extent([LeaveUnless(target)]);
      && Placed(k, at, thenCode) && Placed(k, at + Extent(thenCode), tail)
      && at + Extent(thenCode) + Extent(tail) == ip + Extent(ConditionalCode(cond, begin, target, thenCode, tail))
  {
    hide Placed, Extent;
    var mid := [LABEL(begin)] + [LeaveUnless(target)];
    assert ConditionalCode(cond, begin, target, thenCode, tail) == cond + mid + thenCode + tail;
    PlacedSplit(k, ip, cond + mid + thenCode, tail);
    PlacedSplit(k, ip, cond + mid, thenCode);
    PlacedSplit(k, ip, cond, mid);
    PlacedSplit(k, ip + Extent(cond), [LABEL(begin)], [LeaveUnless(target)]);
    PlacedLabel(k, ip + Extent(cond), begin);
  }

  lemma ElseTailPlaces(k: Linked, ip: nat, end: string, elseLabel: string, elseCode: Code)
    requires Placed(k, ip, ElseTail(end, elseLabel, elseCode))
    ensures Placed(k, ip, [JMP(Named(end))]) && elseLabel in k.labels && end in k.labels
    ensures Placed(k, k.labels[elseLabel], elseCode)
    ensures k.labels[end] == ip + Extent(ElseTail(end, elseLabel, elseCode))
    ensures k.labels[end] == k.labels[elseLabel] + Extent(elseCode)
  {
    hide Placed, Extent;
    var head := [JMP(Named(end))] + [LABEL(elseLabel)];
    assert ElseTail(end, elseLabel, elseCode) == head + elseCode + [LABEL(end)];
    PlacedSplit(k, ip, head + elseCode, [LABEL(end)]);
    PlacedSplit(k, ip, head, elseCode);
    PlacedSplit(k, ip, [JMP(Named(end))], [LABEL(elseLabel)]);
    PlacedLabel(k, ip + Extent([JMP(Named(end))]), elseLabel);
    PlacedLabel(k, ip + Extent(head + elseCode), end);
  }

  lemma {:induction false} ConditionalRuns(k: Linked, fuel: nat, cfg: Config, env: GenEnv, s: Stmt, fr: Frame, m: Mem, ip: nat)
    requires s.Conditional? && StmtStart(k, fuel, cfg, env, s, fr, m, ip)
    ensures StmtDone(k, fuel, cfg, env, s, fr, m, ip)
    decreases fuel, s, 5
  {
    hide EmitStmt, EvalStmt, Computes, Loaded, Placed, Extent, EmitExpr, EvalExpr, EmitBlock, EvalBlock, EmitElse, ElseTail, EvalRepeat, EvalWhile,
      EvalFor, EmitWhile, EmitFor, EmitRepeat, EmitMatch, EvalMatch, EvalLoop, Flows, AfterBlock, AfterStmt, Invoke, UnitPlaced, UnitAt,
      M.Reaches, EmitMaybe, EvalMaybe, RT.Binop, RT.Equal;
    StmtParts(k, fuel, cfg, env, s, m);
    var n := env.labels;
    var begin, end, other := Fresh("if_begin", n), Fresh("if_skip", n + 1), Fresh("else", n + 2);
    var (tab, cond) := EmitExpr(cfg, env.scope, env.strings, s.condition).value;
    var env1 := env.(strings := tab, labels := if s.elseBody.Body? then n + 3 else n + 2);
    var (env2, thenCode) := EmitBlock(cfg, env1, s.thenBody).value;
    var elseCode := EmitElse(cfg, env2, s.elseBody).value.1;
    var target := if s.elseBody.Body? then other else end;
    var tail := if s.elseBody.Body? then ElseTail(end, other, elseCode) else [LABEL(end)];
    var (v, m1) := EvalExpr(k.w, fuel, cfg, env.scope, s.condition, m).value;
    ConditionalPlaces(k, ip, cond, begin, target, thenCode, tail);
    var at := ip + Extent(cond) + Extent([LeaveUnless(target)]);
    if s.elseBody.Body? {
      ElseTailPlaces(k, at + Extent(thenCode), end, other, elseCode);
    } else {
      PlacedLabel(k, at + Extent(thenCode), end);
    }
    ExprRuns(k, fuel, cfg, env.scope, env.strings, s.condition, fr, m, [], ip);
    ThenBranch(k, fr, m, ip, m1, v.b, ip + Extent(cond), target);
    var (flow, m') := EvalStmt(k.w, fuel, cfg, env.scope, s, m).value;
    if v.b {
      BlockRuns(k, fuel, cfg, env1, s.thenBody, fr, m1, at);
      if s.elseBody.Body? {
        FlowJump(k, env.ends, fr, m1, at, flow, m', at + Extent(thenCode), end);
      }
      ThenFlow(k, env.ends, fr, m, ip, m1, at, flow, m', k.labels[end]);
    } else if s.elseBody.Body? {
      ElseRuns(k, fuel, cfg, env2, s.elseBody, fr, m1, k.labels[other]);
      ThenFlow(k, env.ends, fr, m, ip, m1, k.labels[other], flow, m', k.labels[end]);
    } else {
      NoElse(k, fuel, cfg, env2, s.elseBody, fr, m, ip, m1, k.labels[end]);
    }
  }

  lemma NoElse(k: Linked, fuel: nat, cfg: Config, env: GenEnv, elseBody: MaybeBody, fr: Frame, m: Mem, ip: nat, m1: Mem, next: nat)
    requires elseBody.NoBody? && Computes(k, fr, m, [], ip, m1, [], next)
    ensures EvalElse(k.w, fuel, cfg, env.scope, elseBody, m1) == Ok((Normal, m1))
    ensures Flows(k, env.ends, fr, m, ip, Normal, m1, next)
  {
    hide Computes, EvalStmt, EmitStmt, EvalBlock, EmitBlock, Invoke, UnitPlaced, UnitAt, M.Reaches, M.Run, M.Step, M.Prim, M.Exec, EvalExpr,
      EmitExpr, EvalExprs, EmitExprs, EvalMaybe;
  }

  // Loops

  lemma LoopPlaces(k: Linked, ip: nat, loop: string, guard: Code, body: Code, advance: Code, end: string)
    requires Placed(k, ip, LoopCode(loop, guard, body, advance, end))
    ensures loop in k.labels && k.labels[loop] == ip && Placed(k, ip, guard)
    ensures Placed(k, ip + Extent(guard), body) && Placed(k, ip + Extent(guard) + Extent(body), advance)
    ensures Placed(k, ip + Extent(guard) + Extent(body) + Extent(advance), [JMP(Named(loop))])
    ensures end in k.labels && k.labels[end] == ip + Extent(LoopCode(loop, guard, body, advance, end))
  {
    hide Placed, Extent;
    var front, back := [LABEL(loop)] + guard + body + advance, [JMP(Named(loop))] + [LABEL(end)];
    assert LoopCode(loop, guard, body, advance, end) == front + back;
    PlacedSplit(k, ip, front, back);
    PlacedSplit(k, ip + Extent(front), [JMP(Named(loop))], [LABEL(end)]);
    PlacedSplit(k, ip, [LABEL(loop)] + guard + body, advance);
    PlacedSplit(k, ip, [LABEL(loop)] + guard, body);
    PlacedSplit(k, ip, [LABEL(loop)], guard);
    PlacedLabel(k, ip, loop);
    PlacedLabel(k, ip + Extent(front) + Extent([JMP(Named(loop))]), end);
  }

  /** Leaving the body by `exit` ends the loop, a return passes through it. */
  lemma BodyLeaves(k: Linked, ends: seq<string>, end: string, fr: Frame, m: Mem, ip: nat, flow: Flow, m': Mem, next: nat)
    requires Flows(k, ends + [end], fr, m, ip, flow, m', next) && end in k.labels && !flow.Normal?
    ensures Flows(k, ends, fr, m, ip, if flow.Exit? then Normal else flow, m', Here(k, end))
  {
    hide Computes, M.Reaches, At;
    assert (ends + [end])[|ends + [end]| - 1] == end;
  }

  lemma {:induction false} WhileRuns(k: Linked, fuel: nat, cfg: Config, env: GenEnv, s: Stmt, fr: Frame, m: Mem, ip: nat)
    requires IsWhile(s) && StmtStart(k, fuel, cfg, env, s, fr, m, ip)
    ensures StmtDone(k, fuel, cfg, env, s, fr, m, ip)
    decreases fuel, s, 5
  {
    hide EmitStmt, EvalStmt, EvalLoop, AfterBlock, AfterStmt, Computes, Loaded, Placed, Extent, EmitExpr, EvalExpr, EmitBlock, EvalBlock, LoopCode,
      Flows, Invoke, UnitPlaced, UnitAt, RT.Equal, RT.CallBuiltin, At, EvalCases, EmitCases;
    StmtParts(k, fuel, cfg, env, s, m);
    var loop, end := Fresh("while_loop", env.labels), Fresh("while_end", env.labels + 1);
    var (tab, cond) := EmitExpr(cfg, env.scope, env.strings, s.header.condition).value;
    var env1 := env.(strings := tab, labels := env.labels + 2, ends := env.ends + [end]);
    var body := EmitBlock(cfg, env1, s.body).value.1;
    var (v, m1) := EvalExpr(k.w, fuel, cfg, env.scope, s.header.condition, m).value;
    LoopPlaces(k, ip, loop, cond + [LeaveUnless(end)], body, [], end);
    PlacedSplit(k, ip, cond, [LeaveUnless(end)]);
    ExtentNil();
    ExprRuns(k, fuel, cfg, env.scope, env.strings, s.header.condition, fr, m, [], ip);
    ThenBranch(k, fr, m, ip, m1, v.b, ip + Extent(cond), end);
    if v.b {
      var at := ip + Extent(cond + [LeaveUnless(end)]);
      BlockRuns(k, fuel, cfg, env1, s.body, fr, m1, at);
      var (flow, m2) := EvalBlock(k.w, fuel, cfg, env.scope, s.body, m1).value;
      if flow.Normal? {
        BodyComes(k, env1.ends, fr, m, ip, m1, at, m2, at + Extent(body));
        ThenJump(k, fr, m, ip, m2, at + Extent(body), loop);
        var (flow', m') := EvalWhile(k.w, fuel - 1, cfg, env.scope, s, m2).value;
        StmtParts(k, fuel - 1, cfg, env, s, m2);
        WhileRuns(k, fuel - 1, cfg, env, s, fr, m2, ip);
        ThenFlow(k, env.ends, fr, m, ip, m2, ip, flow', m', k.labels[end]);
      } else {
        BodyLeaves(k, env.ends, end, fr, m1, at, flow, m2, at + Extent(body));
        ThenFlow(k, env.ends, fr, m, ip, m1, at, if flow.Exit? then Normal else flow, m2, k.labels[end]);
      }
    } else {
      NormalFlow(k, env.ends, fr, m, ip, m1, k.labels[end]);
    }
  }

  lemma NormalFlow(k: Linked, ends: seq<string>, fr: Frame, m: Mem, ip: nat, m': Mem, next: nat)
    requires Computes(k, fr, m, [], ip, m', [], next)
    ensures Flows(k, ends, fr, m, ip, Normal, m', next)
  {
    hide Computes, EvalStmt, EmitStmt, EvalBlock, EmitBlock, Invoke, UnitPlaced, UnitAt, M.Reaches, M.Run, M.Step, M.Prim, M.Exec, EvalExpr,
      EmitExpr, EvalExprs, EmitExprs, EvalMaybe;
  }

  /** Guard and body in a row, when the body falls through. */
  lemma BodyComes(k: Linked, ends: seq<string>, fr: Frame, m: Mem, ip: nat, m1: Mem, ip1: nat, m2: Mem, ip2: nat)
    requires Computes(k, fr, m, [], ip, m1, [], ip1) && Flows(k, ends, fr, m1, ip1, Normal, m2, ip2)
    ensures Computes(k, fr, m, [], ip, m2, [], ip2)
  {
    hide Computes, EvalStmt, EmitStmt, EvalBlock, EmitBlock, Invoke, UnitPlaced, UnitAt, M.Reaches, M.Run, M.Step, M.Prim, M.Exec, EvalExpr,
      EmitExpr, EvalExprs, EmitExprs, EvalMaybe;
    NoTemps();
    Then(k, fr, m, [], ip, m1, [], ip1, m2, [], ip2);
  }

  // Counted loops

  /** The loop itself is in place, its body emitted inside the loop's end label. */
  ghost predicate LoopStart(k: Linked, cfg: Config, env: GenEnv, ends: seq<string>, body: seq<Stmt>, loop: string, guard: Code,
                            advance: Code, end: string, fr: Frame, m: Mem, ip: nat)
  {
    && Ready(k, m, fr) && EndsPlaced(k, ends) && env.ends == ends + [end]
    && match EmitBlock(cfg, env, body)
       case Ok((env', code)) => env'.strings <= k.img.strings && Placed(k, ip, LoopCode(loop, guard, code, advance, end))
       case Err(_) => false
  }

  /** A variable compared with, or changed by, a constant. */
  lemma ThenWithConst(k: Linked, fr: Frame, m: Mem, ip: nat, x: Variable, v: Value, n: int, op: Op, ip1: nat)
    requires Ready(k, m, fr) && FitsI32(n) && Semantics.Read(m, x) == Ok(v)
    requires Placed(k, ip, [LoadOf(x), CONST(n), BINOP(op)]) && ip1 == ip + Extent([LoadOf(x), CONST(n), BINOP(op)])
    requires RT.Binop(k.w.lib, m.heap, op, v, RT.Int(n)).Ok?
    ensures Gives(k, fr, m, [], ip, InHeap(m, RT.Binop(k.w.lib, m.heap, op, v, RT.Int(n))), ip1)
  {
    hide Computes, Loaded, Placed, Extent, RT.Binop, RT.VmBinop, EvalStmt, EmitStmt, EvalBlock, EmitBlock, Invoke, UnitPlaced, UnitAt, EvalExprs,
      EmitExprs, EvalMaybe, EmitMaybe, EvalCallee, EmitCallee, RT.Equal, M.Reaches;
    assert [LoadOf(x), CONST(n), BINOP(op)] == [LoadOf(x)] + ([CONST(n)] + [BINOP(op)]);
    PlacedSplit(k, ip, [LoadOf(x)], [CONST(n)] + [BINOP(op)]);
    PlacedSplit(k, ip + Extent([LoadOf(x)]), [CONST(n)], [BINOP(op)]);
    Nothing(k, fr, m, [], ip);
    ExtentNil();
    ThenLoad(k, fr, m, [], ip, m, [], ip, x);
    NoTemps();
    var at := ip + Extent([LoadOf(x)]);
    Nothing(k, fr, m, [] + [v], at);
    ThenOp(k, fr, m, [] + [v], at, m, [], at, CONST(n), M.Effect([RT.Int(n)], m.heap, []));
    RT.FastPathsAgree(k.img.lib, m.heap, op, v, RT.Int(n));
    PairThenOp(k, fr, m, [], ip, m, v, at, m, RT.Int(n), at + Extent([CONST(n)]), BINOP(op),
      RT.Binop(k.w.lib, m.heap, op, v, RT.Int(n)).value);
  }

  lemma RepeatGuardRuns(k: Linked, fr: Frame, m: Mem, ip: nat, x: Variable, v: Value, b: bool, h: RT.Heap, end: string)
    requires Ready(k, m, fr) && Placed(k, ip, RepeatGuard(x, end)) && end in k.labels && Semantics.Read(m, x) == Ok(v)
    requires RT.Binop(k.w.lib, m.heap, GT, v, RT.Int(0)) == Ok((RT.Bool(b), h))
    ensures Computes(k, fr, m, [], ip, m.(heap := h), [], if b then Past(ip, RepeatGuard(x, end)) else Here(k, end))
  {
    hide Computes, Loaded, Placed, Extent, RT.Binop, RT.VmBinop;
    var test := [LoadOf(x), CONST(0), BINOP(GT)];
    assert RepeatGuard(x, end) == test + [LeaveUnless(end)];
    PlacedSplit(k, ip, test, [LeaveUnless(end)]);
    ThenWithConst(k, fr, m, ip, x, v, 0, GT, ip + Extent(test));
    ThenBranch(k, fr, m, ip, m.(heap := h), b, ip + Extent(test), end);
  }

  lemma RepeatAdvanceRuns(k: Linked, fr: Frame, m: Mem, ip: nat, x: Variable)
    requires Ready(k, m, fr) && Placed(k, ip, RepeatAdvance(x)) && Advance(k.w, x, SUB, RT.Int(1), m).Ok?
    ensures Changes(k, fr, m, [], ip, Advance(k.w, x, SUB, RT.Int(1), m), Past(ip, RepeatAdvance(x)))
  {
    hide Computes, Loaded, Placed, Extent, RT.Binop, RT.VmBinop;
    var change := [LoadOf(x), CONST(1), BINOP(SUB)];
    assert RepeatAdvance(x) == change + [StoreTo(x)];
    PlacedSplit(k, ip, change, [StoreTo(x)]);
    ThenWithConst(k, fr, m, ip, x, Semantics.Read(m, x).value, 1, SUB, ip + Extent(change));
    var r := RT.Binop(k.w.lib, m.heap, SUB, Semantics.Read(m, x).value, RT.Int(1)).value;
    ThenStore(k, fr, m, [], ip, m.(heap := r.1), r.0, ip + Extent(change), x);
  }

  lemma {:induction false} RepeatLoopRuns(k: Linked, fuel: nat, cfg: Config, env: GenEnv, ends: seq<string>, x: Variable, s: Stmt,
                                          loop: string, end: string, fr: Frame, m: Mem, ip: nat)
    requires s.Loop? && LoopStart(k, cfg, env, ends, s.body, loop, RepeatGuard(x, end), RepeatAdvance(x), end, fr, m, ip)
    requires EvalRepeat(k.w, fuel, cfg, env.scope, x, s, m).Ok? && end in k.labels
    ensures var (flow, m') := EvalRepeat(k.w, fuel, cfg, env.scope, x, s, m).value;
      Flows(k, ends, fr, m, ip, flow, m', k.labels[end])
    decreases fuel, s, 3
  {
    hide Placed, Extent, EmitBlock, EvalBlock, LoopCode, Flows, RT.Binop, RepeatGuard, RepeatAdvance, Advance, Invoke, UnitPlaced, UnitAt, M.Reaches,
      M.Run, AfterBlock, At, EvalLoop, EvalCases, EmitCases;
    var body := EmitBlock(cfg, env, s.body).value.1;
    LoopPlaces(k, ip, loop, RepeatGuard(x, end), body, RepeatAdvance(x), end);
    var r := RT.Binop(k.w.lib, m.heap, GT, Semantics.Read(m, x).value, RT.Int(0)).value;
    RepeatGuardRuns(k, fr, m, ip, x, Semantics.Read(m, x).value, r.0.b, r.1, end);
    var m1, at := m.(heap := r.1), ip + Extent(RepeatGuard(x, end));
    if r.0.b {
      BlockRuns(k, fuel, cfg, env, s.body, fr, m1, at);
      var (flow, m2) := EvalBlock(k.w, fuel, cfg, env.scope, s.body, m1).value;
      if flow.Normal? {
        var m3 := Advance(k.w, x, SUB, RT.Int(1), m2).value;
        BodyComes(k, env.ends, fr, m, ip, m1, at, m2, at + Extent(body));
        RepeatAdvanceRuns(k, fr, m2, at + Extent(body), x);
        NoTemps();
        Then(k, fr, m, [], ip, m2, [], at + Extent(body), m3, [], at + Extent(body) + Extent(RepeatAdvance(x)));
        ThenJump(k, fr, m, ip, m3, at + Extent(body) + Extent(RepeatAdvance(x)), loop);
        RepeatLoopRuns(k, fuel - 1, cfg, env, ends, x, s, loop, end, fr, m3, ip);
        var (flow', m') := EvalRepeat(k.w, fuel - 1, cfg, env.scope, x, s, m3).value;
        ThenFlow(k, ends, fr, m, ip, m3, ip, flow', m', k.labels[end]);
      } else {
        BodyLeaves(k, ends, end, fr, m1, at, flow, m2, at + Extent(body));
        ThenFlow(k, ends, fr, m, ip, m1, at, if flow.Exit? then Normal else flow, m2, k.labels[end]);
      }
    } else {
      NormalFlow(k, ends, fr, m, ip, m1, k.labels[end]);
    }
  }

  lemma {:induction false} RepeatRuns(k: Linked, fuel: nat, cfg: Config, env: GenEnv, s: Stmt, fr: Frame, m: Mem, ip: nat)
    requires IsRepeat(s) && StmtStart(k, fuel, cfg, env, s, fr, m, ip)
    ensures StmtDone(k, fuel, cfg, env, s, fr, m, ip)
    decreases fuel, s, 5
  {
    hide EmitStmt, EvalStmt, Computes, Loaded, Placed, Extent, EmitExpr, EvalExpr, EmitBlock, EvalBlock, EvalRepeat, EvalWhile, EvalFor, EmitWhile,
      EmitFor, EmitConditional, EmitMatch, EvalConditional, EvalMatch, LoopCode, RepeatGuard, RepeatAdvance, Flows, AfterBlock, AfterStmt,
      Semantics.Write, Invoke, UnitPlaced, UnitAt, M.Reaches, EmitMaybe, EvalMaybe, RT.Binop, RT.Equal;
    StmtParts(k, fuel, cfg, env, s, m);
    var x, name := NextSlot(env.scope), LoopVariable(s.header);
    var sc := Allocate(env.scope, name);
    var (tab, count) := EmitExpr(cfg, sc, env.strings, s.header.count).value;
    var loop, end := Fresh("repeat_loop", env.labels), Fresh("repeat_end", env.labels + 1);
    var env1 := env.(scope := sc, strings := tab, labels := env.labels + 2, ends := env.ends + [end]);
    var body := EmitBlock(cfg, env1, s.body).value.1;
    var code := LoopCode(loop, RepeatGuard(x, end), body, RepeatAdvance(x), end);
    var (v, m1) := EvalExpr(k.w, fuel, cfg, sc, s.header.count, m).value;
    var m2 := Semantics.Write(m1, x, v).value;
    PlacedSplit(k, ip, count + [StoreTo(x)], code);
    PlacedSplit(k, ip, count, [StoreTo(x)]);
    var at := ip + Extent(count + [StoreTo(x)]);
    LoopPlaces(k, at, loop, RepeatGuard(x, end), body, RepeatAdvance(x), end);
    ExprRuns(k, fuel, cfg, sc, env.strings, s.header.count, fr, m, [], ip);
    ThenStore(k, fr, m, [], ip, m1, v, ip + Extent(count), x);
    RepeatLoopRuns(k, fuel, cfg, env1, env.ends, x, s, loop, end, fr, m2, at);
    var (flow, m') := EvalRepeat(k.w, fuel, cfg, sc, x, s, m2).value;
    ThenFlow(k, env.ends, fr, m, ip, m2, at, flow, m', k.labels[end]);
  }

  // Ranged loops

  /** Step and bound code as the generator emitted them, once for all uses. */
  ghost predicate StepAt(k: Linked, cfg: Config, sc: Scope, tab: Strings, step: MaybeExpr, code: Code) {
    match EmitMaybe(cfg, sc, tab, step)
    case Ok((tab', given)) => tab' <= k.img.strings && code == if step.Present? then given else [CONST(1)]
    case Err(_) => false
  }

  ghost predicate BoundAt(k: Linked, cfg: Config, sc: Scope, tab: Strings, to: MaybeExpr, code: Code) {
    match EmitMaybe(cfg, sc, tab, to) case Ok((tab', given)) => tab' <= k.img.strings && code == given case Err(_) => false
  }

  lemma {:induction false} StepRuns(k: Linked, fuel: nat, cfg: Config, sc: Scope, tab: Strings, step: MaybeExpr, code: Code,
                                    fr: Frame, m: Mem, temps: seq<Value>, ip: nat)
    requires Ready(k, m, fr) && StepAt(k, cfg, sc, tab, step, code) && Placed(k, ip, code)
    requires EvalStep(k.w, fuel, cfg, sc, step, m).Ok?
    ensures Gives(k, fr, m, temps, ip, EvalStep(k.w, fuel, cfg, sc, step, m), Past(ip, code))
    decreases fuel, step, 0
  {
    hide Computes, Loaded, Placed, Extent, EmitExpr, EvalExpr, EvalStmt;
    if step.Absent? {
      Nothing(k, fr, m, temps, ip);
      ExtentNil();
      ThenOp(k, fr, m, temps, ip, m, [], ip, CONST(1), M.Effect([RT.Int(1)], m.heap, []));
    } else {
      ExprRuns(k, fuel, cfg, sc, tab, step.expr, fr, m, temps, ip);
    }
  }

  lemma {:induction false} BoundRuns(k: Linked, fuel: nat, cfg: Config, sc: Scope, tab: Strings, to: Expr, code: Code,
                                     fr: Frame, m: Mem, temps: seq<Value>, ip: nat)
    requires Ready(k, m, fr) && BoundAt(k, cfg, sc, tab, Present(to), code) && Placed(k, ip, code) && EvalExpr(k.w, fuel, cfg, sc, to, m).Ok?
    ensures Gives(k, fr, m, temps, ip, EvalExpr(k.w, fuel, cfg, sc, to, m), Past(ip, code))
    decreases fuel, to, 3
  {
    hide Computes, Loaded, Placed, Extent, EmitExpr, EvalExpr;
    ExprRuns(k, fuel, cfg, sc, tab, to, fr, m, temps, ip);
  }

  /** An operator on the two values on top, in the evaluator's words. */
  lemma ThenBinop(k: Linked, fr: Frame, m: Mem, temps: seq<Value>, ip: nat, m1: Mem, a: Value, ip1: nat,
                  m2: Mem, b: Value, ip2: nat, op: Op)
    requires Ready(k, m2, fr) && Placed(k, ip2, [BINOP(op)])
    requires Computes(k, fr, m, temps, ip, m1, [a], ip1) && Computes(k, fr, m1, temps + [a], ip1, m2, [b], ip2)
    requires RT.Binop(k.w.lib, m2.heap, op, a, b).Ok?
    ensures Gives(k, fr, m, temps, ip, InHeap(m2, RT.Binop(k.w.lib, m2.heap, op, a, b)), Past(ip2, [BINOP(op)]))
  {
    hide Computes, Loaded, Placed, RT.Binop, RT.VmBinop;
    RT.FastPathsAgree(k.img.lib, m2.heap, op, a, b);
    PairThenOp(k, fr, m, temps, ip, m1, a, ip1, m2, b, ip2, BINOP(op), RT.Binop(k.w.lib, m2.heap, op, a, b).value);
  }

  /** Offsets of the pieces of half a guard. */
  lemma HalfPlaces(k: Linked, ip: nat, x: Variable, step: Code, to: Code, sign: Op, side: Op)
    returns (a: nat, b: nat, c: nat, d: nat, e: nat, f: nat)
    requires Placed(k, ip, HalfGuard(x, step, to, sign, side))
    ensures a == ip + Extent(step) && b == a + Extent([CONST(0)]) && c == b + Extent([BINOP(sign)])
    ensures d == c + Extent([LoadOf(x)]) && e == d + Extent(to) && f == e + Extent([BINOP(side)])
    ensures Placed(k, ip, step) && Placed(k, a, [CONST(0)]) && Placed(k, b, [BINOP(sign)]) && Placed(k, c, [LoadOf(x)])
    ensures Placed(k, d, to) && Placed(k, e, [BINOP(side)]) && Placed(k, f, [BINOP(AND)])
    ensures f + Extent([BINOP(AND)]) == ip + Extent(HalfGuard(x, step, to, sign, side))
  {
    hide Placed, Extent;
    var c1 := step + [CONST(0)];
    var c2 := c1 + [BINOP(sign)];
    var c3 := c2 + [LoadOf(x)];
    var c4 := c3 + to;
    PlacedSplit(k, ip, c4 + [BINOP(side)], [BINOP(AND)]);
    PlacedSplit(k, ip, c4, [BINOP(side)]);
    PlacedSplit(k, ip, c3, to);
    PlacedSplit(k, ip, c2, [LoadOf(x)]);
    PlacedSplit(k, ip, c1, [BINOP(sign)]);
    PlacedSplit(k, ip, step, [CONST(0)]);
    a := ip + Extent(step);
    b := a + Extent([CONST(0)]);
    c := b + Extent([BINOP(sign)]);
    d := c + Extent([LoadOf(x)]);
    e := d + Extent(to);
    f := e + Extent([BINOP(side)]);
  }

  lemma {:induction false} HalfRuns(k: Linked, fuel: nat, cfg: Config, sc: Scope, tab1: Strings, tab2: Strings, s: Stmt,
                                    step: Code, to: Code, sign: Op, side: Op, fr: Frame, m: Mem, temps: seq<Value>, ip: nat)
    requires s.Loop? && s.header.For? && s.header.to.Present? && Ready(k, m, fr)
    requires StepAt(k, cfg, sc, tab1, s.header.step, step) && BoundAt(k, cfg, sc, tab2, s.header.to, to)
    requires Placed(k, ip, HalfGuard(NextSlot(sc), step, to, sign, side))
    requires EvalHalf(k.w, fuel, cfg, sc, s, sign, side, m).Ok?
    ensures var (v, m') := EvalHalf(k.w, fuel, cfg, sc, s, sign, side, m).value;
      Computes(k, fr, m, temps, ip, m', [v], ip + Extent(HalfGuard(NextSlot(sc), step, to, sign, side)))
    decreases fuel, s, 1
  {
    hide Computes, Loaded, Placed, Extent, EvalExpr, EvalStep, RT.Binop, HalfGuard, BoundAt, StepAt, Semantics.Read, EvalStmt, EvalMaybe, EmitMaybe,
      EvalCallee, EmitCallee, RT.VmBinop, RT.Equal, RT.CallBuiltin, AfterStmt, AfterBlock, Flows, At, EvalLoop, EvalCases, EmitCases;
    var x := NextSlot(sc);
    var w, lib := k.w, k.w.lib;
    var a, b, c, d, e, f := HalfPlaces(k, ip, x, step, to, sign, side);
    var (delta, m1) := EvalStep(w, fuel, cfg, sc, s.header.step, m).value;
    var (p, m2) := InHeap(m1, RT.Binop(lib, m1.heap, sign, delta, RT.Int(0))).value;
    var v := Semantics.Read(m2, x).value;
    var (bound, m3) := EvalExpr(w, fuel, cfg, sc, s.header.to.expr, m2).value;
    var (q, m4) := InHeap(m3, RT.Binop(lib, m3.heap, side, v, bound)).value;
    StepRuns(k, fuel, cfg, sc, tab1, s.header.step, step, fr, m, temps, ip);
    Nothing(k, fr, m1, temps + [delta], a);
    ExtentNil();
    ThenOp(k, fr, m1, temps + [delta], a, m1, [], a, CONST(0), M.Effect([RT.Int(0)], m1.heap, []));
    ThenBinop(k, fr, m, temps, ip, m1, delta, a, m1, RT.Int(0), b, sign);
    Nothing(k, fr, m2, temps + [p], c);
    ThenLoad(k, fr, m2, temps + [p], c, m2, [], c, x);
    NoTemps();
    BoundRuns(k, fuel, cfg, sc, tab2, s.header.to.expr, to, fr, m2, temps + [p] + [v], d);
    ThenBinop(k, fr, m2, temps + [p], c, m2, v, d, m3, bound, e, side);
    ThenBinop(k, fr, m, temps, ip, m2, p, c, m4, q, f, AND);
  }

  /** The single comparison of a short guard. */
  function EvalShortGuard(w: World, fuel: nat, cfg: Config, sc: Scope, s: Stmt, m: Mem): (r: Result<(bool, Mem)>)
    requires s.Loop? && s.header.For? && s.header.to.Present?
  {
    var v :- Semantics.Read(m, NextSlot(sc));
    var (bound, m1) :- EvalExpr(w, fuel, cfg, sc, s.header.to.expr, m);
    var (below, m2) :- InHeap(m1, RT.Binop(w.lib, m1.heap, LEQ, v, bound));
    var more :- IsTrue(below);
    Ok((more, m2))
  }

  /** Code of one load or constant comes from an expression without effects. */
  lemma {:induction false} SimpleIsPure(w: World, fuel: nat, cfg: Config, sc: Scope, tab: Strings, e: Expr, m: Mem)
    requires EmitExpr(cfg, sc, tab, e).Ok? && |EmitExpr(cfg, sc, tab, e).value.1| == 1
    requires var i := EmitExpr(cfg, sc, tab, e).value.1[0]; i.LOAD? || i.CONST? || i.CONSTF?
    ensures EvalExpr(w, fuel, cfg, sc, e, m).Ok? ==> EvalExpr(w, fuel, cfg, sc, e, m).value.1 == m
    decreases e
  {
    hide RT.Binop, Invoke, EvalStmt, EmitStmt, M.Step, M.Prim;
    if e.Unary? && e.unary.Plus? {
      var code := EmitExpr(cfg, sc, tab, e.operand).value.1;
      assert code + [] == code;
      SimpleIsPure(w, fuel, cfg, sc, tab, e.operand, m);
    }
  }

  /** Half of the guard for the default step, when the bound has no effects. */
  lemma HalfByDefault(w: World, fuel: nat, cfg: Config, sc: Scope, s: Stmt, up: bool, m: Mem)
    requires s.Loop? && s.header.For? && s.header.to.Present? && s.header.step.Absent?
    requires EvalExpr(w, fuel, cfg, sc, s.header.to.expr, m).Ok? ==> EvalExpr(w, fuel, cfg, sc, s.header.to.expr, m).value.1 == m
    ensures var r := if up then EvalHalf(w, fuel, cfg, sc, s, GT, LEQ, m) else EvalHalf(w, fuel, cfg, sc, s, LEQ, GEQ, m);
      match EvalShortGuard(w, fuel, cfg, sc, s, m) {
        case Ok(more) => more.1 == m && r == Ok((RT.Bool(if up then more.0 else false), m))
        case Err(e) => r == Err(e)
      }
  {
    hide EvalExpr, EvalBlock, RT.Equal, RT.Add, RT.Multiply, RT.Divide, RT.Power;
    assert m.(heap := m.heap) == m;
  }

  /** The short guard is a refinement of the general one: same answer, same memory, same
      failure, whenever the generator chooses it. */
  lemma ShortGuardRefines(w: World, fuel: nat, cfg: Config, sc: Scope, tab: Strings, s: Stmt, m: Mem)
    requires s.Loop? && s.header.For? && s.header.to.Present?
    requires EmitMaybe(cfg, sc, tab, s.header.to).Ok?
    requires SimpleGuard(s.header.step, EmitMaybe(cfg, sc, tab, s.header.to).value.1)
    ensures EvalGuard(w, fuel, cfg, sc, s, m) == EvalShortGuard(w, fuel, cfg, sc, s, m)
  {
    hide EmitExpr, EvalExpr, EvalHalf, EvalShortGuard;
    SimpleIsPure(w, fuel, cfg, sc, tab, s.header.to.expr, m);
    HalfByDefault(w, fuel, cfg, sc, s, true, m);
    HalfByDefault(w, fuel, cfg, sc, s, false, m);
    assert m.(heap := m.heap) == m;
  }

  lemma {:induction false} GuardRuns(k: Linked, fuel: nat, cfg: Config, sc: Scope, tab1: Strings, tab2: Strings, s: Stmt,
                                     step: Code, to: Code, fr: Frame, m: Mem, ip: nat)
    requires s.Loop? && s.header.For? && s.header.to.Present? && Ready(k, m, fr)
    requires StepAt(k, cfg, sc, tab1, s.header.step, step) && BoundAt(k, cfg, sc, tab2, s.header.to, to)
    requires Placed(k, ip, ForGuard(NextSlot(sc), step, to, SimpleGuard(s.header.step, to)))
    requires EvalGuard(k.w, fuel, cfg, sc, s, m).Ok?
    ensures var (more, m') := EvalGuard(k.w, fuel, cfg, sc, s, m).value;
      Computes(k, fr, m, [], ip, m', [RT.Bool(more)], ip + Extent(ForGuard(NextSlot(sc), step, to, SimpleGuard(s.header.step, to))))
    decreases fuel, s, 2
  {
    hide Computes, Loaded, Placed, Extent, EvalExpr, EmitExpr, EvalHalf, RT.Binop, HalfGuard, StepAt;
    var x := NextSlot(sc);
    NoTemps();
    if SimpleGuard(s.header.step, to) {
      ShortGuardRefines(k.w, fuel, cfg, sc, tab2, s, m);
      PlacedSplit(k, ip, [LoadOf(x)] + to, [BINOP(LEQ)]);
      PlacedSplit(k, ip, [LoadOf(x)], to);
      Nothing(k, fr, m, [], ip);
      ExtentNil();
      ThenLoad(k, fr, m, [], ip, m, [], ip, x);
      var v := Semantics.Read(m, x).value;
      var (bound, m1) := EvalExpr(k.w, fuel, cfg, sc, s.header.to.expr, m).value;
      BoundRuns(k, fuel, cfg, sc, tab2, s.header.to.expr, to, fr, m, [] + [v], ip + Extent([LoadOf(x)]));
      ThenBinop(k, fr, m, [], ip, m, v, ip + Extent([LoadOf(x)]), m1, bound, ip + Extent([LoadOf(x)] + to), LEQ);
    } else {
      var up, down := HalfGuard(x, step, to, GT, LEQ), HalfGuard(x, step, to, LEQ, GEQ);
      PlacedSplit(k, ip, up + down, [BINOP(OR)]);
      PlacedSplit(k, ip, up, down);
      var (p, m1) := EvalHalf(k.w, fuel, cfg, sc, s, GT, LEQ, m).value;
      var (q, m2) := EvalHalf(k.w, fuel, cfg, sc, s, LEQ, GEQ, m1).value;
      HalfRuns(k, fuel, cfg, sc, tab1, tab2, s, step, to, GT, LEQ, fr, m, [], ip);
      HalfRuns(k, fuel, cfg, sc, tab1, tab2, s, step, to, LEQ, GEQ, fr, m1, [] + [p], ip + Extent(up));
      ThenBinop(k, fr, m, [], ip, m1, p, ip + Extent(up), m2, q, ip + Extent(up + down), OR);
    }
  }

  /** Guard and branch: into the body, or past the loop. */
  lemma {:induction false} TestRuns(k: Linked, fuel: nat, cfg: Config, sc: Scope, tab1: Strings, tab2: Strings, s: Stmt,
                                    step: Code, to: Code, end: string, fr: Frame, m: Mem, ip: nat)
    requires s.Loop? && s.header.For? && Ready(k, m, fr) && end in k.labels
    requires StepAt(k, cfg, sc, tab1, s.header.step, step) && BoundAt(k, cfg, sc, tab2, s.header.to, to)
    requires Placed(k, ip, ForTest(s.header.to, NextSlot(sc), step, to, SimpleGuard(s.header.step, to), end))
    requires EvalGuard(k.w, fuel, cfg, sc, s, m).Ok?
    ensures var (more, m') := EvalGuard(k.w, fuel, cfg, sc, s, m).value;
      Computes(k, fr, m, [], ip, m', [], if more then
        ip + Extent(ForTest(s.header.to, NextSlot(sc), step, to, SimpleGuard(s.header.step, to), end)) else k.labels[end])
    decreases fuel, s, 3
  {
    hide Computes, Loaded, Placed, Extent, EvalHalf, ForGuard, StepAt, BoundAt, SimpleGuard, EvalStmt, EvalMaybe, EmitMaybe, EvalCallee, EmitCallee,
      RT.Binop;
    if s.header.to.Absent? {
      Nothing(k, fr, m, [], ip);
    } else {
      var guard := ForGuard(NextSlot(sc), step, to, SimpleGuard(s.header.step, to));
      PlacedSplit(k, ip, guard, [LeaveUnless(end)]);
      GuardRuns(k, fuel, cfg, sc, tab1, tab2, s, step, to, fr, m, ip);
      var (more, m1) := EvalGuard(k.w, fuel, cfg, sc, s, m).value;
      ThenBranch(k, fr, m, ip, m1, more, ip + Extent(guard), end);
    }
  }

  function EvalAdvance(w: World, fuel: nat, cfg: Config, sc: Scope, s: Stmt, m: Mem): (r: Result<Mem>)
    requires s.Loop? && s.header.For?
    ensures r.Ok? ==> SameShape(m, r.value)
  {
    var v :- Semantics.Read(m, NextSlot(sc));
    var (delta, m1) :- EvalStep(w, fuel, cfg, sc, s.header.step, m);
    var (next, m2) :- InHeap(m1, RT.Binop(w.lib, m1.heap, ADD, v, delta));
    Semantics.Write(m2, NextSlot(sc), next)
  }

  lemma {:induction false} ForAdvanceRuns(k: Linked, fuel: nat, cfg: Config, sc: Scope, tab1: Strings, s: Stmt, step: Code,
                                          fr: Frame, m: Mem, ip: nat)
    requires s.Loop? && s.header.For? && Ready(k, m, fr) && StepAt(k, cfg, sc, tab1, s.header.step, step)
    requires Placed(k, ip, ForAdvance(NextSlot(sc), step)) && EvalAdvance(k.w, fuel, cfg, sc, s, m).Ok?
    ensures Computes(k, fr, m, [], ip, EvalAdvance(k.w, fuel, cfg, sc, s, m).value, [], ip + Extent(ForAdvance(NextSlot(sc), step)))
    decreases fuel, s, 1
  {
    hide Computes, Loaded, Placed, Extent, EvalStep, RT.Binop, StepAt, Semantics.Read, Semantics.Write, EvalStmt;
    var x := NextSlot(sc);
    PlacedSplit(k, ip, [LoadOf(x)] + step, [BINOP(ADD)] + [StoreTo(x)]);
    PlacedSplit(k, ip, [LoadOf(x)], step);
    PlacedSplit(k, ip + Extent([LoadOf(x)] + step), [BINOP(ADD)], [StoreTo(x)]);
    Nothing(k, fr, m, [], ip);
    ExtentNil();
    ThenLoad(k, fr, m, [], ip, m, [], ip, x);
    NoTemps();
    var v := Semantics.Read(m, x).value;
    var (delta, m1) := EvalStep(k.w, fuel, cfg, sc, s.header.step, m).value;
    var (next, m2) := InHeap(m1, RT.Binop(k.w.lib, m1.heap, ADD, v, delta)).value;
    StepRuns(k, fuel, cfg, sc, tab1, s.header.step, step, fr, m, [] + [v], ip + Extent([LoadOf(x)]));
    ThenBinop(k, fr, m, [], ip, m, v, ip + Extent([LoadOf(x)]), m1, delta, ip + Extent([LoadOf(x)] + step), ADD);
    ThenStore(k, fr, m, [], ip, m2, next, ip + Extent([LoadOf(x)] + step) + Extent([BINOP(ADD)]), x);
  }

  /** One turn of the loop in the evaluator's words. */
  lemma ForTurn(w: World, fuel: nat, cfg: Config, sc: Scope, s: Stmt, m: Mem)
    requires s.Loop? && s.header.For? && EvalFor(w, fuel, cfg, sc, s, m).Ok?
    ensures EvalGuard(w, fuel, cfg, sc, s, m).Ok?
    ensures var r, (more, m1) := EvalFor(w, fuel, cfg, sc, s, m), EvalGuard(w, fuel, cfg, sc, s, m).value;
      if !more then r == Ok((Normal, m1))
      else
        var body := EvalBlock(w, fuel, cfg, Allocate(sc, s.header.variable), s.body, m1);
        && body.Ok?
        && (if body.value.0.Normal? then
              fuel > 0 && EvalAdvance(w, fuel, cfg, sc, s, body.value.1).Ok?
              && r == EvalFor(w, fuel - 1, cfg, sc, s, EvalAdvance(w, fuel, cfg, sc, s, body.value.1).value)
            else r == Ok((if body.value.0.Exit? then Normal else body.value.0, body.value.1)))
  {
    hide EvalGuard, EvalBlock, EvalStep, EvalStmt, RT.Binop, Semantics.Read, Semantics.Write;
  }

  lemma {:induction false} ForLoopRuns(k: Linked, fuel: nat, cfg: Config, env: GenEnv, ends: seq<string>, sc: Scope, tab1: Strings,
                                       tab2: Strings, s: Stmt, step: Code, to: Code, loop: string, end: string, fr: Frame, m: Mem, ip: nat)
    requires s.Loop? && s.header.For? && end in k.labels && env.scope == Allocate(sc, s.header.variable)
    requires StepAt(k, cfg, sc, tab1, s.header.step, step) && BoundAt(k, cfg, sc, tab2, s.header.to, to)
    requires var test := ForTest(s.header.to, NextSlot(sc), step, to, SimpleGuard(s.header.step, to), end);
      LoopStart(k, cfg, env, ends, s.body, loop, test, ForAdvance(NextSlot(sc), step), end, fr, m, ip)
    requires EvalFor(k.w, fuel, cfg, sc, s, m).Ok?
    ensures var (flow, m') := EvalFor(k.w, fuel, cfg, sc, s, m).value;
      Flows(k, ends, fr, m, ip, flow, m', k.labels[end])
    decreases fuel, s, 4
  {
    hide Computes, Loaded, Placed, Extent, EmitBlock, EvalBlock, LoopCode, Flows, ForTest, ForAdvance, EvalAdvance, EvalGuard, EvalFor, StepAt,
      BoundAt, SimpleGuard, Invoke, UnitPlaced, UnitAt, M.Reaches, AfterStmt, AfterBlock, At, EvalLoop, EvalCases, EmitCases;
    ForTurn(k.w, fuel, cfg, sc, s, m);
    var test := ForTest(s.header.to, NextSlot(sc), step, to, SimpleGuard(s.header.step, to), end);
    var advance, body := ForAdvance(NextSlot(sc), step), EmitBlock(cfg, env, s.body).value.1;
    LoopPlaces(k, ip, loop, test, body, advance, end);
    TestRuns(k, fuel, cfg, sc, tab1, tab2, s, step, to, end, fr, m, ip);
    var (more, m1) := EvalGuard(k.w, fuel, cfg, sc, s, m).value;
    var at := ip + Extent(test);
    if more {
      BlockRuns(k, fuel, cfg, env, s.body, fr, m1, at);
      var (flow, m2) := EvalBlock(k.w, fuel, cfg, env.scope, s.body, m1).value;
      if flow.Normal? {
        var m3 := EvalAdvance(k.w, fuel, cfg, sc, s, m2).value;
        BodyComes(k, env.ends, fr, m, ip, m1, at, m2, at + Extent(body));
        ForAdvanceRuns(k, fuel, cfg, sc, tab1, s, step, fr, m2, at + Extent(body));
        NoTemps();
        Then(k, fr, m, [], ip, m2, [], at + Extent(body), m3, [], at + Extent(body) + Extent(advance));
        ThenJump(k, fr, m, ip, m3, at + Extent(body) + Extent(advance), loop);
        ForLoopRuns(k, fuel - 1, cfg, env, ends, sc, tab1, tab2, s, step, to, loop, end, fr, m3, ip);
        var (flow', m') := EvalFor(k.w, fuel - 1, cfg, sc, s, m3).value;
        ThenFlow(k, ends, fr, m, ip, m3, ip, flow', m', k.labels[end]);
      } else {
        BodyLeaves(k, ends, end, fr, m1, at, flow, m2, at + Extent(body));
        ThenFlow(k, ends, fr, m, ip, m1, at, if flow.Exit? then Normal else flow, m2, k.labels[end]);
      }
    } else {
      NormalFlow(k, ends, fr, m, ip, m1, k.labels[end]);
    }
  }

  /** The start value, 0 when it is left out. */
  lemma {:induction false} StartRuns(k: Linked, fuel: nat, cfg: Config, sc: Scope, tab: Strings, from: MaybeExpr, x: Variable,
                                     fr: Frame, m: Mem, ip: nat)
    requires Ready(k, m, fr) && EvalStart(k.w, fuel, cfg, sc, from, x, m).Ok?
    requires match EmitMaybe(cfg, sc, tab, from)
      case Ok((tab', code)) => tab' <= k.img.strings && Placed(k, ip, StartCode(from, code) + [StoreTo(x)])
      case Err(_) => false
    ensures Changes(k, fr, m, [], ip, EvalStart(k.w, fuel, cfg, sc, from, x, m),
      Past(ip, StartCode(from, CodeOf(EmitMaybe(cfg, sc, tab, from))) + [StoreTo(x)]))
    decreases fuel, from, 0
  {
    hide Computes, Loaded, Placed, Extent, EmitExpr, EvalExpr, Semantics.Write, EvalStmt;
    var (start, m1) := EvalMaybe(k.w, fuel, cfg, sc, from, m).value;
    var code := StartCode(from, CodeOf(EmitMaybe(cfg, sc, tab, from)));
    PlacedSplit(k, ip, code, [StoreTo(x)]);
    if from.Absent? {
      Nothing(k, fr, m, [], ip);
      ExtentNil();
      ThenOp(k, fr, m, [], ip, m, [], ip, CONST(0), M.Effect([RT.Int(0)], m.heap, []));
      ThenStore(k, fr, m, [], ip, m, RT.Int(0), ip + Extent([CONST(0)]), x);
    } else {
      ExprRuns(k, fuel, cfg, sc, tab, from.expr, fr, m, [], ip);
      ThenStore(k, fr, m, [], ip, m1, start.value, ip + Extent(code), x);
    }
  }

  function StartCode(from: MaybeExpr, code: Code): Code { if from.Present? then code else [CONST(0)] }

  /** The start value in the loop variable. */
  function EvalStart(w: World, fuel: nat, cfg: Config, sc: Scope, from: MaybeExpr, x: Variable, m: Mem): Result<Mem> {
    var (start, m1) :- EvalMaybe(w, fuel, cfg, sc, from, m);
    Semantics.Write(m1, x, if start.Some? then start.value else RT.Int(0))
  }

  lemma {:induction false} ForRuns(k: Linked, fuel: nat, cfg: Config, env: GenEnv, s: Stmt, fr: Frame, m: Mem, ip: nat)
    requires IsFor(s) && StmtStart(k, fuel, cfg, env, s, fr, m, ip)
    ensures StmtDone(k, fuel, cfg, env, s, fr, m, ip)
    decreases fuel, s, 5
  {
    hide StringTable.Terminated, EmitStmt, EvalStmt, Computes, Loaded, Placed, Extent, EmitExpr, EvalExpr, EmitMaybe, EvalMaybe, EmitBlock,
      EvalBlock, EvalFor, LoopCode, ForTest, ForAdvance, SimpleGuard, Flows, AfterBlock, AfterStmt, Semantics.Write, Invoke, UnitPlaced, UnitAt,
      M.Reaches, M.Run, M.Step, M.Prim, M.Exec, EvalExprs, EmitExprs, EvalCallee, EmitCallee, RT.Binop, RT.VmBinop, RT.Equal, EvalCases, EmitCases;
    StmtParts(k, fuel, cfg, env, s, m);
    var h, x, sc := s.header, NextSlot(env.scope), env.scope;
    var (tab1, from) := EmitMaybe(cfg, sc, env.strings, h.from).value;
    var (tab2, to) := EmitMaybe(cfg, sc, tab1, h.to).value;
    var (tab3, given) := EmitMaybe(cfg, sc, tab2, h.step).value;
    var step := if h.step.Present? then given else [CONST(1)];
    var start := if h.from.Present? then from else [CONST(0)];
    var loop, end := Fresh("for_loop", env.labels), Fresh("for_end", env.labels + 1);
    var env1 := env.(scope := Allocate(sc, h.variable), strings := tab3, labels := env.labels + 2, ends := env.ends + [end]);
    var body := EmitBlock(cfg, env1, s.body).value.1;
    var test, advance := ForTest(h.to, x, step, to, SimpleGuard(h.step, to), end), ForAdvance(x, step);
    var code := LoopCode(loop, test, body, advance, end);
    PlacedSplit(k, ip, start + [StoreTo(x)], code);
    PlacedSplit(k, ip, start, [StoreTo(x)]);
    var at := ip + Extent(start + [StoreTo(x)]);
    LoopPlaces(k, at, loop, test, body, advance, end);
    StartRuns(k, fuel, cfg, sc, env.strings, h.from, x, fr, m, ip);
    var (v, m1) := EvalMaybe(k.w, fuel, cfg, sc, h.from, m).value;
    var m2 := Semantics.Write(m1, x, if v.Some? then v.value else RT.Int(0)).value;
    ForLoopRuns(k, fuel, cfg, env1, env.ends, sc, tab2, tab1, s, step, to, loop, end, fr, m2, at);
    var (flow, m') := EvalFor(k.w, fuel, cfg, sc, s, m2).value;
    ThenFlow(k, env.ends, fr, m, ip, m2, at, flow, m', k.labels[end]);
  }

  // Selection

  lemma SubjectRuns(k: Linked, cfg: Config, sc: Scope, subject: Subject, fr: Frame, m: Mem, temps: seq<Value>, ip: nat)
    requires Ready(k, m, fr) && StandsAlone(k, ip, EmitSubject(cfg, sc, subject)) && EvalSubject(k.w, cfg, sc, subject, m).Ok?
    ensures match EmitSubject(cfg, sc, subject)
      case Ok(code) => Gives(k, fr, m, temps, ip, EvalSubject(k.w, cfg, sc, subject, m), Past(ip, code))
      case Err(_) => true
  {
    hide Computes, Loaded, Placed, Extent, EmitName, EvalName, Semantics.Read, EvalStmt, EmitStmt, EvalBlock, EmitBlock, Invoke, UnitPlaced, UnitAt,
      M.Reaches, M.Run, M.Step, M.Prim, M.Exec, EvalExpr, EmitExpr, EvalExprs, EmitExprs, EvalMaybe, EmitMaybe, EvalCallee, EmitCallee, RT.Binop,
      RT.VmBinop, RT.Equal, RT.CallBuiltin, AfterStmt, AfterBlock, Flows, At, EvalLoop, EvalCases, EmitCases;
    if subject.Reread? {
      NameRuns(k, cfg, sc, subject.name, fr, m, temps, ip);
    } else {
      Nothing(k, fr, m, temps, ip);
      ExtentNil();
      ThenLoad(k, fr, m, temps, ip, m, [], ip, subject.slot);
      NoTemps();
    }
  }

  lemma {:induction false} BindRuns(k: Linked, cfg: Config, sc: Scope, subject: Subject, names: seq<Expr>, i: nat, fr: Frame, m: Mem, ip: nat)
    requires Ready(k, m, fr)
    requires match EmitBindings(cfg, sc, subject, names, i) case Ok((_, code)) => Placed(k, ip, code) case Err(_) => false
    requires BindFields(k.w, cfg, sc, subject, names, i, m).Ok?
    ensures match EmitBindings(cfg, sc, subject, names, i)
      case Ok((_, code)) => Changes(k, fr, m, [], ip, BindFields(k.w, cfg, sc, subject, names, i, m), Past(ip, code))
      case Err(_) => true
    decreases |names|
  {
    hide Computes, Loaded, Placed, Extent, EmitSubject, EvalSubject, RT.Field, Semantics.Write, EvalStmt, EmitStmt, EvalBlock, EmitBlock, Invoke,
      UnitPlaced, UnitAt, M.Reaches, M.Run, Emits, Finishes;
    if names == [] {
      Nothing(k, fr, m, [], ip);
    } else {
      var load, x := EmitSubject(cfg, sc, subject).value, NextSlot(sc);
      var sc1 := Allocate(sc, names[0].name);
      var rest := EmitBindings(cfg, sc1, subject, names[1..], i + 1).value.1;
      var (v, m1) := EvalSubject(k.w, cfg, sc, subject, m).value;
      var field := RT.Field(m1.heap, v, i).value;
      var m2 := Semantics.Write(m1, x, field).value;
      PlacedSplit(k, ip, load + [FIELD(i)] + [StoreTo(x)], rest);
      PlacedSplit(k, ip, load + [FIELD(i)], [StoreTo(x)]);
      PlacedSplit(k, ip, load, [FIELD(i)]);
      SubjectRuns(k, cfg, sc, subject, fr, m, [], ip);
      ThenOp(k, fr, m, [], ip, m1, [v], ip + Extent(load), FIELD(i), M.Effect([field], m1.heap, []));
      ThenStore(k, fr, m, [], ip, m1, field, ip + Extent(load + [FIELD(i)]), x);
      var at := ip + Extent(load + [FIELD(i)] + [StoreTo(x)]);
      BindRuns(k, cfg, sc1, subject, names[1..], i + 1, fr, m2, at);
      NoTemps();
      Then(k, fr, m, [], ip, m2, [], at, BindFields(k.w, cfg, sc1, subject, names[1..], i + 1, m2).value, [], at + Extent(rest));
    }
  }

  lemma {:induction false} CaseTestRuns(k: Linked, fuel: nat, cfg: Config, sc: Scope, tab: Strings, subject: Subject, c: Case,
                                        fr: Frame, m: Mem, ip: nat)
    requires Ready(k, m, fr)
    requires Stands(k, ip, EmitTest(cfg, sc, tab, subject, c)) && EvalTest(k.w, fuel, cfg, sc, subject, c, m).Ok?
    ensures match EvalTest(k.w, fuel, cfg, sc, subject, c, m)
      case Ok((matches, m')) => Computes(k, fr, m, [], ip, m', [RT.Bool(matches)], Past(ip, CodeOf(EmitTest(cfg, sc, tab, subject, c))))
      case Err(_) => true
    decreases fuel, c, 0
  {
    hide Computes, Loaded, Placed, Extent, EmitExpr, EvalExpr, EmitSubject, EvalSubject, RT.Binop, RT.VmBinop, RT.MatchesVariant, EvalStmt,
      EvalCallee, EmitCallee, RT.Equal, RT.CallBuiltin, AfterStmt, AfterBlock, Flows, At, EvalLoop, EvalCases, EmitCases, M.Reaches;
    var load := EmitSubject(cfg, sc, subject).value;
    var (v, m1) := EvalSubject(k.w, cfg, sc, subject, m).value;
    if PatternOf(cfg, c.values[0]).Constructor? {
      var i := ISVARIANT(PatternOf(cfg, c.values[0]).info.schema);
      PlacedSplit(k, ip, load, [i]);
      SubjectRuns(k, cfg, sc, subject, fr, m, [], ip);
      var matches := RT.MatchesVariant(k.w.lib, m1.heap, v, i.schema).value;
      ThenOp(k, fr, m, [], ip, m1, [v], ip + Extent(load), i, M.Effect([RT.Bool(matches)], m1.heap, []));
    } else {
      var (tab1, value) := EmitExpr(cfg, sc, tab, c.values[0]).value;
      var (p, m2) := EvalExpr(k.w, fuel, cfg, sc, c.values[0], m1).value;
      PlacedSplit(k, ip, load + value, [BINOP(EQ)]);
      PlacedSplit(k, ip, load, value);
      SubjectRuns(k, cfg, sc, subject, fr, m, [], ip);
      NoTemps();
      ExprRuns(k, fuel, cfg, sc, tab, c.values[0], fr, m1, [] + [v], ip + Extent(load));
      ThenBinop(k, fr, m, [], ip, m1, v, ip + Extent(load), m2, p, ip + Extent(load + value), EQ);
    }
  }

  /** Offsets of the pieces of a case. */
  lemma CasePlaces(k: Linked, ip: nat, test: Code, next: string, bind: Code, body: Code, end: string)
    returns (bindAt: nat, bodyAt: nat)
    requires Placed(k, ip, CaseCode(test, next, bind, body, end))
    ensures bindAt == ip + Extent(test) + Extent([LeaveUnless(next)]) && bodyAt == bindAt + Extent(bind)
    ensures Placed(k, ip, test) && Placed(k, ip + Extent(test), [LeaveUnless(next)])
    ensures Placed(k, bindAt, bind) && Placed(k, bodyAt, body) && Placed(k, bodyAt + Extent(body), [JMP(Named(end))])
    ensures next in k.labels && k.labels[next] == ip + Extent(CaseCode(test, next, bind, body, end))
  {
    hide Placed, Extent;
    var c1 := test + [LeaveUnless(next)];
    var c2 := c1 + bind;
    var c3 := c2 + body;
    PlacedSplit(k, ip, c3, [JMP(Named(end))] + [LABEL(next)]);
    PlacedSplit(k, ip + Extent(c3), [JMP(Named(end))], [LABEL(next)]);
    PlacedSplit(k, ip, c2, body);
    PlacedSplit(k, ip, c1, bind);
    PlacedSplit(k, ip, test, [LeaveUnless(next)]);
    PlacedLabel(k, ip + Extent(c3) + Extent([JMP(Named(end))]), next);
    bindAt := ip + Extent(c1);
    bodyAt := bindAt + Extent(bind);
  }

  ghost predicate CasesStart(k: Linked, fuel: nat, cfg: Config, env: GenEnv, subject: Subject, end: string, cases: seq<Case>, fr: Frame, m: Mem, ip: nat) {
    && Emits(k, m, fr, env, EmitCases(cfg, env, subject, end, cases), ip) && end in k.labels
    && EvalCases(k.w, fuel, cfg, env.scope, subject, cases, m).Ok?
  }

  /** A case that matched left the statement; without one control falls through. */
  ghost predicate CasesDone(k: Linked, fuel: nat, cfg: Config, env: GenEnv, subject: Subject, end: string, cases: seq<Case>, fr: Frame, m: Mem, ip: nat) {
    match (EmitCases(cfg, env, subject, end, cases), EvalCases(k.w, fuel, cfg, env.scope, subject, cases, m))
    case (Ok((_, code)), Ok((flow, m'))) => Passes(k, env.ends, fr, m, ip, flow, m', Here(k, end), Past(ip, code))
    case _ => true
  }

  /** Out to `out` if a case was taken, else on to `next`. */
  ghost predicate Passes(k: Linked, ends: seq<string>, fr: Frame, m: Mem, ip: nat, flow: Option<Flow>, m': Mem, out: nat, next: nat) {
    match flow
    case Some(taken) => Flows(k, ends, fr, m, ip, taken, m', out)
    case None => Computes(k, fr, m, [], ip, m', [], next)
  }

  lemma {:induction false} CasesRun(k: Linked, fuel: nat, cfg: Config, env: GenEnv, subject: Subject, end: string, cases: seq<Case>,
                                    fr: Frame, m: Mem, ip: nat)
    requires CasesStart(k, fuel, cfg, env, subject, end, cases, fr, m, ip)
    ensures CasesDone(k, fuel, cfg, env, subject, end, cases, fr, m, ip)
    decreases fuel, cases, 1
  {
    hide StringTable.Terminated, StringTable.Intern, EvalStmt, Computes, Loaded, Placed, Extent, EmitTest, EvalTest, EmitBlock, EvalBlock,
      EmitBindings, BindFields, CaseCode, Flows, AfterBlock, BindAll;
    if cases == [] {
      Nothing(k, fr, m, [], ip);
    } else {
      var c, next := cases[0], Fresh("match_next", env.labels);
      var (env1, first) := EmitCase(cfg, env, subject, end, c).value;
      var rest := EmitCases(cfg, env1, subject, end, cases[1..]).value.1;
      var (tab, test) := EmitTest(cfg, env.scope, env.strings, subject, c).value;
      var (sc, bind) := EmitBindings(cfg, env.scope, subject, Bindings(cfg, c), 0).value;
      var env0 := env.(scope := sc, strings := tab, labels := env.labels + 1);
      var body := EmitBlock(cfg, env0, c.body).value.1;
      PlacedSplit(k, ip, first, rest);
      var bindAt, bodyAt := CasePlaces(k, ip, test, next, bind, body, end);
      CaseTestRuns(k, fuel, cfg, env.scope, env.strings, subject, c, fr, m, ip);
      var (matches, m1) := EvalTest(k.w, fuel, cfg, env.scope, subject, c, m).value;
      ThenBranch(k, fr, m, ip, m1, matches, ip + Extent(test), next);
      var (flow, m') := EvalCases(k.w, fuel, cfg, env.scope, subject, cases, m).value;
      if matches {
        var m2 := BindFields(k.w, cfg, env.scope, subject, Bindings(cfg, c), 0, m1).value;
        BindRuns(k, cfg, env.scope, subject, Bindings(cfg, c), 0, fr, m1, bindAt);
        NoTemps();
        Then(k, fr, m, [], ip, m1, [], bindAt, m2, [], bodyAt);
        BlockRuns(k, fuel, cfg, env0, c.body, fr, m2, bodyAt);
        FlowJump(k, env.ends, fr, m2, bodyAt, flow.value, m', bodyAt + Extent(body), end);
        ThenFlow(k, env.ends, fr, m, ip, m2, bodyAt, flow.value, m', k.labels[end]);
      } else {
        CasesRun(k, fuel, cfg, env1, subject, end, cases[1..], fr, m1, ip + Extent(first));
        CasesLater(k, env.ends, end, fr, m, ip, m1, ip + Extent(first), flow, m', ip + Extent(first + rest));
      }
    }
  }

  lemma CasesLater(k: Linked, ends: seq<string>, end: string, fr: Frame, m: Mem, ip: nat, m1: Mem, ip1: nat, flow: Option<Flow>, m': Mem, next: nat)
    requires Computes(k, fr, m, [], ip, m1, [], ip1) && Passes(k, ends, fr, m1, ip1, flow, m', Here(k, end), next)
    ensures Passes(k, ends, fr, m, ip, flow, m', Here(k, end), next)
  {
    hide Computes, Flows;
    NoTemps();
    if flow.Some? {
      ThenFlow(k, ends, fr, m, ip, m1, ip1, flow.value, m', Here(k, end));
    } else {
      Then(k, fr, m, [], ip, m1, [], ip1, m', [], next);
    }
  }

  lemma MatchPlaces(k: Linked, ip: nat, hold: Code, cases: Code, other: Code, end: string)
    requires Placed(k, ip, hold + cases + other + [LABEL(end)])
    ensures Placed(k, ip, hold) && Placed(k, ip + Extent(hold), cases) && Placed(k, ip + Extent(hold) + Extent(cases), other)
    ensures end in k.labels && k.labels[end] == ip + Extent(hold) + Extent(cases) + Extent(other)
    ensures k.labels[end] == ip + Extent(hold + cases + other + [LABEL(end)])
  {
    hide Placed, Extent;
    PlacedSplit(k, ip, hold + cases + other, [LABEL(end)]);
    PlacedSplit(k, ip, hold + cases, other);
    PlacedSplit(k, ip, hold, cases);
    PlacedLabel(k, ip + Extent(hold + cases + other), end);
  }

  lemma {:induction false} HoldRuns(k: Linked, fuel: nat, cfg: Config, sc: Scope, tab: Strings, subject: Expr, x: Variable, fr: Frame, m: Mem, ip: nat)
    requires Ready(k, m, fr) && EvalHeld(k.w, fuel, cfg, sc, subject, x, m).Ok?
    requires match EmitExpr(cfg, sc, tab, subject)
      case Ok((tab', code)) => tab' <= k.img.strings && Placed(k, ip, code + [StoreTo(x)])
      case Err(_) => false
    ensures Changes(k, fr, m, [], ip, EvalHeld(k.w, fuel, cfg, sc, subject, x, m), Past(ip, CodeOf(EmitExpr(cfg, sc, tab, subject)) + [StoreTo(x)]))
    decreases fuel, subject, 3
  {
    hide EmitStmt, EvalStmt, Computes, Loaded, Placed, Extent, EmitExpr, EvalExpr, Semantics.Write;
    var code := EmitExpr(cfg, sc, tab, subject).value.1;
    var (v, m1) := EvalExpr(k.w, fuel, cfg, sc, subject, m).value;
    PlacedSplit(k, ip, code, [StoreTo(x)]);
    ExprRuns(k, fuel, cfg, sc, tab, subject, fr, m, [], ip);
    ThenStore(k, fr, m, [], ip, m1, v, ip + Extent(code), x);
  }

  lemma {:induction false} MatchRuns(k: Linked, fuel: nat, cfg: Config, env: GenEnv, s: Stmt, fr: Frame, m: Mem, ip: nat)
    requires s.ValueMatch? && StmtStart(k, fuel, cfg, env, s, fr, m, ip)
    ensures StmtDone(k, fuel, cfg, env, s, fr, m, ip)
    decreases fuel, s, 5
  {
    hide EmitStmt, EvalStmt, Computes, Loaded, Placed, Extent, EmitExpr, EvalExpr, EmitCases, EvalCases, EmitElse, EvalElse, EvalHeld, Flows,
      AfterCases, AfterElse, AfterStmt, AfterBlock, HiddenName, EvalBlock, RT.Binop, RT.VmBinop, RT.Equal, RT.CallBuiltin, At, EvalLoop;
    StmtParts(k, fuel, cfg, env, s, m);
    var plain, x := s.subject.Name?, NextSlot(env.scope);
    var sc := if plain then env.scope else Allocate(env.scope, HiddenName("match", s.span));
    var hold := if plain then [] else EmitExpr(cfg, sc, env.strings, s.subject).value.1 + [StoreTo(x)];
    var tab := if plain then env.strings else EmitExpr(cfg, sc, env.strings, s.subject).value.0;
    var subject, end := if plain then Reread(s.subject.name) else Held(x), Fresh("match_end", env.labels);
    var env1 := env.(scope := sc, strings := tab, labels := env.labels + 1);
    var (env2, cases) := EmitCases(cfg, env1, subject, end, s.cases).value;
    var other := EmitElse(cfg, env2, s.elseBody).value.1;
    MatchPlaces(k, ip, hold, cases, other, end);
    var m1 := if plain then m else EvalHeld(k.w, fuel, cfg, sc, s.subject, x, m).value;
    if plain {
      Nothing(k, fr, m, [], ip);
    } else {
      HoldRuns(k, fuel, cfg, sc, env.strings, s.subject, x, fr, m, ip);
    }
    var casesAt, otherAt := ip + Extent(hold), ip + Extent(hold) + Extent(cases);
    CasesRun(k, fuel, cfg, env1, subject, end, s.cases, fr, m1, casesAt);
    var (chosen, m2) := EvalCases(k.w, fuel, cfg, sc, subject, s.cases, m1).value;
    CasesLater(k, env.ends, end, fr, m, ip, m1, casesAt, chosen, m2, otherAt);
    if chosen.None? {
      var (flow, m') := EvalElse(k.w, fuel, cfg, env2.scope, s.elseBody, m2).value;
      ElseRuns(k, fuel, cfg, env2, s.elseBody, fr, m2, otherAt);
      ThenFlow(k, env.ends, fr, m, ip, m2, otherAt, flow, m', k.labels[end]);
    }
  }
}
