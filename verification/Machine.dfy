/** The virtual machine on values (crates/vm-interp/src/interpreter.rs): one operand stack
    holding globals, frames and temporaries, addressed by code offsets. Reference counting
    is added in CountedMachine. */
module Machine {
  import opened Results
  import opened Bytecode
  import opened Numbers
  import opened Encoding
  import opened Assembly
  import opened Runtime
  import StringTable

  const MAX_STACK: nat := 65536
  /** Closure slot, argument count, local count, return frame pointer, return ip. */
  const META: nat := 5

  datatype Image = Image(program: Program, strings: seq<Byte>, globals: nat, lib: Library)

  datatype State = State(
    stack: seq<Value>, heap: Heap, ip: nat, fp: nat, argc: nat, locc: nat, log: seq<Event>)

  datatype Outcome = Running(state: State) | Halted(state: State) | Failed(fault: Fault)

  // Instructions that only pop operands and push results

  /** Values pushed, and the new heap and output. */
  datatype Effect = Effect(pushes: seq<Value>, heap: Heap, events: seq<Event>)

  function WriteCount(n: int): nat { n % NEWLINE_FLAG }

  predicate WriteNewline(n: int) { n / NEWLINE_FLAG % 2 != 0 }

  predicate IsControl(i: Instr) {
    i.NOP? || i.LINE? || i.LABEL? || i.JMP? || i.CJMP? || i.CALL? || i.CALLC? || i.BEGIN? || i.END?
    || i.LOAD? || i.STORE?
  }

  /** How many operands a handler takes off the stack. */
  function Pops(lib: Library, i: Instr): nat {
    if i.CONST? || i.CONSTF? || i.BOOL? || i.NULL? || i.STRING? || i.CLOSURE? then 0
    else if i.TUPLE? then (if i.n < 0 then 0 else i.n)
    else if i.VARIANT? then (if 0 <= i.schema < |lib.schemas| then |lib.schemas[i.schema].fields| else 0)
    else if i.CALLBUILTIN? && i.name == Lwrite then WriteCount(i.n)
    else if i.CALLBUILTIN? && i.name == Lread then 0
    else if i.SLICE? then 1 + i.bounds % 2 + i.bounds / 2 % 2
    else if i.STA? then 3
    else if i.BINOP? || i.ELEM? || i.SETFIELD? || i.STS? || i.SWAP? then 2
    else 1
  }

  function One(r: Result<(Value, Heap)>): Result<Effect> {
    var (v, h) :- r;
    Ok(Effect([v], h, []))
  }

  function NoPush(r: Result<Heap>): Result<Effect> {
    var h :- r;
    Ok(Effect([], h, []))
  }

  /** The effect of such an instruction on its operands, deepest first. */
  function Prim(img: Image, i: Instr, h: Heap, ops: seq<Value>): Result<Effect>
    requires |ops| == Pops(img.lib, i)
  {
    if i.CONST? then One(Ok((Int(AsI32(i.value)), h)))
    else if i.BOOL? then One(Ok((Bool(i.flag), h)))
    else if i.CONSTF? then One(Ok((Flt(i.double), h)))
    else if i.NULL? then One(Ok(Alloc(h, Null)))
    else if i.STRING? then
      var bytes :- StringTable.StringAt(img.strings, i.offset);
      One(NewText(h, bytes))
    else if i.CLOSURE? then
      if i.dest.offset.None? || i.dest.offset.value < 0 || i.arity < 0 then Err(Undefined)
      else One(Ok(Alloc(h, Callable(i.dest.offset.value, i.arity))))
    else if i.TUPLE? then
      if i.n < 0 then Err(Undefined) else One(Ok(Alloc(h, Tuple(ops))))
    else if i.VARIANT? then One(NewVariant(img.lib, h, i.schema, ops))
    else if i.BINOP? then One(VmBinop(img.lib, h, i.op, ops[0], ops[1]))
    else if i.UNARY? then One(Unop(img.lib, h, i.uop, ops[0]))
    else if i.ELEM? then One(Elem(h, ops[0], ops[1]))
    else if i.SLICE? then
      One(SliceOf(h, ops[0],
        if i.bounds % 2 == 1 then Some(ops[1]) else None,
        if i.bounds / 2 % 2 == 1 then Some(ops[1 + i.bounds % 2]) else None))
    else if i.FIELD? then
      var v :- Field(h, ops[0], i.index);
      One(Ok((v, h)))
    else if i.SETFIELD? then NoPush(SetField(h, ops[1], i.index, ops[0]))
    else if i.ISVARIANT? then
      var m :- MatchesVariant(img.lib, h, ops[0], i.schema);
      One(Ok((Bool(m), h)))
    else if i.VARIANTTAG? then
      var tag :- TagOf(img.lib, h, ops[0]);
      One(Ok((Int(AsI32(tag)), h)))
    else if i.STA? then
      // operands, deepest first: value, index, aggregate
      var h' :- SetItem(h, ops[2], ops[1], ops[0]);
      One(Ok((ops[2], h')))
    else if i.STS? then NoPush(SliceAssign(h, ops[1], ops[0]))
    else if i.CALLBUILTIN? then
      if i.name == Lwrite then
        var events :- Write(img.lib, h, ops, WriteNewline(i.n));
        Ok(Effect([], h, events))
      else if i.name == Lread then Err(NotImplemented)
      else One(CallBuiltin(img.lib, h, i.name, ops[0]))
    else if i.DROP? then Ok(Effect([], h, []))
    else if i.DUP? then Ok(Effect([ops[0], ops[0]], h, []))
    else if i.SWAP? then Ok(Effect([ops[1], ops[0]], h, []))
    else Err(NotImplemented)
  }

  /** The instruction takes exactly these operands, and does this. */
  predicate Performs(img: Image, i: Instr, h: Heap, ops: seq<Value>, e: Effect) {
    |ops| == Pops(img.lib, i) && Prim(img, i, h, ops) == Ok(e)
  }

  // Single instructions, for proofs that look at nothing else

  lemma DropPerforms(img: Image, h: Heap, v: Value)
    ensures Performs(img, DROP, h, [v], Effect([], h, []))
  {
  }

  lemma FieldPerforms(img: Image, h: Heap, v: Value, index: int, x: Value)
    requires Field(h, v, index) == Ok(x)
    ensures Performs(img, FIELD(index), h, [v], Effect([x], h, []))
  {
  }

  lemma WritePerforms(img: Image, h: Heap, vs: seq<Value>, n: int, events: seq<Event>)
    requires WriteCount(n) == |vs| && Write(img.lib, h, vs, WriteNewline(n)) == Ok(events)
    ensures Performs(img, CALLBUILTIN(Lwrite, n), h, vs, Effect([], h, events))
  {
  }

  lemma StoreItemPerforms(img: Image, h: Heap, v: Value, i: Value, c: Value, h': Heap)
    requires SetItem(h, c, i, v) == Ok(h')
    ensures Performs(img, STA, h, [v, i, c], Effect([c], h', []))
  {
  }

  lemma StoreSlicePerforms(img: Image, h: Heap, v: Value, slice: Value, h': Heap)
    requires SliceAssign(h, slice, v) == Ok(h')
    ensures Performs(img, STS, h, [v, slice], Effect([], h', []))
  {
  }

  /** Popping stops at the globals, pushing at the stack limit. */
  function ExecPrim(img: Image, i: Instr, s: State): Outcome {
    var k := Pops(img.lib, i);
    if |s.stack| < img.globals + k then Failed(StackUnderflow)
    else
      var rest := |s.stack| - k;
      match Prim(img, i, s.heap, s.stack[rest..])
      case Err(e) => Failed(e)
      case Ok(effect) =>
        if rest + |effect.pushes| > MAX_STACK then Failed(StackOverflow)
        else Running(s.(stack := s.stack[..rest] + effect.pushes, heap := effect.heap, log := s.log + effect.events))
  }

  // Variables

  /** The stack slot of a variable of the current frame. */
  function SlotOf(globals: nat, size: nat, fp: nat, argc: nat, locc: nat, rel: ValueRel, index: int): Result<nat> {
    if index < 0 then Err(OutOfBounds)
    else match rel
      case Global => if index < globals <= size then Ok(index) else Err(OutOfBounds)
      case Local => if index < locc && fp + META + index < size then Ok(fp + META + index) else Err(NotEnoughArguments)
      case Arg => if index < argc <= fp + index && fp - argc + index < size then Ok(fp - argc + index) else Err(NotEnoughArguments)
      case Capture => Err(NotImplemented)
  }

  function Slot(img: Image, s: State, rel: ValueRel, index: int): Result<nat> {
    SlotOf(img.globals, |s.stack|, s.fp, s.argc, s.locc, rel, index)
  }

  function ExecLoad(img: Image, s: State, rel: ValueRel, index: int): Outcome {
    match Slot(img, s, rel, index)
    case Err(e) => Failed(e)
    case Ok(slot) =>
      if slot >= |s.stack| then Failed(OutOfBounds)
      else if |s.stack| >= MAX_STACK then Failed(StackOverflow)
      else Running(s.(stack := s.stack + [s.stack[slot]]))
  }

  function ExecStore(img: Image, s: State, rel: ValueRel, index: int): Outcome {
    if |s.stack| <= img.globals then Failed(StackUnderflow)
    else
      var top := |s.stack| - 1;
      var popped := s.(stack := s.stack[..top]);
      match Slot(img, popped, rel, index)
      case Err(e) => Failed(e)
      case Ok(slot) =>
        if slot >= top then Failed(OutOfBounds)
        else Running(s.(stack := s.stack[..top][slot := s.stack[top]]))
  }

  // Control

  function Jump(s: State, dest: Label): Outcome {
    if dest.offset.None? || dest.offset.value < 0 then Failed(EndOfCode)
    else Running(s.(ip := dest.offset.value))
  }

  function ExecCjmp(img: Image, s: State, dest: Label, kind: JumpKind): Outcome {
    if |s.stack| <= img.globals then Failed(StackUnderflow)
    else
      var top := |s.stack| - 1;
      var v, s' := s.stack[top], s.(stack := s.stack[..top]);
      if !v.Bool? then Failed(TypeMismatch)
      else if v.b == kind.ISNONZERO? then Jump(s', dest)
      else Running(s')
  }

  /** Pushes the return ip; BEGIN of the callee collects it. */
  function ExecCall(s: State, dest: Label): Outcome {
    if |s.stack| >= MAX_STACK then Failed(StackOverflow)
    else Jump(s.(stack := s.stack + [Int(AsI32(s.ip))]), dest)
  }

  function ExecCallc(s: State, n: int): Outcome {
    if n < 0 || |s.stack| < n + 1 then Failed(NotEnoughArguments)
    else
      var k := |s.stack| - n - 1;
      match Deref(s.heap, s.stack[k])
      case None => Failed(TypeMismatch)
      case Some(o) =>
        if !o.Callable? then Failed(TypeMismatch)
        else if o.arity != n then Failed(ArityMismatch)
        else if |s.stack| > MAX_STACK then Failed(StackOverflow)
        else Running(s.(stack := s.stack[..k] + s.stack[k + 1..] + [Int(AsI32(s.ip))], ip := o.entry))
  }

  function FrameMeta(args: nat, locals: nat, fp: nat, ret: Value): (meta: seq<Value>)
    ensures |meta| == META
  {
    [Int(0), Int(AsI32(args)), Int(AsI32(locals)), Int(AsI32(fp)), ret]
  }

  /** The argument operand packs a stack size above its low 16 bits. */
  function ExecBegin(img: Image, s: State, payload: int, locals: int): Outcome {
    if locals < 0 then Failed(NotEnoughArguments)
    else if payload < 0 || |s.stack| + payload / 65536 > MAX_STACK then Failed(StackOverflow)
    else if |s.stack| <= img.globals then Failed(NotEnoughArguments)
    else
      var args, top := payload % 65536, |s.stack| - 1;
      if top < args then Failed(NotEnoughArguments)
      else if top + META + locals > MAX_STACK then Failed(StackOverflow)
      else
        Running(s.(
          stack := s.stack[..top] + FrameMeta(args, locals, s.fp, s.stack[top]) + Zeros(locals),
          fp := top, argc := args, locc := locals))
  }

  function AsIndex(v: Value): Result<nat> {
    var n :- Unbox(v);
    if n < 0 then Err(Undefined) else Ok(n)
  }

  /** Leaves the frame: its arguments, metadata and locals go, the result stays. */
  function ExecEnd(img: Image, s: State): Outcome {
    if |s.stack| <= img.globals then Failed(NotEnoughArguments)
    else
      var top := |s.stack| - 1;
      var result := s.stack[top];
      if top < s.fp + META + s.locc || s.fp < s.argc then Failed(NotEnoughArguments)
      else match (AsIndex(s.stack[s.fp + 3]), AsIndex(s.stack[s.fp + 4]))
        case (Ok(fp), Ok(ip)) => Leave(img, s, s.stack[..s.fp - s.argc] + [result], fp, ip)
        case _ => Failed(Undefined)
  }

  function Leave(img: Image, s: State, stack: seq<Value>, fp: nat, ip: nat): Outcome {
    var back := s.(stack := stack, fp := fp, ip := ip);
    if fp == img.globals then Halted(back)
    else if |stack| <= fp + 2 then Failed(NotEnoughArguments)
    else match (AsIndex(stack[fp + 1]), AsIndex(stack[fp + 2]))
      case (Ok(argc), Ok(locc)) => Running(back.(argc := argc, locc := locc))
      case _ => Failed(Undefined)
  }

  /** One instruction; `s.ip` is already past its operands. */
  function Exec(img: Image, i: Instr, s: State): Outcome {
    if i.NOP? || i.LINE? || i.LABEL? then Running(s)
    else if i.JMP? then Jump(s, i.dest)
    else if i.CJMP? then ExecCjmp(img, s, i.dest, i.kind)
    else if i.CALL? then ExecCall(s, i.dest)
    else if i.CALLC? then ExecCallc(s, i.arity)
    else if i.BEGIN? then ExecBegin(img, s, i.args, i.locals)
    else if i.END? then ExecEnd(img, s)
    else if i.LOAD? then ExecLoad(img, s, i.rel, i.index)
    else if i.STORE? then ExecStore(img, s, i.rel, i.index)
    else ExecPrim(img, i, s)
  }

  function Step(img: Image, s: State): Outcome {
    if s.ip in img.program then
      Exec(img, img.program[s.ip].instr, s.(ip := img.program[s.ip].next))
    else Failed(InvalidOpcode)
  }

  // What single steps do

  lemma PrimStep(img: Image, s: State, t: Instr, next: nat)
    requires s.ip in img.program && img.program[s.ip] == Decoded(t, next) && !IsControl(t)
    ensures Step(img, s) == ExecPrim(img, t, s.(ip := next))
  {
    hide ExecPrim;
  }

  lemma BeginStep(img: Image, s: State, args: nat, locals: nat)
    requires s.ip in img.program && img.program[s.ip].instr == BEGIN(args, locals) && args < 65536
    requires img.globals < |s.stack| <= MAX_STACK && |s.stack| - 1 >= args
    ensures var top := |s.stack| - 1;
      Step(img, s) == if top + META + locals > MAX_STACK then Failed(StackOverflow)
        else Running(s.(stack := s.stack[..top] + FrameMeta(args, locals, s.fp, s.stack[top]) + Zeros(locals),
               ip := img.program[s.ip].next, fp := top, argc := args, locc := locals))
  {
    hide FrameMeta, ExecPrim, ExecEnd, ExecCall, ExecCallc, ExecLoad, ExecStore, ExecCjmp;
  }

  /** What END does to the state. */
  lemma EndStep(img: Image, s: State, fp: nat, ip: nat)
    requires s.ip in img.program && img.program[s.ip].instr == END
    requires |s.stack| == s.fp + META + s.locc + 1 && s.fp >= s.argc && |s.stack| > img.globals
    requires s.stack[s.fp + 3] == Int(fp) && s.stack[s.fp + 4] == Int(ip)
    ensures var t := s.(ip := img.program[s.ip].next);
      Step(img, s) == Leave(img, t, s.stack[..s.fp - s.argc] + [s.stack[|s.stack| - 1]], fp, ip)
  {
    hide Leave, ExecPrim, ExecBegin, ExecCall, ExecCallc, ExecLoad, ExecStore, ExecCjmp;
  }

  lemma LeaveStep(img: Image, t: State, stack: seq<Value>, fp: nat, ip: nat, argc: nat, locc: nat)
    requires fp != img.globals && |stack| > fp + 2 && stack[fp + 1] == Int(argc) && stack[fp + 2] == Int(locc)
    ensures Leave(img, t, stack, fp, ip) == Running(t.(stack := stack, fp := fp, ip := ip, argc := argc, locc := locc))
  {
  }

  /** The state after `n` steps, or where the run stopped before. */
  function Run(img: Image, s: State, n: nat): Outcome
    decreases n
  {
    if n == 0 then Running(s)
    else match Step(img, s)
      case Running(s') => Run(img, s', n - 1)
      case Halted(s') => Halted(s')
      case Failed(e) => Failed(e)
  }

  /** The start of a run: globals, then an emulated call whose frame main returns to. */
  function Boot(img: Image, main: nat): State {
    State(Zeros(img.globals) + [Int(0), Int(2)] + Zeros(6), [], main, img.globals, 2, 0, [])
  }

  // Reachability

  /** Some number of steps leads from `s` to `t`, unless the stack limit stops the run. */
  ghost predicate Reaches(img: Image, s: State, t: State) {
    exists n: nat :: Run(img, s, n) in {Running(t), Failed(StackOverflow)}
  }

  ghost predicate Halts(img: Image, s: State, t: State) {
    exists n: nat :: Run(img, s, n) in {Halted(t), Failed(StackOverflow)}
  }

  lemma {:induction false} RunJoin(img: Image, s: State, m: nat, t: State, n: nat)
    requires Run(img, s, m) == Running(t)
    ensures Run(img, s, m + n) == Run(img, t, n)
    decreases m
  {
    hide Step;
    if m > 0 {
      RunJoin(img, Step(img, s).state, m - 1, t, n);
    }
  }

  lemma ReachesSelf(img: Image, s: State)
    ensures Reaches(img, s, s)
  {
    assert Run(img, s, 0) == Running(s);
  }

  lemma ReachesByStep(img: Image, s: State, t: State)
    requires Step(img, s) in {Running(t), Failed(StackOverflow)}
    ensures Reaches(img, s, t)
  {
    assert Run(img, s, 1) in {Running(t), Failed(StackOverflow)} by {
      if Step(img, s).Running? { assert Run(img, t, 0) == Running(t); }
    }
  }

  lemma ReachesTrans(img: Image, s: State, t: State, u: State)
    requires Reaches(img, s, t) && Reaches(img, t, u)
    ensures Reaches(img, s, u)
  {
    var m: nat :| Run(img, s, m) in {Running(t), Failed(StackOverflow)};
    if Run(img, s, m) == Running(t) {
      var n: nat :| Run(img, t, n) in {Running(u), Failed(StackOverflow)};
      RunJoin(img, s, m, t, n);
    }
  }

  lemma ReachesThenHalts(img: Image, s: State, t: State, u: State)
    requires Reaches(img, s, t) && Step(img, t) == Halted(u)
    ensures Halts(img, s, u)
  {
    var m: nat :| Run(img, s, m) in {Running(t), Failed(StackOverflow)};
    if Run(img, s, m) == Running(t) {
      RunJoin(img, s, m, t, 1);
    }
  }
}
