/** The interpreter as it runs: one mutable operand stack, frame registers and a heap changed
    in place, driven by the bytes of the code section (crates/vm-interp/src/interpreter.rs).
    Every handler does what CountedMachine says of its instruction. */
module Interpreting {
  import opened Results
  import opened Bytecode
  import opened Numbers
  import opened Encoding
  import opened Assembly
  import opened RefCount
  import opened CountedMachine
  import opened Memories
  import M = Machine
  import RT = Runtime

  /** Continue with the next instruction, stop after main's END, or give up. */
  datatype Signal = Go | Stop | Fail(fault: Fault)

  class Interpreter {
    const code: seq<Byte>
    const strings: seq<Byte>
    const globals: nat
    const lib: RT.Library
    const memory: Memory
    var operandStack: seq<RVal>
    var framePointer: nat
    var frameArgCount: nat
    var frameLocalCount: nat
    var ip: nat
    var log: seq<RT.Event>

    function State(): RState
      reads this, memory
    {
      RState(operandStack, memory.Heap(), ip, framePointer, frameArgCount, frameLocalCount, log)
    }

    function Image(): M.Image { M.Image(DecodedAt(code), strings, globals, lib) }

    /** The handler left the interpreter as the counted machine leaves its state. */
    ghost predicate Agrees(o: ROutcome, r: Signal)
      reads this, memory
    {
      match o
      case Running(s) => r == Go && State() == s
      case Halted(s) => r == Stop && State() == s
      case Failed(_) => r.Fail?
    }

    /** Globals, then an emulated call of main. */
    constructor (code: seq<Byte>, strings: seq<Byte>, globals: nat, lib: RT.Library, main: nat)
      ensures fresh(memory) && Image() == M.Image(DecodedAt(code), strings, globals, lib)
      ensures State() == CountedBoot(Image(), main)
    {
      this.code, this.strings, this.globals, this.lib := code, strings, globals, lib;
      memory := new Memory();
      framePointer, frameArgCount, frameLocalCount, ip, log := globals, 2, 0, main, [];
      operandStack := [];
      new;
      PushZeros(globals);
      operandStack := operandStack + [RInt(0), RInt(2)];
      PushZeros(6);
    }

    method PushZeros(n: nat)
      modifies `operandStack
      ensures operandStack == old(operandStack) + IntZeros(n)
    {
      for i := 0 to n
        invariant operandStack == old(operandStack) + IntZeros(i)
      {
        operandStack := operandStack + [RInt(0)];
      }
    }

    // ---------------------------------------------------------------- stack

    method Push(v: RVal) returns (r: Signal)
      modifies `operandStack
      ensures r == (if old(|operandStack|) < M.MAX_STACK then Go else Fail(StackOverflow))
      ensures operandStack == if r.Go? then old(operandStack) + [v] else old(operandStack)
    {
      if |operandStack| >= M.MAX_STACK { return Fail(StackOverflow); }
      operandStack := operandStack + [v];
      return Go;
    }

    /** Never below the globals. */
    method Pop() returns (r: Signal, v: RVal)
      modifies `operandStack
      ensures r == (if old(|operandStack|) > globals then Go else Fail(StackUnderflow))
      ensures if r.Go? then old(operandStack) == operandStack + [v] else operandStack == old(operandStack)
    {
      if |operandStack| <= globals { return Fail(StackUnderflow), RInt(0); }
      v := operandStack[|operandStack| - 1];
      operandStack := operandStack[..|operandStack| - 1];
      return Go, v;
    }

    // ---------------------------------------------------------------- variables

    method EvalLoad(rel: ValueRel, index: int) returns (r: Signal)
      modifies `operandStack, memory
      ensures Agrees(CountedLoad(Image(), old(State()), rel, index), r)
    {
      hide Inc;
      var slot := M.SlotOf(globals, |operandStack|, framePointer, frameArgCount, frameLocalCount, rel, index);
      if slot.Err? || slot.value >= |operandStack| { return Fail(OutOfBounds); }
      var value := operandStack[slot.value];
      var ok := memory.IncRef(value);
      if !ok { return Fail(Undefined); }
      r := Push(value);
    }

    method EvalStore(rel: ValueRel, index: int) returns (r: Signal)
      modifies `operandStack, memory
      ensures Agrees(CountedStore(Image(), old(State()), rel, index), r)
    {
      hide Dec, M.SlotOf, DecodedAt, CountedStore;
      var value;
      ghost var s := State();
      r, value := Pop();
      if |s.stack| > globals { StoreIs(Image(), s, operandStack, value, rel, index); } else { NothingToStore(Image(), s, rel, index); }
      if r.Fail? { return; }
      var slot := M.SlotOf(globals, |operandStack|, framePointer, frameArgCount, frameLocalCount, rel, index);
      if slot.Err? || slot.value >= |operandStack| { return Fail(OutOfBounds); }
      var was := operandStack[slot.value];
      operandStack := operandStack[slot.value := value];
      var ok := memory.DecRef(was);
      return if ok then Go else Fail(Undefined);
    }

    // ---------------------------------------------------------------- jumps and calls

    method EvalJmp(dest: Label) returns (r: Signal)
      modifies `ip
      ensures Agrees(CountedJump(old(State()), dest), r)
    {
      if dest.offset.None? || dest.offset.value < 0 { return Fail(EndOfCode); }
      ip := dest.offset.value;
      return Go;
    }

    method EvalCjmp(dest: Label, kind: JumpKind) returns (r: Signal)
      modifies `operandStack, `ip
      ensures Agrees(CountedCjmp(Image(), old(State()), dest, kind), r)
    {
      var v;
      r, v := Pop();
      if r.Fail? { return; }
      assert operandStack == old(operandStack)[..old(|operandStack|) - 1];
      if !v.RBool? { return Fail(TypeMismatch); }
      if v.b == kind.ISNONZERO? { r := EvalJmp(dest); }
    }

    method EvalCall(dest: Label) returns (r: Signal)
      modifies `operandStack, `ip
      ensures Agrees(CountedCall(old(State()), dest), r)
    {
      r := Push(RInt(AsI32(ip)));
      if r.Go? { r := EvalJmp(dest); }
    }

    /** The callable is taken out from under its arguments. */
    method EvalCallc(n: int) returns (r: Signal)
      modifies `operandStack, `ip, memory
      ensures Agrees(CountedCallc(old(State()), n), r)
    {
      hide Dec, View, ViewVal;
      if n < 0 || |operandStack| < n + 1 { return Fail(NotEnoughArguments); }
      var k := |operandStack| - n - 1;
      var callable := operandStack[k];
      var o := BodyAt(memory.Heap(), callable);
      if o.Err? || !o.value.Callable? { return Fail(TypeMismatch); }
      if o.value.arity != n { return Fail(ArityMismatch); }
      operandStack := operandStack[..k] + operandStack[k + 1..];
      var ok := memory.DecRef(callable);
      if !ok { return Fail(Undefined); }
      r := Push(RInt(AsI32(ip)));
      ip := o.value.entry;
    }

    /** The return address makes room for the frame's metadata and locals. */
    method EvalBegin(payload: int, locals: int) returns (r: Signal)
      modifies `operandStack, `framePointer, `frameArgCount, `frameLocalCount
      ensures Agrees(CountedBegin(Image(), old(State()), payload, locals), r)
    {
      if locals < 0 { return Fail(NotEnoughArguments); }
      if payload < 0 || |operandStack| + payload / 65536 > M.MAX_STACK { return Fail(StackOverflow); }
      var args, returnIp := payload % 65536, RInt(0);
      r, returnIp := Pop();
      if r.Fail? { return; }
      if |operandStack| < args { return Fail(NotEnoughArguments); }
      var returnFramePointer, base := framePointer, operandStack;
      framePointer, frameArgCount, frameLocalCount := |operandStack|, args, locals;
      r := PushMeta(CountedMeta(args, locals, returnFramePointer, returnIp));
      if r.Fail? { return; }
      r := PushMeta(IntZeros(locals));
    }

    method PushMeta(vs: seq<RVal>) returns (r: Signal)
      modifies `operandStack
      ensures r == (if old(|operandStack|) + |vs| <= M.MAX_STACK || vs == [] then Go else Fail(StackOverflow))
      ensures r.Go? ==> operandStack == old(operandStack) + vs
    {
      r := Go;
      for i := 0 to |vs|
        invariant operandStack == old(operandStack) + vs[..i]
        invariant i > 0 ==> |operandStack| <= M.MAX_STACK
      {
        r := Push(vs[i]);
        if r.Fail? { return; }
      }
      r := Go;
    }

    /** Every slot of the frame gives up its reference; the caller's registers come back. */
    method EvalEnd() returns (r: Signal)
      requires |operandStack| <= M.MAX_STACK
      modifies `operandStack, `framePointer, `frameArgCount, `frameLocalCount, `ip, memory
      ensures Agrees(CountedEnd(Image(), old(State())), r)
    {
      hide DecAll, M.AsIndex, CountedLeave, View, ViewVal;
      var value;
      r, value := Pop();
      if r.Fail? { return; }
      var frameEnd := framePointer + M.META + frameLocalCount;
      if |operandStack| < frameEnd || framePointer < frameArgCount { return Fail(NotEnoughArguments); }
      var returnFramePointer, returnIp := IndexIn(State(), framePointer + 3), IndexIn(State(), framePointer + 4);
      hide IndexIn;
      IndexKept(old(State()), State(), framePointer + 3);
      IndexKept(old(State()), State(), framePointer + 4);
      if returnFramePointer.Err? || returnIp.Err? { return Fail(Undefined); }
      var start := framePointer - frameArgCount;
      assert operandStack[start..frameEnd] == old(operandStack)[start..frameEnd] && operandStack[..start] == old(operandStack)[..start];
      r := LeaveFrame(value, start, frameEnd, returnFramePointer.value, returnIp.value);
    }

    /** The frame's slots are released and the result takes their place. */
    method LeaveFrame(value: RVal, start: nat, frameEnd: nat, returnFramePointer: nat, returnIp: nat) returns (r: Signal)
      requires start <= frameEnd <= |operandStack| < M.MAX_STACK
      modifies `operandStack, `framePointer, `frameArgCount, `frameLocalCount, `ip, memory
      ensures var s := old(State());
        match DecAll(s.heap, s.stack[start..frameEnd])
        case Err(_) => r.Fail?
        case Ok(h) => Agrees(CountedLeave(Image(), s.(stack := s.stack[..start] + [value], heap := h, fp := returnFramePointer, ip := returnIp)), r)
    {
      hide DecAll, M.AsIndex, CountedLeave, View, ViewVal;
      var ok := memory.DecAllRefs(operandStack[start..frameEnd]);
      if !ok { return Fail(Undefined); }
      operandStack := operandStack[..start];
      framePointer, ip := returnFramePointer, returnIp;
      r := Push(value);
      r := RestoreCaller();
    }

    /** Main's END ends the run; any other goes back to the calling frame. */
    method RestoreCaller() returns (r: Signal)
      modifies `frameArgCount, `frameLocalCount
      ensures Agrees(CountedLeave(Image(), old(State())), r)
    {
      if framePointer == globals { return Stop; }
      if |operandStack| <= framePointer + 2 { return Fail(NotEnoughArguments); }
      var argc, locc := IndexIn(State(), framePointer + 1), IndexIn(State(), framePointer + 2);
      if argc.Err? || locc.Err? { return Fail(Undefined); }
      frameArgCount, frameLocalCount := argc.value, locc.value;
      return Go;
    }

    // ---------------------------------------------------------------- operators

    /** Integers and truth values in place, floats by reusing an operand, anything else by
        the runtime library. */
    method EvalBinop(op: Op) returns (r: Signal)
      modifies `operandStack, memory
      ensures Agrees(CountedExecPrim(Image(), BINOP(op), old(State())), r)
    {
      hide CountedBinop, CountedPrim, CountedExecPrim, DecodedAt;
      ghost var img, s := Image(), State();
      if |operandStack| <= globals + 1 { Underflow(img, BINOP(op), s); }
      var right, left;
      r, right := Pop();
      if r.Fail? { return; }
      r, left := Pop();
      if r.Fail? { return; }
      ghost var base := operandStack;
      assert s.stack == base + [left, right];
      BinopEffect(img, s.heap, op, left, right);
      var result;
      r, result := Combine(op, left, right);
      if r.Fail? || |operandStack| >= M.MAX_STACK {
        PrimFails(img, BINOP(op), s, [left, right], base);
        return Fail(StackOverflow);
      }
      PrimDone(img, BINOP(op), s, [left, right], base, REffect([result], memory.Heap(), []));
      r := Push(result);
    }

    method Combine(op: Op, left: RVal, right: RVal) returns (r: Signal, result: RVal)
      modifies memory
      ensures match CountedBinop(lib, old(memory.Heap()), op, left, right)
        case Ok(effect) => r == Go && effect == REffect([result], memory.Heap(), [])
        case Err(_) => r.Fail?
    {
      hide CountedBinop, View, RT.FastInts, RT.FastOnInts, ConsumeFloats;
      result := RInt(0);
      if op in {DIV, MOD, IDIV} && right == RInt(0) {
        ByZero(lib, memory.Heap(), op, left);
        return Fail(DivisionByZero), result;
      }
      if left.RInt? && right.RInt? && RT.FastOnInts(op, left.n, right.n) {
        OnInts(lib, memory.Heap(), op, left.n, right.n);
        var v := RT.FastInts(op, left.n, right.n);
        return Go, if v.Int? then RInt(v.n) else RBool(v.b);
      }
      if left.RFlt? && right.RFlt? && op in {ADD, SUB, MUL} {
        OnFloats(lib, memory.Heap(), op, left, right);
        var x, y := ViewVal(memory.flts, left).f, ViewVal(memory.flts, right).f;
        var ok;
        result, ok := memory.ConsumeFloatBinop(left, right, lib.fpu.arith(op, x, y));
        return if ok then Go else Fail(Undefined), result;
      }
      if left.RBool? && right.RBool? && op in {EQ, NEQ, AND, OR} {
        OnBools(lib, memory.Heap(), op, left.b, right.b);
        var b := if op == EQ then left.b == right.b else if op == NEQ then left.b != right.b
                 else if op == AND then left.b && right.b else left.b || right.b;
        return Go, RBool(b);
      }
      match CountedBinop(lib, memory.Heap(), op, left, right) {
        case Err(e) => return Fail(e), result;
        case Ok(effect) =>
          OneResult(lib, memory.Heap(), op, left, right);
          memory.objs, memory.flts, result := effect.heap.objs, effect.heap.flts, effect.pushes[0];
          return Go, result;
      }
    }

    // ---------------------------------------------------------------- stack and objects

    method EvalDrop() returns (r: Signal)
      modifies `operandStack, memory
      ensures Agrees(CountedExecPrim(Image(), DROP, old(State())), r)
    {
      hide Dec, CountedPrim, CountedExecPrim, DecodedAt;
      ghost var img, s := Image(), State();
      if |operandStack| <= globals { Underflow(img, DROP, s); }
      var v;
      r, v := Pop();
      if r.Fail? { return; }
      DropEffect(img, s.heap, v);
      var ok := memory.DecRef(v);
      if !ok || |operandStack| > M.MAX_STACK {
        PrimFails(img, DROP, s, [v], operandStack);
        return Fail(Undefined);
      }
      PrimDone(img, DROP, s, [v], operandStack, REffect([], memory.Heap(), []));
      assert operandStack + [] == operandStack;
      return Go;
    }

    method EvalDup() returns (r: Signal)
      modifies `operandStack, memory
      ensures Agrees(CountedExecPrim(Image(), DUP, old(State())), r)
    {
      hide Inc, CountedPrim, CountedExecPrim, DecodedAt;
      ghost var img, s := Image(), State();
      if |operandStack| <= globals { Underflow(img, DUP, s); }
      var v;
      r, v := Pop();
      if r.Fail? { return; }
      ghost var base := operandStack;
      DupEffect(img, s.heap, v);
      if Inc(s.heap, v).Err? || |base| + 2 > M.MAX_STACK { PrimFails(img, DUP, s, [v], base); }
      r := Push(v);
      if r.Fail? { return; }
      r := Push(v);
      if r.Fail? { return; }
      var ok := memory.IncRef(v);
      if !ok { return Fail(Undefined); }
      PrimDone(img, DUP, s, [v], base, REffect([v, v], memory.Heap(), []));
      assert operandStack == base + [v, v];
    }

    method EvalSwap() returns (r: Signal)
      modifies `operandStack
      ensures Agrees(CountedExecPrim(Image(), SWAP, old(State())), r)
    {
      hide CountedPrim, CountedExecPrim, DecodedAt;
      ghost var img, s := Image(), State();
      if |operandStack| <= globals + 1 { Underflow(img, SWAP, s); }
      var value1, value2;
      r, value1 := Pop();
      if r.Fail? { return; }
      r, value2 := Pop();
      if r.Fail? { return; }
      ghost var base := operandStack;
      assert s.stack == base + [value2, value1];
      SwapEffect(img, s.heap, value2, value1);
      if |base| + 2 > M.MAX_STACK { PrimFails(img, SWAP, s, [value2, value1], base); }
      r := Push(value1);
      if r.Fail? { return; }
      r := Push(value2);
      if r.Fail? { return; }
      PrimDone(img, SWAP, s, [value2, value1], base, REffect([value1, value2], s.heap, []));
      assert operandStack == base + [value1, value2];
    }

    /** The tuple counts its items, then the stack lets them go from the top down. */
    method EvalTuple(n: int) returns (r: Signal)
      modifies `operandStack, memory
      ensures Agrees(CountedExecPrim(Image(), TUPLE(n), old(State())), r)
    {
      hide IncAll, DecAll, Dec, Reversed, CountedPrim, CountedExecPrim, DecodedAt;
      ghost var img, s := Image(), State();
      if n < 0 {
        NoNegativeTuple(img, n, s);
        return Fail(StackUnderflow);
      }
      if |operandStack| < globals + n {
        Underflow(img, TUPLE(n), s);
        return Fail(StackUnderflow);
      }
      var items := operandStack[|operandStack| - n..];
      ghost var base := operandStack[..|operandStack| - n];
      assert s.stack == base + items;
      TupleEffect(img, s.heap, items);
      var ok := memory.IncAllRefs(items);
      if !ok {
        PrimFails(img, TUPLE(n), s, items, base);
        return Fail(Undefined);
      }
      var tuple := memory.NewObject(RT.Tuple(items));
      r := DropItems(base, items);
      if r.Fail? || |operandStack| >= M.MAX_STACK {
        PrimFails(img, TUPLE(n), s, items, base);
        return Fail(StackOverflow);
      }
      PrimDone(img, TUPLE(n), s, items, base, REffect([tuple], memory.Heap(), []));
      r := Push(tuple);
    }

    /** The items above `base` are popped and released, the last one first. */
    method DropItems(ghost base: seq<RVal>, items: seq<RVal>) returns (r: Signal)
      requires operandStack == base + items && |base| >= globals
      modifies `operandStack, memory
      ensures match DecAll(old(memory.Heap()), Reversed(items)) case Ok(h) => r == Go && memory.Heap() == h case Err(_) => r.Fail?
      ensures r.Go? ==> operandStack == base
    {
      hide Reversed, DecAll, Dec;
      var n := |items|;
      assert items[..n] == items;
      for k := n downto 0
        invariant operandStack == base + items[..k]
        invariant DecAll(memory.Heap(), Reversed(items[..k])) == DecAll(old(memory.Heap()), Reversed(items))
      {
        var v;
        r, v := Pop();
        OneOff(base, items, k, operandStack, v);
        LastFirst(items[..k + 1]);
        DecHead(memory.Heap(), v, Reversed(items[..k]));
        var ok := memory.DecRef(v);
        if !ok { return Fail(Undefined); }
      }
      DecNone(memory.Heap());
      return Go;
    }

    /** The arguments' references move into the variant. */
    method EvalVariant(id: int) returns (r: Signal)
      modifies `operandStack, memory
      ensures Agrees(CountedExecPrim(Image(), VARIANT(id), old(State())), r)
    {
      hide CountedPrim, CountedExecPrim, DecodedAt;
      ghost var img, s := Image(), State();
      if !(0 <= id < |lib.schemas|) {
        NoSchema(img, id, s);
        return Fail(InvalidSchema);
      }
      var count := |lib.schemas[id].fields|;
      if |operandStack| < globals + count {
        Underflow(img, VARIANT(id), s);
        return Fail(StackUnderflow);
      }
      var values := operandStack[|operandStack| - count..];
      ghost var base := operandStack[..|operandStack| - count];
      assert s.stack == base + values && values[..count] == values;
      for k := count downto 0
        invariant operandStack == base + values[..k] && memory.Heap() == s.heap
      {
        var v;
        r, v := Pop();
        OneOff(base, values, k, operandStack, v);
      }
      VariantEffect(img, s.heap, id, values);
      assert operandStack == base;
      if |operandStack| >= M.MAX_STACK {
        PrimFails(img, VARIANT(id), s, values, base);
        return Fail(StackOverflow);
      }
      var variant := memory.NewObject(RT.Variant(id, values));
      PrimDone(img, VARIANT(id), s, values, base, REffect([variant], memory.Heap(), []));
      r := Push(variant);
    }

    /** The remaining handlers hand their operands to the runtime library and push what it
        returns. */
    method EvalLibrary(i: Instr) returns (r: Signal)
      modifies `operandStack, `log, memory
      ensures Agrees(CountedExecPrim(Image(), i, old(State())), r)
    {
      hide CountedPrim, CountedExecPrim, DecodedAt, M.Pops;
      ghost var img, s := Image(), State();
      var k := M.Pops(lib, i);
      if |operandStack| < globals + k {
        Underflow(img, i, s);
        return Fail(StackUnderflow);
      }
      var rest := |operandStack| - k;
      var base, ops := operandStack[..rest], operandStack[rest..];
      assert s.stack == base + ops;
      match CountedPrim(Image(), i, memory.Heap(), ops) {
        case Err(e) =>
          PrimFails(img, i, s, ops, base);
          return Fail(e);
        case Ok(effect) =>
          if rest + |effect.pushes| > M.MAX_STACK {
            PrimFails(img, i, s, ops, base);
            return Fail(StackOverflow);
          }
          PrimDone(img, i, s, ops, base, effect);
          operandStack := base + effect.pushes;
          memory.objs, memory.flts, log := effect.heap.objs, effect.heap.flts, log + effect.events;
          return Go;
      }
    }

    // ---------------------------------------------------------------- the loop

    method Eval(i: Instr) returns (r: Signal)
      requires |operandStack| <= M.MAX_STACK
      modifies this, memory
      ensures Agrees(CountedExec(Image(), i, old(State())), r)
    {
      hide CountedJump, CountedCjmp, CountedCall, CountedCallc, CountedBegin, CountedEnd, CountedLoad, CountedStore, CountedExecPrim;
      if i.NOP? || i.LINE? || i.LABEL? { return Go; }
      if i.JMP? { r := EvalJmp(i.dest); }
      else if i.CJMP? { r := EvalCjmp(i.dest, i.kind); }
      else if i.CALL? { r := EvalCall(i.dest); }
      else if i.CALLC? { r := EvalCallc(i.arity); }
      else if i.BEGIN? { r := EvalBegin(i.args, i.locals); }
      else if i.END? { r := EvalEnd(); }
      else if i.LOAD? { r := EvalLoad(i.rel, i.index); }
      else if i.STORE? { r := EvalStore(i.rel, i.index); }
      else if i.BINOP? { r := EvalBinop(i.op); }
      else if i.TUPLE? { r := EvalTuple(i.n); }
      else if i.VARIANT? { r := EvalVariant(i.schema); }
      else if i.DROP? { r := EvalDrop(); }
      else if i.DUP? { r := EvalDup(); }
      else if i.SWAP? { r := EvalSwap(); }
      else { r := EvalLibrary(i); }
    }

    /** One instruction: its bytes are read, `ip` moves behind them, its handler runs. */
    method Dispatch() returns (r: Signal)
      requires |operandStack| <= M.MAX_STACK
      modifies this, memory
      ensures Agrees(CountedStep(Image(), old(State())), r)
    {
      hide CountedExec, Fetch;
      if ip >= |code| { return Fail(EndOfCode); }
      match Fetch(code, ip) {
        case Err(e) => return Fail(e);
        case Ok(d) =>
          ip := d.next;
          r := Eval(d.instr);
      }
    }

    /** At most `n` instructions. */
    method Run(n: nat) returns (r: Signal)
      requires |operandStack| <= M.MAX_STACK
      modifies this, memory
      ensures Agrees(CountedRun(Image(), old(State()), n), r)
    {
      hide CountedStep;
      r := Go;
      for k := 0 to n
        invariant |operandStack| <= M.MAX_STACK && r == Go
        invariant CountedRun(Image(), State(), n - k) == CountedRun(Image(), old(State()), n)
      {
        StackBounded(Image(), State());
        r := Dispatch();
        if !r.Go? { return; }
      }
    }

    /** After the run every slot gives up its reference. */
    method Drain() returns (ok: bool)
      modifies `operandStack, memory
      ensures match Drained(old(State())) case Ok(h) => ok && memory.Heap() == h && operandStack == [] case Err(_) => !ok
    {
      ok := memory.DecAllRefs(operandStack);
      operandStack := [];
    }
  }

  lemma NothingToStore(img: M.Image, s: RState, rel: ValueRel, index: int)
    requires |s.stack| <= img.globals
    ensures CountedStore(img, s, rel, index).Failed?
  {
  }

  lemma StoreIs(img: M.Image, s: RState, base: seq<RVal>, value: RVal, rel: ValueRel, index: int)
    requires s.stack == base + [value] && |s.stack| > img.globals
    ensures var slot := M.SlotOf(img.globals, |base|, s.fp, s.argc, s.locc, rel, index);
      if slot.Err? || slot.value >= |base| then CountedStore(img, s, rel, index).Failed?
      else
        var h := Dec(s.heap, base[slot.value]);
        if h.Err? then CountedStore(img, s, rel, index).Failed?
        else CountedStore(img, s, rel, index) == Running(s.(stack := base[slot.value := value], heap := h.value))
  {
    hide Dec, M.SlotOf;
    assert s.stack[..|base|] == base;
  }

  /** What the stack and constructor instructions come to. */
  lemma DropEffect(img: M.Image, h: RHeap, v: RVal)
    ensures CountedPrim(img, DROP, h, [v]) == if Dec(h, v).Ok? then Ok(REffect([], Dec(h, v).value, [])) else Err(Dec(h, v).fault)
  {
    hide Dec, DecAll;
    DecOne(h, v);
  }

  lemma BinopEffect(img: M.Image, h: RHeap, op: Op, a: RVal, b: RVal)
    ensures CountedPrim(img, BINOP(op), h, [a, b]) == CountedBinop(img.lib, h, op, a, b)
  {
    hide CountedBinop;
  }

  lemma DupEffect(img: M.Image, h: RHeap, v: RVal)
    ensures CountedPrim(img, DUP, h, [v]) == if Inc(h, v).Ok? then Ok(REffect([v, v], Inc(h, v).value, [])) else Err(Inc(h, v).fault)
  {
    hide Inc;
  }

  lemma SwapEffect(img: M.Image, h: RHeap, v: RVal, w: RVal)
    ensures CountedPrim(img, SWAP, h, [v, w]) == Ok(REffect([w, v], h, []))
  {
  }

  lemma TupleEffect(img: M.Image, h: RHeap, ops: seq<RVal>)
    ensures CountedPrim(img, TUPLE(|ops|), h, ops) == Share(h, RT.Tuple(ops), Reversed(ops))
  {
    hide Share, Reversed;
  }

  lemma VariantEffect(img: M.Image, h: RHeap, id: nat, ops: seq<RVal>)
    requires id < |img.lib.schemas| && |ops| == |img.lib.schemas[id].fields|
    ensures CountedPrim(img, VARIANT(id), h, ops) ==
      var (p, h1) := AllocObj(h, RT.Variant(id, ops)); Ok(REffect([p], h1, []))
  {
  }

  lemma NoNegativeTuple(img: M.Image, n: int, s: RState)
    requires n < 0
    ensures CountedExecPrim(img, TUPLE(n), s).Failed?
  {
  }

  lemma NoSchema(img: M.Image, id: int, s: RState)
    requires !(0 <= id < |img.lib.schemas|)
    ensures CountedExecPrim(img, VARIANT(id), s).Failed?
  {
  }

  lemma OneOff(base: seq<RVal>, items: seq<RVal>, k: nat, left: seq<RVal>, v: RVal)
    requires k < |items| && base + items[..k + 1] == left + [v]
    ensures left == base + items[..k] && v == items[k]
    ensures items[..k + 1][..k] == items[..k] && items[..k + 1][k] == v
  {
    assert items[..k + 1] == items[..k] + [items[k]];
    assert base + items[..k] + [items[k]] == left + [v];
    assert |base + items[..k]| == |left|;
    assert (left + [v])[|left|] == v && (base + items[..k] + [items[k]])[|left|] == items[k];
    assert (left + [v])[..|left|] == left && (base + items[..k] + [items[k]])[..|left|] == base + items[..k];
  }

  lemma DecNone(h: RHeap)
    ensures Reversed([]) == [] && DecAll(h, []) == Ok(h)
  {
  }

  lemma Underflow(img: M.Image, i: Instr, s: RState)
    requires |s.stack| < img.globals + M.Pops(img.lib, i)
    ensures CountedExecPrim(img, i, s).Failed?
  {
    hide CountedPrim, M.Pops;
  }

  /** An instruction that left its results on the operand stack did its step. */
  lemma PrimDone(img: M.Image, i: Instr, s: RState, ops: seq<RVal>, base: seq<RVal>, effect: REffect)
    requires s.stack == base + ops && |ops| == M.Pops(img.lib, i) && |base| >= img.globals
    requires CountedPrim(img, i, s.heap, ops) == Ok(effect) && |base| + |effect.pushes| <= M.MAX_STACK
    ensures CountedExecPrim(img, i, s) == Running(s.(stack := base + effect.pushes, heap := effect.heap, log := s.log + effect.events))
  {
    hide CountedPrim, M.Pops;
    assert s.stack[|base|..] == ops && s.stack[..|base|] == base;
  }

  lemma PrimFails(img: M.Image, i: Instr, s: RState, ops: seq<RVal>, base: seq<RVal>)
    requires s.stack == base + ops && |ops| == M.Pops(img.lib, i)
    requires CountedPrim(img, i, s.heap, ops).Err? || |base| + |CountedPrim(img, i, s.heap, ops).value.pushes| > M.MAX_STACK
      || |base| < img.globals
    ensures CountedExecPrim(img, i, s).Failed?
  {
    hide CountedPrim, M.Pops;
    assert s.stack[|base|..] == ops && s.stack[..|base|] == base;
  }

  lemma DecHead(h: RHeap, v: RVal, rest: seq<RVal>)
    ensures DecAll(h, [v] + rest) == if Dec(h, v).Ok? then DecAll(Dec(h, v).value, rest) else Dec(h, v)
  {
    assert ([v] + rest)[1..] == rest;
  }

  lemma {:induction false} LastFirst(vs: seq<RVal>)
    requires vs != []
    ensures Reversed(vs) == [vs[|vs| - 1]] + Reversed(vs[..|vs| - 1])
  {
    var n := |vs|;
    if n > 1 {
      var mid := vs[1..][..n - 2];
      LastFirst(vs[1..]);
      assert vs[..n - 1][1..] == mid;
      assert Reversed(vs[..n - 1]) == Reversed(mid) + [vs[0]];
      assert Reversed(vs) == [vs[n - 1]] + Reversed(mid) + [vs[0]];
    } else {
      assert vs[..0] == [] && vs[1..] == [];
    }
  }

  /** No step leaves more on the stack than it may hold. */
  lemma StackBounded(img: M.Image, s: RState)
    requires |s.stack| <= M.MAX_STACK
    ensures CountedStep(img, s).Running? ==> |CountedStep(img, s).state.stack| <= M.MAX_STACK
  {
    hide CountedPrim, Inc, Dec, DecAll, M.SlotOf, M.AsIndex, BodyAt, M.Pops;
  }

  lemma IndexKept(s: RState, t: RState, k: nat)
    requires k < |t.stack| <= |s.stack| && t.stack == s.stack[..|t.stack|]
    ensures IndexIn(t, k) == IndexIn(s, k)
  {
    assert t.stack[k] == s.stack[k];
  }

  // What the fast paths replace

  lemma ByZero(lib: RT.Library, h: RHeap, op: Op, a: RVal)
    requires op in {DIV, MOD, IDIV}
    ensures CountedBinop(lib, h, op, a, RInt(0)).Err?
  {
    hide View, RT.RuntimeBinop, ConsumeFloats;
  }

  lemma OnInts(lib: RT.Library, h: RHeap, op: Op, m: int, n: int)
    requires RT.FastOnInts(op, m, n) && !(op in {DIV, MOD, IDIV} && n == 0)
    ensures var v := RT.FastInts(op, m, n);
      (v.Int? || v.Bool?) && CountedBinop(lib, h, op, RInt(m), RInt(n)) == Ok(REffect([if v.Int? then RInt(v.n) else RBool(v.b)], h, []))
  {
    hide View, RT.RuntimeBinop, ConsumeFloats;
    DecTwo(h, RInt(n), RInt(m));
  }

  lemma OnBools(lib: RT.Library, h: RHeap, op: Op, p: bool, q: bool)
    requires op in {EQ, NEQ, AND, OR}
    ensures CountedBinop(lib, h, op, RBool(p), RBool(q))
      == Ok(REffect([RBool(if op == EQ then p == q else if op == NEQ then p != q else if op == AND then p && q else p || q)], h, []))
  {
    hide View, RT.RuntimeBinop, ConsumeFloats;
    DecTwo(h, RBool(q), RBool(p));
  }

  lemma OnFloats(lib: RT.Library, h: RHeap, op: Op, a: RVal, b: RVal)
    requires a.RFlt? && b.RFlt? && op in {ADD, SUB, MUL}
    ensures CountedBinop(lib, h, op, a, b) ==
      match ConsumeFloats(h, a, b, lib.fpu.arith(op, ViewVal(h.flts, a).f, ViewVal(h.flts, b).f)) {
        case Ok((p, h1)) => Ok(REffect([p], h1, []))
        case Err(e) => Err(e)
      }
  {
    hide View, ConsumeFloats;
  }

  /** An operator pushes exactly one result and prints nothing. */
  lemma OneResult(lib: RT.Library, h: RHeap, op: Op, a: RVal, b: RVal)
    requires CountedBinop(lib, h, op, a, b).Ok?
    ensures |CountedBinop(lib, h, op, a, b).value.pushes| == 1 && CountedBinop(lib, h, op, a, b).value.events == []
  {
    hide RT.VmBinop, View, ConsumeFloats, DecAll, IncAll, CountedEqual;
  }
}
