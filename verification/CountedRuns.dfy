/** Reference counting over whole runs: step for step the counted machine shows the value
    machine, its counts are exact in every reachable state, and nothing acyclic leaks. */
module CountedRuns {
  import opened Results
  import opened Bytecode
  import opened Numbers
  import opened Encoding
  import opened RefCount
  import opened CountedMachine
  import opened CountedCorrectness
  import M = Machine
  import RT = Runtime

  type Value = RT.Value

  ghost predicate Sound(s: RState) { Exact(s.heap, multiset(s.stack)) }

  /** The instruction keeps counts exact on the operands it finds. */
  ghost predicate CountableOn(img: M.Image, i: Instr, s: RState) {
    |s.stack| >= M.Pops(img.lib, i) ==> Countable(img, i, s.heap, s.stack[|s.stack| - M.Pops(img.lib, i)..])
  }

  /** The next instruction is not one of the uncounted operations. */
  ghost predicate CountableOp(img: M.Image, s: RState) {
    s.ip in img.program ==> M.IsControl(img.program[s.ip].instr) || CountableOn(img, img.program[s.ip].instr, s)
  }

  /** In addition END finds its result as the only temporary of the frame. */
  ghost predicate CountableStep(img: M.Image, s: RState) {
    && CountableOp(img, s)
    && (s.ip in img.program && img.program[s.ip].instr.END? ==> |s.stack| <= s.fp + M.META + s.locc + 1)
  }

  /** The counted machine does what the value machine does, soundly. */
  ghost predicate Follows(o: M.Outcome, r: ROutcome) {
    match o
    case Running(t) => r.Running? && ViewState(r.state) == t && Sound(r.state)
    case Halted(t) => r.Halted? && ViewState(r.state) == t && Sound(r.state)
    case Failed(_) => true
  }

  lemma ViewPrefix(flts: seq<FCell>, vs: seq<RVal>, k: nat)
    requires k <= |vs|
    ensures ViewAll(flts, vs)[..k] == ViewAll(flts, vs[..k]) && ViewAll(flts, vs)[k..] == ViewAll(flts, vs[k..])
  {
  }

  lemma SplitStack(stack: seq<RVal>, k: nat)
    requires k <= |stack|
    ensures multiset(stack) == multiset(stack[..k]) + multiset(stack[k..])
  {
    assert stack == stack[..k] + stack[k..];
  }

  /** Slots whose floats are all kept show the same. */
  lemma ViewHeld(f: seq<FCell>, f': seq<FCell>, vs: seq<RVal>)
    requires forall v: RVal :: v in multiset(vs) ==> ViewVal(f', v) == ViewVal(f, v)
    ensures ViewAll(f', vs) == ViewAll(f, vs)
  {
    forall i | 0 <= i < |vs| ensures ViewVal(f', vs[i]) == ViewVal(f, vs[i]) { assert vs[i] in multiset(vs); }
  }

  lemma ExecPrimFollows(img: M.Image, i: Instr, s: RState)
    requires Sound(s) && img.lib.depth > 0 && !M.IsControl(i)
    requires CountableOn(img, i, s)
    ensures Follows(M.ExecPrim(img, i, ViewState(s)), CountedExecPrim(img, i, s))
  {
    hide Exact, View, M.Prim, M.Pops, CountedPrim, Countable, ViewAll, ViewVal;
    var k, t := M.Pops(img.lib, i), ViewState(s);
    if |s.stack| >= img.globals + k {
      var rest := |s.stack| - k;
      var base, ops := s.stack[..rest], s.stack[rest..];
      SplitStack(s.stack, rest);
      ViewPrefix(s.heap.flts, s.stack, rest);
      if M.Prim(img, i, View(s.heap), ViewAll(s.heap.flts, ops)).Ok? {
        PrimRefines(img, i, s.heap, ops, multiset(base));
        var e := CountedPrim(img, i, s.heap, ops).value;
        ViewHeld(s.heap.flts, e.heap.flts, base);
        ViewConcat(e.heap.flts, base, e.pushes);
        assert ViewAll(e.heap.flts, base + e.pushes) == t.stack[..rest] + ViewAll(e.heap.flts, e.pushes);
        assert multiset(base + e.pushes) == multiset(base) + multiset(e.pushes);
      }
    }
  }

  lemma LoadFollows(img: M.Image, s: RState, rel: ValueRel, index: int)
    requires Sound(s)
    ensures Follows(M.ExecLoad(img, ViewState(s), rel, index), CountedLoad(img, s, rel, index))
  {
    hide Exact, View, M.SlotOf;
    var slot := SlotIn(img, s, rel, index);
    if slot.Ok? && slot.value < |s.stack| {
      var v := s.stack[slot.value];
      assert v in multiset(s.stack);
      HeldAlive(s.heap, multiset(s.stack), v);
      IncExact(s.heap, v, multiset(s.stack));
      var h := Inc(s.heap, v).value;
      SameViews(s.heap, h, s.stack + [v]);
      ViewConcat(s.heap.flts, s.stack, [v]);
    }
  }

  lemma SameViews(h: RHeap, h': RHeap, vs: seq<RVal>)
    requires SameShape(h, h')
    ensures ViewAll(h'.flts, vs) == ViewAll(h.flts, vs)
  {
  }

  /** The popped value moves into a slot: what the slot held is left over. */
  lemma MovedIn(popped: seq<RVal>, k: nat, v: RVal)
    requires k < |popped|
    ensures multiset(popped + [v]) == multiset(popped[k := v]) + multiset{popped[k]}
  {
  }

  /** The heap of a store, and what the new stack shows. */
  lemma Stored(h: RHeap, popped: seq<RVal>, k: nat, v: RVal)
    requires k < |popped| && Exact(h, multiset(popped + [v]))
    ensures Dec(h, popped[k]).Ok? && Exact(Dec(h, popped[k]).value, multiset(popped[k := v])) && View(Dec(h, popped[k]).value) == View(h)
    ensures ViewAll(Dec(h, popped[k]).value.flts, popped[k := v]) == ViewAll(h.flts, popped)[k := ViewVal(h.flts, v)]
  {
    hide Exact, View, ViewAll, Dec;
    MovedIn(popped, k, v);
    DecExact(h, popped[k], multiset(popped[k := v]));
    SameViews(h, Dec(h, popped[k]).value, popped[k := v]);
    ViewUpdate(h.flts, popped, k, v);
  }

  lemma StoreFollows(img: M.Image, s: RState, rel: ValueRel, index: int)
    requires Sound(s)
    ensures Follows(M.ExecStore(img, ViewState(s), rel, index), CountedStore(img, s, rel, index))
  {
    hide Exact, View, M.SlotOf, ViewAll, ViewVal, Dec;
    if |s.stack| > img.globals {
      var top := |s.stack| - 1;
      var popped, v := s.stack[..top], s.stack[top];
      var slot := SlotIn(img, s.(stack := popped), rel, index);
      ViewPrefix(s.heap.flts, s.stack, top);
      ViewOne(s.heap.flts, v);
      assert s.stack == popped + [v] && s.stack[top..] == [v];
      assert ViewAll(s.heap.flts, s.stack)[top] == ViewAll(s.heap.flts, s.stack)[top..][0];
      if slot.Ok? && slot.value < top { Stored(s.heap, popped, slot.value, v); }
    }
  }

  lemma CjmpFollows(img: M.Image, s: RState, dest: Label, kind: JumpKind)
    requires Sound(s)
    ensures Follows(M.ExecCjmp(img, ViewState(s), dest, kind), CountedCjmp(img, s, dest, kind))
  {
    hide Exact, View;
    if |s.stack| > img.globals {
      var top := |s.stack| - 1;
      ViewPrefix(s.heap.flts, s.stack, top);
      if s.stack[top].RBool? {
        assert s.stack == s.stack[..top] + [s.stack[top]];
        PlainDropped(s.heap, multiset(s.stack[..top]), s.stack[top]);
      }
    }
  }

  lemma CallFollows(s: RState, dest: Label)
    requires Sound(s)
    ensures Follows(M.ExecCall(ViewState(s), dest), CountedCall(s, dest))
  {
    hide Exact, View;
    var ret := RInt(AsI32(s.ip));
    PlainDropped(s.heap, multiset(s.stack), ret);
    assert multiset(s.stack + [ret]) == multiset(s.stack) + multiset{ret};
    ViewConcat(s.heap.flts, s.stack, [ret]);
    ViewOne(s.heap.flts, ret);
  }

  /** Taking the callable out from under its arguments. */
  lemma CallableReleased(s: RState, k: nat, ret: RVal)
    requires Sound(s) && k < |s.stack| && !IsPtr(ret)
    ensures var rest := s.stack[..k] + s.stack[k + 1..] + [ret];
      var r := Dec(s.heap, s.stack[k]);
      r.Ok? && Exact(r.value, multiset(rest)) && View(r.value) == View(s.heap)
      && ViewAll(r.value.flts, rest) == ViewAll(s.heap.flts, s.stack)[..k] + ViewAll(s.heap.flts, s.stack)[k + 1..] + [ViewVal(s.heap.flts, ret)]
  {
    hide Exact, View, ViewAll;
    var c, rest := s.stack[k], s.stack[..k] + s.stack[k + 1..];
    assert s.stack == s.stack[..k] + [c] + s.stack[k + 1..];
    assert multiset(s.stack) == multiset(rest) + multiset{c};
    DecExact(s.heap, c, multiset(rest));
    var h := Dec(s.heap, c).value;
    PlainDropped(h, multiset(rest), ret);
    assert multiset(rest + [ret]) == multiset(rest) + multiset{ret};
    SameViews(s.heap, h, rest + [ret]);
    ViewPrefix(s.heap.flts, s.stack, k);
    ViewPrefix(s.heap.flts, s.stack, k + 1);
    ViewConcat(s.heap.flts, s.stack[..k], s.stack[k + 1..]);
    ViewConcat(s.heap.flts, rest, [ret]);
    ViewOne(s.heap.flts, ret);
  }

  lemma CallcFollows(s: RState, n: int)
    requires Sound(s)
    ensures Follows(M.ExecCallc(ViewState(s), n), CountedCallc(s, n))
  {
    hide Exact, View, Dec;
    if 0 <= n && |s.stack| >= n + 1 && M.ExecCallc(ViewState(s), n).Running? {
      var k, ret := |s.stack| - n - 1, RInt(AsI32(s.ip));
      assert s.stack[k] in multiset(s.stack);
      BodyShows(s.heap, multiset(s.stack), s.stack[k]);
      CallableReleased(s, k, ret);
    }
  }

  lemma MetaIsPlain(args: nat, locals: nat, fp: nat)
    ensures NoPtrs(MetaNumbers(args, locals, fp) + IntZeros(locals))
  {
  }

  /** The frame BEGIN builds: only plain numbers are new. */
  lemma BeginCounts(h: RHeap, base: seq<RVal>, ret: RVal, args: nat, locals: nat, fp: nat)
    requires Exact(h, multiset(base + [ret]))
    ensures Exact(h, multiset(base + CountedMeta(args, locals, fp, ret) + IntZeros(locals)))
  {
    hide Exact, MetaNumbers, IntZeros, NoPtrs;
    var head, tail := MetaNumbers(args, locals, fp), IntZeros(locals);
    MetaIsPlain(args, locals, fp);
    assert multiset(base + (head + [ret]) + tail) == multiset(base + [ret]) + multiset(head + tail);
    PlainsDropped(h, multiset(base + [ret]), head + tail);
  }

  lemma BeginShows(flts: seq<FCell>, base: seq<RVal>, ret: RVal, args: nat, locals: nat, fp: nat)
    ensures ViewAll(flts, base + CountedMeta(args, locals, fp, ret) + IntZeros(locals))
      == ViewAll(flts, base) + M.FrameMeta(args, locals, fp, ViewVal(flts, ret)) + RT.Zeros(locals)
  {
    hide ViewAll, CountedMeta, M.FrameMeta, IntZeros;
    var meta := CountedMeta(args, locals, fp, ret);
    ViewConcat(flts, base + meta, IntZeros(locals));
    ViewConcat(flts, base, meta);
    ViewMeta(flts, args, locals, fp, ret);
    ViewZeros(flts, locals);
  }

  lemma BeginFollows(img: M.Image, s: RState, payload: int, locals: int)
    requires Sound(s)
    ensures Follows(M.ExecBegin(img, ViewState(s), payload, locals), CountedBegin(img, s, payload, locals))
  {
    hide Exact, View, ViewAll, CountedMeta, M.FrameMeta, IntZeros;
    if |s.stack| > img.globals && payload >= 0 && locals >= 0 {
      var args, top := payload % 65536, |s.stack| - 1;
      var base, ret := s.stack[..top], s.stack[top];
      assert s.stack == base + [ret];
      BeginCounts(s.heap, base, ret, args, locals, s.fp);
      BeginShows(s.heap.flts, base, ret, args, locals, s.fp);
      ViewPrefix(s.heap.flts, s.stack, top);
    }
  }

  lemma ViewMeta(flts: seq<FCell>, args: nat, locals: nat, fp: nat, ret: RVal)
    ensures ViewAll(flts, CountedMeta(args, locals, fp, ret)) == M.FrameMeta(args, locals, fp, ViewVal(flts, ret))
  {
  }

  lemma ViewZeros(flts: seq<FCell>, n: nat)
    ensures ViewAll(flts, IntZeros(n)) == RT.Zeros(n)
  {
  }

  /** Releasing a frame's slots, all but the result. */
  lemma FrameReleased(s: RState, low: nat, high: nat)
    requires Sound(s) && low <= high == |s.stack| - 1
    ensures var r := DecAll(s.heap, s.stack[low..high]);
      var stack := s.stack[..low] + [s.stack[high]];
      r.Ok? && Exact(r.value, multiset(stack)) && View(r.value) == View(s.heap)
      && ViewAll(r.value.flts, stack) == ViewAll(s.heap.flts, s.stack)[..low] + [ViewAll(s.heap.flts, s.stack)[high]]
  {
    hide Exact, View, ViewAll;
    var kept, frame, result := s.stack[..low], s.stack[low..high], s.stack[high];
    assert s.stack == kept + frame + [result];
    assert multiset(s.stack) == multiset(kept + [result]) + multiset(frame);
    DecAllExact(s.heap, frame, multiset(kept + [result]));
    var h := DecAll(s.heap, frame).value;
    SameViews(s.heap, h, kept + [result]);
    ViewPrefix(s.heap.flts, s.stack, low);
    ViewConcat(s.heap.flts, kept, [result]);
    ViewOne(s.heap.flts, result);
  }

  lemma LeaveFollows(img: M.Image, s: RState, t: M.State)
    requires Sound(s) && ViewState(s) == t
    ensures Follows(M.Leave(img, t, t.stack, t.fp, t.ip), CountedLeave(img, s))
  {
    hide Exact, View;
  }

  lemma EndFollows(img: M.Image, s: RState)
    requires Sound(s) && |s.stack| <= s.fp + M.META + s.locc + 1
    ensures Follows(M.ExecEnd(img, ViewState(s)), CountedEnd(img, s))
  {
    hide Sound, View, M.AsIndex, M.Leave, CountedLeave, Exact, ViewVal, DecAll;
    var t := ViewState(s);
    if |s.stack| > img.globals && |s.stack| - 1 >= s.fp + M.META + s.locc && s.fp >= s.argc {
      var top, low := |s.stack| - 1, s.fp - s.argc;
      FrameReleased(s, low, top);
      if M.AsIndex(t.stack[s.fp + 3]).Ok? && M.AsIndex(t.stack[s.fp + 4]).Ok? {
        var fp, ip := M.AsIndex(t.stack[s.fp + 3]).value, M.AsIndex(t.stack[s.fp + 4]).value;
        var h := DecAll(s.heap, s.stack[low..top]).value;
        var s' := s.(stack := s.stack[..low] + [s.stack[top]], heap := h, fp := fp, ip := ip);
        var t' := t.(stack := t.stack[..low] + [t.stack[top]], fp := fp, ip := ip);
        SoundIs(s');
        assert ViewState(s') == t';
        LeaveFollows(img, s', t');
        SameLeave(img, t, t');
      }
    }
  }

  lemma SoundIs(s: RState)
    requires Exact(s.heap, multiset(s.stack))
    ensures Sound(s)
  {
  }

  /** Leaving overwrites stack, frame pointer and ip. */
  lemma SameLeave(img: M.Image, t: M.State, t': M.State)
    requires t' == t.(stack := t'.stack, fp := t'.fp, ip := t'.ip)
    ensures M.Leave(img, t, t'.stack, t'.fp, t'.ip) == M.Leave(img, t', t'.stack, t'.fp, t'.ip)
  {
  }

  /** One step: same effect, exact counts. */
  lemma StepFollows(img: M.Image, s: RState)
    requires Sound(s) && img.lib.depth > 0 && CountableStep(img, s)
    ensures Follows(M.Step(img, ViewState(s)), CountedStep(img, s))
  {
    hide Exact, View, ViewAll, Countable, M.Pops, M.ExecPrim, M.ExecLoad, M.ExecStore, M.ExecCjmp, M.ExecCall, M.ExecCallc,
      M.ExecBegin, M.ExecEnd, CountedExecPrim, CountedLoad, CountedStore, CountedCjmp, CountedCall, CountedCallc, CountedBegin, CountedEnd;
    if s.ip in img.program {
      var i, s' := img.program[s.ip].instr, s.(ip := img.program[s.ip].next);
      if i.CJMP? {
        CjmpFollows(img, s', i.dest, i.kind);
      } else if i.CALL? {
        CallFollows(s', i.dest);
      } else if i.CALLC? {
        CallcFollows(s', i.arity);
      } else if i.BEGIN? {
        BeginFollows(img, s', i.args, i.locals);
      } else if i.END? {
        EndFollows(img, s');
      } else if i.LOAD? {
        LoadFollows(img, s', i.rel, i.index);
      } else if i.STORE? {
        StoreFollows(img, s', i.rel, i.index);
      } else if !(i.NOP? || i.LINE? || i.LABEL? || i.JMP?) {
        ExecPrimFollows(img, i, s');
      }
    }
  }

  /** No step of the run executes an uncounted operation. */
  ghost predicate CountableRun(img: M.Image, s: RState, n: nat)
    decreases n
  {
    n == 0 || (CountableStep(img, s) && (CountedStep(img, s).Running? ==> CountableRun(img, CountedStep(img, s).state, n - 1)))
  }

  /** Whole runs: whatever the value machine computes, the counted machine computes, and in
      every state it reaches the counts are exact, so nothing referred to was freed. */
  lemma {:induction false} RunFollows(img: M.Image, s: RState, n: nat)
    requires Sound(s) && img.lib.depth > 0 && CountableRun(img, s, n)
    ensures Follows(M.Run(img, ViewState(s), n), CountedRun(img, s, n))
    decreases n
  {
    hide Sound, View, ViewAll, M.Step, CountedStep, CountableStep;
    if n > 0 {
      StepFollows(img, s);
      if M.Step(img, ViewState(s)).Running? { RunFollows(img, CountedStep(img, s).state, n - 1); }
    }
  }

  lemma EmptyExact()
    ensures Exact(RHeap([], []), multiset{}) && View(RHeap([], [])) == []
  {
  }

  lemma BootSound(img: M.Image, main: nat)
    ensures Sound(CountedBoot(img, main)) && ViewState(CountedBoot(img, main)) == M.Boot(img, main)
  {
    hide Exact, View;
    var s := CountedBoot(img, main);
    assert NoPtrs(s.stack);
    EmptyExact();
    PlainsDropped(s.heap, multiset{}, s.stack);
    assert multiset{} + multiset(s.stack) == multiset(s.stack);
    ViewZeros([], img.globals);
    ViewZeros([], 6);
    ViewConcat([], IntZeros(img.globals) + [RInt(0), RInt(2)], IntZeros(6));
    ViewConcat([], IntZeros(img.globals), [RInt(0), RInt(2)]);
  }

  /** A halted run releases the stack without a fault; then every object that survives hangs
      off a cycle of references, and without cycles none survives. */
  lemma DrainLeavesCyclesOnly(s: RState, rank: nat -> nat)
    requires Sound(s)
    ensures Drained(s).Ok? && Exact(Drained(s).value, multiset{})
    ensures Acyclic(Drained(s).value, rank) ==> forall v: RVal :: CountOf(Drained(s).value, v) == 0
  {
    hide Exact, CountOf;
    assert multiset{} + multiset(s.stack) == multiset(s.stack);
    DecAllExact(s.heap, s.stack, multiset{});
    if Acyclic(Drained(s).value, rank) {
      forall v: RVal ensures CountOf(Drained(s).value, v) == 0 { NothingLeaks(Drained(s).value, rank, v); }
    }
  }
}
