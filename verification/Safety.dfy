/** Frame safety over every run of compiled code, whether or not the program goes wrong: the
    stack is always a chain of intact frames with the temporaries the code implies, so no
    instruction pops metadata, locals or arguments, and control never leaves the code. */
module Safety {
  import opened Results
  import opened Bytecode
  import opened Numbers
  import opened Encoding
  import opened Assembly
  import opened Codegen
  import opened Balance
  import opened BalancedCode
  import opened RuntimeFacts
  import opened Scoping
  import M = Machine
  import RT = Runtime

  type Value = RT.Value

  /** A unit's reachable code: where BEGIN stands, its operands, and the code after it. */
  datatype Piece = Piece(cfg: Config, entry: nat, arity: nat, locals: nat, body: Code)

  function CtxOf(img: M.Image, p: Piece): Ctx { Ctx(img.lib, p.cfg, p.locals, p.arity, img.globals) }

  /** Every callee a piece names is a piece that takes that many arguments. */
  ghost predicate CalleesKnown(labels: Labels, pieces: set<Piece>, cfg: Config) {
    forall c :: c in cfg.callTargets.Values ==> c.0 in labels && exists q :: q in pieces && q.entry == labels[c.0] && q.arity == c.1
  }

  ghost predicate PieceOk(img: M.Image, labels: Labels, pieces: set<Piece>, p: Piece) {
    && CodeAt(img.program, labels, p.entry, [BEGIN(p.arity, p.locals)] + p.body)
    && EndsInEnd(CtxOf(img, p), p.body) && CalleesKnown(labels, pieces, p.cfg) && p.arity < 65536
  }

  ghost predicate Linked(img: M.Image, labels: Labels, pieces: set<Piece>) {
    && (forall p :: p in pieces ==> PieceOk(img, labels, pieces, p))
    && (forall a :: a in img.program ==> FitsI32(img.program[a].next))
  }

  // Positions in a piece

  /** An activation: the next instruction of a piece, the frame, and its temporaries. */
  datatype Act = Act(p: Piece, j: nat, fp: nat, depth: nat)

  predicate ActOk(lib: RT.Library, pieces: set<Piece>, a: Act) {
    a.p in pieces && a.j < |a.p.body| && Depth(lib, a.p.body[..a.j], 0) == Some(a.depth)
  }

  function Ip(p: Piece, j: nat): nat
    requires j <= |p.body|
  {
    p.entry + 9 + Extent(p.body[..j])
  }

  lemma BodyPlaced(img: M.Image, labels: Labels, pieces: set<Piece>, p: Piece)
    requires PieceOk(img, labels, pieces, p)
    ensures p.entry in img.program && img.program[p.entry] == Decoded(BEGIN(p.arity, p.locals), p.entry + 9)
    ensures CodeAt(img.program, labels, p.entry + 9, p.body)
  {
    hide EndsInEnd;
    var begin := BEGIN(p.arity, p.locals);
    assert ([begin] + p.body)[1..] == p.body && ([begin] + p.body)[0] == begin;
  }

  /** The instruction at a position, and the positions around it. */
  lemma AtPosition(img: M.Image, labels: Labels, pieces: set<Piece>, p: Piece, j: nat)
    requires PieceOk(img, labels, pieces, p) && j < |p.body|
    ensures var i := p.body[j];
      if i.LABEL? then Ip(p, j + 1) == Ip(p, j) && i.mark in labels && labels[i.mark] == Ip(p, j)
      else Ip(p, j) in img.program && img.program[Ip(p, j)] == Decoded(Assembly.Target(labels, i), Ip(p, j + 1))
  {
    hide EndsInEnd;
    BodyPlaced(img, labels, pieces, p);
    CodeAtIndex(img.program, labels, p.entry + 9, p.body, j);
    assert p.body[..j + 1] == p.body[..j] + [p.body[j]];
    ExtentSplit(p.body[..j], [p.body[j]]);
    if p.body[j].LABEL? { assert Extent([p.body[j]]) == 0 + Extent([]); }
  }

  lemma DepthNext(lib: RT.Library, code: Code, j: nat)
    requires j < |code| && Depth(lib, code, 0).Some?
    ensures Depth(lib, code[..j], 0).Some? && Depth(lib, code[..j + 1], 0).Some?
    ensures DepthAfter(lib, code[j], Depth(lib, code[..j], 0).value) == Depth(lib, code[..j + 1], 0)
  {
    hide DepthAfter;
    assert code == code[..j] + code[j..];
    assert code == code[..j + 1] + code[j + 1..];
    DepthSplit(lib, code[..j], code[j..], 0);
    DepthSplit(lib, code[..j + 1], code[j + 1..], 0);
    assert code[..j + 1] == code[..j] + [code[j]];
    DepthSplit(lib, code[..j], [code[j]], 0);
    DepthOne(lib, code[j], Depth(lib, code[..j], 0).value);
  }

  /** Labels take no space: the same place, at the instruction that will be executed. */
  lemma {:induction false} SkipLabels(img: M.Image, labels: Labels, pieces: set<Piece>, a: Act) returns (b: Act)
    requires ActOk(img.lib, pieces, a) && PieceOk(img, labels, pieces, a.p)
    ensures ActOk(img.lib, pieces, b) && !b.p.body[b.j].LABEL?
    ensures b.p == a.p && b.fp == a.fp && b.depth == a.depth && Ip(b.p, b.j) == Ip(a.p, a.j)
    decreases |a.p.body| - a.j
  {
    hide CodeAt, Fits, CalleesKnown;
    b := a;
    if a.p.body[a.j].LABEL? {
      AtPosition(img, labels, pieces, a.p, a.j);
      DepthNext(img.lib, a.p.body, a.j);
      b := SkipLabels(img, labels, pieces, a.(j := a.j + 1));
    }
  }

  /** A landing label has a position without temporaries. */
  lemma {:induction false} LandingPosition(lib: RT.Library, code: Code, d: nat, t: string) returns (j: nat)
    requires t in Landings(lib, code, d)
    ensures j < |code| && code[j] == LABEL(t) && Depth(lib, code[..j], d) == Some(0)
    decreases |code|
  {
    hide DepthAfter;
    if code[0].LABEL? && d == 0 && code[0].mark == t {
      j := 0;
    } else {
      var d' := DepthAfter(lib, code[0], d).value;
      var j' := LandingPosition(lib, code[1..], d', t);
      j := j' + 1;
      assert code[..j] == [code[0]] + code[1..][..j'];
      DepthSplit(lib, [code[0]], code[1..][..j'], d);
      DepthOne(lib, code[0], d);
    }
  }

  // The stack as a chain of frames

  /** Words of main's emulated call below its frame. */
  const BOOT := 7

  predicate FrameAt(stack: seq<Value>, a: Act) {
    && a.p.arity <= a.fp && |stack| == a.fp + M.META + a.p.locals + a.depth && |stack| <= M.MAX_STACK
    && stack[a.fp + 1] == RT.Int(a.p.arity) && stack[a.fp + 2] == RT.Int(a.p.locals)
  }

  /** From the innermost activation outwards. */
  predicate Stacked(img: M.Image, pieces: set<Piece>, acts: seq<Act>, stack: seq<Value>)
    decreases |acts|, 0
  {
    && acts != []
    && var n := |acts| - 1;
       var a := acts[n];
       ActOk(img.lib, pieces, a) && FrameAt(stack, a) && Returns(img, pieces, acts[..n], a.p.arity, a.fp, stack)
  }

  /** The frame leads back to its caller, whose stack is seen with the result it waits for;
      main's frame leads back to the globals. */
  predicate Returns(img: M.Image, pieces: set<Piece>, callers: seq<Act>, arity: nat, fp: nat, stack: seq<Value>)
    requires arity <= fp && fp + M.META <= |stack|
    decreases |callers|, 1
  {
    if callers == [] then
      fp == img.globals + BOOT && arity == 0 && stack[fp + 3] == RT.Int(img.globals) && stack[fp + 4] == RT.Int(0)
    else
      var c := callers[|callers| - 1];
      && c.j < |c.p.body| && c.depth >= 1
      && stack[fp + 3] == RT.Int(c.fp) && stack[fp + 4] == RT.Int(Ip(c.p, c.j))
      && Stacked(img, pieces, callers, stack[..fp - arity] + [RT.Int(0)])
  }

  /** Running inside the innermost activation. */
  predicate Inside(img: M.Image, pieces: set<Piece>, acts: seq<Act>, s: M.State) {
    && Stacked(img, pieces, acts, s.stack)
    && var a := acts[|acts| - 1];
       s.fp == a.fp && s.argc == a.p.arity && s.locc == a.p.locals && s.ip == Ip(a.p, a.j)
  }

  /** At a callee's BEGIN: its arguments and the return address are on top. */
  predicate Entering(img: M.Image, pieces: set<Piece>, acts: seq<Act>, p: Piece, s: M.State) {
    && p in pieces && s.ip == p.entry && |s.stack| <= M.MAX_STACK
    && if acts == [] then |s.stack| == img.globals + BOOT + 1 && s.fp == img.globals && p.arity == 0 && s.stack[|s.stack| - 1] == RT.Int(0)
       else
         var c := acts[|acts| - 1];
         && |s.stack| >= 1 + p.arity && c.j < |c.p.body| && s.fp == c.fp && c.depth >= 1
         && s.stack[|s.stack| - 1] == RT.Int(Ip(c.p, c.j))
         && Stacked(img, pieces, acts, s.stack[..|s.stack| - 1 - p.arity] + [RT.Int(0)])
  }

  /** Callable objects lead to pieces that take as many arguments as they say. */
  ghost predicate CallablesKnown(pieces: set<Piece>, h: RT.Heap) {
    forall o :: o in h && o.Callable? ==> exists q :: q in pieces && q.entry == o.entry && q.arity == o.arity
  }

  ghost predicate Safe(img: M.Image, pieces: set<Piece>, s: M.State) {
    && CallablesKnown(pieces, s.heap)
    && ((exists acts: seq<Act> :: Inside(img, pieces, acts, s))
        || (exists acts: seq<Act>, p: Piece :: Entering(img, pieces, acts, p, s)))
  }

  /** The outcome of a step taken in a safe state. */
  ghost predicate SafeOutcome(img: M.Image, pieces: set<Piece>, o: M.Outcome) {
    match o
    case Running(t) => Safe(img, pieces, t)
    case Halted(t) => |t.stack| == img.globals + BOOT + 1
    case Failed(e) => !Broken(e)
  }

  // The top of the stack

  /** A frame that is not main's leads back to the activation before it. */
  lemma CallerOf(img: M.Image, pieces: set<Piece>, acts: seq<Act>, stack: seq<Value>)
    requires Stacked(img, pieces, acts, stack) && |acts| > 1
    ensures var a, c := acts[|acts| - 1], acts[|acts| - 2];
      && c.j < |c.p.body| && c.depth >= 1 && a.fp + M.META <= |stack| && a.p.arity <= a.fp
      && stack[a.fp + 3] == RT.Int(c.fp) && stack[a.fp + 4] == RT.Int(Ip(c.p, c.j))
      && Stacked(img, pieces, acts[..|acts| - 1], stack[..a.fp - a.p.arity] + [RT.Int(0)])
  {
    var n := |acts| - 1;
    assert acts[..n] != [] && acts[..n][|acts[..n]| - 1] == acts[n - 1];
  }

  lemma MainFrame(img: M.Image, pieces: set<Piece>, acts: seq<Act>, stack: seq<Value>)
    requires Stacked(img, pieces, acts, stack) && |acts| == 1
    ensures var a := acts[0];
      && a.fp == img.globals + BOOT && a.p.arity == 0 && a.fp + M.META <= |stack|
      && stack[a.fp + 3] == RT.Int(img.globals) && stack[a.fp + 4] == RT.Int(0)
  {
    assert acts[..0] == [];
  }

  /** Only what is below the locals matters to the frame. */
  lemma ReturnsSame(img: M.Image, pieces: set<Piece>, callers: seq<Act>, arity: nat, fp: nat, stack: seq<Value>, stack': seq<Value>)
    requires arity <= fp && fp + M.META <= |stack| && fp + M.META <= |stack'| && stack'[..fp + M.META] == stack[..fp + M.META]
    requires Returns(img, pieces, callers, arity, fp, stack)
    ensures Returns(img, pieces, callers, arity, fp, stack')
    ensures stack'[fp + 1] == stack[fp + 1] && stack'[fp + 2] == stack[fp + 2]
  {
    hide Stacked, Ip;
    var n := fp + M.META;
    forall k | 0 <= k < n ensures stack'[k] == stack[k] { assert stack'[..n][k] == stack[..n][k]; }
    assert stack'[..fp - arity] == stack[..fp - arity];
  }

  /** A temporary's value does not matter. */
  lemma TopFree(img: M.Image, pieces: set<Piece>, acts: seq<Act>, base: seq<Value>, x: Value, y: Value)
    requires Stacked(img, pieces, acts, base + [x]) && acts[|acts| - 1].depth >= 1
    ensures Stacked(img, pieces, acts, base + [y])
  {
    hide Returns, ActOk;
    var n, a := |acts| - 1, acts[|acts| - 1];
    var low := a.fp + M.META;
    assert (base + [x])[..low] == base[..low] == (base + [y])[..low];
    ReturnsSame(img, pieces, acts[..n], a.p.arity, a.fp, base + [x], base + [y]);
  }

  lemma SameFrameAt(stack: seq<Value>, stack': seq<Value>, a: Act, j: nat, depth: nat)
    requires FrameAt(stack, a) && |stack'| == a.fp + M.META + a.p.locals + depth && |stack'| <= M.MAX_STACK
    requires a.fp + M.META <= |stack| && stack'[..a.fp + M.META] == stack[..a.fp + M.META]
    ensures FrameAt(stack', a.(j := j, depth := depth)) && a.p.arity <= a.fp
  {
    var low := a.fp + M.META;
    assert stack'[a.fp + 1] == stack'[..low][a.fp + 1] && stack'[a.fp + 2] == stack'[..low][a.fp + 2];
  }

  /** Moving on inside the frame: temporaries change, everything below stays. */
  lemma MoveOn(img: M.Image, pieces: set<Piece>, acts: seq<Act>, stack: seq<Value>, stack': seq<Value>, j: nat, depth: nat)
    requires Stacked(img, pieces, acts, stack)
    requires var a := acts[|acts| - 1];
      && ActOk(img.lib, pieces, a.(j := j, depth := depth))
      && |stack'| == a.fp + M.META + a.p.locals + depth && |stack'| <= M.MAX_STACK
      && a.fp + M.META <= |stack| && stack'[..a.fp + M.META] == stack[..a.fp + M.META]
    ensures Stacked(img, pieces, acts[..|acts| - 1] + [acts[|acts| - 1].(j := j, depth := depth)], stack')
  {
    hide ActOk, Returns, FrameAt;
    var n := |acts| - 1;
    var a := acts[n];
    var acts' := acts[..n] + [a.(j := j, depth := depth)];
    SameFrameAt(stack, stack', a, j, depth);
    assert acts'[..n] == acts[..n] && acts'[n] == a.(j := j, depth := depth) && |acts'| == n + 1;
    ReturnsSame(img, pieces, acts[..n], a.p.arity, a.fp, stack, stack');
  }

  /** Writing a variable of the frame, or a global, keeps the whole chain. */
  lemma {:induction false} WriteGlobal(img: M.Image, pieces: set<Piece>, acts: seq<Act>, stack: seq<Value>, k: nat, v: Value)
    requires Stacked(img, pieces, acts, stack) && k < img.globals
    ensures k < |stack| && Stacked(img, pieces, acts, stack[k := v])
    ensures img.globals + BOOT <= acts[|acts| - 1].fp - acts[|acts| - 1].p.arity
    decreases |acts|
  {
    var n := |acts| - 1;
    var a := acts[n];
    if n > 0 {
      var low := a.fp - a.p.arity;
      WriteGlobal(img, pieces, acts[..n], stack[..low] + [RT.Int(0)], k, v);
      assert stack[k := v][..low] + [RT.Int(0)] == (stack[..low] + [RT.Int(0)])[k := v];
    }
  }

  /** Frames start above the globals and the boot words. */
  lemma {:induction false} FramesAbove(img: M.Image, pieces: set<Piece>, acts: seq<Act>, stack: seq<Value>)
    requires Stacked(img, pieces, acts, stack)
    ensures img.globals + BOOT <= acts[|acts| - 1].fp - acts[|acts| - 1].p.arity
    decreases |acts|
  {
    var n := |acts| - 1;
    if n > 0 { FramesAbove(img, pieces, acts[..n], stack[..acts[n].fp - acts[n].p.arity] + [RT.Int(0)]); }
  }

  /** Saved frame pointers strictly decrease from callee to caller, down to main's frame. */
  lemma {:induction false} FramePointersFall(img: M.Image, pieces: set<Piece>, acts: seq<Act>, stack: seq<Value>, i: nat, j: nat)
    requires Stacked(img, pieces, acts, stack) && i < j < |acts|
    ensures acts[i].fp < acts[j].fp
    ensures acts[0].fp == img.globals + BOOT
    decreases |acts|
  {
    var n := |acts| - 1;
    var a, c := acts[n], acts[n - 1];
    var below := stack[..a.fp - a.p.arity] + [RT.Int(0)];
    CallerOf(img, pieces, acts, stack);
    assert acts[..n][n - 1] == c;
    assert c.fp < a.fp by { assert |below| == c.fp + M.META + c.p.locals + c.depth; }
    if j < n {
      FramePointersFall(img, pieces, acts[..n], below, i, j);
    } else if i < n - 1 {
      FramePointersFall(img, pieces, acts[..n], below, i, n - 1);
    } else if n > 1 {
      FramePointersFall(img, pieces, acts[..n], below, 0, n - 1);
    } else {
      assert Stacked(img, pieces, acts[..1], below);
    }
  }

  // One step

  function Top(acts: seq<Act>): Act
    requires acts != []
  {
    acts[|acts| - 1]
  }

  /** The instruction the innermost activation stands at. */
  function Now(acts: seq<Act>): Instr {
    if acts != [] && Top(acts).j < |Top(acts).p.body| then Top(acts).p.body[Top(acts).j] else NOP
  }

  predicate AtEnd(img: M.Image, s: M.State) { s.ip in img.program && img.program[s.ip].instr.END? }

  predicate AtBegin(img: M.Image, s: M.State) { s.ip in img.program && img.program[s.ip].instr.BEGIN? }

  function Moved(acts: seq<Act>, j: nat, depth: nat): seq<Act>
    requires acts != []
  {
    acts[..|acts| - 1] + [Top(acts).(j := j, depth := depth)]
  }

  /** Inside, at an instruction that executes: what it is, and what comes after it. */
  ghost predicate Current(img: M.Image, labels: Labels, pieces: set<Piece>, acts: seq<Act>, s: M.State) {
    && Linked(img, labels, pieces) && Inside(img, pieces, acts, s)
    && acts != [] && Top(acts).j < |Top(acts).p.body| && !Top(acts).p.body[Top(acts).j].LABEL?
  }

  lemma FindCurrent(img: M.Image, labels: Labels, pieces: set<Piece>, acts: seq<Act>, s: M.State) returns (acts': seq<Act>)
    requires Linked(img, labels, pieces) && Inside(img, pieces, acts, s)
    ensures Current(img, labels, pieces, acts', s)
  {
    hide PieceOk, Ip;
    var b := SkipLabels(img, labels, pieces, Top(acts));
    acts' := Moved(acts, b.j, b.depth);
    MoveOn(img, pieces, acts, s.stack, s.stack, b.j, b.depth);
  }

  /** Facts about the current instruction. */
  lemma Instruction(img: M.Image, labels: Labels, pieces: set<Piece>, acts: seq<Act>, s: M.State)
    requires Current(img, labels, pieces, acts, s)
    ensures var a := Top(acts);
      var i := a.p.body[a.j];
      && a.p in pieces && PieceOk(img, labels, pieces, a.p) && Fits(CtxOf(img, a.p), i)
      && s.ip in img.program && img.program[s.ip] == Decoded(Assembly.Target(labels, i), Ip(a.p, a.j + 1))
      && FitsI32(Ip(a.p, a.j + 1))
      && DepthAfter(img.lib, i, a.depth).Some?
      && (i != END ==> ActOk(img.lib, pieces, a.(j := a.j + 1, depth := DepthAfter(img.lib, i, a.depth).value)))
  {
    hide CodeAt, DepthAfter, Fits, CalleesKnown;
    var a := Top(acts);
    AtPosition(img, labels, pieces, a.p, a.j);
    DepthNext(img.lib, a.p.body, a.j);
    assert a.p.body[a.j] in a.p.body;
  }

  /** Resolving a target changes nothing that the depth or the handler's pops depend on. */
  lemma TargetKind(lib: RT.Library, labels: Labels, i: Instr)
    ensures var t := Assembly.Target(labels, i);
      M.Pops(lib, t) == M.Pops(lib, i) && Pushes(t) == Pushes(i) && M.IsControl(t) == M.IsControl(i)
      && t.CLOSURE? == i.CLOSURE? && (!i.JMP? && !i.CJMP? && !i.CALL? && !i.CLOSURE? ==> t == i)
  {
  }

  lemma PrimPushes(img: M.Image, i: Instr, h: RT.Heap, ops: seq<Value>)
    requires |ops| == M.Pops(img.lib, i) && !M.IsControl(i) && M.Prim(img, i, h, ops).Ok?
    ensures |M.Prim(img, i, h, ops).value.pushes| == Pushes(i)
  {
    hide RT.VmBinop, RT.Unop, RT.CallBuiltin, RT.SliceOf, RT.Elem, RT.NewVariant, RT.NewText, RT.SetItem, RT.SetField, RT.SliceAssign, RT.Write;
  }

  /** A safe state with a new top of the current frame. */
  lemma SafeMove(img: M.Image, labels: Labels, pieces: set<Piece>, acts: seq<Act>, s: M.State, j: nat, depth: nat, t: M.State)
    requires Current(img, labels, pieces, acts, s) && ActOk(img.lib, pieces, Top(acts).(j := j, depth := depth))
    requires var a := Top(acts);
      && |t.stack| == a.fp + M.META + a.p.locals + depth && |t.stack| <= M.MAX_STACK
      && a.fp + M.META <= |s.stack| && t.stack[..a.fp + M.META] == s.stack[..a.fp + M.META]
      && t.fp == s.fp && t.argc == s.argc && t.locc == s.locc && t.ip == Ip(a.p, j) && CallablesKnown(pieces, t.heap)
    ensures Safe(img, pieces, t)
  {
    hide ActOk, PieceOk, Ip;
    MoveOn(img, pieces, acts, s.stack, t.stack, j, depth);
    assert Inside(img, pieces, Moved(acts, j, depth), t);
  }

  lemma PrimSafe(img: M.Image, labels: Labels, pieces: set<Piece>, acts: seq<Act>, s: M.State)
    requires Current(img, labels, pieces, acts, s) && CallablesKnown(pieces, s.heap)
    requires !M.IsControl(Now(acts))
    ensures SafeOutcome(img, pieces, M.Step(img, s))
  {
    hide M.Prim, M.Pops, PieceOk, Fits, Ip, ActOk, Assembly.Target, Safe, CallablesKnown, Pushes, Depth;
    var a := Top(acts);
    var i := a.p.body[a.j];
    Instruction(img, labels, pieces, acts, s);
    TargetKind(img.lib, labels, i);
    FramesAbove(img, pieces, acts, s.stack);
    var t, k := Assembly.Target(labels, i), M.Pops(img.lib, i);
    PrimDepth(img.lib, i, a.depth);
    var rest := |s.stack| - k;
    var ops := s.stack[rest..];
    PrimQuiet(img, t, s.heap, ops);
    if M.Prim(img, t, s.heap, ops).Ok? {
      PrimPushes(img, t, s.heap, ops);
      var e := M.Prim(img, t, s.heap, ops).value;
      CallablesStay(img, labels, pieces, a.p, i, s.heap, e);
      var s' := s.(stack := s.stack[..rest] + e.pushes, heap := e.heap, log := s.log + e.events, ip := Ip(a.p, a.j + 1));
      if |s'.stack| <= M.MAX_STACK {
        SafeMove(img, labels, pieces, acts, s, a.j + 1, a.depth - k + Pushes(i), s');
      }
    }
    M.PrimStep(img, s, t, Ip(a.p, a.j + 1));
  }

  lemma PrimDepth(lib: RT.Library, i: Instr, d: nat)
    requires !M.IsControl(i) && DepthAfter(lib, i, d).Some?
    ensures M.Pops(lib, i) <= d && DepthAfter(lib, i, d).value == d - M.Pops(lib, i) + Pushes(i)
  {
  }

  lemma CallablesStay(img: M.Image, labels: Labels, pieces: set<Piece>, p: Piece, i: Instr, h: RT.Heap, e: M.Effect)
    requires PieceOk(img, labels, pieces, p) && Fits(CtxOf(img, p), i) && CallablesKnown(pieces, h)
    requires QuietEffect(Assembly.Target(labels, i), h, Ok(e))
    ensures CallablesKnown(pieces, e.heap)
  {
    hide CodeAt, EndsInEnd;
    forall o | o in e.heap && o.Callable? ensures exists q :: q in pieces && q.entry == o.entry && q.arity == o.arity {
      if o !in h { assert (i.dest.name, i.arity) in p.cfg.callTargets.Values; }
    }
  }

  lemma VariableSafe(img: M.Image, labels: Labels, pieces: set<Piece>, acts: seq<Act>, s: M.State)
    requires Current(img, labels, pieces, acts, s) && CallablesKnown(pieces, s.heap)
    requires var i := Now(acts); i.LOAD? || i.STORE?
    ensures SafeOutcome(img, pieces, M.Step(img, s))
  {
    hide PieceOk, Ip, ActOk, Safe, CallablesKnown, Depth, M.ExecPrim, M.ExecEnd, M.ExecBegin, M.ExecCall, M.ExecCallc, M.ExecCjmp;
    var a := Top(acts);
    var i := a.p.body[a.j];
    Instruction(img, labels, pieces, acts, s);
    TargetKind(img.lib, labels, i);
    FramesAbove(img, pieces, acts, s.stack);
    var s1 := s.(ip := Ip(a.p, a.j + 1));
    if i.LOAD? {
      if |s.stack| < M.MAX_STACK {
        var slot := M.Slot(img, s1, i.rel, i.index).value;
        SafeMove(img, labels, pieces, acts, s, a.j + 1, a.depth + 1, s1.(stack := s.stack + [s.stack[slot]]));
      }
    } else {
      StoreSafe(img, labels, pieces, acts, s);
    }
  }

  lemma StoreSafe(img: M.Image, labels: Labels, pieces: set<Piece>, acts: seq<Act>, s: M.State)
    requires Current(img, labels, pieces, acts, s) && CallablesKnown(pieces, s.heap)
    requires Now(acts).STORE?
    ensures SafeOutcome(img, pieces, M.Step(img, s))
  {
    hide PieceOk, Ip, ActOk, Safe, CallablesKnown, Depth, Stacked, M.ExecPrim, M.ExecEnd, M.ExecBegin, M.ExecCall, M.ExecCallc, M.ExecCjmp, M.ExecLoad;
    var a := Top(acts);
    var i := a.p.body[a.j];
    Instruction(img, labels, pieces, acts, s);
    TargetKind(img.lib, labels, i);
    FramesAbove(img, pieces, acts, s.stack);
    TopFrame(img, pieces, acts, s.stack);
    var top := |s.stack| - 1;
    var s1 := s.(ip := Ip(a.p, a.j + 1), stack := s.stack[..top]);
    var slot := M.Slot(img, s1, i.rel, i.index).value;
    var written := s.stack[slot := s.stack[top]];
    if i.rel == Global {
      WriteGlobal(img, pieces, acts, s.stack, slot, s.stack[top]);
    } else {
      WriteOwn(img, pieces, acts, s.stack, slot, s.stack[top]);
    }
    assert s.stack[..top][slot := s.stack[top]] == written[..top];
    SafeMove(img, labels, pieces, acts, s.(stack := written), a.j + 1, a.depth - 1, s1.(stack := written[..top]));
  }

  lemma TopFrame(img: M.Image, pieces: set<Piece>, acts: seq<Act>, stack: seq<Value>)
    requires Stacked(img, pieces, acts, stack)
    ensures |stack| == Top(acts).fp + M.META + Top(acts).p.locals + Top(acts).depth && |stack| <= M.MAX_STACK
    ensures Top(acts).p.arity <= Top(acts).fp
  {
  }

  /** Arguments and locals of the running frame are nobody's metadata. */
  lemma WriteOwn(img: M.Image, pieces: set<Piece>, acts: seq<Act>, stack: seq<Value>, k: nat, v: Value)
    requires Stacked(img, pieces, acts, stack) && k < |stack|
    requires var a := Top(acts); a.fp - a.p.arity <= k < a.fp || a.fp + M.META <= k
    ensures Stacked(img, pieces, acts, stack[k := v])
  {
    hide ActOk;
    var a := Top(acts);
    assert stack[k := v][..a.fp - a.p.arity] == stack[..a.fp - a.p.arity];
  }

  lemma JumpSafe(img: M.Image, labels: Labels, pieces: set<Piece>, acts: seq<Act>, s: M.State)
    requires Current(img, labels, pieces, acts, s) && CallablesKnown(pieces, s.heap)
    requires var i := Now(acts); i.JMP? || i.CJMP?
    ensures SafeOutcome(img, pieces, M.Step(img, s))
  {
    hide CodeAt, Ip, Safe, CallablesKnown, Landings, Stacked, M.Step, M.ExecPrim, M.ExecEnd, M.ExecBegin, M.ExecCall, M.ExecCallc, M.ExecLoad, M.ExecStore;
    var a := Top(acts);
    var i := a.p.body[a.j];
    Instruction(img, labels, pieces, acts, s);
    FramesAbove(img, pieces, acts, s.stack);
    TopFrame(img, pieces, acts, s.stack);
    assert i.dest.name in Targets(a.p.body) by { assert i in a.p.body && i.dest.name in Balance.Target(i); }
    var j := LandingPosition(img.lib, a.p.body, 0, i.dest.name);
    AtPosition(img, labels, pieces, a.p, j);
    var rest := |s.stack| - a.depth;
    assert s.stack[..|s.stack|] == s.stack;
    var low := s.(stack := s.stack[..rest]);
    assert ActOk(img.lib, pieces, a.(j := j, depth := 0));
    SafeMove(img, labels, pieces, acts, s, j, 0, low.(ip := Ip(a.p, j)));
    if i.CJMP? { SafeMove(img, labels, pieces, acts, s, a.j + 1, 0, low.(ip := Ip(a.p, a.j + 1))); }
    JumpStep(img, labels, s, i, Ip(a.p, a.j + 1), Ip(a.p, j));
  }

  /** What a jump does to the state. */
  lemma JumpStep(img: M.Image, labels: Labels, s: M.State, i: Instr, next: nat, dest: nat)
    requires i.JMP? || (i.CJMP? && |s.stack| > img.globals)
    requires s.ip in img.program && img.program[s.ip] == Decoded(Assembly.Target(labels, i), next)
    requires i.dest.name in labels && labels[i.dest.name] == dest
    ensures i.JMP? ==> M.Step(img, s) == M.Running(s.(ip := dest))
    ensures i.CJMP? ==> var rest := s.(stack := s.stack[..|s.stack| - 1]);
      M.Step(img, s) in {M.Running(rest.(ip := dest)), M.Running(rest.(ip := next)), M.Failed(TypeMismatch)}
  {
    hide M.ExecPrim, M.ExecEnd, M.ExecBegin, M.ExecCall, M.ExecCallc, M.ExecLoad, M.ExecStore;
  }

  // Calls

  /** The caller waits after the call, with the result still to come. */
  lemma CallerWaits(img: M.Image, labels: Labels, pieces: set<Piece>, acts: seq<Act>, s: M.State, n: nat, depth: nat,
                    base: seq<Value>, args: seq<Value>, q: Piece, t: M.State)
    requires Current(img, labels, pieces, acts, s)
    requires var a := Top(acts);
      && ActOk(img.lib, pieces, a.(j := a.j + 1, depth := depth)) && FitsI32(Ip(a.p, a.j + 1)) && depth >= 1
      && base <= s.stack && |base| + 1 == a.fp + M.META + a.p.locals + depth && |base| < M.MAX_STACK
      && |args| == q.arity && q in pieces
      && t == s.(stack := base + args + [RT.Int(Ip(a.p, a.j + 1))], ip := q.entry) && |t.stack| <= M.MAX_STACK
    requires CallablesKnown(pieces, s.heap)
    ensures Safe(img, pieces, t)
  {
    hide ActOk, PieceOk, Ip;
    var a, acts' := Top(acts), Moved(acts, Top(acts).j + 1, depth);
    var waiting := base + [RT.Int(0)];
    assert s.stack[..|base|] == base;
    assert waiting[..a.fp + M.META] == s.stack[..a.fp + M.META] by {
      assert base[..a.fp + M.META] == s.stack[..a.fp + M.META];
    }
    MoveOn(img, pieces, acts, s.stack, waiting, a.j + 1, depth);
    assert t.stack[..|t.stack| - 1 - q.arity] == base;
    NextInside(img.lib, pieces, a, depth);
    assert Entering(img, pieces, acts', q, t);
  }

  lemma NextInside(lib: RT.Library, pieces: set<Piece>, a: Act, depth: nat)
    requires ActOk(lib, pieces, a.(j := a.j + 1, depth := depth))
    ensures a.j + 1 < |a.p.body|
  {
  }

  lemma CallSafe(img: M.Image, labels: Labels, pieces: set<Piece>, acts: seq<Act>, s: M.State)
    requires Current(img, labels, pieces, acts, s) && CallablesKnown(pieces, s.heap)
    requires Now(acts).CALL?
    ensures SafeOutcome(img, pieces, M.Step(img, s))
  {
    hide CodeAt, Ip, ActOk, Safe, CallablesKnown, Stacked, Depth, M.ExecPrim, M.ExecEnd, M.ExecBegin, M.ExecCallc, M.ExecLoad, M.ExecStore;
    var a := Top(acts);
    var i := a.p.body[a.j];
    Instruction(img, labels, pieces, acts, s);
    TopFrame(img, pieces, acts, s.stack);
    var callee := (i.dest.name, i.n);
    assert callee in a.p.cfg.callTargets.Values;
    var q :| q in pieces && q.entry == labels[callee.0] && q.arity == callee.1;
    var k := |s.stack| - i.n;
    var t := s.(stack := s.stack[..k] + s.stack[k..] + [RT.Int(Ip(a.p, a.j + 1))], ip := q.entry);
    assert s.stack[..k] + s.stack[k..] == s.stack;
    if |s.stack| < M.MAX_STACK {
      CallerWaits(img, labels, pieces, acts, s, i.n, a.depth - i.n + 1, s.stack[..k], s.stack[k..], q, t);
    }
    CallStep(img, labels, s, i, Ip(a.p, a.j + 1));
  }

  lemma CallStep(img: M.Image, labels: Labels, s: M.State, i: Instr, next: nat)
    requires i.CALL? && i.dest.name in labels && FitsI32(next)
    requires s.ip in img.program && img.program[s.ip] == Decoded(Assembly.Target(labels, i), next)
    ensures M.Step(img, s) == if |s.stack| >= M.MAX_STACK then M.Failed(StackOverflow)
      else M.Running(s.(stack := s.stack + [RT.Int(next)], ip := labels[i.dest.name]))
  {
    hide M.ExecPrim, M.ExecEnd, M.ExecBegin, M.ExecCallc, M.ExecLoad, M.ExecStore, M.ExecCjmp;
  }

  lemma CallcSafe(img: M.Image, labels: Labels, pieces: set<Piece>, acts: seq<Act>, s: M.State)
    requires Current(img, labels, pieces, acts, s) && CallablesKnown(pieces, s.heap)
    requires Now(acts).CALLC?
    ensures SafeOutcome(img, pieces, M.Step(img, s))
  {
    hide CodeAt, Ip, ActOk, Safe, Stacked, Depth, EndsInEnd, CalleesKnown, M.ExecPrim, M.ExecEnd, M.ExecBegin, M.ExecCall, M.ExecLoad, M.ExecStore;
    var a := Top(acts);
    var i := a.p.body[a.j];
    Instruction(img, labels, pieces, acts, s);
    TargetKind(img.lib, labels, i);
    TopFrame(img, pieces, acts, s.stack);
    var n := i.arity;
    var k := |s.stack| - n - 1;
    if RT.IsObj(s.heap, s.stack[k]) && s.heap[s.stack[k].addr].Callable? && s.heap[s.stack[k].addr].arity == n {
      var o := s.heap[s.stack[k].addr];
      var q :| q in pieces && q.entry == o.entry && q.arity == o.arity;
      var t := s.(stack := s.stack[..k] + s.stack[k + 1..] + [RT.Int(Ip(a.p, a.j + 1))], ip := q.entry);
      CallerWaits(img, labels, pieces, acts, s, n, a.depth - n, s.stack[..k], s.stack[k + 1..], q, t);
    }
  }

  // BEGIN and END

  lemma BeginSafe(img: M.Image, labels: Labels, pieces: set<Piece>, acts: seq<Act>, p: Piece, s: M.State)
    requires Linked(img, labels, pieces) && Entering(img, pieces, acts, p, s) && CallablesKnown(pieces, s.heap)
    ensures SafeOutcome(img, pieces, M.Step(img, s))
    ensures AtBegin(img, s)
  {
    hide PieceOk, Depth, M.Step, Stacked, M.FrameMeta;
    BodyPlaced(img, labels, pieces, p);
    EntrySizes(img, pieces, acts, p, s);
    EntryArity(img, labels, pieces, p);
    var top, ret := |s.stack| - 1, s.stack[|s.stack| - 1];
    M.BeginStep(img, s, p.arity, p.locals);
    if top + M.META + p.locals <= M.MAX_STACK {
      var t := s.(stack := s.stack[..top] + M.FrameMeta(p.arity, p.locals, s.fp, ret) + RT.Zeros(p.locals), ip := p.entry + 9,
                  fp := top, argc := p.arity, locc := p.locals);
      var a := Act(p, 0, top, 0);
      NewFrame(img, labels, pieces, acts, p, s, t.stack);
      assert Ip(p, 0) == p.entry + 9;
      assert (acts + [a])[|acts|] == a;
      assert Inside(img, pieces, acts + [a], t);
    }
  }

  lemma EntryArity(img: M.Image, labels: Labels, pieces: set<Piece>, p: Piece)
    requires PieceOk(img, labels, pieces, p)
    ensures p.arity < 65536
  {
  }

  lemma EntrySizes(img: M.Image, pieces: set<Piece>, acts: seq<Act>, p: Piece, s: M.State)
    requires Entering(img, pieces, acts, p, s)
    ensures |s.stack| > img.globals && |s.stack| - 1 >= p.arity && s.fp < M.MAX_STACK
  {
    hide ActOk;
    if acts != [] { FramesAbove(img, pieces, acts, s.stack[..|s.stack| - 1 - p.arity] + [RT.Int(0)]); }
  }

  /** The words BEGIN writes above what it finds. */
  lemma FrameWords(base: seq<Value>, args: nat, locals: nat, fp: nat, ret: Value)
    requires FitsI32(args) && FitsI32(locals) && FitsI32(fp)
    ensures var stack := base + M.FrameMeta(args, locals, fp, ret) + RT.Zeros(locals);
      && |stack| == |base| + M.META + locals && base <= stack
      && stack[|base| + 1] == RT.Int(args) && stack[|base| + 2] == RT.Int(locals) && stack[|base| + 3] == RT.Int(fp)
      && stack[|base| + 4] == ret
  {
  }

  lemma NewFrame(img: M.Image, labels: Labels, pieces: set<Piece>, acts: seq<Act>, p: Piece, s: M.State, stack: seq<Value>)
    requires Linked(img, labels, pieces) && Entering(img, pieces, acts, p, s)
    requires var top := |s.stack| - 1;
      && top + M.META + p.locals <= M.MAX_STACK
      && stack == s.stack[..top] + M.FrameMeta(p.arity, p.locals, s.fp, s.stack[top]) + RT.Zeros(p.locals)
    ensures Stacked(img, pieces, acts + [Act(p, 0, |s.stack| - 1, 0)], stack)
  {
    hide PieceOk, Ip, M.FrameMeta, ActOk;
    var top := |s.stack| - 1;
    var a := Act(p, 0, top, 0);
    assert (acts + [a])[|acts|] == a && (acts + [a])[..|acts|] == acts;
    EntrySizes(img, pieces, acts, p, s);
    FrameWords(s.stack[..top], p.arity, p.locals, s.fp, s.stack[top]);
    StartOk(img, labels, pieces, p, top);
    assert stack[..top - p.arity] == s.stack[..top - p.arity];
  }

  lemma StartOk(img: M.Image, labels: Labels, pieces: set<Piece>, p: Piece, fp: nat)
    requires Linked(img, labels, pieces) && p in pieces
    ensures ActOk(img.lib, pieces, Act(p, 0, fp, 0))
  {
    hide CodeAt, Balanced;
    assert p.body[..0] == [];
  }

  /** END: the frame goes, the caller's is complete again, with the result on top. */
  lemma EndSafe(img: M.Image, labels: Labels, pieces: set<Piece>, acts: seq<Act>, s: M.State)
    requires Current(img, labels, pieces, acts, s) && CallablesKnown(pieces, s.heap)
    requires Now(acts) == END
    ensures SafeOutcome(img, pieces, M.Step(img, s))
    ensures |s.stack| == s.fp + M.META + s.locc + 1
    ensures M.Step(img, s).Halted? ==> |acts| == 1
  {
    hide PieceOk, Ip, Depth, M.Step, M.Leave, CallablesKnown, ActOk;
    var a, n := Top(acts), |acts| - 1;
    Instruction(img, labels, pieces, acts, s);
    TargetKind(img.lib, labels, END);
    FramesAbove(img, pieces, acts, s.stack);
    TopFrame(img, pieces, acts, s.stack);
    var base, result := s.stack[..a.fp - a.p.arity], s.stack[|s.stack| - 1];
    if n > 0 {
      var c := acts[n - 1];
      CallerOf(img, pieces, acts, s.stack);
      M.EndStep(img, s, c.fp, Ip(c.p, c.j));
      assert Top(acts[..n]) == c;
      FramesAbove(img, pieces, acts[..n], base + [RT.Int(0)]);
      TopFree(img, pieces, acts[..n], base, RT.Int(0), result);
      CallerWords(img, pieces, acts[..n], base + [result]);
      M.LeaveStep(img, s.(ip := img.program[s.ip].next), base + [result], c.fp, Ip(c.p, c.j), c.p.arity, c.p.locals);
      var t := s.(stack := base + [result], fp := c.fp, ip := Ip(c.p, c.j), argc := c.p.arity, locc := c.p.locals);
      assert Inside(img, pieces, acts[..n], t);
    } else {
      MainFrame(img, pieces, acts, s.stack);
      M.EndStep(img, s, img.globals, 0);
      MainLeaves(img, s.(ip := img.program[s.ip].next), base + [result]);
    }
  }

  lemma CallerWords(img: M.Image, pieces: set<Piece>, acts: seq<Act>, stack: seq<Value>)
    requires Stacked(img, pieces, acts, stack)
    ensures var c := Top(acts);
      |stack| > c.fp + 2 && stack[c.fp + 1] == RT.Int(c.p.arity) && stack[c.fp + 2] == RT.Int(c.p.locals)
  {
  }

  lemma MainLeaves(img: M.Image, t: M.State, stack: seq<Value>)
    ensures M.Leave(img, t, stack, img.globals, 0) == M.Halted(t.(stack := stack, fp := img.globals, ip := 0))
  {
  }

  // All runs

  /** No step from a safe state breaks the stack or the code. */
  lemma StepSafe(img: M.Image, labels: Labels, pieces: set<Piece>, s: M.State)
    requires Linked(img, labels, pieces) && Safe(img, pieces, s)
    ensures SafeOutcome(img, pieces, M.Step(img, s))
    ensures AtEnd(img, s) ==> |s.stack| == s.fp + M.META + s.locc + 1
  {
    hide Linked, Inside, Entering, M.Step, SafeOutcome, CallablesKnown;
    if acts: seq<Act> :| Inside(img, pieces, acts, s) {
      var acts' := FindCurrent(img, labels, pieces, acts, s);
      InsideSafe(img, labels, pieces, acts', s);
    } else {
      var acts: seq<Act>, p: Piece :| Entering(img, pieces, acts, p, s);
      BeginSafe(img, labels, pieces, acts, p, s);
    }
  }

  /** A safe state stands at some BEGIN or at an instruction of a piece. */
  lemma SafeNow(img: M.Image, labels: Labels, pieces: set<Piece>, s: M.State)
    requires Linked(img, labels, pieces) && Safe(img, pieces, s)
    ensures s.ip in img.program
    ensures AtBegin(img, s) || exists p, i :: p in pieces && i in p.body && img.program[s.ip].instr == Assembly.Target(labels, i)
  {
    hide Inside, Entering, CodeAt, CallablesKnown, EndsInEnd, CalleesKnown, Assembly.Target;
    if acts: seq<Act> :| Inside(img, pieces, acts, s) {
      var acts' := FindCurrent(img, labels, pieces, acts, s);
      Instruction(img, labels, pieces, acts', s);
      var a := Top(acts');
      assert a.p in pieces && a.p.body[a.j] in a.p.body;
    } else {
      var acts: seq<Act>, p: Piece :| Entering(img, pieces, acts, p, s);
      EntersAt(img, pieces, acts, p, s);
      BodyPlaced(img, labels, pieces, p);
    }
  }

  lemma EntersAt(img: M.Image, pieces: set<Piece>, acts: seq<Act>, p: Piece, s: M.State)
    requires Entering(img, pieces, acts, p, s)
    ensures p in pieces && s.ip == p.entry
  {
    hide Stacked;
  }

  lemma InsideSafe(img: M.Image, labels: Labels, pieces: set<Piece>, acts: seq<Act>, s: M.State)
    requires Current(img, labels, pieces, acts, s) && CallablesKnown(pieces, s.heap)
    ensures SafeOutcome(img, pieces, M.Step(img, s))
    ensures AtEnd(img, s) ==> |s.stack| == s.fp + M.META + s.locc + 1
  {
    hide PieceOk, Ip, ActOk, Stacked, Depth, M.Step, SafeOutcome, CallablesKnown, DepthAfter;
    var a := Top(acts);
    var i := a.p.body[a.j];
    Instruction(img, labels, pieces, acts, s);
    TargetEnd(labels, i);
    if i.END? {
      EndSafe(img, labels, pieces, acts, s);
    } else if i.JMP? || i.CJMP? {
      JumpSafe(img, labels, pieces, acts, s);
    } else if i.CALL? {
      CallSafe(img, labels, pieces, acts, s);
    } else if i.CALLC? {
      CallcSafe(img, labels, pieces, acts, s);
    } else if i.LOAD? || i.STORE? {
      VariableSafe(img, labels, pieces, acts, s);
    } else if i.NOP? || i.LINE? {
      IdleSafe(img, labels, pieces, acts, s);
    } else {
      PrimSafe(img, labels, pieces, acts, s);
    }
  }

  lemma TargetEnd(labels: Labels, i: Instr)
    ensures Assembly.Target(labels, i).END? == i.END?
  {
  }

  lemma IdleSafe(img: M.Image, labels: Labels, pieces: set<Piece>, acts: seq<Act>, s: M.State)
    requires Current(img, labels, pieces, acts, s) && CallablesKnown(pieces, s.heap)
    requires var i := Now(acts); i.NOP? || i.LINE?
    ensures SafeOutcome(img, pieces, M.Step(img, s))
  {
    hide PieceOk, Ip, ActOk, Safe, CallablesKnown, Depth, M.ExecPrim, M.ExecEnd, M.ExecBegin, M.ExecCall, M.ExecCallc, M.ExecCjmp, M.ExecLoad, M.ExecStore;
    var a := Top(acts);
    Instruction(img, labels, pieces, acts, s);
    TargetKind(img.lib, labels, a.p.body[a.j]);
    TopFrame(img, pieces, acts, s.stack);
    SafeMove(img, labels, pieces, acts, s, a.j + 1, a.depth, s.(ip := Ip(a.p, a.j + 1)));
  }

  /** Every reachable state is safe; a run only stops at main's END or by a fault of the
      program, never by running off its frames or its code. */
  lemma {:induction false} RunSafe(img: M.Image, labels: Labels, pieces: set<Piece>, s: M.State, n: nat)
    requires Linked(img, labels, pieces) && Safe(img, pieces, s)
    ensures SafeOutcome(img, pieces, M.Run(img, s, n))
    decreases n
  {
    hide Linked, Safe, M.Step;
    if n > 0 {
      StepSafe(img, labels, pieces, s);
      if M.Step(img, s).Running? { RunSafe(img, labels, pieces, M.Step(img, s).state, n - 1); }
    }
  }

  /** The boot state enters main. */
  lemma BootSafe(img: M.Image, pieces: set<Piece>, p: Piece)
    requires p in pieces && p.arity == 0 && img.globals + BOOT + 1 <= M.MAX_STACK
    ensures Safe(img, pieces, M.Boot(img, p.entry))
  {
    var s := M.Boot(img, p.entry);
    assert s.stack[|s.stack| - 1] == RT.Int(0);
    assert Entering(img, pieces, [], p, s);
  }
}
