/** How the one operand stack shows the source memory of the running frame, and what single
    instructions do to that picture. */
module Frames {
  import opened Results
  import opened Bytecode
  import opened Numbers
  import opened Encoding
  import opened Assembly
  import opened Scoping
  import opened Codegen
  import Semantics
  import M = Machine
  import RT = Runtime

  type Value = RT.Value
  type Mem = Semantics.Mem

  /** What a frame keeps of its callers: the stack between globals and arguments, unused
      local slots, and where to return. */
  datatype Frame = Frame(below: seq<Value>, pad: nat, retFp: nat, retIp: nat)

  function Meta(fr: Frame, m: Mem): (meta: seq<Value>)
    ensures |meta| == M.META
  {
    [RT.Int(0), RT.Int(|m.args|), RT.Int(|m.locals| + fr.pad), RT.Int(fr.retFp), RT.Int(fr.retIp)]
  }

  function Base(fr: Frame, m: Mem): seq<Value> {
    m.globals + fr.below + m.args + Meta(fr, m) + m.locals + RT.Zeros(fr.pad)
  }

  function FrameStart(fr: Frame, m: Mem): nat { |m.globals| + |fr.below| + |m.args| }

  /** The machine state that runs `m` in frame `fr` with these temporaries. */
  function At(fr: Frame, m: Mem, temps: seq<Value>, ip: nat): M.State {
    M.State(Base(fr, m) + temps, m.heap, ip, FrameStart(fr, m), |m.args|, |m.locals| + fr.pad, m.log)
  }

  /** A source world, the machine that runs it, and the labels placed by the assembler. */
  datatype Linked = Linked(w: Semantics.World, img: M.Image, labels: Labels)

  predicate Placed(k: Linked, ip: nat, code: Code) { CodeAt(k.img.program, k.labels, ip, code) }

  lemma PlacedSplit(k: Linked, ip: nat, a: Code, b: Code)
    requires Placed(k, ip, a + b)
    ensures Placed(k, ip, a) && Placed(k, ip + Extent(a), b)
    ensures Extent(a + b) == Extent(a) + Extent(b)
  {
    CodeAtSplit(k.img.program, k.labels, ip, a, b);
  }

  lemma ExtentNil()
    ensures Extent([]) == 0
  {
  }

  lemma ExtentOne(i: Instr)
    ensures Extent([i]) == Size(i)
  {
    assert Extent([i]) == Size(i) + Extent([]);
  }

  lemma PlacedOne(k: Linked, ip: nat, i: Instr)
    requires Placed(k, ip, [i]) && !i.LABEL?
    ensures ip in k.img.program && k.img.program[ip] == Decoded(Target(k.labels, i), ip + Size(i))
    ensures Extent([i]) == Size(i)
  {
    ExtentOne(i);
  }

  lemma PlacedLabel(k: Linked, ip: nat, name: string)
    requires Placed(k, ip, [LABEL(name)])
    ensures name in k.labels && k.labels[name] == ip && Extent([LABEL(name)]) == 0
  {
    ExtentOne(LABEL(name));
  }

  /** The memory after an instruction that popped operands and pushed results. */
  function After(m: Mem, effect: M.Effect): Mem {
    m.(heap := effect.heap, log := if effect.events == [] then m.log else m.log + effect.events)
  }

  lemma PrimRuns(k: Linked, i: Instr, effect: M.Effect, fr: Frame, m: Mem, temps: seq<Value>, ops: seq<Value>, ip: nat)
    requires Placed(k, ip, [i]) && !i.LABEL? && !M.IsControl(Target(k.labels, i))
    requires |m.globals| == k.img.globals
    requires M.Performs(k.img, Target(k.labels, i), m.heap, ops, effect)
    ensures M.Reaches(k.img, At(fr, m, temps + ops, ip), At(fr, After(m, effect), temps + effect.pushes, Past(ip, [i])))
  {
    hide Placed, Base, M.Prim, M.Pops, M.Step, M.Reaches, Target;
    PlacedOne(k, ip, i);
    var s := At(fr, m, temps + ops, ip);
    var base := Base(fr, m) + temps;
    BaseSame(fr, m, effect);
    assert s.stack == base + ops;
    assert s.stack[|base|..] == ops && s.stack[..|base|] == base;
    assert base + effect.pushes == Base(fr, m) + (temps + effect.pushes);
    assert m.log + [] == m.log;
    M.PrimStep(k.img, s, Target(k.labels, i), ip + Extent([i]));
    M.ReachesByStep(k.img, s, At(fr, After(m, effect), temps + effect.pushes, ip + Extent([i])));
  }

  lemma BaseSame(fr: Frame, m: Mem, effect: M.Effect)
    ensures Base(fr, After(m, effect)) == Base(fr, m) && |Base(fr, m)| >= |m.globals|
  {
  }

  lemma SlotHolds(k: Linked, fr: Frame, m: Mem, temps: seq<Value>, ip: nat, x: Variable)
    requires |m.globals| == k.img.globals && Semantics.Read(m, x).Ok?
    ensures var s := At(fr, m, temps, ip);
      M.Slot(k.img, s, x.rel, x.index).Ok?
      && M.Slot(k.img, s, x.rel, x.index).value < |Base(fr, m)|
      && s.stack[M.Slot(k.img, s, x.rel, x.index).value] == Semantics.Read(m, x).value
  {
    var g, b, a, l := |m.globals|, |fr.below|, |m.args|, |m.locals|;
    var stack := Base(fr, m) + temps;
    match x.rel
    case Global => assert stack[x.index] == m.globals[x.index];
    case Arg => assert stack[g + b + x.index] == m.args[x.index];
    case Local => assert stack[g + b + a + M.META + x.index] == m.locals[x.index];
    case Capture =>
  }

  lemma LoadRuns(k: Linked, fr: Frame, m: Mem, temps: seq<Value>, ip: nat, x: Variable)
    requires Placed(k, ip, [LoadOf(x)]) && |m.globals| == k.img.globals && Semantics.Read(m, x).Ok?
    ensures M.Reaches(k.img, At(fr, m, temps, ip),
      At(fr, m, temps + [Semantics.Read(m, x).value], ip + Extent([LoadOf(x)])))
  {
    PlacedOne(k, ip, LoadOf(x));
    var v := Semantics.Read(m, x).value;
    SlotHolds(k, fr, m, temps, ip + Extent([LoadOf(x)]), x);
    assert Base(fr, m) + temps + [v] == Base(fr, m) + (temps + [v]);
    M.ReachesByStep(k.img, At(fr, m, temps, ip), At(fr, m, temps + [v], ip + Extent([LoadOf(x)])));
  }

  lemma UpdateMiddle(a: seq<Value>, b: seq<Value>, c: seq<Value>, i: nat, v: Value)
    requires i < |b|
    ensures (a + b + c)[|a| + i := v] == a + b[i := v] + c
  {
  }

  lemma GlobalWritten(fr: Frame, m: Mem, i: nat, v: Value)
    requires i < |m.globals|
    ensures Base(fr, m)[i := v] == Base(fr, m.(globals := m.globals[i := v]))
  {
    var rest := fr.below + m.args + Meta(fr, m) + m.locals + RT.Zeros(fr.pad);
    assert Meta(fr, m.(globals := m.globals[i := v])) == Meta(fr, m);
    hide Meta, RT.Zeros;
    assert Base(fr, m) == [] + m.globals + rest && Base(fr, m.(globals := m.globals[i := v])) == [] + m.globals[i := v] + rest;
    UpdateMiddle([], m.globals, rest, i, v);
  }

  lemma ArgWritten(fr: Frame, m: Mem, i: nat, v: Value)
    requires i < |m.args|
    ensures Base(fr, m)[|m.globals| + |fr.below| + i := v] == Base(fr, m.(args := m.args[i := v]))
  {
    var before, rest := m.globals + fr.below, Meta(fr, m) + m.locals + RT.Zeros(fr.pad);
    assert Meta(fr, m.(args := m.args[i := v])) == Meta(fr, m);
    hide Meta, RT.Zeros;
    assert Base(fr, m) == before + m.args + rest && Base(fr, m.(args := m.args[i := v])) == before + m.args[i := v] + rest;
    UpdateMiddle(before, m.args, rest, i, v);
  }

  lemma LocalWritten(fr: Frame, m: Mem, i: nat, v: Value)
    requires i < |m.locals|
    ensures Base(fr, m)[|m.globals| + |fr.below| + |m.args| + M.META + i := v] == Base(fr, m.(locals := m.locals[i := v]))
  {
    var before := m.globals + fr.below + m.args + Meta(fr, m);
    assert Meta(fr, m.(locals := m.locals[i := v])) == Meta(fr, m) && |Meta(fr, m)| == M.META;
    hide Meta, RT.Zeros;
    UpdateMiddle(before, m.locals, RT.Zeros(fr.pad), i, v);
  }

  lemma SlotWritten(k: Linked, fr: Frame, m: Mem, ip: nat, x: Variable, v: Value)
    requires |m.globals| == k.img.globals && Semantics.Write(m, x, v).Ok?
    ensures var slot := M.Slot(k.img, At(fr, m, [], ip), x.rel, x.index);
      slot.Ok? && slot.value < |Base(fr, m)|
      && Base(fr, m)[slot.value := v] == Base(fr, Semantics.Write(m, x, v).value)
  {
    assert Semantics.Read(m, x).Ok?;
    SlotHolds(k, fr, m, [], ip, x);
    hide Base;
    match x.rel
    case Global => GlobalWritten(fr, m, x.index, v);
    case Arg => ArgWritten(fr, m, x.index, v);
    case Local => LocalWritten(fr, m, x.index, v);
  }

  lemma StoreRuns(k: Linked, fr: Frame, m: Mem, temps: seq<Value>, ip: nat, x: Variable, v: Value)
    requires Placed(k, ip, [StoreTo(x)]) && |m.globals| == k.img.globals && Semantics.Write(m, x, v).Ok?
    ensures M.Reaches(k.img, At(fr, m, temps + [v], ip),
      At(fr, Semantics.Write(m, x, v).value, temps, ip + Extent([StoreTo(x)])))
  {
    hide Placed, Base, M.SlotOf, M.Reaches, M.ExecPrim, M.ExecBegin, M.ExecEnd, M.ExecCall, M.ExecCallc, M.ExecCjmp, M.ExecLoad;
    PlacedOne(k, ip, StoreTo(x));
    var s, m' := At(fr, m, temps + [v], ip), Semantics.Write(m, x, v).value;
    var next := ip + Extent([StoreTo(x)]);
    SlotWritten(k, fr, m, next, x, v);
    SlotFound(k, fr, m, temps, next, x, v);
    var slot := M.Slot(k.img, At(fr, m, [], next), x.rel, x.index).value;
    var popped := Base(fr, m) + temps;
    assert s.stack == popped + [v] && s.stack[..|popped|] == popped;
    assert popped[slot := v] == Base(fr, m)[slot := v] + temps;
    M.ReachesByStep(k.img, s, At(fr, m', temps, next));
  }

  /** Temporaries do not move variables. */
  lemma SlotFound(k: Linked, fr: Frame, m: Mem, temps: seq<Value>, ip: nat, x: Variable, v: Value)
    requires |m.globals| == k.img.globals && Semantics.Write(m, x, v).Ok?
    ensures M.Slot(k.img, At(fr, m, temps, ip), x.rel, x.index) == M.Slot(k.img, At(fr, m, [], ip), x.rel, x.index)
    ensures |Base(fr, m)| >= |m.globals| && FrameStart(fr, Semantics.Write(m, x, v).value) == FrameStart(fr, m)
  {
    assert Base(fr, m) + [] == Base(fr, m);
  }

  lemma JumpRuns(k: Linked, fr: Frame, m: Mem, temps: seq<Value>, ip: nat, name: string)
    requires Placed(k, ip, [JMP(Named(name))]) && name in k.labels
    ensures M.Reaches(k.img, At(fr, m, temps, ip), At(fr, m, temps, k.labels[name]))
  {
    PlacedOne(k, ip, JMP(Named(name)));
    M.ReachesByStep(k.img, At(fr, m, temps, ip), At(fr, m, temps, k.labels[name]));
  }

  lemma BranchRuns(k: Linked, fr: Frame, m: Mem, temps: seq<Value>, b: bool, ip: nat, name: string)
    requires Placed(k, ip, [LeaveUnless(name)]) && name in k.labels && |m.globals| == k.img.globals
    ensures M.Reaches(k.img, At(fr, m, temps + [RT.Bool(b)], ip),
      At(fr, m, temps, if b then ip + Extent([LeaveUnless(name)]) else k.labels[name]))
  {
    PlacedOne(k, ip, LeaveUnless(name));
    var s, base := At(fr, m, temps + [RT.Bool(b)], ip), Base(fr, m) + temps;
    assert s.stack == base + [RT.Bool(b)] && s.stack[..|base|] == base;
    M.ReachesByStep(k.img, s, At(fr, m, temps, if b then ip + Extent([LeaveUnless(name)]) else k.labels[name]));
  }
}
