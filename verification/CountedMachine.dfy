/** The interpreter with its reference counts (crates/vm-interp/src/interpreter.rs and the
    runtime library it calls): every handler takes over the references it pops and hands on
    those it pushes. It refines the machine on values, and its counts stay exact. */
module CountedMachine {
  import opened Results
  import opened Bytecode
  import opened Numbers
  import opened Encoding
  import opened RefCount
  import StringTable
  import Utf8
  import M = Machine
  import RT = Runtime

  type Value = RT.Value
  type RObj = RT.Obj<RVal>

  /** What a handler pushes, and the heap it leaves. */
  datatype REffect = REffect(pushes: seq<RVal>, heap: RHeap, events: seq<RT.Event>)

  // Reading the heap

  function BodyAt(h: RHeap, v: RVal): Result<RObj> {
    if v.RRef? && v.addr < |h.objs| then
      if h.objs[v.addr].Live? then Ok(h.objs[v.addr].body) else Err(Undefined)
    else Err(TypeMismatch)
  }

  function ItemsAt(h: RHeap, a: nat): Result<seq<RVal>> {
    if a < |h.objs| && h.objs[a].Live? && (h.objs[a].body.Text? || h.objs[a].body.Tuple?) then Ok(h.objs[a].body.items)
    else Err(Undefined)
  }

  /** The items a tuple slice shows. */
  function SliceItems(h: RHeap, s: RObj): Result<seq<RVal>>
    requires s.Slice?
  {
    var items :- ItemsAt(h, s.parent);
    if s.from >= s.to then Ok([]) else if 0 <= s.from <= s.to <= |items| then Ok(items[s.from..s.to]) else Err(Undefined)
  }

  // Handlers

  function Reversed(vs: seq<RVal>): seq<RVal> { if vs == [] then [] else Reversed(vs[1..]) + [vs[0]] }

  /** Consumed operands are released, first one first. */
  function Release(h: RHeap, consumed: seq<RVal>, pushes: seq<RVal>): Result<REffect> {
    var h1 :- DecAll(h, consumed);
    Ok(REffect(pushes, h1, []))
  }

  /** A number or truth value as an owned slot. */
  function Own(h: RHeap, v: Value): Result<(RVal, RHeap)> {
    match v
    case Int(n) => Ok((RInt(n), h))
    case Bool(b) => Ok((RBool(b), h))
    case Flt(f) => Ok(AllocFlt(h, f))
    case Ref(_) => Err(TypeMismatch)
  }

  /** An operation that only looks at its operands. */
  function Scalar(h: RHeap, r: Result<Value>, consumed: seq<RVal>): Result<REffect> {
    var v :- r;
    var (p, h1) :- Own(h, v);
    Release(h1, consumed, [p])
  }

  function ValueOf(r: Result<(Value, RT.Heap)>): Result<Value> {
    var p :- r;
    Ok(p.0)
  }

  /** A new object made of shared items: each gains a reference. */
  function Share(h: RHeap, o: RObj, consumed: seq<RVal>): Result<REffect> {
    var h1 :- IncAll(h, Kids(o));
    var (p, h2) := AllocObj(h1, o);
    Release(h2, consumed, [p])
  }

  function CountedBinop(lib: RT.Library, h: RHeap, op: Op, a: RVal, b: RVal): Result<REffect> {
    var x, y := ViewVal(h.flts, a), ViewVal(h.flts, b);
    if a.RFlt? && b.RFlt? && op in {ADD, SUB, MUL} then
      var (p, h1) :- ConsumeFloats(h, a, b, lib.fpu.arith(op, x.f, y.f));
      Ok(REffect([p], h1, []))
    else if op == ADD && a.RRef? && b.RRef? then Concatenate(h, a, b)
    else if op == MUL && a.RRef? && b.RInt? then RepeatItems(h, a, b.n, [b, a])
    else if op == MUL && a.RInt? && b.RRef? then RepeatText(h, b, a.n, [b, a])
    else if op in {EQ, NEQ} && !(a.RInt? && b.RInt?) && !(a.RBool? && b.RBool?) then
      var (same, h1) :- CountedEqual(lib, h, lib.depth, a, b);
      Release(h1, [b, a], [RBool(same == (op == EQ))])
    else Scalar(h, ValueOf(RT.VmBinop(lib, View(h), op, x, y)), [b, a])
  }

  /** `RAP_materialize_slice`: a slice becomes a copy of what it shows, with one reference; the
      items of a text are copied without being counted. Anything else is itself. */
  function Copied(h: RHeap, v: RVal): Result<(RVal, RHeap)> {
    if !v.RRef? then Ok((v, h))
    else
      var o :- BodyAt(h, v);
      if !o.Slice? then Ok((v, h))
      else
        var items :- SliceItems(h, o);
        if h.objs[o.parent].body.Text? then Ok(AllocObj(h, RT.Text(items)))
        else
          var h1 :- IncAll(h, items);
          Ok(AllocObj(h1, RT.Tuple(items)))
  }

  /** `RAP_equal`: copies of slices are compared and never released. */
  function CountedEqual(lib: RT.Library, h: RHeap, depth: nat, a: RVal, b: RVal): Result<(bool, RHeap)>
    decreases depth, 0, 0
  {
    if depth == 0 then Err(StackOverflow)
    else if a.RRef? != b.RRef? then Err(TypeMismatch)
    else if a.RRef? then
      var (a', h1) :- Copied(h, a);
      var (b', h2) :- Copied(h1, b);
      var x :- BodyAt(h2, a');
      var y :- BodyAt(h2, b');
      CountedSame(lib, h2, depth, x, y)
    else
      var same :- (if a.RBool? && b.RBool? then Ok(a.b == b.b) else RT.Compare(lib, EQ, ViewVal(h.flts, a), ViewVal(h.flts, b)));
      Ok((same, h))
  }

  function CountedSame(lib: RT.Library, h: RHeap, depth: nat, x: RObj, y: RObj): Result<(bool, RHeap)>
    requires depth > 0
    decreases depth - 1, 3, 0
  {
    if x.Text? && y.Text? then
      var same :- RT.SameCharacters(ViewAll(h.flts, x.items), ViewAll(h.flts, y.items));
      Ok((same, h))
    else if x.Null? && y.Null? then Ok((true, h))
    else if x.Tuple? && y.Tuple? then
      if |x.items| != |y.items| then Ok((false, h)) else CountedEqualItems(lib, h, depth - 1, x.items, y.items)
    else if x.Variant? && y.Variant? then CountedEqualVariants(lib, h, depth, x, y)
    else Err(TypeMismatch)
  }

  function CountedEqualItems(lib: RT.Library, h: RHeap, depth: nat, xs: seq<RVal>, ys: seq<RVal>): Result<(bool, RHeap)>
    requires |xs| == |ys|
    decreases depth, 1, |xs|
  {
    if xs == [] then Ok((true, h))
    else
      var (same, h1) :- CountedEqual(lib, h, depth, xs[0], ys[0]);
      if same then CountedEqualItems(lib, h1, depth, xs[1..], ys[1..]) else Ok((false, h1))
  }

  function CountedEqualVariants(lib: RT.Library, h: RHeap, depth: nat, x: RObj, y: RObj): Result<(bool, RHeap)>
    requires depth > 0 && x.Variant? && y.Variant?
    decreases depth - 1, 2, 0
  {
    var pairs :- RT.FieldPairs(lib, x, y);
    match pairs
    case None => Ok((false, h))
    case Some((xs, ys)) => CountedEqualItems(lib, h, depth - 1, xs, ys)
  }

  /** The copies a slice is turned into for this are released again; only the result stays. */
  function Concatenate(h: RHeap, a: RVal, b: RVal): Result<REffect> {
    var x :- BodyAt(h, a);
    var y :- BodyAt(h, b);
    if x.Tuple? && y.Tuple? then Share(h, RT.Tuple(x.items + y.items), [b, a])
    else if x.Text? && y.Text? then Share(h, RT.Text(x.items + y.items), [b, a])
    else if x.Slice? && y.Slice? then
      var _ :- Need(TupleAt(h, x.parent) && TupleAt(h, y.parent), TypeMismatch);
      var xs :- SliceItems(h, x);
      var ys :- SliceItems(h, y);
      Share(h, RT.Tuple(xs + ys), [b, a])
    else Err(TypeMismatch)
  }

  predicate TupleAt(h: RHeap, a: nat) { a < |h.objs| && h.objs[a].Live? && h.objs[a].body.Tuple? }

  /** A repeated tuple counts each of its items twice. */
  function RepeatItems(h: RHeap, a: RVal, n: int, consumed: seq<RVal>): Result<REffect> {
    var x :- BodyAt(h, a);
    if x.Tuple? then
      var h1 :- IncAll(h, RT.Repeat(x.items, n));
      Share(h1, RT.Tuple(RT.Repeat(x.items, n)), consumed)
    else RepeatText(h, a, n, consumed)
  }

  function RepeatText(h: RHeap, a: RVal, n: int, consumed: seq<RVal>): Result<REffect> {
    var x :- BodyAt(h, a);
    if x.Text? then Share(h, RT.Text(RT.Repeat(x.items, n)), consumed) else Err(TypeMismatch)
  }

  /** A character of a text becomes a text of its own; a tuple's item gains a reference. */
  function CountedItem(h: RHeap, o: RObj, index: nat): Result<(RVal, RHeap)> {
    if o.Text? then
      if index < |o.items| then Ok(AllocObj(h, RT.Text([o.items[index]]))) else Err(Undefined)
    else if o.Tuple? then
      if index < |o.items| then
        var h1 :- Inc(h, o.items[index]);
        Ok((o.items[index], h1))
      else Err(OutOfBounds)
    else if o.Slice? then
      if o.from + index >= o.to + index then Err(OutOfBounds)
      else
        var items :- ItemsAt(h, o.parent);
        if !(0 <= o.from + index < |items|) then Err(Undefined)
        else if h.objs[o.parent].body.Text? then Ok(AllocObj(h, RT.Text([items[o.from + index]])))
        else
          var h1 :- Inc(h, items[o.from + index]);
          Ok((items[o.from + index], h1))
    else Err(TypeMismatch)
  }

  function CountedElem(h: RHeap, c: RVal, i: RVal): Result<REffect> {
    var index :- RT.Unbox(ViewVal(h.flts, i));
    var length :- RT.Length(View(h), ViewVal(h.flts, c));
    var o :- BodyAt(h, c);
    if index < 0 || index >= length then Err(OutOfBounds)
    else
      var (p, h1) :- CountedItem(h, o, index);
      Release(h1, [c, i], [p])
  }

  /** The new slice keeps its root parent alive. */
  function CountedSlice(h: RHeap, c: RVal, from: Option<RVal>, to: Option<RVal>): Result<REffect> {
    var hi :- (match to case None => Ok(-1) case Some(v) => RT.Unbox(ViewVal(h.flts, v)));
    var lo :- (match from case None => Ok(0) case Some(v) => RT.Unbox(ViewVal(h.flts, v)));
    var hi' :- (if hi < 0 then RT.Length(View(h), ViewVal(h.flts, c)) else Ok(hi));
    var o :- BodyAt(h, c);
    var (parent, from', to') := if o.Slice? then (o.parent, lo + o.from, hi' + o.from) else (c.addr, lo, hi');
    var items :- ItemsAt(h, parent);
    var (a, b) := RT.ClampBounds(from', to', |items|);
    Share(h, RT.Slice(parent, a, b), [c])
  }

  function CountedField(h: RHeap, v: RVal, index: int): Result<REffect> {
    if index < 0 then Err(OutOfBounds)
    else
      var o :- BodyAt(h, v);
      if !o.Variant? then Err(TypeMismatch)
      else if index >= |o.fields| then Err(OutOfBounds)
      else
        var h1 :- Inc(h, o.fields[index]);
        Release(h1, [v], [o.fields[index]])
  }

  function Rewritten(h: RHeap, a: nat, o: RObj): Result<RHeap> {
    if a < |h.objs| && h.objs[a].Live? then Ok(Rebody(h, a, o)) else Err(Undefined)
  }

  /** A field: the new content is counted, the old one released, then the field written. */
  function SwapField(h: RHeap, a: nat, o: RObj, new_: RVal, old_: RVal): Result<RHeap> {
    var h1 :- Inc(h, new_);
    var h2 :- Dec(h1, old_);
    Rewritten(h2, a, o)
  }

  /** An item: the old content is released, the new one written, then counted. */
  function SwapItem(h: RHeap, a: nat, o: RObj, new_: RVal, old_: RVal): Result<RHeap> {
    var h1 :- Dec(h, old_);
    var h2 :- Rewritten(h1, a, o);
    Inc(h2, new_)
  }

  function CountedSetField(h: RHeap, x: RVal, v: RVal, index: int): Result<REffect> {
    if index < 0 then Err(OutOfBounds)
    else
      var o :- BodyAt(h, v);
      if !o.Variant? then Err(TypeMismatch)
      else if index >= |o.fields| then Err(OutOfBounds)
      else
        var h1 :- SwapField(h, v.addr, o.(fields := o.fields[index := x]), x, o.fields[index]);
        Release(h1, [x, v], [])
  }

  /** A one-character text put into a text is unwrapped. */
  function TextItem(h: RHeap, x: RVal): RVal {
    var o := BodyAt(h, x);
    if o.Ok? && o.value.Text? && |o.value.items| == 1 then o.value.items[0] else x
  }

  function CountedSetItem(h: RHeap, x: RVal, i: RVal, c: RVal): Result<REffect> {
    var index :- RT.Unbox(ViewVal(h.flts, i));
    var o :- BodyAt(h, c);
    if o.Slice? then Err(Undefined)
    else if !(o.Text? || o.Tuple?) then Err(TypeMismatch)
    else if !(0 <= index < |o.items|) then Err(Undefined)
    else
      var item := if o.Text? then TextItem(h, x) else x;
      var h1 :- SwapItem(h, c.addr, o.(items := o.items[index := item]), item, o.items[index]);
      Release(h1, [i, x], [c])
  }

  function CountedBuiltin(lib: RT.Library, h: RHeap, i: Instr, ops: seq<RVal>): Result<REffect>
    requires i.CALLBUILTIN? && |ops| == M.Pops(lib, i)
  {
    if i.name == Lwrite then
      var events :- RT.Write(lib, View(h), ViewAll(h.flts, ops), M.WriteNewline(i.n));
      var h1 :- DecAll(h, Reversed(ops));
      Ok(REffect([], h1, events))
    else if i.name == Lread then Err(NotImplemented)
    else Scalar(h, ValueOf(RT.CallBuiltin(lib, View(h), i.name, ViewVal(h.flts, ops[0]))), ops)
  }

  /** New objects and constants: nothing is popped. */
  function CountedNew(img: M.Image, h: RHeap, i: Instr): Result<REffect> {
    if i.NULL? then Share(h, RT.Null, [])
    else if i.STRING? then
      var bytes :- StringTable.StringAt(img.strings, i.offset);
      var cps :- Utf8.DecodeAll(bytes);
      Share(h, RT.Text(seq(|cps|, k requires 0 <= k < |cps| => RInt(cps[k]))), [])
    else if i.CLOSURE? then
      if i.dest.offset.None? || i.dest.offset.value < 0 || i.arity < 0 then Err(Undefined)
      else Share(h, RT.Callable(i.dest.offset.value, i.arity), [])
    else if i.CONST? then Scalar(h, Ok(RT.Int(AsI32(i.value))), [])
    else if i.BOOL? then Scalar(h, Ok(RT.Bool(i.flag)), [])
    else if i.CONSTF? then Scalar(h, Ok(RT.Flt(i.double)), [])
    else Err(NotImplemented)
  }

  /** Arguments move into a variant; a tuple shares its items and the stack lets them go. */
  function CountedAggregate(lib: RT.Library, h: RHeap, i: Instr, ops: seq<RVal>): Result<REffect>
    requires i.TUPLE? || i.VARIANT?
  {
    if i.TUPLE? then
      if i.n < 0 then Err(Undefined) else Share(h, RT.Tuple(ops), Reversed(ops))
    else if !(0 <= i.schema < |lib.schemas|) then Err(InvalidSchema)
    else if |ops| != |lib.schemas[i.schema].fields| then Err(ArityMismatch)
    else
      var (p, h1) := AllocObj(h, RT.Variant(i.schema, ops));
      Ok(REffect([p], h1, []))
  }

  function CountedPrim(img: M.Image, i: Instr, h: RHeap, ops: seq<RVal>): Result<REffect>
    requires |ops| == M.Pops(img.lib, i)
  {
    if i.CONST? || i.BOOL? || i.CONSTF? || i.NULL? || i.STRING? || i.CLOSURE? then CountedNew(img, h, i)
    else if i.TUPLE? || i.VARIANT? then CountedAggregate(img.lib, h, i, ops)
    else if i.BINOP? then CountedBinop(img.lib, h, i.op, ops[0], ops[1])
    else if i.UNARY? then Scalar(h, ValueOf(RT.Unop(img.lib, View(h), i.uop, ViewVal(h.flts, ops[0]))), ops)
    else if i.ELEM? then CountedElem(h, ops[0], ops[1])
    else if i.SLICE? then
      CountedSlice(h, ops[0],
        if i.bounds % 2 == 1 then Some(ops[1]) else None,
        if i.bounds / 2 % 2 == 1 then Some(ops[1 + i.bounds % 2]) else None)
    else if i.FIELD? then CountedField(h, ops[0], i.index)
    else if i.SETFIELD? then CountedSetField(h, ops[0], ops[1], i.index)
    else if i.ISVARIANT? then
      var matches :- RT.MatchesVariant(img.lib, View(h), ViewVal(h.flts, ops[0]), i.schema);
      Scalar(h, Ok(RT.Bool(matches)), ops)
    else if i.VARIANTTAG? then
      var tag :- RT.TagOf(img.lib, View(h), ViewVal(h.flts, ops[0]));
      Scalar(h, Ok(RT.Int(AsI32(tag))), ops)
    else if i.STA? then CountedSetItem(h, ops[0], ops[1], ops[2])
    else if i.STS? then CountedSliceAssign(h, ops[0], ops[1])
    else if i.CALLBUILTIN? then CountedBuiltin(img.lib, h, i, ops)
    else if i.DROP? then Release(h, ops, [])
    else if i.DUP? then
      var h1 :- Inc(h, ops[0]);
      Ok(REffect([ops[0], ops[0]], h1, []))
    else if i.SWAP? then Ok(REffect([ops[1], ops[0]], h, []))
    else Err(NotImplemented)
  }

  /** Slice assignment moves items without counting them, and does not release the copy of a
      replacement that is a slice. */
  function CountedSliceAssign(h: RHeap, x: RVal, slice: RVal): Result<REffect> {
    var s :- BodyAt(h, slice);
    var _ :- BodyAt(h, x);
    if !s.Slice? then Err(TypeMismatch)
    else
      var (copy, h1) :- Copied(h, x);
      var r :- BodyAt(h1, copy);
      var items :- ItemsAt(h1, s.parent);
      if !(r.Text? || r.Tuple?) || !(0 <= s.from <= s.to <= |items|) then Err(Undefined)
      else
        Release(Rebody(h1, s.parent, RT.WithItems(h1.objs[s.parent].body, RT.Spliced(items, s.from, s.to, r.items))), [slice, x], [])
  }

  // The machine

  datatype RState = RState(stack: seq<RVal>, heap: RHeap, ip: nat, fp: nat, argc: nat, locc: nat, log: seq<RT.Event>)

  datatype ROutcome = Running(state: RState) | Halted(state: RState) | Failed(fault: Fault)

  /** The value machine's state it shows. */
  function ViewState(s: RState): M.State {
    M.State(ViewAll(s.heap.flts, s.stack), View(s.heap), s.ip, s.fp, s.argc, s.locc, s.log)
  }

  function CountedExecPrim(img: M.Image, i: Instr, s: RState): ROutcome {
    var k := M.Pops(img.lib, i);
    if |s.stack| < img.globals + k then Failed(StackUnderflow)
    else
      var rest := |s.stack| - k;
      match CountedPrim(img, i, s.heap, s.stack[rest..])
      case Err(e) => Failed(e)
      case Ok(effect) =>
        if rest + |effect.pushes| > M.MAX_STACK then Failed(StackOverflow)
        else Running(s.(stack := s.stack[..rest] + effect.pushes, heap := effect.heap, log := s.log + effect.events))
  }

  function SlotIn(img: M.Image, s: RState, rel: ValueRel, index: int): Result<nat> {
    M.SlotOf(img.globals, |s.stack|, s.fp, s.argc, s.locc, rel, index)
  }

  /** The loaded slot keeps its reference, the pushed copy gains one. */
  function CountedLoad(img: M.Image, s: RState, rel: ValueRel, index: int): ROutcome {
    match SlotIn(img, s, rel, index)
    case Err(e) => Failed(e)
    case Ok(slot) =>
      if slot >= |s.stack| then Failed(OutOfBounds)
      else if |s.stack| >= M.MAX_STACK then Failed(StackOverflow)
      else match Inc(s.heap, s.stack[slot])
        case Err(e) => Failed(e)
        case Ok(h) => Running(s.(stack := s.stack + [s.stack[slot]], heap := h))
  }

  /** The popped reference moves into the slot; what the slot held is released. */
  function CountedStore(img: M.Image, s: RState, rel: ValueRel, index: int): ROutcome {
    if |s.stack| <= img.globals then Failed(StackUnderflow)
    else
      var top := |s.stack| - 1;
      match SlotIn(img, s.(stack := s.stack[..top]), rel, index)
      case Err(e) => Failed(e)
      case Ok(slot) =>
        if slot >= top then Failed(OutOfBounds)
        else match Dec(s.heap, s.stack[slot])
          case Err(e) => Failed(e)
          case Ok(h) => Running(s.(stack := s.stack[..top][slot := s.stack[top]], heap := h))
  }

  function CountedJump(s: RState, dest: Label): ROutcome {
    if dest.offset.None? || dest.offset.value < 0 then Failed(EndOfCode)
    else Running(s.(ip := dest.offset.value))
  }

  function CountedCjmp(img: M.Image, s: RState, dest: Label, kind: JumpKind): ROutcome {
    if |s.stack| <= img.globals then Failed(StackUnderflow)
    else
      var top := |s.stack| - 1;
      var v, s' := s.stack[top], s.(stack := s.stack[..top]);
      if !v.RBool? then Failed(TypeMismatch)
      else if v.b == kind.ISNONZERO? then CountedJump(s', dest)
      else Running(s')
  }

  function CountedCall(s: RState, dest: Label): ROutcome {
    if |s.stack| >= M.MAX_STACK then Failed(StackOverflow)
    else CountedJump(s.(stack := s.stack + [RInt(AsI32(s.ip))]), dest)
  }

  /** The callable is taken out from under its arguments and released. */
  function CountedCallc(s: RState, n: int): ROutcome {
    if n < 0 || |s.stack| < n + 1 then Failed(NotEnoughArguments)
    else
      var k := |s.stack| - n - 1;
      match BodyAt(s.heap, s.stack[k])
      case Err(e) => Failed(e)
      case Ok(o) =>
        if !o.Callable? then Failed(TypeMismatch)
        else if o.arity != n then Failed(ArityMismatch)
        else if |s.stack| > M.MAX_STACK then Failed(StackOverflow)
        else match Dec(s.heap, s.stack[k])
          case Err(e) => Failed(e)
          case Ok(h) =>
            Running(s.(stack := s.stack[..k] + s.stack[k + 1..] + [RInt(AsI32(s.ip))], ip := o.entry, heap := h))
  }

  function MetaNumbers(args: nat, locals: nat, fp: nat): seq<RVal> {
    [RInt(0), RInt(AsI32(args)), RInt(AsI32(locals)), RInt(AsI32(fp))]
  }

  function CountedMeta(args: nat, locals: nat, fp: nat, ret: RVal): seq<RVal> { MetaNumbers(args, locals, fp) + [ret] }

  function IntZeros(n: nat): seq<RVal> { seq(n, _ => RInt(0)) }

  function CountedBegin(img: M.Image, s: RState, payload: int, locals: int): ROutcome {
    if locals < 0 then Failed(NotEnoughArguments)
    else if payload < 0 || |s.stack| + payload / 65536 > M.MAX_STACK then Failed(StackOverflow)
    else if |s.stack| <= img.globals then Failed(NotEnoughArguments)
    else
      var args, top := payload % 65536, |s.stack| - 1;
      if top < args then Failed(NotEnoughArguments)
      else if top + M.META + locals > M.MAX_STACK then Failed(StackOverflow)
      else
        Running(s.(
          stack := s.stack[..top] + CountedMeta(args, locals, s.fp, s.stack[top]) + IntZeros(locals),
          fp := top, argc := args, locc := locals))
  }

  function IndexIn(s: RState, k: nat): Result<nat>
    requires k < |s.stack|
  {
    M.AsIndex(ViewVal(s.heap.flts, s.stack[k]))
  }

  /** Arguments, metadata and locals are released; anything above them is cut off. */
  function CountedEnd(img: M.Image, s: RState): ROutcome {
    if |s.stack| <= img.globals then Failed(NotEnoughArguments)
    else
      var top := |s.stack| - 1;
      if top < s.fp + M.META + s.locc || s.fp < s.argc then Failed(NotEnoughArguments)
      else match (IndexIn(s, s.fp + 3), IndexIn(s, s.fp + 4))
        case (Ok(fp), Ok(ip)) =>
          (match DecAll(s.heap, s.stack[s.fp - s.argc..s.fp + M.META + s.locc])
           case Err(e) => Failed(e)
           case Ok(h) => CountedLeave(img, s.(stack := s.stack[..s.fp - s.argc] + [s.stack[top]], heap := h, fp := fp, ip := ip)))
        case _ => Failed(Undefined)
  }

  function CountedLeave(img: M.Image, s: RState): ROutcome {
    if s.fp == img.globals then Halted(s)
    else if |s.stack| <= s.fp + 2 then Failed(NotEnoughArguments)
    else match (IndexIn(s, s.fp + 1), IndexIn(s, s.fp + 2))
      case (Ok(argc), Ok(locc)) => Running(s.(argc := argc, locc := locc))
      case _ => Failed(Undefined)
  }

  function CountedExec(img: M.Image, i: Instr, s: RState): ROutcome {
    if i.NOP? || i.LINE? || i.LABEL? then Running(s)
    else if i.JMP? then CountedJump(s, i.dest)
    else if i.CJMP? then CountedCjmp(img, s, i.dest, i.kind)
    else if i.CALL? then CountedCall(s, i.dest)
    else if i.CALLC? then CountedCallc(s, i.arity)
    else if i.BEGIN? then CountedBegin(img, s, i.args, i.locals)
    else if i.END? then CountedEnd(img, s)
    else if i.LOAD? then CountedLoad(img, s, i.rel, i.index)
    else if i.STORE? then CountedStore(img, s, i.rel, i.index)
    else CountedExecPrim(img, i, s)
  }

  function CountedStep(img: M.Image, s: RState): ROutcome {
    if s.ip in img.program then
      CountedExec(img, img.program[s.ip].instr, s.(ip := img.program[s.ip].next))
    else Failed(InvalidOpcode)
  }

  function CountedRun(img: M.Image, s: RState, n: nat): ROutcome
    decreases n
  {
    if n == 0 then Running(s)
    else match CountedStep(img, s)
      case Running(s') => CountedRun(img, s', n - 1)
      case Halted(s') => Halted(s')
      case Failed(e) => Failed(e)
  }

  function CountedBoot(img: M.Image, main: nat): RState {
    RState(IntZeros(img.globals) + [RInt(0), RInt(2)] + IntZeros(6), RHeap([], []), main, img.globals, 2, 0, [])
  }

  /** After the run every slot of the stack gives up its reference. */
  function Drained(s: RState): Result<RHeap> { DecAll(s.heap, s.stack) }
}
