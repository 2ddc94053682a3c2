/** What the runtime library never does: it makes no callable objects, and its failures are
    never those of a broken stack or code. */
module RuntimeFacts {
  import opened Results
  import opened Bytecode
  import opened Runtime
  import Utf8
  import StringTable
  import M = Machine

  /** Faults that would mean a broken stack or code. */
  predicate Broken(e: Fault) { e in {StackUnderflow, NotEnoughArguments, InvalidOpcode, EndOfCode} }

  predicate Mild<T>(r: Result<T>) { r.Err? ==> !Broken(r.fault) }

  /** Callables in the new heap were there before. */
  predicate NoNewCallables(h: Heap, h': Heap) { forall o :: o in h' && o.Callable? ==> o in h }

  lemma AllocPlain(h: Heap, o: Obj<Value>)
    requires !o.Callable?
    ensures NoNewCallables(h, Alloc(h, o).1)
  {
  }

  lemma UpdatePlain(h: Heap, a: nat, o: Obj<Value>)
    requires a < |h| && !o.Callable?
    ensures NoNewCallables(h, h[a := o])
  {
    forall x | x in h[a := o] && x.Callable? ensures x in h {
      var k :| 0 <= k < |h| && h[a := o][k] == x;
      assert h[k] == x;
    }
  }

  // Comparison and printing

  lemma {:induction false} EqualMild(lib: Library, h: Heap, depth: nat, a: Value, b: Value)
    ensures Mild(Equal(lib, h, depth, a, b))
    decreases depth, 0, 0
  {
    if depth > 0 && a.Ref? && b.Ref? && Materialize(h, a.addr).Ok? && Materialize(h, b.addr).Ok? {
      var x, y := Materialize(h, a.addr).value, Materialize(h, b.addr).value;
      if x.Text? && y.Text? {
        CharactersMild(x.items, y.items);
      } else if x.Tuple? && y.Tuple? && |x.items| == |y.items| {
        EqualItemsMild(lib, h, depth - 1, x.items, y.items);
      } else if x.Variant? && y.Variant? {
        EqualVariantsMild(lib, h, depth, x, y);
      }
    }
  }

  lemma {:induction false} CharactersMild(xs: seq<Value>, ys: seq<Value>)
    ensures Mild(SameCharacters(xs, ys))
    decreases |xs|
  {
    if |xs| == |ys| && xs != [] { CharactersMild(xs[1..], ys[1..]); }
  }

  lemma {:induction false} EqualItemsMild(lib: Library, h: Heap, depth: nat, xs: seq<Value>, ys: seq<Value>)
    requires |xs| == |ys|
    ensures Mild(EqualItems(lib, h, depth, xs, ys))
    decreases depth, 1, |xs|
  {
    if xs != [] {
      EqualMild(lib, h, depth, xs[0], ys[0]);
      EqualItemsMild(lib, h, depth, xs[1..], ys[1..]);
    }
  }

  lemma {:induction false} EqualVariantsMild(lib: Library, h: Heap, depth: nat, x: Obj<Value>, y: Obj<Value>)
    requires depth > 0 && x.Variant? && y.Variant?
    ensures Mild(EqualVariants(lib, h, depth, x, y))
    decreases depth - 1, 2, 0
  {
    match FieldPairs(lib, x, y)
    case Ok(Some((xs, ys))) => EqualItemsMild(lib, h, depth - 1, xs, ys);
    case _ =>
  }

  lemma {:induction false} StringifyMild(h: Heap, depth: nat, v: Value)
    ensures Mild(Stringify(h, depth, v))
    decreases depth, 0
  {
    if depth > 0 && v.Ref? && Materialize(h, v.addr).Ok? && Materialize(h, v.addr).value.Tuple? {
      StringifyAllMild(h, depth - 1, Materialize(h, v.addr).value.items);
    }
  }

  lemma {:induction false} StringifyAllMild(h: Heap, depth: nat, vs: seq<Value>)
    ensures Mild(StringifyAll(h, depth, vs))
    decreases depth, 1 + |vs|
  {
    if vs != [] {
      StringifyMild(h, depth, vs[0]);
      StringifyAllMild(h, depth, vs[1..]);
    }
  }

  lemma {:induction false} DecodeMild(s: seq<Byte>)
    ensures Mild(Utf8.DecodeAll(s))
    decreases |s|
  {
    if s != [] && Utf8.DecodeOne(s).Ok? { DecodeMild(s[Utf8.Width(s[0])..]); }
  }

  // Operations

  predicate Quiet(h: Heap, r: Result<(Value, Heap)>) { Mild(r) && (r.Ok? ==> NoNewCallables(h, r.value.1)) }

  lemma AddQuiet(lib: Library, h: Heap, a: Value, b: Value)
    ensures Quiet(h, Add(lib, h, a, b))
  {
    hide NoNewCallables;
    forall o: Obj<Value> | !o.Callable? ensures NoNewCallables(h, Alloc(h, o).1) { AllocPlain(h, o); }
    NothingNew(h);
  }

  lemma NothingNew(h: Heap)
    ensures NoNewCallables(h, h)
  {
  }

  lemma MultiplyQuiet(lib: Library, h: Heap, a: Value, b: Value)
    ensures Quiet(h, Multiply(lib, h, a, b))
  {
    hide NoNewCallables, Repeat;
    forall o: Obj<Value> | !o.Callable? ensures NoNewCallables(h, Alloc(h, o).1) { AllocPlain(h, o); }
    NothingNew(h);
  }

  lemma BinopQuiet(lib: Library, h: Heap, op: Op, a: Value, b: Value)
    ensures Quiet(h, VmBinop(lib, h, op, a, b))
  {
    hide NoNewCallables, Add, Multiply, Equal;
    AddQuiet(lib, h, a, b);
    MultiplyQuiet(lib, h, a, b);
    EqualMild(lib, h, lib.depth, a, b);
    NothingNew(h);
  }

  lemma UnopQuiet(lib: Library, h: Heap, op: UnaryOp, a: Value)
    ensures Quiet(h, Unop(lib, h, op, a))
  {
    NothingNew(h);
  }

  lemma BuiltinQuiet(lib: Library, h: Heap, name: Builtin, a: Value)
    ensures Quiet(h, CallBuiltin(lib, h, name, a))
  {
    hide NoNewCallables;
    NothingNew(h);
  }

  lemma SliceQuiet(h: Heap, c: Value, from: Option<Value>, to: Option<Value>)
    ensures Quiet(h, SliceOf(h, c, from, to))
  {
    hide NoNewCallables;
    forall o: Obj<Value> | !o.Callable? ensures NoNewCallables(h, Alloc(h, o).1) { AllocPlain(h, o); }
  }

  lemma ElemQuiet(h: Heap, c: Value, i: Value)
    ensures Quiet(h, Elem(h, c, i))
  {
    hide NoNewCallables;
    forall o: Obj<Value> | !o.Callable? ensures NoNewCallables(h, Alloc(h, o).1) { AllocPlain(h, o); }
    NothingNew(h);
  }

  lemma VariantQuiet(lib: Library, h: Heap, schema: int, values: seq<Value>)
    ensures Quiet(h, NewVariant(lib, h, schema, values))
  {
    hide NoNewCallables;
    if 0 <= schema < |lib.schemas| { AllocPlain(h, Variant(schema, values)); }
  }

  lemma TextQuiet(h: Heap, bytes: seq<Byte>)
    ensures Quiet(h, NewText(h, bytes))
  {
    hide NoNewCallables, Utf8.DecodeAll;
    DecodeMild(bytes);
    forall o: Obj<Value> | !o.Callable? ensures NoNewCallables(h, Alloc(h, o).1) { AllocPlain(h, o); }
  }

  predicate QuietHeap(h: Heap, r: Result<Heap>) { Mild(r) && (r.Ok? ==> NoNewCallables(h, r.value)) }

  lemma SetItemQuiet(h: Heap, c: Value, i: Value, x: Value)
    ensures QuietHeap(h, SetItem(h, c, i, x))
  {
    hide NoNewCallables, TextItem;
    forall a: nat, o: Obj<Value> {:trigger h[a := o]} | a < |h| && !o.Callable? ensures NoNewCallables(h, h[a := o]) { UpdatePlain(h, a, o); }
  }

  lemma SetFieldQuiet(h: Heap, v: Value, index: int, x: Value)
    ensures QuietHeap(h, SetField(h, v, index, x))
  {
    hide NoNewCallables;
    forall a: nat, o: Obj<Value> {:trigger h[a := o]} | a < |h| && !o.Callable? ensures NoNewCallables(h, h[a := o]) { UpdatePlain(h, a, o); }
  }

  lemma SliceAssignQuiet(h: Heap, slice: Value, x: Value)
    ensures QuietHeap(h, SliceAssign(h, slice, x))
  {
    hide NoNewCallables;
    forall a: nat, o: Obj<Value> {:trigger h[a := o]} | a < |h| && !o.Callable? ensures NoNewCallables(h, h[a := o]) { UpdatePlain(h, a, o); }
  }

  // Instructions

  predicate QuietEffect(i: Instr, h: Heap, r: Result<M.Effect>) {
    && Mild(r)
    && (r.Ok? ==> forall o :: o in r.value.heap && o.Callable? ==>
          o in h || (i.CLOSURE? && i.dest.offset.Some? && i.dest.offset.value == o.entry && i.arity == o.arity))
  }

  lemma AllocQuiet(i: Instr, h: Heap, o: Obj<Value>)
    requires o.Callable? ==> i.CLOSURE? && i.dest.offset.Some? && i.dest.offset.value == o.entry && i.arity == o.arity
    ensures QuietEffect(i, h, M.One(Ok(Alloc(h, o))))
  {
  }

  /** No instruction makes a callable but CLOSURE, and none fails as if the stack or the code
      were broken. */
  lemma PrimQuiet(img: M.Image, i: Instr, h: Heap, ops: seq<Value>)
    requires |ops| == M.Pops(img.lib, i) && !M.IsControl(i)
    ensures QuietEffect(i, h, M.Prim(img, i, h, ops))
  {
    hide NoNewCallables, VmBinop, Unop, CallBuiltin, SliceOf, Elem, NewVariant, NewText, SetItem, SetField, SliceAssign, StringifyAll;
    if i.BINOP? || i.UNARY? || i.CALLBUILTIN? {
      ComputingQuiet(img, i, h, ops);
    } else if i.NULL? || i.CLOSURE? || i.TUPLE? || i.STRING? || i.VARIANT? {
      CreatingQuiet(img, i, h, ops);
    } else {
      ReachingQuiet(img, i, h, ops);
    }
  }

  lemma ComputingQuiet(img: M.Image, i: Instr, h: Heap, ops: seq<Value>)
    requires |ops| == M.Pops(img.lib, i) && (i.BINOP? || i.UNARY? || i.CALLBUILTIN?)
    ensures QuietEffect(i, h, M.Prim(img, i, h, ops))
  {
    hide VmBinop, Unop, CallBuiltin, StringifyAll;
    if i.BINOP? {
      BinopQuiet(img.lib, h, i.op, ops[0], ops[1]);
    } else if i.UNARY? {
      UnopQuiet(img.lib, h, i.uop, ops[0]);
    } else if i.name == Lwrite {
      StringifyAllMild(h, img.lib.depth, ops);
    } else if i.name != Lread {
      BuiltinQuiet(img.lib, h, i.name, ops[0]);
    }
  }

  lemma CreatingQuiet(img: M.Image, i: Instr, h: Heap, ops: seq<Value>)
    requires |ops| == M.Pops(img.lib, i) && (i.NULL? || i.CLOSURE? || i.TUPLE? || i.STRING? || i.VARIANT?)
    ensures QuietEffect(i, h, M.Prim(img, i, h, ops))
  {
    hide NewText, NewVariant;
    if i.STRING? {
      if StringTable.StringAt(img.strings, i.offset).Ok? { TextQuiet(h, StringTable.StringAt(img.strings, i.offset).value); }
    } else if i.VARIANT? {
      VariantQuiet(img.lib, h, i.schema, ops);
    } else if i.NULL? {
      AllocQuiet(i, h, Null);
    } else if i.TUPLE? {
      AllocQuiet(i, h, Tuple(ops));
    } else if i.dest.offset.Some? && i.dest.offset.value >= 0 && i.arity >= 0 {
      AllocQuiet(i, h, Callable(i.dest.offset.value, i.arity));
    }
  }

  lemma ReachingQuiet(img: M.Image, i: Instr, h: Heap, ops: seq<Value>)
    requires |ops| == M.Pops(img.lib, i) && !M.IsControl(i)
    requires !(i.BINOP? || i.UNARY? || i.CALLBUILTIN? || i.NULL? || i.CLOSURE? || i.TUPLE? || i.STRING? || i.VARIANT?)
    ensures QuietEffect(i, h, M.Prim(img, i, h, ops))
  {
    hide SliceOf, Elem, SetItem, SetField, SliceAssign;
    if i.SLICE? {
      SliceQuiet(h, ops[0], if i.bounds % 2 == 1 then Some(ops[1]) else None,
        if i.bounds / 2 % 2 == 1 then Some(ops[1 + i.bounds % 2]) else None);
    } else if i.ELEM? {
      ElemQuiet(h, ops[0], ops[1]);
    } else if i.STA? {
      SetItemQuiet(h, ops[2], ops[1], ops[0]);
    } else if i.SETFIELD? {
      SetFieldQuiet(h, ops[1], i.index, ops[0]);
    } else if i.STS? {
      SliceAssignQuiet(h, ops[1], ops[0]);
    }
  }
}
