/** Heaps without slices whose texts hold no references: there every instruction that makes or
    changes neither keeps the counts exact. Items are repeated only where no tuple is. */
module TameHeaps {
  import opened Results
  import opened Bytecode
  import opened RefCount
  import opened CountedMachine
  import opened CountedCorrectness
  import M = Machine
  import RT = Runtime

  predicate IsPlain(v: RT.Value) { v.Int? || v.Bool? }

  /** No slice, no reference in a text, and tuples only if there may be some. */
  predicate TameObj(o: RT.Obj<RT.Value>, tuples: bool) {
    match o
    case Slice(_, _, _) => false
    case Text(items) => forall v :: v in items ==> IsPlain(v)
    case Tuple(_) => tuples
    case _ => true
  }

  predicate Tame(h: RT.Heap, tuples: bool) { forall o :: o in h ==> TameObj(o, tuples) }

  /** Slices are not made, items not assigned; with tuples nothing is multiplied. */
  predicate Tidy(i: Instr, tuples: bool) {
    !i.SLICE? && !i.STA? && !i.STS? && if tuples then i != BINOP(MUL) else !i.TUPLE?
  }

  predicate AllTidy(code: seq<Instr>, tuples: bool) { forall i :: i in code ==> Tidy(i, tuples) }

  // What the value machine does to such a heap

  lemma AllocTame(h: RT.Heap, o: RT.Obj<RT.Value>, tuples: bool)
    requires Tame(h, tuples) && TameObj(o, tuples)
    ensures Tame(RT.Alloc(h, o).1, tuples)
  {
  }

  lemma UpdateTame(h: RT.Heap, a: nat, o: RT.Obj<RT.Value>, tuples: bool)
    requires Tame(h, tuples) && a < |h| && TameObj(o, tuples)
    ensures Tame(h[a := o], tuples)
  {
  }

  predicate LeavesTame(r: Result<(RT.Value, RT.Heap)>, tuples: bool) { r.Ok? ==> Tame(r.value.1, tuples) }

  lemma AddTame(lib: RT.Library, h: RT.Heap, a: RT.Value, b: RT.Value, tuples: bool)
    requires Tame(h, tuples)
    ensures LeavesTame(RT.Add(lib, h, a, b), tuples)
  {
    if RT.IsObj(h, a) && RT.IsObj(h, b) {
      var x, y := h[a.addr], h[b.addr];
      assert x in h && y in h;
      if x.Tuple? && y.Tuple? { AllocTame(h, RT.Tuple(x.items + y.items), tuples); }
      if x.Text? && y.Text? { AllocTame(h, RT.Text(x.items + y.items), tuples); }
    }
  }

  lemma {:induction false} RepeatedPlain(items: seq<RT.Value>, n: int)
    requires forall v :: v in items ==> IsPlain(v)
    ensures forall v :: v in RT.Repeat(items, n) ==> IsPlain(v)
    decreases if n < 0 then 0 else n
  {
    if n > 0 { RepeatedPlain(items, n - 1); }
  }

  lemma MultiplyTame(lib: RT.Library, h: RT.Heap, a: RT.Value, b: RT.Value)
    requires Tame(h, false)
    ensures LeavesTame(RT.Multiply(lib, h, a, b), false)
  {
    hide RT.Repeat;
    var seen, n := if a.Ref? then a else b, if a.Ref? then b else a;
    if RT.IsObj(h, seen) && n.Int? {
      var x := h[seen.addr];
      assert x in h;
      if x.Text? {
        RepeatedPlain(x.items, n.n);
        AllocTame(h, RT.Text(RT.Repeat(x.items, n.n)), false);
      }
    }
  }

  lemma BinopTame(lib: RT.Library, h: RT.Heap, op: Op, a: RT.Value, b: RT.Value, tuples: bool)
    requires Tame(h, tuples) && (tuples ==> op != MUL)
    ensures LeavesTame(RT.VmBinop(lib, h, op, a, b), tuples)
  {
    hide Tame, RT.Add, RT.Multiply, RT.Equal;
    AddTame(lib, h, a, b, tuples);
    if op == MUL { MultiplyTame(lib, h, a, b); }
  }

  lemma ElemTame(h: RT.Heap, c: RT.Value, i: RT.Value, tuples: bool)
    requires Tame(h, tuples)
    ensures LeavesTame(RT.Elem(h, c, i), tuples)
  {
    if RT.IsObj(h, c) && RT.Unbox(i).Ok? {
      var o, k := h[c.addr], RT.Unbox(i).value;
      assert o in h;
      if o.Text? && 0 <= k < |o.items| {
        assert o.items[k] in o.items;
        AllocTame(h, RT.Text([o.items[k]]), tuples);
      }
    }
  }

  predicate EffectTame(r: Result<M.Effect>, tuples: bool) { r.Ok? ==> Tame(r.value.heap, tuples) }

  lemma PrimTame(img: M.Image, i: Instr, h: RT.Heap, ops: seq<RT.Value>, tuples: bool)
    requires |ops| == M.Pops(img.lib, i) && Tidy(i, tuples) && Tame(h, tuples)
    ensures EffectTame(M.Prim(img, i, h, ops), tuples)
  {
    hide Tame, RT.VmBinop, RT.Unop, RT.CallBuiltin, RT.Elem, RT.NewVariant, RT.NewText, RT.SetField, RT.Write;
    if i.BINOP? {
      BinopTame(img.lib, h, i.op, ops[0], ops[1], tuples);
    } else if i.ELEM? {
      ElemTame(h, ops[0], ops[1], tuples);
    } else if i.SETFIELD? {
      SetFieldTame(h, ops[1], i.index, ops[0], tuples);
    } else if i.UNARY? {
      UnopTame(img.lib, h, i.uop, ops[0]);
    } else if i.CALLBUILTIN? && i.name != Lwrite && i.name != Lread {
      BuiltinTame(img.lib, h, i.name, ops[0]);
    } else {
      CreatedTame(img, i, h, ops, tuples);
    }
  }

  lemma UnopTame(lib: RT.Library, h: RT.Heap, op: UnaryOp, a: RT.Value)
    ensures var r := RT.Unop(lib, h, op, a); r.Ok? ==> r.value.1 == h
  {
  }

  lemma BuiltinTame(lib: RT.Library, h: RT.Heap, name: Builtin, a: RT.Value)
    ensures var r := RT.CallBuiltin(lib, h, name, a); r.Ok? ==> r.value.1 == h
  {
  }

  lemma SetFieldTame(h: RT.Heap, v: RT.Value, index: int, x: RT.Value, tuples: bool)
    requires Tame(h, tuples)
    ensures var r := RT.SetField(h, v, index, x); r.Ok? ==> Tame(r.value, tuples)
  {
    hide Tame;
    if RT.SetField(h, v, index, x).Ok? {
      UpdateTame(h, v.addr, h[v.addr].(fields := h[v.addr].fields[index := x]), tuples);
    }
  }

  lemma CreatedTame(img: M.Image, i: Instr, h: RT.Heap, ops: seq<RT.Value>, tuples: bool)
    requires |ops| == M.Pops(img.lib, i) && Tidy(i, tuples) && Tame(h, tuples)
    requires !i.BINOP? && !i.ELEM? && !i.SETFIELD? && !i.UNARY? && (i.CALLBUILTIN? ==> i.name == Lwrite || i.name == Lread)
    ensures EffectTame(M.Prim(img, i, h, ops), tuples)
  {
    hide Tame, RT.Write;
    forall o | TameObj(o, tuples) ensures Tame(RT.Alloc(h, o).1, tuples) { AllocTame(h, o, tuples); }
  }

  // Counts

  lemma {:induction false} MeetsNone(lib: RT.Library, h: RT.Heap, depth: nat, a: RT.Value, b: RT.Value, tuples: bool)
    requires Tame(h, tuples)
    ensures !RT.Meets(lib, h, depth, a, b)
    decreases depth, 0, 0
  {
    if depth > 0 && RT.IsObj(h, a) && RT.IsObj(h, b) {
      var x, y := h[a.addr], h[b.addr];
      assert x in h && y in h;
      if x.Tuple? && y.Tuple? && |x.items| == |y.items| {
        MeetNone(lib, h, depth - 1, x.items, y.items, tuples);
      } else if x.Variant? && y.Variant? {
        match RT.FieldPairs(lib, x, y)
        case Ok(Some((xs, ys))) => MeetNone(lib, h, depth - 1, xs, ys, tuples);
        case _ =>
      }
    }
  }

  lemma {:induction false} MeetNone(lib: RT.Library, h: RT.Heap, depth: nat, xs: seq<RT.Value>, ys: seq<RT.Value>, tuples: bool)
    requires |xs| == |ys| && Tame(h, tuples)
    ensures !RT.MeetsItems(lib, h, depth, xs, ys)
    decreases depth, 1, |xs|
  {
    hide Tame, RT.Meets, RT.Equal;
    if xs != [] {
      MeetsNone(lib, h, depth, xs[0], ys[0], tuples);
      MeetNone(lib, h, depth, xs[1..], ys[1..], tuples);
    }
  }

  lemma BodyTame(h: RHeap, a: nat, tuples: bool)
    requires Tame(View(h), tuples) && a < |h.objs| && h.objs[a].Live?
    ensures TameObj(ViewObj(h.flts, h.objs[a].body), tuples)
  {
    assert View(h)[a] in View(h);
  }

  lemma TextHolds(h: RHeap, a: nat, k: nat, tuples: bool)
    requires Tame(View(h), tuples) && a < |h.objs| && h.objs[a].Live? && h.objs[a].body.Text? && k < |h.objs[a].body.items|
    ensures !IsPtr(h.objs[a].body.items[k])
  {
    hide View;
    BodyTame(h, a, tuples);
    var items := ViewAll(h.flts, h.objs[a].body.items);
    assert items[k] in items;
  }

  /** A tidy instruction keeps the counts of a tame heap exact. */
  lemma TidyIsCountable(img: M.Image, i: Instr, h: RHeap, ops: seq<RVal>, tuples: bool)
    requires |ops| == M.Pops(img.lib, i) && Tidy(i, tuples) && Tame(View(h), tuples)
    ensures Countable(img, i, h, ops)
  {
    hide View, Tame, RT.Meets;
    if i.BINOP? {
      MeetsNone(img.lib, View(h), img.lib.depth, ViewVal(h.flts, ops[0]), ViewVal(h.flts, ops[1]), tuples);
      if BodyAt(h, ops[0]).Ok? { BodyTame(h, ops[0].addr, tuples); }
    } else if i.ELEM? {
      ItemsCountable(h, ops[0], ops[1], tuples);
    }
  }

  lemma ItemsCountable(h: RHeap, c: RVal, i: RVal, tuples: bool)
    requires Tame(View(h), tuples)
    ensures CountableElem(h, c, i)
  {
    hide View, Tame;
    var index := RT.Unbox(ViewVal(h.flts, i));
    if index.Ok? && BodyAt(h, c).Ok? {
      BodyTame(h, c.addr, tuples);
      var o := BodyAt(h, c).value;
      if o.Text? && 0 <= index.value < |o.items| { TextHolds(h, c.addr, index.value, tuples); }
    }
  }

  // Steps

  /** A step that executes a tidy instruction leaves a tame heap tame. */
  lemma StepTame(img: M.Image, s: M.State, tuples: bool)
    requires Tame(s.heap, tuples) && M.Step(img, s).Running?
    requires s.ip in img.program && (M.IsControl(img.program[s.ip].instr) || Tidy(img.program[s.ip].instr, tuples))
    ensures Tame(M.Step(img, s).state.heap, tuples)
  {
    hide Tame, M.Prim, M.Pops, Tidy;
    var i, t := img.program[s.ip].instr, s.(ip := img.program[s.ip].next);
    if !M.IsControl(i) {
      var rest := |t.stack| - M.Pops(img.lib, i);
      if rest >= 0 { PrimTame(img, i, t.heap, t.stack[rest..], tuples); }
    }
  }
}
