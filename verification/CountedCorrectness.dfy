/** Every counted handler keeps the counts exact and shows what the value machine computes. */
module CountedCorrectness {
  import opened Results
  import opened Bytecode
  import opened Numbers
  import opened Encoding
  import opened RefCount
  import opened CountedMachine
  import StringTable
  import Utf8
  import M = Machine
  import RT = Runtime

  predicate NoPtrs(vs: seq<RVal>) { forall v :: v in vs ==> !IsPtr(v) }

  /** The handler did what the value machine's effect says, its counts are exact again, and
      all other held slots show what they showed. */
  ghost predicate Refines(h: RHeap, held: multiset<RVal>, r: Result<REffect>, e: M.Effect) {
    && r.Ok? && Exact(r.value.heap, held + multiset(r.value.pushes))
    && View(r.value.heap) == e.heap && ViewAll(r.value.heap.flts, r.value.pushes) == e.pushes && r.value.events == e.events
    && (forall v: RVal :: v in held ==> ViewVal(r.value.heap.flts, v) == ViewVal(h.flts, v))
  }

  // Views of sequences

  lemma ViewConcat(flts: seq<FCell>, a: seq<RVal>, b: seq<RVal>)
    ensures ViewAll(flts, a + b) == ViewAll(flts, a) + ViewAll(flts, b)
  {
  }

  lemma {:induction false} ViewRepeat(flts: seq<FCell>, a: seq<RVal>, n: int)
    ensures ViewAll(flts, RT.Repeat(a, n)) == RT.Repeat(ViewAll(flts, a), n)
    decreases n
  {
    if n > 0 {
      ViewRepeat(flts, a, n - 1);
      ViewConcat(flts, a, RT.Repeat(a, n - 1));
    }
  }

  lemma ViewOne(flts: seq<FCell>, v: RVal)
    ensures ViewAll(flts, [v]) == [ViewVal(flts, v)]
  {
  }

  // Closing a handler

  lemma ShapeKeepsFloats(h: RHeap, h': RHeap)
    requires SameShape(h, h')
    ensures FloatsKept(h, h')
  {
  }

  /** Everything computed, the consumed operands are released. */
  lemma ReleaseRefines(h: RHeap, h1: RHeap, consumed: seq<RVal>, pushes: seq<RVal>, held: multiset<RVal>, e: M.Effect)
    requires FloatsKept(h, h1) && (forall v: RVal :: v in held && v.RFlt? ==> v.cell < |h.flts|)
    requires Exact(h1, held + multiset(pushes) + multiset(consumed))
    requires View(h1) == e.heap && ViewAll(h1.flts, pushes) == e.pushes && e.events == []
    ensures Refines(h, held, Release(h1, consumed, pushes), e)
  {
    hide Exact, View;
    DecAllExact(h1, consumed, held + multiset(pushes));
    var h2 := DecAll(h1, consumed).value;
    assert forall i :: 0 <= i < |pushes| ==> ViewVal(h2.flts, pushes[i]) == ViewVal(h1.flts, pushes[i]);
    assert ViewAll(h2.flts, pushes) == ViewAll(h1.flts, pushes);
  }

  /** Operations without a heap effect of their own. */
  lemma ScalarRefines(h: RHeap, v: Value, consumed: seq<RVal>, held: multiset<RVal>)
    requires Exact(h, held + multiset(consumed)) && !v.Ref?
    ensures Refines(h, held, Scalar(h, Ok(v), consumed), M.Effect([v], View(h), []))
  {
    hide Exact, View;
    var all := held + multiset(consumed);
    ExactKnown(h, all);
    if v.Flt? { AllocFltExact(h, v.f, all); }
    var (p, h1) := Own(h, v).value;
    if !v.Flt? { PlainDropped(h, all, p); }
    assert all + multiset{p} == held + multiset([p]) + multiset(consumed);
    assert Exact(h1, held + multiset([p]) + multiset(consumed));
    ViewOne(h1.flts, p);
    ReleaseRefines(h, h1, consumed, [p], held, M.Effect([v], View(h), []));
  }

  /** A number held or not held makes no difference to the counts. */
  lemma PlainDropped(h: RHeap, held: multiset<RVal>, v: RVal)
    requires !IsPtr(v)
    ensures Exact(h, held + multiset{v}) <==> Exact(h, held)
  {
    if Exact(h, held + multiset{v}) {
      forall w: RVal | IsPtr(w) ensures held[w] + AllKids(h.objs)[w] == CountOf(h, w) {
        assert (held + multiset{v})[w] == held[w];
      }
    }
  }

  lemma PlainsDropped(h: RHeap, held: multiset<RVal>, vs: seq<RVal>)
    requires NoPtrs(vs)
    ensures Exact(h, held + multiset(vs)) <==> Exact(h, held)
  {
    hide AllKids, CountOf;
    forall w: RVal | IsPtr(w) ensures (held + multiset(vs))[w] == held[w] { assert w !in vs; }
  }

  /** A new object sharing references that are all alive. */
  lemma ShareRefines(h: RHeap, o: RT.Obj<RVal>, consumed: seq<RVal>, held: multiset<RVal>)
    requires Exact(h, held + multiset(consumed))
    requires forall v :: v in Kids(o) && IsPtr(v) ==> CountOf(h, v) >= 1
    ensures Refines(h, held, Share(h, o, consumed), M.Effect([RT.Ref(|h.objs|)], View(h) + [ViewObj(h.flts, o)], []))
  {
    hide Exact, View, AllKids;
    var all := held + multiset(consumed);
    ExactKnown(h, all);
    IncAllExact(h, Kids(o), all);
    var h1 := IncAll(h, Kids(o)).value;
    AllocExact(h1, o, all);
    var (p, h2) := AllocObj(h1, o);
    ViewsSame(h, h1, o);
    assert all + multiset{p} == held + multiset([p]) + multiset(consumed);
    ViewOne(h2.flts, p);
    ReleaseRefines(h, h2, consumed, [p], held, M.Effect([RT.Ref(|h.objs|)], View(h) + [ViewObj(h.flts, o)], []));
  }

  // What a live pointer shows

  lemma BodyShows(h: RHeap, held: multiset<RVal>, v: RVal)
    requires Exact(h, held) && v in held && v.RRef?
    ensures v.addr < |h.objs| && h.objs[v.addr].Live? && BodyAt(h, v) == Ok(h.objs[v.addr].body)
    ensures View(h)[v.addr] == ViewObj(h.flts, h.objs[v.addr].body)
  {
    assert CountOf(h, v) >= 1;
  }

  /** References held by a live object are alive. */
  lemma KidsAlive(h: RHeap, held: multiset<RVal>, a: nat)
    requires Exact(h, held) && a < |h.objs| && h.objs[a].Live?
    ensures forall v :: v in Kids(h.objs[a].body) && IsPtr(v) ==> CountOf(h, v) >= 1
  {
    forall v | v in Kids(h.objs[a].body) && IsPtr(v) ensures CountOf(h, v) >= 1 { KidCounted(h.objs, a, v); }
  }

  lemma ParentShows(h: RHeap, held: multiset<RVal>, a: nat)
    requires Exact(h, held) && a < |h.objs| && h.objs[a].Live? && h.objs[a].body.Slice?
    ensures var p := h.objs[a].body.parent;
      && p < |h.objs| && h.objs[p].Live? && View(h)[p] == ViewObj(h.flts, h.objs[p].body)
      && CountOf(h, RRef(p)) >= 1
      && ItemsAt(h, p).Ok? == RT.ItemsOf(View(h), p).Ok?
      && (ItemsAt(h, p).Ok? ==> RT.ItemsOf(View(h), p).value == ViewAll(h.flts, ItemsAt(h, p).value))
  {
    var p := h.objs[a].body.parent;
    KidsAlive(h, held, a);
    assert RRef(p) in Kids(h.objs[a].body);
  }

  // Arithmetic

  /** Everything in an operator that is neither a float computed in place nor a container. */
  predicate PlainBinop(op: Op, a: RVal, b: RVal) {
    && !(a.RFlt? && b.RFlt? && op in {ADD, SUB, MUL})
    && !(op == ADD && a.RRef? && b.RRef?)
    && !(op == MUL && ((a.RRef? && b.RInt?) || (a.RInt? && b.RRef?)))
    && !Compares(op, a, b)
  }

  /** Equality that the runtime library decides. */
  predicate Compares(op: Op, a: RVal, b: RVal) {
    op in {EQ, NEQ} && !(a.RInt? && b.RInt?) && !(a.RBool? && b.RBool?)
  }

  lemma PlainBinopIsScalar(lib: RT.Library, h: RHeap, op: Op, a: RVal, b: RVal)
    requires PlainBinop(op, a, b) && lib.depth > 0
    requires RT.VmBinop(lib, View(h), op, ViewVal(h.flts, a), ViewVal(h.flts, b)).Ok?
    ensures var r := RT.VmBinop(lib, View(h), op, ViewVal(h.flts, a), ViewVal(h.flts, b)).value;
      !r.0.Ref? && r.1 == View(h)
  {
    hide View, RT.Equal, CountableBinop, CountableElem, CountableSliceAssign, StoresItself;
  }

  /** No reference is repeated with a tuple. */
  predicate CountableRepeat(h: RHeap, a: RVal, n: int) {
    match BodyAt(h, a)
    case Ok(Tuple(items)) => NoPtrs(RT.Repeat(items, n))
    case _ => true
  }

  /** Not a comparison that meets a slice, and no reference is repeated with a tuple. */
  predicate CountableBinop(lib: RT.Library, h: RHeap, op: Op, a: RVal, b: RVal) {
    && (op in {EQ, NEQ} ==> !RT.Meets(lib, View(h), lib.depth, ViewVal(h.flts, a), ViewVal(h.flts, b)))
    && (op == MUL && b.RInt? ==> CountableRepeat(h, a, b.n))
  }

  lemma BinopRefines(lib: RT.Library, h: RHeap, op: Op, a: RVal, b: RVal, held: multiset<RVal>)
    requires Exact(h, held + multiset([a, b])) && CountableBinop(lib, h, op, a, b) && lib.depth > 0
    requires RT.VmBinop(lib, View(h), op, ViewVal(h.flts, a), ViewVal(h.flts, b)).Ok?
    ensures var r := RT.VmBinop(lib, View(h), op, ViewVal(h.flts, a), ViewVal(h.flts, b)).value;
      Refines(h, held, CountedBinop(lib, h, op, a, b), M.Effect([r.0], r.1, []))
  {
    hide Exact, View, AllKids, RT.Equal, RT.Meets, CountedEqual, Refines, ConsumeFloats, Concatenate, RepeatItems, RepeatText, Scalar, Release,
      RT.Add, RT.Multiply;
    var x, y := ViewVal(h.flts, a), ViewVal(h.flts, b);
    assert multiset([a, b]) == multiset([b, a]) == multiset{a, b};
    if a.RFlt? && b.RFlt? && op in {ADD, SUB, MUL} {
      FloatsRefine(lib, h, op, a, b, held);
    } else if op == ADD && a.RRef? && b.RRef? {
      ConcatenateRefines(lib, h, a, b, held);
    } else if op == MUL && ((a.RRef? && b.RInt?) || (a.RInt? && b.RRef?)) {
      RepeatRefines(lib, h, a, b, held);
    } else if Compares(op, a, b) {
      EqualityRefines(lib, h, op, a, b, held);
    } else {
      PlainBinopIsScalar(lib, h, op, a, b);
      ScalarRefines(h, RT.VmBinop(lib, View(h), op, x, y).value.0, [b, a], held);
    }
  }

  // Equality

  lemma EqualityMeans(lib: RT.Library, h: RHeap, op: Op, a: RVal, b: RVal)
    requires Compares(op, a, b)
    ensures var same := RT.Equal(lib, View(h), lib.depth, ViewVal(h.flts, a), ViewVal(h.flts, b));
      RT.VmBinop(lib, View(h), op, ViewVal(h.flts, a), ViewVal(h.flts, b))
        == if same.Ok? then Ok((RT.Bool(same.value == (op == EQ)), View(h))) else Err(same.fault)
    ensures var r := CountedEqual(lib, h, lib.depth, a, b);
      CountedBinop(lib, h, op, a, b)
        == if r.Ok? then Release(r.value.1, [b, a], [RBool(r.value.0 == (op == EQ))]) else Err(r.fault)
  {
    hide View, RT.Equal, CountedEqual, Release;
  }

  lemma EqualityRefines(lib: RT.Library, h: RHeap, op: Op, a: RVal, b: RVal, held: multiset<RVal>)
    requires Exact(h, held + multiset([b, a])) && Compares(op, a, b)
    requires !RT.Meets(lib, View(h), lib.depth, ViewVal(h.flts, a), ViewVal(h.flts, b))
    requires RT.VmBinop(lib, View(h), op, ViewVal(h.flts, a), ViewVal(h.flts, b)).Ok?
    ensures var r := RT.VmBinop(lib, View(h), op, ViewVal(h.flts, a), ViewVal(h.flts, b)).value;
      Refines(h, held, CountedBinop(lib, h, op, a, b), M.Effect([r.0], r.1, []))
  {
    hide Exact, View, AllKids, RT.Equal, RT.Meets, CountedEqual, RT.VmBinop, CountedBinop, Refines, Release;
    var all, result := held + multiset([b, a]), RBool(RT.Equal(lib, View(h), lib.depth, ViewVal(h.flts, a), ViewVal(h.flts, b)) == Ok(op == EQ));
    EqualityMeans(lib, h, op, a, b);
    assert multiset([b, a])[a] >= 1 && multiset([b, a])[b] >= 1;
    HeldAlive(h, all, a);
    HeldAlive(h, all, b);
    EqualAgrees(lib, h, lib.depth, a, b, all);
    PlainDropped(h, all, result);
    ExactKnown(h, all);
    ViewOne(h.flts, result);
    assert all + multiset{result} == held + multiset([result]) + multiset([b, a]);
    ReleaseRefines(h, h, [b, a], [result], held, M.Effect([ViewVal(h.flts, result)], View(h), []));
  }

  predicate Alive(h: RHeap, v: RVal) { IsPtr(v) ==> CountOf(h, v) >= 1 }

  predicate AllAlive(h: RHeap, vs: seq<RVal>) { forall v :: v in vs ==> Alive(h, v) }

  /** A comparison that meets no slice changes nothing and decides what the value machine's
      equality decides. */
  lemma {:induction false} EqualAgrees(lib: RT.Library, h: RHeap, depth: nat, a: RVal, b: RVal, held: multiset<RVal>)
    requires Exact(h, held) && Alive(h, a) && Alive(h, b)
    requires RT.Equal(lib, View(h), depth, ViewVal(h.flts, a), ViewVal(h.flts, b)).Ok?
    requires !RT.Meets(lib, View(h), depth, ViewVal(h.flts, a), ViewVal(h.flts, b))
    ensures CountedEqual(lib, h, depth, a, b)
      == Ok((RT.Equal(lib, View(h), depth, ViewVal(h.flts, a), ViewVal(h.flts, b)).value, h))
    decreases depth, 0, 0
  {
    hide Exact, View, RT.EqualItems, RT.EqualVariants, RT.MeetsItems, CountedEqualItems, CountedEqualVariants, RT.FieldPairs, RT.SameCharacters;
    if a.RRef? {
      var x, y := h.objs[a.addr].body, h.objs[b.addr].body;
      KidsAlive(h, held, a.addr);
      KidsAlive(h, held, b.addr);
      if x.Tuple? && y.Tuple? && |x.items| == |y.items| {
        EqualItemsAgree(lib, h, depth - 1, x.items, y.items, held);
      } else if x.Variant? && y.Variant? {
        VariantsAgree(lib, h, depth, x, y, held);
      }
    }
  }

  lemma {:induction false} VariantsAgree(lib: RT.Library, h: RHeap, depth: nat, x: RObj, y: RObj, held: multiset<RVal>)
    requires Exact(h, held) && depth > 0 && x.Variant? && y.Variant? && AllAlive(h, x.fields) && AllAlive(h, y.fields)
    requires RT.EqualVariants(lib, View(h), depth, ViewObj(h.flts, x), ViewObj(h.flts, y)).Ok?
    requires match RT.FieldPairs(lib, ViewObj(h.flts, x), ViewObj(h.flts, y))
      case Ok(Some((xs, ys))) => !RT.MeetsItems(lib, View(h), depth - 1, xs, ys)
      case _ => true
    ensures CountedEqualVariants(lib, h, depth, x, y)
      == Ok((RT.EqualVariants(lib, View(h), depth, ViewObj(h.flts, x), ViewObj(h.flts, y)).value, h))
    decreases depth - 1, 2, 0
  {
    hide Exact, View, AllKids, RT.EqualItems, RT.MeetsItems, CountedEqualItems;
    PairsShow(lib, h.flts, x, y);
    var pairs := RT.FieldPairs(lib, x, y);
    if pairs.Ok? && pairs.value.Some? {
      EqualItemsAgree(lib, h, depth - 1, pairs.value.value.0, pairs.value.value.1, held);
    }
  }

  lemma {:induction false} EqualItemsAgree(lib: RT.Library, h: RHeap, depth: nat, xs: seq<RVal>, ys: seq<RVal>, held: multiset<RVal>)
    requires Exact(h, held) && AllAlive(h, xs) && AllAlive(h, ys) && |xs| == |ys|
    requires RT.EqualItems(lib, View(h), depth, ViewAll(h.flts, xs), ViewAll(h.flts, ys)).Ok?
    requires !RT.MeetsItems(lib, View(h), depth, ViewAll(h.flts, xs), ViewAll(h.flts, ys))
    ensures CountedEqualItems(lib, h, depth, xs, ys)
      == Ok((RT.EqualItems(lib, View(h), depth, ViewAll(h.flts, xs), ViewAll(h.flts, ys)).value, h))
    decreases depth, 1, |xs|
  {
    hide Exact, View, AllKids, RT.Equal, RT.Meets, CountedEqual;
    if xs != [] {
      EqualAgrees(lib, h, depth, xs[0], ys[0], held);
      ViewRest(h.flts, xs);
      ViewRest(h.flts, ys);
      if RT.Equal(lib, View(h), depth, ViewVal(h.flts, xs[0]), ViewVal(h.flts, ys[0])).value {
        EqualItemsAgree(lib, h, depth, xs[1..], ys[1..], held);
      }
    }
  }

  lemma ViewRest(flts: seq<FCell>, vs: seq<RVal>)
    requires vs != []
    ensures ViewAll(flts, vs)[1..] == ViewAll(flts, vs[1..])
  {
  }

  lemma PairsShow(lib: RT.Library, flts: seq<FCell>, x: RObj, y: RObj)
    requires x.Variant? && y.Variant?
    ensures RT.FieldPairs(lib, ViewObj(flts, x), ViewObj(flts, y)) ==
      match RT.FieldPairs(lib, x, y)
      case Ok(Some((xs, ys))) => Ok(Some((ViewAll(flts, xs), ViewAll(flts, ys))))
      case Ok(None) => Ok(None)
      case Err(e) => Err(e)
  {
    forall names: seq<seq<Byte>>, vs: seq<RVal> | |names| == |vs|
      ensures RT.ByName(names, ViewAll(flts, vs)) == ViewAll(flts, RT.ByName(names, vs))
    {
    }
  }

  lemma FloatsRefine(lib: RT.Library, h: RHeap, op: Op, a: RVal, b: RVal, held: multiset<RVal>)
    requires Exact(h, held + multiset{a, b}) && a.RFlt? && b.RFlt? && op in {ADD, SUB, MUL}
    ensures var f := lib.fpu.arith(op, ViewVal(h.flts, a).f, ViewVal(h.flts, b).f);
      Refines(h, held, CountedBinop(lib, h, op, a, b), M.Effect([RT.Flt(f)], View(h), []))
  {
    hide Exact, View, AllKids, M.Prim, CountedPrim, CountableBinop, CountableElem, CountableSliceAssign, StoresItself, RT.Binop, RT.VmBinop,
      RT.Equal, RT.Meets, CountedEqual, RT.SliceOf, RT.Elem, RT.SetItem, RT.SliceAssign, RT.CallBuiltin, RT.Stringify, RT.StringifyAll, Dec, DecAll,
      Inc, IncAll, Share, Release;
    var f := lib.fpu.arith(op, ViewVal(h.flts, a).f, ViewVal(h.flts, b).f);
    ReuseUnobservable(h, a, b, f, held);
    var (p, h1) := ConsumeFloats(h, a, b, f).value;
    ViewOne(h1.flts, p);
    assert multiset([p]) == multiset{p};
  }

  lemma PartsAlive(h: RHeap, held: multiset<RVal>, a: RVal, b: RVal)
    requires Exact(h, held) && a in held && b in held && a.RRef? && b.RRef?
    ensures a.addr < |h.objs| && h.objs[a.addr].Live? && b.addr < |h.objs| && h.objs[b.addr].Live?
    ensures forall v :: v in Kids(h.objs[a.addr].body) + Kids(h.objs[b.addr].body) && IsPtr(v) ==> CountOf(h, v) >= 1
  {
    BodyShows(h, held, a);
    BodyShows(h, held, b);
    KidsAlive(h, held, a.addr);
    KidsAlive(h, held, b.addr);
  }

  lemma ConcatenateRefines(lib: RT.Library, h: RHeap, a: RVal, b: RVal, held: multiset<RVal>)
    requires Exact(h, held + multiset{a, b}) && a.RRef? && b.RRef?
    requires RT.Add(lib, View(h), ViewVal(h.flts, a), ViewVal(h.flts, b)).Ok?
    ensures var r := RT.Add(lib, View(h), ViewVal(h.flts, a), ViewVal(h.flts, b)).value;
      Refines(h, held, Concatenate(h, a, b), M.Effect([r.0], r.1, []))
  {
    hide Exact, View, AllKids, M.Prim, CountedPrim, CountableBinop, CountableElem, CountableSliceAssign, StoresItself, RT.Binop, RT.VmBinop,
      RT.Equal, RT.Meets, CountedEqual, Dec, DecAll, Inc, IncAll, Share, Release, Refines, ViewAll;
    var all := held + multiset{a, b};
    BodyShows(h, all, a);
    BodyShows(h, all, b);
    PartsAlive(h, all, a, b);
    assert multiset([b, a]) == multiset{a, b};
    var x, y := h.objs[a.addr].body, h.objs[b.addr].body;
    if x.Slice? {
      SlicesRefine(lib, h, a, b, held);
    } else {
      ViewConcat(h.flts, x.items, y.items);
      ShareRefines(h, if x.Tuple? then RT.Tuple(x.items + y.items) else RT.Text(x.items + y.items), [b, a], held);
    }
  }

  lemma SlicesRefine(lib: RT.Library, h: RHeap, a: RVal, b: RVal, held: multiset<RVal>)
    requires Exact(h, held + multiset{a, b}) && a.RRef? && b.RRef?
    requires BodyAt(h, a).Ok? && BodyAt(h, a).value.Slice? && BodyAt(h, b).Ok? && BodyAt(h, b).value.Slice?
    requires RT.Add(lib, View(h), ViewVal(h.flts, a), ViewVal(h.flts, b)).Ok?
    ensures var r := RT.Add(lib, View(h), ViewVal(h.flts, a), ViewVal(h.flts, b)).value;
      Refines(h, held, Concatenate(h, a, b), M.Effect([r.0], r.1, []))
  {
    hide Exact, View, AllKids, Refines, SliceItems, Share, CountableElem, CountableSliceAssign, StoresItself, RT.Binop, RT.VmBinop, RT.Equal,
      RT.Meets, CountedEqual, RT.SliceOf, RT.Elem;
    var all := held + multiset{a, b};
    var x, y := h.objs[a.addr].body, h.objs[b.addr].body;
    BodyShows(h, all, a);
    BodyShows(h, all, b);
    assert multiset([b, a]) == multiset{a, b};
    ParentShows(h, all, a.addr);
    ParentShows(h, all, b.addr);
    KidsAlive(h, all, x.parent);
    KidsAlive(h, all, y.parent);
    SliceShows(h, x);
    SliceShows(h, y);
    var xs, ys := SliceItems(h, x).value, SliceItems(h, y).value;
    ViewConcat(h.flts, xs, ys);
    ShareRefines(h, RT.Tuple(xs + ys), [b, a], held);
  }

  /** The items of a slice's copy, and where they come from. */
  lemma SliceShows(h: RHeap, s: RT.Obj<RVal>)
    requires s.Slice? && s.parent < |h.objs| && h.objs[s.parent].Live?
    requires View(h)[s.parent] == ViewObj(h.flts, h.objs[s.parent].body)
    requires RT.ItemsOf(View(h), s.parent).Ok?
    requires s.from >= s.to || 0 <= s.from <= s.to <= |RT.ItemsOf(View(h), s.parent).value|
    ensures SliceItems(h, s).Ok? && forall v :: v in SliceItems(h, s).value ==> v in Kids(h.objs[s.parent].body)
    ensures var items := RT.ItemsOf(View(h), s.parent).value;
      ViewAll(h.flts, SliceItems(h, s).value) == if s.from >= s.to then [] else items[s.from..s.to]
  {
    hide View;
  }

  lemma {:induction false} RepeatedItems(items: seq<RVal>, n: int)
    ensures forall v :: v in RT.Repeat(items, n) ==> v in items
    decreases n
  {
    if n > 0 { RepeatedItems(items, n - 1); }
  }

  lemma RepeatRefines(lib: RT.Library, h: RHeap, a: RVal, b: RVal, held: multiset<RVal>)
    requires Exact(h, held + multiset{a, b}) && ((a.RRef? && b.RInt?) || (a.RInt? && b.RRef?))
    requires a.RRef? ==> CountableRepeat(h, a, b.n)
    requires RT.Multiply(lib, View(h), ViewVal(h.flts, a), ViewVal(h.flts, b)).Ok?
    ensures var r := RT.Multiply(lib, View(h), ViewVal(h.flts, a), ViewVal(h.flts, b)).value;
      Refines(h, held, if a.RRef? then RepeatItems(h, a, b.n, [b, a]) else RepeatText(h, b, a.n, [b, a]), M.Effect([r.0], r.1, []))
  {
    hide Exact, View, AllKids, Refines, Share;
    var seen, n := if a.RRef? then a else b, if a.RRef? then b.n else a.n;
    var all := held + multiset{a, b};
    BodyShows(h, all, seen);
    assert multiset([b, a]) == multiset{a, b};
    var items := h.objs[seen.addr].body.items;
    ViewRepeat(h.flts, items, n);
    if h.objs[seen.addr].body.Tuple? {
      IncNone(h, RT.Repeat(items, n));
      ShareRefines(h, RT.Tuple(RT.Repeat(items, n)), [b, a], held);
    } else {
      RepeatedItems(items, n);
      KidsAlive(h, all, seen.addr);
      ShareRefines(h, RT.Text(RT.Repeat(items, n)), [b, a], held);
    }
  }

  lemma {:induction false} IncNone(h: RHeap, vs: seq<RVal>)
    requires NoPtrs(vs)
    ensures IncAll(h, vs) == Ok(h)
    decreases |vs|
  {
    if vs != [] {
      assert Inc(h, vs[0]) == Ok(h) by { assert vs[0] in vs; }
      IncNone(h, vs[1..]);
    }
  }

  // Containers

  /** A body is replaced: counts are exact again, and only this object shows something else. */
  ghost predicate Replaced(h: RHeap, a: nat, o: RObj, held: multiset<RVal>, r: Result<RHeap>) {
    && a < |h.objs| && r.Ok? && Exact(r.value, held) && FloatsKept(h, r.value)
    && View(r.value) == View(h)[a := ViewObj(h.flts, o)]
  }

  /** Releasing the old content before the new body is written, or after, makes no difference
      to an object that stays alive. */
  lemma ReleaseThenWrite(h: RHeap, a: nat, o: RObj, old_: RVal, held: multiset<RVal>)
    requires a < |h.objs| && h.objs[a].Live? && Exact(Rebody(h, a, o), held + multiset{old_}) && RRef(a) in held
    ensures Dec(Rebody(h, a, o), old_).Ok? && Dec(h, old_).Ok?
    ensures Rewritten(Dec(h, old_).value, a, o) == Dec(Rebody(h, a, o), old_)
  {
    hide View, AllKids;
    var g := Rebody(h, a, o);
    DecExact(g, old_, held);
    var g1 := Dec(g, old_).value;
    assert CountOf(g1, RRef(a)) >= 1;
    assert h == Rebody(g, a, h.objs[a].body);
    DecAround(g, old_, a, h.objs[a].body);
    assert g1 == Rebody(Rebody(g1, a, h.objs[a].body), a, o);
  }

  lemma SwapFieldExact(h: RHeap, a: nat, o: RObj, new_: RVal, old_: RVal, held: multiset<RVal>)
    requires Exact(h, held) && RRef(a) in held && a < |h.objs| && h.objs[a].Live? && Alive(h, new_)
    requires Trades(Kids(h.objs[a].body), Kids(o), old_, new_)
    ensures Replaced(h, a, o, held, SwapField(h, a, o, new_, old_))
  {
    hide View, AllKids;
    IncExact(h, new_, held);
    var h1 := Inc(h, new_).value;
    assert CountOf(h1, RRef(a)) >= 1 by { assert (held + multiset{new_})[RRef(a)] >= 1; }
    RebodyExact(h1, a, o, held, multiset{new_}, multiset{old_});
    ViewsSame(h, h1, o);
    ReleaseThenWrite(h1, a, o, old_, held);
    DecExact(Rebody(h1, a, o), old_, held);
  }

  /** `gone` is the body with the old content taken out. */
  lemma SwapItemExact(h: RHeap, a: nat, gone: RObj, o: RObj, new_: RVal, old_: RVal, held: multiset<RVal>)
    requires Exact(h, held) && RRef(a) in held && a < |h.objs| && h.objs[a].Live?
    requires Trades(Kids(h.objs[a].body), Kids(gone), old_, RInt(0))
    requires Trades(Kids(gone), Kids(o), RInt(0), new_)
    requires Dec(Rebody(h, a, gone), old_).Ok? ==> Alive(Dec(Rebody(h, a, gone), old_).value, new_)
    ensures Replaced(h, a, o, held, SwapItem(h, a, o, new_, old_))
  {
    hide View, AllKids, M.Prim, RT.SetItem, RT.SliceAssign, RT.CallBuiltin, RT.Stringify, RT.StringifyAll, Dec, DecAll, Inc, IncAll, Share, Release,
      Refines, ViewAll, ViewObj, SamePtrs;
    PlainDropped(h, held, RInt(0));
    RebodyExact(h, a, gone, held, multiset{RInt(0)}, multiset{old_});
    var g := Rebody(h, a, gone);
    DecExact(g, old_, held);
    ReleaseThenWrite(h, a, gone, old_, held);
    var h1, g1 := Dec(h, old_).value, Dec(g, old_).value;
    assert CountOf(g1, RRef(a)) >= 1;
    assert h1.objs[a].Live?;
    WriteTwice(h1, a, gone, o);
    WriteThenCount(g1, a, o, new_, held);
    assert View(h)[a := ViewObj(h.flts, gone)][a := ViewObj(h.flts, o)] == View(h)[a := ViewObj(h.flts, o)];
    ViewsSame(h, g1, o);
  }

  lemma WriteTwice(h: RHeap, a: nat, o: RObj, o': RObj)
    requires a < |h.objs| && h.objs[a].Live?
    ensures Rebody(Rebody(h, a, o), a, o') == Rebody(h, a, o')
  {
    assert Rebody(Rebody(h, a, o), a, o').objs == Rebody(h, a, o').objs;
  }

  /** A body written with one more reference, then counted. */
  lemma WriteThenCount(h: RHeap, a: nat, o: RObj, new_: RVal, held: multiset<RVal>)
    requires Exact(h, held) && RRef(a) in held && a < |h.objs| && h.objs[a].Live? && Alive(h, new_)
    requires Trades(Kids(h.objs[a].body), Kids(o), RInt(0), new_)
    ensures Replaced(h, a, o, held, Inc(Rebody(h, a, o), new_))
  {
    hide View, AllKids;
    IncExact(h, new_, held);
    var h1 := Inc(h, new_).value;
    assert CountOf(h1, RRef(a)) >= 1 by { assert (held + multiset{new_})[RRef(a)] >= 1; }
    IncAround(h, new_, a, o);
    RebodyExact(h1, a, o, held, multiset{new_}, multiset{RInt(0)});
    PlainDropped(Rebody(h1, a, o), held, RInt(0));
    ViewsSame(h, h1, o);
  }

  lemma IncAround(h: RHeap, v: RVal, a: nat, o: RObj)
    requires a < |h.objs| && h.objs[a].Live? && Alive(h, v)
    ensures Inc(Rebody(h, a, o), v) == Ok(Rebody(Inc(h, v).value, a, o))
  {
    if v.RRef? { assert Inc(Rebody(h, a, o), v).value.objs == Rebody(Inc(h, v).value, a, o).objs; }
  }

  lemma UpdateKids(items: seq<RVal>, i: nat, x: RVal)
    requires i < |items|
    ensures Trades(items, items[i := x], items[i], x)
  {
  }

  lemma ViewUpdate(flts: seq<FCell>, items: seq<RVal>, i: nat, x: RVal)
    requires i < |items|
    ensures ViewAll(flts, items[i := x]) == ViewAll(flts, items)[i := ViewVal(flts, x)]
  {
  }

  lemma FieldRefines(h: RHeap, v: RVal, index: int, held: multiset<RVal>)
    requires Exact(h, held + multiset([v])) && RT.Field(View(h), ViewVal(h.flts, v), index).Ok?
    ensures Refines(h, held, CountedField(h, v, index),
      M.Effect([RT.Field(View(h), ViewVal(h.flts, v), index).value], View(h), []))
  {
    hide Exact, View, AllKids;
    var all := held + multiset([v]);
    BodyShows(h, all, v);
    KidsAlive(h, all, v.addr);
    ExactKnown(h, all);
    var field := h.objs[v.addr].body.fields[index];
    IncExact(h, field, all);
    var h1 := Inc(h, field).value;
    ShapeKeepsFloats(h, h1);
    ViewOne(h1.flts, field);
    assert all + multiset{field} == held + multiset([field]) + multiset([v]);
    ReleaseRefines(h, h1, [v], [field], held, M.Effect([RT.Field(View(h), ViewVal(h.flts, v), index).value], View(h), []));
  }

  lemma SetFieldRefines(h: RHeap, x: RVal, v: RVal, index: int, held: multiset<RVal>)
    requires Exact(h, held + multiset([x, v]))
    requires RT.SetField(View(h), ViewVal(h.flts, v), index, ViewVal(h.flts, x)).Ok?
    ensures Refines(h, held, CountedSetField(h, x, v, index),
      M.Effect([], RT.SetField(View(h), ViewVal(h.flts, v), index, ViewVal(h.flts, x)).value, []))
  {
    hide Exact, View, AllKids, Dec, DecAll, Inc, IncAll, Share, Release, Refines, ViewAll, Trades;
    var all := held + multiset([x, v]);
    assert multiset([x, v]) == multiset{x, v};
    BodyShows(h, all, v);
    ExactKnown(h, all);
    HeldAlive(h, all, x);
    var o := h.objs[v.addr].body;
    var o' := o.(fields := o.fields[index := x]);
    UpdateKids(o.fields, index, x);
    ViewUpdate(h.flts, o.fields, index, x);
    SwapFieldExact(h, v.addr, o', x, o.fields[index], all);
    var h1 := SwapField(h, v.addr, o', x, o.fields[index]).value;
    assert held + multiset([]) + multiset([x, v]) == all;
    ReleaseRefines(h, h1, [x, v], [], held,
      M.Effect([], RT.SetField(View(h), ViewVal(h.flts, v), index, ViewVal(h.flts, x)).value, []));
  }

  lemma HeldAlive(h: RHeap, held: multiset<RVal>, v: RVal)
    requires Exact(h, held) && v in held
    ensures IsPtr(v) ==> CountOf(h, v) >= 1
  {
  }

  /** A one-item text put into itself, holding the only reference to its item: the item is
      freed before it is stored again. */
  predicate StoresItself(h: RHeap, x: RVal, c: RVal) {
    x == c && match BodyAt(h, c)
      case Ok(o) => o.Text? && |o.items| == 1 && IsPtr(o.items[0]) && CountOf(h, o.items[0]) == 1
      case Err(_) => false
  }

  lemma ThreeHeld(held: multiset<RVal>, x: RVal, i: RVal, c: RVal)
    ensures var all := held + multiset([x, i, c]);
      x in all && i in all && c in all && held + multiset([c]) + multiset([i, x]) == all
  {
    assert multiset([x, i, c]) == multiset{x, i, c} == multiset([c]) + multiset([i, x]);
  }

  lemma SetItemRefines(h: RHeap, x: RVal, i: RVal, c: RVal, held: multiset<RVal>)
    requires Exact(h, held + multiset([x, i, c])) && !StoresItself(h, x, c)
    requires RT.SetItem(View(h), ViewVal(h.flts, c), ViewVal(h.flts, i), ViewVal(h.flts, x)).Ok?
    ensures Refines(h, held, CountedSetItem(h, x, i, c),
      M.Effect([ViewVal(h.flts, c)], RT.SetItem(View(h), ViewVal(h.flts, c), ViewVal(h.flts, i), ViewVal(h.flts, x)).value, []))
  {
    hide Exact, View, AllKids, Refines, Release, SwapItem, ViewAll, M.Prim, CountedPrim, CountableBinop, CountableElem, CountableSliceAssign,
      StoresItself, RT.Binop, RT.VmBinop, RT.Equal, RT.Meets, CountedEqual, RT.SliceOf;
    var all := held + multiset([x, i, c]);
    ThreeHeld(held, x, i, c);
    BodyShows(h, all, c);
    HeldAlive(h, all, x);
    if x.RRef? { BodyShows(h, all, x); }
    TextItemShows(h, x);
    var o := h.objs[c.addr].body;
    var index := RT.Unbox(ViewVal(h.flts, i)).value;
    var item := if o.Text? then TextItem(h, x) else x;
    ViewUpdate(h.flts, o.items, index, item);
    StoredAlive(h, x, c, index, all);
    StoreRefines(h, c, index, item, [i, x], held);
  }

  /** The heap once the old item at `index` has been released. */
  function Vacated(h: RHeap, c: RVal, index: nat): Result<RHeap>
    requires BodyAt(h, c).Ok? && (BodyAt(h, c).value.Text? || BodyAt(h, c).value.Tuple?) && index < |BodyAt(h, c).value.items|
  {
    var o := BodyAt(h, c).value;
    Dec(Rebody(h, c.addr, o.(items := o.items[index := RInt(0)])), o.items[index])
  }

  lemma VacatedExact(h: RHeap, c: RVal, index: nat, held: multiset<RVal>)
    requires Exact(h, held) && c in held && BodyAt(h, c).Ok?
    requires (BodyAt(h, c).value.Text? || BodyAt(h, c).value.Tuple?) && index < |BodyAt(h, c).value.items|
    ensures Vacated(h, c, index).Ok? && Exact(Vacated(h, c, index).value, held)
    ensures SameShape(Rebody(h, c.addr, BodyAt(h, c).value.(items := BodyAt(h, c).value.items[index := RInt(0)])), Vacated(h, c, index).value)
  {
    hide Exact, View, AllKids, M.Prim, CountedPrim, RT.Equal, RT.Meets, CountedEqual, RT.SliceOf, RT.Elem, RT.SetItem, RT.SliceAssign,
      RT.CallBuiltin, RT.Stringify, RT.StringifyAll, Dec, DecAll, Inc, IncAll, Share, Release, Refines, ViewAll, ViewObj, SamePtrs, Scalar,
      CountedNew, CountedBinop, CountedElem, CountedSlice, CountedField, CountedSetField, CountedSetItem, CountedBuiltin, CountedAggregate,
      CountedSliceAssign, ItemsAt, SliceItems, M.Pops;
    var o := h.objs[c.addr].body;
    var gone := o.(items := o.items[index := RInt(0)]);
    UpdateKids(o.items, index, RInt(0));
    PlainDropped(h, held, RInt(0));
    RebodyExact(h, c.addr, gone, held, multiset{RInt(0)}, multiset{o.items[index]});
    DecExact(Rebody(h, c.addr, gone), o.items[index], held);
  }

  /** What is stored is still alive when it is stored. */
  lemma StoredAlive(h: RHeap, x: RVal, c: RVal, index: nat, held: multiset<RVal>)
    requires Exact(h, held) && x in held && c in held && BodyAt(h, c).Ok? && !StoresItself(h, x, c)
    requires (BodyAt(h, c).value.Text? || BodyAt(h, c).value.Tuple?) && index < |BodyAt(h, c).value.items|
    ensures var item := if BodyAt(h, c).value.Text? then TextItem(h, x) else x;
      Vacated(h, c, index).Ok? && Alive(Vacated(h, c, index).value, item)
  {
    hide Exact, View, AllKids, Dec;
    VacatedExact(h, c, index, held);
    var g := Vacated(h, c, index).value;
    HeldAlive(g, held, x);
    if BodyAt(h, c).value.Text? && TextItem(h, x) != x {
      BodyShows(h, held, x);
      BodyShows(g, held, x);
      if x == c {
        OwnItemAlive(h, c, held);
      } else {
        KidsAlive(g, held, x.addr);
        assert TextItem(h, x) in Kids(g.objs[x.addr].body);
      }
    }
  }

  /** A one-item text's item, counted twice, survives one release. */
  lemma OwnItemAlive(h: RHeap, c: RVal, held: multiset<RVal>)
    requires Exact(h, held) && c in held && BodyAt(h, c).Ok? && !StoresItself(h, c, c)
    requires BodyAt(h, c).value.Text? && |BodyAt(h, c).value.items| == 1
    ensures Vacated(h, c, 0).Ok? && Alive(Vacated(h, c, 0).value, BodyAt(h, c).value.items[0])
  {
    hide View, Exact, AllKids;
    var item := h.objs[c.addr].body.items[0];
    KidsAlive(h, held, c.addr);
    assert item in Kids(h.objs[c.addr].body);
    VacatedExact(h, c, 0, held);
  }

  /** Putting an item in is giving the old one up and then taking the new one. */
  lemma ItemTraded(o: RObj, index: nat, item: RVal)
    requires (o.Text? || o.Tuple?) && index < |o.items|
    ensures var gone := o.(items := o.items[index := RInt(0)]);
      Trades(Kids(o), Kids(gone), o.items[index], RInt(0)) && Trades(Kids(gone), Kids(o.(items := o.items[index := item])), RInt(0), item)
  {
    hide Trades;
    var empty := o.items[index := RInt(0)];
    UpdateKids(o.items, index, RInt(0));
    UpdateKids(empty, index, item);
    assert empty[index := item] == o.items[index := item];
  }

  lemma ItemSwapped(h: RHeap, c: RVal, index: nat, item: RVal, held: multiset<RVal>)
    requires Exact(h, held) && c in held && BodyAt(h, c).Ok?
    requires (BodyAt(h, c).value.Text? || BodyAt(h, c).value.Tuple?) && index < |BodyAt(h, c).value.items|
    requires Vacated(h, c, index).Ok? && Alive(Vacated(h, c, index).value, item)
    ensures var o := BodyAt(h, c).value;
      var o' := o.(items := o.items[index := item]);
      Replaced(h, c.addr, o', held, SwapItem(h, c.addr, o', item, o.items[index]))
  {
    hide Exact, View, AllKids, Alive, Dec, Inc, SwapItem, Replaced, ViewObj, Rebody, Trades, Kids;
    var o := h.objs[c.addr].body;
    var o' := o.(items := o.items[index := item]);
    var gone := o.(items := o.items[index := RInt(0)]);
    ItemTraded(o, index, item);
    assert Vacated(h, c, index) == Dec(Rebody(h, c.addr, gone), o.items[index]);
    SwapItemExact(h, c.addr, gone, o', item, o.items[index], held);
  }

  /** Storing into a container that stays on the stack. */
  lemma StoreRefines(h: RHeap, c: RVal, index: nat, item: RVal, consumed: seq<RVal>, held: multiset<RVal>)
    requires Exact(h, held + multiset([c]) + multiset(consumed)) && BodyAt(h, c).Ok?
    requires (BodyAt(h, c).value.Text? || BodyAt(h, c).value.Tuple?) && index < |BodyAt(h, c).value.items|
    requires Vacated(h, c, index).Ok? && Alive(Vacated(h, c, index).value, item)
    ensures var o := BodyAt(h, c).value;
      var o' := o.(items := o.items[index := item]);
      SwapItem(h, c.addr, o', item, o.items[index]).Ok?
      && Refines(h, held, Release(SwapItem(h, c.addr, o', item, o.items[index]).value, consumed, [c]),
           M.Effect([ViewVal(h.flts, c)], View(h)[c.addr := ViewObj(h.flts, o')], []))
  {
    hide Exact, View, AllKids, Refines, Release, SwapItem, ViewAll, Vacated;
    var all := held + multiset([c]) + multiset(consumed);
    assert multiset([c])[c] == 1;
    ExactKnown(h, all);
    var o := h.objs[c.addr].body;
    var o' := o.(items := o.items[index := item]);
    ItemSwapped(h, c, index, item, all);
    var h1 := SwapItem(h, c.addr, o', item, o.items[index]).value;
    ViewOne(h1.flts, c);
    ReleaseRefines(h, h1, consumed, [c], held, M.Effect([ViewVal(h.flts, c)], View(h)[c.addr := ViewObj(h.flts, o')], []));
  }

  lemma TextItemShows(h: RHeap, x: RVal)
    requires x.RRef? ==> x.addr < |h.objs| && h.objs[x.addr].Live? && View(h)[x.addr] == ViewObj(h.flts, h.objs[x.addr].body)
    ensures RT.TextItem(View(h), ViewVal(h.flts, x)) == ViewVal(h.flts, TextItem(h, x))
  {
    hide View;
  }

  // Items and slices

  lemma CharacterRefines(h: RHeap, o: RT.Obj<RVal>, index: nat, consumed: seq<RVal>, held: multiset<RVal>)
    requires Exact(h, held + multiset(consumed)) && o.Text? && index < |o.items| && !IsPtr(o.items[index])
    ensures var (p, h1) := AllocObj(h, RT.Text([o.items[index]]));
      Refines(h, held, Release(h1, consumed, [p]),
        M.Effect([RT.Ref(|h.objs|)], View(h) + [RT.Text([ViewVal(h.flts, o.items[index])])], []))
  {
    hide Exact, View, AllKids;
    var c := o.items[index];
    ViewOne(h.flts, c);
    assert IncAll(h, [c]) == (match Inc(h, c) case Ok(h1) => IncAll(h1, []) case Err(e) => Err(e));
    ShareRefines(h, RT.Text([c]), consumed, held);
  }

  lemma SharedItemRefines(h: RHeap, item: RVal, consumed: seq<RVal>, held: multiset<RVal>)
    requires Exact(h, held + multiset(consumed)) && (IsPtr(item) ==> CountOf(h, item) >= 1)
    ensures Inc(h, item).Ok?
    ensures Refines(h, held, Release(Inc(h, item).value, consumed, [item]), M.Effect([ViewVal(h.flts, item)], View(h), []))
  {
    hide Exact, View, AllKids;
    var all := held + multiset(consumed);
    ExactKnown(h, all);
    IncExact(h, item, all);
    var h1 := Inc(h, item).value;
    ShapeKeepsFloats(h, h1);
    ViewOne(h1.flts, item);
    HeldCell(h, item);
    assert all + multiset{item} == held + multiset([item]) + multiset(consumed);
    ReleaseRefines(h, h1, consumed, [item], held, M.Effect([ViewVal(h.flts, item)], View(h), []));
  }

  lemma HeldCell(h: RHeap, v: RVal)
    requires IsPtr(v) ==> CountOf(h, v) >= 1
    ensures v.RFlt? ==> v.cell < |h.flts|
  {
  }

  /** The item that `c[index]` copies out of a text, directly or through a slice; it is not
      counted. */
  function ItemOfText(h: RHeap, c: RVal, index: int): Option<RVal> {
    match BodyAt(h, c)
    case Ok(o) =>
      var (a, k) := if o.Slice? then (o.parent, o.from + index) else (c.addr, index);
      if a < |h.objs| && h.objs[a].Live? && h.objs[a].body.Text? && 0 <= k < |h.objs[a].body.items| then
        Some(h.objs[a].body.items[k])
      else None
    case Err(_) => None
  }

  predicate CountableElem(h: RHeap, c: RVal, i: RVal) {
    match RT.Unbox(ViewVal(h.flts, i))
    case Ok(index) => (match ItemOfText(h, c, index) case Some(v) => !IsPtr(v) case None => true)
    case Err(_) => true
  }

  lemma ElemRefines(h: RHeap, c: RVal, i: RVal, held: multiset<RVal>)
    requires Exact(h, held + multiset([c, i])) && CountableElem(h, c, i) && RT.Elem(View(h), ViewVal(h.flts, c), ViewVal(h.flts, i)).Ok?
    ensures var r := RT.Elem(View(h), ViewVal(h.flts, c), ViewVal(h.flts, i)).value;
      Refines(h, held, CountedElem(h, c, i), M.Effect([r.0], r.1, []))
  {
    hide Exact, View, AllKids, Refines, Release;
    var all := held + multiset([c, i]);
    assert multiset([c, i]) == multiset{c, i};
    BodyShows(h, all, c);
    var o := h.objs[c.addr].body;
    var index := RT.Unbox(ViewVal(h.flts, i)).value;
    if o.Text? {
      CharacterRefines(h, o, index, [c, i], held);
    } else if o.Tuple? {
      KidsAlive(h, all, c.addr);
      SharedItemRefines(h, o.items[index], [c, i], held);
    } else {
      SliceItemRefines(h, c, i, index, held);
    }
  }

  lemma SliceItemRefines(h: RHeap, c: RVal, i: RVal, index: nat, held: multiset<RVal>)
    requires Exact(h, held + multiset([c, i])) && BodyAt(h, c).Ok? && BodyAt(h, c).value.Slice?
    requires match ItemOfText(h, c, index) case Some(v) => !IsPtr(v) case None => true
    requires RT.GetItem(View(h), ViewVal(h.flts, c), index).Ok?
    ensures var r := RT.GetItem(View(h), ViewVal(h.flts, c), index).value;
      var item := CountedItem(h, BodyAt(h, c).value, index);
      item.Ok? && Refines(h, held, Release(item.value.1, [c, i], [item.value.0]), M.Effect([r.0], r.1, []))
  {
    hide Exact, View, AllKids, Refines;
    var all := held + multiset([c, i]);
    assert multiset([c, i])[c] >= 1;
    BodyShows(h, all, c);
    var o := h.objs[c.addr].body;
    ParentShows(h, all, c.addr);
    KidsAlive(h, all, o.parent);
    var parent := h.objs[o.parent].body;
    if parent.Text? {
      CharacterRefines(h, parent, o.from + index, [c, i], held);
    } else {
      SharedItemRefines(h, parent.items[o.from + index], [c, i], held);
    }
  }

  function BoundPops(from: Option<RVal>, to: Option<RVal>): seq<RVal> {
    (if from.Some? then [from.value] else []) + (if to.Some? then [to.value] else [])
  }

  function SlicePops(c: RVal, from: Option<RVal>, to: Option<RVal>): seq<RVal> { [c] + BoundPops(from, to) }

  function ViewOpt(flts: seq<FCell>, v: Option<RVal>): Option<Value> {
    match v case None => None case Some(x) => Some(ViewVal(flts, x))
  }

  lemma ItemsShow(h: RHeap, a: nat)
    requires a < |h.objs| && h.objs[a].Live? && View(h)[a] == ViewObj(h.flts, h.objs[a].body)
    ensures ItemsAt(h, a).Ok? == RT.ItemsOf(View(h), a).Ok?
    ensures ItemsAt(h, a).Ok? ==> |ItemsAt(h, a).value| == |RT.ItemsOf(View(h), a).value|
  {
    hide View;
  }

  /** Root parent and bounds of the new slice, in both heaps. */
  lemma NewSliceShows(h: RHeap, c: RVal, lo: int, hi: int, held: multiset<RVal>)
    requires Exact(h, held) && c in held && c.RRef? && RT.CreateSlice(View(h), ViewVal(h.flts, c), lo, hi).Ok?
    ensures BodyAt(h, c).Ok?
    ensures var o := BodyAt(h, c).value;
      var (parent, shift) := if o.Slice? then (o.parent, o.from) else (c.addr, 0);
      && ItemsAt(h, parent).Ok? && CountOf(h, RRef(parent)) >= 1
      && var (a, b) := RT.ClampBounds(lo + shift, hi + shift, |ItemsAt(h, parent).value|);
         RT.CreateSlice(View(h), ViewVal(h.flts, c), lo, hi) == Ok(RT.Slice(parent, a, b))
  {
    hide View, AllKids, Exact, ItemsAt, RT.ItemsOf, RT.ClampBounds;
    BodyShows(h, held, c);
    HeldAlive(h, held, c);
    var o := h.objs[c.addr].body;
    if o.Slice? {
      ParentShows(h, held, c.addr);
      ItemsShow(h, o.parent);
    } else {
      ItemsShow(h, c.addr);
    }
  }

  /** Bounds are integers: dropping them releases nothing. */
  lemma SliceRefines(h: RHeap, c: RVal, from: Option<RVal>, to: Option<RVal>, held: multiset<RVal>)
    requires Exact(h, held + multiset(SlicePops(c, from, to)))
    requires RT.SliceOf(View(h), ViewVal(h.flts, c), ViewOpt(h.flts, from), ViewOpt(h.flts, to)).Ok?
    ensures var r := RT.SliceOf(View(h), ViewVal(h.flts, c), ViewOpt(h.flts, from), ViewOpt(h.flts, to)).value;
      Refines(h, held, CountedSlice(h, c, from, to), M.Effect([r.0], r.1, []))
  {
    hide Exact, View, AllKids, Refines, Share, ItemsAt, RT.CreateSlice, RT.ClampBounds, RT.Length, SlicePops;
    SliceOperands(h, c, from, to);
    DropBounds(h, c, from, to, held);
    var lo := if from.Some? then RT.Unbox(ViewVal(h.flts, from.value)).value else 0;
    var hi := if to.Some? then RT.Unbox(ViewVal(h.flts, to.value)).value else -1;
    var hi' := if hi < 0 then RT.Length(View(h), ViewVal(h.flts, c)).value else hi;
    NewSliceShows(h, c, lo, hi', held + multiset([c]));
    var o := BodyAt(h, c).value;
    var (parent, shift) := if o.Slice? then (o.parent, o.from) else (c.addr, 0);
    var (a, b) := RT.ClampBounds(lo + shift, hi' + shift, |ItemsAt(h, parent).value|);
    ShareRefines(h, RT.Slice(parent, a, b), [c], held);
  }

  lemma SliceOperands(h: RHeap, c: RVal, from: Option<RVal>, to: Option<RVal>)
    requires RT.SliceOf(View(h), ViewVal(h.flts, c), ViewOpt(h.flts, from), ViewOpt(h.flts, to)).Ok?
    ensures from.Some? ==> RT.Unbox(ViewVal(h.flts, from.value)).Ok?
    ensures to.Some? ==> RT.Unbox(ViewVal(h.flts, to.value)).Ok?
    ensures c.RRef?
  {
    hide View;
  }

  lemma DropBounds(h: RHeap, c: RVal, from: Option<RVal>, to: Option<RVal>, held: multiset<RVal>)
    requires Exact(h, held + multiset(SlicePops(c, from, to)))
    requires from.Some? ==> RT.Unbox(ViewVal(h.flts, from.value)).Ok?
    requires to.Some? ==> RT.Unbox(ViewVal(h.flts, to.value)).Ok?
    ensures Exact(h, held + multiset([c]))
  {
    hide Exact;
    var bounds := BoundPops(from, to);
    assert held + multiset([c] + bounds) == held + multiset([c]) + multiset(bounds) by { hide BoundPops; }
    PlainsDropped(h, held + multiset([c]), bounds);
  }

  // Slice assignment

  /** The replacement is no slice and brings the references that go. */
  ghost predicate CountableSliceAssign(h: RHeap, x: RVal, slice: RVal) {
    match (BodyAt(h, x), BodyAt(h, slice))
    case (Ok(r), Ok(Slice(parent, from, to))) =>
      (r.Text? || r.Tuple?) &&
      (match ItemsAt(h, parent)
       case Ok(items) => 0 <= from <= to <= |items| && SamePtrs(multiset(r.items), multiset(items[from..to]))
       case Err(_) => false)
    case _ => false
  }

  lemma SplicedView(flts: seq<FCell>, items: seq<RVal>, from: nat, to: nat, new_: seq<RVal>)
    requires from <= to <= |items|
    ensures ViewAll(flts, RT.Spliced(items, from, to, new_)) == RT.Spliced(ViewAll(flts, items), from, to, ViewAll(flts, new_))
  {
    ViewConcat(flts, items[..from] + new_, items[to..]);
    ViewConcat(flts, items[..from], new_);
  }

  lemma SplicedKids(items: seq<RVal>, from: nat, to: nat, new_: seq<RVal>)
    requires from <= to <= |items|
    ensures multiset(RT.Spliced(items, from, to, new_)) + multiset(items[from..to]) == multiset(items) + multiset(new_)
  {
    var a, b, c := items[..from], items[from..to], items[to..];
    assert items == a + b + c;
    assert multiset(a + new_ + c) == multiset(a) + multiset(new_) + multiset(c);
    assert multiset(a + b + c) == multiset(a) + multiset(b) + multiset(c);
  }

  /** Both machines' assignment of a replacement that is no slice. */
  lemma SliceAssignMeans(h: RHeap, x: RVal, slice: RVal, held: multiset<RVal>)
    requires Exact(h, held) && x in held && slice in held && RT.SliceAssign(View(h), ViewVal(h.flts, slice), ViewVal(h.flts, x)).Ok?
    requires BodyAt(h, x).Ok? && !BodyAt(h, x).value.Slice?
    ensures BodyAt(h, slice).Ok? && BodyAt(h, slice).value.Slice?
    ensures var s, r := BodyAt(h, slice).value, BodyAt(h, x).value;
      var items := ItemsAt(h, s.parent);
      && items.Ok? && (r.Text? || r.Tuple?) && 0 <= s.from <= s.to <= |items.value|
      && var o := RT.WithItems(h.objs[s.parent].body, RT.Spliced(items.value, s.from, s.to, r.items));
         CountedSliceAssign(h, x, slice) == Release(Rebody(h, s.parent, o), [slice, x], [])
         && RT.SliceAssign(View(h), ViewVal(h.flts, slice), ViewVal(h.flts, x)) == Ok(View(h)[s.parent := ViewObj(h.flts, o)])
  {
    hide Exact, View, AllKids, Release, RT.Spliced, ViewAll;
    BodyShows(h, held, x);
    BodyShows(h, held, slice);
    ParentShows(h, held, slice.addr);
    var s, r := h.objs[slice.addr].body, h.objs[x.addr].body;
    SplicedView(h.flts, ItemsAt(h, s.parent).value, s.from, s.to, r.items);
  }

  lemma SliceAssignRefines(h: RHeap, x: RVal, slice: RVal, held: multiset<RVal>)
    requires Exact(h, held + multiset([x, slice])) && CountableSliceAssign(h, x, slice)
    requires RT.SliceAssign(View(h), ViewVal(h.flts, slice), ViewVal(h.flts, x)).Ok?
    ensures Refines(h, held, CountedSliceAssign(h, x, slice),
      M.Effect([], RT.SliceAssign(View(h), ViewVal(h.flts, slice), ViewVal(h.flts, x)).value, []))
  {
    hide Exact, View, AllKids, Refines, Release, SamePtrs, RT.Spliced, ViewAll, CountedSliceAssign, RT.SliceAssign;
    var all := held + multiset([x, slice]);
    assert multiset([x, slice])[x] >= 1 && multiset([x, slice])[slice] >= 1;
    ExactKnown(h, all);
    SliceAssignMeans(h, x, slice, all);
    var s, r := BodyAt(h, slice).value, BodyAt(h, x).value;
    var items := ItemsAt(h, s.parent).value;
    var o := RT.WithItems(h.objs[s.parent].body, RT.Spliced(items, s.from, s.to, r.items));
    SplicedView(h.flts, items, s.from, s.to, r.items);
    SplicedKids(items, s.from, s.to, r.items);
    CountShift(h, s.parent, o, all, multiset(r.items), multiset(items[s.from..s.to]));
    RebodyShows(h, s.parent, o);
    assert held + multiset([]) + multiset([slice, x]) == all;
    ReleaseRefines(h, Rebody(h, s.parent, o), [slice, x], [], held,
      M.Effect([], RT.SliceAssign(View(h), ViewVal(h.flts, slice), ViewVal(h.flts, x)).value, []));
  }

  // The remaining handlers

  predicate IsWrite(i: Instr) { i.CALLBUILTIN? && i.name == Lwrite }

  /** An instruction on operands it owns, which the value machine performs... */
  ghost predicate PrimOwned(img: M.Image, h: RHeap, i: Instr, ops: seq<RVal>, held: multiset<RVal>) {
    && |ops| == M.Pops(img.lib, i) && img.lib.depth > 0
    && Exact(h, held + multiset(ops)) && M.Prim(img, i, View(h), ViewAll(h.flts, ops)).Ok?
  }

  /** ...and which keeps counts exact... */
  ghost predicate PrimReady(img: M.Image, h: RHeap, i: Instr, ops: seq<RVal>, held: multiset<RVal>) {
    PrimOwned(img, h, i, ops, held) && Countable(img, i, h, ops)
  }

  /** ...does what the value machine does. */
  ghost predicate PrimGood(img: M.Image, h: RHeap, i: Instr, ops: seq<RVal>, held: multiset<RVal>) {
    |ops| == M.Pops(img.lib, i) && M.Prim(img, i, View(h), ViewAll(h.flts, ops)).Ok? ==>
      Refines(h, held, CountedPrim(img, i, h, ops), M.Prim(img, i, View(h), ViewAll(h.flts, ops)).value)
  }

  lemma NewRefines(img: M.Image, h: RHeap, i: Instr, ops: seq<RVal>, held: multiset<RVal>)
    requires (i.CONST? || i.BOOL? || i.CONSTF? || i.NULL? || i.STRING? || i.CLOSURE?) && PrimReady(img, h, i, ops, held)
    ensures PrimGood(img, h, i, ops, held)
  {
    hide Exact, View, AllKids, Refines, Share, RT.Binop, RT.VmBinop, RT.Equal, RT.Meets, CountedEqual, RT.SliceOf, RT.Elem, RT.SetItem,
      RT.SliceAssign, RT.CallBuiltin, RT.Stringify, RT.StringifyAll, Dec, DecAll;
    assert ops == [] && ViewAll(h.flts, ops) == [] && held + multiset([]) == held;
    if i.CONST? {
      ScalarRefines(h, RT.Int(AsI32(i.value)), [], held);
    } else if i.BOOL? {
      ScalarRefines(h, RT.Bool(i.flag), [], held);
    } else if i.CONSTF? {
      ScalarRefines(h, RT.Flt(i.double), [], held);
    } else if i.NULL? {
      ShareRefines(h, RT.Null, [], held);
    } else if i.CLOSURE? {
      ShareRefines(h, RT.Callable(i.dest.offset.value, i.arity), [], held);
    } else {
      var cps := Utf8.DecodeAll(StringTable.StringAt(img.strings, i.offset).value).value;
      var o := RT.Text(seq(|cps|, k requires 0 <= k < |cps| => RInt(cps[k])));
      assert ViewObj(h.flts, o) == RT.Text(seq(|cps|, k requires 0 <= k < |cps| => RT.Int(cps[k])));
      ShareRefines(h, o, [], held);
    }
  }

  lemma {:induction false} ReversedKids(vs: seq<RVal>)
    ensures multiset(Reversed(vs)) == multiset(vs)
  {
    if vs != [] {
      ReversedKids(vs[1..]);
      assert vs == [vs[0]] + vs[1..];
    }
  }

  lemma AggregateRefines(img: M.Image, h: RHeap, i: Instr, ops: seq<RVal>, held: multiset<RVal>)
    requires (i.TUPLE? || i.VARIANT?) && PrimReady(img, h, i, ops, held)
    ensures PrimGood(img, h, i, ops, held)
  {
    hide Exact, View, AllKids, Refines, Share, RT.Binop, RT.VmBinop, RT.Equal, RT.Meets, CountedEqual, RT.SliceOf, RT.Elem, RT.SetItem,
      RT.SliceAssign, RT.CallBuiltin, RT.Stringify, RT.StringifyAll, Dec, DecAll;
    if i.TUPLE? {
      TupleTakes(h, ops, held);
    } else {
      VariantTakes(h, i.schema, ops, held);
    }
  }

  /** A tuple counts its items, whose operands are then released. */
  lemma TupleTakes(h: RHeap, ops: seq<RVal>, held: multiset<RVal>)
    requires Exact(h, held + multiset(ops))
    ensures Refines(h, held, Share(h, RT.Tuple(ops), Reversed(ops)),
      M.Effect([RT.Ref(|h.objs|)], View(h) + [ViewObj(h.flts, RT.Tuple(ops))], []))
  {
    hide Exact, View, Refines, Share, Reversed, ViewObj;
    forall v | v in ops && IsPtr(v) ensures CountOf(h, v) >= 1 { HeldAlive(h, held + multiset(ops), v); }
    ReversedKids(ops);
    ShareRefines(h, RT.Tuple(ops), Reversed(ops), held);
  }

  /** A variant takes over the references of its arguments. */
  lemma VariantTakes(h: RHeap, schema: nat, ops: seq<RVal>, held: multiset<RVal>)
    requires Exact(h, held + multiset(ops))
    ensures var o := RT.Variant(schema, ops);
      Refines(h, held, Ok(REffect([AllocObj(h, o).0], AllocObj(h, o).1, [])), M.Effect([RT.Ref(|h.objs|)], View(h) + [ViewObj(h.flts, o)], []))
  {
    hide Exact, View, AllKids;
    var o := RT.Variant(schema, ops);
    ExactKnown(h, held + multiset(ops));
    AllocExact(h, o, held);
    var (p, h1) := AllocObj(h, o);
    ViewOne(h1.flts, p);
    assert multiset([p]) == multiset{p};
  }

  lemma WriteRefines(img: M.Image, h: RHeap, i: Instr, ops: seq<RVal>, held: multiset<RVal>)
    requires IsWrite(i) && PrimReady(img, h, i, ops, held)
    ensures PrimGood(img, h, i, ops, held)
  {
    hide Exact, View, RT.Binop, RT.VmBinop, RT.Equal, RT.Meets, CountedEqual, RT.SliceOf, RT.Elem, RT.SetItem, RT.SliceAssign, RT.CallBuiltin,
      RT.Stringify, RT.StringifyAll, Dec, DecAll, Inc;
    ReversedKids(ops);
    DecAllExact(h, Reversed(ops), held);
    assert held + multiset([]) == held;
    ExactKnown(h, held + multiset(ops));
  }

  lemma BuiltinIsScalar(lib: RT.Library, h: RT.Heap, name: Builtin, a: Value)
    requires RT.CallBuiltin(lib, h, name, a).Ok?
    ensures !RT.CallBuiltin(lib, h, name, a).value.0.Ref? && RT.CallBuiltin(lib, h, name, a).value.1 == h
  {
  }

  lemma DropRefines(img: M.Image, h: RHeap, i: Instr, ops: seq<RVal>, held: multiset<RVal>)
    requires i.DROP? && PrimReady(img, h, i, ops, held)
    ensures PrimGood(img, h, i, ops, held)
  {
    hide Exact, View, AllKids, Refines, CountableBinop, CountableElem, CountableSliceAssign, StoresItself, RT.Binop, RT.VmBinop, RT.Equal, RT.Meets,
      CountedEqual, RT.SliceOf, RT.Elem, RT.SetItem, RT.SliceAssign, RT.CallBuiltin, RT.Stringify, RT.StringifyAll, Dec, DecAll, Inc;
    var all := held + multiset(ops);
    ExactKnown(h, all);
    assert held + multiset([]) + multiset(ops) == all;
    ReleaseRefines(h, h, ops, [], held, M.Effect([], View(h), []));
  }

  lemma DupRefines(img: M.Image, h: RHeap, i: Instr, ops: seq<RVal>, held: multiset<RVal>)
    requires i.DUP? && PrimReady(img, h, i, ops, held)
    ensures PrimGood(img, h, i, ops, held)
  {
    hide Exact, View, AllKids, Refines, RT.Equal, RT.Meets, CountedEqual, Dec, DecAll, Inc;
    assert ops == [ops[0]];
    DupTakes(h, ops[0], held);
  }

  lemma DupTakes(h: RHeap, x: RVal, held: multiset<RVal>)
    requires Exact(h, held + multiset([x]))
    ensures Inc(h, x).Ok?
    ensures Refines(h, held, Ok(REffect([x, x], Inc(h, x).value, [])), M.Effect([ViewVal(h.flts, x), ViewVal(h.flts, x)], View(h), []))
  {
    hide Exact, View, AllKids;
    var all := held + multiset([x]);
    HeldAlive(h, all, x);
    IncExact(h, x, all);
    assert all + multiset{x} == held + multiset([x, x]);
  }

  lemma SwapRefines(img: M.Image, h: RHeap, i: Instr, ops: seq<RVal>, held: multiset<RVal>)
    requires i.SWAP? && PrimReady(img, h, i, ops, held)
    ensures PrimGood(img, h, i, ops, held)
  {
    hide Exact, View, AllKids, Refines, RT.Equal, RT.Meets, CountedEqual, Dec, DecAll, Inc;
    assert ops == [ops[0], ops[1]];
    SwapTakes(h, ops[0], ops[1], held);
  }

  lemma SwapTakes(h: RHeap, a: RVal, b: RVal, held: multiset<RVal>)
    requires Exact(h, held + multiset([a, b]))
    ensures Refines(h, held, Ok(REffect([b, a], h, [])), M.Effect([ViewVal(h.flts, b), ViewVal(h.flts, a)], View(h), []))
  {
    hide Exact, View;
    assert multiset([b, a]) == multiset([a, b]);
  }

  /** The instructions that keep counts exact: a slice is assigned the references it gives up,
      no reference is repeated with a tuple, no comparison meets a slice, no reference is copied
      out of a text, no text is stored into itself with its only item. */
  ghost predicate Countable(img: M.Image, i: Instr, h: RHeap, ops: seq<RVal>)
    requires |ops| == M.Pops(img.lib, i)
  {
    && (i.STS? ==> CountableSliceAssign(h, ops[0], ops[1]))
    && (i.BINOP? ==> CountableBinop(img.lib, h, i.op, ops[0], ops[1]))
    && (i.ELEM? ==> CountableElem(h, ops[0], ops[1]))
    && (i.STA? ==> !StoresItself(h, ops[0], ops[2]))
  }

  lemma ReadingRefines(img: M.Image, h: RHeap, i: Instr, ops: seq<RVal>, held: multiset<RVal>)
    requires (i.UNARY? || i.ISVARIANT? || i.VARIANTTAG? || (i.CALLBUILTIN? && !IsWrite(i))) && PrimReady(img, h, i, ops, held)
    ensures PrimGood(img, h, i, ops, held)
  {
    hide AllKids, Refines, Scalar, StoresItself, RT.Binop, RT.VmBinop, RT.Equal, RT.Meets, CountedEqual, RT.SliceOf, RT.Elem, RT.SetItem,
      RT.SliceAssign, RT.CallBuiltin, RT.Stringify, RT.StringifyAll, Dec, DecAll;
    var x := ViewVal(h.flts, ops[0]);
    if i.UNARY? {
      ScalarRefines(h, RT.Unop(img.lib, View(h), i.uop, x).value.0, ops, held);
    } else if i.CALLBUILTIN? {
      BuiltinIsScalar(img.lib, View(h), i.name, x);
      ScalarRefines(h, RT.CallBuiltin(img.lib, View(h), i.name, x).value.0, ops, held);
    } else if i.ISVARIANT? {
      ScalarRefines(h, RT.Bool(RT.MatchesVariant(img.lib, View(h), x, i.schema).value), ops, held);
    } else {
      ScalarRefines(h, RT.Int(AsI32(RT.TagOf(img.lib, View(h), x).value)), ops, held);
    }
  }

  lemma OperatorRefines(img: M.Image, h: RHeap, i: Instr, ops: seq<RVal>, held: multiset<RVal>)
    requires i.BINOP? && PrimReady(img, h, i, ops, held)
    ensures PrimGood(img, h, i, ops, held)
  {
    hide Exact, View, Refines, CountableBinop, RT.VmBinop, CountedBinop, CountableElem, CountableSliceAssign;
    assert ops == [ops[0], ops[1]];
    BinopRefines(img.lib, h, i.op, ops[0], ops[1], held);
  }

  lemma ElemPrim(img: M.Image, h: RHeap, i: Instr, ops: seq<RVal>, held: multiset<RVal>)
    requires i.ELEM? && PrimReady(img, h, i, ops, held)
    ensures PrimGood(img, h, i, ops, held)
  {
    hide Exact, View, AllKids, Refines, RT.Elem, CountedElem, CountableElem, CountableBinop, CountableSliceAssign, StoresItself, RT.Binop,
      RT.VmBinop, RT.Equal, RT.Meets, CountedEqual, RT.SliceOf, RT.SetItem, RT.SliceAssign, RT.CallBuiltin, RT.Stringify, RT.StringifyAll, Dec,
      DecAll, Inc;
    assert ops == [ops[0], ops[1]];
    ElemRefines(h, ops[0], ops[1], held);
  }

  lemma FieldPrim(img: M.Image, h: RHeap, i: Instr, ops: seq<RVal>, held: multiset<RVal>)
    requires i.FIELD? && PrimReady(img, h, i, ops, held)
    ensures PrimGood(img, h, i, ops, held)
  {
    hide Exact, View, AllKids, Refines, RT.Field, CountedField, CountableBinop, CountableElem, CountableSliceAssign, StoresItself, RT.Binop,
      RT.VmBinop, RT.Equal, RT.Meets, CountedEqual, RT.SliceOf, RT.Elem, RT.SetItem, RT.SliceAssign, RT.CallBuiltin, RT.Stringify, RT.StringifyAll,
      Dec, DecAll;
    assert ops == [ops[0]];
    FieldRefines(h, ops[0], i.index, held);
  }

  function FromOf(i: Instr, ops: seq<RVal>): Option<RVal>
    requires i.SLICE? && i.bounds % 2 == 1 ==> |ops| > 1
  {
    if i.SLICE? && i.bounds % 2 == 1 then Some(ops[1]) else None
  }

  function ToOf(i: Instr, ops: seq<RVal>): Option<RVal>
    requires i.SLICE? && i.bounds / 2 % 2 == 1 ==> |ops| > 1 + i.bounds % 2
  {
    if i.SLICE? && i.bounds / 2 % 2 == 1 then Some(ops[1 + i.bounds % 2]) else None
  }

  /** The bounds that a SLICE's mask says are on the stack, for both machines. */
  lemma SliceMeaning(img: M.Image, h: RHeap, i: Instr, ops: seq<RVal>)
    requires i.SLICE? && |ops| == M.Pops(img.lib, i)
    ensures ops == SlicePops(ops[0], FromOf(i, ops), ToOf(i, ops))
    ensures CountedPrim(img, i, h, ops) == CountedSlice(h, ops[0], FromOf(i, ops), ToOf(i, ops))
    ensures M.Prim(img, i, View(h), ViewAll(h.flts, ops)) ==
      M.One(RT.SliceOf(View(h), ViewVal(h.flts, ops[0]), ViewOpt(h.flts, FromOf(i, ops)), ViewOpt(h.flts, ToOf(i, ops))))
  {
    hide View, RT.SliceOf, CountedSlice, StoresItself, RT.Binop, RT.VmBinop, RT.Equal, RT.Meets, CountedEqual, RT.Elem, RT.SetItem, RT.SliceAssign,
      RT.CallBuiltin, RT.Stringify, RT.StringifyAll, Dec, DecAll, Inc, IncAll;
  }

  lemma SlicePrim(img: M.Image, h: RHeap, i: Instr, ops: seq<RVal>, held: multiset<RVal>)
    requires i.SLICE? && PrimReady(img, h, i, ops, held)
    ensures PrimGood(img, h, i, ops, held)
  {
    hide Exact, View, AllKids, Refines, RT.SliceOf, CountedSlice, M.Prim, CountedPrim, ViewAll, FromOf, ToOf, ViewOpt, SlicePops;
    SliceMeaning(img, h, i, ops);
    SliceRefines(h, ops[0], FromOf(i, ops), ToOf(i, ops), held);
  }

  lemma SetFieldPrim(img: M.Image, h: RHeap, i: Instr, ops: seq<RVal>, held: multiset<RVal>)
    requires i.SETFIELD? && PrimReady(img, h, i, ops, held)
    ensures PrimGood(img, h, i, ops, held)
  {
    hide Exact, View, AllKids, Refines, RT.SetField, CountedSetField, CountableBinop, CountableElem, CountableSliceAssign, StoresItself, RT.Binop,
      RT.VmBinop, RT.Equal, RT.Meets, CountedEqual, RT.SliceOf, RT.Elem, RT.SetItem, RT.SliceAssign, RT.CallBuiltin, RT.Stringify, RT.StringifyAll,
      Dec, DecAll;
    assert ops == [ops[0], ops[1]];
    SetFieldRefines(h, ops[0], ops[1], i.index, held);
  }

  lemma StoreMeaning(img: M.Image, h: RHeap, i: Instr, ops: seq<RVal>)
    requires i.STA? && |ops| == M.Pops(img.lib, i) && M.Prim(img, i, View(h), ViewAll(h.flts, ops)).Ok?
    ensures ops == [ops[0], ops[1], ops[2]]
    ensures CountedPrim(img, i, h, ops) == CountedSetItem(h, ops[0], ops[1], ops[2])
    ensures var r := RT.SetItem(View(h), ViewVal(h.flts, ops[2]), ViewVal(h.flts, ops[1]), ViewVal(h.flts, ops[0]));
      r.Ok? && M.Prim(img, i, View(h), ViewAll(h.flts, ops)).value == M.Effect([ViewVal(h.flts, ops[2])], r.value, [])
  {
    hide View, RT.SetItem, CountedSetItem, StoresItself, RT.Binop, RT.VmBinop, RT.Equal, RT.Meets, CountedEqual, RT.SliceOf, RT.Elem, RT.SliceAssign,
      RT.CallBuiltin, RT.Stringify, RT.StringifyAll, Dec, DecAll, Inc, IncAll;
  }

  lemma StorePrim(img: M.Image, h: RHeap, i: Instr, ops: seq<RVal>, held: multiset<RVal>)
    requires i.STA? && PrimReady(img, h, i, ops, held)
    ensures PrimGood(img, h, i, ops, held)
  {
    hide Exact, View, AllKids, Refines, StoresItself, RT.SetItem, CountedSetItem, M.Prim, CountedPrim, ViewAll;
    StoreMeaning(img, h, i, ops);
    SetItemRefines(h, ops[0], ops[1], ops[2], held);
  }

  lemma SliceAssignPrim(img: M.Image, h: RHeap, i: Instr, ops: seq<RVal>, held: multiset<RVal>)
    requires i.STS? && PrimReady(img, h, i, ops, held)
    ensures PrimGood(img, h, i, ops, held)
  {
    hide Exact, View, AllKids, Refines, CountableSliceAssign, RT.SliceAssign, CountedSliceAssign, CountableBinop, CountableElem, StoresItself,
      RT.Binop, RT.VmBinop, RT.Equal, RT.Meets, CountedEqual, RT.SliceOf, RT.Elem, RT.SetItem, RT.CallBuiltin, RT.Stringify, RT.StringifyAll, Dec,
      DecAll, Inc;
    assert ops == [ops[0], ops[1]];
    SliceAssignRefines(h, ops[0], ops[1], held);
  }

  lemma NothingElse(img: M.Image, i: Instr, h: RT.Heap, ops: seq<Value>)
    requires |ops| == M.Pops(img.lib, i) && M.Prim(img, i, h, ops).Ok?
    ensures i.CONST? || i.BOOL? || i.CONSTF? || i.NULL? || i.STRING? || i.CLOSURE? || i.TUPLE? || i.VARIANT? || i.BINOP?
      || i.ELEM? || i.SLICE? || i.FIELD? || i.SETFIELD? || i.STA? || i.STS? || i.CALLBUILTIN? || i.DROP? || i.DUP? || i.SWAP?
      || i.UNARY? || i.ISVARIANT? || i.VARIANTTAG?
  {
  }

  /** Every handler without control: exact counts in, exact counts out, and the value
      machine's effect. */
  lemma PrimRefines(img: M.Image, i: Instr, h: RHeap, ops: seq<RVal>, held: multiset<RVal>)
    requires PrimReady(img, h, i, ops, held)
    ensures PrimGood(img, h, i, ops, held)
  {
    hide Exact, View, AllKids, Refines, M.Prim, CountedPrim, CountableBinop, CountableElem, CountableSliceAssign, StoresItself;
    NothingElse(img, i, View(h), ViewAll(h.flts, ops));
    if i.CONST? || i.BOOL? || i.CONSTF? || i.NULL? || i.STRING? || i.CLOSURE? {
      NewRefines(img, h, i, ops, held);
    } else if i.TUPLE? || i.VARIANT? {
      AggregateRefines(img, h, i, ops, held);
    } else if i.BINOP? {
      OperatorRefines(img, h, i, ops, held);
    } else if i.ELEM? {
      ElemPrim(img, h, i, ops, held);
    } else if i.FIELD? {
      FieldPrim(img, h, i, ops, held);
    } else if i.SLICE? {
      SlicePrim(img, h, i, ops, held);
    } else if i.SETFIELD? {
      SetFieldPrim(img, h, i, ops, held);
    } else if i.STA? {
      StorePrim(img, h, i, ops, held);
    } else if i.STS? {
      SliceAssignPrim(img, h, i, ops, held);
    } else if IsWrite(i) {
      WriteRefines(img, h, i, ops, held);
    } else if i.DROP? {
      DropRefines(img, h, i, ops, held);
    } else if i.DUP? {
      DupRefines(img, h, i, ops, held);
    } else if i.SWAP? {
      SwapRefines(img, h, i, ops, held);
    } else {
      ReadingRefines(img, h, i, ops, held);
    }
  }
}
