/** Where the counting is wrong, and exactly when that shows. Slice assignment moves items
    without counting them and leaves the copy of a slice behind; equality leaves the copies of
    the slices it meets; an item taken out of a text, or copied with a slice of it, is not
    counted (runtime/tuple.c); repeating a tuple counts its items twice (runtime/arithmetic.c). */
module Uncounted {
  import opened Results
  import opened Bytecode
  import opened RefCount
  import opened CountedMachine
  import opened CountedCorrectness
  import M = Machine
  import RT = Runtime

  /** The operation succeeds and its counts are exact again. */
  ghost predicate KeepsExact(r: Result<REffect>, held: multiset<RVal>) {
    r.Ok? && Exact(r.value.heap, held + multiset(r.value.pushes))
  }

  /** Releasing operands neither repairs nor breaks the counts. */
  lemma ReleaseIff(h: RHeap, consumed: seq<RVal>, pushes: seq<RVal>, held: multiset<RVal>)
    ensures KeepsExact(Release(h, consumed, pushes), held) <==> Exact(h, held + multiset(pushes) + multiset(consumed))
  {
    hide Exact, DecAll;
    if Exact(h, held + multiset(pushes) + multiset(consumed)) {
      DecAllExact(h, consumed, held + multiset(pushes));
    }
    if DecAll(h, consumed).Ok? && Exact(DecAll(h, consumed).value, held + multiset(pushes)) {
      DecAllInexact(h, consumed, held + multiset(pushes));
    }
  }

  /** A new object made of references that were not counted for it. */
  lemma UncountedCopy(h: RHeap, o: RObj, held: multiset<RVal>)
    requires Exact(h, held)
    ensures Exact(AllocObj(h, o).1, held + multiset{AllocObj(h, o).0}) <==> NoPtrs(Kids(o))
  {
    hide Exact;
    if Exact(AllocObj(h, o).1, held + multiset{AllocObj(h, o).0}) {
      AllocInexact(h, o, held);
      ExactHolds(h, held, held + multiset(Kids(o)));
      OnlyNumbers(held, Kids(o));
    }
    if NoPtrs(Kids(o)) {
      PlainsDropped(h, held, Kids(o));
      AllocExact(h, o, held);
    }
  }

  lemma OnlyNumbers(held: multiset<RVal>, more: seq<RVal>)
    requires SamePtrs(held, held + multiset(more))
    ensures NoPtrs(more)
  {
    forall v | v in more ensures !IsPtr(v) { assert v in multiset(more); }
  }

  // Objects nobody holds

  /** Every object from address `n` on is alive, and no live object refers to one of them. */
  predicate Apart(h: RHeap, n: nat) {
    && n <= |h.objs| && (forall a :: n <= a < |h.objs| ==> h.objs[a].Live? && h.objs[a].count >= 1)
    && (forall a :: 0 <= a < |h.objs| ==> Below(CellKids(h.objs[a]), n))
  }

  predicate Below(vs: seq<RVal>, n: nat) { forall v :: v in vs && v.RRef? ==> v.addr < n }

  lemma ExactIsApart(h: RHeap, held: multiset<RVal>)
    requires Exact(h, held)
    ensures Apart(h, |h.objs|) && held[RRef(|h.objs|)] == 0
  {
    hide AllKids;
    forall a | 0 <= a < |h.objs| && h.objs[a].Live? ensures Below(Kids(h.objs[a].body), |h.objs|) { KidsAlive(h, held, a); }
    assert CountOf(h, RRef(|h.objs|)) == 0;
  }

  /** With such an object the counts are not exact. */
  lemma ApartIsInexact(h: RHeap, n: nat, held: multiset<RVal>)
    requires Apart(h, n) && n < |h.objs| && held[RRef(n)] == 0
    ensures !Exact(h, held)
  {
    var v := RRef(n);
    if v in AllKids(h.objs) {
      Holder(h.objs, v);
      assert false;
    }
    assert CountOf(h, v) >= 1;
  }

  lemma {:induction false} IncAllApart(h: RHeap, vs: seq<RVal>, n: nat)
    requires Apart(h, n) && IncAll(h, vs).Ok?
    ensures Apart(IncAll(h, vs).value, n) && |IncAll(h, vs).value.objs| == |h.objs|
    decreases |vs|
  {
    if vs != [] {
      var h1 := Inc(h, vs[0]).value;
      forall a | 0 <= a < |h1.objs| ensures CellKids(h1.objs[a]) == CellKids(h.objs[a]) { }
      IncAllApart(h1, vs[1..], n);
    }
  }

  /** A copy adds at most one object, made of old references; the copy of a slice adds one. */
  lemma CopiedApart(h: RHeap, v: RVal, n: nat)
    requires Apart(h, n) && Copied(h, v).Ok?
    ensures Apart(Copied(h, v).value.1, n)
    ensures |Copied(h, v).value.1.objs| == |h.objs| + (if v.RRef? && BodyAt(h, v).value.Slice? then 1 else 0)
    ensures v.RRef? ==> BodyAt(Copied(h, v).value.1, Copied(h, v).value.0).Ok?
  {
    hide IncAll;
    if v.RRef? && BodyAt(h, v).value.Slice? {
      var s := BodyAt(h, v).value;
      var items := SliceItems(h, s).value;
      assert forall x :: x in items ==> x in CellKids(h.objs[s.parent]);
      assert Below(items, n);
      if !h.objs[s.parent].body.Text? { IncAllApart(h, items, n); }
    }
  }

  lemma KidsBelow(h: RHeap, v: RVal, n: nat)
    requires Apart(h, n) && BodyAt(h, v).Ok?
    ensures Below(Kids(BodyAt(h, v).value), n)
  {
    assert Below(CellKids(h.objs[v.addr]), n);
  }

  // Equality

  /** A comparison frees nothing and stores nothing. */
  lemma {:induction false} EqualApart(lib: RT.Library, h: RHeap, depth: nat, a: RVal, b: RVal, n: nat)
    requires Apart(h, n) && CountedEqual(lib, h, depth, a, b).Ok?
    ensures Apart(CountedEqual(lib, h, depth, a, b).value.1, n) && |h.objs| <= |CountedEqual(lib, h, depth, a, b).value.1.objs|
    decreases depth, 0, 0
  {
    hide Apart, Copied, CountedSame;
    if a.RRef? {
      CopiedApart(h, a, n);
      var (a', h1) := Copied(h, a).value;
      CopiedApart(h1, b, n);
      var (b', h2) := Copied(h1, b).value;
      SameApart(lib, h2, depth, BodyAt(h2, a').value, BodyAt(h2, b').value, n);
    }
  }

  lemma {:induction false} SameApart(lib: RT.Library, h: RHeap, depth: nat, x: RObj, y: RObj, n: nat)
    requires Apart(h, n) && depth > 0 && CountedSame(lib, h, depth, x, y).Ok?
    ensures Apart(CountedSame(lib, h, depth, x, y).value.1, n) && |h.objs| <= |CountedSame(lib, h, depth, x, y).value.1.objs|
    decreases depth - 1, 3, 0
  {
    hide Apart, CountedEqualItems, CountedEqualVariants, RT.SameCharacters;
    if x.Tuple? && y.Tuple? && |x.items| == |y.items| {
      EqualItemsApart(lib, h, depth - 1, x.items, y.items, n);
    } else if x.Variant? && y.Variant? {
      VariantsApart(lib, h, depth, x, y, n);
    }
  }

  lemma {:induction false} VariantsApart(lib: RT.Library, h: RHeap, depth: nat, x: RObj, y: RObj, n: nat)
    requires Apart(h, n) && depth > 0 && x.Variant? && y.Variant? && CountedEqualVariants(lib, h, depth, x, y).Ok?
    ensures Apart(CountedEqualVariants(lib, h, depth, x, y).value.1, n)
    ensures |h.objs| <= |CountedEqualVariants(lib, h, depth, x, y).value.1.objs|
    decreases depth - 1, 2, 0
  {
    hide Apart, CountedEqualItems, RT.FieldPairs;
    var pairs := RT.FieldPairs(lib, x, y).value;
    if pairs.Some? { EqualItemsApart(lib, h, depth - 1, pairs.value.0, pairs.value.1, n); }
  }

  lemma {:induction false} EqualItemsApart(lib: RT.Library, h: RHeap, depth: nat, xs: seq<RVal>, ys: seq<RVal>, n: nat)
    requires Apart(h, n) && |xs| == |ys| && CountedEqualItems(lib, h, depth, xs, ys).Ok?
    ensures Apart(CountedEqualItems(lib, h, depth, xs, ys).value.1, n)
    ensures |h.objs| <= |CountedEqualItems(lib, h, depth, xs, ys).value.1.objs|
    decreases depth, 1, |xs|
  {
    hide Apart, CountedEqual;
    if xs != [] {
      EqualApart(lib, h, depth, xs[0], ys[0], n);
      var (same, h1) := CountedEqual(lib, h, depth, xs[0], ys[0]).value;
      if same { EqualItemsApart(lib, h1, depth, xs[1..], ys[1..], n); }
    }
  }

  /** A comparison that meets a slice leaves an object more. */
  lemma {:induction false} EqualGrows(lib: RT.Library, h: RHeap, depth: nat, a: RVal, b: RVal, held: multiset<RVal>)
    requires Exact(h, held) && Alive(h, a) && Alive(h, b) && Apart(h, |h.objs|)
    requires RT.Equal(lib, View(h), depth, ViewVal(h.flts, a), ViewVal(h.flts, b)).Ok?
    requires RT.Meets(lib, View(h), depth, ViewVal(h.flts, a), ViewVal(h.flts, b))
    requires CountedEqual(lib, h, depth, a, b).Ok?
    ensures |h.objs| < |CountedEqual(lib, h, depth, a, b).value.1.objs|
    decreases depth, 0, 0
  {
    hide Exact, Apart, View, AllKids, RT.MeetsItems, RT.EqualItems, CountedSame, SliceItems, IncAll, RT.FieldPairs;
    var x, y := h.objs[a.addr].body, h.objs[b.addr].body;
    if x.Slice? || y.Slice? {
      CopiedApart(h, a, |h.objs|);
      var (a', h1) := Copied(h, a).value;
      CopiedApart(h1, b, |h.objs|);
      var (b', h2) := Copied(h1, b).value;
      SameApart(lib, h2, depth, BodyAt(h2, a').value, BodyAt(h2, b').value, |h.objs|);
    } else {
      KidsAlive(h, held, a.addr);
      KidsAlive(h, held, b.addr);
      if x.Variant? { assert RT.EqualVariants(lib, View(h), depth, ViewObj(h.flts, x), ViewObj(h.flts, y)).Ok?; }
      SameGrows(lib, h, depth, x, y, held);
    }
  }

  lemma {:induction false} SameGrows(lib: RT.Library, h: RHeap, depth: nat, x: RObj, y: RObj, held: multiset<RVal>)
    requires Exact(h, held) && AllAlive(h, Kids(x)) && AllAlive(h, Kids(y)) && Apart(h, |h.objs|) && depth > 0
    requires CountedSame(lib, h, depth, x, y).Ok?
    requires if x.Tuple? && y.Tuple? && |x.items| == |y.items| then
        RT.EqualItems(lib, View(h), depth - 1, ViewAll(h.flts, x.items), ViewAll(h.flts, y.items)).Ok?
        && RT.MeetsItems(lib, View(h), depth - 1, ViewAll(h.flts, x.items), ViewAll(h.flts, y.items))
      else x.Variant? && y.Variant? && match RT.FieldPairs(lib, ViewObj(h.flts, x), ViewObj(h.flts, y))
        case Ok(Some((xs, ys))) => RT.EqualItems(lib, View(h), depth - 1, xs, ys).Ok? && RT.MeetsItems(lib, View(h), depth - 1, xs, ys)
        case _ => false
    ensures |h.objs| < |CountedSame(lib, h, depth, x, y).value.1.objs|
    decreases depth - 1, 3, 0
  {
    hide Exact, Apart, View, AllKids, RT.MeetsItems, RT.EqualItems, CountedEqualItems;
    if x.Tuple? {
      EqualItemsGrow(lib, h, depth - 1, x.items, y.items, held);
    } else {
      PairsShow(lib, h.flts, x, y);
      var pairs := RT.FieldPairs(lib, x, y).value.value;
      EqualItemsGrow(lib, h, depth - 1, pairs.0, pairs.1, held);
    }
  }

  lemma {:induction false} EqualItemsGrow(lib: RT.Library, h: RHeap, depth: nat, xs: seq<RVal>, ys: seq<RVal>, held: multiset<RVal>)
    requires Exact(h, held) && AllAlive(h, xs) && AllAlive(h, ys) && |xs| == |ys| && Apart(h, |h.objs|)
    requires RT.EqualItems(lib, View(h), depth, ViewAll(h.flts, xs), ViewAll(h.flts, ys)).Ok?
    requires RT.MeetsItems(lib, View(h), depth, ViewAll(h.flts, xs), ViewAll(h.flts, ys))
    requires CountedEqualItems(lib, h, depth, xs, ys).Ok?
    ensures |h.objs| < |CountedEqualItems(lib, h, depth, xs, ys).value.1.objs|
    decreases depth, 1, |xs|
  {
    hide Exact, Apart, View, AllKids, RT.Equal, RT.Meets, CountedEqual;
    ViewRest(h.flts, xs);
    ViewRest(h.flts, ys);
    if RT.Meets(lib, View(h), depth, ViewVal(h.flts, xs[0]), ViewVal(h.flts, ys[0])) {
      EqualGrows(lib, h, depth, xs[0], ys[0], held);
      EqualApart(lib, h, depth, xs[0], ys[0], |h.objs|);
      var (same, h1) := CountedEqual(lib, h, depth, xs[0], ys[0]).value;
      if same { EqualItemsApart(lib, h1, depth, xs[1..], ys[1..], |h.objs|); }
    } else {
      EqualAgrees(lib, h, depth, xs[0], ys[0], held);
      EqualItemsGrow(lib, h, depth, xs[1..], ys[1..], held);
    }
  }

  /** Equality keeps the counts exact just when it meets no slice. */
  lemma EqualityExactIff(lib: RT.Library, h: RHeap, op: Op, a: RVal, b: RVal, held: multiset<RVal>)
    requires Exact(h, held + multiset([a, b])) && op in {EQ, NEQ} && lib.depth > 0
    requires RT.VmBinop(lib, View(h), op, ViewVal(h.flts, a), ViewVal(h.flts, b)).Ok?
    ensures KeepsExact(CountedBinop(lib, h, op, a, b), held)
      <==> !RT.Meets(lib, View(h), lib.depth, ViewVal(h.flts, a), ViewVal(h.flts, b))
  {
    hide Exact, View, AllKids, RT.Equal, CountedEqual, RT.MeetsItems, Release, Apart, RT.VmBinop, CountedBinop;
    if RT.Meets(lib, View(h), lib.depth, ViewVal(h.flts, a), ViewVal(h.flts, b)) {
      var all := held + multiset([a, b]);
      EqualityMeans(lib, h, op, a, b);
      if CountedEqual(lib, h, lib.depth, a, b).Ok? {
        assert multiset([a, b])[a] >= 1 && multiset([a, b])[b] >= 1;
        HeldAlive(h, all, a);
        HeldAlive(h, all, b);
        ExactIsApart(h, all);
        EqualGrows(lib, h, lib.depth, a, b, all);
        EqualApart(lib, h, lib.depth, a, b, |h.objs|);
        var (same, h1) := CountedEqual(lib, h, lib.depth, a, b).value;
        var pushes := [RBool(same == (op == EQ))];
        assert multiset([b, a]) == multiset([a, b]);
        ApartIsInexact(h1, |h.objs|, held + multiset(pushes) + multiset([b, a]));
        ReleaseIff(h1, [b, a], pushes, held);
      }
    } else {
      BinopRefines(lib, h, op, a, b, held);
    }
  }

  // Copies

  /** The copy of a slice is exactly counted just when no reference is copied out of a text. */
  lemma CopyExactIff(h: RHeap, v: RVal, held: multiset<RVal>)
    requires Exact(h, held) && v in held && BodyAt(h, v).Ok? && BodyAt(h, v).value.Slice? && Copied(h, v).Ok?
    ensures var s := BodyAt(h, v).value;
      Exact(Copied(h, v).value.1, held + multiset{Copied(h, v).value.0})
      <==> (h.objs[s.parent].body.Text? ==> NoPtrs(SliceItems(h, s).value))
  {
    hide Exact, View, AllKids;
    var s := BodyAt(h, v).value;
    var items := SliceItems(h, s).value;
    if h.objs[s.parent].body.Text? {
      UncountedCopy(h, RT.Text(items), held);
    } else {
      KidsAlive(h, held, s.parent);
      IncAllExact(h, items, held);
      AllocExact(IncAll(h, items).value, RT.Tuple(items), held);
    }
  }

  /** Taking an item keeps the counts exact just when it copies no reference out of a text. */
  lemma ElemExactIff(h: RHeap, c: RVal, i: RVal, held: multiset<RVal>)
    requires Exact(h, held + multiset([c, i])) && RT.Elem(View(h), ViewVal(h.flts, c), ViewVal(h.flts, i)).Ok?
    ensures KeepsExact(CountedElem(h, c, i), held) <==> CountableElem(h, c, i)
  {
    hide Exact, View, AllKids, Release;
    if CountableElem(h, c, i) {
      ElemRefines(h, c, i, held);
    } else {
      var v := ItemOfText(h, c, RT.Unbox(ViewVal(h.flts, i)).value).value;
      var (p, h1) := AllocObj(h, RT.Text([v]));
      assert !NoPtrs(Kids(RT.Text([v]))) by { assert v in [v]; }
      UncountedCopy(h, RT.Text([v]), held + multiset([c, i]));
      assert held + multiset([c, i]) + multiset{p} == held + multiset([p]) + multiset([c, i]);
      ReleaseIff(h1, [c, i], [p], held);
    }
  }

  // Items

  /** Storing an item keeps the counts exact unless a text with one item is stored into itself
      and holds the only reference to that item: then the item is freed first. */
  lemma SetItemExactIff(h: RHeap, x: RVal, i: RVal, c: RVal, held: multiset<RVal>)
    requires Exact(h, held + multiset([x, i, c]))
    requires RT.SetItem(View(h), ViewVal(h.flts, c), ViewVal(h.flts, i), ViewVal(h.flts, x)).Ok?
    ensures KeepsExact(CountedSetItem(h, x, i, c), held) <==> !StoresItself(h, x, c)
  {
    hide Exact, View, AllKids, DecAll;
    if StoresItself(h, x, c) {
      var all := held + multiset([x, i, c]);
      assert multiset([x, i, c])[c] >= 1;
      BodyShows(h, all, c);
      var item := h.objs[c.addr].body.items[0];
      if Dec(h, item).Ok? { Gone(h, item); }
    } else {
      SetItemRefines(h, x, i, c, held);
    }
  }

  /** Releasing the only reference frees. */
  lemma Gone(h: RHeap, v: RVal)
    requires IsPtr(v) && CountOf(h, v) == 1 && Dec(h, v).Ok?
    ensures CountOf(Dec(h, v).value, v) == 0
  {
    if v.RRef? { assert v.addr !in LiveSet(Dec(h, v).value.objs); }
  }

  // Slice assignment

  /** Slice assignment keeps the counts exact just when the replacement is no slice and brings
      the references that go. */
  lemma SliceAssignExactIff(h: RHeap, x: RVal, slice: RVal, held: multiset<RVal>)
    requires Exact(h, held + multiset([x, slice]))
    requires RT.SliceAssign(View(h), ViewVal(h.flts, slice), ViewVal(h.flts, x)).Ok?
    ensures KeepsExact(CountedSliceAssign(h, x, slice), held) <==> CountableSliceAssign(h, x, slice)
  {
    hide Exact, View, AllKids, Release, SamePtrs, RT.Spliced, CountedSliceAssign, RT.SliceAssign;
    var all := held + multiset([x, slice]);
    assert multiset([x, slice])[x] >= 1 && multiset([x, slice])[slice] >= 1;
    BodyOf(h, x, slice, all);
    if BodyAt(h, x).value.Slice? {
      CopyLeaks(h, x, slice, held);
    } else {
      SliceAssignMeans(h, x, slice, all);
      var s, r := BodyAt(h, slice).value, BodyAt(h, x).value;
      var items := ItemsAt(h, s.parent).value;
      var o := RT.WithItems(h.objs[s.parent].body, RT.Spliced(items, s.from, s.to, r.items));
      SplicedView(h.flts, items, s.from, s.to, r.items);
      SplicedKids(items, s.from, s.to, r.items);
      CountShift(h, s.parent, o, all, multiset(r.items), multiset(items[s.from..s.to]));
      assert held + multiset([]) + multiset([slice, x]) == all;
      ReleaseIff(Rebody(h, s.parent, o), [slice, x], [], held);
    }
  }

  lemma BodyOf(h: RHeap, x: RVal, slice: RVal, held: multiset<RVal>)
    requires Exact(h, held) && x in held && slice in held
    requires RT.SliceAssign(View(h), ViewVal(h.flts, slice), ViewVal(h.flts, x)).Ok?
    ensures BodyAt(h, x).Ok? && BodyAt(h, slice).Ok? && BodyAt(h, slice).value.Slice?
  {
    hide Exact, View, AllKids;
    BodyShows(h, held, x);
    BodyShows(h, held, slice);
  }

  /** The copy of a slice that is assigned is never released. */
  lemma SplicedBelow(items: seq<RVal>, from: nat, to: nat, new_: seq<RVal>, n: nat)
    requires from <= to <= |items| && Below(items, n) && Below(new_, n)
    ensures Below(RT.Spliced(items, from, to, new_), n)
  {
  }

  /** The heap before the operands are released: the copy stays apart from the rest. */
  lemma CopyAssigned(h: RHeap, x: RVal, slice: RVal) returns (g: RHeap)
    requires Apart(h, |h.objs|) && BodyAt(h, x).Ok? && BodyAt(h, x).value.Slice? && CountedSliceAssign(h, x, slice).Ok?
    ensures Apart(g, |h.objs|) && |h.objs| < |g.objs| && CountedSliceAssign(h, x, slice) == Release(g, [slice, x], [])
  {
    hide Copied, Apart, Release, Below, RT.Spliced;
    var n := |h.objs|;
    CopiedApart(h, x, n);
    var (copy, h1) := Copied(h, x).value;
    var s, r := BodyAt(h, slice).value, BodyAt(h1, copy).value;
    var items := ItemsAt(h1, s.parent).value;
    var o := RT.WithItems(h1.objs[s.parent].body, RT.Spliced(items, s.from, s.to, r.items));
    KidsBelow(h1, copy, n);
    KidsBelow(h1, RRef(s.parent), n);
    SplicedBelow(items, s.from, s.to, r.items, n);
    g := Rebody(h1, s.parent, o);
    RebodyApart(h1, s.parent, o, n);
  }

  lemma CopyLeaks(h: RHeap, x: RVal, slice: RVal, held: multiset<RVal>)
    requires Exact(h, held + multiset([x, slice])) && BodyAt(h, x).Ok? && BodyAt(h, x).value.Slice?
    ensures !KeepsExact(CountedSliceAssign(h, x, slice), held)
  {
    hide Exact, View, AllKids, Apart, Release, CountedSliceAssign;
    var all := held + multiset([x, slice]);
    if CountedSliceAssign(h, x, slice).Ok? {
      ExactIsApart(h, all);
      var g := CopyAssigned(h, x, slice);
      assert held + multiset([]) + multiset([slice, x]) == all;
      ApartIsInexact(g, |h.objs|, all);
      ReleaseIff(g, [slice, x], [], held);
    }
  }

  lemma RebodyApart(h: RHeap, a: nat, o: RObj, n: nat)
    requires Apart(h, n) && a < |h.objs| && h.objs[a].Live? && Below(Kids(o), n)
    ensures Apart(Rebody(h, a, o), n)
  {
  }

  // Repeated tuples

  /** Repeating a tuple keeps the counts exact just when no reference is repeated. */
  lemma TupleRepeatExactIff(lib: RT.Library, h: RHeap, a: RVal, n: int, held: multiset<RVal>)
    requires Exact(h, held + multiset([a, RInt(n)])) && BodyAt(h, a).Ok? && BodyAt(h, a).value.Tuple?
    ensures KeepsExact(CountedBinop(lib, h, MUL, a, RInt(n)), held) <==> CountableRepeat(h, a, n)
  {
    hide Exact, View, AllKids, Release, IncAll, NoPtrs;
    var rep, all := RT.Repeat(BodyAt(h, a).value.items, n), held + multiset([a, RInt(n)]);
    KidsAlive(h, all, a.addr);
    RepeatedItems(BodyAt(h, a).value.items, n);
    Doubled(h, rep, all);
    var (p, h1) := AllocObj(IncAll(IncAll(h, rep).value, rep).value, RT.Tuple(rep));
    assert held + multiset([p]) + multiset([RInt(n), a]) == all + multiset{p};
    ReleaseIff(h1, [RInt(n), a], [p], held);
  }

  /** Counted twice for one new object. */
  lemma Doubled(h: RHeap, rep: seq<RVal>, held: multiset<RVal>)
    requires Exact(h, held) && AllAlive(h, rep)
    ensures IncAll(h, rep).Ok? && IncAll(IncAll(h, rep).value, rep).Ok?
    ensures var (p, h') := AllocObj(IncAll(IncAll(h, rep).value, rep).value, RT.Tuple(rep));
      Exact(h', held + multiset{p}) <==> NoPtrs(rep)
  {
    hide Exact, View, AllKids, IncAll, NoPtrs;
    IncAllExact(h, rep, held);
    var h1 := IncAll(h, rep).value;
    SharedTwice(h, h1, rep, held);
    IncAllExact(h1, rep, held + multiset(rep));
    var h2 := IncAll(h1, rep).value;
    var (p, h3) := AllocObj(h2, RT.Tuple(rep));
    AllocExact(h2, RT.Tuple(rep), held + multiset(rep));
    ExactHolds(h3, held + multiset(rep) + multiset{p}, held + multiset{p});
    RepeatedPtrs(rep, held + multiset{p}, held + multiset(rep) + multiset{p});
  }

  lemma SharedTwice(h: RHeap, h1: RHeap, vs: seq<RVal>, held: multiset<RVal>)
    requires Exact(h1, held + multiset(vs))
    ensures forall v :: v in vs && IsPtr(v) ==> CountOf(h1, v) >= 1
  {
    forall v | v in vs && IsPtr(v) ensures CountOf(h1, v) >= 1 { assert v in multiset(vs); }
  }

  lemma RepeatedPtrs(rep: seq<RVal>, a: multiset<RVal>, b: multiset<RVal>)
    requires b == a + multiset(rep)
    ensures SamePtrs(b, a) <==> NoPtrs(rep)
  {
    if SamePtrs(b, a) {
      forall v | v in rep ensures !IsPtr(v) { assert v in multiset(rep); }
    }
    if NoPtrs(rep) {
      forall v: RVal | IsPtr(v) ensures b[v] == a[v] { assert v !in rep; }
    }
  }

  // All instructions

  lemma BinopExactIff(lib: RT.Library, h: RHeap, op: Op, a: RVal, b: RVal, held: multiset<RVal>)
    requires Exact(h, held + multiset([a, b])) && lib.depth > 0
    requires RT.VmBinop(lib, View(h), op, ViewVal(h.flts, a), ViewVal(h.flts, b)).Ok?
    ensures KeepsExact(CountedBinop(lib, h, op, a, b), held) <==> CountableBinop(lib, h, op, a, b)
  {
    hide Exact, View, RT.VmBinop, CountedBinop, RT.Meets;
    if op in {EQ, NEQ} {
      EqualityExactIff(lib, h, op, a, b, held);
    } else if op == MUL && b.RInt? && !CountableRepeat(h, a, b.n) {
      TupleRepeatExactIff(lib, h, a, b.n, held);
    } else {
      BinopRefines(lib, h, op, a, b, held);
    }
  }

  /** What is shown of every instruction. */
  ghost predicate PrimIff(img: M.Image, h: RHeap, i: Instr, ops: seq<RVal>, held: multiset<RVal>) {
    |ops| == M.Pops(img.lib, i) ==> (KeepsExact(CountedPrim(img, i, h, ops), held) <==> Countable(img, i, h, ops))
  }

  /** Wherever the value machine succeeds, an instruction keeps the counts exact if and only if
      it is `Countable`. */
  lemma PrimExactIff(img: M.Image, i: Instr, h: RHeap, ops: seq<RVal>, held: multiset<RVal>)
    requires |ops| == M.Pops(img.lib, i) && img.lib.depth > 0
    requires Exact(h, held + multiset(ops)) && M.Prim(img, i, View(h), ViewAll(h.flts, ops)).Ok?
    ensures KeepsExact(CountedPrim(img, i, h, ops), held) <==> Countable(img, i, h, ops)
  {
    hide Exact, View, ViewAll, M.Prim, CountedPrim, Countable, KeepsExact, M.Pops;
    if i.BINOP? || i.ELEM? {
      PairExactIff(img, i, h, ops, held);
    } else if i.STA? || i.STS? {
      StoreExactIff(img, i, h, ops, held);
    } else {
      OthersExact(img, i, h, ops, held);
    }
  }

  lemma PairExactIff(img: M.Image, i: Instr, h: RHeap, ops: seq<RVal>, held: multiset<RVal>)
    requires (i.BINOP? || i.ELEM?) && PrimOwned(img, h, i, ops, held)
    ensures PrimIff(img, h, i, ops, held)
  {
    hide Exact, View, CountableBinop, CountableElem, RT.VmBinop, RT.Elem, CountedBinop, CountedElem, KeepsExact;
    assert ops == [ops[0], ops[1]];
    if i.BINOP? {
      BinopExactIff(img.lib, h, i.op, ops[0], ops[1], held);
    } else {
      ElemExactIff(h, ops[0], ops[1], held);
    }
  }

  lemma SliceStoreMeaning(img: M.Image, h: RHeap, i: Instr, ops: seq<RVal>)
    requires i.STS? && |ops| == M.Pops(img.lib, i) && M.Prim(img, i, View(h), ViewAll(h.flts, ops)).Ok?
    ensures ops == [ops[0], ops[1]] && CountedPrim(img, i, h, ops) == CountedSliceAssign(h, ops[0], ops[1])
    ensures RT.SliceAssign(View(h), ViewVal(h.flts, ops[1]), ViewVal(h.flts, ops[0])).Ok?
  {
    hide View, RT.SliceAssign, CountedSliceAssign, RT.Binop, RT.VmBinop, RT.Equal, RT.Elem, RT.SetItem, RT.SliceOf, RT.CallBuiltin, RT.Write,
      CountedSetItem, CountedBinop, CountedElem, CountedSlice, CountedBuiltin;
  }

  lemma StoreExactIff(img: M.Image, i: Instr, h: RHeap, ops: seq<RVal>, held: multiset<RVal>)
    requires (i.STA? || i.STS?) && PrimOwned(img, h, i, ops, held)
    ensures PrimIff(img, h, i, ops, held)
  {
    hide Exact, View, ViewAll, CountableSliceAssign, StoresItself, RT.SetItem, RT.SliceAssign, CountedSetItem, CountedSliceAssign, KeepsExact,
      M.Prim, CountedPrim;
    if i.STA? {
      StoreMeaning(img, h, i, ops);
      SetItemExactIff(h, ops[0], ops[1], ops[2], held);
    } else {
      SliceStoreMeaning(img, h, i, ops);
      SliceAssignExactIff(h, ops[0], ops[1], held);
    }
  }

  lemma OthersExact(img: M.Image, i: Instr, h: RHeap, ops: seq<RVal>, held: multiset<RVal>)
    requires !i.BINOP? && !i.ELEM? && !i.STA? && !i.STS? && PrimOwned(img, h, i, ops, held)
    ensures PrimIff(img, h, i, ops, held)
  {
    hide Exact, View, ViewAll, M.Prim, CountedPrim;
    PrimRefines(img, i, h, ops, held);
  }
}
