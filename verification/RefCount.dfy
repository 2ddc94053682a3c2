/** The reference-counted heap (runtime/core.c): floats are objects too, releasing the last
    reference frees an object and everything it alone kept alive. */
module RefCount {
  import opened Results
  import opened Bytecode
  import RT = Runtime

  type Value = RT.Value

  /** A stack slot or item: floats and other objects are reached through pointers. */
  datatype RVal = RInt(n: int) | RBool(b: bool) | RFlt(cell: nat) | RRef(addr: nat)

  /** A float object; count 0 means freed. */
  datatype FCell = FCell(count: nat, f: F64)

  /** Any other object. A freed cell remembers what it last showed, for specification only:
      no operation reads it. Addresses are never used again. */
  datatype Cell = Live(count: nat, body: RT.Obj<RVal>) | Freed(last: RT.Obj<Value>)

  datatype RHeap = RHeap(objs: seq<Cell>, flts: seq<FCell>)

  predicate IsPtr(v: RVal) { v.RFlt? || v.RRef? }

  /** References an object holds. */
  function Kids(o: RT.Obj<RVal>): seq<RVal> {
    match o
    case Text(items) => items
    case Tuple(items) => items
    case Slice(parent, _, _) => [RRef(parent)]
    case Variant(_, fields) => fields
    case Null => []
    case Callable(_, _) => []
  }

  /** `after` holds what `before` holds, with `gained` in the place of `lost`. */
  ghost predicate Trades(before: seq<RVal>, after: seq<RVal>, lost: RVal, gained: RVal) {
    multiset(after) + multiset{lost} == multiset(before) + multiset{gained}
  }

  function CellKids(c: Cell): seq<RVal> { if c.Live? then Kids(c.body) else [] }

  // What the heap shows: the value machine's heap

  function ViewVal(flts: seq<FCell>, v: RVal): Value {
    match v
    case RInt(n) => RT.Int(n)
    case RBool(b) => RT.Bool(b)
    case RFlt(c) => RT.Flt(if c < |flts| then flts[c].f else 0)
    case RRef(a) => RT.Ref(a)
  }

  function ViewAll(flts: seq<FCell>, vs: seq<RVal>): (r: seq<Value>)
    ensures |r| == |vs| && forall i :: 0 <= i < |vs| ==> r[i] == ViewVal(flts, vs[i])
  {
    seq(|vs|, i requires 0 <= i < |vs| => ViewVal(flts, vs[i]))
  }

  function ViewObj(flts: seq<FCell>, o: RT.Obj<RVal>): RT.Obj<Value> {
    match o
    case Null => RT.Null
    case Callable(entry, arity) => RT.Callable(entry, arity)
    case Text(items) => RT.Text(ViewAll(flts, items))
    case Tuple(items) => RT.Tuple(ViewAll(flts, items))
    case Slice(parent, from, to) => RT.Slice(parent, from, to)
    case Variant(schema, fields) => RT.Variant(schema, ViewAll(flts, fields))
  }

  function ViewCell(flts: seq<FCell>, c: Cell): RT.Obj<Value> {
    if c.Live? then ViewObj(flts, c.body) else c.last
  }

  function View(h: RHeap): (r: RT.Heap)
    ensures |r| == |h.objs| && forall a :: 0 <= a < |r| ==> r[a] == ViewCell(h.flts, h.objs[a])
  {
    seq(|h.objs|, a requires 0 <= a < |h.objs| => ViewCell(h.flts, h.objs[a]))
  }

  // Counting

  function CountOf(h: RHeap, v: RVal): nat {
    match v
    case RFlt(c) => if c < |h.flts| then h.flts[c].count else 0
    case RRef(a) => if a < |h.objs| && h.objs[a].Live? then h.objs[a].count else 0
    case _ => 0
  }

  /** Every reference held by a live object. */
  function AllKids(objs: seq<Cell>): multiset<RVal> {
    if objs == [] then multiset{} else AllKids(objs[..|objs| - 1]) + multiset(CellKids(objs[|objs| - 1]))
  }

  /** Counts are exact for the held references: each pointer is counted once for every holder
      outside the heap and once for every place in a live object. */
  ghost predicate Exact(h: RHeap, held: multiset<RVal>) {
    && (forall v: RVal :: IsPtr(v) ==> held[v] + AllKids(h.objs)[v] == CountOf(h, v))
    && (forall a :: 0 <= a < |h.objs| && h.objs[a].Live? ==> h.objs[a].count >= 1)
  }

  /** Nothing that is referred to has been freed. */
  lemma NoDangling(h: RHeap, held: multiset<RVal>, v: RVal)
    requires Exact(h, held) && IsPtr(v) && (v in held || v in AllKids(h.objs))
    ensures CountOf(h, v) >= 1
  {
  }

  lemma {:induction false} AllKidsUpdate(objs: seq<Cell>, a: nat, c: Cell)
    requires a < |objs|
    ensures AllKids(objs[a := c]) + multiset(CellKids(objs[a])) == AllKids(objs) + multiset(CellKids(c))
  {
    hide CellKids;
    var n := |objs| - 1;
    var after := objs[a := c];
    if a == n {
      assert after[..n] == objs[..n] && after[n] == c;
    } else {
      AllKidsUpdate(objs[..n], a, c);
      assert after[..n] == objs[..n][a := c] && after[n] == objs[n];
      assert AllKids(after) == AllKids(after[..n]) + multiset(CellKids(objs[n]));
      assert AllKids(objs) == AllKids(objs[..n]) + multiset(CellKids(objs[n]));
      AddBoth(AllKids(after[..n]) + multiset(CellKids(objs[a])), AllKids(after[..n]), multiset(CellKids(objs[a])),
        AllKids(objs[..n]), multiset(CellKids(c)), multiset(CellKids(objs[n])));
    }
  }

  lemma AddBoth(sum: multiset<RVal>, x: multiset<RVal>, k: multiset<RVal>, y: multiset<RVal>, l: multiset<RVal>, last: multiset<RVal>)
    requires sum == x + k == y + l
    ensures x + last + k == y + last + l
  {
    forall v ensures (x + last + k)[v] == (y + last + l)[v] { assert (x + k)[v] == (y + l)[v]; }
  }

  lemma AllKidsRecount(objs: seq<Cell>, a: nat, n: nat)
    requires a < |objs| && objs[a].Live?
    ensures AllKids(objs[a := Live(n, objs[a].body)]) == AllKids(objs)
  {
    var kids, after := multiset(CellKids(objs[a])), AllKids(objs[a := Live(n, objs[a].body)]);
    AllKidsUpdate(objs, a, Live(n, objs[a].body));
    forall v ensures after[v] == AllKids(objs)[v] { assert (after + kids)[v] == (AllKids(objs) + kids)[v]; }
  }

  lemma AllKidsAppend(objs: seq<Cell>, c: Cell)
    ensures AllKids(objs + [c]) == AllKids(objs) + multiset(CellKids(c))
  {
    assert (objs + [c])[..|objs|] == objs;
  }

  // Taking a reference

  /** `RAP_inc_ref`; counting a freed object would corrupt memory. */
  function Inc(h: RHeap, v: RVal): Result<RHeap> {
    match v
    case RFlt(c) =>
      if CountOf(h, v) == 0 then Err(Undefined)
      else Ok(h.(flts := h.flts[c := h.flts[c].(count := h.flts[c].count + 1)]))
    case RRef(a) =>
      if CountOf(h, v) == 0 then Err(Undefined)
      else Ok(h.(objs := h.objs[a := Live(h.objs[a].count + 1, h.objs[a].body)]))
    case _ => Ok(h)
  }

  function IncAll(h: RHeap, vs: seq<RVal>): Result<RHeap>
    decreases |vs|
  {
    if vs == [] then Ok(h)
    else
      var h1 :- Inc(h, vs[0]);
      IncAll(h1, vs[1..])
  }

  /** Two heaps with the same objects and contents, counts aside. */
  predicate SameShape(h: RHeap, h': RHeap) {
    && |h'.objs| == |h.objs| && |h'.flts| == |h.flts|
    && (forall c :: 0 <= c < |h.flts| ==> h'.flts[c].f == h.flts[c].f)
    && (forall a :: 0 <= a < |h.objs| ==> h'.objs[a].Live? ==> h.objs[a].Live? && h'.objs[a].body == h.objs[a].body)
  }

  lemma ViewsSame(h: RHeap, h': RHeap, o: RT.Obj<RVal>)
    requires |h'.flts| == |h.flts| && forall c :: 0 <= c < |h.flts| ==> h'.flts[c].f == h.flts[c].f
    ensures ViewObj(h'.flts, o) == ViewObj(h.flts, o)
  {
    forall v: RVal ensures ViewVal(h'.flts, v) == ViewVal(h.flts, v) { }
    assert forall vs: seq<RVal> :: ViewAll(h'.flts, vs) == ViewAll(h.flts, vs);
  }

  /** A heap that differs in the count of one object. */
  function Recount(h: RHeap, v: RVal, n: nat): RHeap
    requires IsPtr(v) && CountOf(h, v) >= 1
  {
    if v.RFlt? then h.(flts := h.flts[v.cell := FCell(n, h.flts[v.cell].f)])
    else h.(objs := h.objs[v.addr := Live(n, h.objs[v.addr].body)])
  }

  lemma RecountShows(h: RHeap, v: RVal, n: nat)
    requires IsPtr(v) && CountOf(h, v) >= 1
    ensures SameShape(h, Recount(h, v, n)) && View(Recount(h, v, n)) == View(h)
    ensures AllKids(Recount(h, v, n).objs) == AllKids(h.objs)
    ensures forall w: RVal :: IsPtr(w) ==> CountOf(Recount(h, v, n), w) == if w == v then n else CountOf(h, w)
  {
    hide AllKids;
    var h' := Recount(h, v, n);
    if v.RRef? { AllKidsRecount(h.objs, v.addr, n); }
    forall a | 0 <= a < |h.objs| ensures ViewCell(h'.flts, h'.objs[a]) == ViewCell(h.flts, h.objs[a]) {
      if h.objs[a].Live? { ViewsSame(h, h', h.objs[a].body); }
    }
  }

  lemma IncExact(h: RHeap, v: RVal, held: multiset<RVal>)
    requires Exact(h, held) && (IsPtr(v) ==> CountOf(h, v) >= 1)
    ensures Inc(h, v).Ok? && Exact(Inc(h, v).value, held + multiset{v})
    ensures SameShape(h, Inc(h, v).value) && View(Inc(h, v).value) == View(h)
  {
    hide AllKids, View;
    if IsPtr(v) {
      RecountShows(h, v, CountOf(h, v) + 1);
      assert Inc(h, v).value == Recount(h, v, CountOf(h, v) + 1);
    }
  }

  lemma {:induction false} IncAllExact(h: RHeap, vs: seq<RVal>, held: multiset<RVal>)
    requires Exact(h, held) && forall v :: v in vs && IsPtr(v) ==> CountOf(h, v) >= 1
    ensures IncAll(h, vs).Ok? && Exact(IncAll(h, vs).value, held + multiset(vs))
    ensures SameShape(h, IncAll(h, vs).value) && View(IncAll(h, vs).value) == View(h)
    decreases |vs|
  {
    hide View, AllKids;
    assert held + multiset([]) == held;
    if vs != [] {
      IncExact(h, vs[0], held);
      var h1 := Inc(h, vs[0]).value;
      forall v | v in vs[1..] && IsPtr(v) ensures CountOf(h1, v) >= 1 { assert v in vs; }
      IncAllExact(h1, vs[1..], held + multiset{vs[0]});
      assert vs == [vs[0]] + vs[1..];
      assert held + multiset{vs[0]} + multiset(vs[1..]) == held + multiset(vs);
    }
  }

  // Releasing a reference

  ghost function LiveSet(objs: seq<Cell>): set<nat> { set a: nat | a < |objs| && objs[a].Live? }

  function Free(h: RHeap, a: nat): RHeap
    requires a < |h.objs| && h.objs[a].Live?
  {
    h.(objs := h.objs[a := Freed(ViewObj(h.flts, h.objs[a].body))])
  }

  lemma FreeShrinks(h: RHeap, a: nat)
    requires a < |h.objs| && h.objs[a].Live?
    ensures LiveSet(Free(h, a).objs) < LiveSet(h.objs)
  {
    assert a in LiveSet(h.objs) && a !in LiveSet(Free(h, a).objs);
  }

  /** `RAP_dec_ref` with the cascade of `RAP_free_object`; releasing what is already freed
      is the double free of the C code. It ends because each nested free removes an object. */
  function Dec(h: RHeap, v: RVal): (r: Result<RHeap>)
    ensures r.Ok? ==> LiveSet(r.value.objs) <= LiveSet(h.objs)
    decreases LiveSet(h.objs), 0
  {
    match v
    case RFlt(c) =>
      if CountOf(h, v) == 0 then Err(Undefined)
      else Ok(h.(flts := h.flts[c := h.flts[c].(count := h.flts[c].count - 1)]))
    case RRef(a) =>
      if CountOf(h, v) == 0 then Err(Undefined)
      else if h.objs[a].count > 1 then Ok(h.(objs := h.objs[a := Live(h.objs[a].count - 1, h.objs[a].body)]))
      else
        FreeShrinks(h, a);
        DecAll(Free(h, a), Kids(h.objs[a].body))
    case _ => Ok(h)
  }

  function DecAll(h: RHeap, vs: seq<RVal>): (r: Result<RHeap>)
    ensures r.Ok? ==> LiveSet(r.value.objs) <= LiveSet(h.objs)
    decreases LiveSet(h.objs), 1 + |vs|
  {
    if vs == [] then Ok(h)
    else
      var h1 :- Dec(h, vs[0]);
      DecAll(h1, vs[1..])
  }

  lemma FreeExact(h: RHeap, a: nat, held: multiset<RVal>)
    requires Exact(h, held + multiset{RRef(a)}) && CountOf(h, RRef(a)) == 1
    ensures Exact(Free(h, a), held + multiset(Kids(h.objs[a].body)))
    ensures SameShape(h, Free(h, a)) && View(Free(h, a)) == View(h)
  {
    hide AllKids;
    var h', kids := Free(h, a), multiset(Kids(h.objs[a].body));
    AllKidsUpdate(h.objs, a, h'.objs[a]);
    assert AllKids(h'.objs) + kids == AllKids(h.objs);
    forall v: RVal | IsPtr(v) ensures (held + kids)[v] + AllKids(h'.objs)[v] == CountOf(h', v) {
      assert (AllKids(h'.objs) + kids)[v] == AllKids(h.objs)[v];
    }
  }

  /** Releasing a held reference keeps every count exact, through any cascade; nothing still
      referred to is freed and what the heap shows does not change. */
  lemma {:induction false} DecExact(h: RHeap, v: RVal, held: multiset<RVal>)
    requires Exact(h, held + multiset{v})
    ensures Dec(h, v).Ok? && Exact(Dec(h, v).value, held)
    ensures SameShape(h, Dec(h, v).value) && View(Dec(h, v).value) == View(h)
    decreases LiveSet(h.objs), 0
  {
    hide AllKids, View;
    assert (held + multiset{v})[v] >= 1;
    if v.RRef? && CountOf(h, v) == 1 {
      FreeExact(h, v.addr, held);
      FreeShrinks(h, v.addr);
      DecAllExact(Free(h, v.addr), Kids(h.objs[v.addr].body), held);
    } else if IsPtr(v) {
      RecountShows(h, v, CountOf(h, v) - 1);
      assert Dec(h, v).value == Recount(h, v, CountOf(h, v) - 1);
    }
  }

  lemma {:induction false} DecAllExact(h: RHeap, vs: seq<RVal>, held: multiset<RVal>)
    requires Exact(h, held + multiset(vs))
    ensures DecAll(h, vs).Ok? && Exact(DecAll(h, vs).value, held)
    ensures SameShape(h, DecAll(h, vs).value) && View(DecAll(h, vs).value) == View(h)
    decreases LiveSet(h.objs), 1 + |vs|
  {
    if vs == [] {
      assert held + multiset(vs) == held;
    } else {
      assert vs == [vs[0]] + vs[1..];
      assert held + multiset(vs) == held + multiset(vs[1..]) + multiset{vs[0]};
      DecExact(h, vs[0], held + multiset(vs[1..]));
      DecAllExact(Dec(h, vs[0]).value, vs[1..], held);
    }
  }

  /** Conversely, counts that are exact after a release were exact before it. */
  lemma {:induction false} DecInexact(h: RHeap, v: RVal, held: multiset<RVal>)
    requires Dec(h, v).Ok? && Exact(Dec(h, v).value, held)
    ensures Exact(h, held + multiset{v})
    decreases LiveSet(h.objs), 0
  {
    hide AllKids, View;
    if v.RRef? && CountOf(h, v) == 1 {
      FreeShrinks(h, v.addr);
      DecAllInexact(Free(h, v.addr), Kids(h.objs[v.addr].body), held);
      FreeInexact(h, v.addr, held);
    } else if IsPtr(v) {
      RecountShows(h, v, CountOf(h, v) - 1);
      assert Dec(h, v).value == Recount(h, v, CountOf(h, v) - 1);
    }
  }

  lemma {:induction false} DecAllInexact(h: RHeap, vs: seq<RVal>, held: multiset<RVal>)
    requires DecAll(h, vs).Ok? && Exact(DecAll(h, vs).value, held)
    ensures Exact(h, held + multiset(vs))
    decreases LiveSet(h.objs), 1 + |vs|
  {
    if vs == [] {
      assert held + multiset(vs) == held;
    } else {
      assert vs == [vs[0]] + vs[1..];
      assert held + multiset(vs) == held + multiset(vs[1..]) + multiset{vs[0]};
      DecAllInexact(Dec(h, vs[0]).value, vs[1..], held);
      DecInexact(h, vs[0], held + multiset(vs[1..]));
    }
  }

  lemma FreeInexact(h: RHeap, a: nat, held: multiset<RVal>)
    requires CountOf(h, RRef(a)) == 1 && Exact(Free(h, a), held + multiset(Kids(h.objs[a].body)))
    ensures Exact(h, held + multiset{RRef(a)})
  {
    hide AllKids;
    var h', kids := Free(h, a), multiset(Kids(h.objs[a].body));
    AllKidsUpdate(h.objs, a, h'.objs[a]);
    assert AllKids(h'.objs) + kids == AllKids(h.objs);
    forall v: RVal | IsPtr(v) ensures (held + multiset{RRef(a)})[v] + AllKids(h.objs)[v] == CountOf(h, v) {
      assert (held + kids)[v] + AllKids(h'.objs)[v] == CountOf(h', v);
      assert (AllKids(h'.objs) + kids)[v] == AllKids(h.objs)[v];
    }
    forall b | 0 <= b < |h.objs| && h.objs[b].Live? ensures h.objs[b].count >= 1 {
      assert b != a ==> h'.objs[b] == h.objs[b];
    }
  }

  // New objects

  function AllocObj(h: RHeap, o: RT.Obj<RVal>): (RVal, RHeap) { (RRef(|h.objs|), h.(objs := h.objs + [Live(1, o)])) }

  function AllocFlt(h: RHeap, f: F64): (RVal, RHeap) { (RFlt(|h.flts|), h.(flts := h.flts + [FCell(1, f)])) }

  /** Every float that is visible keeps its value; new cells may be added. */
  predicate FloatsKept(h: RHeap, h': RHeap) {
    |h.flts| <= |h'.flts| && forall c :: 0 <= c < |h.flts| ==> h'.flts[c].f == h.flts[c].f
  }

  predicate Known(h: RHeap, vs: seq<RVal>) { forall v :: v in vs && v.RFlt? ==> v.cell < |h.flts| }

  /** What is held, or kept by a live object, is in range. */
  lemma ExactKnown(h: RHeap, held: multiset<RVal>)
    requires Exact(h, held)
    ensures forall v: RVal :: v in held && v.RFlt? ==> v.cell < |h.flts|
    ensures forall v: RVal :: v in held && v.RRef? ==> v.addr < |h.objs|
    ensures forall a :: 0 <= a < |h.objs| && h.objs[a].Live? ==> Known(h, Kids(h.objs[a].body))
  {
    forall a, v: RVal | 0 <= a < |h.objs| && h.objs[a].Live? && v in Kids(h.objs[a].body) && v.RFlt?
      ensures v.cell < |h.flts|
    {
      KidCounted(h.objs, a, v);
      assert CountOf(h, v) >= 1;
    }
    forall v: RVal | v in held && IsPtr(v) ensures CountOf(h, v) >= 1 { }
  }

  lemma {:induction false} KidCounted(objs: seq<Cell>, a: nat, v: RVal)
    requires a < |objs| && v in CellKids(objs[a])
    ensures AllKids(objs)[v] >= 1
  {
    var n := |objs| - 1;
    if a < n {
      assert objs[..n][a] == objs[a];
      KidCounted(objs[..n], a, v);
    }
  }

  lemma ViewKept(h: RHeap, h': RHeap, vs: seq<RVal>)
    requires FloatsKept(h, h') && Known(h, vs)
    ensures ViewAll(h'.flts, vs) == ViewAll(h.flts, vs)
  {
    forall i | 0 <= i < |vs| ensures ViewVal(h'.flts, vs[i]) == ViewVal(h.flts, vs[i]) { assert vs[i] in vs; }
  }

  lemma ViewObjKept(h: RHeap, h': RHeap, o: RT.Obj<RVal>)
    requires FloatsKept(h, h') && Known(h, Kids(o))
    ensures ViewObj(h'.flts, o) == ViewObj(h.flts, o)
  {
    ViewKept(h, h', Kids(o));
  }

  /** A new object takes over the references it is made of. */
  lemma AllocExact(h: RHeap, o: RT.Obj<RVal>, held: multiset<RVal>)
    requires Exact(h, held + multiset(Kids(o)))
    ensures var (v, h') := AllocObj(h, o); Exact(h', held + multiset{v}) && View(h') == View(h) + [ViewObj(h.flts, o)]
  {
    hide AllKids;
    var (v, h') := AllocObj(h, o);
    AllKidsAppend(h.objs, Live(1, o));
    assert CountOf(h, v) == 0;
    assert (held + multiset(Kids(o)))[v] == 0;
    forall w: RVal | IsPtr(w) ensures (held + multiset{v})[w] + AllKids(h'.objs)[w] == CountOf(h', w) {
      assert (held + multiset(Kids(o)))[w] + AllKids(h.objs)[w] == CountOf(h, w);
    }
  }

  /** And only then are the counts exact. */
  lemma AllocInexact(h: RHeap, o: RT.Obj<RVal>, held: multiset<RVal>)
    requires var (v, h') := AllocObj(h, o); Exact(h', held + multiset{v})
    ensures Exact(h, held + multiset(Kids(o)))
  {
    hide AllKids;
    var (v, h') := AllocObj(h, o);
    AllKidsAppend(h.objs, Live(1, o));
    forall w: RVal | IsPtr(w) ensures (held + multiset(Kids(o)))[w] + AllKids(h.objs)[w] == CountOf(h, w) {
      assert (held + multiset{v})[w] + AllKids(h'.objs)[w] == CountOf(h', w);
    }
    forall a | 0 <= a < |h.objs| && h.objs[a].Live? ensures h.objs[a].count >= 1 { assert h'.objs[a] == h.objs[a]; }
  }

  lemma AllocFltExact(h: RHeap, f: F64, held: multiset<RVal>)
    requires Exact(h, held)
    ensures var (v, h') := AllocFlt(h, f);
      Exact(h', held + multiset{v}) && View(h') == View(h) && FloatsKept(h, h') && ViewVal(h'.flts, v) == RT.Flt(f)
  {
    var (v, h') := AllocFlt(h, f);
    ExactKnown(h, held);
    assert CountOf(h, v) == 0;
    forall a | 0 <= a < |h.objs| ensures ViewCell(h'.flts, h'.objs[a]) == ViewCell(h.flts, h.objs[a]) {
      if h.objs[a].Live? { ViewObjKept(h, h', h.objs[a].body); }
    }
  }

  /** Replacing what an object holds: it takes over the new references and gives the old
      ones up. */
  function Rebody(h: RHeap, a: nat, o: RT.Obj<RVal>): RHeap
    requires a < |h.objs| && h.objs[a].Live?
  {
    h.(objs := h.objs[a := Live(h.objs[a].count, o)])
  }

  lemma RebodyExact(h: RHeap, a: nat, o: RT.Obj<RVal>, held: multiset<RVal>, gained: multiset<RVal>, lost: multiset<RVal>)
    requires a < |h.objs| && h.objs[a].Live? && Exact(h, held + gained)
    requires multiset(Kids(o)) + lost == multiset(Kids(h.objs[a].body)) + gained
    ensures Exact(Rebody(h, a, o), held + lost)
    ensures View(Rebody(h, a, o)) == View(h)[a := ViewObj(h.flts, o)]
  {
    hide AllKids;
    var h', old_, new_ := Rebody(h, a, o), multiset(Kids(h.objs[a].body)), multiset(Kids(o));
    AllKidsUpdate(h.objs, a, h'.objs[a]);
    forall v: RVal | IsPtr(v) ensures (held + lost)[v] + AllKids(h'.objs)[v] == CountOf(h', v) {
      assert (AllKids(h'.objs) + old_)[v] == (AllKids(h.objs) + new_)[v];
      assert (new_ + lost)[v] == (old_ + gained)[v];
      assert (held + gained)[v] + AllKids(h.objs)[v] == CountOf(h, v);
    }
  }

  lemma RebodyShows(h: RHeap, a: nat, o: RT.Obj<RVal>)
    requires a < |h.objs| && h.objs[a].Live?
    ensures View(Rebody(h, a, o)) == View(h)[a := ViewObj(h.flts, o)]
  {
  }

  /** The same references, numbers aside. */
  ghost predicate SamePtrs(a: multiset<RVal>, b: multiset<RVal>) { forall v: RVal :: IsPtr(v) ==> a[v] == b[v] }

  /** Exact counts determine what is held. */
  lemma ExactHolds(h: RHeap, a: multiset<RVal>, b: multiset<RVal>)
    requires Exact(h, a)
    ensures Exact(h, b) <==> SamePtrs(a, b)
  {
    if Exact(h, b) {
      forall v: RVal | IsPtr(v) ensures a[v] == b[v] {
        assert a[v] + AllKids(h.objs)[v] == CountOf(h, v) && b[v] + AllKids(h.objs)[v] == CountOf(h, v);
      }
    }
  }

  /** A changed body with unchanged counts: what was gained must be what was lost. */
  lemma CountShift(h: RHeap, a: nat, o: RT.Obj<RVal>, held: multiset<RVal>, gained: multiset<RVal>, lost: multiset<RVal>)
    requires Exact(h, held) && a < |h.objs| && h.objs[a].Live?
    requires multiset(Kids(o)) + lost == multiset(Kids(h.objs[a].body)) + gained
    ensures Exact(Rebody(h, a, o), held) <==> SamePtrs(gained, lost)
  {
    hide AllKids;
    var h', old_, new_ := Rebody(h, a, o), multiset(Kids(h.objs[a].body)), multiset(Kids(o));
    AllKidsUpdate(h.objs, a, h'.objs[a]);
    forall v: RVal | IsPtr(v)
      ensures CountOf(h', v) == CountOf(h, v) && AllKids(h'.objs)[v] + lost[v] == AllKids(h.objs)[v] + gained[v]
    {
      assert (AllKids(h'.objs) + old_)[v] == (AllKids(h.objs) + new_)[v];
      assert (new_ + lost)[v] == (old_ + gained)[v];
    }
    if Exact(h', held) {
      forall v: RVal | IsPtr(v) ensures gained[v] == lost[v] {
        assert held[v] + AllKids(h'.objs)[v] == CountOf(h', v) && held[v] + AllKids(h.objs)[v] == CountOf(h, v);
      }
    }
    if SamePtrs(gained, lost) {
      forall v: RVal | IsPtr(v) ensures held[v] + AllKids(h'.objs)[v] == CountOf(h', v) {
        assert gained[v] == lost[v] && held[v] + AllKids(h.objs)[v] == CountOf(h, v);
      }
    }
  }

  /** Releasing references does not look into an object that survives it. */
  lemma {:induction false} DecAround(h: RHeap, v: RVal, a: nat, o: RT.Obj<RVal>)
    requires a < |h.objs| && h.objs[a].Live? && Dec(h, v).Ok? && a in LiveSet(Dec(h, v).value.objs)
    ensures Dec(Rebody(h, a, o), v) == Ok(Rebody(Dec(h, v).value, a, o))
    decreases LiveSet(h.objs), 0
  {
    hide View;
    if v.RRef? && CountOf(h, v) == 1 {
      FreeShrinks(h, v.addr);
      var h1, kids := Free(h, v.addr), Kids(h.objs[v.addr].body);
      assert a in LiveSet(h1.objs);
      DecAllAround(h1, kids, a, o);
      assert Free(Rebody(h, a, o), v.addr) == Rebody(h1, a, o);
    } else if v.RRef? {
      assert Dec(Rebody(h, a, o), v).value.objs == Rebody(Dec(h, v).value, a, o).objs;
    }
  }

  lemma {:induction false} DecAllAround(h: RHeap, vs: seq<RVal>, a: nat, o: RT.Obj<RVal>)
    requires a < |h.objs| && h.objs[a].Live? && DecAll(h, vs).Ok? && a in LiveSet(DecAll(h, vs).value.objs)
    ensures DecAll(Rebody(h, a, o), vs) == Ok(Rebody(DecAll(h, vs).value, a, o))
    decreases LiveSet(h.objs), 1 + |vs|
  {
    if vs != [] {
      var h1 := Dec(h, vs[0]).value;
      assert a in LiveSet(h1.objs);
      DecAround(h, vs[0], a, o);
      DecAllAround(h1, vs[1..], a, o);
    }
  }

  // Floats in place

  /** Result of float `+`, `-`, `*`: a uniquely owned operand is overwritten, else a new
      float is made; both operands are consumed. */
  function ConsumeFloats(h: RHeap, left: RVal, right: RVal, f: F64): Result<(RVal, RHeap)>
    requires left.RFlt? && right.RFlt?
  {
    if CountOf(h, left) == 1 then
      var h1 :- Dec(h.(flts := h.flts[left.cell := FCell(1, f)]), right);
      Ok((left, h1))
    else if CountOf(h, right) == 1 then
      var h1 :- Dec(h.(flts := h.flts[right.cell := FCell(1, f)]), left);
      Ok((right, h1))
    else AlwaysAllocate(h, left, right, f)
  }

  function AlwaysAllocate(h: RHeap, left: RVal, right: RVal, f: F64): Result<(RVal, RHeap)> {
    var h1 :- DecAll(h, [right, left]);
    Ok(AllocFlt(h1, f))
  }

  /** The pair of owned operands became one owned float; everything else that is held shows
      the same value, and so does the whole heap. */
  ghost predicate FloatMade(h: RHeap, held: multiset<RVal>, f: F64, r: Result<(RVal, RHeap)>) {
    && r.Ok?
    && Exact(r.value.1, held + multiset{r.value.0})
    && ViewVal(r.value.1.flts, r.value.0) == RT.Flt(f) && CountOf(r.value.1, r.value.0) == 1
    && View(r.value.1) == View(h)
    && (forall v: RVal :: v in held ==> ViewVal(r.value.1.flts, v) == ViewVal(h.flts, v))
  }

  lemma AlwaysAllocateMakes(h: RHeap, left: RVal, right: RVal, f: F64, held: multiset<RVal>)
    requires left.RFlt? && right.RFlt? && Exact(h, held + multiset{left, right})
    ensures FloatMade(h, held, f, AlwaysAllocate(h, left, right, f))
  {
    hide Exact, AllKids, View, DecAll;
    assert multiset([right, left]) == multiset{left, right};
    DecAllExact(h, [right, left], held);
    var h1 := DecAll(h, [right, left]).value;
    AllocFltExact(h1, f, held);
    ExactKnown(h1, held);
  }

  /** Overwriting a float nobody else refers to is invisible. */
  lemma OverwriteExact(h: RHeap, v: RVal, f: F64, held: multiset<RVal>)
    requires v.RFlt? && Exact(h, held + multiset{v}) && CountOf(h, v) == 1
    ensures var h' := h.(flts := h.flts[v.cell := FCell(1, f)]);
      Exact(h', held + multiset{v}) && View(h') == View(h) && v !in held
      && AllKids(h'.objs)[v] == 0 && CountOf(h', v) == 1
      && forall w: RVal :: w != v ==> ViewVal(h'.flts, w) == ViewVal(h.flts, w)
  {
    var h' := h.(flts := h.flts[v.cell := FCell(1, f)]);
    assert (held + multiset{v})[v] + AllKids(h.objs)[v] == 1;
    forall a | 0 <= a < |h.objs| && h.objs[a].Live? ensures ViewObj(h'.flts, h.objs[a].body) == ViewObj(h.flts, h.objs[a].body) {
      var kids := Kids(h.objs[a].body);
      if v in kids {
        KidCounted(h.objs, a, v);
      }
      assert ViewAll(h'.flts, kids) == ViewAll(h.flts, kids);
    }
  }

  /** In-place reuse is unobservable, whatever the operands' counts, also when both are the
      same object: it leaves what always allocating leaves. */
  lemma ReuseUnobservable(h: RHeap, left: RVal, right: RVal, f: F64, held: multiset<RVal>)
    requires left.RFlt? && right.RFlt? && Exact(h, held + multiset{left, right})
    ensures FloatMade(h, held, f, ConsumeFloats(h, left, right, f))
    ensures FloatMade(h, held, f, AlwaysAllocate(h, left, right, f))
  {
    AlwaysAllocateMakes(h, left, right, f, held);
    if CountOf(h, left) == 1 {
      ReuseOne(h, left, right, f, held);
    } else if CountOf(h, right) == 1 {
      assert multiset{left, right} == multiset{right, left};
      ReuseOne(h, right, left, f, held);
    }
  }

  lemma ReuseOne(h: RHeap, kept: RVal, dropped: RVal, f: F64, held: multiset<RVal>)
    requires kept.RFlt? && dropped.RFlt? && Exact(h, held + multiset{kept, dropped}) && CountOf(h, kept) == 1
    ensures var r := Dec(h.(flts := h.flts[kept.cell := FCell(1, f)]), dropped);
      r.Ok? && FloatMade(h, held, f, Ok((kept, r.value)))
  {
    hide AllKids, View;
    var h1 := h.(flts := h.flts[kept.cell := FCell(1, f)]);
    var both := held + multiset{kept, dropped};
    assert both == held + multiset{dropped} + multiset{kept} == held + multiset{kept} + multiset{dropped};
    assert both[kept] == 1 by { assert both[kept] + AllKids(h.objs)[kept] == 1 && kept in both; }
    OverwriteExact(h, kept, f, held + multiset{dropped});
    assert kept != dropped && kept !in held;
    DecExact(h1, dropped, held + multiset{kept});
    var h2 := Dec(h1, dropped).value;
    UniqueCount(h, h1, h2, kept, held, f);
  }

  /** The reused float is still counted once. */
  lemma UniqueCount(h: RHeap, h1: RHeap, h2: RHeap, kept: RVal, held: multiset<RVal>, f: F64)
    requires kept.RFlt? && CountOf(h1, kept) == 1 && kept !in held && Exact(h2, held + multiset{kept})
    requires AllKids(h1.objs)[kept] == 0 && SameShape(h1, h2)
    ensures CountOf(h2, kept) == 1
  {
    if kept in AllKids(h2.objs) {
      Holder(h2.objs, kept);
      var a: nat :| Holds(h2.objs, a, kept);
      KidCounted(h1.objs, a, kept);
    }
    assert (held + multiset{kept})[kept] == 1;
  }

  // Leaks

  /** `b` is held by the live object `a`. */
  predicate Holds(objs: seq<Cell>, a: nat, b: RVal) { a < |objs| && b in CellKids(objs[a]) }

  lemma {:induction false} Holder(objs: seq<Cell>, v: RVal)
    requires v in AllKids(objs)
    ensures exists a: nat :: Holds(objs, a, v)
  {
    var n := |objs| - 1;
    if v in CellKids(objs[n]) {
      assert Holds(objs, n, v);
    } else {
      Holder(objs[..n], v);
      var a: nat :| Holds(objs[..n], a, v);
      assert Holds(objs, a, v);
    }
  }

  /** A chain of live objects, each holding the next, the last one holding `v`. */
  predicate Chain(objs: seq<Cell>, path: seq<nat>, v: RVal) {
    && path != [] && Holds(objs, path[|path| - 1], v)
    && forall i :: 0 <= i < |path| - 1 ==> Holds(objs, path[i], RRef(path[i + 1]))
  }

  lemma {:induction false} ChainsGrow(h: RHeap, v: RVal, n: nat) returns (path: seq<nat>)
    requires Exact(h, multiset{}) && CountOf(h, v) >= 1
    ensures |path| == n + 1 && Chain(h.objs, path, v)
  {
    if n == 0 {
      assert v in AllKids(h.objs);
      Holder(h.objs, v);
      var a: nat :| Holds(h.objs, a, v);
      path := [a];
    } else {
      var rest := ChainsGrow(h, v, n - 1);
      assert h.objs[rest[0]].Live? by {
        if n - 1 == 0 { assert Holds(h.objs, rest[0], v); } else { assert Holds(h.objs, rest[0], RRef(rest[1])); }
      }
      var first := RRef(rest[0]);
      assert CountOf(h, first) >= 1;
      assert first in AllKids(h.objs);
      Holder(h.objs, first);
      var a: nat :| Holds(h.objs, a, first);
      path := [a] + rest;
      assert forall i :: 0 < i < |path| ==> path[i] == rest[i - 1];
    }
  }

  /** More entries than values: some value comes twice. */
  lemma {:induction false} Pigeonhole(path: seq<nat>, n: nat) returns (i: nat, j: nat)
    requires |path| > n && forall k :: 0 <= k < |path| ==> path[k] < n
    ensures i < j < |path| && path[i] == path[j]
    decreases n
  {
    var last := |path| - 1;
    if k :| 0 <= k < last && path[k] == path[last] {
      return k, last;
    }
    var others := seq(last, k requires 0 <= k < last => if path[k] == n - 1 then path[last] else path[k]);
    i, j := Pigeonhole(others, n - 1);
  }

  /** Once nothing is held from outside, an object that is still alive hangs off a cycle of
      references. */
  lemma SurvivorsHangOffCycles(h: RHeap, v: RVal) returns (path: seq<nat>, i: nat, j: nat)
    requires Exact(h, multiset{}) && CountOf(h, v) >= 1
    ensures Chain(h.objs, path, v) && i < j < |path| && path[i] == path[j]
  {
    path := ChainsGrow(h, v, |h.objs|);
    assert forall k :: 0 <= k < |path| ==> path[k] < |h.objs| by {
      forall k | 0 <= k < |path| ensures path[k] < |h.objs| {
        if k < |path| - 1 { assert Holds(h.objs, path[k], RRef(path[k + 1])); }
      }
    }
    i, j := Pigeonhole(path, |h.objs|);
  }

  /** Every live object ranks above those it holds. */
  ghost predicate Acyclic(h: RHeap, rank: nat -> nat) {
    forall a: nat, b: nat :: Holds(h.objs, a, RRef(b)) ==> rank(a) > rank(b)
  }

  lemma {:induction false} RanksFall(objs: seq<Cell>, path: seq<nat>, v: RVal, rank: nat -> nat, i: nat, j: nat)
    requires Chain(objs, path, v) && i < j < |path|
    requires forall a: nat, b: nat :: Holds(objs, a, RRef(b)) ==> rank(a) > rank(b)
    ensures rank(path[i]) > rank(path[j])
    decreases j
  {
    assert Holds(objs, path[j - 1], RRef(path[j]));
    if i < j - 1 { RanksFall(objs, path, v, rank, i, j - 1); }
  }

  /** An acyclic heap ends empty: every object has been freed. */
  lemma NothingLeaks(h: RHeap, rank: nat -> nat, v: RVal)
    requires Exact(h, multiset{}) && Acyclic(h, rank)
    ensures CountOf(h, v) == 0
  {
    if CountOf(h, v) >= 1 {
      var path, i, j := SurvivorsHangOffCycles(h, v);
      RanksFall(h.objs, path, v, rank, i, j);
    }
  }
}
