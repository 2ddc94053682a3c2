/** Slices as views onto a text or tuple, and the array loops that copy and splice items
    (runtime/tuple.c, runtime/arithmetic.c). */
module Slices {
  import opened Results
  import opened Runtime

  /** A slice that shows existing items of a text or tuple. */
  predicate Shows(h: Heap, v: Value) {
    && IsSlice(h, v) && ItemsOf(h, h[v.addr].parent).Ok?
    && 0 <= h[v.addr].from <= h[v.addr].to <= |ItemsOf(h, h[v.addr].parent).value|
  }

  /** A text or tuple. */
  predicate Holds(h: Heap, v: Value) { IsText(h, v) || IsTuple(h, v) }

  function View(h: Heap, v: Value): (items: seq<Value>)
    requires Shows(h, v) || Holds(h, v)
  {
    Materialize(h, v.addr).value.items
  }

  /** Clamping yields a range of the items exactly when the upper bound asked for is not
      negative; and then a proper range is cut to the items there are, while an empty one
      becomes the one item at its end, or nothing behind the last item. */
  lemma ClampedIff(from: int, to: int, count: nat)
    ensures var (lo, hi) := ClampBounds(from, to, count); 0 <= lo <= hi <= count <==> to >= 0
    ensures to >= 0 ==>
      var f, t := if from < 0 then 0 else from, if to > count then count else to;
      ClampBounds(from, to, count) == (if f < t then (f, t) else if t < count then (t, t + 1) else (count, count))
  {
  }

  /** `k[a:b]` of a text or tuple shows the items from a up to b, and is of the same kind. */
  lemma SliceShows(h: Heap, c: Value, a: nat, b: nat)
    requires Holds(h, c) && a < b <= |h[c.addr].items|
    ensures var (s, h') := SliceOf(h, c, Some(Int(a)), Some(Int(b))).value;
      && Shows(h', s) && h'[s.addr].parent == c.addr && View(h', s) == h[c.addr].items[a..b]
      && (Materialize(h', s.addr).value.Text? <==> IsText(h, c))
  {
    assert (h + [Slice(c.addr, a, b)])[c.addr] == h[c.addr];
  }

  /** The bounds a and b of a slice of a slice ask for no root item behind the first slice: it
      holds `len` of the items, from `from` up, of a root that has `count`. */
  predicate Inside(from: nat, len: nat, count: nat, a: nat, b: nat) {
    if a < b then b <= len || from + (if a < len then len else a) >= count else b < len || from + b >= count
  }

  /** A slice of a slice refers to the root. For all bounds it shows what the same slice of a
      copy shows exactly when it asks for no root item behind the first slice; otherwise it
      shows root items that the first slice does not. */
  lemma SliceOfSlice(h: Heap, c: Value, copy: Value, a: nat, b: nat)
    requires Shows(h, c) && Holds(h, copy) && h[copy.addr] == Materialize(h, c.addr).value
    ensures var (s, h') := SliceOf(h, c, Some(Int(a)), Some(Int(b))).value;
      var (t, h'') := SliceOf(h, copy, Some(Int(a)), Some(Int(b))).value;
      && Shows(h', s) && h'[s.addr].parent == h[c.addr].parent && Shows(h'', t)
      && (Materialize(h', s.addr) == Materialize(h'', t.addr) <==>
          Inside(h[c.addr].from, |View(h, c)|, |ItemsOf(h, h[c.addr].parent).value|, a, b))
  {
    hide Inside, ClampBounds, Materialize;
    var root, from, to := h[c.addr].parent, h[c.addr].from, h[c.addr].to;
    var items := ItemsOf(h, root).value;
    Copies(h, c);
    var (lo, hi) := ClampBounds(from + a, from + b, |items|);
    var (lo', hi') := ClampBounds(a, b, to - from);
    RangesIff(items, from, to, a, b);
    Made(h, root, lo, hi);
    Made(h, copy.addr, lo', hi');
    assert SliceOf(h, c, Some(Int(a)), Some(Int(b))).value == (Ref(|h|), h + [Slice(root, lo, hi)]);
    assert SliceOf(h, copy, Some(Int(a)), Some(Int(b))).value == (Ref(|h|), h + [Slice(copy.addr, lo', hi')]);
  }

  lemma Copies(h: Heap, c: Value)
    requires Shows(h, c)
    ensures var p, from, to := h[c.addr].parent, h[c.addr].from, h[c.addr].to;
      Materialize(h, c.addr) == Ok(WithItems(h[p], h[p].items[from..to]))
  {
    var from, to := h[c.addr].from, h[c.addr].to;
    if from == to { assert h[h[c.addr].parent].items[from..to] == []; }
  }

  /** A new slice of a text or tuple. */
  lemma Made(h: Heap, p: nat, lo: nat, hi: nat)
    requires Holds(h, Ref(p)) && lo <= hi <= |h[p].items|
    ensures var h' := h + [Slice(p, lo, hi)];
      Shows(h', Ref(|h|)) && Materialize(h', |h|) == Ok(WithItems(h[p], h[p].items[lo..hi]))
  {
    Copies(h + [Slice(p, lo, hi)], Ref(|h|));
  }

  /** The range a slice of a slice takes from the root, and the one it takes from the copy. */
  lemma RangesIff(items: seq<Value>, from: nat, to: nat, a: nat, b: nat)
    requires from <= to <= |items|
    ensures var (lo, hi) := ClampBounds(from + a, from + b, |items|);
      var (lo', hi') := ClampBounds(a, b, to - from);
      && 0 <= lo <= hi <= |items| && 0 <= lo' <= hi' <= to - from
      && (items[lo..hi] == items[from..to][lo'..hi'] <==> Inside(from, to - from, |items|, a, b))
  {
    var (lo, hi) := ClampBounds(from + a, from + b, |items|);
    var (lo', hi') := ClampBounds(a, b, to - from);
    SubSlice(items, from, to, lo', hi');
    if Inside(from, to - from, |items|, a, b) {
      assert (lo == hi && lo' == hi') || (lo == from + lo' && hi == from + hi');
    } else {
      assert hi - lo != hi' - lo';
      assert |items[lo..hi]| == hi - lo && |items[from..to][lo'..hi']| == hi' - lo';
    }
  }

  /** Looking an item up through a slice is looking it up in a copy, for every index, errors
      included. */
  lemma ElemThroughSlice(h: Heap, c: Value, copy: Value, i: Value)
    requires Shows(h, c) && Holds(h, copy) && h[copy.addr] == Materialize(h, c.addr).value
    ensures Elem(h, c, i) == Elem(h, copy, i) && Length(h, c) == Length(h, copy)
  {
    var items := ItemsOf(h, h[c.addr].parent).value;
    assert View(h, c) == items[h[c.addr].from..h[c.addr].to];
  }

  // ---------------------------------------------------------------- assignment

  /** Assigning an item has a meaning just on a text or tuple and at one of its indices. On a
      slice it has none, at any index, although the item can be read there: the code stores
      through the slice's own fields. */
  lemma ItemAssignmentDefinedIff(h: Heap, c: Value, i: Value, x: Value)
    ensures SetItem(h, c, i, x).Ok? <==> Unbox(i).Ok? && Holds(h, c) && 0 <= Unbox(i).value < |h[c.addr].items|
    ensures Shows(h, c) && Unbox(i).Ok? && 0 <= Unbox(i).value < |View(h, c)| ==>
      Elem(h, c, i).Ok? && SetItem(h, c, i, x) == Err(Undefined)
  {
  }

  /** After `k[a:b] = x` the parent reads as before up to a, then as x, then as before from b
      on; nothing else on the heap has changed. */
  lemma AssignedReads(h: Heap, s: Value, x: Value)
    requires Shows(h, s) && (Shows(h, x) || Holds(h, x))
    ensures SliceAssign(h, s, x).Ok?
    ensures var (p, a, b) := (h[s.addr].parent, h[s.addr].from, h[s.addr].to);
      var (before, after, put) := (h[p].items, SliceAssign(h, s, x).value, View(h, x));
      && |after| == |h| && (forall r :: 0 <= r < |h| && r != p ==> after[r] == h[r])
      && Holds(after, Ref(p)) && (after[p].Text? <==> h[p].Text?)
      && |after[p].items| == |before| - (b - a) + |put|
      && forall i :: 0 <= i < |after[p].items| ==>
           after[p].items[i] == if i < a then before[i] else if i < a + |put| then put[i - a] else before[i - |put| + (b - a)]
  {
  }

  /** What was put through a slice is what the slice's place then shows. */
  lemma PutGet(h: Heap, s: Value, x: Value)
    requires Shows(h, s) && (Shows(h, x) || Holds(h, x)) && |View(h, x)| > 0
    ensures SliceAssign(h, s, x).Ok?
    ensures var (h', a) := (SliceAssign(h, s, x).value, h[s.addr].from);
      var (t, h'') := SliceOf(h', Ref(h[s.addr].parent), Some(Int(a)), Some(Int(a + |View(h, x)|))).value;
      View(h'', t) == View(h, x)
  {
    AssignedReads(h, s, x);
    var h', a := SliceAssign(h, s, x).value, h[s.addr].from;
    SliceShows(h', Ref(h[s.addr].parent), a, a + |View(h, x)|);
  }

  /** Putting back what a slice shows, the slice itself or a copy, changes nothing. */
  lemma GetPut(h: Heap, s: Value, x: Value)
    requires Shows(h, s) && (Shows(h, x) || Holds(h, x)) && View(h, x) == View(h, s)
    ensures SliceAssign(h, s, x) == Ok(h)
  {
    var p := h[s.addr].parent;
    var (a, b) := (h[s.addr].from, h[s.addr].to);
    assert View(h, s) == h[p].items[a..b];
    assert h[p].items[..a] + h[p].items[a..b] + h[p].items[b..] == h[p].items;
    assert SliceAssign(h, s, x).value == h;
  }

  // ---------------------------------------------------------------- the loops

  /** `struct RAP_Tuple`: an item array that is replaced as a whole when its size changes. */
  class Items {
    var items: array<Value>

    ghost function Contents(): seq<Value>
      reads this, items
    {
      items[..]
    }

    constructor (items: array<Value>)
      ensures this.items == items
    {
      this.items := items;
    }

    /** The copying loop that the tuple operations share: `source[lo..hi]` goes to `all` at `at`. */
    static method Fill(all: array<Value>, at: nat, source: array<Value>, lo: nat, hi: nat)
      requires lo <= hi <= source.Length && at + hi - lo <= all.Length && all != source
      modifies all
      ensures all[..] == old(all[..])[..at] + source[lo..hi] + old(all[..])[at + hi - lo..]
    {
      for i := lo to hi
        invariant all[..at] == old(all[..at]) && all[at + hi - lo..] == old(all[at + hi - lo..])
        invariant forall k :: lo <= k < i ==> all[at + k - lo] == source[k]
      {
        all[at + i - lo] := source[i];
      }
      assert all[at..at + hi - lo] == source[lo..hi];
      assert all[..] == all[..at] + all[at..at + hi - lo] + all[at + hi - lo..];
    }

    /** RAP_create_tuple_obj's copy. */
    static method Copied(from: Items) returns (t: Items)
      ensures fresh(t) && fresh(t.items) && t.Contents() == from.Contents()
    {
      var all := new Value[from.items.Length](_ => Int(0));
      Fill(all, 0, from.items, 0, from.items.Length);
      t := new Items(all);
    }

    /** RAP_append_tuple. */
    method Appended(other: Items) returns (t: Items)
      ensures fresh(t) && fresh(t.items) && t.Contents() == Contents() + other.Contents()
    {
      var all := new Value[items.Length + other.items.Length](_ => Int(0));
      Fill(all, 0, items, 0, items.Length);
      Fill(all, items.Length, other.items, 0, other.items.Length);
      t := new Items(all);
    }

    /** RAP_multiply's loop: the items n times over. */
    method Repeated(n: int) returns (t: Items)
      ensures fresh(t) && fresh(t.items) && t.Contents() == Repeat(Contents(), n)
    {
      var count, times := items.Length, if n < 0 then 0 else n;
      var all := new Value[count * times](_ => Int(0));
      RepeatOnce(items[..]);
      for r := 0 to times
        invariant 0 <= r * count <= count * times && all[..r * count] == Repeat(items[..], r)
      {
        RoundFits(r, times, count);
        Fill(all, r * count, items, 0, count);
        RepeatBack(items[..], r);
        assert (r + 1) * count == r * count + count;
      }
      if n < 0 { assert Repeat(items[..], n) == Repeat(items[..], 0); }
      t := new Items(all);
    }

    /** RAP_materialize_slice's loop. */
    method Materialized(from: int, to: int) returns (t: Items)
      requires from < to ==> 0 <= from && to <= items.Length
      ensures fresh(t) && fresh(t.items)
      ensures t.Contents() == if from < to then Contents()[from..to] else []
    {
      var count := if from < to then to - from else 0;
      var all := new Value[count](_ => Int(0));
      if count == 0 {
        t := new Items(all);
        return;
      }
      Fill(all, 0, items, from, to);
      t := new Items(all);
    }

    /** RAP_slice_assign: three loops fill a new array, which replaces the old one. The
        replacement may be this very object. */
    method Splice(from: nat, to: nat, put: Items)
      requires from <= to <= items.Length
      modifies this
      ensures fresh(items)
      ensures Contents() == old(Contents())[..from] + old(put.Contents()) + old(Contents())[to..]
    {
      var mine, theirs := items, put.items;
      var count, more := mine.Length, theirs.Length;
      var all := new Value[count - (to - from) + more](_ => Int(0));
      ghost var blank := all[..];
      Fill(all, 0, mine, 0, from);
      Fill(all, from, theirs, 0, more);
      Fill(all, from + more, mine, to, count);
      ThreeFills(blank, mine[..], theirs[..], from, to);
      items := all;
    }
  }

  lemma ThreeFills<V>(blank: seq<V>, mine: seq<V>, theirs: seq<V>, from: nat, to: nat)
    requires from <= to <= |mine| && |blank| == from + |theirs| + |mine| - to
    ensures var one := blank[..0] + mine[0..from] + blank[from..];
      var two := one[..from] + theirs[0..|theirs|] + one[from + |theirs|..];
      two[..from + |theirs|] + mine[to..|mine|] + two[|blank|..] == mine[..from] + theirs + mine[to..]
  {
  }

  lemma SubSlice<V>(items: seq<V>, from: nat, to: nat, a: nat, b: nat)
    requires from <= to <= |items| && a <= b <= to - from
    ensures items[from..to][a..b] == items[from + a..from + b]
  {
    assert |items[from..to][a..b]| == |items[from + a..from + b]|;
    assert forall k :: 0 <= k < b - a ==> items[from..to][a..b][k] == items[from + a..from + b][k];
  }

  lemma RepeatOnce<V>(s: seq<V>)
    ensures Repeat(s, 0) == [] && |Repeat(s, 0)| == 0
  {
  }

  lemma RoundFits(r: nat, times: nat, count: nat)
    requires r < times
    ensures 0 <= r * count && r * count + count <= count * times
  {
    assert (r + 1) * count <= times * count;
  }

  /** Repeating once more may as well add at the end. */
  lemma {:induction false} RepeatBack<V>(s: seq<V>, n: nat)
    ensures Repeat(s, n + 1) == Repeat(s, n) + s
    ensures |Repeat(s, n)| == n * |s|
  {
    if n == 0 {
      assert Repeat(s, 1) == s + Repeat(s, 0) == s;
    } else {
      RepeatBack(s, n - 1);
      assert s + (Repeat(s, n - 1) + s) == s + Repeat(s, n - 1) + s;
      assert n * |s| == |s| + (n - 1) * |s|;
    }
  }
}
