/** Texts, tuples, equality and output in the program's own terms (runtime/tuple.c,
    runtime/arithmetic.c, runtime/core.c, crates/vm-interp/src/interpreter.rs). */
module CollectionLaws {
  import opened Results
  import opened Bytecode
  import opened Numbers
  import opened Ast
  import opened Scoping
  import opened Semantics
  import opened OperatorLaws
  import StringTable
  import Utf8
  import RT = Runtime

  // ---------------------------------------------------------------- making

  /** A tuple holds the values of its parts, in their order, in a new object. */
  lemma TupleLaw(w: World, fuel: nat, cfg: Config, sc: Scope, e: Expr, vs: seq<Value>, before: Mem, after: Mem)
    requires e.TupleConstruct? && EvalExprs(w, fuel, cfg, sc, e.elements, before) == Ok((vs, after))
    ensures EvalExpr(w, fuel, cfg, sc, e, before) == Ok((RT.Ref(|after.heap|), after.(heap := after.heap + [RT.Tuple(vs)])))
  {
    hide EvalExprs;
  }

  /** The parts are evaluated from left to right. */
  lemma PartsLaw(w: World, fuel: nat, cfg: Config, sc: Scope, e: Expr, es: seq<Expr>, v: Value, vs: seq<Value>, before: Mem, mid: Mem, after: Mem)
    requires EvalExpr(w, fuel, cfg, sc, e, before) == Ok((v, mid)) && EvalExprs(w, fuel, cfg, sc, es, mid) == Ok((vs, after))
    ensures EvalExprs(w, fuel, cfg, sc, [e] + es, before) == Ok(([v] + vs, after))
  {
    hide EvalExpr;
    assert ([e] + es)[1..] == es;
  }

  function Letters(codes: seq<int>): (r: seq<Value>)
    ensures |r| == |codes|
  {
    seq(|codes|, i requires 0 <= i < |codes| => RT.Int(codes[i]))
  }

  /** A text literal is a new text of its characters. */
  lemma TextLaw(w: World, fuel: nat, cfg: Config, sc: Scope, codes: seq<int>, m: Mem)
    requires Utf8.AllEncodable(codes)
    ensures EvalExpr(w, fuel, cfg, sc, TextLit(Utf8.EncodeAll(codes)), m)
      == Ok((RT.Ref(|m.heap|), m.(heap := m.heap + [RT.Text(Letters(codes))])))
  {
    var bytes := Utf8.EncodeAll(codes);
    Utf8.DecodeUndoesEncode(codes);
    AllKept(bytes);
    assert RT.NewText(m.heap, bytes) == Ok((RT.Ref(|m.heap|), m.heap + [RT.Text(Letters(codes))]));
  }

  lemma {:induction false} AllKept(s: seq<Byte>)
    requires Utf8.NulFree(s)
    ensures StringTable.UpToNul(s) == s
    decreases |s|
  {
    if s != [] { AllKept(s[1..]); }
  }

  // ---------------------------------------------------------------- items

  /** `c[i]` is the item at `i`, counted from 0; of a text it is a new text of that character. */
  lemma ItemLaw(w: World, fuel: nat, cfg: Config, sc: Scope, c: Expr, i: Expr, a: nat, k: int, before: Mem, after: Mem)
    requires Operands(w, fuel, cfg, sc, c, i, before, RT.Ref(a), RT.Int(k), after) && a < |after.heap|
    requires after.heap[a].Tuple? || after.heap[a].Text?
    ensures var r, o, h := EvalExpr(w, fuel, cfg, sc, Subscript(c, i), before), after.heap[a], after.heap;
      if !(0 <= k < |o.items|) then r == Err(OutOfBounds)
      else if o.Tuple? then r == Ok((o.items[k], after))
      else r == Ok((RT.Ref(|h|), after.(heap := h + [RT.Text([o.items[k]])])))
  {
    hide EvalExpr, RT.Elem;
    SubscriptIs(w, fuel, cfg, sc, c, i, RT.Ref(a), RT.Int(k), before, after);
    ElemIs(after.heap, a, k);
  }

  lemma SubscriptIs(w: World, fuel: nat, cfg: Config, sc: Scope, c: Expr, i: Expr, x: Value, y: Value, before: Mem, after: Mem)
    requires Operands(w, fuel, cfg, sc, c, i, before, x, y, after)
    ensures EvalExpr(w, fuel, cfg, sc, Subscript(c, i), before) == InHeap(after, RT.Elem(after.heap, x, y))
  {
    hide RT.Elem;
  }

  lemma ElemIs(h: Heap, a: nat, k: int)
    requires a < |h| && (h[a].Tuple? || h[a].Text?)
    ensures RT.Elem(h, RT.Ref(a), RT.Int(k)) ==
      if !(0 <= k < |h[a].items|) then Err(OutOfBounds)
      else if h[a].Tuple? then Ok((h[a].items[k], h))
      else Ok((RT.Ref(|h|), h + [RT.Text([h[a].items[k]])]))
  {
  }

  /** What `c[i] := v` puts into a text: the letter of a text of one letter. */
  function Put(h: Heap, o: RT.Obj<Value>, v: Value): Value {
    if o.Text? && v.Ref? && v.addr < |h| && h[v.addr].Text? && |h[v.addr].items| == 1 then h[v.addr].items[0] else v
  }

  /** `c[i] := x` changes that item of that object and nothing else. */
  lemma ItemAssigned(w: World, fuel: nat, cfg: Config, sc: Scope, name: string, i: Expr, e: Expr, x: Variable, a: nat, k: nat, v: Value,
                     m: Mem, m1: Mem, m2: Mem)
    requires EvalExpr(w, fuel, cfg, sc, e, m) == Ok((v, m1)) && EvalExpr(w, fuel, cfg, sc, i, m1) == Ok((RT.Int(k), m2))
    requires FindVariable(sc, name) == Ok(x) && Read(m2, x) == Ok(RT.Ref(a)) && a < |m2.heap|
    requires (m2.heap[a].Tuple? || m2.heap[a].Text?) && k < |m2.heap[a].items|
    ensures var o := m2.heap[a];
      var items := o.items[k := Put(m2.heap, o, v)];
      EvalStmt(w, fuel, cfg, sc, Assignment(SubscriptTarget(Name(name), i), e), m)
        == Ok((Normal, m2.(heap := m2.heap[a := if o.Tuple? then RT.Tuple(items) else RT.Text(items)])))
  {
    hide EvalExpr;
  }

  // ---------------------------------------------------------------- slices

  /** A bound as it is written: missing, or an integer. */
  ghost predicate Bound(w: World, fuel: nat, cfg: Config, sc: Scope, e: MaybeExpr, before: Mem, n: Option<int>, after: Mem) {
    if e.Absent? then n.None? && after == before
    else n.Some? && EvalExpr(w, fuel, cfg, sc, e.expr, before) == Ok((RT.Int(n.value), after))
  }

  /** `c[a:b]` shows the items from a up to b; a missing a is 0, a missing b the number of items. */
  lemma SliceLaw(w: World, fuel: nat, cfg: Config, sc: Scope, c: Expr, from: MaybeExpr, to: MaybeExpr, p: nat, a: Option<int>, b: Option<int>,
                 before: Mem, m1: Mem, m2: Mem, after: Mem)
    requires EvalExpr(w, fuel, cfg, sc, c, before) == Ok((RT.Ref(p), m1)) && Bound(w, fuel, cfg, sc, from, m1, a, m2) && Bound(w, fuel, cfg, sc, to, m2, b, after)
    requires p < |after.heap| && (after.heap[p].Tuple? || after.heap[p].Text?)
    requires var n := |after.heap[p].items|; 0 <= (if a.Some? then a.value else 0) < (if b.Some? then b.value else n) <= n
    ensures var lo, hi := if a.Some? then a.value else 0, if b.Some? then b.value else |after.heap[p].items|;
      EvalExpr(w, fuel, cfg, sc, SliceExpr(c, from, to), before)
        == Ok((RT.Ref(|after.heap|), after.(heap := after.heap + [RT.Slice(p, lo, hi)])))
  {
    hide RT.SliceOf, EvalExpr, EvalMaybe, Bound;
    BoundIs(w, fuel, cfg, sc, from, m1, a, m2);
    BoundIs(w, fuel, cfg, sc, to, m2, b, after);
    SliceExprIs(w, fuel, cfg, sc, c, from, to, RT.Ref(p), Boxed(a), Boxed(b), before, m1, m2, after);
    SliceIs(after.heap, p, a, b);
  }

  lemma SliceExprIs(w: World, fuel: nat, cfg: Config, sc: Scope, c: Expr, from: MaybeExpr, to: MaybeExpr, x: Value, a: Option<Value>, b: Option<Value>,
                    before: Mem, m1: Mem, m2: Mem, after: Mem)
    requires EvalExpr(w, fuel, cfg, sc, c, before) == Ok((x, m1))
    requires EvalMaybe(w, fuel, cfg, sc, from, m1) == Ok((a, m2)) && EvalMaybe(w, fuel, cfg, sc, to, m2) == Ok((b, after))
    ensures EvalExpr(w, fuel, cfg, sc, SliceExpr(c, from, to), before) == InHeap(after, RT.SliceOf(after.heap, x, a, b))
  {
    hide RT.SliceOf, EvalMaybe;
  }

  function Boxed(n: Option<int>): Option<Value> { if n.Some? then Some(RT.Int(n.value)) else None }

  lemma BoundIs(w: World, fuel: nat, cfg: Config, sc: Scope, e: MaybeExpr, before: Mem, n: Option<int>, after: Mem)
    requires Bound(w, fuel, cfg, sc, e, before, n, after)
    ensures EvalMaybe(w, fuel, cfg, sc, e, before) == Ok((Boxed(n), after))
  {
    hide EvalExpr;
  }

  lemma SliceIs(h: Heap, p: nat, a: Option<int>, b: Option<int>)
    requires p < |h| && (h[p].Tuple? || h[p].Text?)
    requires 0 <= (if a.Some? then a.value else 0) < (if b.Some? then b.value else |h[p].items|) <= |h[p].items|
    ensures RT.SliceOf(h, RT.Ref(p), Boxed(a), Boxed(b)) ==
      Ok((RT.Ref(|h|), h + [RT.Slice(p, if a.Some? then a.value else 0, if b.Some? then b.value else |h[p].items|)]))
  {
  }

  // ---------------------------------------------------------------- sums and multiples

  /** The sum of two texts, or of two tuples, is the one followed by the other. */
  lemma SumLaw(w: World, fuel: nat, cfg: Config, sc: Scope, x: Expr, y: Expr, a: nat, b: nat, before: Mem, after: Mem)
    requires Operands(w, fuel, cfg, sc, x, y, before, RT.Ref(a), RT.Ref(b), after) && a < |after.heap| && b < |after.heap|
    ensures var r, h := EvalExpr(w, fuel, cfg, sc, Binary(Add, x, y), before), after.heap;
      match (h[a], h[b])
      case (Tuple(xs), Tuple(ys)) => r == Ok((RT.Ref(|h|), after.(heap := h + [RT.Tuple(xs + ys)])))
      case (Text(xs), Text(ys)) => r == Ok((RT.Ref(|h|), after.(heap := h + [RT.Text(xs + ys)])))
      case _ => true
  {
    hide EvalExpr;
    BinaryIs(w, fuel, cfg, sc, Add, x, y, before, RT.Ref(a), RT.Ref(b), after);
  }

  /** n times the items: item i is the item at i modulo their number. */
  lemma {:induction false} RepeatedAt<V>(items: seq<V>, n: int, i: nat)
    ensures |RT.Repeat(items, n)| == (if n <= 0 then 0 else n * |items|)
    ensures i < |RT.Repeat(items, n)| ==> |items| > 0 && RT.Repeat(items, n)[i] == items[i % |items|]
    decreases if n < 0 then 0 else n
  {
    if n > 0 {
      var rest := RT.Repeat(items, n - 1);
      RepeatedAt(items, n - 1, if i < |items| then i else i - |items|);
      assert n * |items| == |items| + (n - 1) * |items|;
      if |items| <= i < |items + rest| {
        Modulo(i - |items|, |items|);
      } else if i < |items| {
        assert i % |items| == i;
      }
    }
  }

  lemma Modulo(i: nat, n: nat)
    requires n > 0
    ensures (i + n) % n == i % n
  {
    assert i + n == (i / n + 1) * n + i % n;
    FloorDivisionUnique(i + n, n, i / n + 1, i % n);
    assert FloorRemainder(i + n, n) == (i + n) - (i + n) / n * n;
  }

  /** A tuple or text times a number, and a number times a text. */
  lemma MultipleLaw(w: World, fuel: nat, cfg: Config, sc: Scope, x: Expr, y: Expr, a: nat, n: int, i: nat, before: Mem, after: Mem)
    requires a < |after.heap| && (after.heap[a].Tuple? || after.heap[a].Text?) && n >= 0 && i < n * |after.heap[a].items|
    requires Operands(w, fuel, cfg, sc, x, y, before, RT.Ref(a), RT.Int(n), after)
      || (after.heap[a].Text? && Operands(w, fuel, cfg, sc, x, y, before, RT.Int(n), RT.Ref(a), after))
    ensures var r, o, h := EvalExpr(w, fuel, cfg, sc, Binary(Multiply, x, y), before), after.heap[a], after.heap;
      && r.Ok? && r.value.0 == RT.Ref(|h|) && |r.value.1.heap| == |h| + 1 && r.value.1 == after.(heap := h + [r.value.1.heap[|h|]])
      && var made := r.value.1.heap[|h|];
         && made.Tuple? == o.Tuple? && made.Text? == o.Text? && (made.Tuple? || made.Text?)
         && |o.items| > 0 && |made.items| == n * |o.items| && made.items[i] == o.items[i % |o.items|]
  {
    hide EvalExpr, RT.Repeat;
    if Operands(w, fuel, cfg, sc, x, y, before, RT.Ref(a), RT.Int(n), after) {
      BinaryIs(w, fuel, cfg, sc, Multiply, x, y, before, RT.Ref(a), RT.Int(n), after);
    } else {
      BinaryIs(w, fuel, cfg, sc, Multiply, x, y, before, RT.Int(n), RT.Ref(a), after);
    }
    RepeatedAt(after.heap[a].items, n, i);
  }

  // ---------------------------------------------------------------- equality

  /** What a value shows, followed through the heap: no doubles, no functions. */
  datatype Tree =
    | Number(n: int) | Flag(b: bool) | Nothing | Word(codes: seq<int>) | Row(parts: seq<Tree>)
    | Instance(typeName: seq<Byte>, tag: nat, contents: seq<Tree>)

  function TreeOf(lib: RT.Library, h: Heap, depth: nat, v: Value): Option<Tree>
    decreases depth, 0
  {
    if depth == 0 then None
    else match v
      case Int(n) => Some(Number(n))
      case Bool(b) => Some(Flag(b))
      case Flt(_) => None
      case Ref(a) => if a >= |h| then None else TreeOfObject(lib, h, depth, h[a])
  }

  function TreeOfObject(lib: RT.Library, h: Heap, depth: nat, o: RT.Obj<Value>): Option<Tree>
    requires depth > 0
    decreases depth - 1, 3
  {
    match o
    case Null => Some(Nothing)
    case Text(items) => WordOf(items)
    case Tuple(items) => RowOf(TreesOf(lib, h, depth - 1, items))
    case Slice(p, from, to) =>
      if !(p < |h| && (h[p].Tuple? || h[p].Text?) && 0 <= from <= to <= |h[p].items|) then None
      else if h[p].Text? then WordOf(h[p].items[from..to])
      else RowOf(TreesOf(lib, h, depth - 1, h[p].items[from..to]))
    case Variant(s, fields) =>
      if !(s < |lib.schemas| && |lib.schemas[s].fields| == |fields| && Different(lib.schemas[s].fields)) then None
      else
        var parts := TreesOf(lib, h, depth - 1, fields);
        if parts.None? then None else Some(Instance(lib.schemas[s].name, lib.schemas[s].tag, parts.value))
    case Callable(_, _) => None
  }

  function WordOf(items: seq<Value>): Option<Tree> {
    if forall i :: 0 <= i < |items| ==> items[i].Int? then
      Some(Word(seq(|items|, i requires 0 <= i < |items| => items[i].n)))
    else None
  }

  function RowOf(parts: Option<seq<Tree>>): Option<Tree> { if parts.Some? then Some(Row(parts.value)) else None }

  function TreesOf(lib: RT.Library, h: Heap, depth: nat, vs: seq<Value>): (r: Option<seq<Tree>>)
    ensures r.Some? ==> |r.value| == |vs|
    decreases depth, 1, |vs|
  {
    if vs == [] then Some([])
    else match (TreeOf(lib, h, depth, vs[0]), TreesOf(lib, h, depth, vs[1..]))
      case (Some(t), Some(ts)) => Some([t] + ts)
      case _ => None
  }

  predicate Different<T(==)>(xs: seq<T>) { forall i, j :: 0 <= i < j < |xs| ==> xs[i] != xs[j] }

  /** Comparing gives truth exactly to equal trees, and refuses only unequal ones. */
  predicate Judges(r: Result<bool>, same: bool) { (same ==> r == Ok(true)) && (r.Ok? ==> r.value == same) }

  /** Two values are equal when they show the same, whatever objects they are. */
  lemma {:induction false} EqualIsSameTree(lib: RT.Library, h: Heap, depth: nat, a: Value, b: Value)
    requires TreeOf(lib, h, depth, a).Some? && TreeOf(lib, h, depth, b).Some?
    ensures Judges(RT.Equal(lib, h, depth, a, b), TreeOf(lib, h, depth, a) == TreeOf(lib, h, depth, b))
    decreases depth, 0, 0
  {
    hide RT.Equal, TreeOfObject;
    if a.Ref? && b.Ref? {
      ObjectsEqual(lib, h, depth, a.addr, b.addr);
    } else {
      PlainEqual(lib, h, depth, a, b);
    }
  }

  lemma PlainEqual(lib: RT.Library, h: Heap, depth: nat, a: Value, b: Value)
    requires TreeOf(lib, h, depth, a).Some? && TreeOf(lib, h, depth, b).Some? && !(a.Ref? && b.Ref?)
    ensures Judges(RT.Equal(lib, h, depth, a, b), TreeOf(lib, h, depth, a) == TreeOf(lib, h, depth, b))
  {
    if a.Ref? { NeverPlain(lib, h, depth, h[a.addr]); }
    if b.Ref? { NeverPlain(lib, h, depth, h[b.addr]); }
  }

  lemma NeverPlain(lib: RT.Library, h: Heap, depth: nat, o: RT.Obj<Value>)
    requires depth > 0
    ensures match TreeOfObject(lib, h, depth, o) case Some(Number(_)) => false case Some(Flag(_)) => false case _ => true
  {
  }

  /** An object as equality sees it: a slice is what it shows. */
  lemma ShownObject(lib: RT.Library, h: Heap, depth: nat, a: nat) returns (o: RT.Obj<Value>)
    requires depth > 0 && a < |h| && TreeOfObject(lib, h, depth, h[a]).Some?
    ensures RT.Materialize(h, a) == Ok(o) && !o.Slice? && TreeOfObject(lib, h, depth, o) == TreeOfObject(lib, h, depth, h[a])
  {
    o := RT.Materialize(h, a).value;
    if h[a].Slice? && h[a].from == h[a].to {
      assert h[h[a].parent].items[h[a].from..h[a].to] == [];
    }
  }

  lemma {:induction false} ObjectsEqual(lib: RT.Library, h: Heap, depth: nat, a: nat, b: nat)
    requires depth > 0 && a < |h| && b < |h| && TreeOfObject(lib, h, depth, h[a]).Some? && TreeOfObject(lib, h, depth, h[b]).Some?
    ensures Judges(RT.Equal(lib, h, depth, RT.Ref(a), RT.Ref(b)), TreeOfObject(lib, h, depth, h[a]) == TreeOfObject(lib, h, depth, h[b]))
    decreases depth - 1, 5, 0
  {
    hide RT.Materialize, RT.SameCharacters, RT.EqualItems, RT.EqualVariants, TreeOf, TreesOf, RT.FieldPairs;
    var x := ShownObject(lib, h, depth, a);
    var y := ShownObject(lib, h, depth, b);
    if x.Text? && y.Text? {
      LettersEqual(x.items, y.items);
    } else if x.Tuple? && y.Tuple? && |x.items| == |y.items| {
      ItemsEqual(lib, h, depth - 1, x.items, y.items);
    } else if x.Variant? && y.Variant? {
      InstancesEqual(lib, h, depth, x, y);
    }
  }

  lemma {:induction false} LettersEqual(xs: seq<Value>, ys: seq<Value>)
    requires WordOf(xs).Some? && WordOf(ys).Some?
    ensures RT.SameCharacters(xs, ys) == Ok(WordOf(xs) == WordOf(ys))
    decreases |xs|
  {
    if |xs| == |ys| && xs != [] {
      assert forall i :: 0 <= i < |xs| - 1 ==> xs[1..][i] == xs[i + 1] && ys[1..][i] == ys[i + 1];
      LettersEqual(xs[1..], ys[1..]);
      WordSplit(xs);
      WordSplit(ys);
      SameFront(xs[0].n, WordOf(xs[1..]).value.codes, ys[0].n, WordOf(ys[1..]).value.codes);
    } else if |xs| != |ys| {
      assert |WordOf(xs).value.codes| != |WordOf(ys).value.codes|;
    }
  }

  lemma SameFront<T>(x: T, xs: seq<T>, y: T, ys: seq<T>)
    ensures [x] + xs == [y] + ys <==> x == y && xs == ys
  {
    if [x] + xs == [y] + ys {
      assert ([x] + xs)[0] == x && ([y] + ys)[0] == y;
      assert ([x] + xs)[1..] == xs && ([y] + ys)[1..] == ys;
    }
  }

  lemma WordSplit(xs: seq<Value>)
    requires WordOf(xs).Some? && xs != []
    ensures WordOf(xs[1..]).Some? && xs[0].Int? && WordOf(xs).value.codes == [xs[0].n] + WordOf(xs[1..]).value.codes
  {
  }

  lemma {:induction false} ItemsEqual(lib: RT.Library, h: Heap, depth: nat, xs: seq<Value>, ys: seq<Value>)
    requires |xs| == |ys| && TreesOf(lib, h, depth, xs).Some? && TreesOf(lib, h, depth, ys).Some?
    ensures Judges(RT.EqualItems(lib, h, depth, xs, ys), TreesOf(lib, h, depth, xs) == TreesOf(lib, h, depth, ys))
    decreases depth, 1, |xs|
  {
    hide RT.Equal, TreeOf;
    if xs != [] {
      EqualIsSameTree(lib, h, depth, xs[0], ys[0]);
      ItemsEqual(lib, h, depth, xs[1..], ys[1..]);
      SameFront(TreeOf(lib, h, depth, xs[0]).value, TreesOf(lib, h, depth, xs[1..]).value,
        TreeOf(lib, h, depth, ys[0]).value, TreesOf(lib, h, depth, ys[1..]).value);
    }
  }

  lemma {:induction false} FirstOfDifferent(names: seq<seq<Byte>>, i: nat)
    requires Different(names) && i < |names|
    ensures RT.FieldNamed(names, names[i]) == i
    decreases |names|
  {
    if i > 0 { FirstOfDifferent(names[1..], i - 1); }
  }

  lemma NamedInPlace<V>(names: seq<seq<Byte>>, fields: seq<V>)
    requires |names| == |fields| && Different(names)
    ensures RT.ByName(names, fields) == fields
  {
    forall i | 0 <= i < |names| ensures RT.ByName(names, fields)[i] == fields[i] { FirstOfDifferent(names, i); }
  }

  lemma {:induction false} InstancesEqual(lib: RT.Library, h: Heap, depth: nat, x: RT.Obj<Value>, y: RT.Obj<Value>)
    requires depth > 0 && x.Variant? && y.Variant? && TreeOfObject(lib, h, depth, x).Some? && TreeOfObject(lib, h, depth, y).Some?
    ensures Judges(RT.EqualVariants(lib, h, depth, x, y), TreeOfObject(lib, h, depth, x) == TreeOfObject(lib, h, depth, y))
    decreases depth - 1, 2, 0
  {
    hide RT.EqualItems, TreesOf, RT.ByName, RT.FieldNamed;
    var s, t := lib.schemas[x.schema], lib.schemas[y.schema];
    NamedInPlace(s.fields, x.fields);
    NamedInPlace(t.fields, y.fields);
    if |x.fields| == |y.fields| { ItemsEqual(lib, h, depth - 1, x.fields, y.fields); }
  }

  /** `=` and `/=` on values that show something. */
  lemma EqualLaw(w: World, fuel: nat, cfg: Config, sc: Scope, x: Expr, y: Expr, v: Value, u: Value, before: Mem, after: Mem)
    requires Operands(w, fuel, cfg, sc, x, y, before, v, u, after)
    requires TreeOf(w.lib, after.heap, w.lib.depth, v).Some? && TreeOf(w.lib, after.heap, w.lib.depth, u).Some?
    ensures var same := TreeOf(w.lib, after.heap, w.lib.depth, v) == TreeOf(w.lib, after.heap, w.lib.depth, u);
      var r, q := EvalExpr(w, fuel, cfg, sc, Binary(Equal, x, y), before), EvalExpr(w, fuel, cfg, sc, Binary(NotEqual, x, y), before);
      && (same ==> r == Truth(true, after) && q == Truth(false, after))
      && (r.Ok? || q.Ok? ==> r == Truth(same, after) && q == Truth(!same, after))
  {
    hide EvalExpr, TreeOf, RT.Equal;
    BinaryIs(w, fuel, cfg, sc, Equal, x, y, before, v, u, after);
    BinaryIs(w, fuel, cfg, sc, NotEqual, x, y, before, v, u, after);
    EqualIsSameTree(w.lib, after.heap, w.lib.depth, v, u);
  }

  // ---------------------------------------------------------------- output

  /** How a tree is printed; instances have no printed form of their own. */
  function Printed(t: Tree): RT.Shown
    decreases t
  {
    match t
    case Number(n) => RT.ShownInt(n)
    case Flag(b) => RT.ShownBool(b)
    case Nothing => RT.ShownNull
    case Word(codes) => RT.ShownText(codes)
    case Row(parts) => RT.ShownTuple(AllPrinted(parts))
    case Instance(_, _, _) => RT.ShownUnknown
  }

  function AllPrinted(ts: seq<Tree>): (r: seq<RT.Shown>)
    ensures |r| == |ts| && forall i :: 0 <= i < |ts| ==> r[i] == Printed(ts[i])
    decreases ts
  {
    if ts == [] then [] else [Printed(ts[0])] + AllPrinted(ts[1..])
  }

  /** Printing a value prints what it shows. */
  lemma {:induction false} PrintsTree(lib: RT.Library, h: Heap, depth: nat, v: Value)
    requires TreeOf(lib, h, depth, v).Some?
    ensures RT.Stringify(h, depth, v) == Ok(Printed(TreeOf(lib, h, depth, v).value))
    decreases depth, 0
  {
    hide RT.Materialize, RT.StringifyAll, TreesOf;
    if v.Ref? {
      var o := ShownObject(lib, h, depth, v.addr);
      if o.Tuple? {
        PrintsTrees(lib, h, depth - 1, o.items);
      } else if o.Text? {
        assert seq(|o.items|, i requires 0 <= i < |o.items| => RT.CodeOf(o.items[i])) == WordOf(o.items).value.codes;
      }
    }
  }

  lemma {:induction false} PrintsTrees(lib: RT.Library, h: Heap, depth: nat, vs: seq<Value>)
    requires TreesOf(lib, h, depth, vs).Some?
    ensures RT.StringifyAll(h, depth, vs) == Ok(AllPrinted(TreesOf(lib, h, depth, vs).value))
    decreases depth, 1 + |vs|
  {
    hide TreeOf, RT.Stringify;
    if vs != [] {
      PrintsTree(lib, h, depth, vs[0]);
      PrintsTrees(lib, h, depth, vs[1..]);
    }
  }

  /** Doubles and functions are printed as such. */
  lemma PrintsOthers(h: Heap, depth: nat, v: Value)
    requires depth > 0
    ensures v.Flt? ==> RT.Stringify(h, depth, v) == Ok(RT.ShownFloat(v.f))
    ensures (match RT.Deref(h, v) case Some(Callable(_, _)) => true case _ => false) ==> RT.Stringify(h, depth, v) == Ok(RT.ShownFunction)
  {
  }

  /** `вывод` adds one line of what its values show, in their order; without values, nothing. */
  lemma OutputLaw(w: World, fuel: nat, cfg: Config, sc: Scope, noNewline: bool, es: seq<Expr>, vs: seq<Value>, before: Mem, after: Mem)
    requires EvalExprs(w, fuel, cfg, sc, es, before) == Ok((vs, after)) && |vs| < 0x4000_0000
    requires TreesOf(w.lib, after.heap, w.lib.depth, vs).Some?
    ensures EvalStmt(w, fuel, cfg, sc, Output(noNewline, es), before) == Ok((Normal, after.(log := after.log +
      if es == [] then [] else [RT.Event(AllPrinted(TreesOf(w.lib, after.heap, w.lib.depth, vs).value), !noNewline)])))
  {
    hide EvalExprs, TreesOf, AllPrinted, RT.StringifyAll;
    PrintsTrees(w.lib, after.heap, w.lib.depth, vs);
  }
}
