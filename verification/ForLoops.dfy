/** How often a `для` loop runs: the guard the code generator writes out, against the
    language specification's guard and its iteration count
    (crates/compiler-core/src/codegen/bcgen.rs, doc/archive/spec_old.md). */
module ForLoops {
  import opened Results
  import opened Bytecode
  import opened Numbers
  import opened Ast
  import opened Scoping
  import opened Semantics
  import RT = Runtime

  /** The generated guard on integers: `(c > 0 and i <= b) or (c <= 0 and i >= b)`. */
  predicate Goes(c: int, i: int, b: int) { (c > 0 && i <= b) || (c <= 0 && i >= b) }

  /** It is the specification's `(b - i) * c >= 0` unless the step is zero and the bound lies
      above the variable: there the specification's loop never ends and this one never runs. */
  lemma SpecGuard(c: int, i: int, b: int)
    ensures Goes(c, i, b) == ((b - i) * c >= 0) <==> c != 0 || i >= b
  {
    if c > 0 {
      if b < i { assert (b - i) * c == -((i - b - 1) * c + c); }
    } else if c < 0 {
      if b > i { assert (b - i) * c == -((b - i - 1) * -c + -c); }
    }
  }

  function Trips(a: int, b: int, c: int): nat
    requires c != 0
  {
    var n := FloorQuotient(b - a, c) + 1;
    if n < 0 then 0 else n
  }

  /** One more round is due exactly while the guard holds. */
  lemma TripsStep(a: int, b: int, c: int)
    requires c != 0
    ensures Goes(c, a, b) <==> Trips(a, b, c) > 0
    ensures Goes(c, a, b) ==> Trips(a + c, b, c) == Trips(a, b, c) - 1
  {
    var q, r := FloorQuotient(b - a, c), FloorRemainder(b - a, c);
    FloorDivision(b - a, c);
    assert b - (a + c) == (q - 1) * c + r;
    FloorDivisionUnique(b - (a + c), c, q - 1, r);
    Sign(q, c, r);
  }

  /** A floored quotient has the sign of the product. */
  lemma Sign(q: int, c: int, r: int)
    requires c != 0 && (c > 0 ==> 0 <= r < c) && (c < 0 ==> c < r <= 0)
    ensures q >= 0 <==> (if c > 0 then q * c + r >= 0 else q * c + r <= 0)
  {
    if q >= 0 {
      if c > 0 { NotNegative(q, c); } else { NotNegative(q, -c); }
    } else {
      if c > 0 { NotNegative(-q - 1, c); } else { NotNegative(-q - 1, -c); }
    }
  }

  lemma NotNegative(x: int, y: int)
    requires x >= 0 && y >= 0
    ensures x * y >= 0
  {
  }

  /** The round's work and then the step, n times. */
  ghost function Rounds(body: Mem -> Mem, x: Variable, i: int, c: int, n: nat, m: Mem): Mem
    decreases n
  {
    if n == 0 then m
    else match Write(body(m), x, RT.Int(i + c))
      case Ok(m') => Rounds(body, x, i + c, c, n - 1, m')
      case Err(_) => m
  }

  /** In every memory that satisfies `inv` the bound and the step evaluate to the same
      integers, changing nothing; the body ends normally, leaves the loop variable alone and
      keeps `inv`, and so does stepping the variable. */
  ghost predicate Steady(w: World, least: nat, cfg: Config, sc: Scope, s: Stmt, b: int, c: int, inv: Mem -> bool, body: Mem -> Mem) {
    && s.Loop? && s.header.For? && s.header.to.Present?
    && (forall fuel: nat, m: Mem :: fuel >= least && inv(m) ==> Round(w, fuel, cfg, sc, s, b, c, m, body(m)))
    && (forall m: Mem :: inv(m) ==> inv(body(m)))
    && (forall m: Mem, i: int :: inv(m) ==> match Write(m, NextSlot(sc), RT.Int(i)) case Ok(m') => inv(m') case Err(_) => true)
  }

  ghost predicate Round(w: World, fuel: nat, cfg: Config, sc: Scope, s: Stmt, b: int, c: int, m: Mem, m': Mem)
    requires s.Loop? && s.header.For? && s.header.to.Present?
  {
    && EvalStep(w, fuel, cfg, sc, s.header.step, m) == Ok((RT.Int(c), m))
    && EvalExpr(w, fuel, cfg, sc, s.header.to.expr, m) == Ok((RT.Int(b), m))
    && EvalBlock(w, fuel, cfg, Allocate(sc, s.header.variable), s.body, m) == Ok((Normal, m'))
    && SameShape(m, m') && Read(m', NextSlot(sc)) == Read(m, NextSlot(sc))
    && EvalStep(w, fuel, cfg, sc, s.header.step, m') == Ok((RT.Int(c), m'))
  }

  lemma GuardGoes(w: World, fuel: nat, cfg: Config, sc: Scope, s: Stmt, i: int, b: int, c: int, m: Mem, m': Mem)
    requires s.Loop? && s.header.For? && s.header.to.Present? && Round(w, fuel, cfg, sc, s, b, c, m, m')
    requires Read(m, NextSlot(sc)) == Ok(RT.Int(i))
    ensures EvalGuard(w, fuel, cfg, sc, s, m) == Ok((Goes(c, i, b), m))
  {
    hide EvalBlock, EvalExpr, EvalStep, EvalHalf, EvalStmt, Invoke, RT.Binop;
    HalfGoes(w, fuel, cfg, sc, s, GT, LEQ, i, b, c, m, m');
    HalfGoes(w, fuel, cfg, sc, s, LEQ, GEQ, i, b, c, m, m');
    Conjoined(w.lib, m.heap, c > 0 && i <= b, c <= 0 && i >= b);
  }

  lemma Compared(lib: RT.Library, h: RT.Heap, op: Op, x: int, y: int)
    requires op in {LT, LEQ, GT, GEQ}
    ensures RT.Binop(lib, h, op, RT.Int(x), RT.Int(y)) == Ok((RT.Bool(RT.CompareInts(op, x, y)), h))
  {
  }

  lemma Conjoined(lib: RT.Library, h: RT.Heap, p: bool, q: bool)
    ensures RT.Binop(lib, h, AND, RT.Bool(p), RT.Bool(q)) == Ok((RT.Bool(p && q), h))
    ensures RT.Binop(lib, h, OR, RT.Bool(p), RT.Bool(q)) == Ok((RT.Bool(p || q), h))
  {
  }

  lemma HalfGoes(w: World, fuel: nat, cfg: Config, sc: Scope, s: Stmt, sign: Op, side: Op, i: int, b: int, c: int, m: Mem, m': Mem)
    requires s.Loop? && s.header.For? && s.header.to.Present? && Round(w, fuel, cfg, sc, s, b, c, m, m')
    requires Read(m, NextSlot(sc)) == Ok(RT.Int(i)) && sign in {LT, LEQ, GT, GEQ} && side in {LT, LEQ, GT, GEQ}
    ensures EvalHalf(w, fuel, cfg, sc, s, sign, side, m) ==
      Ok((RT.Bool(RT.CompareInts(sign, c, 0) && RT.CompareInts(side, i, b)), m))
  {
    hide EvalBlock, EvalExpr, EvalStep, EvalStmt, Invoke, RT.Binop;
    Compared(w.lib, m.heap, sign, c, 0);
    Compared(w.lib, m.heap, side, i, b);
    Conjoined(w.lib, m.heap, RT.CompareInts(sign, c, 0), RT.CompareInts(side, i, b));
  }

  lemma SteadyRound(w: World, least: nat, fuel: nat, cfg: Config, sc: Scope, s: Stmt, b: int, c: int,
                    inv: Mem -> bool, body: Mem -> Mem, m: Mem, next: int)
    requires Steady(w, least, cfg, sc, s, b, c, inv, body) && inv(m) && fuel >= least
    ensures s.Loop? && s.header.For? && s.header.to.Present? && Round(w, fuel, cfg, sc, s, b, c, m, body(m))
    ensures Write(body(m), NextSlot(sc), RT.Int(next)).Ok? ==> inv(Write(body(m), NextSlot(sc), RT.Int(next)).value)
  {
    hide Round, Read, Write;
  }

  lemma OneRound(w: World, fuel: nat, cfg: Config, sc: Scope, s: Stmt, a: int, b: int, c: int, m: Mem, m': Mem)
    requires s.Loop? && s.header.For? && s.header.to.Present? && Round(w, fuel, cfg, sc, s, b, c, m, m')
    requires Read(m, NextSlot(sc)) == Ok(RT.Int(a)) && (Goes(c, a, b) ==> fuel > 0 && FitsI32(a + c))
    ensures EvalFor(w, fuel, cfg, sc, s, m) ==
      if !Goes(c, a, b) then Ok((Normal, m))
      else EvalFor(w, fuel - 1, cfg, sc, s, Write(m', NextSlot(sc), RT.Int(a + c)).value)
    ensures Goes(c, a, b) ==> Write(m', NextSlot(sc), RT.Int(a + c)).Ok?
    ensures Goes(c, a, b) ==> Read(Write(m', NextSlot(sc), RT.Int(a + c)).value, NextSlot(sc)) == Ok(RT.Int(a + c))
  {
    hide EvalBlock, EvalExpr, EvalStep, EvalGuard, Goes;
    GuardGoes(w, fuel, cfg, sc, s, a, b, c, m, m');
  }

  /** With steady bounds and no overflow the body runs exactly
      max(0, floor((b - a) / c) + 1) times, whatever the sign of the step. */
  lemma {:induction false} ForCounts(w: World, least: nat, fuel: nat, cfg: Config, sc: Scope, s: Stmt, a: int, b: int, c: int,
                                     inv: Mem -> bool, body: Mem -> Mem, m: Mem)
    requires Steady(w, least, cfg, sc, s, b, c, inv, body) && inv(m) && c != 0
    requires Read(m, NextSlot(sc)) == Ok(RT.Int(a))
    requires FitsI32(a) && FitsI32(a + Trips(a, b, c) * c) && fuel >= least + Trips(a, b, c)
    ensures EvalFor(w, fuel, cfg, sc, s, m) == Ok((Normal, Rounds(body, NextSlot(sc), a, c, Trips(a, b, c), m)))
    decreases Trips(a, b, c)
  {
    hide Steady, EvalFor, EvalBlock, EvalExpr, EvalStep, EvalGuard, Trips, Round, Goes, Read, Write;
    SteadyRound(w, least, fuel, cfg, sc, s, b, c, inv, body, m, a + c);
    TripsStep(a, b, c);
    if Trips(a, b, c) > 0 { WithinRange(a, Trips(a, b, c), c); }
    OneRound(w, fuel, cfg, sc, s, a, b, c, m, body(m));
    if Goes(c, a, b) {
      var m4 := Write(body(m), NextSlot(sc), RT.Int(a + c)).value;
      ForCounts(w, least, fuel - 1, cfg, sc, s, a + c, b, c, inv, body, m4);
    }
  }

  lemma WithinRange(a: int, n: nat, c: int)
    requires n > 0 && FitsI32(a) && FitsI32(a + n * c)
    ensures FitsI32(a + c) && a + n * c == a + c + (n - 1) * c
  {
    if c > 0 { assert n * c >= c by { assert n * c == (n - 1) * c + c; } }
    else { assert n * c <= c by { assert n * c == (n - 1) * c + c; assert (n - 1) * -c >= 0; } }
  }
}
