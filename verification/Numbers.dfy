/** Machine integers: 32-bit truncation, SMI boxing, and floor division built from
    truncating division (runtime/arithmetic.c, crates/vm-interp/src/object.rs). */
module Numbers {
  import opened Results

  const TWO32 := 0x1_0000_0000

  predicate FitsI32(n: int) { -0x8000_0000 <= n < 0x8000_0000 }

  /** `n as i32`: the low 32 bits, sign-extended. */
  function AsI32(n: int): (r: int)
    ensures FitsI32(r) && (r - n) % TWO32 == 0
    ensures FitsI32(n) ==> r == n
  {
    var low := n % TWO32;
    if low < 0x8000_0000 then low else low - TWO32
  }

  // Tagged words. An SMI keeps its integer in the upper half of a 64-bit word.

  function WordOfInt(n: int): (w: int)
    ensures 0 <= w < 0x1_0000_0000_0000_0000
  {
    (n % TWO32) * TWO32
  }

  function WordOfBool(b: bool): int { if b then 5 else 1 }

  predicate IsSmiWord(w: int) { w % 4 == 0 }

  predicate IsBoolWord(w: int) { w % 4 == 1 }

  /** Arithmetic shift right by 32 of the word read as a signed 64-bit integer. */
  function IntOfWord(w: int): int {
    (if w < 0x8000_0000_0000_0000 then w else w - 0x1_0000_0000_0000_0000) / TWO32
  }

  function BoolOfWord(w: int): bool { (w / 4) % 2 != 0 }

  /** Boxing then unboxing keeps exactly the low 32 bits, and the tags never clash. */
  lemma BoxRoundTrip(n: int, b: bool)
    ensures IntOfWord(WordOfInt(n)) == AsI32(n)
    ensures IsSmiWord(WordOfInt(n)) && !IsBoolWord(WordOfInt(n))
    ensures IsBoolWord(WordOfBool(b)) && !IsSmiWord(WordOfBool(b)) && BoolOfWord(WordOfBool(b)) == b
  {
    var low := n % TWO32;
    assert WordOfInt(n) == low * TWO32;
    assert (low * TWO32) % 4 == 0;
    if low < 0x8000_0000 {
    } else {
      assert low * TWO32 - 0x1_0000_0000_0000_0000 == (low - TWO32) * TWO32;
    }
  }

  // Division

  /** C and Rust integer division: toward zero. */
  function TruncDiv(a: int, b: int): int
    requires b != 0
  {
    if a >= 0 then a / b else -((-a) / b)
  }

  function TruncRem(a: int, b: int): int
    requires b != 0
  {
    a - TruncDiv(a, b) * b
  }

  /** `//` of the runtime and of the VM fast path. */
  function FloorQuotient(a: int, b: int): int
    requires b != 0
  {
    var quotient := TruncDiv(a, b);
    var remainder := TruncRem(a, b);
    if remainder != 0 && ((remainder < 0) != (b < 0)) then quotient - 1 else quotient
  }

  /** `/%` of the runtime and of the VM fast path. */
  function FloorRemainder(a: int, b: int): int
    requires b != 0
  {
    var remainder := TruncRem(a, b);
    if remainder != 0 && ((remainder < 0) != (b < 0)) then remainder + b else remainder
  }

  lemma TruncRemBound(a: int, b: int)
    requires b != 0
    ensures a >= 0 ==> 0 <= TruncRem(a, b) < Magnitude(b)
    ensures a <= 0 ==> -Magnitude(b) < TruncRem(a, b) <= 0
  {
    var m := if a >= 0 then a else -a;
    assert m == (m / b) * b + m % b && 0 <= m % b < Magnitude(b);
    if a < 0 {
      assert TruncRem(a, b) == a + ((-a) / b) * b == -(m % b);
    }
  }

  function Magnitude(b: int): int { if b < 0 then -b else b }

  /** The pair is the floor division: it recomposes, and the remainder is on the divisor's side. */
  lemma FloorDivision(a: int, b: int)
    requires b != 0
    ensures a == FloorQuotient(a, b) * b + FloorRemainder(a, b)
    ensures b > 0 ==> 0 <= FloorRemainder(a, b) < b
    ensures b < 0 ==> b < FloorRemainder(a, b) <= 0
  {
    TruncRemBound(a, b);
    var q, r := TruncDiv(a, b), TruncRem(a, b);
    assert a == q * b + r;
    assert (q - 1) * b == q * b - b;
  }

  /** Such a pair is unique, so quotient and remainder are determined by those facts. */
  lemma FloorDivisionUnique(a: int, b: int, q: int, r: int)
    requires b != 0 && a == q * b + r
    requires (b > 0 ==> 0 <= r < b) && (b < 0 ==> b < r <= 0)
    ensures q == FloorQuotient(a, b) && r == FloorRemainder(a, b)
  {
    FloorDivision(a, b);
    var k := q - FloorQuotient(a, b);
    assert k * b == q * b - FloorQuotient(a, b) * b;
    if k != 0 { MultipleIsLarge(k, b); }
  }

  lemma MultipleIsLarge(k: int, b: int)
    requires k != 0
    ensures Magnitude(k * b) >= Magnitude(b)
  {
    var k', b' := Magnitude(k), Magnitude(b);
    assert k' * b' >= b' by { AtLeastOnce(k', b'); }
    assert k * b == k' * b' || k * b == -(k' * b');
  }

  lemma AtLeastOnce(k: int, b: int)
    requires k >= 1 && b >= 0
    ensures k * b >= b
  {
    assert k * b == (k - 1) * b + b;
  }

  /** The specification's own algorithm for `a // b`: repeated subtraction or addition
      (doc/archive/spec_old.md, clause 16), which demands a positive divisor. */
  method SpecIntegerDivision(a: int, b: int) returns (res: int)
    requires b > 0
    ensures res == FloorQuotient(a, b)
  {
    var x := a;
    res := 0;
    if x >= 0 {
      while x >= b
        invariant x >= 0 && a == res * b + x
        decreases x
      {
        x := x - b;
        res := res + 1;
      }
      FloorDivisionUnique(a, b, res, x);
    } else {
      while -x >= b
        invariant x <= 0 && a == res * b + x
        decreases -x
      {
        x := x + b;
        res := res - 1;
      }
      if x != 0 {
        res := res - 1;
        assert a == res * b + (x + b);
        FloorDivisionUnique(a, b, res, x + b);
      } else {
        FloorDivisionUnique(a, b, res, 0);
      }
    }
  }
}
