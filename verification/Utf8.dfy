/** The UTF-8 codec of the runtime (runtime/core.c). Masks and shifts are written as
    division and remainder by powers of two; the pieces joined by `|` never overlap. */
module Utf8 {
  import opened Results
  import opened Bytecode

  /** A C string's bytes, its terminating zero left out. */
  predicate NulFree(s: seq<Byte>) { forall i :: 0 <= i < |s| ==> s[i] != 0 }

  /** How many bytes the decoder consumes for this leading byte. */
  function Width(lead: Byte): (n: nat)
    ensures 1 <= n <= 4
  {
    if lead < 0x80 then 1 else if lead < 0xE0 then 2 else if lead < 0xF0 then 3 else 4
  }

  function Join2(a: int, b: int): int { a % 32 * 64 + b % 64 }

  function Join3(a: int, b: int, c: int): int { a % 16 * 4096 + b % 64 * 64 + c % 64 }

  function Join4(a: int, b: int, c: int, d: int): int {
    a % 8 * 262144 + b % 64 * 4096 + c % 64 * 64 + d % 64
  }

  /** One code point; a sequence cut short by the end of the string reads past it. */
  function DecodeOne(s: seq<Byte>): (r: Result<int>)
    requires s != []
    ensures r.Ok? <==> Width(s[0]) <= |s|
  {
    if Width(s[0]) > |s| then Err(Undefined)
    else if Width(s[0]) == 1 then Ok(s[0])
    else if Width(s[0]) == 2 then Ok(Join2(s[0], s[1]))
    else if Width(s[0]) == 3 then Ok(Join3(s[0], s[1], s[2]))
    else Ok(Join4(s[0], s[1], s[2], s[3]))
  }

  function DecodeAll(s: seq<Byte>): (r: Result<seq<int>>) {
    if s == [] then Ok([])
    else
      var cp :- DecodeOne(s);
      var rest :- DecodeAll(s[Width(s[0])..]);
      Ok([cp] + rest)
  }

  /** Unicode code points the codec can carry: a zero would end the C string. */
  predicate Encodable(cp: int) { 0 < cp <= 0x10FFFF }

  function EncodeOne(cp: int): (bs: seq<Byte>)
    requires 0 <= cp <= 0x10FFFF
    ensures 1 <= |bs| <= 4
  {
    if cp < 0x80 then [cp]
    else if cp < 0x800 then [0xC0 + cp / 64, 0x80 + cp % 64]
    else if cp < 0x10000 then [0xE0 + cp / 4096, 0x80 + cp / 64 % 64, 0x80 + cp % 64]
    else [0xF0 + cp / 262144, 0x80 + cp / 4096 % 64, 0x80 + cp / 64 % 64, 0x80 + cp % 64]
  }

  predicate AllEncodable(cps: seq<int>) { forall cp :: cp in cps ==> Encodable(cp) }

  function EncodeAll(cps: seq<int>): (bs: seq<Byte>)
    requires AllEncodable(cps)
  {
    if cps == [] then [] else assert Encodable(cps[0]); EncodeOne(cps[0]) + EncodeAll(cps[1..])
  }

  lemma By64(q: int, r: int)
    requires 0 <= r < 64
    ensures (q * 64 + r) / 64 == q && (q * 64 + r) % 64 == r
  {
  }

  lemma By4096(q: int, r: int)
    requires 0 <= r < 4096
    ensures (q * 4096 + r) / 4096 == q
  {
  }

  lemma By262144(q: int, r: int)
    requires 0 <= r < 262144
    ensures (q * 262144 + r) / 262144 == q
  {
  }

  /** Base-64 digits: the arithmetic behind every mask and shift. */
  lemma Digits(a: int, b: int, c: int, d: int)
    requires 0 <= b < 64 && 0 <= c < 64 && 0 <= d < 64
    ensures var cp := a * 262144 + b * 4096 + c * 64 + d;
      cp % 64 == d && cp / 64 % 64 == c && cp / 4096 == a * 64 + b && cp / 4096 % 64 == b && cp / 262144 == a
  {
    By64(a * 4096 + b * 64 + c, d);
    By64(a * 64 + b, c);
    By64(a, b);
    By4096(a * 64 + b, c * 64 + d);
    By262144(a, b * 4096 + c * 64 + d);
  }

  lemma DigitsOf(cp: int)
    ensures cp == cp / 262144 * 262144 + cp / 4096 % 64 * 4096 + cp / 64 % 64 * 64 + cp % 64
    ensures cp / 4096 == cp / 262144 * 64 + cp / 4096 % 64
    ensures cp / 64 == cp / 4096 * 64 + cp / 64 % 64
  {
    var high := cp / 64 / 64;
    By4096(high, cp / 64 % 64 * 64 + cp % 64);
    By262144(high / 64, high % 64 * 4096 + cp / 64 % 64 * 64 + cp % 64);
  }

  /** A mask takes a byte's marker off its payload. */
  lemma Masked(marker: int, payload: int, width: int)
    requires (width == 64 && marker == 0x80) || (width == 32 && marker == 0xC0) || (width == 16 && marker == 0xE0) || (width == 8 && marker == 0xF0)
    requires 0 <= payload < width
    ensures (marker + payload) % width == payload
  {
  }

  /** Each joined value gives its pieces back. */
  lemma Split(cp: int)
    requires 0 <= cp <= 0x10FFFF
    ensures cp < 0x800 ==> Join2(0xC0 + cp / 64, 0x80 + cp % 64) == cp
    ensures cp < 0x10000 ==> Join3(0xE0 + cp / 4096, 0x80 + cp / 64 % 64, 0x80 + cp % 64) == cp
    ensures Join4(0xF0 + cp / 262144, 0x80 + cp / 4096 % 64, 0x80 + cp / 64 % 64, 0x80 + cp % 64) == cp
  {
    DigitsOf(cp);
    Masked(0x80, cp % 64, 64);
    Masked(0x80, cp / 64 % 64, 64);
    Masked(0x80, cp / 4096 % 64, 64);
    if cp < 0x800 { Masked(0xC0, cp / 64, 32); }
    if cp < 0x10000 { Masked(0xE0, cp / 4096, 16); }
    Masked(0xF0, cp / 262144, 8);
  }

  lemma DecodeEncodeOne(cp: int, rest: seq<Byte>)
    requires Encodable(cp)
    ensures DecodeOne(EncodeOne(cp) + rest) == Ok(cp)
    ensures Width(EncodeOne(cp)[0]) == |EncodeOne(cp)|
    ensures NulFree(EncodeOne(cp))
  {
    Split(cp);
    var e := EncodeOne(cp);
    var s := e + rest;
    assert s[0] == e[0];
    if |e| >= 2 { assert s[1] == e[1]; }
    if |e| >= 3 { assert s[2] == e[2]; }
    if |e| == 4 { assert s[3] == e[3]; }
  }

  /** Decoding the concatenated encodings of code points gives them back, for every
      sequence; the text fits the `count * 4 + 1` buffer and holds no inner terminator. */
  lemma {:induction false} DecodeUndoesEncode(cps: seq<int>)
    requires AllEncodable(cps)
    ensures DecodeAll(EncodeAll(cps)) == Ok(cps)
    ensures NulFree(EncodeAll(cps)) && |EncodeAll(cps)| + 1 <= |cps| * 4 + 1
  {
    if cps != [] {
      assert Encodable(cps[0]);
      var first, rest := EncodeOne(cps[0]), EncodeAll(cps[1..]);
      DecodeEncodeOne(cps[0], rest);
      DecodeUndoesEncode(cps[1..]);
      assert (first + rest)[0] == first[0];
      assert (first + rest)[|first|..] == rest;
      assert [cps[0]] + cps[1..] == cps;
    }
  }

  predicate Tail(b: Byte) { 0x80 <= b <= 0xBF }

  /** One UTF8-char of the grammar in section 4 of RFC 3629 stands at the front. */
  predicate CharAtFront(s: seq<Byte>)
    requires s != []
  {
    || s[0] <= 0x7F
    || (0xC2 <= s[0] <= 0xDF && |s| >= 2 && Tail(s[1]))
    || (|s| >= 3 && Tail(s[2]) && SecondOfThree(s[0], s[1]))
    || (|s| >= 4 && Tail(s[2]) && Tail(s[3]) && SecondOfFour(s[0], s[1]))
  }

  predicate SecondOfThree(first: Byte, second: Byte) {
    || (first == 0xE0 && 0xA0 <= second <= 0xBF)
    || (0xE1 <= first <= 0xEC && Tail(second))
    || (first == 0xED && 0x80 <= second <= 0x9F)
    || (0xEE <= first <= 0xEF && Tail(second))
  }

  predicate SecondOfFour(first: Byte, second: Byte) {
    || (first == 0xF0 && 0x90 <= second <= 0xBF)
    || (0xF1 <= first <= 0xF3 && Tail(second))
    || (first == 0xF4 && 0x80 <= second <= 0x8F)
  }

  predicate WellFormed(s: seq<Byte>) {
    s == [] || (CharAtFront(s) && Width(s[0]) <= |s| && WellFormed(s[Width(s[0])..]))
  }

  predicate IsSurrogate(cp: int) { 0xD800 <= cp <= 0xDFFF }

  /** A code point some UTF-8 string can hold before its terminator. */
  predicate Scalar(cp: int) { Encodable(cp) && !IsSurrogate(cp) }

  lemma EncodeDecodeOne(s: seq<Byte>)
    requires s != [] && CharAtFront(s) && s[0] != 0
    ensures Width(s[0]) <= |s| && DecodeOne(s).Ok? && Scalar(DecodeOne(s).value)
    ensures EncodeOne(DecodeOne(s).value) == s[..Width(s[0])]
  {
    hide Join2, Join3, Join4;
    var n := Width(s[0]);
    if n == 2 {
      Resplit2(s[0], s[1]);
      assert s[..2] == [s[0], s[1]];
    } else if n == 3 {
      Resplit3(s[0], s[1], s[2]);
      assert s[..3] == [s[0], s[1], s[2]];
    } else if n == 4 {
      Resplit4(s[0], s[1], s[2], s[3]);
      assert s[..4] == [s[0], s[1], s[2], s[3]];
    }
  }

  /** A continuation byte's low six bits. */
  lemma LowSix(b: int)
    requires 0x80 <= b <= 0xBF
    ensures b % 64 == b - 0x80
  {
  }

  lemma Resplit2(a: int, b: int)
    requires 0xC2 <= a <= 0xDF && 0x80 <= b <= 0xBF
    ensures 0x80 <= Join2(a, b) < 0x800
    ensures 0xC0 + Join2(a, b) / 64 == a && 0x80 + Join2(a, b) % 64 == b
  {
    LowSix(b);
    By64(a - 0xC0, b - 0x80);
  }

  lemma Resplit3(a: int, b: int, c: int)
    requires 0xE0 <= a <= 0xEF && 0x80 <= b <= 0xBF && 0x80 <= c <= 0xBF
    requires (a == 0xE0 ==> 0xA0 <= b) && (a == 0xED ==> b <= 0x9F)
    ensures 0x800 <= Join3(a, b, c) < 0x10000 && !IsSurrogate(Join3(a, b, c))
    ensures 0xE0 + Join3(a, b, c) / 4096 == a
    ensures 0x80 + Join3(a, b, c) / 64 % 64 == b && 0x80 + Join3(a, b, c) % 64 == c
  {
    LowSix(b);
    LowSix(c);
    Digits(0, a - 0xE0, b - 0x80, c - 0x80);
  }

  lemma Resplit4(a: int, b: int, c: int, d: int)
    requires 0xF0 <= a <= 0xF4 && 0x80 <= b <= 0xBF && 0x80 <= c <= 0xBF && 0x80 <= d <= 0xBF
    requires (a == 0xF0 ==> 0x90 <= b) && (a == 0xF4 ==> b <= 0x8F)
    ensures 0x10000 <= Join4(a, b, c, d) <= 0x10FFFF
    ensures 0xF0 + Join4(a, b, c, d) / 262144 == a && 0x80 + Join4(a, b, c, d) / 4096 % 64 == b
    ensures 0x80 + Join4(a, b, c, d) / 64 % 64 == c && 0x80 + Join4(a, b, c, d) % 64 == d
  {
    hide Join4;
    Joined4(a, b, c, d);
    Digits(a - 0xF0, b - 0x80, c - 0x80, d - 0x80);
  }

  lemma Joined4(a: int, b: int, c: int, d: int)
    requires 0xF0 <= a <= 0xF4 && 0x80 <= b <= 0xBF && 0x80 <= c <= 0xBF && 0x80 <= d <= 0xBF
    ensures Join4(a, b, c, d) == (a - 0xF0) * 262144 + (b - 0x80) * 4096 + (c - 0x80) * 64 + (d - 0x80)
  {
    LowSix(b);
    LowSix(c);
    LowSix(d);
  }

  predicate AllScalar(cps: seq<int>) { forall cp :: cp in cps ==> Scalar(cp) }

  /** Re-encoding any well-formed, NUL-free UTF-8 string returns it byte for byte. */
  lemma {:induction false} EncodeUndoesDecode(s: seq<Byte>)
    requires WellFormed(s) && NulFree(s)
    ensures DecodeAll(s).Ok? && AllScalar(DecodeAll(s).value)
    ensures EncodeAll(DecodeAll(s).value) == s
  {
    if s != [] {
      EncodeDecodeOne(s);
      var n := Width(s[0]);
      EncodeUndoesDecode(s[n..]);
      assert s == s[..n] + s[n..];
      assert DecodeAll(s).value[1..] == DecodeAll(s[n..]).value;
    }
  }

  /** Every sequence of Unicode scalar values encodes to a well-formed string. */
  lemma {:induction false} EncodeIsWellFormed(cps: seq<int>)
    requires AllScalar(cps)
    ensures AllEncodable(cps) && WellFormed(EncodeAll(cps))
  {
    if cps != [] {
      assert Scalar(cps[0]) && AllScalar(cps[1..]);
      assert AllEncodable(cps[1..]);
      EncodeOneAtFront(cps[0], EncodeAll(cps[1..]));
      EncodeIsWellFormed(cps[1..]);
    }
  }

  lemma EncodeOneAtFront(cp: int, rest: seq<Byte>)
    requires Scalar(cp)
    ensures CharAtFront(EncodeOne(cp) + rest)
    ensures (EncodeOne(cp) + rest)[Width(EncodeOne(cp)[0])..] == rest
  {
    var e := EncodeOne(cp);
    var s := e + rest;
    assert s[0] == e[0];
    if |e| >= 2 { assert s[1] == e[1]; }
    if |e| >= 3 { assert s[2] == e[2]; }
    if |e| == 4 { assert s[3] == e[3]; }
    assert s[|e|..] == rest;
    if |e| == 3 {
      assert cp / 4096 == 0 ==> cp / 64 % 64 >= 32;
      assert cp / 4096 == 13 ==> cp / 64 % 64 < 32;
    } else if |e| == 4 {
      assert cp / 262144 == 0 ==> cp / 4096 % 64 >= 16;
      assert cp / 262144 == 4 ==> cp / 4096 % 64 < 16;
    }
  }

  /** What the loop still has to deliver once it has produced `done`. */
  function After(done: seq<int>, rest: Result<seq<int>>): Result<seq<int>> {
    match rest case Ok(cps) => Ok(done + cps) case Err(e) => Err(e)
  }

  lemma AfterNothing(rest: Result<seq<int>>)
    ensures After([], rest) == rest
  {
    if rest.Ok? { assert [] + rest.value == rest.value; }
  }

  lemma AfterStep(done: seq<int>, s: seq<Byte>)
    requires s != []
    ensures After(done, DecodeAll(s)) ==
      match DecodeOne(s) {
        case Ok(cp) => After(done + [cp], DecodeAll(s[Width(s[0])..]))
        case Err(e) => Err(e)
      }
  {
    if DecodeAll(s).Ok? {
      assert done + DecodeAll(s).value == done + [DecodeOne(s).value] + DecodeAll(s[Width(s[0])..]).value;
    }
  }

  /** A buffer of twice the size with the same contents. */
  method Grow(cps: array<int>, count: nat) returns (bigger: array<int>)
    requires count <= cps.Length && 0 < cps.Length
    ensures fresh(bigger) && bigger.Length == cps.Length * 2 && bigger[..count] == cps[..count]
  {
    bigger := new int[cps.Length * 2];
    forall i | 0 <= i < count { bigger[i] := cps[i]; }
  }

  lemma DecodeStops(done: seq<int>, s: seq<Byte>)
    requires s == []
    ensures After(done, DecodeAll(s)) == Ok(done)
  {
    assert done + [] == done;
  }

  /** The decoding loop over a growing buffer. */
  method DecodeText(s: array<Byte>) returns (r: Result<seq<int>>)
    ensures r == DecodeAll(s[..])
  {
    hide DecodeAll, After, DecodeOne, Width;
    ghost var src := s[..];
    var count := 0;
    var cps := new int[16];
    var p := 0;
    AfterNothing(DecodeAll(src));
    assert cps[..0] == [] && src[0..] == src;
    while p < s.Length
      invariant 0 <= p <= s.Length && s[..] == src && fresh(cps)
      invariant 0 < cps.Length && 0 <= count <= cps.Length
      invariant DecodeAll(src) == After(cps[..count], DecodeAll(src[p..]))
      decreases s.Length - p
    {
      ghost var done := cps[..count];
      assert s[p..] == src[p..] && src[p..][0] == s[p];
      AfterStep(done, src[p..]);
      var one := DecodeOne(s[p..]);
      if one.Err? { return Err(one.fault); }
      if count >= cps.Length { cps := Grow(cps, count); }
      cps[count] := one.value;
      count := count + 1;
      assert cps[..count] == done + [one.value];
      var width := Width(s[p]);
      assert src[p..][width..] == src[p + width..];
      p := p + width;
    }
    DecodeStops(cps[..count], src[p..]);
    r := Ok(cps[..count]);
  }

  /** Writes one code point at `pos` and returns the position after it. */
  method EncodeInto(cp: int, buf: array<Byte>, pos: nat) returns (next: nat)
    requires 0 <= cp <= 0x10FFFF && pos + |EncodeOne(cp)| <= buf.Length
    modifies buf
    ensures next == pos + |EncodeOne(cp)|
    ensures buf[..next] == old(buf[..pos]) + EncodeOne(cp)
  {
    if cp < 0x80 {
      next := Put(cp, buf, pos);
    } else if cp < 0x800 {
      next := Put(0xC0 + cp / 64, buf, pos);
      next := Put(0x80 + cp % 64, buf, next);
    } else if cp < 0x10000 {
      next := Put(0xE0 + cp / 4096, buf, pos);
      next := Put(0x80 + cp / 64 % 64, buf, next);
      next := Put(0x80 + cp % 64, buf, next);
    } else {
      next := Put(0xF0 + cp / 262144, buf, pos);
      next := Put(0x80 + cp / 4096 % 64, buf, next);
      next := Put(0x80 + cp / 64 % 64, buf, next);
      next := Put(0x80 + cp % 64, buf, next);
    }
  }

  method Put(b: Byte, buf: array<Byte>, pos: nat) returns (next: nat)
    requires pos < buf.Length
    modifies buf
    ensures next == pos + 1 && buf[..next] == old(buf[..pos]) + [b]
  {
    buf[pos] := b;
    next := pos + 1;
  }

  function EncodeFrom(cps: seq<int>, i: nat): seq<Byte>
    requires AllEncodable(cps) && i <= |cps|
  {
    assert forall cp :: cp in cps[i..] ==> cp in cps;
    EncodeAll(cps[i..])
  }

  lemma EncodeFromStep(cps: seq<int>, i: nat)
    requires AllEncodable(cps) && i < |cps|
    ensures Encodable(cps[i]) && EncodeFrom(cps, i) == EncodeOne(cps[i]) + EncodeFrom(cps, i + 1)
  {
    assert cps[i] in cps;
    assert cps[i..][1..] == cps[i + 1..];
  }

  /** Text to C string: the `count * 4 + 1` buffer always suffices. */
  method EncodeText(cps: seq<int>) returns (buf: array<Byte>, pos: nat)
    requires AllEncodable(cps)
    ensures fresh(buf) && pos < buf.Length == |cps| * 4 + 1
    ensures buf[..pos] == EncodeAll(cps) && buf[pos] == 0
  {
    hide EncodeOne, EncodeAll;
    buf := new Byte[|cps| * 4 + 1](_ => 0);
    pos := 0;
    var i := 0;
    assert buf[..0] + EncodeFrom(cps, 0) == EncodeAll(cps) by { assert cps[0..] == cps; }
    while i < |cps|
      invariant 0 <= i <= |cps| && pos <= i * 4 && fresh(buf) && buf.Length == |cps| * 4 + 1
      invariant EncodeAll(cps) == buf[..pos] + EncodeFrom(cps, i)
    {
      EncodeFromStep(cps, i);
      ghost var done := buf[..pos];
      pos := EncodeInto(cps[i], buf, pos);
      Regroup(done, EncodeOne(cps[i]), EncodeFrom(cps, i + 1));
      i := i + 1;
    }
    EncodeFromEnd(cps);
    buf[pos] := 0;
    assert buf[..pos] + [] == buf[..pos];
  }

  lemma Regroup(a: seq<Byte>, b: seq<Byte>, c: seq<Byte>)
    ensures a + (b + c) == a + b + c
  {
  }

  lemma EncodeFromEnd(cps: seq<int>)
    requires AllEncodable(cps)
    ensures EncodeFrom(cps, |cps|) == []
  {
  }
}
