/** The lexer in the writer's terms: a line of tokens, each written as the language says and
    separated by single spaces, reads back as exactly those tokens, numbers with their values
    (crates/compiler-core/src/lexer.rs). */
module LineLaws {
  import opened Results
  import opened Tokens
  import opened Lexing
  import Scoping

  // ---------------------------------------------------------------- numbers

  /** Reading the decimal spelling of a number gives the number back. */
  lemma {:induction false} DecimalRoundTrip(n: nat)
    ensures (forall c :: c in Scoping.Decimal(n) ==> Digit(c)) && Decimal(Scoping.Decimal(n)) == n
    decreases n
  {
    if n >= 10 {
      DecimalRoundTrip(n / 10);
      DigitIs(n % 10);
      DigitsAppend(Scoping.Decimal(n / 10), "0123456789"[n % 10]);
    } else {
      DigitIs(n);
      DigitsAppend("", "0123456789"[n]);
      assert "" + ["0123456789"[n]] == Scoping.Decimal(n);
    }
  }

  lemma DigitIs(d: nat)
    requires d < 10
    ensures var c := "0123456789"[d]; Digit(c) && c as int - '0' as int == d
  {
  }

  function Zeros(z: nat): string { seq(z, _ => '0') }

  /** Leading zeros do not count. */
  lemma {:induction false} ZerosIgnored(z: nat, s: string)
    requires forall c :: c in s ==> Digit(c)
    ensures (forall c :: c in Zeros(z) + s ==> Digit(c)) && Decimal(Zeros(z) + s) == Decimal(s)
    decreases z + |s|
  {
    if s != "" {
      ZerosIgnored(z, s[..|s| - 1]);
      assert (Zeros(z) + s)[..z + |s| - 1] == Zeros(z) + s[..|s| - 1];
    } else if z > 0 {
      ZerosIgnored(z - 1, s);
      assert (Zeros(z) + s)[..z - 1] == Zeros(z - 1) + s;
    }
  }

  /** The digit before the last one counts ten times as much. */
  lemma {:induction false} DigitsAppend(s: string, c: char)
    requires (forall d :: d in s ==> Digit(d)) && Digit(c)
    ensures (forall d :: d in s + [c] ==> Digit(d)) && Decimal(s + [c]) == 10 * Decimal(s) + (c as int - '0' as int)
  {
    assert (s + [c])[..|s|] == s;
  }

  /** The Cyrillic е of an exponent is taken for the Latin one, and nothing else changes. */
  lemma {:induction false} InLatinIs(s: string)
    ensures |InLatin(s)| == |s| && forall i :: 0 <= i < |s| ==> InLatin(s)[i] == if s[i] == 'е' then 'e' else s[i]
    decreases |s|
  {
    if s != "" { InLatinIs(s[1..]); }
  }

  // ---------------------------------------------------------------- how tokens are written

  predicate AllDigits(s: string) { s != "" && forall c :: c in s ==> Digit(c) }

  /** Characters that begin or end something other than a word. */
  predicate Special(c: char) { Digit(c) || Blank(c) || c in "\"\\+-*/#=:<>.,()[]%" }

  /** An alphabet whose letters are no figures, blanks or signs, and which has the letters the
      keywords are written with. */
  ghost predicate Usual(abc: Alphabet) {
    && (forall c :: abc.letter(c) ==> !Special(c) && c != '_')
    && (forall k: Keyword, i :: 0 <= i < |k.Spelling()| ==> abc.letter(k.Spelling()[i]))
  }

  predicate FractionWritten(s: string) { s == "" || (s[0] == '.' && forall c :: c in s[1..] ==> Digit(c)) }

  predicate ExponentWritten(s: string) {
    s == "" || (s[0] in "eе"
      && ((forall c :: c in s[1..] ==> Digit(c)) || (|s| > 1 && s[1] in "+-" && forall c :: c in s[2..] ==> Digit(c))))
  }

  /** A real number: digits with a fraction, an exponent, or both. */
  predicate RealParts(s: string, whole: string, fraction: string, exponent: string) {
    AllDigits(whole) && FractionWritten(fraction) && ExponentWritten(exponent) && fraction + exponent != "" && s == whole + fraction + exponent
  }

  /** A token and a way to write it. */
  datatype Piece = Piece(token: Token, text: string)

  ghost predicate Writes(abc: Alphabet, p: Piece) {
    match p.token
    case Word(k) => p.text == k.Spelling()
    case Ident(name) => p.text == name && NameWritten(abc, name)
    case Sign(o) => p.text == [o.First()] + (if o.Second().Some? then [o.Second().value] else [])
    case Integer(n) => n < 0x8000_0000_0000_0000 && exists z: nat :: p.text == Zeros(z) + Scoping.Decimal(n)
    case Real(double) =>
      && abc.parse(InLatin(p.text)) == Some(double)
      && exists whole, fraction, exponent :: RealParts(p.text, whole, fraction, exponent)
    case Text(content) => p.text == "\"" + Escaped(content) + "\""
    case _ => false
  }

  ghost predicate NameWritten(abc: Alphabet, name: string) {
    && name != "" && WordStart(abc, name[0]) && (forall i :: 0 <= i < |name| ==> WordPart(abc, name[i]))
    && forall k: Keyword :: k.Spelling() != name
  }

  // ---------------------------------------------------------------- a written token is spelled

  /** The text stands in the source at `a`, and there the line ends or a space follows. */
  predicate Stands(src: string, a: nat, text: string) {
    a + |text| <= |src| && src[a..a + |text|] == text && (a + |text| == |src| || src[a + |text|] == ' ')
  }

  lemma StandsAt(src: string, a: nat, text: string, i: nat)
    requires Stands(src, a, text) && i < |text|
    ensures src[a + i] == text[i]
  {
    assert src[a..a + |text|][i] == src[a + i];
  }

  lemma {:induction false} DigitsEndIs(src: string, a: nat, b: nat)
    requires a <= b <= |src| && (forall i :: a <= i < b ==> Digit(src[i])) && (b < |src| ==> !Digit(src[b]))
    ensures DigitsEnd(src, a) == b
    decreases b - a
  {
    if a < b { DigitsEndIs(src, a + 1, b); }
  }

  lemma WordSpells(abc: Alphabet, src: string, a: nat, text: string)
    requires Usual(abc) && Stands(src, a, text) && text != "" && WordStart(abc, text[0]) && forall i :: 0 <= i < |text| ==> WordPart(abc, text[i])
    ensures WordSpan(abc, src, a, a + |text|)
  {
    forall i | 0 <= i < |text| ensures src[a + i] == text[i] { StandsAt(src, a, text, i); }
    forall k | a < k < a + |text| ensures WordPart(abc, src[k]) { assert WordPart(abc, text[k - a]); }
    assert a + |text| < |src| ==> Special(src[a + |text|]);
  }

  lemma KeywordWord(abc: Alphabet, k: Keyword)
    requires Usual(abc)
    ensures k.Spelling() != "" && WordStart(abc, k.Spelling()[0]) && forall i :: 0 <= i < |k.Spelling()| ==> WordPart(abc, k.Spelling()[i])
  {
    assert k.Spelling() != "";
  }

  lemma SignSpells(abc: Alphabet, src: string, a: nat, o: Operator)
    requires Stands(src, a, [o.First()] + (if o.Second().Some? then [o.Second().value] else []))
    ensures Spells(abc, src, a, Sign(o), a + o.Width())
  {
    var text := [o.First()] + (if o.Second().Some? then [o.Second().value] else []);
    StandsAt(src, a, text, 0);
    if o.Second().Some? { StandsAt(src, a, text, 1); }
    forall p: Operator | p.At(src, a) ensures p.Width() <= o.Width() { NoSpaceSecond(p); }
  }

  lemma NoSpaceSecond(p: Operator)
    ensures p.Second() != Some(' ')
  {
  }

  lemma IntegerSpells(abc: Alphabet, src: string, a: nat, n: nat, z: nat)
    requires n < 0x8000_0000_0000_0000 && Stands(src, a, Zeros(z) + Scoping.Decimal(n))
    ensures Spells(abc, src, a, Integer(n), a + |Zeros(z) + Scoping.Decimal(n)|)
  {
    hide Scoping.Decimal, Decimal;
    var text := Zeros(z) + Scoping.Decimal(n);
    DecimalRoundTrip(n);
    ZerosIgnored(z, Scoping.Decimal(n));
    forall i | a <= i < a + |text| ensures Digit(src[i]) {
      StandsAt(src, a, text, i - a);
      assert text[i - a] in text;
    }
    DigitsEndIs(src, a, a + |text|);
  }

  lemma RealSpells(abc: Alphabet, src: string, a: nat, s: string, double: nat, whole: string, fraction: string, exponent: string)
    requires Stands(src, a, s) && RealParts(s, whole, fraction, exponent) && abc.parse(InLatin(s)) == Some(double)
    ensures Spells(abc, src, a, Real(double), a + |s|)
  {
    hide InLatin, DigitsEnd, NumberEnd, ExponentWritten, FractionWritten, AllDigits;
    PartsStand(src, a, s, whole, fraction, exponent);
    WholeEnds(src, a, whole, fraction, exponent);
    NumberEnds(src, a, whole, fraction, exponent);
  }

  /** The parts stand in the source one behind the other. */
  predicate PartsAt(src: string, a: nat, whole: string, fraction: string, exponent: string) {
    var b := a + |whole|;
    var c := b + |fraction|;
    var d := c + |exponent|;
    && d <= |src| && (d == |src| || src[d] == ' ')
    && (forall i :: 0 <= i < |whole| ==> src[a + i] == whole[i])
    && (forall i :: 0 <= i < |fraction| ==> src[b + i] == fraction[i])
    && (forall i :: 0 <= i < |exponent| ==> src[c + i] == exponent[i])
  }

  lemma WholeEnds(src: string, a: nat, whole: string, fraction: string, exponent: string)
    requires PartsAt(src, a, whole, fraction, exponent)
    requires AllDigits(whole) && FractionWritten(fraction) && ExponentWritten(exponent) && fraction + exponent != ""
    ensures DigitsEnd(src, a) == a + |whole| > a && |fraction + exponent| > 0
  {
    hide DigitsEnd;
    var b := a + |whole|;
    forall i | a <= i < b ensures Digit(src[i]) { assert whole[i - a] in whole; }
    DigitsEndIs(src, a, b);
  }

  lemma NumberEnds(src: string, a: nat, whole: string, fraction: string, exponent: string)
    requires PartsAt(src, a, whole, fraction, exponent) && DigitsEnd(src, a) == a + |whole|
    requires FractionWritten(fraction) && ExponentWritten(exponent)
    ensures NumberEnd(src, a) == a + |whole| + |fraction| + |exponent|
  {
    hide DigitsEnd, FractionEnd, ExponentEnd, ExponentWritten, FractionWritten;
    var b, c, d := a + |whole|, a + |whole| + |fraction|, a + |whole| + |fraction| + |exponent|;
    FractionSpells(src, b, fraction, c, exponent, d);
    ExponentSpells(src, c, exponent, d);
  }

  lemma PartsStand(src: string, a: nat, s: string, whole: string, fraction: string, exponent: string)
    requires Stands(src, a, s) && s == whole + fraction + exponent
    ensures PartsAt(src, a, whole, fraction, exponent) && |s| == |whole| + |fraction| + |exponent|
  {
    forall i | 0 <= i < |whole| ensures src[a + i] == whole[i] { StandsAt(src, a, s, i); }
    forall i | 0 <= i < |fraction| ensures src[a + |whole| + i] == fraction[i] { StandsAt(src, a, s, |whole| + i); }
    forall i | 0 <= i < |exponent| ensures src[a + |whole| + |fraction| + i] == exponent[i] { StandsAt(src, a, s, |whole| + |fraction| + i); }
  }

  lemma FractionSpells(src: string, b: nat, fraction: string, c: nat, exponent: string, d: nat)
    requires c == b + |fraction| && d == c + |exponent| && d <= |src| && FractionWritten(fraction) && ExponentWritten(exponent)
    requires (forall i :: 0 <= i < |fraction| ==> src[b + i] == fraction[i]) && (forall i :: 0 <= i < |exponent| ==> src[c + i] == exponent[i])
    requires d == |src| || src[d] == ' '
    ensures FractionEnd(src, b) == c
  {
    if fraction != "" {
      forall i | b + 1 <= i < c ensures Digit(src[i]) { assert fraction[1..][i - b - 1] == src[i]; }
      DigitsEndIs(src, b + 1, c);
    }
  }

  lemma ExponentSpells(src: string, c: nat, exponent: string, d: nat)
    requires d == c + |exponent| && d <= |src| && ExponentWritten(exponent) && (d == |src| || src[d] == ' ')
    requires forall i :: 0 <= i < |exponent| ==> src[c + i] == exponent[i]
    ensures ExponentEnd(src, c) == d
  {
    if exponent != "" {
      if |exponent| > 1 && exponent[1] in "+-" {
        assert !Digit(exponent[1]) && exponent[1..][0] in exponent[1..];
        forall i | c + 2 <= i < d ensures Digit(src[i]) { assert exponent[2..][i - c - 2] == src[i]; }
        DigitsEndIs(src, c + 2, d);
      } else {
        forall i | c + 1 <= i < d ensures Digit(src[i]) { assert exponent[1..][i - c - 1] == src[i]; }
        DigitsEndIs(src, c + 1, d);
      }
    }
  }

  lemma TextSpells(abc: Alphabet, src: string, a: nat, content: string)
    requires Stands(src, a, "\"" + Escaped(content) + "\"")
    ensures Spells(abc, src, a, Text(content), a + |"\"" + Escaped(content) + "\""|)
  {
    hide Literal, Escaped;
    var text := "\"" + Escaped(content) + "\"";
    StandsAt(src, a, text, 0);
    var before, rest := src[..a + 1], src[a + |text|..];
    assert src == src[..a] + src[a..a + |text|] + src[a + |text|..];
    assert src == before + Escaped(content) + "\"" + rest;
    LiteralRoundTrip(before, content, rest);
  }

  lemma PieceSpells(abc: Alphabet, src: string, a: nat, p: Piece)
    requires Usual(abc) && Writes(abc, p) && Stands(src, a, p.text)
    ensures Spells(abc, src, a, p.token, a + |p.text|)
  {
    hide WordSpan, Usual, Scoping.Decimal, Escaped, Literal, InLatin, RealParts, DigitsEnd, NumberEnd, Keyword.Spelling;
    match p.token {
      case Word(k) =>
        KeywordWord(abc, k);
        WordSpells(abc, src, a, p.text);
      case Ident(name) => WordSpells(abc, src, a, p.text);
      case Sign(o) => SignSpells(abc, src, a, o);
      case Integer(n) =>
        var z: nat :| p.text == Zeros(z) + Scoping.Decimal(n);
        IntegerSpells(abc, src, a, n, z);
      case Real(double) =>
        var whole, fraction, exponent :| RealParts(p.text, whole, fraction, exponent);
        RealSpells(abc, src, a, p.text, double, whole, fraction, exponent);
      case Text(content) => TextSpells(abc, src, a, content);
    }
  }

  // ---------------------------------------------------------------- a spelled token is the only one

  /** What a token begins with tells its kind. */
  lemma FirstTells(abc: Alphabet, src: string, a: nat, t: Token, b: nat)
    requires Spells(abc, src, a, t, b) && !t.Layout()
    ensures a < b <= |src|
    ensures match t
      case Word(_) => WordStart(abc, src[a])
      case Ident(_) => WordStart(abc, src[a])
      case Sign(o) => src[a] == o.First()
      case Text(_) => src[a] == '"'
      case _ => Digit(src[a])
  {
    hide Literal, NumberEnd, Decimal;
  }

  lemma SignChars(o: Operator)
    ensures Special(o.First()) && !Digit(o.First()) && !Blank(o.First()) && o.First() !in "\"\\"
  {
  }

  lemma SpellsOnly(abc: Alphabet, src: string, a: nat, t: Token, b: nat, t': Token, b': nat)
    requires Usual(abc) && Spells(abc, src, a, t, b) && Spells(abc, src, a, t', b') && !t.Layout() && !t'.Layout()
    ensures t == t' && b == b'
  {
    FirstTells(abc, src, a, t, b);
    FirstTells(abc, src, a, t', b');
    if t.Sign? { SignChars(t.sign); }
    if t'.Sign? { SignChars(t'.sign); }
    hide Usual, Special, Literal, NumberEnd, DigitsEnd, Decimal, Keyword.Spelling, Operator.First, Operator.Second, InLatin;
    if WordStart(abc, src[a]) {
      WordOnly(abc, src, a, t, b, t', b');
    } else if t.Sign? && t'.Sign? {
      OperatorOnly(src, a, t.sign, t'.sign);
    } else if Digit(src[a]) {
      NumberOnly(abc, src, a, t, b, t', b');
    }
  }

  lemma WordOnly(abc: Alphabet, src: string, a: nat, t: Token, b: nat, t': Token, b': nat)
    requires Spells(abc, src, a, t, b) && Spells(abc, src, a, t', b') && (t.Word? || t.Ident?) && (t'.Word? || t'.Ident?)
    ensures t == t' && b == b'
  {
    hide Keyword.Spelling;
    assert b == b' by { hide Spells; SpanOnly(abc, src, a, b, b'); }
    if t.Word? && t'.Word? {
      KeywordFound(t.word);
      KeywordFound(t'.word);
    }
  }

  lemma SpanOnly(abc: Alphabet, src: string, a: nat, b: nat, b': nat)
    requires WordSpan(abc, src, a, b) && WordSpan(abc, src, a, b')
    ensures b == b'
  {
  }

  lemma OperatorOnly(src: string, a: nat, o: Operator, p: Operator)
    requires o.At(src, a) && p.At(src, a) && o.Width() == p.Width()
    ensures o == p
  {
  }

  lemma NumberOnly(abc: Alphabet, src: string, a: nat, t: Token, b: nat, t': Token, b': nat)
    requires Spells(abc, src, a, t, b) && Spells(abc, src, a, t', b') && (t.Integer? || t.Real?) && (t'.Integer? || t'.Real?)
    ensures t == t' && b == b'
  {
    hide DigitsEnd, Decimal, InLatin;
  }

  /** Where a token stands there is no error, but for a misaligned line. */
  lemma NoFlaw(abc: Alphabet, src: string, a: nat, t: Token, b: nat, flaw: Flaw)
    requires Usual(abc) && Spells(abc, src, a, t, b) && !t.Layout() && !flaw.Misaligned?
    ensures !Flawed(abc, src, a, flaw)
  {
    FirstTells(abc, src, a, t, b);
    if t.Sign? { SignChars(t.sign); }
    hide Literal, InLatin, Keyword.Spelling, Operator.First, Operator.Second;
    if Flawed(abc, src, a, flaw) && flaw.IntegerTooLarge? { LargeIsDigits(src, a); }
  }

  lemma LargeIsDigits(src: string, a: nat)
    requires a <= |src| && Decimal(src[a..DigitsEnd(src, a)]) > 0
    ensures a < DigitsEnd(src, a) && Digit(src[a])
  {
  }

  /** A blank begins nothing but layout. */
  lemma NothingAtSpace(abc: Alphabet, src: string, a: nat, l: Lexeme)
    requires Usual(abc) && a < |src| && src[a] == ' '
    requires match l case Tok(p, t, b) => p == a && Spells(abc, src, p, t, b) case Bad(p, flaw) => p == a && Flawed(abc, src, p, flaw)
    ensures match l case Tok(_, t, _) => t.Indent? || t.Dedent? case Bad(_, flaw) => flaw.Misaligned?
  {
    hide Literal, InLatin, Keyword.Spelling;
    match l
    case Tok(p, t, b) =>
      if !t.Layout() {
        FirstTells(abc, src, a, t, b);
        if t.Sign? { SignChars(t.sign); }
      }
    case Bad(p, flaw) => if flaw.IntegerTooLarge? { LargeIsDigits(src, a); }
  }

  // ---------------------------------------------------------------- streams

  function StartOf(l: Lexeme): nat { if l.Tok? then l.start else l.position }

  /** Where the stream's first `k` lexemes end. */
  function EndBefore(src: string, ls: seq<Lexeme>, k: nat): nat
    requires k <= |ls|
  {
    if k == 0 then 0 else EndOf(src, ls[k - 1])
  }

  ghost predicate Stated(abc: Alphabet, src: string, l: Lexeme) {
    match l case Tok(a, t, b) => Spells(abc, src, a, t, b) case Bad(p, flaw) => Flawed(abc, src, p, flaw)
  }

  /** A stream that reads the source reads it lexeme by lexeme. */
  lemma {:induction false} ReadsAt(abc: Alphabet, src: string, ls: seq<Lexeme>, upto: nat, k: nat)
    requires Reads(abc, src, ls, upto) && k <= |ls|
    ensures k < |ls| ==> Skips(src, EndBefore(src, ls, k), StartOf(ls[k])) && Stated(abc, src, ls[k])
    ensures k == |ls| ==> Skips(src, EndBefore(src, ls, k), upto)
    decreases |ls|
  {
    hide Spells, Flawed, FlawEnd;
    if k < |ls| {
      var n := |ls| - 1;
      if k < n {
        ReadsAt(abc, src, ls[..n], StartOf(ls[n]), k);
        assert EndBefore(src, ls[..n], k) == EndBefore(src, ls, k);
      } else {
        ReadsAt(abc, src, ls[..n], StartOf(ls[n]), n);
        assert EndBefore(src, ls[..n], n) == EndBefore(src, ls, n);
      }
    } else if ls != [] && ls[|ls| - 1].Bad? {
      assert ls[|ls| - 1].position <= |src| by { assert Flawed(abc, src, ls[|ls| - 1].position, ls[|ls| - 1].flaw); }
    }
  }

  /** Blanks are skipped up to the next character that is none. */
  lemma {:induction false} SkipsStops(src: string, i: nat, s: nat, j: nat)
    requires Skips(src, i, j) && i <= s < |src| && (forall k :: i <= k < s ==> src[k] == ' ') && !Blank(src[s]) && src[s] != '\\'
    ensures j <= s
    decreases s - i
  {
    if i < s && i < j { SkipsStops(src, i + 1, s, j); }
  }

  /** Inside a line, outside any block, no indentation changes. */
  lemma NoLayoutInLine(abc: Alphabet, src: string, ls: seq<Lexeme>, l: Lexeme)
    requires Admits(src, ls, l) && Stated(abc, src, l) && Blocks(src, ls) == [0] && StartOf(l) <= |src|
    requires var p := StartOf(l); (p > 0 && !Breaks(src[p - 1])) || (p == 0 && (src == "" || src[0] != ' '))
    ensures match l case Tok(_, t, _) => !t.Indent? && !t.Dedent? case Bad(_, flaw) => !flaw.Misaligned?
  {
    hide Spells, Blocks;
    if LineStart(src, StartOf(l)) == StartOf(l) { StartsLine(src, StartOf(l)); }
  }

  // ---------------------------------------------------------------- lines

  /** The pieces one behind the other, a space between each two. */
  function LineOf(ps: seq<Piece>): string {
    if ps == [] then "" else if |ps| == 1 then ps[0].text else ps[0].text + " " + LineOf(ps[1..])
  }

  /** The tokens where they stand in the line. */
  function Placed(ps: seq<Piece>, at: nat): seq<Lexeme> {
    if ps == [] then []
    else [Tok(at, ps[0].token, at + |ps[0].text|)] + Placed(ps[1..], at + |ps[0].text| + (if |ps| == 1 then 0 else 1))
  }

  /** A written token begins with something and ends inside its line. */
  lemma PieceShape(abc: Alphabet, p: Piece)
    requires Usual(abc) && Writes(abc, p)
    ensures p.text != "" && !Blank(p.text[0]) && p.text[0] != '\\' && !Breaks(p.text[|p.text| - 1]) && !p.token.Layout()
  {
    hide Scoping.Decimal, Escaped, InLatin, RealParts, Keyword.Spelling, Operator.First, Operator.Second, Usual, Special;
    match p.token {
      case Word(k) =>
        KeywordWord(abc, k);
        NameShape(abc, p.text);
      case Ident(name) => NameShape(abc, name);
      case Sign(o) => SignShape(o);
      case Integer(n) =>
        var z: nat :| p.text == Zeros(z) + Scoping.Decimal(n);
      case Real(_) =>
        var whole, fraction, exponent :| RealParts(p.text, whole, fraction, exponent);
        RealShape(p.text, whole, fraction, exponent);
      case Text(_) =>
    }
  }

  lemma NameShape(abc: Alphabet, name: string)
    requires Usual(abc) && name != "" && forall i :: 0 <= i < |name| ==> WordPart(abc, name[i])
    ensures !Blank(name[0]) && name[0] != '\\' && !Breaks(name[|name| - 1])
  {
    assert WordPart(abc, name[0]) && WordPart(abc, name[|name| - 1]);
  }

  lemma SignShape(o: Operator)
    ensures !Blank(o.First()) && o.First() != '\\' && !Breaks(o.First()) && (o.Second().Some? ==> !Breaks(o.Second().value))
  {
  }

  lemma RealShape(s: string, whole: string, fraction: string, exponent: string)
    requires RealParts(s, whole, fraction, exponent)
    ensures s != "" && Digit(s[0]) && !Breaks(s[|s| - 1])
  {
    assert s[0] == whole[0] && whole[0] in whole;
    var c := s[|s| - 1];
    if exponent != "" {
      assert c == exponent[|exponent| - 1];
      if |exponent| > 2 { assert c in exponent[2..] && c in exponent[1..]; }
      else if |exponent| == 2 { assert c in exponent[1..]; }
    } else {
      assert c == fraction[|fraction| - 1];
      if |fraction| > 1 { assert c in fraction[1..]; }
    }
  }

  /** Before the next piece there is nothing, or one space behind the last token. */
  predicate Gap(src: string, from: nat, at: nat) {
    && from <= at <= |src| && (from > 0 ==> !Breaks(src[from - 1]))
    && (at == from || (from > 0 && at == from + 1 && src[from] == ' '))
    && (from == 0 && src != "" ==> src[0] != ' ')
  }

  lemma GapStops(abc: Alphabet, src: string, from: nat, at: nat, p: Piece, j: nat)
    requires Usual(abc) && Writes(abc, p) && Stands(src, at, p.text) && Gap(src, from, at) && Skips(src, from, j)
    ensures at < |src| && j <= at
  {
    hide Usual, Writes;
    PieceShape(abc, p);
    StandsAt(src, at, p.text, 0);
    SkipsStops(src, from, at, j);
  }

  /** The next lexeme of a stream is the piece that stands there. */
  lemma NextIs(abc: Alphabet, src: string, ls: seq<Lexeme>, k: nat, at: nat, p: Piece)
    requires Usual(abc) && Writes(abc, p) && Stands(src, at, p.text) && k <= |ls| && Reads(abc, src, ls, |src|) && Laid(src, ls)
    requires Blocks(src, ls[..k]) == [0] && Gap(src, EndBefore(src, ls, k), at)
    ensures k < |ls| && ls[k] == Tok(at, p.token, at + |p.text|)
  {
    hide Reads, Laid, Blocks, Spells, Flawed, Usual, Writes, FlawEnd, EndBefore, Admits, Breaks, Stands, Gap, Skips, Stated;
    var from := EndBefore(src, ls, k);
    PieceShape(abc, p);
    PieceSpells(abc, src, at, p);
    GapStops(abc, src, from, at, p, if k == |ls| then |src| else StartOf(ls[k])) by { ReadsAt(abc, src, ls, |src|, k); }
    if k < |ls| {
      var l := ls[k];
      ReadsAt(abc, src, ls, |src|, k);
      LaidAt(src, ls, k);
      NothingInGap(abc, src, ls[..k], l, from, at);
      NextAt(abc, src, ls[..k], l, at, p.token, at + |p.text|);
    }
  }

  lemma NothingInGap(abc: Alphabet, src: string, before: seq<Lexeme>, l: Lexeme, from: nat, at: nat)
    requires Usual(abc) && Admits(src, before, l) && Stated(abc, src, l) && Blocks(src, before) == [0]
    requires Gap(src, from, at) && Skips(src, from, StartOf(l)) && StartOf(l) <= at
    ensures StartOf(l) == at
    ensures match l case Tok(_, t, _) => !t.Indent? && !t.Dedent? case Bad(_, flaw) => !flaw.Misaligned?
  {
    hide Usual, Spells, Flawed, Blocks, Admits;
    NoLayoutInLine(abc, src, before, l);
    if StartOf(l) < at { NothingAtSpace(abc, src, StartOf(l), l); }
  }

  lemma NextAt(abc: Alphabet, src: string, before: seq<Lexeme>, l: Lexeme, at: nat, t: Token, b: nat)
    requires Usual(abc) && Stated(abc, src, l) && StartOf(l) == at && Spells(abc, src, at, t, b) && !t.Layout()
    requires match l case Tok(_, t', _) => !t'.Indent? && !t'.Dedent? case Bad(_, flaw) => !flaw.Misaligned?
    ensures l == Tok(at, t, b)
  {
    match l
    case Tok(a', t', b') =>
      FirstTells(abc, src, at, t, b);
      if t.Sign? { SignChars(t.sign); }
      assert !t'.Newline? by { hide Literal, InLatin, Keyword.Spelling, Operator.First; }
      hide Spells, Usual;
      SpellsOnly(abc, src, at, t, b, t', b');
    case Bad(_, flaw) =>
      hide Spells, Usual;
      NoFlaw(abc, src, at, t, b, flaw);
  }

  lemma NothingAtEnd(abc: Alphabet, src: string, l: Lexeme)
    requires Stated(abc, src, l) && StartOf(l) == |src|
    ensures match l case Tok(_, t, _) => t.Indent? || t.Dedent? case Bad(_, flaw) => flaw.Misaligned?
  {
    hide Literal, InLatin, Keyword.Spelling, Operator.First, Operator.Second, NumberEnd;
    if l.Tok? && !l.token.Layout() { FirstTells(abc, src, l.start, l.token, l.end); }
    if l.Bad? && l.flaw.IntegerTooLarge? { LargeIsDigits(src, |src|); }
  }

  lemma FirstStands(src: string, at: nat, ps: seq<Piece>)
    requires ps != [] && at <= |src| && src[at..] == LineOf(ps)
    ensures Stands(src, at, ps[0].text)
    ensures var end := at + |ps[0].text|;
      if |ps| == 1 then end == |src| else end < |src| && src[end] == ' ' && src[end + 1..] == LineOf(ps[1..])
  {
    var text, end := ps[0].text, at + |ps[0].text|;
    assert |src| == at + |LineOf(ps)|;
    assert src[at..end] == src[at..][..|text|] == LineOf(ps)[..|text|];
    if |ps| > 1 {
      assert LineOf(ps) == text + " " + LineOf(ps[1..]);
      assert src[end] == src[at..][|text|] == LineOf(ps)[|text|];
      assert src[end + 1..] == src[at..][|text| + 1..] == LineOf(ps)[|text| + 1..];
      assert (text + " " + LineOf(ps[1..]))[|text| + 1..] == LineOf(ps[1..]);
    }
  }

  /** Behind the last token there is nothing more. */
  lemma EndReads(abc: Alphabet, src: string, ls: seq<Lexeme>, k: nat, at: nat)
    requires Usual(abc) && k <= |ls| && Reads(abc, src, ls, |src|) && Laid(src, ls)
    requires Blocks(src, ls[..k]) == [0] && Gap(src, EndBefore(src, ls, k), at) && at == |src|
    ensures k == |ls|
  {
    hide Reads, Laid, Blocks, Spells, Flawed, Usual, FlawEnd, EndBefore, Admits, Skips;
    if k < |ls| {
      var from, l := EndBefore(src, ls, k), ls[k];
      ReadsAt(abc, src, ls, |src|, k);
      LaidAt(src, ls, k);
      SkipsInside(src, from, StartOf(l));
      NoLayoutInLine(abc, src, ls[..k], l);
      if StartOf(l) < at { NothingAtSpace(abc, src, StartOf(l), l); } else { NothingAtEnd(abc, src, l); }
    }
  }

  lemma SkipsInside(src: string, i: nat, j: nat)
    requires Skips(src, i, j)
    ensures i <= j <= |src|
  {
  }

  /** From a place between two lexemes on, the stream is the rest of the line. */
  lemma {:induction false} RestReads(abc: Alphabet, src: string, ls: seq<Lexeme>, k: nat, at: nat, ps: seq<Piece>)
    requires Usual(abc) && (forall p :: p in ps ==> Writes(abc, p)) && k <= |ls| && Reads(abc, src, ls, |src|) && Laid(src, ls)
    requires Blocks(src, ls[..k]) == [0] && Gap(src, EndBefore(src, ls, k), at) && src[at..] == LineOf(ps)
    ensures ls[k..] == Placed(ps, at)
    decreases |ps|
  {
    hide Usual, Writes, Reads, Laid, Blocks, Spells, Flawed, Skips, Breaks;
    if ps == [] {
      assert |src| == at + |LineOf(ps)|;
      EndReads(abc, src, ls, k, at);
    } else {
      var p := ps[0];
      var end := at + |p.text|;
      PieceShape(abc, p);
      FirstStands(src, at, ps);
      NextIs(abc, src, ls, k, at, p);
      StandsAt(src, at, p.text, |p.text| - 1);
      BlocksMore(src, ls[..k], ls[k]);
      assert ls[..k + 1] == ls[..k] + [ls[k]];
      assert ls[k..] == [ls[k]] + ls[k + 1..];
      if |ps| == 1 {
        EndReads(abc, src, ls, k + 1, end);
      } else {
        RestReads(abc, src, ls, k + 1, end + 1, ps[1..]);
      }
    }
  }

  /** Whatever stream keeps the lexer's contract on a written line is that line's tokens. */
  lemma LineReads(abc: Alphabet, ps: seq<Piece>, ls: seq<Lexeme>)
    requires Usual(abc) && forall p :: p in ps ==> Writes(abc, p)
    requires Reads(abc, LineOf(ps), ls, |LineOf(ps)|) && Laid(LineOf(ps), ls)
    ensures ls == Placed(ps, 0)
  {
    hide Usual, Writes, Reads, Laid, Breaks;
    var src := LineOf(ps);
    assert src[0..] == src && ls[..0] == [] && ls[0..] == ls;
    if ps != [] {
      PieceShape(abc, ps[0]);
      assert src[0] == ps[0].text[0];
    }
    RestReads(abc, src, ls, 0, 0, ps);
  }

  /** A number written in decimal, with any leading zeros, is the one token of that value. */
  lemma IntegerReads(abc: Alphabet, n: nat, z: nat, ls: seq<Lexeme>)
    requires Usual(abc) && n < 0x8000_0000_0000_0000
    requires var src := Zeros(z) + Scoping.Decimal(n); Reads(abc, src, ls, |src|) && Laid(src, ls)
    ensures ls == [Tok(0, Integer(n), z + |Scoping.Decimal(n)|)]
  {
    hide Usual, Reads, Laid, Scoping.Decimal;
    var p := Piece(Integer(n), Zeros(z) + Scoping.Decimal(n));
    assert LineOf([p]) == p.text;
    LineReads(abc, [p], ls);
    assert Placed([p][1..], |p.text|) == [];
  }

  /** The lexer on a written line. */
  method TokenizeLine(ps: seq<Piece>, abc: Alphabet) returns (ls: seq<Lexeme>)
    requires Usual(abc) && forall p :: p in ps ==> Writes(abc, p)
    ensures ls == Placed(ps, 0)
  {
    hide Usual, Writes, Reads, Laid, LineOf;
    ls := Tokenize(LineOf(ps), abc);
    LineReads(abc, ps, ls);
  }
}
