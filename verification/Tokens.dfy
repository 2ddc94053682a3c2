/** The tokens of the language, and what a token stream has to do with the source text it
    was read from (crates/compiler-core/src/lexer.rs). Positions are character indices. */
module Tokens {
  import opened Results

  datatype Keyword =
    | If | Then | Else | Choice | Case | For | From | To | Step | While | Repeat | Loop | Until | Exit | Func |
    Return | Foreign | Own | Output | Input | NoNewline | OfText | And | Or | Not | Empty | Yes | No |
    LineFeed | Pi | LatinPi | Type | Out | Import
  {
    function Spelling(): string {
      match this
      case If => "если" case Then => "то" case Else => "иначе" case Choice => "выбор" case Case => "при"
      case For => "для" case From => "от" case To => "до" case Step => "шаг" case While => "пока"
      case Repeat => "повтор" case Loop => "цикл" case Until => "по" case Exit => "выход" case Func => "функ"
      case Return => "возврат" case Foreign => "чужие" case Own => "свои" case Output => "вывод"
      case Input => "ввод" case NoNewline => "бпс" case OfText => "текста" case And => "и" case Or => "или"
      case Not => "не" case Empty => "пусто" case Yes => "да" case No => "нет" case LineFeed => "пс"
      case Pi => "пи" case LatinPi => "pi" case Type => "тип" case Out => "вых" case Import => "подкл"
    }
  }

  datatype Operator =
    | StarStar | Star | SlashSlash | SlashPercent | Slash | Plus | Minus | Hash | Assign | Declare | Equal |
    NotEqual | LessOrEqual | GreaterOrEqual | Less | Greater | Dot | LParen | RParen | LBracket | RBracket |
    Colon | Comma
  {
    function First(): char {
      match this
      case StarStar => '*' case Star => '*' case SlashSlash => '/' case SlashPercent => '/' case Slash => '/'
      case Plus => '+' case Minus => '-' case Hash => '#' case Assign => '=' case Declare => ':'
      case Equal => '=' case NotEqual => '/' case LessOrEqual => '<' case GreaterOrEqual => '>'
      case Less => '<' case Greater => '>' case Dot => '.' case LParen => '(' case RParen => ')'
      case LBracket => '[' case RBracket => ']' case Colon => ':' case Comma => ','
    }

    function Second(): Option<char> {
      match this
      case StarStar => Some('*') case SlashSlash => Some('/') case SlashPercent => Some('%')
      case Declare => Some('=') case Equal => Some('=') case NotEqual => Some('=')
      case LessOrEqual => Some('=') case GreaterOrEqual => Some('=')
      case _ => None
    }

    function Width(): nat { if Second().Some? then 2 else 1 }

    /** The operator stands in the source at `i`. */
    predicate At(src: string, i: nat) {
      i + Width() <= |src| && src[i] == First() && (Second().Some? ==> src[i + 1] == Second().value)
    }
  }

  datatype Token =
    | Word(word: Keyword) | Sign(sign: Operator)
    | Newline | Indent | Dedent
    | Ident(name: string) | Integer(value: nat) | Real(double: nat) | Text(content: string)
  {
    predicate Layout() { Newline? || Indent? || Dedent? }
  }

  datatype Flaw = Tab | Misaligned | BadReal | IntegerTooLarge | Unterminated | Unexpected

  /** What the lexer hands out: a token with its span, or an error at a position. */
  datatype Lexeme = Tok(start: nat, token: Token, end: nat) | Bad(position: nat, flaw: Flaw)

  /** The two library functions the lexer leans on: Unicode's letters and the reading of a
      real number. */
  datatype Alphabet = Alphabet(letter: char -> bool, parse: string -> Option<nat>)

  // ---------------------------------------------------------------- characters and spans

  predicate Digit(c: char) { '0' <= c <= '9' }

  predicate Breaks(c: char) { c == '\n' || c == '\r' }

  predicate Blank(c: char) { c == ' ' || c == '\t' || c == ';' || Breaks(c) }

  predicate ExponentSign(c: char) { c == 'e' || c == 'е' }

  predicate WordStart(abc: Alphabet, c: char) { abc.letter(c) || c == '_' }

  predicate WordPart(abc: Alphabet, c: char) { abc.letter(c) || Digit(c) || c == '_' }

  /** Where the digits from `i` on end. */
  function DigitsEnd(src: string, i: nat): (end: nat)
    requires i <= |src|
    ensures i <= end <= |src| && (end < |src| ==> !Digit(src[end]))
    ensures forall k :: i <= k < end ==> Digit(src[k])
    decreases |src| - i
  {
    if i < |src| && Digit(src[i]) then DigitsEnd(src, i + 1) else i
  }

  function FractionEnd(src: string, i: nat): (end: nat)
    requires i <= |src|
    ensures i <= end <= |src|
  {
    if i < |src| && src[i] == '.' then DigitsEnd(src, i + 1) else i
  }

  function ExponentEnd(src: string, i: nat): (end: nat)
    requires i <= |src|
    ensures i <= end <= |src|
  {
    if i < |src| && ExponentSign(src[i])
    then (if i + 1 < |src| && src[i + 1] in "+-" then DigitsEnd(src, i + 2) else DigitsEnd(src, i + 1))
    else i
  }

  /** Where a number starting at `i` ends: digits, an optional fraction, an optional exponent. */
  function NumberEnd(src: string, i: nat): (end: nat)
    requires i <= |src|
    ensures i <= end <= |src|
  {
    ExponentEnd(src, FractionEnd(src, DigitsEnd(src, i)))
  }

  function Figure(c: char): nat
    requires Digit(c)
  {
    c as int - '0' as int
  }

  function Decimal(s: string): nat
    requires forall c :: c in s ==> Digit(c)
  {
    if s == "" then 0 else 10 * Decimal(s[..|s| - 1]) + Figure(s[|s| - 1])
  }

  function InLatin(s: string): string {
    if s == "" then "" else [if s[0] == 'е' then 'e' else s[0]] + InLatin(s[1..])
  }

  predicate WordSpan(abc: Alphabet, src: string, a: nat, b: nat) {
    && a < b <= |src| && WordStart(abc, src[a]) && (forall k :: a < k < b ==> WordPart(abc, src[k]))
    && (b < |src| ==> !WordPart(abc, src[b]))
  }

  predicate Quote(src: string, i: nat) { i < |src| && src[i] == '"' }

  /** The rest of a text literal: what it says and where it ends. Quotes come in fours for one
      quote of the text; three of them close it after two. */
  function Literal(src: string, i: nat): (r: Option<(string, nat)>)
    requires i <= |src|
    ensures r.Some? ==> i < r.value.1 <= |src|
    decreases |src| - i
  {
    if i == |src| then None
    else if !Quote(src, i) then After([src[i]], Literal(src, i + 1))
    else if !Quote(src, i + 1) then Some(("", i + 1))
    else if !Quote(src, i + 2) then Some(("", i + 2))
    else if !Quote(src, i + 3) then Some(("\"\"", i + 3))
    else After("\"", Literal(src, i + 4))
  }

  function After(said: string, rest: Option<(string, nat)>): Option<(string, nat)> {
    if rest.Some? then Some((said + rest.value.0, rest.value.1)) else None
  }

  function LineEnd(src: string, i: nat): (end: nat)
    requires i <= |src|
    ensures i <= end <= |src| && (end < |src| ==> Breaks(src[end]))
    ensures forall k :: i <= k < end ==> !Breaks(src[k])
    decreases |src| - i
  {
    if i < |src| && !Breaks(src[i]) then LineEnd(src, i + 1) else i
  }

  /** Nothing but blanks and comments from `i` to `j`. */
  predicate Skips(src: string, i: nat, j: nat)
    decreases |src| - i
  {
    && i <= j <= |src|
    && (i == j || (Blank(src[i]) && Skips(src, i + 1, j)) || (src[i] == '\\' && Skips(src, LineEnd(src, i + 1), j)))
  }

  // ---------------------------------------------------------------- lines

  function LineStart(src: string, i: nat): (start: nat)
    requires i <= |src|
    ensures start <= i
  {
    if i == 0 || Breaks(src[i - 1]) then i else LineStart(src, i - 1)
  }

  /** The spaces from `i` on. */
  function Leading(src: string, i: nat): (n: nat)
    requires i <= |src|
    ensures i + n <= |src|
    decreases |src| - i
  {
    if i < |src| && src[i] == ' ' then 1 + Leading(src, i + 1) else 0
  }

  // ---------------------------------------------------------------- what a stream means

  /** How deep in parentheses and brackets the stream ends; surplus closers are ignored. */
  function Depth(ls: seq<Lexeme>): nat {
    if ls == [] then 0 else Deeper(Depth(ls[..|ls| - 1]), Last(ls))
  }

  function Deeper(d: nat, l: Lexeme): nat {
    if l.Bad? then d
    else if l.token in {Sign(LParen), Sign(LBracket)} then d + 1
    else if l.token in {Sign(RParen), Sign(RBracket)} && d > 0 then d - 1
    else d
  }

  /** Indents less Dedents. */
  function Level(ls: seq<Lexeme>): int {
    if ls == [] then 0 else
    var n, l := Level(ls[..|ls| - 1]), ls[|ls| - 1];
    if l.Tok? && l.token.Indent? then n + 1 else if l.Tok? && l.token.Dedent? then n - 1 else n
  }

  /** Behind one of \n, \r and \r\n, if one stands there. */
  function AfterBreak(src: string, i: nat): (end: nat)
    requires i <= |src|
    ensures i <= end <= |src|
  {
    if i == |src| || !Breaks(src[i]) then i
    else if src[i] == '\r' && i + 1 < |src| && src[i + 1] == '\n' then i + 2
    else i + 1
  }

  /** From the start of a line: the end of the indentation of the first line that is neither
      blank nor a comment. */
  function ContentAt(src: string, i: nat): (p: nat)
    requires i <= |src|
    ensures i <= p <= |src|
    decreases |src| - i
  {
    var p := i + Leading(src, i);
    if p < |src| && Breaks(src[p]) then ContentAt(src, AfterBreak(src, p))
    else if p < |src| && src[p] == '\\' then ContentAt(src, AfterBreak(src, LineEnd(src, p + 1)))
    else p
  }

  lemma ContentStep(src: string, i: nat)
    requires i <= |src|
    ensures var p := i + Leading(src, i);
      ContentAt(src, i) ==
        if p == |src| || !(Breaks(src[p]) || src[p] == '\\') then p
        else ContentAt(src, AfterBreak(src, if Breaks(src[p]) then p else LineEnd(src, p + 1)))
  {
  }

  /** The open indentations once a line of indentation `n` has opened or closed blocks. */
  function Reindented(open: seq<nat>, n: nat): (r: seq<nat>)
    requires |open| > 0
    ensures |r| > 0
  {
    if n > Last(open) then open + [n] else Closed(open, n)
  }

  function Closed(open: seq<nat>, n: nat): (r: seq<nat>)
    requires |open| > 0
    ensures |r| > 0
  {
    if Last(open) > n && |open| > 1 then Closed(open[..|open| - 1], n) else open
  }

  /** The indentations of the blocks the stream leaves open, read off the source. */
  function Blocks(src: string, ls: seq<Lexeme>): (r: seq<nat>)
    ensures |r| > 0
  {
    if ls == [] then [0] else
    var open, l := Blocks(src, ls[..|ls| - 1]), ls[|ls| - 1];
    if l.Tok? && l.token.Indent? && l.start <= |src| then open + [Leading(src, l.start)]
    else if l.Tok? && l.token.Dedent? && |open| > 1 then open[..|open| - 1]
    else open
  }

  function Last<T>(s: seq<T>): T
    requires |s| > 0
  {
    s[|s| - 1]
  }

  predicate Climbing(s: seq<nat>) {
    |s| > 0 && s[0] == 0 && forall i, j :: 0 <= i < j < |s| ==> s[i] < s[j]
  }

  /** The next lexeme is the first of its line. */
  predicate OpensLine(ls: seq<Lexeme>) { ls == [] || (Last(ls).Tok? && Last(ls).token.Layout()) }

  /** Where the text of a lexeme ends; an error gives up on the text up to there. */
  function EndOf(src: string, l: Lexeme): nat {
    match l
    case Tok(_, _, b) => b
    case Bad(p, flaw) => if p <= |src| then FlawEnd(src, p, flaw) else p
  }

  /** Outside parentheses `p` is on the line on which the last lexeme of the stream ends,
      unless that lexeme already ended the line. */
  predicate KeepsLine(src: string, ls: seq<Lexeme>, p: nat) {
    && p <= |src|
    && (!OpensLine(ls) && Depth(ls) == 0 ==>
        EndOf(src, Last(ls)) <= |src| && LineStart(src, p) == LineStart(src, EndOf(src, Last(ls))))
  }

  /** The layout rules for one lexeme after `ls`: Newline and Indent only outside parentheses,
      Indent for a deeper line, Dedent for a shallower one or at the end of the source, and
      after them a line as deep as its block; and no line ends without its Newline. */
  predicate Admits(src: string, ls: seq<Lexeme>, l: Lexeme) {
    var open := Blocks(src, ls);
    match l
    case Bad(p, flaw) => KeepsLine(src, ls, p) && (flaw.Misaligned? ==> Depth(ls) == 0 && Leading(src, p) > Last(open))
    case Tok(a, t, b) =>
      KeepsLine(src, ls, a) &&
      if t.Indent? then Depth(ls) == 0 && OpensLine(ls) && LineStart(src, a) == a && Leading(src, a) > Last(open)
      else if t.Dedent? then
        |open| > 1 && (a == |src| || (Depth(ls) == 0 && OpensLine(ls) && LineStart(src, a) == a && Leading(src, a) < Last(open)))
      else
        (t.Newline? ==> Depth(ls) == 0) && (OpensLine(ls) ==> Leading(src, LineStart(src, a)) == Last(open))
  }

  predicate Laid(src: string, ls: seq<Lexeme>) {
    ls == [] || (Laid(src, ls[..|ls| - 1]) && Admits(src, ls[..|ls| - 1], Last(ls)))
  }

  /** The token is spelled by the source from `a` to `b`, and by no more of it. */
  ghost predicate Spells(abc: Alphabet, src: string, a: nat, t: Token, b: nat) {
    a <= b <= |src| &&
    match t
    case Newline => b == a + 1 && Breaks(src[a])
    case Indent => b == a
    case Dedent => b == a
    case Ident(name) => WordSpan(abc, src, a, b) && src[a..b] == name && forall k: Keyword :: k.Spelling() != name
    case Word(k) => WordSpan(abc, src, a, b) && src[a..b] == k.Spelling()
    case Sign(o) => b == a + o.Width() && o.At(src, a) && forall p: Operator :: p.At(src, a) ==> p.Width() <= o.Width()
    case Integer(n) =>
      && a < b == DigitsEnd(src, a) && n == Decimal(src[a..b]) && n < 0x8000_0000_0000_0000
      && (b < |src| ==> src[b] != '.' && !ExponentSign(src[b]))
    case Real(double) => a < DigitsEnd(src, a) < b == NumberEnd(src, a) && abc.parse(InLatin(src[a..b])) == Some(double)
    case Text(content) => a < b && src[a] == '"' && Literal(src, a + 1) == Some((content, b))
  }

  /** The text an error gives up on ends here. */
  function FlawEnd(src: string, p: nat, flaw: Flaw): nat
    requires p <= |src|
  {
    match flaw
    case Tab => p case Misaligned => p
    case BadReal => NumberEnd(src, p) case IntegerTooLarge => NumberEnd(src, p)
    case Unterminated => |src|
    case Unexpected => p + 1
  }

  ghost predicate Flawed(abc: Alphabet, src: string, p: nat, flaw: Flaw) {
    p <= |src| &&
    match flaw
    case Tab => p < |src| && src[p] == '\t'
    case Misaligned => LineStart(src, p) == p
    case BadReal => p < DigitsEnd(src, p) < NumberEnd(src, p) && abc.parse(InLatin(src[p..NumberEnd(src, p)])).None?
    case IntegerTooLarge => DigitsEnd(src, p) == NumberEnd(src, p) && Decimal(src[p..DigitsEnd(src, p)]) >= 0x8000_0000_0000_0000
    case Unterminated => p < |src| && src[p] == '"' && Literal(src, p + 1).None?
    case Unexpected => p < |src| && !WordPart(abc, src[p]) && !Blank(src[p]) && src[p] !in "\"\\" && forall o: Operator :: !o.At(src, p)
  }

  /** The stream accounts for the source up to `upto`: its tokens are spelled where they say,
      in order, and between them there are only blanks and comments. */
  ghost predicate Reads(abc: Alphabet, src: string, ls: seq<Lexeme>, upto: nat) {
    if ls == [] then Skips(src, 0, upto) else
    match Last(ls)
    case Tok(a, t, b) => Reads(abc, src, ls[..|ls| - 1], a) && Spells(abc, src, a, t, b) && Skips(src, b, upto)
    case Bad(p, flaw) => Reads(abc, src, ls[..|ls| - 1], p) && Flawed(abc, src, p, flaw) && Skips(src, FlawEnd(src, p, flaw), upto)
  }

  // ---------------------------------------------------------------- facts

  lemma InnerClimbs(open: seq<nat>)
    requires Climbing(open) && |open| > 1
    ensures Climbing(open[..|open| - 1]) && Last(open[..|open| - 1]) < Last(open)
    ensures forall x :: x in open <==> x in open[..|open| - 1] || x == Last(open)
  {
    assert open == open[..|open| - 1] + [Last(open)];
  }

  lemma LastIsMost(open: seq<nat>, x: nat)
    requires Climbing(open) && x in open
    ensures x <= Last(open)
  {
  }

  lemma {:induction false} ClosedIff(open: seq<nat>, n: nat)
    requires Climbing(open) && n <= Last(open)
    ensures Climbing(Closed(open, n)) && Last(Closed(open, n)) <= n
    ensures Last(Closed(open, n)) == n <==> n in open
    decreases |open|
  {
    hide Climbing;
    assert |open| > 1 || Last(open) == 0 by { Bottom(open); }
    if n < Last(open) {
      var outer := open[..|open| - 1];
      InnerClimbs(open);
      if n <= Last(outer) {
        ClosedIff(outer, n);
      } else if n in outer {
        LastIsMost(outer, n);
      }
    }
  }

  lemma Bottom(open: seq<nat>)
    requires Climbing(open)
    ensures |open| > 0 && (|open| == 1 ==> Last(open) == 0)
  {
  }

  lemma OpenedClimbs(open: seq<nat>, n: nat)
    requires Climbing(open) && n > Last(open)
    ensures Climbing(open + [n])
  {
  }

  /** A line without tabs stands in a block of its own indentation exactly when that is deeper
      than the innermost block or one of the open ones; any other is reported as misaligned and
      stands in the next block outside. */
  lemma ReindentedIff(open: seq<nat>, n: nat)
    requires Climbing(open)
    ensures Climbing(Reindented(open, n)) && Last(Reindented(open, n)) <= n
    ensures Last(Reindented(open, n)) == n <==> n > Last(open) || n in open
  {
    Bottom(open);
    hide Climbing, Closed;
    if n > Last(open) { OpenedClimbs(open, n); } else { ClosedIff(open, n); }
  }

  /** The layout rules make the open blocks climb from the left margin, one for every Indent
      that no Dedent has closed: there are never more Dedents than Indents. */
  lemma {:induction false} LaidClimbs(src: string, ls: seq<Lexeme>)
    requires Laid(src, ls)
    ensures Climbing(Blocks(src, ls)) && Level(ls) == |Blocks(src, ls)| - 1 >= 0
  {
    if ls != [] { LaidClimbs(src, ls[..|ls| - 1]); }
  }

  lemma BlocksMore(src: string, ls: seq<Lexeme>, l: Lexeme)
    ensures Blocks(src, ls + [l]) ==
      if l.Tok? && l.token.Indent? && l.start <= |src| then Blocks(src, ls) + [Leading(src, l.start)]
      else if l.Tok? && l.token.Dedent? && |Blocks(src, ls)| > 1 then Blocks(src, ls)[..|Blocks(src, ls)| - 1]
      else Blocks(src, ls)
  {
    assert (ls + [l])[..|ls|] == ls;
  }

  lemma LaidMore(src: string, ls: seq<Lexeme>, l: Lexeme)
    requires Laid(src, ls) && Admits(src, ls, l)
    ensures Laid(src, ls + [l]) && Depth(ls + [l]) == Deeper(Depth(ls), l)
  {
    hide Admits;
    assert (ls + [l])[..|ls + [l]| - 1] == ls;
  }

  lemma {:induction false} LineStays(src: string, i: nat, j: nat)
    requires i <= j <= |src| && forall k :: i <= k < j ==> !Breaks(src[k])
    ensures LineStart(src, j) == LineStart(src, i)
    decreases j - i
  {
    if i < j { LineStays(src, i, j - 1); }
  }

  lemma LineBegun(src: string, ls: seq<Lexeme>, l: Lexeme, at: nat)
    requires at <= |src| && (EndOf(src, l) == at || (l.Tok? && l.token.Layout()))
    ensures KeepsLine(src, ls + [l], at)
  {
  }

  lemma {:induction false} LaidPrefix(src: string, ls: seq<Lexeme>, n: nat)
    requires Laid(src, ls) && n <= |ls|
    ensures Laid(src, ls[..n])
  {
    if n < |ls| {
      LaidPrefix(src, ls[..|ls| - 1], n);
      assert ls[..|ls| - 1][..n] == ls[..n];
    } else {
      assert ls[..n] == ls;
    }
  }

  lemma {:induction false} LaidAt(src: string, ls: seq<Lexeme>, n: nat)
    requires Laid(src, ls) && n < |ls|
    ensures Admits(src, ls[..n], ls[n])
  {
    LaidPrefix(src, ls, n + 1);
    assert ls[..n + 1][..n] == ls[..n];
  }

  lemma SkipsNothing(src: string, i: nat)
    requires i <= |src|
    ensures Skips(src, i, i)
  {
  }

  lemma BlankSkips(src: string, i: nat)
    requires i < |src| && Blank(src[i])
    ensures Skips(src, i, i + 1)
  {
  }

  lemma {:induction false} SkipsOn(src: string, i: nat, j: nat, k: nat)
    requires Skips(src, i, j) && Skips(src, j, k)
    ensures Skips(src, i, k)
    decreases |src| - i
  {
    if i == j {
    } else if Blank(src[i]) && Skips(src, i + 1, j) {
      SkipsOn(src, i + 1, j, k);
    } else {
      SkipsOn(src, LineEnd(src, i + 1), j, k);
    }
  }

  lemma TokenRead(abc: Alphabet, src: string, ls: seq<Lexeme>, a: nat, t: Token, b: nat, upto: nat)
    requires Reads(abc, src, ls, a) && Spells(abc, src, a, t, b) && Skips(src, b, upto)
    ensures Reads(abc, src, ls + [Tok(a, t, b)], upto)
  {
    hide Spells, Skips;
    assert (ls + [Tok(a, t, b)])[..|ls|] == ls;
  }

  lemma FlawRead(abc: Alphabet, src: string, ls: seq<Lexeme>, p: nat, flaw: Flaw, upto: nat)
    requires Reads(abc, src, ls, p) && Flawed(abc, src, p, flaw) && Skips(src, FlawEnd(src, p, flaw), upto)
    ensures Reads(abc, src, ls + [Bad(p, flaw)], upto)
  {
    hide Flawed, Skips, FlawEnd;
    assert (ls + [Bad(p, flaw)])[..|ls|] == ls;
  }

  /** A stream that reads up to `i` reads past any blanks and comments after it. */
  lemma ReadsOn(abc: Alphabet, src: string, ls: seq<Lexeme>, i: nat, j: nat)
    requires Reads(abc, src, ls, i) && Skips(src, i, j)
    ensures Reads(abc, src, ls, j)
  {
    if ls == [] {
      SkipsOn(src, 0, i, j);
    } else if Last(ls).Tok? {
      SkipsOn(src, Last(ls).end, i, j);
    } else {
      SkipsOn(src, FlawEnd(src, Last(ls).position, Last(ls).flaw), i, j);
    }
  }

  lemma {:induction false} SpacesSkip(src: string, i: nat, n: nat)
    requires i + n <= |src| && forall k :: i <= k < i + n ==> src[k] == ' '
    ensures Skips(src, i, i + n)
    decreases n
  {
    if n > 0 { SpacesSkip(src, i + 1, n - 1); }
  }

  lemma {:induction false} LeadingSpaces(src: string, i: nat, n: nat)
    requires i + n <= |src| && (forall k :: i <= k < i + n ==> src[k] == ' ') && (i + n < |src| ==> src[i + n] != ' ')
    ensures Leading(src, i) == n
    decreases n
  {
    if n > 0 { LeadingSpaces(src, i + 1, n - 1); }
  }

  lemma StartsLine(src: string, p: nat)
    requires p <= |src| && LineStart(src, p) == p
    ensures p == 0 || Breaks(src[p - 1])
  {
  }

  lemma {:induction false} SameLine(src: string, p: nat, i: nat)
    requires p <= i <= |src| && (p == 0 || Breaks(src[p - 1])) && forall k :: p <= k < i ==> !Breaks(src[k])
    ensures LineStart(src, i) == p
  {
    if p < i { SameLine(src, p, i - 1); }
  }

  // ---------------------------------------------------------------- text literals

  /** The text as the language's documentation says to write it: quotes fourfold. */
  function Escaped(content: string): string {
    if content == "" then "" else (if content[0] == '"' then "\"\"\"\"" else [content[0]]) + Escaped(content[1..])
  }

  lemma LiteralEnd(src: string, i: nat)
    requires i < |src| && Quote(src, i) && !Quote(src, i + 1)
    ensures Literal(src, i) == Some(("", i + 1))
  {
  }

  /** One written character. */
  lemma LiteralStep(src: string, i: nat, head: string)
    requires i + |head| <= |src| && src[i..i + |head|] == head
    requires head == "\"\"\"\"" || (|head| == 1 && head[0] != '"')
    ensures Literal(src, i) == After([head[0]], Literal(src, i + |head|))
  {
    assert forall k :: 0 <= k < |head| ==> src[i + k] == head[k];
  }

  /** A written text reads back as itself, whatever follows it but a further quote. */
  lemma {:induction false} LiteralRoundTrip(before: string, content: string, rest: string)
    requires rest == "" || rest[0] != '"'
    ensures Literal(before + Escaped(content) + "\"" + rest, |before|) == Some((content, |before| + |Escaped(content)| + 1))
    decreases |content|
  {
    hide Literal, Documented;
    var src := before + Escaped(content) + "\"" + rest;
    if content == "" {
      LiteralEnd(src, |before|);
    } else {
      var head := if content[0] == '"' then "\"\"\"\"" else [content[0]];
      assert before + head + Escaped(content[1..]) + "\"" + rest == src;
      LiteralRoundTrip(before + head, content[1..], rest);
      assert src[|before|..|before| + |head|] == head;
      LiteralStep(src, |before|, head);
      assert [content[0]] + content[1..] == content;
    }
  }

  /** The reading the documentation gives: four quotes stand for one, any other quote closes
      the text where it stands. */
  function Documented(src: string, i: nat): (r: Option<(string, nat)>)
    requires i <= |src|
    decreases |src| - i
  {
    if i == |src| then None
    else if !Quote(src, i) then After([src[i]], Documented(src, i + 1))
    else if Quote(src, i + 1) && Quote(src, i + 2) && Quote(src, i + 3) then After("\"", Documented(src, i + 4))
    else Some(("", i + 1))
  }

  /** How many quotes stand in a row from `i` on. */
  function Quotes(src: string, i: nat): (n: nat)
    requires i <= |src|
    ensures i + n <= |src|
    decreases |src| - i
  {
    if Quote(src, i) then 1 + Quotes(src, i + 1) else 0
  }

  /** The length, modulo 4, of the first run of quotes from `i` on whose length is no multiple
      of 4; 0 when there is none. */
  function FirstOddRun(src: string, i: nat): nat
    requires i <= |src|
    decreases |src| - i
  {
    if i == |src| then 0
    else if Quotes(src, i) % 4 != 0 then Quotes(src, i) % 4
    else FirstOddRun(src, i + (if Quote(src, i) then Quotes(src, i) else 1))
  }

  /** The lexer reads a text as documented just when that run is one quote longer than a
      multiple of 4, or no such run ends it; it says the same, perhaps ending later, just when
      the run is not three quotes longer. */
  lemma {:induction false} LiteralDocumentedIff(src: string, i: nat)
    requires i <= |src|
    ensures Literal(src, i) == Documented(src, i) <==> FirstOddRun(src, i) in {0, 1}
    ensures Says(Literal(src, i)) == Says(Documented(src, i)) <==> FirstOddRun(src, i) != 3
    decreases |src| - i
  {
    hide Documented, Literal, FirstOddRun;
    if i == |src| {
      Unfold(src, i);
    } else if !Quote(src, i) {
      Unfold(src, i);
      LiteralDocumentedIff(src, i + 1);
      AfterSays([src[i]], Literal(src, i + 1), Documented(src, i + 1));
    } else if Quotes(src, i) < 4 {
      Unfold(src, i);
    } else {
      Unfold(src, i);
      LiteralDocumentedIff(src, i + 4);
      FourOff(src, i);
      AfterSays("\"", Literal(src, i + 4), Documented(src, i + 4));
    }
  }

  function Says(r: Option<(string, nat)>): Option<string> { if r.Some? then Some(r.value.0) else None }

  /** One step of both readings. */
  lemma Unfold(src: string, i: nat)
    requires i <= |src|
    ensures i == |src| ==> Literal(src, i) == Documented(src, i) == None && FirstOddRun(src, i) == 0
    ensures i < |src| && !Quote(src, i) ==>
      && Literal(src, i) == After([src[i]], Literal(src, i + 1)) && Documented(src, i) == After([src[i]], Documented(src, i + 1))
      && FirstOddRun(src, i) == FirstOddRun(src, i + 1)
    ensures 0 < Quotes(src, i) < 4 ==>
      && Literal(src, i) == Some((if Quotes(src, i) == 3 then "\"\"" else "", i + Quotes(src, i)))
      && Documented(src, i) == Some(("", i + 1)) && FirstOddRun(src, i) == Quotes(src, i)
    ensures Quotes(src, i) >= 4 ==>
      Literal(src, i) == After("\"", Literal(src, i + 4)) && Documented(src, i) == After("\"", Documented(src, i + 4))
  {
    QuotesAt(src, i);
  }

  lemma QuotesAt(src: string, i: nat)
    requires i <= |src|
    ensures (Quotes(src, i) >= 1 <==> Quote(src, i)) && (Quotes(src, i) >= 2 <==> Quote(src, i) && Quote(src, i + 1))
    ensures Quotes(src, i) >= 3 <==> Quote(src, i) && Quote(src, i + 1) && Quote(src, i + 2)
    ensures Quotes(src, i) >= 4 <==> Quote(src, i) && Quote(src, i + 1) && Quote(src, i + 2) && Quote(src, i + 3)
    ensures Quotes(src, i) >= 4 ==> Quotes(src, i) == 4 + Quotes(src, i + 4)
  {
    if Quote(src, i) && Quote(src, i + 1) && Quote(src, i + 2) {
      assert Quotes(src, i + 2) == 1 + Quotes(src, i + 3);
      if Quote(src, i + 3) { assert Quotes(src, i + 3) == 1 + Quotes(src, i + 4); }
    }
  }

  /** Four quotes fewer at the front of a run. */
  lemma FourOff(src: string, i: nat)
    requires i <= |src| && Quotes(src, i) >= 4
    ensures FirstOddRun(src, i) == FirstOddRun(src, i + 4)
  {
    QuotesAt(src, i);
    hide Quotes;
    var n := Quotes(src, i);
    if n > 4 {
      assert Quotes(src, i + 4) == n - 4 && (n - 4) % 4 == n % 4 && Quote(src, i + 4);
    } else {
      assert n % 4 == 0 && Quote(src, i);
    }
  }

  lemma AfterSays(said: string, r: Option<(string, nat)>, t: Option<(string, nat)>)
    ensures After(said, r) == After(said, t) <==> r == t
    ensures Says(After(said, r)) == Says(After(said, t)) <==> Says(r) == Says(t)
  {
    if r.Some? && t.Some? && said + r.value.0 == said + t.value.0 {
      assert (said + r.value.0)[|said|..] == r.value.0 && (said + t.value.0)[|said|..] == t.value.0;
    }
  }

  /** Three quotes: the lexer ends the text with two of them in it. */
  lemma ThreeQuotes()
    ensures Literal("\"\"\"", 0) == Some(("\"\"", 3)) && Documented("\"\"\"", 0) == Some(("", 1))
  {
    assert Quote("\"\"\"", 0) && Quote("\"\"\"", 1) && Quote("\"\"\"", 2);
  }

  // ---------------------------------------------------------------- tabs

  /** A line that a tab indents belongs to the block of the line before: what follows the tab
      is admitted whatever the line's indentation, while the first token of any other line is
      admitted just at the indentation of its block. */
  lemma TabKeepsBlocks(src: string, ls: seq<Lexeme>, p: nat, a: nat, t: Token, b: nat)
    requires Laid(src, ls + [Bad(p, Tab)]) && OpensLine(ls) && !t.Newline? && !t.Indent? && !t.Dedent?
    requires KeepsLine(src, ls + [Bad(p, Tab)], a) && KeepsLine(src, ls, a)
    ensures Blocks(src, ls + [Bad(p, Tab)]) == Blocks(src, ls)
    ensures Admits(src, ls + [Bad(p, Tab)], Tok(a, t, b))
    ensures Admits(src, ls, Tok(a, t, b)) <==> Leading(src, LineStart(src, a)) == Last(Blocks(src, ls))
  {
    BlocksMore(src, ls, Bad(p, Tab));
  }
}
