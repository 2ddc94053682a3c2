/** The indentation-aware lexer (crates/compiler-core/src/lexer.rs). Whatever the source, the
    stream it hands out reads that source and keeps the layout rules of module Tokens. */
module Lexing {
  import opened Results
  import opened Tokens

  /** What one lexing step yields. */
  datatype Lexed = Good(token: Token) | Wrong(flaw: Flaw)

  function WordToken(word: string): Token {
    if word == "если" then Word(If) else if word == "то" then Word(Then) else
    if word == "иначе" then Word(Else) else if word == "выбор" then Word(Choice) else
    if word == "при" then Word(Case) else if word == "для" then Word(For) else
    if word == "от" then Word(From) else if word == "до" then Word(To) else
    if word == "шаг" then Word(Step) else if word == "пока" then Word(While) else
    if word == "повтор" then Word(Repeat) else if word == "цикл" then Word(Loop) else
    if word == "по" then Word(Until) else if word == "выход" then Word(Exit) else
    if word == "функ" then Word(Func) else if word == "возврат" then Word(Return) else
    if word == "чужие" then Word(Foreign) else if word == "свои" then Word(Own) else
    if word == "вывод" then Word(Output) else if word == "ввод" then Word(Input) else
    if word == "бпс" then Word(NoNewline) else if word == "текста" then Word(OfText) else
    if word == "и" then Word(And) else if word == "или" then Word(Or) else
    if word == "не" then Word(Not) else if word == "пусто" then Word(Empty) else
    if word == "да" then Word(Yes) else if word == "нет" then Word(No) else
    if word == "пс" then Word(LineFeed) else if word == "пи" then Word(Pi) else
    if word == "pi" then Word(LatinPi) else if word == "тип" then Word(Type) else
    if word == "вых" then Word(Out) else if word == "подкл" then Word(Import) else Ident(word)
  }

  lemma KeywordOrName(word: string)
    ensures WordToken(word).Word? || WordToken(word) == Ident(word)
  {
  }

  lemma KeywordSpelled(word: string)
    requires WordToken(word).Word?
    ensures WordToken(word).word.Spelling() == word
  {
    match WordToken(word).word {
      case If => assert word == "если";
      case Then => assert word == "то";
      case Else => assert word == "иначе";
      case Choice => assert word == "выбор";
      case Case => assert word == "при";
      case For => assert word == "для";
      case From => assert word == "от";
      case To => assert word == "до";
      case Step => assert word == "шаг";
      case While => assert word == "пока";
      case Repeat => assert word == "повтор";
      case Loop => assert word == "цикл";
      case Until => assert word == "по";
      case Exit => assert word == "выход";
      case Func => assert word == "функ";
      case Return => assert word == "возврат";
      case Foreign => assert word == "чужие";
      case Own => assert word == "свои";
      case Output => assert word == "вывод";
      case Input => assert word == "ввод";
      case NoNewline => assert word == "бпс";
      case OfText => assert word == "текста";
      case And => assert word == "и";
      case Or => assert word == "или";
      case Not => assert word == "не";
      case Empty => assert word == "пусто";
      case Yes => assert word == "да";
      case No => assert word == "нет";
      case LineFeed => assert word == "пс";
      case Pi => assert word == "пи";
      case LatinPi => assert word == "pi";
      case Type => assert word == "тип";
      case Out => assert word == "вых";
      case Import => assert word == "подкл";
    }
  }

  lemma NoKeyword(word: string, k: Keyword)
    requires WordToken(word) == Ident(word)
    ensures k.Spelling() != word
  {
    hide WordToken, Keyword.Spelling;
    KeywordFound(k);
  }

  /** Every keyword is recognised, and nothing else is. */
  lemma WordsSpelled(word: string)
    ensures match WordToken(word)
      case Word(k) => k.Spelling() == word
      case t => t == Ident(word) && forall k: Keyword :: k.Spelling() != word
  {
    hide WordToken, Keyword.Spelling;
    KeywordOrName(word);
    if WordToken(word).Word? {
      KeywordSpelled(word);
    } else {
      forall k: Keyword ensures k.Spelling() != word { NoKeyword(word, k); }
    }
  }

  lemma FirstFound(k: Keyword)
    requires k in {If, Then, Else, Choice, Case, For, From, To, Step, While, Repeat, Loop, Until}
    ensures WordToken(k.Spelling()) == Word(k)
  {
  }

  lemma SecondFound(k: Keyword)
    requires k in {Exit, Func, Return, Foreign, Own, Output}
    ensures WordToken(k.Spelling()) == Word(k)
  {
  }

  lemma ThirdFound(k: Keyword)
    requires k in {Input, NoNewline, OfText, And}
    ensures WordToken(k.Spelling()) == Word(k)
  {
  }

  lemma FourthFound(k: Keyword)
    requires k in {Or, Not, Empty}
    ensures WordToken(k.Spelling()) == Word(k)
  {
  }

  lemma FifthFound(k: Keyword)
    requires k in {Yes, No, LineFeed}
    ensures WordToken(k.Spelling()) == Word(k)
  {
  }

  lemma SixthFound(k: Keyword)
    requires k in {Pi, LatinPi, Type}
    ensures WordToken(k.Spelling()) == Word(k)
  {
  }

  lemma SeventhFound(k: Keyword)
    requires k in {Out, Import}
    ensures WordToken(k.Spelling()) == Word(k)
  {
  }

  /** No two keywords are spelled the same. */
  lemma KeywordFound(k: Keyword)
    ensures WordToken(k.Spelling()) == Word(k)
  {
    hide WordToken, Keyword.Spelling;
    if k in {If, Then, Else, Choice, Case, For, From, To, Step, While, Repeat, Loop, Until} {
      FirstFound(k);
    } else if k in {Exit, Func, Return, Foreign, Own, Output} {
      SecondFound(k);
    } else if k in {Input, NoNewline, OfText, And} {
      ThirdFound(k);
    } else if k in {Or, Not, Empty} {
      FourthFound(k);
    } else if k in {Yes, No, LineFeed} {
      FifthFound(k);
    } else if k in {Pi, LatinPi, Type} {
      SixthFound(k);
    } else {
      SeventhFound(k);
    }
  }

  /** The pairs of characters that make one operator. */
  predicate Pair(c: char, d: char) {
    || (d == '=' && c in ":=/<>") || (c == '/' && d in "/%") || (c == '*' && d == '*')
  }

  lemma LongestOperator(src: string, a: nat, o: Operator)
    requires o.At(src, a) && (o.Width() == 1 && a + 1 < |src| ==> !Pair(src[a], src[a + 1]))
    ensures forall p: Operator :: p.At(src, a) ==> p.Width() <= o.Width()
  {
  }

  lemma SayNothing(rest: Option<(string, nat)>)
    ensures After("", rest) == rest
  {
    if rest.Some? { assert "" + rest.value.0 == rest.value.0; }
  }

  lemma NothingMore(said: string)
    ensures said + "" == said
  {
  }

  lemma SayMore(said: string, more: string, rest: Option<(string, nat)>)
    ensures After(said, After(more, rest)) == After(said + more, rest)
  {
    if rest.Some? { assert said + (more + rest.value.0) == said + more + rest.value.0; }
  }

  /** Inside parentheses no layout token comes before the end of the source. */
  lemma InsideParentheses(abc: Alphabet, src: string, ls: seq<Lexeme>, upto: nat)
    requires Laid(src, ls) && Reads(abc, src, ls, upto) && upto < |src| && Depth(ls) > 0
    ensures !OpensLine(ls)
  {
  }

  lemma SuffixMore<T>(whole: seq<T>, end: seq<T>, x: T)
    requires |end| <= |whole| && whole[|whole| - |end|..] == end
    ensures (whole + [x])[|whole| - |end|..] == end + [x]
    ensures (whole + [x])[..|whole| - |end|] == whole[..|whole| - |end|]
  {
  }

  class Lexer {
    const source: string
    const abc: Alphabet
    /** How far the character iterator is. */
    var at: nat
    var indents: seq<nat>
    var pending: seq<Lexeme>
    var atLineStart: bool
    var depth: nat
    var emittedEnd: bool
    /** Every lexeme handed out or pending so far, in order. */
    ghost var history: seq<Lexeme>

    /** What holds whatever the lexer is in the middle of: its stack and its depth are those
        of the stream so far, and the stream reads the source up to `at`. */
    ghost predicate Sound()
      reads this
    {
      Streams() && indents == Blocks(source, history) && Reads(abc, source, history, at)
    }

    ghost predicate Streams()
      reads this
    {
      && at <= |source| && Queued() && Laid(source, history) && depth == Depth(history)
    }

    ghost predicate Valid()
      reads this
    {
      && Sound()
      && (atLineStart ==> depth == 0 && pending == [] && OpensLine(history) && LineStart(source, at) == at)
      && (!atLineStart && OpensLine(history) && at < |source| ==> Leading(source, LineStart(source, at)) == Last(indents))
      && (!atLineStart ==> KeepsLine(source, history, at))
      && (emittedEnd ==> !atLineStart && at == |source| && indents == [0])
    }

    /** The lexemes not handed out yet are the last of the stream. */
    ghost predicate Queued()
      reads `pending, `history
    {
      |pending| <= |history| && history[|history| - |pending|..] == pending
    }

    /** What has been handed out. */
    ghost function Handed(): seq<Lexeme>
      requires Queued()
      reads `pending, `history
    {
      history[..|history| - |pending|]
    }

    constructor (source: string, abc: Alphabet)
      ensures Valid() && this.source == source && this.abc == abc && history == []
    {
      this.source, this.abc := source, abc;
      at, indents, pending, atLineStart, depth, emittedEnd := 0, [0], [], true, 0, false;
      history := [];
    }

    function Peek(): (c: Option<char>)
      requires at <= |source|
      reads this
      ensures c.None? <==> at == |source|
      ensures c.Some? ==> c.value == source[at]
    {
      if at < |source| then Some(source[at]) else None
    }

    method SkipToLineEnd()
      requires at <= |source|
      modifies `at
      ensures at == LineEnd(source, old(at))
    {
      while Peek().Some? && !Breaks(Peek().value)
        invariant at <= |source| && LineEnd(source, at) == LineEnd(source, old(at))
        decreases |source| - at
      {
        at := at + 1;
      }
    }

    /** Takes one of \n, \r and \r\n. */
    method ConsumeNewline()
      requires at <= |source|
      modifies `at
      ensures at == AfterBreak(source, old(at)) && Skips(source, old(at), at)
    {
      if Peek() == Some('\r') {
        at := at + 1;
        if Peek() == Some('\n') { at := at + 1; }
      } else if Peek() == Some('\n') {
        at := at + 1;
      }
    }

    /** Takes a comment up to the end of its line. */
    method SkipComment()
      requires at < |source| && source[at] == '\\'
      modifies `at
      ensures at == LineEnd(source, old(at) + 1) && Skips(source, old(at), at)
    {
      at := at + 1;
      SkipToLineEnd();
    }

    method Push(l: Lexeme)
      requires Streams() && Admits(source, history, l) && (l.Bad? || l.token.Layout())
      modifies `pending, `history
      ensures Streams() && Handed() == old(Handed())
      ensures history == old(history) + [l] && pending == old(pending) + [l]
    {
      hide Admits, Laid, Depth;
      LaidMore(source, history, l);
      SuffixMore(history, pending, l);
      pending, history := pending + [l], history + [l];
    }

    /** Takes everything blank, line breaks and comments too. */
    method SkipAllBlanks()
      requires at <= |source| && Reads(abc, source, history, at)
      modifies `at
      ensures old(at) <= at <= |source| && Reads(abc, source, history, at)
    {
      hide Reads;
      while true
        invariant old(at) <= at <= |source| && Reads(abc, source, history, at)
        decreases |source| - at
      {
        label Here:
        if Peek().None? { break; }
        if Blank(Peek().value) {
          at := at + 1;
        } else if Peek() == Some('\\') {
          SkipComment();
        } else {
          break;
        }
        ReadsOn(abc, source, history, old@Here(at), at);
      }
    }

    /** Takes the leading spaces of a line. */
    method CountSpaces() returns (indent: nat)
      requires at <= |source|
      modifies `at
      ensures indent == Leading(source, old(at)) && at == old(at) + indent && Skips(source, old(at), at)
      ensures forall k :: old(at) <= k < at ==> !Breaks(source[k])
    {
      indent := 0;
      while Peek() == Some(' ')
        invariant old(at) + indent == at <= |source|
        invariant forall k :: old(at) <= k < at ==> source[k] == ' '
        decreases |source| - at
      {
        at, indent := at + 1, indent + 1;
      }
      SpacesSkip(source, old(at), indent);
      LeadingSpaces(source, old(at), indent);
    }

    /** Closes the innermost block before position `p`. */
    method CloseBlock(p: nat)
      requires p <= |source| && Streams() && indents == Blocks(source, history) && Reads(abc, source, history, p)
      requires Admits(source, history, Tok(p, Dedent, p))
      modifies `indents, `pending, `history
      ensures Streams() && indents == Blocks(source, history) && Reads(abc, source, history, p)
      ensures indents == old(indents[..|indents| - 1]) && Handed() == old(Handed())
      ensures history == old(history) + [Tok(p, Dedent, p)] && pending == old(pending) + [Tok(p, Dedent, p)]
    {
      hide Reads, Blocks, Depth, Leading, LineStart, Laid, Queued, Handed;
      indents := indents[..|indents| - 1];
      TokenRead(abc, source, history, p, Dedent, p, p);
      BlocksMore(source, history, Tok(p, Dedent, p));
      Push(Tok(p, Dedent, p));
    }

    /** A line with content: opens a block, closes blocks, or stays in the block. */
    method EnterBlock(lineStart: nat, indent: nat)
      requires Sound() && pending == [] && !atLineStart && !emittedEnd && depth == 0 && OpensLine(history)
      requires lineStart + indent == at < |source| && LineStart(source, lineStart) == lineStart
      requires indent == Leading(source, lineStart) && LineStart(source, at) == lineStart
      requires Reads(abc, source, history, lineStart) && Skips(source, lineStart, at)
      modifies `indents, `pending, `history
      ensures Valid() && Handed() == old(history)
      ensures indents == Reindented(old(indents), indent)
    {
      hide Reads, Blocks, Depth, Laid, Leading, LineStart, Skips, Queued, Handed;
      EmptyQueue();
      LaidClimbs(source, history);
      if indent > Last(indents) {
        indents := indents + [indent];
        TokenRead(abc, source, history, lineStart, Indent, lineStart, at);
        BlocksMore(source, history, Tok(lineStart, Indent, lineStart));
        Push(Tok(lineStart, Indent, lineStart));
      } else if indent < Last(indents) {
        while Last(indents) > indent
          invariant Streams() && |indents| > 0 && indents == Blocks(source, history) && depth == 0 && OpensLine(history)
          invariant Reads(abc, source, history, lineStart) && Handed() == old(history)
          invariant Closed(indents, indent) == Closed(old(indents), indent)
          decreases |indents|
        {
          LaidClimbs(source, history);
          CloseBlock(lineStart);
        }
        if Last(indents) != indent {
          SkipsNothing(source, lineStart);
          FlawRead(abc, source, history, lineStart, Misaligned, lineStart);
          BlocksMore(source, history, Bad(lineStart, Misaligned));
          Push(Bad(lineStart, Misaligned));
        }
        ReadsOn(abc, source, history, lineStart, at);
      }
    }

    /** Tabs may not indent; the line goes on in the block of the line before. */
    method RejectTab()
      requires Sound() && pending == [] && !atLineStart && !emittedEnd && at < |source| && source[at] == '\t' && OpensLine(history)
      modifies `pending, `history
      ensures Valid() && Handed() == old(history)
      ensures history == old(history) + [Bad(at, Tab)] && Blocks(source, history) == old(Blocks(source, history))
    {
      hide Reads, Blocks, Depth, Laid, Leading, LineStart, Skips, Queued, Handed;
      EmptyQueue();
      SkipsNothing(source, at);
      FlawRead(abc, source, history, at, Tab, at);
      BlocksMore(source, history, Bad(at, Tab));
      Push(Bad(at, Tab));
    }

    /** Takes the rest of a line that is blank or a comment; says whether it was. */
    method SkipEmptyLine() returns (skipped: bool)
      requires at < |source|
      modifies `at
      ensures old(at) <= at <= |source| && Skips(source, old(at), at)
      ensures if skipped then old(at) < at && (at < |source| ==> LineStart(source, at) == at) else at == old(at)
      ensures skipped <==> Breaks(source[old(at)]) || source[old(at)] == '\\'
      ensures skipped ==> at == AfterBreak(source, if Breaks(source[old(at)]) then old(at) else LineEnd(source, old(at) + 1))
    {
      skipped := true;
      if Breaks(source[at]) {
        ConsumeNewline();
      } else if source[at] == '\\' {
        SkipComment();
        label Comment:
        ConsumeNewline();
        SkipsOn(source, old(at), old@Comment(at), at);
      } else {
        skipped := false;
      }
    }

    lemma EmptyQueue()
      requires pending == []
      ensures Queued() && Handed() == history
    {
    }

    /** The start of a line. Inside parentheses its indentation means nothing; outside, it
        opens and closes blocks. Lines of blanks and comments do not count. */
    method ProcessLineStart()
      requires Sound() && pending == [] && !emittedEnd
      requires depth == 0 ==> OpensLine(history) && LineStart(source, at) == at
      modifies `at, `indents, `pending, `atLineStart, `history
      ensures Sound() && !atLineStart && old(at) <= at
      ensures depth > 0 ==> history == old(history) && pending == []
      ensures depth == 0 ==> Valid() && at == ContentAt(source, old(at))
      ensures depth == 0 ==>
        indents == (if at == |source| || source[at] == '\t' then old(indents) else Reindented(old(indents), Leading(source, LineStart(source, at))))
      ensures depth == 0 && at < |source| && source[at] == '\t' ==> history == old(history) + [Bad(at, Tab)]
      ensures Handed() == old(history)
    {
      hide Queued, Reads, Blocks, Depth, Laid, Leading, Skips, LineEnd, LineStart, ContentAt, AfterBreak, Reindented, Handed;
      EmptyQueue();
      atLineStart := false;
      if depth > 0 {
        SkipAllBlanks();
        return;
      }
      while true
        invariant Sound() && depth == 0 && OpensLine(history) && (at < |source| ==> LineStart(source, at) == at)
        invariant old(at) <= at && history == old(history) && pending == [] && !atLineStart && !emittedEnd
        invariant indents == old(indents) && ContentAt(source, at) == ContentAt(source, old(at))
        decreases |source| - at
      {
        var lineStart := at;
        var indent := CountSpaces();
        ReadsOn(abc, source, history, lineStart, at);
        ContentStep(source, lineStart);
        if Peek() == Some('\t') {
          RejectTab();
          return;
        }
        if Peek().None? { return; }
        label Spaces:
        var skipped := SkipEmptyLine();
        if !skipped {
          StartsLine(source, lineStart);
          SameLine(source, lineStart, at);
          EnterBlock(lineStart, indent);
          return;
        }
        ReadsOn(abc, source, history, old@Spaces(at), at);
      }
    }

    /** The end of the source closes every block that is still open. */
    method EmitEnd() returns (l: Option<Lexeme>)
      requires Valid() && pending == [] && !atLineStart && at == |source|
      modifies `indents, `pending, `emittedEnd, `history
      ensures Valid() && emittedEnd
      ensures l.Some? ==> Handed() == old(history) + [l.value] && |indents| + |pending| < old(|indents|)
      ensures l.None? ==> history == old(history) && pending == []
    {
      hide Reads, Blocks, Depth, Laid, Leading, LineStart, Queued, Handed;
      EmptyQueue();
      LaidClimbs(source, history);
      if emittedEnd { return None; }
      emittedEnd := true;
      while |indents| > 1
        invariant Streams() && |indents| > 0 && indents == Blocks(source, history) && Reads(abc, source, history, |source|)
        invariant Handed() == old(history) && at == |source| && |indents| + |pending| == old(|indents|)
        invariant KeepsLine(source, history, at) && emittedEnd && !atLineStart && (old(|indents|) == 1 ==> pending == [])
        decreases |indents|
      {
        CloseBlock(|source|);
      }
      LaidClimbs(source, history);
      l := PopPending();
    }

    /** The front of the queue, if there is one. */
    method PopPending() returns (l: Option<Lexeme>)
      requires Queued()
      modifies `pending
      ensures Queued() && (l.Some? <==> old(pending) != [])
      ensures l.Some? ==> |pending| < |old(pending)| && Handed() == old(Handed()) + [l.value]
      ensures l.None? ==> pending == [] && Handed() == old(Handed()) == history
    {
      if pending == [] { return None; }
      l := Some(pending[0]);
      pending := pending[1..];
    }

    // ---------------------------------------------------------------- tokens

    method LexWord(start: nat) returns (t: Token)
      requires start + 1 == at <= |source| && WordStart(abc, source[start])
      modifies `at
      ensures start < at <= |source| && Spells(abc, source, start, t, at) && (t.Word? || t.Ident?)
    {
      while Peek().Some? && WordPart(abc, Peek().value)
        invariant start < at <= |source| && forall k :: start < k < at ==> WordPart(abc, source[k])
        decreases |source| - at
      {
        at := at + 1;
      }
      t := WordToken(source[start..at]);
      WordsSpelled(source[start..at]);
    }

    method SkipDigits()
      requires at <= |source|
      modifies `at
      ensures at == DigitsEnd(source, old(at))
    {
      while Peek().Some? && Digit(Peek().value)
        invariant at <= |source| && DigitsEnd(source, at) == DigitsEnd(source, old(at))
        decreases |source| - at
      {
        at := at + 1;
      }
    }

    method SkipFraction() returns (found: bool)
      requires at <= |source|
      modifies `at
      ensures at == FractionEnd(source, old(at)) && (found <==> old(at) < |source| && source[old(at)] == '.')
      ensures found <==> old(at) < at
    {
      found := Peek() == Some('.');
      if found {
        at := at + 1;
        SkipDigits();
      }
    }

    method SkipExponent() returns (found: bool)
      requires at <= |source|
      modifies `at
      ensures at == ExponentEnd(source, old(at)) && (found <==> old(at) < |source| && ExponentSign(source[old(at)]))
      ensures found <==> old(at) < at
    {
      found := Peek().Some? && ExponentSign(Peek().value);
      if found {
        at := at + 1;
        if Peek().Some? && Peek().value in "+-" { at := at + 1; }
        SkipDigits();
      }
    }

    method LexNumber(start: nat) returns (r: Lexed)
      requires start + 1 == at <= |source| && Digit(source[start])
      modifies `at
      ensures at == NumberEnd(source, start) > start
      ensures r.Good? ==> Spells(abc, source, start, r.token, at) && (r.token.Integer? || r.token.Real?)
      ensures r.Wrong? ==> Flawed(abc, source, start, r.flaw) && FlawEnd(source, start, r.flaw) == at && !r.flaw.Misaligned?
    {
      assert DigitsEnd(source, start) == DigitsEnd(source, at);
      SkipDigits();
      var hasDecimal := SkipFraction();
      var hasExponent := SkipExponent();
      var text := source[start..at];
      if hasDecimal || hasExponent {
        var parsed := abc.parse(InLatin(text));
        r := if parsed.Some? then Good(Real(parsed.value)) else Wrong(BadReal);
      } else {
        r := if Decimal(text) < 0x8000_0000_0000_0000 then Good(Integer(Decimal(text))) else Wrong(IntegerTooLarge);
      }
    }

    method LexText(start: nat) returns (r: Lexed)
      requires start + 1 == at <= |source| && source[start] == '"'
      modifies `at
      ensures start < at <= |source|
      ensures r.Good? ==> r.token.Text? && Spells(abc, source, start, r.token, at)
      ensures r.Wrong? ==> Flawed(abc, source, start, r.flaw) && FlawEnd(source, start, r.flaw) == at && !r.flaw.Misaligned?
    {
      hide NumberEnd, DigitsEnd, WordSpan, LineStart, WordPart;
      var said := "";
      SayNothing(Literal(source, at));
      while at < |source|
        invariant start < at <= |source| && Literal(source, start + 1) == After(said, Literal(source, at))
        decreases |source| - at
      {
        label Here:
        var c := source[at];
        at := at + 1;
        if c != '"' {
          SayMore(said, [c], Literal(source, at));
          said := said + [c];
        } else if Peek() == Some('"') {
          at := at + 1;
          if Peek() == Some('"') {
            at := at + 1;
            if Peek() == Some('"') {
              at := at + 1;
              SayMore(said, "\"", Literal(source, at));
              said := said + "\"";
            } else {
              return Good(Text(said + "\"\""));
            }
          } else {
            NothingMore(said);
            return Good(Text(said));
          }
        } else {
          NothingMore(said);
          return Good(Text(said));
        }
      }
      r := Wrong(Unterminated);
    }

    method LexSymbol(c: char, start: nat) returns (r: Lexed)
      requires start + 1 == at <= |source| && c == source[start] && !WordPart(abc, c) && !Blank(c) && c !in "\"\\"
      modifies `at
      ensures start < at <= |source|
      ensures r.Good? ==> r.token.Sign? && Spells(abc, source, start, r.token, at)
      ensures r.Wrong? ==> Flawed(abc, source, start, r.flaw) && FlawEnd(source, start, r.flaw) == at && !r.flaw.Misaligned?
    {
      hide Literal, NumberEnd, DigitsEnd, WordSpan, LineStart;
      var next, o := Peek(), Colon;
      match c {
        case ':' => o := if next == Some('=') then Declare else Colon;
        case '=' => o := if next == Some('=') then Equal else Assign;
        case '/' =>
          o := if next == Some('/') then SlashSlash else if next == Some('%') then SlashPercent
               else if next == Some('=') then NotEqual else Slash;
        case '*' => o := if next == Some('*') then StarStar else Star;
        case '<' => o := if next == Some('=') then LessOrEqual else Less;
        case '>' => o := if next == Some('=') then GreaterOrEqual else Greater;
        case '+' => o := Plus;
        case '-' => o := Minus;
        case '#' => o := Hash;
        case '(' => o := LParen;
        case ')' => o := RParen;
        case '[' => o := LBracket;
        case ']' => o := RBracket;
        case ',' => o := Comma;
        case '.' => o := Dot;
        case _ => return Wrong(Unexpected);
      }
      if o.Width() == 2 { at := at + 1; }
      LongestOperator(source, start, o);
      r := Good(Sign(o));
    }

    method LexOne() returns (r: Lexed)
      requires at < |source| && !Blank(source[at]) && source[at] != '\\'
      modifies `at
      ensures old(at) < at <= |source|
      ensures r.Good? ==> !r.token.Layout() && Spells(abc, source, old(at), r.token, at)
      ensures r.Wrong? ==> Flawed(abc, source, old(at), r.flaw) && FlawEnd(source, old(at), r.flaw) == at && !r.flaw.Misaligned?
    {
      hide Spells, Flawed, FlawEnd;
      var start, c := at, source[at];
      at := at + 1;
      if WordStart(abc, c) {
        var word := LexWord(start);
        r := Good(word);
      } else if Digit(c) {
        r := LexNumber(start);
      } else if c == '"' {
        r := LexText(start);
      } else {
        r := LexSymbol(c, start);
      }
    }

    /** One token of the line. */
    method LexToken() returns (l: Lexeme)
      requires Valid() && pending == [] && !atLineStart && !emittedEnd
      requires at < |source| && !Blank(source[at]) && source[at] != '\\'
      modifies `at, `depth, `history
      ensures Valid() && history == old(history) + [l] && old(at) < at
    {
      hide Reads, Blocks, Depth, Laid, Leading, LineStart, Spells, Flawed, FlawEnd, KeepsLine, Queued, Handed;
      var start := at;
      var r := LexOne();
      SkipsNothing(source, at);
      if r.Good? {
        if r.token in {Sign(LParen), Sign(LBracket)} {
          depth := depth + 1;
        } else if r.token in {Sign(RParen), Sign(RBracket)} {
          if depth > 0 { depth := depth - 1; }
        }
        l := Tok(start, r.token, at);
        TokenRead(abc, source, history, start, r.token, at, at);
      } else {
        l := Bad(start, r.flaw);
        FlawRead(abc, source, history, start, r.flaw, at);
      }
      BlocksMore(source, history, l);
      LaidMore(source, history, l);
      LineBegun(source, history, l, at);
      history := history + [l];
      EmptyQueue();
    }

    // ---------------------------------------------------------------- the stream

    /** Takes spaces, tabs and semicolons within a line. */
    method SkipInline()
      requires Valid() && !atLineStart
      modifies `at
      ensures Valid() && old(at) <= at
      ensures at < |source| ==> Breaks(source[at]) || !Blank(source[at])
    {
      hide Reads, Blocks, Depth, Laid, Leading, Skips;
      while Peek().Some? && Peek().value in " \t;"
        invariant Valid() && old(at) <= at
        decreases |source| - at
      {
        label Here:
        at := at + 1;
        BlankSkips(source, old@Here(at));
        ReadsOn(abc, source, history, old@Here(at), at);
      }
    }

    /** Takes a comment within a line, leaving its line break. */
    method SkipInlineComment()
      requires Valid() && !atLineStart && at < |source| && source[at] == '\\'
      modifies `at
      ensures Valid() && old(at) < at && (at < |source| ==> Breaks(source[at]))
    {
      hide Reads, Blocks, Depth, Laid, Leading, LineEnd;
      SkipComment();
      ReadsOn(abc, source, history, old(at), at);
      LineStays(source, old(at), at);
    }

    /** Takes a line break; outside parentheses it is a token. */
    method TakeNewline() returns (l: Option<Lexeme>)
      requires Valid() && pending == [] && !atLineStart && !emittedEnd && at < |source| && Breaks(source[at])
      modifies `at, `atLineStart, `history
      ensures Valid() && old(at) < at && (l.Some? <==> depth == 0)
      ensures history == old(history) + (if l.Some? then [l.value] else [])
    {
      hide Reads, Blocks, Depth, Laid, Leading;
      var pos, c := at, source[at];
      at := at + 1;
      if c == '\r' && Peek() == Some('\n') { at := at + 1; }
      SkipsNothing(source, at);
      if depth > 0 {
        assert Skips(source, pos, at);
        InsideParentheses(abc, source, history, pos);
        ReadsOn(abc, source, history, pos, at);
        return None;
      }
      atLineStart := true;
      var newline := Tok(pos, Newline, pos + 1);
      TokenRead(abc, source, history, pos, Newline, pos + 1, at);
      BlocksMore(source, history, newline);
      LaidMore(source, history, newline);
      history := history + [newline];
      return Some(newline);
    }

    /** The iterator has moved on, or spent its line start, or used up a block or a pending lexeme. */
    predicate Progress(wasAt: nat, wasLineStart: bool, wasOpen: nat)
      reads this
    {
      || wasAt < at
      || (wasAt == at && wasLineStart && !atLineStart)
      || (wasAt == at && wasLineStart == atLineStart && |indents| + |pending| < wasOpen)
    }

    /** A line start: a change of indentation, or the end of the source. */
    method StartLine() returns (l: Option<Lexeme>)
      requires Valid() && atLineStart
      modifies `at, `indents, `pending, `atLineStart, `emittedEnd, `history
      ensures Valid() && !atLineStart && old(at) <= at
      ensures l.Some? ==> Handed() == old(history) + [l.value]
      ensures l.None? ==> pending == [] && history == old(history) && (at == |source| ==> emittedEnd)
    {
      hide Queued, Handed, Reads, Blocks, Depth, Laid, Leading, LineStart, Skips;
      ProcessLineStart();
      l := PopPending();
      if l.None? && Peek().None? { l := EmitEnd(); }
    }

    /** The next lexeme, or None at the end. */
    method Next() returns (l: Option<Lexeme>)
      requires Valid()
      modifies `at, `indents, `pending, `atLineStart, `depth, `emittedEnd, `history
      ensures Valid()
      ensures l.Some? ==> Handed() == old(Handed()) + [l.value]
      ensures l.Some? ==> Progress(old(at), old(atLineStart), old(|indents| + |pending|))
      ensures l.None? ==> Handed() == old(Handed()) == history && emittedEnd
      decreases |source| - at
    {
      hide Queued, Handed, Reads, Blocks, Depth, Laid, Leading, LineStart, Skips;
      l := PopPending();
      if l.Some? { return; }
      if atLineStart {
        l := StartLine();
        if l.Some? || at == |source| { return; }
      }
      SkipInline();
      if Peek() == Some('\\') { SkipInlineComment(); }
      if Peek().None? {
        l := EmitEnd();
      } else if Breaks(Peek().value) {
        l := TakeNewline();
        if l.None? {
          EmptyQueue();
          l := Next();
        }
      } else {
        var token := LexToken();
        l := Some(token);
      }
      if pending == [] { EmptyQueue(); }
    }
  }

  /** What a caller of the lexer gets from a source, taking lexemes until there are no more:
      a stream that reads all of the source and keeps the layout rules. */
  method Tokenize(source: string, abc: Alphabet) returns (ls: seq<Lexeme>)
    ensures Reads(abc, source, ls, |source|) && Laid(source, ls) && Blocks(source, ls) == [0] && KeepsLine(source, ls, |source|)
  {
    var lexer := new Lexer(source, abc);
    ls := [];
    while true
      invariant lexer.Valid() && lexer.source == source && lexer.abc == abc && lexer.Handed() == ls
      decreases |source| - lexer.at, lexer.atLineStart, |lexer.indents| + |lexer.pending|
    {
      var l := lexer.Next();
      if l.None? { break; }
      ls := ls + [l.value];
    }
  }

  /** What the layout rules come to, for a whole stream. */
  lemma LaidOut(source: string, ls: seq<Lexeme>)
    requires Laid(source, ls) && Blocks(source, ls) == [0]
    ensures Level(ls) == 0 && forall i :: 0 <= i <= |ls| ==> Level(ls[..i]) >= 0
    ensures forall i :: 0 <= i < |ls| && ls[i].Tok? && ls[i].token in {Newline, Indent} ==> Depth(ls[..i]) == 0
    ensures forall i :: 0 <= i < |ls| && ls[i].Tok? && ls[i].token.Dedent? && Depth(ls[..i]) > 0 ==> ls[i].start == |source|
  {
    LaidClimbs(source, ls);
    forall i | 0 <= i <= |ls|
      ensures Level(ls[..i]) >= 0
      ensures i < |ls| ==> Admits(source, ls[..i], ls[i])
    {
      LaidPrefix(source, ls, i);
      LaidClimbs(source, ls[..i]);
      if i < |ls| { LaidAt(source, ls, i); }
    }
  }
}
