/**
  A newline separates sources for good: no piece read before one can depend on what
  follows it, so tokenizing is a homomorphism on sources joined by newlines.
 */
module GateLexerTheorems {
  import opened Wrappers
  import opened GateLexer

  // ----- a newline ends whatever precedes it -----

  predicate NewlineFirst(u: string) {
    u != [] && u[0] == '\n'
  }

  lemma TakeAppend(s: string, u: string, n: nat)
    requires n <= |s|
    ensures (s + u)[..n] == s[..n]
  {
  }

  lemma DropAppend(s: string, u: string, n: nat)
    requires n <= |s|
    ensures (s + u)[n..] == s[n..] + u
  {
  }

  lemma SliceAppend(s: string, u: string, m: nat, n: nat)
    requires m <= n <= |s|
    ensures (s + u)[m..n] == s[m..n]
  {
  }

  lemma {:induction false} SpanStops(s: string, u: string, class_: char -> bool)
    requires NewlineFirst(u) && !class_('\n')
    ensures Span(s + u, class_) == Span(s, class_)
  {
    if s == [] {
      assert s + u == u;
    } else {
      assert (s + u)[1..] == s[1..] + u;
      SpanStops(s[1..], u, class_);
    }
  }

  lemma {:induction false} SpanStopsFrom(s: string, u: string, j: nat, class_: char -> bool)
    requires NewlineFirst(u) && !class_('\n') && j <= |s|
    ensures Span((s + u)[j..], class_) == Span(s[j..], class_)
  {
    assert (s + u)[j..] == s[j..] + u;
    SpanStops(s[j..], u, class_);
  }

  lemma {:induction false} CommentTailStops(nested: bool, s: string, u: string, depth: nat)
    requires NewlineFirst(u) && depth > 0
    requires CommentTail(nested, s, depth).Some?
    ensures CommentTail(nested, s + u, depth) == CommentTail(nested, s, depth)
    decreases |s|
  {
    assert (s + u)[1..] == s[1..] + u;
    if |s| > 1 {
      assert (s + u)[2..] == s[2..] + u;
    }
    if nested && s[0] == '/' && Peek(s, 1) == '*' {
      CommentTailStops(nested, s[2..], u, depth + 1);
    } else if s[0] == '*' && Peek(s, 1) == '/' {
      if depth > 1 {
        CommentTailStops(nested, s[2..], u, depth - 1);
      }
    } else {
      CommentTailStops(nested, s[1..], u, depth);
    }
  }

  lemma {:induction false} QuotedBodyStops(s: string, u: string, close: char, backslash: bool)
    requires NewlineFirst(u) && close != '\n' && close != '\\'
    requires QuotedBody(s, close, backslash).Some?
    ensures QuotedBody(s + u, close, backslash) == QuotedBody(s, close, backslash)
    decreases |s|
  {
    assert (s + u)[1..] == s[1..] + u;
    if |s| > 1 {
      assert (s + u)[2..] == s[2..] + u;
    }
    if backslash && s[0] == '\\' && |s| > 1 {
      QuotedBodyStops(s[2..], u, close, backslash);
    } else if s[0] == close {
      if |s| > 1 && s[1] == close {
        QuotedBodyStops(s[2..], u, close, backslash);
      }
    } else {
      QuotedBodyStops(s[1..], u, close, backslash);
    }
  }

  lemma {:induction false} IndexStops(s: string, u: string, needle: string)
    requires Index(s, needle).Some?
    ensures Index(s + u, needle) == Index(s, needle)
  {
    TakeAppend(s, u, |needle|);
    if Index(s, needle).value > 0 {
      DropAppend(s, u, 1);
      IndexStops(s[1..], u, needle);
    }
  }

  lemma QuotedOutcomeStops(s: string, u: string, at: nat, kind: TokenKind, close: char, backslash: bool)
    requires NewlineFirst(u) && close != '\n' && close != '\\' && at < |s|
    requires QuotedOutcome(s, at, kind, close, backslash).Took?
    ensures QuotedOutcome(s + u, at, kind, close, backslash) == QuotedOutcome(s, at, kind, close, backslash)
  {
    assert (s + u)[at + 1..] == s[at + 1..] + u;
    QuotedBodyStops(s[at + 1..], u, close, backslash);
  }

  lemma TaggedOutcomeStops(s: string, u: string, n: nat)
    requires 1 <= n <= |s|
    requires TaggedOutcome(s, n).Took?
    ensures TaggedOutcome(s + u, n) == TaggedOutcome(s, n)
  {
    hide Index;
    var end := Index(s[n..], s[..n]).value;
    TakeAppend(s, u, n);
    DropAppend(s, u, n);
    IndexStops(s[n..], u, s[..n]);
    SliceAppend(s, u, n, n + end);
  }

  lemma WholeStops(kind: TokenKind, s: string, u: string, n: nat)
    requires n <= |s|
    ensures Whole(kind, s + u, n) == Whole(kind, s, n)
  {
    assert (s + u)[..n] == s[..n];
  }

  lemma DollarOutcomeStops(s: string, u: string)
    requires NewlineFirst(u) && s != [] && s[0] == '$'
    requires DollarOutcome(s).Took?
    ensures DollarOutcome(s + u) == DollarOutcome(s)
  {
    hide TaggedOutcome, Whole;
    SpanStopsFrom(s, u, 1, IsDigit);
    SpanStopsFrom(s, u, 1, IsTagPart);
    if IsDigit(Peek(s, 1)) {
      WholeStops(Variable, s, u, 1 + Span(s[1..], IsDigit));
    } else {
      var j := 1 + Span(s[1..], IsTagPart);
      if j >= |s| || s[j] != '$' {
        WholeStops(Punct, s, u, 1);
      } else {
        TaggedOutcomeStops(s, u, j + 1);
      }
    }
  }

  lemma VariableSizeStops(s: string, u: string)
    requires NewlineFirst(u) && s != [] && s[0] == '@'
    ensures VariableSize(s + u) == VariableSize(s)
  {
    SpanStopsFrom(s, u, 1, IsWordPart);
    if Peek(s, 1) == '@' {
      SpanStopsFrom(s, u, 2, IsWordPart);
    }
  }

  lemma FractionEndStops(s: string, u: string, j: nat)
    requires NewlineFirst(u) && j <= |s|
    ensures FractionEnd(s + u, j) == FractionEnd(s, j)
  {
    if j < |s| && s[j] == '.' {
      SpanStopsFrom(s, u, j + 1, IsDigit);
    }
  }

  lemma ExponentEndStops(s: string, u: string, j: nat)
    requires NewlineFirst(u) && j <= |s|
    ensures ExponentEnd(s + u, j) == ExponentEnd(s, j)
  {
    if j < |s| && (s[j] == 'e' || s[j] == 'E') {
      var k := if j + 1 < |s| && (s[j + 1] == '+' || s[j + 1] == '-') then j + 2 else j + 1;
      if k < |s| && IsDigit(s[k]) {
        SpanStopsFrom(s, u, k, IsDigit);
      }
    }
  }

  lemma NumberSizeStops(s: string, u: string)
    requires NewlineFirst(u) && s != [] && IsDigit(s[0])
    ensures NumberSize(s + u) == NumberSize(s)
  {
    if s[0] == '0' && |s| > 1 && (s[1] == 'x' || s[1] == 'X') {
      SpanStopsFrom(s, u, 2, IsHexDigit);
    } else {
      SpanStops(s, u, IsDigit);
      FractionEndStops(s, u, Span(s, IsDigit));
      ExponentEndStops(s, u, FractionEnd(s, Span(s, IsDigit)));
    }
  }

  lemma PrefixAtStops(d: Dialect, fold: Fold, s: string, u: string, j: nat)
    requires NewlineFirst(u) && j <= |s|
    ensures PrefixAt(d, fold, s + u, j) == PrefixAt(d, fold, s, j)
  {
    TakeAppend(s, u, j);
  }

  lemma WordOutcomeStops(d: Dialect, fold: Fold, s: string, u: string)
    requires NewlineFirst(u) && s != []
    requires WordOutcome(d, fold, s).Took?
    ensures WordOutcome(d, fold, s + u) == WordOutcome(d, fold, s)
  {
    SpanStops(s, u, WordClass(d));
    var j := Span(s, WordClass(d));
    PrefixAtStops(d, fold, s, u, j);
    WholeStops(Word, s, u, j);
    hide PrefixAt, Whole, QuotedOutcome;
    match PrefixAt(d, fold, s, j)
    case NoPrefix =>
    case Prefix(kind, at, close, backslash) => QuotedOutcomeStops(s, u, at, kind, close, backslash);
  }

  lemma BlockCommentOutcomeStops(d: Dialect, s: string, u: string)
    requires NewlineFirst(u) && |s| >= 2
    requires BlockCommentOutcome(d, s).Took?
    ensures BlockCommentOutcome(d, s + u) == BlockCommentOutcome(d, s)
  {
    if d.executableComments && Peek(s, 2) == '!' {
      SpanStopsFrom(s, u, 3, IsDigit);
    } else {
      assert (s + u)[2..] == s[2..] + u;
      CommentTailStops(d.nestedBlockComments, s[2..], u, 1);
    }
  }

  lemma PeekStops(s: string, u: string)
    requires NewlineFirst(u) && s != []
    ensures (s + u)[0] == s[0]
    ensures Peek(s + u, 1) == if |s| > 1 then s[1] else '\n'
  {
  }

  lemma LineCommentStartsStops(d: Dialect, s: string, u: string)
    requires NewlineFirst(u) && |s| > 1
    ensures LineCommentStarts(d, s + u) == LineCommentStarts(d, s)
  {
  }

  lemma LeadStops(d: Dialect, s: string, exec: bool, u: string)
    requires NewlineFirst(u) && s != []
    ensures LeadOf(d, s + u, exec) == LeadOf(d, s, exec)
  {
    hide LineCommentStarts, IsPunct, IsSpace, StartsWord, NewlineFirst;
    PeekStops(s, u);
    if |s| > 1 {
      LineCommentStartsStops(d, s, u);
    }
  }

  /** A piece read from `s` is read the same when a newline and anything at all follow `s`. */
  lemma NextStops(d: Dialect, fold: Fold, s: string, exec: bool, u: string)
    requires NewlineFirst(u) && s != []
    requires Next(d, fold, s, exec).Took?
    ensures Next(d, fold, s + u, exec) == Next(d, fold, s, exec)
  {
    LeadStops(d, s, exec, u);
    hide LeadOf, BlockCommentOutcome, QuotedOutcome, DollarOutcome, VariableSize, NumberSize, WordOutcome, Whole;
    match LeadOf(d, s, exec)
    case AtSpace =>
    case AtExecClose =>
    case AtDashes => SpanStopsFrom(s, u, 2, InLine);
    case AtHash => SpanStopsFrom(s, u, 1, InLine);
    case AtBlockComment => BlockCommentOutcomeStops(d, s, u);
    case AtQuote(kind, close, backslash) => QuotedOutcomeStops(s, u, 0, kind, close, backslash);
    case AtDollar => DollarOutcomeStops(s, u);
    case AtVariable => VariableSizeStops(s, u); WholeStops(Variable, s, u, VariableSize(s));
    case AtNumber => NumberSizeStops(s, u); WholeStops(Number, s, u, NumberSize(s));
    case AtWord => WordOutcomeStops(d, fold, s, u);
    case AtPunct => WholeStops(Punct, s, u, 1);
    case AtUnsupported =>
  }

  function Concat(gs: seq<Segment>, rest: Result<seq<Segment>, LexError>): Result<seq<Segment>, LexError> {
    match rest
    case Err(e) => Err(e)
    case Ok(hs) => Ok(gs + hs)
  }

  lemma ConcatCons(g: Segment, hs: seq<Segment>, r: Result<seq<Segment>, LexError>)
    ensures Cons(g, Concat(hs, r)) == Concat([g] + hs, r)
  {
    if r.Ok? {
      assert [g] + (hs + r.value) == ([g] + hs) + r.value;
    }
  }

  lemma ConcatNothing(r: Result<seq<Segment>, LexError>)
    ensures Concat([], r) == r
  {
    if r.Ok? {
      assert [] + r.value == r.value;
    }
  }

  lemma ScanTook(d: Dialect, fold: Fold, s: string, depth: nat)
    requires s != [] && Next(d, fold, s, depth > 0).Took?
    ensures var Took(piece, n) := Next(d, fold, s, depth > 0);
            Scan(d, fold, s, depth) == Cons(Segment(piece, s[..n]), Scan(d, fold, s[n..], DepthAfter(piece, depth)))
  {
    hide Next;
  }

  lemma NextOfScanned(d: Dialect, fold: Fold, s: string, depth: nat)
    requires s != [] && Scan(d, fold, s, depth).Ok?
    ensures Next(d, fold, s, depth > 0).Took?
  {
    hide Next;
  }

  /** Scanning `s` then a newline and more is scanning `s`, then scanning the rest afresh. */
  lemma {:induction false} ScanAppend(d: Dialect, fold: Fold, s: string, depth: nat, u: string)
    requires NewlineFirst(u)
    requires Scan(d, fold, s, depth).Ok?
    ensures Scan(d, fold, s + u, depth) == Concat(Scan(d, fold, s, depth).value, Scan(d, fold, u, 0))
    decreases |s|
  {
    if s == [] {
      assert s + u == u;
      ConcatNothing(Scan(d, fold, u, 0));
    } else {
      hide Scan, Next, Concat, NewlineFirst;
      NextOfScanned(d, fold, s, depth);
      NextStops(d, fold, s, depth > 0, u);
      var Took(piece, n) := Next(d, fold, s, depth > 0);
      ScanTook(d, fold, s, depth);
      ScanTook(d, fold, s + u, depth);
      TakeAppend(s, u, n);
      DropAppend(s, u, n);
      ScanAppend(d, fold, s[n..], DepthAfter(piece, depth), u);
      ConcatCons(Segment(piece, s[..n]), Scan(d, fold, s[n..], DepthAfter(piece, depth)).value, Scan(d, fold, u, 0));
    }
  }

  lemma {:induction false} FlattenAppend(gs: seq<Segment>, hs: seq<Segment>)
    ensures Flatten(gs + hs) == Flatten(gs) + Flatten(hs)
  {
    if gs == [] {
      assert gs + hs == hs;
    } else {
      assert (gs + hs)[1..] == gs[1..] + hs;
      FlattenAppend(gs[1..], hs);
      assert gs[0].slice + (Flatten(gs[1..]) + Flatten(hs)) == (gs[0].slice + Flatten(gs[1..])) + Flatten(hs);
    }
  }

  lemma FlattenCons(g: Segment, gs: seq<Segment>)
    ensures Flatten([g] + gs) == g.slice + Flatten(gs)
  {
    assert ([g] + gs)[1..] == gs;
  }

  lemma {:induction false} TokensOfAppend(fold: Fold, gs: seq<Segment>, hs: seq<Segment>, pos: nat)
    ensures TokensOf(fold, gs + hs, pos) == TokensOf(fold, gs, pos) + TokensOf(fold, hs, pos + |Flatten(gs)|)
    decreases |gs|
  {
    if gs == [] {
      assert gs + hs == hs;
    } else {
      assert (gs + hs)[1..] == gs[1..] + hs;
      TokensOfAppend(fold, gs[1..], hs, pos + |gs[0].slice|);
    }
  }

  function Shift(toks: seq<Token>, offset: nat): seq<Token> {
    if toks == [] then [] else [toks[0].(pos := toks[0].pos + offset)] + Shift(toks[1..], offset)
  }

  lemma {:induction false} TokensOfShift(fold: Fold, gs: seq<Segment>, pos: nat, offset: nat)
    ensures TokensOf(fold, gs, pos + offset) == Shift(TokensOf(fold, gs, pos), offset)
    decreases |gs|
  {
    if gs != [] {
      TokensOfShift(fold, gs[1..], pos + |gs[0].slice|, offset);
      var rest := TokensOf(fold, gs[1..], pos + |gs[0].slice|);
      match gs[0].piece
      case Lexeme(kind, text, at) =>
        var t := Token(kind, text, fold(text), pos + at);
        assert ([t] + rest)[1..] == rest;
      case _ =>
    }
  }

  // ----- the pieces partition the source -----

  /** Every character of a scanned source lies in exactly one piece, in order. */
  lemma {:induction false} ScanPartitions(d: Dialect, fold: Fold, s: string, depth: nat)
    requires Scan(d, fold, s, depth).Ok?
    ensures Flatten(Scan(d, fold, s, depth).value) == s
    decreases |s|
  {
    if s != [] {
      hide Scan, Next, Flatten;
      NextOfScanned(d, fold, s, depth);
      ScanTook(d, fold, s, depth);
      var Took(piece, n) := Next(d, fold, s, depth > 0);
      ScanPartitions(d, fold, s[n..], DepthAfter(piece, depth));
      FlattenCons(Segment(piece, s[..n]), Scan(d, fold, s[n..], DepthAfter(piece, depth)).value);
      assert s[..n] + s[n..] == s;
    }
  }

  const NEWLINE := Segment(Space, "\n")

  lemma ScanNewline(d: Dialect, fold: Fold, b: string)
    ensures Scan(d, fold, "\n" + b, 0) == Cons(NEWLINE, Scan(d, fold, b, 0))
  {
    var u := "\n" + b;
    assert u[1..] == b && u[..1] == "\n";
  }

  lemma TokensOfJoined(fold: Fold, gs: seq<Segment>, hs: seq<Segment>)
    ensures TokensOf(fold, gs + ([NEWLINE] + hs), 0) ==
            TokensOf(fold, gs, 0) + Shift(TokensOf(fold, hs, 0), |Flatten(gs)| + 1)
  {
    TokensOfAppend(fold, gs, [NEWLINE] + hs, 0);
    assert ([NEWLINE] + hs)[1..] == hs;
    TokensOfShift(fold, hs, 0, |Flatten(gs)| + 1);
  }

  function TokensIn(fold: Fold, r: Result<seq<Segment>, LexError>): Result<seq<Token>, LexError> {
    match r
    case Err(e) => Err(e)
    case Ok(gs) => Ok(TokensOf(fold, gs, 0))
  }

  lemma TokensInJoined(fold: Fold, gs: seq<Segment>, rest: Result<seq<Segment>, LexError>)
    ensures TokensIn(fold, Concat(gs, Cons(NEWLINE, rest))) ==
            match TokensIn(fold, rest) {
              case Err(e) => Err(e)
              case Ok(toks) => Ok(TokensOf(fold, gs, 0) + Shift(toks, |Flatten(gs)| + 1))
            }
  {
    hide TokensOf, Shift, Flatten;
    match rest
    case Err(_) =>
    case Ok(hs) => TokensOfJoined(fold, gs, hs);
  }

  lemma LexAppend(d: Dialect, fold: Fold, a: string, b: string)
    requires Lex(d, fold, a).Ok?
    ensures Lex(d, fold, a + "\n" + b) ==
            match Lex(d, fold, b) {
              case Err(e) => Err(e)
              case Ok(toks) => Ok(Lex(d, fold, a).value + Shift(toks, |a| + 1))
            }
  {
    hide Scan, TokensOf, Shift, Flatten, Concat, Cons;
    assert a + "\n" + b == a + ("\n" + b);
    ScanAppend(d, fold, a, 0, "\n" + b);
    ScanNewline(d, fold, b);
    ScanPartitions(d, fold, a, 0);
    TokensInJoined(fold, Scan(d, fold, a, 0).value, Scan(d, fold, b, 0));
  }

  /**
    Tokenizing is a homomorphism: once `a` tokenizes, the tokens of `a`, a newline and `b`
    are the tokens of `a` followed by those of `b` moved past `a` and the newline; and what
    makes `b` fail makes the whole fail the same way.
   */
  lemma TokenizeHomomorphism(engine: Engine, fold: Fold, a: string, b: string)
    requires Tokenize(engine, fold, a).Ok?
    ensures Tokenize(engine, fold, a + "\n" + b) ==
            match Tokenize(engine, fold, b) {
              case Err(e) => Err(e)
              case Ok(toks) => Ok(Tokenize(engine, fold, a).value + Shift(toks, |a| + 1))
            }
  {
    LexAppend(DialectOf(engine).value, fold, a, b);
  }
}
