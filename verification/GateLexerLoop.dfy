/**
  The lexer as the source runs it: an index moved over the text, tokens appended as they
  are met, and the count of executable comments still open. Every method is proved against
  what `GateLexer` says the text at the index begins with.
 */
module GateLexerLoop {
  import opened Wrappers
  import opened GateLexer
  import opened GateLexerTheorems

  // ----- one character at a time -----

  function Later(n: nat, rest: Option<nat>): Option<nat> {
    match rest
    case None => None
    case Some(m) => Some(n + m)
  }

  lemma CommentStep(nested: bool, src: string, j: nat, depth: nat)
    requires j < |src| && depth > 0
    ensures CommentTail(nested, src[j..], depth) ==
            if nested && src[j] == '/' && j + 1 < |src| && src[j + 1] == '*' then
              Later(2, CommentTail(nested, src[j + 2..], depth + 1))
            else if src[j] == '*' && j + 1 < |src| && src[j + 1] == '/' then
              if depth == 1 then Some(2) else Later(2, CommentTail(nested, src[j + 2..], depth - 1))
            else Later(1, CommentTail(nested, src[j + 1..], depth))
  {
    assert src[j..][1..] == src[j + 1..];
    if j + 1 < |src| {
      assert src[j..][2..] == src[j + 2..] && src[j..][1] == src[j + 1];
    }
  }

  function Resume(text: string, n: nat, rest: Option<Body>): Option<Body> {
    match rest
    case None => None
    case Some(b) => Some(Body(text + b.text, n + b.size))
  }

  lemma ResumeFromNothing(rest: Option<Body>)
    ensures Resume([], 0, rest) == rest
  {
    if rest.Some? {
      assert [] + rest.value.text == rest.value.text;
    }
  }

  lemma ResumePrepend(text: string, n: nat, c: char, width: nat, rest: Option<Body>)
    ensures Resume(text, n, Prepend(c, width, rest)) == Resume(text + [c], n + width, rest)
  {
    if rest.Some? {
      assert text + ([c] + rest.value.text) == (text + [c]) + rest.value.text;
    }
  }

  lemma BodyStep(src: string, j: nat, close: char, backslash: bool)
    requires j < |src|
    ensures QuotedBody(src[j..], close, backslash) ==
            if backslash && src[j] == '\\' && j + 1 < |src| then
              Prepend(src[j + 1], 2, QuotedBody(src[j + 2..], close, backslash))
            else if src[j] == close then
              if j + 1 < |src| && src[j + 1] == close then
                Prepend(close, 2, QuotedBody(src[j + 2..], close, backslash))
              else Some(Body([], 1))
            else Prepend(src[j], 1, QuotedBody(src[j + 1..], close, backslash))
  {
    assert src[j..][1..] == src[j + 1..];
    if j + 1 < |src| {
      assert src[j..][2..] == src[j + 2..] && src[j..][1] == src[j + 1];
    }
  }

  lemma CommentOfNothing(nested: bool, depth: nat)
    requires depth > 0
    ensures CommentTail(nested, [], depth) == None
  {
  }

  lemma ResumeStep(text: string, n: nat, src: string, j: nat, close: char, backslash: bool)
    requires j < |src|
    ensures Resume(text, n, QuotedBody(src[j..], close, backslash)) ==
            if backslash && src[j] == '\\' && j + 1 < |src| then
              Resume(text + [src[j + 1]], n + 2, QuotedBody(src[j + 2..], close, backslash))
            else if src[j] == close then
              if j + 1 < |src| && src[j + 1] == close then
                Resume(text + [close], n + 2, QuotedBody(src[j + 2..], close, backslash))
              else Some(Body(text, n + 1))
            else Resume(text + [src[j]], n + 1, QuotedBody(src[j + 1..], close, backslash))
  {
    hide QuotedBody, Prepend;
    BodyStep(src, j, close, backslash);
    if backslash && src[j] == '\\' && j + 1 < |src| {
      ResumePrepend(text, n, src[j + 1], 2, QuotedBody(src[j + 2..], close, backslash));
    } else if src[j] == close {
      if j + 1 < |src| && src[j + 1] == close {
        ResumePrepend(text, n, close, 2, QuotedBody(src[j + 2..], close, backslash));
      } else {
        assert text + [] == text;
      }
    } else {
      ResumePrepend(text, n, src[j], 1, QuotedBody(src[j + 1..], close, backslash));
    }
  }

  lemma ResumeNothing(text: string, n: nat, close: char, backslash: bool)
    ensures Resume(text, n, QuotedBody([], close, backslash)) == None
  {
  }

  /** A quoted outcome at an offset is the one at the offset's own suffix, moved. */
  lemma QuotedOutcomeAt(s: string, at: nat, kind: TokenKind, close: char, backslash: bool)
    requires at < |s|
    ensures QuotedOutcome(s, at, kind, close, backslash) ==
            match QuotedOutcome(s[at..], 0, kind, close, backslash) {
              case Refused(e) => Refused(e)
              case Took(piece, n) => Took(Lexeme(kind, piece.text, at), at + n)
            }
    ensures QuotedOutcome(s[at..], 0, kind, close, backslash).Took? ==>
              var piece := QuotedOutcome(s[at..], 0, kind, close, backslash).piece;
              piece == Lexeme(kind, piece.text, 0)
  {
    assert s[at..][1..] == s[at + 1..];
  }

  lemma ExponentAt(src: string, i: nat, from: nat)
    requires i <= from <= |src|
    ensures i + ExponentEnd(src[i..], from - i) ==
            if from < |src| && (src[from] == 'e' || src[from] == 'E') then
              var k := if from + 1 < |src| && (src[from + 1] == '+' || src[from + 1] == '-') then from + 2 else from + 1;
              if k < |src| && IsDigit(src[k]) then k + Span(src[k..], IsDigit) else from
            else from
  {
    hide Span;
    var s := src[i..];
    assert forall m :: from <= m < |src| ==> s[m - i] == src[m];
    assert from + 1 <= |src| ==> s[from + 1 - i..] == src[from + 1..];
    assert from + 2 <= |src| ==> s[from + 2 - i..] == src[from + 2..];
  }

  class Lexer {
    const d: Dialect
    const fold: Fold
    const src: string
    var i: nat
    var toks: seq<Token>
    var execDepth: nat

    ghost predicate Valid()
      reads this
    {
      i <= |src|
    }

    constructor (d: Dialect, fold: Fold, src: string)
      ensures Valid() && this.d == d && this.fold == fold && this.src == src
      ensures i == 0 && toks == [] && execDepth == 0
    {
      this.d, this.fold, this.src := d, fold, src;
      i, toks, execDepth := 0, [], 0;
    }

    /** The text not yet read. */
    ghost function Rest(): string
      requires Valid()
      reads this
    {
      src[i..]
    }

    function PeekAt(n: nat): (c: char)
      requires Valid()
      reads this
      ensures c == Peek(Rest(), n)
    {
      if i + n < |src| then src[i + n] else '\0'
    }

    /** The tokens a piece read at `pos` leaves. */
    ghost function Emitted(piece: Piece, pos: nat): seq<Token> {
      match piece
      case Lexeme(kind, text, at) => [Token(kind, text, fold(text), pos + at)]
      case _ => []
    }

    /** The lexer, having been at `from` with `before`, has done what the outcome says. */
    ghost predicate Did(o: Outcome, from: nat, before: seq<Token>, err: Option<LexError>)
      reads this
    {
      match o
      case Refused(e) => err == Some(e)
      case Took(piece, n) => err == None && i == from + n && toks == before + Emitted(piece, from)
    }

    method Emit(kind: TokenKind, text: string, pos: nat)
      modifies this`toks
      ensures toks == old(toks) + [Token(kind, text, fold(text), pos)]
    {
      toks := toks + [Token(kind, text, fold(text), pos)];
    }

    /** Moves an index over the characters of a class. */
    method SkipClass(from: nat, class_: char -> bool) returns (j: nat)
      requires from <= |src|
      ensures from <= j <= |src| && j == from + Span(src[from..], class_)
    {
      j := from;
      while j < |src| && class_(src[j])
        invariant from <= j <= |src|
        invariant Span(src[from..], class_) == j - from + Span(src[j..], class_)
      {
        assert src[j..][1..] == src[j + 1..];
        j := j + 1;
      }
    }

    method SkipLineComment(from: nat)
      requires Valid() && from <= |src|
      modifies this`i
      ensures Valid() && i == from + Span(src[from..], InLine)
    {
      i := SkipClass(from, InLine);
    }

    method BlockComment() returns (err: Option<LexError>)
      requires Valid() && |Rest()| >= 2
      modifies this`i, this`execDepth
      ensures Valid() && Did(BlockCommentOutcome(d, old(Rest())), old(i), old(toks), err)
      ensures err == None ==>
                execDepth == DepthAfter(BlockCommentOutcome(d, old(Rest())).piece, old(execDepth))
      ensures err != None ==> execDepth == old(execDepth)
    {
      ghost var s := Rest();
      if d.executableComments && PeekAt(2) == '!' {
        assert s[3..] == src[i + 3..];
        var j := SkipClass(i + 3, IsDigit);
        execDepth := execDepth + 1;
        i := j;
        return None;
      }
      err := NestedComment();
    }

    /** A comment that is dropped: its delimiters are counted, where the dialect nests them. */
    method NestedComment() returns (err: Option<LexError>)
      requires Valid() && |Rest()| >= 2
      modifies this`i
      ensures Valid()
      ensures match CommentTail(d.nestedBlockComments, old(Rest())[2..], 1)
              case None => err == Some(UnterminatedComment)
              case Some(n) => err == None && i == old(i) + 2 + n
    {
      hide CommentTail;
      var depth: nat := 1;
      var j := i + 2;
      assert Rest()[2..] == src[j..];
      ghost var whole := CommentTail(d.nestedBlockComments, src[j..], 1);
      while j < |src|
        invariant i == old(i) && i + 2 <= j <= |src| && depth > 0
        invariant whole == Later(j - (i + 2), CommentTail(d.nestedBlockComments, src[j..], depth))
        decreases |src| - j
      {
        CommentStep(d.nestedBlockComments, src, j, depth);
        if d.nestedBlockComments && src[j] == '/' && j + 1 < |src| && src[j + 1] == '*' {
          depth := depth + 1;
          j := j + 2;
        } else if src[j] == '*' && j + 1 < |src| && src[j + 1] == '/' {
          j := j + 2;
          if depth == 1 {
            i := j;
            return None;
          }
          depth := depth - 1;
        } else {
          j := j + 1;
        }
      }
      assert CommentTail(d.nestedBlockComments, [], depth) == None by {
        CommentOfNothing(d.nestedBlockComments, depth);
      }
      assert src[j..] == [];
      return Some(UnterminatedComment);
    }

    method Quoted(kind: TokenKind, close: char, backslash: bool) returns (err: Option<LexError>)
      requires Valid() && i < |src|
      modifies this`i, this`toks
      ensures Valid()
      ensures Did(QuotedOutcome(old(Rest()), 0, kind, close, backslash), old(i), old(toks), err)
    {
      hide QuotedBody;
      var content := ReadContent(close, backslash);
      assert Rest()[0 + 1..] == src[i + 1..];
      match content {
        case Some(b) =>
          Emit(kind, b.text, i);
          i := i + 1 + b.size;
          err := None;
        case None =>
          err := Some(if kind == QuotedIdent then UnterminatedIdentifier else UnterminatedString);
      }
    }

    /** The content of the literal opened at the index, and how far its closing delimiter is. */
    method ReadContent(close: char, backslash: bool) returns (content: Option<Body>)
      requires Valid() && i < |src|
      ensures content == QuotedBody(src[i + 1..], close, backslash)
    {
      hide QuotedBody, Resume;
      var b: string := [];
      var j := i + 1;
      ghost var whole := QuotedBody(src[j..], close, backslash);
      ResumeFromNothing(whole);
      while j < |src|
        invariant i + 1 <= j <= |src|
        invariant whole == Resume(b, j - (i + 1), QuotedBody(src[j..], close, backslash))
        decreases |src| - j
      {
        var c := src[j];
        ResumeStep(b, j - (i + 1), src, j, close, backslash);
        if backslash && c == '\\' && j + 1 < |src| {
          b := b + [src[j + 1]];
          j := j + 2;
        } else if c == close {
          if j + 1 < |src| && src[j + 1] == close {
            b := b + [close];
            j := j + 2;
          } else {
            return Some(Body(b, j - i));
          }
        } else {
          b := b + [c];
          j := j + 1;
        }
      }
      assert src[j..] == [];
      ResumeNothing(b, j - (i + 1), close, backslash);
      return None;
    }

    method Dollar() returns (err: Option<LexError>)
      requires Valid() && i < |src| && src[i] == '$'
      modifies this`i, this`toks
      ensures Valid() && Did(DollarOutcome(old(Rest())), old(i), old(toks), err)
    {
      hide TaggedOutcome, IsTagPart, IsDigit;
      assert Rest()[1..] == src[i + 1..];
      if IsDigit(PeekAt(1)) {
        var j := SkipClass(i + 1, IsDigit);
        TakeWhole(Variable, j);
        return None;
      }
      var j := SkipClass(i + 1, IsTagPart);
      if j >= |src| || src[j] != '$' {
        TakeWhole(Punct, i + 1);
        return None;
      }
      err := Tagged(j + 1 - i);
    }

    /** A token that is the source text up to `j`. */
    method TakeWhole(kind: TokenKind, j: nat)
      requires Valid() && i <= j <= |src|
      modifies this`i, this`toks
      ensures Valid() && Did(Whole(kind, old(Rest()), j - old(i)), old(i), old(toks), None)
    {
      assert Rest()[..j - i] == src[i..j];
      Emit(kind, src[i..j], i);
      i := j;
    }

    /** A dollar-quoted string whose opening tag is `n` characters long. */
    method Tagged(n: nat) returns (err: Option<LexError>)
      requires Valid() && 1 <= n <= |Rest()|
      modifies this`i, this`toks
      ensures Valid() && Did(TaggedOutcome(old(Rest()), n), old(i), old(toks), err)
    {
      hide Index;
      ghost var s := Rest();
      var tag := src[i..i + n];
      var rest := src[i + n..];
      assert tag == s[..n] && rest == s[n..];
      var end := Index(rest, tag);
      if end == None {
        return Some(UnterminatedString);
      }
      assert s[n..n + end.value] == rest[..end.value];
      Emit(StringLiteral, rest[..end.value], i);
      i := i + n + end.value + |tag|;
      return None;
    }

    method ReadVariable()
      requires Valid() && i < |src| && src[i] == '@'
      modifies this`i, this`toks
      ensures Valid() && Did(Whole(Variable, old(Rest()), VariableSize(old(Rest()))), old(i), old(toks), None)
    {
      var j := i + 1;
      if j < |src| && src[j] == '@' {
        j := j + 1;
      }
      assert Rest()[j - i..] == src[j..];
      j := SkipClass(j, IsWordPart);
      TakeWhole(Variable, j);
    }

    method ReadNumber()
      requires Valid() && i < |src| && IsDigit(src[i])
      modifies this`i, this`toks
      ensures Valid() && Did(Whole(Number, old(Rest()), NumberSize(old(Rest()))), old(i), old(toks), None)
    {
      hide NumberSize;
      var j := SkipNumber();
      TakeWhole(Number, j);
    }

    method SkipNumber() returns (j: nat)
      requires Valid() && i < |src| && IsDigit(src[i])
      ensures i <= j <= |src| && j == i + NumberSize(Rest())
    {
      hide FractionEnd, ExponentEnd, Span;
      if src[i] == '0' && i + 1 < |src| && (src[i + 1] == 'x' || src[i + 1] == 'X') {
        assert Rest()[2..] == src[i + 2..];
        j := SkipClass(i + 2, IsHexDigit);
      } else {
        j := SkipClass(i, IsDigit);
        j := SkipFraction(j);
        j := SkipExponent(j);
      }
    }

    method SkipFraction(from: nat) returns (j: nat)
      requires Valid() && i <= from <= |src|
      ensures from <= j <= |src| && j == i + FractionEnd(Rest(), from - i)
    {
      j := from;
      if j < |src| && src[j] == '.' {
        assert Rest()[j + 1 - i..] == src[j + 1..];
        j := SkipClass(j + 1, IsDigit);
      }
    }

    method SkipExponent(from: nat) returns (j: nat)
      requires Valid() && i <= from <= |src|
      ensures from <= j <= |src| && j == i + ExponentEnd(Rest(), from - i)
    {
      hide Span, ExponentEnd;
      ExponentAt(src, i, from);
      j := from;
      if j < |src| && (src[j] == 'e' || src[j] == 'E') {
        var k := j + 1;
        if k < |src| && (src[k] == '+' || src[k] == '-') {
          k := k + 1;
        }
        if k < |src| && IsDigit(src[k]) {
          j := SkipClass(k, IsDigit);
        }
      }
    }

    /** A word, or the literal it introduces when it is one of the dialect's prefixes. */
    method ReadWord() returns (err: Option<LexError>)
      requires Valid() && i < |src|
      modifies this`i, this`toks
      ensures Valid() && Did(WordOutcome(d, fold, old(Rest())), old(i), old(toks), err)
    {
      hide PrefixAt, QuotedOutcome, Span;
      ghost var s := Rest();
      var j := SkipClass(i, WordClass(d));
      assert s[..j - i] == src[i..j];
      match PrefixAt(d, fold, src[i..], j - i) {
        case NoPrefix =>
          Emit(Word, src[i..j], i);
          i := j;
          err := None;
        case Prefix(kind, at, close, backslash) =>
          QuotedOutcomeAt(s, at, kind, close, backslash);
          assert src[i + at..] == s[at..];
          i := i + at;
          err := Quoted(kind, close, backslash);
      }
    }

    /** One turn of the loop: the branch the text enters, and what it reads. */
    method Step() returns (err: Option<LexError>)
      requires Valid() && i < |src|
      modifies this`i, this`toks, this`execDepth
      ensures Valid()
      ensures Did(Next(d, fold, old(Rest()), old(execDepth) > 0), old(i), old(toks), err)
      ensures err == None ==>
                execDepth == DepthAfter(Next(d, fold, old(Rest()), old(execDepth) > 0).piece, old(execDepth))
    {
      hide LeadOf, BlockCommentOutcome, QuotedOutcome, DollarOutcome, VariableSize, NumberSize, WordOutcome, Span;
      err := None;
      match LeadOf(d, src[i..], execDepth > 0) {
        case AtSpace =>
          i := i + 1;
        case AtExecClose =>
          execDepth := execDepth - 1;
          i := i + 2;
        case AtDashes =>
          assert Rest()[2..] == src[i + 2..];
          SkipLineComment(i + 2);
        case AtHash =>
          assert Rest()[1..] == src[i + 1..];
          SkipLineComment(i + 1);
        case AtBlockComment =>
          err := BlockComment();
        case AtQuote(kind, close, backslash) =>
          err := Quoted(kind, close, backslash);
        case AtDollar =>
          err := Dollar();
        case AtVariable =>
          ReadVariable();
        case AtNumber =>
          ReadNumber();
        case AtWord =>
          err := ReadWord();
        case AtPunct =>
          assert Rest()[..1] == [src[i]];
          Emit(Punct, [src[i]], i);
          i := i + 1;
        case AtUnsupported =>
          err := Some(UnsupportedCharacter);
      }
    }

    /** Reads the whole source: the tokens, or the first thing that is not one. */
    method Run() returns (err: Option<LexError>)
      requires i == 0 && toks == [] && execDepth == 0
      modifies this
      ensures match Lex(d, fold, src)
              case Ok(ts) => err == None && toks == ts
              case Err(e) => err == Some(e)
    {
      ghost var gs: seq<Segment> := [];
      hide Scan, Concat, Cons, Next;
      assert src[0..] == src;
      ConcatNothing(Scan(d, fold, src, 0));
      while i < |src|
        invariant Valid()
        invariant Scan(d, fold, src, 0) == Concat(gs, Scan(d, fold, src[i..], execDepth))
        invariant toks == TokensOf(fold, gs, 0) && i == |Flatten(gs)|
        decreases |src| - i
      {
        ghost var s, depth, from := Rest(), execDepth, i;
        err := Step();
        if err != None {
          ConcatFailed(d, fold, gs, s, depth);
          return;
        }
        ghost var g := Segment(Next(d, fold, s, depth > 0).piece, s[..i - from]);
        ScanStep(d, fold, src, from, depth);
        ConcatStep(gs, g, Scan(d, fold, src[i..], execDepth));
        TokensOfAppend(fold, gs, [g], 0);
        FlattenAppend(gs, [g]);
        OneSegment(fold, g, from);
        gs := gs + [g];
      }
      err := if execDepth > 0 then Some(UnterminatedComment) else None;
      assert src[i..] == [];
      ScanNothing(d, fold, gs, execDepth);
    }
  }

  lemma ScanNothing(d: Dialect, fold: Fold, gs: seq<Segment>, depth: nat)
    ensures Concat(gs, Scan(d, fold, [], depth)) == if depth > 0 then Err(UnterminatedComment) else Ok(gs)
  {
    assert gs + [] == gs;
  }

  lemma ConcatFailed(d: Dialect, fold: Fold, gs: seq<Segment>, s: string, depth: nat)
    requires s != [] && Next(d, fold, s, depth > 0).Refused?
    ensures Concat(gs, Scan(d, fold, s, depth)) == Err(Next(d, fold, s, depth > 0).error)
  {
  }

  lemma ConcatStep(gs: seq<Segment>, g: Segment, r: Result<seq<Segment>, LexError>)
    ensures Concat(gs, Cons(g, r)) == Concat(gs + [g], r)
  {
    if r.Ok? {
      assert gs + ([g] + r.value) == (gs + [g]) + r.value;
    }
  }

  lemma ScanStep(d: Dialect, fold: Fold, src: string, i: nat, depth: nat)
    requires i < |src| && Next(d, fold, src[i..], depth > 0).Took?
    ensures var Took(piece, n) := Next(d, fold, src[i..], depth > 0);
            Scan(d, fold, src[i..], depth) ==
            Cons(Segment(piece, src[i..][..n]), Scan(d, fold, src[i + n..], DepthAfter(piece, depth)))
  {
    hide Next, Scan;
    ScanTook(d, fold, src[i..], depth);
    var n := Next(d, fold, src[i..], depth > 0).size;
    assert src[i..][n..] == src[i + n..];
  }

  lemma OneSegment(fold: Fold, g: Segment, pos: nat)
    ensures Flatten([g]) == g.slice
    ensures TokensOf(fold, [g], pos) ==
            match g.piece {
              case Lexeme(kind, text, at) => [Token(kind, text, fold(text), pos + at)]
              case _ => []
            }
  {
    assert [g][1..] == [];
    assert g.slice + [] == g.slice;
    assert TokensOf(fold, [g][1..], pos + |g.slice|) == [];
  }

  /** The tokens of a statement under an engine's rules. */
  method TokenizeStatement(engine: Engine, fold: Fold, src: string) returns (r: Result<seq<Token>, LexError>)
    ensures r == Tokenize(engine, fold, src)
  {
    var dialect := DialectOf(engine);
    if dialect == None {
      return Err(UnknownEngine);
    }
    var l := new Lexer(dialect.value, fold, src);
    var err := l.Run();
    r := if err == None then Ok(l.toks) else Err(err.value);
  }
}
