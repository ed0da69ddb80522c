/**
  The pieces of a source partition it, each is what its lexical rule says, and quoting
  any text by the dialect's escapes is undone by lexing it.
 */
module GateLexerPartition {
  import opened Wrappers
  import opened GateLexer
  import opened GateLexerTheorems

  // ----- what each piece is -----

  /** The delimited literals a dialect has, by what stands before their content. */
  predicate Opens(d: Dialect, fold: Fold, prefix: string, open: char, kind: TokenKind, close: char, backslash: bool) {
    if prefix == [] then
      || (open == '\'' && kind == StringLiteral && close == '\'' && backslash == d.backslashEscapes)
      || (open == '"' && d.doubleQuoteIsString && kind == StringLiteral && close == '"' && backslash == d.backslashEscapes)
      || (open == '"' && !d.doubleQuoteIsString && kind == QuotedIdent && close == '"' && !backslash)
      || (open == '`' && d.backtickIdentifiers && kind == QuotedIdent && close == '`' && !backslash)
      || (open == '[' && d.bracketIdentifiers && kind == QuotedIdent && close == ']' && !backslash)
    else
      && open == close
      && if prefix[|prefix| - 1] == '&' then
          && fold(prefix[..|prefix| - 1]) == "u" && d.unicodePrefix && !backslash
          && ((open == '\'' && kind == StringLiteral) || (open == '"' && kind == QuotedIdent))
        else
          && open == '\'' && kind == StringLiteral
          && (|| (fold(prefix) == "n" && d.nationalPrefix && backslash == d.backslashEscapes)
              || (fold(prefix) == "e" && d.escapeStringPrefix && backslash)
              || (fold(prefix) in ["x", "b"] && d.binaryPrefix && !backslash))
  }

  /** `slice` is one whole literal delimited as the dialect has it, and `text` its content. */
  ghost predicate Delimited(d: Dialect, fold: Fold, slice: string, kind: TokenKind, text: string, at: nat) {
    at < |slice| &&
    exists close, backslash ::
      && Opens(d, fold, slice[..at], slice[at], kind, close, backslash)
      && QuotedBody(slice[at + 1..], close, backslash) == Some(Body(text, |slice| - at - 1))
  }

  /** `slice` is a dollar-quoted string whose content does not hold its own tag. */
  ghost predicate DollarQuoted(d: Dialect, slice: string, text: string) {
    d.dollarQuoting &&
    exists name: string ::
      && (forall k :: 0 <= k < |name| ==> IsTagPart(name[k]))
      && slice == DollarTag(name) + text + DollarTag(name)
      && Index(text + DollarTag(name), DollarTag(name)) == Some(|text|)
  }

  function DollarTag(name: string): string { "$" + name + "$" }

  /** What a piece says of the slice it was read from. */
  ghost predicate Describes(d: Dialect, fold: Fold, piece: Piece, slice: string) {
    match piece
    case Space => |slice| == 1 && IsSpace(slice[0])
    case LineComment =>
      && (("--" <= slice && LineCommentStarts(d, slice)) || (d.hashLineComments && "#" <= slice))
      && forall k :: 0 <= k < |slice| ==> InLine(slice[k])
    case BlockComment =>
      && "/*" <= slice
      && !(d.executableComments && "/*!" <= slice)
      && CommentTail(d.nestedBlockComments, slice[2..], 1) == Some(|slice| - 2)
    case ExecOpen =>
      && d.executableComments && "/*!" <= slice
      && forall k :: 3 <= k < |slice| ==> IsDigit(slice[k])
    case ExecClose => slice == "*/"
    case Lexeme(kind, text, at) =>
      if kind == StringLiteral then Delimited(d, fold, slice, kind, text, at) || (at == 0 && DollarQuoted(d, slice, text))
      else if kind == QuotedIdent then Delimited(d, fold, slice, kind, text, at)
      else at == 0 && slice == text
  }

  lemma {:induction false} QuotedBodyWithin(s: string, u: string, close: char, backslash: bool)
    requires QuotedBody(s + u, close, backslash).Some? && QuotedBody(s + u, close, backslash).value.size <= |s|
    requires close != '\\'
    ensures QuotedBody(s, close, backslash) == QuotedBody(s + u, close, backslash)
    decreases |s|
  {
    DropAppend(s, u, 1);
    if |s| > 1 {
      DropAppend(s, u, 2);
    }
    if backslash && s[0] == '\\' && |s| > 1 {
      QuotedBodyWithin(s[2..], u, close, backslash);
    } else if s[0] == close {
      if |s| > 1 && s[1] == close {
        QuotedBodyWithin(s[2..], u, close, backslash);
      }
    } else {
      QuotedBodyWithin(s[1..], u, close, backslash);
    }
  }

  lemma {:induction false} CommentTailWithin(nested: bool, s: string, u: string, depth: nat)
    requires depth > 0 && CommentTail(nested, s + u, depth).Some?
    requires CommentTail(nested, s + u, depth).value <= |s|
    ensures CommentTail(nested, s, depth) == CommentTail(nested, s + u, depth)
    decreases |s|
  {
    DropAppend(s, u, 1);
    DropAppend(s, u, 2);
    if nested && s[0] == '/' && s[1] == '*' {
      CommentTailWithin(nested, s[2..], u, depth + 1);
    } else if s[0] == '*' && s[1] == '/' {
      if depth > 1 {
        CommentTailWithin(nested, s[2..], u, depth - 1);
      }
    } else {
      CommentTailWithin(nested, s[1..], u, depth);
    }
  }

  lemma {:induction false} IndexWithin(s: string, u: string, needle: string)
    requires Index(s + u, needle).Some? && Index(s + u, needle).value + |needle| <= |s|
    ensures Index(s, needle) == Index(s + u, needle)
  {
    TakeAppend(s, u, |needle|);
    if Index(s + u, needle).value > 0 {
      DropAppend(s, u, 1);
      IndexWithin(s[1..], u, needle);
    }
  }

  lemma Split(s: string, m: nat, n: nat)
    requires m <= n <= |s|
    ensures s[m..n] + s[n..] == s[m..]
  {
  }

  lemma QuotedOutcomeDescribes(d: Dialect, fold: Fold, s: string, at: nat, kind: TokenKind, close: char, backslash: bool)
    requires at < |s| && close != '\\' && (kind == StringLiteral || kind == QuotedIdent)
    requires Opens(d, fold, s[..at], s[at], kind, close, backslash)
    requires QuotedOutcome(s, at, kind, close, backslash).Took?
    ensures var o := QuotedOutcome(s, at, kind, close, backslash); Describes(d, fold, o.piece, s[..o.size])
  {
    hide Opens, QuotedBody;
    var b := QuotedBody(s[at + 1..], close, backslash).value;
    var n := at + 1 + b.size;
    Split(s, at + 1, n);
    QuotedBodyWithin(s[at + 1..n], s[n..], close, backslash);
    var slice := s[..n];
    assert slice[at + 1..] == s[at + 1..n];
    assert slice[..at] == s[..at];
    assert Delimited(d, fold, slice, kind, b.text, at);
  }

  lemma TaggedDescribes(d: Dialect, name: string, text: string, rest: string, u: string)
    requires d.dollarQuoting && forall k :: 0 <= k < |name| ==> IsTagPart(name[k])
    requires rest == text + DollarTag(name) + u && Index(rest, DollarTag(name)) == Some(|text|)
    ensures DollarQuoted(d, DollarTag(name) + text + DollarTag(name), text)
  {
    hide Index, DollarTag;
    IndexWithin(text + DollarTag(name), u, DollarTag(name));
  }

  lemma TaggedSlices(s: string, n: nat, end: nat)
    requires 1 <= n && n + end + n <= |s| && s[..n] <= s[n..][end..]
    ensures s[n..] == s[n..n + end] + s[..n] + s[n + end + n..]
    ensures s[..n + end + n] == s[..n] + s[n..n + end] + s[..n]
  {
    var m := n + end + n;
    assert s[n..][end..] == s[n + end..];
    assert s[n + end..m] == s[n + end..][..n];
    Split(s, n, n + end);
    Split(s, n + end, m);
    assert s[..m] == s[..n] + s[n..n + end] + s[n + end..m];
  }

  lemma TaggedOutcomeDescribes(d: Dialect, fold: Fold, s: string, j: nat)
    requires d.dollarQuoting && 1 <= j < |s| && s[0] == '$' && s[j] == '$'
    requires forall k :: 1 <= k < j ==> IsTagPart(s[k])
    requires TaggedOutcome(s, j + 1).Took?
    ensures var o := TaggedOutcome(s, j + 1); Describes(d, fold, o.piece, s[..o.size])
  {
    hide Index, DollarQuoted, IsTagPart, Delimited;
    var n := j + 1;
    var end := Index(s[n..], s[..n]).value;
    assert s[..n] == DollarTag(s[1..j]);
    hide DollarTag;
    TaggedSlices(s, n, end);
    TaggedDescribes(d, s[1..j], s[n..n + end], s[n..], s[n + end + n..]);
  }

  lemma DollarOutcomeDescribes(d: Dialect, fold: Fold, s: string)
    requires d.dollarQuoting && s != [] && s[0] == '$'
    requires DollarOutcome(s).Took?
    ensures var o := DollarOutcome(s); Describes(d, fold, o.piece, s[..o.size])
  {
    hide TaggedOutcome;
    if !IsDigit(Peek(s, 1)) {
      var j := 1 + Span(s[1..], IsTagPart);
      if j < |s| && s[j] == '$' {
        assert forall k :: 1 <= k < j ==> s[k] == s[1..][k - 1];
        TaggedOutcomeDescribes(d, fold, s, j);
      }
    }
  }

  lemma WordOutcomeDescribes(d: Dialect, fold: Fold, s: string)
    requires s != [] && WordClass(d)(s[0])
    requires WordOutcome(d, fold, s).Took?
    ensures var o := WordOutcome(d, fold, s); Describes(d, fold, o.piece, s[..o.size])
  {
    var j := Span(s, WordClass(d));
    match PrefixAt(d, fold, s, j)
    case NoPrefix =>
    case Prefix(kind, at, close, backslash) =>
      assert s[..at][|s[..at]| - 1] == s[at - 1];
      assert at == j + 1 ==> s[..at][..at - 1] == s[..j];
      assert Opens(d, fold, s[..at], s[at], kind, close, backslash);
      QuotedOutcomeDescribes(d, fold, s, at, kind, close, backslash);
  }

  lemma BlockCommentOutcomeDescribes(d: Dialect, fold: Fold, s: string)
    requires |s| >= 2 && s[0] == '/' && s[1] == '*'
    requires BlockCommentOutcome(d, s).Took?
    ensures var o := BlockCommentOutcome(d, s); Describes(d, fold, o.piece, s[..o.size])
  {
    var o := BlockCommentOutcome(d, s);
    var slice := s[..o.size];
    if o.piece.BlockComment? {
      Split(s, 2, o.size);
      CommentTailWithin(d.nestedBlockComments, s[2..o.size], s[o.size..], 1);
      assert slice[2..] == s[2..o.size];
    } else {
      assert forall k :: 3 <= k < |slice| ==> slice[k] == s[3..][k - 3];
    }
  }

  /** What the branch a suffix enters says of how the suffix begins. */
  lemma LeadSays(d: Dialect, fold: Fold, s: string, exec: bool)
    requires s != []
    ensures match LeadOf(d, s, exec)
            case AtSpace => IsSpace(s[0])
            case AtExecClose => s[0] == '*' && s[1] == '/'
            case AtDashes => s[0] == '-' && s[1] == '-'
            case AtHash => d.hashLineComments && s[0] == '#'
            case AtBlockComment => s[0] == '/' && s[1] == '*'
            case AtQuote(kind, close, backslash) =>
              (kind == StringLiteral || kind == QuotedIdent) && Opens(d, fold, [], s[0], kind, close, backslash)
            case AtDollar => d.dollarQuoting
            case _ => true
  {
  }

  lemma LineCommentDescribes(d: Dialect, fold: Fold, s: string, n: nat)
    requires 1 <= n <= |s|
    requires || (n == 1 && d.hashLineComments && s[0] == '#')
             || (n == 2 && s[0] == '-' && s[1] == '-' && LineCommentStarts(d, s))
    ensures Describes(d, fold, LineComment, s[..n + Span(s[n..], InLine)])
  {
    var m := n + Span(s[n..], InLine);
    assert m > 2 ==> s[..m][2] == s[2];
    assert forall k :: n <= k < m ==> s[..m][k] == s[n..][k - n];
  }

  lemma NextDescribes(d: Dialect, fold: Fold, s: string, exec: bool)
    requires s != [] && Next(d, fold, s, exec).Took?
    ensures var o := Next(d, fold, s, exec); Describes(d, fold, o.piece, s[..o.size])
  {
    LeadSays(d, fold, s, exec);
    hide LeadOf, BlockCommentOutcome, QuotedOutcome, DollarOutcome, VariableSize, NumberSize, WordOutcome, Opens;
    match LeadOf(d, s, exec)
    case AtDashes => LineCommentDescribes(d, fold, s, 2);
    case AtHash => LineCommentDescribes(d, fold, s, 1);
    case AtBlockComment => BlockCommentOutcomeDescribes(d, fold, s);
    case AtQuote(kind, close, backslash) =>
      assert s[..0] == [];
      QuotedOutcomeDescribes(d, fold, s, 0, kind, close, backslash);
    case AtDollar => DollarOutcomeDescribes(d, fold, s);
    case AtWord => WordOutcomeDescribes(d, fold, s);
    case _ =>
  }

  /** Executable comments opened and not yet closed after the pieces, or none if one closes too many. */
  function OpenAfter(gs: seq<Segment>, depth: nat): Option<nat> {
    if gs == [] then Some(depth)
    else if gs[0].piece.ExecClose? && depth == 0 then None
    else OpenAfter(gs[1..], DepthAfter(gs[0].piece, depth))
  }

  lemma {:induction false} ScanDescribes(d: Dialect, fold: Fold, s: string, depth: nat)
    requires Scan(d, fold, s, depth).Ok?
    ensures forall k :: 0 <= k < |Scan(d, fold, s, depth).value| ==>
              Describes(d, fold, Scan(d, fold, s, depth).value[k].piece, Scan(d, fold, s, depth).value[k].slice)
    ensures OpenAfter(Scan(d, fold, s, depth).value, depth) == Some(0)
    decreases |s|
  {
    if s != [] {
      hide Describes, Next;
      NextDescribes(d, fold, s, depth > 0);
      var Took(piece, n) := Next(d, fold, s, depth > 0);
      ScanDescribes(d, fold, s[n..], DepthAfter(piece, depth));
      var rest := Scan(d, fold, s[n..], DepthAfter(piece, depth)).value;
      assert ([Segment(piece, s[..n])] + rest)[1..] == rest;
    }
  }

  /**
    A source that tokenizes is cut into pieces that joined are the source again: every
    character lies in exactly one of them, each is a token, one whitespace character, a
    comment or a marker of an executable comment, the markers balance, and the tokens
    are those among them, where they stand.
   */
  lemma TokenizePartitions(engine: Engine, fold: Fold, src: string)
    requires Tokenize(engine, fold, src).Ok?
    ensures exists gs: seq<Segment> ::
              && Flatten(gs) == src
              && (forall k :: 0 <= k < |gs| ==> Describes(DialectOf(engine).value, fold, gs[k].piece, gs[k].slice))
              && OpenAfter(gs, 0) == Some(0)
              && Tokenize(engine, fold, src).value == TokensOf(fold, gs, 0)
  {
    var d := DialectOf(engine).value;
    hide Scan, Describes, DialectOf;
    ScanPartitions(d, fold, src, 0);
    ScanDescribes(d, fold, src, 0);
    assert Flatten(Scan(d, fold, src, 0).value) == src;
  }

  // ----- quoting is undone by lexing -----

  function Escape(text: string, close: char, backslash: bool): string {
    if text == [] then []
    else
      (if text[0] == close then [close, close]
       else if backslash && text[0] == '\\' then "\\\\"
       else [text[0]]) + Escape(text[1..], close, backslash)
  }

  lemma BodyOfOne(c: char, rest: string, close: char, backslash: bool)
    requires c != close && !(backslash && c == '\\')
    ensures QuotedBody([c] + rest, close, backslash) == Prepend(c, 1, QuotedBody(rest, close, backslash))
  {
    assert ([c] + rest)[1..] == rest;
  }

  lemma BodyOfTwo(b: char, c: char, rest: string, close: char, backslash: bool)
    requires (b == close && c == close && close != '\\') || (backslash && b == '\\')
    ensures QuotedBody([b, c] + rest, close, backslash) == Prepend(c, 2, QuotedBody(rest, close, backslash))
  {
    assert ([b, c] + rest)[2..] == rest;
  }

  lemma {:induction false} EscapeUndone(text: string, close: char, backslash: bool)
    requires close != '\\'
    ensures QuotedBody(Escape(text, close, backslash) + [close], close, backslash) ==
            Some(Body(text, |Escape(text, close, backslash)| + 1))
  {
    if text == [] {
    } else {
      hide QuotedBody;
      var c := text[0];
      var inner := Escape(text[1..], close, backslash);
      var rest := inner + [close];
      EscapeUndone(text[1..], close, backslash);
      assert [c] + text[1..] == text;
      if c == close || (backslash && c == '\\') {
        assert Escape(text, close, backslash) + [close] == [c, c] + rest;
        BodyOfTwo(c, c, rest, close, backslash);
      } else {
        assert Escape(text, close, backslash) + [close] == [c] + rest;
        BodyOfOne(c, rest, close, backslash);
      }
    }
  }

  /** The delimited literals of the dialects, by the word that introduces them. */
  datatype Quoting = Quoting(prefix: string, open: char, kind: TokenKind, close: char, backslash: bool)

  /** `text` written as a literal. */
  function Quote(q: Quoting, text: string): string {
    q.prefix + [q.open] + Escape(text, q.close, q.backslash) + [q.close]
  }

  /** The quotings a dialect has. A prefix is written in either case, as folding it shows. */
  predicate Has(d: Dialect, fold: Fold, q: Quoting) {
    && Opens(d, fold, q.prefix, q.open, q.kind, q.close, q.backslash)
    && (q.prefix != [] ==>
          var w := if q.prefix[|q.prefix| - 1] == '&' then q.prefix[..|q.prefix| - 1] else q.prefix;
          |w| == 1 && IsLetter(w[0]))
  }

  lemma QuotedOutcomeUndone(q: Quoting, text: string, at: nat)
    requires q.close != '\\' && at == |q.prefix|
    ensures QuotedOutcome(Quote(q, text), at, q.kind, q.close, q.backslash) ==
            Took(Lexeme(q.kind, text, at), |Quote(q, text)|)
  {
    EscapeUndone(text, q.close, q.backslash);
    assert Quote(q, text)[at + 1..] == Escape(text, q.close, q.backslash) + [q.close];
  }

  lemma BareQuoteNext(d: Dialect, fold: Fold, q: Quoting, text: string)
    requires q.prefix == [] && Opens(d, fold, [], q.open, q.kind, q.close, q.backslash)
    ensures Next(d, fold, Quote(q, text), false) == Took(Lexeme(q.kind, text, 0), |Quote(q, text)|)
  {
    QuotedOutcomeUndone(q, text, 0);
    var s := Quote(q, text);
    assert s[0] == q.open;
    hide QuotedOutcome, Quote;
    assert LeadOf(d, s, false) == AtQuote(q.kind, q.close, q.backslash);
  }

  lemma PrefixedQuoteNext(d: Dialect, fold: Fold, q: Quoting, text: string)
    requires q.prefix != [] && Has(d, fold, q)
    ensures Next(d, fold, Quote(q, text), false) == Took(Lexeme(q.kind, text, |q.prefix|), |Quote(q, text)|)
  {
    QuotedOutcomeUndone(q, text, |q.prefix|);
    var s, n := Quote(q, text), |q.prefix|;
    assert s[..n] == q.prefix && s[n] == q.open;
    hide QuotedOutcome, Quote;
    assert s[0] == q.prefix[0];
    assert LeadOf(d, s, false) == AtWord;
    PrefixFound(d, fold, q, s);
    hide PrefixAt, LeadOf;
    assert Span(s, WordClass(d)) == 1;
    assert Next(d, fold, s, false) == WordOutcome(d, fold, s);
  }

  lemma PrefixFound(d: Dialect, fold: Fold, q: Quoting, s: string)
    requires q.prefix != [] && Has(d, fold, q)
    requires |q.prefix| < |s| && s[..|q.prefix|] == q.prefix && s[|q.prefix|] == q.open
    ensures Span(s, WordClass(d)) == 1
    ensures PrefixAt(d, fold, s, 1) == Prefix(q.kind, |q.prefix|, q.close, q.backslash)
  {
    var n := |q.prefix|;
    assert q.prefix[0] == s[0] && q.prefix[n - 1] == s[n - 1];
    if q.prefix[n - 1] == '&' {
      assert n == 2;
      assert q.prefix[..1] == s[..1];
    } else {
      assert n == 1;
      assert q.prefix == s[..1];
    }
    assert s[1..][0] == s[1];
    assert !WordClass(d)(s[1]);
    assert Span(s[1..], WordClass(d)) == 0;
  }

  /** Quoting any text by the dialect's escapes and lexing it gives one token with exactly that text. */
  lemma QuoteRoundTrip(engine: Engine, fold: Fold, q: Quoting, text: string)
    requires DialectOf(engine).Some? && Has(DialectOf(engine).value, fold, q)
    ensures Tokenize(engine, fold, Quote(q, text)) == Ok([Token(q.kind, text, fold(text), |q.prefix|)])
  {
    var d := DialectOf(engine).value;
    var s := Quote(q, text);
    if q.prefix == [] {
      BareQuoteNext(d, fold, q, text);
    } else {
      PrefixedQuoteNext(d, fold, q, text);
    }
    assert s != [];
    hide Quote, Has, DialectOf, Next;
    OnePiece(d, fold, s);
  }

  lemma TokensOfOne(fold: Fold, g: Segment)
    requires g.piece.Lexeme?
    ensures TokensOf(fold, [g], 0) == [Token(g.piece.kind, g.piece.text, fold(g.piece.text), g.piece.at)]
  {
    assert TokensOf(fold, [g][1..], |g.slice|) == [];
  }

  /** A source that is one token lexes to that token. */
  lemma OnePiece(d: Dialect, fold: Fold, s: string)
    requires s != [] && Next(d, fold, s, false).Took? && Next(d, fold, s, false).piece.Lexeme?
    requires Next(d, fold, s, false).size == |s|
    ensures var p := Next(d, fold, s, false).piece;
            Lex(d, fold, s) == Ok([Token(p.kind, p.text, fold(p.text), p.at)])
  {
    hide Next;
    var p := Next(d, fold, s, false).piece;
    var g := Segment(p, s[..|s|]);
    assert s[|s|..] == [];
    assert Scan(d, fold, s[|s|..], 0) == Ok([]);
    assert [g] + [] == [g];
    assert Scan(d, fold, s, 0) == Ok([g]);
    TokensOfOne(fold, g);
  }

  /** The first token of a source that begins with a token is that token. */
  lemma FirstPiece(d: Dialect, fold: Fold, s: string)
    requires s != [] && Next(d, fold, s, false).Took? && Next(d, fold, s, false).piece.Lexeme?
    requires Lex(d, fold, s).Ok?
    ensures Lex(d, fold, s).value != [] && Lex(d, fold, s).value[0].text == Next(d, fold, s, false).piece.text
  {
  }

  lemma {:induction false} IndexAtMost(text: string, tag: string)
    ensures Index(text + tag, tag).Some? && Index(text + tag, tag).value <= |text|
  {
    if text == [] {
      assert text + tag == tag;
    } else {
      assert (text + tag)[1..] == text[1..] + tag;
      IndexAtMost(text[1..], tag);
    }
  }

  lemma {:induction false} SpanOf(name: string, rest: string, class_: char -> bool)
    requires forall k :: 0 <= k < |name| ==> class_(name[k])
    requires rest != [] && !class_(rest[0])
    ensures Span(name + rest, class_) == |name|
  {
    if name == [] {
      assert name + rest == rest;
    } else {
      assert (name + rest)[1..] == name[1..] + rest;
      SpanOf(name[1..], rest, class_);
    }
  }

  lemma DollarShape(name: string, text: string)
    requires forall k :: 0 <= k < |name| ==> IsTagPart(name[k])
    requires name != [] ==> !IsDigit(name[0])
    ensures var tag := DollarTag(name); var s := tag + text + tag;
            && s[0] == '$' && |s| > 1 && !IsDigit(s[1])
            && 1 + Span(s[1..], IsTagPart) == |tag| - 1 && s[|tag| - 1] == '$'
            && s[..|tag|] == tag && s[|tag|..] == text + tag
  {
    var tag := DollarTag(name);
    var s := tag + text + tag;
    assert s[1..] == name + (['$'] + text + tag);
    SpanOf(name, ['$'] + text + tag, IsTagPart);
    assert s[1] == if name == [] then '$' else name[0];
  }

  lemma DollarLead(d: Dialect, fold: Fold, s: string)
    requires d == DialectOf(PostgreSQL).value && s != [] && s[0] == '$'
    ensures Next(d, fold, s, false) == DollarOutcome(s)
  {
    hide DollarOutcome;
  }

  lemma TaggedContent(s: string, tag: string, text: string)
    requires tag != [] && |tag| <= |s| && s[..|tag|] == tag && s[|tag|..] == text + tag
    requires Index(text + tag, tag).Some? && Index(text + tag, tag).value <= |text|
    ensures TaggedOutcome(s, |tag|) ==
            Took(Lexeme(StringLiteral, text[..Index(text + tag, tag).value], 0),
                 |tag| + Index(text + tag, tag).value + |tag|)
  {
    hide Index;
    var end := Index(text + tag, tag).value;
    assert s[|tag|..|tag| + end] == s[|tag|..][..end];
    assert (text + tag)[..end] == text[..end];
  }

  lemma DollarOpens(s: string, n: nat)
    requires |s| > 1 && s[0] == '$' && !IsDigit(s[1])
    requires n == 2 + Span(s[1..], IsTagPart) && n <= |s| && s[n - 1] == '$'
    ensures DollarOutcome(s) == TaggedOutcome(s, n)
  {
  }

  lemma DollarNext(d: Dialect, fold: Fold, name: string, text: string)
    requires d == DialectOf(PostgreSQL).value
    requires forall k :: 0 <= k < |name| ==> IsTagPart(name[k])
    requires name != [] ==> !IsDigit(name[0])
    ensures var tag := DollarTag(name);
            Index(text + tag, tag).Some? && Index(text + tag, tag).value <= |text| &&
            Next(d, fold, tag + text + tag, false) ==
              Took(Lexeme(StringLiteral, text[..Index(text + tag, tag).value], 0),
                   |tag| + Index(text + tag, tag).value + |tag|)
  {
    var tag := DollarTag(name);
    var s := tag + text + tag;
    hide *;
    DollarShape(name, text);
    IndexAtMost(text, tag);
    DollarLead(d, fold, s);
    DollarOpens(s, |tag|);
    TaggedContent(s, tag, text);
  }

  /** A dollar-quoted string is taken literally, exactly when its tag does not occur before its end. */
  lemma DollarRoundTrip(fold: Fold, name: string, text: string)
    requires forall k :: 0 <= k < |name| ==> IsTagPart(name[k])
    requires name != [] ==> !IsDigit(name[0])
    ensures Tokenize(PostgreSQL, fold, DollarTag(name) + text + DollarTag(name)) ==
              Ok([Token(StringLiteral, text, fold(text), 0)])
            <==> Index(text + DollarTag(name), DollarTag(name)) == Some(|text|)
  {
    var d := DialectOf(PostgreSQL).value;
    var tag := DollarTag(name);
    var s := tag + text + tag;
    assert s != [];
    DollarNext(d, fold, name, text);
    var end := Index(text + tag, tag).value;
    hide DollarTag, Next, Index, Lex;
    if end == |text| {
      assert text[..end] == text;
      OnePiece(d, fold, s);
    } else if Lex(d, fold, s).Ok? {
      FirstPiece(d, fold, s);
      assert |text[..end]| < |text|;
    }
  }
}
