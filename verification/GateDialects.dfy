/**
  What each engine reads, rule by rule and character by character: for every way a source can begin,
  the token or the gap it begins with, and that the rest is read as if it stood alone. Together the
  laws leave the lexer nothing to decide.
 */
module GateDialects {
  import opened Wrappers
  import opened GateLexer
  import opened GateLexerTheorems
  import opened GateLexerPartition

  // ----- a source and its rest -----

  /** Before any such rest, `lit` is one token. */
  ghost predicate OneToken(e: Engine, fold: Fold, lit: string, kind: TokenKind, text: string, at: nat, rest: string) {
    Tokenize(e, fold, lit + rest) ==
    match Tokenize(e, fold, rest)
    case Err(error) => Err(error)
    case Ok(toks) => Ok([Token(kind, text, fold(text), at)] + Shift(toks, |lit|))
  }

  /** Before any such rest, `gap` is no token. */
  ghost predicate NoToken(e: Engine, fold: Fold, gap: string, rest: string) {
    Tokenize(e, fold, gap + rest) ==
    match Tokenize(e, fold, rest)
    case Err(error) => Err(error)
    case Ok(toks) => Ok(Shift(toks, |gap|))
  }

  /** The source reads as its first piece, then the rest from where it stands. */
  lemma PieceStep(d: Dialect, fold: Fold, slice: string, piece: Piece, rest: string)
    requires slice != [] && Next(d, fold, slice + rest, false) == Took(piece, |slice|)
    requires !piece.ExecOpen? && !piece.ExecClose?
    ensures Scan(d, fold, slice + rest, 0) == Cons(Segment(piece, slice), Scan(d, fold, rest, 0))
  {
    hide Next, Scan;
    ScanTook(d, fold, slice + rest, 0);
    assert (slice + rest)[..|slice|] == slice && (slice + rest)[|slice|..] == rest;
  }

  lemma TokensAfter(fold: Fold, g: Segment, gs: seq<Segment>)
    ensures TokensOf(fold, [g] + gs, 0) ==
            (if g.piece.Lexeme? then [Token(g.piece.kind, g.piece.text, fold(g.piece.text), g.piece.at)] else [])
            + Shift(TokensOf(fold, gs, 0), |g.slice|)
  {
    hide Shift;
    assert ([g] + gs)[1..] == gs;
    TokensOfShift(fold, gs, 0, |g.slice|);
  }

  lemma LexIs(e: Engine, d: Dialect, fold: Fold, s: string)
    requires DialectOf(e) == Some(d)
    ensures Tokenize(e, fold, s) == TokensIn(fold, Scan(d, fold, s, 0))
  {
    hide DialectOf, Scan, TokensOf;
  }

  lemma TokenStep(e: Engine, fold: Fold, lit: string, kind: TokenKind, text: string, at: nat, rest: string)
    requires DialectOf(e).Some? && lit != []
    requires Next(DialectOf(e).value, fold, lit + rest, false) == Took(Lexeme(kind, text, at), |lit|)
    ensures OneToken(e, fold, lit, kind, text, at, rest)
  {
    var d := DialectOf(e).value;
    hide DialectOf, Next, Scan, Shift, TokensOf, Tokenize;
    PieceStep(d, fold, lit, Lexeme(kind, text, at), rest);
    LexIs(e, d, fold, lit + rest);
    LexIs(e, d, fold, rest);
    if Scan(d, fold, rest, 0).Ok? {
      TokensAfter(fold, Segment(Lexeme(kind, text, at), lit), Scan(d, fold, rest, 0).value);
    }
  }

  lemma GapStep(e: Engine, fold: Fold, gap: string, piece: Piece, rest: string)
    requires DialectOf(e).Some? && gap != [] && (piece == Space || piece == LineComment || piece == BlockComment)
    requires Next(DialectOf(e).value, fold, gap + rest, false) == Took(piece, |gap|)
    ensures NoToken(e, fold, gap, rest)
  {
    var d := DialectOf(e).value;
    hide DialectOf, Next, Scan, Shift, TokensOf, Tokenize;
    PieceStep(d, fold, gap, piece, rest);
    LexIs(e, d, fold, gap + rest);
    LexIs(e, d, fold, rest);
    if Scan(d, fold, rest, 0).Ok? {
      var gs := Scan(d, fold, rest, 0).value;
      TokensAfter(fold, Segment(piece, gap), gs);
      assert [] + Shift(TokensOf(fold, gs, 0), |gap|) == Shift(TokensOf(fold, gs, 0), |gap|);
    }
  }

  lemma RefusedStep(e: Engine, fold: Fold, s: string, error: LexError)
    requires DialectOf(e).Some? && s != [] && Next(DialectOf(e).value, fold, s, false) == Refused(error)
    ensures Tokenize(e, fold, s) == Err(error)
  {
    hide DialectOf, Next;
  }

  // ----- quoted literals -----

  /** A part of a literal's content: a character, the closing quote written twice, or a character after a backslash. */
  datatype Part = Plain(c: char) | Twice | Escaped(c: char)

  function Written(parts: seq<Part>, quote: char): string {
    if parts == [] then []
    else
      (match parts[0]
       case Plain(c) => [c]
       case Twice => [quote, quote]
       case Escaped(c) => ['\\', c]) + Written(parts[1..], quote)
  }

  function Content(parts: seq<Part>, quote: char): string {
    if parts == [] then []
    else
      (match parts[0]
       case Plain(c) => [c]
       case Twice => [quote]
       case Escaped(c) => [c]) + Content(parts[1..], quote)
  }

  /** Content in which a backslash is a character like any other. */
  predicate Standard(parts: seq<Part>, quote: char) {
    forall p | p in parts :: p.Twice? || (p.Plain? && p.c != quote)
  }

  /** Content in which a backslash stands for what follows it. */
  predicate Backslashed(parts: seq<Part>, quote: char) {
    forall p | p in parts :: p.Plain? ==> p.c != quote && p.c != '\\'
  }

  predicate NotBefore(c: char, rest: string) {
    rest == [] || rest[0] != c
  }

  lemma WrittenOn(p: Part, parts: seq<Part>, quote: char, tail: string)
    requires parts != [] && parts[0] == p
    ensures Content(parts, quote) == (if p.Twice? then [quote] else [p.c]) + Content(parts[1..], quote)
    ensures Written(parts, quote) + tail ==
            (match p case Plain(c) => [c] case Twice => [quote, quote] case Escaped(c) => ['\\', c])
            + (Written(parts[1..], quote) + tail)
  {
  }

  lemma {:induction false} BodyReads(parts: seq<Part>, quote: char, backslash: bool, rest: string)
    requires quote != '\\' && NotBefore(quote, rest)
    requires if backslash then Backslashed(parts, quote) else Standard(parts, quote)
    ensures QuotedBody(Written(parts, quote) + ([quote] + rest), quote, backslash) ==
            Some(Body(Content(parts, quote), |Written(parts, quote)| + 1))
  {
    var tail := [quote] + rest;
    if parts == [] {
      assert [] + tail == tail;
    } else {
      var p, more := parts[0], Written(parts[1..], quote) + tail;
      assert p in parts;
      WrittenOn(p, parts, quote, tail);
      BodyReads(parts[1..], quote, backslash, rest);
      hide QuotedBody, Written, Content;
      match p
      case Plain(c) => BodyOfOne(c, more, quote, backslash);
      case Twice => BodyOfTwo(quote, quote, more, quote, backslash);
      case Escaped(c) => BodyOfTwo('\\', c, more, quote, backslash);
    }
  }

  /** A literal with its opening and closing characters. */
  function Quoted(open: char, parts: seq<Part>, close: char): string {
    [open] + Written(parts, close) + [close]
  }

  lemma QuotedReads(prefix: string, open: char, parts: seq<Part>, close: char, kind: TokenKind, backslash: bool, rest: string)
    requires close != '\\' && NotBefore(close, rest)
    requires if backslash then Backslashed(parts, close) else Standard(parts, close)
    ensures var lit := prefix + Quoted(open, parts, close);
      QuotedOutcome(lit + rest, |prefix|, kind, close, backslash) ==
        Took(Lexeme(kind, Content(parts, close), |prefix|), |lit|)
  {
    var lit := prefix + Quoted(open, parts, close);
    BodyReads(parts, close, backslash, rest);
    hide Written, Content, QuotedBody;
    assert (lit + rest)[|prefix| + 1..] == Written(parts, close) + ([close] + rest);
  }

  lemma QuoteStep(
    e: Engine, fold: Fold, prefix: string, open: char, parts: seq<Part>, close: char, kind: TokenKind, backslash: bool,
    rest: string)
    requires DialectOf(e).Some? && close != '\\' && NotBefore(close, rest)
    requires if backslash then Backslashed(parts, close) else Standard(parts, close)
    requires var s := prefix + Quoted(open, parts, close) + rest;
      Next(DialectOf(e).value, fold, s, false) == QuotedOutcome(s, |prefix|, kind, close, backslash)
    ensures OneToken(e, fold, prefix + Quoted(open, parts, close), kind, Content(parts, close), |prefix|, rest)
  {
    hide *;
    QuotedReads(prefix, open, parts, close, kind, backslash, rest);
    TokenStep(e, fold, prefix + Quoted(open, parts, close), kind, Content(parts, close), |prefix|, rest);
  }

  lemma BeginsWith(open: char, parts: seq<Part>, close: char, rest: string)
    ensures [] + Quoted(open, parts, close) == Quoted(open, parts, close)
    ensures (Quoted(open, parts, close) + rest)[0] == open
  {
  }

  /** MySQL: single and double quotes delimit strings, and a backslash stands for the character after it. */
  lemma MySQLString(fold: Fold, parts: seq<Part>, quote: char, rest: string)
    requires quote == '\'' || quote == '"'
    requires Backslashed(parts, quote) && NotBefore(quote, rest)
    ensures OneToken(MySQL, fold, Quoted(quote, parts, quote), StringLiteral, Content(parts, quote), 0, rest)
  {
    BeginsWith(quote, parts, quote, rest);
    hide Quoted, QuotedOutcome, Content, Written, Backslashed, Standard;
    QuoteStep(MySQL, fold, [], quote, parts, quote, StringLiteral, true, rest);
  }

  /** PostgreSQL and SQL Server: single quotes delimit strings, and a backslash is a character. */
  lemma StandardString(e: Engine, fold: Fold, parts: seq<Part>, rest: string)
    requires e == PostgreSQL || e == SQLServer
    requires Standard(parts, '\'') && NotBefore('\'', rest)
    ensures OneToken(e, fold, Quoted('\'', parts, '\''), StringLiteral, Content(parts, '\''), 0, rest)
  {
    BeginsWith('\'', parts, '\'', rest);
    hide Quoted, QuotedOutcome, Content, Written, Backslashed, Standard;
    QuoteStep(e, fold, [], '\'', parts, '\'', StringLiteral, false, rest);
  }

  /** PostgreSQL and SQL Server: double quotes delimit names. */
  lemma DoubleQuotedName(e: Engine, fold: Fold, parts: seq<Part>, rest: string)
    requires e == PostgreSQL || e == SQLServer
    requires Standard(parts, '"') && NotBefore('"', rest)
    ensures OneToken(e, fold, Quoted('"', parts, '"'), QuotedIdent, Content(parts, '"'), 0, rest)
  {
    BeginsWith('"', parts, '"', rest);
    hide Quoted, QuotedOutcome, Content, Written, Backslashed, Standard;
    QuoteStep(e, fold, [], '"', parts, '"', QuotedIdent, false, rest);
  }

  /** MySQL: backticks delimit names. */
  lemma BacktickedName(fold: Fold, parts: seq<Part>, rest: string)
    requires Standard(parts, '`') && NotBefore('`', rest)
    ensures OneToken(MySQL, fold, Quoted('`', parts, '`'), QuotedIdent, Content(parts, '`'), 0, rest)
  {
    BeginsWith('`', parts, '`', rest);
    hide Quoted, QuotedOutcome, Content, Written, Backslashed, Standard;
    QuoteStep(MySQL, fold, [], '`', parts, '`', QuotedIdent, false, rest);
  }

  /** The six characters that count as blank. */
  predicate Blank(c: char) {
    c == ' ' || c == '\t' || c == '\n' || c == '\r' || c == '\U{0B}' || c == '\U{0C}'
  }

  predicate Nowhere(e: Engine, c: char) {
    (c == '`' && e != MySQL) || c == '\\' || c == '\U{7f}' || (c < ' ' && !Blank(c))
  }

  lemma NoMark(e: Engine, c: char)
    requires Nowhere(e, c)
    ensures !IsPunct(c)
  {
  }

  /** A backslash, a control character that is no blank, and but for MySQL a backtick can stand nowhere. */
  lemma RefusedCharacter(e: Engine, fold: Fold, c: char, rest: string)
    requires e in ENGINES && Nowhere(e, c)
    ensures Tokenize(e, fold, [c] + rest) == Err(UnsupportedCharacter)
  {
    NoMark(e, c);
    var s := [c] + rest;
    assert s[0] == c;
    hide Tokenize, LineCommentStarts, IsPunct, Peek;
    assert LeadOf(DialectOf(e).value, s, false) == AtUnsupported;
    hide LeadOf, DialectOf, Nowhere;
    RefusedStep(e, fold, s, UnsupportedCharacter);
  }

  /** SQL Server: brackets delimit names, in which the closing one is doubled. Elsewhere a bracket is a mark. */
  lemma BracketedName(fold: Fold, parts: seq<Part>, rest: string)
    requires Standard(parts, ']') && NotBefore(']', rest)
    ensures OneToken(SQLServer, fold, Quoted('[', parts, ']'), QuotedIdent, Content(parts, ']'), 0, rest)
    ensures OneToken(MySQL, fold, "[", Punct, "[", 0, rest) && OneToken(PostgreSQL, fold, "[", Punct, "[", 0, rest)
  {
    BeginsWith('[', parts, ']', rest);
    hide Quoted, QuotedOutcome, Content, Written, Backslashed, Standard, OneToken;
    QuoteStep(SQLServer, fold, [], '[', parts, ']', QuotedIdent, false, rest);
    assert ("[" + rest)[..1] == "[";
    TokenStep(MySQL, fold, "[", Punct, "[", 0, rest);
    TokenStep(PostgreSQL, fold, "[", Punct, "[", 0, rest);
  }

  lemma {:induction false} NeverCloses(parts: seq<Part>, quote: char, backslash: bool)
    requires quote != '\\' && if backslash then Backslashed(parts, quote) else Standard(parts, quote)
    ensures QuotedBody(Written(parts, quote), quote, backslash) == None
  {
    if parts != [] {
      var p, more := parts[0], Written(parts[1..], quote) + [];
      assert p in parts;
      WrittenOn(p, parts, quote, []);
      assert Written(parts, quote) + [] == Written(parts, quote) && more == Written(parts[1..], quote);
      NeverCloses(parts[1..], quote, backslash);
      hide QuotedBody, Written, Content;
      match p
      case Plain(c) => BodyOfOne(c, more, quote, backslash);
      case Twice => BodyOfTwo(quote, quote, more, quote, backslash);
      case Escaped(c) => BodyOfTwo('\\', c, more, quote, backslash);
    }
  }

  /** A literal that is never closed is refused. */
  lemma Unclosed(e: Engine, fold: Fold, parts: seq<Part>, open: char)
    requires e in ENGINES
    requires if e == MySQL && open != '`' then Backslashed(parts, open) else Standard(parts, if open == '[' then ']' else open)
    requires open == '\'' || open == '"' || (open == '`' && e == MySQL) || (open == '[' && e == SQLServer)
    ensures var close := if open == '[' then ']' else open;
      Tokenize(e, fold, [open] + Written(parts, close)) ==
      Err(if open == '\'' || (open == '"' && e == MySQL) then UnterminatedString else UnterminatedIdentifier)
  {
    var close := if open == '[' then ']' else open;
    var backslash := e == MySQL && open != '`';
    var s := [open] + Written(parts, close);
    NeverCloses(parts, close, backslash);
    assert s[1..] == Written(parts, close) && s[0] == open;
    hide Written, QuotedBody, Backslashed, Standard, Tokenize;
    RefusedStep(e, fold, s,
      if open == '\'' || (open == '"' && e == MySQL) then UnterminatedString else UnterminatedIdentifier);
  }

  // ----- words, and the literals they introduce -----

  predicate WordLetter(c: char) {
    'a' <= c <= 'z' || 'A' <= c <= 'Z' || c == '_' || c >= '\U{80}'
  }

  predicate Figure(c: char) { '0' <= c <= '9' }

  predicate WordCharacter(c: char) {
    WordLetter(c) || Figure(c) || c == '$'
  }

  /** A word, and that it ends there. SQL Server's words may hold a number sign. */
  predicate WordEnds(e: Engine, w: string, rest: string) {
    && w != [] && (WordLetter(w[0]) || (w[0] == '$' && e != PostgreSQL) || (w[0] == '#' && e == SQLServer))
    && (forall k :: 0 <= k < |w| ==> WordCharacter(w[k]) || (w[k] == '#' && e == SQLServer))
    && (rest == [] || !(WordCharacter(rest[0]) || (rest[0] == '#' && e == SQLServer)))
  }

  /** The words that introduce a literal, and what has to follow them directly. */
  predicate Introduces(e: Engine, word: string, rest: string) {
    rest != [] &&
    match e
    case MySQL => rest[0] == '\'' && (word == "n" || word == "x" || word == "b")
    case PostgreSQL =>
      || (rest[0] == '\'' && (word == "e" || word == "x" || word == "b"))
      || (word == "u" && |rest| > 1 && rest[0] == '&' && (rest[1] == '\'' || rest[1] == '"'))
    case SQLServer => rest[0] == '\'' && word == "n"
    case Unsupported(_) => false
  }

  lemma ClassIs(e: Engine, c: char)
    requires e in ENGINES
    ensures WordClass(DialectOf(e).value)(c) <==> WordCharacter(c) || (c == '#' && e == SQLServer)
  {
  }

  lemma WordSpans(e: Engine, w: string, rest: string)
    requires e in ENGINES && WordEnds(e, w, rest)
    ensures Span(w + rest, WordClass(DialectOf(e).value)) == |w|
  {
    var class_ := WordClass(DialectOf(e).value);
    forall k | 0 <= k < |w|
      ensures class_(w[k])
    {
      ClassIs(e, w[k]);
    }
    if rest != [] {
      ClassIs(e, rest[0]);
      hide WordClass;
      SpanOf(w, rest, class_);
    } else {
      hide WordClass;
      SpanAll(w, class_);
      assert w + rest == w;
    }
  }

  lemma {:induction false} SpanAll(w: string, class_: char -> bool)
    requires forall k :: 0 <= k < |w| ==> class_(w[k])
    ensures Span(w, class_) == |w|
  {
    if w != [] {
      SpanAll(w[1..], class_);
    }
  }

  lemma WordLeads(e: Engine, w: string, rest: string)
    requires e in ENGINES && WordEnds(e, w, rest)
    ensures LeadOf(DialectOf(e).value, w + rest, false) == AtWord
  {
    assert (w + rest)[0] == w[0];
  }

  lemma PrefixIs(e: Engine, fold: Fold, w: string, rest: string)
    requires e in ENGINES
    ensures PrefixAt(DialectOf(e).value, fold, w + rest, |w|) ==
            if !Introduces(e, fold(w), rest) then NoPrefix
            else if fold(w) == "u" then Prefix(if rest[1] == '"' then QuotedIdent else StringLiteral, |w| + 1, rest[1], false)
            else Prefix(StringLiteral, |w|, '\'', fold(w) == "e" || (fold(w) == "n" && e == MySQL))
  {
    assert (w + rest)[..|w|] == w;
    assert Peek(w + rest, |w|) == Peek(rest, 0) && Peek(w + rest, |w| + 1) == Peek(rest, 1);
  }

  /** A word that introduces nothing is a token as it stands. */
  lemma WordReads(e: Engine, fold: Fold, w: string, rest: string)
    requires e in ENGINES && WordEnds(e, w, rest) && !Introduces(e, fold(w), rest)
    ensures OneToken(e, fold, w, Word, w, 0, rest)
  {
    WordSpans(e, w, rest);
    WordLeads(e, w, rest);
    PrefixIs(e, fold, w, rest);
    assert (w + rest)[..|w|] == w && w + rest != [];
    hide Span, LeadOf, PrefixAt, DialectOf, WordClass, OneToken, Introduces;
    TokenStep(e, fold, w, Word, w, 0, rest);
  }

  /** A word of one letter, directly before a quote. */
  lemma LetterWord(e: Engine, p: char, tail: string)
    requires e in ENGINES && ('a' <= p <= 'z' || 'A' <= p <= 'Z') && tail != []
    requires tail[0] == '\'' || tail[0] == '&'
    ensures WordEnds(e, [p], tail)
  {
  }

  lemma IntroducedStep(
    e: Engine, fold: Fold, p: char, between: string, parts: seq<Part>, quote: char, kind: TokenKind, backslash: bool,
    rest: string)
    requires e in ENGINES && ('a' <= p <= 'z' || 'A' <= p <= 'Z') && NotBefore(quote, rest)
    requires (quote == '\'' && between == []) || ((quote == '\'' || quote == '"') && between == "&")
    requires if backslash then Backslashed(parts, quote) else Standard(parts, quote)
    requires PrefixAt(DialectOf(e).value, fold, [p] + (between + Quoted(quote, parts, quote) + rest), 1) ==
             Prefix(kind, 1 + |between|, quote, backslash)
    ensures OneToken(
              e, fold, [p] + between + Quoted(quote, parts, quote), kind, Content(parts, quote), 1 + |between|, rest)
  {
    var tail := between + Quoted(quote, parts, quote) + rest;
    var lit := [p] + between + Quoted(quote, parts, quote);
    assert tail[0] == if between == [] then quote else '&';
    LetterWord(e, p, tail);
    WordSpans(e, [p], tail);
    WordLeads(e, [p], tail);
    assert [p] + tail == lit + rest;
    hide Span, LeadOf, PrefixAt, DialectOf, WordClass, Quoted, QuotedOutcome, Standard, Backslashed, WordEnds;
    QuoteStep(e, fold, [p] + between, quote, parts, quote, kind, backslash, rest);
  }

  /** N: MySQL's national strings have backslashes, SQL Server's have none; PostgreSQL has no such strings. */
  lemma NationalString(e: Engine, fold: Fold, p: char, parts: seq<Part>, rest: string)
    requires e == MySQL || e == SQLServer
    requires ('a' <= p <= 'z' || 'A' <= p <= 'Z') && fold([p]) == "n" && NotBefore('\'', rest)
    requires if e == MySQL then Backslashed(parts, '\'') else Standard(parts, '\'')
    ensures OneToken(e, fold, [p] + Quoted('\'', parts, '\''), StringLiteral, Content(parts, '\''), 1, rest)
  {
    IntroducedAt(e, fold, p, [], parts, '\'', rest);
    assert [p] + [] == [p];
    hide Quoted, Content, Standard, Backslashed, OneToken, PrefixAt, Introduces;
    IntroducedStep(e, fold, p, [], parts, '\'', StringLiteral, e == MySQL, rest);
  }

  lemma IntroducedAt(e: Engine, fold: Fold, p: char, between: string, parts: seq<Part>, quote: char, rest: string)
    requires e in ENGINES && (between == [] || between == "&")
    ensures var tail := between + Quoted(quote, parts, quote) + rest;
      && tail != [] && tail[0] == (if between == [] then quote else '&') && (between == "&" ==> |tail| > 1 && tail[1] == quote)
      && PrefixAt(DialectOf(e).value, fold, [p] + tail, 1) ==
         if !Introduces(e, fold([p]), tail) then NoPrefix
         else if fold([p]) == "u" then Prefix(if tail[1] == '"' then QuotedIdent else StringLiteral, 2, tail[1], false)
         else Prefix(StringLiteral, 1, '\'', fold([p]) == "e" || (fold([p]) == "n" && e == MySQL))
  {
    var tail := between + Quoted(quote, parts, quote) + rest;
    PrefixIs(e, fold, [p], tail);
    hide PrefixAt, Introduces;
    assert between == [] ==> tail == Quoted(quote, parts, quote) + rest;
    assert between == "&" ==> tail == ['&'] + (Quoted(quote, parts, quote) + rest);
  }

  /** X and B: MySQL and PostgreSQL have binary strings, with no backslashes; SQL Server has none. */
  lemma BinaryString(e: Engine, fold: Fold, p: char, parts: seq<Part>, rest: string)
    requires e == MySQL || e == PostgreSQL
    requires ('a' <= p <= 'z' || 'A' <= p <= 'Z') && (fold([p]) == "x" || fold([p]) == "b") && NotBefore('\'', rest)
    requires Standard(parts, '\'')
    ensures OneToken(e, fold, [p] + Quoted('\'', parts, '\''), StringLiteral, Content(parts, '\''), 1, rest)
  {
    IntroducedAt(e, fold, p, [], parts, '\'', rest);
    assert [p] + [] == [p];
    hide Quoted, Content, Standard, Backslashed, OneToken, PrefixAt, Introduces;
    IntroducedStep(e, fold, p, [], parts, '\'', StringLiteral, false, rest);
  }

  /** E: PostgreSQL alone has strings with backslashes by that name. */
  lemma EscapeString(fold: Fold, p: char, parts: seq<Part>, rest: string)
    requires ('a' <= p <= 'z' || 'A' <= p <= 'Z') && fold([p]) == "e" && NotBefore('\'', rest)
    requires Backslashed(parts, '\'')
    ensures OneToken(PostgreSQL, fold, [p] + Quoted('\'', parts, '\''), StringLiteral, Content(parts, '\''), 1, rest)
  {
    IntroducedAt(PostgreSQL, fold, p, [], parts, '\'', rest);
    assert [p] + [] == [p];
    hide Quoted, Content, Standard, Backslashed, OneToken, PrefixAt, Introduces;
    IntroducedStep(PostgreSQL, fold, p, [], parts, '\'', StringLiteral, true, rest);
  }

  /** U&: PostgreSQL alone has such strings and names, with no backslashes. */
  lemma UnicodeLiteral(fold: Fold, p: char, parts: seq<Part>, quote: char, rest: string)
    requires ('a' <= p <= 'z' || 'A' <= p <= 'Z') && fold([p]) == "u" && (quote == '\'' || quote == '"')
    requires Standard(parts, quote) && NotBefore(quote, rest)
    ensures OneToken(
              PostgreSQL, fold, [p] + "&" + Quoted(quote, parts, quote), if quote == '"' then QuotedIdent else StringLiteral,
              Content(parts, quote), 2, rest)
  {
    IntroducedAt(PostgreSQL, fold, p, "&", parts, quote, rest);
    hide Quoted, Content, Standard, Backslashed, OneToken, PrefixAt;
    IntroducedStep(
      PostgreSQL, fold, p, "&", parts, quote, if quote == '"' then QuotedIdent else StringLiteral, false, rest);
  }

  // ----- blanks and comments -----

  lemma BlankSkipped(e: Engine, fold: Fold, c: char, rest: string)
    requires e in ENGINES && Blank(c)
    ensures NoToken(e, fold, [c], rest)
  {
    assert ([c] + rest)[0] == c;
    hide Peek, LineCommentStarts, NoToken;
    GapStep(e, fold, [c], Space, rest);
  }

  /** Nothing that ends a line, and then the end or something that does. */
  predicate Line(t: string, rest: string) {
    && (forall k :: 0 <= k < |t| ==> t[k] != '\n' && t[k] != '\r')
    && (rest == [] || rest[0] == '\n' || rest[0] == '\r')
  }

  lemma LineSpans(t: string, rest: string)
    requires Line(t, rest)
    ensures Span(t + rest, InLine) == |t|
  {
    if rest != [] {
      SpanOf(t, rest, InLine);
    } else {
      SpanAll(t, InLine);
      assert t + rest == t;
    }
  }

  /** Two dashes begin a comment that runs to the end of the line; in MySQL only before a blank or a control character. */
  lemma DashComment(e: Engine, fold: Fold, t: string, rest: string)
    requires e in ENGINES && Line(t, rest)
    requires e == MySQL && t != [] ==> Blank(t[0]) || t[0] < ' ' || t[0] == '\U{7f}'
    ensures NoToken(e, fold, "--" + t, rest)
  {
    LineSpans(t, rest);
    DashText(t, rest);
    hide Span, Line, NoToken;
    DashLeads(e, t, rest);
    hide LeadOf, DialectOf;
    EngineHasDialect(e);
    GapStep(e, fold, "--" + t, LineComment, rest);
  }

  lemma DashText(t: string, rest: string)
    ensures var s := "--" + t + rest;
      && s[2..] == t + rest && s[0] == '-' && s[1] == '-' && |"--" + t| == 2 + |t|
      && (|s| > 2 ==> s[2] == if t != [] then t[0] else rest[0])
  {
  }

  lemma DashLeads(e: Engine, t: string, rest: string)
    requires e in ENGINES && (t == [] && rest != [] ==> rest[0] == '\n' || rest[0] == '\r')
    requires e == MySQL && t != [] ==> Blank(t[0]) || t[0] < ' ' || t[0] == '\U{7f}'
    ensures LeadOf(DialectOf(e).value, "--" + t + rest, false) == AtDashes
  {
    DashText(t, rest);
  }

  /** In MySQL, before anything else, the first dash is a mark, and what follows it is read on its own. */
  lemma MySQLDash(fold: Fold, c: char, rest: string)
    requires !Blank(c) && c >= ' ' && c != '\U{7f}'
    ensures OneToken(MySQL, fold, "-", Punct, "-", 0, "-" + [c] + rest)
  {
    var tail := "-" + [c] + rest;
    var s := "-" + tail;
    assert s[0] == '-' && Peek(s, 1) == '-' && |s| > 2 && s[2] == c && s[..1] == "-";
    hide OneToken, Peek;
    assert LeadOf(DialectOf(MySQL).value, s, false) == AtPunct by {
      assert IsPunct('-');
      hide IsPunct;
    }
    hide LeadOf, DialectOf;
    TokenStep(MySQL, fold, "-", Punct, "-", 0, tail);
  }

  /** `#` begins a comment in MySQL. */
  lemma HashComment(fold: Fold, t: string, rest: string)
    requires Line(t, rest)
    ensures NoToken(MySQL, fold, "#" + t, rest)
  {
    var s := "#" + t + rest;
    LineSpans(t, rest);
    assert s[1..] == t + rest && s[0] == '#';
    assert s == ("#" + t) + rest;
    hide Span, Line, NoToken, Peek, LineCommentStarts;
    GapStep(MySQL, fold, "#" + t, LineComment, rest);
  }

  /** No comment ends inside `t`; nor begins there, for an engine whose comments nest. */
  predicate Quiet(e: Engine, t: string) {
    var u := t + "*/";
    forall k :: 0 <= k < |t| ==>
      !(u[k] == '*' && u[k + 1] == '/') && !(e != MySQL && u[k] == '/' && u[k + 1] == '*')
  }

  lemma {:induction false} QuietReads(e: Engine, t: string, rest: string)
    requires Quiet(e, t)
    ensures CommentTail(e != MySQL, t + ("*/" + rest), 1) == Some(|t| + 2)
    decreases |t|
  {
    var s := t + ("*/" + rest);
    if t == [] {
      assert s[0] == '*' && Peek(s, 1) == '/';
    } else {
      assert s[1..] == t[1..] + ("*/" + rest);
      QuietLater(e, t);
      QuietReads(e, t[1..], rest);
      QuietFirst(e, t, rest);
      hide Quiet, Peek;
    }
  }

  lemma QuietLater(e: Engine, t: string)
    requires Quiet(e, t) && t != []
    ensures Quiet(e, t[1..])
  {
    var u, v := t + "*/", t[1..] + "*/";
    assert forall k :: 0 <= k < |v| ==> v[k] == u[k + 1];
  }

  lemma QuietFirst(e: Engine, t: string, rest: string)
    requires Quiet(e, t) && t != []
    ensures var s := t + ("*/" + rest);
      && s[0] == t[0] && !(s[0] == '*' && Peek(s, 1) == '/') && !(e != MySQL && s[0] == '/' && Peek(s, 1) == '*')
  {
    var u, s := t + "*/", t + ("*/" + rest);
    assert u[0] == s[0] && u[1] == s[1] && Peek(s, 1) == s[1];
  }

  /** A slash and a star begin a comment; MySQL's are code if a `!` follows. */
  lemma CommentLeads(e: Engine, fold: Fold, s: string)
    requires e in ENGINES && |s| >= 2 && s[0] == '/' && s[1] == '*'
    requires e == MySQL ==> Peek(s, 2) != '!'
    ensures Next(DialectOf(e).value, fold, s, false) ==
            match CommentTail(e != MySQL, s[2..], 1)
            case None => Refused(UnterminatedComment)
            case Some(n) => Took(BlockComment, 2 + n)
  {
    hide CommentTail, LineCommentStarts;
  }

  /** A comment ends at the first star and slash. */
  lemma Comment(e: Engine, fold: Fold, t: string, rest: string)
    requires e in ENGINES && Quiet(e, t)
    requires e == MySQL && t != [] ==> t[0] != '!'
    ensures NoToken(e, fold, "/*" + t + "*/", rest)
  {
    QuietReads(e, t, rest);
    CommentStep(e, fold, t, rest);
  }

  lemma CommentStep(e: Engine, fold: Fold, t: string, rest: string)
    requires e in ENGINES && CommentTail(e != MySQL, t + ("*/" + rest), 1) == Some(|t| + 2)
    requires e == MySQL && t != [] ==> t[0] != '!'
    ensures NoToken(e, fold, "/*" + t + "*/", rest)
  {
    hide *;
    CommentText(t, rest);
    EngineHasDialect(e);
    CommentLeads(e, fold, "/*" + t + "*/" + rest);
    GapStep(e, fold, "/*" + t + "*/", BlockComment, rest);
  }

  lemma CommentText(t: string, rest: string)
    ensures var s := "/*" + t + "*/" + rest;
      && |s| >= 2 && s[0] == '/' && s[1] == '*' && s[2..] == t + ("*/" + rest)
      && Peek(s, 2) == (if t != [] then t[0] else '*')
    ensures |"/*" + t + "*/"| == |t| + 4 && "/*" + t + "*/" != []
  {
  }

  lemma EngineHasDialect(e: Engine)
    requires e in ENGINES
    ensures DialectOf(e).Some?
  {
  }

  /** Comments within comments, around characters that are neither slash nor star. */
  datatype Nest = Ends | Says(c: char, next: Nest) | Holds(inner: Nest, next: Nest)

  function Spell(n: Nest): string {
    match n
    case Ends => []
    case Says(c, next) => [c] + Spell(next)
    case Holds(inner, next) => "/*" + Spell(inner) + "*/" + Spell(next)
  }

  predicate Calm(n: Nest) {
    match n
    case Ends => true
    case Says(c, next) => c != '/' && c != '*' && Calm(next)
    case Holds(inner, next) => Calm(inner) && Calm(next)
  }

  function Further(n: nat, r: Option<nat>): Option<nat> {
    match r
    case None => None
    case Some(m) => Some(n + m)
  }

  lemma OneFurther(s: string, c: char, u: string, depth: nat)
    requires depth > 0 && s == [c] + u && c != '/' && c != '*'
    ensures CommentTail(true, s, depth) == Further(1, CommentTail(true, u, depth))
  {
    assert s[1..] == u;
  }

  lemma OpensFurther(s: string, u: string, depth: nat)
    requires depth > 0 && s == "/*" + u
    ensures CommentTail(true, s, depth) == Further(2, CommentTail(true, u, depth + 1))
  {
    assert s[2..] == u && s[0] == '/' && Peek(s, 1) == '*';
  }

  lemma ClosesFurther(s: string, u: string, depth: nat)
    requires depth > 1 && s == "*/" + u
    ensures CommentTail(true, s, depth) == Further(2, CommentTail(true, u, depth - 1))
  {
    assert s[2..] == u && s[0] == '*' && Peek(s, 1) == '/';
  }

  lemma {:induction false} NestReads(n: Nest, u: string, depth: nat)
    requires Calm(n) && depth > 0
    ensures CommentTail(true, Spell(n) + u, depth) == Further(|Spell(n)|, CommentTail(true, u, depth))
    decreases n
  {
    hide CommentTail;
    match n
    case Ends => assert [] + u == u;
    case Says(c, next) =>
      assert Spell(n) + u == [c] + (Spell(next) + u);
      NestReads(next, u, depth);
      OneFurther(Spell(n) + u, c, Spell(next) + u, depth);
    case Holds(inner, next) =>
      var after := Spell(next) + u;
      var within := Spell(inner) + ("*/" + after);
      assert Spell(n) + u == "/*" + within;
      NestReads(next, u, depth);
      NestReads(inner, "*/" + after, depth + 1);
      ClosesFurther("*/" + after, after, depth + 1);
      OpensFurther(Spell(n) + u, within, depth);
  }

  /** PostgreSQL and SQL Server: comments nest, to any depth. In MySQL the first end is the end, as `Comment` says. */
  lemma NestedComment(e: Engine, fold: Fold, n: Nest, rest: string)
    requires (e == PostgreSQL || e == SQLServer) && Calm(n)
    ensures NoToken(e, fold, "/*" + Spell(n) + "*/", rest)
  {
    NestReads(n, "*/" + rest, 1);
    var u := "*/" + rest;
    assert u[0] == '*' && Peek(u, 1) == '/';
    assert CommentTail(true, u, 1) == Some(2);
    hide CommentTail, Spell, Calm;
    CommentStep(e, fold, Spell(n), rest);
  }

  predicate EndsAt(t: string, k: int) {
    0 <= k && k + 1 < |t| && t[k] == '*' && t[k + 1] == '/'
  }

  lemma {:induction false} NeverEnds(nested: bool, t: string, depth: nat)
    requires depth > 0 && forall k: int :: !EndsAt(t, k)
    ensures CommentTail(nested, t, depth) == None
    decreases |t|
  {
    if t != [] {
      forall k: int
        ensures !EndsAt(t[1..], k) && (|t| > 1 ==> !EndsAt(t[2..], k))
      {
        assert !EndsAt(t, k + 1) && !EndsAt(t, k + 2);
      }
      assert !EndsAt(t, 0);
      NeverEnds(nested, t[1..], depth);
      if nested && t[0] == '/' && Peek(t, 1) == '*' {
        NeverEnds(nested, t[2..], depth + 1);
      }
    }
  }

  /** A comment that never ends is refused. */
  lemma UnendedComment(e: Engine, fold: Fold, t: string)
    requires e in ENGINES && forall k: int :: !EndsAt(t, k)
    requires e == MySQL && t != [] ==> t[0] != '!'
    ensures Tokenize(e, fold, "/*" + t) == Err(UnterminatedComment)
  {
    var s := "/*" + t;
    NeverEnds(e != MySQL, t, 1);
    assert s[2..] == t && s[0] == '/' && s[1] == '*';
    assert Peek(s, 2) == if t != [] then t[0] else '\0';
    hide *;
    CommentLeads(e, fold, s);
    RefusedStep(e, fold, s, UnterminatedComment);
  }

  // ----- marks, variables and numbers -----

  /** The marks every engine has; a dash or a slash only where it begins no comment. */
  predicate Mark(c: char, rest: string) {
    || c == '+' || c == '*' || c == '%' || c == '^' || c == '&' || c == '|' || c == '~' || c == '!' || c == '='
    || c == '<' || c == '>' || c == '(' || c == ')' || c == ',' || c == '.' || c == ';' || c == ':' || c == '?'
    || c == ']' || c == '{' || c == '}'
    || (c == '-' && NotBefore('-', rest)) || (c == '/' && NotBefore('*', rest))
  }

  lemma MarkIsPunct(c: char, rest: string)
    requires Mark(c, rest)
    ensures IsPunct(c)
  {
    hide IsPunct;
    if c == '+' || c == '-' || c == '*' || c == '/' || c == '%' || c == '^' || c == '&' || c == '|' {
      EarlyMark(c);
    } else if c == '~' || c == '!' || c == '=' || c == '<' || c == '>' || c == '(' || c == ')' || c == ',' {
      MiddleMark(c);
    } else {
      LateMark(c);
    }
  }

  lemma MarkIs(c: char, rest: string)
    requires Mark(c, rest)
    ensures IsPunct(c) && !IsWordStart(c) && !IsDigit(c) && !IsSpace(c)
    ensures c != '#' && c != '\'' && c != '"' && c != '`' && c != '[' && c != '$' && c != '@'
  {
    hide IsPunct, NotBefore;
    MarkIsPunct(c, rest);
  }

  lemma EarlyMark(c: char)
    requires c == '+' || c == '-' || c == '*' || c == '/' || c == '%' || c == '^' || c == '&' || c == '|'
    ensures IsPunct(c)
  {
  }

  lemma MiddleMark(c: char)
    requires c == '~' || c == '!' || c == '=' || c == '<' || c == '>' || c == '(' || c == ')' || c == ','
    ensures IsPunct(c)
  {
  }

  lemma LateMark(c: char)
    requires c == '.' || c == ';' || c == ':' || c == '?' || c == '[' || c == ']' || c == '{' || c == '}' || c == '@' || c == '#'
    ensures IsPunct(c)
  {
  }

  lemma MarkLeads(e: Engine, c: char, rest: string)
    requires e in ENGINES && Mark(c, rest)
    ensures LeadOf(DialectOf(e).value, [c] + rest, false) == AtPunct
  {
    MarkIs(c, rest);
    var s := [c] + rest;
    assert s[0] == c && (c == '-' ==> Peek(s, 1) != '-') && (c == '/' ==> Peek(s, 1) != '*');
    hide IsPunct, IsWordStart, IsDigit, IsSpace, Mark, Peek, LineCommentStarts;
  }

  lemma MarkReads(e: Engine, fold: Fold, c: char, rest: string)
    requires e in ENGINES && Mark(c, rest)
    ensures OneToken(e, fold, [c], Punct, [c], 0, rest)
  {
    MarkLeads(e, c, rest);
    assert ([c] + rest)[..1] == [c];
    hide LeadOf, DialectOf, Mark, OneToken;
    TokenStep(e, fold, [c], Punct, [c], 0, rest);
  }

  /** PostgreSQL has `#` and `@` as marks. */
  lemma PostgreSQLMark(fold: Fold, c: char, rest: string)
    requires c == '#' || c == '@'
    ensures OneToken(PostgreSQL, fold, [c], Punct, [c], 0, rest)
  {
    var s := [c] + rest;
    assert s[..1] == [c] && s[0] == c;
    assert IsPunct(c);
    hide OneToken, Peek, LineCommentStarts, IsPunct;
    TokenStep(PostgreSQL, fold, [c], Punct, [c], 0, rest);
  }

  /** One or two at-signs and the characters of a word. */
  predicate VariableEnds(sigil: string, name: string, rest: string) {
    && (sigil == "@" || sigil == "@@")
    && (forall k :: 0 <= k < |name| ==> WordCharacter(name[k]))
    && (rest == [] || !WordCharacter(rest[0]))
    && (sigil == "@" && name == [] ==> NotBefore('@', rest))
  }

  lemma VariableSpans(sigil: string, name: string, rest: string)
    requires VariableEnds(sigil, name, rest)
    ensures var s := sigil + name + rest;
      s != [] && s[0] == '@' && VariableSize(s) == |sigil + name| && s[..|sigil + name|] == sigil + name
  {
    var s := sigil + name + rest;
    SpanOfName(name, rest);
    assert s[|sigil|..] == name + rest;
    if sigil == "@@" {
      assert s[1] == '@';
    } else if |s| > 1 {
      assert s[1] == if name != [] then name[0] else rest[0];
    }
    hide Span, IsWordPart;
  }

  /** MySQL and SQL Server: at-signs and a name are a variable. */
  lemma VariableReads(e: Engine, fold: Fold, sigil: string, name: string, rest: string)
    requires (e == MySQL || e == SQLServer) && VariableEnds(sigil, name, rest)
    ensures OneToken(e, fold, sigil + name, Variable, sigil + name, 0, rest)
  {
    var s := sigil + name + rest;
    VariableSpans(sigil, name, rest);
    hide VariableSize, VariableEnds, OneToken, LineCommentStarts, Peek;
    assert LeadOf(DialectOf(e).value, s, false) == AtVariable;
    hide LeadOf, DialectOf;
    assert sigil + name != [];
    TokenStep(e, fold, sigil + name, Variable, sigil + name, 0, rest);
  }

  lemma SpanOfName(name: string, rest: string)
    requires forall k :: 0 <= k < |name| ==> WordCharacter(name[k])
    requires rest == [] || !WordCharacter(rest[0])
    ensures Span(name + rest, IsWordPart) == |name|
  {
    if rest != [] {
      SpanOf(name, rest, IsWordPart);
    } else {
      SpanAll(name, IsWordPart);
      assert name + rest == name;
    }
  }

  lemma FiguresSpan(digits: string, rest: string)
    requires forall k :: 0 <= k < |digits| ==> Figure(digits[k])
    requires rest == [] || !Figure(rest[0])
    ensures Span(digits + rest, IsDigit) == |digits|
  {
    if rest != [] {
      SpanOf(digits, rest, IsDigit);
    } else {
      SpanAll(digits, IsDigit);
      assert digits + rest == digits;
    }
  }

  /** PostgreSQL: a dollar sign and a number are a parameter. */
  lemma Parameter(fold: Fold, digits: string, rest: string)
    requires digits != [] && (forall k :: 0 <= k < |digits| ==> Figure(digits[k])) && (rest == [] || !Figure(rest[0]))
    ensures OneToken(PostgreSQL, fold, "$" + digits, Variable, "$" + digits, 0, rest)
  {
    var lit := "$" + digits;
    var s := lit + rest;
    assert s[0] == '$' && s[1..] == digits + rest && Peek(s, 1) == digits[0] && s[..|lit|] == lit;
    FiguresSpan(digits, rest);
    DollarLead(DialectOf(PostgreSQL).value, fold, s);
    assert DollarOutcome(s) == Whole(Variable, s, |lit|);
    hide DialectOf, Next, DollarOutcome, OneToken;
    TokenStep(PostgreSQL, fold, lit, Variable, lit, 0, rest);
  }

  /** A dollar sign that begins neither a parameter nor a tag is a mark. */
  lemma LoneDollar(fold: Fold, name: string, rest: string)
    requires forall k :: 0 <= k < |name| ==> WordLetter(name[k]) || Figure(name[k])
    requires name != [] ==> !Figure(name[0])
    requires rest == [] || !(WordLetter(rest[0]) || Figure(rest[0]) || rest[0] == '$')
    ensures OneToken(PostgreSQL, fold, "$", Punct, "$", 0, name + rest)
  {
    var tail := name + rest;
    var s := "$" + tail;
    assert s[0] == '$' && s[1..] == tail && s[..1] == "$";
    assert tail != [] ==> tail[0] == if name != [] then name[0] else rest[0];
    if rest != [] {
      SpanOf(name, rest, IsTagPart);
    } else {
      SpanAll(name, IsTagPart);
      assert tail == name;
    }
    assert Span(tail, IsTagPart) == |name|;
    assert |name| < |tail| ==> s[1 + |name|] == rest[0];
    DollarLead(DialectOf(PostgreSQL).value, fold, s);
    assert DollarOutcome(s) == Whole(Punct, s, 1) by {
      hide Span, IsTagPart;
    }
    hide DialectOf, Next, DollarOutcome, OneToken, Span;
    TokenStep(PostgreSQL, fold, "$", Punct, "$", 0, tail);
  }

  /** `tag` occurs in `s` first at `n`. */
  predicate OccursFirst(s: string, tag: string, n: nat) {
    n <= |s| && tag <= s[n..] && forall k :: 0 <= k < n ==> !(tag <= s[k..])
  }

  lemma {:induction false} IndexIsFirst(s: string, tag: string, n: nat)
    requires OccursFirst(s, tag, n)
    ensures Index(s, tag) == Some(n)
  {
    if n == 0 {
      assert s[0..] == s;
    } else {
      assert s[0..] == s;
      assert forall k :: 0 <= k < n - 1 ==> s[1..][k..] == s[k + 1..];
      assert s[1..][n - 1..] == s[n..];
      IndexIsFirst(s[1..], tag, n - 1);
    }
  }

  /** PostgreSQL: between two equal tags, everything is content until the tag occurs again. */
  lemma DollarString(fold: Fold, name: string, text: string, rest: string)
    requires forall k :: 0 <= k < |name| ==> WordLetter(name[k]) || Figure(name[k])
    requires name != [] ==> !Figure(name[0])
    requires OccursFirst(text + ("$" + name + "$") + rest, "$" + name + "$", |text|)
    ensures var tag := "$" + name + "$";
      OneToken(PostgreSQL, fold, tag + text + tag, StringLiteral, text, 0, rest)
  {
    assert PostgreSQL in ENGINES;
    hide *;
    var tag := "$" + name + "$";
    var tail := text + tag + rest;
    DollarText(tag, text, rest);
    IndexIsFirst(tail, tag, |text|);
    TagSpans(name, tail);
    DollarOpens(tag + tail, |tag|);
    TagTaken(tag, text, tail, |tag + text + tag|);
    EngineHasDialect(PostgreSQL);
    DollarLead(DialectOf(PostgreSQL).value, fold, tag + tail);
    TokenStep(PostgreSQL, fold, tag + text + tag, StringLiteral, text, 0, rest);
  }

  lemma DollarText(tag: string, text: string, rest: string)
    requires tag != []
    ensures tag + (text + tag + rest) == tag + text + tag + rest
    ensures |tag + text + tag| == |tag| + |text| + |tag| && tag + text + tag != []
    ensures (text + tag + rest)[..|text|] == text
  {
  }

  lemma TagTaken(tag: string, text: string, tail: string, n: nat)
    requires tag != [] && |text| <= |tail| && tail[..|text|] == text && Index(tail, tag) == Some(|text|)
    requires n == |tag| + |text| + |tag|
    ensures TaggedOutcome(tag + tail, |tag|) == Took(Lexeme(StringLiteral, text, 0), n)
  {
    var s := tag + tail;
    assert s[..|tag|] == tag && s[|tag|..] == tail && s[|tag|..|tag| + |text|] == tail[..|text|];
    hide Index;
  }

  lemma TagSpans(name: string, tail: string)
    requires forall k :: 0 <= k < |name| ==> WordLetter(name[k]) || Figure(name[k])
    requires name != [] ==> !Figure(name[0])
    ensures var s := "$" + name + "$" + tail;
      && s == "$" + name + "$" + tail && |"$" + name + "$"| == |name| + 2
      && |s| > 1 && s[0] == '$' && !IsDigit(s[1]) && s[|name| + 1] == '$'
      && Span(s[1..], IsTagPart) == |name|
  {
    var s := "$" + name + "$" + tail;
    assert s[1..] == name + ("$" + tail);
    SpanOf(name, "$" + tail, IsTagPart);
    assert s[1] == if name != [] then name[0] else '$';
  }

  // ----- numbers -----

  predicate Figures(s: string) {
    forall k :: 0 <= k < |s| ==> Figure(s[k])
  }

  predicate HexFigure(c: char) {
    Figure(c) || 'a' <= c <= 'f' || 'A' <= c <= 'F'
  }

  /** `rest` begins with an exponent. */
  predicate ExponentBefore(rest: string) {
    && |rest| > 1 && (rest[0] == 'e' || rest[0] == 'E')
    && (Figure(rest[1]) || (|rest| > 2 && (rest[1] == '+' || rest[1] == '-') && Figure(rest[2])))
  }

  /** A fraction, or none. */
  predicate Fraction(s: string) {
    s == [] || (s[0] == '.' && Figures(s[1..]))
  }

  predicate Exponent(s: string) {
    || s == []
    || (|s| > 1 && (s[0] == 'e' || s[0] == 'E') && Figures(s[1..]))
    || (|s| > 2 && (s[0] == 'e' || s[0] == 'E') && (s[1] == '+' || s[1] == '-') && Figures(s[2..]))
  }

  lemma FractionReads(s: string, j: nat, frac: string, tail: string)
    requires j <= |s| && s[j..] == frac + tail && Fraction(frac) && (tail == [] || !Figure(tail[0]))
    requires frac == [] ==> NotBefore('.', tail)
    ensures FractionEnd(s, j) == j + |frac|
  {
    if frac != [] {
      assert s[j] == frac[0] && s[j + 1..] == s[j..][1..] == frac[1..] + tail;
      FiguresSpan(frac[1..], tail);
    } else {
      assert frac + tail == tail;
      assert tail != [] ==> s[j] == tail[0];
    }
  }

  lemma ExponentReads(s: string, j: nat, exp: string, rest: string)
    requires j <= |s| && s[j..] == exp + rest && Exponent(exp) && (rest == [] || !Figure(rest[0]))
    requires exp == [] ==> !ExponentBefore(rest)
    ensures ExponentEnd(s, j) == j + |exp|
  {
    if exp == [] {
      assert exp + rest == rest;
      assert forall k :: 0 <= k < |rest| ==> s[j + k] == rest[k];
    } else {
      assert forall k :: 0 <= k < |exp| ==> s[j + k] == exp[k];
      var n := if exp[1] == '+' || exp[1] == '-' then 2 else 1;
      assert s[j + n..] == s[j..][n..] == exp[n..] + rest;
      FiguresSpan(exp[n..], rest);
      hide Span;
    }
  }

  /** A decimal number, and that it ends there. */
  predicate NumberEnds(digits: string, frac: string, exp: string, rest: string) {
    && digits != [] && Figures(digits) && Fraction(frac) && Exponent(exp)
    && (rest == [] || !Figure(rest[0]))
    && (exp == [] ==> !ExponentBefore(rest))
    && (exp == [] && frac == [] ==> NotBefore('.', rest))
    && (digits == "0" && frac == [] && exp == [] ==> NotBefore('x', rest) && NotBefore('X', rest))
  }

  lemma ThreeParts(a: string, b: string, c: string, rest: string)
    ensures var s := a + b + c + rest;
      && s == a + (b + (c + rest)) && s[|a|..] == b + (c + rest) && s[|a| + |b|..] == c + rest
      && (a != [] ==> s != [] && s[0] == a[0])
      && (|a| == 1 && |s| > 1 ==> s[1] == if b != [] then b[0] else if c != [] then c[0] else rest[0])
      && (|a| > 1 ==> s[1] == a[1])
  {
  }

  /** What follows the digits of a number, and what follows its fraction, begin neither. */
  lemma NumberTails(digits: string, frac: string, exp: string, rest: string)
    requires NumberEnds(digits, frac, exp, rest)
    ensures var tail := exp + rest;
      && (tail == [] || !Figure(tail[0])) && (frac == [] ==> NotBefore('.', tail))
      && var all := frac + tail;
         && (all == [] || !Figure(all[0]))
         && (digits == "0" ==> NotBefore('x', all) && NotBefore('X', all))
  {
    hide ExponentBefore, Figures;
  }

  lemma NumberSpans(digits: string, frac: string, exp: string, rest: string)
    requires NumberEnds(digits, frac, exp, rest)
    ensures var s := digits + frac + exp + rest;
      s != [] && IsDigit(s[0]) && NumberSize(s) == |digits + frac + exp|
  {
    hide *;
    hide Figures;
    var s := digits + frac + exp + rest;
    NumberEndsIs(digits, frac, exp, rest);
    ThreeParts(digits, frac, exp, rest);
    NumberTails(digits, frac, exp, rest);
    FiguresSpan(digits, frac + (exp + rest));
    FractionReads(s, |digits|, frac, exp + rest);
    ExponentReads(s, |digits| + |frac|, exp, rest);
    NotHex(digits, s, frac + (exp + rest));
    NumberSizeIs(s, |digits|, |digits| + |frac|, |digits| + |frac| + |exp|);
  }

  lemma NumberEndsIs(digits: string, frac: string, exp: string, rest: string)
    requires NumberEnds(digits, frac, exp, rest)
    ensures digits != [] && Figures(digits) && Fraction(frac) && Exponent(exp) && Figure(digits[0])
    ensures forall k :: 0 <= k < |digits| ==> Figure(digits[k])
    ensures (rest == [] || !Figure(rest[0])) && (exp == [] ==> !ExponentBefore(rest))
  {
    hide Fraction, Exponent, ExponentBefore;
  }

  lemma NumberSizeIs(s: string, i: nat, j: nat, n: nat)
    requires s != [] && Figure(s[0]) && !(s[0] == '0' && |s| > 1 && (s[1] == 'x' || s[1] == 'X'))
    requires i <= j <= |s| && Span(s, IsDigit) == i && FractionEnd(s, i) == j && ExponentEnd(s, j) == n
    ensures IsDigit(s[0]) && NumberSize(s) == n
  {
    hide Span, FractionEnd, ExponentEnd;
  }

  lemma NotHex(digits: string, s: string, all: string)
    requires digits != [] && s == digits + all && (digits == "0" ==> NotBefore('x', all) && NotBefore('X', all))
    requires Figures(digits)
    ensures !(s[0] == '0' && |s| > 1 && (s[1] == 'x' || s[1] == 'X'))
  {
    if |digits| > 1 {
      assert Figure(digits[1]) && s[1] == digits[1];
    } else if |s| > 1 {
      assert s[1] == all[0];
      assert digits[0] == '0' ==> digits == "0";
    }
  }

  /** A decimal number, its fraction and its exponent are one token. */
  lemma NumberReads(e: Engine, fold: Fold, digits: string, frac: string, exp: string, rest: string)
    requires e in ENGINES && NumberEnds(digits, frac, exp, rest)
    ensures OneToken(e, fold, digits + frac + exp, Number, digits + frac + exp, 0, rest)
  {
    var lit := digits + frac + exp;
    NumberSpans(digits, frac, exp, rest);
    assert lit != [] && (lit + rest)[..|lit|] == lit;
    hide NumberEnds;
    NumberStep(e, fold, lit, rest);
  }

  lemma NumberStep(e: Engine, fold: Fold, lit: string, rest: string)
    requires e in ENGINES && lit != [] && IsDigit((lit + rest)[0]) && NumberSize(lit + rest) == |lit|
    ensures OneToken(e, fold, lit, Number, lit, 0, rest)
  {
    var s := lit + rest;
    assert s[..|lit|] == lit;
    hide NumberSize, OneToken, LineCommentStarts, Peek;
    assert LeadOf(DialectOf(e).value, s, false) == AtNumber;
    hide LeadOf, DialectOf;
    TokenStep(e, fold, lit, Number, lit, 0, rest);
  }

  /** A hexadecimal number is one token. */
  lemma HexNumberReads(e: Engine, fold: Fold, x: char, digits: string, rest: string)
    requires e in ENGINES && (x == 'x' || x == 'X')
    requires (forall k :: 0 <= k < |digits| ==> HexFigure(digits[k])) && (rest == [] || !HexFigure(rest[0]))
    ensures OneToken(e, fold, "0" + [x] + digits, Number, "0" + [x] + digits, 0, rest)
  {
    var lit := "0" + [x] + digits;
    var s := lit + rest;
    assert s[0] == '0' && s[1] == x && s[2..] == digits + rest;
    if rest != [] {
      SpanOf(digits, rest, IsHexDigit);
    } else {
      SpanAll(digits, IsHexDigit);
      assert digits + rest == digits;
    }
    assert NumberSize(s) == |lit|;
    hide NumberSize, Span;
    NumberStep(e, fold, lit, rest);
  }

  // ----- MySQL's executable comments -----

  lemma SameLead(d: Dialect, fold: Fold, s: string)
    requires s != [] && s[0] != '*'
    ensures Next(d, fold, s, true) == Next(d, fold, s, false)
  {
    hide QuotedOutcome, WordOutcome, BlockCommentOutcome, DollarOutcome, VariableSize, NumberSize, LineCommentStarts;
  }

  lemma PieceOpensNone(d: Dialect, fold: Fold, s: string)
    requires s != [] && '*' !in s && Next(d, fold, s, false).Took?
    ensures !Next(d, fold, s, false).piece.ExecOpen? && !Next(d, fold, s, false).piece.ExecClose?
  {
    hide QuotedOutcome, WordOutcome, BlockCommentOutcome, DollarOutcome, VariableSize, NumberSize, LineCommentStarts;
    assert Peek(s, 1) != '*';
  }

  /** Inside an executable comment, code without stars is read as it is outside. */
  lemma {:induction false} ExecScan(d: Dialect, fold: Fold, s: string, u: string)
    requires '*' !in s && NewlineFirst(u) && Scan(d, fold, s, 0).Ok?
    ensures Scan(d, fold, s + u, 1) == Concat(Scan(d, fold, s, 0).value, Scan(d, fold, u, 1))
    decreases |s|
  {
    if s == [] {
      assert s + u == u;
      ConcatNothing(Scan(d, fold, u, 1));
    } else {
      hide Scan, Next, Concat, NewlineFirst;
      NextOfScanned(d, fold, s, 0);
      NextStops(d, fold, s, false, u);
      SameLead(d, fold, s + u);
      PieceOpensNone(d, fold, s);
      var Took(piece, n) := Next(d, fold, s, false);
      ScanTook(d, fold, s, 0);
      ScanTook(d, fold, s + u, 1);
      TakeAppend(s, u, n);
      DropAppend(s, u, n);
      ExecScan(d, fold, s[n..], u);
      ConcatCons(Segment(piece, s[..n]), Scan(d, fold, s[n..], 0).value, Scan(d, fold, u, 1));
    }
  }

  lemma ExecOpens(d: Dialect, fold: Fold, version: string, t: string)
    requires DialectOf(MySQL) == Some(d) && Figures(version) && NewlineFirst(t)
    ensures Scan(d, fold, "/*!" + version + t, 0) == Cons(Segment(ExecOpen, "/*!" + version), Scan(d, fold, t, 1))
  {
    var v := "/*!" + version;
    var s := v + t;
    assert s[3..] == version + t && s[0] == '/' && Peek(s, 1) == '*' && Peek(s, 2) == '!';
    FiguresSpan(version, t);
    assert s[..|v|] == v && s[|v|..] == t;
    hide Span, Scan, Figures, LineCommentStarts;
    assert Next(d, fold, s, false) == Took(ExecOpen, |v|);
    hide DialectOf, Next;
    ScanTook(d, fold, s, 0);
  }

  lemma ExecGap(d: Dialect, fold: Fold, t: string)
    ensures Scan(d, fold, "\n" + t, 1) == Cons(NEWLINE, Scan(d, fold, t, 1))
  {
    var s := "\n" + t;
    assert s[1..] == t && s[..1] == "\n";
    assert Next(d, fold, s, true) == Took(Space, 1);
    hide Next, Scan;
    ScanTook(d, fold, s, 1);
  }

  const EXEC_CLOSE := Segment(ExecClose, "*/")

  lemma ExecCloses(d: Dialect, fold: Fold, rest: string)
    ensures Scan(d, fold, "*/" + rest, 1) == Cons(EXEC_CLOSE, Scan(d, fold, rest, 0))
  {
    var s := "*/" + rest;
    assert s[2..] == rest && s[..2] == "*/" && s[0] == '*' && Peek(s, 1) == '/';
    hide LineCommentStarts, Scan;
    assert Next(d, fold, s, true) == Took(ExecClose, 2);
    hide Next;
    ScanTook(d, fold, s, 1);
  }

  /** The code in an executable comment, after what opens it. */
  function Opened(v: string, gs: seq<Segment>): seq<Segment> {
    [Segment(ExecOpen, v), NEWLINE] + gs
  }

  /** What follows an executable comment, after what closes it. */
  function Closed(hs: seq<Segment>): seq<Segment> {
    [NEWLINE, EXEC_CLOSE] + hs
  }

  lemma ExecPieces(v: string, gs: seq<Segment>, hs: seq<Segment>)
    ensures var open := Segment(ExecOpen, v);
      Cons(open, Cons(NEWLINE, Concat(gs, Cons(NEWLINE, Cons(EXEC_CLOSE, Ok(hs)))))) ==
        Ok(Opened(v, gs) + Closed(hs))
  {
    var open, tail := Segment(ExecOpen, v), [NEWLINE, EXEC_CLOSE] + hs;
    assert [NEWLINE] + ([EXEC_CLOSE] + hs) == tail;
    assert [open] + ([NEWLINE] + (gs + tail)) == [open, NEWLINE] + gs + tail;
  }

  lemma LeftTokens(fold: Fold, v: string, gs: seq<Segment>)
    ensures var left := Opened(v, gs);
      && TokensOf(fold, left, 0) == Shift(TokensOf(fold, gs, 0), |v| + 1)
      && |Flatten(left)| == |v| + 1 + |Flatten(gs)|
  {
    hide TokensOf, Flatten, Shift;
    GapSizes();
    NoTokens(fold, Segment(ExecOpen, v), NEWLINE, gs, 0);
    FlattenTwo(Segment(ExecOpen, v), NEWLINE, gs);
    TokensOfShift(fold, gs, 0, |v| + 1);
  }

  lemma RightTokens(fold: Fold, hs: seq<Segment>, m: nat)
    ensures TokensOf(fold, Closed(hs), m) == Shift(TokensOf(fold, hs, 0), m + 3)
  {
    hide TokensOf, Flatten, Shift;
    GapSizes();
    NoTokens(fold, NEWLINE, EXEC_CLOSE, hs, m);
    TokensOfShift(fold, hs, 0, m + 3);
  }

  lemma ExecTokens(fold: Fold, v: string, gs: seq<Segment>, hs: seq<Segment>)
    ensures TokensOf(fold, Opened(v, gs) + Closed(hs), 0) ==
              Shift(TokensOf(fold, gs, 0), |v| + 1) + Shift(TokensOf(fold, hs, 0), |v| + 1 + |Flatten(gs)| + 3)
  {
    hide *;
    var m := |v| + 1 + |Flatten(gs)|;
    LeftTokens(fold, v, gs);
    RightTokens(fold, hs, m);
    BothTokens(
      fold, Opened(v, gs), Closed(hs), Shift(TokensOf(fold, gs, 0), |v| + 1),
      Shift(TokensOf(fold, hs, 0), m + 3), m);
  }

  lemma BothTokens(
    fold: Fold, left: seq<Segment>, right: seq<Segment>, before: seq<Token>, after: seq<Token>, m: nat)
    requires TokensOf(fold, left, 0) == before && |Flatten(left)| == m && TokensOf(fold, right, m) == after
    ensures TokensOf(fold, left + right, 0) == before + after
  {
    hide *;
    TokensOfAppend(fold, left, right, 0);
  }

  lemma GapSizes()
    ensures |NEWLINE.slice| == 1 && |EXEC_CLOSE.slice| == 2
    ensures !NEWLINE.piece.Lexeme? && !EXEC_CLOSE.piece.Lexeme?
  {
  }

  lemma NoTokens(fold: Fold, a: Segment, b: Segment, gs: seq<Segment>, pos: nat)
    requires !a.piece.Lexeme? && !b.piece.Lexeme?
    ensures TokensOf(fold, [a, b] + gs, pos) == TokensOf(fold, gs, pos + |a.slice| + |b.slice|)
  {
    assert ([a, b] + gs)[1..] == [b] + gs && ([b] + gs)[1..] == gs;
  }

  lemma FlattenTwo(a: Segment, b: Segment, gs: seq<Segment>)
    ensures Flatten([a, b] + gs) == a.slice + (b.slice + Flatten(gs))
  {
    assert ([a, b] + gs)[1..] == [b] + gs && ([b] + gs)[1..] == gs;
  }

  /** MySQL: a star, an exclamation mark and a version number open what is code to the star and slash. */
  lemma ExecutableComment(fold: Fold, version: string, code: string, rest: string)
    requires Figures(version) && '*' !in code && Tokenize(MySQL, fold, code).Ok? && Tokenize(MySQL, fold, rest).Ok?
    ensures var n := |version| + 4;
      Tokenize(MySQL, fold, "/*!" + version + "\n" + code + "\n*/" + rest) ==
        Ok(Shift(Tokenize(MySQL, fold, code).value, n) + Shift(Tokenize(MySQL, fold, rest).value, n + |code| + 3))
  {
    hide *;
    var d := ExecLexes(fold, code, rest);
    ExecText(version, code, rest);
    ExecTokenized(d, fold, version, code, rest);
  }

  lemma ExecTokenized(d: Dialect, fold: Fold, version: string, code: string, rest: string)
    requires DialectOf(MySQL) == Some(d) && Figures(version) && '*' !in code
    requires Scan(d, fold, code, 0).Ok? && Scan(d, fold, rest, 0).Ok?
    ensures Tokenize(MySQL, fold, "/*!" + version + ("\n" + (code + ("\n" + ("*/" + rest))))) ==
            Ok(Shift(TokensOf(fold, Scan(d, fold, code, 0).value, 0), |version| + 4) +
               Shift(TokensOf(fold, Scan(d, fold, rest, 0).value, 0), |version| + 4 + |code| + 3))
  {
    hide *;
    var v, gs, hs := "/*!" + version, Scan(d, fold, code, 0).value, Scan(d, fold, rest, 0).value;
    ScanPartitions(d, fold, code, 0);
    ExecScans(d, fold, version, code, rest);
    ExecPieces(v, gs, hs);
    LexIs(MySQL, d, fold, v + ("\n" + (code + ("\n" + ("*/" + rest)))));
    ExecTokens(fold, v, gs, hs);
    TokensInOk(fold, Opened(v, gs) + Closed(hs));
  }

  lemma TokensInOk(fold: Fold, gs: seq<Segment>)
    ensures TokensIn(fold, Ok(gs)) == Ok(TokensOf(fold, gs, 0))
  {
  }

  lemma ExecLexes(fold: Fold, code: string, rest: string) returns (d: Dialect)
    requires Tokenize(MySQL, fold, code).Ok? && Tokenize(MySQL, fold, rest).Ok?
    ensures DialectOf(MySQL) == Some(d) && Scan(d, fold, code, 0).Ok? && Scan(d, fold, rest, 0).Ok?
    ensures Tokenize(MySQL, fold, code) == Ok(TokensOf(fold, Scan(d, fold, code, 0).value, 0))
    ensures Tokenize(MySQL, fold, rest) == Ok(TokensOf(fold, Scan(d, fold, rest, 0).value, 0))
  {
    d := DialectOf(MySQL).value;
    hide Scan, TokensOf;
  }

  lemma ExecText(version: string, code: string, rest: string)
    ensures "/*!" + version + "\n" + code + "\n*/" + rest ==
            "/*!" + version + ("\n" + (code + ("\n" + ("*/" + rest))))
  {
    assert "\n*/" + rest == "\n" + ("*/" + rest);
    var end := "\n*/" + rest;
    assert "/*!" + version + "\n" + code + "\n*/" + rest == "/*!" + version + ("\n" + (code + end));
  }

  lemma ExecScans(d: Dialect, fold: Fold, version: string, code: string, rest: string)
    requires DialectOf(MySQL) == Some(d) && Figures(version) && '*' !in code && Scan(d, fold, code, 0).Ok?
    ensures Scan(d, fold, "/*!" + version + ("\n" + (code + ("\n" + ("*/" + rest)))), 0) ==
            Cons(Segment(ExecOpen, "/*!" + version), Cons(NEWLINE,
              Concat(Scan(d, fold, code, 0).value, Cons(NEWLINE, Cons(EXEC_CLOSE, Scan(d, fold, rest, 0))))))
  {
    hide *;
    hide NewlineFirst;
    var end := "\n" + ("*/" + rest);
    Newlines("*/" + rest);
    Newlines(code + end);
    ExecOpens(d, fold, version, "\n" + (code + end));
    ExecGap(d, fold, code + end);
    ExecScan(d, fold, code, end);
    ExecGap(d, fold, "*/" + rest);
    ExecCloses(d, fold, rest);
  }

  lemma Newlines(t: string)
    ensures NewlineFirst("\n" + t)
  {
  }
}
