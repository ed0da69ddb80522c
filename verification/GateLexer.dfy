/**
  The SQL lexer of internal/gate/lexer.go, and the dialect table that drives it.

  A source string is a `string` whose characters stand for bytes.  The lexer never
  looks behind its position, so the specification reads a suffix of the source and
  says which piece the suffix begins with; `Lexer` is the loop over an index.

  `fold` stands for the Unicode lower-casing of a word.  It is a parameter: nothing
  here depends on what it does to any particular character.
 */
module GateLexer {
  import opened Wrappers

  type Fold = string -> string

  datatype Engine = MySQL | PostgreSQL | SQLServer | Unsupported(name: string)

  const ENGINES: seq<Engine> := [MySQL, PostgreSQL, SQLServer]

  /** The lexical divergences between the engines; a dialect sets those it has. */
  datatype Dialect = Dialect(
    nestedBlockComments: bool := false,
    executableComments: bool := false,
    lineCommentNeedsSpace: bool := false,
    hashLineComments: bool := false,
    backslashEscapes: bool := false,
    doubleQuoteIsString: bool := false,
    backtickIdentifiers: bool := false,
    bracketIdentifiers: bool := false,
    hashIdentifiers: bool := false,
    dollarQuoting: bool := false,
    escapeStringPrefix: bool := false,
    unicodePrefix: bool := false,
    nationalPrefix: bool := false,
    binaryPrefix: bool := false,
    atSignVariables: bool := false)

  function DialectOf(engine: Engine): Option<Dialect> {
    match engine
    case MySQL => Some(Dialect(
      executableComments := true, lineCommentNeedsSpace := true, hashLineComments := true,
      backslashEscapes := true, doubleQuoteIsString := true, backtickIdentifiers := true,
      nationalPrefix := true, binaryPrefix := true, atSignVariables := true))
    case PostgreSQL => Some(Dialect(
      nestedBlockComments := true, dollarQuoting := true, escapeStringPrefix := true,
      unicodePrefix := true, binaryPrefix := true))
    case SQLServer => Some(Dialect(
      nestedBlockComments := true, bracketIdentifiers := true, hashIdentifiers := true,
      nationalPrefix := true, atSignVariables := true))
    case Unsupported(_) => None
  }

  datatype TokenKind = Word | QuotedIdent | StringLiteral | Number | Punct | Variable

  datatype Token = Token(kind: TokenKind, text: string, lower: string, pos: nat)

  datatype LexError =
    | UnterminatedString
    | UnterminatedIdentifier
    | UnterminatedComment
    | UnsupportedCharacter
    | UnknownEngine

  // ----- character classes -----

  predicate IsSpace(c: char) {
    c == ' ' || c == '\t' || c == '\n' || c == '\r' || c == '\U{0B}' || c == '\U{0C}'
  }

  predicate IsHexDigit(c: char) { IsDigit(c) || 'a' <= c <= 'f' || 'A' <= c <= 'F' }

  predicate IsLetter(c: char) { 'a' <= c <= 'z' || 'A' <= c <= 'Z' }

  predicate IsWordStart(c: char) { IsLetter(c) || c == '_' || c >= '\U{80}' }

  predicate IsWordPart(c: char) { IsWordStart(c) || IsDigit(c) || c == '$' }

  predicate IsTagPart(c: char) { IsWordStart(c) || IsDigit(c) }

  predicate IsPunct(c: char) { c in "+-*/%^&|~!=<>(),.;:?[]{}@#$" }

  predicate InLine(c: char) { c != '\n' && c != '\r' }

  predicate IsHashWordPart(c: char) { IsWordPart(c) || c == '#' }

  function WordClass(d: Dialect): char -> bool {
    if d.hashIdentifiers then IsHashWordPart else IsWordPart
  }

  // ----- what a suffix of the source begins with -----

  /** One piece of source: a token, or something the lexer drops. */
  datatype Piece =
    | Space
    | LineComment
    | BlockComment
    | ExecOpen
    | ExecClose
    | Lexeme(kind: TokenKind, text: string, at: nat)

  datatype Outcome = Took(piece: Piece, size: nat) | Refused(error: LexError)

  /** The length of the longest prefix of `s` whose characters are all in the class. */
  function Span(s: string, class_: char -> bool): (n: nat)
    ensures n <= |s|
    ensures forall k :: 0 <= k < n ==> class_(s[k])
    ensures n < |s| ==> !class_(s[n])
  {
    if s == [] || !class_(s[0]) then 0 else 1 + Span(s[1..], class_)
  }

  function Peek(s: string, n: nat): char {
    if n < |s| then s[n] else '\0'
  }

  predicate LineCommentStarts(d: Dialect, s: string) {
    !d.lineCommentNeedsSpace || |s| <= 2 || IsSpace(s[2]) || s[2] < '\U{20}' || s[2] == '\U{7f}'
  }

  /** What follows an opened comment: the characters up to and including its end. */
  function CommentTail(nested: bool, s: string, depth: nat): (r: Option<nat>)
    requires depth > 0
    ensures r.Some? ==> 2 <= r.value <= |s|
    decreases |s|
  {
    if s == [] then None
    else if nested && s[0] == '/' && Peek(s, 1) == '*' then
      match CommentTail(nested, s[2..], depth + 1)
      case None => None
      case Some(n) => Some(n + 2)
    else if s[0] == '*' && Peek(s, 1) == '/' then
      if depth == 1 then Some(2)
      else
        match CommentTail(nested, s[2..], depth - 1)
        case None => None
        case Some(n) => Some(n + 2)
    else
      match CommentTail(nested, s[1..], depth)
      case None => None
      case Some(n) => Some(n + 1)
  }

  datatype Body = Body(text: string, size: nat)

  function Prepend(c: char, width: nat, rest: Option<Body>): Option<Body> {
    match rest
    case None => None
    case Some(b) => Some(Body([c] + b.text, width + b.size))
  }

  /** What follows an opening delimiter: the content, and its size with the closing delimiter. */
  function QuotedBody(s: string, close: char, backslash: bool): (r: Option<Body>)
    ensures r.Some? ==> 1 <= r.value.size <= |s|
    decreases |s|
  {
    if s == [] then None
    else if backslash && s[0] == '\\' && |s| > 1 then Prepend(s[1], 2, QuotedBody(s[2..], close, backslash))
    else if s[0] == close then
      if |s| > 1 && s[1] == close then Prepend(close, 2, QuotedBody(s[2..], close, backslash))
      else Some(Body([], 1))
    else Prepend(s[0], 1, QuotedBody(s[1..], close, backslash))
  }

  function QuotedOutcome(s: string, at: nat, kind: TokenKind, close: char, backslash: bool): (o: Outcome)
    requires at < |s|
    ensures o.Took? ==> 1 <= o.size <= |s| && o.piece.Lexeme?
  {
    match QuotedBody(s[at + 1..], close, backslash)
    case Some(b) => Took(Lexeme(kind, b.text, at), at + 1 + b.size)
    case None => Refused(if kind == QuotedIdent then UnterminatedIdentifier else UnterminatedString)
  }

  /** The first place `needle` occurs in `s`. */
  function Index(s: string, needle: string): (r: Option<nat>)
    ensures r.Some? ==> r.value + |needle| <= |s| && needle <= s[r.value..]
  {
    if needle <= s then Some(0)
    else if s == [] then None
    else
      match Index(s[1..], needle)
      case None => None
      case Some(n) => Some(n + 1)
  }

  function Whole(kind: TokenKind, s: string, size: nat): (o: Outcome)
    requires size <= |s|
    ensures o.Took? && o.piece.Lexeme? && o.size == size
  {
    Took(Lexeme(kind, s[..size], 0), size)
  }

  /** A string opened by the tag `s[..n]`, whose content runs to the tag's next occurrence. */
  function TaggedOutcome(s: string, n: nat): (o: Outcome)
    requires 1 <= n <= |s|
    ensures o.Took? ==> 1 <= o.size <= |s| && o.piece.Lexeme?
  {
    match Index(s[n..], s[..n])
    case None => Refused(UnterminatedString)
    case Some(end) => Took(Lexeme(StringLiteral, s[n..n + end], 0), n + end + n)
  }

  function DollarOutcome(s: string): (o: Outcome)
    requires s != [] && s[0] == '$'
    ensures o.Took? ==> 1 <= o.size <= |s| && o.piece.Lexeme?
  {
    if IsDigit(Peek(s, 1)) then Whole(Variable, s, 1 + Span(s[1..], IsDigit))
    else
      var j := 1 + Span(s[1..], IsTagPart);
      if j >= |s| || s[j] != '$' then Whole(Punct, s, 1)
      else TaggedOutcome(s, j + 1)
  }

  function VariableSize(s: string): (n: nat)
    requires s != [] && s[0] == '@'
    ensures 1 <= n <= |s|
  {
    var j := if Peek(s, 1) == '@' then 2 else 1;
    j + Span(s[j..], IsWordPart)
  }

  function FractionEnd(s: string, j: nat): (n: nat)
    requires j <= |s|
    ensures j <= n <= |s|
  {
    if j < |s| && s[j] == '.' then j + 1 + Span(s[j + 1..], IsDigit) else j
  }

  function ExponentEnd(s: string, j: nat): (n: nat)
    requires j <= |s|
    ensures j <= n <= |s|
  {
    if j < |s| && (s[j] == 'e' || s[j] == 'E') then
      var k := if j + 1 < |s| && (s[j + 1] == '+' || s[j + 1] == '-') then j + 2 else j + 1;
      if k < |s| && IsDigit(s[k]) then k + Span(s[k..], IsDigit) else j
    else j
  }

  function NumberSize(s: string): (n: nat)
    requires s != [] && IsDigit(s[0])
    ensures 1 <= n <= |s|
  {
    if s[0] == '0' && |s| > 1 && (s[1] == 'x' || s[1] == 'X') then 2 + Span(s[2..], IsHexDigit)
    else ExponentEnd(s, FractionEnd(s, Span(s, IsDigit)))
  }

  /** A literal prefix, and how the literal it introduces is delimited. */
  datatype Prefix = NoPrefix | Prefix(kind: TokenKind, at: nat, close: char, backslash: bool)

  /** Whether the word `s[..j]` introduces a literal at its end. */
  function PrefixAt(d: Dialect, fold: Fold, s: string, j: nat): (p: Prefix)
    requires j <= |s|
    ensures p.Prefix? ==> j <= p.at < |s| && s[p.at] == p.close && p.at <= j + 1
  {
    var w := fold(s[..j]);
    if w == "n" && d.nationalPrefix && Peek(s, j) == '\'' then
      Prefix(StringLiteral, j, '\'', d.backslashEscapes)
    else if w == "e" && d.escapeStringPrefix && Peek(s, j) == '\'' then
      Prefix(StringLiteral, j, '\'', true)
    else if w == "u" && d.unicodePrefix && Peek(s, j) == '&' && Peek(s, j + 1) == '\'' then
      Prefix(StringLiteral, j + 1, '\'', false)
    else if w == "u" && d.unicodePrefix && Peek(s, j) == '&' && Peek(s, j + 1) == '"' then
      Prefix(QuotedIdent, j + 1, '"', false)
    else if (w == "x" || w == "b") && d.binaryPrefix && Peek(s, j) == '\'' then
      Prefix(StringLiteral, j, '\'', false)
    else NoPrefix
  }

  function WordOutcome(d: Dialect, fold: Fold, s: string): (o: Outcome)
    requires s != []
    ensures o.Took? ==> o.size <= |s| && o.piece.Lexeme?
    ensures o.Took? && WordClass(d)(s[0]) ==> 1 <= o.size
  {
    var j := Span(s, WordClass(d));
    match PrefixAt(d, fold, s, j)
    case NoPrefix => Whole(Word, s, j)
    case Prefix(kind, at, close, backslash) => QuotedOutcome(s, at, kind, close, backslash)
  }

  function BlockCommentOutcome(d: Dialect, s: string): (o: Outcome)
    requires |s| >= 2
    ensures o.Took? ==> 1 <= o.size <= |s|
  {
    if d.executableComments && Peek(s, 2) == '!' then Took(ExecOpen, 3 + Span(s[3..], IsDigit))
    else
      match CommentTail(d.nestedBlockComments, s[2..], 1)
      case None => Refused(UnterminatedComment)
      case Some(n) => Took(BlockComment, 2 + n)
  }

  predicate StartsWord(d: Dialect, c: char) {
    IsWordStart(c) || (d.hashIdentifiers && c == '#') || (!d.dollarQuoting && c == '$')
  }

  /** Which of the lexer's branches a suffix enters. */
  datatype Lead =
    | AtSpace
    | AtExecClose
    | AtDashes
    | AtHash
    | AtBlockComment
    | AtQuote(kind: TokenKind, close: char, backslash: bool)
    | AtDollar
    | AtVariable
    | AtNumber
    | AtWord
    | AtPunct
    | AtUnsupported

  function LeadOf(d: Dialect, s: string, exec: bool): (lead: Lead)
    requires s != []
    ensures lead.AtExecClose? ==> exec
    ensures lead.AtExecClose? || lead.AtDashes? || lead.AtBlockComment? ==> |s| >= 2
    ensures lead.AtQuote? ==> lead.close in "'\"`]"
    ensures lead.AtDollar? ==> s[0] == '$'
    ensures lead.AtVariable? ==> s[0] == '@'
    ensures lead.AtNumber? ==> IsDigit(s[0])
    ensures lead.AtWord? ==> WordClass(d)(s[0])
  {
    var c := s[0];
    if IsSpace(c) then AtSpace
    else if exec && c == '*' && Peek(s, 1) == '/' then AtExecClose
    else if c == '-' && Peek(s, 1) == '-' && LineCommentStarts(d, s) then AtDashes
    else if d.hashLineComments && c == '#' then AtHash
    else if c == '/' && Peek(s, 1) == '*' then AtBlockComment
    else if c == '\'' then AtQuote(StringLiteral, '\'', d.backslashEscapes)
    else if c == '"' then
      if d.doubleQuoteIsString then AtQuote(StringLiteral, '"', d.backslashEscapes)
      else AtQuote(QuotedIdent, '"', false)
    else if d.backtickIdentifiers && c == '`' then AtQuote(QuotedIdent, '`', false)
    else if d.bracketIdentifiers && c == '[' then AtQuote(QuotedIdent, ']', false)
    else if d.dollarQuoting && c == '$' then AtDollar
    else if d.atSignVariables && c == '@' then AtVariable
    else if IsDigit(c) then AtNumber
    else if StartsWord(d, c) then AtWord
    else if IsPunct(c) then AtPunct
    else AtUnsupported
  }

  /** The piece a non-empty suffix begins with; `exec` says an executable comment is open. */
  function Next(d: Dialect, fold: Fold, s: string, exec: bool): (o: Outcome)
    requires s != []
    ensures o.Took? ==> 1 <= o.size <= |s|
    ensures o.Took? && o.piece.ExecClose? ==> exec
  {
    match LeadOf(d, s, exec)
    case AtSpace => Took(Space, 1)
    case AtExecClose => Took(ExecClose, 2)
    case AtDashes => Took(LineComment, 2 + Span(s[2..], InLine))
    case AtHash => Took(LineComment, 1 + Span(s[1..], InLine))
    case AtBlockComment => BlockCommentOutcome(d, s)
    case AtQuote(kind, close, backslash) => QuotedOutcome(s, 0, kind, close, backslash)
    case AtDollar => DollarOutcome(s)
    case AtVariable => Whole(Variable, s, VariableSize(s))
    case AtNumber => Whole(Number, s, NumberSize(s))
    case AtWord => WordOutcome(d, fold, s)
    case AtPunct => Whole(Punct, s, 1)
    case AtUnsupported => Refused(UnsupportedCharacter)
  }

  // ----- the whole source -----

  /** A piece and the slice of source it was read from. */
  datatype Segment = Segment(piece: Piece, slice: string)

  function DepthAfter(piece: Piece, depth: nat): nat
    requires piece.ExecClose? ==> depth > 0
  {
    match piece
    case ExecOpen => depth + 1
    case ExecClose => depth - 1
    case _ => depth
  }

  function Cons(g: Segment, rest: Result<seq<Segment>, LexError>): Result<seq<Segment>, LexError> {
    match rest
    case Err(e) => Err(e)
    case Ok(gs) => Ok([g] + gs)
  }

  /** The pieces of `s` in order, with `depth` executable comments already open. */
  function Scan(d: Dialect, fold: Fold, s: string, depth: nat): Result<seq<Segment>, LexError>
    decreases |s|
  {
    if s == [] then if depth > 0 then Err(UnterminatedComment) else Ok([])
    else
      match Next(d, fold, s, depth > 0)
      case Refused(e) => Err(e)
      case Took(piece, n) => Cons(Segment(piece, s[..n]), Scan(d, fold, s[n..], DepthAfter(piece, depth)))
  }

  function Flatten(gs: seq<Segment>): string {
    if gs == [] then [] else gs[0].slice + Flatten(gs[1..])
  }

  /** The tokens among the pieces, the first of which starts at `pos`. */
  function TokensOf(fold: Fold, gs: seq<Segment>, pos: nat): seq<Token> {
    if gs == [] then []
    else
      var rest := TokensOf(fold, gs[1..], pos + |gs[0].slice|);
      match gs[0].piece
      case Lexeme(kind, text, at) => [Token(kind, text, fold(text), pos + at)] + rest
      case _ => rest
  }

  function Lex(d: Dialect, fold: Fold, src: string): Result<seq<Token>, LexError> {
    match Scan(d, fold, src, 0)
    case Err(e) => Err(e)
    case Ok(gs) => Ok(TokensOf(fold, gs, 0))
  }

  function Tokenize(engine: Engine, fold: Fold, src: string): Result<seq<Token>, LexError> {
    match DialectOf(engine)
    case None => Err(UnknownEngine)
    case Some(d) => Lex(d, fold, src)
  }
}
