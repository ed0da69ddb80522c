/**
  Finding in a statement the name an engine said it does not have (internal/db/missing.go): a lexer
  that keeps only what names need, references of dotted names, and the text that is reported. A char
  is a byte; the bytes of a rune beyond ASCII are all identifier bytes.
 */
module MissingNames {
  import opened Wrappers
  import L = GateLexer

  /** Library functions over text; `printable` is that a name is UTF-8 and every rune of it prints. */
  datatype Text = Text(equalFold: (string, string) -> bool, lower: string -> string, printable: string -> bool)

  datatype Kind = Word | Delimited | Literal | Symbol

  datatype Tok = Tok(kind: Kind, text: string, start: nat, end: nat)

  const RESERVED := " \"'`[]\\.,"

  predicate PlainName(t: Text, name: string) {
    name != "" && t.printable(name) && forall k :: 0 <= k < |name| ==> name[k] !in RESERVED
  }

  predicate IsName(tok: Tok) { tok.kind == Word || tok.kind == Delimited }

  predicate IsSymbol(tok: Tok, s: string) { tok.kind == Symbol && tok.text == s }

  predicate IsIdentifier(c: char) { c == '_' || c == '$' || L.IsLetter(c) || IsDigit(c) || c >= '\U{80}' }

  // ----- the lexer -----

  function WordEnd(s: string, i: nat): (end: nat)
    requires i <= |s|
    ensures i <= end <= |s|
    ensures forall k :: i <= k < end ==> IsIdentifier(s[k])
    decreases |s| - i
  {
    if i < |s| && IsIdentifier(s[i]) then WordEnd(s, i + 1) else i
  }

  function NestedEnd(s: string, j: nat, depth: int): (end: Option<nat>)
    ensures end.Some? ==> j < end.value <= |s|
    decreases |s| - j
  {
    if j + 1 >= |s| then None
    else if s[j] == '/' && s[j + 1] == '*' then NestedEnd(s, j + 2, depth + 1)
    else if s[j] == '*' && s[j + 1] == '/' then if depth == 1 then Some(j + 2) else NestedEnd(s, j + 2, depth - 1)
    else NestedEnd(s, j + 1, depth)
  }

  function BlockCommentEnd(engine: L.Engine, s: string, i: nat): (end: Option<nat>)
    requires i + 2 <= |s|
    ensures end.Some? ==> i < end.value <= |s|
  {
    if engine == L.MySQL then
      if "/*!" <= s[i..] then None
      else
        match L.Index(s[i + 2..], "*/")
        case None => None
        case Some(n) => Some(i + 2 + n + 2)
    else NestedEnd(s, i, 0)
  }

  function LiteralEnd(engine: L.Engine, s: string, j: nat, quote: char, escapes: bool): (end: Option<nat>)
    ensures end.Some? ==> j < end.value <= |s|
    decreases |s| - j
  {
    if j >= |s| then None
    else if s[j] == '\\' then
      if escapes then LiteralEnd(engine, s, j + 2, quote, escapes)
      else if engine != L.SQLServer then None
      else LiteralEnd(engine, s, j + 1, quote, escapes)
    else if s[j] == quote then
      if j + 1 < |s| && s[j + 1] == quote then LiteralEnd(engine, s, j + 2, quote, escapes) else Some(j + 1)
    else LiteralEnd(engine, s, j + 1, quote, escapes)
  }

  /** A delimited name's text, its doubled delimiters read as one, and where it ends. */
  function DelimitedEnd(s: string, j: nat, closing: char): (r: Option<(string, nat)>)
    ensures r.Some? ==> j < r.value.1 <= |s|
    decreases |s| - j
  {
    if j >= |s| then None
    else if s[j] != closing then
      match DelimitedEnd(s, j + 1, closing)
      case None => None
      case Some((text, end)) => Some(([s[j]] + text, end))
    else if j + 1 < |s| && s[j + 1] == closing then
      match DelimitedEnd(s, j + 2, closing)
      case None => None
      case Some((text, end)) => Some(([closing] + text, end))
    else Some(("", j + 1))
  }

  function DigitsEnd(s: string, j: nat): (end: nat)
    requires j <= |s|
    ensures j <= end <= |s|
    decreases |s| - j
  {
    if j < |s| && IsDigit(s[j]) then DigitsEnd(s, j + 1) else j
  }

  function TagEnd(s: string, j: nat): (end: nat)
    requires j <= |s|
    ensures j <= end <= |s|
    decreases |s| - j
  {
    if j < |s| && s[j] != '$' && IsIdentifier(s[j]) then TagEnd(s, j + 1) else j
  }

  function DollarEnd(s: string, i: nat): (end: Option<nat>)
    requires i < |s|
    ensures end.Some? ==> i < end.value <= |s|
  {
    if i + 1 < |s| && IsDigit(s[i + 1]) then Some(DigitsEnd(s, i + 1))
    else
      var j := TagEnd(s, i + 1);
      if j >= |s| || s[j] != '$' then Some(i + 1)
      else
        match L.Index(s[j + 1..], s[i..j + 1])
        case None => None
        case Some(n) => Some(j + 1 + n + (j + 1 - i))
  }

  predicate IsLiteralPrefix(t: Text, engine: L.Engine, word: string) {
    var w := t.lower(word);
    w == "n" || ((w == "x" || w == "b") && engine != L.SQLServer) || (w == "e" && engine == L.PostgreSQL)
  }

  /** A literal's prefix is the word directly before it. */
  predicate Prefixed(t: Text, engine: L.Engine, toks: seq<Tok>, i: nat) {
    toks != [] && var last := toks[|toks| - 1];
    last.kind == Word && last.end == i && IsLiteralPrefix(t, engine, last.text)
  }

  /** What the lexer makes of position `i`: a refusal, or the tokens so far and where to go on. */
  datatype Move = Refused | Onward(toks: seq<Tok>, next: nat)

  function Keep(toks: seq<Tok>, kind: Kind, s: string, i: nat, end: Option<nat>): Move
    requires end.Some? ==> i <= end.value <= |s|
  {
    match end
    case None => Refused
    case Some(e) => Onward(toks + [Tok(kind, s[i..e], i, e)], e)
  }

  function CommentMove(toks: seq<Tok>, end: Option<nat>): Move {
    match end
    case None => Refused
    case Some(e) => Onward(toks, e)
  }

  function Closing(c: char): char { if c == '[' then ']' else c }

  predicate Opens(engine: L.Engine, c: char) {
    c == '"' || (c == '`' && engine == L.MySQL) || (c == '[' && engine == L.SQLServer)
  }

  function LexAt(t: Text, engine: L.Engine, s: string, i: nat, toks: seq<Tok>): (m: Move)
    requires i < |s|
    ensures m.Onward? ==> i < m.next <= |s|
  {
    var c := s[i];
    if L.IsSpace(c) then Onward(toks, i + 1)
    else if "--" <= s[i..] || (engine == L.MySQL && c == '#') then
      match L.Index(s[i..], "\n")
      case None => Onward(toks, |s|)
      case Some(n) => Onward(toks, i + n + 1)
    else if "/*" <= s[i..] then CommentMove(toks, BlockCommentEnd(engine, s, i))
    else if c == '\'' then
      var prefixed := Prefixed(t, engine, toks, i);
      var escapes := prefixed && engine == L.PostgreSQL && t.equalFold(toks[|toks| - 1].text, "e");
      Keep(if prefixed then toks[..|toks| - 1] else toks, Literal, s, i, LiteralEnd(engine, s, i + 1, '\'', escapes))
    else if c == '"' && engine != L.PostgreSQL then Keep(toks, Literal, s, i, LiteralEnd(engine, s, i + 1, '"', false))
    else if Opens(engine, c) then
      match DelimitedEnd(s, i + 1, Closing(c))
      case None => Refused
      case Some((text, end)) => Onward(toks + [Tok(Delimited, text, i, end)], end)
    else if c == '$' && engine == L.PostgreSQL then
      match DollarEnd(s, i)
      case None => Refused
      case Some(end) =>
        Keep(toks, if end == i + 1 || IsDigit(s[i + 1]) then Symbol else Literal, s, i, Some(end))
    else if !IsIdentifier(c) then Keep(toks, Symbol, s, i, Some(i + 1))
    else Keep(toks, Word, s, i, Some(WordEnd(s, i)))
  }

  function LexFrom(t: Text, engine: L.Engine, s: string, i: nat, toks: seq<Tok>): Option<seq<Tok>>
    requires i <= |s|
    decreases |s| - i
  {
    if i == |s| then Some(toks)
    else
      match LexAt(t, engine, s, i, toks)
      case Refused => None
      case Onward(more, next) => LexFrom(t, engine, s, next, more)
  }

  function LexStatement(t: Text, engine: L.Engine, s: string): Option<seq<Tok>> {
    LexFrom(t, engine, s, 0, [])
  }

  // ----- references -----

  /** `contiguous` is that nothing stands between the parts but the dots. */
  datatype Reference = Reference(parts: seq<Tok>, contiguous: bool)

  type Ref = r: Reference | r.parts != [] witness Reference([Tok(Word, "a", 0, 1)], true)

  predicate Continues(toks: seq<Tok>, j: nat) {
    j + 1 < |toks| && IsSymbol(toks[j], ".") && IsName(toks[j + 1])
  }

  /** The reference so far, read on from `j`, and where it ends. */
  function ReadOn(toks: seq<Tok>, ref: Ref, j: nat): (r: (Ref, nat))
    requires 0 < j <= |toks|
    ensures j <= r.1 <= |toks|
    decreases |toks| - j
  {
    if Continues(toks, j) then
      var together := toks[j].start == toks[j - 1].end && toks[j + 1].start == toks[j].end;
      ReadOn(toks, Reference(ref.parts + [toks[j + 1]], ref.contiguous && together), j + 2)
    else (ref, j)
  }

  function ReadRef(toks: seq<Tok>, i: nat): (r: (Ref, nat))
    requires i < |toks|
    ensures i < r.1 <= |toks|
  {
    ReadOn(toks, Reference([toks[i]], true), i + 1)
  }

  function StatementRefs(toks: seq<Tok>, i: nat): seq<Ref>
    requires i <= |toks|
    decreases |toks| - i
  {
    if i == |toks| then []
    else if !IsName(toks[i]) then StatementRefs(toks, i + 1)
    else [ReadRef(toks, i).0] + StatementRefs(toks, ReadRef(toks, i).1)
  }

  predicate SameName(t: Text, tok: Tok, name: string) {
    if tok.kind == Delimited then tok.text == name else t.equalFold(tok.text, name)
  }

  predicate SameToken(t: Text, a: Tok, b: Tok) {
    if a.kind == Word && b.kind == Word then t.equalFold(a.text, b.text) else a.text == b.text
  }

  predicate SameTokens(t: Text, a: seq<Tok>, b: seq<Tok>) {
    |a| == |b| && forall k :: 0 <= k < |a| ==> SameToken(t, a[k], b[k])
  }

  predicate SameNames(t: Text, toks: seq<Tok>, names: seq<string>) {
    |toks| == |names| && forall k :: 0 <= k < |toks| ==> SameName(t, toks[k], names[k])
  }

  /** How many parts, from the last, the reference shares with the missing name. */
  function Matches(t: Text, ref: Ref, parts: seq<string>): (r: Option<nat>)
    ensures r.Some? ==> 0 < r.value <= |ref.parts|
  {
    var k := Min(|ref.parts|, |parts|);
    if k == 0 then None
    else if SameNames(t, ref.parts[|ref.parts| - k..], parts[|parts| - k..]) then Some(k)
    else None
  }

  /** The text reported for the last `k` parts, or nothing if one of them is not plain. */
  function Written(t: Text, statement: string, ref: Ref, k: nat): string
    requires 0 < k <= |ref.parts|
  {
    var tail := ref.parts[|ref.parts| - k..];
    if exists p :: 0 <= p < k && !PlainName(t, tail[p].text) then ""
    else if k > 1 && ref.contiguous && (forall p :: 0 <= p < k ==> tail[p].kind == Word)
            && tail[0].start <= tail[k - 1].end <= |statement| then statement[tail[0].start..tail[k - 1].end]
    else tail[k - 1].text
  }

  datatype MissingRef = MissingRef(written: string, bare: string, qualifier: seq<Tok>, scoped: bool)

  function LastOf(ref: Ref): Tok
  {
    ref.parts[|ref.parts| - 1]
  }

  function QualifierOf(ref: Ref): seq<Tok>
  {
    ref.parts[..|ref.parts| - 1]
  }

  /** The reference the engine pointed at. */
  function AtOffset(t: Text, parts: seq<string>, refs: seq<Ref>, statement: string, offset: int): Option<MissingRef>
  {
    if refs == [] then None
    else
      var ref := refs[0];
      if ref.parts[0].start <= offset < LastOf(ref).end then
        match Matches(t, ref, parts)
        case None => None
        case Some(k) =>
          var written := Written(t, statement, ref, k);
          if written == "" then None else Some(MissingRef(written, LastOf(ref).text, QualifierOf(ref), true))
      else AtOffset(t, parts, refs[1..], statement, offset)
  }

  /** Every reference to the name with its text, unless one of them cannot be reported. */
  function Matched(t: Text, parts: seq<string>, refs: seq<Ref>, statement: string): Option<seq<(Ref, string)>>
  {
    if refs == [] then Some([])
    else
      match Matches(t, refs[0], parts)
      case None => Matched(t, parts, refs[1..], statement)
      case Some(k) =>
        var w := Written(t, statement, refs[0], k);
        if w == "" then None
        else
          match Matched(t, parts, refs[1..], statement)
          case None => None
          case Some(rest) => Some([(refs[0], w)] + rest)
  }

  /** The one thing all these references say, if they say one. */
  function Agreed(t: Text, matched: seq<(Ref, string)>): Option<MissingRef>
  {
    if matched == [] then None
    else
      var first := matched[0].0;
      var bare := LastOf(first).text;
      if exists k :: 0 < k < |matched| && LastOf(matched[k].0).text != bare then None
      else
        var scoped := forall k :: 0 < k < |matched| ==> SameTokens(t, QualifierOf(matched[k].0), QualifierOf(first));
        var alike := forall k :: 0 <= k < |matched| ==> matched[k].1 == matched[0].1;
        Some(MissingRef(if alike then matched[0].1 else bare, bare, QualifierOf(first), scoped))
  }

  /** `offset` is where the engine pointed, if it did. */
  function InStatement(t: Text, parts: seq<string>, offset: Option<int>, toks: seq<Tok>, statement: string)
    : Option<MissingRef>
  {
    if parts == [] then None
    else
      var refs := StatementRefs(toks, 0);
      match offset
      case Some(at) => AtOffset(t, parts, refs, statement, at)
      case None =>
        match Matched(t, parts, refs, statement)
        case None => None
        case Some(matched) => Agreed(t, matched)
  }
}
