/**
  How the reader of statements tells names from the rest, engine by engine: what is a literal, what a
  comment, what a name however it is delimited, and what makes a statement unreadable.
 */
module MissingDialects {
  import opened Wrappers
  import opened MissingNames
  import L = GateLexer
  import D = GateDialects
  import M = MissingReported

  type Tokens = seq<Tok>

  /** The reader is at `piece` in a statement, and goes on after it with these tokens. */
  predicate Takes(
    t: Text, e: L.Engine, before: string, piece: string, rest: string, toks: Tokens, later: Tokens)
    requires piece != ""
  {
    LexAt(t, e, before + piece + rest, |before|, toks) == Onward(later, |before| + |piece|)
  }

  predicate Refuses(t: Text, e: L.Engine, before: string, piece: string, toks: Tokens)
    requires piece != ""
  {
    LexAt(t, e, before + piece, |before|, toks) == Refused
  }

  function Token(kind: Kind, before: string, piece: string, text: string): Tok {
    Tok(kind, text, |before|, |before| + |piece|)
  }

  lemma OnwardTakes(
    t: Text, e: L.Engine, before: string, piece: string, rest: string, toks: Tokens, later: Tokens)
    requires piece != "" && |before| < |before + piece + rest|
    requires LexAt(t, e, before + piece + rest, |before|, toks) == Onward(later, |before| + |piece|)
    ensures Takes(t, e, before, piece, rest, toks, later)
  {
  }

  lemma At(before: string, piece: string, rest: string)
    ensures var s := before + piece + rest;
      && |before| + |piece| <= |s| && s[|before|..] == piece + rest
      && s[|before|..|before| + |piece|] == piece && s[|before| + |piece|..] == rest
      && (forall k :: 0 <= k < |piece| ==> s[|before| + k] == piece[k])
  {
  }

  // ----- blanks and marks -----

  /** Blanks are passed over. */
  lemma Blank(t: Text, e: L.Engine, before: string, c: char, rest: string, toks: Tokens)
    requires c == ' ' || c == '\t' || c == '\n' || c == '\r' || c == '\U{0B}' || c == '\U{0C}'
    ensures Takes(t, e, before, [c], rest, toks, toks)
  {
    At(before, [c], rest);
    assert [c][0] == c;
  }

  /** A letter, a figure, an underscore, a dollar sign, or any byte past ASCII. */
  predicate NameByte(c: char) {
    'a' <= c <= 'z' || 'A' <= c <= 'Z' || '0' <= c <= '9' || c == '_' || c == '$' || c >= '\U{80}'
  }

  lemma NameByteIs(c: char)
    ensures NameByte(c) <==> IsIdentifier(c)
    ensures NameByte(c) ==> !L.IsSpace(c) && c != '-' && c != '#' && c != '/' && c != '\'' && c != '"' && c != '`' && c != '['
  {
  }

  lemma {:induction false} WordRuns(before: string, w: string, rest: string)
    requires (forall k :: 0 <= k < |w| ==> NameByte(w[k])) && (rest == "" || !NameByte(rest[0]))
    ensures WordEnd(before + w + rest, |before|) == |before| + |w|
    decreases |w|
  {
    var s := before + w + rest;
    At(before, w, rest);
    if w == "" {
      if rest != "" {
        NameByteIs(rest[0]);
        assert s[|before|] == rest[0];
      }
    } else {
      NameByteIs(w[0]);
      assert s == (before + [w[0]]) + w[1..] + rest;
      WordRuns(before + [w[0]], w[1..], rest);
      assert s[|before|] == w[0];
    }
  }

  lemma WordLeads(t: Text, e: L.Engine, s: string, i: nat, toks: Tokens)
    requires i < |s| && NameByte(s[i]) && (e == L.PostgreSQL ==> s[i] != '$')
    ensures LexAt(t, e, s, i, toks) == Keep(toks, Word, s, i, Some(WordEnd(s, i)))
  {
    NameByteIs(s[i]);
    assert !("--" <= s[i..]) && !("/*" <= s[i..]) by { Starts(s, i); }
    hide IsIdentifier, L.IsSpace, WordEnd, Prefixed;
  }

  lemma Starts(s: string, i: nat)
    requires i < |s|
    ensures forall c, d :: [c, d] <= s[i..] ==> s[i] == c
    ensures "--" <= s[i..] ==> s[i] == '-'
    ensures "/*" <= s[i..] ==> s[i] == '/'
  {
    assert forall u: string :: u <= s[i..] && |u| > 0 ==> u[0] == s[i];
  }

  /** A bare name is as many such bytes as there are; PostgreSQL's begins with no dollar sign. */
  lemma BareName(t: Text, e: L.Engine, before: string, w: string, rest: string, toks: Tokens)
    requires w != "" && (forall k :: 0 <= k < |w| ==> NameByte(w[k])) && (rest == "" || !NameByte(rest[0]))
    requires e == L.PostgreSQL ==> w[0] != '$'
    ensures Takes(t, e, before, w, rest, toks, toks + [Token(Word, before, w, w)])
  {
    At(before, w, rest);
    WordRuns(before, w, rest);
    WordLeads(t, e, before + w + rest, |before|, toks);
    hide WordEnd, LexAt;
  }

  // ----- literals -----

  /** A word directly before a quote that belongs to the literal. */
  predicate Introduced(t: Text, e: L.Engine, toks: Tokens, i: nat) {
    toks != [] &&
    var last := toks[|toks| - 1];
    && last.kind.Word? && last.end == i
    && (|| t.lower(last.text) == "n"
        || (e != L.SQLServer && (t.lower(last.text) == "x" || t.lower(last.text) == "b"))
        || (e == L.PostgreSQL && t.lower(last.text) == "e"))
  }

  /** A PostgreSQL literal in which a backslash escapes. */
  predicate Escaping(t: Text, e: L.Engine, toks: Tokens, i: nat) {
    Introduced(t, e, toks, i) && e == L.PostgreSQL && t.equalFold(toks[|toks| - 1].text, "e")
  }

  function Unintroduced(t: Text, e: L.Engine, toks: Tokens, i: nat): Tokens {
    if Introduced(t, e, toks, i) then toks[..|toks| - 1] else toks
  }

  /** What can be read of a literal: a backslash escapes, or stands for itself on SQL Server, or is not there. */
  predicate Readable(e: L.Engine, parts: seq<D.Part>, quote: char, escapes: bool) {
    if escapes then D.Backslashed(parts, quote)
    else D.Standard(parts, quote) && (e == L.SQLServer || D.Backslashed(parts, quote))
  }

  function Unit(p: D.Part, quote: char): string {
    match p
    case Plain(c) => [c]
    case Twice => [quote, quote]
    case Escaped(c) => ['\\', c]
  }

  lemma WrittenUnit(parts: seq<D.Part>, quote: char)
    requires parts != []
    ensures D.Written(parts, quote) == Unit(parts[0], quote) + D.Written(parts[1..], quote)
    ensures parts[0] in parts && forall p :: p in parts[1..] ==> p in parts
  {
  }

  /** One part is read over. */
  lemma UnitRead(e: L.Engine, s: string, j: nat, p: D.Part, quote: char, escapes: bool)
    requires quote != '\\' && j + |Unit(p, quote)| <= |s| && s[j..j + |Unit(p, quote)|] == Unit(p, quote)
    requires if escapes then p.Plain? ==> p.c != quote && p.c != '\\'
             else !p.Escaped? && (p.Plain? ==> p.c != quote && (e == L.SQLServer || p.c != '\\'))
    ensures LiteralEnd(e, s, j, quote, escapes) == LiteralEnd(e, s, j + |Unit(p, quote)|, quote, escapes)
  {
    var u := Unit(p, quote);
    var v := s[j..j + |u|];
    assert s[j] == v[0];
    if |u| == 2 {
      assert s[j + 1] == v[1];
    }
  }

  lemma Shifted(before: string, u: string, w: string, rest: string)
    ensures var s := before + (u + w) + rest;
      && s == (before + u) + w + rest && |before| + |u| <= |s| && s[|before|..|before| + |u|] == u
  {
  }

  lemma {:induction false} LiteralReads(
    e: L.Engine, before: string, parts: seq<D.Part>, quote: char, escapes: bool, rest: string)
    requires quote != '\\' && Readable(e, parts, quote, escapes)
    ensures LiteralEnd(e, before + D.Written(parts, quote) + rest, |before|, quote, escapes) ==
            LiteralEnd(e, before + D.Written(parts, quote) + rest, |before| + |D.Written(parts, quote)|, quote, escapes)
    decreases |parts|
  {
    hide *;
    if parts == [] {
      WrittenNone(quote);
    } else {
      var u := Unit(parts[0], quote);
      WrittenUnit(parts, quote);
      ReadableUnit(e, parts, quote, escapes);
      LiteralReads(e, before + u, parts[1..], quote, escapes, rest);
      Shifted(before, u, D.Written(parts[1..], quote), rest);
      UnitRead(e, before + D.Written(parts, quote) + rest, |before|, parts[0], quote, escapes);
    }
  }

  lemma WrittenNone(quote: char)
    ensures D.Written([], quote) == ""
  {
  }

  lemma ReadableUnit(e: L.Engine, parts: seq<D.Part>, quote: char, escapes: bool)
    requires Readable(e, parts, quote, escapes) && parts != []
    ensures Readable(e, parts[1..], quote, escapes)
    ensures var p := parts[0];
      if escapes then p.Plain? ==> p.c != quote && p.c != '\\'
      else !p.Escaped? && (p.Plain? ==> p.c != quote && (e == L.SQLServer || p.c != '\\'))
  {
    assert parts[0] in parts;
  }

  lemma LiteralCloses(e: L.Engine, before: string, parts: seq<D.Part>, quote: char, escapes: bool, rest: string)
    requires quote != '\\' && Readable(e, parts, quote, escapes) && D.NotBefore(quote, rest)
    ensures LiteralEnd(e, before + (D.Written(parts, quote) + [quote]) + rest, |before|, quote, escapes) ==
            Some(|before| + |D.Written(parts, quote)| + 1)
  {
    var w := D.Written(parts, quote);
    var s := before + w + ([quote] + rest);
    assert s == before + (w + [quote]) + rest;
    LiteralReads(e, before, parts, quote, escapes, [quote] + rest);
    assert s[|before| + |w|] == quote;
    if rest != "" {
      assert s[|before| + |w| + 1] == rest[0];
    }
    hide D.Written;
  }

  lemma QuoteLeads(t: Text, e: L.Engine, s: string, i: nat, toks: Tokens)
    requires i < |s| && s[i] == '\''
    ensures LexAt(t, e, s, i, toks) ==
              Keep(Unintroduced(t, e, toks, i), Literal, s, i, LiteralEnd(e, s, i + 1, '\'', Escaping(t, e, toks, i)))
  {
    Starts(s, i);
    hide LiteralEnd, Keep;
  }

  lemma DoubleLeads(t: Text, e: L.Engine, s: string, i: nat, toks: Tokens)
    requires i < |s| && s[i] == '"' && e != L.PostgreSQL
    ensures LexAt(t, e, s, i, toks) == Keep(toks, Literal, s, i, LiteralEnd(e, s, i + 1, '"', false))
  {
    Starts(s, i);
    hide LiteralEnd, Keep, Prefixed;
  }

  /** A quoted text with its quotes. */
  function Quote(parts: seq<D.Part>, quote: char): string {
    [quote] + (D.Written(parts, quote) + [quote])
  }

  lemma QuotePlace(before: string, parts: seq<D.Part>, quote: char, rest: string)
    ensures var s := before + Quote(parts, quote) + rest;
      && s == (before + [quote]) + (D.Written(parts, quote) + [quote]) + rest
      && |Quote(parts, quote)| == |D.Written(parts, quote)| + 2 && |before| < |s| && s[|before|] == quote
      && s[|before|..|before| + |Quote(parts, quote)|] == Quote(parts, quote)
  {
    At(before, Quote(parts, quote), rest);
    hide D.Written;
  }

  /** A text between single quotes, its quotes doubled, is one literal; a word that introduces it is part of it. */
  lemma StringLiteral(t: Text, e: L.Engine, before: string, parts: seq<D.Part>, rest: string, toks: Tokens)
    requires Readable(e, parts, '\'', Escaping(t, e, toks, |before|)) && D.NotBefore('\'', rest)
    ensures var piece := Quote(parts, '\'');
      Takes(t, e, before, piece, rest, toks, Unintroduced(t, e, toks, |before|) + [Token(Literal, before, piece, piece)])
  {
    var s := before + Quote(parts, '\'') + rest;
    QuotePlace(before, parts, '\'', rest);
    QuoteLeads(t, e, s, |before|, toks);
    LiteralCloses(e, before + ['\''], parts, '\'', Escaping(t, e, toks, |before|), rest);
    hide D.Written, D.Standard, D.Backslashed, LiteralEnd, LexAt, Unintroduced, Escaping, Quote, Readable;
  }

  /** Between double quotes too, except on PostgreSQL. */
  lemma DoubleLiteral(t: Text, e: L.Engine, before: string, parts: seq<D.Part>, rest: string, toks: Tokens)
    requires e != L.PostgreSQL && Readable(e, parts, '"', false) && D.NotBefore('"', rest)
    ensures var piece := Quote(parts, '"');
      Takes(t, e, before, piece, rest, toks, toks + [Token(Literal, before, piece, piece)])
  {
    var s := before + Quote(parts, '"') + rest;
    QuotePlace(before, parts, '"', rest);
    DoubleLeads(t, e, s, |before|, toks);
    LiteralCloses(e, before + ['"'], parts, '"', false, rest);
    hide D.Written, D.Standard, D.Backslashed, LiteralEnd, LexAt, Quote, Readable;
  }

  /** Where it cannot be told what a backslash means, the statement is not read. */
  lemma BackslashRefuses(t: Text, e: L.Engine, before: string, parts: seq<D.Part>, rest: string, toks: Tokens)
    requires e != L.SQLServer && !Escaping(t, e, toks, |before|)
    requires Readable(e, parts, '\'', false)
    ensures Refuses(t, e, before, "'" + D.Written(parts, '\'') + "\\" + rest, toks)
  {
    hide *;
    var w := D.Written(parts, '\'');
    var piece := "'" + w + "\\" + rest;
    BackslashPlace(before, w, rest);
    Unescaped(e, parts, Escaping(t, e, toks, |before|));
    LiteralReads(e, before + "'", parts, '\'', false, "\\" + rest);
    BackslashEnds(e, before + piece, |before| + 1 + |w|);
    QuoteLeads(t, e, before + piece, |before|, toks);
    NothingKept(Unintroduced(t, e, toks, |before|), before + piece, |before|);
    RefusesSo(t, e, before, piece, toks);
  }

  lemma BackslashPlace(before: string, w: string, rest: string)
    ensures var piece := "'" + w + "\\" + rest;
      var s := before + piece;
      && piece != "" && s == (before + "'") + w + ("\\" + rest) && |before + "'"| == |before| + 1
      && |before| + 1 + |w| < |s| && s[|before|] == '\'' && s[|before| + 1 + |w|] == '\\'
  {
  }

  lemma Unescaped(e: L.Engine, parts: seq<D.Part>, escapes: bool)
    requires !escapes && Readable(e, parts, '\'', false)
    ensures Readable(e, parts, '\'', escapes)
  {
  }

  lemma BackslashEnds(e: L.Engine, s: string, j: nat)
    requires e != L.SQLServer && j < |s| && s[j] == '\\'
    ensures LiteralEnd(e, s, j, '\'', false) == None
  {
  }

  lemma NothingKept(toks: Tokens, s: string, i: nat)
    ensures Keep(toks, Literal, s, i, None) == Refused
  {
  }

  lemma RefusesSo(t: Text, e: L.Engine, before: string, piece: string, toks: Tokens)
    requires piece != "" && |before| < |before + piece| && LexAt(t, e, before + piece, |before|, toks) == Refused
    ensures Refuses(t, e, before, piece, toks)
  {
  }

  /** Nor is one with a literal that does not end. */
  lemma UnendedLiteral(t: Text, e: L.Engine, before: string, parts: seq<D.Part>, toks: Tokens)
    requires Readable(e, parts, '\'', Escaping(t, e, toks, |before|))
    ensures Refuses(t, e, before, "'" + D.Written(parts, '\''), toks)
  {
    hide *;
    var w := D.Written(parts, '\'');
    UnendedPlace(before, w);
    LiteralReads(e, before + "'", parts, '\'', Escaping(t, e, toks, |before|), "");
    OverTheEnd(e, before + ("'" + w), Escaping(t, e, toks, |before|));
    QuoteLeads(t, e, before + ("'" + w), |before|, toks);
    NothingKept(Unintroduced(t, e, toks, |before|), before + ("'" + w), |before|);
    RefusesSo(t, e, before, "'" + w, toks);
  }

  lemma UnendedPlace(before: string, w: string)
    ensures var s := before + ("'" + w);
      && "'" + w != "" && s == (before + "'") + w + "" && |before + "'"| == |before| + 1
      && |s| == |before| + 1 + |w| && s[|before|] == '\''
  {
  }

  lemma OverTheEnd(e: L.Engine, s: string, escapes: bool)
    ensures LiteralEnd(e, s, |s|, '\'', escapes) == None
  {
  }

  // ----- delimited names -----

  /** How each engine delimits a name. */
  predicate Delimits(e: L.Engine, opening: char, closing: char) {
    || (e == L.PostgreSQL && opening == '"' && closing == '"')
    || (e == L.MySQL && opening == '`' && closing == '`')
    || (e == L.SQLServer && opening == '[' && closing == ']')
  }

  lemma DelimiterLeads(t: Text, e: L.Engine, s: string, i: nat, toks: Tokens, opening: char, closing: char)
    requires i < |s| && s[i] == opening && Delimits(e, opening, closing)
    ensures LexAt(t, e, s, i, toks) ==
              match DelimitedEnd(s, i + 1, closing)
              case None => Refused
              case Some((text, end)) => Onward(toks + [Tok(Delimited, text, i, end)], end)
  {
    Starts(s, i);
    hide DelimitedEnd, Prefixed, LiteralEnd;
  }

  lemma NothingMore(c: char, rest: string)
    requires D.NotBefore(c, rest)
    ensures rest == "" || rest[0] != c
  {
  }

  lemma TokenIs(kind: Kind, before: string, piece: string, text: string)
    ensures Token(kind, before, piece, text) == Tok(kind, text, |before|, |before| + |piece|)
  {
  }

  lemma DelimitedPlace(before: string, opening: char, d: string, closing: char, rest: string)
    ensures var s := before + ([opening] + d + [closing]) + rest;
      && s == (before + [opening]) + d + [closing] + rest && |before| < |s| && s[|before|] == opening
      && |[opening] + d + [closing]| == |d| + 2
  {
  }

  /** Any name so delimited, its closing delimiters doubled, is that name. */
  lemma DelimitedName(
    t: Text, e: L.Engine, before: string, opening: char, name: string, closing: char, rest: string, toks: Tokens)
    requires Delimits(e, opening, closing) && D.NotBefore(closing, rest)
    ensures var piece := [opening] + M.Doubled(name, closing) + [closing];
      Takes(t, e, before, piece, rest, toks, toks + [Token(Delimited, before, piece, name)])
  {
    hide *;
    var d := M.Doubled(name, closing);
    var piece := [opening] + d + [closing];
    NothingMore(closing, rest);
    M.DelimitedRoundTrip(before + [opening], name, closing, rest);
    DelimitedPlace(before, opening, d, closing, rest);
    DelimiterLeads(t, e, before + piece + rest, |before|, toks, opening, closing);
    TokenIs(Delimited, before, piece, name);
    OnwardTakes(t, e, before, piece, rest, toks, toks + [Token(Delimited, before, piece, name)]);
  }

  lemma {:induction false} NeverDelimited(before: string, name: string, closing: char)
    ensures DelimitedEnd(before + M.Doubled(name, closing), |before|, closing) == None
    decreases |name|
  {
    var s := before + M.Doubled(name, closing);
    if name != "" {
      var first := if name[0] == closing then [closing, closing] else [name[0]];
      assert s == (before + first) + M.Doubled(name[1..], closing);
      NeverDelimited(before + first, name[1..], closing);
      assert s[|before|] == first[0];
      assert |first| == 2 ==> s[|before| + 1] == closing;
    }
  }

  lemma UnendedName(t: Text, e: L.Engine, before: string, opening: char, name: string, closing: char, toks: Tokens)
    requires Delimits(e, opening, closing)
    ensures Refuses(t, e, before, [opening] + M.Doubled(name, closing), toks)
  {
    var d := M.Doubled(name, closing);
    var s := before + ([opening] + d);
    assert s == (before + [opening]) + d;
    NeverDelimited(before + [opening], name, closing);
    assert s[|before|] == opening;
    DelimiterLeads(t, e, s, |before|, toks, opening, closing);
    hide M.Doubled, DelimitedEnd, LexAt;
  }

  // ----- comments -----

  lemma {:induction false} FirstLine(text: string, rest: string)
    requires '\n' !in text && (rest == "" || rest[0] == '\n')
    ensures L.Index(text + rest, "\n") == if rest == "" then None else Some(|text|)
    decreases |text|
  {
    var s := text + rest;
    if text == "" {
      assert s == rest;
      if rest != "" {
        assert rest[..1] == "\n" && "\n" <= rest;
      }
    } else {
      FirstLine(text[1..], rest);
      assert s[1..] == text[1..] + rest && s[0] == text[0] && text[0] in text;
      assert !("\n" <= s);
    }
  }

  lemma LineLeads(t: Text, e: L.Engine, s: string, i: nat, toks: Tokens)
    requires i < |s| && ((i + 1 < |s| && s[i] == '-' && s[i + 1] == '-') || (e == L.MySQL && s[i] == '#'))
    ensures LexAt(t, e, s, i, toks) ==
              match L.Index(s[i..], "\n")
              case None => Onward(toks, |s|)
              case Some(n) => Onward(toks, i + n + 1)
  {
    if i + 1 < |s| && s[i] == '-' && s[i + 1] == '-' {
      assert s[i..][..2] == "--";
    }
    hide L.Index, Keep, Prefixed;
  }

  /** Two dashes, or on MySQL a `#`, begin a comment that ends with the line. */
  lemma LineComment(t: Text, e: L.Engine, before: string, mark: string, text: string, rest: string, toks: Tokens)
    requires (mark == "--" || (mark == "#" && e == L.MySQL)) && '\n' !in text
    ensures Takes(t, e, before, mark + text + "\n", rest, toks, toks)
    ensures Takes(t, e, before, mark + text, "", toks, toks)
  {
    hide *;
    var piece := mark + text;
    LinePlace(before, mark, text, rest);
    FirstLine(piece, "\n" + rest);
    FirstLine(piece, "");
    LineLeads(t, e, before + (piece + "\n") + rest, |before|, toks);
    LineLeads(t, e, before + piece + "", |before|, toks);
    OnwardTakes(t, e, before, piece + "\n", rest, toks, toks);
    OnwardTakes(t, e, before, piece, "", toks, toks);
  }

  lemma LinePlace(before: string, mark: string, text: string, rest: string)
    requires (mark == "--" || mark == "#") && '\n' !in text
    ensures var piece := mark + text;
      var s, z := before + (piece + "\n") + rest, before + piece + "";
      && '\n' !in piece && piece != "" && |piece + "\n"| == |piece| + 1 && ("\n" + rest)[0] == '\n'
      && |before| < |s| && |before| < |z| && |z| == |before| + |piece|
      && s[|before|..] == piece + ("\n" + rest) && z[|before|..] == piece + ""
      && s[|before|] == mark[0] && z[|before|] == mark[0]
      && (mark == "--" ==> |before| + 1 < |s| && |before| + 1 < |z| && s[|before| + 1] == '-' && z[|before| + 1] == '-')
  {
    var piece := mark + text;
    At(before, piece + "\n", rest);
    At(before, piece, "");
    assert (piece + "\n") + rest == piece + ("\n" + rest);
    assert piece[0] == mark[0] && (piece + "\n")[0] == mark[0];
    assert mark == "--" ==> piece[1] == '-' && (piece + "\n")[1] == '-';
  }

  lemma CommentLeads(t: Text, e: L.Engine, s: string, i: nat, toks: Tokens)
    requires i + 2 <= |s| && s[i] == '/' && s[i + 1] == '*'
    ensures LexAt(t, e, s, i, toks) == CommentMove(toks, BlockCommentEnd(e, s, i))
  {
    assert s[i..][..2] == "/*";
    Starts(s, i);
    hide BlockCommentEnd, Keep, Prefixed, CommentMove;
  }

  /** MySQL's comments end at the first star and slash. */
  lemma FlatComment(t: Text, before: string, text: string, rest: string, toks: Tokens)
    requires D.Quiet(L.MySQL, text) && (text == "" || text[0] != '!')
    ensures Takes(t, L.MySQL, before, "/*" + text + "*/", rest, toks, toks)
  {
    var piece := "/*" + text + "*/";
    var s := before + piece + rest;
    At(before, piece, rest);
    assert s[|before|] == piece[0] && s[|before| + 1] == piece[1] && s[|before| + 2] == piece[2];
    assert piece[2] == if text == "" then '*' else text[0];
    assert s[|before| + 2..] == text + ("*/" + rest) by { Dropped2(before, text, rest); }
    FirstEnd(text, rest);
    CommentLeads(t, L.MySQL, s, |before|, toks);
    NotCode(s, |before|);
    hide D.Quiet, L.Index, LexAt;
  }

  lemma Dropped2(before: string, text: string, rest: string)
    ensures (before + ("/*" + text + "*/") + rest)[|before| + 2..] == text + ("*/" + rest)
  {
  }

  lemma NotCode(s: string, i: nat)
    requires i + 3 <= |s| && s[i + 2] != '!'
    ensures !("/*!" <= s[i..])
  {
    assert s[i..][2] == s[i + 2];
  }

  lemma EndLeads(s: string)
    ensures "*/" <= s ==> |s| >= 2 && s[0] == '*' && L.Peek(s, 1) == '/'
  {
  }

  lemma {:induction false} FirstEnd(text: string, rest: string)
    requires D.Quiet(L.MySQL, text)
    ensures L.Index(text + ("*/" + rest), "*/") == Some(|text|)
    decreases |text|
  {
    var s := text + ("*/" + rest);
    if text == "" {
      assert s[..2] == "*/";
    } else {
      D.QuietLater(L.MySQL, text);
      FirstEnd(text[1..], rest);
      assert s[1..] == text[1..] + ("*/" + rest);
      D.QuietFirst(L.MySQL, text, rest);
      EndLeads(s);
    }
  }

  /** And one with a `!` is code, which makes the statement unreadable. */
  lemma CodeRefuses(t: Text, before: string, rest: string, toks: Tokens)
    ensures Refuses(t, L.MySQL, before, "/*!" + rest, toks)
  {
    var s := before + ("/*!" + rest);
    assert s[|before|..] == "/*!" + rest;
    assert s[|before|] == '/' && s[|before| + 1] == '*' && "/*!" <= s[|before|..];
    CommentLeads(t, L.MySQL, s, |before|, toks);
    hide LexAt;
  }

  lemma NestOne(s: string, j: nat, depth: int)
    requires j + 1 < |s| && s[j] != '/' && s[j] != '*'
    ensures NestedEnd(s, j, depth) == NestedEnd(s, j + 1, depth)
  {
  }

  lemma NestOpens(s: string, j: nat, depth: int)
    requires j + 1 < |s| && s[j] == '/' && s[j + 1] == '*'
    ensures NestedEnd(s, j, depth) == NestedEnd(s, j + 2, depth + 1)
  {
  }

  lemma NestCloses(s: string, j: nat, depth: int)
    requires j + 1 < |s| && s[j] == '*' && s[j + 1] == '/'
    ensures NestedEnd(s, j, depth) == if depth == 1 then Some(j + 2) else NestedEnd(s, j + 2, depth - 1)
  {
  }

  /** What is nested is read over, as long as a comment's end is still to come. */
  lemma {:induction false} NestReads(before: string, n: D.Nest, rest: string, depth: int)
    requires D.Calm(n) && depth > 0 && |rest| >= 2
    ensures NestedEnd(before + D.Spell(n) + rest, |before|, depth) ==
            NestedEnd(before + D.Spell(n) + rest, |before| + |D.Spell(n)|, depth)
    decreases n
  {
    hide NestedEnd;
    match n
    case Ends =>
    case Says(c, next) =>
      SaysPlace(before, c, D.Spell(next), rest);
      NestReads(before + [c], next, rest, depth);
      NestOne(before + D.Spell(n) + rest, |before|, depth);
    case Holds(inner, next) =>
      var a, b := D.Spell(inner), D.Spell(next);
      var s := before + D.Spell(n) + rest;
      HoldsPlace(before, a, b, rest);
      NestOpens(s, |before|, depth);
      NestReads(before + "/*", inner, "*/" + b + rest, depth + 1);
      NestCloses(s, |before| + 2 + |a|, depth + 1);
      NestReads(before + "/*" + a + "*/", next, rest, depth);
  }

  lemma SaysPlace(before: string, c: char, w: string, rest: string)
    ensures var s := before + ([c] + w) + rest;
      && s == (before + [c]) + w + rest && s[|before|] == c
  {
  }

  lemma HoldsPlace(before: string, a: string, b: string, rest: string)
    ensures var s := before + ("/*" + a + "*/" + b) + rest;
      && s == (before + "/*") + a + ("*/" + b + rest)
      && s == (before + "/*" + a + "*/") + b + rest
      && |before| + 4 + |a| <= |s|
      && s[|before|] == '/' && s[|before| + 1] == '*' && s[|before| + 2 + |a|] == '*' && s[|before| + 3 + |a|] == '/'
  {
  }

  /** On PostgreSQL and SQL Server comments nest, to any depth. */
  lemma NestedComment(t: Text, e: L.Engine, before: string, n: D.Nest, rest: string, toks: Tokens)
    requires e != L.MySQL && D.Calm(n)
    ensures Takes(t, e, before, "/*" + D.Spell(n) + "*/", rest, toks, toks)
  {
    hide *;
    var a := D.Spell(n);
    var piece := "/*" + a + "*/";
    var s := before + piece + rest;
    NestPlace(before, a, rest);
    CommentLeads(t, e, s, |before|, toks);
    NestBegins(e, s, |before|);
    NestOpens(s, |before|, 0);
    NestReads(before + "/*", n, "*/" + rest, 1);
    NestCloses(s, |before| + 2 + |a|, 1);
    MovesOn(toks, |before| + |piece|);
    OnwardTakes(t, e, before, piece, rest, toks, toks);
  }

  lemma NestPlace(before: string, a: string, rest: string)
    ensures var s := before + ("/*" + a + "*/") + rest;
      && s == (before + "/*") + a + ("*/" + rest) && |before| + 4 + |a| <= |s|
      && |before + "/*"| == |before| + 2 && |"/*" + a + "*/"| == |a| + 4 && |"*/" + rest| >= 2
      && s[|before|] == '/' && s[|before| + 1] == '*' && s[|before| + 2 + |a|] == '*' && s[|before| + 3 + |a|] == '/'
  {
  }

  lemma NestBegins(e: L.Engine, s: string, i: nat)
    requires e != L.MySQL && i + 2 <= |s|
    ensures BlockCommentEnd(e, s, i) == NestedEnd(s, i, 0)
  {
  }

  lemma MovesOn(toks: Tokens, end: nat)
    ensures CommentMove(toks, Some(end)) == Onward(toks, end)
  {
  }

  lemma {:induction false} NestNeverEnds(s: string, j: nat, depth: int)
    requires depth >= 0 && forall k: int :: k >= j ==> !D.EndsAt(s, k)
    ensures NestedEnd(s, j, depth) == None
    decreases |s| - j
  {
    if j + 1 < |s| {
      assert !D.EndsAt(s, j);
      NestNeverEnds(s, j + 1, depth);
      if s[j] == '/' && s[j + 1] == '*' {
        NestNeverEnds(s, j + 2, depth + 1);
      }
    }
  }

  lemma {:induction false} NoIndex(s: string)
    requires forall k: int :: !D.EndsAt(s, k)
    ensures L.Index(s, "*/") == None
    decreases |s|
  {
    if s != "" {
      forall k: int
        ensures !D.EndsAt(s[1..], k)
      {
        assert !D.EndsAt(s, k + 1);
      }
      assert !D.EndsAt(s, 0);
      NoIndex(s[1..]);
    }
  }

  /** A comment that never ends makes the statement unreadable. */
  lemma UnendedComment(t: Text, e: L.Engine, before: string, text: string, toks: Tokens)
    requires forall k: int :: !D.EndsAt(text, k)
    ensures Refuses(t, e, before, "/*" + text, toks)
  {
    var s := before + ("/*" + text);
    var i := |before|;
    assert s[i] == '/' && s[i + 1] == '*' && s[i + 2..] == text;
    CommentLeads(t, e, s, i, toks);
    if e == L.MySQL {
      NoIndex(text);
    } else {
      forall k: int | k >= i + 2
        ensures !D.EndsAt(s, k)
      {
        assert !D.EndsAt(text, k - i - 2);
      }
      NestNeverEnds(s, i + 2, 1);
      NestOpens(s, i, 0);
    }
    hide LexAt, NestedEnd, L.Index;
  }

  // ----- dollars and other marks -----

  lemma DollarLeads(t: Text, s: string, i: nat, toks: Tokens)
    requires i < |s| && s[i] == '$'
    ensures LexAt(t, L.PostgreSQL, s, i, toks) ==
              match DollarEnd(s, i)
              case None => Refused
              case Some(end) =>
                Keep(toks, if end == i + 1 || (i + 1 < |s| && '0' <= s[i + 1] <= '9') then Symbol else Literal, s, i, Some(end))
  {
    Starts(s, i);
    hide DollarEnd, Prefixed;
  }

  lemma {:induction false} FiguresRun(before: string, digits: string, rest: string)
    requires (forall k :: 0 <= k < |digits| ==> '0' <= digits[k] <= '9') && (rest == "" || !('0' <= rest[0] <= '9'))
    ensures DigitsEnd(before + digits + rest, |before|) == |before| + |digits|
    decreases |digits|
  {
    var s := before + digits + rest;
    At(before, digits, rest);
    if digits == "" {
      if rest != "" {
        assert s[|before|] == rest[0];
      }
    } else {
      assert s == (before + [digits[0]]) + digits[1..] + rest;
      FiguresRun(before + [digits[0]], digits[1..], rest);
    }
  }

  /** PostgreSQL: a dollar sign and figures are a parameter, which is no name. */
  lemma Parameter(t: Text, before: string, digits: string, rest: string, toks: Tokens)
    requires digits != "" && (forall k :: 0 <= k < |digits| ==> '0' <= digits[k] <= '9')
    requires rest == "" || !('0' <= rest[0] <= '9')
    ensures Takes(t, L.PostgreSQL, before, "$" + digits, rest, toks,
                  toks + [Token(Symbol, before, "$" + digits, "$" + digits)])
  {
    var piece := "$" + digits;
    var s := before + piece + rest;
    At(before, piece, rest);
    assert s == (before + "$") + digits + rest;
    FiguresRun(before + "$", digits, rest);
    assert s[|before|] == piece[0] && s[|before| + 1] == piece[1] && piece[1] == digits[0];
    hide LexAt, DigitsEnd;
    DollarLeads(t, s, |before|, toks);
  }

  /** The letters of a dollar quote's tag. */
  predicate Tag(tag: string) {
    (forall k :: 0 <= k < |tag| ==> NameByte(tag[k]) && tag[k] != '$') && (tag == "" || !('0' <= tag[0] <= '9'))
  }

  lemma {:induction false} TagRuns(before: string, tag: string, rest: string)
    requires (forall k :: 0 <= k < |tag| ==> NameByte(tag[k]) && tag[k] != '$')
    requires rest == "" || rest[0] == '$' || !NameByte(rest[0])
    ensures TagEnd(before + tag + rest, |before|) == |before| + |tag|
    decreases |tag|
  {
    var s := before + tag + rest;
    At(before, tag, rest);
    if tag == "" {
      if rest != "" {
        assert s[|before|] == rest[0];
        NameByteIs(rest[0]);
      }
    } else {
      NameByteIs(tag[0]);
      assert s == (before + [tag[0]]) + tag[1..] + rest;
      TagRuns(before + [tag[0]], tag[1..], rest);
    }
  }

  /** A dollar sign that opens no quote stands for itself. */
  lemma LoneDollar(t: Text, before: string, tag: string, rest: string, toks: Tokens)
    requires Tag(tag) && (rest == "" || !NameByte(rest[0]))
    ensures Takes(t, L.PostgreSQL, before, "$", tag + rest, toks, toks + [Token(Symbol, before, "$", "$")])
  {
    var s := before + "$" + (tag + rest);
    At(before, "$", tag + rest);
    assert s == (before + "$") + tag + rest;
    TagRuns(before + "$", tag, rest);
    TagNext(before, tag, rest);
    hide LexAt, TagEnd;
    DollarLeads(t, s, |before|, toks);
  }

  lemma TagNext(before: string, tag: string, rest: string)
    requires Tag(tag)
    ensures var s := before + "$" + (tag + rest);
      && |s| == |before| + 1 + |tag| + |rest| && s[|before|] == '$'
      && (rest != "" ==> s[|before| + 1 + |tag|] == rest[0])
      && (rest == "" || !('0' <= rest[0] <= '9') ==> |before| + 1 < |s| ==> !('0' <= s[|before| + 1] <= '9'))
  {
    var s := before + "$" + (tag + rest);
    assert tag != "" ==> s[|before| + 1] == tag[0];
  }

  function Dollar(tag: string): string {
    "$" + tag + "$"
  }

  lemma DollarPlaces(before: string, tag: string, tail: string)
    requires Tag(tag)
    ensures var s := before + Dollar(tag) + tail;
      var i, j := |before|, |before| + 1 + |tag|;
      && s == (before + "$") + tag + ("$" + tail) && |Dollar(tag)| == |tag| + 2 && |before + "$"| == i + 1
      && j < |s| && s[i] == '$' && s[j] == '$' && !('0' <= s[i + 1] <= '9')
      && s[i..j + 1] == Dollar(tag) && s[j + 1..] == tail && ("$" + tail)[0] == '$'
  {
    var s := before + Dollar(tag) + tail;
    At(before, Dollar(tag), tail);
    assert Dollar(tag)[1] == if tag == "" then '$' else tag[0];
    assert s[|before| + 1] == Dollar(tag)[1];
  }

  lemma DollarEndAt(s: string, i: nat, j: nat, mark: string, tail: string)
    requires i + 1 <= j < |s| && j == TagEnd(s, i + 1) && s[j] == '$' && !('0' <= s[i + 1] <= '9')
    requires s[i..j + 1] == mark && s[j + 1..] == tail
    ensures DollarEnd(s, i) ==
              match L.Index(tail, mark)
              case None => None
              case Some(n) => Some(j + 1 + n + (j + 1 - i))
  {
    hide TagEnd, L.Index;
  }

  /** How a dollar-quoted text is read: from one tag to the next like it. */
  lemma DollarEndIs(before: string, tag: string, tail: string)
    requires Tag(tag)
    ensures DollarEnd(before + Dollar(tag) + tail, |before|) ==
              match L.Index(tail, Dollar(tag))
              case None => None
              case Some(n) => Some(|before| + n + 2 * (|tag| + 2))
  {
    hide *;
    var s, i, j := before + Dollar(tag) + tail, |before|, |before| + 1 + |tag|;
    DollarPlaces(before, tag, tail);
    TagFound(before, tag, tail);
    DollarEndAt(s, i, j, Dollar(tag), tail);
  }

  lemma TagFound(before: string, tag: string, tail: string)
    requires Tag(tag)
    ensures |before| + 1 <= |before + Dollar(tag) + tail|
    ensures TagEnd(before + Dollar(tag) + tail, |before| + 1) == |before| + 1 + |tag|
  {
    DollarPlaces(before, tag, tail);
    hide *;
    TagIs(tag);
    TagRuns(before + "$", tag, "$" + tail);
  }

  lemma TagIs(tag: string)
    requires Tag(tag)
    ensures forall k :: 0 <= k < |tag| ==> NameByte(tag[k]) && tag[k] != '$'
  {
  }

  /** PostgreSQL: between two equal tags everything is a literal, until the tag occurs again. */
  lemma DollarLiteral(t: Text, before: string, tag: string, text: string, rest: string, toks: Tokens)
    requires Tag(tag) && D.OccursFirst(text + Dollar(tag) + rest, Dollar(tag), |text|)
    ensures Dollar(tag) != "" && var piece := Dollar(tag) + text + Dollar(tag);
      Takes(t, L.PostgreSQL, before, piece, rest, toks, toks + [Token(Literal, before, piece, piece)])
  {
    hide *;
    var mark := Dollar(tag);
    var piece := mark + text + mark;
    var tail := text + mark + rest;
    DollarPlaces(before, tag, tail);
    D.IndexIsFirst(tail, mark, |text|);
    DollarEndIs(before, tag, tail);
    PieceIs(before, mark, text, rest);
    At(before, piece, rest);
    DollarLeads(t, before + piece + rest, |before|, toks);
    KeptIs(t, before, piece, rest, toks);
  }

  lemma PieceIs(before: string, mark: string, text: string, rest: string)
    ensures before + (mark + text + mark) + rest == before + mark + (text + mark + rest)
    ensures |mark + text + mark| == |text| + 2 * |mark|
  {
  }

  lemma KeptIs(t: Text, before: string, piece: string, rest: string, toks: Tokens)
    requires piece != "" && |before| + |piece| <= |before + piece + rest|
    requires (before + piece + rest)[|before|..|before| + |piece|] == piece
    requires LexAt(t, L.PostgreSQL, before + piece + rest, |before|, toks) ==
               Keep(toks, Literal, before + piece + rest, |before|, Some(|before| + |piece|))
    ensures Takes(t, L.PostgreSQL, before, piece, rest, toks, toks + [Token(Literal, before, piece, piece)])
  {
    hide LexAt;
  }

  /** A dollar quote that does not end makes the statement unreadable. */
  lemma UnendedDollar(t: Text, before: string, tag: string, text: string, toks: Tokens)
    requires Tag(tag) && forall k :: 0 <= k <= |text| ==> !(Dollar(tag) <= text[k..])
    ensures Dollar(tag) != "" && Refuses(t, L.PostgreSQL, before, Dollar(tag) + text, toks)
  {
    var mark := Dollar(tag);
    var s := before + (mark + text);
    assert s == before + mark + text;
    hide *;
    DollarPlaces(before, tag, text);
    NoMark(mark, text);
    DollarEndIs(before, tag, text);
    DollarLeads(t, s, |before|, toks);
    RefusedIs(t, before, mark + text, toks);
  }

  lemma RefusedIs(t: Text, before: string, piece: string, toks: Tokens)
    requires piece != "" && LexAt(t, L.PostgreSQL, before + piece, |before|, toks) == Refused
    ensures Refuses(t, L.PostgreSQL, before, piece, toks)
  {
    hide LexAt;
  }

  lemma {:induction false} NoMark(mark: string, text: string)
    requires mark != "" && forall k :: 0 <= k <= |text| ==> !(mark <= text[k..])
    ensures L.Index(text, mark) == None
    decreases |text|
  {
    assert text[0..] == text;
    if text != "" {
      forall k | 0 <= k <= |text| - 1
        ensures !(mark <= text[1..][k..])
      {
        assert text[1..][k..] == text[k + 1..];
      }
      NoMark(mark, text[1..]);
    }
  }

  lemma PairOpens(c: char, rest: string)
    ensures "--" <= [c] + rest ==> c == '-' && !D.NotBefore('-', rest)
    ensures "/*" <= [c] + rest ==> c == '/' && !D.NotBefore('*', rest)
  {
    assert forall u: string :: |u| == 2 && u <= [c] + rest ==> u[0] == c && u[1] == rest[0];
  }

  /** Any other character is a mark by itself. */
  lemma Mark(t: Text, e: L.Engine, before: string, c: char, rest: string, toks: Tokens)
    requires !NameByte(c) && !L.IsSpace(c) && c != '\'' && c != '"'
    requires (c == '`' ==> e != L.MySQL) && (c == '[' ==> e != L.SQLServer) && (c == '#' ==> e != L.MySQL)
    requires (c == '-' ==> D.NotBefore('-', rest)) && (c == '/' ==> D.NotBefore('*', rest))
    ensures Takes(t, e, before, [c], rest, toks, toks + [Token(Symbol, before, [c], [c])])
  {
    var s := before + [c] + rest;
    var i := |before|;
    At(before, [c], rest);
    NameByteIs(c);
    assert s[i] == [c][0];
    PairOpens(c, rest);
    Starts(s, i);
    hide IsIdentifier, NameByte, WordEnd, Prefixed, L.Index, DollarEnd;
  }
}
