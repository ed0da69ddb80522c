/**
  The scanners and searches of internal/db/missing.go as loops over an index, each returning what its
  specification says.
 */
module MissingLoops {
  import opened Wrappers
  import opened MissingNames
  import L = GateLexer

  method ReadBlockComment(engine: L.Engine, s: string, i: nat) returns (end: Option<nat>)
    requires i + 2 <= |s|
    ensures end == BlockCommentEnd(engine, s, i)
  {
    if engine == L.MySQL {
      if "/*!" <= s[i..] {
        return None;
      }
      var n := L.Index(s[i + 2..], "*/");
      if n.None? {
        return None;
      }
      return Some(i + 2 + n.value + 2);
    }
    var depth, j := 0, i;
    while j + 1 < |s|
      invariant j <= |s|
      invariant NestedEnd(s, i, 0) == NestedEnd(s, j, depth)
      decreases |s| - j
    {
      if s[j] == '/' && s[j + 1] == '*' {
        depth := depth + 1;
        j := j + 2;
      } else if s[j] == '*' && s[j + 1] == '/' {
        depth := depth - 1;
        j := j + 2;
        if depth == 0 {
          return Some(j);
        }
      } else {
        j := j + 1;
      }
    }
    end := None;
  }

  method ReadLiteral(engine: L.Engine, s: string, i: nat, quote: char, escapes: bool) returns (end: Option<nat>)
    requires i < |s| && quote != '\\'
    ensures end == LiteralEnd(engine, s, i + 1, quote, escapes)
  {
    var j := i + 1;
    while j < |s|
      invariant LiteralEnd(engine, s, i + 1, quote, escapes) == LiteralEnd(engine, s, j, quote, escapes)
      decreases |s| - j
    {
      if s[j] == '\\' {
        if escapes {
          j := j + 1;
        } else if engine != L.SQLServer {
          return None;
        }
      } else if s[j] == quote {
        if j + 1 < |s| && s[j + 1] == quote {
          j := j + 1;
        } else {
          return Some(j + 1);
        }
      }
      j := j + 1;
    }
    end := None;
  }

  function After(text: string, rest: Option<(string, nat)>): Option<(string, nat)> {
    match rest
    case None => None
    case Some((more, end)) => Some((text + more, end))
  }

  lemma AfterStep(text: string, s: string, j: nat, closing: char)
    requires j < |s|
    ensures var all := After(text, DelimitedEnd(s, j, closing));
      if s[j] != closing then all == After(text + [s[j]], DelimitedEnd(s, j + 1, closing))
      else if j + 1 < |s| && s[j + 1] == closing then all == After(text + [closing], DelimitedEnd(s, j + 2, closing))
      else all == Some((text, j + 1))
  {
    var at := if s[j] == closing && j + 1 < |s| && s[j + 1] == closing then j + 2 else j + 1;
    var rest := DelimitedEnd(s, at, closing);
    assert rest.Some? ==> text + ([s[j]] + rest.value.0) == text + [s[j]] + rest.value.0;
    assert text + "" == text;
  }

  method ReadDelimited(s: string, i: nat, closing: char) returns (r: Option<(string, nat)>)
    requires i < |s|
    ensures r == DelimitedEnd(s, i + 1, closing)
  {
    hide DelimitedEnd;
    var b := "";
    var j := i + 1;
    AfterNothing(DelimitedEnd(s, j, closing));
    while j < |s|
      invariant DelimitedEnd(s, i + 1, closing) == After(b, DelimitedEnd(s, j, closing))
      decreases |s| - j
    {
      AfterStep(b, s, j, closing);
      if s[j] != closing {
        b := b + [s[j]];
      } else if j + 1 < |s| && s[j + 1] == closing {
        b := b + [closing];
        j := j + 1;
      } else {
        return Some((b, j + 1));
      }
      j := j + 1;
    }
    NothingDelimited(s, j, closing);
    r := None;
  }

  lemma AfterNothing(rest: Option<(string, nat)>)
    ensures After("", rest) == rest
  {
    assert rest.Some? ==> "" + rest.value.0 == rest.value.0;
  }

  lemma NothingDelimited(s: string, j: nat, closing: char)
    requires j >= |s|
    ensures DelimitedEnd(s, j, closing) == None
  {
  }

  method ReadDollar(s: string, i: nat) returns (end: Option<nat>)
    requires i < |s|
    ensures end == DollarEnd(s, i)
  {
    hide L.Index, IsIdentifier;
    var j := i + 1;
    if j < |s| && IsDigit(s[j]) {
      while j < |s| && IsDigit(s[j])
        invariant i < j <= |s| && DigitsEnd(s, i + 1) == DigitsEnd(s, j)
      {
        j := j + 1;
      }
      return Some(j);
    }
    while j < |s| && s[j] != '$' && IsIdentifier(s[j])
      invariant i < j <= |s| && TagEnd(s, i + 1) == TagEnd(s, j)
    {
      j := j + 1;
    }
    if j >= |s| || s[j] != '$' {
      return Some(i + 1);
    }
    var n := L.Index(s[j + 1..], s[i..j + 1]);
    if n.None? {
      return None;
    }
    end := Some(j + 1 + n.value + (j + 1 - i));
  }

  method ReadWord(s: string, i: nat) returns (end: nat)
    requires i < |s|
    ensures end == WordEnd(s, i)
  {
    end := i;
    while end < |s| && IsIdentifier(s[end])
      invariant i <= end <= |s| && WordEnd(s, i) == WordEnd(s, end)
    {
      end := end + 1;
    }
  }

  /** One turn of the lexer's loop. */
  method Read(t: Text, engine: L.Engine, s: string, i: nat, toks: seq<Tok>) returns (m: Move)
    requires i < |s|
    ensures m == LexAt(t, engine, s, i, toks)
  {
    hide WordEnd, DelimitedEnd, BlockCommentEnd, LiteralEnd, DollarEnd, IsIdentifier, IsLiteralPrefix, L.Index;
    var c := s[i];
    if L.IsSpace(c) {
      return Onward(toks, i + 1);
    } else if "--" <= s[i..] || (engine == L.MySQL && c == '#') {
      var n := L.Index(s[i..], "\n");
      return if n.None? then Onward(toks, |s|) else Onward(toks, i + n.value + 1);
    } else if "/*" <= s[i..] {
      var end := ReadBlockComment(engine, s, i);
      return CommentMove(toks, end);
    } else if c == '\'' {
      var escapes, kept := false, toks;
      if Prefixed(t, engine, toks, i) {
        escapes := engine == L.PostgreSQL && t.equalFold(toks[|toks| - 1].text, "e");
        kept := toks[..|toks| - 1];
      }
      var end := ReadLiteral(engine, s, i, '\'', escapes);
      return Keep(kept, Literal, s, i, end);
    } else if c == '"' && engine != L.PostgreSQL {
      var end := ReadLiteral(engine, s, i, '"', false);
      return Keep(toks, Literal, s, i, end);
    } else if Opens(engine, c) {
      var r := ReadDelimited(s, i, Closing(c));
      return if r.None? then Refused else Onward(toks + [Tok(Delimited, r.value.0, i, r.value.1)], r.value.1);
    } else if c == '$' && engine == L.PostgreSQL {
      var end := ReadDollar(s, i);
      if end.None? {
        return Refused;
      }
      var kind := Literal;
      if end.value == i + 1 || IsDigit(s[i + 1]) {
        kind := Symbol;
      }
      return Keep(toks, kind, s, i, end);
    } else if !IsIdentifier(c) {
      return Keep(toks, Symbol, s, i, Some(i + 1));
    }
    var end := ReadWord(s, i);
    m := Keep(toks, Word, s, i, Some(end));
  }

  method ReadStatement(t: Text, engine: L.Engine, s: string) returns (r: Option<seq<Tok>>)
    ensures r == LexStatement(t, engine, s)
  {
    hide LexAt;
    var toks: seq<Tok> := [];
    var i := 0;
    while i < |s|
      invariant i <= |s| && LexStatement(t, engine, s) == LexFrom(t, engine, s, i, toks)
      decreases |s| - i
    {
      var m := Read(t, engine, s, i, toks);
      if m.Refused? {
        return None;
      }
      toks, i := m.toks, m.next;
    }
    r := Some(toks);
  }

  method ReadReference(toks: seq<Tok>, i: nat) returns (ref: Ref, j: nat)
    requires i < |toks|
    ensures (ref, j) == ReadRef(toks, i)
  {
    ref, j := Reference([toks[i]], true), i + 1;
    while Continues(toks, j)
      invariant i < j <= |toks| && ReadRef(toks, i) == ReadOn(toks, ref, j)
      decreases |toks| - j
    {
      if toks[j].start != toks[j - 1].end || toks[j + 1].start != toks[j].end {
        ref := Reference(ref.parts, false);
      }
      ref := Reference(ref.parts + [toks[j + 1]], ref.contiguous);
      j := j + 2;
    }
  }

  method ReadReferences(toks: seq<Tok>) returns (refs: seq<Ref>)
    ensures refs == StatementRefs(toks, 0)
  {
    refs := [];
    var i := 0;
    while i < |toks|
      invariant i <= |toks| && StatementRefs(toks, 0) == refs + StatementRefs(toks, i)
    {
      if !IsName(toks[i]) {
        i := i + 1;
      } else {
        var ref, next := ReadReference(toks, i);
        hide ReadRef;
        refs := refs + [ref];
        i := next;
      }
    }
  }

  /** What the matched references come to, with more of them before. */
  function Since(matched: seq<(Ref, string)>, rest: Option<seq<(Ref, string)>>): Option<seq<(Ref, string)>> {
    match rest
    case None => None
    case Some(more) => Some(matched + more)
  }

  lemma SinceStep(t: Text, parts: seq<string>, refs: seq<Ref>, s: string, matched: seq<(Ref, string)>, i: nat)
    requires i < |refs|
    ensures var all := Since(matched, Matched(t, parts, refs[i..], s));
      match Matches(t, refs[i], parts)
      case None => all == Since(matched, Matched(t, parts, refs[i + 1..], s))
      case Some(k) =>
        var w := Written(t, s, refs[i], k);
        if w == "" then all == None
        else all == Since(matched + [(refs[i], w)], Matched(t, parts, refs[i + 1..], s))
  {
    assert refs[i..][1..] == refs[i + 1..];
    hide Matches, Written;
    var rest := Matched(t, parts, refs[i + 1..], s);
    if Matches(t, refs[i], parts).Some? && rest.Some? {
      var w := Written(t, s, refs[i], Matches(t, refs[i], parts).value);
      assert matched + ([(refs[i], w)] + rest.value) == matched + [(refs[i], w)] + rest.value;
    }
  }

  method FindAtOffset(t: Text, parts: seq<string>, refs: seq<Ref>, statement: string, offset: int)
    returns (r: Option<MissingRef>)
    ensures r == AtOffset(t, parts, refs, statement, offset)
  {
    hide Matches, Written;
    var i := 0;
    assert refs[0..] == refs;
    while i < |refs|
      invariant i <= |refs|
      invariant AtOffset(t, parts, refs, statement, offset) == AtOffset(t, parts, refs[i..], statement, offset)
    {
      assert refs[i..][1..] == refs[i + 1..];
      var ref := refs[i];
      if ref.parts[0].start <= offset < LastOf(ref).end {
        var k := Matches(t, ref, parts);
        if k.None? {
          return None;
        }
        var written := Written(t, statement, ref, k.value);
        return if written == "" then None else Some(MissingRef(written, LastOf(ref).text, QualifierOf(ref), true));
      }
      i := i + 1;
    }
    r := None;
  }

  method FindMatched(t: Text, parts: seq<string>, refs: seq<Ref>, statement: string) returns (r: Option<seq<(Ref, string)>>)
    ensures r == Matched(t, parts, refs, statement)
  {
    hide Matches, Written, Matched;
    var matched: seq<(Ref, string)> := [];
    var i := 0;
    assert refs[0..] == refs;
    assert Matched(t, parts, refs, statement) == Since([], Matched(t, parts, refs, statement)) by {
      var all := Matched(t, parts, refs, statement);
      assert all.Some? ==> [] + all.value == all.value;
    }
    while i < |refs|
      invariant i <= |refs|
      invariant Matched(t, parts, refs, statement) == Since(matched, Matched(t, parts, refs[i..], statement))
    {
      SinceStep(t, parts, refs, statement, matched, i);
      var k := Matches(t, refs[i], parts);
      if k.Some? {
        var w := Written(t, statement, refs[i], k.value);
        if w == "" {
          return None;
        }
        matched := matched + [(refs[i], w)];
      }
      i := i + 1;
    }
    NoneMatched(t, parts, statement, refs[i..]);
    assert matched + [] == matched;
    r := Some(matched);
  }

  lemma NoneMatched(t: Text, parts: seq<string>, s: string, refs: seq<Ref>)
    requires refs == []
    ensures Matched(t, parts, refs, s) == Some([])
  {
  }

  method FindAgreed(t: Text, matched: seq<(Ref, string)>) returns (r: Option<MissingRef>)
    ensures r == Agreed(t, matched)
  {
    if |matched| == 0 {
      return None;
    }
    hide SameTokens;
    var first := matched[0].0;
    var bare, qualifier := LastOf(first).text, QualifierOf(first);
    var scoped, alike := true, true;
    var i := 1;
    while i < |matched|
      invariant 1 <= i <= |matched|
      invariant forall k :: 0 < k < i ==> LastOf(matched[k].0).text == bare
      invariant scoped <==> forall k :: 0 < k < i ==> SameTokens(t, QualifierOf(matched[k].0), qualifier)
      invariant alike <==> forall k :: 0 <= k < i ==> matched[k].1 == matched[0].1
    {
      if LastOf(matched[i].0).text != bare {
        return None;
      }
      if !SameTokens(t, QualifierOf(matched[i].0), qualifier) {
        scoped := false;
      }
      if matched[i].1 != matched[0].1 {
        alike := false;
      }
      i := i + 1;
    }
    r := Some(MissingRef(if alike then matched[0].1 else bare, bare, qualifier, scoped));
  }

  method FindInStatement(t: Text, parts: seq<string>, offset: Option<int>, toks: seq<Tok>, statement: string)
    returns (r: Option<MissingRef>)
    ensures r == InStatement(t, parts, offset, toks, statement)
  {
    if |parts| == 0 {
      return None;
    }
    var refs := ReadReferences(toks);
    if offset.Some? {
      r := FindAtOffset(t, parts, refs, statement, offset.value);
    } else {
      var matched := FindMatched(t, parts, refs, statement);
      if matched.None? {
        return None;
      }
      r := FindAgreed(t, matched.value);
    }
  }
}
