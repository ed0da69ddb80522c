/**
  What is reported as missing is text the caller wrote: part of the statement, taken from names alone,
  with nothing in it a message could be misread by.
 */
module MissingReported {
  import opened Wrappers
  import opened MissingNames
  import L = GateLexer

  // ----- tokens are the statement's own text -----

  /** A delimited name with no delimiter inside it is the text between its delimiters. */
  predicate Faithful(s: string, tok: Tok) {
    && tok.start < tok.end <= |s|
    && match tok.kind
       case Word => tok.text == s[tok.start..tok.end] && forall k :: tok.start <= k < tok.end ==> IsIdentifier(s[k])
       case Delimited =>
         && s[tok.start] in "\"`["
         && (Closing(s[tok.start]) !in tok.text ==> tok.start + 2 <= tok.end && tok.text == s[tok.start + 1..tok.end - 1])
       case _ => tok.text == s[tok.start..tok.end]
  }

  /** Tokens of the statement, one after the other, none past `i`. */
  ghost predicate Tokens(s: string, toks: seq<Tok>, i: nat) {
    && (forall k :: 0 <= k < |toks| ==> Faithful(s, toks[k]) && toks[k].end <= i)
    && (forall k, m :: 0 <= k < m < |toks| ==> toks[k].end <= toks[m].start)
  }

  lemma {:induction false} DelimitedText(s: string, j: nat, closing: char)
    requires DelimitedEnd(s, j, closing).Some?
    ensures var (text, end) := DelimitedEnd(s, j, closing).value;
      closing !in text ==> text == s[j..end - 1]
    decreases |s| - j
  {
    if s[j] != closing {
      DelimitedText(s, j + 1, closing);
    } else if j + 1 < |s| && s[j + 1] == closing {
      assert DelimitedEnd(s, j, closing).value.0[0] == closing;
    }
  }

  lemma OneMore(s: string, toks: seq<Tok>, i: nat, tok: Tok, next: nat)
    requires Tokens(s, toks, i) && Faithful(s, tok) && i <= tok.start && tok.end <= next
    ensures Tokens(s, toks + [tok], next)
  {
    hide Faithful;
    var all := toks + [tok];
    assert forall k :: 0 <= k < |toks| ==> all[k] == toks[k];
    assert tok.start < tok.end by { EndsLater(s, tok); }
  }

  lemma EndsLater(s: string, tok: Tok)
    requires Faithful(s, tok)
    ensures tok.start < tok.end
  {
  }

  lemma Fewer(s: string, toks: seq<Tok>, i: nat, next: nat)
    requires Tokens(s, toks, i) && toks != [] && i <= next
    ensures Tokens(s, toks[..|toks| - 1], i) && Tokens(s, toks, next)
  {
    hide Faithful;
  }

  lemma WordsAreFaithful(s: string, i: nat)
    requires i < |s| && IsIdentifier(s[i])
    ensures Faithful(s, Tok(Word, s[i..WordEnd(s, i)], i, WordEnd(s, i)))
  {
    assert WordEnd(s, i) > i;
  }

  lemma DelimitedIsFaithful(s: string, i: nat)
    requires i < |s| && s[i] in "\"`[" && DelimitedEnd(s, i + 1, Closing(s[i])).Some?
    ensures var (text, end) := DelimitedEnd(s, i + 1, Closing(s[i])).value; Faithful(s, Tok(Delimited, text, i, end))
  {
    DelimitedText(s, i + 1, Closing(s[i]));
    var (text, end) := DelimitedEnd(s, i + 1, Closing(s[i])).value;
    hide DelimitedEnd;
    assert i + 1 < end;
  }

  /** What a step adds, if it adds anything. */
  ghost predicate Adds(s: string, i: nat, toks: seq<Tok>, m: Move) {
    && m.Onward?
    && (m.toks == toks
        || exists tok :: Faithful(s, tok) && tok.start == i && tok.end == m.next
             && (m.toks == toks + [tok] || (toks != [] && m.toks == toks[..|toks| - 1] + [tok])))
  }

  lemma StepAdds(t: Text, engine: L.Engine, s: string, i: nat, toks: seq<Tok>)
    requires i < |s| && LexAt(t, engine, s, i, toks).Onward?
    ensures Adds(s, i, toks, LexAt(t, engine, s, i, toks))
  {
    var m := LexAt(t, engine, s, i, toks);
    if IsIdentifier(s[i]) {
      WordsAreFaithful(s, i);
    }
    if Opens(engine, s[i]) && DelimitedEnd(s, i + 1, Closing(s[i])).Some? {
      DelimitedIsFaithful(s, i);
    }
    hide WordEnd, DelimitedEnd, BlockCommentEnd, LiteralEnd, DollarEnd, IsIdentifier, Prefixed, Closing, L.Index;
    if m.toks != toks {
      var tok := m.toks[|m.toks| - 1];
      assert Faithful(s, tok);
    }
  }

  /** Each step of the lexer adds at most one token, of what it read. */
  lemma StepIsFaithful(t: Text, engine: L.Engine, s: string, i: nat, toks: seq<Tok>)
    requires i < |s| && Tokens(s, toks, i) && LexAt(t, engine, s, i, toks).Onward?
    ensures var m := LexAt(t, engine, s, i, toks); Tokens(s, m.toks, m.next)
  {
    StepAdds(t, engine, s, i, toks);
    var m := LexAt(t, engine, s, i, toks);
    hide LexAt, Faithful, Tokens;
    if toks != [] {
      Fewer(s, toks, i, m.next);
    } else {
      NoTokens(s, i);
      NoTokens(s, m.next);
    }
    if m.toks != toks {
      var tok :| Faithful(s, tok) && tok.start == i && tok.end == m.next
        && (m.toks == toks + [tok] || (toks != [] && m.toks == toks[..|toks| - 1] + [tok]));
      OneMore(s, if m.toks == toks + [tok] then toks else toks[..|toks| - 1], i, tok, m.next);
    }
  }

  lemma NoTokens(s: string, i: nat)
    ensures Tokens(s, [], i)
  {
  }

  lemma {:induction false} LexIsFaithful(t: Text, engine: L.Engine, s: string, i: nat, toks: seq<Tok>)
    requires i <= |s| && Tokens(s, toks, i) && LexFrom(t, engine, s, i, toks).Some?
    ensures Tokens(s, LexFrom(t, engine, s, i, toks).value, |s|)
    decreases |s| - i
  {
    hide LexAt, Tokens;
    if i < |s| {
      StepIsFaithful(t, engine, s, i, toks);
      var m := LexAt(t, engine, s, i, toks);
      LexIsFaithful(t, engine, s, m.next, m.toks);
    }
  }

  // ----- a delimited name is read back -----

  function Doubled(name: string, closing: char): string {
    if name == "" then ""
    else (if name[0] == closing then [closing, closing] else [name[0]]) + Doubled(name[1..], closing)
  }

  /** Any name, its closing delimiters doubled and one more after it, is read as itself. */
  lemma {:induction false} DelimitedRoundTrip(before: string, name: string, closing: char, rest: string)
    requires rest == "" || rest[0] != closing
    ensures DelimitedEnd(before + Doubled(name, closing) + [closing] + rest, |before|, closing) ==
              Some((name, |before| + |Doubled(name, closing)| + 1))
    decreases |name|
  {
    var all := before + Doubled(name, closing) + [closing] + rest;
    if name == "" {
      assert all[|before|] == closing;
      assert |before| + 1 < |all| ==> all[|before| + 1] == rest[0];
    } else {
      var first := if name[0] == closing then [closing, closing] else [name[0]];
      assert all == (before + first) + Doubled(name[1..], closing) + [closing] + rest;
      DelimitedRoundTrip(before + first, name[1..], closing, rest);
      assert name == [name[0]] + name[1..];
      assert all[|before|] == first[0];
      assert |first| == 2 ==> all[|before| + 1] == closing;
    }
  }

  // ----- references are names joined by dots -----

  /** Names of the statement, and where nothing stands between them, a dot and nothing else. */
  ghost predicate References(s: string, toks: seq<Tok>, ref: Ref) {
    && (forall k :: 0 <= k < |ref.parts| ==> ref.parts[k] in toks && IsName(ref.parts[k]) && Faithful(s, ref.parts[k]))
    && (ref.contiguous ==> Dotted(s, ref.parts))
  }

  ghost predicate Dotted(s: string, parts: seq<Tok>) {
    forall m :: 0 < m < |parts| ==> DotBefore(s, parts, m)
  }

  predicate DotBefore(s: string, parts: seq<Tok>, m: nat)
    requires 0 < m < |parts|
  {
    parts[m - 1].end + 1 == parts[m].start <= |s| && s[parts[m - 1].end] == '.'
  }

  lemma {:induction false} ReadsReference(s: string, toks: seq<Tok>, ref: Ref, j: nat)
    requires Tokens(s, toks, |s|) && 0 < j <= |toks| && References(s, toks, ref)
    requires ref.parts[|ref.parts| - 1] == toks[j - 1]
    ensures References(s, toks, ReadOn(toks, ref, j).0)
    decreases |toks| - j
  {
    if Continues(toks, j) {
      var together := toks[j].start == toks[j - 1].end && toks[j + 1].start == toks[j].end;
      var more := Reference(ref.parts + [toks[j + 1]], ref.contiguous && together);
      PartAdded(s, toks, ref, j, more);
      hide References, Tokens;
      ReadsReference(s, toks, more, j + 2);
    }
  }

  lemma PartAdded(s: string, toks: seq<Tok>, ref: Ref, j: nat, more: Ref)
    requires Tokens(s, toks, |s|) && 0 < j && References(s, toks, ref) && Continues(toks, j)
    requires ref.parts[|ref.parts| - 1] == toks[j - 1]
    requires more == Reference(ref.parts + [toks[j + 1]],
               ref.contiguous && toks[j].start == toks[j - 1].end && toks[j + 1].start == toks[j].end)
    ensures References(s, toks, more)
  {
    var dot := toks[j];
    assert Faithful(s, dot) && Faithful(s, toks[j + 1]);
    assert dot.text == s[dot.start..dot.end];
    hide Faithful;
    assert dot.end == dot.start + 1 && s[dot.start] == '.' by {
      assert |s[dot.start..dot.end]| == 1;
      assert s[dot.start..dot.end][0] == '.';
    }
    if more.contiguous {
      forall m | 0 < m < |more.parts|
        ensures DotBefore(s, more.parts, m)
      {
        if m < |ref.parts| {
          assert DotBefore(s, ref.parts, m);
        }
      }
    }
  }

  lemma OnePart(s: string, toks: seq<Tok>, i: nat)
    requires Tokens(s, toks, |s|) && i < |toks| && IsName(toks[i])
    ensures References(s, toks, Reference([toks[i]], true))
  {
    hide Faithful;
  }

  lemma {:induction false} RefsAreReferences(s: string, toks: seq<Tok>, i: nat)
    requires Tokens(s, toks, |s|) && i <= |toks|
    ensures forall ref :: ref in StatementRefs(toks, i) ==> References(s, toks, ref)
    decreases |toks| - i
  {
    hide Tokens, References, ReadOn;
    if i < |toks| {
      if IsName(toks[i]) {
        OnePart(s, toks, i);
        ReadsReference(s, toks, Reference([toks[i]], true), i + 1);
        RefsAreReferences(s, toks, ReadRef(toks, i).1);
      } else {
        RefsAreReferences(s, toks, i + 1);
      }
    }
  }

  // ----- what is reported -----

  /** The texts of these names with a dot between each two. */
  function Joined(parts: seq<Tok>): string
    requires parts != []
  {
    if |parts| == 1 then parts[0].text else parts[0].text + "." + Joined(parts[1..])
  }

  /** Names of the statement, plain every one, with dots between them and nowhere else, as the statement has them. */
  ghost predicate Reported(t: Text, s: string, toks: seq<Tok>, written: string) {
    exists parts: seq<Tok>, a: nat, b: nat ::
      && parts != [] && written == Joined(parts)
      && (forall k :: 0 <= k < |parts| ==> parts[k] in toks && IsName(parts[k]) && PlainName(t, parts[k].text))
      && a <= b <= |s| && s[a..b] == written
  }

  lemma PlainIsUndelimited(t: Text, s: string, tok: Tok)
    requires Faithful(s, tok) && IsName(tok) && PlainName(t, tok.text)
    ensures exists a: nat, b: nat :: a <= b <= |s| && s[a..b] == tok.text
  {
    if tok.kind == Word {
      assert s[tok.start..tok.end] == tok.text;
    } else {
      var closing := Closing(s[tok.start]);
      assert closing in RESERVED;
      assert closing !in tok.text;
      assert s[tok.start + 1..tok.end - 1] == tok.text;
    }
  }

  lemma OneReported(t: Text, s: string, toks: seq<Tok>, tok: Tok)
    requires tok in toks && Faithful(s, tok) && IsName(tok) && PlainName(t, tok.text)
    ensures Reported(t, s, toks, tok.text)
  {
    PlainIsUndelimited(t, s, tok);
    var a: nat, b: nat :| a <= b <= |s| && s[a..b] == tok.text;
    hide Faithful, PlainName;
    assert Joined([tok]) == tok.text;
  }

  /** Words with a dot and nothing else between them are a stretch of the statement. */
  lemma {:induction false} DottedSpan(s: string, parts: seq<Tok>)
    requires parts != [] && Dotted(s, parts)
    requires forall k :: 0 <= k < |parts| ==> Faithful(s, parts[k]) && parts[k].kind == Word
    ensures parts[0].start <= parts[|parts| - 1].end <= |s|
    ensures s[parts[0].start..parts[|parts| - 1].end] == Joined(parts)
  {
    if |parts| > 1 {
      var rest := parts[1..];
      assert DotBefore(s, parts, 1);
      forall m | 0 < m < |rest|
        ensures DotBefore(s, rest, m)
      {
        assert DotBefore(s, parts, m + 1);
      }
      DottedSpan(s, rest);
      var a, b, c, e := parts[0].start, parts[0].end, parts[1].start, parts[|parts| - 1].end;
      assert rest[|rest| - 1] == parts[|parts| - 1] && rest[0] == parts[1];
      assert parts[0].text == s[a..b] && b + 1 == c && s[b] == '.';
      hide Faithful, Dotted;
      assert s[a..e] == s[a..b] + [s[b]] + s[c..e];
      assert [s[b]] == ".";
    }
  }

  lemma TailOfReference(s: string, toks: seq<Tok>, ref: Ref, tail: seq<Tok>)
    requires References(s, toks, ref) && |tail| <= |ref.parts| && tail == ref.parts[|ref.parts| - |tail|..]
    ensures forall p :: 0 <= p < |tail| ==> tail[p] in toks && IsName(tail[p]) && Faithful(s, tail[p])
    ensures ref.contiguous ==> Dotted(s, tail)
  {
    hide Faithful;
    var n := |ref.parts| - |tail|;
    assert forall p :: 0 <= p < |tail| ==> tail[p] == ref.parts[n + p];
    if ref.contiguous {
      forall m | 0 < m < |tail|
        ensures DotBefore(s, tail, m)
      {
        assert DotBefore(s, ref.parts, n + m);
      }
    }
  }

  /** What is written for a reference is one of its plain names, or several of them and the dots between. */
  lemma WrittenIsReported(t: Text, s: string, toks: seq<Tok>, ref: Ref, k: nat)
    requires References(s, toks, ref) && 0 < k <= |ref.parts| && Written(t, s, ref, k) != ""
    ensures Reported(t, s, toks, Written(t, s, ref, k))
    ensures LastOf(ref) in toks && Faithful(s, LastOf(ref)) && IsName(LastOf(ref)) && PlainName(t, LastOf(ref).text)
  {
    var tail := ref.parts[|ref.parts| - k..];
    WrittenIs(t, s, ref, k, tail);
    hide *;
    TailOfReference(s, toks, ref, tail);
    if Written(t, s, ref, k) == tail[k - 1].text {
      OneReported(t, s, toks, tail[k - 1]);
    } else {
      DottedSpan(s, tail);
      SpanReported(t, s, toks, tail, tail[0].start, tail[k - 1].end);
    }
  }

  lemma WrittenIs(t: Text, s: string, ref: Ref, k: nat, tail: seq<Tok>)
    requires 0 < k <= |ref.parts| && tail == ref.parts[|ref.parts| - k..] && Written(t, s, ref, k) != ""
    ensures tail[k - 1] == LastOf(ref)
    ensures forall p :: 0 <= p < k ==> PlainName(t, tail[p].text)
    ensures Written(t, s, ref, k) != tail[k - 1].text ==>
              && ref.contiguous && (forall p :: 0 <= p < k ==> tail[p].kind == Word)
              && tail[0].start <= tail[k - 1].end <= |s|
              && Written(t, s, ref, k) == s[tail[0].start..tail[k - 1].end]
  {
    hide PlainName;
    WrittenOf(t, s, ref, k);
    assert Tail(ref, k) == tail;
    hide Written, Tail;
  }

  function Tail(ref: Ref, k: nat): seq<Tok>
    requires 0 < k <= |ref.parts|
  {
    ref.parts[|ref.parts| - k..]
  }

  /** What is written, of the names themselves. */
  lemma WrittenOf(t: Text, s: string, ref: Ref, k: nat)
    requires 0 < k <= |ref.parts|
    ensures |Tail(ref, k)| == k
    ensures Written(t, s, ref, k) != "" ==> forall p :: 0 <= p < k ==> PlainName(t, Tail(ref, k)[p].text)
    ensures Written(t, s, ref, k) != "" && Written(t, s, ref, k) != Tail(ref, k)[k - 1].text ==>
              && ref.contiguous && (forall p :: 0 <= p < k ==> Tail(ref, k)[p].kind == Word)
              && Tail(ref, k)[0].start <= Tail(ref, k)[k - 1].end <= |s|
              && Written(t, s, ref, k) == s[Tail(ref, k)[0].start..Tail(ref, k)[k - 1].end]
  {
    hide PlainName;
    var tail := ref.parts[|ref.parts| - k..];
    assert Tail(ref, k) == tail;
  }

  lemma SpanReported(t: Text, s: string, toks: seq<Tok>, parts: seq<Tok>, a: nat, b: nat)
    requires parts != [] && a <= b <= |s| && s[a..b] == Joined(parts)
    requires forall k :: 0 <= k < |parts| ==> parts[k] in toks && IsName(parts[k]) && PlainName(t, parts[k].text)
    ensures Reported(t, s, toks, s[a..b])
  {
  }

  lemma {:induction false} OffsetIsReported(
    t: Text, s: string, toks: seq<Tok>, parts: seq<string>, refs: seq<Ref>, offset: int)
    requires (forall ref :: ref in refs ==> References(s, toks, ref)) && AtOffset(t, parts, refs, s, offset).Some?
    ensures Reported(t, s, toks, AtOffset(t, parts, refs, s, offset).value.written)
  {
    hide References, Reported, Written, Matches;
    var ref := refs[0];
    if ref.parts[0].start <= offset < LastOf(ref).end {
      WrittenIsReported(t, s, toks, ref, Matches(t, ref, parts).value);
    } else {
      OffsetIsReported(t, s, toks, parts, refs[1..], offset);
    }
  }

  /** Everything that can be reported of the references that match. */
  ghost predicate AllReported(t: Text, s: string, toks: seq<Tok>, matched: seq<(Ref, string)>) {
    forall k :: 0 <= k < |matched| ==>
      Reported(t, s, toks, matched[k].1) && Reported(t, s, toks, LastOf(matched[k].0).text)
  }

  lemma {:induction false} MatchedAreReported(t: Text, s: string, toks: seq<Tok>, parts: seq<string>, refs: seq<Ref>)
    requires (forall ref :: ref in refs ==> References(s, toks, ref)) && Matched(t, parts, refs, s).Some?
    ensures AllReported(t, s, toks, Matched(t, parts, refs, s).value)
  {
    hide References, Reported, Written, Matches, PlainName, Faithful;
    if refs != [] {
      MatchedAreReported(t, s, toks, parts, refs[1..]);
      if Matches(t, refs[0], parts).Some? {
        WrittenIsReported(t, s, toks, refs[0], Matches(t, refs[0], parts).value);
        OneReported(t, s, toks, LastOf(refs[0]));
      }
    }
  }

  /** Whatever name is reported as missing, the caller wrote it, as names and dots. */
  lemma ReportedIsFromTheStatement(
    t: Text, engine: L.Engine, s: string, parts: seq<string>, offset: Option<int>)
    requires LexStatement(t, engine, s).Some?
    requires InStatement(t, parts, offset, LexStatement(t, engine, s).value, s).Some?
    ensures var toks := LexStatement(t, engine, s).value;
      Reported(t, s, toks, InStatement(t, parts, offset, toks, s).value.written)
  {
    NoTokens(s, 0);
    LexIsFaithful(t, engine, s, 0, []);
    var toks := LexStatement(t, engine, s).value;
    RefsAreReferences(s, toks, 0);
    var refs := StatementRefs(toks, 0);
    hide Reported, References, Tokens, StatementRefs, LexFrom, SameTokens;
    if offset.Some? {
      OffsetIsReported(t, s, toks, parts, refs, offset.value);
    } else {
      MatchedAreReported(t, s, toks, parts, refs);
    }
  }

  lemma {:induction false} JoinedIsClean(t: Text, parts: seq<Tok>, k: nat)
    requires parts != [] && k < |Joined(parts)| && forall m :: 0 <= m < |parts| ==> PlainName(t, parts[m].text)
    ensures Joined(parts)[k] == '.' || Joined(parts)[k] !in RESERVED
  {
    var first := parts[0].text;
    if |parts| > 1 && k > |first| {
      JoinedIsClean(t, parts[1..], k - |first| - 1);
    }
  }

  /** So nothing reserved is in it but the dots that join its names, and it neither begins nor ends with one. */
  lemma ReportedIsClean(t: Text, s: string, toks: seq<Tok>, written: string)
    requires Reported(t, s, toks, written)
    ensures forall k :: 0 <= k < |written| ==> written[k] == '.' || written[k] !in RESERVED
    ensures written != "" && written[0] != '.' && written[|written| - 1] != '.'
  {
    var parts: seq<Tok> :| parts != [] && written == Joined(parts)
      && (forall k :: 0 <= k < |parts| ==> parts[k] in toks && IsName(parts[k]) && PlainName(t, parts[k].text));
    forall k | 0 <= k < |written|
      ensures written[k] == '.' || written[k] !in RESERVED
    {
      JoinedIsClean(t, parts, k);
    }
    JoinedEnds(t, parts);
  }

  lemma {:induction false} JoinedEnds(t: Text, parts: seq<Tok>)
    requires parts != [] && forall m :: 0 <= m < |parts| ==> PlainName(t, parts[m].text)
    ensures Joined(parts) != "" && Joined(parts)[0] != '.' && Joined(parts)[|Joined(parts)| - 1] != '.'
  {
    var first := parts[0].text;
    assert first[0] !in RESERVED && first[|first| - 1] !in RESERVED;
    if |parts| > 1 {
      JoinedEnds(t, parts[1..]);
    }
  }
}
