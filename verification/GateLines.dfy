/**
  Statements written a word or a mark to the line, whose tokens are those words and marks in every
  dialect: what a statement that shows something is built from.
 */
module GateLines {
  import opened Wrappers
  import opened GateLexer
  import opened GateLexerTheorems

  /** A word of small letters. */
  predicate PlainWord(w: string) {
    w != [] && forall i :: 0 <= i < |w| ==> 'a' <= w[i] <= 'z'
  }

  const MARKS: seq<string> := ["(", ")", "."]

  predicate Plain(part: string) {
    PlainWord(part) || part in MARKS
  }

  function KindOf(part: string): TokenKind {
    if part in MARKS then Punct else Word
  }

  function Lines(parts: seq<string>): string
    requires parts != []
  {
    if |parts| == 1 then parts[0] else parts[0] + "\n" + Lines(parts[1..])
  }

  /** The tokens are these words and marks, wherever they stand. */
  ghost predicate ReadAs(toks: seq<Token>, parts: seq<string>, fold: Fold) {
    && |toks| == |parts|
    && forall i :: 0 <= i < |parts| ==>
         toks[i].kind == KindOf(parts[i]) && toks[i].text == parts[i] && toks[i].lower == fold(parts[i])
  }

  lemma {:induction false} WordSpan(w: string, class_: char -> bool)
    requires forall i :: 0 <= i < |w| ==> class_(w[i])
    ensures Span(w, class_) == |w|
  {
    if w != [] {
      WordSpan(w[1..], class_);
    }
  }

  lemma SmallLetterIsWord(c: char)
    requires 'a' <= c <= 'z'
    ensures IsWordPart(c) && IsHashWordPart(c) && IsWordStart(c)
  {
  }

  lemma PlainWordNext(d: Dialect, fold: Fold, w: string)
    requires PlainWord(w)
    ensures Next(d, fold, w, false) == Took(Lexeme(Word, w, 0), |w|)
  {
    SmallLetterIsWord(w[0]);
    assert LeadOf(d, w, false) == AtWord;
    hide LeadOf;
    forall i | 0 <= i < |w|
      ensures WordClass(d)(w[i])
    {
      SmallLetterIsWord(w[i]);
    }
    WordSpan(w, WordClass(d));
    hide Span, WordClass;
    assert PrefixAt(d, fold, w, |w|) == NoPrefix;
    hide PrefixAt;
    assert w[..|w|] == w;
  }

  lemma MarkLead(d: Dialect, m: string)
    requires |m| == 1 && (m[0] == '(' || m[0] == ')' || m[0] == '.')
    ensures LeadOf(d, m, false) == AtPunct
  {
    assert IsPunct(m[0]) && !StartsWord(d, m[0]);
    hide IsPunct, StartsWord, LineCommentStarts;
  }

  lemma MarkNext(d: Dialect, fold: Fold, m: string)
    requires m in MARKS
    ensures Next(d, fold, m, false) == Took(Lexeme(Punct, m, 0), 1)
  {
    assert |m| == 1 && (m[0] == '(' || m[0] == ')' || m[0] == '.');
    MarkLead(d, m);
    hide LeadOf;
    assert m[..1] == m;
  }

  lemma OneScanned(d: Dialect, fold: Fold, part: string, kind: TokenKind)
    requires part != [] && Next(d, fold, part, false) == Took(Lexeme(kind, part, 0), |part|)
    ensures Lex(d, fold, part) == Ok([Token(kind, part, fold(part), 0)])
  {
    ScanTook(d, fold, part, 0);
    hide Next, Scan;
    assert part[..|part|] == part && part[|part|..] == [];
    ScanNothing(d, fold);
    OneToken(fold, part, kind);
  }

  lemma ScanNothing(d: Dialect, fold: Fold)
    ensures Scan(d, fold, [], 0) == Ok([])
  {
  }

  lemma OneToken(fold: Fold, part: string, kind: TokenKind)
    ensures var g := Segment(Lexeme(kind, part, 0), part);
      [g] + [] == [g] && TokensOf(fold, [g], 0) == [Token(kind, part, fold(part), 0)]
  {
    var g := Segment(Lexeme(kind, part, 0), part);
    assert [g] + [] == [g] && [g][1..] == [];
    assert TokensOf(fold, [], |part|) == [];
  }

  lemma PartTokenizes(e: Engine, fold: Fold, part: string)
    requires e in ENGINES && Plain(part)
    ensures Tokenize(e, fold, part) == Ok([Token(KindOf(part), part, fold(part), 0)])
  {
    var d := DialectOf(e).value;
    hide Next, Lex;
    if part in MARKS {
      MarkNext(d, fold, part);
      OneScanned(d, fold, part, Punct);
    } else {
      PlainWordNext(d, fold, part);
      OneScanned(d, fold, part, Word);
    }
  }

  lemma {:induction false} ShiftReads(toks: seq<Token>, parts: seq<string>, fold: Fold, offset: nat)
    requires ReadAs(toks, parts, fold)
    ensures ReadAs(Shift(toks, offset), parts, fold)
  {
    if toks != [] {
      assert ReadAs(toks[1..], parts[1..], fold);
      ShiftReads(toks[1..], parts[1..], fold, offset);
      var rest := Shift(toks[1..], offset);
      forall i | 0 <= i < |parts|
        ensures Shift(toks, offset)[i].kind == KindOf(parts[i])
        ensures Shift(toks, offset)[i].text == parts[i] && Shift(toks, offset)[i].lower == fold(parts[i])
      {
        if i > 0 {
          assert Shift(toks, offset)[i] == rest[i - 1] && parts[i] == parts[1..][i - 1];
        }
      }
    }
  }

  /** Such a statement tokenizes, for every engine, to what stands on its lines. */
  lemma {:induction false} LinesTokenize(e: Engine, fold: Fold, parts: seq<string>)
    requires e in ENGINES && parts != [] && forall part :: part in parts ==> Plain(part)
    ensures Tokenize(e, fold, Lines(parts)).Ok? && ReadAs(Tokenize(e, fold, Lines(parts)).value, parts, fold)
  {
    hide Tokenize, Plain, KindOf, Shift, ReadAs;
    PartTokenizes(e, fold, parts[0]);
    var first := [Token(KindOf(parts[0]), parts[0], fold(parts[0]), 0)];
    if |parts| == 1 {
      NoneRead(parts[1..], fold);
      FirstReads(first, [], parts, fold);
      assert first + [] == first;
    } else {
      LinesTokenize(e, fold, parts[1..]);
      TokenizeHomomorphism(e, fold, parts[0], Lines(parts[1..]));
      var rest := Tokenize(e, fold, Lines(parts[1..])).value;
      ShiftReads(rest, parts[1..], fold, |parts[0]| + 1);
      FirstReads(first, Shift(rest, |parts[0]| + 1), parts, fold);
    }
  }

  lemma NoneRead(parts: seq<string>, fold: Fold)
    requires parts == []
    ensures ReadAs([], parts, fold)
  {
  }

  lemma FirstReads(first: seq<Token>, rest: seq<Token>, parts: seq<string>, fold: Fold)
    requires parts != [] && first == [Token(KindOf(parts[0]), parts[0], fold(parts[0]), 0)]
    requires ReadAs(rest, parts[1..], fold)
    ensures ReadAs(first + rest, parts, fold)
  {
    hide KindOf;
    assert forall i :: 1 <= i < |parts| ==> parts[i] == parts[1..][i - 1] && (first + rest)[i] == rest[i - 1];
  }
}
