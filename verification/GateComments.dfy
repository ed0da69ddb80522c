/**
  A decision does not depend on where its tokens stand, so text that tokenizes to nothing,
  on a line of its own, changes no decision.
 */
module GateComments {
  import opened Wrappers
  import opened GateLexer
  import opened GateLexerTheorems
  import opened GateRules
  import opened GateAnalysis

  /** The same tokens, wherever they stand. */
  ghost predicate Alike(a: seq<Token>, b: seq<Token>) {
    |a| == |b| && forall i :: 0 <= i < |a| ==> a[i] == b[i].(pos := a[i].pos)
  }

  lemma {:induction false} NamePartsAlike(a: seq<Token>, b: seq<Token>, i: nat, limit: nat)
    requires Alike(a, b) && i < |a|
    ensures NameParts(a, i, limit) == NameParts(b, i, limit)
    decreases limit
  {
    assert a[i].lower == b[i].lower;
    if limit > 1 && IsMark(a, i - 1, ".") && IsName(a, i - 2) {
      NamePartsAlike(a, b, i - 2, limit - 1);
    }
  }

  lemma WordsAtAlike(words: seq<string>, a: seq<Token>, b: seq<Token>, i: nat)
    requires Alike(a, b) && WordsAt(words, a, i)
    ensures WordsAt(words, b, i)
  {
  }

  lemma FitsAlike(p: Phrase, e: Engine, a: seq<Token>, b: seq<Token>, i: nat)
    requires Alike(a, b)
    ensures Fits(p, e, a, i) == Fits(p, e, b, i)
  {
    assert Alike(b, a);
    if WordsAt(p.words, a, i) {
      WordsAtAlike(p.words, a, b, i);
    }
    if WordsAt(p.words, b, i) {
      WordsAtAlike(p.words, b, a, i);
    }
    hide WordsAt, RuleApplies;
  }

  lemma {:induction false} FirstFitAlike(phrases: seq<Phrase>, e: Engine, a: seq<Token>, b: seq<Token>, i: nat)
    requires Alike(a, b)
    ensures FirstFit(phrases, e, a, i) == FirstFit(phrases, e, b, i)
  {
    if phrases != [] {
      FitsAlike(phrases[0], e, a, b, i);
      FirstFitAlike(phrases[1..], e, a, b, i);
    }
  }

  lemma MarksAlike(a: seq<Token>, b: seq<Token>)
    requires Alike(a, b)
    ensures forall i, mark :: IsMark(a, i, mark) == IsMark(b, i, mark)
    ensures forall i :: IsName(a, i) == IsName(b, i)
    ensures forall i: nat :: AfterSetOperator(a, i) == AfterSetOperator(b, i)
  {
  }

  lemma PlaceAlike(c: Compiled, e: Engine, a: seq<Token>, b: seq<Token>, i: nat)
    requires Alike(a, b) && i < |a|
    ensures a[i].kind == b[i].kind && a[i].text == b[i].text && a[i].lower == b[i].lower
    ensures IsName(a, i) == IsName(b, i) && IsCall(a, i) == IsCall(b, i)
    ensures QualifiedName(a, i) == QualifiedName(b, i)
    ensures MatchPhrase(c, e, a, i) == MatchPhrase(c, e, b, i)
  {
    NamePartsAlike(a, b, i, MAX_NAME_PARTS);
    var word := a[i].lower;
    FirstFitAlike(if word in c.forbidden then c.forbidden[word] else [], e, a, b, i);
    hide NameParts, FirstFit, Join;
  }

  lemma CallStepAlike(c: Compiled, e: Engine, a: seq<Token>, b: seq<Token>, i: nat, w: Walk)
    requires Alike(a, b) && i < |a|
    ensures CallStep(c, e, a, i, w) == CallStep(c, e, b, i, w)
  {
    PlaceAlike(c, e, a, b, i);
    MarksAlike(a, b);
    hide QualifiedName, IsMark, IsSafe, ReadRule, Escalate, MatchPhrase;
  }

  lemma ExplainAlike(a: seq<Token>, b: seq<Token>, i: nat, w: Walk)
    requires Alike(a, b) && 0 < i < |a|
    ensures Explain(a, i, w) == Explain(b, i, w)
  {
    MarksAlike(a, b);
    hide IsMark, AfterSetOperator;
  }

  lemma WordStepAlike(c: Compiled, e: Engine, a: seq<Token>, b: seq<Token>, i: nat, w: Walk)
    requires Alike(a, b) && i < |a|
    ensures WordStep(c, e, a, i, w) == WordStep(c, e, b, i, w)
  {
    PlaceAlike(c, e, a, b, i);
    if i > 0 {
      ExplainAlike(a, b, i, w);
    }
    forall v: Walk
      ensures CallStep(c, e, a, i, v) == CallStep(c, e, b, i, v)
    {
      CallStepAlike(c, e, a, b, i, v);
    }
    hide Alike, QualifiedName, IsCall, IsSafe, ReadRule, MatchPhrase, CallStep, Explain;
  }

  lemma StepAlike(c: Compiled, e: Engine, a: seq<Token>, b: seq<Token>, i: nat, w: Walk)
    requires Alike(a, b) && i < |a|
    ensures Step(c, e, a, i, w) == Step(c, e, b, i, w)
  {
    PlaceAlike(c, e, a, b, i);
    WordStepAlike(c, e, a, b, i, w);
    assert |a| == |b|;
    hide Alike, QualifiedName, IsCall, IsName, IsSafe, Forbids, MatchPhrase, WordStep, Escalate;
  }

  lemma {:induction false} WalkAlike(c: Compiled, e: Engine, a: seq<Token>, b: seq<Token>, n: nat)
    requires Alike(a, b) && n <= |a|
    ensures WalkTo(c, e, a, n) == WalkTo(c, e, b, n)
  {
    hide Step;
    if n > 0 {
      WalkAlike(c, e, a, b, n - 1);
      StepAlike(c, e, a, b, n - 1, WalkTo(c, e, a, n - 1));
    }
  }

  lemma AnalysisAlike(c: Compiled, e: Engine, a: seq<Token>, b: seq<Token>, grants: seq<Grant>)
    requires Alike(a, b) && a != []
    ensures Analyse(c, e, a, grants) == Analyse(c, e, b, grants)
  {
    hide WalkTo, Conclude;
    WalkAlike(c, e, a, b, |a|);
    assert a[0].kind == b[0].kind;
  }

  lemma {:induction false} ShiftAlike(toks: seq<Token>, offset: nat)
    ensures Alike(toks, Shift(toks, offset))
  {
    if toks != [] {
      ShiftAlike(toks[1..], offset);
      assert forall i :: 1 <= i < |toks| ==> toks[i] == toks[1..][i - 1];
    }
  }

  /** Two statements whose tokens are alike, both within the bound, are decided alike. */
  lemma DecisionAlike(rules: Option<Compiled>, fold: Fold, e: Engine, s: string, t: string, grants: seq<Grant>)
    requires rules.Some? ==> |s| <= rules.value.source.maxStatementBytes && |t| <= rules.value.source.maxStatementBytes
    requires match (Tokenize(e, fold, s), Tokenize(e, fold, t))
             case (Ok(a), Ok(b)) => Alike(a, b)
             case (Err(_), Err(_)) => true
             case _ => false
    ensures Decide(rules, fold, e, s, grants) == Decide(rules, fold, e, t, grants)
  {
    hide Tokenize, Analyse, Alike;
    if rules.Some? && Tokenize(e, fold, s).Ok? {
      var a, b := Tokenize(e, fold, s).value, Tokenize(e, fold, t).value;
      assert |a| == |b| by { AlikeLength(a, b); }
      if a != [] {
        AnalysisAlike(rules.value, e, a, b, grants);
      }
    }
  }

  lemma AlikeLength(a: seq<Token>, b: seq<Token>)
    requires Alike(a, b)
    ensures |a| == |b|
  {
  }

  /**
    Comments and blanks never change a decision: any text that tokenizes to nothing may be put on
    a line of its own after a prefix that tokenizes, while the statement stays within the bound.
   */
  lemma CommentsChangeNothing(
    rules: Option<Compiled>, fold: Fold, e: Engine, a: string, comment: string, b: string, grants: seq<Grant>)
    requires Tokenize(e, fold, a).Ok? && Tokenize(e, fold, comment) == Ok([])
    requires rules.Some? ==> |a + "\n" + (comment + "\n" + b)| <= rules.value.source.maxStatementBytes
    ensures Decide(rules, fold, e, a + "\n" + (comment + "\n" + b), grants) ==
            Decide(rules, fold, e, a + "\n" + b, grants)
  {
    TokenizeHomomorphism(e, fold, comment, b);
    TokenizeHomomorphism(e, fold, a, comment + "\n" + b);
    TokenizeHomomorphism(e, fold, a, b);
    hide Tokenize, Decide, Shift, Alike;
    if Tokenize(e, fold, b).Ok? {
      var ta, tb := Tokenize(e, fold, a).value, Tokenize(e, fold, b).value;
      assert [] + Shift(tb, |comment| + 1) == Shift(tb, |comment| + 1);
      JoinedAlike(ta, tb, |comment| + 1, |a| + 1);
    }
    DecisionAlike(rules, fold, e, a + "\n" + (comment + "\n" + b), a + "\n" + b, grants);
  }

  lemma JoinedAlike(ta: seq<Token>, tb: seq<Token>, inner: nat, outer: nat)
    ensures Alike(ta + Shift(Shift(tb, inner), outer), ta + Shift(tb, outer))
  {
    ShiftAlike(tb, inner);
    ShiftAlike(Shift(tb, inner), outer);
    ShiftAlike(tb, outer);
  }
}
