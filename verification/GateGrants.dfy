/**
  What grants change: they clear exactly the calls they name, a decision lists exactly the
  grants it still needs or already used, and no grant touches a refusal.
 */
module GateGrants {
  import opened Wrappers
  import opened GateLexer
  import opened GateRules
  import opened GateAnalysis
  import opened GateVerdicts

  ghost predicate Covers(grants: seq<Grant>, ids: seq<string>) {
    forall id :: id in ids ==> Granted(grants, id)
  }

  lemma SelectEmpty(ids: seq<string>, grants: seq<Grant>)
    ensures Select(ids, grants, false) == [] <==> Covers(grants, ids)
  {
    hide Granted, Select;
    SelectIs(ids, grants, false);
    var pending := Select(ids, grants, false);
    if pending != [] {
      assert pending[0] in pending;
    }
  }

  lemma {:induction false} SelectAll(ids: seq<string>, grants: seq<Grant>)
    requires Covers(grants, ids)
    ensures Select(ids, grants, true) == ids
  {
    hide Granted;
    if ids != [] {
      var n := |ids| - 1;
      assert ids == ids[..n] + [ids[n]];
      SelectAll(ids[..n], grants);
    }
  }

  /** The walk whose conclusion a decision is, when it gets that far. */
  ghost predicate Concludes(rules: Option<Compiled>, fold: Fold, e: Engine, statement: string, w: Walk) {
    forall grants :: Decide(rules, fold, e, statement, grants) == Conclude(w, grants)
  }

  lemma WalkedOrRefused(rules: Option<Compiled>, fold: Fold, e: Engine, statement: string, grants: seq<Grant>)
    requires Decide(rules, fold, e, statement, grants).verdict != Deny
    ensures exists w :: Concludes(rules, fold, e, statement, w)
  {
    hide Tokenize, WalkTo, Conclude;
    var toks := Tokenize(e, fold, statement).value;
    var w := WalkTo(rules.value, e, toks, |toks|);
    assert Concludes(rules, fold, e, statement, w);
  }

  /** No grant changes a refusal, nor what it is attributed to. */
  lemma GrantsNeverChangeADeny(
    rules: Option<Compiled>, fold: Fold, e: Engine, statement: string, grants: seq<Grant>, others: seq<Grant>)
    requires Decide(rules, fold, e, statement, grants).verdict == Deny
    ensures Decide(rules, fold, e, statement, others) == Decide(rules, fold, e, statement, grants)
  {
    hide Tokenize, WalkTo, Select;
  }

  /**
    The pending list is exactly what approval needs: with whatever else is granted besides, the
    statement is allowed if and only if everything pending is granted too. None of it was granted.
   */
  lemma PendingIsWhatApprovalNeeds(
    rules: Option<Compiled>, fold: Fold, e: Engine, statement: string, grants: seq<Grant>, more: seq<Grant>)
    requires Decide(rules, fold, e, statement, grants).verdict == NeedsApproval
    requires forall g :: g in grants ==> g in more
    ensures var d := Decide(rules, fold, e, statement, grants);
            && d.pending != [] && d.ruleID == d.pending[0]
            && (forall id :: id in d.pending ==> !Granted(grants, id))
            && (Decide(rules, fold, e, statement, more).verdict == Allow <==> Covers(more, d.pending))
            && (Decide(rules, fold, e, statement, more).verdict != Allow ==>
                  Decide(rules, fold, e, statement, more).verdict == NeedsApproval)
  {
    WalkedOrRefused(rules, fold, e, statement, grants);
    var w :| Concludes(rules, fold, e, statement, w);
    hide Decide, Select;
    assert Decide(rules, fold, e, statement, more) == Conclude(w, more);
    assert Decide(rules, fold, e, statement, grants) == Conclude(w, grants);
    SelectIs(w.escalatable, grants, false);
    SelectEmpty(w.escalatable, more);
    forall id | Granted(grants, id)
      ensures Granted(more, id)
    {
      var g :| g in grants && g.ruleID == id;
    }
  }

  /** The grants an allowed statement used were given, and it is allowed exactly by those who give them all. */
  lemma GrantsUsedAreMinimal(
    rules: Option<Compiled>, fold: Fold, e: Engine, statement: string, grants: seq<Grant>, others: seq<Grant>)
    requires Decide(rules, fold, e, statement, grants).verdict == Allow
    ensures var d := Decide(rules, fold, e, statement, grants);
            && Covers(grants, d.grantsUsed)
            && (Decide(rules, fold, e, statement, others).verdict == Allow <==> Covers(others, d.grantsUsed))
  {
    WalkedOrRefused(rules, fold, e, statement, grants);
    var w :| Concludes(rules, fold, e, statement, w);
    hide Decide, Select, Granted;
    assert Decide(rules, fold, e, statement, others) == Conclude(w, others);
    assert Decide(rules, fold, e, statement, grants) == Conclude(w, grants);
    SelectEmpty(w.escalatable, grants);
    SelectAll(w.escalatable, grants);
    SelectEmpty(w.escalatable, others);
  }

  ghost predicate Distinct(ids: seq<string>) {
    forall i, j :: 0 <= i < j < |ids| ==> ids[i] != ids[j]
  }

  lemma {:induction false} SelectDistinct(ids: seq<string>, grants: seq<Grant>, granted: bool)
    requires Distinct(ids)
    ensures Distinct(Select(ids, grants, granted))
  {
    hide Granted;
    if ids != [] {
      var n := |ids| - 1;
      SelectDistinct(ids[..n], grants, granted);
      SelectIs(ids[..n], grants, granted);
    }
  }

  lemma {:induction false} WalkDistinct(c: Compiled, e: Engine, toks: seq<Token>, n: nat)
    requires n <= |toks|
    ensures Distinct(WalkTo(c, e, toks, n).escalatable)
  {
    if n > 0 {
      hide Step;
      WalkDistinct(c, e, toks, n - 1);
      StepEscalates(c, e, toks, n - 1, WalkTo(c, e, toks, n - 1));
    }
  }

  /** A step adds at most one call to what may be approved. */
  lemma StepEscalates(c: Compiled, e: Engine, toks: seq<Token>, i: nat, w: Walk)
    requires i < |toks|
    ensures var next := Step(c, e, toks, i, w).escalatable;
            next == w.escalatable || next == Escalate(w, QualifiedName(toks, i)).escalatable
  {
    if IsWord(toks, i) {
      StepOfWord(c, e, toks, i, w);
      WordStepEscalates(c, e, toks, i, w);
      hide WordStep, QualifiedName, Escalate, IsSafe, IsCall;
    } else {
      hide QualifiedName, Forbids, IsSafe, WordStep, Escalate;
    }
  }

  lemma WordStepEscalates(c: Compiled, e: Engine, toks: seq<Token>, i: nat, w: Walk)
    requires i < |toks|
    ensures var next := WordStep(c, e, toks, i, w).escalatable;
            next == w.escalatable || next == Escalate(w, QualifiedName(toks, i)).escalatable
  {
    hide QualifiedName, IsSafe, MatchPhrase, ReadRule, IsMark, AfterSetOperator, IsCteName;
  }

  /** A decision asks for each grant once, however often the call it names appears. */
  lemma PendingIsDistinct(rules: Option<Compiled>, fold: Fold, e: Engine, statement: string, grants: seq<Grant>)
    ensures Distinct(Decide(rules, fold, e, statement, grants).pending)
    ensures Distinct(Decide(rules, fold, e, statement, grants).grantsUsed)
  {
    hide Tokenize, WalkTo, Select;
    if rules.Some? && Tokenize(e, fold, statement).Ok? && Tokenize(e, fold, statement).value != [] {
      var toks := Tokenize(e, fold, statement).value;
      WalkDistinct(rules.value, e, toks, |toks|);
      SelectDistinct(WalkTo(rules.value, e, toks, |toks|).escalatable, grants, false);
      SelectDistinct(WalkTo(rules.value, e, toks, |toks|).escalatable, grants, true);
    }
  }
}
