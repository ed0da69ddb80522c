/**
  Taking a read keyword out of the rules. It refuses what the keyword led, but the keyword also
  marked where a second statement begins, and with the rule gone so is the mark: exactly when a
  statement's verdict is looser for it.
 */
module GateRemoval {
  import opened Wrappers
  import opened GateLexer
  import opened GateRules
  import opened GateRulesLoops
  import opened GateAnalysis
  import opened GateVerdicts
  import opened GatePhrases
  import opened GateTightening

  /** `after` has no read keyword `before` has not, and is otherwise the same. */
  ghost predicate FewerReads(after: Compiled, before: Compiled, e: Engine) {
    && (forall name :: ReadRule(after, e, name).Some? ==> ReadRule(before, e, name).Some?)
    && after.nonFunc == before.nonFunc
    && (forall name :: Forbids(after, e, name) == Forbids(before, e, name))
    && (forall name, qualified :: IsSafe(after, e, name, qualified) == IsSafe(before, e, name, qualified))
    && (forall toks: seq<Token>, i: nat :: i < |toks| ==>
          MatchPhrase(after, e, toks, i) == MatchPhrase(before, e, toks, i))
  }

  /** A removed keyword stands where a second statement could begin. */
  predicate Unmarked(after: Compiled, before: Compiled, e: Engine, toks: seq<Token>, k: nat) {
    Unaided(before, e, toks, k) && !Reads(after, e, toks, k)
  }

  ghost predicate AllGranted(c: Compiled, e: Engine, toks: seq<Token>, grants: seq<Grant>) {
    forall i: nat :: i < |toks| && Asks(c, e, toks, i) ==> Granted(grants, CallId(toks, i))
  }

  /** What in the tokens makes a removal tell: a keyword unmarked, or a leading rule that now explains more. */
  ghost predicate Touched(after: Compiled, before: Compiled, e: Engine, toks: seq<Token>)
    requires toks != []
  {
    || (exists k: nat :: Unmarked(after, before, e, toks, k))
    || Allowance(after, e, toks) > Allowance(before, e, toks)
  }

  /**
    The statement passes every check of the rules after; and before, more places were left over than
    its leading rule explained, or a call asked in vain that no longer asks.
   */
  ghost predicate Loosened(after: Compiled, before: Compiled, e: Engine, toks: seq<Token>, grants: seq<Grant>)
    requires toks != []
  {
    && Permitted(after, e, toks)
    && Touched(after, before, e, toks)
    && (|| |Extra(before, e, toks)| > Allowance(before, e, toks)
        || (AllGranted(after, e, toks, grants) && !AllGranted(before, e, toks, grants)))
  }

  lemma FewerPlaces(after: Compiled, before: Compiled, e: Engine, toks: seq<Token>, i: nat)
    requires FewerReads(after, before, e)
    ensures Reads(after, e, toks, i) ==> Reads(before, e, toks, i)
    ensures Unaided(after, e, toks, i) ==> Unaided(before, e, toks, i)
    ensures Unaided(before, e, toks, i) && !Unmarked(after, before, e, toks, i) ==> Unaided(after, e, toks, i)
  {
    hide AfterSetOperator, DepthAt, ReadRule, Forbids, IsSafe, MatchPhrase, IsCall;
  }

  // ----- what does not change -----

  /** Every check but that of the boundaries is the same. */
  lemma SameButBoundaries(after: Compiled, before: Compiled, e: Engine, toks: seq<Token>, i: nat)
    requires FewerReads(after, before, e) && i < |toks| && Clear(after, e, toks, i)
    ensures Clear(before, e, toks, i) <==> BoundaryClear(before, e, toks, i)
  {
    FewerPlaces(after, before, e, toks, 0);
    hide Reads, BoundaryClear, MarkClear, QualifiedName, MatchPhrase, Forbids, IsSafe;
  }

  lemma LedAlike(after: Compiled, before: Compiled, e: Engine, toks: seq<Token>)
    requires FewerReads(after, before, e) && Permitted(after, e, toks)
    ensures Reads(after, e, toks, 0) && Reads(before, e, toks, 0)
  {
    assert Clear(after, e, toks, 0);
    FewerPlaces(after, before, e, toks, 0);
    hide Reads, BoundaryClear, MarkClear, NameClear, PhraseClear, FewerReads;
  }

  /** What the rules after permit, the rules before do, unless more places were left over than explained. */
  lemma PermittedBefore(after: Compiled, before: Compiled, e: Engine, toks: seq<Token>)
    requires FewerReads(after, before, e) && Permitted(after, e, toks)
    ensures Permitted(before, e, toks) <==> |Extra(before, e, toks)| <= Allowance(before, e, toks)
  {
    LedAlike(after, before, e, toks);
    BoundariesExplained(before, e, toks);
    forall i: nat | i < |toks|
      ensures Clear(before, e, toks, i) <==> BoundaryClear(before, e, toks, i)
    {
      hide Clear, BoundaryClear, FewerReads;
      SameButBoundaries(after, before, e, toks, i);
    }
    hide Clear, BoundaryClear, FewerReads, Extra, Allowance;
  }

  // ----- untouched statements -----

  lemma UntouchedPlaces(after: Compiled, before: Compiled, e: Engine, toks: seq<Token>)
    requires FewerReads(after, before, e)
    requires forall k: nat :: !Unmarked(after, before, e, toks, k)
    ensures forall i: nat :: Unaided(after, e, toks, i) == Unaided(before, e, toks, i)
    ensures forall i: nat :: AfterBody(after, e, toks, i) == AfterBody(before, e, toks, i)
  {
    forall i: nat
      ensures Unaided(after, e, toks, i) == Unaided(before, e, toks, i)
    {
      FewerPlaces(after, before, e, toks, i);
    }
    hide Unaided, Unmarked, FewerReads, IsMark;
  }

  lemma UntouchedOpen(after: Compiled, before: Compiled, e: Engine, toks: seq<Token>, i: nat)
    requires Reads(after, e, toks, 0) && Reads(before, e, toks, 0)
    requires forall j: nat :: AfterBody(after, e, toks, j) == AfterBody(before, e, toks, j)
    ensures WithOpen(after, e, toks, i) == WithOpen(before, e, toks, i)
    ensures WithBody(after, e, toks, i) == WithBody(before, e, toks, i)
  {
    hide AfterBody, ReadRule;
  }

  lemma UntouchedExtra(after: Compiled, before: Compiled, e: Engine, toks: seq<Token>)
    requires forall i: nat :: Unaided(after, e, toks, i) == Unaided(before, e, toks, i)
    requires forall i: nat :: WithBody(after, e, toks, i) == WithBody(before, e, toks, i)
    ensures Extra(after, e, toks) == Extra(before, e, toks)
  {
    hide Unaided, WithBody;
  }

  lemma UntouchedAsks(after: Compiled, before: Compiled, e: Engine, toks: seq<Token>, i: nat)
    requires FewerReads(after, before, e) && i < |toks|
    requires WithOpen(after, e, toks, i) == WithOpen(before, e, toks, i)
    ensures Asks(before, e, toks, i) ==> Asks(after, e, toks, i)
  {
    FewerPlaces(after, before, e, toks, i);
    hide WithOpen, Reads, IsCteName, DepthAt, QualifiedName, Forbids, MatchPhrase, IsSafe, IsCall;
  }

  /** A call asks no longer only where the body of a leading WITH is unmarked: until then it could be a query's name. */
  lemma NoLongerAsks(after: Compiled, before: Compiled, e: Engine, toks: seq<Token>, i: nat)
    requires FewerReads(after, before, e) && Permitted(after, e, toks) && i < |toks|
    requires Asks(before, e, toks, i) && !Asks(after, e, toks, i)
    ensures WithOpen(after, e, toks, i)
    ensures exists k: nat :: k < i && Unmarked(after, before, e, toks, k) && IsMark(toks, k - 1, ")")
  {
    LedAlike(after, before, e, toks);
    if WithOpen(after, e, toks, i) == WithOpen(before, e, toks, i) {
      UntouchedAsks(after, before, e, toks, i);
    }
    forall k: nat
      ensures AfterBody(after, e, toks, k) ==> AfterBody(before, e, toks, k)
      ensures AfterBody(before, e, toks, k) && !AfterBody(after, e, toks, k) ==>
                Unmarked(after, before, e, toks, k) && IsMark(toks, k - 1, ")")
    {
      FewerPlaces(after, before, e, toks, k);
      hide FewerReads, Unaided, Unmarked;
    }
    hide FewerReads, Permitted, Asks, AfterBody, Unmarked, ReadRule;
  }

  /** Where nothing is touched, what the rules after permit and grant, the rules before do. */
  lemma UntouchedNoLooser(after: Compiled, before: Compiled, e: Engine, toks: seq<Token>, grants: seq<Grant>)
    requires FewerReads(after, before, e) && Permitted(after, e, toks) && !Touched(after, before, e, toks)
    ensures Permitted(before, e, toks)
    ensures AllGranted(after, e, toks, grants) ==> AllGranted(before, e, toks, grants)
  {
    LedAlike(after, before, e, toks);
    UntouchedPlaces(after, before, e, toks);
    hide FewerReads, Unaided, AfterBody, Reads, WithOpen, WithBody, Asks, Unmarked, Granted, CallId, Extra, Allowance;
    forall i: nat
      ensures WithOpen(after, e, toks, i) == WithOpen(before, e, toks, i)
      ensures WithBody(after, e, toks, i) == WithBody(before, e, toks, i)
    {
      UntouchedOpen(after, before, e, toks, i);
    }
    UntouchedExtra(after, before, e, toks);
    PermittedBefore(after, before, e, toks);
    AllExplained(after, e, toks);
    forall i: nat | i < |toks|
      ensures Asks(before, e, toks, i) ==> Asks(after, e, toks, i)
    {
      UntouchedAsks(after, before, e, toks, i);
    }
  }

  lemma AllExplained(c: Compiled, e: Engine, toks: seq<Token>)
    requires Permitted(c, e, toks)
    ensures |Extra(c, e, toks)| <= Allowance(c, e, toks)
  {
    assert Clear(c, e, toks, 0);
    forall i: nat | i < |toks|
      ensures BoundaryClear(c, e, toks, i)
    {
      assert Clear(c, e, toks, i);
    }
    hide BoundaryClear, MarkClear, NameClear, PhraseClear, Extra, Allowance, Reads;
    BoundariesExplained(c, e, toks);
  }

  // ----- exactly when -----

  /** On any tokens: the verdict is looser exactly when the statement is loosened. */
  lemma AnalysisLoosensExactly(after: Compiled, before: Compiled, e: Engine, toks: seq<Token>, grants: seq<Grant>)
    requires FewerReads(after, before, e) && toks != []
    ensures Looseness(Analyse(after, e, toks, grants).verdict) > Looseness(Analyse(before, e, toks, grants).verdict) <==>
              Loosened(after, before, e, toks, grants)
  {
    AllowExactly(after, e, toks, grants);
    AllowExactly(before, e, toks, grants);
    hide FewerReads, Asks, Granted, CallId, Extra, Allowance, Touched, Analyse, Permitted;
    if Permitted(after, e, toks) {
      PermittedBefore(after, before, e, toks);
      if !Touched(after, before, e, toks) {
        UntouchedNoLooser(after, before, e, toks, grants);
      }
    }
  }

  /** The tokens a statement is analysed as, if it is analysed at all. */
  function Analysed(rs: Ruleset, fold: Fold, e: Engine, statement: string): Option<seq<Token>> {
    if |statement| > rs.maxStatementBytes then None
    else
      match Tokenize(e, fold, statement)
      case Ok(toks) => if toks == [] then None else Some(toks)
      case Err(_) => None
  }

  lemma DecisionOf(c: Compiled, fold: Fold, e: Engine, statement: string, grants: seq<Grant>)
    ensures match Analysed(c.source, fold, e, statement)
            case None => Decide(Some(c), fold, e, statement, grants).verdict == Deny
            case Some(toks) =>
              toks != [] && Decide(Some(c), fold, e, statement, grants) == Analyse(c, e, toks, grants)
  {
    hide Scan, TokensOf, Analyse;
  }

  // ----- overlays that only remove read rules -----

  predicate OnlyRemovesReads(base: Ruleset, ov: Overlay) {
    && ov.readStatements == [] && ov.forbiddenStatements == [] && ov.forbiddenFunctions == []
    && ov.safeFunctions == [] && ov.removeSafeFunctions == [] && ov.nonFunctionKeywords == []
    && ov.maxStatementBytes.None?
    && forall r | r in base.forbiddenStatements + base.forbiddenFunctions :: r.id !in ov.removeRules
  }

  lemma {:induction false} WithoutIs(rules: seq<Rule>, id: string)
    ensures forall r :: r in Without(rules, id) <==> r in rules && r.id != id
    ensures (forall r :: r in rules ==> r.id != id) ==> Without(rules, id) == rules
  {
    if rules != [] {
      WithoutIs(rules[1..], id);
      assert rules == [rules[0]] + rules[1..];
    }
  }

  lemma {:induction false} DroppedReads(base: Ruleset, ids: seq<string>)
    requires forall r :: r in base.forbiddenStatements + base.forbiddenFunctions ==> r.id !in ids
    requires DropRules(base, ids).Some?
    ensures var kept := DropRules(base, ids).value;
      && kept == base.(readStatements := kept.readStatements)
      && forall r :: r in kept.readStatements <==> r in base.readStatements && r.id !in ids
  {
    if ids != [] {
      var n := |ids| - 1;
      assert ids == ids[..n] + [ids[n]];
      DroppedReads(base, ids[..n]);
      var kept := DropRules(base, ids[..n]).value;
      WithoutIs(kept.readStatements, ids[n]);
      WithoutIs(kept.forbiddenStatements, ids[n]);
      WithoutIs(kept.forbiddenFunctions, ids[n]);
    }
  }

  lemma RemovalLeaves(lib: Library, base: Ruleset, ov: Overlay, merged: Ruleset)
    requires OnlyRemovesReads(base, ov) && Merges(lib, base, ov, merged)
    ensures merged.forbiddenStatements == base.forbiddenStatements
    ensures merged.forbiddenFunctions == base.forbiddenFunctions
    ensures merged.safeFunctions == base.safeFunctions && merged.nonFunctionKeywords == base.nonFunctionKeywords
    ensures merged.maxStatementBytes == base.maxStatementBytes
    ensures forall r :: r in merged.readStatements <==> r in base.readStatements && r.id !in ov.removeRules
  {
    hide Valid;
    DroppedReads(base, ov.removeRules);
    assert DropSafes(base.safeFunctions, []) == Some(base.safeFunctions);
  }

  /** A keyword still leads statements exactly when some rule for it was not removed. */
  lemma ReadsLeft(lib: Library, base: Ruleset, ov: Overlay, merged: Ruleset, after: Compiled, e: Engine, name: string)
    requires OnlyRemovesReads(base, ov) && Merges(lib, base, ov, merged) && IsCompiled(lib, merged, after)
    requires e in ENGINES
    ensures ReadRule(after, e, name).Some? <==>
              exists r :: r in base.readStatements && r.id !in ov.removeRules && RuleApplies(r, e) && r.pattern == name
  {
    RemovalLeaves(lib, base, ov, merged);
    IndexKeys(merged.readStatements, e);
    hide Merges, OnlyRemovesReads, RuleApplies;
  }

  lemma SamePhrases(lib: Library, a: Ruleset, ca: Compiled, b: Ruleset, cb: Compiled, e: Engine, toks: seq<Token>, i: nat)
    requires Valid(lib, a) && IsCompiled(lib, a, ca) && IsCompiled(lib, b, cb) && i < |toks|
    requires a.forbiddenStatements == b.forbiddenStatements
    ensures MatchPhrase(ca, e, toks, i) == MatchPhrase(cb, e, toks, i)
  {
    ValidCompiles(lib, a);
    hide Valid, MatchPhrase, Longest, IsCompiled;
    IndexAgreesWithScan(lib, a, ca, e, toks, i);
    IndexAgreesWithScan(lib, b, cb, e, toks, i);
  }

  lemma RemovalReads(
    lib: Library, base: Ruleset, ov: Overlay, merged: Ruleset, before: Compiled, after: Compiled, e: Engine, name: string)
    requires OnlyRemovesReads(base, ov) && Merges(lib, base, ov, merged)
    requires IsCompiled(lib, base, before) && IsCompiled(lib, merged, after) && e in ENGINES
    ensures ReadRule(after, e, name).Some? ==> ReadRule(before, e, name).Some?
  {
    IndexKeys(base.readStatements, e);
    ReadsLeft(lib, base, ov, merged, after, e, name);
    hide Merges, OnlyRemovesReads, RuleApplies;
  }

  lemma SameNames(lib: Library, a: Ruleset, ca: Compiled, b: Ruleset, cb: Compiled, e: Engine)
    requires IsCompiled(lib, a, ca) && IsCompiled(lib, b, cb) && e in ENGINES
    requires a.forbiddenFunctions == b.forbiddenFunctions && a.safeFunctions == b.safeFunctions
    requires a.nonFunctionKeywords == b.nonFunctionKeywords
    ensures ca.nonFunc == cb.nonFunc
    ensures forall name :: Forbids(ca, e, name) == Forbids(cb, e, name)
    ensures forall name, qualified :: IsSafe(ca, e, name, qualified) == IsSafe(cb, e, name, qualified)
  {
    hide SafeNames;
  }

  lemma RemovalFewerReads(
    lib: Library, base: Ruleset, ov: Overlay, merged: Ruleset, before: Compiled, after: Compiled, e: Engine)
    requires Valid(lib, base) && OnlyRemovesReads(base, ov) && Merges(lib, base, ov, merged)
    requires IsCompiled(lib, base, before) && IsCompiled(lib, merged, after) && e in ENGINES
    ensures FewerReads(after, before, e)
  {
    RemovalLeaves(lib, base, ov, merged);
    hide MatchPhrase, Forbids, ReadRule, IsSafe, OnlyRemovesReads, Merges, Valid, IsCompiled;
    SameNames(lib, merged, after, base, before, e);
    forall name
      ensures ReadRule(after, e, name).Some? ==> ReadRule(before, e, name).Some?
    {
      RemovalReads(lib, base, ov, merged, before, after, e, name);
    }
    forall toks: seq<Token>, i: nat | i < |toks|
      ensures MatchPhrase(after, e, toks, i) == MatchPhrase(before, e, toks, i)
    {
      SamePhrases(lib, base, before, merged, after, e, toks, i);
    }
  }

  /**
    Exactly when removing read rules loosens a verdict, on every statement and under any grants: the
    statement passes every check that is left; a removed keyword stands where a second statement
    could begin, or the leading keyword's rule now explains one; and before, that was one too many,
    or kept a call that asked in vain from being a WITH query's name.
   */
  lemma RemovalLoosensExactly(
    lib: Library, base: Ruleset, ov: Overlay, merged: Ruleset, before: Compiled, after: Compiled,
    e: Engine, statement: string, grants: seq<Grant>)
    requires Valid(lib, base) && OnlyRemovesReads(base, ov) && Merges(lib, base, ov, merged)
    requires IsCompiled(lib, base, before) && IsCompiled(lib, merged, after)
    ensures Looseness(Decide(Some(after), lib.lower, e, statement, grants).verdict) >
            Looseness(Decide(Some(before), lib.lower, e, statement, grants).verdict) <==>
              && Analysed(base, lib.lower, e, statement).Some?
              && Analysed(base, lib.lower, e, statement).value != []
              && Loosened(after, before, e, Analysed(base, lib.lower, e, statement).value, grants)
  {
    DecisionOf(before, lib.lower, e, statement, grants);
    DecisionOf(after, lib.lower, e, statement, grants);
    SameAnalysed(lib, base, ov, merged, before, after, e, statement);
    hide Valid, OnlyRemovesReads, Merges, IsCompiled, Decide, Analyse, Loosened, Analysed;
    var toks := Analysed(base, lib.lower, e, statement);
    if toks.Some? {
      AnalysedOn(base, lib.lower, e, statement);
      RemovalFewerReads(lib, base, ov, merged, before, after, e);
      AnalysisLoosensExactly(after, before, e, toks.value, grants);
    }
  }

  lemma SameAnalysed(
    lib: Library, base: Ruleset, ov: Overlay, merged: Ruleset, before: Compiled, after: Compiled, e: Engine,
    statement: string)
    requires Valid(lib, base) && OnlyRemovesReads(base, ov) && Merges(lib, base, ov, merged)
    requires IsCompiled(lib, base, before) && IsCompiled(lib, merged, after)
    ensures Analysed(before.source, lib.lower, e, statement) == Analysed(base, lib.lower, e, statement)
    ensures Analysed(after.source, lib.lower, e, statement) == Analysed(base, lib.lower, e, statement)
  {
    RemovalLeaves(lib, base, ov, merged);
    hide Tokenize, Valid, OnlyRemovesReads, Merges;
  }

  lemma AnalysedOn(rs: Ruleset, fold: Fold, e: Engine, statement: string)
    requires Analysed(rs, fold, e, statement).Some?
    ensures e in ENGINES && Analysed(rs, fold, e, statement).value != []
  {
    hide Lex;
  }

  /**
    What is enough: a statement no removed keyword of which stands where a second statement could
    begin, led by a keyword whose rule explains no more than it did, is decided no looser.
   */
  lemma UntouchedIsNoLooser(
    lib: Library, base: Ruleset, ov: Overlay, merged: Ruleset, before: Compiled, after: Compiled,
    e: Engine, statement: string, toks: seq<Token>, grants: seq<Grant>)
    requires Valid(lib, base) && OnlyRemovesReads(base, ov) && Merges(lib, base, ov, merged)
    requires IsCompiled(lib, base, before) && IsCompiled(lib, merged, after)
    requires Tokenize(e, lib.lower, statement) == Ok(toks)
    requires toks == [] || !Touched(after, before, e, toks)
    ensures Looseness(Decide(Some(after), lib.lower, e, statement, grants).verdict) <=
            Looseness(Decide(Some(before), lib.lower, e, statement, grants).verdict)
  {
    RemovalLoosensExactly(lib, base, ov, merged, before, after, e, statement, grants);
    hide Tokenize, Decide, Touched, Valid, OnlyRemovesReads, Merges, IsCompiled;
  }
}
