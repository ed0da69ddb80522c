/**
  Comparing two rulesets: when one refuses at least what the other refuses, no statement's
  verdict is looser under it.
 */
module GateTightening {
  import opened Wrappers
  import opened GateLexer
  import opened GateRules
  import opened GateRulesLoops
  import opened GateAnalysis
  import opened GateVerdicts
  import opened GatePhrases

  /** Verdicts from the strictest to the loosest. */
  function Looseness(v: Verdict): nat {
    match v
    case Deny => 0
    case NeedsApproval => 1
    case Allow => 2
  }

  ghost predicate SameReads(a: Compiled, b: Compiled, e: Engine) {
    && (forall name :: ReadRule(a, e, name) == ReadRule(b, e, name))
    && a.nonFunc == b.nonFunc
  }

  /** `strict` forbids every name and phrase that `loose` forbids, and finds no more calls safe. */
  ghost predicate NoLooser(strict: Compiled, loose: Compiled, e: Engine) {
    && SameReads(strict, loose, e)
    && (forall name :: Forbids(loose, e, name).Some? ==> Forbids(strict, e, name).Some?)
    && (forall name, qualified :: IsSafe(strict, e, name, qualified) ==> IsSafe(loose, e, name, qualified))
    && (forall toks: seq<Token>, i: nat :: i < |toks| && MatchPhrase(loose, e, toks, i).Some? ==>
          MatchPhrase(strict, e, toks, i).Some?)
  }

  lemma SamePlaces(a: Compiled, b: Compiled, e: Engine, toks: seq<Token>)
    requires SameReads(a, b, e)
    ensures forall i: nat :: Reads(a, e, toks, i) == Reads(b, e, toks, i)
    ensures forall i: nat :: Unaided(a, e, toks, i) == Unaided(b, e, toks, i)
    ensures forall i: nat :: AfterBody(a, e, toks, i) == AfterBody(b, e, toks, i)
  {
    hide AfterSetOperator, IsMark, ReadRule, DepthAt;
  }

  lemma SameOpen(a: Compiled, b: Compiled, e: Engine, toks: seq<Token>)
    requires SameReads(a, b, e)
    ensures forall i: nat :: WithOpen(a, e, toks, i) == WithOpen(b, e, toks, i)
    ensures forall i: nat :: WithBody(a, e, toks, i) == WithBody(b, e, toks, i)
    ensures forall i: nat :: BoundaryClear(a, e, toks, i) == BoundaryClear(b, e, toks, i)
  {
    SamePlaces(a, b, e, toks);
    hide Unaided, AfterBody, SameReads;
    forall i: nat
      ensures WithOpen(a, e, toks, i) == WithOpen(b, e, toks, i)
      ensures WithBody(a, e, toks, i) == WithBody(b, e, toks, i)
    {
      SameOpenAt(a, b, e, toks, i);
    }
    hide WithBody;
    forall i: nat
      ensures PrefixOpen(a, e, toks, i) == PrefixOpen(b, e, toks, i)
    {
      SamePrefixAt(a, b, e, toks, i);
    }
  }

  lemma SameOpenAt(a: Compiled, b: Compiled, e: Engine, toks: seq<Token>, i: nat)
    requires SameReads(a, b, e)
    ensures WithOpen(a, e, toks, i) == WithOpen(b, e, toks, i)
    ensures WithBody(a, e, toks, i) == WithBody(b, e, toks, i)
  {
    SamePlaces(a, b, e, toks);
    hide AfterBody;
  }

  lemma SamePrefixAt(a: Compiled, b: Compiled, e: Engine, toks: seq<Token>, i: nat)
    requires SameReads(a, b, e)
    ensures PrefixOpen(a, e, toks, i) == PrefixOpen(b, e, toks, i)
  {
    SamePlaces(a, b, e, toks);
    forall j: nat
      ensures WithBody(a, e, toks, j) == WithBody(b, e, toks, j)
    {
      SameOpenAt(a, b, e, toks, j);
    }
    hide Unaided, WithBody, ReadRule;
  }

  /** A token the stricter rules leave clear is clear under the looser ones; a call the looser ask about, both do. */
  lemma TokenNoLooser(strict: Compiled, loose: Compiled, e: Engine, toks: seq<Token>, i: nat)
    requires NoLooser(strict, loose, e) && i < |toks|
    ensures Clear(strict, e, toks, i) ==> Clear(loose, e, toks, i)
    ensures Asks(loose, e, toks, i) ==> Asks(strict, e, toks, i)
  {
    SamePlaces(strict, loose, e, toks);
    SameOpen(strict, loose, e, toks);
    hide BoundaryClear, Reads, WithOpen, QualifiedName, MatchPhrase, Forbids, IsSafe, MarkClear, IsCteName, DepthAt;
  }

  lemma AnalysisNoLooser(strict: Compiled, loose: Compiled, e: Engine, toks: seq<Token>, grants: seq<Grant>)
    requires NoLooser(strict, loose, e) && toks != []
    ensures Looseness(Analyse(strict, e, toks, grants).verdict) <= Looseness(Analyse(loose, e, toks, grants).verdict)
  {
    AllowExactly(strict, e, toks, grants);
    AllowExactly(loose, e, toks, grants);
    forall i: nat | i < |toks|
      ensures Clear(strict, e, toks, i) ==> Clear(loose, e, toks, i)
      ensures Asks(loose, e, toks, i) ==> Asks(strict, e, toks, i)
    {
      TokenNoLooser(strict, loose, e, toks, i);
    }
    hide Analyse, NoLooser, Clear, Asks, Granted;
  }

  lemma DecisionNoLooser(
    strict: Compiled, loose: Compiled, fold: Fold, e: Engine, statement: string, grants: seq<Grant>)
    requires NoLooser(strict, loose, e)
    requires strict.source.maxStatementBytes <= loose.source.maxStatementBytes
    ensures Looseness(Decide(Some(strict), fold, e, statement, grants).verdict) <=
            Looseness(Decide(Some(loose), fold, e, statement, grants).verdict)
  {
    hide Tokenize, Analyse, NoLooser;
    if Tokenize(e, fold, statement).Ok? && Tokenize(e, fold, statement).value != [] {
      AnalysisNoLooser(strict, loose, e, Tokenize(e, fold, statement).value, grants);
    }
  }

  // ----- from rulesets to their compiled forms -----

  lemma {:induction false} IndexKeys(rules: seq<Rule>, e: Engine)
    ensures forall name :: name in IndexFor(rules, e) <==>
                             exists r :: r in rules && RuleApplies(r, e) && r.pattern == name
    ensures forall name :: name in IndexFor(rules, e) ==>
              var r := IndexFor(rules, e)[name]; r in rules && RuleApplies(r, e) && r.pattern == name
  {
    hide RuleApplies;
    if rules != [] {
      var n := |rules| - 1;
      IndexKeys(rules[..n], e);
      assert rules == rules[..n] + [rules[n]];
    }
  }

  lemma CompiledForbids(lib: Library, rs: Ruleset, c: Compiled, e: Engine, name: string)
    requires IsCompiled(lib, rs, c) && e in ENGINES
    ensures Forbids(c, e, name).Some? <==>
              exists r :: r in rs.forbiddenFunctions && RuleApplies(r, e) && r.pattern == name
  {
    IndexKeys(rs.forbiddenFunctions, e);
  }

  /** Rules of one kind, where no two that apply to an engine match the same keyword. */
  ghost predicate UniqueReads(rules: seq<Rule>) {
    forall r, s, e ::
      (r in rules && s in rules && e in ENGINES && RuleApplies(r, e) && RuleApplies(s, e) && r.pattern == s.pattern)
      ==> r == s
  }

  lemma SameReadRule(lib: Library, a: Ruleset, ca: Compiled, b: Ruleset, cb: Compiled, e: Engine, name: string)
    requires IsCompiled(lib, a, ca) && IsCompiled(lib, b, cb) && e in ENGINES
    requires UniqueReads(a.readStatements)
    requires forall r :: r in a.readStatements <==> r in b.readStatements
    ensures ReadRule(ca, e, name) == ReadRule(cb, e, name)
  {
    IndexKeys(a.readStatements, e);
    IndexKeys(b.readStatements, e);
    hide RuleApplies;
  }

  /** One ruleset holds at least the other's prohibitions and at most its allowances. */
  ghost predicate Tighter(strict: Ruleset, loose: Ruleset) {
    && (forall r :: r in loose.forbiddenStatements ==> r in strict.forbiddenStatements)
    && (forall r :: r in loose.forbiddenFunctions ==> r in strict.forbiddenFunctions)
    && (forall e :: e in ENGINES ==> SafeNames(strict.safeFunctions, e) <= SafeNames(loose.safeFunctions, e))
    && (forall k :: k in strict.nonFunctionKeywords <==> k in loose.nonFunctionKeywords)
    && strict.maxStatementBytes <= loose.maxStatementBytes
  }

  lemma CompiledNoLooser(lib: Library, strict: Ruleset, cs: Compiled, loose: Ruleset, cl: Compiled, e: Engine)
    requires Valid(lib, strict) && Valid(lib, loose) && IsCompiled(lib, strict, cs) && IsCompiled(lib, loose, cl)
    requires e in ENGINES && Tighter(strict, loose)
    requires forall name :: ReadRule(cs, e, name) == ReadRule(cl, e, name)
    ensures NoLooser(cs, cl, e)
  {
    ValidCompiles(lib, strict);
    ValidCompiles(lib, loose);
    SafeNoLooser(lib, strict, cs, loose, cl, e);
    assert cs.nonFunc == cl.nonFunc;
    hide Valid, ReadRule, IsSafe, IsCompiled, SafeNames;
    forall name | Forbids(cl, e, name).Some?
      ensures Forbids(cs, e, name).Some?
    {
      hide Forbids;
      CompiledForbids(lib, loose, cl, e, name);
      CompiledForbids(lib, strict, cs, e, name);
    }
    forall toks: seq<Token>, i: nat | i < |toks| && MatchPhrase(cl, e, toks, i).Some?
      ensures MatchPhrase(cs, e, toks, i).Some?
    {
      hide MatchPhrase, Fits;
      MatchExists(lib, loose, cl, e, toks, i);
      MatchExists(lib, strict, cs, e, toks, i);
    }
    hide Forbids, MatchPhrase;
  }

  lemma SafeNoLooser(lib: Library, strict: Ruleset, cs: Compiled, loose: Ruleset, cl: Compiled, e: Engine)
    requires IsCompiled(lib, strict, cs) && IsCompiled(lib, loose, cl) && e in ENGINES
    requires SafeNames(strict.safeFunctions, e) <= SafeNames(loose.safeFunctions, e)
    ensures forall name, qualified :: IsSafe(cs, e, name, qualified) ==> IsSafe(cl, e, name, qualified)
  {
    hide SafeNames;
  }

  // ----- tightening overlays -----

  /** An overlay that only forbids more, removes safe functions, or lowers the bound. */
  ghost predicate Tightens(base: Ruleset, ov: Overlay) {
    && ov.removeRules == [] && ov.readStatements == [] && ov.safeFunctions == [] && ov.nonFunctionKeywords == []
    && (ov.maxStatementBytes.Some? ==> ov.maxStatementBytes.value <= base.maxStatementBytes)
  }

  lemma {:induction false} WithoutNameIn(names: seq<string>, name: string)
    ensures forall n :: n in WithoutName(names, name) ==> n in names
  {
    if names != [] {
      WithoutNameIn(names[1..], name);
      assert names == [names[0]] + names[1..];
    }
  }

  lemma WithoutSafeNames(allowances: seq<FunctionAllowance>, name: string, e: Engine)
    ensures SafeNames(WithoutSafe(allowances, name), e) <= SafeNames(allowances, e)
  {
    forall n | n in SafeNames(WithoutSafe(allowances, name), e)
      ensures n in SafeNames(allowances, e)
    {
      var k :| 0 <= k < |allowances| && Scoped(allowances[k].engines, e)
               && n in WithoutName(allowances[k].names, name);
      WithoutNameIn(allowances[k].names, name);
    }
  }

  lemma {:induction false} DropSafesNames(allowances: seq<FunctionAllowance>, names: seq<string>, e: Engine)
    requires DropSafes(allowances, names).Some?
    ensures SafeNames(DropSafes(allowances, names).value, e) <= SafeNames(allowances, e)
  {
    if names != [] {
      var n := |names| - 1;
      DropSafesNames(allowances, names[..n], e);
      WithoutSafeNames(DropSafes(allowances, names[..n]).value, names[n], e);
    }
  }

  lemma TighteningIsTighter(lib: Library, base: Ruleset, ov: Overlay, merged: Ruleset)
    requires Tightens(base, ov) && Merges(lib, base, ov, merged)
    ensures Tighter(merged, base) && merged.readStatements == base.readStatements
  {
    hide Valid;
    assert DropRules(base, []) == Some(base);
    var safe := DropSafes(base.safeFunctions, ov.removeSafeFunctions).value;
    assert safe + [] == safe;
    assert base.readStatements + [] == base.readStatements;
    forall e | e in ENGINES
      ensures SafeNames(merged.safeFunctions, e) <= SafeNames(base.safeFunctions, e)
    {
      DropSafesNames(base.safeFunctions, ov.removeSafeFunctions, e);
    }
  }

  lemma SameReadIndex(lib: Library, a: Ruleset, ca: Compiled, b: Ruleset, cb: Compiled, e: Engine)
    requires IsCompiled(lib, a, ca) && IsCompiled(lib, b, cb) && e in ENGINES
    requires a.readStatements == b.readStatements
    ensures forall name :: ReadRule(ca, e, name) == ReadRule(cb, e, name)
  {
  }

  lemma BoundsOf(lib: Library, strict: Ruleset, cs: Compiled, loose: Ruleset, cl: Compiled)
    requires IsCompiled(lib, strict, cs) && IsCompiled(lib, loose, cl) && Tighter(strict, loose)
    ensures cs.source.maxStatementBytes <= cl.source.maxStatementBytes
  {
  }

  /**
    Tightening is monotone: under an overlay that only tightens and that merges, no statement's
    verdict is looser than it was, whatever is granted.
   */
  lemma TighteningIsMonotone(
    lib: Library, base: Ruleset, ov: Overlay, merged: Ruleset, before: Compiled, after: Compiled,
    e: Engine, statement: string, grants: seq<Grant>)
    requires Valid(lib, base) && Tightens(base, ov) && Merges(lib, base, ov, merged)
    requires IsCompiled(lib, base, before) && IsCompiled(lib, merged, after)
    ensures Looseness(Decide(Some(after), lib.lower, e, statement, grants).verdict) <=
            Looseness(Decide(Some(before), lib.lower, e, statement, grants).verdict)
  {
    TighteningIsTighter(lib, base, ov, merged);
    if e in ENGINES {
      hide Valid, Decide, Tightens, Tighter, NoLooser;
      SameReadIndex(lib, base, before, merged, after, e);
      BoundsOf(lib, merged, after, base, before);
      hide IsCompiled, ReadRule;
      CompiledNoLooser(lib, merged, after, base, before, e);
      DecisionNoLooser(after, before, lib.lower, e, statement, grants);
    } else {
      assert DialectOf(e).None?;
    }
  }
}
