/**
  What an overlay is reported to change: rule by rule and name by name, exactly what it changes.
 */
module GateDiff {
  import opened Wrappers
  import L = GateLexer
  import R = GateRules
  import O = GateOverlay
  import P = GatePlain
  import G = GateMerging

  /** A rule of the ruleset, in the list its kind says. */
  predicate Has(rs: R.Ruleset, k: O.KindedRule) {
    match k.kind
    case ReadKind => k.rule in rs.readStatements
    case StatementKind => k.rule in rs.forbiddenStatements
    case FunctionKind => k.rule in rs.forbiddenFunctions
  }

  /** A rule the overlay brings. */
  predicate Brings(ov: R.Overlay, k: O.KindedRule) {
    match k.kind
    case ReadKind => k.rule in ov.readStatements
    case StatementKind => k.rule in ov.forbiddenStatements
    case FunctionKind => k.rule in ov.forbiddenFunctions
  }

  ghost predicate HasId(rs: R.Ruleset, id: string) {
    exists k :: Has(rs, k) && k.rule.id == id
  }

  ghost predicate BringsId(ov: R.Overlay, id: string) {
    exists k :: Brings(ov, k) && k.rule.id == id
  }

  /** Under its identifier, this rule. */
  predicate At(m: map<string, O.KindedRule>, k: O.KindedRule) {
    k.rule.id in m && m[k.rule.id] == k
  }

  predicate Swapped(m: map<string, (O.KindedRule, O.KindedRule)>, was: O.KindedRule, now: O.KindedRule) {
    was.rule.id == now.rule.id && was.rule.id in m && m[was.rule.id] == (was, now)
  }

  predicate NamedAt(m: map<L.Engine, set<string>>, e: L.Engine, name: string) {
    e in m && name in m[e]
  }

  lemma IndexIs(rs: R.Ruleset)
    requires R.UniqueIds(R.AllRules(rs))
    ensures var m := O.ById(O.Kinded(rs));
      && (forall k :: At(m, k) <==> Has(rs, k))
      && (forall id :: id in m <==> HasId(rs, id))
      && (forall id :: id in m ==> m[id].rule.id == id)
  {
    O.KindedUnique(rs);
    O.ByIdIs(O.Kinded(rs));
    O.ByIdKeys(O.Kinded(rs));
    forall k
      ensures k in O.Kinded(rs) <==> Has(rs, k)
    {
      O.KindedIn(rs, k);
    }
    hide O.Kinded, O.ById, O.UniqueKinded, R.AllRules, R.UniqueIds, Has;
    var m := O.ById(O.Kinded(rs));
    forall id
      ensures id in m <==> HasId(rs, id)
    {
      if id in m {
        assert At(m, m[id]);
      }
    }
  }

  lemma SafeIs(rs: R.Ruleset, e: L.Engine, name: string)
    ensures e in L.ENGINES ==> (name in R.SafeNames(rs.safeFunctions, e) <==> P.SafeName(rs, e, name))
  {
    assert forall a :: P.For(a, e) == R.Scoped(a, e);
    hide P.For, R.Scoped;
  }

  lemma NamesMissing(a: R.Ruleset, b: R.Ruleset, e: L.Engine, name: string)
    ensures NamedAt(O.MissingFrom(O.SafeNamesOf(a), O.SafeNamesOf(b)), e, name) <==>
              e in L.ENGINES && P.SafeName(b, e, name) && !P.SafeName(a, e, name)
  {
    if e in L.ENGINES {
      SafeIs(a, e, name);
      SafeIs(b, e, name);
      hide P.SafeName, R.SafeNames;
      var was, now := R.SafeNames(a.safeFunctions, e), R.SafeNames(b.safeFunctions, e);
      assert name in now - was <==> name in now && name !in was;
    }
  }

  lemma RulesDiffer(lib: R.Library, a: R.Ruleset, b: R.Ruleset, d: O.RulesetDiff)
    requires R.Valid(lib, a) && R.Valid(lib, b) && O.IsDiff(a, b, d)
    ensures forall k :: At(d.rulesAdded, k) <==> Has(b, k) && !HasId(a, k.rule.id)
    ensures forall k :: At(d.rulesRemoved, k) <==> Has(a, k) && !HasId(b, k.rule.id)
    ensures forall k, m :: Swapped(d.rulesReplaced, k, m) <==> Has(a, k) && Has(b, m) && k.rule.id == m.rule.id && k != m
    ensures forall id :: (id in d.rulesAdded ==> d.rulesAdded[id].rule.id == id)
                         && (id in d.rulesRemoved ==> d.rulesRemoved[id].rule.id == id)
  {
    IndexIs(a);
    IndexIs(b);
    hide R.Valid, Has, HasId, O.Kinded, O.ById, P.SafeName, O.MissingFrom, O.SafeNamesOf;
  }

  /** The differences of two valid rulesets. */
  lemma DifferencesAre(lib: R.Library, a: R.Ruleset, b: R.Ruleset, d: O.RulesetDiff)
    requires R.Valid(lib, a) && R.Valid(lib, b) && O.IsDiff(a, b, d)
    ensures forall k :: At(d.rulesAdded, k) <==> Has(b, k) && !HasId(a, k.rule.id)
    ensures forall k :: At(d.rulesRemoved, k) <==> Has(a, k) && !HasId(b, k.rule.id)
    ensures forall k, m :: Swapped(d.rulesReplaced, k, m) <==> Has(a, k) && Has(b, m) && k.rule.id == m.rule.id && k != m
    ensures forall id :: (id in d.rulesAdded ==> d.rulesAdded[id].rule.id == id)
                         && (id in d.rulesRemoved ==> d.rulesRemoved[id].rule.id == id)
    ensures forall e, name :: NamedAt(d.safeFunctionsAdded, e, name) <==>
                                e in L.ENGINES && P.SafeName(b, e, name) && !P.SafeName(a, e, name)
    ensures forall e, name :: NamedAt(d.safeFunctionsRemoved, e, name) <==>
                                e in L.ENGINES && P.SafeName(a, e, name) && !P.SafeName(b, e, name)
    ensures forall k :: k in d.nonFunctionKeywordsAdded <==> k in b.nonFunctionKeywords && k !in a.nonFunctionKeywords
    ensures d.maxStatementBytes ==
              if a.maxStatementBytes == b.maxStatementBytes then None else Some((a.maxStatementBytes, b.maxStatementBytes))
  {
    RulesDiffer(lib, a, b, d);
    hide R.Valid, At, Swapped, Has, HasId, O.Kinded, O.ById, P.SafeName, O.MissingFrom, O.SafeNamesOf, NamedAt;
    forall e, name
      ensures NamedAt(d.safeFunctionsAdded, e, name) <==>
                e in L.ENGINES && P.SafeName(b, e, name) && !P.SafeName(a, e, name)
      ensures NamedAt(d.safeFunctionsRemoved, e, name) <==>
                e in L.ENGINES && P.SafeName(a, e, name) && !P.SafeName(b, e, name)
    {
      NamesMissing(a, b, e, name);
      NamesMissing(b, a, e, name);
    }
  }

  lemma MergedHas(lib: R.Library, base: R.Ruleset, ov: R.Overlay, merged: R.Ruleset, k: O.KindedRule)
    requires R.Merges(lib, base, ov, merged)
    ensures Has(merged, k) <==> (Has(base, k) && k.rule.id !in ov.removeRules) || Brings(ov, k)
  {
    G.MergedHolds(lib, base, ov, merged);
    hide R.Merges;
  }

  /** One rule to an identifier. */
  lemma OneToAnId(lib: R.Library, rs: R.Ruleset, k: O.KindedRule, m: O.KindedRule)
    requires R.Valid(lib, rs) && Has(rs, k) && Has(rs, m) && k.rule.id == m.rule.id
    ensures k == m
  {
    IndexIs(rs);
    hide R.Valid, Has, O.Kinded, O.ById;
    assert At(O.ById(O.Kinded(rs)), k) && At(O.ById(O.Kinded(rs)), m);
  }

  /**
    Of an overlay that merges the report lists as added what it brings under a new identifier, as
    removed what it removes and does not bring back, and as replaced what it removes and brings back
    otherwise; and of the safe names on each engine, what it adds and what it takes away.
   */
  lemma DiffOfOverlay(lib: R.Library, base: R.Ruleset, ov: R.Overlay, merged: R.Ruleset, d: O.RulesetDiff)
    requires R.Valid(lib, base) && R.Merges(lib, base, ov, merged) && O.IsDiff(base, merged, d)
    ensures forall k :: At(d.rulesAdded, k) <==> Brings(ov, k) && !HasId(base, k.rule.id)
    ensures forall k :: At(d.rulesRemoved, k) <==>
                          Has(base, k) && k.rule.id in ov.removeRules && !BringsId(ov, k.rule.id)
    ensures forall k, m :: Swapped(d.rulesReplaced, k, m) <==>
                             && Has(base, k) && k.rule.id in ov.removeRules && Brings(ov, m)
                             && k.rule.id == m.rule.id && k != m
  {
    hide *;
    IsValid(lib, base, ov, merged);
    RulesDiffer(lib, base, merged, d);
    forall k
      ensures Has(merged, k) <==> (Has(base, k) && k.rule.id !in ov.removeRules) || Brings(ov, k)
    {
      MergedHas(lib, base, ov, merged, k);
    }
    forall k
      ensures At(d.rulesAdded, k) <==> Brings(ov, k) && !HasId(base, k.rule.id)
      ensures At(d.rulesRemoved, k) <==> Has(base, k) && k.rule.id in ov.removeRules && !BringsId(ov, k.rule.id)
    {
      InBase(base, k);
      Removed(lib, base, ov, merged, k);
    }
    forall k: O.KindedRule, m: O.KindedRule
      ensures Swapped(d.rulesReplaced, k, m) <==>
                && Has(base, k) && k.rule.id in ov.removeRules && Brings(ov, m)
                && k.rule.id == m.rule.id && k != m
    {
      if Has(base, k) && Has(merged, m) && k.rule.id == m.rule.id && k != m {
        Replaced(lib, base, ov, merged, k, m);
      }
    }
  }

  lemma IsValid(lib: R.Library, base: R.Ruleset, ov: R.Overlay, merged: R.Ruleset)
    requires R.Merges(lib, base, ov, merged)
    ensures R.Valid(lib, merged)
  {
    hide R.Valid;
  }

  lemma InBase(base: R.Ruleset, k: O.KindedRule)
    ensures Has(base, k) ==> HasId(base, k.rule.id)
  {
    hide Has;
  }

  lemma Removed(lib: R.Library, base: R.Ruleset, ov: R.Overlay, merged: R.Ruleset, k: O.KindedRule)
    requires R.Valid(lib, base)
    requires forall m :: Has(merged, m) <==> (Has(base, m) && m.rule.id !in ov.removeRules) || Brings(ov, m)
    ensures Has(base, k) && !HasId(merged, k.rule.id) <==>
              Has(base, k) && k.rule.id in ov.removeRules && !BringsId(ov, k.rule.id)
  {
    if Has(base, k) && k.rule.id in ov.removeRules && !BringsId(ov, k.rule.id) {
      GoneForGood(lib, base, ov, merged, k);
    }
    hide R.Valid, Has, Brings;
  }

  lemma GoneForGood(lib: R.Library, base: R.Ruleset, ov: R.Overlay, merged: R.Ruleset, k: O.KindedRule)
    requires R.Valid(lib, base) && Has(base, k) && k.rule.id in ov.removeRules && !BringsId(ov, k.rule.id)
    requires forall m :: Has(merged, m) <==> (Has(base, m) && m.rule.id !in ov.removeRules) || Brings(ov, m)
    ensures !HasId(merged, k.rule.id)
  {
    hide R.Valid, Has, Brings;
  }

  lemma Replaced(lib: R.Library, base: R.Ruleset, ov: R.Overlay, merged: R.Ruleset, k: O.KindedRule, m: O.KindedRule)
    requires R.Valid(lib, base) && R.Valid(lib, merged)
    requires k.rule.id == m.rule.id && k != m && Has(base, k) && Has(merged, m)
    requires forall x :: Has(merged, x) <==> (Has(base, x) && x.rule.id !in ov.removeRules) || Brings(ov, x)
    ensures k.rule.id in ov.removeRules && Brings(ov, m)
  {
    hide R.Valid, Has, Brings;
    if k.rule.id !in ov.removeRules {
      OneToAnId(lib, merged, k, m);
    } else if !Brings(ov, m) {
      OneToAnId(lib, base, k, m);
    }
  }
}
