/**
  What an overlay does to the rules it is laid on, and to the statements those rules decide: which
  overlays are taken at all, what every list holds afterwards, and that what an overlay forbids is
  refused and what it spares stays refused.
 */
module GateMerging {
  import opened Wrappers
  import L = GateLexer
  import R = GateRules
  import A = GateAnalysis
  import P = GatePlain

  // ----- what is spared -----

  /** The rules none of the identifiers name, as they stood. */
  function Spared(rules: seq<R.Rule>, ids: seq<string>): seq<R.Rule> {
    if rules == [] then []
    else if rules[0].id in ids then Spared(rules[1..], ids)
    else [rules[0]] + Spared(rules[1..], ids)
  }

  function SparedNames(names: seq<string>, gone: seq<string>): seq<string> {
    if names == [] then []
    else if names[0] in gone then SparedNames(names[1..], gone)
    else [names[0]] + SparedNames(names[1..], gone)
  }

  /** Every allowance, without the names that are gone. */
  function SparedSafe(allowances: seq<R.FunctionAllowance>, gone: seq<string>): seq<R.FunctionAllowance> {
    seq(|allowances|, i requires 0 <= i < |allowances| =>
      R.FunctionAllowance(allowances[i].engines, SparedNames(allowances[i].names, gone), allowances[i].reason))
  }

  ghost predicate Distinct(s: seq<string>) {
    forall i, j :: 0 <= i < j < |s| ==> s[i] != s[j]
  }

  ghost predicate HasRule(base: R.Ruleset, id: string) {
    exists r: R.Rule :: r.id == id && (r in base.readStatements || r in base.forbiddenStatements || r in base.forbiddenFunctions)
  }

  ghost predicate HasName(allowances: seq<R.FunctionAllowance>, name: string) {
    exists a :: a in allowances && name in a.names
  }

  /** Each identifier to remove is of some rule and each name of some allowance, and none is given twice. */
  ghost predicate Removable(base: R.Ruleset, ov: R.Overlay) {
    && Distinct(ov.removeRules) && (forall id :: id in ov.removeRules ==> HasRule(base, id))
    && Distinct(ov.removeSafeFunctions)
    && (forall name :: name in ov.removeSafeFunctions ==> HasName(base.safeFunctions, name))
  }

  /** What is spared of the base, and after it everything the overlay has. */
  function Laid(base: R.Ruleset, ov: R.Overlay): R.Ruleset {
    R.Ruleset(
      base.version,
      base.notes + ov.notes,
      if ov.maxStatementBytes.Some? then ov.maxStatementBytes.value else base.maxStatementBytes,
      Spared(base.readStatements, ov.removeRules) + ov.readStatements,
      Spared(base.forbiddenStatements, ov.removeRules) + ov.forbiddenStatements,
      Spared(base.forbiddenFunctions, ov.removeRules) + ov.forbiddenFunctions,
      SparedSafe(base.safeFunctions, ov.removeSafeFunctions) + ov.safeFunctions,
      base.nonFunctionKeywords + ov.nonFunctionKeywords)
  }

  lemma {:induction false} SparedHas(rules: seq<R.Rule>, ids: seq<string>)
    ensures forall r :: r in Spared(rules, ids) <==> r in rules && r.id !in ids
  {
    if rules != [] {
      SparedHas(rules[1..], ids);
      assert rules == [rules[0]] + rules[1..];
    }
  }

  lemma {:induction false} SparedNamesHas(names: seq<string>, gone: seq<string>)
    ensures forall n :: n in SparedNames(names, gone) <==> n in names && n !in gone
  {
    if names != [] {
      SparedNamesHas(names[1..], gone);
      assert names == [names[0]] + names[1..];
    }
  }

  // ----- one removal after another -----

  lemma {:induction false} SparedOne(rules: seq<R.Rule>, ids: seq<string>, id: string)
    ensures R.Without(Spared(rules, ids), id) == Spared(rules, ids + [id])
  {
    if rules != [] {
      SparedOne(rules[1..], ids, id);
      var rest := Spared(rules[1..], ids);
      if rules[0].id !in ids {
        assert ([rules[0]] + rest)[1..] == rest;
      }
    }
  }

  lemma {:induction false} SparedNone(rules: seq<R.Rule>)
    ensures Spared(rules, []) == rules
  {
    if rules != [] {
      SparedNone(rules[1..]);
    }
  }

  lemma {:induction false} WithoutLength(rules: seq<R.Rule>, id: string)
    ensures |R.Without(rules, id)| <= |rules|
    ensures |R.Without(rules, id)| == |rules| <==> forall r :: r in rules ==> r.id != id
  {
    if rules != [] {
      WithoutLength(rules[1..], id);
      assert rules == [rules[0]] + rules[1..];
    }
  }

  function SparedRules(base: R.Ruleset, ids: seq<string>): R.Ruleset {
    base.(
      readStatements := Spared(base.readStatements, ids),
      forbiddenStatements := Spared(base.forbiddenStatements, ids),
      forbiddenFunctions := Spared(base.forbiddenFunctions, ids))
  }

  lemma DropOne(base: R.Ruleset, ids: seq<string>, id: string)
    ensures R.DropRule(SparedRules(base, ids), id) ==
              if HasRule(base, id) && id !in ids then Some(SparedRules(base, ids + [id])) else None
  {
    var rs := SparedRules(base, ids);
    SparedOne(base.readStatements, ids, id);
    SparedOne(base.forbiddenStatements, ids, id);
    SparedOne(base.forbiddenFunctions, ids, id);
    WithoutLength(rs.readStatements, id);
    WithoutLength(rs.forbiddenStatements, id);
    WithoutLength(rs.forbiddenFunctions, id);
    SparedHas(base.readStatements, ids);
    SparedHas(base.forbiddenStatements, ids);
    SparedHas(base.forbiddenFunctions, ids);
    hide Spared, R.Without;
  }

  lemma DistinctNext(s: seq<string>, x: string)
    ensures Distinct(s + [x]) <==> Distinct(s) && x !in s
  {
    var t := s + [x];
    if Distinct(t) {
      forall i, j | 0 <= i < j < |s|
        ensures s[i] != s[j]
      {
        assert t[i] != t[j];
      }
      forall i | 0 <= i < |s|
        ensures s[i] != x
      {
        assert t[i] != t[|s|];
      }
    }
  }

  lemma {:induction false} DropAll(base: R.Ruleset, ids: seq<string>)
    ensures R.DropRules(base, ids) ==
              if Distinct(ids) && (forall id :: id in ids ==> HasRule(base, id)) then Some(SparedRules(base, ids)) else None
  {
    if ids == [] {
      SparedNone(base.readStatements);
      SparedNone(base.forbiddenStatements);
      SparedNone(base.forbiddenFunctions);
    } else {
      var front, last := ids[..|ids| - 1], ids[|ids| - 1];
      DropAll(base, front);
      DistinctNext(front, last);
      DropOne(base, front, last);
      assert ids == front + [last];
      hide R.DropRule, HasRule, Distinct, SparedRules;
    }
  }

  lemma {:induction false} SparedNamesOne(names: seq<string>, gone: seq<string>, name: string)
    ensures R.WithoutName(SparedNames(names, gone), name) == SparedNames(names, gone + [name])
  {
    if names != [] {
      SparedNamesOne(names[1..], gone, name);
      var rest := SparedNames(names[1..], gone);
      if names[0] !in gone {
        assert ([names[0]] + rest)[1..] == rest;
      }
    }
  }

  lemma {:induction false} SparedNamesNone(names: seq<string>)
    ensures SparedNames(names, []) == names
  {
    if names != [] {
      SparedNamesNone(names[1..]);
    }
  }

  lemma DropSafeOne(allowances: seq<R.FunctionAllowance>, gone: seq<string>, name: string)
    ensures R.DropSafe(SparedSafe(allowances, gone), name) ==
              if HasName(allowances, name) && name !in gone then Some(SparedSafe(allowances, gone + [name])) else None
  {
    var safe := SparedSafe(allowances, gone);
    forall i | 0 <= i < |allowances|
      ensures R.WithoutName(safe[i].names, name) == SparedNames(allowances[i].names, gone + [name])
      ensures name in safe[i].names <==> name in allowances[i].names && name !in gone
    {
      SparedNamesOne(allowances[i].names, gone, name);
      SparedNamesHas(allowances[i].names, gone);
    }
    assert R.WithoutSafe(safe, name) == SparedSafe(allowances, gone + [name]);
    if HasName(allowances, name) && name !in gone {
      var i :| 0 <= i < |allowances| && name in allowances[i].names;
      assert safe[i] in safe;
    }
    if a :| a in safe && name in a.names {
      var i :| 0 <= i < |safe| && safe[i] == a;
      assert allowances[i] in allowances;
    }
  }

  lemma {:induction false} DropAllSafe(allowances: seq<R.FunctionAllowance>, names: seq<string>)
    ensures R.DropSafes(allowances, names) ==
              if Distinct(names) && (forall n :: n in names ==> HasName(allowances, n)) then Some(SparedSafe(allowances, names))
              else None
  {
    if names == [] {
      forall i | 0 <= i < |allowances|
        ensures SparedNames(allowances[i].names, []) == allowances[i].names
      {
        SparedNamesNone(allowances[i].names);
      }
      assert SparedSafe(allowances, []) == allowances;
    } else {
      var front, last := names[..|names| - 1], names[|names| - 1];
      DropAllSafe(allowances, front);
      DistinctNext(front, last);
      DropSafeOne(allowances, front, last);
      assert names == front + [last];
      hide R.DropSafe, HasName, Distinct, SparedSafe;
    }
  }

  // ----- the merge -----

  /**
    An overlay is taken exactly when it is of version 1, what it removes is there to remove, and the
    result passes validation; and the result is what it spares, with what it adds.
   */
  lemma MergeIsPlain(lib: R.Library, base: R.Ruleset, ov: R.Overlay, merged: R.Ruleset)
    ensures R.Merges(lib, base, ov, merged) <==>
              ov.version == 1 && Removable(base, ov) && merged == Laid(base, ov) && R.Valid(lib, merged)
  {
    DropAll(base, ov.removeRules);
    DropAllSafe(base.safeFunctions, ov.removeSafeFunctions);
    assert SparedRules(base, ov.removeRules).readStatements == Spared(base.readStatements, ov.removeRules);
    hide R.DropRules, R.DropSafes, R.Valid, Distinct, HasRule, HasName, Spared, SparedSafe;
  }

  /** What each list of the merged rules holds, list by list. */
  lemma MergedHolds(lib: R.Library, base: R.Ruleset, ov: R.Overlay, merged: R.Ruleset)
    requires R.Merges(lib, base, ov, merged)
    ensures forall r :: r in merged.readStatements <==>
              (r in base.readStatements && r.id !in ov.removeRules) || r in ov.readStatements
    ensures forall r :: r in merged.forbiddenStatements <==>
              (r in base.forbiddenStatements && r.id !in ov.removeRules) || r in ov.forbiddenStatements
    ensures forall r :: r in merged.forbiddenFunctions <==>
              (r in base.forbiddenFunctions && r.id !in ov.removeRules) || r in ov.forbiddenFunctions
    ensures forall k :: k in merged.nonFunctionKeywords <==> k in base.nonFunctionKeywords || k in ov.nonFunctionKeywords
    ensures merged.maxStatementBytes ==
              if ov.maxStatementBytes.Some? then ov.maxStatementBytes.value else base.maxStatementBytes
  {
    MergeIsPlain(lib, base, ov, merged);
    SparedHas(base.readStatements, ov.removeRules);
    SparedHas(base.forbiddenStatements, ov.removeRules);
    SparedHas(base.forbiddenFunctions, ov.removeRules);
    hide R.Merges, R.Valid, Removable, Spared, SparedSafe;
  }

  lemma SparedSafeHas(allowances: seq<R.FunctionAllowance>, gone: seq<string>, e: L.Engine, name: string)
    ensures (exists a :: a in SparedSafe(allowances, gone) && P.For(a.engines, e) && name in a.names) <==>
            (exists a :: a in allowances && P.For(a.engines, e) && name in a.names) && name !in gone
  {
    hide P.For;
    var spared := SparedSafe(allowances, gone);
    forall i | 0 <= i < |allowances|
      ensures name in spared[i].names <==> name in allowances[i].names && name !in gone
    {
      SparedNamesHas(allowances[i].names, gone);
    }
    if a :| a in allowances && P.For(a.engines, e) && name in a.names && name !in gone {
      var i :| 0 <= i < |allowances| && allowances[i] == a;
      assert spared[i] in spared;
    }
    if a :| a in spared && P.For(a.engines, e) && name in a.names {
      var i :| 0 <= i < |spared| && spared[i] == a;
      assert allowances[i] in allowances;
    }
  }

  /** Which names are safe on an engine, of the base's and of the overlay's. */
  lemma MergedSafe(lib: R.Library, base: R.Ruleset, ov: R.Overlay, merged: R.Ruleset, e: L.Engine, name: string)
    requires R.Merges(lib, base, ov, merged)
    ensures P.SafeName(merged, e, name) <==>
              || (P.SafeName(base, e, name) && name !in ov.removeSafeFunctions)
              || (exists a :: a in ov.safeFunctions && P.For(a.engines, e) && name in a.names)
  {
    MergeIsPlain(lib, base, ov, merged);
    SparedSafeHas(base.safeFunctions, ov.removeSafeFunctions, e, name);
    hide R.Merges, R.Valid, Removable, P.For, SparedSafe, Spared;
  }

  // ----- what statements come to -----

  /** A rule in force after a merge: spared of the base's, or one of the overlay's. */
  predicate InForce(r: R.Rule, base: seq<R.Rule>, removed: seq<string>, added: seq<R.Rule>) {
    (r in base && r.id !in removed) || r in added
  }

  /** A name at `i` is this function's, bare or dotted. */
  ghost predicate NamesIt(toks: P.Tokens, i: nat, name: string) {
    P.NameAt(toks, i) && (toks[i].lower == name || P.DottedAt(toks, i, name))
  }

  /** `i` reads out this phrase, and is not the name of a call the merged rules find safe. */
  ghost predicate SaysIt(lib: R.Library, merged: R.Ruleset, e: L.Engine, toks: P.Tokens, i: nat, phrase: string) {
    && P.WordAt(toks, i) && P.ReadsOut(toks, i, lib.fields(phrase))
    && forall q :: P.DottedAt(toks, i, q) ==> !P.SafeCallAt(merged, e, toks, i, q)
  }

  /** What the base forbids and the overlay spares, or the overlay forbids, by a function's name, is refused. */
  lemma ForbiddenFunctionsRefuse(
    lib: R.Library, base: R.Ruleset, ov: R.Overlay, merged: R.Ruleset, c: R.Compiled, e: L.Engine, statement: string,
    grants: seq<A.Grant>, r: R.Rule, i: nat)
    requires R.Merges(lib, base, ov, merged) && R.IsCompiled(lib, merged, c) && e in L.ENGINES
    requires InForce(r, base.forbiddenFunctions, ov.removeRules, ov.forbiddenFunctions) && P.For(r.engines, e)
    requires L.Tokenize(e, lib.lower, statement).Ok? && NamesIt(L.Tokenize(e, lib.lower, statement).value, i, r.pattern)
    ensures A.Decide(Some(c), lib.lower, e, statement, grants).verdict == A.Deny
  {
    MergedHolds(lib, base, ov, merged);
    var toks := L.Tokenize(e, lib.lower, statement).value;
    assert R.Valid(lib, merged);
    hide R.Merges, R.Valid, R.IsCompiled, L.Tokenize;
    P.DecisionIsPlain(lib, merged, c, e, statement, grants);
    hide A.Decide;
    FunctionOut(lib, merged, e, toks, i, r);
  }

  lemma FunctionOut(lib: R.Library, rs: R.Ruleset, e: L.Engine, toks: P.Tokens, i: nat, r: R.Rule)
    requires r in rs.forbiddenFunctions && P.For(r.engines, e) && NamesIt(toks, i, r.pattern)
    ensures !P.InOrder(lib, rs, e, toks)
  {
    assert P.BannedName(rs, e, r.pattern);
    var n := P.PartsAre(toks, i, 4);
    assert P.DottedAt(toks, i, P.Spelt(toks, i, n)) by {
      assert P.WholeChain(toks, i, n);
      hide P.Chain, P.Spelt;
    }
    hide P.DottedAt, P.BannedName, P.SignInOrder, P.PhraseInOrder, P.StartInOrder, P.LeaderAt, P.Open, P.For, P.Spelt, P.Chain,
      A.NameParts, R.Join;
    assert !P.NameInOrder(rs, e, toks, i);
  }

  /** And what either forbids by a phrase. */
  lemma ForbiddenStatementsRefuse(
    lib: R.Library, base: R.Ruleset, ov: R.Overlay, merged: R.Ruleset, c: R.Compiled, e: L.Engine, statement: string,
    grants: seq<A.Grant>, r: R.Rule, i: nat)
    requires R.Merges(lib, base, ov, merged) && R.IsCompiled(lib, merged, c) && e in L.ENGINES
    requires InForce(r, base.forbiddenStatements, ov.removeRules, ov.forbiddenStatements) && P.For(r.engines, e)
    requires L.Tokenize(e, lib.lower, statement).Ok?
    requires SaysIt(lib, merged, e, L.Tokenize(e, lib.lower, statement).value, i, r.pattern)
    ensures A.Decide(Some(c), lib.lower, e, statement, grants).verdict == A.Deny
  {
    MergedHolds(lib, base, ov, merged);
    var toks := L.Tokenize(e, lib.lower, statement).value;
    assert R.Valid(lib, merged);
    hide R.Merges, R.Valid, R.IsCompiled, L.Tokenize;
    P.DecisionIsPlain(lib, merged, c, e, statement, grants);
    hide A.Decide;
    PhraseOut(lib, merged, e, toks, i, r);
  }

  lemma PhraseOut(lib: R.Library, rs: R.Ruleset, e: L.Engine, toks: P.Tokens, i: nat, r: R.Rule)
    requires r in rs.forbiddenStatements && P.For(r.engines, e) && SaysIt(lib, rs, e, toks, i, r.pattern)
    ensures !P.InOrder(lib, rs, e, toks)
  {
    hide P.DottedAt, P.SafeCallAt, P.ReadsOut, P.SignInOrder, P.NameInOrder, P.StartInOrder, P.LeaderAt, P.Open, P.For;
    assert P.BannedPhrase(lib, rs, e, toks, i);
    assert !P.PhraseInOrder(lib, rs, e, toks, i);
  }

  /** A statement longer than the bound in force is refused, whichever gave it. */
  lemma BoundRefuses(
    lib: R.Library, base: R.Ruleset, ov: R.Overlay, merged: R.Ruleset, c: R.Compiled, e: L.Engine, statement: string,
    grants: seq<A.Grant>)
    requires R.Merges(lib, base, ov, merged) && R.IsCompiled(lib, merged, c)
    requires |statement| > if ov.maxStatementBytes.Some? then ov.maxStatementBytes.value else base.maxStatementBytes
    ensures A.Decide(Some(c), lib.lower, e, statement, grants).verdict == A.Deny
  {
    MergedHolds(lib, base, ov, merged);
    assert R.Valid(lib, merged);
    hide R.Merges, R.Valid, R.IsCompiled, L.Tokenize;
    P.DecisionIsPlain(lib, merged, c, e, statement, grants);
    hide A.Decide, P.InOrder;
  }

  /** A statement that is not refused begins with the word of a read rule that was spared, or added. */
  lemma OnlyReadersLead(
    lib: R.Library, base: R.Ruleset, ov: R.Overlay, merged: R.Ruleset, c: R.Compiled, e: L.Engine, statement: string,
    grants: seq<A.Grant>)
    requires R.Merges(lib, base, ov, merged) && R.IsCompiled(lib, merged, c) && e in L.ENGINES
    requires A.Decide(Some(c), lib.lower, e, statement, grants).verdict != A.Deny
    ensures L.Tokenize(e, lib.lower, statement).Ok? && |L.Tokenize(e, lib.lower, statement).value| > 0
    ensures exists r :: InForce(r, base.readStatements, ov.removeRules, ov.readStatements) && P.For(r.engines, e)
                        && P.SaysAt(L.Tokenize(e, lib.lower, statement).value, 0, r.pattern)
  {
    MergedHolds(lib, base, ov, merged);
    assert R.Valid(lib, merged);
    hide R.Merges, R.Valid, R.IsCompiled, L.Tokenize;
    P.DecisionIsPlain(lib, merged, c, e, statement, grants);
    hide A.Decide, P.For, P.SignInOrder, P.NameInOrder, P.PhraseInOrder, P.StartInOrder, P.Open;
    var toks := L.Tokenize(e, lib.lower, statement).value;
    assert P.LeaderAt(merged, e, toks, 0);
  }

  /** A call of a function either finds safe is never in question, unless the overlay takes the name back. */
  lemma SafeIsUnquestioned(
    lib: R.Library, base: R.Ruleset, ov: R.Overlay, merged: R.Ruleset, e: L.Engine, toks: P.Tokens, i: nat, q: string,
    name: string)
    requires R.Merges(lib, base, ov, merged) && NamesIt(toks, i, name)
    requires || (P.SafeName(base, e, name) && name !in ov.removeSafeFunctions)
             || (exists a :: a in ov.safeFunctions && P.For(a.engines, e) && name in a.names)
    ensures !P.Questioned(merged, e, toks, i, q)
  {
    MergedSafe(lib, base, ov, merged, e, name);
    hide R.Merges, P.SafeName, P.DottedAt, P.LeaderAt, P.QueryName;
    if P.DottedAt(toks, i, name) && P.DottedAt(toks, i, q) {
      P.DottedIs(toks, i, name);
      P.DottedIs(toks, i, q);
      hide A.QualifiedName;
    }
  }
}
