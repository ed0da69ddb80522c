/** Validating, merging and compiling a ruleset, as the loops that do it. */
module GateRulesLoops {
  import opened Wrappers
  import opened GateLexer
  import opened GateRules

  lemma TakeOneMore<T>(s: seq<T>, i: nat)
    requires i < |s|
    ensures s[..i + 1] == s[..i] + [s[i]]
    ensures s[..i + 1][..i] == s[..i]
  {
  }

  method CheckRules(lib: Library, rules: seq<Rule>, seen: set<string>) returns (ok: bool, ids: set<string>)
    ensures ok ==> ids == seen + (set r | r in rules :: r.id)
    ensures ok <==>
              && (forall r :: r in rules ==> RuleOk(lib, r) && r.id !in seen)
              && UniqueIds(rules)
  {
    ids := seen;
    for i := 0 to |rules|
      invariant ids == seen + (set r | r in rules[..i] :: r.id)
      invariant forall r :: r in rules[..i] ==> RuleOk(lib, r) && r.id !in seen
      invariant UniqueIds(rules[..i])
    {
      var r := rules[i];
      TakeOneMore(rules, i);
      if !RuleOk(lib, r) {
        return false, ids;
      }
      if r.id in ids {
        if r.id !in seen {
          var k :| 0 <= k < i && rules[k].id == r.id;
          assert !UniqueIds(rules);
        }
        return false, ids;
      }
      ids := ids + {r.id};
    }
    assert rules[..|rules|] == rules;
    ok := true;
  }

  method CheckClashes(readers: seq<Rule>, forbidden: seq<Rule>) returns (ok: bool)
    ensures ok <==> forall r, f :: r in readers && f in forbidden ==> !Clash(r, f)
  {
    for i := 0 to |readers|
      invariant forall k, f :: 0 <= k < i && f in forbidden ==> !Clash(readers[k], f)
    {
      for j := 0 to |forbidden|
        invariant forall k :: 0 <= k < j ==> !Clash(readers[i], forbidden[k])
      {
        if Overlaps(readers[i].engines, forbidden[j].engines) && readers[i].pattern == forbidden[j].pattern {
          assert readers[i] in readers && forbidden[j] in forbidden;
          return false;
        }
      }
    }
    ok := true;
  }

  /** Whether two scopes share an engine, as the source looks for it. */
  function Overlaps(a: seq<Engine>, b: seq<Engine>): (r: bool)
    ensures r <==> EnginesOverlap(a, b)
  {
    a == [] || b == [] || exists e | e in a :: e in b
  }

  method CheckAllowances(lib: Library, allowances: seq<FunctionAllowance>)
    returns (ok: bool, scopes: map<string, seq<Engine>>)
    ensures ok <==> forall a :: a in allowances ==> AllowanceOk(lib, a)
    ensures ok ==> scopes == SafeScopes(allowances)
  {
    scopes := map[];
    for i := 0 to |allowances|
      invariant forall a :: a in allowances[..i] ==> AllowanceOk(lib, a)
      invariant scopes == SafeScopes(allowances[..i])
    {
      var a := allowances[i];
      TakeOneMore(allowances, i);
      if exists e | e in a.engines :: e.Unsupported? {
        assert a in allowances && !AllowanceOk(lib, a);
        return false, scopes;
      }
      ghost var before := scopes;
      for j := 0 to |a.names|
        invariant forall n :: n in a.names[..j] ==> NameOk(lib, n)
        invariant scopes == ScopeNames(before, a.names[..j], a.engines)
      {
        TakeOneMore(a.names, j);
        if !NameOk(lib, a.names[j]) {
          assert a in allowances && a.names[j] in a.names && !AllowanceOk(lib, a);
          return false, scopes;
        }
        scopes := Scope(scopes, a.names[j], a.engines);
      }
      assert a.names[..|a.names|] == a.names;
    }
    assert allowances[..|allowances|] == allowances;
    ok := true;
  }

  method CheckCollisions(lib: Library, rs: Ruleset, scopes: map<string, seq<Engine>>) returns (ok: bool)
    ensures ok <==>
              && (forall r :: r in rs.forbiddenFunctions ==> r.pattern !in scopes)
              && (forall r :: r in rs.forbiddenStatements ==> CollisionOk(lib, scopes, r))
  {
    for i := 0 to |rs.forbiddenFunctions|
      invariant forall r :: r in rs.forbiddenFunctions[..i] ==> r.pattern !in scopes
    {
      TakeOneMore(rs.forbiddenFunctions, i);
      if rs.forbiddenFunctions[i].pattern in scopes {
        return false;
      }
    }
    assert rs.forbiddenFunctions[..|rs.forbiddenFunctions|] == rs.forbiddenFunctions;
    for i := 0 to |rs.forbiddenStatements|
      invariant forall r :: r in rs.forbiddenStatements[..i] ==> CollisionOk(lib, scopes, r)
    {
      var r := rs.forbiddenStatements[i];
      TakeOneMore(rs.forbiddenStatements, i);
      if r.pattern in scopes && !Declares(lib, r) && Overlaps(scopes[r.pattern], r.engines) {
        assert !CollisionOk(lib, scopes, r);
        return false;
      }
    }
    assert rs.forbiddenStatements[..|rs.forbiddenStatements|] == rs.forbiddenStatements;
    ok := true;
  }

  lemma UniqueAcross(a: seq<Rule>, b: seq<Rule>)
    ensures UniqueIds(a + b) <==>
              UniqueIds(a) && UniqueIds(b) && forall r, s :: r in a && s in b ==> r.id != s.id
  {
    if UniqueIds(a + b) {
      assert forall i :: 0 <= i < |a| ==> (a + b)[i] == a[i];
      assert forall i :: 0 <= i < |b| ==> (a + b)[|a| + i] == b[i];
      forall r, s | r in a && s in b
        ensures r.id != s.id
      {
        var i :| 0 <= i < |a| && a[i] == r;
        var j :| 0 <= j < |b| && b[j] == s;
        assert (a + b)[i].id != (a + b)[|a| + j].id;
      }
    }
  }

  /** Holds a ruleset to every one of its rules. */
  method Validate(lib: Library, rs: Ruleset) returns (ok: bool)
    ensures ok <==> Valid(lib, rs)
  {
    hide RuleOk, NameOk, AllowanceOk, CollisionOk, Clash, SafeScopes, UniqueIds;
    if rs.version != RULESET_VERSION || rs.maxStatementBytes < MIN_STATEMENT_BYTES {
      return false;
    }
    if rs.readStatements == [] || rs.forbiddenStatements == [] {
      return false;
    }
    UniqueAcross(rs.readStatements + rs.forbiddenStatements, rs.forbiddenFunctions);
    UniqueAcross(rs.readStatements, rs.forbiddenStatements);
    var ids;
    ok, ids := CheckRules(lib, rs.readStatements, {});
    if !ok { return; }
    ok, ids := CheckRules(lib, rs.forbiddenStatements, ids);
    if !ok { return; }
    ok, ids := CheckRules(lib, rs.forbiddenFunctions, ids);
    if !ok { return; }
    if !(forall r | r in rs.readStatements :: ReadOk(lib, r)) { return false; }
    if !(forall r | r in rs.forbiddenStatements :: StatementOk(lib, r)) { return false; }
    if !(forall r | r in rs.forbiddenFunctions :: FunctionOk(lib, r)) { return false; }
    ok := CheckClashes(rs.readStatements, rs.forbiddenStatements);
    if !ok { return; }
    var scopes;
    ok, scopes := CheckAllowances(lib, rs.safeFunctions);
    if !ok { return; }
    ok := CheckCollisions(lib, rs, scopes);
    if !ok { return; }
    ok := forall k | k in rs.nonFunctionKeywords :: NameOk(lib, k);
  }

  // ----- merging -----

  /** A copy of the base with the overlay applied, or nothing when the overlay or the result is refused. */
  method Merge(lib: Library, base: Ruleset, ov: Overlay) returns (merged: Option<Ruleset>)
    ensures merged.Some? ==> Merges(lib, base, ov, merged.value)
    ensures merged.None? ==> forall rs :: !Merges(lib, base, ov, rs)
  {
    hide Valid;
    if ov.version != RULESET_VERSION {
      return None;
    }
    var out := RemoveRules(base, ov.removeRules);
    if out == None {
      return None;
    }
    var safe := RemoveSafe(base.safeFunctions, ov.removeSafeFunctions);
    if safe == None {
      return None;
    }
    var bound := base.maxStatementBytes;
    if ov.maxStatementBytes.Some? {
      bound := ov.maxStatementBytes.value;
    }
    var rs := Ruleset(
      base.version, base.notes + ov.notes, bound,
      out.value.readStatements + ov.readStatements,
      out.value.forbiddenStatements + ov.forbiddenStatements,
      out.value.forbiddenFunctions + ov.forbiddenFunctions,
      safe.value + ov.safeFunctions,
      base.nonFunctionKeywords + ov.nonFunctionKeywords);
    var ok := Validate(lib, rs);
    merged := if ok then Some(rs) else None;
  }

  method RemoveRules(base: Ruleset, ids: seq<string>) returns (out: Option<Ruleset>)
    ensures out == DropRules(base, ids)
  {
    var rs := base;
    for i := 0 to |ids|
      invariant DropRules(base, ids[..i]) == Some(rs)
    {
      hide DropRule;
      TakeOneMore(ids, i);
      var dropped := DropRule(rs, ids[i]);
      if dropped == None {
        DropRulesFails(base, ids, i + 1);
        return None;
      }
      rs := dropped.value;
    }
    assert ids[..|ids|] == ids;
    out := Some(rs);
  }

  lemma {:induction false} DropRulesFails(base: Ruleset, ids: seq<string>, i: nat)
    requires i <= |ids| && DropRules(base, ids[..i]) == None
    ensures DropRules(base, ids) == None
    decreases |ids| - i
  {
    hide DropRule;
    if i == |ids| {
      assert ids[..i] == ids;
    } else {
      TakeOneMore(ids, i);
      DropRulesFails(base, ids, i + 1);
    }
  }

  method RemoveSafe(allowances: seq<FunctionAllowance>, names: seq<string>)
    returns (out: Option<seq<FunctionAllowance>>)
    ensures out == DropSafes(allowances, names)
  {
    var safe := allowances;
    for i := 0 to |names|
      invariant DropSafes(allowances, names[..i]) == Some(safe)
    {
      hide DropSafe;
      TakeOneMore(names, i);
      var dropped := RemoveName(safe, names[i]);
      if dropped == None {
        DropSafesFails(allowances, names, i + 1);
        return None;
      }
      safe := dropped.value;
    }
    assert names[..|names|] == names;
    out := Some(safe);
  }

  lemma {:induction false} DropSafesFails(allowances: seq<FunctionAllowance>, names: seq<string>, i: nat)
    requires i <= |names| && DropSafes(allowances, names[..i]) == None
    ensures DropSafes(allowances, names) == None
    decreases |names| - i
  {
    hide DropSafe;
    if i == |names| {
      assert names[..i] == names;
    } else {
      TakeOneMore(names, i);
      DropSafesFails(allowances, names, i + 1);
    }
  }

  /** Takes one name off every allowance, noticing whether any had it. */
  method RemoveName(allowances: seq<FunctionAllowance>, name: string)
    returns (out: Option<seq<FunctionAllowance>>)
    ensures out == DropSafe(allowances, name)
  {
    var removed := false;
    var trimmed: seq<FunctionAllowance> := [];
    for i := 0 to |allowances|
      invariant |trimmed| == i
      invariant forall k :: 0 <= k < i ==>
                  trimmed[k] == allowances[k].(names := WithoutName(allowances[k].names, name))
      invariant removed <==> exists k :: 0 <= k < i && name in allowances[k].names
    {
      var names := WithoutName(allowances[i].names, name);
      WithoutNameShrinks(allowances[i].names, name);
      if |names| != |allowances[i].names| {
        removed := true;
      }
      trimmed := trimmed + [allowances[i].(names := names)];
    }
    assert trimmed == WithoutSafe(allowances, name);
    out := if removed then Some(trimmed) else None;
  }

  lemma {:induction false} WithoutNameShrinks(names: seq<string>, name: string)
    ensures |WithoutName(names, name)| <= |names|
    ensures |WithoutName(names, name)| == |names| <==> name !in names
  {
    if names != [] {
      WithoutNameShrinks(names[1..], name);
      assert names == [names[0]] + names[1..];
    }
  }

  // ----- compiling -----

  /** The rules of one kind, indexed for every engine they apply to. */
  method Index(rules: seq<Rule>) returns (m: map<Engine, map<string, Rule>>)
    ensures m.Keys == (set e | e in ENGINES)
    ensures forall e :: e in ENGINES ==> m[e] == IndexFor(rules, e)
  {
    m := map e | e in ENGINES :: map[];
    for i := 0 to |rules|
      invariant m.Keys == (set e | e in ENGINES)
      invariant forall e :: e in ENGINES ==> m[e] == IndexFor(rules[..i], e)
    {
      var r := rules[i];
      TakeOneMore(rules, i);
      ghost var before := m;
      for j := 0 to |ENGINES|
        invariant m.Keys == (set e | e in ENGINES)
        invariant forall k :: 0 <= k < j ==> m[ENGINES[k]] == IndexFor(rules[..i + 1], ENGINES[k])
        invariant forall k :: j <= k < |ENGINES| ==> m[ENGINES[k]] == before[ENGINES[k]]
      {
        var e := ENGINES[j];
        if RuleApplies(r, e) {
          m := m[e := m[e][r.pattern := r]];
        }
      }
    }
    assert rules[..|rules|] == rules;
  }

  method IndexSafe(allowances: seq<FunctionAllowance>) returns (m: map<Engine, set<string>>)
    ensures m.Keys == (set e | e in ENGINES)
    ensures forall e :: e in ENGINES ==> m[e] == SafeNames(allowances, e)
  {
    m := map e | e in ENGINES :: {};
    for i := 0 to |allowances|
      invariant m.Keys == (set e | e in ENGINES)
      invariant forall e :: e in ENGINES ==> m[e] == SafeNames(allowances[..i], e)
    {
      var a := allowances[i];
      TakeOneMore(allowances, i);
      ghost var before := m;
      for j := 0 to |ENGINES|
        invariant m.Keys == (set e | e in ENGINES)
        invariant forall k :: 0 <= k < j ==> m[ENGINES[k]] == SafeNames(allowances[..i + 1], ENGINES[k])
        invariant forall k :: j <= k < |ENGINES| ==> m[ENGINES[k]] == before[ENGINES[k]]
      {
        var e := ENGINES[j];
        SafeNamesOneMore(allowances, i, e);
        if Scoped(a.engines, e) {
          m := m[e := m[e] + (set n | n in a.names)];
        }
      }
    }
    assert allowances[..|allowances|] == allowances;
  }

  lemma SafeNamesOneMore(allowances: seq<FunctionAllowance>, i: nat, e: Engine)
    requires i < |allowances|
    ensures SafeNames(allowances[..i + 1], e) ==
            SafeNames(allowances[..i], e) +
            if Scoped(allowances[i].engines, e) then set n | n in allowances[i].names else {}
  {
    TakeOneMore(allowances, i);
  }

  method GroupPhrases(lib: Library, rules: seq<Rule>) returns (m: map<string, seq<Phrase>>)
    requires forall r :: r in rules ==> lib.fields(r.pattern) != []
    ensures forall w :: w in m ==> m[w] == Group(lib, rules, w)
    ensures forall w :: w !in m ==> Group(lib, rules, w) == []
  {
    m := map[];
    for i := 0 to |rules|
      invariant forall w :: w in m ==> m[w] == Group(lib, rules[..i], w)
      invariant forall w :: w !in m ==> Group(lib, rules[..i], w) == []
    {
      TakeOneMore(rules, i);
      assert rules[i] in rules;
      var words := lib.fields(rules[i].pattern);
      var before := if words[0] in m then m[words[0]] else [];
      m := m[words[0] := before + [Phrase(words, rules[i])]];
    }
    assert rules[..|rules|] == rules;
  }

  /** The lookup form of a ruleset. Every forbidden statement has a first word to be found by. */
  method Compile(lib: Library, rs: Ruleset) returns (c: Compiled)
    requires forall r :: r in rs.forbiddenStatements ==> lib.fields(r.pattern) != []
    ensures IsCompiled(lib, rs, c)
  {
    hide IndexFor, SafeNames, Group;
    var read := Index(rs.readStatements);
    var groups := GroupPhrases(lib, rs.forbiddenStatements);
    var forbidFunc := Index(rs.forbiddenFunctions);
    var safeFunc := IndexSafe(rs.safeFunctions);
    c := Compiled(
      rs, read, map w | w in groups :: LongestFirst(groups[w]), forbidFunc, safeFunc,
      set k | k in rs.nonFunctionKeywords);
  }

  /** A validated ruleset can be compiled. */
  lemma ValidCompiles(lib: Library, rs: Ruleset)
    requires Valid(lib, rs)
    ensures forall r :: r in rs.forbiddenStatements ==> lib.fields(r.pattern) != []
  {
    forall r | r in rs.forbiddenStatements
      ensures lib.fields(r.pattern) != []
    {
      assert r in AllRules(rs);
      assert RuleOk(lib, r);
    }
  }
}
