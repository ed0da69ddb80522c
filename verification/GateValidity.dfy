/**
  What a ruleset is held to before it takes effect, said over again clause by clause, of the rules and
  names its author wrote.
 */
module GateValidity {
  import opened Wrappers
  import L = GateLexer
  import R = GateRules
  import P = GatePlain

  /** Words with one space between each two. */
  predicate Spaced(words: seq<string>, text: string)
    decreases words
  {
    if words == [] then text == ""
    else if |words| == 1 then text == words[0]
    else
      && |text| > |words[0]| && text[..|words[0]|] == words[0] && text[|words[0]|] == ' '
      && Spaced(words[1..], text[|words[0]| + 1..])
  }

  /** An identifier and a reason that are not blank; a pattern in lower case, its words one space apart; engines there are. */
  predicate Sound(lib: R.Library, r: R.Rule) {
    && lib.trim(r.id) != "" && lib.trim(r.reason) != ""
    && r.pattern != "" && lib.lower(r.pattern) == r.pattern && Spaced(lib.fields(r.pattern), r.pattern)
    && forall k :: 0 <= k < |r.engines| ==> Known(r.engines[k])
  }

  predicate Known(e: L.Engine) {
    e == L.PostgreSQL || e == L.MySQL || e == L.SQLServer
  }

  /** A name in lower case with no blank in it. */
  predicate Bare(lib: R.Library, name: string) {
    name != "" && lib.lower(name) == name && forall k :: 0 <= k < |name| ==> name[k] != ' ' && name[k] != '\t'
  }

  /** Some engine both are for. */
  ghost predicate Share(a: seq<L.Engine>, b: seq<L.Engine>) {
    exists e :: Known(e) && P.For(a, e) && P.For(b, e)
  }

  ghost predicate Listed(rs: R.Ruleset, name: string) {
    exists a :: a in rs.safeFunctions && name in a.names
  }

  /** No two rules have one identifier, in one list or two. */
  ghost predicate Apart(a: seq<R.Rule>, b: seq<R.Rule>) {
    forall i, j :: 0 <= i < |a| && 0 <= j < |b| ==> a[i].id != b[j].id
  }

  ghost predicate OwnIds(rules: seq<R.Rule>) {
    forall i, j :: 0 <= i < j < |rules| ==> rules[i].id != rules[j].id
  }

  predicate Reads(r: R.Rule) {
    ' ' !in r.pattern && '.' !in r.pattern && r.safeAsFunction == ""
  }

  predicate Prohibits(lib: R.Library, r: R.Rule) {
    !r.prefix && (r.safeAsFunction == "" || lib.trim(r.safeAsFunction) != "")
  }

  predicate Bans(r: R.Rule) {
    ' ' !in r.pattern && !r.prefix && r.safeAsFunction == ""
  }

  ghost predicate Wellformed(lib: R.Library, rs: R.Ruleset) {
    && rs.version == 1 && rs.maxStatementBytes >= 4096
    && |rs.readStatements| > 0 && |rs.forbiddenStatements| > 0
    && (forall r :: r in rs.readStatements ==> Sound(lib, r) && Reads(r))
    && (forall r :: r in rs.forbiddenStatements ==> Sound(lib, r) && Prohibits(lib, r))
    && (forall r :: r in rs.forbiddenFunctions ==> Sound(lib, r) && Bans(r))
    && OwnIds(rs.readStatements) && OwnIds(rs.forbiddenStatements) && OwnIds(rs.forbiddenFunctions)
    && Apart(rs.readStatements, rs.forbiddenStatements) && Apart(rs.readStatements, rs.forbiddenFunctions)
    && Apart(rs.forbiddenStatements, rs.forbiddenFunctions)
    && (forall r, f :: r in rs.readStatements && f in rs.forbiddenStatements && r.pattern == f.pattern ==>
          !Share(r.engines, f.engines))
    && (forall a :: a in rs.safeFunctions ==> (forall k :: 0 <= k < |a.engines| ==> Known(a.engines[k]))
                                              && forall n :: n in a.names ==> Bare(lib, n))
    && (forall r :: r in rs.forbiddenFunctions ==> !Listed(rs, r.pattern))
    && (forall k :: k in rs.nonFunctionKeywords ==> Bare(lib, k))
    && (forall r :: r in rs.forbiddenStatements ==> R.CollisionOk(lib, R.SafeScopes(rs.safeFunctions), r))
  }

  // ----- clause by clause -----

  lemma {:induction false} SpacedIs(words: seq<string>, text: string)
    ensures Spaced(words, text) <==> text == R.Join(words, " ")
    decreases words
  {
    if |words| > 1 {
      var n := |words[0]|;
      if text == R.Join(words, " ") {
        assert text == words[0] + " " + R.Join(words[1..], " ");
        SpacedIs(words[1..], text[n + 1..]);
        assert text[..n] == words[0] && text[n] == ' ' && text[n + 1..] == R.Join(words[1..], " ");
      }
      if Spaced(words, text) {
        SpacedIs(words[1..], text[n + 1..]);
        assert text == text[..n] + [text[n]] + text[n + 1..];
        assert text == words[0] + " " + R.Join(words[1..], " ");
      }
    }
  }

  lemma KnownIs(e: L.Engine)
    ensures Known(e) <==> !e.Unsupported?
    ensures Known(e) ==> e in L.ENGINES
  {
  }

  lemma SoundIs(lib: R.Library, r: R.Rule)
    ensures Sound(lib, r) <==> R.RuleOk(lib, r)
  {
    SpacedIs(lib.fields(r.pattern), r.pattern);
    forall e
      ensures Known(e) <==> !e.Unsupported?
    {
      KnownIs(e);
    }
    hide Spaced, Known, R.Join;
  }

  lemma BareIs(lib: R.Library, name: string)
    ensures Bare(lib, name) <==> R.NameOk(lib, name)
  {
  }

  lemma ShareIs(a: seq<L.Engine>, b: seq<L.Engine>)
    requires (forall e :: e in a ==> Known(e)) && (forall e :: e in b ==> Known(e))
    ensures Share(a, b) <==> R.EnginesOverlap(a, b)
  {
    if R.EnginesOverlap(a, b) {
      if a == [] && b == [] {
        assert Known(L.MySQL) && P.For(a, L.MySQL) && P.For(b, L.MySQL);
      } else if a == [] {
        assert Known(b[0]) && P.For(a, b[0]) && P.For(b, b[0]);
      } else if b == [] {
        assert Known(a[0]) && P.For(a, a[0]) && P.For(b, a[0]);
      } else {
        var e :| e in a && e in b;
        assert Known(e) && P.For(a, e) && P.For(b, e);
      }
    }
  }

  lemma {:induction false} ScopesHold(scopes: map<string, seq<L.Engine>>, names: seq<string>, engines: seq<L.Engine>)
    ensures forall n :: n in R.ScopeNames(scopes, names, engines) <==> n in scopes || n in names
  {
    if names != [] {
      var front := names[..|names| - 1];
      ScopesHold(scopes, front, engines);
      assert names == front + [names[|names| - 1]];
    }
  }

  lemma {:induction false} ScopesAreListed(allowances: seq<R.FunctionAllowance>, name: string)
    ensures name in R.SafeScopes(allowances) <==> exists a :: a in allowances && name in a.names
  {
    if allowances != [] {
      var front, last := allowances[..|allowances| - 1], allowances[|allowances| - 1];
      ScopesAreListed(front, name);
      ScopesHold(R.SafeScopes(front), last.names, last.engines);
      assert allowances == front + [last];
    }
  }

  lemma IdsAre(a: seq<R.Rule>, b: seq<R.Rule>)
    ensures R.UniqueIds(a + b) <==> OwnIds(a) && OwnIds(b) && Apart(a, b)
  {
    var all := a + b;
    assert forall i :: 0 <= i < |a| ==> all[i] == a[i];
    assert forall j :: 0 <= j < |b| ==> all[|a| + j] == b[j];
    if R.UniqueIds(all) {
      forall i, j | 0 <= i < j < |b|
        ensures b[i].id != b[j].id
      {
        assert all[|a| + i].id != all[|a| + j].id;
      }
      forall i, j | 0 <= i < |a| && 0 <= j < |b|
        ensures a[i].id != b[j].id
      {
        assert all[i].id != all[|a| + j].id;
      }
    }
    if OwnIds(a) && OwnIds(b) && Apart(a, b) {
      forall i, j | 0 <= i < j < |all|
        ensures all[i].id != all[j].id
      {
        assert i >= |a| ==> all[i] == b[i - |a|];
        assert j >= |a| ==> all[j] == b[j - |a|];
      }
    }
  }

  lemma ApartJoins(a: seq<R.Rule>, b: seq<R.Rule>, c: seq<R.Rule>)
    ensures Apart(a + b, c) <==> Apart(a, c) && Apart(b, c)
  {
    var all := a + b;
    assert forall i :: 0 <= i < |a| ==> all[i] == a[i];
    assert forall j :: 0 <= j < |b| ==> all[|a| + j] == b[j];
    if Apart(all, c) {
      forall i, j | 0 <= i < |b| && 0 <= j < |c|
        ensures b[i].id != c[j].id
      {
        assert all[|a| + i].id != c[j].id;
      }
    }
    assert forall i :: |a| <= i < |all| ==> all[i] == b[i - |a|];
  }

  lemma OwnIs(rules: seq<R.Rule>)
    ensures OwnIds(rules) <==> R.UniqueIds(rules)
  {
  }

  lemma AllIds(rs: R.Ruleset)
    ensures R.UniqueIds(R.AllRules(rs)) <==>
              && OwnIds(rs.readStatements) && OwnIds(rs.forbiddenStatements) && OwnIds(rs.forbiddenFunctions)
              && Apart(rs.readStatements, rs.forbiddenStatements) && Apart(rs.readStatements, rs.forbiddenFunctions)
              && Apart(rs.forbiddenStatements, rs.forbiddenFunctions)
  {
    hide OwnIds, Apart, R.UniqueIds;
    var a, b, c := rs.readStatements, rs.forbiddenStatements, rs.forbiddenFunctions;
    IdsAre(a, b);
    IdsAre(a + b, c);
    ApartJoins(a, b, c);
    OwnIs(a + b);
  }

  lemma AllowanceIs(lib: R.Library, a: R.FunctionAllowance)
    ensures R.AllowanceOk(lib, a) <==>
              (forall k :: 0 <= k < |a.engines| ==> Known(a.engines[k])) && forall n :: n in a.names ==> Bare(lib, n)
  {
    forall n
      ensures Bare(lib, n) <==> R.NameOk(lib, n)
    {
      BareIs(lib, n);
    }
    forall e
      ensures Known(e) <==> !e.Unsupported?
    {
      KnownIs(e);
    }
    hide Bare, R.NameOk, Known;
  }

  lemma ClashIs(lib: R.Library, r: R.Rule, f: R.Rule)
    requires Sound(lib, r) && Sound(lib, f)
    ensures R.Clash(r, f) <==> r.pattern == f.pattern && Share(r.engines, f.engines)
  {
    ShareIs(r.engines, f.engines);
    hide Share, R.EnginesOverlap, Spaced;
  }

  /**
    A ruleset takes effect exactly when every clause holds: among them, that no word leads a statement
    and is forbidden on one engine, that no identifier is used twice, and that no function is both
    forbidden and safe. What is asked of a safe name that is a forbidden keyword too is in the last.
   */
  lemma ValidIsWellformed(lib: R.Library, rs: R.Ruleset)
    ensures R.Valid(lib, rs) <==> Wellformed(lib, rs)
  {
    AllIds(rs);
    forall r
      ensures Sound(lib, r) <==> R.RuleOk(lib, r)
      ensures Reads(r) <==> R.ReadOk(lib, r)
      ensures Prohibits(lib, r) <==> R.StatementOk(lib, r)
      ensures Bans(r) <==> R.FunctionOk(lib, r)
      ensures Listed(rs, r.pattern) <==> r.pattern in R.SafeScopes(rs.safeFunctions)
    {
      SoundIs(lib, r);
      KindsAre(lib, r);
      ScopesAreListed(rs.safeFunctions, r.pattern);
    }
    forall a
      ensures R.AllowanceOk(lib, a) <==>
                (forall k :: 0 <= k < |a.engines| ==> Known(a.engines[k])) && forall n :: n in a.names ==> Bare(lib, n)
    {
      AllowanceIs(lib, a);
    }
    forall r, f | Sound(lib, r) && Sound(lib, f)
      ensures R.Clash(r, f) <==> r.pattern == f.pattern && Share(r.engines, f.engines)
    {
      ClashIs(lib, r, f);
    }
    forall n
      ensures Bare(lib, n) <==> R.NameOk(lib, n)
    {
      BareIs(lib, n);
    }
    hide Sound, Reads, Prohibits, Bans, Listed, Share, Bare, Known, OwnIds, Apart, R.RuleOk, R.ReadOk, R.StatementOk,
      R.FunctionOk, R.Clash, R.AllowanceOk, R.NameOk, R.SafeScopes, R.UniqueIds, R.CollisionOk;
    RulesAre(rs);
  }

  lemma KindsAre(lib: R.Library, r: R.Rule)
    ensures Reads(r) <==> R.ReadOk(lib, r)
    ensures Prohibits(lib, r) <==> R.StatementOk(lib, r)
    ensures Bans(r) <==> R.FunctionOk(lib, r)
  {
  }

  lemma RulesAre(rs: R.Ruleset)
    ensures forall r :: r in R.AllRules(rs) <==>
              r in rs.readStatements || r in rs.forbiddenStatements || r in rs.forbiddenFunctions
  {
  }
}
