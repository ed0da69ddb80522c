/**
  The gate's decision said over again from its inputs alone: the ruleset as its author wrote it, and
  the tokens. Every notion is written out here, so that the analysis, the indexes it looks rules up in
  and the names it gives to places in a statement are all held to this account.
 */
module GatePlain {
  import opened Wrappers
  import L = GateLexer
  import R = GateRules
  import A = GateAnalysis
  import V = GateVerdicts
  import P = GatePhrases
  import T = GateTightening
  import X = GateExemptions
  import C = GateRulesLoops

  type Tokens = seq<L.Token>

  // ----- places -----

  /** An unquoted word. */
  predicate WordAt(toks: Tokens, i: int) {
    0 <= i < |toks| && toks[i].kind.Word?
  }

  /** A name: a word, or a quoted identifier. */
  predicate NameAt(toks: Tokens, i: int) {
    0 <= i < |toks| && (toks[i].kind.Word? || toks[i].kind.QuotedIdent?)
  }

  predicate SignAt(toks: Tokens, i: int, sign: string) {
    0 <= i < |toks| && toks[i].kind.Punct? && toks[i].text == sign
  }

  function Signs(toks: Tokens, n: nat, sign: string): set<nat>
    requires n <= |toks|
  {
    set k: nat | k < n && SignAt(toks, k, sign)
  }

  /** How many parentheses stand open before `n`. */
  function Open(toks: Tokens, n: nat): int
    requires n <= |toks|
  {
    |Signs(toks, n, "(")| - |Signs(toks, n, ")")|
  }

  predicate CalledAt(toks: Tokens, i: int) {
    SignAt(toks, i + 1, "(")
  }

  /** `n` names stand with dots between them, the last of them at `i`. */
  predicate Chain(toks: Tokens, i: nat, n: nat) {
    n >= 1 && i < |toks| && forall j :: 1 <= j < n ==> SignAt(toks, i - 2 * j + 1, ".") && NameAt(toks, i - 2 * j)
  }

  /** Those names, folded, with dots between them. */
  function Spelt(toks: Tokens, i: nat, n: nat): string
    requires Chain(toks, i, n)
    decreases n
  {
    if n == 1 then toks[i].lower
    else
      assert SignAt(toks, i - 2 * 1 + 1, ".") && NameAt(toks, i - 2 * 1);
      ShorterChain(toks, i, n);
      Spelt(toks, i - 2, n - 1) + "." + toks[i].lower
  }

  lemma ShorterChain(toks: Tokens, i: nat, n: nat)
    requires Chain(toks, i, n) && n > 1
    ensures i >= 2 && Chain(toks, i - 2, n - 1)
  {
    assert SignAt(toks, i - 2 * 1 + 1, ".") && NameAt(toks, i - 2 * 1);
    forall j | 1 <= j < n - 1
      ensures SignAt(toks, i - 2 - 2 * j + 1, ".") && NameAt(toks, i - 2 - 2 * j)
    {
      assert SignAt(toks, i - 2 * (j + 1) + 1, ".") && NameAt(toks, i - 2 * (j + 1));
    }
  }

  predicate WholeChain(toks: Tokens, i: nat, n: nat) {
    n <= 4 && Chain(toks, i, n) && (n == 4 || !Chain(toks, i, n + 1))
  }

  /** The dotted name at `i`: as many names as stand so, and no more than four. */
  ghost predicate DottedAt(toks: Tokens, i: nat, q: string) {
    exists n: nat :: WholeChain(toks, i, n) && q == Spelt(toks, i, n)
  }

  // ----- what the ruleset says of a place -----

  predicate For(engines: seq<L.Engine>, e: L.Engine) {
    engines == [] || e in engines
  }

  /** A word a statement may begin with. */
  ghost predicate LeaderAt(rs: R.Ruleset, e: L.Engine, toks: Tokens, i: int) {
    WordAt(toks, i) && exists r :: r in rs.readStatements && For(r.engines, e) && r.pattern == toks[i].lower
  }

  ghost predicate LastFor(rules: seq<R.Rule>, e: L.Engine, word: string, r: R.Rule, k: int) {
    && 0 <= k < |rules| && rules[k] == r && For(r.engines, e) && r.pattern == word
    && forall m :: k < m < |rules| ==> !(For(rules[m].engines, e) && rules[m].pattern == word)
  }

  /** The rule a leading word goes by: the last for it. */
  ghost predicate LedBy(rs: R.Ruleset, e: L.Engine, word: string, r: R.Rule) {
    exists k :: LastFor(rs.readStatements, e, word, r, k)
  }

  ghost predicate BannedName(rs: R.Ruleset, e: L.Engine, name: string) {
    exists r :: r in rs.forbiddenFunctions && For(r.engines, e) && r.pattern == name
  }

  ghost predicate SafeName(rs: R.Ruleset, e: L.Engine, name: string) {
    exists a :: a in rs.safeFunctions && For(a.engines, e) && name in a.names
  }

  predicate SaysAt(toks: Tokens, i: int, word: string) {
    WordAt(toks, i) && toks[i].lower == word
  }

  /** The words one after another from `i`. */
  predicate ReadsOut(toks: Tokens, i: int, words: seq<string>) {
    forall m :: 0 <= m < |words| ==> SaysAt(toks, i + m, words[m])
  }

  ghost predicate BannedPhrase(lib: R.Library, rs: R.Ruleset, e: L.Engine, toks: Tokens, i: int) {
    exists r :: r in rs.forbiddenStatements && For(r.engines, e) && ReadsOut(toks, i, lib.fields(r.pattern))
  }

  /** A call by a name the ruleset finds safe, bare or dotted. */
  ghost predicate SafeCallAt(rs: R.Ruleset, e: L.Engine, toks: Tokens, i: int, q: string)
    requires 0 <= i < |toks|
  {
    CalledAt(toks, i) && (SafeName(rs, e, toks[i].lower) || SafeName(rs, e, q))
  }

  // ----- where a second statement could begin -----

  /** A leading word outside parentheses, after the first token, that is no table hint. */
  ghost predicate Start(rs: R.Ruleset, e: L.Engine, toks: Tokens, i: int) {
    0 < i < |toks| && LeaderAt(rs, e, toks, i) && Open(toks, i) == 0
    && !(toks[i].lower == "with" && CalledAt(toks, i))
  }

  /** Directly after a word that joins two queries. */
  predicate Joins(toks: Tokens, i: int) {
    WordAt(toks, i - 1) &&
    var w := toks[i - 1].lower;
    w == "union" || w == "all" || w == "intersect" || w == "except" || w == "minus"
  }

  /** A start that nothing joins to what stands before it. */
  ghost predicate Loose(rs: R.Ruleset, e: L.Engine, toks: Tokens, i: int) {
    Start(rs, e, toks, i) && !Joins(toks, i)
  }

  ghost predicate AfterParenthesis(rs: R.Ruleset, e: L.Engine, toks: Tokens, i: int) {
    Loose(rs, e, toks, i) && SignAt(toks, i - 1, ")")
  }

  /** A statement led by WITH, of whose loose starts none before `n` follows a closing parenthesis. */
  ghost predicate Defining(rs: R.Ruleset, e: L.Engine, toks: Tokens, n: int) {
    && LeaderAt(rs, e, toks, 0) && toks[0].lower == "with" && n > 0
    && forall j :: 0 <= j < n ==> !AfterParenthesis(rs, e, toks, j)
  }

  /** The query a leading WITH is for. */
  ghost predicate MainQuery(rs: R.Ruleset, e: L.Engine, toks: Tokens, i: int) {
    AfterParenthesis(rs, e, toks, i) && Defining(rs, e, toks, i)
  }

  /** The statement a leading EXPLAIN or DESCRIBE is for: the first loose start but for that query. */
  ghost predicate Explained(rs: R.Ruleset, e: L.Engine, toks: Tokens, i: int) {
    && Loose(rs, e, toks, i) && |toks| > 0 && LeaderAt(rs, e, toks, 0)
    && (exists r :: LedBy(rs, e, toks[0].lower, r) && r.prefix)
    && forall j :: 0 <= j < i && Loose(rs, e, toks, j) ==> MainQuery(rs, e, toks, j)
  }

  // ----- the conditions -----

  /** A parenthesis that closes one that is open; a semicolon that ends the statement. */
  predicate SignInOrder(toks: Tokens, i: nat)
    requires i < |toks|
  {
    && (SignAt(toks, i, ")") ==> Open(toks, i) > 0)
    && (SignAt(toks, i, ";") ==> i + 1 == |toks|)
  }

  ghost predicate NameInOrder(rs: R.Ruleset, e: L.Engine, toks: Tokens, i: nat)
    requires i < |toks|
  {
    NameAt(toks, i) ==>
      forall q :: DottedAt(toks, i, q) ==> !BannedName(rs, e, toks[i].lower) && !BannedName(rs, e, q)
  }

  ghost predicate PhraseInOrder(lib: R.Library, rs: R.Ruleset, e: L.Engine, toks: Tokens, i: nat)
    requires i < |toks|
  {
    WordAt(toks, i) && BannedPhrase(lib, rs, e, toks, i) ==>
      exists q :: DottedAt(toks, i, q) && SafeCallAt(rs, e, toks, i, q)
  }

  ghost predicate StartInOrder(rs: R.Ruleset, e: L.Engine, toks: Tokens, i: nat) {
    Start(rs, e, toks, i) ==> Joins(toks, i) || MainQuery(rs, e, toks, i) || Explained(rs, e, toks, i)
  }

  /** Nothing refuses the statement. */
  ghost predicate InOrder(lib: R.Library, rs: R.Ruleset, e: L.Engine, toks: Tokens) {
    && |toks| > 0 && LeaderAt(rs, e, toks, 0) && Open(toks, |toks|) == 0
    && forall i: nat :: i < |toks| ==>
         && SignInOrder(toks, i)
         && NameInOrder(rs, e, toks, i)
         && PhraseInOrder(lib, rs, e, toks, i)
         && StartInOrder(rs, e, toks, i)
  }

  /** A query being defined by a leading WITH is named here. */
  ghost predicate QueryName(rs: R.Ruleset, e: L.Engine, toks: Tokens, i: nat) {
    && 0 < i < |toks| && Open(toks, i) == 0 && Defining(rs, e, toks, i)
    && (SignAt(toks, i - 1, ",")
        || (WordAt(toks, i - 1) && (toks[i - 1].lower == "with" || toks[i - 1].lower == "recursive")))
  }

  /** A call nothing in the ruleset answers for, by its dotted name. */
  ghost predicate Questioned(rs: R.Ruleset, e: L.Engine, toks: Tokens, i: nat, q: string) {
    && i < |toks| && NameAt(toks, i) && CalledAt(toks, i) && DottedAt(toks, i, q)
    && !SafeCallAt(rs, e, toks, i, q)
    && (WordAt(toks, i) ==>
          !LeaderAt(rs, e, toks, i) && toks[i].lower !in rs.nonFunctionKeywords && !QueryName(rs, e, toks, i))
  }

  ghost predicate Approved(grants: seq<A.Grant>, q: string) {
    exists g :: g in grants && g.ruleID == "function:" + q
  }

  // ----- the places are the analysis's own -----

  lemma SignIs(toks: Tokens, i: int, sign: string)
    ensures SignAt(toks, i, sign) == A.IsMark(toks, i, sign)
    ensures NameAt(toks, i) == A.IsName(toks, i)
    ensures CalledAt(toks, i) == A.IsCall(toks, i)
  {
  }

  lemma SignsNext(toks: Tokens, n: nat, sign: string)
    requires n < |toks|
    ensures |Signs(toks, n + 1, sign)| == |Signs(toks, n, sign)| + if SignAt(toks, n, sign) then 1 else 0
  {
    var before := Signs(toks, n, sign);
    if SignAt(toks, n, sign) {
      assert Signs(toks, n + 1, sign) == before + {n};
    } else {
      assert Signs(toks, n + 1, sign) == before;
    }
  }

  lemma {:induction false} OpenIs(toks: Tokens, n: nat)
    requires n <= |toks|
    ensures Open(toks, n) == V.DepthAt(toks, n)
  {
    if n == 0 {
      assert Signs(toks, 0, "(") == {} && Signs(toks, 0, ")") == {};
    } else {
      OpenIs(toks, n - 1);
      SignsNext(toks, n - 1, "(");
      SignsNext(toks, n - 1, ")");
      assert "(" != ")";
      hide Signs;
    }
  }

  lemma ChainFalls(toks: Tokens, i: nat, n: nat, m: nat)
    requires Chain(toks, i, n) && 1 <= m <= n
    ensures Chain(toks, i, m)
  {
  }

  /** A longer chain is one name more and the chain before it. */
  lemma ChainGrows(toks: Tokens, i: nat, n: nat)
    requires i < |toks| && n >= 1
    ensures Chain(toks, i, n + 1) <==> i >= 2 && SignAt(toks, i - 1, ".") && NameAt(toks, i - 2) && Chain(toks, i - 2, n)
  {
    if Chain(toks, i, n + 1) {
      ShorterChain(toks, i, n + 1);
      assert SignAt(toks, i - 2 * 1 + 1, ".") && NameAt(toks, i - 2 * 1);
    }
    if i >= 2 && SignAt(toks, i - 1, ".") && NameAt(toks, i - 2) && Chain(toks, i - 2, n) {
      forall j | 1 <= j < n + 1
        ensures SignAt(toks, i - 2 * j + 1, ".") && NameAt(toks, i - 2 * j)
      {
        if j > 1 {
          assert SignAt(toks, i - 2 - 2 * (j - 1) + 1, ".") && NameAt(toks, i - 2 - 2 * (j - 1));
        }
      }
    }
  }

  lemma {:induction false} PartsAre(toks: Tokens, i: nat, limit: nat) returns (n: nat)
    requires i < |toks| && limit >= 1
    ensures 1 <= n <= limit && Chain(toks, i, n) && (n == limit || !Chain(toks, i, n + 1))
    ensures R.Join(A.NameParts(toks, i, limit), ".") == Spelt(toks, i, n) && A.NameParts(toks, i, limit) != []
    decreases limit
  {
    SignIs(toks, i - 1, ".");
    SignIs(toks, i - 2, ".");
    hide SignAt, NameAt, A.IsMark, A.IsName;
    if limit > 1 && A.IsMark(toks, i - 1, ".") && A.IsName(toks, i - 2) {
      assert i >= 2 by { InRange(toks, i); }
      var m := PartsAre(toks, i - 2, limit - 1);
      n := m + 1;
      ChainGrows(toks, i, m);
      ChainGrows(toks, i, m + 1);
      X.JoinLast(A.NameParts(toks, i - 2, limit - 1), toks[i].lower);
      hide Chain, R.Join;
    } else {
      n := 1;
      ChainGrows(toks, i, 1);
      hide Chain;
    }
  }

  lemma InRange(toks: Tokens, i: nat)
    requires A.IsName(toks, i - 2)
    ensures i >= 2
  {
  }

  lemma DottedIs(toks: Tokens, i: nat, q: string)
    requires i < |toks|
    ensures DottedAt(toks, i, q) <==> q == A.QualifiedName(toks, i)
  {
    var n := PartsAre(toks, i, 4);
    assert A.QualifiedName(toks, i) == Spelt(toks, i, n);
    assert WholeChain(toks, i, n);
    hide A.NameParts, A.QualifiedName, R.Join;
    if DottedAt(toks, i, q) {
      var m: nat :| WholeChain(toks, i, m) && q == Spelt(toks, i, m);
      if m < n {
        ChainFalls(toks, i, n, m + 1);
      } else if n < m {
        ChainFalls(toks, i, m, n + 1);
      }
    }
  }

  // ----- the indexes answer as the ruleset does -----

  lemma LeaderIs(lib: R.Library, rs: R.Ruleset, c: R.Compiled, e: L.Engine, toks: Tokens, i: nat)
    requires R.IsCompiled(lib, rs, c) && e in L.ENGINES
    ensures LeaderAt(rs, e, toks, i) <==> V.Reads(c, e, toks, i)
  {
    T.IndexKeys(rs.readStatements, e);
    if i < |toks| {
      ForIs(rs.readStatements, e);
      hide For, R.RuleApplies;
    }
  }

  lemma ForIs(rules: seq<R.Rule>, e: L.Engine)
    ensures forall r :: r in rules ==> For(r.engines, e) == R.RuleApplies(r, e)
  {
  }

  lemma {:induction false} LastIs(rules: seq<R.Rule>, e: L.Engine, word: string) returns (k: int)
    ensures word in R.IndexFor(rules, e) ==> LastFor(rules, e, word, R.IndexFor(rules, e)[word], k)
    ensures word !in R.IndexFor(rules, e) ==> forall m :: 0 <= m < |rules| ==> !(For(rules[m].engines, e) && rules[m].pattern == word)
  {
    k := -1;
    if rules != [] {
      var n := |rules| - 1;
      var last := rules[n];
      k := LastIs(rules[..n], e, word);
      assert For(last.engines, e) == R.RuleApplies(last, e);
      hide For, R.RuleApplies;
      if R.RuleApplies(last, e) && last.pattern == word {
        k := n;
      } else {
        assert forall m :: 0 <= m < n ==> rules[..n][m] == rules[m];
      }
    }
  }

  lemma LedByIs(lib: R.Library, rs: R.Ruleset, c: R.Compiled, e: L.Engine, word: string, r: R.Rule)
    requires R.IsCompiled(lib, rs, c) && e in L.ENGINES
    ensures LedBy(rs, e, word, r) <==> A.ReadRule(c, e, word) == Some(r)
  {
    var k := LastIs(rs.readStatements, e, word);
    hide R.IndexFor;
    if LedBy(rs, e, word, r) {
      var j :| LastFor(rs.readStatements, e, word, r, j);
      if word in R.IndexFor(rs.readStatements, e) {
        assert j == k;
      }
    }
  }

  lemma BannedNameIs(lib: R.Library, rs: R.Ruleset, c: R.Compiled, e: L.Engine, name: string)
    requires R.IsCompiled(lib, rs, c) && e in L.ENGINES
    ensures BannedName(rs, e, name) <==> A.Forbids(c, e, name).Some?
  {
    T.CompiledForbids(lib, rs, c, e, name);
    ForIs(rs.forbiddenFunctions, e);
    hide For, R.RuleApplies, A.Forbids;
  }

  lemma SafeNameIs(lib: R.Library, rs: R.Ruleset, c: R.Compiled, e: L.Engine, name: string)
    requires R.IsCompiled(lib, rs, c) && e in L.ENGINES
    ensures e in c.safeFunc && (SafeName(rs, e, name) <==> name in c.safeFunc[e])
  {
    X.SafeMeansAllowed(lib, rs, c, e, name);
    assert forall a :: For(a, e) == R.Scoped(a, e);
    hide For, R.Scoped;
  }

  lemma FitsIs(lib: R.Library, r: R.Rule, e: L.Engine, toks: Tokens, i: nat)
    requires i <= |toks|
    ensures A.Fits(P.PhraseOf(lib, r), e, toks, i) <==> For(r.engines, e) && ReadsOut(toks, i, lib.fields(r.pattern))
  {
    var words := lib.fields(r.pattern);
    if A.WordsAt(words, toks, i) {
      forall m | 0 <= m < |words|
        ensures SaysAt(toks, i + m, words[m])
      {
        assert toks[i + m].kind == L.Word;
      }
    }
    if ReadsOut(toks, i, words) {
      if |words| > 0 {
        var m := |words| - 1;
        assert words[m] == words[m];
        assert SaysAt(toks, i + m, words[m]);
      }
      forall j | i <= j < i + |words|
        ensures toks[j].kind == L.Word && toks[j].lower == words[j - i]
      {
        var m := j - i;
        assert words[m] == words[m];
        assert SaysAt(toks, i + m, words[m]);
      }
    }
  }

  lemma BannedPhraseIs(lib: R.Library, rs: R.Ruleset, c: R.Compiled, e: L.Engine, toks: Tokens, i: nat)
    requires R.Valid(lib, rs) && R.IsCompiled(lib, rs, c) && i < |toks|
    ensures BannedPhrase(lib, rs, e, toks, i) <==> A.MatchPhrase(c, e, toks, i).Some?
  {
    C.ValidCompiles(lib, rs);
    hide R.Valid, A.MatchPhrase, R.IsCompiled;
    P.MatchExists(lib, rs, c, e, toks, i);
    forall r | r in rs.forbiddenStatements
      ensures A.Fits(P.PhraseOf(lib, r), e, toks, i) <==> For(r.engines, e) && ReadsOut(toks, i, lib.fields(r.pattern))
    {
      FitsIs(lib, r, e, toks, i);
    }
    hide A.Fits, For, ReadsOut;
  }

  // ----- the conditions are the analysis's own -----

  ghost predicate Served(lib: R.Library, rs: R.Ruleset, c: R.Compiled, e: L.Engine) {
    R.Valid(lib, rs) && R.IsCompiled(lib, rs, c) && e in L.ENGINES
  }

  lemma JoinsIs(toks: Tokens, i: nat)
    requires 0 < i <= |toks|
    ensures Joins(toks, i) <==> A.AfterSetOperator(toks, i)
  {
  }

  lemma LooseIs(lib: R.Library, rs: R.Ruleset, c: R.Compiled, e: L.Engine, toks: Tokens, i: nat)
    requires Served(lib, rs, c, e)
    ensures Start(rs, e, toks, i) <==> V.Boundary(c, e, toks, i)
    ensures Loose(rs, e, toks, i) <==> V.Unaided(c, e, toks, i)
    ensures AfterParenthesis(rs, e, toks, i) <==> V.AfterBody(c, e, toks, i)
  {
    LeaderIs(lib, rs, c, e, toks, i);
    ReadsWithin(c, e, toks, i);
    SignIs(toks, i - 1, ")");
    SignIs(toks, i, ")");
    if i < |toks| {
      OpenIs(toks, i);
      if i > 0 {
        JoinsIs(toks, i);
      }
    }
    hide LeaderAt, V.Reads, Open, V.DepthAt, Joins, A.AfterSetOperator, R.Valid, R.IsCompiled, SignAt, A.IsMark, CalledAt,
      A.IsCall;
  }

  lemma ReadsWithin(c: R.Compiled, e: L.Engine, toks: Tokens, i: nat)
    ensures V.Reads(c, e, toks, i) ==> i < |toks| && toks[i].kind == L.Word
  {
    hide A.ReadRule;
  }

  lemma DefiningIs(lib: R.Library, rs: R.Ruleset, c: R.Compiled, e: L.Engine, toks: Tokens, n: nat)
    requires Served(lib, rs, c, e)
    ensures Defining(rs, e, toks, n) <==> V.WithOpen(c, e, toks, n)
    ensures MainQuery(rs, e, toks, n) <==> V.WithBody(c, e, toks, n)
  {
    hide LeaderAt, V.Reads, AfterParenthesis, V.AfterBody, Served;
    LeaderIsServed(lib, rs, c, e, toks, 0);
    forall j: nat
      ensures AfterParenthesis(rs, e, toks, j) <==> V.AfterBody(c, e, toks, j)
    {
      LooseIs(lib, rs, c, e, toks, j);
    }
    assert V.Reads(c, e, toks, 0) ==> 0 < |toks| by { ReadsWithin(c, e, toks, 0); }
  }

  lemma LeaderIsServed(lib: R.Library, rs: R.Ruleset, c: R.Compiled, e: L.Engine, toks: Tokens, i: nat)
    requires Served(lib, rs, c, e)
    ensures LeaderAt(rs, e, toks, i) <==> V.Reads(c, e, toks, i)
    ensures V.Reads(c, e, toks, i) ==> i < |toks| && toks[i].kind == L.Word
  {
    LeaderIs(lib, rs, c, e, toks, i);
    hide LeaderAt, R.Valid, R.IsCompiled, A.ReadRule;
  }

  lemma PrefixIs(lib: R.Library, rs: R.Ruleset, c: R.Compiled, e: L.Engine, toks: Tokens)
    requires Served(lib, rs, c, e) && V.Reads(c, e, toks, 0)
    ensures A.ReadRule(c, e, toks[0].lower).Some?
    ensures (exists r :: LedBy(rs, e, toks[0].lower, r) && r.prefix) <==> A.ReadRule(c, e, toks[0].lower).value.prefix
  {
    forall r
      ensures LedBy(rs, e, toks[0].lower, r) <==> A.ReadRule(c, e, toks[0].lower) == Some(r)
    {
      LedByIs(lib, rs, c, e, toks[0].lower, r);
    }
    hide LedBy, A.ReadRule, R.Valid, R.IsCompiled;
  }

  lemma ExplainedIs(lib: R.Library, rs: R.Ruleset, c: R.Compiled, e: L.Engine, toks: Tokens, i: nat)
    requires Served(lib, rs, c, e)
    ensures Explained(rs, e, toks, i) <==> V.Unaided(c, e, toks, i) && V.PrefixOpen(c, e, toks, i)
  {
    hide Served, Loose, V.Unaided, MainQuery, V.WithBody, LeaderAt, V.Reads, LedBy, A.ReadRule;
    LeaderIsServed(lib, rs, c, e, toks, 0);
    if V.Reads(c, e, toks, 0) {
      PrefixIs(lib, rs, c, e, toks);
    }
    forall j: nat
      ensures Loose(rs, e, toks, j) <==> V.Unaided(c, e, toks, j)
      ensures MainQuery(rs, e, toks, j) <==> V.WithBody(c, e, toks, j)
    {
      LooseIs(lib, rs, c, e, toks, j);
      DefiningIs(lib, rs, c, e, toks, j);
    }
    assert V.Unaided(c, e, toks, i) ==> i > 0 by { LooseLater(rs, e, toks, i); }
  }

  lemma LooseLater(rs: R.Ruleset, e: L.Engine, toks: Tokens, i: nat)
    ensures Loose(rs, e, toks, i) ==> i > 0
  {
    hide LeaderAt, Open, Joins;
  }

  lemma StartInOrderIs(lib: R.Library, rs: R.Ruleset, c: R.Compiled, e: L.Engine, toks: Tokens, i: nat)
    requires Served(lib, rs, c, e)
    ensures StartInOrder(rs, e, toks, i) <==> V.BoundaryClear(c, e, toks, i)
  {
    LooseIs(lib, rs, c, e, toks, i);
    DefiningIs(lib, rs, c, e, toks, i);
    ExplainedIs(lib, rs, c, e, toks, i);
    hide Served, Start, Joins, V.Unaided, MainQuery, V.WithBody, V.PrefixOpen, Explained;
    assert Loose(rs, e, toks, i) <==> Start(rs, e, toks, i) && !Joins(toks, i);
    hide Loose;
  }

  lemma SignInOrderIs(toks: Tokens, i: nat)
    requires i < |toks|
    ensures SignInOrder(toks, i) <==> V.MarkClear(toks, i)
  {
    OpenIs(toks, i);
    SignIs(toks, i, ")");
    SignIs(toks, i, ";");
    hide Open, SignAt;
  }

  lemma NameInOrderIs(lib: R.Library, rs: R.Ruleset, c: R.Compiled, e: L.Engine, toks: Tokens, i: nat)
    requires Served(lib, rs, c, e) && i < |toks|
    ensures NameInOrder(rs, e, toks, i) <==> V.NameClear(c, e, toks, i)
  {
    SignIs(toks, i, "");
    BannedNameIs(lib, rs, c, e, toks[i].lower);
    BannedNameIs(lib, rs, c, e, A.QualifiedName(toks, i));
    hide Served, BannedName, A.Forbids, DottedAt, NameAt, A.IsName, A.QualifiedName, R.Valid, R.IsCompiled;
    forall q
      ensures DottedAt(toks, i, q) <==> q == A.QualifiedName(toks, i)
    {
      DottedIs(toks, i, q);
    }
  }

  lemma SafeCallIs(lib: R.Library, rs: R.Ruleset, c: R.Compiled, e: L.Engine, toks: Tokens, i: nat, q: string)
    requires Served(lib, rs, c, e) && i < |toks| && q == A.QualifiedName(toks, i)
    ensures SafeCallAt(rs, e, toks, i, q) <==> V.SafeCall(c, e, toks, i)
    ensures V.SafeCall(c, e, toks, i) <==> A.IsCall(toks, i) && A.IsSafe(c, e, toks[i].lower, A.QualifiedName(toks, i))
  {
    SignIs(toks, i, "");
    SafeNameIs(lib, rs, c, e, toks[i].lower);
    SafeNameIs(lib, rs, c, e, q);
    hide SafeName, CalledAt, A.IsCall, A.QualifiedName, R.Valid, R.IsCompiled;
  }

  lemma PhraseInOrderIs(lib: R.Library, rs: R.Ruleset, c: R.Compiled, e: L.Engine, toks: Tokens, i: nat)
    requires Served(lib, rs, c, e) && i < |toks|
    ensures PhraseInOrder(lib, rs, e, toks, i) <==> V.PhraseClear(c, e, toks, i)
  {
    var q := A.QualifiedName(toks, i);
    SafeCallIs(lib, rs, c, e, toks, i, q);
    BannedPhraseIs(lib, rs, c, e, toks, i);
    hide A.QualifiedName, DottedAt, SafeCallAt, V.SafeCall, BannedPhrase, A.MatchPhrase, R.Valid, R.IsCompiled;
    forall p
      ensures DottedAt(toks, i, p) <==> p == q
    {
      DottedIs(toks, i, p);
    }
  }

  lemma ClearIs(lib: R.Library, rs: R.Ruleset, c: R.Compiled, e: L.Engine, toks: Tokens, i: nat)
    requires Served(lib, rs, c, e) && i < |toks|
    ensures V.Clear(c, e, toks, i) <==>
              && (i == 0 ==> LeaderAt(rs, e, toks, 0))
              && SignInOrder(toks, i) && NameInOrder(rs, e, toks, i) && PhraseInOrder(lib, rs, e, toks, i)
              && StartInOrder(rs, e, toks, i)
  {
    SignInOrderIs(toks, i);
    NameInOrderIs(lib, rs, c, e, toks, i);
    PhraseInOrderIs(lib, rs, c, e, toks, i);
    StartInOrderIs(lib, rs, c, e, toks, i);
    LeaderIsServed(lib, rs, c, e, toks, 0);
    hide Served, SignInOrder, V.MarkClear, NameInOrder, V.NameClear, PhraseInOrder, V.PhraseClear, StartInOrder,
      V.BoundaryClear, LeaderAt, V.Reads;
  }

  lemma InOrderIs(lib: R.Library, rs: R.Ruleset, c: R.Compiled, e: L.Engine, toks: Tokens)
    requires Served(lib, rs, c, e)
    ensures InOrder(lib, rs, e, toks) <==> V.Permitted(c, e, toks)
  {
    OpenIs(toks, |toks|);
    LeaderIsServed(lib, rs, c, e, toks, 0);
    hide Served, SignInOrder, NameInOrder, PhraseInOrder, StartInOrder, LeaderAt, V.Reads, V.Clear, Open, V.DepthAt;
    forall i: nat | i < |toks|
      ensures V.Clear(c, e, toks, i) <==>
              && (i == 0 ==> LeaderAt(rs, e, toks, 0))
              && SignInOrder(toks, i) && NameInOrder(rs, e, toks, i) && PhraseInOrder(lib, rs, e, toks, i)
              && StartInOrder(rs, e, toks, i)
    {
      ClearIs(lib, rs, c, e, toks, i);
    }
    assert V.Permitted(c, e, toks) && 0 < |toks| ==> V.Clear(c, e, toks, 0);
  }

  lemma QueryNameIs(lib: R.Library, rs: R.Ruleset, c: R.Compiled, e: L.Engine, toks: Tokens, i: nat)
    requires Served(lib, rs, c, e) && i < |toks|
    ensures QueryName(rs, e, toks, i) <==> A.IsCteName(toks, i, V.DepthAt(toks, i), V.WithOpen(c, e, toks, i))
  {
    OpenIs(toks, i);
    DefiningIs(lib, rs, c, e, toks, i);
    SignIs(toks, i - 1, ",");
    hide Served, Defining, V.WithOpen, Open, V.DepthAt, SignAt, A.IsMark;
  }

  lemma QuestionedIs(lib: R.Library, rs: R.Ruleset, c: R.Compiled, e: L.Engine, toks: Tokens, i: nat, q: string)
    requires Served(lib, rs, c, e) && i < |toks|
    ensures Questioned(rs, e, toks, i, q) <==> V.Asks(c, e, toks, i) && q == A.QualifiedName(toks, i)
  {
    SignIs(toks, i, "");
    DottedIs(toks, i, q);
    if q == A.QualifiedName(toks, i) {
      SafeCallIs(lib, rs, c, e, toks, i, q);
    }
    LeaderIsServed(lib, rs, c, e, toks, i);
    QueryNameIs(lib, rs, c, e, toks, i);
    KeywordIs(lib, rs, c, e, toks[i].lower);
    hide Served, DottedAt, SafeCallAt, V.SafeCall, LeaderAt, V.Reads, QueryName, A.IsCteName, A.QualifiedName, A.IsSafe,
      CalledAt, A.IsCall, V.DepthAt, V.WithOpen;
  }

  lemma KeywordIs(lib: R.Library, rs: R.Ruleset, c: R.Compiled, e: L.Engine, word: string)
    requires Served(lib, rs, c, e)
    ensures word in rs.nonFunctionKeywords <==> word in c.nonFunc
  {
    hide R.Valid;
  }

  lemma ApprovedIs(grants: seq<A.Grant>, toks: Tokens, i: nat, q: string)
    requires i < |toks| && q == A.QualifiedName(toks, i)
    ensures Approved(grants, q) <==> A.Granted(grants, V.CallId(toks, i))
  {
    hide A.QualifiedName;
  }

  // ----- the theorem -----

  /**
    The analysis, from the ruleset and the tokens alone: a statement is refused exactly when something
    in it is out of order; and otherwise allowed exactly when every call in question is approved.
   */
  lemma VerdictIsPlain(lib: R.Library, rs: R.Ruleset, c: R.Compiled, e: L.Engine, toks: Tokens, grants: seq<A.Grant>)
    requires R.Valid(lib, rs) && R.IsCompiled(lib, rs, c) && e in L.ENGINES && toks != []
    ensures A.Analyse(c, e, toks, grants).verdict == A.Deny <==> !InOrder(lib, rs, e, toks)
    ensures A.Analyse(c, e, toks, grants).verdict == A.Allow <==>
              && InOrder(lib, rs, e, toks)
              && forall i, q :: Questioned(rs, e, toks, i, q) ==> Approved(grants, q)
  {
    V.AllowExactly(c, e, toks, grants);
    InOrderIs(lib, rs, c, e, toks);
    assert Served(lib, rs, c, e);
    hide R.Valid, R.IsCompiled, Served, InOrder, V.Permitted, A.Analyse;
    AllApproved(lib, rs, c, e, toks, grants);
  }

  lemma AllApproved(lib: R.Library, rs: R.Ruleset, c: R.Compiled, e: L.Engine, toks: Tokens, grants: seq<A.Grant>)
    requires Served(lib, rs, c, e)
    ensures (forall i, q :: Questioned(rs, e, toks, i, q) ==> Approved(grants, q)) <==>
            (forall i: nat :: i < |toks| && V.Asks(c, e, toks, i) ==> A.Granted(grants, V.CallId(toks, i)))
  {
    hide Served, Approved, A.Granted, V.Asks, V.CallId, A.QualifiedName;
    forall i: nat, q | i < |toks|
      ensures Questioned(rs, e, toks, i, q) <==> V.Asks(c, e, toks, i) && q == A.QualifiedName(toks, i)
      ensures q == A.QualifiedName(toks, i) ==> (Approved(grants, q) <==> A.Granted(grants, V.CallId(toks, i)))
    {
      QuestionedIs(lib, rs, c, e, toks, i, q);
      if q == A.QualifiedName(toks, i) {
        ApprovedIs(grants, toks, i, q);
      }
    }
    forall i: nat, q
      ensures Questioned(rs, e, toks, i, q) ==> i < |toks|
    {
      QuestionedWithin(rs, e, toks, i, q);
    }
    hide Questioned;
    forall i: nat | i < |toks|
      ensures V.Asks(c, e, toks, i) <==> Questioned(rs, e, toks, i, A.QualifiedName(toks, i))
    {
    }
  }

  lemma QuestionedWithin(rs: R.Ruleset, e: L.Engine, toks: Tokens, i: nat, q: string)
    ensures Questioned(rs, e, toks, i, q) ==> i < |toks|
  {
    hide DottedAt, SafeCallAt, LeaderAt, QueryName;
  }

  /**
    In an allowed statement, a leading word outside parentheses after the first token, but for a table
    hint, stands directly after UNION, ALL, INTERSECT, EXCEPT or MINUS, or begins the one query of a
    leading WITH, after a closing parenthesis, or the one statement of a leading prefix; and there is
    at most one of either.
   */
  lemma SecondStarts(
    lib: R.Library, rs: R.Ruleset, c: R.Compiled, e: L.Engine, toks: Tokens, grants: seq<A.Grant>, i: nat, j: nat)
    requires R.Valid(lib, rs) && R.IsCompiled(lib, rs, c) && e in L.ENGINES && toks != []
    requires A.Analyse(c, e, toks, grants).verdict == A.Allow && i < |toks| && j < |toks| && Start(rs, e, toks, i)
    ensures Joins(toks, i) || MainQuery(rs, e, toks, i) || Explained(rs, e, toks, i)
    ensures MainQuery(rs, e, toks, i) && MainQuery(rs, e, toks, j) ==> i == j
    ensures Explained(rs, e, toks, i) && Explained(rs, e, toks, j) && !MainQuery(rs, e, toks, i) && !MainQuery(rs, e, toks, j)
            ==> i == j
  {
    VerdictIsPlain(lib, rs, c, e, toks, grants);
    hide R.Valid, R.IsCompiled, A.Analyse, SignInOrder, NameInOrder, PhraseInOrder, Start, Joins, LeaderAt, LedBy;
    assert StartInOrder(rs, e, toks, i);
  }

  /** After one of those five words a leading word refuses nothing: the rest of the statement decides. */
  lemma JoinedNeverRefuses(
    lib: R.Library, rs: R.Ruleset, c: R.Compiled, e: L.Engine, toks: Tokens, grants: seq<A.Grant>)
    requires R.Valid(lib, rs) && R.IsCompiled(lib, rs, c) && e in L.ENGINES && toks != []
    requires forall i: nat :: Start(rs, e, toks, i) ==> Joins(toks, i)
    ensures A.Analyse(c, e, toks, grants).verdict == A.Deny <==>
              !(&& LeaderAt(rs, e, toks, 0) && Open(toks, |toks|) == 0
                && forall i: nat :: i < |toks| ==>
                     SignInOrder(toks, i) && NameInOrder(rs, e, toks, i) && PhraseInOrder(lib, rs, e, toks, i))
  {
    VerdictIsPlain(lib, rs, c, e, toks, grants);
    hide R.Valid, R.IsCompiled, A.Analyse, SignInOrder, NameInOrder, PhraseInOrder, Start, Joins, LeaderAt, MainQuery,
      Explained, Open;
    forall i: nat | i < |toks|
      ensures StartInOrder(rs, e, toks, i)
    {
    }
    hide StartInOrder;
  }

  /** The whole decision of a gate with rules, so said. */
  lemma DecisionIsPlain(
    lib: R.Library, rs: R.Ruleset, c: R.Compiled, e: L.Engine, statement: string, grants: seq<A.Grant>)
    requires R.Valid(lib, rs) && R.IsCompiled(lib, rs, c)
    ensures A.Decide(Some(c), lib.lower, e, statement, grants).verdict != A.Deny <==>
              && e in L.ENGINES && |statement| <= rs.maxStatementBytes
              && L.Tokenize(e, lib.lower, statement).Ok?
              && InOrder(lib, rs, e, L.Tokenize(e, lib.lower, statement).value)
    ensures A.Decide(Some(c), lib.lower, e, statement, grants).verdict == A.Allow <==>
              && A.Decide(Some(c), lib.lower, e, statement, grants).verdict != A.Deny
              && forall i, q :: Questioned(rs, e, L.Tokenize(e, lib.lower, statement).value, i, q) ==> Approved(grants, q)
  {
    hide R.Valid, L.Lex, A.Analyse, InOrder, Questioned, Approved;
    EnginesAre(e);
    assert c.source == rs;
    hide R.IsCompiled;
    var read := L.Tokenize(e, lib.lower, statement);
    if e in L.ENGINES && read.Ok? && read.value != [] {
      VerdictIsPlain(lib, rs, c, e, read.value, grants);
    }
    NothingInOrder(lib, rs, e);
  }

  /** What is refused before it is analysed, and why, in the order of the checks. */
  lemma DecidedBefore(
    lib: R.Library, rules: Option<R.Compiled>, e: L.Engine, statement: string, grants: seq<A.Grant>)
    ensures var d := A.Decide(rules, lib.lower, e, statement, grants);
      var known := rules.Some? && (e == L.PostgreSQL || e == L.MySQL || e == L.SQLServer);
      var short := known && |statement| <= rules.value.source.maxStatementBytes;
      && (rules.None? ==> d == A.Decision(A.Deny, A.NoRuleset, "", [], []))
      && (rules.Some? && !known ==> d == A.Decision(A.Deny, A.InvalidEngine, "", [], []))
      && (known && !short ==> d == A.Decision(A.Deny, A.StatementTooLong, "", [], []))
      && (short && L.Tokenize(e, lib.lower, statement).Err? ==> d == A.Decision(A.Deny, A.TokenizeError, "", [], []))
      && (short && L.Tokenize(e, lib.lower, statement) == Ok([]) ==> d == A.Decision(A.Deny, A.EmptyStatement, "", [], []))
      && (short && L.Tokenize(e, lib.lower, statement).Ok? && L.Tokenize(e, lib.lower, statement).value != [] ==>
            d == A.Analyse(rules.value, e, L.Tokenize(e, lib.lower, statement).value, grants))
  {
    hide L.Lex, A.Analyse;
  }

  lemma EnginesAre(e: L.Engine)
    ensures e in L.ENGINES <==> L.DialectOf(e).Some?
  {
  }

  lemma NothingInOrder(lib: R.Library, rs: R.Ruleset, e: L.Engine)
    ensures !InOrder(lib, rs, e, [])
  {
  }

  // ----- what a refusal is attributed to -----

  /** The prohibition a place falls under: the longest that reads out there, and of those the first. */
  ghost predicate Longest(lib: R.Library, rs: R.Ruleset, e: L.Engine, toks: Tokens, i: nat, r: R.Rule, k: int) {
    var rules := rs.forbiddenStatements;
    && 0 <= k < |rules| && rules[k] == r && For(r.engines, e) && ReadsOut(toks, i, lib.fields(r.pattern))
    && forall m :: 0 <= m < |rules| && For(rules[m].engines, e) && ReadsOut(toks, i, lib.fields(rules[m].pattern)) ==>
         |lib.fields(rules[m].pattern)| < |lib.fields(r.pattern)|
         || (|lib.fields(rules[m].pattern)| == |lib.fields(r.pattern)| && k <= m)
  }

  ghost predicate BannedBy(rs: R.Ruleset, e: L.Engine, name: string, id: string) {
    exists r, k :: LastFor(rs.forbiddenFunctions, e, name, r, k) && r.id == id
  }

  /** Why a token out of order is refused, the checks in their order. */
  ghost predicate Why(
    lib: R.Library, rs: R.Ruleset, e: L.Engine, toks: Tokens, i: nat, reason: A.Reason, id: string)
    requires i < |toks|
  {
    if SignAt(toks, i, ")") then reason == A.UnbalancedParens && id == ""
    else if SignAt(toks, i, ";") then reason == A.MultipleStatements && id == ""
    else if !NameInOrder(rs, e, toks, i) then
      && reason == A.ForbiddenConstruct
      && exists q :: DottedAt(toks, i, q) &&
           BannedBy(rs, e, if BannedName(rs, e, toks[i].lower) then toks[i].lower else q, id)
    else if !PhraseInOrder(lib, rs, e, toks, i) then
      reason == A.ForbiddenStatement && exists r, k :: Longest(lib, rs, e, toks, i, r, k) && r.id == id
    else reason == (if i == 0 then A.UnknownStatement else A.MultipleStatements) && id == ""
  }

  ghost predicate TokenInOrder(lib: R.Library, rs: R.Ruleset, e: L.Engine, toks: Tokens, i: nat)
    requires i < |toks|
  {
    && (i == 0 ==> LeaderAt(rs, e, toks, 0))
    && SignInOrder(toks, i) && NameInOrder(rs, e, toks, i) && PhraseInOrder(lib, rs, e, toks, i)
    && StartInOrder(rs, e, toks, i)
  }

  lemma FirstStays(c: R.Compiled, e: L.Engine, toks: Tokens, i: nat, w: A.Walk)
    requires i < |toks| && w.terminal != []
    ensures A.Step(c, e, toks, i, w).terminal != [] && A.Step(c, e, toks, i, w).terminal[0] == w.terminal[0]
  {
    hide A.QualifiedName, A.IsSafe, A.MatchPhrase, A.ReadRule, A.Forbids, A.IsMark, A.AfterSetOperator, A.IsCteName;
  }

  lemma {:induction false} FirstStands(c: R.Compiled, e: L.Engine, toks: Tokens, k: nat, n: nat)
    requires k <= n <= |toks| && A.WalkTo(c, e, toks, k).terminal != []
    ensures A.WalkTo(c, e, toks, n).terminal != []
    ensures A.WalkTo(c, e, toks, n).terminal[0] == A.WalkTo(c, e, toks, k).terminal[0]
    decreases n
  {
    hide *;
    if k < n {
      FirstStands(c, e, toks, k, n - 1);
      WalkNext(c, e, toks, n - 1);
      FirstStays(c, e, toks, n - 1, A.WalkTo(c, e, toks, n - 1));
    }
  }

  lemma LongestIs(lib: R.Library, rs: R.Ruleset, c: R.Compiled, e: L.Engine, toks: Tokens, i: nat)
    requires R.Valid(lib, rs) && R.IsCompiled(lib, rs, c) && i < |toks| && A.MatchPhrase(c, e, toks, i).Some?
    ensures exists k :: Longest(lib, rs, e, toks, i, A.MatchPhrase(c, e, toks, i).value, k)
  {
    C.ValidCompiles(lib, rs);
    hide R.Valid, A.MatchPhrase, R.IsCompiled;
    P.IndexAgreesWithScan(lib, rs, c, e, toks, i);
    var k := ScanIs(lib, rs.forbiddenStatements, e, toks, i);
    var r := A.MatchPhrase(c, e, toks, i).value;
    hide P.Longest, A.Fits, P.PhraseOf;
    assert Longest(lib, rs, e, toks, i, r, k);
  }

  lemma {:induction false} ScanIs(lib: R.Library, rules: seq<R.Rule>, e: L.Engine, toks: Tokens, i: nat) returns (k: int)
    requires i < |toks|
    ensures P.Longest(lib, rules, e, toks, i).Some? ==>
              var p := P.Longest(lib, rules, e, toks, i).value;
              && 0 <= k < |rules| && p.rule == rules[k] && p.words == lib.fields(rules[k].pattern)
              && For(rules[k].engines, e) && ReadsOut(toks, i, lib.fields(rules[k].pattern))
              && forall m :: 0 <= m < |rules| && For(rules[m].engines, e) && ReadsOut(toks, i, lib.fields(rules[m].pattern)) ==>
                   |lib.fields(rules[m].pattern)| < |p.words| || (|lib.fields(rules[m].pattern)| == |p.words| && k <= m)
    ensures P.Longest(lib, rules, e, toks, i).None? ==>
              forall m :: 0 <= m < |rules| ==>
                !(For(rules[m].engines, e) && ReadsOut(toks, i, lib.fields(rules[m].pattern)))
  {
    k := 0;
    if rules != [] {
      var n := |rules| - 1;
      k := ScanIs(lib, rules[..n], e, toks, i);
      FitsIs(lib, rules[n], e, toks, i);
      hide A.Fits, For, ReadsOut;
      var p, best := P.PhraseOf(lib, rules[n]), P.Longest(lib, rules[..n], e, toks, i);
      if A.Fits(p, e, toks, i) && (best.None? || |p.words| > |best.value.words|) {
        k := n;
      }
      assert forall m :: 0 <= m < n ==> rules[..n][m] == rules[m];
    }
  }

  /** What a step says when it refuses. */
  ghost function ObstacleAt(c: R.Compiled, e: L.Engine, toks: Tokens, i: nat): A.Obstacle
    requires i < |toks|
  {
    var name, q := toks[i].lower, A.QualifiedName(toks, i);
    if A.IsMark(toks, i, ")") then A.Obstacle(A.UnbalancedParens, [])
    else if A.IsMark(toks, i, ";") then A.Obstacle(A.MultipleStatements, [])
    else if A.Forbids(c, e, name).Some? then A.Obstacle(A.ForbiddenConstruct, A.Forbids(c, e, name).value.id)
    else if A.Forbids(c, e, q).Some? then A.Obstacle(A.ForbiddenConstruct, A.Forbids(c, e, q).value.id)
    else if !V.SafeCall(c, e, toks, i) && A.MatchPhrase(c, e, toks, i).Some? then
      A.Obstacle(A.ForbiddenStatement, A.MatchPhrase(c, e, toks, i).value.id)
    else A.Obstacle(if i == 0 then A.UnknownStatement else A.MultipleStatements, [])
  }

  lemma WordObstacle(c: R.Compiled, e: L.Engine, toks: Tokens, i: nat, w: A.Walk)
    requires i < |toks| && w.terminal == [] && A.WordStep(c, e, toks, i, w).terminal != []
    ensures var safe := V.SafeCall(c, e, toks, i);
      A.WordStep(c, e, toks, i, w).terminal ==
      [if !safe && A.MatchPhrase(c, e, toks, i).Some? then
         A.Obstacle(A.ForbiddenStatement, A.MatchPhrase(c, e, toks, i).value.id)
       else A.Obstacle(if i == 0 then A.UnknownStatement else A.MultipleStatements, [])]
  {
    hide A.QualifiedName, A.IsSafe, A.MatchPhrase, A.ReadRule, A.IsMark, A.AfterSetOperator, A.IsCall, A.CallStep;
  }

  lemma StepObstacle(c: R.Compiled, e: L.Engine, toks: Tokens, i: nat, w: A.Walk)
    requires i < |toks| && w.terminal == [] && A.Step(c, e, toks, i, w).terminal != []
    ensures A.Step(c, e, toks, i, w).terminal == [ObstacleAt(c, e, toks, i)]
  {
    hide A.QualifiedName, A.MatchPhrase, A.Forbids, A.WordStep, V.SafeCall, A.Escalate;
    if toks[i].kind == L.Word && A.WordStep(c, e, toks, i, w).terminal != [] {
      WordObstacle(c, e, toks, i, w);
    }
    EscalateKeeps(w, A.QualifiedName(toks, i));
  }

  lemma EscalateKeeps(w: A.Walk, q: string)
    ensures A.Escalate(w, q).terminal == w.terminal
  {
  }

  lemma NameWhy(lib: R.Library, rs: R.Ruleset, c: R.Compiled, e: L.Engine, toks: Tokens, i: nat)
    requires Served(lib, rs, c, e) && i < |toks| && !V.NameClear(c, e, toks, i)
    ensures var name, q := toks[i].lower, A.QualifiedName(toks, i);
      && DottedAt(toks, i, q) && A.IsName(toks, i)
      && (BannedName(rs, e, name) <==> A.Forbids(c, e, name).Some?)
      && (A.Forbids(c, e, name).Some? ==> BannedBy(rs, e, name, A.Forbids(c, e, name).value.id))
      && (A.Forbids(c, e, name).None? ==>
            A.Forbids(c, e, q).Some? && BannedBy(rs, e, q, A.Forbids(c, e, q).value.id))
  {
    var name, q := toks[i].lower, A.QualifiedName(toks, i);
    DottedIs(toks, i, q);
    BannedNameIs(lib, rs, c, e, name);
    BanIs(lib, rs, c, e, name);
    BanIs(lib, rs, c, e, q);
    hide A.QualifiedName, A.Forbids, BannedName, BannedBy, DottedAt, Served, A.IsName, R.Valid, R.IsCompiled;
  }

  lemma BanIs(lib: R.Library, rs: R.Ruleset, c: R.Compiled, e: L.Engine, name: string)
    requires R.IsCompiled(lib, rs, c) && e in L.ENGINES
    ensures A.Forbids(c, e, name).Some? ==> BannedBy(rs, e, name, A.Forbids(c, e, name).value.id)
  {
    var k := LastIs(rs.forbiddenFunctions, e, name);
    hide R.IndexFor, LastFor;
  }

  lemma PhraseWhy(lib: R.Library, rs: R.Ruleset, c: R.Compiled, e: L.Engine, toks: Tokens, i: nat)
    requires Served(lib, rs, c, e) && i < |toks| && !V.PhraseClear(c, e, toks, i)
    ensures A.MatchPhrase(c, e, toks, i).Some? && !V.SafeCall(c, e, toks, i) && V.IsWord(toks, i)
    ensures exists k :: Longest(lib, rs, e, toks, i, A.MatchPhrase(c, e, toks, i).value, k)
  {
    hide A.MatchPhrase, V.SafeCall, R.Valid, R.IsCompiled;
    LongestIs(lib, rs, c, e, toks, i);
  }

  lemma WhyIs(lib: R.Library, rs: R.Ruleset, c: R.Compiled, e: L.Engine, toks: Tokens, i: nat)
    requires Served(lib, rs, c, e) && i < |toks| && V.IsWord(toks, 0) && !V.Clear(c, e, toks, i)
    ensures Why(lib, rs, e, toks, i, ObstacleAt(c, e, toks, i).reason, ObstacleAt(c, e, toks, i).ruleID)
  {
    SignIs(toks, i, ")");
    SignIs(toks, i, ";");
    NameInOrderIs(lib, rs, c, e, toks, i);
    PhraseInOrderIs(lib, rs, c, e, toks, i);
    NamesOnly(c, e, toks, i);
    if !V.NameClear(c, e, toks, i) {
      NameWhy(lib, rs, c, e, toks, i);
    } else if !V.PhraseClear(c, e, toks, i) {
      PhraseWhy(lib, rs, c, e, toks, i);
    }
    NamesAllowed(c, e, toks, i);
    hide Served, A.QualifiedName, A.Forbids, BannedName, BannedBy, DottedAt, NameInOrder, PhraseInOrder, Longest,
      A.MatchPhrase, V.SafeCall, V.BoundaryClear, V.Reads, V.DepthAt, SignAt, A.IsMark, V.Clear, V.NameClear,
      V.PhraseClear, A.IsName, V.IsWord;
  }

  lemma NamesAllowed(c: R.Compiled, e: L.Engine, toks: Tokens, i: nat)
    requires i < |toks|
    ensures V.NameClear(c, e, toks, i) && A.IsName(toks, i) ==>
              A.Forbids(c, e, toks[i].lower).None? && A.Forbids(c, e, A.QualifiedName(toks, i)).None?
    ensures V.PhraseClear(c, e, toks, i) && V.IsWord(toks, i) ==>
              V.SafeCall(c, e, toks, i) || A.MatchPhrase(c, e, toks, i).None?
    ensures V.NameClear(c, e, toks, i) || A.IsName(toks, i)
    ensures V.PhraseClear(c, e, toks, i) || V.IsWord(toks, i)
  {
    hide A.Forbids, A.QualifiedName, V.SafeCall, A.MatchPhrase;
  }

  /** What is out of order is a sign, or a name. */
  lemma NamesOnly(c: R.Compiled, e: L.Engine, toks: Tokens, i: nat)
    requires i < |toks| && V.IsWord(toks, 0) && !V.Clear(c, e, toks, i)
    ensures A.IsMark(toks, i, ")") || A.IsMark(toks, i, ";") ==> !A.IsName(toks, i) && !V.IsWord(toks, i)
    ensures !A.IsMark(toks, i, ")") && !A.IsMark(toks, i, ";") ==>
              A.IsName(toks, i) && (V.NameClear(c, e, toks, i) ==> V.IsWord(toks, i))
  {
    hide A.Forbids, A.QualifiedName, V.SafeCall, A.MatchPhrase, V.WithBody, V.PrefixOpen, V.DepthAt, A.ReadRule,
      A.AfterSetOperator;
  }

  lemma {:induction false} FirstOut(lib: R.Library, rs: R.Ruleset, e: L.Engine, toks: Tokens, n: nat) returns (k: nat)
    requires n <= |toks|
    ensures k <= n && (forall j: nat :: j < k ==> TokenInOrder(lib, rs, e, toks, j))
    ensures k < n ==> !TokenInOrder(lib, rs, e, toks, k)
  {
    hide TokenInOrder;
    k := 0;
    while k < n && TokenInOrder(lib, rs, e, toks, k)
      invariant k <= n && forall j: nat :: j < k ==> TokenInOrder(lib, rs, e, toks, j)
    {
      k := k + 1;
    }
  }

  /** The refusal of a statement, by the first token of it that is out of order. */
  ghost predicate RefusedBy(
    lib: R.Library, rs: R.Ruleset, e: L.Engine, toks: Tokens, k: nat, reason: A.Reason, id: string)
  {
    && k < |toks| && !TokenInOrder(lib, rs, e, toks, k) && (forall j: nat :: j < k ==> TokenInOrder(lib, rs, e, toks, j))
    && Why(lib, rs, e, toks, k, reason, id)
  }

  /**
    A refusal says why: the statement begins with no word; or else its first token out of order, and
    of the checks on that token the first to fail; or else only that parentheses stand open at its end.
   */
  lemma RefusalIsPlain(lib: R.Library, rs: R.Ruleset, c: R.Compiled, e: L.Engine, toks: Tokens, grants: seq<A.Grant>)
    requires R.Valid(lib, rs) && R.IsCompiled(lib, rs, c) && e in L.ENGINES && toks != []
    requires A.Analyse(c, e, toks, grants).verdict == A.Deny
    ensures var d := A.Analyse(c, e, toks, grants);
      if !WordAt(toks, 0) then d.reason == A.LeadingTokenNotWord && d.ruleID == ""
      else
        || (exists k: nat :: RefusedBy(lib, rs, e, toks, k, d.reason, d.ruleID))
        || (&& (forall j: nat :: j < |toks| ==> TokenInOrder(lib, rs, e, toks, j))
            && Open(toks, |toks|) != 0 && d.reason == A.UnbalancedParens && d.ruleID == "")
  {
    assert Served(lib, rs, c, e);
    hide R.Valid, R.IsCompiled, Served, TokenInOrder, Why;
    if WordAt(toks, 0) {
      var k := FirstOut(lib, rs, e, toks, |toks|);
      if k < |toks| {
        RefusedAt(lib, rs, c, e, toks, grants, k);
      } else {
        NothingOut(lib, rs, c, e, toks, grants);
      }
    }
  }

  lemma TokenInOrderIs(lib: R.Library, rs: R.Ruleset, c: R.Compiled, e: L.Engine, toks: Tokens, i: nat)
    requires Served(lib, rs, c, e) && i < |toks|
    ensures TokenInOrder(lib, rs, e, toks, i) <==> V.Clear(c, e, toks, i)
  {
    ClearIs(lib, rs, c, e, toks, i);
    hide Served, SignInOrder, NameInOrder, PhraseInOrder, StartInOrder, LeaderAt, V.Clear;
  }

  lemma RefusedAt(
    lib: R.Library, rs: R.Ruleset, c: R.Compiled, e: L.Engine, toks: Tokens, grants: seq<A.Grant>, k: nat)
    requires Served(lib, rs, c, e) && WordAt(toks, 0) && k < |toks|
    requires !TokenInOrder(lib, rs, e, toks, k) && forall j: nat :: j < k ==> TokenInOrder(lib, rs, e, toks, j)
    ensures var d := A.Analyse(c, e, toks, grants); RefusedBy(lib, rs, e, toks, k, d.reason, d.ruleID)
  {
    hide Served, TokenInOrder, V.Clear, A.Step, A.WalkTo, V.Followed, Why, ObstacleAt, V.DepthAt;
    forall j: nat | j < |toks|
      ensures TokenInOrder(lib, rs, e, toks, j) <==> V.Clear(c, e, toks, j)
    {
      TokenInOrderIs(lib, rs, c, e, toks, j);
    }
    V.WalkSays(c, e, toks, k);
    V.WalkSays(c, e, toks, k + 1);
    WalkNext(c, e, toks, k);
    StepObstacle(c, e, toks, k, A.WalkTo(c, e, toks, k));
    FirstStands(c, e, toks, k + 1, |toks|);
    assert V.IsWord(toks, 0);
    WhyIs(lib, rs, c, e, toks, k);
  }

  lemma WalkNext(c: R.Compiled, e: L.Engine, toks: Tokens, k: nat)
    requires k < |toks|
    ensures A.WalkTo(c, e, toks, k + 1) == A.Step(c, e, toks, k, A.WalkTo(c, e, toks, k))
  {
    hide A.Step;
  }

  lemma NothingOut(
    lib: R.Library, rs: R.Ruleset, c: R.Compiled, e: L.Engine, toks: Tokens, grants: seq<A.Grant>)
    requires Served(lib, rs, c, e) && WordAt(toks, 0) && A.Analyse(c, e, toks, grants).verdict == A.Deny
    requires forall j: nat :: j < |toks| ==> TokenInOrder(lib, rs, e, toks, j)
    ensures var d := A.Analyse(c, e, toks, grants);
      Open(toks, |toks|) != 0 && d.reason == A.UnbalancedParens && d.ruleID == ""
  {
    hide Served, TokenInOrder, V.Clear, A.WalkTo, V.Followed, V.DepthAt, Open, A.Select;
    forall j: nat | j < |toks|
      ensures V.Clear(c, e, toks, j)
    {
      TokenInOrderIs(lib, rs, c, e, toks, j);
    }
    V.WalkSays(c, e, toks, |toks|);
    OpenIs(toks, |toks|);
  }

  // ----- what is still to be approved -----

  /** A call in question asks for this. */
  ghost predicate AsksFor(rs: R.Ruleset, e: L.Engine, toks: Tokens, i: nat, id: string) {
    exists q :: Questioned(rs, e, toks, i, q) && id == "function:" + q
  }

  ghost predicate FirstAsksFor(rs: R.Ruleset, e: L.Engine, toks: Tokens, i: nat, id: string) {
    AsksFor(rs, e, toks, i, id) && forall j: nat :: j < i ==> !AsksFor(rs, e, toks, j, id)
  }

  /** In the order in which they are first asked for. */
  ghost predicate AsAsked(rs: R.Ruleset, e: L.Engine, toks: Tokens, ids: seq<string>) {
    forall j, k :: 0 <= j < k < |ids| ==> AskedBefore(rs, e, toks, ids[j], ids[k])
  }

  ghost predicate AskedBefore(rs: R.Ruleset, e: L.Engine, toks: Tokens, x: string, y: string) {
    forall a: nat, b: nat :: FirstAsksFor(rs, e, toks, a, x) && FirstAsksFor(rs, e, toks, b, y) ==> a < b
  }

  ghost predicate HasGrant(grants: seq<A.Grant>, id: string) {
    exists g :: g in grants && g.ruleID == id
  }

  lemma AsksForIs(lib: R.Library, rs: R.Ruleset, c: R.Compiled, e: L.Engine, toks: Tokens, i: nat, id: string)
    requires Served(lib, rs, c, e) && i < |toks|
    ensures AsksFor(rs, e, toks, i, id) <==> V.Asks(c, e, toks, i) && V.CallId(toks, i) == id
  {
    QuestionedIs(lib, rs, c, e, toks, i, A.QualifiedName(toks, i));
    forall q
      ensures Questioned(rs, e, toks, i, q) ==> V.Asks(c, e, toks, i) && q == A.QualifiedName(toks, i)
    {
      QuestionedIs(lib, rs, c, e, toks, i, q);
    }
    hide Served, Questioned, V.Asks, A.QualifiedName;
  }

  lemma AsksWithin(rs: R.Ruleset, e: L.Engine, toks: Tokens, i: nat, id: string)
    ensures AsksFor(rs, e, toks, i, id) ==> i < |toks|
  {
    if q :| Questioned(rs, e, toks, i, q) && id == "function:" + q {
      QuestionedWithin(rs, e, toks, i, q);
    }
    hide Questioned;
  }

  /** The calls found so far, in order. */
  lemma {:induction false} AskIdsOrdered(lib: R.Library, rs: R.Ruleset, c: R.Compiled, e: L.Engine, toks: Tokens, n: nat)
    requires Served(lib, rs, c, e) && n <= |toks|
    ensures AsAsked(rs, e, toks, V.AskIds(c, e, toks, n))
    ensures forall id :: id in V.AskIds(c, e, toks, n) <==> exists i: nat :: i < n && AsksFor(rs, e, toks, i, id)
  {
    hide Served, AsksFor, V.Asks, V.CallId;
    if n > 0 {
      var before := V.AskIds(c, e, toks, n - 1);
      AskIdsOrdered(lib, rs, c, e, toks, n - 1);
      var id := V.CallId(toks, n - 1);
      var m: nat := n - 1;
      forall other
        ensures AsksFor(rs, e, toks, m, other) <==> V.Asks(c, e, toks, m) && id == other
      {
        AsksForIs(lib, rs, c, e, toks, m, other);
      }
      if V.Asks(c, e, toks, m) && id !in before {
        NextAsked(rs, e, toks, before, m, id);
      }
    }
  }

  lemma NextAsked(rs: R.Ruleset, e: L.Engine, toks: Tokens, before: seq<string>, n: nat, id: string)
    requires AsAsked(rs, e, toks, before) && AsksFor(rs, e, toks, n, id)
    requires forall x :: x in before ==> exists i: nat :: i < n && AsksFor(rs, e, toks, i, x)
    requires forall i: nat :: i < n ==> !AsksFor(rs, e, toks, i, id)
    ensures AsAsked(rs, e, toks, before + [id])
  {
    hide AsksFor;
    var ids := before + [id];
    forall j, k | 0 <= j < k < |ids|
      ensures AskedBefore(rs, e, toks, ids[j], ids[k])
    {
      if k < |before| {
        assert ids[j] == before[j] && ids[k] == before[k];
      } else {
        assert ids[j] == before[j] && before[j] in before;
      }
    }
  }

  lemma {:induction false} SelectOrdered(
    rs: R.Ruleset, e: L.Engine, toks: Tokens, ids: seq<string>, grants: seq<A.Grant>, granted: bool)
    requires AsAsked(rs, e, toks, ids)
    ensures AsAsked(rs, e, toks, A.Select(ids, grants, granted))
  {
    hide AskedBefore, A.Granted;
    if ids != [] {
      var n := |ids| - 1;
      var front := ids[..n];
      assert forall j :: 0 <= j < n ==> front[j] == ids[j];
      SelectOrdered(rs, e, toks, front, grants, granted);
      var chosen := A.Select(front, grants, granted);
      V.SelectIs(front, grants, granted);
      forall j | 0 <= j < |chosen|
        ensures AskedBefore(rs, e, toks, chosen[j], ids[n])
      {
        assert chosen[j] in chosen;
        var m :| 0 <= m < n && ids[m] == chosen[j];
      }
    }
  }

  lemma HasGrantIs(grants: seq<A.Grant>, id: string)
    ensures HasGrant(grants, id) <==> A.Granted(grants, id)
  {
  }

  /** What a decision that is no refusal says, besides the verdict. */
  lemma ListsArePlain(lib: R.Library, rs: R.Ruleset, c: R.Compiled, e: L.Engine, toks: Tokens, grants: seq<A.Grant>)
    requires R.Valid(lib, rs) && R.IsCompiled(lib, rs, c) && e in L.ENGINES && toks != []
    requires A.Analyse(c, e, toks, grants).verdict != A.Deny
    ensures var d := A.Analyse(c, e, toks, grants);
      && (d.verdict == A.Allow ==>
            && d.reason == A.ReadStatement && d.pending == []
            && (exists r :: LedBy(rs, e, toks[0].lower, r) && d.ruleID == r.id)
            && AsAsked(rs, e, toks, d.grantsUsed)
            && forall id :: id in d.grantsUsed <==> exists i: nat :: AsksFor(rs, e, toks, i, id))
      && (d.verdict == A.NeedsApproval ==>
            && d.reason == A.UnknownFunction && d.pending != [] && d.ruleID == d.pending[0] && d.grantsUsed == []
            && AsAsked(rs, e, toks, d.pending)
            && forall id :: id in d.pending <==>
                 !HasGrant(grants, id) && exists i: nat :: AsksFor(rs, e, toks, i, id))
  {
    assert Served(lib, rs, c, e);
    var n := |toks|;
    var w := A.WalkTo(c, e, toks, n);
    Concluded(c, e, toks, grants);
    AskIdsOrdered(lib, rs, c, e, toks, n);
    SelectOrdered(rs, e, toks, w.escalatable, grants, false);
    SelectOrdered(rs, e, toks, w.escalatable, grants, true);
    V.SelectIs(w.escalatable, grants, false);
    V.SelectIs(w.escalatable, grants, true);
    LedByIs(lib, rs, c, e, toks[0].lower, w.allowedBy);
    forall id
      ensures HasGrant(grants, id) <==> A.Granted(grants, id)
      ensures forall i: nat :: AsksFor(rs, e, toks, i, id) ==> i < n
    {
      HasGrantIs(grants, id);
      forall i: nat | AsksFor(rs, e, toks, i, id)
        ensures i < n
      {
        AsksWithin(rs, e, toks, i, id);
      }
    }
    hide R.Valid, R.IsCompiled, Served, A.Analyse, A.WalkTo, AsAsked, AsksFor, LedBy, HasGrant, A.Granted, A.Select, V.AskIds;
    AllUsed(w.escalatable, grants);
  }

  lemma AllUsed(ids: seq<string>, grants: seq<A.Grant>)
    ensures A.Select(ids, grants, false) == [] ==> forall id :: id in ids ==> A.Granted(grants, id)
  {
    V.SelectIs(ids, grants, false);
    hide A.Select, A.Granted;
  }

  /** What a walk that nothing refused concludes. */
  lemma Concluded(c: R.Compiled, e: L.Engine, toks: Tokens, grants: seq<A.Grant>)
    requires toks != [] && A.Analyse(c, e, toks, grants).verdict != A.Deny
    ensures var w := A.WalkTo(c, e, toks, |toks|);
      var pending := A.Select(w.escalatable, grants, false);
      && w.escalatable == V.AskIds(c, e, toks, |toks|) && Some(w.allowedBy) == A.ReadRule(c, e, toks[0].lower)
      && A.Analyse(c, e, toks, grants) ==
           if pending == [] then
             A.Decision(A.Allow, A.ReadStatement, w.allowedBy.id, [], A.Select(w.escalatable, grants, true))
           else A.Decision(A.NeedsApproval, A.UnknownFunction, pending[0], pending, [])
  {
    V.WalkSays(c, e, toks, |toks|);
    hide A.WalkTo, A.Select, V.AskIds, V.ClearTo, V.DepthAt, V.WithOpen, V.PrefixOpen, A.ReadRule;
  }
}
