/**
  What the server reports of the rules in force: their difference from the baseline
  (internal/mcp/overlay.go). An empty difference means the gate decides as the baseline would.
 */
module GateOverlay {
  import opened Wrappers
  import opened GateLexer
  import opened GateRules
  import opened GateRulesLoops
  import opened GateAnalysis
  import opened GateVerdicts
  import opened GateTightening

  datatype Kind = ReadKind | StatementKind | FunctionKind

  datatype KindedRule = KindedRule(kind: Kind, rule: Rule)

  datatype RulesetDiff = RulesetDiff(
    rulesAdded: map<string, KindedRule>,
    rulesRemoved: map<string, KindedRule>,
    rulesReplaced: map<string, (KindedRule, KindedRule)>,
    safeFunctionsAdded: map<Engine, set<string>>,
    safeFunctionsRemoved: map<Engine, set<string>>,
    nonFunctionKeywordsAdded: set<string>,
    maxStatementBytes: Option<(int, int)>)
  {
    predicate Empty() {
      && rulesAdded == map[] && rulesRemoved == map[] && rulesReplaced == map[]
      && safeFunctionsAdded == map[] && safeFunctionsRemoved == map[]
      && nonFunctionKeywordsAdded == {} && maxStatementBytes == None
    }
  }

  function Tag(kind: Kind, rules: seq<Rule>): seq<KindedRule> {
    seq(|rules|, i requires 0 <= i < |rules| => KindedRule(kind, rules[i]))
  }

  function Kinded(rs: Ruleset): seq<KindedRule> {
    Tag(ReadKind, rs.readStatements) + Tag(StatementKind, rs.forbiddenStatements)
    + Tag(FunctionKind, rs.forbiddenFunctions)
  }

  function ById(rules: seq<KindedRule>): map<string, KindedRule> {
    if rules == [] then map[]
    else ById(rules[..|rules| - 1])[rules[|rules| - 1].rule.id := rules[|rules| - 1]]
  }

  /** The difference of the rules in force from the baseline, as a whole. */
  ghost predicate IsDiff(base: Ruleset, inForce: Ruleset, d: RulesetDiff) {
    var was, now := ById(Kinded(base)), ById(Kinded(inForce));
    && d.rulesAdded == (map id | id in now && id !in was :: now[id])
    && d.rulesRemoved == (map id | id in was && id !in now :: was[id])
    && d.rulesReplaced == (map id | id in was && id in now && was[id] != now[id] :: (was[id], now[id]))
    && d.safeFunctionsAdded == MissingFrom(SafeNamesOf(base), SafeNamesOf(inForce))
    && d.safeFunctionsRemoved == MissingFrom(SafeNamesOf(inForce), SafeNamesOf(base))
    && d.nonFunctionKeywordsAdded ==
         (set k | k in inForce.nonFunctionKeywords) - (set k | k in base.nonFunctionKeywords)
    && d.maxStatementBytes ==
         (if base.maxStatementBytes == inForce.maxStatementBytes then None
          else Some((base.maxStatementBytes, inForce.maxStatementBytes)))
  }

  ghost function SafeNamesOf(rs: Ruleset): map<Engine, set<string>> {
    map e | e in ENGINES :: SafeNames(rs.safeFunctions, e)
  }

  /** Engine by engine, the names the candidate has and the reference lacks, where there are any. */
  function MissingFrom(reference: map<Engine, set<string>>, candidate: map<Engine, set<string>>)
    : map<Engine, set<string>>
  {
    map e | e in reference && e in candidate && candidate[e] - reference[e] != {} :: candidate[e] - reference[e]
  }

  // ----- computing it -----

  method RulesById(rs: Ruleset) returns (m: map<string, KindedRule>)
    ensures m == ById(Kinded(rs))
  {
    m := map[];
    var rules := Kinded(rs);
    for i := 0 to |rules|
      invariant m == ById(rules[..i])
    {
      TakeOneMore(rules, i);
      m := m[rules[i].rule.id := rules[i]];
    }
    assert rules[..|rules|] == rules;
  }

  method DiffRules(was: map<string, KindedRule>, now: map<string, KindedRule>)
    returns (added: map<string, KindedRule>, replaced: map<string, (KindedRule, KindedRule)>)
    ensures added == map id | id in now && id !in was :: now[id]
    ensures replaced == map id | id in was && id in now && was[id] != now[id] :: (was[id], now[id])
  {
    added, replaced := map[], map[];
    var left := now.Keys;
    while left != {}
      invariant left <= now.Keys
      invariant added == map id | id in now && id !in left && id !in was :: now[id]
      invariant replaced ==
                map id | id in was && id in now && id !in left && was[id] != now[id] :: (was[id], now[id])
      decreases |left|
    {
      var id :| id in left;
      left := left - {id};
      if id !in was {
        added := added[id := now[id]];
      } else if was[id] != now[id] {
        replaced := replaced[id := (was[id], now[id])];
      }
    }
  }

  method RemovedRules(was: map<string, KindedRule>, now: map<string, KindedRule>)
    returns (removed: map<string, KindedRule>)
    ensures removed == map id | id in was && id !in now :: was[id]
  {
    removed := map[];
    var left := was.Keys;
    while left != {}
      invariant left <= was.Keys
      invariant removed == map id | id in was && id !in left && id !in now :: was[id]
      decreases |left|
    {
      var id :| id in left;
      left := left - {id};
      if id !in now {
        removed := removed[id := was[id]];
      }
    }
  }

  /** What the source computes when rules are loaded, to be written to its log. */
  method DiffAgainstBaseline(base: Ruleset, inForce: Ruleset) returns (d: RulesetDiff)
    ensures IsDiff(base, inForce, d)
  {
    hide ById, SafeNames;
    var was := RulesById(base);
    var now := RulesById(inForce);
    var added, replaced := DiffRules(was, now);
    var removed := RemovedRules(was, now);
    var baseSafe := IndexSafe(base.safeFunctions);
    var forceSafe := IndexSafe(inForce.safeFunctions);
    assert baseSafe == SafeNamesOf(base) && forceSafe == SafeNamesOf(inForce);
    var keywords: set<string> := {};
    for i := 0 to |inForce.nonFunctionKeywords|
      invariant keywords ==
                (set k | k in inForce.nonFunctionKeywords[..i]) - (set k | k in base.nonFunctionKeywords)
    {
      TakeOneMore(inForce.nonFunctionKeywords, i);
      var k := inForce.nonFunctionKeywords[i];
      if k !in base.nonFunctionKeywords {
        keywords := keywords + {k};
      }
    }
    assert inForce.nonFunctionKeywords[..|inForce.nonFunctionKeywords|] == inForce.nonFunctionKeywords;
    d := RulesetDiff(
      added, removed, replaced,
      MissingFrom(baseSafe, forceSafe), MissingFrom(forceSafe, baseSafe), keywords,
      if base.maxStatementBytes == inForce.maxStatementBytes then None
      else Some((base.maxStatementBytes, inForce.maxStatementBytes)));
  }

  // ----- an empty difference -----

  ghost predicate UniqueKinded(rules: seq<KindedRule>) {
    forall i, j :: 0 <= i < j < |rules| ==> rules[i].rule.id != rules[j].rule.id
  }

  lemma KindedUnique(rs: Ruleset)
    requires UniqueIds(AllRules(rs))
    ensures UniqueKinded(Kinded(rs))
  {
    assert |Kinded(rs)| == |AllRules(rs)|;
    forall i | 0 <= i < |Kinded(rs)|
      ensures Kinded(rs)[i].rule == AllRules(rs)[i]
    {
    }
    hide Kinded, AllRules;
  }

  lemma {:induction false} ByIdIs(rules: seq<KindedRule>)
    requires UniqueKinded(rules)
    ensures forall k :: k in rules <==> k.rule.id in ById(rules) && ById(rules)[k.rule.id] == k
  {
    if rules != [] {
      var n := |rules| - 1;
      ByIdIs(rules[..n]);
      ByIdKeys(rules[..n]);
      assert rules == rules[..n] + [rules[n]];
    }
  }

  lemma {:induction false} ByIdKeys(rules: seq<KindedRule>)
    ensures forall id :: id in ById(rules) ==> ById(rules)[id] in rules && ById(rules)[id].rule.id == id
  {
    if rules != [] {
      var n := |rules| - 1;
      ByIdKeys(rules[..n]);
      assert rules == rules[..n] + [rules[n]];
    }
  }

  lemma KindedIn(rs: Ruleset, k: KindedRule)
    ensures k in Kinded(rs) <==>
            match k.kind {
              case ReadKind => k.rule in rs.readStatements
              case StatementKind => k.rule in rs.forbiddenStatements
              case FunctionKind => k.rule in rs.forbiddenFunctions
            }
  {
    TagIn(ReadKind, rs.readStatements, k);
    TagIn(StatementKind, rs.forbiddenStatements, k);
    TagIn(FunctionKind, rs.forbiddenFunctions, k);
    hide Tag;
  }

  lemma TagIn(kind: Kind, rules: seq<Rule>, k: KindedRule)
    ensures k in Tag(kind, rules) <==> k.kind == kind && k.rule in rules
  {
    if k.kind == kind && k.rule in rules {
      var i :| 0 <= i < |rules| && rules[i] == k.rule;
      assert Tag(kind, rules)[i] == k;
    }
  }

  lemma SameRules(a: Ruleset, b: Ruleset)
    requires UniqueIds(AllRules(a)) && UniqueIds(AllRules(b)) && ById(Kinded(a)) == ById(Kinded(b))
    ensures forall r :: r in a.readStatements <==> r in b.readStatements
    ensures forall r :: r in a.forbiddenStatements <==> r in b.forbiddenStatements
    ensures forall r :: r in a.forbiddenFunctions <==> r in b.forbiddenFunctions
  {
    KindedUnique(a);
    KindedUnique(b);
    ByIdIs(Kinded(a));
    ByIdIs(Kinded(b));
    hide ById, Kinded, UniqueKinded;
    forall kind, r
      ensures KindedRule(kind, r) in Kinded(a) <==> KindedRule(kind, r) in Kinded(b)
    {
    }
    forall r
      ensures r in a.readStatements <==> r in b.readStatements
      ensures r in a.forbiddenStatements <==> r in b.forbiddenStatements
      ensures r in a.forbiddenFunctions <==> r in b.forbiddenFunctions
    {
      KindedIn(a, KindedRule(ReadKind, r));
      KindedIn(b, KindedRule(ReadKind, r));
      KindedIn(a, KindedRule(StatementKind, r));
      KindedIn(b, KindedRule(StatementKind, r));
      KindedIn(a, KindedRule(FunctionKind, r));
      KindedIn(b, KindedRule(FunctionKind, r));
    }
  }

  lemma NothingMissing(a: map<Engine, set<string>>, b: map<Engine, set<string>>, e: Engine)
    requires e in a && e in b && MissingFrom(a, b) == map[]
    ensures b[e] <= a[e]
  {
    assert e !in MissingFrom(a, b);
    assert b[e] <= a[e] + (b[e] - a[e]);
  }

  lemma EmptyDiffMaps(was: map<string, KindedRule>, now: map<string, KindedRule>)
    requires (map id | id in now && id !in was :: now[id]) == map[]
    requires (map id | id in was && id !in now :: was[id]) == map[]
    requires (map id | id in was && id in now && was[id] != now[id] :: (was[id], now[id])) == map[]
    ensures was == now
  {
    forall id
      ensures id in was <==> id in now
      ensures id in was && id in now ==> was[id] == now[id]
    {
      assert id !in (map i | i in now && i !in was :: now[i]);
      assert id !in (map i | i in was && i !in now :: was[i]);
      assert id !in (map i | i in was && i in now && was[i] != now[i] :: (was[i], now[i]));
    }
  }

  /** With nothing to report, each ruleset is at least as tight as the other. */
  lemma EmptyDiffTighter(lib: Library, base: Ruleset, ov: Overlay, merged: Ruleset, d: RulesetDiff)
    requires Valid(lib, base) && Merges(lib, base, ov, merged) && IsDiff(base, merged, d) && d.Empty()
    ensures Tighter(merged, base) && Tighter(base, merged)
    ensures forall r :: r in base.readStatements <==> r in merged.readStatements
  {
    EmptyDiffMaps(ById(Kinded(base)), ById(Kinded(merged)));
    SameRules(base, merged);
    hide ById, Kinded, Valid, SafeNames;
    forall e | e in ENGINES
      ensures SafeNames(base.safeFunctions, e) == SafeNames(merged.safeFunctions, e)
    {
      NothingMissing(SafeNamesOf(base), SafeNamesOf(merged), e);
      NothingMissing(SafeNamesOf(merged), SafeNamesOf(base), e);
    }
    KeywordsKept(base, ov, merged);
    var added := (set k | k in merged.nonFunctionKeywords) - (set k | k in base.nonFunctionKeywords);
    forall k
      ensures k in merged.nonFunctionKeywords ==> k in base.nonFunctionKeywords
    {
      assert k !in added;
    }
  }

  lemma KeywordsKept(base: Ruleset, ov: Overlay, merged: Ruleset)
    requires Patched(base, ov) == Some(merged)
    ensures forall k :: k in base.nonFunctionKeywords ==> k in merged.nonFunctionKeywords
  {
    hide DropRules, DropSafes;
  }

  /** What a decision lists, of the calls that ask. */
  lemma ListsAre(c: Compiled, e: Engine, toks: seq<Token>, grants: seq<Grant>)
    requires toks != []
    ensures var d, ids := Analyse(c, e, toks, grants), AskIds(c, e, toks, |toks|);
      match d.verdict
      case Deny => d.pending == [] && d.grantsUsed == []
      case NeedsApproval => d.pending == Select(ids, grants, false) && d.grantsUsed == []
      case Allow => d.pending == [] && d.grantsUsed == Select(ids, grants, true)
  {
    if toks[0].kind == Word {
      WalkSays(c, e, toks, |toks|);
    }
    hide WalkTo, AskIds, Select, DepthAt, ClearTo, WithOpen, PrefixOpen, ReadRule;
  }

  lemma {:induction false} SameAskIds(a: Compiled, b: Compiled, e: Engine, toks: seq<Token>, n: nat)
    requires n <= |toks| && forall i: nat :: i < |toks| ==> Asks(a, e, toks, i) == Asks(b, e, toks, i)
    ensures AskIds(a, e, toks, n) == AskIds(b, e, toks, n)
  {
    hide Asks, CallId;
    if n > 0 {
      SameAskIds(a, b, e, toks, n - 1);
    }
  }

  /** Two decisions the caller cannot tell apart, but for what a refusal is attributed to. */
  predicate SameAnswer(d: Decision, o: Decision) {
    d.verdict == o.verdict && d.pending == o.pending && d.grantsUsed == o.grantsUsed
  }

  lemma AnalysisAlike(a: Compiled, b: Compiled, e: Engine, toks: seq<Token>, grants: seq<Grant>)
    requires NoLooser(a, b, e) && NoLooser(b, a, e) && toks != []
    ensures SameAnswer(Analyse(a, e, toks, grants), Analyse(b, e, toks, grants))
  {
    hide *;
    AnalysisNoLooser(a, b, e, toks, grants);
    AnalysisNoLooser(b, a, e, toks, grants);
    SameLooseness(Analyse(a, e, toks, grants).verdict, Analyse(b, e, toks, grants).verdict);
    forall i: nat | i < |toks|
      ensures Asks(a, e, toks, i) == Asks(b, e, toks, i)
    {
      TokenNoLooser(a, b, e, toks, i);
      TokenNoLooser(b, a, e, toks, i);
    }
    SameAskIds(a, b, e, toks, |toks|);
    ListsAre(a, e, toks, grants);
    ListsAre(b, e, toks, grants);
    AnswerIs(Analyse(a, e, toks, grants), Analyse(b, e, toks, grants));
  }

  lemma AnswerIs(d: Decision, o: Decision)
    requires d.verdict == o.verdict && d.pending == o.pending && d.grantsUsed == o.grantsUsed
    ensures SameAnswer(d, o)
  {
  }

  lemma DecisionAlike(a: Compiled, b: Compiled, fold: Fold, e: Engine, statement: string, grants: seq<Grant>)
    requires NoLooser(a, b, e) && NoLooser(b, a, e) && a.source.maxStatementBytes == b.source.maxStatementBytes
    ensures SameAnswer(Decide(Some(a), fold, e, statement, grants), Decide(Some(b), fold, e, statement, grants))
  {
    hide Tokenize, Analyse, NoLooser;
    if Tokenize(e, fold, statement).Ok? && Tokenize(e, fold, statement).value != [] {
      AnalysisAlike(a, b, e, Tokenize(e, fold, statement).value, grants);
    }
  }

  /**
    An overlay that merges and leaves nothing to report decides every statement as the baseline
    does, the grants it asks for and the grants it used included, where no two read rules of an
    engine match the same keyword.
   */
  lemma EmptyDiffSameVerdict(
    lib: Library, base: Ruleset, ov: Overlay, merged: Ruleset, d: RulesetDiff, before: Compiled, after: Compiled,
    e: Engine, statement: string, grants: seq<Grant>)
    requires Valid(lib, base) && Merges(lib, base, ov, merged) && IsDiff(base, merged, d) && d.Empty()
    requires UniqueReads(base.readStatements)
    requires IsCompiled(lib, base, before) && IsCompiled(lib, merged, after)
    ensures SameAnswer(
              Decide(Some(after), lib.lower, e, statement, grants), Decide(Some(before), lib.lower, e, statement, grants))
  {
    hide *;
    EmptyDiffTighter(lib, base, ov, merged, d);
    if e in ENGINES {
      forall name
        ensures ReadRule(before, e, name) == ReadRule(after, e, name)
      {
        SameReadRule(lib, base, before, merged, after, e, name);
      }
      MergedIsValid(lib, base, ov, merged);
      BoundsOf(lib, merged, after, base, before);
      BoundsOf(lib, base, before, merged, after);
      CompiledNoLooser(lib, merged, after, base, before, e);
      CompiledNoLooser(lib, base, before, merged, after, e);
      DecisionAlike(after, before, lib.lower, e, statement, grants);
    } else {
      NoDialect(before, after, lib.lower, e, statement, grants);
      AnswerIs(Decide(Some(after), lib.lower, e, statement, grants), Decide(Some(before), lib.lower, e, statement, grants));
    }
  }

  lemma MergedIsValid(lib: Library, base: Ruleset, ov: Overlay, merged: Ruleset)
    requires Merges(lib, base, ov, merged)
    ensures Valid(lib, merged)
  {
  }

  lemma SameLooseness(v: Verdict, w: Verdict)
    requires Looseness(v) == Looseness(w)
    ensures v == w
  {
  }

  lemma NoDialect(before: Compiled, after: Compiled, fold: Fold, e: Engine, statement: string, grants: seq<Grant>)
    requires e !in ENGINES
    ensures Decide(Some(after), fold, e, statement, grants) == Decide(Some(before), fold, e, statement, grants)
  {
    assert DialectOf(e).None?;
  }

  const NO_OVERLAY := Overlay(1, [], None, [], [], [], [], [], [], [])

  /** The overlay that says only its version merges to the baseline and leaves nothing to report. */
  lemma VersionOnlyOverlay(lib: Library, base: Ruleset, d: RulesetDiff)
    requires Valid(lib, base) && IsDiff(base, base, d)
    ensures Merges(lib, base, NO_OVERLAY, base)
    ensures d.Empty()
  {
    hide Valid, ById, SafeNames;
    assert DropRules(base, []) == Some(base);
    assert DropSafes(base.safeFunctions, []) == Some(base.safeFunctions);
    NothingAppended(base.notes);
    NothingAppended(base.readStatements);
    NothingAppended(base.forbiddenStatements);
    NothingAppended(base.forbiddenFunctions);
    NothingAppended(base.safeFunctions);
    NothingAppended(base.nonFunctionKeywords);
  }

  lemma NothingAppended<T>(s: seq<T>)
    ensures s + [] == s
  {
  }
}
