/**
  Rulesets and statements that show what can go wrong: rules of one word each, which pass validation,
  and statements written a word or a mark to the line.
 */
module GateExamples {
  import opened Wrappers
  import opened GateLexer
  import opened GateRules
  import opened GateRulesLoops
  import opened GateAnalysis
  import opened GateVerdicts
  import opened GatePhrases
  import opened GateTightening
  import opened GateExemptions
  import opened GateRemoval
  import opened GateLines

  /** A word the library functions leave as it is. */
  predicate LeftAlone(lib: Library, w: string) {
    PlainWord(w) && lib.lower(w) == w && lib.fields(w) == [w] && lib.trim(w) != []
  }

  /** A rule for a word, named and argued for by it. */
  function WordRule(w: string, engines: seq<Engine>): Rule {
    Rule(w, w, engines, w, false, [])
  }

  predicate IsWordRule(lib: Library, r: Rule) {
    && LeftAlone(lib, r.pattern) && r == WordRule(r.pattern, r.engines)
    && forall e | e in r.engines :: e in ENGINES
  }

  function Small(max: int, leading: seq<Rule>, forbidden: seq<Rule>, safe: seq<FunctionAllowance>): Ruleset {
    Ruleset(RULESET_VERSION, [], max, leading, forbidden, [], safe, [])
  }

  lemma WordRuleOk(lib: Library, r: Rule)
    requires IsWordRule(lib, r)
    ensures RuleOk(lib, r) && ReadOk(lib, r) && StatementOk(lib, r)
  {
  }

  /** Rules for different words are valid together if the allowances are in order and collide with none. */
  lemma SmallIsValid(
    lib: Library, max: int, leading: seq<Rule>, forbidden: seq<Rule>, safe: seq<FunctionAllowance>)
    requires max >= MIN_STATEMENT_BYTES && leading != [] && forbidden != []
    requires forall r :: r in leading + forbidden ==> IsWordRule(lib, r)
    requires UniqueIds(leading + forbidden)
    requires forall a :: a in safe ==> AllowanceOk(lib, a)
    requires forall r :: r in forbidden ==> CollisionOk(lib, SafeScopes(safe), r)
    ensures Valid(lib, Small(max, leading, forbidden, safe))
  {
    var rs := Small(max, leading, forbidden, safe);
    assert AllRules(rs) == leading + forbidden;
    hide RuleOk, ReadOk, StatementOk, AllowanceOk, CollisionOk, SafeScopes;
    forall r | r in leading + forbidden
      ensures RuleOk(lib, r) && ReadOk(lib, r) && StatementOk(lib, r)
    {
      WordRuleOk(lib, r);
    }
    forall r, f | r in leading && f in forbidden
      ensures !Clash(r, f)
    {
      Apart(lib, leading, forbidden, r, f);
    }
    hide Clash, IsWordRule;
  }

  lemma Apart(lib: Library, leading: seq<Rule>, forbidden: seq<Rule>, r: Rule, f: Rule)
    requires UniqueIds(leading + forbidden) && r in leading && f in forbidden && IsWordRule(lib, r) && IsWordRule(lib, f)
    ensures !Clash(r, f)
  {
    var i :| 0 <= i < |leading| && leading[i] == r;
    var j :| 0 <= j < |forbidden| && forbidden[j] == f;
    assert (leading + forbidden)[i] == r && (leading + forbidden)[|leading| + j] == f;
  }

  // ----- deciding such statements -----

  lemma DecisionOn(
    lib: Library, rs: Ruleset, c: Compiled, e: Engine, parts: seq<string>, grants: seq<Grant>) returns (toks: seq<Token>)
    requires c.source == rs && e in ENGINES && parts != []
    requires |Lines(parts)| <= rs.maxStatementBytes
    requires forall part :: part in parts ==> Plain(part)
    ensures Tokenize(e, lib.lower, Lines(parts)) == Ok(toks) && ReadAs(toks, parts, lib.lower) && toks != []
    ensures Decide(Some(c), lib.lower, e, Lines(parts), grants) == Analyse(c, e, toks, grants)
  {
    hide Tokenize, Analyse, Lines, Plain, ReadAs;
    LinesTokenize(e, lib.lower, parts);
    toks := Tokenize(e, lib.lower, Lines(parts)).value;
    AsMany(toks, parts, lib.lower);
  }

  lemma AsMany(toks: seq<Token>, parts: seq<string>, fold: Fold)
    requires ReadAs(toks, parts, fold)
    ensures |toks| == |parts|
  {
  }

  /** No rule for a word is for this one, on this engine. */
  ghost predicate NotForbidden(lib: Library, rs: Ruleset, e: Engine, word: string) {
    && rs.forbiddenFunctions == []
    && forall r :: r in rs.forbiddenStatements ==>
         lib.fields(r.pattern) == [r.pattern] && (RuleApplies(r, e) ==> r.pattern != word)
  }

  lemma NothingForbids(lib: Library, rs: Ruleset, c: Compiled, e: Engine, toks: seq<Token>, i: nat)
    requires Valid(lib, rs) && IsCompiled(lib, rs, c) && e in ENGINES && i < |toks| && rs.forbiddenFunctions == []
    ensures NameClear(c, e, toks, i)
    ensures NotForbidden(lib, rs, e, toks[i].lower) ==> PhraseClear(c, e, toks, i)
  {
    ValidCompiles(lib, rs);
    hide Valid, MatchPhrase, IsCompiled, Forbids, QualifiedName, SafeCall, RuleApplies;
    MatchExists(lib, rs, c, e, toks, i);
    CompiledForbids(lib, rs, c, e, toks[i].lower);
    CompiledForbids(lib, rs, c, e, QualifiedName(toks, i));
  }

  lemma LedBy(lib: Library, rs: Ruleset, c: Compiled, e: Engine, name: string)
    requires IsCompiled(lib, rs, c) && e in ENGINES
    requires forall r :: r in rs.readStatements ==> r == WordRule(r.pattern, [])
    ensures ReadRule(c, e, name).Some? <==> exists r :: r in rs.readStatements && r.pattern == name
    ensures ReadRule(c, e, name).Some? ==> !ReadRule(c, e, name).value.prefix
  {
    IndexKeys(rs.readStatements, e);
    hide IndexFor;
    if r :| r in rs.readStatements && r.pattern == name {
      assert RuleApplies(r, e);
    }
  }

  // ----- removing a read rule -----

  function Keywords(v: string): Ruleset {
    Small(MIN_STATEMENT_BYTES + |v|, [WordRule("select", []), WordRule(v, [])], [WordRule("drop", [])], [])
  }

  function Removal(v: string): Overlay {
    Overlay(RULESET_VERSION, [], None, [], [], [], [], [], [v], [])
  }

  function KeywordsLeft(v: string): Ruleset {
    Small(MIN_STATEMENT_BYTES + |v|, [WordRule("select", [])], [WordRule("drop", [])], [])
  }

  ghost predicate Words(lib: Library, v: string) {
    LeftAlone(lib, "select") && LeftAlone(lib, "drop") && LeftAlone(lib, v) && v != "select" && v != "drop"
  }

  lemma KeywordsValid(lib: Library, v: string)
    requires Words(lib, v)
    ensures Valid(lib, Keywords(v)) && Valid(lib, KeywordsLeft(v))
  {
    var select_, other, drop := WordRule("select", []), WordRule(v, []), WordRule("drop", []);
    assert [select_, other] + [drop] == [select_, other, drop] && [select_] + [drop] == [select_, drop];
    assert "select" != "drop" by { assert |"select"| != |"drop"|; }
    hide LeftAlone, Valid;
    assert SafeScopes([]) == map[];
    SmallIsValid(lib, MIN_STATEMENT_BYTES + |v|, [select_, other], [drop], []);
    SmallIsValid(lib, MIN_STATEMENT_BYTES + |v|, [select_], [drop], []);
  }

  lemma RemovalMerges(lib: Library, v: string)
    requires Words(lib, v)
    ensures Merges(lib, Keywords(v), Removal(v), KeywordsLeft(v))
  {
    KeywordsValid(lib, v);
    hide Valid, LeftAlone;
    var base, ids := Keywords(v), [v];
    assert ids[..0] == [];
    assert DropRules(base, []) == Some(base);
    var select_, other, drop := WordRule("select", []), WordRule(v, []), WordRule("drop", []);
    assert "select" != "drop" by { assert |"select"| != |"drop"|; }
    assert Without([], v) == [];
    assert [select_, other][1..] == [other] && [other][1..] == [] && [drop][1..] == [];
    assert Without([other], v) == [] && Without([drop], v) == [drop];
    assert Without([select_, other], v) == [select_];
    assert DropRule(base, v) == Some(KeywordsLeft(v));
    assert DropSafes([], []) == Some([]);
  }

  /** `select` and another word, neither of them called. */
  lemma TwoWords(toks: seq<Token>, lib: Library, v: string)
    requires Words(lib, v) && ReadAs(toks, ["select", v], lib.lower)
    ensures |toks| == 2 && IsWord(toks, 0) && IsWord(toks, 1) && toks[0].lower == "select" && toks[1].lower == v
    ensures !AfterSetOperator(toks, 1) && DepthAt(toks, 0) == DepthAt(toks, 1) == DepthAt(toks, 2) == 0
    ensures !IsCall(toks, 0) && !IsCall(toks, 1)
  {
    var parts := ["select", v];
    assert "select" !in MARKS && v !in MARKS by { NoMark("select"); NoMark(v); }
    assert toks[0].kind == KindOf(parts[0]) && toks[1].kind == KindOf(parts[1]);
    assert toks[0].lower == lib.lower(parts[0]) && toks[1].lower == lib.lower(parts[1]);
    assert "select" !in SET_OPERATORS;
  }

  lemma NoMark(w: string)
    requires PlainWord(w)
    ensures w !in MARKS && KindOf(w) == Word
  {
    assert 'a' <= w[0] <= 'z';
  }

  lemma SecondDenied(lib: Library, v: string, c: Compiled, e: Engine, toks: seq<Token>, grants: seq<Grant>)
    requires Words(lib, v) && IsCompiled(lib, Keywords(v), c) && e in ENGINES && ReadAs(toks, ["select", v], lib.lower)
    requires toks != []
    ensures Analyse(c, e, toks, grants).verdict == Deny
  {
    TwoWords(toks, lib, v);
    LedBy(lib, Keywords(v), c, e, "select");
    LedBy(lib, Keywords(v), c, e, v);
    AllowExactly(c, e, toks, grants);
    assert WordRule(v, []) in Keywords(v).readStatements;
    hide Analyse, IsCompiled, ReadRule, AfterSetOperator, DepthAt, IsCall, ReadAs;
    assert Unaided(c, e, toks, 1);
    assert !BoundaryClear(c, e, toks, 1);
    assert !Clear(c, e, toks, 1);
  }

  /** A word that is forbidden nowhere, and called nowhere unless safely, is in order if it leads, or leads nothing. */
  lemma WordIsClear(lib: Library, rs: Ruleset, c: Compiled, e: Engine, toks: seq<Token>, i: nat)
    requires Valid(lib, rs) && IsCompiled(lib, rs, c) && e in ENGINES && IsWord(toks, i) && rs.forbiddenFunctions == []
    requires NotForbidden(lib, rs, e, toks[i].lower) || SafeCall(c, e, toks, i)
    requires IsCall(toks, i) ==> SafeCall(c, e, toks, i)
    requires Reads(c, e, toks, i) <==> i == 0
    ensures Clear(c, e, toks, i) && !Asks(c, e, toks, i)
  {
    NothingForbids(lib, rs, c, e, toks, i);
    hide IsCompiled, ReadRule, AfterSetOperator, DepthAt, NameClear, PhraseClear, Valid, IsSafe, QualifiedName, NotForbidden,
      IsCall, Reads;
    assert BoundaryClear(c, e, toks, i);
  }

  lemma MarkIsClear(c: Compiled, e: Engine, toks: seq<Token>, i: nat)
    requires 0 < i < |toks| && toks[i].kind == Punct && toks[i].text != ";" && DepthAt(toks, i + 1) >= 0
    ensures Clear(c, e, toks, i) && !Asks(c, e, toks, i)
  {
    hide DepthAt, QualifiedName, IsSafe, Forbids, MatchPhrase;
  }

  lemma SecondAllowed(lib: Library, v: string, c: Compiled, e: Engine, toks: seq<Token>, grants: seq<Grant>)
    requires Words(lib, v) && IsCompiled(lib, KeywordsLeft(v), c) && e in ENGINES
    requires ReadAs(toks, ["select", v], lib.lower) && toks != []
    ensures Analyse(c, e, toks, grants).verdict == Allow
  {
    hide *;
    TwoWords(toks, lib, v);
    KeywordsValid(lib, v);
    LeftFacts(lib, v, c, e);
    ReadsAre(c, e, toks, 0);
    ReadsAre(c, e, toks, 1);
    WordIsClear(lib, KeywordsLeft(v), c, e, toks, 0);
    WordIsClear(lib, KeywordsLeft(v), c, e, toks, 1);
    AllClearAllows(c, e, toks, grants);
  }

  lemma LeftFacts(lib: Library, v: string, c: Compiled, e: Engine)
    requires Words(lib, v) && IsCompiled(lib, KeywordsLeft(v), c) && e in ENGINES
    ensures KeywordsLeft(v).forbiddenFunctions == []
    ensures ReadRule(c, e, "select").Some? && ReadRule(c, e, v).None?
    ensures NotForbidden(lib, KeywordsLeft(v), e, "select") && NotForbidden(lib, KeywordsLeft(v), e, v)
  {
    LedBy(lib, KeywordsLeft(v), c, e, "select");
    LedBy(lib, KeywordsLeft(v), c, e, v);
    assert WordRule("select", []) in KeywordsLeft(v).readStatements;
    assert "select" != "drop" by { assert |"select"| != |"drop"|; }
    hide IsCompiled, ReadRule;
  }

  lemma ReadsAre(c: Compiled, e: Engine, toks: seq<Token>, i: nat)
    requires IsWord(toks, i)
    ensures Reads(c, e, toks, i) <==> ReadRule(c, e, toks[i].lower).Some?
  {
  }

  lemma AllClearAllows(c: Compiled, e: Engine, toks: seq<Token>, grants: seq<Grant>)
    requires IsWord(toks, 0) && DepthAt(toks, |toks|) == 0
    requires forall i: nat :: i < |toks| ==> Clear(c, e, toks, i) && !Asks(c, e, toks, i)
    ensures Analyse(c, e, toks, grants).verdict == Allow
  {
    hide Analyse, Clear, Asks, DepthAt;
    AllowExactly(c, e, toks, grants);
  }

  lemma PairText(lib: Library, v: string)
    requires Words(lib, v)
    ensures |Lines(["select", v])| <= Keywords(v).maxStatementBytes == KeywordsLeft(v).maxStatementBytes
    ensures forall part :: part in ["select", v] ==> Plain(part)
    ensures OnlyRemovesReads(Keywords(v), Removal(v))
  {
    assert ["select", v][1..] == [v];
    assert Lines([v]) == v;
    assert |Lines(["select", v])| == 7 + |v|;
  }

  /**
    Removing a read rule can loosen: with rules to read by `select` and by another word, an overlay
    that removes the other's rule and merges lets through, on every engine and with nothing granted,
    a statement that was refused, with that word where a second statement would begin.
   */
  lemma RemovingAReadRuleLoosens(lib: Library, v: string, before: Compiled, after: Compiled, e: Engine, grants: seq<Grant>)
    requires Words(lib, v) && e in ENGINES
    requires IsCompiled(lib, Keywords(v), before) && IsCompiled(lib, KeywordsLeft(v), after)
    ensures Valid(lib, Keywords(v)) && Merges(lib, Keywords(v), Removal(v), KeywordsLeft(v))
    ensures OnlyRemovesReads(Keywords(v), Removal(v))
    ensures Decide(Some(before), lib.lower, e, Lines(["select", v]), grants).verdict == Deny
    ensures Decide(Some(after), lib.lower, e, Lines(["select", v]), grants).verdict == Allow
  {
    hide *;
    KeywordsValid(lib, v);
    RemovalMerges(lib, v);
    PairText(lib, v);
    SourceOf(lib, Keywords(v), before);
    SourceOf(lib, KeywordsLeft(v), after);
    var toks := DecisionOn(lib, Keywords(v), before, e, ["select", v], grants);
    SecondDenied(lib, v, before, e, toks, grants);
    var same := DecisionOn(lib, KeywordsLeft(v), after, e, ["select", v], grants);
    SecondAllowed(lib, v, after, e, same, grants);
  }

  lemma SourceOf(lib: Library, rs: Ruleset, c: Compiled)
    requires IsCompiled(lib, rs, c)
    ensures c.source == rs
  {
  }

  // ----- allowances out of order -----

  /** `name` is forbidden on SQL Server, and allowed first on every engine, then on MySQL. */
  function Misordered(name: string): Ruleset {
    Small(MIN_STATEMENT_BYTES + |name|, [WordRule("select", [])], [WordRule(name, [SQLServer])], OutOfOrder(name))
  }

  ghost predicate TwoNames(lib: Library, name: string) {
    LeftAlone(lib, "select") && LeftAlone(lib, name) && name != "select" && lib.trim([]) == []
  }

  lemma AllowedNameOk(lib: Library, name: string)
    requires LeftAlone(lib, name)
    ensures NameOk(lib, name)
  {
  }

  lemma MisorderedValid(lib: Library, name: string)
    requires TwoNames(lib, name)
    ensures Valid(lib, Misordered(name))
  {
    OutOfOrderIsMissed(name);
    AllowedNameOk(lib, name);
    var select_, rule := WordRule("select", []), WordRule(name, [SQLServer]);
    assert [select_] + [rule] == [select_, rule];
    hide LeftAlone, Valid, SafeScopes, EnginesOverlap, NameOk;
    assert CollisionOk(lib, SafeScopes(OutOfOrder(name)), rule);
    hide CollisionOk;
    SmallIsValid(lib, MIN_STATEMENT_BYTES + |name|, [select_], [rule], OutOfOrder(name));
  }

  /** `select`, a word, and the word called with nothing. */
  function CallOf(name: string): seq<string> {
    ["select", name, "(", ")"]
  }

  lemma CallTokens(toks: seq<Token>, lib: Library, name: string)
    requires TwoNames(lib, name) && ReadAs(toks, CallOf(name), lib.lower)
    ensures |toks| == 4 && IsWord(toks, 0) && IsWord(toks, 1) && toks[0].lower == "select" && toks[1].lower == name
    ensures toks[2].kind == toks[3].kind == Punct && toks[2].text == "(" && toks[3].text == ")"
    ensures DepthAt(toks, 2) == 0 && DepthAt(toks, 3) == 1 && DepthAt(toks, 4) == 0
    ensures !IsCall(toks, 0) && IsCall(toks, 1)
  {
    var parts := CallOf(name);
    NoMark("select");
    NoMark(name);
    assert toks[0].kind == KindOf(parts[0]) && toks[1].kind == KindOf(parts[1]);
    assert toks[2].kind == KindOf(parts[2]) && toks[3].kind == KindOf(parts[3]);
    assert "(" in MARKS && ")" in MARKS;
    assert toks[0].lower == lib.lower(parts[0]) && toks[1].lower == lib.lower(parts[1]);
    assert toks[2].text == parts[2] && toks[3].text == parts[3];
    hide LeftAlone, ReadAs;
    assert DepthAt(toks, 0) == 0 && DepthAt(toks, 1) == 0;
  }

  lemma MisorderedFacts(lib: Library, name: string, c: Compiled)
    requires TwoNames(lib, name) && IsCompiled(lib, Misordered(name), c)
    ensures Misordered(name).forbiddenFunctions == []
    ensures ReadRule(c, SQLServer, "select").Some? && ReadRule(c, SQLServer, name).None?
    ensures NotForbidden(lib, Misordered(name), SQLServer, "select")
    ensures FirstRule(lib, Misordered(name).forbiddenStatements, SQLServer, name) == Some(WordRule(name, [SQLServer]))
    ensures SQLServer in c.safeFunc && name in c.safeFunc[SQLServer]
  {
    var rs := Misordered(name);
    LedBy(lib, rs, c, SQLServer, "select");
    LedBy(lib, rs, c, SQLServer, name);
    assert WordRule("select", []) in rs.readStatements;
    assert rs.forbiddenStatements[..0] == [] && FirstRule(lib, [], SQLServer, name) == None;
    OutOfOrderIsMissed(name);
    hide ReadRule, OutOfOrder, Allowed;
    SafeMeansAllowed(lib, rs, c, SQLServer, name);
  }

  lemma CallText(lib: Library, name: string)
    requires TwoNames(lib, name)
    ensures CallOf(name) != [] && |Lines(CallOf(name))| <= Misordered(name).maxStatementBytes
    ensures forall part :: part in CallOf(name) ==> Plain(part)
  {
    assert CallOf(name)[1..] == [name, "(", ")"] && [name, "(", ")"][1..] == ["(", ")"] && ["(", ")"][1..] == [")"];
    assert Lines([")"]) == ")";
    assert |Lines(["(", ")"])| == 3;
    assert |Lines([name, "(", ")"])| == 4 + |name|;
    assert "(" in MARKS && ")" in MARKS;
  }

  lemma SafeCallAt(c: Compiled, e: Engine, toks: seq<Token>, i: nat)
    requires i < |toks| && IsCall(toks, i) && e in c.safeFunc
    requires toks[i].lower in c.safeFunc[e] || QualifiedName(toks, i) in c.safeFunc[e]
    ensures SafeCall(c, e, toks, i)
  {
    hide QualifiedName, IsCall;
  }

  lemma MisorderedAllows(lib: Library, name: string, c: Compiled, toks: seq<Token>, grants: seq<Grant>)
    requires TwoNames(lib, name) && IsCompiled(lib, Misordered(name), c)
    requires ReadAs(toks, CallOf(name), lib.lower)
    ensures |toks| == 4 && Analyse(c, SQLServer, toks, grants).verdict == Allow
    ensures PassesUnargued(lib, c, SQLServer, toks, 1, name)
  {
    hide *;
    CallTokens(toks, lib, name);
    MisorderedValid(lib, name);
    MisorderedFacts(lib, name, c);
    EngineIs();
    ReadsAre(c, SQLServer, toks, 0);
    ReadsAre(c, SQLServer, toks, 1);
    SafeCallAt(c, SQLServer, toks, 1);
    WordIsClear(lib, Misordered(name), c, SQLServer, toks, 0);
    WordIsClear(lib, Misordered(name), c, SQLServer, toks, 1);
    MarkIsClear(c, SQLServer, toks, 2);
    MarkIsClear(c, SQLServer, toks, 3);
    AllClearAllows(c, SQLServer, toks, grants);
    MatchAtCall(lib, Misordered(name), c, SQLServer, toks, 1);
    BlankTrims(lib, name);
    PassesWhen(lib, c, SQLServer, toks, 1, name, [SQLServer]);
  }

  lemma EngineIs()
    ensures SQLServer in ENGINES
  {
  }

  lemma BlankTrims(lib: Library, name: string)
    requires TwoNames(lib, name)
    ensures lib.trim([]) == []
  {
  }

  lemma PassesWhen(lib: Library, c: Compiled, e: Engine, toks: seq<Token>, i: nat, name: string, engines: seq<Engine>)
    requires IsWord(toks, i) && toks[i].lower == name && SafeCall(c, e, toks, i)
    requires MatchPhrase(c, e, toks, i) == Some(WordRule(name, engines)) && lib.trim([]) == []
    ensures PassesUnargued(lib, c, e, toks, i, name)
  {
    hide SafeCall, MatchPhrase;
  }

  /**
    Out of order, a ruleset passes validation with a forbidden keyword nothing argues for, and a
    statement that calls it is allowed: the validator remembers the call as MySQL's alone.
   */
  lemma OutOfOrderAllows(lib: Library, name: string, c: Compiled, grants: seq<Grant>) returns (toks: seq<Token>)
    requires TwoNames(lib, name) && IsCompiled(lib, Misordered(name), c)
    ensures Valid(lib, Misordered(name))
    ensures Tokenize(SQLServer, lib.lower, Lines(CallOf(name))) == Ok(toks)
    ensures PassesUnargued(lib, c, SQLServer, toks, 1, name)
    ensures Decide(Some(c), lib.lower, SQLServer, Lines(CallOf(name)), grants).verdict == Allow
  {
    hide *;
    MisorderedValid(lib, name);
    CallText(lib, name);
    SourceOf(lib, Misordered(name), c);
    EngineIs();
    toks := DecisionOn(lib, Misordered(name), c, SQLServer, CallOf(name), grants);
    MisorderedAllows(lib, name, c, toks, grants);
  }

  // ----- a dotted name -----

  /** `name` is forbidden on every engine, and `schema.name` allowed on every engine. */
  function DottedRules(schema: string, name: string): Ruleset {
    Small(MIN_STATEMENT_BYTES + |schema| + |name|, [WordRule("select", [])], [WordRule(name, [])],
          [FunctionAllowance([], [schema + "." + name], [])])
  }

  ghost predicate ThreeNames(lib: Library, schema: string, name: string) {
    && TwoNames(lib, name) && LeftAlone(lib, schema) && schema != "select" && schema != name
    && lib.lower(schema + "." + name) == schema + "." + name
  }

  lemma NamesWithin(lib: Library, schema: string, name: string)
    requires ThreeNames(lib, schema, name)
    ensures TwoNames(lib, name)
  {
  }

  lemma DottedNameOk(lib: Library, schema: string, name: string)
    requires ThreeNames(lib, schema, name)
    ensures NameOk(lib, schema + "." + name)
  {
    var q := schema + "." + name;
    forall i | 0 <= i < |q|
      ensures q[i] != ' ' && q[i] != '\t'
    {
      assert q[i] == if i < |schema| then schema[i] else if i == |schema| then '.' else name[i - |schema| - 1];
    }
  }

  lemma DottedScopes(schema: string, name: string)
    ensures name !in SafeScopes([FunctionAllowance([], [schema + "." + name], [])])
  {
    var safe := [FunctionAllowance([], [schema + "." + name], [])];
    SafeScopesAre(safe, name);
    hide SafeScopes;
    assert |schema + "." + name| > |name|;
  }

  lemma DottedValid(lib: Library, schema: string, name: string)
    requires ThreeNames(lib, schema, name)
    ensures Valid(lib, DottedRules(schema, name))
  {
    DottedNameOk(lib, schema, name);
    DottedScopes(schema, name);
    var select_, rule := WordRule("select", []), WordRule(name, []);
    assert [select_] + [rule] == [select_, rule];
    hide LeftAlone, Valid, SafeScopes, EnginesOverlap, NameOk;
    var safe := [FunctionAllowance([], [schema + "." + name], [])];
    assert CollisionOk(lib, SafeScopes(safe), rule);
    hide CollisionOk;
    SmallIsValid(lib, MIN_STATEMENT_BYTES + |schema| + |name|, [select_], [rule], safe);
  }

  function DottedCallOf(schema: string, name: string): seq<string> {
    ["select", schema, ".", name, "(", ")"]
  }

  lemma DottedTokens(toks: seq<Token>, lib: Library, schema: string, name: string)
    requires ThreeNames(lib, schema, name) && ReadAs(toks, DottedCallOf(schema, name), lib.lower)
    ensures |toks| == 6 && IsWord(toks, 0) && IsWord(toks, 1) && IsWord(toks, 3)
    ensures toks[0].lower == "select" && toks[1].lower == schema && toks[3].lower == name
    ensures toks[2].kind == toks[4].kind == toks[5].kind == Punct
    ensures toks[2].text == "." && toks[4].text == "(" && toks[5].text == ")"
  {
    var parts := DottedCallOf(schema, name);
    NoMark("select");
    NoMark(schema);
    NoMark(name);
    assert "(" in MARKS && ")" in MARKS && "." in MARKS;
    forall i | 0 <= i < 6
      ensures toks[i].kind == KindOf(parts[i]) && toks[i].text == parts[i] && toks[i].lower == lib.lower(parts[i])
    {
    }
    hide LeftAlone, ReadAs, KindOf;
    assert KindOf(parts[0]) == KindOf(parts[1]) == KindOf(parts[3]) == Word;
    MarkKinds();
    assert parts[2] == "." && parts[4] == "(" && parts[5] == ")";
  }

  lemma MarkKinds()
    ensures KindOf(".") == KindOf("(") == KindOf(")") == Punct
  {
    assert "(" in MARKS && ")" in MARKS && "." in MARKS;
  }

  lemma DottedShape(toks: seq<Token>, schema: string, name: string)
    requires |toks| == 6 && IsWord(toks, 0) && IsWord(toks, 1) && IsWord(toks, 3)
    requires toks[1].lower == schema && toks[3].lower == name
    requires toks[2].kind == toks[4].kind == toks[5].kind == Punct
    requires toks[2].text == "." && toks[4].text == "(" && toks[5].text == ")"
    ensures DepthAt(toks, 3) == 0 && DepthAt(toks, 5) == 1 && DepthAt(toks, 6) == 0
    ensures !IsCall(toks, 0) && !IsCall(toks, 1) && IsCall(toks, 3)
    ensures QualifiedName(toks, 3) == schema + "." + name
  {
    assert DepthAt(toks, 1) == 0 && DepthAt(toks, 2) == 0 && DepthAt(toks, 3) == 0 && DepthAt(toks, 4) == 0;
    assert !IsMark(toks, 0, ".");
    assert NameParts(toks, 1, 3) == [schema];
    assert NameParts(toks, 3, 4) == [schema] + [name];
    JoinLast([schema], name);
  }

  lemma DottedFacts(lib: Library, schema: string, name: string, c: Compiled, e: Engine)
    requires ThreeNames(lib, schema, name) && IsCompiled(lib, DottedRules(schema, name), c) && e in ENGINES
    ensures var rs := DottedRules(schema, name);
      && rs.forbiddenFunctions == []
      && ReadRule(c, e, "select").Some? && ReadRule(c, e, name).None? && ReadRule(c, e, schema).None?
      && NotForbidden(lib, rs, e, "select") && NotForbidden(lib, rs, e, schema)
      && FirstRule(lib, rs.forbiddenStatements, e, name) == Some(WordRule(name, []))
      && e in c.safeFunc && schema + "." + name in c.safeFunc[e]
  {
    var rs := DottedRules(schema, name);
    LedBy(lib, rs, c, e, "select");
    LedBy(lib, rs, c, e, name);
    LedBy(lib, rs, c, e, schema);
    assert WordRule("select", []) in rs.readStatements;
    assert rs.forbiddenStatements[..0] == [] && FirstRule(lib, [], e, name) == None;
    hide ReadRule;
    SafeMeansAllowed(lib, rs, c, e, schema + "." + name);
    assert rs.safeFunctions[0] in rs.safeFunctions;
  }

  lemma DottedText(lib: Library, schema: string, name: string)
    requires ThreeNames(lib, schema, name)
    ensures DottedCallOf(schema, name) != []
    ensures |Lines(DottedCallOf(schema, name))| <= DottedRules(schema, name).maxStatementBytes
    ensures forall part :: part in DottedCallOf(schema, name) ==> Plain(part)
  {
    var parts := DottedCallOf(schema, name);
    assert "(" in MARKS && ")" in MARKS && "." in MARKS;
    LinesSize(parts);
    LinesSize(parts[1..]);
    LinesSize(parts[2..]);
    LinesSize(parts[3..]);
    LinesSize(parts[4..]);
    LinesSize(parts[5..]);
  }

  lemma LinesSize(parts: seq<string>)
    requires parts != []
    ensures |Lines(parts)| == |parts[0]| + if |parts| == 1 then 0 else 1 + |Lines(parts[1..])|
  {
  }

  lemma DottedAllows(
    lib: Library, schema: string, name: string, c: Compiled, e: Engine, toks: seq<Token>, grants: seq<Grant>)
    requires ThreeNames(lib, schema, name) && IsCompiled(lib, DottedRules(schema, name), c) && e in ENGINES
    requires ReadAs(toks, DottedCallOf(schema, name), lib.lower)
    ensures |toks| == 6 && Analyse(c, e, toks, grants).verdict == Allow && PassesUnargued(lib, c, e, toks, 3, name)
  {
    hide *;
    var rs := DottedRules(schema, name);
    DottedTokens(toks, lib, schema, name);
    DottedShape(toks, schema, name);
    DottedValid(lib, schema, name);
    NamesWithin(lib, schema, name);
    DottedFacts(lib, schema, name, c, e);
    ReadsAre(c, e, toks, 0);
    ReadsAre(c, e, toks, 1);
    ReadsAre(c, e, toks, 3);
    SafeCallAt(c, e, toks, 3);
    WordIsClear(lib, rs, c, e, toks, 0);
    WordIsClear(lib, rs, c, e, toks, 1);
    MarkIsClear(c, e, toks, 2);
    WordIsClear(lib, rs, c, e, toks, 3);
    MarkIsClear(c, e, toks, 4);
    MarkIsClear(c, e, toks, 5);
    AllClearAllows(c, e, toks, grants);
    MatchAtCall(lib, rs, c, e, toks, 3);
    BlankTrims(lib, name);
    PassesWhen(lib, c, e, toks, 3, name, []);
  }

  /**
    By a dotted name, a ruleset passes validation with a forbidden keyword nothing argues for, and a
    statement that calls it so is allowed, on every engine: no collision check looks at the last part.
   */
  lemma DottedNameAllows(lib: Library, schema: string, name: string, c: Compiled, e: Engine, grants: seq<Grant>)
    returns (toks: seq<Token>)
    requires ThreeNames(lib, schema, name) && IsCompiled(lib, DottedRules(schema, name), c) && e in ENGINES
    ensures Valid(lib, DottedRules(schema, name))
    ensures Tokenize(e, lib.lower, Lines(DottedCallOf(schema, name))) == Ok(toks)
    ensures PassesUnargued(lib, c, e, toks, 3, name)
    ensures Decide(Some(c), lib.lower, e, Lines(DottedCallOf(schema, name)), grants).verdict == Allow
  {
    hide *;
    DottedValid(lib, schema, name);
    DottedText(lib, schema, name);
    SourceOf(lib, DottedRules(schema, name), c);
    toks := DecisionOn(lib, DottedRules(schema, name), c, e, DottedCallOf(schema, name), grants);
    DottedAllows(lib, schema, name, c, e, toks, grants);
  }
}
