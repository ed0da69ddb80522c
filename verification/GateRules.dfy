/**
  The gate's rules as data: a ruleset, the overlay an operator patches it with, the checks
  a ruleset passes before it takes effect, and the indexes statements are decided with
  (internal/gate/ruleset.go).
 */
module GateRules {
  import opened Wrappers
  import opened GateLexer

  /** The string functions of the standard library that the rules are read with. */
  datatype Library = Library(lower: Fold, fields: string -> seq<string>, trim: string -> string)

  datatype Rule = Rule(
    id: string, pattern: string, engines: seq<Engine>, reason: string, prefix: bool, safeAsFunction: string)

  datatype FunctionAllowance = FunctionAllowance(engines: seq<Engine>, names: seq<string>, reason: string)

  datatype Ruleset = Ruleset(
    version: int,
    notes: seq<string>,
    maxStatementBytes: int,
    readStatements: seq<Rule>,
    forbiddenStatements: seq<Rule>,
    forbiddenFunctions: seq<Rule>,
    safeFunctions: seq<FunctionAllowance>,
    nonFunctionKeywords: seq<string>)

  datatype Overlay = Overlay(
    version: int,
    notes: seq<string>,
    maxStatementBytes: Option<int>,
    readStatements: seq<Rule>,
    forbiddenStatements: seq<Rule>,
    forbiddenFunctions: seq<Rule>,
    safeFunctions: seq<FunctionAllowance>,
    nonFunctionKeywords: seq<string>,
    removeRules: seq<string>,
    removeSafeFunctions: seq<string>)

  const RULESET_VERSION := 1
  const MIN_STATEMENT_BYTES := 4096

  function Join(words: seq<string>, separator: string): string {
    if words == [] then []
    else if |words| == 1 then words[0]
    else words[0] + separator + Join(words[1..], separator)
  }

  predicate Declares(lib: Library, r: Rule) {
    lib.trim(r.safeAsFunction) != []
  }

  predicate Scoped(scope: seq<Engine>, e: Engine) {
    scope == [] || e in scope
  }

  predicate RuleApplies(r: Rule, e: Engine) {
    Scoped(r.engines, e)
  }

  predicate EnginesOverlap(a: seq<Engine>, b: seq<Engine>) {
    a == [] || b == [] || exists e :: e in a && e in b
  }

  // ----- validation -----

  predicate RuleOk(lib: Library, r: Rule) {
    && lib.trim(r.id) != []
    && r.pattern != [] && r.pattern == lib.lower(r.pattern)
    && r.pattern == Join(lib.fields(r.pattern), " ")
    && lib.trim(r.reason) != []
    && forall e | e in r.engines :: !e.Unsupported?
  }

  function AllRules(rs: Ruleset): seq<Rule> {
    rs.readStatements + rs.forbiddenStatements + rs.forbiddenFunctions
  }

  predicate NameOk(lib: Library, name: string) {
    name != [] && name == lib.lower(name) && ' ' !in name && '\t' !in name
  }

  predicate AllowanceOk(lib: Library, a: FunctionAllowance) {
    (forall e | e in a.engines :: !e.Unsupported?) && (forall n | n in a.names :: NameOk(lib, n))
  }

  /** What the validator remembers of a safe name: no engines at all stands for every engine. */
  function Scope(scopes: map<string, seq<Engine>>, name: string, engines: seq<Engine>): map<string, seq<Engine>> {
    if name in scopes && engines == [] then scopes[name := []]
    else scopes[name := (if name in scopes then scopes[name] else []) + engines]
  }

  function ScopeNames(scopes: map<string, seq<Engine>>, names: seq<string>, engines: seq<Engine>)
    : map<string, seq<Engine>>
  {
    if names == [] then scopes
    else Scope(ScopeNames(scopes, names[..|names| - 1], engines), names[|names| - 1], engines)
  }

  function SafeScopes(allowances: seq<FunctionAllowance>): map<string, seq<Engine>> {
    if allowances == [] then map[]
    else
      var last := allowances[|allowances| - 1];
      ScopeNames(SafeScopes(allowances[..|allowances| - 1]), last.names, last.engines)
  }

  /** A safe name that is also a forbidden keyword has to be argued for on the keyword's rule. */
  predicate CollisionOk(lib: Library, scopes: map<string, seq<Engine>>, r: Rule) {
    r.pattern in scopes && !Declares(lib, r) ==> !EnginesOverlap(scopes[r.pattern], r.engines)
  }

  predicate ReadOk(lib: Library, r: Rule) {
    ' ' !in r.pattern && '.' !in r.pattern && r.safeAsFunction == []
  }

  predicate StatementOk(lib: Library, r: Rule) {
    !r.prefix && (r.safeAsFunction != [] ==> Declares(lib, r))
  }

  predicate FunctionOk(lib: Library, r: Rule) {
    ' ' !in r.pattern && !r.prefix && r.safeAsFunction == []
  }

  predicate Clash(read: Rule, forbidden: Rule) {
    read.pattern == forbidden.pattern && EnginesOverlap(read.engines, forbidden.engines)
  }

  ghost predicate UniqueIds(rules: seq<Rule>) {
    forall i, j :: 0 <= i < j < |rules| ==> rules[i].id != rules[j].id
  }

  /** Everything a ruleset is held to before it takes effect. */
  ghost predicate Valid(lib: Library, rs: Ruleset) {
    && rs.version == RULESET_VERSION
    && rs.maxStatementBytes >= MIN_STATEMENT_BYTES
    && rs.readStatements != [] && rs.forbiddenStatements != []
    && (forall r :: r in AllRules(rs) ==> RuleOk(lib, r))
    && UniqueIds(AllRules(rs))
    && (forall r :: r in rs.readStatements ==> ReadOk(lib, r))
    && (forall r :: r in rs.forbiddenStatements ==> StatementOk(lib, r))
    && (forall r :: r in rs.forbiddenFunctions ==> FunctionOk(lib, r))
    && (forall r, f :: r in rs.readStatements && f in rs.forbiddenStatements ==> !Clash(r, f))
    && (forall a :: a in rs.safeFunctions ==> AllowanceOk(lib, a))
    && (forall r :: r in rs.forbiddenFunctions ==> r.pattern !in SafeScopes(rs.safeFunctions))
    && (forall r :: r in rs.forbiddenStatements ==> CollisionOk(lib, SafeScopes(rs.safeFunctions), r))
    && (forall k :: k in rs.nonFunctionKeywords ==> NameOk(lib, k))
  }

  // ----- merging an overlay -----

  function Without(rules: seq<Rule>, id: string): seq<Rule> {
    if rules == [] then []
    else (if rules[0].id == id then [] else [rules[0]]) + Without(rules[1..], id)
  }

  function WithoutName(names: seq<string>, name: string): seq<string> {
    if names == [] then []
    else (if names[0] == name then [] else [names[0]]) + WithoutName(names[1..], name)
  }

  function WithoutSafe(allowances: seq<FunctionAllowance>, name: string): seq<FunctionAllowance> {
    seq(|allowances|, i requires 0 <= i < |allowances| =>
      allowances[i].(names := WithoutName(allowances[i].names, name)))
  }

  function DropRule(rs: Ruleset, id: string): Option<Ruleset> {
    var out := rs.(
      readStatements := Without(rs.readStatements, id),
      forbiddenStatements := Without(rs.forbiddenStatements, id),
      forbiddenFunctions := Without(rs.forbiddenFunctions, id));
    if |AllRules(out)| == |AllRules(rs)| then None else Some(out)
  }

  function DropRules(rs: Ruleset, ids: seq<string>): Option<Ruleset> {
    if ids == [] then Some(rs)
    else
      match DropRules(rs, ids[..|ids| - 1])
      case None => None
      case Some(before) => DropRule(before, ids[|ids| - 1])
  }

  function DropSafe(allowances: seq<FunctionAllowance>, name: string): Option<seq<FunctionAllowance>> {
    if exists a :: a in allowances && name in a.names then Some(WithoutSafe(allowances, name)) else None
  }

  function DropSafes(allowances: seq<FunctionAllowance>, names: seq<string>): Option<seq<FunctionAllowance>> {
    if names == [] then Some(allowances)
    else
      match DropSafes(allowances, names[..|names| - 1])
      case None => None
      case Some(before) => DropSafe(before, names[|names| - 1])
  }

  /** The overlay applied to a copy of the base, before the result is validated. */
  function Patched(base: Ruleset, ov: Overlay): Option<Ruleset> {
    if ov.version != RULESET_VERSION then None
    else
      match DropRules(base, ov.removeRules)
      case None => None
      case Some(kept) =>
        match DropSafes(base.safeFunctions, ov.removeSafeFunctions)
        case None => None
        case Some(safe) => Some(Ruleset(
          base.version,
          base.notes + ov.notes,
          if ov.maxStatementBytes.Some? then ov.maxStatementBytes.value else base.maxStatementBytes,
          kept.readStatements + ov.readStatements,
          kept.forbiddenStatements + ov.forbiddenStatements,
          kept.forbiddenFunctions + ov.forbiddenFunctions,
          safe + ov.safeFunctions,
          base.nonFunctionKeywords + ov.nonFunctionKeywords))
  }

  /** The rules in force under an overlay: the patched base, if it validates. */
  ghost predicate Merges(lib: Library, base: Ruleset, ov: Overlay, merged: Ruleset) {
    Patched(base, ov) == Some(merged) && Valid(lib, merged)
  }

  // ----- the compiled indexes -----

  datatype Phrase = Phrase(words: seq<string>, rule: Rule)

  datatype Compiled = Compiled(
    source: Ruleset,
    read: map<Engine, map<string, Rule>>,
    forbidden: map<string, seq<Phrase>>,
    forbidFunc: map<Engine, map<string, Rule>>,
    safeFunc: map<Engine, set<string>>,
    nonFunc: set<string>)

  /** The rules that apply to an engine, by what they match: the last of a pattern wins. */
  function IndexFor(rules: seq<Rule>, e: Engine): map<string, Rule> {
    if rules == [] then map[]
    else
      var m := IndexFor(rules[..|rules| - 1], e);
      var r := rules[|rules| - 1];
      if RuleApplies(r, e) then m[r.pattern := r] else m
  }

  ghost function SafeNames(allowances: seq<FunctionAllowance>, e: Engine): set<string> {
    set a, n | a in allowances && Scoped(a.engines, e) && n in a.names :: n
  }

  /** The phrases that begin with a word, in the order of their rules. */
  function Group(lib: Library, rules: seq<Rule>, word: string): seq<Phrase> {
    if rules == [] then []
    else
      var words := lib.fields(rules[|rules| - 1].pattern);
      var before := Group(lib, rules[..|rules| - 1], word);
      if words != [] && words[0] == word then before + [Phrase(words, rules[|rules| - 1])] else before
  }

  /** `p` placed after every phrase at least as long. */
  function Insert(sorted: seq<Phrase>, p: Phrase): seq<Phrase> {
    if sorted == [] then [p]
    else if |sorted[0].words| >= |p.words| then [sorted[0]] + Insert(sorted[1..], p)
    else [p] + sorted
  }

  /** Longer phrases first, and otherwise as they stood. */
  function LongestFirst(phrases: seq<Phrase>): seq<Phrase> {
    if phrases == [] then [] else Insert(LongestFirst(phrases[..|phrases| - 1]), phrases[|phrases| - 1])
  }

  /** The compiled form answers from the ruleset it was built from, engine by engine and name by name. */
  ghost predicate IsCompiled(lib: Library, rs: Ruleset, c: Compiled) {
    && c.source == rs
    && (forall e :: e in ENGINES ==>
          && e in c.read && c.read[e] == IndexFor(rs.readStatements, e)
          && e in c.forbidFunc && c.forbidFunc[e] == IndexFor(rs.forbiddenFunctions, e)
          && e in c.safeFunc && c.safeFunc[e] == SafeNames(rs.safeFunctions, e))
    && (forall w :: w in c.forbidden ==> c.forbidden[w] == LongestFirst(Group(lib, rs.forbiddenStatements, w)))
    && (forall w :: w !in c.forbidden ==> Group(lib, rs.forbiddenStatements, w) == [])
    && c.nonFunc == (set k | k in rs.nonFunctionKeywords)
  }
}
