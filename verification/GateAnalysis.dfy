/**
  How the gate decides one statement (internal/gate/gate.go): one walk over its tokens that
  collects what refuses it and what could be approved, and the verdict those add up to.
 */
module GateAnalysis {
  import opened Wrappers
  import opened GateLexer
  import opened GateRules

  datatype Verdict = Allow | Deny | NeedsApproval

  datatype Reason =
    | ReadStatement
    | InvalidEngine
    | NoRuleset
    | TokenizeError
    | StatementTooLong
    | EmptyStatement
    | LeadingTokenNotWord
    | MultipleStatements
    | UnbalancedParens
    | ForbiddenStatement
    | ForbiddenConstruct
    | UnknownStatement
    | UnknownFunction

  datatype Decision = Decision(
    verdict: Verdict, reason: Reason, ruleID: string, pending: seq<string>, grantsUsed: seq<string>)

  datatype Grant = Grant(ruleID: string)

  const UNKNOWN_FUNCTION_PREFIX := "function:"
  const MAX_NAME_PARTS: nat := 4
  const SET_OPERATORS: set<string> := {"union", "all", "intersect", "except", "minus"}

  predicate Granted(grants: seq<Grant>, id: string) {
    exists g | g in grants :: g.ruleID == id
  }

  // ----- what the rules say of a name -----

  function Lookup<V>(m: map<Engine, map<string, V>>, e: Engine, name: string): Option<V> {
    if e in m && name in m[e] then Some(m[e][name]) else None
  }

  function ReadRule(c: Compiled, e: Engine, name: string): Option<Rule> {
    Lookup(c.read, e, name)
  }

  function Forbids(c: Compiled, e: Engine, name: string): Option<Rule> {
    Lookup(c.forbidFunc, e, name)
  }

  predicate IsSafe(c: Compiled, e: Engine, name: string, qualified: string) {
    e in c.safeFunc && (name in c.safeFunc[e] || qualified in c.safeFunc[e])
  }

  // ----- what the tokens around a place say -----

  predicate IsMark(toks: seq<Token>, i: int, mark: string) {
    0 <= i < |toks| && toks[i].kind == Punct && toks[i].text == mark
  }

  predicate IsName(toks: seq<Token>, i: int) {
    0 <= i < |toks| && (toks[i].kind == Word || toks[i].kind == QuotedIdent)
  }

  predicate IsCall(toks: seq<Token>, i: int) {
    IsMark(toks, i + 1, "(")
  }

  /** The last parts, at most `limit`, of the dotted name that ends at `i`. */
  function NameParts(toks: seq<Token>, i: nat, limit: nat): seq<string>
    requires i < |toks|
    decreases limit
  {
    if limit > 1 && IsMark(toks, i - 1, ".") && IsName(toks, i - 2) then
      NameParts(toks, i - 2, limit - 1) + [toks[i].lower]
    else [toks[i].lower]
  }

  function QualifiedName(toks: seq<Token>, i: nat): string
    requires i < |toks|
  {
    Join(NameParts(toks, i, MAX_NAME_PARTS), ".")
  }

  predicate WordsAt(words: seq<string>, toks: seq<Token>, i: nat) {
    && i + |words| <= |toks|
    && forall m :: i <= m < i + |words| ==> toks[m].kind == Word && toks[m].lower == words[m - i]
  }

  predicate Fits(p: Phrase, e: Engine, toks: seq<Token>, i: nat) {
    RuleApplies(p.rule, e) && WordsAt(p.words, toks, i)
  }

  function FirstFit(phrases: seq<Phrase>, e: Engine, toks: seq<Token>, i: nat): Option<Phrase> {
    if phrases == [] then None
    else if Fits(phrases[0], e, toks, i) then Some(phrases[0])
    else FirstFit(phrases[1..], e, toks, i)
  }

  function MatchPhrase(c: Compiled, e: Engine, toks: seq<Token>, i: nat): Option<Rule>
    requires i < |toks|
  {
    var word := toks[i].lower;
    match FirstFit(if word in c.forbidden then c.forbidden[word] else [], e, toks, i)
    case None => None
    case Some(p) => Some(p.rule)
  }

  predicate AfterSetOperator(toks: seq<Token>, i: nat) {
    0 < i <= |toks| && toks[i - 1].kind == Word && toks[i - 1].lower in SET_OPERATORS
  }

  predicate IsCteName(toks: seq<Token>, i: nat, depth: int, withPending: bool)
    requires i < |toks|
  {
    && withPending && depth == 0 && i > 0
    && (|| IsMark(toks, i - 1, ",")
        || (toks[i - 1].kind == Word && (toks[i - 1].lower == "with" || toks[i - 1].lower == "recursive")))
  }

  // ----- the walk -----

  /** One reason a statement is refused for good. */
  datatype Obstacle = Obstacle(reason: Reason, ruleID: string)

  const NO_RULE := Rule([], [], [], [], false, [])

  datatype Walk = Walk(
    depth: int,
    withPending: bool,
    prefixPending: bool,
    terminal: seq<Obstacle>,
    escalatable: seq<string>,
    allowedBy: Rule)

  const START := Walk(0, false, false, [], [], NO_RULE)

  function Refuse(w: Walk, reason: Reason, id: string): Walk {
    w.(terminal := w.terminal + [Obstacle(reason, id)])
  }

  function Escalate(w: Walk, qualified: string): Walk {
    var id := UNKNOWN_FUNCTION_PREFIX + qualified;
    if id in w.escalatable then w else w.(escalatable := w.escalatable + [id])
  }

  function MarkStep(toks: seq<Token>, i: nat, w: Walk): Walk
    requires i < |toks|
  {
    if toks[i].text == "(" then w.(depth := w.depth + 1)
    else if toks[i].text == ")" then
      var closed := w.(depth := w.depth - 1);
      if closed.depth < 0 then Refuse(closed, UnbalancedParens, []) else closed
    else if toks[i].text == ";" && i != |toks| - 1 then Refuse(w, MultipleStatements, [])
    else w
  }

  /** What a statement-leading keyword at depth 0 uses up, if anything explains it there. */
  function Explain(toks: seq<Token>, i: nat, w: Walk): Option<Walk>
    requires 0 < i < |toks|
  {
    if AfterSetOperator(toks, i) then Some(w)
    else if IsMark(toks, i - 1, ")") && w.withPending then Some(w.(withPending := false))
    else if w.prefixPending then Some(w.(prefixPending := false))
    else None
  }

  predicate UnknownCall(c: Compiled, e: Engine, toks: seq<Token>, i: nat)
    requires i < |toks|
  {
    IsCall(toks, i) && !IsSafe(c, e, toks[i].lower, QualifiedName(toks, i))
  }

  function CallStep(c: Compiled, e: Engine, toks: seq<Token>, i: nat, w: Walk): (next: Walk)
    requires i < |toks|
    ensures next == w.(escalatable := next.escalatable)
  {
    if && UnknownCall(c, e, toks, i) && ReadRule(c, e, toks[i].lower).None? && toks[i].lower !in c.nonFunc
       && !IsCteName(toks, i, w.depth, w.withPending)
    then Escalate(w, QualifiedName(toks, i))
    else w
  }

  function WordStep(c: Compiled, e: Engine, toks: seq<Token>, i: nat, w: Walk): Walk
    requires i < |toks|
  {
    var name := toks[i].lower;
    var safe := IsCall(toks, i) && IsSafe(c, e, name, QualifiedName(toks, i));
    var phrase := MatchPhrase(c, e, toks, i);
    var read := ReadRule(c, e, name);
    if !safe && phrase.Some? then Refuse(w, ForbiddenStatement, phrase.value.id)
    else if i == 0 then
      if read.None? then Refuse(w, UnknownStatement, [])
      else CallStep(c, e, toks, i, w.(allowedBy := read.value, withPending := name == "with",
                                      prefixPending := read.value.prefix))
    else if read.Some? && w.depth == 0 && !(name == "with" && IsCall(toks, i)) then
      match Explain(toks, i, w)
      case None => Refuse(w, MultipleStatements, [])
      case Some(used) => CallStep(c, e, toks, i, used)
    else CallStep(c, e, toks, i, w)
  }

  function Step(c: Compiled, e: Engine, toks: seq<Token>, i: nat, w: Walk): Walk
    requires i < |toks|
  {
    var name, qualified := toks[i].lower, QualifiedName(toks, i);
    if toks[i].kind == Punct then MarkStep(toks, i, w)
    else if !IsName(toks, i) then w
    else if Forbids(c, e, name).Some? then Refuse(w, ForbiddenConstruct, Forbids(c, e, name).value.id)
    else if Forbids(c, e, qualified).Some? then Refuse(w, ForbiddenConstruct, Forbids(c, e, qualified).value.id)
    else if toks[i].kind == QuotedIdent then
      if UnknownCall(c, e, toks, i) then Escalate(w, qualified) else w
    else WordStep(c, e, toks, i, w)
  }

  /** The walk over the first `n` tokens. */
  function WalkTo(c: Compiled, e: Engine, toks: seq<Token>, n: nat): Walk
    requires n <= |toks|
  {
    if n == 0 then START else Step(c, e, toks, n - 1, WalkTo(c, e, toks, n - 1))
  }

  // ----- the verdict -----

  function Refusal(reason: Reason, id: string): Decision {
    Decision(Deny, reason, id, [], [])
  }

  /** Those of the ids that are granted, or those that are not, in order. */
  function Select(ids: seq<string>, grants: seq<Grant>, granted: bool): seq<string> {
    if ids == [] then []
    else
      var before := Select(ids[..|ids| - 1], grants, granted);
      var id := ids[|ids| - 1];
      if Granted(grants, id) == granted then before + [id] else before
  }

  function Conclude(w: Walk, grants: seq<Grant>): Decision {
    if w.terminal != [] then Refusal(w.terminal[0].reason, w.terminal[0].ruleID)
    else if w.depth != 0 then Refusal(UnbalancedParens, [])
    else
      var pending := Select(w.escalatable, grants, false);
      if pending == [] then Decision(Allow, ReadStatement, w.allowedBy.id, [], Select(w.escalatable, grants, true))
      else Decision(NeedsApproval, UnknownFunction, pending[0], pending, [])
  }

  function Analyse(c: Compiled, e: Engine, toks: seq<Token>, grants: seq<Grant>): Decision
    requires toks != []
  {
    if toks[0].kind != Word then Refusal(LeadingTokenNotWord, [])
    else Conclude(WalkTo(c, e, toks, |toks|), grants)
  }

  /** The whole decision. A gate that holds no rules refuses everything. */
  function Decide(rules: Option<Compiled>, fold: Fold, e: Engine, statement: string, grants: seq<Grant>): Decision {
    if rules.None? then Refusal(NoRuleset, [])
    else if DialectOf(e).None? then Refusal(InvalidEngine, [])
    else if |statement| > rules.value.source.maxStatementBytes then Refusal(StatementTooLong, [])
    else
      match Tokenize(e, fold, statement)
      case Err(_) => Refusal(TokenizeError, [])
      case Ok(toks) =>
        if toks == [] then Refusal(EmptyStatement, []) else Analyse(rules.value, e, toks, grants)
  }
}
