/**
  When the gate allows a statement, said without the walk: what every token must satisfy,
  how many statement keywords one statement may hold, and what grants can and cannot change.
 */
module GateVerdicts {
  import opened Wrappers
  import opened GateLexer
  import opened GateRules
  import opened GateAnalysis

  // ----- places in a statement -----

  /** Parentheses opened less parentheses closed among the first `n` tokens. */
  function DepthAt(toks: seq<Token>, n: nat): int
    requires n <= |toks|
  {
    if n == 0 then 0
    else DepthAt(toks, n - 1) + (if IsMark(toks, n - 1, "(") then 1 else if IsMark(toks, n - 1, ")") then -1 else 0)
  }

  predicate IsWord(toks: seq<Token>, i: nat) {
    i < |toks| && toks[i].kind == Word
  }

  predicate Reads(c: Compiled, e: Engine, toks: seq<Token>, i: nat) {
    IsWord(toks, i) && ReadRule(c, e, toks[i].lower).Some?
  }

  /** A statement-leading keyword where a second statement could begin. `WITH (` is a table hint. */
  predicate Boundary(c: Compiled, e: Engine, toks: seq<Token>, i: nat) {
    && i > 0 && Reads(c, e, toks, i) && DepthAt(toks, i) == 0
    && !(toks[i].lower == "with" && IsCall(toks, i))
  }

  /** A boundary that no set operator explains. */
  predicate Unaided(c: Compiled, e: Engine, toks: seq<Token>, i: nat) {
    Boundary(c, e, toks, i) && !AfterSetOperator(toks, i)
  }

  predicate AfterBody(c: Compiled, e: Engine, toks: seq<Token>, i: nat) {
    Unaided(c, e, toks, i) && IsMark(toks, i - 1, ")")
  }

  /** A leading WITH whose body has not begun before `n`. */
  ghost predicate WithOpen(c: Compiled, e: Engine, toks: seq<Token>, n: nat) {
    && n > 0 && Reads(c, e, toks, 0) && toks[0].lower == "with"
    && forall j: nat :: j < n ==> !AfterBody(c, e, toks, j)
  }

  /** The body of a leading WITH: the first boundary after a closing parenthesis. */
  ghost predicate WithBody(c: Compiled, e: Engine, toks: seq<Token>, i: nat) {
    AfterBody(c, e, toks, i) && WithOpen(c, e, toks, i)
  }

  /** A leading EXPLAIN or DESCRIBE whose statement has not begun before `n`. */
  ghost predicate PrefixOpen(c: Compiled, e: Engine, toks: seq<Token>, n: nat) {
    && n > 0 && Reads(c, e, toks, 0) && ReadRule(c, e, toks[0].lower).value.prefix
    && forall j: nat :: j < n ==> Unaided(c, e, toks, j) ==> WithBody(c, e, toks, j)
  }

  predicate SafeCall(c: Compiled, e: Engine, toks: seq<Token>, i: nat)
    requires i < |toks|
  {
    IsCall(toks, i) && IsSafe(c, e, toks[i].lower, QualifiedName(toks, i))
  }

  // ----- the conditions on one token -----

  predicate MarkClear(toks: seq<Token>, i: nat)
    requires i < |toks|
  {
    && (IsMark(toks, i, ")") ==> DepthAt(toks, i + 1) >= 0)
    && (IsMark(toks, i, ";") ==> i == |toks| - 1)
  }

  predicate NameClear(c: Compiled, e: Engine, toks: seq<Token>, i: nat)
    requires i < |toks|
  {
    IsName(toks, i) ==> Forbids(c, e, toks[i].lower).None? && Forbids(c, e, QualifiedName(toks, i)).None?
  }

  predicate PhraseClear(c: Compiled, e: Engine, toks: seq<Token>, i: nat)
    requires i < |toks|
  {
    IsWord(toks, i) ==> SafeCall(c, e, toks, i) || MatchPhrase(c, e, toks, i).None?
  }

  ghost predicate BoundaryClear(c: Compiled, e: Engine, toks: seq<Token>, i: nat) {
    Unaided(c, e, toks, i) ==> WithBody(c, e, toks, i) || PrefixOpen(c, e, toks, i)
  }

  ghost predicate Clear(c: Compiled, e: Engine, toks: seq<Token>, i: nat)
    requires i < |toks|
  {
    && MarkClear(toks, i)
    && NameClear(c, e, toks, i)
    && PhraseClear(c, e, toks, i)
    && (i == 0 ==> Reads(c, e, toks, 0))
    && BoundaryClear(c, e, toks, i)
  }

  /** A call a human can be asked about: no rule says what the name is. */
  ghost predicate Asks(c: Compiled, e: Engine, toks: seq<Token>, i: nat)
    requires i < |toks|
  {
    && IsName(toks, i) && UnknownCall(c, e, toks, i)
    && (toks[i].kind == QuotedIdent ||
        (&& !Reads(c, e, toks, i) && toks[i].lower !in c.nonFunc
         && !IsCteName(toks, i, DepthAt(toks, i), WithOpen(c, e, toks, i))))
  }

  function CallId(toks: seq<Token>, i: nat): string
    requires i < |toks|
  {
    UNKNOWN_FUNCTION_PREFIX + QualifiedName(toks, i)
  }

  /** The calls that ask, in the order of their first appearance among the first `n` tokens. */
  ghost function AskIds(c: Compiled, e: Engine, toks: seq<Token>, n: nat): seq<string>
    requires n <= |toks|
  {
    if n == 0 then []
    else
      var before := AskIds(c, e, toks, n - 1);
      if Asks(c, e, toks, n - 1) && CallId(toks, n - 1) !in before then before + [CallId(toks, n - 1)] else before
  }

  lemma {:induction false} AskIdsAre(c: Compiled, e: Engine, toks: seq<Token>, n: nat)
    requires n <= |toks|
    ensures forall id :: id in AskIds(c, e, toks, n) <==>
                           exists i: nat :: i < n && Asks(c, e, toks, i) && CallId(toks, i) == id
  {
    hide Asks, CallId;
    if n > 0 {
      AskIdsAre(c, e, toks, n - 1);
    }
  }

  // ----- the walk computes those conditions -----

  /** What a walk that nothing refused has kept. */
  ghost predicate Followed(c: Compiled, e: Engine, toks: seq<Token>, n: nat, w: Walk)
    requires n <= |toks|
  {
    && w.depth == DepthAt(toks, n)
    && w.withPending == WithOpen(c, e, toks, n)
    && w.prefixPending == PrefixOpen(c, e, toks, n)
    && (n > 0 ==> Some(w.allowedBy) == ReadRule(c, e, toks[0].lower))
    && w.escalatable == AskIds(c, e, toks, n)
  }

  lemma NextOpen(c: Compiled, e: Engine, toks: seq<Token>, n: nat)
    requires 0 < n < |toks|
    ensures WithOpen(c, e, toks, n + 1) == (WithOpen(c, e, toks, n) && !AfterBody(c, e, toks, n))
    ensures PrefixOpen(c, e, toks, n + 1) ==
            (PrefixOpen(c, e, toks, n) && (Unaided(c, e, toks, n) ==> WithBody(c, e, toks, n)))
  {
    hide AfterBody, Unaided, WithBody;
  }

  lemma FirstOpen(c: Compiled, e: Engine, toks: seq<Token>)
    requires toks != []
    ensures Reads(c, e, toks, 0) ==>
              && WithOpen(c, e, toks, 1) == (toks[0].lower == "with")
              && PrefixOpen(c, e, toks, 1) == ReadRule(c, e, toks[0].lower).value.prefix
    ensures !Unaided(c, e, toks, 0)
    ensures AskIds(c, e, toks, 1) ==
            if Asks(c, e, toks, 0) then [CallId(toks, 0)] else []
  {
    hide Asks, CallId;
    assert AskIds(c, e, toks, 0) == [];
  }

  /** A step over a token that is not an unquoted word. */
  lemma OtherStepSays(c: Compiled, e: Engine, toks: seq<Token>, n: nat, w: Walk)
    requires n < |toks| && 0 < n && toks[n].kind != Word
    requires w.terminal == [] && Followed(c, e, toks, n, w)
    ensures var next := Step(c, e, toks, n, w);
            && next.depth == DepthAt(toks, n + 1)
            && (next.terminal == [] <==> Clear(c, e, toks, n))
            && (next.terminal == [] ==> Followed(c, e, toks, n + 1, next))
  {
    NextOpen(c, e, toks, n);
    hide WithOpen, PrefixOpen, WithBody, QualifiedName, Forbids, IsSafe;
  }

  lemma WordDepth(toks: seq<Token>, n: nat)
    requires IsWord(toks, n)
    ensures DepthAt(toks, n + 1) == DepthAt(toks, n) && MarkClear(toks, n)
  {
  }

  /** What a call that is not refused adds to what may be approved. */
  lemma CallStepSays(c: Compiled, e: Engine, toks: seq<Token>, n: nat, w: Walk)
    requires IsWord(toks, n) && w.depth == DepthAt(toks, n) && w.escalatable == AskIds(c, e, toks, n)
    requires w.withPending == WithOpen(c, e, toks, n) || Reads(c, e, toks, n)
    ensures CallStep(c, e, toks, n, w) == w.(escalatable := AskIds(c, e, toks, n + 1))
  {
    hide WithOpen, DepthAt, QualifiedName, IsSafe, IsCteName, IsCall;
  }

  /** What a step over a word after the first comes to. */
  ghost predicate WordFollows(c: Compiled, e: Engine, toks: seq<Token>, n: nat, w: Walk, next: Walk)
    requires n < |toks|
  {
    && next.depth == w.depth
    && (next.terminal == [] <==> PhraseClear(c, e, toks, n) && BoundaryClear(c, e, toks, n))
    && (next.terminal == [] ==>
          && next.allowedBy == w.allowedBy
          && next.withPending == (w.withPending && !AfterBody(c, e, toks, n))
          && next.prefixPending == (w.prefixPending && (Unaided(c, e, toks, n) ==> WithBody(c, e, toks, n)))
          && next.escalatable == AskIds(c, e, toks, n + 1))
  }

  lemma PlainWordFollows(c: Compiled, e: Engine, toks: seq<Token>, n: nat, w: Walk)
    requires IsWord(toks, n) && 0 < n && !Boundary(c, e, toks, n)
    requires w.terminal == [] && Followed(c, e, toks, n, w)
    ensures WordFollows(c, e, toks, n, w, WordStep(c, e, toks, n, w))
  {
    CallStepSays(c, e, toks, n, w);
    assert !AfterBody(c, e, toks, n) && !Unaided(c, e, toks, n);
    hide WithOpen, PrefixOpen, QualifiedName, IsSafe, MatchPhrase, ReadRule, DepthAt, AskIds, CallStep, IsCall,
      Explain, AfterBody, Unaided, WithBody;
  }

  lemma BoundaryFollows(c: Compiled, e: Engine, toks: seq<Token>, n: nat, w: Walk)
    requires IsWord(toks, n) && Boundary(c, e, toks, n)
    requires w.terminal == [] && Followed(c, e, toks, n, w)
    ensures WordFollows(c, e, toks, n, w, WordStep(c, e, toks, n, w))
  {
    CallStepSays(c, e, toks, n, w);
    CallStepSays(c, e, toks, n, w.(prefixPending := false));
    CallStepSays(c, e, toks, n, w.(withPending := false));
    hide WithOpen, PrefixOpen, QualifiedName, IsSafe, MatchPhrase, ReadRule, IsMark, DepthAt, AskIds, CallStep,
      AfterSetOperator, IsCall, IsName;
  }

  lemma StepOfWord(c: Compiled, e: Engine, toks: seq<Token>, n: nat, w: Walk)
    requires IsWord(toks, n)
    ensures NameClear(c, e, toks, n) ==> Step(c, e, toks, n, w) == WordStep(c, e, toks, n, w)
    ensures !NameClear(c, e, toks, n) ==>
              Step(c, e, toks, n, w).terminal != [] && Step(c, e, toks, n, w).depth == w.depth
  {
    hide WordStep, QualifiedName, Forbids;
  }

  /** A step over a word after the first. */
  lemma WordStepSays(c: Compiled, e: Engine, toks: seq<Token>, n: nat, w: Walk)
    requires n < |toks| && 0 < n && toks[n].kind == Word
    requires w.terminal == [] && Followed(c, e, toks, n, w)
    ensures var next := Step(c, e, toks, n, w);
            && next.depth == DepthAt(toks, n + 1)
            && (next.terminal == [] <==> Clear(c, e, toks, n))
            && (next.terminal == [] ==> Followed(c, e, toks, n + 1, next))
  {
    WordDepth(toks, n);
    NextOpen(c, e, toks, n);
    if Boundary(c, e, toks, n) {
      BoundaryFollows(c, e, toks, n, w);
    } else {
      PlainWordFollows(c, e, toks, n, w);
    }
    StepOfWord(c, e, toks, n, w);
    hide Boundary, WithOpen, PrefixOpen, ReadRule, DepthAt, MarkClear, AskIds, NameClear, PhraseClear,
      BoundaryClear, AfterBody, Unaided, WithBody, WordStep, Step;
  }

  /** A step over the leading word. */
  lemma LeadStepSays(c: Compiled, e: Engine, toks: seq<Token>)
    requires toks != [] && toks[0].kind == Word
    ensures var next := Step(c, e, toks, 0, START);
            && next.depth == DepthAt(toks, 1)
            && (next.terminal == [] <==> Clear(c, e, toks, 0))
            && (next.terminal == [] ==> Followed(c, e, toks, 1, next))
  {
    FirstOpen(c, e, toks);
    hide WithOpen, PrefixOpen, AskIds, Unaided, QualifiedName, Forbids, IsSafe, MatchPhrase, ReadRule;
  }

  lemma StepKeeps(c: Compiled, e: Engine, toks: seq<Token>, n: nat, w: Walk)
    requires n < |toks| && w.depth == DepthAt(toks, n)
    ensures Step(c, e, toks, n, w).depth == DepthAt(toks, n + 1)
    ensures w.terminal != [] ==> Step(c, e, toks, n, w).terminal != []
  {
    if IsWord(toks, n) {
      WordDepth(toks, n);
      WordStepKeeps(c, e, toks, n, w);
      StepOfWord(c, e, toks, n, w);
      hide DepthAt, Step, WordStep, NameClear;
    } else {
      hide QualifiedName, Forbids, IsSafe, WordStep;
    }
  }

  lemma WordStepKeeps(c: Compiled, e: Engine, toks: seq<Token>, n: nat, w: Walk)
    requires n < |toks|
    ensures WordStep(c, e, toks, n, w).depth == w.depth
    ensures w.terminal != [] ==> WordStep(c, e, toks, n, w).terminal != []
  {
    hide CallStep, QualifiedName, IsSafe, MatchPhrase, ReadRule, IsMark, AfterSetOperator;
  }

  ghost predicate ClearTo(c: Compiled, e: Engine, toks: seq<Token>, n: nat)
    requires n <= |toks|
  {
    forall i: nat :: i < n ==> Clear(c, e, toks, i)
  }

  /** The walk is refused exactly when some token is not clear, and otherwise keeps what the places say. */
  lemma {:induction false} WalkSays(c: Compiled, e: Engine, toks: seq<Token>, n: nat)
    requires toks != [] && toks[0].kind == Word && n <= |toks|
    ensures var w := WalkTo(c, e, toks, n);
            && w.depth == DepthAt(toks, n)
            && (w.terminal == [] <==> ClearTo(c, e, toks, n))
            && (w.terminal == [] && n > 0 ==> Followed(c, e, toks, n, w))
  {
    hide Clear, Step, Followed;
    if n > 0 {
      WalkSays(c, e, toks, n - 1);
      var w := WalkTo(c, e, toks, n - 1);
      StepKeeps(c, e, toks, n - 1, w);
      if n == 1 {
        LeadStepSays(c, e, toks);
      } else if w.terminal == [] {
        if toks[n - 1].kind == Word {
          WordStepSays(c, e, toks, n - 1, w);
        } else {
          OtherStepSays(c, e, toks, n - 1, w);
        }
      }
    }
  }

  // ----- when a statement is allowed -----

  lemma {:induction false} SelectIs(ids: seq<string>, grants: seq<Grant>, granted: bool)
    ensures forall id :: id in Select(ids, grants, granted) <==> id in ids && Granted(grants, id) == granted
  {
    hide Granted;
    if ids != [] {
      var n := |ids| - 1;
      SelectIs(ids[..n], grants, granted);
      assert ids == ids[..n] + [ids[n]];
    }
  }

  /** Nothing in the statement is refused: what is left is at most to be approved. */
  ghost predicate Permitted(c: Compiled, e: Engine, toks: seq<Token>) {
    && IsWord(toks, 0)
    && ClearTo(c, e, toks, |toks|)
    && DepthAt(toks, |toks|) == 0
  }

  /**
    A statement is allowed exactly when it begins with a read keyword, no name in it is forbidden
    bare or dotted, its parentheses balance, a semicolon stands only at its end, every boundary in
    it is explained, every forbidden phrase in it is exempt, and every call that asks is granted.
   */
  lemma AllowExactly(c: Compiled, e: Engine, toks: seq<Token>, grants: seq<Grant>)
    requires toks != []
    ensures Analyse(c, e, toks, grants).verdict == Allow <==>
              && Permitted(c, e, toks)
              && forall i: nat :: i < |toks| && Asks(c, e, toks, i) ==> Granted(grants, CallId(toks, i))
    ensures Analyse(c, e, toks, grants).verdict == Deny <==> !Permitted(c, e, toks)
  {
    if toks[0].kind == Word {
      var n := |toks|;
      WalkSays(c, e, toks, n);
      hide Asks, CallId, WalkTo, Clear, Granted;
      AllAsked(c, e, toks, grants);
    }
  }

  lemma AllAsked(c: Compiled, e: Engine, toks: seq<Token>, grants: seq<Grant>)
    ensures Select(AskIds(c, e, toks, |toks|), grants, false) == [] <==>
              forall i: nat :: i < |toks| && Asks(c, e, toks, i) ==> Granted(grants, CallId(toks, i))
  {
    hide Asks, CallId, Granted, AskIds, Select;
    var ids := AskIds(c, e, toks, |toks|);
    AskIdsAre(c, e, toks, |toks|);
    SelectIs(ids, grants, false);
    var pending := Select(ids, grants, false);
    if pending != [] {
      assert pending[0] in pending;
    } else {
      forall i: nat | i < |toks| && Asks(c, e, toks, i)
        ensures Granted(grants, CallId(toks, i))
      {
        assert CallId(toks, i) in ids;
      }
    }
  }

  /** The rule an allowed statement is attributed to is the one its leading keyword matches. */
  lemma AllowedBy(c: Compiled, e: Engine, toks: seq<Token>, grants: seq<Grant>)
    requires toks != [] && Analyse(c, e, toks, grants).verdict == Allow
    ensures ReadRule(c, e, toks[0].lower).Some?
    ensures Analyse(c, e, toks, grants).ruleID == ReadRule(c, e, toks[0].lower).value.id
  {
    WalkSays(c, e, toks, |toks|);
    hide Asks, CallId, WalkTo, Clear, Granted;
  }

  // ----- one statement -----

  ghost function UnaidedPlaces(c: Compiled, e: Engine, toks: seq<Token>): set<nat> {
    set i: nat | i < |toks| && Unaided(c, e, toks, i)
  }

  function AtMost(b: bool): nat { if b then 1 else 0 }

  lemma AtMostOne(s: set<nat>)
    requires forall i, j :: i in s && j in s ==> i == j
    ensures |s| <= 1
  {
    if s != {} {
      var i :| i in s;
      assert s == {i};
    }
  }

  /**
    In an allowed statement the keywords that could begin another statement, and that no set
    operator explains, number at most one for a leading WITH and one for a leading prefix rule.
   */
  lemma OneStatement(c: Compiled, e: Engine, toks: seq<Token>, grants: seq<Grant>)
    requires toks != [] && Analyse(c, e, toks, grants).verdict == Allow
    ensures Reads(c, e, toks, 0)
    ensures |UnaidedPlaces(c, e, toks)| <=
            AtMost(toks[0].lower == "with") + AtMost(ReadRule(c, e, toks[0].lower).value.prefix)
  {
    AllowExactly(c, e, toks, grants);
    hide Unaided, Analyse;
    assert Clear(c, e, toks, 0);
    var places := UnaidedPlaces(c, e, toks);
    var bodies := set i | i in places && WithBody(c, e, toks, i);
    var prefixed := places - bodies;
    forall i | i in places
      ensures i in prefixed ==> PrefixOpen(c, e, toks, i)
    {
      assert Clear(c, e, toks, i);
    }
    AtMostOne(bodies);
    AtMostOne(prefixed);
    assert places == bodies + prefixed;
    if toks[0].lower != "with" {
      assert bodies == {};
    }
    if !ReadRule(c, e, toks[0].lower).value.prefix {
      assert prefixed == {};
    }
  }

  /** The places that no set operator explains and no leading WITH. */
  ghost function Extra(c: Compiled, e: Engine, toks: seq<Token>): set<nat> {
    set i: nat | i < |toks| && Unaided(c, e, toks, i) && !WithBody(c, e, toks, i)
  }

  /** How many of those the rule of the leading keyword explains. */
  function Allowance(c: Compiled, e: Engine, toks: seq<Token>): nat
    requires toks != []
  {
    AtMost(ReadRule(c, e, toks[0].lower).Some? && ReadRule(c, e, toks[0].lower).value.prefix)
  }

  lemma ExtraOpen(c: Compiled, e: Engine, toks: seq<Token>, i: nat)
    requires Reads(c, e, toks, 0) && i in Extra(c, e, toks)
    ensures BoundaryClear(c, e, toks, i) <==>
              Allowance(c, e, toks) == 1 && forall j :: j in Extra(c, e, toks) ==> i <= j
  {
    hide WithBody, AfterSetOperator, DepthAt;
    assert i > 0;
    if BoundaryClear(c, e, toks, i) {
      assert PrefixOpen(c, e, toks, i);
    }
    hide Unaided;
    if Allowance(c, e, toks) == 1 && forall j :: j in Extra(c, e, toks) ==> i <= j {
      forall j: nat | j < i && Unaided(c, e, toks, j)
        ensures WithBody(c, e, toks, j)
      {
        assert j !in Extra(c, e, toks);
      }
      assert PrefixOpen(c, e, toks, i);
    }
  }

  lemma OneElement<T>(s: set<T>, x: T, y: T)
    requires |s| <= 1 && x in s && y in s
    ensures x == y
  {
    assert |s - {x}| == 0;
    assert y !in s - {x};
  }

  /** Every boundary in a statement is explained exactly when its rule explains as many as are left over. */
  lemma BoundariesExplained(c: Compiled, e: Engine, toks: seq<Token>)
    requires Reads(c, e, toks, 0)
    ensures (forall i: nat :: i < |toks| ==> BoundaryClear(c, e, toks, i)) <==>
              |Extra(c, e, toks)| <= Allowance(c, e, toks)
  {
    var extra := Extra(c, e, toks);
    assert toks != [];
    hide Allowance, ReadRule, Reads, WithBody;
    forall i: nat | i < |toks| && i !in extra
      ensures BoundaryClear(c, e, toks, i)
    {
    }
    hide BoundaryClear, Extra;
    forall i: nat | i in extra
      ensures BoundaryClear(c, e, toks, i) <==> Allowance(c, e, toks) == 1 && forall j :: j in extra ==> i <= j
    {
      ExtraOpen(c, e, toks, i);
    }
    AllowanceIs(c, e, toks);
    if forall i: nat :: i < |toks| ==> BoundaryClear(c, e, toks, i) {
      ExtraWithin(c, e, toks);
      AtMostOne(extra);
    } else {
      ExtraWithin(c, e, toks);
      if |extra| <= Allowance(c, e, toks) {
        var i: nat :| i < |toks| && !BoundaryClear(c, e, toks, i);
        assert i in extra && |extra| > 0;
        forall j | j in extra
          ensures i <= j
        {
          OneElement(extra, i, j);
        }
      }
    }
  }

  lemma AllowanceIs(c: Compiled, e: Engine, toks: seq<Token>)
    requires toks != []
    ensures Allowance(c, e, toks) <= 1
  {
  }

  lemma ExtraWithin(c: Compiled, e: Engine, toks: seq<Token>)
    ensures forall i :: i in Extra(c, e, toks) ==> i < |toks|
  {
  }
}
