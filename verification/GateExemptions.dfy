/**
  The exemptions a ruleset can grant. A safe function whose name is also a forbidden keyword
  disables the keyword's rule where it is called, so validation makes the rule argue for it.
  What the validator remembers of a safe name decides how far that holds.
 */
module GateExemptions {
  import opened Wrappers
  import opened GateLexer
  import opened GateRules
  import opened GateRulesLoops
  import opened GateAnalysis
  import opened GateVerdicts
  import opened GatePhrases

  // ----- what the validator remembers of a safe name -----

  /** The rules let `name` be called on `e`. */
  ghost predicate Allowed(allowances: seq<FunctionAllowance>, name: string, e: Engine) {
    exists a :: a in allowances && name in a.names && Scoped(a.engines, e)
  }

  /** Some allowance of `name` is for every engine. */
  predicate Unscoped(allowances: seq<FunctionAllowance>, name: string) {
    exists a | a in allowances :: name in a.names && a.engines == []
  }

  /** The engines of the allowances of `name` that stand after the last one for every engine. */
  function ScopedSince(allowances: seq<FunctionAllowance>, name: string): seq<Engine> {
    if allowances == [] then []
    else
      var a := allowances[|allowances| - 1];
      if name in a.names && a.engines == [] then []
      else ScopedSince(allowances[..|allowances| - 1], name) + Repeat(a.engines, Count(a.names, name))
  }

  function Count(names: seq<string>, name: string): nat {
    if names == [] then 0
    else Count(names[..|names| - 1], name) + (if names[|names| - 1] == name then 1 else 0)
  }

  function Repeat(engines: seq<Engine>, n: nat): seq<Engine> {
    if n == 0 then [] else Repeat(engines, n - 1) + engines
  }

  lemma {:induction false} CountIn(names: seq<string>, name: string)
    ensures Count(names, name) > 0 <==> name in names
  {
    if names != [] {
      CountIn(names[..|names| - 1], name);
      assert names == names[..|names| - 1] + [names[|names| - 1]];
    }
  }

  lemma {:induction false} RepeatIn(engines: seq<Engine>, n: nat)
    ensures forall e :: e in Repeat(engines, n) <==> n > 0 && e in engines
  {
    if n > 0 {
      RepeatIn(engines, n - 1);
    }
  }

  /** What is known of a name once a list of names has been read with its engines. */
  function Known(scopes: map<string, seq<Engine>>, names: seq<string>, engines: seq<Engine>, name: string): seq<Engine> {
    if name in names && engines == [] then []
    else (if name in scopes then scopes[name] else []) + Repeat(engines, Count(names, name))
  }

  lemma KnownStep(scopes: map<string, seq<Engine>>, names: seq<string>, engines: seq<Engine>, name: string)
    requires names != []
    ensures var n := |names| - 1;
            Known(scopes, names, engines, name) ==
            if names[n] != name then Known(scopes, names[..n], engines, name)
            else if engines == [] then []
            else Known(scopes, names[..n], engines, name) + engines
  {
    var n := |names| - 1;
    CountIn(names[..n], name);
    assert names == names[..n] + [names[n]];
    var known := if name in scopes then scopes[name] else [];
    assert (known + Repeat(engines, Count(names[..n], name))) + engines ==
           known + (Repeat(engines, Count(names[..n], name)) + engines);
  }

  lemma {:induction false} ScopeNamesIs(
    scopes: map<string, seq<Engine>>, names: seq<string>, engines: seq<Engine>, name: string)
    ensures var after := ScopeNames(scopes, names, engines);
            && (name in after <==> name in scopes || name in names)
            && (if name in after then after[name] else []) == Known(scopes, names, engines, name)
  {
    if names == [] {
      assert Repeat(engines, Count(names, name)) == [];
      assert (if name in scopes then scopes[name] else []) + [] == (if name in scopes then scopes[name] else []);
    } else {
      hide Known;
      var n := |names| - 1;
      ScopeNamesIs(scopes, names[..n], engines, name);
      KnownStep(scopes, names, engines, name);
      assert names == names[..n] + [names[n]];
    }
  }

  ghost predicate Named(allowances: seq<FunctionAllowance>, name: string) {
    exists a :: a in allowances && name in a.names
  }

  lemma NamedStep(allowances: seq<FunctionAllowance>, name: string)
    requires allowances != []
    ensures var n := |allowances| - 1;
            Named(allowances, name) == (Named(allowances[..n], name) || name in allowances[n].names)
  {
    var n := |allowances| - 1;
    assert allowances == allowances[..n] + [allowances[n]];
  }

  /** What is remembered is what was said since the last allowance for every engine. */
  lemma {:induction false} SafeScopesAre(allowances: seq<FunctionAllowance>, name: string)
    ensures name in SafeScopes(allowances) <==> Named(allowances, name)
    ensures (if name in SafeScopes(allowances) then SafeScopes(allowances)[name] else []) ==
            ScopedSince(allowances, name)
  {
    if allowances != [] {
      var n := |allowances| - 1;
      var a := allowances[n];
      SafeScopesAre(allowances[..n], name);
      ScopeNamesIs(SafeScopes(allowances[..n]), a.names, a.engines, name);
      hide SafeScopes, ScopeNames, Repeat, Count, ScopedSince, Named;
      SafeScopesStep(allowances);
      ScopedSinceStep(allowances, name);
      NamedStep(allowances, name);
    }
  }

  lemma SafeScopesStep(allowances: seq<FunctionAllowance>)
    requires allowances != []
    ensures var n := |allowances| - 1;
            SafeScopes(allowances) == ScopeNames(SafeScopes(allowances[..n]), allowances[n].names, allowances[n].engines)
  {
  }

  lemma ScopedSinceStep(allowances: seq<FunctionAllowance>, name: string)
    requires allowances != []
    ensures var a := allowances[|allowances| - 1];
            ScopedSince(allowances, name) ==
            if name in a.names && a.engines == [] then []
            else ScopedSince(allowances[..|allowances| - 1], name) + Repeat(a.engines, Count(a.names, name))
  {
  }

  lemma {:induction false} ScopedSinceWithoutUnscoped(allowances: seq<FunctionAllowance>, name: string, e: Engine)
    requires !Unscoped(allowances, name)
    ensures e in ScopedSince(allowances, name) <==> Allowed(allowances, name, e)
  {
    if allowances != [] {
      var n := |allowances| - 1;
      var a := allowances[n];
      assert allowances == allowances[..n] + [a];
      ScopedSinceWithoutUnscoped(allowances[..n], name, e);
      RepeatIn(a.engines, Count(a.names, name));
      CountIn(a.names, name);
      hide ScopedSince, Repeat;
      ScopedSinceStep(allowances, name);
    }
  }

  /** The collision check sees every engine a name may be called on, whatever scope the keyword's rule has. */
  ghost predicate CollisionsSeen(allowances: seq<FunctionAllowance>, name: string) {
    forall e, scope :: e in ENGINES && Allowed(allowances, name, e) && Scoped(scope, e) ==>
      name in SafeScopes(allowances) && EnginesOverlap(SafeScopes(allowances)[name], scope)
  }

  /**
    A name is never allowed on every engine, or nothing narrower is said of it afterwards, or what is
    said adds up to every engine.
   */
  ghost predicate AddsUp(allowances: seq<FunctionAllowance>, name: string) {
    || !Unscoped(allowances, name)
    || ScopedSince(allowances, name) == []
    || forall e :: e in ENGINES ==> e in ScopedSince(allowances, name)
  }

  /** Exactly when the collision check is sound for a name: when its allowances, read in order, add up. */
  lemma CollisionsSeenExactly(allowances: seq<FunctionAllowance>, name: string)
    ensures CollisionsSeen(allowances, name) <==> AddsUp(allowances, name)
  {
    SafeScopesAre(allowances, name);
    var since := ScopedSince(allowances, name);
    if !Unscoped(allowances, name) {
      forall e
        ensures e in since <==> Allowed(allowances, name, e)
      {
        ScopedSinceWithoutUnscoped(allowances, name, e);
      }
    } else {
      var a :| a in allowances && name in a.names && a.engines == [];
      assert forall e :: Allowed(allowances, name, e);
      if since != [] && exists e :: e in ENGINES && e !in since {
        var e :| e in ENGINES && e !in since;
        assert Scoped([e], e) && !EnginesOverlap(since, [e]);
      }
    }
  }

  /** No allowance of `name` for some engines follows one for every engine. */
  ghost predicate Ordered(allowances: seq<FunctionAllowance>, name: string) {
    forall i, j :: 0 <= i < j < |allowances| && name in allowances[i].names && name in allowances[j].names ==>
      allowances[i].engines == [] ==> allowances[j].engines == []
  }

  lemma {:induction false} OrderedSince(allowances: seq<FunctionAllowance>, name: string)
    requires Ordered(allowances, name) && Unscoped(allowances, name)
    ensures ScopedSince(allowances, name) == []
  {
    var n := |allowances| - 1;
    var a := allowances[n];
    assert allowances == allowances[..n] + [a];
    if !(name in a.names && a.engines == []) {
      assert Unscoped(allowances[..n], name);
      var i :| 0 <= i < n && name in allowances[i].names && allowances[i].engines == [];
      assert name !in a.names;
      CountIn(a.names, name);
      OrderedSince(allowances[..n], name);
    }
  }

  /** Allowances so ordered add up, so every collision of theirs is seen. */
  lemma OrderedIsSeen(allowances: seq<FunctionAllowance>, name: string)
    requires Ordered(allowances, name)
    ensures AddsUp(allowances, name) && CollisionsSeen(allowances, name)
  {
    if Unscoped(allowances, name) {
      OrderedSince(allowances, name);
    }
    CollisionsSeenExactly(allowances, name);
  }

  /** One allowance for every engine, and a later one of the same name for MySQL alone. */
  function OutOfOrder(name: string): seq<FunctionAllowance> {
    [FunctionAllowance([], [name], []), FunctionAllowance([MySQL], [name], [])]
  }

  lemma OutOfOrderScope(name: string)
    ensures Unscoped(OutOfOrder(name), name) && ScopedSince(OutOfOrder(name), name) == [MySQL]
    ensures Allowed(OutOfOrder(name), name, SQLServer) && Named(OutOfOrder(name), name)
  {
    var first := OutOfOrder(name)[0];
    assert first in OutOfOrder(name) && name in first.names;
    assert OutOfOrder(name)[..1] == [first];
    assert [name][..0] == [] && Count([], name) == 0;
    assert Repeat([MySQL], 0) == [];
  }

  /** Out of order, an undeclared collision passes: what the validator remembers is MySQL alone. */
  lemma OutOfOrderIsMissed(name: string)
    ensures Allowed(OutOfOrder(name), name, SQLServer)
    ensures name in SafeScopes(OutOfOrder(name))
    ensures !EnginesOverlap(SafeScopes(OutOfOrder(name))[name], [SQLServer])
    ensures !CollisionsSeen(OutOfOrder(name), name)
  {
    hide OutOfOrder, SafeScopes, ScopedSince, Unscoped, CollisionsSeen, Allowed, Named;
    OutOfOrderScope(name);
    SafeScopesAre(OutOfOrder(name), name);
    CollisionsSeenExactly(OutOfOrder(name), name);
    assert SQLServer in ENGINES && SQLServer !in ScopedSince(OutOfOrder(name), name);
  }

  // ----- exempt phrases -----

  lemma OneWord(words: seq<string>, pattern: string)
    requires |words| == 1 && pattern == Join(words, " ")
    ensures words == [pattern]
  {
  }

  /** A phrase that fits where a parenthesis follows is the one word there. */
  lemma CalledPhrase(p: Phrase, e: Engine, toks: seq<Token>, i: nat)
    requires i < |toks| && p.words != [] && Fits(p, e, toks, i) && IsCall(toks, i)
    ensures p.words == [toks[i].lower]
  {
    SecondWord(p.words, toks, i);
  }

  lemma SecondWord(words: seq<string>, toks: seq<Token>, i: nat)
    requires WordsAt(words, toks, i) && words != []
    ensures toks[i].lower == words[0]
    ensures |words| > 1 ==> i + 1 < |toks| && toks[i + 1].kind == Word
  {
  }

  /**
    A phrase a call disables is one word, the word called; and the ruleset either argues for it on
    the phrase's rule, or lists a dotted name as safe, which no collision check looks at.
   */
  lemma ExemptPhrases(lib: Library, rs: Ruleset, c: Compiled, e: Engine, toks: seq<Token>, i: nat)
    requires Valid(lib, rs) && IsCompiled(lib, rs, c) && e in ENGINES
    requires i < |toks| && AddsUp(rs.safeFunctions, toks[i].lower)
    requires IsWord(toks, i) && SafeCall(c, e, toks, i) && MatchPhrase(c, e, toks, i).Some?
    ensures var r := MatchPhrase(c, e, toks, i).value;
            && r in rs.forbiddenStatements && RuleApplies(r, e)
            && r.pattern == toks[i].lower
            && (Declares(lib, r) ||
                (!Allowed(rs.safeFunctions, toks[i].lower, e) && Allowed(rs.safeFunctions, QualifiedName(toks, i), e)))
  {
    ValidCompiles(lib, rs);
    MatchExists(lib, rs, c, e, toks, i);
    var r := MatchPhrase(c, e, toks, i).value;
    var words := lib.fields(r.pattern);
    StatementChecked(lib, rs, r);
    CalledPhrase(PhraseOf(lib, r), e, toks, i);
    OneWord(words, r.pattern);
    var name := toks[i].lower;
    hide MatchPhrase, QualifiedName, Valid, AddsUp, SafeScopes, Allowed;
    SafeMeansAllowed(lib, rs, c, e, name);
    SafeMeansAllowed(lib, rs, c, e, QualifiedName(toks, i));
    if Allowed(rs.safeFunctions, name, e) {
      CollisionsSeenExactly(rs.safeFunctions, name);
      assert EnginesOverlap(SafeScopes(rs.safeFunctions)[name], r.engines);
    }
  }

  lemma StatementChecked(lib: Library, rs: Ruleset, r: Rule)
    requires Valid(lib, rs) && r in rs.forbiddenStatements
    ensures RuleOk(lib, r) && CollisionOk(lib, SafeScopes(rs.safeFunctions), r)
  {
    assert r in AllRules(rs);
  }

  lemma SafeMeansAllowed(lib: Library, rs: Ruleset, c: Compiled, e: Engine, name: string)
    requires IsCompiled(lib, rs, c) && e in ENGINES
    ensures name in c.safeFunc[e] <==> Allowed(rs.safeFunctions, name, e)
  {
  }

  /** The first of the rules in force on `e` that is this one word. */
  function FirstRule(lib: Library, rules: seq<Rule>, e: Engine, name: string): Option<Rule> {
    if rules == [] then None
    else
      var n := |rules| - 1;
      var before := FirstRule(lib, rules[..n], e, name);
      if before.None? && RuleApplies(rules[n], e) && lib.fields(rules[n].pattern) == [name] then Some(rules[n])
      else before
  }

  lemma CallFits(p: Phrase, e: Engine, toks: seq<Token>, i: nat)
    requires IsWord(toks, i) && IsCall(toks, i) && p.words != []
    ensures Fits(p, e, toks, i) <==> RuleApplies(p.rule, e) && p.words == [toks[i].lower]
  {
    if Fits(p, e, toks, i) {
      CalledPhrase(p, e, toks, i);
    }
    hide RuleApplies;
  }

  lemma {:induction false} CalledLongest(lib: Library, rules: seq<Rule>, e: Engine, toks: seq<Token>, i: nat)
    requires IsWord(toks, i) && IsCall(toks, i)
    requires forall r :: r in rules ==> lib.fields(r.pattern) != []
    ensures Longest(lib, rules, e, toks, i) ==
            match FirstRule(lib, rules, e, toks[i].lower) {
              case None => None
              case Some(r) => Some(Phrase([toks[i].lower], r))
            }
  {
    if rules != [] {
      var n := |rules| - 1;
      assert rules[n] in rules;
      CalledLongest(lib, rules[..n], e, toks, i);
      CallFits(PhraseOf(lib, rules[n]), e, toks, i);
      hide Fits, RuleApplies, IsCall;
    }
  }

  /** At a call the phrase that is found depends on the word alone. */
  lemma MatchAtCall(lib: Library, rs: Ruleset, c: Compiled, e: Engine, toks: seq<Token>, i: nat)
    requires Valid(lib, rs) && IsCompiled(lib, rs, c) && IsWord(toks, i) && IsCall(toks, i)
    ensures MatchPhrase(c, e, toks, i) == FirstRule(lib, rs.forbiddenStatements, e, toks[i].lower)
  {
    ValidCompiles(lib, rs);
    hide Valid, MatchPhrase, Longest, FirstRule, IsCompiled;
    IndexAgreesWithScan(lib, rs, c, e, toks, i);
    CalledLongest(lib, rs.forbiddenStatements, e, toks, i);
  }

  /** A call of `name` at `i` that a forbidden keyword matches, that no rule argues for, and that passes all the same. */
  ghost predicate PassesUnargued(lib: Library, c: Compiled, e: Engine, toks: seq<Token>, i: nat, name: string) {
    && IsWord(toks, i) && toks[i].lower == name && SafeCall(c, e, toks, i)
    && MatchPhrase(c, e, toks, i).Some? && !Declares(lib, MatchPhrase(c, e, toks, i).value)
  }

  /** A safe name with more parts, the last of which is `name`. */
  predicate Dotted(qualified: string, name: string) {
    |qualified| > |name| && qualified[|qualified| - |name| - 1..] == "." + name
  }

  ghost predicate DottedAllowed(allowances: seq<FunctionAllowance>, name: string, e: Engine) {
    exists q :: Dotted(q, name) && Allowed(allowances, q, e)
  }

  lemma {:induction false} JoinLast(parts: seq<string>, last: string)
    requires parts != []
    ensures Join(parts + [last], ".") == Join(parts, ".") + "." + last
  {
    if |parts| > 1 {
      JoinLast(parts[1..], last);
      assert (parts + [last])[1..] == parts[1..] + [last];
    } else {
      assert (parts + [last])[1..] == [last];
    }
  }

  /** A dotted name is its last part alone, or ends in a dot and it. */
  lemma QualifiedEnds(toks: seq<Token>, i: nat)
    requires i < |toks|
    ensures QualifiedName(toks, i) == toks[i].lower || Dotted(QualifiedName(toks, i), toks[i].lower)
  {
    var last := toks[i].lower;
    if IsMark(toks, i - 1, ".") && IsName(toks, i - 2) {
      var front := NameParts(toks, i - 2, MAX_NAME_PARTS - 1);
      JoinLast(front, last);
      hide NameParts, Join;
      var q := Join(front, ".") + "." + last;
      assert q == Join(front, ".") + ("." + last);
      assert q[|Join(front, ".")|..] == "." + last;
    }
  }

  /** A call of `prefix.name`, the prefix quoted. */
  function DottedCall(prefix: string, name: string): seq<Token> {
    [ Token(QuotedIdent, prefix, prefix, 0), Token(Punct, ".", ".", 1), Token(Word, name, name, 2),
      Token(Punct, "(", "(", 3) ]
  }

  function PlainCall(name: string): seq<Token> {
    [Token(Word, name, name, 0), Token(Punct, "(", "(", 1)]
  }

  lemma DottedCallIs(prefix: string, name: string)
    ensures var toks := DottedCall(prefix, name);
            IsWord(toks, 2) && IsCall(toks, 2) && QualifiedName(toks, 2) == prefix + "." + name
  {
    var toks := DottedCall(prefix, name);
    assert !IsMark(toks, -1, ".");
    assert NameParts(toks, 0, 3) == [prefix];
    assert NameParts(toks, 2, 4) == [prefix] + [name];
    JoinLast([prefix], name);
  }

  lemma PlainCallIs(name: string)
    ensures IsWord(PlainCall(name), 0) && IsCall(PlainCall(name), 0)
  {
  }

  /** What a forbidden keyword allowed by name says of its allowances, unless a rule argues for it. */
  lemma UnarguedDoesNotAddUp(lib: Library, rs: Ruleset, e: Engine, name: string, r: Rule)
    requires Valid(lib, rs) && e in ENGINES && Allowed(rs.safeFunctions, name, e)
    requires r in rs.forbiddenStatements && RuleApplies(r, e) && r.pattern == name && !Declares(lib, r)
    ensures !AddsUp(rs.safeFunctions, name)
  {
    StatementChecked(lib, rs, r);
    CollisionsSeenExactly(rs.safeFunctions, name);
    hide Valid, AddsUp, SafeScopes, Allowed, CollisionsSeen, EnginesOverlap, Declares;
    if CollisionsSeen(rs.safeFunctions, name) {
      SeenOverlaps(rs.safeFunctions, name, e, r.engines);
    }
  }

  lemma SeenOverlaps(allowances: seq<FunctionAllowance>, name: string, e: Engine, scope: seq<Engine>)
    requires CollisionsSeen(allowances, name) && e in ENGINES && Allowed(allowances, name, e) && Scoped(scope, e)
    ensures name in SafeScopes(allowances) && EnginesOverlap(SafeScopes(allowances)[name], scope)
  {
    hide SafeScopes, EnginesOverlap, Allowed;
  }

  lemma NotAddingUpAllows(allowances: seq<FunctionAllowance>, name: string, e: Engine)
    requires !AddsUp(allowances, name)
    ensures Allowed(allowances, name, e)
  {
    var a :| a in allowances && name in a.names && a.engines == [];
  }

  lemma {:induction false} FirstRuleIs(lib: Library, rules: seq<Rule>, e: Engine, name: string)
    ensures FirstRule(lib, rules, e, name).Some? ==>
              var r := FirstRule(lib, rules, e, name).value;
              r in rules && RuleApplies(r, e) && lib.fields(r.pattern) == [name]
  {
    hide RuleApplies;
    if rules != [] {
      FirstRuleIs(lib, rules[..|rules| - 1], e, name);
      assert rules == rules[..|rules| - 1] + [rules[|rules| - 1]];
    }
  }

  lemma FirstRulePattern(lib: Library, rs: Ruleset, e: Engine, name: string)
    requires Valid(lib, rs) && FirstRule(lib, rs.forbiddenStatements, e, name).Some?
    ensures var r := FirstRule(lib, rs.forbiddenStatements, e, name).value;
            r in rs.forbiddenStatements && RuleApplies(r, e) && r.pattern == name
  {
    hide Valid, RuleApplies;
    FirstRuleIs(lib, rs.forbiddenStatements, e, name);
    StatementChecked(lib, rs, FirstRule(lib, rs.forbiddenStatements, e, name).value);
  }

  /** Some call of `name`, dotted or not, passes though no rule argues for it. */
  ghost predicate Unargued(lib: Library, c: Compiled, e: Engine, name: string) {
    exists toks: seq<Token>, i: nat :: PassesUnargued(lib, c, e, toks, i, name)
  }

  /**
    Exactly when validation misses a collision, in any ruleset that passes it: a forbidden keyword no
    rule argues for can be called if and only if its allowances, read in order, do not add up, or a
    dotted name ending in it is allowed.
   */
  lemma UnarguedExactly(lib: Library, rs: Ruleset, c: Compiled, e: Engine, name: string)
    requires Valid(lib, rs) && IsCompiled(lib, rs, c) && e in ENGINES
    ensures Unargued(lib, c, e, name) <==>
              && FirstRule(lib, rs.forbiddenStatements, e, name).Some?
              && !Declares(lib, FirstRule(lib, rs.forbiddenStatements, e, name).value)
              && (!AddsUp(rs.safeFunctions, name) || DottedAllowed(rs.safeFunctions, name, e))
  {
    hide Valid, IsCompiled, MatchPhrase, AddsUp, Allowed, Declares, FirstRule, QualifiedName, Dotted, SafeCall, Unargued;
    var first := FirstRule(lib, rs.forbiddenStatements, e, name);
    if Unargued(lib, c, e, name) {
      UnarguedIsMissed(lib, rs, c, e, name);
    }
    if first.Some? && !Declares(lib, first.value) {
      if !AddsUp(rs.safeFunctions, name) {
        NotAddingUpAllows(rs.safeFunctions, name, e);
        PlainPasses(lib, rs, c, e, name);
      }
      if DottedAllowed(rs.safeFunctions, name, e) {
        var q :| Dotted(q, name) && Allowed(rs.safeFunctions, q, e);
        DottedPasses(lib, rs, c, e, name, q);
      }
    }
  }

  lemma UnarguedIsMissed(lib: Library, rs: Ruleset, c: Compiled, e: Engine, name: string)
    requires Valid(lib, rs) && IsCompiled(lib, rs, c) && e in ENGINES && Unargued(lib, c, e, name)
    ensures FirstRule(lib, rs.forbiddenStatements, e, name).Some?
    ensures !Declares(lib, FirstRule(lib, rs.forbiddenStatements, e, name).value)
    ensures !AddsUp(rs.safeFunctions, name) || DottedAllowed(rs.safeFunctions, name, e)
  {
    var toks: seq<Token>, i: nat :| PassesUnargued(lib, c, e, toks, i, name);
    hide Valid, IsCompiled, MatchPhrase, AddsUp, Allowed, Declares, FirstRule, QualifiedName, Dotted, IsCall;
    MatchAtCall(lib, rs, c, e, toks, i);
    var r := FirstRule(lib, rs.forbiddenStatements, e, name).value;
    FirstRulePattern(lib, rs, e, name);
    SafeMeansAllowed(lib, rs, c, e, name);
    SafeMeansAllowed(lib, rs, c, e, QualifiedName(toks, i));
    QualifiedEnds(toks, i);
    if Allowed(rs.safeFunctions, name, e) {
      UnarguedDoesNotAddUp(lib, rs, e, name, r);
    }
  }

  lemma PlainPasses(lib: Library, rs: Ruleset, c: Compiled, e: Engine, name: string)
    requires Valid(lib, rs) && IsCompiled(lib, rs, c) && e in ENGINES && Allowed(rs.safeFunctions, name, e)
    requires FirstRule(lib, rs.forbiddenStatements, e, name).Some?
    requires !Declares(lib, FirstRule(lib, rs.forbiddenStatements, e, name).value)
    ensures Unargued(lib, c, e, name)
  {
    PlainCallIs(name);
    MatchAtCall(lib, rs, c, e, PlainCall(name), 0);
    SafeMeansAllowed(lib, rs, c, e, name);
    hide Valid, MatchPhrase, Allowed, Declares, FirstRule, QualifiedName;
    assert e in c.safeFunc;
    assert PassesUnargued(lib, c, e, PlainCall(name), 0, name);
  }

  lemma DottedPasses(lib: Library, rs: Ruleset, c: Compiled, e: Engine, name: string, q: string)
    requires Valid(lib, rs) && IsCompiled(lib, rs, c) && e in ENGINES
    requires Dotted(q, name) && Allowed(rs.safeFunctions, q, e)
    requires FirstRule(lib, rs.forbiddenStatements, e, name).Some?
    requires !Declares(lib, FirstRule(lib, rs.forbiddenStatements, e, name).value)
    ensures Unargued(lib, c, e, name)
  {
    var prefix := q[..|q| - |name| - 1];
    var toks := DottedCall(prefix, name);
    assert q == prefix + ("." + name) == prefix + "." + name;
    DottedCallIs(prefix, name);
    MatchAtCall(lib, rs, c, e, toks, 2);
    SafeMeansAllowed(lib, rs, c, e, q);
    assert e in c.safeFunc && toks[2].lower == name;
    hide Valid, IsCompiled, MatchPhrase, Allowed, Declares, FirstRule, QualifiedName, DottedCall, Dotted, IsCall;
    assert PassesUnargued(lib, c, e, toks, 2, name);
  }
}
