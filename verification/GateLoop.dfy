/**
  The gate itself: the analysis as its loop runs it, and the object whose rules are swapped
  by a reload.
 */
module GateLoop {
  import opened Wrappers
  import opened GateLexer
  import opened GateLexerLoop
  import opened GateRules
  import opened GateRulesLoops
  import opened GateAnalysis

  /** Walks back over a dotted name, at most `MAX_NAME_PARTS` parts of it, putting each part first. */
  method JoinName(toks: seq<Token>, i: nat) returns (name: string)
    requires i < |toks|
    ensures name == QualifiedName(toks, i)
  {
    var later: seq<string> := [];
    var j := i;
    while |later| + 1 < MAX_NAME_PARTS && IsMark(toks, j - 1, ".") && IsName(toks, j - 2)
      invariant 0 <= j <= i && |later| < MAX_NAME_PARTS
      invariant NameParts(toks, i, MAX_NAME_PARTS) == NameParts(toks, j, MAX_NAME_PARTS - |later|) + later
      decreases j
    {
      NamePartsStep(toks, j, MAX_NAME_PARTS - |later|, later);
      later := [toks[j].lower] + later;
      j := j - 2;
    }
    name := Join([toks[j].lower] + later, ".");
  }

  lemma NamePartsStep(toks: seq<Token>, j: nat, limit: nat, later: seq<string>)
    requires j < |toks| && limit > 1 && IsMark(toks, j - 1, ".") && IsName(toks, j - 2)
    ensures NameParts(toks, j, limit) + later == NameParts(toks, j - 2, limit - 1) + ([toks[j].lower] + later)
  {
  }

  method FindPhrase(c: Compiled, e: Engine, toks: seq<Token>, i: nat) returns (r: Option<Rule>)
    requires i < |toks|
    ensures r == MatchPhrase(c, e, toks, i)
  {
    var phrases := if toks[i].lower in c.forbidden then c.forbidden[toks[i].lower] else [];
    var k := 0;
    while k < |phrases|
      invariant 0 <= k <= |phrases|
      invariant FirstFit(phrases, e, toks, i) == FirstFit(phrases[k..], e, toks, i)
    {
      assert phrases[k..][1..] == phrases[k + 1..];
      if Fits(phrases[k], e, toks, i) {
        return Some(phrases[k].rule);
      }
      k := k + 1;
    }
    return None;
  }

  /** The loop body for one token that is a word. */
  method StepWord(c: Compiled, e: Engine, toks: seq<Token>, i: nat, qualified: string, w: Walk) returns (next: Walk)
    requires i < |toks| && qualified == QualifiedName(toks, i)
    ensures next == WordStep(c, e, toks, i, w)
  {
    hide QualifiedName, MatchPhrase, IsSafe, IsCteName;
    var name := toks[i].lower;
    next := w;
    var isCall := i + 1 < |toks| && toks[i + 1].kind == Punct && toks[i + 1].text == "(";
    var safe := isCall && IsSafe(c, e, name, qualified);
    if !safe {
      var phrase := FindPhrase(c, e, toks, i);
      if phrase.Some? {
        return Refuse(next, ForbiddenStatement, phrase.value.id);
      }
    }
    var read := ReadRule(c, e, name);
    if i == 0 {
      if read.None? {
        return Refuse(next, UnknownStatement, []);
      }
      next := next.(allowedBy := read.value, withPending := name == "with", prefixPending := read.value.prefix);
    } else if read.Some? && next.depth == 0 && !(name == "with" && isCall) {
      var explained := Explain(toks, i, next);
      if explained.None? {
        return Refuse(next, MultipleStatements, []);
      }
      next := explained.value;
    }
    if isCall && !safe && read.None? && name !in c.nonFunc && !IsCteName(toks, i, next.depth, next.withPending) {
      next := Escalate(next, qualified);
    }
  }

  method RunAnalysis(c: Compiled, e: Engine, toks: seq<Token>, grants: seq<Grant>) returns (d: Decision)
    requires toks != []
    ensures d == Analyse(c, e, toks, grants)
  {
    if toks[0].kind != Word {
      return Refusal(LeadingTokenNotWord, []);
    }
    hide QualifiedName, WordStep, Forbids, IsSafe;
    var w := START;
    for i := 0 to |toks|
      invariant w == WalkTo(c, e, toks, i)
    {
      var t := toks[i];
      if t.kind == Punct {
        w := MarkStep(toks, i, w);
      } else if t.kind == Word || t.kind == QuotedIdent {
        var qualified := JoinName(toks, i);
        var bare, dotted := Forbids(c, e, t.lower), Forbids(c, e, qualified);
        if bare.Some? {
          w := Refuse(w, ForbiddenConstruct, bare.value.id);
        } else if dotted.Some? && qualified != t.lower {
          w := Refuse(w, ForbiddenConstruct, dotted.value.id);
        } else if t.kind == QuotedIdent {
          if IsCall(toks, i) && !IsSafe(c, e, t.lower, qualified) {
            w := Escalate(w, qualified);
          }
        } else {
          w := StepWord(c, e, toks, i, qualified, w);
        }
      }
    }
    d := ConcludeWalk(w, grants);
  }

  method ConcludeWalk(w: Walk, grants: seq<Grant>) returns (d: Decision)
    ensures d == Conclude(w, grants)
  {
    if w.terminal != [] {
      return Refusal(w.terminal[0].reason, w.terminal[0].ruleID);
    }
    if w.depth != 0 {
      return Refusal(UnbalancedParens, []);
    }
    var pending, used: seq<string> := [], [];
    for i := 0 to |w.escalatable|
      invariant pending == Select(w.escalatable[..i], grants, false)
      invariant used == Select(w.escalatable[..i], grants, true)
    {
      TakeOneMore(w.escalatable, i);
      if Granted(grants, w.escalatable[i]) {
        used := used + [w.escalatable[i]];
      } else {
        pending := pending + [w.escalatable[i]];
      }
    }
    assert w.escalatable[..|w.escalatable|] == w.escalatable;
    d := if pending == [] then Decision(Allow, ReadStatement, w.allowedBy.id, [], used)
         else Decision(NeedsApproval, UnknownFunction, pending[0], pending, []);
  }

  /** What reading the overlay file gave: no overlay is configured, it was unreadable, or its content. */
  datatype OverlayFile = NotConfigured | Unreadable | Read(overlay: Overlay)

  class Gate {
    const lib: Library
    const baseline: Ruleset
    var rules: Option<Compiled>

    /** The rules in force, if any, are always those of one ruleset that passed validation whole. */
    ghost predicate Valid()
      reads this
    {
      rules.Some? ==> GateRules.Valid(lib, rules.value.source) && IsCompiled(lib, rules.value.source, rules.value)
    }

    /** A gate that has loaded nothing yet. */
    constructor Unloaded(lib: Library, baseline: Ruleset)
      ensures Valid() && this.lib == lib && this.baseline == baseline && rules == None
    {
      this.lib, this.baseline, rules := lib, baseline, None;
    }

    /** Builds a gate on the baseline as it was embedded, which the source validates first. */
    constructor (lib: Library, baseline: Ruleset)
      requires GateRules.Valid(lib, baseline)
      ensures Valid() && this.lib == lib && this.baseline == baseline
      ensures rules.Some? && rules.value.source == baseline
    {
      ValidCompiles(lib, baseline);
      var c := Compile(lib, baseline);
      this.lib, this.baseline, rules := lib, baseline, Some(c);
    }

    /** Swaps the rules, or on any failure leaves those in force exactly as they were. */
    method Reload(file: OverlayFile) returns (ok: bool)
      requires Valid() && GateRules.Valid(lib, baseline)
      modifies this
      ensures Valid()
      ensures !ok ==> rules == old(rules)
      ensures ok <==> file.NotConfigured? || (file.Read? && exists rs :: Merges(lib, baseline, file.overlay, rs))
      ensures ok ==> rules.Some?
      ensures ok && file.NotConfigured? ==> rules.value.source == baseline
      ensures ok && file.Read? ==> Merges(lib, baseline, file.overlay, rules.value.source)
    {
      hide GateRules.Valid;
      match file
      case Unreadable => return false;
      case NotConfigured =>
        ValidCompiles(lib, baseline);
        var c := Compile(lib, baseline);
        rules := Some(c);
        return true;
      case Read(overlay) =>
        var merged := Merge(lib, baseline, overlay);
        if merged.None? {
          return false;
        }
        ValidCompiles(lib, merged.value);
        var c := Compile(lib, merged.value);
        rules := Some(c);
        return true;
    }

    method Validate(e: Engine, statement: string, grants: seq<Grant>) returns (d: Decision)
      ensures d == Decide(rules, lib.lower, e, statement, grants)
    {
      if rules.None? {
        return Refusal(NoRuleset, []);
      }
      if e.Unsupported? {
        return Refusal(InvalidEngine, []);
      }
      if |statement| > rules.value.source.maxStatementBytes {
        return Refusal(StatementTooLong, []);
      }
      var toks := TokenizeStatement(e, lib.lower, statement);
      if toks.Err? {
        return Refusal(TokenizeError, []);
      }
      if toks.value == [] {
        return Refusal(EmptyStatement, []);
      }
      d := RunAnalysis(rules.value, e, toks.value, grants);
    }
  }
}
