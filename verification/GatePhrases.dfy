/**
  The phrase index agrees with a scan of the rules: looking a word up, longest phrase first,
  finds the longest rule that fits and, among those as long, the one written first.
 */
module GatePhrases {
  import opened Wrappers
  import opened GateLexer
  import opened GateRules
  import opened GateAnalysis

  function PhraseOf(lib: Library, r: Rule): Phrase {
    Phrase(lib.fields(r.pattern), r)
  }

  /** The better of what has been found and one more phrase: strictly longer wins. */
  function Better(best: Option<Phrase>, p: Phrase, e: Engine, toks: seq<Token>, i: nat): Option<Phrase> {
    if Fits(p, e, toks, i) && (best.None? || |p.words| > |best.value.words|) then Some(p) else best
  }

  /** The longest phrase that fits at `i`, by a scan over the rules in their own order. */
  function Longest(lib: Library, rules: seq<Rule>, e: Engine, toks: seq<Token>, i: nat): Option<Phrase> {
    if rules == [] then None
    else
      var n := |rules| - 1;
      Better(Longest(lib, rules[..n], e, toks, i), PhraseOf(lib, rules[n]), e, toks, i)
  }

  ghost predicate LongestStand(phrases: seq<Phrase>) {
    forall i, j :: 0 <= i < j < |phrases| ==> |phrases[i].words| >= |phrases[j].words|
  }

  lemma {:induction false} InsertStands(sorted: seq<Phrase>, p: Phrase)
    requires LongestStand(sorted)
    ensures LongestStand(Insert(sorted, p))
    ensures forall q :: q in Insert(sorted, p) <==> q == p || q in sorted
  {
    if sorted != [] {
      assert sorted == [sorted[0]] + sorted[1..];
      if |sorted[0].words| >= |p.words| {
        InsertStands(sorted[1..], p);
        var rest := Insert(sorted[1..], p);
        forall q | q in rest
          ensures |sorted[0].words| >= |q.words|
        {
          if q != p {
            var k :| 0 <= k < |sorted[1..]| && sorted[1..][k] == q;
            assert sorted[k + 1] == q;
          }
        }
      }
    }
  }

  lemma {:induction false} FirstFitIn(phrases: seq<Phrase>, e: Engine, toks: seq<Token>, i: nat)
    ensures FirstFit(phrases, e, toks, i).Some? ==>
              FirstFit(phrases, e, toks, i).value in phrases && Fits(FirstFit(phrases, e, toks, i).value, e, toks, i)
  {
    if phrases != [] && !Fits(phrases[0], e, toks, i) {
      FirstFitIn(phrases[1..], e, toks, i);
    }
  }

  /** Inserting a phrase changes the first that fits exactly as comparing it with the best so far. */
  lemma {:induction false} InsertFirst(sorted: seq<Phrase>, p: Phrase, e: Engine, toks: seq<Token>, i: nat)
    requires LongestStand(sorted)
    ensures FirstFit(Insert(sorted, p), e, toks, i) == Better(FirstFit(sorted, e, toks, i), p, e, toks, i)
  {
    hide Fits;
    if sorted == [] {
      assert [p][1..] == [];
      assert FirstFit([p][1..], e, toks, i) == None;
    } else if |sorted[0].words| >= |p.words| {
      InsertFirst(sorted[1..], p, e, toks, i);
      assert ([sorted[0]] + Insert(sorted[1..], p))[1..] == Insert(sorted[1..], p);
    } else {
      assert ([p] + sorted)[1..] == sorted;
      FirstFitIn(sorted, e, toks, i);
    }
  }

  lemma {:induction false} SortStands(phrases: seq<Phrase>)
    ensures LongestStand(LongestFirst(phrases))
  {
    if phrases != [] {
      SortStands(phrases[..|phrases| - 1]);
      InsertStands(LongestFirst(phrases[..|phrases| - 1]), phrases[|phrases| - 1]);
    }
  }

  lemma FitsHead(p: Phrase, e: Engine, toks: seq<Token>, i: nat)
    requires i < |toks| && p.words != []
    ensures p.words[0] != toks[i].lower ==> !Fits(p, e, toks, i)
  {
  }

  lemma {:induction false} GroupedLongest(lib: Library, rules: seq<Rule>, e: Engine, toks: seq<Token>, i: nat)
    requires i < |toks|
    requires forall r :: r in rules ==> lib.fields(r.pattern) != []
    ensures FirstFit(LongestFirst(Group(lib, rules, toks[i].lower)), e, toks, i) == Longest(lib, rules, e, toks, i)
  {
    if rules != [] {
      var n := |rules| - 1;
      GroupedLongest(lib, rules[..n], e, toks, i);
      var before := Group(lib, rules[..n], toks[i].lower);
      var p := PhraseOf(lib, rules[n]);
      assert rules[n] in rules;
      if p.words[0] == toks[i].lower {
        SortStands(before);
        InsertFirst(LongestFirst(before), p, e, toks, i);
        assert (before + [p])[..|before|] == before;
      } else {
        FitsHead(p, e, toks, i);
      }
    }
  }

  /** The index finds what the scan finds. */
  lemma IndexAgreesWithScan(lib: Library, rs: Ruleset, c: Compiled, e: Engine, toks: seq<Token>, i: nat)
    requires i < |toks| && IsCompiled(lib, rs, c)
    requires forall r :: r in rs.forbiddenStatements ==> lib.fields(r.pattern) != []
    ensures MatchPhrase(c, e, toks, i) ==
            match Longest(lib, rs.forbiddenStatements, e, toks, i) {
              case None => None
              case Some(p) => Some(p.rule)
            }
  {
    GroupedLongest(lib, rs.forbiddenStatements, e, toks, i);
    var word := toks[i].lower;
    if word !in c.forbidden {
      assert Group(lib, rs.forbiddenStatements, word) == [];
      assert LongestFirst([]) == [];
    }
  }

  /** What the scan finds fits, and nothing that fits is longer; it finds nothing only when nothing fits. */
  lemma {:induction false} LongestIs(lib: Library, rules: seq<Rule>, e: Engine, toks: seq<Token>, i: nat)
    ensures var best := Longest(lib, rules, e, toks, i);
            && (best.Some? ==>
                  best.value.rule in rules && best.value == PhraseOf(lib, best.value.rule) && Fits(best.value, e, toks, i))
            && (forall r :: r in rules && Fits(PhraseOf(lib, r), e, toks, i) ==>
                  best.Some? && |PhraseOf(lib, r).words| <= |best.value.words|)
  {
    hide Fits;
    if rules != [] {
      var n := |rules| - 1;
      LongestIs(lib, rules[..n], e, toks, i);
      assert rules == rules[..n] + [rules[n]];
    }
  }

  /** A phrase is found at a place exactly when some rule in force fits there. */
  lemma MatchExists(lib: Library, rs: Ruleset, c: Compiled, e: Engine, toks: seq<Token>, i: nat)
    requires i < |toks| && IsCompiled(lib, rs, c)
    requires forall r :: r in rs.forbiddenStatements ==> lib.fields(r.pattern) != []
    ensures MatchPhrase(c, e, toks, i).Some? <==>
              exists r :: r in rs.forbiddenStatements && Fits(PhraseOf(lib, r), e, toks, i)
    ensures MatchPhrase(c, e, toks, i).Some? ==>
              var r := MatchPhrase(c, e, toks, i).value;
              r in rs.forbiddenStatements && Fits(PhraseOf(lib, r), e, toks, i)
  {
    hide Fits;
    IndexAgreesWithScan(lib, rs, c, e, toks, i);
    LongestIs(lib, rs.forbiddenStatements, e, toks, i);
  }
}
