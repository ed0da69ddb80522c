/**
  Which name of a statement is reported as the one the engine lacks, from the statement's tokens alone:
  every dotted name in it that could be meant, and what they have to agree on.
 */
module MissingLaws {
  import opened Wrappers
  import opened MissingNames
  import M = MissingReported

  type Tokens = seq<Tok>

  // ----- dotted names -----

  predicate NameAt(toks: Tokens, i: int) {
    0 <= i < |toks| && (toks[i].kind.Word? || toks[i].kind.Delimited?)
  }

  predicate DotAt(toks: Tokens, i: int) {
    0 <= i < |toks| && toks[i].kind.Symbol? && toks[i].text == "."
  }

  predicate JoinAt(toks: Tokens, i: int) {
    DotAt(toks, i - 1) && NameAt(toks, i)
  }

  /** `n` names from `a` on, with a dot between each two. */
  predicate Linked(toks: Tokens, a: nat, n: nat) {
    n >= 1 && NameAt(toks, a) && forall j :: 1 <= j < n ==> JoinAt(toks, a + 2 * j)
  }

  /** And no more on either side. */
  predicate Chain(toks: Tokens, a: nat, n: nat) {
    && Linked(toks, a, n)
    && !(JoinAt(toks, a) && NameAt(toks, a - 2))
    && !JoinAt(toks, a + 2 * n)
  }

  lemma LinkedWithin(toks: Tokens, a: nat, n: nat)
    requires Linked(toks, a, n)
    ensures a + 2 * (n - 1) < |toks|
    ensures forall j :: 0 <= j < n ==> a + 2 * j < |toks| && NameAt(toks, a + 2 * j)
  {
    if n > 1 {
      assert JoinAt(toks, a + 2 * (n - 1));
    }
    forall j | 0 <= j < n
      ensures a + 2 * j < |toks| && NameAt(toks, a + 2 * j)
    {
      if j > 0 {
        assert JoinAt(toks, a + 2 * j);
      }
    }
  }

  function Parts(toks: Tokens, a: nat, n: nat): Tokens
    requires n == 0 || a + 2 * (n - 1) < |toks|
  {
    seq(n, j requires 0 <= j < n => toks[a + 2 * j])
  }

  predicate TouchAt(toks: Tokens, i: nat)
    requires 2 <= i < |toks|
  {
    toks[i - 2].end == toks[i - 1].start && toks[i - 1].end == toks[i].start
  }

  /** Nothing stands between the names but the dots. */
  predicate Touching(toks: Tokens, a: nat, n: nat)
    requires n >= 1 && a + 2 * (n - 1) < |toks|
  {
    forall j :: 1 <= j < n ==> TouchAt(toks, a + 2 * j)
  }

  function RefOf(toks: Tokens, a: nat, n: nat): Ref
    requires n >= 1 && a + 2 * (n - 1) < |toks|
  {
    Reference(Parts(toks, a, n), Touching(toks, a, n))
  }

  lemma RefGrows(toks: Tokens, a: nat, n: nat)
    requires n >= 1 && a + 2 * n < |toks|
    ensures RefOf(toks, a, n + 1) ==
              Reference(RefOf(toks, a, n).parts + [toks[a + 2 * n]], RefOf(toks, a, n).contiguous && TouchAt(toks, a + 2 * n))
  {
    assert Parts(toks, a, n + 1) == Parts(toks, a, n) + [toks[a + 2 * n]];
    if Touching(toks, a, n) && TouchAt(toks, a + 2 * n) {
      forall j | 1 <= j < n + 1
        ensures TouchAt(toks, a + 2 * j)
      {
      }
    }
  }

  lemma {:induction false} ReadsChain(toks: Tokens, a: nat, n: nat) returns (m: nat)
    requires Linked(toks, a, n) && a + 2 * (n - 1) < |toks|
    ensures m >= n && Linked(toks, a, m) && a + 2 * (m - 1) < |toks| && !JoinAt(toks, a + 2 * m)
    ensures ReadOn(toks, RefOf(toks, a, n), a + 2 * n - 1) == (RefOf(toks, a, m), a + 2 * m - 1)
    decreases |toks| - a - 2 * n
  {
    var j := a + 2 * n - 1;
    assert Continues(toks, j) <==> JoinAt(toks, a + 2 * n);
    hide Touching, RefOf;
    if Continues(toks, j) {
      RefGrows(toks, a, n);
      assert Linked(toks, a, n + 1);
      m := ReadsChain(toks, a, n + 1);
    } else {
      m := n;
    }
  }

  /** No dotted name has tokens on both sides of `i`. */
  predicate Between(toks: Tokens, i: nat) {
    && !(JoinAt(toks, i) && NameAt(toks, i - 2))
    && !(NameAt(toks, i - 1) && JoinAt(toks, i + 1))
  }

  /** The next dotted name from `i` on, if there is one. */
  lemma {:induction false} NextRef(toks: Tokens, i: nat) returns (a: nat, n: nat)
    requires i <= |toks| && Between(toks, i)
    ensures StatementRefs(toks, i) == [] ==> forall b: nat, k: nat :: b >= i ==> !Chain(toks, b, k)
    ensures StatementRefs(toks, i) != [] ==>
              && i <= a && n >= 1 && Chain(toks, a, n) && a + 2 * (n - 1) < |toks|
              && StatementRefs(toks, i)[0] == RefOf(toks, a, n)
              && StatementRefs(toks, i)[1..] == StatementRefs(toks, a + 2 * n - 1)
              && Between(toks, a + 2 * n - 1)
              && (forall b: nat, k: nat :: i <= b < a + 2 * n - 1 && Chain(toks, b, k) ==> b == a && k == n)
    decreases |toks| - i
  {
    a, n := i, 0;
    if i == |toks| {
    } else if !IsName(toks[i]) {
      a, n := NextRef(toks, i + 1);
    } else {
      assert Parts(toks, i, 1) == [toks[i]];
      n := ReadsChain(toks, i, 1);
      OneChain(toks, i, n);
      hide RefOf, ReadOn;
    }
  }

  /** A dotted name's inner names begin no other. */
  lemma OneChain(toks: Tokens, a: nat, n: nat)
    requires Linked(toks, a, n) && !JoinAt(toks, a + 2 * n) && Between(toks, a)
    ensures Chain(toks, a, n) && Between(toks, a + 2 * n - 1)
    ensures forall b: nat, k: nat :: a <= b < a + 2 * n - 1 && Chain(toks, b, k) ==> b == a && k == n
  {
    LinkedWithin(toks, a, n);
    forall b: nat, k: nat | a <= b < a + 2 * n - 1 && Chain(toks, b, k)
      ensures b == a && k == n
    {
      if b == a {
        SameLength(toks, a, n, k);
      } else {
        InnerAt(toks, a, n, b);
      }
      hide NameAt, JoinAt;
    }
  }

  lemma JoinedAt(toks: Tokens, a: nat, n: nat, j: nat)
    requires Linked(toks, a, n) && 1 <= j < n
    ensures JoinAt(toks, a + 2 * j)
  {
  }

  lemma SameLength(toks: Tokens, a: nat, n: nat, k: nat)
    requires Linked(toks, a, n) && !JoinAt(toks, a + 2 * n) && Linked(toks, a, k) && !JoinAt(toks, a + 2 * k)
    ensures n == k
  {
    hide JoinAt, NameAt;
    if k < n {
      JoinedAt(toks, a, n, k);
    } else if n < k {
      JoinedAt(toks, a, k, n);
    }
  }

  /** A dot between two of the names, or a name joined to the one before. */
  predicate Inner(toks: Tokens, a: nat, b: nat) {
    if (b - a) % 2 == 1 then !NameAt(toks, b) else JoinAt(toks, b) && NameAt(toks, b - 2)
  }

  lemma InnerAt(toks: Tokens, a: nat, n: nat, b: nat)
    requires Linked(toks, a, n) && a < b < a + 2 * n - 1
    ensures Inner(toks, a, b)
  {
    LinkedWithin(toks, a, n);
    var j := (b - a + 1) / 2;
    assert a + 2 * j == if (b - a) % 2 == 1 then b + 1 else b;
    JoinedAt(toks, a, n, j);
    assert a + 2 * (j - 1) < |toks| && NameAt(toks, a + 2 * (j - 1));
  }

  // ----- which of them are meant -----

  /** A delimited name is the missing one to the letter, a bare one in any case. */
  predicate Same(t: Text, tok: Tok, name: string) {
    if tok.kind.Delimited? then tok.text == name else t.equalFold(tok.text, name)
  }

  predicate SameBack(t: Text, names: Tokens, parts: seq<string>, p: nat)
    requires p < |names| && p < |parts|
  {
    Same(t, names[|names| - 1 - p], parts[|parts| - 1 - p])
  }

  /** The last names are the missing one's, as far back as both go. */
  predicate Ends(t: Text, names: Tokens, parts: seq<string>) {
    forall p: nat :: p < |names| && p < |parts| ==> SameBack(t, names, parts, p)
  }

  /** A name that can be repeated without being misread. */
  predicate Clear(t: Text, name: string) {
    && name != "" && t.printable(name)
    && forall k :: 0 <= k < |name| ==>
         && name[k] != ' ' && name[k] != '"' && name[k] != '\'' && name[k] != '`' && name[k] != '['
         && name[k] != ']' && name[k] != '\\' && name[k] != '.' && name[k] != ','
  }

  /** The names that are matched against the missing one's parts. */
  function Tail(names: Tokens, parts: seq<string>): Tokens {
    names[|names| - Min(|names|, |parts|)..]
  }

  predicate Clean(t: Text, names: Tokens, parts: seq<string>) {
    forall k :: 0 <= k < |Tail(names, parts)| ==> Clear(t, Tail(names, parts)[k].text)
  }

  /** Those names as they stand, if they stand together and none is delimited; otherwise the last of them. */
  function Shown(statement: string, names: Tokens, touching: bool, parts: seq<string>): string
    requires names != [] && parts != []
  {
    var tail := Tail(names, parts);
    var first, last := tail[0], tail[|tail| - 1];
    if |tail| > 1 && touching && (forall k :: 0 <= k < |tail| ==> tail[k].kind.Word?)
       && first.start <= last.end <= |statement|
    then statement[first.start..last.end]
    else last.text
  }

  lemma BackwardsAlike(t: Text, names: Tokens, parts: seq<string>)
    ensures var k := Min(|names|, |parts|);
      SameNames(t, names[|names| - k..], parts[|parts| - k..]) <==> Ends(t, names, parts)
  {
    hide SameName, Same;
    var k := Min(|names|, |parts|);
    var a, b := names[|names| - k..], parts[|parts| - k..];
    forall j | 0 <= j < k
      ensures SameName(t, a[j], b[j]) <==> SameBack(t, names, parts, k - 1 - j)
    {
      SameIs(t, a[j], b[j]);
    }
    hide SameBack;
    if SameNames(t, a, b) {
      forall p: nat | p < |names| && p < |parts|
        ensures SameBack(t, names, parts, p)
      {
        assert SameName(t, a[k - 1 - p], b[k - 1 - p]);
      }
    }
  }

  lemma MatchesIs(t: Text, ref: Ref, parts: seq<string>)
    requires parts != []
    ensures Matches(t, ref, parts) == if Ends(t, ref.parts, parts) then Some(Min(|ref.parts|, |parts|)) else None
  {
    BackwardsAlike(t, ref.parts, parts);
    hide SameNames, Ends;
  }

  lemma SameIs(t: Text, tok: Tok, name: string)
    ensures Same(t, tok, name) <==> SameName(t, tok, name)
  {
  }

  lemma ClearIs(t: Text, name: string)
    ensures Clear(t, name) <==> PlainName(t, name)
  {
  }

  /** Names one after the other, none of them empty. */
  ghost predicate Sequent(names: Tokens) {
    forall i, j :: 0 <= i <= j < |names| ==> names[i].start < names[j].end
  }

  lemma ShownIs(t: Text, statement: string, ref: Ref, parts: seq<string>)
    requires parts != [] && Sequent(ref.parts)
    ensures var w := Written(t, statement, ref, Min(|ref.parts|, |parts|));
      && (w != "" <==> Clean(t, ref.parts, parts))
      && (w != "" ==> w == Shown(statement, ref.parts, ref.contiguous, parts))
  {
    var tail := Tail(ref.parts, parts);
    forall k | 0 <= k < |tail|
      ensures Clear(t, tail[k].text) <==> PlainName(t, tail[k].text)
    {
      ClearIs(t, tail[k].text);
    }
    hide Clear;
    if Clean(t, ref.parts, parts) {
      assert Clear(t, tail[0].text) && Clear(t, tail[|tail| - 1].text);
    }
  }

  // ----- what is reported -----

  /** A dotted name that could be the missing one. */
  ghost predicate Hit(t: Text, parts: seq<string>, toks: Tokens, a: nat, n: nat) {
    Chain(toks, a, n) && a + 2 * (n - 1) < |toks| && Ends(t, Parts(toks, a, n), parts)
  }

  function LastName(toks: Tokens, a: nat, n: nat): string
    requires n >= 1 && a + 2 * (n - 1) < |toks|
  {
    toks[a + 2 * (n - 1)].text
  }

  function ShownAt(statement: string, parts: seq<string>, toks: Tokens, a: nat, n: nat): string
    requires parts != [] && n >= 1 && a + 2 * (n - 1) < |toks|
  {
    Shown(statement, Parts(toks, a, n), Touching(toks, a, n), parts)
  }

  ghost predicate CleanAt(t: Text, parts: seq<string>, toks: Tokens, a: nat, n: nat)
    requires n >= 1 && a + 2 * (n - 1) < |toks|
  {
    Clean(t, Parts(toks, a, n), parts)
  }

  function Entry(statement: string, parts: seq<string>, toks: Tokens, a: nat, n: nat): (Ref, string)
    requires parts != [] && n >= 1 && a + 2 * (n - 1) < |toks|
  {
    (RefOf(toks, a, n), ShownAt(statement, parts, toks, a, n))
  }

  type Place = (nat, nat)

  /** The hits from `i` on, in the order of the statement. */
  ghost predicate Hits(t: Text, parts: seq<string>, toks: Tokens, i: nat, hits: seq<Place>) {
    && (forall h :: 0 <= h < |hits| ==> hits[h].0 >= i && Hit(t, parts, toks, hits[h].0, hits[h].1))
    && (forall a: nat, n: nat :: a >= i && Hit(t, parts, toks, a, n) ==> (a, n) in hits)
    && (forall h, g :: 0 <= h < g < |hits| ==> hits[h].0 < hits[g].0)
  }

  lemma SequentParts(statement: string, toks: Tokens, a: nat, n: nat)
    requires M.Tokens(statement, toks, |statement|) && n >= 1 && a + 2 * (n - 1) < |toks|
    ensures Sequent(Parts(toks, a, n))
  {
    forall k | 0 <= k < |toks|
      ensures toks[k].start < toks[k].end
    {
      M.EndsLater(statement, toks[k]);
    }
    hide M.Faithful;
    forall i, j | 0 <= i <= j < n
      ensures toks[a + 2 * i].start < toks[a + 2 * j].end
    {
      assert i < j ==> toks[a + 2 * i].end <= toks[a + 2 * j].start;
    }
  }

  /** What the first reference from a place makes of the matching. */
  lemma RefMatches(t: Text, parts: seq<string>, toks: Tokens, statement: string, a: nat, n: nat)
    requires parts != [] && M.Tokens(statement, toks, |statement|) && Chain(toks, a, n) && a + 2 * (n - 1) < |toks|
    ensures var ref := RefOf(toks, a, n);
      && (Matches(t, ref, parts).Some? <==> Hit(t, parts, toks, a, n))
      && (Matches(t, ref, parts).Some? ==>
            var w := Written(t, statement, ref, Matches(t, ref, parts).value);
            && (w != "" <==> CleanAt(t, parts, toks, a, n))
            && (w != "" ==> w == ShownAt(statement, parts, toks, a, n)))
  {
    var ref := RefOf(toks, a, n);
    MatchesIs(t, ref, parts);
    SequentParts(statement, toks, a, n);
    ShownIs(t, statement, ref, parts);
    hide Chain, Ends, Clean, Shown, Written, Matches, Sequent, Touching;
  }

  /** The hits from a dotted name on: it, if it is one, and those after it. */
  lemma HitsOn(t: Text, parts: seq<string>, toks: Tokens, i: nat, a: nat, n: nat, later: seq<Place>)
    requires i <= a && n >= 1 && Chain(toks, a, n) && a + 2 * (n - 1) < |toks|
    requires forall b: nat, k: nat :: i <= b < a + 2 * n - 1 && Chain(toks, b, k) ==> b == a && k == n
    requires Hits(t, parts, toks, a + 2 * n - 1, later)
    ensures Hits(t, parts, toks, i, if Hit(t, parts, toks, a, n) then [(a, n)] + later else later)
  {
    hide Chain, Ends;
    var hits := if Hit(t, parts, toks, a, n) then [(a, n)] + later else later;
    forall b: nat, k: nat | b >= i && Hit(t, parts, toks, b, k)
      ensures (b, k) in hits
    {
      if b >= a + 2 * n - 1 {
        assert (b, k) in later;
      } else {
        assert hits[0] == (a, n);
      }
    }
  }

  ghost predicate AllClean(t: Text, parts: seq<string>, toks: Tokens, hits: seq<Place>) {
    forall h :: 0 <= h < |hits| ==>
      hits[h].1 >= 1 && hits[h].0 + 2 * (hits[h].1 - 1) < |toks| && CleanAt(t, parts, toks, hits[h].0, hits[h].1)
  }

  ghost predicate Entries(
    statement: string, parts: seq<string>, toks: Tokens, hits: seq<Place>, list: seq<(Ref, string)>)
    requires parts != []
  {
    |list| == |hits| && forall h :: 0 <= h < |hits| ==>
      && hits[h].1 >= 1 && hits[h].0 + 2 * (hits[h].1 - 1) < |toks|
      && list[h] == Entry(statement, parts, toks, hits[h].0, hits[h].1)
  }

  lemma MatchedStep(t: Text, parts: seq<string>, ref: Ref, refs: seq<Ref>, statement: string)
    requires refs != [] && refs[0] == ref
    ensures var rest := Matched(t, parts, refs[1..], statement);
      var k := Matches(t, ref, parts);
      Matched(t, parts, refs, statement) ==
        if k.None? then rest
        else if Written(t, statement, ref, k.value) == "" || rest.None? then None
        else Some([(ref, Written(t, statement, ref, k.value))] + rest.value)
  {
    hide Matches, Written;
  }

  lemma {:induction false} MatchedIs(t: Text, parts: seq<string>, toks: Tokens, statement: string, i: nat)
    returns (hits: seq<Place>)
    requires parts != [] && M.Tokens(statement, toks, |statement|) && i <= |toks| && Between(toks, i)
    ensures Hits(t, parts, toks, i, hits)
    ensures var m := Matched(t, parts, StatementRefs(toks, i), statement);
      && (m.Some? <==> AllClean(t, parts, toks, hits))
      && (m.Some? ==> Entries(statement, parts, toks, hits, m.value))
    decreases |toks| - i
  {
    hide *;
    var a, n := NextRef(toks, i);
    var refs := StatementRefs(toks, i);
    if refs == [] {
      hits := [];
      NoHits(t, parts, toks, statement, i);
    } else {
      RefMatches(t, parts, toks, statement, a, n);
      var later := MatchedIs(t, parts, toks, statement, a + 2 * n - 1);
      HitsOn(t, parts, toks, i, a, n, later);
      MatchedStep(t, parts, RefOf(toks, a, n), refs, statement);
      if Hit(t, parts, toks, a, n) {
        hits := [(a, n)] + later;
        OneMoreHit(t, parts, toks, statement, a, n, later, Matched(t, parts, refs[1..], statement));
      } else {
        hits := later;
      }
    }
  }

  lemma NoHits(t: Text, parts: seq<string>, toks: Tokens, statement: string, i: nat)
    requires parts != [] && forall b: nat, k: nat :: b >= i ==> !Chain(toks, b, k)
    ensures Hits(t, parts, toks, i, []) && AllClean(t, parts, toks, []) && Entries(statement, parts, toks, [], [])
    ensures Matched(t, parts, [], statement) == Some([])
  {
    hide Chain;
  }

  lemma OneMoreHit(
    t: Text, parts: seq<string>, toks: Tokens, statement: string, a: nat, n: nat, later: seq<Place>,
    rest: Option<seq<(Ref, string)>>)
    requires parts != [] && n >= 1 && a + 2 * (n - 1) < |toks|
    requires rest.Some? ==> Entries(statement, parts, toks, later, rest.value)
    ensures var hits := [(a, n)] + later;
      && (AllClean(t, parts, toks, hits) <==> CleanAt(t, parts, toks, a, n) && AllClean(t, parts, toks, later))
      && (rest.Some? ==>
            Entries(statement, parts, toks, hits,
                    [(RefOf(toks, a, n), ShownAt(statement, parts, toks, a, n))] + rest.value))
  {
    hide CleanAt, RefOf, ShownAt, AllClean, Entries;
    OneMoreClean(t, parts, toks, a, n, later);
    if rest.Some? {
      OneMoreEntry(parts, toks, statement, a, n, later, rest.value);
    }
  }

  lemma OneMoreClean(t: Text, parts: seq<string>, toks: Tokens, a: nat, n: nat, later: seq<Place>)
    requires n >= 1 && a + 2 * (n - 1) < |toks|
    ensures AllClean(t, parts, toks, [(a, n)] + later) <==> CleanAt(t, parts, toks, a, n) && AllClean(t, parts, toks, later)
  {
    hide CleanAt;
    var hits := [(a, n)] + later;
    assert hits[0] == (a, n) && forall h :: 0 <= h < |later| ==> later[h] == hits[h + 1];
    assert forall h :: 1 <= h < |hits| ==> hits[h] == later[h - 1];
  }

  lemma OneMoreEntry(
    parts: seq<string>, toks: Tokens, statement: string, a: nat, n: nat, later: seq<Place>, rest: seq<(Ref, string)>)
    requires parts != [] && n >= 1 && a + 2 * (n - 1) < |toks| && Entries(statement, parts, toks, later, rest)
    ensures Entries(statement, parts, toks, [(a, n)] + later,
                    [(RefOf(toks, a, n), ShownAt(statement, parts, toks, a, n))] + rest)
  {
    hide RefOf, ShownAt;
    var hits := [(a, n)] + later;
    assert hits[0] == (a, n);
    assert forall h :: 1 <= h < |hits| ==> hits[h] == later[h - 1];
  }

  /** Two qualifiers that are the same: bare names in any case, and others to the letter. */
  predicate Alike(t: Text, a: Tokens, b: Tokens) {
    |a| == |b| && forall k :: 0 <= k < |a| ==>
      if a[k].kind.Word? && b[k].kind.Word? then t.equalFold(a[k].text, b[k].text) else a[k].text == b[k].text
  }

  predicate PlacesIn(toks: Tokens, hits: seq<Place>) {
    forall h :: 0 <= h < |hits| ==> hits[h].1 >= 1 && hits[h].0 + 2 * (hits[h].1 - 1) < |toks|
  }

  ghost predicate SameLast(toks: Tokens, hits: seq<Place>)
    requires PlacesIn(toks, hits)
  {
    forall h :: 0 <= h < |hits| ==> LastName(toks, hits[h].0, hits[h].1) == LastName(toks, hits[0].0, hits[0].1)
  }

  ghost predicate SameShown(statement: string, parts: seq<string>, toks: Tokens, hits: seq<Place>)
    requires parts != [] && PlacesIn(toks, hits)
  {
    forall h :: 0 <= h < |hits| ==>
      ShownAt(statement, parts, toks, hits[h].0, hits[h].1) == ShownAt(statement, parts, toks, hits[0].0, hits[0].1)
  }

  ghost predicate SameQualifier(t: Text, toks: Tokens, hits: seq<Place>)
    requires PlacesIn(toks, hits)
  {
    forall h :: 0 < h < |hits| ==>
      Alike(t, Parts(toks, hits[h].0, hits[h].1 - 1), Parts(toks, hits[0].0, hits[0].1 - 1))
  }

  lemma AlikeIs(t: Text, a: Tokens, b: Tokens)
    ensures Alike(t, a, b) <==> SameTokens(t, a, b)
  {
  }

  lemma QualifierIs(toks: Tokens, a: nat, n: nat)
    requires n >= 1 && a + 2 * (n - 1) < |toks|
    ensures QualifierOf(RefOf(toks, a, n)) == Parts(toks, a, n - 1)
    ensures LastOf(RefOf(toks, a, n)).text == LastName(toks, a, n)
  {
  }

  lemma AgreedIs(
    t: Text, parts: seq<string>, toks: Tokens, statement: string, hits: seq<Place>, list: seq<(Ref, string)>)
    requires parts != [] && PlacesIn(toks, hits) && Entries(statement, parts, toks, hits, list)
    ensures var r := Agreed(t, list);
      && (r.Some? <==> hits != [] && SameLast(toks, hits))
      && (r.Some? ==>
            var (a, n) := hits[0];
            r.value == MissingRef(
              if SameShown(statement, parts, toks, hits) then ShownAt(statement, parts, toks, a, n) else LastName(toks, a, n),
              LastName(toks, a, n), Parts(toks, a, n - 1), SameQualifier(t, toks, hits)))
  {
    hide Parts, RefOf, ShownAt, LastName, SameTokens, Alike, QualifierOf, LastOf;
    forall h | 0 <= h < |hits|
      ensures QualifierOf(list[h].0) == Parts(toks, hits[h].0, hits[h].1 - 1)
      ensures LastOf(list[h].0).text == LastName(toks, hits[h].0, hits[h].1)
      ensures list[h].1 == ShownAt(statement, parts, toks, hits[h].0, hits[h].1)
    {
      QualifierIs(toks, hits[h].0, hits[h].1);
    }
    forall h | 0 < h < |hits|
      ensures Alike(t, Parts(toks, hits[h].0, hits[h].1 - 1), Parts(toks, hits[0].0, hits[0].1 - 1)) <==>
              SameTokens(t, QualifierOf(list[h].0), QualifierOf(list[0].0))
    {
      AlikeIs(t, Parts(toks, hits[h].0, hits[h].1 - 1), Parts(toks, hits[0].0, hits[0].1 - 1));
    }
  }

  /**
    Where the engine pointed at no place, something is reported exactly when some dotted name could be
    meant, every one that could is fit to be repeated, and all of them end in the same letters; and
    then those letters are, with what stands before them where all of the statement agrees on it.
   */
  lemma UnpointedReports(t: Text, parts: seq<string>, toks: Tokens, statement: string) returns (hits: seq<Place>)
    requires M.Tokens(statement, toks, |statement|) && parts != []
    ensures Hits(t, parts, toks, 0, hits) && PlacesIn(toks, hits)
    ensures var r := InStatement(t, parts, None, toks, statement);
      && (r.Some? <==> hits != [] && AllClean(t, parts, toks, hits) && SameLast(toks, hits))
      && (r.Some? ==>
            var (a, n) := hits[0];
            r.value == MissingRef(
              if SameShown(statement, parts, toks, hits) then ShownAt(statement, parts, toks, a, n) else LastName(toks, a, n),
              LastName(toks, a, n), Parts(toks, a, n - 1), SameQualifier(t, toks, hits)))
  {
    assert Between(toks, 0);
    hits := MatchedIs(t, parts, toks, statement, 0);
    HitsPlaced(t, parts, toks, 0, hits);
    hide *;
    UnpointedIs(t, parts, toks, statement);
    var matched := Matched(t, parts, StatementRefs(toks, 0), statement);
    if matched.Some? {
      AgreedIs(t, parts, toks, statement, hits, matched.value);
    }
  }

  lemma UnpointedIs(t: Text, parts: seq<string>, toks: Tokens, statement: string)
    requires parts != []
    ensures InStatement(t, parts, None, toks, statement) ==
              match Matched(t, parts, StatementRefs(toks, 0), statement)
              case None => None
              case Some(matched) => Agreed(t, matched)
  {
    hide Matched, StatementRefs, Agreed;
  }

  lemma HitsPlaced(t: Text, parts: seq<string>, toks: Tokens, i: nat, hits: seq<Place>)
    requires Hits(t, parts, toks, i, hits)
    ensures PlacesIn(toks, hits)
  {
    hide Ends;
    forall h | 0 <= h < |hits|
      ensures hits[h].1 >= 1 && hits[h].0 + 2 * (hits[h].1 - 1) < |toks|
    {
      assert Hit(t, parts, toks, hits[h].0, hits[h].1);
    }
  }

  // ----- where the engine pointed at one -----

  /** The dotted name the engine pointed into. */
  ghost predicate PointedAt(toks: Tokens, offset: int, i: nat, a: nat, n: nat) {
    && a >= i && Chain(toks, a, n) && n >= 1 && a + 2 * (n - 1) < |toks|
    && toks[a].start <= offset < toks[a + 2 * (n - 1)].end
  }

  ghost predicate ReportsAt(
    t: Text, parts: seq<string>, toks: Tokens, statement: string, offset: int, i: nat, a: nat, n: nat, m: MissingRef)
    requires parts != []
  {
    && PointedAt(toks, offset, i, a, n) && Ends(t, Parts(toks, a, n), parts) && CleanAt(t, parts, toks, a, n)
    && m == MissingRef(ShownAt(statement, parts, toks, a, n), LastName(toks, a, n), Parts(toks, a, n - 1), true)
  }

  lemma AtOffsetStep(t: Text, parts: seq<string>, refs: seq<Ref>, ref: Ref, statement: string, offset: int)
    requires refs != [] && refs[0] == ref
    ensures AtOffset(t, parts, refs, statement, offset) ==
              if ref.parts[0].start <= offset < LastOf(ref).end then
                (match Matches(t, ref, parts)
                 case None => None
                 case Some(k) =>
                   var w := Written(t, statement, ref, k);
                   if w == "" then None else Some(MissingRef(w, LastOf(ref).text, QualifierOf(ref), true)))
              else AtOffset(t, parts, refs[1..], statement, offset)
  {
    hide Matches, Written, LastOf, QualifierOf;
  }

  lemma RefPlaces(toks: Tokens, a: nat, n: nat)
    requires n >= 1 && a + 2 * (n - 1) < |toks|
    ensures RefOf(toks, a, n).parts[0] == toks[a] && LastOf(RefOf(toks, a, n)) == toks[a + 2 * (n - 1)]
  {
  }

  lemma Ordered(statement: string, toks: Tokens, p: nat, q: nat)
    requires M.Tokens(statement, toks, |statement|) && p < q < |toks|
    ensures toks[p].end <= toks[q].start
  {
    hide M.Faithful;
  }

  /** Only one dotted name can be pointed into. */
  lemma PointedOnce(statement: string, toks: Tokens, offset: int, i: nat, a: nat, n: nat)
    requires M.Tokens(statement, toks, |statement|)
    requires i <= a && n >= 1 && Chain(toks, a, n) && a + 2 * (n - 1) < |toks|
    requires forall b: nat, k: nat :: i <= b < a + 2 * n - 1 && Chain(toks, b, k) ==> b == a && k == n
    ensures PointedAt(toks, offset, i, a, n) ==>
              forall b: nat, k: nat :: PointedAt(toks, offset, i, b, k) ==> b == a && k == n
    ensures !PointedAt(toks, offset, i, a, n) ==>
              forall b: nat, k: nat :: PointedAt(toks, offset, i, b, k) <==> PointedAt(toks, offset, a + 2 * n - 1, b, k)
  {
    hide Chain, M.Faithful;
    var last: nat := a + 2 * (n - 1);
    forall b: nat, k: nat | PointedAt(toks, offset, i, a, n) && PointedAt(toks, offset, i, b, k)
      ensures b == a && k == n
    {
      if b >= a + 2 * n - 1 {
        Ordered(statement, toks, last, b);
      }
    }
  }

  lemma {:induction false} PointedIs(
    t: Text, parts: seq<string>, toks: Tokens, statement: string, offset: int, i: nat, m: MissingRef)
    requires parts != [] && M.Tokens(statement, toks, |statement|) && i <= |toks| && Between(toks, i)
    ensures AtOffset(t, parts, StatementRefs(toks, i), statement, offset) == Some(m) <==>
              exists a: nat, n: nat :: ReportsAt(t, parts, toks, statement, offset, i, a, n, m)
    decreases |toks| - i
  {
    hide *;
    var a, n := NextRef(toks, i);
    var refs := StatementRefs(toks, i);
    if refs == [] {
      NothingPointed(t, parts, toks, statement, offset, i, m);
    } else {
      var j := a + 2 * n - 1;
      RefMatches(t, parts, toks, statement, a, n);
      AtOffsetStep(t, parts, refs, RefOf(toks, a, n), statement, offset);
      PointedOnce(statement, toks, offset, i, a, n);
      PointedIs(t, parts, toks, statement, offset, j, m);
      RefPlaces(toks, a, n);
      QualifierIs(toks, a, n);
      PointedChoice(t, parts, toks, statement, offset, i, a, n, j, m);
    }
  }

  lemma NothingPointed(
    t: Text, parts: seq<string>, toks: Tokens, statement: string, offset: int, i: nat, m: MissingRef)
    requires parts != [] && forall b: nat, k: nat :: b >= i ==> !Chain(toks, b, k)
    ensures AtOffset(t, parts, [], statement, offset) == None
    ensures !exists a: nat, n: nat :: ReportsAt(t, parts, toks, statement, offset, i, a, n, m)
  {
    hide Chain, Ends, CleanAt;
  }

  /** It is the dotted name at hand, or one of those after it. */
  lemma PointedChoice(
    t: Text, parts: seq<string>, toks: Tokens, statement: string, offset: int, i: nat, a: nat, n: nat, j: nat,
    m: MissingRef)
    requires parts != [] && n >= 1 && i <= a && j == a + 2 * n - 1 && Chain(toks, a, n) && a + 2 * (n - 1) < |toks|
    requires PointedAt(toks, offset, i, a, n) ==>
               forall b: nat, k: nat :: PointedAt(toks, offset, i, b, k) ==> b == a && k == n
    requires !PointedAt(toks, offset, i, a, n) ==>
               forall b: nat, k: nat :: PointedAt(toks, offset, i, b, k) <==> PointedAt(toks, offset, j, b, k)
    ensures PointedAt(toks, offset, i, a, n) <==> toks[a].start <= offset < toks[a + 2 * (n - 1)].end
    ensures PointedAt(toks, offset, i, a, n) ==>
              ((exists b: nat, k: nat :: ReportsAt(t, parts, toks, statement, offset, i, b, k, m)) <==>
               (&& Hit(t, parts, toks, a, n) && CleanAt(t, parts, toks, a, n)
                && m == MissingRef(ShownAt(statement, parts, toks, a, n), LastName(toks, a, n), Parts(toks, a, n - 1), true)))
    ensures !PointedAt(toks, offset, i, a, n) ==>
              ((exists b: nat, k: nat :: ReportsAt(t, parts, toks, statement, offset, i, b, k, m)) <==>
               (exists b: nat, k: nat :: ReportsAt(t, parts, toks, statement, offset, j, b, k, m)))
  {
    assert PointedAt(toks, offset, i, a, n) <==> toks[a].start <= offset < toks[a + 2 * (n - 1)].end;
    assert Hit(t, parts, toks, a, n) <==> Ends(t, Parts(toks, a, n), parts);
    hide Chain, Ends, CleanAt, ShownAt, LastName, Parts, PointedAt, Hit;
    if PointedAt(toks, offset, i, a, n) {
      if && Hit(t, parts, toks, a, n) && CleanAt(t, parts, toks, a, n)
         && m == MissingRef(ShownAt(statement, parts, toks, a, n), LastName(toks, a, n), Parts(toks, a, n - 1), true)
      {
        assert ReportsAt(t, parts, toks, statement, offset, i, a, n, m);
      }
    } else {
      if b: nat, k: nat :| ReportsAt(t, parts, toks, statement, offset, i, b, k, m) {
        assert ReportsAt(t, parts, toks, statement, offset, j, b, k, m);
      }
      if b: nat, k: nat :| ReportsAt(t, parts, toks, statement, offset, j, b, k, m) {
        assert ReportsAt(t, parts, toks, statement, offset, i, b, k, m);
      }
    }
  }

  /** Where the engine pointed, what is reported is the dotted name it pointed into, if that could be meant and repeated. */
  lemma PointedReports(t: Text, parts: seq<string>, toks: Tokens, statement: string, offset: int, m: MissingRef)
    requires M.Tokens(statement, toks, |statement|) && parts != []
    ensures InStatement(t, parts, Some(offset), toks, statement) == Some(m) <==>
              exists a: nat, n: nat :: ReportsAt(t, parts, toks, statement, offset, 0, a, n, m)
  {
    assert Between(toks, 0);
    PointedIs(t, parts, toks, statement, offset, 0, m);
    hide AtOffset, StatementRefs, ReportsAt, M.Tokens;
  }
}
