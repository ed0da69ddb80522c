/**
  Which names are offered in place of a missing one (internal/db/missing.go): the nearest few of the
  candidates the catalogue returned. A char is a rune.
 */
module ClosestNames {
  import opened Wrappers
  import opened EditDistance

  /** Library functions over text; lower-casing is rune by rune. */
  datatype Text = Text(plain: string -> bool, lower: string -> string)

  const MAX_SIMILAR_NAMES := 3
  const MAX_SIMILAR_DISTANCE := 3

  function Limit(name: string): nat { Min(1 + |name| / 4, MAX_SIMILAR_DISTANCE) }

  function Gap(t: Text, name: string, candidate: string): nat {
    Distance(t.lower(candidate), t.lower(name))
  }

  predicate Acceptable(t: Text, name: string, candidate: string) {
    t.plain(candidate) && candidate != name && Gap(t, name, candidate) <= Limit(name)
  }

  /** Names compare by their runes. */
  predicate Precedes(a: string, b: string) {
    b != [] && (a == [] || a[0] < b[0] || (a[0] == b[0] && Precedes(a[1..], b[1..])))
  }

  /** Nearer, or as near and earlier in the alphabet. */
  predicate Better(t: Text, name: string, a: string, b: string) {
    Gap(t, name, a) < Gap(t, name, b) || (Gap(t, name, a) == Gap(t, name, b) && Precedes(a, b))
  }

  lemma {:induction false} PrecedesIsTotal(a: string, b: string)
    ensures Precedes(a, b) || Precedes(b, a) || a == b
    ensures !(Precedes(a, b) && Precedes(b, a)) && !Precedes(a, a)
  {
    if a != [] && b != [] {
      PrecedesIsTotal(a[1..], b[1..]);
      assert a == [a[0]] + a[1..] && b == [b[0]] + b[1..];
    }
    if a != [] {
      PrecedesIsTotal(a[1..], a[1..]);
    }
  }

  lemma {:induction false} PrecedesIsTransitive(a: string, b: string, c: string)
    requires Precedes(a, b) && Precedes(b, c)
    ensures Precedes(a, c)
  {
    if a != [] && a[0] == b[0] == c[0] {
      PrecedesIsTransitive(a[1..], b[1..], c[1..]);
    }
  }

  lemma BetterOrders(t: Text, name: string, a: string, b: string, c: string)
    ensures a != b ==> Better(t, name, a, b) || Better(t, name, b, a)
    ensures !(Better(t, name, a, b) && Better(t, name, b, a)) && !Better(t, name, a, a)
    ensures Better(t, name, a, b) && Better(t, name, b, c) ==> Better(t, name, a, c)
  {
    PrecedesIsTotal(a, b);
    PrecedesIsTotal(a, a);
    if Precedes(a, b) && Precedes(b, c) {
      PrecedesIsTransitive(a, b, c);
    }
  }

  // ----- the best few -----

  ghost predicate Ordered(t: Text, name: string, names: seq<string>) {
    forall i, j :: 0 <= i < j < |names| ==> Better(t, name, names[i], names[j])
  }

  /** The candidates offered: at most three, acceptable, best first, and none better left out. */
  ghost predicate Best(t: Text, name: string, rows: seq<Option<string>>, out: seq<string>) {
    && |out| <= MAX_SIMILAR_NAMES && Ordered(t, name, out)
    && (forall c :: c in out ==> Some(c) in rows && Acceptable(t, name, c))
    && (forall c :: Some(c) in rows && Acceptable(t, name, c) && c !in out ==>
          |out| == MAX_SIMILAR_NAMES && forall o :: o in out ==> Better(t, name, o, c))
  }

  /** Nothing else is offered for these rows. */
  lemma BestIsUnique(t: Text, name: string, rows: seq<Option<string>>, a: seq<string>, b: seq<string>)
    requires Best(t, name, rows, a) && Best(t, name, rows, b)
    ensures a == b
  {
    BestHasAtLeast(t, name, rows, a, b);
    BestHasAtLeast(t, name, rows, b, a);
    BestAgrees(t, name, rows, a, b, |a|);
  }

  lemma BestHasAtLeast(t: Text, name: string, rows: seq<Option<string>>, a: seq<string>, b: seq<string>)
    requires Best(t, name, rows, a) && Best(t, name, rows, b)
    ensures |a| <= |b|
  {
    if |b| < |a| {
      assert forall i :: 0 <= i < |a| ==> a[i] in b;
      OrderedInside(t, name, a, b, |a|);
    }
  }

  /** Distinct names that are all among others are no more than those. */
  lemma OrderedInside(t: Text, name: string, a: seq<string>, b: seq<string>, n: nat)
    requires Ordered(t, name, a) && n <= |a| && forall i :: 0 <= i < n ==> a[i] in b
    ensures n <= |b|
  {
    var inside := set i | 0 <= i < n :: a[i];
    DistinctCount(t, name, a, n);
    assert inside <= set c | c in b;
    SeqSetSize(b);
    SubsetSize(inside, set c | c in b);
  }

  lemma {:induction false} SubsetSize(a: set<string>, b: set<string>)
    requires a <= b
    ensures |a| <= |b|
  {
    if a != {} {
      var x :| x in a;
      SubsetSize(a - {x}, b - {x});
    }
  }

  lemma {:induction false} SeqSetSize(b: seq<string>)
    ensures |set c | c in b| <= |b|
  {
    if b != [] {
      SeqSetSize(b[1..]);
      assert (set c | c in b) == (set c | c in b[1..]) + {b[0]};
    }
  }

  lemma {:induction false} DistinctCount(t: Text, name: string, a: seq<string>, n: nat)
    requires Ordered(t, name, a) && n <= |a|
    ensures |set i | 0 <= i < n :: a[i]| == n
  {
    if n > 0 {
      DistinctCount(t, name, a, n - 1);
      var before := set i | 0 <= i < n - 1 :: a[i];
      assert (set i | 0 <= i < n :: a[i]) == before + {a[n - 1]};
      forall i | 0 <= i < n - 1
        ensures a[i] != a[n - 1]
      {
        BetterOrders(t, name, a[i], a[n - 1], a[i]);
      }
    }
  }

  lemma {:induction false} BestAgrees(
    t: Text, name: string, rows: seq<Option<string>>, a: seq<string>, b: seq<string>, n: nat)
    requires Best(t, name, rows, a) && Best(t, name, rows, b) && |a| == |b| && n <= |a|
    ensures a[..n] == b[..n]
  {
    if n > 0 {
      BestAgrees(t, name, rows, a, b, n - 1);
      NthAgrees(t, name, rows, a, b, n - 1);
      assert a[..n] == a[..n - 1] + [a[n - 1]] && b[..n] == b[..n - 1] + [b[n - 1]];
    }
  }

  lemma NthAgrees(t: Text, name: string, rows: seq<Option<string>>, a: seq<string>, b: seq<string>, k: nat)
    requires Best(t, name, rows, a) && Best(t, name, rows, b) && k < |a| == |b| && a[..k] == b[..k]
    ensures a[k] == b[k]
  {
    NotLater(t, name, rows, a, b, k);
    NotLater(t, name, rows, b, a, k);
    BetterOrders(t, name, a[k], b[k], a[k]);
  }

  lemma NotLater(t: Text, name: string, rows: seq<Option<string>>, a: seq<string>, b: seq<string>, k: nat)
    requires Best(t, name, rows, a) && Best(t, name, rows, b) && k < |a| == |b| && a[..k] == b[..k]
    ensures a[k] == b[k] || Better(t, name, b[k], a[k])
  {
    if a[k] in b {
      var m :| 0 <= m < |b| && b[m] == a[k];
      if m < k {
        assert a[..k][m] == b[..k][m];
        BetterOrders(t, name, a[m], a[k], a[m]);
      }
    } else {
      assert b[k] in b;
    }
  }

  // ----- as it runs -----

  /** Stands for the library's sort, under which the best candidate comes first. */
  function Insert(t: Text, name: string, c: string, sorted: seq<string>): seq<string> {
    if sorted == [] then [c]
    else if Better(t, name, c, sorted[0]) then [c] + sorted
    else [sorted[0]] + Insert(t, name, c, sorted[1..])
  }

  function Sort(t: Text, name: string, found: seq<string>): seq<string> {
    if found == [] then [] else Insert(t, name, found[0], Sort(t, name, found[1..]))
  }

  lemma OrderedCons(t: Text, name: string, first: string, rest: seq<string>)
    requires Ordered(t, name, rest) && forall c :: c in rest ==> Better(t, name, first, c)
    ensures Ordered(t, name, [first] + rest)
  {
    var all := [first] + rest;
    forall i, j | 0 <= i < j < |all|
      ensures Better(t, name, all[i], all[j])
    {
      assert all[j] == rest[j - 1];
    }
  }

  lemma {:induction false} InsertKeepsOrder(t: Text, name: string, c: string, sorted: seq<string>)
    requires Ordered(t, name, sorted) && c !in sorted
    ensures Ordered(t, name, Insert(t, name, c, sorted))
    ensures forall x :: x in Insert(t, name, c, sorted) <==> x == c || x in sorted
  {
    if sorted == [] {
    } else if Better(t, name, c, sorted[0]) {
      forall x | x in sorted
        ensures Better(t, name, c, x)
      {
        var k :| 0 <= k < |sorted| && sorted[k] == x;
        BetterOrders(t, name, c, sorted[0], x);
      }
      OrderedCons(t, name, c, sorted);
    } else {
      var rest := sorted[1..];
      InsertKeepsOrder(t, name, c, rest);
      BetterOrders(t, name, c, sorted[0], c);
      forall x | x in Insert(t, name, c, rest)
        ensures Better(t, name, sorted[0], x)
      {
        if x != c {
          var k :| 0 <= k < |rest| && rest[k] == x;
        }
      }
      OrderedCons(t, name, sorted[0], Insert(t, name, c, rest));
      assert sorted == [sorted[0]] + rest;
    }
  }

  lemma {:induction false} SortOrders(t: Text, name: string, found: seq<string>)
    requires forall i, j :: 0 <= i < j < |found| ==> found[i] != found[j]
    ensures Ordered(t, name, Sort(t, name, found))
    ensures forall x :: x in Sort(t, name, found) <==> x in found
  {
    if found != [] {
      SortOrders(t, name, found[1..]);
      assert found == [found[0]] + found[1..];
      InsertKeepsOrder(t, name, found[0], Sort(t, name, found[1..]));
    }
  }

  /** The first three of all that are acceptable, in order. */
  lemma FirstAreBest(t: Text, name: string, rows: seq<Option<string>>, sorted: seq<string>, out: seq<string>)
    requires Ordered(t, name, sorted) && out == sorted[..Min(|sorted|, MAX_SIMILAR_NAMES)]
    requires forall c :: c in sorted <==> Some(c) in rows && Acceptable(t, name, c)
    ensures Best(t, name, rows, out)
  {
    hide Acceptable, Better;
    forall c | Some(c) in rows && Acceptable(t, name, c) && c !in out
      ensures |out| == MAX_SIMILAR_NAMES && forall o :: o in out ==> Better(t, name, o, c)
    {
      var k :| 0 <= k < |sorted| && sorted[k] == c;
    }
  }

  method ClosestNames(t: Text, name: string, rows: seq<Option<string>>) returns (out: seq<string>)
    ensures Best(t, name, rows, out)
  {
    hide Best, Ordered, Better, Distance;
    var limit := Limit(name);
    var target := t.lower(name);
    var found: seq<string> := [];
    var seen: set<string> := {};
    for i := 0 to |rows|
      invariant forall c :: c in seen <==> Some(c) in rows[..i] && t.plain(c) && c != name
      invariant forall c :: c in found <==> Some(c) in rows[..i] && Acceptable(t, name, c)
      invariant forall j, k :: 0 <= j < k < |found| ==> found[j] != found[k]
    {
      assert rows[..i + 1] == rows[..i] + [rows[i]];
      if rows[i].Some? && t.plain(rows[i].value) && rows[i].value != name && rows[i].value !in seen {
        var candidate := rows[i].value;
        seen := seen + {candidate};
        var distance := EditDistance.EditDistance(t.lower(candidate), target);
        if distance <= limit {
          found := found + [candidate];
        }
      }
    }
    assert rows[..|rows|] == rows;
    SortOrders(t, name, found);
    var sorted := Sort(t, name, found);
    out := sorted[..Min(|sorted|, MAX_SIMILAR_NAMES)];
    FirstAreBest(t, name, rows, sorted, out);
  }

  // ----- what the catalogue leaves out -----

  /** The catalogue's own filter on length. */
  predicate NearInLength(name: string, candidate: string) {
    |candidate| <= |name| + MAX_SIMILAR_DISTANCE && |name| <= |candidate| + MAX_SIMILAR_DISTANCE
  }

  /** Leaving out the names whose length differs by more than three changes no answer. */
  lemma LengthFilterLosesNothing(
    t: Text, name: string, rows: seq<Option<string>>, kept: seq<Option<string>>, out: seq<string>)
    requires forall s :: |t.lower(s)| == |s|
    requires forall c :: Some(c) in kept <==> Some(c) in rows && NearInLength(name, c)
    ensures Best(t, name, rows, out) <==> Best(t, name, kept, out)
  {
    forall c | Acceptable(t, name, c)
      ensures NearInLength(name, c)
    {
      DistanceBounds(t.lower(c), t.lower(name));
    }
    hide Acceptable, NearInLength, Better, Ordered;
  }

  // ----- said over again -----

  /** Up to where they part they are the same, and there `a` ends or has the smaller rune. */
  ghost predicate Earlier(a: string, b: string) {
    exists k :: PartAt(a, b, k)
  }

  predicate PartAt(a: string, b: string, k: int) {
    && 0 <= k <= |a| && k < |b| && a[..k] == b[..k]
    && (k == |a| || a[k] < b[k])
  }

  lemma PartLater(a: string, b: string, k: int)
    requires PartAt(a, b, k) && k > 0
    ensures a != [] && b != [] && a[0] == b[0]
  {
    assert a[..k][0] == a[0] && b[..k][0] == b[0];
  }

  lemma {:induction false} PrecedesIsEarlier(a: string, b: string)
    ensures Precedes(a, b) <==> Earlier(a, b)
  {
    if a != [] && b != [] && a[0] == b[0] {
      PrecedesIsEarlier(a[1..], b[1..]);
      if k :| PartAt(a[1..], b[1..], k) {
        assert a[..k + 1] == [a[0]] + a[1..][..k] && b[..k + 1] == [b[0]] + b[1..][..k];
        assert PartAt(a, b, k + 1);
      }
      if k :| PartAt(a, b, k) {
        assert k > 0;
        assert a[1..][..k - 1] == a[..k][1..] && b[1..][..k - 1] == b[..k][1..];
        assert PartAt(a[1..], b[1..], k - 1);
      }
    } else {
      if Precedes(a, b) {
        assert PartAt(a, b, 0);
      }
      if k :| PartAt(a, b, k) {
        if k > 0 {
          PartLater(a, b, k);
        }
      }
    }
  }

  function Edits(t: Text, name: string, c: string): nat {
    Distance(t.lower(c), t.lower(name))
  }

  /** A name of up to three runes may differ by one edit, of up to seven by two, and any longer by three. */
  predicate Near(t: Text, name: string, c: string) {
    Edits(t, name, c) <= if |name| < 4 then 1 else if |name| < 8 then 2 else 3
  }

  ghost predicate Before(t: Text, name: string, a: string, b: string) {
    Edits(t, name, a) < Edits(t, name, b) || (Edits(t, name, a) == Edits(t, name, b) && Earlier(a, b))
  }

  ghost predicate Fit(t: Text, name: string, rows: seq<Option<string>>, c: string) {
    Some(c) in rows && t.plain(c) && c != name && Near(t, name, c)
  }

  /** The three fit candidates that come first, fewest edits first and then in the order of their runes; or all, if fewer. */
  ghost predicate FirstThree(t: Text, name: string, rows: seq<Option<string>>, out: seq<string>) {
    && |out| <= 3
    && (forall i, j :: 0 <= i < j < |out| ==> Before(t, name, out[i], out[j]))
    && (forall c :: c in out ==> Fit(t, name, rows, c))
    && (forall c :: Fit(t, name, rows, c) && c !in out ==> |out| == 3 && forall o :: o in out ==> Before(t, name, o, c))
  }

  /** What is offered is exactly these. */
  lemma BestAreFirstThree(t: Text, name: string, rows: seq<Option<string>>, out: seq<string>)
    ensures Best(t, name, rows, out) <==> FirstThree(t, name, rows, out)
  {
    forall a, b
      ensures Better(t, name, a, b) <==> Before(t, name, a, b)
    {
      PrecedesIsEarlier(a, b);
    }
    assert Limit(name) == if |name| < 4 then 1 else if |name| < 8 then 2 else 3;
    hide Better, Before, Distance;
  }
}
