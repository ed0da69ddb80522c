/**
  How far apart two names are (internal/db/missing.go): the two-row table of `editDistance` holds the
  recursive edit distance, which is the least number of single edits, and a metric.
 */
module EditDistance {
  import opened Wrappers

  function Front<T>(s: seq<T>): seq<T>
    requires s != []
  {
    s[..|s| - 1]
  }

  function Final<T>(s: seq<T>): T
    requires s != []
  {
    s[|s| - 1]
  }

  function Cost<T(==)>(x: T, y: T): nat { if x == y then 0 else 1 }

  /** The edit distance. */
  function Distance<T(==)>(a: seq<T>, b: seq<T>): (n: nat)
    decreases |a| + |b|
  {
    if a == [] then |b|
    else if b == [] then |a|
    else
      var dropped := Distance(Front(a), b) + 1;
      var added := Distance(a, Front(b)) + 1;
      var changed := Distance(Front(a), Front(b)) + Cost(Final(a), Final(b));
      Min(Min(dropped, added), changed)
  }

  lemma FrontOfTake<T>(s: seq<T>, i: nat)
    requires 0 < i <= |s|
    ensures Front(s[..i]) == s[..i - 1] && Final(s[..i]) == s[i - 1]
  {
  }

  /** One cell of the table from the three beside it. */
  lemma Cell<T>(a: seq<T>, b: seq<T>, i: nat, j: nat)
    requires 0 < i <= |a| && 0 < j <= |b|
    ensures Distance(a[..i], b[..j]) ==
              Min(Min(Distance(a[..i - 1], b[..j]) + 1, Distance(a[..i], b[..j - 1]) + 1),
                Distance(a[..i - 1], b[..j - 1]) + Cost(a[i - 1], b[j - 1]))
  {
    FrontOfTake(a, i);
    FrontOfTake(b, j);
  }

  /** The first row and the first column. */
  lemma Edges<T>(a: seq<T>, b: seq<T>, i: nat)
    ensures i <= |b| ==> Distance(a[..0], b[..i]) == i
    ensures i <= |a| ==> Distance(a[..i], b[..0]) == i
  {
  }

  method EditDistance<T(==)>(ra: seq<T>, rb: seq<T>) returns (n: nat)
    ensures n == Distance(ra, rb)
  {
    hide Distance;
    var previous := new nat[|rb| + 1](_ => 0);
    var current := new nat[|rb| + 1](_ => 0);
    var j := 0;
    while j < previous.Length
      invariant j <= previous.Length
      invariant forall k :: 0 <= k < j ==> previous[k] == k
    {
      previous[j] := j;
      j := j + 1;
    }
    forall k | 0 <= k <= |rb|
      ensures previous[k] == Distance(ra[..0], rb[..k])
    {
      Edges(ra, rb, k);
    }
    var i := 1;
    while i <= |ra|
      invariant 1 <= i <= |ra| + 1
      invariant previous != current && previous.Length == current.Length == |rb| + 1
      invariant fresh(previous) && fresh(current)
      invariant forall k :: 0 <= k <= |rb| ==> previous[k] == Distance(ra[..i - 1], rb[..k])
    {
      Edges(ra, rb, i);
      current[0] := i;
      j := 1;
      while j <= |rb|
        invariant 1 <= j <= |rb| + 1
        invariant forall k :: 0 <= k <= |rb| ==> previous[k] == Distance(ra[..i - 1], rb[..k])
        invariant forall k :: 0 <= k < j ==> current[k] == Distance(ra[..i], rb[..k])
      {
        Cell(ra, rb, i, j);
        var cost := 1;
        if ra[i - 1] == rb[j - 1] {
          cost := 0;
        }
        current[j] := Min(Min(previous[j] + 1, current[j - 1] + 1), previous[j - 1] + cost);
        j := j + 1;
      }
      previous, current := current, previous;
      i := i + 1;
    }
    assert ra[..|ra|] == ra && rb[..|rb|] == rb;
    n := previous[|rb|];
  }

  // ----- the least number of edits -----

  /** One step along two names at once. */
  datatype Edit = Keep | Replace | Drop | Add

  function Price(edits: seq<Edit>): nat {
    if edits == [] then 0 else Price(Front(edits)) + if Final(edits).Keep? then 0 else 1
  }

  /** Whether the edits, taken in order, are a way to write `b` over `a`. */
  predicate Turns<T(==)>(a: seq<T>, edits: seq<Edit>, b: seq<T>)
    decreases |edits|
  {
    if edits == [] then a == [] && b == []
    else
      match Final(edits)
      case Keep => a != [] && b != [] && Final(a) == Final(b) && Turns(Front(a), Front(edits), Front(b))
      case Replace => a != [] && b != [] && Turns(Front(a), Front(edits), Front(b))
      case Drop => a != [] && Turns(Front(a), Front(edits), b)
      case Add => b != [] && Turns(a, Front(edits), Front(b))
  }

  lemma DistanceOfEmpty<T>(a: seq<T>)
    ensures Distance(a, []) == |a| && Distance([], a) == |a|
  {
  }

  /** No way of writing one over the other takes fewer edits. */
  lemma {:induction false} NoCheaper<T>(a: seq<T>, edits: seq<Edit>, b: seq<T>)
    requires Turns(a, edits, b)
    ensures Distance(a, b) <= Price(edits)
    decreases |edits|
  {
    if edits != [] {
      match Final(edits)
      case Keep => NoCheaper(Front(a), Front(edits), Front(b));
      case Replace => NoCheaper(Front(a), Front(edits), Front(b));
      case Drop => NoCheaper(Front(a), Front(edits), b);
      case Add => NoCheaper(a, Front(edits), Front(b));
    }
  }

  lemma Then(before: seq<Edit>, last: Edit)
    ensures Front(before + [last]) == before && Final(before + [last]) == last
    ensures Price(before + [last]) == Price(before) + if last.Keep? then 0 else 1
  {
  }

  /** And one takes just so many. */
  lemma {:induction false} SomeAsCheap<T>(a: seq<T>, b: seq<T>) returns (edits: seq<Edit>)
    ensures Turns(a, edits, b) && Price(edits) == Distance(a, b)
    decreases |a| + |b|
  {
    if a == [] && b == [] {
      edits := [];
    } else if b == [] || (a != [] && Distance(a, b) == Distance(Front(a), b) + 1) {
      DistanceOfEmpty(a);
      if b == [] {
        DistanceOfEmpty(Front(a));
      }
      var before := SomeAsCheap(Front(a), b);
      Then(before, Drop);
      edits := before + [Drop];
    } else if a == [] || Distance(a, b) == Distance(a, Front(b)) + 1 {
      DistanceOfEmpty(b);
      if a == [] {
        DistanceOfEmpty(Front(b));
      }
      var before := SomeAsCheap(a, Front(b));
      Then(before, Add);
      edits := before + [Add];
    } else {
      var before := SomeAsCheap(Front(a), Front(b));
      var last := if Final(a) == Final(b) then Keep else Replace;
      Then(before, last);
      edits := before + [last];
    }
  }

  // ----- a metric -----

  lemma {:induction false} DistanceIsSymmetric<T>(a: seq<T>, b: seq<T>)
    ensures Distance(a, b) == Distance(b, a)
    decreases |a| + |b|
  {
    if a != [] && b != [] {
      DistanceIsSymmetric(Front(a), b);
      DistanceIsSymmetric(a, Front(b));
      DistanceIsSymmetric(Front(a), Front(b));
    }
  }

  /** Never less than the gap between the lengths, never more than the longer one. */
  lemma {:induction false} DistanceBounds<T>(a: seq<T>, b: seq<T>)
    ensures |a| - |b| <= Distance(a, b) && |b| - |a| <= Distance(a, b)
    ensures Distance(a, b) <= if |a| < |b| then |b| else |a|
    decreases |a| + |b|
  {
    if a != [] && b != [] {
      DistanceBounds(Front(a), b);
      DistanceBounds(a, Front(b));
      DistanceBounds(Front(a), Front(b));
    }
  }

  lemma {:induction false} DistanceZero<T>(a: seq<T>, b: seq<T>)
    ensures Distance(a, b) == 0 <==> a == b
    decreases |a| + |b|
  {
    if a != [] && b != [] {
      DistanceZero(Front(a), Front(b));
      assert a == Front(a) + [Final(a)] && b == Front(b) + [Final(b)];
    }
  }

  lemma {:induction false} Triangle<T>(a: seq<T>, b: seq<T>, c: seq<T>)
    ensures Distance(a, c) <= Distance(a, b) + Distance(b, c)
    decreases |a| + |b| + |c|
  {
    if a == [] || b == [] || c == [] {
      DistanceBounds(a, b);
      DistanceBounds(b, c);
      DistanceBounds(a, c);
      DistanceOfEmpty(a);
      DistanceOfEmpty(b);
      DistanceOfEmpty(c);
    } else if Distance(a, b) == Distance(Front(a), b) + 1 {
      Triangle(Front(a), b, c);
    } else if Distance(b, c) == Distance(b, Front(c)) + 1 {
      Triangle(a, b, Front(c));
    } else {
      Triangle(a, Front(b), c);
      Triangle(a, Front(b), Front(c));
      Triangle(Front(a), Front(b), c);
      Triangle(Front(a), Front(b), Front(c));
    }
  }
}
