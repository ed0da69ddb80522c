/**
  What a bounded reply keeps: its budget, its caps, and a depth-first prefix of the reply, under a
  label that says whether anything at all was dropped.
 */
module ReplyCuts {
  import opened Wrappers
  import opened ReplyBounds

  // ----- the reply, whole and with its arrays capped -----

  /** The reply with nothing dropped. */
  function Full(raw: Raw): Value
    decreases raw
  {
    match raw
    case RawNil => Nil
    case RawInteger(n) => Integer(n)
    case RawText(s) => Text(s)
    case RawError(message) => Error(message)
    case Foreign => Nil
    case RawArray(items) => Array(FullAll(items))
  }

  function FullAll(items: seq<Raw>): (r: seq<Value>)
    ensures |r| == |items|
    decreases items
  {
    if items == [] then [] else [Full(items[0])] + FullAll(items[1..])
  }

  /** The reply with every array capped, and no byte dropped. */
  function Capped(raw: Raw, max: nat): Value
    decreases raw
  {
    match raw
    case RawArray(items) => Array(CappedAll(items, Min(|items|, max), max))
    case _ => Full(raw)
  }

  function CappedAll(items: seq<Raw>, n: nat, max: nat): (r: seq<Value>)
    requires n <= |items|
    ensures |r| == n
    decreases items
  {
    if n == 0 then [] else [Capped(items[0], max)] + CappedAll(items[1..], n - 1, max)
  }

  /** How many bytes its strings hold together. */
  function Bytes(v: Value): nat
    decreases v
  {
    match v
    case Text(b) => |b|
    case Array(items) => BytesAll(items)
    case _ => 0
  }

  function BytesAll(vs: seq<Value>): nat
    decreases vs
  {
    if vs == [] then 0 else Bytes(vs[0]) + BytesAll(vs[1..])
  }

  /** Whether every array in the reply is within the cap. */
  predicate Fits(raw: Raw, max: nat)
    decreases raw
  {
    match raw
    case RawArray(items) => |items| <= max && FitAll(items, |items|, max)
    case _ => true
  }

  predicate FitAll(items: seq<Raw>, n: nat, max: nat)
    requires n <= |items|
    decreases items
  {
    n == 0 || (Fits(items[0], max) && FitAll(items[1..], n - 1, max))
  }

  /** How many bytes come, depth first, before the end of the first array that was over its cap. */
  function FirstCap(raw: Raw, max: nat): Option<nat>
    decreases raw
  {
    match raw
    case RawArray(items) =>
      var n := Min(|items|, max);
      var inner := FirstCapAmong(items, n, max);
      if inner.Some? then inner else if |items| > n then Some(BytesAll(CappedAll(items, n, max))) else None
    case _ => None
  }

  function FirstCapAmong(items: seq<Raw>, n: nat, max: nat): Option<nat>
    requires n <= |items|
    decreases items
  {
    if n == 0 then None
    else
      CapOf(FirstCap(items[0], max), Bytes(Capped(items[0], max)), FirstCapAmong(items[1..], n - 1, max))
  }

  /** The first array over its cap, in an item or in those after it. */
  function CapOf(head: Option<nat>, size: nat, rest: Option<nat>): Option<nat> {
    if head.Some? || rest.None? then head else Some(size + rest.value)
  }

  /** An array was over its cap before the strings ran over the budget. */
  predicate CapFirst(cap: Option<nat>, budget: nat) {
    cap.Some? && cap.value <= budget
  }

  /** No array anywhere is longer than the cap. */
  predicate Within(v: Value, max: nat)
    decreases v
  {
    match v
    case Array(items) => |items| <= max && WithinAll(items, max)
    case _ => true
  }

  predicate WithinAll(vs: seq<Value>, max: nat)
    decreases vs
  {
    vs == [] || (Within(vs[0], max) && WithinAll(vs[1..], max))
  }

  /** `v` is `full` up to a byte inside one of its strings, depth first, and nothing after. */
  predicate CutShort(v: Value, full: Value)
    decreases v
  {
    match v
    case Text(b) => full.Text? && |b| < |full.bytes| && b <= full.bytes
    case Array(vs) => full.Array? && CutAmong(vs, full.items)
    case _ => false
  }

  predicate CutAmong(vs: seq<Value>, fulls: seq<Value>)
    decreases vs
  {
    && vs != [] && fulls != []
    && if |vs| == 1 then CutShort(vs[0], fulls[0]) else vs[0] == fulls[0] && CutAmong(vs[1..], fulls[1..])
  }

  // ----- one pass does all of it -----

  /** Everything the bounds promise of a value, from the bounds before it to those after. */
  ghost predicate Bounded(v: Value, full: Value, cap: Option<nat>, b: Bounds, later: Bounds) {
    && Bytes(v) + later.remaining == b.remaining
    && (later.exhausted <==> Bytes(full) > b.remaining)
    && (if later.exhausted then later.remaining == 0 && CutShort(v, full) else v == full)
    && LabelKept(cap, Bytes(full), b, later)
  }

  /** The first label stands, and tells which came first. */
  ghost predicate LabelKept(cap: Option<nat>, size: nat, b: Bounds, later: Bounds) {
    && (cap.Some? ==> cap.value <= size)
    && later.truncation ==
       if b.truncation != Whole then b.truncation
       else if CapFirst(cap, b.remaining) then ElementCap
       else if size > b.remaining then ByteBudget
       else Whole
  }

  ghost predicate BoundedAll(vs: seq<Value>, fulls: seq<Value>, cap: Option<nat>, b: Bounds, later: Bounds) {
    && BytesAll(vs) + later.remaining == b.remaining
    && (later.exhausted <==> BytesAll(fulls) > b.remaining)
    && (if later.exhausted then later.remaining == 0 && CutAmong(vs, fulls) else vs == fulls)
    && LabelKept(cap, BytesAll(fulls), b, later)
  }

  lemma {:induction false} ValueBounded(raw: Raw, max: nat, b: Bounds)
    requires !b.exhausted && BoundValue(raw, max, b).Ok?
    ensures var (v, later) := BoundValue(raw, max, b).value;
      Bounded(v, Capped(raw, max), FirstCap(raw, max), b, later)
    decreases raw
  {
    match raw
    case RawArray(items) =>
      var n := Min(|items|, max);
      ItemsBounded(items, n, max, b);
      hide BoundItems, CappedAll, FirstCapAmong, BytesAll, CutAmong;
    case _ =>
  }

  lemma ConsBytes(v: Value, rest: seq<Value>)
    ensures BytesAll([v] + rest) == Bytes(v) + BytesAll(rest)
  {
    assert ([v] + rest)[1..] == rest;
  }

  /** The item that exhausts the budget ends the list. */
  lemma BoundedLast(
    v: Value, full: Value, fulls: seq<Value>, cap: Option<nat>, rest: Option<nat>, b: Bounds, later: Bounds)
    requires Bounded(v, full, cap, b, later) && later.exhausted && (rest.Some? ==> rest.value <= BytesAll(fulls))
    ensures BoundedAll([v], [full] + fulls, CapOf(cap, Bytes(full), rest), b, later)
  {
    ConsBytes(v, []);
    ConsBytes(full, fulls);
    hide Bytes, CutShort;
    assert [v] + [] == [v];
  }

  /** An item within the budget goes before what the rest makes of the budget left. */
  lemma BoundedMore(
    v: Value, full: Value, cap: Option<nat>, b: Bounds, mid: Bounds, vs: seq<Value>, fulls: seq<Value>,
    rest: Option<nat>, later: Bounds)
    requires Bounded(v, full, cap, b, mid) && !mid.exhausted && BoundedAll(vs, fulls, rest, mid, later)
    ensures BoundedAll([v] + vs, [full] + fulls, CapOf(cap, Bytes(full), rest), b, later)
  {
    ConsBytes(v, vs);
    ConsBytes(full, fulls);
    assert later.exhausted ==> vs != [];
    hide Bytes, CutShort, BytesAll;
    assert ([v] + vs)[1..] == vs && ([full] + fulls)[1..] == fulls;
  }

  /** An array is over its cap no later than the strings end. */
  lemma {:induction false} CapWithinBytes(raw: Raw, max: nat)
    ensures FirstCap(raw, max).Some? ==> FirstCap(raw, max).value <= Bytes(Capped(raw, max))
    decreases raw
  {
    match raw
    case RawArray(items) => CapsWithinBytes(items, Min(|items|, max), max);
    case _ =>
  }

  lemma {:induction false} CapsWithinBytes(items: seq<Raw>, n: nat, max: nat)
    requires n <= |items|
    ensures var cap := FirstCapAmong(items, n, max); cap.Some? ==> cap.value <= BytesAll(CappedAll(items, n, max))
    decreases items
  {
    if n > 0 {
      CapWithinBytes(items[0], max);
      CapsWithinBytes(items[1..], n - 1, max);
      ConsBytes(Capped(items[0], max), CappedAll(items[1..], n - 1, max));
    }
  }

  lemma {:induction false} ItemsBounded(items: seq<Raw>, n: nat, max: nat, b: Bounds)
    requires n <= |items| && !b.exhausted && BoundItems(items, n, max, b).Ok?
    ensures var (vs, later) := BoundItems(items, n, max, b).value;
      BoundedAll(vs, CappedAll(items, n, max), FirstCapAmong(items, n, max), b, later)
    decreases items
  {
    hide BoundValue, Capped, FirstCap, Bounded, LabelKept;
    if n == 0 {
      NoneBounded(b);
    } else {
      ValueBounded(items[0], max, b);
      var (v, mid) := BoundValue(items[0], max, b).value;
      var cap, rest := FirstCap(items[0], max), FirstCapAmong(items[1..], n - 1, max);
      var full, fulls := Capped(items[0], max), CappedAll(items[1..], n - 1, max);
      if mid.exhausted {
        CapsWithinBytes(items[1..], n - 1, max);
        BoundedLast(v, full, fulls, cap, rest, b, mid);
      } else {
        ItemsBounded(items[1..], n - 1, max, mid);
        var (vs, later) := BoundItems(items[1..], n - 1, max, mid).value;
        BoundedMore(v, full, cap, b, mid, vs, fulls, rest, later);
      }
    }
  }

  lemma NoneBounded(b: Bounds)
    requires !b.exhausted
    ensures BoundedAll([], [], None, b, b)
  {
  }

  // ----- what fits is whole -----

  lemma {:induction false} FitIsWhole(raw: Raw, max: nat)
    requires Fits(raw, max)
    ensures Capped(raw, max) == Full(raw)
    decreases raw
  {
    match raw
    case RawArray(items) => FitAreWhole(items, max);
    case _ =>
  }

  lemma {:induction false} FitAreWhole(items: seq<Raw>, max: nat)
    requires FitAll(items, |items|, max)
    ensures CappedAll(items, |items|, max) == FullAll(items)
    decreases items
  {
    if items != [] {
      FitIsWhole(items[0], max);
      FitAreWhole(items[1..], max);
    }
  }

  /** Capping is what puts every array within the cap, and it changes nothing that was. */
  lemma {:induction false} CappedIsWithin(raw: Raw, max: nat)
    ensures Within(Capped(raw, max), max)
    decreases raw
  {
    match raw
    case RawArray(items) => CappedAreWithin(items, Min(|items|, max), max);
    case _ =>
  }

  lemma {:induction false} CappedAreWithin(items: seq<Raw>, n: nat, max: nat)
    requires n <= |items|
    ensures WithinAll(CappedAll(items, n, max), max)
    decreases items
  {
    if n > 0 {
      CappedIsWithin(items[0], max);
      CappedAreWithin(items[1..], n - 1, max);
    }
  }

  lemma {:induction false} CutIsWithin(v: Value, full: Value, max: nat)
    requires CutShort(v, full) && Within(full, max)
    ensures Within(v, max)
    decreases v
  {
    match v
    case Array(vs) => CutAreWithin(vs, full.items, max);
    case _ =>
  }

  lemma {:induction false} CutAreWithin(vs: seq<Value>, fulls: seq<Value>, max: nat)
    requires CutAmong(vs, fulls) && WithinAll(fulls, max)
    ensures WithinAll(vs, max) && |vs| <= |fulls|
    decreases vs
  {
    if |vs| == 1 {
      CutIsWithin(vs[0], fulls[0], max);
    } else {
      CutAreWithin(vs[1..], fulls[1..], max);
    }
  }

  lemma {:induction false} WholeFits(raw: Raw, max: nat)
    requires Within(Full(raw), max)
    ensures Fits(raw, max)
    decreases raw
  {
    match raw
    case RawArray(items) => WholeFit(items, max);
    case _ =>
  }

  lemma {:induction false} WholeFit(items: seq<Raw>, max: nat)
    requires WithinAll(FullAll(items), max)
    ensures FitAll(items, |items|, max)
    decreases items
  {
    if items != [] {
      WholeFits(items[0], max);
      WholeFit(items[1..], max);
    }
  }

  /**
    A bounded reply keeps no more bytes than its budget and no array longer than its cap; and it is
    the capped reply, or that up to a byte of one of its strings, depth first, when the strings hold
    more than the budget, all of which is then spent.
   */
  lemma ReplyIsAPrefix(raw: Raw, max: nat, budget: nat)
    requires BoundReply(raw, max, budget).Ok?
    ensures var (v, truncation) := BoundReply(raw, max, budget).value;
      && Within(v, max)
      && (if Bytes(Capped(raw, max)) <= budget then v == Capped(raw, max)
          else Bytes(v) == budget && CutShort(v, Capped(raw, max)))
  {
    ValueBounded(raw, max, Bounds(budget, Whole, false));
    CappedIsWithin(raw, max);
    var v := BoundReply(raw, max, budget).value.0;
    hide BoundValue, Capped, Within, CutShort, Bytes, Fits;
    if v != Capped(raw, max) {
      CutIsWithin(v, Capped(raw, max), max);
    }
  }

  lemma {:induction false} FitsHasNoCap(raw: Raw, max: nat)
    ensures Fits(raw, max) <==> FirstCap(raw, max).None?
    decreases raw
  {
    match raw
    case RawArray(items) => FitHaveNoCap(items, Min(|items|, max), max);
    case _ =>
  }

  lemma {:induction false} FitHaveNoCap(items: seq<Raw>, n: nat, max: nat)
    requires n <= |items|
    ensures FitAll(items, n, max) <==> FirstCapAmong(items, n, max).None?
    decreases items
  {
    if n > 0 {
      FitsHasNoCap(items[0], max);
      FitHaveNoCap(items[1..], n - 1, max);
    }
  }

  /**
    The label, of the reply alone: an array's cap when one was over its cap before the strings ran
    over the budget, else the budget when they ran over it, else that nothing was dropped; which it
    says exactly when nothing was.
   */
  lemma LabelIsTruthful(raw: Raw, max: nat, budget: nat)
    requires BoundReply(raw, max, budget).Ok?
    ensures var (v, truncation) := BoundReply(raw, max, budget).value;
      && (truncation == ElementCap <==> CapFirst(FirstCap(raw, max), budget))
      && (truncation == ByteBudget <==> !CapFirst(FirstCap(raw, max), budget) && Bytes(Capped(raw, max)) > budget)
      && (truncation == Whole <==> Fits(raw, max) && Bytes(Full(raw)) <= budget)
      && (truncation == Whole <==> v == Full(raw))
  {
    ReplyIsAPrefix(raw, max, budget);
    ValueBounded(raw, max, Bounds(budget, Whole, false));
    FitsHasNoCap(raw, max);
    var (v, truncation) := BoundReply(raw, max, budget).value;
    hide BoundValue, Capped, Within, CutShort, Bytes, Fits, Full, FirstCap;
    if Fits(raw, max) {
      FitIsWhole(raw, max);
    }
    if v == Full(raw) {
      WholeFits(raw, max);
    }
  }

  lemma ItemsCons(
    item: Raw, rest: seq<Raw>, n: nat, max: nat, b: Bounds, v: Value, later: Bounds, vs: seq<Value>, last: Bounds)
    requires n <= |rest| && BoundValue(item, max, b) == Ok((v, later))
    requires if later.exhausted then vs == [] && last == later else BoundItems(rest, n, max, later) == Ok((vs, last))
    ensures BoundItems([item] + rest, n + 1, max, b) == Ok(([v] + vs, last))
  {
    assert ([item] + rest)[1..] == rest;
    hide BoundValue;
    assert [v] + [] == [v];
  }

  /** A label already given hides a later one: an array over its cap, and after it a string over the budget. */
  lemma FirstLabelHidesTheCut()
    ensures var raw := RawArray([RawArray([RawNil, RawNil, RawNil]), RawText([0xC3, 0xA9])]);
      BoundReply(raw, 2, 1) == Ok((Array([Array([Nil, Nil]), Text([0xC3])]), ElementCap))
  {
    var b, later, last := Bounds(1, Whole, false), Bounds(1, ElementCap, false), Bounds(0, ElementCap, true);
    ItemsCons(RawNil, [RawNil], 0, 2, b, Nil, b, [], b);
    assert [RawNil] + [RawNil] == [RawNil, RawNil] && [Nil] + [] == [Nil];
    ItemsCons(RawNil, [RawNil, RawNil], 1, 2, b, Nil, b, [Nil], b);
    assert [RawNil] + [RawNil, RawNil] == [RawNil, RawNil, RawNil] && [Nil] + [Nil] == [Nil, Nil];
    var inner := RawArray([RawNil, RawNil, RawNil]);
    assert BoundValue(inner, 2, b) == Ok((Array([Nil, Nil]), later));
    var s: seq<Byte> := [0xC3, 0xA9];
    assert s[..1] == [0xC3];
    assert BoundValue(RawText(s), 2, later) == Ok((Text([0xC3]), last));
    hide BoundItems;
    ItemsCons(RawText(s), [], 0, 2, later, Text([0xC3]), last, [], last);
    assert [RawText(s)] + [] == [RawText(s)] && [Text([0xC3])] + [] == [Text([0xC3])];
    ItemsCons(inner, [RawText(s)], 1, 2, b, Array([Nil, Nil]), later, [Text([0xC3])], last);
    assert [inner] + [RawText(s)] == [inner, RawText(s)];
    assert [Array([Nil, Nil])] + [Text([0xC3])] == [Array([Nil, Nil]), Text([0xC3])];
    assert BoundValue(RawArray([inner, RawText(s)]), 2, b) ==
           Ok((Array([Array([Nil, Nil]), Text([0xC3])]), last));
  }

  /** Only a value no RESP2 reply holds is refused, and only if the bounds reach it. */
  predicate Native(raw: Raw)
    decreases raw
  {
    match raw
    case Foreign => false
    case RawArray(items) => NativeAll(items)
    case _ => true
  }

  predicate NativeAll(items: seq<Raw>)
    decreases items
  {
    items == [] || (Native(items[0]) && NativeAll(items[1..]))
  }

  lemma {:induction false} NativeIsAnswered(raw: Raw, max: nat, b: Bounds)
    requires Native(raw)
    ensures BoundValue(raw, max, b).Ok?
    decreases raw
  {
    match raw
    case RawArray(items) => NativeAreAnswered(items, Min(|items|, max), max, b);
    case _ =>
  }

  lemma {:induction false} NativeAreAnswered(items: seq<Raw>, n: nat, max: nat, b: Bounds)
    requires n <= |items| && NativeAll(items)
    ensures BoundItems(items, n, max, b).Ok?
    decreases items
  {
    if n > 0 {
      NativeIsAnswered(items[0], max, b);
      NativeAreAnswered(items[1..], n - 1, max, BoundValue(items[0], max, b).value.1);
    }
  }
}
