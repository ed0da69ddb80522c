/**
  What a client can make of a reply: written so that reading it back gives the bounded reply, byte for
  byte, but for one string the byte budget cut inside a character; and answered at all exactly when
  nothing within its bounds is of a kind a reply cannot hold.
 */
module ReplyLaws {
  import opened Wrappers
  import opened ReplyBounds
  import opened Utf8
  import opened Utf8Laws
  import opened ReplyEncoding

  // ----- one string -----

  /** Text, and after it the beginning of a character that is not finished. */
  ghost predicate Torn(b: seq<Byte>, text: seq<Byte>) {
    exists trail :: b == text + trail && Valid(text) && Begun(trail)
  }

  lemma TornIsCut(b: seq<Byte>, text: seq<Byte>, trail: seq<Byte>)
    requires b == text + trail && Valid(text) && Begun(trail)
    ensures 0 < |trail| <= 3 && |trail| <= |b| && CutAt(b, |trail|) && ValidPrefix(b) == text && !Valid(b)
  {
    BegunExactly(trail);
    UnfinishedIsNoText(trail);
    assert b[|b| - |trail|..] == trail && b[..|b| - |trail|] == text;
    LeadsMore(trail);
    hide Begun;
    TrimmedIsLongest(b, |trail|);
    if Valid(b) {
      ValidIsOwnPrefix(b);
    }
  }

  lemma LeadsMore(trail: seq<Byte>)
    requires trail != [] && !FullRune(trail)
    ensures RuneStart(trail[0])
  {
  }

  lemma CutIsTorn(b: seq<Byte>, n: nat)
    requires 0 < n <= |b| && CutAt(b, n)
    ensures Torn(b, b[..|b| - n])
  {
    var text, trail := b[..|b| - n], b[|b| - n..];
    assert b == text + trail;
    BegunExactly(trail);
    hide Begun, FullRune;
  }

  lemma {:induction false} TrimmedSomewhere(b: seq<Byte>, n: nat) returns (m: nat)
    requires 0 < n && WithoutIncompleteTrail(b, n).Some?
    ensures 0 < m <= |b| && CutAt(b, m)
    decreases MAX_INCOMPLETE_TRAIL + 1 - n
  {
    hide CutAt;
    m := n;
    if !CutAt(b, n) {
      m := TrimmedSomewhere(b, n + 1);
    }
  }

  /**
    A string goes out as it is if it is text; the one the budget cut, if all that is missing of it is
    the end of a character, without what there is of that; and any other byte for byte in base64.
   */
  lemma StringIsWritten(b: seq<Byte>, cut: bool)
    ensures Valid(b) ==> EncodeText(b, cut) == Plain(b)
    ensures forall text :: cut && Torn(b, text) ==> EncodeText(b, cut) == Plain(text)
    ensures !Valid(b) && (!cut || forall text :: !Torn(b, text)) ==> EncodeText(b, cut) == Base64(b)
  {
    forall text | Torn(b, text)
      ensures !Valid(b) && WithoutIncompleteTrail(b, 1) == Some(text)
    {
      var trail :| b == text + trail && Valid(text) && Begun(trail);
      TornIsCut(b, text, trail);
      TrimFinds(b, 1, |trail|);
      TrimIsLongest(b, 1);
    }
    if WithoutIncompleteTrail(b, 1).Some? {
      var n := TrimmedSomewhere(b, 1);
      CutIsTorn(b, n);
    }
    hide Torn, Valid, WithoutIncompleteTrail;
  }

  // ----- a whole reply -----

  /** What a client reads. */
  function Back(o: Output): Value
    decreases o
  {
    match o
    case Null => Nil
    case Number(n) => Integer(n)
    case Plain(text) => Text(text)
    case Base64(bytes) => Text(bytes)
    case Failed(message) => Error(message)
    case List(items) => Array(BackAll(items))
  }

  function BackAll(os: seq<Output>): (r: seq<Value>)
    ensures |r| == |os|
    decreases os
  {
    if os == [] then [] else [Back(os[0])] + BackAll(os[1..])
  }

  /** Everything given as text is text, and nothing else is given as base64. */
  predicate Honest(o: Output)
    decreases o
  {
    match o
    case Plain(text) => Valid(text)
    case Base64(bytes) => !Valid(bytes)
    case List(items) => HonestAll(items)
    case _ => true
  }

  predicate HonestAll(os: seq<Output>)
    decreases os
  {
    os == [] || (Honest(os[0]) && HonestAll(os[1..]))
  }

  /** Nothing but arrays. */
  predicate Hollow(v: Value)
    decreases v
  {
    v.Array? && HollowAll(v.items)
  }

  predicate HollowAll(vs: seq<Value>)
    decreases vs
  {
    vs == [] || (Hollow(vs[0]) && HollowAll(vs[1..]))
  }

  /** The string without what there is of an unfinished character at its end, if that is all that is wrong with it. */
  ghost function Tidy(b: seq<Byte>): seq<Byte> {
    if exists text :: Torn(b, text) then
      var text :| Torn(b, text);
      text
    else b
  }

  /** A reply whose last leaf, if that is a string, is so tidied. */
  ghost function TidyLast(v: Value): Value
    decreases v
  {
    match v
    case Text(b) => Text(Tidy(b))
    case Array(items) => Array(TidyLastOf(items))
    case _ => v
  }

  ghost function TidyLastOf(vs: seq<Value>): seq<Value>
    decreases vs
  {
    if vs == [] then []
    else if HollowAll(vs[1..]) then [TidyLast(vs[0])] + vs[1..]
    else [vs[0]] + TidyLastOf(vs[1..])
  }

  lemma {:induction false} HollowHasNone(v: Value)
    ensures Hollow(v) <==> Leaves(v) == 0
    decreases v
  {
    if v.Array? {
      HollowHaveNone(v.items);
    }
  }

  lemma {:induction false} HollowHaveNone(vs: seq<Value>)
    ensures HollowAll(vs) <==> LeavesAll(vs) == 0
    decreases vs
  {
    if vs != [] {
      HollowHasNone(vs[0]);
      HollowHaveNone(vs[1..]);
    }
  }

  lemma TextBack(b: seq<Byte>, cut: bool)
    ensures var o := EncodeText(b, cut); Honest(o) && Back(o) == Text(if cut then Tidy(b) else b)
  {
    StringIsWritten(b, cut);
    forall text | Torn(b, text)
      ensures Valid(text) && !Valid(b)
    {
      var trail :| b == text + trail && Valid(text) && Begun(trail);
      TornIsCut(b, text, trail);
    }
    hide WithoutIncompleteTrail, Valid, Torn, EncodeText;
  }

  /** A value none of whose leaves is the one cut reads back as it is. */
  lemma {:induction false} ReadsBack(v: Value, cut: int, leaf: nat)
    requires cut < leaf || leaf + Leaves(v) <= cut
    ensures var o := EncodeValue(v, cut, leaf); Honest(o) && Back(o) == v
    decreases v
  {
    match v
    case Text(b) => TextBack(b, false);
    case Array(items) => ReadBack(items, cut, leaf);
    case _ =>
  }

  lemma {:induction false} ReadBack(vs: seq<Value>, cut: int, leaf: nat)
    requires cut < leaf || leaf + LeavesAll(vs) <= cut
    ensures var os := EncodeAll(vs, cut, leaf); HonestAll(os) && BackAll(os) == vs
    decreases vs
  {
    if vs != [] {
      ReadsBack(vs[0], cut, leaf);
      ReadBack(vs[1..], cut, leaf + Leaves(vs[0]));
      var rest := EncodeAll(vs[1..], cut, leaf + Leaves(vs[0]));
      assert EncodeAll(vs, cut, leaf)[1..] == rest;
      hide Leaves, EncodeValue, Honest, Back;
    }
  }

  /** And one whose last leaf is the one cut, with that tidied. */
  lemma {:induction false} LastReadsBack(v: Value, leaf: nat)
    ensures var o := EncodeValue(v, leaf + Leaves(v) - 1, leaf); Honest(o) && Back(o) == TidyLast(v)
    decreases v
  {
    match v
    case Text(b) => TextBack(b, true);
    case Array(items) => LastReadBack(items, leaf);
    case _ =>
  }

  lemma {:induction false} LastReadBack(vs: seq<Value>, leaf: nat)
    ensures var os := EncodeAll(vs, leaf + LeavesAll(vs) - 1, leaf); HonestAll(os) && BackAll(os) == TidyLastOf(vs)
    decreases vs
  {
    if vs != [] {
      var cut := leaf + LeavesAll(vs) - 1;
      var next := leaf + Leaves(vs[0]);
      HollowHaveNone(vs[1..]);
      assert EncodeAll(vs, cut, leaf)[1..] == EncodeAll(vs[1..], cut, next);
      if HollowAll(vs[1..]) {
        LastReadsBack(vs[0], leaf);
        ReadBack(vs[1..], cut, next);
      } else {
        ReadsBack(vs[0], cut, leaf);
        LastReadBack(vs[1..], next);
      }
      hide Leaves, EncodeValue, Honest, Back, TidyLast;
    }
  }

  /**
    A reply reads back as what was bounded, and only what is no text is in base64; where the label is
    that of the byte budget, the last leaf, if a string, ends where its last whole character does when
    that is all that is wrong with it.
   */
  lemma ReplyReadsBack(v: Value, truncation: Truncation)
    ensures Honest(EncodeReply(v, truncation))
    ensures Back(EncodeReply(v, truncation)) == if truncation == ByteBudget then TidyLast(v) else v
  {
    if truncation == ByteBudget {
      LastReadsBack(v, 0);
    } else {
      ReadsBack(v, -1, 0);
    }
    hide EncodeValue, Honest, Back, TidyLast, Leaves;
  }

  // ----- whether it is answered -----

  /** What a reply is made of besides arrays, depth first, each array capped. */
  function Atoms(raw: Raw, max: nat): seq<Raw>
    decreases raw
  {
    match raw
    case RawArray(items) => AtomsOf(items, Min(|items|, max), max)
    case _ => [raw]
  }

  function AtomsOf(items: seq<Raw>, n: nat, max: nat): seq<Raw>
    requires n <= |items|
    decreases items
  {
    if n == 0 then [] else Atoms(items[0], max) + AtomsOf(items[1..], n - 1, max)
  }

  function Size(atoms: seq<Raw>): nat {
    if atoms == [] then 0 else (if atoms[0].RawText? then |atoms[0].s| else 0) + Size(atoms[1..])
  }

  /** Something a reply cannot hold comes before the budget is overrun. */
  ghost predicate Meets(atoms: seq<Raw>, budget: int) {
    exists k :: MeetsAt(atoms, budget, k)
  }

  predicate MeetsAt(atoms: seq<Raw>, budget: int, k: int) {
    0 <= k < |atoms| && atoms[k].Foreign? && Size(atoms[..k]) <= budget
  }

  lemma {:induction false} SizeJoins(a: seq<Raw>, b: seq<Raw>)
    ensures Size(a + b) == Size(a) + Size(b)
  {
    if a == [] {
      assert a + b == b;
    } else {
      SizeJoins(a[1..], b);
      assert (a + b)[1..] == a[1..] + b;
    }
  }

  lemma {:induction false} SizeTakes(a: seq<Raw>, k: nat)
    requires k <= |a|
    ensures Size(a[..k]) <= Size(a)
  {
    SizeJoins(a[..k], a[k..]);
    assert a == a[..k] + a[k..];
  }

  lemma MeetsJoins(a: seq<Raw>, b: seq<Raw>, budget: int)
    ensures Meets(a + b, budget) <==> Meets(a, budget) || Meets(b, budget - Size(a))
  {
    var all := a + b;
    forall k | 0 <= k < |b|
      ensures Size(all[..|a| + k]) == Size(a) + Size(b[..k])
    {
      SizeJoins(a, b[..k]);
      assert all[..|a| + k] == a + b[..k];
    }
    hide Size;
    if k :| MeetsAt(a, budget, k) {
      assert all[..k] == a[..k];
      assert MeetsAt(all, budget, k);
    }
    var left := budget - Size(a);
    if k :| MeetsAt(b, left, k) {
      assert MeetsAt(all, budget, |a| + k);
    }
    if k :| MeetsAt(all, budget, k) {
      if k < |a| {
        assert all[..k] == a[..k];
        assert MeetsAt(a, budget, k);
      } else {
        assert MeetsAt(b, left, k - |a|);
      }
    }
  }

  /** What bounding a value under a budget not yet overrun comes to. */
  ghost predicate Goes(atoms: seq<Raw>, b: Bounds, failed: bool, later: Bounds) {
    && (failed <==> Meets(atoms, b.remaining))
    && (!failed ==>
          && (later.exhausted <==> Size(atoms) > b.remaining)
          && (!later.exhausted ==> later.remaining == b.remaining - Size(atoms)))
  }

  lemma OneAtom(raw: Raw, b: Bounds)
    requires !raw.RawArray?
    ensures Size([raw]) == if raw.RawText? then |raw.s| else 0
    ensures Meets([raw], b.remaining) <==> raw.Foreign?
  {
    assert [raw][1..] == [] && [raw][..0] == [];
    if raw.Foreign? {
      assert MeetsAt([raw], b.remaining, 0);
    }
  }

  lemma OverrunMeetsNothing(atoms: seq<Raw>, budget: int)
    requires budget < 0
    ensures !Meets(atoms, budget)
  {
  }

  lemma {:induction false} ValueGoes(raw: Raw, max: nat, b: Bounds)
    requires !b.exhausted
    ensures var r := BoundValue(raw, max, b); Goes(Atoms(raw, max), b, r.Err?, if r.Ok? then r.value.1 else b)
    decreases raw
  {
    match raw
    case RawArray(items) =>
      ItemsGo(items, Min(|items|, max), max, b);
      hide BoundItems, Meets, AtomsOf, Size;
      NothingLeft(b);
    case _ => OneAtom(raw, b);
  }

  lemma NothingLeft(b: Bounds)
    ensures Cut(b, ElementCap).remaining == b.remaining && Cut(b, ElementCap).exhausted == b.exhausted
  {
  }

  lemma {:induction false} ItemsGo(items: seq<Raw>, n: nat, max: nat, b: Bounds)
    requires n <= |items| && !b.exhausted
    ensures var r := BoundItems(items, n, max, b); Goes(AtomsOf(items, n, max), b, r.Err?, if r.Ok? then r.value.1 else b)
    decreases items
  {
    if n > 0 {
      ValueGoes(items[0], max, b);
      var first, rest := Atoms(items[0], max), AtomsOf(items[1..], n - 1, max);
      MeetsJoins(first, rest, b.remaining);
      SizeJoins(first, rest);
      var r := BoundValue(items[0], max, b);
      if r.Ok? {
        if r.value.1.exhausted {
          OverrunMeetsNothing(rest, b.remaining - Size(first));
        } else {
          ItemsGo(items[1..], n - 1, max, r.value.1);
        }
      }
      hide BoundValue, Atoms, Meets, Size;
    }
  }

  /** A reply fails exactly when something it cannot hold is met within the caps and before the budget is overrun. */
  lemma FailsExactly(raw: Raw, max: nat, budget: nat)
    ensures BoundReply(raw, max, budget).Err? <==> Meets(Atoms(raw, max), budget)
  {
    ValueGoes(raw, max, Bounds(budget, Whole, false));
    hide BoundValue, Atoms, Meets;
  }
}
