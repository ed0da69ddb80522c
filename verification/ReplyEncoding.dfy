/**
  Writing a bounded reply for a client (internal/redismcp/encode.go): strings as text where they are
  text, the string the budget cut mended to its last whole character, anything else as base64.
 */
module ReplyEncoding {
  import opened Wrappers
  import opened ReplyBounds
  import opened ReplyCuts
  import opened Utf8

  datatype Output =
    | Null
    | Number(n: int)
    | Plain(text: seq<Byte>)
    | Base64(bytes: seq<Byte>)
    | Failed(message: string)
    | List(items: seq<Output>)

  const MAX_INCOMPLETE_TRAIL: nat := 3

  function Leaves(v: Value): nat
    decreases v
  {
    match v
    case Array(items) => LeavesAll(items)
    case _ => 1
  }

  function LeavesAll(vs: seq<Value>): nat
    decreases vs
  {
    if vs == [] then 0 else Leaves(vs[0]) + LeavesAll(vs[1..])
  }

  /** The bytes without `n` at the end, if those begin a character the rest of which is missing. */
  predicate CutAt(b: seq<Byte>, n: nat)
    requires 0 < n <= |b|
  {
    var trail := b[|b| - n..];
    RuneStart(trail[0]) && !FullRune(trail) && Valid(b[..|b| - n])
  }

  function WithoutIncompleteTrail(b: seq<Byte>, n: nat): Option<seq<Byte>>
    requires 0 < n
    decreases MAX_INCOMPLETE_TRAIL + 1 - n
  {
    if n > MAX_INCOMPLETE_TRAIL || n > |b| then None
    else if CutAt(b, n) then Some(b[..|b| - n])
    else WithoutIncompleteTrail(b, n + 1)
  }

  function EncodeText(b: seq<Byte>, cut: bool): Output {
    if Valid(b) then Plain(b)
    else if cut && WithoutIncompleteTrail(b, 1).Some? then Plain(WithoutIncompleteTrail(b, 1).value)
    else Base64(b)
  }

  /** `leaf` is how many leaves came before. */
  function EncodeValue(v: Value, cut: int, leaf: nat): Output
    decreases v
  {
    match v
    case Array(items) => List(EncodeAll(items, cut, leaf))
    case Integer(n) => Number(n)
    case Nil => Null
    case Error(message) => Failed(message)
    case Text(b) => EncodeText(b, leaf == cut)
  }

  function EncodeAll(vs: seq<Value>, cut: int, leaf: nat): (r: seq<Output>)
    ensures |r| == |vs|
    decreases vs
  {
    if vs == [] then [] else [EncodeValue(vs[0], cut, leaf)] + EncodeAll(vs[1..], cut, leaf + Leaves(vs[0]))
  }

  function EncodeReply(v: Value, truncation: Truncation): Output {
    EncodeValue(v, if truncation == ByteBudget then Leaves(v) - 1 else -1, 0)
  }

  // ----- as it runs -----

  method CountLeaves(v: Value) returns (n: nat)
    ensures n == Leaves(v)
    decreases v
  {
    match v {
      case Array(items) =>
        n := 0;
        var i := 0;
        while i < |items|
          invariant i <= |items|
          invariant Leaves(v) == n + LeavesAll(items[i..])
        {
          var more := CountLeaves(items[i]);
          assert items[i..][1..] == items[i + 1..];
          n := n + more;
          i := i + 1;
        }
      case _ => n := 1;
    }
  }

  method TrimTrail(b: seq<Byte>) returns (r: Option<seq<Byte>>)
    ensures r == WithoutIncompleteTrail(b, 1)
  {
    var n := 1;
    while n <= MAX_INCOMPLETE_TRAIL && n <= |b|
      invariant 1 <= n
      invariant WithoutIncompleteTrail(b, 1) == WithoutIncompleteTrail(b, n)
      decreases MAX_INCOMPLETE_TRAIL + 1 - n
    {
      var prefix, trail := b[..|b| - n], b[|b| - n..];
      if RuneStart(trail[0]) && !FullRune(trail) && Valid(prefix) {
        return Some(prefix);
      }
      n := n + 1;
    }
    r := None;
  }

  class Encoder {
    const cut: int
    var leaf: nat

    constructor (cut: int)
      ensures this.cut == cut && leaf == 0
    {
      this.cut, leaf := cut, 0;
    }

    method Encode(v: Value) returns (r: Output)
      modifies this
      ensures r == EncodeValue(v, cut, old(leaf))
      ensures leaf == old(leaf) + Leaves(v)
      decreases v
    {
      if v.Array? {
        var items := v.items;
        var out: seq<Output> := [];
        var i := 0;
        while i < |items|
          invariant i <= |items|
          invariant EncodeAll(items, cut, old(leaf)) == out + EncodeAll(items[i..], cut, leaf)
          invariant LeavesAll(items) + old(leaf) == leaf + LeavesAll(items[i..])
        {
          assert items[i..][1..] == items[i + 1..];
          var o := Encode(items[i]);
          out := out + [o];
          i := i + 1;
        }
        return List(out);
      }
      var last := leaf == cut;
      leaf := leaf + 1;
      match v {
        case Integer(n) => r := Number(n);
        case Nil => r := Null;
        case Error(message) => r := Failed(message);
        case Text(b) => r := EncodeText(b, last);
      }
    }
  }

  method Encode(v: Value, truncation: Truncation) returns (r: Output)
    ensures r == EncodeReply(v, truncation)
  {
    var cut: int := -1;
    if truncation == ByteBudget {
      var n: int := CountLeaves(v);
      cut := n - 1;
    }
    var e := new Encoder(cut);
    r := e.Encode(v);
  }

  // ----- mending the cut -----

  /** Bytes that begin a character and do not finish it are no text at all, however few of them. */
  lemma UnfinishedIsNoText(trail: seq<Byte>)
    requires trail != [] && !FullRune(trail)
    ensures CharSize(trail) == 0 && ValidPrefix(trail) == [] && |trail| <= 3
  {
  }

  /** What is left when a trail is dropped is the longest beginning that is text. */
  lemma TrimmedIsLongest(b: seq<Byte>, n: nat)
    requires 0 < n <= |b| && CutAt(b, n)
    ensures ValidPrefix(b) == b[..|b| - n] && n <= 3
  {
    var p, trail := b[..|b| - n], b[|b| - n..];
    assert b == p + trail;
    UnfinishedIsNoText(trail);
    ValidPrefixOfAppend(p, trail);
  }

  lemma PeelText(p: seq<Byte>, q: seq<Byte>, n: nat)
    requires Valid(p) && p != [] && n == CharSize(p)
    ensures 0 < n <= |p| && CharSize(p + q) == n && Valid(p[n..])
    ensures (p + q)[n..] == p[n..] + q && (p + q)[..n] == p[..n] && p == p[..n] + p[n..]
  {
    hide CharSize;
    PeelSlices(p, q, n);
    CharSizeOfPrefix(p + q, |p|);
  }

  lemma PeelSlices<T>(p: seq<T>, q: seq<T>, n: nat)
    requires n <= |p|
    ensures (p + q)[..|p|] == p && (p + q)[n..] == p[n..] + q && (p + q)[..n] == p[..n] && p == p[..n] + p[n..]
  {
  }

  lemma PrefixStep(s: seq<Byte>, n: nat)
    requires n == CharSize(s)
    ensures ValidPrefix(s) == if n == 0 then [] else s[..n] + ValidPrefix(s[n..])
  {
    hide CharSize;
  }

  lemma {:induction false} ValidPrefixOfAppend(p: seq<Byte>, q: seq<Byte>)
    requires Valid(p)
    ensures ValidPrefix(p + q) == p + ValidPrefix(q)
  {
    hide *;
    if p == [] {
      assert p + q == q;
    } else {
      var n := CharSize(p);
      PeelText(p, q, n);
      PrefixStep(p + q, n);
      ValidPrefixOfAppend(p[n..], q);
      assert p[..n] + (p[n..] + ValidPrefix(q)) == p[..n] + p[n..] + ValidPrefix(q);
    }
  }

  lemma {:induction false} TrimIsLongest(b: seq<Byte>, n: nat)
    requires 0 < n && WithoutIncompleteTrail(b, n).Some?
    ensures WithoutIncompleteTrail(b, n) == Some(ValidPrefix(b)) && |ValidPrefix(b)| + 3 >= |b|
    decreases MAX_INCOMPLETE_TRAIL + 1 - n
  {
    hide CutAt, ValidPrefix;
    if CutAt(b, n) {
      TrimmedIsLongest(b, n);
    } else {
      TrimIsLongest(b, n + 1);
    }
  }

  /** Text cut anywhere is text, or text and the beginning of one character, of at most three bytes. */
  lemma {:induction false} CutText(s: seq<Byte>, k: nat) returns (n: nat)
    requires Valid(s) && k <= |s|
    ensures n <= 3 && n <= k
    ensures if n == 0 then Valid(s[..k]) else CutAt(s[..k], n)
    decreases |s|
  {
    var size := CharSize(s);
    if k == 0 {
      n := 0;
      assert s[..0] == [];
    } else if k < size {
      n := k;
      Unfinished(s, k);
    } else {
      n := CutText(s[size..], k - size);
      hide *;
      CutLater(s, size, k, n);
    }
  }

  lemma CutLater(s: seq<Byte>, size: nat, k: nat, n: nat)
    requires size == CharSize(s) && 0 < size && n <= k - size && k <= |s| && size <= k
    requires if n == 0 then Valid(s[size..][..k - size]) else CutAt(s[size..][..k - size], n)
    ensures if n == 0 then Valid(s[..k]) else CutAt(s[..k], n)
  {
    hide Valid, CharSize, FullRune, RuneStart;
    FirstIsValid(s, size);
    ValidAppend(s[..size], s[size..][..k - size][..k - size - n]);
    CutSlices(s, size, k, n);
  }

  lemma CutSlices<T>(s: seq<T>, size: nat, k: nat, n: nat)
    requires size <= k <= |s| && n <= k - size
    ensures var tail := s[size..][..k - size];
      && |tail| == k - size && tail[..k - size] == tail && s[..k] == s[..size] + tail
      && s[..k][..k - n] == s[..size] + tail[..k - size - n]
      && s[..k][k - n..] == tail[k - size - n..]
  {
  }

  /** A character cut short, by its bytes. */
  lemma Unfinished(s: seq<Byte>, k: nat)
    requires 0 < k < CharSize(s)
    ensures k <= 3 && CutAt(s[..k], k)
  {
    var trail := s[..k];
    assert trail[|trail| - k..] == trail && trail[..|trail| - k] == [];
  }

  lemma {:induction false} TrimFinds(b: seq<Byte>, n: nat, m: nat)
    requires 0 < n <= m <= MAX_INCOMPLETE_TRAIL && m <= |b| && CutAt(b, m)
    ensures WithoutIncompleteTrail(b, n).Some?
    decreases m - n
  {
    hide CutAt;
    if !CutAt(b, n) {
      TrimFinds(b, n + 1, m);
    }
  }

  /** Text cut by the budget is written as text: its longest beginning that is, at most three bytes shorter. */
  lemma CutIsMended(s: seq<Byte>, k: nat)
    requires Valid(s) && k <= |s|
    ensures EncodeText(s[..k], true) == Plain(ValidPrefix(s[..k]))
    ensures Valid(ValidPrefix(s[..k])) && |ValidPrefix(s[..k])| + 3 >= k
  {
    var n := CutText(s, k);
    var b := s[..k];
    ValidPrefixIsValid(b);
    hide CutAt, ValidPrefix, Valid, WithoutIncompleteTrail;
    if Valid(b) {
      ValidIsOwnPrefix(b);
    } else {
      TrimFinds(b, 1, n);
      TrimIsLongest(b, 1);
    }
  }

  // ----- no base64 for text -----

  /** Every string in it is text. */
  predicate AllText(v: Value)
    decreases v
  {
    match v
    case Text(b) => Valid(b)
    case Array(items) => AllTextAll(items)
    case _ => true
  }

  predicate AllTextAll(vs: seq<Value>)
    decreases vs
  {
    vs == [] || (AllText(vs[0]) && AllTextAll(vs[1..]))
  }

  /** A value as it is, with no string mended. */
  function Rendered(v: Value): Output
    decreases v
  {
    match v
    case Array(items) => List(RenderedAll(items))
    case Integer(n) => Number(n)
    case Nil => Null
    case Error(message) => Failed(message)
    case Text(b) => Plain(b)
  }

  function RenderedAll(vs: seq<Value>): (r: seq<Output>)
    ensures |r| == |vs|
    decreases vs
  {
    if vs == [] then [] else [Rendered(vs[0])] + RenderedAll(vs[1..])
  }

  /** A value whose last string ends at its last whole character. */
  function Mended(v: Value): Value
    decreases v
  {
    match v
    case Text(b) => Text(ValidPrefix(b))
    case Array(vs) => Array(MendedLast(vs))
    case _ => v
  }

  function MendedLast(vs: seq<Value>): (r: seq<Value>)
    ensures |r| == |vs|
    decreases vs
  {
    if vs == [] then [] else if |vs| == 1 then [Mended(vs[0])] else [vs[0]] + MendedLast(vs[1..])
  }

  lemma {:induction false} TextIsRendered(v: Value, cut: int, leaf: nat)
    requires AllText(v)
    ensures EncodeValue(v, cut, leaf) == Rendered(v)
    decreases v
  {
    match v
    case Array(items) => TextsAreRendered(items, cut, leaf);
    case _ =>
  }

  lemma {:induction false} TextsAreRendered(vs: seq<Value>, cut: int, leaf: nat)
    requires AllTextAll(vs)
    ensures EncodeAll(vs, cut, leaf) == RenderedAll(vs)
    decreases vs
  {
    if vs != [] {
      TextIsRendered(vs[0], cut, leaf);
      TextsAreRendered(vs[1..], cut, leaf + Leaves(vs[0]));
    }
  }

  /** The string the budget cut is the last leaf, and the one that is mended. */
  lemma {:induction false} CutIsTheLastLeaf(v: Value, full: Value, leaf: nat)
    requires CutShort(v, full) && AllText(full)
    ensures Leaves(v) > 0
    ensures EncodeValue(v, leaf + Leaves(v) - 1, leaf) == Rendered(Mended(v))
    decreases v
  {
    match v
    case Array(vs) => CutIsAmongTheLast(vs, full.items, leaf);
    case Text(b) =>
      assert b == full.bytes[..|b|];
      CutIsMended(full.bytes, |b|);
  }

  lemma {:induction false} CutIsAmongTheLast(vs: seq<Value>, fulls: seq<Value>, leaf: nat)
    requires CutAmong(vs, fulls) && AllTextAll(fulls)
    ensures LeavesAll(vs) > 0
    ensures EncodeAll(vs, leaf + LeavesAll(vs) - 1, leaf) == RenderedAll(MendedLast(vs))
    decreases vs
  {
    if |vs| == 1 {
      CutIsTheLastLeaf(vs[0], fulls[0], leaf);
      hide CutShort, AllText, Mended, Rendered, EncodeValue, Leaves;
      assert vs[1..] == [];
      assert MendedLast(vs)[1..] == [];
    } else {
      TextIsRendered(vs[0], leaf + LeavesAll(vs) - 1, leaf);
      CutIsAmongTheLast(vs[1..], fulls[1..], leaf + Leaves(vs[0]));
      hide CutShort, AllText, Mended, Rendered, EncodeValue, Leaves;
      assert MendedLast(vs)[1..] == MendedLast(vs[1..]);
    }
  }

  predicate HasBase64(o: Output)
    decreases o
  {
    match o
    case Base64(_) => true
    case List(items) => AnyBase64(items)
    case _ => false
  }

  predicate AnyBase64(os: seq<Output>)
    decreases os
  {
    os != [] && (HasBase64(os[0]) || AnyBase64(os[1..]))
  }

  lemma {:induction false} RenderedHasNone(v: Value)
    ensures !HasBase64(Rendered(v))
    decreases v
  {
    match v
    case Array(items) => RenderedHaveNone(items);
    case _ =>
  }

  lemma {:induction false} RenderedHaveNone(vs: seq<Value>)
    ensures !AnyBase64(RenderedAll(vs))
    decreases vs
  {
    if vs != [] {
      RenderedHasNone(vs[0]);
      RenderedHaveNone(vs[1..]);
    }
  }

  /** The bytes of its strings, depth first. */
  function Strings(v: Value): seq<Byte>
    decreases v
  {
    match v
    case Text(b) => b
    case Array(items) => StringsAll(items)
    case _ => []
  }

  function StringsAll(vs: seq<Value>): seq<Byte>
    decreases vs
  {
    if vs == [] then [] else Strings(vs[0]) + StringsAll(vs[1..])
  }

  lemma {:induction false} StringsSize(v: Value)
    ensures |Strings(v)| == Bytes(v)
    decreases v
  {
    match v
    case Array(items) => StringsSizes(items);
    case _ =>
  }

  lemma {:induction false} StringsSizes(vs: seq<Value>)
    ensures |StringsAll(vs)| == BytesAll(vs)
    decreases vs
  {
    if vs != [] {
      StringsSize(vs[0]);
      StringsSizes(vs[1..]);
    }
  }

  /** Strings that are text make text together. */
  lemma {:induction false} TextTogether(v: Value)
    requires AllText(v)
    ensures Valid(Strings(v))
    decreases v
  {
    match v
    case Array(items) => TextsTogether(items);
    case _ =>
  }

  lemma {:induction false} TextsTogether(vs: seq<Value>)
    requires AllTextAll(vs)
    ensures Valid(StringsAll(vs))
    decreases vs
  {
    if vs != [] {
      TextTogether(vs[0]);
      TextsTogether(vs[1..]);
      hide Valid;
      ValidAppend(Strings(vs[0]), StringsAll(vs[1..]));
    }
  }

  /** A reply of text cut short has the bytes of the whole up to the cut, and is text if they are. */
  lemma {:induction false} CutStrings(v: Value, full: Value)
    requires CutShort(v, full) && AllText(full)
    ensures Strings(v) <= Strings(full)
    ensures AllText(v) <==> Valid(Strings(v))
    decreases v
  {
    match v
    case Array(vs) => CutStringsAmong(vs, full.items);
    case _ =>
  }

  lemma {:induction false} CutStringsAmong(vs: seq<Value>, fulls: seq<Value>)
    requires CutAmong(vs, fulls) && AllTextAll(fulls)
    ensures StringsAll(vs) <= StringsAll(fulls)
    ensures AllTextAll(vs) <==> Valid(StringsAll(vs))
    decreases vs
  {
    if |vs| == 1 {
      CutStrings(vs[0], fulls[0]);
      assert Strings(vs[0]) + [] == Strings(vs[0]);
    } else {
      CutStringsAmong(vs[1..], fulls[1..]);
      TextTogether(vs[0]);
      hide Valid;
      ValidAppend(Strings(vs[0]), StringsAll(vs[1..]));
    }
  }

  /** Where no string is mended, those that are not text go out as base64. */
  lemma {:induction false} NoneMended(v: Value, leaf: nat)
    ensures HasBase64(EncodeValue(v, -1, leaf)) <==> !AllText(v)
    decreases v
  {
    match v
    case Array(items) => NoneMendedAmong(items, leaf);
    case _ =>
  }

  lemma {:induction false} NoneMendedAmong(vs: seq<Value>, leaf: nat)
    ensures AnyBase64(EncodeAll(vs, -1, leaf)) <==> !AllTextAll(vs)
    decreases vs
  {
    if vs != [] {
      NoneMended(vs[0], leaf);
      NoneMendedAmong(vs[1..], leaf + Leaves(vs[0]));
    }
  }

  /** The label is that of a capped array, yet a string after it was cut, inside a character. */
  predicate HidesBrokenText(raw: Raw, max: nat, budget: nat) {
    && CapFirst(FirstCap(raw, max), budget)
    && budget < |Strings(Capped(raw, max))|
    && !Valid(Strings(Capped(raw, max))[..budget])
  }

  /** A label of a capped array mends nothing. */
  lemma CappedTextStaysText(raw: Raw, max: nat, budget: nat)
    requires BoundReply(raw, max, budget).Ok? && AllText(Capped(raw, max))
    ensures var v := BoundReply(raw, max, budget).value.0;
      && Bytes(Capped(raw, max)) == |Strings(Capped(raw, max))|
      && (HasBase64(EncodeValue(v, -1, 0)) <==>
          budget < |Strings(Capped(raw, max))| && !Valid(Strings(Capped(raw, max))[..budget]))
      && (HasBase64(EncodeValue(v, -1, 0)) || EncodeValue(v, -1, 0) == Rendered(v))
  {
    hide *;
    var v, full := BoundReply(raw, max, budget).value.0, Capped(raw, max);
    ReplyIsAPrefix(raw, max, budget);
    NoneMended(v, 0);
    StringsSize(v);
    StringsSize(full);
    if Bytes(full) > budget {
      CutStrings(v, full);
      assert Strings(v) == Strings(full)[..budget];
    }
    if AllText(v) {
      TextIsRendered(v, -1, 0);
    }
  }

  /**
    From the driver's reply to what a client reads: a reply all of whose strings are text goes out
    with base64 in it if and only if an array was over its cap before the budget ran out, and the
    budget then ran out inside a character. Otherwise it is written as it is, except that where no
    capped array's label hides it, the one string the budget cut, which is the last leaf, ends at its
    last whole character.
   */
  lemma TextStaysText(raw: Raw, max: nat, budget: nat)
    requires BoundReply(raw, max, budget).Ok? && AllText(Capped(raw, max))
    ensures var (v, truncation) := BoundReply(raw, max, budget).value;
      && (HasBase64(EncodeReply(v, truncation)) <==> HidesBrokenText(raw, max, budget))
      && (HidesBrokenText(raw, max, budget) ||
          EncodeReply(v, truncation) ==
          Rendered(if CapFirst(FirstCap(raw, max), budget) || |Strings(Capped(raw, max))| <= budget then v else Mended(v)))
  {
    hide *;
    hide EncodeReply, HidesBrokenText;
    var (v, truncation) := BoundReply(raw, max, budget).value;
    ReplyIsAPrefix(raw, max, budget);
    LabelIsTruthful(raw, max, budget);
    CappedTextStaysText(raw, max, budget);
    EncodedAs(v, truncation);
    BrokenText(raw, max, budget);
    if truncation == Whole {
      WholeIsCapped(raw, max, budget);
    } else if truncation == ByteBudget {
      CutIsTheLastLeaf(v, Capped(raw, max), 0);
      RenderedHasNone(Mended(v));
    }
  }

  lemma EncodedAs(v: Value, truncation: Truncation)
    ensures EncodeReply(v, truncation) == EncodeValue(v, if truncation == ByteBudget then Leaves(v) - 1 else -1, 0)
  {
  }

  lemma BrokenText(raw: Raw, max: nat, budget: nat)
    ensures HidesBrokenText(raw, max, budget) <==>
            && CapFirst(FirstCap(raw, max), budget)
            && budget < |Strings(Capped(raw, max))|
            && !Valid(Strings(Capped(raw, max))[..budget])
  {
  }

  lemma WholeIsCapped(raw: Raw, max: nat, budget: nat)
    requires BoundReply(raw, max, budget).Ok? && BoundReply(raw, max, budget).value.1 == Whole
    ensures BoundReply(raw, max, budget).value.0 == Capped(raw, max) && Bytes(Capped(raw, max)) <= budget
  {
    LabelIsTruthful(raw, max, budget);
    FitIsWhole(raw, max);
  }

  /** The exception: the label of an array over its cap hides that a string was cut, and the cut text goes out as base64. */
  lemma HiddenCutIsNotMended()
    ensures var raw := RawArray([RawArray([RawNil, RawNil, RawNil]), RawText([0xC3, 0xA9])]);
      && AllText(Full(raw)) && BoundReply(raw, 2, 1).Ok?
      && var (v, truncation) := BoundReply(raw, 2, 1).value;
         EncodeReply(v, truncation) == List([List([Null, Null]), Base64([0xC3])])
  {
    FirstLabelHidesTheCut();
    TextIsCharacter();
    var cut: seq<Byte> := [0xC3];
    PairIsText([RawNil, RawNil, RawNil], RawText([0xC3, 0xA9]));
    assert EncodeValue(Nil, -1, 0) == EncodeValue(Nil, -1, 1) == Null;
    assert EncodeValue(Text(cut), -1, 2) == Base64(cut);
    hide EncodeText, AllText, Full, Valid, BoundReply;
    EncodedPair(Nil, Nil);
    EncodedPair(Array([Nil, Nil]), Text(cut));
  }

  lemma EncodedPair(a: Value, b: Value)
    ensures Leaves(Array([a, b])) == Leaves(a) + Leaves(b)
    ensures EncodeValue(Array([a, b]), -1, 0) == List([EncodeValue(a, -1, 0), EncodeValue(b, -1, Leaves(a))])
  {
    var one, two := [b], [a, b];
    assert two[1..] == one && one[1..] == [];
    assert LeavesAll(one) == Leaves(b);
    assert LeavesAll(two) == Leaves(two[0]) + LeavesAll(two[1..]);
    assert EncodeAll(one, -1, Leaves(a)) == [EncodeValue(b, -1, Leaves(a))];
    assert EncodeAll(two, -1, 0) == [EncodeValue(two[0], -1, 0)] + EncodeAll(two[1..], -1, Leaves(two[0]));
  }

  lemma PairIsText(nils: seq<Raw>, text: Raw)
    requires (forall i :: 0 <= i < |nils| ==> nils[i] == RawNil) && AllText(Full(text))
    ensures AllText(Full(RawArray([RawArray(nils), text])))
  {
    NilsAreText(nils);
    var a, b := Full(RawArray(nils)), Full(text);
    assert [text][1..] == [] && [RawArray(nils), text][1..] == [text];
    assert FullAll([text]) == [b] && FullAll([RawArray(nils), text]) == [a, b];
    assert [b][1..] == [] && [a, b][1..] == [b];
    assert AllTextAll([b]) && AllTextAll([a, b]);
  }

  lemma TextIsCharacter()
    ensures Valid([0xC3, 0xA9]) && !Valid([0xC3])
  {
    var s: seq<Byte> := [0xC3, 0xA9];
    assert s[2..] == [];
  }

  lemma {:induction false} NilsAreText(items: seq<Raw>)
    requires forall i :: 0 <= i < |items| ==> items[i] == RawNil
    ensures AllTextAll(FullAll(items))
  {
    if items != [] {
      NilsAreText(items[1..]);
      assert FullAll(items)[1..] == FullAll(items[1..]);
    }
  }
}
