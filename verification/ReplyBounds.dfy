/**
  Cutting a Redis reply to size (internal/redisdb/reply.go): arrays are capped, the bytes of all the
  strings together are budgeted, and everything after the string that overruns the budget is dropped.
 */
module ReplyBounds {
  import opened Wrappers

  type Byte = b: int | 0 <= b < 256

  /** What the driver hands over; `Foreign` is any type a RESP2 reply cannot hold. */
  datatype Raw =
    | RawNil
    | RawInteger(n: int)
    | RawText(s: seq<Byte>)
    | RawError(message: string)
    | RawArray(items: seq<Raw>)
    | Foreign

  datatype Value = Nil | Integer(n: int) | Text(bytes: seq<Byte>) | Error(message: string) | Array(items: seq<Value>)

  datatype Truncation = Whole | ElementCap | ByteBudget

  datatype ReplyError = ForeignType

  datatype Bounds = Bounds(remaining: nat, truncation: Truncation, exhausted: bool)

  function Cut(b: Bounds, reason: Truncation): Bounds {
    if b.truncation == Whole then b.(truncation := reason) else b
  }

  function BoundText(s: seq<Byte>, b: Bounds): (Value, Bounds) {
    if |s| <= b.remaining then (Text(s), b.(remaining := b.remaining - |s|))
    else (Text(s[..b.remaining]), Cut(b.(remaining := 0, exhausted := true), ByteBudget))
  }

  function BoundValue(raw: Raw, max: nat, b: Bounds): Result<(Value, Bounds), ReplyError>
    decreases raw
  {
    match raw
    case RawNil => Ok((Nil, b))
    case RawInteger(n) => Ok((Integer(n), b))
    case RawText(s) => Ok(BoundText(s, b))
    case RawError(message) => Ok((Error(message), b))
    case Foreign => Err(ForeignType)
    case RawArray(items) =>
      var n := Min(|items|, max);
      match BoundItems(items, n, max, b)
      case Err(e) => Err(e)
      case Ok((out, later)) =>
        Ok((Array(out), if n > 0 && later.exhausted then later else if |items| > n then Cut(later, ElementCap) else later))
  }

  /** The first `n` items, stopping after the one that exhausts the budget. */
  function BoundItems(items: seq<Raw>, n: nat, max: nat, b: Bounds): Result<(seq<Value>, Bounds), ReplyError>
    requires n <= |items|
    decreases items
  {
    if n == 0 then Ok(([], b))
    else
      match BoundValue(items[0], max, b)
      case Err(e) => Err(e)
      case Ok((v, later)) =>
        if later.exhausted then Ok(([v], later))
        else
          match BoundItems(items[1..], n - 1, max, later)
          case Err(e) => Err(e)
          case Ok((rest, last)) => Ok(([v] + rest, last))
  }

  /** A whole reply, under a fresh budget: what is answered, and how it is labelled. */
  function BoundReply(raw: Raw, max: nat, budget: nat): Result<(Value, Truncation), ReplyError> {
    match BoundValue(raw, max, Bounds(budget, Whole, false))
    case Err(e) => Err(e)
    case Ok((v, b)) => Ok((v, b.truncation))
  }

  function Joined(out: seq<Value>, rest: Result<(seq<Value>, Bounds), ReplyError>)
    : Result<(seq<Value>, Bounds), ReplyError>
  {
    match rest
    case Err(e) => Err(e)
    case Ok((vs, b)) => Ok((out + vs, b))
  }

  lemma ItemsStart(items: seq<Raw>, n: nat, max: nat, b: Bounds)
    requires n <= |items|
    ensures BoundItems(items, n, max, b) == Joined([], BoundItems(items[0..], n, max, b))
  {
    assert items[0..] == items;
    hide BoundItems;
    var r := BoundItems(items, n, max, b);
    assert r.Ok? ==> [] + r.value.0 == r.value.0;
  }

  lemma ItemsStep(out: seq<Value>, items: seq<Raw>, i: nat, n: nat, max: nat, b: Bounds)
    requires i < n <= |items|
    ensures var all := Joined(out, BoundItems(items[i..], n - i, max, b));
      match BoundValue(items[i], max, b)
      case Err(e) => all == Err(e)
      case Ok((v, later)) =>
        && (later.exhausted ==> all == Ok((out + [v], later)))
        && (!later.exhausted ==> all == Joined(out + [v], BoundItems(items[i + 1..], n - (i + 1), max, later)))
  {
    assert items[i..][0] == items[i] && items[i..][1..] == items[i + 1..];
    hide BoundValue;
    var head := BoundValue(items[i], max, b);
    if head.Ok? && !head.value.1.exhausted {
      var rest := BoundItems(items[i + 1..], n - (i + 1), max, head.value.1);
      assert rest.Ok? ==> out + ([head.value.0] + rest.value.0) == out + [head.value.0] + rest.value.0;
    }
  }

  lemma ItemsEnd(out: seq<Value>, items: seq<Raw>, n: nat, max: nat, b: Bounds)
    requires n <= |items|
    ensures Joined(out, BoundItems(items[n..], 0, max, b)) == Ok((out, b))
  {
    assert out + [] == out;
  }

  // ----- as it runs: one set of bounds, updated along the way -----

  class Bounder {
    const maxElements: nat
    var remaining: nat
    var truncation: Truncation
    var exhausted: bool

    constructor (maxElements: nat, byteBudget: nat)
      ensures this.maxElements == maxElements && State() == Bounds(byteBudget, Whole, false)
    {
      this.maxElements, remaining, truncation, exhausted := maxElements, byteBudget, Whole, false;
    }

    function State(): Bounds
      reads this
    {
      Bounds(remaining, truncation, exhausted)
    }

    method Shorten(reason: Truncation)
      modifies this
      ensures State() == Cut(old(State()), reason)
    {
      if truncation == Whole {
        truncation := reason;
      }
    }

    method ReadValue(raw: Raw) returns (r: Result<Value, ReplyError>)
      modifies this
      ensures match BoundValue(raw, maxElements, old(State()))
              case Err(e) => r == Err(e)
              case Ok((v, b)) => r == Ok(v) && State() == b
      decreases raw, 1
    {
      match raw {
        case RawNil => r := Ok(Nil);
        case RawInteger(n) => r := Ok(Integer(n));
        case RawText(s) =>
          var v := ReadText(s);
          r := Ok(v);
        case RawError(message) => r := Ok(Error(message));
        case RawArray(_) => r := ReadArray(raw);
        case Foreign => r := Err(ForeignType);
      }
    }

    method ReadText(s: seq<Byte>) returns (v: Value)
      modifies this
      ensures (v, State()) == BoundText(s, old(State()))
    {
      if |s| <= remaining {
        remaining := remaining - |s|;
        return Text(s);
      }
      var kept := s[..remaining];
      remaining := 0;
      exhausted := true;
      Shorten(ByteBudget);
      v := Text(kept);
    }

    method ReadArray(raw: Raw) returns (r: Result<Value, ReplyError>)
      requires raw.RawArray?
      modifies this
      ensures match BoundValue(raw, maxElements, old(State()))
              case Err(e) => r == Err(e)
              case Ok((v, b)) => r == Ok(v) && State() == b
      decreases raw, 0
    {
      var items := raw.items;
      var n := Min(|items|, maxElements);
      ghost var all := BoundItems(items, n, maxElements, State());
      assert BoundValue(raw, maxElements, State()) ==
             match all
             case Err(e) => Err(e)
             case Ok((out, later)) =>
               Ok((Array(out),
                   if n > 0 && later.exhausted then later else if |items| > n then Cut(later, ElementCap) else later));
      hide BoundValue, BoundItems, Joined;
      ItemsStart(items, n, maxElements, State());
      var out: seq<Value> := [];
      var i := 0;
      while i < n
        invariant i <= n
        invariant all == Joined(out, BoundItems(items[i..], n - i, maxElements, State()))
        invariant i > 0 ==> !exhausted
      {
        ItemsStep(out, items, i, n, maxElements, State());
        var v := ReadValue(items[i]);
        if v.Err? {
          return Err(v.error);
        }
        out := out + [v.value];
        if exhausted {
          return Ok(Array(out));
        }
        i := i + 1;
      }
      ItemsEnd(out, items, n, maxElements, State());
      if |items| > n {
        Shorten(ElementCap);
      }
      r := Ok(Array(out));
    }
  }

  method Bound(raw: Raw, maxElements: nat, byteBudget: nat) returns (r: Result<(Value, Truncation), ReplyError>)
    ensures r == BoundReply(raw, maxElements, byteBudget)
  {
    var b := new Bounder(maxElements, byteBudget);
    var v := b.ReadValue(raw);
    r := match v case Err(e) => Err(e) case Ok(value) => Ok((value, b.truncation));
  }
}
