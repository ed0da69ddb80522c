/**
  Why the Redis gate refuses the arguments of a command it serves: of options read one after another,
  the first that cannot be read, and what is wrong with it; of any other argument, the first check it
  fails.
 */
module RedisRefusals {
  import opened Wrappers
  import opened RedisText
  import opened RedisRules
  import opened RedisGrammar
  import opened RedisServed

  // ----- the values of an option -----

  predicate Below(s: string, n: int) { ParseInt(s).Some? && ParseInt(s).value < n }

  predicate Above(s: string, n: int) { ParseInt(s).Some? && ParseInt(s).value > n }

  /** What is wrong with a value, where something is. */
  lemma ValuesRefused(limits: Limits, a: string, b: string)
    requires Usable(limits)
    ensures CheckValues(limits, CountOf, [a]) ==
              if !Whole(a) || Below(a, 1) then Refuse(InvalidArgument)
              else if Above(a, limits.maxCount) then Refuse(CountTooLarge) else None
    ensures CheckValues(limits, MatchesOf, [a]) ==
              if !Whole(a) || Below(a, 0) then Refuse(InvalidArgument)
              else if Above(a, limits.maxCount) then Refuse(CountTooLarge) else None
    ensures CheckValues(limits, RankOf, [a]) ==
              if !Whole(a) || a == "0" || ParseInt(a).value == -9223372036854775808 then Refuse(InvalidArgument)
              else None
    ensures CheckValues(limits, MaxlenOf, [a]) ==
              if !Whole(a) || Below(a, 0) then Refuse(InvalidArgument)
              else if a == "0" || Above(a, limits.maxElements) then Refuse(TooManyElements) else None
    ensures CheckValues(limits, LimitOf, [a, b]) ==
              if !Whole(a) || Below(a, 0) || !Whole(b) then Refuse(InvalidArgument)
              else if Below(b, 0) || Above(b, limits.maxElements) then Refuse(TooManyElements)
              else if ParseInt(a).value + ParseInt(b).value > limits.maxElements then Refuse(TraversalTooDeep)
              else None
    ensures CheckValues(limits, UnitLast, [a, b]) == if Length(b) then None else Unknown(1)
  {
    ZeroIs(a);
    hide ParseInt, Lower;
  }

  lemma ZeroIs(s: string)
    ensures ParseInt(s) == Some(0) <==> s == "0"
  {
    ParsesExactlyThePrinted(s, 0);
    assert PrintNat(0) == "0";
    hide ParseInt;
  }

  // ----- the first option that cannot be read -----

  /** The word an option begins with, what it is about, and how many values it takes. */
  predicate Opens(table: Table, w: string, k: Key, values: nat) {
    match table
    case ScanTable(extra) =>
      || (Is(w, "match") && k == MatchKey && values == 1)
      || (Is(w, "count") && k == CountKey && values == 1)
      || (extra == "type" && Is(w, "type") && k == TypeKey && values == 1)
      || (extra == "novalues" && Is(w, "novalues") && k == NoValuesKey && values == 0)
    case ListPosTable =>
      || (Is(w, "rank") && k == RankKey && values == 1)
      || (Is(w, "count") && k == CountKey && values == 1)
      || (Is(w, "maxlen") && k == MaxlenKey && values == 1)
    case ZRangeTable =>
      || (Is(w, "byscore") && k == ByScoreKey && values == 0)
      || (Is(w, "bylex") && k == ByLexKey && values == 0)
      || (Is(w, "rev") && k == RevKey && values == 0)
      || (Is(w, "withscores") && k == WithScoresKey && values == 0)
      || (Is(w, "limit") && k == LimitKey && values == 2)
    case ZRangeByTable(scores) =>
      || (scores && Is(w, "withscores") && k == WithScoresKey && values == 0)
      || (Is(w, "limit") && k == LimitKey && values == 2)
    case XRangeTable => Is(w, "count") && k == CountKey && values == 1
    case GeoTable =>
      || (Is(w, "frommember") && k == FromKey && values == 1)
      || (Is(w, "fromlonlat") && k == FromKey && values == 2)
      || (Is(w, "byradius") && k == ByKey && values == 2)
      || (Is(w, "bybox") && k == ByKey && values == 3)
      || ((Is(w, "asc") || Is(w, "desc")) && k == OrderKey && values == 0)
      || (Is(w, "count") && k == CountKey && values == 1)
      || (Is(w, "withcoord") && k == WithCoordKey && values == 0)
      || (Is(w, "withdist") && k == WithDistKey && values == 0)
      || (Is(w, "withhash") && k == WithHashKey && values == 0)
  }

  /** What an option's values have to be. */
  function RuleOf(table: Table, k: Key): ValueRule {
    if k == CountKey then if table == ListPosTable then MatchesOf else CountOf
    else if k == RankKey then RankOf
    else if k == MaxlenKey then MaxlenOf
    else if k == LimitKey then LimitOf
    else if k == ByKey then UnitLast
    else Anything
  }

  /** GEOSEARCH calls two origins, or two areas, invalid; anything else said twice is a duplicate. */
  function Again(k: Key): Reason {
    if k == FromKey || k == ByKey then InvalidArgument else DuplicateArgument
  }

  lemma GeoOpens(w: string, k: Key, values: nat)
    ensures Opens(GeoTable, w, k, values) <==>
              && Find(GeoTable, Lower(w)).Some?
              && Find(GeoTable, Lower(w)).value.key == k && Find(GeoTable, Lower(w)).value.arity == values
  {
    hide Lower;
  }

  lemma OpensIs(table: Table, w: string, k: Key, values: nat)
    ensures Opens(table, w, k, values) <==>
              && Find(table, Lower(w)).Some?
              && Find(table, Lower(w)).value.key == k && Find(table, Lower(w)).value.arity == values
  {
    if table.GeoTable? {
      GeoOpens(w, k, values);
    } else {
      hide Lower;
    }
  }

  lemma GeoFound(w: string)
    requires Find(GeoTable, w).Some?
    ensures var opt := Find(GeoTable, w).value;
      opt.rule == RuleOf(GeoTable, opt.key) && opt.again == Again(opt.key) && (opt.trailer == "" || opt.trailer == "any")
  {
  }

  lemma FoundIs(table: Table, w: string)
    requires Find(table, w).Some?
    ensures var opt := Find(table, w).value;
      && opt.rule == RuleOf(table, opt.key) && opt.again == Again(opt.key)
      && (opt.trailer == "" || opt.trailer == "any")
      && Find(table, opt.trailer).None?
  {
    FindIsSane(table, w);
    if table.GeoTable? {
      GeoFound(w);
      hide Find;
    }
  }

  lemma SaysIsHeld(table: Table, limits: Limits, o: seq<string>, k: Key)
    requires Usable(limits) && Says(table, limits, o, k)
    ensures Holds(table, limits, o, k)
  {
    hide Says, Holds;
    if table.GeoTable? {
      GeoHolds(limits, o, k);
    } else {
      SaysHolds(table, limits, o, k);
    }
  }

  /** What follows is no ANY that the option before it would take. */
  predicate NoAny(table: Table, tail: seq<string>) {
    tail == [] || Find(table, Lower(tail[0])).Some? || !Is(tail[0], "any")
  }

  lemma NextIsNoAny(table: Table, limits: Limits, os: seq<seq<string>>, ks: seq<Key>, rest: seq<string>)
    requires Usable(limits) && |os| == |ks| && forall j :: 0 <= j < |os| ==> Says(table, limits, os[j], ks[j])
    requires rest == [] || !Is(rest[0], "any")
    ensures NoAny(table, Joined(os) + rest)
  {
    if os == [] {
      assert Joined(os) + rest == rest;
    } else {
      assert Says(table, limits, os[0], ks[0]);
      SaysIsHeld(table, limits, os[0], ks[0]);
      assert (Joined(os) + rest)[0] == os[0][0];
    }
    hide Says, Find, CheckValues, Lower;
  }

  lemma OptionPlace(args: seq<string>, i: nat, o: seq<string>, tail: seq<string>, n: nat)
    requires i <= |args| && args[i..] == o + tail && n < |o|
    ensures i + |o| <= |args| && args[i] == o[0] && args[i + 1..i + 1 + n] == o[1..1 + n] && args[i + |o|..] == tail
    ensures n + 1 < |o| ==> args[i + 1 + n] == o[1 + n]
    ensures i + |o| < |args| <==> tail != []
    ensures tail != [] ==> args[i + |o|] == tail[0]
  {
    assert |args| == i + |o| + |tail|;
    assert forall k :: 0 <= k < |o| + |tail| ==> args[i + k] == args[i..][k];
  }

  lemma TakenIs(table: Table, args: seq<string>, i: nat, o: seq<string>, tail: seq<string>, opt: Opt)
    requires i <= |args| && args[i..] == o + tail && o != [] && Find(table, Lower(o[0])) == Some(opt)
    requires |o| == 1 + opt.arity || (opt.trailer != "" && |o| == 2 + opt.arity && Lower(o[1 + opt.arity]) == opt.trailer)
    requires NoAny(table, tail)
    ensures i + opt.arity < |args| && Taken(opt, args, i) == |o|
  {
    OptionPlace(args, i, o, tail, opt.arity);
    FoundIs(table, Lower(o[0]));
    hide Find, Lower;
  }

  /** The option some words are. */
  lemma HeldOption(table: Table, limits: Limits, o: seq<string>, k: Key) returns (opt: Opt)
    requires Holds(table, limits, o, k)
    ensures o != [] && Find(table, Lower(o[0])) == Some(opt) && opt.key == k && opt.arity < |o|
    ensures |o| == 1 + opt.arity || (opt.trailer != "" && |o| == 2 + opt.arity && Lower(o[1 + opt.arity]) == opt.trailer)
    ensures CheckValues(limits, opt.rule, o[1..1 + opt.arity]).None?
  {
    hide Find, Lower, CheckValues;
    opt := Find(table, Lower(o[0])).value;
  }

  lemma FirstRead(
    table: Table, limits: Limits, args: seq<string>, offset: nat, i: nat, seen: set<Key>, o: seq<string>, k: Key,
    tail: seq<string>)
    requires Usable(limits) && i <= |args| && args[i..] == o + tail && Says(table, limits, o, k) && k !in seen
    requires NoAny(table, tail)
    ensures i + |o| <= |args|
    ensures Options(table, limits, args, offset, i, seen) == Options(table, limits, args, offset, i + |o|, seen + {k})
  {
    hide *;
    SaysIsHeld(table, limits, o, k);
    var opt := HeldOption(table, limits, o, k);
    OptionPlace(args, i, o, tail, opt.arity);
    TakenIs(table, args, i, o, tail, opt);
    OptionsStep(table, limits, args, offset, i, seen, opt);
  }

  lemma JoinedStep(os: seq<seq<string>>, rest: seq<string>)
    ensures os == [] ==> Joined(os) == []
    ensures os != [] ==>
              && Joined(os) == os[0] + Joined(os[1..]) && |Joined(os)| == |os[0]| + |Joined(os[1..])|
              && Joined(os) + rest == os[0] + (Joined(os[1..]) + rest)
  {
  }

  lemma KeysStep(seen: set<Key>, ks: seq<Key>)
    ensures ks == [] ==> Together(seen, ks) == seen
    ensures ks != [] ==> Together(seen + {ks[0]}, ks[1..]) == Together(seen, ks)
  {
    if ks != [] {
      assert ks == [ks[0]] + ks[1..];
    }
  }

  function Together(seen: set<Key>, ks: seq<Key>): set<Key> {
    seen + set k | k in ks
  }

  lemma LaterKeys(seen: set<Key>, ks: seq<Key>)
    requires ks != [] && (forall j :: 0 <= j < |ks| ==> ks[j] !in seen)
    requires forall j, m :: 0 <= j < m < |ks| ==> ks[j] != ks[m]
    ensures forall j :: 0 <= j < |ks[1..]| ==> ks[1..][j] !in seen + {ks[0]}
    ensures forall j, m :: 0 <= j < m < |ks[1..]| ==> ks[1..][j] != ks[1..][m]
  {
  }

  /** Options are read over one after another, as long as what follows is no ANY for the last. */
  lemma {:induction false} ReadsOver(
    table: Table, limits: Limits, args: seq<string>, offset: nat, i: nat, seen: set<Key>, os: seq<seq<string>>, ks: seq<Key>,
    rest: seq<string>)
    requires Usable(limits) && i <= |args| && args[i..] == Joined(os) + rest && |os| == |ks|
    requires forall j :: 0 <= j < |os| ==> Says(table, limits, os[j], ks[j])
    requires forall j :: 0 <= j < |ks| ==> ks[j] !in seen
    requires forall j, m :: 0 <= j < m < |ks| ==> ks[j] != ks[m]
    requires rest == [] || !Is(rest[0], "any")
    ensures i + |Joined(os)| <= |args|
    ensures Options(table, limits, args, offset, i, seen) ==
              Options(table, limits, args, offset, i + |Joined(os)|, Together(seen, ks))
    decreases |os|
  {
    hide *;
    JoinedStep(os, rest);
    KeysStep(seen, ks);
    if os != [] {
      var o, tail := os[0], Joined(os[1..]) + rest;
      assert Says(table, limits, o, ks[0]);
      assert forall j :: 0 <= j < |os| - 1 ==> Says(table, limits, os[1..][j], ks[1..][j]);
      LaterKeys(seen, ks);
      NextIsNoAny(table, limits, os[1..], ks[1..], rest);
      FirstRead(table, limits, args, offset, i, seen, o, ks[0], tail);
      DroppedOn(args, i, o, tail);
      ReadsOver(table, limits, args, offset, i + |o|, seen + {ks[0]}, os[1..], ks[1..], rest);
    }
  }

  lemma DroppedOn(args: seq<string>, i: nat, o: seq<string>, tail: seq<string>)
    requires i <= |args| && args[i..] == o + tail
    ensures i + |o| <= |args| && args[i + |o|..] == tail
  {
    assert args[i + |o|..] == args[i..][|o|..];
  }

  /** One option read: what stops it, if something does. */
  lemma StoppedAt(table: Table, limits: Limits, args: seq<string>, offset: nat, i: nat, seen: set<Key>)
    requires i < |args|
    ensures var r := Options(table, limits, args, offset, i, seen);
      match Find(table, Lower(args[i]))
      case None => r == Err(Refusal(UnknownArgument, Some(offset + i)))
      case Some(opt) =>
        && (opt.key in seen ==> r == Err(Refusal(opt.again, None)))
        && (opt.key !in seen && i + opt.arity >= |args| ==> r == Err(Refusal(WrongArity, None)))
        && (opt.key !in seen && i + opt.arity < |args| ==>
              var wrong := CheckValues(limits, opt.rule, args[i + 1..i + 1 + opt.arity]);
              wrong.Some? ==> r == Err(Placed(wrong.value, offset + i + 1)))
  {
    hide Find, Lower, CheckValues, Taken, Placed;
  }

  /** No option of the command begins so. */
  ghost predicate Foreign(table: Table, w: string) {
    forall k, n: nat :: !Opens(table, w, k, n)
  }

  /** What is wrong with an option of this kind, after those that were read, if something is. */
  function Wrong(table: Table, limits: Limits, ks: seq<Key>, rest: seq<string>, k: Key, n: nat, at: nat): Option<Refusal>
    requires rest != []
  {
    if k in ks then Some(Refusal(Again(k), None))
    else if n >= |rest| then Some(Refusal(WrongArity, None))
    else
      match CheckValues(limits, RuleOf(table, k), rest[1..1 + n])
      case None => None
      case Some(refusal) => Some(Placed(refusal, at))
  }

  lemma OptionOpened(table: Table, w: string)
    ensures Foreign(table, w) <==> Find(table, Lower(w)).None?
    ensures forall k, n: nat :: Opens(table, w, k, n) ==>
              var opt := Find(table, Lower(w)).value;
              Find(table, Lower(w)).Some? && opt.key == k && opt.arity == n && opt.rule == RuleOf(table, k) && opt.again == Again(k)
  {
    hide Find, Lower, Opens, RuleOf, Again;
    forall k, n: nat
      ensures Opens(table, w, k, n) <==>
                Find(table, Lower(w)).Some? && Find(table, Lower(w)).value.key == k && Find(table, Lower(w)).value.arity == n
    {
      OpensIs(table, w, k, n);
    }
    if Find(table, Lower(w)).Some? {
      FoundIs(table, Lower(w));
      assert Opens(table, w, Find(table, Lower(w)).value.key, Find(table, Lower(w)).value.arity);
    }
  }

  lemma RestPlace(args: seq<string>, at: nat, rest: seq<string>)
    requires at <= |args| && args[at..] == rest && rest != []
    ensures at < |args| && args[at] == rest[0] && |args| == at + |rest|
    ensures forall n: nat {:trigger rest[1..1 + n]} :: n < |rest| ==> args[at + 1..at + 1 + n] == rest[1..1 + n]
  {
    assert args[at] == args[at..][0];
    forall n: nat {:trigger rest[1..1 + n]} | n < |rest|
      ensures args[at + 1..at + 1 + n] == rest[1..1 + n]
    {
      assert args[at..][1..1 + n] == args[at + 1..at + 1 + n];
    }
  }

  lemma JoinedDropped(os: seq<seq<string>>, rest: seq<string>)
    ensures var args := Joined(os) + rest; args[0..] == Joined(os) + rest && args[|Joined(os)|..] == rest
  {
    hide Joined;
  }

  /**
    Every option before it read, there and only there is the scan refused: at a word that begins none,
    and is named; or at one that is about what another was, has too few values, or values that are out
    of range.
   */
  lemma OptionsRefused(
    table: Table, limits: Limits, offset: nat, os: seq<seq<string>>, ks: seq<Key>, rest: seq<string>)
    requires Usable(limits) && Spelt(table, limits, Joined(os), os, ks) && rest != [] && !Is(rest[0], "any")
    ensures var r := Options(table, limits, Joined(os) + rest, offset, 0, {});
      && (Foreign(table, rest[0]) ==> r == Err(Refusal(UnknownArgument, Some(offset + |Joined(os)|))))
      && forall k, n: nat :: Opens(table, rest[0], k, n) ==>
           var wrong := Wrong(table, limits, ks, rest, k, n, offset + |Joined(os)| + 1);
           wrong.Some? ==> r == Err(wrong.value)
  {
    hide *;
    var args, at := Joined(os) + rest, |Joined(os)|;
    JoinedDropped(os, rest);
    SpeltIs(table, limits, Joined(os), os, ks);
    ReadsOver(table, limits, args, offset, 0, {}, os, ks, rest);
    RestPlace(args, at, rest);
    OptionOpened(table, rest[0]);
    StoppedAt(table, limits, args, offset, at, Together({}, ks));
    forall k, n: nat | Opens(table, rest[0], k, n)
      ensures var wrong := Wrong(table, limits, ks, rest, k, n, offset + at + 1);
        wrong.Some? ==> Options(table, limits, args, offset, at, Together({}, ks)) == Err(wrong.value)
    {
      if n < |rest| {
        assert args[at + 1..at + 1 + n] == rest[1..1 + n];
      }
      WrongThere(table, limits, args, offset, at, ks, rest, Find(table, Lower(rest[0])).value);
    }
  }

  lemma SpeltIs(table: Table, limits: Limits, args: seq<string>, os: seq<seq<string>>, ks: seq<Key>)
    requires Spelt(table, limits, args, os, ks)
    ensures |os| == |ks| && forall j :: 0 <= j < |os| ==> Says(table, limits, os[j], ks[j])
    ensures forall j, m :: 0 <= j < m < |ks| ==> ks[j] != ks[m]
  {
    hide Says;
  }

  lemma WrongThere(
    table: Table, limits: Limits, args: seq<string>, offset: nat, at: nat, ks: seq<Key>, rest: seq<string>, opt: Opt)
    requires at < |args| && rest != [] && args[at] == rest[0] && |args| == at + |rest|
    requires Find(table, Lower(args[at])) == Some(opt) && opt.rule == RuleOf(table, opt.key) && opt.again == Again(opt.key)
    requires opt.arity < |rest| ==> args[at + 1..at + 1 + opt.arity] == rest[1..1 + opt.arity]
    ensures var wrong := Wrong(table, limits, ks, rest, opt.key, opt.arity, offset + at + 1);
      wrong.Some? ==> Options(table, limits, args, offset, at, Together({}, ks)) == Err(wrong.value)
  {
    StoppedAt(table, limits, args, offset, at, Together({}, ks));
    assert opt.key in Together({}, ks) <==> opt.key in ks;
    hide Options, Find, Lower, CheckValues, RuleOf, Again, Placed, Together;
  }

  // ----- the other arguments -----

  /** How many arguments a command can have at all, before any of them is looked at. */
  predicate Sized(check: Check, n: nat) {
    match check
    case Fixed(m) => n == m
    case Variadic(prefix, least) => n >= prefix + least
    case MemoryUsage => 1 <= n <= 3
    case GetRange => n == 3
    case GetBit => n == 2
    case BitCount => n == 1 || n == 3 || n == 4
    case BitPos => 2 <= n <= 5
    case RandomOf(flag) => 1 <= n <= 2 || (n == 3 && flag != "")
    case ListIndex => n == 2
    case ListRange => n == 3
    case ZRank => 2 <= n <= 3
    case ZRevRange => 3 <= n <= 4
    case GeoDist => 3 <= n <= 4
    case XInfoStream => n >= 1
    case XPending => n >= 2
    case Scan => n >= 1
    case KeyScan(_) => n >= 2
    case ListPos => n >= 2
    case ZRange => n >= 3
    case ZRangeBy(_) => n >= 3
    case XRange => n >= 3
    case GeoSearch => n >= 1
  }

  lemma SizeRefused(check: Check, limits: Limits, args: seq<string>)
    requires !Sized(check, |args|)
    ensures Verdict(check, limits, args) == Refuse(WrongArity)
  {
    hide Options, ParseInt, Lower, Window;
  }

  /** Where a window's ends are no integers, or count from the back, or lie too far apart. */
  function WindowWrong(limits: Limits, start: string, stop: string): Option<Refusal> {
    if !Whole(start) || !Whole(stop) then Refuse(InvalidArgument)
    else if Below(start, 0) || Below(stop, 0) then Refuse(UnboundedWindow)
    else if !Narrow(limits, start, stop) then Refuse(WindowTooLarge)
    else None
  }

  lemma WindowRefused(limits: Limits, start: string, stop: string)
    requires Usable(limits)
    ensures Window(limits, start, stop) == WindowWrong(limits, start, stop)
  {
    NarrowIs(limits, start, stop);
    hide ParseInt, Wrap;
  }

  /** What each of the commands with no options finds wrong, of as many arguments as it can have. */
  function Wanting(check: Check, limits: Limits, args: seq<string>): Option<Refusal>
    requires Sized(check, |args|)
  {
    match check
    case Variadic(prefix, _) => if |args| > prefix + limits.maxElements then Refuse(TooManyElements) else None
    case MemoryUsage =>
      if |args| == 1 then None
      else if !Is(args[1], "samples") then Unknown(1)
      else if |args| == 2 then Refuse(WrongArity)
      else CheckValues(limits, MaxlenOf, [args[2]])
    case GetRange => if Whole(args[1]) && Whole(args[2]) then None else Refuse(InvalidArgument)
    case GetBit => if Whole(args[1]) && !Below(args[1], 0) then None else Refuse(InvalidArgument)
    case BitCount =>
      if |args| > 1 && !(Whole(args[1]) && Whole(args[2])) then Refuse(InvalidArgument)
      else if |args| == 4 && !Bits(args[3]) then Unknown(3)
      else None
    case BitPos =>
      if args[1] != "0" && args[1] != "1" then Refuse(InvalidArgument)
      else if (|args| > 2 && !Whole(args[2])) || (|args| > 3 && !Whole(args[3])) then Refuse(InvalidArgument)
      else if |args| == 5 && !Bits(args[4]) then Unknown(4)
      else None
    case RandomOf(flag) =>
      if |args| == 1 then None
      else if !Whole(args[1]) then Refuse(InvalidArgument)
      else if !Within(args[1], -limits.maxElements, limits.maxElements) then Refuse(TooManyElements)
      else if |args| == 3 && !Is(args[2], flag) then Unknown(2)
      else None
    case ListIndex =>
      if !Whole(args[1]) then Refuse(InvalidArgument)
      else if !Within(args[1], -limits.maxElements, limits.maxElements - 1) then Refuse(TraversalTooDeep)
      else None
    case ListRange =>
      if WindowWrong(limits, args[1], args[2]).Some? then WindowWrong(limits, args[1], args[2])
      else if Above(args[2], limits.maxElements - 1) then Refuse(TraversalTooDeep)
      else None
    case ZRank => if |args| == 3 && !Is(args[2], "withscore") then Unknown(2) else None
    case ZRevRange =>
      if |args| == 4 && !Is(args[3], "withscores") then Unknown(3) else WindowWrong(limits, args[1], args[2])
    case XInfoStream =>
      if |args| == 1 then None
      else if !Is(args[1], "full") then Unknown(1)
      else if |args| == 2 then Refuse(MissingCount)
      else if !Is(args[2], "count") then Unknown(2)
      else if |args| == 3 then Refuse(WrongArity)
      else if CheckValues(limits, CountOf, [args[3]]).Some? then CheckValues(limits, CountOf, [args[3]])
      else if |args| > 4 then Unknown(4)
      else None
    case XPending =>
      if |args| == 2 then None
      else if Is(args[2], "idle") then Refuse(TraversalTooDeep)
      else if |args| == 3 then Refuse(WrongArity)
      else if |args| == 4 then Refuse(MissingCount)
      else if |args| > 6 then Unknown(6)
      else CheckValues(limits, CountOf, [args[4]])
    case GeoDist => if |args| == 4 && !Length(args[3]) then Unknown(3) else None
    case _ => None
  }

  lemma PlainRefused(check: Check, limits: Limits, args: seq<string>)
    requires Usable(limits) && Sized(check, |args|) && Grammar(check).None?
    ensures Verdict(check, limits, args) == Wanting(check, limits, args)
  {
    if check.ListRange? || check.ZRevRange? {
      WindowRefused(limits, args[1], args[2]);
      hide ParseInt, Lower, Window, WindowWrong;
    } else {
      hide ParseInt, Lower;
    }
  }

  /** Once all of a command's options are read, what is still missing, or does not go together. */
  lemma ReadButWanting(check: Check, limits: Limits, args: seq<string>, ks: set<Key>)
    requires Usable(limits) && Sized(check, |args|) && Grammar(check).Some? && Scanned(check, limits, args) == Ok(ks)
    ensures Verdict(check, limits, args) ==
              match check
              case Scan =>
                if !Cursor(args[0]) then Refuse(InvalidArgument) else if CountKey !in ks then Refuse(MissingCount) else None
              case KeyScan(_) =>
                if !Cursor(args[1]) then Refuse(InvalidArgument) else if CountKey !in ks then Refuse(MissingCount) else None
              case ListPos => if MaxlenKey !in ks then Refuse(MissingMaxlen) else None
              case ZRange =>
                if ByLexKey in ks && (ByScoreKey in ks || WithScoresKey in ks) then Refuse(InvalidArgument)
                else if ByScoreKey in ks || ByLexKey in ks then if LimitKey !in ks then Refuse(MissingLimit) else None
                else if LimitKey in ks then Refuse(InvalidArgument)
                else WindowWrong(limits, args[1], args[2])
              case ZRangeBy(_) => if LimitKey !in ks then Refuse(MissingLimit) else None
              case XRange => if CountKey !in ks then Refuse(MissingCount) else None
              case GeoSearch =>
                if FromKey !in ks || ByKey !in ks then Refuse(InvalidArgument)
                else if CountKey !in ks then Refuse(MissingCount) else None
              case _ => None
  {
    if |args| >= 3 {
      WindowRefused(limits, args[1], args[2]);
    }
    if check.Scan? {
      CursorIs(args[0]);
    }
    if check.KeyScan? {
      CursorIs(args[1]);
    }
    hide Options, Window, WindowWrong, ValidCursor, Cursor;
  }

  /** A scan refused refuses the command, unless its cursor already did. */
  lemma ScanRefused(check: Check, limits: Limits, args: seq<string>, refusal: Refusal)
    requires Sized(check, |args|) && Grammar(check).Some? && Scanned(check, limits, args) == Err(refusal)
    ensures Verdict(check, limits, args) ==
              if (check.Scan? && !Cursor(args[0])) || (check.KeyScan? && !Cursor(args[1])) then Refuse(InvalidArgument)
              else Some(refusal)
  {
    if check.Scan? {
      CursorIs(args[0]);
    }
    if check.KeyScan? {
      CursorIs(args[1]);
    }
    hide Options, Window, ValidCursor, Cursor;
  }
}
