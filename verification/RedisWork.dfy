/**
  What an allowed read asks of Redis, or has it return: never more than a limit, whatever the data
  holds, and for the bounds themselves exactly that. The traversals are the ones the refusals of
  internal/redisgate/rules.go describe.
 */
module RedisWork {
  import opened Wrappers
  import opened RedisText
  import opened RedisRules
  import opened RedisGrammar
  import opened RedisGate

  function Max(a: int, b: int): int { if a < b then b else a }

  // ----- traversals of a collection of n elements -----

  /** Where an index counts from: the end, if it is negative. */
  function From(n: nat, index: int): int { if index < 0 then Max(0, n + index) else index }

  function Last(n: nat, index: int): int { if index < 0 then n + index else Min(index, n - 1) }

  /** How many elements lie from `start` to `stop`. */
  function WindowSize(n: nat, start: int, stop: int): nat {
    if From(n, start) > Last(n, stop) then 0 else Last(n, stop) - From(n, start) + 1
  }

  /** LRANGE walks from the head to the last element it returns. */
  function ListWalk(n: nat, start: int, stop: int): nat {
    if From(n, start) > Last(n, stop) then 0 else Last(n, stop) + 1
  }

  /** LINDEX walks from the nearer end to the element. */
  function IndexWalk(n: nat, index: int): nat {
    if index >= 0 then if index < n then Min(index + 1, n - index) else 0
    else if -index <= n then Min(-index, n + index + 1) else 0
  }

  /** LIMIT passes over `offset` elements and returns `count`, or all the rest if that is negative. */
  function LimitWalk(n: nat, offset: int, count: int): nat
    requires offset >= 0
  {
    if count < 0 then n else Min(offset + count, n)
  }

  /** MAXLEN 0 compares every element. */
  function MaxlenWalk(n: nat, maxlen: int): nat
    requires maxlen >= 0
  {
    if maxlen == 0 then n else Min(maxlen, n)
  }

  // ----- each bound is exactly the bound -----

  /** A window with no negative end is accepted exactly when no contents could hold more than the limit in it. */
  lemma WindowIsExact(limits: Limits, start: string, stop: string)
    requires Usable(limits)
    ensures Window(limits, start, stop) == None <==>
              && ParseInt(start).Some? && ParseInt(stop).Some?
              && ParseInt(start).value >= 0 && ParseInt(stop).value >= 0
              && forall n: nat :: WindowSize(n, ParseInt(start).value, ParseInt(stop).value) <= limits.maxElements
  {
    if ParseInt(start).Some? && ParseInt(stop).Some? {
      var a, b := ParseInt(start).value, ParseInt(stop).value;
      ParsesExactlyThePrinted(start, a);
      ParsesExactlyThePrinted(stop, b);
      hide ParseInt, Wrap, Print;
      if a >= 0 && b >= 0 {
        assert InInt64(b - a);
        assert WindowSize(b + 1, a, b) == if a > b then 0 else b - a + 1;
      }
    }
  }

  /** LIMIT is accepted exactly when no range, however many elements it has, is walked further than the limit. */
  lemma LimitIsExact(limits: Limits, offset: string, count: string)
    requires Usable(limits)
    ensures LimitOption(limits, offset, count) == None <==>
              && ParseInt(offset).Some? && ParseInt(count).Some? && ParseInt(offset).value >= 0
              && forall n: nat :: LimitWalk(n, ParseInt(offset).value, ParseInt(count).value) <= limits.maxElements
  {
    if ParseInt(offset).Some? && ParseInt(count).Some? {
      var o, c := ParseInt(offset).value, ParseInt(count).value;
      hide ParseInt, Wrap;
      if o >= 0 {
        assert LimitWalk(limits.maxElements + 1, o, c) ==
               if c < 0 then limits.maxElements + 1 else Min(o + c, limits.maxElements + 1);
      }
    }
  }

  lemma MaxlenIsExact(limits: Limits, value: string)
    requires Usable(limits)
    ensures MaxlenOption(limits, value) == None <==>
              && ParseInt(value).Some? && ParseInt(value).value >= 0
              && forall n: nat :: MaxlenWalk(n, ParseInt(value).value) <= limits.maxElements
  {
    if ParseInt(value).Some? {
      var m := ParseInt(value).value;
      hide ParseInt;
      if m >= 0 {
        assert MaxlenWalk(limits.maxElements + 1, m) ==
               if m == 0 then limits.maxElements + 1 else Min(m, limits.maxElements + 1);
      }
    }
  }

  lemma IndexIsExact(limits: Limits, args: seq<string>)
    requires Usable(limits) && |args| == 2
    ensures CheckListIndex(limits, args) == None <==>
              && ParseInt(args[1]).Some?
              && forall n: nat :: IndexWalk(n, ParseInt(args[1]).value) <= limits.maxElements
  {
    if ParseInt(args[1]).Some? {
      var i := ParseInt(args[1]).value;
      hide ParseInt, Wrap;
      if i >= 0 {
        assert IndexWalk(2 * i + 1, i) == i + 1;
      } else {
        assert IndexWalk(-2 * i, i) == -i;
      }
    }
  }

  /**
    LRANGE is accepted exactly when neither end is negative and no list is walked further than the
    limit from its head to the stop; which, unless the window is upside down, is the walk it makes.
   */
  lemma ListRangeIsExact(limits: Limits, args: seq<string>)
    requires Usable(limits)
    ensures CheckListRange(limits, args) == None <==>
              && |args| == 3 && ParseInt(args[1]).Some? && ParseInt(args[2]).Some?
              && ParseInt(args[1]).value >= 0 && ParseInt(args[2]).value >= 0
              && forall n: nat :: ListWalk(n, 0, ParseInt(args[2]).value) <= limits.maxElements
    ensures |args| == 3 && ParseInt(args[1]).Some? && ParseInt(args[2]).Some?
            && 0 <= ParseInt(args[1]).value <= ParseInt(args[2]).value ==>
              var start, stop := ParseInt(args[1]).value, ParseInt(args[2]).value;
              (forall n: nat :: ListWalk(n, 0, stop) <= limits.maxElements) <==>
              (forall n: nat :: ListWalk(n, start, stop) <= limits.maxElements)
  {
    if |args| == 3 && ParseInt(args[1]).Some? && ParseInt(args[2]).Some? {
      WindowIsExact(limits, args[1], args[2]);
      var a, b := ParseInt(args[1]).value, ParseInt(args[2]).value;
      hide ParseInt, Window;
      if a >= 0 && b >= 0 {
        assert ListWalk(b + 1, 0, b) == b + 1;
        assert a <= b ==> ListWalk(b + 1, a, b) == b + 1;
        assert WindowSize(b + 1, a, b) == if a > b then 0 else b - a + 1;
      }
    }
  }

  // ----- every allowed command -----

  function Number(s: string): int {
    match ParseInt(s)
    case Some(n) => n
    case None => 0
  }

  function With(items: seq<Item>, key: Key): Option<Item> {
    if items == [] then None else if items[0].opt.key == key then Some(items[0]) else With(items[1..], key)
  }

  /** The values given for an option of a command, if it is there. */
  function Given(check: Check, args: seq<string>, key: Key): Option<seq<string>>
    requires Grammar(check).Some? && Grammar(check).value.1 <= |args|
  {
    var (table, from) := Grammar(check).value;
    match With(Items(table, args[from..], 0), key)
    case Some(item) => Some(item.values)
    case None => None
  }

  /**
    How many elements a command asks for or returns of the n there are, or n where nothing it says
    bounds them; a command that asks for a summary asks for none. What Redis visits on the way, the
    area of a GEOSEARCH for one, is not counted.
   */
  function Work(check: Check, args: seq<string>, n: nat): nat {
    match check
    case ListIndex => if |args| == 2 then IndexWalk(n, Number(args[1])) else n
    case ListRange => if |args| == 3 then ListWalk(n, Number(args[1]), Number(args[2])) else n
    case ZRevRange => if |args| >= 3 then WindowSize(n, Number(args[1]), Number(args[2])) else n
    case ListPos => if |args| >= 2 then MaxlenGiven(Given(check, args, MaxlenKey), n) else n
    case ZRange =>
      if |args| < 3 then n
      else if Given(check, args, ByScoreKey).Some? || Given(check, args, ByLexKey).Some? then
        LimitGiven(Given(check, args, LimitKey), n)
      else WindowSize(n, Number(args[1]), Number(args[2]))
    case ZRangeBy(_) => if |args| >= 3 then LimitGiven(Given(check, args, LimitKey), n) else n
    case XRange => if |args| >= 3 then CountGiven(Given(check, args, CountKey), n) else n
    case Scan => if |args| >= 1 then CountGiven(Given(check, args, CountKey), n) else n
    case KeyScan(_) => if |args| >= 2 then CountGiven(Given(check, args, CountKey), n) else n
    case GeoSearch => if |args| >= 1 then CountGiven(Given(check, args, CountKey), n) else n
    case Variadic(prefix, _) => if |args| >= prefix then |args| - prefix else n
    case RandomOf(_) => if |args| == 1 then Min(1, n) else if |args| > 1 then Size(Number(args[1])) else n
    case MemoryUsage =>
      if |args| == 1 then 0 else if |args| == 3 then MaxlenGiven(Some([args[2]]), n) else n
    case XInfoStream => if |args| == 1 then 0 else if |args| == 4 then CountGiven(Some([args[3]]), n) else n
    case XPending =>
      if |args| == 2 then 0 else if 5 <= |args| <= 6 then CountGiven(Some([args[4]]), n) else n
    case _ => n
  }

  /** A random read with a negative count returns as many, some of them again. */
  function Size(count: int): nat { if count < 0 then -count else count }

  function CountGiven(values: Option<seq<string>>, n: nat): nat {
    if values.Some? && |values.value| == 1 && Number(values.value[0]) >= 0 then Min(Number(values.value[0]), n) else n
  }

  function MaxlenGiven(values: Option<seq<string>>, n: nat): nat {
    if values.Some? && |values.value| == 1 && Number(values.value[0]) >= 0 then MaxlenWalk(n, Number(values.value[0])) else n
  }

  function LimitGiven(values: Option<seq<string>>, n: nat): nat {
    if values.Some? && |values.value| == 2 && Number(values.value[0]) >= 0 then
      LimitWalk(n, Number(values.value[0]), Number(values.value[1]))
    else n
  }

  /** The commands that read more than one thing, and the limit each is held to. */
  function Bound(check: Check, limits: Limits): Option<int> {
    match check
    case ListIndex | ListRange | ListPos | ZRange | ZRangeBy(_) | ZRevRange => Some(limits.maxElements)
    case Variadic(_, _) | RandomOf(_) | MemoryUsage => Some(limits.maxElements)
    case Scan | KeyScan(_) | XRange | GeoSearch | XInfoStream | XPending => Some(limits.maxCount)
    case _ => None
  }

  lemma {:induction false} WithIs(items: seq<Item>, key: Key)
    ensures With(items, key).Some? <==> key in Keys(items)
    ensures With(items, key).Some? ==> With(items, key).value in items && With(items, key).value.opt.key == key
  {
    if items != [] {
      WithIs(items[1..], key);
      assert items == [items[0]] + items[1..];
    }
  }

  /** What was given for an option the scanner saw passed the option's rule. */
  lemma GivenPassed(check: Check, limits: Limits, args: seq<string>, key: Key)
    requires Grammar(check).Some? && Grammar(check).value.1 <= |args| && Scanned(check, limits, args).Ok?
    ensures Given(check, args, key).Some? <==> key in Scanned(check, limits, args).value
    ensures Given(check, args, key).Some? ==>
              exists word: string ::
                && Find(Grammar(check).value.0, word).Some?
                && var opt := Find(Grammar(check).value.0, word).value;
                   && opt.key == key && |Given(check, args, key).value| == opt.arity
                   && CheckValues(limits, opt.rule, Given(check, args, key).value) == None
  {
    var (table, from) := Grammar(check).value;
    ScannedSplits(check, limits, args);
    var items :| Splits(table, limits, args[from..], items);
    assert args[from..][0..] == args[from..];
    SplitIsUnique(table, limits, args[from..], 0, items);
    WithIs(items, key);
    hide Find, CheckValues, Keys, Flat, Lower, Items, With, Scanned;
    if With(items, key).Some? {
      var item := With(items, key).value;
      assert WellWritten(table, limits, item);
    }
  }

  lemma RuleOf(table: Table, word: string)
    requires Find(table, word).Some?
    ensures var opt := Find(table, word).value;
      && (opt.key == CountKey && table != ListPosTable ==> opt.rule == CountOf && opt.arity == 1)
      && (opt.key == MaxlenKey ==> opt.rule == MaxlenOf && opt.arity == 1)
      && (opt.key == LimitKey ==> opt.rule == LimitOf && opt.arity == 2)
  {
  }

  lemma CountBounded(limits: Limits, values: seq<string>, n: nat)
    requires |values| == 1 && CheckValues(limits, CountOf, values) == None
    ensures CountGiven(Some(values), n) <= limits.maxCount
  {
    hide ParseInt;
  }

  lemma MaxlenBounded(limits: Limits, values: seq<string>, n: nat)
    requires Usable(limits) && |values| == 1 && CheckValues(limits, MaxlenOf, values) == None
    ensures MaxlenGiven(Some(values), n) <= limits.maxElements
  {
    hide ParseInt;
    MaxlenIsExact(limits, values[0]);
  }

  lemma LimitBounded(limits: Limits, values: seq<string>, n: nat)
    requires Usable(limits) && |values| == 2 && CheckValues(limits, LimitOf, values) == None
    ensures LimitGiven(Some(values), n) <= limits.maxElements
  {
    hide ParseInt;
    LimitIsExact(limits, values[0], values[1]);
  }

  /** A bounding option the scanner saw bounds the walk. */
  lemma GivenBounds(check: Check, limits: Limits, args: seq<string>, key: Key, n: nat)
    requires Usable(limits) && Grammar(check).Some? && Grammar(check).value.1 <= |args|
    requires Scanned(check, limits, args).Ok? && key in Scanned(check, limits, args).value
    ensures key == CountKey && !check.ListPos? ==> CountGiven(Given(check, args, key), n) <= limits.maxCount
    ensures key == MaxlenKey ==> MaxlenGiven(Given(check, args, key), n) <= limits.maxElements
    ensures key == LimitKey ==> LimitGiven(Given(check, args, key), n) <= limits.maxElements
  {
    var table := Grammar(check).value.0;
    GivenPassed(check, limits, args, key);
    var values := Given(check, args, key).value;
    var word: string :| Find(table, word).Some? && Find(table, word).value.key == key
      && |values| == Find(table, word).value.arity && CheckValues(limits, Find(table, word).value.rule, values) == None;
    RuleOf(table, word);
    hide Find, CheckValues, Scanned, Given, CountGiven, MaxlenGiven, LimitGiven;
    if key == CountKey && !check.ListPos? {
      CountBounded(limits, values, n);
    }
    if key == MaxlenKey {
      MaxlenBounded(limits, values, n);
    }
    if key == LimitKey {
      LimitBounded(limits, values, n);
    }
  }

  lemma OptionedBounded(check: Check, limits: Limits, args: seq<string>, n: nat)
    requires Usable(limits) && Verdict(check, limits, args) == None && Grammar(check).Some? && !check.ZRange?
    ensures Work(check, args, n) <= Bound(check, limits).value
  {
    hide Verdict, Scanned, Given, CountGiven, MaxlenGiven, LimitGiven, Window, ValidCursor;
    VerdictReads(check, limits, args);
    var key := if check.ListPos? then MaxlenKey else if check.ZRangeBy? then LimitKey else CountKey;
    GivenBounds(check, limits, args, key, n);
  }

  lemma WindowBounded(limits: Limits, start: string, stop: string, n: nat)
    requires Usable(limits) && Window(limits, start, stop) == None
    ensures WindowSize(n, Number(start), Number(stop)) <= limits.maxElements
  {
    hide ParseInt, Window, WindowSize;
    WindowIsExact(limits, start, stop);
  }

  lemma ZRangeBounded(limits: Limits, args: seq<string>, n: nat)
    requires Usable(limits) && Verdict(ZRange, limits, args) == None
    ensures Work(ZRange, args, n) <= limits.maxElements
  {
    hide Verdict, Scanned, Given, LimitGiven, Window, ValidCursor, Number, WindowSize;
    VerdictReads(ZRange, limits, args);
    GivenPassed(ZRange, limits, args, ByScoreKey);
    GivenPassed(ZRange, limits, args, ByLexKey);
    var keys := Scanned(ZRange, limits, args).value;
    if LimitKey in keys {
      GivenBounds(ZRange, limits, args, LimitKey, n);
    } else {
      WindowBounded(limits, args[1], args[2], n);
    }
  }

  lemma PlainBounded(check: Check, limits: Limits, args: seq<string>, n: nat)
    requires Usable(limits) && Verdict(check, limits, args) == None
    requires check.ListIndex? || check.ListRange? || check.ZRevRange?
    ensures Work(check, args, n) <= limits.maxElements
  {
    hide ParseInt, Wrap, Window, Lower;
    if check.ListIndex? {
      IndexIsExact(limits, args);
    } else {
      WindowIsExact(limits, args[1], args[2]);
    }
  }

  lemma AskedBounded(check: Check, limits: Limits, args: seq<string>, n: nat)
    requires Usable(limits) && Verdict(check, limits, args) == None
    requires check.Variadic? || check.RandomOf? || check.MemoryUsage? || check.XInfoStream? || check.XPending?
    ensures Work(check, args, n) <= Bound(check, limits).value
  {
    hide ParseInt, Lower, Given;
    match check
    case MemoryUsage =>
      if |args| == 3 {
        MaxlenIsExact(limits, args[2]);
      }
    case _ =>
  }

  /** A random read is accepted exactly when it asks for one, or, either way, for no more than the limit, under its own flag if any. */
  lemma RandomIsExact(limits: Limits, args: seq<string>, flag: string)
    requires Usable(limits)
    ensures CheckRandom(limits, args, flag) == None <==>
              || |args| == 1
              || (&& (|args| == 2 || (|args| == 3 && flag != "" && Lower(args[2]) == flag))
                  && ParseInt(args[1]).Some? && Size(ParseInt(args[1]).value) <= limits.maxElements)
  {
    hide ParseInt, Lower;
    assert InInt64(-limits.maxElements);
  }

  /** Whatever a collection holds, an accepted command asks for or returns no more of it than its limit. */
  lemma WorkIsBounded(check: Check, limits: Limits, args: seq<string>, n: nat)
    requires Usable(limits) && Verdict(check, limits, args) == None && Bound(check, limits).Some?
    ensures Work(check, args, n) <= Bound(check, limits).value
  {
    hide Verdict, Work;
    match check
    case ListIndex => PlainBounded(check, limits, args, n);
    case ListRange => PlainBounded(check, limits, args, n);
    case ZRevRange => PlainBounded(check, limits, args, n);
    case ZRange => ZRangeBounded(limits, args, n);
    case Variadic(_, _) => AskedBounded(check, limits, args, n);
    case RandomOf(_) => AskedBounded(check, limits, args, n);
    case MemoryUsage => AskedBounded(check, limits, args, n);
    case XInfoStream => AskedBounded(check, limits, args, n);
    case XPending => AskedBounded(check, limits, args, n);
    case _ => OptionedBounded(check, limits, args, n);
  }

  /** The entry that allowed a command, and the arguments it allowed. */
  ghost predicate AllowedBy(c: Catalogue, limits: Limits, argv: seq<string>, entry: Entry, offset: nat) {
    && offset <= |argv| && offset > 0 && entry in c.allowlist
    && Lower(entry.name) == Lower(argv[0])
    && (if offset == 1 then entry.subcommand == "" else offset == 2 && Lower(entry.subcommand) == Lower(argv[1]))
    && Decide(c, limits, argv).ruleID == RuleID(entry)
    && Verdict(entry.check, limits, argv[offset..]) == None
  }

  lemma {:induction false} LookedUp(entries: seq<Entry>, name: string, sub: string)
    requires Lookup(entries, name, sub).Some?
    ensures var entry := Lookup(entries, name, sub).value; entry in entries && Names(entry, name, sub)
  {
    if !Names(entries[|entries| - 1], name, sub) {
      LookedUp(entries[..|entries| - 1], name, sub);
    }
  }

  /**
    An allowed command is one the allowlist names, within the argument and byte limits, and what it
    asks for or returns of any collection, whatever that holds, is within the limit for its kind.
   */
  lemma AllowedIsBounded(c: Catalogue, limits: Limits, argv: seq<string>)
    requires Usable(limits) && Decide(c, limits, argv).allow
    ensures 0 < |argv| <= limits.maxArgs && Bytes(argv) <= limits.maxBytes
    ensures exists entry, offset: nat ::
              && AllowedBy(c, limits, argv, entry, offset)
              && (Bound(entry.check, limits).Some? ==>
                    forall n: nat :: Work(entry.check, argv[offset..], n) <= Bound(entry.check, limits).value)
  {
    hide Verdict, Bytes, Lower, Work, Lookup, Contains, RuleID;
    var name := Lower(argv[0]);
    var offset := if Contains(c.allowlist, name) then 2 else 1;
    var found := Lookup(c.allowlist, name, if offset == 2 then Lower(argv[1]) else "");
    var entry := found.value;
    LookedUp(c.allowlist, name, if offset == 2 then Lower(argv[1]) else "");
    BlankLower(entry.subcommand);
    assert AllowedBy(c, limits, argv, entry, offset);
    if Bound(entry.check, limits).Some? {
      forall n: nat
        ensures Work(entry.check, argv[offset..], n) <= Bound(entry.check, limits).value
      {
        WorkIsBounded(entry.check, limits, argv[offset..], n);
      }
    }
  }
}
