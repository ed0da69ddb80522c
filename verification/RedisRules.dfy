/**
  What each allowed Redis command may be given (internal/redisgate/rules.go). The options of the
  scanning commands are a table, read by one left-to-right pass.
 */
module RedisRules {
  import opened Wrappers
  import opened RedisText

  datatype Limits = Limits(maxElements: int, maxCount: int, maxArgs: int, maxBytes: int)

  predicate Usable(limits: Limits) {
    && 0 < limits.maxElements <= INT64_MAX && 0 < limits.maxCount <= INT64_MAX
    && 0 < limits.maxArgs <= INT64_MAX && 0 < limits.maxBytes <= INT64_MAX
  }

  datatype Reason =
    | BoundedRead
    | EmptyCommand
    | TooManyArguments
    | CommandTooLarge
    | ForbiddenCommand
    | UnboundedCommand
    | UnknownCommand
    | MissingSubcommand
    | UnknownSubcommand
    | WrongArity
    | UnknownArgument
    | InvalidArgument
    | DuplicateArgument
    | MissingCount
    | MissingLimit
    | MissingMaxlen
    | CountTooLarge
    | TooManyElements
    | UnboundedWindow
    | WindowTooLarge
    | TraversalTooDeep

  /** `arg` is the index of the argument an UnknownArgument refusal names. */
  datatype Refusal = Refusal(reason: Reason, arg: Option<nat>)

  function Refuse(reason: Reason): Option<Refusal> { Some(Refusal(reason, None)) }

  function Unknown(index: nat): Option<Refusal> { Some(Refusal(UnknownArgument, Some(index))) }

  // ----- the options of the scanning commands -----

  datatype ValueRule = Anything | CountOf | RankOf | MatchesOf | MaxlenOf | LimitOf | UnitLast

  /** What an option is about. */
  datatype Key =
    | MatchKey | CountKey | TypeKey | NoValuesKey
    | RankKey | MaxlenKey
    | ByScoreKey | ByLexKey | RevKey | WithScoresKey | LimitKey
    | FromKey | ByKey | OrderKey | WithCoordKey | WithDistKey | WithHashKey

  /** One option: options sharing a `key` exclude each other; `trailer` may follow the values. */
  datatype Opt = Opt(word: string, key: Key, arity: nat, rule: ValueRule, again: Reason, trailer: string)

  function Simple(word: string, key: Key, arity: nat, rule: ValueRule): Opt {
    Opt(word, key, arity, rule, DuplicateArgument, "")
  }

  datatype Table =
    | ScanTable(extra: string)
    | ListPosTable
    | ZRangeTable
    | ZRangeByTable(scores: bool)
    | XRangeTable
    | GeoTable

  function Find(table: Table, word: string): Option<Opt> {
    match table
    case ScanTable(extra) =>
      if word == "match" then Some(Simple("match", MatchKey, 1, Anything))
      else if word == "count" then Some(Simple("count", CountKey, 1, CountOf))
      else if extra == "type" && word == "type" then Some(Simple("type", TypeKey, 1, Anything))
      else if extra == "novalues" && word == "novalues" then Some(Simple("novalues", NoValuesKey, 0, Anything))
      else None
    case ListPosTable =>
      if word == "rank" then Some(Simple("rank", RankKey, 1, RankOf))
      else if word == "count" then Some(Simple("count", CountKey, 1, MatchesOf))
      else if word == "maxlen" then Some(Simple("maxlen", MaxlenKey, 1, MaxlenOf))
      else None
    case ZRangeTable =>
      if word == "byscore" then Some(Simple("byscore", ByScoreKey, 0, Anything))
      else if word == "bylex" then Some(Simple("bylex", ByLexKey, 0, Anything))
      else if word == "rev" then Some(Simple("rev", RevKey, 0, Anything))
      else if word == "withscores" then Some(Simple("withscores", WithScoresKey, 0, Anything))
      else if word == "limit" then Some(Simple("limit", LimitKey, 2, LimitOf))
      else None
    case ZRangeByTable(scores) =>
      if scores && word == "withscores" then Some(Simple("withscores", WithScoresKey, 0, Anything))
      else if word == "limit" then Some(Simple("limit", LimitKey, 2, LimitOf))
      else None
    case XRangeTable =>
      if word == "count" then Some(Simple("count", CountKey, 1, CountOf)) else None
    case GeoTable =>
      if word == "frommember" then Some(Opt("frommember", FromKey, 1, Anything, InvalidArgument, ""))
      else if word == "fromlonlat" then Some(Opt("fromlonlat", FromKey, 2, Anything, InvalidArgument, ""))
      else if word == "byradius" then Some(Opt("byradius", ByKey, 2, UnitLast, InvalidArgument, ""))
      else if word == "bybox" then Some(Opt("bybox", ByKey, 3, UnitLast, InvalidArgument, ""))
      else if word == "asc" then Some(Opt("asc", OrderKey, 0, Anything, DuplicateArgument, ""))
      else if word == "desc" then Some(Opt("desc", OrderKey, 0, Anything, DuplicateArgument, ""))
      else if word == "count" then Some(Opt("count", CountKey, 1, CountOf, DuplicateArgument, "any"))
      else if word == "withcoord" then Some(Simple("withcoord", WithCoordKey, 0, Anything))
      else if word == "withdist" then Some(Simple("withdist", WithDistKey, 0, Anything))
      else if word == "withhash" then Some(Simple("withhash", WithHashKey, 0, Anything))
      else None
  }

  function CountOption(limits: Limits, value: string): Option<Refusal> {
    match ParseInt(value)
    case None => Refuse(InvalidArgument)
    case Some(n) =>
      if n < 1 then Refuse(InvalidArgument) else if n > limits.maxCount then Refuse(CountTooLarge) else None
  }

  function LimitOption(limits: Limits, offset: string, count: string): Option<Refusal> {
    match ParseInt(offset)
    case None => Refuse(InvalidArgument)
    case Some(o) =>
      if o < 0 then Refuse(InvalidArgument)
      else
        match ParseInt(count)
        case None => Refuse(InvalidArgument)
        case Some(n) =>
          if n < 0 || n > limits.maxElements then Refuse(TooManyElements)
          else if o > Wrap(limits.maxElements - n) then Refuse(TraversalTooDeep)
          else None
  }

  function RankOption(value: string): Option<Refusal> {
    match ParseInt(value)
    case None => Refuse(InvalidArgument)
    case Some(n) => if n == 0 || n == INT64_MIN then Refuse(InvalidArgument) else None
  }

  function MatchesOption(limits: Limits, value: string): Option<Refusal> {
    match ParseInt(value)
    case None => Refuse(InvalidArgument)
    case Some(n) =>
      if n < 0 then Refuse(InvalidArgument) else if n > limits.maxCount then Refuse(CountTooLarge) else None
  }

  function MaxlenOption(limits: Limits, value: string): Option<Refusal> {
    match ParseInt(value)
    case None => Refuse(InvalidArgument)
    case Some(n) =>
      if n < 0 then Refuse(InvalidArgument)
      else if n == 0 || n > limits.maxElements then Refuse(TooManyElements)
      else None
  }

  predicate GeoUnit(s: string) {
    Lower(s) == "m" || Lower(s) == "km" || Lower(s) == "ft" || Lower(s) == "mi"
  }

  /** The values of one option; an argument it names is counted from the first of them. */
  function CheckValues(limits: Limits, rule: ValueRule, values: seq<string>): Option<Refusal> {
    match rule
    case Anything => None
    case CountOf => if |values| == 1 then CountOption(limits, values[0]) else None
    case RankOf => if |values| == 1 then RankOption(values[0]) else None
    case MatchesOf => if |values| == 1 then MatchesOption(limits, values[0]) else None
    case MaxlenOf => if |values| == 1 then MaxlenOption(limits, values[0]) else None
    case LimitOf => if |values| == 2 then LimitOption(limits, values[0], values[1]) else None
    case UnitLast =>
      if values != [] && !GeoUnit(values[|values| - 1]) then Unknown(|values| - 1) else None
  }

  /** How many arguments the option written at `i` takes in all, its own word included. */
  function Taken(opt: Opt, args: seq<string>, i: nat): (n: nat)
    requires i + opt.arity < |args|
    ensures 0 < n && i + n <= |args|
  {
    var n := 1 + opt.arity;
    if opt.trailer != "" && i + n < |args| && Lower(args[i + n]) == opt.trailer then n + 1 else n
  }

  function Placed(refusal: Refusal, at: nat): Refusal {
    if refusal.arg.Some? then refusal.(arg := Some(refusal.arg.value + at)) else refusal
  }

  /** The options from argument `i` on, given what was seen before: everything seen, or the first refusal. */
  function Options(table: Table, limits: Limits, args: seq<string>, offset: nat, i: nat, seen: set<Key>)
    : Result<set<Key>, Refusal>
    requires i <= |args|
    decreases |args| - i
  {
    if i == |args| then Ok(seen)
    else
      match Find(table, Lower(args[i]))
      case None => Err(Refusal(UnknownArgument, Some(offset + i)))
      case Some(opt) =>
        if opt.key in seen then Err(Refusal(opt.again, None))
        else if i + opt.arity >= |args| then Err(Refusal(WrongArity, None))
        else
          match CheckValues(limits, opt.rule, args[i + 1..i + 1 + opt.arity])
          case Some(refusal) => Err(Placed(refusal, offset + i + 1))
          case None => Options(table, limits, args, offset, i + Taken(opt, args, i), seen + {opt.key})
  }

  // ----- the checks -----

  function Arity(args: seq<string>, lo: nat, hi: nat): Option<Refusal> {
    if lo <= |args| <= hi then None else Refuse(WrongArity)
  }

  /** `stop - start + 1`, where both are known not to be negative. */
  function Window(limits: Limits, start: string, stop: string): Option<Refusal> {
    match ParseInt(start)
    case None => Refuse(InvalidArgument)
    case Some(a) =>
      match ParseInt(stop)
      case None => Refuse(InvalidArgument)
      case Some(b) =>
        if a < 0 || b < 0 then Refuse(UnboundedWindow)
        else if b >= a && Wrap(b - a) >= limits.maxElements then Refuse(WindowTooLarge)
        else None
  }

  function ScanOptions(limits: Limits, args: seq<string>, offset: nat, extra: string): Option<Refusal> {
    match Options(ScanTable(extra), limits, args, offset, 0, {})
    case Err(refusal) => Some(refusal)
    case Ok(seen) => if CountKey !in seen then Refuse(MissingCount) else None
  }

  function CheckScan(limits: Limits, args: seq<string>): Option<Refusal> {
    if |args| < 1 then Refuse(WrongArity)
    else if !ValidCursor(args[0]) then Refuse(InvalidArgument)
    else ScanOptions(limits, args[1..], 1, "type")
  }

  function CheckKeyScan(limits: Limits, args: seq<string>, extra: string): Option<Refusal> {
    if |args| < 2 then Refuse(WrongArity)
    else if !ValidCursor(args[1]) then Refuse(InvalidArgument)
    else ScanOptions(limits, args[2..], 2, extra)
  }

  function CheckVariadic(limits: Limits, args: seq<string>, prefix: nat, least: nat): Option<Refusal> {
    if |args| < prefix + least then Refuse(WrongArity)
    else if |args| - prefix > limits.maxElements then Refuse(TooManyElements)
    else None
  }

  function CheckMemoryUsage(limits: Limits, args: seq<string>): Option<Refusal> {
    if |args| == 1 then None
    else if |args| == 2 || |args| == 3 then
      if Lower(args[1]) != "samples" then Unknown(1)
      else if |args| == 2 then Refuse(WrongArity)
      else MaxlenOption(limits, args[2])
    else Arity(args, 1, 3)
  }

  function NeedInt(value: string): Option<Refusal> {
    if ParseInt(value).None? then Refuse(InvalidArgument) else None
  }

  function First(a: Option<Refusal>, b: Option<Refusal>): Option<Refusal> {
    if a.Some? then a else b
  }

  function CheckGetRange(args: seq<string>): Option<Refusal> {
    if |args| != 3 then Refuse(WrongArity) else First(NeedInt(args[1]), NeedInt(args[2]))
  }

  function CheckGetBit(args: seq<string>): Option<Refusal> {
    if |args| != 2 then Refuse(WrongArity)
    else
      match ParseInt(args[1])
      case None => Refuse(InvalidArgument)
      case Some(n) => if n < 0 then Refuse(InvalidArgument) else None
  }

  function BitUnit(s: string, position: nat): Option<Refusal> {
    if Lower(s) == "byte" || Lower(s) == "bit" then None else Unknown(position)
  }

  function CheckBitCount(args: seq<string>): Option<Refusal> {
    if |args| == 1 then None
    else if |args| == 3 || |args| == 4 then
      First(NeedInt(args[1]), First(NeedInt(args[2]), if |args| == 4 then BitUnit(args[3], 3) else None))
    else Refuse(WrongArity)
  }

  function CheckBitPos(args: seq<string>): Option<Refusal> {
    if |args| < 2 || |args| > 5 then Refuse(WrongArity)
    else if args[1] != "0" && args[1] != "1" then Refuse(InvalidArgument)
    else
      First(if |args| >= 3 then NeedInt(args[2]) else None,
        First(if |args| >= 4 then NeedInt(args[3]) else None, if |args| == 5 then BitUnit(args[4], 4) else None))
  }

  function CheckRandom(limits: Limits, args: seq<string>, flag: string): Option<Refusal> {
    if |args| < 1 || |args| > (if flag != "" then 3 else 2) then Refuse(WrongArity)
    else if |args| == 1 then None
    else
      match ParseInt(args[1])
      case None => Refuse(InvalidArgument)
      case Some(n) =>
        if n > limits.maxElements || n < Wrap(-limits.maxElements) then Refuse(TooManyElements)
        else if |args| == 3 && Lower(args[2]) != flag then Unknown(2)
        else None
  }

  function CheckListIndex(limits: Limits, args: seq<string>): Option<Refusal> {
    if |args| != 2 then Refuse(WrongArity)
    else
      match ParseInt(args[1])
      case None => Refuse(InvalidArgument)
      case Some(n) =>
        if n >= limits.maxElements || n < Wrap(-limits.maxElements) then Refuse(TraversalTooDeep) else None
  }

  function CheckListRange(limits: Limits, args: seq<string>): Option<Refusal> {
    if |args| != 3 then Refuse(WrongArity)
    else
      match Window(limits, args[1], args[2])
      case Some(refusal) => Some(refusal)
      case None =>
        if ParseInt(args[2]).Some? && ParseInt(args[2]).value >= limits.maxElements then Refuse(TraversalTooDeep) else None
  }

  function CheckListPos(limits: Limits, args: seq<string>): Option<Refusal> {
    if |args| < 2 then Refuse(WrongArity)
    else
      match Options(ListPosTable, limits, args, 0, 2, {})
      case Err(refusal) => Some(refusal)
      case Ok(seen) => if MaxlenKey !in seen then Refuse(MissingMaxlen) else None
  }

  function CheckZRank(args: seq<string>): Option<Refusal> {
    if |args| < 2 || |args| > 3 then Refuse(WrongArity)
    else if |args| == 3 && Lower(args[2]) != "withscore" then Unknown(2)
    else None
  }

  function CheckZRange(limits: Limits, args: seq<string>): Option<Refusal> {
    if |args| < 3 then Refuse(WrongArity)
    else
      match Options(ZRangeTable, limits, args, 0, 3, {})
      case Err(refusal) => Some(refusal)
      case Ok(seen) =>
        if ByScoreKey in seen && ByLexKey in seen then Refuse(InvalidArgument)
        else if ByLexKey in seen && WithScoresKey in seen then Refuse(InvalidArgument)
        else if ByScoreKey in seen || ByLexKey in seen then if LimitKey !in seen then Refuse(MissingLimit) else None
        else if LimitKey in seen then Refuse(InvalidArgument)
        else Window(limits, args[1], args[2])
  }

  function CheckZRangeBy(limits: Limits, args: seq<string>, scores: bool): Option<Refusal> {
    if |args| < 3 then Refuse(WrongArity)
    else
      match Options(ZRangeByTable(scores), limits, args, 0, 3, {})
      case Err(refusal) => Some(refusal)
      case Ok(seen) => if LimitKey !in seen then Refuse(MissingLimit) else None
  }

  function CheckZRevRange(limits: Limits, args: seq<string>): Option<Refusal> {
    if |args| < 3 || |args| > 4 then Refuse(WrongArity)
    else if |args| == 4 && Lower(args[3]) != "withscores" then Unknown(3)
    else Window(limits, args[1], args[2])
  }

  function CheckXRange(limits: Limits, args: seq<string>): Option<Refusal> {
    if |args| < 3 then Refuse(WrongArity)
    else
      match Options(XRangeTable, limits, args, 0, 3, {})
      case Err(refusal) => Some(refusal)
      case Ok(seen) => if CountKey !in seen then Refuse(MissingCount) else None
  }

  function CheckXInfoStream(limits: Limits, args: seq<string>): Option<Refusal> {
    if |args| < 1 then Refuse(WrongArity)
    else if |args| == 1 then None
    else if Lower(args[1]) != "full" then Unknown(1)
    else if |args| == 2 then Refuse(MissingCount)
    else if Lower(args[2]) != "count" then Unknown(2)
    else if |args| == 3 then Refuse(WrongArity)
    else First(CountOption(limits, args[3]), if |args| > 4 then Unknown(4) else None)
  }

  function CheckXPending(limits: Limits, args: seq<string>): Option<Refusal> {
    if |args| < 2 then Refuse(WrongArity)
    else if |args| == 2 then None
    else if Lower(args[2]) == "idle" then Refuse(TraversalTooDeep)
    else if |args| == 3 then Refuse(WrongArity)
    else if |args| == 4 then Refuse(MissingCount)
    else if |args| <= 6 then CountOption(limits, args[4])
    else Unknown(6)
  }

  function CheckGeoDist(args: seq<string>): Option<Refusal> {
    if |args| < 3 || |args| > 4 then Refuse(WrongArity)
    else if |args| == 4 && !GeoUnit(args[3]) then Unknown(3)
    else None
  }

  function CheckGeoSearch(limits: Limits, args: seq<string>): Option<Refusal> {
    if |args| < 1 then Refuse(WrongArity)
    else
      match Options(GeoTable, limits, args, 0, 1, {})
      case Err(refusal) => Some(refusal)
      case Ok(seen) =>
        if FromKey !in seen || ByKey !in seen then Refuse(InvalidArgument)
        else if CountKey !in seen then Refuse(MissingCount)
        else None
  }

  /** What an allowlist entry demands of the arguments after the command's name. */
  datatype Check =
    | Fixed(n: nat)
    | Variadic(prefix: nat, least: nat)
    | Scan
    | KeyScan(extra: string)
    | MemoryUsage
    | GetRange
    | GetBit
    | BitCount
    | BitPos
    | RandomOf(flag: string)
    | ListIndex
    | ListRange
    | ListPos
    | ZRank
    | ZRange
    | ZRangeBy(scores: bool)
    | ZRevRange
    | XRange
    | XInfoStream
    | XPending
    | GeoDist
    | GeoSearch

  function Verdict(check: Check, limits: Limits, args: seq<string>): Option<Refusal> {
    match check
    case Fixed(n) => Arity(args, n, n)
    case Variadic(prefix, least) => CheckVariadic(limits, args, prefix, least)
    case Scan => CheckScan(limits, args)
    case KeyScan(extra) => CheckKeyScan(limits, args, extra)
    case MemoryUsage => CheckMemoryUsage(limits, args)
    case GetRange => CheckGetRange(args)
    case GetBit => CheckGetBit(args)
    case BitCount => CheckBitCount(args)
    case BitPos => CheckBitPos(args)
    case RandomOf(flag) => CheckRandom(limits, args, flag)
    case ListIndex => CheckListIndex(limits, args)
    case ListRange => CheckListRange(limits, args)
    case ListPos => CheckListPos(limits, args)
    case ZRank => CheckZRank(args)
    case ZRange => CheckZRange(limits, args)
    case ZRangeBy(scores) => CheckZRangeBy(limits, args, scores)
    case ZRevRange => CheckZRevRange(limits, args)
    case XRange => CheckXRange(limits, args)
    case XInfoStream => CheckXInfoStream(limits, args)
    case XPending => CheckXPending(limits, args)
    case GeoDist => CheckGeoDist(args)
    case GeoSearch => CheckGeoSearch(limits, args)
  }
}
