/**
  The option scanners as internal/redisgate/rules.go writes them: a loop over the arguments with a
  flag per option. Each returns what the option tables say.
 */
module RedisLoops {
  import opened Wrappers
  import opened RedisText
  import opened RedisRules

  predicate EqualFold(s: string, lower: string) { Lower(s) == lower }

  // ----- one step of the pass over the options -----

  lemma Bare(table: Table, limits: Limits, args: seq<string>, offset: nat, i: nat, seen: set<Key>, opt: Opt)
    requires i < |args| && Find(table, Lower(args[i])) == Some(opt)
    requires opt.arity == 0 && opt.rule == Anything && opt.trailer == ""
    ensures Options(table, limits, args, offset, i, seen) ==
              if opt.key in seen then Err(Refusal(opt.again, None))
              else Options(table, limits, args, offset, i + 1, seen + {opt.key})
  {
    hide Find, Lower;
  }

  /** An option with values, none of which a refusal names. */
  lemma Valued(
    table: Table, limits: Limits, args: seq<string>, offset: nat, i: nat, seen: set<Key>, opt: Opt)
    requires i < |args| && Find(table, Lower(args[i])) == Some(opt) && opt.rule != UnitLast && opt.trailer == ""
    ensures Options(table, limits, args, offset, i, seen) ==
              if opt.key in seen then Err(Refusal(opt.again, None))
              else if i + opt.arity >= |args| then Err(Refusal(WrongArity, None))
              else
                match CheckValues(limits, opt.rule, args[i + 1..i + 1 + opt.arity])
                case Some(refusal) => Err(refusal)
                case None => Options(table, limits, args, offset, i + 1 + opt.arity, seen + {opt.key})
  {
    hide Find, Lower, CheckValues;
    OnlyUnitsAreNamed(limits, opt.rule, if i + opt.arity < |args| then args[i + 1..i + 1 + opt.arity] else []);
  }

  lemma OnlyUnitsAreNamed(limits: Limits, rule: ValueRule, values: seq<string>)
    requires rule != UnitLast
    ensures CheckValues(limits, rule, values).Some? ==> CheckValues(limits, rule, values).value.arg == None
  {
  }

  /** An option that ends in a unit. */
  lemma Measured(
    table: Table, limits: Limits, args: seq<string>, offset: nat, i: nat, seen: set<Key>, opt: Opt)
    requires i < |args| && Find(table, Lower(args[i])) == Some(opt) && opt.rule == UnitLast && opt.trailer == ""
    requires opt.arity > 0
    ensures Options(table, limits, args, offset, i, seen) ==
              if opt.key in seen then Err(Refusal(opt.again, None))
              else if i + opt.arity >= |args| then Err(Refusal(WrongArity, None))
              else if !GeoUnit(args[i + opt.arity]) then Err(Refusal(UnknownArgument, Some(offset + i + opt.arity)))
              else Options(table, limits, args, offset, i + 1 + opt.arity, seen + {opt.key})
  {
    hide Find, Lower, GeoUnit;
  }

  /** An option with one value and a word that may follow it. */
  lemma Trailed(
    table: Table, limits: Limits, args: seq<string>, offset: nat, i: nat, seen: set<Key>, opt: Opt)
    requires i < |args| && Find(table, Lower(args[i])) == Some(opt) && opt.rule == CountOf && opt.trailer != ""
    requires opt.arity == 1
    ensures Options(table, limits, args, offset, i, seen) ==
              if opt.key in seen then Err(Refusal(opt.again, None))
              else if i + 1 >= |args| then Err(Refusal(WrongArity, None))
              else
                match CountOption(limits, args[i + 1])
                case Some(refusal) => Err(refusal)
                case None =>
                  var n := if i + 2 < |args| && Lower(args[i + 2]) == opt.trailer then 3 else 2;
                  Options(table, limits, args, offset, i + n, seen + {opt.key})
  {
    hide Find, Lower, CountOption, CheckValues, Taken;
    if i + 1 < |args| {
      OneValue(limits, args, i);
      OnlyUnitsAreNamed(limits, CountOf, args[i + 1..i + 2]);
      TakenTrailed(opt, args, i);
    }
  }

  lemma TakenTrailed(opt: Opt, args: seq<string>, i: nat)
    requires i + 1 < |args| && opt.arity == 1 && opt.trailer != ""
    ensures Taken(opt, args, i) == if i + 2 < |args| && Lower(args[i + 2]) == opt.trailer then 3 else 2
  {
    hide Lower;
  }

  lemma NotAnOption(table: Table, limits: Limits, args: seq<string>, offset: nat, i: nat, seen: set<Key>)
    requires i < |args| && Find(table, Lower(args[i])) == None
    ensures Options(table, limits, args, offset, i, seen) == Err(Refusal(UnknownArgument, Some(offset + i)))
  {
    hide Find, Lower;
  }

  lemma OptionsDone(table: Table, limits: Limits, args: seq<string>, offset: nat, i: nat, seen: set<Key>)
    requires i == |args|
    ensures Options(table, limits, args, offset, i, seen) == Ok(seen)
  {
  }

  lemma OneValue(limits: Limits, args: seq<string>, i: nat)
    requires i + 1 < |args|
    ensures var v := args[i + 1..i + 2];
      && CheckValues(limits, Anything, v) == None
      && CheckValues(limits, CountOf, v) == CountOption(limits, args[i + 1])
      && CheckValues(limits, RankOf, v) == RankOption(args[i + 1])
      && CheckValues(limits, MatchesOf, v) == MatchesOption(limits, args[i + 1])
      && CheckValues(limits, MaxlenOf, v) == MaxlenOption(limits, args[i + 1])
  {
    hide CountOption, RankOption, MatchesOption, MaxlenOption;
  }

  lemma TwoValues(limits: Limits, args: seq<string>, i: nat)
    requires i + 2 < |args|
    ensures var v := args[i + 1..i + 3];
      && CheckValues(limits, Anything, v) == None
      && CheckValues(limits, LimitOf, v) == LimitOption(limits, args[i + 1], args[i + 2])
  {
    hide LimitOption;
  }

  lemma CheckedOne(limits: Limits, args: seq<string>, i: nat)
    ensures i + 1 < |args| ==>
      var v := args[i + 1..i + 2];
      && CheckValues(limits, Anything, v) == None
      && CheckValues(limits, CountOf, v) == CountOption(limits, args[i + 1])
      && CheckValues(limits, RankOf, v) == RankOption(args[i + 1])
      && CheckValues(limits, MatchesOf, v) == MatchesOption(limits, args[i + 1])
      && CheckValues(limits, MaxlenOf, v) == MaxlenOption(limits, args[i + 1])
  {
    if i + 1 < |args| {
      hide *;
      OneValue(limits, args, i);
    }
  }

  lemma CheckedTwo(limits: Limits, args: seq<string>, i: nat)
    ensures i + 2 < |args| ==>
      var v := args[i + 1..i + 3];
      && CheckValues(limits, Anything, v) == None
      && CheckValues(limits, LimitOf, v) == LimitOption(limits, args[i + 1], args[i + 2])
  {
    if i + 2 < |args| {
      hide *;
      TwoValues(limits, args, i);
    }
  }

  /** What the rule for one value says of it. */
  function RefusalOf(limits: Limits, rule: ValueRule, value: string): Option<Refusal> {
    match rule
    case CountOf => CountOption(limits, value)
    case RankOf => RankOption(value)
    case MatchesOf => MatchesOption(limits, value)
    case MaxlenOf => MaxlenOption(limits, value)
    case _ => None
  }

  /** An option with one value. */
  lemma OneTaken(table: Table, limits: Limits, args: seq<string>, i: nat, seen: set<Key>, word: string, key: Key, rule: ValueRule)
    requires i < |args| && Find(table, Lower(args[i])) == Some(Simple(word, key, 1, rule))
    requires rule == CountOf || rule == RankOf || rule == MatchesOf || rule == MaxlenOf
    ensures Options(table, limits, args, 0, i, seen) ==
              if key in seen then Err(Refusal(DuplicateArgument, None))
              else if i + 1 >= |args| then Err(Refusal(WrongArity, None))
              else
                match RefusalOf(limits, rule, args[i + 1])
                case Some(refusal) => Err(refusal)
                case None => Options(table, limits, args, 0, i + 2, seen + {key})
  {
    Valued(table, limits, args, 0, i, seen, Simple(word, key, 1, rule));
    CheckedOne(limits, args, i);
    hide Options, Find, Lower, CheckValues, CountOption, RankOption, MatchesOption, MaxlenOption;
  }

  /** LIMIT and its two values. */
  lemma LimitTaken(table: Table, limits: Limits, args: seq<string>, i: nat, seen: set<Key>)
    requires i < |args| && Find(table, Lower(args[i])) == Some(Simple("limit", LimitKey, 2, LimitOf))
    ensures Options(table, limits, args, 0, i, seen) ==
              if LimitKey in seen then Err(Refusal(DuplicateArgument, None))
              else if i + 2 >= |args| then Err(Refusal(WrongArity, None))
              else
                match LimitOption(limits, args[i + 1], args[i + 2])
                case Some(refusal) => Err(refusal)
                case None => Options(table, limits, args, 0, i + 3, seen + {LimitKey})
  {
    Valued(table, limits, args, 0, i, seen, Simple("limit", LimitKey, 2, LimitOf));
    CheckedTwo(limits, args, i);
    hide Options, Find, Lower, CheckValues, LimitOption;
  }

  // ----- the scanners -----

  method ReadScanOptions(limits: Limits, args: seq<string>, offset: nat, extra: string) returns (r: Option<Refusal>)
    ensures r == ScanOptions(limits, args, offset, extra)
  {
    hide Options, Lower, CheckValues, CountOption, LimitOption, RankOption, MatchesOption, MaxlenOption, GeoUnit;
    var matching, count, typ, flag := false, false, false, false;
    ghost var seen: set<Key> := {};
    var i := 0;
    while i < |args|
      invariant 0 <= i <= |args|
      invariant Options(ScanTable(extra), limits, args, offset, 0, {}) ==
                Options(ScanTable(extra), limits, args, offset, i, seen)
      invariant (matching <==> MatchKey in seen) && (count <==> CountKey in seen)
      invariant (typ <==> TypeKey in seen) && (flag <==> NoValuesKey in seen)
    {
      if EqualFold(args[i], "match") {
        Valued(ScanTable(extra), limits, args, offset, i, seen, Simple("match", MatchKey, 1, Anything));
        CheckedOne(limits, args, i);
        if matching {
          return Refuse(DuplicateArgument);
        }
        if i + 1 >= |args| {
          return Refuse(WrongArity);
        }
        matching, seen := true, seen + {MatchKey};
        i := i + 1;
      } else if EqualFold(args[i], "count") {
        Valued(ScanTable(extra), limits, args, offset, i, seen, Simple("count", CountKey, 1, CountOf));
        CheckedOne(limits, args, i);
        if count {
          return Refuse(DuplicateArgument);
        }
        if i + 1 >= |args| {
          return Refuse(WrongArity);
        }
        var refusal := CountOption(limits, args[i + 1]);
        if refusal.Some? {
          return refusal;
        }
        count, seen := true, seen + {CountKey};
        i := i + 1;
      } else if extra == "type" && EqualFold(args[i], "type") {
        Valued(ScanTable(extra), limits, args, offset, i, seen, Simple("type", TypeKey, 1, Anything));
        CheckedOne(limits, args, i);
        if typ {
          return Refuse(DuplicateArgument);
        }
        if i + 1 >= |args| {
          return Refuse(WrongArity);
        }
        typ, seen := true, seen + {TypeKey};
        i := i + 1;
      } else if extra == "novalues" && EqualFold(args[i], "novalues") {
        Bare(ScanTable(extra), limits, args, offset, i, seen, Simple("novalues", NoValuesKey, 0, Anything));
        if flag {
          return Refuse(DuplicateArgument);
        }
        flag, seen := true, seen + {NoValuesKey};
      } else {
        NotAnOption(ScanTable(extra), limits, args, offset, i, seen);
        return Unknown(offset + i);
      }
      i := i + 1;
    }
    OptionsDone(ScanTable(extra), limits, args, offset, i, seen);
    r := if !count then Refuse(MissingCount) else None;
  }

  /** The words of LPOS, and that there are no others. */
  lemma ListPosFinds(word: string)
    ensures var found := Find(ListPosTable, Lower(word));
      && (EqualFold(word, "rank") ==> found == Some(Simple("rank", RankKey, 1, RankOf)))
      && (EqualFold(word, "count") ==> found == Some(Simple("count", CountKey, 1, MatchesOf)))
      && (EqualFold(word, "maxlen") ==> found == Some(Simple("maxlen", MaxlenKey, 1, MaxlenOf)))
      && (found.Some? ==> EqualFold(word, "rank") || EqualFold(word, "count") || EqualFold(word, "maxlen"))
  {
    hide Lower;
  }

  method ReadListPos(limits: Limits, args: seq<string>) returns (r: Option<Refusal>)
    ensures r == CheckListPos(limits, args)
  {
    if |args| < 2 {
      return Refuse(WrongArity);
    }
    hide Options, Lower, CheckValues, CountOption, LimitOption, RankOption, MatchesOption, MaxlenOption, GeoUnit, Find,
      EqualFold;
    var rank, count, maxlen := false, false, false;
    ghost var seen: set<Key> := {};
    var i := 2;
    while i < |args|
      invariant 2 <= i <= |args|
      invariant Options(ListPosTable, limits, args, 0, 2, {}) ==
                Options(ListPosTable, limits, args, 0, i, seen)
      invariant (rank <==> RankKey in seen) && (count <==> CountKey in seen) && (maxlen <==> MaxlenKey in seen)
    {
      ListPosFinds(args[i]);
      if EqualFold(args[i], "rank") {
        OneTaken(ListPosTable, limits, args, i, seen, "rank", RankKey, RankOf);
        if rank {
          return Refuse(DuplicateArgument);
        }
        if i + 1 >= |args| {
          return Refuse(WrongArity);
        }
        var refusal := RankOption(args[i + 1]);
        if refusal.Some? {
          return refusal;
        }
        rank, seen := true, seen + {RankKey};
        i := i + 1;
      } else if EqualFold(args[i], "count") {
        OneTaken(ListPosTable, limits, args, i, seen, "count", CountKey, MatchesOf);
        if count {
          return Refuse(DuplicateArgument);
        }
        if i + 1 >= |args| {
          return Refuse(WrongArity);
        }
        var refusal := MatchesOption(limits, args[i + 1]);
        if refusal.Some? {
          return refusal;
        }
        count, seen := true, seen + {CountKey};
        i := i + 1;
      } else if EqualFold(args[i], "maxlen") {
        OneTaken(ListPosTable, limits, args, i, seen, "maxlen", MaxlenKey, MaxlenOf);
        if maxlen {
          return Refuse(DuplicateArgument);
        }
        if i + 1 >= |args| {
          return Refuse(WrongArity);
        }
        var refusal := MaxlenOption(limits, args[i + 1]);
        if refusal.Some? {
          return refusal;
        }
        maxlen, seen := true, seen + {MaxlenKey};
        i := i + 1;
      } else {
        NotAnOption(ListPosTable, limits, args, 0, i, seen);
        return Unknown(i);
      }
      i := i + 1;
    }
    OptionsDone(ListPosTable, limits, args, 0, i, seen);
    r := if !maxlen then Refuse(MissingMaxlen) else None;
  }

  method ReadZRange(limits: Limits, args: seq<string>) returns (r: Option<Refusal>)
    ensures r == CheckZRange(limits, args)
  {
    if |args| < 3 {
      return Refuse(WrongArity);
    }
    hide Options, Lower, CheckValues, CountOption, LimitOption, RankOption, MatchesOption, MaxlenOption, GeoUnit;
    var byScore, byLex, rev, limit, withScores := false, false, false, false, false;
    ghost var seen: set<Key> := {};
    var i := 3;
    while i < |args|
      invariant 3 <= i <= |args|
      invariant Options(ZRangeTable, limits, args, 0, 3, {}) ==
                Options(ZRangeTable, limits, args, 0, i, seen)
      invariant (byScore <==> ByScoreKey in seen) && (byLex <==> ByLexKey in seen) && (rev <==> RevKey in seen)
      invariant (limit <==> LimitKey in seen) && (withScores <==> WithScoresKey in seen)
    {
      if EqualFold(args[i], "byscore") {
        Bare(ZRangeTable, limits, args, 0, i, seen, Simple("byscore", ByScoreKey, 0, Anything));
        if byScore {
          return Refuse(DuplicateArgument);
        }
        byScore, seen := true, seen + {ByScoreKey};
      } else if EqualFold(args[i], "bylex") {
        Bare(ZRangeTable, limits, args, 0, i, seen, Simple("bylex", ByLexKey, 0, Anything));
        if byLex {
          return Refuse(DuplicateArgument);
        }
        byLex, seen := true, seen + {ByLexKey};
      } else if EqualFold(args[i], "rev") {
        Bare(ZRangeTable, limits, args, 0, i, seen, Simple("rev", RevKey, 0, Anything));
        if rev {
          return Refuse(DuplicateArgument);
        }
        rev, seen := true, seen + {RevKey};
      } else if EqualFold(args[i], "withscores") {
        Bare(ZRangeTable, limits, args, 0, i, seen, Simple("withscores", WithScoresKey, 0, Anything));
        if withScores {
          return Refuse(DuplicateArgument);
        }
        withScores, seen := true, seen + {WithScoresKey};
      } else if EqualFold(args[i], "limit") {
        LimitTaken(ZRangeTable, limits, args, i, seen);
        if limit {
          return Refuse(DuplicateArgument);
        }
        if i + 2 >= |args| {
          return Refuse(WrongArity);
        }
        var refusal := LimitOption(limits, args[i + 1], args[i + 2]);
        if refusal.Some? {
          return refusal;
        }
        limit, seen := true, seen + {LimitKey};
        i := i + 2;
      } else {
        NotAnOption(ZRangeTable, limits, args, 0, i, seen);
        return Unknown(i);
      }
      i := i + 1;
    }
    OptionsDone(ZRangeTable, limits, args, 0, i, seen);
    if byScore && byLex {
      return Refuse(InvalidArgument);
    } else if byLex && withScores {
      return Refuse(InvalidArgument);
    } else if byScore || byLex {
      return if !limit then Refuse(MissingLimit) else None;
    } else if limit {
      return Refuse(InvalidArgument);
    }
    r := Window(limits, args[1], args[2]);
  }

  method ReadZRangeBy(limits: Limits, args: seq<string>, scores: bool) returns (r: Option<Refusal>)
    ensures r == CheckZRangeBy(limits, args, scores)
  {
    if |args| < 3 {
      return Refuse(WrongArity);
    }
    hide Options, Lower, CheckValues, CountOption, LimitOption, RankOption, MatchesOption, MaxlenOption, GeoUnit;
    var limit, withScores := false, false;
    ghost var seen: set<Key> := {};
    var i := 3;
    while i < |args|
      invariant 3 <= i <= |args|
      invariant Options(ZRangeByTable(scores), limits, args, 0, 3, {}) ==
                Options(ZRangeByTable(scores), limits, args, 0, i, seen)
      invariant (limit <==> LimitKey in seen) && (withScores <==> WithScoresKey in seen)
    {
      if scores && EqualFold(args[i], "withscores") {
        Bare(ZRangeByTable(scores), limits, args, 0, i, seen, Simple("withscores", WithScoresKey, 0, Anything));
        if withScores {
          return Refuse(DuplicateArgument);
        }
        withScores, seen := true, seen + {WithScoresKey};
      } else if EqualFold(args[i], "limit") {
        LimitTaken(ZRangeByTable(scores), limits, args, i, seen);
        if limit {
          return Refuse(DuplicateArgument);
        }
        if i + 2 >= |args| {
          return Refuse(WrongArity);
        }
        var refusal := LimitOption(limits, args[i + 1], args[i + 2]);
        if refusal.Some? {
          return refusal;
        }
        limit, seen := true, seen + {LimitKey};
        i := i + 2;
      } else {
        NotAnOption(ZRangeByTable(scores), limits, args, 0, i, seen);
        return Unknown(i);
      }
      i := i + 1;
    }
    OptionsDone(ZRangeByTable(scores), limits, args, 0, i, seen);
    r := if !limit then Refuse(MissingLimit) else None;
  }

  method ReadXRange(limits: Limits, args: seq<string>) returns (r: Option<Refusal>)
    ensures r == CheckXRange(limits, args)
  {
    if |args| < 3 {
      return Refuse(WrongArity);
    }
    hide Options, Lower, CheckValues, CountOption;
    var count := false;
    ghost var seen: set<Key> := {};
    var i := 3;
    while i < |args|
      invariant 3 <= i <= |args|
      invariant Options(XRangeTable, limits, args, 0, 3, {}) == Options(XRangeTable, limits, args, 0, i, seen)
      invariant count <==> CountKey in seen
    {
      if !EqualFold(args[i], "count") {
        NotAnOption(XRangeTable, limits, args, 0, i, seen);
        return Unknown(i);
      }
      Valued(XRangeTable, limits, args, 0, i, seen, Simple("count", CountKey, 1, CountOf));
      CheckedOne(limits, args, i);
      if count {
        return Refuse(DuplicateArgument);
      }
      if i + 1 >= |args| {
        return Refuse(WrongArity);
      }
      var refusal := CountOption(limits, args[i + 1]);
      if refusal.Some? {
        return refusal;
      }
      count, seen := true, seen + {CountKey};
      i := i + 1;
      i := i + 1;
    }
    OptionsDone(XRangeTable, limits, args, 0, i, seen);
    r := if !count then Refuse(MissingCount) else None;
  }

  /** The words of GEOSEARCH, and that there are no others. */
  lemma GeoFinds(word: string)
    ensures var found := Find(GeoTable, Lower(word));
      && (EqualFold(word, "frommember") ==> found == Some(Opt("frommember", FromKey, 1, Anything, InvalidArgument, "")))
      && (EqualFold(word, "fromlonlat") ==> found == Some(Opt("fromlonlat", FromKey, 2, Anything, InvalidArgument, "")))
      && (EqualFold(word, "byradius") ==> found == Some(Opt("byradius", ByKey, 2, UnitLast, InvalidArgument, "")))
      && (EqualFold(word, "bybox") ==> found == Some(Opt("bybox", ByKey, 3, UnitLast, InvalidArgument, "")))
      && (EqualFold(word, "asc") || EqualFold(word, "desc") ==>
            found.Some? && found.value == Opt(found.value.word, OrderKey, 0, Anything, DuplicateArgument, ""))
      && (EqualFold(word, "count") ==> found == Some(Opt("count", CountKey, 1, CountOf, DuplicateArgument, "any")))
      && (EqualFold(word, "withcoord") ==> found == Some(Simple("withcoord", WithCoordKey, 0, Anything)))
      && (EqualFold(word, "withdist") ==> found == Some(Simple("withdist", WithDistKey, 0, Anything)))
      && (EqualFold(word, "withhash") ==> found == Some(Simple("withhash", WithHashKey, 0, Anything)))
      && (found.Some? ==>
            || EqualFold(word, "frommember") || EqualFold(word, "fromlonlat") || EqualFold(word, "byradius")
            || EqualFold(word, "bybox") || EqualFold(word, "asc") || EqualFold(word, "desc") || EqualFold(word, "count")
            || EqualFold(word, "withcoord") || EqualFold(word, "withdist") || EqualFold(word, "withhash"))
  {
    hide Lower;
  }

  /** The scanner's seven flags. */
  datatype GeoFlags = GeoFlags(origin: bool, reach: bool, order: bool, count: bool, coord: bool, dist: bool, hash: bool)

  ghost predicate Agrees(seen: set<Key>, flags: GeoFlags) {
    && (FromKey in seen <==> flags.origin) && (ByKey in seen <==> flags.reach) && (OrderKey in seen <==> flags.order)
    && (CountKey in seen <==> flags.count) && (WithCoordKey in seen <==> flags.coord)
    && (WithDistKey in seen <==> flags.dist) && (WithHashKey in seen <==> flags.hash)
  }

  predicate FlagOf(flags: GeoFlags, key: Key) {
    match key
    case FromKey => flags.origin
    case ByKey => flags.reach
    case OrderKey => flags.order
    case CountKey => flags.count
    case WithCoordKey => flags.coord
    case WithDistKey => flags.dist
    case WithHashKey => flags.hash
    case _ => false
  }

  function Raised(flags: GeoFlags, key: Key): GeoFlags {
    match key
    case FromKey => flags.(origin := true)
    case ByKey => flags.(reach := true)
    case OrderKey => flags.(order := true)
    case CountKey => flags.(count := true)
    case WithCoordKey => flags.(coord := true)
    case WithDistKey => flags.(dist := true)
    case WithHashKey => flags.(hash := true)
    case _ => flags
  }

  lemma Marked(seen: set<Key>, flags: GeoFlags, key: Key)
    requires Agrees(seen, flags) && key in {FromKey, ByKey, OrderKey, CountKey, WithCoordKey, WithDistKey, WithHashKey}
    ensures key in seen <==> FlagOf(flags, key)
    ensures Agrees(seen + {key}, Raised(flags, key))
  {
  }

  /** Where a search starts, or how far it reaches. */
  predicate PlacesSearch(s: string) {
    EqualFold(s, "frommember") || EqualFold(s, "fromlonlat") || EqualFold(s, "byradius") || EqualFold(s, "bybox")
  }

  /** One case of the switch: the refusal, or how much was taken, and the flags from there on. */
  ghost predicate Read(
    limits: Limits, args: seq<string>, i: nat, seen: set<Key>, r: Option<Refusal>, taken: nat, flags: GeoFlags,
    later: set<Key>)
  {
    && i < |args|
    && (r.Some? ==> Options(GeoTable, limits, args, 0, i, seen) == Err(r.value))
    && (r.None? ==>
          && 0 < taken <= |args| - i && Agrees(later, flags)
          && Options(GeoTable, limits, args, 0, i, seen) == Options(GeoTable, limits, args, 0, i + taken, later))
  }

  /** The cases that place a search. */
  method ReadGeoPlace(limits: Limits, args: seq<string>, i: nat, before: GeoFlags, ghost seen: set<Key>)
    returns (r: Option<Refusal>, taken: nat, flags: GeoFlags, ghost later: set<Key>)
    requires i < |args| && Agrees(seen, before) && PlacesSearch(args[i])
    ensures Read(limits, args, i, seen, r, taken, flags, later)
  {
    hide Agrees, EqualFold, Find, Options, Lower, CheckValues, CountOption, LimitOption,
      RankOption, MatchesOption, MaxlenOption, GeoUnit;
    GeoFinds(args[i]);
    taken, flags, later := 0, before, seen;
    if EqualFold(args[i], "frommember") {
      Marked(seen, before, FromKey);
      Valued(GeoTable, limits, args, 0, i, seen, Opt("frommember", FromKey, 1, Anything, InvalidArgument, ""));
      CheckedOne(limits, args, i);
      if before.origin {
        return Refuse(InvalidArgument), taken, flags, later;
      }
      if i + 1 >= |args| {
        return Refuse(WrongArity), taken, flags, later;
      }
      return None, 2, before.(origin := true), seen + {FromKey};
    } else if EqualFold(args[i], "fromlonlat") {
      Marked(seen, before, FromKey);
      Valued(GeoTable, limits, args, 0, i, seen, Opt("fromlonlat", FromKey, 2, Anything, InvalidArgument, ""));
      CheckedTwo(limits, args, i);
      if before.origin {
        return Refuse(InvalidArgument), taken, flags, later;
      }
      if i + 2 >= |args| {
        return Refuse(WrongArity), taken, flags, later;
      }
      return None, 3, before.(origin := true), seen + {FromKey};
    } else if EqualFold(args[i], "byradius") {
      Marked(seen, before, ByKey);
      Measured(GeoTable, limits, args, 0, i, seen, Opt("byradius", ByKey, 2, UnitLast, InvalidArgument, ""));
      if before.reach {
        return Refuse(InvalidArgument), taken, flags, later;
      }
      if i + 2 >= |args| {
        return Refuse(WrongArity), taken, flags, later;
      }
      if !GeoUnit(args[i + 2]) {
        return Unknown(i + 2), taken, flags, later;
      }
      return None, 3, before.(reach := true), seen + {ByKey};
    } else {
      Marked(seen, before, ByKey);
      Measured(GeoTable, limits, args, 0, i, seen, Opt("bybox", ByKey, 3, UnitLast, InvalidArgument, ""));
      if before.reach {
        return Refuse(InvalidArgument), taken, flags, later;
      }
      if i + 3 >= |args| {
        return Refuse(WrongArity), taken, flags, later;
      }
      if !GeoUnit(args[i + 3]) {
        return Unknown(i + 3), taken, flags, later;
      }
      return None, 4, before.(reach := true), seen + {ByKey};
    }
  }

  /** The case that bounds a search, which ANY may follow. */
  method ReadGeoCount(limits: Limits, args: seq<string>, i: nat, before: GeoFlags, ghost seen: set<Key>)
    returns (r: Option<Refusal>, taken: nat, flags: GeoFlags, ghost later: set<Key>)
    requires i < |args| && Agrees(seen, before) && EqualFold(args[i], "count")
    ensures Read(limits, args, i, seen, r, taken, flags, later)
  {
    hide Agrees, Find, Options, Lower, CheckValues, CountOption, LimitOption,
      RankOption, MatchesOption, MaxlenOption, GeoUnit;
    GeoFinds(args[i]);
    taken, flags, later := 0, before, seen;
    Marked(seen, before, CountKey);
    Trailed(GeoTable, limits, args, 0, i, seen, Opt("count", CountKey, 1, CountOf, DuplicateArgument, "any"));
    if before.count {
      return Refuse(DuplicateArgument), taken, flags, later;
    }
    if i + 1 >= |args| {
      return Refuse(WrongArity), taken, flags, later;
    }
    r := CountOption(limits, args[i + 1]);
    if r.Some? {
      return;
    }
    var any := i + 2 < |args| && EqualFold(args[i + 2], "any");
    return None, if any then 3 else 2, before.(count := true), seen + {CountKey};
  }

  /** The remaining cases, and the default. */
  method ReadGeoFlag(limits: Limits, args: seq<string>, i: nat, before: GeoFlags, ghost seen: set<Key>)
    returns (r: Option<Refusal>, taken: nat, flags: GeoFlags, ghost later: set<Key>)
    requires i < |args| && Agrees(seen, before) && !PlacesSearch(args[i]) && !EqualFold(args[i], "count")
    ensures Read(limits, args, i, seen, r, taken, flags, later)
  {
    hide Agrees, EqualFold, Find, Options, Lower, CheckValues, CountOption, LimitOption,
      RankOption, MatchesOption, MaxlenOption, GeoUnit;
    GeoFinds(args[i]);
    taken, flags, later := 0, before, seen;
    if EqualFold(args[i], "asc") || EqualFold(args[i], "desc") {
      Marked(seen, before, OrderKey);
      Bare(GeoTable, limits, args, 0, i, seen, Find(GeoTable, Lower(args[i])).value);
      if before.order {
        return Refuse(DuplicateArgument), taken, flags, later;
      }
      return None, 1, before.(order := true), seen + {OrderKey};
    } else if EqualFold(args[i], "withcoord") {
      Marked(seen, before, WithCoordKey);
      Bare(GeoTable, limits, args, 0, i, seen, Simple("withcoord", WithCoordKey, 0, Anything));
      if before.coord {
        return Refuse(DuplicateArgument), taken, flags, later;
      }
      return None, 1, before.(coord := true), seen + {WithCoordKey};
    } else if EqualFold(args[i], "withdist") {
      Marked(seen, before, WithDistKey);
      Bare(GeoTable, limits, args, 0, i, seen, Simple("withdist", WithDistKey, 0, Anything));
      if before.dist {
        return Refuse(DuplicateArgument), taken, flags, later;
      }
      return None, 1, before.(dist := true), seen + {WithDistKey};
    } else if EqualFold(args[i], "withhash") {
      Marked(seen, before, WithHashKey);
      Bare(GeoTable, limits, args, 0, i, seen, Simple("withhash", WithHashKey, 0, Anything));
      if before.hash {
        return Refuse(DuplicateArgument), taken, flags, later;
      }
      return None, 1, before.(hash := true), seen + {WithHashKey};
    }
    NotAnOption(GeoTable, limits, args, 0, i, seen);
    r := Unknown(i);
  }

  /** The case of the switch that the word at `i` is. */
  method ReadGeoOption(limits: Limits, args: seq<string>, i: nat, before: GeoFlags, ghost seen: set<Key>)
    returns (r: Option<Refusal>, taken: nat, flags: GeoFlags, ghost later: set<Key>)
    requires i < |args| && Agrees(seen, before)
    ensures Read(limits, args, i, seen, r, taken, flags, later)
  {
    hide *;
    if PlacesSearch(args[i]) {
      r, taken, flags, later := ReadGeoPlace(limits, args, i, before, seen);
    } else if EqualFold(args[i], "count") {
      r, taken, flags, later := ReadGeoCount(limits, args, i, before, seen);
    } else {
      r, taken, flags, later := ReadGeoFlag(limits, args, i, before, seen);
    }
  }

  lemma GeoEnds(limits: Limits, args: seq<string>, seen: set<Key>, flags: GeoFlags)
    requires |args| >= 1 && Agrees(seen, flags)
    requires Options(GeoTable, limits, args, 0, 1, {}) == Options(GeoTable, limits, args, 0, |args|, seen)
    ensures CheckGeoSearch(limits, args) ==
              if !flags.origin || !flags.reach then Some(Refusal(InvalidArgument, None))
              else if !flags.count then Some(Refusal(MissingCount, None))
              else None
  {
    OptionsDone(GeoTable, limits, args, 0, |args|, seen);
    hide Options;
  }

  lemma GeoStep(
    limits: Limits, args: seq<string>, i: nat, seen: set<Key>, r: Option<Refusal>, taken: nat, flags: GeoFlags,
    later: set<Key>)
    requires 1 <= i && Read(limits, args, i, seen, r, taken, flags, later)
    requires Options(GeoTable, limits, args, 0, 1, {}) == Options(GeoTable, limits, args, 0, i, seen)
    ensures r.Some? ==> CheckGeoSearch(limits, args) == r
    ensures r.None? ==>
              && 0 < taken && i + taken <= |args| && Agrees(later, flags)
              && Options(GeoTable, limits, args, 0, 1, {}) == Options(GeoTable, limits, args, 0, i + taken, later)
  {
    hide Options, Agrees;
  }

  lemma GeoStarts(limits: Limits, args: seq<string>)
    ensures |args| < 1 ==> CheckGeoSearch(limits, args) == Some(Refusal(WrongArity, None))
    ensures Agrees({}, GeoFlags(false, false, false, false, false, false, false))
  {
  }

  method ReadGeoSearch(limits: Limits, args: seq<string>) returns (r: Option<Refusal>)
    ensures r == CheckGeoSearch(limits, args)
  {
    hide *;
    GeoStarts(limits, args);
    if |args| < 1 {
      return Some(Refusal(WrongArity, None));
    }
    var flags := GeoFlags(false, false, false, false, false, false, false);
    ghost var seen: set<Key> := {};
    var i := 1;
    while i < |args|
      invariant 1 <= i <= |args| && Agrees(seen, flags)
      invariant Options(GeoTable, limits, args, 0, 1, {}) == Options(GeoTable, limits, args, 0, i, seen)
    {
      ghost var was := seen;
      var taken;
      r, taken, flags, seen := ReadGeoOption(limits, args, i, flags, seen);
      GeoStep(limits, args, i, was, r, taken, flags, seen);
      if r.Some? {
        return;
      }
      i := i + taken;
    }
    GeoEnds(limits, args, seen, flags);
    if !flags.origin || !flags.reach {
      return Some(Refusal(InvalidArgument, None));
    }
    r := if !flags.count then Some(Refusal(MissingCount, None)) else None;
  }
}
