/**
  What the Redis gate serves, command by command, in the letters a client writes: the commands, what
  each may be given, and why everything else is refused.
 */
module RedisServed {
  import opened Wrappers
  import opened RedisText
  import opened RedisRules
  import opened RedisGrammar
  import opened RedisGate

  // ----- the commands -----

  function Found(entries: seq<Entry>, name: string, sub: string): Option<Check> {
    match Lookup(entries, name, sub)
    case Some(e) => Some(e.check)
    case None => None
  }

  lemma {:induction false} LookupScans(entries: seq<Entry>, name: string, sub: string)
    ensures Lookup(entries, name, sub).Some? ==>
              exists k :: 0 <= k < |entries| && entries[k] == Lookup(entries, name, sub).value && Names(entries[k], name, sub)
    ensures Lookup(entries, name, sub).None? ==> forall k :: 0 <= k < |entries| ==> !Names(entries[k], name, sub)
  {
    hide Names;
    if entries != [] {
      LookupScans(entries[..|entries| - 1], name, sub);
    }
  }

  lemma {:induction false} LookupJoins(a: seq<Entry>, b: seq<Entry>, name: string, sub: string)
    ensures Lookup(a + b, name, sub) == if Lookup(b, name, sub).Some? then Lookup(b, name, sub) else Lookup(a, name, sub)
  {
    hide Names;
    if b == [] {
      assert a + b == a;
    } else {
      assert (a + b)[..|a + b| - 1] == a + b[..|b| - 1];
      LookupJoins(a, b[..|b| - 1], name, sub);
    }
  }

  /** An entry of these names, in lower case, with this check. */
  predicate Goes(e: Entry, name: string, sub: string, check: Check) {
    Lower(e.name) == name && Lower(e.subcommand) == sub && e.check == check
  }

  /** On keys of any kind, and the server itself. */
  function KeyKind(name: string, sub: string): Option<Check> {
    if sub == "" then
      if name == "scan" then Some(Scan)
      else if name == "type" || name == "ttl" || name == "pttl" || name == "expiretime" || name == "pexpiretime"
      then Some(Fixed(1))
      else if name == "exists" then Some(Variadic(0, 1))
      else if name == "dbsize" || name == "randomkey" then Some(Fixed(0))
      else None
    else if name == "object" && (sub == "encoding" || sub == "freq" || sub == "idletime" || sub == "refcount")
    then Some(Fixed(1))
    else if name == "memory" && sub == "usage" then Some(MemoryUsage)
    else None
  }

  lemma KeysLoweredFirst()
    ensures Lower("SCAN") == "scan" && Lower("TYPE") == "type" && Lower("EXISTS") == "exists" && Lower("TTL") == "ttl"
    ensures Lower("PTTL") == "pttl" && Lower("EXPIRETIME") == "expiretime" && Lower("PEXPIRETIME") == "pexpiretime" && Lower("OBJECT") == "object"
    ensures Lower("") == ""
  {
  }

  lemma KeysLoweredSecond()
    ensures Lower("ENCODING") == "encoding" && Lower("FREQ") == "freq" && Lower("IDLETIME") == "idletime" && Lower("REFCOUNT") == "refcount"
    ensures Lower("MEMORY") == "memory" && Lower("USAGE") == "usage" && Lower("DBSIZE") == "dbsize" && Lower("RANDOMKEY") == "randomkey"
    ensures Lower("") == ""
  {
  }

  lemma KeysNamedFirst()
    ensures |ON_KEYS| == 14
    ensures Goes(ON_KEYS[0], "scan", "", Scan)
    ensures Goes(ON_KEYS[1], "type", "", Fixed(1))
    ensures Goes(ON_KEYS[2], "exists", "", Variadic(0, 1))
    ensures Goes(ON_KEYS[3], "ttl", "", Fixed(1))
    ensures Goes(ON_KEYS[4], "pttl", "", Fixed(1))
    ensures Goes(ON_KEYS[5], "expiretime", "", Fixed(1))
    ensures Goes(ON_KEYS[6], "pexpiretime", "", Fixed(1))
  {
    hide Lower;
    KeysLoweredFirst();
  }

  lemma KeysNamedSecond()
    ensures |ON_KEYS| == 14
    ensures Goes(ON_KEYS[7], "object", "encoding", Fixed(1))
    ensures Goes(ON_KEYS[8], "object", "freq", Fixed(1))
    ensures Goes(ON_KEYS[9], "object", "idletime", Fixed(1))
    ensures Goes(ON_KEYS[10], "object", "refcount", Fixed(1))
    ensures Goes(ON_KEYS[11], "memory", "usage", MemoryUsage)
    ensures Goes(ON_KEYS[12], "dbsize", "", Fixed(0))
    ensures Goes(ON_KEYS[13], "randomkey", "", Fixed(0))
  {
    hide Lower;
    KeysLoweredFirst();
    KeysLoweredSecond();
  }

  lemma KeysServed(name: string, sub: string)
    ensures Found(ON_KEYS, name, sub) == KeyKind(name, sub)
  {
    LookupScans(ON_KEYS, name, sub);
    KeysNamedFirst();
    KeysNamedSecond();
    hide Lower, Lookup, ON_KEYS;
  }

  /** On strings. */
  function StringKind(name: string, sub: string): Option<Check> {
    if sub == "" then
      if name == "get" || name == "strlen" then Some(Fixed(1))
      else if name == "mget" then Some(Variadic(0, 1))
      else if name == "getrange" || name == "substr" then Some(GetRange)
      else if name == "getbit" then Some(GetBit)
      else if name == "bitcount" then Some(BitCount)
      else if name == "bitpos" then Some(BitPos)
      else None
    else None
  }

  lemma StringsLowered()
    ensures Lower("GET") == "get" && Lower("MGET") == "mget" && Lower("STRLEN") == "strlen" && Lower("GETRANGE") == "getrange"
    ensures Lower("SUBSTR") == "substr" && Lower("GETBIT") == "getbit" && Lower("BITCOUNT") == "bitcount" && Lower("BITPOS") == "bitpos"
    ensures Lower("") == ""
  {
  }

  lemma StringsNamed()
    ensures |ON_STRINGS| == 8
    ensures Goes(ON_STRINGS[0], "get", "", Fixed(1))
    ensures Goes(ON_STRINGS[1], "mget", "", Variadic(0, 1))
    ensures Goes(ON_STRINGS[2], "strlen", "", Fixed(1))
    ensures Goes(ON_STRINGS[3], "getrange", "", GetRange)
    ensures Goes(ON_STRINGS[4], "substr", "", GetRange)
    ensures Goes(ON_STRINGS[5], "getbit", "", GetBit)
    ensures Goes(ON_STRINGS[6], "bitcount", "", BitCount)
    ensures Goes(ON_STRINGS[7], "bitpos", "", BitPos)
  {
    hide Lower;
    StringsLowered();
  }

  lemma StringsServed(name: string, sub: string)
    ensures Found(ON_STRINGS, name, sub) == StringKind(name, sub)
  {
    LookupScans(ON_STRINGS, name, sub);
    StringsNamed();
    hide Lower, Lookup, ON_STRINGS;
  }

  /** On hashes. */
  function HashKind(name: string, sub: string): Option<Check> {
    if sub == "" then
      if name == "hget" || name == "hstrlen" || name == "hexists" then Some(Fixed(2))
      else if name == "hmget" then Some(Variadic(1, 1))
      else if name == "hlen" then Some(Fixed(1))
      else if name == "hscan" then Some(KeyScan("novalues"))
      else if name == "hrandfield" then Some(RandomOf("withvalues"))
      else None
    else None
  }

  lemma HashesLowered()
    ensures Lower("HGET") == "hget" && Lower("HMGET") == "hmget" && Lower("HLEN") == "hlen" && Lower("HSTRLEN") == "hstrlen"
    ensures Lower("HEXISTS") == "hexists" && Lower("HSCAN") == "hscan" && Lower("HRANDFIELD") == "hrandfield"
    ensures Lower("") == ""
  {
  }

  lemma HashesNamed()
    ensures |ON_HASHES| == 7
    ensures Goes(ON_HASHES[0], "hget", "", Fixed(2))
    ensures Goes(ON_HASHES[1], "hmget", "", Variadic(1, 1))
    ensures Goes(ON_HASHES[2], "hlen", "", Fixed(1))
    ensures Goes(ON_HASHES[3], "hstrlen", "", Fixed(2))
    ensures Goes(ON_HASHES[4], "hexists", "", Fixed(2))
    ensures Goes(ON_HASHES[5], "hscan", "", KeyScan("novalues"))
    ensures Goes(ON_HASHES[6], "hrandfield", "", RandomOf("withvalues"))
  {
    hide Lower;
    HashesLowered();
  }

  lemma HashesServed(name: string, sub: string)
    ensures Found(ON_HASHES, name, sub) == HashKind(name, sub)
  {
    LookupScans(ON_HASHES, name, sub);
    HashesNamed();
    hide Lower, Lookup, ON_HASHES;
  }

  /** On lists. */
  function ListKind(name: string, sub: string): Option<Check> {
    if sub == "" then
      if name == "llen" then Some(Fixed(1))
      else if name == "lindex" then Some(ListIndex)
      else if name == "lrange" then Some(ListRange)
      else if name == "lpos" then Some(ListPos)
      else None
    else None
  }

  lemma ListsLowered()
    ensures Lower("LLEN") == "llen" && Lower("LINDEX") == "lindex" && Lower("LRANGE") == "lrange" && Lower("LPOS") == "lpos"
    ensures Lower("") == ""
  {
  }

  lemma ListsNamed()
    ensures |ON_LISTS| == 4
    ensures Goes(ON_LISTS[0], "llen", "", Fixed(1))
    ensures Goes(ON_LISTS[1], "lindex", "", ListIndex)
    ensures Goes(ON_LISTS[2], "lrange", "", ListRange)
    ensures Goes(ON_LISTS[3], "lpos", "", ListPos)
  {
    hide Lower;
    ListsLowered();
  }

  lemma ListsServed(name: string, sub: string)
    ensures Found(ON_LISTS, name, sub) == ListKind(name, sub)
  {
    LookupScans(ON_LISTS, name, sub);
    ListsNamed();
    hide Lower, Lookup, ON_LISTS;
  }

  /** On sets. */
  function SetKind(name: string, sub: string): Option<Check> {
    if sub == "" then
      if name == "scard" then Some(Fixed(1))
      else if name == "sismember" then Some(Fixed(2))
      else if name == "smismember" then Some(Variadic(1, 1))
      else if name == "sscan" then Some(KeyScan(""))
      else if name == "srandmember" then Some(RandomOf(""))
      else None
    else None
  }

  lemma SetsLowered()
    ensures Lower("SCARD") == "scard" && Lower("SISMEMBER") == "sismember" && Lower("SMISMEMBER") == "smismember" && Lower("SSCAN") == "sscan"
    ensures Lower("SRANDMEMBER") == "srandmember"
    ensures Lower("") == ""
  {
  }

  lemma SetsNamed()
    ensures |ON_SETS| == 5
    ensures Goes(ON_SETS[0], "scard", "", Fixed(1))
    ensures Goes(ON_SETS[1], "sismember", "", Fixed(2))
    ensures Goes(ON_SETS[2], "smismember", "", Variadic(1, 1))
    ensures Goes(ON_SETS[3], "sscan", "", KeyScan(""))
    ensures Goes(ON_SETS[4], "srandmember", "", RandomOf(""))
  {
    hide Lower;
    SetsLowered();
  }

  lemma SetsServed(name: string, sub: string)
    ensures Found(ON_SETS, name, sub) == SetKind(name, sub)
  {
    LookupScans(ON_SETS, name, sub);
    SetsNamed();
    hide Lower, Lookup, ON_SETS;
  }

  /** On sorted sets. */
  function SortedSetKind(name: string, sub: string): Option<Check> {
    if sub == "" then
      if name == "zcard" then Some(Fixed(1))
      else if name == "zscore" then Some(Fixed(2))
      else if name == "zmscore" then Some(Variadic(1, 1))
      else if name == "zrank" || name == "zrevrank" then Some(ZRank)
      else if name == "zcount" || name == "zlexcount" then Some(Fixed(3))
      else None
    else None
  }

  lemma SortedSetsLowered()
    ensures Lower("ZCARD") == "zcard" && Lower("ZSCORE") == "zscore" && Lower("ZMSCORE") == "zmscore" && Lower("ZRANK") == "zrank"
    ensures Lower("ZREVRANK") == "zrevrank" && Lower("ZCOUNT") == "zcount" && Lower("ZLEXCOUNT") == "zlexcount"
    ensures Lower("") == ""
  {
  }

  lemma SortedSetsNamed()
    ensures |ON_SORTED_SETS| == 7
    ensures Goes(ON_SORTED_SETS[0], "zcard", "", Fixed(1))
    ensures Goes(ON_SORTED_SETS[1], "zscore", "", Fixed(2))
    ensures Goes(ON_SORTED_SETS[2], "zmscore", "", Variadic(1, 1))
    ensures Goes(ON_SORTED_SETS[3], "zrank", "", ZRank)
    ensures Goes(ON_SORTED_SETS[4], "zrevrank", "", ZRank)
    ensures Goes(ON_SORTED_SETS[5], "zcount", "", Fixed(3))
    ensures Goes(ON_SORTED_SETS[6], "zlexcount", "", Fixed(3))
  {
    hide Lower;
    SortedSetsLowered();
  }

  lemma SortedSetsServed(name: string, sub: string)
    ensures Found(ON_SORTED_SETS, name, sub) == SortedSetKind(name, sub)
  {
    LookupScans(ON_SORTED_SETS, name, sub);
    SortedSetsNamed();
    hide Lower, Lookup, ON_SORTED_SETS;
  }

  /** On ranges and walks of sorted sets. */
  function SortedRangeKind(name: string, sub: string): Option<Check> {
    if sub == "" then
      if name == "zrange" then Some(ZRange)
      else if name == "zrangebyscore" || name == "zrevrangebyscore" then Some(ZRangeBy(true))
      else if name == "zrangebylex" || name == "zrevrangebylex" then Some(ZRangeBy(false))
      else if name == "zrevrange" then Some(ZRevRange)
      else if name == "zscan" then Some(KeyScan(""))
      else if name == "zrandmember" then Some(RandomOf("withscores"))
      else None
    else None
  }

  lemma SortedRangesLoweredFirst()
    ensures Lower("ZRANGE") == "zrange" && Lower("ZRANGEBYSCORE") == "zrangebyscore" && Lower("ZREVRANGEBYSCORE") == "zrevrangebyscore" && Lower("ZRANGEBYLEX") == "zrangebylex"
    ensures Lower("ZREVRANGEBYLEX") == "zrevrangebylex" && Lower("ZREVRANGE") == "zrevrange"
    ensures Lower("") == ""
  {
  }

  lemma SortedRangesLoweredSecond()
    ensures Lower("ZSCAN") == "zscan" && Lower("ZRANDMEMBER") == "zrandmember"
    ensures Lower("") == ""
  {
  }

  lemma SortedRangesNamed()
    ensures |ON_SORTED_RANGES| == 8
    ensures Goes(ON_SORTED_RANGES[0], "zrange", "", ZRange)
    ensures Goes(ON_SORTED_RANGES[1], "zrangebyscore", "", ZRangeBy(true))
    ensures Goes(ON_SORTED_RANGES[2], "zrevrangebyscore", "", ZRangeBy(true))
    ensures Goes(ON_SORTED_RANGES[3], "zrangebylex", "", ZRangeBy(false))
    ensures Goes(ON_SORTED_RANGES[4], "zrevrangebylex", "", ZRangeBy(false))
    ensures Goes(ON_SORTED_RANGES[5], "zrevrange", "", ZRevRange)
    ensures Goes(ON_SORTED_RANGES[6], "zscan", "", KeyScan(""))
    ensures Goes(ON_SORTED_RANGES[7], "zrandmember", "", RandomOf("withscores"))
  {
    hide Lower;
    SortedRangesLoweredFirst();
    SortedRangesLoweredSecond();
  }

  lemma SortedRangesServed(name: string, sub: string)
    ensures Found(ON_SORTED_RANGES, name, sub) == SortedRangeKind(name, sub)
  {
    LookupScans(ON_SORTED_RANGES, name, sub);
    SortedRangesNamed();
    hide Lower, Lookup, ON_SORTED_RANGES;
  }

  /** On streams. */
  function StreamKind(name: string, sub: string): Option<Check> {
    if sub == "" then
      if name == "xlen" then Some(Fixed(1))
      else if name == "xrange" || name == "xrevrange" then Some(XRange)
      else if name == "xpending" then Some(XPending)
      else None
    else if name == "xinfo" && sub == "stream" then Some(XInfoStream)
    else if name == "xinfo" && sub == "groups" then Some(Fixed(1))
    else if name == "xinfo" && sub == "consumers" then Some(Fixed(2))
    else None
  }

  lemma StreamsLowered()
    ensures Lower("XLEN") == "xlen" && Lower("XRANGE") == "xrange" && Lower("XREVRANGE") == "xrevrange" && Lower("XINFO") == "xinfo"
    ensures Lower("STREAM") == "stream" && Lower("GROUPS") == "groups" && Lower("CONSUMERS") == "consumers" && Lower("XPENDING") == "xpending"
    ensures Lower("") == ""
  {
  }

  lemma StreamsNamed()
    ensures |ON_STREAMS| == 7
    ensures Goes(ON_STREAMS[0], "xlen", "", Fixed(1))
    ensures Goes(ON_STREAMS[1], "xrange", "", XRange)
    ensures Goes(ON_STREAMS[2], "xrevrange", "", XRange)
    ensures Goes(ON_STREAMS[3], "xinfo", "stream", XInfoStream)
    ensures Goes(ON_STREAMS[4], "xinfo", "groups", Fixed(1))
    ensures Goes(ON_STREAMS[5], "xinfo", "consumers", Fixed(2))
    ensures Goes(ON_STREAMS[6], "xpending", "", XPending)
  {
    hide Lower;
    StreamsLowered();
  }

  lemma StreamsServed(name: string, sub: string)
    ensures Found(ON_STREAMS, name, sub) == StreamKind(name, sub)
  {
    LookupScans(ON_STREAMS, name, sub);
    StreamsNamed();
    hide Lower, Lookup, ON_STREAMS;
  }

  /** On places, and cardinalities. */
  function PlaceKind(name: string, sub: string): Option<Check> {
    if sub == "" then
      if name == "geopos" || name == "geohash" then Some(Variadic(1, 0))
      else if name == "geodist" then Some(GeoDist)
      else if name == "geosearch" then Some(GeoSearch)
      else if name == "pfcount" then Some(Variadic(0, 1))
      else None
    else None
  }

  lemma PlacesLowered()
    ensures Lower("GEOPOS") == "geopos" && Lower("GEODIST") == "geodist" && Lower("GEOHASH") == "geohash" && Lower("GEOSEARCH") == "geosearch"
    ensures Lower("PFCOUNT") == "pfcount"
    ensures Lower("") == ""
  {
  }

  lemma PlacesNamed()
    ensures |ON_PLACES| == 5
    ensures Goes(ON_PLACES[0], "geopos", "", Variadic(1, 0))
    ensures Goes(ON_PLACES[1], "geodist", "", GeoDist)
    ensures Goes(ON_PLACES[2], "geohash", "", Variadic(1, 0))
    ensures Goes(ON_PLACES[3], "geosearch", "", GeoSearch)
    ensures Goes(ON_PLACES[4], "pfcount", "", Variadic(0, 1))
  {
    hide Lower;
    PlacesLowered();
  }

  lemma PlacesServed(name: string, sub: string)
    ensures Found(ON_PLACES, name, sub) == PlaceKind(name, sub)
  {
    LookupScans(ON_PLACES, name, sub);
    PlacesNamed();
    hide Lower, Lookup, ON_PLACES;
  }

  // ----- all of them -----

  function Either(later: Option<Check>, earlier: Option<Check>): Option<Check> {
    if later.Some? then later else earlier
  }

  /** What a command is held to, by its name and subcommand in lower case. */
  function Kind(name: string, sub: string): Option<Check> {
    Either(PlaceKind(name, sub), Either(StreamKind(name, sub), Either(SortedRangeKind(name, sub),
      Either(SortedSetKind(name, sub), Either(SetKind(name, sub), Either(ListKind(name, sub),
        Either(HashKind(name, sub), Either(StringKind(name, sub), KeyKind(name, sub)))))))))
  }

  /** The commands that have subcommands. */
  predicate Container(name: string) {
    name == "object" || name == "memory" || name == "xinfo"
  }

  lemma FoundJoins(a: seq<Entry>, b: seq<Entry>, name: string, sub: string)
    ensures Found(a + b, name, sub) == Either(Found(b, name, sub), Found(a, name, sub))
  {
    LookupJoins(a, b, name, sub);
    hide Lookup;
  }

  /** The list serves the commands written out here, and no others. */
  lemma ServesKind(name: string, sub: string)
    ensures Found(ALLOWLIST, name, sub) == Kind(name, sub)
  {
    hide Found, KeyKind, StringKind, HashKind, ListKind, SetKind, SortedSetKind, SortedRangeKind, StreamKind, PlaceKind;
    hide ON_KEYS, ON_STRINGS, ON_HASHES, ON_LISTS, ON_SETS, ON_SORTED_SETS, ON_SORTED_RANGES, ON_STREAMS, ON_PLACES;
    KeysServed(name, sub);
    StringsServed(name, sub);
    HashesServed(name, sub);
    ListsServed(name, sub);
    SetsServed(name, sub);
    SortedSetsServed(name, sub);
    SortedRangesServed(name, sub);
    StreamsServed(name, sub);
    PlacesServed(name, sub);
    var strings := ON_KEYS + ON_STRINGS;
    var hashes := strings + ON_HASHES;
    var lists := hashes + ON_LISTS;
    var sets := lists + ON_SETS;
    var sorted := sets + ON_SORTED_SETS;
    var ranges := sorted + ON_SORTED_RANGES;
    FoundJoins(ON_KEYS, ON_STRINGS, name, sub);
    FoundJoins(strings, ON_HASHES, name, sub);
    FoundJoins(hashes, ON_LISTS, name, sub);
    FoundJoins(lists, ON_SETS, name, sub);
    FoundJoins(sets, ON_SORTED_SETS, name, sub);
    FoundJoins(sorted, ON_SORTED_RANGES, name, sub);
    FoundJoins(ranges, ON_STREAMS, name, sub);
    FoundJoins(ranges + ON_STREAMS, ON_PLACES, name, sub);
  }

  lemma ContainsJoins(a: seq<Entry>, b: seq<Entry>, name: string)
    ensures Contains(a + b, name) <==> Contains(a, name) || Contains(b, name)
  {
    hide Lower;
    var all := a + b;
    if i :| 0 <= i < |a| && a[i].subcommand != "" && Lower(a[i].name) == name {
      assert all[i] == a[i];
    }
    if i :| 0 <= i < |b| && b[i].subcommand != "" && Lower(b[i].name) == name {
      assert all[|a| + i] == b[i];
    }
    if Contains(all, name) {
      var i :| 0 <= i < |all| && all[i].subcommand != "" && Lower(all[i].name) == name;
      assert if i < |a| then all[i] == a[i] else all[i] == b[i - |a|];
    }
  }

  lemma PlainGroups(name: string)
    ensures !Contains(ON_STRINGS + ON_HASHES + ON_LISTS + ON_SETS + ON_SORTED_SETS + ON_SORTED_RANGES, name)
    ensures !Contains(ON_PLACES, name)
  {
    hide Lower;
  }

  lemma KeyContainers(name: string)
    ensures Contains(ON_KEYS, name) <==> name == "object" || name == "memory"
  {
    hide Lower;
    KeysLoweredFirst();
    KeysLoweredSecond();
    assert ON_KEYS[7].name == "OBJECT" && ON_KEYS[11].name == "MEMORY";
  }

  lemma StreamContainers(name: string)
    ensures Contains(ON_STREAMS, name) <==> name == "xinfo"
  {
    hide Lower;
    StreamsLowered();
    assert ON_STREAMS[3].name == "XINFO";
  }

  lemma ContainersAre(name: string)
    ensures Contains(ALLOWLIST, name) <==> Container(name)
  {
    hide Contains, ON_KEYS, ON_STRINGS, ON_HASHES, ON_LISTS, ON_SETS, ON_SORTED_SETS, ON_SORTED_RANGES, ON_STREAMS, ON_PLACES;
    KeyContainers(name);
    StreamContainers(name);
    PlainGroups(name);
    var plain := ON_STRINGS + ON_HASHES + ON_LISTS + ON_SETS + ON_SORTED_SETS + ON_SORTED_RANGES;
    assert ALLOWLIST == ON_KEYS + plain + ON_STREAMS + ON_PLACES;
    ContainsJoins(ON_KEYS, plain, name);
    ContainsJoins(ON_KEYS + plain, ON_STREAMS, name);
    ContainsJoins(ON_KEYS + plain + ON_STREAMS, ON_PLACES, name);
  }

  // ----- what each may be given -----

  predicate Is(s: string, word: string) { Lower(s) == word }

  predicate Whole(s: string) { ParseInt(s).Some? }

  predicate Within(s: string, lo: int, hi: int) { ParseInt(s).Some? && lo <= ParseInt(s).value <= hi }

  /** Up to twenty figures, in 64 bits. */
  predicate Cursor(s: string) {
    0 < |s| <= 20 && (forall k :: 0 <= k < |s| ==> '0' <= s[k] <= '9') && Value(s) <= 18446744073709551615
  }

  /** Neither end is counted from the back, and no more than so many lie between them. */
  predicate Narrow(limits: Limits, start: string, stop: string) {
    && ParseInt(start).Some? && ParseInt(stop).Some? && ParseInt(start).value >= 0 && ParseInt(stop).value >= 0
    && ParseInt(stop).value - ParseInt(start).value + 1 <= limits.maxElements
  }

  predicate Length(s: string) { Is(s, "m") || Is(s, "km") || Is(s, "ft") || Is(s, "mi") }

  predicate Bits(s: string) { Is(s, "byte") || Is(s, "bit") }

  predicate Word(o: seq<string>, word: string, values: nat) {
    |o| == 1 + values && Is(o[0], word)
  }

  predicate Count(limits: Limits, o: seq<string>) {
    Word(o, "count", 1) && Within(o[1], 1, limits.maxCount)
  }

  /** Passes over some and returns some, both together within the limit. */
  predicate Skips(limits: Limits, o: seq<string>) {
    && Word(o, "limit", 2) && Whole(o[1]) && Within(o[2], 0, limits.maxElements)
    && 0 <= ParseInt(o[1]).value <= limits.maxElements - ParseInt(o[2]).value
  }

  /** One option, written out whole. */
  predicate Says(table: Table, limits: Limits, o: seq<string>, k: Key) {
    match table
    case ScanTable(extra) =>
      || (k == MatchKey && Word(o, "match", 1))
      || (k == CountKey && Count(limits, o))
      || (k == TypeKey && extra == "type" && Word(o, "type", 1))
      || (k == NoValuesKey && extra == "novalues" && Word(o, "novalues", 0))
    case ListPosTable =>
      || (k == RankKey && Word(o, "rank", 1) && Whole(o[1]) && ParseInt(o[1]).value != 0
          && ParseInt(o[1]).value != -9223372036854775808)
      || (k == CountKey && Word(o, "count", 1) && Within(o[1], 0, limits.maxCount))
      || (k == MaxlenKey && Word(o, "maxlen", 1) && Within(o[1], 1, limits.maxElements))
    case ZRangeTable =>
      || (k == ByScoreKey && Word(o, "byscore", 0))
      || (k == ByLexKey && Word(o, "bylex", 0))
      || (k == RevKey && Word(o, "rev", 0))
      || (k == WithScoresKey && Word(o, "withscores", 0))
      || (k == LimitKey && Skips(limits, o))
    case ZRangeByTable(scores) =>
      || (k == WithScoresKey && scores && Word(o, "withscores", 0))
      || (k == LimitKey && Skips(limits, o))
    case XRangeTable => k == CountKey && Count(limits, o)
    case GeoTable =>
      || (k == FromKey && (Word(o, "frommember", 1) || Word(o, "fromlonlat", 2)))
      || (k == ByKey && ((Word(o, "byradius", 2) && Length(o[2])) || (Word(o, "bybox", 3) && Length(o[3]))))
      || (k == OrderKey && (Word(o, "asc", 0) || Word(o, "desc", 0)))
      || (k == CountKey && (Count(limits, o) || (|o| == 3 && Count(limits, o[..2]) && Is(o[2], "any"))))
      || (k == WithCoordKey && Word(o, "withcoord", 0))
      || (k == WithDistKey && Word(o, "withdist", 0))
      || (k == WithHashKey && Word(o, "withhash", 0))
  }

  function Joined(os: seq<seq<string>>): seq<string> {
    if os == [] then [] else os[0] + Joined(os[1..])
  }

  /** The arguments are these options one after another, no two of them about the same thing. */
  ghost predicate Spelt(table: Table, limits: Limits, args: seq<string>, os: seq<seq<string>>, ks: seq<Key>) {
    && |os| == |ks| && args == Joined(os)
    && (forall i :: 0 <= i < |os| ==> Says(table, limits, os[i], ks[i]))
    && forall i, j :: 0 <= i < j < |ks| ==> ks[i] != ks[j]
  }

  lemma GeoSays(limits: Limits, item: Item)
    requires Usable(limits) && WellWritten(GeoTable, limits, item)
    ensures Says(GeoTable, limits, Written(item), item.opt.key)
  {
    hide Lower, ParseInt;
  }

  /** An option the table knows, with its values, is written out here. */
  lemma WrittenSays(table: Table, limits: Limits, item: Item)
    requires Usable(limits) && WellWritten(table, limits, item)
    ensures Says(table, limits, Written(item), item.opt.key)
  {
    if table.GeoTable? {
      GeoSays(limits, item);
    } else {
      hide Lower, ParseInt;
    }
  }

  /** The option a first word stands for, and whether the rest of what is written can be its values. */
  predicate Holds(table: Table, limits: Limits, o: seq<string>, k: Key) {
    && o != [] && Find(table, Lower(o[0])).Some?
    && var opt := Find(table, Lower(o[0])).value;
       && opt.key == k
       && (|o| == 1 + opt.arity
           || (opt.trailer != "" && |o| == 2 + opt.arity && Lower(o[1 + opt.arity]) == opt.trailer))
       && CheckValues(limits, opt.rule, o[1..1 + opt.arity]).None?
  }

  lemma SaysHolds(table: Table, limits: Limits, o: seq<string>, k: Key)
    requires Usable(limits) && !table.GeoTable? && Says(table, limits, o, k)
    ensures Holds(table, limits, o, k)
  {
    hide Lower, ParseInt;
  }

  lemma GeoHolds(limits: Limits, o: seq<string>, k: Key)
    requires Usable(limits) && Says(GeoTable, limits, o, k)
    ensures Holds(GeoTable, limits, o, k)
  {
    hide Lower, ParseInt;
  }

  /** What is written out whole is an option the table knows, with its values. */
  lemma SaysWritten(table: Table, limits: Limits, o: seq<string>, k: Key) returns (item: Item)
    requires Usable(limits) && Says(table, limits, o, k)
    ensures WellWritten(table, limits, item) && Written(item) == o && item.opt.key == k
  {
    hide Says, Find, CheckValues, Lower;
    if table.GeoTable? {
      GeoHolds(limits, o, k);
    } else {
      SaysHolds(table, limits, o, k);
    }
    var opt := Find(table, Lower(o[0])).value;
    item := Item(opt, o[0], o[1..1 + opt.arity], o[1 + opt.arity..]);
  }

  lemma {:induction false} SplitSpells(table: Table, limits: Limits, items: seq<Item>)
    returns (os: seq<seq<string>>, ks: seq<Key>)
    requires Usable(limits) && forall i :: 0 <= i < |items| ==> WellWritten(table, limits, items[i])
    ensures |os| == |ks| == |items| && Flat(items) == Joined(os)
    ensures forall i :: 0 <= i < |items| ==> Says(table, limits, os[i], ks[i]) && ks[i] == items[i].opt.key
  {
    hide WellWritten, Says, Written;
    os, ks := [], [];
    if items != [] {
      assert WellWritten(table, limits, items[0]);
      WrittenSays(table, limits, items[0]);
      os, ks := SplitSpells(table, limits, items[1..]);
      assert ([Written(items[0])] + os)[1..] == os;
      os, ks := [Written(items[0])] + os, [items[0].opt.key] + ks;
    }
  }

  lemma {:induction false} SpeltSplits(table: Table, limits: Limits, os: seq<seq<string>>, ks: seq<Key>)
    returns (items: seq<Item>)
    requires Usable(limits) && |os| == |ks| && forall i :: 0 <= i < |os| ==> Says(table, limits, os[i], ks[i])
    ensures |items| == |os| && Flat(items) == Joined(os)
    ensures forall i :: 0 <= i < |items| ==> WellWritten(table, limits, items[i]) && ks[i] == items[i].opt.key
  {
    hide WellWritten, Says, Written;
    items := [];
    if os != [] {
      assert Says(table, limits, os[0], ks[0]);
      var first := SaysWritten(table, limits, os[0], ks[0]);
      items := SpeltSplits(table, limits, os[1..], ks[1..]);
      assert ([first] + items)[1..] == items;
      items := [first] + items;
    }
  }

  /** The options a command takes are spelt so, whichever they are. */
  lemma OptionsAreSpelt(table: Table, limits: Limits, args: seq<string>, items: seq<Item>)
    returns (os: seq<seq<string>>, ks: seq<Key>)
    requires Usable(limits) && Splits(table, limits, args, items)
    ensures Spelt(table, limits, args, os, ks) && forall k :: k in ks <==> k in Keys(items)
  {
    os, ks := SplitSpells(table, limits, items);
    hide WellWritten, Says, Flat, Joined;
    forall k
      ensures k in ks <==> k in Keys(items)
    {
      if k in ks {
        var i :| 0 <= i < |ks| && ks[i] == k;
        assert items[i] in items;
      }
      if k in Keys(items) {
        var i :| 0 <= i < |items| && items[i].opt.key == k;
        assert ks[i] == k;
      }
    }
  }

  lemma SpeltAreOptions(table: Table, limits: Limits, args: seq<string>, os: seq<seq<string>>, ks: seq<Key>)
    returns (items: seq<Item>)
    requires Usable(limits) && Spelt(table, limits, args, os, ks)
    ensures Splits(table, limits, args, items) && forall k :: k in ks <==> k in Keys(items)
  {
    items := SpeltSplits(table, limits, os, ks);
    hide WellWritten, Says, Flat, Joined;
    forall k
      ensures k in ks <==> k in Keys(items)
    {
      if k in ks {
        var i :| 0 <= i < |ks| && ks[i] == k;
        assert items[i] in items;
      }
      if k in Keys(items) {
        var i :| 0 <= i < |items| && items[i].opt.key == k;
        assert ks[i] == k;
      }
    }
  }

  /** What must be among the options, and which go together. */
  predicate Suffices(check: Check, limits: Limits, args: seq<string>, ks: seq<Key>) {
    match check
    case Scan => |args| >= 1 && Cursor(args[0]) && CountKey in ks
    case KeyScan(_) => |args| >= 2 && Cursor(args[1]) && CountKey in ks
    case ListPos => MaxlenKey in ks
    case ZRange =>
      && |args| >= 3 && !(ByScoreKey in ks && ByLexKey in ks) && !(ByLexKey in ks && WithScoresKey in ks)
      && (LimitKey in ks <==> ByScoreKey in ks || ByLexKey in ks)
      && (LimitKey in ks || Narrow(limits, args[1], args[2]))
    case ZRangeBy(_) => LimitKey in ks
    case XRange => CountKey in ks
    case GeoSearch => FromKey in ks && ByKey in ks && CountKey in ks
    case _ => true
  }

  ghost predicate Optioned(check: Check, table: Table, from: nat, limits: Limits, args: seq<string>) {
    |args| >= from && exists os, ks :: Spelt(table, limits, args[from..], os, ks) && Suffices(check, limits, args, ks)
  }

  /** The arguments a command may be given, after its name. */
  ghost predicate Fits(check: Check, limits: Limits, args: seq<string>) {
    match check
    case Fixed(n) => |args| == n
    case Variadic(prefix, least) => |args| >= prefix + least && |args| - prefix <= limits.maxElements
    case MemoryUsage =>
      |args| == 1 || (|args| == 3 && Is(args[1], "samples") && Within(args[2], 1, limits.maxElements))
    case GetRange => |args| == 3 && Whole(args[1]) && Whole(args[2])
    case GetBit => |args| == 2 && Whole(args[1]) && ParseInt(args[1]).value >= 0
    case BitCount =>
      || |args| == 1
      || (3 <= |args| <= 4 && Whole(args[1]) && Whole(args[2]) && (|args| == 4 ==> Bits(args[3])))
    case BitPos =>
      && 2 <= |args| <= 5 && (args[1] == "0" || args[1] == "1") && (|args| >= 3 ==> Whole(args[2]))
      && (|args| >= 4 ==> Whole(args[3])) && (|args| == 5 ==> Bits(args[4]))
    case RandomOf(flag) =>
      || |args| == 1
      || ((|args| == 2 || (|args| == 3 && flag != "" && Is(args[2], flag)))
          && Within(args[1], -limits.maxElements, limits.maxElements))
    case ListIndex => |args| == 2 && Within(args[1], -limits.maxElements, limits.maxElements - 1)
    case ListRange =>
      |args| == 3 && Whole(args[1]) && ParseInt(args[1]).value >= 0 && Within(args[2], 0, limits.maxElements - 1)
    case ZRank => |args| == 2 || (|args| == 3 && Is(args[2], "withscore"))
    case ZRevRange =>
      (|args| == 3 || (|args| == 4 && Is(args[3], "withscores"))) && Narrow(limits, args[1], args[2])
    case XInfoStream =>
      || |args| == 1
      || (|args| == 4 && Is(args[1], "full") && Is(args[2], "count") && Within(args[3], 1, limits.maxCount))
    case XPending =>
      |args| == 2 || (5 <= |args| <= 6 && !Is(args[2], "idle") && Within(args[4], 1, limits.maxCount))
    case GeoDist => |args| == 3 || (|args| == 4 && Length(args[3]))
    case Scan => Optioned(check, ScanTable("type"), 1, limits, args)
    case KeyScan(extra) => Optioned(check, ScanTable(extra), 2, limits, args)
    case ListPos => Optioned(check, ListPosTable, 2, limits, args)
    case ZRange => Optioned(check, ZRangeTable, 3, limits, args)
    case ZRangeBy(scores) => Optioned(check, ZRangeByTable(scores), 3, limits, args)
    case XRange => Optioned(check, XRangeTable, 3, limits, args)
    case GeoSearch => Optioned(check, GeoTable, 1, limits, args)
  }

  lemma NarrowIs(limits: Limits, start: string, stop: string)
    requires Usable(limits)
    ensures Narrow(limits, start, stop) <==> Window(limits, start, stop) == None
  {
    if ParseInt(start).Some? && ParseInt(stop).Some? {
      var a, b := ParseInt(start).value, ParseInt(stop).value;
      ParsesExactlyThePrinted(start, a);
      ParsesExactlyThePrinted(stop, b);
      hide ParseInt, Wrap, Print;
      if a >= 0 && b >= 0 {
        assert InInt64(b - a);
      }
    }
  }

  lemma CursorIs(s: string)
    ensures Cursor(s) <==> ValidCursor(s)
  {
  }

  lemma WindowFits(check: Check, limits: Limits, args: seq<string>)
    requires Usable(limits) && (check.ListRange? || check.ZRevRange?)
    ensures Verdict(check, limits, args) == None <==> Fits(check, limits, args)
  {
    hide ParseInt, Lower, Window;
    if |args| >= 3 {
      NarrowIs(limits, args[1], args[2]);
    }
  }

  lemma PlainFits(check: Check, limits: Limits, args: seq<string>)
    requires Usable(limits) && Grammar(check).None? && !check.ListRange? && !check.ZRevRange?
    ensures Verdict(check, limits, args) == None <==> Fits(check, limits, args)
  {
    hide ParseInt, Lower, Optioned;
  }

  lemma SufficesIs(check: Check, limits: Limits, args: seq<string>, ks: seq<Key>, keys: set<Key>)
    requires Usable(limits) && forall k :: k in ks <==> k in keys
    ensures Suffices(check, limits, args, ks) <==> Complete(check, limits, args, keys)
  {
    hide Cursor, ValidCursor, Narrow, Window;
    if |args| >= 3 {
      NarrowIs(limits, args[1], args[2]);
    }
    if |args| >= 1 {
      CursorIs(args[0]);
    }
    if |args| >= 2 {
      CursorIs(args[1]);
    }
  }

  lemma OptionsFit(check: Check, limits: Limits, args: seq<string>)
    requires Usable(limits) && Grammar(check).Some?
    ensures var (table, from) := Grammar(check).value;
      Verdict(check, limits, args) == None <==> Optioned(check, table, from, limits, args)
  {
    var (table, from) := Grammar(check).value;
    CommandsAcceptTheirGrammar(check, limits, args);
    hide Verdict, Grammar, Splits, Spelt, Suffices, Complete, Keys;
    if Verdict(check, limits, args) == None {
      var items :| Splits(table, limits, args[from..], items) && Complete(check, limits, args, Keys(items));
      var os, ks := OptionsAreSpelt(table, limits, args[from..], items);
      SufficesIs(check, limits, args, ks, Keys(items));
    }
    if Optioned(check, table, from, limits, args) {
      var os, ks :| Spelt(table, limits, args[from..], os, ks) && Suffices(check, limits, args, ks);
      var items := SpeltAreOptions(table, limits, args[from..], os, ks);
      SufficesIs(check, limits, args, ks, Keys(items));
    }
  }

  /** A check accepts exactly the arguments written out for it. */
  lemma VerdictFits(check: Check, limits: Limits, args: seq<string>)
    requires Usable(limits)
    ensures Verdict(check, limits, args) == None <==> Fits(check, limits, args)
  {
    if Grammar(check).Some? {
      OptionsFit(check, limits, args);
      hide Verdict, Optioned;
    } else if check.ListRange? || check.ZRevRange? {
      WindowFits(check, limits, args);
    } else {
      PlainFits(check, limits, args);
    }
  }

  // ----- the gate -----

  function Together(argv: seq<string>): string {
    if argv == [] then "" else argv[0] + Together(argv[1..])
  }

  lemma {:induction false} TogetherLast(argv: seq<string>)
    requires argv != []
    ensures |Together(argv)| == |Together(argv[..|argv| - 1])| + |argv[|argv| - 1]|
  {
    if |argv| > 1 {
      TogetherLast(argv[1..]);
      assert argv[1..][..|argv| - 2] == argv[..|argv| - 1][1..];
    }
  }

  lemma {:induction false} BytesAre(argv: seq<string>)
    ensures Bytes(argv) == |Together(argv)|
  {
    if argv != [] {
      BytesAre(argv[..|argv| - 1]);
      TogetherLast(argv);
    }
  }

  /** Some arguments, and neither too many of them nor too many bytes. */
  predicate Bounded(limits: Limits, argv: seq<string>) {
    0 < |argv| <= limits.maxArgs && |Together(argv)| <= limits.maxBytes
  }

  /** How many words name the command, and what it is held to. */
  function Named(argv: seq<string>): Option<(Check, nat)>
    requires argv != []
  {
    if Container(Lower(argv[0])) then
      if |argv| < 2 || argv[1] == "" then None
      else
        match Kind(Lower(argv[0]), Lower(argv[1]))
        case Some(check) => Some((check, 2))
        case None => None
    else
      match Kind(Lower(argv[0]), "")
      case Some(check) => Some((check, 1))
      case None => None
  }

  /** A command the list names, with arguments that fit. */
  ghost predicate Served(limits: Limits, argv: seq<string>)
    requires argv != []
  {
    && Named(argv).Some? && Named(argv).value.1 <= |argv|
    && Fits(Named(argv).value.0, limits, argv[Named(argv).value.1..])
  }

  /** The identifier of the rule a command went by. */
  function Rule(argv: seq<string>): string
    requires argv != []
  {
    "read-" + Lower(argv[0]) + if Container(Lower(argv[0])) && |argv| > 1 then "-" + Lower(argv[1]) else ""
  }

  lemma Looked(name: string, sub: string)
    ensures Lookup(ALLOWLIST, name, sub).Some? <==> Kind(name, sub).Some?
    ensures Lookup(ALLOWLIST, name, sub).Some? ==>
              var e := Lookup(ALLOWLIST, name, sub).value;
              && e.check == Kind(name, sub).value && Lower(e.name) == name && Lower(e.subcommand) == sub
  {
    ServesKind(name, sub);
    LookupScans(ALLOWLIST, name, sub);
    hide Lookup, Kind, ALLOWLIST, Lower;
  }

  lemma RuleIs(e: Entry, argv: seq<string>)
    requires argv != [] && Lower(e.name) == Lower(argv[0])
    requires Lower(e.subcommand) == if Container(Lower(argv[0])) && |argv| > 1 then Lower(argv[1]) else ""
    requires Container(Lower(argv[0])) && |argv| > 1 ==> argv[1] != ""
    ensures RuleID(e) == Rule(argv)
  {
    BlankLower(e.subcommand);
    if |argv| > 1 {
      BlankLower(argv[1]);
    }
    hide Lower, Container;
  }

  function Full(unbounded: set<string>, forbidden: set<string>): Catalogue {
    Catalogue(ALLOWLIST, unbounded, forbidden)
  }

  function Refused(reason: Reason, ruleID: string): Decision {
    Decision(false, reason, ruleID, None)
  }

  /** The bounds come first, in this order. */
  lemma BoundsRefuse(unbounded: set<string>, forbidden: set<string>, limits: Limits, argv: seq<string>)
    requires !Bounded(limits, argv)
    ensures Decide(Full(unbounded, forbidden), limits, argv) ==
              if argv == [] then Refused(EmptyCommand, "argv-empty")
              else if |argv| > limits.maxArgs then Refused(TooManyArguments, "argv-length")
              else Refused(CommandTooLarge, "argv-bytes")
  {
    BytesAre(argv);
    hide Lower, Lookup, Contains, Bytes, Apply, Together, ALLOWLIST;
  }

  function Answer(found: Option<Entry>, limits: Limits, argv: seq<string>, offset: nat, otherwise: Decision): Decision
    requires offset <= |argv|
  {
    if found.Some? then Apply(found.value, limits, argv, offset) else otherwise
  }

  /** A command with subcommands goes by the one it is given. */
  lemma SubcommandDecides(unbounded: set<string>, forbidden: set<string>, limits: Limits, argv: seq<string>)
    requires Bounded(limits, argv) && Container(Lower(argv[0]))
    ensures Decide(Full(unbounded, forbidden), limits, argv) ==
              if |argv| == 1 then Refused(MissingSubcommand, "allowlist")
              else if argv[1] == "" then Refused(UnknownSubcommand, "allowlist")
              else Answer(Lookup(ALLOWLIST, Lower(argv[0]), Lower(argv[1])), limits, argv, 2,
                          Refused(UnknownSubcommand, "allowlist"))
  {
    BytesAre(argv);
    ContainersAre(Lower(argv[0]));
    if |argv| > 1 {
      BlankLower(argv[1]);
    }
    hide Lower, Lookup, Contains, Bytes, Apply, Together, Container, ALLOWLIST;
  }

  /** Any other goes by its name; and one that is not served is refused as what it is known for. */
  lemma NameDecides(unbounded: set<string>, forbidden: set<string>, limits: Limits, argv: seq<string>)
    requires Bounded(limits, argv) && !Container(Lower(argv[0]))
    ensures var name := Lower(argv[0]);
      Decide(Full(unbounded, forbidden), limits, argv) ==
        Answer(Lookup(ALLOWLIST, name, ""), limits, argv, 1,
          if name in unbounded then Refused(UnboundedCommand, "unbounded-" + name)
          else if name in forbidden then Refused(ForbiddenCommand, "forbidden-" + name)
          else Refused(UnknownCommand, "allowlist"))
  {
    BytesAre(argv);
    ContainersAre(Lower(argv[0]));
    hide Lower, Lookup, Contains, Bytes, Apply, Together, Container, ALLOWLIST;
  }

  lemma AnswerIs(e: Entry, limits: Limits, argv: seq<string>, offset: nat)
    requires Usable(limits) && offset <= |argv|
    ensures var d := Apply(e, limits, argv, offset);
      && (d.allow <==> Fits(e.check, limits, argv[offset..]))
      && d.ruleID == RuleID(e)
      && (d.allow ==> d.reason == BoundedRead && d.arg == None)
  {
    VerdictFits(e.check, limits, argv[offset..]);
    hide Verdict, Fits, RuleID;
  }

  /**
    The gate allows exactly the commands written out above, with the arguments written out for them,
    within its bounds; and it names the rule a listed command went by, in lower case.
   */
  lemma AllowsExactly(unbounded: set<string>, forbidden: set<string>, limits: Limits, argv: seq<string>)
    requires Usable(limits)
    ensures var d := Decide(Full(unbounded, forbidden), limits, argv);
      && (d.allow <==> Bounded(limits, argv) && Served(limits, argv))
      && (Bounded(limits, argv) && Named(argv).Some? ==> d.ruleID == Rule(argv))
      && (d.allow ==> d.reason == BoundedRead && d.arg == None)
  {
    if !Bounded(limits, argv) {
      BoundsRefuse(unbounded, forbidden, limits, argv);
      hide *;
    } else if Container(Lower(argv[0])) {
      SubcommandAllows(unbounded, forbidden, limits, argv);
    } else {
      NameAllows(unbounded, forbidden, limits, argv);
    }
  }

  lemma SubcommandAllows(unbounded: set<string>, forbidden: set<string>, limits: Limits, argv: seq<string>)
    requires Usable(limits) && Bounded(limits, argv) && Container(Lower(argv[0]))
    ensures var d := Decide(Full(unbounded, forbidden), limits, argv);
      && (d.allow <==> Served(limits, argv))
      && (Named(argv).Some? ==> d.ruleID == Rule(argv))
      && (d.allow ==> d.reason == BoundedRead && d.arg == None)
  {
    SubcommandDecides(unbounded, forbidden, limits, argv);
    if |argv| > 1 && argv[1] != "" {
      var name, sub := Lower(argv[0]), Lower(argv[1]);
      Looked(name, sub);
      var found := Lookup(ALLOWLIST, name, sub);
      if found.Some? {
        AnswerIs(found.value, limits, argv, 2);
        RuleIs(found.value, argv);
      }
    }
    hide Decide, Lower, Lookup, Kind, Container, Apply, Fits, RuleID, Rule, Bounded, Full, ALLOWLIST;
  }

  lemma NameAllows(unbounded: set<string>, forbidden: set<string>, limits: Limits, argv: seq<string>)
    requires Usable(limits) && Bounded(limits, argv) && !Container(Lower(argv[0]))
    ensures var d := Decide(Full(unbounded, forbidden), limits, argv);
      && (d.allow <==> Served(limits, argv))
      && (Named(argv).Some? ==> d.ruleID == Rule(argv))
      && (d.allow ==> d.reason == BoundedRead && d.arg == None)
  {
    NameDecides(unbounded, forbidden, limits, argv);
    Looked(Lower(argv[0]), "");
    var found := Lookup(ALLOWLIST, Lower(argv[0]), "");
    if found.Some? {
      AnswerIs(found.value, limits, argv, 1);
      RuleIs(found.value, argv);
    }
    hide Decide, Lower, Lookup, Kind, Container, Apply, Fits, RuleID, Rule, Bounded, Full, ALLOWLIST;
  }

  /** A command the list does not name is refused as what it is known for, and one it lacks a subcommand for as that. */
  lemma RefusesUnnamed(unbounded: set<string>, forbidden: set<string>, limits: Limits, argv: seq<string>)
    requires Bounded(limits, argv) && Named(argv).None?
    ensures var name := Lower(argv[0]);
      Decide(Full(unbounded, forbidden), limits, argv) ==
        if Container(name) then Refused(if |argv| == 1 then MissingSubcommand else UnknownSubcommand, "allowlist")
        else if name in unbounded then Refused(UnboundedCommand, "unbounded-" + name)
        else if name in forbidden then Refused(ForbiddenCommand, "forbidden-" + name)
        else Refused(UnknownCommand, "allowlist")
  {
    var name := Lower(argv[0]);
    if Container(name) {
      SubcommandDecides(unbounded, forbidden, limits, argv);
      if |argv| > 1 {
        Looked(name, Lower(argv[1]));
      }
    } else {
      NameDecides(unbounded, forbidden, limits, argv);
      Looked(name, "");
    }
    hide Decide, Lower, Lookup, Kind, Container, Apply, Bounded, Full, ALLOWLIST;
  }
}
