/**
  The Redis command gate (internal/redisgate/gate.go, allowlist.go): an argv is allowed or refused
  by the allowlist entry that names it, after bounds on its length and bytes.
 */
module RedisGate {
  import opened Wrappers
  import opened RedisText
  import opened RedisRules

  /** `subcommand` is blank for a command that has none. */
  datatype Entry = Entry(name: string, subcommand: string, check: Check)

  // The commands served, by what they read.

  const ON_KEYS: seq<Entry> := [
    Entry("SCAN", "", Scan), Entry("TYPE", "", Fixed(1)), Entry("EXISTS", "", Variadic(0, 1)),
    Entry("TTL", "", Fixed(1)), Entry("PTTL", "", Fixed(1)), Entry("EXPIRETIME", "", Fixed(1)),
    Entry("PEXPIRETIME", "", Fixed(1)), Entry("OBJECT", "ENCODING", Fixed(1)), Entry("OBJECT", "FREQ", Fixed(1)),
    Entry("OBJECT", "IDLETIME", Fixed(1)), Entry("OBJECT", "REFCOUNT", Fixed(1)),
    Entry("MEMORY", "USAGE", MemoryUsage), Entry("DBSIZE", "", Fixed(0)), Entry("RANDOMKEY", "", Fixed(0))
  ]

  const ON_STRINGS: seq<Entry> := [
    Entry("GET", "", Fixed(1)), Entry("MGET", "", Variadic(0, 1)), Entry("STRLEN", "", Fixed(1)),
    Entry("GETRANGE", "", GetRange), Entry("SUBSTR", "", GetRange), Entry("GETBIT", "", GetBit),
    Entry("BITCOUNT", "", BitCount), Entry("BITPOS", "", BitPos)
  ]

  const ON_HASHES: seq<Entry> := [
    Entry("HGET", "", Fixed(2)), Entry("HMGET", "", Variadic(1, 1)), Entry("HLEN", "", Fixed(1)),
    Entry("HSTRLEN", "", Fixed(2)), Entry("HEXISTS", "", Fixed(2)), Entry("HSCAN", "", KeyScan("novalues")),
    Entry("HRANDFIELD", "", RandomOf("withvalues"))
  ]

  const ON_LISTS: seq<Entry> := [
    Entry("LLEN", "", Fixed(1)), Entry("LINDEX", "", ListIndex), Entry("LRANGE", "", ListRange), Entry("LPOS", "", ListPos)
  ]

  const ON_SETS: seq<Entry> := [
    Entry("SCARD", "", Fixed(1)), Entry("SISMEMBER", "", Fixed(2)), Entry("SMISMEMBER", "", Variadic(1, 1)),
    Entry("SSCAN", "", KeyScan("")), Entry("SRANDMEMBER", "", RandomOf(""))
  ]

  const ON_SORTED_SETS: seq<Entry> := [
    Entry("ZCARD", "", Fixed(1)), Entry("ZSCORE", "", Fixed(2)), Entry("ZMSCORE", "", Variadic(1, 1)),
    Entry("ZRANK", "", ZRank), Entry("ZREVRANK", "", ZRank), Entry("ZCOUNT", "", Fixed(3)),
    Entry("ZLEXCOUNT", "", Fixed(3))
  ]

  const ON_SORTED_RANGES: seq<Entry> := [
    Entry("ZRANGE", "", ZRange), Entry("ZRANGEBYSCORE", "", ZRangeBy(true)),
    Entry("ZREVRANGEBYSCORE", "", ZRangeBy(true)), Entry("ZRANGEBYLEX", "", ZRangeBy(false)),
    Entry("ZREVRANGEBYLEX", "", ZRangeBy(false)), Entry("ZREVRANGE", "", ZRevRange), Entry("ZSCAN", "", KeyScan("")),
    Entry("ZRANDMEMBER", "", RandomOf("withscores"))
  ]

  const ON_STREAMS: seq<Entry> := [
    Entry("XLEN", "", Fixed(1)), Entry("XRANGE", "", XRange), Entry("XREVRANGE", "", XRange),
    Entry("XINFO", "STREAM", XInfoStream), Entry("XINFO", "GROUPS", Fixed(1)), Entry("XINFO", "CONSUMERS", Fixed(2)),
    Entry("XPENDING", "", XPending)
  ]

  const ON_PLACES: seq<Entry> := [
    Entry("GEOPOS", "", Variadic(1, 0)), Entry("GEODIST", "", GeoDist), Entry("GEOHASH", "", Variadic(1, 0)),
    Entry("GEOSEARCH", "", GeoSearch), Entry("PFCOUNT", "", Variadic(0, 1))
  ]

  const ALLOWLIST: seq<Entry> :=
    ON_KEYS + ON_STRINGS + ON_HASHES + ON_LISTS + ON_SETS + ON_SORTED_SETS + ON_SORTED_RANGES + ON_STREAMS + ON_PLACES

  /** What the gate serves; `unbounded` and `forbidden` are lower-case names. */
  datatype Catalogue = Catalogue(allowlist: seq<Entry>, unbounded: set<string>, forbidden: set<string>)

  /** `arg` is the argv index a refusal names. */
  datatype Decision = Decision(allow: bool, reason: Reason, ruleID: string, arg: Option<nat>)

  function Deny(reason: Reason, ruleID: string): Decision { Decision(false, reason, ruleID, None) }

  function RuleID(entry: Entry): string {
    "read-" + Lower(entry.name) + if entry.subcommand == "" then "" else "-" + Lower(entry.subcommand)
  }

  predicate Names(entry: Entry, name: string, subcommand: string) {
    Lower(entry.name) == name && Lower(entry.subcommand) == subcommand
  }

  /** The last entry of this name, which is the one an index of the list keeps. */
  function Lookup(entries: seq<Entry>, name: string, subcommand: string): Option<Entry> {
    if entries == [] then None
    else if Names(entries[|entries| - 1], name, subcommand) then Some(entries[|entries| - 1])
    else Lookup(entries[..|entries| - 1], name, subcommand)
  }

  predicate Contains(entries: seq<Entry>, name: string) {
    exists i :: 0 <= i < |entries| && entries[i].subcommand != "" && Lower(entries[i].name) == name
  }

  function Bytes(argv: seq<string>): nat {
    if argv == [] then 0 else Bytes(argv[..|argv| - 1]) + |argv[|argv| - 1]|
  }

  function Apply(entry: Entry, limits: Limits, argv: seq<string>, offset: nat): Decision
    requires offset <= |argv|
  {
    match Verdict(entry.check, limits, argv[offset..])
    case None => Decision(true, BoundedRead, RuleID(entry), None)
    case Some(refusal) =>
      Decision(false, refusal.reason, RuleID(entry),
        if refusal.arg.Some? then Some(refusal.arg.value + offset) else None)
  }

  function Decide(c: Catalogue, limits: Limits, argv: seq<string>): Decision {
    if argv == [] then Deny(EmptyCommand, "argv-empty")
    else if |argv| > limits.maxArgs then Deny(TooManyArguments, "argv-length")
    else if Bytes(argv) > limits.maxBytes then Deny(CommandTooLarge, "argv-bytes")
    else
      var name := Lower(argv[0]);
      if Contains(c.allowlist, name) then
        if |argv| < 2 then Deny(MissingSubcommand, "allowlist")
        else if Lower(argv[1]) == "" then Deny(UnknownSubcommand, "allowlist")
        else
          match Lookup(c.allowlist, name, Lower(argv[1]))
          case None => Deny(UnknownSubcommand, "allowlist")
          case Some(entry) => Apply(entry, limits, argv, 2)
      else
        match Lookup(c.allowlist, name, "")
        case Some(entry) => Apply(entry, limits, argv, 1)
        case None =>
          if name in c.unbounded then Deny(UnboundedCommand, "unbounded-" + name)
          else if name in c.forbidden then Deny(ForbiddenCommand, "forbidden-" + name)
          else Deny(UnknownCommand, "allowlist")
  }

  // ----- the index and the gate as they run -----

  type Subs = map<string, map<string, Entry>>

  ghost predicate CommandsIndexed(entries: seq<Entry>, commands: map<string, Entry>) {
    forall name :: (if name in commands then Some(commands[name]) else None) == Lookup(entries, name, "")
  }

  ghost predicate SubsIndexed(entries: seq<Entry>, containers: Subs) {
    && (forall name :: name in containers <==> Contains(entries, name))
    && (forall name :: name in containers ==> "" !in containers[name])
    && (forall name, sub :: name in containers && sub != "" ==>
          (if sub in containers[name] then Some(containers[name][sub]) else None) == Lookup(entries, name, sub))
  }

  ghost predicate Indexes(entries: seq<Entry>, commands: map<string, Entry>, containers: Subs) {
    CommandsIndexed(entries, commands) && SubsIndexed(entries, containers)
  }

  lemma LookupMore(entries: seq<Entry>, entry: Entry, name: string, sub: string)
    ensures Lookup(entries + [entry], name, sub) ==
              if Names(entry, name, sub) then Some(entry) else Lookup(entries, name, sub)
  {
    assert (entries + [entry])[..|entries|] == entries;
  }

  lemma ContainsMore(entries: seq<Entry>, entry: Entry, name: string)
    ensures Contains(entries + [entry], name) <==>
              Contains(entries, name) || (entry.subcommand != "" && Lower(entry.name) == name)
  {
    if Contains(entries, name) {
      var i :| 0 <= i < |entries| && entries[i].subcommand != "" && Lower(entries[i].name) == name;
      assert (entries + [entry])[i] == entries[i];
    }
    if entry.subcommand != "" && Lower(entry.name) == name {
      assert (entries + [entry])[|entries|] == entry;
    }
  }

  /** A container's subcommands are looked up under it alone. */
  lemma {:induction false} LookupContained(entries: seq<Entry>, name: string, sub: string)
    requires sub != "" && Lookup(entries, name, sub).Some?
    ensures Contains(entries, name)
  {
    var front, last := entries[..|entries| - 1], entries[|entries| - 1];
    assert entries == front + [last];
    ContainsMore(front, last, name);
    if Names(last, name, sub) {
      assert |last.subcommand| == |sub| > 0;
    } else {
      LookupContained(front, name, sub);
    }
  }

  lemma BlankLower(s: string)
    ensures Lower(s) == "" <==> s == ""
  {
    assert |Lower(s)| == |s|;
  }

  lemma CommandsMore(entries: seq<Entry>, entry: Entry, commands: map<string, Entry>)
    requires CommandsIndexed(entries, commands)
    ensures CommandsIndexed(entries + [entry],
              if entry.subcommand == "" then commands[Lower(entry.name) := entry] else commands)
  {
    BlankLower(entry.subcommand);
    hide Lower, Lookup;
    forall name
      ensures Lookup(entries + [entry], name, "") ==
                if Names(entry, name, "") then Some(entry) else Lookup(entries, name, "")
    {
      LookupMore(entries, entry, name, "");
    }
  }

  lemma SubsSame(entries: seq<Entry>, entry: Entry, containers: Subs)
    requires SubsIndexed(entries, containers) && entry.subcommand == ""
    ensures SubsIndexed(entries + [entry], containers)
  {
    BlankLower(entry.subcommand);
    hide Lower, Lookup, Contains;
    forall name, sub | sub != ""
      ensures Lookup(entries + [entry], name, sub) == Lookup(entries, name, sub)
    {
      LookupMore(entries, entry, name, sub);
    }
    forall name
      ensures Contains(entries + [entry], name) <==> Contains(entries, name)
    {
      ContainsMore(entries, entry, name);
    }
  }

  function Held(containers: Subs, name: string): map<string, Entry> {
    if name in containers then containers[name] else map[]
  }

  lemma SubsMore(entries: seq<Entry>, entry: Entry, containers: Subs)
    requires SubsIndexed(entries, containers) && entry.subcommand != ""
    ensures var name := Lower(entry.name);
      SubsIndexed(entries + [entry], containers[name := Held(containers, name)[Lower(entry.subcommand) := entry]])
  {
    var at := Lower(entry.name);
    var later := containers[at := Held(containers, at)[Lower(entry.subcommand) := entry]];
    BlankLower(entry.subcommand);
    hide Lower, Lookup, Contains;
    forall name
      ensures name in later <==> Contains(entries + [entry], name)
    {
      ContainsMore(entries, entry, name);
    }
    forall name, sub | name in later && sub != ""
      ensures (if sub in later[name] then Some(later[name][sub]) else None) == Lookup(entries + [entry], name, sub)
    {
      LookupMore(entries, entry, name, sub);
      HeldIs(entries, containers, name, sub);
    }
  }

  lemma HeldIs(entries: seq<Entry>, containers: Subs, name: string, sub: string)
    requires SubsIndexed(entries, containers) && sub != ""
    ensures var held := Held(containers, name);
      (if sub in held then Some(held[sub]) else None) == Lookup(entries, name, sub)
  {
    hide Lookup, Contains;
    if Lookup(entries, name, sub).Some? {
      LookupContained(entries, name, sub);
    }
  }

  method IndexAllowlist(entries: seq<Entry>) returns (commands: map<string, Entry>, containers: Subs)
    ensures Indexes(entries, commands, containers)
  {
    commands, containers := map[], map[];
    for i := 0 to |entries|
      invariant Indexes(entries[..i], commands, containers)
    {
      ghost var was, held := commands, containers;
      var entry := entries[i];
      var name := AsciiLower(entry.name);
      assert entries[..i + 1] == entries[..i] + [entry];
      if entry.subcommand == "" {
        commands := commands[name := entry];
      } else {
        var sub := AsciiLower(entry.subcommand);
        if name !in containers {
          containers := containers[name := map[]];
        }
        containers := containers[name := containers[name][sub := entry]];
      }
      hide CommandsIndexed, SubsIndexed;
      CommandsMore(entries[..i], entry, was);
      if entry.subcommand == "" {
        SubsSame(entries[..i], entry, held);
      } else {
        SubsMore(entries[..i], entry, held);
      }
    }
    assert entries[..|entries|] == entries;
  }

  lemma BytesMore(argv: seq<string>, i: nat)
    requires i < |argv|
    ensures Bytes(argv[..i + 1]) == Bytes(argv[..i]) + |argv[i]|
  {
    assert argv[..i + 1][..i] == argv[..i];
  }

  lemma {:induction false} BytesGrow(argv: seq<string>, i: nat)
    requires i <= |argv|
    ensures Bytes(argv[..i]) <= Bytes(argv)
    decreases |argv| - i
  {
    if i == |argv| {
      assert argv[..i] == argv;
    } else {
      BytesMore(argv, i);
      BytesGrow(argv, i + 1);
    }
  }

  /** The gate's one call, over an index built beforehand. */
  method Validate(
    c: Catalogue, commands: map<string, Entry>, containers: Subs, limits: Limits, argv: seq<string>)
    returns (d: Decision)
    requires Indexes(c.allowlist, commands, containers)
    ensures d == Decide(c, limits, argv)
  {
    if |argv| == 0 {
      return Deny(EmptyCommand, "argv-empty");
    }
    if |argv| > limits.maxArgs {
      return Deny(TooManyArguments, "argv-length");
    }
    var total := 0;
    for i := 0 to |argv|
      invariant total == Bytes(argv[..i])
      invariant i == 0 || total <= limits.maxBytes
    {
      BytesMore(argv, i);
      BytesGrow(argv, i + 1);
      total := total + |argv[i]|;
      if total > limits.maxBytes {
        return Deny(CommandTooLarge, "argv-bytes");
      }
    }
    assert argv[..|argv|] == argv;
    hide Lookup, Contains, Bytes, Apply;
    var name := AsciiLower(argv[0]);
    if name in containers {
      if |argv| < 2 {
        return Deny(MissingSubcommand, "allowlist");
      }
      var sub := AsciiLower(argv[1]);
      if sub !in containers[name] {
        return Deny(UnknownSubcommand, "allowlist");
      }
      return Apply(containers[name][sub], limits, argv, 2);
    }
    if name in commands {
      return Apply(commands[name], limits, argv, 1);
    }
    if name in c.unbounded {
      return Deny(UnboundedCommand, "unbounded-" + name);
    }
    if name in c.forbidden {
      return Deny(ForbiddenCommand, "forbidden-" + name);
    }
    d := Deny(UnknownCommand, "allowlist");
  }
}
