/**
  The token cache and the whole validation, from what was asked and what Google answered: what is
  remembered of a key after every step of any run, and what a call returns.
 */
module TokenLaws {
  import opened Wrappers
  import opened TokenCache
  import opened TokenRuns

  function Remembers(clientID: string, ops: seq<Op>, key: string): Option<Entry> {
    Find(After(clientID, ops), key)
  }

  /** The entry for an answer that was accepted. */
  ghost predicate Records(e: Entry, key: string, google: Tokeninfo, now: int)
    requires google.Status? && google.body.Some? && google.body.value.exp.Some?
  {
    && e.key == key && e.claims == Said(google.body.value)
    && forall later :: later < e.expiresAt <==> InTime(google.body.value.exp.value, now, later)
  }

  lemma {:induction false} FindWithout(s: seq<Entry>, key: string, other: string)
    ensures Find(Without(s, key), other) == if key == other then None else Find(s, other)
  {
    if s != [] {
      var left := Without(s[1..], key);
      FindWithout(s[1..], key, other);
      assert Without(s, key) == (if s[0].key == key then [] else [s[0]]) + left;
      assert Find(s, other) == if s[0].key == other then Some(s[0]) else Find(s[1..], other);
      hide Without, Find;
      if s[0].key == key {
        assert [] + left == left;
      } else {
        FindFront(s[0], left, other);
      }
    }
  }

  lemma FindFront(e: Entry, rest: seq<Entry>, key: string)
    ensures Find([e] + rest, key) == if e.key == key then Some(e) else Find(rest, key)
  {
    assert ([e] + rest)[1..] == rest;
  }

  lemma FindKeys(s: seq<Entry>, key: string)
    ensures Find(s, key).Some? <==> exists e :: e in s && e.key == key
  {
  }

  /** Before any step nothing is remembered; a lookup loses a key only if it had run out by then. */
  lemma AfterALookup(clientID: string, ops: seq<Op>, asked: string, now: int, key: string)
    ensures Remembers(clientID, [], key).None?
    ensures var before := Remembers(clientID, ops, key);
      Remembers(clientID, ops + [Lookup(asked, now)], key) ==
        if before.Some? && asked == key && before.value.expiresAt <= now then None else before
  {
    var s := After(clientID, ops);
    AfterStep(clientID, ops + [Lookup(asked, now)]);
    assert Front(ops + [Lookup(asked, now)]) == ops;
    LookupFinds(s, asked, now, key);
    hide AfterLookup, Find;
  }

  lemma LookupFinds(s: seq<Entry>, asked: string, now: int, key: string)
    ensures Find(AfterLookup(s, asked, now), key) ==
              if Find(s, key).Some? && asked == key && Find(s, key).value.expiresAt <= now then None else Find(s, key)
  {
    FindWithout(s, asked, key);
    if Live(s, asked, now).Some? {
      FindFront(Live(s, asked, now).value, Without(s, asked), key);
    }
    hide Find, Without;
  }

  /** What is refused is not remembered, and changes nothing. */
  lemma AfterARefusal(clientID: string, ops: seq<Op>, asked: string, google: Tokeninfo, now: int, key: string)
    requires !Vouched(clientID, google, now)
    ensures Remembers(clientID, ops + [Answered(asked, google, now)], key) == Remembers(clientID, ops, key)
  {
    AcceptedExactly(clientID, google, now);
    AfterStep(clientID, ops + [Answered(asked, google, now)]);
    assert Front(ops + [Answered(asked, google, now)]) == ops;
    hide Judge, Find, After, Vouched;
  }

  /** The keys remembered. */
  function Keys(clientID: string, ops: seq<Op>): set<string> {
    set e | e in After(clientID, ops) :: e.key
  }

  /** Every other key remembered has been used since this one. */
  ghost predicate UsedLongestAgo(clientID: string, ops: seq<Op>, key: string) {
    forall other :: other in Keys(clientID, ops) && other != key ==>
      LastUse(clientID, ops, other) > LastUse(clientID, ops, key)
  }

  /**
    What is accepted is remembered from then on, and another key is lost for it exactly when 128 others
    are remembered, the accepted one not among them, and all of those were used since.
   */
  lemma AfterAnAcceptance(clientID: string, ops: seq<Op>, asked: string, google: Tokeninfo, now: int, key: string)
    requires Vouched(clientID, google, now)
    ensures var before := Remembers(clientID, ops, key);
      var after := Remembers(clientID, ops + [Answered(asked, google, now)], key);
      if key == asked then after.Some? && Records(after.value, key, google, now)
      else
        after ==
          if |Keys(clientID, ops)| == 128 && asked !in Keys(clientID, ops) && UsedLongestAgo(clientID, ops, key) then None
          else before
  {
    hide *;
    var op, s := Answered(asked, google, now), After(clientID, ops);
    var e := AcceptedEntry(clientID, ops, asked, google, now);
    CacheIsByUse(clientID, ops);
    CacheIsDistinct(clientID, ops);
    CacheIsBounded(clientID, ops);
    KeysAre(clientID, ops, asked, key);
    assert Remembers(clientID, ops + [op], key) == Find(AfterStore(s, e), key) by { RemembersIs(clientID, ops + [op], key); }
    RemembersIs(clientID, ops, key);
    if key != asked {
      StoreFinds(clientID, ops, s, e, key);
    } else {
      StoreFindsItself(s, e);
    }
  }

  lemma RemembersIs(clientID: string, ops: seq<Op>, key: string)
    ensures Remembers(clientID, ops, key) == Find(After(clientID, ops), key)
  {
  }

  lemma KeysAre(clientID: string, ops: seq<Op>, asked: string, key: string)
    ensures var s := After(clientID, ops);
      && |Keys(clientID, ops)| == |s|
      && (asked in Keys(clientID, ops) <==> Find(s, asked).Some?)
      && (UsedLongestAgo(clientID, ops, key) <==>
            forall other :: other in KeysOf(s) && other != key ==> LastUse(clientID, ops, other) > LastUse(clientID, ops, key))
  {
    var s := After(clientID, ops);
    CacheIsDistinct(clientID, ops);
    KeysCount(s);
    FindKeys(s, asked);
    assert Keys(clientID, ops) == KeysOf(s);
    hide Find, After, LastUse, Distinct;
  }

  lemma AcceptedEntry(clientID: string, ops: seq<Op>, asked: string, google: Tokeninfo, now: int) returns (e: Entry)
    requires Vouched(clientID, google, now)
    ensures google.Status? && google.body.Some? && google.body.value.exp.Some? && Records(e, asked, google, now)
    ensures e.key == asked && After(clientID, ops + [Answered(asked, google, now)]) == AfterStore(After(clientID, ops), e)
  {
    hide *;
    e := EntryFor(clientID, asked, google, now);
    var op := Answered(asked, google, now);
    AfterStep(clientID, ops + [op]);
    assert Front(ops + [op]) == ops by { FrontIs(ops, op); }
    AnswerStores(clientID, After(clientID, ops), asked, google, now, e);
  }

  lemma FrontIs(ops: seq<Op>, op: Op)
    ensures Front(ops + [op]) == ops
  {
  }

  lemma EntryFor(clientID: string, asked: string, google: Tokeninfo, now: int) returns (e: Entry)
    requires Vouched(clientID, google, now)
    ensures google.Status? && google.body.Some? && google.body.value.exp.Some? && Judge(clientID, google, now).Ok?
    ensures e == Entry(asked, Judge(clientID, google, now).value.0,
                       now + Min(Judge(clientID, google, now).value.1, CACHE_MAX_TTL))
    ensures Records(e, asked, google, now) && e.key == asked
  {
    AcceptedExactly(clientID, google, now);
    hide InTime, Judge, Unexpired, Min;
    e := Entry(asked, Judge(clientID, google, now).value.0, now + Min(Judge(clientID, google, now).value.1, CACHE_MAX_TTL));
  }

  lemma AnswerStores(clientID: string, s: seq<Entry>, asked: string, google: Tokeninfo, now: int, e: Entry)
    requires Judge(clientID, google, now).Ok?
    requires e == Entry(asked, Judge(clientID, google, now).value.0,
                        now + Min(Judge(clientID, google, now).value.1, CACHE_MAX_TTL))
    ensures AfterAnswer(clientID, s, asked, google, now) == AfterStore(s, e)
  {
    hide Judge, AfterStore, Min;
  }

  function KeysOf(s: seq<Entry>): set<string> {
    set e | e in s :: e.key
  }

  lemma {:induction false} KeysCount(s: seq<Entry>)
    requires Distinct(s)
    ensures |KeysOf(s)| == |s|
  {
    if s != [] {
      assert Distinct(s[1..]);
      KeysCount(s[1..]);
      assert s == [s[0]] + s[1..];
      assert KeysOf(s) == {s[0].key} + KeysOf(s[1..]);
      assert s[0].key !in KeysOf(s[1..]);
    }
  }

  lemma StoreFindsItself(s: seq<Entry>, e: Entry)
    requires |s| <= CACHE_CAPACITY
    ensures Find(AfterStore(s, e), e.key) == Some(e)
  {
    hide Without;
    var all := [e] + Without(s, e.key);
    assert all[..|all| - 1] == if |all| == 1 then [] else [e] + Without(s, e.key)[..|all| - 2];
  }

  lemma {:induction false} FindTake(s: seq<Entry>, key: string)
    requires Distinct(s) && s != []
    ensures Find(s[..|s| - 1], key) == if s[|s| - 1].key == key then None else Find(s, key)
  {
    if |s| > 1 {
      assert Distinct(s[1..]);
      FindTake(s[1..], key);
      assert s[..|s| - 1][1..] == s[1..][..|s| - 2];
      assert s[0].key != s[|s| - 1].key;
    }
  }

  /** Whether a key is the last of a list in the order of use. */
  lemma LastIsOldest(clientID: string, ops: seq<Op>, s: seq<Entry>, key: string)
    requires s != [] && Distinct(s) && ByUse(clientID, ops, s) && exists e :: e in s && e.key == key
    ensures s[|s| - 1].key == key <==>
            forall other :: other in KeysOf(s) && other != key ==> LastUse(clientID, ops, other) > LastUse(clientID, ops, key)
  {
    hide LastUse, ByUse;
    ByUseLast(clientID, ops, s);
    var last := s[|s| - 1];
    assert last in s;
    assert s == s[..|s| - 1] + [last];
    if last.key == key {
      forall other | other in KeysOf(s) && other != key
        ensures LastUse(clientID, ops, other) > LastUse(clientID, ops, key)
      {
        var o :| o in s && o.key == other;
        assert o in s[..|s| - 1];
      }
    } else {
      var e :| e in s && e.key == key;
      assert e in s[..|s| - 1];
      assert LastUse(clientID, ops, e.key) > LastUse(clientID, ops, last.key);
      assert last.key in KeysOf(s);
    }
  }

  lemma StoreFinds(clientID: string, ops: seq<Op>, s: seq<Entry>, e: Entry, key: string)
    requires Distinct(s) && ByUse(clientID, ops, s) && |s| <= CACHE_CAPACITY && key != e.key
    ensures Find(AfterStore(s, e), key) ==
      if |s| == 128 && Find(s, e.key).None? && Find(s, key).Some?
         && forall other :: other in KeysOf(s) && other != key ==> LastUse(clientID, ops, other) > LastUse(clientID, ops, key)
      then None else Find(s, key)
  {
    var rest := Without(s, e.key);
    var all := [e] + rest;
    FindWithout(s, e.key, key);
    FindFront(e, rest, key);
    if |all| > CACHE_CAPACITY {
      FullMeansMissing(s, e.key);
      assert rest == s;
      WithoutDistinct(s, e.key);
      ConsDistinct(e, rest);
      FindTake(all, key);
      assert all[|all| - 1] == s[|s| - 1];
      FindKeys(s, key);
      if Find(s, key).Some? {
        LastIsOldest(clientID, ops, s, key);
      }
    } else {
      RoomMeansFound(s, e.key);
    }
    hide *;
  }

  lemma FullMeansMissing(s: seq<Entry>, key: string)
    requires |Without(s, key)| >= |s|
    ensures Find(s, key).None? && Without(s, key) == s
  {
    if e :| e in s && e.key == key {
      WithoutShorter(s, e);
    }
    WithoutNone(s, key);
    FindKeys(s, key);
  }

  lemma RoomMeansFound(s: seq<Entry>, key: string)
    ensures Find(s, key).None? ==> Without(s, key) == s
  {
    if Find(s, key).None? {
      WithoutNone(s, key);
    }
  }

  // ----- a call -----

  /**
    A call returns claims exactly when the cache remembers them and they have not run out, or a slot
    was free and Google vouched for the token; and it says to try again later exactly when it could
    not ask, or could not be told.
   */
  lemma CallReturns(clientID: string, ops: seq<Op>, key: string, slotFree: bool, google: Tokeninfo, now: int)
    ensures var r := Validated(clientID, After(clientID, ops), key, slotFree, google, now).0;
      var e := Remembers(clientID, ops, key);
      var remembered := e.Some? && now < e.value.expiresAt;
      && (r.Ok? <==> clientID != "" && (remembered || (slotFree && Vouched(clientID, google, now))))
      && (r.Ok? ==> r.value == if remembered then e.value.claims else Said(google.body.value))
      && (r == Err(ValidationUnavailable) <==>
            && clientID != "" && !remembered
            && (!slotFree || google.Unreachable? || google.code == 408 || google.code == 429
                || (!(400 <= google.code < 500) && (google.code != 200 || google.body.None?))))
  {
    var s := After(clientID, ops);
    AcceptedExactly(clientID, google, now);
    LookupFinds(s, key, now, key);
    LookupFinds(AfterLookup(s, key, now), key, now, key);
    hide After, Find, AfterLookup, Vouched, RemainingLifetime, AfterAnswer;
  }

  /** What a call does to the cache is what its steps do: a lookup, and then, with a slot, another and an answer. */
  lemma CallLeaves(clientID: string, ops: seq<Op>, key: string, slotFree: bool, google: Tokeninfo, now: int)
    ensures var after := Validated(clientID, After(clientID, ops), key, slotFree, google, now).1;
      var e := Remembers(clientID, ops, key);
      after == After(
        clientID,
        if clientID == "" then ops
        else if (e.Some? && now < e.value.expiresAt) || !slotFree then ops + [Lookup(key, now)]
        else ops + [Lookup(key, now)] + [Lookup(key, now)] + [Answered(key, google, now)])
  {
    var s := After(clientID, ops);
    var asked := ops + [Lookup(key, now)];
    var again := asked + [Lookup(key, now)];
    var told := again + [Answered(key, google, now)];
    assert Front(asked) == ops && Front(again) == asked && Front(told) == again;
    AfterStep(clientID, asked);
    AfterStep(clientID, again);
    AfterStep(clientID, told);
    LookupFinds(s, key, now, key);
    hide After, Find, AfterLookup, Judge, AfterAnswer, Front;
  }
}
