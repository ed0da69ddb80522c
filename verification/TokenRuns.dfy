/**
  What the token cache keeps over any interleaving of calls: each step under the lock is a lookup or
  an answer of Google's, whichever requests they belong to.
 */
module TokenRuns {
  import opened Wrappers
  import opened TokenCache

  datatype Op = Lookup(key: string, now: int) | Answered(key: string, google: Tokeninfo, now: int)

  function Front(ops: seq<Op>): seq<Op>
    requires ops != []
  {
    ops[..|ops| - 1]
  }

  function Step(clientID: string, s: seq<Entry>, op: Op): seq<Entry> {
    match op
    case Lookup(key, now) => AfterLookup(s, key, now)
    case Answered(key, google, now) => AfterAnswer(clientID, s, key, google, now)
  }

  /** The cache after these steps, the key used last in front. */
  function After(clientID: string, ops: seq<Op>): seq<Entry> {
    if ops == [] then [] else Step(clientID, After(clientID, Front(ops)), ops[|ops| - 1])
  }

  // ----- what Google's answer has to say -----

  /** 2020-01-01 or later, and not over at `now`; or seconds left, no more than a day of them. */
  predicate Unexpired(exp: int, now: int) {
    (exp >= 1577836800 && exp * 1_000_000_000 > now) || 0 < exp <= 86400
  }

  /** An answer of 200, for this client and asked for by it, about someone, that has not run out. */
  predicate Vouched(clientID: string, google: Tokeninfo, now: int) {
    && google.Status? && google.code == 200 && google.body.Some?
    && google.body.value.aud == clientID && google.body.value.azp == clientID && google.body.value.sub != ""
    && google.body.value.exp.Some? && Unexpired(google.body.value.exp.value, now)
  }

  function Said(r: Response): Claims {
    Claims(r.sub, r.email, r.emailVerified)
  }

  /** Before the token's own end, and within five minutes of the answer. */
  predicate InTime(exp: int, answered: int, now: int) {
    && now < answered + 300_000_000_000
    && now < if exp >= 1577836800 then exp * 1_000_000_000 else answered + exp * 1_000_000_000
  }

  /** Google's answer is accepted exactly so, with the claims it states; and why it is not, if it is not. */
  lemma AcceptedExactly(clientID: string, google: Tokeninfo, now: int)
    ensures Judge(clientID, google, now).Ok? <==> Vouched(clientID, google, now)
    ensures Vouched(clientID, google, now) ==> Judge(clientID, google, now).value.0 == Said(google.body.value)
    ensures Vouched(clientID, google, now) ==>
              forall later ::
                later < now + Min(Judge(clientID, google, now).value.1, CACHE_MAX_TTL)
                <==> InTime(google.body.value.exp.value, now, later)
    ensures Judge(clientID, google, now) == Err(TokenRejected) <==>
              && google.Status?
              && ((400 <= google.code < 500 && google.code != 408 && google.code != 429)
                  || (google.code == 200 && google.body.Some? && !Vouched(clientID, google, now)))
  {
  }

  /** Google accepted this entry's token at step `m`, for as long as the entry says. */
  predicate AcceptedAt(clientID: string, ops: seq<Op>, m: nat, e: Entry) {
    && m < |ops| && ops[m].Answered? && ops[m].key == e.key
    && match Judge(clientID, ops[m].google, ops[m].now)
       case Ok((claims, remaining)) => claims == e.claims && e.expiresAt == ops[m].now + Min(remaining, CACHE_MAX_TTL)
       case Err(_) => false
  }

  predicate Accepts(clientID: string, op: Op, key: string) {
    op.Answered? && op.key == key && Judge(clientID, op.google, op.now).Ok?
  }

  /** And has given no newer answer for the key. */
  ghost predicate Latest(clientID: string, ops: seq<Op>, m: nat, e: Entry) {
    AcceptedAt(clientID, ops, m, e) && forall k :: m < k < |ops| ==> !Accepts(clientID, ops[k], e.key)
  }

  ghost predicate Remembered(clientID: string, ops: seq<Op>, s: seq<Entry>) {
    forall e :: e in s ==> exists m: nat :: Latest(clientID, ops, m, e)
  }

  lemma LatestStays(clientID: string, ops: seq<Op>, m: nat, e: Entry)
    requires ops != [] && Latest(clientID, Front(ops), m, e) && !Accepts(clientID, ops[|ops| - 1], e.key)
    ensures Latest(clientID, ops, m, e)
  {
    hide Accepts, Judge;
    assert ops == Front(ops) + [ops[|ops| - 1]];
  }

  lemma {:induction false} CacheIsRemembered(clientID: string, ops: seq<Op>)
    ensures Remembered(clientID, ops, After(clientID, ops))
  {
    if ops != [] {
      var before, op := After(clientID, Front(ops)), ops[|ops| - 1];
      CacheIsRemembered(clientID, Front(ops));
      var s := After(clientID, ops);
      assert s == Step(clientID, before, op);
      hide After, Step;
      forall e | e in s
        ensures exists m: nat :: Latest(clientID, ops, m, e)
      {
        if Accepts(clientID, op, e.key) {
          StoredIs(clientID, before, op, e);
          assert Latest(clientID, ops, |ops| - 1, e);
        } else {
          KeptIs(clientID, before, op, e);
          var m: nat :| Latest(clientID, Front(ops), m, e);
          LatestStays(clientID, ops, m, e);
        }
      }
    }
  }

  lemma StoredIs(clientID: string, s: seq<Entry>, op: Op, e: Entry)
    requires Accepts(clientID, op, e.key) && e in Step(clientID, s, op)
    ensures AcceptedAt(clientID, [op], 0, e)
  {
    hide Judge;
  }

  lemma KeptIs(clientID: string, s: seq<Entry>, op: Op, e: Entry)
    requires !Accepts(clientID, op, e.key) && e in Step(clientID, s, op)
    ensures e in s
  {
    hide Judge;
  }

  /** Step `m` is Google's last yes for this key. */
  ghost predicate LastYes(clientID: string, ops: seq<Op>, m: nat, key: string) {
    && m < |ops| && ops[m].Answered? && ops[m].key == key && Vouched(clientID, ops[m].google, ops[m].now)
    && forall k :: m < k < |ops| && ops[k].Answered? && ops[k].key == key ==> !Vouched(clientID, ops[k].google, ops[k].now)
  }

  /**
    A hit is what Google said of that very key, the last it answered yes to, and it comes before the
    token expires and within five minutes of the answer.
   */
  lemma HitWasAccepted(clientID: string, ops: seq<Op>, key: string, now: int)
    requires Live(After(clientID, ops), key, now).Some?
    ensures exists m: nat ::
              && LastYes(clientID, ops, m, key)
              && Live(After(clientID, ops), key, now).value.claims == Said(ops[m].google.body.value)
              && InTime(ops[m].google.body.value.exp.value, ops[m].now, now)
  {
    CacheIsRemembered(clientID, ops);
    var e := Live(After(clientID, ops), key, now).value;
    var m: nat :| Latest(clientID, ops, m, e);
    forall k | 0 <= k < |ops| && ops[k].Answered?
      ensures Judge(clientID, ops[k].google, ops[k].now).Ok? <==> Vouched(clientID, ops[k].google, ops[k].now)
    {
      AcceptedExactly(clientID, ops[k].google, ops[k].now);
    }
    AcceptedExactly(clientID, ops[m].google, ops[m].now);
    hide After, Judge, Vouched, InTime;
    assert LastYes(clientID, ops, m, key);
  }

  // ----- the order is that of use -----

  /** Whether a step used a key: found it alive, or had it accepted. */
  predicate Uses(clientID: string, before: seq<Entry>, op: Op, key: string) {
    op.key == key && if op.Lookup? then Live(before, key, op.now).Some? else Accepts(clientID, op, key)
  }

  /** The last step that used a key, or -1. */
  function LastUse(clientID: string, ops: seq<Op>, key: string): (n: int)
    ensures -1 <= n < |ops|
  {
    if ops == [] then -1
    else if Uses(clientID, After(clientID, Front(ops)), ops[|ops| - 1], key) then |ops| - 1
    else LastUse(clientID, Front(ops), key)
  }

  /** Entries are in the order of their last use, the latest first, and every one was used. */
  ghost predicate ByUse(clientID: string, ops: seq<Op>, s: seq<Entry>) {
    s == [] || (UsedAfter(clientID, ops, s[0], s[1..]) && ByUse(clientID, ops, s[1..]))
  }

  ghost predicate UsedAfter(clientID: string, ops: seq<Op>, e: Entry, rest: seq<Entry>) {
    LastUse(clientID, ops, e.key) >= 0
    && forall o :: o in rest ==> LastUse(clientID, ops, e.key) > LastUse(clientID, ops, o.key)
  }

  lemma {:induction false} WithoutByUse(clientID: string, ops: seq<Op>, s: seq<Entry>, key: string)
    requires ByUse(clientID, ops, s)
    ensures ByUse(clientID, ops, Without(s, key))
  {
    hide LastUse;
    if s != [] {
      WithoutByUse(clientID, ops, s[1..], key);
      var left := Without(s[1..], key);
      if s[0].key != key {
        assert Without(s, key) == [s[0]] + left && ([s[0]] + left)[1..] == left;
        assert forall o :: o in left ==> o in s[1..];
      } else {
        assert Without(s, key) == left;
      }
    }
  }

  lemma {:induction false} TakeByUse(clientID: string, ops: seq<Op>, s: seq<Entry>, n: nat)
    requires ByUse(clientID, ops, s) && n <= |s|
    ensures ByUse(clientID, ops, s[..n])
  {
    hide LastUse;
    if n > 0 {
      TakeByUse(clientID, ops, s[1..], n - 1);
      assert s[..n][1..] == s[1..][..n - 1];
      assert forall o :: o in s[1..][..n - 1] ==> o in s[1..];
    }
  }

  /** A step that uses none of these keys leaves their order. */
  lemma {:induction false} LaterByUse(clientID: string, ops: seq<Op>, s: seq<Entry>)
    requires ops != [] && ByUse(clientID, Front(ops), s)
    requires forall e :: e in s ==> !Uses(clientID, After(clientID, Front(ops)), ops[|ops| - 1], e.key)
    ensures ByUse(clientID, ops, s)
  {
    hide Uses, After;
    if s != [] {
      LaterByUse(clientID, ops, s[1..]);
      assert forall e :: e in s ==> LastUse(clientID, ops, e.key) == LastUse(clientID, Front(ops), e.key);
      assert s[0] in s && forall o :: o in s[1..] ==> o in s;
    }
  }

  /** The key just used goes before all the others. */
  lemma UsedFirst(clientID: string, ops: seq<Op>, e: Entry, rest: seq<Entry>)
    requires ops != [] && Uses(clientID, After(clientID, Front(ops)), ops[|ops| - 1], e.key)
    requires ByUse(clientID, Front(ops), rest) && forall o :: o in rest ==> o.key != ops[|ops| - 1].key
    ensures ByUse(clientID, ops, [e] + rest)
  {
    assert forall o :: o in rest ==> !Uses(clientID, After(clientID, Front(ops)), ops[|ops| - 1], o.key);
    LaterByUse(clientID, ops, rest);
    hide Uses, After;
    assert ([e] + rest)[1..] == rest;
    forall o | o in rest
      ensures LastUse(clientID, ops, e.key) > LastUse(clientID, ops, o.key)
    {
    }
  }

  lemma LookupByUse(clientID: string, ops: seq<Op>, before: seq<Entry>, key: string, now: int)
    requires ops != [] && before == After(clientID, Front(ops)) && ops[|ops| - 1] == Lookup(key, now)
    requires ByUse(clientID, Front(ops), before)
    ensures ByUse(clientID, ops, AfterLookup(before, key, now))
  {
    WithoutByUse(clientID, Front(ops), before, key);
    hide After, LastUse, ByUse, Judge, Find, Without;
    if Live(before, key, now).Some? {
      UsedFirst(clientID, ops, Live(before, key, now).value, Without(before, key));
    } else {
      LaterByUse(clientID, ops, Without(before, key));
    }
  }

  /** An accepted answer in front of everything else, before any is dropped. */
  lemma AcceptedByUse(clientID: string, ops: seq<Op>, before: seq<Entry>, e: Entry)
    requires ops != [] && before == After(clientID, Front(ops)) && Accepts(clientID, ops[|ops| - 1], e.key)
    requires ByUse(clientID, Front(ops), before)
    ensures ByUse(clientID, ops, [e] + Without(before, e.key))
  {
    WithoutByUse(clientID, Front(ops), before, e.key);
    hide After, LastUse, ByUse, Judge, Find, Without;
    UsedFirst(clientID, ops, e, Without(before, e.key));
  }

  lemma AnswerByUse(clientID: string, ops: seq<Op>, before: seq<Entry>, key: string, google: Tokeninfo, now: int)
    requires ops != [] && before == After(clientID, Front(ops)) && ops[|ops| - 1] == Answered(key, google, now)
    requires ByUse(clientID, Front(ops), before)
    ensures ByUse(clientID, ops, AfterAnswer(clientID, before, key, google, now))
  {
    hide After, LastUse, ByUse, Judge, Find, Without;
    if Judge(clientID, google, now).Ok? {
      var (claims, remaining) := Judge(clientID, google, now).value;
      var e := Entry(key, claims, now + Min(remaining, CACHE_MAX_TTL));
      AcceptedByUse(clientID, ops, before, e);
      TakeByUse(clientID, ops, [e] + Without(before, key), |Without(before, key)|);
    } else {
      LaterByUse(clientID, ops, before);
    }
  }

  /** The cache is in the order its keys were last used. */
  lemma {:induction false} CacheIsByUse(clientID: string, ops: seq<Op>)
    ensures ByUse(clientID, ops, After(clientID, ops))
  {
    if ops == [] {
      NothingByUse(clientID, ops);
    } else {
      var before := After(clientID, Front(ops));
      CacheIsByUse(clientID, Front(ops));
      AfterStep(clientID, ops);
      hide *;
      match ops[|ops| - 1]
      case Lookup(key, now) => LookupByUse(clientID, ops, before, key, now);
      case Answered(key, google, now) => AnswerByUse(clientID, ops, before, key, google, now);
    }
  }

  lemma NothingByUse(clientID: string, ops: seq<Op>)
    requires ops == []
    ensures ByUse(clientID, ops, After(clientID, ops))
  {
  }

  lemma AfterStep(clientID: string, ops: seq<Op>)
    requires ops != []
    ensures After(clientID, ops) ==
              match ops[|ops| - 1]
              case Lookup(key, now) => AfterLookup(After(clientID, Front(ops)), key, now)
              case Answered(key, google, now) => AfterAnswer(clientID, After(clientID, Front(ops)), key, google, now)
  {
  }

  lemma {:induction false} CacheIsBounded(clientID: string, ops: seq<Op>)
    ensures |After(clientID, ops)| <= CACHE_CAPACITY
  {
    if ops != [] {
      CacheIsBounded(clientID, Front(ops));
      LookupIsNoLonger(After(clientID, Front(ops)), ops[|ops| - 1].key, ops[|ops| - 1].now);
      hide After, Judge, Find;
    }
  }

  lemma LookupIsNoLonger(s: seq<Entry>, key: string, now: int)
    ensures |AfterLookup(s, key, now)| <= |s|
  {
    if Find(s, key).Some? {
      WithoutShorter(s, Find(s, key).value);
    }
  }

  lemma {:induction false} WithoutShorter(s: seq<Entry>, e: Entry)
    requires e in s
    ensures |Without(s, e.key)| < |s|
  {
    if s[0].key != e.key {
      WithoutShorter(s[1..], e);
    }
  }

  lemma {:induction false} WithoutDistinct(s: seq<Entry>, key: string)
    requires Distinct(s)
    ensures Distinct(Without(s, key))
  {
    if s != [] {
      assert Distinct(s[1..]);
      WithoutDistinct(s[1..], key);
      var left := Without(s[1..], key);
      assert forall o :: o in left ==> o in s[1..];
    }
  }

  lemma {:induction false} CacheIsDistinct(clientID: string, ops: seq<Op>)
    ensures Distinct(After(clientID, ops))
  {
    if ops != [] {
      var before := After(clientID, Front(ops));
      CacheIsDistinct(clientID, Front(ops));
      AfterStep(clientID, ops);
      hide *;
      match ops[|ops| - 1]
      case Lookup(key, now) => LookupDistinct(before, key, now);
      case Answered(key, google, now) => AnswerDistinct(clientID, before, key, google, now);
    }
  }

  lemma ConsDistinct(e: Entry, rest: seq<Entry>)
    requires Distinct(rest) && forall o :: o in rest ==> o.key != e.key
    ensures Distinct([e] + rest)
  {
  }

  lemma LookupDistinct(s: seq<Entry>, key: string, now: int)
    requires Distinct(s)
    ensures Distinct(AfterLookup(s, key, now))
  {
    WithoutDistinct(s, key);
    hide Distinct, Find, Without;
    if Live(s, key, now).Some? {
      ConsDistinct(Live(s, key, now).value, Without(s, key));
    }
  }

  lemma AnswerDistinct(clientID: string, s: seq<Entry>, key: string, google: Tokeninfo, now: int)
    requires Distinct(s)
    ensures Distinct(AfterAnswer(clientID, s, key, google, now))
  {
    WithoutDistinct(s, key);
    if Judge(clientID, google, now).Ok? {
      var (claims, remaining) := Judge(clientID, google, now).value;
      ConsDistinct(Entry(key, claims, now + Min(remaining, CACHE_MAX_TTL)), Without(s, key));
    }
    hide Judge, Find, Without;
  }

  lemma {:induction false} FoundIs(s: seq<Entry>, e: Entry)
    requires Distinct(s) && e in s
    ensures Find(s, e.key) == Some(e)
  {
    if s[0] != e {
      assert Distinct(s[1..]);
      FoundIs(s[1..], e);
      var k :| 0 <= k < |s| && s[k] == e;
      assert s[0].key != s[k].key;
    }
  }

  lemma {:induction false} ByUseLast(clientID: string, ops: seq<Op>, s: seq<Entry>)
    requires ByUse(clientID, ops, s) && s != []
    ensures forall o :: o in s[..|s| - 1] ==> LastUse(clientID, ops, o.key) > LastUse(clientID, ops, s[|s| - 1].key)
  {
    hide LastUse;
    if |s| > 1 {
      var rest := s[1..];
      ByUseLast(clientID, ops, rest);
      assert rest[|rest| - 1] == s[|s| - 1] && s[|s| - 1] in rest;
      assert s[..|s| - 1] == [s[0]] + rest[..|rest| - 1];
    }
  }

  lemma DroppedByLookup(s: seq<Entry>, key: string, now: int, e: Entry)
    requires Distinct(s) && e in s && e !in AfterLookup(s, key, now)
    ensures key == e.key && e.expiresAt <= now
  {
    FoundIs(s, e);
    hide Find, Without;
  }

  /** Over capacity, what an accepted answer drops is the last. */
  lemma DroppedByStore(clientID: string, ops: seq<Op>, before: seq<Entry>, added: Entry, e: Entry)
    requires ByUse(clientID, ops, [added] + Without(before, added.key)) && |before| <= CACHE_CAPACITY
    requires e in before && e.key != added.key && e !in AfterStore(before, added)
    ensures |AfterStore(before, added)| == CACHE_CAPACITY
    ensures forall o :: o in AfterStore(before, added) ==> LastUse(clientID, ops, o.key) > LastUse(clientID, ops, e.key)
  {
    hide LastUse, ByUse, Without;
    var all := [added] + Without(before, added.key);
    assert e in Without(before, added.key);
    LastDropped(added, Without(before, added.key), e);
    ByUseLast(clientID, ops, all);
  }

  lemma LastDropped(added: Entry, rest: seq<Entry>, e: Entry)
    requires e in rest
    ensures e in [added] + rest
    ensures e !in ([added] + rest)[..|rest|] ==> e == ([added] + rest)[|rest|]
  {
    var all := [added] + rest;
    var k :| 0 <= k < |rest| && rest[k] == e;
    assert all[k + 1] == e;
    assert k + 1 < |rest| ==> all[..|rest|][k + 1] == e;
  }

  lemma DroppedByAnswer(
    clientID: string, ops: seq<Op>, before: seq<Entry>, key: string, google: Tokeninfo, now: int, e: Entry)
    requires ops != [] && before == After(clientID, Front(ops)) && ops[|ops| - 1] == Answered(key, google, now)
    requires ByUse(clientID, Front(ops), before) && |before| <= CACHE_CAPACITY
    requires e in before && e !in AfterAnswer(clientID, before, key, google, now)
    ensures var s := AfterAnswer(clientID, before, key, google, now);
      || Accepts(clientID, ops[|ops| - 1], e.key)
      || (|s| == CACHE_CAPACITY && forall o :: o in s ==> LastUse(clientID, ops, o.key) > LastUse(clientID, ops, e.key))
  {
    hide After, LastUse, ByUse, Judge, Find, Without, AfterStore;
    var (claims, remaining) := Judge(clientID, google, now).value;
    var added := Entry(key, claims, now + Min(remaining, CACHE_MAX_TTL));
    if key != e.key {
      AcceptedByUse(clientID, ops, before, added);
      DroppedByStore(clientID, ops, before, added, e);
    }
  }

  /**
    A key leaves the cache in three ways only: it aged out when it was looked up, it was answered for
    anew, or the cache was full and every key left had been used since.
   */
  lemma LeavesTheCache(clientID: string, ops: seq<Op>, e: Entry)
    requires ops != [] && e in After(clientID, Front(ops)) && e !in After(clientID, ops)
    ensures var op := ops[|ops| - 1];
      || (op == Lookup(e.key, op.now) && e.expiresAt <= op.now)
      || Accepts(clientID, op, e.key)
      || (|After(clientID, ops)| == CACHE_CAPACITY
          && forall o :: o in After(clientID, ops) ==> LastUse(clientID, ops, o.key) > LastUse(clientID, ops, e.key))
  {
    var before := After(clientID, Front(ops));
    AfterStep(clientID, ops);
    CacheIsDistinct(clientID, Front(ops));
    CacheIsByUse(clientID, Front(ops));
    CacheIsBounded(clientID, Front(ops));
    hide *;
    match ops[|ops| - 1]
    case Lookup(key, now) => DroppedByLookup(before, key, now, e);
    case Answered(key, google, now) => DroppedByAnswer(clientID, ops, before, key, google, now, e);
  }
}
