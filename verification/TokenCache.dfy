/**
  The validator of Google's access tokens (internal/auth/tokeninfo.go) and the cache of its positive
  answers: a list in order of use and a map into it. Instants are nanoseconds; the two clock reads
  around an answer are one instant.
 */
module TokenCache {
  import opened Wrappers

  const SECOND: int := 1_000_000_000
  const CACHE_CAPACITY: nat := 128
  const CACHE_MAX_TTL: int := 300 * SECOND
  const REMAINING_SECONDS_CEILING: int := 86_400
  const ABSOLUTE_EPOCH_FLOOR: int := 1_577_836_800

  datatype Claims = Claims(subject: string, email: string, emailVerified: bool)

  datatype Entry = Entry(key: string, claims: Claims, expiresAt: int)

  /** The part of Google's answer that is read; `exp` is absent if it is no integer. */
  datatype Response = Response(aud: string, azp: string, sub: string, email: string, emailVerified: bool, exp: Option<int>)

  datatype Tokeninfo = Unreachable | Status(code: int, body: Option<Response>)

  datatype Refusal = TokenRejected | ValidationUnavailable

  /** Seconds left, or an instant that has not passed; what could be neither is refused. */
  function RemainingLifetime(exp: Option<int>, now: int): (r: Option<int>)
    ensures r.Some? ==> r.value > 0
  {
    if exp.None? then None
    else if exp.value >= ABSOLUTE_EPOCH_FLOOR then
      if exp.value * SECOND - now <= 0 then None else Some(exp.value * SECOND - now)
    else if 0 < exp.value <= REMAINING_SECONDS_CEILING then Some(exp.value * SECOND)
    else None
  }

  /** What Google's answer makes of a token: its claims, and how long it has left. */
  function Judge(clientID: string, google: Tokeninfo, now: int): Result<(Claims, int), Refusal> {
    match google
    case Unreachable => Err(ValidationUnavailable)
    case Status(code, body) =>
      if code == 408 || code == 429 then Err(ValidationUnavailable)
      else if 400 <= code < 500 then Err(TokenRejected)
      else if code != 200 || body.None? then Err(ValidationUnavailable)
      else
        var info := body.value;
        if info.aud != clientID || info.azp != clientID || info.sub == "" then Err(TokenRejected)
        else
          match RemainingLifetime(info.exp, now)
          case None => Err(TokenRejected)
          case Some(remaining) => Ok((Claims(info.sub, info.email, info.emailVerified), remaining))
  }

  // ----- the cache as a list in order of use -----

  function Find(s: seq<Entry>, key: string): (r: Option<Entry>)
    ensures r.Some? ==> r.value in s && r.value.key == key
    ensures r.None? ==> forall e :: e in s ==> e.key != key
  {
    if s == [] then None else if s[0].key == key then Some(s[0]) else Find(s[1..], key)
  }

  function Without(s: seq<Entry>, key: string): (r: seq<Entry>)
    ensures |r| <= |s|
    ensures forall e :: e in r <==> e in s && e.key != key
  {
    if s == [] then [] else (if s[0].key == key then [] else [s[0]]) + Without(s[1..], key)
  }

  function Live(s: seq<Entry>, key: string, now: int): Option<Entry> {
    match Find(s, key)
    case None => None
    case Some(e) => if now < e.expiresAt then Some(e) else None
  }

  /** A hit moves to the front; an entry that has aged out is dropped. */
  function AfterLookup(s: seq<Entry>, key: string, now: int): seq<Entry> {
    match Live(s, key, now)
    case Some(e) => [e] + Without(s, key)
    case None => Without(s, key)
  }

  /** An answer goes to the front, in place of an older one for its key or, over capacity, of the last. */
  function AfterStore(s: seq<Entry>, e: Entry): seq<Entry> {
    var all := [e] + Without(s, e.key);
    if |all| > CACHE_CAPACITY then all[..|all| - 1] else all
  }

  function AfterAnswer(clientID: string, s: seq<Entry>, key: string, google: Tokeninfo, now: int): seq<Entry> {
    match Judge(clientID, google, now)
    case Err(_) => s
    case Ok((claims, remaining)) => AfterStore(s, Entry(key, claims, now + Min(remaining, CACHE_MAX_TTL)))
  }

  /** One call with nothing else between its steps: the cache is asked twice, the second time holding a slot. */
  function Validated(clientID: string, s: seq<Entry>, key: string, slotFree: bool, google: Tokeninfo, now: int)
    : (Result<Claims, Refusal>, seq<Entry>)
  {
    if clientID == "" then (Err(TokenRejected), s)
    else
      var looked := AfterLookup(s, key, now);
      if Live(s, key, now).Some? then (Ok(Live(s, key, now).value.claims), looked)
      else if !slotFree then (Err(ValidationUnavailable), looked)
      else
        var again := AfterLookup(looked, key, now);
        if Live(looked, key, now).Some? then (Ok(Live(looked, key, now).value.claims), again)
        else
          (match Judge(clientID, google, now) case Err(e) => Err(e) case Ok((claims, _)) => Ok(claims),
           AfterAnswer(clientID, again, key, google, now))
  }

  ghost predicate Distinct(s: seq<Entry>) {
    forall i, j :: 0 <= i < j < |s| ==> s[i].key != s[j].key
  }

  lemma {:induction false} WithoutNone(s: seq<Entry>, key: string)
    requires forall e :: e in s ==> e.key != key
    ensures Without(s, key) == s
  {
    if s != [] {
      WithoutNone(s[1..], key);
      assert s == [s[0]] + s[1..];
    }
  }

  function Dropped<T>(s: seq<T>, k: nat): seq<T>
    requires k < |s|
  {
    s[..k] + s[k + 1..]
  }

  lemma {:induction false} WithoutAt(s: seq<Entry>, k: nat)
    requires Distinct(s) && k < |s|
    ensures Without(s, s[k].key) == Dropped(s, k) && Find(s, s[k].key) == Some(s[k])
  {
    var rest := s[1..];
    if k == 0 {
      WithoutNone(rest, s[0].key);
      assert s[..0] + s[1..] == rest;
    } else {
      DroppedLater(s, k);
      WithoutAt(rest, k - 1);
    }
  }

  lemma DroppedLater(s: seq<Entry>, k: nat)
    requires Distinct(s) && 0 < k < |s|
    ensures Distinct(s[1..]) && s[1..][k - 1] == s[k] && Dropped(s, k) == [s[0]] + Dropped(s[1..], k - 1)
  {
    assert s[..k] == [s[0]] + s[1..][..k - 1] && s[k + 1..] == s[1..][k..];
  }

  lemma {:induction false} FindNone(s: seq<Entry>, key: string)
    requires forall e :: e in s ==> e.key != key
    ensures Find(s, key) == None
  {
  }

  // ----- the list and the map as they are kept -----

  class Element {
    var value: Entry

    constructor (value: Entry)
      ensures this.value == value
    {
      this.value := value;
    }
  }

  /** The list and the map hold the same elements, one for each key, and no more than the capacity. */
  ghost predicate Indexes(contents: seq<Entry>, cache: seq<Element>, entries: map<string, Element>) {
    && |contents| == |cache| && Distinct(contents)
    && (forall i :: 0 <= i < |contents| ==> contents[i].key in entries && entries[contents[i].key] == cache[i])
    && (forall key :: key in entries ==> exists i :: 0 <= i < |contents| && contents[i].key == key)
  }

  lemma DroppedAt<T>(s: seq<T>, k: nat)
    requires k < |s|
    ensures |Dropped(s, k)| == |s| - 1
    ensures forall i :: 0 <= i < |s| - 1 ==> Dropped(s, k)[i] == s[if i < k then i else i + 1]
  {
  }

  lemma DroppedDistinct(contents: seq<Entry>, k: nat)
    requires Distinct(contents) && k < |contents|
    ensures Distinct(Dropped(contents, k)) && forall e :: e in Dropped(contents, k) ==> e.key != contents[k].key
  {
    DroppedAt(contents, k);
    hide Dropped;
  }

  lemma IndexesDropped(contents: seq<Entry>, cache: seq<Element>, entries: map<string, Element>, k: nat)
    requires Indexes(contents, cache, entries) && k < |cache|
    ensures Indexes(Dropped(contents, k), Dropped(cache, k), entries - {contents[k].key})
  {
    DroppedAt(contents, k);
    DroppedAt(cache, k);
    DroppedDistinct(contents, k);
    hide Dropped, Distinct;
    var later, list, left := Dropped(contents, k), Dropped(cache, k), entries - {contents[k].key};
    forall i | 0 <= i < |later|
      ensures later[i].key in left && left[later[i].key] == list[i]
    {
      assert later[i] in later;
    }
    forall key | key in left
      ensures exists i :: 0 <= i < |later| && later[i].key == key
    {
      var i :| 0 <= i < |contents| && contents[i].key == key;
      assert later[if i < k then i else i - 1].key == key;
    }
  }

  lemma IndexesPushed(
    contents: seq<Entry>, cache: seq<Element>, entries: map<string, Element>, entry: Entry, element: Element)
    requires Indexes(contents, cache, entries) && entry.key !in entries
    ensures Indexes([entry] + contents, [element] + cache, entries[entry.key := element])
  {
    var all := [entry] + contents;
    var later := entries[entry.key := element];
    forall key | key in later
      ensures exists i :: 0 <= i < |all| && all[i].key == key
    {
      if key == entry.key {
        assert all[0].key == key;
      } else {
        var i :| 0 <= i < |contents| && contents[i].key == key;
        assert all[i + 1].key == key;
      }
    }
  }

  /** An element taken out and put in front again, with the same key. */
  lemma IndexesFronted(
    contents: seq<Entry>, cache: seq<Element>, entries: map<string, Element>, k: nat, entry: Entry)
    requires Indexes(contents, cache, entries) && k < |cache| && entry.key == contents[k].key
    ensures Indexes([entry] + Dropped(contents, k), [cache[k]] + Dropped(cache, k), entries)
  {
    var key := contents[k].key;
    IndexesDropped(contents, cache, entries, k);
    var left := entries - {key};
    hide Indexes, Dropped;
    IndexesPushed(Dropped(contents, k), Dropped(cache, k), left, entry, cache[k]);
    assert left[key := cache[k]] == entries by { KeyAt(contents, cache, entries, k); }
  }

  lemma KeyAt(contents: seq<Entry>, cache: seq<Element>, entries: map<string, Element>, k: nat)
    requires Indexes(contents, cache, entries) && k < |cache|
    ensures |contents| == |cache| && contents[k].key in entries && entries[contents[k].key] == cache[k]
  {
  }

  lemma KeyFound(contents: seq<Entry>, cache: seq<Element>, entries: map<string, Element>, key: string)
    requires Indexes(contents, cache, entries) && key in entries
    ensures exists k :: 0 <= k < |contents| == |cache| && contents[k].key == key && cache[k] == entries[key]
  {
  }

  lemma KeyMissing(contents: seq<Entry>, cache: seq<Element>, entries: map<string, Element>, key: string)
    requires Indexes(contents, cache, entries) && key !in entries
    ensures Without(contents, key) == contents && Find(contents, key) == None
  {
    WithoutNone(contents, key);
    FindNone(contents, key);
  }

  lemma LookedUpAt(contents: seq<Entry>, cache: seq<Element>, entries: map<string, Element>, k: nat)
    requires Indexes(contents, cache, entries) && k < |contents|
    ensures Without(contents, contents[k].key) == Dropped(contents, k)
    ensures Find(contents, contents[k].key) == Some(contents[k])
  {
    WithoutAt(contents, k);
  }

  /** No element is in the list twice. */
  lemma ElementsDiffer(contents: seq<Entry>, cache: seq<Element>, entries: map<string, Element>)
    requires Indexes(contents, cache, entries)
    requires forall i :: 0 <= i < |cache| ==> contents[i] == cache[i].value
    ensures forall i, j :: 0 <= i < j < |cache| ==> cache[i] != cache[j]
  {
  }

  class Validator {
    const clientID: string
    var cache: seq<Element>
    var entries: map<string, Element>

    ghost predicate Indexed()
      reads this, cache
    {
      Indexes(Contents(), cache, entries)
    }

    ghost predicate Valid()
      reads this, cache
    {
      |cache| <= CACHE_CAPACITY && Indexed()
    }

    ghost function Contents(): (s: seq<Entry>)
      reads this, cache
      ensures |s| == |cache| && forall i :: 0 <= i < |s| ==> s[i] == cache[i].value
    {
      seq(|cache|, i requires 0 <= i < |cache| reads this, cache => cache[i].value)
    }

    constructor (clientID: string)
      ensures this.clientID == clientID && Valid() && Contents() == []
    {
      this.clientID, cache, entries := clientID, [], map[];
    }

    /** Takes an element out of the list. */
    method Remove(element: Element) returns (ghost k: nat)
      requires element in cache
      modifies this`cache
      ensures k < |old(cache)| && old(cache)[k] == element && cache == Dropped(old(cache), k)
      ensures (forall e :: e in cache ==> e in old(cache)) && |cache| == |old(cache)| - 1
    {
      var i := 0;
      while i < |cache| && cache[i] != element
        invariant i <= |cache| && element !in cache[..i]
      {
        i := i + 1;
      }
      assert cache[..|cache|] == cache;
      cache := cache[..i] + cache[i + 1..];
      k := i;
    }

    method MoveToFront(element: Element) returns (ghost k: nat)
      requires element in cache
      modifies this`cache
      ensures k < |old(cache)| && old(cache)[k] == element && cache == [element] + Dropped(old(cache), k)
      ensures (forall e :: e in cache ==> e in old(cache)) && |cache| == |old(cache)|
    {
      k := Remove(element);
      cache := [element] + cache;
    }

    lemma Named(key: string)
      requires Indexed() && key in entries
      ensures entries[key] in cache && entries[key].value.key == key
    {
      KeyFound(Contents(), cache, entries, key);
    }

    /** The values of a list with one element in front, the others as they were. */
    lemma Fronted(was: seq<Entry>, list: seq<Element>, k: nat)
      requires |was| == |list| && k < |list| && cache == [list[k]] + Dropped(list, k)
      requires forall i :: 0 <= i < |list| && i != k ==> list[i].value == was[i]
      ensures Contents() == [list[k].value] + Dropped(was, k)
    {
      var values := [list[k].value] + Dropped(was, k);
      forall j | 0 <= j < |cache|
        ensures cache[j].value == values[j]
      {
        if j > 0 {
          assert cache[j] == Dropped(list, k)[j - 1];
          assert Dropped(list, k)[j - 1] == list[if j - 1 < k then j - 1 else j];
        }
      }
    }

    lemma LeftOver(was: seq<Entry>, list: seq<Element>, k: nat)
      requires |was| == |list| && k < |list| && cache == Dropped(list, k)
      requires forall i :: 0 <= i < |list| ==> list[i].value == was[i]
      ensures Contents() == Dropped(was, k)
    {
      DroppedAt(was, k);
      DroppedAt(list, k);
      hide Dropped;
    }

    /** Forgets a key. */
    method Drop(key: string)
      requires Indexed() && key in entries
      modifies this
      ensures Indexed() && (forall e :: e in cache ==> e in old(cache)) && |cache| < |old(cache)|
      ensures Contents() == Without(old(Contents()), key)
    {
      hide Indexes, Distinct, Find, Without, Dropped;
      ghost var was, list := Contents(), cache;
      Named(key);
      var element := entries[key];
      ghost var k := Remove(element);
      IndexesDropped(was, list, entries, k);
      LookedUpAt(was, list, entries, k);
      entries := entries - {key};
      LeftOver(was, list, k);
    }

    /** Brings a key to the front. */
    method Touch(key: string)
      requires Indexed() && key in entries
      modifies this`cache
      ensures Indexed() && (forall e :: e in cache ==> e in old(cache)) && |cache| == |old(cache)|
      ensures Contents() == [old(entries[key].value)] + Without(old(Contents()), key)
    {
      hide Indexes, Distinct, Find, Without, Dropped;
      ghost var was, list := Contents(), cache;
      Named(key);
      var element := entries[key];
      ghost var k := MoveToFront(element);
      IndexesFronted(was, list, entries, k, element.value);
      LookedUpAt(was, list, entries, k);
      Fronted(was, list, k);
    }

    /** What is remembered of a key, if it has not aged out; an entry that has is dropped. */
    method Cached(key: string, now: int) returns (r: Option<Claims>)
      requires Valid()
      modifies this
      ensures Valid() && forall e :: e in cache ==> e in old(cache)
      ensures Contents() == AfterLookup(old(Contents()), key, now)
      ensures var live := Live(old(Contents()), key, now); r == if live.Some? then Some(live.value.claims) else None
    {
      hide Indexes, Distinct, Find, Without, Indexed, Contents;
      Lookup(key);
      if key !in entries {
        return None;
      }
      var entry := entries[key].value;
      if !(now < entry.expiresAt) {
        Drop(key);
        return None;
      }
      Touch(key);
      r := Some(entry.claims);
    }

    lemma Lookup(key: string)
      requires Indexed()
      ensures key !in entries ==> Find(Contents(), key) == None && Without(Contents(), key) == Contents()
      ensures key in entries ==> entries[key] in cache && Find(Contents(), key) == Some(entries[key].value)
    {
      hide Indexes, Distinct, Find, Without;
      if key in entries {
        KeyFound(Contents(), cache, entries, key);
        var k :| 0 <= k < |Contents()| && Contents()[k].key == key && cache[k] == entries[key];
        LookedUpAt(Contents(), cache, entries, k);
      } else {
        KeyMissing(Contents(), cache, entries, key);
      }
    }

    /** A new value for a key already there, brought to the front. */
    method Renew(entry: Entry)
      requires Indexed() && entry.key in entries
      modifies this`cache, cache
      ensures Indexed() && (forall e :: e in cache ==> e in old(cache)) && |cache| == |old(cache)|
      ensures Contents() == [entry] + Without(old(Contents()), entry.key)
    {
      hide Indexes, Distinct, Find, Without, Dropped;
      ghost var was, list := Contents(), cache;
      Named(entry.key);
      ElementsDiffer(was, cache, entries);
      var element := entries[entry.key];
      element.value := entry;
      ghost var k := MoveToFront(element);
      IndexesFronted(was, list, entries, k, entry);
      LookedUpAt(was, list, entries, k);
      assert forall i :: 0 <= i < |list| && i != k ==> list[i] != element && list[i].value == was[i];
      Fronted(was, list, k);
    }

    method PushFront(entry: Entry)
      requires Indexed() && entry.key !in entries
      modifies this
      ensures Indexed() && (forall e :: e in cache ==> e in old(cache) || fresh(e)) && |cache| == |old(cache)| + 1
      ensures Contents() == [entry] + old(Contents())
    {
      hide Indexes;
      ghost var was := Contents();
      var element := new Element(entry);
      IndexesPushed(was, cache, entries, entry, element);
      cache := [element] + cache;
      entries := entries[entry.key := element];
      assert Contents() == [entry] + was;
    }

    method EvictOldest()
      requires Indexed() && |cache| > 0
      modifies this
      ensures Indexed() && (forall e :: e in cache ==> e in old(cache)) && |cache| == |old(cache)| - 1
      ensures Contents() == old(Contents())[..|old(cache)| - 1]
    {
      hide Indexes;
      ghost var was := Contents();
      var last := |cache| - 1;
      IndexesDropped(was, cache, entries, last);
      assert Dropped(was, last) == was[..last] && Dropped(cache, last) == cache[..last];
      var oldest := cache[last];
      entries := entries - {oldest.value.key};
      cache := cache[..last];
      assert Contents() == was[..last];
    }

    /** The entry in front, in place of any other for its key. */
    method Remember(entry: Entry)
      requires Valid()
      modifies this, cache
      ensures Indexed() && (forall e :: e in cache ==> e in old(cache) || fresh(e)) && |cache| <= |old(cache)| + 1
      ensures Contents() == [entry] + Without(old(Contents()), entry.key)
    {
      Lookup(entry.key);
      hide Indexes, Distinct, Find, Without, Indexed, Contents;
      if entry.key in entries {
        Renew(entry);
      } else {
        PushFront(entry);
      }
    }

    /** Remembers an accepted answer, in place of what was remembered of the key, or of the key used longest ago. */
    method Store(key: string, accepted: Claims, expiresAt: int)
      requires Valid()
      modifies this, cache
      ensures Valid() && forall e :: e in cache ==> e in old(cache) || fresh(e)
      ensures Contents() == AfterStore(old(Contents()), Entry(key, accepted, expiresAt))
    {
      hide Indexes, Distinct, Find, Without, Indexed, Contents;
      Remember(Entry(key, accepted, expiresAt));
      if |cache| > CACHE_CAPACITY {
        EvictOldest();
      }
    }

    /** Google's answer for a token: refused, or accepted and remembered. */
    method Answer(key: string, google: Tokeninfo, now: int) returns (r: Result<Claims, Refusal>)
      requires Valid()
      modifies this, cache
      ensures Valid() && forall e :: e in cache ==> e in old(cache) || fresh(e)
      ensures Contents() == AfterAnswer(clientID, old(Contents()), key, google, now)
      ensures r == match Judge(clientID, google, now) case Err(e) => Err(e) case Ok((claims, _)) => Ok(claims)
    {
      hide Indexes, Distinct, Indexed, Contents, AfterStore;
      var judged := Judge(clientID, google, now);
      if judged.Err? {
        return Err(judged.error);
      }
      var (accepted, remaining) := judged.value;
      Store(key, accepted, now + Min(remaining, CACHE_MAX_TTL));
      r := Ok(accepted);
    }

    /** The whole call: remembered, or asked of Google if a slot is free. */
    method Validate(key: string, slotFree: bool, google: Tokeninfo, now: int) returns (r: Result<Claims, Refusal>)
      requires Valid()
      modifies this, cache
      ensures Valid()
      ensures (r, Contents()) == Validated(clientID, old(Contents()), key, slotFree, google, now)
    {
      hide Indexes, Distinct, Indexed, Contents, AfterAnswer, AfterLookup, Live, Judge;
      if clientID == "" {
        return Err(TokenRejected);
      }
      var cached := Cached(key, now);
      if cached.Some? {
        return Ok(cached.value);
      }
      if !slotFree {
        return Err(ValidationUnavailable);
      }
      ghost var held := cache;
      cached := Cached(key, now);
      if cached.Some? {
        return Ok(cached.value);
      }
      assert forall i :: 0 <= i < |cache| ==> cache[i] in held && cache[i] in old(cache);
      r := Answer(key, google, now);
    }
  }
}
