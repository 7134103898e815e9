/**
 The two version-guarded caches, app/core/auth/api_key_cache.py and
 app/core/middleware/firewall_cache.py, as values and as objects.

 `limit` is the API-key cache's `max_entries`; the firewall cache has none.
 */
module VersionedCache {
  import opened Options

  /** A key hash or a client address. */
  datatype Key = Key(text: string)

  datatype Entry<T> = Entry(data: T, expiresAt: real)

  /** `order` is the insertion order of the dict. */
  datatype Cache<T> = Cache(
    entries: map<Key, Entry<T>>, order: seq<Key>, version: nat, ttl: real, limit: Option<int>)

  ghost predicate NoRepeats(order: seq<Key>) {
    forall i, j :: 0 <= i < j < |order| ==> order[i] != order[j]
  }

  ghost function Members(order: seq<Key>): set<Key> {
    set k | k in order
  }

  ghost predicate WellFormed<T>(c: Cache<T>) {
    NoRepeats(c.order) && Members(c.order) == c.entries.Keys
  }

  function Empty<T>(ttl: real, limit: Option<int>): Cache<T> {
    Cache(map[], [], 0, ttl, limit)
  }

  function Lookup<T>(c: Cache<T>, key: Key, now: real): Option<T> {
    if key in c.entries && now < c.entries[key].expiresAt then Some(c.entries[key].data) else None
  }

  function Deadline(ttl: real, now: real): real {
    now + ttl
  }

  function Without(order: seq<Key>, key: Key): seq<Key> {
    if order == [] then []
    else (if order[0] == key then [] else [order[0]]) + Without(order[1..], key)
  }

  function Remove<T>(c: Cache<T>, key: Key): Cache<T> {
    c.(entries := c.entries - {key}, order := Without(c.order, key))
  }

  function Store<T>(c: Cache<T>, key: Key, e: Entry<T>): Cache<T> {
    c.(entries := c.entries[key := e], order := if key in c.entries then c.order else c.order + [key])
  }

  function Expiry<T>(c: Cache<T>, key: Key): real {
    if key in c.entries then c.entries[key].expiresAt else 0.0
  }

  /** `min(..., key=expires_at)`: the first key with the least expiry. */
  function Oldest<T>(c: Cache<T>, order: seq<Key>): (key: Key)
    requires order != []
    ensures key in order && forall k :: k in order ==> Expiry(c, key) <= Expiry(c, k)
    decreases |order|
  {
    if |order| == 1 then order[0]
    else
      var best := Oldest(c, order[..|order| - 1]);
      var last := order[|order| - 1];
      assert forall k :: k in order ==> k == last || k in order[..|order| - 1];
      if Expiry(c, last) < Expiry(c, best) then last else best
  }

  lemma {:induction false} OldestStep<T>(c: Cache<T>, i: nat)
    requires 0 < i < |c.order|
    ensures var best := Oldest(c, c.order[..i]);
            Oldest(c, c.order[..i + 1]) == if Expiry(c, c.order[i]) < Expiry(c, best) then c.order[i] else best
    ensures Oldest(c, c.order[..1]) == c.order[0]
  {
    assert c.order[..i + 1][..i] == c.order[..i];
  }

  datatype Outcome<T> =
    | Stored(cache: Cache<T>)
    | Refused
    | EmptyMinimum  // a non-positive limit: `min` of an empty dict raises

  predicate Full<T>(c: Cache<T>) {
    c.limit.Some? && |c.entries| >= c.limit.value
  }

  function Evict<T>(c: Cache<T>): Cache<T>
    requires c.order != []
  {
    Remove(c, Oldest(c, c.order))
  }

  /** `set`: refused when the version moved, else evict if full, then store. */
  function Put<T>(c: Cache<T>, key: Key, data: T, ifVersion: Option<nat>, now: real): Outcome<T> {
    if ifVersion.Some? && ifVersion.value != c.version then Refused
    else if Full(c) && c.order == [] then EmptyMinimum
    else Stored(Store(if Full(c) then Evict(c) else c, key, Entry(data, Deadline(c.ttl, now))))
  }

  function Dropped<T>(c: Cache<T>, key: Key): Cache<T> {
    Remove(c, key).(version := c.version + 1)
  }

  function Cleared<T>(c: Cache<T>): Cache<T> {
    c.(entries := map[], order := [], version := c.version + 1)
  }

  // ---------- Properties of the value model ----------

  lemma {:induction false} WithoutFacts(order: seq<Key>, key: Key)
    ensures Members(Without(order, key)) == Members(order) - {key}
    ensures NoRepeats(order) ==> NoRepeats(Without(order, key))
    decreases |order|
  {
    hide NoRepeats;
    assert order == [] ==> Members(order) == {};
    if order != [] {
      hide Members;
      WithoutFacts(order[1..], key);
      var rest := Without(order[1..], key);
      MembersPush(order[0], order[1..]);
      MembersPush(order[0], rest);
      assert order == [order[0]] + order[1..];
      assert [] + rest == rest;
    }
  }

  lemma {:induction false} MembersPush(k: Key, rest: seq<Key>)
    ensures Members([k] + rest) == {k} + Members(rest)
    ensures NoRepeats([k] + rest) <==> NoRepeats(rest) && k !in Members(rest)
  {
    var all := [k] + rest;
    if NoRepeats(all) {
      forall i | 0 <= i < |rest| ensures rest[i] != k {
        assert all[0] != all[i + 1];
      }
      forall i, j | 0 <= i < j < |rest| ensures rest[i] != rest[j] {
        assert all[i + 1] != all[j + 1];
      }
    }
  }

  lemma {:induction false} RemoveKeepsWellFormed<T>(c: Cache<T>, key: Key)
    requires WellFormed(c)
    ensures WellFormed(Remove(c, key))
    ensures |Remove(c, key).entries| == |c.entries| - if key in c.entries then 1 else 0
  {
    hide NoRepeats;
    hide Members;
    hide Without;
    WithoutFacts(c.order, key);
    assert (c.entries - {key}).Keys == c.entries.Keys - {key};
  }

  lemma {:induction false} StoreKeepsWellFormed<T>(c: Cache<T>, key: Key, e: Entry<T>)
    requires WellFormed(c)
    ensures WellFormed(Store(c, key, e))
    ensures |Store(c, key, e).entries| == |c.entries| + if key in c.entries then 0 else 1
  {
    assert c.entries[key := e].Keys == c.entries.Keys + {key};
    assert Members(c.order + [key]) == Members(c.order) + {key};
    assert key !in Members(c.order) ==> NoRepeats(c.order + [key]);
  }

  ghost predicate WithinLimit<T>(c: Cache<T>) {
    c.limit.Some? ==> |c.entries| <= c.limit.value
  }

  lemma {:induction false} DroppedFacts<T>(c: Cache<T>, key: Key)
    requires WellFormed(c) && WithinLimit(c)
    ensures var d := Dropped(c, key);
            && WellFormed(d) && WithinLimit(d) && d.limit == c.limit && key !in d.entries
            && OnlyChangedAt(c, d, key)
  {
    RemoveKeepsWellFormed(c, key);
    hide NoRepeats;
    hide Members;
    hide Without;
  }

  /** The entries of `d` are those of `c`, except for what happens at `key`. */
  ghost predicate OnlyChangedAt<T>(c: Cache<T>, d: Cache<T>, key: Key) {
    forall k :: k in d.entries && k != key ==> k in c.entries && d.entries[k] == c.entries[k]
  }

  /** `d` is `c` after a fill of `key` with `e`: nothing else is new. */
  ghost predicate FilledFrom<T>(c: Cache<T>, d: Cache<T>, key: Key, e: Entry<T>) {
    && WellFormed(d) && WithinLimit(d)
    && d.version == c.version && d.ttl == c.ttl && d.limit == c.limit
    && key in d.entries && d.entries[key] == e
    && OnlyChangedAt(c, d, key)
  }

  /** `b` has room for one more entry and holds only entries of `c`. */
  ghost predicate HasRoom<T>(c: Cache<T>, b: Cache<T>) {
    && WellFormed(b)
    && (b.limit.Some? ==> |b.entries| < b.limit.value)
    && b.version == c.version && b.ttl == c.ttl && b.limit == c.limit
    && forall k :: k in b.entries ==> k in c.entries && b.entries[k] == c.entries[k]
  }

  lemma {:induction false} StoreFills<T>(c: Cache<T>, b: Cache<T>, key: Key, e: Entry<T>)
    requires HasRoom(c, b)
    ensures FilledFrom(c, Store(b, key, e), key, e)
  {
    hide NoRepeats;
    StoreKeepsWellFormed(b, key, e);
  }

  lemma {:induction false} EvictMakesRoom<T>(c: Cache<T>)
    requires WellFormed(c) && WithinLimit(c) && c.order != []
    ensures HasRoom(c, Evict(c))
  {
    var oldest := Oldest(c, c.order);
    assert oldest in Members(c.order);
    hide NoRepeats;
    hide Members;
    hide Without;
    RemoveKeepsWellFormed(c, oldest);
  }

  /** A fill never raises for a positive limit, keeps the limit, and takes over nothing but the new entry. */
  lemma {:induction false} PutKeepsLimit<T>(c: Cache<T>, key: Key, data: T, ifVersion: Option<nat>, now: real)
    requires WellFormed(c) && WithinLimit(c) && (c.limit.Some? ==> c.limit.value > 0)
    ensures var r := Put(c, key, data, ifVersion, now);
            && !r.EmptyMinimum?
            && (r.Stored? ==> (ifVersion.Some? ==> ifVersion.value == c.version)
                              && FilledFrom(c, r.cache, key, Entry(data, Deadline(c.ttl, now))))
  {
    hide Deadline;
    if Full(c) {
      EvictMakesRoom(c);
    } else {
      assert HasRoom(c, c);
    }
    hide NoRepeats;
    hide Members;
    hide Evict;
    hide Store;
    hide HasRoom;
    hide FilledFrom;
    StoreFills(c, if Full(c) then Evict(c) else c, key, Entry(data, Deadline(c.ttl, now)));
  }

  /** What a full cache loses is an entry that expires no later than any other. */
  lemma {:induction false} EvictionTakesTheOldest<T>(c: Cache<T>, key: Key, data: T, ifVersion: Option<nat>,
                                                     now: real, lost: Key)
    requires WellFormed(c) && c.order != []
    requires var r := Put(c, key, data, ifVersion, now);
             r.Stored? && lost in c.entries && lost !in r.cache.entries
    ensures Full(c) && forall k :: k in c.entries ==> c.entries[lost].expiresAt <= c.entries[k].expiresAt
  {
    assert lost == Oldest(c, c.order);
    forall k | k in c.entries ensures c.entries[lost].expiresAt <= c.entries[k].expiresAt {
      assert k in Members(c.order);
      assert Expiry(c, lost) <= Expiry(c, k);
    }
  }

  lemma {:induction false} FilledIsWithinLimit<T>(c: Cache<T>, r: Outcome<T>, key: Key, e: Entry<T>)
    requires r.Stored? ==> FilledFrom(c, r.cache, key, e)
    ensures r.Stored? ==> WithinLimit(r.cache)
  {
  }

  // ---------- The objects ----------

  class ApiKeyCache<T> {
    var entries: map<Key, Entry<T>>
    var order: seq<Key>
    var version: nat
    const ttl: real
    const maxEntries: int

    constructor (ttl: real, maxEntries: int)
      ensures View() == Empty(ttl, Some(maxEntries)) && Valid()
    {
      entries, order, version := map[], [], 0;
      this.ttl, this.maxEntries := ttl, maxEntries;
    }

    ghost function View(): Cache<T>
      reads this
    {
      Cache(entries, order, version, ttl, Some(maxEntries))
    }

    ghost predicate Valid()
      reads this
    {
      WellFormed(View())
    }

    method Get(key: Key, now: real) returns (data: Option<T>)
      ensures data == Lookup(View(), key, now)
    {
      if key in entries && now < entries[key].expiresAt {
        return Some(entries[key].data);
      }
      return None;
    }

    /** Index of the entry `min` picks. */
    method OldestKey() returns (key: Key)
      requires Valid() && order != []
      ensures key == Oldest(View(), order)
    {
      hide Oldest;
      ghost var c := View();
      assert forall k :: k in order ==> k in Members(order);
      hide Members;
      hide NoRepeats;
      key := order[0];
      if |order| > 1 {
        OldestStep(c, 1);
      }
      for i := 1 to |order|
        invariant key in order && key == Oldest(c, order[..i])
      {
        OldestStep(c, i);
        if entries[order[i]].expiresAt < entries[key].expiresAt {
          key := order[i];
        }
      }
      assert order[..|order|] == order;
    }

    /** Returns false where the source raises. */
    method Set(key: Key, data: T, ifVersion: Option<nat>, now: real) returns (ok: bool)
      requires Valid()
      modifies this
      ensures Valid()
      ensures var r := Put(old(View()), key, data, ifVersion, now);
              && View() == (if r.Stored? then r.cache else old(View()))
              && ok == !r.EmptyMinimum?
      ensures old(WithinLimit(View())) && maxEntries > 0 ==> ok && WithinLimit(View())
    {
      hide NoRepeats;
      hide Members;
      hide Without;
      hide Oldest;
      hide FilledFrom;
      hide Deadline;
      if WithinLimit(View()) && maxEntries > 0 {
        PutKeepsLimit(View(), key, data, ifVersion, now);
        FilledIsWithinLimit(View(), Put(View(), key, data, ifVersion, now), key, Entry(data, Deadline(ttl, now)));
      }
      if ifVersion.Some? && ifVersion.value != version {
        return true;
      }
      if |entries| >= maxEntries {
        if order == [] {
          return false;
        }
        var oldest := OldestKey();
        RemoveKeepsWellFormed(View(), oldest);
        entries, order := entries - {oldest}, Without(order, oldest);
      }
      StoreKeepsWellFormed(View(), key, Entry(data, Deadline(ttl, now)));
      order := if key in entries then order else order + [key];
      entries := entries[key := Entry(data, Deadline(ttl, now))];
      return true;
    }

    method Invalidate(key: Key)
      requires Valid()
      modifies this
      ensures Valid() && View() == Dropped(old(View()), key)
    {
      hide NoRepeats;
      hide Members;
      hide Without;
      RemoveKeepsWellFormed(View(), key);
      entries, order := entries - {key}, Without(order, key);
      version := version + 1;
    }

    method Clear()
      modifies this
      ensures Valid() && View() == Cleared(old(View()))
    {
      entries, order, version := map[], [], version + 1;
    }
  }

  class FirewallIpCache {
    var entries: map<Key, Entry<bool>>
    var order: seq<Key>
    var version: nat
    const ttl: real

    constructor (ttl: real)
      requires ttl > 0.0
      ensures View() == Empty(ttl, None) && Valid()
    {
      entries, order, version := map[], [], 0;
      this.ttl := ttl;
    }

    ghost function View(): Cache<bool>
      reads this
    {
      Cache(entries, order, version, ttl, None)
    }

    ghost predicate Valid()
      reads this
    {
      WellFormed(View())
    }

    method IsAllowed(ip: Key, now: real) returns (allowed: Option<bool>)
      ensures allowed == Lookup(View(), ip, now)
    {
      if ip !in entries {
        return None;
      }
      if now >= entries[ip].expiresAt {
        return None;
      }
      return Some(entries[ip].data);
    }

    method Set(ip: Key, allowed: bool, ifVersion: Option<nat>, now: real)
      requires Valid()
      modifies this
      ensures Valid()
      ensures var r := Put(old(View()), ip, allowed, ifVersion, now);
              View() == if r.Stored? then r.cache else old(View())
    {
      if ifVersion.Some? && ifVersion.value != version {
        return;
      }
      StoreKeepsWellFormed(View(), ip, Entry(allowed, Deadline(ttl, now)));
      order := if ip in entries then order else order + [ip];
      entries := entries[ip := Entry(allowed, Deadline(ttl, now))];
    }

    method InvalidateAll()
      modifies this
      ensures Valid() && View() == Cleared(old(View()))
    {
      entries, order, version := map[], [], version + 1;
    }
  }
}
