/** The secret cache in front of a vault: entries live for a while, are dropped by writes that
    go through the cache, and the earliest to expire makes room for a new one. */
module SecretCache {

  datatype Result<+T> = Ok(value: T) | NotFound | Failed

  datatype Entry = Entry(value: string, expiresAt: int)

  /** What the vault held at some time. */
  datatype Snapshot = Snapshot(time: int, secrets: map<string, string>)

  /** Everything the vault ever held, and when each key was last written through the cache. */
  datatype Trace = Trace(history: seq<Snapshot>, written: map<string, nat>)

  ghost predicate HeldAt(s: Snapshot, from: int, key: string, value: string) {
    s.time >= from && key in s.secrets && s.secrets[key] == value
  }

  ghost function Since(t: Trace, key: string): nat {
    if key in t.written then t.written[key] else 0
  }

  /** The vault held the value at `from` or later, and since the last write through the cache. */
  ghost predicate Held(t: Trace, from: int, key: string, value: string) {
    exists i :: Since(t, key) <= i < |t.history| && HeldAt(t.history[i], from, key, value)
  }

  lemma HeldEarlier(t: Trace, from: int, earlier: int, key: string, value: string)
    requires Held(t, from, key, value) && earlier <= from
    ensures Held(t, earlier, key, value)
  {
    var i :| Since(t, key) <= i < |t.history| && HeldAt(t.history[i], from, key, value);
    assert HeldAt(t.history[i], earlier, key, value);
  }

  /** The vault held the entry's value, no longer than the time to live before it expires. */
  ghost predicate EntryHeld(t: Trace, ttl: int, key: string, e: Entry) {
    Held(t, e.expiresAt - ttl, key, e.value)
  }

  ghost predicate AllHeld(cache: map<string, Entry>, t: Trace, ttl: int) {
    forall k :: k in cache ==> EntryHeld(t, ttl, k, cache[k])
  }

  /** As long as the empty key was never stored, the cache stays within its limit. */
  ghost predicate Within(cache: map<string, Entry>, emptyKey: bool, maxSize: int) {
    !emptyKey ==> "" !in cache && (maxSize > 0 ==> |cache| <= maxSize)
  }

  /** The history ends with the present. */
  ghost predicate UpToDate(t: Trace, now: int, vault: map<string, string>) {
    && t.history != [] && t.history[|t.history| - 1] == Snapshot(now, vault)
    && forall k :: k in t.written ==> t.written[k] < |t.history|
  }

  function Later(t: Trace, now: int, vault: map<string, string>): Trace {
    t.(history := t.history + [Snapshot(now, vault)])
  }

  function WrittenNow(t: Trace, key: string, now: int, vault: map<string, string>): Trace {
    Later(t, now, vault).(written := t.written[key := |t.history|])
  }

  lemma LaterKeeps(t: Trace, ttl: int, now: int, vault: map<string, string>, key: string, e: Entry)
    requires EntryHeld(t, ttl, key, e)
    ensures EntryHeld(Later(t, now, vault), ttl, key, e)
  {
    var t' := Later(t, now, vault);
    var i :| Since(t, key) <= i < |t.history| && HeldAt(t.history[i], e.expiresAt - ttl, key, e.value);
    assert t'.history[i] == t.history[i];
  }

  lemma AllLater(cache: map<string, Entry>, t: Trace, ttl: int, now: int, vault: map<string, string>)
    requires AllHeld(cache, t, ttl)
    ensures AllHeld(cache, Later(t, now, vault), ttl)
  {
    forall k | k in cache ensures EntryHeld(Later(t, now, vault), ttl, k, cache[k]) {
      LaterKeeps(t, ttl, now, vault, k, cache[k]);
    }
  }

  lemma WriteKeeps(cache: map<string, Entry>, t: Trace, ttl: int, key: string, now: int, vault: map<string, string>)
    requires AllHeld(cache, t, ttl)
    ensures AllHeld(cache - {key}, WrittenNow(t, key, now, vault), ttl)
  {
    forall k | k in cache - {key} ensures EntryHeld(WrittenNow(t, key, now, vault), ttl, k, cache[k]) {
      LaterKeeps(t, ttl, now, vault, k, cache[k]);
      OtherKey(Later(t, now, vault), ttl, key, |t.history|, k, cache[k]);
    }
  }

  lemma OtherKey(t: Trace, ttl: int, key: string, n: nat, k: string, e: Entry)
    requires EntryHeld(t, ttl, k, e) && k != key
    ensures EntryHeld(t.(written := t.written[key := n]), ttl, k, e)
  {
    var t' := t.(written := t.written[key := n]);
    assert Since(t', k) == Since(t, k);
    var i :| Since(t, k) <= i < |t.history| && HeldAt(t.history[i], e.expiresAt - ttl, k, e.value);
    assert HeldAt(t'.history[i], e.expiresAt - ttl, k, e.value);
  }

  lemma WriteUpToDate(t: Trace, key: string, now: int, before: map<string, string>, vault: map<string, string>)
    requires UpToDate(t, now, before)
    ensures UpToDate(WrittenNow(t, key, now, vault), now, vault)
  {
  }

  lemma WriteWithin(cache: map<string, Entry>, emptyKey: bool, maxSize: int, key: string)
    requires Within(cache, emptyKey, maxSize)
    ensures Within(cache - {key}, emptyKey, maxSize)
  {
    DropOne(cache, key);
  }

  lemma DropOne(cache: map<string, Entry>, key: string)
    ensures |cache - {key}| == |cache| - if key in cache then 1 else 0
  {
    assert (cache - {key}).Keys == cache.Keys - {key};
    assert |cache| == |cache.Keys| && |cache - {key}| == |(cache - {key}).Keys|;
    assert key in cache ==> cache.Keys == (cache.Keys - {key}) + {key};
  }

  lemma AddOne(cache: map<string, Entry>, key: string, e: Entry)
    ensures |cache[key := e]| <= |cache| + 1
  {
    assert cache[key := e].Keys == cache.Keys + {key};
    assert |cache| == |cache.Keys| && |cache[key := e]| == |cache[key := e].Keys|;
  }

  predicate Hit(cache: map<string, Entry>, key: string, now: int) {
    key in cache && now < cache[key].expiresAt
  }

  /** The empty key is cached, alone or to expire before all others. */
  ghost predicate EmptyFirst(cache: map<string, Entry>) {
    "" in cache && BeforeAll(cache, cache.Keys)
  }

  /** The search for an earliest entry after the keys `seen`; the empty key means "none yet",
      so the search forgets what it saw when it meets the empty key first to expire. */
  ghost predicate Searched(cache: map<string, Entry>, seen: set<string>, oldestKey: string, oldestTime: int)
    requires seen <= cache.Keys
  {
    if oldestKey == "" then seen == {} || ("" in seen && oldestTime == cache[""].expiresAt && BeforeAll(cache, seen))
    else
      && oldestKey in seen && oldestTime == cache[oldestKey].expiresAt
      && (forall k :: k in seen && k != "" ==>
            oldestTime <= cache[k].expiresAt || ("" in seen && cache[""].expiresAt < cache[k].expiresAt))
      && ("" in seen ==> oldestTime <= cache[""].expiresAt || BeforeAll(cache, seen))
  }

  ghost predicate BeforeAll(cache: map<string, Entry>, seen: set<string>)
    requires seen <= cache.Keys && "" in seen
  {
    forall k :: k in seen && k != "" ==> cache[""].expiresAt < cache[k].expiresAt
  }

  /** What eviction can leave: one entry less, an earliest to expire. Only when the empty key is
      to expire first, and the search takes it for "none yet", can it be another one, or none. */
  ghost predicate Evicted(before: map<string, Entry>, after: map<string, Entry>) {
    || (after == before && (before.Keys == {} || EmptyFirst(before)))
    || exists k :: k in before && k != "" && after == before - {k} && (!EmptyFirst(before) ==> Earliest(before, k))
  }

  ghost predicate Earliest(cache: map<string, Entry>, k: string)
    requires k in cache
  {
    forall j :: j in cache ==> cache[k].expiresAt <= cache[j].expiresAt
  }

  /** What is left of the old entries before a new one is stored. */
  ghost predicate Kept(before: map<string, Entry>, kept: map<string, Entry>, maxSize: int) {
    if |before| >= maxSize then Evicted(before, kept) else kept == before
  }

  lemma KeptFrom(before: map<string, Entry>, kept: map<string, Entry>, maxSize: int, k: string)
    requires Kept(before, kept, maxSize) && k in kept
    ensures k in before && kept[k] == before[k]
  {
  }

  lemma StoreKeeps(before: map<string, Entry>, kept: map<string, Entry>, t: Trace, ttl: int, maxSize: int,
                   key: string, e: Entry)
    requires Kept(before, kept, maxSize) && AllHeld(before, t, ttl) && EntryHeld(t, ttl, key, e)
    ensures AllHeld(kept[key := e], t, ttl) && Stored(before, kept[key := e], maxSize, key, e)
  {
    var after := kept[key := e];
    forall k | k in after ensures EntryHeld(t, ttl, k, after[k]) {
      if k != key {
        KeptFrom(before, kept, maxSize, k);
      }
    }
  }

  lemma StoreWithin(before: map<string, Entry>, kept: map<string, Entry>, emptyKey: bool, maxSize: int, key: string,
                    e: Entry)
    requires Kept(before, kept, maxSize) && Within(before, emptyKey, maxSize)
    ensures Within(kept[key := e], emptyKey || key == "", maxSize)
  {
    if !emptyKey && key != "" {
      if "" in kept {
        KeptFrom(before, kept, maxSize, "");
      }
      if maxSize > 0 {
        KeptSize(before, kept, maxSize);
        AddOne(kept, key, e);
      }
    }
  }

  lemma KeptSize(before: map<string, Entry>, kept: map<string, Entry>, maxSize: int)
    requires Kept(before, kept, maxSize) && "" !in before && 0 < maxSize && |before| <= maxSize
    ensures |kept| < maxSize
  {
    if |before| >= maxSize {
      assert |before| == |before.Keys|;
      var k :| k in before && kept == before - {k};
      DropOne(before, k);
    }
  }

  ghost predicate Stored(before: map<string, Entry>, after: map<string, Entry>, maxSize: int, key: string, e: Entry) {
    exists kept :: Kept(before, kept, maxSize) && after == kept[key := e]
  }

  /** When a store can exceed the limit: the cache is full, the empty key is in it and to expire
      before all others, and another key is stored. */
  lemma LimitExceeded(before: map<string, Entry>, maxSize: int, key: string, e: Entry)
    requires 0 < maxSize && |before| <= maxSize
    ensures (exists after :: Stored(before, after, maxSize, key, e) && |after| > maxSize) <==>
              |before| == maxSize && EmptyFirst(before) && key !in before
  {
    if |before| == maxSize && EmptyFirst(before) && key !in before {
      NewKey(before, key, e);
      assert Kept(before, before, maxSize);
      assert Stored(before, before[key := e], maxSize, key, e);
    }
    if after :| Stored(before, after, maxSize, key, e) && |after| > maxSize {
      var kept :| Kept(before, kept, maxSize) && after == kept[key := e];
      AddOne(kept, key, e);
      if kept != before {
        DroppedSize(before, kept);
      } else if key in before {
        KnownKey(before, key, e);
      } else {
        assert |before| == |before.Keys|;
      }
    }
  }

  lemma NewKey(cache: map<string, Entry>, key: string, e: Entry)
    requires key !in cache
    ensures |cache[key := e]| == |cache| + 1
  {
    assert cache[key := e] - {key} == cache;
    DropOne(cache[key := e], key);
  }

  lemma KnownKey(cache: map<string, Entry>, key: string, e: Entry)
    requires key in cache
    ensures |cache[key := e]| == |cache|
  {
    assert cache[key := e] - {key} == cache - {key};
    DropOne(cache[key := e], key);
    DropOne(cache, key);
  }

  lemma DroppedSize(before: map<string, Entry>, kept: map<string, Entry>)
    requires Evicted(before, kept) && kept != before
    ensures |kept| == |before| - 1
  {
    var k :| k in before && kept == before - {k};
    DropOne(before, k);
  }

  lemma HitHeld(cache: map<string, Entry>, t: Trace, ttl: int, key: string, now: int)
    requires AllHeld(cache, t, ttl) && Hit(cache, key, now)
    ensures Held(t, now - (if ttl > 0 then ttl - 1 else 0), key, cache[key].value)
  {
    HeldEarlier(t, cache[key].expiresAt - ttl, now - (if ttl > 0 then ttl - 1 else 0), key, cache[key].value);
  }

  lemma FetchHeld(t: Trace, ttl: int, key: string, now: int, vault: map<string, string>)
    requires UpToDate(t, now, vault) && key in vault
    ensures EntryHeld(t, ttl, key, Entry(vault[key], now + ttl))
    ensures Held(t, now - (if ttl > 0 then ttl - 1 else 0), key, vault[key])
  {
    assert HeldAt(t.history[|t.history| - 1], now, key, vault[key]);
    HeldEarlier(t, now, now - (if ttl > 0 then ttl - 1 else 0), key, vault[key]);
  }

  lemma SearchStep(cache: map<string, Entry>, seen: set<string>, oldestKey: string, oldestTime: int, key: string)
    requires seen <= cache.Keys && key in cache && key !in seen && Searched(cache, seen, oldestKey, oldestTime)
    ensures if oldestKey == "" || cache[key].expiresAt < oldestTime
            then Searched(cache, seen + {key}, key, cache[key].expiresAt)
            else Searched(cache, seen + {key}, oldestKey, oldestTime)
  {
  }

  lemma SearchDone(cache: map<string, Entry>, oldestKey: string, oldestTime: int)
    requires Searched(cache, cache.Keys, oldestKey, oldestTime)
    ensures oldestKey == "" ==> Evicted(cache, cache)
    ensures oldestKey != "" ==> Evicted(cache, cache - {oldestKey})
  {
    assert oldestKey != "" ==> oldestKey in cache && (!EmptyFirst(cache) ==> Earliest(cache, oldestKey));
  }

  class CachedVault {
    const ttl: int
    const maxSize: int
    var cache: map<string, Entry>

    // the vault behind the cache, and the clock
    var vault: map<string, string>
    var now: int
    ghost var trace: Trace
    ghost var emptyKey: bool

    constructor (ttl: int, maxSize: int, vault: map<string, string>, now: int)
      ensures Valid() && this.ttl == ttl && this.maxSize == maxSize
      ensures cache == map[] && this.vault == vault && this.now == now
      ensures trace == Trace([Snapshot(now, vault)], map[]) && !emptyKey
    {
      this.ttl, this.maxSize, this.vault, this.now := ttl, maxSize, vault, now;
      cache, trace, emptyKey := map[], Trace([Snapshot(now, vault)], map[]), false;
    }

    ghost predicate Valid()
      reads this
    {
      UpToDate(trace, now, vault) && AllHeld(cache, trace, ttl) && Within(cache, emptyKey, maxSize)
    }

    /** Time passes, and somebody else changes the vault. */
    method Outside(now: int, vault: map<string, string>)
      requires Valid() && now >= this.now
      modifies this`now, this`vault, this`trace
      ensures Valid() && this.now == now && this.vault == vault && trace == Later(old(trace), now, vault)
    {
      AllLater(cache, trace, ttl, now, vault);
      this.now, this.vault, trace := now, vault, Later(trace, now, vault);
    }

    /** A secret that is found is one the vault held since the last write through the cache,
        and within the last time to live. */
    method GetSecret(key: string, fails: bool) returns (r: Result<string>)
      requires Valid()
      modifies this`cache, this`emptyKey
      ensures Valid()
      ensures r.Ok? ==> Held(trace, now - (if ttl > 0 then ttl - 1 else 0), key, r.value)
      ensures Hit(old(cache), key, now) ==> r == Ok(old(cache)[key].value)
      ensures !Hit(old(cache), key, now) ==>
                r == if fails then Failed else if key in vault then Ok(vault[key]) else NotFound
      ensures Hit(old(cache), key, now) || !r.Ok? ==> cache == old(cache) && emptyKey == old(emptyKey)
      ensures !Hit(old(cache), key, now) && r.Ok? ==>
                && Stored(old(cache), cache, maxSize, key, Entry(r.value, now + ttl))
                && emptyKey == (old(emptyKey) || key == "")
    {
      hide UpToDate, AllHeld, Within, Held, Stored;
      if key in cache {
        if now < cache[key].expiresAt {
          r := Ok(cache[key].value);
          HitHeld(cache, trace, ttl, key, now);
          return;
        }
      }
      if fails {
        return Failed;
      }
      if key !in vault {
        return NotFound;
      }
      r := Ok(vault[key]);
      FetchHeld(trace, ttl, key, now, vault);
      Store(key, Entry(vault[key], now + ttl));
    }

    method Store(key: string, e: Entry)
      requires Valid() && EntryHeld(trace, ttl, key, e)
      modifies this`cache, this`emptyKey
      ensures Valid() && Stored(old(cache), cache, maxSize, key, e) && emptyKey == (old(emptyKey) || key == "")
    {
      hide UpToDate, AllHeld, Within, EntryHeld, Stored;
      ghost var before := cache;
      if |cache| >= maxSize {
        EvictOldest();
      }
      StoreKeeps(before, cache, trace, ttl, maxSize, key, e);
      StoreWithin(before, cache, emptyKey, maxSize, key, e);
      cache := cache[key := e];
      emptyKey := emptyKey || key == "";
    }

    /** Drops one entry, of those that expire first, unless the empty key is to expire before
        all others. */
    method EvictOldest()
      modifies this`cache
      ensures Evicted(old(cache), cache)
    {
      var oldestKey, oldestTime := "", 0;
      var left := cache.Keys;
      ghost var seen: set<string> := {};
      while left != {}
        invariant cache == old(cache) && left <= cache.Keys && seen == cache.Keys - left
        invariant Searched(cache, seen, oldestKey, oldestTime)
        decreases |left|
      {
        var key :| key in left;
        SearchStep(cache, seen, oldestKey, oldestTime, key);
        left, seen := left - {key}, seen + {key};
        if oldestKey == "" || cache[key].expiresAt < oldestTime {
          oldestKey, oldestTime := key, cache[key].expiresAt;
        }
      }
      assert seen == cache.Keys;
      hide Searched, Evicted;
      SearchDone(cache, oldestKey, oldestTime);
      if oldestKey != "" {
        cache := cache - {oldestKey};
        assert cache == old(cache) - {oldestKey};
      } else {
        assert cache == old(cache);
      }
    }

    /** A write that succeeds drops the cached value, so it is never found again. */
    method SetSecret(key: string, value: string, fails: bool)
      requires Valid()
      modifies this`cache, this`vault, this`trace
      ensures Valid()
      ensures fails ==> vault == old(vault) && cache == old(cache) && trace == old(trace)
      ensures !fails ==> vault == old(vault)[key := value] && cache == old(cache) - {key}
                         && trace == WrittenNow(old(trace), key, now, vault)
    {
      if fails {
        return;
      }
      Written(key, vault[key := value]);
    }

    method DeleteSecret(key: string, fails: bool)
      requires Valid()
      modifies this`cache, this`vault, this`trace
      ensures Valid()
      ensures fails ==> vault == old(vault) && cache == old(cache) && trace == old(trace)
      ensures !fails ==> vault == old(vault) - {key} && cache == old(cache) - {key}
                         && trace == WrittenNow(old(trace), key, now, vault)
    {
      if fails {
        return;
      }
      Written(key, vault - {key});
    }

    method Written(key: string, vault: map<string, string>)
      requires Valid()
      modifies this`cache, this`vault, this`trace
      ensures Valid() && this.vault == vault && cache == old(cache) - {key}
      ensures trace == WrittenNow(old(trace), key, now, vault)
    {
      hide UpToDate, AllHeld, Within, WrittenNow;
      WriteKeeps(cache, trace, ttl, key, now, vault);
      WriteWithin(cache, emptyKey, maxSize, key);
      WriteUpToDate(trace, key, now, this.vault, vault);
      this.vault, trace := vault, WrittenNow(trace, key, now, vault);
      cache := cache - {key};
    }
  }
}
