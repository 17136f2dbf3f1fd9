// The token / leaky bucket rate limiter,
// src/lib/utils/ratelimits/ComplexRateLimiter.ts. The clock (`Date.now()`)
// is the parameter `now`.
module ComplexRateLimiter {
  /** `BucketEntry`: the requests counted in the current window, its start and the last admitted request. */
  datatype BucketEntry = BucketEntry(tokens: int, createdAt: int, lastSetAt: int)

  /** `EntryOptions`: how long a window lasts and how many requests it admits. */
  datatype EntryOptions = EntryOptions(lifetime: int, capacity: int)

  /** The limiter's settings: `cooldown` is the minimum time between two admitted requests, 0 for none. */
  datatype Settings = Settings(cooldown: int, entryOptions: EntryOptions)

  /** The entry a first request, or a request opening a new window, leaves. */
  function Fresh(now: int): BucketEntry
  {
    BucketEntry(1, now, now)
  }

  /** `checkRequestDelay`: the time until the cooldown since the last admitted request has passed. */
  function CheckRequestDelay(s: Settings, now: int, entry: BucketEntry): (d: int)
    ensures d >= 0
    ensures d > 0 <==> s.cooldown != 0 && now - entry.lastSetAt < s.cooldown
    ensures d > 0 ==> d == s.cooldown - (now - entry.lastSetAt)
  {
    if s.cooldown == 0 then 0
    else
      var timePassed := now - entry.lastSetAt;
      if timePassed < s.cooldown then s.cooldown - timePassed else 0
  }

  /** Whether the entry's window has ended by `now`. */
  predicate Expired(s: Settings, now: int, entry: BucketEntry)
  {
    entry.createdAt + s.entryOptions.lifetime <= now
  }

  /** `checkEntry`: the time until a full bucket's window ends. */
  function CheckEntry(s: Settings, now: int, entry: BucketEntry): (w: int)
    ensures w >= 0
    ensures w > 0 <==> !Expired(s, now, entry) && entry.tokens >= s.entryOptions.capacity
    ensures w > 0 ==> w == entry.createdAt + s.entryOptions.lifetime - now
  {
    var shouldExpireAt := entry.createdAt + s.entryOptions.lifetime;
    if shouldExpireAt <= now then 0
    else if entry.tokens < s.entryOptions.capacity then 0
    else shouldExpireAt - now
  }

  /** `computeWaitTime`: the larger of the two waits. */
  function ComputeWaitTime(s: Settings, now: int, entry: BucketEntry): (w: int)
    ensures w >= CheckRequestDelay(s, now, entry) && w >= CheckEntry(s, now, entry)
    ensures w == CheckRequestDelay(s, now, entry) || w == CheckEntry(s, now, entry)
  {
    var d := CheckRequestDelay(s, now, entry);
    var e := CheckEntry(s, now, entry);
    if d >= e then d else e
  }

  /** `shouldResetEntry`: a full bucket or an ended window starts over. */
  predicate ShouldResetEntry(s: Settings, now: int, entry: BucketEntry)
  {
    entry.tokens == s.entryOptions.capacity || Expired(s, now, entry)
  }

  /**
   * `request(key)` at time `now`: the new entries and the time left to wait,
   * 0 when admitted. A first request creates a fresh entry; a refused one
   * changes nothing; an admitted one starts a new window when the bucket is
   * full or its window ended, and otherwise counts one more request.
   */
  function Admit<K>(s: Settings, entries: map<K, BucketEntry>, key: K, now: int): (r: (map<K, BucketEntry>, int))
    ensures key !in entries ==> r == (entries[key := Fresh(now)], 0)
    ensures key in entries ==> r.1 == ComputeWaitTime(s, now, entries[key])
    ensures r.1 > 0 ==> r.0 == entries
    ensures key in entries && r.1 == 0 && ShouldResetEntry(s, now, entries[key]) ==> r.0 == entries[key := Fresh(now)]
    ensures key in entries && r.1 == 0 && !ShouldResetEntry(s, now, entries[key]) ==>
      r.0 == entries[key := entries[key].(tokens := entries[key].tokens + 1, lastSetAt := now)]
  {
    if key !in entries then (entries[key := Fresh(now)], 0)
    else
      var entry := entries[key];
      var timeUntilUnlock := ComputeWaitTime(s, now, entry);
      if timeUntilUnlock > 0 then (entries, timeUntilUnlock)
      else if ShouldResetEntry(s, now, entry) then (entries[key := Fresh(now)], 0)
      else (entries[key := entry.(tokens := entry.tokens + 1, lastSetAt := now)], 0)
  }

  /** The wait is exact: a request is admitted at `now + wait`, and at no earlier time. */
  lemma WaitExact(s: Settings, entry: BucketEntry, now: int, t: int)
    requires 0 <= t
    ensures var w := ComputeWaitTime(s, now, entry);
      ComputeWaitTime(s, now + t, entry) == 0 <==> t >= w
  {
    var d := CheckRequestDelay(s, now, entry);
    var e := CheckEntry(s, now, entry);
    assert CheckRequestDelay(s, now + t, entry) == 0 <==> t >= d;
    assert CheckEntry(s, now + t, entry) == 0 <==> t >= e;
  }

  /** Token counts stay between 1 and the capacity. */
  predicate TokensBounded<K>(s: Settings, entries: map<K, BucketEntry>)
  {
    forall k :: k in entries ==> 1 <= entries[k].tokens <= s.entryOptions.capacity
  }

  /** A request keeps the token counts between 1 and a capacity of at least 1. */
  lemma AdmitBounded<K>(s: Settings, entries: map<K, BucketEntry>, key: K, now: int)
    requires s.entryOptions.capacity >= 1 && TokensBounded(s, entries)
    ensures TokensBounded(s, Admit(s, entries, key, now).0)
  {
    var r := Admit(s, entries, key, now).0;
    forall k | k in r
      ensures 1 <= r[k].tokens <= s.entryOptions.capacity
    {
      if k == key && key in entries && r != entries {
        var entry := entries[key];
        if !ShouldResetEntry(s, now, entry) {
          assert CheckEntry(s, now, entry) == 0;
        }
      }
    }
  }

  /** Whether `prune` at `now` drops the entry: it would be admitted and start a new window. */
  predicate Stale(s: Settings, now: int, entry: BucketEntry)
  {
    ComputeWaitTime(s, now, entry) == 0 && ShouldResetEntry(s, now, entry)
  }

  /** The entries `prune` keeps at time `now`. */
  function Live<K>(s: Settings, entries: map<K, BucketEntry>, now: int): (r: map<K, BucketEntry>)
    ensures r.Keys <= entries.Keys && forall k :: k in r ==> r[k] == entries[k]
    ensures forall k :: k in entries && k !in r ==> ComputeWaitTime(s, now, entries[k]) == 0
  {
    map k | k in entries && !Stale(s, now, entries[k]) :: entries[k]
  }

  /** An entry stale at `now` stays stale later. */
  lemma StaleLater(s: Settings, now: int, later: int, entry: BucketEntry)
    requires now <= later && Stale(s, now, entry)
    ensures Stale(s, later, entry)
  {
    WaitExact(s, entry, now, later - now);
  }

  /** Pruning at `now` changes the outcome of no request made at `now` or later. */
  lemma PruneUnobservable<K>(s: Settings, entries: map<K, BucketEntry>, key: K, now: int, later: int)
    requires now <= later
    ensures Admit(s, Live(s, entries, now), key, later).1 == Admit(s, entries, key, later).1
    ensures key in Live(s, entries, now) || key !in entries ==>
      Admit(s, Live(s, entries, now), key, later).0 == Live(s, entries, now)[key := Admit(s, entries, key, later).0[key]]
    ensures key !in Live(s, entries, now) ==> Admit(s, Live(s, entries, now), key, later).0[key] == Admit(s, entries, key, later).0[key]
  {
    if key in entries && key !in Live(s, entries, now) {
      StaleLater(s, now, later, entries[key]);
    }
  }

  /** `prune`: drops, one by one, the entries that are stale at `now`. */
  method PruneEntries<K>(s: Settings, entries: map<K, BucketEntry>, now: int) returns (kept: map<K, BucketEntry>)
    ensures kept == Live(s, entries, now)
  {
    kept := entries;
    var todo := entries.Keys;
    while todo != {}
      invariant todo <= entries.Keys
      invariant forall k :: k in kept <==> k in entries && (k in todo || !Stale(s, now, entries[k]))
      invariant forall k :: k in kept ==> kept[k] == entries[k]
      decreases |todo|
    {
      var key :| key in todo;
      var timeUntilUnlock := ComputeWaitTime(s, now, entries[key]);
      if timeUntilUnlock == 0 && ShouldResetEntry(s, now, entries[key]) {
        kept := kept - {key};
      }
      todo := todo - {key};
    }
  }

  /** The leaky bucket scenario of the unit tests: 2 requests per 5000 ms. */
  lemma LeakyBucketScenario()
    ensures var s := Settings(0, EntryOptions(5000, 2));
      var r0 := Admit(s, map[], "key", 0);
      var r1 := Admit(s, r0.0, "key", 10);
      var r2 := Admit(s, r1.0, "key", 15);
      var r3 := Admit(s, r2.0, "key", 5000);
      var r4 := Admit(s, r3.0, "key", 5005);
      r0.1 == 0 && r1.1 == 0 && r2.1 == 4985 && r3.1 == 0 && r4.1 == 0
  {
    var s := Settings(0, EntryOptions(5000, 2));
    var r0 := Admit(s, map[], "key", 0);
    assert r0.0 == map["key" := BucketEntry(1, 0, 0)];
    var r1 := Admit(s, r0.0, "key", 10);
    assert r1.0 == map["key" := BucketEntry(2, 0, 10)];
    var r2 := Admit(s, r1.0, "key", 15);
    var r3 := Admit(s, r2.0, "key", 5000);
    assert r3.0 == map["key" := BucketEntry(1, 5000, 5000)];
  }

  /** The token bucket scenario of the unit tests: one request per 5000 ms, with or without a prune after the first. */
  lemma TokenBucketScenario()
    ensures var s := Settings(5000, EntryOptions(0, 1));
      var r0 := Admit(s, map[], "key", 0);
      var r1 := Admit(s, r0.0, "key", 5);
      var r2 := Admit(s, r1.0, "key", 5000);
      r0.1 == 0 && r1.1 == 4995 && r2.1 == 0
      && Admit(s, Live(s, r0.0, 0), "key", 5).1 == 4995
  {
    var s := Settings(5000, EntryOptions(0, 1));
    var r0 := Admit(s, map[], "key", 0);
    assert r0.0 == map["key" := BucketEntry(1, 0, 0)];
    assert !Stale(s, 0, BucketEntry(1, 0, 0));
    assert Live(s, r0.0, 0) == r0.0;
  }

  /** The prune scenario of the unit tests: an entry whose cooldown is still running survives `prune`. */
  lemma PruneScenario()
    ensures var s := Settings(5000, EntryOptions(0, 1));
      var r0 := Admit(s, map[], "key", 0);
      "key" in Live(s, r0.0, 0) && Admit(s, Live(s, r0.0, 0), "key", 5).1 == 4995
  {
    var s := Settings(5000, EntryOptions(0, 1));
    var r0 := Admit(s, map[], "key", 0);
    assert r0.0 == map["key" := BucketEntry(1, 0, 0)];
    assert !Stale(s, 0, BucketEntry(1, 0, 0));
    assert Live(s, r0.0, 0) == r0.0;
  }

  /** The combined scenario of the unit tests: 2000 ms apart, 2 requests per 10000 ms. */
  lemma CombinedScenario()
    ensures var s := Settings(2000, EntryOptions(10_000, 2));
      var r0 := Admit(s, map[], "key", 0);
      var r1 := Admit(s, r0.0, "key", 5);
      var r2 := Admit(s, r1.0, "key", 2000);
      var r3 := Admit(s, r2.0, "key", 4000);
      var r4 := Admit(s, r3.0, "key", 5000);
      r0.1 == 0 && r1.1 == 1995 && r2.1 == 0 && r3.1 == 6000 && r4.1 == 5000
  {
    var s := Settings(2000, EntryOptions(10_000, 2));
    var r0 := Admit(s, map[], "key", 0);
    assert r0.0 == map["key" := BucketEntry(1, 0, 0)];
    var r1 := Admit(s, r0.0, "key", 5);
    var r2 := Admit(s, r1.0, "key", 2000);
    assert r2.0 == map["key" := BucketEntry(2, 0, 2000)];
  }

  class ComplexRateLimiter<K(==)> {
    var cooldown: int
    var entryOptions: EntryOptions
    var entries: map<K, BucketEntry>

    function Config(): Settings
      reads this
    {
      Settings(cooldown, entryOptions)
    }

    constructor ()
      ensures cooldown == 0 && entryOptions == EntryOptions(0, 1) && entries == map[]
    {
      cooldown := 0;
      entryOptions := EntryOptions(0, 1);
      entries := map[];
    }

    /** `setCooldown`: changes the cooldown and nothing else. */
    method SetCooldown(cooldown: int)
      modifies this
      ensures this.cooldown == cooldown && entryOptions == old(entryOptions) && entries == old(entries)
    {
      this.cooldown := cooldown;
    }

    /** `setEntryOptions`: changes the entry options and nothing else. */
    method SetEntryOptions(entryOptions: EntryOptions)
      modifies this
      ensures this.entryOptions == entryOptions && cooldown == old(cooldown) && entries == old(entries)
    {
      this.entryOptions := entryOptions;
    }

    /** `request(key)` at time `now`. */
    method Request(key: K, now: int) returns (wait: int)
      modifies this
      ensures (entries, wait) == Admit(old(Config()), old(entries), key, now)
      ensures cooldown == old(cooldown) && entryOptions == old(entryOptions)
    {
      if key !in entries {
        entries := entries[key := Fresh(now)];
        return 0;
      }
      var entry := entries[key];
      var timeUntilUnlock := ComputeWaitTime(Config(), now, entry);
      if timeUntilUnlock > 0 {
        return timeUntilUnlock;
      }
      if ShouldResetEntry(Config(), now, entry) {
        entries := entries[key := Fresh(now)];
      } else {
        entries := entries[key := entry.(tokens := entry.tokens + 1, lastSetAt := now)];
      }
      return 0;
    }

    /** `prune()` at time `now`. */
    method Prune(now: int)
      modifies this
      ensures entries == Live(Config(), old(entries), now)
      ensures cooldown == old(cooldown) && entryOptions == old(entryOptions)
    {
      entries := PruneEntries(Config(), entries, now);
    }
  }
}
