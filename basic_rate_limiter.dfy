// The one-request-per-cooldown rate limiter,
// src/lib/utils/ratelimits/BasicRateLimiter.ts. The clock (`Date.now()`) is
// the parameter `now`.
module BasicRateLimiter {
  /**
   * `request(key)` at time `now` on `entries` (key to the time its window
   * opened): the new entries and the time left to wait, 0 when the request
   * is admitted. An admitted request opens a new window at `now`; a refused
   * one changes nothing.
   */
  function Admit<K>(entries: map<K, int>, cooldown: int, key: K, now: int): (r: (map<K, int>, int))
    ensures r.1 >= 0
    ensures r.1 > 0 <==> key in entries && now < entries[key] + cooldown
    ensures r.1 > 0 ==> r.0 == entries && r.1 == entries[key] + cooldown - now
    ensures r.1 == 0 ==> r.0 == entries[key := now]
  {
    if key in entries then
      var createdAt := entries[key];
      var remainingTime := createdAt + cooldown - now;
      if remainingTime > 0 then (entries, remainingTime)
      else (entries[key := now], 0)
    else
      (entries[key := now], 0)
  }

  /** The entries `prune` keeps at time `now`: those whose window is still open. */
  function Live<K>(entries: map<K, int>, cooldown: int, now: int): (r: map<K, int>)
    ensures r.Keys <= entries.Keys && forall k :: k in r ==> r[k] == entries[k]
    ensures forall k :: k in entries && k !in r ==> Admit(entries, cooldown, k, now).1 == 0
    ensures forall k :: k in r ==> Admit(entries, cooldown, k, now).1 > 0
  {
    map k | k in entries && now < entries[k] + cooldown :: entries[k]
  }

  /** The wait is exact: a request is admitted at `now + wait`, and at no earlier time. */
  lemma WaitExact<K>(entries: map<K, int>, cooldown: int, key: K, now: int, t: int)
    requires 0 <= t
    ensures var w := Admit(entries, cooldown, key, now).1;
      Admit(entries, cooldown, key, now + t).1 == 0 <==> t >= w
  {
  }

  /** A request for one key does not affect the outcome of requests for another. */
  lemma KeysIndependent<K>(entries: map<K, int>, cooldown: int, key: K, other: K, now: int, later: int)
    requires other != key
    ensures var e := Admit(entries, cooldown, key, now).0;
      Admit(e, cooldown, other, later).1 == Admit(entries, cooldown, other, later).1
  {
  }

  /** Pruning at `now` changes the outcome of no request made at `now` or later. */
  lemma PruneUnobservable<K>(entries: map<K, int>, cooldown: int, key: K, now: int, later: int)
    requires now <= later
    ensures Admit(Live(entries, cooldown, now), cooldown, key, later).1 == Admit(entries, cooldown, key, later).1
  {
    if key in entries && key !in Live(entries, cooldown, now) {
      assert entries[key] + cooldown <= now;
    }
  }

  /** `prune`: drops, one by one, the entries whose window has closed by `now`. */
  method PruneEntries<K>(entries: map<K, int>, cooldown: int, now: int) returns (kept: map<K, int>)
    ensures kept == Live(entries, cooldown, now)
  {
    kept := entries;
    var todo := entries.Keys;
    while todo != {}
      invariant todo <= entries.Keys
      invariant forall k :: k in kept <==> k in entries && (k in todo || now < entries[k] + cooldown)
      invariant forall k :: k in kept ==> kept[k] == entries[k]
      decreases |todo|
    {
      var key :| key in todo;
      if entries[key] + cooldown <= now {
        kept := kept - {key};
      }
      todo := todo - {key};
    }
  }

  /** The scenarios of the unit tests, with a 5000 ms cooldown. */
  lemma Scenarios()
    ensures var e0 := Admit(map[], 5000, "key", 0).0;
      Admit(map[], 5000, "key", 0).1 == 0 && Admit(e0, 5000, "key", 5).1 == 4995
      && Admit(e0, 5000, "key", 5000).1 == 0
      && Admit(e0, 5000, "keyBar", 0).1 == 0
      && Admit(Live(e0, 5000, 5), 5000, "key", 5).1 == 4995
  {
    var e0 := Admit(map[], 5000, "key", 0).0;
    assert e0 == map["key" := 0];
    assert Live(e0, 5000, 5) == e0;
  }

  class BasicRateLimiter<K(==)> {
    /** The minimum time between two admitted requests for one key. */
    var cooldown: int
    var entries: map<K, int>

    constructor ()
      ensures cooldown == 0 && entries == map[]
    {
      cooldown := 0;
      entries := map[];
    }

    /** `setCooldown`: changes the cooldown and nothing else. */
    method SetCooldown(cooldown: int)
      modifies this
      ensures this.cooldown == cooldown && entries == old(entries)
    {
      this.cooldown := cooldown;
    }

    /** `request(key)` at time `now`. */
    method Request(key: K, now: int) returns (wait: int)
      modifies this
      ensures (entries, wait) == Admit(old(entries), cooldown, key, now)
      ensures cooldown == old(cooldown)
    {
      if key in entries {
        var createdAt := entries[key];
        var remainingTime := createdAt + cooldown - now;
        if remainingTime > 0 {
          return remainingTime;
        }
        entries := entries[key := now];
        return 0;
      }
      entries := entries[key := now];
      return 0;
    }

    /** `prune()` at time `now`. */
    method Prune(now: int)
      modifies this
      ensures entries == Live(old(entries), cooldown, now) && cooldown == old(cooldown)
    {
      entries := PruneEntries(entries, cooldown, now);
    }
  }
}
