/**
 * The rotation policy of the proxy manager as pure functions of the pool, the blacklist
 * and the usage stats: which proxies are available at a given time, which bans the lazy
 * expiry pass deletes, and how each selection strategy picks a proxy.
 */
module Policy {
  import opened Wrappers
  import opened Pool
  import opened Bans
  import opened Usage

  /** A ban placed at `at` has lapsed at `now` once `cooldownMinutes` minutes have passed. */
  predicate Expired(at: int, now: int, cooldownMinutes: int)
  {
    now - at >= cooldownMinutes * 60
  }

  /** `host` may be handed out at `now`: it is not banned, or its ban has lapsed. */
  predicate IsAvailable(bl: seq<Ban>, host: string, now: int, cooldownMinutes: int)
  {
    match Lookup(bl, host)
    case None => true
    case Some(at) => Expired(at, now, cooldownMinutes)
  }

  /** The pool entries available at `now`, in pool order. */
  function Available(pool: seq<Proxy>, bl: seq<Ban>, now: int, cooldownMinutes: int): seq<Proxy>
  {
    if pool == [] then []
    else
      var last := pool[|pool| - 1];
      Available(pool[..|pool| - 1], bl, now, cooldownMinutes)
        + (if IsAvailable(bl, last.host, now, cooldownMinutes) then [last] else [])
  }

  /** A proxy is in the available list exactly when it is in the pool and its host is available. */
  lemma {:induction false} AvailableMember(pool: seq<Proxy>, bl: seq<Ban>, now: int, cooldownMinutes: int, p: Proxy)
    ensures p in Available(pool, bl, now, cooldownMinutes) <==> p in pool && IsAvailable(bl, p.host, now, cooldownMinutes)
  {
    if pool != [] {
      var init := pool[..|pool| - 1];
      assert pool == init + [pool[|pool| - 1]];
      AvailableMember(init, bl, now, cooldownMinutes, p);
    }
  }

  /** Filtering distributes over concatenation, so the available list keeps pool order. */
  lemma {:induction false} AvailableAppend(a: seq<Proxy>, b: seq<Proxy>, bl: seq<Ban>, now: int, cooldownMinutes: int)
    ensures Available(a + b, bl, now, cooldownMinutes)
         == Available(a, bl, now, cooldownMinutes) + Available(b, bl, now, cooldownMinutes)
  {
    if b == [] {
      assert a + b == a;
    } else {
      var init := b[..|b| - 1];
      assert (a + b)[..|a + b| - 1] == a + init;
      assert (a + b)[|a + b| - 1] == b[|b| - 1];
      AvailableAppend(a, init, bl, now, cooldownMinutes);
    }
  }

  /** Two blacklists that agree on the availability of every pool host give the same list. */
  lemma {:induction false} AvailableAgree(pool: seq<Proxy>, bl1: seq<Ban>, bl2: seq<Ban>, now: int, cooldownMinutes: int)
    requires forall i :: 0 <= i < |pool| ==>
      IsAvailable(bl1, pool[i].host, now, cooldownMinutes) == IsAvailable(bl2, pool[i].host, now, cooldownMinutes)
    ensures Available(pool, bl1, now, cooldownMinutes) == Available(pool, bl2, now, cooldownMinutes)
  {
    if pool != [] {
      var init := pool[..|pool| - 1];
      assert forall i :: 0 <= i < |init| ==> init[i] == pool[i];
      AvailableAgree(init, bl1, bl2, now, cooldownMinutes);
    }
  }

  /** With an empty blacklist every pool entry is available. */
  lemma {:induction false} AvailableWhenNothingBanned(pool: seq<Proxy>, now: int, cooldownMinutes: int)
    ensures Available(pool, [], now, cooldownMinutes) == pool
  {
    if pool != [] {
      AvailableWhenNothingBanned(pool[..|pool| - 1], now, cooldownMinutes);
      assert pool == pool[..|pool| - 1] + [pool[|pool| - 1]];
    }
  }

  /**
   * The blacklist after the lazy expiry pass over the hosts `hosts`: every entry whose host
   * is in `hosts` and whose ban has lapsed is deleted; the others stay, in order.
   */
  function Evicted(bl: seq<Ban>, hosts: set<string>, now: int, cooldownMinutes: int): (r: seq<Ban>)
    ensures forall b :: b in r ==> b in bl
  {
    if bl == [] then []
    else
      (if bl[0].host in hosts && Expired(bl[0].at, now, cooldownMinutes) then [] else [bl[0]])
        + Evicted(bl[1..], hosts, now, cooldownMinutes)
  }

  /** Eviction deletes a host's entry iff the host was scanned and its ban lapsed; other entries keep their times. */
  lemma {:induction false} LookupEvicted(bl: seq<Ban>, hosts: set<string>, now: int, cooldownMinutes: int, g: string)
    requires DistinctHosts(bl)
    ensures Lookup(Evicted(bl, hosts, now, cooldownMinutes), g)
         == if Lookup(bl, g).Some? && g in hosts && Expired(Lookup(bl, g).value, now, cooldownMinutes)
            then None else Lookup(bl, g)
  {
    if bl != [] {
      LookupEvicted(bl[1..], hosts, now, cooldownMinutes, g);
      var rest := Evicted(bl[1..], hosts, now, cooldownMinutes);
      if bl[0].host in hosts && Expired(bl[0].at, now, cooldownMinutes) {
        assert Evicted(bl, hosts, now, cooldownMinutes) == rest;
      } else {
        assert Evicted(bl, hosts, now, cooldownMinutes) == [bl[0]] + rest;
        assert ([bl[0]] + rest)[1..] == rest;
        assert Lookup([bl[0]] + rest, g) == if bl[0].host == g then Some(bl[0].at) else Lookup(rest, g);
      }
    }
  }

  /** Eviction keeps the keys of the blacklist unique. */
  lemma {:induction false} EvictedDistinct(bl: seq<Ban>, hosts: set<string>, now: int, cooldownMinutes: int)
    requires DistinctHosts(bl)
    ensures DistinctHosts(Evicted(bl, hosts, now, cooldownMinutes))
  {
    if bl != [] {
      EvictedDistinct(bl[1..], hosts, now, cooldownMinutes);
      LookupEvicted(bl[1..], hosts, now, cooldownMinutes, bl[0].host);
      var rest := Evicted(bl[1..], hosts, now, cooldownMinutes);
      if bl[0].host in hosts && Expired(bl[0].at, now, cooldownMinutes) {
        assert Evicted(bl, hosts, now, cooldownMinutes) == rest;
      } else {
        assert Evicted(bl, hosts, now, cooldownMinutes) == [bl[0]] + rest;
        assert ([bl[0]] + rest)[1..] == rest;
        assert Lookup(rest, bl[0].host).None?;
      }
    }
  }

  /** Scanning a host that has no entry deletes nothing more. */
  lemma {:induction false} EvictedUnbannedHost(bl: seq<Ban>, hosts: set<string>, h: string, now: int, cooldownMinutes: int)
    requires Lookup(bl, h).None?
    ensures Evicted(bl, hosts + {h}, now, cooldownMinutes) == Evicted(bl, hosts, now, cooldownMinutes)
  {
    if bl != [] {
      EvictedUnbannedHost(bl[1..], hosts, h, now, cooldownMinutes);
    }
  }

  /** Scanning one more host whose ban has lapsed is deleting that host's entry. */
  lemma {:induction false} EvictStepLapsed(bl: seq<Ban>, hosts: set<string>, h: string, now: int, cooldownMinutes: int)
    requires DistinctHosts(bl) && h !in hosts
    requires Lookup(bl, h).Some? && Expired(Lookup(bl, h).value, now, cooldownMinutes)
    ensures Delete(Evicted(bl, hosts, now, cooldownMinutes), h) == Evicted(bl, hosts + {h}, now, cooldownMinutes)
  {
    var rest := Evicted(bl[1..], hosts, now, cooldownMinutes);
    var rest' := Evicted(bl[1..], hosts + {h}, now, cooldownMinutes);
    if bl[0].host == h {
      LookupEvicted(bl[1..], hosts, now, cooldownMinutes, h);
      EvictedUnbannedHost(bl[1..], hosts, h, now, cooldownMinutes);
      assert Evicted(bl, hosts, now, cooldownMinutes) == [bl[0]] + rest;
      assert ([bl[0]] + rest)[1..] == rest;
      assert Evicted(bl, hosts + {h}, now, cooldownMinutes) == rest';
    } else {
      EvictStepLapsed(bl[1..], hosts, h, now, cooldownMinutes);
      if bl[0].host in hosts && Expired(bl[0].at, now, cooldownMinutes) {
        assert Evicted(bl, hosts, now, cooldownMinutes) == rest;
        assert Evicted(bl, hosts + {h}, now, cooldownMinutes) == rest';
      } else {
        assert Evicted(bl, hosts, now, cooldownMinutes) == [bl[0]] + rest;
        assert ([bl[0]] + rest)[1..] == rest;
        assert Evicted(bl, hosts + {h}, now, cooldownMinutes) == [bl[0]] + rest';
      }
    }
  }

  /** Scanning one more host that is unbanned, still cooling down, or already scanned deletes nothing. */
  lemma {:induction false} EvictStepKept(bl: seq<Ban>, hosts: set<string>, h: string, now: int, cooldownMinutes: int)
    requires DistinctHosts(bl)
    requires h in hosts || Lookup(bl, h).None? || !Expired(Lookup(bl, h).value, now, cooldownMinutes)
    ensures Evicted(bl, hosts + {h}, now, cooldownMinutes) == Evicted(bl, hosts, now, cooldownMinutes)
  {
    if h in hosts {
      assert hosts + {h} == hosts;
    } else if Lookup(bl, h).None? {
      EvictedUnbannedHost(bl, hosts, h, now, cooldownMinutes);
    } else if bl[0].host == h {
      EvictedUnbannedHost(bl[1..], hosts, h, now, cooldownMinutes);
    } else {
      EvictStepKept(bl[1..], hosts, h, now, cooldownMinutes);
    }
  }

  /** When no scanned host has a lapsed ban, eviction leaves the blacklist as it is. */
  lemma {:induction false} EvictedNothing(bl: seq<Ban>, hosts: set<string>, now: int, cooldownMinutes: int)
    requires forall i :: 0 <= i < |bl| && bl[i].host in hosts ==> !Expired(bl[i].at, now, cooldownMinutes)
    ensures Evicted(bl, hosts, now, cooldownMinutes) == bl
  {
    if bl != [] {
      assert forall i :: 0 <= i < |bl| - 1 ==> bl[1..][i] == bl[i + 1];
      EvictedNothing(bl[1..], hosts, now, cooldownMinutes);
    }
  }

  /**
   * Lazy expiry is idempotent: a second pass at the same time deletes nothing more, and the
   * available list computed against the evicted blacklist is the same list.
   */
  lemma EvictionIdempotent(pool: seq<Proxy>, bl: seq<Ban>, now: int, cooldownMinutes: int)
    requires DistinctHosts(bl)
    ensures var bl' := Evicted(bl, PoolHosts(pool), now, cooldownMinutes);
      Evicted(bl', PoolHosts(pool), now, cooldownMinutes) == bl'
      && Available(pool, bl', now, cooldownMinutes) == Available(pool, bl, now, cooldownMinutes)
  {
    var hosts := PoolHosts(pool);
    var bl' := Evicted(bl, hosts, now, cooldownMinutes);
    forall i | 0 <= i < |bl'| && bl'[i].host in hosts
      ensures !Expired(bl'[i].at, now, cooldownMinutes)
    {
      EvictedDistinct(bl, hosts, now, cooldownMinutes);
      LookupFinds(bl', i);
      LookupEvicted(bl, hosts, now, cooldownMinutes, bl'[i].host);
    }
    EvictedNothing(bl', hosts, now, cooldownMinutes);
    forall i | 0 <= i < |pool|
      ensures IsAvailable(bl', pool[i].host, now, cooldownMinutes) == IsAvailable(bl, pool[i].host, now, cooldownMinutes)
    {
      LookupEvicted(bl, hosts, now, cooldownMinutes, pool[i].host);
    }
    AvailableAgree(pool, bl', bl, now, cooldownMinutes);
  }

  /**
   * After a rate-limit report at time `t` (a ban at `t` followed by the expiry pass at `t`),
   * a pool proxy is unavailable until the cooldown has passed and available from then on,
   * when the next pass deletes its ban. With a cooldown of zero minutes or less the pass at
   * `t` already deletes the fresh ban.
   */
  lemma RateLimitedBlocksUntilCooldown(pool: seq<Proxy>, bl: seq<Ban>, p: Proxy, t: int, later: int, cooldownMinutes: int)
    requires DistinctHosts(bl) && p in pool
    ensures var bl' := Evicted(Put(bl, p.host, t), PoolHosts(pool), t, cooldownMinutes);
      && (cooldownMinutes > 0 ==>
            (p in Available(pool, bl', later, cooldownMinutes) <==> later - t >= cooldownMinutes * 60)
            && (later - t >= cooldownMinutes * 60 <==>
                  Lookup(Evicted(bl', PoolHosts(pool), later, cooldownMinutes), p.host).None?))
      && (cooldownMinutes <= 0 ==> Lookup(bl', p.host).None?)
  {
    var hosts := PoolHosts(pool);
    var banned := Put(bl, p.host, t);
    var bl' := Evicted(banned, hosts, t, cooldownMinutes);
    assert p.host in hosts;
    LookupEvicted(banned, hosts, t, cooldownMinutes, p.host);
    EvictedDistinct(banned, hosts, t, cooldownMinutes);
    LookupEvicted(bl', hosts, later, cooldownMinutes, p.host);
    AvailableMember(pool, bl', later, cooldownMinutes, p);
  }

  /** The index of the first element of `s` with the least key, as Python's `min(s, key=key)`. */
  function ArgMin<T>(s: seq<T>, key: T -> int): (i: nat)
    requires |s| > 0
    ensures i < |s|
    ensures forall j :: 0 <= j < |s| ==> key(s[i]) <= key(s[j])
    ensures forall j :: 0 <= j < i ==> key(s[i]) < key(s[j])
  {
    if |s| == 1 then 0
    else
      var k := 1 + ArgMin(s[1..], key);
      if key(s[0]) <= key(s[k]) then 0 else k
  }

  /**
   * The `smart` strategy: the head of the available list stably sorted by rate-limit count,
   * that is, the first available proxy with the fewest rate-limit reports.
   */
  function SmartPick(avail: seq<Proxy>, stats: UsageStats): (p: Proxy)
    requires avail != []
    ensures p in avail
    ensures forall q :: q in avail ==> RateLimitedCount(stats, p.host) <= RateLimitedCount(stats, q.host)
    ensures exists i :: (0 <= i < |avail| && avail[i] == p
      && forall j :: 0 <= j < i ==> RateLimitedCount(stats, avail[j].host) > RateLimitedCount(stats, p.host))
  {
    var i := ArgMin(avail, (q: Proxy) => RateLimitedCount(stats, q.host));
    avail[i]
  }

  /** The key of the earliest-ban selection. */
  function BanTime(b: Ban): int
  {
    b.at
  }

  /**
   * Desperate mode, used when nothing is available: the host banned longest ago (the first
   * such entry on a tie), returned as its first pool record; None when the blacklist is
   * empty or that host is not in the pool.
   */
  function Desperate(pool: seq<Proxy>, bl: seq<Ban>): (r: Option<Proxy>)
    ensures bl == [] ==> r.None?
    ensures bl != [] ==> (r.None? <==> bl[ArgMin(bl, BanTime)].host !in PoolHosts(pool))
    ensures r.Some? ==> exists i :: (0 <= i < |bl| && bl[i].host == r.value.host
      && (forall j :: 0 <= j < |bl| ==> bl[i].at <= bl[j].at)
      && (forall j :: 0 <= j < i ==> bl[i].at < bl[j].at))
    ensures r.Some? ==> exists k :: (0 <= k < |pool| && pool[k] == r.value
      && forall j :: 0 <= j < k ==> pool[j].host != r.value.host)
  {
    if bl == [] then None
    else
      var i := ArgMin(bl, BanTime);
      match FirstWithHost(pool, bl[i].host)
      case None => None
      case Some(k) => Some(pool[k])
  }

  /** When nothing is available the expiry pass has deleted nothing, so desperate mode sees the whole blacklist. */
  lemma NothingAvailableNothingEvicted(pool: seq<Proxy>, bl: seq<Ban>, now: int, cooldownMinutes: int)
    requires DistinctHosts(bl)
    requires Available(pool, bl, now, cooldownMinutes) == []
    ensures Evicted(bl, PoolHosts(pool), now, cooldownMinutes) == bl
  {
    var hosts := PoolHosts(pool);
    forall i | 0 <= i < |bl| && bl[i].host in hosts
      ensures !Expired(bl[i].at, now, cooldownMinutes)
    {
      var k :| 0 <= k < |pool| && pool[k].host == bl[i].host;
      AvailableMember(pool, bl, now, cooldownMinutes, pool[k]);
      LookupFinds(bl, i);
    }
    EvictedNothing(bl, hosts, now, cooldownMinutes);
  }

  /**
   * Desperate mode never leaves a non-empty pool without a proxy as long as every banned
   * host belongs to the pool.
   */
  lemma DesperateFindsProxy(pool: seq<Proxy>, bl: seq<Ban>, now: int, cooldownMinutes: int)
    requires pool != []
    requires Available(pool, bl, now, cooldownMinutes) == []
    requires forall b :: b in bl ==> b.host in PoolHosts(pool)
    ensures Desperate(pool, bl).Some?
  {
  }

  /** The round-robin step: advance the cursor cyclically over `n` available entries. */
  function NextCursor(cursor: int, n: nat): (c: nat)
    requires cursor >= -1 && n > 0
    ensures c < n
  {
    (cursor + 1) % n
  }

  /** The cursor after `k` round-robin calls from the initial -1 over `n` available entries. */
  function CursorAfter(n: nat, k: nat): (c: int)
    requires n > 0
    ensures -1 <= c < n
  {
    if k == 0 then -1 else NextCursor(CursorAfter(n, k - 1), n)
  }

  /** A remainder below the divisor is the number itself (keeps the round-robin proofs small). */
  lemma ModOfSmall(x: int, n: int)
    requires 0 <= x < n
    ensures x % n == x
  {
  }

  /** The first `n` round-robin calls visit the available entries in order. */
  lemma {:induction false} RoundRobinFirstLap(n: nat, k: nat)
    requires 0 < k <= n
    ensures CursorAfter(n, k) == k - 1
  {
    if k > 1 {
      RoundRobinFirstLap(n, k - 1);
      assert CursorAfter(n, k) == NextCursor(k - 2, n) == (k - 1) % n;
      ModOfSmall(k - 1, n);
    } else {
      assert CursorAfter(n, 1) == NextCursor(-1, n) == 0 % n;
    }
  }

  /** Round-robin over a constant available list repeats with period `n`: A, B, C, A, ... */
  lemma {:induction false} RoundRobinPeriodic(n: nat, k: nat)
    requires n > 0 && k > 0
    ensures CursorAfter(n, k + n) == CursorAfter(n, k)
  {
    if k == 1 {
      RoundRobinFirstLap(n, n);
      assert CursorAfter(n, 1 + n) == NextCursor(n - 1, n) == n % n == 0;
      assert CursorAfter(n, 1) == NextCursor(-1, n) == 0 % n == 0;
    } else {
      RoundRobinPeriodic(n, k - 1);
    }
  }

  /** Counting the entries that one more scanned host keeps in the blacklist. */
  lemma {:induction false} EvictedCountStep(bl: seq<Ban>, hosts: set<string>, h: string, now: int, cooldownMinutes: int)
    requires DistinctHosts(bl) && h !in hosts
    ensures |Evicted(bl, hosts + {h}, now, cooldownMinutes)|
         == |Evicted(Delete(bl, h), hosts, now, cooldownMinutes)|
            + (if Lookup(bl, h).Some? && !Expired(Lookup(bl, h).value, now, cooldownMinutes) then 1 else 0)
  {
    if bl != [] {
      if bl[0].host == h {
        EvictedUnbannedHost(bl[1..], hosts, h, now, cooldownMinutes);
      } else {
        EvictedCountStep(bl[1..], hosts, h, now, cooldownMinutes);
      }
    }
  }

  /**
   * The statistics balance: when pool hosts are distinct and every banned host is in the
   * pool, the available count plus the blacklist size after the expiry pass is the pool size.
   */
  lemma {:induction false} AvailablePlusBlacklisted(pool: seq<Proxy>, bl: seq<Ban>, now: int, cooldownMinutes: int)
    requires DistinctPool(pool) && DistinctHosts(bl)
    requires forall b :: b in bl ==> b.host in PoolHosts(pool)
    ensures |Available(pool, bl, now, cooldownMinutes)| + |Evicted(bl, PoolHosts(pool), now, cooldownMinutes)| == |pool|
  {
    if pool == [] {
      if bl != [] {
        assert bl[0] in bl;
      }
    } else {
      var init := pool[..|pool| - 1];
      var h := pool[|pool| - 1].host;
      var bl' := Delete(bl, h);
      assert forall i :: 0 <= i < |init| ==> init[i] == pool[i];
      assert h !in PoolHosts(init);
      assert PoolHosts(pool) == PoolHosts(init) + {h};
      AvailablePlusBlacklisted(init, bl', now, cooldownMinutes);
      AvailableAgree(init, bl, bl', now, cooldownMinutes);
      EvictedCountStep(bl, PoolHosts(init), h, now, cooldownMinutes);
    }
  }
}
