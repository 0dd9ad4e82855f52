/**
 * The proxy manager: an in-memory state machine over the proxy pool, the blacklist,
 * the per-host usage counters and the round-robin cursor. The clock is passed in as
 * an integer `now` (seconds) to every operation that reads it.
 */
module ProxyRotation {
  import opened Wrappers
  import opened Pool
  import opened Bans
  import opened Usage
  import opened Policy

  /** What `get_stats` reports. */
  datatype StatsSnapshot = StatsSnapshot(
    totalProxies: nat,
    availableProxies: nat,
    blacklistedProxies: nat,
    usageStats: UsageStats)

  class ProxyManager {
    /** How long a rate-limited proxy stays banned. */
    const cooldownMinutes: int
    /** The pool, in configuration order; never changed after loading. */
    const proxies: seq<Proxy>
    /** Host -> time of ban, in insertion order. */
    var blacklist: seq<Ban>
    /** Host -> {success, failed, rate_limited}. */
    var usageStats: UsageStats
    /** The round-robin cursor; -1 before the first round-robin call. */
    var lastUsedIndex: int

    ghost predicate Valid()
      reads this
    {
      DistinctHosts(blacklist) && lastUsedIndex >= -1
    }

    /**
     * A manager over the pool loaded from `doc`, with nothing banned and no stats.
     * The source's default cooldown is 30 minutes.
     */
    constructor (doc: ConfigDoc, cooldownMinutes: int)
      ensures Valid()
      ensures this.cooldownMinutes == cooldownMinutes && proxies == LoadedPool(doc)
      ensures blacklist == [] && usageStats == map[] && lastUsedIndex == -1
    {
      this.cooldownMinutes := cooldownMinutes;
      proxies := LoadedPool(doc);
      blacklist := [];
      usageStats := map[];
      lastUsedIndex := -1;
    }

    /**
     * The pool entries not banned at `now`, in pool order; as a side effect deletes the
     * lapsed bans of pool hosts.
     */
    method GetAvailableProxies(now: int) returns (available: seq<Proxy>)
      requires Valid()
      modifies this`blacklist
      ensures Valid()
      ensures available == Available(proxies, old(blacklist), now, cooldownMinutes)
      ensures blacklist == Evicted(old(blacklist), PoolHosts(proxies), now, cooldownMinutes)
      ensures usageStats == old(usageStats) && lastUsedIndex == old(lastUsedIndex)
    {
      available := [];
      var i := 0;
      assert PoolHosts(proxies[..0]) == {};
      EvictedNothing(blacklist, {}, now, cooldownMinutes);
      while i < |proxies|
        invariant 0 <= i <= |proxies|
        invariant available == Available(proxies[..i], old(blacklist), now, cooldownMinutes)
        invariant blacklist == Evicted(old(blacklist), PoolHosts(proxies[..i]), now, cooldownMinutes)
        invariant DistinctHosts(blacklist)
      {
        var proxy := proxies[i];
        var host := proxy.host;
        ghost var scanned := PoolHosts(proxies[..i]);
        assert proxies[..i + 1][..i] == proxies[..i];
        assert PoolHosts(proxies[..i + 1]) == scanned + {host};
        LookupEvicted(old(blacklist), scanned, now, cooldownMinutes, host);
        match Lookup(blacklist, host) {
          case Some(bannedTime) =>
            if now - bannedTime >= cooldownMinutes * 60 {
              EvictStepLapsed(old(blacklist), scanned, host, now, cooldownMinutes);
              blacklist := Delete(blacklist, host);
              available := available + [proxy];
            } else {
              EvictStepKept(old(blacklist), scanned, host, now, cooldownMinutes);
            }
          case None =>
            EvictStepKept(old(blacklist), scanned, host, now, cooldownMinutes);
            available := available + [proxy];
        }
        i := i + 1;
      }
      assert proxies[..i] == proxies;
    }

    /** The first pool record whose host is `host`, if any. */
    method FindProxy(host: string) returns (r: Option<Proxy>)
      ensures r.None? <==> host !in PoolHosts(proxies)
      ensures r.Some? ==> r == Some(proxies[FirstWithHost(proxies, host).value])
    {
      var i := 0;
      while i < |proxies|
        invariant 0 <= i <= |proxies|
        invariant forall j :: 0 <= j < i ==> proxies[j].host != host
      {
        if proxies[i].host == host {
          return Some(proxies[i]);
        }
        i := i + 1;
      }
      return None;
    }

    /**
     * The proxy to use next under `strategy` ("smart", "random", "round_robin", or any
     * other name for "first available"; the source's default is "smart"). `draw` stands for
     * the random generator's choice.
     * When nothing is available, desperate mode returns the record of the host banned
     * longest ago, without lifting its ban.
     */
    method GetNextProxy(strategy: string, now: int, draw: nat) returns (r: Option<Proxy>)
      requires Valid()
      modifies this`blacklist, this`lastUsedIndex
      ensures Valid()
      ensures blacklist == Evicted(old(blacklist), PoolHosts(proxies), now, cooldownMinutes)
      ensures usageStats == old(usageStats)
      ensures var avail := Available(proxies, old(blacklist), now, cooldownMinutes);
        if avail == [] then
          && blacklist == old(blacklist)
          && r == Desperate(proxies, blacklist)
          && lastUsedIndex == old(lastUsedIndex)
        else
          && r.Some? && r.value in avail
          && (strategy == "smart" ==> r.value == SmartPick(avail, usageStats))
          && (strategy == "round_robin" ==>
                lastUsedIndex == NextCursor(old(lastUsedIndex), |avail|) && r.value == avail[lastUsedIndex])
          && (strategy != "round_robin" ==> lastUsedIndex == old(lastUsedIndex))
          && (strategy != "smart" && strategy != "random" && strategy != "round_robin" ==> r.value == avail[0])
    {
      var available := GetAvailableProxies(now);
      if available == [] {
        NothingAvailableNothingEvicted(proxies, old(blacklist), now, cooldownMinutes);
        if blacklist == [] {
          return None;
        }
        var oldest := blacklist[ArgMin(blacklist, BanTime)];
        r := FindProxy(oldest.host);
        return;
      }
      AvailableMember(proxies, old(blacklist), now, cooldownMinutes, available[0]);
      if strategy == "smart" {
        r := Some(SmartPick(available, usageStats));
      } else if strategy == "random" {
        r := Some(available[draw % |available|]);
      } else if strategy == "round_robin" {
        lastUsedIndex := NextCursor(lastUsedIndex, |available|);
        r := Some(available[lastUsedIndex]);
      } else {
        r := Some(available[0]);
      }
    }

    /**
     * Bans `proxy`'s host from `now` (overwriting an earlier ban in place), adds one to its
     * rate-limit count, then runs the expiry pass at `now`.
     */
    method MarkRateLimited(proxy: Proxy, now: int)
      requires Valid()
      modifies this`blacklist, this`usageStats
      ensures Valid()
      ensures blacklist == Evicted(Put(old(blacklist), proxy.host, now), PoolHosts(proxies), now, cooldownMinutes)
      ensures usageStats == Record(old(usageStats), proxy.host, RateLimited)
      ensures lastUsedIndex == old(lastUsedIndex)
    {
      var host := proxy.host;
      blacklist := Put(blacklist, host, now);
      if host !in usageStats {
        usageStats := usageStats[host := Zero];
      }
      usageStats := usageStats[host := usageStats[host].(rateLimited := usageStats[host].rateLimited + 1)];
      assert usageStats == Record(old(usageStats), host, RateLimited);
      var _ := GetAvailableProxies(now);
    }

    /** Adds one to the success count of `proxy`'s host. */
    method MarkSuccess(proxy: Proxy)
      requires Valid()
      modifies this`usageStats
      ensures Valid()
      ensures usageStats == Record(old(usageStats), proxy.host, Success)
      ensures blacklist == old(blacklist) && lastUsedIndex == old(lastUsedIndex)
    {
      var host := proxy.host;
      if host !in usageStats {
        usageStats := usageStats[host := Zero];
      }
      usageStats := usageStats[host := usageStats[host].(success := usageStats[host].success + 1)];
    }

    /** Adds one to the failure count of `proxy`'s host; `reason` (default "unknown") is not interpreted. */
    method MarkFailed(proxy: Proxy, reason: string)
      requires Valid()
      modifies this`usageStats
      ensures Valid()
      ensures usageStats == Record(old(usageStats), proxy.host, Failed)
      ensures blacklist == old(blacklist) && lastUsedIndex == old(lastUsedIndex)
    {
      var host := proxy.host;
      if host !in usageStats {
        usageStats := usageStats[host := Zero];
      }
      usageStats := usageStats[host := usageStats[host].(failed := usageStats[host].failed + 1)];
    }

    /** The pool size, the available count and the blacklist size after the expiry pass, and the counters. */
    method GetStats(now: int) returns (s: StatsSnapshot)
      requires Valid()
      modifies this`blacklist
      ensures Valid()
      ensures blacklist == Evicted(old(blacklist), PoolHosts(proxies), now, cooldownMinutes)
      ensures s.totalProxies == |proxies|
      ensures s.availableProxies == |Available(proxies, old(blacklist), now, cooldownMinutes)|
      ensures s.blacklistedProxies == |blacklist|
      ensures s.usageStats == usageStats
      ensures usageStats == old(usageStats) && lastUsedIndex == old(lastUsedIndex)
    {
      var available := GetAvailableProxies(now);
      s := StatsSnapshot(|proxies|, |available|, |blacklist|, usageStats);
    }

    /** Empties the blacklist and reports how many hosts were on it; counters are kept. */
    method ClearBlacklist() returns (count: nat)
      requires Valid()
      modifies this`blacklist
      ensures Valid()
      ensures count == |old(blacklist)| && blacklist == []
      ensures usageStats == old(usageStats) && lastUsedIndex == old(lastUsedIndex)
    {
      count := |blacklist|;
      blacklist := [];
    }
  }
}
