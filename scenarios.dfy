/**
 * Client runs of the proxy manager that follow its documented usage: what a caller can
 * conclude from the operations' contracts alone.
 */
module Scenarios {
  import opened Wrappers
  import opened Pool
  import opened Bans
  import opened Usage
  import opened Policy
  import opened ProxyRotation

  /** With three proxies that stay available, four round-robin calls give A, B, C, A. */
  method RoundRobinRotation(a: Proxy, b: Proxy, c: Proxy, now: int) returns (picks: seq<Option<Proxy>>)
    ensures picks == [Some(a), Some(b), Some(c), Some(a)]
  {
    var m := new ProxyManager(JsonList([a, b, c]), 30);
    AvailableWhenNothingBanned([a, b, c], now, 30);
    var p1 := m.GetNextProxy("round_robin", now, 0);
    assert p1 == Some(a) && m.blacklist == [] && m.lastUsedIndex == 0;
    var p2 := m.GetNextProxy("round_robin", now, 0);
    assert p2 == Some(b) && m.blacklist == [] && m.lastUsedIndex == 1;
    var p3 := m.GetNextProxy("round_robin", now, 0);
    assert p3 == Some(c) && m.blacklist == [] && m.lastUsedIndex == 2;
    var p4 := m.GetNextProxy("round_robin", now, 0);
    picks := [p1, p2, p3, p4];
  }

  /**
   * The manager's own demonstration with a 5-minute cooldown: the first smart pick is the
   * first proxy; once it is rate-limited the next pick is the other one; five minutes
   * later both are available again, in pool order.
   */
  method RateLimitThenCooldown(a: Proxy, b: Proxy, now: int)
    returns (first: Option<Proxy>, second: Option<Proxy>, later: seq<Proxy>)
    requires a.host != b.host
    ensures first == Some(a) && second == Some(b)
    ensures later == [a, b]
  {
    var m := new ProxyManager(JsonList([a, b]), 5);
    AvailableWhenNothingBanned([a, b], now, 5);
    SmartPrefersFirstOnTie(a, b);
    first := m.GetNextProxy("smart", now, 0);
    assert first == Some(a) && m.blacklist == [];
    var cooledDown := now + 5 * 60;
    BannedFirstOfTwo(a, b, now, cooledDown, 5);
    var banned := [Ban(a.host, now)];
    assert Put([], a.host, now) == banned;
    m.MarkRateLimited(a, now);
    assert m.blacklist == banned;
    second := m.GetNextProxy("smart", now, 0);
    assert second == Some(b) && m.blacklist == banned;
    later := m.GetAvailableProxies(cooledDown);
  }

  /** Without any rate-limit reports the smart pick is the first available proxy. */
  lemma SmartPrefersFirstOnTie(a: Proxy, b: Proxy)
    ensures SmartPick([a, b], map[]) == a
  {
  }

  /**
   * Of two proxies, the first banned at `t`: the ban survives the pass at `t`, only the
   * second is available then, and both are available once the cooldown has passed.
   */
  lemma BannedFirstOfTwo(a: Proxy, b: Proxy, t: int, later: int, cooldownMinutes: int)
    requires a.host != b.host && cooldownMinutes > 0 && later - t >= cooldownMinutes * 60
    ensures Evicted([Ban(a.host, t)], PoolHosts([a, b]), t, cooldownMinutes) == [Ban(a.host, t)]
    ensures Available([a, b], [Ban(a.host, t)], t, cooldownMinutes) == [b]
    ensures Available([a, b], [Ban(a.host, t)], later, cooldownMinutes) == [a, b]
  {
    var banned := [Ban(a.host, t)];
    assert [a, b][..1] == [a] && [a][..0] == [] && banned[1..] == [];
    assert !IsAvailable(banned, a.host, t, cooldownMinutes) && IsAvailable(banned, b.host, t, cooldownMinutes);
    assert Available([a], banned, t, cooldownMinutes) == [];
    assert IsAvailable(banned, a.host, later, cooldownMinutes) && IsAvailable(banned, b.host, later, cooldownMinutes);
    assert Available([a], banned, later, cooldownMinutes) == [a];
    assert Evicted(banned, PoolHosts([a, b]), t, cooldownMinutes) == banned + [];
  }

  /**
   * With every proxy banned (C first, then A, then B) desperate mode hands out C, the one
   * closest to the end of its cooldown, and C stays banned.
   */
  method DesperateModePicksOldestBan(a: Proxy, b: Proxy, c: Proxy, t: int)
    returns (r: Option<Proxy>, cStillBanned: bool)
    requires a.host != b.host && b.host != c.host && a.host != c.host
    ensures r == Some(c) && cStillBanned
  {
    var m := new ProxyManager(JsonList([a, b, c]), 30);
    var bans := [Ban(c.host, t), Ban(a.host, t + 1), Ban(b.host, t + 2)];
    AllBannedOfThree(a, b, c, t);
    m.MarkRateLimited(c, t);
    assert m.blacklist == bans[..1];
    m.MarkRateLimited(a, t + 1);
    assert m.blacklist == bans[..2];
    m.MarkRateLimited(b, t + 2);
    assert m.blacklist == bans;
    r := m.GetNextProxy("smart", t + 3, 0);
    assert m.blacklist == bans;
    cStillBanned := Lookup(m.blacklist, c.host) == Some(t);
  }

  /** The blacklists of the desperate-mode run: every ban is still cooling down, so none is evicted. */
  lemma AllBannedOfThree(a: Proxy, b: Proxy, c: Proxy, t: int)
    requires a.host != b.host && b.host != c.host && a.host != c.host
    ensures var bans := [Ban(c.host, t), Ban(a.host, t + 1), Ban(b.host, t + 2)];
      && Evicted(Put([], c.host, t), PoolHosts([a, b, c]), t, 30) == bans[..1]
      && Evicted(Put(bans[..1], a.host, t + 1), PoolHosts([a, b, c]), t + 1, 30) == bans[..2]
      && Evicted(Put(bans[..2], b.host, t + 2), PoolHosts([a, b, c]), t + 2, 30) == bans
      && Available([a, b, c], bans, t + 3, 30) == []
      && Desperate([a, b, c], bans) == Some(c)
  {
    var bans := [Ban(c.host, t), Ban(a.host, t + 1), Ban(b.host, t + 2)];
    var hosts := PoolHosts([a, b, c]);
    assert Put([], c.host, t) == bans[..1];
    EvictedNothing(bans[..1], hosts, t, 30);
    assert Lookup(bans[..1], a.host).None? by {
      assert bans[..1][1..] == [];
    }
    assert Put(bans[..1], a.host, t + 1) == bans[..2];
    EvictedNothing(bans[..2], hosts, t + 1, 30);
    assert Lookup(bans[..2], b.host).None? by {
      assert bans[..2][1..] == [bans[1]] && [bans[1]][1..] == [];
    }
    assert Put(bans[..2], b.host, t + 2) == bans;
    EvictedNothing(bans, hosts, t + 2, 30);
    NoneAvailableOfThree(a, b, c, t);
    DesperateOfThree(a, b, c, t);
  }

  /** No proxy of the three is available at `t + 3`. */
  lemma NoneAvailableOfThree(a: Proxy, b: Proxy, c: Proxy, t: int)
    requires a.host != b.host && b.host != c.host && a.host != c.host
    ensures Available([a, b, c], [Ban(c.host, t), Ban(a.host, t + 1), Ban(b.host, t + 2)], t + 3, 30) == []
  {
    var bans := [Ban(c.host, t), Ban(a.host, t + 1), Ban(b.host, t + 2)];
    assert bans[1..] == [Ban(a.host, t + 1), Ban(b.host, t + 2)];
    assert bans[1..][1..] == [Ban(b.host, t + 2)] && bans[1..][1..][1..] == [];
    assert Lookup(bans, a.host) == Some(t + 1);
    assert Lookup(bans[1..][1..], b.host) == Some(t + 2);
    assert Lookup(bans[1..], b.host) == Some(t + 2);
    assert Lookup(bans, b.host) == Some(t + 2);
    assert Lookup(bans, c.host) == Some(t);
    assert [a, b, c][..2] == [a, b] && [a, b][..1] == [a] && [a][..0] == [];
    assert Available([a], bans, t + 3, 30) == [];
    assert Available([a, b], bans, t + 3, 30) == [];
  }

  /** Desperate mode over the three bans picks C, banned first. */
  lemma DesperateOfThree(a: Proxy, b: Proxy, c: Proxy, t: int)
    requires a.host != b.host && b.host != c.host && a.host != c.host
    ensures Desperate([a, b, c], [Ban(c.host, t), Ban(a.host, t + 1), Ban(b.host, t + 2)]) == Some(c)
  {
  }

  /**
   * Success, failure and rate-limit reports on one host give it counters {1, 1, 1} and
   * leave another host's record absent; clearing the blacklist keeps the counters.
   */
  method ReportsStayWithTheirHost(a: Proxy, b: Proxy, now: int)
    returns (countersA: Counters, bRecorded: bool, cleared: nat)
    requires a.host != b.host
    ensures countersA == Counters(1, 1, 1) && !bRecorded && cleared == 1
  {
    var m := new ProxyManager(JsonList([a, b]), 30);
    m.MarkSuccess(a);
    m.MarkFailed(a, "timeout");
    m.MarkRateLimited(a, now);
    assert m.blacklist == [Ban(a.host, now)];
    cleared := m.ClearBlacklist();
    countersA := m.usageStats[a.host];
    bRecorded := b.host in m.usageStats;
  }
}
