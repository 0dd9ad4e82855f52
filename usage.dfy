/**
 * Per-host usage counters of the proxy manager (`usage_stats`), created lazily on the
 * first report for a host and only ever incremented.
 */
module Usage {
  /** The three counters `{success, failed, rate_limited}` of one host. */
  datatype Counters = Counters(success: nat, failed: nat, rateLimited: nat)

  /** The outcome a caller reports for one attempt through a proxy. */
  datatype Outcome = Success | Failed | RateLimited

  type UsageStats = map<string, Counters>

  /** The record a host starts with when it is reported for the first time. */
  const Zero := Counters(0, 0, 0)

  /** The counters of `h`, reading an absent host as all zero. */
  function CountersOf(stats: UsageStats, h: string): Counters
  {
    if h in stats then stats[h] else Zero
  }

  /** `usage_stats.get(host, {}).get('rate_limited', 0)`. */
  function RateLimitedCount(stats: UsageStats, h: string): nat
  {
    CountersOf(stats, h).rateLimited
  }

  /** Counter-wise `c <= d`. */
  predicate AtMost(c: Counters, d: Counters)
  {
    c.success <= d.success && c.failed <= d.failed && c.rateLimited <= d.rateLimited
  }

  /** No host disappears and no counter decreases from `before` to `after`. */
  predicate Grew(before: UsageStats, after: UsageStats)
  {
    forall h :: h in before ==> h in after && AtMost(before[h], after[h])
  }

  /** The counter that `o` is recorded in. */
  function Count(c: Counters, o: Outcome): nat
  {
    match o
    case Success => c.success
    case Failed => c.failed
    case RateLimited => c.rateLimited
  }

  /** Adds one to the counter of outcome `o`. */
  function Bump(c: Counters, o: Outcome): (d: Counters)
    ensures Count(d, o) == Count(c, o) + 1
    ensures forall o' :: o' != o ==> Count(d, o') == Count(c, o')
    ensures AtMost(c, d)
  {
    match o
    case Success => c.(success := c.success + 1)
    case Failed => c.(failed := c.failed + 1)
    case RateLimited => c.(rateLimited := c.rateLimited + 1)
  }

  /**
   * One report for host `h`: create a zeroed record if `h` has none, then increment the
   * counter of the outcome by one.
   */
  function Record(stats: UsageStats, h: string, o: Outcome): (r: UsageStats)
    ensures r.Keys == stats.Keys + {h}
    ensures Count(r[h], o) == Count(CountersOf(stats, h), o) + 1
    ensures forall o' :: o' != o ==> Count(r[h], o') == Count(CountersOf(stats, h), o')
    ensures forall g :: g != h ==> CountersOf(r, g) == CountersOf(stats, g)
    ensures Grew(stats, r)
  {
    stats[h := Bump(CountersOf(stats, h), o)]
  }

  /** Reports on different hosts commute: a report never leaks into another host's record. */
  lemma ReportsCommute(stats: UsageStats, h: string, o: Outcome, g: string, p: Outcome)
    requires h != g
    ensures Record(Record(stats, h, o), g, p) == Record(Record(stats, g, p), h, o)
  {
  }

  /** One report of `o` about `h`. */
  datatype Report = Report(host: string, outcome: Outcome)

  /** The usage stats after the reports `rs`, applied in order, starting from `stats`. */
  function Replay(stats: UsageStats, rs: seq<Report>): UsageStats
  {
    if rs == [] then stats
    else
      var last := rs[|rs| - 1];
      Record(Replay(stats, rs[..|rs| - 1]), last.host, last.outcome)
  }

  /** How many of the reports `rs` are about host `h` with outcome `o`. */
  function Tally(rs: seq<Report>, h: string, o: Outcome): nat
  {
    if rs == [] then 0
    else Tally(rs[..|rs| - 1], h, o) + (if rs[|rs| - 1] == Report(h, o) then 1 else 0)
  }

  /**
   * Whatever the interleaving of reports about different hosts, each counter of each host
   * grows by exactly the number of reports about that host with that outcome.
   */
  lemma {:induction false} ReplayCounts(stats: UsageStats, rs: seq<Report>, h: string, o: Outcome)
    ensures Count(CountersOf(Replay(stats, rs), h), o) == Count(CountersOf(stats, h), o) + Tally(rs, h, o)
  {
    if rs != [] {
      ReplayCounts(stats, rs[..|rs| - 1], h, o);
    }
  }

  /** A sequence of reports never decreases any counter. */
  lemma {:induction false} ReplayGrows(stats: UsageStats, rs: seq<Report>)
    ensures Grew(stats, Replay(stats, rs))
  {
    if rs != [] {
      ReplayGrows(stats, rs[..|rs| - 1]);
    }
  }

  /** A success, a failure and a rate limit on a fresh host give counters {1, 1, 1}. */
  lemma SuccessFailedRateLimited(h: string)
    ensures Record(Record(Record(map[], h, Success), h, Failed), h, RateLimited)[h] == Counters(1, 1, 1)
  {
  }
}
