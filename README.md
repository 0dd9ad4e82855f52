# Proxy rotation manager, modelled in Dafny

This project models `ProxyManager` from `core/proxy_manager.py`. The manager chooses which
proxy an automation run should use next. It keeps four pieces of state:

- the pool, an ordered list of proxy records keyed by `host`;
- the blacklist, which maps a host to the time it was banned;
- per-host usage counters `{success, failed, rate_limited}`;
- the round-robin cursor `last_used_index`.

Bans are lifted lazily. A query deletes each pool host's ban once `cooldown_minutes * 60`
seconds have passed since it was placed. The clock is an integer `now` (seconds) passed to
every operation that reads it.

Layout:

- `wrappers.dfy`: `Option`.
- `bans.dfy`: the blacklist as an insertion-ordered association list. A Python dict keeps
  insertion order, and the earliest-ban choice depends on it when two bans have the same
  time. Assigning to an existing key keeps its position; `del` removes the key.
- `usage.dfy`: the counters, the report operation `Record`, and replay of report sequences.
- `pool.dfy`: proxy records, the configuration shapes the loader accepts, and host lookup in the pool.
- `policy.dfy`: availability, lazy expiry, and the selection strategies as pure functions,
  with the lemmas about them.
- `proxy_manager.dfy`: the class `ProxyRotation.ProxyManager`. Its fields are the source's
  fields except `config_path`, which only the file loader reads. Each method's postcondition ties the new state to the pure functions of the old state.
- `scenarios.dfy`: client runs that go through the class's contracts: the A, B, C, A rotation,
  the source's own demonstration, desperate mode, and reports on one host.

Desperate mode can return `None` when the pool is not empty. This happens when the earliest
ban belongs to a host outside the pool (`core/proxy_manager.py:123-133`). `Policy.Desperate`
keeps this behaviour. `Policy.DesperateFindsProxy` proves that a proxy is returned when every
banned host is in the pool.

## Model

| member | source | states |
|---|---|---|
| `ProxyRotation.ProxyManager.constructor` | core/proxy_manager.py:30-75 | The pool is the loaded list: the JSON list itself, or the `proxies` member of a JSON object, and empty for a missing file, invalid JSON or any other shape. The blacklist and the counters start empty. The cursor starts at -1. |
| `ProxyRotation.ProxyManager.GetAvailableProxies` | core/proxy_manager.py:77-103 | Returns the pool entries that are not banned, or whose ban has lapsed, in pool order. The new blacklist is the old one with exactly the lapsed bans of pool hosts deleted. Counters and cursor are unchanged. The loop is proved against `Available` and `Evicted`. |
| `ProxyRotation.ProxyManager.FindProxy` | core/proxy_manager.py:128-131 | Returns the first pool record whose host matches, and `None` exactly when no pool record has that host. |
| `ProxyRotation.ProxyManager.GetNextProxy` | core/proxy_manager.py:105-151 | Always runs the expiry pass first. If something is available, the result is one of the available entries. `smart` gives the first entry with the fewest rate limits. `round_robin` sets the cursor to `(cursor + 1) % |available|` and returns that entry. Any other name gives `available[0]`. If nothing is available, the blacklist is unchanged and desperate mode chooses. Only `round_robin` moves the cursor. Counters are never touched. |
| `ProxyRotation.ProxyManager.MarkRateLimited` | core/proxy_manager.py:153-171 | The host's ban is set to `now`, overwriting any earlier ban, and the expiry pass at `now` follows. The host's `rate_limited` count goes up by exactly one, and a zeroed record is created first if needed. Other hosts' counters and the cursor are unchanged; the pass may delete other pool hosts' lapsed bans. |
| `ProxyRotation.ProxyManager.MarkSuccess` | core/proxy_manager.py:173-178 | Exactly the host's `success` count goes up by one, with the record created lazily. The blacklist and the cursor are unchanged. |
| `ProxyRotation.ProxyManager.MarkFailed` | core/proxy_manager.py:180-185 | Exactly the host's `failed` count goes up by one, with the record created lazily. The reason is ignored. The blacklist and the cursor are unchanged. |
| `ProxyRotation.ProxyManager.GetStats` | core/proxy_manager.py:187-194 | Reports the pool size, the number available, the blacklist size after the expiry pass, and the counters. Counters and cursor are unchanged. |
| `ProxyRotation.ProxyManager.ClearBlacklist` | core/proxy_manager.py:219-223 | The blacklist becomes empty and the previous size is reported. Counters and cursor are unchanged. |
| `Bans.LookupFinds` | core/proxy_manager.py:86-87 | Every blacklist entry is found by host lookup. With unique keys, the lookup returns that entry's ban time. |
| `Bans.Put` | core/proxy_manager.py:161 | After `blacklist[host] = t`, lookup of the host gives `t` and every other host's lookup is unchanged. Keys stay unique. An existing key keeps its position, so the size is unchanged. A new key is appended at the end. |
| `Bans.Delete` | core/proxy_manager.py:94 | After `del blacklist[host]`, the host has no entry and every other entry is kept. Keys stay unique. With unique keys the size drops by one exactly when the host was banned. |
| `Usage.Bump` | core/proxy_manager.py:166 | Increments exactly one counter by one. |
| `Usage.Record` | core/proxy_manager.py:164-185 | One report creates the host's record if absent and adds one to exactly the reported counter. Every other host's counters are unchanged. No counter decreases (`Grew`). |
| `Usage.ReportsCommute` | core/proxy_manager.py:164-185 | Reports on two different hosts give the same counters in either order. |
| `Usage.ReplayCounts` | core/proxy_manager.py:164-185 | After any interleaving of reports, each counter of each host equals its start value plus the number of reports for that host and outcome. |
| `Usage.ReplayGrows` | core/proxy_manager.py:164-185 | A sequence of reports never removes a record and never decreases a counter. |
| `Usage.SuccessFailedRateLimited` | core/proxy_manager.py:164-185 | On a fresh host, a success, then a failure, then a rate limit give counters {1, 1, 1}. |
| `Pool.PoolHosts` | core/proxy_manager.py:82-83 | A host is in the result exactly when some pool record carries it. |
| `Pool.FirstWithHost` | core/proxy_manager.py:128-131 | Gives the index of the first record with the host. It gives none exactly when the host is not in the pool. |
| `Policy.AvailableMember` | core/proxy_manager.py:82-103 | A proxy is available exactly when it is in the pool and its host is either not banned or was banned at least `cooldown_minutes * 60` seconds ago. |
| `Policy.AvailableAppend` | core/proxy_manager.py:80-103 | Availability of a concatenation is the concatenation of the availabilities, so the result keeps pool order. |
| `Policy.AvailableAgree` | core/proxy_manager.py:82-101 | The available list depends only on whether each pool host is available. |
| `Policy.AvailableWhenNothingBanned` | core/proxy_manager.py:82-101 | With an empty blacklist, for example right after `clear_blacklist`, the whole pool is available at once. |
| `Policy.LookupEvicted` | core/proxy_manager.py:86-99 | The expiry pass deletes a host's ban exactly when the host is in the pool and the ban has lapsed. Every other ban keeps its time, including bans of hosts outside the pool. |
| `Policy.EvictedDistinct` | core/proxy_manager.py:94 | The expiry pass keeps blacklist keys unique. |
| `Policy.EvictedNothing` | core/proxy_manager.py:86-99 | When no pool host has a lapsed ban, the pass leaves the blacklist as it was. |
| `Policy.EvictionIdempotent` | core/proxy_manager.py:82-99 | A second pass at the same time deletes nothing more and yields the same available list. |
| `Policy.RateLimitedBlocksUntilCooldown` | core/proxy_manager.py:153-171 | Take a pool proxy reported rate-limited at `t`, with a positive cooldown. It is unavailable until `t + cooldown_minutes * 60` and available from then on, when the next pass deletes its ban. With a cooldown of zero or less, the pass inside the report deletes the fresh ban at once. |
| `Policy.ArgMin` | core/proxy_manager.py:124 | Like Python's `min` with a key, gives an index with the least key. Every earlier element has a strictly larger key. |
| `Policy.SmartPick` | core/proxy_manager.py:135-141 | The head of the available list stably sorted by `rate_limited`: an available proxy with the least count (missing stats count as 0). Every earlier entry has a larger count. |
| `Policy.Desperate` | core/proxy_manager.py:117-133 | An empty blacklist gives `None`. Otherwise the result is the first pool record of the host with the earliest ban, with ties going to the entry inserted first. It is `None` exactly when that host is not in the pool. |
| `Policy.NothingAvailableNothingEvicted` | core/proxy_manager.py:115-133 | When nothing is available, the expiry pass has deleted nothing. Desperate mode therefore sees the whole blacklist and never lifts the chosen ban. |
| `Policy.DesperateFindsProxy` | core/proxy_manager.py:117-133 | A non-empty pool with nothing available, where every banned host is in the pool, still yields a proxy. |
| `Policy.NextCursor` | core/proxy_manager.py:146-148 | The advanced cursor is in range: `0 <= cursor < |available|`. |
| `Policy.CursorAfter` | core/proxy_manager.py:43 | Starting from -1, the cursor stays between -1 and `|available| - 1`. |
| `Policy.RoundRobinFirstLap` | core/proxy_manager.py:146-148 | Over a constant available list of size n, the first n round-robin calls visit indices 0, 1, ..., n-1 in order. |
| `Policy.RoundRobinPeriodic` | core/proxy_manager.py:146-148 | The rotation then repeats with period n, so A, B, C, A, ... |
| `Policy.AvailablePlusBlacklisted` | core/proxy_manager.py:187-194 | Suppose pool hosts are distinct and every banned host is in the pool. Then the available count plus the blacklist size after the pass equals the pool size. |
| `Scenarios.RoundRobinRotation` | core/proxy_manager.py:146-148 | Through the class, four round-robin calls over A, B, C return A, B, C, A. |
| `Scenarios.RateLimitThenCooldown` | core/proxy_manager.py:232-251 | The source's demonstration with a 5-minute cooldown. The first smart pick is the first proxy. After it is rate-limited, the next pick is the other proxy. Five minutes later both are available in pool order. |
| `Scenarios.SmartPrefersFirstOnTie` | core/proxy_manager.py:135-141 | With equal counts, `smart` returns the first available proxy. |
| `Scenarios.BannedFirstOfTwo` | core/proxy_manager.py:82-101 | A fresh ban survives the pass at its own time, blocks its proxy, and stops blocking it once the cooldown has passed. |
| `Scenarios.DesperateModePicksOldestBan` | core/proxy_manager.py:117-133 | Ban C, then A, then B. Desperate mode returns C, and C stays banned. |
| `Scenarios.ReportsStayWithTheirHost` | core/proxy_manager.py:164-185 | A success, a failure and a rate limit on one host give {1, 1, 1}. Another host gets no record. `clear_blacklist` reports 1 and keeps the counters. |

## Left out

- Reading the configuration file is not modelled: the fallback to the parent directory, `open`, and JSON parsing (`core/proxy_manager.py:49-75`). The constructor takes the result as a `ConfigDoc` value. The model covers the list and `{"proxies": [...]}` shapes, a missing file, invalid JSON and any other JSON value; the last three give an empty pool, as in the source.
- A `proxies` member that is not a list is not modelled; in the model it is always a list of proxy records. In the source, `null`, a number or a boolean raises `TypeError` at line 69. A non-empty string or a non-empty object loads, and the first expiry pass raises `TypeError` at line 83. `""` and `{}` behave as an empty pool.
- OS errors other than `FileNotFoundError` when opening the file (line 56) and undecodable file contents (line 57) raise out of `__init__` in the source and are not modelled.
- ProxyRotation.ProxyManager.ClearBlacklist: returns the count that the source prints (line 223); the source itself returns `None`.
- Time is an integer parameter, not the float returned by `time.time()`. `cooldown_minutes` is an integer too.
- `mark_rate_limited` reads the clock twice: once for the ban and once, through `get_available_proxies`, for the expiry pass. The model uses one `now` for both.
- ProxyRotation.ProxyManager.GetNextProxy: for the `random` strategy it states only that the result is an available entry. The random generator is the `draw` parameter, and uniformity is not modelled.
- Proxy records always have a `host` in the model. A record without one raises `KeyError` in the source.
- `get_stats` returns the live `usage_stats` dict by reference. The model returns a copy of its value, so later reports are not visible through an earlier snapshot.
- Printed output is not modelled. This covers `print_stats` (its sorting is for display only), the Windows console re-encoding, `create_proxy_manager` and the `__main__` block. `Scenarios.RateLimitThenCooldown` follows the `__main__` steps.
- The other files are not part of this model: browser automation, the CAPTCHA client, the email fetchers and the port probe. They do not contain the rotation policy.
- Concurrency: the source is single-threaded and the model is sequential.
