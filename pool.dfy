/**
 * The proxy pool: the ordered list of proxy records read once from the configuration.
 */
module Pool {
  import opened Wrappers

  /**
   * A proxy record. Only `host` is interpreted; the remaining connection settings
   * (port, credentials, ...) are payload handed back to the caller unchanged.
   */
  datatype Proxy = Proxy(host: string, settings: map<string, string>)

  /**
   * What reading the configuration file can produce: no file, text that is not JSON,
   * a JSON list of proxies, a JSON object with or without a "proxies" member, or any
   * other JSON value.
   */
  datatype ConfigDoc =
    | FileMissing
    | InvalidJson
    | JsonList(items: seq<Proxy>)
    | JsonObject(proxies: Option<seq<Proxy>>)
    | OtherJson

  /** The pool loaded from `doc`: the list itself, or the "proxies" member; otherwise empty. */
  function LoadedPool(doc: ConfigDoc): seq<Proxy>
  {
    match doc
    case JsonList(items) => items
    case JsonObject(Some(items)) => items
    case _ => []
  }

  /** The hosts that occur in `pool`. */
  function PoolHosts(pool: seq<Proxy>): (hs: set<string>)
    ensures forall h :: h in hs <==> exists i :: 0 <= i < |pool| && pool[i].host == h
  {
    if pool == [] then {}
    else PoolHosts(pool[..|pool| - 1]) + {pool[|pool| - 1].host}
  }

  /** No two records of `pool` share a host. */
  predicate DistinctPool(pool: seq<Proxy>)
  {
    forall i, j :: 0 <= i < j < |pool| ==> pool[i].host != pool[j].host
  }

  /** The index of the first record of `pool` whose host is `h`, if any. */
  function FirstWithHost(pool: seq<Proxy>, h: string): (r: Option<nat>)
    ensures r.Some? ==> r.value < |pool| && pool[r.value].host == h
    ensures r.Some? ==> forall j :: 0 <= j < r.value ==> pool[j].host != h
    ensures r.None? <==> h !in PoolHosts(pool)
  {
    if pool == [] then None
    else if pool[0].host == h then Some(0)
    else match FirstWithHost(pool[1..], h)
      case None => None
      case Some(i) => Some(i + 1)
  }
}
