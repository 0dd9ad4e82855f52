/**
 * The blacklist of the proxy manager: a Python dict from host to the time of its ban.
 * A Python dict remembers insertion order, and the order is observable (the earliest-ban
 * selection keeps the first of equal timestamps), so the dict is modelled as an
 * association list with at most one entry per host.
 */
module Bans {
  import opened Wrappers

  /** One blacklist entry: `host` was banned at time `at` (seconds). */
  datatype Ban = Ban(host: string, at: int)

  /** `bl[h]` when `h in bl`, otherwise None: the first entry for `h`. */
  function Lookup(bl: seq<Ban>, h: string): Option<int>
  {
    if bl == [] then None
    else if bl[0].host == h then Some(bl[0].at)
    else Lookup(bl[1..], h)
  }

  /** Dict keys are unique: no host has two entries. */
  predicate DistinctHosts(bl: seq<Ban>)
  {
    bl == [] || (Lookup(bl[1..], bl[0].host).None? && DistinctHosts(bl[1..]))
  }

  /** `Lookup` finds exactly the hosts that have an entry, and with unique keys the entry's time. */
  lemma {:induction false} LookupFinds(bl: seq<Ban>, i: nat)
    requires i < |bl|
    ensures Lookup(bl, bl[i].host).Some?
    ensures DistinctHosts(bl) ==> Lookup(bl, bl[i].host) == Some(bl[i].at)
  {
    if i > 0 {
      LookupFinds(bl[1..], i - 1);
    }
  }

  /**
   * `dict[h] = t`: overwrites the time of an existing key in place (its position is kept),
   * and appends a new key at the end.
   */
  function Put(bl: seq<Ban>, h: string, t: int): (r: seq<Ban>)
    ensures forall g :: Lookup(r, g) == if g == h then Some(t) else Lookup(bl, g)
    ensures DistinctHosts(bl) ==> DistinctHosts(r)
    ensures |r| == if Lookup(bl, h).Some? then |bl| else |bl| + 1
    ensures Lookup(bl, h).Some? ==> forall i :: 0 <= i < |bl| ==> r[i].host == bl[i].host
    ensures Lookup(bl, h).None? ==> r == bl + [Ban(h, t)]
  {
    if bl == [] then [Ban(h, t)]
    else if bl[0].host == h then [Ban(h, t)] + bl[1..]
    else [bl[0]] + Put(bl[1..], h, t)
  }

  /** `del dict[h]`: removes the entry of `h`, keeping the others in order. */
  function Delete(bl: seq<Ban>, h: string): (r: seq<Ban>)
    ensures forall g :: Lookup(r, g) == if g == h then None else Lookup(bl, g)
    ensures forall b :: b in r ==> b in bl && b.host != h
    ensures DistinctHosts(bl) ==> DistinctHosts(r)
    ensures DistinctHosts(bl) ==> |r| == if Lookup(bl, h).Some? then |bl| - 1 else |bl|
    ensures Lookup(bl, h).None? ==> r == bl
  {
    if bl == [] then []
    else if bl[0].host == h then Delete(bl[1..], h)
    else [bl[0]] + Delete(bl[1..], h)
  }
}
