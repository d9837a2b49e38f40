/** Python's `collections.Counter`. */
module Counters {
  /** A missing key counts 0. */
  type Counter<K> = map<K, int>

  function Get<K>(c: Counter<K>, k: K): int {
    if k in c then c[k] else 0
  }

  /** `c.update(d)`, and `c[k] += d.get(k, 0)` for every key: plain addition. */
  function Add<K(!new)>(c: Counter<K>, d: Counter<K>): (r: Counter<K>)
    ensures forall k :: Get(r, k) == Get(c, k) + Get(d, k)
  {
    map k | k in c.Keys + d.Keys :: Get(c, k) + Get(d, k)
  }

  function Positive(n: int): int {
    if n > 0 then n else 0
  }

  /** `c += d`: addition that then drops every count that is not positive. */
  function AddKeepPositive<K(!new)>(c: Counter<K>, d: Counter<K>): (r: Counter<K>)
    ensures forall k :: Get(r, k) == Positive(Get(c, k) + Get(d, k))
  {
    map k | k in c.Keys + d.Keys && Get(c, k) + Get(d, k) > 0 :: Get(c, k) + Get(d, k)
  }
}
