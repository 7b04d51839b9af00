/** What several modules need. */
module Common {
  datatype Option<T> = None | Some(value: T)

  predicate PowerOfTwo(n: nat) {
    n == 1 || (n > 1 && n % 2 == 0 && PowerOfTwo(n / 2))
  }

  /** The map without a key. */
  function Minus<K, V>(m: map<K, V>, k: K): (r: map<K, V>)
    ensures |r| == |m| - if k in m then 1 else 0
  {
    assert (map x | x in m && x != k :: m[x]).Keys == m.Keys - {k};
    map x | x in m && x != k :: m[x]
  }
}
