/** Chains of entries, as the hash tables keep them in their buckets. */
module Entries {
  import opened Common

  type Key = string
  type Val = string
  type Hash = Key -> nat

  datatype Entry = Entry(key: Key, val: Val)
  type Chain = seq<Entry>

  function ChainGet(c: Chain, k: Key): Option<Val> {
    if c == [] then None else if c[0].key == k then Some(c[0].val) else ChainGet(c[1..], k)
  }

  /** The chain without its first entry for `k`. */
  function ChainRemove(c: Chain, k: Key): Chain {
    if c == [] then [] else if c[0].key == k then c[1..] else [c[0]] + ChainRemove(c[1..], k)
  }
}
