/** The Redis dict as a value: two chained hash tables and the position of the incremental
    rehash.  `DictProofs` shows that it stays one finite map under every mix of operations;
    `Dict` holds the program's loops and proves that they compute these functions. */
module DictSpec {
  import opened Common
  import opened Entries

  datatype Table = Table(buckets: seq<Chain>, used: int)

  const EmptyTable := Table([], 0)
  const INITIAL_SIZE: nat := 4

  /** `rehashidx` is -1 when no rehash is under way. */
  datatype D = D(ht0: Table, ht1: Table, rehashidx: int, iterators: nat)

  const Created := D(EmptyTable, EmptyTable, -1, 0)

  // ----- tables

  predicate Rehashing(d: D) {
    d.rehashidx != -1
  }

  function Bucket(h: Hash, bs: seq<Chain>, k: Key): (i: nat)
    requires |bs| > 0
    ensures i < |bs|
  {
    h(k) % |bs|
  }

  function Lookup(h: Hash, bs: seq<Chain>, k: Key): Option<Val> {
    if bs == [] then None else ChainGet(bs[Bucket(h, bs, k)], k)
  }

  /** A new entry goes to the head of its chain. */
  function Push(h: Hash, bs: seq<Chain>, e: Entry): (r: seq<Chain>)
    requires |bs| > 0
  {
    var i := Bucket(h, bs, e.key);
    bs[i := [e] + bs[i]]
  }

  /** Every entry of a chain pushed, first entry first. */
  function PushAll(h: Hash, bs: seq<Chain>, c: Chain): (r: seq<Chain>)
    requires |bs| > 0
    ensures |r| == |bs|
    decreases |c|
  {
    if c == [] then bs else PushAll(h, Push(h, bs, c[0]), c[1..])
  }

  function Count(bs: seq<Chain>): nat {
    if bs == [] then 0 else |bs[0]| + Count(bs[1..])
  }

  // ----- invariant

  ghost predicate DistinctKeys(c: Chain) {
    forall i, j :: 0 <= i < j < |c| ==> c[i].key != c[j].key
  }

  /** Chain i holds only keys that hash to i, none twice. */
  ghost predicate BucketOk(h: Hash, bs: seq<Chain>, i: nat)
    requires i < |bs|
  {
    DistinctKeys(bs[i]) && forall j :: 0 <= j < |bs[i]| ==> h(bs[i][j].key) % |bs| == i
  }

  ghost predicate TableOk(h: Hash, t: Table) {
    && t.used == Count(t.buckets)
    && (t.buckets != [] ==> PowerOfTwo(|t.buckets|))
    && forall i: nat :: i < |t.buckets| ==> BucketOk(h, t.buckets, i)
  }

  /** No key is stored in both tables. */
  ghost predicate Apart(h: Hash, d: D) {
    forall k :: Lookup(h, d.ht0.buckets, k).None? || Lookup(h, d.ht1.buckets, k).None?
  }

  ghost predicate Ok(h: Hash, d: D) {
    && TableOk(h, d.ht0) && TableOk(h, d.ht1) && Apart(h, d)
    && (!Rehashing(d) ==> d.ht1 == EmptyTable)
    && (Rehashing(d) ==>
          && 0 <= d.rehashidx < |d.ht0.buckets| && |d.ht1.buckets| > 0
          && forall i :: 0 <= i < d.rehashidx ==> d.ht0.buckets[i] == [])
  }

  /** What a client sees. */
  function Get(h: Hash, d: D, k: Key): Option<Val> {
    var r := Lookup(h, d.ht0.buckets, k);
    if r.Some? then r else Lookup(h, d.ht1.buckets, k)
  }

  function Total(d: D): int {
    d.ht0.used + d.ht1.used
  }

  /** The dict stands for the finite map `m`. */
  ghost predicate Models(h: Hash, d: D, m: map<Key, Val>) {
    && Total(d) == |m|
    && forall k :: Get(h, d, k) == if k in m then Some(m[k]) else None
  }

  // ----- rehash

  /** Skip empty buckets from `i`, giving up when `visits` reaches zero. */
  function Skip(bs: seq<Chain>, i: nat, visits: nat): (r: (nat, nat))
    requires i <= |bs| && visits > 0
    ensures i <= r.0 <= |bs| && r.1 <= visits
    ensures r.1 == 0 ==> r.0 > i
    ensures forall j :: i <= j < r.0 ==> bs[j] == []
    ensures r.1 > 0 && r.0 < |bs| ==> bs[r.0] != []
    decreases |bs| - i
  {
    if i < |bs| && bs[i] == [] then
      if visits == 1 then (i + 1, 0) else Skip(bs, i + 1, visits - 1)
    else (i, visits)
  }

  /** Move bucket `i` of the old table into the new one. */
  function Migrate(h: Hash, d: D, i: nat): D
    requires i < |d.ht0.buckets| && |d.ht1.buckets| > 0
  {
    var c := d.ht0.buckets[i];
    d.(ht0 := Table(d.ht0.buckets[i := []], d.ht0.used - |c|),
       ht1 := Table(PushAll(h, d.ht1.buckets, c), d.ht1.used + |c|),
       rehashidx := i + 1)
  }

  /** When the old table is empty the new one takes its place. */
  function Finish(d: D): D {
    if d.ht0.used == 0 then d.(ht0 := d.ht1, ht1 := EmptyTable, rehashidx := -1) else d
  }

  // ----- growth

  function NextPowerFrom(i: nat, size: nat): (p: nat)
    requires i > 0
    ensures p >= size && p >= i
    ensures PowerOfTwo(i) ==> PowerOfTwo(p)
    ensures p > i ==> p < 2 * size
    decreases size - i
  {
    if i >= size then i else NextPowerFrom(2 * i, size)
  }

  function NextPower(size: nat): nat {
    NextPowerFrom(INITIAL_SIZE, size)
  }

  function EmptyBuckets(n: nat): (bs: seq<Chain>)
    ensures |bs| == n && forall i :: 0 <= i < n ==> bs[i] == []
  {
    seq(n, _ => [])
  }

  datatype Status = OK | ERR

  function Expand(d: D, size: nat): (D, Status) {
    if Rehashing(d) || d.ht0.used > size then (d, ERR)
    else
      var size' := NextPower(size);
      if size' == |d.ht0.buckets| then (d, ERR)
      else
        var n := Table(EmptyBuckets(size'), 0);
        if d.ht0.buckets == [] then (d.(ht0 := n), OK) else (d.(ht1 := n, rehashidx := 0), OK)
  }

  /** Resize settings: dict_can_resize and dict_force_resize_ratio. */
  datatype Config = Config(canResize: bool, ratio: nat)

  function ExpandIfNeeded(cfg: Config, d: D): (D, Status)
    requires d.ht0.used >= 0
  {
    if Rehashing(d) then (d, OK)
    else if d.ht0.buckets == [] then Expand(d, INITIAL_SIZE)
    else if d.ht0.used >= |d.ht0.buckets| && (cfg.canResize || d.ht0.used / |d.ht0.buckets| > cfg.ratio)
    then Expand(d, d.ht0.used * 2)
    else (d, OK)
  }

  function Remove(h: Hash, t: Table, k: Key): Table
    requires t.buckets != []
  {
    var i := Bucket(h, t.buckets, k);
    Table(t.buckets[i := ChainRemove(t.buckets[i], k)], t.used - 1)
  }
}
