/** Safe iterators of the dict: what dictNext will still return, and why every entry present
    when the iteration starts is returned exactly once although entries are added and looked
    up, and even when the table starts to grow, in between. */
module DictIter {
  import opened Common
  import opened Entries
  import opened DictSpec
  import opened DictProofs

  /** A safe iterator.  Entries are identified by their keys; `entry` is the entry returned
      last and `next` its successor in the chain, saved before it was returned. */
  datatype Iter = Iter(table: nat, index: int, entry: Option<Key>, next: Option<Key>)

  const NewIter := Iter(0, -1, None, None)

  function Buckets(d: D, table: nat): seq<Chain> {
    if table == 0 then d.ht0.buckets else d.ht1.buckets
  }

  function HeadKey(c: Chain): Option<Key> {
    if c == [] then None else Some(c[0].key)
  }

  /** The chain from the entry for `k` on. */
  function From(c: Chain, k: Key): Chain {
    if c == [] || c[0].key == k then c else From(c[1..], k)
  }

  function KeysOf(c: Chain): (ks: seq<Key>)
    ensures |ks| == |c| && forall i :: 0 <= i < |c| ==> ks[i] == c[i].key
  {
    seq(|c|, i requires 0 <= i < |c| => c[i].key)
  }

  ghost predicate IterOk(d: D, it: Iter) {
    && it.table <= 1 && it.index >= -1
    && (it.table == 1 ==> Rehashing(d) && it.index >= 0)
    && (it.entry.Some? ==>
          && 0 <= it.index < |Buckets(d, it.table)|
          && (it.next.Some? ==> ChainGet(Buckets(d, it.table)[it.index], it.next.value).Some?))
  }

  /** One pass through the loop of dictNext: either the next entry, or a move to the next
      bucket or table, or the end. */
  datatype Found = Yield(key: Key) | Again | End

  function Pass(d: D, it: Iter): (Iter, Found)
    requires IterOk(d, it)
  {
    if it.entry.None? then
      var i := it.index + 1;
      if i < |Buckets(d, it.table)| then Land(Buckets(d, it.table)[i], it.(index := i))
      else if Rehashing(d) && it.table == 0 && d.ht1.buckets != [] then Land(d.ht1.buckets[0], it.(table := 1, index := 0))
      else (it.(index := i), End)
    else if it.next.None? then (it.(entry := None), Again)
    else
      var c := From(Buckets(d, it.table)[it.index], it.next.value);
      (it.(entry := it.next, next := if c == [] then None else HeadKey(c[1..])), Yield(it.next.value))
  }

  /** Start on a new chain. */
  function Land(c: Chain, it: Iter): (Iter, Found) {
    if c == [] then (it.(entry := None), Again)
    else (it.(entry := HeadKey(c), next := HeadKey(c[1..])), Yield(c[0].key))
  }

  // ----- what is still ahead of an iterator

  function FlatFrom(bs: seq<Chain>, i: nat): seq<Key>
    decreases |bs| - i
  {
    if i >= |bs| then [] else KeysOf(bs[i]) + FlatFrom(bs, i + 1)
  }

  function InChain(d: D, it: Iter): seq<Key>
    requires IterOk(d, it)
  {
    if it.entry.Some? && it.next.Some? then KeysOf(From(Buckets(d, it.table)[it.index], it.next.value)) else []
  }

  function Ahead(d: D, it: Iter): seq<Key>
    requires IterOk(d, it)
  {
    InChain(d, it) + (FlatFrom(Buckets(d, it.table), it.index + 1) + SecondTable(d, it.table))
  }

  function SecondTable(d: D, table: nat): seq<Key> {
    if table == 0 && Rehashing(d) then FlatFrom(d.ht1.buckets, 0) else []
  }

  lemma {:induction false} FromOk(c: Chain, k: Key)
    requires DistinctKeys(c) && ChainGet(c, k).Some?
    ensures From(c, k) != [] && From(c, k)[0].key == k
    ensures KeysOf(From(c, k)) == [k] + KeysOf(From(c, k)[1..])
    ensures From(c, k)[1..] != [] ==>
              ChainGet(c, From(c, k)[1].key).Some? && From(c, From(c, k)[1].key) == From(c, k)[1..]
  {
    if c[0].key != k {
      NoDupTail(c);
      FromOk(c[1..], k);
      if From(c, k)[1..] != [] {
        var k' := From(c, k)[1].key;
        assert k' != c[0].key;
      }
    } else if |c| > 1 {
      assert c[1].key != c[0].key;
    }
  }

  lemma {:induction false} LandAhead(d: D, it: Iter, h: Hash)
    requires Ok(h, d) && IterOk(d, it) && it.entry.None? && 0 <= it.index < |Buckets(d, it.table)|
    ensures var c := Buckets(d, it.table)[it.index];
            var (it', f) := Land(c, it);
            && IterOk(d, it') && it'.table == it.table && it'.index == it.index
            && (c == [] ==> f == Again && InChain(d, it') == [])
            && (c != [] ==> f == Yield(c[0].key) && KeysOf(c) == [c[0].key] + InChain(d, it'))
  {
    var bs := Buckets(d, it.table);
    var c := bs[it.index];
    assert BucketOk(h, bs, it.index);
    if |c| > 1 {
      assert c[1].key != c[0].key;
      assert From(c, c[1].key) == c[1..];
      ChainGetIn(c, c[1].key);
    }
  }

  ghost predicate PassOk(d: D, it: Iter, it': Iter, f: Found)
    requires IterOk(d, it)
  {
    && IterOk(d, it')
    && (f.Yield? ==> Ahead(d, it) == [f.key] + Ahead(d, it'))
    && (f.Again? ==> Ahead(d, it) == Ahead(d, it'))
    && (f.End? ==> Ahead(d, it) == [] && Ahead(d, it') == [] && it'.entry.None?)
  }

  lemma {:induction false} PassBucket(h: Hash, d: D, it: Iter)
    requires Ok(h, d) && IterOk(d, it) && it.entry.None? && it.index + 1 < |Buckets(d, it.table)|
    ensures PassOk(d, it, Pass(d, it).0, Pass(d, it).1)
  {
    var i, bs, rest := it.index + 1, Buckets(d, it.table), SecondTable(d, it.table);
    LandAhead(d, it.(index := i), h);
    var it' := Pass(d, it).0;
    var tail := FlatFrom(bs, i + 1);
    Assoc([], KeysOf(bs[i]), tail, rest);
    if bs[i] == [] {
      assert KeysOf(bs[i]) == [];
    } else {
      Assoc([bs[i][0].key], InChain(d, it'), tail, rest);
    }
  }

  lemma {:induction false} Assoc(a: seq<Key>, b: seq<Key>, c: seq<Key>, e: seq<Key>)
    ensures ((a + b) + c) + e == a + (b + (c + e))
    ensures [] + ((b + c) + e) == b + (c + e) && [] + (c + e) == c + e
    ensures (a + b) + (c + e) == a + (b + (c + e))
  {
  }

  lemma {:induction false} PassTable(h: Hash, d: D, it: Iter)
    requires Ok(h, d) && IterOk(d, it) && it.entry.None? && it.index + 1 >= |d.ht0.buckets|
    requires Rehashing(d) && it.table == 0
    ensures PassOk(d, it, Pass(d, it).0, Pass(d, it).1)
  {
    var c := d.ht1.buckets[0];
    LandAhead(d, it.(table := 1, index := 0), h);
    var (it', f) := Land(c, it.(table := 1, index := 0));
    assert Pass(d, it) == (it', f);
    AheadSecond(d, it, it');
    PassParts(d, it, it', f, c, FlatFrom(d.ht1.buckets, 1));
  }

  lemma PassParts(d: D, it: Iter, it': Iter, f: Found, c: Chain, tail: seq<Key>)
    requires IterOk(d, it) && IterOk(d, it')
    requires c == [] ==> f == Again && InChain(d, it') == []
    requires c != [] ==> f == Yield(c[0].key) && KeysOf(c) == [c[0].key] + InChain(d, it')
    requires Ahead(d, it) == KeysOf(c) + tail && Ahead(d, it') == InChain(d, it') + tail
    ensures PassOk(d, it, it', f)
  {
    var chain := InChain(d, it');
    if c == [] {
      assert KeysOf(c) == [];
    } else {
      Grouped(c[0].key, chain, tail);
    }
  }

  lemma Grouped(k: Key, a: seq<Key>, b: seq<Key>)
    ensures ([k] + a) + b == [k] + (a + b)
  {
  }

  /** In front of the second table and on its first chain. */
  lemma AheadSecond(d: D, it: Iter, it': Iter)
    requires IterOk(d, it) && it.entry.None? && it.table == 0 && it.index + 1 >= |d.ht0.buckets| && Rehashing(d)
    requires IterOk(d, it') && it'.table == 1 && it'.index == 0 && d.ht1.buckets != []
    ensures Ahead(d, it) == KeysOf(d.ht1.buckets[0]) + FlatFrom(d.ht1.buckets, 1)
    ensures Ahead(d, it') == InChain(d, it') + FlatFrom(d.ht1.buckets, 1)
  {
    assert FlatFrom(d.ht0.buckets, it.index + 1) == [];
    assert SecondTable(d, 1) == [];
  }

  lemma {:induction false} PassChain(h: Hash, d: D, it: Iter)
    requires Ok(h, d) && IterOk(d, it) && it.entry.Some?
    ensures PassOk(d, it, Pass(d, it).0, Pass(d, it).1)
  {
    if it.next.Some? {
      var bs := Buckets(d, it.table);
      assert BucketOk(h, bs, it.index);
      FromOk(bs[it.index], it.next.value);
      var it' := Pass(d, it).0;
      assert InChain(d, it) == [it.next.value] + InChain(d, it');
      Assoc([it.next.value], InChain(d, it'), FlatFrom(bs, it.index + 1), SecondTable(d, it.table));
    }
  }

  /** Each pass yields the first key that was ahead, or loses nothing. */
  lemma {:induction false} PassAhead(h: Hash, d: D, it: Iter)
    requires Ok(h, d) && IterOk(d, it)
    ensures PassOk(d, it, Pass(d, it).0, Pass(d, it).1)
  {
    if it.entry.Some? {
      PassChain(h, d, it);
    } else if it.index + 1 < |Buckets(d, it.table)| {
      PassBucket(h, d, it);
    } else if Rehashing(d) && it.table == 0 {
      PassTable(h, d, it);
    }
  }

  function Distance(d: D, it: Iter): nat
    requires IterOk(d, it)
  {
    (if it.table == 0 && Rehashing(d) then |d.ht1.buckets| + 1 else 0)
    + (if it.index < |Buckets(d, it.table)| then 2 * (|Buckets(d, it.table)| - it.index) else 0)
    + (if it.table == 0 && Rehashing(d) then |d.ht1.buckets| else 0)
    + (if it.entry.Some? then 1 else 0)
  }

  /** dictNext: pass until an entry or the end is reached. */
  function Next(h: Hash, d: D, it: Iter): (r: (Iter, Option<Key>))
    requires Ok(h, d) && IterOk(d, it)
    ensures IterOk(d, r.0)
    ensures Ahead(d, it) == match r.1 { case Some(k) => [k] + Ahead(d, r.0) case None => [] }
    ensures r.1.None? ==> Ahead(d, r.0) == []
    decreases Distance(d, it)
  {
    PassAhead(h, d, it);
    var (it', f) := Pass(d, it);
    match f
    case Yield(k) => (it', Some(k))
    case End => (it', None)
    case Again => Next(h, d, it')
  }

  lemma {:induction false} NextUnfold(h: Hash, d: D, it: Iter)
    requires Ok(h, d) && IterOk(d, it)
    ensures var (it', f) := Pass(d, it);
            && IterOk(d, it')
            && (f.Yield? ==> Next(h, d, it) == (it', Some(f.key)))
            && (f.End? ==> Next(h, d, it) == (it', None))
            && (f.Again? ==> Next(h, d, it) == Next(h, d, it') && Distance(d, it') < Distance(d, it))
  {
    PassAhead(h, d, it);
  }

  // ----- adding does not disturb an iteration

  lemma {:induction false} FlatFromBeyond(bs: seq<Chain>, i: nat, j: nat, c: Chain)
    requires j < |bs| && j < i
    ensures FlatFrom(bs[j := c], i) == FlatFrom(bs, i)
    decreases |bs| - i
  {
    if i < |bs| { FlatFromBeyond(bs, i + 1, j, c); }
  }

  /** Pushing a new key in front of a chain leaves the part after a saved position alone. */
  lemma {:induction false} FromPush(c: Chain, e: Entry, k: Key)
    requires e.key != k && ChainGet(c, k).Some?
    ensures From([e] + c, k) == From(c, k) && ChainGet([e] + c, k).Some?
  {
    assert ([e] + c)[1..] == c;
  }

  /** Keys other than `k` occur as often as before. */
  ghost predicate OnlyTouches(a: seq<Key>, a': seq<Key>, k: Key) {
    forall x :: x != k ==> multiset(a')[x] == multiset(a)[x]
  }

  lemma {:induction false} FlatFromEmpty(bs: seq<Chain>, i: nat)
    requires forall j :: 0 <= j < |bs| ==> bs[j] == []
    ensures FlatFrom(bs, i) == []
    decreases |bs| - i
  {
    if i < |bs| { FlatFromEmpty(bs, i + 1); }
  }

  /** Growing adds a table of empty chains. */
  lemma {:induction false} GrowAhead(h: Hash, cfg: Config, d: D, it: Iter)
    requires Ok(h, d) && IterOk(d, it)
    ensures d.ht0.used >= 0 && IterOk(ExpandIfNeeded(cfg, d).0, it)
    ensures Ahead(ExpandIfNeeded(cfg, d).0, it) == Ahead(d, it)
  {
    ExpandOk(h, cfg, d);
    var d' := ExpandIfNeeded(cfg, d).0;
    if d.ht0.buckets == [] {
      assert d'.ht0.buckets == EmptyBuckets(INITIAL_SIZE);
      FlatFromEmpty(d'.ht0.buckets, it.index + 1);
    } else if d' != d {
      assert d'.ht1.buckets == EmptyBuckets(NextPower(d.ht0.used * 2));
      FlatFromEmpty(d'.ht1.buckets, 0);
    }
  }

  lemma TouchConcat(a: seq<Key>, a': seq<Key>, b: seq<Key>, b': seq<Key>, k: Key)
    requires OnlyTouches(a, a', k) && OnlyTouches(b, b', k)
    ensures OnlyTouches(a + b, a' + b', k)
  {
    forall x | x != k ensures multiset(a' + b')[x] == multiset(a + b)[x] {
      assert multiset(a')[x] == multiset(a)[x] && multiset(b')[x] == multiset(b)[x];
    }
  }

  /** A chain of the table changes in one key. */
  lemma {:induction false} ChainTouched(bs: seq<Chain>, j: nat, c: Chain, i: nat, k: Key)
    requires j < |bs| && OnlyTouches(KeysOf(bs[j]), KeysOf(c), k)
    ensures OnlyTouches(FlatFrom(bs, i), FlatFrom(bs[j := c], i), k)
    decreases |bs| - i
  {
    var bs' := bs[j := c];
    if j < i {
      FlatFromBeyond(bs, i, j, c);
    } else {
      ChainTouched(bs, j, c, i + 1, k);
      assert OnlyTouches(KeysOf(bs[i]), KeysOf(bs'[i]), k);
      TouchConcat(KeysOf(bs[i]), KeysOf(bs'[i]), FlatFrom(bs, i + 1), FlatFrom(bs', i + 1), k);
    }
  }

  /** A push into the table the iterator is in. */
  lemma {:induction false} PushAhead(bs: seq<Chain>, j: nat, e: Entry, i: nat)
    requires j < |bs|
    ensures OnlyTouches(FlatFrom(bs, i), FlatFrom(bs[j := [e] + bs[j]], i), e.key)
  {
    assert KeysOf([e] + bs[j]) == [e.key] + KeysOf(bs[j]);
    ChainTouched(bs, j, [e] + bs[j], i, e.key);
  }

  lemma {:induction false} InChainInsert(h: Hash, d: D, it: Iter, e: Entry)
    requires Ok(h, d) && IterOk(d, it) && d.ht0.buckets != [] && Get(h, d, e.key).None?
    ensures IterOk(Insert(h, d, e), it) && InChain(Insert(h, d, e), it) == InChain(d, it)
  {
    var bs, bs' := Buckets(d, it.table), Buckets(Insert(h, d, e), it.table);
    if it.entry.Some? && it.next.Some? && bs'[it.index] != bs[it.index] {
      FromPush(bs[it.index], e, it.next.value);
    }
  }

  lemma {:induction false} TableAhead(h: Hash, d: D, it: Iter, e: Entry)
    requires Ok(h, d) && IterOk(d, it) && d.ht0.buckets != [] && Get(h, d, e.key).None?
    ensures var d' := Insert(h, d, e);
            OnlyTouches(FlatFrom(Buckets(d, it.table), it.index + 1), FlatFrom(Buckets(d', it.table), it.index + 1), e.key)
  {
    var bs := if Rehashing(d) then d.ht1.buckets else d.ht0.buckets;
    PushAhead(bs, Bucket(h, bs, e.key), e, it.index + 1);
  }

  lemma {:induction false} SecondAhead(h: Hash, d: D, table: nat, e: Entry)
    requires Ok(h, d) && d.ht0.buckets != [] && Get(h, d, e.key).None?
    ensures OnlyTouches(SecondTable(d, table), SecondTable(Insert(h, d, e), table), e.key)
  {
    var bs := if Rehashing(d) then d.ht1.buckets else d.ht0.buckets;
    PushAhead(bs, Bucket(h, bs, e.key), e, 0);
  }

  lemma {:induction false} InsertAhead(h: Hash, d: D, it: Iter, e: Entry)
    requires Ok(h, d) && IterOk(d, it) && d.ht0.buckets != [] && Get(h, d, e.key).None?
    ensures IterOk(Insert(h, d, e), it) && OnlyTouches(Ahead(d, it), Ahead(Insert(h, d, e), it), e.key)
  {
    InChainInsert(h, d, it, e);
    TableAhead(h, d, it, e);
    SecondAhead(h, d, it.table, e);
    AheadParts(d, Insert(h, d, e), it, e.key);
  }

  lemma {:induction false} AheadParts(d: D, d': D, it: Iter, k: Key)
    requires IterOk(d, it) && IterOk(d', it)
    requires OnlyTouches(InChain(d, it), InChain(d', it), k)
    requires OnlyTouches(FlatFrom(Buckets(d, it.table), it.index + 1), FlatFrom(Buckets(d', it.table), it.index + 1), k)
    requires OnlyTouches(SecondTable(d, it.table), SecondTable(d', it.table), k)
    ensures OnlyTouches(Ahead(d, it), Ahead(d', it), k)
  {
    var f, f' := FlatFrom(Buckets(d, it.table), it.index + 1), FlatFrom(Buckets(d', it.table), it.index + 1);
    var g, g' := SecondTable(d, it.table), SecondTable(d', it.table);
    TouchConcat(f, f', g, g', k);
    TouchConcat(InChain(d, it), InChain(d', it), f + g, f' + g', k);
  }

  /** With an iterator running, adding a key changes what is ahead only in that key. */
  lemma {:induction false} AddAhead(h: Hash, cfg: Config, d: D, it: Iter, k: Key, v: Val)
    requires Ok(h, d) && IterOk(d, it) && d.iterators > 0
    ensures var d' := Add(h, cfg, d, k, v).0;
            && IterOk(d', it)
            && (if Get(h, d, k).Some? then Ahead(d', it) == Ahead(d, it) else OnlyTouches(Ahead(d, it), Ahead(d', it), k))
  {
    ExpandOk(h, cfg, d);
    GrowAhead(h, cfg, d, it);
    var d2 := ExpandIfNeeded(cfg, d).0;
    assert Get(h, d2, k) == Get(h, d, k);
    if Get(h, d2, k).None? {
      InsertAhead(h, d2, it, Entry(k, v));
      assert Add(h, cfg, d, k, v).0 == Insert(h, d2, Entry(k, v));
    } else {
      assert Add(h, cfg, d, k, v).0 == d2;
    }
  }

  // ----- nor does deleting, but for the entry the iterator has saved

  /** The next entry is saved before an entry is returned, so that the one returned may go. */
  predicate Saved(it: Iter, k: Key) {
    it.entry.Some? && it.next == Some(k)
  }

  /** Taking an entry out of a chain leaves the part from a saved entry on, less that entry. */
  lemma {:induction false} FromRemove(c: Chain, k: Key, x: Key)
    requires DistinctKeys(c) && x != k && ChainGet(c, x).Some?
    ensures ChainGet(ChainRemove(c, k), x).Some? && From(ChainRemove(c, k), x) == ChainRemove(From(c, x), k)
  {
    NoDupTail(c);
    if c[0].key == k {
      FromWithout(c[1..], k, x);
    } else if c[0].key != x {
      FromRemove(c[1..], k, x);
      assert ([c[0]] + ChainRemove(c[1..], k))[1..] == ChainRemove(c[1..], k);
    }
  }

  lemma {:induction false} FromWithout(c: Chain, k: Key, x: Key)
    requires forall i :: 0 <= i < |c| ==> c[i].key != k
    ensures ChainRemove(From(c, x), k) == From(c, x)
  {
    if c != [] && c[0].key != x { FromWithout(c[1..], k, x); } else { RemoveAbsent(c, k); }
  }

  lemma {:induction false} RemoveAbsent(c: Chain, k: Key)
    requires forall i :: 0 <= i < |c| ==> c[i].key != k
    ensures ChainRemove(c, k) == c
  {
    if c != [] { RemoveAbsent(c[1..], k); }
  }

  lemma KeysCons(e: Entry, c: Chain)
    ensures KeysOf([e] + c) == [e.key] + KeysOf(c)
  {
  }

  lemma {:induction false} RemoveTouches(c: Chain, k: Key)
    ensures OnlyTouches(KeysOf(c), KeysOf(ChainRemove(c, k)), k)
  {
    if c != [] {
      var e, rest := c[0], c[1..];
      assert c == [e] + rest;
      KeysCons(e, rest);
      if e.key == k {
        HeadTouches(k, KeysOf(rest));
      } else {
        RemoveTouches(rest, k);
        KeysCons(e, ChainRemove(rest, k));
        TouchConcat([e.key], [e.key], KeysOf(rest), KeysOf(ChainRemove(rest, k)), k);
      }
    }
  }

  lemma HeadTouches(k: Key, a: seq<Key>)
    ensures OnlyTouches([k] + a, a, k)
  {
  }

  /** A table is as before, or one chain has lost its entry for k. */
  ghost predicate Taken(bs: seq<Chain>, bs': seq<Chain>, k: Key) {
    bs' == bs || exists j :: 0 <= j < |bs| && bs' == bs[j := ChainRemove(bs[j], k)]
  }

  lemma TakeOutTables(h: Hash, d: D, k: Key, table: nat)
    requires Get(h, d, k).Some?
    ensures Taken(Buckets(d, table), Buckets(TakeOut(h, d, k), table), k)
    ensures Rehashing(TakeOut(h, d, k)) == Rehashing(d)
  {
    var bs, bs' := Buckets(d, table), Buckets(TakeOut(h, d, k), table);
    if bs' != bs { assert bs' == bs[Bucket(h, bs, k) := ChainRemove(bs[Bucket(h, bs, k)], k)]; }
  }

  lemma TakenAhead(bs: seq<Chain>, bs': seq<Chain>, i: nat, k: Key)
    requires Taken(bs, bs', k)
    ensures OnlyTouches(FlatFrom(bs, i), FlatFrom(bs', i), k)
  {
    if bs' != bs {
      var j :| 0 <= j < |bs| && bs' == bs[j := ChainRemove(bs[j], k)];
      RemoveTouches(bs[j], k);
      ChainTouched(bs, j, bs'[j], i, k);
    }
  }

  lemma TakenChain(c: Chain, c': Chain, k: Key, x: Key)
    requires DistinctKeys(c) && x != k && ChainGet(c, x).Some? && (c' == c || c' == ChainRemove(c, k))
    ensures ChainGet(c', x).Some? && OnlyTouches(KeysOf(From(c, x)), KeysOf(From(c', x)), k)
  {
    FromRemove(c, k, x);
    RemoveTouches(From(c, x), k);
  }

  lemma InChainTakeOut(h: Hash, d: D, d': D, it: Iter, k: Key)
    requires Ok(h, d) && IterOk(d, it) && !Saved(it, k)
    requires Taken(Buckets(d, it.table), Buckets(d', it.table), k) && Rehashing(d') == Rehashing(d)
    ensures IterOk(d', it) && OnlyTouches(InChain(d, it), InChain(d', it), k)
  {
    var bs, bs' := Buckets(d, it.table), Buckets(d', it.table);
    if it.entry.Some? && it.next.Some? {
      assert BucketOk(h, bs, it.index);
      TakenChain(bs[it.index], bs'[it.index], k, it.next.value);
    }
  }

  lemma TakeOutAhead(h: Hash, d: D, it: Iter, k: Key)
    requires Ok(h, d) && IterOk(d, it) && Get(h, d, k).Some? && !Saved(it, k)
    ensures IterOk(TakeOut(h, d, k), it) && OnlyTouches(Ahead(d, it), Ahead(TakeOut(h, d, k), it), k)
  {
    var d' := TakeOut(h, d, k);
    TakeOutTables(h, d, k, it.table);
    TakeOutTables(h, d, k, 1);
    InChainTakeOut(h, d, d', it, k);
    TakenAhead(Buckets(d, it.table), Buckets(d', it.table), it.index + 1, k);
    TakenAhead(d.ht1.buckets, d'.ht1.buckets, 0, k);
    AheadParts(d, d', it, k);
  }

  /** With an iterator running, deleting a key changes what is ahead only in that key. */
  lemma DeleteAhead(h: Hash, d: D, it: Iter, k: Key)
    requires Ok(h, d) && IterOk(d, it) && d.iterators > 0 && !Saved(it, k)
    ensures var d' := Delete(h, d, k).0;
            && Ok(h, d') && d'.iterators == d.iterators && IterOk(d', it)
            && OnlyTouches(Ahead(d, it), Ahead(d', it), k)
  {
    DeleteOk(h, d, k);
    if !(d.ht0.used == 0 && d.ht1.used == 0) && Get(h, d, k).Some? { TakeOutAhead(h, d, it, k); }
  }

  lemma DeleteKeeps(h: Hash, d: D, k: Key, x: Key)
    requires Ok(h, d) && d.iterators > 0
    ensures Get(h, Delete(h, d, k).0, x) == if x == k then None else Get(h, d, x)
  {
    if d.ht0.used == 0 && d.ht1.used == 0 {
      EmptyGet(h, d, x);
    } else if Get(h, d, k).Some? {
      TakeOutOk(h, d, k);
    }
  }

  lemma EmptyGet(h: Hash, d: D, x: Key)
    requires Ok(h, d) && d.ht0.used == 0 && d.ht1.used == 0
    ensures Get(h, d, x).None?
  {
    EmptyLookup(h, d.ht0, x);
    EmptyLookup(h, d.ht1, x);
  }

  // ----- sessions

  /** What happens while the iterator is in use. */
  datatype Event = EvNext | EvAdd(key: Key, val: Val) | EvFind(key: Key) | EvDelete(key: Key)

  datatype Session = Session(d: D, it: Iter, returned: seq<Key>)

  ghost predicate SessionOk(h: Hash, s: Session) {
    Ok(h, s.d) && IterOk(s.d, s.it) && s.d.iterators > 0
  }

  /** The first dictNext of a safe iterator registers it with the dict. */
  function Begin(d: D): Session {
    Session(d.(iterators := d.iterators + 1), NewIter, [])
  }

  /** Nothing is said any more once the entry the iterator has saved is deleted: the code keeps a
      pointer to it. */
  ghost function Play(h: Hash, cfg: Config, s: Session, ev: Event): (r: Option<Session>)
    requires SessionOk(h, s)
    ensures r.Some? ==> SessionOk(h, r.value)
    ensures r.None? <==> ev.EvDelete? && Saved(s.it, ev.key)
  {
    match ev
    case EvNext =>
      var (it, r) := Next(h, s.d, s.it);
      Some(Session(s.d, it, if r.Some? then s.returned + [r.value] else s.returned))
    case EvAdd(k, v) =>
      AddOk(h, cfg, s.d, k, v);
      AddAhead(h, cfg, s.d, s.it, k, v);
      Some(s.(d := Add(h, cfg, s.d, k, v).0))
    case EvFind(k) => Some(s.(d := Find(h, s.d, k).0))
    case EvDelete(k) =>
      if Saved(s.it, k) then None
      else
        DeleteAhead(h, s.d, s.it, k);
        Some(s.(d := Delete(h, s.d, k).0))
  }

  ghost function PlayAll(h: Hash, cfg: Config, s: Session, evs: seq<Event>): (r: Option<Session>)
    requires SessionOk(h, s)
    ensures r.Some? ==> SessionOk(h, r.value)
  {
    if evs == [] then Some(s)
    else
      match PlayAll(h, cfg, s, evs[..|evs| - 1])
      case None => None
      case Some(t) => Play(h, cfg, t, evs[|evs| - 1])
  }

  /** `k` is in the dict, and was returned or is ahead, once in all. */
  ghost predicate Once(h: Hash, s: Session, k: Key)
    requires SessionOk(h, s)
  {
    Get(h, s.d, k).Some? && multiset(s.returned)[k] + multiset(Ahead(s.d, s.it))[k] == 1
  }

  lemma {:induction false} PlayOnce(h: Hash, cfg: Config, s: Session, ev: Event, k: Key)
    requires SessionOk(h, s) && Once(h, s, k) && ev != EvDelete(k)
    ensures var r := Play(h, cfg, s, ev); r.Some? ==> Once(h, r.value, k)
  {
    match ev
    case EvNext => PlayNextOnce(h, cfg, s, k);
    case EvAdd(k', v) => PlayAddOnce(h, cfg, s, k', v, k);
    case EvFind(k') => PlayFindOnce(h, cfg, s, k', k);
    case EvDelete(k') => if !Saved(s.it, k') { PlayDeleteOnce(h, cfg, s, k', k); }
  }

  lemma PlayNextOnce(h: Hash, cfg: Config, s: Session, k: Key)
    requires SessionOk(h, s) && Once(h, s, k)
    ensures Once(h, Play(h, cfg, s, EvNext).value, k)
  {
    NextOnce(h, s.d, s.it, s.returned, k);
  }

  lemma PlayFindOnce(h: Hash, cfg: Config, s: Session, k': Key, k: Key)
    requires SessionOk(h, s) && Once(h, s, k)
    ensures Once(h, Play(h, cfg, s, EvFind(k')).value, k)
  {
    assert Find(h, s.d, k').0 == s.d;
  }

  lemma PlayAddOnce(h: Hash, cfg: Config, s: Session, k': Key, v: Val, k: Key)
    requires SessionOk(h, s) && Once(h, s, k)
    ensures Once(h, Play(h, cfg, s, EvAdd(k', v)).value, k)
  {
    AddOnce(h, cfg, s, k', v, k);
  }

  lemma PlayDeleteOnce(h: Hash, cfg: Config, s: Session, k': Key, k: Key)
    requires SessionOk(h, s) && Once(h, s, k) && k' != k && !Saved(s.it, k')
    ensures Once(h, Play(h, cfg, s, EvDelete(k')).value, k)
  {
    PlayDelete(h, cfg, s, k');
    DeleteOnce(h, s, k', k);
  }

  lemma PlayDelete(h: Hash, cfg: Config, s: Session, k': Key)
    requires SessionOk(h, s) && !Saved(s.it, k')
    ensures Play(h, cfg, s, EvDelete(k')) == Some(s.(d := Delete(h, s.d, k').0))
  {
  }

  lemma AddOnce(h: Hash, cfg: Config, s: Session, k': Key, v: Val, k: Key)
    requires SessionOk(h, s) && Once(h, s, k)
    ensures var t := s.(d := Add(h, cfg, s.d, k', v).0); SessionOk(h, t) && Once(h, t, k)
  {
    AddOk(h, cfg, s.d, k', v);
    AddAhead(h, cfg, s.d, s.it, k', v);
    AddKeeps(h, cfg, s.d, k', v, k);
  }

  lemma DeleteOnce(h: Hash, s: Session, k': Key, k: Key)
    requires SessionOk(h, s) && Once(h, s, k) && k' != k && !Saved(s.it, k')
    ensures var t := s.(d := Delete(h, s.d, k').0); SessionOk(h, t) && Once(h, t, k)
  {
    DeleteAhead(h, s.d, s.it, k');
    DeleteKeeps(h, s.d, k', k);
  }

  lemma {:induction false} NextOnce(h: Hash, d: D, it: Iter, returned: seq<Key>, k: Key)
    requires Ok(h, d) && IterOk(d, it)
    ensures var (it', r) := Next(h, d, it);
            var returned' := if r.Some? then returned + [r.value] else returned;
            multiset(returned')[k] + multiset(Ahead(d, it'))[k] == multiset(returned)[k] + multiset(Ahead(d, it))[k]
  {
  }

  lemma {:induction false} AddKeeps(h: Hash, cfg: Config, d: D, k: Key, v: Val, k': Key)
    requires Ok(h, d) && d.iterators > 0
    ensures Get(h, d, k').Some? ==> Get(h, Add(h, cfg, d, k, v).0, k').Some?
    ensures k' != k ==> Get(h, Add(h, cfg, d, k, v).0, k') == Get(h, d, k')
  {
    ExpandOk(h, cfg, d);
    var d2 := ExpandIfNeeded(cfg, d).0;
    if Get(h, d2, k).None? { InsertOk(h, d2, Entry(k, v)); }
  }

  // ----- at the start every stored key is ahead once

  lemma {:induction false} FlatFromCount(h: Hash, t: Table, i: nat, k: Key)
    requires TableOk(h, t)
    ensures multiset(FlatFrom(t.buckets, i))[k]
         == if t.buckets != [] && i <= Bucket(h, t.buckets, k) && Lookup(h, t.buckets, k).Some? then 1 else 0
    decreases |t.buckets| - i
  {
    if i < |t.buckets| {
      FlatFromCount(h, t, i + 1, k);
      assert BucketOk(h, t.buckets, i);
      ChainCount(t.buckets[i], k);
      KeyInBucket(h, t, i, k);
    }
  }

  lemma {:induction false} ChainCount(c: Chain, k: Key)
    requires DistinctKeys(c)
    ensures multiset(KeysOf(c))[k] == if ChainGet(c, k).Some? then 1 else 0
  {
    if c != [] {
      NoDupTail(c);
      ChainCount(c[1..], k);
      assert KeysOf(c) == [c[0].key] + KeysOf(c[1..]);
    }
  }

  lemma {:induction false} BeginOnce(h: Hash, d: D, k: Key)
    requires Ok(h, d) && Get(h, d, k).Some?
    ensures SessionOk(h, Begin(d)) && Once(h, Begin(d), k)
  {
    FlatFromCount(h, d.ht0, 0, k);
    FlatFromCount(h, d.ht1, 0, k);
  }

  lemma {:induction false} PlayAllOnce(h: Hash, cfg: Config, s: Session, evs: seq<Event>, k: Key)
    requires SessionOk(h, s) && Once(h, s, k) && EvDelete(k) !in evs
    ensures var r := PlayAll(h, cfg, s, evs); r.Some? ==> Once(h, r.value, k)
  {
    if evs != [] {
      PlayAllOnce(h, cfg, s, evs[..|evs| - 1], k);
      match PlayAll(h, cfg, s, evs[..|evs| - 1])
      case None =>
      case Some(t) => PlayOnce(h, cfg, t, evs[|evs| - 1], k);
    }
  }

  /** Whatever adds, finds and deletes run between the calls of dictNext, mid-rehash or not, as long
      as the saved entry is not deleted: an entry present at the start and not deleted is never
      returned twice, and when dictNext has nothing more to return, it has been returned. */
  lemma {:induction false} SafeIterationExactlyOnce(h: Hash, cfg: Config, d: D, evs: seq<Event>, k: Key)
    requires Ok(h, d) && Get(h, d, k).Some? && EvDelete(k) !in evs
    ensures SessionOk(h, Begin(d))
    ensures var r := PlayAll(h, cfg, Begin(d), evs);
            r.Some? ==>
              && multiset(r.value.returned)[k] <= 1
              && (Next(h, r.value.d, r.value.it).1.None? ==> multiset(r.value.returned)[k] == 1)
  {
    BeginOnce(h, d, k);
    PlayAllOnce(h, cfg, Begin(d), evs, k);
  }

  // ----- a deleted entry is not returned any more

  lemma FromIn(c: Chain, x: Key, k: Key)
    requires k in KeysOf(From(c, x))
    ensures k in KeysOf(c)
    decreases |c|
  {
    if c != [] && c[0].key != x {
      FromIn(c[1..], x, k);
      assert KeysOf(c) == [c[0].key] + KeysOf(c[1..]);
    }
  }

  lemma AheadStored(h: Hash, d: D, it: Iter, k: Key)
    requires Ok(h, d) && IterOk(d, it) && Get(h, d, k).None?
    ensures k !in Ahead(d, it)
  {
    var t := if it.table == 0 then d.ht0 else d.ht1;
    TableStored(h, t, it.index + 1, k);
    TableStored(h, d.ht1, 0, k);
    ChainStored(h, d, it, k);
    InNone(InChain(d, it), FlatFrom(t.buckets, it.index + 1), SecondTable(d, it.table), k);
  }

  lemma TableStored(h: Hash, t: Table, i: nat, k: Key)
    requires TableOk(h, t) && Lookup(h, t.buckets, k).None?
    ensures k !in FlatFrom(t.buckets, i)
  {
    FlatFromCount(h, t, i, k);
  }

  lemma InNone(a: seq<Key>, b: seq<Key>, c: seq<Key>, k: Key)
    requires k !in a && k !in b && k !in c
    ensures k !in a + (b + c)
  {
  }

  lemma ChainStored(h: Hash, d: D, it: Iter, k: Key)
    requires Ok(h, d) && IterOk(d, it) && Get(h, d, k).None?
    ensures k !in InChain(d, it)
  {
    if k in InChain(d, it) {
      var t := if it.table == 0 then d.ht0 else d.ht1;
      FromIn(t.buckets[it.index], it.next.value, k);
      FlatFromCount(h, t, it.index, k);
    }
  }

  /** `k` is not in the dict, and was returned n times. */
  ghost predicate Gone(h: Hash, s: Session, k: Key, n: nat) {
    Get(h, s.d, k).None? && multiset(s.returned)[k] == n
  }

  lemma {:induction false} PlayGone(h: Hash, cfg: Config, s: Session, ev: Event, k: Key, n: nat)
    requires SessionOk(h, s) && Gone(h, s, k, n) && !(ev.EvAdd? && ev.key == k)
    ensures var r := Play(h, cfg, s, ev); r.Some? ==> Gone(h, r.value, k, n)
  {
    match ev
    case EvNext =>
      AheadStored(h, s.d, s.it, k);
    case EvAdd(k', v) => AddKeeps(h, cfg, s.d, k', v, k);
    case EvFind(_) =>
    case EvDelete(k') => DeleteKeeps(h, s.d, k', k);
  }

  lemma {:induction false} PlayAllGone(h: Hash, cfg: Config, s: Session, evs: seq<Event>, k: Key, n: nat)
    requires SessionOk(h, s) && Gone(h, s, k, n) && NotAdded(evs, k)
    ensures var r := PlayAll(h, cfg, s, evs); r.Some? ==> Gone(h, r.value, k, n)
  {
    if evs != [] {
      PlayAllGone(h, cfg, s, evs[..|evs| - 1], k, n);
      match PlayAll(h, cfg, s, evs[..|evs| - 1])
      case None =>
      case Some(t) => PlayGone(h, cfg, t, evs[|evs| - 1], k, n);
    }
  }

  ghost predicate NotAdded(evs: seq<Event>, k: Key) {
    forall i :: 0 <= i < |evs| ==> !(evs[i].EvAdd? && evs[i].key == k)
  }

  /** From the moment a key is deleted, and unless it is added again, dictNext does not return it. */
  lemma DeletedNotReturned(h: Hash, cfg: Config, s: Session, k: Key, evs: seq<Event>)
    requires SessionOk(h, s) && !Saved(s.it, k) && NotAdded(evs, k)
    ensures var t := Play(h, cfg, s, EvDelete(k)).value;
            var r := PlayAll(h, cfg, t, evs);
            r.Some? ==> Get(h, r.value.d, k).None? && multiset(r.value.returned)[k] == multiset(s.returned)[k]
  {
    var t := Play(h, cfg, s, EvDelete(k)).value;
    DeleteKeeps(h, s.d, k, k);
    PlayAllGone(h, cfg, t, evs, k, multiset(s.returned)[k]);
  }
}
