/** The operations of the dict, each defined on well-formed dicts, and the proofs that they
    refine a finite map and that a rehash finishes in time. */
module DictProofs {
  import opened Common
  import opened Entries
  import opened DictSpec

  // ----- chains

  lemma {:induction false} ChainGetIn(c: Chain, k: Key)
    ensures ChainGet(c, k).Some? <==> exists i :: 0 <= i < |c| && c[i].key == k
  {
    if c != [] && c[0].key != k {
      ChainGetIn(c[1..], k);
      if i :| 0 <= i < |c| && c[i].key == k { assert c[1..][i - 1].key == k; }
    }
  }

  lemma {:induction false} NoDupTail(c: Chain)
    requires DistinctKeys(c) && c != []
    ensures DistinctKeys(c[1..]) && ChainGet(c[1..], c[0].key).None?
  {
    ChainGetIn(c[1..], c[0].key);
  }

  lemma {:induction false} ChainRemoveOk(c: Chain, k: Key)
    requires DistinctKeys(c)
    ensures DistinctKeys(ChainRemove(c, k))
    ensures forall e :: e in ChainRemove(c, k) ==> e in c && e.key != k
    ensures forall k' :: ChainGet(ChainRemove(c, k), k') == if k' == k then None else ChainGet(c, k')
    ensures |ChainRemove(c, k)| == |c| - if ChainGet(c, k).Some? then 1 else 0
  {
    if c != [] {
      NoDupTail(c);
      if c[0].key == k {
        forall i | 0 <= i < |c[1..]| ensures c[1..][i].key != k { assert c[i + 1].key != c[0].key; }
      } else {
        ChainRemoveOk(c[1..], k);
        var r := ChainRemove(c[1..], k);
        assert ([c[0]] + r)[1..] == r;
        forall j | 0 <= j < |r| ensures r[j].key != c[0].key {
          assert r[j] in c[1..];
          ChainGetIn(c[1..], c[0].key);
        }
      }
    }
  }

  // ----- tables

  lemma {:induction false} CountUpdate(bs: seq<Chain>, i: nat, c: Chain)
    requires i < |bs|
    ensures Count(bs[i := c]) == Count(bs) - |bs[i]| + |c|
  {
    if i == 0 {
      assert bs[i := c][1..] == bs[1..];
    } else {
      CountUpdate(bs[1..], i - 1, c);
      assert bs[i := c][1..] == bs[1..][i - 1 := c];
    }
  }

  lemma {:induction false} CountEmpty(bs: seq<Chain>)
    requires forall i :: 0 <= i < |bs| ==> bs[i] == []
    ensures Count(bs) == 0
  {
    if bs != [] { CountEmpty(bs[1..]); }
  }

  /** With entries left there is a non-empty bucket. */
  lemma {:induction false} CountNonEmpty(bs: seq<Chain>) returns (i: nat)
    requires Count(bs) > 0
    ensures i < |bs| && bs[i] != []
  {
    if bs[0] != [] {
      i := 0;
    } else {
      i := CountNonEmpty(bs[1..]);
      i := i + 1;
    }
  }

  /** Replacing one chain by another well-formed chain for the same bucket. */
  lemma {:induction false} SetChain(h: Hash, t: Table, i: nat, c: Chain)
    requires TableOk(h, t) && i < |t.buckets| && DistinctKeys(c)
    requires forall j :: 0 <= j < |c| ==> h(c[j].key) % |t.buckets| == i
    ensures TableOk(h, Table(t.buckets[i := c], t.used - |t.buckets[i]| + |c|))
  {
    CountUpdate(t.buckets, i, c);
    var bs := t.buckets[i := c];
    forall j: nat | j < |t.buckets| ensures BucketOk(h, bs, j) {
      assert BucketOk(h, t.buckets, j);
    }
  }

  lemma {:induction false} PushOk(h: Hash, t: Table, e: Entry)
    requires TableOk(h, t) && t.buckets != [] && Lookup(h, t.buckets, e.key).None?
    ensures TableOk(h, Table(Push(h, t.buckets, e), t.used + 1))
    ensures forall k :: Lookup(h, Push(h, t.buckets, e), k)
                     == if k == e.key then Some(e.val) else Lookup(h, t.buckets, k)
  {
    var i := Bucket(h, t.buckets, e.key);
    var c := [e] + t.buckets[i];
    assert BucketOk(h, t.buckets, i);
    ChainGetIn(t.buckets[i], e.key);
    SetChain(h, t, i, c);
    assert c[1..] == t.buckets[i];
  }

  lemma {:induction false} PushAllOk(h: Hash, t: Table, c: Chain)
    requires TableOk(h, t) && t.buckets != [] && DistinctKeys(c)
    requires forall i :: 0 <= i < |c| ==> Lookup(h, t.buckets, c[i].key).None?
    ensures TableOk(h, Table(PushAll(h, t.buckets, c), t.used + |c|))
    ensures forall k :: Lookup(h, PushAll(h, t.buckets, c), k)
                     == if ChainGet(c, k).Some? then ChainGet(c, k) else Lookup(h, t.buckets, k)
    decreases |c|
  {
    if c != [] {
      PushOk(h, t, c[0]);
      NoDupTail(c);
      var t1 := Table(Push(h, t.buckets, c[0]), t.used + 1);
      forall i | 0 <= i < |c[1..]| ensures Lookup(h, t1.buckets, c[1..][i].key).None? {
        assert c[i + 1].key != c[0].key;
      }
      PushAllOk(h, t1, c[1..]);
    }
  }

  lemma {:induction false} RemoveOk(h: Hash, t: Table, k: Key)
    requires TableOk(h, t) && Lookup(h, t.buckets, k).Some?
    ensures TableOk(h, Remove(h, t, k))
    ensures forall k' :: Lookup(h, Remove(h, t, k).buckets, k') == if k' == k then None else Lookup(h, t.buckets, k')
  {
    var i := Bucket(h, t.buckets, k);
    assert BucketOk(h, t.buckets, i);
    ChainRemoveOk(t.buckets[i], k);
    forall j | 0 <= j < |ChainRemove(t.buckets[i], k)|
      ensures h(ChainRemove(t.buckets[i], k)[j].key) % |t.buckets| == i
    {
      assert ChainRemove(t.buckets[i], k)[j] in t.buckets[i];
    }
    SetChain(h, t, i, ChainRemove(t.buckets[i], k));
  }

  // ----- migrating one bucket

  /** Like Ok, except that the position may have reached the end of an emptied old table. */
  ghost predicate Moving(h: Hash, d: D) {
    && TableOk(h, d.ht0) && TableOk(h, d.ht1) && Apart(h, d)
    && 0 <= d.rehashidx <= |d.ht0.buckets| && d.ht0.buckets != [] && |d.ht1.buckets| > 0
    && forall i :: 0 <= i < d.rehashidx ==> d.ht0.buckets[i] == []
  }

  ghost predicate SameMap(h: Hash, d: D, d': D) {
    Total(d') == Total(d) && forall k :: Get(h, d', k) == Get(h, d, k)
  }

  lemma {:induction false} ClearBucket(h: Hash, t: Table, i: nat)
    requires TableOk(h, t) && i < |t.buckets|
    ensures var t' := Table(t.buckets[i := []], t.used - |t.buckets[i]|);
            && TableOk(h, t')
            && forall k :: Lookup(h, t'.buckets, k)
                        == if Bucket(h, t.buckets, k) == i then None else Lookup(h, t.buckets, k)
  {
    SetChain(h, t, i, []);
  }

  lemma {:induction false} MigrateOk(h: Hash, d: D, i: nat)
    requires Moving(h, d) && d.rehashidx <= i < |d.ht0.buckets|
    requires forall j :: d.rehashidx <= j < i ==> d.ht0.buckets[j] == []
    ensures Moving(h, Migrate(h, d, i)) && SameMap(h, d, Migrate(h, d, i))
  {
    var c, d' := d.ht0.buckets[i], Migrate(h, d, i);
    assert BucketOk(h, d.ht0.buckets, i);
    forall j | 0 <= j < |c| ensures Lookup(h, d.ht1.buckets, c[j].key).None? {
      ChainGetIn(c, c[j].key);
      assert Bucket(h, d.ht0.buckets, c[j].key) == i;
    }
    PushAllOk(h, d.ht1, c);
    ClearBucket(h, d.ht0, i);
    forall k ensures Get(h, d', k) == Get(h, d, k)
      ensures Lookup(h, d'.ht0.buckets, k).None? || Lookup(h, d'.ht1.buckets, k).None?
    {
      KeyInBucket(h, d.ht0, i, k);
    }
  }

  lemma {:induction false} KeyInBucket(h: Hash, t: Table, i: nat, k: Key)
    requires TableOk(h, t) && i < |t.buckets|
    ensures ChainGet(t.buckets[i], k).Some? ==> Bucket(h, t.buckets, k) == i
  {
    assert BucketOk(h, t.buckets, i);
    ChainGetIn(t.buckets[i], k);
  }

  // ----- rehash

  lemma {:induction false} SkipStaysInside(h: Hash, d: D, visits: nat)
    requires Ok(h, d) && Rehashing(d) && d.ht0.used > 0 && visits > 0
    ensures Skip(d.ht0.buckets, d.rehashidx, visits).0 < |d.ht0.buckets|
  {
    var j := CountNonEmpty(d.ht0.buckets);
    assert d.rehashidx <= j;
  }

  lemma {:induction false} OkMoving(h: Hash, d: D)
    requires Ok(h, d) && Rehashing(d)
    ensures Moving(h, d)
  {
  }

  lemma {:induction false} MovingOk(h: Hash, d: D)
    requires Moving(h, d) && d.ht0.used != 0
    ensures Ok(h, d) && Rehashing(d)
  {
    var j := CountNonEmpty(d.ht0.buckets);
  }

  lemma {:induction false} FinishOk(h: Hash, d: D)
    requires Moving(h, d) && d.ht0.used == 0
    ensures Ok(h, Finish(d)) && SameMap(h, d, Finish(d)) && !Rehashing(Finish(d))
  {
    forall k ensures Lookup(h, d.ht0.buckets, k).None? {
      EmptyLookup(h, d.ht0, k);
    }
  }

  lemma {:induction false} EmptyLookup(h: Hash, t: Table, k: Key)
    requires TableOk(h, t) && t.used == 0
    ensures Lookup(h, t.buckets, k).None?
  {
    if t.buckets != [] {
      var i := Bucket(h, t.buckets, k);
      CountUpdate(t.buckets, i, []);
    }
  }

  /** The loop of dictRehash: up to `n` non-empty buckets, `visits` empty ones. */
  function RehashLoop(h: Hash, d: D, n: nat, visits: nat): (d': D)
    requires Ok(h, d) && Rehashing(d) && (n > 0 ==> visits > 0)
    ensures Ok(h, d') && SameMap(h, d, d') && d'.iterators == d.iterators
    decreases n
  {
    OkMoving(h, d);
    if d.ht0.used == 0 then
      FinishOk(h, d);
      Finish(d)
    else if n == 0 then d
    else
      var (i, v) := Skip(d.ht0.buckets, d.rehashidx, visits);
      SkipStaysInside(h, d, visits);
      if v == 0 then d.(rehashidx := i)
      else
        MigrateOk(h, d, i);
        var d1 := Migrate(h, d, i);
        if d1.ht0.used == 0 then
          FinishOk(h, d1);
          Finish(d1)
        else
          MovingOk(h, d1);
          RehashLoop(h, d1, n - 1, v)
  }

  /** Where the loop of dictRehash stands: `target` is what it is going to reach. */
  ghost predicate LoopState(h: Hash, d: D, n: nat, visits: nat, target: D) {
    && Moving(h, d) && (n > 0 ==> visits > 0)
    && if d.ht0.used == 0 then target == Finish(d)
       else Ok(h, d) && Rehashing(d) && target == RehashLoop(h, d, n, visits)
  }

  /** One round of the loop: skip, then migrate unless the visit limit was hit. */
  lemma {:induction false} LoopRound(h: Hash, d: D, n: nat, visits: nat, target: D)
    requires LoopState(h, d, n, visits, target) && n > 0 && d.ht0.used != 0
    ensures var (i, v) := Skip(d.ht0.buckets, d.rehashidx, visits);
            && i < |d.ht0.buckets|
            && (v == 0 ==> d.(rehashidx := i) == target && Ok(h, target) && Rehashing(target))
            && (v > 0 ==> LoopState(h, Migrate(h, d, i), n - 1, v, target))
  {
    var (i, v) := Skip(d.ht0.buckets, d.rehashidx, visits);
    SkipStaysInside(h, d, visits);
    if v > 0 {
      MigrateOk(h, d, i);
      if Migrate(h, d, i).ht0.used != 0 { MovingOk(h, Migrate(h, d, i)); }
    }
  }

  lemma {:induction false} LoopDone(h: Hash, d: D, n: nat, visits: nat, target: D)
    requires LoopState(h, d, n, visits, target) && (n == 0 || d.ht0.used == 0)
    ensures target == Finish(d) && Ok(h, target) && (Rehashing(target) <==> d.ht0.used != 0)
  {
    if d.ht0.used == 0 { FinishOk(h, d); }
  }

  function Rehash(h: Hash, d: D, n: nat): (d': D)
    requires Ok(h, d)
    ensures Ok(h, d') && SameMap(h, d, d') && d'.iterators == d.iterators
  {
    if Rehashing(d) then RehashLoop(h, d, n, 10 * n) else d
  }

  /** _dictRehashStep as the operations call it: paused while safe iterators run. */
  function Step(h: Hash, d: D): (d': D)
    requires Ok(h, d)
    ensures Ok(h, d') && SameMap(h, d, d') && d'.iterators == d.iterators
  {
    if d.iterators == 0 then Rehash(h, d, 1) else d
  }

  // ----- growth

  lemma {:induction false} EmptyTableOk(h: Hash, n: nat)
    requires PowerOfTwo(n)
    ensures TableOk(h, Table(EmptyBuckets(n), 0))
    ensures forall k :: Lookup(h, EmptyBuckets(n), k).None?
  {
    CountEmpty(EmptyBuckets(n));
  }

  lemma {:induction false} UsedNonNegative(h: Hash, d: D)
    requires Ok(h, d)
    ensures d.ht0.used >= 0 && d.ht1.used >= 0 && Total(d) >= 0
    ensures d.ht0.buckets == [] ==> d.ht0.used == 0
  {
  }

  /** Growing keeps the map; after it there is a table to insert into.  The error return of
      dictExpand is never taken here. */
  lemma {:induction false} ExpandOk(h: Hash, cfg: Config, d: D)
    requires Ok(h, d)
    ensures d.ht0.used >= 0
    ensures var (d', st) := ExpandIfNeeded(cfg, d);
            && st == OK && Ok(h, d') && SameMap(h, d, d') && d'.iterators == d.iterators && d'.ht0.buckets != []
            && (Rehashing(d) ==> d' == d)
            && (d' != d && d.ht0.buckets != [] ==>
                  && Rehashing(d') && d'.rehashidx == 0 && d'.ht0 == d.ht0 && d'.ht1.used == 0
                  && d.ht0.used >= |d.ht0.buckets| && |d'.ht1.buckets| >= 2 * d.ht0.used)
  {
    UsedNonNegative(h, d);
    assert PowerOfTwo(4) by { assert PowerOfTwo(2) by { assert PowerOfTwo(1); } }
    EmptyTableOk(h, INITIAL_SIZE);
    EmptyTableOk(h, NextPower(d.ht0.used * 2));
  }

  /** Growth happens exactly when it is due: the first table has the initial size, and a full one, or
      one with too long chains when resizing is switched off, gets a new table with room for twice the
      entries and less than four times as many. */
  lemma {:induction false} GrowsIff(h: Hash, cfg: Config, d: D)
    requires Ok(h, d) && !Rehashing(d)
    ensures d.ht0.used >= 0
    ensures var d' := ExpandIfNeeded(cfg, d).0; var n, size := d.ht0.used, |d.ht0.buckets|;
            && (size == 0 ==> |d'.ht0.buckets| == INITIAL_SIZE && !Rehashing(d'))
            && (size > 0 ==> (Rehashing(d') <==> n >= size && (cfg.canResize || n / size > cfg.ratio)))
            && (size > 0 && !Rehashing(d') ==> d' == d)
            && (Rehashing(d') ==> 2 * n <= |d'.ht1.buckets| && (|d'.ht1.buckets| < 4 * n || |d'.ht1.buckets| == INITIAL_SIZE))
  {
    UsedNonNegative(h, d);
  }

  // ----- operations

  /** dictAdd: false when the key is there already. */
  function Add(h: Hash, cfg: Config, d: D, k: Key, v: Val): (D, bool)
    requires Ok(h, d)
  {
    var d1 := Step(h, d);
    ExpandOk(h, cfg, d1);
    var (d2, _) := ExpandIfNeeded(cfg, d1);
    if Get(h, d2, k).Some? then (d2, false) else (Insert(h, d2, Entry(k, v)), true)
  }

  /** A new entry goes to the new table while a rehash is under way. */
  function Insert(h: Hash, d: D, e: Entry): D
    requires Ok(h, d) && d.ht0.buckets != []
  {
    if Rehashing(d) then d.(ht1 := Table(Push(h, d.ht1.buckets, e), d.ht1.used + 1))
    else d.(ht0 := Table(Push(h, d.ht0.buckets, e), d.ht0.used + 1))
  }

  /** Take the entry for `k` out of the table that has it. */
  function TakeOut(h: Hash, d: D, k: Key): D
    requires Get(h, d, k).Some?
  {
    if Lookup(h, d.ht0.buckets, k).Some? then d.(ht0 := Remove(h, d.ht0, k))
    else d.(ht1 := Remove(h, d.ht1, k))
  }

  /** dictFind: an empty dict is answered before the rehash step. */
  function Find(h: Hash, d: D, k: Key): (D, Option<Val>)
    requires Ok(h, d)
  {
    if Total(d) == 0 then (d, None) else var d1 := Step(h, d); (d1, Get(h, d1, k))
  }

  /** dictDelete: likewise. */
  function Delete(h: Hash, d: D, k: Key): (D, bool)
    requires Ok(h, d)
  {
    if d.ht0.used == 0 && d.ht1.used == 0 then (d, false)
    else
      var d1 := Step(h, d);
      if Get(h, d1, k).Some? then (TakeOut(h, d1, k), true) else (d1, false)
  }

  // ----- refinement of a finite map

  lemma {:induction false} InsertOk(h: Hash, d: D, e: Entry)
    requires Ok(h, d) && d.ht0.buckets != [] && Get(h, d, e.key).None?
    ensures Ok(h, Insert(h, d, e)) && Total(Insert(h, d, e)) == Total(d) + 1
    ensures forall k :: Get(h, Insert(h, d, e), k) == if k == e.key then Some(e.val) else Get(h, d, k)
  {
    if Rehashing(d) {
      PushOk(h, d.ht1, e);
    } else {
      PushOk(h, d.ht0, e);
    }
  }

  lemma {:induction false} TakeOutOk(h: Hash, d: D, k: Key)
    requires Ok(h, d) && Get(h, d, k).Some?
    ensures Ok(h, TakeOut(h, d, k)) && Total(TakeOut(h, d, k)) == Total(d) - 1
    ensures forall k' :: Get(h, TakeOut(h, d, k), k') == if k' == k then None else Get(h, d, k')
  {
    if Lookup(h, d.ht0.buckets, k).Some? {
      RemoveOk(h, d.ht0, k);
      RemovedStaysEmpty(h, d, k);
    } else {
      RemoveOk(h, d.ht1, k);
    }
  }

  lemma {:induction false} RemovedStaysEmpty(h: Hash, d: D, k: Key)
    requires Ok(h, d) && Lookup(h, d.ht0.buckets, k).Some?
    ensures forall i :: 0 <= i < d.rehashidx ==> Remove(h, d.ht0, k).buckets[i] == []
  {
  }

  lemma {:induction false} SameModels(h: Hash, d: D, d': D, m: map<Key, Val>)
    requires Models(h, d, m) && SameMap(h, d, d')
    ensures Models(h, d', m)
  {
  }

  lemma {:induction false} InsertModels(h: Hash, d: D, e: Entry, m: map<Key, Val>)
    requires Ok(h, d) && d.ht0.buckets != [] && Models(h, d, m) && Get(h, d, e.key).None?
    ensures Ok(h, Insert(h, d, e)) && Models(h, Insert(h, d, e), m[e.key := e.val])
  {
    InsertOk(h, d, e);
    assert e.key !in m && |m[e.key := e.val]| == |m| + 1;
  }

  lemma {:induction false} TakeOutModels(h: Hash, d: D, k: Key, m: map<Key, Val>)
    requires Ok(h, d) && Models(h, d, m) && Get(h, d, k).Some?
    ensures Ok(h, TakeOut(h, d, k)) && Models(h, TakeOut(h, d, k), Minus(m, k))
  {
    TakeOutOk(h, d, k);
  }

  lemma {:induction false} AddRefines(h: Hash, cfg: Config, d: D, m: map<Key, Val>, k: Key, v: Val)
    requires Ok(h, d) && Models(h, d, m)
    ensures var (d', added) := Add(h, cfg, d, k, v);
            && Ok(h, d') && (added <==> k !in m) && d'.iterators == d.iterators
            && Models(h, d', if added then m[k := v] else m)
  {
    var d1 := Step(h, d);
    SameModels(h, d, d1, m);
    ExpandOk(h, cfg, d1);
    var d2 := ExpandIfNeeded(cfg, d1).0;
    SameModels(h, d1, d2, m);
    if Get(h, d2, k).None? { InsertModels(h, d2, Entry(k, v), m); }
  }

  lemma {:induction false} FindRefines(h: Hash, d: D, m: map<Key, Val>, k: Key)
    requires Ok(h, d) && Models(h, d, m)
    ensures var (d', r) := Find(h, d, k);
            && Ok(h, d') && Models(h, d', m) && d'.iterators == d.iterators
            && r == if k in m then Some(m[k]) else None
  {
  }

  lemma {:induction false} DeleteRefines(h: Hash, d: D, m: map<Key, Val>, k: Key)
    requires Ok(h, d) && Models(h, d, m)
    ensures var (d', gone) := Delete(h, d, k);
            && Ok(h, d') && (gone <==> k in m) && d'.iterators == d.iterators
            && Models(h, d', Minus(m, k))
  {
    if k !in m { MinusAbsent(m, k); }
    if d.ht0.used == 0 && d.ht1.used == 0 {
      assert m == map[];
    } else {
      var d1 := Step(h, d);
      SameModels(h, d, d1, m);
      DeleteFound(h, d1, m, k);
    }
  }

  lemma {:induction false} DeleteFound(h: Hash, d: D, m: map<Key, Val>, k: Key)
    requires Ok(h, d) && Models(h, d, m)
    ensures Get(h, d, k).Some? <==> k in m
    ensures k in m ==> Ok(h, TakeOut(h, d, k)) && Models(h, TakeOut(h, d, k), Minus(m, k))
  {
    if k in m { TakeOutModels(h, d, k, m); }
  }

  lemma {:induction false} MinusAbsent(m: map<Key, Val>, k: Key)
    requires k !in m
    ensures Minus(m, k) == m
  {
  }

  // ----- runs

  type Positive = n: nat | n > 0 witness 1

  /** Client operations, and dictRehash called from outside. */
  datatype Op = OpAdd(key: Key, val: Val) | OpFind(key: Key) | OpDelete(key: Key) | OpRehash(n: Positive)

  lemma {:induction false} AddOk(h: Hash, cfg: Config, d: D, k: Key, v: Val)
    requires Ok(h, d)
    ensures Ok(h, Add(h, cfg, d, k, v).0) && Add(h, cfg, d, k, v).0.iterators == d.iterators
  {
    var d1 := Step(h, d);
    ExpandOk(h, cfg, d1);
    var d2 := ExpandIfNeeded(cfg, d1).0;
    if Get(h, d2, k).None? { InsertOk(h, d2, Entry(k, v)); }
  }

  lemma {:induction false} DeleteOk(h: Hash, d: D, k: Key)
    requires Ok(h, d)
    ensures Ok(h, Delete(h, d, k).0) && Delete(h, d, k).0.iterators == d.iterators
  {
    var d1 := Step(h, d);
    if Get(h, d1, k).Some? { TakeOutOk(h, d1, k); }
  }

  function Apply(h: Hash, cfg: Config, d: D, op: Op): (d': D)
    requires Ok(h, d)
    ensures Ok(h, d') && d'.iterators == d.iterators
  {
    match op
    case OpAdd(k, v) => AddOk(h, cfg, d, k, v); Add(h, cfg, d, k, v).0
    case OpFind(k) => Find(h, d, k).0
    case OpDelete(k) => DeleteOk(h, d, k); Delete(h, d, k).0
    case OpRehash(n) => Rehash(h, d, n)
  }

  /** The same operation on the finite map. */
  function ApplyMap(m: map<Key, Val>, op: Op): map<Key, Val> {
    match op
    case OpAdd(k, v) => if k in m then m else m[k := v]
    case OpFind(_) => m
    case OpDelete(k) => Minus(m, k)
    case OpRehash(_) => m
  }

  lemma {:induction false} ApplyAdd(h: Hash, cfg: Config, d: D, m: map<Key, Val>, k: Key, v: Val)
    requires Ok(h, d) && Models(h, d, m)
    ensures Models(h, Apply(h, cfg, d, OpAdd(k, v)), ApplyMap(m, OpAdd(k, v)))
  {
    AddRefines(h, cfg, d, m, k, v);
  }

  lemma {:induction false} ApplyDelete(h: Hash, cfg: Config, d: D, m: map<Key, Val>, k: Key)
    requires Ok(h, d) && Models(h, d, m)
    ensures Models(h, Apply(h, cfg, d, OpDelete(k)), ApplyMap(m, OpDelete(k)))
  {
    assert Apply(h, cfg, d, OpDelete(k)) == Delete(h, d, k).0;
    DeleteRefines(h, d, m, k);
  }

  lemma {:induction false} ApplySame(h: Hash, cfg: Config, d: D, m: map<Key, Val>, op: Op)
    requires Ok(h, d) && Models(h, d, m) && (op.OpFind? || op.OpRehash?)
    ensures Models(h, Apply(h, cfg, d, op), ApplyMap(m, op))
  {
    var d' := Apply(h, cfg, d, op);
    assert SameMap(h, d, d');
    SameModels(h, d, d', m);
  }

  lemma {:induction false} ApplyRefines(h: Hash, cfg: Config, d: D, m: map<Key, Val>, op: Op)
    requires Ok(h, d) && Models(h, d, m)
    ensures Models(h, Apply(h, cfg, d, op), ApplyMap(m, op))
  {
    match op
    case OpAdd(k, v) => ApplyAdd(h, cfg, d, m, k, v);
    case OpDelete(k) => ApplyDelete(h, cfg, d, m, k);
    case OpFind(_) => ApplySame(h, cfg, d, m, op);
    case OpRehash(_) => ApplySame(h, cfg, d, m, op);
  }

  function MapAfter(ops: seq<Op>): map<Key, Val> {
    if ops == [] then map[] else ApplyMap(MapAfter(ops[..|ops| - 1]), ops[|ops| - 1])
  }

  /** The dict after a run of operations from dictCreate. */
  ghost function After(h: Hash, cfg: Config, ops: seq<Op>): (d: D)
    ensures Ok(h, d) && d.iterators == 0
  {
    if ops == [] then Created else Apply(h, cfg, After(h, cfg, ops[..|ops| - 1]), ops[|ops| - 1])
  }

  /** Every run of adds, finds, deletes and rehash calls leaves the two tables standing for the
      one map that the same operations build. */
  lemma {:induction false} RunRefinesMap(h: Hash, cfg: Config, ops: seq<Op>)
    ensures Models(h, After(h, cfg, ops), MapAfter(ops))
  {
    if ops != [] {
      var front := ops[..|ops| - 1];
      RunRefinesMap(h, cfg, front);
      ApplyRefines(h, cfg, After(h, cfg, front), MapAfter(front), ops[|ops| - 1]);
    }
  }

  // ----- a rehash finishes in time

  /** Buckets of the old table not yet passed. */
  function Remaining(d: D): int {
    |d.ht0.buckets| - d.rehashidx
  }

  /** Same rehash, further on. */
  ghost predicate Further(d: D, d': D) {
    && Rehashing(d') && d'.rehashidx > d.rehashidx
    && |d'.ht0.buckets| == |d.ht0.buckets| && |d'.ht1.buckets| == |d.ht1.buckets|
  }

  /** A rehash call either completes the rehash or passes at least one more bucket. */
  lemma {:induction false} RehashAdvances(h: Hash, d: D, n: nat, visits: nat)
    requires Ok(h, d) && Rehashing(d) && n > 0 && visits > 0
    ensures var d' := RehashLoop(h, d, n, visits);
            if Rehashing(d') then Further(d, d') else |d'.ht0.buckets| == |d.ht1.buckets|
    decreases n
  {
    OkMoving(h, d);
    if d.ht0.used != 0 {
      var (i, v) := Skip(d.ht0.buckets, d.rehashidx, visits);
      SkipStaysInside(h, d, visits);
      if v != 0 {
        MigrateOk(h, d, i);
        var d1 := Migrate(h, d, i);
        if d1.ht0.used != 0 && n > 1 {
          MovingOk(h, d1);
          RehashAdvances(h, d1, n - 1, v);
        }
      }
    }
  }

  /** The empty and the other buckets among bs[i..j]. */
  function Empties(bs: seq<Chain>, i: nat, j: nat): nat
    requires i <= j <= |bs|
  {
    if i == j then 0 else Empties(bs, i, j - 1) + (if bs[j - 1] == [] then 1 else 0)
  }

  lemma {:induction false} EmptiesJoin(bs: seq<Chain>, i: nat, m: nat, j: nat)
    requires i <= m <= j <= |bs|
    ensures Empties(bs, i, j) == Empties(bs, i, m) + Empties(bs, m, j)
  {
    if m < j { EmptiesJoin(bs, i, m, j - 1); }
  }

  lemma {:induction false} EmptiesAll(bs: seq<Chain>, i: nat, j: nat)
    requires i <= j <= |bs| && forall x :: i <= x < j ==> bs[x] == []
    ensures Empties(bs, i, j) == j - i
  {
    if i < j { EmptiesAll(bs, i, j - 1); }
  }

  lemma {:induction false} EmptiesSame(bs: seq<Chain>, bs': seq<Chain>, i: nat, j: nat)
    requires i <= j <= |bs| == |bs'| && forall x :: i <= x < j ==> bs[x] == bs'[x]
    ensures Empties(bs, i, j) == Empties(bs', i, j)
  {
    if i < j { EmptiesSame(bs, bs', i, j - 1); }
  }

  lemma {:induction false} SkipCounts(bs: seq<Chain>, i: nat, visits: nat)
    requires i <= |bs| && visits > 0
    ensures var (r, v) := Skip(bs, i, visits); visits - v == r - i
    decreases |bs| - i
  {
    if i < |bs| && bs[i] == [] && visits > 1 { SkipCounts(bs, i + 1, visits - 1); }
  }

  /** From bucket i to bucket j the budget is used up: n buckets were moved, or `visits` empty ones
      were passed and fewer moved. */
  predicate Spent(bs: seq<Chain>, i: nat, j: nat, n: nat, visits: nat)
    requires i <= j <= |bs|
  {
    var e := Empties(bs, i, j);
    (j - i - e == n && e < visits) || (e == visits && j - i - e < n)
  }

  /** Some empty buckets, then one that was moved, then the rest of the budget. */
  lemma SpentMore(bs: seq<Chain>, bs': seq<Chain>, i: nat, m: nat, j: nat, n: nat, visits: nat, v: nat)
    requires i <= m < j <= |bs| == |bs'| && n > 0 && v + (m - i) == visits && Empties(bs, i, m) == m - i && bs[m] != []
    requires (forall x :: m < x < |bs| ==> bs'[x] == bs[x]) && Spent(bs', m + 1, j, n - 1, v)
    ensures Spent(bs, i, j, n, visits)
  {
    EmptiesJoin(bs, i, m + 1, j);
    EmptiesSame(bs, bs', m + 1, j);
  }

  /** dictRehash(n) that does not finish has moved n buckets with entries, or passed 10 n empty ones
      and moved fewer. */
  lemma {:induction false} RehashMoves(h: Hash, d: D, n: nat, visits: nat)
    requires Ok(h, d) && Rehashing(d) && visits > 0
    ensures var d' := RehashLoop(h, d, n, visits);
            Rehashing(d') ==> d.rehashidx <= d'.rehashidx <= |d.ht0.buckets| && Spent(d.ht0.buckets, d.rehashidx, d'.rehashidx, n, visits)
    decreases n
  {
    OkMoving(h, d);
    if d.ht0.used != 0 && n > 0 {
      var bs, i0 := d.ht0.buckets, d.rehashidx;
      var (i, v) := Skip(bs, i0, visits);
      SkipStaysInside(h, d, visits);
      SkipCounts(bs, i0, visits);
      EmptiesAll(bs, i0, i);
      if v != 0 {
        MigrateOk(h, d, i);
        var d1 := Migrate(h, d, i);
        if d1.ht0.used != 0 {
          MovingOk(h, d1);
          RehashMoves(h, d1, n - 1, v);
          var d' := RehashLoop(h, d1, n - 1, v);
          if Rehashing(d') { SpentMore(bs, d1.ht0.buckets, i0, i, d'.rehashidx, n, visits, v); }
        }
      }
    }
  }

  /** The dict right after the rehash part of an operation. */
  function RehashPart(h: Hash, d: D, op: Op): (d': D)
    requires Ok(h, d)
    ensures Ok(h, d') && SameMap(h, d, d') && d'.iterators == d.iterators
  {
    match op
    case OpAdd(_, _) => Step(h, d)
    case OpFind(_) => if Total(d) == 0 then d else Step(h, d)
    case OpDelete(_) => if d.ht0.used == 0 && d.ht1.used == 0 then d else Step(h, d)
    case OpRehash(n) => Rehash(h, d, n)
  }

  /** What automatic growth establishes and every operation keeps: enough entries that the dict
      cannot be emptied before the rehash is over, and few enough that the new table cannot
      overflow before then. */
  ghost predicate Load(d: D) {
    Rehashing(d) ==> Remaining(d) <= Total(d) <= |d.ht1.buckets| + 1 - Remaining(d)
  }

  lemma {:induction false} PartAdvances(h: Hash, d: D, op: Op)
    requires Ok(h, d) && Load(d) && Rehashing(d) && d.iterators == 0
    ensures var d' := RehashPart(h, d, op);
            if Rehashing(d') then Further(d, d') else |d'.ht0.buckets| == |d.ht1.buckets| && Total(d') <= |d'.ht0.buckets|
  {
    UsedNonNegative(h, d);
    var n := if op.OpRehash? then op.n else 1;
    RehashAdvances(h, d, n, 10 * n);
  }

  /** The rest of an operation, after its rehash part, adds or removes at most one entry and
      leaves a rehash under way where it is. */
  ghost predicate RestOk(d1: D, d': D) {
    && Total(d1) - 1 <= Total(d') <= Total(d1) + 1
    && (Rehashing(d1) ==>
          && Rehashing(d') && d'.rehashidx == d1.rehashidx
          && |d'.ht0.buckets| == |d1.ht0.buckets| && |d'.ht1.buckets| == |d1.ht1.buckets|)
    && (!Rehashing(d1) ==> Load(d'))
  }

  lemma {:induction false} AddRest(h: Hash, cfg: Config, d: D, k: Key, v: Val)
    requires Ok(h, d)
    ensures RestOk(Step(h, d), Add(h, cfg, d, k, v).0)
  {
    var d1 := Step(h, d);
    UsedNonNegative(h, d1);
    ExpandOk(h, cfg, d1);
    var d2 := ExpandIfNeeded(cfg, d1).0;
    if Get(h, d2, k).None? { InsertOk(h, d2, Entry(k, v)); }
  }

  lemma {:induction false} AfterPart(h: Hash, cfg: Config, d: D, op: Op)
    requires Ok(h, d)
    ensures RestOk(RehashPart(h, d, op), Apply(h, cfg, d, op))
  {
    UsedNonNegative(h, d);
    match op
    case OpAdd(k, v) => AddRest(h, cfg, d, k, v);
    case OpFind(_) =>
    case OpDelete(k) =>
      var d1 := RehashPart(h, d, op);
      if Get(h, d1, k).Some? { TakeOutOk(h, d1, k); }
    case OpRehash(_) =>
  }

  /** While a rehash goes on the old table takes in nothing: what is found there was there before. */
  lemma {:induction false} OldOnlyShrinks(h: Hash, cfg: Config, d: D, op: Op, k: Key)
    requires Ok(h, d) && Rehashing(d) && Rehashing(RehashPart(h, d, op))
    ensures Lookup(h, Apply(h, cfg, d, op).ht0.buckets, k).Some? ==> Lookup(h, d.ht0.buckets, k).Some?
  {
    if op.OpRehash? { RehashShrinks(h, d, op.n, 10 * op.n, k); } else { RehashShrinks(h, d, 1, 10, k); }
    RestShrinks(h, cfg, d, op, k);
  }

  lemma {:induction false} RestShrinks(h: Hash, cfg: Config, d: D, op: Op, k: Key)
    requires Ok(h, d) && Rehashing(RehashPart(h, d, op))
    ensures Lookup(h, Apply(h, cfg, d, op).ht0.buckets, k).Some? ==> Lookup(h, RehashPart(h, d, op).ht0.buckets, k).Some?
  {
    var d1 := RehashPart(h, d, op);
    match op
    case OpAdd(_, _) => ExpandOk(h, cfg, d1);
    case OpDelete(x) =>
      if Lookup(h, d1.ht0.buckets, x).Some? { RemoveOk(h, d1.ht0, x); }
    case _ =>
  }

  lemma {:induction false} RehashShrinks(h: Hash, d: D, n: nat, visits: nat, k: Key)
    requires Ok(h, d) && Rehashing(d) && (n > 0 ==> visits > 0)
    ensures var d' := RehashLoop(h, d, n, visits);
            Rehashing(d') && Lookup(h, d'.ht0.buckets, k).Some? ==> Lookup(h, d.ht0.buckets, k).Some?
    decreases n
  {
    OkMoving(h, d);
    if d.ht0.used != 0 && n > 0 {
      var (i, v) := Skip(d.ht0.buckets, d.rehashidx, visits);
      SkipStaysInside(h, d, visits);
      if v != 0 {
        MigrateOk(h, d, i);
        var d1 := Migrate(h, d, i);
        if d1.ht0.used != 0 {
          MovingOk(h, d1);
          RehashShrinks(h, d1, n - 1, v, k);
        }
      }
    }
  }

  lemma {:induction false} LoadKept(h: Hash, cfg: Config, d: D, op: Op)
    requires Ok(h, d) && Load(d) && d.iterators == 0
    ensures Load(Apply(h, cfg, d, op))
  {
    AfterPart(h, cfg, d, op);
    if Rehashing(d) { PartAdvances(h, d, op); }
  }

  lemma {:induction false} RunLoad(h: Hash, cfg: Config, ops: seq<Op>)
    ensures Load(After(h, cfg, ops))
  {
    if ops != [] {
      RunLoad(h, cfg, ops[..|ops| - 1]);
      LoadKept(h, cfg, After(h, cfg, ops[..|ops| - 1]), ops[|ops| - 1]);
    }
  }

  /** The rehash under way completes in the rehash part of one of the operations, and the
      entries then fit the new table. */
  ghost predicate Completes(h: Hash, cfg: Config, d: D, ops: seq<Op>)
    requires Ok(h, d)
    decreases |ops|
  {
    ops != [] &&
    var d1 := RehashPart(h, d, ops[0]);
    if Rehashing(d1) then Completes(h, cfg, Apply(h, cfg, d, ops[0]), ops[1..])
    else |d1.ht0.buckets| == |d.ht1.buckets| && Total(d1) <= |d1.ht0.buckets|
  }

  lemma {:induction false} CompletesFrom(h: Hash, cfg: Config, d: D, ops: seq<Op>)
    requires Ok(h, d) && Load(d) && Rehashing(d) && d.iterators == 0 && |ops| >= Remaining(d)
    ensures Completes(h, cfg, d, ops)
    decreases |ops|
  {
    PartAdvances(h, d, ops[0]);
    AfterPart(h, cfg, d, ops[0]);
    if Rehashing(RehashPart(h, d, ops[0])) {
      LoadKept(h, cfg, d, ops[0]);
      CompletesFrom(h, cfg, Apply(h, cfg, d, ops[0]), ops[1..]);
    }
  }

  /** In every reachable dict without iterators, a rehash under way completes within as many
      further operations as the old table has buckets, whatever they are, and at that moment
      the number of entries does not exceed the size of the new table. */
  lemma {:induction false} RehashCompletesInTime(h: Hash, cfg: Config, past: seq<Op>, ops: seq<Op>)
    requires Rehashing(After(h, cfg, past)) && |ops| >= |After(h, cfg, past).ht0.buckets|
    ensures Completes(h, cfg, After(h, cfg, past), ops)
  {
    RunLoad(h, cfg, past);
    CompletesFrom(h, cfg, After(h, cfg, past), ops);
  }

  // ----- the chains stay short

  /** The size of the table that new entries go to. */
  function Newest(d: D): nat {
    if Rehashing(d) then |d.ht1.buckets| else |d.ht0.buckets|
  }

  /** How many entries for each bucket the settings put up with. */
  function Factor(cfg: Config): nat {
    if cfg.canResize then 1 else cfg.ratio + 1
  }

  ghost predicate Roomy(cfg: Config, d: D) {
    Total(d) <= Factor(cfg) * Newest(d)
  }

  lemma TimesOne(f: nat, n: nat, total: int)
    requires f >= 1 && total <= n
    ensures total <= f * n
  {
    assert f * n == n + (f - 1) * n && (f - 1) * n >= 0;
  }

  /** An add to a full table starts a rehash, whether the key is new or not. */
  lemma {:induction false} AddToFullGrows(h: Hash, cfg: Config, d: D, k: Key, v: Val)
    requires Ok(h, d) && !Rehashing(d) && cfg.canResize && d.ht0.buckets != [] && d.ht0.used >= |d.ht0.buckets|
    ensures Rehashing(Add(h, cfg, d, k, v).0)
  {
    GrowsIff(h, cfg, d);
  }

  lemma LongChains(n: nat, size: nat, ratio: nat)
    requires size > 0 && n / size <= ratio
    ensures n < (ratio + 1) * size
  {
    assert n < (n / size + 1) * size;
    assert (ratio + 1) * size == (n / size + 1) * size + (ratio - n / size) * size && (ratio - n / size) * size >= 0;
  }

  lemma {:induction false} AddRoomy(h: Hash, cfg: Config, d: D, k: Key, v: Val)
    requires Ok(h, d) && !Rehashing(Step(h, d)) && Roomy(cfg, Step(h, d))
    ensures Roomy(cfg, Add(h, cfg, d, k, v).0)
  {
    var d1 := Step(h, d);
    UsedNonNegative(h, d1);
    ExpandOk(h, cfg, d1);
    GrowsIff(h, cfg, d1);
    AddRest(h, cfg, d, k, v);
    var d2, d' := ExpandIfNeeded(cfg, d1).0, Add(h, cfg, d, k, v).0;
    if Get(h, d2, k).None? { InsertOk(h, d2, Entry(k, v)); }
    if Rehashing(d') {
      TimesOne(Factor(cfg), Newest(d'), Total(d'));
    } else if d1.ht0.buckets == [] {
      TimesOne(Factor(cfg), Newest(d'), Total(d'));
    } else if d1.ht0.used < |d1.ht0.buckets| {
      TimesOne(Factor(cfg), Newest(d'), Total(d'));
    } else {
      LongChains(d1.ht0.used, |d1.ht0.buckets|, cfg.ratio);
    }
  }

  lemma {:induction false} PartRoomy(h: Hash, cfg: Config, d: D, op: Op)
    requires Ok(h, d) && Load(d) && Roomy(cfg, d) && d.iterators == 0
    ensures var d1 := RehashPart(h, d, op); !Rehashing(d1) ==> Roomy(cfg, d1)
  {
    if Rehashing(d) {
      PartAdvances(h, d, op);
      var d1 := RehashPart(h, d, op);
      if !Rehashing(d1) { TimesOne(Factor(cfg), Newest(d1), Total(d1)); }
    }
  }

  lemma {:induction false} RoomyKept(h: Hash, cfg: Config, d: D, op: Op)
    requires Ok(h, d) && Load(d) && Roomy(cfg, d) && d.iterators == 0
    ensures Roomy(cfg, Apply(h, cfg, d, op))
  {
    PartRoomy(h, cfg, d, op);
    LoadKept(h, cfg, d, op);
    AfterPart(h, cfg, d, op);
    var d1, d' := RehashPart(h, d, op), Apply(h, cfg, d, op);
    if Rehashing(d') {
      TimesOne(Factor(cfg), Newest(d'), Total(d'));
    } else {
      match op
      case OpAdd(k, v) => AddRoomy(h, cfg, d, k, v);
      case OpDelete(k) => if Get(h, d1, k).Some? { TakeOutOk(h, d1, k); }
      case _ =>
    }
  }

  /** After every run the entries are at most as many as the buckets of the newest table, times the
      force ratio and one when resizing is switched off. */
  lemma {:induction false} RunStaysRoomy(h: Hash, cfg: Config, ops: seq<Op>)
    ensures Roomy(cfg, After(h, cfg, ops))
  {
    if ops != [] {
      var front := ops[..|ops| - 1];
      RunStaysRoomy(h, cfg, front);
      RunLoad(h, cfg, front);
      RoomyKept(h, cfg, After(h, cfg, front), ops[|ops| - 1]);
    }
  }
}
