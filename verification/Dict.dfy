/** The dict as the program holds it: fields updated in place by the loops of the source.
    Every method is proved to compute the corresponding function of `DictProofs`. */
module Dict {
  import opened Common
  import opened Entries
  import opened DictSpec
  import P = DictProofs
  import I = DictIter

  class RedisDict {
    const h: Hash
    const cfg: Config
    var ht0: Table
    var ht1: Table
    var rehashidx: int
    var iterators: nat

    ghost function View(): D
      reads this
    {
      D(ht0, ht1, rehashidx, iterators)
    }

    ghost predicate Valid()
      reads this
    {
      Ok(h, View())
    }

    constructor (h: Hash, cfg: Config)
      ensures Valid() && View() == Created && this.h == h && this.cfg == cfg
    {
      this.h, this.cfg := h, cfg;
      ht0, ht1, rehashidx, iterators := EmptyTable, EmptyTable, -1, 0;
    }

    // ----- chains

    static method SearchChain(c: Chain, k: Key) returns (r: Option<Val>)
      ensures r == ChainGet(c, k)
    {
      var i := 0;
      while i < |c|
        invariant 0 <= i <= |c| && ChainGet(c[i..], k) == ChainGet(c, k)
      {
        if c[i].key == k { return Some(c[i].val); }
        assert c[i..][1..] == c[i + 1..];
        i := i + 1;
      }
      return None;
    }

    /** Unlink the entry for `k` by joining what is before and after it. */
    static method Unlink(c: Chain, k: Key) returns (c': Chain)
      ensures c' == ChainRemove(c, k)
    {
      var i := 0;
      while i < |c|
        invariant 0 <= i <= |c| && ChainRemove(c, k) == c[..i] + ChainRemove(c[i..], k)
      {
        if c[i].key == k {
          assert c[i..][1..] == c[i + 1..];
          return c[..i] + c[i + 1..];
        }
        assert c[i..][1..] == c[i + 1..];
        assert c[..i] + ([c[i]] + ChainRemove(c[i + 1..], k)) == c[..i + 1] + ChainRemove(c[i + 1..], k);
        i := i + 1;
      }
      return c;
    }

    // ----- rehash

    /** The inner loops of dictRehash on one bucket: false when the visit limit was hit. */
    method SkipEmptyBuckets(visits: nat) returns (left: nat)
      requires Valid() && Rehashing(View()) && ht0.used > 0 && visits > 0
      modifies this`rehashidx
      ensures (rehashidx, left) == Skip(ht0.buckets, old(rehashidx), visits)
      ensures rehashidx < |ht0.buckets|
    {
      P.SkipStaysInside(h, View(), visits);
      ghost var target := Skip(ht0.buckets, rehashidx, visits);
      left := visits;
      while ht0.buckets[rehashidx] == []
        invariant 0 <= rehashidx <= target.0 < |ht0.buckets| && left > 0
        invariant Skip(ht0.buckets, rehashidx, left) == target
        decreases |ht0.buckets| - rehashidx
      {
        rehashidx := rehashidx + 1;
        left := left - 1;
        if left == 0 { return; }
      }
    }

    method MigrateBucket()
      requires 0 <= rehashidx < |ht0.buckets| && |ht1.buckets| > 0
      modifies this`ht0, this`ht1, this`rehashidx
      ensures View() == Migrate(h, old(View()), old(rehashidx))
    {
      var de := ht0.buckets[rehashidx];
      ghost var c := de;
      ghost var bs := ht1.buckets;
      while de != []
        invariant |ht1.buckets| == |bs| && PushAll(h, ht1.buckets, de) == PushAll(h, bs, c)
        invariant |de| <= |c| && ht0.buckets == old(ht0.buckets) && rehashidx == old(rehashidx)
        invariant ht0.used == old(ht0.used) - (|c| - |de|) && ht1.used == old(ht1.used) + (|c| - |de|)
        decreases |de|
      {
        var i := Bucket(h, ht1.buckets, de[0].key);
        ht1 := Table(ht1.buckets[i := [de[0]] + ht1.buckets[i]], ht1.used + 1);
        ht0 := ht0.(used := ht0.used - 1);
        de := de[1..];
      }
      ht0 := ht0.(buckets := ht0.buckets[rehashidx := []]);
      rehashidx := rehashidx + 1;
    }

    /** One round of the outer loop: skip, then migrate unless the visit limit was hit. */
    method RehashRound(visits: nat) returns (left: nat)
      requires Valid() && Rehashing(View()) && ht0.used > 0 && visits > 0
      modifies this
      ensures left == Skip(old(ht0.buckets), old(rehashidx), visits).1
      ensures Skip(old(ht0.buckets), old(rehashidx), visits).0 < |old(ht0.buckets)|
      ensures var i := Skip(old(ht0.buckets), old(rehashidx), visits).0;
              View() == if left == 0 then old(View()).(rehashidx := i) else Migrate(h, old(View()), i)
    {
      left := SkipEmptyBuckets(visits);
      if left != 0 { MigrateBucket(); }
    }

    /** dictRehash: true while there is more to move. */
    method Rehash(n: nat) returns (more: bool)
      requires Valid()
      modifies this
      ensures Valid() && View() == P.Rehash(h, old(View()), n)
      ensures more <==> Rehashing(View())
    {
      if rehashidx == -1 { return false; }
      var visits: nat, left: nat := 10 * n, n;
      ghost var target := P.RehashLoop(h, View(), n, visits);
      while left > 0 && ht0.used != 0
        invariant P.LoopState(h, View(), left, visits, target)
        decreases left
      {
        ghost var d := View();
        P.LoopRound(h, d, left, visits, target);
        visits := RehashRound(visits);
        if visits == 0 { return true; }
        left := left - 1;
      }
      P.LoopDone(h, View(), left, visits, target);
      if ht0.used == 0 {
        ht0, ht1, rehashidx := ht1, EmptyTable, -1;
        return false;
      }
      return true;
    }

    method RehashStep()
      requires Valid()
      modifies this
      ensures Valid() && View() == P.Step(h, old(View()))
    {
      if iterators == 0 {
        var _ := Rehash(1);
      }
    }

    // ----- growth

    static method NextPowerOfTwo(size: nat) returns (i: nat)
      ensures i == NextPower(size)
      ensures PowerOfTwo(i) && i >= size && (i > INITIAL_SIZE ==> i < 2 * size)
    {
      i := INITIAL_SIZE;
      while i < size
        invariant i > 0 && NextPowerFrom(i, size) == NextPower(size)
        decreases size - i
      {
        i := i * 2;
      }
    }

    method DictExpand(size: nat) returns (st: Status)
      modifies this
      ensures (View(), st) == Expand(old(View()), size)
      ensures st == ERR <==> old(rehashidx) != -1 || size < old(ht0.used) || NextPower(size) == |old(ht0.buckets)|
      ensures st == ERR ==> View() == old(View())
      ensures st == OK ==> |if old(ht0.buckets) == [] then ht0.buckets else ht1.buckets| == NextPower(size)
      ensures st == OK && old(ht0.buckets) != [] ==> ht0 == old(ht0) && rehashidx == 0 && ht1.used == 0
    {
      if rehashidx != -1 || ht0.used > size { return ERR; }
      var size' := NextPowerOfTwo(size);
      if size' == |ht0.buckets| { return ERR; }
      var n := Table(EmptyBuckets(size'), 0);
      if ht0.buckets == [] {
        ht0 := n;
      } else {
        ht1, rehashidx := n, 0;
      }
      return OK;
    }

    method GrowIfNeeded() returns (st: Status)
      requires ht0.used >= 0
      modifies this
      ensures (View(), st) == ExpandIfNeeded(cfg, old(View()))
    {
      if rehashidx != -1 { return OK; }
      if ht0.buckets == [] {
        st := DictExpand(INITIAL_SIZE);
      } else if ht0.used >= |ht0.buckets| && (cfg.canResize || ht0.used / |ht0.buckets| > cfg.ratio) {
        st := DictExpand(ht0.used * 2);
      } else {
        st := OK;
      }
    }

    // ----- operations

    /** The search loop over the two tables. */
    method Search(k: Key) returns (r: Option<Val>)
      requires Valid()
      ensures r == Get(h, View(), k)
    {
      var table := 0;
      while table <= 1
        invariant 0 <= table <= 2
        invariant table >= 1 ==> Lookup(h, ht0.buckets, k).None? && Rehashing(View())
        invariant table == 2 ==> Lookup(h, ht1.buckets, k).None?
        decreases 2 - table
      {
        var bs := if table == 0 then ht0.buckets else ht1.buckets;
        r := None;
        if bs != [] { r := SearchChain(bs[Bucket(h, bs, k)], k); }
        if r.Some? || rehashidx == -1 { return; }
        table := table + 1;
      }
      r := None;
    }

    /** dictAdd: the map gains the pair exactly when the key was not there. */
    method Add(k: Key, v: Val, ghost m: map<Key, Val>) returns (added: bool)
      requires Valid() && Models(h, View(), m)
      modifies this
      ensures Valid() && (View(), added) == P.Add(h, cfg, old(View()), k, v)
      ensures added <==> k !in m
      ensures Models(h, View(), if added then m[k := v] else m)
    {
      P.AddRefines(h, cfg, View(), m, k, v);
      RehashStep();
      P.ExpandOk(h, cfg, View());
      var st := GrowIfNeeded();
      var existing := Search(k);
      if existing.Some? { return false; }
      InsertEntry(Entry(k, v));
      return true;
    }

    method InsertEntry(e: Entry)
      requires Valid() && ht0.buckets != []
      modifies this
      ensures View() == P.Insert(h, old(View()), e)
    {
      if rehashidx != -1 {
        ht1 := Table(Push(h, ht1.buckets, e), ht1.used + 1);
      } else {
        ht0 := Table(Push(h, ht0.buckets, e), ht0.used + 1);
      }
    }

    /** dictFind. */
    method Find(k: Key, ghost m: map<Key, Val>) returns (r: Option<Val>)
      requires Valid() && Models(h, View(), m)
      modifies this
      ensures Valid() && (View(), r) == P.Find(h, old(View()), k) && Models(h, View(), m)
      ensures r == if k in m then Some(m[k]) else None
    {
      P.FindRefines(h, View(), m, k);
      if ht0.used + ht1.used == 0 { return None; }
      RehashStep();
      r := Search(k);
    }

    /** dictDelete. */
    method Delete(k: Key, ghost m: map<Key, Val>) returns (gone: bool)
      requires Valid() && Models(h, View(), m)
      modifies this
      ensures Valid() && (View(), gone) == P.Delete(h, old(View()), k)
      ensures (gone <==> k in m) && Models(h, View(), Minus(m, k))
    {
      P.DeleteRefines(h, View(), m, k);
      if ht0.used == 0 && ht1.used == 0 { return false; }
      RehashStep();
      gone := UnlinkKey(k);
    }

    method UnlinkKey(k: Key) returns (gone: bool)
      requires Valid()
      modifies this
      ensures gone <==> Get(h, old(View()), k).Some?
      ensures View() == if gone then P.TakeOut(h, old(View()), k) else old(View())
    {
      if ht0.buckets != [] {
        var i := Bucket(h, ht0.buckets, k);
        var found := SearchChain(ht0.buckets[i], k);
        if found.Some? {
          var c := Unlink(ht0.buckets[i], k);
          ht0 := Table(ht0.buckets[i := c], ht0.used - 1);
          return true;
        }
      }
      if rehashidx == -1 { return false; }
      var i := Bucket(h, ht1.buckets, k);
      var found := SearchChain(ht1.buckets[i], k);
      if found.Some? {
        var c := Unlink(ht1.buckets[i], k);
        ht1 := Table(ht1.buckets[i := c], ht1.used - 1);
        return true;
      }
      return false;
    }
  }

  class SafeIterator {
    const d: RedisDict
    var it: I.Iter

    constructor (d: RedisDict)
      ensures this.d == d && it == I.NewIter
    {
      this.d, it := d, I.NewIter;
    }

    ghost predicate Valid()
      reads this, d
    {
      d.Valid() && I.IterOk(d.View(), it)
    }

    /** One pass through the loop of dictNext. */
    method Pass() returns (f: I.Found)
      requires Valid()
      modifies this`it
      ensures (it, f) == I.Pass(d.View(), old(it))
    {
      if it.entry.None? {
        var bs := if it.table == 0 then d.ht0.buckets else d.ht1.buckets;
        var i := it.index + 1;
        if i >= |bs| {
          if d.rehashidx != -1 && it.table == 0 {
            it := it.(table := 1, index := 0, entry := I.HeadKey(d.ht1.buckets[0]));
          } else {
            it := it.(index := i);
            return I.End;
          }
        } else {
          it := it.(index := i, entry := I.HeadKey(bs[i]));
        }
      } else {
        it := it.(entry := it.next);
      }
      if it.entry.None? { return I.Again; }
      var bs := if it.table == 0 then d.ht0.buckets else d.ht1.buckets;
      var c := I.From(bs[it.index], it.entry.value);
      it := it.(next := if c == [] then None else I.HeadKey(c[1..]));
      return I.Yield(it.entry.value);
    }

    /** dictNext: registers with the dict on the first call, then moves through the rest of the
        chain, the buckets and the second table until it finds an entry. */
    method Next() returns (r: Option<Key>)
      requires Valid()
      modifies this, d`iterators
      ensures Valid() && (it, r) == I.Next(d.h, d.View(), old(it))
      ensures d.iterators == old(d.iterators) + if old(it.index) == -1 && old(it.entry).None? then 1 else 0
    {
      if it.entry.None? && it.index == -1 { d.iterators := d.iterators + 1; }
      ghost var view := d.View();
      ghost var target := I.Next(d.h, view, it);
      while true
        invariant d.View() == view && Valid() && I.Next(d.h, view, it) == target
        decreases I.Distance(view, it)
      {
        I.NextUnfold(d.h, view, it);
        var f := Pass();
        match f
        case Yield(k) => return Some(k);
        case End => return None;
        case Again =>
      }
    }
  }
}
