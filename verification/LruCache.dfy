/** The cache as it is kept in memory: two rings of handles and a hash table. */
module LruCache {
  import opened Common
  import opened Lists
  import opened Rings
  import opened LruSpec
  import opened LruProofs
  import HandleTable

  /** The two rings have no node in common. */
  ghost predicate RingsOk(k: Links, lru: seq<Id>, inUse: seq<Id>) {
    && Ring(k, LRU, lru) && Ring(k, IN_USE, inUse)
    && (forall a :: a in [LRU] + lru ==> a !in [IN_USE] + inUse)
  }

  ghost predicate AllBelow(ids: set<Id>, n: Id) {
    forall id :: id in ids ==> id < n
  }

  lemma CutLru(k: Links, lru: seq<Id>, inUse: seq<Id>, e: Id)
    requires RingsOk(k, lru, inUse) && e in lru
    ensures e in k.next && e in k.prev && RingsOk(Cut(k, e), Without(lru, e), Without(inUse, e))
  {
    var i :| 0 <= i < |lru| && lru[i] == e;
    CutRing(k, LRU, lru, i);
    CutElsewhere(k, LRU, lru, i, IN_USE, inUse);
    WithoutAt(lru, i);
    WithoutOk(lru, e);
    assert e in [LRU] + lru;
    WithoutAbsent(inUse, e);
  }

  lemma CutInUse(k: Links, lru: seq<Id>, inUse: seq<Id>, e: Id)
    requires RingsOk(k, lru, inUse) && e in inUse
    ensures e in k.next && e in k.prev && RingsOk(Cut(k, e), Without(lru, e), Without(inUse, e))
  {
    var i :| 0 <= i < |inUse| && inUse[i] == e;
    CutRing(k, IN_USE, inUse, i);
    CutElsewhere(k, IN_USE, inUse, i, LRU, lru);
    WithoutAt(inUse, i);
    WithoutOk(inUse, e);
    assert forall a :: a in lru ==> a in [LRU] + lru;
    assert e in [IN_USE] + inUse;
    WithoutAbsent(lru, e);
  }

  /** The last node of a ring is the one in front of its head. */
  lemma LastOf(k: Links, h: Id, l: seq<Id>)
    requires Ring(k, h, l)
    ensures h in k.prev && k.prev[h] == Tour(h, l)[|l|] && k.prev[h] in k.next && k.next[k.prev[h]] == h
  {
    assert Hop(k, Tour(h, l)[|l|], Tour(h, l)[|l| + 1]);
  }

  lemma PutLru(k: Links, lru: seq<Id>, inUse: seq<Id>, e: Id)
    requires RingsOk(k, lru, inUse) && e >= FIRST && e !in lru && e !in inUse
    ensures LRU in k.prev && k.prev[LRU] in k.next && RingsOk(PutAfter(k, k.prev[LRU], e), lru + [e], inUse)
  {
    LastOf(k, LRU, lru);
    PutRing(k, LRU, lru, |lru|, e);
    PutElsewhere(k, LRU, lru, |lru|, e, IN_USE, inUse);
    assert lru[..|lru|] + [e] + lru[|lru|..] == lru + [e];
  }

  lemma PutInUse(k: Links, lru: seq<Id>, inUse: seq<Id>, e: Id)
    requires RingsOk(k, lru, inUse) && e >= FIRST && e !in lru && e !in inUse
    ensures IN_USE in k.prev && k.prev[IN_USE] in k.next && RingsOk(PutAfter(k, k.prev[IN_USE], e), lru, inUse + [e])
  {
    LastOf(k, IN_USE, inUse);
    PutRing(k, IN_USE, inUse, |inUse|, e);
    PutElsewhere(k, IN_USE, inUse, |inUse|, e, LRU, lru);
    assert inUse[..|inUse|] + [e] + inUse[|inUse|..] == inUse + [e];
  }

  /** A node in neither ring can be written to freely. */
  lemma LooseNode(k: Links, lru: seq<Id>, inUse: seq<Id>, e: Id, x: Id)
    requires RingsOk(k, lru, inUse) && e >= FIRST && e !in lru && e !in inUse
    ensures RingsOk(k.(next := k.next[e := x]), lru, inUse)
  {
    var k' := k.(next := k.next[e := x]);
    var c, d := Tour(LRU, lru), Tour(IN_USE, inUse);
    forall i | 0 <= i <= |lru| ensures Hop(k', c[i], c[i + 1]) { assert Hop(k, c[i], c[i + 1]); }
    forall i | 0 <= i <= |inUse| ensures Hop(k', d[i], d[i + 1]) { assert Hop(k, d[i], d[i + 1]); }
  }

  class LRUCache {
    const capacity: nat
    const table: HandleTable.HandleTable
    var usage: int
    var entries: map<Id, Entry>    // what the handles hold, but for their links
    var links: Links
    var nextId: Id
    ghost var lru: seq<Id>
    ghost var inUse: seq<Id>
    ghost var destroyed: seq<Id>

    ghost function Abs(): State
      reads this, table
    {
      State(capacity, usage, entries, table.contents, lru, inUse, destroyed, nextId)
    }

    /** The lists and the table are in order, whatever the entries say. */
    ghost predicate Formed()
      reads this, table
    {
      RingsOk(links, lru, inUse) && table.Valid() && AllBelow(table.names.Keys, nextId)
    }

    ghost predicate Valid()
      reads this, table
    {
      Formed() && Inv(Abs())
    }

    constructor (capacity: nat)
      ensures Valid() && fresh(table) && Abs() == Start(capacity)
    {
      this.capacity := capacity;
      table := new HandleTable.HandleTable();
      usage, entries, nextId := 0, map[], FIRST;
      links := Links(map[LRU := LRU, IN_USE := IN_USE], map[LRU := LRU, IN_USE := IN_USE]);
      lru, inUse, destroyed := [], [], [];
    }

    method LruRemove(e: Id)
      requires RingsOk(links, lru, inUse) && (e in lru || e in inUse)
      modifies this`links, this`lru, this`inUse
      ensures RingsOk(links, lru, inUse) && lru == Without(old(lru), e) && inUse == Without(old(inUse), e)
    {
      if e in lru { CutLru(links, lru, inUse, e); } else { CutInUse(links, lru, inUse, e); }
      var next, prev := links.next[e], links.prev[e];
      links := links.(prev := links.prev[next := prev]);
      links := links.(next := links.next[prev := next]);
      lru, inUse := Without(lru, e), Without(inUse, e);
    }

    method LruAppend(list: Id, e: Id)
      requires RingsOk(links, lru, inUse) && e >= FIRST && e !in lru && e !in inUse
      requires list == LRU || list == IN_USE
      modifies this`links, this`lru, this`inUse
      ensures RingsOk(links, lru, inUse)
      ensures lru == if list == LRU then old(lru) + [e] else old(lru)
      ensures inUse == if list == LRU then old(inUse) else old(inUse) + [e]
    {
      if list == LRU { PutLru(links, lru, inUse, e); } else { PutInUse(links, lru, inUse, e); }
      ghost var put := PutAfter(links, links.prev[list], e);
      var last := links.prev[list];
      assert links.next[last] == list by { if list == LRU { LastOf(links, LRU, lru); } else { LastOf(links, IN_USE, inUse); } }
      links := Links(links.next[e := list], links.prev[e := last]);
      links := links.(next := links.next[last := e]);
      links := links.(prev := links.prev[list := e]);
      assert links.prev == put.prev && links.next == put.next;
      if list == LRU { lru := lru + [e]; } else { inUse := inUse + [e]; }
    }

    method Ref(e: Id)
      requires RingsOk(links, lru, inUse) && ListsOk(Abs()) && e >= FIRST && e in entries
      modifies this`links, this`lru, this`inUse, this`entries
      ensures RingsOk(links, lru, inUse) && Abs() == LruSpec.Ref(old(Abs()), e)
    {
      if entries[e].refs == 1 && entries[e].inCache {
        assert Idle(entries, e) && !Busy(entries, e);
        WithoutOk(lru, e);
        WithoutOk(inUse, e);
        LruRemove(e);
        LruAppend(IN_USE, e);
      }
      entries := entries[e := entries[e].(refs := entries[e].refs + 1)];
    }

    method Unref(e: Id)
      requires RingsOk(links, lru, inUse) && e >= FIRST && e in entries && entries[e].refs > 0
      requires entries[e].inCache && entries[e].refs == 2 ==> e in inUse
      modifies this`links, this`lru, this`inUse, this`entries, this`destroyed
      ensures RingsOk(links, lru, inUse) && Abs() == LruSpec.Unref(old(Abs()), e)
    {
      entries := entries[e := entries[e].(refs := entries[e].refs - 1)];
      if entries[e].refs == 0 {
        assert old(entries) - {e} == entries - {e};
        entries := entries - {e};
        destroyed := destroyed + [e];
      } else if entries[e].inCache && entries[e].refs == 1 {
        WithoutOk(lru, e);
        WithoutOk(inUse, e);
        LruRemove(e);
        LruAppend(LRU, e);
      }
    }

    method Lookup(n: Name) returns (r: Option<Id>)
      requires Valid()
      modifies this`links, this`lru, this`inUse, this`entries
      ensures Valid() && (Abs(), r) == LruSpec.Lookup(old(Abs()), n)
    {
      r := table.Lookup(n);
      if r.Some? {
        RefOk(Abs(), r.value);
        Ref(r.value);
      }
    }

    /** The caller gives back a handle that Insert or Lookup gave it. */
    method Release(e: Id)
      requires Valid() && e in entries && (entries[e].inCache ==> entries[e].refs > 1)
      modifies this`links, this`lru, this`inUse, this`entries, this`destroyed
      ensures Valid() && Abs() == LruSpec.Unref(old(Abs()), e)
    {
      UnrefOk(Abs(), e);
      assert entries[e].inCache ==> Busy(entries, e);
      Unref(e);
    }

    /** What the table no longer knows leaves the cache. */
    method FinishErase(r: Option<Id>)
      requires RingsOk(links, lru, inUse) && ListsOk(Abs())
      requires r.Some? ==> r.value >= FIRST && r.value in entries && entries[r.value].inCache && entries[r.value].refs > 0
      modifies this`links, this`lru, this`inUse, this`entries, this`destroyed, this`usage
      ensures RingsOk(links, lru, inUse)
      ensures Abs() == if r.Some? then LruSpec.FinishErase(old(Abs()), r.value) else old(Abs())
    {
      if r.Some? {
        var e := r.value;
        assert Idle(entries, e) || Busy(entries, e);
        LruRemove(e);
        entries := entries[e := entries[e].(inCache := false)];
        usage := usage - entries[e].charge;
        Unref(e);
      }
    }

    method Erase(n: Name)
      requires Valid()
      modifies this`links, this`lru, this`inUse, this`entries, this`destroyed, this`usage, table
      ensures Valid() && Abs() == LruSpec.Erase(old(Abs()), n)
    {
      EraseOk(Abs(), n);
      var r := table.Remove(n);
      if r.None? { assert table.contents == old(table.contents); }
      FinishErase(r);
    }

    method Prune()
      requires Valid()
      modifies this`links, this`lru, this`inUse, this`entries, this`destroyed, this`usage, table
      ensures Valid() && Abs() == LruProofs.Prune(old(Abs()))
    {
      LastAndFirst();
      while links.next[LRU] != LRU
        invariant Valid() && LRU in links.next && (links.next[LRU] != LRU <==> lru != [])
        invariant lru != [] ==> links.next[LRU] == lru[0]
        invariant LruProofs.Prune(Abs()) == LruProofs.Prune(old(Abs()))
        decreases |lru|
      {
        var e := links.next[LRU];
        EraseOldestOk(Abs());
        assert Idle(entries, e);
        Erase(entries[e].name);
        LastAndFirst();
      }
    }

    lemma LastAndFirst()
      requires RingsOk(links, lru, inUse)
      ensures LRU in links.next && (links.next[LRU] != LRU <==> lru != []) && (lru != [] ==> links.next[LRU] == lru[0])
    {
      assert Hop(links, Tour(LRU, lru)[0], Tour(LRU, lru)[1]);
    }

    method Insert(n: Name, v: Value, charge: nat) returns (e: Id)
      requires Valid()
      modifies this`links, this`lru, this`inUse, this`entries, this`destroyed, this`usage, this`nextId, table
      ensures Valid() && Abs() == LruProofs.Insert(old(Abs()), n, v, charge) && e == old(nextId)
    {
      PlaceOk(Abs(), n, v, charge);
      e := Place(n, v, charge);
      LastAndFirst();
      while usage > capacity && links.next[LRU] != LRU
        invariant Valid() && LRU in links.next && (links.next[LRU] != LRU <==> lru != [])
        invariant lru != [] ==> links.next[LRU] == lru[0]
        invariant Evict(Abs()) == LruProofs.Insert(old(Abs()), n, v, charge)
        decreases |lru|
      {
        var first := links.next[LRU];
        EraseOldestOk(Abs());
        assert Idle(entries, first);
        Erase(entries[first].name);
        LastAndFirst();
      }
    }

    /** Insert up to the eviction loop. */
    method Place(n: Name, v: Value, charge: nat) returns (e: Id)
      requires Valid()
      modifies this`links, this`lru, this`inUse, this`entries, this`destroyed, this`usage, this`nextId, table
      ensures Formed() && Abs() == LruSpec.Place(old(Abs()), n, v, charge) && e == old(nextId)
    {
      e := nextId;
      assert !Idle(entries, e) && !Busy(entries, e);
      if capacity > 0 { Keep(n, v, charge); } else { Lend(n, v, charge); }
    }

    method Keep(n: Name, v: Value, charge: nat)
      requires Formed() && ListsOk(Abs()) && nextId >= FIRST && nextId !in entries && nextId !in lru && nextId !in inUse
      requires n in table.contents ==> var x := table.contents[n];
                 FIRST <= x != nextId && x in entries && entries[x].inCache && entries[x].refs > 0
      modifies this`links, this`lru, this`inUse, this`entries, this`destroyed, this`usage, this`nextId, table
      ensures Formed()
      ensures var s := old(Abs()); var p := Placed(s, n, v, charge);
              Abs() == if n in s.table then LruSpec.FinishErase(p, s.table[n]) else p
    {
      PlacedLists(Abs(), n, v, charge);
      var r := File(n, v, charge);
      FinishErase(r);
    }

    method File(n: Name, v: Value, charge: nat) returns (r: Option<Id>)
      requires Formed() && nextId >= FIRST && nextId !in lru && nextId !in inUse
      modifies this`links, this`lru, this`inUse, this`entries, this`usage, this`nextId, table
      ensures Formed() && Abs() == Placed(old(Abs()), n, v, charge)
      ensures r == if n in old(table.contents) then Some(old(table.contents)[n]) else None
    {
      var e := nextId;
      Adopt(n, v, charge);
      r := table.Insert(e, n);
    }

    /** With the cache switched off the handle is the caller's alone. */
    method Lend(n: Name, v: Value, charge: nat)
      requires RingsOk(links, lru, inUse) && nextId >= FIRST && nextId !in lru && nextId !in inUse
      modifies this`links, this`entries, this`nextId
      ensures RingsOk(links, lru, inUse) && nextId == old(nextId) + 1
      ensures entries == old(entries)[old(nextId) := Entry(n, v, charge, false, 1)]
    {
      var e := nextId;
      nextId := nextId + 1;
      entries := entries[e := Entry(n, v, charge, false, 1)];
      LooseNode(links, lru, inUse, e, NIL);
      links := links.(next := links.next[e := NIL]);
    }

    /** A new handle goes on in_use_. */
    method Adopt(n: Name, v: Value, charge: nat)
      requires RingsOk(links, lru, inUse) && nextId >= FIRST && nextId !in lru && nextId !in inUse
      modifies this`links, this`lru, this`inUse, this`entries, this`usage, this`nextId
      ensures RingsOk(links, lru, inUse) && lru == old(lru) && inUse == old(inUse) + [old(nextId)]
      ensures entries == old(entries)[old(nextId) := Entry(n, v, charge, true, 2)]
      ensures usage == old(usage) + charge && nextId == old(nextId) + 1
    {
      var e := nextId;
      nextId := nextId + 1;
      entries := entries[e := Entry(n, v, charge, true, 2)];
      LruAppend(IN_USE, e);
      usage := usage + charge;
    }
  }
}
