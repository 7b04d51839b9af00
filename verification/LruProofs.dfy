/** What every operation of the cache keeps, and what whole runs of clients can rely on. */
module LruProofs {
  import opened Common
  import opened Lists
  import opened LruSpec

  // ----- charges

  lemma {:induction false} ChargesSnoc(m: map<Id, Entry>, s: seq<Id>, x: Id)
    requires x in m
    ensures Charges(m, s + [x]) == Charges(m, s) + m[x].charge
  {
    if s == [] {
      assert s + [x] == [x];
    } else {
      assert (s + [x])[1..] == s[1..] + [x];
      ChargesSnoc(m, s[1..], x);
    }
  }

  lemma {:induction false} ChargesWithout(m: map<Id, Entry>, s: seq<Id>, x: Id)
    requires x in m && x in s
    ensures Charges(m, Without(s, x)) == Charges(m, s) - m[x].charge
  {
    if s[0] != x { ChargesWithout(m, s[1..], x); }
  }

  ghost predicate SameCharge(m: map<Id, Entry>, n: map<Id, Entry>, x: Id) {
    (x in m <==> x in n) && (x in m ==> m[x].charge == n[x].charge)
  }

  lemma {:induction false} ChargesSame(m: map<Id, Entry>, n: map<Id, Entry>, s: seq<Id>)
    requires forall x :: x in s ==> SameCharge(m, n, x)
    ensures Charges(m, s) == Charges(n, s)
  {
    if s != [] {
      assert s[0] in s;
      assert forall x :: x in s[1..] ==> x in s;
      ChargesSame(m, n, s[1..]);
    }
  }

  // ----- moving entries between the lists

  /** Only what is said about `x` differs. */
  ghost predicate SameBut(m: map<Id, Entry>, m': map<Id, Entry>, x: Id) {
    forall id :: id != x ==> (id in m <==> id in m') && (id in m ==> m[id] == m'[id])
  }

  lemma ChargesElsewhere(m: map<Id, Entry>, m': map<Id, Entry>, x: Id, s: seq<Id>)
    requires SameBut(m, m', x) && x !in s
    ensures Charges(m, s) == Charges(m', s)
  {
    ChargesSame(m, m', s);
  }

  /** An idle entry leaves lru_. */
  lemma LeaveLru(m: map<Id, Entry>, m': map<Id, Entry>, l: seq<Id>, x: Id)
    requires LruOk(m, l) && SameBut(m, m', x) && !Idle(m', x)
    ensures LruOk(m', Without(l, x)) && x !in Without(l, x)
    ensures Charges(m', Without(l, x)) == Charges(m, l) - if Idle(m, x) then m[x].charge else 0
  {
    WithoutOk(l, x);
    forall id ensures id in Without(l, x) <==> Idle(m', id) {
      assert id != x ==> (Idle(m, id) <==> Idle(m', id));
    }
    if x in l { ChargesWithout(m, l, x); } else { WithoutAbsent(l, x); }
    ChargesElsewhere(m, m', x, Without(l, x));
  }

  lemma LeaveInUse(m: map<Id, Entry>, m': map<Id, Entry>, l: seq<Id>, x: Id)
    requires InUseOk(m, l) && SameBut(m, m', x) && !Busy(m', x)
    ensures InUseOk(m', Without(l, x)) && x !in Without(l, x)
    ensures Charges(m', Without(l, x)) == Charges(m, l) - if Busy(m, x) then m[x].charge else 0
  {
    WithoutOk(l, x);
    forall id ensures id in Without(l, x) <==> Busy(m', id) {
      assert id != x ==> (Busy(m, id) <==> Busy(m', id));
    }
    if x in l { ChargesWithout(m, l, x); } else { WithoutAbsent(l, x); }
    ChargesElsewhere(m, m', x, Without(l, x));
  }

  lemma JoinLru(m: map<Id, Entry>, m': map<Id, Entry>, l: seq<Id>, x: Id)
    requires LruOk(m, l) && SameBut(m, m', x) && !Idle(m, x) && Idle(m', x)
    ensures LruOk(m', Without(l, x) + [x])
    ensures Charges(m', Without(l, x) + [x]) == Charges(m, l) + m'[x].charge
  {
    WithoutAbsent(l, x);
    SnocOk(l, x);
    forall id ensures id in l + [x] <==> Idle(m', id) {
      assert id != x ==> (Idle(m, id) <==> Idle(m', id));
    }
    ChargesElsewhere(m, m', x, l);
    ChargesSnoc(m', l, x);
  }

  lemma JoinInUse(m: map<Id, Entry>, m': map<Id, Entry>, l: seq<Id>, x: Id)
    requires InUseOk(m, l) && SameBut(m, m', x) && !Busy(m, x) && Busy(m', x)
    ensures Without(l, x) == l && InUseOk(m', l + [x])
    ensures Charges(m', l + [x]) == Charges(m, l) + m'[x].charge
  {
    WithoutAbsent(l, x);
    SnocOk(l, x);
    forall id ensures id in l + [x] <==> Busy(m', id) {
      assert id != x ==> (Busy(m, id) <==> Busy(m', id));
    }
    ChargesElsewhere(m, m', x, l);
    ChargesSnoc(m', l, x);
  }

  lemma StayLru(m: map<Id, Entry>, m': map<Id, Entry>, l: seq<Id>, x: Id)
    requires LruOk(m, l) && SameBut(m, m', x) && !Idle(m, x) && !Idle(m', x)
    ensures Without(l, x) == l && LruOk(m', l) && Charges(m', l) == Charges(m, l)
  {
    LeaveLru(m, m', l, x);
    WithoutAbsent(l, x);
  }

  lemma StayInUse(m: map<Id, Entry>, m': map<Id, Entry>, l: seq<Id>, x: Id)
    requires InUseOk(m, l) && SameBut(m, m', x) && (Busy(m, x) <==> Busy(m', x))
    requires Busy(m, x) ==> m[x].charge == m'[x].charge
    ensures InUseOk(m', l) && Charges(m', l) == Charges(m, l)
  {
    forall id ensures id in l <==> Busy(m', id) {
      assert id != x ==> (Busy(m, id) <==> Busy(m', id));
    }
    forall id | id in l ensures SameCharge(m, m', id) {
      assert Busy(m, id);
    }
    ChargesSame(m, m', l);
  }

  // ----- taking and giving back a reference

  lemma RefLists(s: State, id: Id)
    requires ListsOk(s) && id in s.entries && s.entries[id].refs > 0
    ensures ListsOk(Ref(s, id))
  {
    var m, m' := s.entries, Ref(s, id).entries;
    if Idle(m, id) {
      LeaveLru(m, m', s.lru, id);
      JoinInUse(m, m', s.inUse, id);
    } else {
      StayLru(m, m', s.lru, id);
      StayInUse(m, m', s.inUse, id);
    }
  }

  lemma RefOk(s: State, id: Id)
    requires Inv(s) && id in s.entries
    ensures Inv(Ref(s, id))
  {
    RefLists(s, id);
  }

  lemma UnrefLists(s: State, id: Id)
    requires ListsOk(s) && id in s.entries && s.entries[id].refs > if s.entries[id].inCache then 1 else 0
    ensures ListsOk(Unref(s, id))
  {
    var m, m' := s.entries, Unref(s, id).entries;
    if Idle(m', id) {
      JoinLru(m, m', s.lru, id);
      LeaveInUse(m, m', s.inUse, id);
    } else {
      StayLru(m, m', s.lru, id);
      StayInUse(m, m', s.inUse, id);
    }
  }

  lemma DestroyOk(s: State, id: Id)
    requires LivesOk(s) && id in s.entries
    ensures LivesOk(s.(entries := s.entries - {id}, destroyed := s.destroyed + [id]))
  {
    SnocOk(s.destroyed, id);
  }

  /** A client gives back its reference: the entry stays well filed, or is destroyed. */
  lemma UnrefOk(s: State, id: Id)
    requires Inv(s) && id in s.entries && (s.entries[id].inCache ==> s.entries[id].refs > 1)
    ensures Inv(Unref(s, id))
  {
    UnrefLists(s, id);
    if s.entries[id].refs == 1 { DestroyOk(s, id); }
  }

  // ----- leaving the cache

  /** TableOk, but for one entry in the cache that the table no longer knows. */
  ghost predicate TableBut(s: State, x: Id) {
    && x in s.entries && s.entries[x].inCache
    && (forall n :: n in s.table ==>
          s.table[n] in s.entries && s.entries[s.table[n]].name == n && s.entries[s.table[n]].inCache && s.table[n] != x)
    && (forall id :: id in s.entries && s.entries[id].inCache && id != x ==>
          s.entries[id].name in s.table && s.table[s.entries[id].name] == id)
  }

  lemma FinishEraseLists(s: State, x: Id)
    requires ListsOk(s) && x in s.entries && s.entries[x].inCache && s.entries[x].refs > 0
    ensures ListsOk(FinishErase(s, x))
  {
    var m, m' := s.entries, FinishErase(s, x).entries;
    assert SameBut(m, m', x);
    LeaveLru(m, m', s.lru, x);
    LeaveInUse(m, m', s.inUse, x);
  }

  lemma FinishEraseLives(s: State, x: Id)
    requires LivesOk(s) && x in s.entries
    ensures LivesOk(FinishErase(s, x))
  {
    var u := Unlink(s, x).(entries := s.entries[x := s.entries[x].(inCache := false)], usage := s.usage - s.entries[x].charge);
    assert LivesOk(u);
    if s.entries[x].refs == 1 { DestroyOk(u, x); }
  }

  lemma FinishEraseOk(s: State, x: Id)
    requires TableBut(s, x) && ListsOk(s) && LivesOk(s) && (s.capacity == 0 ==> s.table == map[])
    ensures Inv(FinishErase(s, x))
    ensures FinishErase(s, x).table == s.table && FinishErase(s, x).usage == s.usage - s.entries[x].charge
    ensures FinishErase(s, x).capacity == s.capacity && FinishErase(s, x).nextId == s.nextId
  {
    FinishEraseLists(s, x);
    FinishEraseLives(s, x);
  }

  lemma TableDrop(s: State, n: Name)
    requires TableOk(s) && n in s.table
    ensures TableBut(s.(table := s.table - {n}), s.table[n])
  {
  }

  lemma EraseOk(s: State, n: Name)
    requires Inv(s)
    ensures Inv(Erase(s, n))
    ensures Erase(s, n).table == s.table - {n} && Erase(s, n).usage <= s.usage
    ensures Erase(s, n).capacity == s.capacity && Erase(s, n).nextId == s.nextId
  {
    if n in s.table {
      TableDrop(s, n);
      FinishEraseOk(s.(table := s.table - {n}), s.table[n]);
    }
  }

  lemma PlacedLists(s: State, n: Name, v: Value, charge: nat)
    requires ListsOk(s) && s.nextId !in s.entries
    ensures ListsOk(Placed(s, n, v, charge))
  {
    var m, m' := s.entries, Placed(s, n, v, charge).entries;
    StayLru(m, m', s.lru, s.nextId);
    JoinInUse(m, m', s.inUse, s.nextId);
  }

  lemma PlacedTable(s: State, n: Name, v: Value, charge: nat)
    requires TableOk(s) && s.nextId !in s.entries
    ensures n !in s.table ==> TableOk(Placed(s, n, v, charge))
    ensures n in s.table ==> TableBut(Placed(s, n, v, charge), s.table[n])
  {
  }

  lemma PlaceOk(s: State, n: Name, v: Value, charge: nat)
    requires Inv(s)
    ensures Inv(Place(s, n, v, charge))
  {
    if s.capacity > 0 {
      var t := Placed(s, n, v, charge);
      PlacedLists(s, n, v, charge);
      PlacedTable(s, n, v, charge);
      assert LivesOk(t);
      if n in s.table { FinishEraseOk(t, s.table[n]); }
    } else {
      var m, m' := s.entries, Place(s, n, v, charge).entries;
      StayLru(m, m', s.lru, s.nextId);
      StayInUse(m, m', s.inUse, s.nextId);
    }
  }

  // ----- eviction

  function EraseOldest(s: State): State
    requires Inv(s) && s.lru != []
  {
    assert Idle(s.entries, s.lru[0]);
    Erase(s, s.entries[s.lru[0]].name)
  }

  /** Only the oldest idle entry goes, and it is destroyed at once. */
  lemma EraseOldestOk(s: State)
    requires Inv(s) && s.lru != []
    ensures var t, x := EraseOldest(s), s.lru[0];
            && Inv(t) && x in s.entries && s.entries[x].inCache
            && t == s.(lru := s.lru[1..], entries := s.entries - {x}, table := s.table - {s.entries[x].name},
                       destroyed := s.destroyed + [x], usage := s.usage - s.entries[x].charge)
  {
    var x := s.lru[0];
    assert Idle(s.entries, x) && !Busy(s.entries, x);
    EraseOk(s, s.entries[x].name);
    WithoutAbsent(s.inUse, x);
    assert s.entries[x := s.entries[x].(inCache := false)] - {x} == s.entries - {x};
  }

  /** The loop at the end of Insert. */
  function Evict(s: State): State
    requires Inv(s)
    decreases |s.lru|
  {
    if s.usage > s.capacity && s.lru != [] then EraseOldestOk(s); Evict(EraseOldest(s)) else s
  }

  function Prune(s: State): State
    requires Inv(s)
    decreases |s.lru|
  {
    if s.lru != [] then EraseOldestOk(s); Prune(EraseOldest(s)) else s
  }

  function Insert(s: State, n: Name, v: Value, charge: nat): State
    requires Inv(s)
  {
    PlaceOk(s, n, v, charge);
    Evict(Place(s, n, v, charge))
  }

  /** `t` is `s` after its k oldest idle entries have been destroyed, oldest first. */
  ghost predicate Dropped(s: State, t: State, k: nat) {
    && k <= |s.lru|
    && t.capacity == s.capacity && t.nextId == s.nextId && t.inUse == s.inUse
    && t.lru == s.lru[k..] && t.destroyed == s.destroyed + s.lru[..k]
    && t.usage == s.usage - Charges(s.entries, s.lru[..k])
    && EntriesGone(s, t, s.lru[..k]) && NamesGone(s, t, s.lru[..k])
  }

  ghost predicate EntriesGone(s: State, t: State, ids: seq<Id>) {
    && (forall id :: id in t.entries <==> id in s.entries && id !in ids)
    && (forall id :: id in t.entries ==> t.entries[id] == s.entries[id])
  }

  ghost predicate NamesGone(s: State, t: State, ids: seq<Id>) {
    && (forall n :: n in t.table <==> n in s.table && s.table[n] !in ids)
    && (forall n :: n in t.table ==> t.table[n] == s.table[n])
  }

  lemma DropNone(s: State)
    ensures Dropped(s, s, 0)
  {
    assert s.lru[..0] == [];
  }

  lemma DropUsage(s: State, j: nat)
    requires Inv(s) && j < |s.lru|
    ensures var u := EraseOldest(s);
            j <= |u.lru| && s.usage - Charges(s.entries, s.lru[..j + 1]) == u.usage - Charges(u.entries, u.lru[..j])
  {
    EraseOldestOk(s);
    var u, x := EraseOldest(s), s.lru[0];
    assert s.lru[..j + 1] == [x] + u.lru[..j];
    ChargesSame(s.entries, u.entries, u.lru[..j]);
  }

  /** With the j oldest gone there is still too much. */
  ghost predicate StillOver(s: State, j: nat) {
    j <= |s.lru| && s.usage - Charges(s.entries, s.lru[..j]) > s.capacity
  }

  lemma OverShift(s: State, k: nat)
    requires Inv(s) && s.usage > s.capacity && k < |s.lru|
    requires forall j: nat :: j < k ==> StillOver(EraseOldest(s), j)
    ensures forall j: nat :: j < k + 1 ==> StillOver(s, j)
  {
    EraseOldestOk(s);
    forall j: nat | j < k + 1 ensures StillOver(s, j) {
      if j == 0 {
        assert s.lru[..j] == [];
      } else {
        assert StillOver(EraseOldest(s), j - 1);
        DropUsage(s, j - 1);
      }
    }
  }

  lemma DropMore(s: State, t: State, k: nat)
    requires Inv(s) && s.lru != [] && Dropped(EraseOldest(s), t, k)
    ensures Dropped(s, t, k + 1)
  {
    EraseOldestOk(s);
    DropUsage(s, k);
    DropStep(s, EraseOldest(s), t, s.lru[0], k);
  }

  lemma FirstAndRest(a: seq<Id>, b: seq<Id>, k: nat)
    requires k < |a|
    ensures a[..k + 1] == [a[0]] + a[1..][..k] && a[k + 1..] == a[1..][k..]
    ensures b + [a[0]] + a[1..][..k] == b + a[..k + 1]
  {
    assert a[..k + 1] == [a[0]] + a[1..][..k];
  }

  lemma DropStep(s: State, u: State, t: State, x: Id, k: nat)
    requires TableOk(s) && s.lru != [] && x == s.lru[0] && x in s.entries && s.entries[x].inCache && k < |s.lru|
    requires u == s.(lru := s.lru[1..], entries := s.entries - {x}, table := s.table - {s.entries[x].name},
                     destroyed := s.destroyed + [x], usage := s.usage - s.entries[x].charge)
    requires Dropped(u, t, k) && s.usage - Charges(s.entries, s.lru[..k + 1]) == u.usage - Charges(u.entries, u.lru[..k])
    ensures Dropped(s, t, k + 1)
  {
    var l, l' := u.lru[..k], s.lru[..k + 1];
    FirstAndRest(s.lru, s.destroyed, k);
    DropEntries(s, u, t, x, l, l');
    DropTable(s, u, t, x, l, l');
  }

  lemma DropEntries(s: State, u: State, t: State, x: Id, l: seq<Id>, l': seq<Id>)
    requires u.entries == s.entries - {x} && l' == [x] + l
    requires EntriesGone(u, t, l)
    ensures EntriesGone(s, t, l')
  {
  }

  lemma DropTable(s: State, u: State, t: State, x: Id, l: seq<Id>, l': seq<Id>)
    requires TableOk(s) && x in s.entries && s.entries[x].inCache && u.table == s.table - {s.entries[x].name} && l' == [x] + l
    requires NamesGone(u, t, l)
    ensures NamesGone(s, t, l')
  {
    forall n | n in s.table ensures n == s.entries[x].name <==> s.table[n] == x {}
  }

  /** Eviction takes the shortest run of oldest idle entries that brings usage_ down to the
      capacity, or all of them when even that is not enough. */
  lemma {:induction false} EvictShape(s: State) returns (k: nat)
    requires Inv(s)
    ensures Inv(Evict(s)) && Dropped(s, Evict(s), k)
    ensures k == |s.lru| || Evict(s).usage <= s.capacity
    ensures forall j: nat :: j < k ==> StillOver(s, j)
    decreases |s.lru|
  {
    if s.usage > s.capacity && s.lru != [] {
      EraseOldestOk(s);
      k := EvictShape(EraseOldest(s));
      DropMore(s, Evict(s), k);
      OverShift(s, k);
      k := k + 1;
    } else {
      k := 0;
      DropNone(s);
    }
  }

  lemma {:induction false} PruneShape(s: State)
    requires Inv(s)
    ensures Inv(Prune(s)) && Dropped(s, Prune(s), |s.lru|)
    decreases |s.lru|
  {
    if s.lru == [] {
      DropNone(s);
    } else {
      EraseOldestOk(s);
      PruneShape(EraseOldest(s));
      DropMore(s, Prune(s), |s.lru| - 1);
    }
  }
}
