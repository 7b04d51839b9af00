/** Runs of clients that look up, insert, release, erase and prune in any order. */
module LruRuns {
  import opened Common
  import opened Lists
  import opened LruSpec
  import opened LruProofs

  datatype Op =
    | InsertOp(name: Name, value: Value, charge: nat)
    | LookupOp(name: Name)
    | ReleaseOp(id: Id)
    | EraseOp(name: Name)
    | PruneOp

  /** The cache, the handles clients have not given back yet, and when each entry was last
      given back. */
  datatype World = World(cache: State, held: multiset<Id>, released: map<Id, nat>, now: nat)

  ghost function Begin(capacity: nat): (w: World)
    ensures WorldInv(w)
  {
    World(Start(capacity), multiset{}, map[], 0)
  }

  /** A client gives back only what it holds. */
  ghost predicate Allowed(w: World, op: Op) {
    op.ReleaseOp? ==> op.id in w.held
  }

  /** The references of an entry are the handles in clients' hands and one for the cache. */
  ghost predicate Counted(m: map<Id, Entry>, held: multiset<Id>, id: Id) {
    if id in m then m[id].refs == held[id] + (if m[id].inCache then 1 else 0) else held[id] == 0
  }

  ghost predicate HeldOk(m: map<Id, Entry>, held: multiset<Id>) {
    forall id :: Counted(m, held, id)
  }

  /** Longest unused first. */
  ghost predicate OldestFirst(l: seq<Id>, released: map<Id, nat>, now: nat) {
    && (forall i :: 0 <= i < |l| ==> l[i] in released && released[l[i]] < now)
    && (forall i, j :: 0 <= i < j < |l| ==> released[l[i]] < released[l[j]])
  }

  ghost predicate WorldInv(w: World) {
    Inv(w.cache) && HeldOk(w.cache.entries, w.held) && OldestFirst(w.cache.lru, w.released, w.now)
  }

  lemma HeldIsAlive(w: World, id: Id)
    requires WorldInv(w) && id in w.held
    ensures id in w.cache.entries && id !in w.cache.destroyed && id !in w.cache.lru
    ensures w.cache.entries[id].inCache ==> w.cache.entries[id].refs > 1
  {
    assert Counted(w.cache.entries, w.held, id);
  }

  function Step(w: World, op: Op): World
    requires WorldInv(w) && Allowed(w, op)
  {
    match op
    case InsertOp(n, v, c) =>
      w.(cache := Insert(w.cache, n, v, c), held := w.held + multiset{w.cache.nextId})
    case LookupOp(n) =>
      var (s, r) := Lookup(w.cache, n);
      w.(cache := s, held := if r.Some? then w.held + multiset{r.value} else w.held)
    case ReleaseOp(id) =>
      HeldIsAlive(w, id);
      World(Unref(w.cache, id), w.held - multiset{id}, w.released[id := w.now], w.now + 1)
    case EraseOp(n) => w.(cache := Erase(w.cache, n))
    case PruneOp => w.(cache := Prune(w.cache))
  }

  // ----- what a step keeps

  lemma DropRecent(l: seq<Id>, k: nat, released: map<Id, nat>, now: nat)
    requires k < |l| && OldestFirst(l, released, now)
    ensures OldestFirst(Drop(l, k), released, now)
  {
    var r := Drop(l, k);
    forall i | 0 <= i < |r| ensures r[i] in released && released[r[i]] < now {
      assert r[i] == l[if i < k then i else i + 1];
    }
    forall i, j | 0 <= i < j < |r| ensures released[r[i]] < released[r[j]] {
      var i', j' := if i < k then i else i + 1, if j < k then j else j + 1;
      assert r[i] == l[i'] && r[j] == l[j'] && i' < j';
    }
  }

  lemma WithoutRecent(l: seq<Id>, x: Id, released: map<Id, nat>, now: nat)
    requires NoDup(l) && OldestFirst(l, released, now)
    ensures OldestFirst(Without(l, x), released, now)
  {
    if x in l {
      var k :| 0 <= k < |l| && l[k] == x;
      WithoutAt(l, k);
      DropRecent(l, k, released, now);
    } else {
      WithoutAbsent(l, x);
    }
  }

  /** Leaving the cache takes nothing from a client. */
  lemma FinishEraseHeld(s: State, x: Id, held: multiset<Id>)
    requires x in s.entries && s.entries[x].inCache && s.entries[x].refs > 0 && HeldOk(s.entries, held)
    ensures HeldOk(FinishErase(s, x).entries, held)
  {
    var m := FinishErase(s, x).entries;
    forall id ensures Counted(m, held, id) {
      assert Counted(s.entries, held, id);
    }
  }

  lemma DroppedHeld(s: State, t: State, k: nat, held: multiset<Id>)
    requires Inv(s) && Dropped(s, t, k) && HeldOk(s.entries, held)
    ensures HeldOk(t.entries, held)
  {
    forall id ensures Counted(t.entries, held, id) {
      assert Counted(s.entries, held, id);
      if id in s.lru[..k] { assert id in s.lru && Idle(s.entries, id); }
    }
  }

  lemma PlacedHeld(s: State, n: Name, v: Value, charge: nat, held: multiset<Id>)
    requires Inv(s) && HeldOk(s.entries, held)
    ensures HeldOk(Placed(s, n, v, charge).entries, held + multiset{s.nextId})
  {
    forall id ensures Counted(Placed(s, n, v, charge).entries, held + multiset{s.nextId}, id) {
      assert Counted(s.entries, held, id);
    }
  }

  lemma PlaceStep(w: World, n: Name, v: Value, charge: nat)
    requires WorldInv(w)
    ensures var p := Place(w.cache, n, v, charge);
            WorldInv(w.(cache := p, held := w.held + multiset{w.cache.nextId}))
  {
    var s := w.cache;
    var p := Place(s, n, v, charge);
    var held := w.held + multiset{s.nextId};
    PlaceOk(s, n, v, charge);
    if s.capacity > 0 {
      PlacedHeld(s, n, v, charge, w.held);
      if n in s.table {
        FinishEraseHeld(Placed(s, n, v, charge), s.table[n], held);
        WithoutRecent(s.lru, s.table[n], w.released, w.now);
      }
    } else {
      forall id ensures Counted(p.entries, held, id) {
        assert Counted(s.entries, w.held, id);
      }
    }
  }

  lemma DroppedStep(w: World, t: State, k: nat)
    requires WorldInv(w) && Inv(t) && Dropped(w.cache, t, k)
    ensures WorldInv(w.(cache := t))
  {
    DroppedHeld(w.cache, t, k, w.held);
  }

  lemma LookupStep(w: World, n: Name)
    requires WorldInv(w)
    ensures WorldInv(Step(w, LookupOp(n)))
  {
    if n in w.cache.table {
      var id := w.cache.table[n];
      RefOk(w.cache, id);
      WithoutRecent(w.cache.lru, id, w.released, w.now);
      var t := Step(w, LookupOp(n));
      forall x ensures Counted(t.cache.entries, t.held, x) {
        assert Counted(w.cache.entries, w.held, x);
      }
    }
  }

  lemma UnrefHeld(s: State, id: Id, held: multiset<Id>)
    requires id in held && id in s.entries && s.entries[id].refs > 0 && HeldOk(s.entries, held)
    ensures HeldOk(Unref(s, id).entries, held - multiset{id})
  {
    forall x ensures Counted(Unref(s, id).entries, held - multiset{id}, x) {
      assert Counted(s.entries, held, x);
    }
  }

  lemma SnocRecent(l: seq<Id>, x: Id, released: map<Id, nat>, now: nat)
    requires x !in l && OldestFirst(l, released, now)
    ensures OldestFirst(l, released[x := now], now + 1)
    ensures OldestFirst(l + [x], released[x := now], now + 1)
  {
    assert forall i :: 0 <= i < |l| ==> l[i] != x;
  }

  lemma ReleaseStep(w: World, id: Id)
    requires WorldInv(w) && id in w.held
    ensures WorldInv(Step(w, ReleaseOp(id)))
  {
    HeldIsAlive(w, id);
    UnrefOk(w.cache, id);
    UnrefHeld(w.cache, id, w.held);
    WithoutAbsent(w.cache.lru, id);
    SnocRecent(w.cache.lru, id, w.released, w.now);
  }

  lemma EraseStep(w: World, n: Name)
    requires WorldInv(w)
    ensures WorldInv(Step(w, EraseOp(n)))
  {
    EraseOk(w.cache, n);
    if n in w.cache.table {
      FinishEraseHeld(w.cache.(table := w.cache.table - {n}), w.cache.table[n], w.held);
      WithoutRecent(w.cache.lru, w.cache.table[n], w.released, w.now);
    }
  }

  lemma StepKeepsInv(w: World, op: Op)
    requires WorldInv(w) && Allowed(w, op)
    ensures WorldInv(Step(w, op))
  {
    match op
    case InsertOp(n, v, c) =>
      PlaceStep(w, n, v, c);
      var p := w.(cache := Place(w.cache, n, v, c), held := w.held + multiset{w.cache.nextId});
      var k := EvictShape(p.cache);
      DroppedStep(p, Evict(p.cache), k);
    case LookupOp(n) => LookupStep(w, n);
    case ReleaseOp(id) => ReleaseStep(w, id);
    case EraseOp(n) => EraseStep(w, n);
    case PruneOp =>
      PruneShape(w.cache);
      DroppedStep(w, Prune(w.cache), |w.cache.lru|);
  }

  // ----- whole runs

  ghost predicate Legal(w: World, ops: seq<Op>)
    requires WorldInv(w)
    decreases |ops|
  {
    ops != [] ==> Allowed(w, ops[0]) && (StepKeepsInv(w, ops[0]); Legal(Step(w, ops[0]), ops[1..]))
  }

  ghost function Run(w: World, ops: seq<Op>): World
    requires WorldInv(w) && Legal(w, ops)
    decreases |ops|
  {
    if ops == [] then w else (StepKeepsInv(w, ops[0]); Run(Step(w, ops[0]), ops[1..]))
  }

  lemma {:induction false} RunKeepsInv(w: World, ops: seq<Op>)
    requires WorldInv(w) && Legal(w, ops)
    ensures WorldInv(Run(w, ops))
    decreases |ops|
  {
    if ops != [] {
      StepKeepsInv(w, ops[0]);
      RunKeepsInv(Step(w, ops[0]), ops[1..]);
    }
  }

  ghost predicate SameEntry(m: map<Id, Entry>, m': map<Id, Entry>, id: Id) {
    id in m && id in m' ==>
      m[id].name == m'[id].name && m[id].value == m'[id].value && m[id].charge == m'[id].charge
  }

  /** What identifies an entry never changes, and the list of destroyed entries only grows. */
  ghost predicate Persists(s: State, t: State) {
    s.destroyed <= t.destroyed && forall id :: SameEntry(s.entries, t.entries, id)
  }

  lemma DroppedPersists(s: State, p: State, t: State, k: nat)
    requires Persists(s, p) && Dropped(p, t, k)
    ensures Persists(s, t)
  {
    forall id ensures SameEntry(s.entries, t.entries, id) {
      assert SameEntry(s.entries, p.entries, id);
    }
  }

  lemma FinishErasePersists(s: State, x: Id)
    requires x in s.entries && s.entries[x].refs > 0
    ensures Persists(s, FinishErase(s, x))
  {
  }

  lemma PlacePersists(s: State, n: Name, v: Value, charge: nat)
    requires Inv(s)
    ensures Persists(s, Place(s, n, v, charge))
  {
    if s.capacity > 0 && n in s.table {
      var t, p := Placed(s, n, v, charge), Place(s, n, v, charge);
      FinishErasePersists(t, s.table[n]);
      forall id ensures SameEntry(s.entries, p.entries, id) {
        assert SameEntry(t.entries, p.entries, id);
      }
    }
  }

  lemma UnrefPersists(s: State, x: Id)
    requires x in s.entries && s.entries[x].refs > 0
    ensures Persists(s, Unref(s, x))
  {
  }

  lemma StepPersists(w: World, op: Op)
    requires WorldInv(w) && Allowed(w, op)
    ensures Persists(w.cache, Step(w, op).cache)
  {
    match op
    case InsertOp(n, v, c) =>
      PlaceOk(w.cache, n, v, c);
      PlacePersists(w.cache, n, v, c);
      var p := Place(w.cache, n, v, c);
      var k := EvictShape(p);
      DroppedPersists(w.cache, p, Evict(p), k);
    case LookupOp(n) =>
    case ReleaseOp(id) =>
      HeldIsAlive(w, id);
      UnrefPersists(w.cache, id);
    case EraseOp(n) =>
      if n in w.cache.table { FinishErasePersists(w.cache.(table := w.cache.table - {n}), w.cache.table[n]); }
    case PruneOp =>
      PruneShape(w.cache);
      DroppedPersists(w.cache, w.cache, Prune(w.cache), |w.cache.lru|);
  }

  /** Safety over every run: whatever a client holds is alive, each entry is destroyed at most
      once, and every entry ever inserted is alive or destroyed. */
  lemma RunIsSafe(capacity: nat, ops: seq<Op>)
    requires Legal(Begin(capacity), ops)
    ensures var w := Run(Begin(capacity), ops);
            && (forall id :: id in w.held ==> id in w.cache.entries && id !in w.cache.destroyed)
            && (forall id :: FIRST <= id < w.cache.nextId ==>
                  multiset(w.cache.destroyed)[id] == if id in w.cache.entries then 0 else 1)
  {
    RunKeepsInv(Begin(capacity), ops);
    var w := Run(Begin(capacity), ops);
    forall id | id in w.held ensures id in w.cache.entries && id !in w.cache.destroyed {
      HeldIsAlive(w, id);
    }
    forall id | FIRST <= id < w.cache.nextId
      ensures multiset(w.cache.destroyed)[id] == if id in w.cache.entries then 0 else 1
    {
      CountOnce(w.cache.destroyed, id);
    }
  }

  lemma {:induction false} CountOnce(s: seq<Id>, x: Id)
    requires NoDup(s)
    ensures multiset(s)[x] == if x in s then 1 else 0
  {
    if s != [] {
      CountOnce(s[1..], x);
      assert s == [s[0]] + s[1..];
    }
  }

  lemma {:induction false} ChargesNone(l: seq<Id>)
    ensures Charges(map[], l) == 0
  {
    if l != [] { ChargesNone(l[1..]); }
  }

  /** With every handle given back, Prune leaves nothing behind. */
  lemma NothingLeaks(w: World)
    requires WorldInv(w) && w.held == multiset{}
    ensures var t := Step(w, PruneOp).cache;
            && t.entries == map[] && t.table == map[] && t.usage == 0
            && forall id :: FIRST <= id < t.nextId ==> multiset(t.destroyed)[id] == 1
  {
    var s := w.cache;
    PruneShape(s);
    var t := Prune(s);
    forall id | id in s.entries ensures id in s.lru {
      assert Counted(s.entries, w.held, id);
      assert Idle(s.entries, id);
    }
    assert s.lru[..|s.lru|] == s.lru && s.lru[|s.lru|..] == [];
    ChargesNone(t.lru);
    ChargesNone(t.inUse);
    forall id | FIRST <= id < t.nextId ensures multiset(t.destroyed)[id] == 1 {
      CountOnce(t.destroyed, id);
    }
  }

  // ----- what clients see

  /** The values that can be looked up. */
  function View(s: State): map<Name, Value>
    requires TableOk(s)
  {
    map n | n in s.table :: s.entries[s.table[n]].value
  }

  /** Lookup hands out the entry of that name exactly when there is one, and changes no value. */
  lemma LookupFinds(s: State, n: Name)
    requires Inv(s)
    ensures var (t, r) := Lookup(s, n);
            && (r.Some? <==> n in View(s))
            && (r.Some? ==> s.entries[r.value].name == n && s.entries[r.value].value == View(s)[n])
            && Inv(t) && View(t) == View(s)
  {
    if n in s.table { RefOk(s, s.table[n]); }
  }

  ghost predicate SameSeen(s: State, t: State, n: Name)
    requires TableOk(s) && TableOk(t)
  {
    (n in s.table <==> n in t.table) && (n in s.table ==> s.entries[s.table[n]].value == t.entries[t.table[n]].value)
  }

  lemma SameView(s: State, t: State)
    requires TableOk(s) && TableOk(t) && forall n :: SameSeen(s, t, n)
    ensures View(s) == View(t)
  {
    assert forall n :: n in View(s) ==> SameSeen(s, t, n);
    assert forall n :: n in View(t) ==> SameSeen(s, t, n);
  }

  lemma ReleaseKeepsView(w: World, id: Id)
    requires WorldInv(w) && id in w.held
    ensures var t := Step(w, ReleaseOp(id)).cache; Inv(t) && View(t) == View(w.cache)
  {
    HeldIsAlive(w, id);
    UnrefOk(w.cache, id);
    StepPersists(w, ReleaseOp(id));
    var t := Step(w, ReleaseOp(id)).cache;
    forall n ensures SameSeen(w.cache, t, n) {
      if n in w.cache.table { assert SameEntry(w.cache.entries, t.entries, w.cache.table[n]); }
    }
    SameView(w.cache, t);
  }

  lemma EraseView(s: State, n: Name)
    requires Inv(s)
    ensures Inv(Erase(s, n)) && View(Erase(s, n)) == View(s) - {n}
  {
    EraseOk(s, n);
  }

  lemma FinishEraseKeeps(s: State, id: Id, x: Id)
    requires id in s.entries && s.entries[id].refs > 0 && x in s.entries && x != id
    ensures var t := FinishErase(s, id); x in t.entries && t.entries[x] == s.entries[x]
  {
  }

  lemma PlaceSeen(s: State, n: Name, v: Value, charge: nat, m: Name)
    requires Inv(s)
    ensures var p := Place(s, n, v, charge);
            && Inv(p) && p.capacity == s.capacity
            && (if s.capacity > 0 && m == n then m in p.table && p.table[m] == s.nextId && p.entries[p.table[m]].value == v
                else SameSeen(s, p, m))
  {
    PlaceOk(s, n, v, charge);
    if n in s.table && s.capacity > 0 {
      var t := Placed(s, n, v, charge);
      FinishEraseKeeps(t, s.table[n], s.nextId);
      if m in s.table && m != n { FinishEraseKeeps(t, s.table[n], s.table[m]); }
    }
  }

  lemma PlaceView(s: State, n: Name, v: Value, charge: nat)
    requires Inv(s)
    ensures var p := Place(s, n, v, charge);
            && Inv(p) && p.capacity == s.capacity
            && View(p) == Filed(s, n, v)
            && (s.capacity > 0 ==> n in p.table && p.table[n] == s.nextId)
  {
    PlaceSeen(s, n, v, charge, n);
    var p := Place(s, n, v, charge);
    var want := Filed(s, n, v);
    forall m ensures (m in View(p) <==> m in want) && (m in View(p) ==> View(p)[m] == want[m]) {
      PlaceSeen(s, n, v, charge, m);
    }
  }

  ghost function NamesOf(s: State, ids: seq<Id>): set<Name> {
    set id | id in ids && id in s.entries :: s.entries[id].name
  }

  /** Dropping entries takes exactly their names out of what lookups see. */
  lemma DroppedView(p: State, t: State, k: nat)
    requires Inv(p) && Inv(t) && Dropped(p, t, k)
    ensures View(t) == View(p) - NamesOf(p, p.lru[..k])
  {
    var gone := NamesOf(p, p.lru[..k]);
    forall m ensures (m in View(t) <==> m in View(p) && m !in gone) && (m in View(t) ==> View(t)[m] == View(p)[m]) {
      DroppedSeen(p, t, p.lru[..k], m);
    }
    MapLess(View(p), View(t), gone);
  }

  lemma DroppedSeen(p: State, t: State, ids: seq<Id>, m: Name)
    requires Inv(p) && Inv(t) && EntriesGone(p, t, ids) && NamesGone(p, t, ids) && forall id :: id in ids ==> id in p.lru
    ensures m in View(t) <==> m in View(p) && m !in NamesOf(p, ids)
    ensures m in View(t) ==> View(t)[m] == View(p)[m]
  {
    assert m in t.table <==> m in p.table && p.table[m] !in ids;
    if m in p.table { DroppedName(p, ids, m); }
  }

  lemma MapLess(a: map<Name, Value>, b: map<Name, Value>, gone: set<Name>)
    requires forall m :: (m in b <==> m in a && m !in gone) && (m in b ==> b[m] == a[m])
    ensures b == a - gone
  {
  }

  lemma DroppedName(p: State, ids: seq<Id>, m: Name)
    requires Inv(p) && (forall id :: id in ids ==> id in p.lru) && m in p.table
    ensures m in NamesOf(p, ids) <==> p.table[m] in ids
  {
    if m in NamesOf(p, ids) {
      var id :| id in ids && id in p.entries && p.entries[id].name == m;
      assert id in p.lru;
      assert Idle(p.entries, id);
    }
  }

  /** From the cache p with the new entry in place to t: what is dropped was idle, had gone unused
      longer than everything idle that stays, and had to go.  Lookups see m, less what was dropped. */
  ghost predicate Evicted(p: State, t: State, k: nat, released: map<Id, nat>, m: map<Name, Value>) {
    && Inv(p) && Inv(t) && Dropped(p, t, k)
    && (t.usage <= t.capacity || t.lru == [])
    && (forall j: nat :: j < k ==> StillOver(p, j))
    && k <= |p.lru| && Older(p.lru[..k], t.lru, released)
    && ShowsLess(t, m, NamesOf(p, p.lru[..k]))
  }

  /** Insert: the handle shows name, value and charge; with a capacity the new entry is in the table
      and stays; the oldest go, as few as will do. */
  lemma InsertOk(w: World, n: Name, v: Value, charge: nat) returns (k: nat)
    requires WorldInv(w)
    ensures var t := Insert(w.cache, n, v, charge);
            && Evicted(Place(w.cache, n, v, charge), t, k, w.released, Filed(w.cache, n, v))
            && (w.cache.capacity > 0 ==> n in t.table && t.table[n] == w.cache.nextId)
            && Made(t, w.cache.nextId, n, v, charge) && t.nextId == w.cache.nextId + 1
  {
    PlaceView(w.cache, n, v, charge);
    PlaceStep(w, n, v, charge);
    var p := Place(w.cache, n, v, charge);
    k := EvictOldest(p, w.released, w.now);
    NewStays(w.cache, n, v, charge);
    NewSurvives(p, Evict(p), k, w.cache.nextId);
    if w.cache.capacity > 0 { EvictKeeps(p, Evict(p), k, n, w.cache.nextId); }
  }

  /** The handle lent out for an insert shows what the client asked for, and is in the cache unless
      the cache is switched off. */
  ghost predicate Made(s: State, id: Id, n: Name, v: Value, charge: nat) {
    && id in s.entries && s.entries[id].name == n && s.entries[id].value == v && s.entries[id].charge == charge
    && (s.entries[id].inCache <==> s.capacity > 0)
  }

  lemma NewSurvives(p: State, t: State, k: nat, id: Id)
    requires Dropped(p, t, k) && id in p.entries && id !in p.lru
    ensures id in t.entries && t.entries[id] == p.entries[id]
  {
    assert id !in p.lru[..k];
  }

  lemma EvictOldest(p: State, released: map<Id, nat>, now: nat) returns (k: nat)
    requires Inv(p) && OldestFirst(p.lru, released, now)
    ensures Evicted(p, Evict(p), k, released, View(p))
  {
    k := EvictShape(p);
    OldestGo(p.lru, k, released, now);
    DroppedView(p, Evict(p), k);
  }

  lemma EvictKeeps(p: State, t: State, k: nat, n: Name, id: Id)
    requires Dropped(p, t, k) && n in p.table && p.table[n] == id && id !in p.lru
    ensures n in t.table && t.table[n] == id
  {
    assert id !in p.lru[..k];
  }

  /** What lookups should see after an insert that drops nothing; without capacity nothing is filed. */
  function Filed(s: State, n: Name, v: Value): map<Name, Value>
    requires TableOk(s)
  {
    if s.capacity > 0 then View(s)[n := v] else View(s)
  }

  /** Lookups see m, less the names that are gone. */
  ghost predicate ShowsLess(s: State, m: map<Name, Value>, gone: set<Name>)
    requires TableOk(s)
  {
    View(s) == m - gone
  }

  ghost predicate Older(gone: seq<Id>, kept: seq<Id>, released: map<Id, nat>) {
    forall d, r :: d in gone && r in kept ==> d in released && r in released && released[d] < released[r]
  }

  lemma OldestGo(l: seq<Id>, k: nat, released: map<Id, nat>, now: nat)
    requires k <= |l| && OldestFirst(l, released, now)
    ensures Older(l[..k], l[k..], released)
  {
    forall d, r | d in l[..k] && r in l[k..] ensures d in released && r in released && released[d] < released[r] {
      var i :| 0 <= i < k && l[i] == d;
      var j :| 0 <= j < |l| - k && l[k..][j] == r;
      assert l[k + j] == r;
    }
  }

  /** The caller holds the new entry, so it is not on lru_ and cannot be evicted. */
  lemma NewStays(s: State, n: Name, v: Value, charge: nat)
    requires Inv(s)
    ensures var p := Place(s, n, v, charge);
            s.nextId !in p.lru && Made(p, s.nextId, n, v, charge) && p.nextId == s.nextId + 1
  {
    PlaceOk(s, n, v, charge);
    if s.capacity > 0 && n in s.table { FinishEraseKeeps(Placed(s, n, v, charge), s.table[n], s.nextId); }
    assert !Idle(Place(s, n, v, charge).entries, s.nextId);
  }

  /** Prune drops everything nobody holds and nothing else. */
  lemma PruneView(s: State)
    requires Inv(s)
    ensures var t := Prune(s);
            && Inv(t) && t.lru == [] && t.inUse == s.inUse
            && View(t) == View(s) - NamesOf(s, s.lru)
            && forall id :: id in t.entries <==> id in s.entries && !Idle(s.entries, id)
  {
    PruneShape(s);
    assert s.lru[..|s.lru|] == s.lru;
    DroppedView(s, Prune(s), |s.lru|);
  }
}
