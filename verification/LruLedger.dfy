/** The cache against a ledger of what its clients asked for. */
module LruLedger {
  import opened Lists
  import opened LruSpec
  import opened LruProofs
  import opened LruRuns

  datatype Ask = Ask(name: Name, value: Value, charge: nat)

  /** What was asked for under each handle, and the handle of the last insert under each name. */
  datatype Ledger = Ledger(asked: map<Id, Ask>, last: map<Name, Id>)

  /** Only inserts are booked, with the handle they return. */
  function Book(w: World, l: Ledger, op: Op): Ledger {
    match op
    case InsertOp(n, v, c) => Ledger(l.asked[w.cache.nextId := Ask(n, v, c)], l.last[n := w.cache.nextId])
    case _ => l
  }

  ghost predicate Shows(m: map<Id, Entry>, asked: map<Id, Ask>, id: Id) {
    id in m ==> id in asked && asked[id] == Ask(m[id].name, m[id].value, m[id].charge)
  }

  /** Every entry is as it was asked for, and a name stands for its last insert. */
  ghost predicate Matches(w: World, l: Ledger) {
    && (forall id :: Shows(w.cache.entries, l.asked, id))
    && (forall n :: n in w.cache.table ==> n in l.last && w.cache.table[n] == l.last[n])
  }

  // ----- one step

  lemma ShowsStep(w: World, l: Ledger, op: Op, id: Id)
    requires WorldInv(w) && Allowed(w, op) && Matches(w, l)
    ensures Shows(Step(w, op).cache.entries, Book(w, l, op).asked, id)
  {
    StepKeepsInv(w, op);
    StepPersists(w, op);
    assert SameEntry(w.cache.entries, Step(w, op).cache.entries, id) && Shows(w.cache.entries, l.asked, id);
    NewIds(w, op);
    if op.InsertOp? { var k := InsertOk(w, op.name, op.value, op.charge); }
  }

  /** A handle that was not there before is the next one, and comes from an insert. */
  lemma NewIds(w: World, op: Op)
    requires WorldInv(w) && Allowed(w, op)
    ensures var t := Step(w, op).cache;
            forall id :: id in t.entries && id !in w.cache.entries ==> op.InsertOp? && id == w.cache.nextId
  {
    StepKeepsInv(w, op);
    StepPersists(w, op);
    NextIdOf(w, op);
    OldIds(w.cache, Step(w, op).cache);
  }

  lemma NextIdOf(w: World, op: Op)
    requires WorldInv(w) && Allowed(w, op)
    ensures Step(w, op).cache.nextId == w.cache.nextId + if op.InsertOp? then 1 else 0
  {
    match op
    case InsertOp(n, v, c) => var k := InsertOk(w, n, v, c);
    case PruneOp => PruneShape(w.cache);
    case EraseOp(n) => EraseOk(w.cache, n);
    case ReleaseOp(id) => HeldIsAlive(w, id);
    case LookupOp(_) =>
  }

  /** Below the next handle nothing comes back to life. */
  lemma OldIds(s: State, t: State)
    requires LivesOk(s) && LivesOk(t) && Persists(s, t)
    ensures forall id :: id in t.entries && id !in s.entries ==> s.nextId <= id < t.nextId
  {
  }

  lemma TableStep(w: World, op: Op, n: Name)
    requires WorldInv(w) && Allowed(w, op)
    ensures var t := Step(w, op).cache;
            n in t.table ==> if op.InsertOp? && n == op.name then t.table[n] == w.cache.nextId
                             else n in w.cache.table && t.table[n] == w.cache.table[n]
  {
    match op
    case InsertOp(m, v, c) => InsertTable(w, m, v, c, n);
    case EraseOp(m) => EraseOk(w.cache, m);
    case PruneOp => PruneShape(w.cache);
    case ReleaseOp(id) => HeldIsAlive(w, id);
    case LookupOp(_) =>
  }

  lemma InsertTable(w: World, m: Name, v: Value, c: nat, n: Name)
    requires WorldInv(w)
    ensures var t := Insert(w.cache, m, v, c);
            n in t.table ==> if n == m then t.table[n] == w.cache.nextId
                             else n in w.cache.table && t.table[n] == w.cache.table[n]
  {
    var s := w.cache;
    PlaceOk(s, m, v, c);
    PlaceTable(s, m, v, c);
    var k := EvictShape(Place(s, m, v, c));
    StillFiled(Place(s, m, v, c), Evict(Place(s, m, v, c)), k, n);
  }

  lemma PlaceTable(s: State, m: Name, v: Value, c: nat)
    requires Inv(s)
    ensures Place(s, m, v, c).table == if s.capacity > 0 then s.table[m := s.nextId] else s.table
  {
  }

  lemma StillFiled(p: State, t: State, k: nat, n: Name)
    requires Dropped(p, t, k)
    ensures n in t.table ==> n in p.table && t.table[n] == p.table[n]
  {
  }

  lemma StepMatches(w: World, l: Ledger, op: Op)
    requires WorldInv(w) && Allowed(w, op) && Matches(w, l)
    ensures Matches(Step(w, op), Book(w, l, op))
  {
    forall id ensures Shows(Step(w, op).cache.entries, Book(w, l, op).asked, id) { ShowsStep(w, l, op, id); }
    var t := Step(w, op).cache;
    forall n | n in t.table ensures n in Book(w, l, op).last && t.table[n] == Book(w, l, op).last[n] {
      TableStep(w, op, n);
    }
  }

  // ----- sums over the table

  ghost function Sum(m: map<Name, nat>): nat
    decreases m.Keys
  {
    if m == map[] then 0
    else
      var n :| n in m;
      m[n] + Sum(m - {n})
  }

  lemma {:induction false} SumTake(m: map<Name, nat>, n: Name)
    requires n in m
    ensures Sum(m) == m[n] + Sum(m - {n})
    decreases m.Keys
  {
    var x :| x in m && Sum(m) == m[x] + Sum(m - {x});
    if x != n {
      SumTake(m - {x}, n);
      SumTake(m - {n}, x);
      assert m - {x} - {n} == m - {n} - {x};
    }
  }

  /** The charges of the names filed under these handles. */
  ghost function ChargedOf(s: State, ids: seq<Id>): map<Name, nat>
    requires TableOk(s)
  {
    map n | n in s.table && s.table[n] in ids :: s.entries[s.table[n]].charge
  }

  lemma {:induction false} SumOfList(s: State, ids: seq<Id>)
    requires TableOk(s) && NoDup(ids) && forall id :: id in ids ==> id in s.entries && s.entries[id].inCache
    ensures Sum(ChargedOf(s, ids)) == Charges(s.entries, ids)
  {
    if ids == [] {
      assert ChargedOf(s, ids) == map[];
    } else {
      var rest := ids[1..];
      assert ids == [ids[0]] + rest;
      SumOfList(s, rest);
      var n := s.entries[ids[0]].name;
      assert ChargedOf(s, ids) - {n} == ChargedOf(s, rest) by { TakesName(s, ids, n); }
      SumTake(ChargedOf(s, ids), n);
    }
  }

  lemma TakesName(s: State, ids: seq<Id>, n: Name)
    requires TableOk(s) && NoDup(ids) && ids != [] && ids[0] in s.entries && s.entries[ids[0]].inCache
    requires n == s.entries[ids[0]].name
    ensures forall m :: m in ChargedOf(s, ids[1..]) <==> m in ChargedOf(s, ids) && m != n
  {
    assert ids == [ids[0]] + ids[1..] && ids[0] !in ids[1..];
  }

  lemma {:induction false} ChargesJoin(m: map<Id, Entry>, a: seq<Id>, b: seq<Id>)
    ensures Charges(m, a + b) == Charges(m, a) + Charges(m, b)
  {
    if a == [] {
      assert a + b == b;
    } else {
      assert (a + b)[1..] == a[1..] + b;
      ChargesJoin(m, a[1..], b);
    }
  }

  lemma ListsTogether(s: State)
    requires Inv(s)
    ensures NoDup(s.lru + s.inUse)
    ensures forall id :: id in s.lru + s.inUse <==> id in s.entries && s.entries[id].inCache
  {
    forall id ensures id in s.lru + s.inUse <==> id in s.entries && s.entries[id].inCache {
      assert (id in s.lru <==> Idle(s.entries, id)) && (id in s.inUse <==> Busy(s.entries, id));
    }
    JoinOk(s.lru, s.inUse);
  }

  lemma JoinOk(a: seq<Id>, b: seq<Id>)
    requires NoDup(a) && NoDup(b) && forall x :: x in a ==> x !in b
    ensures NoDup(a + b)
  {
    forall i, j | 0 <= i < j < |a + b| ensures (a + b)[i] != (a + b)[j] {
      if i < |a| <= j { assert a[i] in a && b[j - |a|] in b; }
    }
  }

  /** What the clients asked the cache to charge for the names it holds. */
  ghost function Charged(w: World, l: Ledger): map<Name, nat>
    requires Inv(w.cache) && Matches(w, l)
  {
    map n | n in w.cache.table :: (assert Shows(w.cache.entries, l.asked, l.last[n]); l.asked[l.last[n]].charge)
  }

  lemma UsageIsCharged(w: World, l: Ledger)
    requires Inv(w.cache) && Matches(w, l)
    ensures w.cache.usage == Sum(Charged(w, l))
  {
    var s := w.cache;
    ListsTogether(s);
    SumOfList(s, s.lru + s.inUse);
    ChargesJoin(s.entries, s.lru, s.inUse);
    assert ChargedOf(s, s.lru + s.inUse) == Charged(w, l) by {
      forall n | n in s.table ensures l.last[n] in l.asked && s.entries[s.table[n]].charge == l.asked[l.last[n]].charge {
        assert Shows(s.entries, l.asked, s.table[n]);
      }
    }
  }

  // ----- runs

  ghost function Books(w: World, l: Ledger, ops: seq<Op>): Ledger
    requires WorldInv(w) && Legal(w, ops)
    decreases |ops|
  {
    if ops == [] then l else (StepKeepsInv(w, ops[0]); Books(Step(w, ops[0]), Book(w, l, ops[0]), ops[1..]))
  }

  lemma {:induction false} RunMatches(w: World, l: Ledger, ops: seq<Op>)
    requires WorldInv(w) && Legal(w, ops) && Matches(w, l)
    ensures WorldInv(Run(w, ops)) && Matches(Run(w, ops), Books(w, l, ops))
    decreases |ops|
  {
    if ops != [] {
      StepKeepsInv(w, ops[0]);
      StepMatches(w, l, ops[0]);
      RunMatches(Step(w, ops[0]), Book(w, l, ops[0]), ops[1..]);
    }
  }

  /** After every run each handle a client holds shows the name, value and charge of the insert that
      made it, a lookup finds nothing or the last value inserted under the name, and usage_ is the
      sum of the charges asked for, over the names in the table. */
  lemma RunKeepsLedger(capacity: nat, ops: seq<Op>)
    requires Legal(Begin(capacity), ops)
    ensures var w := Run(Begin(capacity), ops); var l := Books(Begin(capacity), Ledger(map[], map[]), ops);
            && WorldInv(w) && Matches(w, l)
            && (forall id :: id in w.held ==>
                  id in w.cache.entries && id in l.asked
                  && l.asked[id] == Ask(w.cache.entries[id].name, w.cache.entries[id].value, w.cache.entries[id].charge))
            && (forall n :: n in View(w.cache) ==>
                  n in l.last && l.last[n] in l.asked && View(w.cache)[n] == l.asked[l.last[n]].value)
            && w.cache.usage == Sum(Charged(w, l))
  {
    var none := Ledger(map[], map[]);
    RunMatches(Begin(capacity), none, ops);
    var w, l := Run(Begin(capacity), ops), Books(Begin(capacity), none, ops);
    forall id | id in w.held ensures id in w.cache.entries && Shows(w.cache.entries, l.asked, id) { HeldIsAlive(w, id); }
    forall n | n in View(w.cache) ensures Shows(w.cache.entries, l.asked, w.cache.table[n]) {}
    UsageIsCharged(w, l);
  }
}
