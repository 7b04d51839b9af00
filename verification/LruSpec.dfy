/** A cache with reference-counted entries: what each operation does, on values.

    An entry is known by its key together with the hash the caller passes, since both are
    compared.  Allocation hands out a number that was never used before, so that "destroyed
    exactly once" can be said. */
module LruSpec {
  import opened Common
  import opened Lists

  type Key = string
  type Value = string

  const NIL: Id := 0               // the null pointer
  const LRU: Id := 1               // the head of lru_
  const IN_USE: Id := 2            // the head of in_use_
  const FIRST: Id := 3             // entries are numbered from here

  datatype Name = Name(key: Key, hash: nat)

  datatype Entry = Entry(name: Name, value: Value, charge: nat, inCache: bool, refs: nat)

  datatype State = State(
    capacity: nat,
    usage: int,
    entries: map<Id, Entry>,       // allocated and not yet destroyed
    table: map<Name, Id>,
    lru: seq<Id>,                  // oldest first
    inUse: seq<Id>,
    destroyed: seq<Id>,            // the deleter calls, in order
    nextId: Id)

  function Start(capacity: nat): State {
    State(capacity, 0, map[], map[], [], [], [], FIRST)
  }

  /** LRU_Remove: an entry is on at most one of the lists. */
  function Unlink(s: State, id: Id): State {
    s.(lru := Without(s.lru, id), inUse := Without(s.inUse, id))
  }

  function Ref(s: State, id: Id): State
    requires id in s.entries
  {
    var e := s.entries[id];
    var t := if e.refs == 1 && e.inCache then var u := Unlink(s, id); u.(inUse := u.inUse + [id]) else s;
    t.(entries := t.entries[id := e.(refs := e.refs + 1)])
  }

  function Unref(s: State, id: Id): State
    requires id in s.entries && s.entries[id].refs > 0
  {
    var e := s.entries[id].(refs := s.entries[id].refs - 1);
    if e.refs == 0 then s.(entries := s.entries - {id}, destroyed := s.destroyed + [id])
    else
      var t := s.(entries := s.entries[id := e]);
      if e.inCache && e.refs == 1 then var u := Unlink(t, id); u.(lru := u.lru + [id]) else t
  }

  function FinishErase(s: State, id: Id): State
    requires id in s.entries && s.entries[id].refs > 0
  {
    var e := s.entries[id];
    Unref(Unlink(s, id).(entries := s.entries[id := e.(inCache := false)], usage := s.usage - e.charge), id)
  }

  function Erase(s: State, n: Name): State
    requires n in s.table ==> s.table[n] in s.entries && s.entries[s.table[n]].refs > 0
  {
    if n in s.table then FinishErase(s.(table := s.table - {n}), s.table[n]) else s
  }

  function Lookup(s: State, n: Name): (State, Option<Id>)
    requires n in s.table ==> s.table[n] in s.entries
  {
    if n in s.table then (Ref(s, s.table[n]), Some(s.table[n])) else (s, None)
  }

  /** A new entry, held by the caller and by the cache, has taken its place in the table. */
  function Placed(s: State, n: Name, v: Value, charge: nat): State {
    s.(entries := s.entries[s.nextId := Entry(n, v, charge, true, 2)], nextId := s.nextId + 1,
       inUse := s.inUse + [s.nextId], usage := s.usage + charge, table := s.table[n := s.nextId])
  }

  /** Insert up to the eviction loop; with capacity 0 the entry is the caller's alone. */
  function Place(s: State, n: Name, v: Value, charge: nat): State
    requires n in s.table ==> s.table[n] in s.entries && s.entries[s.table[n]].refs > 0 && s.table[n] != s.nextId
  {
    if s.capacity > 0 then
      if n in s.table then FinishErase(Placed(s, n, v, charge), s.table[n]) else Placed(s, n, v, charge)
    else
      s.(entries := s.entries[s.nextId := Entry(n, v, charge, false, 1)], nextId := s.nextId + 1)
  }

  // ----- the invariant

  /** The table holds exactly the entries marked in_cache, each under its own name. */
  ghost predicate TableOk(s: State) {
    && (forall n :: n in s.table ==>
          s.table[n] in s.entries && s.entries[s.table[n]].name == n && s.entries[s.table[n]].inCache)
    && (forall id :: id in s.entries && s.entries[id].inCache ==>
          s.entries[id].name in s.table && s.table[s.entries[id].name] == id)
  }

  function Charges(entries: map<Id, Entry>, ids: seq<Id>): (c: nat)
  {
    if ids == [] then 0
    else (if ids[0] in entries then entries[ids[0]].charge else 0) + Charges(entries, ids[1..])
  }

  ghost predicate Idle(m: map<Id, Entry>, id: Id) { id in m && m[id].inCache && m[id].refs == 1 }

  ghost predicate Busy(m: map<Id, Entry>, id: Id) { id in m && m[id].inCache && m[id].refs > 1 }

  ghost predicate LruOk(m: map<Id, Entry>, l: seq<Id>) { NoDup(l) && forall id :: id in l <==> Idle(m, id) }

  ghost predicate InUseOk(m: map<Id, Entry>, l: seq<Id>) { NoDup(l) && forall id :: id in l <==> Busy(m, id) }

  /** Those with one reference are on lru_ and the others on in_use_; usage_ adds up their charges. */
  ghost predicate ListsOk(s: State) {
    && LruOk(s.entries, s.lru) && InUseOk(s.entries, s.inUse)
    && s.usage == Charges(s.entries, s.lru) + Charges(s.entries, s.inUse)
  }

  /** Every entry ever allocated is alive or destroyed once, and not both. */
  ghost predicate LivesOk(s: State) {
    && FIRST <= s.nextId && NoDup(s.destroyed)
    && (forall id :: id in s.entries ==> FIRST <= id < s.nextId && s.entries[id].refs > 0)
    && (forall id :: id in s.destroyed ==> FIRST <= id < s.nextId && id !in s.entries)
    && (forall id :: FIRST <= id < s.nextId ==> id in s.entries || id in s.destroyed)
  }

  ghost predicate Inv(s: State) {
    && TableOk(s) && ListsOk(s) && LivesOk(s)
    && (s.capacity == 0 ==> s.table == map[])
  }
}
