/** Runs of clients over a pager, and the pager as it works on its hash table and lists. */
module Pager {
  import opened Common
  import opened Lists
  import opened PagerSpec

  // ----- runs

  datatype Op = GetOp(page: Pgno) | ReleaseOp(id: Id) | WriteOp(id: Id) | EditOp(id: Id, data: Data) | CommitOp

  /** The pager; the frames clients have got and not yet given back; the file as it was; and, over
      that, what a plain array of pages would hold now and what it held at the last commit. */
  datatype World = World(s: State, held: multiset<Id>, base: Bytes, now: map<Pgno, Data>, committed: map<Pgno, Data>)

  ghost function Begin(limit: nat, file: Bytes): (w: World)
    ensures WorldOk(w)
  {
    World(Start(limit, file), multiset{}, file, map[], map[])
  }

  function Seen(base: Bytes, m: map<Pgno, Data>, q: Pgno): Data { if q in m then m[q] else Stored(base, q) }

  /** The references of a frame are those in clients' hands. */
  ghost predicate Counted(m: map<Id, Frame>, held: multiset<Id>, id: Id) {
    held[id] == if id in m then m[id].nref else 0
  }

  ghost predicate HeldOk(m: map<Id, Frame>, held: multiset<Id>) {
    forall id :: Counted(m, held, id)
  }

  ghost predicate Inv(w: World) {
    Shape(w.s) && HeldOk(w.s.frames, w.held)
  }

  lemma HeldInUse(w: World, id: Id)
    requires Inv(w) && id in w.held
    ensures id in w.s.frames && w.s.frames[id].nref == w.held[id] > 0
  {
    assert Counted(w.s.frames, w.held, id);
  }

  /** Clients use pages they hold, write only after pagerWrite, and commit before they give up
      the last reference to a page they wrote. */
  ghost predicate Allowed(w: World, op: Op)
    requires Inv(w)
  {
    match op
    case GetOp(_) | CommitOp => true
    case ReleaseOp(id) => id in w.held && (HeldInUse(w, id); w.s.frames[id].dirty ==> w.held[id] > 1)
    case WriteOp(id) => id in w.held
    case EditOp(id, _) => id in w.held && (HeldInUse(w, id); w.s.frames[id].dirty)
  }

  ghost function Step(w: World, op: Op): World
    requires Inv(w) && Allowed(w, op)
  {
    match op
    case GetOp(p) =>
      GetShape(w.s, p);
      var (t, r) := Get(w.s, p);
      w.(s := t, held := if r.Some? then w.held + multiset{r.value} else w.held)
    case ReleaseOp(id) => (HeldInUse(w, id); w.(s := Release(w.s, id), held := w.held - multiset{id}))
    case WriteOp(id) => (HeldInUse(w, id); w.(s := MakeDirty(w.s, id)))
    case EditOp(id, d) => (HeldInUse(w, id); w.(s := Edit(w.s, id, d), now := w.now[w.s.frames[id].pgno := d]))
    case CommitOp => w.(s := Commit(w.s), committed := w.now)
  }

  lemma StepKeepsShape(w: World, op: Op)
    requires Inv(w) && Allowed(w, op)
    ensures Shape(Step(w, op).s) && Step(w, op).s.limit == w.s.limit
  {
    match op
    case GetOp(p) => GetShape(w.s, p);
    case ReleaseOp(id) =>
      HeldInUse(w, id);
      ReleaseShape(w.s, id);
    case WriteOp(id) =>
      HeldInUse(w, id);
      MakeDirtyShape(w.s, id);
    case EditOp(id, d) =>
      HeldInUse(w, id);
      SameShape(w.s, id, w.s.frames[id].(data := d));
    case CommitOp => CommitShape(w.s);
  }

  lemma StepKeepsInv(w: World, op: Op)
    requires Inv(w) && Allowed(w, op)
    ensures Inv(Step(w, op)) && Step(w, op).s.limit == w.s.limit
  {
    StepKeepsShape(w, op);
    forall id ensures Counted(Step(w, op).s.frames, Step(w, op).held, id) { StepCounts(w, op, id); }
  }

  lemma StepCounts(w: World, op: Op, id: Id)
    requires Inv(w) && Allowed(w, op)
    ensures Counted(Step(w, op).s.frames, Step(w, op).held, id)
  {
    assert Counted(w.s.frames, w.held, id);
    match op
    case GetOp(p) => GetCounts(w.s, p, id);
    case ReleaseOp(x) => HeldInUse(w, x);
    case WriteOp(x) => HeldInUse(w, x);
    case EditOp(x, _) => HeldInUse(w, x);
    case CommitOp => CommitFrames(w.s, id);
  }

  ghost predicate Legal(w: World, ops: seq<Op>)
    requires Inv(w)
    decreases |ops|
  {
    ops != [] ==> Allowed(w, ops[0]) && (StepKeepsInv(w, ops[0]); Legal(Step(w, ops[0]), ops[1..]))
  }

  ghost function Run(w: World, ops: seq<Op>): World
    requires Inv(w) && Legal(w, ops)
    decreases |ops|
  {
    if ops == [] then w else (StepKeepsInv(w, ops[0]); Run(Step(w, ops[0]), ops[1..]))
  }

  lemma {:induction false} RunKeepsInv(w: World, ops: seq<Op>)
    requires Inv(w) && Legal(w, ops)
    ensures Inv(Run(w, ops)) && Run(w, ops).s.limit == w.s.limit
    decreases |ops|
  {
    if ops != [] {
      StepKeepsInv(w, ops[0]);
      RunKeepsInv(Step(w, ops[0]), ops[1..]);
    }
  }

  /** Whatever the clients do: the frames in the hash table and those free for reuse are all there
      are, and never more than the limit. */
  lemma RunKeepsLimit(limit: nat, file: Bytes, ops: seq<Op>)
    requires Legal(Begin(limit, file), ops)
    ensures var t := Run(Begin(limit, file), ops).s; Shape(t) && |t.frames| == |t.table| + |t.lru| <= limit
  {
    RunKeepsInv(Begin(limit, file), ops);
  }

  // ----- what clients hold

  /** After every run the references of every frame are those clients hold, so a frame somebody holds
      is the one its page is found in and is not on the list of frames for reuse. */
  lemma RunCountsHolds(limit: nat, file: Bytes, ops: seq<Op>, id: Id)
    requires Legal(Begin(limit, file), ops)
    ensures var w := Run(Begin(limit, file), ops);
            && (id in w.s.frames ==> w.s.frames[id].nref == w.held[id])
            && (id in w.s.lru <==> id in w.s.frames && id !in w.held)
            && (id in w.held ==> id in w.s.frames && w.s.frames[id].pgno in w.s.table && w.s.table[w.s.frames[id].pgno] == id)
  {
    RunKeepsInv(Begin(limit, file), ops);
    var w := Run(Begin(limit, file), ops);
    assert Counted(w.s.frames, w.held, id);
    assert id in w.s.lru <==> Unused(w.s.frames, id);
  }

  /** What anybody does leaves a held frame with its page, and its bytes to those who edit it. */
  lemma StepKeepsHeld(w: World, op: Op, id: Id)
    requires Inv(w) && Allowed(w, op) && id in w.held
    ensures id in w.s.frames && id in Step(w, op).s.frames
    ensures Step(w, op).s.frames[id].pgno == w.s.frames[id].pgno
    ensures Step(w, op).s.frames[id].data == if op.EditOp? && op.id == id then op.data else w.s.frames[id].data
  {
    HeldInUse(w, id);
    match op
    case GetOp(p) => GetCounts(w.s, p, id);
    case ReleaseOp(x) => HeldInUse(w, x);
    case WriteOp(x) => HeldInUse(w, x);
    case EditOp(x, _) => HeldInUse(w, x);
    case CommitOp => CommitFrames(w.s, id);
  }

  /** Somebody holds the frame before each of these operations. */
  ghost predicate HeldThrough(w: World, ops: seq<Op>, id: Id)
    requires Inv(w) && Legal(w, ops)
    decreases |ops|
  {
    ops != [] ==> id in w.held && (StepKeepsInv(w, ops[0]); HeldThrough(Step(w, ops[0]), ops[1..], id))
  }

  /** What the edits among these operations leave in the frame. */
  function LastEdit(ops: seq<Op>, id: Id, d: Data): Data {
    if ops == [] then d
    else LastEdit(ops[1..], id, if ops[0].EditOp? && ops[0].id == id then ops[0].data else d)
  }

  /** As long as somebody holds a frame it stands for the same page, whatever the others do, and its
      bytes are those of the last edit. */
  lemma {:induction false} RunKeepsHeld(w: World, ops: seq<Op>, id: Id)
    requires Inv(w) && id in w.held && Legal(w, ops) && HeldThrough(w, ops, id)
    ensures id in w.s.frames && id in Run(w, ops).s.frames
    ensures Run(w, ops).s.frames[id].pgno == w.s.frames[id].pgno
    ensures Run(w, ops).s.frames[id].data == LastEdit(ops, id, w.s.frames[id].data)
    decreases |ops|
  {
    HeldInUse(w, id);
    if ops != [] {
      StepKeepsHeld(w, ops[0], id);
      StepKeepsInv(w, ops[0]);
      var t := Step(w, ops[0]);
      if ops[1..] == [] {
        assert Run(t, ops[1..]) == t;
      } else {
        RunKeepsHeld(t, ops[1..], id);
      }
    }
  }

  /** The frame given up last is the first to be used again. */
  lemma LastReleasedIsNext(w: World, id: Id, p: Pgno)
    requires Inv(w) && Allowed(w, ReleaseOp(id)) && w.held[id] == 1
    ensures var t := Step(w, ReleaseOp(id));
            && Inv(t) && (t.s.lru != [] ==> t.s.lru[0] in t.s.frames)
            && (p !in t.s.table ==> Get(t.s, p).1 == Some(id))
  {
    HeldInUse(w, id);
    StepKeepsInv(w, ReleaseOp(id));
    GetShape(Step(w, ReleaseOp(id)).s, p);
  }

  // ----- what clients see

  ghost predicate PageOk(w: World, q: Pgno) {
    Logical(w.s, q) == Seen(w.base, w.now, q) && Stored(w.s.file, q) == Seen(w.base, w.committed, q)
  }

  /** Every page reads as last written, and the file is as of the last commit. */
  ghost predicate WorldOk(w: World) {
    Inv(w) && Coherent(w.s) && forall q: Pgno :: PageOk(w, q)
  }

  /** The step hands out no stale bytes. */
  ghost predicate Clean(w: World, op: Op)
    requires Inv(w)
  {
    op.GetOp? ==> (GetShape(w.s, op.page); Blank(w.s, op.page))
  }

  /** If the step hands out a page, it is as last written. */
  ghost predicate Shows(w: World, op: Op)
    requires Inv(w)
  {
    op.GetOp? ==>
      (GetShape(w.s, op.page);
       var (t, r) := Get(w.s, op.page); r.Some? ==> t.frames[r.value].data == Seen(w.base, w.now, op.page))
  }

  lemma StepOk(w: World, op: Op)
    requires WorldOk(w) && Allowed(w, op)
    ensures Clean(w, op) ==> WorldOk(Step(w, op))
  {
    StepKeepsInv(w, op);
    if Clean(w, op) {
      StepCoherent(w, op);
      forall q: Pgno ensures PageOk(Step(w, op), q) { StepPage(w, op, q); }
    }
  }

  lemma StepCoherent(w: World, op: Op)
    requires Inv(w) && Coherent(w.s) && Allowed(w, op) && Clean(w, op)
    ensures Coherent(Step(w, op).s)
  {
    match op
    case GetOp(p) => GetOk(w.s, p);
    case ReleaseOp(id) =>
      HeldInUse(w, id);
      ReleaseOk(w.s, id);
    case WriteOp(id) =>
      HeldInUse(w, id);
      MakeDirtyOk(w.s, id);
    case EditOp(id, d) =>
      HeldInUse(w, id);
      EditOk(w.s, id, d);
    case CommitOp => CommitOk(w.s);
  }

  lemma StepPage(w: World, op: Op, q: Pgno)
    requires Inv(w) && Coherent(w.s) && Allowed(w, op) && Clean(w, op) && PageOk(w, q)
    ensures PageOk(Step(w, op), q)
  {
    match op
    case GetOp(p) =>
      GetShape(w.s, p);
      GetOk(w.s, p);
    case ReleaseOp(id) =>
      HeldInUse(w, id);
      ReleaseOk(w.s, id);
    case WriteOp(id) =>
      HeldInUse(w, id);
      MakeDirtyOk(w.s, id);
    case EditOp(id, d) =>
      HeldInUse(w, id);
      EditOk(w.s, id, d);
    case CommitOp => CommitOk(w.s);
  }

  lemma ShowsIffClean(w: World, op: Op)
    requires WorldOk(w) && Allowed(w, op)
    ensures Shows(w, op) <==> Clean(w, op)
  {
    if op.GetOp? {
      GetShape(w.s, op.page);
      GetOk(w.s, op.page);
      assert PageOk(w, op.page);
    }
  }

  ghost predicate AllClean(w: World, ops: seq<Op>)
    requires Inv(w) && Legal(w, ops)
    decreases |ops|
  {
    ops != [] ==> Clean(w, ops[0]) && (StepKeepsInv(w, ops[0]); AllClean(Step(w, ops[0]), ops[1..]))
  }

  ghost predicate AllShow(w: World, ops: seq<Op>)
    requires Inv(w) && Legal(w, ops)
    decreases |ops|
  {
    ops != [] ==> Shows(w, ops[0]) && (StepKeepsInv(w, ops[0]); AllShow(Step(w, ops[0]), ops[1..]))
  }

  /** Over every run: all pages handed out show what was last written to them exactly when no page
      is read past the end of the file into a frame with something else in it.  Then every page
      reads as last written at the end as well, and the file is as of the last commit. */
  lemma {:induction false} RunIsCoherent(w: World, ops: seq<Op>)
    requires WorldOk(w) && Legal(w, ops)
    ensures AllShow(w, ops) <==> AllClean(w, ops)
    ensures AllClean(w, ops) ==> WorldOk(Run(w, ops))
    decreases |ops|
  {
    if ops != [] {
      ShowsIffClean(w, ops[0]);
      StepKeepsInv(w, ops[0]);
      if Clean(w, ops[0]) {
        StepOk(w, ops[0]);
        RunIsCoherent(Step(w, ops[0]), ops[1..]);
      }
    }
  }

  /** Pages inside the file are always clean to get. */
  lemma InsideIsClean(w: World, p: Pgno)
    requires Inv(w) && Inside(w.s.file, p)
    ensures Clean(w, GetOp(p))
  {
    InsideIsBlank(w.s, p);
  }

  // ----- the hash table

  const NHASH: nat := 256

  function Slot(p: Pgno): (b: nat)
    ensures b < NHASH
  {
    p % NHASH
  }

  ghost predicate Chained(hash: seq<seq<Id>>, frames: map<Id, Frame>, p: Pgno, id: Id)
    requires |hash| == NHASH
  {
    id in hash[Slot(p)] && id in frames && frames[id].pgno == p
  }

  ghost predicate Filed(frames: map<Id, Frame>, table: map<Pgno, Id>, b: nat, id: Id) {
    id in frames && Slot(frames[id].pgno) == b && frames[id].pgno in table && table[frames[id].pgno] == id
  }

  /** The chains hold exactly the pages of the table. */
  ghost predicate HashOk(hash: seq<seq<Id>>, frames: map<Id, Frame>, table: map<Pgno, Id>) {
    && |hash| == NHASH
    && (forall b :: 0 <= b < NHASH ==> NoDup(hash[b]))
    && (forall b: nat, id :: b < NHASH && id in hash[b] ==> Filed(frames, table, b, id))
    && (forall p :: p in table ==> Chained(hash, frames, p, table[p]))
  }

  /** Frames may change in all but their page numbers. */
  lemma HashFrames(hash: seq<seq<Id>>, frames: map<Id, Frame>, frames': map<Id, Frame>, table: map<Pgno, Id>)
    requires HashOk(hash, frames, table)
    requires forall id :: id in frames ==> id in frames' && frames'[id].pgno == frames[id].pgno
    ensures HashOk(hash, frames', table)
  {
    forall b: nat, id | b < NHASH && id in hash[b] ensures Filed(frames', table, b, id) {
      assert Filed(frames, table, b, id);
    }
    forall p | p in table ensures Chained(hash, frames', p, table[p]) {
      assert Chained(hash, frames, p, table[p]);
    }
  }

  ghost predicate InNoChain(hash: seq<seq<Id>>, id: Id) {
    forall b :: 0 <= b < |hash| ==> id !in hash[b]
  }

  lemma HashInsert(hash: seq<seq<Id>>, frames: map<Id, Frame>, table: map<Pgno, Id>, p: Pgno, id: Id, f: Frame)
    requires HashOk(hash, frames, table) && p !in table && f.pgno == p && InNoChain(hash, id)
    ensures HashOk(hash[Slot(p) := [id] + hash[Slot(p)]], frames[id := f], table[p := id])
  {
    var h, m, t := hash[Slot(p) := [id] + hash[Slot(p)]], frames[id := f], table[p := id];
    PushOk(hash[Slot(p)], id);
    forall b: nat, x | b < NHASH && x in h[b] ensures Filed(m, t, b, x) {
      if x != id { assert Filed(frames, table, b, x); }
    }
    forall q | q in t ensures Chained(h, m, q, t[q]) {
      if q != p { assert Chained(hash, frames, q, table[q]); }
    }
  }

  lemma HashRemove(hash: seq<seq<Id>>, frames: map<Id, Frame>, table: map<Pgno, Id>, p: Pgno, i: nat)
    requires HashOk(hash, frames, table) && p in table && i < |hash[Slot(p)]| && hash[Slot(p)][i] == table[p]
    ensures HashOk(hash[Slot(p) := Drop(hash[Slot(p)], i)], frames, Minus(table, p))
  {
    var h, t := hash[Slot(p) := Drop(hash[Slot(p)], i)], Minus(table, p);
    DropOk(hash[Slot(p)], i);
    assert Chained(hash, frames, p, table[p]);
    forall b: nat, x | b < NHASH && x in h[b] ensures Filed(frames, t, b, x) {
      assert x in hash[b] && Filed(frames, table, b, x);
    }
    forall q | q in t ensures Chained(h, frames, q, t[q]) {
      assert Chained(hash, frames, q, table[q]);
    }
  }

  /** Where the frame of page p is in its chain. */
  lemma FoundAt(hash: seq<seq<Id>>, frames: map<Id, Frame>, table: map<Pgno, Id>, p: Pgno, chain: seq<Id>, i: nat)
    requires HashOk(hash, frames, table) && chain == hash[Slot(p)] && i <= |chain|
    requires forall j :: 0 <= j < |chain| ==> chain[j] in frames
    requires forall j :: 0 <= j < i ==> frames[chain[j]].pgno != p
    requires i < |chain| ==> frames[chain[i]].pgno == p
    ensures if i < |chain| then p in table && table[p] == chain[i] else p !in table
  {
    if p in table { assert Chained(hash, frames, p, table[p]); }
    if i < |chain| { assert Filed(frames, table, Slot(p), chain[i]); }
  }

  /** A frame nobody uses is in no chain. */
  lemma FreeInNoChain(s: State, hash: seq<seq<Id>>, id: Id)
    requires TableOk(s.frames, s.table) && HashOk(hash, s.frames, s.table) && (id in s.frames ==> s.frames[id].nref == 0)
    ensures InNoChain(hash, id)
  {
    forall b: nat | b < NHASH ensures id !in hash[b] {
      assert id in hash[b] ==> Filed(s.frames, s.table, b, id);
    }
  }

  datatype Status = Ok | Error | NoMem

  class Pager {
    const limit: nat
    var file: Bytes
    var frames: map<Id, Frame>
    var hash: seq<seq<Id>>
    var npage: nat
    var lru: seq<Id>
    var dirty: seq<Id>
    var nextId: Id
    ghost var table: map<Pgno, Id>
    ghost var state: Sound

    ghost function Abs(): State reads this { State(limit, file, frames, table, lru, dirty, nextId) }

    ghost predicate Hashed()
      reads this
    {
      HashOk(hash, frames, table) && npage == |table|
    }

    ghost predicate Valid()
      reads this
    {
      state == Abs() && Hashed()
    }

    constructor (limit: nat, file: Bytes)
      ensures Valid() && Abs() == Start(limit, file)
    {
      this.limit, this.file := limit, file;
      frames, npage, lru, dirty, nextId, table := map[], 0, [], [], 0, map[];
      hash := seq(NHASH, _ => []);
      state := Start(limit, file);
    }

    /** Walk a chain. */
    static method Walk(chain: seq<Id>, frames: map<Id, Frame>, p: Pgno) returns (i: nat)
      requires forall j :: 0 <= j < |chain| ==> chain[j] in frames
      ensures i <= |chain| && (forall j :: 0 <= j < i ==> frames[chain[j]].pgno != p)
      ensures i < |chain| ==> frames[chain[i]].pgno == p
    {
      i := 0;
      while i < |chain| && frames[chain[i]].pgno != p
        invariant i <= |chain| && forall j :: 0 <= j < i ==> frames[chain[j]].pgno != p
      {
        i := i + 1;
      }
    }

    /** The place of page p in its chain, or the end of the chain. */
    method Search(p: Pgno) returns (i: nat)
      requires Hashed()
      ensures i <= |hash[Slot(p)]|
      ensures if i < |hash[Slot(p)]| then p in table && table[p] == hash[Slot(p)][i] else p !in table
    {
      var chain := hash[Slot(p)];
      forall j | 0 <= j < |chain| ensures chain[j] in frames { assert Filed(frames, table, Slot(p), chain[j]); }
      i := Walk(chain, frames, p);
      FoundAt(hash, frames, table, p, chain, i);
    }

    /** Change a frame in anything but its page number. */
    method SetFrame(id: Id, f: Frame)
      requires Hashed() && id in frames && f.pgno == frames[id].pgno
      modifies this`frames
      ensures Hashed() && Abs() == old(Abs()).(frames := old(frames)[id := f])
    {
      HashFrames(hash, frames, frames[id := f], table);
      frames := frames[id := f];
    }

    /** pcacheGet: a page in memory gets one more reference. */
    method PcacheGet(p: Pgno) returns (r: Option<Id>)
      requires Hashed() && (lru != [] ==> lru[0] in frames)
      modifies this`frames
      ensures Hashed() && (r.Some? <==> p in table)
      ensures r.None? ==> Abs() == old(Abs())
      ensures r.Some? ==> (Abs(), r) == PagerSpec.Get(old(Abs()), p)
    {
      var i := Search(p);
      if i == |hash[Slot(p)]| { return None; }
      var id := hash[Slot(p)][i];
      assert Chained(hash, frames, p, id);
      SetFrame(id, frames[id].(nref := frames[id].nref + 1));
      return Some(id);
    }

    /** pagerGet; a page read from the file is handed out with an error status. */
    method Get(p: Pgno) returns (status: Status, r: Option<Id>)
      requires Valid()
      modifies this
      ensures old(lru) != [] ==> old(lru)[0] in old(frames)
      ensures Valid() && (Abs(), r) == PagerSpec.Get(old(Abs()), p)
      ensures status == if p in old(table) then Ok else if r.Some? then Error else NoMem
    {
      ghost var s := state;
      GetShape(s, p);
      state := PagerSpec.Get(s, p).0;
      r := PcacheGet(p);
      if r.Some? { return Ok, r; }
      r := Fetch(p, s);
      status := if r.Some? then Error else NoMem;
    }

    /** A frame for a page that is not in memory. */
    method Fetch(p: Pgno, ghost s: Sound) returns (r: Option<Id>)
      requires s == Abs() && Hashed() && p !in table
      modifies this`frames, this`hash, this`npage, this`table, this`lru, this`nextId
      ensures old(lru) != [] ==> old(lru)[0] in old(frames)
      ensures Hashed() && (Abs(), r) == PagerSpec.Get(old(Abs()), p)
    {
      if lru != [] {
        FirstFree(s);
        FreeInNoChain(s, hash, lru[0]);
        var id := Recycle(p);
        return Some(id);
      }
      if npage >= limit { return None; }
      FreeInNoChain(s, hash, nextId);
      var id := Fresh(p);
      return Some(id);
    }

    /** The frame released last, with what its buffer holds. */
    method Recycle(p: Pgno) returns (id: Id)
      requires Hashed() && p !in table && lru != [] && lru[0] in frames && InNoChain(hash, lru[0])
      modifies this`frames, this`hash, this`npage, this`table, this`lru
      ensures Hashed() && id == old(lru)[0]
      ensures Abs() == Load(old(Abs()).(lru := old(lru)[1..]), p, id, old(frames)[id].data)
    {
      id := lru[0];
      lru := lru[1..];
      Fill(p, id, frames[id].data);
    }

    /** A frame allocated and zeroed. */
    method Fresh(p: Pgno) returns (id: Id)
      requires Hashed() && p !in table && InNoChain(hash, nextId)
      modifies this`frames, this`hash, this`npage, this`table, this`nextId
      ensures Hashed() && id == old(nextId)
      ensures Abs() == Load(old(Abs()).(nextId := id + 1), p, id, Zeros())
    {
      id := nextId;
      nextId := nextId + 1;
      Fill(p, id, Zeros());
    }

    /** The frame's buffer is read into from the file, and the frame comes first in the chain of its page. */
    method Fill(p: Pgno, id: Id, buf: Data)
      requires Hashed() && p !in table && InNoChain(hash, id)
      modifies this`frames, this`hash, this`npage, this`table
      ensures Hashed() && Abs() == Load(old(Abs()), p, id, buf)
    {
      var f := Frame(p, ReadInto(file, p, buf), false, 1);
      HashInsert(hash, frames, table, p, id, f);
      frames := frames[id := f];
      hash := hash[Slot(p) := [id] + hash[Slot(p)]];
      table := table[p := id];
      npage := npage + 1;
    }

    /** pagerUnref. */
    method Release(id: Id)
      requires Valid() && id in frames && frames[id].nref > 0 && (frames[id].dirty ==> frames[id].nref > 1)
      modifies this
      ensures Valid() && Abs() == PagerSpec.Release(old(Abs()), id)
    {
      ReleaseShape(state, id);
      state := PagerSpec.Release(state, id);
      PcacheRelease(id);
    }

    /** pcacheRelease: a page nobody holds any more is unpinned. */
    method PcacheRelease(id: Id)
      requires Hashed() && id in frames && frames[id].nref > 0 && frames[id].pgno in table
      modifies this`frames, this`hash, this`npage, this`table, this`lru
      ensures Hashed() && Abs() == PagerSpec.Release(old(Abs()), id)
    {
      SetFrame(id, frames[id].(nref := frames[id].nref - 1));
      if frames[id].nref == 0 { Unpin(id); }
    }

    /** The page leaves the hash table and its frame can be used again. */
    method Unpin(id: Id)
      requires Hashed() && id in frames && frames[id].pgno in table
      modifies this`hash, this`npage, this`table, this`lru
      ensures Hashed() && Abs() == old(Abs()).(table := Minus(old(table), frames[id].pgno), lru := [id] + old(lru))
    {
      Unhash(frames[id].pgno);
      lru := [id] + lru;
    }

    method Unhash(p: Pgno)
      requires Hashed() && p in table
      modifies this`hash, this`npage, this`table
      ensures Hashed() && table == Minus(old(table), p)
    {
      var i := Search(p);
      HashRemove(hash, frames, table, p, i);
      hash := hash[Slot(p) := Drop(hash[Slot(p)], i)];
      table := Minus(table, p);
      npage := npage - 1;
    }

    /** pagerWrite. */
    method MakeDirty(id: Id)
      requires Valid() && id in frames && frames[id].nref > 0
      modifies this`frames, this`dirty, this`state
      ensures Valid() && Abs() == PagerSpec.MakeDirty(old(Abs()), id)
    {
      MakeDirtyShape(state, id);
      state := PagerSpec.MakeDirty(state, id);
      if frames[id].dirty { return; }
      SetFrame(id, frames[id].(dirty := true));
      dirty := [id] + dirty;
    }

    /** pagerCommit: the dirty list is walked from its head, and each page is written and taken
        off it. */
    method Commit()
      requires Valid()
      modifies this`file, this`frames, this`dirty, this`state
      ensures Valid() && Abs() == PagerSpec.Commit(old(Abs()))
    {
      while dirty != []
        invariant Valid() && PagerSpec.Commit(Abs()) == PagerSpec.Commit(old(Abs()))
        decreases |dirty|
      {
        WriteFirstShape(state);
        state := PagerSpec.WriteFirst(state);
        WriteFirst();
      }
    }

    method WriteFirst()
      requires Hashed() && dirty != [] && dirty[0] in frames
      modifies this`file, this`frames, this`dirty
      ensures Hashed() && Abs() == PagerSpec.WriteFirst(old(Abs()))
    {
      var id := dirty[0];
      var f := frames[id];
      file := WriteTo(file, f.pgno, f.data);
      SetFrame(id, f.(dirty := false));
      dirty := dirty[1..];
    }
  }
}
