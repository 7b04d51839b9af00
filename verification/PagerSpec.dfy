/** Pages of a file cached in a limited number of frames: what each operation does, on values.
    A page that no client holds is not found again in memory: its frame is free for reuse, with
    the bytes it last held still in it. */
module PagerSpec {
  import opened Common
  import opened Lists

  type Pgno = n: nat | n >= 1 witness 1
  type Byte = b: int | 0 <= b < 256
  type Bytes = seq<Byte>

  const PAGE_BYTES: nat := 2048    // SQL_DEFAULT_PAGE_SIZE; the file has no header

  function Zeros(): (d: Bytes)
    ensures |d| == PAGE_BYTES && forall i :: 0 <= i < PAGE_BYTES ==> d[i] == 0
  {
    seq(PAGE_BYTES, _ => 0)
  }

  /** The bytes of one page. */
  type Data = d: Bytes | |d| == PAGE_BYTES witness Zeros()

  datatype Frame = Frame(pgno: Pgno, data: Data, dirty: bool, nref: nat)

  datatype State = State(
    limit: nat,                    // mx_pages
    file: Bytes,
    frames: map<Id, Frame>,
    table: map<Pgno, Id>,          // the pages in the hash table
    lru: seq<Id>,                  // the frames nobody uses, last released first
    dirty: seq<Id>,
    nextId: Id)

  function Start(limit: nat, file: Bytes): State {
    State(limit, file, map[], map[], [], [], 0)
  }

  // ----- the file

  function Offset(p: Pgno): nat { (p - 1) * PAGE_BYTES }

  /** A byte of the file; there is nothing but zeros behind its end. */
  function ByteAt(file: Bytes, i: nat): Byte { if i < |file| then file[i] else 0 }

  function ByteRead(file: Bytes, off: nat, buf: Data, i: nat): Byte
    requires i < PAGE_BYTES
  {
    if off + i < |file| then file[off + i] else buf[i]
  }

  /** osRead into a buffer: what lies behind the end of the file leaves the buffer as it was, and
      nobody looks at how many bytes came. */
  function ReadInto(file: Bytes, p: Pgno, buf: Data): (d: Data)
    ensures forall i :: 0 <= i < PAGE_BYTES ==> d[i] == if Offset(p) + i < |file| then file[Offset(p) + i] else buf[i]
  {
    seq(PAGE_BYTES, (i: nat) requires i < PAGE_BYTES => ByteRead(file, Offset(p), buf, i))
  }

  /** Page p of the file, as a read into a blank buffer gives it. */
  function Stored(file: Bytes, p: Pgno): (d: Data)
    ensures forall i :: 0 <= i < PAGE_BYTES ==> d[i] == ByteAt(file, Offset(p) + i)
  {
    ReadInto(file, p, Zeros())
  }

  /** osWrite: a page behind the end makes the file longer, with zeros in the gap. */
  function WriteTo(file: Bytes, p: Pgno, d: Data): Bytes {
    var off := Offset(p);
    seq(if |file| < off + PAGE_BYTES then off + PAGE_BYTES else |file|, i requires i >= 0 =>
      if off <= i < off + PAGE_BYTES then d[i - off] else ByteAt(file, i))
  }

  /** The whole page is in the file. */
  predicate Inside(file: Bytes, p: Pgno) { Offset(p) + PAGE_BYTES <= |file| }

  /** The bytes of a buffer that the read of page p leaves alone are zero. */
  predicate TailBlank(file: Bytes, p: Pgno, buf: Data) {
    forall i :: 0 <= i < PAGE_BYTES && Offset(p) + i >= |file| ==> buf[i] == 0
  }

  lemma WriteOther(file: Bytes, p: Pgno, d: Data, q: Pgno)
    ensures Stored(WriteTo(file, p, d), q) == if q == p then d else Stored(file, q)
  {
    var f := WriteTo(file, p, d);
    forall i | 0 <= i < PAGE_BYTES ensures Stored(f, q)[i] == if q == p then d[i] else Stored(file, q)[i] {
      if q < p { assert Offset(q) + PAGE_BYTES <= Offset(p); }
      if q > p { assert Offset(p) + PAGE_BYTES <= Offset(q); }
    }
  }

  /** A read gives the page as the file has it exactly when the rest of the buffer was blank. */
  lemma ReadShows(file: Bytes, p: Pgno, buf: Data)
    ensures ReadInto(file, p, buf) == Stored(file, p) <==> TailBlank(file, p, buf)
    ensures Inside(file, p) ==> TailBlank(file, p, buf)
  {
    var r, s := ReadInto(file, p, buf), Stored(file, p);
    if r == s {
      forall i | 0 <= i < PAGE_BYTES && Offset(p) + i >= |file| ensures buf[i] == 0 { assert r[i] == s[i]; }
    }
    if TailBlank(file, p, buf) {
      forall i | 0 <= i < PAGE_BYTES ensures r[i] == s[i] {}
    }
  }

  // ----- the operations

  /** What page p holds for the clients. */
  function Logical(s: State, p: Pgno): Data {
    if p in s.table && s.table[p] in s.frames then s.frames[s.table[p]].data else Stored(s.file, p)
  }

  /** The page is read into frame id, over what was in its buffer. */
  function Load(s: State, p: Pgno, id: Id, buf: Data): State {
    s.(frames := s.frames[id := Frame(p, ReadInto(s.file, p, buf), false, 1)], table := s.table[p := id])
  }

  /** A page in memory gets one more reference; any other takes the frame released last or, when
      there is none and the limit allows it, a new one, which is blank. */
  function Get(s: State, p: Pgno): (State, Option<Id>)
    requires s.lru != [] ==> s.lru[0] in s.frames
  {
    if p in s.table && s.table[p] in s.frames then
      var id, f := s.table[p], s.frames[s.table[p]];
      (s.(frames := s.frames[id := f.(nref := f.nref + 1)]), Some(id))
    else if s.lru != [] then
      (Load(s.(lru := s.lru[1..]), p, s.lru[0], s.frames[s.lru[0]].data), Some(s.lru[0]))
    else if |s.table| >= s.limit then (s, None)
    else (Load(s.(nextId := s.nextId + 1), p, s.nextId, Zeros()), Some(s.nextId))
  }

  function Release(s: State, id: Id): State
    requires id in s.frames && s.frames[id].nref > 0
  {
    var f := s.frames[id].(nref := s.frames[id].nref - 1);
    var t := s.(frames := s.frames[id := f]);
    if f.nref == 0 then t.(table := Minus(s.table, f.pgno), lru := [id] + s.lru) else t
  }

  function MakeDirty(s: State, id: Id): State
    requires id in s.frames
  {
    if s.frames[id].dirty then s
    else s.(frames := s.frames[id := s.frames[id].(dirty := true)], dirty := [id] + s.dirty)
  }

  /** What a client does to the bytes of a page it holds. */
  function Edit(s: State, id: Id, d: Data): State
    requires id in s.frames
  {
    s.(frames := s.frames[id := s.frames[id].(data := d)])
  }

  /** The first dirty page is written to the file. */
  function WriteFirst(s: State): State
    requires s.dirty != [] && s.dirty[0] in s.frames
  {
    var id, f := s.dirty[0], s.frames[s.dirty[0]];
    s.(file := WriteTo(s.file, f.pgno, f.data), frames := s.frames[id := f.(dirty := false)], dirty := s.dirty[1..])
  }

  // ----- what every run keeps

  /** The hash table holds the frames in use, each under its own page. */
  ghost predicate TableOk(m: map<Id, Frame>, table: map<Pgno, Id>) {
    && (forall p :: p in table ==> table[p] in m && m[table[p]].pgno == p && m[table[p]].nref > 0)
    && (forall id :: id in m && m[id].nref > 0 ==> m[id].pgno in table && table[m[id].pgno] == id)
  }

  ghost predicate Unused(m: map<Id, Frame>, id: Id) { id in m && m[id].nref == 0 }

  ghost predicate IsDirty(m: map<Id, Frame>, id: Id) { id in m && m[id].dirty }

  ghost predicate LruOk(m: map<Id, Frame>, l: seq<Id>) { NoDup(l) && forall id :: id in l <==> Unused(m, id) }

  ghost predicate DirtyOk(m: map<Id, Frame>, l: seq<Id>) { NoDup(l) && forall id :: id in l <==> IsDirty(m, id) }

  /** Dirty pages are in use. */
  ghost predicate UseOk(m: map<Id, Frame>, nextId: Id) {
    forall id :: id in m ==> id < nextId && (m[id].dirty ==> m[id].nref > 0)
  }

  ghost predicate Shape(s: State) {
    && TableOk(s.frames, s.table) && LruOk(s.frames, s.lru) && DirtyOk(s.frames, s.dirty) && UseOk(s.frames, s.nextId)
    && |s.frames| == |s.table| + |s.lru| <= s.limit
  }

  type Sound = s: State | Shape(s) ghost witness Start(0, [])

  /** Only a dirty page differs from the file. */
  ghost predicate CleanOk(file: Bytes, f: Frame) {
    f.nref > 0 && !f.dirty ==> f.data == Stored(file, f.pgno)
  }

  ghost predicate Coherent(s: State) {
    forall id :: id in s.frames ==> CleanOk(s.file, s.frames[id])
  }

  /** One frame changes but stays in use, in the table, and as dirty as it was. */
  lemma SameShape(s: State, id: Id, f: Frame)
    requires Shape(s) && id in s.frames && s.frames[id].nref > 0 && f.nref > 0
    requires f.pgno == s.frames[id].pgno && f.dirty == s.frames[id].dirty
    ensures Shape(s.(frames := s.frames[id := f]))
  {
    var m := s.frames[id := f];
    forall x ensures (x in s.lru <==> Unused(m, x)) && (x in s.dirty <==> IsDirty(m, x)) {
      assert (x in s.lru <==> Unused(s.frames, x)) && (x in s.dirty <==> IsDirty(s.frames, x));
    }
    assert |m| == |s.frames|;
  }

  /** Loading a page that is not in memory into a frame nobody uses. */
  lemma LoadShape(s: State, u: State, p: Pgno, id: Id, buf: Data)
    requires Shape(s) && p !in s.table && u == s.(lru := u.lru, nextId := u.nextId) && s.nextId <= u.nextId && id < u.nextId
    requires id in s.frames ==> Unused(s.frames, id) && !s.frames[id].dirty
    requires NoDup(u.lru) && forall x :: x in u.lru <==> Unused(s.frames, x) && x != id
    requires |u.lru| + (if id in s.frames then 1 else 0) == |s.lru| && (id !in s.frames ==> |s.frames| < s.limit)
    ensures Shape(Load(u, p, id, buf))
  {
    var t := Load(u, p, id, buf);
    LoadLists(s, t, id);
    LoadTable(s.frames, s.table, id, t.frames[id]);
  }

  lemma LoadTable(m: map<Id, Frame>, table: map<Pgno, Id>, id: Id, f: Frame)
    requires TableOk(m, table) && f.pgno !in table && f.nref > 0 && (id in m ==> m[id].nref == 0)
    ensures TableOk(m[id := f], table[f.pgno := id])
  {
  }

  lemma LoadLists(s: State, t: State, id: Id)
    requires DirtyOk(s.frames, s.dirty) && t.dirty == s.dirty
    requires NoDup(t.lru) && forall x :: x in t.lru <==> Unused(s.frames, x) && x != id
    requires id in t.frames && t.frames[id].nref > 0 && !t.frames[id].dirty && t.frames == s.frames[id := t.frames[id]]
    requires !IsDirty(s.frames, id)
    ensures LruOk(t.frames, t.lru) && DirtyOk(t.frames, t.dirty)
  {
    forall x ensures (x in t.lru <==> Unused(t.frames, x)) && (x in t.dirty <==> IsDirty(t.frames, x)) {
      assert x in s.dirty <==> IsDirty(s.frames, x);
    }
  }

  lemma FirstFree(s: State)
    requires Shape(s) && s.lru != []
    ensures s.lru[0] in s.frames && Unused(s.frames, s.lru[0]) && !s.frames[s.lru[0]].dirty
  {
    assert s.lru[0] in s.lru;
  }

  lemma ReuseShape(s: State, p: Pgno, buf: Data)
    requires Shape(s) && p !in s.table && s.lru != []
    ensures Shape(Load(s.(lru := s.lru[1..]), p, s.lru[0], buf))
  {
    var id, l := s.lru[0], s.lru[1..];
    FirstFree(s);
    assert s.lru == [id] + l;
    forall x ensures x in l <==> Unused(s.frames, x) && x != id {
      assert x in s.lru <==> Unused(s.frames, x);
    }
    LoadShape(s, s.(lru := l), p, id, buf);
  }

  lemma NewShape(s: State, p: Pgno)
    requires Shape(s) && p !in s.table && s.lru == [] && |s.table| < s.limit
    ensures Shape(Load(s.(nextId := s.nextId + 1), p, s.nextId, Zeros()))
  {
    forall x ensures x in s.lru <==> Unused(s.frames, x) && x != s.nextId {
      assert x in s.lru <==> Unused(s.frames, x);
    }
    LoadShape(s, s.(nextId := s.nextId + 1), p, s.nextId, Zeros());
  }

  /** Get keeps the frames, the lists and the limit in order, and is refused exactly when the page
      is not in memory and every frame it may have is in use. */
  lemma GetShape(s: State, p: Pgno)
    requires Shape(s)
    ensures s.lru != [] ==> s.lru[0] in s.frames
    ensures var (t, r) := Get(s, p);
            && Shape(t) && t.file == s.file && t.dirty == s.dirty && t.limit == s.limit
            && (r.None? <==> p !in s.table && |s.table| == s.limit)
            && (r.Some? ==> r.value in t.frames && t.frames[r.value].pgno == p && t.frames[r.value].nref > 0)
  {
    if s.lru != [] { FirstFree(s); }
    if p in s.table {
      SameShape(s, s.table[p], s.frames[s.table[p]].(nref := s.frames[s.table[p]].nref + 1));
    } else if s.lru != [] {
      ReuseShape(s, p, s.frames[s.lru[0]].data);
    } else if |s.table| < s.limit {
      NewShape(s, p);
    }
  }

  /** The page handed out has one reference more, or its first; every other frame in use stays. */
  lemma GetCounts(s: State, p: Pgno, id: Id)
    requires Shape(s)
    ensures s.lru != [] ==> s.lru[0] in s.frames
    ensures var (t, r) := Get(s, p);
            && (r == Some(id) ==>
                  id in t.frames && t.frames[id].pgno == p && t.frames[id].nref == (if id in s.frames then s.frames[id].nref else 0) + 1)
            && (r != Some(id) ==> (id in t.frames <==> id in s.frames) && (id in s.frames ==> t.frames[id] == s.frames[id]))
            && (id in s.frames && s.frames[id].nref > 0 ==>
                  t.frames[id].pgno == s.frames[id].pgno && t.frames[id].data == s.frames[id].data)
  {
    if s.lru != [] { FirstFree(s); }
  }

  // ----- what a client sees

  /** Nothing stale shows: the page is in memory, or it gets a new frame, or the frame it gets holds
      only zeros where the file has nothing to put.  The last is so for a page inside the file. */
  ghost predicate Blank(s: State, p: Pgno)
    requires s.lru != [] ==> s.lru[0] in s.frames
  {
    p in s.table || s.lru == [] || TailBlank(s.file, p, s.frames[s.lru[0]].data)
  }

  lemma InsideIsBlank(s: State, p: Pgno)
    requires Shape(s) && Inside(s.file, p)
    ensures s.lru != [] ==> s.lru[0] in s.frames
    ensures Blank(s, p)
  {
    if s.lru != [] {
      FirstFree(s);
      ReadShows(s.file, p, s.frames[s.lru[0]].data);
    }
  }

  lemma GetData(s: State, p: Pgno)
    requires Shape(s)
    ensures s.lru != [] ==> s.lru[0] in s.frames
    ensures var (t, r) := Get(s, p);
            r.Some? ==> r.value in t.frames && (t.frames[r.value].data == Logical(s, p) <==> Blank(s, p))
  {
    if s.lru != [] {
      FirstFree(s);
      ReadShows(s.file, p, s.frames[s.lru[0]].data);
    } else {
      ReadShows(s.file, p, Zeros());
    }
  }

  lemma GetKeeps(s: State, p: Pgno, q: Pgno)
    requires Shape(s)
    ensures s.lru != [] ==> s.lru[0] in s.frames
    ensures q != p || Blank(s, p) ==> Logical(Get(s, p).0, q) == Logical(s, q)
  {
    GetData(s, p);
    if s.lru != [] { FirstFree(s); }
  }

  lemma GetCoherent(s: State, p: Pgno)
    requires Shape(s) && Coherent(s)
    ensures s.lru != [] ==> s.lru[0] in s.frames
    ensures Blank(s, p) ==> Coherent(Get(s, p).0)
  {
    GetData(s, p);
    if Blank(s, p) {
      var t := Get(s, p).0;
      forall x | x in t.frames ensures CleanOk(t.file, t.frames[x]) {
        assert x in s.frames ==> CleanOk(s.file, s.frames[x]);
      }
    }
  }

  /** A frame in use keeps page and bytes, with one more reference if it is the one handed out. */
  ghost predicate KeepsHeld(s: State, t: State, r: Option<Id>, id: Id) {
    id in s.frames && s.frames[id].nref > 0 ==>
      && id in t.frames && t.frames[id].pgno == s.frames[id].pgno && t.frames[id].data == s.frames[id].data
      && t.frames[id].nref == s.frames[id].nref + (if r == Some(id) then 1 else 0)
  }

  /** A fetched page shows what was last written to it exactly when nothing stale shows; then no
      page changes.  Frames in use stay. */
  lemma GetOk(s: State, p: Pgno)
    requires Shape(s) && Coherent(s)
    ensures s.lru != [] ==> s.lru[0] in s.frames
    ensures var (t, r) := Get(s, p);
            && (r.Some? ==> r.value in t.frames && (t.frames[r.value].data == Logical(s, p) <==> Blank(s, p)))
            && (forall q: Pgno :: q != p || Blank(s, p) ==> Logical(t, q) == Logical(s, q))
            && (forall id :: KeepsHeld(s, t, r, id))
            && (Blank(s, p) ==> Coherent(t))
  {
    GetData(s, p);
    forall id ensures KeepsHeld(s, Get(s, p).0, Get(s, p).1, id) { GetCounts(s, p, id); }
    GetCoherent(s, p);
    forall q: Pgno | q != p || Blank(s, p) ensures Logical(Get(s, p).0, q) == Logical(s, q) { GetKeeps(s, p, q); }
  }

  /** It does fail: a frame with page 1 in it is given back and used for page 2, which the file does
      not have.  The client sees page 1. */
  lemma StalePageShows()
    ensures var a := seq(PAGE_BYTES, _ => 65);
            var s := Get(Start(1, a), 1).0;
            && 0 in s.frames && s.frames[0].nref > 0
            && var u := Release(s, 0);
            && (u.lru != [] ==> u.lru[0] in u.frames)
            && var (t, r) := Get(u, 2);
            r == Some(0) && 0 in t.frames && t.frames[0].pgno == 2 && t.frames[0].data == a && Logical(u, 2) == Zeros()
  {
    var a: Bytes := seq(PAGE_BYTES, _ => 65);
    assert ReadInto(a, 1, Zeros()) == a && ReadInto(a, 2, a) == a;
    assert Stored(a, 2) == Zeros();
  }

  // ----- giving back

  lemma ReleaseLists(s: State, id: Id)
    requires LruOk(s.frames, s.lru) && DirtyOk(s.frames, s.dirty) && id in s.frames && s.frames[id].nref > 0
    ensures LruOk(Release(s, id).frames, Release(s, id).lru) && DirtyOk(Release(s, id).frames, Release(s, id).dirty)
  {
    var t := Release(s, id);
    assert id in s.lru <==> Unused(s.frames, id);
    PushOk(s.lru, id);
    forall x ensures (x in t.lru <==> Unused(t.frames, x)) && (x in t.dirty <==> IsDirty(t.frames, x)) {
      assert (x in s.lru <==> Unused(s.frames, x)) && (x in s.dirty <==> IsDirty(s.frames, x));
    }
  }

  lemma ReleaseTable(s: State, id: Id)
    requires TableOk(s.frames, s.table) && id in s.frames && s.frames[id].nref > 0
    ensures TableOk(Release(s, id).frames, Release(s, id).table)
    ensures |Release(s, id).table| == |s.table| - if s.frames[id].nref == 1 then 1 else 0
  {
  }

  lemma ReleaseShape(s: State, id: Id)
    requires Shape(s) && id in s.frames && s.frames[id].nref > 0 && (s.frames[id].dirty ==> s.frames[id].nref > 1)
    ensures Shape(Release(s, id))
  {
    ReleaseLists(s, id);
    ReleaseTable(s, id);
    assert |Release(s, id).frames| == |s.frames|;
  }

  lemma ReleaseKeeps(s: State, id: Id, q: Pgno)
    requires Shape(s) && Coherent(s) && id in s.frames && s.frames[id].nref > 0 && (s.frames[id].dirty ==> s.frames[id].nref > 1)
    ensures Logical(Release(s, id), q) == Logical(s, q)
  {
    assert CleanOk(s.file, s.frames[id]);
  }

  /** A page is given back: no page changes.  The last reference to a dirty page is not given up. */
  lemma ReleaseOk(s: State, id: Id)
    requires Shape(s) && Coherent(s) && id in s.frames && s.frames[id].nref > 0 && (s.frames[id].dirty ==> s.frames[id].nref > 1)
    ensures var t := Release(s, id);
            Shape(t) && Coherent(t) && t.file == s.file && t.limit == s.limit && forall q: Pgno :: Logical(t, q) == Logical(s, q)
  {
    var t := Release(s, id);
    ReleaseShape(s, id);
    forall x | x in t.frames ensures CleanOk(t.file, t.frames[x]) { assert CleanOk(s.file, s.frames[x]); }
    forall q: Pgno ensures Logical(t, q) == Logical(s, q) { ReleaseKeeps(s, id, q); }
  }

  // ----- writing

  lemma MakeDirtyShape(s: State, id: Id)
    requires Shape(s) && id in s.frames && s.frames[id].nref > 0
    ensures Shape(MakeDirty(s, id))
  {
    if !s.frames[id].dirty {
      var m := s.frames[id := s.frames[id].(dirty := true)];
      assert id in s.dirty <==> IsDirty(s.frames, id);
      PushOk(s.dirty, id);
      forall x ensures (x in s.lru <==> Unused(m, x)) && (x in [id] + s.dirty <==> IsDirty(m, x)) {
        assert (x in s.lru <==> Unused(s.frames, x)) && (x in s.dirty <==> IsDirty(s.frames, x));
      }
      assert |m| == |s.frames|;
    }
  }

  lemma MakeDirtyOk(s: State, id: Id)
    requires Shape(s) && Coherent(s) && id in s.frames && s.frames[id].nref > 0
    ensures var t := MakeDirty(s, id);
            && Shape(t) && Coherent(t) && t.file == s.file && t.limit == s.limit && t.frames[id].dirty
            && forall q: Pgno :: Logical(t, q) == Logical(s, q)
  {
    var t := MakeDirty(s, id);
    MakeDirtyShape(s, id);
    forall x | x in t.frames ensures CleanOk(t.file, t.frames[x]) { assert CleanOk(s.file, s.frames[x]); }
  }

  /** A client writes to a page it holds and has announced to write: that page changes, alone. */
  lemma EditOk(s: State, id: Id, d: Data)
    requires Shape(s) && Coherent(s) && id in s.frames && s.frames[id].dirty
    ensures var t := Edit(s, id, d);
            && Shape(t) && Coherent(t) && t.file == s.file && t.limit == s.limit
            && forall q: Pgno :: Logical(t, q) == if q == s.frames[id].pgno then d else Logical(s, q)
  {
    var t := Edit(s, id, d);
    SameShape(s, id, s.frames[id].(data := d));
    forall x | x in t.frames ensures CleanOk(t.file, t.frames[x]) { assert CleanOk(s.file, s.frames[x]); }
  }

  lemma WriteFirstShape(s: State)
    requires Shape(s) && s.dirty != []
    ensures s.dirty[0] in s.frames && s.frames[s.dirty[0]].nref > 0 && Shape(WriteFirst(s))
  {
    var id, l := s.dirty[0], s.dirty[1..];
    assert id in s.dirty && IsDirty(s.frames, id);
    var m := s.frames[id := s.frames[id].(dirty := false)];
    assert s.dirty == [id] + l;
    forall x ensures (x in s.lru <==> Unused(m, x)) && (x in l <==> IsDirty(m, x)) {
      assert (x in s.lru <==> Unused(s.frames, x)) && (x in s.dirty <==> IsDirty(s.frames, x));
    }
    assert |m| == |s.frames|;
  }

  lemma WriteFirstClean(s: State, x: Id)
    requires Shape(s) && Coherent(s) && s.dirty != [] && x in s.frames && s.dirty[0] in s.frames && s.frames[s.dirty[0]].nref > 0
    ensures CleanOk(WriteFirst(s).file, WriteFirst(s).frames[x])
  {
    var f := s.frames[s.dirty[0]];
    assert CleanOk(s.file, s.frames[x]);
    WriteOther(s.file, f.pgno, f.data, s.frames[x].pgno);
  }

  lemma WriteFirstKeeps(s: State, q: Pgno)
    requires Shape(s) && s.dirty != [] && s.dirty[0] in s.frames && s.frames[s.dirty[0]].nref > 0
    ensures Logical(WriteFirst(s), q) == Logical(s, q)
  {
    var f := s.frames[s.dirty[0]];
    WriteOther(s.file, f.pgno, f.data, q);
  }

  lemma WriteFirstOk(s: State)
    requires Shape(s) && Coherent(s) && s.dirty != []
    ensures s.dirty[0] in s.frames
    ensures var t := WriteFirst(s); Shape(t) && Coherent(t) && t.limit == s.limit && forall q: Pgno :: Logical(t, q) == Logical(s, q)
  {
    WriteFirstShape(s);
    var t := WriteFirst(s);
    forall x | x in t.frames ensures CleanOk(t.file, t.frames[x]) { WriteFirstClean(s, x); }
    forall q: Pgno ensures Logical(t, q) == Logical(s, q) { WriteFirstKeeps(s, q); }
  }

  function Commit(s: State): State
    requires Shape(s)
    decreases |s.dirty|
  {
    if s.dirty == [] then s else (WriteFirstShape(s); Commit(WriteFirst(s)))
  }

  lemma AllStored(s: State, q: Pgno)
    requires Shape(s) && Coherent(s) && s.dirty == []
    ensures Stored(s.file, q) == Logical(s, q)
  {
    if q in s.table {
      var id := s.table[q];
      assert CleanOk(s.file, s.frames[id]);
      assert id in s.dirty <==> IsDirty(s.frames, id);
    }
  }

  /** After a commit nothing is dirty and the file holds every page as the clients see it. */
  lemma {:induction false} CommitOk(s: State)
    requires Shape(s) && Coherent(s)
    ensures var t := Commit(s);
            && Shape(t) && Coherent(t) && t.dirty == [] && t.table == s.table && t.lru == s.lru && t.limit == s.limit
            && forall q: Pgno :: Logical(t, q) == Logical(s, q) && Stored(t.file, q) == Logical(s, q)
    decreases |s.dirty|
  {
    if s.dirty == [] {
      forall q: Pgno ensures Stored(s.file, q) == Logical(s, q) { AllStored(s, q); }
    } else {
      WriteFirstOk(s);
      CommitOk(WriteFirst(s));
    }
  }

  /** A commit marks frames clean and changes nothing else about them. */
  lemma {:induction false} CommitFrames(s: State, id: Id)
    requires Shape(s)
    ensures id in Commit(s).frames <==> id in s.frames
    ensures id in s.frames ==> Commit(s).frames[id] == s.frames[id].(dirty := false)
    decreases |s.dirty|
  {
    if s.dirty == [] {
      assert id in s.dirty <==> IsDirty(s.frames, id);
    } else {
      WriteFirstShape(s);
      CommitFrames(WriteFirst(s), id);
    }
  }

  lemma {:induction false} CommitShape(s: State)
    requires Shape(s)
    ensures var t := Commit(s); Shape(t) && t.dirty == [] && t.limit == s.limit && t.table == s.table
    decreases |s.dirty|
  {
    if s.dirty != [] {
      WriteFirstShape(s);
      CommitShape(WriteFirst(s));
    }
  }
}
