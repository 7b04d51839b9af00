/** What every operation of the slab pool keeps, and what callers can rely on. */
module SlabProofs {
  import opened Common
  import opened Lists
  import opened SlabSpec

  /** q is a later page of the run or block that starts at p. */
  ghost predicate Spans(pages: seq<Use>, p: Id, q: Id) {
    && p < q < |pages|
    && ((pages[p].Run? && pages[q].InRun? && q < p + pages[p].len)
        || (pages[p].Whole? && pages[q].InWhole? && q < p + pages[p].len))
  }

  ghost predicate Covered(pages: seq<Use>, q: Id) {
    exists p :: Spans(pages, p, q)
  }

  /** The chunks that hold the bitmap are never free, and some other chunk is handed out. */
  ghost predicate MapOk(s: Shift, used: seq<bool>) {
    |used| == Blocks(s) && (forall i :: 0 <= i < Reserved(s) ==> used[i]) && Busy(s, used)
  }

  /** What page p says about itself is true. */
  ghost predicate PageOk(pages: seq<Use>, p: Id)
    requires p < |pages|
  {
    match pages[p]
    case Run(n) => 1 <= n && p + n <= |pages| && forall q :: p < q < p + n ==> pages[q] == InRun
    case Whole(n) => 1 <= n && p + n <= |pages| && forall q :: p < q < p + n ==> pages[q] == InWhole
    case Chunks(s, used) => MapOk(s, used)
    case _ => Covered(pages, p)
  }

  ghost predicate PagesOk(pages: seq<Use>) {
    forall p: nat :: p < |pages| ==> PageOk(pages, p)
  }

  ghost predicate IsRun(pages: seq<Use>, p: Id) { p < |pages| && pages[p].Run? }

  ghost predicate IsHalf(pages: seq<Use>, s: Shift, p: Id) {
    p < |pages| && pages[p].Chunks? && pages[p].shift == s && !Full(pages[p].used)
  }

  /** The free list holds every free run once. */
  ghost predicate FreeOk(pages: seq<Use>, free: seq<Id>) {
    NoDup(free) && forall p :: p in free <==> IsRun(pages, p)
  }

  /** Each size's list holds, once, every page of that size with a free chunk. */
  ghost predicate HalfOk(pages: seq<Use>, s: Shift, l: seq<Id>) {
    NoDup(l) && forall p :: p in l <==> IsHalf(pages, s, p)
  }

  ghost predicate HalfAt(pool: Pool, s: Shift)
    requires |pool.half| == SLOTS
  {
    HalfOk(pool.pages, s, HalfOf(pool, s))
  }

  ghost predicate HalvesOk(pool: Pool) {
    |pool.half| == SLOTS && forall s: Shift :: HalfAt(pool, s)
  }

  /** Every page has a descriptor and lies in front of the end. */
  ghost predicate AreaOk(pool: Pool) {
    |pool.pages| == pool.area.pages <= pool.area.descriptors && pool.area.pages * PAGE <= pool.area.size
  }

  ghost predicate Inv(pool: Pool) {
    AreaOk(pool) && PagesOk(pool.pages) && FreeOk(pool.pages, pool.free) && HalvesOk(pool)
  }

  // ----- runs of pages

  ghost predicate IsHead(u: Use) { !u.InRun? && !u.InWhole? }

  ghost function Span(u: Use): nat { if u.Run? || u.Whole? then u.len else 1 }

  /** Two runs, blocks or chunked pages do not overlap. */
  lemma Apart(pages: seq<Use>, p: Id, q: Id)
    requires PagesOk(pages) && p < |pages| && q < |pages| && p != q && IsHead(pages[p]) && IsHead(pages[q])
    ensures p + Span(pages[p]) <= q || q + Span(pages[q]) <= p
  {
    assert PageOk(pages, p) && PageOk(pages, q);
  }

  /** Outside the span that changes, nothing about runs and blocks does. */
  lemma PagesElsewhere(pages: seq<Use>, pages': seq<Use>, p: Id)
    requires PagesOk(pages) && |pages'| == |pages| && p < |pages| && IsHead(pages[p])
    requires forall q: nat :: q < |pages| && !(p <= q < p + Span(pages[p])) ==> pages'[q] == pages[q]
    ensures forall q: nat :: q < |pages| && !(p <= q < p + Span(pages[p])) ==> PageOk(pages', q)
  {
    assert PageOk(pages, p);
    forall q: nat | q < |pages| && !(p <= q < p + Span(pages[p])) ensures PageOk(pages', q) {
      assert PageOk(pages, q);
      if IsHead(pages[q]) {
        Apart(pages, p, q);
      } else {
        var h :| Spans(pages, h, q);
        assert h != p;
        Apart(pages, p, h);
        assert Spans(pages', h, q);
      }
    }
  }

  lemma CarveOk(pages: seq<Use>, p: Id, n: nat)
    requires PagesOk(pages) && IsRun(pages, p) && 1 <= n <= pages[p].len
    ensures PagesOk(Carve(pages, p, n))
  {
    var r := Carve(pages, p, n);
    PagesElsewhere(pages, r, p);
    assert PageOk(pages, p);
    forall q: nat | p <= q < p + pages[p].len ensures PageOk(r, q) {
      if p < q < p + n { assert Spans(r, p, q); }
      if p + n < q { assert Spans(r, p + n, q); }
    }
  }

  lemma ClearOk(pages: seq<Use>, p: Id)
    requires PagesOk(pages) && p < |pages| && IsHead(pages[p])
    ensures PagesOk(Clear(pages, p, Span(pages[p])))
  {
    var n := Span(pages[p]);
    var r := Clear(pages, p, n);
    assert PageOk(pages, p);
    PagesElsewhere(pages, r, p);
    forall q: nat | p <= q < p + n ensures PageOk(r, q) {
      if p < q { assert Spans(r, p, q); }
    }
  }

  lemma {:induction false} FirstFitNone(pages: seq<Use>, free: seq<Id>, n: nat, p: Id)
    requires FirstFit(pages, free, n).None? && p in free && IsRun(pages, p)
    ensures pages[p].len < n
  {
    if free[0] != p { FirstFitNone(pages, free[1..], n, p); }
  }

  /** No half-full page is touched. */
  lemma HalfKept(pages: seq<Use>, pages': seq<Use>, s: Shift, l: seq<Id>)
    requires HalfOk(pages, s, l) && |pages'| == |pages|
    requires forall p: nat :: p < |pages| && (pages[p].Chunks? || pages'[p].Chunks?) ==> pages'[p] == pages[p]
    ensures HalfOk(pages', s, l)
  {
    forall p ensures p in l <==> IsHalf(pages', s, p) {
      assert IsHalf(pages, s, p) <==> IsHalf(pages', s, p);
    }
  }

  lemma HalvesKept(pool: Pool, t: Pool)
    requires HalvesOk(pool) && t.half == pool.half && |t.pages| == |pool.pages|
    requires forall p: nat :: p < |pool.pages| && (pool.pages[p].Chunks? || t.pages[p].Chunks?) ==> t.pages[p] == pool.pages[p]
    ensures HalvesOk(t)
  {
    forall s: Shift ensures HalfAt(t, s) {
      assert HalfAt(pool, s);
      HalfKept(pool.pages, t.pages, s, HalfOf(pool, s));
    }
  }

  lemma CarveFree(pages: seq<Use>, free: seq<Id>, i: nat, n: nat)
    requires PagesOk(pages) && FreeOk(pages, free) && i < |free| && IsRun(pages, free[i]) && 1 <= n <= pages[free[i]].len
    ensures var p := free[i]; var r := Carve(pages, p, n);
            FreeOk(r, CarveList(pages, free, i, n))
  {
    var p := free[i];
    var r := Carve(pages, p, n);
    assert PageOk(pages, p);
    DropOk(free, i);
    if pages[p].len > n {
      assert !IsRun(pages, p + n);
      SwapOk(free, i, p + n);
    }
    var l := CarveList(pages, free, i, n);
    forall q ensures q in l <==> IsRun(r, q) {
      assert q in free <==> IsRun(pages, q);
    }
  }

  /** Only free pages are taken; the run they came from keeps the rest. */
  ghost predicate Taken(pages: seq<Use>, pages': seq<Use>, p: Id, n: nat) {
    && |pages'| == |pages| && p + n <= |pages| && IsRun(pages, p) && n <= pages[p].len
    && pages' == Carve(pages, p, n) && pages'[p] == Whole(n)
    && forall q: nat :: p < q < p + n ==> pages[q] == InRun && pages'[q] == InWhole
  }

  lemma CarveTaken(pages: seq<Use>, p: Id, n: nat)
    requires PagesOk(pages) && IsRun(pages, p) && 1 <= n <= pages[p].len
    ensures Taken(pages, Carve(pages, p, n), p, n)
  {
    assert PageOk(pages, p);
  }

  lemma CarveHalves(pool: Pool, t: Pool, p: Id, n: nat)
    requires HalvesOk(pool) && PagesOk(pool.pages) && IsRun(pool.pages, p) && 1 <= n <= pool.pages[p].len
    requires t.half == pool.half && t.pages == Carve(pool.pages, p, n)
    ensures HalvesOk(t)
  {
    assert PageOk(pool.pages, p);
    HalvesKept(pool, t);
  }

  lemma AllRunsShort(pool: Pool, n: nat)
    requires Inv(pool) && FirstFit(pool.pages, pool.free, n).None?
    ensures forall p: Id :: IsRun(pool.pages, p) ==> pool.pages[p].len < n
  {
    forall p: Id | IsRun(pool.pages, p) ensures pool.pages[p].len < n {
      assert p in pool.free;
      FirstFitNone(pool.pages, pool.free, n, p);
    }
  }

  lemma TakeRunOk(pool: Pool, i: nat, n: nat)
    requires Inv(pool) && i < |pool.free| && IsRun(pool.pages, pool.free[i]) && 1 <= n <= pool.pages[pool.free[i]].len
    ensures Inv(TakeRun(pool, i, n)) && Taken(pool.pages, TakeRun(pool, i, n).pages, pool.free[i], n)
  {
    var p := pool.free[i];
    CarveOk(pool.pages, p, n);
    CarveTaken(pool.pages, p, n);
    CarveFree(pool.pages, pool.free, i, n);
    CarveHalves(pool, TakeRun(pool, i, n), p, n);
  }

  lemma AllocPagesOk(pool: Pool, n: nat)
    requires Inv(pool) && n >= 1
    ensures var (t, r) := AllocPages(pool, n);
            && Inv(t)
            && (r.Some? ==> Taken(pool.pages, t.pages, r.value, n))
            && (r.None? ==> t == pool && forall p: Id :: IsRun(pool.pages, p) ==> pool.pages[p].len < n)
  {
    match FirstFit(pool.pages, pool.free, n)
    case None => AllRunsShort(pool, n);
    case Some(i) => TakeRunOk(pool, i, n);
  }

  lemma ClearFree(pages: seq<Use>, free: seq<Id>, p: Id)
    requires PagesOk(pages) && p < |pages| && IsHead(pages[p])
    requires NoDup(free) && p !in free && forall q :: q != p ==> (q in free <==> IsRun(pages, q))
    ensures FreeOk(Clear(pages, p, Span(pages[p])), [p] + free)
  {
    var r := Clear(pages, p, Span(pages[p]));
    assert PageOk(pages, p);
    PushOk(free, p);
    forall q: Id ensures q in [p] + free <==> IsRun(r, q) {
      assert q != p ==> (q in free <==> IsRun(pages, q));
      if q < |pages| && IsHead(pages[q]) && q != p { Apart(pages, p, q); }
    }
  }

  // ----- chunks

  /** A chunked page stays one, or a fresh one takes the place of a one-page block. */
  lemma SetPage(pages: seq<Use>, p: Id, s: Shift, used: seq<bool>)
    requires PagesOk(pages) && p < |pages| && IsHead(pages[p]) && Span(pages[p]) == 1 && MapOk(s, used)
    ensures PagesOk(pages[p := Chunks(s, used)])
  {
    PagesElsewhere(pages, pages[p := Chunks(s, used)], p);
  }

  lemma FreeKept(pages: seq<Use>, p: Id, u: Use, free: seq<Id>)
    requires FreeOk(pages, free) && p < |pages| && !pages[p].Run? && !u.Run?
    ensures FreeOk(pages[p := u], free)
  {
    forall q: Id ensures q in free <==> IsRun(pages[p := u], q) {
      assert q in free <==> IsRun(pages, q);
    }
  }

  /** Page p changes within its size: the lists of the other sizes stand. */
  lemma OtherHalves(pool: Pool, t: Pool, p: Id, s: Shift)
    requires HalvesOk(pool) && |t.half| == SLOTS && p < |pool.pages| == |t.pages|
    requires forall q: nat :: q < |pool.pages| && q != p ==> t.pages[q] == pool.pages[q]
    requires (pool.pages[p].Chunks? ==> pool.pages[p].shift == s) && (t.pages[p].Chunks? ==> t.pages[p].shift == s)
    requires forall z: Shift :: z != s ==> HalfOf(t, z) == HalfOf(pool, z)
    requires HalfAt(t, s)
    ensures HalvesOk(t)
  {
    forall z: Shift ensures HalfAt(t, z) {
      if z != s {
        assert HalfAt(pool, z);
        var l := HalfOf(t, z);
        forall q: Id ensures q in l <==> IsHalf(t.pages, z, q) {
          assert IsHalf(pool.pages, z, q) <==> IsHalf(t.pages, z, q);
        }
      }
    }
  }

  lemma FirstChunkOk(s: Shift)
    ensures MapOk(s, FirstChunk(s)) && !Full(FirstChunk(s)) && Reserved(s) + 1 < Blocks(s)
  {
    assert FirstChunk(s)[Reserved(s)] && !FirstChunk(s)[Reserved(s) + 1];
  }

  lemma NotFull(used: seq<bool>)
    requires !Full(used)
    ensures FirstFree(used) < |used|
  {
  }

  lemma TakeMapOk(s: Shift, used: seq<bool>, i: nat)
    requires MapOk(s, used) && i < |used|
    ensures MapOk(s, used[i := true])
  {
    var j :| Reserved(s) <= j < |used| && used[j];
    assert used[i := true][j];
  }

  lemma TakeChunkOk(pool: Pool, s: Shift)
    requires Inv(pool) && HalfOf(pool, s) != []
    ensures ChunkReady(pool, s)
    ensures var (t, b) := TakeChunk(pool, s);
            && Inv(t) && b.page < |pool.pages| && pool.pages[b.page].Chunks? && pool.pages[b.page].shift == s
            && b.i < Blocks(s) && !pool.pages[b.page].used[b.i]
            && t.pages == pool.pages[b.page := Chunks(s, pool.pages[b.page].used[b.i := true])]
  {
    var p := HalfOf(pool, s)[0];
    assert HalfAt(pool, s) && p in HalfOf(pool, s) && IsHalf(pool.pages, s, p) && PageOk(pool.pages, p);
    var used := pool.pages[p].used;
    NotFull(used);
    var i := FirstFree(used);
    TakeMapOk(s, used, i);
    SetPage(pool.pages, p, s, used[i := true]);
    FreeKept(pool.pages, p, Chunks(s, used[i := true]), pool.free);
    var (t, b) := TakeChunk(pool, s);
    TakeHalf(pool, t, s, p, used[i := true]);
    OtherHalves(pool, t, p, s);
  }

  lemma TakeHalf(pool: Pool, t: Pool, s: Shift, p: Id, used: seq<bool>)
    requires |pool.half| == SLOTS == |t.half| && HalfAt(pool, s) && HalfOf(pool, s) != [] && p == HalfOf(pool, s)[0]
    requires p < |pool.pages| && t.pages == pool.pages[p := Chunks(s, used)]
    requires HalfOf(t, s) == if Full(used) then HalfOf(pool, s)[1..] else HalfOf(pool, s)
    ensures HalfAt(t, s)
  {
    var l, l' := HalfOf(pool, s), HalfOf(t, s);
    assert l == [p] + l[1..];
    forall q: Id ensures q in l' <==> IsHalf(t.pages, s, q) {
      assert q in l <==> IsHalf(pool.pages, s, q);
    }
  }

  lemma NoHalfOfOther(pool: Pool, t: Pool, p: Id, s: Shift)
    requires |pool.half| == SLOTS == |t.half| && HalfAt(pool, s) && HalfOf(pool, s) == [] && HalfOf(t, s) == [p]
    requires p < |pool.pages| && t.pages == pool.pages[p := Chunks(s, FirstChunk(s))]
    ensures HalfAt(t, s)
  {
    FirstChunkOk(s);
    forall q: Id ensures q in [p] <==> IsHalf(t.pages, s, q) {
      assert q in HalfOf(pool, s) <==> IsHalf(pool.pages, s, q);
    }
  }

  lemma NewChunksOk(pool: Pool, s: Shift)
    requires Inv(pool) && HalfOf(pool, s) == []
    ensures var (t, r) := NewChunks(pool, s);
            && Inv(t)
            && (r.None? ==> t == pool && forall p: Id :: !IsRun(pool.pages, p))
            && (r.Some? ==> var p := r.value.page;
                  && r.value == Chunk(p, s, Reserved(s)) && IsRun(pool.pages, p)
                  && t.pages == Carve(pool.pages, p, 1)[p := Chunks(s, FirstChunk(s))])
  {
    forall p: Id | IsRun(pool.pages, p) ensures pool.pages[p].len >= 1 { assert PageOk(pool.pages, p); }
    AllocPagesOk(pool, 1);
    var (u, r) := AllocPages(pool, 1);
    if r.Some? {
      var p := r.value;
      FirstChunkOk(s);
      SetPage(u.pages, p, s, FirstChunk(s));
      FreeKept(u.pages, p, Chunks(s, FirstChunk(s)), u.free);
      var t := NewChunks(pool, s).0;
      assert HalfAt(u, s);
      NoHalfOfOther(u, t, p, s);
      OtherHalves(u, t, p, s);
    }
  }

  lemma AllocKeeps(pool: Pool, size: SizeT)
    requires Inv(pool) && !Wraps(size)
    ensures size < MAX ==> ChunkReady(pool, Class(size))
    ensures Inv(Alloc(pool, size).0)
  {
    if size >= MAX {
      assert PageCount(size) == (size + PAGE - 1) / PAGE >= 1;
      AllocPagesOk(pool, PageCount(size));
    } else if HalfOf(pool, Class(size)) != [] {
      TakeChunkOk(pool, Class(size));
    } else {
      NewChunksOk(pool, Class(size));
    }
  }

  // ----- giving back

  lemma ReleaseHalf(pool: Pool, t: Pool, p: Id, s: Shift, used: seq<bool>)
    requires |pool.half| == SLOTS == |t.half| && HalfAt(pool, s)
    requires p < |pool.pages| && pool.pages[p].Chunks? && pool.pages[p].shift == s
    requires t.pages == pool.pages[p := Chunks(s, used)] && !Full(used)
    requires HalfOf(t, s) == if Full(pool.pages[p].used) then [p] + HalfOf(pool, s) else HalfOf(pool, s)
    ensures HalfAt(t, s)
  {
    var l, l' := HalfOf(pool, s), HalfOf(t, s);
    assert p in l <==> IsHalf(pool.pages, s, p);
    if Full(pool.pages[p].used) { PushOk(l, p); }
    forall q: Id ensures q in l' <==> IsHalf(t.pages, s, q) {
      assert q in l <==> IsHalf(pool.pages, s, q);
    }
  }

  /** The chunk goes back and the page keeps others. */
  lemma KeepPage(pool: Pool, p: Id, i: nat)
    requires Inv(pool) && p < |pool.pages| && pool.pages[p].Chunks?
    requires Reserved(pool.pages[p].shift) <= i < |pool.pages[p].used|
    requires Busy(pool.pages[p].shift, pool.pages[p].used[i := false])
    ensures Inv(FreeChunk(pool, p, i))
  {
    var s, used := pool.pages[p].shift, pool.pages[p].used[i := false];
    assert PageOk(pool.pages, p) && !used[i];
    var t := FreeChunk(pool, p, i);
    SetPage(pool.pages, p, s, used);
    FreeKept(pool.pages, p, Chunks(s, used), pool.free);
    assert HalfAt(pool, s);
    ReleaseHalf(pool, t, p, s, used);
    OtherHalves(pool, t, p, s);
  }

  lemma DropHalf(pool: Pool, t: Pool, p: Id, s: Shift)
    requires |pool.half| == SLOTS == |t.half| && HalfAt(pool, s)
    requires p < |pool.pages| && pool.pages[p].Chunks? && pool.pages[p].shift == s
    requires t.pages == Clear(pool.pages, p, 1)
    requires HalfOf(t, s) == if Full(pool.pages[p].used) then Without([p] + HalfOf(pool, s), p) else Without(HalfOf(pool, s), p)
    ensures HalfAt(t, s)
  {
    var l, l' := HalfOf(pool, s), HalfOf(t, s);
    assert p in l <==> IsHalf(pool.pages, s, p);
    if Full(pool.pages[p].used) {
      assert ([p] + l)[1..] == l;
    } else {
      WithoutOk(l, p);
    }
    forall q: Id ensures q in l' <==> IsHalf(t.pages, s, q) {
      assert q in l <==> IsHalf(pool.pages, s, q);
    }
  }

  /** The last chunk goes back and the page with it. */
  lemma DropPage(pool: Pool, p: Id, i: nat)
    requires Inv(pool) && p < |pool.pages| && pool.pages[p].Chunks? && i < |pool.pages[p].used|
    requires !Busy(pool.pages[p].shift, pool.pages[p].used[i := false])
    ensures Inv(FreeChunk(pool, p, i)) && FreeChunk(pool, p, i).pages == Clear(pool.pages, p, 1)
  {
    var s := pool.pages[p].shift;
    var t := FreeChunk(pool, p, i);
    assert Span(pool.pages[p]) == 1;
    ClearOk(pool.pages, p);
    assert !IsRun(pool.pages, p);
    ClearFree(pool.pages, pool.free, p);
    assert HalfAt(pool, s);
    DropHalf(pool, t, p, s);
    OtherHalves(pool, t, p, s);
  }

  lemma FreePagesOk(pool: Pool, p: Id)
    requires Inv(pool) && p < |pool.pages| && (pool.pages[p].Whole? || pool.pages[p].Run?)
    ensures Inv(FreePages(pool.(free := if pool.pages[p].Run? then Without(pool.free, p) else pool.free), p, pool.pages[p].len))
  {
    var n := pool.pages[p].len;
    var free := if pool.pages[p].Run? then Without(pool.free, p) else pool.free;
    var t := FreePages(pool.(free := free), p, n);
    assert p in pool.free <==> IsRun(pool.pages, p);
    if pool.pages[p].Run? { WithoutOk(pool.free, p); }
    ClearOk(pool.pages, p);
    ClearFree(pool.pages, free, p);
    assert PageOk(pool.pages, p);
    HalvesKept(pool, t);
  }

  /** The address is the start of a chunk that holds a page's bitmap. */
  ghost predicate OnBitmap(pool: Pool, a: int) {
    && 0 <= a && a / PAGE < |pool.pages| && pool.pages[a / PAGE].Chunks?
    && var s := pool.pages[a / PAGE].shift; a % PAGE % Size(s) == 0 && a % PAGE / Size(s) < Reserved(s)
  }

  lemma InvWellFormed(pool: Pool)
    requires Inv(pool)
    ensures WellFormed(pool)
  {
    forall p | 0 <= p < |pool.pages| && pool.pages[p].Chunks?
      ensures |pool.pages[p].used| == Blocks(pool.pages[p].shift)
    {
      assert PageOk(pool.pages, p);
    }
  }

  /** Free keeps the pool in order for every address but those of bitmaps. */
  lemma FreeKeeps(pool: Pool, a: int)
    requires Inv(pool) && !PastArray(pool, a) && !OnBitmap(pool, a)
    ensures WellFormed(pool) && Inv(Free(pool, a))
  {
    InvWellFormed(pool);
    if 0 <= a <= pool.area.size && a / PAGE < |pool.pages| {
      var p, off := a / PAGE, a % PAGE;
      match pool.pages[p]
      case Chunks(s, used) =>
        ChunkIndex(s, off);
        var i := off / Size(s);
        if off % Size(s) == 0 && used[i] {
          if Busy(s, used[i := false]) { KeepPage(pool, p, i); } else { DropPage(pool, p, i); }
        }
      case Whole(n) => FreePagesOk(pool, p);
      case Run(n) => FreePagesOk(pool, p);
      case _ =>
    }
  }
}
