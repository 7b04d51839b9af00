/** How many requests of one size a slab pool can serve. */
module SlabRoom {
  import opened Common
  import opened Lists
  import opened SlabSpec
  import opened SlabProofs
  import opened SlabRuns

  /** The chunks of a page that can be handed out: as many as fit beside the bitmap. */
  function PerPage(s: Shift): (n: nat)
    ensures n > 0 && n * Size(s) <= PAGE - BitmapBytes(s) < (n + 1) * Size(s)
  {
    BesideBitmap(s);
    Blocks(s) - Reserved(s)
  }

  lemma BesideBitmap(s: Shift)
    ensures var n := Blocks(s) - Reserved(s); n > 0 && n * Size(s) <= PAGE - BitmapBytes(s) < (n + 1) * Size(s)
  {
    if s == 3 {} else if s == 4 {} else if s == 5 {} else if s == 6 {} else if s == 7 {}
    else if s == 8 {} else if s == 9 {} else if s == 10 {} else {}
  }

  /** The chunks of a page that are not in use. */
  function Frees(used: seq<bool>): nat {
    if used == [] then 0 else Frees(used[..|used| - 1]) + (if used[|used| - 1] then 0 else 1)
  }

  /** What the run, block or page that starts here still has for chunks of this size. */
  function RoomAt(u: Use, s: Shift): nat {
    match u
    case Run(n) => n * PerPage(s)
    case Chunks(z, used) => if z == s then Frees(used) else 0
    case _ => 0
  }

  function RoomIn(pages: seq<Use>, s: Shift): nat {
    if pages == [] then 0 else RoomIn(pages[..|pages| - 1], s) + RoomAt(pages[|pages| - 1], s)
  }

  /** The chunks of this size the pool has left. */
  function Room(pool: Pool, s: Shift): nat {
    RoomIn(pool.pages, s)
  }

  // ----- sums

  lemma {:induction false} FreesUpdate(used: seq<bool>, i: nat, b: bool)
    requires i < |used|
    ensures Frees(used[i := b]) == Frees(used) + (if used[i] then 1 else 0) - (if b then 1 else 0)
  {
    var n := |used| - 1;
    if i == n {
      assert used[i := b][..n] == used[..n];
    } else {
      assert used[i := b][..n] == used[..n][i := b];
      FreesUpdate(used[..n], i, b);
    }
  }

  lemma {:induction false} RoomUpdate(pages: seq<Use>, p: Id, u: Use, s: Shift)
    requires p < |pages|
    ensures RoomIn(pages[p := u], s) == RoomIn(pages, s) - RoomAt(pages[p], s) + RoomAt(u, s)
  {
    var n := |pages| - 1;
    if p == n {
      assert pages[p := u][..n] == pages[..n];
    } else {
      assert pages[p := u][..n] == pages[..n][p := u];
      RoomUpdate(pages[..n], p, u, s);
    }
  }

  /** A page of which the first k chunks, and no others, are in use. */
  lemma {:induction false} FreesBehind(used: seq<bool>, k: nat)
    requires k <= |used| && forall i :: 0 <= i < |used| ==> (used[i] <==> i < k)
    ensures Frees(used) == |used| - k
  {
    if used != [] {
      var n := |used| - 1;
      FreesBehind(used[..n], if k <= n then k else n);
    }
  }

  lemma {:induction false} FreesNone(used: seq<bool>)
    requires Full(used)
    ensures Frees(used) == 0
  {
    FreesBehind(used, |used|);
  }

  lemma {:induction false} RoomNone(pages: seq<Use>, s: Shift)
    requires forall p: nat :: p < |pages| ==> RoomAt(pages[p], s) == 0
    ensures RoomIn(pages, s) == 0
  {
    if pages != [] { RoomNone(pages[..|pages| - 1], s); }
  }

  // ----- one request

  lemma FirstChunkFrees(s: Shift)
    ensures Frees(FirstChunk(s)) == PerPage(s) - 1
  {
    FirstChunkOk(s);
    FreesBehind(FirstChunk(s), Reserved(s) + 1);
  }

  lemma TimesLess(n: nat, k: nat)
    requires n > 0
    ensures n * k == (n - 1) * k + k
  {
  }

  /** Cutting a page off a run turns its chunks into chunks of that page. */
  lemma NewPageRoom(pages: seq<Use>, p: Id, s: Shift)
    requires PagesOk(pages) && IsRun(pages, p)
    ensures RoomIn(Carve(pages, p, 1)[p := Chunks(s, FirstChunk(s))], s) == RoomIn(pages, s) - 1
  {
    assert PageOk(pages, p);
    var u, n := Chunks(s, FirstChunk(s)), pages[p].len;
    FirstChunkFrees(s);
    RoomUpdate(pages, p, u, s);
    TimesLess(n, PerPage(s));
    if n > 1 {
      RoomUpdate(pages[p := u], p + 1, Run(n - 1), s);
      assert Carve(pages, p, 1)[p := u] == pages[p := u][p + 1 := Run(n - 1)];
    } else {
      assert Carve(pages, p, 1)[p := u] == pages[p := u];
    }
  }

  lemma ExhaustedRoom(pool: Pool, size: nat)
    requires Inv(pool) && size < MAX && Exhausted(pool, size)
    ensures Room(pool, Class(size)) == 0
  {
    var s := Class(size);
    forall p: nat | p < |pool.pages| ensures RoomAt(pool.pages[p], s) == 0 {
      assert !IsRun(pool.pages, p) && !IsHalf(pool.pages, s, p);
      if pool.pages[p].Chunks? && pool.pages[p].shift == s { FreesNone(pool.pages[p].used); }
    }
    RoomNone(pool.pages, s);
  }

  /** A request takes one chunk of what is left, and is refused exactly when nothing is. */
  lemma AllocTakesRoom(pool: Pool, size: SizeT)
    requires Inv(pool) && size < MAX
    ensures ChunkReady(pool, Class(size)) && Inv(Alloc(pool, size).0)
    ensures var (t, r) := Alloc(pool, size); var n := Room(pool, Class(size));
            (r.Some? <==> n > 0) && Room(t, Class(size)) == if r.Some? then n - 1 else n
  {
    AllocOk(pool, size);
    var s := Class(size);
    var (t, r) := Alloc(pool, size);
    if r.None? {
      ExhaustedRoom(pool, size);
    } else if HalfOf(pool, s) != [] {
      TakeChunkOk(pool, s);
      var b := r.value;
      var used := pool.pages[b.page].used;
      assert PageOk(pool.pages, b.page);
      FreesUpdate(used, b.i, true);
      RoomUpdate(pool.pages, b.page, Chunks(s, used[b.i := true]), s);
    } else {
      NewChunksOk(pool, s);
      NewPageRoom(pool.pages, r.value.page, s);
    }
  }

  /** A chunk given back is one more of its size, also when its page goes back with it. */
  lemma FreeGivesRoom(pool: Pool, b: Block)
    requires Inv(pool) && Live(pool, b) && b.Chunk?
    ensures WellFormed(pool) && !PastArray(pool, Addr(b))
    ensures Room(Free(pool, Addr(b)), b.shift) == Room(pool, b.shift) + 1
  {
    FreeBlock(pool, b);
    AddrFinds(pool, b);
    var s, used := b.shift, pool.pages[b.page].used;
    var used' := used[b.i := false];
    assert PageOk(pool.pages, b.page);
    FreesUpdate(used, b.i, false);
    if Busy(s, used') {
      RoomUpdate(pool.pages, b.page, Chunks(s, used'), s);
    } else {
      DropPage(pool, b.page, b.i);
      FreesBehind(used', Reserved(s));
      RoomUpdate(pool.pages, b.page, Run(1), s);
      assert Clear(pool.pages, b.page, 1) == pool.pages[b.page := Run(1)];
    }
  }

  // ----- many requests

  /** How many of these requests, one after the other, are served. */
  ghost function ServedOf(pool: Pool, sizes: seq<SizeT>): nat
    requires Inv(pool) && forall i :: 0 <= i < |sizes| ==> sizes[i] < MAX
    decreases |sizes|
  {
    if sizes == [] then 0
    else
      AllocTakesRoom(pool, sizes[0]);
      var (t, r) := Alloc(pool, sizes[0]);
      (if r.Some? then 1 else 0) + ServedOf(t, sizes[1..])
  }

  /** Requests of one class are served as long as there is room for chunks of that class. */
  lemma {:induction false} ServesItsRoom(pool: Pool, s: Shift, sizes: seq<SizeT>)
    requires Inv(pool) && forall i :: 0 <= i < |sizes| ==> sizes[i] < MAX && Class(sizes[i]) == s
    ensures ServedOf(pool, sizes) == if |sizes| <= Room(pool, s) then |sizes| else Room(pool, s)
    decreases |sizes|
  {
    if sizes != [] {
      AllocTakesRoom(pool, sizes[0]);
      ServesItsRoom(Alloc(pool, sizes[0]).0, s, sizes[1..]);
    }
  }

  lemma {:induction false} RoomOfRun(pages: seq<Use>, n: nat, s: Shift)
    requires pages != [] && pages[0] == Run(n) && forall p :: 0 < p < |pages| ==> pages[p] == InRun
    ensures RoomIn(pages, s) == n * PerPage(s)
  {
    if |pages| == 1 {
      assert pages[..0] == [];
    } else {
      RoomOfRun(pages[..|pages| - 1], n, s);
    }
  }

  /** Right after ngx_slab_init a pool serves exactly as many requests of one class as its pages
      have chunks. */
  lemma FreshPoolServes(p: nat, end: nat, s: Shift, sizes: seq<SizeT>)
    requires HasRoom(p, end) && forall i :: 0 <= i < |sizes| ==> sizes[i] < MAX && Class(sizes[i]) == s
    ensures var n := Init(p, end).pages * PerPage(s);
            ServedOf(Begin(p, end).pool, sizes) == if |sizes| <= n then |sizes| else n
  {
    RoomOfRun(Begin(p, end).pool.pages, Init(p, end).pages, s);
    ServesItsRoom(Begin(p, end).pool, s, sizes);
  }

  /** A block of pages given back is what the next request for as many pages gets. */
  lemma FreedIsReused(pool: Pool, b: Block, size: SizeT)
    requires Inv(pool) && Live(pool, b) && b.Pages? && size >= MAX && !Wraps(size) && PageCount(size) == b.len
    ensures WellFormed(pool) && !PastArray(pool, Addr(b)) && Alloc(Free(pool, Addr(b)), size).1 == Some(b)
  {
    FreeBlock(pool, b);
    AddrFinds(pool, b);
    var t := Free(pool, Addr(b));
    assert t.free[0] == b.page && t.pages[b.page] == Run(b.len);
  }

  /** A chunk given back to a full page is the next one of its size to be handed out. */
  lemma FreedChunkIsReused(pool: Pool, b: Block, size: SizeT)
    requires Inv(pool) && Live(pool, b) && b.Chunk? && Full(pool.pages[b.page].used) && size < MAX && Class(size) == b.shift
    ensures WellFormed(pool) && !PastArray(pool, Addr(b)) && Inv(Free(pool, Addr(b))) && ChunkReady(Free(pool, Addr(b)), b.shift)
    ensures Alloc(Free(pool, Addr(b)), size).1 == Some(b)
  {
    FreeBlock(pool, b);
    AddrFinds(pool, b);
    var s, used, t := b.shift, pool.pages[b.page].used, Free(pool, Addr(b));
    AllocKeeps(t, size);
    assert PageOk(pool.pages, b.page);
    var used' := used[b.i := false];
    assert Busy(s, used') by {
      FirstChunkOk(s);
      assert used'[if b.i == Reserved(s) then Reserved(s) + 1 else Reserved(s)];
    }
    assert t.pages[b.page] == Chunks(s, used') && HalfOf(t, s)[0] == b.page;
    assert FirstFree(used') == b.i;
  }

  /** Taking pages off one run leaves the others in their places: what an earlier run can serve is
      still served by it. */
  lemma EarlierRunsFirst(pool: Pool, n: nat, m: nat)
    requires Inv(pool) && n >= 1
    requires var i, j := FirstFit(pool.pages, pool.free, n), FirstFit(pool.pages, pool.free, m);
             i.Some? && j.Some? && j.value < i.value
    ensures AllocPages(AllocPages(pool, n).0, m).1 == AllocPages(pool, m).1
  {
    var i, j := FirstFit(pool.pages, pool.free, n).value, FirstFit(pool.pages, pool.free, m).value;
    var pages, free := Carve(pool.pages, pool.free[i], n), CarveList(pool.pages, pool.free, i, n);
    assert free[..i] == pool.free[..i];
    forall x | 0 <= x <= j ensures free[x] == pool.free[x] && Fits(pages, free[x], m) == Fits(pool.pages, free[x], m) {
      assert free[x] == free[..i][x];
      CarveElsewhere(pool, i, n, x);
    }
    SameFirst(pool.pages, pool.free, pages, free, m, j);
  }

  predicate Fits(pages: seq<Use>, p: Id, n: nat) { p < |pages| && pages[p].Run? && pages[p].len >= n }

  lemma CarveElsewhere(pool: Pool, i: nat, n: nat, x: nat)
    requires Inv(pool) && x < i < |pool.free| && IsRun(pool.pages, pool.free[i]) && 1 <= n <= pool.pages[pool.free[i]].len
    ensures pool.free[x] < |pool.pages| && Carve(pool.pages, pool.free[i], n)[pool.free[x]] == pool.pages[pool.free[x]]
  {
    assert pool.free[x] in pool.free && IsRun(pool.pages, pool.free[x]);
    Apart(pool.pages, pool.free[i], pool.free[x]);
    assert PageOk(pool.pages, pool.free[i]);
  }

  lemma SameFirst(pages: seq<Use>, free: seq<Id>, pages': seq<Use>, free': seq<Id>, m: nat, j: nat)
    requires FirstFit(pages, free, m) == Some(j) && j < |free'|
    requires forall x :: 0 <= x <= j ==> free'[x] == free[x] && Fits(pages', free'[x], m) == Fits(pages, free'[x], m)
    ensures FirstFit(pages', free', m) == Some(j)
  {
    assert Fits(pages', free'[j], m);
    assert forall x :: 0 <= x < j ==> !Fits(pages', free'[x], m);
  }
}
