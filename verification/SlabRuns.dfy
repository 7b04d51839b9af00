/** What the users of a slab pool can rely on, over every run of allocations and frees. */
module SlabRuns {
  import opened Common
  import opened Lists
  import opened SlabSpec
  import opened SlabProofs

  // ----- the blocks in use

  function Addr(b: Block): nat {
    match b
    case Pages(p, _) => p * PAGE
    case Chunk(p, s, i) => p * PAGE + i * Size(s)
  }

  function Bytes(b: Block): nat {
    match b
    case Pages(_, n) => n * PAGE
    case Chunk(_, s, _) => Size(s)
  }

  ghost predicate Live(pool: Pool, b: Block) {
    && b.page < |pool.pages|
    && match b
       case Pages(p, n) => pool.pages[p] == Whole(n)
       case Chunk(p, s, i) =>
         pool.pages[p].Chunks? && pool.pages[p].shift == s && Reserved(s) <= i < |pool.pages[p].used| && pool.pages[p].used[i]
  }

  /** The end of the bitmap of a page cut into chunks. */
  function BitmapBytes(s: Shift): nat { if s < EXACT then Blocks(s) / 8 else 0 }

  lemma PageOfChunks(s: Shift)
    ensures Blocks(s) * Size(s) == PAGE && Reserved(s) * Size(s) >= BitmapBytes(s)
  {
  }

  lemma ChunkInPage(s: Shift, i: nat)
    requires i < Blocks(s)
    ensures i * Size(s) + Size(s) <= PAGE
    ensures i >= Reserved(s) ==> i * Size(s) >= BitmapBytes(s)
  {
    PageOfChunks(s);
    ChunksApart(s, i, Blocks(s));
    if i > Reserved(s) { ChunksApart(s, Reserved(s), i); }
  }

  lemma ChunksApart(s: Shift, i: nat, j: nat)
    requires i < j
    ensures i * Size(s) + Size(s) <= j * Size(s)
  {
    if s == 3 {} else if s == 4 {} else if s == 5 {} else if s == 6 {} else if s == 7 {}
    else if s == 8 {} else if s == 9 {} else if s == 10 {} else {}
  }

  /** A block lies within the pages it owns, clear of the page's bitmap and aligned to its size. */
  lemma BlockPlace(pool: Pool, b: Block)
    requires Inv(pool) && Live(pool, b)
    ensures b.page * PAGE <= Addr(b) && Addr(b) + Bytes(b) <= (b.page + Span(pool.pages[b.page])) * PAGE
    ensures b.page + Span(pool.pages[b.page]) <= |pool.pages| && IsHead(pool.pages[b.page])
    ensures b.Chunk? ==> Addr(b) >= b.page * PAGE + BitmapBytes(b.shift) && Addr(b) % Bytes(b) == 0
    ensures b.Pages? ==> Addr(b) % PAGE == 0
  {
    assert PageOk(pool.pages, b.page);
    if b.Chunk? {
      ChunkInPage(b.shift, b.i);
      AlignedSum(b.page, b.shift, b.i);
    }
  }

  lemma ModZero(k: nat, m: nat, x: nat)
    requires m > 0 && x == k * m
    ensures x % m == 0
  {
    var q, r := x / m, x % m;
    assert x == q * m + r;
    assert (k - q) * m == r;
    if k > q { Monotone(1, k - q, m); }
    if k < q { Monotone(1, q - k, m); }
  }

  lemma Monotone(a: int, b: int, m: nat)
    requires a <= b
    ensures a * m <= b * m
  {
  }

  lemma Multiple(k: nat, s: Shift)
    ensures k * Size(s) % Size(s) == 0
  {
    ModZero(k, Size(s), k * Size(s));
  }

  lemma AlignedSum(p: nat, s: Shift, i: nat)
    ensures (p * PAGE + i * Size(s)) % Size(s) == 0
  {
    PageOfChunks(s);
    var b, z := Blocks(s), Size(s);
    assert p * PAGE + i * z == (p * b + i) * z by {
      assert p * (b * z) == (p * b) * z;
    }
    Multiple(p * b + i, s);
  }

  /** Blocks in use lie inside the pool and do not overlap. */
  lemma BlocksApart(pool: Pool, b: Block, c: Block)
    requires Inv(pool) && Live(pool, b) && Live(pool, c) && b != c
    ensures Addr(b) + Bytes(b) <= Addr(c) || Addr(c) + Bytes(c) <= Addr(b)
    ensures Addr(b) + Bytes(b) <= |pool.pages| * PAGE
  {
    BlockPlace(pool, b);
    BlockPlace(pool, c);
    if b.page != c.page {
      Apart(pool.pages, b.page, c.page);
    } else if b.Chunk? {
      if b.i < c.i { ChunksApart(b.shift, b.i, c.i); } else { ChunksApart(b.shift, c.i, b.i); }
    }
  }

  // ----- every page has one use

  /** The run, block or chunked page that starts at p owns page q. */
  ghost predicate Owns(pages: seq<Use>, p: Id, q: Id) {
    p < |pages| && IsHead(pages[p]) && p <= q < p + Span(pages[p])
  }

  lemma OneOwner(pool: Pool, q: Id) returns (p: Id)
    requires Inv(pool) && q < |pool.pages|
    ensures Owns(pool.pages, p, q) && forall h: Id :: Owns(pool.pages, h, q) ==> h == p
    ensures pool.pages[p].Run? <==> p in pool.free
    ensures pool.pages[p].Run? <==> pool.pages[q].Run? || pool.pages[q].InRun?
    ensures pool.pages[p].Whole? <==> Live(pool, Pages(p, Span(pool.pages[p])))
  {
    assert PageOk(pool.pages, q);
    p := q;
    if !IsHead(pool.pages[q]) { p :| Spans(pool.pages, p, q); }
    assert PageOk(pool.pages, p);
    assert p in pool.free <==> IsRun(pool.pages, p);
    forall h: Id | Owns(pool.pages, h, q) ensures h == p {
      if h != p { Apart(pool.pages, h, p); }
    }
  }

  /** The pages of the runs, of the blocks, and the chunked ones, from page p on. */
  datatype Tally = Tally(free: nat, whole: nat, chunked: nat)

  ghost function Count(pages: seq<Use>, p: Id): Tally
    requires PagesOk(pages) && p <= |pages|
    decreases |pages| - p
  {
    if p == |pages| then Tally(0, 0, 0)
    else
      assert PageOk(pages, p);
      var r := Count(pages, p + Span(pages[p]));
      if pages[p].Run? then r.(free := r.free + pages[p].len)
      else if pages[p].Whole? then r.(whole := r.whole + pages[p].len)
      else r.(chunked := r.chunked + 1)
  }

  lemma NextHead(pages: seq<Use>, p: Id)
    requires PagesOk(pages) && p < |pages| && IsHead(pages[p])
    ensures p + Span(pages[p]) <= |pages|
    ensures p + Span(pages[p]) < |pages| ==> IsHead(pages[p + Span(pages[p])])
  {
    assert PageOk(pages, p);
    var q := p + Span(pages[p]);
    if q < |pages| && !IsHead(pages[q]) {
      assert PageOk(pages, q);
      var h :| Spans(pages, h, q);
      if h != p { Apart(pages, h, p); }
    }
  }

  /** No page is lost: free runs, blocks and chunked pages add up to the pool. */
  lemma {:induction false} PagesAddUp(pages: seq<Use>, p: Id)
    requires PagesOk(pages) && p <= |pages| && (p < |pages| ==> IsHead(pages[p]))
    ensures var c := Count(pages, p); c.free + c.whole + c.chunked == |pages| - p
    decreases |pages| - p
  {
    if p < |pages| {
      assert PageOk(pages, p);
      NextHead(pages, p);
      PagesAddUp(pages, p + Span(pages[p]));
    }
  }

  // ----- allocation

  lemma TakenLive(pool: Pool, t: Pool, p: Id, n: nat, c: Block)
    requires PagesOk(pool.pages) && Taken(pool.pages, t.pages, p, n)
    ensures Live(t, c) <==> Live(pool, c) || c == Pages(p, n)
    ensures !Live(pool, Pages(p, n))
  {
    assert PageOk(pool.pages, p);
  }

  lemma ChunkLive(pool: Pool, t: Pool, p: Id, s: Shift, i: nat, c: Block)
    requires p < |pool.pages| && pool.pages[p].Chunks? && pool.pages[p].shift == s && MapOk(s, pool.pages[p].used)
    requires i < Blocks(s) && !pool.pages[p].used[i]
    requires t.pages == pool.pages[p := Chunks(s, pool.pages[p].used[i := true])]
    ensures Live(t, c) <==> Live(pool, c) || c == Chunk(p, s, i)
    ensures !Live(pool, Chunk(p, s, i))
  {
  }

  lemma NewLive(pool: Pool, t: Pool, p: Id, s: Shift, c: Block)
    requires IsRun(pool.pages, p) && PagesOk(pool.pages) && t.pages == Carve(pool.pages, p, 1)[p := Chunks(s, FirstChunk(s))]
    ensures Live(t, c) <==> Live(pool, c) || c == Chunk(p, s, Reserved(s))
    ensures !Live(pool, Chunk(p, s, Reserved(s)))
  {
    FirstChunkOk(s);
    assert PageOk(pool.pages, p);
  }

  /** Nothing to serve the request with: no long enough run, or neither a chunk of its size nor
      a free page. */
  ghost predicate Exhausted(pool: Pool, size: nat)
    requires |pool.half| == SLOTS
  {
    if size >= MAX then forall p: Id :: IsRun(pool.pages, p) ==> pool.pages[p].len * PAGE < size
    else (forall p: Id :: !IsHalf(pool.pages, Class(size), p)) && forall p: Id :: !IsRun(pool.pages, p)
  }

  lemma RoundUp(size: nat, len: nat)
    requires size > 0
    ensures (size + PAGE - 1) / PAGE >= 1 && (size + PAGE - 1) / PAGE * PAGE >= size
    ensures len < (size + PAGE - 1) / PAGE <==> len * PAGE < size
  {
  }

  /** The page count is right exactly when the sum does not wrap; otherwise it is zero. */
  lemma PageCountIff(size: SizeT)
    ensures !Wraps(size) <==> PageCount(size) * PAGE >= size
    ensures PageCount(size) == if Wraps(size) then 0 else (size + PAGE - 1) / PAGE
  {
  }

  /** A block of the right kind for a size: the smallest chunk that is large enough, or as few whole
      pages as can be, so less than twice the size, or less than a page more. */
  predicate Suits(b: Block, size: nat) {
    && size <= Bytes(b)
    && (size < MAX ==> b.Chunk? && b.shift == Class(size) && (size > 8 ==> Bytes(b) < 2 * size))
    && (size >= MAX ==> b.Pages? && Bytes(b) < size + PAGE)
  }

  /** Where the block comes from: a page already cut for that size as long as there is one, and the
      other pages stay as they are; else the front of a free run. */
  ghost predicate TakenFrom(pool: Pool, t: Pool, b: Block, size: nat) {
    && |t.pages| == |pool.pages| && b.page < |pool.pages|
    && if size < MAX && exists p :: IsHalf(pool.pages, Class(size), p)
       then IsHalf(pool.pages, Class(size), b.page) && t.pages == pool.pages[b.page := t.pages[b.page]] && t.free == pool.free
       else IsRun(pool.pages, b.page)
  }

  /** A request is served by a new block of the right kind, next to all the old ones; it is
      refused, with the pool unchanged, exactly when there is nothing to serve it with. */
  lemma AllocOk(pool: Pool, size: SizeT)
    requires Inv(pool) && !Wraps(size)
    ensures size < MAX ==> ChunkReady(pool, Class(size))
    ensures var (t, r) := Alloc(pool, size);
            && Inv(t) && |t.pages| == |pool.pages|
            && (r.None? <==> Exhausted(pool, size)) && (r.None? ==> t == pool)
            && (r.Some? ==> !Live(pool, r.value) && Suits(r.value, size) && TakenFrom(pool, t, r.value, size)
                            && forall c :: Live(t, c) <==> Live(pool, c) || c == r.value)
  {
    AllocKeeps(pool, size);
    if size >= MAX {
      AllocWhole(pool, size);
    } else if HalfOf(pool, Class(size)) != [] {
      AllocChunk(pool, size);
    } else {
      AllocNew(pool, size);
    }
  }

  lemma AllocWhole(pool: Pool, size: SizeT)
    requires Inv(pool) && !Wraps(size) && size >= MAX
    ensures var (t, r) := Alloc(pool, size);
            && |t.pages| == |pool.pages|
            && (r.None? <==> Exhausted(pool, size)) && (r.None? ==> t == pool)
            && (r.Some? ==> !Live(pool, r.value) && Suits(r.value, size) && TakenFrom(pool, t, r.value, size)
                            && forall c :: Live(t, c) <==> Live(pool, c) || c == r.value)
  {
    var n := PageCount(size);
    PageCountIff(size);
    RoundUp(size, 0);
    AllocPagesOk(pool, n);
    var (t, p) := AllocPages(pool, n);
    forall q: Id | IsRun(pool.pages, q) ensures pool.pages[q].len < n <==> pool.pages[q].len * PAGE < size {
      RoundUp(size, pool.pages[q].len);
    }
    if p.Some? {
      assert IsRun(pool.pages, p.value);
      forall c ensures Live(t, c) <==> Live(pool, c) || c == Pages(p.value, n) { TakenLive(pool, t, p.value, n, c); }
      TakenLive(pool, t, p.value, n, Pages(p.value, n));
    }
  }

  lemma AllocChunk(pool: Pool, size: SizeT)
    requires Inv(pool) && !Wraps(size) && size < MAX && HalfOf(pool, Class(size)) != []
    ensures ChunkReady(pool, Class(size))
    ensures var (t, r) := Alloc(pool, size);
            && |t.pages| == |pool.pages| && !Exhausted(pool, size)
            && r.Some? && !Live(pool, r.value) && Suits(r.value, size) && TakenFrom(pool, t, r.value, size)
            && forall c :: Live(t, c) <==> Live(pool, c) || c == r.value
  {
    var s := Class(size);
    TakeChunkOk(pool, s);
    var (t, b) := TakeChunk(pool, s);
    assert PageOk(pool.pages, b.page);
    forall c ensures Live(t, c) <==> Live(pool, c) || c == b { ChunkLive(pool, t, b.page, s, b.i, c); }
    ChunkLive(pool, t, b.page, s, b.i, b);
    var q := HalfOf(pool, s)[0];
    assert HalfAt(pool, s) && q in HalfOf(pool, s);
    assert IsHalf(pool.pages, s, q);
    ClassTight(size);
  }

  lemma ClassTight(size: nat)
    requires size < MAX
    ensures size > 8 ==> Size(Class(size)) < 2 * size
  {
  }

  lemma AllocNew(pool: Pool, size: SizeT)
    requires Inv(pool) && !Wraps(size) && size < MAX && HalfOf(pool, Class(size)) == []
    ensures var (t, r) := Alloc(pool, size);
            && |t.pages| == |pool.pages|
            && (r.None? <==> Exhausted(pool, size)) && (r.None? ==> t == pool)
            && (r.Some? ==> !Live(pool, r.value) && Suits(r.value, size) && TakenFrom(pool, t, r.value, size)
                            && forall c :: Live(t, c) <==> Live(pool, c) || c == r.value)
  {
    var s := Class(size);
    NewChunksOk(pool, s);
    var (t, r) := NewChunks(pool, s);
    assert HalfAt(pool, s);
    forall q: Id ensures !IsHalf(pool.pages, s, q) { assert q !in HalfOf(pool, s); }
    if r.Some? {
      var b := r.value;
      forall c ensures Live(t, c) <==> Live(pool, c) || c == b { NewLive(pool, t, b.page, s, c); }
      NewLive(pool, t, b.page, s, b);
      ClassTight(size);
    }
  }

  // ----- giving back

  lemma DivideOff(p: nat, x: nat)
    requires x < PAGE
    ensures (p * PAGE + x) / PAGE == p && (p * PAGE + x) % PAGE == x
  {
  }

  lemma DivideChunk(s: Shift, i: nat)
    ensures i * Size(s) % Size(s) == 0 && i * Size(s) / Size(s) == i
  {
    Multiple(i, s);
    ExactQuotient(i, Size(s), i * Size(s) / Size(s));
  }

  lemma ExactQuotient(k: nat, m: nat, q: nat)
    requires m > 0 && k * m == q * m
    ensures k == q
  {
    if k < q { Monotone(1, q - k, m); }
    if q < k { Monotone(1, k - q, m); }
  }

  /** The address of a block leads back to its page and chunk. */
  lemma AddrFinds(pool: Pool, b: Block)
    requires Inv(pool) && Live(pool, b)
    ensures Addr(b) <= pool.area.size && !PastArray(pool, Addr(b))
    ensures Addr(b) / PAGE == b.page
    ensures b.Pages? ==> Addr(b) % PAGE == 0
    ensures b.Chunk? ==> Addr(b) % PAGE % Size(b.shift) == 0 && Addr(b) % PAGE / Size(b.shift) == b.i
  {
    BlockPlace(pool, b);
    match b
    case Pages(p, _) => DivideOff(p, 0);
    case Chunk(p, s, i) =>
      assert PageOk(pool.pages, p);
      ChunkInPage(s, i);
      DivideOff(p, i * Size(s));
      DivideChunk(s, i);
  }

  lemma ClearLive(pages: seq<Use>, p: Id, q: Id)
    requires PagesOk(pages) && p < |pages| && q < |pages| && IsHead(pages[p]) && q != p
    ensures IsHead(pages[q]) ==> Clear(pages, p, Span(pages[p]))[q] == pages[q]
    ensures !IsHead(pages[q]) ==> Clear(pages, p, Span(pages[p]))[q] == pages[q] || Clear(pages, p, Span(pages[p]))[q] == InRun
  {
    if IsHead(pages[q]) { Apart(pages, p, q); }
  }

  lemma FreeChunkLive(pool: Pool, p: Id, s: Shift, i: nat, c: Block)
    requires Inv(pool) && Live(pool, Chunk(p, s, i))
    ensures Live(FreeChunk(pool, p, i), c) <==> Live(pool, c) && c != Chunk(p, s, i)
  {
    var used := pool.pages[p].used[i := false];
    if !Busy(s, used) {
      DropPage(pool, p, i);
      if c.page < |pool.pages| && c.page != p { ClearLive(pool.pages, p, c.page); }
      if c.page == p && Live(pool, c) { OnlyOne(s, pool.pages[p].used, i, c.i); }
    } else {
      assert FreeChunk(pool, p, i).pages == pool.pages[p := Chunks(s, used)];
    }
  }

  lemma OnlyOne(s: Shift, used: seq<bool>, i: nat, j: nat)
    requires i < |used| && !Busy(s, used[i := false]) && Reserved(s) <= j < |used| && used[j]
    ensures i == j
  {
    assert used[i := false][j] == (i != j);
  }

  lemma FreePagesLive(pool: Pool, t: Pool, p: Id, c: Block)
    requires Inv(pool) && p < |pool.pages| && (pool.pages[p].Run? || pool.pages[p].Whole?)
    requires t.pages == Clear(pool.pages, p, pool.pages[p].len)
    ensures Live(t, c) <==> Live(pool, c) && c.page != p
  {
    assert PageOk(pool.pages, p);
    if c.page < |pool.pages| && c.page != p { ClearLive(pool.pages, p, c.page); }
  }

  /** Free takes exactly the block at that address out of use. */
  lemma FreeBlock(pool: Pool, b: Block)
    requires Inv(pool) && Live(pool, b)
    ensures WellFormed(pool) && !PastArray(pool, Addr(b)) && Inv(Free(pool, Addr(b))) && |Free(pool, Addr(b)).pages| == |pool.pages|
    ensures forall c :: Live(Free(pool, Addr(b)), c) <==> Live(pool, c) && c != b
  {
    AddrFinds(pool, b);
    FreeKeeps(pool, Addr(b));
    var t := Free(pool, Addr(b));
    forall c ensures Live(t, c) <==> Live(pool, c) && c != b {
      match b
      case Pages(p, n) => FreePagesLive(pool, t, p, c);
      case Chunk(p, s, i) => FreeChunkLive(pool, p, s, i, c);
    }
  }

  lemma ExactDivide(m: nat, x: nat)
    requires m > 0 && x % m == 0
    ensures x / m * m == x
  {
  }

  /** A chunk at this address is refused. */
  lemma ChunkRefused(pool: Pool, a: nat)
    requires Inv(pool) && a <= pool.area.size && a / PAGE < |pool.pages| && pool.pages[a / PAGE].Chunks?
    requires !OnBitmap(pool, a) && forall b :: Live(pool, b) ==> Addr(b) != a
    ensures WellFormed(pool) && !PastArray(pool, a) && Free(pool, a) == pool
  {
    InvWellFormed(pool);
    var p, off := a / PAGE, a % PAGE;
    var s := pool.pages[p].shift;
    ChunkIndex(s, off);
    if off % Size(s) == 0 {
      ExactDivide(Size(s), off);
      var b := Chunk(p, s, off / Size(s));
      assert Addr(b) == a;
      assert Live(pool, b) ==> Addr(b) != a;
    }
  }

  /** An address that starts no block in use, nor a bitmap, changes nothing that is in use. */
  lemma FreeElsewhere(pool: Pool, a: int, c: Block)
    requires Inv(pool) && !PastArray(pool, a) && !OnBitmap(pool, a) && forall b :: Live(pool, b) ==> Addr(b) != a
    ensures WellFormed(pool) && Inv(Free(pool, a))
    ensures Live(Free(pool, a), c) <==> Live(pool, c)
  {
    FreeKeeps(pool, a);
    if 0 <= a <= pool.area.size && a / PAGE < |pool.pages| {
      var p, off := a / PAGE, a % PAGE;
      match pool.pages[p]
      case Chunks(_, _) => ChunkRefused(pool, a);
      case Whole(n) => assert Live(pool, Pages(p, n)) ==> Addr(Pages(p, n)) != a;
      case Run(n) => if off == 0 { FreePagesLive(pool, Free(pool, a), p, c); }
      case _ =>
    }
  }

  lemma SameStart(pool: Pool, b: Block, c: Block)
    requires Inv(pool) && Live(pool, b) && Live(pool, c) && Addr(b) == Addr(c)
    ensures b == c
  {
    assert PageOk(pool.pages, b.page) && PageOk(pool.pages, c.page) && Bytes(b) > 0 && Bytes(c) > 0;
    if b != c { BlocksApart(pool, b, c); }
  }

  /** Of the addresses that have a descriptor, only those of a bitmap must not be given back:
      exactly then the pool is left wrong.  Any other takes the block that starts there, if one
      does, and nothing else out of use. */
  lemma FreeKeepsIff(pool: Pool, a: int)
    requires Inv(pool) && !PastArray(pool, a)
    ensures WellFormed(pool) && (Inv(Free(pool, a)) <==> !OnBitmap(pool, a))
    ensures !OnBitmap(pool, a) ==> forall c :: Live(Free(pool, a), c) <==> Live(pool, c) && Addr(c) != a
  {
    FreeBreaks(pool, a);
    if !OnBitmap(pool, a) {
      forall c ensures Live(Free(pool, a), c) <==> Live(pool, c) && Addr(c) != a { FreeTakes(pool, a, c); }
    }
  }

  lemma FreeTakes(pool: Pool, a: int, c: Block)
    requires Inv(pool) && !PastArray(pool, a) && !OnBitmap(pool, a) && WellFormed(pool)
    ensures Live(Free(pool, a), c) <==> Live(pool, c) && Addr(c) != a
  {
    if b :| Live(pool, b) && Addr(b) == a {
      FreeBlock(pool, b);
      if Live(pool, c) && Addr(c) == a { SameStart(pool, b, c); }
    } else {
      FreeElsewhere(pool, a, c);
    }
  }

  lemma FreeBreaks(pool: Pool, a: int)
    requires Inv(pool) && !PastArray(pool, a)
    ensures WellFormed(pool) && (Inv(Free(pool, a)) <==> !OnBitmap(pool, a))
  {
    InvWellFormed(pool);
    if OnBitmap(pool, a) {
      BitmapInside(pool, a);
      var p := a / PAGE;
      var s, used := pool.pages[p].shift, pool.pages[p].used;
      var i := a % PAGE / Size(s);
      assert PageOk(pool.pages, p);
      var j :| Reserved(s) <= j < |used| && used[j];
      var used' := used[i := false];
      assert used'[j] && Busy(s, used') && !used'[i];
      assert Free(pool, a).pages[p] == Chunks(s, used');
      assert !MapOk(s, used');
      assert PagesOk(Free(pool, a).pages) ==> PageOk(Free(pool, a).pages, p);
    } else {
      FreeKeeps(pool, a);
    }
  }

  lemma BitmapInside(pool: Pool, a: int)
    requires AreaOk(pool) && OnBitmap(pool, a)
    ensures a <= pool.area.size
  {
    assert a < (a / PAGE + 1) * PAGE <= pool.area.pages * PAGE;
  }

  /** It does fail: after the first allocation of 8 bytes, giving back address 0 takes a chunk away
      from the bitmap. */
  lemma BitmapCanBeFreed(l: Layout)
    requires l.pages > 0 && Inv(Start(l))
    ensures var s := Start(l);
            && ChunkReady(s, Class(8))
            && var t := Alloc(s, 8).0; Inv(t) && WellFormed(t) && !PastArray(t, 0) && OnBitmap(t, 0) && !Inv(Free(t, 0))
  {
    var s := Start(l);
    AllocOk(s, 8);
    var t := Alloc(s, 8).0;
    assert HalfOf(s, 3) == [] && FirstFit(s.pages, s.free, 1) == Some(0);
    assert t.pages[0] == Chunks(3, FirstChunk(3));
    BitmapFreed(t);
  }

  lemma BitmapFreed(t: Pool)
    requires Inv(t) && t.pages != [] && t.pages[0] == Chunks(3, FirstChunk(3))
    ensures WellFormed(t) && !PastArray(t, 0) && OnBitmap(t, 0) && !Inv(Free(t, 0))
  {
    assert Reserved(3) == 8;
    FreeKeepsIff(t, 0);
  }

  // ----- where the pages are

  lemma AlignUpOk(x: nat)
    ensures x <= AlignUp(x) < x + PAGE && AlignUp(x) % PAGE == 0
  {
    var q := (x + PAGE - 1) / PAGE;
    assert q * PAGE % PAGE == 0;
  }

  /** There is a descriptor for every page that could fit.  The pages start on the first page boundary
      behind the descriptors, are as many as fit, and end in front of the end of the memory exactly
      when they start there.  So they do when there is room for one page and the
      alignment. */
  lemma InitOk(p: nat, end: nat)
    requires p <= end
    ensures var l := Init(p, end);
            && l.start % PAGE == 0 && p + SLOTS * DESCRIPTOR + l.descriptors * DESCRIPTOR <= l.start
            && l.pages <= l.descriptors && l.size == end - l.start
            && l.start < p + SLOTS * DESCRIPTOR + l.descriptors * DESCRIPTOR + PAGE
            && l.descriptors * (PAGE + DESCRIPTOR) <= end - p < (l.descriptors + 1) * (PAGE + DESCRIPTOR)
            && (l.pages == l.descriptors || (l.start <= end && end < l.start + (l.pages + 1) * PAGE))
            && (l.start + l.pages * PAGE <= end <==> l.start <= end)
            && (end - p >= PAGE + (SLOTS + 1) * DESCRIPTOR - 1 ==> l.start <= end)
  {
    var d := (end - p) / (PAGE + DESCRIPTOR);
    AlignUpOk(p + SLOTS * DESCRIPTOR + d * DESCRIPTOR);
    assert d * (PAGE + DESCRIPTOR) <= end - p < (d + 1) * (PAGE + DESCRIPTOR);
  }

  /** An address can pass the test and have no descriptor exactly when no page was dropped and some
      are in front of the end. */
  lemma PastArrayIff(pool: Pool)
    ensures (exists a :: PastArray(pool, a)) <==> pool.area.descriptors * PAGE <= pool.area.size
  {
    var a := pool.area.descriptors * PAGE;
    if a <= pool.area.size {
      assert a / PAGE == pool.area.descriptors;
      assert PastArray(pool, a);
    }
  }

  /** It does happen: one page, ending where the memory ends, and the address of that end. */
  lemma EndHasNoDescriptor()
    ensures var l := Init(3640, 8192);
            l.pages == 1 && Inv(Start(l)) && PastArray(Start(l), l.size) && l.start + l.size == 8192
  {
    var l := Init(3640, 8192);
    assert l == Layout(4096, 1, 1, 4096);
    StartOk(l);
  }

  // ----- runs

  datatype Op = AllocOp(size: SizeT) | FreeOp(block: Block)

  /** The pool and what its users hold, with the size each asked for. */
  datatype World = World(pool: Pool, held: map<Block, nat>)

  /** A memory in which ngx_slab_init finds room for at least one page. */
  predicate HasRoom(p: nat, end: nat) {
    p <= end && Init(p, end).start <= end && Init(p, end).pages > 0
  }

  ghost function Begin(p: nat, end: nat): (w: World)
    requires HasRoom(p, end)
    ensures WorldInv(w) && w.pool.area == Init(p, end)
  {
    InitOk(p, end);
    StartOk(Init(p, end));
    World(Start(Init(p, end)), map[])
  }

  ghost predicate WorldInv(w: World) {
    && Inv(w.pool)
    && (forall b :: b in w.held <==> Live(w.pool, b))
    && forall b :: b in w.held ==> Suits(b, w.held[b])
  }

  /** A user gives back only what it holds, and asks for no size that wraps. */
  ghost predicate Allowed(w: World, op: Op) {
    match op
    case AllocOp(size) => !Wraps(size)
    case FreeOp(b) => b in w.held
  }

  function Step(w: World, op: Op): World
    requires WorldInv(w) && Allowed(w, op)
  {
    match op
    case AllocOp(size) =>
      AllocOk(w.pool, size);
      var (t, r) := Alloc(w.pool, size);
      World(t, if r.Some? then w.held[r.value := size] else w.held)
    case FreeOp(b) =>
      InvWellFormed(w.pool);
      AddrFinds(w.pool, b);
      World(Free(w.pool, Addr(b)), w.held - {b})
  }

  lemma StepKeepsInv(w: World, op: Op)
    requires WorldInv(w) && Allowed(w, op)
    ensures WorldInv(Step(w, op)) && Step(w, op).pool.area == w.pool.area
  {
    match op
    case AllocOp(size) => AllocOk(w.pool, size);
    case FreeOp(b) => FreeBlock(w.pool, b);
  }

  ghost predicate Legal(w: World, ops: seq<Op>)
    requires WorldInv(w)
    decreases |ops|
  {
    ops != [] ==> Allowed(w, ops[0]) && (StepKeepsInv(w, ops[0]); Legal(Step(w, ops[0]), ops[1..]))
  }

  ghost function Run(w: World, ops: seq<Op>): World
    requires WorldInv(w) && Legal(w, ops)
    decreases |ops|
  {
    if ops == [] then w else (StepKeepsInv(w, ops[0]); Run(Step(w, ops[0]), ops[1..]))
  }

  lemma {:induction false} RunKeepsInv(w: World, ops: seq<Op>)
    requires WorldInv(w) && Legal(w, ops)
    ensures WorldInv(Run(w, ops)) && Run(w, ops).pool.area == w.pool.area
    decreases |ops|
  {
    if ops != [] {
      StepKeepsInv(w, ops[0]);
      RunKeepsInv(Step(w, ops[0]), ops[1..]);
    }
  }

  lemma StartOk(l: Layout)
    requires 0 < l.pages <= l.descriptors && l.pages * PAGE <= l.size
    ensures Inv(Start(l)) && forall b :: !Live(Start(l), b)
  {
    var pool := Start(l);
    forall p: nat | p < l.pages ensures PageOk(pool.pages, p) {
      if p > 0 { assert Spans(pool.pages, 0, p); }
    }
    forall s: Shift ensures HalfAt(pool, s) {}
    assert Inv(pool);
  }

  /** After every run, what users hold is inside the memory, apart from each other, aligned, off
      the bitmaps, and of the kind that suits the size asked for; every page has exactly one use and none is lost. */
  lemma RunIsSafe(p: nat, end: nat, ops: seq<Op>)
    requires HasRoom(p, end) && Legal(Begin(p, end), ops)
    ensures var l := Init(p, end); var w := Run(Begin(p, end), ops);
            && Inv(w.pool) && |w.pool.pages| == l.pages
            && (forall b :: b in w.held ==> Safe(w, b) && p < l.start + Addr(b) && l.start + Addr(b) + Bytes(b) <= end)
            && (forall b, c :: b in w.held && c in w.held && b != c ==> Disjoint(b, c))
            && (var t := Count(w.pool.pages, 0); t.free + t.whole + t.chunked == l.pages)
  {
    var l := Init(p, end);
    InitOk(p, end);
    RunKeepsInv(Begin(p, end), ops);
    var w := Run(Begin(p, end), ops);
    forall b | b in w.held ensures Safe(w, b) { BlockPlace(w.pool, b); }
    forall b, c | b in w.held && c in w.held && b != c ensures Disjoint(b, c) { BlocksApart(w.pool, b, c); }
    FirstIsHead(w.pool.pages);
    PagesAddUp(w.pool.pages, 0);
  }

  ghost predicate Safe(w: World, b: Block)
    requires b in w.held
  {
    && Suits(b, w.held[b]) && Addr(b) + Bytes(b) <= |w.pool.pages| * PAGE
    && (b.Pages? ==> Addr(b) % PAGE == 0)
    && (b.Chunk? ==> Addr(b) % Bytes(b) == 0 && Addr(b) >= b.page * PAGE + BitmapBytes(b.shift))
  }

  ghost predicate Disjoint(b: Block, c: Block) {
    Addr(b) + Bytes(b) <= Addr(c) || Addr(c) + Bytes(c) <= Addr(b)
  }

  lemma FirstIsHead(pages: seq<Use>)
    requires PagesOk(pages) && |pages| > 0
    ensures IsHead(pages[0])
  {
    assert PageOk(pages, 0);
  }

  /** A page that is not free holds a block in use. */
  lemma HoldsBlock(pool: Pool, p: Id)
    requires Inv(pool) && p < |pool.pages| && IsHead(pool.pages[p])
    ensures pool.pages[p].Run? || exists b :: Live(pool, b)
  {
    assert PageOk(pool.pages, p);
    match pool.pages[p]
    case Run(_) =>
    case Whole(n) => assert Live(pool, Pages(p, n));
    case Chunks(s, used) =>
      var i :| Reserved(s) <= i < |used| && used[i];
      assert Live(pool, Chunk(p, s, i));
  }

  /** With everything given back, every page is in a free run again. */
  lemma NothingLeaks(w: World, q: Id)
    requires WorldInv(w) && w.held == map[] && q < |w.pool.pages|
    ensures exists p :: p in w.pool.free && Owns(w.pool.pages, p, q)
  {
    var p := OneOwner(w.pool, q);
    HoldsBlock(w.pool, p);
  }
}
