/** A pool of pages that hands out whole pages and equal chunks of pages: what each operation
    does, on values.

    Pages have 4096 bytes, machine words 64 bits, and the smallest chunk is 8 bytes (min_shift
    3).  Addresses are counted from the start of the first page. */
module SlabSpec {
  import opened Common
  import opened Lists               // an Id is a page number

  const PAGE: nat := 4096          // ngx_pagesize
  const MAX: nat := 2048           // ngx_slab_max_size
  const EXACT: Shift := 6          // ngx_slab_exact_shift
  const SLOTS: nat := 9            // ngx_pagesize_shift - min_shift
  const DESCRIPTOR: nat := 24      // sizeof(ngx_slab_page_t)

  type Shift = s: nat | 3 <= s <= 11 witness 3

  /** The size of a chunk, 1 << shift. */
  function Size(s: Shift): nat {
    if s == 3 then 8 else if s == 4 then 16 else if s == 5 then 32 else if s == 6 then 64
    else if s == 7 then 128 else if s == 8 then 256 else if s == 9 then 512 else if s == 10 then 1024 else 2048
  }

  /** How many chunks a page has. */
  function Blocks(s: Shift): nat { PAGE / Size(s) }

  /** How many of them hold the bitmap, when it does not fit a word. */
  function Reserved(s: Shift): nat {
    if s >= EXACT then 0 else if Blocks(s) / 8 / Size(s) == 0 then 1 else Blocks(s) / 8 / Size(s)
  }

  /** What a page is used for. */
  datatype Use =
    | Run(len: nat)                           // the first page of a run of free pages
    | InRun
    | Whole(len: nat)                         // the first page of a block of whole pages
    | InWhole
    | Chunks(shift: Shift, used: seq<bool>)   // a page cut into chunks

  /** Where ngx_slab_init puts things: the address of the first page, how many pages there are,
      how many descriptors, and how many bytes lie between the first page and the end. */
  datatype Layout = Layout(start: nat, pages: nat, descriptors: nat, size: int)

  datatype Pool = Pool(
    area: Layout,
    pages: seq<Use>,
    free: seq<Id>,                 // the free runs
    half: seq<seq<Id>>)            // per size, the pages that still have a free chunk

  datatype Block = Pages(page: Id, len: nat) | Chunk(page: Id, shift: Shift, i: nat)

  function AlignUp(x: nat): nat { (x + PAGE - 1) / PAGE * PAGE }

  /** From the end of the pool structure at p to `end`: the lists, then a descriptor for every page
      there would be room for, then the pages, of which those that do not fit are dropped. */
  function Init(p: nat, end: nat): Layout
    requires p <= end
  {
    var descriptors := (end - p) / (PAGE + DESCRIPTOR);
    var start := AlignUp(p + SLOTS * DESCRIPTOR + descriptors * DESCRIPTOR);
    var fit := if start <= end then (end - start) / PAGE else descriptors;
    Layout(start, if fit < descriptors then fit else descriptors, descriptors, end - start)
  }

  /** The pool after ngx_slab_init: one free run. */
  function Start(l: Layout): Pool
    requires l.pages > 0
  {
    Pool(l, seq(l.pages, i => if i == 0 then Run(l.pages) else InRun), [0], seq(SLOTS, _ => []))
  }

  // ----- whole pages

  /** The first run in the list that is long enough. */
  function FirstFit(pages: seq<Use>, free: seq<Id>, n: nat): (r: Option<nat>)
    ensures r.Some? ==> r.value < |free| && free[r.value] < |pages|
                        && pages[free[r.value]].Run? && pages[free[r.value]].len >= n
    ensures forall j :: 0 <= j < (if r.Some? then r.value else |free|) ==>
              !(free[j] < |pages| && pages[free[j]].Run? && pages[free[j]].len >= n)
  {
    if free == [] then None
    else if free[0] < |pages| && pages[free[0]].Run? && pages[free[0]].len >= n then Some(0)
    else
      match FirstFit(pages, free[1..], n)
      case None => None
      case Some(i) => Some(i + 1)
  }

  /** The first n pages of the run at p become a block; what is left stays a run. */
  function Carve(pages: seq<Use>, p: Id, n: nat): (r: seq<Use>)
    requires p < |pages| && pages[p].Run?
    ensures |r| == |pages|
  {
    seq(|pages|, q requires 0 <= q < |pages| =>
      if q == p then Whole(n)
      else if p < q < p + n then InWhole
      else if q == p + n && pages[p].len > n then Run(pages[p].len - n)
      else pages[q])
  }

  /** The first n pages of the i-th run become a block. */
  function TakeRun(pool: Pool, i: nat, n: nat): Pool
    requires i < |pool.free| && pool.free[i] < |pool.pages| && pool.pages[pool.free[i]].Run?
  {
    var p := pool.free[i];
    pool.(pages := Carve(pool.pages, p, n), free := CarveList(pool.pages, pool.free, i, n))
  }

  /** The rest of the run takes the place of the run in the list. */
  function CarveList(pages: seq<Use>, free: seq<Id>, i: nat, n: nat): seq<Id>
    requires i < |free| && free[i] < |pages| && pages[free[i]].Run?
  {
    if pages[free[i]].len > n then Swap(free, i, free[i] + n) else Drop(free, i)
  }

  function AllocPages(pool: Pool, n: nat): (r: (Pool, Option<Id>))
    ensures |r.0.pages| == |pool.pages| && r.0.half == pool.half && (r.1.Some? ==> r.1.value < |pool.pages|)
  {
    match FirstFit(pool.pages, pool.free, n)
    case None => (pool, None)
    case Some(i) => (TakeRun(pool, i, n), Some(pool.free[i]))
  }

  function Clear(pages: seq<Use>, p: Id, n: nat): (r: seq<Use>)
    ensures |r| == |pages|
  {
    seq(|pages|, q requires 0 <= q < |pages| =>
      if q == p then Run(n) else if p < q < p + n then InRun else pages[q])
  }

  function FreePages(pool: Pool, p: Id, n: nat): Pool {
    pool.(pages := Clear(pool.pages, p, n), free := [p] + pool.free)
  }

  // ----- chunks

  /** The smallest chunk that is large enough. */
  function Class(size: nat): (s: Shift)
    requires size < MAX
    ensures size <= Size(s) && (s > 3 ==> Size(s - 1) < size)
  {
    if size <= 8 then 3 else if size <= 16 then 4 else if size <= 32 then 5 else if size <= 64 then 6
    else if size <= 128 then 7 else if size <= 256 then 8 else if size <= 512 then 9 else if size <= 1024 then 10 else 11
  }

  predicate Full(used: seq<bool>) { forall i :: 0 <= i < |used| ==> used[i] }

  function FirstFree(used: seq<bool>): (i: nat)
    ensures i <= |used| && (forall j :: 0 <= j < i ==> used[j]) && (i < |used| ==> !used[i])
  {
    if used == [] || !used[0] then 0 else 1 + FirstFree(used[1..])
  }

  /** The map of a page of which only the first chunk is handed out. */
  function FirstChunk(s: Shift): (used: seq<bool>)
    ensures |used| == Blocks(s)
  {
    seq(Blocks(s), i => i <= Reserved(s))
  }

  function SetHalf(pool: Pool, s: Shift, l: seq<Id>): Pool
    requires |pool.half| == SLOTS
  {
    pool.(half := pool.half[s - 3 := l])
  }

  function HalfOf(pool: Pool, s: Shift): seq<Id>
    requires |pool.half| == SLOTS
  {
    pool.half[s - 3]
  }

  /** The next chunk of the first page that has one. */
  function TakeChunk(pool: Pool, s: Shift): (Pool, Block)
    requires |pool.half| == SLOTS && HalfOf(pool, s) != []
    requires var p := HalfOf(pool, s)[0]; p < |pool.pages| && pool.pages[p].Chunks? && !Full(pool.pages[p].used)
  {
    var p := HalfOf(pool, s)[0];
    var used := pool.pages[p].used;
    var i := FirstFree(used);
    var used' := used[i := true];
    var t := pool.(pages := pool.pages[p := pool.pages[p].(used := used')]);
    (if Full(used') then SetHalf(t, s, HalfOf(t, s)[1..]) else t, Chunk(p, s, i))
  }

  /** A fresh page for chunks of this size. */
  function NewChunks(pool: Pool, s: Shift): (Pool, Option<Block>)
    requires |pool.half| == SLOTS
  {
    var (t, r) := AllocPages(pool, 1);
    match r
    case None => (t, None)
    case Some(p) =>
      (SetHalf(t.(pages := t.pages[p := Chunks(s, FirstChunk(s))]), s, [p]), Some(Chunk(p, s, Reserved(s))))
  }

  ghost predicate ChunkReady(pool: Pool, s: Shift) {
    && |pool.half| == SLOTS
    && (HalfOf(pool, s) != [] ==>
          var p := HalfOf(pool, s)[0]; p < |pool.pages| && pool.pages[p].Chunks? && !Full(pool.pages[p].used))
  }

  const SIZE_LIMIT: nat := 0x1_0000_0000_0000_0000

  type SizeT = n: nat | n < SIZE_LIMIT

  /** The pages a size asks for; the sum wraps around. */
  function PageCount(size: SizeT): nat {
    (size + PAGE - 1) % SIZE_LIMIT / PAGE
  }

  /** Within a page of the largest size no page is asked for, and the loop over the descriptors of the
      block would count down from zero: nothing is said about the pool then. */
  predicate Wraps(size: SizeT) {
    size + PAGE - 1 >= SIZE_LIMIT
  }

  function Alloc(pool: Pool, size: SizeT): (Pool, Option<Block>)
    requires !Wraps(size) && (size < MAX ==> ChunkReady(pool, Class(size)))
  {
    if size >= MAX then
      var n := PageCount(size);
      var (t, r) := AllocPages(pool, n);
      (t, if r.Some? then Some(Pages(r.value, n)) else None)
    else if HalfOf(pool, Class(size)) != [] then
      var (t, b) := TakeChunk(pool, Class(size)); (t, Some(b))
    else NewChunks(pool, Class(size))
  }

  // ----- giving back

  /** Some chunk is handed out. */
  predicate Busy(s: Shift, used: seq<bool>) {
    exists i :: Reserved(s) <= i < |used| && used[i]
  }

  function FreeChunk(pool: Pool, p: Id, i: nat): Pool
    requires |pool.half| == SLOTS && p < |pool.pages| && pool.pages[p].Chunks? && i < |pool.pages[p].used|
  {
    var s, used := pool.pages[p].shift, pool.pages[p].used;
    var u := if Full(used) then SetHalf(pool, s, [p] + HalfOf(pool, s)) else pool;
    var used' := used[i := false];
    if Busy(s, used') then u.(pages := u.pages[p := Chunks(s, used')])
    else FreePages(SetHalf(u, s, Without(HalfOf(u, s), p)), p, 1)
  }

  lemma ChunkIndex(s: Shift, off: nat)
    requires off < PAGE
    ensures off / Size(s) < Blocks(s)
  {
  }

  ghost predicate WellFormed(pool: Pool) {
    && |pool.half| == SLOTS
    && forall p :: 0 <= p < |pool.pages| && pool.pages[p].Chunks? ==> |pool.pages[p].used| == Blocks(pool.pages[p].shift)
  }

  /** The test against both ends lets the address pass, and its page has no descriptor. */
  predicate PastArray(pool: Pool, a: int) {
    0 <= a <= pool.area.size && a / PAGE >= pool.area.descriptors
  }

  /** Free takes any address for which there is a descriptor to look at.  One inside a block, or of a
      chunk already free, is refused; so is one in a page that was dropped, whose descriptor is zero. */
  function Free(pool: Pool, a: int): Pool
    requires WellFormed(pool) && !PastArray(pool, a)
  {
    if a < 0 || a > pool.area.size then pool
    else
      var p, off := a / PAGE, a % PAGE;
      if p >= |pool.pages| then pool
      else
        match pool.pages[p]
        case Chunks(s, used) =>
          ChunkIndex(s, off);
          if off % Size(s) != 0 || !used[off / Size(s)] then pool else FreeChunk(pool, p, off / Size(s))
        case Whole(n) => if off != 0 then pool else FreePages(pool, p, n)
        case Run(n) => if off != 0 then pool else FreePages(pool.(free := Without(pool.free, p)), p, n)
        case _ => pool
  }
}
