/** The slab pool as it works on its descriptors, lists and bitmaps. */
module Slab {
  import opened Common
  import opened Lists
  import opened Rings
  import opened Chains
  import opened SlabSpec
  import opened SlabProofs
  import opened SlabMemory
  import SlabRuns

  ghost predicate TooShort(pages: seq<Use>, p: Id, k: nat) { IsRun(pages, p) && pages[p].len < k }

  /** The run at index i is the first that is long enough. */
  lemma {:induction false} FirstFitAt(pages: seq<Use>, free: seq<Id>, k: nat, i: nat)
    requires i <= |free| && forall j :: 0 <= j < i ==> TooShort(pages, free[j], k)
    requires i < |free| ==> IsRun(pages, free[i]) && pages[free[i]].len >= k
    ensures FirstFit(pages, free, k) == if i < |free| then Some(i) else None
  {
    if i > 0 {
      assert TooShort(pages, free[0], k);
      FirstFitAt(pages, free[1..], k, i - 1);
    }
  }

  lemma CarveMeans(m: Memory, m': Memory, pages: seq<Use>, p: Id, k: nat)
    requires MemoryMeans(m, pages) && IsRun(pages, p) && 1 <= k <= pages[p].len && p + pages[p].len <= |pages|
    requires |m'.slab| == |m'.tags| == |m'.words| == |pages| && m'.words == m.words
    requires forall q :: 0 <= q < |pages| ==>
               m'.slab[q] == if q == p then Begun(k) else if p < q < p + k then AllOnes
                             else if q == p + k && pages[p].len > k then Number(pages[p].len - k) else m.slab[q]
    requires forall q :: 0 <= q < |pages| ==>
               m'.tags[q] == if p <= q < p + k || (q == p + k && pages[p].len > k) then PageTag else m.tags[q]
    ensures MemoryMeans(m', Carve(pages, p, k))
  {
    var r := Carve(pages, p, k);
    forall q: nat | q < |pages| ensures PageMeans(m', r, q) {
      assert PageMeans(m, pages, q);
    }
  }

  lemma ClearMeans(m: Memory, m': Memory, pages: seq<Use>, p: Id, k: nat)
    requires MemoryMeans(m, pages) && p + k <= |pages| && k >= 1
    requires |m'.slab| == |m'.tags| == |m'.words| == |pages| && m'.words == m.words
    requires forall q :: 0 <= q < |pages| ==>
               m'.slab[q] == if q == p then Number(k) else if p < q < p + k then Number(0) else m.slab[q]
    requires forall q :: 0 <= q < |pages| ==> m'.tags[q] == if p <= q < p + k then PageTag else m.tags[q]
    ensures MemoryMeans(m', Clear(pages, p, k))
  {
    var r := Clear(pages, p, k);
    forall q: nat | q < |pages| ensures PageMeans(m', r, q) {
      assert PageMeans(m, pages, q);
    }
  }

  lemma WithFree(pool: Pool, t: Pool)
    requires t.half == pool.half
    ensures ListsOf(t) == ListsOf(pool)[0 := t.free]
  {
  }

  lemma TakeRunLists(pool: Pool, i: nat, k: nat)
    requires i < |pool.free| && IsRun(pool.pages, pool.free[i])
    ensures var ls := ListsOf(pool); var p := pool.free[i];
            && ls[0] == pool.free
            && ListsOf(SlabSpec.TakeRun(pool, i, k)) == ls[0 := CarveList(pool.pages, pool.free, i, k)]
  {
    WithFree(pool, SlabSpec.TakeRun(pool, i, k));
  }

  lemma WithHalf(pool: Pool, t: Pool, j: nat, l: seq<Id>)
    requires 1 <= j <= |pool.half| && t.free == pool.free && t.half == pool.half[j - 1 := l]
    ensures ListsOf(t) == ListsOf(pool)[j := l]
  {
  }

  /** A page that starts neither a run nor is half-full is in no list. */
  lemma NotListed(pool: Pool, q: Id)
    requires Inv(pool) && !IsRun(pool.pages, q) && forall s: Shift :: !IsHalf(pool.pages, s, q)
    ensures !InSome(ListsOf(pool), q)
  {
    var ls := ListsOf(pool);
    forall j | 0 <= j < |ls| ensures q !in ls[j] {
      if j > 0 {
        var s: Shift := j + 2;
        assert HalfAt(pool, s) && ls[j] == HalfOf(pool, s) && !IsHalf(pool.pages, s, q);
      }
    }
  }

  lemma HeadNext(k: Links, n: nat, ls: seq<seq<Id>>, j: nat)
    requires Family(k, n, ls) && j < |ls|
    ensures n + j in k.next && k.next[n + j] == (if ls[j] == [] then n + j else ls[j][0])
    ensures ls[j] != [] ==> InSome(ls, ls[j][0])
  {
    assert Listed(k, n, ls, j);
    assert Link(k, n + j, Tour(n + j, ls[j])[0], Tour(n + j, ls[j])[1]);
    if ls[j] != [] { assert ls[j][0] in ls[j]; }
  }

  /** A chunked page is in a list exactly when it has a free chunk. */
  lemma ListedIffHalf(pool: Pool, p: Id)
    requires Inv(pool) && p < |pool.pages| && pool.pages[p].Chunks?
    ensures InSome(ListsOf(pool), p) <==> !Full(pool.pages[p].used)
    ensures var s: nat := pool.pages[p].shift; InSome(ListsOf(pool), p) <==> p in ListsOf(pool)[s - 2]
  {
    var s := pool.pages[p].shift;
    var ls := ListsOf(pool);
    assert HalfAt(pool, s) && ls[s - 2] == HalfOf(pool, s);
    assert p in HalfOf(pool, s) <==> IsHalf(pool.pages, s, p);
    if Full(pool.pages[p].used) {
      NotListed(pool, p);
    }
  }

  /** A page leaves its one list. */
  lemma LeavesAll(k: Links, n: nat, ls: seq<seq<Id>>, j: nat, i: nat)
    requires Family(k, n, ls) && j < |ls| && i < |ls[j]|
    ensures !InSome(ls[j := Drop(ls[j], i)], ls[j][i]) && Without(ls[j], ls[j][i]) == Drop(ls[j], i)
  {
    assert Listed(k, n, ls, j);
    WithoutAt(ls[j], i);
    DropOk(ls[j], i);
    forall q | 0 <= q < |ls| && q != j ensures ls[j][i] !in ls[q] {
      assert ls[j][i] in ls[j];
    }
  }

  function Power(k: nat): nat { if k == 0 then 1 else 2 * Power(k - 1) }

  lemma PowerIsSize(s: Shift)
    ensures Power(s) == Size(s)
  {
    assert Power(3) == 8 && Power(4) == 16 && Power(5) == 32 && Power(6) == 64 && Power(7) == 128;
    assert Power(8) == 2 * Power(7) && Power(9) == 2 * Power(8) && Power(10) == 2 * Power(9) && Power(11) == 2 * Power(10);
  }

  function BitLength(x: nat): nat { if x == 0 then 0 else 1 + BitLength(x / 2) }

  lemma {:induction false} BitLengthOf(x: nat, k: nat)
    requires k >= 1 && Power(k - 1) <= x < Power(k)
    ensures BitLength(x) == k
  {
    if k > 1 { BitLengthOf(x / 2, k - 1); }
  }

  lemma ClassLength(size: nat)
    requires 8 < size < MAX
    ensures BitLength(size - 1) == Class(size)
  {
    var s := Class(size);
    PowerIsSize(s);
    PowerIsSize(s - 1);
    BitLengthOf(size - 1, s);
  }

  /** The next fields of a new pool: page 0 is the free list, and every head of a size's list points to itself. */
  function StartNext(n: nat, x: Id): Id {
    if x == 0 then n else if x < n then n + SLOTS + 1 else if x == n then 0 else x
  }

  lemma StartFamily(k: Links, n: nat)
    requires n > 0
    requires forall x: nat :: x < n + SLOTS + 1 ==> x in k.next && k.next[x] == StartNext(n, x)
    requires 0 in k.prev && k.prev[0] == n
    ensures Family(k, n, [[0]] + seq(SLOTS, _ => []))
  {
    var ls: seq<seq<Id>> := [[0]] + seq(SLOTS, _ => []);
    assert forall j :: 1 <= j < |ls| ==> ls[j] == [];
    assert ls[0] == [0];
    forall j: nat | j < |ls| ensures Listed(k, n, ls, j) {
      var c := Tour(n + j, ls[j]);
      forall i | 0 <= i <= |ls[j]| ensures Link(k, n + j, c[i], c[i + 1]) {}
    }
    assert InSome(ls, 0) by { assert 0 in ls[0]; }
  }

  /** A block, no block, or a size whose page count is zero, where the code runs off the descriptors. */
  datatype Served = Given(addr: nat) | Refused | Lost

  class SlabPool {
    const n: nat
    const size: int                // end - start
    const descriptors: nat         // how many there are, which the code does not keep
    var slab: seq<Slab>
    var tags: seq<Tag>
    var words: seq<seq<seq<bool>>>
    var links: Links               // next and prev, without the tags; head n is the free list's, n + 1 + slot a size's
    ghost var pool: Pool

    ghost function Mem(): Memory reads this { Memory(slab, tags, words) }

    ghost predicate Rep()
      reads this
    {
      && n == |pool.pages| && size == pool.area.size && descriptors == pool.area.descriptors && |pool.half| == SLOTS
      && MemoryMeans(Mem(), pool.pages) && Family(links, n, ListsOf(pool))
    }

    ghost predicate Valid()
      reads this
    {
      Rep() && Inv(pool)
    }

    /** ngx_slab_init: one run of free pages. */
    constructor (l: Layout)
      requires 0 < l.pages <= l.descriptors && l.pages * PAGE <= l.size
      ensures Valid() && n == l.pages && size == l.size && pool == Start(l)
    {
      n, size, descriptors := l.pages, l.size, l.descriptors;
      slab := seq(l.pages, i => Number(if i == 0 then l.pages else 0));
      tags := seq(l.pages, _ => PageTag);
      words := seq(l.pages, _ => []);
      links := Links(map x: nat | x < l.pages + SLOTS + 1 :: StartNext(l.pages, x), map[0 := l.pages]);
      pool := Start(l);
      new;
      StartFamily(links, n);
      assert ListsOf(pool) == [[0]] + seq(SLOTS, _ => []);
      SlabRuns.StartOk(l);
      assert forall p: nat :: p < n ==> PageMeans(Mem(), pool.pages, p);
    }

    /** The loop over the pages of a new block, behind the first. */
    method MarkBlock(p: Id, k: nat)
      requires 1 <= k && p + k <= n == |slab| == |tags|
      modifies this`slab, this`tags
      ensures |slab| == |tags| == n
      ensures forall q :: 0 <= q < n ==> slab[q] == if q == p then Begun(k) else if p < q < p + k then AllOnes else old(slab)[q]
      ensures forall q :: 0 <= q < n ==> tags[q] == if p <= q < p + k then PageTag else old(tags)[q]
    {
      slab := slab[p := Begun(k)];
      tags := tags[p := PageTag];
      for i := p + 1 to p + k
        invariant |slab| == |tags| == n
        invariant forall q :: 0 <= q < n ==> slab[q] == if q == p then Begun(k) else if p < q < i then AllOnes else old(slab)[q]
        invariant forall q :: 0 <= q < n ==> tags[q] == if p <= q < i then PageTag else old(tags)[q]
      {
        slab := slab[i := AllOnes];
        tags := tags[i := PageTag];
      }
    }

    /** Take k pages off the front of the run at place i of the free list. */
    method TakeRun(p: Id, k: nat, ghost i: nat)
      requires Rep() && i < |pool.free| && p == pool.free[i]
      requires IsRun(pool.pages, p) && 1 <= k <= pool.pages[p].len && p + pool.pages[p].len <= n
      requires pool.pages[p].len > k ==> !InSome(ListsOf(pool), p + k)
      modifies this
      ensures Rep() && pool == SlabSpec.TakeRun(old(pool), i, k)
    {
      assert PageMeans(Mem(), pool.pages, p);
      TakeRunLists(pool, i, k);
      RelinkRun(p, k, slab[p].n > k, ListsOf(pool), i, CarveList(pool.pages, pool.free, i, k));
      CarvePages(p, k);
      pool := SlabSpec.TakeRun(pool, i, k);
    }

    /** The descriptors of the block and of what is left of the run. */
    method CarvePages(p: Id, k: nat)
      requires n == |pool.pages| && MemoryMeans(Mem(), pool.pages)
      requires IsRun(pool.pages, p) && 1 <= k <= pool.pages[p].len && p + pool.pages[p].len <= n
      modifies this`slab, this`tags
      ensures MemoryMeans(Mem(), Carve(pool.pages, p, k))
    {
      ghost var m := Mem();
      assert PageMeans(m, pool.pages, p);
      var len := slab[p].n;
      if len > k {
        slab := slab[p + k := Number(len - k)];
        tags := tags[p + k := tags[p]];
      }
      MarkBlock(p, k);
      CarveMeans(m, Mem(), pool.pages, p, k);
    }

    /** The rest of the run, if any, takes the run's place in the free list. */
    method RelinkRun(p: Id, k: nat, rest: bool, ghost ls: seq<seq<Id>>, ghost i: nat, ghost l: seq<Id>)
      requires |ls| == SLOTS + 1 && Family(links, n, ls) && i < |ls[0]| && p == ls[0][i] && k >= 1
      requires rest ==> p + k < n && !InSome(ls, p + k)
      requires l == if rest then Swap(ls[0], i, p + k) else Drop(ls[0], i)
      modifies this`links
      ensures Family(links, n, ls[0 := l])
    {
      InList(links, n, ls, 0, i);
      if rest {
        HandoverOk(links, n, ls, 0, i, p + k);
        NotNext(links, n, ls, 0, i, p + k);
        SplitLinks(p, p + k, ls);
      } else {
        UnlistOk(links, n, ls, 0, i);
        CutLinks(p, ls);
      }
    }

    /** The rest of a run takes its place in the free list. */
    method SplitLinks(p: Id, q: Id, ghost ls: seq<seq<Id>>)
      requires p in links.next && p in links.prev && |ls| == SLOTS + 1
      requires q != p && links.prev[p] != p && links.next[p] != p && links.prev[p] != q
      modifies this`links
      ensures links == Handover(old(links), n, ls, p, q)
    {
      links := Links(links.next[q := links.next[p]], links.prev[q := links.prev[p]]);
      links := links.(next := links.next[links.prev[p] := q]);
      links := links.(prev := links.prev[links.next[p] := q]);
      links := links.(next := links.next[p := n + SLOTS + 1]);
    }

    method CutLinks(p: Id, ghost ls: seq<seq<Id>>)
      requires p in links.next && p in links.prev && links.prev[p] != p && |ls| == SLOTS + 1
      modifies this`links
      ensures links == Unlist(old(links), n, ls, p)
    {
      links := links.(next := links.next[links.prev[p] := links.next[p]]);
      links := links.(prev := links.prev[links.next[p] := links.prev[p]]);
      links := links.(next := links.next[p := n + SLOTS + 1]);
    }

    /** ngx_slab_alloc_pages: first fit. */
    method AllocPages(k: nat) returns (r: Option<Id>)
      requires Valid() && k >= 1
      modifies this
      ensures Valid() && (pool, r) == SlabSpec.AllocPages(old(pool), k)
    {
      AllocPagesOk(pool, k);
      var page;
      ghost var i;
      page, i := FindRun(k);
      if page == n { return None; }
      assert PageOk(pool.pages, page);
      if pool.pages[page].len > k { NotListed(pool, page + k); }
      TakeRun(page, k, i);
      return Some(page);
    }

    /** The loop over the free runs: the first that is long enough, or the head of the list. */
    method FindRun(k: nat) returns (page: Id, ghost i: nat)
      requires Valid() && k >= 1
      ensures i <= |pool.free| && page == (if i < |pool.free| then pool.free[i] else n)
      ensures FirstFit(pool.pages, pool.free, k) == if page == n then None else Some(i)
      ensures page != n ==> i < |pool.free| && IsRun(pool.pages, page) && pool.pages[page].len >= k
    {
      assert Listed(links, n, ListsOf(pool), 0);
      ghost var c := Tour(n, pool.free);
      assert Link(links, n, c[0], c[1]);
      page, i := links.next[n], 0;
      while page != n
        invariant i <= |pool.free| && page == c[i + 1]
        invariant forall j :: 0 <= j < i ==> TooShort(pool.pages, pool.free[j], k)
        decreases |pool.free| - i
      {
        assert page in pool.free && IsRun(pool.pages, page) && PageMeans(Mem(), pool.pages, page);
        if slab[page].n >= k { break; }
        assert Link(links, n, c[i + 1], c[i + 2]);
        page := links.next[page];
        i := i + 1;
      }
      FirstFitAt(pool.pages, pool.free, k, i);
    }

    /** The loop that clears the descriptors of a freed block. */
    method MarkFree(p: Id, k: nat)
      requires 1 <= k && p + k <= n == |slab| == |tags|
      modifies this`slab, this`tags
      ensures |slab| == |tags| == n
      ensures forall q :: 0 <= q < n ==> slab[q] == if q == p then Number(k) else if p < q < p + k then Number(0) else old(slab)[q]
      ensures forall q :: 0 <= q < n ==> tags[q] == if p <= q < p + k then PageTag else old(tags)[q]
    {
      slab := slab[p := Number(k)];
      tags := tags[p := PageTag];
      for i := p + 1 to p + k
        invariant |slab| == |tags| == n
        invariant forall q :: 0 <= q < n ==> slab[q] == if q == p then Number(k) else if p < q < i then Number(0) else old(slab)[q]
        invariant forall q :: 0 <= q < n ==> tags[q] == if p <= q < i then PageTag else old(tags)[q]
      {
        slab := slab[i := Number(0)];
        tags := tags[i := PageTag];
      }
    }

    /** A page that is in a list, at place i of list j, leaves it. */
    method LeaveList(p: Id, ghost ls: seq<seq<Id>>, ghost j: nat, ghost i: nat)
      requires |ls| == SLOTS + 1 && Family(links, n, ls) && p < n
      requires InSome(ls, p) ==> j < |ls| && i < |ls[j]| && ls[j][i] == p
      modifies this`links
      ensures Family(links, n, if InSome(ls, p) then ls[j := Drop(ls[j], i)] else ls)
    {
      if links.next[p] != n + SLOTS + 1 {
        InList(links, n, ls, j, i);
        UnlistOk(links, n, ls, j, i);
        CutLinks(p, ls);
      }
    }

    /** A page in no list comes first in list j. */
    method JoinList(p: Id, j: nat, ghost ls: seq<seq<Id>>)
      requires |ls| == SLOTS + 1 && Family(links, n, ls) && p < n && !InSome(ls, p) && j < |ls|
      modifies this`links
      ensures Family(links, n, ls[j := [p] + ls[j]])
    {
      EnlistOk(links, n, ls, j, p);
      assert links.next[n + j] != p by { HeadNext(links, n, ls, j); }
      ghost var put := PutAfter(links, n + j, p);
      var next := links.next[n + j];
      links := Links(links.next[p := next], links.prev[p := n + j]);
      links := links.(prev := links.prev[next := p]);
      links := links.(next := links.next[n + j := p]);
      assert links == put;
    }

    /** ngx_slab_free_pages: the page leaves the list it is in and the run joins the free list. */
    method FreePages(p: Id, k: nat, ghost base: Pool, ghost j: nat, ghost i: nat)
      requires Rep() && k >= 1 && p + k <= n && base.pages == pool.pages && base.area == pool.area && |base.half| == SLOTS
      requires var ls := ListsOf(pool);
               if InSome(ls, p) then j < |ls| && i < |ls[j]| && ls[j][i] == p && ListsOf(base) == ls[j := Drop(ls[j], i)]
               else ListsOf(base) == ls
      requires !InSome(ListsOf(base), p)
      modifies this
      ensures Rep() && pool == SlabSpec.FreePages(base, p, k)
    {
      ghost var m := Mem();
      LeaveList(p, ListsOf(pool), j, i);
      JoinList(p, 0, ListsOf(base));
      MarkFree(p, k);
      ClearMeans(m, Mem(), pool.pages, p, k);
      pool := SlabSpec.FreePages(base, p, k);
      WithFree(base, pool);
    }

    // ----- chunks

    /** Scan a word, or the bits of a slab, from the low end. */
    static method FirstZero(bits: seq<bool>) returns (i: nat)
      requires !Full(bits)
      ensures i == FirstFree(bits) < |bits|
    {
      i := 0;
      while i < |bits| && bits[i]
        invariant i <= |bits| && forall j: nat :: j < i ==> bits[j]
      {
        i := i + 1;
      }
      FirstUnique(bits, i);
    }

    /** Find and mark a free chunk of a page; tell whether it was the last one. */
    method MarkChunk(p: Id, s: Shift) returns (i: nat, full: bool)
      requires MemoryMeans(Mem(), pool.pages) && p < |pool.pages| && pool.pages[p].Chunks? && pool.pages[p].shift == s
      requires !Full(pool.pages[p].used)
      modifies this`slab, this`words
      ensures i == FirstFree(pool.pages[p].used) < |pool.pages[p].used|
      ensures var used := pool.pages[p].used[i := true];
              MemoryMeans(Mem(), pool.pages[p := Chunks(s, used)]) && (full <==> Full(used))
    {
      ghost var used, m := pool.pages[p].used, Mem();
      assert PageMeans(Mem(), pool.pages, p);
      if s < EXACT {
        i, full := MarkInWords(p, used);
      } else {
        i := FirstZero(slab[p].bits);
        var bits := slab[p].bits[i := true];
        full := Full(bits);
        slab := slab[p := if s == EXACT then Bits(bits) else BitsAndShift(bits, s)];
      }
      SetPageMeans(m, Mem(), pool.pages, p, Chunks(s, used[i := true]));
    }

    /** The bitmap is at the start of the page. */
    method MarkInWords(p: Id, ghost used: seq<bool>) returns (i: nat, full: bool)
      requires p < |words| && WordsOk(words[p]) && Flat(words[p]) == used && !Full(used)
      modifies this`words
      ensures i == FirstFree(used) < |used| && |words| == old(|words|)
      ensures WordsOk(words[p]) && Flat(words[p]) == used[i := true] && (full <==> Full(used[i := true]))
      ensures forall q: nat :: q < |words| && q != p ==> words[q] == old(words[q])
    {
      var ws := words[p];
      FlatFull(ws);
      var w := 0;
      while w < |ws| && Full(ws[w])
        invariant w <= |ws| && forall v :: 0 <= v < w ==> Full(ws[v])
      {
        w := w + 1;
      }
      FlatFirst(ws, w);
      var bit := FirstZero(ws[w]);
      FlatSet(ws, w, bit, true);
      ws := ws[w := ws[w][bit := true]];
      words := words[p := ws];
      i := WORD * w + bit;
      FlatFull(ws);
      full := Full(ws[w]);
      if full {
        var v := w + 1;
        while v < |ws| && Full(ws[v])
          invariant w < v <= |ws| && forall u :: 0 <= u < v ==> Full(ws[u])
        {
          v := v + 1;
        }
        full := v == |ws|;
      }
    }

    /** The next chunk of the first page in the list of its size. */
    method TakeChunk(p: Id, s: Shift) returns (i: nat)
      requires Valid() && HalfOf(pool, s) != [] && p == HalfOf(pool, s)[0]
      modifies this
      ensures Valid() && SlabProofs.HalfAt(old(pool), s) && ChunkReady(old(pool), s)
      ensures (pool, Chunk(p, s, i)) == SlabSpec.TakeChunk(old(pool), s)
    {
      TakeChunkOk(pool, s);
      assert HalfAt(pool, s) && p in HalfOf(pool, s) && IsHalf(pool.pages, s, p);
      var full;
      i, full := MarkChunk(p, s);
      ghost var was, ls := pool, ListsOf(pool);
      var j: nat := s;
      j := j - 2;
      if full {
        assert ls[j] == HalfOf(pool, s) && p in ls[j];
        LeaveList(p, ls, j, 0);
        assert Drop(ls[j], 0) == HalfOf(pool, s)[1..];
      }
      pool := SlabSpec.TakeChunk(pool, s).0;
      if full { WithHalf(was, pool, j, HalfOf(pool, s)); }
    }

    /** A fresh page is cut into chunks and starts the list of its size. */
    method NewChunks(s: Shift) returns (r: Option<Block>)
      requires Valid() && HalfOf(pool, s) == []
      modifies this
      ensures Valid() && (pool, r) == SlabSpec.NewChunks(old(pool), s)
    {
      NewChunksOk(pool, s);
      AllocPagesOk(pool, 1);
      var page := AllocPages(1);
      if page.None? { return None; }
      var p := page.value;
      ghost var t := pool;
      NotListed(pool, p);
      CutIntoChunks(p, s);
      var j: nat := s;
      j := j - 2;
      StartList(p, j, ListsOf(pool));
      pool := SetHalf(pool.(pages := pool.pages[p := Chunks(s, FirstChunk(s))]), s, [p]);
      WithHalf(t, pool, j, [p]);
      r := Some(Chunk(p, s, Reserved(s)));
    }

    method CutIntoChunks(p: Id, s: Shift)
      requires MemoryMeans(Mem(), pool.pages) && p < |pool.pages|
      modifies this`slab, this`tags, this`words
      ensures MemoryMeans(Mem(), pool.pages[p := Chunks(s, FirstChunk(s))])
    {
      ghost var m := Mem();
      if s < EXACT {
        FreshMeans(s);
        words := words[p := FreshWords(s)];
        slab, tags := slab[p := Number(s)], tags[p := SmallTag];
      } else if s == EXACT {
        slab, tags := slab[p := Bits(FirstChunk(s))], tags[p := ExactTag];
      } else {
        slab, tags := slab[p := BitsAndShift(FirstChunk(s), s)], tags[p := BigTag];
      }
      SetPageMeans(m, Mem(), pool.pages, p, Chunks(s, FirstChunk(s)));
    }

    /** The first page of a list; the head's prev field is not written. */
    method StartList(p: Id, j: nat, ghost ls: seq<seq<Id>>)
      requires |ls| == SLOTS + 1 && Family(links, n, ls) && p < n && !InSome(ls, p) && j < |ls| && ls[j] == []
      modifies this`links
      ensures Family(links, n, ls[j := [p]])
    {
      EnlistOk(links, n, ls, j, p);
      HeadNext(links, n, ls, j);
      ghost var put := PutAfter(links, n + j, p);
      links := Links(links.next[p := n + j][n + j := p], links.prev[p := n + j]);
      assert [p] + ls[j] == [p];
      FamilyKept(put, links, n, ls[j := [p]]);
    }

    /** The loop that finds the shift of a size above the smallest. */
    static method ShiftFor(size: nat) returns (s: Shift)
      requires size < MAX
      ensures s == Class(size)
    {
      if size <= 8 { return 3; }
      var x: nat, shift := (size - 1) / 2, 1;
      while x != 0
        invariant shift + BitLength(x) == BitLength(size - 1)
        decreases x
      {
        x, shift := x / 2, shift + 1;
      }
      ClassLength(size);
      s := shift;
    }

    method AllocBlock(size: SizeT) returns (r: Option<Block>)
      requires Valid() && !Wraps(size)
      modifies this
      ensures Valid() && (size < MAX ==> ChunkReady(old(pool), Class(size)))
      ensures (pool, r) == SlabSpec.Alloc(old(pool), size)
    {
      AllocKeeps(pool, size);
      if size >= MAX {
        var k := (size + PAGE - 1) % SIZE_LIMIT / PAGE;
        var p := AllocPages(k);
        return if p.Some? then Some(Pages(p.value, k)) else None;
      }
      var s := ShiftFor(size);
      var t: nat := s;
      var j := t - 2;
      HeadNext(links, n, ListsOf(pool), j);
      var page := links.next[n + j];
      if page != n + j {
        var i := TakeChunk(page, s);
        r := Some(Chunk(page, s, i));
      } else {
        r := NewChunks(s);
      }
    }

    /** ngx_slab_alloc_locked: the address of a block, counted from the first page. */
    method Alloc(size: SizeT) returns (r: Served)
      requires Valid()
      modifies this
      ensures Valid() && (r.Lost? <==> Wraps(size)) && (r.Lost? ==> pool == old(pool))
      ensures !Wraps(size) && size < MAX ==> ChunkReady(old(pool), Class(size))
      ensures !Wraps(size) ==>
                var (t, b) := SlabSpec.Alloc(old(pool), size);
                pool == t && r == if b.Some? then Given(SlabRuns.Addr(b.value)) else Refused
    {
      if Wraps(size) { return Lost; }
      var b := AllocBlock(size);
      match b
      case None => r := Refused;
      case Some(Pages(p, _)) => r := Given(p * PAGE);
      case Some(Chunk(p, s, i)) => r := Given(p * PAGE + i * Size(s));
    }

    // ----- giving back

    /** Clear the bit of a chunk. */
    method ClearBit(p: Id, s: Shift, i: nat)
      requires MemoryMeans(Mem(), pool.pages) && p < |pool.pages| && pool.pages[p].Chunks? && pool.pages[p].shift == s
      requires i < |pool.pages[p].used|
      modifies this`slab, this`words
      ensures MemoryMeans(Mem(), pool.pages[p := Chunks(s, pool.pages[p].used[i := false])])
    {
      ghost var used, m := pool.pages[p].used, Mem();
      assert PageMeans(Mem(), pool.pages, p);
      if s < EXACT {
        var ws := words[p];
        FlatLength(ws);
        var w, bit := i / WORD, i % WORD;
        FlatSet(ws, w, bit, false);
        words := words[p := ws[w := ws[w][bit := false]]];
      } else {
        var bits := slab[p].bits[i := false];
        slab := slab[p := if s == EXACT then Bits(bits) else BitsAndShift(bits, s)];
      }
      SetPageMeans(m, Mem(), pool.pages, p, Chunks(s, used[i := false]));
    }

    static method AnySet(bits: seq<bool>, from: nat) returns (r: bool)
      ensures r <==> exists i :: from <= i < |bits| && bits[i]
    {
      var i := from;
      while i < |bits| && !bits[i]
        invariant from <= i && forall j :: from <= j < i && j < |bits| ==> !bits[j]
      {
        i := i + 1;
      }
      r := i < |bits|;
    }

    /** Is any chunk of the page, apart from those that hold its bitmap, in use? */
    method InUse(p: Id, s: Shift) returns (r: bool)
      requires MemoryMeans(Mem(), pool.pages) && p < |pool.pages| && pool.pages[p].Chunks? && pool.pages[p].shift == s
      ensures r <==> Busy(s, pool.pages[p].used)
    {
      assert PageMeans(Mem(), pool.pages, p);
      if s >= EXACT {
        r := AnySet(slab[p].bits, 0);
      } else {
        r := InUseWords(words[p], s);
      }
    }

    /** The bits behind the reserved ones of the first word, then the other words. */
    static method InUseWords(ws: seq<seq<bool>>, s: Shift) returns (r: bool)
      requires WordsOk(ws) && s < EXACT
      ensures r <==> Busy(s, Flat(ws))
    {
      FlatLength(ws);
      if |ws| == 0 { return false; }
      r := AnySet(ws[0], Reserved(s));
      if r {
        ghost var i :| Reserved(s) <= i < WORD && ws[0][i];
        FlatAt(ws, i);
        return;
      }
      var w := 1;
      while w < |ws|
        invariant 1 <= w <= |ws| && forall v, i :: 1 <= v < w && 0 <= i < WORD ==> !ws[v][i]
      {
        r := AnySet(ws[w], 0);
        if r {
          ghost var i :| 0 <= i < WORD && ws[w][i];
          FlatAt(ws, WORD * w + i);
          assert Flat(ws)[WORD * w + i];
          return;
        }
        w := w + 1;
      }
      forall k | Reserved(s) <= k < |Flat(ws)| ensures !Flat(ws)[k] {
        FlatAt(ws, k);
      }
    }

    method FreeChunk(p: Id, s: Shift, i: nat)
      requires Valid() && p < n && pool.pages[p].Chunks? && pool.pages[p].shift == s && i < |pool.pages[p].used|
      modifies this
      ensures Rep() && pool == SlabSpec.FreeChunk(old(pool), p, i)
    {
      ListedIffHalf(pool, p);
      ghost var was := pool;
      Reopen(p, s);
      ClearBit(p, s, i);
      pool := pool.(pages := pool.pages[p := Chunks(s, was.pages[p].used[i := false])]);
      var busy := InUse(p, s);
      if !busy {
        ReleasePage(p, s);
        assert Clear(was.pages[p := Chunks(s, was.pages[p].used[i := false])], p, 1) == Clear(was.pages, p, 1);
      }
    }

    /** A full page goes back to the list of its size. */
    method Reopen(p: Id, s: Shift)
      requires Rep() && p < n && pool.pages[p].Chunks? && pool.pages[p].shift == s
      requires InSome(ListsOf(pool), p) <==> !Full(pool.pages[p].used)
      requires !Full(pool.pages[p].used) ==> p in HalfOf(pool, s)
      modifies this
      ensures Rep() && slab == old(slab) && tags == old(tags) && words == old(words)
      ensures pool == (if Full(old(pool).pages[p].used) then SetHalf(old(pool), s, [p] + HalfOf(old(pool), s)) else old(pool))
      ensures p in HalfOf(pool, s)
    {
      if links.next[p] == n + SLOTS + 1 {
        ghost var was := pool;
        var t: nat := s;
        JoinList(p, t - 2, ListsOf(pool));
        pool := SetHalf(pool, s, [p] + HalfOf(pool, s));
        WithHalf(was, pool, t - 2, HalfOf(pool, s));
      }
    }

    /** A page without chunks in use becomes a free run. */
    method ReleasePage(p: Id, s: Shift)
      requires Rep() && p < n && p in HalfOf(pool, s)
      modifies this
      ensures Rep() && pool == SlabSpec.FreePages(SetHalf(old(pool), s, Without(HalfOf(old(pool), s), p)), p, 1)
    {
      ghost var t: nat := s;
      ghost var j, ls := t - 2, ListsOf(pool);
      assert ls[j] == HalfOf(pool, s);
      ghost var i :| 0 <= i < |ls[j]| && ls[j][i] == p;
      LeavesAll(links, n, ls, j, i);
      ghost var base := SetHalf(pool, s, Without(HalfOf(pool, s), p));
      WithHalf(pool, base, j, Drop(ls[j], i));
      assert InSome(ls, p);
      FreePages(p, 1, base, j, i);
    }

    /** ngx_slab_free_locked; `lost` where the code reads a descriptor that is not there. */
    method Free(a: int) returns (lost: bool)
      requires Valid()
      modifies this
      ensures (lost <==> PastArray(old(pool), a)) && (lost ==> pool == old(pool))
      ensures WellFormed(old(pool)) && Rep() && (!lost ==> pool == SlabSpec.Free(old(pool), a))
      ensures lost || !OnBitmap(old(pool), a) ==> Valid()
    {
      InvWellFormed(pool);
      lost := 0 <= a <= size && a / PAGE >= descriptors;
      if lost { return; }
      if !OnBitmap(pool, a) { FreeKeeps(pool, a); }
      if a < 0 || a > size { return; }
      var p, off := a / PAGE, a % PAGE;
      if p >= n { return; }
      assert PageMeans(Mem(), pool.pages, p) && PageOk(pool.pages, p);
      if tags[p].PageTag? {
        if off != 0 || slab[p].AllOnes? || slab[p] == Number(0) { return; }
        ReleaseRun(p, slab[p].n);
        return;
      }
      var s: Shift := if tags[p].SmallTag? then slab[p].n else if tags[p].ExactTag? then EXACT else slab[p].shift;
      ChunkIndex(s, off);
      var i := off / Size(s);
      if off % Size(s) == 0 {
        var used := IsUsed(p, s, i);
        if used { FreeChunk(p, s, i); }
      }
    }

    method IsUsed(p: Id, s: Shift, i: nat) returns (r: bool)
      requires MemoryMeans(Mem(), pool.pages) && p < |pool.pages| && pool.pages[p].Chunks? && pool.pages[p].shift == s
      requires i < |pool.pages[p].used|
      ensures r == pool.pages[p].used[i]
    {
      assert PageMeans(Mem(), pool.pages, p);
      if s < EXACT {
        FlatLength(words[p]);
        FlatAt(words[p], i);
        r := words[p][i / WORD][i % WORD];
      } else {
        r := slab[p].bits[i];
      }
    }

    /** A block of whole pages, or a run that is free already, becomes the first free run. */
    method ReleaseRun(p: Id, k: nat)
      requires Valid() && p < n && (pool.pages[p] == Whole(k) || pool.pages[p] == Run(k))
      modifies this
      ensures Rep()
      ensures pool == SlabSpec.FreePages(old(pool).(free := if old(pool).pages[p].Run? then Without(old(pool).free, p) else old(pool).free), p, k)
    {
      assert PageOk(pool.pages, p);
      ghost var base, i := pool, 0;
      if pool.pages[p].Run? {
        i := PlaceInFree(p);
        base := pool.(free := Without(pool.free, p));
      } else {
        NotListed(pool, p);
      }
      FreePages(p, k, base, 0, i);
    }

    lemma PlaceInFree(p: Id) returns (i: nat)
      requires Valid() && p < n && pool.pages[p].Run?
      ensures var ls := ListsOf(pool);
              && InSome(ls, p) && i < |ls[0]| && ls[0][i] == p
              && ListsOf(pool.(free := Without(pool.free, p))) == ls[0 := Drop(ls[0], i)]
              && !InSome(ls[0 := Drop(ls[0], i)], p)
    {
      var ls := ListsOf(pool);
      assert p in pool.free <==> IsRun(pool.pages, p);
      i :| 0 <= i < |ls[0]| && ls[0][i] == p;
      LeavesAll(links, n, ls, 0, i);
      assert p in ls[0];
    }
  }
}
