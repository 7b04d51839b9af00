/** How the pool is laid out in memory: a descriptor per page, and the bitmaps of pages with
    small chunks at the start of those pages. */
module SlabMemory {
  import opened Lists
  import opened Rings
  import opened Chains
  import opened SlabSpec
  import opened SlabProofs

  const WORD: nat := 64

  /** The two low bits of a descriptor's prev field. */
  datatype Tag = PageTag | BigTag | ExactTag | SmallTag

  /** A descriptor's slab word, by what it is read as. */
  datatype Slab =
    | Number(n: nat)                                  // the length of a run, 0, or a shift
    | Begun(n: nat)                                   // a length with NGX_SLAB_PAGE_START
    | AllOnes                                         // NGX_SLAB_PAGE_BUSY
    | Bits(bits: seq<bool>)                           // a bitmap
    | BitsAndShift(bits: seq<bool>, shift: Shift)     // a bitmap in the upper half, a shift below

  /** The bits of a row of words. */
  function Flat(ws: seq<seq<bool>>): seq<bool> {
    if ws == [] then [] else ws[0] + Flat(ws[1..])
  }

  ghost predicate WordsOk(ws: seq<seq<bool>>) {
    forall i :: 0 <= i < |ws| ==> |ws[i]| == WORD
  }

  /** What the descriptor and the words of a page say about its use. */
  ghost predicate Means(tag: Tag, slab: Slab, ws: seq<seq<bool>>, u: Use) {
    match u
    case Run(n) => tag.PageTag? && slab == Number(n)
    case InRun => tag.PageTag? && slab == Number(0)
    case Whole(n) => tag.PageTag? && slab == Begun(n)
    case InWhole => tag.PageTag? && slab.AllOnes?
    case Chunks(s, used) =>
      if s < EXACT then tag.SmallTag? && slab == Number(s) && WordsOk(ws) && Flat(ws) == used
      else if s == EXACT then tag.ExactTag? && slab == Bits(used)
      else tag.BigTag? && slab == BitsAndShift(used, s)
  }

  datatype Memory = Memory(slab: seq<Slab>, tags: seq<Tag>, words: seq<seq<seq<bool>>>)

  ghost predicate PageMeans(m: Memory, pages: seq<Use>, p: nat)
    requires p < |m.slab| == |m.tags| == |m.words| == |pages|
  {
    Means(m.tags[p], m.slab[p], m.words[p], pages[p])
  }

  ghost predicate MemoryMeans(m: Memory, pages: seq<Use>) {
    |m.slab| == |m.tags| == |m.words| == |pages| && forall p: nat :: p < |pages| ==> PageMeans(m, pages, p)
  }

  /** The free list and then the lists of half-full pages. */
  function ListsOf(pool: Pool): seq<seq<Id>> { [pool.free] + pool.half }

  // ----- bitmaps of several words

  lemma {:induction false} FlatLength(ws: seq<seq<bool>>)
    requires WordsOk(ws)
    ensures |Flat(ws)| == WORD * |ws|
  {
    if ws != [] { FlatLength(ws[1..]); }
  }

  /** Bit k is bit k % 64 of word k / 64. */
  lemma {:induction false} FlatAt(ws: seq<seq<bool>>, k: nat)
    requires WordsOk(ws) && k < WORD * |ws|
    ensures |Flat(ws)| == WORD * |ws| && Flat(ws)[k] == ws[k / WORD][k % WORD]
  {
    FlatLength(ws);
    if k >= WORD { FlatAt(ws[1..], k - WORD); }
  }

  lemma {:induction false} FlatSet(ws: seq<seq<bool>>, w: nat, i: nat, b: bool)
    requires WordsOk(ws) && w < |ws| && i < WORD
    ensures |Flat(ws)| == WORD * |ws| && WordsOk(ws[w := ws[w][i := b]])
    ensures Flat(ws[w := ws[w][i := b]]) == Flat(ws)[WORD * w + i := b]
  {
    FlatLength(ws);
    if w > 0 {
      FlatSet(ws[1..], w - 1, i, b);
      var ws' := ws[w := ws[w][i := b]];
      assert ws'[1..] == ws[1..][w - 1 := ws[w][i := b]];
    } else {
      assert ws[0 := ws[0][i := b]][1..] == ws[1..];
    }
  }

  /** The first free chunk is behind the words that are full. */
  lemma {:induction false} FlatFirst(ws: seq<seq<bool>>, w: nat)
    requires WordsOk(ws) && w < |ws| && !Full(ws[w]) && forall v :: 0 <= v < w ==> Full(ws[v])
    ensures FirstFree(Flat(ws)) == WORD * w + FirstFree(ws[w]) && FirstFree(ws[w]) < WORD
  {
    var i := FirstFree(ws[w]);
    FlatLength(ws);
    FlatAt(ws, WORD * w + i);
    forall k: nat | k < WORD * w + i ensures Flat(ws)[k] {
      FlatAt(ws, k);
      if k / WORD < w { assert Full(ws[k / WORD]); }
    }
    FirstUnique(Flat(ws), WORD * w + i);
  }

  lemma FirstUnique(used: seq<bool>, i: nat)
    requires i < |used| && !used[i] && forall k: nat :: k < i ==> used[k]
    ensures FirstFree(used) == i
  {
  }

  lemma FlatFull(ws: seq<seq<bool>>)
    requires WordsOk(ws)
    ensures Full(Flat(ws)) <==> forall w :: 0 <= w < |ws| ==> Full(ws[w])
  {
    FlatLength(ws);
    if Full(Flat(ws)) {
      forall w | 0 <= w < |ws| ensures Full(ws[w]) {
        forall i | 0 <= i < |ws[w]| ensures ws[w][i] {
          FlatAt(ws, WORD * w + i);
          assert Flat(ws)[WORD * w + i];
        }
      }
    }
    if forall w :: 0 <= w < |ws| ==> Full(ws[w]) {
      forall k | 0 <= k < |Flat(ws)| ensures Flat(ws)[k] {
        FlatAt(ws, k);
        assert Full(ws[k / WORD]);
      }
    }
  }

  /** Only page p is written to. */
  lemma SetPageMeans(m: Memory, m': Memory, pages: seq<Use>, p: Id, u: Use)
    requires MemoryMeans(m, pages) && p < |pages| == |m'.slab| == |m'.tags| == |m'.words|
    requires forall q: nat :: q < |pages| && q != p ==> m'.slab[q] == m.slab[q] && m'.tags[q] == m.tags[q] && m'.words[q] == m.words[q]
    requires Means(m'.tags[p], m'.slab[p], m'.words[p], u)
    ensures MemoryMeans(m', pages[p := u])
  {
    var r := pages[p := u];
    forall q: nat | q < |pages| ensures PageMeans(m', r, q) {
      if q != p { assert PageMeans(m, pages, q); }
    }
  }

  /** The bitmap of a fresh page of small chunks: those that hold it and one more are taken. */
  function FreshWords(s: Shift): (ws: seq<seq<bool>>)
    ensures WordsOk(ws)
  {
    [seq(WORD, i => i <= Reserved(s))] + seq(if Blocks(s) / WORD == 0 then 0 else Blocks(s) / WORD - 1, _ => seq(WORD, _ => false))
  }

  lemma FreshMeans(s: Shift)
    requires s < EXACT
    ensures Flat(FreshWords(s)) == FirstChunk(s)
  {
    var ws := FreshWords(s);
    FlatLength(ws);
    forall k | 0 <= k < Blocks(s) ensures Flat(ws)[k] == (k <= Reserved(s)) {
      FlatAt(ws, k);
    }
  }
}
