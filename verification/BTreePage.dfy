/** One B+ tree node as bytes: a header, an array of 2-byte cell pointers growing up from the
    header, and cells growing down from the end of the page.  Cell insert and remove are
    proved to refine insert and remove on the sequence of cells the page stands for. */
module BTreePage {
  import opened BTreeSpec
  import BTreeNodes

  const PAGE_SIZE: nat := 1448
  const HEADER_SIZE: nat := 12     // 32-bit layout: the child pointers are 4 bytes wide

  type Bytes = seq<Byte>

  // ----- little-endian integers (int2Bytes and bytes2Int)

  function Le16(n: int): Bytes
    requires 0 <= n < 0x1_0000
  {
    [n % 256, n / 256]
  }

  function Le32(n: Key): Bytes {
    [n % 256, n / 256 % 256, n / 256 / 256 % 256, n / 256 / 256 / 256]
  }

  function U16(b: Bytes, o: nat): int
    requires o + 2 <= |b|
  {
    (b[o] as int) + 256 * (b[o + 1] as int)
  }

  function U32(b: Bytes, o: nat): Key
    requires o + 4 <= |b|
  {
    (b[o] as int) + 256 * (b[o + 1] as int) + 65536 * (b[o + 2] as int) + 16777216 * (b[o + 3] as int)
  }

  lemma Le16RoundTrip(n: int)
    requires 0 <= n < 0x1_0000
    ensures U16(Le16(n), 0) == n
  {
  }

  lemma Le32RoundTrip(n: Key)
    ensures U32(Le32(n), 0) == n
  {
  }

  lemma U32Shift(b: Bytes, o: nat, l: nat, i: nat)
    requires i + 4 <= l && o + l <= |b|
    ensures U32(b[o..o + l], i) == U32(b, o + i)
  {
  }

  // ----- cells: a 4-byte key, a second 4-byte word, data

  /** In a leaf the second word is the length of the data; in an interior node it is the child
      pointer and there is no data. */
  predicate WellFormed(c: Bytes, leaf: bool) {
    |c| >= 8 && if leaf then U32(c, 4) == |c| - 8 else |c| == 8
  }

  function KeyOf(c: Bytes): Key
    requires |c| >= 8
  {
    U32(c, 0)
  }

  function Encode(key: Key, word: Key, data: Data): (e: Bytes)
    ensures |e| == 8 + |data|
  {
    Le32(key) + Le32(word) + data
  }

  /** The round trip of one cell. */
  lemma EncodeDecode(key: Key, word: Key, data: Data)
    ensures var e := Encode(key, word, data);
            U32(e, 0) == key && U32(e, 4) == word && e[8..] == data
  {
    var e := Encode(key, word, data);
    Le32RoundTrip(key);
    Le32RoundTrip(word);
    assert e[0..4] == Le32(key) && e[4..8] == Le32(word);
    U32Shift(e, 0, 4, 0);
    U32Shift(e, 4, 4, 0);
  }

  // ----- layout

  /** The extents of cells i and j do not overlap. */
  ghost predicate Clear(offs: seq<nat>, cs: seq<Bytes>, i: nat, j: nat)
    requires i < |offs| == |cs| && j < |cs|
  {
    offs[i] + |cs[i]| <= offs[j] || offs[j] + |cs[j]| <= offs[i]
  }

  ghost predicate Stored(b: Bytes, o: nat, c: Bytes) {
    o + |c| <= |b| && b[o..o + |c|] == c
  }

  ghost predicate Slot(b: Bytes, i: nat, o: nat) {
    HEADER_SIZE + 2 * i + 2 <= |b| && U16(b, HEADER_SIZE + 2 * i) == o
  }

  /** Pointer i holds offs[i], where the bytes of cs[i] are stored inside the cell area. */
  ghost predicate CellAt(b: Bytes, leaf: bool, first: nat, offs: seq<nat>, cs: seq<Bytes>, i: nat)
    requires i < |offs| == |cs|
  {
    first <= offs[i] && Slot(b, i, offs[i]) && Stored(b, offs[i], cs[i]) && WellFormed(cs[i], leaf)
  }

  /** The page bytes `b` hold the cells `cs`: every cell is in place, all lie in the cell area
      [first, end of page) apart from each other, and the pointer array ends before it. */
  ghost predicate Layout(b: Bytes, leaf: bool, first: nat, offs: seq<nat>, cs: seq<Bytes>) {
    && |b| == PAGE_SIZE && |offs| == |cs|
    && HEADER_SIZE + 2 * |cs| <= first <= PAGE_SIZE
    && (forall i: nat :: i < |cs| ==> CellAt(b, leaf, first, offs, cs, i))
    && (forall i: nat, j: nat :: i < j < |cs| ==> Clear(offs, cs, i, j))
  }

  function Total(cs: seq<Bytes>): nat {
    if cs == [] then 0 else |cs[0]| + Total(cs[1..])
  }

  lemma {:induction false} TotalConcat(a: seq<Bytes>, b: seq<Bytes>)
    ensures Total(a + b) == Total(a) + Total(b)
  {
    if a == [] {
      assert a + b == b;
    } else {
      TotalConcat(a[1..], b);
      assert (a + b)[1..] == a[1..] + b;
    }
  }

  function At<T>(s: seq<T>, k: nat, x: T): (r: seq<T>)
    requires k <= |s|
  {
    seq(|s| + 1, i requires 0 <= i <= |s| => if i < k then s[i] else if i == k then x else s[i - 1])
  }

  function Without<T>(s: seq<T>, k: nat): (r: seq<T>)
    requires k < |s|
  {
    seq(|s| - 1, i requires 0 <= i < |s| - 1 => if i < k then s[i] else s[i + 1])
  }

  lemma AtConcat<T>(s: seq<T>, k: nat, x: T)
    requires k <= |s|
    ensures At(s, k, x) == s[..k] + [x] + s[k..]
  {
  }

  lemma {:induction false} TotalAt(cs: seq<Bytes>, k: nat, c: Bytes)
    requires k <= |cs|
    ensures Total(At(cs, k, c)) == Total(cs) + |c|
  {
    AtConcat(cs, k, c);
    TotalConcat(cs[..k] + [c], cs[k..]);
    TotalConcat(cs[..k], [c]);
    TotalConcat(cs[..k], cs[k..]);
    assert cs == cs[..k] + cs[k..];
    assert Total([c]) == |c| + Total([c][1..]);
  }

  lemma {:induction false} TotalWithout(cs: seq<Bytes>, k: nat)
    requires k < |cs|
    ensures Total(cs) == Total(Without(cs, k)) + |cs[k]|
  {
    assert At(Without(cs, k), k, cs[k]) == cs;
    TotalAt(Without(cs, k), k, cs[k]);
  }

  lemma StoredSame(b: Bytes, b': Bytes, o: nat, c: Bytes)
    requires |b| == |b'| && Stored(b, o, c)
    requires forall x :: o <= x < |b| ==> b'[x] == b[x]
    ensures Stored(b', o, c)
  {
    assert b'[o..o + |c|] == b[o..o + |c|];
  }

  // ----- what the byte moves do

  /** The bytes in [lo, hi) moved up by two; the rest is as before. */
  ghost predicate MovedUp(b: Bytes, b': Bytes, lo: int, hi: int) {
    && |b| == |b'| && 0 <= lo && hi + 2 <= |b|
    && forall x {:trigger b'[x]} :: 0 <= x < |b| ==> b'[x] == if lo + 2 <= x < hi + 2 then b[x - 2] else b[x]
  }

  /** The bytes in [lo + 2, hi + 2) moved down by two; the rest is as before. */
  ghost predicate MovedDown(b: Bytes, b': Bytes, lo: int, hi: int) {
    && |b| == |b'| && 0 <= lo && hi + 2 <= |b|
    && forall x {:trigger b'[x]} :: 0 <= x < |b| ==> b'[x] == if lo <= x < hi then b[x + 2] else b[x]
  }

  /** The cell at `o`, its offset in the pointer slot at `p`, nothing else changed. */
  ghost predicate CellWritten(b: Bytes, b': Bytes, o: int, c: Bytes, p: int) {
    && |b| == |b'| && 0 <= p && p + 2 <= o && o + |c| <= |b|
    && U16(b', p) == o
    && b'[o..o + |c|] == c
    && forall x {:trigger b'[x]} :: 0 <= x < |b| && !(o <= x < o + |c|) && !(p <= x < p + 2) ==> b'[x] == b[x]
  }

  lemma CellInserted(b: Bytes, b1: Bytes, b2: Bytes, leaf: bool, first: nat, offs: seq<nat>, cs: seq<Bytes>,
                     k: nat, c: Bytes, i: nat)
    requires Layout(b, leaf, first, offs, cs) && k <= |cs| && i <= |cs|
    requires WellFormed(c, leaf) && HEADER_SIZE + 2 * |cs| + 2 + |c| <= first
    requires MovedUp(b, b1, HEADER_SIZE + 2 * k, HEADER_SIZE + 2 * |cs|)
    requires CellWritten(b1, b2, first - |c|, c, HEADER_SIZE + 2 * k)
    ensures CellAt(b2, leaf, first - |c|, At(offs, k, first - |c|), At(cs, k, c), i)
  {
    AtIndex(offs, k, first - |c|, i);
    AtIndex(cs, k, c, i);
    if i != k {
      var i' := if i < k then i else i - 1;
      assert CellAt(b, leaf, first, offs, cs, i');
      var o, d := offs[i'], cs[i'];
      SlotAfter(b, b1, b2, |cs|, k, first - |c|, c, i, o);
      StoredAfter(b, b1, b2, HEADER_SIZE + 2 * k, HEADER_SIZE + 2 * |cs|, first - |c|, c, o, d);
    }
  }

  lemma AtIndex<T>(s: seq<T>, k: nat, x: T, i: nat)
    requires k <= |s| && i <= |s|
    ensures At(s, k, x)[i] == if i < k then s[i] else if i == k then x else s[i - 1]
  {
  }

  lemma SlotAfter(b: Bytes, b1: Bytes, b2: Bytes, n: nat, k: nat, o: nat, c: Bytes, i: nat, x: nat)
    requires k <= n && i <= n && i != k && HEADER_SIZE + 2 * n + 2 <= o && |b| == PAGE_SIZE
    requires MovedUp(b, b1, HEADER_SIZE + 2 * k, HEADER_SIZE + 2 * n) && CellWritten(b1, b2, o, c, HEADER_SIZE + 2 * k)
    requires Slot(b, if i < k then i else i - 1, x)
    ensures Slot(b2, i, x)
  {
    PointerAfter(b, b1, b2, n, k, o, c, i);
  }

  /** The pointers in front of the new one stay, those behind it have moved up. */
  lemma PointerAfter(b: Bytes, b1: Bytes, b2: Bytes, n: nat, k: nat, o: nat, c: Bytes, i: nat)
    requires k <= n && i <= n && i != k && HEADER_SIZE + 2 * n + 2 <= o && |b| == PAGE_SIZE
    requires MovedUp(b, b1, HEADER_SIZE + 2 * k, HEADER_SIZE + 2 * n) && CellWritten(b1, b2, o, c, HEADER_SIZE + 2 * k)
    ensures var p := HEADER_SIZE + 2 * i; var p' := if i < k then p else p - 2;
            p + 1 < |b2| && p' + 1 < |b| && b2[p] == b[p'] && b2[p + 1] == b[p' + 1]
  {
  }

  lemma StoredAfter(b: Bytes, b1: Bytes, b2: Bytes, lo: int, hi: int, o: int, c: Bytes, o': nat, c': Bytes)
    requires MovedUp(b, b1, lo, hi) && CellWritten(b1, b2, o, c, lo) && hi + 2 <= o && o + |c| <= o'
    requires Stored(b, o', c')
    ensures Stored(b2, o', c')
  {
    forall x | o' <= x < |b| ensures b2[x] == b[x] {
      assert b2[x] == b1[x];
    }
    StoredSame(b, b2, o', c');
  }

  lemma ClearInserted(b: Bytes, leaf: bool, first: nat, offs: seq<nat>, cs: seq<Bytes>, k: nat, c: Bytes, i: nat, j: nat)
    requires Layout(b, leaf, first, offs, cs) && k <= |cs| && |c| <= first && i < j <= |cs|
    ensures Clear(At(offs, k, first - |c|), At(cs, k, c), i, j)
  {
    var i', j' := if i < k then i else i - 1, if j < k then j else j - 1;
    if i == k {
      assert CellAt(b, leaf, first, offs, cs, j');
    } else if j == k {
      assert CellAt(b, leaf, first, offs, cs, i');
    } else {
      assert Clear(offs, cs, i', j');
    }
  }

  /** Storing a cell in a page with room for it and its pointer keeps the layout and inserts
      it into the cell sequence. */
  lemma InsertRefines(b: Bytes, b1: Bytes, b2: Bytes, leaf: bool, first: nat, offs: seq<nat>, cs: seq<Bytes>,
                      k: nat, c: Bytes)
    requires Layout(b, leaf, first, offs, cs) && k <= |cs|
    requires WellFormed(c, leaf) && HEADER_SIZE + 2 * |cs| + 2 + |c| <= first
    requires MovedUp(b, b1, HEADER_SIZE + 2 * k, HEADER_SIZE + 2 * |cs|)
    requires CellWritten(b1, b2, first - |c|, c, HEADER_SIZE + 2 * k)
    ensures Layout(b2, leaf, first - |c|, At(offs, k, first - |c|), At(cs, k, c))
  {
    var o := first - |c|;
    var offs', cs' := At(offs, k, o), At(cs, k, c);
    forall i: nat | i < |cs'| ensures CellAt(b2, leaf, o, offs', cs', i) {
      CellInserted(b, b1, b2, leaf, first, offs, cs, k, c, i);
    }
    forall i: nat, j: nat | i < j < |cs'| ensures Clear(offs', cs', i, j) {
      ClearInserted(b, leaf, first, offs, cs, k, c, i, j);
    }
  }

  lemma CellRemoved(b: Bytes, b': Bytes, leaf: bool, first: nat, offs: seq<nat>, cs: seq<Bytes>, k: nat, i: nat)
    requires Layout(b, leaf, first, offs, cs) && k < |cs| && i < |cs| - 1
    requires MovedDown(b, b', HEADER_SIZE + 2 * k, HEADER_SIZE + 2 * |cs|)
    ensures CellAt(b', leaf, first, Without(offs, k), Without(cs, k), i)
  {
    var i', p := if i < k then i else i + 1, HEADER_SIZE + 2 * i;
    assert CellAt(b, leaf, first, offs, cs, i');
    assert i < k ==> b'[p] == b[p] && b'[p + 1] == b[p + 1];
    assert i >= k ==> b'[p] == b[p + 2] && b'[p + 1] == b[p + 3];
    StoredMoved(b, b', HEADER_SIZE + 2 * k, HEADER_SIZE + 2 * |cs|, offs[i'], cs[i']);
  }

  /** Closing the gap in the pointer array removes the cell from the sequence. */
  lemma RemoveRefines(b: Bytes, b': Bytes, leaf: bool, first: nat, offs: seq<nat>, cs: seq<Bytes>, k: nat)
    requires Layout(b, leaf, first, offs, cs) && k < |cs|
    requires MovedDown(b, b', HEADER_SIZE + 2 * k, HEADER_SIZE + 2 * |cs|)
    ensures Layout(b', leaf, first, Without(offs, k), Without(cs, k))
  {
    var offs', cs' := Without(offs, k), Without(cs, k);
    forall i: nat | i < |cs'| ensures CellAt(b', leaf, first, offs', cs', i) {
      CellRemoved(b, b', leaf, first, offs, cs, k, i);
    }
    forall i: nat, j: nat | i < j < |cs'| ensures Clear(offs', cs', i, j) {
      var i', j' := if i < k then i else i + 1, if j < k then j else j + 1;
      assert Clear(offs, cs, i', j');
    }
  }

  lemma StoredMoved(b: Bytes, b': Bytes, lo: int, hi: int, o: nat, c: Bytes)
    requires MovedDown(b, b', lo, hi) && hi <= o && Stored(b, o, c)
    ensures Stored(b', o, c)
  {
    forall x | o <= x < |b| ensures b'[x] == b[x] {}
    StoredSame(b, b', o, c);
  }

  // ----- the buffer

  /** `b` with `s` copied over offset `o`. */
  function Over(b: Bytes, o: nat, s: Bytes): (b': Bytes)
    requires o + |s| <= |b|
    ensures |b'| == |b|
    ensures forall x {:trigger b'[x]} :: 0 <= x < |b| ==> b'[x] == if o <= x < o + |s| then s[x - o] else b[x]
  {
    b[..o] + s + b[o + |s|..]
  }

  /** The byte buffer of a node; `image` is its contents as a value. */
  class Buffer {
    const bytes: array<Byte>
    ghost var image: Bytes

    ghost predicate Valid()
      reads this, bytes
    {
      bytes.Length == PAGE_SIZE && image == bytes[..]
    }

    constructor ()
      ensures Valid() && fresh(bytes)
    {
      bytes := new Byte[PAGE_SIZE](_ => 0);
      new;
      image := bytes[..];
    }

    /** memcpy of `s` to offset `o`. */
    method Write(o: nat, s: Bytes)
      requires Valid() && o + |s| <= PAGE_SIZE
      modifies this, bytes
      ensures Valid() && image == Over(old(image), o, s)
    {
      for i := 0 to |s|
        invariant forall x :: 0 <= x < i ==> bytes[o + x] == s[x]
        invariant forall x :: 0 <= x < PAGE_SIZE && !(o <= x < o + i) ==> bytes[x] == old(bytes[x])
      {
        bytes[o + i] := s[i];
      }
      image := bytes[..];
    }

    method Read(o: nat, n: nat) returns (s: Bytes)
      requires Valid() && o + n <= PAGE_SIZE
      ensures s == image[o..o + n]
    {
      s := bytes[o..o + n];
    }

    /** Move the 2-byte slots in [lo, hi) one slot up, last slot first. */
    method ShiftUp(lo: nat, hi: nat)
      requires Valid() && lo <= hi && hi + 2 <= PAGE_SIZE && (hi - lo) % 2 == 0
      modifies this, bytes
      ensures Valid() && MovedUp(old(image), image, lo, hi)
    {
      var p := hi;
      while p > lo
        invariant Valid() && lo <= p <= hi && (p - lo) % 2 == 0
        invariant MovedUp(old(image), image, p, hi)
      {
        p := p - 2;
        var s := Read(p, 2);
        Write(p + 2, s);
      }
    }

    /** Move the 2-byte slots in [lo + 2, hi + 2) one slot down, first slot first. */
    method ShiftDown(lo: nat, hi: nat)
      requires Valid() && lo <= hi && hi + 2 <= PAGE_SIZE && (hi - lo) % 2 == 0
      modifies this, bytes
      ensures Valid() && MovedDown(old(image), image, lo, hi)
    {
      var p := lo;
      while p < hi
        invariant Valid() && lo <= p <= hi && (hi - p) % 2 == 0
        invariant MovedDown(old(image), image, lo, p)
      {
        var s := Read(p + 2, 2);
        Write(p, s);
        p := p + 2;
      }
    }

    /** Write the key, the second word and the data of a cell at `o`, and `o` in the slot at `p`. */
    method WriteCell(o: nat, c: Bytes, p: nat)
      requires Valid() && p + 2 <= PAGE_SIZE && 8 <= |c| && o + |c| <= PAGE_SIZE
      modifies this, bytes
      ensures Valid() && image == Written(old(image), o, c, p)
    {
      OverParts(image, o, c);
      Write(o, c[..4]);
      Write(o + 4, c[4..8]);
      Write(o + 8, c[8..]);
      Write(p, Le16(o));
    }
  }

  /** The cell at `o`, and then `o` in the slot at `p`. */
  function Written(b: Bytes, o: nat, c: Bytes, p: nat): (b': Bytes)
    requires |b| == PAGE_SIZE && o + |c| <= |b| && p + 2 <= |b|
  {
    Over(Over(b, o, c), p, Le16(o))
  }

  lemma OverParts(b: Bytes, o: nat, c: Bytes)
    requires |c| >= 8 && o + |c| <= |b|
    ensures Over(Over(Over(b, o, c[..4]), o + 4, c[4..8]), o + 8, c[8..]) == Over(b, o, c)
  {
    var b1 := Over(b, o, c[..4]);
    var b2 := Over(b1, o + 4, c[4..8]);
    var b3, b4 := Over(b2, o + 8, c[8..]), Over(b, o, c);
    forall x | 0 <= x < |b| ensures b3[x] == b4[x] {
      assert b3[x] == if o + 8 <= x < o + |c| then c[x - o] else b2[x];
      assert b2[x] == if o + 4 <= x < o + 8 then c[x - o] else b1[x];
    }
  }

  /** Where the slot lies in front of the cell, both are in place and nothing else changes. */
  lemma WrittenOk(b: Bytes, o: nat, c: Bytes, p: nat)
    requires |b| == PAGE_SIZE && p + 2 <= o && o + |c| <= |b|
    ensures CellWritten(b, Written(b, o, c, p), o, c, p)
  {
    var b1, b2 := Over(b, o, c), Written(b, o, c, p);
    Le16RoundTrip(o);
    assert b2[p] == Le16(o)[0] && b2[p + 1] == Le16(o)[1];
    forall x | 0 <= x < |b| && !(p <= x < p + 2) ensures b2[x] == b1[x] {}
    assert b2[o..o + |c|] == c;
  }

  /** The bytes in [lo, hi) moved up by two. */
  function Raised(b: Bytes, lo: nat, hi: nat): (b': Bytes)
    requires lo <= hi && hi + 2 <= |b|
    ensures |b'| == |b|
  {
    seq(|b|, x requires 0 <= x < |b| => if lo + 2 <= x < hi + 2 then b[x - 2] else b[x])
  }

  lemma MovedUpIs(b: Bytes, b': Bytes, lo: nat, hi: nat)
    requires MovedUp(b, b', lo, hi) && lo <= hi
    ensures b' == Raised(b, lo, hi)
  {
  }

  /** What storing a cell does to the bytes of a page with n cells, room or no room. */
  function Put(b: Bytes, n: nat, k: nat, o: nat, c: Bytes): Bytes
    requires |b| == PAGE_SIZE && k <= n && HEADER_SIZE + 2 * n + 2 <= |b| && o + |c| <= |b|
  {
    Written(Raised(b, HEADER_SIZE + 2 * k, HEADER_SIZE + 2 * n), o, c, HEADER_SIZE + 2 * k)
  }

  lemma PutFits(b: Bytes, n: nat, k: nat, o: nat, c: Bytes)
    requires |b| == PAGE_SIZE && k <= n && HEADER_SIZE + 2 * n + 2 <= o && o + |c| <= |b|
    ensures var lo, hi := HEADER_SIZE + 2 * k, HEADER_SIZE + 2 * n;
            MovedUp(b, Raised(b, lo, hi), lo, hi) && CellWritten(Raised(b, lo, hi), Put(b, n, k, o, c), o, c, lo)
  {
    WrittenOk(Raised(b, HEADER_SIZE + 2 * k, HEADER_SIZE + 2 * n), o, c, HEADER_SIZE + 2 * k);
  }

  /** When the cell fits but its pointer does not, one or two bytes belong to both.  The pointer of a
      cell put last is written over the first bytes of the cell, its key; the pointer of the old last
      cell is overwritten by the first bytes of a cell put anywhere before it. */
  lemma PointerOverCell(b: Bytes, n: nat, k: nat, o: nat, c: Bytes)
    requires |b| == PAGE_SIZE && |c| >= 8 && k <= n && o + |c| <= |b|
    requires HEADER_SIZE + 2 * n <= o < HEADER_SIZE + 2 * n + 2
    ensures var b' := Put(b, n, k, o, c);
            && U16(b', HEADER_SIZE + 2 * k) == o
            && forall x :: o <= x < HEADER_SIZE + 2 * n + 2 ==>
                 b'[x] == if k == n then Le16(o)[x - HEADER_SIZE - 2 * n] else c[x - o]
  {
    Le16RoundTrip(o);
    var b', p := Put(b, n, k, o, c), HEADER_SIZE + 2 * k;
    assert b'[p] == Le16(o)[0] && b'[p + 1] == Le16(o)[1];
  }

  /** It does happen: a cell with key 5 that fills an empty page is read back with key 12. */
  lemma FullPageLosesKey(b: Bytes, data: Data)
    requires |b| == PAGE_SIZE && |data| == PAGE_SIZE - HEADER_SIZE - 8
    ensures var c := Encode(5, |data|, data);
            |c| == PAGE_SIZE - HEADER_SIZE && KeyOf(c) == 5 && U32(Put(b, 0, 0, HEADER_SIZE, c), HEADER_SIZE) == 12
  {
    var c := Encode(5, |data|, data);
    EncodeDecode(5, |data|, data);
    var b' := Put(b, 0, 0, HEADER_SIZE, c);
    assert b'[HEADER_SIZE] == 12 && b'[HEADER_SIZE + 1] == 0;
    assert b'[HEADER_SIZE + 2] == c[2] && b'[HEADER_SIZE + 3] == c[3];
  }

  // ----- the page

  /** The one-byte fragment counter holds the garbage modulo 256: it wrapped `wraps` times. */
  ghost predicate FragOk(frag: Byte, garbage: nat, wraps: nat) {
    garbage == (frag as int) + 256 * wraps
  }

  /** Everything a page stands for: its bytes and header, the cells with their offsets, and
      the bytes of the cell area that no cell uses. */
  datatype View = View(b: Bytes, leaf: bool, first: nat, frag: Byte, offs: seq<nat>, cells: seq<Bytes>,
                       garbage: nat, wraps: nat)

  /** The cell area is exactly the cells plus the garbage. */
  ghost predicate Accounted(v: View) {
    PAGE_SIZE - v.first == Total(v.cells) + v.garbage && FragOk(v.frag, v.garbage, v.wraps)
  }

  ghost predicate Ok(v: View) {
    Layout(v.b, v.leaf, v.first, v.offs, v.cells) && Accounted(v)
  }

  ghost function EmptyView(): View {
    View(seq(PAGE_SIZE, _ => 0), true, PAGE_SIZE, 0, [], [], 0, 0)
  }

  type GoodView = v: View | Ok(v) ghost witness EmptyView()

  /** A page without cells, whatever its bytes are. */
  ghost function Blank(b: Bytes, leaf: bool): (v: GoodView)
    requires |b| == PAGE_SIZE
    ensures v.b == b && v.leaf == leaf && v.first == PAGE_SIZE && v.frag == 0 && v.cells == [] && v.garbage == 0
  {
    View(b, leaf, PAGE_SIZE, 0, [], [], 0, 0)
  }

  ghost function Store(v: View, b2: Bytes, k: nat, c: Bytes): View
    requires k <= |v.cells| && |c| <= v.first && |v.offs| == |v.cells|
  {
    v.(b := b2, first := v.first - |c|, offs := At(v.offs, k, v.first - |c|), cells := At(v.cells, k, c))
  }

  lemma StoreOk(v: GoodView, b1: Bytes, b2: Bytes, k: nat, c: Bytes) returns (v': GoodView)
    requires k <= |v.cells| && WellFormed(c, v.leaf) && HEADER_SIZE + 2 * |v.cells| + 2 + |c| <= v.first
    requires MovedUp(v.b, b1, HEADER_SIZE + 2 * k, HEADER_SIZE + 2 * |v.cells|)
    requires CellWritten(b1, b2, v.first - |c|, c, HEADER_SIZE + 2 * k)
    ensures v'.b == b2 && v'.leaf == v.leaf && v'.first == v.first - |c| && v'.frag == v.frag
    ensures v'.cells == At(v.cells, k, c) && v'.garbage == v.garbage
  {
    InsertRefines(v.b, b1, b2, v.leaf, v.first, v.offs, v.cells, k, c);
    TotalAt(v.cells, k, c);
    v' := Store(v, b2, k, c);
  }

  ghost function Remove(v: View, b': Bytes, k: nat, frag': Byte, w: nat): View
    requires k < |v.cells| && |v.offs| == |v.cells|
  {
    v.(b := b', offs := Without(v.offs, k), cells := Without(v.cells, k), frag := frag',
       garbage := v.garbage + |v.cells[k]|, wraps := v.wraps + w)
  }

  lemma RemoveOk(v: GoodView, b': Bytes, k: nat, frag': Byte, w: nat) returns (v': GoodView)
    requires k < |v.cells| && (v.frag as int) + |v.cells[k]| == (frag' as int) + 256 * w
    requires MovedDown(v.b, b', HEADER_SIZE + 2 * k, HEADER_SIZE + 2 * |v.cells|)
    ensures v'.b == b' && v'.leaf == v.leaf && v'.first == v.first && v'.frag == frag'
    ensures v'.cells == Without(v.cells, k) && v'.garbage == v.garbage + |v.cells[k]|
  {
    RemoveRefines(v.b, b', v.leaf, v.first, v.offs, v.cells, k);
    TotalWithout(v.cells, k);
    v' := Remove(v, b', k, frag', w);
  }

  lemma CellBounds(v: GoodView, k: nat)
    requires k < |v.cells|
    ensures WellFormed(v.cells[k], v.leaf) && v.first + 8 <= PAGE_SIZE
    ensures HEADER_SIZE + 2 * k + 2 <= PAGE_SIZE && |v.offs| == |v.cells|
    ensures Slot(v.b, k, v.offs[k]) && Stored(v.b, v.offs[k], v.cells[k])
  {
    assert CellAt(v.b, v.leaf, v.first, v.offs, v.cells, k);
  }

  /** Interior pages hold at most ORDER cells of 8 bytes; since clean-up runs before the next
      insert once more than 64 bytes are garbage, live and dead cells together stay within
      144 bytes, far below the size of a page and of the one-byte counter. */
  ghost predicate InBudget(v: View) {
    !v.leaf && |v.cells| <= ORDER && v.garbage + 8 * |v.cells| <= 144
  }

  /** Bytes between the pointers to some cells and a cell area that starts at `first`. */
  ghost function Room(cells: seq<Bytes>, first: int): int {
    first - HEADER_SIZE - 2 * |cells|
  }

  /** The garbage left when spaceCheck has looked at the counter, which is one byte wide. */
  function Checked(garbage: nat): nat {
    if garbage % 256 > 64 then 0 else garbage
  }

  /** What a page holds, bytes and header fields aside. */
  datatype PageRec = PageRec(leaf: bool, cells: seq<Bytes>, garbage: nat, right: Key)

  /** What an operation on a page comes to: the page afterwards, the exit of spaceCheck, or a pointer
      over a cell. */
  datatype Turn = Done(page: PageRec) | Exits | Overruns

  ghost function SpaceOf(p: PageRec): int {
    Room(p.cells, PAGE_SIZE - Total(p.cells) - Checked(p.garbage))
  }

  ghost function PutCell(p: PageRec, k: nat, c: Bytes): Turn
    requires k <= |p.cells|
  {
    if |c| > SpaceOf(p) then Exits
    else if |c| + 2 > SpaceOf(p) then Overruns
    else Done(p.(cells := At(p.cells, k, c), garbage := Checked(p.garbage)))
  }

  /** insertLeafCell: the space check comes before the test for a duplicate. */
  ghost function LeafPut(p: PageRec, k: Key, data: Data): Turn
    requires KeysSorted(p.cells) && |data| < 0x1_0000_0000
  {
    if 8 + |data| > SpaceOf(p) then Exits
    else if HasRawKey(p.cells, k) then Done(p.(garbage := Checked(p.garbage)))
    else PutCell(p, LeafSlot(p.cells, k), Encode(k, |data|, data))
  }

  /** insertIntCell. */
  ghost function IntPut(p: PageRec, k: Key, child: Key): Turn
    requires KeysSorted(p.cells)
  {
    PutCell(p, IntSlot(p.cells, k), Encode(k, child, []))
  }

  /** removeKthLeafCell, removeKthIntCell. */
  ghost function CutCell(p: PageRec, k: nat): PageRec
    requires k < |p.cells|
  {
    p.(cells := Without(p.cells, k), garbage := p.garbage + |p.cells[k]|)
  }

  lemma SpaceIs(v: GoodView, right: Key)
    ensures SpaceOf(PageRec(v.leaf, v.cells, v.garbage, right))
         == Room(v.cells, if v.frag > 64 then PAGE_SIZE - Total(v.cells) else v.first)
    ensures Checked(v.garbage) == if v.frag > 64 then 0 else v.garbage
  {
    assert v.garbage % 256 == v.frag;
  }

  class Page {
    const buf: Buffer
    var isLeaf: bool
    var cellSize: nat
    var firstCellPos: nat
    var fragSize: Byte
    var rightChild: Key
    ghost var view: GoodView

    ghost predicate Valid()
      reads this, buf, buf.bytes
    {
      && buf.Valid() && view.b == buf.image && view.leaf == isLeaf
      && view.first == firstCellPos && view.frag == fragSize && |view.cells| == cellSize
    }

    ghost function Rec(): PageRec reads this { PageRec(isLeaf, view.cells, view.garbage, rightChild) }

    /** getLeafNode, getIntNode. */
    constructor (leaf: bool)
      ensures Valid() && fresh(buf) && fresh(buf.bytes)
      ensures isLeaf == leaf && view.cells == [] && view.garbage == 0 && rightChild == 0
    {
      buf := new Buffer();
      isLeaf, cellSize, firstCellPos, fragSize, rightChild := leaf, 0, PAGE_SIZE, 0, 0;
      view := Blank(seq(PAGE_SIZE, _ => 0), leaf);
      new;
      view := Blank(buf.image, leaf);
    }

    /** getKthLeafCell and getKthIntCell. */
    method GetKth(kth: nat) returns (key: Key, word: Key, data: Data)
      requires Valid() && kth < cellSize
      ensures WellFormed(view.cells[kth], isLeaf)
      ensures key == U32(view.cells[kth], 0) && word == U32(view.cells[kth], 4) && data == view.cells[kth][8..]
    {
      ghost var b, c := buf.image, view.cells[kth];
      CellBounds(view, kth);
      var o := U16(buf.bytes[..], HEADER_SIZE + 2 * kth);
      U32Shift(b, o, |c|, 0);
      U32Shift(b, o, |c|, 4);
      key, word := U32(buf.bytes[..], o), U32(buf.bytes[..], o + 4);
      data := [];
      if isLeaf { data := buf.Read(o + 8, word); }
      assert c[8..] == b[o + 8..o + |c|];
    }

    /** Bytes between the pointer array and the cell area. */
    function Free(): int
      reads this
    {
      firstCellPos - HEADER_SIZE - 2 * cellSize
    }

    /** The storing half of insertLeafCell and insertIntCell.  The caller's space check counts
        the cell but not its 2-byte pointer: the page stays well formed exactly when the
        pointer fits as well, and otherwise the pointer array runs into the cell area. */
    method StoreCell(kth: nat, c: Bytes)
      requires Valid() && kth <= cellSize && WellFormed(c, isLeaf) && |c| <= Free()
      modifies this, buf, buf.bytes
      ensures isLeaf == old(isLeaf) && cellSize == old(cellSize) + 1 && firstCellPos == old(firstCellPos) - |c|
      ensures 0 <= Free() <==> |c| + 2 <= old(Free())
      ensures buf.Valid() && buf.image == Put(old(buf.image), old(cellSize), kth, firstCellPos, c)
      ensures 0 <= Free() ==>
                Valid() && view.cells == At(old(view.cells), kth, c) && view.garbage == old(view.garbage)
      ensures fragSize == old(fragSize) && rightChild == old(rightChild)
    {
      ghost var b, n := buf.image, cellSize;
      StoreBytes(kth, c);
      if |c| + 2 <= old(Free()) {
        PutFits(b, n, kth, firstCellPos, c);
        view := StoreOk(view, Raised(b, HEADER_SIZE + 2 * kth, HEADER_SIZE + 2 * n), buf.image, kth, c);
      }
    }

    /** The pointers from kth on move up, then the cell and its pointer are written. */
    method StoreBytes(kth: nat, c: Bytes)
      requires buf.Valid() && kth <= cellSize && HEADER_SIZE + 2 * cellSize + 2 <= PAGE_SIZE
      requires 8 <= |c| <= firstCellPos <= PAGE_SIZE
      modifies this`firstCellPos, this`cellSize, buf, buf.bytes
      ensures cellSize == old(cellSize) + 1 && firstCellPos == old(firstCellPos) - |c|
      ensures buf.Valid() && buf.image == Put(old(buf.image), old(cellSize), kth, firstCellPos, c)
    {
      ghost var b := buf.image;
      buf.ShiftUp(HEADER_SIZE + 2 * kth, HEADER_SIZE + 2 * cellSize);
      MovedUpIs(b, buf.image, HEADER_SIZE + 2 * kth, HEADER_SIZE + 2 * cellSize);
      firstCellPos := firstCellPos - |c|;
      buf.WriteCell(firstCellPos, c, HEADER_SIZE + 2 * kth);
      cellSize := cellSize + 1;
    }

    /** The counter is one byte wide and wraps. */
    method AddFragments(more: nat) returns (ghost w: nat)
      modifies this`fragSize
      ensures (old(fragSize) as int) + more == (fragSize as int) + 256 * w
    {
      w := ((fragSize as int) + more) / 256;
      fragSize := ((fragSize as int) + more) % 256;
    }

    /** removeKthLeafCell, removeKthIntCell: the cell's bytes become garbage. */
    method RemoveKth(kth: nat)
      requires Valid() && kth < cellSize
      modifies this, buf, buf.bytes
      ensures Valid() && isLeaf == old(isLeaf) && firstCellPos == old(firstCellPos)
      ensures view.cells == Without(old(view.cells), kth)
      ensures view.garbage == old(view.garbage) + |old(view.cells)[kth]| && Rec() == CutCell(old(Rec()), kth)
      ensures rightChild == old(rightChild) && (old(InBudget(view)) ==> InBudget(view))
    {
      var key, word, data := GetKth(kth);
      CellBounds(view, kth);
      ghost var w := CutPointer(kth, 8 + |data|);
      view := RemoveOk(view, buf.image, kth, fragSize, w);
    }

    /** The pointers behind the kth move down, and the counter goes up. */
    method CutPointer(kth: nat, size: nat) returns (ghost w: nat)
      requires buf.Valid() && kth < cellSize && HEADER_SIZE + 2 * cellSize + 2 <= PAGE_SIZE
      modifies this`cellSize, this`fragSize, buf, buf.bytes
      ensures buf.Valid() && cellSize == old(cellSize) - 1
      ensures MovedDown(old(buf.image), buf.image, HEADER_SIZE + 2 * kth, HEADER_SIZE + 2 * old(cellSize))
      ensures (old(fragSize) as int) + size == (fragSize as int) + 256 * w
    {
      buf.ShiftDown(HEADER_SIZE + 2 * kth, HEADER_SIZE + 2 * cellSize);
      cellSize := cellSize - 1;
      w := AddFragments(size);
    }

    /** Free() as spaceCheck will find it: clean-up runs first when the counter exceeds 64. */
    ghost function FreeChecked(): int
      reads this
    {
      if fragSize > 64 then Room(view.cells, PAGE_SIZE - Total(view.cells)) else Free()
    }

    /** spaceCheck; `ok` is false where the program exits. */
    method SpaceCheck(size: nat) returns (ok: bool)
      requires Valid() && KeysSorted(view.cells)
      modifies this, buf, buf.bytes
      ensures Valid() && isLeaf == old(isLeaf) && view.cells == old(view.cells) && rightChild == old(rightChild)
      ensures view.garbage == if old(fragSize) > 64 then 0 else old(view.garbage)
      ensures Free() == old(FreeChecked()) && (ok <==> size <= Free())
      ensures fragSize == if old(fragSize) > 64 then 0 else old(fragSize)
      decreases fragSize > 64, 1
    {
      if fragSize > 64 {
        SpaceCleanUp();
      }
      ok := size <= Free();
    }

    /** spaceCleanUp: re-insert every cell into an empty page and copy it over.  The cells stay
        as they are and the cell area ends up packed. */
    method SpaceCleanUp()
      requires Valid() && KeysSorted(view.cells) && fragSize > 64
      modifies this, buf, buf.bytes
      ensures Valid() && isLeaf == old(isLeaf) && view.cells == old(view.cells) && rightChild == old(rightChild)
      ensures view.garbage == 0 && fragSize == 0 && firstCellPos == PAGE_SIZE - Total(view.cells)
      decreases true, 0
    {
      var temp := Rebuild();
      buf.Write(0, temp.buf.bytes[..]);
      cellSize, firstCellPos, fragSize := temp.cellSize, temp.firstCellPos, temp.fragSize;
      view := temp.view;
    }

    /** The loop of spaceCleanUp. */
    method Rebuild() returns (temp: Page)
      requires Valid() && KeysSorted(view.cells)
      ensures fresh(temp) && fresh(temp.buf) && fresh(temp.buf.bytes) && temp.Valid()
      ensures temp.isLeaf == isLeaf && temp.view.cells == view.cells && temp.fragSize == 0 && temp.view.garbage == 0
      decreases false, 4
    {
      temp := new Page(isLeaf);
      var i := 0;
      while i < cellSize
        invariant 0 <= i <= cellSize && temp.Valid() && fresh(temp) && fresh(temp.buf) && fresh(temp.buf.bytes)
        invariant temp.isLeaf == isLeaf && temp.view.cells == view.cells[..i]
        invariant temp.fragSize == 0 && temp.view.garbage == 0
      {
        RebuildStep(temp, i);
        i := i + 1;
      }
      assert view.cells[..i] == view.cells;
    }

    method RebuildStep(temp: Page, i: nat)
      requires Valid() && KeysSorted(view.cells) && i < cellSize
      requires temp.Valid() && temp != this && temp.buf != buf && temp.buf.bytes != buf.bytes
      requires temp.isLeaf == isLeaf && temp.view.cells == view.cells[..i]
      requires temp.fragSize == 0 && temp.view.garbage == 0
      modifies temp, temp.buf, temp.buf.bytes
      ensures temp.Valid() && temp.isLeaf == isLeaf && temp.view.cells == view.cells[..i + 1]
      ensures temp.fragSize == 0 && temp.view.garbage == 0
      decreases false, 3
    {
      var key, word, data := GetKth(i);
      RoomToRebuild(view, temp.view, i);
      Reappend(view.cells, i, isLeaf, key, word, data);
      if isLeaf {
        var _ := temp.InsertLeafCell(key, data);
      } else {
        var _ := temp.InsertIntCell(key, word);
      }
    }

    /** The scan of insertLeafCell. */
    method FindLeafSlot(k: Key) returns (kth: nat, dup: bool)
      requires Valid() && KeysSorted(view.cells)
      ensures dup <==> HasRawKey(view.cells, k)
      ensures kth == LeafSlot(view.cells, k)
    {
      kth := 0;
      while kth < cellSize
        invariant 0 <= kth <= cellSize
        invariant forall i :: 0 <= i < kth ==> KeyOf(view.cells[i]) < k
      {
        var key, word, data := GetKth(kth);
        if key == k { return kth, true; }
        if key > k { return kth, false; }
        kth := kth + 1;
      }
      dup := false;
    }

    /** The scan of insertIntCell. */
    method FindIntSlot(k: Key) returns (kth: nat)
      requires Valid() && KeysSorted(view.cells)
      ensures kth == IntSlot(view.cells, k)
    {
      kth := 0;
      while kth < cellSize
        invariant 0 <= kth <= cellSize
        invariant forall i :: 0 <= i < kth ==> KeyOf(view.cells[i]) <= k
      {
        var key, word, data := GetKth(kth);
        if key > k { return; }
        kth := kth + 1;
      }
    }

    /** insertLeafCell.  The program exits when the cell does not fit (OutOfSpace); otherwise a
        duplicate key is refused, and a new one is put where the key order wants it. */
    method InsertLeafCell(k: Key, data: Data) returns (r: InsertResult)
      requires Valid() && isLeaf && KeysSorted(view.cells) && |data| < 0x1_0000_0000
      modifies this, buf, buf.bytes
      ensures isLeaf && rightChild == old(rightChild) && (old(fragSize) == 0 ==> fragSize == 0)
      ensures r.OutOfSpace? <==> old(FreeChecked()) < 8 + |data|
      ensures !r.OutOfSpace? ==> (r.Duplicate? <==> HasRawKey(old(view.cells), k))
      ensures !r.Inserted? ==> Valid() && view.cells == old(view.cells)
      ensures !r.Inserted? ==> view.garbage == (if old(fragSize) > 64 then 0 else old(view.garbage))
      ensures r.Inserted? ==> (0 <= Free() <==> 8 + |data| + 2 <= old(FreeChecked()))
      ensures r.Inserted? && 0 <= Free() ==>
                && Valid()
                && view.cells == At(old(view.cells), LeafSlot(old(view.cells), k), Encode(k, |data|, data))
                && view.garbage == (if old(fragSize) > 64 then 0 else old(view.garbage))
      decreases fragSize > 64, 2
    {
      var ok := SpaceCheck(8 + |data|);
      if !ok { return OutOfSpace; }
      var kth, dup := FindLeafSlot(k);
      if dup { return Duplicate; }
      EncodeDecode(k, |data|, data);
      StoreCell(kth, Encode(k, |data|, data));
      r := Inserted;
    }

    /** insertLeafCell, told by what the page holds. */
    method PutLeaf(k: Key, data: Data) returns (r: InsertResult)
      requires Valid() && isLeaf && KeysSorted(view.cells) && |data| < 0x1_0000_0000
      modifies this, buf, buf.bytes
      ensures match LeafPut(old(Rec()), k, data)
              case Exits => r.OutOfSpace?
              case Overruns => r.Inserted? && Free() < 0
              case Done(p) => !r.OutOfSpace? && Valid() && Rec() == p
    {
      SpaceIs(view, rightChild);
      r := InsertLeafCell(k, data);
    }

    /** insertIntCell, told by what the page holds. */
    method PutInt(k: Key, child: Key) returns (r: InsertResult)
      requires Valid() && !isLeaf && KeysSorted(view.cells)
      modifies this, buf, buf.bytes
      ensures match IntPut(old(Rec()), k, child)
              case Exits => r.OutOfSpace?
              case Overruns => r.Inserted? && Free() < 0
              case Done(p) => r.Inserted? && Valid() && Rec() == p
    {
      SpaceIs(view, rightChild);
      r := InsertIntCell(k, child);
    }

    /** insertIntCell. */
    method InsertIntCell(k: Key, child: Key) returns (r: InsertResult)
      requires Valid() && !isLeaf && KeysSorted(view.cells)
      modifies this, buf, buf.bytes
      ensures !isLeaf && rightChild == old(rightChild) && (old(fragSize) == 0 ==> fragSize == 0)
      ensures r.OutOfSpace? <==> old(FreeChecked()) < 8
      ensures !r.Duplicate?
      ensures r.OutOfSpace? ==> Valid() && view.cells == old(view.cells)
      ensures r.Inserted? ==> (0 <= Free() <==> 8 + 2 <= old(FreeChecked()))
      ensures r.Inserted? && 0 <= Free() ==>
                && Valid()
                && view.cells == At(old(view.cells), IntSlot(old(view.cells), k), Encode(k, child, []))
                && view.garbage == (if old(fragSize) > 64 then 0 else old(view.garbage))
      ensures old(InBudget(view)) && old(cellSize) < ORDER ==> r.Inserted? && 0 <= Free() && InBudget(view)
      decreases fragSize > 64, 2
    {
      ghost var v := view;
      BudgetRoom(v);
      var ok := SpaceCheck(8);
      if !ok { return OutOfSpace; }
      var kth := FindIntSlot(k);
      EncodeDecode(k, child, []);
      StoreCell(kth, Encode(k, child, []));
      r := Inserted;
    }
  }

  datatype InsertResult = Inserted | Duplicate | OutOfSpace

  // ----- the order of the cells

  ghost predicate KeysSorted(cs: seq<Bytes>) {
    && (forall i :: 0 <= i < |cs| ==> |cs[i]| >= 8)
    && (forall i, j :: 0 <= i < j < |cs| ==> KeyOf(cs[i]) < KeyOf(cs[j]))
  }

  ghost predicate HasRawKey(cs: seq<Bytes>, k: Key)
    requires forall i :: 0 <= i < |cs| ==> |cs[i]| >= 8
  {
    exists i :: 0 <= i < |cs| && KeyOf(cs[i]) == k
  }

  /** First cell with a key not below `k`. */
  ghost function LeafSlot(cs: seq<Bytes>, k: Key): (j: nat)
    requires KeysSorted(cs)
    ensures j <= |cs| && (j < |cs| ==> k <= KeyOf(cs[j])) && forall i :: 0 <= i < j ==> KeyOf(cs[i]) < k
  {
    if cs == [] then 0 else if KeyOf(cs[|cs| - 1]) < k then |cs| else LeafSlot(cs[..|cs| - 1], k)
  }

  /** First cell with a key above `k`. */
  ghost function IntSlot(cs: seq<Bytes>, k: Key): (j: nat)
    requires KeysSorted(cs)
    ensures j <= |cs| && (j < |cs| ==> k < KeyOf(cs[j])) && forall i :: 0 <= i < j ==> KeyOf(cs[i]) <= k
  {
    if cs == [] then 0 else if KeyOf(cs[|cs| - 1]) <= k then |cs| else IntSlot(cs[..|cs| - 1], k)
  }

  /** Re-encoding what was read from a cell gives the cell. */
  lemma DecodeEncode(c: Bytes, leaf: bool)
    requires WellFormed(c, leaf)
    ensures Encode(U32(c, 0), U32(c, 4), c[8..]) == c
  {
    Le32Of(c, 0);
    Le32Of(c, 4);
    assert c == c[0..4] + c[4..8] + c[8..];
  }

  lemma Le32Of(b: Bytes, o: nat)
    requires o + 4 <= |b|
    ensures Le32(U32(b, o)) == b[o..o + 4]
  {
    var n := U32(b, o);
    assert n / 256 == (b[o + 1] as int) + 256 * (b[o + 2] as int) + 65536 * (b[o + 3] as int);
    assert n / 256 / 256 == (b[o + 2] as int) + 256 * (b[o + 3] as int);
    assert n / 256 / 256 / 256 == b[o + 3];
  }

  /** A sorted prefix extended by the next cell, as clean-up does it. */
  lemma Reappend(cs: seq<Bytes>, i: nat, leaf: bool, key: Key, word: Key, data: Data)
    requires KeysSorted(cs) && i < |cs| && WellFormed(cs[i], leaf)
    requires key == U32(cs[i], 0) && word == U32(cs[i], 4) && data == cs[i][8..]
    ensures if leaf then word == |data| else data == []
    ensures KeysSorted(cs[..i]) && !HasRawKey(cs[..i], key)
    ensures LeafSlot(cs[..i], key) == i == IntSlot(cs[..i], key)
    ensures |Encode(key, word, data)| == |cs[i]| && At(cs[..i], i, Encode(key, word, data)) == cs[..i + 1]
  {
    DecodeEncode(cs[i], leaf);
  }

  /** Everything a well-formed page holds fits into an empty page, pointers included. */
  lemma RoomToRebuild(v: GoodView, t: GoodView, i: nat)
    requires i < |v.cells| && t.cells == v.cells[..i] && t.garbage == 0
    ensures |v.cells[i]| + 2 <= t.first - HEADER_SIZE - 2 * i
  {
    assert v.cells == v.cells[..i] + v.cells[i..];
    TotalConcat(v.cells[..i], v.cells[i..]);
    assert Total(v.cells[i..]) == |v.cells[i]| + Total(v.cells[i..][1..]);
  }

  lemma {:induction false} TotalInterior(cs: seq<Bytes>)
    requires forall i :: 0 <= i < |cs| ==> |cs[i]| == 8
    ensures Total(cs) == 8 * |cs|
  {
    if cs != [] {
      TotalInterior(cs[1..]);
    }
  }

  /** An interior page within its budget has room for a cell and its pointer, cleaned or not,
      and is within it still when the cell is added. */
  lemma BudgetRoom(v: GoodView)
    ensures InBudget(v) ==> v.frag == v.garbage
    ensures InBudget(v) ==> 10 <= Room(v.cells, v.first) && 10 <= Room(v.cells, PAGE_SIZE - Total(v.cells))
    ensures InBudget(v) && v.frag <= 64 && |v.cells| < ORDER ==> v.garbage + 8 * |v.cells| + 8 <= 144
  {
    if InBudget(v) {
      forall i: nat | i < |v.cells| ensures |v.cells[i]| == 8 {
        CellBounds(v, i);
      }
      TotalInterior(v.cells);
      assert PAGE_SIZE - v.first == 8 * |v.cells| + v.garbage;
    }
  }

  // ----- the cells as the tree sees them

  ghost function LeafView(cs: seq<Bytes>): (s: seq<Cell>)
    requires KeysSorted(cs)
    ensures |s| == |cs| && forall i :: 0 <= i < |cs| ==> s[i] == Cell(KeyOf(cs[i]), cs[i][8..])
  {
    seq(|cs|, i requires 0 <= i < |cs| && |cs[i]| >= 8 => Cell(KeyOf(cs[i]), cs[i][8..]))
  }

  ghost function IntView(cs: seq<Bytes>): (s: seq<BTreeNodes.IntCell>)
    requires KeysSorted(cs)
    ensures |s| == |cs| && forall i :: 0 <= i < |cs| ==> s[i] == BTreeNodes.IntCell(KeyOf(cs[i]), U32(cs[i], 4))
  {
    seq(|cs|, i requires 0 <= i < |cs| && |cs[i]| >= 8 => BTreeNodes.IntCell(KeyOf(cs[i]), U32(cs[i], 4)))
  }

  lemma KeysSortedAt(cs: seq<Bytes>, j: nat, c: Bytes)
    requires KeysSorted(cs) && |c| >= 8 && j <= |cs|
    requires forall i :: 0 <= i < j ==> KeyOf(cs[i]) < KeyOf(c)
    requires forall i :: j <= i < |cs| ==> KeyOf(c) < KeyOf(cs[i])
    ensures KeysSorted(At(cs, j, c))
  {
  }

  /** insertLeafCell on the bytes is InsertCell on the cells. */
  lemma LeafInsertRefines(cs: seq<Bytes>, k: Key, data: Data)
    requires KeysSorted(cs) && !HasRawKey(cs, k) && |data| < 0x1_0000_0000
    ensures var cs' := At(cs, LeafSlot(cs, k), Encode(k, |data|, data));
            KeysSorted(cs') && LeafView(cs') == InsertCell(LeafView(cs), Cell(k, data))
  {
    var j, c := LeafSlot(cs, k), Encode(k, |data|, data);
    EncodeDecode(k, |data|, data);
    assert j < |cs| ==> KeyOf(cs[j]) != k;
    KeysSortedAt(cs, j, c);
    assert CellIndex(LeafView(cs), k) == j;
    LeafViewAt(cs, j, c, k, data);
  }

  lemma {:induction false} LeafViewAt(cs: seq<Bytes>, j: nat, c: Bytes, k: Key, data: Data)
    requires KeysSorted(cs) && j <= |cs| && KeysSorted(At(cs, j, c))
    requires |c| >= 8 && KeyOf(c) == k && c[8..] == data
    ensures LeafView(At(cs, j, c)) == LeafView(cs)[..j] + [Cell(k, data)] + LeafView(cs)[j..]
  {
    var s, s' := LeafView(cs), LeafView(At(cs, j, c));
    forall i | 0 <= i <= |cs| ensures s'[i] == (s[..j] + [Cell(k, data)] + s[j..])[i] {}
  }

  lemma {:induction false} IntInsertRefines(cs: seq<Bytes>, k: Key, child: Key)
    requires KeysSorted(cs) && !HasRawKey(cs, k)
    ensures var cs' := At(cs, IntSlot(cs, k), Encode(k, child, []));
            && KeysSorted(cs')
            && IntView(cs') == BTreeNodes.WithIntCell(IntView(cs), BTreeNodes.IntCell(k, child))
  {
    var j, c := IntSlot(cs, k), Encode(k, child, []);
    EncodeDecode(k, child, []);
    assert forall i :: 0 <= i < |cs| ==> KeyOf(cs[i]) != k;
    KeysSortedAt(cs, j, c);
    BTreeNodes.SlotUnique(IntView(cs), k, j);
    IntViewAt(cs, j, c, k, child);
  }

  lemma {:induction false} IntViewAt(cs: seq<Bytes>, j: nat, c: Bytes, k: Key, child: Key)
    requires KeysSorted(cs) && j <= |cs| && KeysSorted(At(cs, j, c))
    requires |c| >= 8 && KeyOf(c) == k && U32(c, 4) == child
    ensures IntView(At(cs, j, c)) == IntView(cs)[..j] + [BTreeNodes.IntCell(k, child)] + IntView(cs)[j..]
  {
    var s, s' := IntView(cs), IntView(At(cs, j, c));
    forall i | 0 <= i <= |cs| ensures s'[i] == (s[..j] + [BTreeNodes.IntCell(k, child)] + s[j..])[i] {}
  }

  /** removeKth on the bytes drops the cell from the cells. */
  lemma {:induction false} RemoveViewRefines(cs: seq<Bytes>, k: nat)
    requires KeysSorted(cs) && k < |cs|
    ensures KeysSorted(Without(cs, k))
    ensures LeafView(Without(cs, k)) == LeafView(cs)[..k] + LeafView(cs)[k + 1..]
    ensures IntView(Without(cs, k)) == IntView(cs)[..k] + IntView(cs)[k + 1..]
  {
    var cs' := Without(cs, k);
    assert KeysSorted(cs');
    var l, l', n, n' := LeafView(cs), LeafView(cs'), IntView(cs), IntView(cs');
    forall i | 0 <= i < |cs'| ensures l'[i] == (l[..k] + l[k + 1..])[i] && n'[i] == (n[..k] + n[k + 1..])[i] {
      assert cs'[i] == cs[if i < k then i else i + 1];
    }
  }
}
