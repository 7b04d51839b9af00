/** The tree of `BTreeSpec` refines a finite map, stays ordered and balanced under every
    run of inserts, and grows only logarithmically deep. */
module BTreeProofs {
  import opened BTreeSpec

  // ----- flattening

  lemma Associative(a: seq<Cell>, b: seq<Cell>, c: seq<Cell>)
    ensures (a + b) + c == a + (b + c)
  {
  }

  lemma {:induction false} FlatAllConcat(a: seq<Tree>, b: seq<Tree>)
    ensures FlatAll(a + b) == FlatAll(a) + FlatAll(b)
    decreases |a|
  {
    if a == [] {
      assert a + b == b;
    } else {
      FlatAllConcat(a[1..], b);
      assert (a + b)[0] == a[0] && (a + b)[1..] == a[1..] + b;
      Associative(Flat(a[0]), FlatAll(a[1..]), FlatAll(b));
    }
  }

  lemma {:induction false} FlatAllOne(t: Tree)
    ensures FlatAll([t]) == Flat(t)
  {
    assert [t][1..] == [];
  }

  /** The flattened children, cut out around child j. */
  lemma {:induction false} FlatAround(kids: seq<Tree>, j: nat)
    requires j < |kids|
    ensures FlatAll(kids) == FlatAll(kids[..j]) + Flat(kids[j]) + FlatAll(kids[j + 1..])
  {
    assert kids == kids[..j] + ([kids[j]] + kids[j + 1..]);
    FlatAllConcat(kids[..j], [kids[j]] + kids[j + 1..]);
    FlatAllConcat([kids[j]], kids[j + 1..]);
    FlatAllOne(kids[j]);
  }

  lemma {:induction false} SortedAppend(a: seq<Cell>, b: seq<Cell>, lo: int, mid: int, hi: int)
    requires Sorted(a) && Sorted(b) && Within(a, lo, mid) && Within(b, mid, hi)
    requires lo <= mid && (a == [] || mid <= hi)
    ensures Sorted(a + b) && Within(a + b, lo, hi)
  {
  }

  lemma {:induction false} OrderedFlatPrefix(t: Tree, lo: int, hi: int, n: nat)
    requires t.Interior? && Ordered(t, lo, hi) && n < |t.kids|
    ensures Sorted(FlatAll(t.kids[..n])) && Within(FlatAll(t.kids[..n]), lo, Below(t.keys, lo, n))
    decreases t, 0, n
  {
    if n > 0 {
      OrderedFlatPrefix(t, lo, hi, n - 1);
      OrderedFlat(t.kids[n - 1], Below(t.keys, lo, n - 1), t.keys[n - 1]);
      assert t.kids[..n] == t.kids[..n - 1] + [t.kids[n - 1]];
      FlatAllConcat(t.kids[..n - 1], [t.kids[n - 1]]);
      FlatAllOne(t.kids[n - 1]);
      SortedAppend(FlatAll(t.kids[..n - 1]), Flat(t.kids[n - 1]),
        lo, Below(t.keys, lo, n - 1), t.keys[n - 1]);
    }
  }

  /** An ordered tree lists its cells in strictly increasing key order. */
  lemma {:induction false} OrderedFlat(t: Tree, lo: int, hi: int)
    requires Ordered(t, lo, hi)
    ensures Sorted(Flat(t)) && Within(Flat(t), lo, hi)
    decreases t, 1
  {
    match t
    case Leaf(_) =>
    case Interior(keys, kids) =>
      var n := |keys|;
      OrderedFlatPrefix(t, lo, hi, n);
      OrderedFlat(kids[n], Below(keys, lo, n), hi);
      assert kids == kids[..n] + [kids[n]];
      FlatAllConcat(kids[..n], [kids[n]]);
      FlatAllOne(kids[n]);
      SortedAppend(FlatAll(kids[..n]), Flat(kids[n]), lo, Below(keys, lo, n), hi);
  }

  lemma {:induction false} OrderedFlatSuffix(t: Tree, lo: int, hi: int, n: nat)
    requires t.Interior? && Ordered(t, lo, hi) && n < |t.kids|
    ensures Within(FlatAll(t.kids[n + 1..]), Above(t.keys, hi, n), hi)
    decreases |t.kids| - n
  {
    if n < |t.keys| {
      OrderedFlatSuffix(t, lo, hi, n + 1);
      OrderedFlat(t.kids[n + 1], t.keys[n], Above(t.keys, hi, n + 1));
      assert t.kids[n + 1..] == [t.kids[n + 1]] + t.kids[n + 2..];
      FlatAllConcat([t.kids[n + 1]], t.kids[n + 2..]);
      FlatAllOne(t.kids[n + 1]);
    }
  }

  // ----- sorted insertion and the map

  lemma {:induction false} CellIndexConcat(a: seq<Cell>, b: seq<Cell>, k: Key)
    requires forall i :: 0 <= i < |a| ==> a[i].key < k
    ensures CellIndex(a + b, k) == |a| + CellIndex(b, k)
  {
    if a == [] {
      assert a + b == b;
    } else {
      assert (a + b)[1..] == a[1..] + b;
      CellIndexConcat(a[1..], b, k);
    }
  }

  lemma {:induction false} CellIndexPrefix(a: seq<Cell>, b: seq<Cell>, k: Key)
    requires forall i :: 0 <= i < |b| ==> k < b[i].key
    ensures CellIndex(a + b, k) == CellIndex(a, k)
  {
    if a == [] {
      assert a + b == b;
    } else {
      assert (a + b)[1..] == a[1..] + b;
      CellIndexPrefix(a[1..], b, k);
    }
  }

  lemma {:induction false} HasKeyConcat(a: seq<Cell>, b: seq<Cell>, k: Key)
    ensures HasKey(a + b, k) <==> HasKey(a, k) || HasKey(b, k)
  {
    if HasKey(a, k) {
      var i :| 0 <= i < |a| && a[i].key == k;
      assert (a + b)[i].key == k;
    }
    if HasKey(b, k) {
      var i :| 0 <= i < |b| && b[i].key == k;
      assert (a + b)[|a| + i].key == k;
    }
  }

  /** Inserting into the middle part is inserting into the whole. */
  lemma {:induction false} InsertInMiddle(a: seq<Cell>, b: seq<Cell>, d: seq<Cell>, c: Cell)
    requires forall i :: 0 <= i < |a| ==> a[i].key < c.key
    requires forall i :: 0 <= i < |d| ==> c.key < d[i].key
    ensures InsertCell(a + b + d, c) == a + InsertCell(b, c) + d
  {
    CellIndexPrefix(a + b, d, c.key);
    CellIndexConcat(a, b, c.key);
    SpliceInMiddle(a, b, d, c, CellIndex(b, c.key));
  }

  lemma {:induction false} SpliceInMiddle(a: seq<Cell>, b: seq<Cell>, d: seq<Cell>, c: Cell, j: nat)
    requires j <= |b|
    ensures (a + b + d)[..|a| + j] + [c] + (a + b + d)[|a| + j..] == a + (b[..j] + [c] + b[j..]) + d
  {
    assert (a + b + d)[..|a| + j] == a + b[..j];
    assert (a + b + d)[|a| + j..] == b[j..] + d;
  }

  lemma {:induction false} KeyInMiddle(a: seq<Cell>, b: seq<Cell>, d: seq<Cell>, k: Key)
    requires forall i :: 0 <= i < |a| ==> a[i].key < k
    requires forall i :: 0 <= i < |d| ==> k < d[i].key
    ensures HasKey(a + b + d, k) <==> HasKey(b, k)
  {
    HasKeyConcat(a, b, k);
    HasKeyConcat(a + b, d, k);
  }

  lemma {:induction false} InsertKeepsSorted(s: seq<Cell>, c: Cell, lo: int, hi: int)
    requires Sorted(s) && Within(s, lo, hi) && lo < c.key <= hi && !HasKey(s, c.key)
    ensures Sorted(InsertCell(s, c)) && Within(InsertCell(s, c), lo, hi)
  {
  }

  lemma {:induction false} ToMapSnoc(p: seq<Cell>, c: Cell)
    ensures ToMap(p + [c]) == ToMap(p)[c.key := c.data]
  {
    assert (p + [c])[..|p|] == p;
  }

  ghost predicate IsGraph(s: seq<Cell>, m: map<Key, Data>) {
    && (forall k :: k in m ==> HasKey(s, k))
    && (forall i :: 0 <= i < |s| ==> s[i].key in m && m[s[i].key] == s[i].data)
  }

  /** The map of a sorted sequence is its graph. */
  lemma {:induction false} ToMapGraph(s: seq<Cell>)
    requires Sorted(s)
    ensures IsGraph(s, ToMap(s)) && |ToMap(s)| == |s|
  {
    if s != [] {
      var p, c := s[..|s| - 1], s[|s| - 1];
      ToMapGraph(p);
      assert s == p + [c];
      GraphSnoc(p, c, ToMap(p));
      ToMapSnoc(p, c);
    }
  }

  lemma {:induction false} GraphSnoc(p: seq<Cell>, c: Cell, m: map<Key, Data>)
    requires Sorted(p + [c]) && IsGraph(p, m)
    ensures IsGraph(p + [c], m[c.key := c.data]) && |m[c.key := c.data]| == |m| + 1
  {
    var s := p + [c];
    forall i | 0 <= i < |p| ensures p[i].key < c.key {
      assert s[i].key < s[|p|].key;
    }
    forall k | k in m[c.key := c.data] ensures HasKey(s, k) {
      HasKeyConcat(p, [c], k);
      assert k == c.key ==> [c][0].key == k;
    }
    assert c.key !in m;
    assert m[c.key := c.data].Keys == m.Keys + {c.key};
  }

  /** A sequence is the graph of at most one map. */
  lemma {:induction false} GraphUnique(s: seq<Cell>, m: map<Key, Data>, m': map<Key, Data>)
    requires IsGraph(s, m) && IsGraph(s, m')
    ensures m == m'
  {
    forall k | k in m ensures k in m' && m[k] == m'[k] {
      var i :| 0 <= i < |s| && s[i].key == k;
    }
    forall k | k in m' ensures k in m {
      var i :| 0 <= i < |s| && s[i].key == k;
    }
  }

  lemma {:induction false} GraphInsert(s: seq<Cell>, c: Cell, m: map<Key, Data>)
    requires IsGraph(s, m) && !HasKey(s, c.key)
    ensures IsGraph(InsertCell(s, c), m[c.key := c.data])
  {
    var j := CellIndex(s, c.key);
    var s' := InsertCell(s, c);
    forall k | k in m[c.key := c.data] ensures HasKey(s', k) {
      if k == c.key {
        assert s'[j].key == k;
      } else {
        var i :| 0 <= i < |s| && s[i].key == k;
        assert s'[if i < j then i else i + 1] == s[i];
      }
    }
    forall i | 0 <= i < |s'| && i != j ensures s'[i] == s[if i < j then i else i - 1] {}
  }

  lemma {:induction false} ToMapInsert(s: seq<Cell>, c: Cell)
    requires Sorted(s) && Sorted(InsertCell(s, c)) && !HasKey(s, c.key)
    ensures ToMap(InsertCell(s, c)) == ToMap(s)[c.key := c.data]
  {
    ToMapGraph(s);
    ToMapGraph(InsertCell(s, c));
    GraphInsert(s, c, ToMap(s));
    GraphUnique(InsertCell(s, c), ToMap(InsertCell(s, c)), ToMap(s)[c.key := c.data]);
  }

  // ----- one insert step keeps the tree

  ghost function OutcomeFlat(o: Outcome): seq<Cell>
    requires !o.Present?
  {
    match o
    case Fit(t) => Flat(t)
    case Split(l, _, r) => Flat(l) + Flat(r)
  }

  /** A well-formed outcome of inserting below a node in (lo, hi] at height h. */
  ghost predicate OutcomeOk(o: Outcome, lo: int, hi: int, h: nat) {
    match o
    case Present => true
    case Fit(t) => Ordered(t, lo, hi) && Balanced(t, h) && Size(t) < ORDER
    case Split(l, sep, r) =>
      && lo < sep < hi
      && Ordered(l, lo, sep) && Balanced(l, h) && MinSize(l) <= Size(l) < ORDER
      && Ordered(r, sep, hi) && Balanced(r, h) && MinSize(r) <= Size(r) < ORDER
  }

  lemma {:induction false} CutLeaf(cells: seq<Cell>, lo: int, hi: int)
    requires Ordered(Leaf(cells), lo, hi) && |cells| == ORDER
    ensures OutcomeOk(Cut(Leaf(cells)), lo, hi, 0) && OutcomeFlat(Cut(Leaf(cells))) == cells
  {
    assert cells == cells[..5] + cells[5..];
    assert cells[4].key < cells[5].key;
  }

  lemma {:induction false} CutOrdered(t: Tree, lo: int, hi: int)
    requires t.Interior? && Ordered(t, lo, hi) && Size(t) == ORDER
    ensures Cut(t).Split? && Ordered(Cut(t).left, lo, t.keys[5]) && Ordered(Cut(t).right, t.keys[5], hi)
  {
    var l, r := Cut(t).left, Cut(t).right;
    forall i | 0 <= i < |r.kids| ensures Ordered(r.kids[i], Below(r.keys, t.keys[5], i), Above(r.keys, hi, i)) {
      assert r.kids[i] == t.kids[i + 6];
    }
    forall i | 0 <= i < |l.kids| ensures Ordered(l.kids[i], Below(l.keys, lo, i), Above(l.keys, t.keys[5], i)) {
      assert l.kids[i] == t.kids[i];
    }
  }

  /** The lower half keeps five cells.  Of a leaf the other five move and the largest key that stayed
      separates; of an interior node the sixth key moves up and the four behind it to the new node. */
  ghost predicate Halves(t: Tree, o: Outcome) {
    && o.Split? && Size(o.left) == ORDER / 2
    && match t
       case Leaf(cells) =>
         o.left.Leaf? && o.right.Leaf? && o.left.cells + o.right.cells == cells && o.sep == o.left.cells[ORDER / 2 - 1].key
       case Interior(keys, kids) =>
         && o.left.Interior? && o.right.Interior?
         && o.left.keys + [o.sep] + o.right.keys == keys && o.left.kids + o.right.kids == kids
  }

  lemma {:induction false} CutOk(t: Tree, lo: int, hi: int, h: nat)
    requires Ordered(t, lo, hi) && Balanced(t, h) && Size(t) == ORDER
    ensures OutcomeOk(Cut(t), lo, hi, h) && OutcomeFlat(Cut(t)) == Flat(t) && Halves(t, Cut(t))
  {
    match t
    case Leaf(cells) => CutLeaf(cells, lo, hi);
    case Interior(keys, kids) =>
      assert kids == kids[..6] + kids[6..];
      FlatAllConcat(kids[..6], kids[6..]);
      CutOrdered(t, lo, hi);
  }

  lemma {:induction false} GrownOk(t: Tree, lo: int, hi: int, h: nat)
    requires Ordered(t, lo, hi) && Balanced(t, h) && Size(t) <= ORDER
    ensures OutcomeOk(Grown(t), lo, hi, h) && OutcomeFlat(Grown(t)) == Flat(t)
  {
    if Size(t) == ORDER {
      CutOk(t, lo, hi, h);
    }
  }

  lemma {:induction false} ReplaceKid(t: Tree, lo: int, hi: int, h: nat, j: nat, kid: Tree)
    requires t.Interior? && Ordered(t, lo, hi) && Balanced(t, h) && j < |t.kids|
    requires Ordered(kid, Below(t.keys, lo, j), Above(t.keys, hi, j))
    requires Balanced(kid, h - 1) && MinSize(kid) <= Size(kid) < ORDER
    ensures var t' := Interior(t.keys, t.kids[j := kid]);
            && Ordered(t', lo, hi) && Balanced(t', h)
            && Flat(t') == FlatAll(t.kids[..j]) + Flat(kid) + FlatAll(t.kids[j + 1..])
  {
    FlatAround(t.kids[j := kid], j);
    assert t.kids[j := kid][..j] == t.kids[..j];
    assert t.kids[j := kid][j + 1..] == t.kids[j + 1..];
  }

  lemma {:induction false} WithPairFlat(t: Tree, j: nat, l: Tree, sep: Key, r: Tree)
    requires t.Interior? && j < |t.kids| && |t.kids| == |t.keys| + 1
    ensures Flat(WithPair(t, j, l, sep, r))
         == FlatAll(t.kids[..j]) + (Flat(l) + Flat(r)) + FlatAll(t.kids[j + 1..])
  {
    FlatAllConcat(t.kids[..j] + [l, r], t.kids[j + 1..]);
    FlatAllConcat(t.kids[..j], [l, r]);
    assert [l, r] == [l] + [r];
    FlatAllConcat([l], [r]);
    FlatAllOne(l);
    FlatAllOne(r);
  }

  lemma {:induction false} WithPairOk(t: Tree, lo: int, hi: int, h: nat, j: nat, l: Tree, sep: Key, r: Tree)
    requires t.Interior? && Ordered(t, lo, hi) && Balanced(t, h) && j < |t.kids|
    requires OutcomeOk(Split(l, sep, r), Below(t.keys, lo, j), Above(t.keys, hi, j), h - 1)
    ensures Ordered(WithPair(t, j, l, sep, r), lo, hi) && Balanced(WithPair(t, j, l, sep, r), h)
  {
    var t' := WithPair(t, j, l, sep, r);
    WithPairKeys(t, lo, hi, j, sep);
    forall i | 0 <= i < |t'.kids|
      ensures Ordered(t'.kids[i], Below(t'.keys, lo, i), Above(t'.keys, hi, i))
      ensures Balanced(t'.kids[i], h - 1) && MinSize(t'.kids[i]) <= Size(t'.kids[i]) < ORDER
    {
      WithPairKid(t, lo, hi, j, l, sep, r, i);
    }
  }

  /** Where a child of the grown node comes from, with unchanged separators around it. */
  lemma {:induction false} WithPairKid(t: Tree, lo: int, hi: int, j: nat, l: Tree, sep: Key, r: Tree, i: nat)
    requires t.Interior? && |t.kids| == |t.keys| + 1 && j < |t.kids| && i <= |t.kids|
    ensures var t' := WithPair(t, j, l, sep, r);
            && |t'.kids| == |t.kids| + 1 && |t'.keys| == |t.keys| + 1
            && t'.kids[i] == (if i < j then t.kids[i] else if i == j then l
                              else if i == j + 1 then r else t.kids[i - 1])
            && Below(t'.keys, lo, i) == (if i <= j then Below(t.keys, lo, i)
                                         else if i == j + 1 then sep else Below(t.keys, lo, i - 1))
            && Above(t'.keys, hi, i) == (if i < j then Above(t.keys, hi, i)
                                         else if i == j then sep else Above(t.keys, hi, i - 1))
  {
  }

  lemma {:induction false} WithPairKeys(t: Tree, lo: int, hi: int, j: nat, sep: Key)
    requires t.Interior? && Ordered(t, lo, hi) && j < |t.kids|
    requires Below(t.keys, lo, j) < sep < Above(t.keys, hi, j)
    ensures var keys := t.keys[..j] + [sep] + t.keys[j..];
            Increasing(keys) && forall i :: 0 <= i < |keys| ==> lo < keys[i] < hi
  {
  }

  lemma {:induction false} BalancedInsertable(t: Tree, h: nat)
    requires Balanced(t, h) && Size(t) < ORDER
    ensures Insertable(t)
    decreases t
  {
    if t.Interior? {
      forall i | 0 <= i < |t.kids| ensures Insertable(t.kids[i]) {
        BalancedInsertable(t.kids[i], h - 1);
      }
    }
  }

  /** Inserting into the flattened node is inserting into the flattened chosen child. */
  lemma {:induction false} InsertBelow(t: Tree, c: Cell, lo: int, hi: int)
    requires t.Interior? && Ordered(t, lo, hi) && lo < c.key <= hi
    ensures var j := ChildIndex(t.keys, c.key);
            && (HasKey(Flat(t), c.key) <==> HasKey(Flat(t.kids[j]), c.key))
            && InsertCell(Flat(t), c)
               == FlatAll(t.kids[..j]) + InsertCell(Flat(t.kids[j]), c) + FlatAll(t.kids[j + 1..])
  {
    var j := ChildIndex(t.keys, c.key);
    OrderedFlatPrefix(t, lo, hi, j);
    OrderedFlatSuffix(t, lo, hi, j);
    FlatAround(t.kids, j);
    InsertInMiddle(FlatAll(t.kids[..j]), Flat(t.kids[j]), FlatAll(t.kids[j + 1..]), c);
    KeyInMiddle(FlatAll(t.kids[..j]), Flat(t.kids[j]), FlatAll(t.kids[j + 1..]), c.key);
  }

  /** Heart of the refinement: below any node, an insert reports a duplicate exactly when the
      key is there, otherwise it adds exactly the new cell, and whatever splits happen leave
      ordered, balanced, sufficiently full nodes. */
  lemma {:induction false} Insert2Ok(t: Tree, c: Cell, lo: int, hi: int, h: nat)
    requires Ordered(t, lo, hi) && Balanced(t, h) && Size(t) < ORDER && Insertable(t)
    requires lo < c.key <= hi
    ensures Insert2(t, c).Present? <==> HasKey(Flat(t), c.key)
    ensures OutcomeOk(Insert2(t, c), lo, hi, h)
    ensures !Insert2(t, c).Present? ==> OutcomeFlat(Insert2(t, c)) == InsertCell(Flat(t), c)
    ensures Insert2(t, c).Fit? ==>
              Size(Insert2(t, c).tree) >= Size(t) && Insert2(t, c).tree.Leaf? == t.Leaf?
    decreases t
  {
    match t
    case Leaf(cells) =>
      if !HasKey(cells, c.key) {
        InsertKeepsSorted(cells, c, lo, hi);
        GrownOk(Leaf(InsertCell(cells, c)), lo, hi, h);
      }
    case Interior(keys, kids) =>
      var j := ChildIndex(keys, c.key);
      Insert2Ok(kids[j], c, Below(keys, lo, j), Above(keys, hi, j), h - 1);
      InsertBelow(t, c, lo, hi);
      match Insert2(kids[j], c)
      case Present =>
      case Fit(kid) => FitBelow(t, c, lo, hi, h, kid);
      case Split(l, sep, r) => SplitBelow(t, c, lo, hi, h, l, sep, r);
  }

  lemma {:induction false} FitBelow(t: Tree, c: Cell, lo: int, hi: int, h: nat, kid: Tree)
    requires t.Interior? && Ordered(t, lo, hi) && Balanced(t, h) && Size(t) < ORDER && lo < c.key <= hi
    requires var j := ChildIndex(t.keys, c.key);
             && OutcomeOk(Fit(kid), Below(t.keys, lo, j), Above(t.keys, hi, j), h - 1)
             && Flat(kid) == InsertCell(Flat(t.kids[j]), c)
             && Size(kid) >= Size(t.kids[j]) && kid.Leaf? == t.kids[j].Leaf?
    ensures var t' := Interior(t.keys, t.kids[ChildIndex(t.keys, c.key) := kid]);
            && Ordered(t', lo, hi)
            && OutcomeOk(Grown(t'), lo, hi, h) && OutcomeFlat(Grown(t')) == InsertCell(Flat(t), c)
  {
    var j := ChildIndex(t.keys, c.key);
    InsertBelow(t, c, lo, hi);
    ReplaceKid(t, lo, hi, h, j, kid);
    GrownOk(Interior(t.keys, t.kids[j := kid]), lo, hi, h);
  }

  lemma {:induction false} SplitBelow(t: Tree, c: Cell, lo: int, hi: int, h: nat, l: Tree, sep: Key, r: Tree)
    requires t.Interior? && Ordered(t, lo, hi) && Balanced(t, h) && Size(t) < ORDER && lo < c.key <= hi
    requires var j := ChildIndex(t.keys, c.key);
             && OutcomeOk(Split(l, sep, r), Below(t.keys, lo, j), Above(t.keys, hi, j), h - 1)
             && Flat(l) + Flat(r) == InsertCell(Flat(t.kids[j]), c)
    ensures var t' := WithPair(t, ChildIndex(t.keys, c.key), l, sep, r);
            && Ordered(t', lo, hi)
            && OutcomeOk(Grown(t'), lo, hi, h) && OutcomeFlat(Grown(t')) == InsertCell(Flat(t), c)
  {
    var j := ChildIndex(t.keys, c.key);
    InsertBelow(t, c, lo, hi);
    WithPairOk(t, lo, hi, h, j, l, sep, r);
    WithPairFlat(t, j, l, sep, r);
    GrownOk(WithPair(t, j, l, sep, r), lo, hi, h);
  }

  // ----- main theorems

  ghost function NextHeight(t: Tree, h: nat, c: Cell): nat
    requires Insertable(t)
  {
    if Insert2(t, c).Split? then h + 1 else h
  }

  lemma {:induction false} KeyInContents(t: Tree, k: Key)
    requires Sorted(Flat(t))
    ensures k in Contents(t) <==> HasKey(Flat(t), k)
  {
    ToMapGraph(Flat(t));
  }

  lemma {:induction false} NewRootOk(o: Outcome, h: nat)
    requires o.Split? && OutcomeOk(o, -1, TOP, h)
    ensures Valid(Interior([o.sep], [o.left, o.right]), h + 1)
    ensures Flat(Interior([o.sep], [o.left, o.right])) == OutcomeFlat(o)
  {
    assert [o.left, o.right] == [o.left] + [o.right];
    FlatAllConcat([o.left], [o.right]);
    FlatAllOne(o.left);
    FlatAllOne(o.right);
  }

  /** Insert refines map insertion and keeps every tree invariant; the height grows by at
      most one, exactly when the root splits. */
  lemma {:induction false} InsertRefinesMap(t: Tree, h: nat, c: Cell)
    requires Valid(t, h)
    ensures Insertable(t)
    ensures var (ok, t') := Insert(t, c);
            && (ok <==> c.key !in Contents(t))
            && (!ok ==> t' == t)
            && (ok ==> Contents(t') == Contents(t)[c.key := c.data])
            && Valid(t', NextHeight(t, h, c))
  {
    BalancedInsertable(t, h);
    Insert2Ok(t, c, -1, TOP, h);
    OrderedFlat(t, -1, TOP);
    KeyInContents(t, c.key);
    var o := Insert2(t, c);
    if !o.Present? {
      InsertKeepsSorted(Flat(t), c, -1, TOP);
      ToMapInsert(Flat(t), c);
      if o.Split? { NewRootOk(o, h); }
    }
  }

  /** A run of inserts from the empty tree. */
  ghost function Run(cs: seq<Cell>): (Tree, nat)
    ensures Valid(Run(cs).0, Run(cs).1)
  {
    if cs == [] then (Leaf([]), 0)
    else
      var (t, h) := Run(cs[..|cs| - 1]);
      InsertRefinesMap(t, h, cs[|cs| - 1]);
      (Insert(t, cs[|cs| - 1]).1, NextHeight(t, h, cs[|cs| - 1]))
  }

  /** First write wins: the map that a sequence of insert calls must produce. */
  function FirstWrites(cs: seq<Cell>): map<Key, Data> {
    if cs == [] then map[]
    else
      var m, c := FirstWrites(cs[..|cs| - 1]), cs[|cs| - 1];
      if c.key in m then m else m[c.key := c.data]
  }

  lemma {:induction false} RunRefinesMap(cs: seq<Cell>)
    ensures Contents(Run(cs).0) == FirstWrites(cs)
  {
    if cs != [] {
      RunRefinesMap(cs[..|cs| - 1]);
      var (t, h) := Run(cs[..|cs| - 1]);
      InsertRefinesMap(t, h, cs[|cs| - 1]);
    }
  }

  // ----- size against height

  function Pow5(n: nat): nat {
    if n == 0 then 1 else 5 * Pow5(n - 1)
  }

  lemma {:induction false} FlatAllLarge(kids: seq<Tree>, least: nat)
    requires forall i :: 0 <= i < |kids| ==> |Flat(kids[i])| >= least
    ensures |FlatAll(kids)| >= |kids| * least
  {
    if kids != [] {
      FlatAllLarge(kids[1..], least);
      assert |kids| * least == least + (|kids| - 1) * least;
    }
  }

  lemma {:induction false} SubtreeLarge(t: Tree, h: nat)
    requires Balanced(t, h) && Size(t) >= MinSize(t)
    ensures |Flat(t)| >= Pow5(h + 1)
    decreases t
  {
    if t.Interior? {
      forall i | 0 <= i < |t.kids| ensures |Flat(t.kids[i])| >= Pow5(h) {
        SubtreeLarge(t.kids[i], h - 1);
      }
      FlatAllLarge(t.kids, Pow5(h));
      MulMono(5, |t.kids|, Pow5(h));
    }
  }

  lemma {:induction false} MulMono(a: nat, b: nat, c: nat)
    requires a <= b
    ensures a * c <= b * c
  {
  }

  /** A tree of height h >= 1 holds at least 2 * 5^h keys. */
  lemma {:induction false} HeightIsLogarithmic(t: Tree, h: nat)
    requires Valid(t, h) && h >= 1
    ensures |Contents(t)| >= 2 * Pow5(h)
  {
    forall i | 0 <= i < |t.kids| ensures |Flat(t.kids[i])| >= Pow5(h) {
      SubtreeLarge(t.kids[i], h - 1);
    }
    FlatAllLarge(t.kids, Pow5(h));
    MulMono(2, |t.kids|, Pow5(h));
    OrderedFlat(t, -1, TOP);
    ToMapGraph(Flat(t));
  }

  // ----- search

  /** Descending into one child loses no key: a cell is stored under the node exactly when
      it is stored under the chosen child. */
  lemma {:induction false} DescendKeepsKey(t: Tree, lo: int, hi: int, k: Key)
    requires t.Interior? && Ordered(t, lo, hi)
    ensures var kid := t.kids[ChildIndex(t.keys, k)];
            && (HasKey(Flat(t), k) <==> HasKey(Flat(kid), k))
            && forall c :: c in Flat(kid) ==> c in Flat(t)
  {
    var j := ChildIndex(t.keys, k);
    OrderedFlatPrefix(t, lo, hi, j);
    OrderedFlatSuffix(t, lo, hi, j);
    FlatAround(t.kids, j);
    KeyInMiddle(FlatAll(t.kids[..j]), Flat(t.kids[j]), FlatAll(t.kids[j + 1..]), k);
  }

  lemma {:induction false} LookupGraph(s: seq<Cell>, k: Key, data: Data)
    requires Sorted(s)
    ensures k in ToMap(s) <==> HasKey(s, k)
    ensures Cell(k, data) in s ==> k in ToMap(s) && ToMap(s)[k] == data
  {
    ToMapGraph(s);
  }
}
