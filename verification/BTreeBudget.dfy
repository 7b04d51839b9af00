/** When a run of inserts ends in the program's exit for lack of space.  A leaf page keeps the bytes
    of the cells a split moved away as garbage; spaceCheck only has them collected when the one-byte
    counter, which wraps, is above 64.  So garbage can grow until the page is full of it, or never:
    the largest cell decides. */
module BTreeBudget {
  import opened BTreeSpec
  import opened BTreeProofs
  import opened Common
  import Page = BTreePage

  // ----- the leaves of a tree, from left to right

  function Leaves(t: Tree): (l: seq<seq<Cell>>)
    decreases t, 0
  {
    match t
    case Leaf(cells) => [cells]
    case Interior(_, kids) => LeavesAll(kids)
  }

  function LeavesAll(kids: seq<Tree>): seq<seq<Cell>>
    decreases kids, 1
  {
    if kids == [] then [] else Leaves(kids[0]) + LeavesAll(kids[1..])
  }

  /** Which leaf a key is looked up in. */
  ghost function Index(t: Tree, k: Key): nat
    requires Insertable(t)
    decreases t
  {
    match t
    case Leaf(_) => 0
    case Interior(keys, kids) =>
      var j := ChildIndex(keys, k);
      |LeavesAll(kids[..j])| + Index(kids[j], k)
  }

  /** One part of a list replaced. */
  function Splice<T>(a: seq<T>, i: nat, part: seq<T>): seq<T>
    requires i < |a|
  {
    a[..i] + part + a[i + 1..]
  }

  lemma SpliceInside<T>(a: seq<T>, b: seq<T>, d: seq<T>, i: nat, part: seq<T>)
    requires i < |b|
    ensures Splice(a + b + d, |a| + i, part) == a + Splice(b, i, part) + d
    ensures (a + b + d)[|a| + i] == b[i]
  {
  }

  lemma {:induction false} LeavesConcat(a: seq<Tree>, b: seq<Tree>)
    ensures LeavesAll(a + b) == LeavesAll(a) + LeavesAll(b)
    decreases |a|
  {
    if a == [] {
      assert a + b == b;
    } else {
      LeavesConcat(a[1..], b);
      assert (a + b)[0] == a[0] && (a + b)[1..] == a[1..] + b;
    }
  }

  lemma LeavesOne(t: Tree)
    ensures LeavesAll([t]) == Leaves(t)
  {
    assert [t][1..] == [];
  }

  lemma LeavesAround(a: seq<Tree>, mid: seq<Tree>, d: seq<Tree>)
    ensures LeavesAll(a + mid + d) == LeavesAll(a) + LeavesAll(mid) + LeavesAll(d)
  {
    LeavesConcat(a + mid, d);
    LeavesConcat(a, mid);
  }

  lemma LeavesPair(l: Tree, r: Tree)
    ensures LeavesAll([l, r]) == Leaves(l) + Leaves(r)
  {
    assert [l, r] == [l] + [r];
    LeavesConcat([l], [r]);
    LeavesOne(l);
    LeavesOne(r);
  }

  ghost function OutcomeLeaves(o: Outcome): seq<seq<Cell>>
    requires !o.Present?
  {
    match o
    case Fit(t) => Leaves(t)
    case Split(l, _, r) => Leaves(l) + Leaves(r)
  }

  /** A leaf and the new cell, cut in two when it is full. */
  function PutCell(cells: seq<Cell>, c: Cell): seq<seq<Cell>>
  {
    var n := InsertCell(cells, c);
    if |n| >= ORDER then [n[..5], n[5..]] else [n]
  }

  lemma GrownLeaves(t: Tree)
    requires t.Interior? && Size(t) <= ORDER && |t.kids| == |t.keys| + 1
    ensures OutcomeLeaves(Grown(t)) == Leaves(t)
  {
    if Size(t) >= ORDER {
      LeavesConcat(t.kids[..6], t.kids[6..]);
      assert t.kids[..6] + t.kids[6..] == t.kids;
    }
  }

  /** Leaf i alone has changed: the cell was put there, and a split of that leaf has put the upper
      half next to it. */
  ghost predicate Touched(l: seq<seq<Cell>>, i: nat, o: Outcome, c: Cell) {
    && i < |l| && |l[i]| < ORDER
    && (o.Present? <==> HasKey(l[i], c.key))
    && (!o.Present? ==> OutcomeLeaves(o) == Splice(l, i, PutCell(l[i], c)))
  }

  lemma {:induction false} InsertTouchesOne(t: Tree, c: Cell)
    requires Insertable(t)
    ensures Touched(Leaves(t), Index(t, c.key), Insert2(t, c), c)
    decreases t
  {
    if t.Leaf? {
      LeafTouched(t.cells, c);
    } else {
      var j := ChildIndex(t.keys, c.key);
      InsertTouchesOne(t.kids[j], c);
      TouchesAbove(t, j, t.kids[j], c);
    }
  }

  lemma LeafTouched(cells: seq<Cell>, c: Cell)
    requires |cells| < ORDER
    ensures Touched([cells], 0, Insert2(Leaf(cells), c), c)
  {
    assert Splice([cells], 0, PutCell(cells, c)) == PutCell(cells, c);
  }

  lemma TouchesAbove(t: Tree, j: nat, kid: Tree, c: Cell)
    requires Insertable(t) && t.Interior? && j == ChildIndex(t.keys, c.key) && kid == t.kids[j]
    requires Touched(Leaves(kid), Index(kid, c.key), Insert2(kid, c), c)
    ensures Touched(Leaves(t), Index(t, c.key), Insert2(t, c), c)
  {
    var a, d := LeavesAll(t.kids[..j]), LeavesAll(t.kids[j + 1..]);
    LeavesAt(t, j);
    IndexAbove(t, j, c.key);
    OutcomeAbove(t, j, c);
    TouchedInside(Leaves(t), Index(t, c.key), Insert2(t, c), a, Leaves(kid), d, Index(kid, c.key), Insert2(kid, c), c);
  }

  lemma IndexAbove(t: Tree, j: nat, k: Key)
    requires Insertable(t) && t.Interior? && j == ChildIndex(t.keys, k)
    ensures Index(t, k) == |LeavesAll(t.kids[..j])| + Index(t.kids[j], k)
  {
  }

  /** The leaves of a child, and what became of them, within those of the node. */
  ghost predicate Lifted(o: Outcome, a: seq<seq<Cell>>, d: seq<seq<Cell>>, o': Outcome) {
    && (o'.Present? <==> o.Present?)
    && (!o.Present? ==> OutcomeLeaves(o') == a + OutcomeLeaves(o) + d)
  }

  lemma TouchedInside(l': seq<seq<Cell>>, i': nat, o': Outcome,
                      a: seq<seq<Cell>>, l: seq<seq<Cell>>, d: seq<seq<Cell>>, i: nat, o: Outcome, c: Cell)
    requires Touched(l, i, o, c) && l' == a + l + d && i' == |a| + i && Lifted(o, a, d, o')
    ensures Touched(l', i', o', c)
  {
    SpliceInside(a, l, d, i, PutCell(l[i], c));
  }

  lemma LeavesAt(t: Tree, j: nat)
    requires t.Interior? && j < |t.kids|
    ensures Leaves(t) == LeavesAll(t.kids[..j]) + Leaves(t.kids[j]) + LeavesAll(t.kids[j + 1..])
  {
    assert t.kids == t.kids[..j] + [t.kids[j]] + t.kids[j + 1..];
    LeavesAround(t.kids[..j], [t.kids[j]], t.kids[j + 1..]);
    LeavesOne(t.kids[j]);
  }

  lemma OutcomeAbove(t: Tree, j: nat, c: Cell)
    requires Insertable(t) && t.Interior? && j == ChildIndex(t.keys, c.key)
    ensures Lifted(Insert2(t.kids[j], c), LeavesAll(t.kids[..j]), LeavesAll(t.kids[j + 1..]), Insert2(t, c))
  {
    match Insert2(t.kids[j], c)
    case Present =>
    case Fit(k) => ReplacedLeaves(t, j, k);
    case Split(left, sep, right) => PairedLeaves(t, j, left, sep, right);
  }

  lemma ReplacedLeaves(t: Tree, j: nat, k: Tree)
    requires t.Interior? && Size(t) < ORDER && |t.kids| == |t.keys| + 1 && j < |t.kids|
    ensures OutcomeLeaves(Grown(Interior(t.keys, t.kids[j := k])))
         == LeavesAll(t.kids[..j]) + Leaves(k) + LeavesAll(t.kids[j + 1..])
  {
    var a, d := t.kids[..j], t.kids[j + 1..];
    assert t.kids[j := k] == a + [k] + d;
    LeavesAround(a, [k], d);
    LeavesOne(k);
    GrownLeaves(Interior(t.keys, t.kids[j := k]));
  }

  lemma PairedLeaves(t: Tree, j: nat, left: Tree, sep: Key, right: Tree)
    requires t.Interior? && Size(t) < ORDER && |t.kids| == |t.keys| + 1 && j < |t.kids|
    ensures OutcomeLeaves(Grown(WithPair(t, j, left, sep, right)))
         == LeavesAll(t.kids[..j]) + (Leaves(left) + Leaves(right)) + LeavesAll(t.kids[j + 1..])
  {
    LeavesAround(t.kids[..j], [left, right], t.kids[j + 1..]);
    LeavesPair(left, right);
    GrownLeaves(WithPair(t, j, left, sep, right));
  }

  function LeavesAfter(l: seq<seq<Cell>>, i: nat, c: Cell): seq<seq<Cell>>
    requires i < |l|
  {
    if HasKey(l[i], c.key) then l else Splice(l, i, PutCell(l[i], c))
  }

  lemma InsertLeaves(t: Tree, c: Cell)
    requires Insertable(t)
    ensures var l, i := Leaves(t), Index(t, c.key);
            && i < |l| && |l[i]| < ORDER
            && Leaves(Insert(t, c).1) == LeavesAfter(l, i, c)
  {
    InsertTouchesOne(t, c);
    match Insert2(t, c)
    case Present =>
    case Fit(_) =>
    case Split(left, sep, right) => LeavesPair(left, right);
  }

  // ----- space in a leaf page

  function CellSize(c: Cell): nat { 8 + |c.data| }

  function Total(cells: seq<Cell>): nat {
    if cells == [] then 0 else CellSize(cells[0]) + Total(cells[1..])
  }

  function Space(cells: seq<Cell>, garbage: nat): int {
    Page.PAGE_SIZE - Page.HEADER_SIZE - 2 * |cells| - Total(cells) - garbage
  }

  /** What spaceCheck and the store behind it do: all is well, the program exits, or it goes on with
      a pointer that lies on its own cell. */
  datatype Verdict = Go | Exit | Overrun

  /** A new cell needs its pointer as well, which spaceCheck does not count. */
  function Store(cells: seq<Cell>, garbage: nat, c: Cell): Verdict {
    var room := Space(cells, garbage);
    if CellSize(c) > room then Exit else if CellSize(c) + 2 > room then Overrun else Go
  }

  /** A split moves the upper cells one by one into an empty page. */
  function Moves(page: seq<Cell>, rest: seq<Cell>): Verdict
    decreases |rest|
  {
    if rest == [] then Go
    else
      var v := Store(page, 0, rest[0]);
      if v == Go then Moves(page + [rest[0]], rest[1..]) else v
  }

  /** An insert that reaches this leaf.  The check comes before the test for a duplicate. */
  function Judge(cells: seq<Cell>, garbage: nat, c: Cell): Verdict {
    var v, n := Store(cells, Page.Checked(garbage), c), InsertCell(cells, c);
    if v == Exit then Exit
    else if HasKey(cells, c.key) then Go
    else if v == Go && |n| >= ORDER then Moves([], n[5..])
    else v
  }

  lemma {:induction false} TotalConcat(a: seq<Cell>, b: seq<Cell>)
    ensures Total(a + b) == Total(a) + Total(b)
  {
    if a == [] {
      assert a + b == b;
    } else {
      TotalConcat(a[1..], b);
      assert (a + b)[0] == a[0] && (a + b)[1..] == a[1..] + b;
    }
  }

  lemma TotalSplit(cells: seq<Cell>, i: nat)
    requires i <= |cells|
    ensures Total(cells) == Total(cells[..i]) + Total(cells[i..])
  {
    TotalConcat(cells[..i], cells[i..]);
    assert cells[..i] + cells[i..] == cells;
  }

  lemma TotalInsert(cells: seq<Cell>, c: Cell)
    ensures Total(InsertCell(cells, c)) == Total(cells) + CellSize(c)
  {
    var j := CellIndex(cells, c.key);
    TotalSplit(cells, j);
    TotalConcat(cells[..j] + [c], cells[j..]);
    TotalConcat(cells[..j], [c]);
    assert [c][1..] == [];
  }

  /** Cells that fit into one page together can be moved there one by one. */
  lemma {:induction false} MovesFit(page: seq<Cell>, rest: seq<Cell>)
    requires 0 <= Space(page + rest, 0)
    ensures Moves(page, rest) == Go
    decreases |rest|
  {
    if rest != [] {
      TotalConcat(page, rest);
      assert page + rest == (page + [rest[0]]) + rest[1..];
      MovesFit(page + [rest[0]], rest[1..]);
    }
  }

  /** A split never lacks room: only the check for the new cell decides. */
  lemma SplitFits(cells: seq<Cell>, garbage: nat, c: Cell)
    requires Store(cells, Page.Checked(garbage), c) == Go
    ensures Judge(cells, garbage, c) == Go
  {
    var n := InsertCell(cells, c);
    if |n| >= ORDER {
      TotalInsert(cells, c);
      TotalSplit(n, 5);
      assert [] + n[5..] == n[5..];
      MovesFit([], n[5..]);
    }
  }

  /** The garbage of the leaf, or of the two leaves, that an insert leaves behind. */
  function PutGarbage(cells: seq<Cell>, garbage: nat, c: Cell): seq<nat> {
    var n := InsertCell(cells, c);
    if HasKey(cells, c.key) || |n| < ORDER then [Page.Checked(garbage)] else [Page.Checked(garbage) + Total(n[5..]), 0]
  }

  /** A run of inserts: still going, with the garbage of every leaf, ended by the exit, or gone wrong
      by an overrun, after which nothing more is said. */
  datatype Fate = Running(garbage: seq<nat>) | Exited | Overran

  ghost function FateOf(cs: seq<Cell>): (f: Fate)
    ensures f.Running? ==> |f.garbage| == |Leaves(Run(cs).0)| > 0
  {
    if cs == [] then Running([0])
    else
      var front, c := cs[..|cs| - 1], cs[|cs| - 1];
      var t := Run(front).0;
      InsertRefinesMap(t, Run(front).1, c);
      InsertLeaves(t, c);
      match FateOf(front)
      case Exited => Exited
      case Overran => Overran
      case Running(gs) => NextFate(Leaves(t), gs, Index(t, c.key), c)
  }

  function NextFate(l: seq<seq<Cell>>, gs: seq<nat>, i: nat, c: Cell): (f: Fate)
    requires |gs| == |l| && i < |l|
    ensures f.Running? ==> |f.garbage| == |LeavesAfter(l, i, c)| > 0
  {
    match Judge(l[i], gs[i], c)
    case Exit => Exited
    case Overrun => Overran
    case Go => Running(Splice(gs, i, PutGarbage(l[i], gs[i], c)))
  }

  // ----- cells with at most 30 bytes of data always fit

  ghost predicate Small(cells: seq<Cell>, d: nat) {
    forall i :: 0 <= i < |cells| ==> |cells[i].data| <= d
  }

  /** What five cells of 38 bytes and the 64 bytes that are not collected come to: less than 256, so
      the counter does not wrap. */
  const MOST_GARBAGE: nat := 254

  ghost predicate Roomy(cells: seq<Cell>, garbage: nat) {
    |cells| < ORDER && Small(cells, 30) && garbage <= MOST_GARBAGE
  }

  lemma {:induction false} TotalSmall(cells: seq<Cell>)
    requires Small(cells, 30)
    ensures Total(cells) <= 38 * |cells|
  {
    if cells != [] { TotalSmall(cells[1..]); }
  }

  lemma RoomyFits(cells: seq<Cell>, garbage: nat, c: Cell)
    requires Roomy(cells, garbage) && |c.data| <= 30
    ensures Page.Checked(garbage) <= 64 && Judge(cells, garbage, c) == Go
  {
    TotalSmall(cells);
    SplitFits(cells, garbage, c);
  }

  lemma RoomyStays(cells: seq<Cell>, garbage: nat, c: Cell)
    requires Roomy(cells, garbage) && |c.data| <= 30 && !HasKey(cells, c.key)
    ensures var l, g := PutCell(cells, c), PutGarbage(cells, garbage, c);
            AllRoomy(l, g)
  {
    RoomyFits(cells, garbage, c);
    var n := InsertCell(cells, c);
    if |n| >= ORDER { TotalSmall(n[5..]); }
  }

  ghost predicate AllRoomy(l: seq<seq<Cell>>, gs: seq<nat>) {
    |gs| == |l| && forall i :: 0 <= i < |l| ==> Roomy(l[i], gs[i])
  }

  lemma SpliceRoomy(l: seq<seq<Cell>>, gs: seq<nat>, i: nat, l': seq<seq<Cell>>, gs': seq<nat>)
    requires i < |l| && AllRoomy(l, gs) && AllRoomy(l', gs')
    ensures AllRoomy(Splice(l, i, l'), Splice(gs, i, gs'))
  {
  }

  /** No run of inserts with at most 30 bytes of data each exits or overruns. */
  lemma {:induction false} SmallRunFits(cs: seq<Cell>)
    requires Small(cs, 30)
    ensures FateOf(cs).Running? && AllRoomy(Leaves(Run(cs).0), FateOf(cs).garbage)
  {
    if cs != [] {
      var front, c := cs[..|cs| - 1], cs[|cs| - 1];
      SmallRunFits(front);
      var (t, h) := Run(front);
      InsertRefinesMap(t, h, c);
      InsertLeaves(t, c);
      RoomyInsert(Leaves(t), FateOf(front).garbage, Index(t, c.key), c);
    }
  }

  lemma RoomyInsert(l: seq<seq<Cell>>, gs: seq<nat>, i: nat, c: Cell)
    requires AllRoomy(l, gs) && |c.data| <= 30 && i < |l|
    ensures Judge(l[i], gs[i], c) == Go && AllRoomy(LeavesAfter(l, i, c), Splice(gs, i, PutGarbage(l[i], gs[i], c)))
  {
    var cells, g := l[i], gs[i];
    assert Roomy(cells, g);
    RoomyFits(cells, g, c);
    if HasKey(cells, c.key) {
      assert Splice(l, i, [cells]) == l;
      SpliceRoomy(l, gs, i, [cells], [Page.Checked(g)]);
    } else {
      RoomyStays(cells, g, c);
      SpliceRoomy(l, gs, i, PutCell(cells, c), PutGarbage(cells, g, c));
    }
  }

  // ----- with 31 bytes some run ends in the exit

  /** The leftmost page, which falling keys always reach. */
  datatype Front = Front(cells: seq<Cell>, garbage: nat)

  function Pushed(f: Front, c: Cell): (r: Front)
    ensures r.cells != [] && r.cells[0] == c
  {
    var n, g := [c] + f.cells, Page.Checked(f.garbage);
    if |n| >= ORDER then Front(n[..5], g + Total(n[5..])) else Front(n, g)
  }

  lemma {:induction false} FirstLeaf(t: Tree, lo: int, hi: int, h: nat)
    requires Ordered(t, lo, hi) && Balanced(t, h) && 1 <= Size(t)
    ensures Leaves(t) != [] && Leaves(t)[0] != [] && Leaves(t)[0][0].key <= hi && Sorted(Leaves(t)[0])
    decreases t
  {
    if t.Interior? {
      FirstLeaf(t.kids[0], Below(t.keys, lo, 0), Above(t.keys, hi, 0), h - 1);
    }
  }

  lemma {:induction false} FirstIndex(t: Tree, lo: int, hi: int, h: nat, k: Key)
    requires Ordered(t, lo, hi) && Balanced(t, h) && 1 <= Size(t) && Insertable(t)
    requires Leaves(t) != [] && Leaves(t)[0] != [] && k < Leaves(t)[0][0].key
    ensures Index(t, k) == 0
    decreases t
  {
    if t.Interior? {
      var kid, hi' := t.kids[0], t.keys[0];
      FirstLeaf(kid, lo, hi', h - 1);
      FirstIndex(kid, lo, hi', h - 1, k);
      assert t.kids[..0] == [];
    }
  }

  ghost function FrontOf(cs: seq<Cell>): Front
    requires FateOf(cs).Running?
  {
    Front(Leaves(Run(cs).0)[0], FateOf(cs).garbage[0])
  }

  /** One more insert: what the tree and its fate become. */
  lemma OneMore(cs: seq<Cell>, c: Cell)
    requires FateOf(cs).Running?
    ensures var (t, h) := Run(cs);
            && Valid(t, h) && Insertable(t) && Index(t, c.key) < |Leaves(t)|
            && Leaves(Run(cs + [c]).0) == LeavesAfter(Leaves(t), Index(t, c.key), c)
            && FateOf(cs + [c]) == NextFate(Leaves(t), FateOf(cs).garbage, Index(t, c.key), c)
  {
    var all := cs + [c];
    assert all[..|all| - 1] == cs && all[|all| - 1] == c;
    InsertRefinesMap(Run(cs).0, Run(cs).1, c);
    InsertLeaves(Run(cs).0, c);
  }

  ghost predicate IsFront(cs: seq<Cell>, f: Front) {
    FateOf(cs).Running? && FrontOf(cs) == f && (f.cells == [] <==> cs == [])
  }

  /** The new cell goes to the front, and its verdict is the fate of the run. */
  lemma FrontPut(cs: seq<Cell>, f: Front, c: Cell)
    requires IsFront(cs, f) && (cs != [] ==> c.key < f.cells[0].key)
    ensures Store(f.cells, Page.Checked(f.garbage), c) == Go ==> IsFront(cs + [c], Pushed(f, c))
    ensures Store(f.cells, Page.Checked(f.garbage), c) == Exit ==> FateOf(cs + [c]).Exited?
    ensures Store(f.cells, Page.Checked(f.garbage), c) == Overrun ==> FateOf(cs + [c]).Overran?
  {
    OneMore(cs, c);
    var (t, h) := Run(cs);
    if cs != [] { FrontIndex(t, h, c.key); }
    FrontJudged(Leaves(t), FateOf(cs).garbage, c);
  }

  lemma FrontIndex(t: Tree, h: nat, k: Key)
    requires Valid(t, h) && Insertable(t) && Leaves(t) != [] && Leaves(t)[0] != [] && k < Leaves(t)[0][0].key
    ensures Index(t, k) == 0 && Sorted(Leaves(t)[0])
  {
    FirstLeaf(t, -1, TOP, h);
    FirstIndex(t, -1, TOP, h, k);
  }

  lemma FrontJudged(l: seq<seq<Cell>>, gs: seq<nat>, c: Cell)
    requires l != [] && |gs| == |l| && (l[0] == [] || c.key < l[0][0].key) && Sorted(l[0])
    ensures var v := Store(l[0], Page.Checked(gs[0]), c);
            && (v == Exit ==> NextFate(l, gs, 0, c) == Exited)
            && (v == Overrun ==> NextFate(l, gs, 0, c) == Overran)
            && (v == Go ==> NextFate(l, gs, 0, c).Running?)
    ensures var f := Pushed(Front(l[0], gs[0]), c);
            LeavesAfter(l, 0, c)[0] == f.cells && Splice(gs, 0, PutGarbage(l[0], gs[0], c))[0] == f.garbage
  {
    assert InsertCell(l[0], c) == [c] + l[0];
    if Store(l[0], Page.Checked(gs[0]), c) == Go { SplitFits(l[0], gs[0], c); }
  }

  /** Five cells of 64 bytes together, then five of 192 bytes, and so on. */
  function SizeAt(i: nat): nat { SizeIn(i / 5 % 2 == 1, i % 5) }

  function SizeIn(large: bool, p: nat): (size: nat)
    ensures 8 <= size <= 39
  {
    if large then (if p < 2 then 39 else 38) else (if p == 4 then 32 else 8)
  }

  /** The inserts after which the page holds five small cells and 1280 bytes of garbage. */
  const LAST: nat := 55

  function Filler(i: nat, size: nat): Cell
    requires i <= LAST + 3 && size >= 8
  {
    Cell(LAST + 3 - i, seq(size - 8, _ => 0))
  }

  function CellAt(i: nat): Cell
    requires i < LAST
  {
    Filler(i, SizeAt(i))
  }

  function Script(n: nat): (cs: seq<Cell>)
    requires n <= LAST
    ensures |cs| == n && Small(cs, 31)
  {
    if n == 0 then [] else Script(n - 1) + [CellAt(n - 1)]
  }

  /** The leftmost page after each insert of the script, as long as the program has not exited. */
  ghost predicate Trace(fs: seq<Front>) {
    && 0 < |fs| <= LAST + 1 && fs[0] == Front([], 0)
    && forall k: nat :: k + 1 < |fs| ==> Pushes(fs, k)
  }

  ghost predicate Pushes(fs: seq<Front>, k: nat)
    requires k + 1 < |fs| <= LAST + 1
  {
    fs[k + 1] == Pushed(fs[k], CellAt(k))
  }

  lemma {:induction false} MakeTrace(n: nat) returns (fs: seq<Front>)
    requires n <= LAST
    ensures Trace(fs) && |fs| == n + 1
  {
    fs := [Front([], 0)];
    var k: nat := 0;
    while k < n
      invariant k <= n && |fs| == k + 1 && Trace(fs)
    {
      var more := fs + [Pushed(fs[k], CellAt(k))];
      forall j: nat | j + 1 < |more| ensures Pushes(more, j) {
        if j < k { assert Pushes(fs, j); }
      }
      fs, k := more, k + 1;
    }
  }

  lemma {:induction false} ScriptRuns(fs: seq<Front>, n: nat)
    requires Trace(fs) && n < |fs| && forall k: nat :: k < n ==> RoomAt(fs, k)
    ensures IsFront(Script(n), fs[n])
    ensures n > 0 ==> fs[n].cells[0] == CellAt(n - 1)
  {
    if n > 0 {
      ScriptRuns(fs, n - 1);
      assert Pushes(fs, n - 1) && RoomAt(fs, n - 1);
      FrontPut(Script(n - 1), fs[n - 1], CellAt(n - 1));
    }
  }

  ghost predicate RoomAt(fs: seq<Front>, k: nat)
    requires k < |fs| && k < LAST
  {
    Store(fs[k].cells, Page.Checked(fs[k].garbage), CellAt(k)) == Go
  }

  /** Cells n to n + i - 1, the last in front. */
  function Top(n: nat, i: nat): (cells: seq<Cell>)
    requires n + i <= LAST
    ensures |cells| == i
  {
    if i == 0 then [] else [CellAt(n + i - 1)] + Top(n, i - 1)
  }

  lemma InFives(m: nat, n: nat, i: nat)
    requires n == 5 * m + i && i < 5
    ensures n / 5 == m && n % 5 == i
  {
  }

  lemma TopMore(n: nat, i: nat)
    requires n + i < LAST
    ensures Total(Top(n, i + 1)) == CellSize(CellAt(n + i)) + Total(Top(n, i))
  {
    assert Top(n, i + 1)[1..] == Top(n, i);
  }

  lemma {:induction false} TopGrows(n: nat, i: nat, j: nat)
    requires i <= j && n + j <= LAST
    ensures Total(Top(n, i)) <= Total(Top(n, j))
  {
    if i < j {
      TopGrows(n, i, j - 1);
      TopMore(n, j - 1);
    }
  }

  lemma TotalTop(n: nat, m: nat, i: nat)
    requires n == 5 * m && i < 5 && n + i < LAST
    ensures Total(Top(n, i + 1)) == SizeIn(m % 2 == 1, i) + Total(Top(n, i))
  {
    InFives(m, n + i, i);
    TopMore(n, i);
  }

  lemma FiveTotal(n: nat, m: nat)
    requires n == 5 * m && n + 5 <= LAST
    ensures Total(Top(n, 5)) == RoundSize(m)
  {
    TotalTop(n, m, 0);
    TotalTop(n, m, 1);
    TotalTop(n, m, 2);
    TotalTop(n, m, 3);
    TotalTop(n, m, 4);
  }

  lemma PushSome(fs: seq<Front>, n: nat, f: Front, i: nat)
    requires Trace(fs) && i <= 4 && n + i < |fs| && f == fs[n] && f.garbage % 256 <= 64 && |f.cells| < ORDER - 4
    ensures fs[n + i] == Front(Top(n, i) + f.cells, f.garbage)
  {
    TopNone(n, 0, f.cells);
    if i > 0 { PushMore(fs, n, f, 0, n); }
    if i > 1 { PushMore(fs, n, f, 1, n + 1); }
    if i > 2 { PushMore(fs, n, f, 2, n + 2); }
    if i > 3 { PushMore(fs, n, f, 3, n + 3); }
  }

  lemma PushMore(fs: seq<Front>, n: nat, f: Front, i: nat, k: nat)
    requires Trace(fs) && k == n + i && k + 1 < |fs| && f.garbage % 256 <= 64 && i + 1 + |f.cells| < ORDER
    requires fs[k] == Front(Top(n, i) + f.cells, f.garbage)
    ensures fs[k + 1] == Front(Top(n, i + 1) + f.cells, f.garbage)
  {
    assert Pushes(fs, k);
    PushOnto(Top(n, i), f.cells, f.garbage, CellAt(k));
    TopNext(n, i);
  }

  lemma TopNone(n: nat, i: nat, cells: seq<Cell>)
    requires i == 0 && n <= LAST
    ensures Top(n, i) + cells == cells
  {
  }

  lemma TopNext(n: nat, i: nat)
    requires n + i < LAST
    ensures Top(n, i + 1) == [CellAt(n + i)] + Top(n, i)
  {
  }

  lemma PushOnto(top: seq<Cell>, cells: seq<Cell>, g: nat, c: Cell)
    requires |top| + |cells| + 1 < ORDER && g % 256 <= 64
    ensures Pushed(Front(top + cells, g), c) == Front([c] + top + cells, g)
  {
    assert [c] + (top + cells) == [c] + top + cells;
  }

  /** Five cells in front of five: the old ones become garbage. */
  lemma PushFive(fs: seq<Front>, n: nat)
    requires Trace(fs) && n + 5 < |fs| && |fs[n].cells| == 5 && fs[n].garbage % 256 <= 64
    ensures fs[n + 5] == Front(Top(n, 5), fs[n].garbage + Total(fs[n].cells))
  {
    PushSome(fs, n, fs[n], 4);
    assert Pushes(fs, n + 4);
    PushLast(Top(n, 4), fs[n].cells, fs[n].garbage, CellAt(n + 4));
  }

  lemma PushLast(top: seq<Cell>, cells: seq<Cell>, g: nat, c: Cell)
    requires |top| == 4 && |cells| == 5 && g % 256 <= 64
    ensures Pushed(Front(top + cells, g), c) == Front([c] + top, g + Total(cells))
  {
    var n := [c] + (top + cells);
    assert n[..5] == [c] + top && n[5..] == cells;
  }

  /** The garbage after m + 1 rounds of five cells: each round turns the cells of the one before
      into garbage. */
  function GarbageAfter(m: nat): nat {
    if m == 0 then 0 else GarbageAfter(m - 1) + RoundSize(m - 1)
  }

  function RoundSize(m: nat): nat { if m % 2 == 0 then 64 else 192 }

  lemma {:induction false} EvenRounds(k: nat, m: nat)
    requires m == 2 * k
    ensures GarbageAfter(m) == 256 * k && GarbageAfter(m + 1) == 256 * k + 64
  {
    if k > 0 {
      EvenRounds(k - 1, m - 2);
      assert GarbageAfter(m) == GarbageAfter(m - 1) + RoundSize(m - 1);
    }
  }

  /** The counter never shows more than 64, though every second round ends 256 bytes higher. */
  lemma Unseen(m: nat)
    ensures GarbageAfter(m) % 256 <= 64
  {
    var k := m / 2;
    EvenRounds(k, 2 * k);
    Wraps(k, 0);
    Wraps(k, 64);
  }

  lemma Wraps(k: nat, r: nat)
    requires r < 256
    ensures (256 * k + r) % 256 == r
  {
  }

  ghost predicate IsRound(f: Front, m: nat) {
    |f.cells| == 5 && f.garbage == GarbageAfter(m) && Total(f.cells) == RoundSize(m)
  }

  lemma {:induction false} Rounds(fs: seq<Front>, m: nat, n: nat)
    requires Trace(fs) && n == 5 * m && n + 5 < |fs|
    ensures IsRound(fs[n + 5], m)
  {
    if m == 0 {
      PushSome(fs, n, fs[n], 4);
      PushMore(fs, n, fs[n], 4, n + 4);
      assert Top(n, 5) + [] == Top(n, 5);
    } else {
      Rounds(fs, m - 1, n - 5);
      Unseen(m - 1);
      PushFive(fs, n);
    }
    FiveTotal(n, m);
  }

  /** In the middle of a round the page has room for the next cell. */
  lemma RoundRoom(fs: seq<Front>, m: nat, n: nat, i: nat)
    requires Trace(fs) && n == 5 * m && n + 5 <= LAST && i < 5 && n + i < |fs|
    ensures RoomAt(fs, n + i)
  {
    if m > 0 { Rounds(fs, m - 1, n - 5); }
    RoundStart(m);
    PushSome(fs, n, fs[n], i);
    TopBelow(n, m, i);
    RoomBehind(Top(n, i), fs[n].cells, fs[n].garbage, CellAt(n + i));
  }

  lemma RoomBehind(top: seq<Cell>, cells: seq<Cell>, g: nat, c: Cell)
    requires |top| <= 4 && |cells| <= 5 && g <= 1152 && g % 256 <= 64 && Total(top) + CellSize(c) + Total(cells) <= 256
    ensures Store(top + cells, Page.Checked(g), c) == Go
  {
    TotalConcat(top, cells);
  }

  /** What the page holds before round m leaves room for the cells of the round. */
  lemma RoundStart(m: nat)
    requires m <= 10
    ensures m > 0 ==> GarbageAfter(m - 1) % 256 <= 64 && GarbageAfter(m - 1) <= 1152
  {
    if m > 0 {
      Unseen(m - 1);
      EvenRounds((m - 1) / 2, (m - 1) / 2 * 2);
    }
  }

  lemma TopBelow(n: nat, m: nat, i: nat)
    requires n == 5 * m && n + 5 <= LAST && i < 5
    ensures Total(Top(n, i)) + CellSize(CellAt(n + i)) <= RoundSize(m)
  {
    TopMore(n, i);
    TopGrows(n, i + 1, 5);
    FiveTotal(n, m);
  }

  /** The script runs to its end and leaves 82 bytes of room in the leftmost page. */
  lemma ScriptFills(m: nat, n: nat) returns (f: Front)
    requires m == 10 && n == 5 * m + 5
    ensures n == LAST && IsFront(Script(n), f) && f.cells != [] && f.cells[0] == CellAt(n - 1)
    ensures |f.cells| == 5 && Space(f.cells, f.garbage) == 82 && f.garbage % 256 == 0
  {
    var fs := MakeTrace(n);
    AllRoom(fs, m, n);
    ScriptRuns(fs, n);
    Rounds(fs, m, n - 5);
    f := fs[n];
    RoundSpace(f, m);
  }

  lemma AllRoom(fs: seq<Front>, m: nat, n: nat)
    requires Trace(fs) && n == 5 * m + 5 && n <= LAST && n < |fs|
    ensures forall k: nat :: k < n ==> RoomAt(fs, k)
  {
    forall k: nat | k < n ensures RoomAt(fs, k) {
      var q := k / 5;
      RoundRoom(fs, q, 5 * q, k - 5 * q);
    }
  }

  lemma RoundSpace(f: Front, m: nat)
    requires m == 10 && IsRound(f, m)
    ensures Space(f.cells, f.garbage) == 82 && f.garbage % 256 == 0
  {
    EvenRounds(5, m);
  }

  function Ending(a: nat, b: nat, c: nat): (cs: seq<Cell>)
    requires a >= 8 && b >= 8 && c >= 8
    ensures a <= 39 && b <= 39 && c <= 39 ==> Small(cs, 31)
  {
    Script(LAST) + [Filler(LAST, a)] + [Filler(LAST + 1, b)] + [Filler(LAST + 2, c)]
  }

  /** Three more cells: two that fit, and one that meets what they left. */
  lemma ThreeMore(cs: seq<Cell>, f: Front, x: Cell, y: Cell, z: Cell)
    requires IsFront(cs, f) && |f.cells| == 5 && f.garbage % 256 == 0
    requires f.cells[0].key > x.key > y.key > z.key
    requires CellSize(x) + 2 + CellSize(y) + 2 <= Space(f.cells, f.garbage)
    ensures var room := Space(f.cells, f.garbage) - CellSize(x) - CellSize(y) - 4;
            && (CellSize(z) > room ==> FateOf(cs + [x] + [y] + [z]).Exited?)
            && (CellSize(z) <= room < CellSize(z) + 2 ==> FateOf(cs + [x] + [y] + [z]).Overran?)
  {
    var g, h := Pushed(f, x), Pushed(Pushed(f, x), y);
    FrontPut(cs, f, x);
    PushRoom(f, x);
    FrontPut(cs + [x], g, y);
    PushRoom(g, y);
    FrontPut(cs + [x] + [y], h, z);
  }

  lemma LastThree(a: nat, b: nat, c: nat)
    requires a >= 8 && b >= 8 && c >= 8 && a + b + 4 <= 82
    ensures var room := 78 - a - b;
            && (c > room ==> FateOf(Ending(a, b, c)).Exited?)
            && (c <= room < c + 2 ==> FateOf(Ending(a, b, c)).Overran?)
  {
    var m, n: nat :| m == 10 && n == 5 * m + 5;
    var f := ScriptFills(m, n);
    ThreeMore(Script(n), f, Filler(n, a), Filler(n + 1, b), Filler(n + 2, c));
  }

  lemma PushRoom(f: Front, c: Cell)
    requires |f.cells| + 1 < ORDER && f.garbage % 256 == 0
    ensures var r := Pushed(f, c);
            && |r.cells| == |f.cells| + 1 && r.garbage == f.garbage
            && Space(r.cells, r.garbage) == Space(f.cells, f.garbage) - CellSize(c) - 2
  {
    assert ([c] + f.cells)[1..] == f.cells;
  }

  /** The program exits: its check finds no room at all for a cell of 38 bytes. */
  lemma ScriptExits()
    ensures Small(Ending(39, 39, 38), 31) && FateOf(Ending(39, 39, 38)).Exited?
  {
    LastThree(39, 39, 38);
  }

  /** The program overruns: its check finds room for a cell of 31 bytes and none for the pointer. */
  lemma ScriptOverruns()
    ensures Small(Ending(39, 8, 31), 31) && FateOf(Ending(39, 8, 31)).Overran?
  {
    LastThree(39, 8, 31);
  }

  /** The program is safe from the exit of spaceCheck exactly when no cell holds more than 30 bytes
      of data. */
  lemma NeverExitsIff(d: nat)
    ensures (forall cs :: Small(cs, d) ==> !FateOf(cs).Exited?) <==> d <= 30
  {
    if d <= 30 {
      forall cs | Small(cs, d) ensures !FateOf(cs).Exited? { SmallRunFits(cs); }
    } else {
      ScriptExits();
      assert Small(Ending(39, 39, 38), d);
    }
  }

  /** And exactly then no insert writes a pointer over its own cell. */
  lemma NeverOverrunsIff(d: nat)
    ensures (forall cs :: Small(cs, d) ==> !FateOf(cs).Overran?) <==> d <= 30
  {
    if d <= 30 {
      forall cs | Small(cs, d) ensures !FateOf(cs).Overran? { SmallRunFits(cs); }
    } else {
      ScriptOverruns();
      assert Small(Ending(39, 8, 31), d);
    }
  }

  // ----- the page agrees

  /** The room an insert finds in a page is the one counted here. */
  lemma PageSpace(p: Page.PageRec)
    requires p.leaf && Page.KeysSorted(p.cells)
    ensures Space(Page.LeafView(p.cells), Page.Checked(p.garbage)) == Page.SpaceOf(p)
  {
    TotalView(p.cells);
  }

  lemma {:induction false} TotalView(cs: seq<Page.Bytes>)
    requires Page.KeysSorted(cs)
    ensures Total(Page.LeafView(cs)) == Page.Total(cs)
  {
    if cs != [] {
      TotalView(cs[1..]);
      assert Page.LeafView(cs)[1..] == Page.LeafView(cs[1..]);
    }
  }
}
