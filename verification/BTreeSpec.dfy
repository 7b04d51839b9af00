/** The B+ tree as a value: what an insert does to the shape of the tree, and why the
    tree refines a finite map.  `BTreeNodes` proves that the linked nodes of the program
    compute exactly these functions; `BTreePage` does the same for the bytes of one node.

    An interior node with cells (k0,c0) .. (kn-1,cn-1) and right child r is written with
    its separators [k0 .. kn-1] and its children [c0 .. cn-1, r]. */
module BTreeSpec {

  const ORDER: nat := 10

  type Key = k: int | 0 <= k < 0x1_0000_0000
  type Byte = b: int | 0 <= b < 256
  type Data = seq<Byte>

  datatype Cell = Cell(key: Key, data: Data)

  datatype Tree =
    | Leaf(cells: seq<Cell>)
    | Interior(keys: seq<Key>, kids: seq<Tree>)

  /** How inserting below a node changed it: the key was there already, the node absorbed
      the cell, or the node was cut in two with `sep` the largest key of the left half. */
  datatype Outcome =
    | Present
    | Fit(tree: Tree)
    | Split(left: Tree, sep: Key, right: Tree)

  // ----- the in-order cell sequence and the map it stands for

  function Flat(t: Tree): seq<Cell>
    decreases t, 0
  {
    match t
    case Leaf(cells) => cells
    case Interior(_, kids) => FlatAll(kids)
  }

  function FlatAll(kids: seq<Tree>): seq<Cell>
    decreases kids, 1
  {
    if kids == [] then [] else Flat(kids[0]) + FlatAll(kids[1..])
  }

  function ToMap(s: seq<Cell>): map<Key, Data>
  {
    if s == [] then map[] else ToMap(s[..|s| - 1])[s[|s| - 1].key := s[|s| - 1].data]
  }

  function Contents(t: Tree): map<Key, Data> {
    ToMap(Flat(t))
  }

  ghost predicate Sorted(s: seq<Cell>) {
    forall i, j :: 0 <= i < j < |s| ==> s[i].key < s[j].key
  }

  ghost predicate Within(s: seq<Cell>, lo: int, hi: int) {
    forall i :: 0 <= i < |s| ==> lo < s[i].key <= hi
  }

  // ----- tree invariants

  ghost predicate Increasing(keys: seq<Key>) {
    forall i, j :: 0 <= i < j < |keys| ==> keys[i] < keys[j]
  }

  function Below(keys: seq<Key>, lo: int, i: nat): int
    requires i <= |keys|
  {
    if i == 0 then lo else keys[i - 1]
  }

  function Above(keys: seq<Key>, hi: int, i: nat): int
    requires i <= |keys|
  {
    if i == |keys| then hi else keys[i]
  }

  /** Every key below `t` lies in (lo, hi], and every separator of every node below `t`
      separates: child i holds exactly keys in (keys[i-1], keys[i]]. */
  ghost predicate Ordered(t: Tree, lo: int, hi: int)
    decreases t
  {
    match t
    case Leaf(cells) => Sorted(cells) && Within(cells, lo, hi)
    case Interior(keys, kids) =>
      && |kids| == |keys| + 1
      && Increasing(keys)
      && (forall i :: 0 <= i < |keys| ==> lo < keys[i] < hi)
      && (forall i :: 0 <= i < |kids| ==> Ordered(kids[i], Below(keys, lo, i), Above(keys, hi, i)))
  }

  function Size(t: Tree): nat {
    match t
    case Leaf(cells) => |cells|
    case Interior(keys, _) => |keys|
  }

  function MinSize(t: Tree): nat {
    if t.Leaf? then 5 else 4
  }

  /** All leaves are `h` levels down, and every node strictly below `t` holds at least
      MinSize and fewer than ORDER cells. */
  ghost predicate Balanced(t: Tree, h: nat)
    decreases t
  {
    match t
    case Leaf(_) => h == 0
    case Interior(keys, kids) =>
      && h > 0
      && |kids| == |keys| + 1
      && (forall i :: 0 <= i < |kids| ==>
            Balanced(kids[i], h - 1) && MinSize(kids[i]) <= Size(kids[i]) < ORDER)
  }

  const TOP: int := 0x1_0000_0000

  /** What every tree reached by inserts satisfies at its root. */
  ghost predicate Valid(t: Tree, h: nat) {
    && Ordered(t, -1, TOP)
    && Balanced(t, h)
    && Size(t) < ORDER
    && (t.Interior? ==> 1 <= Size(t))
  }

  // ----- the operations

  predicate HasKey(cells: seq<Cell>, k: Key) {
    exists i :: 0 <= i < |cells| && cells[i].key == k
  }

  /** Index of the child that search and insert descend into. */
  function ChildIndex(keys: seq<Key>, k: Key): (j: nat)
    ensures j <= |keys|
    ensures j < |keys| ==> k <= keys[j]
    ensures forall i :: 0 <= i < j ==> keys[i] < k
  {
    if keys == [] then 0
    else if k > keys[0] then
      assert forall i :: 1 <= i < |keys| ==> keys[i] == keys[1..][i - 1];
      1 + ChildIndex(keys[1..], k)
    else 0
  }

  /** Index at which a leaf scan for `k` stops: the first cell with a key not below `k`. */
  function CellIndex(cells: seq<Cell>, k: Key): (j: nat)
    ensures j <= |cells|
    ensures j < |cells| ==> k <= cells[j].key
    ensures forall i :: 0 <= i < j ==> cells[i].key < k
  {
    if cells == [] then 0
    else if cells[0].key < k then
      assert forall i :: 1 <= i < |cells| ==> cells[i] == cells[1..][i - 1];
      1 + CellIndex(cells[1..], k)
    else 0
  }

  function InsertCell(cells: seq<Cell>, c: Cell): seq<Cell> {
    var j := CellIndex(cells, c.key);
    cells[..j] + [c] + cells[j..]
  }

  /** Replace child `j` by two children separated by `sep`. */
  function WithPair(t: Tree, j: nat, left: Tree, sep: Key, right: Tree): Tree
    requires t.Interior? && j <= |t.keys| && |t.kids| == |t.keys| + 1
  {
    Interior(t.keys[..j] + [sep] + t.keys[j..], t.kids[..j] + [left, right] + t.kids[j + 1..])
  }

  function Cut(t: Tree): Outcome
    requires Size(t) == ORDER
    requires t.Interior? ==> |t.kids| == |t.keys| + 1
  {
    match t
    case Leaf(cells) => Split(Leaf(cells[..5]), cells[4].key, Leaf(cells[5..]))
    case Interior(keys, kids) =>
      Split(Interior(keys[..5], kids[..6]), keys[5], Interior(keys[6..], kids[6..]))
  }

  function Grown(t: Tree): (o: Outcome)
    requires Size(t) <= ORDER
    requires t.Interior? ==> |t.kids| == |t.keys| + 1
    ensures !o.Present?
  {
    if Size(t) >= ORDER then Cut(t) else Fit(t)
  }

  /** Shape of the nodes Insert2 may be applied to: below the order everywhere. */
  ghost predicate Insertable(t: Tree)
    decreases t
  {
    && Size(t) < ORDER
    && (t.Interior? ==>
          && |t.kids| == |t.keys| + 1
          && forall i :: 0 <= i < |t.kids| ==> Insertable(t.kids[i]))
  }

  ghost function Insert2(t: Tree, c: Cell): Outcome
    requires Insertable(t)
    decreases t
  {
    match t
    case Leaf(cells) =>
      if HasKey(cells, c.key) then Present else Grown(Leaf(InsertCell(cells, c)))
    case Interior(keys, kids) =>
      var j := ChildIndex(keys, c.key);
      match Insert2(kids[j], c)
      case Present => Present
      case Fit(kid) => Grown(Interior(keys, kids[j := kid]))
      case Split(left, sep, right) => Grown(WithPair(t, j, left, sep, right))
  }

  /** `insert`: a split of the root makes a new root with one separator. */
  ghost function Insert(t: Tree, c: Cell): (r: (bool, Tree))
    requires Insertable(t)
  {
    match Insert2(t, c)
    case Present => (false, t)
    case Fit(t') => (true, t')
    case Split(left, sep, right) => (true, Interior([sep], [left, right]))
  }
}
