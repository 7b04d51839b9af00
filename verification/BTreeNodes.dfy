/** The B+ tree as the program holds it: node records reached through the ids of children and
    updated in place, with a child's split rewriting its father's record.  A ghost
    `Shape` says which records make up a subtree; every method is proved to leave records
    that stand for exactly the tree the functions of `BTreeSpec` compute. */
module BTreeNodes {
  import opened Common
  import opened BTreeSpec
  import opened BTreeProofs

  type Id = nat

  datatype IntCell = IntCell(key: Key, child: Id)

  datatype NodeRec =
    | LeafNode(cells: seq<Cell>)
    | IntNode(icells: seq<IntCell>, right: Id)

  type Store = map<Id, NodeRec>

  // ----- interior cell sequences

  function KeysOf(s: seq<IntCell>): (ks: seq<Key>)
    ensures |ks| == |s| && forall i :: 0 <= i < |ks| ==> ks[i] == s[i].key
  {
    seq(|s|, i requires 0 <= i < |s| => s[i].key)
  }

  /** The children of a node, right child last. */
  function KidsOf(s: seq<IntCell>, right: Id): (ks: seq<Id>)
    ensures |ks| == |s| + 1 && ks[|s|] == right && forall i :: 0 <= i < |s| ==> ks[i] == s[i].child
  {
    seq(|s|, i requires 0 <= i < |s| => s[i].child) + [right]
  }

  /** Where insertIntCell puts a key: before the first larger one. */
  function IntSlot(s: seq<IntCell>, k: Key): (j: nat)
    ensures j <= |s|
    ensures forall i :: 0 <= i < j ==> s[i].key <= k
    ensures j < |s| ==> k < s[j].key
  {
    if s == [] || k < s[0].key then 0
    else
      assert forall i :: 1 <= i < |s| ==> s[i] == s[1..][i - 1];
      1 + IntSlot(s[1..], k)
  }

  function WithIntCell(s: seq<IntCell>, c: IntCell): seq<IntCell> {
    s[..IntSlot(s, c.key)] + [c] + s[IntSlot(s, c.key)..]
  }

  lemma {:induction false} SlotUnique(s: seq<IntCell>, k: Key, j: nat)
    requires j <= |s|
    requires forall i :: 0 <= i < j ==> s[i].key <= k
    requires j < |s| ==> k < s[j].key
    ensures IntSlot(s, k) == j
  {
  }

  lemma {:induction false} InsertBetween(before: seq<IntCell>, after: seq<IntCell>, c: IntCell)
    requires forall i :: 0 <= i < |before| ==> before[i].key <= c.key
    requires after != [] ==> c.key < after[0].key
    ensures WithIntCell(before + after, c) == before + [c] + after
  {
    SlotUnique(before + after, c.key, |before|);
  }

  /** Child `j` becomes `node`, followed by a new child `added`; `sep` goes between them. */
  function Paired(s: seq<IntCell>, j: nat, node: Id, sep: Key, added: Id): seq<IntCell>
    requires j <= |s|
  {
    if j == |s| then s + [IntCell(sep, node)]
    else s[..j] + [IntCell(sep, node), IntCell(s[j].key, added)] + s[j + 1..]
  }

  function PairedRight(s: seq<IntCell>, right: Id, j: nat, added: Id): Id {
    if j == |s| then added else right
  }

  lemma {:induction false} PairedKeys(s: seq<IntCell>, j: nat, node: Id, sep: Key, added: Id)
    requires j <= |s|
    ensures KeysOf(Paired(s, j, node, sep, added)) == KeysOf(s)[..j] + [sep] + KeysOf(s)[j..]
  {
    var s' := Paired(s, j, node, sep, added);
    var ks := KeysOf(s)[..j] + [sep] + KeysOf(s)[j..];
    forall i | 0 <= i < |s'| ensures KeysOf(s')[i] == ks[i] {
      assert i > j ==> ks[i] == KeysOf(s)[i - 1];
    }
    assert KeysOf(s') == ks;
  }

  lemma {:induction false} PairedKids(s: seq<IntCell>, right: Id, j: nat, node: Id, sep: Key, added: Id)
    requires j <= |s|
    ensures KidsOf(Paired(s, j, node, sep, added), PairedRight(s, right, j, added))
         == KidsOf(s, right)[..j] + [node, added] + KidsOf(s, right)[j + 1..]
  {
    var s' := Paired(s, j, node, sep, added);
    var ks' := KidsOf(s', PairedRight(s, right, j, added));
    var want := KidsOf(s, right)[..j] + [node, added] + KidsOf(s, right)[j + 1..];
    forall i | 0 <= i < |ks'| ensures ks'[i] == want[i] {
      if j + 1 < i <= |s| { assert s'[i] == s[i - 1]; }
    }
    assert ks' == want;
  }

  /** Remove the cell, insert the new node, insert the split node: three sorted operations
      that together put the pair where the cell was. */
  lemma {:induction false} RemoveInsertInsert(s: seq<IntCell>, j: nat, node: Id, sep: Key, added: Id)
    requires Increasing(KeysOf(s)) && j < |s| && sep < s[j].key && (j > 0 ==> s[j - 1].key < sep)
    ensures WithIntCell(WithIntCell(s[..j] + s[j + 1..], IntCell(s[j].key, added)), IntCell(sep, node))
         == Paired(s, j, node, sep, added)
  {
    SmallerBefore(s, j);
    PairBetween(s[..j], s[j + 1..], IntCell(s[j].key, added), IntCell(sep, node));
  }

  lemma {:induction false} PairBetween(before: seq<IntCell>, after: seq<IntCell>, c: IntCell, d: IntCell)
    requires forall i :: 0 <= i < |before| ==> before[i].key <= d.key
    requires d.key < c.key && (after != [] ==> c.key < after[0].key)
    ensures WithIntCell(WithIntCell(before + after, c), d) == before + [d, c] + after
  {
    InsertBetween(before, after, c);
    assert before + [c] + after == before + ([c] + after);
    InsertBetween(before, [c] + after, d);
    assert before + [d] + ([c] + after) == before + [d, c] + after;
  }

  lemma {:induction false} AllSmaller(s: seq<IntCell>, k: Key)
    requires Increasing(KeysOf(s)) && (s != [] ==> s[|s| - 1].key <= k)
    ensures IntSlot(s, k) == |s|
  {
    assert forall i :: 0 <= i < |s| ==> KeysOf(s)[i] == s[i].key;
    SlotUnique(s, k, |s|);
  }

  lemma {:induction false} SmallerBefore(s: seq<IntCell>, j: nat)
    requires Increasing(KeysOf(s)) && j < |s|
    ensures forall i :: 0 <= i < j ==> s[i].key <= s[j - 1].key < s[j].key
    ensures j + 1 < |s| ==> s[j].key < s[j + 1].key
  {
    assert forall i :: 0 <= i < |s| ==> KeysOf(s)[i] == s[i].key;
  }

  lemma {:induction false} KidsCut(s: seq<IntCell>, right: Id)
    requires |s| == ORDER
    ensures KidsOf(s[..5], s[5].child) == KidsOf(s, right)[..6]
    ensures KidsOf(s[6..], right) == KidsOf(s, right)[6..]
    ensures KeysOf(s[..5]) == KeysOf(s)[..5] && KeysOf(s[6..]) == KeysOf(s)[6..]
  {
  }

  lemma {:induction false} AppendLargest(s: seq<Cell>, c: Cell)
    requires forall i :: 0 <= i < |s| ==> s[i].key < c.key
    ensures InsertCell(s, c) == s + [c] && !HasKey(s, c.key)
  {
    assert s + [] == s;
    CellIndexConcat(s, [], c.key);
  }

  // ----- which records make up a subtree

  datatype Shape =
    | ShLeaf(id: Id, cells: seq<Cell>)
    | ShInt(id: Id, keys: seq<Key>, kids: seq<Shape>)

  ghost function Abs(s: Shape): (t: Tree)
    ensures t.Leaf? == s.ShLeaf?
  {
    match s
    case ShLeaf(_, cells) => Leaf(cells)
    case ShInt(_, keys, kids) => Interior(keys, seq(|kids|, i requires 0 <= i < |kids| => Abs(kids[i])))
  }

  ghost predicate Owns(s: Shape, x: Id)
    decreases s
  {
    x == s.id || (s.ShInt? && exists i :: 0 <= i < |s.kids| && Owns(s.kids[i], x))
  }

  ghost predicate Apart(a: Shape, b: Shape) {
    forall x :: !(Owns(a, x) && Owns(b, x))
  }

  /** No record is reached twice. */
  ghost predicate Distinct(s: Shape)
    decreases s
  {
    s.ShInt? ==>
      && (forall i :: 0 <= i < |s.kids| ==> Distinct(s.kids[i]) && !Owns(s.kids[i], s.id))
      && (forall i, j :: 0 <= i < j < |s.kids| ==> Apart(s.kids[i], s.kids[j]))
  }

  ghost predicate Rep(st: Store, s: Shape)
    decreases s
  {
    && s.id in st
    && match s
       case ShLeaf(id, cells) => st[id] == LeafNode(cells)
       case ShInt(id, keys, kids) =>
         && st[id].IntNode? && KeysOf(st[id].icells) == keys && |kids| == |keys| + 1
         && (forall i :: 0 <= i < |kids| ==>
               KidsOf(st[id].icells, st[id].right)[i] == kids[i].id && Rep(st, kids[i]))
  }

  /** Records outside a subtree do not matter to it. */
  lemma {:induction false} RepFrame(st: Store, st': Store, s: Shape)
    requires Rep(st, s)
    requires forall x :: Owns(s, x) && x in st ==> x in st' && st'[x] == st[x]
    ensures Rep(st', s)
    decreases s
  {
    assert Owns(s, s.id);
    if s.ShInt? {
      forall i | 0 <= i < |s.kids| ensures Rep(st', s.kids[i]) {
        assert forall x :: Owns(s.kids[i], x) ==> Owns(s, x);
        RepFrame(st, st', s.kids[i]);
      }
    }
  }

  lemma {:induction false} OwnedInStore(st: Store, s: Shape, x: Id)
    requires Rep(st, s) && Owns(s, x)
    ensures x in st
    decreases s
  {
    if x != s.id {
      var i :| 0 <= i < |s.kids| && Owns(s.kids[i], x);
      OwnedInStore(st, s.kids[i], x);
    }
  }

  /** Records of `s'` are records of `s` or were allocated since `st`. */
  ghost predicate From(st: Store, s: Shape, s': Shape) {
    forall x :: Owns(s', x) ==> Owns(s, x) || x !in st
  }

  /** Only records of `s`, and those listed, changed; none was freed. */
  ghost predicate Keeps(st: Store, st': Store, s: Shape, also: set<Id>) {
    && st.Keys <= st'.Keys
    && forall x :: x in st && x !in also && !Owns(s, x) ==> st'[x] == st[x]
  }

  /** A subtree that replaced `s`: same record, well formed, made of old and new records. */
  ghost predicate Replaces(st: Store, st': Store, s: Shape, s': Shape) {
    s'.id == s.id && Rep(st', s') && Distinct(s') && From(st, s, s')
  }

  ghost function WithKid(s: Shape, j: nat, kid: Shape): Shape
    requires s.ShInt? && j < |s.kids|
  {
    s.(kids := s.kids[j := kid])
  }

  ghost function WithKidPair(s: Shape, j: nat, l: Shape, sep: Key, r: Shape): Shape
    requires s.ShInt? && j <= |s.keys| && |s.kids| == |s.keys| + 1
  {
    ShInt(s.id, s.keys[..j] + [sep] + s.keys[j..], s.kids[..j] + [l, r] + s.kids[j + 1..])
  }

  /** Siblings of a changed child keep their records and stay apart from it. */
  lemma {:induction false} SiblingKept(st: Store, st': Store, s: Shape, j: nat, i: nat, kid: Shape)
    requires s.ShInt? && Rep(st, s) && Distinct(s) && j < |s.kids| && i < |s.kids| && i != j
    requires Keeps(st, st', s.kids[j], {s.id}) && From(st, s.kids[j], kid)
    ensures Rep(st', s.kids[i]) && Apart(s.kids[i], kid) && Apart(kid, s.kids[i])
  {
    assert Apart(s.kids[if i < j then i else j], s.kids[if i < j then j else i]);
    RepFrame(st, st', s.kids[i]);
    forall x | Owns(s.kids[i], x) ensures !Owns(kid, x) {
      OwnedInStore(st, s.kids[i], x);
    }
  }

  lemma {:induction false} FitKid(st: Store, st': Store, s: Shape, j: nat, kid: Shape)
    requires s.ShInt? && Rep(st, s) && Distinct(s) && j < |s.kids|
    requires Keeps(st, st', s.kids[j], {}) && Replaces(st, st', s.kids[j], kid)
    ensures Replaces(st, st', s, WithKid(s, j, kid))
    ensures Abs(WithKid(s, j, kid)) == Interior(s.keys, Abs(s).kids[j := Abs(kid)])
  {
    var s' := WithKid(s, j, kid);
    assert !Owns(s.kids[j], s.id);
    forall i | 0 <= i < |s.kids| && i != j
      ensures Rep(st', s.kids[i]) && Apart(s.kids[i], kid) && Apart(kid, s.kids[i])
    {
      SiblingKept(st, st', s, j, i, kid);
    }
    assert !Owns(kid, s.id);
    forall x | Owns(s', x) ensures Owns(s, x) || x !in st {
      if x != s.id {
        var i :| 0 <= i < |s'.kids| && Owns(s'.kids[i], x);
        if i != j { assert Owns(s.kids[i], x); }
      }
    }
    assert Abs(s').kids == Abs(s).kids[j := Abs(kid)];
  }

  lemma {:induction false} PairShape(s: Shape, j: nat, l: Shape, sep: Key, r: Shape, i: nat)
    requires s.ShInt? && j < |s.kids| && |s.kids| == |s.keys| + 1 && i <= |s.kids|
    ensures |WithKidPair(s, j, l, sep, r).kids| == |s.kids| + 1
    ensures WithKidPair(s, j, l, sep, r).kids[i]
         == if i < j then s.kids[i] else if i == j then l else if i == j + 1 then r else s.kids[i - 1]
  {
  }

  lemma {:induction false} PairAbs(s: Shape, j: nat, l: Shape, sep: Key, r: Shape)
    requires s.ShInt? && j < |s.kids| && |s.kids| == |s.keys| + 1
    ensures Abs(WithKidPair(s, j, l, sep, r)) == WithPair(Abs(s), j, Abs(l), sep, Abs(r))
  {
    var s' := WithKidPair(s, j, l, sep, r);
    var t := WithPair(Abs(s), j, Abs(l), sep, Abs(r));
    forall i: nat | i <= |s.kids| ensures Abs(s').kids[i] == t.kids[i] {
      PairShape(s, j, l, sep, r, i);
    }
    assert Abs(s').kids == t.kids;
  }

  lemma {:induction false} PairKid(st: Store, st': Store, s: Shape, j: nat, l: Shape, sep: Key, r: Shape)
    requires s.ShInt? && Rep(st, s) && Distinct(s) && j < |s.kids|
    requires Keeps(st, st', s.kids[j], {s.id}) && Replaces(st, st', s.kids[j], l)
    requires Rep(st', r) && Distinct(r) && From(st, s.kids[j], r) && Apart(l, r)
    requires st'[s.id] == IntNode(Paired(st[s.id].icells, j, l.id, sep, r.id),
                                  PairedRight(st[s.id].icells, st[s.id].right, j, r.id))
    ensures Replaces(st, st', s, WithKidPair(s, j, l, sep, r))
  {
    var s' := WithKidPair(s, j, l, sep, r);
    PairRep(st, st', s, j, l, sep, r);
    PairDistinct(st, st', s, j, l, sep, r);
    forall x | Owns(s', x) ensures Owns(s, x) || x !in st {
      if x != s.id {
        var i :| 0 <= i < |s'.kids| && Owns(s'.kids[i], x);
        PairShape(s, j, l, sep, r, i);
      }
    }
  }

  lemma {:induction false} PairRep(st: Store, st': Store, s: Shape, j: nat, l: Shape, sep: Key, r: Shape)
    requires s.ShInt? && Rep(st, s) && Distinct(s) && j < |s.kids|
    requires Keeps(st, st', s.kids[j], {s.id}) && Replaces(st, st', s.kids[j], l)
    requires Rep(st', r) && From(st, s.kids[j], r)
    requires st'[s.id] == IntNode(Paired(st[s.id].icells, j, l.id, sep, r.id),
                                  PairedRight(st[s.id].icells, st[s.id].right, j, r.id))
    ensures Rep(st', WithKidPair(s, j, l, sep, r))
  {
    var s' := WithKidPair(s, j, l, sep, r);
    PairedKeys(st[s.id].icells, j, l.id, sep, r.id);
    PairedKids(st[s.id].icells, st[s.id].right, j, l.id, sep, r.id);
    var ids := KidsOf(st'[s.id].icells, st'[s.id].right);
    forall i | 0 <= i < |s'.kids| ensures ids[i] == s'.kids[i].id && Rep(st', s'.kids[i]) {
      PairShape(s, j, l, sep, r, i);
      if i < j { SiblingKept(st, st', s, j, i, l); }
      if i > j + 1 { SiblingKept(st, st', s, j, i - 1, l); }
    }
  }

  lemma {:induction false} PairDistinct(st: Store, st': Store, s: Shape, j: nat, l: Shape, sep: Key, r: Shape)
    requires s.ShInt? && Rep(st, s) && Distinct(s) && j < |s.kids|
    requires Keeps(st, st', s.kids[j], {s.id}) && Replaces(st, st', s.kids[j], l)
    requires Distinct(r) && From(st, s.kids[j], r) && Apart(l, r)
    ensures Distinct(WithKidPair(s, j, l, sep, r))
  {
    var s' := WithKidPair(s, j, l, sep, r);
    forall i | 0 <= i < |s'.kids| ensures Distinct(s'.kids[i]) && !Owns(s'.kids[i], s.id) {
      PairShape(s, j, l, sep, r, i);
      assert !Owns(s.kids[j], s.id);
    }
    forall a, b | 0 <= a < b < |s'.kids| ensures Apart(s'.kids[a], s'.kids[b]) {
      PairShape(s, j, l, sep, r, a);
      PairShape(s, j, l, sep, r, b);
      PairApart(st, st', s, j, l, r, a, b);
    }
  }

  lemma {:induction false} PairApart(st: Store, st': Store, s: Shape, j: nat, l: Shape, r: Shape, a: nat, b: nat)
    requires s.ShInt? && Rep(st, s) && Distinct(s) && j < |s.kids| && a < b <= |s.kids|
    requires Keeps(st, st', s.kids[j], {s.id}) && From(st, s.kids[j], l)
    requires From(st, s.kids[j], r) && Apart(l, r)
    ensures Apart(if a < j then s.kids[a] else if a == j then l else if a == j + 1 then r else s.kids[a - 1],
                  if b < j then s.kids[b] else if b == j then l else if b == j + 1 then r else s.kids[b - 1])
  {
    if a < j && (b == j || b == j + 1) {
      SiblingKept(st, st', s, j, a, if b == j then l else r);
    } else if (a == j || a == j + 1) && b > j + 1 {
      SiblingKept(st, st', s, j, b - 1, if a == j then l else r);
    }
  }

  /** Cutting the records of an interior node in two. */
  lemma {:induction false} CutShape(st: Store, st': Store, s: Shape, id: Id)
    requires s.ShInt? && Rep(st, s) && Distinct(s) && |s.keys| == ORDER && id !in st
    requires var n := st[s.id];
             st' == st[s.id := IntNode(n.icells[..5], n.icells[5].child)][id := IntNode(n.icells[6..], n.right)]
    ensures var l, r := ShInt(s.id, s.keys[..5], s.kids[..6]), ShInt(id, s.keys[6..], s.kids[6..]);
            && Replaces(st, st', s, l) && Rep(st', r) && Distinct(r) && From(st, s, r) && Apart(l, r)
            && Cut(Abs(s)) == Split(Abs(l), s.keys[5], Abs(r))
  {
    var l, r := ShInt(s.id, s.keys[..5], s.kids[..6]), ShInt(id, s.keys[6..], s.kids[6..]);
    KidsCut(st[s.id].icells, st[s.id].right);
    forall i | 0 <= i < |s.kids| ensures Rep(st', s.kids[i]) && !Owns(s.kids[i], id) && !Owns(s.kids[i], s.id) {
      forall x | Owns(s.kids[i], x) ensures x in st { OwnedInStore(st, s.kids[i], x); }
      RepFrame(st, st', s.kids[i]);
    }
    forall x | Owns(l, x) ensures !Owns(r, x) {
      if x != s.id {
        var i :| 0 <= i < |l.kids| && Owns(l.kids[i], x);
        forall k | 0 <= k < |r.kids| ensures !Owns(r.kids[k], x) {
          assert Apart(s.kids[i], s.kids[k + 6]);
        }
      }
    }
    assert Abs(l).kids == Abs(s).kids[..6];
    assert Abs(r).kids == Abs(s).kids[6..];
  }

  // ----- the program

  /** What an insert did to the records of a subtree. */
  datatype ShapeOutcome =
    | ShPresent
    | ShFit(shape: Shape)
    | ShSplit(left: Shape, sep: Key, right: Shape)

  ghost function AbsOutcome(o: ShapeOutcome): Outcome {
    match o
    case ShPresent => Present
    case ShFit(s) => Fit(Abs(s))
    case ShSplit(l, sep, r) => Split(Abs(l), sep, Abs(r))
  }

  ghost predicate OutcomeRep(st: Store, st': Store, s: Shape, o: ShapeOutcome) {
    match o
    case ShPresent => st' == st
    case ShFit(s') => Replaces(st, st', s, s')
    case ShSplit(l, _, r) =>
      Replaces(st, st', s, l) && Rep(st', r) && Distinct(r) && From(st, s, r) && Apart(l, r)
  }

  /** The father's record is an interior node with `node` as child `j` and nowhere else, and
      with room between its keys for everything strictly between lo and hi. */
  ghost predicate IsKid(st: Store, father: Id, node: Id, j: nat, lo: int, hi: int) {
    && father in st && st[father].IntNode?
    && var s := st[father].icells;
    && var ks := KidsOf(s, st[father].right);
    && j < |ks| && ks[j] == node
    && (forall i :: 0 <= i < |ks| && i != j ==> ks[i] != node)
    && Increasing(KeysOf(s)) && |s| < ORDER
    && (j > 0 ==> s[j - 1].key <= lo)
    && (j < |s| ==> hi <= s[j].key)
  }

  lemma KidNewKey(st: Store, father: Id, node: Id, j: nat, lo: int, hi: int, sep: Key)
    requires IsKid(st, father, node, j, lo, hi) && lo < sep < hi
    ensures NewKey(st[father].icells, sep)
  {
    var s := st[father].icells;
    forall i | 0 <= i < |s| ensures s[i].key != sep {
      assert KeysOf(s)[i] == s[i].key;
      assert i < j - 1 ==> KeysOf(s)[i] < KeysOf(s)[j - 1];
      assert j < i ==> KeysOf(s)[j] < KeysOf(s)[i];
    }
  }

  /** How the father's record ends up, and which record is the father afterwards. */
  ghost predicate FatherAfter(st: Store, st': Store, father: Option<Id>, j: nat, o: ShapeOutcome, up: Option<Id>) {
    match father
    case Some(f) =>
      && up == father && f in st && f in st'
      && (!o.ShSplit? ==> st'[f] == st[f])
      && (o.ShSplit? ==>
            && st[f].IntNode? && j <= |st[f].icells|
            && st'[f] == IntNode(Paired(st[f].icells, j, o.left.id, o.sep, o.right.id),
                                 PairedRight(st[f].icells, st[f].right, j, o.right.id)))
    case None =>
      && (!o.ShSplit? ==> up == None)
      && (o.ShSplit? ==>
            && up.Some? && up.value in st' && up.value !in st
            && !Owns(o.left, up.value) && !Owns(o.right, up.value)
            && st'[up.value] == IntNode([IntCell(o.sep, o.left.id)], o.right.id))
  }

  function Ids(father: Option<Id>): set<Id> {
    if father.Some? then {father.value} else {}
  }

  /** Taking the cell behind the first m and putting it behind those already moved. */
  lemma Shuffle<T>(s: seq<T>, m: nat, n: nat)
    requires m <= n < |s|
    ensures var low, high := s[..m] + s[n..], s[m..n];
            && low[m] == s[n] && low[..m] + low[m + 1..] == s[..m] + s[n + 1..] && high + [low[m]] == s[m..n + 1]
            && forall x :: x in high ==> exists i :: m <= i < n && s[i] == x
  {
    var low, high := s[..m] + s[n..], s[m..n];
    forall x | x in high ensures exists i :: m <= i < n && s[i] == x {
      var j :| 0 <= j < |high| && high[j] == x;
      assert s[m + j] == x;
    }
  }

  // ----- the operations on single nodes that the program is made of

  datatype Op =
    | MakeLeaf(id: Id)
    | MakeInt(id: Id, right: Id)
    | PutLeaf(id: Id, cell: Cell)
    | CutLeaf(id: Id, k: nat)
    | PutInt(id: Id, icell: IntCell)
    | CutInt(id: Id, k: nat)
    | SetRight(id: Id, right: Id)

  ghost predicate NewKey(s: seq<IntCell>, k: Key) {
    forall i :: 0 <= i < |s| ==> s[i].key != k
  }

  /** When the program does an operation: on sorted cells, with fewer than ORDER of them for a new
      one, and taking cells only out of leaves that keep five. */
  ghost predicate Fine(st: Store, op: Op) {
    if op.MakeLeaf? || op.MakeInt? then op.id !in st
    else if op.PutLeaf? || op.CutLeaf? then
      && op.id in st && st[op.id].LeafNode? && Sorted(st[op.id].cells)
      && (op.PutLeaf? ==> |st[op.id].cells| < ORDER)
      && (op.CutLeaf? ==> op.k < |st[op.id].cells| && 5 < |st[op.id].cells| <= ORDER)
    else
      && op.id in st && st[op.id].IntNode? && Increasing(KeysOf(st[op.id].icells))
      && (op.PutInt? ==> |st[op.id].icells| < ORDER && NewKey(st[op.id].icells, op.icell.key))
      && (op.CutInt? ==> op.k < |st[op.id].icells| <= ORDER)
  }

  /** The record of a node after an operation on it. */
  ghost function OnRecord(r: NodeRec, op: Op): NodeRec
    requires (r.LeafNode? <==> op.PutLeaf? || op.CutLeaf?) && !op.MakeLeaf? && !op.MakeInt?
    requires op.CutLeaf? ==> op.k < |r.cells|
    requires op.CutInt? ==> op.k < |r.icells|
  {
    match op
    case PutLeaf(_, c) => if HasKey(r.cells, c.key) then r else LeafNode(InsertCell(r.cells, c))
    case CutLeaf(_, k) => LeafNode(r.cells[..k] + r.cells[k + 1..])
    case PutInt(_, c) => r.(icells := WithIntCell(r.icells, c))
    case CutInt(_, k) => r.(icells := r.icells[..k] + r.icells[k + 1..])
    case SetRight(_, right) => r.(right := right)
  }

  ghost function Do(st: Store, op: Op): Store
    requires Fine(st, op)
  {
    match op
    case MakeLeaf(id) => st[id := LeafNode([])]
    case MakeInt(id, right) => st[id := IntNode([], right)]
    case _ => st[op.id := OnRecord(st[op.id], op)]
  }

  const EmptyStore: Store := map[0 := LeafNode([])]

  /** The store that operations build from an empty tree, if each is one the program would do. */
  ghost function Replay(ops: seq<Op>): Option<Store> {
    if ops == [] then Some(EmptyStore)
    else
      match Replay(ops[..|ops| - 1])
      case None => None
      case Some(st) => if Fine(st, ops[|ops| - 1]) then Some(Do(st, ops[|ops| - 1])) else None
  }

  predicate Light(op: Op, most: nat) {
    op.PutLeaf? ==> |op.cell.data| <= most
  }

  ghost predicate AllLight(ops: seq<Op>, most: nat) {
    forall i :: 0 <= i < |ops| ==> Light(ops[i], most)
  }

  /** Operations, the store they build, and a bound on the data in the cells they put. */
  datatype Trace = Trace(ops: seq<Op>, st: Store, most: nat)

  type History = h: Trace | Replay(h.ops) == Some(h.st) && AllLight(h.ops, h.most) ghost witness Trace([], EmptyStore, 0)

  ghost function Extend(h: History, op: Op): (h': History)
    requires Fine(h.st, op) && Light(op, h.most)
    ensures h'.st == Do(h.st, op) && h'.ops == h.ops + [op] && h'.most == h.most
  {
    ReplayMore(h.ops, h.st, op);
    Trace(h.ops + [op], Do(h.st, op), h.most)
  }

  ghost function Raised(h: History, most: nat): (h': History)
    requires h.most <= most
    ensures h'.st == h.st && h'.ops == h.ops && h'.most == most
  {
    assert forall i :: 0 <= i < |h.ops| ==> Light(h.ops[i], h.most);
    h.(most := most)
  }

  ghost predicate LeavesLight(st: Store, most: nat) {
    forall id, c :: id in st && st[id].LeafNode? && c in st[id].cells ==> |c.data| <= most
  }

  /** What the leaves hold was put there. */
  lemma {:induction false} ReplayLight(ops: seq<Op>, most: nat)
    requires Replay(ops).Some? && AllLight(ops, most)
    ensures LeavesLight(Replay(ops).value, most)
  {
    if ops != [] {
      var front, op := ops[..|ops| - 1], ops[|ops| - 1];
      ReplayLight(front, most);
      assert Light(op, most);
      DoLight(Replay(front).value, op, most);
    }
  }

  lemma DoLight(st: Store, op: Op, most: nat)
    requires Fine(st, op) && LeavesLight(st, most) && Light(op, most)
    ensures LeavesLight(Do(st, op), most)
  {
    var t := Do(st, op);
    forall id, c | id in t && t[id].LeafNode? && c in t[id].cells ensures |c.data| <= most {
      if id == op.id && (op.PutLeaf? || op.CutLeaf?) {
        assert c in st[id].cells || (op.PutLeaf? && c == op.cell);
      }
    }
  }

  lemma ReplayMore(ops: seq<Op>, st: Store, op: Op)
    requires Replay(ops) == Some(st) && Fine(st, op)
    ensures Replay(ops + [op]) == Some(Do(st, op))
  {
    var all := ops + [op];
    assert all[..|all| - 1] == ops && all[|all| - 1] == op;
  }

  lemma WithoutIncreasing(s: seq<IntCell>, k: nat)
    requires Increasing(KeysOf(s)) && k < |s|
    ensures Increasing(KeysOf(s[..k] + s[k + 1..])) && NewKey(s[..k] + s[k + 1..], s[k].key)
  {
    var r := s[..k] + s[k + 1..];
    assert forall i :: 0 <= i < |s| ==> KeysOf(s)[i] == s[i].key;
    forall i | 0 <= i < |r| ensures r[i] == s[if i < k then i else i + 1] && r[i].key != s[k].key {
      assert i < k ==> KeysOf(s)[i] < KeysOf(s)[k];
      assert i >= k ==> KeysOf(s)[k] < KeysOf(s)[i + 1];
    }
    forall i, j | 0 <= i < j < |r| ensures KeysOf(r)[i] < KeysOf(r)[j] {
      assert KeysOf(s)[if i < k then i else i + 1] < KeysOf(s)[if j < k then j else j + 1];
    }
  }

  lemma WithIncreasing(s: seq<IntCell>, c: IntCell)
    requires Increasing(KeysOf(s)) && NewKey(s, c.key)
    ensures Increasing(KeysOf(WithIntCell(s, c)))
  {
    var n, ks := IntSlot(s, c.key), KeysOf(s);
    assert KeysOf(WithIntCell(s, c)) == ks[..n] + [c.key] + ks[n..];
    KeyBetween(ks, c.key, n);
  }

  lemma KeyBetween(ks: seq<Key>, k: Key, n: nat)
    requires Increasing(ks) && n <= |ks| && (forall i :: 0 <= i < n ==> ks[i] < k) && (n < |ks| ==> k < ks[n])
    ensures Increasing(ks[..n] + [k] + ks[n..])
  {
    var r := ks[..n] + [k] + ks[n..];
    forall i, j | 0 <= i < j < |r| ensures r[i] < r[j] {
      assert n < j - 1 ==> ks[n] < ks[j - 1];
    }
  }

  lemma WithNewKey(s: seq<IntCell>, c: IntCell, x: Key)
    requires NewKey(s, x) && x != c.key
    ensures NewKey(WithIntCell(s, c), x)
  {
  }

  lemma PartIncreasing(s: seq<IntCell>, lo: nat, hi: nat)
    requires Increasing(KeysOf(s)) && lo <= hi <= |s|
    ensures Increasing(KeysOf(s[lo..hi]))
  {
    var r := s[lo..hi];
    forall i, j | 0 <= i < j < |r| ensures KeysOf(r)[i] < KeysOf(r)[j] {
      assert KeysOf(s)[lo + i] < KeysOf(s)[lo + j];
    }
  }

  lemma PartBelow(s: seq<IntCell>, m: nat, n: nat)
    requires Increasing(KeysOf(s)) && m <= n < |s|
    ensures forall c :: c in s[m..n] ==> c.key < s[n].key
  {
    forall c | c in s[m..n] ensures c.key < s[n].key {
      var i :| m <= i < n && s[i] == c;
      assert KeysOf(s)[i] < KeysOf(s)[n];
    }
  }

  lemma SplitSorted(s: seq<Cell>, m: nat, n: nat)
    requires Sorted(s) && m <= n < |s|
    ensures Sorted(s[m..n]) && Sorted(s[..m] + s[n..]) && forall c :: c in s[m..n] ==> c.key < s[n].key
  {
  }

  lemma SplitIncreasing(s: seq<IntCell>, m: nat, n: nat)
    requires Increasing(KeysOf(s)) && m <= n <= |s|
    ensures Increasing(KeysOf(s[..m] + s[n..]))
  {
    var r := s[..m] + s[n..];
    forall i, j | 0 <= i < j < |r| ensures KeysOf(r)[i] < KeysOf(r)[j] {
      assert KeysOf(s)[if i < m then i else i - m + n] < KeysOf(s)[if j < m then j else j - m + n];
    }
  }

  class BPlusTree {
    var store: Store
    var root: Id
    ghost var shape: Shape
    ghost var height: nat
    ghost var history: History

    ghost predicate Valid()
      reads this
    {
      && shape.id == root && Rep(store, shape) && Distinct(shape) && BTreeSpec.Valid(Abs(shape), height)
      && Logged()
    }

    /** The node operations done so far build the store. */
    ghost predicate Logged()
      reads this
    {
      history.st == store
    }

    ghost function Map(): map<Key, Data>
      reads this
    {
      Contents(Abs(shape))
    }

    constructor ()
      ensures Valid() && Map() == map[] && history.most == 0
    {
      store, root := map[0 := LeafNode([])], 0;
      shape, height, history := ShLeaf(0, []), 0, Trace([], EmptyStore, 0);
    }

    /** getLeafNode, getIntNode. */
    method NewNode(n: NodeRec) returns (id: Id)
      requires Logged() && (if n.LeafNode? then n.cells == [] else n.icells == [])
      modifies this`store, this`history
      ensures Logged() && history.most == old(history.most) && id !in old(store) && store == old(store)[id := n]
    {
      assert Bound(store.Keys) !in store;
      id :| id !in store;
      history := Extend(history, if n.LeafNode? then MakeLeaf(id) else MakeInt(id, n.right));
      store := store[id := n];
    }

    method LinkRight(node: Id, right: Id)
      requires Logged() && node in store && store[node].IntNode? && Increasing(KeysOf(store[node].icells))
      modifies this`store, this`history
      ensures Logged() && history.most == old(history.most) && store == old(store)[node := old(store)[node].(right := right)]
    {
      history := Extend(history, SetRight(node, right));
      store := store[node := store[node].(right := right)];
    }

    // ----- cell operations of one node

    method InsertLeafCell(node: Id, c: Cell) returns (ok: bool)
      requires Logged() && node in store && store[node].LeafNode? && Sorted(store[node].cells)
      requires |store[node].cells| < ORDER && |c.data| <= history.most
      modifies this`store, this`history
      ensures Logged() && history.most == old(history.most)
      ensures ok <==> !HasKey(old(store)[node].cells, c.key)
      ensures store == if ok then old(store)[node := LeafNode(InsertCell(old(store)[node].cells, c))] else old(store)
    {
      var cells := store[node].cells;
      var kth := 0;
      while kth < |cells| && cells[kth].key < c.key
        invariant 0 <= kth <= |cells|
        invariant forall i :: 0 <= i < kth ==> cells[i].key < c.key
      {
        kth := kth + 1;
      }
      history := Extend(history, PutLeaf(node, c));
      if kth < |cells| && cells[kth].key == c.key {
        assert store[node := store[node]] == store;
        return false;
      }
      assert CellIndex(cells, c.key) == kth;
      store := store[node := LeafNode(cells[..kth] + [c] + cells[kth..])];
      return true;
    }

    method RemoveKthLeafCell(node: Id, kth: nat)
      requires Logged() && node in store && store[node].LeafNode? && Sorted(store[node].cells)
      requires kth < |store[node].cells| && 5 < |store[node].cells| <= ORDER
      modifies this`store, this`history
      ensures Logged() && history.most == old(history.most)
      ensures store == old(store)[node := LeafNode(old(store)[node].cells[..kth] + old(store)[node].cells[kth + 1..])]
    {
      history := Extend(history, CutLeaf(node, kth));
      var cells := store[node].cells;
      store := store[node := LeafNode(cells[..kth] + cells[kth + 1..])];
    }

    method InsertIntCell(node: Id, k: Key, child: Id)
      requires Logged() && node in store && store[node].IntNode? && Increasing(KeysOf(store[node].icells))
      requires |store[node].icells| < ORDER && NewKey(store[node].icells, k)
      modifies this`store, this`history
      ensures Logged() && history.most == old(history.most)
      ensures store == old(store)[node := old(store)[node].(icells := WithIntCell(old(store)[node].icells, IntCell(k, child)))]
    {
      var icells := store[node].icells;
      var kth := 0;
      while kth < |icells| && icells[kth].key <= k
        invariant 0 <= kth <= |icells|
        invariant forall i :: 0 <= i < kth ==> icells[i].key <= k
      {
        kth := kth + 1;
      }
      SlotUnique(icells, k, kth);
      history := Extend(history, PutInt(node, IntCell(k, child)));
      store := store[node := store[node].(icells := icells[..kth] + [IntCell(k, child)] + icells[kth..])];
    }

    method RemoveKthIntCell(node: Id, kth: nat)
      requires Logged() && node in store && store[node].IntNode? && Increasing(KeysOf(store[node].icells))
      requires kth < |store[node].icells| <= ORDER
      modifies this`store, this`history
      ensures Logged() && history.most == old(history.most)
      ensures store == old(store)[node := old(store)[node].(icells := old(store)[node].icells[..kth] + old(store)[node].icells[kth + 1..])]
    {
      history := Extend(history, CutInt(node, kth));
      var icells := store[node].icells;
      store := store[node := store[node].(icells := icells[..kth] + icells[kth + 1..])];
    }

    /** Index of the cell pointing to `child`, or -1 when none does. */
    method GetKnumByChild(node: Id, child: Id) returns (k: int)
      requires node in store && store[node].IntNode?
      ensures -1 <= k < |store[node].icells|
      ensures k >= 0 ==> store[node].icells[k].child == child
      ensures forall i :: 0 <= i < k ==> store[node].icells[i].child != child
      ensures k == -1 ==> forall i :: 0 <= i < |store[node].icells| ==> store[node].icells[i].child != child
    {
      k := 0;
      while k < |store[node].icells|
        invariant 0 <= k <= |store[node].icells|
        invariant forall i :: 0 <= i < k ==> store[node].icells[i].child != child
      {
        if store[node].icells[k].child == child { return; }
        k := k + 1;
      }
      k := -1;
    }

    // ----- splitting

    /** Record in the father that `added` was split off `node` to the right of `sep`. */
    method Attach(father: Id, node: Id, sep: Key, added: Id, ghost j: nat, ghost lo: int, ghost hi: int)
      requires Logged() && IsKid(store, father, node, j, lo, hi) && lo < sep < hi
      modifies this`store, this`history
      ensures Logged() && history.most == old(history.most)
      ensures store == old(store)[father :=
        IntNode(Paired(old(store)[father].icells, j, node, sep, added),
                PairedRight(old(store)[father].icells, old(store)[father].right, j, added))]
    {
      ghost var s := store[father].icells;
      ghost var ks := KidsOf(s, store[father].right);
      var kth := GetKnumByChild(father, node);
      KidNewKey(store, father, node, j, lo, hi, sep);
      if kth == -1 {
        assert ks[j] == node;
        AttachAtRight(father, node, sep, added);
      } else {
        assert ks[kth] == node;
        RemoveInsertInsert(s, kth, node, sep, added);
        AttachAtCell(father, node, sep, added, kth);
      }
    }

    /** The case of `Attach` where the split node was the right child. */
    method AttachAtRight(father: Id, node: Id, sep: Key, added: Id)
      requires Logged() && father in store && store[father].IntNode? && Increasing(KeysOf(store[father].icells))
      requires |store[father].icells| < ORDER && NewKey(store[father].icells, sep)
      requires store[father].icells != [] ==> store[father].icells[|store[father].icells| - 1].key <= sep
      modifies this`store, this`history
      ensures Logged() && history.most == old(history.most)
      ensures var s := old(store)[father].icells;
              store == old(store)[father := IntNode(Paired(s, |s|, node, sep, added), added)]
    {
      ghost var s := store[father].icells;
      AllSmaller(s, sep);
      WithIncreasing(s, IntCell(sep, node));
      assert WithIntCell(s, IntCell(sep, node)) == Paired(s, |s|, node, sep, added);
      InsertIntCell(father, sep, node);
      LinkRight(father, added);
    }

    /** The case of `Attach` where the split node was the child of cell `kth`. */
    method AttachAtCell(father: Id, node: Id, sep: Key, added: Id, kth: nat)
      requires Logged() && father in store && store[father].IntNode? && Increasing(KeysOf(store[father].icells))
      requires kth < |store[father].icells| < ORDER && NewKey(store[father].icells, sep)
      modifies this`store, this`history
      ensures Logged() && history.most == old(history.most)
      ensures var s := old(store)[father].icells;
        store == old(store)[father := old(store)[father].(icells :=
          WithIntCell(WithIntCell(s[..kth] + s[kth + 1..], IntCell(s[kth].key, added)), IntCell(sep, node)))]
    {
      ghost var s := store[father].icells;
      var cell := store[father].icells[kth];
      WithoutIncreasing(s, kth);
      RemoveKthIntCell(father, kth);
      WithIncreasing(s[..kth] + s[kth + 1..], IntCell(cell.key, added));
      WithNewKey(s[..kth] + s[kth + 1..], IntCell(cell.key, added), sep);
      InsertIntCell(father, cell.key, added);
      InsertIntCell(father, sep, node);
    }

    /** Attach to the father, or make one. */
    method Link(father: Option<Id>, node: Id, sep: Key, added: Id, ghost j: nat, ghost lo: int, ghost hi: int)
      returns (up: Option<Id>)
      requires Logged() && (father.Some? ==> IsKid(store, father.value, node, j, lo, hi) && lo < sep < hi)
      modifies this`store, this`history
      ensures Logged() && history.most == old(history.most)
      ensures father.Some? ==> up == father && store == old(store)[father.value :=
        IntNode(Paired(old(store)[father.value].icells, j, node, sep, added),
                PairedRight(old(store)[father.value].icells, old(store)[father.value].right, j, added))]
      ensures father.None? ==>
                && up.Some? && up.value !in old(store)
                && store == old(store)[up.value := IntNode([IntCell(sep, node)], added)]
    {
      match father
      case Some(f) =>
        Attach(f, node, sep, added, j, lo, hi);
        up := father;
      case None =>
        var f := NewNode(IntNode([], added));
        assert WithIntCell([], IntCell(sep, node)) == [IntCell(sep, node)];
        InsertIntCell(f, sep, node);
        up := Some(f);
    }

    /** One round of the loop: the cell at index 5 goes to the end of the new leaf. */
    method MoveLeafCell(node: Id, added: Id)
      requires node in store && added in store && node != added && store[node].LeafNode? && store[added].LeafNode?
      requires Logged() && Sorted(store[node].cells) && |store[node].cells| <= ORDER && |store[added].cells| < ORDER
      requires |store[node].cells| > 5 && Sorted(store[added].cells) && forall c :: c in store[added].cells ==> c.key < store[node].cells[5].key
      modifies this`store, this`history
      ensures Logged() && history.most == old(history.most)
      ensures var low, high := old(store)[node].cells, old(store)[added].cells;
              store == old(store)[node := LeafNode(low[..5] + low[6..])][added := LeafNode(high + [low[5]])]
    {
      var cell := store[node].cells[5];
      AppendLargest(store[added].cells, cell);
      ReplayLight(history.ops, history.most);
      var _ := InsertLeafCell(added, cell);
      RemoveKthLeafCell(node, 5);
    }

    /** The same in the loop: n - 5 cells have been moved. */
    method MoveLeafRound(node: Id, added: Id, ghost was: seq<Cell>, ghost n: nat)
      requires Logged() && node in store && added in store && node != added && |was| == ORDER && Sorted(was) && 5 <= n < 10
      requires store[node] == LeafNode(was[..5] + was[n..]) && store[added] == LeafNode(was[5..n])
      modifies this`store, this`history
      ensures Logged() && history.most == old(history.most)
      ensures store == old(store)[node := LeafNode(was[..5] + was[n + 1..])][added := LeafNode(was[5..n + 1])]
    {
      Shuffle(was, 5, n);
      SplitSorted(was, 5, n);
      MoveLeafCell(node, added);
    }

    /** The loop of splitLeafNode: move the cells from index 5 on to a new leaf. */
    method MoveLeafCells(node: Id) returns (added: Id)
      requires Logged() && node in store && store[node].LeafNode? && Sorted(store[node].cells) && |store[node].cells| == ORDER
      modifies this`store, this`history
      ensures Logged() && history.most == old(history.most)
      ensures added !in old(store)
      ensures store == old(store)[node := LeafNode(old(store)[node].cells[..5])][added := LeafNode(old(store)[node].cells[5..])]
    {
      ghost var was := store[node].cells;
      added := NewNode(LeafNode([]));
      ghost var n := 5;
      assert was[..5] + was[5..] == was && was[5..5] == [];
      while |store[node].cells| > ORDER / 2
        invariant 5 <= n <= 10 && Logged() && history.most == old(history.most) && node in store && store[node] == LeafNode(was[..5] + was[n..])
        invariant store == old(store)[node := LeafNode(was[..5] + was[n..])][added := LeafNode(was[5..n])]
        decreases 10 - n
      {
        MoveLeafRound(node, added, was, n);
        n := n + 1;
      }
      assert was[..5] + was[10..] == was[..5] && was[5..10] == was[5..];
    }

    /** The loop of splitIntNode: move the cells from index 6 on to a new interior node; the
        child of cell 5 becomes the right child of what stays. */
    method MoveIntCells(node: Id) returns (sep: Key, added: Id)
      requires Logged() && node in store && store[node].IntNode?
      requires Increasing(KeysOf(store[node].icells)) && |store[node].icells| == ORDER
      modifies this`store, this`history
      ensures Logged() && history.most == old(history.most)
      ensures added !in old(store) && sep == old(store)[node].icells[5].key
      ensures var n := old(store)[node];
        store == old(store)[node := IntNode(n.icells[..5], n.icells[5].child)][added := IntNode(n.icells[6..], n.right)]
    {
      ghost var was := store[node].icells;
      added := NewNode(IntNode([], 0));
      MoveUpperCells(node, added);
      assert was[..6][..5] + was[..6][6..] == was[..5];
      PartIncreasing(was, 0, 6);
      PartIncreasing(was, 6, 10);
      PartIncreasing(was, 0, 5);
      LinkRight(added, store[node].right);
      var cell := store[node].icells[5];
      RemoveKthIntCell(node, 5);
      LinkRight(node, cell.child);
      sep := cell.key;
    }

    method MoveIntCell(node: Id, added: Id)
      requires node in store && added in store && node != added && store[node].IntNode? && store[added].IntNode?
      requires Logged() && Increasing(KeysOf(store[node].icells)) && Increasing(KeysOf(store[added].icells))
      requires |store[added].icells| < ORDER && |store[node].icells| <= ORDER
      requires |store[node].icells| > 6 && forall c :: c in store[added].icells ==> c.key < store[node].icells[6].key
      modifies this`store, this`history
      ensures Logged() && history.most == old(history.most)
      ensures var low, high := old(store)[node], old(store)[added];
              store == old(store)[node := low.(icells := low.icells[..6] + low.icells[7..])]
                                 [added := high.(icells := high.icells + [low.icells[6]])]
    {
      var cell := store[node].icells[6];
      ghost var high := store[added].icells;
      SlotUnique(high, cell.key, |high|);
      assert WithIntCell(high, cell) == high + [cell];
      InsertIntCell(added, cell.key, cell.child);
      RemoveKthIntCell(node, 6);
    }

    /** The same in the loop: n - 6 cells have been moved. */
    method MoveIntRound(node: Id, added: Id, ghost was: seq<IntCell>, ghost n: nat)
      requires Logged() && node in store && added in store && node != added
      requires |was| == ORDER && Increasing(KeysOf(was)) && 6 <= n < 10
      requires store[node].IntNode? && store[node].icells == was[..6] + was[n..]
      requires store[added].IntNode? && store[added].icells == was[6..n]
      modifies this`store, this`history
      ensures Logged() && history.most == old(history.most)
      ensures store == old(store)[node := old(store)[node].(icells := was[..6] + was[n + 1..])]
                                 [added := old(store)[added].(icells := was[6..n + 1])]
    {
      Shuffle(was, 6, n);
      PartIncreasing(was, 6, n);
      SplitIncreasing(was, 6, n);
      PartBelow(was, 6, n);
      MoveIntCell(node, added);
    }

    method MoveUpperCells(node: Id, added: Id)
      requires Logged() && node in store && store[node].IntNode? && added in store && added != node && store[added] == IntNode([], 0)
      requires Increasing(KeysOf(store[node].icells)) && |store[node].icells| == ORDER
      modifies this`store, this`history
      ensures Logged() && history.most == old(history.most)
      ensures var n := old(store)[node];
        store == old(store)[node := n.(icells := n.icells[..6])][added := IntNode(n.icells[6..], 0)]
    {
      ghost var was, right := store[node].icells, store[node].right;
      ghost var n := 6;
      assert forall i :: 0 <= i < ORDER ==> KeysOf(was)[i] == was[i].key;
      assert was[..6] + was[6..] == was && was[6..6] == [];
      while |store[node].icells| > ORDER / 2 + 1
        invariant 6 <= n <= 10 && Logged() && history.most == old(history.most) && node in store && store[node] == IntNode(was[..6] + was[n..], right)
        invariant store == old(store)[node := IntNode(was[..6] + was[n..], right)][added := IntNode(was[6..n], 0)]
        decreases 10 - n
      {
        MoveIntRound(node, added, was, n);
        n := n + 1;
      }
      assert was[..6] + was[10..] == was[..6] && was[6..10] == was[6..];
    }

    // ----- insert

    /** splitLeafNode: `node` keeps the lower half. */
    method SplitLeafNode(node: Id, father: Option<Id>, ghost s: Shape, ghost j: nat, ghost lo: int, ghost hi: int)
      returns (up: Option<Id>, ghost o: ShapeOutcome)
      requires Logged() && Rep(store, s) && s.ShLeaf? && s.id == node && Sorted(s.cells) && |s.cells| == ORDER
      requires father.Some? ==> father.value != node && IsKid(store, father.value, node, j, lo, hi)
      requires lo < s.cells[4].key < hi
      modifies this`store, this`history
      ensures Logged() && history.most == old(history.most)
      ensures AbsOutcome(o) == Cut(Abs(s)) && OutcomeRep(old(store), store, s, o)
      ensures Keeps(old(store), store, s, Ids(father)) && FatherAfter(old(store), store, father, j, o, up)
    {
      var added := MoveLeafCells(node);
      ghost var st := store;
      o := ShSplit(ShLeaf(node, s.cells[..5]), s.cells[4].key, ShLeaf(added, s.cells[5..]));
      up := Link(father, node, store[node].cells[4].key, added, j, lo, hi);
      SplitLinked(old(store), st, store, s, o, father, up, j);
    }

    /** splitIntNode: `node` keeps the lower half, its sixth key moves up. */
    method SplitIntNode(node: Id, father: Option<Id>, ghost s: Shape, ghost j: nat, ghost lo: int, ghost hi: int)
      returns (up: Option<Id>, ghost o: ShapeOutcome)
      requires Logged() && Rep(store, s) && Distinct(s) && s.ShInt? && s.id == node && Increasing(s.keys) && |s.keys| == ORDER
      requires father.Some? ==> !Owns(s, father.value) && IsKid(store, father.value, node, j, lo, hi)
      requires lo < s.keys[5] < hi
      modifies this`store, this`history
      ensures Logged() && history.most == old(history.most)
      ensures AbsOutcome(o) == Cut(Abs(s)) && OutcomeRep(old(store), store, s, o)
      ensures Keeps(old(store), store, s, Ids(father)) && FatherAfter(old(store), store, father, j, o, up)
    {
      var sep, added := MoveIntCells(node);
      ghost var st := store;
      CutShape(old(store), st, s, added);
      o := ShSplit(ShInt(node, s.keys[..5], s.kids[..6]), sep, ShInt(added, s.keys[6..], s.kids[6..]));
      up := Link(father, node, sep, added, j, lo, hi);
      SplitLinked(old(store), st, store, s, o, father, up, j);
    }

    /** insert2: insert below `node`; a split of `node` is recorded in `father`. */
    method Insert2(node: Id, c: Cell, father: Option<Id>,
                   ghost s: Shape, ghost j: nat, ghost lo: int, ghost hi: int, ghost h: nat)
      returns (ok: bool, up: Option<Id>, ghost o: ShapeOutcome)
      requires Logged() && |c.data| <= history.most && Rep(store, s) && Distinct(s) && s.id == node && Insertable(Abs(s))
      requires Ordered(Abs(s), lo, hi) && Balanced(Abs(s), h) && lo < c.key <= hi
      requires father.Some? ==> !Owns(s, father.value) && IsKid(store, father.value, node, j, lo, hi)
      modifies this`store, this`history
      ensures Logged() && history.most == old(history.most)
      ensures AbsOutcome(o) == BTreeSpec.Insert2(Abs(s), c)
      ensures ok <==> !o.ShPresent?
      ensures OutcomeRep(old(store), store, s, o) && Keeps(old(store), store, s, Ids(father))
      ensures FatherAfter(old(store), store, father, j, o, up)
      decreases s
    {
      ghost var st := store;
      ghost var g := s;
      Insert2Ok(Abs(s), c, lo, hi, h);
      if store[node].LeafNode? {
        ok := InsertLeafCell(node, c);
        if !ok { return false, father, ShPresent; }
        g := ShLeaf(node, InsertCell(s.cells, c));
        InsertKeepsSorted(s.cells, c, lo, hi);
      } else {
        ok, g := InsertBelowNode(node, c, s, lo, hi, h);
        if !ok { return false, father, ShPresent; }
      }
      ghost var st1 := store;
      FatherStaysKid(st, st1, s, father, node, j, lo, hi);
      if store[node].LeafNode? && |store[node].cells| >= ORDER {
        up, o := SplitLeafNode(node, father, g, j, lo, hi);
      } else if store[node].IntNode? && |store[node].icells| >= ORDER {
        up, o := SplitIntNode(node, father, g, j, lo, hi);
      } else {
        up, o := father, ShFit(g);
      }
      Compose(st, st1, store, s, g, o, father, up, j);
    }

    /** The interior case of insert2 up to the check whether `node` itself must be split. */
    method InsertBelowNode(node: Id, c: Cell, ghost s: Shape, ghost lo: int, ghost hi: int, ghost h: nat)
      returns (ok: bool, ghost g: Shape)
      requires Logged() && |c.data| <= history.most && Rep(store, s) && Distinct(s)
      requires s.id == node && Insertable(Abs(s)) && s.ShInt?
      requires Ordered(Abs(s), lo, hi) && Balanced(Abs(s), h) && lo < c.key <= hi
      modifies this`store, this`history
      ensures Logged() && history.most == old(history.most)
      ensures ok <==> !BTreeSpec.Insert2(Abs(s), c).Present?
      ensures !ok ==> store == old(store)
      ensures ok ==> Replaces(old(store), store, s, g) && Keeps(old(store), store, s, {})
      ensures ok ==> g.ShInt? && Ordered(Abs(g), lo, hi) && Size(Abs(g)) <= ORDER && BTreeSpec.Insert2(Abs(s), c) == Grown(Abs(g))
      decreases s, 0
    {
      ghost var st := store;
      var kth, child := FindChild(node, c.key);
      ghost var kid, lo', hi' := s.kids[kth], Below(s.keys, lo, kth), Above(s.keys, hi, kth);
      assert Abs(s).kids[kth] == Abs(kid);
      KidIsKid(st, s, kth, lo, hi);
      var childOk, same, co := Insert2(child, c, Some(node), kid, kth, lo', hi', h - 1);
      ok, g := childOk, s;
      if ok {
        g := GrowShape(s, kth, co);
        GrowShapeOk(st, store, s, c, lo, hi, h, co);
      } else {
        PresentBelow(Abs(s), c);
      }
    }

    /** The child an interior node sends a key to. */
    method FindChild(node: Id, k: Key) returns (kth: nat, child: Id)
      requires node in store && store[node].IntNode?
      ensures kth == ChildIndex(KeysOf(store[node].icells), k)
      ensures child == KidsOf(store[node].icells, store[node].right)[kth]
    {
      var icells := store[node].icells;
      kth := 0;
      while kth < |icells| && k > icells[kth].key
        invariant 0 <= kth <= |icells|
        invariant forall i :: 0 <= i < kth ==> k > icells[i].key
      {
        kth := kth + 1;
      }
      assert forall i :: 0 <= i < |icells| ==> KeysOf(icells)[i] == icells[i].key;
      child := if kth < |icells| then icells[kth].child else store[node].right;
    }

    /** insert: false exactly when the key is present, in which case nothing changes;
        otherwise the tree stands for the old map with this one pair added. */
    method Insert(c: Cell) returns (ok: bool)
      requires Valid()
      modifies this
      ensures Valid()
      ensures ok <==> c.key !in old(Map())
      ensures Map() == if ok then old(Map())[c.key := c.data] else old(Map())
      ensures !ok ==> store == old(store) && root == old(root)
      ensures old(store).Keys <= store.Keys
      ensures history.most == if |c.data| > old(history.most) then |c.data| else old(history.most)
    {
      if |c.data| > history.most { history := Raised(history, |c.data|); }
      ok := InsertHere(c);
    }

    method InsertHere(c: Cell) returns (ok: bool)
      requires Valid() && |c.data| <= history.most
      modifies this
      ensures Valid()
      ensures ok <==> c.key !in old(Map())
      ensures Map() == if ok then old(Map())[c.key := c.data] else old(Map())
      ensures !ok ==> store == old(store) && root == old(root)
      ensures old(store).Keys <= store.Keys && history.most == old(history.most)
    {
      var up;
      ok, up, shape, height := InsertRoot(c, shape, height);
      if up.Some? { root := up.value; }
    }

    /** insert2 at the root, whose split makes a new one. */
    method InsertRoot(c: Cell, ghost s: Shape, ghost h: nat) returns (ok: bool, up: Option<Id>, ghost g: Shape, ghost h': nat)
      requires Logged() && |c.data| <= history.most
      requires s.id == root && Rep(store, s) && Distinct(s) && BTreeSpec.Valid(Abs(s), h)
      modifies this`store, this`history
      ensures Logged() && history.most == old(history.most) && old(store).Keys <= store.Keys
      ensures ok <==> c.key !in Contents(Abs(s))
      ensures !ok ==> store == old(store) && g == s && h' == h && up.None?
      ensures ok ==>
                && g.id == (if up.Some? then up.value else root) && Rep(store, g) && Distinct(g)
                && BTreeSpec.Valid(Abs(g), h') && Contents(Abs(g)) == Contents(Abs(s))[c.key := c.data]
    {
      ghost var st := store;
      InsertRefinesMap(Abs(s), h, c);
      ghost var o;
      g, h' := s, h;
      ok, up, o := Insert2(root, c, None, s, 0, -1, TOP, h);
      if ok { g, h' := NewTree(st, store, s, h, c, o, up); }
    }

    // ----- search

    method Search(node: Id, k: Key, ghost s: Shape, ghost lo: int, ghost hi: int) returns (found: bool, data: Data)
      requires Rep(store, s) && s.id == node && Ordered(Abs(s), lo, hi)
      ensures found ==> Cell(k, data) in Flat(Abs(s))
      ensures !found ==> data == [] && !HasKey(Flat(Abs(s)), k)
      decreases s
    {
      if store[node].LeafNode? {
        var cells := store[node].cells;
        var i := 0;
        while i < |cells|
          invariant 0 <= i <= |cells|
          invariant forall n :: 0 <= n < i ==> cells[n].key != k
        {
          if cells[i].key == k { return true, cells[i].data; }
          i := i + 1;
        }
        return false, [];
      } else {
        var kth, child := FindChild(node, k);
        assert Abs(s).kids[kth] == Abs(s.kids[kth]);
        DescendKeepsKey(Abs(s), lo, hi, k);
        found, data := Search(child, k, s.kids[kth], Below(s.keys, lo, kth), Above(s.keys, hi, kth));
      }
    }

    /** search from the root is lookup in the map. */
    method Lookup(k: Key) returns (found: bool, data: Data)
      requires Valid()
      ensures found <==> k in Map()
      ensures found ==> data == Map()[k]
      ensures !found ==> data == []
    {
      found, data := Search(root, k, shape, -1, TOP);
      OrderedFlat(Abs(shape), -1, TOP);
      LookupGraph(Flat(Abs(shape)), k, data);
    }
  }

  /** The records of the whole tree after an insert that went through. */
  lemma NewTree(st: Store, st': Store, s: Shape, h: nat, c: Cell, o: ShapeOutcome, up: Option<Id>)
    returns (g: Shape, h': nat)
    requires BTreeSpec.Valid(Abs(s), h) && Insertable(Abs(s)) && Distinct(s) && AbsOutcome(o) == BTreeSpec.Insert2(Abs(s), c)
    requires !o.ShPresent? && OutcomeRep(st, st', s, o) && FatherAfter(st, st', None, 0, o, up)
    ensures g.id == (if up.Some? then up.value else s.id) && Rep(st', g) && Distinct(g)
    ensures BTreeSpec.Valid(Abs(g), h') && Contents(Abs(g)) == Contents(Abs(s))[c.key := c.data]
  {
    InsertRefinesMap(Abs(s), h, c);
    h' := NextHeight(Abs(s), h, c);
    match o
    case ShFit(kid) => g := kid;
    case ShSplit(l, sep, r) =>
      NewRootShape(st', up.value, l, sep, r);
      g := ShInt(up.value, [sep], [l, r]);
  }

  lemma {:induction false} NewRootShape(st: Store, id: Id, l: Shape, sep: Key, r: Shape)
    requires id in st && st[id] == IntNode([IntCell(sep, l.id)], r.id)
    requires Rep(st, l) && Rep(st, r) && Distinct(l) && Distinct(r) && Apart(l, r)
    requires !Owns(l, id) && !Owns(r, id)
    ensures var s := ShInt(id, [sep], [l, r]);
            Rep(st, s) && Distinct(s) && Abs(s) == Interior([sep], [Abs(l), Abs(r)])
  {
  }

  /** The records of a node after its child `j` absorbed a cell or was split. */
  ghost function GrowShape(s: Shape, j: nat, o: ShapeOutcome): Shape
    requires s.ShInt? && |s.kids| == |s.keys| + 1 && j < |s.kids| && !o.ShPresent?
  {
    match o
    case ShFit(kid) => WithKid(s, j, kid)
    case ShSplit(l, sep, r) => WithKidPair(s, j, l, sep, r)
  }

  /** What GrowShapeOk and its two cases assume about the changed child. */
  ghost predicate KidChanged(st: Store, st': Store, s: Shape, c: Cell, o: ShapeOutcome) {
    && s.ShInt? && |s.kids| == |s.keys| + 1 && !o.ShPresent?
    && var j := ChildIndex(s.keys, c.key);
    && OutcomeRep(st, st', s.kids[j], o) && Keeps(st, st', s.kids[j], {s.id})
    && FatherAfter(st, st', Some(s.id), j, o, Some(s.id))
  }

  lemma {:induction false} PresentBelow(t: Tree, c: Cell)
    requires Insertable(t) && t.Interior? && BTreeSpec.Insert2(t.kids[ChildIndex(t.keys, c.key)], c).Present?
    ensures BTreeSpec.Insert2(t, c).Present?
  {
  }

  lemma {:induction false} GrowShapeOk(st: Store, st': Store, s: Shape, c: Cell, lo: int, hi: int, h: nat,
                                       o: ShapeOutcome)
    requires KidChanged(st, st', s, c, o) && Rep(st, s) && Distinct(s) && Insertable(Abs(s))
    requires Ordered(Abs(s), lo, hi) && Balanced(Abs(s), h) && lo < c.key <= hi
    requires AbsOutcome(o) == BTreeSpec.Insert2(Abs(s).kids[ChildIndex(s.keys, c.key)], c)
    ensures var g := GrowShape(s, ChildIndex(s.keys, c.key), o);
            && Replaces(st, st', s, g) && Keeps(st, st', s, {})
            && Ordered(Abs(g), lo, hi) && Size(Abs(g)) <= ORDER
            && BTreeSpec.Insert2(Abs(s), c) == Grown(Abs(g))
  {
    var j := ChildIndex(s.keys, c.key);
    Insert2Ok(Abs(s).kids[j], c, Below(s.keys, lo, j), Above(s.keys, hi, j), h - 1);
    GrowRecords(st, st', s, c, o);
    match o
    case ShFit(kid) => FitBelow(Abs(s), c, lo, hi, h, Abs(kid));
    case ShSplit(l, sep, r) => SplitBelow(Abs(s), c, lo, hi, h, Abs(l), sep, Abs(r));
  }

  lemma {:induction false} GrowRecords(st: Store, st': Store, s: Shape, c: Cell, o: ShapeOutcome)
    requires KidChanged(st, st', s, c, o) && Rep(st, s) && Distinct(s)
    ensures var j := ChildIndex(s.keys, c.key);
            var g := GrowShape(s, j, o);
            && Replaces(st, st', s, g) && Keeps(st, st', s, {})
            && (o.ShFit? ==> Abs(g) == Interior(s.keys, Abs(s).kids[j := Abs(o.shape)]))
            && (o.ShSplit? ==> Abs(g) == WithPair(Abs(s), j, Abs(o.left), o.sep, Abs(o.right)))
  {
    var j := ChildIndex(s.keys, c.key);
    match o
    case ShFit(kid) =>
      FitKid(st, st', s, j, kid);
    case ShSplit(l, sep, r) =>
      PairKid(st, st', s, j, l, sep, r);
      PairAbs(s, j, l, sep, r);
  }

  lemma {:induction false} KidIsKid(st: Store, s: Shape, j: nat, lo: int, hi: int)
    requires s.ShInt? && Rep(st, s) && Distinct(s) && j < |s.kids| && Ordered(Abs(s), lo, hi) && Size(Abs(s)) < ORDER
    ensures !Owns(s.kids[j], s.id)
    ensures IsKid(st, s.id, s.kids[j].id, j, Below(s.keys, lo, j), Above(s.keys, hi, j))
  {
    var ks := KidsOf(st[s.id].icells, st[s.id].right);
    forall i | 0 <= i < |ks| && i != j ensures ks[i] != s.kids[j].id {
      assert Apart(s.kids[if i < j then i else j], s.kids[if i < j then j else i]);
      assert Owns(s.kids[i], s.kids[i].id) && Owns(s.kids[j], s.kids[j].id);
    }
  }

  lemma {:induction false} FatherStaysKid(st: Store, st': Store, s: Shape, father: Option<Id>, node: Id, j: nat, lo: int, hi: int)
    requires Keeps(st, st', s, {})
    requires father.Some? ==> !Owns(s, father.value) && IsKid(st, father.value, node, j, lo, hi)
    ensures father.Some? ==> IsKid(st', father.value, node, j, lo, hi)
  {
  }

  /** Growing the node and then splitting it, seen as one change. */
  lemma {:induction false} Compose(st: Store, st1: Store, st2: Store, s: Shape, g: Shape, o: ShapeOutcome,
                                   father: Option<Id>, up: Option<Id>, j: nat)
    requires Replaces(st, st1, s, g) && Keeps(st, st1, s, {})
    requires !o.ShPresent? && OutcomeRep(st1, st2, g, o) && Keeps(st1, st2, g, Ids(father))
    requires father.Some? ==> father.value in st && !Owns(s, father.value)
    requires FatherAfter(st1, st2, father, j, o, up)
    ensures OutcomeRep(st, st2, s, o) && Keeps(st, st2, s, Ids(father)) && FatherAfter(st, st2, father, j, o, up)
  {
  }

  /** Linking the two halves under the father touches neither of them. */
  lemma {:induction false} SplitLinked(st: Store, st1: Store, st2: Store, s: Shape, o: ShapeOutcome,
                                       father: Option<Id>, up: Option<Id>, j: nat)
    requires o.ShSplit? && OutcomeRep(st, st1, s, o) && Keeps(st, st1, s, {})
    requires father.Some? ==>
               && father.value in st && !Owns(s, father.value) && st[father.value].IntNode?
               && j <= |st[father.value].icells| && up == father
               && st2 == st1[father.value :=
                    IntNode(Paired(st[father.value].icells, j, o.left.id, o.sep, o.right.id),
                            PairedRight(st[father.value].icells, st[father.value].right, j, o.right.id))]
    requires father.None? ==>
               && up.Some? && up.value !in st1
               && st2 == st1[up.value := IntNode([IntCell(o.sep, o.left.id)], o.right.id)]
    ensures OutcomeRep(st, st2, s, o) && Keeps(st, st2, s, Ids(father))
    ensures FatherAfter(st, st2, father, j, o, up)
  {
    forall x | Owns(o.left, x) || Owns(o.right, x) ensures x in st1 && st2[x] == st1[x] && up != Some(x) {
      OwnedInStore(st1, if Owns(o.left, x) then o.left else o.right, x);
    }
    RepFrame(st1, st2, o.left);
    RepFrame(st1, st2, o.right);
  }

  ghost function Bound(s: set<nat>): (b: nat)
    ensures forall x :: x in s ==> x < b
  {
    if s == {} then 0
    else
      var x :| x in s;
      var b := Bound(s - {x});
      assert forall y :: y in s ==> y == x || y in s - {x};
      if x < b then b else x + 1
  }
}
