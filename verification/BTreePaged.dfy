/** The whole tree on byte pages.  The program is made of operations on single nodes; done on pages
    they leave what they leave on records, as long as every page has room.  With at most 30 bytes of
    data in a cell every page always has. */
module BTreePaged {
  import opened Common
  import opened BTreeSpec
  import opened BTreeNodes
  import Page = BTreePage

  type Pages = map<Id, Page.PageRec>

  ghost predicate PageOk(p: Page.PageRec) {
    Page.KeysSorted(p.cells) && forall i :: 0 <= i < |p.cells| ==> Page.WellFormed(p.cells[i], p.leaf)
  }

  /** The record a page stands for. */
  ghost function RecordOf(p: Page.PageRec): NodeRec
    requires PageOk(p)
  {
    if p.leaf then LeafNode(Page.LeafView(p.cells)) else IntNode(Page.IntView(p.cells), p.right)
  }

  ghost predicate Stands(p: Page.PageRec, r: NodeRec) {
    PageOk(p) && RecordOf(p) == r
  }

  /** Ids and sizes are stored in four bytes. */
  predicate Small32(n: nat) { n < 0x1_0000_0000 }

  predicate Storable(op: Op) {
    match op
    case MakeInt(_, right) => Small32(right)
    case PutLeaf(_, c) => Small32(|c.data|)
    case PutInt(_, c) => Small32(c.child)
    case SetRight(_, right) => Small32(right)
    case _ => true
  }

  /** The page behind the record an operation works on, afterwards. */
  ghost function OnPage(p: Page.PageRec, op: Op): Page.Turn
    requires PageOk(p) && Storable(op) && !op.MakeLeaf? && !op.MakeInt?
    requires op.CutLeaf? || op.CutInt? ==> op.k < |p.cells|
  {
    match op
    case PutLeaf(_, c) => Page.LeafPut(p, c.key, c.data)
    case PutInt(_, c) => Page.IntPut(p, c.key, c.child)
    case CutLeaf(_, k) => Page.Done(Page.CutCell(p, k))
    case CutInt(_, k) => Page.Done(Page.CutCell(p, k))
    case SetRight(_, right) => Page.Done(p.(right := right))
  }

  lemma RawKeyIs(cs: seq<Page.Bytes>, k: Key)
    requires Page.KeysSorted(cs)
    ensures Page.HasRawKey(cs, k) <==> HasKey(Page.LeafView(cs), k)
    ensures Page.HasRawKey(cs, k) <==> !NewKey(Page.IntView(cs), k)
  {
  }

  lemma LeafPutStands(p: Page.PageRec, r: NodeRec, c: Cell)
    requires Stands(p, r) && p.leaf && Small32(|c.data|)
    ensures var t := Page.LeafPut(p, c.key, c.data);
            t.Done? ==> Stands(t.page, if HasKey(r.cells, c.key) then r else LeafNode(InsertCell(r.cells, c)))
  {
    RawKeyIs(p.cells, c.key);
    if !Page.HasRawKey(p.cells, c.key) {
      Page.LeafInsertRefines(p.cells, c.key, c.data);
      Page.EncodeDecode(c.key, |c.data|, c.data);
      var cs := Page.At(p.cells, Page.LeafSlot(p.cells, c.key), Page.Encode(c.key, |c.data|, c.data));
      AtWellFormed(p.cells, Page.LeafSlot(p.cells, c.key), Page.Encode(c.key, |c.data|, c.data), true);
      assert PageOk(p.(cells := cs));
    }
  }

  lemma AtWellFormed(cs: seq<Page.Bytes>, k: nat, c: Page.Bytes, leaf: bool)
    requires k <= |cs| && Page.WellFormed(c, leaf) && forall i :: 0 <= i < |cs| ==> Page.WellFormed(cs[i], leaf)
    ensures var r := Page.At(cs, k, c); forall i :: 0 <= i < |r| ==> Page.WellFormed(r[i], leaf)
  {
  }

  lemma IntPutStands(p: Page.PageRec, r: NodeRec, c: IntCell)
    requires Stands(p, r) && !p.leaf && Small32(c.child) && NewKey(r.icells, c.key)
    ensures var t := Page.IntPut(p, c.key, c.child);
            t.Done? ==> Stands(t.page, r.(icells := WithIntCell(r.icells, c)))
  {
    RawKeyIs(p.cells, c.key);
    Page.IntInsertRefines(p.cells, c.key, c.child);
    Page.EncodeDecode(c.key, c.child, []);
  }

  lemma CutStands(p: Page.PageRec, r: NodeRec, k: nat)
    requires Stands(p, r) && k < |p.cells|
    ensures r.LeafNode? ==> Stands(Page.CutCell(p, k), LeafNode(r.cells[..k] + r.cells[k + 1..]))
    ensures r.IntNode? ==> Stands(Page.CutCell(p, k), r.(icells := r.icells[..k] + r.icells[k + 1..]))
  {
    Page.RemoveViewRefines(p.cells, k);
  }

  /** On one page the operation does what it does on the record. */
  lemma PageStands(p: Page.PageRec, r: NodeRec, op: Op)
    requires Stands(p, r) && Storable(op) && !op.MakeLeaf? && !op.MakeInt?
    requires r.LeafNode? <==> op.PutLeaf? || op.CutLeaf?
    requires op.CutLeaf? ==> op.k < |r.cells|
    requires op.CutInt? ==> op.k < |r.icells|
    requires op.PutInt? ==> NewKey(r.icells, op.icell.key)
    ensures var t := OnPage(p, op); t.Done? ==> Stands(t.page, OnRecord(r, op))
  {
    match op
    case PutLeaf(_, c) => LeafPutStands(p, r, c);
    case PutInt(_, c) => IntPutStands(p, r, c);
    case CutLeaf(_, k) => CutStands(p, r, k);
    case CutInt(_, k) => CutStands(p, r, k);
    case SetRight(_, _) =>
  }

  // ----- all pages

  ghost predicate Holds(ps: Pages, st: Store) {
    ps.Keys == st.Keys && forall id :: id in st ==> Stands(ps[id], st[id])
  }

  /** An operation on the pages; nothing more is said once a page lacks room. */
  ghost function DoPages(ps: Pages, st: Store, op: Op): Option<Pages>
    requires Holds(ps, st) && Fine(st, op) && Storable(op)
  {
    match op
    case MakeLeaf(id) => Some(ps[id := Page.PageRec(true, [], 0, 0)])
    case MakeInt(id, right) => Some(ps[id := Page.PageRec(false, [], 0, right)])
    case _ =>
      assert Stands(ps[op.id], st[op.id]);
      match OnPage(ps[op.id], op)
      case Done(p) => Some(ps[op.id := p])
      case _ => None
  }

  lemma DoHolds(ps: Pages, st: Store, op: Op)
    requires Holds(ps, st) && Fine(st, op) && Storable(op)
    ensures var r := DoPages(ps, st, op); r.Some? ==> Holds(r.value, Do(st, op))
  {
    match op
    case MakeLeaf(id) => PutHolds(ps, st, id, Page.PageRec(true, [], 0, 0), LeafNode([]));
    case MakeInt(id, right) => PutHolds(ps, st, id, Page.PageRec(false, [], 0, right), IntNode([], right));
    case _ =>
      assert Stands(ps[op.id], st[op.id]);
      PageStands(ps[op.id], st[op.id], op);
      match OnPage(ps[op.id], op)
      case Done(p) => PutHolds(ps, st, op.id, p, OnRecord(st[op.id], op));
      case _ =>
  }

  lemma PutHolds(ps: Pages, st: Store, id: Id, p: Page.PageRec, r: NodeRec)
    requires Holds(ps, st) && Stands(p, r)
    ensures Holds(ps[id := p], st[id := r])
  {
  }

  ghost predicate AllStorable(ops: seq<Op>) {
    forall i :: 0 <= i < |ops| ==> Storable(ops[i])
  }

  const EmptyPages: Pages := map[0 := Page.PageRec(true, [], 0, 0)]

  /** The pages after operations that build a store of records: they hold the same tree. */
  ghost function ReplayPages(ops: seq<Op>): (r: Option<Pages>)
    requires Replay(ops).Some? && AllStorable(ops)
    ensures r.Some? ==> Holds(r.value, Replay(ops).value)
  {
    if ops == [] then Some(EmptyPages)
    else
      var front, op := ops[..|ops| - 1], ops[|ops| - 1];
      match ReplayPages(front)
      case None => None
      case Some(ps) =>
        DoHolds(ps, Replay(front).value, op);
        DoPages(ps, Replay(front).value, op)
  }

  // ----- with at most 30 bytes of data there is always room

  /** A leaf page keeps its garbage below 256 bytes, and an interior page its cells and garbage
      together far below a page. */
  ghost predicate Roomy(p: Page.PageRec) {
    && |p.cells| <= ORDER
    && if p.leaf then
         && (forall i :: 0 <= i < |p.cells| ==> |p.cells[i]| <= 38)
         && (p.garbage <= 64 || (5 <= |p.cells| && p.garbage <= 64 + 38 * (ORDER - |p.cells|)))
       else
         && (forall i :: 0 <= i < |p.cells| ==> |p.cells[i]| == 8)
         && p.garbage + 8 * |p.cells| <= 144
  }

  lemma {:induction false} TotalBelow(cs: seq<Page.Bytes>)
    requires forall i :: 0 <= i < |cs| ==> |cs[i]| <= 38
    ensures Page.Total(cs) <= 38 * |cs|
  {
    if cs != [] { TotalBelow(cs[1..]); }
  }

  lemma LeafRoom(p: Page.PageRec, c: Cell)
    requires PageOk(p) && Roomy(p) && p.leaf && |p.cells| < ORDER && |c.data| <= 30
    ensures var t := Page.LeafPut(p, c.key, c.data); t.Done? && Roomy(t.page)
  {
    TotalBelow(p.cells);
    assert Page.Checked(p.garbage) <= 64;
  }

  lemma IntRoom(p: Page.PageRec, c: IntCell)
    requires PageOk(p) && Roomy(p) && !p.leaf && |p.cells| < ORDER && Small32(c.child)
    ensures var t := Page.IntPut(p, c.key, c.child); t.Done? && Roomy(t.page)
  {
    Page.TotalInterior(p.cells);
    assert Page.Checked(p.garbage) <= 64;
  }

  lemma CutRoom(p: Page.PageRec, k: nat)
    requires Roomy(p) && k < |p.cells| && (p.leaf ==> 5 < |p.cells|)
    ensures Roomy(Page.CutCell(p, k))
  {
  }

  lemma PageRoom(p: Page.PageRec, r: NodeRec, op: Op)
    requires Stands(p, r) && Roomy(p) && Storable(op) && Light(op, 30) && !op.MakeLeaf? && !op.MakeInt?
    requires r.LeafNode? <==> op.PutLeaf? || op.CutLeaf?
    requires op.PutLeaf? || op.PutInt? ==> |p.cells| < ORDER
    requires op.CutLeaf? ==> op.k < |p.cells| && 5 < |p.cells|
    requires op.CutInt? ==> op.k < |p.cells|
    ensures var t := OnPage(p, op); t.Done? && Roomy(t.page)
  {
    match op
    case PutLeaf(_, c) => LeafRoom(p, c);
    case PutInt(_, c) => IntRoom(p, c);
    case CutLeaf(_, k) => CutRoom(p, k);
    case CutInt(_, k) => CutRoom(p, k);
    case SetRight(_, _) =>
  }

  ghost predicate AllRoomy(ps: Pages) {
    forall id :: id in ps ==> Roomy(ps[id])
  }

  lemma DoRoomy(ps: Pages, st: Store, op: Op)
    requires Holds(ps, st) && Fine(st, op) && Storable(op) && AllRoomy(ps) && Light(op, 30)
    ensures var r := DoPages(ps, st, op); r.Some? && AllRoomy(r.value)
  {
    if !op.MakeLeaf? && !op.MakeInt? {
      assert Stands(ps[op.id], st[op.id]) && Roomy(ps[op.id]);
      PageRoom(ps[op.id], st[op.id], op);
    }
  }

  lemma {:induction false} RunRoomy(ops: seq<Op>)
    requires Replay(ops).Some? && AllStorable(ops) && AllLight(ops, 30)
    ensures var r := ReplayPages(ops); r.Some? && AllRoomy(r.value)
  {
    if ops != [] {
      var front := ops[..|ops| - 1];
      RunRoomy(front);
      DoRoomy(ReplayPages(front).value, Replay(front).value, ops[|ops| - 1]);
    }
  }

  // ----- the tree

  /** A tree of byte pages: what the tree has done to its nodes, done to pages, leaves pages that stand
      for its records, unless a page lacked room. */
  lemma PagesHoldTree(tree: BPlusTree)
    requires tree.Valid() && AllStorable(tree.history.ops)
    ensures Replay(tree.history.ops).Some?
    ensures var r := ReplayPages(tree.history.ops); r.Some? ==> Holds(r.value, tree.store)
  {
  }

  /** When no cell with more than 30 bytes of data was ever inserted, no page ever does. */
  lemma SmallTreeOnPages(tree: BPlusTree)
    requires tree.Valid() && AllStorable(tree.history.ops) && tree.history.most <= 30
    ensures Replay(tree.history.ops).Some?
    ensures var r := ReplayPages(tree.history.ops); r.Some? && Holds(r.value, tree.store)
  {
    var h := Raised(tree.history, 30);
    RunRoomy(h.ops);
  }
}
