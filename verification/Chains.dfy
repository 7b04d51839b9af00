/** A family of doubly linked lists over the nodes 0..n-1, list j hanging on head n + j.  The
    prev field of a head is not kept up to date. */
module Chains {
  import opened Lists
  import opened Rings

  /** The next field of a node in no list. */
  function Null(n: nat, ls: seq<seq<Id>>): Id { n + |ls| }

  /** From a to b, where b is a node or the head h. */
  ghost predicate Link(k: Links, h: Id, a: Id, b: Id) {
    a in k.next && k.next[a] == b && (b != h ==> b in k.prev && k.prev[b] == a)
  }

  ghost predicate Chain(k: Links, h: Id, l: seq<Id>) {
    NoDup(l) && h !in l && forall i :: 0 <= i <= |l| ==> Link(k, h, Tour(h, l)[i], Tour(h, l)[i + 1])
  }

  /** y takes over the place of x. */
  function Replace(k: Links, x: Id, y: Id): Links
    requires x in k.next && x in k.prev
  {
    Links(k.next[y := k.next[x]][k.prev[x] := y], k.prev[y := k.prev[x]][k.next[x] := y])
  }

  lemma NodeLinks(k: Links, h: Id, l: seq<Id>, i: nat)
    requires Chain(k, h, l) && i < |l|
    ensures l[i] in k.next && l[i] in k.prev
    ensures k.prev[l[i]] == Tour(h, l)[i] && k.next[l[i]] == Tour(h, l)[i + 2]
  {
    assert Link(k, h, Tour(h, l)[i], Tour(h, l)[i + 1]) && Link(k, h, Tour(h, l)[i + 1], Tour(h, l)[i + 2]);
  }

  lemma CutChain(k: Links, h: Id, l: seq<Id>, i: nat)
    requires Chain(k, h, l) && i < |l|
    ensures l[i] in k.next && l[i] in k.prev && Chain(Cut(k, l[i]), h, Drop(l, i))
  {
    NodeLinks(k, h, l, i);
    var c := Tour(h, l);
    var l' := Drop(l, i);
    var c' := Tour(h, l');
    var k' := Cut(k, l[i]);
    assert forall j :: 0 <= j < |l'| ==> l'[j] == l[if j < i then j else j + 1];
    assert forall j :: 0 <= j < |c'| ==> c'[j] == c[if j <= i then j else j + 1];
    forall j | 0 <= j <= |l'| ensures Link(k', h, c'[j], c'[j + 1]) {
      if j < i {
        assert Link(k, h, c[j], c[j + 1]);
      } else if j > i {
        assert Link(k, h, c[j + 1], c[j + 2]);
      }
    }
  }

  lemma PushChain(k: Links, h: Id, l: seq<Id>, x: Id)
    requires Chain(k, h, l) && x !in l && x != h
    ensures h in k.next && Chain(PutAfter(k, h, x), h, [x] + l)
  {
    var c := Tour(h, l);
    assert Link(k, h, c[0], c[1]);
    var l' := [x] + l;
    var c' := Tour(h, l');
    var k' := PutAfter(k, h, x);
    assert forall j :: 0 <= j < |c'| ==> c'[j] == if j == 0 then h else if j == 1 then x else c[j - 1];
    forall j | 0 <= j <= |l'| ensures Link(k', h, c'[j], c'[j + 1]) {
      if j > 1 { assert Link(k, h, c[j - 1], c[j]); }
    }
  }

  lemma ReplaceChain(k: Links, h: Id, l: seq<Id>, i: nat, y: Id)
    requires Chain(k, h, l) && i < |l| && y !in l && y != h
    ensures l[i] in k.next && l[i] in k.prev && Chain(Replace(k, l[i], y), h, Swap(l, i, y))
  {
    NodeLinks(k, h, l, i);
    var c := Tour(h, l);
    var l' := Swap(l, i, y);
    var c' := Tour(h, l');
    var k' := Replace(k, l[i], y);
    assert forall j :: 0 <= j < |l'| ==> l'[j] == if j == i then y else l[j];
    assert forall j :: 0 <= j < |c'| ==> c'[j] == if j == i + 1 then y else c[j];
    forall j | 0 <= j <= |l'| ensures Link(k', h, c'[j], c'[j + 1]) {
      assert Link(k, h, c[j], c[j + 1]);
    }
  }

  /** Writing to nodes outside it leaves a list alone. */
  lemma ChainKept(k: Links, k': Links, h: Id, l: seq<Id>)
    requires Chain(k, h, l)
    requires forall a :: a in [h] + l ==> (a in k.next ==> a in k'.next && k'.next[a] == k.next[a])
    requires forall a :: a in l ==> (a in k.prev ==> a in k'.prev && k'.prev[a] == k.prev[a])
    ensures Chain(k', h, l)
  {
    var c := Tour(h, l);
    forall j | 0 <= j <= |l| ensures Link(k', h, c[j], c[j + 1]) {
      assert Link(k, h, c[j], c[j + 1]) && c[j] in [h] + l;
      if c[j + 1] != h { assert c[j + 1] in l; }
    }
  }

  // ----- families

  ghost predicate Separate(n: nat, ls: seq<seq<Id>>) {
    && (forall j, x :: 0 <= j < |ls| && x in ls[j] ==> x < n)
    && (forall i, j, x :: 0 <= i < |ls| && 0 <= j < |ls| && x in ls[i] && x in ls[j] ==> i == j)
  }

  ghost predicate Listed(k: Links, n: nat, ls: seq<seq<Id>>, j: nat)
    requires j < |ls|
  {
    Chain(k, n + j, ls[j])
  }

  /** Every list is in order, and a node in no list has a null next field. */
  ghost predicate Family(k: Links, n: nat, ls: seq<seq<Id>>) {
    && Separate(n, ls)
    && (forall j: nat :: j < |ls| ==> Listed(k, n, ls, j))
    && (forall p: nat :: p < n ==> p in k.next && (k.next[p] == Null(n, ls) <==> !InSome(ls, p)))
  }

  ghost predicate InSome(ls: seq<seq<Id>>, x: Id) {
    exists j :: 0 <= j < |ls| && x in ls[j]
  }

  ghost function Members(n: nat, ls: seq<seq<Id>>, j: nat): seq<Id>
    requires j < |ls|
  {
    [n + j] + ls[j]
  }

  /** Each list but list j is as it was, and so are its nodes. */
  ghost predicate Untouched(k: Links, k': Links, n: nat, ls: seq<seq<Id>>, i: nat)
    requires i < |ls|
  {
    && (forall a :: a in Members(n, ls, i) ==> (a in k.next ==> a in k'.next && k'.next[a] == k.next[a]))
    && (forall a :: a in ls[i] ==> (a in k.prev ==> a in k'.prev && k'.prev[a] == k.prev[a]))
  }

  lemma OthersKept(k: Links, k': Links, n: nat, ls: seq<seq<Id>>, ls': seq<seq<Id>>, j: nat)
    requires j < |ls| == |ls'| && Chain(k', n + j, ls'[j])
    requires forall i: nat :: i < |ls| ==> Listed(k, n, ls, i)
    requires forall i: nat :: i < |ls| && i != j ==> ls'[i] == ls[i] && Untouched(k, k', n, ls, i)
    ensures forall i: nat :: i < |ls| ==> Listed(k', n, ls', i)
  {
    forall i: nat | i < |ls| ensures Listed(k', n, ls', i) {
      if i != j {
        assert Listed(k, n, ls, i) && Untouched(k, k', n, ls, i);
        ChainKept(k, k', n + i, ls[i]);
      }
    }
  }

  // ----- a node leaves its list

  function Unlist(k: Links, n: nat, ls: seq<seq<Id>>, x: Id): Links
    requires x in k.next && x in k.prev
  {
    Links(k.next[k.prev[x] := k.next[x]][x := Null(n, ls)], k.prev[k.next[x] := k.prev[x]])
  }

  lemma InList(k: Links, n: nat, ls: seq<seq<Id>>, j: nat, i: nat)
    requires Family(k, n, ls) && j < |ls| && i < |ls[j]|
    ensures var x := ls[j][i];
            && x < n && x in k.next && x in k.prev
            && k.prev[x] in Members(n, ls, j) && k.next[x] in Members(n, ls, j)
            && k.prev[x] != x && k.next[x] != x
  {
    assert Listed(k, n, ls, j) && ls[j][i] in ls[j];
    NodeLinks(k, n + j, ls[j], i);
  }

  lemma NotNext(k: Links, n: nat, ls: seq<seq<Id>>, j: nat, i: nat, y: Id)
    requires Family(k, n, ls) && j < |ls| && i < |ls[j]| && y < n && !InSome(ls, y)
    ensures var x := ls[j][i]; x in k.prev && x in k.next && k.prev[x] != y && k.next[x] != y && x != y
  {
    InList(k, n, ls, j, i);
    assert y !in ls[j];
  }

  lemma {:induction false} UnlistOk(k: Links, n: nat, ls: seq<seq<Id>>, j: nat, i: nat)
    requires Family(k, n, ls) && j < |ls| && i < |ls[j]|
    ensures ls[j][i] in k.next && ls[j][i] in k.prev
    ensures Family(Unlist(k, n, ls, ls[j][i]), n, ls[j := Drop(ls[j], i)])
  {
    InList(k, n, ls, j, i);
    var x := ls[j][i];
    var k', ls' := Unlist(k, n, ls, x), ls[j := Drop(ls[j], i)];
    assert Listed(k, n, ls, j);
    DropOk(ls[j], i);
    CutChain(k, n + j, ls[j], i);
    ChainKept(Cut(k, x), k', n + j, Drop(ls[j], i));
    forall q: nat | q < |ls| && q != j ensures ls'[q] == ls[q] && Untouched(k, k', n, ls, q) {
      Stranger(n, ls, j, q);
    }
    OthersKept(k, k', n, ls, ls', j);
    UnlistNulls(k, n, ls, j, i);
  }

  /** The nodes and the head of list q do not occur in list j. */
  lemma Stranger(n: nat, ls: seq<seq<Id>>, j: nat, q: nat)
    requires Separate(n, ls) && j < |ls| && q < |ls| && q != j
    ensures forall a :: a in Members(n, ls, q) ==> a !in Members(n, ls, j)
  {
  }

  lemma UnlistNulls(k: Links, n: nat, ls: seq<seq<Id>>, j: nat, i: nat)
    requires Family(k, n, ls) && j < |ls| && i < |ls[j]|
    ensures ls[j][i] in k.next && ls[j][i] in k.prev
    ensures var k', ls' := Unlist(k, n, ls, ls[j][i]), ls[j := Drop(ls[j], i)];
            Separate(n, ls') && forall p: nat :: p < n ==> p in k'.next && (k'.next[p] == Null(n, ls') <==> !InSome(ls', p))
  {
    InList(k, n, ls, j, i);
    var x := ls[j][i];
    var k', ls' := Unlist(k, n, ls, x), ls[j := Drop(ls[j], i)];
    assert Listed(k, n, ls, j);
    DropOk(ls[j], i);
    assert forall q, y :: 0 <= q < |ls| && y in ls'[q] ==> y in ls[q];
    forall p: nat | p < n ensures p in k'.next && (k'.next[p] == Null(n, ls') <==> !InSome(ls', p)) {
      if p == x {
        assert forall q :: 0 <= q < |ls| && q != j ==> x !in ls[q];
      } else {
        SameSome(ls, ls', j, p);
      }
    }
  }

  lemma SameSome(ls: seq<seq<Id>>, ls': seq<seq<Id>>, j: nat, p: Id)
    requires j < |ls| == |ls'| && (p in ls[j] <==> p in ls'[j]) && forall q: nat :: q < |ls| && q != j ==> ls'[q] == ls[q]
    ensures InSome(ls, p) <==> InSome(ls', p)
  {
    if InSome(ls, p) { var q :| 0 <= q < |ls| && p in ls[q]; assert p in ls'[q]; }
    if InSome(ls', p) { var q :| 0 <= q < |ls| && p in ls'[q]; assert p in ls[q]; }
  }

  // ----- a node in no list comes first in list j

  lemma {:induction false} EnlistOk(k: Links, n: nat, ls: seq<seq<Id>>, j: nat, x: Id)
    requires Family(k, n, ls) && j < |ls| && x < n && !InSome(ls, x)
    ensures n + j in k.next && Family(PutAfter(k, n + j, x), n, ls[j := [x] + ls[j]])
  {
    assert Listed(k, n, ls, j) && x !in ls[j];
    PushChain(k, n + j, ls[j], x);
    assert Link(k, n + j, Tour(n + j, ls[j])[0], Tour(n + j, ls[j])[1]);
    assert k.next[n + j] in Members(n, ls, j);
    var k', ls' := PutAfter(k, n + j, x), ls[j := [x] + ls[j]];
    forall q: nat | q < |ls| && q != j ensures ls'[q] == ls[q] && Untouched(k, k', n, ls, q) {
      Stranger(n, ls, j, q);
      assert x !in ls[q];
    }
    OthersKept(k, k', n, ls, ls', j);
    EnlistNulls(k, n, ls, j, x);
  }

  lemma EnlistNulls(k: Links, n: nat, ls: seq<seq<Id>>, j: nat, x: Id)
    requires Family(k, n, ls) && j < |ls| && x < n && !InSome(ls, x) && n + j in k.next && k.next[n + j] in Members(n, ls, j)
    ensures var k', ls' := PutAfter(k, n + j, x), ls[j := [x] + ls[j]];
            Separate(n, ls') && forall p: nat :: p < n ==> p in k'.next && (k'.next[p] == Null(n, ls') <==> !InSome(ls', p))
  {
    var k', ls' := PutAfter(k, n + j, x), ls[j := [x] + ls[j]];
    assert forall q, y :: 0 <= q < |ls| && y in ls'[q] ==> y in ls[q] || (q == j && y == x);
    assert forall q :: 0 <= q < |ls| ==> x !in ls[q];
    assert k.next[n + j] != Null(n, ls) by { assert forall y :: y in ls[j] ==> y < n; }
    forall p: nat | p < n ensures p in k'.next && (k'.next[p] == Null(n, ls') <==> !InSome(ls', p)) {
      if p == x {
        assert x in ls'[j];
      } else {
        SameSome(ls, ls', j, p);
      }
    }
  }

  // ----- a node in no list takes the place of one

  function Handover(k: Links, n: nat, ls: seq<seq<Id>>, x: Id, y: Id): Links
    requires x in k.next && x in k.prev
  {
    Links(Replace(k, x, y).next[x := Null(n, ls)], Replace(k, x, y).prev)
  }

  lemma {:induction false} HandoverOk(k: Links, n: nat, ls: seq<seq<Id>>, j: nat, i: nat, y: Id)
    requires Family(k, n, ls) && j < |ls| && i < |ls[j]| && y < n && !InSome(ls, y)
    ensures ls[j][i] in k.next && ls[j][i] in k.prev
    ensures Family(Handover(k, n, ls, ls[j][i], y), n, ls[j := Swap(ls[j], i, y)])
  {
    InList(k, n, ls, j, i);
    var k', ls' := Handover(k, n, ls, ls[j][i], y), ls[j := Swap(ls[j], i, y)];
    HandoverChain(k, n, ls, j, i, y);
    HandoverOthers(k, n, ls, j, i, y);
    OthersKept(k, k', n, ls, ls', j);
    HandoverNulls(k, n, ls, j, i, y);
  }

  lemma HandoverChain(k: Links, n: nat, ls: seq<seq<Id>>, j: nat, i: nat, y: Id)
    requires Family(k, n, ls) && j < |ls| && i < |ls[j]| && y < n && !InSome(ls, y)
    ensures ls[j][i] in k.next && ls[j][i] in k.prev
    ensures Chain(Handover(k, n, ls, ls[j][i], y), n + j, Swap(ls[j], i, y))
  {
    InList(k, n, ls, j, i);
    assert Listed(k, n, ls, j) && y !in ls[j];
    HandoverOne(k, n + j, ls[j], i, y, Null(n, ls));
  }

  lemma HandoverOne(k: Links, head: Id, l: seq<Id>, i: nat, y: Id, z: Id)
    requires Chain(k, head, l) && i < |l| && l[i] != head && y !in l && y != head && l[i] in k.next && l[i] in k.prev
    ensures Chain(Links(Replace(k, l[i], y).next[l[i] := z], Replace(k, l[i], y).prev), head, Swap(l, i, y))
  {
    SwapOk(l, i, y);
    ReplaceChain(k, head, l, i, y);
    ChainKept(Replace(k, l[i], y), Links(Replace(k, l[i], y).next[l[i] := z], Replace(k, l[i], y).prev), head, Swap(l, i, y));
  }

  lemma HandoverOthers(k: Links, n: nat, ls: seq<seq<Id>>, j: nat, i: nat, y: Id)
    requires Family(k, n, ls) && j < |ls| && i < |ls[j]| && y < n && !InSome(ls, y)
    ensures ls[j][i] in k.next && ls[j][i] in k.prev
    ensures forall q: nat :: q < |ls| && q != j ==> Untouched(k, Handover(k, n, ls, ls[j][i], y), n, ls, q)
  {
    InList(k, n, ls, j, i);
    forall q: nat | q < |ls| && q != j ensures Untouched(k, Handover(k, n, ls, ls[j][i], y), n, ls, q) {
      Stranger(n, ls, j, q);
      assert y !in ls[q];
    }
  }

  lemma HandoverNulls(k: Links, n: nat, ls: seq<seq<Id>>, j: nat, i: nat, y: Id)
    requires Family(k, n, ls) && j < |ls| && i < |ls[j]| && y < n && !InSome(ls, y)
    ensures ls[j][i] in k.next && ls[j][i] in k.prev
    ensures var k', ls' := Handover(k, n, ls, ls[j][i], y), ls[j := Swap(ls[j], i, y)];
            Separate(n, ls') && forall p: nat :: p < n ==> p in k'.next && (k'.next[p] == Null(n, ls') <==> !InSome(ls', p))
  {
    InList(k, n, ls, j, i);
    var x := ls[j][i];
    var k', ls' := Handover(k, n, ls, x, y), ls[j := Swap(ls[j], i, y)];
    assert Listed(k, n, ls, j) && y !in ls[j];
    SwapOk(ls[j], i, y);
    assert forall q, z :: 0 <= q < |ls| && z in ls'[q] ==> z in ls[q] || (q == j && z == y);
    assert forall q :: 0 <= q < |ls| ==> y !in ls[q];
    assert InSome(ls, x) && k.next[x] != Null(n, ls);
    forall p: nat | p < n ensures p in k'.next && (k'.next[p] == Null(n, ls') <==> !InSome(ls', p)) {
      if p == x {
        assert forall q :: 0 <= q < |ls| && q != j ==> x !in ls[q];
      } else if p == y {
        assert y in ls'[j];
      } else {
        SameSome(ls, ls', j, p);
      }
    }
  }

  /** What the prev fields of heads hold does not matter. */
  lemma FamilyKept(k: Links, k': Links, n: nat, ls: seq<seq<Id>>)
    requires Family(k, n, ls) && k'.next == k.next
    requires forall x: Id :: x < n && x in k.prev ==> x in k'.prev && k'.prev[x] == k.prev[x]
    ensures Family(k', n, ls)
  {
    forall j: nat | j < |ls| ensures Listed(k', n, ls, j) {
      assert Listed(k, n, ls, j);
      assert forall a :: a in ls[j] ==> a < n;
      ChainKept(k, k', n + j, ls[j]);
    }
  }
}
