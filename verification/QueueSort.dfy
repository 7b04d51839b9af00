/** Insertion sort on a circular doubly linked list, by relinking its nodes. */
module QueueSort {
  import opened Lists
  import opened Rings

  type Compare = (Id, Id) -> int

  predicate Le(cmp: Compare, a: Id, b: Id) { cmp(a, b) <= 0 }

  ghost predicate TotalPreorder(cmp: Compare) {
    && (forall a, b :: Le(cmp, a, b) || Le(cmp, b, a))
    && (forall a, b, c :: Le(cmp, a, b) && Le(cmp, b, c) ==> Le(cmp, a, c))
  }

  ghost predicate Sorted(cmp: Compare, l: seq<Id>) {
    forall i, j :: 0 <= i < j < |l| ==> Le(cmp, l[i], l[j])
  }

  /** The nodes of `l` that compare equal to `x`, in their order. */
  ghost function Ties(cmp: Compare, l: seq<Id>, x: Id): seq<Id> {
    if l == [] then []
    else (if Le(cmp, l[0], x) && Le(cmp, x, l[0]) then [l[0]] else []) + Ties(cmp, l[1..], x)
  }

  /** `s` is `l` in order, with nodes that compare equal left in their order. */
  ghost predicate StableSort(cmp: Compare, l: seq<Id>, s: seq<Id>) {
    Sorted(cmp, s) && multiset(s) == multiset(l) && SameTies(cmp, s, l)
  }

  ghost predicate SameTies(cmp: Compare, s: seq<Id>, t: seq<Id>) {
    forall x :: Ties(cmp, s, x) == Ties(cmp, t, x)
  }

  lemma {:induction false} TiesConcat(cmp: Compare, l: seq<Id>, m: seq<Id>, x: Id)
    ensures Ties(cmp, l + m, x) == Ties(cmp, l, x) + Ties(cmp, m, x)
  {
    if l == [] {
      assert l + m == m;
    } else {
      assert (l + m)[1..] == l[1..] + m;
      TiesConcat(cmp, l[1..], m, x);
    }
  }

  lemma {:induction false} NoTies(cmp: Compare, l: seq<Id>, q: Id, x: Id)
    requires TotalPreorder(cmp) && Le(cmp, q, x) && Le(cmp, x, q)
    requires forall i :: 0 <= i < |l| ==> !Le(cmp, l[i], q)
    ensures Ties(cmp, l, x) == []
  {
    if l != [] { NoTies(cmp, l[1..], q, x); }
  }

  /** Where the inner loop stops: everything from i on is greater than q, and the node in front
      is not. */
  ghost predicate Place(cmp: Compare, p: seq<Id>, q: Id, i: nat) {
    i <= |p| && (i > 0 ==> Le(cmp, p[i - 1], q)) && forall j :: i <= j < |p| ==> !Le(cmp, p[j], q)
  }

  lemma PlaceSorted(cmp: Compare, p: seq<Id>, q: Id, i: nat)
    requires TotalPreorder(cmp) && Sorted(cmp, p) && Place(cmp, p, q, i)
    ensures Sorted(cmp, p[..i] + [q] + p[i..])
  {
    var s := p[..i] + [q] + p[i..];
    forall a, b | 0 <= a < b < |s| ensures Le(cmp, s[a], s[b]) {
      if b == i {
        assert Le(cmp, p[i - 1], q) && (a == i - 1 || Le(cmp, p[a], p[i - 1]));
      } else if a == i {
        assert !Le(cmp, p[b - 1], q);
      }
    }
  }

  lemma SameNodes(p: seq<Id>, q: Id, i: nat, r: seq<Id>)
    requires i <= |p|
    ensures multiset(p[..i] + [q] + p[i..] + r) == multiset(p + ([q] + r))
  {
    assert p == p[..i] + p[i..];
  }

  /** One round: q moves over the greater nodes, past none that compares equal. */
  lemma PlaceOk(cmp: Compare, p: seq<Id>, q: Id, i: nat, r: seq<Id>)
    requires TotalPreorder(cmp) && Sorted(cmp, p) && Place(cmp, p, q, i)
    ensures Sorted(cmp, p[..i] + [q] + p[i..])
    ensures multiset(p[..i] + [q] + p[i..] + r) == multiset(p + ([q] + r))
    ensures SameTies(cmp, p[..i] + [q] + p[i..] + r, p + ([q] + r))
  {
    PlaceSorted(cmp, p, q, i);
    SameNodes(p, q, i, r);
    forall x ensures Ties(cmp, p[..i] + [q] + p[i..] + r, x) == Ties(cmp, p + ([q] + r), x) {
      PlaceTies(cmp, p, q, i, r, x);
    }
  }

  lemma HopOver(cmp: Compare, a: seq<Id>, q: Id, b: seq<Id>, x: Id)
    requires TotalPreorder(cmp) && forall j :: 0 <= j < |b| ==> !Le(cmp, b[j], q)
    ensures Ties(cmp, a + [q] + b, x) == Ties(cmp, a + b + [q], x)
  {
    TiesConcat(cmp, a + [q], b, x);
    TiesConcat(cmp, a, [q], x);
    TiesConcat(cmp, a + b, [q], x);
    TiesConcat(cmp, a, b, x);
    if Le(cmp, q, x) && Le(cmp, x, q) {
      NoTies(cmp, b, q, x);
    } else {
      assert Ties(cmp, [q], x) == [];
    }
  }

  lemma PlaceTies(cmp: Compare, p: seq<Id>, q: Id, i: nat, r: seq<Id>, x: Id)
    requires TotalPreorder(cmp) && Place(cmp, p, q, i)
    ensures Ties(cmp, p[..i] + [q] + p[i..] + r, x) == Ties(cmp, p + ([q] + r), x)
  {
    HopOver(cmp, p[..i], q, p[i..], x);
    assert p + ([q] + r) == p[..i] + p[i..] + [q] + r;
    TiesConcat(cmp, p[..i] + [q] + p[i..], r, x);
    TiesConcat(cmp, p[..i] + p[i..] + [q], r, x);
  }

  lemma SameFirst(cmp: Compare, s: seq<Id>, t: seq<Id>)
    requires TotalPreorder(cmp) && Sorted(cmp, s) && Sorted(cmp, t) && multiset(s) == multiset(t) && s != []
    requires Ties(cmp, s, s[0]) == Ties(cmp, t, s[0])
    ensures t != [] && s[0] == t[0]
  {
    var x := s[0];
    assert x in multiset(t);
    var i :| 0 <= i < |t| && t[i] == x;
    assert t[0] in multiset(s);
    var j :| 0 <= j < |s| && s[j] == t[0];
    assert Le(cmp, x, x) && Le(cmp, t[0], x) && Le(cmp, x, t[0]);
    assert Ties(cmp, s, x)[0] == s[0] && Ties(cmp, t, x)[0] == t[0];
  }

  lemma MultisetTail(s: seq<Id>)
    requires s != []
    ensures multiset(s[1..]) == multiset(s) - multiset{s[0]}
  {
    assert s == [s[0]] + s[1..];
  }

  lemma SortedTail(cmp: Compare, s: seq<Id>)
    requires Sorted(cmp, s) && s != []
    ensures Sorted(cmp, s[1..])
  {
  }

  lemma TailsAlike(cmp: Compare, s: seq<Id>, t: seq<Id>)
    requires s != [] && t != [] && s[0] == t[0] && multiset(s) == multiset(t) && SameTies(cmp, s, t)
    ensures multiset(s[1..]) == multiset(t[1..]) && SameTies(cmp, s[1..], t[1..])
  {
    MultisetTail(s);
    MultisetTail(t);
    var x, s', t' := s[0], s[1..], t[1..];
    assert s == [x] + s' && t == [x] + t';
    forall y ensures Ties(cmp, s', y) == Ties(cmp, t', y) {
      assert Ties(cmp, s, y) == Ties(cmp, t, y);
      TailTies(cmp, x, s', t', y);
    }
  }

  /** There is only one such order. */
  lemma {:induction false} StableSortUnique(cmp: Compare, s: seq<Id>, t: seq<Id>)
    requires TotalPreorder(cmp) && Sorted(cmp, s) && Sorted(cmp, t) && multiset(s) == multiset(t) && SameTies(cmp, s, t)
    ensures s == t
    decreases |s|
  {
    if s == [] {
      assert |multiset(t)| == 0;
    } else {
      assert Ties(cmp, s, s[0]) == Ties(cmp, t, s[0]);
      SameFirst(cmp, s, t);
      TailsAlike(cmp, s, t);
      SortedTail(cmp, s);
      SortedTail(cmp, t);
      StableSortUnique(cmp, s[1..], t[1..]);
      assert s == [s[0]] + s[1..] && t == [t[0]] + t[1..];
    }
  }

  lemma TailTies(cmp: Compare, x: Id, s: seq<Id>, t: seq<Id>, y: Id)
    requires Ties(cmp, [x] + s, y) == Ties(cmp, [x] + t, y)
    ensures Ties(cmp, s, y) == Ties(cmp, t, y)
  {
    TiesConcat(cmp, [x], s, y);
    TiesConcat(cmp, [x], t, y);
    var h := Ties(cmp, [x], y);
    assert (h + Ties(cmp, s, y))[|h|..] == Ties(cmp, s, y);
    assert (h + Ties(cmp, t, y))[|h|..] == Ties(cmp, t, y);
  }

  lemma RoundStart(k: Links, h: Id, p: seq<Id>, r: seq<Id>)
    requires Ring(k, h, p + r) && p != [] && r != []
    ensures r == [r[0]] + r[1..] && (p + r)[|p|] == r[0]
    ensures (p + r)[..|p|] + (p + r)[|p| + 1..] == p + r[1..]
    ensures r[0] in k.prev && k.prev[r[0]] == p[|p| - 1]
    ensures r[0] in k.next && k.next[r[0]] == Tour(h, p + r[1..])[|p| + 1]
  {
    var c := Tour(h, p + r);
    assert Hop(k, c[|p|], c[|p| + 1]) && Hop(k, c[|p| + 1], c[|p| + 2]);
  }

  lemma RoundEnd(h: Id, p: seq<Id>, p': seq<Id>, r: seq<Id>)
    requires |p'| == |p| + 1
    ensures Tour(h, p + r)[|p| + 1] == Tour(h, p' + r)[|p'| + 1]
  {
  }

  class Queue {
    const head: Id
    var links: Links

    constructor (head: Id)
      ensures this.head == head && Ring(links, head, [])
    {
      this.head := head;
      links := Links(map[head := head], map[head := head]);
    }

    method InsertAfter(p: Id, x: Id, ghost l: seq<Id>, ghost i: nat)
      requires Ring(links, head, l) && i <= |l| && p == Tour(head, l)[i] && x !in l && x != head
      modifies this
      ensures Ring(links, head, l[..i] + [x] + l[i..])
    {
      PutRing(links, head, l, i, x);
      ghost var put := PutAfter(links, p, x);
      assert Hop(links, Tour(head, l)[i], Tour(head, l)[i + 1]);
      var after := links.next[p];
      links := links.(next := links.next[x := after]);
      links := links.(prev := links.prev[after := x]);
      links := links.(prev := links.prev[x := p]);
      links := links.(next := links.next[p := x]);
      assert links == put;
    }

    method Remove(x: Id, ghost l: seq<Id>, ghost i: nat)
      requires Ring(links, head, l) && i < |l| && x == l[i]
      modifies this
      ensures Ring(links, head, l[..i] + l[i + 1..])
    {
      CutRing(links, head, l, i);
      var next, prev := links.next[x], links.prev[x];
      links := links.(prev := links.prev[next := prev]);
      links := links.(next := links.next[prev := next]);
    }

    /** The inner loop, with q already taken out: back from the last node of p. */
    method FindPlace(cmp: Compare, from: Id, q: Id, ghost p: seq<Id>, ghost r: seq<Id>) returns (prev: Id, ghost i: nat)
      requires Ring(links, head, p + r) && p != [] && from == p[|p| - 1]
      ensures Place(cmp, p, q, i) && prev == Tour(head, p + r)[i]
    {
      prev, i := from, |p|;
      while true
        invariant 0 < i <= |p| && prev == Tour(head, p + r)[i]
        invariant forall j :: i <= j < |p| ==> !Le(cmp, p[j], q)
        decreases i
      {
        if cmp(prev, q) <= 0 { break; }
        assert Hop(links, Tour(head, p + r)[i - 1], Tour(head, p + r)[i]);
        prev := links.prev[prev];
        i := i - 1;
        if prev == head { break; }
      }
    }

    method Sort(cmp: Compare, ghost l: seq<Id>) returns (ghost s: seq<Id>)
      requires Ring(links, head, l) && TotalPreorder(cmp)
      modifies this
      ensures Ring(links, head, s) && StableSort(cmp, l, s)
    {
      s := l;
      assert Hop(links, Tour(head, l)[0], Tour(head, l)[1]) && Hop(links, Tour(head, l)[|l|], Tour(head, l)[|l| + 1]);
      var q := links.next[head];
      if q == links.prev[head] { return; }
      assert Hop(links, Tour(head, l)[1], Tour(head, l)[2]);
      q := links.next[q];
      ghost var p, r := l[..1], l[1..];
      assert p + r == l;
      while q != head
        invariant Ring(links, head, p + r) && p != [] && q == Tour(head, p + r)[|p| + 1]
        invariant Sorted(cmp, p) && multiset(p + r) == multiset(l)
        invariant SameTies(cmp, p + r, l)
        decreases |r|
      {
        assert r != [];
        p, r, q := Round(cmp, q, p, r);
      }
      s := p;
      assert p + r == p;
    }

    /** One round of the outer loop: the first node of r finds its place in p. */
    method Round(cmp: Compare, q: Id, ghost p: seq<Id>, ghost r: seq<Id>)
      returns (ghost p': seq<Id>, ghost r': seq<Id>, next: Id)
      requires Ring(links, head, p + r) && p != [] && r != [] && q == r[0]
      requires TotalPreorder(cmp) && Sorted(cmp, p)
      modifies this
      ensures Ring(links, head, p' + r') && p' != [] && |r'| < |r| && next == Tour(head, p' + r')[|p'| + 1]
      ensures Sorted(cmp, p') && multiset(p' + r') == multiset(p + r)
      ensures SameTies(cmp, p' + r', p + r)
    {
      ghost var i;
      i, next := Relink(cmp, q, p, r);
      p', r' := p[..i] + [q] + p[i..], r[1..];
      assert r == [q] + r';
      PlaceOk(cmp, p, q, i, r');
    }

    method Relink(cmp: Compare, q: Id, ghost p: seq<Id>, ghost r: seq<Id>) returns (ghost i: nat, next: Id)
      requires Ring(links, head, p + r) && p != [] && r != [] && q == r[0]
      modifies this
      ensures Place(cmp, p, q, i)
      ensures var l := p[..i] + [q] + p[i..] + r[1..]; Ring(links, head, l) && next == Tour(head, l)[|p| + 2]
    {
      RoundStart(links, head, p, r);
      var prev := links.prev[q];
      next := links.next[q];
      ghost var r' := r[1..];
      Remove(q, p + r, |p|);
      prev, i := FindPlace(cmp, prev, q, p, r');
      InsertAfter(prev, q, p + r', i);
      assert (p + r')[..i] + [q] + (p + r')[i..] == p[..i] + [q] + p[i..] + r';
      RoundEnd(head, p, p[..i] + [q] + p[i..], r');
    }
  }
}
