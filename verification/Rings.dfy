/** Circular doubly linked lists with a head node, as next and prev fields of numbered nodes. */
module Rings {
  import opened Lists

  datatype Links = Links(next: map<Id, Id>, prev: map<Id, Id>)

  /** `b` comes right after `a`, read in either direction. */
  ghost predicate Hop(k: Links, a: Id, b: Id) {
    a in k.next && k.next[a] == b && b in k.prev && k.prev[b] == a
  }

  /** Once around, from the head back to the head. */
  ghost function Tour(h: Id, l: seq<Id>): (c: seq<Id>)
    ensures |c| == |l| + 2 && c[0] == h && c[|l| + 1] == h
    ensures forall i :: 0 < i <= |l| ==> c[i] == l[i - 1]
  {
    [h] + l + [h]
  }

  /** The nodes `l`, in this order, hang on the head `h`. */
  ghost predicate Ring(k: Links, h: Id, l: seq<Id>) {
    NoDup(l) && h !in l && forall i :: 0 <= i <= |l| ==> Hop(k, Tour(h, l)[i], Tour(h, l)[i + 1])
  }

  /** Take `x` out of whatever ring it is in. */
  function Cut(k: Links, x: Id): Links
    requires x in k.next && x in k.prev
  {
    Links(k.next[k.prev[x] := k.next[x]], k.prev[k.next[x] := k.prev[x]])
  }

  /** Put `x` between `p` and the node after it. */
  function PutAfter(k: Links, p: Id, x: Id): Links
    requires p in k.next
  {
    Links(k.next[x := k.next[p]][p := x], k.prev[k.next[p] := x][x := p])
  }

  lemma CutRing(k: Links, h: Id, l: seq<Id>, i: nat)
    requires Ring(k, h, l) && i < |l|
    ensures l[i] in k.next && l[i] in k.prev
    ensures Ring(Cut(k, l[i]), h, l[..i] + l[i + 1..])
  {
    var c := Tour(h, l);
    assert Hop(k, c[i], c[i + 1]) && Hop(k, c[i + 1], c[i + 2]);
    var l' := l[..i] + l[i + 1..];
    var c' := Tour(h, l');
    var k' := Cut(k, l[i]);
    assert forall j :: 0 <= j < |l'| ==> l'[j] == l[if j < i then j else j + 1];
    assert forall j :: 0 <= j < |c'| ==> c'[j] == c[if j <= i then j else j + 1];
    forall j | 0 <= j <= |l'| ensures Hop(k', c'[j], c'[j + 1]) {
      if j < i {
        assert Hop(k, c[j], c[j + 1]);
      } else if j > i {
        assert Hop(k, c[j + 1], c[j + 2]);
      }
    }
  }

  lemma PutRing(k: Links, h: Id, l: seq<Id>, i: nat, x: Id)
    requires Ring(k, h, l) && i <= |l| && x !in l && x != h
    ensures var p := Tour(h, l)[i];
            p in k.next && Ring(PutAfter(k, p, x), h, l[..i] + [x] + l[i..])
  {
    var c := Tour(h, l);
    var p := c[i];
    assert Hop(k, c[i], c[i + 1]);
    var l' := l[..i] + [x] + l[i..];
    var c' := Tour(h, l');
    var k' := PutAfter(k, p, x);
    assert forall j :: 0 <= j < |l'| ==> l'[j] == if j < i then l[j] else if j == i then x else l[j - 1];
    assert forall j :: 0 <= j < |c'| ==> c'[j] == if j <= i then c[j] else if j == i + 1 then x else c[j - 1];
    forall j | 0 <= j <= |l'| ensures Hop(k', c'[j], c'[j + 1]) {
      if j < i {
        assert Hop(k, c[j], c[j + 1]);
      } else if j > i + 1 {
        assert Hop(k, c[j - 1], c[j]);
      }
    }
  }

  /** Rings without a common node do not disturb each other. */
  lemma CutElsewhere(k: Links, h: Id, l: seq<Id>, i: nat, g: Id, m: seq<Id>)
    requires Ring(k, h, l) && i < |l| && Ring(k, g, m)
    requires forall a :: a in [h] + l ==> a !in [g] + m
    ensures l[i] in k.next && l[i] in k.prev && Ring(Cut(k, l[i]), g, m)
  {
    var c, d := Tour(h, l), Tour(g, m);
    assert Hop(k, c[i], c[i + 1]) && Hop(k, c[i + 1], c[i + 2]);
    assert c[i] in [h] + l && c[i + 2] in [h] + l;
    forall j | 0 <= j <= |m| ensures Hop(Cut(k, l[i]), d[j], d[j + 1]) {
      assert Hop(k, d[j], d[j + 1]) && d[j] in [g] + m && d[j + 1] in [g] + m;
    }
  }

  lemma PutElsewhere(k: Links, h: Id, l: seq<Id>, i: nat, x: Id, g: Id, m: seq<Id>)
    requires Ring(k, h, l) && i <= |l| && Ring(k, g, m) && x !in [g] + m
    requires forall a :: a in [h] + l ==> a !in [g] + m
    ensures var p := Tour(h, l)[i]; p in k.next && Ring(PutAfter(k, p, x), g, m)
  {
    var c, d := Tour(h, l), Tour(g, m);
    assert Hop(k, c[i], c[i + 1]);
    assert c[i] in [h] + l && c[i + 1] in [h] + l;
    forall j | 0 <= j <= |m| ensures Hop(PutAfter(k, c[i], x), d[j], d[j + 1]) {
      assert Hop(k, d[j], d[j + 1]) && d[j] in [g] + m && d[j + 1] in [g] + m;
    }
  }
}
