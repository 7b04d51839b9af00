/** The hash table of the cache: an array of chains that doubles when it has more elements
    than chains. */
module HandleTable {
  import opened Common
  import opened Lists
  import opened LruSpec

  /** A chain is chosen by `hash & (length - 1)`, which for a power of two is `hash % length`. */
  function Bucket(n: Name, length: nat): (b: nat)
    requires length > 0
    ensures b < length
  {
    n.hash % length
  }

  /** Every name of `c` is chained exactly once, in its own chain, and nothing else is. */
  ghost predicate Filed(list: seq<seq<Id>>, names: map<Id, Name>, c: map<Name, Id>) {
    && |list| > 0
    && (forall b :: 0 <= b < |list| ==> NoDup(list[b]))
    && (forall b, id :: 0 <= b < |list| && id in list[b] ==> Homed(|list|, names, c, b, id))
    && (forall n :: n in c ==> Chained(list, names, n, c[n]))
  }

  ghost predicate Homed(length: nat, names: map<Id, Name>, c: map<Name, Id>, b: nat, id: Id)
    requires length > 0
  {
    id in names && Bucket(names[id], length) == b && names[id] in c && c[names[id]] == id
  }

  ghost predicate Chained(list: seq<seq<Id>>, names: map<Id, Name>, n: Name, id: Id)
    requires |list| > 0
  {
    id in list[Bucket(n, |list|)] && id in names && names[id] == n
  }

  /** Where in its chain a name is, or the end of the chain. */
  ghost predicate Position(chain: seq<Id>, names: map<Id, Name>, n: Name, i: nat) {
    && i <= |chain|
    && (forall j :: 0 <= j < |chain| ==> chain[j] in names)
    && (forall j :: 0 <= j < i ==> names[chain[j]] != n)
    && (i < |chain| ==> names[chain[i]] == n)
  }

  lemma Doubled(n: nat)
    requires PowerOfTwo(n)
    ensures PowerOfTwo(2 * n) && 2 * n / 2 == n
  {
    assert 2 * n % 2 == 0;
  }

  lemma PositionFinds(list: seq<seq<Id>>, names: map<Id, Name>, c: map<Name, Id>, n: Name, i: nat)
    requires Filed(list, names, c) && Position(list[Bucket(n, |list|)], names, n, i)
    ensures var chain := list[Bucket(n, |list|)];
            if i < |chain| then n in c && c[n] == chain[i] else n !in c
  {
    var b := Bucket(n, |list|);
    if n in c { assert Chained(list, names, n, c[n]); }
    if i < |list[b]| { assert Homed(|list|, names, c, b, list[b][i]); }
  }

  lemma ReplaceFiled(list: seq<seq<Id>>, names: map<Id, Name>, c: map<Name, Id>, n: Name, i: nat, x: Id)
    requires Filed(list, names, c) && x !in names
    requires var chain := list[Bucket(n, |list|)]; Position(chain, names, n, i) && i < |chain|
    ensures var b := Bucket(n, |list|);
            Filed(list[b := Swap(list[b], i, x)], names[x := n] - {list[b][i]}, c[n := x])
  {
    var b := Bucket(n, |list|);
    var l', names', c' := list[b := Swap(list[b], i, x)], names[x := n] - {list[b][i]}, c[n := x];
    PositionFinds(list, names, c, n, i);
    forall id | id in list[b] ensures id != x { assert Homed(|list|, names, c, b, id); }
    SwapOk(list[b], i, x);
    forall d, id | 0 <= d < |l'| && id in l'[d] ensures Homed(|l'|, names', c', d, id) {
      if id != x { assert id in list[d] && Homed(|list|, names, c, d, id); }
    }
    forall m | m in c' ensures Chained(l', names', m, c'[m]) {
      if m == n {
        assert l'[b][i] == x;
      } else {
        assert Chained(list, names, m, c[m]);
        var j :| 0 <= j < |list[Bucket(m, |list|)]| && list[Bucket(m, |list|)][j] == c[m];
        assert l'[Bucket(m, |list|)][j] == c[m];
      }
    }
  }

  lemma AddFiled(list: seq<seq<Id>>, names: map<Id, Name>, c: map<Name, Id>, n: Name, chain: seq<Id>, x: Id)
    requires Filed(list, names, c) && n !in c && (x in names ==> names[x] == n)
    requires var was := list[Bucket(n, |list|)]; chain == was + [x] || chain == [x] + was
    ensures Filed(list[Bucket(n, |list|) := chain], names[x := n], c[n := x])
  {
    var b := Bucket(n, |list|);
    var l', names', c' := list[b := chain], names[x := n], c[n := x];
    assert x !in list[b];
    assert forall id :: id in chain <==> id == x || id in list[b];
    forall m | m in c' ensures Chained(l', names', m, c'[m]) {
      if m != n { assert Chained(list, names, m, c[m]); }
    }
  }

  lemma RemoveFiled(list: seq<seq<Id>>, names: map<Id, Name>, c: map<Name, Id>, n: Name, i: nat)
    requires Filed(list, names, c)
    requires var chain := list[Bucket(n, |list|)]; Position(chain, names, n, i) && i < |chain|
    ensures var b := Bucket(n, |list|); var chain := list[b];
            Filed(list[b := chain[..i] + chain[i + 1..]], names - {chain[i]}, c - {n})
  {
    var b := Bucket(n, |list|);
    var chain := list[b];
    var chain' := chain[..i] + chain[i + 1..];
    PositionFinds(list, names, c, n, i);
    ChainWithout(chain, i);
    var list', names', c' := list[b := chain'], names - {chain[i]}, c - {n};
    forall d, id | 0 <= d < |list'| && id in list'[d]
      ensures Homed(|list'|, names', c', d, id)
    {
      assert id in list[d];
      assert Homed(|list|, names, c, d, id);
    }
    forall m | m in c' ensures Chained(list', names', m, c'[m]) {
      assert Chained(list, names, m, c[m]);
    }
  }

  lemma ChainWithout(chain: seq<Id>, i: nat)
    requires NoDup(chain) && i < |chain|
    ensures var r := chain[..i] + chain[i + 1..]; NoDup(r) && forall x :: x in r <==> x in chain && x != chain[i]
  {
    DropOk(chain, i);
  }

  // ----- what Resize has moved when it stands before element j of chain i

  ghost predicate Passed(list: seq<seq<Id>>, n: Name, id: Id, i: nat, j: nat)
    requires |list| > 0
  {
    var b := Bucket(n, |list|);
    b < i || (b == i && j <= |list[b]| && id in list[b][..j])
  }

  ghost predicate MovedName(list: seq<seq<Id>>, c: map<Name, Id>, moved: map<Name, Id>, i: nat, j: nat, n: Name)
    requires |list| > 0
  {
    if n in c && Passed(list, n, c[n], i, j) then n in moved && moved[n] == c[n] else n !in moved
  }

  ghost predicate MovedUpTo(list: seq<seq<Id>>, c: map<Name, Id>, moved: map<Name, Id>, i: nat, j: nat)
    requires |list| > 0
  {
    forall n :: MovedName(list, c, moved, i, j, n)
  }

  lemma MoveNext(list: seq<seq<Id>>, names: map<Id, Name>, c: map<Name, Id>, moved: map<Name, Id>, i: nat, j: nat)
    requires Filed(list, names, c) && i < |list| && j < |list[i]| && MovedUpTo(list, c, moved, i, j)
    ensures var x := list[i][j];
            x in names && names[x] !in moved && MovedUpTo(list, c, moved[names[x] := x], i, j + 1)
  {
    var x := list[i][j];
    assert Homed(|list|, names, c, i, x);
    assert MovedName(list, c, moved, i, j, names[x]);
    var moved', j' := moved[names[x] := x], j + 1;
    forall n ensures MovedName(list, c, moved', i, j', n) {
      assert MovedName(list, c, moved, i, j, n);
    }
  }

  lemma MoveNextChain(list: seq<seq<Id>>, names: map<Id, Name>, c: map<Name, Id>, moved: map<Name, Id>, i: nat)
    requires Filed(list, names, c) && i < |list| && MovedUpTo(list, c, moved, i, |list[i]|)
    ensures MovedUpTo(list, c, moved, i + 1, 0)
  {
    var i', j' := i + 1, 0;
    forall n ensures MovedName(list, c, moved, i', j', n) {
      assert MovedName(list, c, moved, i, |list[i]|, n);
      if n in c { assert Chained(list, names, n, c[n]); }
    }
  }

  lemma AllMoved(list: seq<seq<Id>>, c: map<Name, Id>, moved: map<Name, Id>)
    requires |list| > 0 && MovedUpTo(list, c, moved, |list|, 0)
    ensures moved == c
  {
    var i, j := |list|, 0;
    forall n ensures (n in moved <==> n in c) && (n in moved ==> moved[n] == c[n]) {
      assert MovedName(list, c, moved, i, j, n);
    }
  }

  class HandleTable {
    var list: seq<seq<Id>>         // list_; each chain from its head along next_hash
    var names: map<Id, Name>       // the key and hash of the handles in the chains
    var length: nat
    var elems: nat
    ghost var contents: map<Name, Id>

    ghost predicate Valid()
      reads this
    {
      && length == |list| && PowerOfTwo(length) && elems == |contents| <= length
      && Filed(list, names, contents)
    }

    constructor ()
      ensures Valid() && contents == map[] && names == map[]
    {
      list := [[], [], [], []];
      names, length, elems, contents := map[], 4, 0, map[];
    }

    static method Scan(chain: seq<Id>, names: map<Id, Name>, n: Name) returns (i: nat)
      requires forall j :: 0 <= j < |chain| ==> chain[j] in names
      ensures Position(chain, names, n, i)
    {
      i := 0;
      while i < |chain| && names[chain[i]] != n
        invariant i <= |chain| && forall j :: 0 <= j < i ==> names[chain[j]] != n
      {
        i := i + 1;
      }
    }

    method FindPointer(n: Name) returns (i: nat)
      requires Valid()
      ensures Position(list[Bucket(n, length)], names, n, i)
    {
      var chain := list[Bucket(n, length)];
      forall j | 0 <= j < |chain| ensures chain[j] in names {
        assert Homed(|list|, names, contents, Bucket(n, length), chain[j]);
      }
      i := Scan(chain, names, n);
    }

    method Lookup(n: Name) returns (r: Option<Id>)
      requires Valid()
      ensures r == if n in contents then Some(contents[n]) else None
    {
      var i := FindPointer(n);
      PositionFinds(list, names, contents, n, i);
      var chain := list[Bucket(n, length)];
      r := if i < |chain| then Some(chain[i]) else None;
    }

    method Insert(x: Id, n: Name) returns (prior: Option<Id>)
      requires Valid() && x !in names
      modifies this
      ensures Valid() && contents == old(contents)[n := x]
      ensures prior == if n in old(contents) then Some(old(contents)[n]) else None
      ensures names.Keys <= old(names.Keys) + {x}
    {
      var i := FindPointer(n);
      PositionFinds(list, names, contents, n, i);
      if i < |list[Bucket(n, length)]| {
        var y := Exchange(x, n, i);
        prior := Some(y);
      } else {
        Chain(x, n);
        prior := None;
      }
    }

    /** The new handle takes the place of the one with its name. */
    method Exchange(x: Id, n: Name, i: nat) returns (y: Id)
      requires Valid() && x !in names && n in contents
      requires Position(list[Bucket(n, length)], names, n, i) && i < |list[Bucket(n, length)]|
      modifies this
      ensures Valid() && contents == old(contents)[n := x] && y == old(contents)[n]
      ensures names == old(names)[x := n] - {y}
    {
      var b := Bucket(n, length);
      PositionFinds(list, names, contents, n, i);
      ReplaceFiled(list, names, contents, n, i, x);
      y := list[b][i];
      names := names[x := n] - {y};
      list := list[b := Swap(list[b], i, x)];
      contents := contents[n := x];
    }

    /** A new name goes to the end of its chain. */
    method Chain(x: Id, n: Name)
      requires Valid() && x !in names && n !in contents
      modifies this
      ensures Valid() && contents == old(contents)[n := x] && names == old(names)[x := n]
    {
      var b := Bucket(n, length);
      AddFiled(list, names, contents, n, list[b] + [x], x);
      list := list[b := list[b] + [x]];
      names := names[x := n];
      contents := contents[n := x];
      elems := elems + 1;
      if elems > length { Resize(); }
    }

    method Remove(n: Name) returns (r: Option<Id>)
      requires Valid()
      modifies this
      ensures Valid() && contents == old(contents) - {n}
      ensures r == if n in old(contents) then Some(old(contents)[n]) else None
      ensures names.Keys <= old(names.Keys)
    {
      var i := FindPointer(n);
      PositionFinds(list, names, contents, n, i);
      if i < |list[Bucket(n, length)]| {
        var y := Unchain(n, i);
        r := Some(y);
      } else {
        r := None;
        assert contents - {n} == contents;
      }
    }

    method Unchain(n: Name, i: nat) returns (y: Id)
      requires Valid() && n in contents
      requires Position(list[Bucket(n, length)], names, n, i) && i < |list[Bucket(n, length)]|
      modifies this
      ensures Valid() && contents == old(contents) - {n} && y == old(contents)[n]
      ensures names == old(names) - {y}
    {
      var b := Bucket(n, length);
      PositionFinds(list, names, contents, n, i);
      RemoveFiled(list, names, contents, n, i);
      y := list[b][i];
      names := names - {y};
      list := list[b := list[b][..i] + list[b][i + 1..]];
      contents := contents - {n};
      elems := elems - 1;
    }

    /** Everything is chained anew, over the smallest power of two from 4 on that suffices. */
    method Resize()
      requires length == |list| && elems == |contents| && Filed(list, names, contents)
      modifies this`list, this`length
      ensures Valid() && PowerOfTwo(length) && length >= 4 && (length == 4 || length / 2 < elems)
    {
      var newLength := NewLength(elems);
      list := Rechain(newLength);
      length := newLength;
    }

    static method NewLength(elems: nat) returns (n: nat)
      ensures PowerOfTwo(n) && n >= elems && n >= 4 && (n == 4 || n / 2 < elems)
    {
      n := 4;
      while n < elems
        invariant PowerOfTwo(n) && n >= 4 && (n == 4 || n / 2 < elems)
      {
        Doubled(n);
        n := 2 * n;
      }
    }

    method Rechain(newLength: nat) returns (newList: seq<seq<Id>>)
      requires Filed(list, names, contents) && length == |list| && newLength > 0
      ensures |newList| == newLength && Filed(newList, names, contents)
    {
      newList := seq(newLength, _ => []);
      ghost var moved: map<Name, Id> := map[];
      var i := 0;
      while i < length
        invariant 0 <= i <= length && |newList| == newLength
        invariant Filed(newList, names, moved) && MovedUpTo(list, contents, moved, i, 0)
      {
        newList, moved := MoveChain(newList, moved, i);
        i := i + 1;
      }
      AllMoved(list, contents, moved);
    }

    /** The inner loop of Resize: each handle of chain i goes to the front of its new chain. */
    method MoveChain(newList: seq<seq<Id>>, ghost moved: map<Name, Id>, i: nat)
      returns (l: seq<seq<Id>>, ghost m: map<Name, Id>)
      requires Filed(list, names, contents) && i < |list|
      requires Filed(newList, names, moved) && MovedUpTo(list, contents, moved, i, 0)
      ensures |l| == |newList| && Filed(l, names, m) && MovedUpTo(list, contents, m, i + 1, 0)
    {
      l, m := newList, moved;
      var j := 0;
      while j < |list[i]|
        invariant 0 <= j <= |list[i]| && |l| == |newList|
        invariant Filed(l, names, m) && MovedUpTo(list, contents, m, i, j)
      {
        var x := list[i][j];
        MoveNext(list, names, contents, m, i, j);
        var n := names[x];
        var b := Bucket(n, |l|);
        AddFiled(l, names, m, n, [x] + l[b], x);
        assert names[x := n] == names;
        l, m := l[b := [x] + l[b]], m[n := x];
        j := j + 1;
      }
      MoveNextChain(list, names, contents, m, i);
    }
  }
}
