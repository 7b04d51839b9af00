/** Sequences of numbered nodes without repetition. */
module Lists {
  type Id = nat

  ghost predicate NoDup(s: seq<Id>) {
    forall i, j :: 0 <= i < j < |s| ==> s[i] != s[j]
  }

  /** `s` without its i-th element. */
  function Drop(s: seq<Id>, i: nat): seq<Id>
    requires i < |s|
  {
    s[..i] + s[i + 1..]
  }

  /** `s` with x in place of its i-th element. */
  function Swap(s: seq<Id>, i: nat, x: Id): seq<Id>
    requires i < |s|
  {
    s[..i] + [x] + s[i + 1..]
  }

  /** `s` without its first `x`. */
  function Without(s: seq<Id>, x: Id): seq<Id> {
    if s == [] then [] else if s[0] == x then s[1..] else [s[0]] + Without(s[1..], x)
  }

  lemma PushOk(s: seq<Id>, x: Id)
    requires NoDup(s) && x !in s
    ensures NoDup([x] + s) && forall y :: y in [x] + s <==> y in s || y == x
  {
  }

  lemma SnocOk(s: seq<Id>, x: Id)
    requires NoDup(s) && x !in s
    ensures NoDup(s + [x]) && forall y :: y in s + [x] <==> y in s || y == x
  {
  }

  lemma DropOk(s: seq<Id>, k: nat)
    requires NoDup(s) && k < |s|
    ensures NoDup(Drop(s, k)) && forall y :: y in Drop(s, k) <==> y in s && y != s[k]
  {
    var r := Drop(s, k);
    assert forall i :: 0 <= i < |r| ==> r[i] == s[if i < k then i else i + 1];
    forall y | y in s && y != s[k] ensures y in r {
      var j :| 0 <= j < |s| && s[j] == y;
      assert r[if j < k then j else j - 1] == y;
    }
  }

  lemma SwapOk(s: seq<Id>, k: nat, x: Id)
    requires NoDup(s) && k < |s| && x !in s
    ensures NoDup(Swap(s, k, x)) && forall y :: y in Swap(s, k, x) <==> (y in s && y != s[k]) || y == x
  {
    var r := Swap(s, k, x);
    assert forall i :: 0 <= i < |r| ==> r[i] == if i == k then x else s[i];
    forall y | y in s && y != s[k] ensures y in r {
      var j :| 0 <= j < |s| && s[j] == y;
      assert r[j] == y;
    }
    assert r[k] == x;
  }

  lemma {:induction false} WithoutAt(s: seq<Id>, k: nat)
    requires NoDup(s) && k < |s|
    ensures Without(s, s[k]) == Drop(s, k)
  {
    if k > 0 {
      WithoutAt(s[1..], k - 1);
      assert s[..k] == [s[0]] + s[1..][..k - 1];
    }
  }

  lemma {:induction false} WithoutAbsent(s: seq<Id>, x: Id)
    requires x !in s
    ensures Without(s, x) == s
  {
    if s != [] { WithoutAbsent(s[1..], x); }
  }

  lemma {:induction false} WithoutOk(s: seq<Id>, x: Id)
    requires NoDup(s)
    ensures NoDup(Without(s, x)) && forall y :: y in Without(s, x) <==> y in s && y != x
  {
    if s == [] {
    } else if s[0] == x {
      assert s == [x] + s[1..];
    } else {
      WithoutOk(s[1..], x);
      PushOk(Without(s[1..], x), s[0]);
    }
  }
}
