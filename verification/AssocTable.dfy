/** A hash table that doubles while it is in use: the buckets of the old table are moved to the
    new one, one at a time, between lookups, inserts and deletes. */
module AssocTable {
  import opened Common
  import opened Entries

  /** `former` is in use while `expanding`; its buckets below `next` have been moved. */
  datatype Table = Table(primary: seq<Chain>, former: seq<Chain>, expanding: bool, next: nat, items: int)

  // ----- chains

  ghost predicate HasKey(l: Chain, k: Key) {
    exists x :: x in l && x.key == k
  }

  ghost predicate Unique(l: Chain) {
    l != [] ==> !HasKey(l[1..], l[0].key) && Unique(l[1..])
  }

  lemma {:induction false} ChainGetIs(l: Chain, k: Key, v: Val)
    requires Unique(l)
    ensures ChainGet(l, k) == Some(v) <==> Entry(k, v) in l
    ensures ChainGet(l, k).None? <==> !HasKey(l, k)
  {
    if l != [] {
      ChainGetIs(l[1..], k, v);
      if l[0].key == k { assert l[0] in l; }
      if HasKey(l[1..], k) { var x :| x in l[1..] && x.key == k; assert x in l; }
      if HasKey(l, k) && l[0].key != k { var x :| x in l && x.key == k; assert x in l[1..]; }
    }
  }

  lemma {:induction false} ChainRemoveIs(l: Chain, k: Key)
    requires Unique(l)
    ensures Unique(ChainRemove(l, k)) && forall x :: x in ChainRemove(l, k) <==> x in l && x.key != k
  {
    if l != [] {
      ChainRemoveIs(l[1..], k);
      if l[0].key == k {
        assert forall x :: x in l[1..] && x.key == k ==> HasKey(l[1..], k);
      } else {
        var r := ChainRemove(l[1..], k);
        assert ([l[0]] + r)[1..] == r;
        assert forall x :: x in r ==> x in l[1..];
        assert !HasKey(r, l[0].key);
      }
    }
  }

  // ----- which bucket

  function Mod(x: nat, n: nat): (b: nat)
    requires n > 0
    ensures b < n
  {
    x % n
  }

  /** The chain a key belongs to: in the old table while its bucket there has not been moved. */
  predicate InOld(t: Table, h: Hash, k: Key) {
    t.expanding && |t.former| > 0 && Mod(h(k), |t.former|) >= t.next
  }

  function ChainOf(t: Table, h: Hash, k: Key): Chain
    requires |t.primary| > 0
  {
    if InOld(t, h, k) then t.former[Mod(h(k), |t.former|)] else t.primary[Mod(h(k), |t.primary|)]
  }

  function SetChain(t: Table, h: Hash, k: Key, l: Chain): Table
    requires |t.primary| > 0
  {
    if InOld(t, h, k) then t.(former := t.former[Mod(h(k), |t.former|) := l])
    else t.(primary := t.primary[Mod(h(k), |t.primary|) := l])
  }

  function Find(t: Table, h: Hash, k: Key): Option<Val>
    requires |t.primary| > 0
  {
    ChainGet(ChainOf(t, h, k), k)
  }

  function Insert(t: Table, h: Hash, k: Key, v: Val): Table
    requires |t.primary| > 0
  {
    SetChain(t, h, k, [Entry(k, v)] + ChainOf(t, h, k)).(items := t.items + 1)
  }

  function Delete(t: Table, h: Hash, k: Key): Table
    requires |t.primary| > 0
  {
    SetChain(t, h, k, ChainRemove(ChainOf(t, h, k), k)).(items := t.items - 1)
  }

  /** assoc_expand: an empty table of twice the size becomes the primary one. */
  function Expand(t: Table): Table {
    t.(former := t.primary, primary := seq(2 * |t.primary|, _ => []), expanding := true, next := 0)
  }

  function Push(primary: seq<Chain>, h: Hash, x: Entry): (r: seq<Chain>)
    requires |primary| > 0
    ensures |r| == |primary|
  {
    primary[Mod(h(x.key), |primary|) := [x] + primary[Mod(h(x.key), |primary|)]]
  }

  function MoveAll(primary: seq<Chain>, h: Hash, l: Chain): (r: seq<Chain>)
    requires |primary| > 0
    ensures |r| == |primary|
    decreases |l|
  {
    if l == [] then primary else MoveAll(Push(primary, h, l[0]), h, l[1..])
  }

  /** One round of the maintenance loop: the next bucket is moved. */
  function Migrate(t: Table, h: Hash): Table
    requires |t.primary| > 0 && t.next < |t.former|
  {
    t.(primary := MoveAll(t.primary, h, t.former[t.next]), former := t.former[t.next := []],
       next := t.next + 1, expanding := t.next + 1 < |t.former|)
  }

  // ----- what a table stands for

  /** Every item of bucket b belongs there. */
  ghost predicate BucketOk(t: Table, h: Hash, c: map<Key, Val>, b: nat)
    requires b < |t.primary|
  {
    && Unique(t.primary[b])
    && forall x :: x in t.primary[b] ==>
         x.key in c && c[x.key] == x.val && Mod(h(x.key), |t.primary|) == b && !InOld(t, h, x.key)
  }

  ghost predicate OldOk(t: Table, h: Hash, c: map<Key, Val>, b: nat)
    requires b < |t.former|
  {
    && Unique(t.former[b]) && (b < t.next ==> t.former[b] == [])
    && forall x :: x in t.former[b] ==> x.key in c && c[x.key] == x.val && Mod(h(x.key), |t.former|) == b
  }

  ghost predicate KeyOk(t: Table, h: Hash, c: map<Key, Val>, k: Key)
    requires |t.primary| > 0 && k in c
  {
    Entry(k, c[k]) in ChainOf(t, h, k)
  }

  /** The table stands for the map c. */
  ghost predicate Models(t: Table, h: Hash, c: map<Key, Val>) {
    && |t.primary| > 0 && t.items == |c|
    && (t.expanding ==> |t.primary| == 2 * |t.former| && t.next < |t.former|)
    && (forall b: nat :: b < |t.primary| ==> BucketOk(t, h, c, b))
    && (t.expanding ==> forall b: nat :: b < |t.former| ==> OldOk(t, h, c, b))
    && (forall k :: k in c ==> KeyOk(t, h, c, k))
  }

  lemma ChainUnique(t: Table, h: Hash, c: map<Key, Val>, k: Key)
    requires Models(t, h, c)
    ensures Unique(ChainOf(t, h, k)) && (HasKey(ChainOf(t, h, k), k) <==> k in c)
    ensures forall x :: x in ChainOf(t, h, k) ==> x.key in c && c[x.key] == x.val
  {
    if InOld(t, h, k) { assert OldOk(t, h, c, Mod(h(k), |t.former|)); } else { assert BucketOk(t, h, c, Mod(h(k), |t.primary|)); }
    if k in c { assert KeyOk(t, h, c, k); }
  }

  /** Lookup gives exactly the live item. */
  lemma FindRefines(t: Table, h: Hash, c: map<Key, Val>, k: Key)
    requires Models(t, h, c)
    ensures Find(t, h, k) == if k in c then Some(c[k]) else None
  {
    ChainUnique(t, h, c, k);
    ChainGetIs(ChainOf(t, h, k), k, if k in c then c[k] else "");
    if k in c { assert KeyOk(t, h, c, k); }
  }

  // ----- insert and delete

  /** The two keys hang on the same chain. */
  ghost predicate Same(t: Table, h: Hash, j: Key, k: Key)
    requires |t.primary| > 0
  {
    && InOld(t, h, j) == InOld(t, h, k)
    && if InOld(t, h, k) then Mod(h(j), |t.former|) == Mod(h(k), |t.former|) else Mod(h(j), |t.primary|) == Mod(h(k), |t.primary|)
  }

  /** Only the chain of k changes, to l, and what it holds. */
  ghost predicate ChainFits(t: Table, h: Hash, c: map<Key, Val>, c': map<Key, Val>, k: Key, l: Chain)
    requires |t.primary| > 0
  {
    && Unique(l)
    && (forall x :: x in l ==> x.key in c' && c'[x.key] == x.val && Same(t, h, x.key, k))
    && (forall j :: j in c' && Same(t, h, j, k) ==> Entry(j, c'[j]) in l)
    && (forall j :: !Same(t, h, j, k) ==> (j in c <==> j in c') && (j in c ==> c[j] == c'[j]))
  }

  lemma ChainMembers(t: Table, h: Hash, c: map<Key, Val>, k: Key, x: Entry)
    requires Models(t, h, c) && x in ChainOf(t, h, k)
    ensures Same(t, h, x.key, k)
  {
    if InOld(t, h, k) { assert OldOk(t, h, c, Mod(h(k), |t.former|)); } else { assert BucketOk(t, h, c, Mod(h(k), |t.primary|)); }
  }

  lemma SetPrimary(t: Table, h: Hash, c: map<Key, Val>, c': map<Key, Val>, k: Key, l: Chain, b: nat)
    requires Models(t, h, c) && ChainFits(t, h, c, c', k, l) && b < |t.primary|
    ensures BucketOk(SetChain(t, h, k, l), h, c', b)
  {
    var u := SetChain(t, h, k, l);
    assert BucketOk(t, h, c, b);
    forall x | x in u.primary[b]
      ensures x.key in c' && c'[x.key] == x.val && Mod(h(x.key), |u.primary|) == b && !InOld(u, h, x.key)
    {
      if InOld(t, h, k) || b != Mod(h(k), |t.primary|) { assert !Same(t, h, x.key, k); }
    }
  }

  lemma SetFormer(t: Table, h: Hash, c: map<Key, Val>, c': map<Key, Val>, k: Key, l: Chain, b: nat)
    requires Models(t, h, c) && ChainFits(t, h, c, c', k, l) && t.expanding && b < |t.former|
    ensures OldOk(SetChain(t, h, k, l), h, c', b)
  {
    var u := SetChain(t, h, k, l);
    assert OldOk(t, h, c, b);
    forall x | x in u.former[b] ensures x.key in c' && c'[x.key] == x.val && Mod(h(x.key), |u.former|) == b {
      if !InOld(t, h, k) || b != Mod(h(k), |t.former|) { assert !Same(t, h, x.key, k); }
    }
  }

  lemma SetChainModels(t: Table, h: Hash, c: map<Key, Val>, c': map<Key, Val>, k: Key, l: Chain)
    requires Models(t, h, c) && ChainFits(t, h, c, c', k, l)
    ensures Models(SetChain(t, h, k, l).(items := |c'|), h, c')
  {
    var u := SetChain(t, h, k, l).(items := |c'|);
    forall b: nat | b < |u.primary| ensures BucketOk(u, h, c', b) { SetPrimary(t, h, c, c', k, l, b); }
    if t.expanding {
      forall b: nat | b < |u.former| ensures OldOk(u, h, c', b) { SetFormer(t, h, c, c', k, l, b); }
    }
    forall j | j in c' ensures KeyOk(u, h, c', j) {
      if !Same(t, h, j, k) { assert KeyOk(t, h, c, j); }
    }
  }

  lemma InsertRefines(t: Table, h: Hash, c: map<Key, Val>, k: Key, v: Val)
    requires Models(t, h, c) && k !in c
    ensures Models(Insert(t, h, k, v), h, c[k := v])
  {
    var l, c' := [Entry(k, v)] + ChainOf(t, h, k), c[k := v];
    ChainUnique(t, h, c, k);
    assert l[1..] == ChainOf(t, h, k);
    forall x | x in l ensures x.key in c' && c'[x.key] == x.val && Same(t, h, x.key, k) {
      if x != l[0] {
        assert x in ChainOf(t, h, k);
        ChainMembers(t, h, c, k, x);
      }
    }
    forall j | j in c' && Same(t, h, j, k) ensures Entry(j, c'[j]) in l {
      if j != k { assert KeyOk(t, h, c, j); } else { assert l[0] == Entry(j, c'[j]); }
    }
    forall j | !Same(t, h, j, k) ensures (j in c <==> j in c') && (j in c ==> c[j] == c'[j]) { assert j != k; }
    SetChainModels(t, h, c, c', k, l);
  }

  lemma DeleteRefines(t: Table, h: Hash, c: map<Key, Val>, k: Key)
    requires Models(t, h, c) && k in c
    ensures Models(Delete(t, h, k), h, Minus(c, k))
  {
    DeleteFits(t, h, c, k);
    SetChainModels(t, h, c, Minus(c, k), k, ChainRemove(ChainOf(t, h, k), k));
  }

  lemma DeleteFits(t: Table, h: Hash, c: map<Key, Val>, k: Key)
    requires Models(t, h, c) && k in c
    ensures ChainFits(t, h, c, Minus(c, k), k, ChainRemove(ChainOf(t, h, k), k))
  {
    var c' := Minus(c, k);
    assert forall j :: j in c' <==> j in c && j != k;
    assert forall j :: j in c' ==> c'[j] == c[j];
    RemovedFits(t, h, c, c', k);
  }

  lemma RemovedFits(t: Table, h: Hash, c: map<Key, Val>, c': map<Key, Val>, k: Key)
    requires Models(t, h, c) && k in c
    requires forall j :: j in c' <==> j in c && j != k
    requires forall j :: j in c' ==> c'[j] == c[j]
    ensures ChainFits(t, h, c, c', k, ChainRemove(ChainOf(t, h, k), k))
  {
    var l := ChainRemove(ChainOf(t, h, k), k);
    ChainUnique(t, h, c, k);
    ChainRemoveIs(ChainOf(t, h, k), k);
    forall x | x in l ensures x.key in c' && c'[x.key] == x.val && Same(t, h, x.key, k) {
      assert x.key != k;
      ChainMembers(t, h, c, k, x);
    }
    forall j | j in c' && Same(t, h, j, k) ensures Entry(j, c'[j]) in l { assert KeyOk(t, h, c, j); }
    forall j | !Same(t, h, j, k) ensures (j in c <==> j in c') && (j in c ==> c[j] == c'[j]) { assert j != k; }
  }

  // ----- expanding

  lemma ExpandRefines(t: Table, h: Hash, c: map<Key, Val>)
    requires Models(t, h, c) && !t.expanding
    ensures Models(Expand(t), h, c)
  {
    var u := Expand(t);
    forall b: nat | b < |u.former| ensures OldOk(u, h, c, b) { assert BucketOk(t, h, c, b); }
    forall k | k in c ensures KeyOk(u, h, c, k) { assert KeyOk(t, h, c, k); }
  }

  lemma {:induction false} MoveAllIs(primary: seq<Chain>, h: Hash, l: Chain, b: nat, x: Entry)
    requires b < |primary|
    ensures x in MoveAll(primary, h, l)[b] <==> x in primary[b] || (x in l && Mod(h(x.key), |primary|) == b)
    decreases |l|
  {
    if l != [] { MoveAllIs(Push(primary, h, l[0]), h, l[1..], b, x); }
  }

  ghost predicate NoCommon(a: Chain, l: Chain) {
    forall x :: x in l ==> !HasKey(a, x.key)
  }

  lemma {:induction false} MoveAllUnique(primary: seq<Chain>, h: Hash, l: Chain, b: nat)
    requires b < |primary| && Unique(primary[b]) && Unique(l) && NoCommon(primary[b], l)
    ensures Unique(MoveAll(primary, h, l)[b])
    decreases |l|
  {
    if l != [] {
      var p, a := Push(primary, h, l[0]), primary[b];
      assert l[0] in l && !HasKey(a, l[0].key);
      if Mod(h(l[0].key), |primary|) == b { assert p[b] == [l[0]] + a && p[b][1..] == a; }
      forall x | x in l[1..] ensures !HasKey(p[b], x.key) {
        assert x in l && !HasKey(a, x.key);
        assert HasKey(l[1..], x.key);
      }
      MoveAllUnique(p, h, l[1..], b);
    }
  }

  lemma {:induction false} MoveAllElsewhere(primary: seq<Chain>, h: Hash, l: Chain, b: nat)
    requires b < |primary| && forall x :: x in l ==> Mod(h(x.key), |primary|) != b
    ensures MoveAll(primary, h, l)[b] == primary[b]
    decreases |l|
  {
    if l != [] {
      assert l[0] in l;
      MoveAllElsewhere(Push(primary, h, l[0]), h, l[1..], b);
    }
  }

  lemma Quotient(x: nat, n: nat, q: nat, r: nat)
    requires n > 0 && x == q * n + r && r < n
    ensures x % n == r
  {
    var d := x / n - q;
    assert x == x / n * n + x % n;
    assert (x / n - q) * n == r - x % n;
    if d >= 1 { Scale(1, d, n); }
    if d <= -1 { Scale(d, -1, n); }
  }

  lemma Scale(a: int, b: int, n: nat)
    requires a <= b
    ensures a * n <= b * n
  {
  }

  lemma Doubled(q: nat, n: nat)
    ensures q * (2 * n) == 2 * q * n && (2 * q + 1) * n == 2 * q * n + n
  {
  }

  lemma HalfQuotient(x: nat, n: nat, q: nat, r: nat)
    requires n > 0 && x == q * (2 * n) + r && r < 2 * n
    ensures x % n == if r < n then r else r - n
  {
    Doubled(q, n);
    if r < n { Quotient(x, n, 2 * q, r); } else { Quotient(x, n, 2 * q + 1, r - n); }
  }

  /** A key of old bucket b belongs in new bucket b or in b + n. */
  lemma HalfBucket(x: nat, n: nat)
    requires n > 0
    ensures Mod(x, 2 * n) == Mod(x, n) || Mod(x, 2 * n) == Mod(x, n) + n
  {
    HalfQuotient(x, n, x / (2 * n), x % (2 * n));
  }

  /** Moving bucket b touches only new buckets b and b + n. */
  lemma MigrateIsLocal(t: Table, h: Hash, c: map<Key, Val>, b: nat)
    requires Models(t, h, c) && t.expanding && b < |t.primary| && b != t.next && b != t.next + |t.former|
    ensures Migrate(t, h).primary[b] == t.primary[b]
  {
    assert OldOk(t, h, c, t.next);
    forall x | x in t.former[t.next] ensures Mod(h(x.key), |t.primary|) != b {
      HalfBucket(h(x.key), |t.former|);
    }
    MoveAllElsewhere(t.primary, h, t.former[t.next], b);
  }

  lemma MigratePrimary(t: Table, h: Hash, c: map<Key, Val>, b: nat)
    requires Models(t, h, c) && t.expanding && b < |t.primary|
    ensures BucketOk(Migrate(t, h), h, c, b)
  {
    var u, l := Migrate(t, h), t.former[t.next];
    assert BucketOk(t, h, c, b) && OldOk(t, h, c, t.next);
    forall x | x in l ensures !HasKey(t.primary[b], x.key) {
      assert InOld(t, h, x.key);
    }
    MoveAllUnique(t.primary, h, l, b);
    forall x | x in u.primary[b]
      ensures x.key in c && c[x.key] == x.val && Mod(h(x.key), |u.primary|) == b && !InOld(u, h, x.key)
    {
      MoveAllIs(t.primary, h, l, b, x);
    }
  }

  /** Moving a bucket loses nothing and finds everything again. */
  lemma MigrateRefines(t: Table, h: Hash, c: map<Key, Val>)
    requires Models(t, h, c) && t.expanding
    ensures Models(Migrate(t, h), h, c)
  {
    var u, l := Migrate(t, h), t.former[t.next];
    forall b: nat | b < |u.primary| ensures BucketOk(u, h, c, b) { MigratePrimary(t, h, c, b); }
    forall b: nat | b < |u.former| ensures OldOk(u, h, c, b) { assert OldOk(t, h, c, b); }
    forall k | k in c ensures KeyOk(u, h, c, k) {
      assert KeyOk(t, h, c, k);
      MoveAllIs(t.primary, h, l, Mod(h(k), |t.primary|), Entry(k, c[k]));
    }
  }

  // ----- runs

  datatype Op = InsertOp(key: Key, value: Val) | DeleteOp(key: Key) | ExpandOp | MigrateOp

  /** Keys are inserted once and deleted when there; a table is expanded once at a time. */
  ghost predicate Allowed(t: Table, c: map<Key, Val>, op: Op) {
    match op
    case InsertOp(k, _) => k !in c
    case DeleteOp(k) => k in c
    case ExpandOp => !t.expanding
    case MigrateOp => t.expanding
  }

  function Apply(t: Table, h: Hash, op: Op): Table
    requires |t.primary| > 0 && (op.MigrateOp? ==> t.next < |t.former|)
  {
    match op
    case InsertOp(k, v) => Insert(t, h, k, v)
    case DeleteOp(k) => Delete(t, h, k)
    case ExpandOp => Expand(t)
    case MigrateOp => Migrate(t, h)
  }

  function ApplyMap(c: map<Key, Val>, op: Op): map<Key, Val> {
    match op
    case InsertOp(k, v) => c[k := v]
    case DeleteOp(k) => Minus(c, k)
    case _ => c
  }

  lemma ApplyRefines(t: Table, h: Hash, c: map<Key, Val>, op: Op)
    requires Models(t, h, c) && Allowed(t, c, op)
    ensures Models(Apply(t, h, op), h, ApplyMap(c, op))
  {
    match op
    case InsertOp(k, v) => InsertRefines(t, h, c, k, v);
    case DeleteOp(k) => DeleteRefines(t, h, c, k);
    case ExpandOp => ExpandRefines(t, h, c);
    case MigrateOp => MigrateRefines(t, h, c);
  }

  ghost predicate Legal(t: Table, h: Hash, c: map<Key, Val>, ops: seq<Op>)
    requires Models(t, h, c)
    decreases |ops|
  {
    ops != [] ==>
      Allowed(t, c, ops[0]) && (ApplyRefines(t, h, c, ops[0]); Legal(Apply(t, h, ops[0]), h, ApplyMap(c, ops[0]), ops[1..]))
  }

  ghost function Run(t: Table, h: Hash, c: map<Key, Val>, ops: seq<Op>): (Table, map<Key, Val>)
    requires Models(t, h, c) && Legal(t, h, c, ops)
    decreases |ops|
  {
    if ops == [] then (t, c)
    else (ApplyRefines(t, h, c, ops[0]); Run(Apply(t, h, ops[0]), h, ApplyMap(c, ops[0]), ops[1..]))
  }

  /** After every run a lookup gives exactly the live item, and an item is in the old table
      exactly when its bucket there is still to be moved. */
  lemma {:induction false} RunRefinesMap(t: Table, h: Hash, c: map<Key, Val>, ops: seq<Op>, k: Key)
    requires Models(t, h, c) && Legal(t, h, c, ops)
    ensures var (u, d) := Run(t, h, c, ops);
            && Models(u, h, d) && Find(u, h, k) == (if k in d then Some(d[k]) else None)
            && (k in d ==> if InOld(u, h, k) then Entry(k, d[k]) in u.former[Mod(h(k), |u.former|)]
                           else Entry(k, d[k]) in u.primary[Mod(h(k), |u.primary|)])
    decreases |ops|
  {
    if ops == [] {
      FindRefines(t, h, c, k);
      if k in c { assert KeyOk(t, h, c, k); }
    } else {
      ApplyRefines(t, h, c, ops[0]);
      RunRefinesMap(Apply(t, h, ops[0]), h, ApplyMap(c, ops[0]), ops[1..], k);
    }
  }

  // ----- the table in memory

  lemma StepOver(l: Chain, k: Key, i: nat)
    requires i < |l| && l[i].key != k
    ensures ChainGet(l[i..], k) == ChainGet(l[i + 1..], k)
    ensures l[..i] + ChainRemove(l[i..], k) == l[..i + 1] + ChainRemove(l[i + 1..], k)
  {
    assert l[i..][0] == l[i] && l[i..][1..] == l[i + 1..];
  }

  class Assoc {
    const h: Hash
    var table: Table
    ghost var contents: map<Key, Val>

    ghost predicate Valid()
      reads this
    {
      Models(table, h, contents)
    }

    constructor (h: Hash, size: nat)
      requires size > 0
      ensures Valid() && this.h == h && contents == map[]
    {
      this.h := h;
      table := Table(seq(size, _ => []), [], false, 0, 0);
      contents := map[];
    }

    /** Where key k is in a chain, or the end of the chain. */
    static method Before(l: Chain, k: Key) returns (i: nat)
      ensures i <= |l|
      ensures ChainGet(l, k) == if i < |l| then Some(l[i].val) else None
      ensures ChainRemove(l, k) == if i < |l| then l[..i] + l[i + 1..] else l
    {
      i := 0;
      while i < |l| && l[i].key != k
        invariant i <= |l| && ChainGet(l, k) == ChainGet(l[i..], k) && ChainRemove(l, k) == l[..i] + ChainRemove(l[i..], k)
      {
        StepOver(l, k, i);
        i := i + 1;
      }
      if i < |l| { assert l[i..][1..] == l[i + 1..]; } else { assert l[..i] + [] == l; }
    }

    /** `wake` asks the maintenance thread for a larger table: there are more than one and a half
        times as many items as buckets, and no expansion is under way. */
    method AssocInsert(k: Key, v: Val) returns (wake: bool)
      requires Valid() && k !in contents
      modifies this
      ensures Valid() && table == Insert(old(table), h, k, v) && contents == old(contents)[k := v]
      ensures wake <==> !table.expanding && 2 * |contents| > 3 * |table.primary|
    {
      InsertRefines(table, h, contents, k, v);
      var oldBucket := if table.expanding then Mod(h(k), |table.former|) else 0;
      if table.expanding && oldBucket >= table.next {
        table := table.(former := table.former[oldBucket := [Entry(k, v)] + table.former[oldBucket]]);
      } else {
        var b := Mod(h(k), |table.primary|);
        table := table.(primary := table.primary[b := [Entry(k, v)] + table.primary[b]]);
      }
      table := table.(items := table.items + 1);
      contents := contents[k := v];
      wake := !table.expanding && table.items > |table.primary| * 3 / 2;
    }

    method AssocFind(k: Key) returns (r: Option<Val>)
      requires Valid()
      ensures r == if k in contents then Some(contents[k]) else None
    {
      FindRefines(table, h, contents, k);
      var l := ChainOf(table, h, k);
      var i := Before(l, k);
      r := if i < |l| then Some(l[i].val) else None;
    }

    /** The key has to be there. */
    method AssocDelete(k: Key)
      requires Valid() && k in contents
      modifies this
      ensures Valid() && contents == Minus(old(contents), k)
    {
      DeleteRefines(table, h, contents, k);
      FindRefines(table, h, contents, k);
      var l := ChainOf(table, h, k);
      var i := Before(l, k);
      table := SetChain(table, h, k, l[..i] + l[i + 1..]).(items := table.items - 1);
      contents := Minus(contents, k);
    }

    method AssocExpand()
      requires Valid() && !table.expanding
      modifies this`table
      ensures Valid() && table == Expand(old(table))
    {
      ExpandRefines(table, h, contents);
      table := table.(former := table.primary, primary := seq(2 * |table.primary|, _ => []), expanding := true, next := 0);
    }

    /** One round of the maintenance thread, under the global lock. */
    method MoveBucket()
      requires Valid() && table.expanding
      modifies this`table
      ensures Valid() && table == Migrate(old(table), h)
    {
      MigrateRefines(table, h, contents);
      MoveNext();
    }

    method MoveNext()
      requires |table.primary| > 0 && table.next < |table.former| && table.expanding
      modifies this`table
      ensures table == Migrate(old(table), h)
    {
      var p := MoveItems(table.primary, h, table.former[table.next]);
      table := table.(primary := p, former := table.former[table.next := []], next := table.next + 1);
      if table.next == |table.former| { table := table.(expanding := false); }
    }

    static method MoveItems(primary: seq<Chain>, h: Hash, l: Chain) returns (p: seq<Chain>)
      requires |primary| > 0
      ensures p == MoveAll(primary, h, l)
    {
      p := primary;
      var i := 0;
      while i < |l|
        invariant 0 <= i <= |l| && |p| == |primary| && MoveAll(p, h, l[i..]) == MoveAll(primary, h, l)
      {
        assert l[i..][0] == l[i] && l[i..][1..] == l[i + 1..];
        var b := Mod(h(l[i].key), |p|);
        p := p[b := [l[i]] + p[b]];
        i := i + 1;
      }
    }
  }
}
