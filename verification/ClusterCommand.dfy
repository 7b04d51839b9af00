/** Sending one command to a cluster: redirects are followed and backups tried until some node
    gives a final answer or there is nowhere left to go.  What the servers answer is arbitrary. */
module ClusterCommand {
  import opened Common

  type Id = string

  /** A failed exchange, a MOVED error with its target, or a reply that ends the command. */
  datatype Reply = Failed | Moved(target: Id) | Final(ok: bool)

  /** One attempt: where the command went and what came back. */
  datatype Send = Send(id: Id, reply: Reply)

  /** The cluster map: every node with its backups. */
  type Clusters = map<Id, seq<Id>>

  /** Attempt k is the first and goes to the slot's owner, or the one before it was redirected
      here, or the one before it failed, the command only reads, and this is the next of the
      backups of the node that failed first since the last redirect. */
  ghost predicate Explained(clusters: Clusters, owner: Id, write: bool, t: seq<Send>, k: nat)
    requires k < |t|
  {
    && t[k].id in clusters
    && if k == 0 then t[0].id == owner
       else
         match t[k - 1].reply
         case Moved(target) => t[k].id == target
         case Failed => !write && exists first :: NextBackup(clusters, t, first, k)
         case Final(_) => false
  }

  /** Since attempt `first` all failed, and attempt k goes to backup k - first - 1 of that node. */
  ghost predicate NextBackup(clusters: Clusters, t: seq<Send>, first: nat, k: nat)
    requires k < |t|
  {
    && first < k && (first == 0 || t[first - 1].reply.Moved?)
    && (forall i :: first <= i < k ==> t[i].reply.Failed?)
    && t[first].id in clusters && k - first - 1 < |clusters[t[first].id]|
    && t[k].id == clusters[t[first].id][k - first - 1]
  }

  ghost predicate TraceOk(clusters: Clusters, owner: Id, write: bool, t: seq<Send>) {
    && (forall k: nat :: k < |t| ==> Explained(clusters, owner, write, t, k))
    && (forall i, j :: 0 <= i < j < |t| - 1 && t[i].reply.Moved? && t[j].reply.Moved? ==> t[i].reply != t[j].reply)
  }

  /** Attempt k goes to the owner of the slot or to where a node redirected it. */
  ghost predicate Straight(owner: Id, t: seq<Send>, k: nat)
    requires k < |t|
  {
    if k == 0 then t[k].id == owner else t[k - 1].reply == Moved(t[k].id)
  }

  lemma WritesAvoidBackups(clusters: Clusters, owner: Id, t: seq<Send>)
    requires TraceOk(clusters, owner, true, t)
    ensures forall k: nat :: k < |t| ==> Straight(owner, t, k)
  {
    forall k: nat | k < |t| ensures Straight(owner, t, k) { assert Explained(clusters, owner, true, t, k); }
  }

  /** The next attempt, at `id`, is explained: it is the first, it follows a redirect, or it is
      backup `bak` of the node that failed at attempt `first`. */
  ghost predicate Due(clusters: Clusters, owner: Id, write: bool, t: seq<Send>, id: Id, baks: seq<Id>, bak: nat, first: nat) {
    if baks == [] then
      if t == [] then id == owner else t[|t| - 1].reply == Moved(id)
    else
      && !write && first < |t| && (first == 0 || t[first - 1].reply.Moved?)
      && (forall i :: first <= i < |t| ==> t[i].reply.Failed?)
      && t[first].id in clusters && baks == clusters[t[first].id]
      && bak == |t| - first - 1 && bak < |baks| && id == baks[bak]
  }

  lemma StillExplained(clusters: Clusters, owner: Id, write: bool, t: seq<Send>, x: Send, k: nat)
    requires k < |t| && Explained(clusters, owner, write, t, k)
    ensures Explained(clusters, owner, write, t + [x], k)
  {
    if k > 0 && t[k - 1].reply.Failed? {
      var f :| NextBackup(clusters, t, f, k);
      assert NextBackup(clusters, t + [x], f, k);
    }
  }

  lemma DueExplains(clusters: Clusters, owner: Id, write: bool, t: seq<Send>, id: Id, baks: seq<Id>, bak: nat, first: nat, r: Reply)
    requires Due(clusters, owner, write, t, id, baks, bak, first) && id in clusters
    ensures Explained(clusters, owner, write, t + [Send(id, r)], |t|)
  {
    if baks != [] { assert NextBackup(clusters, t + [Send(id, r)], first, |t|); }
  }

  ghost predicate EachExplained(clusters: Clusters, owner: Id, write: bool, t: seq<Send>) {
    forall k: nat :: k < |t| ==> Explained(clusters, owner, write, t, k)
  }

  ghost predicate Distinct(t: seq<Send>) {
    forall i, j :: 0 <= i < j < |t| && t[i].reply.Moved? && t[j].reply.Moved? ==> t[i].reply != t[j].reply
  }

  ghost predicate MovedTo(t: seq<Send>, x: Id) {
    exists i :: 0 <= i < |t| && t[i].reply == Moved(x)
  }

  ghost predicate Known(t: seq<Send>, redirects: seq<Id>) {
    forall x :: MovedTo(t, x) <==> x in redirects
  }

  /** There is a next attempt to make: a final answer is not in yet, and it would be explained
      and not a second redirect to the same node. */
  ghost predicate Open(clusters: Clusters, owner: Id, write: bool, t: seq<Send>, id: Id) {
    && Explained(clusters, owner, write, t + [Send(id, Failed)], |t|)
    && (t != [] && t[|t| - 1].reply.Moved? ==> !MovedTo(t[..|t| - 1], id))
  }

  /** The series of backups that attempt k belongs to starts at one place only. */
  lemma OneSeries(clusters: Clusters, t: seq<Send>, first: nat, k: nat)
    requires k < |t| && first < k && (first == 0 || t[first - 1].reply.Moved?)
    requires forall i :: first <= i < k ==> t[i].reply.Failed?
    ensures (exists f: nat :: NextBackup(clusters, t, f, k)) <==> NextBackup(clusters, t, first, k)
  {
    forall f: nat | NextBackup(clusters, t, f, k) ensures f == first {
    }
  }

  /** Where the loop stops without an answer, no way on is open. */
  lemma NoNode(clusters: Clusters, owner: Id, write: bool, s: Loop, first: nat, id: Id)
    requires LoopOk(clusters, owner, write, s, first) && s.id !in clusters
    ensures !Open(clusters, owner, write, s.t, id)
  {
    if s.baks != [] { OneSeries(clusters, s.t + [Send(id, Failed)], first, |s.t|); }
  }

  lemma NoBackup(clusters: Clusters, owner: Id, s: Loop, first: nat, id: Id)
    requires LoopOk(clusters, owner, false, s, first) && s.id in clusters
    requires if s.baks == [] then clusters[s.id] == [] else s.bak + 1 == |s.baks|
    ensures !Open(clusters, owner, false, s.t + [Send(s.id, Failed)], id)
  {
    var t := s.t + [Send(s.id, Failed)];
    OneSeries(clusters, t + [Send(id, Failed)], if s.baks == [] then |s.t| else first, |t|);
  }

  lemma KnownMore(t: seq<Send>, redirects: seq<Id>, x: Send)
    requires Known(t, redirects)
    ensures Known(t + [x], if x.reply.Moved? then redirects + [x.reply.target] else redirects)
  {
    var r := if x.reply.Moved? then redirects + [x.reply.target] else redirects;
    forall y ensures MovedTo(t + [x], y) <==> y in r {
      assert MovedTo(t, y) <==> y in redirects;
      assert (t + [x])[|t|] == x;
      if MovedTo(t, y) {
        var i :| 0 <= i < |t| && t[i].reply == Moved(y);
        assert (t + [x])[i].reply == Moved(y);
      }
    }
  }

  lemma DistinctMore(t: seq<Send>, redirects: seq<Id>, id: Id, target: Id)
    requires Known(t, redirects) && Distinct(t) && target !in redirects
    ensures Distinct(t + [Send(id, Moved(target))])
  {
    assert !MovedTo(t, target);
  }

  lemma NoRepeat(clusters: Clusters, owner: Id, write: bool, s: Loop, first: nat, target: Id, id: Id)
    requires LoopOk(clusters, owner, write, s, first) && target in s.redirects
    ensures !Open(clusters, owner, write, s.t + [Send(s.id, Moved(target))], id)
  {
    var t := s.t + [Send(s.id, Moved(target))];
    assert t[..|t| - 1] == s.t && MovedTo(s.t, target);
  }

  lemma Extend(clusters: Clusters, owner: Id, write: bool, t: seq<Send>, id: Id, baks: seq<Id>, bak: nat, first: nat, r: Reply)
    requires EachExplained(clusters, owner, write, t) && id in clusters
    requires Due(clusters, owner, write, t, id, baks, bak, first)
    ensures EachExplained(clusters, owner, write, t + [Send(id, r)])
  {
    var x := Send(id, r);
    var t' := t + [x];
    forall k: nat | k < |t'| ensures Explained(clusters, owner, write, t', k) {
      if k < |t| {
        StillExplained(clusters, owner, write, t, x, k);
      } else {
        DueExplains(clusters, owner, write, t, id, baks, bak, first, r);
      }
    }
  }

  /** What is left of the current series of attempts. */
  function Series(clusters: Clusters, id: Id, baks: seq<Id>, bak: nat): int {
    if id !in clusters then 0 else if baks == [] then |clusters[id]| + 1 else |baks| - bak
  }

  /** The state at the head of the loop. */
  datatype Loop = Loop(t: seq<Send>, id: Id, redirects: seq<Id>, baks: seq<Id>, bak: nat)

  ghost predicate LoopOk(clusters: Clusters, owner: Id, write: bool, s: Loop, first: nat) {
    && EachExplained(clusters, owner, write, s.t) && Distinct(s.t) && Known(s.t, s.redirects)
    && Due(clusters, owner, write, s.t, s.id, s.baks, s.bak, first)
  }

  ghost function Left(clusters: Clusters, redirects: seq<Id>): set<Id> {
    clusters.Keys - (set x | x in redirects)
  }

  lemma LeftSmaller(clusters: Clusters, redirects: seq<Id>, target: Id)
    requires target !in redirects
    ensures |Left(clusters, redirects)| == |Left(clusters, redirects + [target])| + if target in clusters then 1 else 0
  {
    var a, b := Left(clusters, redirects), Left(clusters, redirects + [target]);
    if target in clusters {
      assert b == a - {target};
    } else {
      assert b == a;
    }
  }

  lemma SeriesLeft(clusters: Clusters, owner: Id, write: bool, s: Loop, first: nat)
    requires LoopOk(clusters, owner, write, s, first) && s.id in clusters
    ensures Series(clusters, s.id, s.baks, s.bak) >= 1
  {
  }

  /** A redirect starts a new series at a node not redirected to before. */
  lemma AfterRedirect(clusters: Clusters, owner: Id, write: bool, s: Loop, first: nat, target: Id)
    requires LoopOk(clusters, owner, write, s, first) && s.id in clusters && target !in s.redirects
    ensures Series(clusters, target, [], s.bak) < Series(clusters, s.id, s.baks, s.bak) || target in clusters
    ensures LoopOk(clusters, owner, write,
                   Loop(s.t + [Send(s.id, Moved(target))], target, s.redirects + [target], [], s.bak), first)
  {
    Extend(clusters, owner, write, s.t, s.id, s.baks, s.bak, first, Moved(target));
    KnownMore(s.t, s.redirects, Send(s.id, Moved(target)));
    DistinctMore(s.t, s.redirects, s.id, target);
    LeftSmaller(clusters, s.redirects, target);
    SeriesLeft(clusters, owner, write, s, first);
  }

  /** After a failure the next backup of the node that failed first is due. */
  lemma AfterFailure(clusters: Clusters, owner: Id, s: Loop, first: nat, baks: seq<Id>, bak: nat, first': nat)
    requires LoopOk(clusters, owner, false, s, first) && s.id in clusters && bak < |baks|
    requires if s.baks == [] then baks == clusters[s.id] && bak == 0 && first' == |s.t|
             else baks == s.baks && bak == s.bak + 1 && first' == first
    ensures LoopOk(clusters, owner, false, Loop(s.t + [Send(s.id, Failed)], baks[bak], s.redirects, baks, bak), first')
    ensures Series(clusters, baks[bak], baks, bak) < Series(clusters, s.id, s.baks, s.bak)
  {
    Extend(clusters, owner, false, s.t, s.id, s.baks, s.bak, first, Failed);
    KnownMore(s.t, s.redirects, Send(s.id, Failed));
  }

  ghost predicate Answered(t: seq<Send>, reply: (nat, Id) -> Reply) {
    forall k: nat :: k < |t| ==> t[k].reply == reply(k, t[k].id)
  }

  lemma AnsweredMore(t: seq<Send>, reply: (nat, Id) -> Reply, id: Id)
    requires Answered(t, reply)
    ensures Answered(t + [Send(id, reply(|t|, id))], reply)
  {
  }

  /** Stopping here, with or without one more attempt, leaves a sound trace. */
  lemma Stopping(clusters: Clusters, owner: Id, write: bool, s: Loop, first: nat, r: Reply)
    requires LoopOk(clusters, owner, write, s, first)
    ensures TraceOk(clusters, owner, write, s.t)
    ensures s.id in clusters ==> TraceOk(clusters, owner, write, s.t + [Send(s.id, r)])
  {
    if s.id in clusters {
      Extend(clusters, owner, write, s.t, s.id, s.baks, s.bak, first, r);
    }
  }

  ghost predicate Succeeded(t: seq<Send>) {
    t != [] && t[|t| - 1].reply == Final(true)
  }

  /** The loop of doRedisCommandCluster. */
  method Attempts(clusters: Clusters, owner: Id, write: bool, reply: (nat, Id) -> Reply)
    returns (ok: bool, t: seq<Send>)
    ensures TraceOk(clusters, owner, write, t)
    ensures Answered(t, reply) && (ok <==> Succeeded(t))
    ensures !ok && !(t != [] && t[|t| - 1].reply.Final?) ==>
              forall id :: !Open(clusters, owner, write, t, id)
  {
    ok, t := false, [];
    var id: Id, redirects: seq<Id>, baks: seq<Id>, bak := owner, [], [], 0;
    ghost var first: nat := 0;
    while true
      invariant !ok && !Succeeded(t) && Answered(t, reply)
      invariant LoopOk(clusters, owner, write, Loop(t, id, redirects, baks, bak), first)
      decreases |Left(clusters, redirects)|, Series(clusters, id, baks, bak)
    {
      ghost var s := Loop(t, id, redirects, baks, bak);
      if id !in clusters {
        Stopping(clusters, owner, write, s, first, Failed);
        forall x ensures !Open(clusters, owner, write, t, x) { NoNode(clusters, owner, write, s, first, x); }
        return;
      }
      var r := reply(|t|, id);
      Stopping(clusters, owner, write, s, first, r);
      AnsweredMore(t, reply, id);
      t := t + [Send(id, r)];
      if r.Final? {
        ok := r.ok;
        return;
      } else if r.Moved? {
        if r.target in redirects {
          forall x ensures !Open(clusters, owner, write, t, x) { NoRepeat(clusters, owner, write, s, first, r.target, x); }
          return;
        }
        AfterRedirect(clusters, owner, write, s, first, r.target);
        LeftSmaller(clusters, redirects, r.target);
        redirects, id, baks := redirects + [r.target], r.target, [];
      } else {
        if write { return; }
        ghost var first' := if baks == [] then |s.t| else first;
        if baks != [] {
          bak := bak + 1;
        } else {
          baks, bak := clusters[id], 0;
        }
        if bak >= |baks| {
          forall x ensures !Open(clusters, owner, write, t, x) { NoBackup(clusters, owner, s, first, x); }
          return;
        }
        AfterFailure(clusters, owner, s, first, baks, bak, first');
        id, first := baks[bak], first';
      }
    }
  }

  /** doRedisCommandCluster, with the n-th attempt, at node id, answered by reply(n, id).  Some
      node was not redirected to before, or a backup less is left, at every turn. */
  method DoCommand(clusters: Clusters, owner: Option<Id>, write: bool, reply: (nat, Id) -> Reply)
    returns (ok: bool, t: seq<Send>)
    ensures owner.None? ==> !ok && t == []
    ensures owner.Some? ==> TraceOk(clusters, owner.value, write, t)
    ensures owner.Some? && write ==> forall k: nat :: k < |t| ==> Straight(owner.value, t, k)
    ensures Answered(t, reply) && (ok <==> Succeeded(t))
    ensures owner.Some? && !ok && !(t != [] && t[|t| - 1].reply.Final?) ==>
              forall id :: !Open(clusters, owner.value, write, t, id)
  {
    ok, t := false, [];
    if owner.None? { return; }
    ok, t := Attempts(clusters, owner.value, write, reply);
    if write { WritesAvoidBackups(clusters, owner.value, t); }
  }
}
