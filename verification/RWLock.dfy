/** The writer-preferring read/write lock as a step system.  Any number of threads run
    acquireRead, acquireWrite and release; a step is one statement between two points where
    another thread can run, the mutex and the two condition variables are explicit, a signal
    wakes at least one sleeper, and sleepers may wake up spuriously. */
module RWLock {

  type Tid = nat

  datatype Owner = Free | By(tid: Tid)

  /** Where a thread is.  R.. is inside acquireRead, W.. inside acquireWrite, Rel.. inside
      release; `w` remembers what kind of hold is being released, which the code does not know. */
  datatype Pc =
    | Idle
    | RLock | RTest | RWait | RSleep | RWoken | RDecr | RTake | RUnlock | Reading
    | WLock | WTest | WWait | WSleep | WWoken | WDecr | WTake | WUnlock | Writing
    | RelLock(w: bool) | RelCount(w: bool) | RelSignal | RelUnlock
    | Stuck     // returned from release through the early return, mutex still locked

  /** The fields of the lock. */
  datatype Shared = Shared(mutex: Owner, refCount: int, waitingWriters: int, waitingReads: int)

  datatype State = State(sh: Shared, pc: map<Tid, Pc>)

  // ----- steps

  /** What one statement of thread `t` does to the lock's fields and where it leads; the mutex is
      taken for granted where the statement locks it. */
  function NextLocal(l: Shared, p: Pc, t: Tid): (Shared, Pc) {
    match p
    case RLock => (l.(mutex := By(t)), RTest)
    case RTest =>
      if l.refCount < 0 || l.waitingWriters > 0 then (l.(waitingReads := l.waitingReads + 1), RWait) else (l, RTake)
    case RWait => (l.(mutex := Free), RSleep)
    case RSleep => (l, RWoken)
    case RWoken => (l.(mutex := By(t)), RDecr)
    case RDecr => (l.(waitingReads := l.waitingReads - 1), RTest)
    case RTake => (l.(refCount := l.refCount + 1), RUnlock)
    case RUnlock => (l.(mutex := Free), Reading)
    case Reading => (l, RelLock(false))

    case WLock => (l.(mutex := By(t)), WTest)
    case WTest => if l.refCount != 0 then (l.(waitingWriters := l.waitingWriters + 1), WWait) else (l, WTake)
    case WWait => (l.(mutex := Free), WSleep)
    case WSleep => (l, WWoken)
    case WWoken => (l.(mutex := By(t)), WDecr)
    case WDecr => (l.(waitingWriters := l.waitingWriters - 1), WTest)
    case WTake => (l.(refCount := -1), WUnlock)
    case WUnlock => (l.(mutex := Free), Writing)
    case Writing => (l, RelLock(true))

    case RelLock(w) => (l.(mutex := By(t)), RelCount(w))
    case RelCount(_) =>
      if l.refCount > 0 then (l.(refCount := l.refCount - 1), RelSignal)
      else if l.refCount == -1 then (l.(refCount := 0), RelSignal)
      else (l, Stuck)
    case RelUnlock => (l.(mutex := Free), Idle)
    case Idle | RelSignal | Stuck => (l, p)
  }

  predicate Locks(p: Pc) {
    p.RLock? || p.RWoken? || p.WLock? || p.WWoken? || p.RelLock?
  }

  /** One statement of thread `t`, other than the signalling in release: the lock's fields go
      from `l` to `l'` and the thread from `p` to `p'`. */
  predicate LocalStep(l: Shared, p: Pc, l': Shared, p': Pc, t: Tid) {
    match p
    case Idle => l' == l && (p' == RLock || p' == WLock)
    case RelSignal | Stuck => false
    case _ => (Locks(p) ==> l.mutex.Free?) && (l', p') == NextLocal(l, p, t)
  }

  /** A signal on the writers' condition may wake any number of sleepers.  If there is a sleeper,
      some writer is awake afterwards; that it is one this signal woke is not assumed, so a signal
      spent on a writer already awake is a step too. */
  ghost predicate SignalWriters(pc: map<Tid, Pc>, pc': map<Tid, Pc>) {
    && pc'.Keys == pc.Keys
    && (forall t :: t in pc ==> pc'[t] == pc[t] || (pc[t].WSleep? && pc'[t].WWoken?))
    && ((exists t :: t in pc && pc[t].WSleep?) ==> exists t :: t in pc && pc'[t].WWoken?)
  }

  /** A broadcast on the readers' condition wakes all sleepers. */
  ghost predicate BroadcastReads(pc: map<Tid, Pc>, pc': map<Tid, Pc>) {
    && pc'.Keys == pc.Keys
    && forall t :: t in pc ==> pc'[t] == if pc[t].RSleep? then RWoken else pc[t]
  }

  /** The signalling in release: writers first, readers only when no writer waits. */
  ghost predicate Signals(l: Shared, pc: map<Tid, Pc>, pc': map<Tid, Pc>) {
    if l.waitingWriters > 0 && l.refCount == 0 then SignalWriters(pc, pc')
    else if l.waitingReads > 0 && l.waitingWriters == 0 then BroadcastReads(pc, pc')
    else pc' == pc
  }

  ghost predicate SignalStep(s: State, s': State, t: Tid)
    requires t in s.pc
  {
    s'.sh == s.sh && exists pc' :: Signals(s.sh, s.pc, pc') && s'.pc == pc'[t := RelUnlock]
  }

  ghost predicate MoveStep(s: State, s': State, t: Tid)
    requires t in s.pc
  {
    exists p' :: LocalStep(s.sh, s.pc[t], s'.sh, p', t) && s'.pc == s.pc[t := p']
  }

  /** Thread `t` takes one step. */
  ghost predicate Step(s: State, s': State, t: Tid) {
    t in s.pc && if s.pc[t].RelSignal? then SignalStep(s, s', t) else MoveStep(s, s', t)
  }

  /** Steps other than spurious wake-ups and new requests. */
  ghost predicate QuietStep(s: State, s': State, t: Tid) {
    Step(s, s', t) && s.pc[t] != Idle && s.pc[t] != RSleep && s.pc[t] != WSleep
  }

  ghost predicate Init(s: State) {
    && s.sh == Shared(Free, 0, 0, 0)
    && forall t :: t in s.pc ==> s.pc[t] == Idle
  }

  ghost predicate Next(s: State, s': State) {
    exists t :: Step(s, s', t)
  }

  ghost predicate NextAt(run: seq<State>, i: nat) {
    0 < i < |run| ==> Next(run[i - 1], run[i])
  }

  /** A run of the whole system, with any interleaving. */
  ghost predicate IsRun(run: seq<State>) {
    run != [] && Init(run[0]) && forall i: nat :: NextAt(run, i)
  }

  // ----- groups of threads

  datatype Group = Waiting(w: bool) | Holding(w: bool) | Wanting | Busy | AtLeast(rank: nat)

  predicate Critical(p: Pc) {
    || p.RTest? || p.RWait? || p.RDecr? || p.RTake? || p.RUnlock?
    || p.WTest? || p.WWait? || p.WDecr? || p.WTake? || p.WUnlock?
    || p.RelCount? || p.RelSignal? || p.RelUnlock? || p.Stuck?
  }

  predicate Wants(p: Pc) {
    || p.RLock? || p.RTest? || p.RWait? || p.RSleep? || p.RWoken? || p.RDecr? || p.RTake?
    || p.WLock? || p.WTest? || p.WWait? || p.WSleep? || p.WWoken? || p.WDecr? || p.WTake?
  }

  /** Distance to the next change of phase: wanting, holding, done. */
  function Rank(p: Pc): nat {
    match p
    case Idle => 0
    case RLock | WLock | RWoken | WWoken => 6
    case RDecr | WDecr => 5
    case RTest | WTest => 4
    case RWait | WWait | RTake | WTake => 3
    case RSleep | WSleep => 2
    case RUnlock | WUnlock => 6
    case Reading | Writing => 5
    case RelLock(_) => 4
    case RelCount(_) => 3
    case RelSignal => 2
    case RelUnlock | Stuck => 1
  }

  predicate In(g: Group, p: Pc) {
    match g
    case Waiting(false) => p.RWait? || p.RSleep? || p.RWoken? || p.RDecr?
    case Waiting(true) => p.WWait? || p.WSleep? || p.WWoken? || p.WDecr?
    case Holding(false) => p.RUnlock? || p.Reading? || ((p.RelLock? || p.RelCount?) && !p.w)
    case Holding(true) => p.WUnlock? || p.Writing? || ((p.RelLock? || p.RelCount?) && p.w)
    case Wanting => Wants(p)
    case Busy => p != Idle && p != RelUnlock
    case AtLeast(r) => Rank(p) >= r
  }

  ghost function Members(pc: map<Tid, Pc>, g: Group): set<Tid> {
    set t | t in pc && In(g, pc[t])
  }

  lemma MoveOne(pc: map<Tid, Pc>, t: Tid, p: Pc, g: Group)
    requires t in pc
    ensures |Members(pc[t := p], g)|
         == |Members(pc, g)| + (if In(g, p) then 1 else 0) - (if In(g, pc[t]) then 1 else 0)
  {
    var m, m' := Members(pc, g), Members(pc[t := p], g);
    assert m' == if In(g, p) then m + {t} else m - {t};
    assert t in m <==> In(g, pc[t]);
  }

  lemma SameMembers(pc: map<Tid, Pc>, pc': map<Tid, Pc>, g: Group)
    requires pc'.Keys == pc.Keys && forall t :: t in pc ==> (In(g, pc[t]) <==> In(g, pc'[t]))
    ensures Members(pc', g) == Members(pc, g)
  {
  }

  // ----- the invariant

  ghost predicate MutexOk(s: State) {
    && (s.sh.mutex.By? ==> s.sh.mutex.tid in s.pc)
    && forall t :: t in s.pc ==> (Critical(s.pc[t]) <==> s.sh.mutex == By(t))
  }

  /** refCount against the number of readers and writers holding the lock. */
  predicate HoldersOk(refCount: int, readers: nat, writers: nat) {
    if writers > 0 then refCount == -1 && writers == 1 && readers == 0 else refCount == readers
  }

  ghost predicate CountersOk(s: State) {
    && s.sh.waitingReads == |Members(s.pc, Waiting(false))|
    && s.sh.waitingWriters == |Members(s.pc, Waiting(true))|
    && HoldersOk(s.sh.refCount, |Members(s.pc, Holding(false))|, |Members(s.pc, Holding(true))|)
  }

  /** What the test before a take or a wait established still holds, as the mutex is held. */
  predicate TestedOk(l: Shared, p: Pc) {
    match p
    case RTake => l.refCount >= 0 && l.waitingWriters == 0
    case WTake => l.refCount == 0
    case RWait => l.refCount < 0 || l.waitingWriters > 0
    case WWait => l.refCount != 0
    case Stuck => false
    case _ => true
  }

  /** A writer on its way to re-examine the lock. */
  predicate Awake(p: Pc) {
    p.WWoken? || p.WDecr? || p.WTest? || p.WTake?
  }

  /** The mutex owner is about to signal, or to change what sleeping readers wait for. */
  ghost predicate AboutTo(s: State, signalOnly: bool) {
    && s.sh.mutex.By? && s.sh.mutex.tid in s.pc
    && var p := s.pc[s.sh.mutex.tid];
    p.RelSignal? || (!signalOnly && (p.WTest? || p.WTake?))
  }

  ghost predicate NoLostReader(s: State) {
    (exists t :: t in s.pc && s.pc[t].RSleep?) ==>
      s.sh.refCount < 0 || s.sh.waitingWriters > 0 || AboutTo(s, false)
  }

  ghost predicate NoLostWriter(s: State) {
    (exists t :: t in s.pc && s.pc[t].WSleep?) ==>
      s.sh.refCount != 0 || (exists t :: t in s.pc && Awake(s.pc[t])) || AboutTo(s, true)
  }

  ghost predicate Inv(s: State) {
    && MutexOk(s) && CountersOk(s)
    && (forall t :: t in s.pc ==> TestedOk(s.sh, s.pc[t]))
    && NoLostReader(s) && NoLostWriter(s)
  }

  // ----- a step of one thread keeps the invariant

  function Bit(b: bool): int {
    if b then 1 else 0
  }

  /** The waiting counters move with the thread. */
  lemma LocalWaiting(l: Shared, p: Pc, l': Shared, p': Pc, t: Tid)
    requires LocalStep(l, p, l', p', t)
    ensures l'.waitingReads == l.waitingReads + Bit(In(Waiting(false), p')) - Bit(In(Waiting(false), p))
    ensures l'.waitingWriters == l.waitingWriters + Bit(In(Waiting(true), p')) - Bit(In(Waiting(true), p))
  {
  }

  /** So does refCount, whatever the numbers of other holders. */
  lemma LocalHolders(l: Shared, p: Pc, l': Shared, p': Pc, t: Tid, readers: nat, writers: nat, readers': nat, writers': nat)
    requires LocalStep(l, p, l', p', t) && TestedOk(l, p) && HoldersOk(l.refCount, readers, writers)
    requires readers' == readers + Bit(In(Holding(false), p')) - Bit(In(Holding(false), p))
    requires writers' == writers + Bit(In(Holding(true), p')) - Bit(In(Holding(true), p))
    ensures HoldersOk(l'.refCount, readers', writers')
  {
    match p
    case RTake | WTake | RelCount(_) =>
    case _ => assert l'.refCount == l.refCount && readers' == readers && writers' == writers;
  }

  lemma KeepsWaiting(s: State, s': State, t: Tid, p': Pc)
    requires CountersOk(s) && t in s.pc
    requires LocalStep(s.sh, s.pc[t], s'.sh, p', t) && s'.pc == s.pc[t := p']
    ensures s'.sh.waitingReads == |Members(s'.pc, Waiting(false))|
    ensures s'.sh.waitingWriters == |Members(s'.pc, Waiting(true))|
  {
    LocalWaiting(s.sh, s.pc[t], s'.sh, p', t);
    MoveOne(s.pc, t, p', Waiting(false));
    MoveOne(s.pc, t, p', Waiting(true));
  }

  lemma KeepsHolders(s: State, s': State, t: Tid, p': Pc)
    requires CountersOk(s) && t in s.pc && TestedOk(s.sh, s.pc[t])
    requires LocalStep(s.sh, s.pc[t], s'.sh, p', t) && s'.pc == s.pc[t := p']
    ensures HoldersOk(s'.sh.refCount, |Members(s'.pc, Holding(false))|, |Members(s'.pc, Holding(true))|)
  {
    MoveOne(s.pc, t, p', Holding(false));
    MoveOne(s.pc, t, p', Holding(true));
    LocalHolders(s.sh, s.pc[t], s'.sh, p', t,
      |Members(s.pc, Holding(false))|, |Members(s.pc, Holding(true))|,
      |Members(s'.pc, Holding(false))|, |Members(s'.pc, Holding(true))|);
  }

  lemma KeepsCounters(s: State, s': State, t: Tid, p': Pc)
    requires CountersOk(s) && t in s.pc && TestedOk(s.sh, s.pc[t])
    requires LocalStep(s.sh, s.pc[t], s'.sh, p', t) && s'.pc == s.pc[t := p']
    ensures CountersOk(s')
  {
    KeepsWaiting(s, s', t, p');
    KeepsHolders(s, s', t, p');
  }

  /** A thread in release finds the count its own hold left there. */
  lemma ReleaseCounts(s: State, t: Tid)
    requires CountersOk(s) && t in s.pc && s.pc[t].RelCount?
    ensures s.sh.refCount > 0 || s.sh.refCount == -1
    ensures s.pc[t].w <==> s.sh.refCount == -1
  {
    assert t in Members(s.pc, Holding(s.pc[t].w));
  }

  /** Between two threads: while `t` moves, what another thread tested still holds, because a
      thread past its test owns the mutex. */
  lemma LocalTested(l: Shared, p: Pc, l': Shared, p': Pc, t: Tid)
    requires LocalStep(l, p, l', p', t) && (Critical(p) <==> l.mutex == By(t))
    requires (p.RelCount? ==> l.refCount > 0 || l.refCount == -1) && l.waitingWriters >= 0
    ensures TestedOk(l', p')
    ensures l.mutex.By? && l.mutex.tid != t ==> l' == l
    ensures Critical(p') <==> l'.mutex == By(t)
    ensures l'.mutex == l.mutex || l'.mutex == By(t) || (l.mutex == By(t) && l'.mutex.Free?)
  {
  }

  lemma KeepsRest(s: State, s': State, t: Tid, p': Pc)
    requires Inv(s) && t in s.pc
    requires LocalStep(s.sh, s.pc[t], s'.sh, p', t) && s'.pc == s.pc[t := p']
    ensures MutexOk(s') && forall u :: u in s'.pc ==> TestedOk(s'.sh, s'.pc[u])
  {
    if s.pc[t].RelCount? { ReleaseCounts(s, t); }
    LocalTested(s.sh, s.pc[t], s'.sh, p', t);
  }

  lemma KeepsNoLostReader(s: State, s': State, t: Tid, p': Pc)
    requires MutexOk(s) && CountersOk(s) && NoLostReader(s) && t in s.pc && TestedOk(s.sh, s.pc[t]) && MutexOk(s')
    requires LocalStep(s.sh, s.pc[t], s'.sh, p', t) && s'.pc == s.pc[t := p']
    ensures NoLostReader(s')
  {
    if s.pc[t].RelCount? { ReleaseCounts(s, t); }
    if u :| u in s'.pc && s'.pc[u].RSleep? && u != t {
      assert s.pc[u].RSleep?;
    }
  }

  lemma KeepsNoLostWriter(s: State, s': State, t: Tid, p': Pc)
    requires MutexOk(s) && CountersOk(s) && NoLostWriter(s) && t in s.pc && TestedOk(s.sh, s.pc[t]) && MutexOk(s')
    requires LocalStep(s.sh, s.pc[t], s'.sh, p', t) && s'.pc == s.pc[t := p']
    ensures NoLostWriter(s')
  {
    if s.pc[t].RelCount? { ReleaseCounts(s, t); }
    if Awake(p') {
      assert s'.pc[t] == p';
    } else if u :| u in s'.pc && s'.pc[u].WSleep? && u != t {
      assert s.pc[u].WSleep?;
      if v :| v in s.pc && Awake(s.pc[v]) && v != t {
        assert s'.pc[v] == s.pc[v];
      }
    }
  }

  // ----- the signal keeps the invariant

  /** Waking sleepers changes no group the counters look at. */
  lemma WakeKeepsGroups(l: Shared, pc: map<Tid, Pc>, pc': map<Tid, Pc>, g: Group)
    requires Signals(l, pc, pc') && (g.Waiting? || g.Holding? || g.Wanting? || g.Busy?)
    ensures pc'.Keys == pc.Keys && Members(pc', g) == Members(pc, g)
  {
    SameMembers(pc, pc', g);
  }

  lemma SignalKeepsGroup(l: Shared, pc: map<Tid, Pc>, pc': map<Tid, Pc>, t: Tid, g: Group)
    requires Signals(l, pc, pc') && t in pc && pc[t].RelSignal? && (g.Waiting? || g.Holding?)
    ensures t in pc' && |Members(pc'[t := RelUnlock], g)| == |Members(pc, g)|
  {
    WakeKeepsGroups(l, pc, pc', g);
    assert !In(g, pc'[t]) && !In(g, RelUnlock);
    MoveOne(pc', t, RelUnlock, g);
  }

  lemma SignalKeepsCounters(s: State, s': State, t: Tid, pc': map<Tid, Pc>)
    requires CountersOk(s) && t in s.pc && s.pc[t].RelSignal?
    requires s'.sh == s.sh && Signals(s.sh, s.pc, pc') && s'.pc == pc'[t := RelUnlock]
    ensures CountersOk(s')
  {
    SignalKeepsGroup(s.sh, s.pc, pc', t, Waiting(false));
    SignalKeepsGroup(s.sh, s.pc, pc', t, Waiting(true));
    SignalKeepsGroup(s.sh, s.pc, pc', t, Holding(false));
    SignalKeepsGroup(s.sh, s.pc, pc', t, Holding(true));
  }

  lemma SignalKeepsRest(s: State, s': State, t: Tid, pc': map<Tid, Pc>)
    requires Inv(s) && t in s.pc && s.pc[t].RelSignal?
    requires s'.sh == s.sh && Signals(s.sh, s.pc, pc') && s'.pc == pc'[t := RelUnlock]
    ensures MutexOk(s') && forall u :: u in s'.pc ==> TestedOk(s'.sh, s'.pc[u])
  {
    SignalKeepsMutex(s, s', t, pc');
    SignalKeepsTests(s, s', t, pc');
  }

  lemma SignalKeepsMutex(s: State, s': State, t: Tid, pc': map<Tid, Pc>)
    requires MutexOk(s) && t in s.pc && s.pc[t].RelSignal?
    requires s'.sh == s.sh && Signals(s.sh, s.pc, pc') && s'.pc == pc'[t := RelUnlock]
    ensures MutexOk(s')
  {
  }

  lemma SignalKeepsTests(s: State, s': State, t: Tid, pc': map<Tid, Pc>)
    requires t in s.pc && s.pc[t].RelSignal? && forall u :: u in s.pc ==> TestedOk(s.sh, s.pc[u])
    requires s'.sh == s.sh && Signals(s.sh, s.pc, pc') && s'.pc == pc'[t := RelUnlock]
    ensures forall u :: u in s'.pc ==> TestedOk(s'.sh, s'.pc[u])
  {
  }

  /** Nobody sleeps on a condition whose waiting counter is zero. */
  lemma NoSleeperUncounted(s: State, t: Tid)
    requires CountersOk(s) && t in s.pc
    ensures s.pc[t].RSleep? ==> s.sh.waitingReads > 0
    ensures s.pc[t].WSleep? ==> s.sh.waitingWriters > 0
  {
    assert s.pc[t].RSleep? ==> t in Members(s.pc, Waiting(false));
    assert s.pc[t].WSleep? ==> t in Members(s.pc, Waiting(true));
  }

  lemma SignalKeepsNoLost(s: State, s': State, t: Tid, pc': map<Tid, Pc>)
    requires Inv(s) && t in s.pc && s.pc[t].RelSignal?
    requires s'.sh == s.sh && Signals(s.sh, s.pc, pc') && s'.pc == pc'[t := RelUnlock]
    ensures NoLostReader(s') && NoLostWriter(s')
  {
    if u :| u in s'.pc && s'.pc[u].RSleep? {
      assert s.pc[u].RSleep?;
      NoSleeperUncounted(s, u);
    }
    if u :| u in s'.pc && s'.pc[u].WSleep? {
      assert s.pc[u].WSleep?;
      NoSleeperUncounted(s, u);
      if s.sh.refCount == 0 {
        var v :| v in s.pc && pc'[v].WWoken?;
        assert s'.pc[v] == pc'[v];
      }
    }
  }

  /** One step of any thread keeps the invariant. */
  lemma StepKeepsInv(s: State, s': State, t: Tid)
    requires Inv(s) && Step(s, s', t)
    ensures Inv(s')
  {
    if s.pc[t].RelSignal? {
      var pc' :| Signals(s.sh, s.pc, pc') && s'.pc == pc'[t := RelUnlock];
      SignalKeepsCounters(s, s', t, pc');
      SignalKeepsRest(s, s', t, pc');
      SignalKeepsNoLost(s, s', t, pc');
    } else {
      var p' :| LocalStep(s.sh, s.pc[t], s'.sh, p', t) && s'.pc == s.pc[t := p'];
      KeepsCounters(s, s', t, p');
      KeepsRest(s, s', t, p');
      KeepsNoLostReader(s, s', t, p');
      KeepsNoLostWriter(s, s', t, p');
    }
  }

  lemma InitInv(s: State)
    requires Init(s)
    ensures Inv(s)
  {
    forall g: Group | g.Waiting? || g.Holding? ensures Members(s.pc, g) == {} {}
  }

  lemma NextKeepsInv(s: State, s': State)
    requires Inv(s) && Next(s, s')
    ensures Inv(s')
  {
    var t :| Step(s, s', t);
    StepKeepsInv(s, s', t);
  }

  lemma {:induction false} InvAt(run: seq<State>, i: nat)
    requires IsRun(run) && i < |run|
    ensures Inv(run[i])
  {
    if i == 0 {
      InitInv(run[0]);
    } else {
      InvAt(run, i - 1);
      assert NextAt(run, i);
      NextKeepsInv(run[i - 1], run[i]);
    }
  }

  /** Every state of every run satisfies the invariant. */
  lemma RunInv(run: seq<State>)
    requires IsRun(run)
    ensures forall s :: s in run ==> Inv(s)
  {
    forall s | s in run ensures Inv(s) {
      var i: nat :| i < |run| && run[i] == s;
      InvAt(run, i);
    }
  }

  // ----- what the invariant means

  /** A thread holds the lock from the moment it has changed refCount in acquireRead or
      acquireWrite until release changes it back. */
  ghost predicate Holds(s: State, t: Tid, w: bool) {
    t in s.pc && In(Holding(w), s.pc[t])
  }

  lemma WriterIsAlone(s: State, t: Tid, u: Tid)
    requires CountersOk(s) && t != u && Holds(s, t, true)
    ensures !Holds(s, u, true) && !Holds(s, u, false)
  {
    var m := Members(s.pc, Holding(true));
    assert t in m && Members(s.pc, Holding(false)) == {};
    if Holds(s, u, true) {
      assert {t, u} <= m;
      SubsetSize({t, u}, m);
    }
  }

  /** In every state of every run a writer excludes every other holder, so readers exclude
      writers. */
  lemma MutualExclusion(run: seq<State>, s: State, t: Tid, u: Tid)
    requires IsRun(run) && s in run && t != u && Holds(s, t, true)
    ensures !Holds(s, u, true) && !Holds(s, u, false)
  {
    RunInv(run);
    WriterIsAlone(s, t, u);
  }

  // ----- what the callers see

  /** The call a thread is in: acquireWrite, or the hold it ended in, counts as writing. */
  predicate Side(p: Pc, w: bool) {
    if w then
      || p.WLock? || p.WTest? || p.WWait? || p.WSleep? || p.WWoken? || p.WDecr? || p.WTake?
      || p.WUnlock? || p.Writing? || ((p.RelLock? || p.RelCount?) && p.w)
    else
      || p.RLock? || p.RTest? || p.RWait? || p.RSleep? || p.RWoken? || p.RDecr? || p.RTake?
      || p.RUnlock? || p.Reading? || ((p.RelLock? || p.RelCount?) && !p.w)
  }

  /** Release has given the hold back and has not returned yet. */
  predicate Leaving(p: Pc) {
    p.RelSignal? || p.RelUnlock? || p.Stuck?
  }

  /** At point `i` of the run thread `t` called acquireWrite, or acquireRead, and it has not been
      outside the lock up to point `j`. */
  ghost predicate CalledAt(run: seq<State>, i: nat, j: nat, t: Tid, w: bool) {
    && i <= j < |run|
    && t in run[i].pc && run[i].pc[t] == (if w then WLock else RLock)
    && forall k :: i <= k <= j ==> !Outside(run[k], t)
  }

  ghost predicate Outside(s: State, t: Tid) { t in s.pc && s.pc[t].Idle? }

  ghost predicate OnSide(s: State, t: Tid, w: bool) { t in s.pc && (Side(s.pc[t], w) || Leaving(s.pc[t])) }

  /** The last call of `t` up to point `j` was acquireWrite, or acquireRead, and is not yet undone
      by a release that returned. */
  ghost predicate Called(run: seq<State>, j: nat, t: Tid, w: bool) {
    exists i :: CalledAt(run, i, j, t, w)
  }

  lemma LocalSide(l: Shared, p: Pc, l': Shared, p': Pc, t: Tid, w: bool)
    requires LocalStep(l, p, l', p', t) && (Side(p, w) || Leaving(p))
    ensures p'.Idle? || Side(p', w) || Leaving(p')
  {
  }

  lemma SignalSide(l: Shared, pc: map<Tid, Pc>, pc': map<Tid, Pc>, u: Tid, w: bool)
    requires Signals(l, pc, pc') && u in pc && (Side(pc[u], w) || Leaving(pc[u]))
    ensures u in pc' && (Side(pc'[u], w) || Leaving(pc'[u]))
  {
  }

  /** A step of any thread leaves a thread on its side, unless that thread is done. */
  lemma StepKeepsSide(s: State, s': State, t: Tid, u: Tid, w: bool)
    requires Step(s, s', t) && OnSide(s, u, w)
    ensures Outside(s', u) || OnSide(s', u, w)
  {
    if s.pc[t].RelSignal? {
      var pc' :| Signals(s.sh, s.pc, pc') && s'.pc == pc'[t := RelUnlock];
      SignalSide(s.sh, s.pc, pc', u, w);
    } else {
      var p' :| LocalStep(s.sh, s.pc[t], s'.sh, p', t) && s'.pc == s.pc[t := p'];
      if u == t { LocalSide(s.sh, s.pc[t], s'.sh, p', t, w); }
    }
  }

  lemma NextKeepsSide(s: State, s': State, u: Tid, w: bool)
    requires Next(s, s') && OnSide(s, u, w)
    ensures Outside(s', u) || OnSide(s', u, w)
  {
    var t :| Step(s, s', t);
    StepKeepsSide(s, s', t, u, w);
  }

  lemma {:induction false} CallKeepsSide(run: seq<State>, i: nat, j: nat, t: Tid, w: bool)
    requires IsRun(run) && CalledAt(run, i, j, t, w)
    ensures OnSide(run[j], t, w)
    decreases j
  {
    if i < j {
      assert CalledAt(run, i, j - 1, t, w);
      CallKeepsSide(run, i, j - 1, t, w);
      assert NextAt(run, j) && !Outside(run[j], t);
      NextKeepsSide(run[j - 1], run[j], t, w);
    }
  }

  /** Whoever called acquireWrite holds the lock, once it does, for writing, and whoever called
      acquireRead for reading; when the call has returned and release was not called yet, it does
      hold it. */
  lemma CallerHolds(run: seq<State>, j: nat, t: Tid, w: bool)
    requires IsRun(run) && j < |run| && Called(run, j, t, w)
    ensures !Holds(run[j], t, !w)
    ensures Returned(run[j], t) ==> Holds(run[j], t, w)
  {
    var i :| CalledAt(run, i, j, t, w);
    CallKeepsSide(run, i, j, t, w);
  }

  /** The thread is back from its acquire and has not called release. */
  ghost predicate Returned(s: State, t: Tid) {
    t in s.pc && (s.pc[t].Reading? || s.pc[t].Writing?)
  }

  /** In no run are a thread that called acquireWrite and any other caller both back from their
      acquires. */
  lemma CallersExclude(run: seq<State>, j: nat, t: Tid, u: Tid, w: bool)
    requires IsRun(run) && j < |run| && t != u
    requires Called(run, j, t, true) && Called(run, j, u, w)
    ensures !(Returned(run[j], t) && Returned(run[j], u))
    ensures !(Holds(run[j], t, true) && Holds(run[j], u, w))
  {
    CallerHolds(run, j, t, true);
    CallerHolds(run, j, u, w);
    if Holds(run[j], t, true) { MutualExclusion(run, run[j], t, u); }
  }

  /** Everyone inside the lock has called one of the two acquires. */
  lemma {:induction false} EveryHolderCalled(run: seq<State>, j: nat, t: Tid)
    requires IsRun(run) && j < |run| && t in run[j].pc && !Outside(run[j], t)
    ensures Called(run, j, t, true) || Called(run, j, t, false)
    decreases j
  {
    assert j > 0;
    assert NextAt(run, j);
    NextFrom(run[j - 1], run[j], t);
    if Outside(run[j - 1], t) {
      assert CalledAt(run, j, j, t, run[j].pc[t].WLock?);
    } else {
      EveryHolderCalled(run, j - 1, t);
      StillCalled(run, j, t, Called(run, j - 1, t, true));
    }
  }

  lemma StillCalled(run: seq<State>, j: nat, t: Tid, w: bool)
    requires 0 < j < |run| && !Outside(run[j], t) && Called(run, j - 1, t, w)
    ensures Called(run, j, t, w)
  {
    var i: nat :| CalledAt(run, i, j - 1, t, w);
    assert CalledAt(run, i, j, t, w);
  }

  /** From outside a thread gets in by calling one of the acquires. */
  lemma NextFrom(s: State, s': State, u: Tid)
    requires Next(s, s')
    ensures s'.pc.Keys == s.pc.Keys
    ensures Outside(s, u) ==> Outside(s', u) || s'.pc[u] == RLock || s'.pc[u] == WLock
  {
    var t :| Step(s, s', t);
    StepKeepsThreads(s, s', t);
    if s.pc[t].RelSignal? {
      var pc' :| Signals(s.sh, s.pc, pc') && s'.pc == pc'[t := RelUnlock];
    }
  }

  lemma StepKeepsThreads(s: State, s': State, t: Tid)
    requires Step(s, s', t)
    ensures s'.pc.Keys == s.pc.Keys
  {
    if s.pc[t].RelSignal? {
      var pc' :| Signals(s.sh, s.pc, pc') && s'.pc == pc'[t := RelUnlock];
      SignalKeepsKeys(s, s', t, pc');
    }
  }

  /** Writers go first: a thread that gets the lock for reading gets it while no thread waits for
      writing. */
  lemma WritersGoFirst(run: seq<State>, i: nat, t: Tid, u: Tid)
    requires IsRun(run) && i + 1 < |run| && !Holds(run[i], t, false) && Holds(run[i + 1], t, false)
    ensures u in run[i].pc ==> !In(Waiting(true), run[i].pc[u])
  {
    RunInv(run);
    assert NextAt(run, i + 1) && run[i] in run;
    TakesAlone(run[i], run[i + 1], t, u);
  }

  lemma TakesAlone(s: State, s': State, t: Tid, u: Tid)
    requires Inv(s) && Next(s, s') && !Holds(s, t, false) && Holds(s', t, false)
    ensures u in s.pc ==> !In(Waiting(true), s.pc[u])
  {
    OnlyTakeHolds(s, s', t);
    assert TestedOk(s.sh, s.pc[t]);
    assert u in Members(s.pc, Waiting(true)) <==> u in s.pc && In(Waiting(true), s.pc[u]);
  }

  lemma OnlyTakeHolds(s: State, s': State, u: Tid)
    requires Next(s, s') && Holds(s', u, false)
    ensures Holds(s, u, false) || (u in s.pc && s.pc[u].RTake?)
  {
    var t :| Step(s, s', t);
    StepKeepsThreads(s, s', t);
    if s.pc[t].RelSignal? {
      var pc' :| Signals(s.sh, s.pc, pc') && s'.pc == pc'[t := RelUnlock];
    }
  }

  /** In no run does release reach its early return, which would leave the mutex locked, and it
      always undoes the kind of hold the thread had. */
  lemma ReleaseNeverStuck(run: seq<State>, s: State, t: Tid)
    requires IsRun(run) && s in run && t in s.pc
    ensures !s.pc[t].Stuck?
    ensures s.pc[t].RelCount? ==> if s.pc[t].w then s.sh.refCount == -1 else s.sh.refCount > 0
  {
    RunInv(run);
    assert TestedOk(s.sh, s.pc[t]);
    if s.pc[t].RelCount? { ReleaseCounts(s, t); }
  }

  lemma SubsetSize(a: set<Tid>, b: set<Tid>)
    requires a <= b
    ensures |a| <= |b|
  {
    assert b == a + (b - a);
  }

  lemma SleeperHasWriter(s: State, t: Tid)
    requires Inv(s) && s.sh.mutex.Free? && s.sh.refCount == 0
    requires t in s.pc && (s.pc[t].RSleep? || s.pc[t].WSleep?)
    ensures exists u :: u in s.pc && s.pc[u].WWoken?
  {
    NoSleeperUncounted(s, t);
    var m := Members(s.pc, Waiting(true));
    assert m != {};
    var u :| u in m;
    assert s.pc[u].WSleep? || s.pc[u].WWoken?;
  }

  /** In every state of every run where no thread owns the mutex and nobody holds the lock, a
      sleeper has a woken writer on the way that will let it proceed. */
  lemma FreeLockHasNoLostSleeper(run: seq<State>, s: State, t: Tid)
    requires IsRun(run) && s in run && s.sh.mutex.Free? && s.sh.refCount == 0
    requires t in s.pc && (s.pc[t].RSleep? || s.pc[t].WSleep?)
    ensures exists u :: u in s.pc && s.pc[u].WWoken?
  {
    RunInv(run);
    SleeperHasWriter(s, t);
  }

  // ----- the lock drains

  ghost predicate AllIdle(s: State) {
    forall t :: t in s.pc ==> s.pc[t].Idle?
  }

  /** As long as some thread is inside the lock, some thread can take a step that is neither a
      new request nor a spurious wake-up: the system never deadlocks on a lost signal. */
  lemma QuietStepExists(s: State)
    requires Inv(s) && !AllIdle(s)
    ensures exists s', t :: QuietStep(s, s', t)
  {
    if s.sh.mutex.By? {
      var s' := OwnerCanStep(s, s.sh.mutex.tid);
    } else if t :| t in s.pc && !s.pc[t].Idle? && !s.pc[t].RSleep? && !s.pc[t].WSleep? {
      var s' := MoveIfFree(s, t);
    } else {
      var t :| t in s.pc && !s.pc[t].Idle?;
      NobodyHolds(s);
      SleeperHasWriter(s, t);
      assert false;
    }
  }

  lemma NobodyHolds(s: State)
    requires Inv(s)
    requires forall t :: t in s.pc ==> s.pc[t].Idle? || s.pc[t].RSleep? || s.pc[t].WSleep?
    ensures s.sh.refCount == 0
  {
    assert Members(s.pc, Holding(false)) == {} && Members(s.pc, Holding(true)) == {};
  }

  lemma MoveIfFree(s: State, t: Tid) returns (s': State)
    requires t in s.pc && !s.pc[t].Idle? && !s.pc[t].RSleep? && !s.pc[t].WSleep? && !s.pc[t].Stuck? && !s.pc[t].RelSignal?
    requires s.sh.mutex.Free? || Critical(s.pc[t])
    ensures QuietStep(s, s', t)
  {
    var (l', p') := NextLocal(s.sh, s.pc[t], t);
    s' := State(l', s.pc[t := p']);
    assert LocalStep(s.sh, s.pc[t], l', p', t);
  }

  lemma OwnerCanStep(s: State, t: Tid) returns (s': State)
    requires Inv(s) && s.sh.mutex == By(t)
    ensures t in s.pc && QuietStep(s, s', t)
  {
    if s.pc[t].RelSignal? {
      var pc' := map u | u in s.pc ::
        if s.sh.waitingWriters > 0 && s.sh.refCount == 0 then (if s.pc[u].WSleep? then WWoken else s.pc[u])
        else if s.sh.waitingReads > 0 && s.sh.waitingWriters == 0 then (if s.pc[u].RSleep? then RWoken else s.pc[u])
        else s.pc[u];
      assert Signals(s.sh, s.pc, pc') by {
        if u :| u in s.pc && s.pc[u].WSleep? && s.sh.waitingWriters > 0 && s.sh.refCount == 0 {
          assert pc'[u].WWoken?;
        }
        if !(s.sh.waitingWriters > 0 && s.sh.refCount == 0) && !(s.sh.waitingReads > 0 && s.sh.waitingWriters == 0) {
          assert pc' == s.pc;
        }
      }
      s' := State(s.sh, pc'[t := RelUnlock]);
    } else {
      s' := MoveIfFree(s, t);
    }
  }

  /** Phases still to go: two for a thread that wants the lock, one for a thread that holds it. */
  ghost function Phases(pc: map<Tid, Pc>): nat {
    |Members(pc, Wanting)| + |Members(pc, Busy)|
  }

  /** Sum over all threads of Rank, written as the sizes of its level sets. */
  ghost function Ranks(pc: map<Tid, Pc>, k: nat): nat {
    if k == 0 then 0 else |Members(pc, AtLeast(k))| + Ranks(pc, k - 1)
  }

  const TOP_RANK: nat := 6

  function Weigh(phases: nat, ranks: nat, top: nat): nat {
    phases * (top + 1) + ranks
  }

  /** An upper bound on the number of quiet steps from `s`. */
  ghost function Bound(s: State): nat {
    Weigh(Phases(s.pc), Ranks(s.pc, TOP_RANK), TOP_RANK * |s.pc|)
  }

  lemma {:induction false} RanksFall(pc: map<Tid, Pc>, t: Tid, p: Pc, k: nat)
    requires t in pc && Rank(p) < Rank(pc[t])
    ensures Ranks(pc[t := p], k) <= Ranks(pc, k)
    ensures Rank(pc[t]) <= k ==> Ranks(pc[t := p], k) < Ranks(pc, k)
  {
    if k > 0 {
      MoveOne(pc, t, p, AtLeast(k));
      RanksFall(pc, t, p, k - 1);
    }
  }

  lemma {:induction false} RanksBounded(pc: map<Tid, Pc>, k: nat)
    ensures Ranks(pc, k) <= k * |pc|
  {
    if k > 0 {
      RanksBounded(pc, k - 1);
      assert Members(pc, AtLeast(k)) <= pc.Keys;
      SubsetSize(Members(pc, AtLeast(k)), pc.Keys);
      assert k * |pc| == |pc| + (k - 1) * |pc|;
    }
  }

  /** A quiet move finishes a phase or gets closer to its end. */
  lemma LocalProgress(l: Shared, p: Pc, l': Shared, p': Pc, t: Tid)
    requires LocalStep(l, p, l', p', t) && TestedOk(l', p') && !p.Idle? && !p.RSleep? && !p.WSleep?
    ensures var d := Bit(In(Wanting, p')) + Bit(In(Busy, p')) - Bit(In(Wanting, p)) - Bit(In(Busy, p));
            d < 0 || (d == 0 && Rank(p') < Rank(p))
  {
    match p
    case RTest | WTest | RelCount(_) =>
    case _ =>
  }

  lemma MoveProgress(s: State, s': State, t: Tid, p': Pc)
    requires t in s.pc && LocalStep(s.sh, s.pc[t], s'.sh, p', t) && s'.pc == s.pc[t := p']
    requires TestedOk(s'.sh, p') && !s.pc[t].Idle? && !s.pc[t].RSleep? && !s.pc[t].WSleep?
    ensures Closer(s.pc, s'.pc)
  {
    LocalProgress(s.sh, s.pc[t], s'.sh, p', t);
    MoveOne(s.pc, t, p', Wanting);
    MoveOne(s.pc, t, p', Busy);
    if Rank(p') < Rank(s.pc[t]) { RanksFall(s.pc, t, p', TOP_RANK); }
  }

  lemma SignalProgress(s: State, s': State, t: Tid, pc': map<Tid, Pc>)
    requires t in s.pc && s.pc[t].RelSignal? && Signals(s.sh, s.pc, pc') && s'.pc == pc'[t := RelUnlock]
    ensures Phases(s'.pc) < Phases(s.pc)
  {
    WakeKeepsGroups(s.sh, s.pc, pc', Wanting);
    WakeKeepsGroups(s.sh, s.pc, pc', Busy);
    assert pc'[t].RelSignal?;
    MoveOne(pc', t, RelUnlock, Wanting);
    MoveOne(pc', t, RelUnlock, Busy);
  }

  /** Fewer phases to go, or as many and a smaller rank sum. */
  ghost predicate Closer(pc: map<Tid, Pc>, pc': map<Tid, Pc>) {
    || Phases(pc') < Phases(pc)
    || (Phases(pc') == Phases(pc) && Ranks(pc', TOP_RANK) < Ranks(pc, TOP_RANK))
  }

  lemma SignalKeepsKeys(s: State, s': State, t: Tid, pc': map<Tid, Pc>)
    requires t in s.pc && Signals(s.sh, s.pc, pc') && s'.pc == pc'[t := RelUnlock]
    ensures s'.pc.Keys == s.pc.Keys
  {
  }

  lemma QuietStepCloser(s: State, s': State, t: Tid)
    requires Inv(s) && Inv(s') && QuietStep(s, s', t)
    ensures s'.pc.Keys == s.pc.Keys && Closer(s.pc, s'.pc)
  {
    if s.pc[t].RelSignal? {
      var pc' :| Signals(s.sh, s.pc, pc') && s'.pc == pc'[t := RelUnlock];
      SignalKeepsKeys(s, s', t, pc');
      SignalProgress(s, s', t, pc');
    } else {
      var p' :| LocalStep(s.sh, s.pc[t], s'.sh, p', t) && s'.pc == s.pc[t := p'];
      assert TestedOk(s'.sh, s'.pc[t]);
      MoveProgress(s, s', t, p');
    }
  }

  lemma CloserBound(s: State, s': State)
    requires s'.pc.Keys == s.pc.Keys && Closer(s.pc, s'.pc)
    ensures Bound(s') < Bound(s)
  {
    assert |s'.pc| == |s'.pc.Keys| == |s.pc|;
    var k := TOP_RANK;
    RanksBounded(s'.pc, k);
    Lexicographic(Phases(s.pc), Phases(s'.pc), Ranks(s.pc, k), Ranks(s'.pc, k), k * |s.pc|);
  }

  /** Every quiet step lowers the bound. */
  lemma QuietStepProgress(s: State, s': State, t: Tid)
    requires Inv(s) && QuietStep(s, s', t)
    ensures Inv(s') && Bound(s') < Bound(s)
  {
    StepKeepsInv(s, s', t);
    QuietStepCloser(s, s', t);
    CloserBound(s, s');
  }

  lemma Lexicographic(a: nat, a': nat, b: nat, b': nat, top: nat)
    requires b' <= top && (a' < a || (a' == a && b' < b))
    ensures Weigh(a', b', top) < Weigh(a, b, top)
  {
    if a' < a {
      assert (a - a' - 1) * (top + 1) >= 0;
      assert a * (top + 1) == a' * (top + 1) + (a - a' - 1) * (top + 1) + (top + 1);
    }
  }

  ghost predicate QuietNext(s: State, s': State) {
    exists t :: QuietStep(s, s', t)
  }

  ghost predicate CanGoOn(s: State) {
    exists s' :: QuietNext(s, s')
  }

  /** A stretch of any run without new requests and without spurious wake-ups. */
  ghost predicate IsQuiet(run: seq<State>) {
    run != [] && forall i :: 0 < i < |run| ==> QuietNext(run[i - 1], run[i])
  }

  lemma {:induction false} QuietRunFalls(run: seq<State>)
    requires IsQuiet(run) && Inv(run[0])
    ensures Inv(run[|run| - 1]) && Bound(run[|run| - 1]) + |run| - 1 <= Bound(run[0])
  {
    if |run| > 1 {
      var front := run[..|run| - 1];
      forall i | 0 < i < |front| ensures QuietNext(front[i - 1], front[i]) {
        assert QuietNext(run[i - 1], run[i]);
      }
      QuietRunFalls(front);
      assert QuietNext(run[|run| - 2], run[|run| - 1]);
      var t :| QuietStep(run[|run| - 2], run[|run| - 1], t);
      QuietStepProgress(run[|run| - 2], run[|run| - 1], t);
    }
  }

  /** From every reachable state, once requests and spurious wake-ups stop, every schedule is
      finite, and a schedule that cannot go on has served every thread: all pending acquires
      were granted and all holds released, whoever was chosen to run. */
  lemma EveryScheduleDrains(run: seq<State>, quiet: seq<State>)
    requires IsRun(run) && IsQuiet(quiet) && quiet[0] == run[|run| - 1]
    ensures |quiet| - 1 <= Bound(quiet[0])
    ensures CanGoOn(quiet[|quiet| - 1]) || AllIdle(quiet[|quiet| - 1])
  {
    RunInv(run);
    assert quiet[0] in run;
    QuietRunFalls(quiet);
    var s := quiet[|quiet| - 1];
    if !AllIdle(s) {
      QuietStepExists(s);
      var s', t :| QuietStep(s, s', t);
      assert QuietNext(s, s');
    }
  }
}
