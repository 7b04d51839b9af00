/** A timing wheel refines a bag of countdowns. */
module TimerWheel {
  import opened Common
  import opened Lists

  const N: nat := 6                // slots
  const INTERVAL: int := 2         // seconds per slot

  datatype Timer = Timer(id: Id, rotation: nat)

  /** How many slots slot j is ahead of the current one. */
  function Ahead(cur: nat, j: nat): nat
    requires cur < N && j < N
  {
    if cur <= j then j - cur else j + N - cur
  }

  /** How many ticks pass over a timer before the one that fires it. */
  function Left(cur: nat, j: nat, rotation: nat): nat
    requires cur < N && j < N
  {
    Ahead(cur, j) + N * rotation
  }

  // ----- the countdowns

  /** A tick takes one from every countdown; those at 0 fire and are gone. */
  function AfterTick(due: map<Id, nat>): map<Id, nat> {
    map id | id in due && due[id] > 0 :: due[id] - 1
  }

  ghost predicate Fires(due: map<Id, nat>, id: Id) { id in due && due[id] == 0 }

  // ----- the wheel

  ghost predicate HasId(l: seq<Timer>, id: Id) {
    exists x :: x in l && x.id == id
  }

  ghost predicate Unique(l: seq<Timer>) {
    l != [] ==> !HasId(l[1..], l[0].id) && Unique(l[1..])
  }

  /** Every timer of slot j is due when its rotations and the way to slot j are over. */
  ghost predicate SlotOk(cur: nat, wheel: seq<seq<Timer>>, due: map<Id, nat>, j: nat)
    requires cur < N && |wheel| == N && j < N
  {
    Unique(wheel[j]) && forall x :: x in wheel[j] ==> x.id in due && due[x.id] == Left(cur, j, x.rotation)
  }

  ghost predicate Held(wheel: seq<seq<Timer>>, id: Id) {
    exists j: nat :: j < |wheel| && HasId(wheel[j], id)
  }

  /** The wheel holds exactly the timers that are due, each in one place. */
  ghost predicate WheelOk(cur: nat, wheel: seq<seq<Timer>>, due: map<Id, nat>) {
    && cur < N && |wheel| == N
    && (forall j: nat :: j < N ==> SlotOk(cur, wheel, due, j))
    && (forall id :: id in due ==> Held(wheel, id))
  }

  /** What a tick makes of the list of the current slot. */
  function Kept(l: seq<Timer>): seq<Timer> {
    if l == [] then []
    else (if l[0].rotation > 0 then [l[0].(rotation := l[0].rotation - 1)] else []) + Kept(l[1..])
  }

  function Fired(l: seq<Timer>): seq<Id> {
    if l == [] then []
    else (if l[0].rotation > 0 then [] else [l[0].id]) + Fired(l[1..])
  }

  /** The current slot after the next tick. */
  function Next(cur: nat): nat { (cur + 1) % N }

  /** The next tick brings every other slot one nearer, and puts the current one last. */
  lemma TickAhead(cur: nat, j: nat)
    requires cur < N && j < N
    ensures Next(cur) < N && Ahead(Next(cur), j) == if j == cur then N - 1 else Ahead(cur, j) - 1
  {
  }

  lemma {:induction false} KeptIn(l: seq<Timer>, y: Timer)
    ensures y in Kept(l) <==> Timer(y.id, y.rotation + 1) in l
  {
    if l != [] { KeptIn(l[1..], y); }
  }

  lemma {:induction false} FiredIn(l: seq<Timer>, id: Id)
    ensures id in Fired(l) <==> Timer(id, 0) in l
  {
    if l != [] { FiredIn(l[1..], id); }
  }

  lemma KeptHas(l: seq<Timer>, id: Id)
    ensures HasId(Kept(l), id) ==> HasId(l, id)
  {
    if HasId(Kept(l), id) {
      var y :| y in Kept(l) && y.id == id;
      KeptIn(l, y);
    }
  }

  lemma {:induction false} KeptUnique(l: seq<Timer>)
    requires Unique(l)
    ensures Unique(Kept(l))
  {
    if l != [] {
      var rest := Kept(l[1..]);
      KeptUnique(l[1..]);
      KeptHas(l[1..], l[0].id);
      if l[0].rotation > 0 {
        var x := l[0].(rotation := l[0].rotation - 1);
        assert Kept(l) == [x] + rest && ([x] + rest)[1..] == rest;
      } else {
        assert Kept(l) == rest;
      }
    }
  }

  lemma {:induction false} FiredNoDup(l: seq<Timer>)
    requires Unique(l)
    ensures NoDup(Fired(l))
  {
    if l != [] {
      var rest := Fired(l[1..]);
      FiredNoDup(l[1..]);
      FiredIn(l[1..], l[0].id);
      if l[0].rotation > 0 {
        assert Fired(l) == rest;
      } else {
        assert Fired(l) == [l[0].id] + rest;
        PushOk(rest, l[0].id);
      }
    }
  }

  // ----- one tick

  lemma TickCurrent(cur: nat, wheel: seq<seq<Timer>>, due: map<Id, nat>)
    requires WheelOk(cur, wheel, due)
    ensures SlotOk(Next(cur), wheel[cur := Kept(wheel[cur])], AfterTick(due), cur)
  {
    assert SlotOk(cur, wheel, due, cur);
    KeptUnique(wheel[cur]);
    TickAhead(cur, cur);
    var l := wheel[cur := Kept(wheel[cur])][cur];
    forall y | y in l ensures y.id in AfterTick(due) && AfterTick(due)[y.id] == Left(Next(cur), cur, y.rotation) {
      KeptIn(wheel[cur], y);
    }
  }

  lemma TickOther(cur: nat, wheel: seq<seq<Timer>>, due: map<Id, nat>, j: nat)
    requires WheelOk(cur, wheel, due) && j < N && j != cur
    ensures SlotOk(Next(cur), wheel[cur := Kept(wheel[cur])], AfterTick(due), j)
  {
    assert SlotOk(cur, wheel, due, j);
    TickAhead(cur, j);
  }

  lemma TickHolds(cur: nat, wheel: seq<seq<Timer>>, due: map<Id, nat>, id: Id)
    requires WheelOk(cur, wheel, due) && id in AfterTick(due)
    ensures Held(wheel[cur := Kept(wheel[cur])], id)
  {
    assert Held(wheel, id);
    var j: nat :| j < |wheel| && HasId(wheel[j], id);
    var x :| x in wheel[j] && x.id == id;
    assert SlotOk(cur, wheel, due, j);
    var w := wheel[cur := Kept(wheel[cur])];
    if j == cur {
      assert x.rotation > 0;
      KeptIn(wheel[cur], Timer(id, x.rotation - 1));
      assert HasId(w[cur], id);
    } else {
      assert HasId(w[j], id);
    }
  }

  /** A tick of the wheel is a tick of the countdowns. */
  lemma TickRefines(cur: nat, wheel: seq<seq<Timer>>, due: map<Id, nat>)
    requires WheelOk(cur, wheel, due)
    ensures WheelOk(Next(cur), wheel[cur := Kept(wheel[cur])], AfterTick(due))
    ensures NoDup(Fired(wheel[cur])) && forall id :: id in Fired(wheel[cur]) <==> Fires(due, id)
  {
    TickAhead(cur, cur);
    var c, w, d := Next(cur), wheel[cur := Kept(wheel[cur])], AfterTick(due);
    forall j: nat | j < N ensures SlotOk(c, w, d, j) {
      if j == cur { TickCurrent(cur, wheel, due); } else { TickOther(cur, wheel, due, j); }
    }
    forall id | id in AfterTick(due) ensures Held(wheel[cur := Kept(wheel[cur])], id) { TickHolds(cur, wheel, due, id); }
    assert SlotOk(cur, wheel, due, cur);
    FiredNoDup(wheel[cur]);
    forall id ensures id in Fired(wheel[cur]) <==> Fires(due, id) { TickFires(cur, wheel, due, id); }
  }

  lemma TickFires(cur: nat, wheel: seq<seq<Timer>>, due: map<Id, nat>, id: Id)
    requires WheelOk(cur, wheel, due)
    ensures id in Fired(wheel[cur]) <==> Fires(due, id)
  {
    assert SlotOk(cur, wheel, due, cur);
    FiredIn(wheel[cur], id);
    if Fires(due, id) {
      assert Held(wheel, id);
      var j: nat :| j < |wheel| && HasId(wheel[j], id);
      var x :| x in wheel[j] && x.id == id;
      assert SlotOk(cur, wheel, due, j);
    }
  }

  // ----- adding a timer

  /** The slot t ticks ahead, reached after t / N whole turns. */
  lemma AddLeft(cur: nat, t: nat)
    requires cur < N
    ensures var j := (cur + t % N) % N; j < N && Left(cur, j, t / N) == t
  {
  }

  lemma AddRefines(cur: nat, wheel: seq<seq<Timer>>, due: map<Id, nat>, id: Id, t: nat, j: nat)
    requires WheelOk(cur, wheel, due) && id !in due && j == (cur + t % N) % N && j < N
    ensures WheelOk(cur, wheel[j := [Timer(id, t / N)] + wheel[j]], due[id := t])
  {
    AddLeft(cur, t);
    var w, d := wheel[j := [Timer(id, t / N)] + wheel[j]], due[id := t];
    forall i: nat | i < N ensures SlotOk(cur, w, d, i) {
      assert SlotOk(cur, wheel, due, i);
      assert i == j ==> w[i][1..] == wheel[i];
      assert !HasId(wheel[i], id);
    }
    forall x | x in d ensures Held(w, x) {
      if x == id {
        assert w[j][0].id == id && HasId(w[j], id);
      } else {
        assert Held(wheel, x);
        var i: nat :| i < |wheel| && HasId(wheel[i], x);
        var y :| y in wheel[i] && y.id == x;
        assert y in w[i] && HasId(w[i], x);
      }
    }
  }

  // ----- runs

  datatype Wheel = Wheel(cur: nat, slots: seq<seq<Timer>>, nextId: Id)

  datatype Call = AddTimer(timeout: int) | Tick

  /** k is the number of ticks a timeout in seconds stands for: one below the interval, else as many
      whole intervals as fit. */
  predicate Spans(timeout: int, k: nat) {
    if timeout < INTERVAL then k == 1 else k * INTERVAL <= timeout < (k + 1) * INTERVAL
  }

  function TicksFor(timeout: int): (k: nat)
    requires timeout >= 0
    ensures Spans(timeout, k)
  {
    if timeout < INTERVAL then 1 else timeout / INTERVAL
  }

  function Added(w: Wheel, timeout: int): Wheel
    requires w.cur < N && |w.slots| == N
  {
    if timeout < 0 then w
    else
      var ticks := TicksFor(timeout);
      var ts := (w.cur + ticks % N) % N;
      w.(slots := w.slots[ts := [Timer(w.nextId, ticks / N)] + w.slots[ts]], nextId := w.nextId + 1)
  }

  function Turned(w: Wheel): Wheel
    requires w.cur < N && |w.slots| == N
  {
    w.(cur := Next(w.cur), slots := w.slots[w.cur := Kept(w.slots[w.cur])])
  }

  /** The timers the next tick fires. */
  function FiredNext(w: Wheel): seq<Id>
    requires w.cur < N && |w.slots| == N
  {
    Fired(w.slots[w.cur])
  }

  function Start(): Wheel { Wheel(0, seq(N, _ => []), 0) }

  function After(calls: seq<Call>): (w: Wheel)
    ensures w.cur < N && |w.slots| == N
  {
    if calls == [] then Start()
    else
      var w := After(calls[..|calls| - 1]);
      match calls[|calls| - 1]
      case AddTimer(timeout) => Added(w, timeout)
      case Tick => Turned(w)
  }

  /** The countdowns that the same calls leave. */
  function Due(calls: seq<Call>): map<Id, nat> {
    if calls == [] then map[]
    else
      var front := calls[..|calls| - 1];
      match calls[|calls| - 1]
      case AddTimer(timeout) => if timeout < 0 then Due(front) else Due(front)[After(front).nextId := TicksFor(timeout)]
      case Tick => AfterTick(Due(front))
  }

  function Ticks(calls: seq<Call>): nat {
    if calls == [] then 0 else Ticks(calls[..|calls| - 1]) + (if calls[|calls| - 1].Tick? then 1 else 0)
  }

  ghost predicate Stands(w: Wheel, due: map<Id, nat>) {
    WheelOk(w.cur, w.slots, due) && forall id :: id in due ==> id < w.nextId
  }

  lemma AddedStands(w: Wheel, due: map<Id, nat>, timeout: int)
    requires Stands(w, due)
    ensures Stands(Added(w, timeout), if timeout < 0 then due else due[w.nextId := TicksFor(timeout)])
  {
    if timeout >= 0 {
      var ticks := TicksFor(timeout);
      AddRefines(w.cur, w.slots, due, w.nextId, ticks, (w.cur + ticks % N) % N);
    }
  }

  lemma TurnedStands(w: Wheel, due: map<Id, nat>)
    requires Stands(w, due)
    ensures Stands(Turned(w), AfterTick(due))
  {
    TickRefines(w.cur, w.slots, due);
  }

  /** After any calls the wheel stands for the countdowns of those calls. */
  lemma {:induction false} RunRefines(calls: seq<Call>)
    ensures Stands(After(calls), Due(calls))
  {
    if calls != [] {
      var front := calls[..|calls| - 1];
      RunRefines(front);
      match calls[|calls| - 1]
      case AddTimer(timeout) => AddedStands(After(front), Due(front), timeout);
      case Tick => TurnedStands(After(front), Due(front));
    }
  }

  /** The calls of a run that adds a timer and goes on. */
  function Adding(before: seq<Call>, timeout: int, later: seq<Call>): seq<Call> {
    before + [AddTimer(timeout)] + later
  }

  lemma {:induction false} Countdown(before: seq<Call>, timeout: int, later: seq<Call>)
    requires timeout >= 0
    ensures var id, t, due := After(before).nextId, TicksFor(timeout), Due(Adding(before, timeout, later));
            && id < After(Adding(before, timeout, later)).nextId
            && (id in due <==> Ticks(later) <= t) && (id in due ==> due[id] == t - Ticks(later))
  {
    var all := Adding(before, timeout, later);
    if later == [] {
      assert all[..|all| - 1] == before;
    } else {
      var front := later[..|later| - 1];
      Countdown(before, timeout, front);
      assert all[..|all| - 1] == Adding(before, timeout, front);
    }
  }

  /** A timer whose timeout spans t intervals is fired by the (t+1)-th later tick and by no other,
      whatever else is called meanwhile, and every tick fires a timer at most once. */
  lemma FiresOnce(before: seq<Call>, timeout: int, later: seq<Call>)
    requires timeout >= 0
    ensures var id, fired := After(before).nextId, FiredNext(After(Adding(before, timeout, later)));
            NoDup(fired) && (id in fired <==> Spans(timeout, Ticks(later)))
  {
    var all := Adding(before, timeout, later);
    RunRefines(all);
    Countdown(before, timeout, later);
    TickRefines(After(all).cur, After(all).slots, Due(all));
  }

  /** Nor is it fired before it was added: a tick fires only timers that were added. */
  lemma FiresOnlyAdded(calls: seq<Call>, id: Id)
    requires id in FiredNext(After(calls))
    ensures id < After(calls).nextId
  {
    RunRefines(calls);
    TickRefines(After(calls).cur, After(calls).slots, Due(calls));
  }

  class TimerWheel {
    var cur: nat
    var wheel: seq<seq<Timer>>
    var nextId: Id                 // timers are told apart by the order they were made in
    ghost var due: map<Id, nat>

    ghost function Abs(): Wheel reads this { Wheel(cur, wheel, nextId) }

    ghost predicate Valid()
      reads this
    {
      Stands(Abs(), due)
    }

    constructor ()
      ensures Valid() && Abs() == Start() && due == map[]
    {
      cur, wheel, nextId, due := 0, seq(N, _ => []), 0, map[];
    }

    /** A timer for `timeout` seconds from now. */
    method AddTimer(timeout: int) returns (r: Option<Id>)
      requires Valid()
      modifies this
      ensures Valid() && Abs() == Added(old(Abs()), timeout)
      ensures r == if timeout < 0 then None else Some(old(nextId))
      ensures due == if timeout < 0 then old(due) else old(due)[old(nextId) := TicksFor(timeout)]
    {
      AddedStands(Abs(), due, timeout);
      if timeout < 0 { return None; }
      var ticks: nat := if timeout < INTERVAL then 1 else timeout / INTERVAL;
      var rotation, ts := ticks / N, (cur + ticks % N) % N;
      var id := nextId;
      wheel := wheel[ts := [Timer(id, rotation)] + wheel[ts]];
      due := due[id := ticks];
      nextId := nextId + 1;
      r := Some(id);
    }

    /** The timers whose countdown is over fire, each once, and the wheel moves on. */
    method Tick() returns (fired: seq<Id>)
      requires Valid()
      modifies this
      ensures Valid() && Abs() == Turned(old(Abs())) && due == AfterTick(old(due))
      ensures fired == FiredNext(old(Abs())) && NoDup(fired) && forall id :: id in fired <==> Fires(old(due), id)
    {
      TickRefines(cur, wheel, due);
      var kept;
      kept, fired := Sweep(wheel[cur]);
      wheel := wheel[cur := kept];
      cur := (cur + 1) % N;
      due := AfterTick(due);
    }

    static method Sweep(l: seq<Timer>) returns (kept: seq<Timer>, fired: seq<Id>)
      ensures kept == Kept(l) && fired == Fired(l)
    {
      kept, fired := [], [];
      var i := 0;
      while i < |l|
        invariant 0 <= i <= |l| && kept + Kept(l[i..]) == Kept(l) && fired + Fired(l[i..]) == Fired(l)
      {
        assert l[i..][0] == l[i] && l[i..][1..] == l[i + 1..];
        if l[i].rotation > 0 {
          kept := kept + [l[i].(rotation := l[i].rotation - 1)];
        } else {
          fired := fired + [l[i].id];
        }
        i := i + 1;
      }
      assert kept + [] == kept && fired + [] == fired;
    }
  }
}
