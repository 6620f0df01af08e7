/** Interrupts inside a call. tss_task_sleep, tss_task_yield and tss_task_exit do not mask interrupts, and tss_task_init masks
    them only while it makes the task ready: the timer, and handlers that notify a semaphore, can run between their parts.
    (Mutex, semaphore and tick mask them.) */
module Preemption {
  import opened Wrappers
  import opened IntrusiveList
  import opened Scheduler
  import opened SchedulerInvariant
  import Linked

  /** The calls that can be interrupted. Each takes the caller off ready_list, then places it, then dispatches. */
  datatype Call = Sleeping(ms: nat) | Yielding | Exiting(takes: seq<nat>)

  // What the caller answers for, as in Scheduler.Enabled; yield goes past its test only with a second ready task.
  predicate CanBegin(s: Sched, c: Call)
    requires Shape(s)
  {
    match c
    case Sleeping(ms) => Enabled(s, DoSleep(ms))
    case Yielding => s.running != IDLE && |s.queues[READY]| > 1
    case Exiting(takes) => Enabled(s, DoExit(takes))
  }

  // The call without interruption.
  function OpOf(c: Call): Op {
    match c
    case Sleeping(ms) => DoSleep(ms)
    case Yielding => DoYield
    case Exiting(takes) => DoExit(takes)
  }

  // The first list operation.
  function Lift(s: Sched): (r: Sched)
    requires Shape(s)
    ensures Shape(r)
  {
    Take(s, READY, s.running)
  }

  // The second one, for caller t: onto sleep_list, onto ready_list again, or clearing the slot.
  function Place(s: Sched, c: Call, t: nat): (r: Sched)
    requires Shape(s) && t < |s.ticks|
    ensures Shape(r)
  {
    match c
    case Sleeping(ms) => Put(s.(sleep := s.sleep[t := ms]), SLEEPING, t)
    case Yielding => Put(s, READY, t)
    case Exiting(_) => Clear(s, t)
  }

  /** Uninterrupted, and with the mutexes of tss_task_destroy free, the three parts are the whole call. */
  lemma PartsAreStep(s: Sched, c: Call)
    requires Inv(s) && CanBegin(s, c)
    ensures Step(s, OpOf(c)) == Dispatch(Place(Lift(s), c, s.running))
  {
    if c.Exiting? {
      ExitTakesNone(s, c.takes);
    }
    hide InTable, Without, Placed, CountersOk, MutexOk, SemOk, TakeEach, Exit;
  }

  // ---- a tick between the first and the second list operation

  // s with another ready_list and another running task.
  function Instead(s: Sched, ready: seq<nat>, running: nat): Sched
    requires Shape(s)
  {
    s.(queues := s.queues[READY := ready], running := running)
  }

  lemma LiftIs(s: Sched)
    requires Inv(s) && s.running != IDLE
    ensures s.queues[READY] != [] && s.queues[READY][0] == s.running
    ensures Lift(s) == Instead(s, s.queues[READY][1..], s.running)
    ensures s.running in s.live && forall i | 0 <= i < |s.queues| :: s.running !in Lift(s).queues[i]
  {
    WithoutHead(s.queues[READY]);
    RunningLive(s);
    PlacedDistinct(s, READY);
    PlacedMeans(s, READY, s.running);
  }

  // The walk over sleep_list sees neither ready_list, to which it appends, nor the running task.
  lemma {:induction false} WalkInstead(s: Sched, ready: seq<nat>, running: nat, k: nat) returns (extra: seq<nat>)
    requires Shape(s) && Shape(Instead(s, ready, running))
    ensures Walk(s, k) == Instead(Walk(s, k), s.queues[READY] + extra, s.running)
    ensures Walk(Instead(s, ready, running), k) == Instead(Walk(s, k), ready + extra, running)
    decreases |s.queues[SLEEPING]| - k
  {
    var r := Instead(s, ready, running);
    if k >= |s.queues[SLEEPING]| {
      extra := [];
      assert s.queues[READY] + [] == s.queues[READY] && ready + [] == ready;
    } else {
      var t := s.queues[SLEEPING][k];
      var s1, r1 := s.(sleep := s.sleep[t := Dec(s.sleep[t])]), r.(sleep := s.sleep[t := Dec(s.sleep[t])]);
      assert r1 == Instead(s1, ready, running);
      if s1.sleep[t] == 0 {
        extra := if t == IDLE then [] else [t];
        WakeInstead(s1, ready, running, t);
      } else {
        hide InTable, Without, Take, SetReady;
        extra := WalkInstead(s1, ready, running, k + 1);
      }
    }
  }

  lemma WakeInstead(s: Sched, ready: seq<nat>, running: nat, t: nat)
    requires Shape(s) && Shape(Instead(s, ready, running)) && t < |s.ticks|
    ensures var (r, extra) := (SetReady(Take(s, SLEEPING, t), t), if t == IDLE then [] else [t]);
      && r == Instead(r, s.queues[READY] + extra, s.running)
      && SetReady(Take(Instead(s, ready, running), SLEEPING, t), t) == Instead(r, ready + extra, running)
  {
    hide InTable, Without;
    assert s.queues[READY] + [] == s.queues[READY] && ready + [] == ready;
  }

  lemma WalkLifted(s: Sched)
    requires Inv(s) && s.running != IDLE
    ensures var w := Walk(s, 0);
      && Inv(w) && w == s.(queues := w.queues, sleep := w.sleep) && Walk(Lift(s), 0) == Lift(w)
      && |w.queues[READY]| >= |s.queues[READY]|
  {
    var q, t, w := s.queues[READY], s.running, Walk(s, 0);
    LiftIs(s);
    WalkInv(s);
    LiftIs(w);
    hide Walk, Inv, Lift, InTable;
    var extra := WalkInstead(s, q[1..], t, 0);
    assert w.queues[READY] == q + extra;
    RestOf(q, extra);
    hide Instead;
  }

  lemma RestOf(q: seq<nat>, extra: seq<nat>)
    requires q != []
    ensures (q + extra)[1..] == q[1..] + extra && |q + extra| >= |q|
  {
  }

  lemma AccountLifted(s: Sched)
    requires Inv(s) && s.running != IDLE && s.ticks[s.running] != 1
    ensures Account(Lift(s)) == Lift(Account(s))
    ensures s.ticks[s.running] >= 1 && Account(s) == s.(ticks := s.ticks[s.running := s.ticks[s.running] - 1])
  {
    RunningLive(s);
    assert CountersOk(s);
    hide InTable, Without, Placed, MutexOk, SemOk, CountersOk, RunningOk;
  }

  /** A tick that does not use up the caller's slice commutes with the first list operation: the call might as well
      have started after it. */
  lemma TickLifted(s: Sched)
    requires Inv(s) && s.running != IDLE && s.ticks[s.running] != 1
    ensures Inv(Tick(s)) && Tick(Lift(s)) == Lift(Tick(s)) && Tick(s).running == s.running
    ensures Tick(s).ticks[s.running] + 1 == s.ticks[s.running] && Tick(s).mutexes == s.mutexes
    ensures |Tick(s).queues[READY]| >= |s.queues[READY]|
  {
    TickInv(s);
    WalkLifted(s);
    AccountLifted(Walk(s, 0));
    hide Walk, Account, Inv, Lift;
  }

  lemma StillCan(s: Sched, c: Call)
    requires Inv(s) && CanBegin(s, c) && s.ticks[s.running] != 1
    ensures CanBegin(Tick(s), c)
  {
    hide Tick, Inv, Lift, InTable;
    InvShape(s);
    TickLifted(s);
    InvShape(Tick(s));
  }

  // The lists at the end of the walk.
  lemma LiftedRequeues(s: Sched)
    requires Inv(s) && s.running != IDLE
    ensures Linked.Requeues(Walk(Lift(s), 0)) <==> s.ticks[s.running] != 1
    ensures Linked.Apart(Lift(s).queues) && Linked.NoneHas(Lift(s).queues, IDLE)
  {
    WalkLifted(s);
    LiftIs(Walk(s, 0));
    Linked.PlacedApart(s);
    Linked.TakeApart(s, READY, s.running);
    hide Walk, Inv, InTable, Linked.Apart;
  }

  /** A tick between the two list operations leaves the lists sound if and only if it does not use up the caller's slice.
      Then the call might as well begin after it. */
  lemma TickInsideExactly(x: Linked.Raw, s: Sched, c: Call)
    requires Inv(s) && CanBegin(s, c) && Linked.Shows(x, Lift(s))
    ensures |x.ends| >= 2 && x.rest.running < |x.rest.ticks|
    ensures Linked.Sound(Linked.Tick(x)) <==> s.ticks[s.running] != 1
    ensures s.ticks[s.running] != 1 ==>
      Linked.Shows(Linked.Tick(x), Lift(Tick(s))) && Inv(Tick(s)) && CanBegin(Tick(s), c) && Tick(s).running == s.running
  {
    LiftedRequeues(s);
    Linked.TickExactly(x, Lift(s));
    if s.ticks[s.running] != 1 {
      TickLifted(s);
      StillCan(s, c);
    }
    hide *;
  }

  lemma InvPlaced(s: Sched)
    requires Inv(s)
    ensures Placed(s)
  {
  }

  // r is s after n ticks, by which the caller has not used up its slice.
  ghost predicate Later(s: Sched, r: Sched, c: Call, n: nat) {
    && Shape(s) && Inv(r) && CanBegin(r, c) && Ticked(s, n) == r && Ticked(Lift(s), n) == Lift(r)
    && r.running == s.running < |s.ticks| && |r.ticks| == |s.ticks| && r.ticks[s.running] + n == s.ticks[s.running]
  }

  lemma LaterStart(s: Sched, c: Call)
    requires Inv(s) && CanBegin(s, c)
    ensures Later(s, Ticked(s, 0), c, 0) && 1 <= s.ticks[s.running] <= TICKS
  {
    Begun(s, c);
    TickedStep(s, 0);
    hide Ticked;
  }

  lemma LaterTick(s: Sched, r: Sched, c: Call, n: nat)
    requires Later(s, r, c, n) && r.ticks[s.running] != 1
    ensures Later(s, Tick(r), c, n + 1)
  {
    Begun(r, c);
    TickLifted(r);
    StillCan(r, c);
    TickedStep(s, n + 1);
    TickedStep(Lift(s), n + 1);
    hide Inv, Tick, Lift, CanBegin, Ticked, Shape;
  }

  lemma LaterGoesOn(s: Sched, c: Call, n: nat)
    requires Inv(s) && Later(s, Ticked(s, n), c, n) && n + 1 < s.ticks[s.running]
    ensures Later(s, Ticked(s, n + 1), c, n + 1)
  {
    TickedStep(s, n + 1);
    hide Inv, CanBegin, Tick, Lift, Ticked, InTable;
    LaterTick(s, Ticked(s, n), c, n);
  }

  lemma {:induction false} TicksLifted(s: Sched, c: Call, n: nat)
    requires Inv(s) && CanBegin(s, c) && n < s.ticks[s.running]
    ensures Later(s, Ticked(s, n), c, n)
    decreases n
  {
    hide *;
    if n == 0 {
      LaterStart(s, c);
    } else {
      TicksLifted(s, c, n - 1);
      LaterGoesOn(s, c, n - 1);
    }
  }

  lemma TickedStep(s: Sched, n: nat)
    requires Shape(s)
    ensures Ticked(s, n) == if n == 0 then s else Tick(Ticked(s, n - 1))
  {
  }

  lemma {:induction false} TickedFrom(s: Sched, n: nat)
    requires Shape(s)
    ensures Ticked(Tick(s), n) == Ticked(s, n + 1)
    decreases n
  {
    hide Tick, InTable;
    if n == 0 {
    } else {
      TickedFrom(s, n - 1);
    }
  }

  lemma Begun(s: Sched, c: Call)
    requires Inv(s) && CanBegin(s, c)
    ensures s.running != IDLE && s.running < |s.ticks| && 1 <= s.ticks[s.running] <= TICKS
  {
    RunningLive(s);
  }

  // The state of call c after n ticks between its first two operations, and the second.
  function After(s: Sched, c: Call, n: nat): (r: Sched)
    requires Shape(s)
    ensures Shape(r)
  {
    Place(Ticked(Lift(s), n), c, s.running)
  }

  /** With ticks there that leave some of the slice, the call has the effect of starting after them. */
  lemma TicksBefore(s: Sched, c: Call, n: nat)
    requires Inv(s) && CanBegin(s, c) && n < s.ticks[s.running]
    ensures Placed(After(s, c, n))
    ensures Inv(Ticked(s, n)) && CanBegin(Ticked(s, n), c)
    ensures Dispatch(After(s, c, n)) == Step(Ticked(s, n), OpOf(c))
  {
    TicksLifted(s, c, n);
    var r := Ticked(s, n);
    PartsAreStep(r, c);
    PlacedAtOnce(r, c);
    hide Inv, Tick, Lift, Place, Placed, CanBegin, Ticked, Shape, Step, Dispatch, OpOf, Calm;
  }

  // n ticks on the pointers; none once the running task is not one of the table.
  function TickedLinks(x: Linked.Raw, n: nat): Linked.Raw
    decreases n
  {
    if n == 0 then x else
      var y := TickedLinks(x, n - 1);
      if |y.ends| >= 2 && y.rest.running < |y.rest.ticks| then Linked.Tick(y) else y
  }

  lemma {:induction false} TickedShows(x: Linked.Raw, s: Sched, c: Call, n: nat)
    requires Inv(s) && CanBegin(s, c) && Linked.Shows(x, Lift(s)) && n < s.ticks[s.running]
    ensures Later(s, Ticked(s, n), c, n) && Linked.Shows(TickedLinks(x, n), Lift(Ticked(s, n)))
    decreases n
  {
    hide *;
    TicksLifted(s, c, n);
    if n == 0 {
      NoTicks(x, s);
    } else {
      TickedShows(x, s, c, n - 1);
      NextTick(x, s, c, n - 1);
    }
  }

  lemma NoTicks(x: Linked.Raw, s: Sched)
    requires Inv(s)
    ensures TickedLinks(x, 0) == x && Ticked(s, 0) == s
  {
  }

  lemma NextTick(x: Linked.Raw, s: Sched, c: Call, n: nat)
    requires Inv(s) && Later(s, Ticked(s, n), c, n) && Linked.Shows(TickedLinks(x, n), Lift(Ticked(s, n)))
    ensures Linked.Sound(TickedLinks(x, n + 1)) <==> n + 1 < s.ticks[s.running]
    ensures n + 1 < s.ticks[s.running] ==> Linked.Shows(TickedLinks(x, n + 1), Lift(Ticked(s, n + 1)))
  {
    Begun(Ticked(s, n), c);
    TickedStep(s, n + 1);
    TickInsideExactly(TickedLinks(x, n), Ticked(s, n), c);
    hide Inv, Lift, CanBegin, Tick, Linked.Tick, Linked.Sound, Linked.Shows;
  }

  /** Any number of ticks there: the lists are still sound if and only if the slice outlasts them. */
  lemma TicksInsideExactly(x: Linked.Raw, s: Sched, c: Call, n: nat)
    requires Inv(s) && CanBegin(s, c) && Linked.Shows(x, Lift(s)) && n <= s.ticks[s.running]
    ensures Linked.Sound(TickedLinks(x, n)) <==> n < s.ticks[s.running]
  {
    hide *;
    Begun(s, c);
    if n < s.ticks[s.running] {
      TickedShows(x, s, c, n);
      LaterSound(x, s, c, n);
    } else {
      LastTick(x, s, c, n - 1);
    }
  }

  lemma LastTick(x: Linked.Raw, s: Sched, c: Call, n: nat)
    requires Inv(s) && CanBegin(s, c) && Linked.Shows(x, Lift(s)) && n + 1 == s.ticks[s.running]
    ensures !Linked.Sound(TickedLinks(x, n + 1))
  {
    hide *;
    TickedShows(x, s, c, n);
    NextTick(x, s, c, n);
  }

  lemma LaterSound(x: Linked.Raw, s: Sched, c: Call, n: nat)
    requires Inv(s) && Later(s, Ticked(s, n), c, n) && Linked.Shows(TickedLinks(x, n), Lift(Ticked(s, n)))
    ensures Linked.Sound(TickedLinks(x, n))
  {
    Begun(Ticked(s, n), c);
    LiftedRequeues(Ticked(s, n));
    hide Inv, CanBegin, Ticked, Lift, Linked.Shows, Linked.Apart;
  }

  lemma PlacedAtOnce(s: Sched, c: Call)
    requires Inv(s) && CanBegin(s, c)
    ensures Placed(Place(Lift(s), c, s.running)) && Calm(Place(Lift(s), c, s.running))
  {
    PartsAreStep(s, c);
    StepInv(s, OpOf(c));
    var (r, d) := (Place(Lift(s), c, s.running), Step(s, OpOf(c)));
    hide Place, Lift, Step, Queued, InTable;
    assert r == d.(running := r.running);
    CalmAnyRunning(d, r);
  }

  lemma CalmAnyRunning(s: Sched, r: Sched)
    requires Calm(s) && Shape(r) && r == s.(running := r.running)
    ensures Calm(r)
  {
    forall m: nat | m < |r.mutexes|
      ensures MutexOk(r, m)
    {
      assert MutexOk(s, m);
    }
    forall j: nat | j < |r.sems|
      ensures SemOk(r, j)
    {
      assert SemOk(s, j);
    }
  }

  /** A handler that notifies a semaphore between the two list operations is harmless exactly when nobody waits there;
      otherwise it dispatches, and the caller is in no list and never runs again. */
  lemma NotifyInsideExactly(s: Sched, j: nat)
    requires Inv(s) && s.running != IDLE && j < |s.sems|
    ensures var r := Notify(Lift(s), j);
      if s.queues[SemQueue(s, j)] == [] then r == Lift(Notify(s, j)) && r.running == s.running
      else r.running != s.running && s.running in r.live && forall i | 0 <= i < |r.queues| :: s.running !in r.queues[i]
  {
    LiftIs(s);
    var (t, i, q) := (s.running, SemQueue(s, j), s.queues[SemQueue(s, j)]);
    if q != [] {
      PlacedMeans(s, i, q[0]);
      assert q[0] in Lift(s).queues[i] && t !in Lift(s).queues[i];
      hide Lift, Inv, InTable, Without;
      var r := Notify(Lift(s), j);
      assert r.queues[READY] == Lift(s).queues[READY] + [q[0]];
      assert r.running == r.queues[READY][0];
    } else {
      hide InTable, Without, Inv;
    }
  }

  // ---- between the second list operation and the dispatch

  // The next tick wakes t: it is the first sleeper whose counter is 1.
  predicate WakesNow(s: Sched, t: nat)
    requires Shape(s)
  {
    var q := s.queues[SLEEPING];
    assert forall i | 0 <= i < |q| :: q[i] < |s.sleep|;
    var w := Waker(s.sleep, q, 0);
    w < |q| && q[w] == t
  }

  // A tick that uses up the running task's slice finds it on ready_list, or leaves it some.
  predicate Safe(s: Sched)
    requires Shape(s)
  {
    s.running == IDLE || s.ticks[s.running] != 1 || s.running in s.queues[READY] || WakesNow(s, s.running)
  }

  // What the walk does to a state in which only the place of the running task is unusual.
  lemma WalkCalm(s: Sched)
    requires Calm(s)
    ensures var w := Walk(s, 0);
      && Calm(w) && w == s.(queues := w.queues, sleep := w.sleep)
      && (s.running in w.queues[READY] <==> s.running in s.queues[READY] || (s.running != IDLE && WakesNow(s, s.running)))
  {
    var d := Dispatch(s);
    DispatchInv(s);
    assert d == Instead(s, s.queues[READY], d.running);
    WalkInv(d);
    var w := Walk(s, 0);
    SleepersDistinct(d);
    WalkWakesFirst(s, 0);
    WokenOnes(s);
    hide Walk, Inv, InTable, Dispatch, WakesNow;
    var extra := WalkInstead(s, s.queues[READY], d.running, 0);
    CalmAnyRunning(Walk(d, 0), w);
  }

  // ready_list after the walk.
  lemma WokenOnes(s: Sched)
    requires Shape(s)
    ensures s.running in WalkEnd(s, 0).queues[READY] <==> s.running in s.queues[READY] || (s.running != IDLE && WakesNow(s, s.running))
  {
    hide InTable, Without, Lowered;
  }

  lemma CalmTicks(s: Sched, t: nat, v: nat)
    requires Calm(s) && t < |s.ticks| && t != IDLE && (t in s.live ==> 1 <= v <= TICKS)
    ensures Calm(s.(ticks := s.ticks[t := v]))
  {
    var r := s.(ticks := s.ticks[t := v]);
    assert CountersOk(r);
    hide CountersOk, InTable, Queued;
    MoveCalm(s, r, SLEEPING);
  }

  // The running task goes to the back of ready_list from wherever it is there.
  lemma RotateAny(s: Sched, t: nat)
    requires Calm(s) && t in s.queues[READY] && t < |s.ticks|
    ensures Calm(Put(Take(s, READY, t), READY, t))
  {
    var r := Put(Take(s, READY, t), READY, t);
    assert r == s.(queues := s.queues[READY := Without(s.queues[READY], t) + [t]]);
    assert CountersOk(r);
    assert multiset(r.queues[READY]) == multiset(s.queues[READY]);
    hide Put, Take, CountersOk, Queued, Without, InTable;
    MoveCalm(s, r, SLEEPING);
  }

  // The slice is used up: the caller is taken off ready_list and put on it.
  lemma RequeueAfter(s: Sched)
    requires Calm(s) && s.running != IDLE && s.running in s.queues[READY]
    ensures Calm(Dispatch(SetReady(SetBlock(s, s.running), s.running)))
  {
    var t := s.running;
    var r := Put(Take(s, READY, t), READY, t);
    assert Dispatch(SetReady(SetBlock(s, t), t)) == Dispatch(r);
    RotateAny(s, t);
    DispatchInv(r);
    InvCalm(Dispatch(r));
    hide *;
  }

  lemma AccountIs(s: Sched)
    requires Shape(s) && s.running != IDLE
    ensures var (t, v) := (s.running, Dec(s.ticks[s.running]));
      Account(s) == if v == 0 then
        Dispatch(SetReady(SetBlock(s.(ticks := s.ticks[t := TICKS]), t), t)) else s.(ticks := s.ticks[t := v])
  {
  }

  lemma LiveSlice(s: Sched)
    requires Calm(s) && s.running in s.live
    ensures 1 <= s.ticks[s.running] <= TICKS
  {
  }

  // The second half of the tick there.
  lemma AccountAfter(s: Sched)
    requires Calm(s) && Linked.Requeues(s) && s.running != IDLE
    ensures Calm(Account(s))
  {
    var (t, v) := (s.running, Dec(s.ticks[s.running]));
    AccountIs(s);
    if t in s.live {
      LiveSlice(s);
    }
    CalmTicks(s, t, if v == 0 then TICKS else v);
    hide Account, Calm, Placed, InTable, SetReady, SetBlock, Dispatch;
    if v == 0 {
      RequeueAfter(s.(ticks := s.ticks[t := TICKS]));
    }
  }

  /** A tick between the second list operation and the dispatch leaves the lists sound if and only if it leaves the caller
      some of its slice, or finds it on ready_list or wakes it: otherwise list_remove takes the caller from whatever list it
      is in, and ready_list counts it. */
  lemma TickAfterExactly(x: Linked.Raw, s: Sched)
    requires Calm(s) && s.running != IDLE && Linked.Shows(x, s)
    ensures |x.ends| >= 2 && x.rest.running < |x.rest.ticks|
    ensures Linked.Sound(Linked.Tick(x)) <==> Safe(s)
    ensures Safe(s) ==> Linked.Shows(Linked.Tick(x), Tick(s)) && Calm(Tick(s))
  {
    WalkCalm(s);
    Linked.PlacedApart(s);
    Linked.TickExactly(x, s);
    hide Walk, Account, Calm, Placed, WakesNow, InTable, Linked.Tick, Linked.Shows, Linked.Sound, Linked.Requeued;
    if Safe(s) {
      AccountAfter(Walk(s, 0));
    }
  }

  lemma SafeCalm(s: Sched)
    requires Calm(s) && s.running != IDLE && Safe(s)
    ensures Calm(Tick(s))
  {
    WalkCalm(s);
    hide Walk, Account, Calm, Placed, WakesNow, InTable;
    AccountAfter(Walk(s, 0));
  }

  /** A handler that notifies there is harmless. */
  lemma NotifyAfter(s: Sched, j: nat)
    requires Calm(s) && j < |s.sems|
    ensures Calm(Notify(s, j))
    ensures s.queues[SemQueue(s, j)] != [] ==> Inv(Notify(s, j))
  {
    var (d, r) := (Dispatch(s), Notify(s, j));
    DispatchInv(s);
    NotifyInv(d, j);
    hide Inv, Calm, InTable;
    if s.queues[SemQueue(s, j)] != [] {
      assert Notify(d, j) == r;
      InvCalm(r);
    } else {
      InvCalm(Notify(d, j));
      CalmAnyRunning(Notify(d, j), r);
    }
  }

  lemma InvCalm(s: Sched)
    requires Inv(s)
    ensures Calm(s)
  {
  }

  /** A caller that was switched away from before its dispatch loses nothing: when it runs again, it heads ready_list. */
  lemma DispatchAgain(s: Sched)
    requires Inv(s) && s.running != IDLE
    ensures Dispatch(s) == s
  {
  }


  // ---- in tss_task_init

  // t is not asleep: the walk does not see what tss_task_init has still to store.
  lemma {:induction false} WalkFurnish(s: Sched, t: nat, k: nat)
    requires Shape(s) && t < |s.ticks| && t !in s.queues[SLEEPING]
    ensures Walk(Furnish(s, t), k) == Furnish(Walk(s, k), t) && Walk(s, k).running == s.running
    ensures Walk(s, k).ticks == s.ticks
    decreases |s.queues[SLEEPING]| - k
  {
    if k >= |s.queues[SLEEPING]| {
    } else {
      var u := s.queues[SLEEPING][k];
      var s1 := s.(sleep := s.sleep[u := Dec(s.sleep[u])]);
      assert u != t && Furnish(s1, t) == Furnish(s, t).(sleep := Furnish(s, t).sleep[u := Dec(s.sleep[u])]);
      hide InTable, Take, SetReady;
      if s1.sleep[u] == 0 {
        WakeFurnish(s1, t, u);
      } else {
        WalkFurnish(s1, t, k + 1);
      }
    }
  }

  lemma WakeFurnish(s: Sched, t: nat, u: nat)
    requires Shape(s) && t < |s.ticks| && u < |s.ticks|
    ensures var r := SetReady(Take(s, SLEEPING, u), u);
      && SetReady(Take(Furnish(s, t), SLEEPING, u), u) == Furnish(r, t) && r.ticks == s.ticks && r.running == s.running
  {
    hide InTable, Without;
  }

  lemma AccountFurnish(s: Sched, t: nat)
    requires Shape(s) && t < |s.ticks| && t != s.running
    ensures Account(Furnish(s, t)) == Furnish(Account(s), t) && Account(s).ticks[t] == s.ticks[t]
  {
    hide InTable, Without;
    var v := Dec(s.ticks[s.running]);
    var w := if v == 0 then TICKS else v;
    assert s.ticks[s.running := w][t := TICKS] == s.ticks[t := TICKS][s.running := w];
  }

  /** While another task runs, a tick and the stores of tss_task_init commute. */
  lemma TickFurnish(s: Sched, t: nat)
    requires Shape(s) && t < |s.ticks| && t != s.running && t !in s.queues[SLEEPING]
    ensures Tick(Furnish(s, t)) == Furnish(Tick(s), t) && Tick(s).ticks[t] == s.ticks[t]
  {
    hide Walk, Account, Furnish, InTable;
    WalkFurnish(s, t, 0);
    AccountFurnish(Walk(s, 0), t);
    FurnishedShape(s, t);
  }

  lemma FurnishedShape(s: Sched, t: nat)
    requires Shape(s) && t < |s.ticks|
    ensures var r := Furnish(s, t);
      r.queues == s.queues && r.running == s.running && r.live == s.live && r.mutexes == s.mutexes && r.sems == s.sems
  {
  }

  lemma NotifyFurnish(s: Sched, t: nat, j: nat)
    requires Shape(s) && t < |s.ticks| && j < |s.sems|
    ensures Notify(Furnish(s, t), j) == Furnish(Notify(s, j), t)
  {
    hide InTable;
  }

  // ---- runs with interrupts anywhere

  /** Where the running task is: in no such call; off ready_list inside call c, with the mutexes of tss_task_destroy that
      are left to take and whether it holds the first of them; before its dispatch; or before the stores that complete
      task t. */
  datatype Phase = Whole | Inside(c: Call, left: seq<nat>, held: bool) | Ending | Making(t: nat)

  datatype State = State(s: Sched, phase: Phase)

  /** DoCall is a call that masks interrupts; Begin, Second and Finish are the three parts of one that does not, TakeMutex and
      GiveMutex what tss_task_exit does before the second; Make and Complete are the parts of tss_task_init; the timer and
      handlers that notify come at any time. */
  datatype Act =
    | DoCall(op: Op)
    | Begin(c: Call)
    | TakeMutex
    | GiveMutex
    | Second
    | Finish
    | Make(t: nat)
    | Complete
    | Timer
    | Handler(j: nat)

  predicate Masked(op: Op) { op.DoLock? || op.DoUnlock? || op.DoWait? || op.DoNotify? }

  /** What the code answers for, and the conditions above under which an interrupt does no harm. */
  predicate Possible(x: State, a: Act)
    requires Shape(x.s)
  {
    match a
    case DoCall(op) => x.phase.Whole? && Masked(op) && Enabled(x.s, op)
    case Begin(c) => x.phase.Whole? && CanBegin(x.s, c)
    case TakeMutex => x.phase.Inside? && !x.phase.held && x.phase.left != [] && x.phase.left[0] < |x.s.mutexes|
    case GiveMutex => x.phase.Inside? && x.phase.held && x.phase.left != [] && x.phase.left[0] < |x.s.mutexes|
    case Second => x.phase.Inside? && !x.phase.held && x.phase.left == []
    case Finish => x.phase.Ending?
    case Make(t) => x.phase.Whole? && Enabled(x.s, DoCreate(t)) && x.s.running != IDLE
    case Complete => x.phase.Making? && x.phase.t < |x.s.ticks|
    case Timer => x.phase.Whole? || (if x.phase.Ending? then Safe(x.s) else x.s.ticks[x.s.running] != 1)
    case Handler(j) => j < |x.s.sems| && (x.phase.Inside? ==> x.s.queues[SemQueue(x.s, j)] == [])
  }

  // The mutexes a call takes inside.
  function Takes(c: Call): seq<nat> { if c.Exiting? then c.takes else [] }

  function Advance(x: State, a: Act): (r: State)
    requires Shape(x.s) && Possible(x, a)
    ensures Shape(r.s)
  {
    match a
    case DoCall(op) => State(Scheduler.Step(x.s, op), Whole)
    case Begin(c) => State(Lift(x.s), Inside(c, Takes(c), false))
    case TakeMutex => State(Lock(x.s, x.phase.left[0]), x.phase.(held := true))
    case GiveMutex => State(Unlock(x.s, x.phase.left[0]), Inside(x.phase.c, x.phase.left[1..], false))
    case Second => State(Place(x.s, x.phase.c, x.s.running), Ending)
    case Finish => State(Dispatch(x.s), Whole)
    case Make(t) => State(Enlist(x.s, t), Making(t))
    case Complete => State(Furnish(x.s, x.phase.t), Whole)
    case Timer =>
      // A caller switched away from before its dispatch has nothing left to do.
      State(Tick(x.s), if x.phase.Ending? && x.s.ticks[x.s.running] == 1 then Whole else x.phase)
    case Handler(j) =>
      State(Notify(x.s, j), if x.phase.Ending? && x.s.queues[SemQueue(x.s, j)] != [] then Whole else x.phase)
  }

  predicate PossibleRun(x: State, acts: seq<Act>)
    requires Shape(x.s)
    decreases |acts|
  {
    acts != [] ==> Possible(x, acts[0]) && PossibleRun(Advance(x, acts[0]), acts[1..])
  }

  function AdvanceAll(x: State, acts: seq<Act>): (r: State)
    requires Shape(x.s) && PossibleRun(x, acts)
    ensures Shape(r.s)
    decreases |acts|
  {
    if acts == [] then x else AdvanceAll(Advance(x, acts[0]), acts[1..])
  }

  // The caller back at the head of ready_list.
  function Back(s: Sched): (r: Sched)
    requires Shape(s)
    ensures Shape(r)
  {
    Instead(s, [s.running] + s.queues[READY], s.running)
  }

  // Mutex m is free, or the first one left to give back.
  predicate Ours(b: Sched, left: seq<nat>, held: bool, m: nat)
    requires Shape(b) && m < |b.mutexes|
  {
    if held && left != [] && m == left[0]
    then b.mutexes[m] == MutexState(Some(b.running), 1) && b.queues[MutexQueue(m)] == []
    else b.mutexes[m].owner != Some(b.running)
  }

  /** The caller can go on with call c from b: it owns the mutex it holds and no other, and the rest are nobody's. */
  ghost predicate GoesOn(b: Sched, c: Call, left: seq<nat>, held: bool)
    requires Shape(b)
  {
    && b.running != IDLE && HasMutexes(b, left) && (held ==> left != [])
    && (!c.Exiting? ==> CanBegin(b, c) && left == [] && !held)
    && (c.Exiting? ==>
          && (forall m: nat | m < |b.mutexes| :: Ours(b, left, held, m))
          && (forall k | 0 <= k < |left| :: b.mutexes[left[k]].locker == 0 || (held && left[k] == left[0])))
  }

  ghost predicate Good(x: State) {
    && Shape(x.s)
    && match x.phase
       case Whole => Inv(x.s)
       case Inside(c, left, held) => Inv(Back(x.s)) && GoesOn(Back(x.s), c, left, held) && Lift(Back(x.s)) == x.s
       case Ending => Calm(x.s) && x.s.running != IDLE
       case Making(t) => t < |x.s.ticks| && Inv(Furnish(x.s, t)) && x.s.running != IDLE && x.s.running != t && t in x.s.queues[READY]
  }

  lemma LiftBack(s: Sched)
    requires Inv(s) && s.running != IDLE
    ensures Back(Lift(s)) == s && Lift(Back(Lift(s))) == Lift(s)
  {
    LiftIs(s);
    var q := s.queues[READY];
    assert [q[0]] + q[1..] == q;
    hide Inv, InTable, Without, Lift;
  }

  lemma GoesOnAtFirst(b: Sched, c: Call)
    requires Inv(b) && CanBegin(b, c)
    ensures GoesOn(b, c, Takes(c), false)
  {
    hide Inv, InTable;
    InvShape(b);
  }

  // A lifted state is good.
  lemma InsideGood(b: Sched, c: Call, left: seq<nat>, held: bool)
    requires Inv(b) && GoesOn(b, c, left, held)
    ensures Good(State(Lift(b), Inside(c, left, held)))
  {
    LiftBack(b);
    hide Inv, Lift, Back, GoesOn;
  }

  lemma InsideTimer(s: Sched, c: Call, left: seq<nat>, held: bool)
    requires Good(State(s, Inside(c, left, held))) && s.ticks[s.running] != 1
    ensures Good(State(Tick(s), Inside(c, left, held)))
  {
    var b := Back(s);
    hide Inv, Lift, Tick;
    TickLifted(b);
    StillGoesOn(b, c, left, held);
    InsideGood(Tick(b), c, left, held);
  }

  lemma StillGoesOn(b: Sched, c: Call, left: seq<nat>, held: bool)
    requires Inv(b) && GoesOn(b, c, left, held) && b.ticks[b.running] != 1
    ensures Shape(Tick(b)) && GoesOn(Tick(b), c, left, held)
  {
    hide Inv, Lift, Tick, InTable;
    InvShape(b);
    TickLifted(b);
    TickQueues(b);
    if !c.Exiting? {
      StillCan(b, c);
    } else {
      forall m: nat | m < |b.mutexes|
        ensures Ours(Tick(b), left, held, m)
      {
        assert Ours(b, left, held, m);
      }
    }
  }

  lemma TickQueues(s: Sched)
    requires Inv(s)
    ensures |Tick(s).queues| == |s.queues| && Tick(s).sems == s.sems && Tick(s).mutexes == s.mutexes
    ensures forall i | 2 <= i < |s.queues| :: Tick(s).queues[i] == s.queues[i]
  {
    hide Walk, Waker, Lowered, Without, InTable, Inv, Distinct;
    InvShape(s);
    SleepersDistinct(s);
    WalkWakesFirst(s, 0);
  }

  lemma InsideHandler(s: Sched, c: Call, left: seq<nat>, held: bool, j: nat)
    requires Good(State(s, Inside(c, left, held))) && j < |s.sems| && s.queues[SemQueue(s, j)] == []
    ensures Good(State(Notify(s, j), Inside(c, left, held)))
  {
    var b := Back(s);
    hide Inv, Lift, InTable;
    NotifyInsideExactly(b, j);
    NotifyInv(b, j);
    NotifyGoesOn(b, c, left, held, j);
    InsideGood(Notify(b, j), c, left, held);
  }

  lemma NotifyGoesOn(b: Sched, c: Call, left: seq<nat>, held: bool, j: nat)
    requires Shape(b) && GoesOn(b, c, left, held) && j < |b.sems| && b.queues[SemQueue(b, j)] == []
    ensures GoesOn(Notify(b, j), c, left, held)
  {
    hide InTable;
    if c.Exiting? {
      forall m: nat | m < |b.mutexes|
        ensures Ours(Notify(b, j), left, held, m)
      {
        assert Ours(b, left, held, m);
      }
    }
  }

  lemma InsideTake(s: Sched, c: Call, left: seq<nat>)
    requires Good(State(s, Inside(c, left, false))) && left != [] && left[0] < |s.mutexes|
    ensures Good(State(Lock(s, left[0]), Inside(c, left, true)))
  {
    hide Inv, Lift, InTable, GoesOn, Ours, Lock;
    var (b, m) := (Back(s), left[0]);
    TakeReady(b, c, left);
    LockInv(b, m);
    LockLifted(b, m);
    TakeGoesOn(b, c, left);
    InsideGood(Lock(b, m), c, left, true);
  }

  lemma TakeReady(b: Sched, c: Call, left: seq<nat>)
    requires Inv(b) && GoesOn(b, c, left, false) && left != []
    ensures left[0] < |b.mutexes| && c.Exiting? && b.running != IDLE
    ensures b.mutexes[left[0]].locker == 0 && b.queues[MutexQueue(left[0])] == []
  {
    assert HasMutexes(b, left) && left[0] < |b.mutexes|;
    assert MutexOk(b, left[0]);
    hide InTable, Placed, CountersOk, Ours;
  }

  lemma TakeGoesOn(b: Sched, c: Call, left: seq<nat>)
    requires Inv(b) && GoesOn(b, c, left, false) && left != [] && left[0] < |b.mutexes|
    ensures GoesOn(Lock(b, left[0]), c, left, true)
  {
    TakeReady(b, c, left);
    hide Inv, InTable;
    var r := Lock(b, left[0]);
    assert r == b.(mutexes := b.mutexes[left[0] := MutexState(Some(b.running), 1)]);
    forall n: nat | n < |b.mutexes|
      ensures Ours(r, left, true, n)
    {
      assert Ours(b, left, false, n);
    }
  }

  lemma LockLifted(b: Sched, m: nat)
    requires Shape(b) && m < |b.mutexes| && b.mutexes[m].locker == 0
    ensures Lock(Lift(b), m) == Lift(Lock(b, m)) && Lock(b, m).running == b.running
  {
    hide InTable, Without;
  }

  lemma InsideGive(s: Sched, c: Call, left: seq<nat>)
    requires Good(State(s, Inside(c, left, true))) && left != [] && left[0] < |s.mutexes|
    ensures Good(State(Unlock(s, left[0]), Inside(c, left[1..], false)))
  {
    hide Inv, Lift, InTable, GoesOn, Ours, Unlock;
    var (b, m) := (Back(s), left[0]);
    GiveReady(b, c, left);
    UnlockInv(b, m);
    UnlockLifted(b, m);
    GiveGoesOn(b, c, left);
    InsideGood(Unlock(b, m), c, left[1..], false);
  }

  lemma GiveReady(b: Sched, c: Call, left: seq<nat>)
    requires Shape(b) && GoesOn(b, c, left, true)
    ensures left != [] && left[0] < |b.mutexes|
    ensures b.mutexes[left[0]] == MutexState(Some(b.running), 1) && b.queues[MutexQueue(left[0])] == []
  {
    assert HasMutexes(b, left) && left != [];
    assert c.Exiting? && Ours(b, left, true, left[0]);
  }

  lemma GiveGoesOn(b: Sched, c: Call, left: seq<nat>)
    requires Shape(b) && GoesOn(b, c, left, true) && left != [] && left[0] < |b.mutexes|
    ensures GoesOn(Unlock(b, left[0]), c, left[1..], false)
  {
    hide InTable;
    GiveReady(b, c, left);
    UnlockLifted(b, left[0]);
    var r := Unlock(b, left[0]);
    forall n: nat | n < |b.mutexes|
      ensures Ours(r, left[1..], false, n)
    {
      assert Ours(b, left, true, n);
    }
    forall k | 0 <= k < |left[1..]|
      ensures left[1..][k] < |r.mutexes| && r.mutexes[left[1..][k]].locker == 0
    {
      assert left[1..][k] == left[k + 1];
    }
    hide Unlock;
  }

  lemma UnlockLifted(b: Sched, m: nat)
    requires Shape(b) && m < |b.mutexes| && b.mutexes[m] == MutexState(Some(b.running), 1) && b.queues[MutexQueue(m)] == []
    ensures Unlock(Lift(b), m) == Lift(Unlock(b, m)) && Unlock(b, m) == b.(mutexes := b.mutexes[m := MutexState(None, 0)])
  {
    hide InTable, Without;
  }

  // With no mutex left, the call can be seen as one that takes none.
  function TakenAll(c: Call): Call { if c.Exiting? then Exiting([]) else c }

  lemma InsideSecond(s: Sched, c: Call)
    requires Good(State(s, Inside(c, [], false)))
    ensures Good(State(Place(s, c, s.running), Ending))
    ensures CanBegin(Back(s), TakenAll(c)) && Place(s, c, s.running) == Place(s, TakenAll(c), s.running)
  {
    hide Calm, Inv, Lift, InTable, GoesOn, Ours, CanBegin;
    SecondReady(Back(s), c);
    PlacedAtOnce(Back(s), TakenAll(c));
  }

  lemma SecondReady(b: Sched, c: Call)
    requires Shape(b) && GoesOn(b, c, [], false)
    ensures CanBegin(b, TakenAll(c)) && b.running != IDLE
  {
    hide InTable;
    if c.Exiting? {
      forall m: nat | m < |b.mutexes|
        ensures b.mutexes[m].owner != Some(b.running)
      {
        assert Ours(b, [], false, m);
      }
    }
  }

  lemma EndingTimer(s: Sched)
    requires Good(State(s, Ending)) && Safe(s)
    ensures Good(State(Tick(s), if s.ticks[s.running] == 1 then Whole else Ending))
  {
    SafeCalm(s);
    WalkCalm(s);
    TickSwitches(Walk(s, 0));
    hide Calm, Inv, Walk, Safe;
  }

  // Only a tick that uses up the slice dispatches.
  lemma TickSwitches(s: Sched)
    requires Shape(s) && s.running != IDLE
    ensures if s.ticks[s.running] == 1 then RunningOk(Account(s)) else Account(s).running == s.running
  {
    hide InTable, Without;
  }

  lemma WholeGood(s: Sched, op: Op)
    requires Inv(s) && Enabled(s, op)
    ensures Good(State(Scheduler.Step(s, op), Whole))
  {
    StepInv(s, op);
  }

  lemma EndingGood(s: Sched)
    requires Calm(s) && s.running != IDLE
    ensures Good(State(Dispatch(s), Whole))
    ensures forall j: nat | j < |s.sems| ::
      Good(State(Notify(s, j), if s.queues[SemQueue(s, j)] != [] then Whole else Ending))
  {
    DispatchInv(s);
    forall j: nat | j < |s.sems|
      ensures Good(State(Notify(s, j), if s.queues[SemQueue(s, j)] != [] then Whole else Ending))
    {
      NotifyAfter(s, j);
    }
  }

  lemma MakeGood(s: Sched, t: nat)
    requires Inv(s) && Enabled(s, DoCreate(t)) && s.running != IDLE
    ensures Good(State(Enlist(s, t), Making(t))) && Furnish(Enlist(s, t), t) == Create(s, t)
  {
    CreateInv(s, t);
    RunningLive(s);
    var q := s.queues[READY];
    assert (q + [t])[|q|] == t;
    hide Inv, InTable;
  }

  // A task that is ready is not asleep.
  lemma ReadyNotAsleep(s: Sched, t: nat)
    requires Inv(s) && t in s.queues[READY]
    ensures t !in s.queues[SLEEPING]
  {
    PlacedMeans(s, READY, t);
  }

  lemma MakingTimer(s: Sched, t: nat)
    requires Good(State(s, Making(t))) && s.ticks[s.running] != 1
    ensures Good(State(Tick(s), Making(t))) && Tick(Furnish(s, t)) == Furnish(Tick(s), t)
  {
    var f := Furnish(s, t);
    ReadyNotAsleep(f, t);
    TickFurnish(s, t);
    TickLifted(f);
    TickKeepsReady(f, t);
    hide Inv, Tick, Lift, InTable;
  }

  lemma TickKeepsReady(s: Sched, t: nat)
    requires Inv(s) && s.running != IDLE && s.ticks[s.running] != 1 && t in s.queues[READY]
    ensures t in Tick(s).queues[READY]
  {
    var extra := WalkInstead(s, s.queues[READY], s.running, 0);
    RunningLive(s);
    hide Walk, Inv, InTable, Placed;
    var w := Walk(s, 0);
    WalkLifted(s);
    AccountLifted(w);
    hide Account, Lift;
  }

  lemma MakingHandler(s: Sched, t: nat, j: nat)
    requires Good(State(s, Making(t))) && j < |s.sems|
    ensures Good(State(Notify(s, j), Making(t))) && Notify(Furnish(s, t), j) == Furnish(Notify(s, j), t)
  {
    NotifyFurnish(s, t, j);
    NotifyInv(Furnish(s, t), j);
    hide Inv, InTable, Notify;
    NotifyKeepsHead(s, j);
  }

  lemma NotifyKeepsHead(s: Sched, j: nat)
    requires Shape(s) && j < |s.sems| && s.queues[READY] != []
    requires s.queues[READY][0] == s.running
    ensures Notify(s, j).running == s.running && forall t | t in s.queues[READY] :: t in Notify(s, j).queues[READY]
  {
    hide InTable;
  }

  lemma CompleteGood(s: Sched, t: nat)
    requires Good(State(s, Making(t)))
    ensures t < |s.ticks| && Good(State(Furnish(s, t), Whole))
  {
  }

  lemma AdvanceGood(x: State, a: Act)
    requires Good(x) && Possible(x, a)
    ensures Good(Advance(x, a))
  {
    hide Inv, Tick, Notify, Lock, Unlock, Place, Lift, Dispatch, Furnish, Enlist, Calm, GoesOn, Safe, InTable;
    var s := x.s;
    match x.phase
    case Whole =>
      match a {
        case DoCall(op) => WholeGood(s, op);
        case Begin(c) =>
          GoesOnAtFirst(s, c);
          InsideGood(s, c, Takes(c), false);
        case Make(t) => MakeGood(s, t);
        case Timer => WholeGood(s, DoTick);
        case Handler(j) => WholeGood(s, DoNotify(j));
        case _ =>
      }
    case Inside(c, left, held) =>
      match a {
        case TakeMutex => InsideTake(s, c, left);
        case GiveMutex => InsideGive(s, c, left);
        case Second => InsideSecond(s, c);
        case Timer => InsideTimer(s, c, left, held);
        case Handler(j) => InsideHandler(s, c, left, held, j);
        case _ =>
      }
    case Ending =>
      match a {
        case Finish => EndingGood(s);
        case Timer => EndingTimer(s);
        case Handler(j) => EndingGood(s);
        case _ =>
      }
    case Making(t) =>
      match a {
        case Complete => CompleteGood(s, t);
        case Timer => MakingTimer(s, t);
        case Handler(j) => MakingHandler(s, t, j);
        case _ =>
      }
  }

  lemma {:induction false} AdvanceAllGood(x: State, acts: seq<Act>)
    requires Good(x) && PossibleRun(x, acts)
    ensures Good(AdvanceAll(x, acts))
    decreases |acts|
  {
    if acts == [] {
    } else {
      AdvanceGood(x, acts[0]);
      hide Good, Advance, Possible;
      AdvanceAllGood(Advance(x, acts[0]), acts[1..]);
    }
  }

  // The task that is off ready_list in the middle of its call.
  predicate Between(x: State, t: nat) { x.phase.Inside? && t == x.s.running }

  /** Single location with interrupts anywhere: after every run from the start, each live task is in exactly one list and
      there once, but for a running task in the middle of its call, which is in none; idle is in none; and outside such
      calls the running task is idle or heads ready_list. */
  lemma OneListThroughout(tasks: nat, mutexes: nat, counts: seq<nat>, acts: seq<Act>, t: nat)
    requires tasks >= 2 && PossibleRun(State(Initial(tasks, mutexes, counts), Whole), acts)
    ensures var x := AdvanceAll(State(Initial(tasks, mutexes, counts), Whole), acts);
      && (t in x.s.live && !Between(x, t) <==> exists i: nat :: OnlyIn(x.s, i, t))
      && !(exists i: nat :: OnlyIn(x.s, i, IDLE))
      && (x.phase.Whole? && x.s.running != IDLE ==> x.s.queues[READY] != [] && x.s.queues[READY][0] == x.s.running)
  {
    InitialInv(tasks, mutexes, counts);
    AdvanceAllGood(State(Initial(tasks, mutexes, counts), Whole), acts);
    var x := AdvanceAll(State(Initial(tasks, mutexes, counts), Whole), acts);
    hide Initial, AdvanceAll, PossibleRun;
    Located(x, t);
    Located(x, IDLE);
  }

  lemma Located(x: State, t: nat)
    requires Good(x)
    ensures t in x.s.live && !Between(x, t) <==> exists i: nat :: OnlyIn(x.s, i, t)
    ensures IDLE !in x.s.live
  {
    if x.phase.Inside? {
      var b := Back(x.s);
      LiftIs(b);
      InvPlaced(b);
      InOneList(b, t);
      InOneList(b, IDLE);
      hide Inv, Placed, Lift, InTable, GoesOn;
      LocatedBack(x.s, t);
    } else {
      GoodPlaced(x);
      InOneList(x.s, t);
      InOneList(x.s, IDLE);
    }
  }

  lemma GoodPlaced(x: State)
    requires Good(x) && !x.phase.Inside?
    ensures Placed(x.s)
  {
  }

  // The lists with and without the caller at the head of ready_list.
  lemma LocatedBack(s: Sched, t: nat)
    requires Shape(s) && forall i | 0 <= i < |s.queues| :: s.running !in s.queues[i]
    ensures t != s.running ==> forall i: nat :: OnlyIn(Back(s), i, t) <==> OnlyIn(s, i, t)
    ensures t == s.running ==> forall i: nat :: !OnlyIn(s, i, t)
  {
    var q := s.queues[READY];
    if t != s.running {
      assert multiset([s.running] + q)[t] == multiset(q)[t];
      assert forall k: nat | k < |s.queues| :: t in Back(s).queues[k] <==> t in s.queues[k];
      assert forall k: nat | k < |s.queues| :: multiset(Back(s).queues[k])[t] == multiset(s.queues[k])[t];
      hide Back;
    }
  }
}
