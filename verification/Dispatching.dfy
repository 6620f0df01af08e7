/** Who runs, and whose turn is next: after each call, told from ready_list as it was before, and over runs. */
module Dispatching {
  import opened Wrappers
  import opened IntrusiveList
  import opened Scheduler
  import opened SchedulerInvariant
  import opened CpuWait
  import opened Locks
  import opened Preemption

  function Ready(s: Sched): seq<nat>
    requires Shape(s)
  {
    s.queues[READY]
  }

  // The head of a ready list, or idle.
  function HeadOr(q: seq<nat>): nat { if q == [] then IDLE else q[0] }

  // The caller gives up its place: it goes to sleep, exits, or has to wait.
  predicate Leaves(s: Sched, op: Op)
    requires Shape(s) && Enabled(s, op)
  {
    match op
    case DoSleep(_) => true
    case DoExit(_) => true
    case DoLock(m) => Blocks(s, op, m)
    case DoWait(j) => s.sems[j] <= 0
    case _ => false
  }

  // The waiter that a full release or a notify makes ready.
  function WokenBy(s: Sched, op: Op): Option<nat>
    requires Shape(s) && Enabled(s, op)
  {
    match op
    case DoUnlock(m) => if FullRelease(s, op, m) && Waiters(s, m) != [] then Some(Waiters(s, m)[0]) else None
    case DoNotify(j) => if SemWaiters(s, j) != [] then Some(SemWaiters(s, j)[0]) else None
    case _ => None
  }

  // ready_list has become q, and t runs.
  predicate Becomes(r: Sched, q: seq<nat>, t: nat)
    requires Shape(r)
  {
    Ready(r) == q && r.running == t
  }

  /** Every call but the tick: a caller that gives up its place leaves the head, and the next one runs, or idle when there is
      none; yield puts the caller at the back; a waiter that is woken, and a new task, join at the back; after waking
      somebody the head runs, which is the caller unless idle called. Otherwise nothing changes. */
  lemma WhoRuns(s: Sched, op: Op)
    requires Inv(s) && Enabled(s, op) && !op.DoTick?
    ensures var (q, t, r) := (Ready(s), s.running, Step(s, op));
      if Leaves(s, op) then q != [] && Becomes(r, q[1..], HeadOr(q[1..]))
      else if WokenBy(s, op).Some? then
        var w := WokenBy(s, op).value;
        Becomes(r, q + [w], if q == [] then w else q[0]) && (t != IDLE ==> q != [] && q[0] == t)
      else if op.DoYield? && |q| > 1 then
        if t == IDLE then Becomes(r, q, q[0]) else Becomes(r, q[1..] + [q[0]], q[1]) && q[0] == t
      else if op.DoCreate? then Becomes(r, q + [op.t], t)
      else Becomes(r, q, t)
  {
    match op
    case DoYield => YieldRuns(s);
    case DoSleep(ms) => SleepRuns(s, ms);
    case DoLock(m) => LockRuns(s, m);
    case DoUnlock(m) => UnlockRuns(s, m);
    case DoWait(j) => WaitRuns(s, j);
    case DoNotify(j) => NotifyRuns(s, j);
    case DoCreate(t) =>
      hide Inv, InTable;
      InvShape(s);
    case DoExit(takes) => ExitRuns(s, takes);
  }

  // The caller heads ready_list, and is not in the rest of it.
  lemma CallerFirst(s: Sched)
    requires Inv(s) && s.running != IDLE
    ensures Shape(s) && Ready(s) != [] && Ready(s)[0] == s.running && Without(Ready(s), s.running) == Ready(s)[1..]
  {
    WithoutHead(Ready(s));
  }

  lemma YieldRuns(s: Sched)
    requires Inv(s)
    ensures var (q, t, r) := (Ready(s), s.running, Yield(s));
      if |q| <= 1 then r == s
      else if t == IDLE then Becomes(r, q, q[0]) else Becomes(r, q[1..] + [q[0]], q[1]) && q[0] == t
  {
    RotatedIs(s);
    hide Placed, CountersOk, MutexOk, SemOk, InTable, SetReady, SetBlock;
  }

  lemma SleepRuns(s: Sched, ms: nat)
    requires Inv(s) && Enabled(s, DoSleep(ms))
    ensures Ready(s) != [] && Becomes(Sleep(s, ms), Ready(s)[1..], HeadOr(Ready(s)[1..]))
  {
    CallerFirst(s);
    hide Inv, InTable, Without;
  }

  lemma LockRuns(s: Sched, m: nat)
    requires Inv(s) && Enabled(s, DoLock(m))
    ensures var (q, r) := (Ready(s), Lock(s, m));
      if Blocks(s, DoLock(m), m) then q != [] && Becomes(r, q[1..], HeadOr(q[1..])) else Becomes(r, q, s.running)
  {
    CallerFirst(s);
    hide Inv, InTable, Without;
  }

  lemma UnlockRuns(s: Sched, m: nat)
    requires Inv(s) && Enabled(s, DoUnlock(m))
    ensures var (q, t, r) := (Ready(s), s.running, Unlock(s, m));
      if FullRelease(s, DoUnlock(m), m) && Waiters(s, m) != [] then
        Becomes(r, q + [Waiters(s, m)[0]], if q == [] then Waiters(s, m)[0] else q[0]) && (t != IDLE ==> q != [] && q[0] == t)
      else Becomes(r, q, t)
  {
    assert MutexOk(s, m);
    if Waiters(s, m) != [] {
      PlacedMeans(s, MutexQueue(m), Waiters(s, m)[0]);
    }
    hide Placed, CountersOk, MutexOk, SemOk, InTable;
  }

  lemma WaitRuns(s: Sched, j: nat)
    requires Inv(s) && Enabled(s, DoWait(j))
    ensures var (q, r) := (Ready(s), Wait(s, j));
      if s.sems[j] <= 0 then q != [] && Becomes(r, q[1..], HeadOr(q[1..])) else Becomes(r, q, s.running)
  {
    CallerFirst(s);
    hide Inv, InTable, Without;
  }

  /** A notify that wakes somebody: the head of ready_list as it was runs, or the woken task when that was empty; a
      running task other than idle goes on. */
  lemma NotifyRuns(s: Sched, j: nat)
    requires Inv(s) && j < |s.sems|
    ensures var (q, t, r, ws) := (Ready(s), s.running, Notify(s, j), SemWaiters(s, j));
      if ws == [] then Becomes(r, q, t)
      else Becomes(r, q + [ws[0]], if q == [] then ws[0] else q[0]) && (t != IDLE ==> q != [] && q[0] == t)
  {
    if SemWaiters(s, j) != [] {
      PlacedMeans(s, SemQueue(s, j), SemWaiters(s, j)[0]);
    }
    hide Placed, CountersOk, MutexOk, SemOk, InTable;
  }

  lemma ExitRuns(s: Sched, takes: seq<nat>)
    requires Inv(s) && Enabled(s, DoExit(takes))
    ensures Ready(s) != [] && Becomes(Exit(s, takes), Ready(s)[1..], HeadOr(Ready(s)[1..]))
  {
    ExitTakesNone(s, takes);
    CallerFirst(s);
    hide Inv, InTable, Without, Exit;
  }

  /** After every call that gives up a place or wakes somebody, and after a yield with more than one task ready, idle runs
      exactly when nobody is ready, and otherwise the head of ready_list. */
  lemma SwitchExactly(s: Sched, op: Op)
    requires Inv(s) && Enabled(s, op) && !op.DoTick?
    requires Leaves(s, op) || WokenBy(s, op).Some? || (op.DoYield? && |Ready(s)| > 1)
    ensures var r := Step(s, op); r.running == HeadOr(Ready(r)) && (r.running == IDLE <==> Ready(r) == [])
  {
    hide Step, Inv, Enabled;
    InvShape(s);
    WhoRuns(s, op);
    StepInv(s, op);
    NoIdle(Step(s, op));
  }

  lemma NoIdle(s: Sched)
    requires Inv(s)
    ensures Shape(s) && IDLE !in Ready(s)
  {
    if IDLE in Ready(s) {
      PlacedMeans(s, READY, IDLE);
    }
  }

  // ---- the tick

  // The sleeper that the next tick wakes: the first whose counter is 1.
  function Awakes(s: Sched): seq<nat>
    requires Shape(s)
  {
    var q := s.queues[SLEEPING];
    assert forall i | 0 <= i < |q| :: q[i] < |s.sleep|;
    var w := Waker(s.sleep, q, 0);
    if w < |q| then [q[w]] else []
  }

  /** A tick: a sleeper that wakes joins ready_list at the back; a running task with ticks to spare goes on with one less;
      at its last tick it goes to the back with a full slice and the next one runs. Idle, at its last tick, gives way to
      whoever is ready. */
  lemma TickRuns(s: Sched)
    requires Inv(s)
    ensures var (q, t, r) := (Ready(s) + Awakes(s), s.running, Tick(s));
      && s.ticks[t] >= 1
      && (if s.ticks[t] > 1 then Becomes(r, q, t)
          else if t == IDLE then Becomes(r, q, HeadOr(q))
          else q != [] && Becomes(r, q[1..] + [t], HeadOr(q[1..] + [t])))
      && r.ticks == s.ticks[t := if s.ticks[t] > 1 then s.ticks[t] - 1 else 10]
  {
    hide Inv, Walk, Waker, InTable, Without, Awakes;
    InvShape(s);
    WalkAwakes(s);
    WalkInv(s);
    AccountRuns(Walk(s, 0));
  }

  lemma WalkAwakes(s: Sched)
    requires Inv(s)
    ensures var w := Walk(s, 0); Ready(w) == Ready(s) + Awakes(s) && w.ticks == s.ticks && w.running == s.running
  {
    var q := s.queues[SLEEPING];
    SleepersDistinct(s);
    WalkWakesFirst(s, 0);
    var w := Waker(s.sleep, q, 0);
    if w < |q| {
      PlacedMeans(s, SLEEPING, q[w]);
    }
    NothingMore(Ready(s));
    hide Walk, Waker, Lowered, InTable, Without, Placed, CountersOk, MutexOk, SemOk;
  }

  lemma AccountRuns(s: Sched)
    requires Inv(s)
    ensures var (q, t, r) := (Ready(s), s.running, Account(s));
      && s.ticks[t] >= 1
      && (if s.ticks[t] > 1 then Becomes(r, q, t)
          else if t == IDLE then Becomes(r, q, HeadOr(q))
          else q != [] && Becomes(r, q[1..] + [t], HeadOr(q[1..] + [t])))
      && r.ticks == s.ticks[t := if s.ticks[t] > 1 then s.ticks[t] - 1 else 10]
  {
    var t := s.running;
    if t != IDLE {
      RunningLive(s);
    }
    RotatedIs(s.(ticks := s.ticks[t := TICKS]));
    hide Placed, MutexOk, SemOk, InTable, SetReady, SetBlock;
  }

  /** No other call touches a slice, but that a new task starts with ten ticks and the slot of a task that exits is cleared. */
  lemma StepSlices(s: Sched, op: Op)
    requires Inv(s) && Enabled(s, op) && !op.DoTick?
    ensures Step(s, op).ticks == (match op
      case DoCreate(t) => s.ticks[t := 10]
      case DoExit(_) => s.ticks[s.running := 0]
      case _ => s.ticks)
  {
    if op.DoExit? {
      ExitTakesNone(s, op.takes);
    }
    hide Inv, InTable, Without, Exit;
    InvShape(s);
  }

  /** Nor a sleep counter, but that of a caller that goes to sleep, and that of a slot that is taken or cleared. */
  lemma StepCounters(s: Sched, op: Op)
    requires Inv(s) && Enabled(s, op) && !op.DoTick?
    ensures Step(s, op).sleep == (match op
      case DoSleep(ms) => s.sleep[s.running := ms]
      case DoCreate(t) => s.sleep[t := 0]
      case DoExit(_) => s.sleep[s.running := 0]
      case _ => s.sleep)
    ensures Step(s, op).live == (match op
      case DoCreate(t) => s.live + {t}
      case DoExit(_) => s.live - {s.running}
      case _ => s.live)
  {
    if op.DoExit? {
      ExitTakesNone(s, op.takes);
    }
    hide Inv, InTable, Without, Exit;
    InvShape(s);
  }

  // ---- over runs

  /** A waiter released while idle runs and nobody is ready runs at once, with no further tick: the waiter at position k
      of a semaphore, at the (k+1)-th notify. */
  lemma RunsAtOnce(s: Sched, ops: seq<Op>, j: nat, k: nat)
    requires Inv(s) && LegalRun(s, ops) && j < |s.sems| && k < |SemWaiters(s, j)| && Notifies(ops, j) == k
    requires Run(s, ops).running == IDLE && Ready(Run(s, ops)) == []
    ensures |Run(s, ops).sems| == |s.sems| && Notify(Run(s, ops), j).running == SemWaiters(s, j)[k]
  {
    hide Inv, Run, Notify, InTable;
    InvShape(s);
    SemWaitersInOrder(s, ops, j, k);
    RunInv(s, ops);
    NotifyRuns(Run(s, ops), j);
  }

  /** While nothing but ticks happens, a task runs for exactly the ticks it has left; then it is behind all that were ready,
      with a full slice, and the next one runs. */
  lemma {:induction false} TurnLasts(s: Sched, n: nat)
    requires Inv(s) && s.running != IDLE && 1 <= n <= s.ticks[s.running]
    ensures var r := Ticked(s, n);
      && Inv(r) && Ready(s) <= (if n < s.ticks[s.running] then Ready(r) else [s.running] + Ready(r))
      && (if n < s.ticks[s.running] then r.running == s.running && r.ticks[s.running] == s.ticks[s.running] - n
          else Ready(r) != [] && Ready(r)[|Ready(r)| - 1] == s.running && r.running == Ready(r)[0] && r.ticks[s.running] == 10)
    decreases n
  {
    hide Inv, Tick, InTable, Awakes, Ticked;
    InvShape(s);
    TickedStep(s, n);
    if n == 1 {
      TickedStep(s, 0);
      TickInv(s);
      TurnTick(s);
    } else {
      TurnLasts(s, n - 1);
      TickInv(Ticked(s, n - 1));
      TurnTick(Ticked(s, n - 1));
    }
  }

  lemma TurnTick(s: Sched)
    requires Inv(s) && s.running != IDLE
    ensures var r := Tick(s);
      && s.ticks[s.running] >= 1
      && Ready(s) <= (if s.ticks[s.running] > 1 then Ready(r) else [s.running] + Ready(r))
      && (if s.ticks[s.running] > 1 then r.running == s.running && r.ticks[s.running] == s.ticks[s.running] - 1
          else Ready(r) != [] && Ready(r)[|Ready(r)| - 1] == s.running && r.running == Ready(r)[0] && r.ticks[s.running] == 10)
  {
    hide Inv, Tick, InTable, Awakes;
    TickRuns(s);
    CallerFirst(s);
    Turned(Ready(s), Awakes(s));
  }

  lemma Turned(q: seq<nat>, extra: seq<nat>)
    requires q != []
    ensures q <= q + extra
    ensures var r := (q + extra)[1..] + [q[0]];
      r != [] && r[|r| - 1] == q[0] && q <= [q[0]] + r
  {
    var r := (q + extra)[1..] + [q[0]];
    assert [q[0]] + r == q + (extra + [q[0]]);
  }
}
