/** Interrupted calls as whole ones. A run in which interrupts do no harm, and none comes between the second list
    operation of a call and its dispatch, is a run of whole calls: each interrupted call takes effect at that operation,
    and creation when it makes the task ready. */
module WholeCalls {
  import opened Scheduler
  import opened SchedulerInvariant
  import opened Preemption

  // The state as the whole calls see it: a call counts as not begun until its second list operation, and then as done; a
  // task that is being created counts as complete.
  function Seen(x: State): Sched
    requires Shape(x.s)
  {
    match x.phase
    case Whole => x.s
    case Inside(_, _, _) => Back(x.s)
    case Ending => Dispatch(x.s)
    case Making(t) => if t < |x.s.ticks| then Furnish(x.s, t) else x.s
  }

  // The whole call that an action completes, if any. The mutexes of tss_task_destroy are calls of their own.
  function Completes(x: State, a: Act): seq<Op> {
    match a
    case DoCall(op) => [op]
    case Begin(_) => []
    case TakeMutex => if x.phase.Inside? && x.phase.left != [] then [DoLock(x.phase.left[0])] else []
    case GiveMutex => if x.phase.Inside? && x.phase.left != [] then [DoUnlock(x.phase.left[0])] else []
    case Second => if x.phase.Inside? then [OpOf(TakenAll(x.phase.c))] else []
    case Finish => []
    case Make(t) => [DoCreate(t)]
    case Complete => []
    case Timer => [DoTick]
    case Handler(j) => [DoNotify(j)]
  }

  // The calls of a run in the order in which they take effect; there is one tick for each interrupt of the timer.
  function Calls(x: State, acts: seq<Act>): (ops: seq<Op>)
    requires Shape(x.s) && PossibleRun(x, acts)
    decreases |acts|
  {
    if acts == [] then [] else Completes(x, acts[0]) + Calls(Advance(x, acts[0]), acts[1..])
  }

  // No interrupt comes between the second list operation of a call and its dispatch.
  predicate Prompt(x: State, acts: seq<Act>)
    requires Shape(x.s) && PossibleRun(x, acts)
    decreases |acts|
  {
    acts != [] ==> (x.phase.Ending? ==> acts[0].Finish?) && Prompt(Advance(x, acts[0]), acts[1..])
  }

  // From s, the calls lead to r.
  predicate Leads(s: Sched, ops: seq<Op>, r: Sched) {
    Shape(s) && LegalRun(s, ops) && Run(s, ops) == r
  }

  lemma LeadsNone(s: Sched)
    requires Shape(s)
    ensures Leads(s, [], s)
  {
  }

  lemma LeadsOne(s: Sched, op: Op)
    requires Shape(s) && Enabled(s, op)
    ensures Leads(s, [op], Step(s, op))
  {
    LeadsNone(Step(s, op));
    assert [op][1..] == [];
  }

  lemma {:induction false} LeadsJoin(s: Sched, ops: seq<Op>, r: Sched, more: seq<Op>, t: Sched)
    requires Leads(s, ops, r) && Leads(r, more, t)
    ensures Leads(s, ops + more, t)
    decreases |ops|
  {
    hide Step, Enabled, InTable;
    if ops == [] {
      assert [] + more == more;
    } else {
      LeadsJoin(Step(s, ops[0]), ops[1..], r, more, t);
      assert (ops + more)[0] == ops[0] && (ops + more)[1..] == ops[1..] + more;
    }
  }

  lemma GoodShape(x: State)
    requires Good(x)
    ensures Shape(x.s) && (x.phase.Making? ==> x.phase.t < |x.s.ticks|) && Shape(Seen(x))
    ensures x.phase.Whole? ==> Inv(x.s)
    ensures x.phase.Inside? ==> Inv(Back(x.s)) && GoesOn(Back(x.s), x.phase.c, x.phase.left, x.phase.held) && Lift(Back(x.s)) == x.s
    ensures x.phase.Ending? ==> x.s.running != IDLE
  {
  }

  lemma BeginSeen(s: Sched, c: Call)
    requires Inv(s) && CanBegin(s, c)
    ensures Back(Lift(s)) == s
  {
    Begun(s, c);
    LiftBack(s);
  }

  lemma TimerSeen(s: Sched, c: Call, left: seq<nat>, held: bool)
    requires Good(State(s, Inside(c, left, held))) && s.ticks[s.running] != 1
    ensures Back(Tick(s)) == Tick(Back(s))
  {
    var b := Back(s);
    hide Tick, Inv, Lift;
    TickLifted(b);
    LiftBack(Tick(b));
  }

  lemma HandlerSeen(s: Sched, c: Call, left: seq<nat>, held: bool, j: nat)
    requires Good(State(s, Inside(c, left, held))) && j < |s.sems| && s.queues[SemQueue(s, j)] == []
    ensures |Back(s).sems| == |s.sems| && Back(Notify(s, j)) == Notify(Back(s), j)
  {
    var b := Back(s);
    hide Notify, Inv, Lift;
    NotifyInsideExactly(b, j);
    NotifyInv(b, j);
    LiftBack(Notify(b, j));
  }

  lemma TakeSeen(s: Sched, c: Call, left: seq<nat>)
    requires Good(State(s, Inside(c, left, false))) && left != [] && left[0] < |s.mutexes|
    ensures Enabled(Back(s), DoLock(left[0])) && Back(Lock(s, left[0])) == Lock(Back(s), left[0])
  {
    hide Inv, Lift, GoesOn, Lock, InTable;
    var (b, m) := (Back(s), left[0]);
    TakeReady(b, c, left);
    LockInv(b, m);
    LockLifted(b, m);
    LiftBack(Lock(b, m));
  }

  lemma GiveSeen(s: Sched, c: Call, left: seq<nat>)
    requires Good(State(s, Inside(c, left, true))) && left != [] && left[0] < |s.mutexes|
    ensures Enabled(Back(s), DoUnlock(left[0])) && Back(Unlock(s, left[0])) == Unlock(Back(s), left[0])
  {
    hide Inv, Lift, GoesOn, Unlock, InTable;
    var (b, m) := (Back(s), left[0]);
    GiveReady(b, c, left);
    UnlockInv(b, m);
    UnlockLifted(b, m);
    GoingRuns(b, c, left);
    LiftBack(Unlock(b, m));
  }

  lemma GoingRuns(b: Sched, c: Call, left: seq<nat>)
    requires Shape(b) && GoesOn(b, c, left, true)
    ensures b.running != IDLE
  {
  }

  lemma SecondSeen(s: Sched, c: Call)
    requires Good(State(s, Inside(c, [], false)))
    ensures Enabled(Back(s), OpOf(TakenAll(c)))
    ensures Dispatch(Place(s, c, s.running)) == Step(Back(s), OpOf(TakenAll(c)))
  {
    hide Inv, Lift, Dispatch, Step, GoesOn, InTable, Placed, CountersOk, MutexOk, SemOk;
    InsideSecond(s, c);
    PartsAreStep(Back(s), TakenAll(c));
  }

  /** One action does to the state as seen what the call it completes does. */
  lemma AdvanceSeen(x: State, a: Act)
    requires Good(x) && Shape(x.s) && Possible(x, a) && (x.phase.Ending? ==> a.Finish?)
    ensures Leads(Seen(x), Completes(x, a), Seen(Advance(x, a)))
  {
    hide Inv, Lift, Back, Place, Dispatch, Step, Tick, Notify, Lock, Unlock, Leads, CanBegin, Enabled, InTable, Good, Furnish, Enlist;
    GoodShape(x);
    var s := x.s;
    match a
    case DoCall(op) => LeadsOne(s, op);
    case Begin(c) =>
      BeginSeen(s, c);
      LeadsNone(s);
    case TakeMutex =>
      TakeSeen(s, x.phase.c, x.phase.left);
      LeadsOne(Back(s), DoLock(x.phase.left[0]));
      StepLock(Back(s), x.phase.left[0]);
    case GiveMutex =>
      GiveSeen(s, x.phase.c, x.phase.left);
      LeadsOne(Back(s), DoUnlock(x.phase.left[0]));
      StepUnlock(Back(s), x.phase.left[0]);
    case Second =>
      SecondSeen(s, x.phase.c);
      LeadsOne(Back(s), OpOf(TakenAll(x.phase.c)));
    case Finish => LeadsNone(Dispatch(s));
    case Make(t) =>
      MakeGood(s, t);
      LeadsOne(s, DoCreate(t));
      StepCreate(s, t);
    case Complete => LeadsNone(Furnish(s, x.phase.t));
    case Timer =>
      TimerAll(x);
      TickOne(Seen(x));
    case Handler(j) =>
      HandlerAll(x, j);
      NotifyOne(Seen(x), j);
  }

  lemma TimerAll(x: State)
    requires Good(x) && Shape(x.s) && Possible(x, Timer) && !x.phase.Ending?
    ensures Seen(Advance(x, Timer)) == Tick(Seen(x))
  {
    hide Inv, Tick, Back, Furnish, InTable;
    match x.phase
    case Inside(c, left, held) => TimerSeen(x.s, c, left, held);
    case Making(t) => MakingTimer(x.s, t);
    case _ =>
  }

  lemma HandlerAll(x: State, j: nat)
    requires Good(x) && Shape(x.s) && Possible(x, Handler(j)) && !x.phase.Ending?
    ensures j < |Seen(x).sems| && Seen(Advance(x, Handler(j))) == Notify(Seen(x), j)
  {
    hide Inv, Notify, Back, InTable;
    match x.phase
    case Inside(c, left, held) => HandlerSeen(x.s, c, left, held, j);
    case Making(t) => MakingHandler(x.s, t, j);
    case _ =>
  }

  lemma StepLock(s: Sched, m: nat)
    requires Shape(s) && Enabled(s, DoLock(m))
    ensures m < |s.mutexes| && Step(s, DoLock(m)) == Lock(s, m)
  {
    hide Lock;
  }

  lemma StepUnlock(s: Sched, m: nat)
    requires Shape(s) && Enabled(s, DoUnlock(m))
    ensures m < |s.mutexes| && Step(s, DoUnlock(m)) == Unlock(s, m)
  {
    hide Unlock;
  }

  lemma StepCreate(s: Sched, t: nat)
    requires Shape(s) && Enabled(s, DoCreate(t))
    ensures t < |s.ticks| && Step(s, DoCreate(t)) == Create(s, t)
  {
    hide Create;
  }

  lemma TickOne(s: Sched)
    requires Shape(s)
    ensures Leads(s, [DoTick], Tick(s))
  {
    LeadsOne(s, DoTick);
    hide *;
  }

  lemma NotifyOne(s: Sched, j: nat)
    requires Shape(s) && j < |s.sems|
    ensures Leads(s, [DoNotify(j)], Notify(s, j))
  {
    LeadsOne(s, DoNotify(j));
    hide *;
  }

  /** Such a run with interrupts inside calls is the run of its calls, in that order. What holds over every run of whole
      calls therefore holds of it. */
  lemma {:induction false} RunSeen(x: State, acts: seq<Act>)
    requires Good(x) && Shape(x.s) && PossibleRun(x, acts) && Prompt(x, acts)
    ensures Leads(Seen(x), Calls(x, acts), Seen(AdvanceAll(x, acts)))
    decreases |acts|
  {
    hide Good, Advance, Possible, Seen, Completes, Leads;
    GoodShape(x);
    if acts == [] {
      LeadsNone(Seen(x));
    } else {
      var y := Advance(x, acts[0]);
      AdvanceSeen(x, acts[0]);
      AdvanceGood(x, acts[0]);
      RunSeen(y, acts[1..]);
      LeadsJoin(Seen(x), Completes(x, acts[0]), Seen(y), Calls(y, acts[1..]), Seen(AdvanceAll(x, acts)));
    }
  }

  /** From the start: outside calls, the state after such a run is the one that the whole calls lead to. */
  lemma InterruptedIsWhole(tasks: nat, mutexes: nat, counts: seq<nat>, acts: seq<Act>)
    requires tasks >= 2
    requires PossibleRun(State(Initial(tasks, mutexes, counts), Whole), acts)
    requires Prompt(State(Initial(tasks, mutexes, counts), Whole), acts)
    ensures var (s, x) := (Initial(tasks, mutexes, counts), State(Initial(tasks, mutexes, counts), Whole));
      var r := AdvanceAll(x, acts);
      LegalRun(s, Calls(x, acts)) && (r.phase.Whole? ==> Run(s, Calls(x, acts)) == r.s)
  {
    hide Initial, AdvanceAll, PossibleRun, Prompt, Calls;
    InitialInv(tasks, mutexes, counts);
    RunSeen(State(Initial(tasks, mutexes, counts), Whole), acts);
  }

  // ---- exit as its parts

  // Each mutex locked and unlocked.
  function Each(takes: seq<nat>): seq<Op> {
    if takes == [] then [] else [DoLock(takes[0]), DoUnlock(takes[0])] + Each(takes[1..])
  }

  lemma {:induction false} EachLeads(s: Sched, takes: seq<nat>)
    requires Shape(s) && s.running != IDLE && Passes(s, s.running, takes)
    ensures Leads(s, Each(takes), s)
    decreases |takes|
  {
    hide InTable, Leads;
    if takes == [] {
      LeadsNone(s);
    } else {
      var m := takes[0];
      assert PassesOne(s, s.running, m);
      assert Unlock(Lock(s, m), m) == s;
      LeadsOne(s, DoLock(m));
      LeadsOne(Lock(s, m), DoUnlock(m));
      LeadsJoin(s, [DoLock(m)], Lock(s, m), [DoUnlock(m)], s);
      assert [DoLock(m)] + [DoUnlock(m)] == [DoLock(m), DoUnlock(m)];
      assert forall k | 0 <= k < |takes[1..]| :: takes[1..][k] == takes[k + 1];
      EachLeads(s, takes[1..]);
      LeadsJoin(s, [DoLock(m), DoUnlock(m)], s, Each(takes[1..]), s);
    }
  }

  /** A whole exit is the same as locking and unlocking each of its mutexes and then exiting without taking any. */
  lemma ExitIsParts(s: Sched, takes: seq<nat>)
    requires Inv(s) && Enabled(s, DoExit(takes))
    ensures Leads(s, Each(takes) + [DoExit([])], Step(s, DoExit(takes)))
  {
    forall k | 0 <= k < |takes|
      ensures PassesOne(s, s.running, takes[k])
    {
      assert MutexOk(s, takes[k]);
    }
    ExitTakesNone(s, takes);
    hide Leads, Inv, Exit, Each, InTable, PassesOne;
    EachLeads(s, takes);
    LeadsOne(s, DoExit([]));
    LeadsJoin(s, Each(takes), s, [DoExit([])], Step(s, DoExit(takes)));
  }
}
