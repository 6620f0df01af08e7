/** The failing cases are reachable: an interrupt inside sleep, yield or exit, an exit that has to wait for a mutex, and an
    interrupt inside tss_task_init. */
module Races {
  import opened Wrappers
  import opened IntrusiveList
  import opened Scheduler
  import opened SchedulerInvariant
  import opened Preemption
  import Linked

  function Repeated(n: nat): (r: seq<Act>)
    ensures |r| == n
  {
    seq(n, _ => Timer)
  }

  // Nobody sleeps: ticks that leave the running task some of its slice only count.
  lemma OneTick(s: Sched)
    requires Inv(s) && s.queues[SLEEPING] == [] && s.running != IDLE && s.ticks[s.running] > 1
    ensures Tick(s) == s.(ticks := s.ticks[s.running := s.ticks[s.running] - 1]) && Inv(Tick(s))
  {
    TickInv(s);
    hide InTable, Placed, CountersOk, MutexOk, SemOk;
  }

  lemma {:induction false} TicksPossible(s: Sched, n: nat)
    requires Inv(s) && s.queues[SLEEPING] == [] && s.running != IDLE && n < s.ticks[s.running]
    ensures PossibleRun(State(s, Whole), Repeated(n))
    ensures AdvanceAll(State(s, Whole), Repeated(n)) == State(s.(ticks := s.ticks[s.running := s.ticks[s.running] - n]), Whole)
    decreases n
  {
    hide Inv, Tick, InTable;
    InvShape(s);
    if n == 0 {
      assert s.ticks[s.running := s.ticks[s.running]] == s.ticks;
    } else {
      var r := Tick(s);
      OneTick(s);
      TicksPossible(r, n - 1);
      assert Repeated(n)[0] == Timer && Repeated(n)[1..] == Repeated(n - 1);
      assert r.ticks[s.running := r.ticks[s.running] - (n - 1)] == s.ticks[s.running := s.ticks[s.running] - n];
    }
  }

  lemma Joined(x: State, a: Act, rest: seq<Act>)
    requires Shape(x.s) && Possible(x, a) && PossibleRun(Advance(x, a), rest)
    ensures PossibleRun(x, [a] + rest) && AdvanceAll(x, [a] + rest) == AdvanceAll(Advance(x, a), rest)
  {
    hide Possible, Advance, InTable;
    assert ([a] + rest)[0] == a && ([a] + rest)[1..] == rest;
  }

  // From the start the default task makes a second one, and ticks pass until it has one left.
  function Crowding(): seq<Act> { [Make(2)] + ([Complete] + Repeated(TICKS - 1)) }

  // The state after the first two of these.
  function TwoTasks(tasks: nat, mutexes: nat, counts: seq<nat>): Sched
    requires tasks >= 3
  {
    Create(Initial(tasks, mutexes, counts), 2)
  }

  lemma TwoTasksMade(tasks: nat, mutexes: nat, counts: seq<nat>)
    requires tasks >= 3
    ensures var s := TwoTasks(tasks, mutexes, counts);
      && Inv(s) && s.running == 1 && |s.ticks| == tasks && s.ticks[1] == TICKS && s.live == {1, 2}
      && s.mutexes == seq(mutexes, _ => MutexState(None, 0))
      && s.queues[READY] == [1, 2] && s.queues[SLEEPING] == []
    ensures Possible(State(Initial(tasks, mutexes, counts), Whole), Make(2))
  {
    InitialInv(tasks, mutexes, counts);
    CreateInv(Initial(tasks, mutexes, counts), 2);
  }

  lemma MadePossible(s: Sched, rest: seq<Act>)
    requires Shape(s) && Possible(State(s, Whole), Make(2)) && PossibleRun(State(Create(s, 2), Whole), rest)
    ensures PossibleRun(State(s, Whole), [Make(2)] + ([Complete] + rest))
    ensures AdvanceAll(State(s, Whole), [Make(2)] + ([Complete] + rest)) == AdvanceAll(State(Create(s, 2), Whole), rest)
  {
    hide InTable, AdvanceAll, PossibleRun;
    Joined(State(Enlist(s, 2), Making(2)), Complete, rest);
    Joined(State(s, Whole), Make(2), [Complete] + rest);
  }

  // The state after all of them.
  function Crowded(tasks: nat, mutexes: nat, counts: seq<nat>): Sched
    requires tasks >= 3
  {
    var s := TwoTasks(tasks, mutexes, counts);
    s.(ticks := if |s.ticks| > 1 then s.ticks[1 := 1] else s.ticks)
  }

  lemma CrowdedReached(tasks: nat, mutexes: nat, counts: seq<nat>)
    requires tasks >= 3
    ensures PossibleRun(State(Initial(tasks, mutexes, counts), Whole), Crowding())
    ensures AdvanceAll(State(Initial(tasks, mutexes, counts), Whole), Crowding()) == State(Crowded(tasks, mutexes, counts), Whole)
  {
    hide Inv, Initial, Create, Repeated, Possible, PossibleRun, AdvanceAll, InTable;
    TwoTasksMade(tasks, mutexes, counts);
    InvShape(TwoTasks(tasks, mutexes, counts));
    TicksPossible(TwoTasks(tasks, mutexes, counts), TICKS - 1);
    MadePossible(Initial(tasks, mutexes, counts), Repeated(TICKS - 1));
  }

  // One task of two is off ready_list, and its slice is at the last tick.
  lemma TickDrops(x: Linked.Raw, s: Sched, c: Call)
    requires Inv(s) && CanBegin(s, c) && Linked.Shows(x, Lift(s))
    requires s.running == 1 && s.queues[READY] == [1, 2] && s.queues[SLEEPING] == [] && s.ticks[1] == 1
    ensures |x.ends| >= 2 && x.rest.running < |x.rest.ticks|
    ensures !Linked.Sound(Linked.Tick(x)) && OtherLost(Linked.Tick(x))
  {
    hide Inv, InTable, Without, Linked.Shows, Linked.Sound, Linked.Tick;
    InvShape(s);
    LiftIs(s);
    LiftedRequeues(s);
    Linked.TickExactly(x, Lift(s));
    WalkNone(Lift(s));
    assert Lift(s).queues[READY] == [2];
  }

  lemma WalkNone(s: Sched)
    requires Shape(s) && s.queues[SLEEPING] == []
    ensures Walk(s, 0) == s
  {
  }

  /** Task 1 is alone on ready_list and goes on running, and task 2 is in no list. */
  predicate OtherLost(y: Linked.Raw) {
    && |y.ends| >= 2 && y.rest.running == 1
    && y.ends[READY] == Ends(Some(Linked.RunNode(1)), Some(Linked.RunNode(1)), 1)
    && LinkOf(y.links, Linked.RunNode(2)) == Link(None, None)
  }

  /** From every start one can get to where sleep, yield or exit, interrupted by one tick after its first list operation,
      leaves the lists unsound: the other of two ready tasks is in no list any more, and there is no switch to it. */
  lemma RaceReachable(tasks: nat, mutexes: nat, counts: seq<nat>, c: Call) returns (x: Linked.Raw)
    requires 3 <= tasks < 0xFFFF_FFFF && (c.Sleeping? ==> c.ms >= 1)
    requires forall k | 0 <= k < |Takes(c)| :: Takes(c)[k] < mutexes
    ensures PossibleRun(State(Initial(tasks, mutexes, counts), Whole), Crowding())
    ensures var s := AdvanceAll(State(Initial(tasks, mutexes, counts), Whole), Crowding()).s;
      && CanBegin(s, c) && Linked.Shows(x, Lift(s)) && 2 in s.live
      && |x.ends| >= 2 && x.rest.running < |x.rest.ticks|
      && !Linked.Sound(Linked.Tick(x)) && OtherLost(Linked.Tick(x))
  {
    hide *;
    CrowdedReached(tasks, mutexes, counts);
    var s := Crowded(tasks, mutexes, counts);
    CrowdedIs(tasks, mutexes, counts, c);
    LiftApart(s);
    x := Linked.Picture(Lift(s));
    TickDrops(x, s, c);
  }

  lemma LiftApart(s: Sched)
    requires Inv(s) && s.running != IDLE
    ensures Shape(s) && Shape(Lift(s)) && Linked.Apart(Lift(s).queues) && |Lift(s).ticks| == |s.ticks|
  {
    LiftedRequeues(s);
    hide InTable, Without, Linked.Apart;
  }

  lemma CrowdedIs(tasks: nat, mutexes: nat, counts: seq<nat>, c: Call)
    requires tasks >= 3 && (c.Sleeping? ==> c.ms >= 1) && forall k | 0 <= k < |Takes(c)| :: Takes(c)[k] < mutexes
    ensures var s := Crowded(tasks, mutexes, counts);
      && Inv(s) && CanBegin(s, c) && s.running == 1 && s.queues[READY] == [1, 2] && s.queues[SLEEPING] == []
      && |s.ticks| == tasks && s.ticks[1] == 1 && 2 in s.live && s.running != IDLE
  {
    hide TwoTasks, InTable;
    TwoTasksMade(tasks, mutexes, counts);
    FewerTicks(TwoTasks(tasks, mutexes, counts), 1);
    CrowdedCan(Crowded(tasks, mutexes, counts), mutexes, c);
  }

  lemma CrowdedCan(s: Sched, mutexes: nat, c: Call)
    requires Shape(s) && s.running == 1 && s.queues[READY] == [1, 2] && s.mutexes == seq(mutexes, _ => MutexState(None, 0))
    requires (c.Sleeping? ==> c.ms >= 1) && forall k | 0 <= k < |Takes(c)| :: Takes(c)[k] < mutexes
    ensures CanBegin(s, c)
  {
    hide InTable;
    match c
    case Exiting(takes) =>
      assert Takes(c) == takes;
      assert forall m: nat | m < mutexes :: s.mutexes[m] == MutexState(None, 0);
    case _ =>
  }

  lemma FewerTicks(s: Sched, t: nat)
    requires Inv(s) && t in s.live
    ensures t < |s.ticks| && Inv(s.(ticks := s.ticks[t := 1]))
  {
    var r := s.(ticks := s.ticks[t := 1]);
    hide InTable, Placed;
    forall m: nat | m < |r.mutexes|
      ensures MutexOk(r, m)
    {
      assert MutexOk(s, m);
    }
    forall j: nat | j < |r.sems|
      ensures SemOk(r, j)
    {
      assert SemOk(s, j);
    }
  }

  // ---- an exit that has to wait

  function Passing(n: nat): (r: seq<Op>)
    ensures |r| == n && forall k | 0 <= k < n :: r[k] == DoTick
  {
    seq(n, _ => DoTick)
  }

  // n ticks as a run.
  lemma {:induction false} RunTicks(s: Sched, n: nat)
    requires Shape(s)
    ensures LegalRun(s, Passing(n)) && Run(s, Passing(n)) == Ticked(s, n)
    decreases n
  {
    hide Tick, InTable;
    if n == 0 {
    } else {
      assert Passing(n)[1..] == Passing(n - 1) && Passing(n)[0] == DoTick;
      RunTicks(Tick(s), n - 1);
      TickedFrom(s, n - 1);
    }
  }

  lemma {:induction false} CountDown(s: Sched, n: nat)
    requires Inv(s) && s.queues[SLEEPING] == [] && s.running != IDLE && n < s.ticks[s.running]
    ensures Ticked(s, n) == s.(ticks := s.ticks[s.running := s.ticks[s.running] - n]) && Inv(Ticked(s, n))
    decreases n
  {
    hide Inv, Tick, InTable;
    InvShape(s);
    if n == 0 {
      assert s.ticks[s.running := s.ticks[s.running]] == s.ticks;
    } else {
      CountDown(s, n - 1);
      OneTick(Ticked(s, n - 1));
    }
  }

  lemma LastTick(s: Sched)
    requires Inv(s) && s.running == 1 && s.queues[READY] == [1, 2] && s.queues[SLEEPING] == [] && s.ticks[1] == 1
    ensures var r := Tick(s);
      r.running == 2 && r.queues[READY] == [2, 1] && r.mutexes == s.mutexes && |r.ticks| == |s.ticks|
  {
    var s1 := s.(ticks := s.ticks[1 := TICKS]);
    RotatedIs(s1);
    WalkNone(s);
    hide Inv, InTable, Without, SetReady, SetBlock, Walk;
    assert [1, 2][1..] + [1] == [2, 1];
  }

  lemma Switched(s: Sched)
    requires Inv(s) && s.running == 1 && s.queues[READY] == [1, 2] && s.queues[SLEEPING] == [] && s.ticks[1] == TICKS
    ensures var r := Ticked(s, TICKS);
      Inv(r) && r.running == 2 && r.queues[READY] == [2, 1] && r.mutexes == s.mutexes && |r.ticks| == |s.ticks|
  {
    hide Inv, InTable, Ticked, Tick;
    InvShape(s);
    CountDown(s, TICKS - 1);
    var r := Ticked(s, TICKS - 1);
    TickedStep(s, TICKS);
    TickInv(r);
    LastTick(r);
  }

  // The default task makes a second one and locks a mutex; then the second one runs.
  function Waiting(): seq<Op> { [DoCreate(2)] + ([DoLock(0)] + Passing(TICKS)) }

  lemma Chained(s: Sched, op: Op, rest: seq<Op>)
    requires Shape(s) && Enabled(s, op) && LegalRun(Step(s, op), rest)
    ensures LegalRun(s, [op] + rest) && Run(s, [op] + rest) == Run(Step(s, op), rest)
  {
    hide Enabled, Step, InTable;
    assert ([op] + rest)[0] == op && ([op] + rest)[1..] == rest;
  }

  lemma WaitingReached(tasks: nat, mutexes: nat, counts: seq<nat>) returns (s: Sched)
    requires tasks >= 3 && mutexes >= 1
    ensures LegalRun(Initial(tasks, mutexes, counts), Waiting()) && Run(Initial(tasks, mutexes, counts), Waiting()) == s
    ensures Inv(s) && s.running == 2 && s.queues[READY] == [2, 1] && |s.ticks| == tasks
    ensures |s.mutexes| == mutexes && s.mutexes[0] == MutexState(Some(1), 1)
    ensures forall m | 0 < m < mutexes :: s.mutexes[m] == MutexState(None, 0)
  {
    hide Inv, Initial, Create, Tick, InTable, Ticked;
    TwoTasksMade(tasks, mutexes, counts);
    var (s0, s1) := (Initial(tasks, mutexes, counts), TwoTasks(tasks, mutexes, counts));
    InvShape(s1);
    LockInv(s1, 0);
    var s2 := Lock(s1, 0);
    Switched(s2);
    s := Ticked(s2, TICKS);
    RunTicks(s2, TICKS);
    Chained(s1, DoLock(0), Passing(TICKS));
    Chained(s0, DoCreate(2), [DoLock(0)] + Passing(TICKS));
  }

  /** From every start with a mutex one can get to where tss_task_exit, without interrupts, has to wait for it, although
      the caller owns none: the count of ready_list drops to 0 while its owner heads the list; idle runs; and whoever is
      made ready next takes the owner's place. */
  lemma ExitWaits(tasks: nat, mutexes: nat, counts: seq<nat>, u: nat) returns (x: Linked.Raw)
    requires 3 <= tasks < 0xFFFF_FFFF && mutexes >= 1
    ensures LegalRun(Initial(tasks, mutexes, counts), Waiting())
    ensures var s := Run(Initial(tasks, mutexes, counts), Waiting());
      && Inv(s) && s.running != IDLE && OwnsNone(s, s.running) && Linked.Shows(x, s) && HasMutexes(s, [0])
      && Linked.Listed(x) && x.rest == s.(queues := [])
      && OwnerLost(Linked.Exit(x, [0]), u)
  {
    hide *;
    var s := WaitingReached(tasks, mutexes, counts);
    GoodShape(s);
    x := Linked.Picture(s);
    ExitBlocks(x, s, u);
  }

  predicate OwnerLost(y: Linked.Raw, u: nat) {
    && |y.ends| >= 2 && y.rest.running == IDLE
    && y.ends[READY] == Ends(Some(Linked.RunNode(1)), Some(Linked.RunNode(1)), 0)
    && Linked.InsertAt(y, READY, u).ends[READY] == Ends(Some(Linked.RunNode(u)), Some(Linked.RunNode(u)), 1)
  }

  lemma GoodShape(s: Sched)
    requires Inv(s)
    ensures Shape(s) && Linked.Apart(s.queues)
  {
    Linked.PlacedApart(s);
  }

  lemma ExitBlocks(x: Linked.Raw, s: Sched, u: nat)
    requires Inv(s) && s.running == 2 && s.queues[READY] == [2, 1] && Linked.Shows(x, s) && |s.mutexes| >= 1
    requires s.mutexes[0] == MutexState(Some(1), 1) && forall m | 0 < m < |s.mutexes| :: s.mutexes[m] == MutexState(None, 0)
    ensures s.running != IDLE && OwnsNone(s, 2) && HasMutexes(s, [0]) && Linked.Listed(x) && x.rest == s.(queues := [])
    ensures OwnerLost(Linked.Exit(x, [0]), u)
  {
    hide Inv, InTable, Without, Linked.Apart, Linked.Shows, Linked.RemoveAt, Linked.Lock, Linked.NoneHas, IsChain;
    InvShape(s);
    Linked.ShowsShape(x, s);
    Linked.LeftShows(x, s);
    var (y, r) := (Linked.RemoveAt(x, READY, 2), Take(s, READY, 2));
    LeftOne(s);
    Linked.ShowsList(y, r, READY);
    OneNode(y.links, y.ends[READY], Linked.NodesOf(READY, [1]));
    Linked.TakesWait(y, [0], 0);
    Linked.WaitBreaks(y, r, 0);
  }

  lemma LeftOne(s: Sched)
    requires Inv(s) && s.running == 2 && s.queues[READY] == [2, 1]
    ensures Take(s, READY, 2).queues[READY] == [1]
  {
    LiftIs(s);
    hide Inv, InTable, Without;
    assert [2, 1][1..] == [1];
  }

  lemma OneNode(links: map<Linked.Id, Link<Linked.Id>>, e: Ends<Linked.Id>, q: seq<Linked.Id>)
    requires IsChain(links, e, q) && |q| == 1
    ensures e == Ends(Some(q[0]), Some(q[0]), 1)
  {
  }
}
