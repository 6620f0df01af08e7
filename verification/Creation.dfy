/** tss_task_init makes the task ready with interrupts masked, and stores its ticks with interrupts on. When the creator's slice
    ends between the two, the task can come to run without any ticks: exactly then the bound on waiting is lost. */
module Creation {
  import opened Wrappers
  import opened IntrusiveList
  import opened Scheduler
  import opened SchedulerInvariant
  import opened SleepLaw
  import opened CpuWait
  import opened Preemption

  /** n ticks between the two parts; then, if it still runs, the creator's stores. */
  function Between(s: Sched, t: nat, n: nat): (r: Sched)
    requires Shape(s) && t < |s.ticks|
    ensures Shape(r) && |r.ticks| == |s.ticks|
  {
    var r := Ticked(Enlist(s, t), n);
    if r.running == s.running then Furnish(r, t) else r
  }

  /** While nothing but ticks happens, whoever runs has 1 to 10 ticks left. */
  ghost predicate Counted(s: Sched)
    requires Shape(s)
  {
    forall k: nat :: 1 <= Ticked(s, k).ticks[Ticked(s, k).running] <= TICKS
  }

  // u runs within the bound for its place on ready_list.
  ghost predicate Served(s: Sched, u: nat)
    requires Shape(s)
  {
    exists j: nat :: j <= TICKS * (IndexOf(s.queues[READY], u) + 1) && Ticked(s, j).running == u
  }

  /** And whoever waits runs within the bound. */
  ghost predicate Bounded(s: Sched)
    requires Shape(s)
  {
    forall k: nat, u: nat :: Waiting(Ticked(s, k), u) ==> Served(Ticked(s, k), u)
  }

  // ---- good states

  lemma {:induction false} InvTicked(s: Sched, k: nat)
    requires Inv(s)
    ensures Inv(Ticked(s, k))
    decreases k
  {
    hide Inv, Tick, InTable;
    InvShape(s);
    if k == 0 {
    } else {
      InvTicked(s, k - 1);
      TickInv(Ticked(s, k - 1));
    }
  }

  lemma GoodCounted(s: Sched)
    requires Inv(s)
    ensures Shape(s) && Counted(s)
  {
    hide Inv, Ticked;
    InvShape(s);
    forall k: nat
      ensures 1 <= Ticked(s, k).ticks[Ticked(s, k).running] <= TICKS
    {
      InvTicked(s, k);
      RunnerCounted(Ticked(s, k));
    }
  }

  lemma RunnerCounted(s: Sched)
    requires Inv(s)
    ensures 1 <= s.ticks[s.running] <= TICKS
  {
    if s.running != IDLE {
      RunningLive(s);
    }
  }

  // A waiting task runs after as many ticks as are ahead of it.
  lemma {:induction false} RunsAfter(s: Sched, u: nat, d: nat)
    requires Inv(s) && Waiting(s, u) && d == Debt(s, u)
    ensures d >= 1 && Ticked(s, d).running == u
    decreases d
  {
    hide Inv, Debt, Tick, InTable, Waiting;
    InvShape(s);
    TickDebt(s, u);
    TickInv(s);
    if d == 1 {
      TickedFrom(s, 0);
    } else {
      RunsAfter(Tick(s), u, d - 1);
      TickedFrom(s, d - 1);
    }
  }

  lemma DebtBound(s: Sched, u: nat)
    requires Inv(s) && Waiting(s, u)
    ensures Debt(s, u) <= TICKS * (IndexOf(s.queues[READY], u) + 1)
  {
    QueueHeadLive(s);
    InIndex(s.queues[READY], u);
    var b := Before(s.queues[READY], u);
    assert forall i | 0 <= i < |b| :: b[i] == s.queues[READY][i];
    SumBound(s.ticks, b);
    assert |b| == IndexOf(s.queues[READY], u);
    hide Placed, MutexOk, SemOk, InTable, IndexOf, Before;
  }

  lemma {:induction false} TickedAdd(s: Sched, k: nat, j: nat)
    requires Shape(s)
    ensures Ticked(Ticked(s, k), j) == Ticked(s, k + j)
    decreases j
  {
    hide Tick, InTable;
    if j == 0 {
    } else {
      TickedAdd(s, k, j - 1);
    }
  }

  lemma GoodBounded(s: Sched)
    requires Inv(s)
    ensures Shape(s) && Bounded(s)
  {
    hide Inv, Ticked, Debt, Waiting;
    InvShape(s);
    forall k: nat, u: nat | Waiting(Ticked(s, k), u)
      ensures Served(Ticked(s, k), u)
    {
      var r := Ticked(s, k);
      InvTicked(s, k);
      RunsAfter(r, u, Debt(r, u));
      DebtBound(r, u);
    }
  }

  // ---- before the slice is used up

  // The creator runs with that many ticks used, and t is ready but incomplete.
  ghost predicate Midway(s: Sched, t: nat, r: Sched, n: nat) {
    && Shape(s) && t < |s.ticks| && Good(State(r, Making(t))) && |r.ticks| == |s.ticks| && r.running == s.running
    && r.ticks[r.running] + n == s.ticks[s.running] && r.ticks[t] == s.ticks[t]
    && Furnish(r, t) == Ticked(Create(s, t), n) && r == Ticked(Enlist(s, t), n)
  }

  lemma MidwayFirst(s: Sched, t: nat)
    requires Inv(s) && Enabled(s, DoCreate(t)) && s.running != IDLE
    ensures Midway(s, t, Enlist(s, t), 0)
  {
    MakeGood(s, t);
    RunningLive(s);
    hide Inv, InTable;
  }

  lemma MidwayTick(s: Sched, t: nat, r: Sched, n: nat)
    requires Midway(s, t, r, n) && r.ticks[r.running] != 1
    ensures Midway(s, t, Tick(r), n + 1)
  {
    hide Inv, Tick, InTable, Create, Enlist;
    MakingTimer(r, t);
    ReadyNotAsleep(Furnish(r, t), t);
    TickFurnish(r, t);
    TickLifted(Furnish(r, t));
    TickedStep(Create(s, t), n + 1);
    TickedStep(Enlist(s, t), n + 1);
  }

  lemma {:induction false} MidwayAt(s: Sched, t: nat, n: nat)
    requires Inv(s) && Enabled(s, DoCreate(t)) && s.running != IDLE && n < s.ticks[s.running]
    ensures Midway(s, t, Ticked(Enlist(s, t), n), n)
    decreases n
  {
    hide Inv, Tick, InTable, Enlist, Midway;
    InvShape(s);
    MidwayFirst(s, t);
    if n == 0 {
    } else {
      MidwayAt(s, t, n - 1);
      MidwayStep(s, t, n - 1);
    }
  }

  lemma MidwayStep(s: Sched, t: nat, n: nat)
    requires Shape(s) && t < |s.ticks| && Midway(s, t, Ticked(Enlist(s, t), n), n) && n + 1 < s.ticks[s.running]
    ensures Midway(s, t, Ticked(Enlist(s, t), n + 1), n + 1)
  {
    hide Good, Tick, InTable, Enlist, Create, Furnish;
    MidwayTick(s, t, Ticked(Enlist(s, t), n), n);
    TickedStep(Enlist(s, t), n + 1);
  }

  /** While the creator's slice lasts, its stores come before anybody else runs, as if the ticks came after them. */
  lemma StoresInTime(s: Sched, t: nat, n: nat)
    requires Inv(s) && Enabled(s, DoCreate(t)) && s.running != IDLE && n < s.ticks[s.running]
    ensures Between(s, t, n) == Ticked(Create(s, t), n) && Inv(Between(s, t, n))
    ensures Counted(Between(s, t, n)) && Bounded(Between(s, t, n))
  {
    hide Tick, InTable, Enlist, Create, Furnish, Ticked, Counted, Bounded;
    MidwayAt(s, t, n);
    MidwayMeans(s, t, Ticked(Enlist(s, t), n), n);
    GoodCounted(Between(s, t, n));
    GoodBounded(Between(s, t, n));
  }

  lemma MidwayMeans(s: Sched, t: nat, r: Sched, n: nat)
    requires Midway(s, t, r, n)
    ensures r.running == s.running && Inv(Furnish(r, t))
    ensures Furnish(r, t) == Ticked(Create(s, t), n) && r == Ticked(Enlist(s, t), n)
  {
  }

  // ---- once it is used up

  // t, ready, has no ticks yet; otherwise the state is good. c is ready too.
  ghost predicate Bare(r: Sched, t: nat, c: nat) {
    && Shape(r) && t < |r.ticks| && Inv(Furnish(r, t)) && r.ticks[t] == 0 && t in r.queues[READY]
    && c in r.queues[READY] && c != t && t != IDLE
  }

  lemma ReadyStays(s: Sched, u: nat)
    requires Inv(s) && u in s.queues[READY]
    ensures u in Tick(s).queues[READY]
  {
    var extra := WalkReady(s);
    WalkInv(s);
    var w := Walk(s, 0);
    hide Walk, Inv, InTable, Without;
    AccountKeeps(w, u);
  }

  lemma AccountKeeps(s: Sched, u: nat)
    requires Inv(s) && u in s.queues[READY]
    ensures u in Account(s).queues[READY]
  {
    var s1 := s.(ticks := s.ticks[s.running := TICKS]);
    RotatedIs(s1);
    hide Placed, CountersOk, MutexOk, SemOk, InTable, SetReady, SetBlock;
    var q := s.queues[READY];
    if s.running != IDLE {
      assert q == [q[0]] + q[1..] && u in q[1..] + [q[0]];
    }
  }

  lemma BareTick(r: Sched, t: nat, c: nat)
    requires Bare(r, t, c) && r.running != t
    ensures Bare(Tick(r), t, c) && Tick(Furnish(r, t)) == Furnish(Tick(r), t)
  {
    hide Inv, Tick, InTable;
    var f := Furnish(r, t);
    ReadyNotAsleep(f, t);
    TickFurnish(r, t);
    TickInv(f);
    ReadyStays(f, t);
    ReadyStays(f, c);
  }

  /** Then t's turn comes, and it has no ticks. */
  lemma {:induction false} BareRuns(r: Sched, t: nat, c: nat, d: nat) returns (k: nat)
    requires Bare(r, t, c) && d == (if r.running == t then 0 else Debt(Furnish(r, t), t))
    ensures Bare(Ticked(r, k), t, c) && Ticked(r, k).running == t
    decreases d
  {
    hide Bare, Debt, Tick, InTable, Inv;
    BareParts(r, t, c);
    if r.running == t {
      k := 0;
    } else {
      var f := Furnish(r, t);
      TickDebt(f, t);
      BareTick(r, t, c);
      BareParts(Tick(r), t, c);
      k := BareRuns(Tick(r), t, c, if Tick(r).running == t then 0 else d - 1);
      TickedFrom(r, k);
      k := k + 1;
    }
  }

  lemma BareParts(r: Sched, t: nat, c: nat)
    requires Bare(r, t, c)
    ensures Shape(r) && t < |r.ticks| && Inv(Furnish(r, t)) && t != IDLE && r.ticks[t] == 0
    ensures r.running != t ==> Waiting(Furnish(r, t), t)
    ensures Waiting(r, c) <==> r.running != c
    ensures c != t
  {
    hide Inv, InTable;
  }

  // What a tick does to the running task when it leaves it some of its slice.
  lemma {:induction false} WalkKeeps(s: Sched, k: nat)
    requires Shape(s)
    ensures Walk(s, k).running == s.running && Walk(s, k).ticks == s.ticks
    ensures forall u | u in s.queues[READY] :: u in Walk(s, k).queues[READY]
    decreases |s.queues[SLEEPING]| - k
  {
    if k >= |s.queues[SLEEPING]| {
    } else {
      var t := s.queues[SLEEPING][k];
      var s1 := s.(sleep := s.sleep[t := Dec(s.sleep[t])]);
      hide InTable, Without;
      if s1.sleep[t] != 0 {
        WalkKeeps(s1, k + 1);
      }
    }
  }

  lemma TickKeeps(s: Sched)
    requires Shape(s) && s.ticks[s.running] != 1
    ensures Tick(s).running == s.running && Tick(s).ticks[s.running] == Dec(s.ticks[s.running])
    ensures forall u | u in s.queues[READY] :: u in Tick(s).queues[READY]
  {
    WalkKeeps(s, 0);
    hide Walk, InTable;
  }

  // Without ticks, t runs on and on.
  lemma {:induction false} RunsOn(z: Sched, c: nat, j: nat)
    requires Shape(z) && z.ticks[z.running] == 0 && c in z.queues[READY] && j <= 0xFFFF_FFFF
    ensures Ticked(z, j).running == z.running && c in Ticked(z, j).queues[READY]
    ensures Ticked(z, j).ticks[z.running] == if j == 0 then 0 else 0x1_0000_0000 - j
    decreases j
  {
    hide Tick, InTable;
    if j == 0 {
    } else {
      RunsOn(z, c, j - 1);
      TickKeeps(Ticked(z, j - 1));
    }
  }

  lemma BareLost(r: Sched, t: nat, c: nat)
    requires Bare(r, t, c) && |r.ticks| <= 0xFFF_FFFF
    ensures !Counted(r) && !Bounded(r)
  {
    hide Ticked, Debt, Inv, InTable, IndexOf;
    BareParts(r, t, c);
    var k := BareRuns(r, t, c, if r.running == t then 0 else Debt(Furnish(r, t), t));
    var z := Ticked(r, k);
    BareParts(z, t, c);
    assert z.ticks[z.running] == 0;
    forall j: nat | j <= TICKS * (IndexOf(z.queues[READY], c) + 1)
      ensures Ticked(z, j).running != c
    {
      ReadyShort(z, t);
      RunsOn(z, c, j);
    }
    assert Waiting(Ticked(r, k), c) && !Served(Ticked(r, k), c);
  }

  lemma ReadyShort(z: Sched, t: nat)
    requires Shape(z) && t < |z.ticks| && Inv(Furnish(z, t))
    ensures |z.queues[READY]| <= |z.ticks|
  {
    PlacedDistinct(Furnish(z, t), READY);
    hide Inv, Distinct;
    assert forall u | u in z.queues[READY] :: u < |z.ticks|;
    DistinctBelow(z.queues[READY], |z.ticks|);
  }

  // The tick that ends the creator's slice.
  lemma SliceEnds(s: Sched, t: nat, r: Sched, n: nat)
    requires Midway(s, t, r, n) && r.ticks[r.running] == 1 && s.ticks[t] == 0 && t != IDLE
    ensures Bare(Tick(r), t, s.running) && Tick(r).running != s.running
  {
    hide Inv, Tick, InTable, Create, Enlist;
    var f := Furnish(r, t);
    ReadyNotAsleep(f, t);
    TickFurnish(r, t);
    TickInv(f);
    CreatorBehind(f, t);
    ReadyStays(f, t);
    ReadyStays(f, s.running);
  }

  lemma CreatorBehind(s: Sched, t: nat)
    requires Inv(s) && s.running != IDLE && s.running != t && t in s.queues[READY] && s.ticks[s.running] == 1
    ensures s.running in s.queues[READY] && Tick(s).running != s.running
  {
    var extra := WalkReady(s);
    WalkInv(s);
    var w := Walk(s, 0);
    WalkKeeps(s, 0);
    hide Walk, Placed, CountersOk, MutexOk, SemOk, InTable;
    SecondRuns(w, t);
  }

  lemma SecondRuns(s: Sched, t: nat)
    requires Inv(s) && s.running != IDLE && s.running != t && t in s.queues[READY] && s.ticks[s.running] == 1
    ensures Account(s).running != s.running
  {
    var q := s.queues[READY];
    RotatedIs(s.(ticks := s.ticks[s.running := TICKS]));
    PlacedDistinct(s, READY);
    hide Placed, CountersOk, MutexOk, SemOk, InTable, SetReady, SetBlock;
    assert q[0] == s.running && |q| > 1 && q[1] != q[0];
    assert (q[1..] + [q[0]])[0] == q[1];
  }

  /** n ticks between the two parts of tss_task_init, on a slot without ticks: whoever runs from then on has 1 to 10 ticks left,
      and whoever waits runs within the bound, if and only if the creator's slice outlasts them. */
  lemma CreateExactly(s: Sched, t: nat, n: nat)
    requires Inv(s) && Enabled(s, DoCreate(t)) && s.running != IDLE && s.ticks[t] == 0 && |s.ticks| <= 0xFFF_FFFF
    requires n <= s.ticks[s.running]
    ensures Counted(Between(s, t, n)) <==> n < s.ticks[s.running]
    ensures Bounded(Between(s, t, n)) <==> n < s.ticks[s.running]
  {
    hide Tick, InTable, Enlist, Furnish, Inv, Ticked, Counted, Bounded;
    InvShape(s);
    if n < s.ticks[s.running] {
      StoresInTime(s, t, n);
    } else {
      RunnerCounted(s);
      MidwayAt(s, t, n - 1);
      var r := Ticked(Enlist(s, t), n - 1);
      OneLeft(s, t, r, n - 1);
      SliceEnds(s, t, r, n - 1);
      TickedStep(Enlist(s, t), n);
      BareLost(Tick(r), t, s.running);
    }
  }

  lemma OneLeft(s: Sched, t: nat, r: Sched, n: nat)
    requires Midway(s, t, r, n) && n + 1 == s.ticks[s.running]
    ensures r.running < |r.ticks| && r.ticks[r.running] == 1 && |r.ticks| == |s.ticks|
  {
  }

  /** From the start: the default task creates task 2, and its slice ends before the stores. */
  lemma CreateRace(tasks: nat, mutexes: nat, counts: seq<nat>)
    requires 3 <= tasks <= 0xFFF_FFFF
    ensures var r := Between(Initial(tasks, mutexes, counts), 2, TICKS); !Counted(r) && !Bounded(r)
  {
    hide Counted, Bounded, Between, Inv;
    InitialInv(tasks, mutexes, counts);
    CreateExactly(Initial(tasks, mutexes, counts), 2, TICKS);
  }
}
