/** The exact law of sleep_list: counter plus position falls by one on every tick on which the task does not wake, and
    no other step moves it. */
module SleepLaw {
  import opened Wrappers
  import opened IntrusiveList
  import opened Scheduler
  import opened SchedulerInvariant

  predicate Asleep(s: Sched, t: nat)
    requires Shape(s)
  {
    t in s.queues[SLEEPING]
  }

  function Position(s: Sched, t: nat): nat
    requires Shape(s)
  {
    IndexOf(s.queues[SLEEPING], t)
  }

  /** Counter plus position. */
  function Level(s: Sched, t: nat): nat
    requires Shape(s)
  {
    (if t < |s.sleep| then s.sleep[t] else 0) + Position(s, t)
  }

  lemma IndexUnique<T>(q: seq<T>, i: nat)
    requires Distinct(q) && i < |q|
    ensures IndexOf(q, q[i]) == i
  {
    var k := IndexOf(q, q[i]);
    assert q[i] in q && k < |q|;
    assert forall j | 0 <= j < k :: q[..k][j] == q[j];
  }

  // Positions after u has left.
  lemma IndexWithout<T>(q: seq<T>, u: T, t: T)
    requires Distinct(q) && u in q && t in q && u != t
    ensures t in Without(q, u)
    ensures IndexOf(Without(q, u), t) == IndexOf(q, t) - if IndexOf(q, u) < IndexOf(q, t) then 1 else 0
  {
    WithoutAt(q, u);
    var (i, k) := (IndexOf(q, t), IndexOf(q, u));
    InIndex(q, t);
    var r := Without(q, u);
    assert i != k;
    hide Without, IndexOf, Distinct;
    var j := if k < i then i - 1 else i;
    assert r[j] == t;
    IndexUnique(r, j);
  }

  lemma InIndex<T>(q: seq<T>, t: T)
    requires t in q
    ensures IndexOf(q, t) < |q| && q[IndexOf(q, t)] == t
  {
  }

  lemma IndexAppend<T>(q: seq<T>, t: T, u: T)
    requires Distinct(q + [u])
    ensures t in q ==> IndexOf(q + [u], t) == IndexOf(q, t)
    ensures IndexOf(q + [u], u) == |q|
  {
    IndexUnique(q + [u], |q|);
    if t in q {
      InIndex(q, t);
      assert (q + [u])[IndexOf(q, t)] == t;
      IndexUnique(q + [u], IndexOf(q, t));
    }
  }

  // The rest of tss_task_ts does not touch the sleepers.
  lemma TickSleepers(s: Sched)
    requires Inv(s)
    ensures var (q, r) := (s.queues[SLEEPING], Tick(s));
      var w := Waker(s.sleep, q, 0);
      if w < |q| then
        r.queues[SLEEPING] == Without(q, q[w]) && r.sleep == Lowered(s.sleep, q, 0, w + 1)
      else
        r.queues[SLEEPING] == q && r.sleep == Lowered(s.sleep, q, 0, w)
  {
    hide Walk, Without, InTable, Waker, Lowered, Inv;
    InvShape(s);
    SleepersDistinct(s);
    WalkWakesFirst(s, 0);
  }

  // sleep_list after a tick.
  function AfterTick(sleep: seq<nat>, q: seq<nat>): seq<nat>
    requires forall i | 0 <= i < |q| :: q[i] < |sleep|
  {
    var w := Waker(sleep, q, 0);
    if w < |q| then Without(q, q[w]) else q
  }

  lemma CountDown(sleep: seq<nat>, q: seq<nat>, t: nat)
    requires Distinct(q) && (forall i | 0 <= i < |q| :: q[i] < |sleep| && sleep[q[i]] >= 1) && t in q
    ensures var w := Waker(sleep, q, 0);
      var r := AfterTick(sleep, q);
      if w < |q| && q[w] == t then t !in r && sleep[t] == 1
      else t in r && Lowered(sleep, q, 0, if w < |q| then w + 1 else w)[t] + IndexOf(r, t) == sleep[t] + IndexOf(q, t) - 1
  {
    var (w, i) := (Waker(sleep, q, 0), IndexOf(q, t));
    InIndex(q, t);
    hide Waker, Lowered, IndexOf, Without;
    LoweredAt(sleep, q, 0, if w < |q| then w + 1 else w, i);
    if w < |q| {
      IndexUnique(q, w);
      if q[w] == t {
        WithoutAt(q, t);
      } else {
        IndexWithout(q, q[w], t);
      }
    }
  }

  /** One tick: a sleeper whose turn it is wakes, alone; for every other the level falls by exactly one. */
  lemma TickLevel(s: Sched, t: nat)
    requires Inv(s) && Asleep(s, t)
    ensures t < |s.sleep| && (!Asleep(Tick(s), t) ==> s.sleep[t] == 1)
    ensures Asleep(Tick(s), t) ==> Level(Tick(s), t) == Level(s, t) - 1
  {
    hide Tick, Without, InTable, Waker, Lowered, IndexOf, Distinct, Placed, RunningOk, CountersOk, MutexOk, SemOk;
    TickSleepers(s);
    SleepersDistinct(s);
    var q := s.queues[SLEEPING];
    InIndex(q, t);
    assert Tick(s).queues[SLEEPING] == AfterTick(s.sleep, q);
    hide AfterTick;
    CountDown(s.sleep, q, t);
  }

  lemma LevelPositive(s: Sched, t: nat)
    requires Inv(s) && Asleep(s, t)
    ensures Level(s, t) >= 1
  {
    hide IndexOf, Placed, MutexOk, SemOk, RunningOk;
    SleepersDistinct(s);
  }

  /** At most one task wakes on a tick. */
  lemma OneWakes(s: Sched, t: nat, u: nat)
    requires Inv(s) && Asleep(s, t) && Asleep(s, u) && !Asleep(Tick(s), t) && !Asleep(Tick(s), u)
    ensures t == u
  {
    TickSleepers(s);
    SleepersDistinct(s);
    CountDown(s.sleep, s.queues[SLEEPING], t);
    CountDown(s.sleep, s.queues[SLEEPING], u);
    hide Tick, Without, InTable, Waker, Lowered, IndexOf, Queued;
  }

  // Which steps touch sleep_list, and how.
  lemma StepSleepers(s: Sched, op: Op)
    requires Inv(s) && Enabled(s, op) && !op.DoTick?
    ensures Step(s, op).queues[SLEEPING] == s.queues[SLEEPING] + if op.DoSleep? then [s.running] else []
    ensures forall t | 0 <= t < |s.sleep| && t != s.running && !(op.DoCreate? && op.t == t) ::
      Step(s, op).sleep[t] == s.sleep[t]
  {
    hide Without, InTable, Inv, Exit;
    InvShape(s);
    if op.DoExit? {
      ExitTakesNone(s, op.takes);
    }
  }

  /** Every other step leaves the level of a sleeper alone. */
  lemma OtherLevel(s: Sched, op: Op, t: nat)
    requires Inv(s) && Enabled(s, op) && !op.DoTick? && Asleep(s, t)
    ensures Asleep(Step(s, op), t) && Level(Step(s, op), t) == Level(s, t)
    ensures Position(Step(s, op), t) == Position(s, t)
  {
    hide Step, InTable, IndexOf, Distinct, Placed, CountersOk, MutexOk, SemOk, RunningOk;
    StepSleepers(s, op);
    StepInv(s, op);
    SleepersDistinct(s);
    SleepersDistinct(Step(s, op));
    NotRunning(s, t);
    SleeperLive(s, t);
    InIndex(s.queues[SLEEPING], t);
    assert s.queues[SLEEPING] + [] == s.queues[SLEEPING];
    if op.DoSleep? {
      IndexAppend(s.queues[SLEEPING], t, s.running);
    }
  }

  lemma SleeperLive(s: Sched, t: nat)
    requires Inv(s) && Asleep(s, t)
    ensures t in s.live
  {
    PlacedMeans(s, SLEEPING, t);
  }

  lemma NotRunning(s: Sched, t: nat)
    requires Inv(s) && Asleep(s, t)
    ensures t != s.running
  {
    PlacedMeans(s, SLEEPING, t);
    if s.running != IDLE {
      assert s.running in s.queues[READY];
    }
  }

  /** Going to sleep for ms ticks behind k sleepers starts at level ms + k. */
  lemma SleepStart(s: Sched, ms: nat)
    requires Inv(s) && Enabled(s, DoSleep(ms))
    ensures var r := Sleep(s, ms);
      Asleep(r, s.running) && r.sleep[s.running] == ms && Position(r, s.running) == |s.queues[SLEEPING]|
  {
    StepInv(s, DoSleep(ms));
    PlacedDistinct(Sleep(s, ms), SLEEPING);
    hide Without, InTable, IndexOf;
    assert Sleep(s, ms).queues[SLEEPING] == s.queues[SLEEPING] + [s.running];
    IndexAppend(s.queues[SLEEPING], s.running, s.running);
  }

  // ---- whole runs

  function Ticks(ops: seq<Op>): nat {
    if ops == [] then 0 else Ticks(ops[1..]) + if ops[0].DoTick? then 1 else 0
  }

  /** Task t sleeps in every state of the run. */
  predicate AsleepThroughout(s: Sched, ops: seq<Op>, t: nat)
    requires Shape(s) && LegalRun(s, ops)
    decreases |ops|
  {
    Asleep(s, t) && (ops != [] ==> AsleepThroughout(Step(s, ops[0]), ops[1..], t))
  }

  /** Over any run through which t sleeps, its level has fallen by exactly the number of ticks. */
  lemma {:induction false} LevelFalls(s: Sched, ops: seq<Op>, t: nat)
    requires Inv(s) && LegalRun(s, ops) && AsleepThroughout(s, ops, t)
    ensures Inv(Run(s, ops)) && Asleep(Run(s, ops), t) && Level(Run(s, ops), t) == Level(s, t) - Ticks(ops)
    ensures Position(Run(s, ops), t) <= Position(s, t)
    decreases |ops|
  {
    hide Step, Queued, InTable, Without, IndexOf, Level, Placed, CountersOk, MutexOk, SemOk, RunningOk;
    if ops == [] {
    } else {
      StepInv(s, ops[0]);
      if ops[0].DoTick? {
        TickIsStep(s, t);
      } else {
        OtherLevel(s, ops[0], t);
      }
      LevelFalls(Step(s, ops[0]), ops[1..], t);
    }
  }

  lemma StepTick(s: Sched)
    requires Shape(s)
    ensures Step(s, DoTick) == Tick(s)
  {
  }

  lemma TickIsStep(s: Sched, t: nat)
    requires Inv(s) && Asleep(s, t) && Asleep(Step(s, DoTick), t)
    ensures Level(Step(s, DoTick), t) == Level(s, t) - 1 && Position(Step(s, DoTick), t) <= Position(s, t)
  {
    TickLevel(s, t);
    PositionFalls(s, t);
  }

  lemma PositionFalls(s: Sched, t: nat)
    requires Inv(s) && Asleep(s, t) && Asleep(Tick(s), t)
    ensures Position(Tick(s), t) <= Position(s, t)
  {
    TickSleepers(s);
    SleepersDistinct(s);
    var q := s.queues[SLEEPING];
    var w := Waker(s.sleep, q, 0);
    hide Tick, InTable, Waker, Lowered, Inv, Distinct, IndexOf;
    if w < |q| {
      if q[w] == t {
        WithoutAt(q, t);
      } else {
        IndexWithout(q, q[w], t);
      }
    }
  }

  /** The exact sleep law. A task that goes to sleep for ms ticks behind k sleepers, sleeps through `ops`, and wakes on
      the tick after that, wakes on tick ms + k - j exactly, where j of the k are still asleep ahead of it: so between
      ms and ms + k. */
  lemma SleepLasts(s: Sched, ms: nat, ops: seq<Op>)
    requires Inv(s) && Enabled(s, DoSleep(ms))
    requires LegalRun(Sleep(s, ms), ops) && AsleepThroughout(Sleep(s, ms), ops, s.running)
    requires !Asleep(Tick(Run(Sleep(s, ms), ops)), s.running)
    ensures var (k, j) := (|s.queues[SLEEPING]|, Position(Run(Sleep(s, ms), ops), s.running));
      0 <= j <= k && Ticks(ops) + 1 == ms + k - j
  {
    hide Run, AsleepThroughout, Tick, IndexOf, Queued, InTable, Without;
    SleepStart(s, ms);
    SleepInv(s, ms);
    LevelFalls(Sleep(s, ms), ops, s.running);
    TickLevel(Run(Sleep(s, ms), ops), s.running);
  }

  /** And it does wake: a run through which it sleeps has fewer than ms + k ticks. */
  lemma SleepEnds(s: Sched, ms: nat, ops: seq<Op>)
    requires Inv(s) && Enabled(s, DoSleep(ms))
    requires LegalRun(Sleep(s, ms), ops) && AsleepThroughout(Sleep(s, ms), ops, s.running)
    ensures Ticks(ops) < ms + |s.queues[SLEEPING]|
  {
    hide Run, AsleepThroughout, Tick, IndexOf, Queued, InTable, Without;
    SleepStart(s, ms);
    SleepInv(s, ms);
    LevelFalls(Sleep(s, ms), ops, s.running);
    LevelPositive(Run(Sleep(s, ms), ops), s.running);
  }

  // The tasks ahead of t in sleep_list.
  function Ahead(s: Sched, t: nat): seq<nat>
    requires Shape(s)
  {
    s.queues[SLEEPING][..Position(s, t)]
  }

  /** Nobody overtakes a sleeper: the tasks ahead of it after a run through which it sleeps were ahead of it before, so
      the k - j of the law are tasks that woke earlier. */
  lemma {:induction false} NoneOvertake(s: Sched, ops: seq<Op>, t: nat, u: nat)
    requires Inv(s) && LegalRun(s, ops) && AsleepThroughout(s, ops, t) && u in Ahead(Run(s, ops), t)
    ensures u in Ahead(s, t)
    decreases |ops|
  {
    hide Step, Queued, InTable, Without, IndexOf, Ahead, Placed, CountersOk, MutexOk, SemOk, RunningOk;
    if ops == [] {
    } else {
      StepInv(s, ops[0]);
      NoneOvertake(Step(s, ops[0]), ops[1..], t, u);
      StepAhead(s, ops[0], t, u);
    }
  }

  lemma StepAhead(s: Sched, op: Op, t: nat, u: nat)
    requires Inv(s) && Enabled(s, op) && Asleep(s, t) && Asleep(Step(s, op), t) && u in Ahead(Step(s, op), t)
    ensures u in Ahead(s, t)
  {
    hide Step, InTable, IndexOf, Placed, CountersOk, MutexOk, SemOk, RunningOk, Without, Distinct;
    var q := s.queues[SLEEPING];
    SleepersDistinct(s);
    if op.DoTick? {
      StepTick(s);
      TickAhead(s, t, u);
    } else {
      OtherLevel(s, op, t);
      StepSleepers(s, op);
      InIndex(q, t);
    }
  }

  lemma TickAhead(s: Sched, t: nat, u: nat)
    requires Inv(s) && Asleep(s, t) && Asleep(Tick(s), t) && u in Ahead(Tick(s), t)
    ensures u in Ahead(s, t)
  {
    var q := s.queues[SLEEPING];
    InIndex(q, t);
    SleepersDistinct(s);
    TickSleepers(s);
    var w := Waker(s.sleep, q, 0);
    hide Tick, InTable, Waker, Lowered, Inv, IndexOf, Distinct;
    if w < |q| && q[w] == t {
      WithoutAt(q, t);
    } else if w < |q| {
      AheadWithout(q, q[w], t, u);
    }
  }

  lemma AheadWithout(q: seq<nat>, v: nat, t: nat, u: nat)
    requires Distinct(q) && v in q && t in q && v != t && u in Without(q, v)[..IndexOf(Without(q, v), t)]
    ensures u in q[..IndexOf(q, t)]
  {
    hide Without, IndexOf, Distinct;
    IndexWithout(q, v, t);
    WithoutAt(q, v);
    InIndex(q, t);
    var r := Without(q, v);
    var j :| 0 <= j < IndexOf(r, t) && r[j] == u;
    var i := if j < IndexOf(q, v) then j else j + 1;
    assert q[i] == u && i < IndexOf(q, t);
  }
}
