/** Bounded waiting for the processor: the ticks left to the tasks ahead of a queued task, and to idle while it runs,
    fall by exactly one on each tick, and no other step raises them. */
module CpuWait {
  import opened Wrappers
  import opened IntrusiveList
  import opened Scheduler
  import opened SchedulerInvariant
  import opened SleepLaw

  predicate Waiting(s: Sched, t: nat)
    requires Shape(s)
  {
    t in s.queues[READY] && t != s.running
  }

  function TickSum(ticks: seq<nat>, q: seq<nat>): nat
    requires forall i | 0 <= i < |q| :: q[i] < |ticks|
  {
    if q == [] then 0 else ticks[q[0]] + TickSum(ticks, q[1..])
  }

  // The part of q ahead of t.
  function Before(q: seq<nat>, t: nat): (r: seq<nat>)
    ensures forall i | 0 <= i < |r| :: r[i] in q
  {
    q[..IndexOf(q, t)]
  }

  /** The ticks to pass before t's turn. */
  function Debt(s: Sched, t: nat): nat
    requires Shape(s)
  {
    TickSum(s.ticks, Before(s.queues[READY], t)) + if s.running == IDLE then s.ticks[IDLE] else 0
  }

  lemma {:induction false} SumSame(ticks: seq<nat>, ticks2: seq<nat>, q: seq<nat>)
    requires forall i | 0 <= i < |q| :: q[i] < |ticks| && q[i] < |ticks2| && ticks2[q[i]] == ticks[q[i]]
    ensures TickSum(ticks2, q) == TickSum(ticks, q)
  {
    if q == [] {
    } else {
      SumSame(ticks, ticks2, q[1..]);
    }
  }

  lemma {:induction false} SumBound(ticks: seq<nat>, q: seq<nat>)
    requires forall i | 0 <= i < |q| :: q[i] < |ticks| && 1 <= ticks[q[i]] <= TICKS
    ensures |q| <= TickSum(ticks, q) <= TICKS * |q|
  {
    if q == [] {
    } else {
      SumBound(ticks, q[1..]);
    }
  }

  // Where t stands once the first k of q have left and others have joined behind.
  lemma BeforeLater(q: seq<nat>, k: nat, extra: seq<nat>, t: nat)
    requires Distinct(q) && t in q && k <= IndexOf(q, t)
    ensures t in q[k..] + extra && IndexOf(q[k..] + extra, t) == IndexOf(q, t) - k
    ensures Before(q[k..] + extra, t) == Before(q, t)[k..]
  {
    InIndex(q, t);
    var i := IndexOf(q, t);
    var r := q[k..] + extra;
    assert r[i - k] == t;
    assert forall j | 0 <= j < i - k :: r[j] == q[j + k] && q[j + k] != t;
    FirstAt(r, i - k);
  }

  lemma FirstAt(q: seq<nat>, i: nat)
    requires i < |q| && forall j | 0 <= j < i :: q[j] != q[i]
    ensures IndexOf(q, q[i]) == i
  {
    var k := IndexOf(q, q[i]);
    assert q[i] in q;
    assert forall j | 0 <= j < k :: q[..k][j] == q[j];
  }

  /** The steps other than the tick keep ready_list but for its head, if that is the caller leaving, and add at the back;
      the counters of those who stay are kept; and the next to run is the head or whoever ran. */
  ghost predicate Shifts(s: Sched, r: Sched, k: nat, extra: seq<nat>)
    requires Shape(s) && Shape(r)
  {
    && k <= 1 && k <= |s.queues[READY]| && (k == 1 ==> s.running != IDLE)
    && r.queues[READY] == s.queues[READY][k..] + extra
    && |r.ticks| == |s.ticks|
    && (forall u | u in s.queues[READY][k..] :: u < |s.ticks| && r.ticks[u] == s.ticks[u]) && r.ticks[IDLE] == s.ticks[IDLE]
    && (r.queues[READY] != [] ==> r.running == r.queues[READY][0] || (k == 0 && r.running == s.running))
  }

  // Those ahead of t afterwards were ahead of it before, and have the ticks they had.
  lemma ShiftAhead(s: Sched, r: Sched, k: nat, extra: seq<nat>, t: nat)
    requires Inv(s) && Inv(r) && Shifts(s, r, k, extra) && Waiting(s, t)
    ensures t in r.queues[READY]
    ensures var (b, a) := (Before(s.queues[READY], t), Before(r.queues[READY], t));
      && k <= |b| && a == b[k..]
      && forall i | 0 <= i < |a| :: a[i] < |s.ticks| && a[i] < |r.ticks| && r.ticks[a[i]] == s.ticks[a[i]]
  {
    hide IndexOf, Before, InTable;
    var q := s.queues[READY];
    PlacedDistinct(s, READY);
    InIndex(q, t);
    assert k == 1 ==> q[0] == s.running && IndexOf(q, t) >= 1;
    BeforeLater(q, k, extra, t);
    BeforeIs(q, t);
    var b := Before(q, t);
    assert forall i | 0 <= i < |b[k..]| :: b[k..][i] == q[i + k] && q[i + k] in q[k..];
  }

  lemma BeforeIs(q: seq<nat>, t: nat)
    ensures Before(q, t) == q[..IndexOf(q, t)]
  {
    hide IndexOf;
  }

  // Idle does not start to run.
  lemma ShiftRunner(s: Sched, r: Sched, k: nat, extra: seq<nat>)
    requires Inv(s) && Inv(r) && Shifts(s, r, k, extra) && r.queues[READY] != []
    ensures r.running == IDLE ==> s.running == IDLE && r.ticks[IDLE] == s.ticks[IDLE]
  {
    hide InTable;
    PlacedMeans(r, READY, r.queues[READY][0]);
  }

  lemma SumTail(ticks: seq<nat>, q: seq<nat>, k: nat)
    requires k <= 1 && k <= |q| && forall i | 0 <= i < |q| :: q[i] < |ticks|
    ensures TickSum(ticks, q[k..]) <= TickSum(ticks, q)
  {
    assert k == 0 ==> q[k..] == q;
  }

  /** After such a shift a waiting task runs, or waits with no greater debt. */
  lemma ShiftDebt(s: Sched, r: Sched, k: nat, extra: seq<nat>, t: nat)
    requires Inv(s) && Inv(r) && Shifts(s, r, k, extra) && Waiting(s, t)
    ensures r.running == t || (Waiting(r, t) && Debt(r, t) <= Debt(s, t))
  {
    hide Inv, IndexOf, Before, Distinct;
    InvShape(s);
    InvShape(r);
    ShiftAhead(s, r, k, extra, t);
    ShiftRunner(s, r, k, extra);
    var b := Before(s.queues[READY], t);
    SumSame(s.ticks, r.ticks, b[k..]);
    SumTail(s.ticks, b, k);
  }

  // The caller stays, and at most one task joins at the back.
  lemma StayShifts(s: Sched, r: Sched, extra: seq<nat>)
    requires Inv(s) && Shape(r) && |r.ticks| == |s.ticks| && r.ticks[IDLE] == s.ticks[IDLE]
    requires r.queues[READY] == s.queues[READY] + extra && (forall u | u in s.live :: u < |s.ticks| && r.ticks[u] == s.ticks[u])
    requires r.queues[READY] != [] ==> r.running == r.queues[READY][0] || r.running == s.running
    ensures Shifts(s, r, 0, extra)
  {
    assert s.queues[READY][0..] == s.queues[READY];
    QueueHeadLive(s);
  }

  // The caller leaves the head of ready_list and the next one is dispatched.
  lemma LeaveShifts(s: Sched, r: Sched, extra: seq<nat>)
    requires Inv(s) && s.running != IDLE && Shape(r) && |r.ticks| == |s.ticks| && r.ticks[IDLE] == s.ticks[IDLE]
    requires r.queues[READY] == Without(s.queues[READY], s.running) + extra
    requires forall u | u in s.live && u != s.running :: u < |s.ticks| && r.ticks[u] == s.ticks[u]
    requires r.queues[READY] != [] ==> r.running == r.queues[READY][0]
    ensures Shifts(s, r, 1, extra)
  {
    var q := s.queues[READY];
    WithoutHead(q);
    QueueHeadLive(s);
    PlacedDistinct(s, READY);
    RestOthers(q);
    hide Without, Placed, InTable, MutexOk, SemOk, CountersOk, Distinct;
    assert r.queues[READY] == q[1..] + extra;
  }

  lemma RestOthers(q: seq<nat>)
    requires Distinct(q) && q != []
    ensures forall u | u in q[1..] :: u in q && u != q[0]
  {
  }

  lemma NothingMore(q: seq<nat>)
    ensures q + [] == q
  {
  }

  /** Every step but the tick is such a shift. */
  lemma StepShifts(s: Sched, op: Op) returns (k: nat, extra: seq<nat>)
    requires Inv(s) && Enabled(s, op) && !op.DoTick?
    ensures Shifts(s, Step(s, op), k, extra)
  {
    hide Shifts, Without, Placed, Distinct, InTable, MutexOk, SemOk;
    QueueHeadLive(s);
    var r, q, t := Step(s, op), s.queues[READY], s.running;
    NothingMore(q);
    NothingMore(Without(q, t));
    match op
    case DoYield =>
      if |q| > 1 && t != IDLE {
        k, extra := 1, [t];
        LeaveShifts(s, r, extra);
      } else {
        k, extra := 0, [];
        StayShifts(s, r, extra);
      }
    case DoSleep(ms) =>
      k, extra := 1, [];
      LeaveShifts(s, r, extra);
    case DoExit(takes) =>
      ExitTakesNone(s, takes);
      k, extra := 1, [];
      LeaveShifts(s, r, extra);
    case DoCreate(u) =>
      k, extra := 0, [u];
      StayShifts(s, r, extra);
    case DoLock(m) => k, extra := LockShifts(s, m);
    case DoWait(j) => k, extra := WaitShifts(s, j);
    case DoUnlock(m) =>
      k := 0;
      extra := UnlockShifts(s, m);
    case DoNotify(j) =>
      k := 0;
      extra := NotifyShifts(s, j);
  }

  lemma LockShifts(s: Sched, m: nat) returns (k: nat, extra: seq<nat>)
    requires Inv(s) && Enabled(s, DoLock(m))
    ensures Shifts(s, Lock(s, m), k, extra)
  {
    hide Shifts, Without, Placed, Distinct, InTable, MutexOk, SemOk;
    var mu := s.mutexes[m];
    extra := [];
    NothingMore(s.queues[READY]);
    NothingMore(Without(s.queues[READY], s.running));
    if mu.locker == 0 || mu.owner == Some(s.running) {
      k := 0;
      StayShifts(s, Lock(s, m), extra);
    } else {
      k := 1;
      LeaveShifts(s, Lock(s, m), extra);
    }
  }

  lemma WaitShifts(s: Sched, j: nat) returns (k: nat, extra: seq<nat>)
    requires Inv(s) && Enabled(s, DoWait(j))
    ensures Shifts(s, Wait(s, j), k, extra)
  {
    hide Shifts, Without, Placed, Distinct, InTable, MutexOk, SemOk;
    extra := [];
    NothingMore(s.queues[READY]);
    NothingMore(Without(s.queues[READY], s.running));
    if s.sems[j] > 0 {
      k := 0;
      StayShifts(s, Wait(s, j), extra);
    } else {
      k := 1;
      LeaveShifts(s, Wait(s, j), extra);
    }
  }

  lemma UnlockShifts(s: Sched, m: nat) returns (extra: seq<nat>)
    requires Inv(s) && m < |s.mutexes|
    ensures Shifts(s, Unlock(s, m), 0, extra)
  {
    hide Shifts, Without, Placed, Distinct, InTable, MutexOk, SemOk;
    QueueHeadLive(s);
    NothingMore(s.queues[READY]);
    var mu := s.mutexes[m];
    var w := s.queues[MutexQueue(m)];
    extra := if mu.owner != Some(s.running) || Dec(mu.locker) != 0 || w == [] then [] else [w[0]];
    StayShifts(s, Unlock(s, m), extra);
  }

  lemma NotifyShifts(s: Sched, j: nat) returns (extra: seq<nat>)
    requires Inv(s) && j < |s.sems|
    ensures Shifts(s, Notify(s, j), 0, extra)
  {
    hide Shifts, Without, Placed, Distinct, InTable, MutexOk, SemOk;
    QueueHeadLive(s);
    NothingMore(s.queues[READY]);
    var w := s.queues[SemQueue(s, j)];
    extra := if w == [] then [] else [w[0]];
    StayShifts(s, Notify(s, j), extra);
  }

  lemma QueueHeadLive(s: Sched)
    requires Inv(s)
    ensures forall i | 0 <= i < |s.queues| && s.queues[i] != [] :: s.queues[i][0] != IDLE
    ensures forall u | u in s.queues[READY] :: u in s.live && u != IDLE
  {
    forall i | 0 <= i < |s.queues| && s.queues[i] != []
      ensures s.queues[i][0] != IDLE
    {
      PlacedMeans(s, i, s.queues[i][0]);
    }
    forall u | u in s.queues[READY]
      ensures u in s.live && u != IDLE
    {
      PlacedMeans(s, READY, u);
    }
  }

  // ---- the tick

  // ready_list after the walk over the sleepers: the waker, if any, has joined.
  lemma WalkReady(s: Sched) returns (extra: seq<nat>)
    requires Inv(s)
    ensures Walk(s, 0).queues[READY] == s.queues[READY] + extra
  {
    SleepersDistinct(s);
    WalkWakesFirst(s, 0);
    var q := s.queues[SLEEPING];
    var w := Waker(s.sleep, q, 0);
    hide Walk, Waker, Lowered, InTable, Without;
    extra := if w < |q| then (if q[w] == IDLE then [] else [q[w]]) else [];
    NothingMore(s.queues[READY]);
  }

  /** A tick brings a waiting task to run exactly when its debt is 1, and otherwise lowers its debt by exactly one. */
  lemma TickDebt(s: Sched, t: nat)
    requires Inv(s) && Waiting(s, t)
    ensures Debt(s, t) >= 1
    ensures Debt(s, t) == 1 ==> Tick(s).running == t
    ensures Debt(s, t) > 1 ==> Waiting(Tick(s), t) && Debt(Tick(s), t) == Debt(s, t) - 1
  {
    var s1 := Walk(s, 0);
    var extra := WalkReady(s);
    WalkInv(s);
    hide Walk;
    PlacedDistinct(s, READY);
    BeforeLater(s.queues[READY], 0, extra, t);
    assert s.queues[READY][0..] == s.queues[READY] && Before(s.queues[READY], t)[0..] == Before(s.queues[READY], t);
    AccountDebt(s1, t);
  }

  lemma AccountDebt(s: Sched, t: nat)
    requires Inv(s) && Waiting(s, t)
    ensures Debt(s, t) >= 1
    ensures Debt(s, t) == 1 ==> Account(s).running == t
    ensures Debt(s, t) > 1 ==> Waiting(Account(s), t) && Debt(Account(s), t) == Debt(s, t) - 1
  {
    var q := s.queues[READY];
    QueueHeadLive(s);
    PlacedDistinct(s, READY);
    InIndex(q, t);
    var b := Before(q, t);
    assert forall i | 0 <= i < |b| :: b[i] == q[i] && q[i] in q;
    SumBound(s.ticks, b);
    if s.running == IDLE {
      IdleDebt(s, t, q, b);
    } else {
      assert q[0] == s.running && b != [] && b[0] == s.running;
      HeadDebt(s, t, q, b);
    }
  }

  lemma IdleDebt(s: Sched, t: nat, q: seq<nat>, b: seq<nat>)
    requires Inv(s) && Waiting(s, t) && s.running == IDLE && q == s.queues[READY] && b == Before(q, t)
    requires (forall i | 0 <= i < |b| :: b[i] != IDLE && b[i] < |s.ticks|) && q[0] != IDLE && |b| <= TickSum(s.ticks, b)
    ensures Debt(s, t) >= 1
    ensures Debt(s, t) == 1 ==> Account(s).running == t
    ensures Debt(s, t) > 1 ==> Waiting(Account(s), t) && Debt(Account(s), t) == Debt(s, t) - 1
  {
    var ticks2 := s.ticks[IDLE := if Dec(s.ticks[IDLE]) == 0 then TICKS else Dec(s.ticks[IDLE])];
    SumSame(s.ticks, ticks2, b);
    InIndex(q, t);
    hide Placed, InTable, MutexOk, SemOk, TickSum;
    assert |b| == IndexOf(q, t);
  }

  lemma HeadDebt(s: Sched, t: nat, q: seq<nat>, b: seq<nat>)
    requires Inv(s) && Waiting(s, t) && s.running != IDLE && q == s.queues[READY] && b == Before(q, t)
    requires Distinct(q) && b != [] && b[0] == s.running == q[0]
    requires (forall i | 0 <= i < |b| :: b[i] == q[i] && b[i] < |s.ticks|)
    requires forall i | 0 <= i < |b| :: 1 <= s.ticks[b[i]] <= TICKS
    requires forall i | 0 <= i < |q| :: q[i] != IDLE
    ensures Debt(s, t) >= 1
    ensures Debt(s, t) == 1 ==> Account(s).running == t
    ensures Debt(s, t) > 1 ==> Waiting(Account(s), t) && Debt(Account(s), t) == Debt(s, t) - 1
  {
    var left := Dec(s.ticks[q[0]]);
    var ticks2 := s.ticks[q[0] := if left == 0 then TICKS else left];
    forall i | 0 <= i < |b[1..]|
      ensures ticks2[b[1..][i]] == s.ticks[b[1..][i]]
    {
      assert b[1..][i] == q[i + 1] && q[i + 1] != q[0];
    }
    SumSame(s.ticks, ticks2, b[1..]);
    SumBound(s.ticks, b[1..]);
    InIndex(q, t);
    if left == 0 {
      RotatedIs(s.(ticks := ticks2));
      BeforeLater(q, 1, [q[0]], t);
      hide SetReady, SetBlock;
    }
    hide Placed, InTable, MutexOk, SemOk, Distinct;
  }

  // ---- whole runs

  /** One step: a waiting task runs next, or its debt has not grown, and a tick has paid off exactly one. */
  lemma StepDebt(s: Sched, op: Op, t: nat)
    requires Inv(s) && Enabled(s, op) && Waiting(s, t)
    ensures var r := Step(s, op);
      || (r.running == t && (op.DoTick? ==> Debt(s, t) == 1))
      || (Waiting(r, t) && Debt(r, t) <= Debt(s, t) && (op.DoTick? ==> Debt(r, t) == Debt(s, t) - 1))
  {
    hide Placed, RunningOk, CountersOk, MutexOk, SemOk, InTable, Debt, Step;
    if op.DoTick? {
      StepTick(s);
      TickDebt(s, t);
    } else {
      StepInv(s, op);
      var k, extra := StepShifts(s, op);
      ShiftDebt(s, Step(s, op), k, extra, t);
    }
  }

  /** Task t waits in every state of the run. */
  predicate WaitsThroughout(s: Sched, ops: seq<Op>, t: nat)
    requires Shape(s) && LegalRun(s, ops)
    decreases |ops|
  {
    Waiting(s, t) && (ops != [] ==> WaitsThroughout(Step(s, ops[0]), ops[1..], t))
  }

  /** Over any run through which t waits, every tick has paid off one of its debt. */
  lemma {:induction false} DebtPaid(s: Sched, ops: seq<Op>, t: nat)
    requires Inv(s) && LegalRun(s, ops) && WaitsThroughout(s, ops, t)
    ensures Inv(Run(s, ops)) && Waiting(Run(s, ops), t) && Debt(Run(s, ops), t) + Ticks(ops) <= Debt(s, t)
    decreases |ops|
  {
    hide Step, Debt, Placed, CountersOk, MutexOk, SemOk, RunningOk, InTable;
    if ops == [] {
    } else {
      StepInv(s, ops[0]);
      StepDebt(s, ops[0], t);
      DebtPaid(Step(s, ops[0]), ops[1..], t);
    }
  }

  /** Bounded waiting: a task at index i of ready_list cannot wait through 10*i ticks, or 10*(i+1) while idle runs. */
  lemma BoundedWait(s: Sched, ops: seq<Op>, t: nat)
    requires Inv(s) && LegalRun(s, ops) && WaitsThroughout(s, ops, t)
    ensures Ticks(ops) < TICKS * (IndexOf(s.queues[READY], t) + if s.running == IDLE then 1 else 0)
  {
    hide Run, WaitsThroughout;
    DebtPaid(s, ops, t);
    assert Waiting(s, t) by {
      WaitsAtFirst(s, ops, t);
    }
    TickDebt(Run(s, ops), t);
    QueueHeadLive(s);
    InIndex(s.queues[READY], t);
    var b := Before(s.queues[READY], t);
    assert forall i | 0 <= i < |b| :: b[i] == s.queues[READY][i];
    SumBound(s.ticks, b);
    assert |b| == IndexOf(s.queues[READY], t);
    hide Inv, IndexOf, Before;
  }

  lemma WaitsAtFirst(s: Sched, ops: seq<Op>, t: nat)
    requires Shape(s) && LegalRun(s, ops) && WaitsThroughout(s, ops, t)
    ensures Waiting(s, t)
  {
  }
}
