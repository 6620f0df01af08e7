/** Mutexes and semaphores over whole runs: exact ownership counts, first-come first-served hand-off, conserved permits. */
module Locks {
  import opened Wrappers
  import opened IntrusiveList
  import opened Scheduler
  import opened SchedulerInvariant
  import opened SleepLaw

  // ---- mutexes

  function Waiters(s: Sched, m: nat): seq<nat>
    requires Shape(s) && m < |s.mutexes|
  {
    s.queues[MutexQueue(m)]
  }

  /** How often t holds mutex m. */
  function Held(s: Sched, m: nat, t: nat): nat
    requires Shape(s) && m < |s.mutexes|
  {
    if s.mutexes[m].owner == Some(t) then s.mutexes[m].locker else 0
  }

  // A lock call of t on m that has not completed.
  function Pending(s: Sched, m: nat, t: nat): nat
    requires Shape(s) && m < |s.mutexes|
  {
    multiset(Waiters(s, m))[t]
  }

  predicate LockCall(s: Sched, op: Op, m: nat, t: nat) { op == DoLock(m) && s.running == t }

  // An unlock call that counts: mutex_unlock ignores callers other than the owner.
  predicate UnlockCall(s: Sched, op: Op, m: nat, t: nat)
    requires Shape(s) && m < |s.mutexes|
  {
    op == DoUnlock(m) && s.running == t && s.mutexes[m].owner == Some(t)
  }

  /** The owner gives the mutex up altogether. */
  predicate FullRelease(s: Sched, op: Op, m: nat)
    requires Shape(s) && m < |s.mutexes|
  {
    op == DoUnlock(m) && s.mutexes[m].owner == Some(s.running) && s.mutexes[m].locker == 1
  }

  predicate Blocks(s: Sched, op: Op, m: nat)
    requires Shape(s) && m < |s.mutexes|
  {
    op == DoLock(m) && s.mutexes[m].locker != 0 && s.mutexes[m].owner != Some(s.running)
  }

  /** What a step does to mutex m and its waiters. */
  lemma StepMutex(s: Sched, op: Op, m: nat)
    requires Inv(s) && Enabled(s, op) && m < |s.mutexes|
    ensures var (r, q, mu) := (Step(s, op), Waiters(s, m), s.mutexes[m]);
      && |r.mutexes| == |s.mutexes|
      && Waiters(r, m) == (if Blocks(s, op, m) then q + [s.running] else if FullRelease(s, op, m) && q != [] then q[1..] else q)
      && r.mutexes[m] ==
           if FullRelease(s, op, m) then (if q == [] then MutexState(None, 0) else MutexState(Some(q[0]), 1))
           else if op == DoUnlock(m) && mu.owner == Some(s.running) then mu.(locker := Dec(mu.locker))
           else if op == DoLock(m) && !Blocks(s, op, m) then MutexState(Some(s.running), mu.locker + 1)
           else mu
  {
    hide Placed, CountersOk, SemOk, RunningOk, InTable, Without;
    assert MutexOk(s, m);
    if op.DoLock? || op.DoUnlock? {
      hide Tick, Yield, Sleep, Create, Exit, Wait, Notify;
    } else if op.DoWait? || op.DoNotify? {
      SemCall(s, op);
      hide Step;
    } else {
      Untouched(s, op);
      hide Step;
    }
  }

  lemma SemCall(s: Sched, op: Op)
    requires Shape(s) && Enabled(s, op) && (op.DoWait? || op.DoNotify?)
    ensures Step(s, op).mutexes == s.mutexes && |Step(s, op).queues| == |s.queues|
    ensures forall i | 2 <= i < 2 + |s.mutexes| :: Step(s, op).queues[i] == s.queues[i]
  {
    hide InTable, Without, Tick, Yield, Sleep, Create, Exit, Lock, Unlock;
  }

  lemma MutexCall(s: Sched, op: Op)
    requires Shape(s) && Enabled(s, op) && (op.DoLock? || op.DoUnlock?)
    ensures Step(s, op).sems == s.sems && |Step(s, op).mutexes| == |s.mutexes| && |Step(s, op).queues| == |s.queues|
    ensures forall i | 2 + |s.mutexes| <= i < |s.queues| :: Step(s, op).queues[i] == s.queues[i]
  {
    hide InTable, Without, Tick, Yield, Sleep, Create, Exit, Wait, Notify;
  }

  // Steps that concern no mutex and no semaphore.
  lemma Untouched(s: Sched, op: Op)
    requires Inv(s) && Enabled(s, op) && !op.DoLock? && !op.DoUnlock? && !op.DoWait? && !op.DoNotify?
    ensures Step(s, op).mutexes == s.mutexes && Step(s, op).sems == s.sems
    ensures forall i | 2 <= i < |s.queues| :: Step(s, op).queues[i] == s.queues[i]
  {
    if op.DoTick? {
      StepTick(s);
      TickMutexes(s);
    }
    if op.DoExit? {
      ExitTakesNone(s, op.takes);
    }
    hide Placed, CountersOk, SemOk, RunningOk, MutexOk, InTable, Without, Tick, Exit;
  }

  lemma TickMutexes(s: Sched)
    requires Inv(s)
    ensures Tick(s).mutexes == s.mutexes && Tick(s).sems == s.sems
    ensures forall i | 2 <= i < |s.queues| :: Tick(s).queues[i] == s.queues[i]
  {
    hide Walk, Waker, Lowered, Without, InTable, Inv, Distinct;
    InvShape(s);
    SleepersDistinct(s);
    WalkWakesFirst(s, 0);
  }

  /** One step changes held plus pending by the calls made. */
  lemma StepBalance(s: Sched, op: Op, m: nat, t: nat)
    requires Inv(s) && Enabled(s, op) && m < |s.mutexes|
    ensures |Step(s, op).mutexes| == |s.mutexes|
    ensures Held(Step(s, op), m, t) + Pending(Step(s, op), m, t) + (if UnlockCall(s, op, m, t) then 1 else 0)
            == Held(s, m, t) + Pending(s, m, t) + (if LockCall(s, op, m, t) then 1 else 0)
  {
    hide Step, Placed, RunningOk, CountersOk, SemOk, InTable;
    assert MutexOk(s, m);
    StepMutex(s, op, m);
    var q := Waiters(s, m);
    if FullRelease(s, op, m) && q != [] {
      assert q == [q[0]] + q[1..];
      assert multiset(q)[t] == multiset(q[1..])[t] + if t == q[0] then 1 else 0;
    }
  }

  function LockCalls(s: Sched, ops: seq<Op>, m: nat, t: nat): nat
    requires Shape(s) && LegalRun(s, ops)
    decreases |ops|
  {
    if ops == [] then 0 else
      LockCalls(Step(s, ops[0]), ops[1..], m, t) + if LockCall(s, ops[0], m, t) then 1 else 0
  }

  function UnlockCalls(s: Sched, ops: seq<Op>, m: nat, t: nat): nat
    requires Shape(s) && LegalRun(s, ops)
    decreases |ops|
  {
    if ops == [] then 0 else
      UnlockCalls(Step(s, ops[0]), ops[1..], m, t)
      + if m < |s.mutexes| && UnlockCall(s, ops[0], m, t) then 1 else 0
  }

  /** Ownership is exact over every run: what t holds of m, plus its call still waiting, is what it held before plus its
      lock calls minus the unlock calls it made as owner. */
  lemma {:induction false} OwnershipExact(s: Sched, ops: seq<Op>, m: nat, t: nat)
    requires Inv(s) && LegalRun(s, ops) && m < |s.mutexes|
    ensures |Run(s, ops).mutexes| == |s.mutexes|
    ensures Held(Run(s, ops), m, t) + Pending(Run(s, ops), m, t) + UnlockCalls(s, ops, m, t)
            == Held(s, m, t) + Pending(s, m, t) + LockCalls(s, ops, m, t)
    decreases |ops|
  {
    hide Step, Held, Pending, Placed, CountersOk, MutexOk, SemOk, RunningOk, InTable;
    if ops == [] {
    } else {
      StepInv(s, ops[0]);
      StepBalance(s, ops[0], m, t);
      OwnershipExact(Step(s, ops[0]), ops[1..], m, t);
    }
  }

  function Releases(s: Sched, ops: seq<Op>, m: nat): nat
    requires Shape(s) && LegalRun(s, ops)
    decreases |ops|
  {
    if ops == [] then 0 else
      Releases(Step(s, ops[0]), ops[1..], m) + if m < |s.mutexes| && FullRelease(s, ops[0], m) then 1 else 0
  }

  /** A waiter moves up one place at each full release, and at no other step; the first one becomes the owner, holding
      the mutex once, and is ready to run. */
  lemma StepWaiter(s: Sched, op: Op, m: nat, k: nat)
    requires Inv(s) && Enabled(s, op) && m < |s.mutexes| && k < |Waiters(s, m)|
    ensures var (r, t) := (Step(s, op), Waiters(s, m)[k]);
      && |r.mutexes| == |s.mutexes|
      && (!FullRelease(s, op, m) ==> k < |Waiters(r, m)| && Waiters(r, m)[k] == t)
      && (FullRelease(s, op, m) && k > 0 ==> k - 1 < |Waiters(r, m)| && Waiters(r, m)[k - 1] == t)
      && (FullRelease(s, op, m) && k == 0 ==> r.mutexes[m] == MutexState(Some(t), 1) && t in r.queues[READY])
  {
    StepMutex(s, op, m);
    if FullRelease(s, op, m) {
      PlacedMeans(s, MutexQueue(m), Waiters(s, m)[0]);
      ReleaseReadies(s, m);
    }
    hide Inv, Step;
  }

  lemma ReleaseReadies(s: Sched, m: nat)
    requires Inv(s) && m < |s.mutexes| && FullRelease(s, DoUnlock(m), m) && Waiters(s, m) != [] && Waiters(s, m)[0] != IDLE
    ensures Waiters(s, m)[0] in Unlock(s, m).queues[READY]
  {
    hide Placed, CountersOk, SemOk, RunningOk, MutexOk, InTable;
    var q := s.queues[READY];
    assert (q + [Waiters(s, m)[0]])[|q|] == Waiters(s, m)[0];
  }

  /** No overtaking: after r of the full releases of m, r <= k, the waiter that was at position k is at k - r. */
  lemma {:induction false} WaitersInOrder(s: Sched, ops: seq<Op>, m: nat, k: nat)
    requires Inv(s) && LegalRun(s, ops) && m < |s.mutexes| && k < |Waiters(s, m)| && Releases(s, ops, m) <= k
    ensures |Run(s, ops).mutexes| == |s.mutexes|
    ensures k - Releases(s, ops, m) < |Waiters(Run(s, ops), m)|
    ensures Waiters(Run(s, ops), m)[k - Releases(s, ops, m)] == Waiters(s, m)[k]
    decreases |ops|
  {
    hide Step, Placed, CountersOk, MutexOk, SemOk, RunningOk, InTable;
    if ops == [] {
    } else {
      StepInv(s, ops[0]);
      StepWaiter(s, ops[0], m, k);
      WaitersInOrder(Step(s, ops[0]), ops[1..], m, if FullRelease(s, ops[0], m) then k - 1 else k);
    }
  }

  /** A waiter at position k gets the mutex at exactly the (k+1)-th full release. */
  lemma LockHandedOver(s: Sched, ops: seq<Op>, op: Op, m: nat, k: nat)
    requires Inv(s) && LegalRun(s, ops) && m < |s.mutexes| && k < |Waiters(s, m)|
    requires Releases(s, ops, m) == k && |Run(s, ops).mutexes| == |s.mutexes|
    requires Enabled(Run(s, ops), op) && FullRelease(Run(s, ops), op, m)
    ensures var r := Step(Run(s, ops), op);
      |r.mutexes| == |s.mutexes| && r.mutexes[m] == MutexState(Some(Waiters(s, m)[k]), 1)
  {
    hide Step, Run, Releases, Placed, CountersOk, MutexOk, SemOk, RunningOk, InTable;
    WaitersInOrder(s, ops, m, k);
    RunInv(s, ops);
    StepWaiter(Run(s, ops), op, m, 0);
  }

  /** Task t runs in no state of the run before its last. */
  predicate RunsNotBefore(s: Sched, ops: seq<Op>, t: nat)
    requires Shape(s) && LegalRun(s, ops)
    decreases |ops|
  {
    ops != [] ==> s.running != t && RunsNotBefore(Step(s, ops[0]), ops[1..], t)
  }

  // t waits for m, or has been given it and has not run since.
  predicate Entitled(s: Sched, m: nat, t: nat)
    requires Shape(s) && m < |s.mutexes|
  {
    t in Waiters(s, m) || s.mutexes[m] == MutexState(Some(t), 1)
  }

  lemma StepEntitled(s: Sched, op: Op, m: nat, t: nat)
    requires Inv(s) && Enabled(s, op) && m < |s.mutexes| && Entitled(s, m, t) && s.running != t
    ensures |Step(s, op).mutexes| == |s.mutexes| && Entitled(Step(s, op), m, t)
  {
    StepMutex(s, op, m);
    if t in Waiters(s, m) {
      var k :| 0 <= k < |Waiters(s, m)| && Waiters(s, m)[k] == t;
      StepWaiter(s, op, m, k);
    }
    hide Inv, Step;
  }

  lemma WaiterRunsNot(s: Sched, m: nat, t: nat)
    requires Inv(s) && m < |s.mutexes| && t in Waiters(s, m)
    ensures s.running != t
  {
    PlacedMeans(s, MutexQueue(m), t);
  }

  lemma {:induction false} RunEntitled(s: Sched, ops: seq<Op>, m: nat, t: nat)
    requires Inv(s) && LegalRun(s, ops) && m < |s.mutexes| && Entitled(s, m, t) && RunsNotBefore(s, ops, t)
    ensures Inv(Run(s, ops)) && |Run(s, ops).mutexes| == |s.mutexes| && Entitled(Run(s, ops), m, t)
    decreases |ops|
  {
    hide Step, Entitled, Placed, CountersOk, MutexOk, SemOk, RunningOk, InTable;
    if ops == [] {
    } else {
      StepInv(s, ops[0]);
      StepEntitled(s, ops[0], m, t);
      RunEntitled(Step(s, ops[0]), ops[1..], m, t);
    }
  }

  /** A blocked mutex_lock resumes only as owner: the first time a task that waits for m runs again, it holds m exactly
      once. */
  lemma ResumesAsOwner(s: Sched, ops: seq<Op>, m: nat, t: nat)
    requires Inv(s) && LegalRun(s, ops) && m < |s.mutexes| && t in Waiters(s, m)
    requires RunsNotBefore(s, ops, t) && Run(s, ops).running == t
    ensures |Run(s, ops).mutexes| == |s.mutexes| && Run(s, ops).mutexes[m] == MutexState(Some(t), 1)
    ensures t !in Waiters(Run(s, ops), m)
  {
    hide Run, RunsNotBefore, Placed, CountersOk, MutexOk, SemOk, RunningOk, InTable;
    RunEntitled(s, ops, m, t);
    if t in Waiters(Run(s, ops), m) {
      WaiterRunsNot(Run(s, ops), m, t);
    }
  }

  // ---- semaphores

  function SemWaiters(s: Sched, j: nat): seq<nat>
    requires Shape(s) && j < |s.sems|
  {
    s.queues[SemQueue(s, j)]
  }

  lemma WaitEffect(s: Sched, i: nat, j: nat)
    requires Shape(s) && i < |s.sems| && j < |s.sems|
    ensures var (r, q, c) := (Wait(s, i), SemWaiters(s, j), s.sems[j]);
      && |r.sems| == |s.sems| && |r.mutexes| == |s.mutexes|
      && SemWaiters(r, j) == (if i == j && c <= 0 then q + [s.running] else q)
      && r.sems[j] == (if i == j && c > 0 then c - 1 else c)
  {
    hide InTable, Without;
  }

  lemma NotifyEffect(s: Sched, i: nat, j: nat)
    requires Shape(s) && i < |s.sems| && j < |s.sems|
    ensures var (r, q, c) := (Notify(s, i), SemWaiters(s, j), s.sems[j]);
      && |r.sems| == |s.sems| && |r.mutexes| == |s.mutexes|
      && SemWaiters(r, j) == (if i == j && q != [] then q[1..] else q)
      && r.sems[j] == (if i == j && q == [] then c + 1 else c)
  {
    hide InTable;
  }

  /** What a step does to semaphore j and its waiters. */
  lemma StepSem(s: Sched, op: Op, j: nat)
    requires Inv(s) && Enabled(s, op) && j < |s.sems|
    ensures var (r, q, c) := (Step(s, op), SemWaiters(s, j), s.sems[j]);
      && |r.sems| == |s.sems|
      && SemWaiters(r, j) == (if op == DoWait(j) && c == 0 then q + [s.running]
                              else if op == DoNotify(j) && q != [] then q[1..] else q)
      && r.sems[j] == c + (if op == DoNotify(j) && q == [] then 1 else if op == DoWait(j) && c > 0 then -1 else 0)
  {
    assert SemOk(s, j);
    hide Placed, CountersOk, SemOk, RunningOk, MutexOk, InTable, Without, Wait, Notify;
    if op.DoWait? {
      assert Step(s, op) == Wait(s, op.j);
      WaitEffect(s, op.j, j);
      hide Step;
    } else if op.DoNotify? {
      assert Step(s, op) == Notify(s, op.j);
      NotifyEffect(s, op.j, j);
      hide Step;
    } else if op.DoLock? || op.DoUnlock? {
      MutexCall(s, op);
      hide Step;
    } else {
      Untouched(s, op);
      hide Step;
    }
  }

  function Notifies(ops: seq<Op>, j: nat): nat {
    if ops == [] then 0 else Notifies(ops[1..], j) + if ops[0] == DoNotify(j) then 1 else 0
  }

  function Waits(ops: seq<Op>, j: nat): nat {
    if ops == [] then 0 else Waits(ops[1..], j) + if ops[0] == DoWait(j) then 1 else 0
  }

  /** Permits are conserved over every run: the counter minus the number waiting is what it was, plus notifies, minus
      wait calls. No wakeup is lost. */
  lemma {:induction false} PermitsConserved(s: Sched, ops: seq<Op>, j: nat)
    requires Inv(s) && LegalRun(s, ops) && j < |s.sems|
    ensures |Run(s, ops).sems| == |s.sems|
    ensures var r := Run(s, ops);
      r.sems[j] - |SemWaiters(r, j)| == s.sems[j] - |SemWaiters(s, j)| + Notifies(ops, j) - Waits(ops, j)
    decreases |ops|
  {
    hide Step, Placed, CountersOk, MutexOk, RunningOk, InTable;
    if ops == [] {
    } else {
      StepInv(s, ops[0]);
      StepSem(s, ops[0], j);
      assert SemOk(s, j);
      PermitsConserved(Step(s, ops[0]), ops[1..], j);
    }
  }

  /** Waiters leave in order: after n notifies, n <= k, the one at position k is at k - n, and the (k+1)-th releases it. */
  lemma {:induction false} SemWaitersInOrder(s: Sched, ops: seq<Op>, j: nat, k: nat)
    requires Inv(s) && LegalRun(s, ops) && j < |s.sems| && k < |SemWaiters(s, j)| && Notifies(ops, j) <= k
    ensures |Run(s, ops).sems| == |s.sems|
    ensures k - Notifies(ops, j) < |SemWaiters(Run(s, ops), j)|
    ensures SemWaiters(Run(s, ops), j)[k - Notifies(ops, j)] == SemWaiters(s, j)[k]
    decreases |ops|
  {
    hide Step, Placed, CountersOk, MutexOk, SemOk, RunningOk, InTable;
    if ops == [] {
    } else {
      StepInv(s, ops[0]);
      StepSem(s, ops[0], j);
      SemWaitersInOrder(Step(s, ops[0]), ops[1..], j, if ops[0] == DoNotify(j) then k - 1 else k);
    }
  }

  lemma SemReleased(s: Sched, ops: seq<Op>, j: nat, k: nat)
    requires Inv(s) && LegalRun(s, ops) && j < |s.sems| && k < |SemWaiters(s, j)| && Notifies(ops, j) == k
    ensures Shape(Run(s, ops)) && |Run(s, ops).sems| == |s.sems|
    ensures SemWaiters(Run(s, ops), j) != [] && SemWaiters(s, j)[k] !in SemWaiters(Run(s, ops), j)[1..]
    ensures SemWaiters(s, j)[k] in Notify(Run(s, ops), j).queues[READY]
  {
    hide Run, Placed, CountersOk, MutexOk, SemOk, RunningOk, InTable;
    SemWaitersInOrder(s, ops, j, k);
    RunInv(s, ops);
    var r := Run(s, ops);
    QueueHeads(r, SemQueue(r, j));
    var (q, t) := (r.queues[READY], SemWaiters(r, j)[0]);
    assert (q + [t])[|q|] == t;
  }

  lemma QueueHeads(s: Sched, i: nat)
    requires Inv(s) && i < |s.queues| && s.queues[i] != []
    ensures s.queues[i][0] != IDLE && s.queues[i][0] !in s.queues[i][1..]
  {
    PlacedMeans(s, i, s.queues[i][0]);
    PlacedDistinct(s, i);
  }

  // ---- from the start

  /** Over every run from the start: a semaphore's counter less its waiters is what sem_init gave it, plus notifies, minus wait
      calls; and what a task holds of a mutex, with its waiting call, is its lock calls less its unlock calls as owner. */
  lemma FromStart(tasks: nat, mutexes: nat, counts: seq<nat>, ops: seq<Op>, t: nat)
    requires tasks >= 2 && LegalRun(Initial(tasks, mutexes, counts), ops)
    ensures var (s, r) := (Initial(tasks, mutexes, counts), Run(Initial(tasks, mutexes, counts), ops));
      && |r.mutexes| == mutexes && |r.sems| == |counts| == |s.sems| && |s.mutexes| == mutexes
      && (forall j: nat | j < |counts| ::
            r.sems[j] - |SemWaiters(r, j)| == counts[j] + Notifies(ops, j) - Waits(ops, j))
      && (forall m: nat | m < mutexes ::
            Held(r, m, t) + Pending(r, m, t) + UnlockCalls(s, ops, m, t) == LockCalls(s, ops, m, t))
  {
    InitialInv(tasks, mutexes, counts);
    var s := Initial(tasks, mutexes, counts);
    StartFree(tasks, mutexes, counts, t);
    hide Run, Initial, Inv, InTable, Held, Pending, SemWaiters, LockCalls, UnlockCalls, Notifies, Waits;
    SameSizes(s, ops);
    forall j: nat | j < |counts|
      ensures j < |Run(s, ops).sems|
      ensures Run(s, ops).sems[j] - |SemWaiters(Run(s, ops), j)| == counts[j] + Notifies(ops, j) - Waits(ops, j)
    {
      PermitsConserved(s, ops, j);
    }
    forall m: nat | m < mutexes
      ensures m < |Run(s, ops).mutexes|
      ensures Held(Run(s, ops), m, t) + Pending(Run(s, ops), m, t) + UnlockCalls(s, ops, m, t) == LockCalls(s, ops, m, t)
    {
      OwnershipExact(s, ops, m, t);
    }
  }

  lemma StartFree(tasks: nat, mutexes: nat, counts: seq<nat>, t: nat)
    requires tasks >= 2
    ensures var s := Initial(tasks, mutexes, counts);
      && |s.mutexes| == mutexes && |s.sems| == |counts|
      && (forall j: nat | j < |counts| :: s.sems[j] == counts[j] && SemWaiters(s, j) == [])
      && (forall m: nat | m < mutexes :: Held(s, m, t) == 0 && Pending(s, m, t) == 0)
  {
  }

  lemma {:induction false} SameSizes(s: Sched, ops: seq<Op>)
    requires Inv(s) && LegalRun(s, ops)
    ensures |Run(s, ops).mutexes| == |s.mutexes| && |Run(s, ops).sems| == |s.sems|
    decreases |ops|
  {
    hide Step, Placed, CountersOk, MutexOk, SemOk, RunningOk, InTable;
    if ops == [] {
    } else {
      StepInv(s, ops[0]);
      StepSizes(s, ops[0]);
      SameSizes(Step(s, ops[0]), ops[1..]);
    }
  }

  lemma StepSizes(s: Sched, op: Op)
    requires Inv(s) && Enabled(s, op)
    ensures |Step(s, op).mutexes| == |s.mutexes| && |Step(s, op).sems| == |s.sems|
  {
    hide Placed, CountersOk, SemOk, RunningOk, MutexOk, InTable, Without;
    if op.DoLock? || op.DoUnlock? {
      MutexCall(s, op);
      hide Step;
    } else if op.DoWait? || op.DoNotify? {
      SemCall(s, op);
      assert op.DoWait? ==> Step(s, op) == Wait(s, op.j);
      assert op.DoNotify? ==> Step(s, op) == Notify(s, op.j);
      hide Step;
    } else {
      Untouched(s, op);
      hide Step;
    }
  }
}
