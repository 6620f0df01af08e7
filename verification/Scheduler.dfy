/** The scheduler, its sleep queue, mutexes and semaphores as one transition system (src/kernel32/task/tss.c, mutex.c,
    sem.c). A step is a whole call; one that blocks is the step that queues the caller, and a later step resumes it. The
    tick, mutexes and semaphores mask interrupts; sleep, yield and exit do not, and Preemption takes them apart. */
module Scheduler {
  import opened Wrappers
  import opened IntrusiveList

  // The slot of idle_task in the task table.
  const IDLE: nat := 0
  const READY: nat := 0
  const SLEEPING: nat := 1
  // TASK_DEFAULT_TICKS: every task's slices.
  const TICKS: nat := 10

  datatype MutexState = MutexState(owner: Option<nat>, locker: nat)

  /** queues[READY] is ready_list, queues[SLEEPING] is sleep_list; then come the wait lists of the mutexes and of the
      semaphores. ticks and sleep are fields of the tasks, by table slot; live are the slots in use other than idle. */
  datatype Sched = Sched(
    queues: seq<seq<nat>>,
    running: nat,
    ticks: seq<nat>,
    sleep: seq<nat>,
    live: set<nat>,
    mutexes: seq<MutexState>,
    sems: seq<int>)

  function MutexQueue(m: nat): nat { 2 + m }

  function SemQueue(s: Sched, j: nat): nat { 2 + |s.mutexes| + j }

  // Queues hold slots of a table of n tasks.
  predicate InTable(queues: seq<seq<nat>>, n: nat) {
    forall i, k | 0 <= i < |queues| && 0 <= k < |queues[i]| :: queues[i][k] < n
  }

  predicate Shape(s: Sched) {
    && |s.queues| == 2 + |s.mutexes| + |s.sems| && |s.sleep| == |s.ticks| && s.running < |s.ticks| && IDLE < |s.ticks|
    && InTable(s.queues, |s.ticks|)
  }

  function Put(s: Sched, i: nat, t: nat): (r: Sched)
    requires Shape(s) && i < |s.queues| && t < |s.ticks|
    ensures Shape(r)
  {
    s.(queues := s.queues[i := s.queues[i] + [t]])
  }

  function Take(s: Sched, i: nat, t: nat): (r: Sched)
    requires Shape(s) && i < |s.queues|
    ensures Shape(r)
  {
    var q := Without(s.queues[i], t);
    assert forall k | 0 <= k < |q| :: q[k] in s.queues[i] by { WithoutSubset(s.queues[i], t); }
    s.(queues := s.queues[i := q])
  }

  // tss_task_set_ready
  function SetReady(s: Sched, t: nat): (r: Sched)
    requires Shape(s) && t < |s.ticks|
    ensures Shape(r)
  {
    if t == IDLE then s else Put(s, READY, t)
  }

  // tss_task_set_block
  function SetBlock(s: Sched, t: nat): (r: Sched)
    requires Shape(s)
    ensures Shape(r) && |r.ticks| == |s.ticks|
  {
    if t == IDLE then s else Take(s, READY, t)
  }

  // tss_task_dispatch
  function Dispatch(s: Sched): (r: Sched)
    requires Shape(s)
    ensures Shape(r)
  {
    s.(running := if s.queues[READY] == [] then IDLE else s.queues[READY][0])
  }

  // tss_task_yield
  function Yield(s: Sched): (r: Sched)
    requires Shape(s)
    ensures Shape(r)
  {
    if |s.queues[READY]| > 1 then Dispatch(SetReady(SetBlock(s, s.running), s.running)) else s
  }

  // The walk over sleep_list in tss_task_ts from position k on; a task that wakes ends it, because its running_node has
  // become the tail of ready_list.
  function Walk(s: Sched, k: nat): (r: Sched)
    requires Shape(s)
    ensures Shape(r) && |r.ticks| == |s.ticks|
    decreases |s.queues[SLEEPING]| - k
  {
    if k >= |s.queues[SLEEPING]| then s else
      var t := s.queues[SLEEPING][k];
      var s1 := s.(sleep := s.sleep[t := Dec(s.sleep[t])]);
      if s1.sleep[t] == 0 then SetReady(Take(s1, SLEEPING, t), t) else Walk(s1, k + 1)
  }

  // The second half of tss_task_ts: the running task's slice.
  function Account(s: Sched): (r: Sched)
    requires Shape(s)
    ensures Shape(r) && |r.ticks| == |s.ticks|
  {
    var t := s.running;
    var left := Dec(s.ticks[t]);
    if left == 0 then Dispatch(SetReady(SetBlock(s.(ticks := s.ticks[t := TICKS]), t), t))
    else s.(ticks := s.ticks[t := left])
  }

  // tss_task_ts
  function Tick(s: Sched): (r: Sched)
    requires Shape(s)
    ensures Shape(r) && |r.ticks| == |s.ticks|
  {
    Account(Walk(s, 0))
  }

  // n ticks.
  function Ticked(s: Sched, n: nat): (r: Sched)
    requires Shape(s)
    ensures Shape(r) && |r.ticks| == |s.ticks|
    decreases n
  {
    if n == 0 then s else Tick(Ticked(s, n - 1))
  }

  // tss_task_sleep with tss_task_set_sleep: for 0 the caller has already left ready_list.
  function Sleep(s: Sched, ms: nat): (r: Sched)
    requires Shape(s)
    ensures Shape(r)
  {
    var t := s.running;
    var s1 := SetBlock(s, t);
    Dispatch(if ms == 0 then s1 else Put(s1.(sleep := s1.sleep[t := ms]), SLEEPING, t))
  }

  // mutex_lock
  function Lock(s: Sched, m: nat): (r: Sched)
    requires Shape(s) && m < |s.mutexes|
    ensures Shape(r) && |r.mutexes| == |s.mutexes| && |r.ticks| == |s.ticks|
  {
    var mu := s.mutexes[m];
    if mu.locker == 0 then s.(mutexes := s.mutexes[m := MutexState(Some(s.running), 1)])
    else if mu.owner == Some(s.running) then s.(mutexes := s.mutexes[m := mu.(locker := mu.locker + 1)])
    else Dispatch(Put(SetBlock(s, s.running), MutexQueue(m), s.running))
  }

  // mutex_unlock
  function Unlock(s: Sched, m: nat): (r: Sched)
    requires Shape(s) && m < |s.mutexes|
    ensures Shape(r) && |r.mutexes| == |s.mutexes| && |r.ticks| == |s.ticks|
  {
    var mu := s.mutexes[m];
    if mu.owner != Some(s.running) then s
    else if Dec(mu.locker) != 0 then s.(mutexes := s.mutexes[m := mu.(locker := Dec(mu.locker))])
    else if s.queues[MutexQueue(m)] == [] then s.(mutexes := s.mutexes[m := MutexState(None, 0)])
    else
      var t := s.queues[MutexQueue(m)][0];
      var s1 := s.(queues := s.queues[MutexQueue(m) := s.queues[MutexQueue(m)][1..]]);
      Dispatch(SetReady(s1.(mutexes := s1.mutexes[m := MutexState(Some(t), 1)]), t))
  }

  // sem_wait
  function Wait(s: Sched, j: nat): (r: Sched)
    requires Shape(s) && j < |s.sems|
    ensures Shape(r)
  {
    if s.sems[j] > 0 then s.(sems := s.sems[j := s.sems[j] - 1])
    else Dispatch(Put(SetBlock(s, s.running), SemQueue(s, j), s.running))
  }

  // sem_notify, from a task or from an interrupt handler
  function Notify(s: Sched, j: nat): (r: Sched)
    requires Shape(s) && j < |s.sems|
    ensures Shape(r)
  {
    var q := s.queues[SemQueue(s, j)];
    if q == [] then s.(sems := s.sems[j := s.sems[j] + 1])
    else Dispatch(SetReady(s.(queues := s.queues[SemQueue(s, j) := q[1..]]), q[0]))
  }

  // tss_task_init on a free slot of the task table, as far as interrupts are masked: the task is ready.
  function Enlist(s: Sched, t: nat): (r: Sched)
    requires Shape(s) && t < |s.ticks|
    ensures Shape(r) && |r.ticks| == |s.ticks|
  {
    SetReady(s, t).(live := s.live + {t})
  }

  // The stores behind it, unmasked again.
  function Furnish(s: Sched, t: nat): (r: Sched)
    requires Shape(s) && t < |s.ticks|
    ensures Shape(r)
  {
    s.(ticks := s.ticks[t := TICKS], sleep := s.sleep[t := 0])
  }

  function Create(s: Sched, t: nat): (r: Sched)
    requires Shape(s) && t < |s.ticks|
    ensures Shape(r)
  {
    Furnish(Enlist(s, t), t)
  }

  predicate HasMutexes(s: Sched, takes: seq<nat>) { forall k | 0 <= k < |takes| :: takes[k] < |s.mutexes| }

  /** The mutexes that tss_task_destroy takes and gives back for t, one after the other: that of the descriptor table, then
      that of the frames, once for each frame. It gets through all of them, or has to wait for one that another task owns. */
  function TakeEach(s: Sched, t: nat, takes: seq<nat>): (r: (Sched, bool))
    requires Shape(s) && HasMutexes(s, takes)
    ensures Shape(r.0) && |r.0.ticks| == |s.ticks|
    decreases |takes|
  {
    if takes == [] then (s, true) else
      var m := takes[0];
      var s1 := Lock(s, m);
      if s1.mutexes[m].owner != Some(t) then (s1, false) else TakeEach(Unlock(s1, m), t, takes[1..])
  }

  // The slot of t is cleared.
  function Clear(s: Sched, t: nat): (r: Sched)
    requires Shape(s) && t < |s.ticks|
    ensures Shape(r)
  {
    s.(live := s.live - {t}, ticks := s.ticks[t := 0], sleep := s.sleep[t := 0])
  }

  // tss_task_exit: the task leaves ready_list, tss_task_destroy takes its mutexes and clears the slot.
  function Exit(s: Sched, takes: seq<nat>): (r: Sched)
    requires Shape(s) && HasMutexes(s, takes)
    ensures Shape(r)
  {
    var t := s.running;
    var (s1, through) := TakeEach(Take(s, READY, t), t, takes);
    if through then Dispatch(Clear(s1, t)) else s1
  }

  datatype Op =
    | DoYield
    | DoTick
    | DoSleep(ms: nat)
    | DoLock(m: nat)
    | DoUnlock(m: nat)
    | DoWait(j: nat)
    | DoNotify(j: nat)
    | DoCreate(t: nat)
    | DoExit(takes: seq<nat>)

  predicate OwnsNone(s: Sched, t: nat) { forall m | 0 <= m < |s.mutexes| :: s.mutexes[m].owner != Some(t) }

  // The mutexes are nobody's.
  predicate AllFree(s: Sched, takes: seq<nat>) {
    HasMutexes(s, takes) && forall k | 0 <= k < |takes| :: s.mutexes[takes[k]].locker == 0
  }

  /** What the kernel asks of a caller: blocking calls and exit come from a running task other than idle, sleep lasts at
      least one tick, a new task has a free slot, and when a task exits it owns no mutex and nobody else owns one that
      tss_task_destroy takes. */
  predicate Enabled(s: Sched, op: Op)
    requires Shape(s)
  {
    match op
    case DoYield => true
    case DoTick => true
    case DoSleep(ms) => s.running != IDLE && ms >= 1
    case DoLock(m) => m < |s.mutexes| && s.running != IDLE
    case DoUnlock(m) => m < |s.mutexes|
    case DoWait(j) => j < |s.sems| && s.running != IDLE
    case DoNotify(j) => j < |s.sems|
    case DoCreate(t) => t < |s.ticks| && t != IDLE && t !in s.live
    case DoExit(takes) => s.running != IDLE && OwnsNone(s, s.running) && AllFree(s, takes)
  }

  function Step(s: Sched, op: Op): (r: Sched)
    requires Shape(s) && Enabled(s, op)
    ensures Shape(r)
  {
    match op
    case DoYield => Yield(s)
    case DoTick => Tick(s)
    case DoSleep(ms) => Sleep(s, ms)
    case DoLock(m) => Lock(s, m)
    case DoUnlock(m) => Unlock(s, m)
    case DoWait(j) => Wait(s, j)
    case DoNotify(j) => Notify(s, j)
    case DoCreate(t) => Create(s, t)
    case DoExit(takes) => Exit(s, takes)
  }

  predicate LegalRun(s: Sched, ops: seq<Op>)
    requires Shape(s)
    decreases |ops|
  {
    ops != [] ==> Enabled(s, ops[0]) && LegalRun(Step(s, ops[0]), ops[1..])
  }

  function Run(s: Sched, ops: seq<Op>): (r: Sched)
    requires Shape(s) && LegalRun(s, ops)
    ensures Shape(r)
    decreases |ops|
  {
    if ops == [] then s else Run(Step(s, ops[0]), ops[1..])
  }

  /** After default_tss_task_init: slot 1, the default task, runs; all mutexes are free, semaphore j holds counts[j]. */
  function Initial(tasks: nat, mutexes: nat, counts: seq<nat>): (s: Sched)
    requires tasks >= 2
    ensures Shape(s)
  {
    Sched([[1]] + seq(1 + mutexes + |counts|, _ => []), 1,
          [TICKS, TICKS] + seq(tasks - 2, _ => 0), seq(tasks, _ => 0), {1},
          seq(mutexes, _ => MutexState(None, 0)), seq(|counts|, j requires 0 <= j < |counts| => counts[j]))
  }
}
