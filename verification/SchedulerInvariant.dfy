/** Every live task is in exactly one queue, the running one at the head of ready_list, in every reachable state. */
module SchedulerInvariant {
  import opened Wrappers
  import opened IntrusiveList
  import opened Scheduler

  // All queues together, with multiplicity.
  ghost function Queued(queues: seq<seq<nat>>): multiset<nat> {
    if queues == [] then multiset{} else multiset(queues[0]) + Queued(queues[1..])
  }

  /** Single location: the queues together hold each live task exactly once, and idle never. */
  ghost predicate Placed(s: Sched) {
    Queued(s.queues) == multiset(s.live) && IDLE !in s.live
  }

  ghost predicate MutexOk(s: Sched, m: nat)
    requires Shape(s) && m < |s.mutexes|
  {
    var mu := s.mutexes[m];
    && (mu.locker == 0 <==> mu.owner == None)
    && (mu.owner == None ==> s.queues[MutexQueue(m)] == [])
    && (mu.owner.Some? ==> mu.owner.value in s.live)
  }

  ghost predicate SemOk(s: Sched, j: nat)
    requires Shape(s) && j < |s.sems|
  {
    s.sems[j] >= 0 && (s.sems[j] > 0 ==> s.queues[SemQueue(s, j)] == [])
  }

  // The running task heads ready_list, or is idle.
  ghost predicate RunningOk(s: Sched)
    requires Shape(s)
  {
    s.running != IDLE ==> s.queues[READY] != [] && s.queues[READY][0] == s.running
  }

  ghost predicate CountersOk(s: Sched)
    requires Shape(s)
  {
    && (forall t | t in s.live :: t < |s.ticks| && 1 <= s.ticks[t] <= TICKS)
    && 1 <= s.ticks[IDLE] <= TICKS
    && (forall t | t in s.queues[SLEEPING] :: s.sleep[t] >= 1)
  }

  ghost predicate Inv(s: Sched) {
    && Shape(s) && Placed(s) && RunningOk(s) && CountersOk(s)
    && (forall m: nat | m < |s.mutexes| :: MutexOk(s, m))
    && (forall j: nat | j < |s.sems| :: SemOk(s, j))
  }

  // ---- queues as one multiset

  lemma {:induction false} QueuedUpdate(queues: seq<seq<nat>>, i: nat, q: seq<nat>)
    requires i < |queues|
    ensures multiset(queues[i]) <= Queued(queues)
    ensures Queued(queues[i := q]) == Queued(queues) - multiset(queues[i]) + multiset(q)
  {
    if i == 0 {
      assert queues[0 := q][1..] == queues[1..];
      SwapFirst(multiset(queues[0]), Queued(queues[1..]), multiset(q));
    } else {
      QueuedUpdate(queues[1..], i - 1, q);
      assert queues[i := q][1..] == queues[1..][i - 1 := q];
      SwapLater(multiset(queues[0]), Queued(queues[1..]), multiset(queues[i]), multiset(q));
    }
  }

  lemma SwapFirst(h: multiset<nat>, r: multiset<nat>, n: multiset<nat>)
    ensures h <= h + r && n + r == h + r - h + n
  {
  }

  lemma SwapLater(h: multiset<nat>, r: multiset<nat>, m: multiset<nat>, n: multiset<nat>)
    requires m <= r
    ensures m <= h + r && h + (r - m + n) == h + r - m + n
  {
  }

  lemma QueuedAppend(queues: seq<seq<nat>>, i: nat, t: nat)
    requires i < |queues|
    ensures Queued(queues[i := queues[i] + [t]]) == Queued(queues) + multiset{t}
  {
    QueuedUpdate(queues, i, queues[i] + [t]);
  }

  lemma QueuedWithout(queues: seq<seq<nat>>, i: nat, t: nat)
    requires i < |queues| && t in queues[i]
    ensures Queued(queues[i := Without(queues[i], t)]) == Queued(queues) - multiset{t} && t in Queued(queues)
  {
    QueuedUpdate(queues, i, Without(queues[i], t));
    assert t in multiset(queues[i]);
  }

  /** Consequences of single location: members are live and not idle, and no task is anywhere else. */
  lemma PlacedMeans(s: Sched, i: nat, t: nat)
    requires Placed(s) && i < |s.queues| && t in s.queues[i]
    ensures t in s.live && t != IDLE && multiset(s.queues[i])[t] == 1
    ensures forall k | 0 <= k < |s.queues| && k != i :: t !in s.queues[k]
  {
    QueuedUpdate(s.queues, i, []);
    assert t in multiset(s.queues[i]);
    assert multiset(s.live)[t] <= 1;
    forall k | 0 <= k < |s.queues| && k != i
      ensures t !in s.queues[k]
    {
      QueuedUpdate(s.queues[i := []], k, []);
      assert t !in multiset(s.queues[k]);
    }
  }

  lemma PlacedDistinct(s: Sched, i: nat)
    requires Placed(s) && i < |s.queues|
    ensures Distinct(s.queues[i])
  {
    var q := s.queues[i];
    forall a, b | 0 <= a < b < |q|
      ensures q[a] != q[b]
    {
      PlacedMeans(s, i, q[a]);
      assert q == q[..b] + [q[b]] + q[b + 1..];
      assert q[a] in multiset(q[..b]);
    }
  }

  /** And every live task is somewhere. */
  lemma {:induction false} QueuedSomewhere(queues: seq<seq<nat>>, t: nat) returns (i: nat)
    requires t in Queued(queues)
    ensures i < |queues| && t in queues[i]
  {
    if t in multiset(queues[0]) {
      i := 0;
    } else {
      i := QueuedSomewhere(queues[1..], t);
      i := i + 1;
    }
  }

  // ---- the walk over the sleepers

  // The first position of q from k on whose counter is about to reach 0, or |q|.
  function Waker(sleep: seq<nat>, q: seq<nat>, k: nat): (w: nat)
    requires k <= |q| && forall i | 0 <= i < |q| :: q[i] < |sleep|
    ensures k <= w <= |q| && (w < |q| ==> sleep[q[w]] == 1)
    decreases |q| - k
  {
    if k == |q| || sleep[q[k]] == 1 then k else Waker(sleep, q, k + 1)
  }

  lemma {:induction false} BeforeWaker(sleep: seq<nat>, q: seq<nat>, k: nat, i: nat)
    requires k <= i <= |q| && (forall i | 0 <= i < |q| :: q[i] < |sleep|) && i < Waker(sleep, q, k)
    ensures sleep[q[i]] != 1
    decreases |q| - k
  {
    if k == i {
    } else {
      BeforeWaker(sleep, q, k + 1, i);
    }
  }

  // The counters of the tasks in q[k..e] lowered by one.
  function Lowered(sleep: seq<nat>, q: seq<nat>, k: nat, e: nat): (r: seq<nat>)
    requires k <= e <= |q| && forall i | 0 <= i < |q| :: q[i] < |sleep|
    ensures |r| == |sleep|
    decreases e - k
  {
    if k == e then sleep else Lowered(sleep[q[k] := Dec(sleep[q[k]])], q, k + 1, e)
  }

  lemma {:induction false} LoweredOutside(sleep: seq<nat>, q: seq<nat>, k: nat, e: nat, t: nat)
    requires k <= e <= |q| && (forall i | 0 <= i < |q| :: q[i] < |sleep|) && t < |sleep|
    requires forall i | k <= i < e :: q[i] != t
    ensures Lowered(sleep, q, k, e)[t] == sleep[t]
    decreases e - k
  {
    if k == e {
    } else {
      LoweredOutside(sleep[q[k] := Dec(sleep[q[k]])], q, k + 1, e, t);
    }
  }

  lemma {:induction false} LoweredAt(sleep: seq<nat>, q: seq<nat>, k: nat, e: nat, i: nat)
    requires k <= e <= |q| && (forall i | 0 <= i < |q| :: q[i] < |sleep|) && i < |q| && Distinct(q)
    ensures Lowered(sleep, q, k, e)[q[i]] == if k <= i < e then Dec(sleep[q[i]]) else sleep[q[i]]
    decreases e - k
  {
    if k == e {
    } else {
      var sleep1 := sleep[q[k] := Dec(sleep[q[k]])];
      if i == k {
        LoweredOutside(sleep1, q, k + 1, e, q[k]);
      } else {
        LoweredAt(sleep1, q, k + 1, e, i);
      }
    }
  }

  lemma {:induction false} WakerSame(sleep: seq<nat>, sleep2: seq<nat>, q: seq<nat>, k: nat)
    requires k <= |q| && |sleep| == |sleep2| && forall i | 0 <= i < |q| :: q[i] < |sleep|
    requires forall i | k <= i < |q| :: sleep2[q[i]] == sleep[q[i]]
    ensures Waker(sleep2, q, k) == Waker(sleep, q, k)
    decreases |q| - k
  {
    if k == |q| {
    } else {
      WakerSame(sleep, sleep2, q, k + 1);
    }
  }

  ghost predicate SleepersOk(s: Sched)
    requires Shape(s)
  {
    var q := s.queues[SLEEPING];
    Distinct(q) && forall i | 0 <= i < |q| :: s.sleep[q[i]] >= 1
  }

  // The counters down to the waker drop by one, and the waker moves to the back of ready_list.
  function WalkEnd(s: Sched, k: nat): (r: Sched)
    requires Shape(s) && k <= |s.queues[SLEEPING]|
  {
    var q := s.queues[SLEEPING];
    var w := Waker(s.sleep, q, k);
    if w < |q| then SetReady(Take(s.(sleep := Lowered(s.sleep, q, k, w + 1)), SLEEPING, q[w]), q[w])
    else s.(sleep := Lowered(s.sleep, q, k, w))
  }

  // One sleeper counted down without waking.
  function Lower(s: Sched, k: nat): (r: Sched)
    requires Shape(s) && k < |s.queues[SLEEPING]|
    ensures Shape(r) && r.queues == s.queues
  {
    var t := s.queues[SLEEPING][k];
    s.(sleep := s.sleep[t := Dec(s.sleep[t])])
  }

  lemma LowerFirst(sleep: seq<nat>, q: seq<nat>, k: nat)
    requires k < |q| && Distinct(q) && (forall i | 0 <= i < |q| :: q[i] < |sleep|) && sleep[q[k]] != 1
    ensures var (w, sleep1) := (Waker(sleep, q, k), sleep[q[k] := Dec(sleep[q[k]])]);
      var e := if w < |q| then w + 1 else w;
      k < w && Waker(sleep1, q, k + 1) == w && Lowered(sleep, q, k, e) == Lowered(sleep1, q, k + 1, e)
  {
    var sleep1 := sleep[q[k] := Dec(sleep[q[k]])];
    forall i | k + 1 <= i < |q|
      ensures sleep1[q[i]] == sleep[q[i]]
    {
      assert q[i] != q[k];
    }
    WakerSame(sleep, sleep1, q, k + 1);
  }

  lemma WalkEndStep(s: Sched, k: nat)
    requires Shape(s) && k < |s.queues[SLEEPING]| && Distinct(s.queues[SLEEPING])
    requires s.sleep[s.queues[SLEEPING][k]] != 1
    ensures WalkEnd(s, k) == WalkEnd(Lower(s, k), k + 1)
  {
    var q := s.queues[SLEEPING];
    assert forall i | 0 <= i < |q| :: q[i] < |s.sleep|;
    LowerFirst(s.sleep, q, k);
    hide InTable, SetReady, Take, Distinct, Waker, Lowered;
  }

  lemma WalkEndStop(s: Sched, k: nat)
    requires Shape(s) && k <= |s.queues[SLEEPING]|
    ensures k == |s.queues[SLEEPING]| ==> WalkEnd(s, k) == s
    ensures k < |s.queues[SLEEPING]| && s.sleep[s.queues[SLEEPING][k]] == 1 ==>
      var t := s.queues[SLEEPING][k]; WalkEnd(s, k) == SetReady(Take(Lower(s, k), SLEEPING, t), t)
  {
    var q := s.queues[SLEEPING];
    assert forall i | 0 <= i < |q| :: q[i] < |s.sleep|;
    hide InTable, SetReady, Take;
    if k < |q| {
      assert Lowered(Lower(s, k).sleep, q, k + 1, k + 1) == Lower(s, k).sleep;
    }
  }

  /** The walk of tss_task_ts from k: the counters down to the waker drop by one, the waker moves to the back of
      ready_list, and nothing else changes, the counters behind the waker included. */
  lemma {:induction false} WalkWakesFirst(s: Sched, k: nat)
    requires Shape(s) && k <= |s.queues[SLEEPING]| && Distinct(s.queues[SLEEPING])
    requires forall i | k <= i < |s.queues[SLEEPING]| :: s.sleep[s.queues[SLEEPING][i]] >= 1
    ensures Walk(s, k) == WalkEnd(s, k)
    decreases |s.queues[SLEEPING]| - k
  {
    var q := s.queues[SLEEPING];
    assert forall i | 0 <= i < |q| :: q[i] < |s.sleep|;
    hide InTable, SetReady, Take, WalkEnd;
    WalkEndStop(s, k);
    if k == |q| || s.sleep[q[k]] == 1 {
    } else {
      WalkEndStep(s, k);
      forall i | k + 1 <= i < |q|
        ensures Lower(s, k).sleep[q[i]] >= 1
      {
        assert q[i] != q[k];
      }
      WalkWakesFirst(Lower(s, k), k + 1);
    }
  }

  // ---- each step keeps the invariant

  lemma WithoutHead<T>(q: seq<T>)
    requires q != []
    ensures Without(q, q[0]) == q[1..]
  {
    assert IndexOf(q, q[0]) == 0;
  }

  /** Everything but RunningOk. */
  ghost predicate Calm(s: Sched) {
    && Shape(s) && Placed(s) && CountersOk(s)
    && (forall m: nat | m < |s.mutexes| :: MutexOk(s, m))
    && (forall j: nat | j < |s.sems| :: SemOk(s, j))
  }

  // Dispatch restores RunningOk and changes nothing else.
  lemma DispatchInv(s: Sched)
    requires Calm(s)
    ensures Inv(Dispatch(s))
  {
    var r := Dispatch(s);
    forall m: nat | m < |r.mutexes|
      ensures MutexOk(r, m)
    {
      assert MutexOk(s, m);
    }
    forall j: nat | j < |r.sems|
      ensures SemOk(r, j)
    {
      assert SemOk(s, j);
    }
  }

  lemma TwoQueues(queues: seq<seq<nat>>, ready: seq<nat>, i: nat, q: seq<nat>)
    requires 1 <= i < |queues| && multiset(ready) + multiset(q) == multiset(queues[READY]) + multiset(queues[i])
    ensures Queued(queues[READY := ready][i := q]) == Queued(queues)
  {
    QueuedUpdate(queues, READY, ready);
    QueuedUpdate(queues[READY := ready], i, q);
    hide Queued;
    assert queues[READY := ready][i] == queues[i];
    Exchange(Queued(queues), multiset(queues[READY]), multiset(queues[i]), multiset(ready), multiset(q));
  }

  lemma Exchange(a: multiset<nat>, m0: multiset<nat>, m1: multiset<nat>, n0: multiset<nat>, n1: multiset<nat>)
    requires m0 <= a && m1 <= a - m0 + n0 && n0 + n1 == m0 + m1
    ensures a - m0 + n0 - m1 + n1 == a
  {
    forall x
      ensures (a - m0 + n0 - m1 + n1)[x] == a[x]
    {
      assert (n0 + n1)[x] == (m0 + m1)[x];
    }
  }

  // Tasks move between ready_list and queue i, whose mutex or semaphore is not free while somebody waits.
  lemma MoveCalm(s: Sched, r: Sched, i: nat)
    requires Calm(s) && Shape(r) && 1 <= i < |s.queues| && CountersOk(r)
    requires |r.queues| == |s.queues| && r.live == s.live && r.mutexes == s.mutexes && r.sems == s.sems
    requires forall k | 0 <= k < |s.queues| && k != READY && k != i :: r.queues[k] == s.queues[k]
    requires multiset(r.queues[READY]) + multiset(r.queues[i]) == multiset(s.queues[READY]) + multiset(s.queues[i])
    requires forall m: nat | m < |s.mutexes| && MutexQueue(m) == i :: s.mutexes[m].owner == None ==> r.queues[i] == []
    requires forall j: nat | j < |s.sems| && SemQueue(s, j) == i :: s.sems[j] > 0 ==> r.queues[i] == []
    ensures Calm(r)
  {
    hide Queued, InTable, CountersOk;
    TwoQueues(s.queues, r.queues[READY], i, r.queues[i]);
    assert r.queues == s.queues[READY := r.queues[READY]][i := r.queues[i]];
    forall m: nat | m < |r.mutexes|
      ensures MutexOk(r, m)
    {
      assert MutexOk(s, m);
    }
    forall j: nat | j < |r.sems|
      ensures SemOk(r, j)
    {
      assert SemOk(s, j);
    }
  }

  /** The caller's place: rotating it to the back of ready_list keeps everything but RunningOk. */
  lemma RotateCalm(s: Sched)
    requires Inv(s)
    ensures Calm(SetReady(SetBlock(s, s.running), s.running))
    ensures SetReady(SetBlock(s, s.running), s.running) == if s.running == IDLE then s else
      s.(queues := s.queues[READY := s.queues[READY][1..] + [s.running]])
  {
    RotatedIs(s);
    if s.running != IDLE {
      var q := s.queues[READY];
      var r := s.(queues := s.queues[READY := q[1..] + [s.running]]);
      hide Queued, InTable, Without, SetReady, SetBlock;
      Rotated(q);
      assert CountersOk(r);
      MoveCalm(s, r, SLEEPING);
    }
  }

  lemma Rotated(q: seq<nat>)
    requires q != []
    ensures multiset(q[1..] + [q[0]]) == multiset(q)
  {
    assert q == [q[0]] + q[1..];
  }

  lemma RotatedIs(s: Sched)
    requires Shape(s) && RunningOk(s)
    ensures SetReady(SetBlock(s, s.running), s.running) == if s.running == IDLE then s else
      s.(queues := s.queues[READY := s.queues[READY][1..] + [s.running]])
  {
    if s.running != IDLE {
      WithoutHead(s.queues[READY]);
      hide InTable, Without;
    }
  }

  lemma YieldInv(s: Sched)
    requires Inv(s)
    ensures Inv(Yield(s))
  {
    RotateCalm(s);
    DispatchInv(SetReady(SetBlock(s, s.running), s.running));
  }

  lemma SleepersDistinct(s: Sched)
    requires Inv(s)
    ensures SleepersOk(s)
    ensures forall i | 0 <= i < |s.queues[SLEEPING]| :: s.queues[SLEEPING][i] < |s.sleep|
  {
    PlacedDistinct(s, SLEEPING);
  }

  lemma InvShape(s: Sched)
    requires Inv(s)
    ensures Shape(s) && Placed(s)
  {
  }

  lemma WalkInv(s: Sched)
    requires Inv(s)
    ensures var r := Walk(s, 0); Inv(r) && r == s.(queues := r.queues, sleep := r.sleep)
  {
    hide Inv, Lowered, Waker, InTable, Without, Distinct, Walk;
    InvShape(s);
    var q := s.queues[SLEEPING];
    SleepersDistinct(s);
    WalkWakesFirst(s, 0);
    var w := Waker(s.sleep, q, 0);
    if w < |q| {
      PlacedMeans(s, SLEEPING, q[w]);
      WakeCalm(s, q, w);
    } else {
      LullCalm(s, q);
    }
  }

  lemma LullCalm(s: Sched, q: seq<nat>)
    requires Inv(s) && SleepersOk(s) && q == s.queues[SLEEPING] && (forall i | 0 <= i < |q| :: q[i] < |s.sleep|)
    requires Waker(s.sleep, q, 0) == |q|
    ensures Inv(s.(sleep := Lowered(s.sleep, q, 0, |q|)))
  {
    var r := s.(sleep := Lowered(s.sleep, q, 0, |q|));
    forall i | 0 <= i < |q|
      ensures r.sleep[q[i]] >= 1
    {
      BeforeWaker(s.sleep, q, 0, i);
      LoweredAt(s.sleep, q, 0, |q|, i);
    }
    hide Lowered, Waker;
    assert CountersOk(r);
    hide CountersOk, Lowered, Waker, SleepersOk, InTable;
    MoveCalm(s, r, SLEEPING);
  }

  // s after sleeper t has moved to ready_list with counters `sleep`.
  function Woken(s: Sched, sleep: seq<nat>, t: nat): (r: Sched)
    requires Shape(s)
  {
    s.(sleep := sleep, queues := s.queues[SLEEPING := Without(s.queues[SLEEPING], t)][READY := s.queues[READY] + [t]])
  }

  lemma WokenIs(s: Sched, sleep: seq<nat>, t: nat)
    requires Shape(s) && |sleep| == |s.sleep| && t < |s.ticks| && t != IDLE
    ensures SetReady(Take(s.(sleep := sleep), SLEEPING, t), t) == Woken(s, sleep, t) && Shape(Woken(s, sleep, t))
  {
    hide Without, InTable;
  }

  lemma WakeCounters(s: Sched, q: seq<nat>, w: nat)
    requires Shape(s) && CountersOk(s) && SleepersOk(s) && q == s.queues[SLEEPING]
    requires (forall i | 0 <= i < |q| :: q[i] < |s.sleep|) && w == Waker(s.sleep, q, 0) < |q|
    requires Shape(Woken(s, Lowered(s.sleep, q, 0, w + 1), q[w]))
    ensures CountersOk(Woken(s, Lowered(s.sleep, q, 0, w + 1), q[w]))
  {
    hide InTable, Waker, Lowered, Distinct, Without;
    KeptPositive(s.sleep, q);
  }

  lemma KeptPositive(sleep: seq<nat>, q: seq<nat>)
    requires Distinct(q) && (forall i | 0 <= i < |q| :: q[i] < |sleep| && sleep[q[i]] >= 1) && Waker(sleep, q, 0) < |q|
    ensures forall u: nat | u in Without(q, q[Waker(sleep, q, 0)]) ::
      u < |sleep| && Lowered(sleep, q, 0, Waker(sleep, q, 0) + 1)[u] >= 1
  {
    hide Waker, Lowered, Without;
    var w := Waker(sleep, q, 0);
    forall u: nat | u in Without(q, q[w])
      ensures u < |sleep| && Lowered(sleep, q, 0, w + 1)[u] >= 1
    {
      var i := KeptIndex(q, q[w], u);
      NotTheWaker(sleep, q, i);
    }
  }

  lemma MovedTask(ready: seq<nat>, q: seq<nat>, t: nat)
    requires t in q
    ensures multiset(ready + [t]) + multiset(Without(q, t)) == multiset(ready) + multiset(q)
  {
  }

  lemma WakeCalm(s: Sched, q: seq<nat>, w: nat)
    requires Inv(s) && SleepersOk(s) && q == s.queues[SLEEPING] && (forall i | 0 <= i < |q| :: q[i] < |s.sleep|)
    requires w == Waker(s.sleep, q, 0) < |q| && q[w] != IDLE
    ensures Inv(SetReady(Take(s.(sleep := Lowered(s.sleep, q, 0, w + 1)), SLEEPING, q[w]), q[w]))
  {
    hide CountersOk, Lowered, Waker, SleepersOk, InTable, Without, Queued, Placed, MutexOk, SemOk;
    WokenIs(s, Lowered(s.sleep, q, 0, w + 1), q[w]);
    WakeCounters(s, q, w);
    var r := Woken(s, Lowered(s.sleep, q, 0, w + 1), q[w]);
    MovedTask(s.queues[READY], q, q[w]);
    MoveCalm(s, r, SLEEPING);
  }

  lemma NotTheWaker(sleep: seq<nat>, q: seq<nat>, i: nat)
    requires Distinct(q) && (forall i | 0 <= i < |q| :: q[i] < |sleep|) && i < |q| && sleep[q[i]] >= 1
    requires Waker(sleep, q, 0) < |q| && i != Waker(sleep, q, 0)
    ensures Lowered(sleep, q, 0, Waker(sleep, q, 0) + 1)[q[i]] >= 1
  {
    LoweredAt(sleep, q, 0, Waker(sleep, q, 0) + 1, i);
    if i < Waker(sleep, q, 0) {
      BeforeWaker(sleep, q, 0, i);
    }
  }

  lemma KeptIndex(q: seq<nat>, t: nat, u: nat) returns (i: nat)
    requires Distinct(q) && t in q && u in Without(q, t)
    ensures i < |q| && q[i] == u && u != t
  {
    WithoutSubset(q, t);
    WithoutAt(q, t);
    hide Without;
    i :| i < |q| && q[i] == u;
  }

  lemma TickInv(s: Sched)
    requires Inv(s)
    ensures Inv(Tick(s))
  {
    hide Queued, Without, Walk;
    WalkInv(s);
    var s1 := Walk(s, 0);
    var t := s1.running;
    var left := Dec(s1.ticks[t]);
    if t != IDLE {
      PlacedMeans(s1, READY, t);
    }
    var s2 := s1.(ticks := s1.ticks[t := if left == 0 then TICKS else left]);
    assert CountersOk(s2);
    MoveCalm(s1, s2, SLEEPING);
    if left == 0 {
      RotateCalm(s2);
      DispatchInv(SetReady(SetBlock(s2, t), t));
    }
  }

  // The state once the caller has left the head of ready_list for the back of queue i.
  lemma BlockedIs(s: Sched, i: nat)
    requires Inv(s) && s.running != IDLE && 1 <= i < |s.queues|
    ensures var (t, q) := (s.running, s.queues[READY]);
      && t in s.live && q == [t] + q[1..]
      && Put(SetBlock(s, t), i, t) == s.(queues := s.queues[READY := q[1..]][i := s.queues[i] + [t]])
  {
    RunningLive(s);
    WithoutHead(s.queues[READY]);
    hide Queued, InTable, Without, Placed, CountersOk;
  }

  lemma RunningLive(s: Sched)
    requires Inv(s) && s.running != IDLE
    ensures s.running in s.live
  {
    PlacedMeans(s, READY, s.running);
  }

  lemma SleepInv(s: Sched, ms: nat)
    requires Inv(s) && Enabled(s, DoSleep(ms))
    ensures Inv(Sleep(s, ms))
  {
    var t := s.running;
    BlockedIs(s, SLEEPING);
    hide Queued, Without, InTable;
    var r := Put(SetBlock(s, t), SLEEPING, t).(sleep := s.sleep[t := ms]);
    assert r == Put(SetBlock(s, t).(sleep := s.sleep[t := ms]), SLEEPING, t);
    forall u: nat | u in r.queues[SLEEPING]
      ensures u < |r.sleep| && r.sleep[u] >= 1
    {
      assert u == t || u in s.queues[SLEEPING];
    }
    hide Put, SetBlock;
    MoveCalm(s, r, SLEEPING);
    DispatchInv(r);
  }

  // The caller leaves ready_list for the back of wait list i.
  lemma BlockInv(s: Sched, i: nat)
    requires Inv(s) && s.running != IDLE && 2 <= i < |s.queues|
    requires forall m: nat | m < |s.mutexes| && MutexQueue(m) == i :: s.mutexes[m].owner != None
    requires forall j: nat | j < |s.sems| && SemQueue(s, j) == i :: s.sems[j] == 0
    ensures Inv(Dispatch(Put(SetBlock(s, s.running), i, s.running)))
  {
    BlockedIs(s, i);
    hide Queued, Without, InTable;
    var r := Put(SetBlock(s, s.running), i, s.running);
    assert CountersOk(r);
    hide Put, SetBlock;
    MoveCalm(s, r, i);
    DispatchInv(r);
  }

  // The head of wait list i joins ready_list.
  lemma ReleaseCalm(s: Sched, i: nat)
    requires Inv(s) && 2 <= i < |s.queues| && s.queues[i] != []
    ensures var t := s.queues[i][0];
      && t != IDLE && t in s.live
      && s.queues[i][1..] + [t] != [] && Shape(s.(queues := s.queues[i := s.queues[i][1..]]))
      && Calm(SetReady(s.(queues := s.queues[i := s.queues[i][1..]]), t))
  {
    var q := s.queues[i];
    var t := q[0];
    PlacedMeans(s, i, t);
    var s1 := s.(queues := s.queues[i := q[1..]]);
    assert forall k | 0 <= k < |q[1..]| :: q[1..][k] == q[k + 1];
    assert Shape(s1);
    assert q == [t] + q[1..];
    var r := SetReady(s1, t);
    hide Queued, InTable;
    assert CountersOk(r);
    forall m: nat | m < |s.mutexes| && MutexQueue(m) == i
      ensures s.mutexes[m].owner != None
    {
      assert MutexOk(s, m);
    }
    forall j: nat | j < |s.sems| && SemQueue(s, j) == i
      ensures s.sems[j] == 0
    {
      assert SemOk(s, j);
    }
    MoveCalm(s, r, i);
  }

  lemma LockInv(s: Sched, m: nat)
    requires Inv(s) && Enabled(s, DoLock(m))
    ensures Inv(Lock(s, m))
  {
    assert MutexOk(s, m);
    PlacedMeans(s, READY, s.running);
    var mu := s.mutexes[m];
    if mu.locker == 0 {
      MutexInv(s, m, MutexState(Some(s.running), 1));
    } else if mu.owner == Some(s.running) {
      MutexInv(s, m, mu.(locker := mu.locker + 1));
    } else {
      BlockInv(s, MutexQueue(m));
    }
  }

  lemma MutexInv(s: Sched, m: nat, mu: MutexState)
    requires Calm(s) && m < |s.mutexes| && (mu.locker == 0 <==> mu.owner == None)
    requires mu.owner == None ==> s.queues[MutexQueue(m)] == []
    requires mu.owner.Some? ==> mu.owner.value in s.live
    ensures Calm(s.(mutexes := s.mutexes[m := mu]))
    ensures RunningOk(s) ==> Inv(s.(mutexes := s.mutexes[m := mu]))
  {
    hide Queued, InTable;
    var r := s.(mutexes := s.mutexes[m := mu]);
    forall k: nat | k < |r.mutexes|
      ensures MutexOk(r, k)
    {
      assert MutexOk(s, k);
    }
    forall j: nat | j < |r.sems|
      ensures SemOk(r, j)
    {
      assert SemOk(s, j);
    }
  }

  lemma UnlockInv(s: Sched, m: nat)
    requires Inv(s) && m < |s.mutexes|
    ensures Inv(Unlock(s, m))
  {
    assert MutexOk(s, m);
    var (mu, q) := (s.mutexes[m], s.queues[MutexQueue(m)]);
    if mu.owner != Some(s.running) {
    } else if Dec(mu.locker) != 0 {
      MutexInv(s, m, mu.(locker := Dec(mu.locker)));
    } else if q == [] {
      MutexInv(s, m, MutexState(None, 0));
    } else {
      var t := q[0];
      ReleaseCalm(s, MutexQueue(m));
      var s1 := s.(queues := s.queues[MutexQueue(m) := q[1..]]);
      var r := SetReady(s1, t);
      MutexInv(r, m, MutexState(Some(t), 1));
      DispatchInv(r.(mutexes := r.mutexes[m := MutexState(Some(t), 1)]));
    }
  }

  lemma SemInv(s: Sched, j: nat, c: int)
    requires Inv(s) && j < |s.sems| && c >= 0 && (c > 0 ==> s.queues[SemQueue(s, j)] == [])
    ensures Inv(s.(sems := s.sems[j := c]))
  {
    hide Queued, InTable;
    var r := s.(sems := s.sems[j := c]);
    forall m: nat | m < |r.mutexes|
      ensures MutexOk(r, m)
    {
      assert MutexOk(s, m);
    }
    forall k: nat | k < |r.sems|
      ensures SemOk(r, k)
    {
      assert SemOk(s, k);
    }
  }

  lemma WaitInv(s: Sched, j: nat)
    requires Inv(s) && Enabled(s, DoWait(j))
    ensures Inv(Wait(s, j))
  {
    assert SemOk(s, j);
    if s.sems[j] > 0 {
      SemInv(s, j, s.sems[j] - 1);
    } else {
      BlockInv(s, SemQueue(s, j));
    }
  }

  lemma NotifyInv(s: Sched, j: nat)
    requires Inv(s) && j < |s.sems|
    ensures Inv(Notify(s, j))
  {
    assert SemOk(s, j);
    var q := s.queues[SemQueue(s, j)];
    if q == [] {
      SemInv(s, j, s.sems[j] + 1);
    } else {
      ReleaseCalm(s, SemQueue(s, j));
      DispatchInv(SetReady(s.(queues := s.queues[SemQueue(s, j) := q[1..]]), q[0]));
    }
  }

  lemma CreateInv(s: Sched, t: nat)
    requires Inv(s) && Enabled(s, DoCreate(t))
    ensures Inv(Create(s, t))
  {
    var r := Create(s, t);
    QueuedAppend(s.queues, READY, t);
    assert multiset(s.live + {t}) == multiset(s.live) + multiset{t};
    forall u | u in r.queues[SLEEPING]
      ensures r.sleep[u] >= 1
    {
      PlacedMeans(s, SLEEPING, u);
    }
    hide Queued, InTable;
    forall m: nat | m < |r.mutexes|
      ensures MutexOk(r, m)
    {
      assert MutexOk(s, m);
    }
    forall j: nat | j < |r.sems|
      ensures SemOk(r, j)
    {
      assert SemOk(s, j);
    }
  }

  // Taking and giving back these mutexes goes through and leaves no trace.
  ghost predicate Passes(s: Sched, t: nat, takes: seq<nat>)
    requires Shape(s)
  {
    HasMutexes(s, takes) && forall k | 0 <= k < |takes| :: PassesOne(s, t, takes[k])
  }

  predicate PassesOne(s: Sched, t: nat, m: nat)
    requires Shape(s) && m < |s.mutexes|
  {
    var mu := s.mutexes[m];
    (mu == MutexState(None, 0) && s.queues[MutexQueue(m)] == []) || (mu.owner == Some(t) && mu.locker > 0)
  }

  lemma {:induction false} NoTrace(s: Sched, takes: seq<nat>)
    requires Shape(s) && Passes(s, s.running, takes)
    ensures TakeEach(s, s.running, takes) == (s, true)
    decreases |takes|
  {
    hide InTable, Take, Without;
    if takes == [] {
    } else {
      assert PassesOne(s, s.running, takes[0]);
      assert Unlock(Lock(s, takes[0]), takes[0]) == s;
      assert forall k | 0 <= k < |takes[1..]| :: takes[1..][k] == takes[k + 1];
      NoTrace(s, takes[1..]);
    }
  }

  // Under the invariant free mutexes are passed.
  lemma FreePass(s: Sched, takes: seq<nat>)
    requires Inv(s) && AllFree(s, takes)
    ensures Passes(Take(s, READY, s.running), s.running, takes)
  {
    forall k | 0 <= k < |takes|
      ensures PassesOne(Take(s, READY, s.running), s.running, takes[k])
    {
      assert MutexOk(s, takes[k]);
    }
  }

  /** When the mutexes that tss_task_destroy takes are free, exit does what it would do without taking any. */
  lemma ExitTakesNone(s: Sched, takes: seq<nat>)
    requires Inv(s) && AllFree(s, takes)
    ensures Exit(s, takes) == Exit(s, []) == Dispatch(Gone(s))
  {
    FreePass(s, takes);
    hide Inv, Take, Clear, InTable, Passes;
    NoTrace(Take(s, READY, s.running), takes);
  }

  // The state of exit before it dispatches.
  function Gone(s: Sched): (r: Sched)
    requires Shape(s)
    ensures Shape(r)
  {
    Clear(Take(s, READY, s.running), s.running)
  }

  lemma GoneParts(s: Sched)
    requires Inv(s) && s.running != IDLE
    ensures Placed(Gone(s)) && CountersOk(Gone(s))
  {
    var t := s.running;
    PlacedMeans(s, READY, t);
    QueuedWithout(s.queues, READY, t);
    hide Queued, InTable, Without;
    assert multiset(s.live - {t}) == multiset(s.live) - multiset{t};
  }

  lemma ExitInv(s: Sched, takes: seq<nat>)
    requires Inv(s) && Enabled(s, DoExit(takes))
    ensures Inv(Exit(s, takes))
  {
    hide Placed, CountersOk, InTable, Without, Exit;
    ExitTakesNone(s, takes);
    GoneParts(s);
    var r := Gone(s);
    forall m: nat | m < |r.mutexes|
      ensures MutexOk(r, m)
    {
      assert MutexOk(s, m);
    }
    forall j: nat | j < |r.sems|
      ensures SemOk(r, j)
    {
      assert SemOk(s, j);
    }
    DispatchInv(r);
  }

  lemma StepInv(s: Sched, op: Op)
    requires Inv(s) && Enabled(s, op)
    ensures Inv(Step(s, op))
  {
    hide Yield, Tick, Sleep, Lock, Unlock, Wait, Notify, Create, Exit;
    match op
    case DoYield => YieldInv(s);
    case DoTick => TickInv(s);
    case DoSleep(ms) => SleepInv(s, ms);
    case DoLock(m) => LockInv(s, m);
    case DoUnlock(m) => UnlockInv(s, m);
    case DoWait(j) => WaitInv(s, j);
    case DoNotify(j) => NotifyInv(s, j);
    case DoCreate(t) => CreateInv(s, t);
    case DoExit(takes) => ExitInv(s, takes);
  }

  /** Single location, head-of-queue running, positive counters, and sound mutexes and semaphores over every run. */
  lemma {:induction false} RunInv(s: Sched, ops: seq<Op>)
    requires Inv(s) && LegalRun(s, ops)
    ensures Inv(Run(s, ops))
    decreases |ops|
  {
    hide Placed, RunningOk, CountersOk, MutexOk, SemOk, Step;
    if ops == [] {
    } else {
      StepInv(s, ops[0]);
      RunInv(Step(s, ops[0]), ops[1..]);
    }
  }

  lemma {:induction false} EmptyQueued(queues: seq<seq<nat>>)
    requires forall i | 0 <= i < |queues| :: queues[i] == []
    ensures Queued(queues) == multiset{}
  {
    if queues == [] {
    } else {
      EmptyQueued(queues[1..]);
    }
  }

  lemma InitialInv(tasks: nat, mutexes: nat, counts: seq<nat>)
    requires tasks >= 2
    ensures Inv(Initial(tasks, mutexes, counts))
  {
    var s := Initial(tasks, mutexes, counts);
    EmptyQueued(s.queues[1..]);
  }

  // Task t is in queue i, once, and in no other.
  ghost predicate OnlyIn(s: Sched, i: nat, t: nat) {
    i < |s.queues| && multiset(s.queues[i])[t] == 1 && forall k: nat | k < |s.queues| && k != i :: t !in s.queues[k]
  }

  /** Single location, task by task: the live tasks are those in some list, each in one list and there once. */
  lemma InOneList(s: Sched, t: nat)
    requires Placed(s)
    ensures t in s.live <==> exists i: nat :: OnlyIn(s, i, t)
    ensures t == IDLE ==> t !in s.live
  {
    if t in s.live {
      assert Queued(s.queues)[t] == 1;
      var i := QueuedSomewhere(s.queues, t);
      PlacedMeans(s, i, t);
      assert OnlyIn(s, i, t);
    }
    hide Queued;
    forall i: nat | OnlyIn(s, i, t)
      ensures t in s.live
    {
      assert t in s.queues[i];
      PlacedMeans(s, i, t);
    }
  }

  /** After any run of whole calls from the start, each live task is in one list, idle in none, and the running task is
      idle or heads ready_list. Calls interrupted on the way are in Preemption. */
  lemma OneListEach(tasks: nat, mutexes: nat, counts: seq<nat>, ops: seq<Op>, t: nat)
    requires tasks >= 2 && LegalRun(Initial(tasks, mutexes, counts), ops)
    ensures var r := Run(Initial(tasks, mutexes, counts), ops);
      && (t in r.live <==> exists i: nat :: OnlyIn(r, i, t)) && !(exists i: nat :: OnlyIn(r, i, IDLE))
      && (r.running != IDLE ==> r.queues[READY] != [] && r.queues[READY][0] == r.running)
  {
    InitialInv(tasks, mutexes, counts);
    RunInv(Initial(tasks, mutexes, counts), ops);
    var r := Run(Initial(tasks, mutexes, counts), ops);
    hide Run, LegalRun, Initial, Queued, CountersOk, MutexOk, SemOk, OnlyIn;
    InOneList(r, t);
    InOneList(r, IDLE);
  }

  /** Why an uninterrupted sleep needs a caller other than idle and at least one tick: exactly then, or when idle sleeps
      0, is every task still in one place. A task sleeping 0 is lost, and idle sleeping longer is queued. */
  lemma SleepExactly(s: Sched, ms: nat)
    requires Inv(s)
    ensures Placed(Sleep(s, ms)) <==> (s.running != IDLE <==> ms >= 1)
  {
    if s.running != IDLE {
      if ms >= 1 {
        SleepInv(s, ms);
      } else {
        PlacedMeans(s, READY, s.running);
        QueuedWithout(s.queues, READY, s.running);
        assert (Queued(s.queues) - multiset{s.running})[s.running] == 0;
      }
    } else if ms >= 1 {
      QueuedAppend(s.queues, SLEEPING, IDLE);
      assert multiset(s.live)[IDLE] == 0;
    }
  }
}
