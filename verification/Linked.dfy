/** The scheduler on the pointers of its lists, store by store. It says what the code does where the lists of the model do
    not hold any longer, and so exactly when they do. */
module Linked {
  import opened Wrappers
  import opened IntrusiveList
  import opened Scheduler
  import opened SchedulerInvariant

  // running_node is for ready_list and sleep_list, wait_node for the lists of mutexes and semaphores.
  datatype Id = RunNode(t: nat) | WaitNode(t: nat)

  /** The pointers of all nodes and lists, the lists in the order of Sched.queues, and the fields outside them. */
  datatype Raw = Raw(links: map<Id, Link<Id>>, ends: seq<Ends<Id>>, rest: Sched)

  function NodeOf(i: nat, t: nat): Id { if i < 2 then RunNode(t) else WaitNode(t) }

  function NodesOf(i: nat, q: seq<nat>): (r: seq<Id>)
    ensures |r| == |q| && forall k | 0 <= k < |q| :: r[k] == NodeOf(i, q[k])
  {
    seq(|q|, k requires 0 <= k < |q| => NodeOf(i, q[k]))
  }

  // ---- the code

  function RemoveAt(x: Raw, i: nat, t: nat): (r: Raw)
    requires i < |x.ends|
    ensures |r.ends| == |x.ends| && r.rest == x.rest
  {
    var (l, e) := Removed(x.links, x.ends[i], NodeOf(i, t));
    Raw(l, x.ends[i := e], x.rest)
  }

  function InsertAt(x: Raw, i: nat, t: nat): (r: Raw)
    requires i < |x.ends|
    ensures |r.ends| == |x.ends| && r.rest == x.rest
  {
    var (l, e) := InsertedBack(x.links, x.ends[i], NodeOf(i, t));
    Raw(l, x.ends[i := e], x.rest)
  }

  // There are two lists of tasks, and one for each mutex and semaphore.
  predicate Listed(x: Raw) {
    |x.ends| == 2 + |x.rest.mutexes| + |x.rest.sems| && x.rest.running < |x.rest.ticks|
  }

  // tss_task_set_ready
  function SetReady(x: Raw, t: nat): (r: Raw)
    requires |x.ends| >= 2
    ensures |r.ends| == |x.ends| && r.rest == x.rest
  {
    if t == IDLE then x else InsertAt(x, READY, t)
  }

  // tss_task_set_block
  function SetBlock(x: Raw, t: nat): (r: Raw)
    requires |x.ends| >= 2
    ensures |r.ends| == |x.ends| && r.rest == x.rest
  {
    if t == IDLE then x else RemoveAt(x, READY, t)
  }

  // tss_task_dispatch; a null head in a list that is not empty makes no task.
  function Dispatch(x: Raw): (r: Raw)
    requires |x.ends| >= 2
    ensures |r.ends| == |x.ends|
  {
    if x.ends[READY].size == 0 then x.(rest := x.rest.(running := IDLE))
    else match x.ends[READY].first
      case None => x
      case Some(n) => x.(rest := x.rest.(running := n.t))
  }

  // The loop of tss_task_ts over sleep_list, from a node on. In a sound list it takes at most as many turns as there are nodes.
  function Walk(x: Raw, node: Option<Id>, turns: nat): (r: Raw)
    requires |x.ends| >= 2
    ensures |r.ends| == |x.ends| && r.rest == x.rest.(sleep := r.rest.sleep)
    decreases turns
  {
    if turns == 0 || node == None || node.value.t >= |x.rest.sleep| then x else
      var t := node.value.t;
      var v := Dec(x.rest.sleep[t]);
      var x1 := x.(rest := x.rest.(sleep := x.rest.sleep[t := v]));
      var x2 := if v == 0 then SetReady(RemoveAt(x1, SLEEPING, t), t) else x1;
      Walk(x2, LinkOf(x2.links, RunNode(t)).next, turns - 1)
  }

  // The second half of tss_task_ts.
  function Account(x: Raw): (r: Raw)
    requires |x.ends| >= 2 && x.rest.running < |x.rest.ticks|
    ensures |r.ends| == |x.ends|
  {
    var t := x.rest.running;
    var left := Dec(x.rest.ticks[t]);
    if left == 0 then Dispatch(SetReady(SetBlock(x.(rest := x.rest.(ticks := x.rest.ticks[t := TICKS])), t), t))
    else x.(rest := x.rest.(ticks := x.rest.ticks[t := left]))
  }

  // tss_task_ts
  function Tick(x: Raw): (r: Raw)
    requires |x.ends| >= 2 && x.rest.running < |x.rest.ticks|
  {
    Account(Walk(x, x.ends[SLEEPING].first, x.ends[SLEEPING].size))
  }

  // ---- sound lists

  // The queues have no task in common, and none twice.
  ghost predicate Apart(queues: seq<seq<nat>>) {
    && (forall i | 0 <= i < |queues| :: Distinct(queues[i]))
    && forall i, j, t | 0 <= i < |queues| && 0 <= j < |queues| && i != j && t in queues[i] :: t !in queues[j]
  }

  ghost predicate NoneHas(queues: seq<seq<nat>>, t: nat) {
    forall i | 0 <= i < |queues| :: t !in queues[i]
  }

  // The node is in none of its lists.
  ghost predicate Loose(queues: seq<seq<nat>>, n: Id) {
    forall i: nat | i < |queues| && NodeOf(i, n.t) == n :: n.t !in queues[i]
  }

  /** The lists are sound: the pointers are those of the queues of s. */
  ghost predicate Shows(x: Raw, s: Sched) {
    && Shape(s) && |s.ticks| < 0xFFFF_FFFF && x.rest == s.(queues := []) && |x.ends| == |s.queues|
    && (forall i: nat | i < |s.queues| :: IsChain(x.links, x.ends[i], NodesOf(i, s.queues[i])))
    && (forall n: Id | Loose(s.queues, n) :: LinkOf(x.links, n) == Link(None, None))
  }

  /** Some queues without a common task are what the lists show. */
  ghost predicate Sound(x: Raw) { exists s :: Shows(x, s) && Apart(s.queues) }

  lemma PlacedApart(s: Sched)
    requires Placed(s)
    ensures Apart(s.queues) && NoneHas(s.queues, IDLE)
  {
    forall i | 0 <= i < |s.queues|
      ensures Distinct(s.queues[i])
    {
      PlacedDistinct(s, i);
    }
    forall i, t | 0 <= i < |s.queues| && t in s.queues[i]
      ensures t != IDLE && forall j | 0 <= j < |s.queues| && j != i :: t !in s.queues[j]
    {
      PlacedMeans(s, i, t);
    }
  }

  lemma ShowsList(x: Raw, s: Sched, i: nat)
    requires Shows(x, s) && i < |s.queues|
    ensures |x.ends| == |s.queues| && IsChain(x.links, x.ends[i], NodesOf(i, s.queues[i]))
  {
  }

  // The same edit of tasks and of nodes.
  lemma NodesWithout(i: nat, q: seq<nat>, k: nat)
    requires Distinct(q) && k < |q|
    ensures Distinct(NodesOf(i, q)) && Without(NodesOf(i, q), NodeOf(i, q[k])) == NodesOf(i, Without(q, q[k]))
  {
    var r := NodesOf(i, q);
    assert Distinct(r) && r[k] == NodeOf(i, q[k]);
    WithoutPlace(q, k);
    WithoutPlace(r, k);
  }

  lemma InNodes(i: nat, q: seq<nat>, n: Id)
    ensures n in NodesOf(i, q) <==> n.t in q && n == NodeOf(i, n.t)
  {
    if n.t in q && n == NodeOf(i, n.t) {
      var k :| 0 <= k < |q| && q[k] == n.t;
      assert NodesOf(i, q)[k] == n;
    }
  }

  lemma OtherNodes(s: Sched, i: nat, j: nat)
    requires Apart(s.queues) && i < |s.queues| && j < |s.queues| && i != j
    ensures forall n | n in NodesOf(j, s.queues[j]) :: n !in NodesOf(i, s.queues[i])
  {
    hide NodesOf;
    forall n | n in NodesOf(j, s.queues[j])
      ensures n !in NodesOf(i, s.queues[i])
    {
      InNodes(j, s.queues[j], n);
      InNodes(i, s.queues[i], n);
    }
  }

  // A list of s is unchanged by what list i went through.
  lemma ListStands(x: Raw, s: Sched, i: nat, j: nat, links: map<Id, Link<Id>>)
    requires Shows(x, s) && Apart(s.queues) && i < |s.queues| && j < |s.queues| && i != j
    requires forall n | n !in NodesOf(i, s.queues[i]) :: LinkOf(links, n) == LinkOf(x.links, n)
    ensures IsChain(links, x.ends[j], NodesOf(j, s.queues[j]))
  {
    hide LinkOf, IsChain, NodesOf;
    ShowsList(x, s, j);
    OtherNodes(s, i, j);
    SameChain(x.links, links, x.ends[j], NodesOf(j, s.queues[j]));
  }

  lemma TakeApart(s: Sched, i: nat, t: nat)
    requires Shape(s) && Apart(s.queues) && i < |s.queues| && t in s.queues[i]
    ensures Apart(Take(s, i, t).queues) && NoneHas(Take(s, i, t).queues, t)
    ensures forall u | NoneHas(s.queues, u) :: NoneHas(Take(s, i, t).queues, u)
  {
    WithoutAll(s.queues[i], t);
    hide Without, IndexOf, Distinct;
  }

  // Some list has changed, and the nodes of no other.
  ghost predicate OnlyList(x: Raw, y: Raw, s: Sched, i: nat)
    requires i < |s.queues|
  {
    && |y.ends| == |x.ends| && (forall j | 0 <= j < |x.ends| && j != i :: y.ends[j] == x.ends[j])
    && forall n | n !in NodesOf(i, s.queues[i]) :: LinkOf(y.links, n) == LinkOf(x.links, n)
  }

  lemma OthersShow(x: Raw, y: Raw, s: Sched, r: Sched, i: nat)
    requires Shows(x, s) && Apart(s.queues) && i < |s.queues| && OnlyList(x, y, s, i) && |r.queues| == |s.queues|
    requires (forall j: nat | j < |s.queues| && j != i :: r.queues[j] == s.queues[j])
    requires IsChain(y.links, y.ends[i], NodesOf(i, r.queues[i]))
    ensures forall j: nat | j < |r.queues| :: IsChain(y.links, y.ends[j], NodesOf(j, r.queues[j]))
  {
    hide IsChain, LinkOf, NodesOf;
    forall j: nat | j < |r.queues| && j != i
      ensures IsChain(y.links, y.ends[j], NodesOf(j, r.queues[j]))
    {
      ListStands(x, s, i, j, y.links);
    }
  }

  lemma RemoveIsTake(x: Raw, s: Sched, i: nat, t: nat)
    requires Shows(x, s) && Apart(s.queues) && i < |s.queues| && t in s.queues[i]
    ensures var y := RemoveAt(x, i, t);
      && IsChain(y.links, y.ends[i], NodesOf(i, Take(s, i, t).queues[i])) && LinkOf(y.links, NodeOf(i, t)) == Link(None, None)
      && OnlyList(x, y, s, i)
  {
    hide IsChain, LinkOf, Removed, Without, IndexOf, Distinct, InTable, Loose;
    var q := s.queues[i];
    var k: nat :| k < |q| && q[k] == t;
    ListGone(x.links, x.ends[i], i, q, k);
  }

  lemma ListGone(links: map<Id, Link<Id>>, e: Ends<Id>, i: nat, q: seq<nat>, k: nat)
    requires Distinct(q) && k < |q| && IsChain(links, e, NodesOf(i, q))
    ensures var (l, e') := Removed(links, e, NodeOf(i, q[k]));
      && IsChain(l, e', NodesOf(i, Without(q, q[k]))) && LinkOf(l, NodeOf(i, q[k])) == Link(None, None)
      && forall n | n !in NodesOf(i, q) :: LinkOf(l, n) == LinkOf(links, n)
  {
    hide IsChain, LinkOf, Removed, Without, IndexOf, Distinct;
    NodesWithout(i, q, k);
    RemovedInside(links, e, NodesOf(i, q), k);
  }

  lemma LooseBefore(s: Sched, r: Sched, i: nat, t: nat, n: Id)
    requires i < |s.queues| && r.queues == s.queues[i := Without(s.queues[i], t)] && Loose(r.queues, n) && n != NodeOf(i, t)
    requires Distinct(s.queues[i]) && t in s.queues[i]
    ensures Loose(s.queues, n) && n !in NodesOf(i, s.queues[i])
  {
    var q := s.queues[i];
    InNodes(i, q, n);
    var k: nat :| k < |q| && q[k] == t;
    WithoutPlace(q, k);
    if n.t != t {
      KeptBy(q, k, n.t);
    }
    hide Without, IndexOf, NodesOf;
  }

  lemma KeptBy(q: seq<nat>, k: nat, u: nat)
    requires Distinct(q) && k < |q| && u != q[k]
    ensures u in q ==> u in Without(q, q[k])
  {
    if u in q {
      var i: nat :| i < |q| && q[i] == u;
      WithoutPlace(q, k);
      assert Without(q, q[k])[if i < k then i else i - 1] == u;
    }
  }

  /** list_remove of a queued task. */
  lemma TakeShows(x: Raw, s: Sched, i: nat, t: nat)
    requires Shows(x, s) && Apart(s.queues) && i < |s.queues| && t in s.queues[i]
    ensures Shows(RemoveAt(x, i, t), Take(s, i, t)) && Apart(Take(s, i, t).queues) && NoneHas(Take(s, i, t).queues, t)
    ensures forall u | NoneHas(s.queues, u) :: NoneHas(Take(s, i, t).queues, u)
  {
    hide IsChain, LinkOf, Removed, Without, IndexOf, NodesOf, InTable, Loose, Distinct;
    var (r, y) := (Take(s, i, t), RemoveAt(x, i, t));
    TakeApart(s, i, t);
    RemoveIsTake(x, s, i, t);
    OthersShow(x, y, s, r, i);
    forall n: Id | Loose(r.queues, n)
      ensures LinkOf(y.links, n) == Link(None, None)
    {
      if n != NodeOf(i, t) {
        LooseBefore(s, r, i, t, n);
      }
    }
  }

  lemma InsertIsPut(x: Raw, s: Sched, i: nat, t: nat)
    requires Shows(x, s) && Apart(s.queues) && i < |s.queues| && t < |s.ticks| && t !in s.queues[i]
    ensures var y := InsertAt(x, i, t);
      && IsChain(y.links, y.ends[i], NodesOf(i, Put(s, i, t).queues[i])) && LinkOf(y.links, NodeOf(i, t)).next == None
      && |y.ends| == |x.ends| && (forall j | 0 <= j < |x.ends| && j != i :: y.ends[j] == x.ends[j])
      && forall n | n !in NodesOf(i, s.queues[i]) && n != NodeOf(i, t) :: LinkOf(y.links, n) == LinkOf(x.links, n)
  {
    hide IsChain, LinkOf, InsertedBack;
    var q := s.queues[i];
    ShowsList(x, s, i);
    InNodes(i, q, NodeOf(i, t));
    assert forall u | u in q :: u < |s.ticks|;
    DistinctBelow(q, |s.ticks|);
    InsertedBehind(x.links, x.ends[i], NodesOf(i, q), NodeOf(i, t));
    assert NodesOf(i, q + [t]) == NodesOf(i, q) + [NodeOf(i, t)];
    var y := InsertAt(x, i, t);
    ChainLink(y.links, y.ends[i], NodesOf(i, q + [t]), |q|);
  }

  lemma PutApart(s: Sched, i: nat, t: nat)
    requires Shape(s) && Apart(s.queues) && i < |s.queues| && t < |s.ticks| && NoneHas(s.queues, t)
    ensures Apart(Put(s, i, t).queues)
    ensures forall u | NoneHas(s.queues, u) && u != t :: NoneHas(Put(s, i, t).queues, u)
  {
  }

  lemma LooseThen(s: Sched, r: Sched, i: nat, t: nat, n: Id)
    requires i < |s.queues| && r.queues == s.queues[i := s.queues[i] + [t]] && Loose(r.queues, n)
    ensures Loose(s.queues, n) && n !in NodesOf(i, s.queues[i]) && n != NodeOf(i, t)
  {
    InNodes(i, s.queues[i], n);
    assert r.queues[i][|s.queues[i]|] == t;
    assert forall u | u in s.queues[i] :: u in r.queues[i];
    hide NodesOf;
  }

  // The lists with the new node as an empty addition.
  lemma FreshNode(x: Raw, s: Sched, i: nat, t: nat, y: Raw, j: nat)
    requires Shows(x, s) && Apart(s.queues) && i < |s.queues| && j < |s.queues| && i != j && NoneHas(s.queues, t)
    requires forall n | n !in NodesOf(i, s.queues[i]) && n != NodeOf(i, t) :: LinkOf(y.links, n) == LinkOf(x.links, n)
    ensures IsChain(y.links, x.ends[j], NodesOf(j, s.queues[j]))
  {
    hide LinkOf, IsChain, NodesOf;
    ShowsList(x, s, j);
    OtherNodes(s, i, j);
    InNodes(j, s.queues[j], NodeOf(i, t));
    SameChain(x.links, y.links, x.ends[j], NodesOf(j, s.queues[j]));
  }

  /** list_insert_back of a task that is in no list. */
  lemma PutShows(x: Raw, s: Sched, i: nat, t: nat)
    requires Shows(x, s) && Apart(s.queues) && i < |s.queues| && t < |s.ticks| && NoneHas(s.queues, t)
    ensures Shows(InsertAt(x, i, t), Put(s, i, t)) && Apart(Put(s, i, t).queues)
    ensures forall u | NoneHas(s.queues, u) && u != t :: NoneHas(Put(s, i, t).queues, u)
    ensures LinkOf(InsertAt(x, i, t).links, NodeOf(i, t)).next == None
  {
    hide IsChain, LinkOf, InsertedBack, NodesOf, InTable, Loose, Distinct;
    var (r, y) := (Put(s, i, t), InsertAt(x, i, t));
    PutApart(s, i, t);
    InsertIsPut(x, s, i, t);
    forall j: nat | j < |r.queues|
      ensures IsChain(y.links, y.ends[j], NodesOf(j, r.queues[j]))
    {
      if j != i {
        FreshNode(x, s, i, t, y, j);
      }
    }
    forall n: Id | Loose(r.queues, n)
      ensures LinkOf(y.links, n) == Link(None, None)
    {
      LooseThen(s, r, i, t, n);
    }
  }

  // ---- the tick

  // Fields outside the lists.
  lemma FieldsShow(x: Raw, s: Sched, r: Sched)
    requires Shows(x, s) && Shape(r) && r.queues == s.queues && |r.ticks| == |s.ticks|
    ensures Shows(x.(rest := r.(queues := [])), r)
  {
    hide IsChain, LinkOf, NodesOf, InTable, Loose;
  }

  lemma DispatchShows(x: Raw, s: Sched)
    requires Shows(x, s)
    ensures |x.ends| >= 2 && Shows(Dispatch(x), Scheduler.Dispatch(s))
  {
    hide LinkOf, InTable, Loose;
    ShowsList(x, s, READY);
    FieldsShow(x, s, Scheduler.Dispatch(s));
  }

  lemma SetReadyShows(x: Raw, s: Sched, t: nat)
    requires Shows(x, s) && Apart(s.queues) && t < |s.ticks| && NoneHas(s.queues, t)
    ensures |x.ends| >= 2 && Shows(SetReady(x, t), Scheduler.SetReady(s, t)) && Apart(Scheduler.SetReady(s, t).queues)
    ensures NoneHas(s.queues, IDLE) ==> NoneHas(Scheduler.SetReady(s, t).queues, IDLE)
    ensures t != IDLE ==> LinkOf(SetReady(x, t).links, RunNode(t)).next == None
  {
    hide LinkOf, InTable, Loose, InsertAt, IsChain;
    if t != IDLE {
      PutShows(x, s, READY, t);
    }
  }

  // The sleeper at position k wakes.
  lemma WakeShows(x: Raw, s: Sched, t: nat)
    requires Shows(x, s) && Apart(s.queues) && NoneHas(s.queues, IDLE) && t in s.queues[SLEEPING]
    ensures |x.ends| >= 2 && t < |s.ticks|
    ensures var (y, r) := (SetReady(RemoveAt(x, SLEEPING, t), t), Scheduler.SetReady(Take(s, SLEEPING, t), t));
      Shows(y, r) && Apart(r.queues) && NoneHas(r.queues, IDLE) && LinkOf(y.links, RunNode(t)).next == None
  {
    TakeShows(x, s, SLEEPING, t);
    hide LinkOf, Loose, InsertAt, RemoveAt, IsChain, Without, Take;
    SetReadyShows(RemoveAt(x, SLEEPING, t), Take(s, SLEEPING, t), t);
  }

  // Where the walk is: at position k of sleep_list, or behind it.
  function Sleeper(s: Sched, k: nat): Option<Id>
    requires Shape(s)
  {
    var q := s.queues[SLEEPING];
    if k < |q| then Some(RunNode(q[k])) else None
  }

  lemma NextSleeper(x: Raw, s: Sched, k: nat)
    requires Shows(x, s) && k < |s.queues[SLEEPING]|
    ensures LinkOf(x.links, RunNode(s.queues[SLEEPING][k])).next == Sleeper(s, k + 1)
    ensures s.queues[SLEEPING][k] < |s.ticks| && x.rest.sleep == s.sleep && |s.sleep| == |s.ticks|
  {
    ShowsList(x, s, SLEEPING);
    ChainLink(x.links, x.ends[SLEEPING], NodesOf(SLEEPING, s.queues[SLEEPING]), k);
    hide LinkOf, IsChain, Loose;
  }

  lemma {:induction false} WalkShows(x: Raw, s: Sched, k: nat, turns: nat)
    requires Shows(x, s) && Apart(s.queues) && NoneHas(s.queues, IDLE) && |x.ends| >= 2
    requires k <= |s.queues[SLEEPING]| <= k + turns
    ensures Shows(Walk(x, Sleeper(s, k), turns), Scheduler.Walk(s, k)) && Apart(Scheduler.Walk(s, k).queues)
    ensures NoneHas(Scheduler.Walk(s, k).queues, IDLE)
    decreases turns
  {
    hide LinkOf, IsChain, Loose, Apart, NoneHas, RemoveAt, Take, SetReady, Scheduler.SetReady, InTable, Shows;
    ShowsShape(x, s);
    if k == |s.queues[SLEEPING]| {
    } else {
      NextSleeper(x, s, k);
      var t := s.queues[SLEEPING][k];
      var s1 := s.(sleep := s.sleep[t := Dec(s.sleep[t])]);
      FieldsShow(x, s, s1);
      var x1 := x.(rest := s1.(queues := []));
      if s1.sleep[t] == 0 {
        WakeShows(x1, s1, t);
      } else {
        WalkShows(x1, s1, k + 1, turns - 1);
      }
    }
  }

  lemma ShowsShape(x: Raw, s: Sched)
    requires Shows(x, s)
    ensures Shape(s) && x.rest == s.(queues := []) && |x.ends| == |s.queues|
  {
  }

  // set_block and set_ready.
  lemma RotateShows(x: Raw, s: Sched, t: nat)
    requires Shows(x, s) && Apart(s.queues) && NoneHas(s.queues, IDLE) && t < |s.ticks| && (t == IDLE || t in s.queues[READY])
    ensures |x.ends| >= 2
    ensures var r := Scheduler.SetReady(Scheduler.SetBlock(s, t), t);
      Shows(SetReady(SetBlock(x, t), t), r) && Apart(r.queues) && NoneHas(r.queues, IDLE)
  {
    hide LinkOf, Loose, InsertAt, RemoveAt, IsChain, Without, Take;
    if t != IDLE {
      TakeShows(x, s, READY, t);
      SetReadyShows(RemoveAt(x, READY, t), Take(s, READY, t), t);
    }
  }

  // The running task can be taken off ready_list, or need not be.
  predicate Requeues(s: Sched)
    requires Shape(s)
  {
    s.running == IDLE || s.ticks[s.running] != 1 || s.running in s.queues[READY]
  }

  lemma AccountShows(x: Raw, s: Sched)
    requires Shows(x, s) && Apart(s.queues) && NoneHas(s.queues, IDLE) && Requeues(s)
    ensures |x.ends| >= 2 && x.rest.running < |x.rest.ticks|
    ensures Shows(Account(x), Scheduler.Account(s)) && Apart(Scheduler.Account(s).queues)
  {
    hide IsChain, Loose, Apart, NoneHas, SetReady, Scheduler.SetReady, InTable, Shows, SetBlock, Scheduler.SetBlock, Dispatch;
    ShowsShape(x, s);
    var (t, left) := (s.running, Dec(s.ticks[s.running]));
    var s1 := s.(ticks := s.ticks[t := if left == 0 then TICKS else left]);
    FieldsShow(x, s, s1);
    if left == 0 {
      var x1 := x.(rest := s1.(queues := []));
      RotateShows(x1, s1, t);
      DispatchShows(SetReady(SetBlock(x1, t), t), Scheduler.SetReady(Scheduler.SetBlock(s1, t), t));
    }
  }

  // The node of t is no neighbour of ready_list's when t is not on it.
  lemma NoNeighbour(x: Raw, s: Sched, t: nat)
    requires Shows(x, s) && Apart(s.queues) && t !in s.queues[READY]
    ensures forall m | m in NodesOf(READY, s.queues[READY]) ::
      Some(m) != LinkOf(x.links, RunNode(t)).pre && Some(m) != LinkOf(x.links, RunNode(t)).next
    ensures RunNode(t) !in NodesOf(READY, s.queues[READY])
  {
    InNodes(READY, s.queues[READY], RunNode(t));
    var q := s.queues[SLEEPING];
    OtherNodes(s, READY, SLEEPING);
    if t in q {
      var k: nat :| k < |q| && q[k] == t;
      ShowsList(x, s, SLEEPING);
      ChainLink(x.links, x.ends[SLEEPING], NodesOf(SLEEPING, q), k);
      assert k > 0 ==> NodesOf(SLEEPING, q)[k - 1] in NodesOf(SLEEPING, q);
      assert k + 1 < |q| ==> NodesOf(SLEEPING, q)[k + 1] in NodesOf(SLEEPING, q);
    } else {
      assert Loose(s.queues, RunNode(t));
    }
  }

  /** What the lists are after a tick has taken off ready_list a task that is not on it, and put it there: nothing in
      the list but a tail, and idle runs; or a list of that task alone, which goes on running, the one that was there
      being in none; or one more in the list than its count says. */
  ghost predicate Requeued(y: Raw, q: seq<nat>, t: nat) {
    && |y.ends| >= 2
    && y.ends[READY] == (match |q|
         case 0 => Ends(None, Some(RunNode(t)), 0)
         case 1 => Ends(Some(RunNode(t)), Some(RunNode(t)), 1)
         case n => Ends(Some(RunNode(q[0])), Some(RunNode(t)), n))
    && LinkOf(y.links, RunNode(t)) == Link(if q == [] then None else Some(RunNode(q[|q| - 1])), None)
    && (|q| == 1 ==> LinkOf(y.links, RunNode(q[0])) == Link(None, None))
    && y.rest.running == (if q == [] then IDLE else if |q| == 1 then t else q[0])
    && Broken(y.links, y.ends[READY])
  }

  lemma AccountBreaks(x: Raw, s: Sched)
    requires Shows(x, s) && Apart(s.queues) && !Requeues(s)
    ensures |x.ends| >= 2 && x.rest.running < |x.rest.ticks| && Requeued(Account(x), s.queues[READY], s.running)
  {
    var (q, t) := (s.queues[READY], s.running);
    NoNeighbour(x, s, t);
    ShowsList(x, s, READY);
    assert forall u | u in q :: u < |s.ticks|;
    DistinctBelow(q, |s.ticks|);
    RequeuedOutside(x.links, x.ends[READY], NodesOf(READY, q), RunNode(t));
    hide LinkOf, IsChain, Loose, Removed, InsertedBack;
  }

  lemma BrokenUnsound(x: Raw)
    requires |x.ends| >= 2 && Broken(x.links, x.ends[READY])
    ensures !Sound(x)
  {
    forall s | Shows(x, s)
      ensures false
    {
      ShowsList(x, s, READY);
    }
  }

  /** A tick on sound lists leaves them sound if and only if idle runs, or the running task keeps some of its slice, or
      it is on ready_list when the sleepers have been seen to. Then the tick is that of the queues. */
  lemma TickExactly(x: Raw, s: Sched)
    requires Shows(x, s) && Apart(s.queues) && NoneHas(s.queues, IDLE)
    ensures |x.ends| >= 2 && x.rest.running < |x.rest.ticks| && Shape(s)
    ensures Sound(Tick(x)) <==> Requeues(Scheduler.Walk(s, 0))
    ensures Requeues(Scheduler.Walk(s, 0)) ==> Shows(Tick(x), Scheduler.Tick(s))
    ensures !Requeues(Scheduler.Walk(s, 0)) ==> Requeued(Tick(x), Scheduler.Walk(s, 0).queues[READY], Scheduler.Walk(s, 0).running)
  {
    ShowsShape(x, s);
    ShowsList(x, s, SLEEPING);
    var q := s.queues[SLEEPING];
    assert x.ends[SLEEPING].first == Sleeper(s, 0) && x.ends[SLEEPING].size == |q|;
    WalkShows(x, s, 0, |q|);
    hide IsChain, Loose, Apart, NoneHas, Walk, Scheduler.Walk, Account, Scheduler.Account, Shows, Requeues, InTable, LinkOf;
    var (y, r) := (Walk(x, Sleeper(s, 0), |q|), Scheduler.Walk(s, 0));
    if Requeues(r) {
      AccountShows(y, r);
    } else {
      AccountBreaks(y, r);
      BrokenUnsound(Account(y));
    }
  }

  // ---- mutexes and exit

  function PopAt(x: Raw, i: nat): (r: Raw)
    requires i < |x.ends|
    ensures |r.ends| == |x.ends| && r.rest == x.rest
  {
    var (l, e) := RemovedFront(x.links, x.ends[i]);
    Raw(l, x.ends[i := e], x.rest)
  }

  function SetMutex(x: Raw, m: nat, mu: MutexState): (r: Raw)
    requires m < |x.rest.mutexes|
    ensures r.links == x.links && r.ends == x.ends && |r.rest.mutexes| == |x.rest.mutexes|
  {
    x.(rest := x.rest.(mutexes := x.rest.mutexes[m := mu]))
  }

  // mutex_lock
  function Lock(x: Raw, m: nat): (r: Raw)
    requires Listed(x) && m < |x.rest.mutexes|
    ensures |r.ends| == |x.ends| && r.rest.(running := 0, mutexes := []) == x.rest.(running := 0, mutexes := [])
    ensures |r.rest.mutexes| == |x.rest.mutexes|
  {
    var (t, mu) := (x.rest.running, x.rest.mutexes[m]);
    if mu.locker == 0 then SetMutex(x, m, MutexState(Some(t), 1))
    else if mu.owner == Some(t) then SetMutex(x, m, mu.(locker := mu.locker + 1))
    else Dispatch(InsertAt(SetBlock(x, t), MutexQueue(m), t))
  }

  // mutex_unlock
  function Unlock(x: Raw, m: nat): (r: Raw)
    requires |x.ends| == 2 + |x.rest.mutexes| + |x.rest.sems| && m < |x.rest.mutexes|
    ensures |r.ends| == |x.ends| && r.rest.(running := 0, mutexes := []) == x.rest.(running := 0, mutexes := [])
    ensures |r.rest.mutexes| == |x.rest.mutexes|
  {
    var (t, mu) := (x.rest.running, x.rest.mutexes[m]);
    if mu.owner != Some(t) then x
    else if Dec(mu.locker) != 0 then SetMutex(x, m, mu.(locker := Dec(mu.locker)))
    else if x.ends[MutexQueue(m)].size == 0 then SetMutex(x, m, MutexState(None, 0))
    else match x.ends[MutexQueue(m)].first
      // a null head in a list that is not empty makes no task
      case None => SetMutex(x, m, MutexState(None, 0))
      case Some(n) => Dispatch(SetReady(SetMutex(PopAt(x, MutexQueue(m)), m, MutexState(Some(n.t), 1)), n.t))
  }

  // The mutexes that tss_task_destroy takes for t.
  function TakeEach(x: Raw, t: nat, takes: seq<nat>): (r: (Raw, bool))
    requires Listed(x) && HasMutexes(x.rest, takes)
    ensures |r.0.ends| == |x.ends| && r.0.rest.(running := 0, mutexes := []) == x.rest.(running := 0, mutexes := [])
    ensures |r.0.rest.mutexes| == |x.rest.mutexes|
    decreases |takes|
  {
    if takes == [] then (x, true) else
      var m := takes[0];
      var x1 := Lock(x, m);
      if x1.rest.mutexes[m].owner != Some(t) then (x1, false) else
        var x2 := Unlock(x1, m);
        if Listed(x2) then TakeEach(x2, t, takes[1..]) else (x2, false)
  }

  // kernel_memset of the whole task, its nodes included.
  function Clear(x: Raw, t: nat): (r: Raw)
    requires t < |x.rest.ticks| && t < |x.rest.sleep|
    ensures |r.ends| == |x.ends|
  {
    Raw(x.links[RunNode(t) := Link(None, None)][WaitNode(t) := Link(None, None)], x.ends,
        x.rest.(live := x.rest.live - {t}, ticks := x.rest.ticks[t := 0], sleep := x.rest.sleep[t := 0]))
  }

  // tss_task_exit
  function Exit(x: Raw, takes: seq<nat>): (r: Raw)
    requires Listed(x) && |x.rest.sleep| == |x.rest.ticks| && HasMutexes(x.rest, takes)
    ensures |r.ends| == |x.ends|
  {
    var t := x.rest.running;
    var (x1, through) := TakeEach(RemoveAt(x, READY, t), t, takes);
    if through then Dispatch(Clear(x1, t)) else x1
  }

  // Mutex m is taken and given back without waiting.
  predicate Free(x: Raw, t: nat, m: nat)
    requires |x.ends| == 2 + |x.rest.mutexes| + |x.rest.sems| && m < |x.rest.mutexes|
  {
    var mu := x.rest.mutexes[m];
    (mu == MutexState(None, 0) && x.ends[MutexQueue(m)].size == 0) || (mu.owner == Some(t) && mu.locker > 0)
  }

  // The caller waits at m.
  predicate Held(x: Raw, t: nat, m: nat)
    requires m < |x.rest.mutexes|
  {
    x.rest.mutexes[m].locker != 0 && x.rest.mutexes[m].owner != Some(t)
  }

  lemma {:induction false} TakesPass(x: Raw, takes: seq<nat>)
    requires Listed(x) && HasMutexes(x.rest, takes) && forall k | 0 <= k < |takes| :: Free(x, x.rest.running, takes[k])
    ensures TakeEach(x, x.rest.running, takes) == (x, true)
    decreases |takes|
  {
    if takes == [] {
    } else {
      assert Free(x, x.rest.running, takes[0]);
      assert Unlock(Lock(x, takes[0]), takes[0]) == x;
      assert forall k | 0 <= k < |takes[1..]| :: takes[1..][k] == takes[k + 1];
      TakesPass(x, takes[1..]);
    }
  }

  lemma {:induction false} TakesWait(x: Raw, takes: seq<nat>, k: nat)
    requires Listed(x) && HasMutexes(x.rest, takes) && k < |takes| && Held(x, x.rest.running, takes[k])
    requires forall j | 0 <= j < k :: Free(x, x.rest.running, takes[j])
    ensures TakeEach(x, x.rest.running, takes) == (Lock(x, takes[k]), false)
    decreases |takes|
  {
    if k == 0 {
    } else {
      assert Free(x, x.rest.running, takes[0]);
      assert Unlock(Lock(x, takes[0]), takes[0]) == x;
      assert forall j | 0 <= j < |takes[1..]| :: takes[1..][j] == takes[j + 1];
      TakesWait(x, takes[1..], k - 1);
    }
  }

  /** mutex_lock, in a task that is in no list, of a mutex that another task owns: task_set_block takes from the count of
      ready_list what is not in it, and the list is no longer sound. A single ready task is out of sight then. */
  lemma WaitBreaks(x: Raw, s: Sched, m: nat)
    requires Shows(x, s) && Apart(s.queues) && s.running != IDLE && NoneHas(s.queues, s.running)
    requires m < |s.mutexes| && Held(x, s.running, m)
    ensures Listed(x)
    ensures var (y, q) := (Lock(x, m), s.queues[READY]);
      && y.ends[READY] == x.ends[READY].(size := Dec(|q|)) && Broken(y.links, y.ends[READY])
      && (|q| == 1 ==> y.rest.running == IDLE)
  {
    hide Loose, IsChain, Removed, InsertedBack;
    var (q, t, i) := (s.queues[READY], s.running, MutexQueue(m));
    NoNeighbour(x, s, t);
    ShowsList(x, s, READY);
    ShowsList(x, s, i);
    assert forall u | u in q :: u < |s.ticks|;
    DistinctBelow(q, |s.ticks|);
    RemovedOutside(x.links, x.ends[READY], NodesOf(READY, q), RunNode(t));
    var x1 := SetBlock(x, t);
    LastWaits(x, s, i);
    InsertLinks(x1.links, x1.ends[i], WaitNode(t));
    var y := InsertAt(x1, i, t);
    SameChain(x1.links, y.links, x1.ends[READY].(size := |q|), NodesOf(READY, q));
    WrongCount(y.links, y.ends[READY], NodesOf(READY, q));
  }

  // The last node of a wait list is a wait_node.
  lemma LastWaits(x: Raw, s: Sched, i: nat)
    requires Shows(x, s) && 2 <= i < |s.queues|
    ensures |x.ends| == |s.queues| && (x.ends[i].last.Some? ==> x.ends[i].last.value.WaitNode?)
  {
    ShowsList(x, s, i);
  }

  lemma InsertLinks(links: map<Id, Link<Id>>, e: Ends<Id>, n: Id)
    ensures forall m | m != n && Some(m) != e.last :: LinkOf(InsertedBack(links, e, n).0, m) == LinkOf(links, m)
  {
  }

  lemma LinksShow(x: Raw, y: Raw, s: Sched)
    requires Shows(x, s) && y.ends == x.ends && y.rest == x.rest && forall n :: LinkOf(y.links, n) == LinkOf(x.links, n)
    ensures Shows(y, s)
  {
    hide LinkOf, IsChain, Loose, NodesOf, InTable;
    forall i: nat | i < |s.queues|
      ensures IsChain(y.links, y.ends[i], NodesOf(i, s.queues[i]))
    {
      SameChain(x.links, y.links, x.ends[i], NodesOf(i, s.queues[i]));
    }
  }

  lemma ClearShows(x: Raw, s: Sched, t: nat)
    requires Shows(x, s) && NoneHas(s.queues, t) && t < |s.ticks|
    ensures Shape(s) && x.rest == s.(queues := []) && Shows(Clear(x, t), Scheduler.Clear(s, t))
  {
    assert Loose(s.queues, RunNode(t)) && Loose(s.queues, WaitNode(t));
    assert LinkOf(x.links, RunNode(t)) == LinkOf(x.links, WaitNode(t)) == Link(None, None);
    var y := x.(links := x.links[RunNode(t) := Link(None, None)][WaitNode(t) := Link(None, None)]);
    assert forall n :: LinkOf(y.links, n) == LinkOf(x.links, n);
    LinksShow(x, y, s);
    hide LinkOf, IsChain, Loose, NodesOf, InTable, Shows;
    FieldsShow(y, s, Scheduler.Clear(s, t));
  }

  // Which mutexes the caller passes, told from the abstract state.
  predicate Passable(s: Sched, m: nat)
    requires m < |s.mutexes|
  {
    s.mutexes[m].locker == 0 || s.mutexes[m].owner == Some(s.running)
  }

  lemma PassableFree(x: Raw, s: Sched, m: nat)
    requires Inv(s) && Shows(x, s) && m < |s.mutexes|
    ensures Listed(x)
    ensures Free(x, s.running, m) <==> Passable(s, m)
    ensures Held(x, s.running, m) <==> !Passable(s, m)
    ensures Passable(s, m) ==> PassesOne(s, s.running, m)
  {
    assert MutexOk(s, m);
    ShowsList(x, s, MutexQueue(m));
    hide IsChain, LinkOf, Loose, InTable, Placed, CountersOk;
  }

  // The first mutex that another task owns, or |takes|.
  function FirstHeld(s: Sched, takes: seq<nat>, k: nat): (r: nat)
    requires HasMutexes(s, takes) && k <= |takes|
    ensures k <= r <= |takes| && (forall j | k <= j < r :: Passable(s, takes[j])) && (r < |takes| ==> !Passable(s, takes[r]))
    decreases |takes| - k
  {
    if k == |takes| || !Passable(s, takes[k]) then k else FirstHeld(s, takes, k + 1)
  }

  // The running task has left ready_list.
  lemma LeftShows(x: Raw, s: Sched)
    requires Inv(s) && Shows(x, s) && s.running != IDLE
    ensures |x.ends| >= 2
    ensures var (y, r) := (RemoveAt(x, READY, s.running), Take(s, READY, s.running));
      Shows(y, r) && Apart(r.queues) && NoneHas(r.queues, s.running) && Listed(y)
    ensures forall j | 0 < j < |x.ends| :: RemoveAt(x, READY, s.running).ends[j] == x.ends[j]
  {
    ShowsShape(x, s);
    PlacedApart(s);
    assert s.running in s.queues[READY];
    TakeShows(x, s, READY, s.running);
    hide Shows, Apart, IsChain, Placed, CountersOk, MutexOk, SemOk, Without;
    forall i | 0 <= i < |s.queues|
      ensures s.running !in Take(s, READY, s.running).queues[i]
    {
      assert NoneHas(Take(s, READY, s.running).queues, s.running);
    }
  }

  /** tss_task_exit, without interrupts, leaves the lists sound if and only if no mutex that tss_task_destroy takes is
      another task's. Then every live task is in one list. */
  lemma ExitExactly(x: Raw, s: Sched, takes: seq<nat>)
    requires Inv(s) && Shows(x, s) && s.running != IDLE && HasMutexes(s, takes)
    ensures Listed(x) && x.rest == s.(queues := [])
    ensures Sound(Exit(x, takes)) <==> forall k | 0 <= k < |takes| :: Passable(s, takes[k])
    ensures (forall k | 0 <= k < |takes| :: Passable(s, takes[k])) ==>
      Shows(Exit(x, takes), Scheduler.Exit(s, takes)) && Placed(Scheduler.Exit(s, takes))
  {
    ShowsShape(x, s);
    LeftShows(x, s);
    var (t, k) := (s.running, FirstHeld(s, takes, 0));
    var (y, r) := (RemoveAt(x, READY, t), Take(s, READY, t));
    forall j | 0 <= j < |takes|
      ensures Free(y, t, takes[j]) <==> Passable(s, takes[j])
      ensures Held(y, t, takes[j]) <==> !Passable(s, takes[j])
      ensures Passable(s, takes[j]) ==> PassesOne(r, t, takes[j])
    {
      PassableFree(x, s, takes[j]);
    }
    hide Shows, Apart, IsChain, Inv, Free, Held, PassesOne, Passable, RemoveAt, Take, Lock, NoneHas, Loose, InTable;
    if k < |takes| {
      TakesWait(y, takes, k);
      WaitBreaks(y, r, takes[k]);
      BrokenUnsound(Lock(y, takes[k]));
    } else {
      TakesPass(y, takes);
      NoTrace(r, takes);
      ExitPlaced(s);
      ClearShows(y, r, t);
      DispatchShows(Clear(y, t), Scheduler.Clear(r, t));
      PlacedApart(Scheduler.Dispatch(Gone(s)));
    }
  }

  lemma ExitPlaced(s: Sched)
    requires Inv(s) && s.running != IDLE
    ensures Placed(Scheduler.Dispatch(Gone(s)))
  {
    GoneParts(s);
  }

  /** Some good state is what the lists show. */
  ghost predicate ShowsGood(x: Raw) { exists r :: Shows(x, r) && Inv(r) }

  /** tss_task_exit keeps the invariant if and only if the caller owns no mutex and nobody owns one that it takes. */
  lemma ExitKeepsExactly(x: Raw, s: Sched, takes: seq<nat>)
    requires Inv(s) && Shows(x, s) && s.running != IDLE && HasMutexes(s, takes)
    ensures Listed(x) && x.rest == s.(queues := [])
    ensures ShowsGood(Exit(x, takes)) <==> OwnsNone(s, s.running) && AllFree(s, takes)
  {
    hide Shows, Inv, Exit, Scheduler.Exit, Apart, Sound, Listed, OwnsNone, AllFree, Passable, InTable;
    ShowsShape(x, s);
    ExitExactly(x, s, takes);
    if OwnsNone(s, s.running) && AllFree(s, takes) {
      ExitGood(x, s, takes);
    }
    forall r | Shows(Exit(x, takes), r) && Inv(r)
      ensures OwnsNone(s, s.running) && AllFree(s, takes)
    {
      SoundInv(Exit(x, takes), r);
      SameFields(Exit(x, takes), r, Scheduler.Exit(s, takes));
      ExitOwnsNone(s, takes, r);
    }
  }

  lemma ExitGood(x: Raw, s: Sched, takes: seq<nat>)
    requires Inv(s) && Shows(x, s) && s.running != IDLE && OwnsNone(s, s.running) && AllFree(s, takes)
    ensures Listed(x) && x.rest == s.(queues := []) && ShowsGood(Exit(x, takes))
  {
    hide Shows, Inv, Exit, Scheduler.Exit, Apart, Sound, Listed;
    ShowsShape(x, s);
    ExitExactly(x, s, takes);
    ExitInv(s, takes);
    assert Shows(Exit(x, takes), Scheduler.Exit(s, takes));
  }

  lemma SoundInv(x: Raw, r: Sched)
    requires Shows(x, r) && Inv(r)
    ensures Sound(x)
  {
    PlacedApart(r);
    hide Shows;
  }

  lemma SameFields(x: Raw, r: Sched, s: Sched)
    requires Shows(x, r) && Shows(x, s)
    ensures r.(queues := []) == s.(queues := [])
  {
  }

  lemma ExitOwnsNone(s: Sched, takes: seq<nat>, r: Sched)
    requires Inv(s) && s.running != IDLE && HasMutexes(s, takes) && forall k | 0 <= k < |takes| :: Passable(s, takes[k])
    requires Inv(r) && r.(queues := []) == Scheduler.Exit(s, takes).(queues := [])
    ensures OwnsNone(s, s.running) && AllFree(s, takes)
  {
    forall k | 0 <= k < |takes|
      ensures PassesOne(Take(s, READY, s.running), s.running, takes[k])
    {
      assert MutexOk(s, takes[k]);
    }
    hide TakeEach, InTable, Placed, CountersOk, Without;
    NoTrace(Take(s, READY, s.running), takes);
    assert r.mutexes == s.mutexes && s.running !in r.live;
    forall m: nat | m < |s.mutexes|
      ensures s.mutexes[m].owner != Some(s.running)
    {
      assert MutexOk(r, m);
    }
  }

  // ---- a picture for every state

  // The queues up to i, of which queue i only its first k.
  function UpTo(queues: seq<seq<nat>>, i: nat, k: nat): (r: seq<seq<nat>>)
    requires i < |queues| && k <= |queues[i]|
    ensures |r| == |queues| && forall j | 0 <= j < |r| :: r[j] == if j < i then queues[j] else if j == i then queues[i][..k] else []
  {
    seq(|queues|, j requires 0 <= j < |queues| => if j < i then queues[j] else if j == i then queues[i][..k] else [])
  }

  lemma UpToShape(s: Sched, i: nat, k: nat)
    requires Shape(s) && Apart(s.queues) && i < |s.queues| && k <= |s.queues[i]|
    ensures var r := s.(queues := UpTo(s.queues, i, k));
      && Shape(r) && Apart(r.queues)
      && (k < |s.queues[i]| ==> NoneHas(r.queues, s.queues[i][k]) && s.queues[i][k] < |s.ticks|)
      && (k < |s.queues[i]| ==> Put(r, i, s.queues[i][k]).queues == UpTo(s.queues, i, k + 1))
  {
    var r := UpTo(s.queues, i, k);
    if k < |s.queues[i]| {
      var q := s.queues[i];
      assert q[..k + 1] == q[..k] + [q[k]];
      assert r[i := r[i] + [q[k]]] == UpTo(s.queues, i, k + 1);
      assert q[k] in q;
    }
  }

  /** There are lists for every state whose queues have no task in common. */
  lemma {:induction false} Pictured(s: Sched, i: nat, k: nat) returns (x: Raw)
    requires Shape(s) && Apart(s.queues) && |s.ticks| < 0xFFFF_FFFF && i < |s.queues| && k <= |s.queues[i]|
    ensures Shows(x, s.(queues := UpTo(s.queues, i, k)))
    decreases i, k
  {
    hide Shows, Apart, Put, InsertAt, InTable;
    if k > 0 {
      var y := Pictured(s, i, k - 1);
      UpToShape(s, i, k - 1);
      var r := s.(queues := UpTo(s.queues, i, k - 1));
      ShowsShape(y, r);
      PutShows(y, r, i, s.queues[i][k - 1]);
      x := InsertAt(y, i, s.queues[i][k - 1]);
      PutFields(r, i, s.queues[i][k - 1]);
    } else if i > 0 {
      x := Pictured(s, i - 1, |s.queues[i - 1]|);
      assert s.queues[i - 1][..|s.queues[i - 1]|] == s.queues[i - 1];
      assert UpTo(s.queues, i - 1, |s.queues[i - 1]|) == UpTo(s.queues, i, 0);
    } else {
      x := Raw(map[], seq(|s.queues|, _ => Ends(None, None, 0)), s.(queues := []));
      EmptyShows(x, s.(queues := UpTo(s.queues, 0, 0)));
    }
  }

  lemma PutFields(s: Sched, i: nat, t: nat)
    requires Shape(s) && i < |s.queues| && t < |s.ticks|
    ensures Put(s, i, t) == s.(queues := Put(s, i, t).queues)
  {
  }

  lemma EmptyShows(x: Raw, s: Sched)
    requires |s.ticks| < 0xFFFF_FFFF && s.running < |s.ticks| && |s.sleep| == |s.ticks|
    requires |s.queues| == 2 + |s.mutexes| + |s.sems| && forall j | 0 <= j < |s.queues| :: s.queues[j] == []
    requires x == Raw(map[], seq(|s.queues|, _ => Ends(None, None, 0)), s.(queues := []))
    ensures Shows(x, s)
  {
  }

  lemma Picture(s: Sched) returns (x: Raw)
    requires Shape(s) && Apart(s.queues) && |s.ticks| < 0xFFFF_FFFF
    ensures Shows(x, s)
  {
    var i := |s.queues| - 1;
    x := Pictured(s, i, |s.queues[i]|);
    assert s.queues[i][..|s.queues[i]|] == s.queues[i];
    assert UpTo(s.queues, i, |s.queues[i]|) == s.queues;
  }

  // ---- mutexes on sound lists

  /** list_remove_front of a list with tasks in it. */
  lemma PopShows(x: Raw, s: Sched, i: nat)
    requires Shows(x, s) && Apart(s.queues) && i < |s.queues| && s.queues[i] != []
    ensures |x.ends| == |s.queues| && x.ends[i].size != 0 && x.ends[i].first == Some(NodeOf(i, s.queues[i][0]))
    ensures var (y, r) := (PopAt(x, i), s.(queues := s.queues[i := s.queues[i][1..]]));
      Shows(y, r) && Apart(r.queues) && NoneHas(r.queues, s.queues[i][0])
  {
    var (q, t) := (s.queues[i], s.queues[i][0]);
    ShowsList(x, s, i);
    FrontIsRemoved(x.links, x.ends[i], NodesOf(i, q));
    WithoutHead(q);
    TakeShows(x, s, i, t);
    hide IsChain, LinkOf, Removed, RemovedFront, Loose, InTable, Apart, NoneHas, Without;
  }

  /** mutex_lock on sound lists is that of the queues. */
  lemma LockShows(x: Raw, s: Sched, m: nat)
    requires Inv(s) && Shows(x, s) && m < |s.mutexes| && s.running != IDLE
    ensures Listed(x) && Shows(Lock(x, m), Scheduler.Lock(s, m))
  {
    ShowsShape(x, s);
    LeftShows(x, s);
    var (t, mu, i) := (s.running, s.mutexes[m], MutexQueue(m));
    hide Inv, Apart, Loose, IsChain, LinkOf, InTable, RemoveAt, InsertAt, Take, Shows, NoneHas;
    if mu.locker == 0 || mu.owner == Some(t) {
      FieldsShow(x, s, Scheduler.Lock(s, m));
    } else {
      var (y, r) := (RemoveAt(x, READY, t), Take(s, READY, t));
      ShowsShape(y, r);
      TakeFields(s, t);
      PutShows(y, r, i, t);
      DispatchShows(InsertAt(y, i, t), Put(r, i, t));
    }
  }

  lemma TakeFields(s: Sched, t: nat)
    requires Shape(s)
    ensures var r := Take(s, READY, t);
      |r.queues| == |s.queues| && r.ticks == s.ticks && r.mutexes == s.mutexes && r.running == s.running
  {
  }

  /** mutex_unlock on sound lists is that of the queues, the hand-off to the first waiter included. */
  lemma UnlockShows(x: Raw, s: Sched, m: nat)
    requires Inv(s) && Shows(x, s) && m < |s.mutexes|
    ensures Listed(x) && Shows(Unlock(x, m), Scheduler.Unlock(s, m))
  {
    ShowsShape(x, s);
    PlacedApart(s);
    var (mu, i) := (s.mutexes[m], MutexQueue(m));
    ShowsList(x, s, i);
    hide Inv, Apart, Loose, LinkOf, InTable, PopAt, SetReady, Scheduler.SetReady, Shows, NoneHas;
    if mu.owner == Some(s.running) && Dec(mu.locker) == 0 && s.queues[i] != [] {
      var t := s.queues[i][0];
      var s1 := s.(queues := s.queues[i := s.queues[i][1..]]);
      PopShows(x, s, i);
      ShowsShape(PopAt(x, i), s1);
      var s2 := s1.(mutexes := s1.mutexes[m := MutexState(Some(t), 1)]);
      FieldsShow(PopAt(x, i), s1, s2);
      SetReadyShows(SetMutex(PopAt(x, i), m, MutexState(Some(t), 1)), s2, t);
      DispatchShows(SetReady(SetMutex(PopAt(x, i), m, MutexState(Some(t), 1)), t), Scheduler.SetReady(s2, t));
    } else {
      FieldsShow(x, s, Scheduler.Unlock(s, m));
    }
  }
}
