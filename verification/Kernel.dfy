/** The scheduler, mutexes and semaphores on the linked lists themselves: one running_node a task, threaded through
    ready_list or sleep_list, and one wait_node. Each method computes the step of Scheduler.dfy it stands for. */
module Kernel {
  import opened Wrappers
  import opened IntrusiveList
  import opened Scheduler
  import opened SchedulerInvariant

  class Task {
    // The slot in the task table.
    const tid: nat
    const runningNode: Node
    const waitNode: Node
    var inUse: bool
    var ticks: nat
    var sleep: nat

    constructor (tid: nat)
      ensures this.tid == tid && runningNode.tid == tid && waitNode.tid == tid && fresh(runningNode) && fresh(waitNode)
      ensures runningNode != waitNode && !inUse && ticks == 0 && sleep == 0
    {
      this.tid := tid;
      runningNode := new Node(tid);
      waitNode := new Node(tid);
      inUse, ticks, sleep := false, 0, 0;
    }
  }

  class Mutex {
    var owner: Task?
    var locker: nat
    const waitList: List

    // mutex_init
    constructor ()
      ensures owner == null && locker == 0 && fresh(waitList) && waitList.Valid() && waitList.nodes == []
    {
      owner, locker := null, 0;
      waitList := new List();
    }
  }

  class Semaphore {
    var counter: int
    const waitList: List

    // sem_init
    constructor (count: nat)
      ensures counter == count && fresh(waitList) && waitList.Valid() && waitList.nodes == []
    {
      counter := count;
      waitList := new List();
    }
  }

  // The tasks that a sequence of nodes stands for.
  function Ids(nodes: seq<Node>): (r: seq<nat>)
    ensures |r| == |nodes| && forall k | 0 <= k < |nodes| :: r[k] == nodes[k].tid
  {
    seq(|nodes|, k requires 0 <= k < |nodes| => nodes[k].tid)
  }

  class Kernel {
    const tasks: seq<Task>
    const mutexes: seq<Mutex>
    const sems: seq<Semaphore>
    // ready_list, sleep_list, the wait lists of the mutexes, those of the semaphores.
    const lists: seq<List>
    var running: Task

    // The node by which task t enters queue i.
    function NodeOf(i: nat, t: nat): Node
      requires t < |tasks|
    {
      if i < 2 then tasks[t].runningNode else tasks[t].waitNode
    }

    /** The fixed layout: slots, nodes and lists are all distinct objects. */
    ghost predicate Layout() {
      && IDLE < |tasks| < 0xFFFF_FFFF
      && (forall t | 0 <= t < |tasks| :: tasks[t].tid == t && tasks[t].runningNode.tid == t && tasks[t].waitNode.tid == t
            && tasks[t].runningNode != tasks[t].waitNode)
      && |lists| == 2 + |mutexes| + |sems| && Distinct(lists) && Distinct(mutexes) && Distinct(sems)
      && (forall m | 0 <= m < |mutexes| :: mutexes[m].waitList == lists[MutexQueue(m)])
      && (forall j | 0 <= j < |sems| :: sems[j].waitList == lists[2 + |mutexes| + j])
    }

    ghost function Nodes(): set<Node> {
      (set t | t in tasks :: t.runningNode) + (set t | t in tasks :: t.waitNode)
    }

    /** The nodes of each list. */
    ghost function Chains(): (r: seq<seq<Node>>)
      reads set l | l in lists
      ensures |r| == |lists| && forall i | 0 <= i < |lists| :: r[i] == lists[i].nodes
    {
      seq(|lists|, i requires 0 <= i < |lists| reads set l | l in lists => lists[i].nodes)
    }

    // The lists hold tasks of the table, by their right nodes, and no node twice.
    ghost predicate Members(c: seq<seq<Node>>) {
      forall i, k | 0 <= i < |c| && 0 <= k < |c[i]| :: c[i][k].tid < |tasks| && c[i][k] == NodeOf(i, c[i][k].tid)
    }

    ghost predicate Apart(c: seq<seq<Node>>) {
      forall i, j, n | 0 <= i < |c| && 0 <= j < |c| && i != j && n in c[i] :: n !in c[j]
    }

    lemma MembersInNodes(c: seq<seq<Node>>)
      requires Members(c)
      ensures forall i, n | 0 <= i < |c| && n in c[i] :: n in Nodes()
    {
      forall i, n | 0 <= i < |c| && n in c[i]
        ensures n in Nodes()
      {
        assert n == NodeOf(i, n.tid) && tasks[n.tid] in tasks;
      }
    }

    // Only tasks of the table own mutexes.
    ghost predicate OwnersInTable()
      reads set m | m in mutexes
    {
      forall m | m in mutexes :: m.owner == null || m.owner in tasks
    }

    // The lists are sound.
    ghost predicate ListsValid()
      reads Nodes(), set l | l in lists
    {
      && Layout() && Members(Chains()) && Apart(Chains())
      && assert forall i, n | 0 <= i < |lists| && n in lists[i].nodes :: n in Nodes() by {
           MembersInNodes(Chains());
           assert forall i | 0 <= i < |lists| :: Chains()[i] == lists[i].nodes;
         }
         forall i | 0 <= i < |lists| :: lists[i].Valid()
    }

    ghost predicate Valid()
      reads {this}, Nodes(), (set l | l in lists), (set m | m in mutexes)
      ensures Valid() ==> Layout()
    {
      ListsValid() && running in tasks && OwnersInTable()
    }

    // The task numbers in each list.
    static ghost function Numbers(c: seq<seq<Node>>): (r: seq<seq<nat>>)
      ensures |r| == |c| && forall i | 0 <= i < |c| :: r[i] == Ids(c[i])
    {
      seq(|c|, i requires 0 <= i < |c| => Ids(c[i]))
    }

    ghost function Queues(): seq<seq<nat>>
      reads set l | l in lists
    {
      Numbers(Chains())
    }

    static function Own(owner: Task?, locker: nat): MutexState {
      MutexState(if owner == null then None else Some(owner.tid), locker)
    }

    /** The fields outside the lists. */
    ghost function Fields(): (r: Sched)
      reads {this}, (set t | t in tasks), (set m | m in mutexes), (set j | j in sems)
      ensures |r.ticks| == |r.sleep| == |tasks| && |r.mutexes| == |mutexes| && |r.sems| == |sems|
    {
      Sched([], running.tid,
            seq(|tasks|, t requires 0 <= t < |tasks| reads set t | t in tasks => tasks[t].ticks),
            seq(|tasks|, t requires 0 <= t < |tasks| reads set t | t in tasks => tasks[t].sleep),
            set t: nat | 0 < t < |tasks| && tasks[t].inUse,
            seq(|mutexes|, m requires 0 <= m < |mutexes| reads set m | m in mutexes =>
                  Own(mutexes[m].owner, mutexes[m].locker)),
            seq(|sems|, j requires 0 <= j < |sems| reads set j | j in sems => sems[j].counter))
    }

    /** The abstract state. */
    ghost function View(): (s: Sched)
      reads {this}, (set t | t in tasks), (set m | m in mutexes), (set j | j in sems), (set l | l in lists)
      ensures s == Fields().(queues := Queues())
    {
      Fields().(queues := Queues())
    }

    lemma ViewShape()
      requires Valid()
      ensures Shape(View())
    {
      hide List.Valid;
      forall i, k | 0 <= i < |lists| && 0 <= k < |Queues()[i]|
        ensures Queues()[i][k] < |tasks|
      {
        assert Chains()[i][k].tid < |tasks|;
      }
    }

    static function WaitLists(mutexes: seq<Mutex>, sems: seq<Semaphore>): (r: seq<List>)
      ensures |r| == |mutexes| + |sems|
      ensures forall m | 0 <= m < |mutexes| :: r[m] == mutexes[m].waitList
      ensures forall j | 0 <= j < |sems| :: r[|mutexes| + j] == sems[j].waitList
    {
      seq(|mutexes|, m requires 0 <= m < |mutexes| => mutexes[m].waitList)
      + seq(|sems|, j requires 0 <= j < |sems| => sems[j].waitList)
    }

    // ---- moving nodes

    // list_insert_back on list i; the lists it shares no node with stand.
    method Append(i: nat, node: Node)
      requires i < |lists| && Distinct(lists) && (forall j | 0 <= j < |lists| :: lists[j].Valid())
      requires Apart(Chains()) && (forall j | 0 <= j < |lists| :: node !in lists[j].nodes) && |lists[i].nodes| < 0xFFFF_FFFF
      modifies lists[i], lists[i].nodes, node
      ensures forall j | 0 <= j < |lists| :: lists[j].Valid()
      ensures Chains() == old(Chains())[i := old(lists[i].nodes) + [node]] && node.next == null
    {
      ghost var c := Chains();
      var l := lists[i];
      hide List.Valid;
      l.Attach(node);
      forall j | 0 <= j < |lists| && j != i
        ensures lists[j].Valid() && lists[j].nodes == c[j]
      {
        assert lists[j] != l && forall n | n in c[j] :: n != node && n !in c[i];
      }
    }

    // list_remove on list i
    method Unlink(i: nat, node: Node)
      requires i < |lists| && Distinct(lists) && (forall j | 0 <= j < |lists| :: lists[j].Valid())
      requires Apart(Chains()) && node in lists[i].nodes
      modifies lists[i], lists[i].nodes
      ensures forall j | 0 <= j < |lists| :: lists[j].Valid()
      ensures Chains() == old(Chains())[i := Without(old(lists[i].nodes), node)]
    {
      ghost var c := Chains();
      var l := lists[i];
      hide List.Valid;
      l.Detach(node);
      forall j | 0 <= j < |lists| && j != i
        ensures lists[j].Valid() && lists[j].nodes == c[j]
      {
        assert lists[j] != l && forall n | n in c[j] :: n !in c[i];
      }
    }

    // list_remove_front on list i
    method Pop(i: nat) returns (node: Node)
      requires i < |lists| && Distinct(lists) && (forall j | 0 <= j < |lists| :: lists[j].Valid())
      requires Apart(Chains()) && lists[i].nodes != []
      modifies lists[i], lists[i].nodes
      ensures forall j | 0 <= j < |lists| :: lists[j].Valid()
      ensures node == old(lists[i].nodes)[0] && Chains() == old(Chains())[i := old(lists[i].nodes)[1..]]
    {
      ghost var c := Chains();
      var l := lists[i];
      hide List.Valid;
      node := l.RemoveFront();
      forall j | 0 <= j < |lists| && j != i
        ensures lists[j].Valid() && lists[j].nodes == c[j]
      {
        assert lists[j] != l && forall n | n in c[j] :: n !in c[i];
      }
    }

    lemma Appended(c: seq<seq<Node>>, i: nat, t: nat)
      requires i < |c| && t < |tasks| && Layout() && Members(c) && Apart(c)
      requires forall j | 0 <= j < |c| :: NodeOf(i, t) !in c[j]
      ensures var d := c[i := c[i] + [NodeOf(i, t)]];
        Members(d) && Apart(d) && Numbers(d) == Numbers(c)[i := Numbers(c)[i] + [t]]
    {
      var node := NodeOf(i, t);
      assert node.tid == t;
      var d := c[i := c[i] + [node]];
      assert Ids(d[i]) == Ids(c[i]) + [t];
    }

    // No list is longer than the table.
    lemma ShortChain(c: seq<seq<Node>>, i: nat)
      requires i < |c| && Members(c) && Distinct(c[i])
      ensures |c[i]| <= |tasks|
    {
      forall j, k | 0 <= j < k < |c[i]|
        ensures Ids(c[i])[j] != Ids(c[i])[k]
      {
        assert c[i][j] == NodeOf(i, c[i][j].tid) && c[i][k] == NodeOf(i, c[i][k].tid);
      }
      assert forall x | x in Ids(c[i]) :: x < |tasks|;
      DistinctBelow(Ids(c[i]), |tasks|);
    }

    // list_insert_back of task t's node for queue i.
    method EnqueueNode(i: nat, t: nat)
      requires ListsValid() && i < |lists| && t < |tasks|
      requires forall j | 0 <= j < |lists| :: NodeOf(i, t) !in lists[j].nodes
      modifies lists, Nodes()
      ensures ListsValid() && Queues() == old(Queues())[i := old(Queues())[i] + [t]]
      ensures lists[i].nodes == old(lists[i].nodes) + [NodeOf(i, t)] && NodeOf(i, t).next == null
    {
      ghost var c := Chains();
      var node := NodeOf(i, t);
      MembersInNodes(c);
      Appended(c, i, t);
      assert lists[i].Valid();
      ShortChain(c, i);
      assert tasks[t] in tasks && node in Nodes();
      hide Members, Apart, List.Valid, Fields;
      Append(i, node);
    }

    lemma Removed(c: seq<seq<Node>>, i: nat, t: nat)
      requires i < |c| && t < |tasks| && Layout() && Members(c) && Apart(c) && NodeOf(i, t) in c[i]
      ensures var d := c[i := Without(c[i], NodeOf(i, t))];
        Members(d) && Apart(d) && Numbers(d) == Numbers(c)[i := Without(Numbers(c)[i], t)]
    {
      var node := NodeOf(i, t);
      WithoutSubset(c[i], node);
      WithoutNumbers(c, i, node);
    }

    lemma {:induction false} WithoutIds(q: seq<Node>, node: Node)
      requires forall k | 0 <= k < |q| :: q[k].tid == node.tid ==> q[k] == node
      ensures Ids(Without(q, node)) == Without(Ids(q), node.tid)
    {
      hide IndexOf, Ids;
      IndexIds(q, node);
      var k := IndexOf(q, node);
      if k < |q| {
        assert Ids(q[..k] + q[k + 1..]) == Ids(q)[..k] + Ids(q)[k + 1..];
      }
    }

    lemma {:induction false} IndexIds(q: seq<Node>, node: Node)
      requires forall k | 0 <= k < |q| :: q[k].tid == node.tid ==> q[k] == node
      ensures IndexOf(q, node) == IndexOf(Ids(q), node.tid)
    {
      if q != [] {
        assert Ids(q)[1..] == Ids(q[1..]);
        IndexIds(q[1..], node);
      }
    }

    lemma WithoutMembers(c: seq<seq<Node>>, i: nat, node: Node)
      requires i < |c| && Members(c) && node in c[i]
      requires node.tid < |tasks| && node == NodeOf(i, node.tid)
      ensures Members(c[i := Without(c[i], node)])
      ensures forall k | 0 <= k < |c[i]| :: c[i][k].tid == node.tid ==> c[i][k] == node
    {
      WithoutSubset(c[i], node);
      var d: seq<seq<Node>> := c[i := Without(c[i], node)];
      hide Without, IndexOf;
      forall j, k | 0 <= j < |d| && 0 <= k < |d[j]|
        ensures d[j][k].tid < |tasks| && d[j][k] == NodeOf(j, d[j][k].tid)
      {
        assert d[j][k] in c[j];
      }
    }

    lemma WithoutNumbers(c: seq<seq<Node>>, i: nat, node: Node)
      requires i < |c| && Layout() && Members(c) && node in c[i] && node.tid < |tasks| && node == NodeOf(i, node.tid)
      ensures Members(c[i := Without(c[i], node)])
      ensures Numbers(c[i := Without(c[i], node)]) == Numbers(c)[i := Without(Numbers(c)[i], node.tid)]
    {
      WithoutMembers(c, i, node);
      WithoutIds(c[i], node);
      hide Members, Layout, Without, IndexOf, Ids;
      var d: seq<seq<Node>> := c[i := Without(c[i], node)];
      assert forall j | 0 <= j < |d| :: Numbers(d)[j] == Numbers(c)[i := Without(Numbers(c)[i], node.tid)][j];
    }

    // list_remove of task t's node from queue i.
    method DequeueNode(i: nat, t: nat)
      requires ListsValid() && i < |lists| && t < |tasks| && NodeOf(i, t) in lists[i].nodes
      modifies lists, Nodes()
      ensures ListsValid() && Queues() == old(Queues())[i := Without(old(Queues())[i], t)]
      ensures forall n, j | 0 <= j < |lists| && n in lists[j].nodes :: n in old(lists[j].nodes)
      ensures forall j | 0 <= j < |lists| :: NodeOf(i, t) !in lists[j].nodes
    {
      ghost var c := Chains();
      var node := NodeOf(i, t);
      MembersInNodes(c);
      Removed(c, i, t);
      assert Distinct(c[i]) by { assert lists[i].Valid(); }
      WithoutAt(c[i], node);
      WithoutSubset(c[i], node);
      assert Apart(c);
      hide Members, List.Valid, Without, Fields;
      Unlink(i, node);
    }

    lemma Popped(c: seq<seq<Node>>, i: nat)
      requires i < |c| && Layout() && Members(c) && Apart(c) && c[i] != []
      ensures var d := c[i := c[i][1..]];
        Members(d) && Apart(d) && Numbers(d) == Numbers(c)[i := Numbers(c)[i][1..]]
    {
      var d := c[i := c[i][1..]];
      assert Ids(d[i]) == Ids(c[i])[1..];
      assert forall n | n in d[i] :: n in c[i];
    }

    // list_remove_front of queue i, and struct_from_field.
    method PopNode(i: nat) returns (t: nat)
      requires ListsValid() && i < |lists| && Queues()[i] != []
      modifies lists, Nodes()
      ensures ListsValid() && t == old(Queues())[i][0] && t < |tasks|
      ensures Queues() == old(Queues())[i := old(Queues())[i][1..]]
      ensures forall n, j | 0 <= j < |lists| && n in lists[j].nodes :: n in old(lists[j].nodes)
    {
      ghost var c := Chains();
      MembersInNodes(c);
      Popped(c, i);
      assert Members(c) && c[i][0].tid < |tasks|;
      hide Members, Apart, List.Valid, Fields;
      var node := Pop(i);
      t := node.tid;
    }

    // The three list moves, seen in the abstract state.
    method Enqueue(i: nat, t: nat)
      requires Valid() && i < |lists| && t < |tasks|
      requires forall j | 0 <= j < |lists| :: NodeOf(i, t) !in lists[j].nodes
      modifies lists, Nodes()
      ensures Valid() && View() == old(View()).(queues := old(Queues())[i := old(Queues())[i] + [t]])
      ensures lists[i].nodes == old(lists[i].nodes) + [NodeOf(i, t)] && NodeOf(i, t).next == null
    {
      hide ListsValid, List.Valid, Layout, Fields, Queues, Chains, Members, Apart, Numbers, OwnersInTable, Nodes;
      EnqueueNode(i, t);
    }

    method Dequeue(i: nat, t: nat)
      requires Valid() && i < |lists| && t < |tasks| && NodeOf(i, t) in lists[i].nodes
      modifies lists, Nodes()
      ensures Valid() && View() == old(View()).(queues := old(Queues())[i := Without(old(Queues())[i], t)])
      ensures forall j | 0 <= j < |lists| :: NodeOf(i, t) !in lists[j].nodes
    {
      hide ListsValid, List.Valid, Layout, Fields, Queues, Chains, Members, Apart, Numbers, OwnersInTable, Nodes;
      DequeueNode(i, t);
    }

    method PopTask(i: nat) returns (t: nat)
      requires Valid() && i < |lists| && Queues()[i] != []
      modifies lists, Nodes()
      ensures Valid() && t == old(Queues())[i][0] && t < |tasks|
      ensures View() == old(View()).(queues := old(Queues())[i := old(Queues())[i][1..]])
    {
      hide ListsValid, List.Valid, Layout, Fields, Queues, Chains, Members, Apart, Numbers, OwnersInTable, Nodes;
      t := PopNode(i);
    }

    // ---- from queues to nodes

    lemma QueuedNode(i: nat, t: nat)
      requires Valid() && i < |lists| && t in Queues()[i]
      ensures t < |tasks| && NodeOf(i, t) in lists[i].nodes
    {
      hide List.Valid;
      var k :| 0 <= k < |Queues()[i]| && Queues()[i][k] == t;
      assert Chains()[i][k] == NodeOf(i, t);
    }

    lemma NodeNotQueued(i: nat, t: nat)
      requires Valid() && i < |lists| && t < |tasks|
      requires forall j | 0 <= j < |lists| && (j < 2 <==> i < 2) :: t !in Queues()[j]
      ensures forall j | 0 <= j < |lists| :: NodeOf(i, t) !in lists[j].nodes
    {
      hide List.Valid;
      forall j, k | 0 <= j < |lists| && 0 <= k < |lists[j].nodes|
        ensures lists[j].nodes[k] != NodeOf(i, t)
      {
        var n := Chains()[j][k];
        assert n == NodeOf(j, n.tid) && Queues()[j][k] == n.tid;
      }
    }

    // ---- tss.c

    // tss_task_set_ready
    method SetReady(t: nat)
      requires Valid() && t < |tasks| && (t != IDLE ==> t !in Queues()[READY] && t !in Queues()[SLEEPING])
      modifies lists, Nodes()
      ensures Valid() && Shape(old(View())) && View() == Scheduler.SetReady(old(View()), t)
      ensures t != IDLE ==> tasks[t].runningNode.next == null
    {
      hide List.Valid, Members, Apart, Fields;
      ViewShape();
      if t == IDLE {
        return;
      }
      assert NodeOf(READY, t) == tasks[t].runningNode;
      NodeNotQueued(READY, t);
      Enqueue(READY, t);
    }

    // tss_task_set_block
    method SetBlock(t: nat)
      requires Valid() && t < |tasks| && (t != IDLE ==> t in Queues()[READY])
      modifies lists, Nodes()
      ensures Valid() && Shape(old(View())) && View() == Scheduler.SetBlock(old(View()), t)
    {
      hide List.Valid, Members, Apart, Without, Fields;
      ViewShape();
      if t == IDLE {
        return;
      }
      QueuedNode(READY, t);
      Dequeue(READY, t);
    }

    /** tss_task_set_block and tss_task_set_ready for a task that is not on ready_list, as tss_task_ts calls them when the
        slice runs out inside sleep, yield or exit: what becomes of ready_list depends on how many tasks it holds, but it
        is never sound afterwards. */
    method RequeueReady(t: nat)
      requires Valid() && t < |tasks| && t != IDLE && tasks[t].runningNode !in lists[READY].nodes
      requires tasks[t].runningNode in lists[SLEEPING].nodes ||
               (tasks[t].runningNode.pre == null && tasks[t].runningNode.next == null)
      modifies lists[READY], Nodes()
      ensures var (q, node) := (old(lists[READY].nodes), tasks[t].runningNode);
        lists[READY].Both() == match |q|
          case 0 => Ends(None, Some(node), 0)
          case 1 => Ends(Some(node), Some(node), 1)
          case k => Ends(Some(q[0]), Some(node), k)
      ensures forall q :: !IsChain(Snapshot(Nodes()), lists[READY].Both(), q)
    {
      var node := tasks[t].runningNode;
      assert lists[READY].Valid() && lists[SLEEPING].Valid() && Chains()[READY] == lists[READY].nodes;
      MembersInNodes(Chains());
      ShortChain(Chains(), READY);
      if node in lists[SLEEPING].nodes {
        lists[SLEEPING].Neighbours(node);
        assert Chains()[SLEEPING] == lists[SLEEPING].nodes;
      }
      assert tasks[t] in tasks && node in Nodes();
      hide List.Valid, Members;
      lists[READY].Requeue(node, Nodes());
    }

    // What the head of ready_list tells.
    lemma HeadOfReady()
      requires Valid()
      ensures Shape(View()) && IDLE < |tasks|
      ensures lists[READY].IsEmpty() <==> View().queues[READY] == []
      ensures !lists[READY].IsEmpty() ==> lists[READY].head != null
      ensures !lists[READY].IsEmpty() ==> lists[READY].head.tid < |tasks| && View().queues[READY][0] == lists[READY].head.tid
    {
      ViewShape();
      assert lists[READY].Valid();
      ghost var q := Chains()[READY];
      if q != [] {
        assert q[0] == lists[READY].head && q[0].tid < |tasks|;
      }
      hide List.Valid, Members, Apart, Fields;
    }

    // tss_task_queue.running_task = to
    method StoreRunning(t: nat)
      requires Valid() && t < |tasks|
      modifies this
      ensures Valid() && View() == old(View()).(running := t)
    {
      hide List.Valid, Members, Apart;
      running := tasks[t];
    }

    // tss_task_dispatch
    method Dispatch()
      requires Valid()
      modifies this
      ensures Valid() && Shape(old(View())) && View() == Scheduler.Dispatch(old(View()))
    {
      HeadOfReady();
      FieldsOf(IDLE);
      ghost var s := View();
      assert s == s.(running := running.tid);
      hide ListsValid, List.Valid, Layout, Members, Apart, Fields, Queues, InTable;
      var to: nat := IDLE;
      if !lists[READY].IsEmpty() {
        to := lists[READY].head.tid;
      }
      if tasks[to] != running {
        StoreRunning(to);
      }
    }

    // tss_task_yield
    method Yield()
      requires Valid() && Inv(View())
      modifies this, lists, Nodes()
      ensures Valid() && View() == Scheduler.Yield(old(View()))
    {
      ghost var s := View();
      assert lists[READY].Valid() && |s.queues[READY]| == lists[READY].size;
      hide List.Valid, Members, Apart, Without;
      if lists[READY].size > 1 {
        var t := running.tid;
        RunningQueued(s);
        SetBlock(t);
        SetReady(t);
        Dispatch();
      }
    }

    // The running task, unless it is idle, is on ready_list once, and not on sleep_list.
    static lemma RunningQueued(s: Sched)
      requires Inv(s)
      ensures s.running != IDLE ==> s.running in s.queues[READY] && s.running !in s.queues[SLEEPING]
      ensures s.running != IDLE ==> s.running !in Without(s.queues[READY], s.running)
      ensures s.running != IDLE ==> forall i | 0 <= i < |s.queues| && i != READY :: s.running !in s.queues[i]
    {
      if s.running != IDLE {
        PlacedMeans(s, READY, s.running);
        PlacedDistinct(s, READY);
        WithoutAt(s.queues[READY], s.running);
      }
    }

    // ---- fields of the tasks

    // task->sleep = v
    method StoreSleep(t: nat, v: nat)
      requires Valid() && t < |tasks|
      modifies tasks[t]
      ensures Valid() && View() == old(View()).(sleep := old(View()).sleep[t := v])
      ensures tasks[t].sleep == v
    {
      hide List.Valid, Members, Apart;
      tasks[t].sleep := v;
      assert View().sleep == old(View()).sleep[t := v];
    }

    // task->ticks = v
    method StoreTicks(t: nat, v: nat)
      requires Valid() && t < |tasks|
      modifies tasks[t]
      ensures Valid() && View() == old(View()).(ticks := old(View()).ticks[t := v])
      ensures tasks[t].ticks == v
    {
      hide List.Valid, Members, Apart;
      tasks[t].ticks := v;
      assert View().ticks == old(View()).ticks[t := v];
    }

    // ---- tss_task_ts

    // The while loop over sleep_list.
    method WalkSleepers()
      requires Valid() && Inv(View())
      modifies lists, Nodes(), tasks
      ensures Valid() && View() == Walk(old(View()), 0)
    {
      ghost var s, k := View(), 0;
      var node := lists[SLEEPING].head;
      assert lists[SLEEPING].Valid() && Chains()[SLEEPING] == lists[SLEEPING].nodes;
      while node != null
        invariant Valid() && Shape(View())
        invariant node == null ==> View() == Walk(s, 0)
        invariant node != null ==> k < |lists[SLEEPING].nodes| && node == lists[SLEEPING].nodes[k]
        invariant node != null ==> View() == s.(sleep := View().sleep) && Walk(View(), k) == Walk(s, 0)
        decreases if node == null then 0 else 1 + |s.queues[SLEEPING]| - k
      {
        node := VisitSleeper(node, s, k);
        k := k + 1;
      }
    }

    // One turn of that loop.
    method VisitSleeper(node: Node, ghost s: Sched, ghost k: nat) returns (next: Node?)
      requires Valid() && Inv(s) && View() == s.(sleep := View().sleep) && Shape(View())
      requires k < |lists[SLEEPING].nodes| && node == lists[SLEEPING].nodes[k]
      modifies lists, Nodes(), tasks
      ensures Valid() && Shape(View())
      ensures next == null ==> View() == Walk(old(View()), k)
      ensures next != null ==> k + 1 < |lists[SLEEPING].nodes| && next == lists[SLEEPING].nodes[k + 1]
      ensures next != null ==> View() == s.(sleep := View().sleep) && Walk(View(), k + 1) == Walk(old(View()), k)
    {
      var t := node.tid;
      SleeperSlot(node, k);
      PlacedMeans(s, SLEEPING, t);
      hide List.Valid, Members, Apart, Without, Inv, InTable, Fields;
      var v := Dec(tasks[t].sleep);
      StoreSleep(t, v);
      if v == 0 {
        Dequeue(SLEEPING, t);
        SetReady(t);
      }
      next := tasks[t].runningNode.next;
    }

    lemma SleeperSlot(node: Node, k: nat)
      requires Valid() && k < |lists[SLEEPING].nodes| && node == lists[SLEEPING].nodes[k]
      ensures node.tid < |tasks| && node == NodeOf(SLEEPING, node.tid) == tasks[node.tid].runningNode
      ensures View().queues[SLEEPING][k] == node.tid && |View().queues[SLEEPING]| == |lists[SLEEPING].nodes|
      ensures node.next == if k + 1 < |lists[SLEEPING].nodes| then lists[SLEEPING].nodes[k + 1] else null
      ensures View().sleep[node.tid] == tasks[node.tid].sleep
    {
      assert lists[SLEEPING].Valid();
      assert Chains()[SLEEPING][k] == NodeOf(SLEEPING, node.tid);
    }

    // The second half of tss_task_ts.
    method AccountTick()
      requires Valid() && Inv(View())
      modifies this, lists, Nodes(), tasks
      ensures Valid() && View() == Account(old(View()))
    {
      ghost var s := View();
      RunningQueued(s);
      FieldsOf(running.tid);
      hide List.Valid, Members, Apart, Without, Inv, InTable, Fields, Layout;
      var t := running.tid;
      var left := Dec(running.ticks);
      if left == 0 {
        StoreTicks(t, TICKS);
        SetBlock(t);
        SetReady(t);
        Dispatch();
      } else {
        StoreTicks(t, left);
      }
    }

    lemma FieldsOf(t: nat)
      requires Valid() && t < |tasks|
      ensures View().ticks[t] == tasks[t].ticks && View().sleep[t] == tasks[t].sleep
      ensures running.tid < |tasks| && running == tasks[running.tid] && View().running == running.tid
      ensures |View().ticks| == |View().sleep| == |tasks| && |View().mutexes| == |mutexes| && |View().sems| == |sems|
    {
    }

    // tss_task_ts
    method Ts()
      requires Valid() && Inv(View())
      modifies this, lists, Nodes(), tasks
      ensures Valid() && View() == Tick(old(View()))
    {
      WalkInv(View());
      WalkSleepers();
      hide Inv, Walk, Account;
      AccountTick();
    }

    static lemma RunningGone(s: Sched)
      requires Inv(s) && s.running != IDLE
      ensures forall i | 0 <= i < |s.queues| :: s.running !in Scheduler.SetBlock(s, s.running).queues[i]
      ensures |Scheduler.SetBlock(s, s.running).queues| == |s.queues|
    {
      RunningQueued(s);
      hide Without;
    }

    lemma NoNodeQueued(t: nat)
      requires Valid() && t < |tasks| && forall j | 0 <= j < |Queues()| :: t !in Queues()[j]
      ensures forall i, j | 0 <= i < |lists| && 0 <= j < |lists| :: NodeOf(i, t) !in lists[j].nodes
    {
      forall i | 0 <= i < |lists|
        ensures forall j | 0 <= j < |lists| :: NodeOf(i, t) !in lists[j].nodes
      {
        NodeNotQueued(i, t);
      }
    }

    // The caller leaves ready_list; neither of its nodes is in a list then.
    method LeaveReady()
      requires Valid() && Inv(View()) && running.tid != IDLE
      modifies lists, Nodes()
      ensures Valid() && Shape(old(View())) && running.tid < |tasks|
      ensures View() == Scheduler.SetBlock(old(View()), running.tid)
      ensures forall i, j | 0 <= i < |lists| && 0 <= j < |lists| :: NodeOf(i, running.tid) !in lists[j].nodes
    {
      RunningQueued(View());
      RunningGone(View());
      FieldsOf(running.tid);
      hide *;
      SetBlock(running.tid);
      assert View().queues == Queues();
      NoNodeQueued(running.tid);
    }

    // tss_task_sleep with tss_task_set_sleep
    method TaskSleep(ms: nat)
      requires Valid() && Inv(View()) && running.tid != IDLE && ms >= 1
      modifies this, lists, Nodes(), tasks
      ensures Valid() && View() == Sleep(old(View()), ms)
    {
      ghost var s := View();
      FieldsOf(running.tid);
      assert Sleep(s, ms) == Scheduler.Dispatch(
               Put(Scheduler.SetBlock(s, s.running).(sleep := s.sleep[s.running := ms]), SLEEPING, s.running));
      hide *;
      var t := running.tid;
      LeaveReady();
      StoreSleep(t, ms);
      Enqueue(SLEEPING, t);
      Dispatch();
    }

    // ---- mutex.c and sem.c

    // The caller leaves ready_list for wait list i.
    method Block(i: nat)
      requires Valid() && Inv(View()) && running.tid != IDLE && 2 <= i < |lists|
      modifies this, lists, Nodes()
      ensures Valid() && Shape(old(View()))
      ensures View() == Scheduler.Dispatch(Put(Scheduler.SetBlock(old(View()), old(running.tid)), i, old(running.tid)))
    {
      FieldsOf(running.tid);
      hide *;
      var t := running.tid;
      LeaveReady();
      Enqueue(i, t);
      Dispatch();
    }

    // mutex->owner and mutex->locker
    method StoreMutex(m: nat, owner: Task?, locker: nat)
      requires Valid() && m < |mutexes| && (owner == null || owner in tasks)
      modifies mutexes[m]
      ensures Valid() && View() == old(View()).(mutexes := old(View()).mutexes[m := Own(owner, locker)])
    {
      hide List.Valid, Members, Apart;
      mutexes[m].owner, mutexes[m].locker := owner, locker;
      assert View().mutexes == old(View()).mutexes[m := Own(owner, locker)];
    }

    // sem->counter
    method StoreCounter(j: nat, c: int)
      requires Valid() && j < |sems|
      modifies sems[j]
      ensures Valid() && View() == old(View()).(sems := old(View()).sems[j := c])
    {
      hide List.Valid, Members, Apart;
      sems[j].counter := c;
      assert View().sems == old(View()).sems[j := c];
    }

    lemma MutexFields(m: nat)
      requires Valid() && m < |mutexes|
      ensures |View().mutexes| == |mutexes|
      ensures View().mutexes[m] == Own(mutexes[m].owner, mutexes[m].locker)
      ensures MutexQueue(m) < |lists|
      ensures lists[MutexQueue(m)].IsEmpty() <==> View().queues[MutexQueue(m)] == []
    {
      assert lists[MutexQueue(m)].Valid();
    }

    lemma SemFields(j: nat)
      requires Valid() && j < |sems|
      ensures |View().sems| == |sems| && |View().mutexes| == |mutexes| && View().sems[j] == sems[j].counter
      ensures SemQueue(View(), j) < |lists|
      ensures lists[SemQueue(View(), j)].IsEmpty() <==> View().queues[SemQueue(View(), j)] == []
    {
      assert lists[SemQueue(View(), j)].Valid();
    }

    // The cases of mutex_lock, told from the fields.
    lemma LockCases(m: nat)
      requires Valid() && m < |mutexes|
      ensures Shape(View()) && running in tasks && 2 <= MutexQueue(m) < |lists| && |View().mutexes| == |mutexes|
      ensures mutexes[m].owner == null || mutexes[m].owner in tasks
      ensures Lock(View(), m) ==
        if mutexes[m].locker == 0 || mutexes[m].owner == running then
          View().(mutexes := View().mutexes[m := Own(running, mutexes[m].locker + 1)])
        else
          Scheduler.Dispatch(Put(Scheduler.SetBlock(View(), running.tid), MutexQueue(m), running.tid))
    {
      ViewShape();
      OwnerIs(m);
      MutexFields(m);
      FieldsOf(running.tid);
      hide List.Valid, Members, Apart, Without, Inv, InTable, Fields;
    }

    // mutex_lock
    method MutexLock(m: nat)
      requires Valid() && m < |mutexes| && running.tid != IDLE
      requires Inv(View()) || mutexes[m].locker == 0 || mutexes[m].owner == running
      modifies this, lists, Nodes(), mutexes
      ensures Valid() && Shape(old(View())) && |old(View()).mutexes| == |mutexes| && View() == Lock(old(View()), m)
    {
      hide *;
      LockCases(m);
      if mutexes[m].locker == 0 || mutexes[m].owner == running {
        LockNow(m);
      } else {
        Block(MutexQueue(m));
      }
    }

    // The first two branches of mutex_lock: the mutex is free, or the caller's already.
    method LockNow(m: nat)
      requires Valid() && m < |mutexes| && running in tasks && (mutexes[m].locker == 0 || mutexes[m].owner == running)
      modifies mutexes[m]
      ensures Valid()
      ensures View() == old(View()).(mutexes := old(View()).mutexes[m := Own(running, old(mutexes[m].locker) + 1)])
    {
      hide *;
      if mutexes[m].locker == 0 {
        StoreMutex(m, running, mutexes[m].locker + 1);
      } else {
        StoreMutex(m, mutexes[m].owner, mutexes[m].locker + 1);
      }
    }

    // The owner field names the running task exactly when the abstract owner does.
    lemma OwnerIs(m: nat)
      requires Valid() && m < |mutexes|
      ensures m < |View().mutexes|
      ensures mutexes[m].owner == running <==> View().mutexes[m].owner == Some(running.tid)
      ensures mutexes[m].owner == null || mutexes[m].owner in tasks
    {
      hide List.Valid, Members, Apart;
      assert mutexes[m] in mutexes;
      var o := mutexes[m].owner;
      if o != null {
        assert o in tasks && tasks[o.tid] == o && tasks[running.tid] == running;
      }
    }

    // What mutex_unlock relies on: an owner has locked the mutex, and its first waiter is on no other queue.
    ghost predicate Releasable(m: nat)
      requires Valid() && m < |mutexes|
      reads {this}, Nodes(), (set t | t in tasks), (set l | l in lists), (set m | m in mutexes), (set j | j in sems)
    {
      && (mutexes[m].owner == running ==> mutexes[m].locker > 0)
      && (mutexes[m].owner == running && Queues()[MutexQueue(m)] != [] ==> Receiver(View(), MutexQueue(m)))
    }

    lemma AlwaysReleasable(m: nat)
      requires Valid() && Inv(View()) && m < |mutexes|
      ensures Releasable(m)
    {
      OwnerIs(m);
      MutexFields(m);
      assert MutexOk(View(), m);
      if Queues()[MutexQueue(m)] != [] {
        ReceiverReady(View(), MutexQueue(m));
      }
      hide ListsValid, List.Valid, Members, Apart, Without, InTable, Fields, MutexOk;
    }

    // The cases of mutex_unlock, told from the fields.
    lemma UnlockCases(m: nat)
      requires Valid() && m < |mutexes| && Releasable(m)
      ensures MutexQueue(m) < |lists| && m < |View().mutexes| && (lists[MutexQueue(m)].IsEmpty() <==> Queues()[MutexQueue(m)] == [])
      ensures var (s, q) := (View(), Queues()[MutexQueue(m)]);
        Shape(s) && Unlock(s, m) ==
          if mutexes[m].owner != running then s
          else if mutexes[m].locker != 1 then s.(mutexes := s.mutexes[m := Own(running, mutexes[m].locker - 1)])
          else if q == [] then s.(mutexes := s.mutexes[m := Own(null, 0)])
          else HandOver(s, m, q)
    {
      ViewShape();
      OwnerIs(m);
      MutexFields(m);
      FieldsOf(running.tid);
      hide ListsValid, List.Valid, Members, Apart, Without, InTable, Fields;
    }

    static function HandOver(s: Sched, m: nat, q: seq<nat>): Sched
      requires Shape(s) && m < |s.mutexes| && q == s.queues[MutexQueue(m)] && q != []
    {
      var s1 := s.(queues := s.queues[MutexQueue(m) := q[1..]]);
      Scheduler.Dispatch(Scheduler.SetReady(s1.(mutexes := s1.mutexes[m := MutexState(Some(q[0]), 1)]), q[0]))
    }

    // The first waiter of queue i is on no other queue.
    static ghost predicate Receiver(s: Sched, i: nat)
      requires i < |s.queues| && s.queues[i] != [] && |s.queues| >= 2
    {
      s.queues[i][0] !in s.queues[READY] && s.queues[i][0] !in s.queues[SLEEPING]
    }

    static lemma ReceiverReady(s: Sched, i: nat)
      requires Inv(s) && 2 <= i < |s.queues| && s.queues[i] != []
      ensures Receiver(s, i)
    {
      PlacedMeans(s, i, s.queues[i][0]);
    }

    // mutex_unlock
    method MutexUnlock(m: nat)
      requires Valid() && m < |mutexes| && Releasable(m)
      modifies this, lists, Nodes(), mutexes
      ensures Valid() && Shape(old(View())) && |old(View()).mutexes| == |mutexes| && View() == Unlock(old(View()), m)
    {
      FieldsOf(running.tid);
      UnlockCases(m);
      if mutexes[m].owner == running {
        var left := Dec(mutexes[m].locker);
        if left != 0 {
          StoreMutex(m, running, left);
        } else if lists[MutexQueue(m)].IsEmpty() {
          StoreMutex(m, null, 0);
        } else {
          HandOn(m);
        }
      }
    }

    // The last branch of mutex_unlock: the first waiter becomes the owner.
    method HandOn(m: nat)
      requires Valid() && m < |mutexes| && MutexQueue(m) < |lists| && Queues()[MutexQueue(m)] != []
      requires Receiver(View(), MutexQueue(m))
      modifies this, lists, Nodes(), mutexes
      ensures Valid() && Shape(old(View())) && View() == HandOver(old(View()), m, old(Queues())[MutexQueue(m)])
    {
      ViewShape();
      hide ListsValid, List.Valid, Members, Apart, InTable, Fields;
      var t := PopTask(MutexQueue(m));
      assert tasks[t] in tasks;
      SetReady(t);
      StoreMutex(m, tasks[t], 1);
      Dispatch();
    }

    // The queue of semaphore j.
    function WaitIndex(j: nat): nat { 2 + |mutexes| + j }

    // The cases of sem_wait, told from the fields.
    lemma WaitCases(j: nat)
      requires Valid() && Inv(View()) && j < |sems|
      ensures Shape(View()) && j < |View().sems| && 2 <= WaitIndex(j) < |lists| && running.tid < |tasks|
      ensures sems[j].counter > 0 ==> Wait(View(), j) == View().(sems := View().sems[j := sems[j].counter - 1])
      ensures sems[j].counter <= 0 ==>
        Wait(View(), j) == Scheduler.Dispatch(Put(Scheduler.SetBlock(View(), running.tid), WaitIndex(j), running.tid))
    {
      SemFields(j);
      FieldsOf(running.tid);
      ViewShape();
      hide ListsValid, List.Valid, Members, Apart, Inv, Fields;
    }

    // sem_wait
    method SemWait(j: nat)
      requires Valid() && Inv(View()) && j < |sems| && running.tid != IDLE
      modifies this, lists, Nodes(), sems
      ensures Valid() && View() == Wait(old(View()), j)
    {
      WaitCases(j);
      hide *;
      if sems[j].counter > 0 {
        TakePermit(j);
      } else {
        Block(WaitIndex(j));
      }
    }

    // The first branch of sem_wait.
    method TakePermit(j: nat)
      requires Valid() && j < |sems|
      modifies sems[j]
      ensures Valid()
      ensures View() == old(View()).(sems := old(View()).sems[j := old(sems[j].counter) - 1])
    {
      hide *;
      StoreCounter(j, sems[j].counter - 1);
    }

    // sem_notify
    method SemNotify(j: nat)
      requires Valid() && Inv(View()) && j < |sems|
      modifies this, lists, Nodes(), sems
      ensures Valid() && View() == Notify(old(View()), j)
    {
      NotifyCases(j);
      hide *;
      if !lists[WaitIndex(j)].IsEmpty() {
        WakeFirst(WaitIndex(j));
      } else {
        GivePermit(j);
      }
    }

    // The second branch of sem_notify.
    method GivePermit(j: nat)
      requires Valid() && j < |sems|
      modifies sems[j]
      ensures Valid()
      ensures View() == old(View()).(sems := old(View()).sems[j := old(sems[j].counter) + 1])
    {
      hide *;
      StoreCounter(j, sems[j].counter + 1);
    }

    // The cases of sem_notify, told from the fields.
    lemma NotifyCases(j: nat)
      requires Valid() && Inv(View()) && j < |sems|
      ensures Shape(View()) && j < |View().sems| && 2 <= WaitIndex(j) < |lists|
      ensures var (s, i) := (View(), WaitIndex(j));
        Notify(s, j) == if lists[i].IsEmpty() then s.(sems := s.sems[j := sems[j].counter + 1]) else Woke(s, i)
      ensures !lists[WaitIndex(j)].IsEmpty() ==> Queues()[WaitIndex(j)] != [] && Receiver(View(), WaitIndex(j))
    {
      hide ListsValid, List.Valid, Members, Apart, Inv, Fields, InTable;
      SemFields(j);
      ViewShape();
      var i := WaitIndex(j);
      if View().queues[i] != [] {
        ReceiverReady(View(), i);
      }
    }

    // The first waiter of queue i becomes ready.
    static function Woke(s: Sched, i: nat): Sched
      requires Shape(s) && i < |s.queues|
    {
      if s.queues[i] == [] then s else
        Scheduler.Dispatch(Scheduler.SetReady(s.(queues := s.queues[i := s.queues[i][1..]]), s.queues[i][0]))
    }

    // The first branch of sem_notify.
    method WakeFirst(i: nat)
      requires Valid() && i < |lists| && Queues()[i] != [] && Receiver(View(), i)
      modifies this, lists, Nodes()
      ensures Valid() && Shape(old(View())) && View() == Woke(old(View()), i)
    {
      ViewShape();
      hide ListsValid, List.Valid, Members, Apart, InTable, Fields;
      var t := PopTask(i);
      SetReady(t);
      Dispatch();
    }

    // ---- starting

    // The task table before anything runs.
    static ghost predicate FreshTasks(tasks: seq<Task>)
      reads tasks
    {
      && 2 <= |tasks| < 0xFFFF_FFFF
      && (forall t | 0 <= t < |tasks| :: tasks[t].tid == t && tasks[t].runningNode.tid == t && tasks[t].waitNode.tid == t
            && tasks[t].runningNode != tasks[t].waitNode)
      && (forall t | 0 <= t < |tasks| :: !tasks[t].inUse && tasks[t].ticks == 0 && tasks[t].sleep == 0)
    }

    // Mutexes and semaphores after mutex_init and sem_init.
    static ghost predicate FreshLocks(mutexes: seq<Mutex>, sems: seq<Semaphore>)
      reads mutexes, sems, set l | l in WaitLists(mutexes, sems)
    {
      && Distinct(mutexes) && Distinct(sems) && Distinct(WaitLists(mutexes, sems))
      && (forall m | 0 <= m < |mutexes| :: mutexes[m].owner == null && mutexes[m].locker == 0)
      && (forall j | 0 <= j < |sems| :: sems[j].counter >= 0)
      && (forall l | l in WaitLists(mutexes, sems) :: l.nodes == [] && l.Valid())
    }

    // All lists empty, the locks free, and the task table blank.
    ghost predicate Blank()
      reads {this}, tasks, mutexes, sems, set l | l in lists
    {
      && FreshTasks(tasks) && Distinct(mutexes) && Distinct(sems) && Distinct(lists) && running == tasks[1]
      && |lists| == 2 + |mutexes| + |sems| && lists[2..] == WaitLists(mutexes, sems)
      && (forall m | 0 <= m < |mutexes| :: mutexes[m].owner == null && mutexes[m].locker == 0)
      && (forall j | 0 <= j < |sems| :: sems[j].counter >= 0)
      && (forall l | l in lists :: l.nodes == [] && l.Valid())
    }

    lemma BlankLayout()
      requires Blank()
      ensures Layout()
    {
      hide List.Valid, Distinct;
      assert forall i | 2 <= i < |lists| :: lists[i] == WaitLists(mutexes, sems)[i - 2];
    }

    lemma BlankValid()
      requires Blank()
      ensures Valid() && forall i | 0 <= i < |lists| :: lists[i].nodes == []
    {
      BlankLayout();
      assert forall i | 0 <= i < |lists| :: lists[i] in lists;
      assert forall i | 0 <= i < |lists| :: lists[i].Valid() && lists[i].nodes == [];
      assert running in tasks && OwnersInTable();
      hide Blank, List.Valid, Layout, FreshTasks, Distinct;
    }

    lemma BlankMade(ready: List, sleepers: List)
      requires FreshTasks(tasks) && FreshLocks(mutexes, sems) && running == tasks[1]
      requires lists == [ready, sleepers] + WaitLists(mutexes, sems)
      requires ready != sleepers && ready !in WaitLists(mutexes, sems) && sleepers !in WaitLists(mutexes, sems)
      requires ready.Valid() && ready.nodes == [] && sleepers.Valid() && sleepers.nodes == []
      ensures Blank()
    {
      assert lists[2..] == WaitLists(mutexes, sems);
      hide List.Valid, FreshTasks, WaitLists;
    }

    // tss_task_queue_init: empty lists.
    constructor (tasks: seq<Task>, mutexes: seq<Mutex>, sems: seq<Semaphore>)
      requires FreshTasks(tasks) && FreshLocks(mutexes, sems)
      ensures this.tasks == tasks && this.mutexes == mutexes && this.sems == sems
      ensures Blank()
    {
      this.tasks, this.mutexes, this.sems := tasks, mutexes, sems;
      var ready := new List();
      var sleepers := new List();
      lists := [ready, sleepers] + WaitLists(mutexes, sems);
      running := tasks[1];
      new;
      hide *;
      BlankMade(ready, sleepers);
    }

    ghost function Counts(): (r: seq<nat>)
      requires forall j | 0 <= j < |sems| :: sems[j].counter >= 0
      reads sems
      ensures |r| == |sems| && forall j | 0 <= j < |sems| :: r[j] == sems[j].counter
    {
      seq(|sems|, j requires 0 <= j < |sems| && sems[j].counter >= 0 reads sems => sems[j].counter as nat)
    }

    // Before idle and the default task are made.
    static function Unstarted(tasks: nat, mutexes: nat, counts: seq<nat>): Sched
      requires tasks >= 2
    {
      Initial(tasks, mutexes, counts).(queues := seq(2 + mutexes + |counts|, _ => []), live := {}, ticks := seq(tasks, _ => 0))
    }

    lemma BlankView()
      requires Blank()
      ensures Valid() && View() == Unstarted(|tasks|, |mutexes|, Counts())
      ensures forall i | 0 <= i < |lists| :: lists[i].nodes == []
    {
      BlankValid();
      hide List.Valid, Valid;
      assert forall i | 0 <= i < |lists| :: lists[i] in lists;
      var s, r := View(), Unstarted(|tasks|, |mutexes|, Counts());
      assert s.queues == r.queues;
      assert s.ticks == r.ticks && s.sleep == r.sleep;
      assert s.mutexes == r.mutexes;
      assert s.sems == r.sems;
      assert s.live == {};
    }

    // default_tss_task_init: idle in slot 0, which no list takes, and the default task in slot 1, which runs.
    method Start()
      requires Blank()
      modifies lists, Nodes(), tasks
      ensures Valid() && View() == Initial(|tasks|, |mutexes|, old(Counts()))
    {
      BlankView();
      Started(|tasks|, |mutexes|, Counts());
      assert |lists| >= 2 && forall j | 0 <= j < |lists| :: NodeOf(READY, 1) !in lists[j].nodes;
      hide *;
      StoreTicks(IDLE, TICKS);
      Enqueue(READY, 1);
      StoreUse(1, true);
      StoreTicks(1, TICKS);
    }

    static lemma Started(tasks: nat, mutexes: nat, counts: seq<nat>)
      requires tasks >= 2
      ensures var r := Unstarted(tasks, mutexes, counts);
        |r.queues| >= 2 && |r.ticks| == tasks && Initial(tasks, mutexes, counts) ==
          r.(queues := r.queues[READY := r.queues[READY] + [1]], live := r.live + {1}, ticks := r.ticks[IDLE := TICKS][1 := TICKS])
    {
      var s, r := Initial(tasks, mutexes, counts), Unstarted(tasks, mutexes, counts);
      assert r.queues[READY] + [1] == [1];
      assert s.queues == r.queues[READY := r.queues[READY] + [1]];
      assert s.ticks == r.ticks[IDLE := TICKS][1 := TICKS];
      assert s.live == r.live + {1};
    }

    // ---- tss_task_init and tss_task_exit

    // The slot is taken or cleared.
    method StoreUse(t: nat, v: bool)
      requires Valid() && 0 < t < |tasks|
      modifies tasks[t]
      ensures Valid()
      ensures View() == old(View()).(live := if v then old(View()).live + {t} else old(View()).live - {t})
    {
      hide List.Valid, Members, Apart;
      tasks[t].inUse := v;
      assert View().live == if v then old(View()).live + {t} else old(View()).live - {t};
    }

    static lemma NotLiveNotQueued(s: Sched, t: nat)
      requires Inv(s) && t !in s.live
      ensures forall i | 0 <= i < |s.queues| :: t !in s.queues[i]
    {
      forall i | 0 <= i < |s.queues|
        ensures t !in s.queues[i]
      {
        if t in s.queues[i] {
          PlacedMeans(s, i, t);
        }
      }
    }

    // The part of tss_task_init, on a free slot of the table, in which interrupts are masked.
    method EnlistTask(t: nat)
      requires Valid() && Inv(View()) && 0 < t < |tasks| && !tasks[t].inUse
      modifies this, lists, Nodes(), tasks
      ensures Valid() && View() == Enlist(old(View()), t)
    {
      NotLiveNotQueued(View(), t);
      FieldsOf(t);
      hide ListsValid, List.Valid, Members, Apart, Inv, InTable, Fields;
      SetReady(t);
      StoreUse(t, true);
    }

    // The stores behind it.
    method FurnishTask(t: nat)
      requires Valid() && t < |tasks|
      modifies tasks[t]
      ensures Valid() && Shape(old(View())) && |old(View()).ticks| == |tasks| && View() == Furnish(old(View()), t)
    {
      ViewShape();
      FieldsOf(t);
      hide *;
      StoreTicks(t, TICKS);
      StoreSleep(t, 0);
      FurnishedIs(old(View()), t);
    }

    static lemma FurnishedIs(s: Sched, t: nat)
      requires Shape(s) && t < |s.ticks|
      ensures Furnish(s, t) == s.(ticks := s.ticks[t := TICKS]).(sleep := s.sleep[t := 0])
    {
    }

    // tss_task_init
    method CreateTask(t: nat)
      requires Valid() && Inv(View()) && 0 < t < |tasks| && !tasks[t].inUse
      modifies this, lists, Nodes(), tasks
      ensures Valid() && View() == Create(old(View()), t)
    {
      EnlistTask(t);
      FieldsOf(t);
      assert tasks[t] in tasks;
      hide Valid, Enlist, Furnish;
      FurnishTask(t);
    }

    static lemma LockUnlock(s: Sched, m: nat)
      requires Shape(s) && m < |s.mutexes| && s.mutexes[m] == MutexState(None, 0) && s.queues[MutexQueue(m)] == []
      ensures Unlock(Lock(s, m), m) == s
      ensures var r := Lock(s, m); r == s.(mutexes := s.mutexes[m := MutexState(Some(s.running), 1)])
    {
      hide InTable;
    }

    // One mutex of tss_task_destroy, taken and given back.
    method PassMutex(m: nat)
      requires Valid() && m < |mutexes| && running.tid != IDLE && m < |View().mutexes| && MutexQueue(m) < |Queues()|
      requires View().mutexes[m] == MutexState(None, 0) && Queues()[MutexQueue(m)] == []
      modifies this, lists, Nodes(), mutexes
      ensures Valid() && View() == old(View())
    {
      MutexFields(m);
      ViewShape();
      LockUnlock(View(), m);
      FieldsOf(running.tid);
      hide ListsValid, List.Valid, Members, Apart, Layout, Lock, Unlock, Shape;
      MutexLock(m);
      OwnerIs(m);
      MutexFields(m);
      MutexUnlock(m);
    }

    method PassMutexes(takes: seq<nat>)
      requires Valid() && running.tid != IDLE && Shape(View()) && Passes(View(), running.tid, takes) && OwnsNone(View(), running.tid)
      modifies this, lists, Nodes(), mutexes
      ensures Valid() && View() == old(View())
    {
      ghost var s := View();
      for k := 0 to |takes|
        invariant Valid() && View() == s
      {
        assert PassesOne(s, s.running, takes[k]);
        FieldsOf(running.tid);
        hide Valid, View, OwnsNone;
        PassMutex(takes[k]);
      }
    }

    // tss_task_exit, with tss_task_destroy taking its mutexes and clearing the slot.
    method ExitTask(takes: seq<nat>)
      requires Valid() && Inv(View()) && running.tid != IDLE && OwnsNone(View(), running.tid) && AllFree(View(), takes)
      modifies this, lists, Nodes(), tasks, mutexes
      ensures Valid() && Shape(old(View())) && View() == Exit(old(View()), takes)
    {
      RunningQueued(View());
      FieldsOf(running.tid);
      ExitTakesNone(View(), takes);
      FreePass(View(), takes);
      ViewShape();
      hide ListsValid, List.Valid, Members, Apart, Inv, InTable, Fields, Without, Exit, Passes;
      var t := running.tid;
      QueuedNode(READY, t);
      Dequeue(READY, t);
      ViewShape();
      PassMutexes(takes);
      ClearSlot(t);
      Dispatch();
    }

    method ClearSlot(t: nat)
      requires Valid() && 0 < t < |tasks|
      modifies tasks[t]
      ensures Valid() && Shape(old(View())) && |old(View()).ticks| == |tasks| && View() == Clear(old(View()), t)
    {
      ViewShape();
      FieldsOf(t);
      hide ListsValid, List.Valid, Members, Apart, Layout, InTable, Fields;
      StoreUse(t, false);
      StoreTicks(t, 0);
      StoreSleep(t, 0);
    }

    // ---- runs

    lemma EnabledMeans(op: Op)
      requires Valid() && Inv(View()) && Enabled(View(), op)
      ensures |View().mutexes| == |mutexes| && |View().sems| == |sems| && |View().ticks| == |tasks| && View().running == running.tid
      ensures op.DoCreate? ==> 0 < op.t < |tasks| && !tasks[op.t].inUse
      ensures op.DoExit? ==> OwnsNone(View(), running.tid) && AllFree(View(), op.takes)
      ensures op.DoUnlock? ==> op.m < |mutexes| && Releasable(op.m)
      ensures Inv(Step(View(), op))
    {
      FieldsOf(running.tid);
      if op.DoUnlock? {
        AlwaysReleasable(op.m);
      }
      StepInv(View(), op);
    }

    /** One call: the lists and fields follow the step of the abstract scheduler, and its invariant holds again. */
    method Perform(op: Op)
      requires Valid() && Inv(View()) && Enabled(View(), op)
      modifies this, lists, Nodes(), tasks, mutexes, sems
      ensures Valid() && View() == Step(old(View()), op) && Inv(View())
    {
      EnabledMeans(op);
      assert Step(View(), op) == match op
        case DoYield => Scheduler.Yield(View())
        case DoTick => Tick(View())
        case DoSleep(ms) => Sleep(View(), ms)
        case DoLock(m) => Lock(View(), m)
        case DoUnlock(m) => Unlock(View(), m)
        case DoWait(j) => Wait(View(), j)
        case DoNotify(j) => Notify(View(), j)
        case DoCreate(t) => Create(View(), t)
        case DoExit(takes) => Exit(View(), takes);
      assert op.DoSleep? || op.DoLock? || op.DoWait? || op.DoExit? ==> running.tid != IDLE;
      hide *;
      match op
      case DoYield => Yield();
      case DoTick => Ts();
      case DoSleep(ms) => TaskSleep(ms);
      case DoLock(m) => MutexLock(m);
      case DoUnlock(m) => MutexUnlock(m);
      case DoWait(j) => SemWait(j);
      case DoNotify(j) => SemNotify(j);
      case DoCreate(t) => CreateTask(t);
      case DoExit(takes) => ExitTask(takes);
    }

    /** Any run of calls, on the linked lists. */
    method RunAll(ops: seq<Op>)
      requires Valid() && Inv(View()) && LegalRun(View(), ops)
      modifies this, lists, Nodes(), tasks, mutexes, sems
      ensures Valid() && View() == Run(old(View()), ops) && Inv(View())
    {
      ghost var s := View();
      RunInv(s, ops);
      for k := 0 to |ops|
        invariant Valid() && Inv(View()) && LegalRun(View(), ops[k..]) && Run(View(), ops[k..]) == Run(s, ops)
      {
        assert ops[k..][0] == ops[k] && ops[k..][1..] == ops[k + 1..];
        Perform(ops[k]);
      }
    }
  }
}
