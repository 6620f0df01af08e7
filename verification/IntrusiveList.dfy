/** The intrusive doubly linked list of src/lib/list.c. A sound list is a sequence of nodes, and each operation is the
    matching edit of that sequence. list_remove and list_insert_back do not look where a node is: what they do to any links
    at all is given by Removed and InsertedBack. */
module IntrusiveList {
  import opened Wrappers

  // Position of x in s, or |s|.
  function IndexOf<T(==)>(s: seq<T>, x: T): (k: nat)
    ensures k <= |s| && (k < |s| ==> s[k] == x) && x !in s[..k]
  {
    if s == [] then 0 else if s[0] == x then 0 else
      var k := IndexOf(s[1..], x) + 1;
      assert s[..k] == [s[0]] + s[1..][..k - 1];
      k
  }

  // s without its first x.
  function Without<T(==)>(s: seq<T>, x: T): (r: seq<T>)
    ensures x !in s ==> r == s
    ensures x in s ==> |r| == |s| - 1 && multiset(r) == multiset(s) - multiset{x}
  {
    var k := IndexOf(s, x);
    if k < |s| then
      assert s == s[..k] + [s[k]] + s[k + 1..];
      s[..k] + s[k + 1..]
    else s
  }

  lemma WithoutSubset<T>(q: seq<T>, t: T)
    ensures forall x | x in Without(q, t) :: x in q
  {
  }

  // s with x put in at position k.
  function Inserted<T>(s: seq<T>, k: nat, x: T): seq<T>
    requires k <= |s|
  {
    s[..k] + [x] + s[k..]
  }

  lemma InsertedAt<T>(s: seq<T>, k: nat, x: T)
    requires k <= |s| && Distinct(s) && x !in s
    ensures |Inserted(s, k, x)| == |s| + 1 && Distinct(Inserted(s, k, x))
    ensures forall i | 0 <= i <= |s| :: Inserted(s, k, x)[i] == if i < k then s[i] else if i == k then x else s[i - 1]
  {
  }

  lemma CutAt<T>(s: seq<T>, k: nat)
    requires k < |s|
    ensures var r := s[..k] + s[k + 1..];
      |r| == |s| - 1 && forall i {:trigger r[i]} | 0 <= i < |s| - 1 :: r[i] == if i < k then s[i] else s[i + 1]
  {
  }

  lemma CutDistinct<T>(s: seq<T>, r: seq<T>, k: nat)
    requires Distinct(s) && k < |s| && |r| == |s| - 1
    requires forall i {:trigger r[i]} | 0 <= i < |s| - 1 :: r[i] == if i < k then s[i] else s[i + 1]
    ensures Distinct(r) && s[k] !in r
  {
  }

  lemma WithoutAt<T>(s: seq<T>, x: T)
    requires Distinct(s) && x in s
    ensures IndexOf(s, x) < |s| && |Without(s, x)| == |s| - 1 && Distinct(Without(s, x)) && x !in Without(s, x)
    ensures forall i {:trigger Without(s, x)[i]} | 0 <= i < |s| - 1 :: Without(s, x)[i] == if i < IndexOf(s, x) then s[i] else s[i + 1]
  {
    hide Distinct;
    var k := IndexOf(s, x);
    CutAt(s, k);
    CutDistinct(s, Without(s, x), k);
  }

  lemma WithoutPlace<T>(s: seq<T>, k: nat)
    requires Distinct(s) && k < |s|
    ensures var r := Without(s, s[k]);
      |r| == |s| - 1 && Distinct(r) && forall i {:trigger r[i]} | 0 <= i < |s| - 1 :: r[i] == if i < k then s[i] else s[i + 1]
  {
    WithoutAt(s, s[k]);
  }

  ghost predicate Distinct<T>(s: seq<T>) { forall i, j | 0 <= i < j < |s| :: s[i] != s[j] }

  // Numbers below n without repetition are at most n.
  lemma {:induction false} DistinctBelow(q: seq<nat>, n: nat)
    requires Distinct(q) && forall x | x in q :: x < n
    ensures |q| <= n
    decreases n
  {
    hide Without, IndexOf, Distinct;
    if q == [] {
    } else {
      assert q[0] in q && 0 <= q[0] < n;
      var m: nat := n - 1;
      WithoutAll(q, m);
      DistinctBelow(Without(q, m), m);
    }
  }

  lemma WithoutAll<T>(q: seq<T>, x: T)
    requires Distinct(q)
    ensures |q| <= |Without(q, x)| + 1 && Distinct(Without(q, x)) && x !in Without(q, x)
    ensures forall y | y in Without(q, x) :: y in q
  {
    WithoutSubset(q, x);
    hide Without, IndexOf, Distinct;
    if x in q {
      WithoutAt(q, x);
    }
  }

  // ---- links as values

  /** The pointers in a node, and those of a list with its unsigned 32-bit count. */
  datatype Link<N> = Link(pre: Option<N>, next: Option<N>)
  datatype Ends<N> = Ends(first: Option<N>, last: Option<N>, size: nat)

  function LinkOf<N(==)>(links: map<N, Link<N>>, n: N): Link<N> {
    if n in links then links[n] else Link(None, None)
  }

  // Unsigned 32-bit decrement and increment.
  function Dec(x: nat): nat { if x == 0 then 0xFFFF_FFFF else x - 1 }

  function Inc(x: nat): nat { if x == 0xFFFF_FFFF then 0 else x + 1 }

  // list_remove, store by store
  function Removed<N(==)>(links: map<N, Link<N>>, e: Ends<N>, n: N): (map<N, Link<N>>, Ends<N>) {
    var x := LinkOf(links, n);
    var first := if e.first == Some(n) then x.next else e.first;
    var last := if e.last == Some(n) then x.pre else e.last;
    var l1 := if x.pre == None then links else links[x.pre.value := LinkOf(links, x.pre.value).(next := x.next)];
    var l2 := if x.next == None then l1 else l1[x.next.value := LinkOf(l1, x.next.value).(pre := x.pre)];
    (l2[n := Link(None, None)], Ends(first, last, Dec(e.size)))
  }

  // list_insert_back, store by store; a store through a null tail reaches no list.
  function InsertedBack<N(==)>(links: map<N, Link<N>>, e: Ends<N>, n: N): (map<N, Link<N>>, Ends<N>) {
    var l1 := links[n := Link(e.last, None)];
    if e.size == 0 then (l1, Ends(Some(n), Some(n), Inc(e.size)))
    else
      var l2 := if e.last == None then l1 else l1[e.last.value := LinkOf(l1, e.last.value).(next := Some(n))];
      (l2, Ends(e.first, Some(n), Inc(e.size)))
  }

  /** The list is sound: these pointers make up the sequence q. */
  ghost predicate IsChain<N>(links: map<N, Link<N>>, e: Ends<N>, q: seq<N>) {
    && e.size == |q| && Distinct(q)
    && e.first == (if q == [] then None else Some(q[0]))
    && e.last == (if q == [] then None else Some(q[|q| - 1]))
    && forall i {:trigger LinkOf(links, q[i])} | 0 <= i < |q| :: LinkOf(links, q[i]) == LinkAt(q, i)
  }

  // The list is not sound.
  ghost predicate Broken<N(!new)>(links: map<N, Link<N>>, e: Ends<N>) { forall q :: !IsChain(links, e, q) }

  function LinkAt<N>(q: seq<N>, i: nat): Link<N>
    requires i < |q|
  {
    Link(if i == 0 then None else Some(q[i - 1]), if i == |q| - 1 then None else Some(q[i + 1]))
  }

  // Only the nodes of q matter.
  lemma SameChain<N>(links: map<N, Link<N>>, links': map<N, Link<N>>, e: Ends<N>, q: seq<N>)
    requires IsChain(links, e, q) && forall n | n in q :: LinkOf(links', n) == LinkOf(links, n)
    ensures IsChain(links', e, q)
  {
  }

  // What list_remove leaves in each node.
  lemma RemovedLinks<N>(links: map<N, Link<N>>, e: Ends<N>, n: N)
    ensures var (x, (l, e')) := (LinkOf(links, n), Removed(links, e, n));
      && LinkOf(l, n) == Link(None, None)
      && (forall m {:trigger LinkOf(l, m)} | m != n :: LinkOf(l, m) ==
            Link(if x.next == Some(m) then x.pre else LinkOf(links, m).pre,
                 if x.pre == Some(m) then x.next else LinkOf(links, m).next))
      && e' == Ends(if e.first == Some(n) then x.next else e.first, if e.last == Some(n) then x.pre else e.last, Dec(e.size))
  {
  }

  // The neighbours of q[j] once q[k] is gone.
  lemma PassedOver<N>(q: seq<N>, r: seq<N>, k: nat, j: nat)
    requires Distinct(q) && k < |q| && j < |q| && j != k && |r| == |q| - 1
    requires forall i {:trigger r[i]} | 0 <= i < |r| :: r[i] == if i < k then q[i] else q[i + 1]
    ensures var (x, y) := (LinkAt(q, k), LinkAt(q, j));
      LinkAt(r, if j < k then j else j - 1) ==
        Link(if x.next == Some(q[j]) then x.pre else y.pre, if x.pre == Some(q[j]) then x.next else y.next)
  {
    assert LinkAt(q, k).next == Some(q[j]) <==> j == k + 1;
    assert LinkAt(q, k).pre == Some(q[j]) <==> j + 1 == k;
  }

  lemma ChainLink<N>(links: map<N, Link<N>>, e: Ends<N>, q: seq<N>, j: nat)
    requires IsChain(links, e, q) && j < |q|
    ensures LinkOf(links, q[j]) == LinkAt(q, j) && Distinct(q)
  {
  }

  lemma RemovedNeighbour<N>(links: map<N, Link<N>>, e: Ends<N>, q: seq<N>, k: nat, j: nat)
    requires IsChain(links, e, q) && k < |q| && j < |q| && j != k
    ensures |Without(q, q[k])| == |q| - 1
    ensures LinkOf(Removed(links, e, q[k]).0, q[j]) == LinkAt(Without(q, q[k]), if j < k then j else j - 1)
  {
    hide Without, LinkAt, Removed, LinkOf;
    WithoutPlace(q, k);
    PassedOver(q, Without(q, q[k]), k, j);
    RemovedLinks(links, e, q[k]);
    ChainLink(links, e, q, k);
    ChainLink(links, e, q, j);
  }

  lemma RemovedOthers<N>(links: map<N, Link<N>>, e: Ends<N>, q: seq<N>, k: nat)
    requires IsChain(links, e, q) && k < |q|
    ensures var l := Removed(links, e, q[k]).0;
      LinkOf(l, q[k]) == Link(None, None) && forall n | n !in q :: LinkOf(l, n) == LinkOf(links, n)
  {
    hide Removed, LinkOf;
    RemovedLinks(links, e, q[k]);
    ChainLink(links, e, q, k);
  }

  /** Removing a node of a sound list. */
  lemma RemovedInside<N>(links: map<N, Link<N>>, e: Ends<N>, q: seq<N>, k: nat)
    requires IsChain(links, e, q) && k < |q|
    ensures var (l, e') := Removed(links, e, q[k]);
      && IsChain(l, e', Without(q, q[k])) && LinkOf(l, q[k]) == Link(None, None)
      && forall n | n !in q :: LinkOf(l, n) == LinkOf(links, n)
  {
    hide *;
    var r := Without(q, q[k]);
    var (l, e') := Removed(links, e, q[k]);
    ChainLink(links, e, q, k);
    WithoutPlace(q, k);
    RemovedLinks(links, e, q[k]);
    RemovedOthers(links, e, q, k);
    forall j: nat | j < |q| && j != k
      ensures LinkOf(l, q[j]) == LinkAt(r, if j < k then j else j - 1)
    {
      RemovedNeighbour(links, e, q, k, j);
    }
    RemovedEnds(links, e, q, k, r, l, e');
  }

  lemma RemovedEnds<N>(links: map<N, Link<N>>, e: Ends<N>, q: seq<N>, k: nat, r: seq<N>, l: map<N, Link<N>>, e': Ends<N>)
    requires IsChain(links, e, q) && k < |q| && |r| == |q| - 1 && Distinct(r)
    requires forall i {:trigger r[i]} | 0 <= i < |r| :: r[i] == if i < k then q[i] else q[i + 1]
    requires forall j: nat {:trigger LinkOf(l, q[j])} | j < |q| && j != k :: LinkOf(l, q[j]) == LinkAt(r, if j < k then j else j - 1)
    requires var x := LinkAt(q, k);
      e' == Ends(if e.first == Some(q[k]) then x.next else e.first, if e.last == Some(q[k]) then x.pre else e.last, Dec(e.size))
    ensures IsChain(l, e', r)
  {
    RemovedInner(q, k, r, l);
    hide LinkOf, Distinct;
    assert r == [] <==> |q| == 1;
  }

  lemma RemovedInner<N>(q: seq<N>, k: nat, r: seq<N>, l: map<N, Link<N>>)
    requires k < |q| && |r| == |q| - 1
    requires forall i {:trigger r[i]} | 0 <= i < |r| :: r[i] == if i < k then q[i] else q[i + 1]
    requires forall j: nat {:trigger LinkOf(l, q[j])} | j < |q| && j != k :: LinkOf(l, q[j]) == LinkAt(r, if j < k then j else j - 1)
    ensures forall i {:trigger LinkOf(l, r[i])} | 0 <= i < |r| :: LinkOf(l, r[i]) == LinkAt(r, i)
  {
    hide LinkOf, LinkAt;
    forall i | 0 <= i < |r|
      ensures LinkOf(l, r[i]) == LinkAt(r, i)
    {
      var j := if i < k then i else i + 1;
      assert LinkOf(l, q[j]) == LinkAt(r, i);
    }
  }

  /** Inserting behind a sound list. */
  lemma InsertedBehind<N>(links: map<N, Link<N>>, e: Ends<N>, q: seq<N>, n: N)
    requires IsChain(links, e, q) && n !in q && |q| < 0xFFFF_FFFF
    ensures var (l, e') := InsertedBack(links, e, n);
      && IsChain(l, e', q + [n])
      && forall m | m !in q && m != n :: LinkOf(l, m) == LinkOf(links, m)
  {
    var (l, e') := InsertedBack(links, e, n);
    var r := q + [n];
    forall i | 0 <= i < |r|
      ensures LinkOf(l, r[i]) == LinkAt(r, i)
    {
      if i < |q| {
        assert r[i] == q[i] && LinkOf(links, q[i]) == LinkAt(q, i);
      }
    }
  }

  /** A list whose count is not that of its nodes is not sound. */
  lemma WrongCount<N>(links: map<N, Link<N>>, e: Ends<N>, q: seq<N>)
    requires IsChain(links, e.(size := |q|), q) && e.size != |q|
    ensures forall p :: !IsChain(links, e, p)
  {
    forall p | IsChain(links, e, p)
      ensures false
    {
      if q != [] && p != [] {
        Follows(links, p, q);
      }
    }
  }

  /** Removing a node that is in no list, or in another one: this list's pointers stand, but its count drops. */
  lemma RemovedOutside<N>(links: map<N, Link<N>>, e: Ends<N>, q: seq<N>, n: N)
    requires IsChain(links, e, q) && n !in q && |q| <= 0xFFFF_FFFF
    requires forall m | m in q :: Some(m) != LinkOf(links, n).pre && Some(m) != LinkOf(links, n).next
    ensures var (l, e') := Removed(links, e, n);
      && e' == e.(size := Dec(|q|)) && LinkOf(l, n) == Link(None, None)
      && (forall m | m in q :: LinkOf(l, m) == LinkOf(links, m))
      && IsChain(l, e'.(size := |q|), q) && Dec(|q|) != |q|
  {
    var l := Removed(links, e, n).0;
    SameChain(links, l, e, q);
  }

  // Two sequences that start at the same node and follow the same pointers agree as far as both go; where one ends, so
  // does the other.
  lemma Follows<N>(links: map<N, Link<N>>, p: seq<N>, q: seq<N>)
    requires p != [] && q != [] && p[0] == q[0]
    requires forall i {:trigger LinkOf(links, p[i])} | 0 <= i < |p| :: LinkOf(links, p[i]) == LinkAt(p, i)
    requires forall i {:trigger LinkOf(links, q[i])} | 0 <= i < |q| :: LinkOf(links, q[i]) == LinkAt(q, i)
    ensures p == q
  {
    var i := if |p| <= |q| then |p| - 1 else |q| - 1;
    FollowsTo(links, p, q, i);
    assert LinkAt(p, i) == LinkOf(links, p[i]) == LinkOf(links, q[i]) == LinkAt(q, i);
  }

  lemma {:induction false} FollowsTo<N>(links: map<N, Link<N>>, p: seq<N>, q: seq<N>, i: nat)
    requires p != [] && q != [] && p[0] == q[0] && i < |p| && i < |q|
    requires forall i {:trigger LinkOf(links, p[i])} | 0 <= i < |p| :: LinkOf(links, p[i]).next == LinkAt(p, i).next
    requires forall i {:trigger LinkOf(links, q[i])} | 0 <= i < |q| :: LinkOf(links, q[i]).next == LinkAt(q, i).next
    ensures forall j | 0 <= j <= i :: p[j] == q[j]
    decreases i
  {
    if i == 0 {
    } else {
      FollowsTo(links, p, q, i - 1);
      assert LinkOf(links, p[i - 1]) == LinkOf(links, q[i - 1]);
    }
  }

  // list_remove_front, store by store; of an empty list, or one whose head is null, nothing.
  function RemovedFront<N(==)>(links: map<N, Link<N>>, e: Ends<N>): (map<N, Link<N>>, Ends<N>) {
    if e.size == 0 || e.first == None then (links, e) else
      var n := e.first.value;
      var x := LinkOf(links, n);
      var l := if x.next == None then links else links[x.next.value := LinkOf(links, x.next.value).(pre := None)];
      (l[n := Link(None, None)], Ends(x.next, if x.next == None then None else e.last, Dec(e.size)))
  }

  lemma FrontIsRemoved<N>(links: map<N, Link<N>>, e: Ends<N>, q: seq<N>)
    requires IsChain(links, e, q) && q != []
    ensures RemovedFront(links, e) == Removed(links, e, q[0])
  {
    ChainLink(links, e, q, 0);
  }

  /** Removing such a node and inserting it behind this list: with nothing in the list the tail alone names it and the
      count is 0; a single node is dropped from the list; behind two and more the count is one short. The list is no
      longer sound. */
  lemma RequeuedOutside<N>(links: map<N, Link<N>>, e: Ends<N>, q: seq<N>, n: N)
    requires IsChain(links, e, q) && n !in q && |q| < 0xFFFF_FFFF
    requires forall m | m in q :: Some(m) != LinkOf(links, n).pre && Some(m) != LinkOf(links, n).next
    ensures var (l1, e1) := Removed(links, e, n);
      var (l, e') := InsertedBack(l1, e1, n);
      && e' == (if |q| == 0 then Ends(None, Some(n), 0)
                else if |q| == 1 then Ends(Some(n), Some(n), 1)
                else Ends(Some(q[0]), Some(n), |q|))
      && LinkOf(l, n) == Link(if q == [] then None else Some(q[|q| - 1]), None)
      && (|q| == 1 ==> LinkOf(l, q[0]) == Link(None, None))
      && forall p :: !IsChain(l, e', p)
  {
    RemovedOutside(links, e, q, n);
    var (l1, e1) := Removed(links, e, n);
    var (l, e') := InsertedBack(l1, e1, n);
    assert |q| == 1 ==> q[0] in q && LinkOf(links, q[0]) == LinkAt(q, 0);
    forall p | IsChain(l, e', p)
      ensures false
    {
      if |q| >= 2 {
        var r := q + [n];
        forall i | 0 <= i < |r|
          ensures LinkOf(l, r[i]) == LinkAt(r, i)
        {
          if i < |q| {
            assert r[i] == q[i] && LinkOf(links, q[i]) == LinkAt(q, i);
          }
        }
        Follows(l, p, r);
      } else if |q| == 1 {
        ChainLink(l, e', p, 0);
      }
    }
  }

  class Node {
    // What struct_from_field recovers from the node's address: the task that embeds it.
    const tid: nat
    var pre: Node?
    var next: Node?

    // list_node_init
    constructor (tid: nat)
      ensures this.tid == tid && pre == null && next == null
    {
      this.tid := tid;
      pre, next := null, null;
    }
  }

  function Named(n: Node?): Option<Node> { if n == null then None else Some(n) }

  // The pointers in some nodes.
  ghost function Snapshot(all: set<Node>): map<Node, Link<Node>>
    reads all
  {
    map n | n in all :: Link(Named(n.pre), Named(n.next))
  }

  lemma Shown(n: Node, all: set<Node>)
    requires n in all
    ensures LinkOf(Snapshot(all), n) == Link(Named(n.pre), Named(n.next))
  {
  }

  // n->pre = pre, n->next = next
  method StoreLink(n: Node, pre: Node?, next: Node?, ghost all: set<Node>)
    requires n in all
    modifies n
    ensures n.pre == pre && n.next == next
    ensures Snapshot(all) == old(Snapshot(all))[n := Link(Named(pre), Named(next))]
  {
    n.pre, n.next := pre, next;
  }

  // n->pre = v
  method StorePre(n: Node, v: Node?, ghost all: set<Node>)
    requires n in all
    modifies n`pre
    ensures n.pre == v
    ensures Snapshot(all) == old(Snapshot(all))[n := LinkOf(old(Snapshot(all)), n).(pre := Named(v))]
  {
    n.pre := v;
  }

  // n->next = v
  method StoreNext(n: Node, v: Node?, ghost all: set<Node>)
    requires n in all
    modifies n`next
    ensures n.next == v
    ensures Snapshot(all) == old(Snapshot(all))[n := LinkOf(old(Snapshot(all)), n).(next := Named(v))]
  {
    n.next := v;
  }

  class List {
    var head: Node?
    var tail: Node?
    var size: nat
    ghost var nodes: seq<Node>

    ghost predicate Valid()
      reads this, set n | n in nodes
    {
      && size == |nodes| && Distinct(nodes)
      && head == (if nodes == [] then null else nodes[0])
      && tail == (if nodes == [] then null else nodes[|nodes| - 1])
      && (forall i {:trigger nodes[i].pre} | 0 <= i < |nodes| ::
            nodes[i].pre == if i == 0 then null else nodes[i - 1])
      && (forall i {:trigger nodes[i].next} | 0 <= i < |nodes| ::
            nodes[i].next == if i == |nodes| - 1 then null else nodes[i + 1])
    }

    ghost function Both(): Ends<Node>
      reads this
    {
      Ends(Named(head), Named(tail), size)
    }

    lemma ValidIsChain(all: set<Node>)
      requires forall n | n in nodes :: n in all
      ensures Valid() <==> IsChain(Snapshot(all), Both(), nodes)
    {
      assert forall i | 0 <= i < |nodes| :: LinkOf(Snapshot(all), nodes[i]) == Link(Named(nodes[i].pre), Named(nodes[i].next));
    }

    // list_init
    constructor ()
      ensures Valid() && nodes == []
    {
      head, tail, size := null, null, 0;
      nodes := [];
    }

    // list_is_empty
    predicate IsEmpty()
      reads this
    {
      size == 0
    }

    // list_insert_node with type 0 (after onode) or 1 (before it); null nodes and any other type do nothing.
    method InsertNode(nnode: Node?, onode: Node?, kind: int)
      requires Valid() && nnode !in nodes && (onode == null || onode in nodes)
      modifies this, nodes, nnode
      ensures Valid()
      ensures nnode == null || onode == null ==> nodes == old(nodes)
      ensures nnode != null && onode != null ==> var k := IndexOf(old(nodes), onode);
        nodes == (match kind
                  case 0 => Inserted(old(nodes), k + 1, nnode)
                  case 1 => Inserted(old(nodes), k, nnode)
                  case _ => old(nodes))
    {
      if nnode == null || onode == null {
        return;
      }
      ghost var k := IndexOf(nodes, onode);
      assert onode == nodes[k];
      if kind == 0 {
        InsertAfter(nnode, onode, k);
      } else if kind == 1 {
        InsertBefore(nnode, onode, k);
      }
    }

    // The branch of list_insert_node for type 0.
    method InsertAfter(nnode: Node, onode: Node, ghost k: nat)
      requires Valid() && nnode !in nodes && k < |nodes| && onode == nodes[k]
      modifies this, nodes, nnode
      ensures Valid() && nodes == Inserted(old(nodes), k + 1, nnode)
    {
      ghost var was := nodes;
      if onode.next == null {
        tail := nnode;
      } else {
        onode.next.pre := nnode;
      }
      var tmp := onode.next;
      onode.next := nnode;
      nnode.next := tmp;
      nnode.pre := onode;
      size := size + 1;
      RelinkInserted(was, k + 1, nnode);
    }

    // The branch of list_insert_node for type 1.
    method InsertBefore(nnode: Node, onode: Node, ghost k: nat)
      requires Valid() && nnode !in nodes && k < |nodes| && onode == nodes[k]
      modifies this, nodes, nnode
      ensures Valid() && nodes == Inserted(old(nodes), k, nnode)
    {
      ghost var was := nodes;
      if onode.pre == null {
        head := nnode;
      } else {
        onode.pre.next := nnode;
      }
      var tmp := onode.pre;
      onode.pre := nnode;
      nnode.pre := tmp;
      nnode.next := onode;
      size := size + 1;
      RelinkInserted(was, k, nnode);
    }

    // The links now run through x between was[k-1] and was[k]: the list is the longer sequence.
    ghost method RelinkInserted(was: seq<Node>, k: nat, x: Node)
      requires k <= |was| && was != [] && Distinct(was) && x !in was && size == |was| + 1
      requires head == (if k == 0 then x else was[0]) && tail == (if k == |was| then x else was[|was| - 1])
      requires x.pre == (if k == 0 then null else was[k - 1]) && x.next == (if k == |was| then null else was[k])
      requires forall j {:trigger was[j].pre} | 0 <= j < |was| ::
        was[j].pre == if j == k then x else if j == 0 then null else was[j - 1]
      requires forall j {:trigger was[j].next} | 0 <= j < |was| ::
        was[j].next == if j == k - 1 then x else if j == |was| - 1 then null else was[j + 1]
      modifies this`nodes
      ensures Valid() && nodes == Inserted(was, k, x)
    {
      nodes := Inserted(was, k, x);
      InsertedAt(was, k, x);
      hide Inserted;
      forall i | 0 <= i < |nodes|
        ensures nodes[i].pre == if i == 0 then null else nodes[i - 1]
        ensures nodes[i].next == if i == |nodes| - 1 then null else nodes[i + 1]
      {
        if i != k {
          var j := if i < k then i else i - 1;
          assert nodes[i] == was[j];
        }
      }
    }

    // list_insert_front
    method InsertFront(node: Node)
      requires Valid() && node !in nodes
      modifies this, nodes, node
      ensures Valid() && nodes == [node] + old(nodes)
    {
      node.next := head;
      node.pre := null;
      if IsEmpty() {
        head, tail := node, node;
      } else {
        head.pre := node;
        head := node;
      }
      size := size + 1;
      nodes := [node] + nodes;
    }

    // The pointers make up q again.
    ghost method Settle(q: seq<Node>, all: set<Node>)
      requires IsChain(Snapshot(all), Both(), q) && forall n | n in q :: n in all
      modifies this`nodes
      ensures Valid() && nodes == q
      ensures Both() == old(Both())
    {
      nodes := q;
      ValidIsChain(all);
    }

    /** list_insert_back, whether or not the list is sound. */
    method InsertBack(node: Node, ghost all: set<Node>)
      requires node in all && (tail != null ==> tail in all)
      modifies this`head, this`tail, this`size, all
      ensures (Snapshot(all), Both()) == InsertedBack(old(Snapshot(all)), old(Both()), node)
    {
      hide Snapshot;
      StoreLink(node, tail, null, all);
      if IsEmpty() {
        head, tail := node, node;
      } else {
        if tail != null {
          StoreNext(tail, node, all);
        }
        tail := node;
      }
      size := Inc(size);
    }

    /** list_remove, whether or not the list is sound. It does not look whether the node is in the list. */
    method Remove(node: Node, ghost all: set<Node>)
      requires node in all && (node.pre != null ==> node.pre in all) && (node.next != null ==> node.next in all)
      modifies this`head, this`tail, this`size, all
      ensures (Snapshot(all), Both()) == Removed(old(Snapshot(all)), old(Both()), node)
      ensures node.pre == null && node.next == null
    {
      hide Snapshot;
      Shown(node, all);
      if head == node {
        head := node.next;
      }
      if tail == node {
        tail := node.pre;
      }
      if node.pre != null {
        StoreNext(node.pre, node.next, all);
      }
      if node.next != null {
        StorePre(node.next, node.pre, all);
      }
      StoreLink(node, null, null, all);
      size := Dec(size);
    }

    // list_insert_back on a sound list.
    method Attach(node: Node)
      requires Valid() && node !in nodes && |nodes| < 0xFFFF_FFFF
      modifies this, nodes, node
      ensures Valid() && nodes == old(nodes) + [node] && node.next == null
    {
      ghost var was, all := nodes, {node} + set n | n in nodes;
      assert tail != null ==> tail in nodes;
      ValidIsChain(all);
      InsertedBehind(Snapshot(all), Both(), was, node);
      hide Valid, IsChain, Snapshot, InsertedBack;
      InsertBack(node, all);
      Settle(was + [node], all);
      assert nodes[|was|] == node;
      LastOf();
    }

    // list_remove of a node of a sound list.
    method Detach(node: Node)
      requires Valid() && node in nodes
      modifies this, nodes
      ensures Valid() && nodes == Without(old(nodes), node) && node.pre == null && node.next == null
    {
      ghost var was, all := nodes, set n | n in nodes;
      Neighbours(node);
      ValidIsChain(all);
      RemovedInside(Snapshot(all), Both(), was, IndexOf(was, node));
      WithoutSubset(was, node);
      hide Valid, IsChain, Snapshot, Removed, Without, IndexOf;
      Remove(node, all);
      Settle(Without(was, node), all);
    }

    lemma LastOf()
      requires Valid()
      ensures nodes == [] <==> tail == null
      ensures nodes != [] ==> tail == nodes[|nodes| - 1] && tail.next == null
    {
      if nodes != [] {
        assert nodes[|nodes| - 1].next == null;
      }
    }

    lemma Neighbours(node: Node)
      requires Valid() && node in nodes
      ensures node.pre != null ==> node.pre in nodes
      ensures node.next != null ==> node.next in nodes
    {
      var k :| 0 <= k < |nodes| && nodes[k] == node;
      assert nodes[k].pre == node.pre && nodes[k].next == node.next;
    }

    /** list_remove and then list_insert_back of a node that is in no list or in another one. */
    method Requeue(node: Node, ghost all: set<Node>)
      requires Valid() && node !in nodes && |nodes| < 0xFFFF_FFFF && node in all && (forall n | n in nodes :: n in all)
      requires node.pre !in nodes && (node.pre != null ==> node.pre in all)
      requires node.next !in nodes && (node.next != null ==> node.next in all)
      modifies this, all
      ensures Both() == match |old(nodes)|
        case 0 => Ends(None, Some(node), 0)
        case 1 => Ends(Some(node), Some(node), 1)
        case k => Ends(Some(old(nodes)[0]), Some(node), k)
      ensures node.pre == (if old(nodes) == [] then null else old(nodes)[|old(nodes)| - 1]) && node.next == null
      ensures forall p :: !IsChain(Snapshot(all), Both(), p)
    {
      hide IsChain, Broken, Removed, InsertedBack, LinkOf, Snapshot;
      ghost var was, links, ends := nodes, Snapshot(all), Both();
      ValidIsChain(all);
      Shown(node, all);
      RemovedOutside(links, ends, was, node);
      assert tail != null ==> tail in nodes;
      Remove(node, all);
      InsertBack(node, all);
      Shown(node, all);
      RequeuedOutside(links, ends, was, node);
    }

    // list_remove_front
    method RemoveFront() returns (node: Node?)
      requires Valid()
      modifies this, nodes
      ensures Valid()
      ensures old(nodes) == [] ==> node == null && nodes == []
      ensures old(nodes) != [] ==> node == old(nodes)[0] && nodes == old(nodes)[1..] && node.pre == null && node.next == null
    {
      if IsEmpty() {
        return null;
      }
      node := head;
      head := node.next;
      if head == null {
        tail := null;
      } else {
        node.next.pre := null;
      }
      node.pre, node.next := null, null;
      size := size - 1;
      nodes := nodes[1..];
    }
  }
}
