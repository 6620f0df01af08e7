/** Terminal output as a bounded buffer: any number of processes inside dev_tty_write and tty_write, interleaved between
    their calls of sem_wait, tty_fifo_put, tty_fifo_get and sem_notify (src/kernel32/device/tty.c). */
module Tty {
  import opened IntrusiveList
  import Scheduler
  import opened TtyFifo

  // TTY_OBUF_SIZE
  const OBUF_SIZE: nat := 512

  /** Where a process is: outside, at the head of the put loop, in the semaphore's wait list, past sem_wait but before
      the put, at the head of the drain loop, or past a get but before its sem_notify. */
  datatype Pc = Idle | Writing | Blocked | Holding | Draining | Taken

  // todo is what is left of the buffer passed to dev_tty_write.
  datatype Proc = Proc(pc: Pc, todo: seq<bv8>)

  /** osem is (counter, waiters), ofifo is fifo. The history: log is every successful put with its writer, shown every
      byte got, issued what each process has passed to dev_tty_write so far. */
  datatype Tty = Tty(
    counter: int,
    waiters: seq<nat>,
    fifo: seq<bv8>,
    procs: seq<Proc>,
    log: seq<(nat, bv8)>,
    shown: seq<bv8>,
    issued: seq<seq<bv8>>)

  // ---- the semaphore on its own

  function SemWait(counter: int, waiters: seq<nat>, p: nat): (int, seq<nat>) {
    if counter > 0 then (counter - 1, waiters) else (counter, waiters + [p])
  }

  function SemNotify(counter: int, waiters: seq<nat>): (int, seq<nat>) {
    if waiters != [] then (counter, waiters[1..]) else (counter + 1, waiters)
  }

  /** That is the scheduler's semaphore, seen without the other queues. */
  lemma SemaphoreOfScheduler(s: Scheduler.Sched, j: nat)
    requires Scheduler.Shape(s) && j < |s.sems|
    ensures var (r, i) := (Scheduler.Wait(s, j), Scheduler.SemQueue(s, j));
      (r.sems[j], r.queues[i]) == SemWait(s.sems[j], s.queues[i], s.running)
    ensures var (r, i) := (Scheduler.Notify(s, j), Scheduler.SemQueue(s, j));
      (r.sems[j], r.queues[i]) == SemNotify(s.sems[j], s.queues[i])
  {
    hide Scheduler.InTable, Without;
  }

  // ---- steps

  datatype Act =
    | DoCall(p: nat, data: seq<bv8>)
    | DoSemWait(p: nat)
    | DoPut(p: nat)
    | DoDrain(p: nat)
    | DoGet(p: nat, escape: bool)
    | DoSemNotify(p: nat)

  predicate Shape(t: Tty) {
    |t.issued| == |t.procs| && forall k | 0 <= k < |t.waiters| :: t.waiters[k] < |t.procs|
  }

  predicate Enabled(t: Tty, a: Act)
    requires Shape(t)
  {
    && a.p < |t.procs|
    && var x := t.procs[a.p];
       match a
       case DoCall(_, _) => x.pc == Idle
       case DoSemWait(_) => x.pc == Writing && x.todo != []
       case DoPut(_) => x.pc == Holding && x.todo != []
       case DoDrain(_) => x.pc == Writing && x.todo == []
       case DoGet(_, _) => x.pc == Draining
       case DoSemNotify(_) => x.pc == Taken
  }

  function Goto(t: Tty, p: nat, pc: Pc): Tty
    requires p < |t.procs|
  {
    t.(procs := t.procs[p := t.procs[p].(pc := pc)])
  }

  function Step(t: Tty, a: Act): (r: Tty)
    requires Shape(t) && Enabled(t, a)
    ensures Shape(r) && |r.procs| == |t.procs|
  {
    var p := a.p;
    match a
    case DoCall(_, data) =>
      // size <= 0 returns at once
      if data == [] then t else
        t.(procs := t.procs[p := Proc(Writing, data)], issued := t.issued[p := t.issued[p] + data])
    case DoSemWait(_) =>
      var (c, w) := SemWait(t.counter, t.waiters, p);
      Goto(t.(counter := c, waiters := w), p, if t.counter > 0 then Holding else Blocked)
    case DoPut(_) =>
      var c := t.procs[p].todo[0];
      var (q, err) := FifoPut(t.fifo, OBUF_SIZE, c);
      if err < 0 then Goto(t, p, Draining)
      else t.(fifo := q, log := t.log + [(p, c)], procs := t.procs[p := Proc(Writing, t.procs[p].todo[1..])])
    case DoDrain(_) => Goto(t, p, Draining)
    case DoGet(_, escape) =>
      var (q, err) := FifoGet(t.fifo);
      // an empty buffer ends com_esc, or the whole of tty_write
      if err < 0 then Goto(t, p, if escape then Draining else Idle)
      else Goto(t.(fifo := q, shown := t.shown + [t.fifo[0]]), p, Taken)
    case DoSemNotify(_) =>
      var (c, w) := SemNotify(t.counter, t.waiters);
      var r := Goto(t.(counter := c, waiters := w), p, Draining);
      // a waiter comes back from sem_wait with the permit
      if t.waiters != [] then Goto(r, t.waiters[0], Holding) else r
  }

  predicate LegalRun(t: Tty, acts: seq<Act>)
    requires Shape(t)
    decreases |acts|
  {
    acts != [] ==> Enabled(t, acts[0]) && LegalRun(Step(t, acts[0]), acts[1..])
  }

  function Run(t: Tty, acts: seq<Act>): (r: Tty)
    requires Shape(t) && LegalRun(t, acts)
    ensures Shape(r)
    decreases |acts|
  {
    if acts == [] then t else Run(Step(t, acts[0]), acts[1..])
  }

  // After dev_tty_open.
  function Opened(n: nat): Tty {
    Tty(OBUF_SIZE, [], [], seq(n, _ => Proc(Idle, [])), [], [], seq(n, _ => []))
  }

  // ---- what every run keeps

  // 1 for a process that holds a permit it has not put, or has a byte it has not notified.
  function Owes(x: Proc): nat { if x.pc == Holding || x.pc == Taken then 1 else 0 }

  function Owed(procs: seq<Proc>): nat {
    if procs == [] then 0 else Owes(procs[0]) + Owed(procs[1..])
  }

  lemma {:induction false} OwedUpdate(procs: seq<Proc>, p: nat, x: Proc)
    requires p < |procs|
    ensures Owed(procs[p := x]) == Owed(procs) - Owes(procs[p]) + Owes(x)
  {
    if p > 0 {
      OwedUpdate(procs[1..], p - 1, x);
      assert procs[p := x][1..] == procs[1..][p - 1 := x];
    } else {
      assert procs[p := x][1..] == procs[1..];
    }
  }

  function Bytes(log: seq<(nat, bv8)>): (r: seq<bv8>)
    ensures |r| == |log|
  {
    seq(|log|, k requires 0 <= k < |log| => log[k].1)
  }

  // What p has put, in order.
  function By(log: seq<(nat, bv8)>, p: nat): seq<bv8> {
    if log == [] then [] else
      By(log[..|log| - 1], p) + if log[|log| - 1].0 == p then [log[|log| - 1].1] else []
  }

  /** Permits are conserved: they are free, or in the buffer, or held on the way in or out. */
  ghost predicate Permits(t: Tty) {
    t.counter >= 0 && t.counter + |t.fifo| + Owed(t.procs) == OBUF_SIZE && (t.counter > 0 ==> t.waiters == [])
  }

  /** The blocked processes are the waiters, each once. */
  ghost predicate WaitersOk(t: Tty) {
    && Distinct(t.waiters)
    && forall p: nat | p < |t.procs| :: t.procs[p].pc == Blocked <==> p in t.waiters
  }

  /** Each writer's bytes are put in its order, none lost: what it issued is what it put and what it still has. */
  ghost predicate WritersOk(t: Tty)
    requires Shape(t)
  {
    forall p: nat | p < |t.procs| :: WriterOk(t.procs[p], By(t.log, p), t.issued[p])
  }

  ghost predicate WriterOk(x: Proc, put: seq<bv8>, issued: seq<bv8>) {
    && put + x.todo == issued
    && (x.pc == Blocked || x.pc == Holding ==> x.todo != [])
    && (x.pc == Idle || x.pc == Draining || x.pc == Taken ==> x.todo == [])
  }

  ghost predicate Core(t: Tty) {
    && Shape(t) && Permits(t) && WaitersOk(t) && WritersOk(t)
    // Bytes leave in the order they were put.
    && t.shown + t.fifo == Bytes(t.log)
  }

  /** Someone is still there to drain the buffer. */
  ghost predicate Attended(t: Tty) {
    t.fifo != [] ==> exists p: nat | p < |t.procs| :: t.procs[p].pc != Idle
  }

  ghost predicate Inv(t: Tty) { Core(t) && Attended(t) }

  lemma {:induction false} OwedHolder(procs: seq<Proc>, p: nat)
    requires p < |procs| && Owes(procs[p]) == 1
    ensures Owed(procs) >= 1
  {
    OwedUpdate(procs, p, Proc(Idle, []));
  }

  lemma {:induction false} NoneOwed(procs: seq<Proc>)
    requires forall x | x in procs :: Owes(x) == 0
    ensures Owed(procs) == 0
  {
    if procs == [] {
    } else {
      NoneOwed(procs[1..]);
    }
  }

  lemma OpenedInv(n: nat)
    ensures Inv(Opened(n))
  {
    NoneOwed(Opened(n).procs);
  }

  /** A process that holds a permit finds room: the full branch of tty_fifo_put is never taken. */
  lemma RoomForHolder(t: Tty, p: nat)
    requires Core(t) && p < |t.procs| && t.procs[p].pc == Holding
    ensures |t.fifo| < OBUF_SIZE && t.procs[p].todo != [] && FifoPut(t.fifo, OBUF_SIZE, t.procs[p].todo[0]).1 == 0
  {
    OwedHolder(t.procs, p);
  }

  lemma PutWriters(log: seq<(nat, bv8)>, p: nat, c: bv8, q: nat)
    ensures By(log + [(p, c)], q) == By(log, q) + if q == p then [c] else []
    ensures Bytes(log + [(p, c)]) == Bytes(log) + [c]
  {
    assert (log + [(p, c)])[..|log|] == log;
  }

  // The state after a put that finds room.
  function AfterPut(t: Tty, p: nat): (r: Tty)
    requires p < |t.procs| && t.procs[p].todo != []
  {
    var c := t.procs[p].todo[0];
    t.(fifo := t.fifo + [c], log := t.log + [(p, c)], procs := t.procs[p := Proc(Writing, t.procs[p].todo[1..])])
  }

  lemma PutWritersOk(t: Tty, p: nat)
    requires Shape(t) && WritersOk(t) && p < |t.procs| && t.procs[p].todo != []
    ensures WritersOk(AfterPut(t, p))
  {
    var x, r := t.procs[p], AfterPut(t, p);
    assert x.todo == [x.todo[0]] + x.todo[1..];
    hide Bytes, By;
    forall q: nat | q < |r.procs|
      ensures WriterOk(r.procs[q], By(r.log, q), r.issued[q])
    {
      PutWriters(t.log, p, x.todo[0], q);
      assert WriterOk(t.procs[q], By(t.log, q), t.issued[q]);
    }
  }

  lemma PutCore(t: Tty, p: nat)
    requires Core(t) && Enabled(t, DoPut(p))
    ensures Core(Step(t, DoPut(p)))
  {
    RoomForHolder(t, p);
    var r := AfterPut(t, p);
    assert Step(t, DoPut(p)) == r;
    OwedUpdate(t.procs, p, r.procs[p]);
    PutWriters(t.log, p, t.procs[p].todo[0], p);
    PutWritersOk(t, p);
    hide Step, Enabled, FifoPut, WritersOk, By, Owed, Bytes;
    assert r.shown + r.fifo == (t.shown + t.fifo) + [t.procs[p].todo[0]];
    assert WaitersOk(r);
  }

  lemma GetCore(t: Tty, p: nat, escape: bool)
    requires Core(t) && Enabled(t, DoGet(p, escape))
    ensures Core(Step(t, DoGet(p, escape)))
  {
    var r := Step(t, DoGet(p, escape));
    OwedUpdate(t.procs, p, r.procs[p]);
    hide Owed, By, Bytes;
  }

  lemma CallCore(t: Tty, p: nat, data: seq<bv8>)
    requires Core(t) && Enabled(t, DoCall(p, data))
    ensures Core(Step(t, DoCall(p, data)))
  {
    var r := Step(t, DoCall(p, data));
    OwedUpdate(t.procs, p, r.procs[p]);
  }

  lemma SemWaitCore(t: Tty, p: nat)
    requires Core(t) && Enabled(t, DoSemWait(p))
    ensures Core(Step(t, DoSemWait(p)))
  {
    OwedUpdate(t.procs, p, t.procs[p].(pc := Holding));
    OwedUpdate(t.procs, p, t.procs[p].(pc := Blocked));
    hide Owed, By, Bytes;
  }

  lemma DrainCore(t: Tty, p: nat)
    requires Core(t) && Enabled(t, DoDrain(p))
    ensures Core(Step(t, DoDrain(p)))
  {
    OwedUpdate(t.procs, p, t.procs[p].(pc := Draining));
    hide Owed, By, Bytes;
  }

  lemma NotifyWaiters(t: Tty, p: nat)
    requires Shape(t) && WaitersOk(t) && Enabled(t, DoSemNotify(p))
    ensures WaitersOk(Step(t, DoSemNotify(p)))
  {
    if t.waiters != [] {
      assert t.waiters == [t.waiters[0]] + t.waiters[1..];
    }
  }

  lemma SemNotifyCore(t: Tty, p: nat)
    requires Core(t) && Enabled(t, DoSemNotify(p))
    ensures Core(Step(t, DoSemNotify(p)))
  {
    hide Owed, By, Bytes;
    var x := t.procs[p].(pc := Draining);
    OwedUpdate(t.procs, p, x);
    if t.waiters != [] {
      var w := t.waiters[0];
      assert w in t.waiters && t.procs[w].pc == Blocked;
      OwedUpdate(t.procs[p := x], w, t.procs[w].(pc := Holding));
    }
    NotifyWaiters(t, p);
  }

  lemma StepCore(t: Tty, a: Act)
    requires Core(t) && Enabled(t, a)
    ensures Core(Step(t, a))
  {
    match a
    case DoCall(p, data) => CallCore(t, p, data);
    case DoSemWait(p) => SemWaitCore(t, p);
    case DoPut(p) => PutCore(t, p);
    case DoDrain(p) => DrainCore(t, p);
    case DoGet(p, escape) => GetCore(t, p, escape);
    case DoSemNotify(p) => SemNotifyCore(t, p);
  }

  lemma StepInv(t: Tty, a: Act)
    requires Inv(t) && Enabled(t, a)
    ensures Inv(Step(t, a))
  {
    StepCore(t, a);
    var r := Step(t, a);
    hide Core;
    if r.fifo != [] && a != DoCall(a.p, []) {
      assert r.procs[a.p].pc != Idle;
    }
  }

  lemma {:induction false} RunInv(t: Tty, acts: seq<Act>)
    requires Inv(t) && LegalRun(t, acts)
    ensures Inv(Run(t, acts))
    decreases |acts|
  {
    if acts == [] {
    } else {
      StepInv(t, acts[0]);
      RunInv(Step(t, acts[0]), acts[1..]);
    }
  }

  /** A process comes out of its call exactly when tty_write, outside an escape sequence, finds the buffer empty, and by no
      step of another one. */
  lemma LeavesExactly(t: Tty, a: Act, p: nat)
    requires Core(t) && Enabled(t, a) && p < |t.procs| && t.procs[p].pc != Idle
    ensures Step(t, a).procs[p].pc == Idle <==> a == DoGet(p, false) && t.fifo == []
  {
    hide By, Bytes, Owed;
    if a.DoSemNotify? && t.waiters != [] {
      assert t.waiters[0] in t.waiters;
    }
  }

  /** And an escape sequence that the buffer cuts short, like a byte whose permit has been given back, leads back to the
      loop of tty_write. */
  lemma StaysInside(t: Tty, p: nat)
    requires Core(t) && p < |t.procs|
    ensures t.procs[p].pc == Draining && t.fifo == [] ==> Step(t, DoGet(p, true)) == t
    ensures t.procs[p].pc == Taken ==> Step(t, DoSemNotify(p)).procs[p].pc == Draining
  {
    hide By, Bytes, Owed;
    if t.waiters != [] {
      assert t.waiters[0] in t.waiters;
    }
  }

  // ---- over every run of every number of processes

  /** From dev_tty_open on, no process ever takes the full branch of tty_fifo_put. */
  lemma NeverFull(n: nat, acts: seq<Act>, p: nat)
    requires LegalRun(Opened(n), acts)
    ensures var t := Run(Opened(n), acts);
      p < |t.procs| && Enabled(t, DoPut(p)) ==> FifoPut(t.fifo, OBUF_SIZE, t.procs[p].todo[0]).1 == 0
  {
    OpenedInv(n);
    RunInv(Opened(n), acts);
    var t := Run(Opened(n), acts);
    if p < |t.procs| && Enabled(t, DoPut(p)) {
      RoomForHolder(t, p);
    }
  }

  /** Bytes leave in the order they were put, and each writer's bytes are put in its own order without loss; a process
      that has left the put loop has put all it issued. */
  lemma NothingLost(n: nat, acts: seq<Act>, p: nat)
    requires LegalRun(Opened(n), acts)
    ensures var t := Run(Opened(n), acts);
      t.shown + t.fifo == Bytes(t.log) && (p < |t.procs| ==> By(t.log, p) + t.procs[p].todo == t.issued[p])
    ensures var t := Run(Opened(n), acts);
      p < |t.procs| && t.procs[p].pc in {Idle, Draining, Taken} ==> By(t.log, p) == t.issued[p]
  {
    OpenedInv(n);
    RunInv(Opened(n), acts);
    var t := Run(Opened(n), acts);
    if p < |t.procs| {
      assert WriterOk(t.procs[p], By(t.log, p), t.issued[p]);
    }
  }

  /** No wakeup is lost: while somebody waits, all permits are in the buffer or owed by running processes, and the next
      notification releases the first waiter with a permit. */
  lemma NoLostWakeup(t: Tty, p: nat, q: nat)
    requires Inv(t) && p < |t.procs| && t.procs[p].pc == Blocked
    ensures t.counter == 0 && |t.fifo| + Owed(t.procs) == OBUF_SIZE && p in t.waiters
    ensures Enabled(t, DoSemNotify(q)) ==>
      var r := Step(t, DoSemNotify(q));
      r.waiters == t.waiters[1..] && r.procs[t.waiters[0]].pc == Holding && r.counter == 0
  {
    assert p in t.waiters;
  }

  /** When everybody has returned, all that was put has been shown, and every permit is free again. */
  lemma AllShown(n: nat, acts: seq<Act>)
    requires LegalRun(Opened(n), acts)
    requires forall x | x in Run(Opened(n), acts).procs :: x.pc == Idle
    ensures var t := Run(Opened(n), acts);
      t.fifo == [] && t.shown == Bytes(t.log) && t.counter == OBUF_SIZE && t.waiters == []
  {
    OpenedInv(n);
    RunInv(Opened(n), acts);
    NoneOwed(Run(Opened(n), acts).procs);
  }

  // ---- the two loops themselves, run without interruption

  class Output {
    const ofifo: Fifo
    // osem.counter; nobody waits.
    var permits: nat

    // The output half of dev_tty_open.
    constructor (obuf: array<bv8>)
      ensures permits == obuf.Length && ofifo.buf == obuf && fresh(ofifo) && ofifo.Valid() && ofifo.Contents() == []
    {
      ofifo := new Fifo(obuf);
      permits := obuf.Length;
    }

    /** dev_tty_write on its own. It stays in sem_wait when the permits run out: by then as many bytes are in the buffer
        as there were permits, and nothing has been shown. Otherwise everything waiting, then the new bytes, is shown in
        order; the buffer is empty and all permits are free. */
    method Write(data: seq<bv8>) returns (shown: seq<bv8>, blocked: bool)
      requires ofifo.Valid() && permits + ofifo.count == ofifo.size
      modifies this, ofifo, ofifo.buf
      ensures ofifo.Valid() && ofifo.buf == old(ofifo.buf) && permits + ofifo.count == ofifo.size
      ensures blocked <==> |data| > old(permits)
      ensures blocked ==> shown == [] && permits == 0 && ofifo.Contents() == old(ofifo.Contents()) + data[..old(permits)]
      ensures !blocked && data != [] ==> shown == old(ofifo.Contents()) + data && ofifo.Contents() == []
      ensures data == [] ==> shown == [] && ofifo.Contents() == old(ofifo.Contents()) && permits == old(permits)
    {
      if |data| <= 0 {
        return [], false;
      }
      ghost var was := ofifo.Contents();
      var i: nat := 0;
      while i < |data|
        invariant i <= |data| && ofifo.Valid() && ofifo.Contents() == was + data[..i] && permits == old(permits) - i
        invariant ofifo.buf == old(ofifo.buf) && ofifo.size == old(ofifo.size)
      {
        if permits <= 0 {
          return [], true;
        }
        permits := permits - 1;
        var err := ofifo.PutByte(data[i]);
        if err < 0 {
          break;
        }
        i := i + 1;
      }
      assert data[..|data|] == data;
      shown := Drain();
      blocked := false;
    }

    // tty_write
    method Drain() returns (shown: seq<bv8>)
      requires ofifo.Valid()
      modifies this, ofifo
      ensures ofifo.Valid() && ofifo.buf == old(ofifo.buf) && ofifo.size == old(ofifo.size)
      ensures shown == old(ofifo.Contents()) && ofifo.Contents() == [] && permits == old(permits) + |shown|
    {
      shown := [];
      ghost var was := ofifo.Contents();
      hide Fifo.Contents, Fifo.Valid;
      while true
        invariant ofifo.Valid() && ofifo.buf == old(ofifo.buf) && ofifo.size == old(ofifo.size)
        invariant |shown| <= |was| && shown == was[..|shown|] && ofifo.Contents() == was[|shown|..]
        invariant permits == old(permits) + |shown|
        decreases |was| - |shown|
      {
        var err, c := ofifo.GetByte(0);
        if err < 0 {
          break;
        }
        permits := permits + 1;
        shown := shown + [c];
      }
    }
  }
}
