/** Sequence and acknowledgment numbers of src/kernel32/netx/tcp.c: a client and a server, both running this code, over
    a reliable channel that keeps order. */
module TcpSequence {
  import opened Wrappers

  const WRAP: nat := 0x1_0000_0000

  datatype State = Closed | SynSent | SynReceived | Established | FinWait1 | FinWait2 | CloseWait | LastAck | TimeWait

  datatype Kind = Client | Server

  // socket_t: the fields the sequence numbers depend on.
  datatype Sock = Sock(seq_: nat, ack: nat, state: State, kind: Kind)

  datatype Flag = Syn | SynAck | Ack | PshAck

  // A segment: its flags and numbers, total_len of the IP header, offset in 32-bit words. IP headers are 20 bytes.
  datatype Segment = Segment(flag: Flag, seq_: nat, ack: nat, totalLen: nat, offset: nat)

  // ---- the functions of tcp.c on values

  // tcp_syn, with the random initial number x
  function TcpSyn(s: Sock, x: nat): (Sock, Segment) {
    (s.(seq_ := x, state := SynSent), Segment(Syn, x, 0, 40, 5))
  }

  // tcp_synack, with the random initial number y: seq goes out before it is incremented
  function TcpSynAck(s: Sock, p: Segment, y: nat): (Sock, Segment) {
    var ack := (p.seq_ + 1) % WRAP;
    (s.(seq_ := (y + 1) % WRAP, ack := ack, state := SynReceived), Segment(SynAck, y, ack, 44, 6))
  }

  // tcp_build: the socket does not change, and total_len has 16 bits
  function TcpBuild(s: Sock, n: nat): Segment {
    Segment(PshAck, s.seq_, s.ack, (40 + n) % 0x1_0000, 5)
  }

  // The acknowledgment number after tcp_ack has seen p.
  function AckAfter(s: Sock, p: Segment): nat {
    match p.flag
    case SynAck => (p.seq_ + 1) % WRAP
    case PshAck => (s.ack + p.totalLen - (20 + 4 * p.offset)) % WRAP
    case _ => s.ack
  }

  function StateAfterAck(s: Sock): State {
    match (s.kind, s.state)
    case (Client, SynSent) => Established
    case (Client, FinWait1) => FinWait2
    case (Client, FinWait2) => TimeWait
    case (Server, Established) => CloseWait
    case (Server, LastAck) => Closed
    case _ => s.state
  }

  // tcp_ack: the segment goes back with the numbers swapped; only an acknowledged SYN or PSH overwrites ack_num
  function TcpAck(s: Sock, p: Segment): (Sock, Segment) {
    var ack := AckAfter(s, p);
    (s.(seq_ := p.ack, ack := ack, state := StateAfterAck(s)),
     Segment(Ack, p.ack, if p.flag == SynAck || p.flag == PshAck then ack else p.ack, 40, 5))
  }

  // The branch for a plain ACK, the same for both kinds of port.
  function PlainAck(s: Sock, p: Segment): Sock {
    match s.state
    case FinWait1 => s.(state := FinWait2)
    case SynReceived => s.(state := Established)
    case Established => s.(ack := p.seq_, seq_ := p.ack)
    case _ => s
  }

  // tcp_input for the segments above: a client's port is up, a server's listens.
  function TcpInput(s: Sock, p: Segment, y: nat): (Sock, Option<Segment>) {
    match (s.kind, p.flag)
    case (Client, SynAck) => var (r, q) := TcpAck(s, p); (r, Some(q))
    case (_, PshAck) => var (r, q) := TcpAck(s, p); (r, Some(q))
    case (Server, Syn) => var (r, q) := TcpSynAck(s, p, y); (r, Some(q))
    case (_, Ack) => (PlainAck(s, p), None)
    case _ => (s, None)
  }

  // ---- the socket, updated in place

  class Socket {
    var seq_: nat
    var ack: nat
    var state: State
    const kind: Kind

    constructor (kind: Kind)
      ensures View() == Sock(0, 0, Closed, kind)
    {
      this.kind := kind;
      seq_, ack, state := 0, 0, Closed;
    }

    function View(): Sock
      reads this
    {
      Sock(seq_, ack, state, kind)
    }

    method SendSyn(x: nat) returns (p: Segment)
      modifies this
      ensures (View(), p) == TcpSyn(old(View()), x)
    {
      seq_ := x;
      p := Segment(Syn, seq_, 0, 40, 5);
      state := SynSent;
    }

    method SendSynAck(p: Segment, y: nat) returns (q: Segment)
      modifies this
      ensures (View(), q) == TcpSynAck(old(View()), p, y)
    {
      var seqNum := p.seq_;
      seq_ := y;
      ack := (seqNum + 1) % WRAP;
      q := Segment(SynAck, seq_, ack, 44, 6);
      seq_ := (seq_ + 1) % WRAP;
      state := SynReceived;
    }

    method SendAck(p: Segment) returns (q: Segment)
      modifies this
      ensures (View(), q) == TcpAck(old(View()), p)
    {
      q := p;
      var packSeqNum := q.seq_;
      q := q.(seq_ := q.ack);
      seq_ := q.seq_;
      if p.flag == SynAck {
        ack := (packSeqNum + 1) % WRAP;
        q := q.(ack := ack);
      } else if p.flag == PshAck {
        var hlen := 20 + q.offset * 4;
        ack := (ack + q.totalLen - hlen) % WRAP;
        q := q.(ack := ack);
      }
      q := q.(flag := Ack, totalLen := 40, offset := 5);
      if kind == Client {
        if state == SynSent {
          state := Established;
        } else if state == FinWait1 {
          state := FinWait2;
        } else if state == FinWait2 {
          state := TimeWait;
        }
      } else {
        if state == Established {
          state := CloseWait;
        } else if state == LastAck {
          state := Closed;
        }
      }
    }

    method Input(p: Segment, y: nat) returns (reply: Option<Segment>)
      modifies this
      ensures (View(), reply) == TcpInput(old(View()), p, y)
    {
      reply := None;
      if p.flag == PshAck || (kind == Client && p.flag == SynAck) {
        var q := SendAck(p);
        reply := Some(q);
      } else if kind == Server && p.flag == Syn {
        var q := SendSynAck(p, y);
        reply := Some(q);
      } else if p.flag == Ack {
        if state == FinWait1 {
          state := FinWait2;
        } else if state == SynReceived {
          state := Established;
        } else if state == Established {
          ack := p.seq_;
          seq_ := p.ack;
        }
      }
    }
  }

  // ---- client, server and channel

  /** isn is the client's initial number, sent the number of bytes it has sent so far. */
  datatype Net = Net(client: Sock, server: Sock, toServer: seq<Segment>, toClient: seq<Segment>, isn: nat, sent: nat)

  datatype Op =
    | Connect(x: nat)
    | Send(n: nat)
    | AtServer(y: nat)
    | AtClient

  predicate Quiet(t: Net) { t.toServer == [] && t.toClient == [] }

  /** At most one client segment is unacknowledged, no segment is longer than total_len can say, and the initial numbers
      have 32 bits. */
  predicate Enabled(t: Net, op: Op) {
    match op
    case Connect(x) => x < WRAP && Quiet(t) && t.client.state == Closed && t.server.state == Closed
    case Send(n) => n <= 65495 && Quiet(t) && t.client.state == Established
    case AtServer(y) => y < WRAP && t.toServer != []
    case AtClient => t.toClient != []
  }

  function Deliver(reply: Option<Segment>): seq<Segment> {
    match reply
    case None => []
    case Some(q) => [q]
  }

  function Step(t: Net, op: Op): Net
    requires Enabled(t, op)
  {
    match op
    case Connect(x) =>
      var (s, p) := TcpSyn(t.client, x);
      t.(client := s, toServer := t.toServer + [p], isn := x, sent := 0)
    case Send(n) => t.(toServer := t.toServer + [TcpBuild(t.client, n)], sent := t.sent + n)
    case AtServer(y) =>
      var (s, reply) := TcpInput(t.server, t.toServer[0], y);
      t.(server := s, toServer := t.toServer[1..], toClient := t.toClient + Deliver(reply))
    case AtClient =>
      var (s, reply) := TcpInput(t.client, t.toClient[0], 0);
      t.(client := s, toClient := t.toClient[1..], toServer := t.toServer + Deliver(reply))
  }

  predicate LegalRun(t: Net, ops: seq<Op>)
    decreases |ops|
  {
    ops != [] ==> Enabled(t, ops[0]) && LegalRun(Step(t, ops[0]), ops[1..])
  }

  function Run(t: Net, ops: seq<Op>): Net
    requires LegalRun(t, ops)
    decreases |ops|
  {
    if ops == [] then t else Run(Step(t, ops[0]), ops[1..])
  }

  function Start(): Net {
    Net(Sock(0, 0, Closed, Client), Sock(0, 0, Closed, Server), [], [], 0, 0)
  }

  // ---- agreement

  /** The client's next number is the one the server expects, and the other way round. */
  predicate Agree(t: Net) { t.client.seq_ == t.server.ack && t.client.ack == t.server.seq_ }

  // The client's number once all it has sent is acknowledged.
  function Expected(t: Net): nat { (t.isn + 1 + t.sent) % WRAP }

  // What can be in flight, and the numbers that go with it.
  ghost predicate Handshake(t: Net) {
    && t.sent == 0 && t.isn < WRAP
    && ((Quiet(t) && t.client.state == Closed && t.server.state == Closed)
        || (t.toServer == [Segment(Syn, t.isn, 0, 40, 5)] && t.toClient == [] && t.client.state == SynSent
            && t.server.state == Closed)
        || (t.toServer == [] && |t.toClient| == 1 && t.toClient[0].flag == SynAck && t.client.state == SynSent
            && t.server.state == SynReceived && t.server.ack == t.toClient[0].ack == Expected(t)
            && t.server.seq_ == (t.toClient[0].seq_ + 1) % WRAP)
        || (|t.toServer| == 1 && t.toServer[0].flag == Ack && t.toClient == [] && t.client.state == Established
            && t.server.state == SynReceived && Agree(t) && t.client.seq_ == Expected(t)))
  }

  ghost predicate Open(t: Net) {
    && t.client.state == Established && (t.server.state == Established || t.server.state == CloseWait)
    && t.server.seq_ == t.client.ack
    && ((Quiet(t) && Agree(t) && t.client.seq_ == Expected(t))
        || (|t.toServer| == 1 && t.toClient == [] && Agree(t) && Flying(t, t.toServer[0]))
        || (t.toServer == [] && t.toClient == [Segment(Ack, t.server.seq_, t.server.ack, 40, 5)]
            && t.server.ack == Expected(t)))
  }

  // A data segment of the client on its way.
  ghost predicate Flying(t: Net, p: Segment) {
    && p.flag == PshAck && p.seq_ == t.client.seq_ && p.ack == t.client.ack && p.offset == 5 && 40 <= p.totalLen
    && (t.client.seq_ + p.totalLen - 40) % WRAP == Expected(t)
  }

  ghost predicate Inv(t: Net) {
    && t.client.kind == Client && t.server.kind == Server && t.client.ack < WRAP && t.server.seq_ < WRAP
    && (Handshake(t) || Open(t))
  }

  lemma SendInv(t: Net, n: nat)
    requires Inv(t) && Enabled(t, Send(n))
    ensures Inv(Step(t, Send(n)))
  {
    var r := Step(t, Send(n));
    assert r.toServer == [TcpBuild(t.client, n)];
    Advance(t.isn + 1 + t.sent, n);
  }

  lemma Advance(a: nat, n: int)
    ensures (a % WRAP + n) % WRAP == (a + n) % WRAP
  {
  }

  lemma DeliverInv(t: Net, op: Op)
    requires Inv(t) && Enabled(t, op) && (op.AtServer? || op.AtClient?)
    ensures Inv(Step(t, op))
  {
  }

  lemma StepInv(t: Net, op: Op)
    requires Inv(t) && Enabled(t, op)
    ensures Inv(Step(t, op))
  {
    match op
    case Connect(x) => assert Step(t, op).toServer == [Segment(Syn, x, 0, 40, 5)];
    case Send(n) => SendInv(t, n);
    case _ => DeliverInv(t, op);
  }

  lemma {:induction false} RunInv(t: Net, ops: seq<Op>)
    requires Inv(t) && LegalRun(t, ops)
    ensures Inv(Run(t, ops))
    decreases |ops|
  {
    if ops == [] {
    } else {
      StepInv(t, ops[0]);
      RunInv(Step(t, ops[0]), ops[1..]);
    }
  }

  /** Over every run: whenever nothing is in flight after the handshake, the two ends agree, and the client has advanced
      by exactly the bytes it sent, modulo 2^32. */
  lemma AgreeWhenQuiet(ops: seq<Op>)
    requires LegalRun(Start(), ops)
    ensures var t := Run(Start(), ops);
      Quiet(t) && t.client.state != Closed ==> Agree(t) && t.client.seq_ == t.server.ack == Expected(t)
  {
    RunInv(Start(), ops);
  }

  /** One acknowledged data segment of any length its sender can ask for: the numbers agree afterwards, and the first pair
      has advanced by n exactly when the length fits total_len. */
  lemma ExchangeExactly(t: Net, n: nat, y: nat)
    requires Inv(t) && Quiet(t) && t.client.state == Established && n < 0x1_0000
    ensures var p := TcpBuild(t.client, n);
      var (server, q) := TcpInput(t.server, p, y);
      q.Some? &&
      var client := TcpInput(t.client, q.value, y).0;
      && client.seq_ == server.ack && client.ack == server.seq_ == t.client.ack
      && (client.seq_ == (t.client.seq_ + n) % WRAP <==> n <= 65495)
  {
  }

  /** Data from the server: the client's acknowledgment moves the client, but a server that has already received data is
      in CLOSE_WAIT and ignores the plain ACK. The two ends agree again exactly when the server is still in ESTABLISHED,
      or the segment was empty. */
  lemma ServerDataExactly(t: Net, n: nat, y: nat)
    requires Inv(t) && Quiet(t) && t.client.state == Established && n <= 65495
    ensures var p := TcpBuild(t.server, n);
      var (client, q) := TcpInput(t.client, p, y);
      q.Some? &&
      var server := TcpInput(t.server, q.value, y).0;
      (client.seq_ == server.ack && client.ack == server.seq_) <==> (t.server.state == Established || n == 0)
  {
    var p := TcpBuild(t.server, n);
    var (client, q) := TcpInput(t.client, p, y);
    assert client == Sock(t.server.ack, (t.client.ack + n) % WRAP, Established, Client);
    assert q == Some(Segment(Ack, t.server.ack, client.ack, 40, 5));
    assert n != 0 ==> client.ack != t.client.ack;
  }

  // ---- the state of the server

  function Sends(ops: seq<Op>): nat {
    if ops == [] then 0 else Sends(ops[1..]) + if ops[0].Send? then 1 else 0
  }

  // k data segments have been sent: the server has received all of them, or all but the one in flight.
  ghost predicate Counted(t: Net, k: nat) {
    && (Handshake(t) && t.server.state != CloseWait && t.server.state != Established ==> k == 0)
    && (t.client.state == Established && t.server.state != SynReceived ==>
          k >= |t.toServer| && (t.server.state == CloseWait <==> k > |t.toServer|)
          && (t.server.state == Established || t.server.state == CloseWait))
  }

  lemma StepCounted(t: Net, op: Op, k: nat)
    requires Inv(t) && Enabled(t, op) && Counted(t, k)
    ensures Counted(Step(t, op), if op.Send? then k + 1 else k)
  {
    if op.Send? {
      assert Step(t, op).toServer == [TcpBuild(t.client, op.n)];
    }
  }

  lemma {:induction false} RunCounted(t: Net, ops: seq<Op>, k: nat)
    requires Inv(t) && LegalRun(t, ops) && Counted(t, k)
    ensures Counted(Run(t, ops), k + Sends(ops))
    decreases |ops|
  {
    hide Counted, Step, Enabled, Inv;
    if ops == [] {
    } else {
      StepInv(t, ops[0]);
      StepCounted(t, ops[0], k);
      RunCounted(Step(t, ops[0]), ops[1..], if ops[0].Send? then k + 1 else k);
    }
  }

  /** Over every run: when nothing is in flight after the handshake, the server has left ESTABLISHED, for CLOSE_WAIT, exactly
      when it has received a data segment. */
  lemma CloseWaitExactly(ops: seq<Op>)
    requires LegalRun(Start(), ops)
    ensures var t := Run(Start(), ops);
      Quiet(t) && t.client.state == Established ==>
        if Sends(ops) > 0 then t.server.state == CloseWait else t.server.state == Established
  {
    RunInv(Start(), ops);
    RunCounted(Start(), ops, 0);
  }

  /** An acknowledging client goes from FIN_WAIT_1 over FIN_WAIT_2 to TIME_WAIT, a server from LAST_ACK to CLOSED; a plain
      ACK takes either from FIN_WAIT_1 to FIN_WAIT_2. */
  lemma ClosingStates(c: Sock, s: Sock, p: Segment, q: Segment)
    requires c.kind == Client && c.state == FinWait1 && s.kind == Server && s.state == LastAck
    ensures var c1 := TcpAck(c, p).0; c1.state == FinWait2 && TcpAck(c1, q).0.state == TimeWait
    ensures TcpAck(s, p).0.state == Closed
    ensures PlainAck(c, p) == c.(state := FinWait2) && PlainAck(s.(state := FinWait1), p) == s.(state := FinWait2)
  {
  }

  // The data a receiver takes a segment to carry.
  function DataLength(p: Segment): int { p.totalLen - 20 - 4 * p.offset }

  /** The lengths in the segments: SYN, SYN ACK with its option, and ACK carry no data, a data segment the bytes given, if
      they fit total_len. */
  lemma SegmentLengths(s: Sock, p: Segment, x: nat, n: nat)
    requires n <= 65495
    ensures DataLength(TcpSyn(s, x).1) == DataLength(TcpSynAck(s, p, x).1) == DataLength(TcpAck(s, p).1) == 0
    ensures DataLength(TcpBuild(s, n)) == n
    ensures TcpSyn(s, x).1.flag == Syn && TcpSynAck(s, p, x).1.flag == SynAck && TcpAck(s, p).1.flag == Ack
  {
  }
}
