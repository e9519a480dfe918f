/**
 How far `snd_una` may be: it can pass the peer's `rcv_nxt`, but only while the peer's receive
 queue is full and the segment that is next in order waits in its buffer.
 */
module KcpAhead {
  import opened KcpMachine
  import opened KcpPair
  import opened KcpTheorems
  import opened KcpWrap

  /** Nothing in the buffer could be moved to the queue. */
  predicate Settled(r: ReceiveSide, wnd: U16) {
    r.buf == [] || r.buf[0].sn != r.nxt || |r.queue| >= wnd
  }

  lemma {:induction false} MoveBufSettles(num: Numbering, wnd: U16, r: ReceiveSide)
    ensures Settled(MoveBuf(num, wnd, r), wnd)
    decreases |r.buf|
  {
    if r.buf != [] && r.buf[0].sn == r.nxt && |r.queue| < wnd {
      MoveBufSettles(num, wnd, r.(
        nxt := Advance(num, r.nxt, 1), queue := r.queue + [r.buf[0].fragment], buf := r.buf[1..]));
    } else {
      assert MoveBuf(num, wnd, r) == r;
    }
  }

  lemma AcceptSettles(num: Numbering, wnd: U16, r: ReceiveSide, seg: Segment)
    requires Settled(r, wnd)
    ensures Settled(Accept(num, wnd, r, seg), wnd)
  {
    var t := r.(acks := r.acks + [Ack(seg.sn, seg.ts)]);
    MoveBufSettles(num, wnd, t.(buf := Insert(num, t.buf, Numbered(seg.sn, Fragment(seg.frg, seg.data)))));
  }

  lemma {:induction false} InputSettles(num: Numbering, s: State, packet: seq<Segment>)
    requires Settled(s.rcv, s.params.rcvWnd)
    ensures InputAll(num, s, packet).params == s.params
    ensures Settled(InputAll(num, s, packet).rcv, s.params.rcvWnd)
    decreases |packet|
  {
    if packet == [] {
      assert InputAll(num, s, packet) == s;
    } else {
      AcceptSettles(num, s.params.rcvWnd, s.rcv, packet[0]);
      InputSettles(num, InputSegment(num, s, packet[0]), packet[1..]);
    }
  }

  lemma ActSettles(num: Numbering, me: Node, peer: Node, action: Action)
    requires me.kcp.params.Valid() && Settled(me.kcp.rcv, me.kcp.params.rcvWnd)
    ensures var t := Act(num, me, peer, action);
            t.kcp.params == me.kcp.params && Settled(t.kcp.rcv, t.kcp.params.rcvWnd)
  {
    match action
    case Submit(_) =>
    case Flush(_, _, _) =>
    case Deliver(index) => if index < |peer.out| { InputSettles(num, me.kcp, peer.out[index]); }
    case Drain =>
      MoveBufSettles(num, me.kcp.params.rcvWnd,
        me.kcp.rcv.(queue := me.kcp.rcv.queue[MessageEnd(me.kcp.rcv.queue)..]));
  }

  lemma {:induction false} RunSettles(num: Numbering, pa: Params, pb: Params, moves: seq<Move>, n: nat)
    requires pa.Valid() && pb.Valid() && n <= |moves|
    ensures var p := Run(num, pa, pb, moves, n);
            Settled(p.a.kcp.rcv, pa.rcvWnd) && Settled(p.b.kcp.rcv, pb.rcvWnd)
  {
    if n == 0 {
      assert Run(num, pa, pb, moves, n) == Pair(Start(pa), Start(pb));
    } else {
      RunSettles(num, pa, pb, moves, n - 1);
      var p := Run(num, pa, pb, moves, n - 1);
      ActSettles(num, p.a, p.b, moves[n - 1].action);
      ActSettles(num, p.b, p.a, moves[n - 1].action);
    }
  }

  /** The peer's queue is full, and the next segment waits behind it. */
  predicate Clogged(r: ReceiveSide, wnd: U16) {
    |r.queue| == wnd && r.buf != [] && r.buf[0].sn == r.nxt
  }

  /** Nothing up to the number that the peer waits for is still to be acknowledged. */
  predicate AcknowledgedTo(s: SendSide, n: nat) { s.buf == [] || s.buf[0].sn > n }

  lemma AheadIff(x: Node, y: Node)
    requires Link(x, y) && Settled(y.kcp.rcv, y.kcp.params.rcvWnd)
    ensures x.kcp.snd.una > y.kcp.rcv.nxt
      <==> Clogged(y.kcp.rcv, y.kcp.params.rcvWnd) && AcknowledgedTo(x.kcp.snd, y.kcp.rcv.nxt)
  {
    var s, r := x.kcp.snd, y.kcp.rcv;
    if s.una > r.nxt {
      assert Kept(s, r, r.nxt);
    }
  }

  /**
   In every run, of either node: the sender's `una` passes the peer's `nxt` only while the peer's
   receive queue is full and the next segment waits behind it, so never while the peer has room.
   Then it has passed exactly if that segment was acknowledged on its own.
   */
  lemma UnaAheadIff(pa: Params, pb: Params, moves: seq<Move>, atA: bool)
    requires pa.Valid() && pb.Valid() && Timely(pa, pb, moves)
    ensures var q := Run(Unbounded, pa, pb, moves, |moves|);
            var s, y := q.Me(atA).kcp.snd, q.Peer(atA).kcp;
            && Run(Wrapping, pa, pb, moves, |moves|) == WrapPair(q)
            && (s.una > y.rcv.nxt ==> Clogged(y.rcv, y.params.rcvWnd))
            && (Clogged(y.rcv, y.params.rcvWnd) ==> (s.una > y.rcv.nxt <==> AcknowledgedTo(s, y.rcv.nxt)))
  {
    WrappingRefinesUnbounded(pa, pb, moves, |moves|);
    RunKeepsInv(pa, pb, moves, |moves|);
    RunSettles(Unbounded, pa, pb, moves, |moves|);
    var q := Run(Unbounded, pa, pb, moves, |moves|);
    AheadIff(q.Me(atA), q.Peer(atA));
  }

  // ------------------------------------------------------------------ a run in which it happens

  const A: Params := Params(7, 100, 2, 2)
  const B: Params := Params(7, 100, 2, 1)
  const ONE: Fragment := Fragment(0, [1])
  const TWO: Fragment := Fragment(0, [2])
  const FLUSH: Action := Flush(0, {}, false)

  /** Two messages of one byte arrive in one packet, at a peer with a window of one; both are acknowledged. */
  const MOVES: seq<Move> := [
    Move(true, Submit([1])), Move(true, Submit([2])), Move(true, FLUSH),
    Move(false, Deliver(0)), Move(false, FLUSH), Move(true, Deliver(0))]

  const DATA: seq<Segment> := [Segment(7, CMD_PUSH, 0, 2, 0, 0, 0, [1]), Segment(7, CMD_PUSH, 0, 2, 0, 1, 0, [2])]
  const ACKS: seq<Segment> := [Segment(7, CMD_ACK, 0, 0, 0, 0, 1, []), Segment(7, CMD_ACK, 0, 0, 0, 1, 1, [])]

  /** The sender with these fragments queued and these in flight; it has received nothing. */
  function SenderWith(s: SendSide, wnd: U16, out: seq<seq<Segment>>, sent: seq<Message>): Node {
    Node(State(A, s, ReceiveSide(0, [], [], []), wnd, false, false), out, sent, [])
  }

  function PeerWith(r: ReceiveSide, wnd: U16, out: seq<seq<Segment>>): Node {
    Node(State(B, SendSide(0, 0, [], []), r, wnd, false, false), out, [], [])
  }

  lemma TwoInOnePacket(x: Segment, y: Segment)
    requires SegmentSize(x) + SegmentSize(y) <= 100
    ensures Pack(100, [x, y]) == [[x, y]]
  {
    assert [x, y][..1] == [x] && [x][..0] == [];
    assert Size([x]) == SegmentSize(x);
    assert PutAll(100, [x, y], 1) == Packer([], [x]);
    assert PutAll(100, [x, y], 2) == Packer([], [x, y]);
  }

  lemma Submits(a: Node)
    requires a == Start(A)
    ensures Act(Wrapping, Act(Wrapping, a, a, Submit([1])), a, Submit([2]))
      == SenderWith(SendSide(0, 0, [ONE, TWO], []), 2, [], [[1], [2]])
  {
    assert Act(Wrapping, a, a, Submit([1])).kcp.snd.queue == [ONE];
  }

  lemma Fills()
    ensures FillWindow(Wrapping, SendSide(0, 0, [ONE, TWO], []), 2)
      == SendSide(0, 2, [], [Sent(0, ONE, false), Sent(1, TWO, false)])
  {
    var s := SendSide(0, 1, [TWO], [Sent(0, ONE, false)]);
    var t := SendSide(0, 2, [], [Sent(0, ONE, false), Sent(1, TWO, false)]);
    assert [ONE, TWO][1..] == [TWO] && [TWO][1..] == [];
    assert SendSide(0, 0, [ONE, TWO], []).buf + [Sent(0, ONE, false)] == s.buf;
    assert FillWindow(Wrapping, SendSide(0, 0, [ONE, TWO], []), 2) == FillWindow(Wrapping, s, 2);
    assert FillWindow(Wrapping, s, 2) == FillWindow(Wrapping, t, 2);
  }

  lemma Sends(a: Node)
    requires a == SenderWith(SendSide(0, 0, [ONE, TWO], []), 2, [], [[1], [2]])
    ensures Act(Wrapping, a, a, FLUSH)
      == SenderWith(SendSide(0, 2, [], [Sent(0, ONE, true), Sent(1, TWO, true)]), 2, [DATA], [[1], [2]])
  {
    Fills();
    var h, buf := FlushHeader(a.kcp), [Sent(0, ONE, false), Sent(1, TWO, false)];
    assert DataSegments(h, 0, buf, 1, {}) == DATA[..1];
    assert DataSegments(h, 0, buf, 2, {}) == DATA;
    assert Emitted(Wrapping, a.kcp, 0, {}, false) == DATA;
    TwoInOnePacket(DATA[0], DATA[1]);
    assert MarkTransmitted(buf) == [Sent(0, ONE, true), Sent(1, TWO, true)];
  }

  /** The first message is queued, which fills the queue; the second waits in the buffer. */
  lemma Takes(a: Node, b: Node)
    requires a.out == [DATA] && b == Start(B)
    ensures Act(Wrapping, b, a, Deliver(0))
      == PeerWith(ReceiveSide(1, [Numbered(1, TWO)], [ONE], [Ack(0, 0), Ack(1, 0)]), 2, [])
  {
    var r0 := ReceiveSide(0, [], [], []);
    var r1 := ReceiveSide(1, [], [ONE], [Ack(0, 0)]);
    var r2 := ReceiveSide(1, [Numbered(1, TWO)], [ONE], [Ack(0, 0), Ack(1, 0)]);
    var t := ReceiveSide(0, [Numbered(0, ONE)], [], [Ack(0, 0)]);
    assert r0.acks + [Ack(0, 0)] == t.acks;
    assert Insert(Wrapping, r0.buf, Numbered(0, ONE)) == t.buf;
    assert MoveBuf(Wrapping, 1, t) == MoveBuf(Wrapping, 1, r1) == r1;
    assert Accept(Wrapping, 1, r0, DATA[0]) == r1;
    assert Insert(Wrapping, [], Numbered(1, TWO)) == [Numbered(1, TWO)];
    assert Accept(Wrapping, 1, r1, DATA[1]) == r2;
    var s1 := InputSegment(Wrapping, b.kcp, DATA[0]);
    var s2 := InputSegment(Wrapping, s1, DATA[1]);
    assert DATA[1..] == [DATA[1]] && DATA[1..][1..] == [];
    assert InputAll(Wrapping, s2, []) == s2;
    assert InputAll(Wrapping, s1, DATA[1..]) == s2;
  }

  lemma Answers(b: Node)
    requires b == PeerWith(ReceiveSide(1, [Numbered(1, TWO)], [ONE], [Ack(0, 0), Ack(1, 0)]), 2, [])
    ensures Act(Wrapping, b, b, FLUSH) == PeerWith(ReceiveSide(1, [Numbered(1, TWO)], [ONE], []), 2, [ACKS])
  {
    var h := FlushHeader(b.kcp);
    assert Filled(Wrapping, b.kcp) == b.kcp.snd;
    assert AckSegments(h, b.kcp.rcv.acks) == ACKS;
    assert Emitted(Wrapping, b.kcp, 0, {}, false) == ACKS;
    TwoInOnePacket(ACKS[0], ACKS[1]);
    assert MarkTransmitted(b.kcp.snd.buf) == [];
  }

  /** Both acknowledgements arrive; the header of the first covers it, the second names its segment. */
  lemma Learns(a: Node, b: Node)
    requires a == SenderWith(SendSide(0, 2, [], [Sent(0, ONE, true), Sent(1, TWO, true)]), 2, [DATA], [[1], [2]])
    requires b.out == [ACKS]
    ensures Act(Wrapping, a, b, Deliver(0)).kcp.snd == SendSide(2, 2, [], [])
  {
    var x0, x1 := a.kcp.snd, SendSide(1, 2, [], [Sent(1, TWO, true)]);
    assert x0.buf[1..] == x1.buf && x1.buf[1..] == [];
    assert DropAcked(Wrapping, x1.buf, 1) == x1.buf;
    assert DropAcked(Wrapping, x0.buf, 1) == x1.buf;
    assert Acknowledge(Wrapping, x0, ACKS[0]) == x1;
    assert RemoveAcked(x1.buf, 1) == [];
    assert Acknowledge(Wrapping, x1, ACKS[1]) == SendSide(2, 2, [], []);
    var s1 := InputSegment(Wrapping, a.kcp, ACKS[0]);
    var s2 := InputSegment(Wrapping, s1, ACKS[1]);
    assert ACKS[1..] == [ACKS[1]] && ACKS[1..][1..] == [];
    assert InputAll(Wrapping, s2, []) == s2;
    assert InputAll(Wrapping, s1, ACKS[1..]) == s2;
  }

  lemma OneMore(n: nat)
    requires n < |MOVES|
    ensures Run(Wrapping, A, B, MOVES, n + 1) == Step(Wrapping, Run(Wrapping, A, B, MOVES, n), MOVES[n])
  {
  }

  /** The sender knows of two segments that the peer has, and the peer waits for the second. */
  lemma UnaRunsAhead()
    ensures var p := Run(Wrapping, A, B, MOVES, |MOVES|);
            p.a.kcp.snd.una == 2 && p.b.kcp.rcv.nxt == 1
  {
    var a, b := Start(A), Start(B);
    assert Run(Wrapping, A, B, MOVES, 0) == Pair(a, b);
    OneMore(0);
    OneMore(1);
    Submits(a);
    var a2 := Act(Wrapping, Act(Wrapping, a, b, Submit([1])), b, Submit([2]));
    assert Run(Wrapping, A, B, MOVES, 2) == Pair(a2, b);
    OneMore(2);
    Sends(a2);
    var a3 := Act(Wrapping, a2, b, FLUSH);
    OneMore(3);
    Takes(a3, b);
    var b4 := Act(Wrapping, b, a3, Deliver(0));
    OneMore(4);
    Answers(b4);
    var b5 := Act(Wrapping, b4, a3, FLUSH);
    OneMore(5);
    Learns(a3, b5);
  }
}
