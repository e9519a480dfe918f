/**
 Packets on the wire: in every run each is within the sender's MTU, made of whole
 segments, and parsed by the peer into exactly the segments that were emitted.
 */
module KcpPackets {
  import opened KcpMachine
  import opened KcpPair
  import opened KcpCodec
  import opened KcpSender
  import opened KcpWrap
  import opened KcpTheorems

  const TS_LIMIT: nat := 0x1_0000_0000

  /** A segment as node with parameters `params` writes it, apart from its two numbers. */
  ghost predicate TidySegment(params: Params, seg: Segment)
    requires params.Valid()
  {
    seg.conv == params.conv && KnownCmd(seg.cmd) && seg.ts < TS_LIMIT && |seg.data| <= params.Mss()
  }

  ghost predicate TidyPacket(params: Params, packet: seq<Segment>)
    requires params.Valid()
  {
    forall i :: 0 <= i < |packet| ==> TidySegment(params, packet[i])
  }

  ghost predicate TidyOut(params: Params, out: seq<seq<Segment>>)
    requires params.Valid()
  {
    forall k :: 0 <= k < |out| ==> TidyPacket(params, out[k]) && Fits(params.mtu, out[k])
  }

  ghost predicate SmallSegments(x: SendSide, mss: nat) {
    && (forall i :: 0 <= i < |x.queue| ==> |x.queue[i].data| <= mss)
    && (forall i :: 0 <= i < |x.buf| ==> |x.buf[i].fragment.data| <= mss)
  }

  ghost predicate TidyState(s: State)
    requires s.params.Valid()
  {
    && SmallSegments(s.snd, s.params.Mss())
    && (forall i :: 0 <= i < |s.rcv.acks| ==> s.rcv.acks[i].ts < TS_LIMIT)
  }

  ghost predicate Tidy(x: Node) {
    x.kcp.params.Valid() && TidyState(x.kcp) && TidyOut(x.kcp.params, x.out)
  }

  lemma {:induction false} FragmentsFit(mss: nat, message: Message)
    requires mss > 0
    ensures forall i :: 0 <= i < |Fragments(mss, message)| ==> |Fragments(mss, message)[i].data| <= mss
    decreases |message|
  {
    if |message| <= mss {
    } else {
      FragmentsFit(mss, message[mss..]);
    }
  }

  ghost predicate Subset(part: seq<Sent>, whole: seq<Sent>) {
    forall i :: 0 <= i < |part| ==> part[i] in whole
  }

  lemma {:induction false} DropAckedSubset(num: Numbering, buf: seq<Sent>, una: nat)
    ensures Subset(DropAcked(num, buf, una), buf)
  {
    if buf == [] || TimeDiff(num, una, buf[0].sn) <= 0 {
    } else {
      DropAckedSubset(num, buf[1..], una);
    }
  }

  lemma {:induction false} RemoveAckedSubset(buf: seq<Sent>, sn: nat)
    ensures Subset(RemoveAcked(buf, sn), buf)
  {
    if buf == [] || Word(sn) <= Word(buf[0].sn) {
    } else {
      RemoveAckedSubset(buf[1..], sn);
    }
  }

  lemma AcknowledgeSubset(num: Numbering, s: SendSide, seg: Segment)
    ensures Subset(Acknowledge(num, s, seg).buf, s.buf) && Acknowledge(num, s, seg).queue == s.queue
  {
    DropAckedSubset(num, s.buf, seg.una);
    RemoveAckedSubset(DropAcked(num, s.buf, seg.una), seg.sn);
  }

  lemma {:induction false} MoveBufKeepsAcks(num: Numbering, wnd: U16, r: ReceiveSide)
    ensures MoveBuf(num, wnd, r).acks == r.acks
    decreases |r.buf|
  {
    if r.buf == [] || r.buf[0].sn != r.nxt || |r.queue| >= wnd {
    } else {
      MoveBufKeepsAcks(num, wnd, r.(
        nxt := Advance(num, r.nxt, 1), queue := r.queue + [r.buf[0].fragment], buf := r.buf[1..]));
    }
  }

  lemma AcceptAcks(num: Numbering, wnd: U16, r: ReceiveSide, seg: Segment)
    ensures Accept(num, wnd, r, seg).acks == r.acks
      || Accept(num, wnd, r, seg).acks == r.acks + [Ack(seg.sn, seg.ts)]
  {
    var t := r.(acks := r.acks + [Ack(seg.sn, seg.ts)]);
    var x := Numbered(seg.sn, Fragment(seg.frg, seg.data));
    MoveBufKeepsAcks(num, wnd, t.(buf := Insert(num, t.buf, x)));
  }

  lemma {:induction false} InputTidy(num: Numbering, s: State, peer: Params, packet: seq<Segment>)
    requires s.params.Valid() && peer.Valid() && TidyState(s) && TidyPacket(peer, packet)
    ensures InputAll(num, s, packet).params == s.params && TidyState(InputAll(num, s, packet))
    decreases |packet|
  {
    if packet == [] {
    } else {
      AcknowledgeSubset(num, s.snd, packet[0]);
      AcceptAcks(num, s.params.rcvWnd, s.rcv, packet[0]);
      InputTidy(num, InputSegment(num, s, packet[0]), peer, packet[1..]);
    }
  }

  lemma {:induction false} FillWindowTidy(num: Numbering, x: SendSide, cwnd: nat, mss: nat)
    requires SmallSegments(x, mss)
    ensures SmallSegments(FillWindow(num, x, cwnd), mss)
    decreases |x.queue|
  {
    if TimeDiff(num, x.nxt, Advance(num, x.una, cwnd)) >= 0 || x.queue == [] {
    } else {
      var t := x.(
        nxt := Advance(num, x.nxt, 1),
        buf := x.buf + [Sent(x.nxt, x.queue[0], false)],
        queue := x.queue[1..]);
      FillWindowTidy(num, t, cwnd, mss);
      assert FillWindow(num, x, cwnd) == FillWindow(num, t, cwnd);
    }
  }

  lemma {:induction false} DataSegmentsTidy(
      params: Params, h: Header, now: nat, buf: seq<Sent>, n: nat, resend: set<nat>)
    requires params.Valid() && h.conv == params.conv && now < TS_LIMIT && n <= |buf|
    requires forall i :: 0 <= i < |buf| ==> |buf[i].fragment.data| <= params.Mss()
    ensures TidyPacket(params, DataSegments(h, now, buf, n, resend))
  {
    if n == 0 {
    } else {
      DataSegmentsTidy(params, h, now, buf, n - 1, resend);
    }
  }

  lemma EmittedTidy(num: Numbering, s: State, now: nat, resend: set<nat>, probeDue: bool)
    requires s.params.Valid() && TidyState(s) && now < TS_LIMIT
    ensures TidyPacket(s.params, Emitted(num, s, now, resend, probeDue))
  {
    var h, x, last := FlushHeader(s), Filled(num, s), LastAck(s.rcv.acks);
    FillWindowTidy(num, s.snd, SendWindow(s), s.params.Mss());
    DataSegmentsTidy(s.params, h, now, x.buf, |x.buf|, resend);
    assert TidyPacket(s.params, AckSegments(h, s.rcv.acks));
    assert TidyPacket(s.params, ProbeSegments(h, last, AskSend(s, probeDue), s.askTell));
  }

  lemma PackTidy(params: Params, emitted: seq<Segment>)
    requires params.Valid() && TidyPacket(params, emitted)
    ensures TidyOut(params, Pack(params.mtu, emitted)) && Concat(Pack(params.mtu, emitted)) == emitted
  {
    PackIsFaithful(params.mtu, emitted);
    PackMembers(params.mtu, emitted);
    var packets := Pack(params.mtu, emitted);
    forall k | 0 <= k < |packets| ensures TidyPacket(params, packets[k]) && Fits(params.mtu, packets[k]) {
      assert Within(packets[k], emitted);
    }
  }

  lemma ActTidy(num: Numbering, me: Node, peer: Node, action: Action)
    requires Tidy(me) && Tidy(peer) && (action.Flush? ==> action.now < TS_LIMIT)
    ensures Tidy(Act(num, me, peer, action))
  {
    match action
    case Submit(message) =>
      FragmentsFit(me.kcp.params.Mss(), message);
    case Flush(now, resend, probeDue) =>
      EmittedTidy(num, me.kcp, now, resend, probeDue);
      PackTidy(me.kcp.params, Emitted(num, me.kcp, now, resend, probeDue));
      FillWindowTidy(num, me.kcp.snd, SendWindow(me.kcp), me.kcp.params.Mss());
    case Deliver(index) =>
      if index < |peer.out| { InputTidy(num, me.kcp, peer.kcp.params, peer.out[index]); }
    case Drain =>
      MoveBufKeepsAcks(num, me.kcp.params.rcvWnd,
        me.kcp.rcv.(queue := me.kcp.rcv.queue[MessageEnd(me.kcp.rcv.queue)..]));
  }

  /** Every flush of the run stamps its packets with a 32-bit time. */
  predicate Clocked(moves: seq<Move>) {
    forall n :: 0 <= n < |moves| ==> moves[n].action.Flush? ==> moves[n].action.now < TS_LIMIT
  }

  lemma {:induction false} RunTidy(num: Numbering, pa: Params, pb: Params, moves: seq<Move>, n: nat)
    requires pa.Valid() && pb.Valid() && n <= |moves| && Clocked(moves)
    ensures Tidy(Run(num, pa, pb, moves, n).a) && Tidy(Run(num, pa, pb, moves, n).b)
  {
    if n == 0 {
    } else {
      RunTidy(num, pa, pb, moves, n - 1);
      var p := Run(num, pa, pb, moves, n - 1);
      var move := moves[n - 1];
      if move.atA { ActTidy(num, p.a, p.b, move.action); } else { ActTidy(num, p.b, p.a, move.action); }
    }
  }

  lemma WrappedTidyParses(params: Params, packet: seq<Segment>)
    requires params.Valid() && params.mtu <= 0x1_0000_0000 && TidyPacket(params, packet)
    ensures var wrapped := WrapPacket(packet);
            Parse(params.conv, EncodePacket(wrapped), Size(wrapped)) == Parsed(wrapped, Ok(Size(wrapped)))
  {
    ParseInvertsEncode(params.conv, WrapPacket(packet), Size(WrapPacket(packet)));
  }

  /**
   In every run, every packet a node has put on the wire fits its MTU, and `input` of a peer
   on the same conversation parses it without error into exactly its segments.
   */
  lemma PeerPacketsParse(pa: Params, pb: Params, moves: seq<Move>, atA: bool, k: nat)
    requires pa.Valid() && pb.Valid() && pa.conv == pb.conv && pa.mtu <= 0x1_0000_0000 && pb.mtu <= 0x1_0000_0000
    requires Timely(pa, pb, moves) && Clocked(moves)
    requires k < |Run(Wrapping, pa, pb, moves, |moves|).Me(atA).out|
    ensures var me := Run(Wrapping, pa, pb, moves, |moves|).Me(atA);
            var bytes := EncodePacket(me.out[k]);
            && 0 < |bytes| <= me.kcp.params.mtu
            && Parse(pa.conv, bytes, |bytes|) == Parsed(me.out[k], Ok(|bytes|))
  {
    WrappingRefinesUnbounded(pa, pb, moves, |moves|);
    RunTidy(Unbounded, pa, pb, moves, |moves|);
    var q := Run(Unbounded, pa, pb, moves, |moves|);
    var x := q.Me(atA);
    assert TidyPacket(x.kcp.params, x.out[k]) && Fits(x.kcp.params.mtu, x.out[k]);
    SizeWraps(x.out[k]);
    WrappedTidyParses(x.kcp.params, x.out[k]);
  }

  /**
   The packets of one flush are, one after the other, the segments that it emits, and each fits the
   MTU.
   */
  lemma FlushPacketsFit(
      pa: Params, pb: Params, moves: seq<Move>, atA: bool, now: nat, resend: set<nat>, probeDue: bool)
    requires pa.Valid() && pb.Valid() && Clocked(moves) && now < TS_LIMIT
    ensures var s := Run(Wrapping, pa, pb, moves, |moves|).Me(atA).kcp;
            var emitted, mtu := Emitted(Wrapping, s, now, resend, probeDue), s.params.mtu;
            && Concat(Pack(mtu, emitted)) == emitted
            && forall k :: 0 <= k < |Pack(mtu, emitted)| ==> Fits(mtu, Pack(mtu, emitted)[k])
  {
    RunTidy(Wrapping, pa, pb, moves, |moves|);
    var s := Run(Wrapping, pa, pb, moves, |moves|).Me(atA).kcp;
    EmittedTidy(Wrapping, s, now, resend, probeDue);
    PackTidy(s.params, Emitted(Wrapping, s, now, resend, probeDue));
  }
}
