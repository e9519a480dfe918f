/**
 The machine on wrapping 32-bit numbers refines the machine on numbers that never wrap.
 Taking every number modulo 2^32 commutes with every operation, as long as the numbers
 compared are less than half the number space apart.
 */
module KcpWrap {
  import opened KcpMachine
  import opened KcpPair
  import opened KcpSender
  import opened KcpReceiver

  function WrapSent(buf: seq<Sent>): (wrapped: seq<Sent>)
    ensures |wrapped| == |buf|
  {
    seq(|buf|, i requires 0 <= i < |buf| => buf[i].(sn := Word(buf[i].sn)))
  }

  function WrapNumbered(buf: seq<Numbered>): (wrapped: seq<Numbered>)
    ensures |wrapped| == |buf|
  {
    seq(|buf|, i requires 0 <= i < |buf| => buf[i].(sn := Word(buf[i].sn)))
  }

  function WrapAcks(acks: seq<Ack>): (wrapped: seq<Ack>)
    ensures |wrapped| == |acks|
  {
    seq(|acks|, i requires 0 <= i < |acks| => acks[i].(sn := Word(acks[i].sn)))
  }

  function WrapSegment(seg: Segment): Segment { seg.(sn := Word(seg.sn), una := Word(seg.una)) }

  function WrapPacket(packet: seq<Segment>): (wrapped: seq<Segment>)
    ensures |wrapped| == |packet|
  {
    seq(|packet|, i requires 0 <= i < |packet| => WrapSegment(packet[i]))
  }

  function WrapPackets(packets: seq<seq<Segment>>): (wrapped: seq<seq<Segment>>)
    ensures |wrapped| == |packets|
  {
    seq(|packets|, k requires 0 <= k < |packets| => WrapPacket(packets[k]))
  }

  function WrapSnd(s: SendSide): SendSide { SendSide(Word(s.una), Word(s.nxt), s.queue, WrapSent(s.buf)) }

  function WrapRcv(r: ReceiveSide): ReceiveSide {
    ReceiveSide(Word(r.nxt), WrapNumbered(r.buf), r.queue, WrapAcks(r.acks))
  }

  function WrapState(s: State): State { s.(snd := WrapSnd(s.snd), rcv := WrapRcv(s.rcv)) }

  function WrapNode(x: Node): Node { x.(kcp := WrapState(x.kcp), out := WrapPackets(x.out)) }

  function WrapPair(p: Pair): Pair { Pair(WrapNode(p.a), WrapNode(p.b)) }

  // ------------------------------------------------------------------ arithmetic

  lemma TimeDiffWord(m: nat, n: nat)
    requires -HALF <= m - n < HALF
    ensures TimeDiff(Wrapping, Word(m), Word(n)) == m - n
  {
    var d := (Word(m) - Word(n)) % WRAP;
    assert m == WRAP * (m / WRAP) + Word(m) && n == WRAP * (n / WRAP) + Word(n);
    var q := (Word(m) - Word(n)) / WRAP;
    assert m - n == WRAP * (m / WRAP - n / WRAP + q) + d;
  }

  lemma AdvanceWord(n: nat, k: nat)
    ensures Advance(Wrapping, Word(n), k) == Word(Advance(Unbounded, n, k))
  {
    assert n + k == WRAP * (n / WRAP) + (Word(n) + k);
  }

  // -------------------------------------------------------------- acknowledgements

  lemma {:induction false} DropAckedWraps(buf: seq<Sent>, una: nat)
    requires forall i :: 0 <= i < |buf| ==> -HALF <= una - buf[i].sn < HALF
    ensures DropAcked(Wrapping, WrapSent(buf), Word(una)) == WrapSent(DropAcked(Unbounded, buf, una))
  {
    if buf == [] {
    } else {
      TimeDiffWord(una, buf[0].sn);
      if una > buf[0].sn {
        DropAckedWraps(buf[1..], una);
        assert WrapSent(buf)[1..] == WrapSent(buf[1..]);
      }
    }
  }

  lemma {:induction false} RemoveAckedWraps(buf: seq<Sent>, sn: nat)
    ensures RemoveAcked(WrapSent(buf), Word(sn)) == WrapSent(RemoveAcked(buf, sn))
  {
    if buf == [] {
    } else {
      assert WrapSent(buf)[1..] == WrapSent(buf[1..]);
      if Word(sn) > Word(buf[0].sn) {
        RemoveAckedWraps(buf[1..], sn);
      }
    }
  }

  lemma ParseAckWraps(s: SendSide, sn: nat)
    requires -HALF <= sn - s.una < HALF && -HALF <= sn - s.nxt < HALF
    ensures ParseAck(Wrapping, WrapSnd(s), Word(sn)) == WrapSnd(ParseAck(Unbounded, s, sn))
  {
    TimeDiffWord(sn, s.una);
    TimeDiffWord(sn, s.nxt);
    RemoveAckedWraps(s.buf, sn);
  }

  /** How far behind the newest number of its kind a number on the wire may be. */
  const REACH: nat := HALF - 0x1_0000

  /** The numbers of a segment are less than half the number space old. */
  ghost predicate Recent(seg: Segment, sndNxt: nat, peerNxt: nat) {
    && seg.una + REACH >= sndNxt
    && (seg.cmd == CMD_ACK ==> seg.sn + REACH >= sndNxt)
    && (seg.cmd == CMD_PUSH ==> seg.sn + REACH >= peerNxt)
  }

  ghost predicate PacketRecent(packet: seq<Segment>, sndNxt: nat, peerNxt: nat) {
    forall i :: 0 <= i < |packet| ==> Recent(packet[i], sndNxt, peerNxt)
  }

  lemma AcknowledgeWraps(
      s: SendSide, stream: seq<Fragment>, wnd: U16, r: ReceiveSide, seg: Segment, peerNxt: nat)
    requires SenderSafe(s, stream, wnd, r) && AckTrue(seg, r)
    requires r.nxt <= s.nxt && (seg.cmd == CMD_ACK ==> seg.sn < s.nxt)
    requires Recent(seg, s.nxt, peerNxt)
    ensures Acknowledge(Wrapping, WrapSnd(s), WrapSegment(seg)) == WrapSnd(Acknowledge(Unbounded, s, seg))
  {
    DropAckedWraps(s.buf, seg.una);
    DropAckedTrims(s.buf, seg.una, r);
    var dropped := DropAcked(Unbounded, s.buf, seg.una);
    TrimKeepsSafe(s, stream, wnd, r, dropped);
    var t := Shrink(s.(buf := dropped));
    assert Shrink(ParseUna(Wrapping, WrapSnd(s), Word(seg.una))) == WrapSnd(t);
    if seg.cmd == CMD_ACK {
      ParseAckWraps(t, seg.sn);
    }
  }

  // ------------------------------------------------------------------ incoming data

  lemma {:induction false} FindSlotWraps(buf: seq<Numbered>, sn: nat, n: nat)
    requires n <= |buf|
    requires forall i :: 0 <= i < |buf| ==> -HALF < sn - buf[i].sn < HALF
    ensures FindSlot(Wrapping, WrapNumbered(buf), Word(sn), n) == FindSlot(Unbounded, buf, sn, n)
  {
    if n == 0 {
    } else {
      WordsTell(sn, buf[n - 1].sn);
      TimeDiffWord(sn, buf[n - 1].sn);
      FindSlotWraps(buf, sn, n - 1);
    }
  }

  lemma InsertWraps(buf: seq<Numbered>, x: Numbered)
    requires forall i :: 0 <= i < |buf| ==> -HALF < x.sn - buf[i].sn < HALF
    ensures Insert(Wrapping, WrapNumbered(buf), x.(sn := Word(x.sn))) == WrapNumbered(Insert(Unbounded, buf, x))
  {
    FindSlotWraps(buf, x.sn, |buf|);
    match FindSlot(Unbounded, buf, x.sn, |buf|)
    case Repeated =>
    case Free(k) =>
      assert WrapNumbered(buf[..k] + [x] + buf[k..])
        == WrapNumbered(buf)[..k] + [x.(sn := Word(x.sn))] + WrapNumbered(buf)[k..];
  }

  lemma {:induction false} MoveBufWraps(wnd: U16, r: ReceiveSide)
    requires SortedNumbered(r.buf)
    requires forall i :: 0 <= i < |r.buf| ==> r.nxt <= r.buf[i].sn < r.nxt + HALF - |r.buf|
    ensures MoveBuf(Wrapping, wnd, WrapRcv(r)) == WrapRcv(MoveBuf(Unbounded, wnd, r))
    decreases |r.buf|
  {
    if r.buf == [] {
    } else {
      WordsTell(r.buf[0].sn, r.nxt);
      if r.buf[0].sn == r.nxt && |r.queue| < wnd {
        AdvanceWord(r.nxt, 1);
        assert WrapNumbered(r.buf)[1..] == WrapNumbered(r.buf[1..]);
        MoveBufWraps(wnd, Moved(r));
      }
    }
  }

  lemma WindowSize(r: ReceiveSide, wnd: U16, known: seq<Fragment>)
    requires ReceiverOk(r, wnd, known)
    ensures |r.buf| <= wnd
  {
    if r.buf != [] {
      SpreadsOut(r.buf, |r.buf| - 1);
    }
  }

  lemma {:induction false} SpreadsOut(buf: seq<Numbered>, i: nat)
    requires SortedNumbered(buf) && i < |buf|
    ensures buf[i].sn >= buf[0].sn + i
  {
    if i == 0 {
    } else {
      SpreadsOut(buf, i - 1);
    }
  }

  /** The push path of `Accept`, when the segment lies in the window. */
  lemma ParseDataWraps(wnd: U16, r: ReceiveSide, x: Numbered, known: seq<Fragment>)
    requires ReceiverOk(r, wnd, known)
    requires r.nxt <= x.sn < r.nxt + wnd && x.sn < |known| && x.fragment == known[x.sn]
    ensures ParseData(Wrapping, wnd, WrapRcv(r), x.(sn := Word(x.sn)))
      == WrapRcv(ParseData(Unbounded, wnd, r, x))
  {
    InWindowWraps(wnd, r, x.sn);
    InsertWraps(r.buf, x);
    InsertExtends(wnd, r, x, known);
    var t := r.(buf := Insert(Unbounded, r.buf, x));
    WindowSize(t, wnd, known);
    MoveBufWraps(wnd, t);
  }

  lemma InWindowWraps(wnd: U16, r: ReceiveSide, sn: nat)
    requires r.nxt <= sn < r.nxt + wnd
    ensures BelowWindowEnd(Wrapping, wnd, WrapRcv(r), Word(sn))
    ensures TimeDiff(Wrapping, Word(sn), Word(r.nxt)) >= 0
  {
    AdvanceWord(r.nxt, wnd);
    TimeDiffWord(sn, r.nxt + wnd);
    TimeDiffWord(sn, r.nxt);
  }

  lemma AcceptWraps(wnd: U16, r: ReceiveSide, seg: Segment, known: seq<Fragment>, sndNxt: nat)
    requires ReceiverOk(r, wnd, known) && DataTrue(seg, known)
    requires |known| <= r.nxt + 0x2_0000 && Recent(seg, sndNxt, |known|)
    ensures Accept(Wrapping, wnd, WrapRcv(r), WrapSegment(seg)) == WrapRcv(Accept(Unbounded, wnd, r, seg))
  {
    if seg.cmd == CMD_PUSH {
      AdvanceWord(r.nxt, wnd);
      TimeDiffWord(seg.sn, r.nxt + wnd);
      if seg.sn < r.nxt + wnd {
        TimeDiffWord(seg.sn, r.nxt);
        var t := r.(acks := r.acks + [Ack(seg.sn, seg.ts)]);
        assert WrapAcks(t.acks) == WrapAcks(r.acks) + [Ack(Word(seg.sn), seg.ts)];
        if seg.sn >= r.nxt {
          ParseDataWraps(wnd, t, Numbered(seg.sn, Fragment(seg.frg, seg.data)), known);
        }
      }
    }
  }

  lemma {:induction false} InputWraps(
      s: State, packet: seq<Segment>, stream: seq<Fragment>, peer: ReceiveSide, known: seq<Fragment>)
    requires SenderSafe(s.snd, stream, s.params.sndWnd, peer) && PacketAckTrue(packet, peer)
    requires peer.nxt <= s.snd.nxt && forall n: nat :: Held(peer, n) ==> n < s.snd.nxt
    requires ReceiverOk(s.rcv, s.params.rcvWnd, known) && AcksHeld(s.rcv) && PacketDataTrue(packet, known)
    requires |known| <= s.rcv.nxt + 0x2_0000
    requires PacketRecent(packet, s.snd.nxt, |known|)
    ensures InputAll(Wrapping, WrapState(s), WrapPacket(packet)) == WrapState(InputAll(Unbounded, s, packet))
    decreases |packet|
  {
    if packet == [] {
    } else {
      var seg := packet[0];
      var t := InputSegment(Unbounded, s, seg);
      assert AckTrue(seg, peer) && DataTrue(seg, known) && Recent(seg, s.snd.nxt, |known|);
      AcknowledgeWraps(s.snd, stream, s.params.sndWnd, peer, seg, |known|);
      AcceptWraps(s.params.rcvWnd, s.rcv, seg, known, s.snd.nxt);
      AcknowledgeKeepsSafe(s.snd, stream, s.params.sndWnd, peer, seg);
      AcceptExtends(s.params.rcvWnd, s.rcv, seg, known);
      assert InputSegment(Wrapping, WrapState(s), WrapPacket(packet)[0]) == WrapState(t);
      assert WrapPacket(packet)[1..] == WrapPacket(packet[1..]);
      InputWraps(t, packet[1..], stream, peer, known);
    }
  }

  // ------------------------------------------------------------------ flushing

  lemma {:induction false} FillWindowWraps(s: SendSide, cwnd: nat)
    requires s.una <= s.nxt <= s.una + 0xFFFF && cwnd <= 0xFFFF
    ensures FillWindow(Wrapping, WrapSnd(s), cwnd) == WrapSnd(FillWindow(Unbounded, s, cwnd))
    decreases |s.queue|
  {
    AdvanceWord(s.una, cwnd);
    TimeDiffWord(s.nxt, s.una + cwnd);
    if s.nxt >= s.una + cwnd || s.queue == [] {
    } else {
      AdvanceWord(s.nxt, 1);
      var x := Sent(s.nxt, s.queue[0], false);
      assert WrapSent(s.buf + [x]) == WrapSent(s.buf) + [x.(sn := Word(x.sn))];
      FillWindowWraps(s.(nxt := s.nxt + 1, buf := s.buf + [x], queue := s.queue[1..]), cwnd);
    }
  }

  function WrapHeader(h: Header): Header { h.(una := Word(h.una)) }

  lemma {:induction false} DataSegmentsWrap(h: Header, now: nat, buf: seq<Sent>, n: nat, resend: set<nat>)
    requires n <= |buf|
    ensures DataSegments(WrapHeader(h), now, WrapSent(buf), n, resend)
      == WrapPacket(DataSegments(h, now, buf, n, resend))
  {
    if n == 0 {
    } else {
      DataSegmentsWrap(h, now, buf, n - 1, resend);
    }
  }

  lemma ControlSegmentsWrap(h: Header, acks: seq<Ack>, ask: bool, tell: bool)
    ensures AckSegments(WrapHeader(h), WrapAcks(acks)) == WrapPacket(AckSegments(h, acks))
    ensures ProbeSegments(WrapHeader(h), LastAck(WrapAcks(acks)), ask, tell)
      == WrapPacket(ProbeSegments(h, LastAck(acks), ask, tell))
  {
    assert LastAck(WrapAcks(acks)) == LastAck(acks).(sn := Word(LastAck(acks).sn));
  }

  lemma WrapAppend(p: seq<Segment>, q: seq<Segment>)
    ensures WrapPacket(p + q) == WrapPacket(p) + WrapPacket(q)
  {
  }

  lemma EmittedWraps(s: State, now: nat, resend: set<nat>, probeDue: bool)
    requires s.snd.una <= s.snd.nxt <= s.snd.una + 0xFFFF
    ensures Emitted(Wrapping, WrapState(s), now, resend, probeDue)
      == WrapPacket(Emitted(Unbounded, s, now, resend, probeDue))
  {
    FillWindowWraps(s.snd, SendWindow(s));
    var h, x := FlushHeader(s), Filled(Unbounded, s);
    var acks := AckSegments(h, s.rcv.acks);
    var probes := ProbeSegments(h, LastAck(s.rcv.acks), AskSend(s, probeDue), s.askTell);
    var data := DataSegments(h, now, x.buf, |x.buf|, resend);
    ControlSegmentsWrap(h, s.rcv.acks, AskSend(s, probeDue), s.askTell);
    DataSegmentsWrap(h, now, x.buf, |x.buf|, resend);
    WrapAppend(acks, probes);
    WrapAppend(acks + probes, data);
  }

  lemma FlushedWraps(s: State)
    requires s.snd.una <= s.snd.nxt <= s.snd.una + 0xFFFF
    ensures Flushed(Wrapping, WrapState(s)) == WrapState(Flushed(Unbounded, s))
  {
    FillWindowWraps(s.snd, SendWindow(s));
    var x := Filled(Unbounded, s);
    assert MarkTransmitted(WrapSent(x.buf)) == WrapSent(MarkTransmitted(x.buf));
    assert WrapAcks([]) == [];
  }

  lemma {:induction false} SizeWraps(segments: seq<Segment>)
    ensures Size(WrapPacket(segments)) == Size(segments)
  {
    if segments == [] {
    } else {
      var n := |segments| - 1;
      assert WrapPacket(segments)[..n] == WrapPacket(segments[..n]);
      SizeWraps(segments[..n]);
    }
  }

  function WrapPacker(p: Packer): Packer { Packer(WrapPackets(p.done), WrapPacket(p.open)) }

  lemma EmptyPackerWraps()
    ensures WrapPacker(Packer([], [])) == Packer([], [])
  {
  }

  lemma ClosedWraps(p: Packer)
    ensures Closed(WrapPacker(p)) == WrapPackets(Closed(p))
  {
    assert WrapPackets(p.done + [p.open]) == WrapPackets(p.done) + [WrapPacket(p.open)];
  }

  lemma PutWraps(mtu: nat, p: Packer, seg: Segment)
    ensures Put(mtu, WrapPacker(p), WrapSegment(seg)) == WrapPacker(Put(mtu, p, seg))
  {
    SizeWraps(p.open);
    ClosedWraps(p);
    assert WrapPacket([seg]) == [WrapSegment(seg)];
    assert WrapPacket(p.open + [seg]) == WrapPacket(p.open) + [WrapSegment(seg)];
  }

  lemma {:induction false} PutAllWraps(mtu: nat, segments: seq<Segment>, n: nat)
    requires n <= |segments|
    ensures PutAll(mtu, WrapPacket(segments), n) == WrapPacker(PutAll(mtu, segments, n))
  {
    if n == 0 {
      EmptyPackerWraps();
    } else {
      PutAllWraps(mtu, segments, n - 1);
      PutWraps(mtu, PutAll(mtu, segments, n - 1), segments[n - 1]);
      assert WrapPacket(segments)[n - 1] == WrapSegment(segments[n - 1]);
    }
  }

  lemma PackWraps(mtu: nat, segments: seq<Segment>)
    ensures Pack(mtu, WrapPacket(segments)) == WrapPackets(Pack(mtu, segments))
  {
    PutAllWraps(mtu, segments, |segments|);
    ClosedWraps(PutAll(mtu, segments, |segments|));
  }

  // ------------------------------------------------------------------ one action

  lemma ReceivedWraps(s: State, known: seq<Fragment>)
    requires ReceiverOk(s.rcv, s.params.rcvWnd, known)
    ensures Received(Wrapping, WrapState(s)) == WrapState(Received(Unbounded, s))
  {
    var popped := s.rcv.(queue := s.rcv.queue[MessageEnd(s.rcv.queue)..]);
    WindowSize(s.rcv, s.params.rcvWnd, known);
    MoveBufWraps(s.params.rcvWnd, popped);
  }

  /** A receiver is never far behind its peer's newest number. */
  lemma PeerIsNear(s: SendSide, stream: seq<Fragment>, wnd: U16, r: ReceiveSide, rcvWnd: U16, known: seq<Fragment>)
    requires SenderSafe(s, stream, wnd, r) && ReceiverOk(r, rcvWnd, known)
    ensures s.nxt <= r.nxt + rcvWnd + wnd
  {
    if s.una > 0 {
      assert Kept(s, r, s.una - 1);
    }
  }

  lemma DeliverWraps(me: Node, peer: Node, index: nat)
    requires Link(me, peer) && Link(peer, me) && index < |peer.out|
    requires PacketRecent(peer.out[index], me.kcp.snd.nxt, peer.kcp.snd.nxt)
    ensures Act(Wrapping, WrapNode(me), WrapNode(peer), Deliver(index))
      == WrapNode(Act(Unbounded, me, peer, Deliver(index)))
  {
    PeerIsNear(peer.kcp.snd, Sending(peer), peer.kcp.params.sndWnd, me.kcp.rcv, me.kcp.params.rcvWnd, Known(peer));
    InputWraps(me.kcp, peer.out[index], Sending(me), peer.kcp.rcv, Known(peer));
  }

  lemma ActWraps(me: Node, peer: Node, action: Action)
    requires Link(me, peer) && Link(peer, me)
    requires action.Deliver? && action.index < |peer.out|
      ==> PacketRecent(peer.out[action.index], me.kcp.snd.nxt, peer.kcp.snd.nxt)
    ensures Act(Wrapping, WrapNode(me), WrapNode(peer), action) == WrapNode(Act(Unbounded, me, peer, action))
  {
    match action
    case Submit(message) =>
    case Flush(now, resend, probeDue) => FlushActWraps(me, now, resend, probeDue);
    case Deliver(index) =>
      if index < |peer.out| { DeliverWraps(me, peer, index); }
    case Drain =>
      if PeekSize(me.kcp.rcv.queue).Ok? { ReceivedWraps(me.kcp, Known(peer)); }
  }

  /** What is put out while flushing, and the state that is left. */
  lemma FlushActWraps(me: Node, now: nat, resend: set<nat>, probeDue: bool)
    requires me.kcp.params.Valid() && me.kcp.snd.una <= me.kcp.snd.nxt <= me.kcp.snd.una + 0xFFFF
    ensures Act(Wrapping, WrapNode(me), WrapNode(me), Flush(now, resend, probeDue))
      == WrapNode(Act(Unbounded, me, me, Flush(now, resend, probeDue)))
  {
    EmittedWraps(me.kcp, now, resend, probeDue);
    FlushedWraps(me.kcp);
    var emitted := Emitted(Unbounded, me.kcp, now, resend, probeDue);
    PackWraps(me.kcp.params.mtu, emitted);
    assert WrapPackets(me.out + Pack(me.kcp.params.mtu, emitted))
      == WrapPackets(me.out) + WrapPackets(Pack(me.kcp.params.mtu, emitted));
  }
}
