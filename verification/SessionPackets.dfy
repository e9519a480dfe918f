/** Whatever a session does, every packet it puts out fits the KCP MTU. */
module SessionPackets {
  import opened EndpointSpec
  import opened KcpMachine
  import opened KcpPackets
  import opened KcpPair
  import opened Wire

  /** Segments are no larger than the MSS, and packets no larger than the MTU. */
  ghost predicate Fitting(n: Node)
    requires n.kcp.params.Valid()
  {
    SmallSegments(n.kcp.snd, n.kcp.params.Mss()) && AllFit(n.kcp.params.mtu, n.out)
  }

  ghost predicate AllFit(mtu: nat, packets: seq<seq<Segment>>) {
    forall k :: 0 <= k < |packets| ==> Fits(mtu, packets[k])
  }

  lemma AllFitTogether(mtu: nat, a: seq<seq<Segment>>, b: seq<seq<Segment>>)
    requires AllFit(mtu, a) && AllFit(mtu, b)
    ensures AllFit(mtu, a + b)
  {
  }

  lemma {:induction false} InputSmall(s: State, packet: seq<Segment>, mss: nat)
    requires SmallSegments(s.snd, mss)
    ensures SmallSegments(InputAll(Wrapping, s, packet).snd, mss)
    decreases |packet|
  {
    if packet == [] {
    } else {
      AcknowledgeSubset(Wrapping, s.snd, packet[0]);
      InputSmall(InputSegment(Wrapping, s, packet[0]), packet[1..], mss);
    }
  }

  lemma {:induction false} DataSegmentsFit(h: Header, now: nat, buf: seq<Sent>, n: nat, resend: set<nat>, mtu: nat)
    requires n <= |buf| && forall i :: 0 <= i < |buf| ==> OVERHEAD + |buf[i].fragment.data| <= mtu
    ensures forall i :: 0 <= i < |DataSegments(h, now, buf, n, resend)| ==>
      SegmentSize(DataSegments(h, now, buf, n, resend)[i]) <= mtu
  {
    if n == 0 {
    } else {
      DataSegmentsFit(h, now, buf, n - 1, resend, mtu);
    }
  }

  /** What a flush emits can be packed. */
  lemma EmittedFits(s: State, now: nat, resend: set<nat>, probe: bool)
    requires s.params.Valid() && SmallSegments(s.snd, s.params.Mss())
    ensures forall i :: 0 <= i < |Emitted(Wrapping, s, now, resend, probe)| ==>
      SegmentSize(Emitted(Wrapping, s, now, resend, probe)[i]) <= s.params.mtu
  {
    var h, x := FlushHeader(s), Filled(Wrapping, s);
    FillWindowTidy(Wrapping, s.snd, SendWindow(s), s.params.Mss());
    DataSegmentsFit(h, now, x.buf, |x.buf|, resend, s.params.mtu);
  }

  lemma FlushFits(n: Node, now: nat, resend: set<nat>, probe: bool)
    requires n.kcp.params.Valid() && Fitting(n)
    ensures Fitting(Do(n, Flushing(now, resend, probe)))
  {
    EmittedFits(n.kcp, now, resend, probe);
    PackIsFaithful(n.kcp.params.mtu, Emitted(Wrapping, n.kcp, now, resend, probe));
    FillWindowTidy(Wrapping, n.kcp.snd, SendWindow(n.kcp), n.kcp.params.Mss());
  }

  lemma DeedFits(n: Node, d: Deed)
    requires n.kcp.params.Valid() && Fitting(n)
    ensures Do(n, d).kcp.params == n.kcp.params && Fitting(Do(n, d))
  {
    DeedWaits(n, d);
    match d
    case Submitted(message) => FragmentsFit(n.kcp.params.Mss(), message);
    case Flushing(now, resend, probe) => FlushFits(n, now, resend, probe);
    case Arrived(packet) => InputSmall(n.kcp, packet, n.kcp.params.Mss());
    case Drained =>
  }

  lemma {:induction false} AfterFits(params: Params, deeds: seq<Deed>)
    requires params.Valid()
    ensures Fitting(After(params, deeds))
  {
    if deeds == [] {
      assert After(params, deeds) == Start(params);
    } else {
      AfterFits(params, deeds[..|deeds| - 1]);
      DeedFits(After(params, deeds[..|deeds| - 1]), deeds[|deeds| - 1]);
    }
  }

  /** Every packet of a session fits, also those that are new since its node was `n`. */
  lemma NewPacketsFit(params: Params, n: Node, s: Session)
    requires params.Valid() && Logged(params, s)
    ensures AllFit(params.mtu, NewPackets(n, s.node))
  {
    AfterFits(params, s.deeds);
  }

  // ------------------------------------------------------------------ nothing is held back

  /** The send window has no room, or the queue has nothing to send. */
  predicate NoRoom(s: State) {
    var window := if s.params.sndWnd < s.rmtWnd then s.params.sndWnd else s.rmtWnd;
    s.snd.queue == [] || TimeDiff(Wrapping, s.snd.nxt, (s.snd.una + window) % WRAP) >= 0
  }

  /** Every acknowledgement and every segment that the window allows has been written. */
  ghost predicate NothingHeldBack(s: State) {
    && s.rcv.acks == [] && !s.askSend && NoRoom(s)
    && forall i :: 0 <= i < |s.snd.buf| ==> s.snd.buf[i].transmitted
  }

  lemma {:induction false} FillStops(x: SendSide, cwnd: nat)
    ensures var t := FillWindow(Wrapping, x, cwnd);
            t.una == x.una && (t.queue == [] || TimeDiff(Wrapping, t.nxt, (t.una + cwnd) % WRAP) >= 0)
    decreases |x.queue|
  {
    if TimeDiff(Wrapping, x.nxt, Advance(Wrapping, x.una, cwnd)) >= 0 || x.queue == [] {
      assert FillWindow(Wrapping, x, cwnd) == x;
    } else {
      var t := x.(
        nxt := Advance(Wrapping, x.nxt, 1), buf := x.buf + [Sent(x.nxt, x.queue[0], false)], queue := x.queue[1..]);
      assert FillWindow(Wrapping, x, cwnd) == FillWindow(Wrapping, t, cwnd);
      FillStops(t, cwnd);
    }
  }

  /** After any flush nothing is held back. */
  lemma FlushedIsWritten(n: Node, now: nat, resend: set<nat>, probe: bool)
    requires n.kcp.params.Valid()
    ensures var m := Do(n, Flushing(now, resend, probe));
            NothingHeldBack(m.kcp) && !m.kcp.askTell
  {
    DeedWaits(n, Flushing(now, resend, probe));
    FillStops(n.kcp.snd, SendWindow(n.kcp));
  }

  lemma FlushHoldsNothing(n: Node, t: Timing)
    requires n.kcp.params.Valid()
    ensures NothingHeldBack(FlushedNow(n, t).kcp) && !FlushedNow(n, t).kcp.askTell
  {
    FlushFollows(n, t.now, t.resend, t.probe);
    FlushedIsWritten(Polled(n, t), t.now, t.resendNext, t.probeNext);
  }

  lemma {:induction false} DrainingHoldsNothing(n: Node)
    requires n.kcp.params.Valid() && NothingHeldBack(n.kcp)
    ensures NothingHeldBack(AllDrained(n).kcp)
    decreases Holding(n)
  {
    if PeekSize(n.kcp.rcv.queue).Err? {
    } else {
      DrainProgress(n);
      DeedWaits(n, Drained);
      MoveBufKeepsAcks(Wrapping, n.kcp.params.rcvWnd,
        n.kcp.rcv.(queue := n.kcp.rcv.queue[MessageEnd(n.kcp.rcv.queue)..]));
      DrainingHoldsNothing(Do(n, Drained));
    }
  }

  /** Once a message has been submitted, the packets put out so far carry all that the window allows. */
  lemma SubmitsHoldsNothing(s: Session, m: SessionMessage, t: Timing)
    requires s.node.kcp.params.Valid()
    ensures NothingHeldBack(Submits(s, m, t).node.kcp)
  {
    DeedWaits(s.node, Submitted(EncodeSession(m)));
    FlushHoldsNothing(Do(s.node, Submitted(EncodeSession(m))), t);
  }

  /** Once a packet has arrived, every ACK for it has been written, and no complete message is left behind. */
  lemma ReceivesHoldsNothing(s: Session, packet: seq<Segment>, t: Timing)
    requires s.node.kcp.params.Valid()
    ensures NothingHeldBack(Receives(s, packet, t).node.kcp)
    ensures PeekSize(Receives(s, packet, t).node.kcp.rcv.queue).Err?
  {
    DeedWaits(s.node, Arrived(packet));
    var m := Do(s.node, Arrived(packet));
    FlushHoldsNothing(m, t);
    FlushedNowFollows(m, t);
    DrainingHoldsNothing(FlushedNow(m, t));
    AllDrainedFollows(FlushedNow(m, t));
  }
}
