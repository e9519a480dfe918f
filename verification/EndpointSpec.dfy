/**
 One session of an endpoint as a value: its KCP node, its phase, and what its operations make
 of it.  When a KCP timer fires, and which segments are resent, are inputs (`Timing`).
 */
module EndpointSpec {
  import opened KcpMachine
  import opened KcpPair
  import opened Options
  import opened Wire

  const SESSION_TOMBSTONE_MS: nat := 646 * 1024

  /** What an update that may flush and the flush after it find due. */
  datatype Timing = Timing(now: nat, due: bool, resend: set<nat>, probe: bool, resendNext: set<nat>, probeNext: bool)

  datatype Phase = PendingRemote | Active | ClosingLocal | ClosingRemote

  /** A session, with all that it has done to its node since it began. */
  datatype Session = Session(
    node: Node, phase: Phase, peerSeq: Option<nat>, pendingClose: Option<CloseReason>,
    closeQueued: bool, closeDeadlineAt: Option<nat>, deeds: seq<Deed>)
  {
    function WaitSnd(): nat { node.kcp.WaitSnd() }
  }

  function NewSession(params: Params, phase: Phase): Session {
    Session(Start(params), phase, None, None, false, None, [])
  }

  // ------------------------------------------------------------------ KCP steps

  /** What a session does to its node; an arriving packet comes from anywhere. */
  datatype Deed = Submitted(message: Message) | Flushing(now: nat, resend: set<nat>, probe: bool)
                | Arrived(packet: seq<Segment>) | Drained

  function Do(n: Node, d: Deed): Node
    requires n.kcp.params.Valid()
  {
    match d
    case Submitted(message) => Act(Wrapping, n, n, Submit(message))
    case Flushing(now, resend, probe) => Act(Wrapping, n, n, Flush(now, resend, probe))
    case Arrived(packet) => n.(kcp := InputAll(Wrapping, n.kcp, packet))
    case Drained => Act(Wrapping, n, n, Drain)
  }

  /** Every deed is a move of a node of a pair, as long as what arrives was sent by the peer. */
  lemma DeedIsMove(n: Node, d: Deed, peer: Node, index: nat)
    requires n.kcp.params.Valid()
    requires d.Arrived? ==> index < |peer.out| && peer.out[index] == d.packet
    ensures Do(n, d) == Act(Wrapping, n, peer,
      match d
      case Submitted(message) => Submit(message)
      case Flushing(now, resend, probe) => Flush(now, resend, probe)
      case Arrived(_) => Deliver(index)
      case Drained => Drain)
  {
  }

  lemma {:induction false} InputKeeps(s: State, packet: seq<Segment>)
    ensures InputAll(Wrapping, s, packet).params == s.params
    ensures InputAll(Wrapping, s, packet).WaitSnd() <= s.WaitSnd()
    decreases |packet|
  {
    if packet == [] {
    } else {
      AcknowledgeShrinks(s.snd, packet[0]);
      InputKeeps(InputSegment(Wrapping, s, packet[0]), packet[1..]);
    }
  }

  lemma {:induction false} DropShrinks(buf: seq<Sent>, una: nat)
    ensures |DropAcked(Wrapping, buf, una)| <= |buf|
  {
    if buf == [] {
    } else {
      DropShrinks(buf[1..], una);
    }
  }

  lemma {:induction false} RemoveShrinks(buf: seq<Sent>, sn: nat)
    ensures |RemoveAcked(buf, sn)| <= |buf|
  {
    if buf == [] {
    } else {
      RemoveShrinks(buf[1..], sn);
    }
  }

  lemma AcknowledgeShrinks(x: SendSide, seg: Segment)
    ensures |Acknowledge(Wrapping, x, seg).buf| <= |x.buf|
    ensures Acknowledge(Wrapping, x, seg).queue == x.queue
  {
    DropShrinks(x.buf, seg.una);
    RemoveShrinks(DropAcked(Wrapping, x.buf, seg.una), seg.sn);
  }

  lemma {:induction false} FillKeepsCount(x: SendSide, cwnd: nat)
    ensures var y := FillWindow(Wrapping, x, cwnd);
            |y.buf| + |y.queue| == |x.buf| + |x.queue|
    decreases |x.queue|
  {
    if TimeDiff(Wrapping, x.nxt, Advance(Wrapping, x.una, cwnd)) >= 0 || x.queue == [] {
    } else {
      FillKeepsCount(x.(
        nxt := Advance(Wrapping, x.nxt, 1),
        buf := x.buf + [Sent(x.nxt, x.queue[0], false)],
        queue := x.queue[1..]), cwnd);
    }
  }

  /** Fragments wait until they are acknowledged: only a message adds some, only arrivals take some. */
  lemma DeedWaits(n: Node, d: Deed)
    requires n.kcp.params.Valid()
    ensures Do(n, d).kcp.params == n.kcp.params
    ensures var before, after := n.kcp.WaitSnd(), Do(n, d).kcp.WaitSnd();
            match d
            case Submitted(m) =>
              after == before + if Accepts(n.kcp.params, m) then FragmentCount(n.kcp.params.Mss(), |m|) else 0
            case Arrived(_) => after <= before
            case _ => after == before
    ensures Do(n, d).sent == match d
                             case Submitted(m) => if Accepts(n.kcp.params, m) then n.sent + [m] else n.sent
                             case _ => n.sent
    ensures n.out <= Do(n, d).out
  {
    match d
    case Submitted(_) =>
    case Flushing(_, _, _) => FillKeepsCount(n.kcp.snd, SendWindow(n.kcp));
    case Arrived(packet) => InputKeeps(n.kcp, packet);
    case Drained =>
  }

  /** One deed after the other. */
  function DoAll(n: Node, deeds: seq<Deed>): (m: Node)
    requires n.kcp.params.Valid()
    ensures m.kcp.params == n.kcp.params
  {
    if deeds == [] then n
    else
      var before := DoAll(n, deeds[..|deeds| - 1]);
      DeedWaits(before, deeds[|deeds| - 1]);
      Do(before, deeds[|deeds| - 1])
  }

  lemma {:induction false} DoAllAdds(n: Node, first: seq<Deed>, second: seq<Deed>)
    requires n.kcp.params.Valid()
    ensures DoAll(n, first + second) == DoAll(DoAll(n, first), second)
    decreases |second|
  {
    if second == [] {
      assert first + [] == first;
    } else {
      var deeds, last := first + second, |second| - 1;
      assert deeds[..|deeds| - 1] == first + second[..last];
      DoAllAdds(n, first, second[..last]);
    }
  }

  lemma DoOne(n: Node, d: Deed)
    requires n.kcp.params.Valid()
    ensures DoAll(n, [d]) == Do(n, d)
  {
    assert [d][..0] == [];
    assert DoAll(n, [d][..0]) == n;
  }

  /** What these deeds make of a new node. */
  function After(params: Params, deeds: seq<Deed>): (n: Node)
    requires params.Valid()
    ensures n.kcp.params == params
  {
    DoAll(Start(params), deeds)
  }

  // ------------------------------------------------------------------ session operations

  /** Update, which flushes when its timer is due. */
  function Polled(n: Node, t: Timing): Node
    requires n.kcp.params.Valid()
  {
    if t.due then Do(n, Flushing(t.now, t.resend, t.probe)) else n
  }

  /** Update, and flush whether or not the timer was due. */
  function FlushedNow(n: Node, t: Timing): (n': Node)
    requires n.kcp.params.Valid()
  {
    var m := Polled(n, t);
    assert m.kcp.params == n.kcp.params;
    Do(m, Flushing(t.now, t.resendNext, t.probeNext))
  }

  function Submitting(n: Node, m: SessionMessage, t: Timing): Node
    requires n.kcp.params.Valid()
  {
    FlushedNow(Do(n, Submitted(EncodeSession(m))), t)
  }

  lemma {:induction false} MoveBufKeepsCount(wnd: U16, r: ReceiveSide)
    ensures var s := MoveBuf(Wrapping, wnd, r);
            |s.queue| + |s.buf| == |r.queue| + |r.buf|
    decreases |r.buf|
  {
    if r.buf == [] || r.buf[0].sn != r.nxt || |r.queue| >= wnd {
    } else {
      MoveBufKeepsCount(wnd, r.(
        nxt := Advance(Wrapping, r.nxt, 1), queue := r.queue + [r.buf[0].fragment], buf := r.buf[1..]));
    }
  }

  function Holding(n: Node): nat { |n.kcp.rcv.queue| + |n.kcp.rcv.buf| }

  lemma DrainProgress(n: Node)
    requires n.kcp.params.Valid() && PeekSize(n.kcp.rcv.queue).Ok?
    ensures Holding(Do(n, Drained)) < Holding(n)
  {
    var q := n.kcp.rcv.queue;
    MoveBufKeepsCount(n.kcp.params.rcvWnd, n.kcp.rcv.(queue := q[MessageEnd(q)..]));
  }

  /** Messages are taken out as long as there is a complete one. */
  function AllDrained(n: Node): Node
    requires n.kcp.params.Valid()
    decreases Holding(n)
  {
    if PeekSize(n.kcp.rcv.queue).Ok? then
      DrainProgress(n);
      AllDrained(Do(n, Drained))
    else n
  }

  /** A packet arrives: it is answered, and the messages it completed are taken out. */
  function Receiving(n: Node, packet: seq<Segment>, t: Timing): Node
    requires n.kcp.params.Valid()
  {
    DeedWaits(n, Arrived(packet));
    var m := Do(n, Arrived(packet));
    AllDrained(FlushedNow(m, t))
  }

  // ------------------------------------------------------------------ the deeds behind them

  function PolledDeeds(t: Timing): seq<Deed> { if t.due then [Flushing(t.now, t.resend, t.probe)] else [] }

  function FlushedDeeds(t: Timing): seq<Deed> { PolledDeeds(t) + [Flushing(t.now, t.resendNext, t.probeNext)] }

  function SubmittingDeeds(m: SessionMessage, t: Timing): seq<Deed> { [Submitted(EncodeSession(m))] + FlushedDeeds(t) }

  function DrainingDeeds(n: Node): seq<Deed>
    requires n.kcp.params.Valid()
    decreases Holding(n)
  {
    if PeekSize(n.kcp.rcv.queue).Ok? then
      DrainProgress(n);
      [Drained] + DrainingDeeds(Do(n, Drained))
    else []
  }

  function ReceivingDeeds(n: Node, packet: seq<Segment>, t: Timing): seq<Deed>
    requires n.kcp.params.Valid()
  {
    DeedWaits(n, Arrived(packet));
    var m := Do(n, Arrived(packet));
    FlushedNowFollows(m, t);
    [Arrived(packet)] + FlushedDeeds(t) + DrainingDeeds(FlushedNow(m, t))
  }

  lemma PolledIs(n: Node, t: Timing)
    requires n.kcp.params.Valid()
    ensures Polled(n, t) == DoAll(n, PolledDeeds(t))
  {
    if t.due { DoOne(n, Flushing(t.now, t.resend, t.probe)); }
  }

  lemma FlushedIs(n: Node, t: Timing)
    requires n.kcp.params.Valid()
    ensures FlushedNow(n, t) == DoAll(n, FlushedDeeds(t))
  {
    PolledIs(n, t);
    DoOne(Polled(n, t), Flushing(t.now, t.resendNext, t.probeNext));
    DoAllAdds(n, PolledDeeds(t), [Flushing(t.now, t.resendNext, t.probeNext)]);
  }

  lemma SubmittingIs(n: Node, m: SessionMessage, t: Timing)
    requires n.kcp.params.Valid()
    ensures Submitting(n, m, t) == DoAll(n, SubmittingDeeds(m, t))
  {
    var d := Submitted(EncodeSession(m));
    DeedWaits(n, d);
    DoOne(n, d);
    FlushedIs(Do(n, d), t);
    DoAllAdds(n, [d], FlushedDeeds(t));
  }

  lemma {:induction false} DrainedIs(n: Node)
    requires n.kcp.params.Valid()
    ensures AllDrained(n) == DoAll(n, DrainingDeeds(n))
    decreases Holding(n)
  {
    if PeekSize(n.kcp.rcv.queue).Ok? {
      DrainProgress(n);
      DeedWaits(n, Drained);
      DrainedIs(Do(n, Drained));
      DoOne(n, Drained);
      DoAllAdds(n, [Drained], DrainingDeeds(Do(n, Drained)));
    } else {
      assert DrainingDeeds(n) == [];
    }
  }

  lemma ReceivingIs(n: Node, packet: seq<Segment>, t: Timing)
    requires n.kcp.params.Valid()
    ensures Receiving(n, packet, t) == DoAll(n, ReceivingDeeds(n, packet, t))
  {
    var d := Arrived(packet);
    DeedWaits(n, d);
    var m := Do(n, d);
    FlushedNowFollows(m, t);
    DoOne(n, d);
    FlushedIs(m, t);
    DrainedIs(FlushedNow(m, t));
    DoAllAdds(n, [d], FlushedDeeds(t));
    DoAllAdds(n, [d] + FlushedDeeds(t), DrainingDeeds(FlushedNow(m, t)));
  }

  /** The session gives a message to its node. */
  function Submits(s: Session, m: SessionMessage, t: Timing): Session
    requires s.node.kcp.params.Valid()
  {
    s.(node := Submitting(s.node, m, t), deeds := s.deeds + SubmittingDeeds(m, t))
  }

  /** The session gives a packet to its node. */
  function Receives(s: Session, packet: seq<Segment>, t: Timing): Session
    requires s.node.kcp.params.Valid()
  {
    s.(node := Receiving(s.node, packet, t), deeds := s.deeds + ReceivingDeeds(s.node, packet, t))
  }

  /** The session runs the timer of its node. */
  function Runs(s: Session, t: Timing): Session
    requires s.node.kcp.params.Valid()
  {
    s.(node := Polled(s.node, t), deeds := s.deeds + PolledDeeds(t))
  }

  /** The node is what the session's deeds have made of a new one. */
  ghost predicate Logged(params: Params, s: Session)
    requires params.Valid()
  {
    After(params, s.deeds) == s.node
  }

  lemma OperationsAreLogged(params: Params, s: Session, m: SessionMessage, packet: seq<Segment>, t: Timing)
    requires params.Valid() && Logged(params, s)
    ensures s.node.kcp.params == params
    ensures Logged(params, Submits(s, m, t)) && Logged(params, Receives(s, packet, t)) && Logged(params, Runs(s, t))
  {
    SubmittingIs(s.node, m, t);
    DoAllAdds(Start(params), s.deeds, SubmittingDeeds(m, t));
    ReceivingIs(s.node, packet, t);
    DoAllAdds(Start(params), s.deeds, ReceivingDeeds(s.node, packet, t));
    PolledIs(s.node, t);
    DoAllAdds(Start(params), s.deeds, PolledDeeds(t));
  }

  /** The packets that were put out. */
  function NewPackets(n: Node, m: Node): seq<seq<Segment>> {
    if |n.out| <= |m.out| then m.out[|n.out|..] else []
  }

  // ------------------------------------------------------------------ what the operations keep

  /** `m` came out of `n` by deeds, without a new message, and no more fragments wait. */
  ghost predicate Follows(n: Node, m: Node) {
    && m.kcp.params == n.kcp.params && m.sent == n.sent
    && m.kcp.WaitSnd() <= n.kcp.WaitSnd()
    && n.out <= m.out && n.got <= m.got
  }

  lemma FlushFollows(n: Node, now: nat, resend: set<nat>, probe: bool)
    requires n.kcp.params.Valid()
    ensures var m := Do(n, Flushing(now, resend, probe));
            Follows(n, m) && m.kcp.WaitSnd() == n.kcp.WaitSnd() && m.got == n.got
  {
    DeedWaits(n, Flushing(now, resend, probe));
  }

  lemma FlushedNowFollows(n: Node, t: Timing)
    requires n.kcp.params.Valid()
    ensures Follows(n, FlushedNow(n, t)) && FlushedNow(n, t).kcp.WaitSnd() == n.kcp.WaitSnd()
    ensures FlushedNow(n, t).got == n.got
  {
    var m := Polled(n, t);
    FlushFollows(n, t.now, t.resend, t.probe);
    FlushFollows(m, t.now, t.resendNext, t.probeNext);
  }

  lemma PolledFollows(n: Node, t: Timing)
    requires n.kcp.params.Valid()
    ensures Follows(n, Polled(n, t)) && Polled(n, t).kcp.WaitSnd() == n.kcp.WaitSnd()
    ensures Polled(n, t).got == n.got
  {
    FlushFollows(n, t.now, t.resend, t.probe);
  }

  lemma DrainFollows(n: Node)
    requires n.kcp.params.Valid()
    ensures Follows(n, Do(n, Drained)) && Do(n, Drained).out == n.out
  {
    DeedWaits(n, Drained);
  }

  lemma {:induction false} AllDrainedFollows(n: Node)
    requires n.kcp.params.Valid()
    ensures Follows(n, AllDrained(n)) && AllDrained(n).out == n.out
    ensures PeekSize(AllDrained(n).kcp.rcv.queue).Err?
    decreases Holding(n)
  {
    if PeekSize(n.kcp.rcv.queue).Err? {
    } else {
      DrainProgress(n);
      DrainFollows(n);
      AllDrainedFollows(Do(n, Drained));
    }
  }

  lemma ReceivingFollows(n: Node, packet: seq<Segment>, t: Timing)
    requires n.kcp.params.Valid()
    ensures Follows(n, Receiving(n, packet, t))
  {
    var d := Arrived(packet);
    DeedWaits(n, d);
    var m := Do(n, d);
    FlushedNowFollows(m, t);
    AllDrainedFollows(FlushedNow(m, t));
  }

  /** A message that is accepted adds its fragments to those that wait. */
  lemma SubmittingWaits(n: Node, m: SessionMessage, t: Timing)
    requires n.kcp.params.Valid() && Accepts(n.kcp.params, EncodeSession(m))
    ensures var n' := Submitting(n, m, t);
            && n'.kcp.params == n.kcp.params
            && n'.sent == n.sent + [EncodeSession(m)]
            && n'.kcp.WaitSnd() == n.kcp.WaitSnd() + FragmentCount(n.kcp.params.Mss(), |EncodeSession(m)|)
            && n.out <= n'.out && n'.got == n.got
  {
    var d := Submitted(EncodeSession(m));
    DeedWaits(n, d);
    FlushedNowFollows(Do(n, d), t);
  }
}
