/**
 From one endpoint to the other: a packet that a session's KCP puts out is, when it arrives over
 relays, exactly the packet that the other session's KCP is given.
 */
module EndToEnd {
  import opened Bytes
  import opened Endpoint
  import opened EndpointSpec
  import EndpointRuns
  import opened Exchanges
  import opened KcpCodec
  import opened KcpMachine
  import opened KcpPackets
  import opened KcpPair
  import opened KcpTheorems
  import opened GracefulClose
  import opened Options
  import Relay
  import opened SenderSpec
  import SessionRuns
  import SessionStory
  import SessionStream
  import opened SessionTable
  import opened Wire

  /** A packet that parses to its segments is of their conversation. */
  lemma ParsedConv(conv: nat, packet: seq<Segment>)
    requires packet != []
    requires var bytes := EncodePacket(packet);
             Parse(conv, bytes, |bytes|) == Parsed(packet, Outcome.Ok(|bytes|))
    ensures |EncodePacket(packet)| >= OVERHEAD && HeaderConv(EncodePacket(packet)) == conv
  {
  }

  /** Over a full journey the message survives behind its seals. */
  lemma MessageArrives(
      c: SenderSpec.Config, send: Relay.Send, now: nat, packet: seq<Byte>, sample: bool, sends: seq<Relay.Send>)
    requires CarriesKcp(c, send, now, packet, sample)
    requires Relay.Journey(send.packet, sends)
    requires |sends| == |Relay.OpenPacket(send.packet).envelope.routePlan|
    ensures EndpointRuns.MessageIn(Arriving(send.packet, sends), true) == Some(KcpMessage(packet, sample))
  {
    MessageSurvives(c, send, now, KcpMessage(packet, sample), sends);
  }

  /**
   Whatever KCP packet the transmitter sends for a node, when all its relays have sent it on, the
   other endpoint finds the same segments in it, and hands them to the node of that conversation.
   */
  lemma KcpPacketArrives(
      pa: Params, pb: Params, moves: seq<Move>, atA: bool, k: nat,
      c: SenderSpec.Config, send: Relay.Send, now: nat, sample: bool, sends: seq<Relay.Send>)
    requires pa.Valid() && pb.Valid() && pa.conv == pb.conv && pa.mtu <= 0x1_0000_0000 && pb.mtu <= 0x1_0000_0000
    requires Timely(pa, pb, moves) && Clocked(moves)
    requires k < |Run(Wrapping, pa, pb, moves, |moves|).Me(atA).out|
    requires CarriesKcp(c, send, now, EncodePacket(Run(Wrapping, pa, pb, moves, |moves|).Me(atA).out[k]), sample)
    requires Relay.Journey(send.packet, sends)
    requires |sends| == |Relay.OpenPacket(send.packet).envelope.routePlan|
    ensures var packet := Run(Wrapping, pa, pb, moves, |moves|).Me(atA).out[k];
            var bytes := EncodePacket(packet);
            && EndpointRuns.MessageIn(Arriving(send.packet, sends), true) == Some(KcpMessage(bytes, sample))
            && |bytes| >= OVERHEAD && HeaderConv(bytes) == pa.conv
            && Parse(pa.conv, bytes, |bytes|).outcome.Ok?
            && EndpointCore.Segments(bytes) == packet
  {
    var packet := Run(Wrapping, pa, pb, moves, |moves|).Me(atA).out[k];
    PeerPacketsParse(pa, pb, moves, atA, k);
    MessageArrives(c, send, now, EncodePacket(packet), sample, sends);
    ParsedConv(pa.conv, packet);
  }

  /** A KCP packet that counts is given to its session, segment by segment, and what it completes is taken out. */
  lemma KcpPacketIsGiven(
      c: SessionTable.Config, tb: Table, tb': Table, now: nat, peerSeq: nat, m: EndpointMessage, t: Timing, tq: Timing,
      packets: seq<seq<Segment>>)
    requires m.KcpPacket? && EndpointCore.Handled(c, tb, tb', now, peerSeq, m, t, tq, packets)
    requires HeaderConv(m.packet) !in tb.tombstones
    requires var conv, segments := HeaderConv(m.packet), EndpointCore.Segments(m.packet);
             && (conv in tb.sessions ==>
               SessionStory.Settled(tb, conv, now) && Bound(tb.sessions[conv], peerSeq))
             && SessionStory.Welcome(Admitted(c, tb, now, conv, peerSeq), conv,
                                     PacketMessages(c, tb, now, conv, peerSeq, segments, t))
    ensures var conv := HeaderConv(m.packet);
            conv in tb'.sessions && SessionStory.Took(tb, tb', conv, peerSeq, EndpointCore.Segments(m.packet))
  {
    SessionStory.PacketIsTaken(c, tb, now, HeaderConv(m.packet), peerSeq, EndpointCore.Segments(m.packet), t, tq);
  }

  /**
   Graceful close over runs: in every run of the session table, a session that was closed locally
   and finished before its deadline had its Close as its last message and all its packets from the
   network; and however its deeds interleave with those of a genuine peer, that peer has accepted
   every segment of every message including the Close.
   */
  lemma GracefulInEveryRun(
      c: SessionTable.Config, tables: seq<Table>, events: seq<SessionRuns.Moment>, n: nat, f: Finished, pb: Params,
      js: seq<Joint>)
    requires SessionRuns.Run(c, tables, events) && n <= |events|
    requires f in tables[n].finished && !DeadlineHit(f.session, f.at) && Played(f.session, pb, js)
    ensures f.session.closeQueued && CloseIsLast(f.session)
    ensures SessionRuns.GivenOnly(f.session.deeds, SessionRuns.Came(events, f.session.node.kcp.params.conv, n))
    ensures var pa, moves := f.session.node.kcp.params, MovesOf(js);
            var q := Run(Unbounded, pa, pb, moves, |moves|);
            var p := Run(Wrapping, pa, pb, moves, |moves|);
            && p.a == f.session.node
            && HasAll(q.a, q.b)
            && (p.b.kcp.rcv.buf == [] && p.b.kcp.rcv.queue == [] ==> p.b.got == f.session.node.sent)
  {
    SessionRuns.EveryRun(c, tables, events, n);
    CloseReachesPeer(c, tables[n], SessionRuns.ClockAt(events, n), f, pb, js);
    assert SessionRuns.GivenFinished(f, SessionRuns.CameBy(events, n));
  }

  /**
   The byte stream arrives in order: in every run of the session table, what a session has written
   to the shell since it began are, chunk by chunk, the first of the chunks that its peer was given
   to send.  While the session is open it is all that has been handed over.
   */
  lemma BytesArriveInOrder(
      c: SessionTable.Config, tables: seq<Table>, events: seq<SessionRuns.Moment>, n: nat, conv: nat, pb: Params,
      js: seq<Joint>)
    requires SessionRuns.Run(c, tables, events) && n <= |events|
    requires conv in tables[n].sessions && Played(tables[n].sessions[conv], pb, js)
    ensures var s, moves := tables[n].sessions[conv], MovesOf(js);
            var p := Run(Wrapping, s.node.kcp.params, pb, moves, |moves|);
            var written := SessionStream.Written(tables[n].trace, conv);
            && p.a == s.node
            && written <= SessionStream.DataOf(p.b.sent)
            && (s.phase.Active? ==> written == SessionStream.DataOf(s.node.got))
  {
    var s := tables[n].sessions[conv];
    SessionRuns.EveryRun(c, tables, events, n);
    assert SessionOk(c, conv, s) && SessionStream.StreamAt(c, tables[n], conv);
    SessionStream.WrittenOfGot(c, tables[n], conv);
    DeedsAreARun(s.node.kcp.params, pb, js, |js|);
    OrderedExactlyOnce(s.node.kcp.params, pb, MovesOf(js));
    var p := Run(Wrapping, s.node.kcp.params, pb, MovesOf(js), |js|);
    SessionStream.DataOfPrefix(s.node.got, p.b.sent);
  }
}
