/**
 Runs of the session table: any sequence of events that the shell, the clock and the network may
 bring about.  What every run keeps, and where the packets that a session was given come from.
 */
module SessionRuns {
  import opened Bytes
  import opened EndpointSpec
  import opened KcpMachine
  import opened KcpPair
  import opened KeyOrder
  import opened SessionRest
  import opened SessionSafety
  import SessionStream
  import opened SessionTable
  import SessionTrace
  import opened Wire

  datatype Event =
    | Opens(conv: nat, t: Timing)
    | Writes(conv: nat, bytes: seq<Byte>, t: Timing)
    | Closes(conv: nat, reason: CloseReason, t: Timing)
    | Comes(conv: nat, peerSeq: nat, packet: seq<Segment>, t: Timing, tq: Timing)
    | Forgets(removed: seq<nat>)
    | Unburies
    | Polls(queues: nat -> Timing, polls: nat -> Timing)

  datatype Moment = Moment(now: nat, event: Event)

  /** What the shell promises of its events, and a genuine peer of its packets. */
  ghost predicate Possible(c: Config, tb: Table, e: Event, now: nat)
    requires c.Valid()
  {
    match e
    case Opens(conv, _) => conv < CONV_SPAN && conv !in tb.sessions && conv !in tb.tombstones
    case Writes(conv, bytes, _) =>
      && conv in tb.sessions && tb.sessions[conv].phase.Active?
      && tb.sessions[conv].node.kcp.params == c.ParamsFor(conv) && c.ParamsFor(conv).Valid()
      && Accepts(c.ParamsFor(conv), EncodeSession(Data(bytes)))
    case Closes(conv, _, _) =>
      conv in tb.sessions && tb.sessions[conv].phase.Active? && tb.sessions[conv].node.kcp.params.Valid()
    case Comes(conv, peerSeq, packet, t, _) =>
      && conv < CONV_SPAN && (conv in tb.sessions ==> tb.sessions[conv].node.kcp.params.Valid())
      && Decodable(PacketMessages(c, tb, now, conv, peerSeq, packet, t))
    case _ => true
  }

  /** A write is refused when its fragments do not fit the window. */
  function AfterWrite(c: Config, tb: Table, now: nat, conv: nat, bytes: seq<Byte>, t: Timing): Table
    requires conv in tb.sessions && tb.sessions[conv].node.kcp.params.Valid()
  {
    var s := tb.sessions[conv];
    if s.WaitSnd() + FragmentCount(s.node.kcp.params.Mss(), |EncodeSession(Data(bytes))|) > c.sndWnd then tb
    else SendMessage(tb, now, conv, Data(bytes), t)
  }

  ghost function Happen(c: Config, tb: Table, e: Event, now: nat): Table
    requires c.Valid() && Possible(c, tb, e, now)
  {
    match e
    case Opens(conv, t) => OpenLocal(c, tb, now, conv, t)
    case Writes(conv, bytes, t) => AfterWrite(c, tb, now, conv, bytes, t)
    case Closes(conv, reason, t) => CloseLocal(c, tb, now, conv, reason, t)
    case Comes(conv, peerSeq, packet, t, tq) => HandlePacket(c, tb, now, conv, peerSeq, packet, t, tq)
    case Forgets(removed) => EvictPeers(tb, now, removed, |removed|)
    case Unburies => ForgetTombstones(tb, now)
    case Polls(tq, tp) => Visited(c, tb, now, tq, tp)
  }

  /** The tables before, between and after the events of a run that began with nothing. */
  ghost predicate Run(c: Config, tables: seq<Table>, events: seq<Moment>) {
    && c.Valid() && |tables| == |events| + 1 && tables[0] == Table(map[], map[], [], [])
    && (forall i, j :: 0 <= i < j < |events| ==> events[i].now <= events[j].now)
    && forall i :: 0 <= i < |events| ==> HappensAt(c, tables, events, i)
  }

  ghost predicate HappensAt(c: Config, tables: seq<Table>, events: seq<Moment>, i: nat)
    requires c.Valid() && i < |events| && |tables| == |events| + 1
  {
    && Possible(c, tables[i], events[i].event, events[i].now)
    && tables[i + 1] == Happen(c, tables[i], events[i].event, events[i].now)
  }

  // ------------------------------------------------------------------ where packets come from

  /** The packets that came for `conv` during the first `n` events. */
  function Came(events: seq<Moment>, conv: nat, n: nat): set<seq<Segment>>
    requires n <= |events|
  {
    set i | 0 <= i < n && events[i].event.Comes? && events[i].event.conv == conv :: events[i].event.packet
  }

  /** What has come, for every conversation. */
  type Arrivals = nat -> set<seq<Segment>>

  function CameBy(events: seq<Moment>, n: nat): Arrivals
    requires n <= |events|
  {
    (conv: nat) => Came(events, conv, n)
  }

  /** Every packet that these deeds were given is one of these. */
  ghost predicate GivenOnly(deeds: seq<Deed>, packets: set<seq<Segment>>) {
    forall k :: 0 <= k < |deeds| && deeds[k].Arrived? ==> deeds[k].packet in packets
  }

  /** No session, living or finished, was given a packet that has not come for it. */
  ghost predicate Given(tb: Table, came: Arrivals) {
    && (forall conv :: GivenAt(tb, conv, came(conv)))
    && forall i :: 0 <= i < |tb.finished| ==> GivenFinished(tb.finished[i], came)
  }

  ghost predicate GivenAt(tb: Table, conv: nat, packets: set<seq<Segment>>) {
    conv in tb.sessions ==>
      tb.sessions[conv].node.kcp.params.conv == conv && GivenOnly(tb.sessions[conv].deeds, packets)
  }

  ghost predicate GivenFinished(f: Finished, came: Arrivals) {
    GivenOnly(f.session.deeds, came(f.session.node.kcp.params.conv))
  }

  lemma FinishGiven(tb: Table, now: nat, conv: nat, came: Arrivals)
    requires Given(tb, came)
    ensures Given(FinishClosed(tb, now, conv), came)
  {
    var tb' := FinishClosed(tb, now, conv);
    assert GivenAt(tb, conv, came(conv));
    forall v ensures GivenAt(tb', v, came(v)) {
      assert GivenAt(tb, v, came(v));
    }
    forall i | 0 <= i < |tb'.finished| ensures GivenFinished(tb'.finished[i], came) {
      if i < |tb.finished| { assert GivenFinished(tb.finished[i], came); }
    }
  }

  /** A session is put in whose packets have come. */
  lemma PutGiven(tb: Table, conv: nat, s: Session, came: Arrivals)
    requires Given(tb, came) && s.node.kcp.params.conv == conv && GivenOnly(s.deeds, came(conv))
    ensures Given(tb.Put(conv, s), came)
  {
    forall v ensures GivenAt(tb.Put(conv, s), v, came(v)) {
      assert GivenAt(tb, v, came(v));
    }
  }

  /** A session less, or another trace, changes nothing of what was given. */
  lemma LessGiven(tb: Table, tb': Table, came: Arrivals)
    requires Given(tb, came) && tb'.finished == tb.finished
    requires forall v :: v in tb'.sessions ==> v in tb.sessions && tb'.sessions[v] == tb.sessions[v]
    ensures Given(tb', came)
  {
    forall v ensures GivenAt(tb', v, came(v)) {
      assert GivenAt(tb, v, came(v));
    }
  }

  lemma MoreGiven(first: seq<Deed>, second: seq<Deed>, packets: set<seq<Segment>>)
    requires GivenOnly(first, packets) && GivenOnly(second, packets)
    ensures GivenOnly(first + second, packets)
  {
  }

  lemma FlushingGivesNothing(t: Timing, packets: set<seq<Segment>>)
    ensures GivenOnly(PolledDeeds(t), packets) && GivenOnly(FlushedDeeds(t), packets)
  {
  }

  lemma {:induction false} DrainingGivesNothing(n: Node, packets: set<seq<Segment>>)
    requires n.kcp.params.Valid()
    ensures GivenOnly(DrainingDeeds(n), packets)
    decreases Holding(n)
  {
    if PeekSize(n.kcp.rcv.queue).Ok? {
      DrainProgress(n);
      DeedWaits(n, Drained);
      DrainingGivesNothing(Do(n, Drained), packets);
      MoreGiven([Drained], DrainingDeeds(Do(n, Drained)), packets);
    } else {
      assert DrainingDeeds(n) == [];
    }
  }

  lemma SubmitsGiven(s: Session, m: SessionMessage, t: Timing, packets: set<seq<Segment>>)
    requires s.node.kcp.params.Valid() && GivenOnly(s.deeds, packets)
    ensures GivenOnly(Submits(s, m, t).deeds, packets)
  {
    FlushingGivesNothing(t, packets);
    MoreGiven([Submitted(EncodeSession(m))], FlushedDeeds(t), packets);
    MoreGiven(s.deeds, SubmittingDeeds(m, t), packets);
  }

  lemma SubmitsKeepsParams(s: Session, m: SessionMessage, t: Timing)
    requires s.node.kcp.params.Valid()
    ensures Submits(s, m, t).node.kcp.params == s.node.kcp.params
  {
    DeedWaits(s.node, Submitted(EncodeSession(m)));
    FlushedNowFollows(Do(s.node, Submitted(EncodeSession(m))), t);
  }

  lemma RunsGiven(s: Session, t: Timing, packets: set<seq<Segment>>)
    requires s.node.kcp.params.Valid() && GivenOnly(s.deeds, packets)
    ensures GivenOnly(Runs(s, t).deeds, packets)
    ensures Runs(s, t).node.kcp.params == s.node.kcp.params
  {
    PolledFollows(s.node, t);
    FlushingGivesNothing(t, packets);
    MoreGiven(s.deeds, PolledDeeds(t), packets);
  }

  lemma ReceivesGiven(s: Session, packet: seq<Segment>, t: Timing, packets: set<seq<Segment>>)
    requires s.node.kcp.params.Valid() && GivenOnly(s.deeds, packets) && packet in packets
    ensures GivenOnly(Receives(s, packet, t).deeds, packets)
  {
    DeedWaits(s.node, Arrived(packet));
    var m := Do(s.node, Arrived(packet));
    FlushedNowFollows(m, t);
    FlushingGivesNothing(t, packets);
    MoreGiven([Arrived(packet)], FlushedDeeds(t), packets);
    DrainingGivesNothing(FlushedNow(m, t), packets);
    MoreGiven([Arrived(packet)] + FlushedDeeds(t), DrainingDeeds(FlushedNow(m, t)), packets);
    MoreGiven(s.deeds, ReceivingDeeds(s.node, packet, t), packets);
  }

  lemma SendGiven(tb: Table, now: nat, conv: nat, m: SessionMessage, t: Timing, came: Arrivals)
    requires conv in tb.sessions && tb.sessions[conv].node.kcp.params.Valid() && Given(tb, came)
    ensures Given(SendMessage(tb, now, conv, m, t), came)
  {
    assert GivenAt(tb, conv, came(conv));
    SubmitsGiven(tb.sessions[conv], m, t, came(conv));
    SubmitsKeepsParams(tb.sessions[conv], m, t);
    PutGiven(tb, conv, Submits(tb.sessions[conv], m, t), came);
    FinishGiven(tb.Put(conv, Submits(tb.sessions[conv], m, t)), now, conv, came);
  }

  lemma OpenGiven(c: Config, tb: Table, now: nat, conv: nat, t: Timing, came: Arrivals)
    requires c.Valid() && conv < CONV_SPAN && Given(tb, came)
    ensures Given(OpenLocal(c, tb, now, conv, t), came)
  {
    var s := NewSession(c.ParamsFor(conv), Active);
    PutGiven(tb, conv, s, came);
    var entered := tb.Put(conv, s).Log(now, SessionTrace.Entered(conv, true));
    LessGiven(tb.Put(conv, s), entered, came);
    SendGiven(entered, now, conv, Open, t, came);
  }

  lemma QueueGiven(c: Config, tb: Table, now: nat, conv: nat, t: Timing, came: Arrivals)
    requires conv in tb.sessions ==> tb.sessions[conv].node.kcp.params.Valid()
    requires Given(tb, came)
    ensures Given(QueueClose(c, tb, now, conv, t), came)
  {
    if ClosesNow(c, tb, now, conv) {
      var s := tb.sessions[conv];
      assert GivenAt(tb, conv, came(conv));
      PutGiven(tb, conv, s.(closeQueued := true), came);
      SendGiven(tb.Put(conv, s.(closeQueued := true)), now, conv, Close(s.pendingClose.value), t, came);
    }
  }

  lemma CloseGiven(c: Config, tb: Table, now: nat, conv: nat, reason: CloseReason, t: Timing, came: Arrivals)
    requires conv in tb.sessions && tb.sessions[conv].node.kcp.params.Valid() && Given(tb, came)
    ensures Given(CloseLocal(c, tb, now, conv, reason, t), came)
  {
    var s := ClosingSession(c, tb.sessions[conv], now, reason);
    assert GivenAt(tb, conv, came(conv));
    PutGiven(tb, conv, s, came);
    LessGiven(tb.Put(conv, s), Begun(c, tb, now, conv, reason), came);
    QueueGiven(c, Begun(c, tb, now, conv, reason), now, conv, t, came);
  }

  lemma MessageGiven(c: Config, tb: Table, now: nat, conv: nat, m: SessionMessage, came: Arrivals)
    requires Given(tb, came)
    ensures Given(HandleMessage(c, tb, now, conv, m), came)
  {
    var tb' := HandleMessage(c, tb, now, conv, m);
    forall v ensures GivenAt(tb', v, came(v)) {
      assert GivenAt(tb, v, came(v));
    }
  }

  lemma {:induction false} MessagesGiven(
      c: Config, tb: Table, now: nat, conv: nat, messages: seq<Message>, n: nat, came: Arrivals)
    requires n <= |messages| && Decodable(messages) && Given(tb, came)
    ensures Given(HandleMessages(c, tb, now, conv, messages, n), came)
  {
    if n == 0 {
      assert HandleMessages(c, tb, now, conv, messages, n) == tb;
    } else {
      MessagesGiven(c, tb, now, conv, messages, n - 1, came);
      MessageGiven(c, HandleMessages(c, tb, now, conv, messages, n - 1), now, conv,
                   DecodeSession(messages[n - 1]).value, came);
    }
  }

  lemma AdmittedGiven(c: Config, tb: Table, now: nat, conv: nat, peerSeq: nat, came: Arrivals)
    requires Given(tb, came)
    ensures Given(Admitted(c, tb, now, conv, peerSeq), came)
  {
    var tb' := Admitted(c, tb, now, conv, peerSeq);
    forall v ensures GivenAt(tb', v, came(v)) {
      assert GivenAt(tb, v, came(v));
    }
  }

  lemma PacketGiven(
      c: Config, tb: Table, now: nat, conv: nat, peerSeq: nat, packet: seq<Segment>, t: Timing, tq: Timing,
      came: Arrivals)
    requires c.Valid() && conv < CONV_SPAN
    requires conv in tb.sessions ==> tb.sessions[conv].node.kcp.params.Valid()
    requires Decodable(PacketMessages(c, tb, now, conv, peerSeq, packet, t))
    requires Given(tb, came) && packet in came(conv)
    ensures Given(HandlePacket(c, tb, now, conv, peerSeq, packet, t, tq), came)
  {
    var open := Admitted(c, tb, now, conv, peerSeq);
    AdmittedGiven(c, tb, now, conv, peerSeq, came);
    if conv !in tb.tombstones && Bound(open.sessions[conv], peerSeq) {
      var s := Reached(c, tb, now, conv, peerSeq, packet, t);
      var messages := PacketMessages(c, tb, now, conv, peerSeq, packet, t);
      assert GivenAt(open, conv, came(conv));
      ReceivesGiven(open.sessions[conv], packet, t, came(conv));
      ReceivingFollows(open.sessions[conv].node, packet, t);
      PutGiven(open, conv, s, came);
      var read := open.Put(conv, s);
      MessagesGiven(c, read, now, conv, messages, |messages|, came);
      MessagesKeepNode(c, read, now, conv, messages, |messages|);
      var handled := HandleMessages(c, read, now, conv, messages, |messages|);
      QueueGiven(c, handled, now, conv, tq, came);
      FinishGiven(QueueClose(c, handled, now, conv, tq), now, conv, came);
    }
  }

  lemma {:induction false} EvictAllKeepsFinished(tb: Table, now: nat, convs: seq<nat>, n: nat)
    requires n <= |convs|
    ensures EvictAll(tb, now, convs, n).finished == tb.finished
  {
    if n == 0 {
      assert EvictAll(tb, now, convs, n) == tb;
    } else {
      EvictAllKeepsFinished(tb, now, convs, n - 1);
    }
  }

  lemma {:induction false} EvictKeepsFinished(tb: Table, now: nat, removed: seq<nat>, n: nat)
    requires n <= |removed|
    ensures EvictPeers(tb, now, removed, n).finished == tb.finished
  {
    if n == 0 {
      assert EvictPeers(tb, now, removed, n) == tb;
    } else {
      EvictKeepsFinished(tb, now, removed, n - 1);
      var before := EvictPeers(tb, now, removed, n - 1);
      var convs := Ascending(PeerConvs(before, removed[n - 1]));
      EvictAllKeepsFinished(before, now, convs, |convs|);
    }
  }

  lemma EvictGiven(tb: Table, now: nat, removed: seq<nat>, came: Arrivals)
    requires Given(tb, came)
    ensures Given(EvictPeers(tb, now, removed, |removed|), came)
  {
    var tb' := EvictPeers(tb, now, removed, |removed|);
    EvictKeepsFinished(tb, now, removed, |removed|);
    forall v | v in tb'.sessions ensures v in tb.sessions && tb'.sessions[v] == tb.sessions[v] {
      EvictPeersLeaves(tb, now, removed, |removed|, v);
    }
    LessGiven(tb, tb', came);
  }

  lemma VisitGiven(c: Config, tb: Table, now: nat, conv: nat, tq: Timing, tp: Timing, came: Arrivals)
    requires Given(tb, came)
    ensures Given(PollStep(c, tb, now, conv, tq, tp), came)
  {
    if conv in tb.sessions && tb.sessions[conv].node.kcp.params.Valid() {
      QueueGiven(c, tb, now, conv, tq, came);
      var queued := QueueClose(c, tb, now, conv, tq);
      if conv in queued.sessions && queued.sessions[conv].node.kcp.params.Valid() {
        var s := queued.sessions[conv];
        assert GivenAt(queued, conv, came(conv));
        RunsGiven(s, tp, came(conv));
        PutGiven(queued, conv, Runs(s, tp), came);
        FinishGiven(queued.Put(conv, Runs(s, tp)), now, conv, came);
      }
    }
  }

  lemma {:induction false} VisitsGiven(
      c: Config, tb: Table, now: nat, convs: seq<nat>, n: nat, tq: nat -> Timing, tp: nat -> Timing, came: Arrivals)
    requires n <= |convs| && Given(tb, came)
    ensures Given(PollAll(c, tb, now, convs, n, tq, tp), came)
  {
    if n == 0 {
      assert PollAll(c, tb, now, convs, n, tq, tp) == tb;
    } else {
      VisitsGiven(c, tb, now, convs, n - 1, tq, tp, came);
      VisitGiven(c, PollAll(c, tb, now, convs, n - 1, tq, tp), now, convs[n - 1], tq(convs[n - 1]),
                 tp(convs[n - 1]), came);
    }
  }

  // ------------------------------------------------------------------ every event, every run

  lemma EventGiven(c: Config, tb: Table, e: Event, now: nat, came: Arrivals)
    requires c.Valid() && Possible(c, tb, e, now) && Given(tb, came)
    requires e.Comes? ==> e.packet in came(e.conv)
    ensures Given(Happen(c, tb, e, now), came)
  {
    match e
    case Opens(conv, t) => OpenGiven(c, tb, now, conv, t, came);
    case Writes(conv, bytes, t) => SendGiven(tb, now, conv, Data(bytes), t, came);
    case Closes(conv, reason, t) => CloseGiven(c, tb, now, conv, reason, t, came);
    case Comes(conv, peerSeq, packet, t, tq) => PacketGiven(c, tb, now, conv, peerSeq, packet, t, tq, came);
    case Forgets(removed) => EvictGiven(tb, now, removed, came);
    case Unburies => LessGiven(tb, ForgetTombstones(tb, now), came);
    case Polls(tq, tp) =>
      var convs := Ascending(tb.sessions.Keys);
      VisitsGiven(c, tb, now, convs, |convs|, tq, tp, came);
  }

  lemma EventStreams(c: Config, tb: Table, e: Event, now: nat)
    requires c.Valid() && Possible(c, tb, e, now) && SessionStream.Streams(c, tb)
    ensures SessionStream.Streams(c, Happen(c, tb, e, now))
  {
    match e
    case Opens(conv, t) => SessionStream.OpenStreams(c, tb, now, conv, t);
    case Writes(conv, bytes, t) => SessionStream.SendStreams(c, tb, now, conv, Data(bytes), t);
    case Closes(conv, reason, t) => SessionStream.CloseStreams(c, tb, now, conv, reason, t);
    case Comes(conv, peerSeq, packet, t, tq) => SessionStream.PacketStreams(c, tb, now, conv, peerSeq, packet, t, tq);
    case Forgets(removed) => SessionStream.EvictPeersStreams(c, tb, now, removed, |removed|);
    case Unburies => SessionStream.LessStreams(c, tb, ForgetTombstones(tb, now));
    case Polls(tq, tp) =>
      var convs := Ascending(tb.sessions.Keys);
      SessionStream.VisitsStream(c, tb, now, convs, |convs|, tq, tp);
  }

  lemma {:induction false} VisitsKeepTable(
      c: Config, tb: Table, now: nat, convs: seq<nat>, n: nat, tq: nat -> Timing, tp: nat -> Timing)
    requires c.Valid() && TableOk(c, tb, now) && n <= |convs|
    ensures TableOk(c, PollAll(c, tb, now, convs, n, tq, tp), now)
  {
    if n == 0 {
      assert PollAll(c, tb, now, convs, n, tq, tp) == tb;
    } else {
      VisitsKeepTable(c, tb, now, convs, n - 1, tq, tp);
      var before, conv := PollAll(c, tb, now, convs, n - 1, tq, tp), convs[n - 1];
      if conv in before.sessions { PollStepKeepsTable(c, before, now, now, conv, tq(conv), tp(conv)); }
    }
  }

  lemma WriteKeeps(c: Config, tb: Table, clock: nat, now: nat, conv: nat, bytes: seq<Byte>, t: Timing)
    requires c.Valid() && TableOk(c, tb, clock) && AtRest(tb) && clock <= now
    requires Possible(c, tb, Writes(conv, bytes, t), now)
    ensures var tb' := AfterWrite(c, tb, now, conv, bytes, t);
            TableOk(c, tb', now) && AtRest(tb')
  {
    TimePasses(tb, clock, now);
    if AfterWrite(c, tb, now, conv, bytes, t) != tb {
      WriteKeepsTable(c, tb, clock, now, conv, Data(bytes), t);
      WriteRests(tb, now, conv, Data(bytes), t);
    }
  }

  lemma EventKeepsTable(c: Config, tb: Table, clock: nat, e: Event, now: nat)
    requires c.Valid() && TableOk(c, tb, clock) && AtRest(tb) && clock <= now && Possible(c, tb, e, now)
    ensures TableOk(c, Happen(c, tb, e, now), now) && AtRest(Happen(c, tb, e, now))
  {
    match e
    case Opens(conv, t) =>
      OpenKeepsTable(c, tb, clock, now, conv, t);
      OpenRests(c, tb, now, conv, t);
    case Writes(conv, bytes, t) => WriteKeeps(c, tb, clock, now, conv, bytes, t);
    case Closes(conv, reason, t) =>
      assert SessionOk(c, conv, tb.sessions[conv]);
      CloseKeepsTable(c, tb, clock, now, conv, reason, t);
      CloseRests(c, tb, now, conv, reason, t);
    case Comes(conv, peerSeq, packet, t, tq) =>
      PacketKeepsTable(c, tb, clock, now, conv, peerSeq, packet, t, tq);
      PacketRests(c, tb, now, conv, peerSeq, packet, t, tq);
    case Forgets(removed) =>
      EvictPeersKeepsTable(c, tb, clock, now, removed, |removed|);
      EvictRests(tb, now, removed, |removed|);
    case Unburies =>
      ForgetKeepsTable(c, tb, clock, now);
      ForgetRests(tb, now);
    case Polls(tq, tp) =>
      var convs := Ascending(tb.sessions.Keys);
      TimePasses(tb, clock, now);
      VisitsKeepTable(c, tb, now, convs, |convs|, tq, tp);
      VisitsRest(c, tb, now, convs, |convs|, tq, tp);
  }

  function ClockAt(events: seq<Moment>, n: nat): nat
    requires n <= |events|
  {
    if n == 0 then 0 else events[n - 1].now
  }

  /**
   In every run every session is sound, whoever is closing waits for the peer, the trace is lawful,
   every local close that finished in time was graceful, no session was ever given a packet that had
   not come for it, and every session has written the data that its node handed over.
   */
  lemma {:induction false} EveryRun(c: Config, tables: seq<Table>, events: seq<Moment>, n: nat)
    requires Run(c, tables, events) && n <= |events|
    ensures TableOk(c, tables[n], ClockAt(events, n)) && AtRest(tables[n])
    ensures Given(tables[n], CameBy(events, n))
    ensures SessionTrace.Lawful(tables[n].trace) && SessionStream.Streams(c, tables[n])
  {
    if n == 0 {
      FirstTable(c, CameBy(events, 0));
    } else {
      EveryRun(c, tables, events, n - 1);
      assert HappensAt(c, tables, events, n - 1);
      var tb, m := tables[n - 1], events[n - 1];
      EventKeepsTable(c, tb, ClockAt(events, n - 1), m.event, m.now);
      MoreCame(tb, events, n);
      EventGiven(c, tb, m.event, m.now, CameBy(events, n));
      EventStreams(c, tb, m.event, m.now);
    }
    FitIsLawful(tables[n], ClockAt(events, n));
  }

  lemma FirstTable(c: Config, came: Arrivals)
    requires c.Valid()
    ensures var tb := Table(map[], map[], [], []);
            TableOk(c, tb, 0) && AtRest(tb) && Given(tb, came) && SessionStream.Streams(c, tb)
  {
  }

  lemma MoreCame(tb: Table, events: seq<Moment>, n: nat)
    requires 0 < n <= |events| && Given(tb, CameBy(events, n - 1))
    ensures Given(tb, CameBy(events, n))
  {
    var before, after := CameBy(events, n - 1), CameBy(events, n);
    forall conv ensures GivenAt(tb, conv, after(conv)) {
      assert GivenAt(tb, conv, before(conv)) && before(conv) <= after(conv);
    }
    forall i | 0 <= i < |tb.finished| ensures GivenFinished(tb.finished[i], after) {
      var conv := tb.finished[i].session.node.kcp.params.conv;
      assert GivenFinished(tb.finished[i], before) && before(conv) <= after(conv);
    }
  }
}
