/**
 The sessions of an endpoint and the tombstones of those that are gone: what every event
 makes of them, and what stays true of them.
 */
module SessionTable {
  import opened EndpointSpec
  import opened KcpMachine
  import opened KcpPair
  import opened KeyOrder
  import opened Options
  import opened SessionTrace
  import opened Wire

  datatype Config = Config(mtu: nat, sndWnd: U16, rcvWnd: U16, closeDeadlineMs: nat)
  {
    function ParamsFor(conv: nat): Params { Params(conv, mtu, sndWnd, rcvWnd) }

    /** Every window is open, and the short messages Open and Close fit one segment. */
    predicate Valid() { mtu >= OVERHEAD + 2 && sndWnd >= 1 && rcvWnd >= 2 && closeDeadlineMs > 0 }

    /** The fragments of the largest write fit both windows and the fragment counter. */
    predicate Roomy()
      requires Valid()
    {
      var count := FragmentCount(mtu - OVERHEAD, 1 + MAX_SESSION_DATA_SIZE);
      count < rcvWnd && count < 256 && count <= sndWnd
    }
  }

  /** The most bytes of one write. */
  const MAX_SESSION_DATA_SIZE: nat := 65535

  const CONV_SPAN: nat := 0x1_0000_0000_0000_0000

  /** A local close that was completed, with the session as it was then. */
  datatype Finished = Finished(session: Session, at: nat)

  datatype Table = Table(
    sessions: map<nat, Session>, tombstones: map<nat, nat>, trace: Trace, finished: seq<Finished>)
  {
    function Log(now: nat, e: Entry): Table { this.(trace := trace + [Timed(now, e)]) }

    function Put(conv: nat, s: Session): Table { this.(sessions := sessions[conv := s]) }

    function Drop(conv: nat): Table { this.(sessions := sessions - {conv}) }

    function Bury(conv: nat, now: nat): Table { this.(tombstones := tombstones[conv := now + SESSION_TOMBSTONE_MS]) }
  }

  // ------------------------------------------------------------------ events

  predicate DeadlineHit(s: Session, now: nat) { s.closeDeadlineAt.Some? && now >= s.closeDeadlineAt.value }

  predicate Done(s: Session, now: nat) {
    match s.phase
    case PendingRemote => DeadlineHit(s, now)
    case ClosingLocal => s.WaitSnd() == 0 || DeadlineHit(s, now)
    case ClosingRemote => DeadlineHit(s, now)
    case Active => false
  }

  function FinishClosed(tb: Table, now: nat, conv: nat): Table {
    if conv !in tb.sessions || !Done(tb.sessions[conv], now) then tb
    else
      var s := tb.sessions[conv];
      if s.phase.PendingRemote? then tb.Drop(conv).Log(now, Left(conv, false))
      else
        var told :=
          if s.phase.ClosingLocal? && s.pendingClose.Some?
          then tb.(finished := tb.finished + [Finished(s, now)]).Log(now, CloseSession(conv, s.pendingClose.value))
          else tb;
        told.Drop(conv).Bury(conv, now).Log(now, Left(conv, true))
  }

  /** Sends a message of a session, and finishes the session if that was all. */
  function SendMessage(tb: Table, now: nat, conv: nat, m: SessionMessage, t: Timing): Table
    requires conv in tb.sessions && tb.sessions[conv].node.kcp.params.Valid()
  {
    FinishClosed(tb.Put(conv, Submits(tb.sessions[conv], m, t)), now, conv)
  }

  /** A pending Close can be queued now. */
  predicate ClosesNow(c: Config, tb: Table, now: nat, conv: nat) {
    && conv in tb.sessions
    && var s := tb.sessions[conv];
       s.phase.ClosingLocal? && !s.closeQueued && !DeadlineHit(s, now) && s.WaitSnd() < c.sndWnd && s.pendingClose.Some?
  }

  function QueueClose(c: Config, tb: Table, now: nat, conv: nat, t: Timing): Table
    requires conv in tb.sessions ==> tb.sessions[conv].node.kcp.params.Valid()
  {
    if !ClosesNow(c, tb, now, conv) then tb
    else
      var s := tb.sessions[conv];
      SendMessage(tb.Put(conv, s.(closeQueued := true)), now, conv, Close(s.pendingClose.value), t)
  }

  function OpenLocal(c: Config, tb: Table, now: nat, conv: nat, t: Timing): Table
    requires c.Valid() && conv < CONV_SPAN
  {
    SendMessage(tb.Put(conv, NewSession(c.ParamsFor(conv), Active)).Log(now, Entered(conv, true)), now, conv, Open, t)
  }

  function ClosingSession(c: Config, s: Session, now: nat, reason: CloseReason): Session {
    s.(phase := ClosingLocal, closeDeadlineAt := Some(now + c.closeDeadlineMs), pendingClose := Some(reason))
  }

  function Begun(c: Config, tb: Table, now: nat, conv: nat, reason: CloseReason): Table
    requires conv in tb.sessions
  {
    tb.Put(conv, ClosingSession(c, tb.sessions[conv], now, reason)).Log(now, CloseBegun(conv))
  }

  /** The shell closes an open session. */
  function CloseLocal(c: Config, tb: Table, now: nat, conv: nat, reason: CloseReason, t: Timing): Table
    requires conv in tb.sessions && tb.sessions[conv].node.kcp.params.Valid()
  {
    QueueClose(c, Begun(c, tb, now, conv, reason), now, conv, t)
  }

  /** A complete message has arrived. */
  function HandleMessage(c: Config, tb: Table, now: nat, conv: nat, m: SessionMessage): Table {
    if conv !in tb.sessions then tb
    else
      var s := tb.sessions[conv];
      match m
      case Open =>
        if s.phase.PendingRemote?
        then tb.Put(conv, s.(phase := Active, closeDeadlineAt := None)).Log(now, OpenSession(conv))
        else tb
      case Data(bytes) =>
        if s.phase.Active? then tb.Log(now, WriteSession(conv, bytes))
        else if s.phase.PendingRemote? then tb.Drop(conv).Log(now, Left(conv, false))
        else tb
      case Close(reason) =>
        if s.phase.PendingRemote? then tb.Drop(conv).Log(now, Left(conv, false))
        else if s.phase.Active? then
          tb.Put(conv, s.(phase := ClosingRemote, closeDeadlineAt := Some(now + c.closeDeadlineMs)))
            .Log(now, CloseSession(conv, reason))
        else tb
  }

  predicate Decodable(messages: seq<Message>) {
    forall i :: 0 <= i < |messages| ==> DecodeSession(messages[i]).Some?
  }

  /** The first `n` of the messages that a packet completed. */
  function HandleMessages(c: Config, tb: Table, now: nat, conv: nat, messages: seq<Message>, n: nat): Table
    requires n <= |messages| && Decodable(messages)
  {
    if n == 0 then tb
    else HandleMessage(c, HandleMessages(c, tb, now, conv, messages, n - 1), now, conv,
                       DecodeSession(messages[n - 1]).value)
  }

  /** The table with a session for `conv`; a new one waits for its Open. */
  function Admitted(c: Config, tb: Table, now: nat, conv: nat, peerSeq: nat): Table {
    if conv in tb.sessions then tb
    else
      tb.Put(conv, NewSession(c.ParamsFor(conv), PendingRemote)
                     .(peerSeq := Some(peerSeq), closeDeadlineAt := Some(now + c.closeDeadlineMs)))
        .Log(now, Entered(conv, false))
  }

  /** The session takes packets from this sender: it is not bound to another one. */
  predicate Bound(s: Session, peerSeq: nat) { s.peerSeq.None? || s.peerSeq.value == peerSeq }

  /** The messages that became complete. */
  function NewMessages(n: Node, m: Node): seq<Message> {
    if |n.got| <= |m.got| then m.got[|n.got|..] else []
  }

  /** The session after the packet, before its messages are handled. */
  function Reached(c: Config, tb: Table, now: nat, conv: nat, peerSeq: nat, packet: seq<Segment>, t: Timing): Session
    requires c.Valid() && conv < CONV_SPAN
    requires conv in tb.sessions ==> tb.sessions[conv].node.kcp.params.Valid()
  {
    Receives(Admitted(c, tb, now, conv, peerSeq).sessions[conv], packet, t).(peerSeq := Some(peerSeq))
  }

  lemma {:induction false} MessagesKeepNode(c: Config, tb: Table, now: nat, conv: nat, messages: seq<Message>, n: nat)
    requires n <= |messages| && Decodable(messages) && conv in tb.sessions
    ensures var tb' := HandleMessages(c, tb, now, conv, messages, n);
            conv in tb'.sessions ==> tb'.sessions[conv].node == tb.sessions[conv].node
  {
    if n == 0 {
    } else {
      MessagesKeepNode(c, tb, now, conv, messages, n - 1);
    }
  }

  /** A KCP packet has arrived from the sender `peerSeq`. */
  function HandlePacket(
      c: Config, tb: Table, now: nat, conv: nat, peerSeq: nat, packet: seq<Segment>, t: Timing, tq: Timing): Table
    requires c.Valid() && conv < CONV_SPAN
    requires conv in tb.sessions ==> tb.sessions[conv].node.kcp.params.Valid()
    requires Decodable(PacketMessages(c, tb, now, conv, peerSeq, packet, t))
  {
    if conv in tb.tombstones then tb
    else
      var open := Admitted(c, tb, now, conv, peerSeq);
      if !Bound(open.sessions[conv], peerSeq) then open
      else
        var s := Reached(c, tb, now, conv, peerSeq, packet, t);
        var messages := PacketMessages(c, tb, now, conv, peerSeq, packet, t);
        var read := open.Put(conv, s);
        var handled := HandleMessages(c, read, now, conv, messages, |messages|);
        ReceivingFollows(open.sessions[conv].node, packet, t);
        MessagesKeepNode(c, read, now, conv, messages, |messages|);
        FinishClosed(QueueClose(c, handled, now, conv, tq), now, conv)
  }

  /** The messages that the packet completes. */
  function PacketMessages(
      c: Config, tb: Table, now: nat, conv: nat, peerSeq: nat, packet: seq<Segment>, t: Timing): seq<Message>
    requires c.Valid() && conv < CONV_SPAN
    requires conv in tb.sessions ==> tb.sessions[conv].node.kcp.params.Valid()
  {
    NewMessages(Admitted(c, tb, now, conv, peerSeq).sessions[conv].node,
                Reached(c, tb, now, conv, peerSeq, packet, t).node)
  }

  // ------------------------------------------------------------------ packets put out

  /** The packets that a message of the session puts out. */
  function MessagePackets(s: Session, m: SessionMessage, t: Timing): seq<seq<Segment>>
    requires s.node.kcp.params.Valid()
  {
    NewPackets(s.node, Submits(s, m, t).node)
  }

  /** The packets of a Close that can be queued now. */
  function ClosePackets(c: Config, tb: Table, now: nat, conv: nat, t: Timing): seq<seq<Segment>>
    requires conv in tb.sessions ==> tb.sessions[conv].node.kcp.params.Valid()
  {
    if !ClosesNow(c, tb, now, conv) then []
    else MessagePackets(tb.sessions[conv], Close(tb.sessions[conv].pendingClose.value), t)
  }

  /** The packets that answer a KCP packet: what the session's node puts out, and a Close that it makes room for. */
  function AnswerPackets(
      c: Config, tb: Table, now: nat, conv: nat, peerSeq: nat, packet: seq<Segment>, t: Timing,
      tq: Timing): seq<seq<Segment>>
    requires c.Valid() && conv < CONV_SPAN
    requires conv in tb.sessions ==> tb.sessions[conv].node.kcp.params.Valid()
    requires Decodable(PacketMessages(c, tb, now, conv, peerSeq, packet, t))
  {
    var open := Admitted(c, tb, now, conv, peerSeq);
    if conv in tb.tombstones || !Bound(open.sessions[conv], peerSeq) then []
    else
      var s := Reached(c, tb, now, conv, peerSeq, packet, t);
      var messages := PacketMessages(c, tb, now, conv, peerSeq, packet, t);
      var read := open.Put(conv, s);
      var handled := HandleMessages(c, read, now, conv, messages, |messages|);
      ReceivingFollows(open.sessions[conv].node, packet, t);
      MessagesKeepNode(c, read, now, conv, messages, |messages|);
      NewPackets(open.sessions[conv].node, s.node) + ClosePackets(c, handled, now, conv, tq)
  }

  // ------------------------------------------------------------------ expiry

  /** A session whose sender was forgotten is reset. */
  function Evict(tb: Table, now: nat, conv: nat): Table {
    if conv !in tb.sessions then tb
    else
      var told :=
        if tb.sessions[conv].phase.PendingRemote? then tb else tb.Log(now, CloseSession(conv, Reset));
      told.Drop(conv).Bury(conv, now).Log(now, Left(conv, true))
  }

  function EvictAll(tb: Table, now: nat, convs: seq<nat>, n: nat): Table
    requires n <= |convs|
  {
    if n == 0 then tb else Evict(EvictAll(tb, now, convs, n - 1), now, convs[n - 1])
  }

  function PeerConvs(tb: Table, seqId: nat): set<nat> {
    set conv | conv in tb.sessions && tb.sessions[conv].peerSeq == Some(seqId)
  }

  function EvictPeer(tb: Table, now: nat, seqId: nat): Table {
    var convs := Ascending(PeerConvs(tb, seqId));
    EvictAll(tb, now, convs, |convs|)
  }

  /** The senders the filter forgot, one after the other. */
  function EvictPeers(tb: Table, now: nat, removed: seq<nat>, n: nat): Table
    requires n <= |removed|
  {
    if n == 0 then tb else EvictPeer(EvictPeers(tb, now, removed, n - 1), now, removed[n - 1])
  }

  lemma {:induction false} EvictAllLeaves(tb: Table, now: nat, convs: seq<nat>, n: nat)
    requires n <= |convs|
    ensures EvictAll(tb, now, convs, n).sessions == tb.sessions - (set conv | conv in convs[..n])
  {
    if n == 0 {
    } else {
      EvictAllLeaves(tb, now, convs, n - 1);
      assert convs[..n] == convs[..n - 1] + [convs[n - 1]];
    }
  }

  /** Exactly the sessions bound to a forgotten sender are gone; no other has changed. */
  lemma {:induction false} EvictPeersLeaves(tb: Table, now: nat, removed: seq<nat>, n: nat, conv: nat)
    requires n <= |removed|
    ensures var tb' := EvictPeers(tb, now, removed, n);
            && (conv in tb'.sessions <==>
                conv in tb.sessions && forall i :: 0 <= i < n ==> tb.sessions[conv].peerSeq != Some(removed[i]))
            && (conv in tb'.sessions ==> tb'.sessions[conv] == tb.sessions[conv])
  {
    if n == 0 {
    } else {
      EvictPeersLeaves(tb, now, removed, n - 1, conv);
      var before := EvictPeers(tb, now, removed, n - 1);
      var convs := Ascending(PeerConvs(before, removed[n - 1]));
      AscendingIs(PeerConvs(before, removed[n - 1]));
      EvictAllLeaves(before, now, convs, |convs|);
      assert convs[..|convs|] == convs;
    }
  }

  function ForgetTombstones(tb: Table, now: nat): Table {
    tb.(tombstones := map conv | conv in tb.tombstones && now < tb.tombstones[conv] :: tb.tombstones[conv])
  }

  /** One session's share of a poll, once its Close has been queued if it could be. */
  function PollSession(tb: Table, now: nat, conv: nat, t: Timing): Table
    requires conv in tb.sessions && tb.sessions[conv].node.kcp.params.Valid()
  {
    FinishClosed(tb.Put(conv, Runs(tb.sessions[conv], t)), now, conv)
  }

  /** A poll's visit to one session. */
  function PollStep(c: Config, tb: Table, now: nat, conv: nat, tq: Timing, tp: Timing): Table {
    if conv !in tb.sessions || !tb.sessions[conv].node.kcp.params.Valid() then tb
    else
      var queued := QueueClose(c, tb, now, conv, tq);
      if conv in queued.sessions && queued.sessions[conv].node.kcp.params.Valid()
      then PollSession(queued, now, conv, tp) else queued
  }

  /** The packets of one visit: a Close that was deferred, and what the timer puts out. */
  function VisitPackets(c: Config, tb: Table, now: nat, conv: nat, tq: Timing, tp: Timing): seq<seq<Segment>> {
    if conv !in tb.sessions || !tb.sessions[conv].node.kcp.params.Valid() then []
    else
      var queued := QueueClose(c, tb, now, conv, tq);
      ClosePackets(c, tb, now, conv, tq)
      + if conv in queued.sessions && queued.sessions[conv].node.kcp.params.Valid()
        then NewPackets(queued.sessions[conv].node, Runs(queued.sessions[conv], tp).node) else []
  }

  /** The visits of a poll, in the order of the ids. */
  function PollAll(
      c: Config, tb: Table, now: nat, convs: seq<nat>, n: nat, tq: nat -> Timing, tp: nat -> Timing): Table
    requires n <= |convs|
  {
    if n == 0 then tb
    else PollStep(c, PollAll(c, tb, now, convs, n - 1, tq, tp), now, convs[n - 1], tq(convs[n - 1]), tp(convs[n - 1]))
  }

  /** The packets of the first `n` visits, one after the other. */
  function PollPackets(
      c: Config, tb: Table, now: nat, convs: seq<nat>, n: nat, tq: nat -> Timing, tp: nat -> Timing): seq<seq<Segment>>
    requires n <= |convs|
  {
    if n == 0 then []
    else
      PollPackets(c, tb, now, convs, n - 1, tq, tp)
      + VisitPackets(c, PollAll(c, tb, now, convs, n - 1, tq, tp), now, convs[n - 1],
                     tq(convs[n - 1]), tp(convs[n - 1]))
  }

  function VisitedPackets(c: Config, tb: Table, now: nat, tq: nat -> Timing, tp: nat -> Timing): seq<seq<Segment>> {
    var convs := Ascending(tb.sessions.Keys);
    PollPackets(c, tb, now, convs, |convs|, tq, tp)
  }

  /** Every session visited in turn. */
  function Visited(c: Config, tb: Table, now: nat, tq: nat -> Timing, tp: nat -> Timing): Table {
    var convs := Ascending(tb.sessions.Keys);
    PollAll(c, tb, now, convs, |convs|, tq, tp)
  }

  // ------------------------------------------------------------------ what stays true

  /** The last message is the Close that was asked for. */
  predicate CloseIsLast(s: Session) {
    && s.pendingClose.Some? && s.node.sent != []
    && s.node.sent[|s.node.sent| - 1] == EncodeSession(Close(s.pendingClose.value))
  }

  ghost predicate SessionOk(c: Config, conv: nat, s: Session)
    requires c.Valid()
  {
    && conv < CONV_SPAN
    && s.node.kcp.params == c.ParamsFor(conv)
    && c.ParamsFor(conv).Valid() && Logged(c.ParamsFor(conv), s)
    && s.WaitSnd() <= c.sndWnd
    && (s.phase.Active? <==> s.closeDeadlineAt.None?)
    && (s.phase.ClosingLocal? <==> s.pendingClose.Some?)
    && (s.closeQueued ==> CloseIsLast(s))
  }

  /** What the trace says of `conv` is what the table says of it. */
  ghost predicate LifeFits(tb: Table, conv: nat, clock: nat, life: Life) {
    if conv in tb.sessions then
      conv !in tb.tombstones && life == match tb.sessions[conv].phase
        case PendingRemote => Pending
        case Active => Alive
        case ClosingLocal => Closing(false)
        case ClosingRemote => Closing(true)
    else if conv in tb.tombstones then
      life.Buried? && tb.tombstones[conv] == life.since + SESSION_TOMBSTONE_MS && life.since <= clock
    else Usable(life, clock)
  }

  ghost predicate FitsTrace(tb: Table, clock: nat) {
    && (forall conv :: LifeFits(tb, conv, clock, LifeOf(tb.trace, conv)))
    && (forall i, j :: 0 <= i < j < |tb.trace| ==> tb.trace[i].time <= tb.trace[j].time)
    && (forall i :: 0 <= i < |tb.trace| ==> tb.trace[i].time <= clock)
  }

  /**
   A local close that finished before its deadline: Close was queued as the last message and
   nothing waits for an acknowledgement any more.
   */
  ghost predicate Graceful(c: Config, f: Finished)
    requires c.Valid()
  {
    && SessionOk(c, f.session.node.kcp.params.conv, f.session)
    && f.session.phase.ClosingLocal?
    && (!DeadlineHit(f.session, f.at) ==> f.session.closeQueued && CloseIsLast(f.session) && f.session.WaitSnd() == 0)
  }

  ghost predicate SessionsOk(c: Config, tb: Table)
    requires c.Valid()
  {
    && (forall conv :: conv in tb.sessions ==> SessionOk(c, conv, tb.sessions[conv]))
    && forall i :: 0 <= i < |tb.finished| ==> Graceful(c, tb.finished[i])
  }

  ghost predicate TableOk(c: Config, tb: Table, clock: nat)
    requires c.Valid()
  {
    FitsTrace(tb, clock) && SessionsOk(c, tb)
  }

  /** A table that fits its trace has a lawful trace. */
  lemma FitIsLawful(tb: Table, clock: nat)
    requires FitsTrace(tb, clock)
    ensures Lawful(tb.trace)
  {
    forall conv ensures !LifeOf(tb.trace, conv).Bad? {
      assert LifeFits(tb, conv, clock, LifeOf(tb.trace, conv));
    }
  }

  // ------------------------------------------------------------------ keeping the fit

  /** Only `conv` changes, by one entry. */
  lemma LogKeepsFit(tb: Table, tb': Table, clock: nat, now: nat, e: Entry)
    requires FitsTrace(tb, clock) && clock <= now
    requires tb'.trace == tb.trace + [Timed(now, e)]
    requires tb'.sessions - {e.convId} == tb.sessions - {e.convId}
    requires tb'.tombstones - {e.convId} == tb.tombstones - {e.convId}
    requires LifeFits(tb', e.convId, now, NextLife(LifeOf(tb.trace, e.convId), now, e))
    ensures FitsTrace(tb', now)
  {
    forall conv ensures LifeFits(tb', conv, now, LifeOf(tb'.trace, conv)) {
      LifeOfExtended(tb.trace, conv, Timed(now, e));
      assert LifeFits(tb, conv, clock, LifeOf(tb.trace, conv));
      if conv != e.convId {
        assert conv in tb'.sessions <==> conv in tb'.sessions - {e.convId};
        assert conv in tb.sessions <==> conv in tb.sessions - {e.convId};
        assert conv in tb'.tombstones <==> conv in tb'.tombstones - {e.convId};
        assert conv in tb.tombstones <==> conv in tb.tombstones - {e.convId};
        if conv in tb.sessions { assert (tb'.sessions - {e.convId})[conv] == (tb.sessions - {e.convId})[conv]; }
        if conv in tb.tombstones { assert (tb'.tombstones - {e.convId})[conv] == (tb.tombstones - {e.convId})[conv]; }
      }
    }
  }

  /** A session that keeps its phase keeps the fit; and time may pass. */
  lemma PutKeepsFit(tb: Table, clock: nat, now: nat, conv: nat, s: Session)
    requires FitsTrace(tb, clock) && clock <= now
    requires conv in tb.sessions && s.phase == tb.sessions[conv].phase
    ensures FitsTrace(tb.Put(conv, s), now)
  {
    forall other ensures LifeFits(tb.Put(conv, s), other, now, LifeOf(tb.trace, other)) {
      assert LifeFits(tb, other, clock, LifeOf(tb.trace, other));
    }
  }

  lemma TimePasses(tb: Table, clock: nat, now: nat)
    requires FitsTrace(tb, clock) && clock <= now
    ensures FitsTrace(tb, now)
  {
    forall conv ensures LifeFits(tb, conv, now, LifeOf(tb.trace, conv)) {
      assert LifeFits(tb, conv, clock, LifeOf(tb.trace, conv));
    }
  }

  /** A session leaves unseen. */
  lemma DropKeepsFit(tb: Table, clock: nat, now: nat, conv: nat)
    requires FitsTrace(tb, clock) && clock <= now && conv in tb.sessions && tb.sessions[conv].phase.PendingRemote?
    ensures FitsTrace(tb.Drop(conv).Log(now, Left(conv, false)), now)
  {
    assert LifeFits(tb, conv, clock, LifeOf(tb.trace, conv));
    LogKeepsFit(tb, tb.Drop(conv).Log(now, Left(conv, false)), clock, now, Left(conv, false));
  }

  /** The trace is what it is, whatever the sessions say: the shell is told, once more or at last. */
  lemma TellKeepsFit(tb: Table, clock: nat, now: nat, conv: nat, reason: CloseReason)
    requires FitsTrace(tb, clock) && clock <= now && conv in tb.sessions && !tb.sessions[conv].phase.PendingRemote?
    ensures FitsTrace(tb.Put(conv, tb.sessions[conv].(phase := ClosingRemote)).Log(now, CloseSession(conv, reason)),
                      now)
  {
    assert LifeFits(tb, conv, clock, LifeOf(tb.trace, conv));
    LogKeepsFit(tb, tb.Put(conv, tb.sessions[conv].(phase := ClosingRemote)).Log(now, CloseSession(conv, reason)),
                clock, now, CloseSession(conv, reason));
  }

  /** A session that was told closed, or never seen, leaves and is buried. */
  lemma BuryKeepsFit(tb: Table, clock: nat, now: nat, conv: nat)
    requires FitsTrace(tb, clock) && clock <= now && conv in tb.sessions
    requires tb.sessions[conv].phase.PendingRemote? || tb.sessions[conv].phase.ClosingRemote?
    ensures FitsTrace(tb.Drop(conv).Bury(conv, now).Log(now, Left(conv, true)), now)
  {
    assert LifeFits(tb, conv, clock, LifeOf(tb.trace, conv));
    LogKeepsFit(tb, tb.Drop(conv).Bury(conv, now).Log(now, Left(conv, true)), clock, now, Left(conv, true));
  }

  lemma FitsIgnoresFinished(tb: Table, clock: nat, finished: seq<Finished>)
    requires FitsTrace(tb, clock)
    ensures FitsTrace(tb.(finished := finished), clock)
  {
    forall conv ensures LifeFits(tb.(finished := finished), conv, clock, LifeOf(tb.trace, conv)) {
      assert LifeFits(tb, conv, clock, LifeOf(tb.trace, conv));
    }
  }

  lemma FinishKeepsFit(tb: Table, clock: nat, now: nat, conv: nat)
    requires FitsTrace(tb, clock) && clock <= now
    requires conv in tb.sessions ==> (tb.sessions[conv].phase.ClosingLocal? <==> tb.sessions[conv].pendingClose.Some?)
    ensures FitsTrace(FinishClosed(tb, now, conv), now)
  {
    TimePasses(tb, clock, now);
    if conv in tb.sessions && Done(tb.sessions[conv], now) {
      var s := tb.sessions[conv];
      if s.phase.PendingRemote? {
        DropKeepsFit(tb, clock, now, conv);
      } else if s.phase.ClosingLocal? {
        var more := tb.(finished := tb.finished + [Finished(s, now)]);
        FitsIgnoresFinished(tb, now, more.finished);
        TellKeepsFit(more, now, now, conv, s.pendingClose.value);
        var told := more.Put(conv, s.(phase := ClosingRemote)).Log(now, CloseSession(conv, s.pendingClose.value));
        BuryKeepsFit(told, now, now, conv);
        assert told.Drop(conv).sessions == more.Log(now, CloseSession(conv, s.pendingClose.value)).Drop(conv).sessions;
      } else {
        BuryKeepsFit(tb, clock, now, conv);
      }
    }
  }

  lemma EvictKeepsFit(tb: Table, clock: nat, now: nat, conv: nat)
    requires FitsTrace(tb, clock) && clock <= now
    ensures FitsTrace(Evict(tb, now, conv), now)
  {
    TimePasses(tb, clock, now);
    if conv in tb.sessions {
      if tb.sessions[conv].phase.PendingRemote? {
        BuryKeepsFit(tb, clock, now, conv);
      } else {
        TellKeepsFit(tb, clock, now, conv, Reset);
        var told := tb.Put(conv, tb.sessions[conv].(phase := ClosingRemote)).Log(now, CloseSession(conv, Reset));
        BuryKeepsFit(told, now, now, conv);
        assert told.Drop(conv).sessions == tb.Log(now, CloseSession(conv, Reset)).Drop(conv).sessions;
      }
    }
  }

  lemma ForgetKeepsFit(tb: Table, clock: nat, now: nat)
    requires FitsTrace(tb, clock) && clock <= now
    ensures FitsTrace(ForgetTombstones(tb, now), now)
  {
    forall conv ensures LifeFits(ForgetTombstones(tb, now), conv, now, LifeOf(tb.trace, conv)) {
      assert LifeFits(tb, conv, clock, LifeOf(tb.trace, conv));
    }
  }

  lemma HandleMessageKeepsFit(c: Config, tb: Table, clock: nat, now: nat, conv: nat, m: SessionMessage)
    requires FitsTrace(tb, clock) && clock <= now
    ensures FitsTrace(HandleMessage(c, tb, now, conv, m), now)
  {
    TimePasses(tb, clock, now);
    if conv in tb.sessions {
      var tb' := HandleMessage(c, tb, now, conv, m);
      assert LifeFits(tb, conv, clock, LifeOf(tb.trace, conv));
      if tb' != tb {
        LogKeepsFit(tb, tb', clock, now, tb'.trace[|tb.trace|].entry);
      }
    }
  }
}
