/**
 What becomes of a session: it waits for its first message, opens, and closes as the messages that it
 gets and its shell say; and it stays in the table until there is a reason to leave.
 */
module SessionStory {
  import opened Bytes
  import opened EndpointSpec
  import opened KcpMachine
  import opened KcpPair
  import opened KeyOrder
  import opened Options
  import opened SessionPackets
  import opened SessionRest
  import opened SessionRuns
  import opened SessionSafety
  import opened SessionStream
  import opened SessionTable
  import opened SessionTrace
  import opened Wire

  /** The latest session of `conv` was opened by the shell of this endpoint. */
  predicate OpenedHere(t: Trace, conv: nat) { Story(t, conv) != [] && Story(t, conv)[0].entry == Entered(conv, true) }

  predicate IsTold(t: Trace, conv: nat, e: Entry) {
    exists i :: 0 <= i < |Story(t, conv)| && Story(t, conv)[i].entry == e
  }

  /** It is told exactly once, right after the session was entered. */
  predicate ToldOnceFirst(story: Trace, e: Entry) {
    && |story| > 1 && story[1].entry == e
    && forall i :: 0 <= i < |story| && story[i].entry == e ==> i == 1
  }

  /** The last thing told, from which the time until the session gives up is counted. */
  predicate ToldLast(c: Config, story: Trace, e: Entry, closeDeadlineAt: Option<nat>) {
    story != [] && story[|story| - 1].entry == e && closeDeadlineAt == Some(story[|story| - 1].time + c.closeDeadlineMs)
  }

  /**
   In every run, of every session, by the messages it has got: entered by a peer it waits exactly until
   the first of them, which was Open, and was told open then, once; while the shell has not closed it,
   it is open exactly until the first Close, whose own reason was told; and whoever closed it, its
   deadline has been counted from then.
   */
  lemma MessagesDecide(c: Config, tables: seq<Table>, events: seq<Moment>, n: nat, conv: nat)
    requires Run(c, tables, events) && n <= |events| && conv in tables[n].sessions
    ensures var s, t := tables[n].sessions[conv], tables[n].trace;
            var got, story := s.node.got, Story(t, conv);
            && (s.phase.PendingRemote? <==> !OpenedHere(t, conv) && got == [])
            && (s.phase.PendingRemote? ==> ToldLast(c, story, Entered(conv, false), s.closeDeadlineAt))
            && (!OpenedHere(t, conv) && got != [] ==>
              DecodeSession(got[0]) == Some(Open) && ToldOnceFirst(story, OpenSession(conv)))
            && (s.phase.ClosingLocal? <==> IsTold(t, conv, CloseBegun(conv)))
            && (s.phase.ClosingLocal? ==> ToldLast(c, story, CloseBegun(conv), s.closeDeadlineAt))
            && (!s.phase.ClosingLocal? && (OpenedHere(t, conv) || got != []) ==>
              match ClosedBy(got)
              case None => s.phase.Active? && s.closeDeadlineAt.None?
              case Some(reason) =>
                s.phase.ClosingRemote? && ToldLast(c, story, CloseSession(conv, reason), s.closeDeadlineAt))
  {
    EveryRun(c, tables, events, n);
    assert StreamAt(c, tables[n], conv);
    var s, t := tables[n].sessions[conv], tables[n].trace;
    StandingDecides(c, conv, s.phase, s.closeDeadlineAt, s.node.got, t);
  }

  lemma StandingDecides(c: Config, conv: nat, phase: Phase, deadline: Option<nat>, got: seq<Message>, t: Trace)
    requires Standing(c, conv, phase, deadline, got, Story(t, conv))
    ensures var story := Story(t, conv);
            && (phase.PendingRemote? <==> !OpenedHere(t, conv) && got == [])
            && (phase.PendingRemote? ==> ToldLast(c, story, Entered(conv, false), deadline))
            && (!OpenedHere(t, conv) && got != [] ==>
              DecodeSession(got[0]) == Some(Open) && ToldOnceFirst(story, OpenSession(conv)))
            && (phase.ClosingLocal? <==> IsTold(t, conv, CloseBegun(conv)))
            && (phase.ClosingLocal? ==> ToldLast(c, story, CloseBegun(conv), deadline))
            && (!phase.ClosingLocal? && (OpenedHere(t, conv) || got != []) ==>
              match ClosedBy(got)
              case None => phase.Active? && deadline.None?
              case Some(reason) =>
                phase.ClosingRemote? && ToldLast(c, story, CloseSession(conv, reason), deadline))
  {
    var story := Story(t, conv);
    if phase.ClosingLocal? || phase.ClosingRemote? {
      VisibleStart(conv, got, story);
    }
  }

  /** The beginning of a story is its beginning also when something was told after it. */
  lemma VisibleStart(conv: nat, got: seq<Message>, story: Trace)
    requires story != [] && Visible(conv, got, story[..|story| - 1])
    ensures |story| == 2 || |story| == 3
    ensures |story| == 2 ==> story[0].entry == Entered(conv, true)
    ensures |story| == 3 ==>
      Opened(got) && story[0].entry == Entered(conv, false) && story[1].entry == OpenSession(conv)
  {
  }

  // ------------------------------------------------------------------ staying

  /** The time of the session is not up. */
  predicate InGoodTime(s: Session, now: nat) { s.closeDeadlineAt.Some? ==> now < s.closeDeadlineAt.value }

  /** The session has no reason to leave: it does not wait for the end of a local close, and is in time. */
  predicate Settled(tb: Table, conv: nat, now: nat) {
    conv in tb.sessions && !tb.sessions[conv].phase.ClosingLocal? && InGoodTime(tb.sessions[conv], now)
  }

  lemma FinishStays(tb: Table, now: nat, conv: nat, v: nat)
    requires Settled(tb, v, now)
    ensures Settled(FinishClosed(tb, now, conv), v, now)
  {
  }

  lemma SendStays(tb: Table, now: nat, conv: nat, m: SessionMessage, t: Timing, v: nat)
    requires conv in tb.sessions && tb.sessions[conv].node.kcp.params.Valid() && Settled(tb, v, now)
    ensures Settled(SendMessage(tb, now, conv, m, t), v, now)
  {
    FinishStays(tb.Put(conv, Submits(tb.sessions[conv], m, t)), now, conv, v);
  }

  lemma QueueStays(c: Config, tb: Table, now: nat, conv: nat, t: Timing, v: nat)
    requires conv in tb.sessions ==> tb.sessions[conv].node.kcp.params.Valid()
    requires Settled(tb, v, now)
    ensures Settled(QueueClose(c, tb, now, conv, t), v, now)
  {
    if ClosesNow(c, tb, now, conv) {
      var s := tb.sessions[conv];
      SendStays(tb.Put(conv, s.(closeQueued := true)), now, conv, Close(s.pendingClose.value), t, v);
    }
  }

  /** Only a session that still waits can be given up for what a message says. */
  lemma MessageStays(c: Config, tb: Table, now: nat, conv: nat, m: SessionMessage, v: nat)
    requires c.Valid() && Settled(tb, v, now)
    requires v == conv && tb.sessions[v].phase.PendingRemote? ==> m.Open?
    ensures Settled(HandleMessage(c, tb, now, conv, m), v, now)
    ensures v == conv ==> !HandleMessage(c, tb, now, conv, m).sessions[v].phase.PendingRemote?
  {
  }

  /** These messages give no reason to leave: the first that a waiting session gets is Open. */
  predicate Welcome(tb: Table, conv: nat, messages: seq<Message>) {
    && Decodable(messages)
    && (conv in tb.sessions && tb.sessions[conv].phase.PendingRemote? && messages != [] ==>
      DecodeSession(messages[0]) == Some(Open))
  }

  lemma {:induction false} MessagesStay(
      c: Config, tb: Table, now: nat, conv: nat, messages: seq<Message>, n: nat, v: nat)
    requires c.Valid() && n <= |messages| && Settled(tb, v, now) && Welcome(tb, conv, messages)
    ensures var tb' := HandleMessages(c, tb, now, conv, messages, n);
            && Settled(tb', v, now)
            && (v == conv && n > 0 ==> !tb'.sessions[v].phase.PendingRemote?)
  {
    if n == 0 {
      assert HandleMessages(c, tb, now, conv, messages, n) == tb;
    } else {
      MessagesStay(c, tb, now, conv, messages, n - 1, v);
      MessageStays(c, HandleMessages(c, tb, now, conv, messages, n - 1), now, conv,
                   DecodeSession(messages[n - 1]).value, v);
    }
  }

  lemma PacketStays(
      c: Config, tb: Table, now: nat, conv: nat, peerSeq: nat, packet: seq<Segment>, t: Timing, tq: Timing, v: nat)
    requires c.Valid() && conv < CONV_SPAN && Settled(tb, v, now)
    requires conv in tb.sessions ==> tb.sessions[conv].node.kcp.params.Valid()
    requires Decodable(PacketMessages(c, tb, now, conv, peerSeq, packet, t))
    requires v == conv ==> Welcome(tb, conv, PacketMessages(c, tb, now, conv, peerSeq, packet, t))
    ensures Settled(HandlePacket(c, tb, now, conv, peerSeq, packet, t, tq), v, now)
  {
    if v != conv {
      PacketElsewhere(c, tb, now, conv, peerSeq, packet, t, tq);
    } else if conv !in tb.tombstones && Bound(tb.sessions[conv], peerSeq) {
      var messages := PacketMessages(c, tb, now, conv, peerSeq, packet, t);
      var read := tb.Put(conv, Reached(c, tb, now, conv, peerSeq, packet, t));
      MessagesStay(c, read, now, conv, messages, |messages|, v);
      var handled := HandleMessages(c, read, now, conv, messages, |messages|);
      ReceivingFollows(tb.sessions[conv].node, packet, t);
      MessagesKeepNode(c, read, now, conv, messages, |messages|);
      QueueStays(c, handled, now, conv, tq, v);
      FinishStays(QueueClose(c, handled, now, conv, tq), now, conv, v);
    }
  }

  lemma PacketElsewhere(
      c: Config, tb: Table, now: nat, conv: nat, peerSeq: nat, packet: seq<Segment>, t: Timing, tq: Timing)
    requires c.Valid() && conv < CONV_SPAN
    requires conv in tb.sessions ==> tb.sessions[conv].node.kcp.params.Valid()
    requires Decodable(PacketMessages(c, tb, now, conv, peerSeq, packet, t))
    ensures Elsewhere(tb, HandlePacket(c, tb, now, conv, peerSeq, packet, t, tq), conv)
  {
    var open := Admitted(c, tb, now, conv, peerSeq);
    if conv !in tb.tombstones && Bound(open.sessions[conv], peerSeq) {
      ReadRests(c, tb, now, conv, peerSeq, packet, t, tq);
    }
  }

  lemma VisitStays(c: Config, tb: Table, now: nat, conv: nat, tq: Timing, tp: Timing, v: nat)
    requires Settled(tb, v, now)
    ensures Settled(PollStep(c, tb, now, conv, tq, tp), v, now)
  {
    if conv in tb.sessions && tb.sessions[conv].node.kcp.params.Valid() {
      QueueStays(c, tb, now, conv, tq, v);
      var queued := QueueClose(c, tb, now, conv, tq);
      if conv in queued.sessions && queued.sessions[conv].node.kcp.params.Valid() {
        FinishStays(queued.Put(conv, Runs(queued.sessions[conv], tp)), now, conv, v);
      }
    }
  }

  lemma {:induction false} VisitsStay(
      c: Config, tb: Table, now: nat, convs: seq<nat>, n: nat, tq: nat -> Timing, tp: nat -> Timing, v: nat)
    requires n <= |convs| && Settled(tb, v, now)
    ensures Settled(PollAll(c, tb, now, convs, n, tq, tp), v, now)
  {
    if n == 0 {
      assert PollAll(c, tb, now, convs, n, tq, tp) == tb;
    } else {
      VisitsStay(c, tb, now, convs, n - 1, tq, tp, v);
      VisitStays(c, PollAll(c, tb, now, convs, n - 1, tq, tp), now, convs[n - 1], tq(convs[n - 1]),
                 tp(convs[n - 1]), v);
    }
  }

  /** What the event gives a session no reason to leave for. */
  ghost predicate Spares(c: Config, tb: Table, e: Event, now: nat, v: nat)
    requires c.Valid() && Possible(c, tb, e, now) && v in tb.sessions
  {
    match e
    case Closes(conv, _, _) => conv != v
    case Comes(conv, peerSeq, packet, t, _) =>
      conv == v ==> Welcome(tb, conv, PacketMessages(c, tb, now, conv, peerSeq, packet, t))
    case Forgets(removed) => forall i :: 0 <= i < |removed| ==> tb.sessions[v].peerSeq != Some(removed[i])
    case _ => true
  }

  /**
   No session leaves without a reason.  One that is not closing locally stays in the table while its time is
   not up and its sender is not forgotten; only a session that still waits can be given up for what comes,
   and only if its first message is not Open.
   */
  lemma SessionsStay(c: Config, tb: Table, e: Event, now: nat, v: nat)
    requires c.Valid() && Possible(c, tb, e, now)
    requires Settled(tb, v, now) && Spares(c, tb, e, now, v)
    ensures Settled(Happen(c, tb, e, now), v, now)
  {
    match e
    case Opens(conv, t) =>
      var entered := tb.Put(conv, NewSession(c.ParamsFor(conv), Active)).Log(now, Entered(conv, true));
      SendStays(entered, now, conv, Open, t, v);
    case Writes(conv, bytes, t) =>
      if AfterWrite(c, tb, now, conv, bytes, t) != tb { SendStays(tb, now, conv, Data(bytes), t, v); }
    case Closes(conv, reason, t) =>
      QueueStays(c, Begun(c, tb, now, conv, reason), now, conv, t, v);
    case Comes(conv, peerSeq, packet, t, tq) => PacketStays(c, tb, now, conv, peerSeq, packet, t, tq, v);
    case Forgets(removed) => EvictPeersLeaves(tb, now, removed, |removed|, v);
    case Unburies =>
    case Polls(tq, tp) =>
      var convs := Ascending(tb.sessions.Keys);
      VisitsStay(c, tb, now, convs, |convs|, tq, tp, v);
  }

  // ------------------------------------------------------------------ closing

  /**
   A local close keeps the reason that it was asked for.  It sends it at once exactly if the window has room;
   either way the session stays, and its deadline is counted from now.
   */
  lemma CloseIsBegun(c: Config, tb: Table, now: nat, conv: nat, reason: CloseReason, t: Timing)
    requires c.Valid() && conv in tb.sessions && tb.sessions[conv].phase.Active?
    requires SessionOk(c, conv, tb.sessions[conv])
    ensures tb.sessions[conv].node.kcp.params.Valid()
    ensures var s, tb' := tb.sessions[conv], CloseLocal(c, tb, now, conv, reason, t);
            && conv in tb'.sessions && tb'.trace == tb.trace + [Timed(now, CloseBegun(conv))]
            && var s' := tb'.sessions[conv];
               && s'.phase.ClosingLocal? && s'.pendingClose == Some(reason)
               && s'.closeDeadlineAt == Some(now + c.closeDeadlineMs)
               && (s'.closeQueued <==> s.WaitSnd() < c.sndWnd)
               && s'.node.sent == if s.WaitSnd() < c.sndWnd then s.node.sent + [EncodeSession(Close(reason))]
                                  else s.node.sent
  {
    var begun := Begun(c, tb, now, conv, reason);
    assert SessionOk(c, conv, begun.sessions[conv]);
    if ClosesNow(c, begun, now, conv) {
      QueuedIs(c, begun, now, conv, t);
      OneFragment(c, conv, Close(reason));
      SubmittingWaits(begun.sessions[conv].node, Close(reason), t);
    }
  }

  // ------------------------------------------------------------------ what comes is taken

  lemma {:induction false} MessagesKeepDeeds(c: Config, tb: Table, now: nat, conv: nat, messages: seq<Message>, n: nat)
    requires n <= |messages| && Decodable(messages) && conv in tb.sessions
    ensures var tb' := HandleMessages(c, tb, now, conv, messages, n);
            && tb.trace <= tb'.trace
            && (conv in tb'.sessions ==>
              var s, s' := tb.sessions[conv], tb'.sessions[conv];
              s'.node == s.node && s'.deeds == s.deeds && s'.peerSeq == s.peerSeq)
  {
    if n == 0 {
    } else {
      MessagesKeepDeeds(c, tb, now, conv, messages, n - 1);
    }
  }

  /** The packet was the next thing that happened to the session; what it completed has been taken out. */
  ghost predicate Took(before: Table, after: Table, conv: nat, peerSeq: nat, packet: seq<Segment>)
    requires conv in after.sessions
  {
    var s, deeds := after.sessions[conv], if conv in before.sessions then before.sessions[conv].deeds else [];
    && deeds + [Arrived(packet)] <= s.deeds && s.peerSeq == Some(peerSeq)
    && PeekSize(s.node.kcp.rcv.queue).Err?
  }

  /**
   A packet from its own sender is given to the session, also if that is closing; and a packet for an unknown
   id that is not buried makes a new one, which waits if the packet completes no message.
   */
  lemma PacketIsTaken(
      c: Config, tb: Table, now: nat, conv: nat, peerSeq: nat, packet: seq<Segment>, t: Timing, tq: Timing)
    requires c.Valid() && conv < CONV_SPAN && conv !in tb.tombstones
    requires conv in tb.sessions ==>
      && tb.sessions[conv].node.kcp.params.Valid() && Settled(tb, conv, now) && Bound(tb.sessions[conv], peerSeq)
    requires Decodable(PacketMessages(c, tb, now, conv, peerSeq, packet, t))
    requires Welcome(Admitted(c, tb, now, conv, peerSeq), conv, PacketMessages(c, tb, now, conv, peerSeq, packet, t))
    ensures var tb' := HandlePacket(c, tb, now, conv, peerSeq, packet, t, tq);
            && Settled(tb', conv, now) && Took(tb, tb', conv, peerSeq, packet)
            && (conv !in tb.sessions ==> tb.trace + [Timed(now, Entered(conv, false))] <= tb'.trace)
  {
    var open := Admitted(c, tb, now, conv, peerSeq);
    var messages := PacketMessages(c, tb, now, conv, peerSeq, packet, t);
    var s := Reached(c, tb, now, conv, peerSeq, packet, t);
    var read := open.Put(conv, s);
    var handled := HandleMessages(c, read, now, conv, messages, |messages|);
    MessagesStay(c, read, now, conv, messages, |messages|, conv);
    MessagesKeepDeeds(c, read, now, conv, messages, |messages|);
    ReceivesHoldsNothing(open.sessions[conv], packet, t);
    assert HandlePacket(c, tb, now, conv, peerSeq, packet, t, tq) == handled;
    DeedWaits(open.sessions[conv].node, Arrived(packet));
  }

  /** A packet for a buried id, or from another sender than the session's own, changes nothing. */
  lemma StrangersAreIgnored(
      c: Config, tb: Table, now: nat, conv: nat, peerSeq: nat, packet: seq<Segment>, t: Timing, tq: Timing)
    requires c.Valid() && conv < CONV_SPAN
    requires conv in tb.sessions ==> tb.sessions[conv].node.kcp.params.Valid()
    requires Decodable(PacketMessages(c, tb, now, conv, peerSeq, packet, t))
    requires conv in tb.tombstones
      || (conv in tb.sessions && tb.sessions[conv].peerSeq.Some? && tb.sessions[conv].peerSeq.value != peerSeq)
    ensures HandlePacket(c, tb, now, conv, peerSeq, packet, t, tq) == tb
    ensures AnswerPackets(c, tb, now, conv, peerSeq, packet, t, tq) == []
  {
  }

  // ------------------------------------------------------------------ what is put out is returned

  /** The packets are all that the session has put out since. */
  ghost predicate AllOf(before: Table, after: Table, conv: nat, packets: seq<seq<Segment>>) {
    conv in before.sessions && conv in after.sessions ==>
      after.sessions[conv].node.out == before.sessions[conv].node.out + packets
  }

  lemma SubmitsPutsOut(s: Session, m: SessionMessage, t: Timing)
    requires s.node.kcp.params.Valid()
    ensures Submits(s, m, t).node.out == s.node.out + NewPackets(s.node, Submits(s, m, t).node)
  {
    DeedWaits(s.node, Submitted(EncodeSession(m)));
    FlushedNowFollows(Do(s.node, Submitted(EncodeSession(m))), t);
  }

  lemma CloseIsReturned(c: Config, tb: Table, now: nat, conv: nat, t: Timing)
    requires conv in tb.sessions ==> tb.sessions[conv].node.kcp.params.Valid()
    ensures AllOf(tb, QueueClose(c, tb, now, conv, t), conv, ClosePackets(c, tb, now, conv, t))
  {
    if ClosesNow(c, tb, now, conv) {
      var s := tb.sessions[conv];
      SubmitsPutsOut(s.(closeQueued := true), Close(s.pendingClose.value), t);
    }
  }

  /** A session that is still there after an attempt to finish it is as it was. */
  lemma NotFinished(tb: Table, now: nat, conv: nat)
    requires conv in FinishClosed(tb, now, conv).sessions
    ensures FinishClosed(tb, now, conv) == tb
  {
  }

  lemma AllOfBoth(
      before: Table, mid: Table, after: Table, conv: nat, first: seq<seq<Segment>>, second: seq<seq<Segment>>)
    requires AllOf(before, mid, conv, first) && AllOf(mid, after, conv, second)
    requires conv in before.sessions && conv in after.sessions ==> conv in mid.sessions
    ensures AllOf(before, after, conv, first + second)
  {
  }

  lemma RunIsReturned(tb: Table, now: nat, conv: nat, t: Timing)
    requires conv in tb.sessions && tb.sessions[conv].node.kcp.params.Valid()
    ensures AllOf(tb, PollSession(tb, now, conv, t), conv,
                  NewPackets(tb.sessions[conv].node, Runs(tb.sessions[conv], t).node))
  {
    PolledFollows(tb.sessions[conv].node, t);
    var run := tb.Put(conv, Runs(tb.sessions[conv], t));
    if conv in FinishClosed(run, now, conv).sessions { NotFinished(run, now, conv); }
  }

  /** A visit of a poll returns every packet that its session puts out. */
  lemma VisitIsReturned(c: Config, tb: Table, now: nat, conv: nat, tq: Timing, tp: Timing)
    ensures AllOf(tb, PollStep(c, tb, now, conv, tq, tp), conv, VisitPackets(c, tb, now, conv, tq, tp))
  {
    if conv in tb.sessions && tb.sessions[conv].node.kcp.params.Valid() {
      CloseIsReturned(c, tb, now, conv, tq);
      var queued, closing := QueueClose(c, tb, now, conv, tq), ClosePackets(c, tb, now, conv, tq);
      if conv in queued.sessions && queued.sessions[conv].node.kcp.params.Valid() {
        var run := NewPackets(queued.sessions[conv].node, Runs(queued.sessions[conv], tp).node);
        RunIsReturned(queued, now, conv, tp);
        AllOfBoth(tb, queued, PollSession(queued, now, conv, tp), conv, closing, run);
      } else {
        assert closing + [] == closing;
      }
    }
  }

  /** A visit runs the KCP timer of its session: when that is due, everything is flushed that is due then. */
  lemma VisitRunsTimer(c: Config, tb: Table, now: nat, conv: nat, tq: Timing, tp: Timing)
    requires conv in tb.sessions && tb.sessions[conv].node.kcp.params.Valid() && tp.due
    requires conv in PollStep(c, tb, now, conv, tq, tp).sessions
    ensures var s := PollStep(c, tb, now, conv, tq, tp).sessions[conv];
            && s.deeds != [] && s.deeds[|s.deeds| - 1] == Flushing(tp.now, tp.resend, tp.probe)
            && tb.sessions[conv].deeds <= s.deeds && NothingHeldBack(s.node.kcp)
  {
    var queued := QueueClose(c, tb, now, conv, tq);
    QueueKeepsNode(c, tb, now, conv, tq);
    assert conv in queued.sessions && queued.sessions[conv].node.kcp.params.Valid();
    var s := queued.sessions[conv];
    NotFinished(queued.Put(conv, Runs(s, tp)), now, conv);
    FlushedIsWritten(s.node, tp.now, tp.resend, tp.probe);
  }

  /** Queueing a Close only adds to what the session has done. */
  lemma QueueKeepsNode(c: Config, tb: Table, now: nat, conv: nat, t: Timing)
    requires conv in tb.sessions && tb.sessions[conv].node.kcp.params.Valid()
    ensures conv in QueueClose(c, tb, now, conv, t).sessions ==>
      var s := QueueClose(c, tb, now, conv, t).sessions[conv];
      s.node.kcp.params == tb.sessions[conv].node.kcp.params && tb.sessions[conv].deeds <= s.deeds
  {
    if ClosesNow(c, tb, now, conv) {
      var closing := tb.sessions[conv].(closeQueued := true);
      SubmitsKeepsParams(closing, Close(closing.pendingClose.value), t);
    }
  }

  /** Reading a packet and handling its messages puts out what reading it does. */
  lemma ReadIsReturned(c: Config, open: Table, now: nat, conv: nat, s: Session, messages: seq<Message>)
    requires conv in open.sessions && Decodable(messages) && open.sessions[conv].node.out <= s.node.out
    ensures AllOf(open, HandleMessages(c, open.Put(conv, s), now, conv, messages, |messages|), conv,
                  NewPackets(open.sessions[conv].node, s.node))
  {
    MessagesKeepNode(c, open.Put(conv, s), now, conv, messages, |messages|);
  }

  lemma HandledIsReturned(c: Config, handled: Table, now: nat, conv: nat, tq: Timing)
    requires conv in handled.sessions ==> handled.sessions[conv].node.kcp.params.Valid()
    ensures AllOf(handled, FinishClosed(QueueClose(c, handled, now, conv, tq), now, conv), conv,
                  ClosePackets(c, handled, now, conv, tq))
  {
    CloseIsReturned(c, handled, now, conv, tq);
    var queued := QueueClose(c, handled, now, conv, tq);
    if conv in FinishClosed(queued, now, conv).sessions { NotFinished(queued, now, conv); }
  }

  lemma FinishMakesNone(c: Config, handled: Table, now: nat, conv: nat, tq: Timing)
    requires conv in handled.sessions ==> handled.sessions[conv].node.kcp.params.Valid()
    ensures conv in FinishClosed(QueueClose(c, handled, now, conv, tq), now, conv).sessions ==> conv in handled.sessions
  {
  }

  /** An arriving packet is answered with every packet that its session puts out. */
  lemma AnswerIsReturned(
      c: Config, tb: Table, now: nat, conv: nat, peerSeq: nat, packet: seq<Segment>, t: Timing, tq: Timing)
    requires c.Valid() && conv < CONV_SPAN
    requires conv in tb.sessions ==> tb.sessions[conv].node.kcp.params.Valid()
    requires Decodable(PacketMessages(c, tb, now, conv, peerSeq, packet, t))
    ensures AllOf(Admitted(c, tb, now, conv, peerSeq), HandlePacket(c, tb, now, conv, peerSeq, packet, t, tq), conv,
                  AnswerPackets(c, tb, now, conv, peerSeq, packet, t, tq))
  {
    var open := Admitted(c, tb, now, conv, peerSeq);
    if conv !in tb.tombstones && Bound(open.sessions[conv], peerSeq) {
      var messages := PacketMessages(c, tb, now, conv, peerSeq, packet, t);
      var s := Reached(c, tb, now, conv, peerSeq, packet, t);
      var handled := HandleMessages(c, open.Put(conv, s), now, conv, messages, |messages|);
      ReceivingFollows(open.sessions[conv].node, packet, t);
      MessagesKeepNode(c, open.Put(conv, s), now, conv, messages, |messages|);
      ReadIsReturned(c, open, now, conv, s, messages);
      HandledIsReturned(c, handled, now, conv, tq);
      FinishMakesNone(c, handled, now, conv, tq);
      AllOfBoth(open, handled, FinishClosed(QueueClose(c, handled, now, conv, tq), now, conv), conv,
                NewPackets(open.sessions[conv].node, s.node), ClosePackets(c, handled, now, conv, tq));
    }
  }

  /** What is not welcome is not kept: a first message other than Open ends a waiting session, unseen by the shell. */
  lemma UnwelcomeLeaves(c: Config, tb: Table, now: nat, conv: nat, message: Message)
    requires conv in tb.sessions && tb.sessions[conv].phase.PendingRemote?
    requires DecodeSession(message).Some? && !DecodeSession(message).value.Open?
    ensures var tb' := HandleMessage(c, tb, now, conv, DecodeSession(message).value);
            && conv !in tb'.sessions && tb'.tombstones == tb.tombstones
            && tb'.trace == tb.trace + [Timed(now, Left(conv, false))]
  {
  }
}
