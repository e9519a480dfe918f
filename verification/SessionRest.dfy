/**
 Between events a session that is closing locally has something to send.  So a poll before the
 first deadline removes no session: only an acknowledgement can complete a close.
 */
module SessionRest {
  import opened EndpointSpec
  import opened KcpMachine
  import opened KcpPair
  import opened KeyOrder
  import opened SessionSafety
  import opened SessionTable
  import opened Wire

  predicate RestsAt(tb: Table, conv: nat) {
    conv in tb.sessions && tb.sessions[conv].phase.ClosingLocal? ==> tb.sessions[conv].WaitSnd() > 0
  }

  ghost predicate AtRest(tb: Table) { forall conv :: RestsAt(tb, conv) }

  /** Only the session `conv` may be new or different. */
  ghost predicate Elsewhere(tb: Table, tb': Table, conv: nat) {
    forall v :: v != conv ==>
      (v in tb'.sessions <==> v in tb.sessions) && (v in tb.sessions ==> tb'.sessions[v] == tb.sessions[v])
  }

  lemma RestElsewhere(tb: Table, tb': Table, conv: nat)
    requires AtRest(tb) && Elsewhere(tb, tb', conv) && RestsAt(tb', conv)
    ensures AtRest(tb')
  {
    forall v ensures RestsAt(tb', v) {
      assert RestsAt(tb, v);
    }
  }

  /** Whatever is left after finishing has something to send. */
  lemma FinishRests(tb: Table, now: nat, conv: nat)
    ensures RestsAt(FinishClosed(tb, now, conv), conv) && Elsewhere(tb, FinishClosed(tb, now, conv), conv)
  {
  }

  lemma SendRests(tb: Table, now: nat, conv: nat, m: SessionMessage, t: Timing)
    requires conv in tb.sessions && tb.sessions[conv].node.kcp.params.Valid()
    ensures RestsAt(SendMessage(tb, now, conv, m, t), conv) && Elsewhere(tb, SendMessage(tb, now, conv, m, t), conv)
  {
    FinishRests(tb.Put(conv, Submits(tb.sessions[conv], m, t)), now, conv);
  }

  lemma WriteRests(tb: Table, now: nat, conv: nat, m: SessionMessage, t: Timing)
    requires conv in tb.sessions && tb.sessions[conv].node.kcp.params.Valid() && AtRest(tb)
    ensures AtRest(SendMessage(tb, now, conv, m, t))
  {
    SendRests(tb, now, conv, m, t);
    RestElsewhere(tb, SendMessage(tb, now, conv, m, t), conv);
  }

  lemma OpenRests(c: Config, tb: Table, now: nat, conv: nat, t: Timing)
    requires c.Valid() && conv < CONV_SPAN && AtRest(tb)
    ensures AtRest(OpenLocal(c, tb, now, conv, t))
  {
    var entered := tb.Put(conv, NewSession(c.ParamsFor(conv), Active)).Log(now, SessionTrace.Entered(conv, true));
    SendRests(entered, now, conv, Open, t);
    RestElsewhere(tb, OpenLocal(c, tb, now, conv, t), conv);
  }

  lemma QueueElsewhere(c: Config, tb: Table, now: nat, conv: nat, t: Timing)
    requires conv in tb.sessions ==> tb.sessions[conv].node.kcp.params.Valid()
    ensures Elsewhere(tb, QueueClose(c, tb, now, conv, t), conv)
    ensures ClosesNow(c, tb, now, conv) ==> RestsAt(QueueClose(c, tb, now, conv, t), conv)
  {
    if ClosesNow(c, tb, now, conv) {
      var s := tb.sessions[conv];
      SendRests(tb.Put(conv, s.(closeQueued := true)), now, conv, Close(s.pendingClose.value), t);
    }
  }

  /** A Close that is not queued at once has a full window before it. */
  lemma CloseRests(c: Config, tb: Table, now: nat, conv: nat, reason: CloseReason, t: Timing)
    requires c.Valid() && conv in tb.sessions && SessionOk(c, conv, tb.sessions[conv])
    requires tb.sessions[conv].phase.Active? && tb.sessions[conv].node.kcp.params.Valid() && AtRest(tb)
    ensures AtRest(CloseLocal(c, tb, now, conv, reason, t))
  {
    var begun := Begun(c, tb, now, conv, reason);
    QueueElsewhere(c, begun, now, conv, t);
    assert !ClosesNow(c, begun, now, conv) ==> begun.sessions[conv].WaitSnd() >= c.sndWnd;
    RestElsewhere(tb, CloseLocal(c, tb, now, conv, reason, t), conv);
  }

  lemma {:induction false} MessagesElsewhere(c: Config, tb: Table, now: nat, conv: nat, messages: seq<Message>, n: nat)
    requires n <= |messages| && Decodable(messages)
    ensures Elsewhere(tb, HandleMessages(c, tb, now, conv, messages, n), conv)
  {
    if n == 0 {
      assert HandleMessages(c, tb, now, conv, messages, n) == tb;
    } else {
      MessagesElsewhere(c, tb, now, conv, messages, n - 1);
    }
  }

  lemma PacketRests(
      c: Config, tb: Table, now: nat, conv: nat, peerSeq: nat, packet: seq<Segment>, t: Timing, tq: Timing)
    requires c.Valid() && conv < CONV_SPAN && AtRest(tb)
    requires conv in tb.sessions ==> tb.sessions[conv].node.kcp.params.Valid()
    requires Decodable(PacketMessages(c, tb, now, conv, peerSeq, packet, t))
    ensures AtRest(HandlePacket(c, tb, now, conv, peerSeq, packet, t, tq))
  {
    var open := Admitted(c, tb, now, conv, peerSeq);
    assert RestsAt(tb, conv) && RestsAt(open, conv) && Elsewhere(tb, open, conv);
    RestElsewhere(tb, open, conv);
    if conv !in tb.tombstones && Bound(open.sessions[conv], peerSeq) {
      ReadRests(c, tb, now, conv, peerSeq, packet, t, tq);
      RestElsewhere(tb, HandlePacket(c, tb, now, conv, peerSeq, packet, t, tq), conv);
    }
  }

  /** A packet that is read ends with an attempt to finish its session. */
  lemma ReadRests(
      c: Config, tb: Table, now: nat, conv: nat, peerSeq: nat, packet: seq<Segment>, t: Timing, tq: Timing)
    requires c.Valid() && conv < CONV_SPAN && conv !in tb.tombstones
    requires conv in tb.sessions ==> tb.sessions[conv].node.kcp.params.Valid()
    requires Decodable(PacketMessages(c, tb, now, conv, peerSeq, packet, t))
    requires Bound(Admitted(c, tb, now, conv, peerSeq).sessions[conv], peerSeq)
    ensures var tb' := HandlePacket(c, tb, now, conv, peerSeq, packet, t, tq);
            Elsewhere(tb, tb', conv) && RestsAt(tb', conv)
  {
    var open := Admitted(c, tb, now, conv, peerSeq);
    var messages := PacketMessages(c, tb, now, conv, peerSeq, packet, t);
    var read := open.Put(conv, Reached(c, tb, now, conv, peerSeq, packet, t));
    var handled := HandleMessages(c, read, now, conv, messages, |messages|);
    ReceivingFollows(open.sessions[conv].node, packet, t);
    MessagesKeepNode(c, read, now, conv, messages, |messages|);
    MessagesElsewhere(c, read, now, conv, messages, |messages|);
    QueueElsewhere(c, handled, now, conv, tq);
    FinishRests(QueueClose(c, handled, now, conv, tq), now, conv);
  }

  lemma EvictRests(tb: Table, now: nat, removed: seq<nat>, n: nat)
    requires n <= |removed| && AtRest(tb)
    ensures AtRest(EvictPeers(tb, now, removed, n))
  {
    forall conv ensures RestsAt(EvictPeers(tb, now, removed, n), conv) {
      EvictPeersLeaves(tb, now, removed, n, conv);
      assert RestsAt(tb, conv);
    }
  }

  lemma ForgetRests(tb: Table, now: nat)
    requires AtRest(tb)
    ensures AtRest(ForgetTombstones(tb, now))
  {
    forall conv ensures RestsAt(ForgetTombstones(tb, now), conv) {
      assert RestsAt(tb, conv);
    }
  }

  lemma VisitRests(c: Config, tb: Table, now: nat, conv: nat, tq: Timing, tp: Timing)
    requires AtRest(tb)
    ensures AtRest(PollStep(c, tb, now, conv, tq, tp))
  {
    if conv in tb.sessions && tb.sessions[conv].node.kcp.params.Valid() {
      QueueElsewhere(c, tb, now, conv, tq);
      var queued := QueueClose(c, tb, now, conv, tq);
      assert RestsAt(tb, conv);
      if conv in queued.sessions && queued.sessions[conv].node.kcp.params.Valid() {
        FinishRests(queued.Put(conv, Runs(queued.sessions[conv], tp)), now, conv);
      }
      RestElsewhere(tb, PollStep(c, tb, now, conv, tq, tp), conv);
    }
  }

  lemma {:induction false} VisitsRest(
      c: Config, tb: Table, now: nat, convs: seq<nat>, n: nat, tq: nat -> Timing, tp: nat -> Timing)
    requires n <= |convs| && AtRest(tb)
    ensures AtRest(PollAll(c, tb, now, convs, n, tq, tp))
  {
    if n == 0 {
      assert PollAll(c, tb, now, convs, n, tq, tp) == tb;
    } else {
      VisitsRest(c, tb, now, convs, n - 1, tq, tp);
      VisitRests(c, PollAll(c, tb, now, convs, n - 1, tq, tp), now, convs[n - 1], tq(convs[n - 1]), tp(convs[n - 1]));
    }
  }

  // ------------------------------------------------------------------ polls before the deadline

  /** A session that rests and whose time is not up. */
  ghost predicate Calm(c: Config, tb: Table, now: nat, conv: nat)
    requires c.Valid()
  {
    conv in tb.sessions ==>
      SessionOk(c, conv, tb.sessions[conv]) && RestsAt(tb, conv) && !DeadlineHit(tb.sessions[conv], now)
  }

  ghost predicate AllCalm(c: Config, tb: Table, now: nat)
    requires c.Valid()
  {
    forall conv :: Calm(c, tb, now, conv)
  }

  lemma SameStandingAdds(tb: Table, more: Table, most: Table)
    requires SameStanding(tb, more) && SameStanding(more, most)
    ensures SameStanding(tb, most)
  {
    forall v | v in tb.sessions ensures v in more.sessions {
      assert v in tb.sessions.Keys;
    }
  }

  /** A Close that was deferred is queued, or nothing happens. */
  lemma QuietQueue(c: Config, tb: Table, now: nat, conv: nat, t: Timing)
    requires c.Valid() && conv in tb.sessions && Calm(c, tb, now, conv)
    ensures tb.sessions[conv].node.kcp.params.Valid()
    ensures var tb' := QueueClose(c, tb, now, conv, t);
            conv in tb'.sessions && tb' == tb.Put(conv, tb'.sessions[conv])
            && Calm(c, tb', now, conv) && SameStanding(tb, tb')
  {
    if ClosesNow(c, tb, now, conv) {
      QueuedIs(c, tb, now, conv, t);
      PutStands(tb, conv, QueueClose(c, tb, now, conv, t).sessions[conv]);
    } else {
      assert tb == tb.Put(conv, tb.sessions[conv]);
    }
  }

  /** A session that rests is not finished by its timer before its deadline. */
  lemma QuietRun(c: Config, tb: Table, now: nat, conv: nat, t: Timing)
    requires c.Valid() && conv in tb.sessions && Calm(c, tb, now, conv)
    ensures tb.sessions[conv].node.kcp.params.Valid()
    ensures var tb' := PollSession(tb, now, conv, t);
            conv in tb'.sessions && tb' == tb.Put(conv, tb'.sessions[conv])
            && Calm(c, tb', now, conv) && SameStanding(tb, tb')
  {
    RunsKeepsSession(c, conv, tb.sessions[conv], t);
    PutStands(tb, conv, Runs(tb.sessions[conv], t));
  }

  /** A visit before the deadline removes nothing, tells nothing and buries nothing. */
  lemma QuietVisit(c: Config, tb: Table, now: nat, conv: nat, tq: Timing, tp: Timing) returns (tb': Table)
    requires c.Valid() && conv in tb.sessions && AllCalm(c, tb, now)
    ensures tb' == PollStep(c, tb, now, conv, tq, tp) && SameStanding(tb, tb') && AllCalm(c, tb', now)
  {
    assert Calm(c, tb, now, conv);
    QuietQueue(c, tb, now, conv, tq);
    var queued := QueueClose(c, tb, now, conv, tq);
    QuietRun(c, queued, now, conv, tp);
    tb' := PollSession(queued, now, conv, tp);
    SameStandingAdds(tb, queued, tb');
    forall v ensures Calm(c, tb', now, v) {
      assert Calm(c, tb, now, v);
    }
  }

  lemma {:induction false} QuietVisits(
      c: Config, tb: Table, now: nat, convs: seq<nat>, n: nat, tq: nat -> Timing, tp: nat -> Timing)
      returns (tb': Table)
    requires c.Valid() && AllCalm(c, tb, now) && n <= |convs|
    requires forall i :: 0 <= i < |convs| ==> convs[i] in tb.sessions
    ensures tb' == PollAll(c, tb, now, convs, n, tq, tp) && SameStanding(tb, tb') && AllCalm(c, tb', now)
  {
    if n == 0 {
      tb' := tb;
    } else {
      var conv := convs[n - 1];
      var before := QuietVisits(c, tb, now, convs, n - 1, tq, tp);
      assert conv in before.sessions.Keys;
      tb' := QuietVisit(c, before, now, conv, tq(conv), tp(conv));
      SameStandingAdds(tb, before, tb');
    }
  }

  /**
   Before the first close deadline a poll leaves every session where it stands: none is removed,
   told closed or buried, and the only thing it may queue is a Close that was deferred.
   */
  lemma QuietVisited(c: Config, tb: Table, now: nat, tq: nat -> Timing, tp: nat -> Timing)
    requires c.Valid() && SessionsOk(c, tb) && AtRest(tb)
    requires forall conv :: conv in tb.sessions ==> !DeadlineHit(tb.sessions[conv], now)
    ensures SameStanding(tb, Visited(c, tb, now, tq, tp))
  {
    forall conv ensures Calm(c, tb, now, conv) {
      assert RestsAt(tb, conv);
    }
    var convs := Ascending(tb.sessions.Keys);
    AscendingIs(tb.sessions.Keys);
    assert forall i :: 0 <= i < |convs| ==> convs[i] in convs;
    var tb' := QuietVisits(c, tb, now, convs, |convs|, tq, tp);
  }

  // ------------------------------------------------------------------ which sessions a poll removes

  /** A visit removes its session exactly when its time is up. */
  lemma VisitRemovesIff(c: Config, tb: Table, now: nat, conv: nat, tq: Timing, tp: Timing)
    requires c.Valid() && conv in tb.sessions && SessionOk(c, conv, tb.sessions[conv]) && RestsAt(tb, conv)
    ensures conv in PollStep(c, tb, now, conv, tq, tp).sessions <==> !DeadlineHit(tb.sessions[conv], now)
  {
    if DeadlineHit(tb.sessions[conv], now) {
      OverdueVisit(c, tb, now, conv, tq, tp);
    } else {
      QuietQueue(c, tb, now, conv, tq);
      QuietRun(c, QueueClose(c, tb, now, conv, tq), now, conv, tp);
    }
  }

  /** A session whose time is up is not given anything more to send, and goes. */
  lemma OverdueVisit(c: Config, tb: Table, now: nat, conv: nat, tq: Timing, tp: Timing)
    requires c.Valid() && conv in tb.sessions && SessionOk(c, conv, tb.sessions[conv])
    requires DeadlineHit(tb.sessions[conv], now)
    ensures conv !in PollStep(c, tb, now, conv, tq, tp).sessions
  {
    assert QueueClose(c, tb, now, conv, tq) == tb;
    RunsKeepsSession(c, conv, tb.sessions[conv], tp);
  }

  /** A session that has not been visited is as it was. */
  lemma {:induction false} VisitsElsewhere(
      c: Config, tb: Table, now: nat, convs: seq<nat>, n: nat, tq: nat -> Timing, tp: nat -> Timing, conv: nat)
    requires n <= |convs| && forall i :: 0 <= i < n ==> convs[i] != conv
    ensures var tb' := PollAll(c, tb, now, convs, n, tq, tp);
            (conv in tb'.sessions <==> conv in tb.sessions)
            && (conv in tb.sessions ==> tb'.sessions[conv] == tb.sessions[conv])
  {
    if n == 0 {
      assert PollAll(c, tb, now, convs, n, tq, tp) == tb;
    } else {
      VisitsElsewhere(c, tb, now, convs, n - 1, tq, tp, conv);
      StepElsewhere(c, PollAll(c, tb, now, convs, n - 1, tq, tp), now, convs[n - 1], tq(convs[n - 1]),
                    tp(convs[n - 1]));
    }
  }

  lemma StepElsewhere(c: Config, tb: Table, now: nat, conv: nat, tq: Timing, tp: Timing)
    ensures Elsewhere(tb, PollStep(c, tb, now, conv, tq, tp), conv)
  {
    if conv in tb.sessions && tb.sessions[conv].node.kcp.params.Valid() {
      QueueElsewhere(c, tb, now, conv, tq);
      var queued := QueueClose(c, tb, now, conv, tq);
      if conv in queued.sessions && queued.sessions[conv].node.kcp.params.Valid() {
        FinishRests(queued.Put(conv, Runs(queued.sessions[conv], tp)), now, conv);
      }
    }
  }

  /** Once it has been visited, a session stays as the visit left it. */
  lemma {:induction false} VisitedOnce(
      c: Config, tb: Table, now: nat, convs: seq<nat>, i: nat, n: nat, tq: nat -> Timing, tp: nat -> Timing)
    requires c.Valid() && i < n <= |convs| && forall j, k :: 0 <= j < k < |convs| ==> convs[j] < convs[k]
    requires convs[i] in tb.sessions && SessionOk(c, convs[i], tb.sessions[convs[i]]) && RestsAt(tb, convs[i])
    ensures convs[i] in PollAll(c, tb, now, convs, n, tq, tp).sessions <==> !DeadlineHit(tb.sessions[convs[i]], now)
    decreases n
  {
    var before, last := PollAll(c, tb, now, convs, n - 1, tq, tp), convs[n - 1];
    if i == n - 1 {
      VisitsElsewhere(c, tb, now, convs, n - 1, tq, tp, last);
      VisitRemovesIff(c, before, now, last, tq(last), tp(last));
    } else {
      VisitedOnce(c, tb, now, convs, i, n - 1, tq, tp);
      StepElsewhere(c, before, now, last, tq(last), tp(last));
    }
  }

  /**
   A poll removes exactly the sessions whose close deadline has come: a close that is complete was
   finished when its acknowledgement arrived.
   */
  lemma PollRemovesIff(c: Config, tb: Table, now: nat, conv: nat, tq: nat -> Timing, tp: nat -> Timing)
    requires c.Valid() && SessionsOk(c, tb) && AtRest(tb) && conv in tb.sessions
    ensures conv in Visited(c, tb, now, tq, tp).sessions <==> !DeadlineHit(tb.sessions[conv], now)
  {
    var convs := Ascending(tb.sessions.Keys);
    AscendingIs(tb.sessions.Keys);
    assert conv in convs;
    var i :| 0 <= i < |convs| && convs[i] == conv;
    assert RestsAt(tb, conv) && SessionOk(c, conv, tb.sessions[conv]);
    VisitedOnce(c, tb, now, convs, i, |convs|, tq, tp);
  }
}
