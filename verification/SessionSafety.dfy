/** Every event keeps every session sound and every local close graceful. */
module SessionSafety {
  import opened Bytes
  import opened EndpointSpec
  import opened KcpMachine
  import opened KcpPair
  import opened KeyOrder
  import opened Options
  import opened SessionTable
  import opened SessionTrace
  import opened Wire

  /** If this session could finish now, before its deadline, its Close has been queued. */
  predicate Ready(tb: Table, now: nat, conv: nat) {
    conv in tb.sessions ==>
      var s := tb.sessions[conv];
      s.phase.ClosingLocal? && !DeadlineHit(s, now) && s.WaitSnd() == 0 ==> s.closeQueued
  }

  lemma FinishKeepsTable(c: Config, tb: Table, clock: nat, now: nat, conv: nat)
    requires c.Valid() && TableOk(c, tb, clock) && clock <= now && Ready(tb, now, conv)
    ensures TableOk(c, FinishClosed(tb, now, conv), now)
  {
    if conv in tb.sessions { assert SessionOk(c, conv, tb.sessions[conv]); }
    FinishKeepsFit(tb, clock, now, conv);
  }

  lemma PutKeepsTable(c: Config, tb: Table, clock: nat, now: nat, conv: nat, s: Session)
    requires c.Valid() && TableOk(c, tb, clock) && clock <= now
    requires conv in tb.sessions && s.phase == tb.sessions[conv].phase && SessionOk(c, conv, s)
    ensures TableOk(c, tb.Put(conv, s), now)
  {
    PutKeepsFit(tb, clock, now, conv, s);
  }

  lemma OneFragment(c: Config, conv: nat, m: SessionMessage)
    requires c.Valid() && conv < CONV_SPAN && (m.Open? || m.Close?)
    ensures c.ParamsFor(conv).Valid()
    ensures FragmentCount(c.ParamsFor(conv).Mss(), |EncodeSession(m)|) == 1
    ensures Accepts(c.ParamsFor(conv), EncodeSession(m))
  {
  }

  lemma {:induction false} MoreFragments(mss: nat, len: nat, more: nat)
    requires mss > 0 && len <= more
    ensures FragmentCount(mss, len) <= FragmentCount(mss, more)
  {
    if len <= mss {
      assert FragmentCount(mss, len) == 1;
    } else {
      MoreFragments(mss, len - mss, more - mss);
    }
  }

  /** A write that KCP accepts, and that an idle session does not refuse. */
  predicate Takes(c: Config, bytes: seq<Byte>)
    requires c.Valid()
  {
    && Accepts(c.ParamsFor(0), EncodeSession(Data(bytes)))
    && FragmentCount(c.mtu - OVERHEAD, |EncodeSession(Data(bytes))|) <= c.sndWnd
  }

  /** Every write that the shell may make is taken exactly when the configuration is roomy. */
  lemma EveryWriteIsTakenIff(c: Config)
    requires c.Valid()
    ensures c.Roomy() <==> forall bytes: seq<Byte> :: |bytes| <= MAX_SESSION_DATA_SIZE ==> Takes(c, bytes)
  {
    if c.Roomy() {
      forall bytes: seq<Byte> | |bytes| <= MAX_SESSION_DATA_SIZE ensures Takes(c, bytes) {
        MoreFragments(c.mtu - OVERHEAD, 1 + |bytes|, 1 + MAX_SESSION_DATA_SIZE);
      }
    } else {
      var bytes: seq<Byte> := seq(MAX_SESSION_DATA_SIZE, _ => 0);
      assert |EncodeSession(Data(bytes))| == 1 + MAX_SESSION_DATA_SIZE;
      assert !Takes(c, bytes);
    }
  }

  /** A session that takes one more message, its Close if that is queued, and has not finished. */
  lemma SubmitKeepsSession(c: Config, conv: nat, s: Session, m: SessionMessage, t: Timing, last: bool)
    requires c.Valid() && SessionOk(c, conv, s) && !s.closeQueued
    requires Accepts(c.ParamsFor(conv), EncodeSession(m))
    requires s.WaitSnd() + FragmentCount(c.ParamsFor(conv).Mss(), |EncodeSession(m)|) <= c.sndWnd
    requires last ==> s.pendingClose.Some? && m == Close(s.pendingClose.value)
    ensures s.node.kcp.params.Valid()
    ensures var s' := Submits(s, m, t).(closeQueued := last);
            && SessionOk(c, conv, s') && s'.WaitSnd() > 0
            && s'.node.sent == s.node.sent + [EncodeSession(m)]
            && s'.WaitSnd() == s.WaitSnd() + FragmentCount(c.ParamsFor(conv).Mss(), |EncodeSession(m)|)
  {
    SubmittingWaits(s.node, m, t);
    OperationsAreLogged(c.ParamsFor(conv), s, m, [], t);
  }

  /** A session with something to send that is open, or closing in time, stays. */
  lemma UnfinishedStays(tb: Table, now: nat, conv: nat)
    requires conv in tb.sessions && tb.sessions[conv].WaitSnd() > 0
    requires tb.sessions[conv].phase.Active?
      || (tb.sessions[conv].phase.ClosingLocal? && !DeadlineHit(tb.sessions[conv], now))
    ensures FinishClosed(tb, now, conv) == tb
  {
  }

  /** The Close goes in as the last message. */
  lemma QueuedIs(c: Config, tb: Table, now: nat, conv: nat, t: Timing)
    requires c.Valid() && ClosesNow(c, tb, now, conv) && SessionOk(c, conv, tb.sessions[conv])
    ensures tb.sessions[conv].node.kcp.params.Valid()
    ensures var s := tb.sessions[conv];
            var s' := Submits(s, Close(s.pendingClose.value), t).(closeQueued := true);
            QueueClose(c, tb, now, conv, t) == tb.Put(conv, s') && SessionOk(c, conv, s') && s'.WaitSnd() > 0
  {
    var s := tb.sessions[conv];
    var m := Close(s.pendingClose.value);
    assert SessionOk(c, conv, s);
    OneFragment(c, conv, m);
    SubmitKeepsSession(c, conv, s, m, t, true);
    var s' := Submits(s, m, t).(closeQueued := true);
    UnfinishedStays(tb.Put(conv, s'), now, conv);
    assert tb.Put(conv, s.(closeQueued := true)).Put(conv, s') == tb.Put(conv, s');
  }

  /** `tb'` differs from `tb` at most in the node of a session and whether its Close is queued. */
  ghost predicate SameStanding(tb: Table, tb': Table) {
    && tb'.sessions.Keys == tb.sessions.Keys && tb'.tombstones == tb.tombstones
    && tb'.trace == tb.trace && tb'.finished == tb.finished
    && (forall v :: v in tb.sessions ==>
      && tb'.sessions[v].phase == tb.sessions[v].phase
      && tb'.sessions[v].peerSeq == tb.sessions[v].peerSeq
      && tb'.sessions[v].closeDeadlineAt == tb.sessions[v].closeDeadlineAt)
  }

  lemma PutStands(tb: Table, conv: nat, s: Session)
    requires conv in tb.sessions && s.phase == tb.sessions[conv].phase
    requires s.peerSeq == tb.sessions[conv].peerSeq && s.closeDeadlineAt == tb.sessions[conv].closeDeadlineAt
    ensures SameStanding(tb, tb.Put(conv, s))
  {
  }

  /**
   Queueing a Close never removes the session, and afterwards a session that could finish in
   time has its Close queued.
   */
  lemma QueueKeepsTable(c: Config, tb: Table, clock: nat, now: nat, conv: nat, t: Timing)
    requires c.Valid() && TableOk(c, tb, clock) && clock <= now
    requires conv in tb.sessions ==> tb.sessions[conv].node.kcp.params.Valid()
    ensures var tb' := QueueClose(c, tb, now, conv, t);
            TableOk(c, tb', now) && Ready(tb', now, conv) && SameStanding(tb, tb')
  {
    if ClosesNow(c, tb, now, conv) {
      assert SessionOk(c, conv, tb.sessions[conv]);
      QueuedIs(c, tb, now, conv, t);
      var s' := QueueClose(c, tb, now, conv, t).sessions[conv];
      PutKeepsTable(c, tb, clock, now, conv, s');
      PutStands(tb, conv, s');
    } else {
      TimePasses(tb, clock, now);
      if conv in tb.sessions { assert SessionOk(c, conv, tb.sessions[conv]); }
    }
  }

  lemma NewKeepsTable(c: Config, tb: Table, clock: nat, now: nat, conv: nat, s: Session)
    requires c.Valid() && TableOk(c, tb, clock) && clock <= now
    requires conv !in tb.sessions && conv !in tb.tombstones && s.phase.Active? && SessionOk(c, conv, s)
    ensures TableOk(c, tb.Put(conv, s).Log(now, Entered(conv, true)), now)
  {
    assert LifeFits(tb, conv, clock, LifeOf(tb.trace, conv));
    LogKeepsFit(tb, tb.Put(conv, s).Log(now, Entered(conv, true)), clock, now, Entered(conv, true));
  }

  lemma OpenedIs(c: Config, tb: Table, now: nat, conv: nat, t: Timing)
    requires c.Valid() && conv < CONV_SPAN
    ensures var s := NewSession(c.ParamsFor(conv), Active);
            var s' := Submits(s, Open, t);
            && OpenLocal(c, tb, now, conv, t) == tb.Put(conv, s').Log(now, Entered(conv, true))
            && SessionOk(c, conv, s') && s'.node.sent == [EncodeSession(Open)]
  {
    FirstMessage(c, conv, t);
    var s := NewSession(c.ParamsFor(conv), Active);
    var s' := Submits(s, Open, t);
    UnfinishedStays(tb.Put(conv, s').Log(now, Entered(conv, true)), now, conv);
    assert tb.Put(conv, s).Log(now, Entered(conv, true)).Put(conv, s')
        == tb.Put(conv, s').Log(now, Entered(conv, true));
  }

  lemma FirstMessage(c: Config, conv: nat, t: Timing)
    requires c.Valid() && conv < CONV_SPAN
    ensures var s' := Submits(NewSession(c.ParamsFor(conv), Active), Open, t);
            SessionOk(c, conv, s') && s'.node.sent == [EncodeSession(Open)] && s'.WaitSnd() > 0
  {
    var s := NewSession(c.ParamsFor(conv), Active);
    OneFragment(c, conv, Open);
    assert After(c.ParamsFor(conv), []) == s.node;
    SubmitKeepsSession(c, conv, s, Open, t, false);
    assert Submits(s, Open, t) == Submits(s, Open, t).(closeQueued := false);
  }

  /** A fresh id is opened: the session is there, its Open is queued, and nothing finished. */
  lemma OpenKeepsTable(c: Config, tb: Table, clock: nat, now: nat, conv: nat, t: Timing)
    requires c.Valid() && TableOk(c, tb, clock) && clock <= now
    requires conv < CONV_SPAN && conv !in tb.sessions && conv !in tb.tombstones
    ensures var tb' := OpenLocal(c, tb, now, conv, t);
            && TableOk(c, tb', now)
            && conv in tb'.sessions && tb'.sessions[conv].phase.Active?
            && tb'.sessions[conv].node.sent == [EncodeSession(Open)]
  {
    OpenedIs(c, tb, now, conv, t);
    NewKeepsTable(c, tb, clock, now, conv, OpenLocal(c, tb, now, conv, t).sessions[conv]);
  }

  /** A message of an open session that fits the window. */
  lemma WriteKeepsTable(c: Config, tb: Table, clock: nat, now: nat, conv: nat, m: SessionMessage, t: Timing)
    requires c.Valid() && TableOk(c, tb, clock) && clock <= now
    requires conv in tb.sessions && tb.sessions[conv].phase.Active? && tb.sessions[conv].node.kcp.params.Valid()
    requires Accepts(c.ParamsFor(conv), EncodeSession(m))
    requires tb.sessions[conv].WaitSnd() + FragmentCount(c.ParamsFor(conv).Mss(), |EncodeSession(m)|) <= c.sndWnd
    ensures var tb' := SendMessage(tb, now, conv, m, t);
            && TableOk(c, tb', now)
            && tb' == tb.Put(conv, Submits(tb.sessions[conv], m, t))
            && tb'.sessions[conv].node.sent == tb.sessions[conv].node.sent + [EncodeSession(m)]
  {
    var s := tb.sessions[conv];
    assert SessionOk(c, conv, s);
    SubmitKeepsSession(c, conv, s, m, t, false);
    var s' := Submits(s, m, t);
    PutKeepsTable(c, tb, clock, now, conv, s');
    UnfinishedStays(tb.Put(conv, s'), now, conv);
  }

  lemma BeginKeepsTable(c: Config, tb: Table, clock: nat, now: nat, conv: nat, reason: CloseReason)
    requires c.Valid() && TableOk(c, tb, clock) && clock <= now
    requires conv in tb.sessions && tb.sessions[conv].phase.Active?
    ensures TableOk(c, Begun(c, tb, now, conv, reason), now)
  {
    assert SessionOk(c, conv, tb.sessions[conv]);
    assert LifeFits(tb, conv, clock, LifeOf(tb.trace, conv));
    LogKeepsFit(tb, Begun(c, tb, now, conv, reason), clock, now, CloseBegun(conv));
  }

  lemma CloseKeepsTable(c: Config, tb: Table, clock: nat, now: nat, conv: nat, reason: CloseReason, t: Timing)
    requires c.Valid() && TableOk(c, tb, clock) && clock <= now
    requires conv in tb.sessions && tb.sessions[conv].phase.Active? && tb.sessions[conv].node.kcp.params.Valid()
    ensures TableOk(c, CloseLocal(c, tb, now, conv, reason, t), now)
    ensures SameStanding(Begun(c, tb, now, conv, reason), CloseLocal(c, tb, now, conv, reason, t))
  {
    BeginKeepsTable(c, tb, clock, now, conv, reason);
    QueueKeepsTable(c, Begun(c, tb, now, conv, reason), now, now, conv, t);
  }

  lemma MessageKeepsTable(c: Config, tb: Table, clock: nat, now: nat, conv: nat, m: SessionMessage)
    requires c.Valid() && TableOk(c, tb, clock) && clock <= now
    ensures TableOk(c, HandleMessage(c, tb, now, conv, m), now)
  {
    HandleMessageKeepsFit(c, tb, clock, now, conv, m);
    if conv in tb.sessions { assert SessionOk(c, conv, tb.sessions[conv]); }
  }

  lemma {:induction false} MessagesKeepTable(
      c: Config, tb: Table, clock: nat, now: nat, conv: nat, messages: seq<Message>, n: nat)
    requires c.Valid() && TableOk(c, tb, clock) && clock <= now && n <= |messages| && Decodable(messages)
    ensures TableOk(c, HandleMessages(c, tb, now, conv, messages, n), now)
  {
    if n == 0 {
      TimePasses(tb, clock, now);
    } else {
      MessagesKeepTable(c, tb, clock, now, conv, messages, n - 1);
      MessageKeepsTable(c, HandleMessages(c, tb, now, conv, messages, n - 1), now, now, conv,
                        DecodeSession(messages[n - 1]).value);
    }
  }

  lemma AdmitKeepsTable(c: Config, tb: Table, clock: nat, now: nat, conv: nat, peerSeq: nat)
    requires c.Valid() && TableOk(c, tb, clock) && clock <= now && conv < CONV_SPAN && conv !in tb.tombstones
    ensures TableOk(c, Admitted(c, tb, now, conv, peerSeq), now)
  {
    TimePasses(tb, clock, now);
    if conv !in tb.sessions {
      assert After(c.ParamsFor(conv), []) == Start(c.ParamsFor(conv));
      assert LifeFits(tb, conv, clock, LifeOf(tb.trace, conv));
      LogKeepsFit(tb, Admitted(c, tb, now, conv, peerSeq), clock, now, Entered(conv, false));
    }
  }

  lemma ReachedKeepsSession(c: Config, conv: nat, s: Session, peerSeq: nat, packet: seq<Segment>, t: Timing)
    requires c.Valid() && SessionOk(c, conv, s)
    ensures s.node.kcp.params.Valid() && SessionOk(c, conv, Receives(s, packet, t).(peerSeq := Some(peerSeq)))
  {
    ReceivingFollows(s.node, packet, t);
    OperationsAreLogged(c.ParamsFor(conv), s, Open, packet, t);
  }

  lemma PacketKeepsTable(
      c: Config, tb: Table, clock: nat, now: nat, conv: nat, peerSeq: nat, packet: seq<Segment>, t: Timing, tq: Timing)
    requires c.Valid() && TableOk(c, tb, clock) && clock <= now && conv < CONV_SPAN
    requires conv in tb.sessions ==> tb.sessions[conv].node.kcp.params.Valid()
    requires Decodable(PacketMessages(c, tb, now, conv, peerSeq, packet, t))
    ensures TableOk(c, HandlePacket(c, tb, now, conv, peerSeq, packet, t, tq), now)
  {
    if conv in tb.tombstones {
      TimePasses(tb, clock, now);
    } else {
      AdmitKeepsTable(c, tb, clock, now, conv, peerSeq);
      var open := Admitted(c, tb, now, conv, peerSeq);
      if Bound(open.sessions[conv], peerSeq) {
        var s := Reached(c, tb, now, conv, peerSeq, packet, t);
        var messages := PacketMessages(c, tb, now, conv, peerSeq, packet, t);
        ReachedKeepsSession(c, conv, open.sessions[conv], peerSeq, packet, t);
        PutKeepsTable(c, open, now, now, conv, s);
        var read := open.Put(conv, s);
        MessagesKeepTable(c, read, now, now, conv, messages, |messages|);
        MessagesKeepNode(c, read, now, conv, messages, |messages|);
        var handled := HandleMessages(c, read, now, conv, messages, |messages|);
        QueueKeepsTable(c, handled, now, now, conv, tq);
        FinishKeepsTable(c, QueueClose(c, handled, now, conv, tq), now, now, conv);
      }
    }
  }

  lemma RunsKeepsSession(c: Config, conv: nat, s: Session, t: Timing)
    requires c.Valid() && SessionOk(c, conv, s)
    ensures s.node.kcp.params.Valid() && SessionOk(c, conv, Runs(s, t)) && Runs(s, t).WaitSnd() == s.WaitSnd()
  {
    PolledFollows(s.node, t);
    OperationsAreLogged(c.ParamsFor(conv), s, Open, [], t);
  }

  lemma PollKeepsTable(c: Config, tb: Table, clock: nat, now: nat, conv: nat, t: Timing)
    requires c.Valid() && TableOk(c, tb, clock) && clock <= now && Ready(tb, now, conv)
    requires conv in tb.sessions && tb.sessions[conv].node.kcp.params.Valid()
    ensures TableOk(c, PollSession(tb, now, conv, t), now)
  {
    var s := tb.sessions[conv];
    assert SessionOk(c, conv, s);
    RunsKeepsSession(c, conv, s, t);
    PutKeepsTable(c, tb, clock, now, conv, Runs(s, t));
    FinishKeepsTable(c, tb.Put(conv, Runs(s, t)), now, now, conv);
  }

  lemma EvictKeepsTable(c: Config, tb: Table, clock: nat, now: nat, conv: nat)
    requires c.Valid() && TableOk(c, tb, clock) && clock <= now
    ensures TableOk(c, Evict(tb, now, conv), now)
  {
    EvictKeepsFit(tb, clock, now, conv);
  }

  lemma ForgetKeepsTable(c: Config, tb: Table, clock: nat, now: nat)
    requires c.Valid() && TableOk(c, tb, clock) && clock <= now
    ensures TableOk(c, ForgetTombstones(tb, now), now)
  {
    ForgetKeepsFit(tb, clock, now);
  }

  lemma {:induction false} EvictAllKeepsTable(c: Config, tb: Table, clock: nat, now: nat, convs: seq<nat>, n: nat)
    requires c.Valid() && TableOk(c, tb, clock) && clock <= now && n <= |convs|
    ensures TableOk(c, EvictAll(tb, now, convs, n), now)
  {
    if n == 0 {
      TimePasses(tb, clock, now);
    } else {
      EvictAllKeepsTable(c, tb, clock, now, convs, n - 1);
      EvictKeepsTable(c, EvictAll(tb, now, convs, n - 1), now, now, convs[n - 1]);
    }
  }

  lemma {:induction false} EvictPeersKeepsTable(c: Config, tb: Table, clock: nat, now: nat, removed: seq<nat>, n: nat)
    requires c.Valid() && TableOk(c, tb, clock) && clock <= now && n <= |removed|
    ensures TableOk(c, EvictPeers(tb, now, removed, n), now)
  {
    if n == 0 {
      TimePasses(tb, clock, now);
    } else {
      EvictPeersKeepsTable(c, tb, clock, now, removed, n - 1);
      var before := EvictPeers(tb, now, removed, n - 1);
      var convs := Ascending(PeerConvs(before, removed[n - 1]));
      EvictAllKeepsTable(c, before, now, now, convs, |convs|);
    }
  }

  /** A poll's visit keeps the table, and removes no session but the one it visits. */
  lemma PollStepKeepsTable(c: Config, tb: Table, clock: nat, now: nat, conv: nat, tq: Timing, tp: Timing)
    requires c.Valid() && TableOk(c, tb, clock) && clock <= now && conv in tb.sessions
    ensures tb.sessions[conv].node.kcp.params.Valid()
    ensures var queued := QueueClose(c, tb, now, conv, tq);
            conv in queued.sessions && queued.sessions[conv].node.kcp.params.Valid()
    ensures TableOk(c, PollStep(c, tb, now, conv, tq, tp), now)
    ensures PollStep(c, tb, now, conv, tq, tp).sessions.Keys >= tb.sessions.Keys - {conv}
  {
    assert SessionOk(c, conv, tb.sessions[conv]);
    QueueKeepsTable(c, tb, clock, now, conv, tq);
    var queued := QueueClose(c, tb, now, conv, tq);
    assert conv in queued.sessions.Keys;
    assert SessionOk(c, conv, queued.sessions[conv]);
    PollKeepsTable(c, queued, now, now, conv, tp);
  }
}
