/** After a poll nothing is due any more: everything whose time had come has been dealt with. */
module Polls {
  import opened Deadlines
  import opened Endpoint
  import opened EndpointSpec
  import Exchanges
  import Bytes
  import Relay
  import Wire
  import opened KeyOrder
  import KcpCodec
  import opened Options
  import opened RouteSpec
  import opened SenderSpec
  import opened SequenceFilter
  import SequenceSpec
  import opened SessionRest
  import opened SessionSafety
  import opened SessionTable
  import Sessions

  // ------------------------------------------------------------------ tombstones

  /** No tombstone's time has come. */
  ghost predicate NoneToUnbury(tb: Table, now: nat) {
    forall conv :: conv in tb.tombstones ==> now < tb.tombstones[conv]
  }

  lemma FinishBuriesLater(tb: Table, now: nat, conv: nat)
    requires NoneToUnbury(tb, now)
    ensures NoneToUnbury(FinishClosed(tb, now, conv), now)
  {
  }

  lemma VisitBuriesLater(c: SessionTable.Config, tb: Table, now: nat, conv: nat, tq: Timing, tp: Timing)
    requires NoneToUnbury(tb, now)
    ensures NoneToUnbury(PollStep(c, tb, now, conv, tq, tp), now)
  {
    if conv in tb.sessions && tb.sessions[conv].node.kcp.params.Valid() {
      if ClosesNow(c, tb, now, conv) {
        var s := tb.sessions[conv];
        var closing := tb.Put(conv, s.(closeQueued := true));
        FinishBuriesLater(
          closing.Put(conv, Submits(closing.sessions[conv], Wire.Close(s.pendingClose.value), tq)), now, conv);
      }
      var queued := QueueClose(c, tb, now, conv, tq);
      if conv in queued.sessions && queued.sessions[conv].node.kcp.params.Valid() {
        FinishBuriesLater(queued.Put(conv, Runs(queued.sessions[conv], tp)), now, conv);
      }
    }
  }

  lemma {:induction false} VisitsBuryLater(
      c: SessionTable.Config, tb: Table, now: nat, convs: seq<nat>, n: nat, tq: nat -> Timing, tp: nat -> Timing)
    requires n <= |convs| && NoneToUnbury(tb, now)
    ensures NoneToUnbury(PollAll(c, tb, now, convs, n, tq, tp), now)
  {
    if n == 0 {
      assert PollAll(c, tb, now, convs, n, tq, tp) == tb;
    } else {
      VisitsBuryLater(c, tb, now, convs, n - 1, tq, tp);
      VisitBuriesLater(c, PollAll(c, tb, now, convs, n - 1, tq, tp), now, convs[n - 1], tq(convs[n - 1]),
                       tp(convs[n - 1]));
    }
  }

  // ------------------------------------------------------------------ sessions

  /** A visit makes no session and touches no deadline. */
  ghost predicate SameDeadlines(tb: Table, tb': Table) {
    forall v :: v in tb'.sessions ==>
      v in tb.sessions && tb'.sessions[v].closeDeadlineAt == tb.sessions[v].closeDeadlineAt
  }

  lemma {:induction false} VisitsKeepDeadlines(
      c: SessionTable.Config, tb: Table, now: nat, convs: seq<nat>, n: nat, tq: nat -> Timing, tp: nat -> Timing)
    requires n <= |convs|
    ensures SameDeadlines(tb, PollAll(c, tb, now, convs, n, tq, tp))
  {
    if n == 0 {
      assert PollAll(c, tb, now, convs, n, tq, tp) == tb;
    } else {
      VisitsKeepDeadlines(c, tb, now, convs, n - 1, tq, tp);
      VisitKeepsDeadlines(c, PollAll(c, tb, now, convs, n - 1, tq, tp), now, convs[n - 1], tq(convs[n - 1]),
                          tp(convs[n - 1]));
    }
  }

  lemma FinishKeepsDeadlines(tb: Table, now: nat, conv: nat, s: Session)
    requires conv in tb.sessions && s.closeDeadlineAt == tb.sessions[conv].closeDeadlineAt
    ensures SameDeadlines(tb, FinishClosed(tb.Put(conv, s), now, conv))
  {
  }

  lemma QueueKeepsDeadlines(c: SessionTable.Config, tb: Table, now: nat, conv: nat, t: Timing)
    requires conv in tb.sessions && tb.sessions[conv].node.kcp.params.Valid()
    ensures SameDeadlines(tb, QueueClose(c, tb, now, conv, t))
  {
    if ClosesNow(c, tb, now, conv) {
      var closing := tb.sessions[conv].(closeQueued := true);
      var s := Submits(closing, Wire.Close(closing.pendingClose.value), t);
      FinishKeepsDeadlines(tb, now, conv, s);
      assert tb.Put(conv, closing).Put(conv, s) == tb.Put(conv, s);
    }
  }

  lemma VisitKeepsDeadlines(c: SessionTable.Config, tb: Table, now: nat, conv: nat, tq: Timing, tp: Timing)
    ensures SameDeadlines(tb, PollStep(c, tb, now, conv, tq, tp))
  {
    if conv in tb.sessions && tb.sessions[conv].node.kcp.params.Valid() {
      QueueKeepsDeadlines(c, tb, now, conv, tq);
      var queued := QueueClose(c, tb, now, conv, tq);
      if conv in queued.sessions && queued.sessions[conv].node.kcp.params.Valid() {
        FinishKeepsDeadlines(queued, now, conv, Runs(queued.sessions[conv], tp));
      }
    }
  }

  /** After a poll no session is left whose time has come. */
  lemma NoneToClose(c: SessionTable.Config, tb: Table, now: nat, tq: nat -> Timing, tp: nat -> Timing, conv: nat)
    requires c.Valid() && SessionsOk(c, tb) && AtRest(tb) && conv in Visited(c, tb, now, tq, tp).sessions
    ensures !DeadlineHit(Visited(c, tb, now, tq, tp).sessions[conv], now)
  {
    var convs := Ascending(tb.sessions.Keys);
    VisitsKeepDeadlines(c, tb, now, convs, |convs|, tq, tp);
    PollRemovesIff(c, tb, now, conv, tq, tp);
  }

  // ------------------------------------------------------------------ samples

  ghost predicate NoneToGiveUp(x: Sender, now: nat) {
    forall key :: key in x.outstanding ==> now < x.outstanding[key].deadline
  }

  lemma MessageAwaitsLater(
      c: SenderSpec.Config, x: Sender, y: Sender, now: nat, m: Wire.EndpointMessage, sample: bool)
    requires ConfigOk(c.graph) && c.feedbackIntervalMs > 0 && c.feedbackTimeoutMs > 0 && |x.nodes| > 0 && m.Valid()
    requires SentMessage(c, x, y, now, m, sample) && NoneToGiveUp(x, now)
    ensures NoneToGiveUp(y, now)
  {
    Exchanges.MessageIsSent(c, x, y, now, m, sample);
  }

  lemma {:induction false} SendsAwaitLater(
      c: SenderSpec.Config, x: Sender, y: Sender, now: nat, packets: seq<seq<Bytes.Byte>>, n: nat)
    requires ConfigOk(c.graph) && c.feedbackIntervalMs > 0 && c.feedbackTimeoutMs > 0 && n <= |packets|
    requires SentKcp(c, x, y, now, packets, n) && NoneToGiveUp(x, now)
    ensures NoneToGiveUp(y, now)
    decreases n
  {
    if n == 0 {
      assert y == x;
    } else {
      var before, last := n - 1, packets[n - 1];
      var z :| SentKcp(c, x, z, now, packets, before) && SentKcpPacket(c, z, y, now, last);
      SendsAwaitLater(c, x, z, now, packets, before);
      NextAwaitsLater(c, z, y, now, last);
    }
  }

  lemma NextAwaitsLater(c: SenderSpec.Config, x: Sender, y: Sender, now: nat, packet: seq<Bytes.Byte>)
    requires ConfigOk(c.graph) && c.feedbackIntervalMs > 0 && c.feedbackTimeoutMs > 0
    requires SentKcpPacket(c, x, y, now, packet) && NoneToGiveUp(x, now)
    ensures NoneToGiveUp(y, now)
  {
    MessageAwaitsLater(c, x, y, now, KcpMessage(packet, x.FeedbackDue(now)), x.FeedbackDue(now));
  }

  lemma KeepAliveAwaitsLater(c: SenderSpec.Config, x: Sender, y: Sender, now: nat)
    requires ConfigOk(c.graph) && c.feedbackIntervalMs > 0 && c.feedbackTimeoutMs > 0 && |x.nodes| > 0
    requires KeptAlive(c, x, y, now) && NoneToGiveUp(x, now)
    ensures NoneToGiveUp(y, now)
  {
    Exchanges.KeepAliveIsSent(c, x, y, now);
  }

  // ------------------------------------------------------------------ senders

  /** Of what the filter keeps beyond its cap, nothing has expired. */
  lemma NoneToForget(ws: SequenceSpec.Windows, currentTime: nat, removed: seq<nat>, windows: SequenceSpec.Windows)
    requires OldestExpired(ws, currentTime, SEQUENCE_SOFT_CAP, removed)
    requires SequenceFilter.Filter.Left(ws, removed, windows)
    ensures |windows| > SEQUENCE_SOFT_CAP ==>
      forall id :: id in windows ==> !SequenceSpec.Expired(windows[id], currentTime)
  {
    if |windows| > SEQUENCE_SOFT_CAP {
      Relay.RemovedCount(removed);
      assert Ids(removed) <= ws.Keys;
      LeftCount(ws, Ids(removed), windows);
    }
  }

  lemma LeftCount(ws: SequenceSpec.Windows, gone: set<nat>, windows: SequenceSpec.Windows)
    requires gone <= ws.Keys && windows == ws - gone
    ensures |windows| == |ws| - |gone|
  {
    assert windows.Keys == ws.Keys - gone;
    assert |windows| == |windows.Keys| && |ws| == |ws.Keys|;
  }

  // ------------------------------------------------------------------ a poll

  /**
   Whatever a poll at `now` does, in the words of its parts: afterwards nothing is due at `now`, so the next
   poll that has something to do is later.
   */
  lemma PollLeavesNothingDue(
      c: SessionTable.Config, sc: SenderSpec.Config, tb: Table, ws: SequenceSpec.Windows, x: Sender, now: nat,
      removed: seq<nat>, windows: SequenceSpec.Windows, left: Table, given: Sender, sent: Sender, y: Sender,
      tq: nat -> Timing, tp: nat -> Timing)
    requires c.Valid() && SessionsOk(c, left) && AtRest(left)
    requires ConfigOk(sc.graph) && sc.feedbackIntervalMs > 0 && sc.feedbackTimeoutMs > 0
    requires SendersGivenUp(ws, sc.CurrentTime(now), tb, now, removed, windows, left)
    requires Expired(x, given, now)
    requires EndpointCore.SentPackets(sc, given, sent, now, VisitedPackets(c, left, now, tq, tp))
    requires |sent.nodes| > 0 && KeptAlive(sc, sent, y, now)
    ensures var after := Visited(c, left, now, tq, tp);
            !Due(Timers(after.sessions, after.tombstones, y.outstanding, windows, sc.keepaliveMs, y.nextKeepaliveAt,
                        sc.bootTimeMs), now)
  {
    SessionsAreDone(c, left, now, tq, tp);
    SenderIsDone(sc, x, given, sent, y, now, VisitedPackets(c, left, now, tq, tp));
    NoneToForget(ws, sc.CurrentTime(now), removed, windows);
    NothingIsDue(Visited(c, left, now, tq, tp), y, windows, sc, now);
  }

  lemma SessionsAreDone(c: SessionTable.Config, tb: Table, now: nat, tq: nat -> Timing, tp: nat -> Timing)
    requires c.Valid() && SessionsOk(c, tb) && AtRest(tb) && NoneToUnbury(tb, now)
    ensures NoneToUnbury(Visited(c, tb, now, tq, tp), now) && NoneToHurry(Visited(c, tb, now, tq, tp), now)
  {
    var convs := Ascending(tb.sessions.Keys);
    VisitsBuryLater(c, tb, now, convs, |convs|, tq, tp);
    forall conv | conv in Visited(c, tb, now, tq, tp).sessions
      ensures !DeadlineHit(Visited(c, tb, now, tq, tp).sessions[conv], now)
    {
      NoneToClose(c, tb, now, tq, tp, conv);
    }
  }

  /** No session's time has come. */
  ghost predicate NoneToHurry(tb: Table, now: nat) {
    forall conv :: conv in tb.sessions ==> !DeadlineHit(tb.sessions[conv], now)
  }

  lemma ExpiryLeavesNone(x: Sender, y: Sender, now: nat)
    requires Expired(x, y, now)
    ensures NoneToGiveUp(y, now)
  {
  }

  lemma SenderIsDone(
      sc: SenderSpec.Config, x: Sender, given: Sender, sent: Sender, y: Sender, now: nat, packets: Sessions.Packets)
    requires ConfigOk(sc.graph) && sc.feedbackIntervalMs > 0 && sc.feedbackTimeoutMs > 0
    requires Expired(x, given, now) && EndpointCore.SentPackets(sc, given, sent, now, packets)
    requires |sent.nodes| > 0 && KeptAlive(sc, sent, y, now)
    ensures NoneToGiveUp(y, now) && (sc.keepaliveMs != 0 ==> now < y.nextKeepaliveAt)
  {
    ExpiryLeavesNone(x, given, now);
    SendsAwaitLater(sc, given, sent, now, KcpCodec.EncodePackets(packets), |packets|);
    KeepAliveAwaitsLater(sc, sent, y, now);
    Exchanges.KeepAliveIsSent(sc, sent, y, now);
  }

  lemma NothingIsDue(tb: Table, y: Sender, windows: SequenceSpec.Windows, sc: SenderSpec.Config, now: nat)
    requires NoneToUnbury(tb, now) && NoneToHurry(tb, now) && NoneToGiveUp(y, now)
    requires sc.keepaliveMs != 0 ==> now < y.nextKeepaliveAt
    requires |windows| > SEQUENCE_SOFT_CAP ==>
      forall id :: id in windows ==> !SequenceSpec.Expired(windows[id], sc.CurrentTime(now))
    ensures !Due(Timers(tb.sessions, tb.tombstones, y.outstanding, windows, sc.keepaliveMs, y.nextKeepaliveAt,
                        sc.bootTimeMs), now)
  {
  }
}
