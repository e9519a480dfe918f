/** When a poll of the endpoint has something to do, apart from KCP's own timers. */
module Deadlines {
  import opened EndpointSpec
  import opened Options
  import opened SequenceFilter
  import opened SequenceSpec
  import opened SenderSpec
  import opened SessionRest
  import opened SessionSafety
  import opened SessionTable

  /** The filter keeps this many windows even when they have expired. */
  const SEQUENCE_SOFT_CAP: nat := 1

  /** Everything of an endpoint that waits for a time. */
  datatype Timers = Timers(
    sessions: map<nat, Session>, tombstones: map<nat, nat>, samples: map<nat, FeedbackSample>,
    windows: Windows, keepaliveMs: nat, nextKeepaliveAt: nat, bootTimeMs: nat)
  {
    function CurrentTime(now: nat): nat { Counter(Tick(bootTimeMs, now)) }
  }

  ghost predicate CloseDue(x: Timers, now: nat) {
    exists conv :: conv in x.sessions && DeadlineHit(x.sessions[conv], now)
  }

  ghost predicate TombstoneDue(x: Timers, now: nat) { exists conv :: conv in x.tombstones && now >= x.tombstones[conv] }

  ghost predicate SamplesDue(x: Timers, now: nat) { exists key :: key in x.samples && now >= x.samples[key].deadline }

  predicate KeepaliveIsDue(x: Timers, now: nat) { x.keepaliveMs != 0 && now >= x.nextKeepaliveAt }

  ghost predicate SequenceDue(x: Timers, now: nat) {
    |x.windows| > SEQUENCE_SOFT_CAP
    && exists id :: id in x.windows && SequenceSpec.Expired(x.windows[id], x.CurrentTime(now))
  }

  /** Something is to be closed, forgotten, given up or said now. */
  ghost predicate Due(x: Timers, now: nat) {
    CloseDue(x, now) || TombstoneDue(x, now) || SamplesDue(x, now) || KeepaliveIsDue(x, now) || SequenceDue(x, now)
  }

  ghost predicate CloseTerm(x: Timers, d: nat) {
    exists conv :: conv in x.sessions && x.sessions[conv].closeDeadlineAt == Some(d)
  }

  ghost predicate TombstoneTerm(x: Timers, d: nat) { exists conv :: conv in x.tombstones && x.tombstones[conv] == d }

  ghost predicate FeedbackTerm(x: Timers, d: nat) { exists key :: key in x.samples && x.samples[key].deadline == d }

  predicate KeepaliveTerm(x: Timers, d: nat) { x.keepaliveMs != 0 && d == x.nextKeepaliveAt }

  ghost predicate SequenceTerm(x: Timers, now: nat, d: nat) {
    exists delay ::
      ExpiryDelay(x.windows, x.CurrentTime(now), SEQUENCE_SOFT_CAP, Some(delay))
      && d == ExpiryDeadline(x.bootTimeMs, now, delay)
  }

  /** A deadline that the endpoint knows of at time `now`. */
  ghost predicate Term(x: Timers, now: nat, d: nat) {
    CloseTerm(x, d) || TombstoneTerm(x, d) || FeedbackTerm(x, d) || KeepaliveTerm(x, d) || SequenceTerm(x, now, d)
  }

  /** No window is older than half a turn of the clock, not even at the later time. */
  ghost predicate Young(x: Timers, now: nat, later: nat) {
    forall id :: id in x.windows ==>
      && x.windows[id].newest < TIME_SPAN
      && Age(x.windows[id], x.CurrentTime(now)) + Tick(x.bootTimeMs, later) - Tick(x.bootTimeMs, now) < TIME_HALF
  }

  lemma SomeDelay(x: Timers, now: nat) returns (delay: nat)
    requires |x.windows| > SEQUENCE_SOFT_CAP
    ensures ExpiryDelay(x.windows, x.CurrentTime(now), SEQUENCE_SOFT_CAP, Some(delay))
  {
    var oldest := OldestWindow(x.windows, x.windows.Keys, x.CurrentTime(now));
    delay := DelayOf(Age(x.windows[oldest], x.CurrentTime(now)));
  }

  lemma {:induction false} OldestWindow(ws: Windows, ids: set<nat>, now: nat) returns (oldest: nat)
    requires ids != {} && ids <= ws.Keys
    ensures oldest in ids && forall id :: id in ids ==> Age(ws[oldest], now) >= Age(ws[id], now)
  {
    oldest :| oldest in ids;
    if ids == {oldest} {
      assert forall id :: id in ids ==> id == oldest;
    } else {
      var other := OldestWindow(ws, ids - {oldest}, now);
      assert forall id :: id in ids ==> id == oldest || id in ids - {oldest};
      if Age(ws[other], now) > Age(ws[oldest], now) { oldest := other; }
    }
  }

  lemma SequenceDueIff(x: Timers, now: nat, later: nat)
    requires now <= later && Young(x, now, later)
    ensures SequenceDue(x, later) <==> exists d :: SequenceTerm(x, now, d) && later >= d
  {
    if |x.windows| > SEQUENCE_SOFT_CAP {
      var delay := SomeDelay(x, now);
      ExpiryDeadlineIsFirst(x.windows, SEQUENCE_SOFT_CAP, x.bootTimeMs, now, Some(delay), later);
      assert SequenceTerm(x, now, ExpiryDeadline(x.bootTimeMs, now, delay));
      if d :| SequenceTerm(x, now, d) && later >= d {
        var other :| ExpiryDelay(x.windows, x.CurrentTime(now), SEQUENCE_SOFT_CAP, Some(other))
          && d == ExpiryDeadline(x.bootTimeMs, now, other);
        ExpiryDeadlineIsFirst(x.windows, SEQUENCE_SOFT_CAP, x.bootTimeMs, now, Some(other), later);
      }
    }
  }

  lemma OthersDueIff(x: Timers, later: nat)
    ensures CloseDue(x, later) <==> exists d :: CloseTerm(x, d) && later >= d
    ensures TombstoneDue(x, later) <==> exists d :: TombstoneTerm(x, d) && later >= d
    ensures SamplesDue(x, later) <==> exists d :: FeedbackTerm(x, d) && later >= d
    ensures KeepaliveIsDue(x, later) <==> exists d :: KeepaliveTerm(x, d) && later >= d
  {
    if CloseDue(x, later) {
      var conv :| conv in x.sessions && DeadlineHit(x.sessions[conv], later);
      assert CloseTerm(x, x.sessions[conv].closeDeadlineAt.value);
    }
    if TombstoneDue(x, later) {
      var conv :| conv in x.tombstones && later >= x.tombstones[conv];
      assert TombstoneTerm(x, x.tombstones[conv]);
    }
    if SamplesDue(x, later) {
      var key :| key in x.samples && later >= x.samples[key].deadline;
      assert FeedbackTerm(x, x.samples[key].deadline);
    }
    if KeepaliveIsDue(x, later) { assert KeepaliveTerm(x, x.nextKeepaliveAt); }
  }

  /**
   Deadline exactness: as long as nothing else happens, something becomes due exactly when the
   first of the deadlines known now has come, to the millisecond.
   */
  lemma DueIffDeadline(x: Timers, now: nat, later: nat)
    requires now <= later && Young(x, now, later)
    ensures Due(x, later) <==> exists d :: Term(x, now, d) && later >= d
  {
    SequenceDueIff(x, now, later);
    OthersDueIff(x, later);
    if d :| Term(x, now, d) && later >= d {
      assert CloseTerm(x, d) || TombstoneTerm(x, d) || FeedbackTerm(x, d)
        || KeepaliveTerm(x, d) || SequenceTerm(x, now, d);
    }
    if SequenceDue(x, later) {
      var d :| SequenceTerm(x, now, d) && later >= d;
      assert Term(x, now, d);
    } else if Due(x, later) {
      TermOfDue(x, now, later);
    }
  }

  /** Nothing is due before a time that no deadline precedes; and at a deadline something is. */
  lemma QuietUntil(x: Timers, now: nat, deadline: nat, later: nat)
    requires now <= later && Young(x, now, later)
    requires forall d: nat :: Term(x, now, d) ==> deadline <= d
    ensures later < deadline ==> !Due(x, later)
    ensures later >= deadline && Term(x, now, deadline) ==> Due(x, later)
  {
    DueIffDeadline(x, now, later);
  }

  lemma TermOfDue(x: Timers, now: nat, later: nat)
    requires CloseDue(x, later) || TombstoneDue(x, later) || SamplesDue(x, later) || KeepaliveIsDue(x, later)
    ensures exists d :: Term(x, now, d) && later >= d
  {
    OthersDueIff(x, later);
    if CloseDue(x, later) {
      var d :| CloseTerm(x, d) && later >= d;
      assert Term(x, now, d);
    } else if TombstoneDue(x, later) {
      var d :| TombstoneTerm(x, d) && later >= d;
      assert Term(x, now, d);
    } else if SamplesDue(x, later) {
      var d :| FeedbackTerm(x, d) && later >= d;
      assert Term(x, now, d);
    } else {
      var d :| KeepaliveTerm(x, d) && later >= d;
      assert Term(x, now, d);
    }
  }

  // ------------------------------------------------------------------ polls with nothing due

  /** The oldest expired senders are forgotten with their sessions, and the tombstones whose time has come. */
  ghost predicate SendersGivenUp(
      ws: Windows, currentTime: nat, tb: Table, now: nat, removed: seq<nat>, windows: Windows, left: Table)
  {
    && OldestExpired(ws, currentTime, SEQUENCE_SOFT_CAP, removed)
    && SequenceFilter.Filter.Left(ws, removed, windows)
    && left == ForgetTombstones(EvictPeers(tb, now, removed, |removed|), now)
  }

  /**
   A poll with nothing due does nothing but run KCP: no sample, sender, tombstone or session is
   given up, and every session stands where it stood.
   */
  lemma QuietPoll(
      c: SessionTable.Config, x: Timers, before: Sender, after: Sender, tb: Table, now: nat, removed: seq<nat>,
      windows: Windows, left: Table, tq: nat -> Timing, tp: nat -> Timing)
    requires c.Valid() && SessionsOk(c, tb) && AtRest(tb) && !Due(x, now)
    requires x.sessions == tb.sessions && x.tombstones == tb.tombstones && x.samples == before.outstanding
    requires SenderSpec.Expired(before, after, now)
    requires SendersGivenUp(x.windows, x.CurrentTime(now), tb, now, removed, windows, left)
    ensures after == before && windows == x.windows && left == tb
    ensures SameStanding(tb, Visited(c, left, now, tq, tp))
  {
    RemovalIffExpired(x.windows, x.CurrentTime(now), SEQUENCE_SOFT_CAP, removed);
    NoneRemoved(x.windows, windows);
    NothingForgotten(tb, now);
    QuietVisited(c, tb, now, tq, tp);
  }

  lemma NoneRemoved(ws: Windows, windows: Windows)
    requires SequenceFilter.Filter.Left(ws, [], windows)
    ensures windows == ws
  {
    assert Ids([]) == {};
  }

  lemma NothingForgotten(tb: Table, now: nat)
    requires forall conv :: conv in tb.tombstones ==> now < tb.tombstones[conv]
    ensures ForgetTombstones(tb, now) == tb
  {
    assert ForgetTombstones(tb, now).tombstones == tb.tombstones;
  }
}
