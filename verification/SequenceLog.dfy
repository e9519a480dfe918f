/**
 The replay filter lets through what it should: over every run, told on the stamps that were
 accepted, which arriving stamp is accepted and which is not.
 */
module SequenceLog {
  import opened Options
  import opened SequenceSpec

  /** One moment of a filter's life: a stamp arrives and is accepted or not, or none arrives. */
  datatype Moment = Moment(tick: nat, stamp: Option<Stamp>, accepted: bool)

  /** The windows before and after a moment; any window may also have been forgotten. */
  ghost predicate Moves(ws: Windows, m: Moment, ws': Windows) {
    match m.stamp
    case None => !m.accepted && Keeps(ws, ws')
    case Some(s) =>
      && m.accepted == Judge(ws, Counter(m.tick), s.time, s.seqId, s.seqNo).Accepted?
      && Keeps(Admitted(ws, Counter(m.tick), s.time, s.seqId, s.seqNo), ws')
  }

  ghost predicate Keeps(ws: Windows, ws': Windows) {
    forall id :: id in ws' ==> id in ws && ws'[id] == ws[id]
  }

  /** The windows before, between and after the moments. */
  ghost predicate Life(ws: seq<Windows>, ms: seq<Moment>) {
    && |ws| == |ms| + 1 && ws[0] == map[]
    && forall n :: 0 <= n < |ms| ==> MovesAt(ws, ms, n)
  }

  ghost predicate MovesAt(ws: seq<Windows>, ms: seq<Moment>, n: nat)
    requires n < |ms| && |ws| == |ms| + 1
  {
    Moves(ws[n], ms[n], ws[n + 1])
  }

  /** This moment accepts this number of this sender. */
  predicate Accepts(m: Moment, id: nat, seqNo: nat) {
    m.accepted && m.stamp.Some? && m.stamp.value.seqId == id && m.stamp.value.seqNo == seqNo
  }

  /** Moment `k` accepted number `seqNo` of this sender, whose window has not been forgotten up to `n`. */
  ghost predicate AcceptedAt(ws: seq<Windows>, ms: seq<Moment>, n: nat, id: nat, seqNo: nat, k: nat)
    requires n < |ws| == |ms| + 1
  {
    && k < n && Accepts(ms[k], id, seqNo)
    && forall m :: k < m <= n ==> id in ws[m]
  }

  /** Since its window was last opened, this number of the sender has been accepted. */
  ghost predicate Taken(ws: seq<Windows>, ms: seq<Moment>, n: nat, id: nat, seqNo: nat)
    requires n < |ws| == |ms| + 1
  {
    exists k: nat :: AcceptedAt(ws, ms, n, id, seqNo, k)
  }

  /** The time stands for a tick at most 645 before now and 59 after. */
  ghost predicate Recent(now: nat, time: nat) {
    exists tick: int :: now - 645 <= tick <= now + 59 && tick % 0x400_0000 == time
  }

  /**
   A stamp that arrives is accepted exactly if it is recent, its number has not been accepted from this
   sender since its window was last opened, and no number larger by 2^20 or more has been.
   */
  ghost predicate RightlyJudged(ws: seq<Windows>, ms: seq<Moment>, n: nat)
    requires n < |ms| && |ws| == |ms| + 1
  {
    match ms[n].stamp
    case None => true
    case Some(s) =>
      ms[n].accepted <==>
        && Recent(ms[n].tick, s.time)
        && forall seqNo: nat :: Taken(ws, ms, n, s.seqId, seqNo) ==> seqNo != s.seqNo && seqNo < s.seqNo + 0x10_0000
  }

  lemma RecentIffFresh(now: nat, time: nat)
    requires time < TIME_SPAN
    ensures Recent(now, time) <==> Fresh(Counter(now), time)
  {
    if tick: int :| now - 645 <= tick <= now + 59 && tick % 0x400_0000 == time {
      TimeDiffExact(now, tick);
    }
    if Fresh(Counter(now), time) {
      var d := (Counter(now) - time) % TIME_SPAN;
      var tick := now - TimeDiff(Counter(now), time);
      var q := (Counter(now) - time) / TIME_SPAN;
      assert Counter(now) - time == TIME_SPAN * q + d;
      assert now == TIME_SPAN * (now / TIME_SPAN) + Counter(now);
      var k := now / TIME_SPAN + q + (if d >= TIME_HALF then 1 else 0);
      assert tick == TIME_SPAN * k + time;
      assert tick % 0x400_0000 == time;
    }
  }

  /** A window knows exactly the numbers taken, and which of them is the largest. */
  ghost predicate Knows(ws: seq<Windows>, ms: seq<Moment>, n: nat, id: nat)
    requires n < |ws| == |ms| + 1
  {
    && (id !in ws[n] ==> forall seqNo: nat :: !Taken(ws, ms, n, id, seqNo))
    && (id in ws[n] ==>
      && (forall seqNo: nat :: seqNo in ws[n][id].accepted <==> Taken(ws, ms, n, id, seqNo))
      && ws[n][id].maxSeqNo in ws[n][id].accepted
      && forall seqNo :: seqNo in ws[n][id].accepted ==> seqNo <= ws[n][id].maxSeqNo)
  }

  /** What is taken after one moment more. */
  lemma TakenNext(ws: seq<Windows>, ms: seq<Moment>, n: nat, next: nat, id: nat, seqNo: nat)
    requires |ws| == |ms| + 1 && n < |ms| && next == n + 1
    ensures Taken(ws, ms, next, id, seqNo)
      <==> id in ws[next] && (Taken(ws, ms, n, id, seqNo) || Accepts(ms[n], id, seqNo))
  {
    if k: nat :| AcceptedAt(ws, ms, next, id, seqNo, k) {
      assert id in ws[next];
      if k < n { assert AcceptedAt(ws, ms, n, id, seqNo, k); }
    }
    if id in ws[next] {
      if k: nat :| AcceptedAt(ws, ms, n, id, seqNo, k) { assert AcceptedAt(ws, ms, next, id, seqNo, k); }
      if Accepts(ms[n], id, seqNo) {
        assert AcceptedAt(ws, ms, next, id, seqNo, n);
      }
    }
  }

  lemma KnowsNext(ws: seq<Windows>, ms: seq<Moment>, n: nat, next: nat, id: nat)
    requires |ws| == |ms| + 1 && n < |ms| && next == n + 1
    requires Knows(ws, ms, n, id) && MovesAt(ws, ms, n)
    ensures Knows(ws, ms, next, id)
  {
    forall seqNo: nat
      ensures Taken(ws, ms, next, id, seqNo)
        <==> id in ws[next] && (Taken(ws, ms, n, id, seqNo) || Accepts(ms[n], id, seqNo))
    {
      TakenNext(ws, ms, n, next, id, seqNo);
    }
  }

  lemma {:induction false} KnowsAlways(ws: seq<Windows>, ms: seq<Moment>, n: nat, id: nat)
    requires Life(ws, ms) && n <= |ms|
    ensures Knows(ws, ms, n, id)
  {
    if n == 0 {
    } else {
      KnowsAlways(ws, ms, n - 1, id);
      assert MovesAt(ws, ms, n - 1);
      KnowsNext(ws, ms, n - 1, n, id);
    }
  }

  /** In every life of a filter every stamp is rightly judged; reordering and loss are no reason to refuse one. */
  lemma StampsAreRightlyJudged(ws: seq<Windows>, ms: seq<Moment>, n: nat)
    requires Life(ws, ms) && n < |ms|
    requires ms[n].stamp.Some? ==> ms[n].stamp.value.time < TIME_SPAN
    ensures RightlyJudged(ws, ms, n)
  {
    if ms[n].stamp.Some? {
      var s := ms[n].stamp.value;
      KnowsAlways(ws, ms, n, s.seqId);
      RecentIffFresh(ms[n].tick, s.time);
      assert MovesAt(ws, ms, n);
    }
  }

  // ------------------------------------------------------------------ runs of the filter

  function WindowsOf(events: seq<Event>): seq<Windows> {
    seq(|events| + 1, n requires 0 <= n <= |events| => Run(events, n).windows)
  }

  /** The moments of a run, told by its log: what was accepted has been added to it. */
  function MomentsOf(events: seq<Event>): seq<Moment> {
    seq(|events|, n requires 0 <= n < |events| => MomentOf(events, n))
  }

  function MomentOf(events: seq<Event>, n: nat): Moment
    requires n < |events|
  {
    Moment(events[n].tick, if events[n].Arrive? then Some(events[n].stamp) else None,
           |Run(events, n + 1).log| > |Run(events, n).log|)
  }

  lemma RunIsLife(events: seq<Event>)
    ensures Life(WindowsOf(events), MomentsOf(events))
  {
    NothingAtFirst(events);
    forall n | 0 <= n < |events| ensures MovesAt(WindowsOf(events), MomentsOf(events), n) {
      RunMovesAt(events, n);
    }
  }

  lemma NothingAtFirst(events: seq<Event>)
    ensures WindowsOf(events)[0] == map[]
  {
  }

  lemma RunMovesAt(events: seq<Event>, n: nat)
    requires n < |events|
    ensures MovesAt(WindowsOf(events), MomentsOf(events), n)
  {
    LookUp(events, n, n + 1);
    RunMoves(events, n, n + 1);
    MovesThere(WindowsOf(events), MomentsOf(events), n, Run(events, n).windows, MomentOf(events, n),
               Run(events, n + 1).windows);
  }

  lemma LookUp(events: seq<Event>, n: nat, next: nat)
    requires n < |events| && next == n + 1
    ensures WindowsOf(events)[n] == Run(events, n).windows && WindowsOf(events)[next] == Run(events, next).windows
    ensures MomentsOf(events)[n] == MomentOf(events, n)
  {
  }

  lemma MovesThere(ws: seq<Windows>, ms: seq<Moment>, n: nat, w: Windows, m: Moment, w': Windows)
    requires n < |ms| && |ws| == |ms| + 1 && ws[n] == w && ms[n] == m && ws[n + 1] == w' && Moves(w, m, w')
    ensures MovesAt(ws, ms, n)
  {
  }

  lemma RunMoves(events: seq<Event>, n: nat, next: nat)
    requires n < |events| && next == n + 1
    ensures Moves(Run(events, n).windows, MomentOf(events, n), Run(events, next).windows)
  {
    StepMoves(Run(events, n), events[n]);
  }

  lemma StepMoves(f: Filter, e: Event)
    ensures Moves(f.windows, Moment(e.tick, if e.Arrive? then Some(e.stamp) else None, |Step(f, e).log| > |f.log|),
                  Step(f, e).windows)
  {
  }

  /** In every run, whatever was forgotten and when. */
  lemma RunJudgesRightly(events: seq<Event>, n: nat)
    requires n < |events| && (events[n].Arrive? ==> events[n].stamp.time < TIME_SPAN)
    ensures RightlyJudged(WindowsOf(events), MomentsOf(events), n)
  {
    RunIsLife(events);
    StampsAreRightlyJudged(WindowsOf(events), MomentsOf(events), n);
  }

  /** Two stamps of one sender, sent within the window and both recent, are both accepted in either order. */
  lemma ReorderingIsHarmless(tick: nat, first: Stamp, second: Stamp)
    requires first.time < TIME_SPAN && second.time < TIME_SPAN && first.seqId == second.seqId
    requires Recent(tick, first.time) && Recent(tick, second.time)
    requires first.seqNo != second.seqNo && first.seqNo < second.seqNo + 0x10_0000
    ensures Run([Arrive(tick, first), Arrive(tick, second)], 2).log == [first, second]
  {
    var events := [Arrive(tick, first), Arrive(tick, second)];
    RecentIffFresh(tick, first.time);
    RecentIffFresh(tick, second.time);
    assert Run(events, 0) == Filter(map[], []);
    assert Run(events, 1) == Step(Run(events, 0), events[0]);
    assert Run(events, 1).log == [first];
    assert Run(events, 2) == Step(Run(events, 1), events[1]);
  }
}
