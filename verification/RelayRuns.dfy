/** Runs of a relay: over a year of packets it admits, and so forwards, no stamp twice. */
module RelayRuns {
  import opened Relay
  import opened Options
  import SequenceFilter
  import opened SequenceLog
  import opened SequenceSpec
  import Wire

  datatype Arrival = Arrival(elapsedMs: nat, packet: Packet)

  function TickOf(c: Config, a: Arrival): nat { SequenceFilter.Tick(c.bootTimeMs, a.elapsedMs) }

  function StampOf(e: Wire.Envelope): Stamp { Stamp(e.time, e.seqId, e.seqNo) }

  /** The relay's windows after the first `n` arrivals. */
  function WindowsAfter(c: Config, arrivals: seq<Arrival>, n: nat): Windows
    requires n <= |arrivals|
  {
    if n == 0 then map[]
    else Relay.Remembered(c, WindowsAfter(c, arrivals, n - 1), arrivals[n - 1].elapsedMs, arrivals[n - 1].packet)
  }

  /** The stamps of the packets it admitted, in order. */
  function AdmittedStamps(c: Config, arrivals: seq<Arrival>, n: nat): seq<Stamp>
    requires n <= |arrivals|
  {
    if n == 0 then []
    else
      var a := arrivals[n - 1];
      AdmittedStamps(c, arrivals, n - 1)
      + if Admits(c, WindowsAfter(c, arrivals, n - 1), a.elapsedMs, a.packet)
        then [StampOf(OpenPacket(a.packet).envelope)] else []
  }

  /** What one arrival means to the filter: the stamp arrives, and expired windows are forgotten. */
  function EventsOfOne(c: Config, ws: Windows, a: Arrival): seq<Event> {
    match OpenPacket(a.packet)
    case Err(_) => []
    case Ok(e) =>
      var s, now := StampOf(e), Counter(TickOf(c, a));
      var after := Admitted(ws, now, s.time, s.seqId, s.seqNo);
      [Arrive(TickOf(c, a), s),
       Forget(TickOf(c, a), if Judge(ws, now, s.time, s.seqId, s.seqNo).Accepted? then ExpiredIds(after, now) else {})]
  }

  function EventsOf(c: Config, arrivals: seq<Arrival>, n: nat): seq<Event>
    requires n <= |arrivals|
  {
    if n == 0 then []
    else EventsOf(c, arrivals, n - 1) + EventsOfOne(c, WindowsAfter(c, arrivals, n - 1), arrivals[n - 1])
  }

  lemma {:induction false} RunOfPrefix(es: seq<Event>, more: seq<Event>, n: nat)
    requires n <= |es|
    ensures Run(es + more, n) == Run(es, n)
  {
    if n == 0 {
    } else {
      RunOfPrefix(es, more, n - 1);
    }
  }

  lemma RunTwoMore(es: seq<Event>, a: Event, b: Event)
    ensures Run(es + [a, b], |es| + 1) == Step(Run(es, |es|), a)
    ensures Run(es + [a, b], |es| + 2) == Step(Step(Run(es, |es|), a), b)
  {
    RunOfPrefix(es, [a, b], |es|);
  }

  /** The filter's run over these events is the relay's run. */
  lemma {:induction false} EventsFollow(c: Config, arrivals: seq<Arrival>, n: nat)
    requires n <= |arrivals|
    ensures var es := EventsOf(c, arrivals, n);
            Run(es, |es|) == Filter(WindowsAfter(c, arrivals, n), AdmittedStamps(c, arrivals, n))
  {
    if n == 0 {
    } else {
      EventsFollow(c, arrivals, n - 1);
      var es := EventsOf(c, arrivals, n - 1);
      var ws, a := WindowsAfter(c, arrivals, n - 1), arrivals[n - 1];
      var more := EventsOfOne(c, ws, a);
      if more == [] {
        assert es + more == es;
      } else {
        RunTwoMore(es, more[0], more[1]);
        OneFollows(c, ws, AdmittedStamps(c, arrivals, n - 1), a);
      }
    }
  }

  lemma OneFollows(c: Config, ws: Windows, log: seq<Stamp>, a: Arrival)
    requires OpenPacket(a.packet).Ok?
    ensures var more := EventsOfOne(c, ws, a);
            Step(Step(Filter(ws, log), more[0]), more[1])
            == Filter(Relay.Remembered(c, ws, a.elapsedMs, a.packet),
                      log + if Admits(c, ws, a.elapsedMs, a.packet)
                            then [StampOf(OpenPacket(a.packet).envelope)] else [])
  {
    var e := OpenPacket(a.packet).envelope;
    if !Admits(c, ws, a.elapsedMs, a.packet) {
      assert ws - {} == ws;
      assert log + [] == log;
    }
  }

  /** The relay's clock never steps back, and its run is no longer than the filter is good for. */
  ghost predicate Clocked(c: Config, arrivals: seq<Arrival>) {
    forall i, j :: 0 <= i < j < |arrivals| ==> Close(TickOf(c, arrivals[i]), TickOf(c, arrivals[j]))
  }

  predicate Close(tick: nat, later: nat) {
    tick <= later && later - tick <= SAFE_SPAN
  }

  /** Every event happens at the time of an arrival among the first `n`. */
  ghost predicate AtArrivals(c: Config, arrivals: seq<Arrival>, n: nat, es: seq<Event>)
    requires n <= |arrivals|
  {
    forall k :: 0 <= k < |es| ==> AtArrival(c, arrivals, n, es[k])
  }

  ghost predicate AtArrival(c: Config, arrivals: seq<Arrival>, n: nat, e: Event)
    requires n <= |arrivals|
  {
    exists i :: 0 <= i < n && e.tick == TickOf(c, arrivals[i])
  }

  lemma {:induction false} EventsAreTimed(c: Config, arrivals: seq<Arrival>, n: nat)
    requires n <= |arrivals| && Clocked(c, arrivals)
    ensures Timed(EventsOf(c, arrivals, n)) && AtArrivals(c, arrivals, n, EventsOf(c, arrivals, n))
  {
    if n == 0 {
    } else {
      EventsAreTimed(c, arrivals, n - 1);
      NewEventsTimed(c, arrivals, n, EventsOf(c, arrivals, n - 1),
                     EventsOfOne(c, WindowsAfter(c, arrivals, n - 1), arrivals[n - 1]));
    }
  }

  lemma NewEventsTimed(c: Config, arrivals: seq<Arrival>, n: nat, es: seq<Event>, more: seq<Event>)
    requires 0 < n <= |arrivals| && Clocked(c, arrivals) && Timed(es) && AtArrivals(c, arrivals, n - 1, es)
    requires forall k :: 0 <= k < |more| ==> more[k].tick == TickOf(c, arrivals[n - 1])
    ensures Timed(es + more) && AtArrivals(c, arrivals, n, es + more)
  {
    var tick := TickOf(c, arrivals[n - 1]);
    forall k | 0 <= k < |es| ensures Close(es[k].tick, tick) && AtArrival(c, arrivals, n, es[k]) {
      assert AtArrival(c, arrivals, n - 1, es[k]);
    }
    forall k | 0 <= k < |more| ensures AtArrival(c, arrivals, n, more[k]) {
    }
    MoreTimed(es, more, tick);
  }

  lemma MoreTimed(es: seq<Event>, more: seq<Event>, tick: nat)
    requires Timed(es) && forall k :: 0 <= k < |es| ==> Close(es[k].tick, tick)
    requires forall k :: 0 <= k < |more| ==> more[k].tick == tick
    ensures Timed(es + more)
  {
  }

  /** Only expired windows are forgotten. */
  ghost predicate LawfulAt(es: seq<Event>, k: nat)
    requires k < |es|
  {
    && (es[k].Forget? ==> AllExpired(Run(es, k).windows, Counter(es[k].tick), es[k].removed))
    && (es[k].Arrive? ==> es[k].stamp.time < TIME_SPAN)
  }

  lemma {:induction false} EventsAreLawful(c: Config, arrivals: seq<Arrival>, n: nat)
    requires n <= |arrivals|
    ensures forall k :: 0 <= k < |EventsOf(c, arrivals, n)| ==> LawfulAt(EventsOf(c, arrivals, n), k)
  {
    if n == 0 {
    } else {
      EventsAreLawful(c, arrivals, n - 1);
      var es, ws := EventsOf(c, arrivals, n - 1), WindowsAfter(c, arrivals, n - 1);
      var more := EventsOfOne(c, ws, arrivals[n - 1]);
      forall k | 0 <= k < |es + more| ensures LawfulAt(es + more, k) {
        if k < |es| {
          assert LawfulAt(es, k);
          RunOfPrefix(es, more, k);
        } else {
          EventsFollow(c, arrivals, n - 1);
          NewEventsLawful(c, arrivals[n - 1], ws, AdmittedStamps(c, arrivals, n - 1), es, k);
        }
      }
    }
  }

  lemma NewEventsLawful(c: Config, a: Arrival, ws: Windows, log: seq<Stamp>, es: seq<Event>, k: nat)
    requires Run(es, |es|) == Filter(ws, log)
    requires |es| <= k < |es + EventsOfOne(c, ws, a)|
    ensures LawfulAt(es + EventsOfOne(c, ws, a), k)
  {
    var more := EventsOfOne(c, ws, a);
    RunTwoMore(es, more[0], more[1]);
    assert more == [more[0], more[1]];
    OneIsLawful(c, ws, log, a);
  }

  lemma OneIsLawful(c: Config, ws: Windows, log: seq<Stamp>, a: Arrival)
    requires OpenPacket(a.packet).Ok?
    ensures var more := EventsOfOne(c, ws, a);
            && more[0].Arrive? && more[0].stamp.time < TIME_SPAN && more[1].Forget?
            && AllExpired(Step(Filter(ws, log), more[0]).windows, Counter(more[1].tick), more[1].removed)
  {
    Wire.EnvelopeIsCanonical(a.packet.content);
  }

  /**
   A relay admits no stamp twice in a run, so it forwards no packet twice, although it forgets
   senders and its clock wraps.
   */
  lemma NoStampForwardedTwice(c: Config, arrivals: seq<Arrival>)
    requires Clocked(c, arrivals)
    ensures NoneTwice(AdmittedStamps(c, arrivals, |arrivals|))
  {
    var es := EventsOf(c, arrivals, |arrivals|);
    EventsFollow(c, arrivals, |arrivals|);
    EventsAreTimed(c, arrivals, |arrivals|);
    EventsAreLawful(c, arrivals, |arrivals|);
    LawfulTogether(es);
    NoStampTwice(es);
  }

  // ------------------------------------------------------------------ what it lets through

  function AllWindows(c: Config, arrivals: seq<Arrival>): seq<Windows> {
    seq(|arrivals| + 1, n requires 0 <= n <= |arrivals| => WindowsAfter(c, arrivals, n))
  }

  /** What an arrival means to the filter, and whether its stamp was admitted. */
  function MomentAt(c: Config, arrivals: seq<Arrival>, n: nat): Moment
    requires n < |arrivals|
  {
    var opening := OpenPacket(arrivals[n].packet);
    Moment(TickOf(c, arrivals[n]), if opening.Ok? then Some(StampOf(opening.envelope)) else None,
           |AdmittedStamps(c, arrivals, n + 1)| > |AdmittedStamps(c, arrivals, n)|)
  }

  function AllMoments(c: Config, arrivals: seq<Arrival>): seq<Moment> {
    seq(|arrivals|, n requires 0 <= n < |arrivals| => MomentAt(c, arrivals, n))
  }

  lemma ArrivalMoves(c: Config, arrivals: seq<Arrival>, n: nat, next: nat)
    requires n < |arrivals| && next == n + 1
    ensures Moves(WindowsAfter(c, arrivals, n), MomentAt(c, arrivals, n), WindowsAfter(c, arrivals, next))
  {
  }

  lemma ArrivalsLookUp(c: Config, arrivals: seq<Arrival>, n: nat, next: nat)
    requires n < |arrivals| && next == n + 1
    ensures AllWindows(c, arrivals)[n] == WindowsAfter(c, arrivals, n)
    ensures AllWindows(c, arrivals)[next] == WindowsAfter(c, arrivals, next)
    ensures AllMoments(c, arrivals)[n] == MomentAt(c, arrivals, n)
  {
  }

  lemma RelayIsLife(c: Config, arrivals: seq<Arrival>)
    ensures Life(AllWindows(c, arrivals), AllMoments(c, arrivals))
  {
    forall n | 0 <= n < |arrivals| ensures MovesAt(AllWindows(c, arrivals), AllMoments(c, arrivals), n) {
      ArrivalsLookUp(c, arrivals, n, n + 1);
      ArrivalMoves(c, arrivals, n, n + 1);
      MovesThere(AllWindows(c, arrivals), AllMoments(c, arrivals), n, WindowsAfter(c, arrivals, n),
                 MomentAt(c, arrivals, n), WindowsAfter(c, arrivals, n + 1));
    }
  }

  /**
   Of all packets that reach a relay intact it admits exactly those whose stamp is recent, was not
   admitted since the relay last opened a window for the sender, and lies within 2^20 of all that were.
   */
  lemma RelayJudgesRightly(c: Config, arrivals: seq<Arrival>, n: nat)
    requires n < |arrivals|
    ensures RightlyJudged(AllWindows(c, arrivals), AllMoments(c, arrivals), n)
  {
    RelayIsLife(c, arrivals);
    if OpenPacket(arrivals[n].packet).Ok? { Wire.EnvelopeIsCanonical(arrivals[n].packet.content); }
    StampsAreRightlyJudged(AllWindows(c, arrivals), AllMoments(c, arrivals), n);
  }

  lemma LawfulTogether(es: seq<Event>)
    requires forall k :: 0 <= k < |es| ==> LawfulAt(es, k)
    ensures Lawful(es)
  {
    forall n | 0 <= n < |es| && es[n].Forget?
      ensures AllExpired(Run(es, n).windows, Counter(es[n].tick), es[n].removed)
    {
      assert LawfulAt(es, n);
    }
    forall n | 0 <= n < |es| && es[n].Arrive? ensures es[n].stamp.time < TIME_SPAN {
      assert LawfulAt(es, n);
    }
  }
}
