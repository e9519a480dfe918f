/**
 An endpoint's replay filter over time: what every arrival and every poll makes of it.  Over the
 life of an instance no stamp is dispatched twice, and no window gets so old that its age wraps.
 */
module EndpointRuns {
  import opened Deadlines
  import opened Options
  import Relay
  import opened SequenceFilter
  import opened SequenceLog
  import opened SequenceSpec
  import opened Wire

  /** The message in a packet that has arrived and whose two seals are intact. */
  function MessageIn(packet: Relay.Packet, intact: bool): Option<EndpointMessage> {
    match Relay.OpenPacket(packet)
    case Err(_) => None
    case Ok(e) => if e.routePlan == [] && |e.payload| >= 16 && intact then DecodeMessage(e.payload[16..]) else None
  }

  function PacketStamp(packet: Relay.Packet): Stamp
    requires Relay.OpenPacket(packet).Ok?
  {
    var e := Relay.OpenPacket(packet).envelope;
    Stamp(e.time, e.seqId, e.seqNo)
  }

  /** A new stamp of an intact packet: only then does the packet count. */
  predicate Counts(packet: Relay.Packet, intact: bool, ws: Windows, currentTime: nat) {
    && MessageIn(packet, intact).Some?
    && var s := PacketStamp(packet);
       Judge(ws, currentTime, s.time, s.seqId, s.seqNo).Accepted?
  }

  /** The filter's windows once a packet has arrived: a packet without a message leaves no trace. */
  function Heard(ws: Windows, currentTime: nat, packet: Relay.Packet, intact: bool): Windows {
    if MessageIn(packet, intact).None? then ws
    else
      var s := PacketStamp(packet);
      Admitted(ws, currentTime, s.time, s.seqId, s.seqNo)
  }

  /** A packet arrives, or a poll forgets some senders. */
  datatype Happening =
    | Packet(elapsedMs: nat, packet: Relay.Packet, intact: bool)
    | Poll(elapsedMs: nat, removed: seq<nat>)

  function TickOf(bootTimeMs: nat, h: Happening): nat { Tick(bootTimeMs, h.elapsedMs) }

  function WindowsNext(bootTimeMs: nat, ws: Windows, h: Happening): Windows {
    match h
    case Packet(_, packet, intact) => Heard(ws, Counter(TickOf(bootTimeMs, h)), packet, intact)
    case Poll(_, removed) => ws - Ids(removed)
  }

  /** The filter's windows after these happenings. */
  function WindowsAfter(bootTimeMs: nat, hs: seq<Happening>): Windows {
    if hs == [] then map[]
    else WindowsNext(bootTimeMs, WindowsAfter(bootTimeMs, hs[..|hs| - 1]), hs[|hs| - 1])
  }

  /** The stamps of the messages that were dispatched, in order. */
  function DispatchedStamps(bootTimeMs: nat, hs: seq<Happening>): seq<Stamp> {
    if hs == [] then []
    else
      var h := hs[|hs| - 1];
      DispatchedStamps(bootTimeMs, hs[..|hs| - 1])
      + if h.Packet? && Counts(h.packet, h.intact, WindowsAfter(bootTimeMs, hs[..|hs| - 1]),
                                    Counter(TickOf(bootTimeMs, h)))
        then [PacketStamp(h.packet)] else []
  }

  /** Every poll gave up senders as the filter does: the oldest of those that have expired. */
  ghost predicate PollsLawful(bootTimeMs: nat, hs: seq<Happening>) {
    forall i :: 0 <= i < |hs| ==> PollLawful(bootTimeMs, hs, i)
  }

  ghost predicate PollLawful(bootTimeMs: nat, hs: seq<Happening>, i: nat)
    requires i < |hs|
  {
    hs[i].Poll? ==>
      OldestExpired(WindowsAfter(bootTimeMs, hs[..i]), Counter(TickOf(bootTimeMs, hs[i])),
                    SEQUENCE_SOFT_CAP, hs[i].removed)
  }

  lemma OneMoreHappening(bootTimeMs: nat, hs: seq<Happening>, h: Happening)
    requires PollsLawful(bootTimeMs, hs)
    requires h.Poll? ==>
      OldestExpired(WindowsAfter(bootTimeMs, hs), Counter(TickOf(bootTimeMs, h)), SEQUENCE_SOFT_CAP, h.removed)
    ensures PollsLawful(bootTimeMs, hs + [h])
    ensures WindowsAfter(bootTimeMs, hs + [h]) == WindowsNext(bootTimeMs, WindowsAfter(bootTimeMs, hs), h)
  {
    assert (hs + [h])[..|hs|] == hs;
    forall i | 0 <= i < |hs| + 1 ensures PollLawful(bootTimeMs, hs + [h], i) {
      if i < |hs| {
        assert PollLawful(bootTimeMs, hs, i);
        assert (hs + [h])[..i] == hs[..i];
      }
    }
  }

  // ------------------------------------------------------------------ as runs of the filter

  /** What a happening means to the filter. */
  function EventOf(bootTimeMs: nat, h: Happening): Event {
    match h
    case Packet(_, packet, intact) =>
      if MessageIn(packet, intact).Some? then Arrive(TickOf(bootTimeMs, h), PacketStamp(packet))
      else Forget(TickOf(bootTimeMs, h), {})
    case Poll(_, removed) => Forget(TickOf(bootTimeMs, h), Ids(removed))
  }

  function EventsOf(bootTimeMs: nat, hs: seq<Happening>): seq<Event> {
    seq(|hs|, i requires 0 <= i < |hs| => EventOf(bootTimeMs, hs[i]))
  }

  lemma {:induction false} RunFollows(bootTimeMs: nat, hs: seq<Happening>, n: nat)
    requires n <= |hs|
    ensures Run(EventsOf(bootTimeMs, hs), n)
      == Filter(WindowsAfter(bootTimeMs, hs[..n]), DispatchedStamps(bootTimeMs, hs[..n]))
  {
    if n == 0 {
      assert hs[..n] == [];
    } else {
      RunFollows(bootTimeMs, hs, n - 1);
      assert hs[..n][..n - 1] == hs[..n - 1];
      StepFollows(bootTimeMs, WindowsAfter(bootTimeMs, hs[..n - 1]), DispatchedStamps(bootTimeMs, hs[..n - 1]),
                  hs[n - 1]);
    }
  }

  lemma StepFollows(bootTimeMs: nat, ws: Windows, log: seq<Stamp>, h: Happening)
    ensures Step(Filter(ws, log), EventOf(bootTimeMs, h))
      == Filter(WindowsNext(bootTimeMs, ws, h),
                log + if h.Packet? && Counts(h.packet, h.intact, ws, Counter(TickOf(bootTimeMs, h)))
                      then [PacketStamp(h.packet)] else [])
  {
    assert log + [] == log;
    assert ws - {} == ws;
  }

  /** The clock never steps back, and has not run longer than the filter is good for. */
  ghost predicate InTime(bootTimeMs: nat, hs: seq<Happening>) { Timed(EventsOf(bootTimeMs, hs)) }

  lemma RunIsLawful(bootTimeMs: nat, hs: seq<Happening>)
    requires PollsLawful(bootTimeMs, hs)
    ensures Lawful(EventsOf(bootTimeMs, hs))
  {
    var es := EventsOf(bootTimeMs, hs);
    forall n | 0 <= n < |es| && es[n].Forget?
      ensures AllExpired(Run(es, n).windows, Counter(es[n].tick), es[n].removed)
    {
      assert PollLawful(bootTimeMs, hs, n);
      RunFollows(bootTimeMs, hs, n);
    }
    forall n | 0 <= n < |es| && es[n].Arrive? ensures es[n].stamp.time < SequenceSpec.TIME_SPAN {
      EnvelopeIsCanonical(hs[n].packet.content);
    }
  }

  /**
   No message is dispatched twice over the arrivals and polls of an instance, although senders are
   forgotten and the clock wraps.
   */
  lemma NoStampDispatchedTwice(bootTimeMs: nat, hs: seq<Happening>)
    requires PollsLawful(bootTimeMs, hs) && InTime(bootTimeMs, hs)
    ensures NoneTwice(DispatchedStamps(bootTimeMs, hs))
  {
    RunIsLawful(bootTimeMs, hs);
    NoStampTwice(EventsOf(bootTimeMs, hs));
    RunFollows(bootTimeMs, hs, |hs|);
    assert hs[..|hs|] == hs;
  }

  // ------------------------------------------------------------------ what is let through

  function AllWindows(bootTimeMs: nat, hs: seq<Happening>): seq<Windows> {
    seq(|hs| + 1, n requires 0 <= n <= |hs| => WindowsAfter(bootTimeMs, hs[..n]))
  }

  /** What a happening means to the filter, and whether it was dispatched. */
  function MomentAt(bootTimeMs: nat, hs: seq<Happening>, n: nat): Moment
    requires n < |hs|
  {
    var arrives := hs[n].Packet? && MessageIn(hs[n].packet, hs[n].intact).Some?;
    Moment(TickOf(bootTimeMs, hs[n]), if arrives then Some(PacketStamp(hs[n].packet)) else None,
           |DispatchedStamps(bootTimeMs, hs[..n + 1])| > |DispatchedStamps(bootTimeMs, hs[..n])|)
  }

  function AllMoments(bootTimeMs: nat, hs: seq<Happening>): seq<Moment> {
    seq(|hs|, n requires 0 <= n < |hs| => MomentAt(bootTimeMs, hs, n))
  }

  /**
   Of all messages that reach an endpoint behind intact seals it dispatches exactly those whose stamp is
   recent, was not dispatched since a window was last opened for the sender, and lies within 2^20 of all
   that were.
   */
  lemma EndpointJudgesRightly(bootTimeMs: nat, hs: seq<Happening>, n: nat)
    requires n < |hs|
    ensures RightlyJudged(AllWindows(bootTimeMs, hs), AllMoments(bootTimeMs, hs), n)
  {
    var es := EventsOf(bootTimeMs, hs);
    HappeningsLookUp(bootTimeMs, hs);
    if es[n].Arrive? { EnvelopeIsCanonical(hs[n].packet.content); }
    RunJudgesRightly(es, n);
  }

  lemma HappeningsLookUp(bootTimeMs: nat, hs: seq<Happening>)
    ensures AllWindows(bootTimeMs, hs) == WindowsOf(EventsOf(bootTimeMs, hs))
    ensures AllMoments(bootTimeMs, hs) == MomentsOf(EventsOf(bootTimeMs, hs))
  {
    var es := EventsOf(bootTimeMs, hs);
    forall n | 0 <= n <= |hs| ensures AllWindows(bootTimeMs, hs)[n] == WindowsOf(es)[n] {
      RunFollows(bootTimeMs, hs, n);
    }
    forall n | 0 <= n < |hs| ensures AllMoments(bootTimeMs, hs)[n] == MomentsOf(es)[n] {
      RunFollows(bootTimeMs, hs, n);
      RunFollows(bootTimeMs, hs, n + 1);
    }
  }

  // ------------------------------------------------------------------ ages

  /** Up to `later` the instance is no older than the filter is good for. */
  ghost predicate InLife(bootTimeMs: nat, hs: seq<Happening>, now: nat, later: nat) {
    && now <= later && InTime(bootTimeMs, hs)
    && (hs != [] ==>
      TickOf(bootTimeMs, hs[|hs| - 1]) <= Tick(bootTimeMs, now)
      && Tick(bootTimeMs, later) - TickOf(bootTimeMs, hs[0]) <= SAFE_SPAN)
  }

  /** So no window's age reaches half a turn of the clock. */
  lemma WindowsStayYoung(x: Timers, hs: seq<Happening>, now: nat, later: nat)
    requires PollsLawful(x.bootTimeMs, hs) && InLife(x.bootTimeMs, hs, now, later)
    requires x.windows == WindowsAfter(x.bootTimeMs, hs)
    ensures Young(x, now, later)
  {
    if hs != [] {
      var es := EventsOf(x.bootTimeMs, hs);
      RunIsLawful(x.bootTimeMs, hs);
      RunIsSafe(es, |es|);
      RunFollows(x.bootTimeMs, hs, |hs|);
      assert hs[..|hs|] == hs;
      forall id | id in x.windows
        ensures x.windows[id].newest < SequenceSpec.TIME_SPAN
        ensures Age(x.windows[id], x.CurrentTime(now)) + Tick(x.bootTimeMs, later) - Tick(x.bootTimeMs, now) < TIME_HALF
      {
        var base, last := es[0].tick, es[|es| - 1].tick;
        assert Plausible(base, last, x.windows[id].newest);
        PlausibleAge(base, last, Tick(x.bootTimeMs, now), x.windows[id].newest);
      }
    }
  }

  /** The age of a plausible time is its true age. */
  lemma PlausibleAge(base: nat, last: nat, now: nat, newest: nat)
    requires Plausible(base, last, newest) && base <= last <= now && now - base <= SAFE_SPAN
    ensures TimeDiff(Counter(now), newest) <= now - base + MAX_PAST_TICKS
  {
    AbsoluteIsTick(base, newest);
    TimeDiffExact(now, Absolute(base, newest));
  }
}
