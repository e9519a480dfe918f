/**
 What the replay filter promises: for every sending instance the set of numbers it has
 accepted, the largest of them and the newest time seen.  Times are 26-bit tick counters
 compared modulo 2^26.
 */
module SequenceSpec {

  const TIME_SPAN: int := 0x400_0000
  const TIME_HALF: int := 0x200_0000
  const MAX_PAST_TICKS: int := 645
  const MAX_FUTURE_TICKS: int := 59
  const WINDOW_BITS: nat := 0x10_0000

  /** Signed difference of two tick counters. */
  function TimeDiff(later: int, earlier: int): int {
    var d := (later - earlier) % TIME_SPAN;
    if d >= TIME_HALF then d - TIME_SPAN else d
  }

  function Counter(tick: int): nat { tick % TIME_SPAN }

  datatype Window = Window(maxSeqNo: nat, newest: nat, accepted: set<nat>)

  type Windows = map<nat, Window>

  datatype Verdict = Accepted | Freshness | Replay

  predicate Fresh(now: nat, time: nat) {
    -MAX_FUTURE_TICKS <= TimeDiff(now, time) <= MAX_PAST_TICKS
  }

  /** A number is new when the window never accepted it and has not moved past it. */
  predicate New(w: Window, seqNo: nat) {
    seqNo !in w.accepted && seqNo + WINDOW_BITS > w.maxSeqNo
  }

  function Inserted(w: Window, seqNo: nat, time: nat): Window {
    Window(
      if seqNo > w.maxSeqNo then seqNo else w.maxSeqNo,
      if TimeDiff(time, w.newest) > 0 then time else w.newest,
      w.accepted + {seqNo})
  }

  function Judge(ws: Windows, now: nat, time: nat, seqId: nat, seqNo: nat): Verdict {
    if !Fresh(now, time) then Freshness
    else if seqId in ws && !New(ws[seqId], seqNo) then Replay
    else Accepted
  }

  function Admitted(ws: Windows, now: nat, time: nat, seqId: nat, seqNo: nat): Windows {
    if !Judge(ws, now, time, seqId, seqNo).Accepted? then ws
    else if seqId in ws then ws[seqId := Inserted(ws[seqId], seqNo, time)]
    else ws[seqId := Window(seqNo, time, {seqNo})]
  }

  /** A window may be forgotten once its newest packet is no longer fresh. */
  predicate Expired(w: Window, now: nat) { TimeDiff(now, w.newest) > MAX_PAST_TICKS }

  predicate AllExpired(ws: Windows, now: nat, removed: set<nat>) {
    forall id :: id in removed && id in ws ==> Expired(ws[id], now)
  }

  // -------------------------------------------------------------- absolute time

  lemma TimeDiffExact(later: int, earlier: int)
    requires -TIME_HALF <= later - earlier < TIME_HALF
    ensures TimeDiff(Counter(later), Counter(earlier)) == later - earlier
  {
    var d := (Counter(later) - Counter(earlier)) % TIME_SPAN;
    var q := (Counter(later) - Counter(earlier)) / TIME_SPAN;
    assert later == TIME_SPAN * (later / TIME_SPAN) + Counter(later);
    assert earlier == TIME_SPAN * (earlier / TIME_SPAN) + Counter(earlier);
    assert later - earlier == TIME_SPAN * (later / TIME_SPAN - earlier / TIME_SPAN + q) + d;
  }

  /** The tick nearest to `base` that the counter `time` can stand for. */
  function Absolute(base: int, time: nat): int { base + TimeDiff(time, Counter(base)) }

  lemma AbsoluteIsTick(base: int, time: nat)
    requires time < TIME_SPAN
    ensures Counter(Absolute(base, time)) == time
    ensures -TIME_HALF <= Absolute(base, time) - base < TIME_HALF
  {
    var d := (time - Counter(base)) % TIME_SPAN;
    var q := (time - Counter(base)) / TIME_SPAN;
    assert time - Counter(base) == TIME_SPAN * q + d;
    assert base == TIME_SPAN * (base / TIME_SPAN) + Counter(base);
    var k := base / TIME_SPAN - q + (if d >= TIME_HALF then -1 else 0);
    assert Absolute(base, time) == TIME_SPAN * k + time;
  }

  // -------------------------------------------------------------- runs

  datatype Stamp = Stamp(time: nat, seqId: nat, seqNo: nat)

  /** A packet arrives, or the filter forgets some windows; `tick` is the filter's clock. */
  datatype Event =
    | Arrive(tick: nat, stamp: Stamp)
    | Forget(tick: nat, removed: set<nat>)

  datatype Filter = Filter(windows: Windows, log: seq<Stamp>)

  function Step(f: Filter, e: Event): Filter {
    match e
    case Arrive(tick, s) =>
      var now := Counter(tick);
      if Judge(f.windows, now, s.time, s.seqId, s.seqNo).Accepted?
      then Filter(Admitted(f.windows, now, s.time, s.seqId, s.seqNo), f.log + [s])
      else f
    case Forget(tick, removed) => f.(windows := f.windows - removed)
  }

  function Run(events: seq<Event>, n: nat): Filter
    requires n <= |events|
  {
    if n == 0 then Filter(map[], []) else Step(Run(events, n - 1), events[n - 1])
  }

  /** The longest run, in ticks, for which the filter's promise holds. */
  const SAFE_SPAN: int := TIME_HALF - (MAX_PAST_TICKS + MAX_FUTURE_TICKS + 1)

  /** The clock never steps back, and goes on by at most `span`. */
  predicate TimedWithin(events: seq<Event>, span: int) {
    && (forall i, j :: 0 <= i < j < |events| ==> events[i].tick <= events[j].tick)
    && (forall i, j :: 0 <= i < j < |events| ==> events[j].tick - events[i].tick <= span)
  }

  predicate Timed(events: seq<Event>) { TimedWithin(events, SAFE_SPAN) }

  /** Only expired windows are forgotten, and packet times are 26 bits wide. */
  ghost predicate Lawful(events: seq<Event>) {
    && (forall n :: 0 <= n < |events| ==> events[n].Forget? ==>
      AllExpired(Run(events, n).windows, Counter(events[n].tick), events[n].removed))
    && (forall n :: 0 <= n < |events| ==> events[n].Arrive? ==> events[n].stamp.time < TIME_SPAN)
  }

  ghost predicate Plausible(base: int, now: int, time: nat) {
    time < TIME_SPAN && base - MAX_PAST_TICKS <= Absolute(base, time) <= now + MAX_FUTURE_TICKS
  }

  /** A window still remembers this stamp, and is kept alive at least as long as it is fresh. */
  ghost predicate Remembered(ws: Windows, base: int, s: Stamp) {
    && s.seqId in ws
    && s.seqNo in ws[s.seqId].accepted
    && Absolute(base, ws[s.seqId].newest) >= Absolute(base, s.time)
  }

  /** Every accepted stamp is remembered, or too old ever to be fresh again. */
  ghost predicate Safe(f: Filter, base: int, now: int) {
    && (forall s :: s in f.log ==> Plausible(base, now, s.time))
    && (forall id :: id in f.windows ==> Plausible(base, now, f.windows[id].newest))
    && (forall s :: s in f.log ==>
      Remembered(f.windows, base, s) || now - Absolute(base, s.time) > MAX_PAST_TICKS)
    && (forall i, j :: 0 <= i < j < |f.log| ==> f.log[i] != f.log[j])
  }

  ghost predicate InSpan(base: int, now: int) {
    base <= now && now - base <= SAFE_SPAN
  }

  /** Inside the span, modular differences of plausible times are the true ones. */
  lemma PlausibleDiff(base: int, now: int, time: nat, other: nat)
    requires InSpan(base, now) && Plausible(base, now, time) && Plausible(base, now, other)
    ensures TimeDiff(time, other) == Absolute(base, time) - Absolute(base, other)
    ensures TimeDiff(Counter(now), time) == now - Absolute(base, time)
  {
    AbsoluteIsTick(base, time);
    AbsoluteIsTick(base, other);
    TimeDiffExact(Absolute(base, time), Absolute(base, other));
    TimeDiffExact(now, Absolute(base, time));
  }

  /** A fresh packet is plausible, and its age is its true age. */
  lemma FreshIsPlausible(base: int, now: nat, time: nat)
    requires 0 <= base && InSpan(base, now) && time < TIME_SPAN && Fresh(Counter(now), time)
    ensures Plausible(base, now, time)
    ensures now - Absolute(base, time) <= MAX_PAST_TICKS
  {
    var age := TimeDiff(Counter(now), time);
    var tick := now - age;
    var q := (Counter(now) - time) / TIME_SPAN;
    assert Counter(now) - time == TIME_SPAN * q + (Counter(now) - time) % TIME_SPAN;
    assert now == TIME_SPAN * (now / TIME_SPAN) + Counter(now);
    var k := now / TIME_SPAN + q + (if (Counter(now) - time) % TIME_SPAN >= TIME_HALF then 1 else 0);
    assert tick == TIME_SPAN * k + time;
    assert Counter(tick) == time;
    TimeDiffExact(tick, base);
  }

  lemma ArriveKeepsSafe(f: Filter, base: nat, now: nat, s: Stamp)
    requires InSpan(base, now) && Safe(f, base, now) && s.time < TIME_SPAN
    requires Judge(f.windows, Counter(now), s.time, s.seqId, s.seqNo).Accepted?
    ensures s !in f.log
    ensures Safe(Step(f, Arrive(now, s)), base, now)
  {
    FreshIsPlausible(base, now, s.time);
    var g := Step(f, Arrive(now, s));
    if s.seqId in f.windows {
      PlausibleDiff(base, now, s.time, f.windows[s.seqId].newest);
    }
    forall t | t in g.log
      ensures Remembered(g.windows, base, t) || now - Absolute(base, t.time) > MAX_PAST_TICKS
    {
      if t != s { assert t in f.log; }
    }
  }

  lemma ForgetKeepsSafe(f: Filter, base: nat, now: nat, removed: set<nat>)
    requires InSpan(base, now) && Safe(f, base, now) && AllExpired(f.windows, Counter(now), removed)
    ensures Safe(Step(f, Forget(now, removed)), base, now)
  {
    var g := Step(f, Forget(now, removed));
    forall s | s in g.log
      ensures Remembered(g.windows, base, s) || now - Absolute(base, s.time) > MAX_PAST_TICKS
    {
      if Remembered(f.windows, base, s) && s.seqId in removed {
        var newest := f.windows[s.seqId].newest;
        PlausibleDiff(base, now, newest, newest);
      }
    }
  }

  lemma {:induction false} RunIsSafe(events: seq<Event>, n: nat)
    requires Timed(events) && Lawful(events) && 0 < n <= |events|
    ensures Safe(Run(events, n), events[0].tick, events[n - 1].tick)
  {
    var base, now := events[0].tick, events[n - 1].tick;
    var f := Run(events, n - 1);
    if n > 1 {
      RunIsSafe(events, n - 1);
      assert events[n - 2].tick <= now;
    }
    assert InSpan(base, now);
    match events[n - 1]
    case Arrive(tick, s) =>
      if Judge(f.windows, Counter(now), s.time, s.seqId, s.seqNo).Accepted? {
        ArriveKeepsSafe(f, base, now, s);
      }
    case Forget(tick, removed) =>
      ForgetKeepsSafe(f, base, now, removed);
  }

  /** All stamps are different. */
  ghost predicate NoneTwice(log: seq<Stamp>) {
    forall i, j :: 0 <= i < j < |log| ==> log[i] != log[j]
  }

  /**
   No stamp is accepted twice in a run, although windows are forgotten and time wraps.
   */
  lemma NoStampTwice(events: seq<Event>)
    requires Timed(events) && Lawful(events)
    ensures NoneTwice(Run(events, |events|).log)
  {
    if events != [] { RunIsSafe(events, |events|); }
  }

  /** A year of 1024 ms ticks is inside the span. */
  lemma YearIsInSpan(base: int)
    ensures InSpan(base, base + 366 * 24 * 3600 * 1000 / 1024)
  {
  }

  /** Outside the span the promise fails: after a full turn of the clock a stamp is fresh again. */
  lemma FullTurnAcceptsTwice()
    ensures var s := Stamp(0, 7, 1);
            var events := [Arrive(0, s), Forget(646, {7}), Arrive(TIME_SPAN, s)];
            Lawful(events) && Run(events, 3).log == [s, s]
  {
    var s := Stamp(0, 7, 1);
    var events := [Arrive(0, s), Forget(646, {7}), Arrive(TIME_SPAN, s)];
    var w := Window(1, 0, {1});
    assert Run(events, 0) == Filter(map[], []);
    assert Run(events, 1) == Filter(map[7 := w], [s]);
    assert Run(events, 2) == Filter(map[], [s]);
    assert Run(events, 3) == Filter(map[7 := w], [s, s]);
  }

  /**
   A run of one tick more than the filter is good for.  The second stamp is half a turn after the
   newest time of its window, which looks like half a turn before it; so the window does not move
   on, counts as expired while the stamp is still fresh, and forgets it.
   */
  function TooLong(): seq<Event> {
    [Arrive(645, Stamp(0, 7, 1)), Arrive(TIME_HALF - 59, Stamp(TIME_HALF, 7, 2)),
     Forget(TIME_HALF - 59, {7}), Arrive(TIME_HALF - 59, Stamp(TIME_HALF, 7, 2))]
  }

  lemma TooLongAcceptsTwice()
    ensures TimedWithin(TooLong(), SAFE_SPAN + 1) && Lawful(TooLong())
    ensures Run(TooLong(), 4).log == [Stamp(0, 7, 1), Stamp(TIME_HALF, 7, 2), Stamp(TIME_HALF, 7, 2)]
  {
    var f1 := Filter(map[7 := Window(1, 0, {1})], [Stamp(0, 7, 1)]);
    var f2 := Filter(map[7 := Window(2, 0, {1, 2})], [Stamp(0, 7, 1), Stamp(TIME_HALF, 7, 2)]);
    var events := TooLong();
    FirstStamp();
    HalfATurnAhead();
    ForgottenTooSoon();
    assert Run(events, 1) == Step(Run(events, 0), events[0]) == f1;
    assert Run(events, 2) == Step(f1, events[1]) == f2;
    assert Run(events, 3) == Step(f2, events[2]);
    assert Run(events, 4) == Step(Step(f2, events[2]), events[3]);
  }

  lemma FirstStamp()
    ensures Step(Filter(map[], []), Arrive(645, Stamp(0, 7, 1)))
      == Filter(map[7 := Window(1, 0, {1})], [Stamp(0, 7, 1)])
  {
  }

  lemma ForgottenTooSoon()
    ensures var f := Filter(map[7 := Window(2, 0, {1, 2})], [Stamp(0, 7, 1), Stamp(TIME_HALF, 7, 2)]);
            var g := Step(f, Forget(TIME_HALF - 59, {7}));
            && AllExpired(f.windows, Counter(TIME_HALF - 59), {7})
            && Step(g, Arrive(TIME_HALF - 59, Stamp(TIME_HALF, 7, 2))).log
               == [Stamp(0, 7, 1), Stamp(TIME_HALF, 7, 2), Stamp(TIME_HALF, 7, 2)]
  {
  }

  lemma HalfATurnAhead()
    ensures Step(Filter(map[7 := Window(1, 0, {1})], [Stamp(0, 7, 1)]), Arrive(TIME_HALF - 59, Stamp(TIME_HALF, 7, 2)))
      == Filter(map[7 := Window(2, 0, {1, 2})], [Stamp(0, 7, 1), Stamp(TIME_HALF, 7, 2)])
  {
    var ws := map[7 := Window(1, 0, {1})];
    assert TimeDiff(TIME_HALF, 0) == -TIME_HALF;
    assert Inserted(ws[7], 2, TIME_HALF) == Window(2, 0, {1, 2});
    assert ws[7 := Window(2, 0, {1, 2})] == map[7 := Window(2, 0, {1, 2})];
  }

  /** Whatever run of at most this span there is, no stamp is accepted twice. */
  ghost predicate SafeFor(span: int) {
    forall events :: TimedWithin(events, span) && Lawful(events) ==> NoneTwice(Run(events, |events|).log)
  }

  /** The bound is exact. */
  lemma SpanIsExact(span: int)
    ensures SafeFor(span) <==> span <= SAFE_SPAN
  {
    if span <= SAFE_SPAN {
      forall events | TimedWithin(events, span) && Lawful(events) ensures NoneTwice(Run(events, |events|).log) {
        NoStampTwice(events);
      }
    } else {
      var events := TooLong();
      TooLongAcceptsTwice();
      assert TimedWithin(events, span);
      var log := Run(events, |events|).log;
      assert log[1] == log[2];
    }
  }
}
