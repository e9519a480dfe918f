/**
 The filter itself: one window object for each sending instance, looked up by `seq_id`, and
 the expiry that forgets the oldest of them.
 */
module SequenceFilter {
  import opened Options
  import opened SequenceSpec
  import opened Sequence

  /** Milliseconds per tick. */
  const TICK_MS: nat := 1024

  /** The age, in ticks, of a window's newest packet. */
  function Age(w: Window, now: nat): int { TimeDiff(now, w.newest) }

  function Ids(ids: seq<nat>): set<nat> { set id | id in ids }

  /** `removed` is a choice of the oldest expired windows, oldest first, down to `cap`. */
  ghost predicate OldestExpired(ws: Windows, now: nat, cap: nat, removed: seq<nat>) {
    && Removing(ws, now, removed)
    && |removed| <= (if |ws| > cap then |ws| - cap else 0)
    && (|removed| < |ws| - cap ==> forall id :: id in ws && id !in removed ==> !Expired(ws[id], now))
  }

  // ------------------------------------------------------------------ deadlines

  /** Time, in milliseconds, that a window of this age still has, counted in whole ticks. */
  function DelayOf(age: int): nat {
    if age <= MAX_PAST_TICKS then (MAX_PAST_TICKS + 1 - age) * TICK_MS else 0
  }

  ghost predicate ExpiryDelay(ws: Windows, now: nat, cap: nat, delay: Option<nat>) {
    if |ws| <= cap then delay == None
    else
      && delay.Some?
      && (forall id :: id in ws ==> delay.value <= DelayOf(Age(ws[id], now)))
      && exists id :: id in ws && delay.value == DelayOf(Age(ws[id], now))
  }

  function Tick(bootMs: nat, elapsedMs: nat): nat { (bootMs + elapsedMs) / TICK_MS }

  /** The sequence term of the endpoint's next deadline. */
  function ExpiryDeadline(bootMs: nat, elapsedMs: nat, delay: nat): nat {
    var offset := (bootMs + elapsedMs) % TICK_MS;
    elapsedMs + if delay >= offset then delay - offset else 0
  }

  lemma AgeGrows(w: Window, tick: nat, later: nat)
    requires tick <= later && w.newest < TIME_SPAN
    requires Age(w, Counter(tick)) + later - tick < TIME_HALF
    ensures Age(w, Counter(later)) == Age(w, Counter(tick)) + later - tick
  {
    var d := (Counter(tick) - w.newest) % TIME_SPAN;
    var q := (Counter(tick) - w.newest) / TIME_SPAN;
    assert Counter(tick) - w.newest == TIME_SPAN * q + d;
    assert tick == TIME_SPAN * (tick / TIME_SPAN) + Counter(tick);
    var seen := tick - Age(w, Counter(tick));
    var k := tick / TIME_SPAN + q + (if d >= TIME_HALF then 1 else 0);
    assert seen == TIME_SPAN * k + w.newest;
    assert Counter(seen) == w.newest;
    TimeDiffExact(later, seen);
  }

  /**
   The deadline is exact despite the 1024 ms ticks: it is the first millisecond at which
   some window has expired.  No window may be older than half a turn of the clock.
   */
  lemma ExpiryDeadlineIsFirst(
      ws: Windows, cap: nat, bootMs: nat, elapsedMs: nat, delay: Option<nat>, later: nat)
    requires |ws| > cap && ExpiryDelay(ws, Counter(Tick(bootMs, elapsedMs)), cap, delay)
    requires elapsedMs <= later
    requires forall id :: id in ws ==>
      && ws[id].newest < TIME_SPAN
      && Age(ws[id], Counter(Tick(bootMs, elapsedMs))) + Tick(bootMs, later) - Tick(bootMs, elapsedMs) < TIME_HALF
    ensures (exists id :: id in ws && Expired(ws[id], Counter(Tick(bootMs, later))))
      <==> later >= ExpiryDeadline(bootMs, elapsedMs, delay.value)
  {
    var tick, end := Tick(bootMs, elapsedMs), Tick(bootMs, later);
    forall id | id in ws
      ensures Expired(ws[id], Counter(end))
        <==> later >= ExpiryDeadline(bootMs, elapsedMs, DelayOf(Age(ws[id], Counter(tick))))
    {
      AgeGrows(ws[id], tick, end);
      DelayReached(bootMs, elapsedMs, later, Age(ws[id], Counter(tick)));
    }
    var first :| first in ws && delay.value == DelayOf(Age(ws[first], Counter(tick)));
    forall id | id in ws
      ensures ExpiryDeadline(bootMs, elapsedMs, delay.value)
        <= ExpiryDeadline(bootMs, elapsedMs, DelayOf(Age(ws[id], Counter(tick))))
    {
      assert delay.value <= DelayOf(Age(ws[id], Counter(tick)));
    }
  }

  lemma DelayReached(bootMs: nat, elapsedMs: nat, later: nat, age: int)
    requires elapsedMs <= later
    ensures age + Tick(bootMs, later) - Tick(bootMs, elapsedMs) > MAX_PAST_TICKS
      <==> later >= ExpiryDeadline(bootMs, elapsedMs, DelayOf(age))
  {
    var tick, end := Tick(bootMs, elapsedMs), Tick(bootMs, later);
    assert bootMs + elapsedMs == TICK_MS * tick + (bootMs + elapsedMs) % TICK_MS;
    assert bootMs + later == TICK_MS * end + (bootMs + later) % TICK_MS;
    assert TICK_MS * (end - tick) == TICK_MS * end - TICK_MS * tick;
  }

  /** Something is removed exactly when there are too many windows and one has expired. */
  lemma RemovalIffExpired(ws: Windows, now: nat, cap: nat, removed: seq<nat>)
    requires OldestExpired(ws, now, cap, removed)
    ensures removed != [] <==> |ws| > cap && exists id :: id in ws && Expired(ws[id], now)
  {
    if removed != [] { assert removed[0] in ws; }
  }

  /** Expired windows have been removed oldest first; what is left is no older. */
  ghost predicate Removing(ws: Windows, now: nat, removed: seq<nat>) {
    && (forall i, j :: 0 <= i < j < |removed| ==> removed[i] != removed[j])
    && (forall i :: 0 <= i < |removed| ==> removed[i] in ws && Expired(ws[removed[i]], now))
    && (forall i, j :: 0 <= i < j < |removed| ==> Age(ws[removed[i]], now) >= Age(ws[removed[j]], now))
    && (forall i, id :: 0 <= i < |removed| && id in ws && id !in removed ==>
      Age(ws[removed[i]], now) >= Age(ws[id], now))
  }

  lemma RemovingNext(ws: Windows, now: nat, removed: seq<nat>, next: nat)
    requires Removing(ws, now, removed) && next in ws && next !in removed && Expired(ws[next], now)
    requires forall id :: id in ws && id !in removed ==> Age(ws[next], now) >= Age(ws[id], now)
    ensures Removing(ws, now, removed + [next])
  {
  }

  class Filter {
    var windows: map<nat, SequenceWindow>

    ghost var Model: Windows
    /** Whose window an object is part of; so no two windows share storage. */
    ghost var Owner: map<object, nat>

    /** The window kept for `id` is sound, its own, and what `m` says. */
    ghost predicate Keeps(id: nat, w: SequenceWindow, m: Window)
      reads `Owner, w, w.bitmap
    {
      && w in Owner && Owner[w] == id
      && w.bitmap in Owner && Owner[w.bitmap] == id
      && w.Valid() && w.Model() == m
    }

    ghost predicate Valid()
      reads this, Owner.Keys
    {
      && this !in Owner
      && Model.Keys == windows.Keys
      && (forall id :: id in windows ==>
        && windows[id] in Owner && windows[id].bitmap in Owner && Keeps(id, windows[id], Model[id]))
    }

    constructor ()
      ensures Valid() && Owner == map[] && Model == map[]
    {
      windows, Model, Owner := map[], map[], map[];
    }

    /** Admits a packet that is fresh and new to the window of its sender. */
    method CheckAndInsert(now: nat, time: nat, seqId: nat, seqNo: nat) returns (verdict: Verdict)
      requires Valid()
      modifies this, Owner.Keys
      ensures Valid() && fresh(Owner.Keys - old(Owner.Keys))
      ensures verdict == Judge(old(Model), now, time, seqId, seqNo)
      ensures verdict == Accepted <==>
        && -59 <= TimeDiff(now, time) <= 645
        && (seqId in old(Model) ==>
          seqNo !in old(Model)[seqId].accepted && old(Model)[seqId].maxSeqNo < seqNo + 0x10_0000)
      ensures Model == Admitted(old(Model), now, time, seqId, seqNo)
    {
      var age := TimeDiff(now, time);
      if age > MAX_PAST_TICKS { return Freshness; }
      if age < -MAX_FUTURE_TICKS { return Freshness; }
      if seqId in windows {
        verdict := InsertInto(time, seqId, seqNo);
      } else {
        Open(time, seqId, seqNo);
        verdict := Accepted;
      }
    }

    method InsertInto(time: nat, seqId: nat, seqNo: nat) returns (verdict: Verdict)
      requires Valid() && seqId in windows
      modifies `Model, windows[seqId], windows[seqId].bitmap
      ensures Valid()
      ensures verdict == if New(old(Model)[seqId], seqNo) then Accepted else Replay
      ensures verdict == Accepted <==>
        seqNo !in old(Model)[seqId].accepted && old(Model)[seqId].maxSeqNo < seqNo + 0x10_0000
      ensures Model == if verdict == Accepted
                       then old(Model)[seqId := Inserted(old(Model)[seqId], seqNo, time)]
                       else old(Model)
    {
      verdict := windows[seqId].Insert(seqNo, time);
      Model := Model[seqId := windows[seqId].Model()];
      forall id | id in windows && id != seqId
        ensures Keeps(id, windows[id], Model[id])
      {
        assert unchanged(windows[id]) && unchanged(windows[id].bitmap);
      }
    }

    method Open(time: nat, seqId: nat, seqNo: nat)
      requires Valid() && seqId !in windows
      modifies this
      ensures Valid() && fresh(Owner.Keys - old(Owner.Keys))
      ensures Model == old(Model)[seqId := Window(seqNo, time, {seqNo})]
    {
      var w := new SequenceWindow(seqNo, time);
      windows := windows[seqId := w];
      Model := Model[seqId := Window(seqNo, time, {seqNo})];
      Owner := Owner[w := seqId][w.bitmap := seqId];
      forall id | id in windows ensures Keeps(id, windows[id], Model[id]) {
        if id != seqId { assert old(Keeps(id, windows[id], Model[id])); }
      }
    }

    /** Forgets the oldest expired windows until at most `cap` are left. */
    method RemoveExpired(now: nat, cap: nat) returns (removed: seq<nat>)
      requires Valid()
      modifies `windows, `Model
      ensures Valid()
      ensures OldestExpired(old(Model), now, cap, removed)
      ensures Left(old(Model), removed, Model)
    {
      removed := [];
      ghost var ws := Model;
      KeysAndSize(Model, windows);
      var done := false;
      while |windows| > cap && !done
        invariant Valid() && |windows| == |Model|
        invariant Progress(ws, now, removed, Model)
        invariant |removed| <= (if |ws| > cap then |ws| - cap else 0)
        invariant done ==> forall id :: id in ws && id !in removed ==> !Expired(ws[id], now)
        decreases |windows|, !done
      {
        removed, done := RemoveNext(now, ws, removed);
      }
    }

    /** Forgets the oldest window if it has expired; otherwise there is nothing left to forget. */
    method RemoveNext(now: nat, ghost ws: Windows, removed: seq<nat>) returns (removed': seq<nat>, done: bool)
      requires Valid() && windows != map[] && Progress(ws, now, removed, Model)
      modifies `windows, `Model
      ensures Valid() && Progress(ws, now, removed', Model)
      ensures |windows| == |Model| == if done then old(|Model|) else old(|Model|) - 1
      ensures done ==> removed' == removed
      ensures done ==> forall id :: id in ws && id !in removed ==> !Expired(ws[id], now)
    {
      KeysAndSize(Model, windows);
      var oldest := Oldest(now);
      if TimeDiff(now, windows[oldest].newestTime) <= MAX_PAST_TICKS {
        NoneExpired(ws, now, removed, Model, oldest);
        return removed, true;
      }
      OldestIsNext(ws, now, removed, Model, oldest);
      Drop(oldest);
      return removed + [oldest], false;
    }

    /** What is left of `ws` without the removed windows. */
    static ghost predicate Left(ws: Windows, removed: seq<nat>, left: Windows) {
      left == ws - Ids(removed)
    }

    static ghost predicate Progress(ws: Windows, now: nat, removed: seq<nat>, left: Windows) {
      Left(ws, removed, left) && |left| + |removed| == |ws| && Removing(ws, now, removed)
    }

    static lemma KeysAndSize<V, W>(m: map<nat, V>, n: map<nat, W>)
      requires m.Keys == n.Keys
      ensures |m| == |n|
    {
    }

    static lemma NoneExpired(ws: Windows, now: nat, removed: seq<nat>, left: Windows, oldest: nat)
      requires Left(ws, removed, left) && oldest in left && !Expired(left[oldest], now)
      requires forall id :: id in left ==> Age(left[oldest], now) >= Age(left[id], now)
      ensures forall id :: id in ws && id !in removed ==> !Expired(ws[id], now)
    {
      forall id | id in ws && id !in removed ensures !Expired(ws[id], now) {
        assert id in left;
      }
    }

    static lemma OldestIsNext(ws: Windows, now: nat, removed: seq<nat>, left: Windows, oldest: nat)
      requires Left(ws, removed, left) && Removing(ws, now, removed)
      requires oldest in left && Expired(left[oldest], now)
      requires forall id :: id in left ==> Age(left[oldest], now) >= Age(left[id], now)
      ensures Removing(ws, now, removed + [oldest])
      ensures Left(ws, removed + [oldest], left - {oldest})
    {
      forall id | id in ws && id !in removed ensures Age(ws[oldest], now) >= Age(ws[id], now) {
        assert id in left;
      }
      RemovingNext(ws, now, removed, oldest);
    }

    method Drop(seqId: nat)
      requires Valid() && seqId in windows
      modifies `windows, `Model
      ensures Valid() && Model == old(Model) - {seqId}
      ensures |windows| == |Model| == old(|windows|) - 1
    {
      windows := windows - {seqId};
      Model := Model - {seqId};
      assert windows.Keys == old(windows.Keys) - {seqId} == Model.Keys;
    }

    /** Some window whose newest packet is at least as old as that of any other. */
    method Oldest(now: nat) returns (oldest: nat)
      requires Valid() && windows != map[]
      ensures oldest in windows
      ensures forall id :: id in Model ==> Age(Model[oldest], now) >= Age(Model[id], now)
    {
      oldest :| oldest in windows;
      var todo := windows.Keys;
      while todo != {}
        invariant oldest in windows && todo <= windows.Keys
        invariant forall id :: id in Model && id !in todo ==> Age(Model[oldest], now) >= Age(Model[id], now)
        decreases todo
      {
        var id :| id in todo;
        todo := todo - {id};
        if TimeDiff(now, windows[id].newestTime) > TimeDiff(now, windows[oldest].newestTime) { oldest := id; }
      }
    }

    /** How long until a window can expire; none while there are no more than `cap`. */
    method NextExpiryDelayMs(now: nat, cap: nat) returns (delay: Option<nat>)
      requires Valid()
      ensures ExpiryDelay(Model, now, cap, delay)
    {
      KeysAndSize(Model, windows);
      if |windows| <= cap { return None; }
      var oldest := Oldest(now);
      return Some(DelayOf(TimeDiff(now, windows[oldest].newestTime)));
    }
  }
}
