/**
 The life of a session as a trace shows it.  A trace records, with their times, the actions
 given to the shell and the moments at which a session enters the table, begins to close
 because the shell asked for it, and leaves the table.
 */
module SessionTrace {
  import opened Bytes
  import opened EndpointSpec
  import opened Wire

  datatype Entry =
    | Entered(convId: nat, local: bool)
    | OpenSession(convId: nat)
    | WriteSession(convId: nat, bytes: seq<Byte>)
    | CloseBegun(convId: nat)
    | CloseSession(convId: nat, reason: CloseReason)
    | Left(convId: nat, buried: bool)

  datatype Timed = Timed(time: nat, entry: Entry)

  type Trace = seq<Timed>

  /** What a conversation id may be used for; `Bad` marks a trace that breaks the rules. */
  datatype Life = Absent | Pending | Alive | Closing(told: bool) | Buried(since: nat) | Bad

  /** Free to be used: never used, given up before the shell saw it, or buried long enough. */
  predicate Usable(life: Life, time: nat) {
    life.Absent? || (life.Buried? && time >= life.since + SESSION_TOMBSTONE_MS)
  }

  function NextLife(life: Life, time: nat, e: Entry): Life {
    match e
    case Entered(_, local) => if Usable(life, time) then (if local then Alive else Pending) else Bad
    case OpenSession(_) => if life.Pending? then Alive else Bad
    case WriteSession(_, _) => if life.Alive? then Alive else Bad
    case CloseBegun(_) => if life.Alive? then Closing(false) else Bad
    case CloseSession(_, _) => if life.Alive? || life.Closing? then Closing(true) else Bad
    case Left(_, buried) =>
      if life.Pending? then (if buried then Buried(time) else Absent)
      else if life == Closing(true) && buried then Buried(time)
      else Bad
  }

  /** The life of `conv` after the first `n` entries. */
  function LifeAt(t: Trace, conv: nat, n: nat): Life
    requires n <= |t|
  {
    if n == 0 then Absent
    else
      var life := LifeAt(t, conv, n - 1);
      if life.Bad? || t[n - 1].entry.convId != conv then life
      else NextLife(life, t[n - 1].time, t[n - 1].entry)
  }

  function LifeOf(t: Trace, conv: nat): Life { LifeAt(t, conv, |t|) }

  ghost predicate Lawful(t: Trace) {
    && (forall i, j :: 0 <= i < j < |t| ==> t[i].time <= t[j].time)
    && forall conv :: !LifeOf(t, conv).Bad?
  }

  lemma {:induction false} LifeOfPrefix(t: Trace, conv: nat, n: nat, x: Timed)
    requires n <= |t|
    ensures LifeAt(t + [x], conv, n) == LifeAt(t, conv, n)
  {
    if n == 0 {
    } else {
      LifeOfPrefix(t, conv, n - 1, x);
    }
  }

  /** One entry more: only the life of its conversation moves on. */
  lemma LifeOfExtended(t: Trace, conv: nat, x: Timed)
    ensures LifeOf(t + [x], conv) ==
      if LifeOf(t, conv).Bad? || x.entry.convId != conv then LifeOf(t, conv)
      else NextLife(LifeOf(t, conv), x.time, x.entry)
  {
    LifeOfPrefix(t, conv, |t|, x);
  }

  lemma {:induction false} NeverBadBefore(t: Trace, conv: nat, n: nat, m: nat)
    requires n <= m <= |t| && !LifeAt(t, conv, m).Bad?
    ensures !LifeAt(t, conv, n).Bad?
    decreases m
  {
    if n >= m {
    } else {
      NeverBadBefore(t, conv, n, m - 1);
    }
  }

  lemma NeverBad(t: Trace, conv: nat, n: nat)
    requires Lawful(t) && n <= |t|
    ensures !LifeAt(t, conv, n).Bad?
  {
    assert !LifeOf(t, conv).Bad?;
    NeverBadBefore(t, conv, n, |t|);
  }

  // ------------------------------------------------------------------ what a trace guarantees

  /** The session became visible to the shell at `i`. */
  predicate OpensAt(t: Trace, conv: nat, i: nat) {
    i < |t| && (t[i].entry == OpenSession(conv) || t[i].entry == Entered(conv, true))
  }

  predicate ClosesAt(t: Trace, conv: nat, i: nat) {
    i < |t| && t[i].entry.convId == conv && (t[i].entry.CloseBegun? || t[i].entry.CloseSession?)
  }

  predicate ToldAt(t: Trace, conv: nat, i: nat) {
    i < |t| && t[i].entry.convId == conv && t[i].entry.CloseSession?
  }

  predicate LeavesAt(t: Trace, conv: nat, i: nat) {
    i < |t| && t[i].entry.convId == conv && t[i].entry.Left?
  }

  /** The session opened at `j` has not left the table before `n`. */
  ghost predicate OpenSince(t: Trace, conv: nat, j: nat, n: nat) {
    j < n <= |t| && OpensAt(t, conv, j) && forall k :: j < k < n ==> !LeavesAt(t, conv, k)
  }

  lemma {:induction false} AliveSince(t: Trace, conv: nat, n: nat) returns (j: nat)
    requires n <= |t| && LifeAt(t, conv, n).Alive?
    ensures OpenSince(t, conv, j, n)
    ensures forall k :: j < k < n ==> !ClosesAt(t, conv, k)
  {
    if OpensAt(t, conv, n - 1) {
      j := n - 1;
    } else {
      j := AliveSince(t, conv, n - 1);
    }
  }

  lemma {:induction false} ClosingSince(t: Trace, conv: nat, n: nat) returns (j: nat)
    requires n <= |t| && LifeAt(t, conv, n).Closing?
    ensures OpenSince(t, conv, j, n)
    ensures LifeAt(t, conv, n).told ==> exists k :: j < k < n && ToldAt(t, conv, k)
  {
    if LifeAt(t, conv, n - 1).Alive? {
      j := AliveSince(t, conv, n - 1);
      assert LifeAt(t, conv, n).told ==> ToldAt(t, conv, n - 1);
    } else {
      j := ClosingSince(t, conv, n - 1);
      if LifeAt(t, conv, n).told && !LifeAt(t, conv, n - 1).told { assert ToldAt(t, conv, n - 1); }
    }
  }

  /** Bytes are written to the shell only while the session is open and before it begins to close. */
  lemma WritesOnlyWhileOpen(t: Trace, conv: nat, bytes: seq<Byte>, i: nat) returns (j: nat)
    requires Lawful(t) && i < |t| && t[i].entry == WriteSession(conv, bytes)
    ensures OpenSince(t, conv, j, i)
    ensures forall k :: j < k < i ==> !ClosesAt(t, conv, k)
  {
    NeverBad(t, conv, i + 1);
    j := AliveSince(t, conv, i);
  }

  /** While a session is open, it is alive or closing. */
  lemma {:induction false} OpenIsVisible(t: Trace, conv: nat, j: nat, n: nat)
    requires OpenSince(t, conv, j, n) && !LifeAt(t, conv, n).Bad?
    ensures LifeAt(t, conv, n).Alive? || LifeAt(t, conv, n).Closing?
    decreases n
  {
    if n > j + 1 {
      NeverBadBefore(t, conv, n - 1, n);
      OpenIsVisible(t, conv, j, n - 1);
      assert !LeavesAt(t, conv, n - 1);
    } else {
      NeverBadBefore(t, conv, j, n);
    }
  }

  /** A session the shell has seen is told closed, at least once, before it leaves; and it is buried. */
  lemma ClosedBeforeLeaving(t: Trace, conv: nat, j: nat, i: nat)
    requires Lawful(t) && OpenSince(t, conv, j, i) && LeavesAt(t, conv, i)
    ensures exists k :: j < k < i && ToldAt(t, conv, k)
    ensures t[i].entry.buried
  {
    NeverBad(t, conv, i + 1);
    NeverBad(t, conv, i);
    OpenIsVisible(t, conv, j, i);
    var j' := ClosingSince(t, conv, i);
    if j' < j {
      OpenedOnce(t, conv, j', j, i);
    } else if j < j' {
      OpenedOnce(t, conv, j, j', i);
    }
  }

  /** A session is not opened again while it is open. */
  lemma OpenedOnce(t: Trace, conv: nat, j: nat, k: nat, n: nat)
    requires OpenSince(t, conv, j, n) && j < k < n && !LifeAt(t, conv, n).Bad?
    ensures !OpensAt(t, conv, k)
  {
    NeverBadBefore(t, conv, k + 1, n);
    NeverBadBefore(t, conv, k, n);
    OpenIsVisible(t, conv, j, k);
  }

  /** Since it was buried the conversation has not been used, or the tombstone's time is over. */
  lemma {:induction false} BuriedSince(t: Trace, conv: nat, j: nat, n: nat)
    requires j < n <= |t| && !LifeAt(t, conv, n).Bad?
    requires forall i, k :: 0 <= i < k < |t| ==> t[i].time <= t[k].time
    requires LeavesAt(t, conv, j) && t[j].entry.buried
    ensures LifeAt(t, conv, n) == Buried(t[j].time) || t[n - 1].time >= t[j].time + SESSION_TOMBSTONE_MS
    decreases n
  {
    if n > j + 1 {
      NeverBadBefore(t, conv, n - 1, n);
      BuriedSince(t, conv, j, n - 1);
      assert t[n - 2].time <= t[n - 1].time;
    } else {
      NeverBadBefore(t, conv, j, n);
    }
  }

  /** A conversation id is not opened again before the tombstone of its last session has expired. */
  lemma ReopenedOnlyAfterTombstone(t: Trace, conv: nat, j: nat, i: nat)
    requires Lawful(t) && j < i < |t|
    requires LeavesAt(t, conv, j) && t[j].entry.buried && OpensAt(t, conv, i)
    ensures t[i].time >= t[j].time + SESSION_TOMBSTONE_MS
  {
    NeverBad(t, conv, i + 1);
    NeverBad(t, conv, i);
    BuriedSince(t, conv, j, i);
    assert t[i - 1].time <= t[i].time;
  }
}
