/**
 The replay filter as it is stored: a circular bitmap of 2^20 bits in 64-bit words for each
 sending instance, cleared a word at a time as the window moves.  A word is written as the
 sequence of its 64 bits.
 */
module Sequence {
  import opened SequenceSpec

  const WORDS: nat := 0x4000

  type Word = w: seq<bool> | |w| == 64 witness seq(64, _ => false)

  const ZERO: Word := seq(64, _ => false)

  // ------------------------------------------------------------------ the circle

  /** How far position `b` lies after `start` on the circle of `WINDOW_BITS` positions. */
  function Ahead(start: nat, b: nat): nat
    requires start < WINDOW_BITS && b < WINDOW_BITS
  {
    if b >= start then b - start else b + WINDOW_BITS - start
  }

  /** The position `k` places on. */
  function Forward(bit: nat, k: nat): (b: nat)
    requires bit < WINDOW_BITS && k <= 64
    ensures b < WINDOW_BITS && b == (bit + k) % WINDOW_BITS
  {
    if bit + k < WINDOW_BITS then bit + k else bit + k - WINDOW_BITS
  }

  /** The circle with the `n` positions from `start` on cleared. */
  function Swept(was: seq<bool>, start: nat, n: nat): (bits: seq<bool>)
    requires |was| == WINDOW_BITS && start < WINDOW_BITS
    ensures |bits| == WINDOW_BITS
  {
    seq(WINDOW_BITS, b requires 0 <= b < WINDOW_BITS => Ahead(start, b) >= n && was[b])
  }

  lemma SweptOne(was: seq<bool>, start: nat, n: nat, bit: nat)
    requires |was| == WINDOW_BITS && start < WINDOW_BITS && bit < WINDOW_BITS && Ahead(start, bit) == n
    ensures Swept(was, start, n)[bit := false] == Swept(was, start, n + 1)
  {
  }

  /** Clearing the `n` positions after `start` one after the other. */
  function ClearedInTurn(was: seq<bool>, start: nat, n: nat): (bits: seq<bool>)
    requires |was| == WINDOW_BITS && start < WINDOW_BITS
    ensures |bits| == WINDOW_BITS
  {
    if n == 0 then was else ClearedInTurn(was, start, n - 1)[(start + n - 1) % WINDOW_BITS := false]
  }

  lemma {:induction false} SweptIsClearedInTurn(was: seq<bool>, start: nat, n: nat)
    requires |was| == WINDOW_BITS && start < WINDOW_BITS && n <= WINDOW_BITS
    ensures Swept(was, start, n) == ClearedInTurn(was, start, n)
  {
    if n == 0 {
    } else {
      SweptIsClearedInTurn(was, start, n - 1);
      AheadOfNumber(start, start + n - 1);
      SweptOne(was, start, n - 1, (start + n - 1) % WINDOW_BITS);
    }
  }

  lemma SweptWord(was: seq<bool>, start: nat, n: nat, bit: nat)
    requires |was| == WINDOW_BITS && start < WINDOW_BITS && bit < WINDOW_BITS && bit % 64 == 0
    requires Ahead(start, bit) == n && n + 64 < WINDOW_BITS
    ensures bit + 64 <= WINDOW_BITS
    ensures Swept(was, start, n)[..bit] + ZERO + Swept(was, start, n)[bit + 64..] == Swept(was, start, n + 64)
  {
  }

  lemma AheadOfNumber(low: nat, n: nat)
    requires low <= n < low + WINDOW_BITS
    ensures Ahead(low % WINDOW_BITS, n % WINDOW_BITS) == n - low
  {
    assert low == WINDOW_BITS * (low / WINDOW_BITS) + low % WINDOW_BITS;
    assert n == WINDOW_BITS * (n / WINDOW_BITS) + n % WINDOW_BITS;
  }

  class SequenceWindow {
    var maxSeqNo: nat
    var newestTime: nat
    const bitmap: array<Word>
    ghost var accepted: set<nat>

    /** The circle as one sequence of bits. */
    ghost function Bits(): (bits: seq<bool>)
      requires bitmap.Length == WORDS
      reads bitmap
      ensures |bits| == WINDOW_BITS
    {
      seq(WINDOW_BITS, b requires bitmap.Length == WORDS && 0 <= b < WINDOW_BITS reads bitmap => Marked(b))
    }

    predicate Marked(b: nat)
      requires bitmap.Length == WORDS && b < WINDOW_BITS
      reads bitmap
    {
      bitmap[b / 64][b % 64]
    }

    /** The bit of a number inside the window that ends at `top` tells whether it was accepted. */
    ghost predicate Tells(n: nat, top: nat)
      requires bitmap.Length == WORDS
      reads `accepted, bitmap
    {
      n <= top < n + WINDOW_BITS ==> (Marked(n % WINDOW_BITS) <==> n in accepted)
    }

    /** Inside the window, a bit is set exactly for the accepted numbers. */
    ghost predicate Valid()
      reads this, bitmap
    {
      && bitmap.Length == WORDS
      && maxSeqNo in accepted
      && (forall n :: n in accepted ==> n <= maxSeqNo)
      && (forall n: nat :: Tells(n, maxSeqNo))
    }

    ghost function Model(): Window
      reads this
    {
      Window(maxSeqNo, newestTime, accepted)
    }

    constructor (seqNo: nat, time: nat)
      ensures Valid() && fresh(bitmap)
      ensures Model() == Window(seqNo, time, {seqNo})
    {
      maxSeqNo, newestTime := seqNo, time;
      bitmap := new Word[WORDS](_ => ZERO);
      accepted := {seqNo};
      new;
      assert forall b :: 0 <= b < WINDOW_BITS ==> !Marked(b);
      Set(seqNo);
      forall n: nat ensures Tells(n, maxSeqNo) {
        if n <= maxSeqNo < n + WINDOW_BITS { AheadOfNumber(n, seqNo); }
      }
    }

    method Set(seqNo: nat)
      requires bitmap.Length == WORDS
      modifies bitmap
      ensures forall b :: 0 <= b < WINDOW_BITS ==>
        Marked(b) == (b == seqNo % WINDOW_BITS || old(Marked(b)))
    {
      var bit := seqNo % WINDOW_BITS;
      bitmap[bit / 64] := bitmap[bit / 64][bit % 64 := true];
      SameBit(bit);
    }

    method ClearBit(bit: nat)
      requires bitmap.Length == WORDS && bit < WINDOW_BITS
      modifies bitmap
      ensures Bits() == old(Bits())[bit := false]
    {
      bitmap[bit / 64] := bitmap[bit / 64][bit % 64 := false];
      SameBit(bit);
    }

    method ClearWord(bit: nat)
      requires bitmap.Length == WORDS && bit < WINDOW_BITS && bit % 64 == 0
      modifies bitmap
      ensures Bits() == old(Bits())[..bit] + ZERO + old(Bits())[bit + 64..]
    {
      bitmap[bit / 64] := ZERO;
      forall b | 0 <= b < WINDOW_BITS ensures b / 64 == bit / 64 <==> bit <= b < bit + 64 {
      }
    }

    method ClearAll()
      requires bitmap.Length == WORDS
      modifies bitmap
      ensures forall b :: 0 <= b < WINDOW_BITS ==> !Marked(b)
    {
      for i := 0 to bitmap.Length
        invariant forall j :: 0 <= j < i ==> bitmap[j] == ZERO
      {
        bitmap[i] := ZERO;
      }
    }

    /** Bit by bit, to the end or only to the next word boundary. */
    method SweepBits(bit: nat, remaining: nat, toBoundary: bool, ghost was: seq<bool>, ghost start: nat, ghost n: nat)
      returns (bit': nat, remaining': nat)
      requires bitmap.Length == WORDS && |was| == WINDOW_BITS && start < WINDOW_BITS && bit < WINDOW_BITS
      requires Ahead(start, bit) == n && n + remaining < WINDOW_BITS && Bits() == Swept(was, start, n)
      modifies bitmap
      ensures bit' < WINDOW_BITS && remaining' <= remaining && Ahead(start, bit') == n + remaining - remaining'
      ensures Bits() == Swept(was, start, n + remaining - remaining')
      ensures remaining' == 0 || (toBoundary && bit' % 64 == 0)
    {
      bit', remaining' := bit, remaining;
      while remaining' != 0 && (!toBoundary || bit' % 64 != 0)
        invariant bit' < WINDOW_BITS && remaining' <= remaining
        invariant Ahead(start, bit') == n + remaining - remaining'
        invariant Bits() == Swept(was, start, n + remaining - remaining')
      {
        SweptOne(was, start, n + remaining - remaining', bit');
        ClearBit(bit');
        bit' := Forward(bit', 1);
        remaining' := remaining' - 1;
      }
    }

    /** Word by word, as long as a whole word is to be cleared. */
    method SweepWords(bit: nat, remaining: nat, ghost was: seq<bool>, ghost start: nat, ghost n: nat)
      returns (bit': nat, remaining': nat)
      requires bitmap.Length == WORDS && |was| == WINDOW_BITS && start < WINDOW_BITS && bit < WINDOW_BITS
      requires Ahead(start, bit) == n && n + remaining < WINDOW_BITS && Bits() == Swept(was, start, n)
      requires remaining != 0 ==> bit % 64 == 0
      modifies bitmap
      ensures bit' < WINDOW_BITS && remaining' <= remaining && Ahead(start, bit') == n + remaining - remaining'
      ensures Bits() == Swept(was, start, n + remaining - remaining')
    {
      bit', remaining' := bit, remaining;
      while remaining' >= 64
        invariant bit' < WINDOW_BITS && remaining' <= remaining
        invariant remaining' != 0 ==> bit' % 64 == 0
        invariant Ahead(start, bit') == n + remaining - remaining'
        invariant Bits() == Swept(was, start, n + remaining - remaining')
      {
        SweptWord(was, start, n + remaining - remaining', bit');
        ClearWord(bit');
        bit' := Forward(bit', 64);
        remaining' := remaining' - 64;
      }
    }

    /**
     Clears the `count` positions after `oldMax`, for any alignment and across the end of the
     circle: every one of them is cleared, and no other position changes.
     */
    method ClearAfter(oldMax: nat, count: nat)
      requires bitmap.Length == WORDS && count < WINDOW_BITS
      modifies bitmap
      ensures Bits() == Swept(old(Bits()), (oldMax + 1) % WINDOW_BITS, count)
    {
      ghost var start, was := (oldMax + 1) % WINDOW_BITS, Bits();
      var bit := (oldMax + 1) % WINDOW_BITS;
      var remaining := count;
      assert was == Swept(was, start, 0);
      bit, remaining := SweepBits(bit, remaining, true, was, start, 0);
      bit, remaining := SweepWords(bit, remaining, was, start, count - remaining);
      bit, remaining := SweepBits(bit, remaining, false, was, start, count - remaining);
    }

    /** Two positions coincide exactly when their word and their place in it do. */
    static lemma SameBit(bit: nat)
      ensures forall b: nat :: b / 64 == bit / 64 && b % 64 == bit % 64 <==> b == bit
    {
      assert bit == 64 * (bit / 64) + bit % 64;
      forall b: nat ensures b == 64 * (b / 64) + b % 64 {
      }
    }

    /** Accepts a number exactly when it is new to the window. */
    method Insert(seqNo: nat, time: nat) returns (verdict: Verdict)
      requires Valid()
      modifies this, bitmap
      ensures Valid()
      ensures verdict == if New(old(Model()), seqNo) then Accepted else Replay
      ensures verdict == Accepted <==> seqNo !in old(accepted) && old(maxSeqNo) < seqNo + 0x10_0000
      ensures Model() == if New(old(Model()), seqNo) then Inserted(old(Model()), seqNo, time) else old(Model())
    {
      if seqNo <= maxSeqNo {
        assert Tells(seqNo, maxSeqNo);
        if maxSeqNo - seqNo >= WINDOW_BITS { return Replay; }
        if Marked(seqNo % WINDOW_BITS) { return Replay; }
        Mark(seqNo);
      } else {
        Advance(seqNo);
      }
      assert forall n: nat :: Tells(n, maxSeqNo);
      if TimeDiff(time, newestTime) > 0 { newestTime := time; }
      return Accepted;
    }

    /** After the new positions were cleared, the bits tell the numbers below `seqNo`. */
    ghost predicate Cleared(seqNo: nat)
      requires bitmap.Length == WORDS
      reads this, bitmap
    {
      forall n: nat :: n < seqNo ==> Tells(n, seqNo)
    }

    method ClearSkipped(seqNo: nat)
      requires Valid() && seqNo > maxSeqNo
      modifies bitmap
      ensures Cleared(seqNo)
    {
      var delta := seqNo - maxSeqNo;
      if delta >= WINDOW_BITS {
        ClearAll();
      } else {
        ghost var was := Bits();
        ClearAfter(maxSeqNo, delta);
        forall n: nat | n < seqNo ensures Tells(n, seqNo) {
          if seqNo < n + WINDOW_BITS {
            assert old(Tells(n, maxSeqNo));
            var b := n % WINDOW_BITS;
            assert Marked(b) == Bits()[b] == Swept(was, (maxSeqNo + 1) % WINDOW_BITS, delta)[b];
            if n > maxSeqNo {
              AheadOfNumber(maxSeqNo + 1, n);
            } else {
              AheadOfNumber(n, maxSeqNo + 1);
              assert Ahead((maxSeqNo + 1) % WINDOW_BITS, n % WINDOW_BITS) >= delta;
            }
          }
        }
      }
    }

    /** Moves the window forward to a larger number. */
    method Advance(seqNo: nat)
      requires Valid() && seqNo > maxSeqNo
      modifies `maxSeqNo, `accepted, bitmap
      ensures Valid() && maxSeqNo == seqNo && accepted == old(accepted) + {seqNo}
    {
      ClearSkipped(seqNo);
      label cleared:
      maxSeqNo := seqNo;
      Set(seqNo);
      accepted := accepted + {seqNo};
      forall n: nat ensures Tells(n, maxSeqNo) {
        assert n < seqNo ==> old@cleared(Tells(n, seqNo));
        if n <= seqNo < n + WINDOW_BITS { AheadOfNumber(n, seqNo); }
      }
    }

    /** Marks a number inside the window. */
    method Mark(seqNo: nat)
      requires Valid() && seqNo <= maxSeqNo < seqNo + WINDOW_BITS
      modifies `accepted, bitmap
      ensures Valid() && accepted == old(accepted) + {seqNo}
    {
      Set(seqNo);
      accepted := accepted + {seqNo};
      forall n: nat ensures Tells(n, maxSeqNo) {
        assert old(Tells(n, maxSeqNo));
        if n <= maxSeqNo < n + WINDOW_BITS {
          if n <= seqNo { AheadOfNumber(n, seqNo); } else { AheadOfNumber(seqNo, n); }
        }
      }
    }
  }
}
