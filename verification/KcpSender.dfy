/** What acknowledgements and flushes do to the sending side, on numbers that never wrap. */
module KcpSender {
  import opened KcpMachine
  import opened KcpPair

  /** `after` keeps part of `before`, and what it gave up the receiver holds. */
  ghost predicate Trimmed(before: seq<Sent>, after: seq<Sent>, r: ReceiveSide) {
    && SortedSent(after)
    && (forall i :: 0 <= i < |after| ==> after[i] in before)
    && (forall i :: 0 <= i < |before| ==> before[i] in after || Held(r, before[i].sn))
  }

  lemma {:induction false} DropAckedTrims(buf: seq<Sent>, una: nat, r: ReceiveSide)
    requires SortedSent(buf) && una <= r.nxt
    ensures Trimmed(buf, DropAcked(Unbounded, buf, una), r)
  {
    if buf == [] || TimeDiff(Unbounded, una, buf[0].sn) <= 0 {
    } else {
      DropAckedTrims(buf[1..], una, r);
      TailTrims(buf, DropAcked(Unbounded, buf[1..], una), r);
    }
  }

  /** Numbers less than half the space apart differ as words when they differ at all. */
  lemma WordsTell(m: nat, n: nat)
    requires -HALF < m - n < HALF
    ensures Word(m) == Word(n) ==> m == n
  {
    if Word(m) == Word(n) {
      assert m == WRAP * (m / WRAP) + Word(m) && n == WRAP * (n / WRAP) + Word(n);
      assert m - n == WRAP * (m / WRAP - n / WRAP);
    }
  }

  /**
   The word comparison removes the named segment or nothing: two numbers of the window
   that share a word are the same number.
   */
  lemma {:induction false} RemoveAckedTrims(buf: seq<Sent>, sn: nat, lo: nat, r: ReceiveSide)
    requires SortedSent(buf) && Held(r, sn)
    requires lo <= sn < lo + HALF
    requires forall i :: 0 <= i < |buf| ==> lo <= buf[i].sn < lo + HALF
    ensures Trimmed(buf, RemoveAcked(buf, sn), r)
  {
    if buf == [] {
    } else {
      WordsTell(sn, buf[0].sn);
      if Word(sn) == Word(buf[0].sn) {
        TailTrims(buf, buf[1..], r);
      } else if Word(sn) > Word(buf[0].sn) {
        RemoveAckedTrims(buf[1..], sn, lo, r);
        TailTrims(buf, RemoveAcked(buf[1..], sn), r);
      }
    }
  }

  lemma WordsInOrder(m: nat, n: nat)
    requires m <= n < m + HALF
    ensures Word(m) <= Word(n) <==> Word(n) - Word(m) == n - m
  {
    assert m == WRAP * (m / WRAP) + Word(m) && n == WRAP * (n / WRAP) + Word(n);
    assert n - m == WRAP * (n / WRAP - m / WRAP) + Word(n) - Word(m);
  }

  /**
   Because numbers are compared as plain words, an ACK for a buffered segment removes it
   exactly when its word is not below the word of the oldest buffered segment; otherwise
   the ACK is ignored.
   */
  lemma {:induction false} AckRemovesIff(buf: seq<Sent>, k: nat)
    requires SortedSent(buf) && k < |buf| && buf[|buf| - 1].sn < buf[0].sn + HALF
    ensures Word(buf[0].sn) <= Word(buf[k].sn) ==> RemoveAcked(buf, buf[k].sn) == buf[..k] + buf[k + 1..]
    ensures Word(buf[0].sn) > Word(buf[k].sn) ==> RemoveAcked(buf, buf[k].sn) == buf
  {
    var first, sn := buf[0].sn, buf[k].sn;
    if Word(first) == Word(sn) {
      WordsTell(first, sn);
    } else if Word(first) < Word(sn) {
      assert k > 0 && buf[1..][k - 1] == buf[k];
      WordNext(first, buf[1].sn, sn);
      AckRemovesIff(buf[1..], k - 1);
      RemovedLater(buf, sn, k);
    }
  }

  lemma RemovedLater(buf: seq<Sent>, sn: nat, k: nat)
    requires 0 < k < |buf| && Word(buf[0].sn) < Word(sn)
    requires RemoveAcked(buf[1..], sn) == buf[1..][..k - 1] + buf[1..][k..]
    ensures RemoveAcked(buf, sn) == buf[..k] + buf[k + 1..]
  {
    assert buf[1..][..k - 1] == buf[1..k] && buf[1..][k..] == buf[k + 1..];
  }

  /** Between two numbers that did not wrap, none has wrapped. */
  lemma WordNext(first: nat, next: nat, sn: nat)
    requires first <= next <= sn < first + HALF && Word(first) <= Word(sn)
    ensures Word(next) <= Word(sn)
  {
    WordsInOrder(first, sn);
    assert next == WRAP * (first / WRAP) + (Word(first) + next - first);
    assert next / WRAP == first / WRAP;
  }

  /** Such an ACK exists: the buffer straddles the wrap, and the second segment stays in it. */
  lemma AckAcrossTheWrapIsIgnored()
    ensures var buf := [Sent(WRAP - 1, Fragment(0, []), true), Sent(WRAP, Fragment(0, []), true)];
            RemoveAcked(buf, WRAP) == buf
  {
    assert Word(WRAP) == 0 && Word(WRAP - 1) == WRAP - 1;
  }

  /** What is kept of the tail is in the whole, after its head. */
  lemma TailMembers(buf: seq<Sent>, x: Sent)
    requires buf != [] && SortedSent(buf) && x in buf[1..]
    ensures x in buf && buf[0].sn < x.sn
  {
    var i :| 0 <= i < |buf[1..]| && buf[1..][i] == x;
    assert buf[i + 1] == x;
  }

  lemma TailCovers(buf: seq<Sent>, tail: seq<Sent>, r: ReceiveSide)
    requires buf != []
    requires forall i :: 0 <= i < |buf[1..]| ==> buf[1..][i] in tail || Held(r, buf[1..][i].sn)
    ensures forall i :: 0 < i < |buf| ==> buf[i] in tail || Held(r, buf[i].sn)
  {
    forall i | 0 < i < |buf| ensures buf[i] in tail || Held(r, buf[i].sn) {
      assert buf[i] == buf[1..][i - 1];
    }
  }

  lemma HeadSorts(x: Sent, tail: seq<Sent>)
    requires SortedSent(tail) && forall j :: 0 <= j < |tail| ==> x.sn < tail[j].sn
    ensures SortedSent([x] + tail)
  {
  }

  /** Trimming the tail trims the whole, whether the head is kept or was held. */
  lemma TailTrims(buf: seq<Sent>, tail: seq<Sent>, r: ReceiveSide)
    requires buf != [] && SortedSent(buf) && Trimmed(buf[1..], tail, r)
    ensures Trimmed(buf, [buf[0]] + tail, r)
    ensures Held(r, buf[0].sn) ==> Trimmed(buf, tail, r)
  {
    forall j | 0 <= j < |tail| ensures tail[j] in buf && buf[0].sn < tail[j].sn {
      TailMembers(buf, tail[j]);
    }
    HeadSorts(buf[0], tail);
    TailCovers(buf, tail, r);
    var whole := [buf[0]] + tail;
    forall i | 0 <= i < |buf| ensures buf[i] in whole || Held(r, buf[i].sn) {
      assert buf[i] in tail ==> buf[i] in whole;
    }
  }

  lemma TrimKeepsSafe(s: SendSide, stream: seq<Fragment>, wnd: U16, r: ReceiveSide, after: seq<Sent>)
    requires SenderSafe(s, stream, wnd, r) && Trimmed(s.buf, after, r)
    ensures SenderSafe(Shrink(s.(buf := after)), stream, wnd, r)
    ensures Shrink(s.(buf := after)).una >= s.una
  {
    var t := Shrink(s.(buf := after));
    forall n: nat | n < s.nxt ensures Kept(t, r, n) {
      assert Kept(s, r, n);
      if Buffered(s.buf, n) {
        var i :| 0 <= i < |s.buf| && s.buf[i].sn == n;
        assert s.buf[i] in after || Held(r, n);
      }
    }
  }

  lemma AcknowledgeKeepsSafe(s: SendSide, stream: seq<Fragment>, wnd: U16, r: ReceiveSide, seg: Segment)
    requires SenderSafe(s, stream, wnd, r) && AckTrue(seg, r)
    ensures SenderSafe(Acknowledge(Unbounded, s, seg), stream, wnd, r)
    ensures Acknowledge(Unbounded, s, seg).nxt == s.nxt
    ensures Acknowledge(Unbounded, s, seg).queue == s.queue
  {
    DropAckedTrims(s.buf, seg.una, r);
    var dropped := DropAcked(Unbounded, s.buf, seg.una);
    TrimKeepsSafe(s, stream, wnd, r, dropped);
    var t := Shrink(s.(buf := dropped));
    if seg.cmd == CMD_ACK && t.una <= seg.sn < t.nxt {
      RemoveAckedTrims(t.buf, seg.sn, t.una, r);
      TrimKeepsSafe(t, stream, wnd, r, RemoveAcked(t.buf, seg.sn));
    } else {
      assert Trimmed(t.buf, t.buf, r);
      TrimKeepsSafe(t, stream, wnd, r, t.buf);
    }
  }

  // ---------------------------------------------------------------- flushing

  lemma {:induction false} FillWindowKeepsSafe(
      s: SendSide, stream: seq<Fragment>, wnd: U16, cwnd: nat, r: ReceiveSide)
    requires SenderSafe(s, stream, wnd, r) && cwnd <= wnd
    ensures SenderSafe(FillWindow(Unbounded, s, cwnd), stream, wnd, r)
    ensures FillWindow(Unbounded, s, cwnd).nxt >= s.nxt
    decreases |s.queue|
  {
    if TimeDiff(Unbounded, s.nxt, Advance(Unbounded, s.una, cwnd)) >= 0 || s.queue == [] {
    } else {
      var x := Sent(s.nxt, s.queue[0], false);
      var t := s.(nxt := Advance(Unbounded, s.nxt, 1), buf := s.buf + [x], queue := s.queue[1..]);
      assert stream[s.nxt..][0] == stream[s.nxt];
      assert stream[t.nxt..] == stream[s.nxt..][1..];
      forall n: nat | n < t.nxt ensures Kept(t, r, n) {
        if n == s.nxt {
          assert t.buf[|s.buf|].sn == n;
        } else {
          assert Kept(s, r, n);
          if Buffered(s.buf, n) {
            var i :| 0 <= i < |s.buf| && s.buf[i].sn == n;
            assert t.buf[i].sn == n;
          }
        }
      }
      FillWindowKeepsSafe(t, stream, wnd, cwnd, r);
    }
  }

  lemma MarkKeepsSafe(s: SendSide, stream: seq<Fragment>, wnd: U16, r: ReceiveSide)
    requires SenderSafe(s, stream, wnd, r)
    ensures SenderSafe(s.(buf := MarkTransmitted(s.buf)), stream, wnd, r)
  {
    var t := s.(buf := MarkTransmitted(s.buf));
    forall n: nat | n < s.nxt ensures Kept(t, r, n) {
      assert Kept(s, r, n);
      if Buffered(s.buf, n) {
        var i :| 0 <= i < |s.buf| && s.buf[i].sn == n;
        assert t.buf[i].sn == n;
      }
    }
  }

  lemma {:induction false} DataSegmentsTrue(
      h: Header, now: nat, buf: seq<Sent>, n: nat, resend: set<nat>, known: seq<Fragment>)
    requires n <= |buf|
    requires forall i :: 0 <= i < |buf| ==> buf[i].sn < |known| && buf[i].fragment == known[buf[i].sn]
    ensures PacketDataTrue(DataSegments(h, now, buf, n, resend), known)
  {
    if n == 0 {
    } else {
      DataSegmentsTrue(h, now, buf, n - 1, resend, known);
    }
  }

  ghost predicate Within(part: seq<Segment>, whole: seq<Segment>) {
    forall i :: 0 <= i < |part| ==> part[i] in whole
  }

  ghost predicate AllWithin(packets: seq<seq<Segment>>, whole: seq<Segment>) {
    forall k :: 0 <= k < |packets| ==> Within(packets[k], whole)
  }

  /** Every member of every packet was among the segments packed. */
  lemma {:induction false} PutAllMembers(mtu: nat, segments: seq<Segment>, n: nat)
    requires n <= |segments|
    ensures AllWithin(PutAll(mtu, segments, n).done, segments)
    ensures Within(PutAll(mtu, segments, n).open, segments)
  {
    if n == 0 {
    } else {
      PutAllMembers(mtu, segments, n - 1);
      var p, q := PutAll(mtu, segments, n - 1), PutAll(mtu, segments, n);
      forall k | 0 <= k < |q.done| ensures Within(q.done[k], segments) {
        assert q.done[k] == if k < |p.done| then p.done[k] else p.open;
      }
      assert q.open == p.open + [segments[n - 1]] || q.open == [segments[n - 1]];
    }
  }

  lemma PackMembers(mtu: nat, segments: seq<Segment>)
    ensures AllWithin(Pack(mtu, segments), segments)
  {
    PutAllMembers(mtu, segments, |segments|);
  }
}
