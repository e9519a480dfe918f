/**
 What `input` makes of a packet, told in the fields of the block and of the segments: which
 segments it acknowledges, which it comes to hold, and which of its own it may forget.
 */
module KcpInput {
  import opened Bytes
  import opened KcpMachine
  import opened KcpPair
  import opened KcpSender
  import opened KcpReceiver
  import opened KcpSafety
  import opened KcpWrap
  import opened KcpTheorems
  import opened KcpCodec
  import opened KcpPackets
  import opened KcpFlush

  /** The block when it reads segment `j` of the packet. */
  function When(num: Numbering, s: State, packet: seq<Segment>, j: nat): State
    requires j <= |packet|
  {
    InputAll(num, s, packet[..j])
  }

  /** Segment `j` is data from below the end of the receive window of that moment, repeated or not. */
  predicate InReach(num: Numbering, s: State, packet: seq<Segment>, j: nat)
    requires j < |packet|
  {
    && packet[j].cmd == CMD_PUSH
    && TimeDiff(num, packet[j].sn, Advance(num, When(num, s, packet, j).rcv.nxt, s.params.rcvWnd)) < 0
  }

  /** One acknowledgement for each such segment of the first `n`. */
  function AcksFor(num: Numbering, s: State, packet: seq<Segment>, n: nat): seq<Ack>
    requires n <= |packet|
  {
    if n == 0 then []
    else
      AcksFor(num, s, packet, n - 1)
      + (if InReach(num, s, packet, n - 1) then [Ack(packet[n - 1].sn, packet[n - 1].ts)] else [])
  }

  lemma {:induction false} InputNext(num: Numbering, s: State, packet: seq<Segment>, seg: Segment)
    ensures InputAll(num, s, packet + [seg]) == InputSegment(num, InputAll(num, s, packet), seg)
    decreases |packet|
  {
    if packet == [] {
      assert [] + [seg] == [seg] && [seg][1..] == [];
      assert InputAll(num, InputSegment(num, s, seg), []) == InputSegment(num, s, seg);
    } else {
      InputNext(num, InputSegment(num, s, packet[0]), packet[1..], seg);
      assert (packet + [seg])[1..] == packet[1..] + [seg];
    }
  }

  lemma WhenNext(num: Numbering, s: State, packet: seq<Segment>, j: nat, next: nat)
    requires j < |packet| && next == j + 1
    ensures When(num, s, packet, next) == InputSegment(num, When(num, s, packet, j), packet[j])
    ensures When(num, s, packet, j).params == s.params
  {
    assert packet[..next] == packet[..j] + [packet[j]];
    InputNext(num, s, packet[..j], packet[j]);
    InputKeeps(num, s, packet[..j]);
  }

  lemma AcceptAcknowledges(num: Numbering, wnd: U16, r: ReceiveSide, seg: Segment)
    ensures Accept(num, wnd, r, seg).acks
      == r.acks + (if seg.cmd == CMD_PUSH && TimeDiff(num, seg.sn, Advance(num, r.nxt, wnd)) < 0
                   then [Ack(seg.sn, seg.ts)] else [])
  {
    var t := r.(acks := r.acks + [Ack(seg.sn, seg.ts)]);
    MoveBufKeepsAcks(num, wnd, t.(buf := Insert(num, t.buf, Numbered(seg.sn, Fragment(seg.frg, seg.data)))));
  }

  /**
   Every data segment from below the end of the window is acknowledged, with its own number and time,
   in the order of the packet; nothing else is.
   */
  lemma {:induction false} InputAcknowledges(num: Numbering, s: State, packet: seq<Segment>, n: nat)
    requires n <= |packet|
    ensures When(num, s, packet, n).rcv.acks == s.rcv.acks + AcksFor(num, s, packet, n)
  {
    if n == 0 {
      assert packet[..0] == [];
    } else {
      var j := n - 1;
      InputAcknowledges(num, s, packet, j);
      WhenNext(num, s, packet, j, n);
      AcceptAcknowledges(num, s.params.rcvWnd, When(num, s, packet, j).rcv, packet[j]);
    }
  }

  lemma {:induction false} ReachIsListed(num: Numbering, s: State, packet: seq<Segment>, j: nat, n: nat)
    requires j < n <= |packet| && InReach(num, s, packet, j)
    ensures Ack(packet[j].sn, packet[j].ts) in AcksFor(num, s, packet, n)
  {
    if n == j + 1 {
    } else {
      ReachIsListed(num, s, packet, j, n - 1);
    }
  }

  // ------------------------------------------------------------------ what is held

  lemma {:induction false} MoveBufHolds(wnd: U16, r: ReceiveSide, n: nat)
    requires Held(MoveBuf(Unbounded, wnd, r), n)
    ensures Held(r, n)
    decreases |r.buf|
  {
    if r.buf != [] && r.buf[0].sn == r.nxt && |r.queue| < wnd {
      assert MoveBuf(Unbounded, wnd, r) == MoveBuf(Unbounded, wnd, Moved(r));
      MoveBufHolds(wnd, Moved(r), n);
      if n > r.nxt {
        var i :| 0 <= i < |Moved(r).buf| && Moved(r).buf[i].sn == n;
        assert r.buf[i + 1].sn == n;
      }
    }
  }

  lemma InsertHolds(r: ReceiveSide, x: Numbered, n: nat)
    requires Held(r.(buf := Insert(Unbounded, r.buf, x)), n)
    ensures Held(r, n) || n == x.sn
  {
    var buf := Insert(Unbounded, r.buf, x);
    if n >= r.nxt && n != x.sn && buf != r.buf {
      var k := FindSlot(Unbounded, r.buf, x.sn, |r.buf|).index;
      var i :| 0 <= i < |buf| && buf[i].sn == n;
      assert buf[i] == (if i < k then r.buf[i] else if i == k then x else r.buf[i - 1]);
      assert r.buf[if i < k then i else i - 1].sn == n;
    }
  }

  /** A genuine segment from below the end of the window is held from now on, and nothing else is new. */
  lemma AcceptHolds(wnd: U16, r: ReceiveSide, seg: Segment, known: seq<Fragment>, n: nat)
    requires ReceiverOk(r, wnd, known) && DataTrue(seg, known) && AcksHeld(r)
    ensures Held(Accept(Unbounded, wnd, r, seg), n)
      <==> Held(r, n) || (seg.cmd == CMD_PUSH && seg.sn < r.nxt + wnd && seg.sn == n)
  {
    var t := Accept(Unbounded, wnd, r, seg);
    AcceptExtends(wnd, r, seg, known);
    AcceptAcknowledges(Unbounded, wnd, r, seg);
    if seg.cmd == CMD_PUSH && seg.sn < r.nxt + wnd {
      assert t.acks[|r.acks|].sn == seg.sn;
    }
    if Held(t, n) && t != r {
      var acked := r.(acks := r.acks + [Ack(seg.sn, seg.ts)]);
      assert Held(r, n) <==> Held(acked, n);
      if seg.sn >= r.nxt {
        var x := Numbered(seg.sn, Fragment(seg.frg, seg.data));
        MoveBufHolds(wnd, acked.(buf := Insert(Unbounded, acked.buf, x)), n);
        InsertHolds(acked, x, n);
      }
    }
  }

  ghost predicate Reached(s: State, packet: seq<Segment>, n: nat, upTo: nat)
    requires upTo <= |packet|
  {
    exists j :: 0 <= j < upTo && InReach(Unbounded, s, packet, j) && packet[j].sn == n
  }

  /** What the receiver holds after a packet: what it held, and what of the packet was in reach. */
  lemma {:induction false} InputHolds(s: State, packet: seq<Segment>, known: seq<Fragment>, n: nat, upTo: nat)
    requires ReceiverOk(s.rcv, s.params.rcvWnd, known) && AcksHeld(s.rcv) && PacketDataTrue(packet, known)
    requires upTo <= |packet|
    ensures Held(When(Unbounded, s, packet, upTo).rcv, n) <==> Held(s.rcv, n) || Reached(s, packet, n, upTo)
  {
    if upTo == 0 {
      assert packet[..0] == [];
    } else {
      var j := upTo - 1;
      InputHolds(s, packet, known, n, j);
      WhenNext(Unbounded, s, packet, j, upTo);
      InputKeepsReceiver(s, packet[..j], known);
      assert DataTrue(packet[j], known);
      AcceptHolds(s.params.rcvWnd, When(Unbounded, s, packet, j).rcv, packet[j], known, n);
      ReachedNext(s, packet, n, j, upTo);
    }
  }

  lemma ReachedNext(s: State, packet: seq<Segment>, n: nat, j: nat, next: nat)
    requires j < |packet| && next == j + 1
    ensures Reached(s, packet, n, next)
      <==> Reached(s, packet, n, j) || (InReach(Unbounded, s, packet, j) && packet[j].sn == n)
  {
  }

  // ------------------------------------------------------------------ what may be forgotten

  /** A segment older than the one named still waits, on the other side of the wrap. */
  ghost predicate Straddles(buf: seq<Sent>, seg: Segment) {
    exists k :: 0 <= k < |buf| && seg.una <= buf[k].sn < seg.sn && Word(buf[k].sn) > Word(seg.sn)
  }

  /** Acknowledged by the number that all below have arrived, or by an ACK that names it. */
  ghost predicate Forgets(buf: seq<Sent>, seg: Segment, x: Sent) {
    x.sn < seg.una || (seg.cmd == CMD_ACK && x.sn == seg.sn && !Straddles(buf, seg))
  }

  lemma {:induction false} DropsBelow(buf: seq<Sent>, una: nat)
    requires SortedSent(buf)
    ensures exists k: nat :: k <= |buf| && DropAcked(Unbounded, buf, una) == buf[k..] && Cut(buf, una, k)
  {
    if buf == [] || buf[0].sn >= una {
      assert DropAcked(Unbounded, buf, una) == buf == buf[0..];
      assert Cut(buf, una, 0);
    } else {
      DropsBelow(buf[1..], una);
      var k: nat :| k <= |buf[1..]| && DropAcked(Unbounded, buf[1..], una) == buf[1..][k..] && Cut(buf[1..], una, k);
      var next := k + 1;
      assert buf[1..][k..] == buf[next..];
      CutNext(buf, una, k, next);
    }
  }

  /** The numbers below `una` are the first `k`. */
  ghost predicate Cut(buf: seq<Sent>, una: nat, k: nat) {
    forall i :: 0 <= i < |buf| ==> (buf[i].sn < una <==> i < k)
  }

  lemma CutNext(buf: seq<Sent>, una: nat, k: nat, next: nat)
    requires buf != [] && buf[0].sn < una && Cut(buf[1..], una, k) && next == k + 1
    ensures Cut(buf, una, next)
  {
    forall i | 0 <= i < |buf| ensures buf[i].sn < una <==> i < next {
      assert i > 0 ==> buf[i] == buf[1..][i - 1];
    }
  }

  lemma {:induction false} NoneNamed(buf: seq<Sent>, sn: nat)
    requires forall i :: 0 <= i < |buf| ==> Word(buf[i].sn) != Word(sn)
    ensures RemoveAcked(buf, sn) == buf
  {
    if buf == [] {
    } else {
      NoneNamed(buf[1..], sn);
    }
  }

  /** The word of the oldest tells whether any number up to `sn` lies across the wrap. */
  lemma OldestTells(buf: seq<Sent>, k: nat)
    requires SortedSent(buf) && k < |buf| && buf[|buf| - 1].sn < buf[0].sn + HALF
    ensures Word(buf[0].sn) <= Word(buf[k].sn)
      <==> forall i :: 0 <= i < k ==> Word(buf[i].sn) <= Word(buf[k].sn)
  {
    if Word(buf[0].sn) <= Word(buf[k].sn) {
      forall i | 0 <= i < k ensures Word(buf[i].sn) <= Word(buf[k].sn) {
        WordNext(buf[0].sn, buf[i].sn, buf[k].sn);
      }
    }
  }

  lemma StraddlesBefore(buf: seq<Sent>, seg: Segment, k: nat, m: nat)
    requires SortedSent(buf) && Cut(buf, seg.una, k) && k <= |buf| && m < |buf[k..]| && buf[k..][m].sn == seg.sn
    ensures Straddles(buf, seg) <==> exists i :: 0 <= i < m && Word(buf[k..][i].sn) > Word(seg.sn)
  {
    if Straddles(buf, seg) {
      var i :| 0 <= i < |buf| && seg.una <= buf[i].sn < seg.sn && Word(buf[i].sn) > Word(seg.sn);
      assert i >= k && buf[k..][i - k] == buf[i];
      assert i - k < m;
    }
    if i :| 0 <= i < m && Word(buf[k..][i].sn) > Word(seg.sn) {
      assert buf[k + i] == buf[k..][i];
      assert buf[k + m] == buf[k..][m];
    }
  }

  ghost predicate Spread(buf: seq<Sent>) {
    SortedSent(buf) && (buf != [] ==> buf[|buf| - 1].sn < buf[0].sn + HALF)
  }

  lemma WithoutOne(buf: seq<Sent>, m: nat, x: Sent)
    requires SortedSent(buf) && m < |buf|
    ensures x in buf[..m] + buf[m + 1..] <==> x in buf && x.sn != buf[m].sn
  {
    var rest := buf[..m] + buf[m + 1..];
    if x in buf && x.sn != buf[m].sn {
      var i :| 0 <= i < |buf| && buf[i] == x;
      assert rest[if i < m then i else i - 1] == x;
    }
    if x in rest {
      var i :| 0 <= i < |rest| && rest[i] == x;
      assert buf[if i < m then i else i + 1] == x;
    }
  }

  /** An ACK that names a buffered segment removes it and no other, unless an older one lies across the wrap. */
  lemma AckForgets(buf: seq<Sent>, seg: Segment, k: nat, m: nat, x: Sent)
    requires Spread(buf) && Cut(buf, seg.una, k) && k <= |buf| && m < |buf[k..]| && buf[k..][m].sn == seg.sn
    ensures x in RemoveAcked(buf[k..], seg.sn)
      <==> x in buf[k..] && !(x.sn == seg.sn && !Straddles(buf, seg))
  {
    var rest := buf[k..];
    AckRemovesIff(rest, m);
    OldestTells(rest, m);
    StraddlesBefore(buf, seg, k, m);
    WithoutOne(rest, m, x);
  }

  lemma NothingNamed(buf: seq<Sent>, sn: nat)
    requires Spread(buf) && forall i :: 0 <= i < |buf| ==> buf[i].sn != sn
    requires buf != [] ==> buf[0].sn <= sn < buf[0].sn + HALF
    ensures RemoveAcked(buf, sn) == buf
  {
    forall i | 0 <= i < |buf| ensures Word(buf[i].sn) != Word(sn) {
      assert buf[0].sn <= buf[i].sn <= buf[|buf| - 1].sn;
      WordsTell(buf[i].sn, sn);
    }
    NoneNamed(buf, sn);
  }

  lemma AfterCut(buf: seq<Sent>, una: nat, k: nat, x: Sent)
    requires Cut(buf, una, k) && k <= |buf|
    ensures x in buf[k..] <==> x in buf && x.sn >= una
  {
    if x in buf && x.sn >= una {
      var i :| 0 <= i < |buf| && buf[i] == x;
      assert buf[k..][i - k] == x;
    }
    if x in buf[k..] {
      var i :| 0 <= i < |buf[k..]| && buf[k..][i] == x;
      assert buf[k + i] == x;
    }
  }

  lemma SafeSpread(s: SendSide, stream: seq<Fragment>, wnd: U16, r: ReceiveSide)
    requires SenderSafe(s, stream, wnd, r)
    ensures InOrder(s)
  {
  }

  /** All of the buffer is in flight, in order, and spans less than half the number space. */
  ghost predicate InOrder(s: SendSide) {
    && Spread(s.buf) && s.nxt < s.una + HALF
    && forall i :: 0 <= i < |s.buf| ==> s.una <= s.buf[i].sn < s.nxt
  }

  /** What a segment makes the sender forget is exactly what `Forgets` says. */
  lemma AcknowledgeForgets(s: SendSide, seg: Segment, x: Sent)
    requires InOrder(s)
    ensures x in Acknowledge(Unbounded, s, seg).buf <==> x in s.buf && !Forgets(s.buf, seg, x)
  {
    DropsBelow(s.buf, seg.una);
    var k: nat :| k <= |s.buf| && DropAcked(Unbounded, s.buf, seg.una) == s.buf[k..] && Cut(s.buf, seg.una, k);
    AfterCut(s.buf, seg.una, k, x);
    if seg.cmd == CMD_ACK {
      NamedForgets(s, seg, k, x);
    }
  }

  lemma NamedForgets(s: SendSide, seg: Segment, k: nat, x: Sent)
    requires InOrder(s) && Cut(s.buf, seg.una, k) && k <= |s.buf|
    ensures x in ParseAck(Unbounded, Shrink(s.(buf := s.buf[k..])), seg.sn).buf
      <==> x in s.buf[k..] && !(x.sn == seg.sn && !Straddles(s.buf, seg))
  {
    var t := Shrink(s.(buf := s.buf[k..]));
    if m :| 0 <= m < |t.buf| && t.buf[m].sn == seg.sn {
      AckForgets(s.buf, seg, k, m, x);
    } else if t.una <= seg.sn < t.nxt {
      NothingNamed(t.buf, seg.sn);
    }
  }

  // ------------------------------------------------------------------ in every run

  /** The sending side after segment `j`, against what it was when it read the segment. */
  ghost predicate ForgetsAt(s: State, packet: seq<Segment>, j: nat)
    requires j < |packet|
  {
    var before, after := When(Unbounded, s, packet, j).snd, When(Unbounded, s, packet, j + 1).snd;
    && after.queue == before.queue && after.nxt == before.nxt
    && after.una == (if after.buf == [] then after.nxt else after.buf[0].sn)
    && SortedSent(after.buf)
    && forall x :: x in after.buf <==> x in before.buf && !Forgets(before.buf, packet[j], x)
  }

  ghost predicate AsksWindow(packet: seq<Segment>) {
    exists j :: 0 <= j < |packet| && packet[j].cmd == CMD_WASK
  }

  /** What a packet makes of a block: `t` is the block after it. */
  ghost predicate Reads(s: State, packet: seq<Segment>, t: State) {
    && t.rcv.acks == s.rcv.acks + AcksFor(Unbounded, s, packet, |packet|)
    && (forall n: nat :: Held(t.rcv, n) <==> Held(s.rcv, n) || Reached(s, packet, n, |packet|))
    && (forall j :: 0 <= j < |packet| ==> ForgetsAt(s, packet, j))
    && t.rmtWnd == (if packet == [] then s.rmtWnd else packet[|packet| - 1].wnd)
    && (t.askTell <==> s.askTell || AsksWindow(packet))
  }

  lemma ReadsSegment(s: State, packet: seq<Segment>, j: nat, stream: seq<Fragment>, r: ReceiveSide)
    requires SenderSafe(s.snd, stream, s.params.sndWnd, r) && PacketAckTrue(packet, r) && j < |packet|
    ensures ForgetsAt(s, packet, j)
  {
    var before := When(Unbounded, s, packet, j).snd;
    InputKeepsSender(s, packet[..j], stream, s.params.sndWnd, r);
    WhenNext(Unbounded, s, packet, j, j + 1);
    assert AckTrue(packet[j], r);
    AcknowledgeKeepsSafe(before, stream, s.params.sndWnd, r, packet[j]);
    SafeSpread(before, stream, s.params.sndWnd, r);
    forall x ensures x in Acknowledge(Unbounded, before, packet[j]).buf
                 <==> x in before.buf && !Forgets(before.buf, packet[j], x)
    {
      AcknowledgeForgets(before, packet[j], x);
    }
  }

  lemma {:induction false} InputTells(num: Numbering, s: State, packet: seq<Segment>)
    ensures var t := InputAll(num, s, packet);
            && t.rmtWnd == (if packet == [] then s.rmtWnd else packet[|packet| - 1].wnd)
            && (t.askTell <==> s.askTell || AsksWindow(packet))
    decreases |packet|
  {
    if packet == [] {
    } else {
      var n := |packet| - 1;
      InputTells(num, s, packet[..n]);
      WhenNext(num, s, packet, n, n + 1);
      assert packet[..n + 1] == packet;
    }
  }

  lemma InputReads(x: Node, y: Node, index: nat)
    requires Link(x, y) && Link(y, x) && index < |y.out|
    ensures Reads(x.kcp, y.out[index], Act(Unbounded, x, y, Deliver(index)).kcp)
  {
    var s, packet := x.kcp, y.out[index];
    assert packet[..|packet|] == packet;
    InputAcknowledges(Unbounded, s, packet, |packet|);
    forall n: nat ensures Held(InputAll(Unbounded, s, packet).rcv, n)
                      <==> Held(s.rcv, n) || Reached(s, packet, n, |packet|)
    {
      InputHolds(s, packet, Known(y), n, |packet|);
    }
    forall j | 0 <= j < |packet| ensures ForgetsAt(s, packet, j) {
      ReadsSegment(s, packet, j, Sending(x), y.kcp.rcv);
    }
    InputTells(Unbounded, s, packet);
  }

  /**
   In every run, whenever a packet is delivered, on the numbers that the words of the machine stand for:
   each data segment from below the end of the window is acknowledged, new or repeated, and held from
   then on, and nothing else is; and the sender forgets exactly what each segment acknowledges.
   */
  lemma InputInEveryRun(pa: Params, pb: Params, moves: seq<Move>, n: nat, atA: bool, index: nat)
    requires pa.Valid() && pb.Valid() && Timely(pa, pb, moves)
    requires n < |moves| && moves[n] == Move(atA, Deliver(index))
    requires index < |Run(Unbounded, pa, pb, moves, n).Peer(atA).out|
    ensures var p, q := Run(Unbounded, pa, pb, moves, n), Run(Unbounded, pa, pb, moves, n + 1);
            && Run(Wrapping, pa, pb, moves, n) == WrapPair(p) && Run(Wrapping, pa, pb, moves, n + 1) == WrapPair(q)
            && Reads(p.Me(atA).kcp, p.Peer(atA).out[index], q.Me(atA).kcp)
  {
    WrappingRefinesUnbounded(pa, pb, moves, n);
    WrappingRefinesUnbounded(pa, pb, moves, n + 1);
    RunKeepsInv(pa, pb, moves, n);
    var p := Run(Unbounded, pa, pb, moves, n);
    InputReads(p.Me(atA), p.Peer(atA), index);
  }

  ghost predicate IsAcknowledged(heard: seq<Segment>, sn: nat, ts: nat) {
    exists k :: 0 <= k < |heard| && heard[k].cmd == CMD_ACK && heard[k].sn == sn && heard[k].ts == ts
  }

  /** What waits to be acknowledged is acknowledged by the next flush. */
  lemma AckIsWritten(acks: seq<Ack>, heard: seq<Segment>, sn: nat, ts: nat)
    requires AcksAre(acks, Of(CMD_ACK, heard)) && Ack(sn, ts) in acks
    ensures IsAcknowledged(heard, sn, ts)
  {
    var k :| 0 <= k < |acks| && acks[k] == Ack(sn, ts);
    OfMembers(CMD_ACK, heard);
    assert Of(CMD_ACK, heard)[k] in heard;
  }

  lemma ReachIsPending(num: Numbering, s: State, packet: seq<Segment>, j: nat)
    requires j < |packet| && InReach(num, s, packet, j)
    ensures Ack(packet[j].sn, packet[j].ts) in InputAll(num, s, packet).rcv.acks
  {
    assert packet[..|packet|] == packet;
    InputAcknowledges(num, s, packet, |packet|);
    ReachIsListed(num, s, packet, j, |packet|);
  }

  lemma PendingIsWritten(
      pa: Params, pb: Params, moves: seq<Move>, atA: bool, sn: nat, ts: nat,
      now: nat, resend: set<nat>, probeDue: bool)
    requires pa.Valid() && pb.Valid() && pa.conv == pb.conv && pa.mtu <= 0x1_0000_0000 && pb.mtu <= 0x1_0000_0000
    requires Timely(pa, pb, moves) && Clocked(moves) && now < TS_LIMIT
    requires Ack(sn, ts) in Run(Wrapping, pa, pb, moves, |moves|).Me(atA).kcp.rcv.acks
    ensures var q := Run(Wrapping, pa, pb, moves, |moves|);
            var me, t := q.Me(atA), Act(Wrapping, q.Me(atA), q.Peer(atA), Flush(now, resend, probeDue));
            IsAcknowledged(Heard(pa.conv, EncodePackets(t.out[|me.out|..])), sn, ts)
  {
    FlushInEveryRun(pa, pb, moves, atA, now, resend, probeDue);
    var q := Run(Wrapping, pa, pb, moves, |moves|);
    var me, t := q.Me(atA), Act(Wrapping, q.Me(atA), q.Peer(atA), Flush(now, resend, probeDue));
    AckIsWritten(me.kcp.rcv.acks, Heard(pa.conv, EncodePackets(t.out[|me.out|..])), sn, ts);
  }

  /**
   After a data segment from below the end of the window has been delivered, new or repeated, the
   receiver's next flush acknowledges it: a peer that parses the packets finds its number and time.
   */
  lemma DeliveredIsAcknowledged(
      pa: Params, pb: Params, moves: seq<Move>, atA: bool, index: nat, j: nat,
      now: nat, resend: set<nat>, probeDue: bool)
    requires pa.Valid() && pb.Valid() && pa.conv == pb.conv && pa.mtu <= 0x1_0000_0000 && pb.mtu <= 0x1_0000_0000
    requires Timely(pa, pb, moves) && Clocked(moves) && now < TS_LIMIT
    requires moves != [] && moves[|moves| - 1] == Move(atA, Deliver(index))
    requires var p := Run(Wrapping, pa, pb, moves, |moves| - 1);
             && index < |p.Peer(atA).out| && j < |p.Peer(atA).out[index]|
             && InReach(Wrapping, p.Me(atA).kcp, p.Peer(atA).out[index], j)
    ensures var seg := Run(Wrapping, pa, pb, moves, |moves| - 1).Peer(atA).out[index][j];
            var q := Run(Wrapping, pa, pb, moves, |moves|);
            var me, t := q.Me(atA), Act(Wrapping, q.Me(atA), q.Peer(atA), Flush(now, resend, probeDue));
            IsAcknowledged(Heard(pa.conv, EncodePackets(t.out[|me.out|..])), seg.sn, seg.ts)
  {
    var p := Run(Wrapping, pa, pb, moves, |moves| - 1);
    var packet := p.Peer(atA).out[index];
    ReachIsPending(Wrapping, p.Me(atA).kcp, packet, j);
    assert Run(Wrapping, pa, pb, moves, |moves|).Me(atA).kcp == InputAll(Wrapping, p.Me(atA).kcp, packet);
    PendingIsWritten(pa, pb, moves, atA, packet[j].sn, packet[j].ts, now, resend, probeDue);
  }

  // ------------------------------------------------------------------ handing over

  /** The next message of the peer is complete in the receive queue. */
  ghost predicate NextIsThere(sent: seq<Message>, mss: nat, y: Node)
    requires mss > 0
  {
    |y.got| < |sent| && Fragments(mss, sent[|y.got|]) <= y.kcp.rcv.queue
  }

  /** What `recv` makes of a block: `t` is the node after it. */
  ghost predicate HandsOver(sent: seq<Message>, mss: nat, y: Node, t: Node)
    requires mss > 0
  {
    if !NextIsThere(sent, mss, y) then t == y
    else
      && t.got == y.got + [sent[|y.got|]] && t.out == y.out && t.kcp.snd == y.kcp.snd
      && t.kcp.rcv.acks == y.kcp.rcv.acks
      && (forall n: nat :: Held(t.kcp.rcv, n) <==> Held(y.kcp.rcv, n))
      && (t.kcp.askTell <==>
        y.kcp.askTell || (|y.kcp.rcv.queue| >= y.kcp.params.rcvWnd && |t.kcp.rcv.queue| < y.kcp.params.rcvWnd))
  }

  /** Once every fragment is there a message can be peeked, and only then. */
  lemma PeekedIff(mss: nat, sent: seq<Message>, y: Node)
    requires mss > 0 && Countable(mss, sent) && Delivered(mss, sent, y.got, y.kcp.rcv)
    ensures PeekSize(y.kcp.rcv.queue).Ok? <==> NextIsThere(sent, mss, y)
  {
    if PeekSize(y.kcp.rcv.queue).Ok? { WholeMessageQueued(mss, sent, y.got, y.kcp.rcv); }
    if NextIsThere(sent, mss, y) { FrontIsMessage(mss, sent[|y.got|], y.kcp.rcv.queue); }
  }

  lemma DrainHandsOver(x: Node, y: Node)
    requires Link(x, y)
    ensures HandsOver(x.sent, x.kcp.params.Mss(), y, Act(Unbounded, y, x, Drain))
  {
    var mss, r, wnd := x.kcp.params.Mss(), y.kcp.rcv, y.kcp.params.rcvWnd;
    PeekedIff(mss, x.sent, y);
    if NextIsThere(x.sent, mss, y) {
      FrontIsNextMessage(mss, x.sent, y.got, r);
      var popped := r.(queue := r.queue[MessageEnd(r.queue)..]);
      MoveBufExtends(wnd, popped, Known(x));
      forall n: nat ensures Held(MoveBuf(Unbounded, wnd, popped), n) <==> Held(r, n) {
        assert Held(popped, n) <==> Held(r, n);
        if Held(MoveBuf(Unbounded, wnd, popped), n) { MoveBufHolds(wnd, popped, n); }
      }
    }
  }

  /**
   In every run: `recv` hands over the peer's next message exactly when every fragment of it is there, and
   announces the window when that opens it.
   */
  lemma DrainInEveryRun(pa: Params, pb: Params, moves: seq<Move>, n: nat, atA: bool)
    requires pa.Valid() && pb.Valid() && Timely(pa, pb, moves) && n < |moves| && moves[n] == Move(atA, Drain)
    ensures var p, q := Run(Unbounded, pa, pb, moves, n), Run(Unbounded, pa, pb, moves, n + 1);
            && Run(Wrapping, pa, pb, moves, n) == WrapPair(p) && Run(Wrapping, pa, pb, moves, n + 1) == WrapPair(q)
            && HandsOver(p.Peer(atA).sent, p.Peer(atA).kcp.params.Mss(), p.Me(atA), q.Me(atA))
  {
    WrappingRefinesUnbounded(pa, pb, moves, n);
    WrappingRefinesUnbounded(pa, pb, moves, n + 1);
    RunKeepsInv(pa, pb, moves, n);
    var p := Run(Unbounded, pa, pb, moves, n);
    DrainHandsOver(p.Peer(atA), p.Me(atA));
  }
}
