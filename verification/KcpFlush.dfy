/**
 What one flush puts on the wire, told in the fields of the block before and after it: which
 fragments it numbers, and which segments of which kind it writes.
 */
module KcpFlush {
  import opened Bytes
  import opened KcpMachine
  import opened KcpPair
  import opened KcpSafety
  import opened KcpWrap
  import opened KcpTheorems
  import opened KcpCodec
  import opened KcpPackets

  /** The segments of one kind, in order. */
  function Of(cmd: Byte, segments: seq<Segment>): seq<Segment> {
    if segments == [] then []
    else
      var last := segments[|segments| - 1];
      Of(cmd, segments[..|segments| - 1]) + (if last.cmd == cmd then [last] else [])
  }

  lemma {:induction false} OfAppend(cmd: Byte, p: seq<Segment>, q: seq<Segment>)
    ensures Of(cmd, p + q) == Of(cmd, p) + Of(cmd, q)
    decreases |q|
  {
    if q == [] {
      assert p + q == p;
    } else {
      var n := |q| - 1;
      OfAppend(cmd, p, q[..n]);
      assert (p + q)[..|p + q| - 1] == p + q[..n];
    }
  }

  lemma {:induction false} OfAll(cmd: Byte, kind: Byte, segments: seq<Segment>)
    requires forall i :: 0 <= i < |segments| ==> segments[i].cmd == kind
    ensures Of(cmd, segments) == if cmd == kind then segments else []
  {
    if segments == [] {
    } else {
      OfAll(cmd, kind, segments[..|segments| - 1]);
    }
  }

  /** What is of a kind is there, and what is there is of its kind. */
  lemma {:induction false} OfMembers(cmd: Byte, segments: seq<Segment>)
    ensures forall x :: x in Of(cmd, segments) <==> x in segments && x.cmd == cmd
  {
    if segments == [] {
    } else {
      var n := |segments| - 1;
      OfMembers(cmd, segments[..n]);
      assert segments == segments[..n] + [segments[n]];
    }
  }

  /** What every segment of a flush tells: the conversation, the free window, the number expected. */
  predicate Heads(s: State, seg: Segment) {
    && seg.conv == s.params.conv
    && seg.una == s.rcv.nxt
    && seg.wnd == (if |s.rcv.queue| < s.params.rcvWnd then s.params.rcvWnd - |s.rcv.queue| else 0)
  }

  predicate AllHead(s: State, segments: seq<Segment>) {
    forall i :: 0 <= i < |segments| ==> Heads(s, segments[i]) && KnownCmd(segments[i].cmd)
  }

  /** One ACK for each pending acknowledgement, in order. */
  predicate AcksAre(acks: seq<Ack>, segments: seq<Segment>) {
    && |segments| == |acks|
    && forall i :: 0 <= i < |acks| ==>
      segments[i].sn == acks[i].sn && segments[i].ts == acks[i].ts && segments[i].data == []
  }

  /** The segment carries the fragment at one position of the send buffer. */
  predicate Carries(seg: Segment, x: Sent) {
    seg.cmd == CMD_PUSH && seg.sn == x.sn && seg.frg == x.fragment.frg && seg.data == x.fragment.data
  }

  /** Position `i` was only now filled, was never transmitted, or its timer asks for it again. */
  predicate MustGo(before: seq<Sent>, i: nat, resend: set<nat>) {
    i in resend || i >= |before| || !before[i].transmitted
  }

  /** `at` lists in order exactly the positions below `n` that must go. */
  ghost predicate ListsDue(at: seq<nat>, before: seq<Sent>, n: nat, resend: set<nat>) {
    && (forall k :: 0 <= k < |at| ==> at[k] < n && MustGo(before, at[k], resend))
    && (forall j, k :: 0 <= j < k < |at| ==> at[j] < at[k])
    && (forall i: nat :: i < n && MustGo(before, i, resend) ==> i in at)
  }

  ghost predicate PushesAre(at: seq<nat>, buf: seq<Sent>, now: nat, segments: seq<Segment>) {
    && |segments| == |at|
    && (forall k :: 0 <= k < |at| ==> at[k] < |buf|)
    && forall k :: 0 <= k < |at| ==> Carries(segments[k], buf[at[k]]) && segments[k].ts == now
  }

  /** The data segments written: those of the buffer that must go, each once, in order, and no other. */
  ghost predicate PushesDue(before: seq<Sent>, buf: seq<Sent>, now: nat, resend: set<nat>, segments: seq<Segment>) {
    exists at: seq<nat> :: ListsDue(at, before, |buf|, resend) && PushesAre(at, buf, now, segments)
  }

  /**
   `t` is `s` with fragments of the queue moved behind the buffer and numbered in order, and all of
   the buffer marked as transmitted.
   */
  predicate MovesQueue(num: Numbering, s: SendSide, t: SendSide) {
    var m := |t.buf| - |s.buf|;
    && 0 <= m <= |s.queue| && t.queue == s.queue[m..]
    && t.una == s.una && t.nxt == Advance(num, s.nxt, m)
    && (forall i :: 0 <= i < |s.buf| ==> t.buf[i] == s.buf[i].(transmitted := true))
    && forall j :: 0 <= j < m ==> t.buf[|s.buf| + j] == Sent(Advance(num, s.nxt, j), s.queue[j], true)
  }

  function Least(a: nat, b: nat): nat { if a <= b then a else b }

  /**
   As many fragments were numbered as the queue had, or as there was room for: both windows, the own
   and the peer's, bound how many numbers are in flight.
   */
  predicate FillsWindow(s: State, t: SendSide, inFlight: int) {
    var window := Least(s.params.sndWnd, s.rmtWnd);
    |t.buf| - |s.snd.buf| == Least(|s.snd.queue|, if inFlight < window then window - inFlight else 0)
  }

  /** Everything a flush from `s` to `t` writes. */
  ghost predicate Writes(s: State, t: State, now: nat, resend: set<nat>, probeDue: bool, written: seq<Segment>) {
    && AllHead(s, written)
    && AcksAre(s.rcv.acks, Of(CMD_ACK, written))
    && |Of(CMD_WASK, written)| == (if s.askSend || (s.rmtWnd == 0 && probeDue) then 1 else 0)
    && |Of(CMD_WINS, written)| == (if s.askTell then 1 else 0)
    && PushesDue(s.snd.buf, t.snd.buf, now, resend, Of(CMD_PUSH, written))
  }

  // ------------------------------------------------------------------ the queue

  lemma AdvanceNext(num: Numbering, n: nat, k: nat, next: nat)
    requires next == k + 1
    ensures Advance(num, Advance(num, n, 1), k) == Advance(num, n, next)
  {
    if num == Wrapping {
      assert n + 1 == WRAP * ((n + 1) / WRAP) + (n + 1) % WRAP;
      assert n + next == WRAP * ((n + 1) / WRAP) + ((n + 1) % WRAP + k);
    }
  }

  /** What filling the window makes of the sending side, before anything is marked as transmitted. */
  predicate MovesUnsent(num: Numbering, s: SendSide, t: SendSide) {
    var m := |t.buf| - |s.buf|;
    && 0 <= m <= |s.queue| && t.queue == s.queue[m..]
    && t.una == s.una && t.nxt == Advance(num, s.nxt, m)
    && (forall i :: 0 <= i < |s.buf| ==> t.buf[i] == s.buf[i])
    && forall j :: 0 <= j < m ==> t.buf[|s.buf| + j] == Sent(Advance(num, s.nxt, j), s.queue[j], false)
  }

  function OneMoved(num: Numbering, x: SendSide): SendSide
    requires x.queue != []
  {
    x.(nxt := Advance(num, x.nxt, 1), buf := x.buf + [Sent(x.nxt, x.queue[0], false)], queue := x.queue[1..])
  }

  lemma MoveOneMore(num: Numbering, s: SendSide, t: SendSide)
    requires s.queue != [] && s.nxt == Advance(num, s.nxt, 0)
    requires MovesUnsent(num, OneMoved(num, s), t)
    ensures MovesUnsent(num, s, t)
  {
    var x := OneMoved(num, s);
    var m := |t.buf| - |x.buf|;
    AdvanceNext(num, s.nxt, m, m + 1);
    forall j | 0 <= j < m + 1 ensures t.buf[|s.buf| + j] == Sent(Advance(num, s.nxt, j), s.queue[j], false) {
      if j == 0 {
        assert t.buf[|s.buf|] == x.buf[|s.buf|];
      } else {
        AdvanceNext(num, s.nxt, j - 1, j);
        assert t.buf[|x.buf| + (j - 1)] == Sent(Advance(num, x.nxt, j - 1), x.queue[j - 1], false);
      }
    }
    assert forall i :: 0 <= i < |s.buf| ==> x.buf[i] == s.buf[i];
  }

  lemma {:induction false} FillMoves(num: Numbering, s: SendSide, cwnd: nat)
    requires s.nxt == Advance(num, s.nxt, 0)
    ensures MovesUnsent(num, s, FillWindow(num, s, cwnd))
    decreases |s.queue|
  {
    if TimeDiff(num, s.nxt, Advance(num, s.una, cwnd)) >= 0 || s.queue == [] {
      assert FillWindow(num, s, cwnd) == s;
    } else {
      var x := OneMoved(num, s);
      assert FillWindow(num, s, cwnd) == FillWindow(num, x, cwnd);
      FillMoves(num, x, cwnd);
      MoveOneMore(num, s, FillWindow(num, x, cwnd));
    }
  }

  /** On numbers that never wrap: how many fragments are moved. */
  lemma {:induction false} FillCounts(s: SendSide, cwnd: nat)
    requires s.una <= s.nxt
    ensures |FillWindow(Unbounded, s, cwnd).buf| - |s.buf|
      == Least(|s.queue|, if s.nxt - s.una < cwnd then cwnd - (s.nxt - s.una) else 0)
    decreases |s.queue|
  {
    if s.nxt >= s.una + cwnd || s.queue == [] {
      assert FillWindow(Unbounded, s, cwnd) == s;
    } else {
      var x := OneMoved(Unbounded, s);
      assert FillWindow(Unbounded, s, cwnd) == FillWindow(Unbounded, x, cwnd);
      FillCounts(x, cwnd);
    }
  }

  lemma FlushMoves(num: Numbering, s: State)
    requires s.snd.nxt == Advance(num, s.snd.nxt, 0)
    ensures MovesQueue(num, s.snd, Flushed(num, s).snd)
  {
    FillMoves(num, s.snd, SendWindow(s));
  }

  // ------------------------------------------------------------------ the data segments

  /** The positions of the segments that a flush writes. */
  ghost function Places(buf: seq<Sent>, n: nat, resend: set<nat>): seq<nat>
    requires n <= |buf|
  {
    if n == 0 then [] else Places(buf, n - 1, resend) + (if Due(buf, n - 1, resend) then [n - 1] else [])
  }

  lemma CarryNext(at: seq<nat>, buf: seq<Sent>, now: nat, segments: seq<Segment>, i: nat, seg: Segment)
    requires PushesAre(at, buf, now, segments) && i < |buf| && Carries(seg, buf[i]) && seg.ts == now
    ensures PushesAre(at + [i], buf, now, segments + [seg])
  {
  }

  lemma {:induction false} PlacesCarry(h: Header, now: nat, buf: seq<Sent>, n: nat, resend: set<nat>)
    requires n <= |buf|
    ensures PushesAre(Places(buf, n, resend), buf, now, DataSegments(h, now, buf, n, resend))
  {
    if n == 0 {
    } else {
      PlacesCarry(h, now, buf, n - 1, resend);
      if Due(buf, n - 1, resend) {
        CarryNext(Places(buf, n - 1, resend), buf, now, DataSegments(h, now, buf, n - 1, resend),
          n - 1, DataSegment(h, now, buf[n - 1]));
      }
    }
  }

  lemma ListedNext(at: seq<nat>, before: seq<Sent>, n: nat, next: nat, resend: set<nat>)
    requires next == n + 1 && ListsDue(at, before, n, resend)
    ensures ListsDue(if MustGo(before, n, resend) then at + [n] else at, before, next, resend)
  {
    var after := if MustGo(before, n, resend) then at + [n] else at;
    forall i: nat | i < next && MustGo(before, i, resend) ensures i in after {
      assert i < n ==> i in at;
    }
  }

  /** Only what was in the buffer before can have been transmitted. */
  predicate SentBefore(before: seq<Sent>, buf: seq<Sent>) {
    && |before| <= |buf|
    && forall i :: 0 <= i < |buf| ==> buf[i].transmitted == (i < |before| && before[i].transmitted)
  }

  lemma DueIs(before: seq<Sent>, buf: seq<Sent>, i: nat, resend: set<nat>)
    requires SentBefore(before, buf) && i < |buf|
    ensures Due(buf, i, resend) <==> MustGo(before, i, resend)
  {
  }

  lemma NothingListed(before: seq<Sent>, resend: set<nat>)
    ensures ListsDue([], before, 0, resend)
  {
  }

  lemma PlacesNext(before: seq<Sent>, buf: seq<Sent>, n: nat, next: nat, resend: set<nat>)
    requires n < |buf| && next == n + 1 && SentBefore(before, buf)
    ensures Places(buf, next, resend)
      == if MustGo(before, n, resend) then Places(buf, n, resend) + [n] else Places(buf, n, resend)
  {
    DueIs(before, buf, n, resend);
  }

  lemma {:induction false} PlacesListed(before: seq<Sent>, buf: seq<Sent>, n: nat, resend: set<nat>)
    requires n <= |buf| && SentBefore(before, buf)
    ensures ListsDue(Places(buf, n, resend), before, n, resend)
  {
    if n == 0 {
      NothingListed(before, resend);
    } else {
      var prev := n - 1;
      PlacesListed(before, buf, prev, resend);
      ListedNext(Places(buf, prev, resend), before, prev, n, resend);
      PlacesNext(before, buf, prev, n, resend);
    }
  }

  lemma {:induction false} DataHeads(s: State, now: nat, buf: seq<Sent>, n: nat, resend: set<nat>)
    requires n <= |buf|
    ensures var segments := DataSegments(FlushHeader(s), now, buf, n, resend);
            AllHead(s, segments) && forall i :: 0 <= i < |segments| ==> segments[i].cmd == CMD_PUSH
  {
    if n == 0 {
    } else {
      DataHeads(s, now, buf, n - 1, resend);
    }
  }

  lemma DataDue(h: Header, now: nat, resend: set<nat>, before: seq<Sent>, filled: seq<Sent>)
    requires SentBefore(before, filled)
    ensures PushesDue(before, MarkTransmitted(filled), now, resend, DataSegments(h, now, filled, |filled|, resend))
  {
    var at, segments := Places(filled, |filled|, resend), DataSegments(h, now, filled, |filled|, resend);
    PlacesCarry(h, now, filled, |filled|, resend);
    PlacesListed(before, filled, |filled|, resend);
    MarkedCarry(at, filled, now, segments);
  }

  lemma MarkedCarry(at: seq<nat>, buf: seq<Sent>, now: nat, segments: seq<Segment>)
    requires PushesAre(at, buf, now, segments)
    ensures PushesAre(at, MarkTransmitted(buf), now, segments)
  {
  }

  // ------------------------------------------------------------------ all of it

  /** The three parts that a flush writes, each of its own kind. */
  lemma KindsApart(cmd: Byte, acks: seq<Segment>, probes: seq<Segment>, data: seq<Segment>)
    requires cmd == CMD_ACK || cmd == CMD_PUSH || cmd == CMD_WASK || cmd == CMD_WINS
    requires forall i :: 0 <= i < |acks| ==> acks[i].cmd == CMD_ACK
    requires forall i :: 0 <= i < |data| ==> data[i].cmd == CMD_PUSH
    ensures Of(cmd, acks + probes + data)
      == (if cmd == CMD_ACK then acks else []) + Of(cmd, probes) + (if cmd == CMD_PUSH then data else [])
  {
    OfAppend(cmd, acks + probes, data);
    OfAppend(cmd, acks, probes);
    OfAll(cmd, CMD_ACK, acks);
    OfAll(cmd, CMD_PUSH, data);
  }

  lemma ProbeKinds(cmd: Byte, h: Header, last: Ack, ask: bool, tell: bool)
    ensures |Of(cmd, ProbeSegments(h, last, ask, tell))|
      == (if ask && cmd == CMD_WASK then 1 else 0) + (if tell && cmd == CMD_WINS then 1 else 0)
  {
    var asked := ProbeSegments(h, last, ask, false);
    var told := ProbeSegments(h, last, false, tell);
    assert ProbeSegments(h, last, ask, tell) == asked + told;
    OfAppend(cmd, asked, told);
    OfAll(cmd, CMD_WASK, asked);
    OfAll(cmd, CMD_WINS, told);
  }

  lemma ControlHeads(s: State, ask: bool, tell: bool)
    ensures AllHead(s, AckSegments(FlushHeader(s), s.rcv.acks))
    ensures AllHead(s, ProbeSegments(FlushHeader(s), LastAck(s.rcv.acks), ask, tell))
  {
  }

  lemma PartsHead(s: State, acks: seq<Segment>, probes: seq<Segment>, data: seq<Segment>)
    requires AllHead(s, acks) && AllHead(s, probes) && AllHead(s, data)
    ensures AllHead(s, acks + probes + data)
  {
  }

  /** How many of each kind, and which. */
  lemma PartKinds(
      h: Header, acks: seq<Ack>, ask: bool, tell: bool, probes: seq<Segment>, data: seq<Segment>)
    requires probes == ProbeSegments(h, LastAck(acks), ask, tell)
    requires forall i :: 0 <= i < |data| ==> data[i].cmd == CMD_PUSH
    ensures var written := AckSegments(h, acks) + probes + data;
            && Of(CMD_ACK, written) == AckSegments(h, acks) && Of(CMD_PUSH, written) == data
            && |Of(CMD_WASK, written)| == (if ask then 1 else 0)
            && |Of(CMD_WINS, written)| == (if tell then 1 else 0)
  {
    forall cmd: Byte | cmd == CMD_ACK || cmd == CMD_WASK || cmd == CMD_WINS || cmd == CMD_PUSH
      ensures |Of(cmd, probes)|
        == (if ask && cmd == CMD_WASK then 1 else 0) + (if tell && cmd == CMD_WINS then 1 else 0)
      ensures Of(cmd, AckSegments(h, acks) + probes + data)
        == (if cmd == CMD_ACK then AckSegments(h, acks) else []) + Of(cmd, probes)
          + (if cmd == CMD_PUSH then data else [])
    {
      ProbeKinds(cmd, h, LastAck(acks), ask, tell);
      KindsApart(cmd, AckSegments(h, acks), probes, data);
    }
  }

  /** Whatever the state of the block: a flush writes what `Writes` says and nothing else. */
  lemma EmittedWrites(num: Numbering, s: State, now: nat, resend: set<nat>, probeDue: bool)
    requires s.snd.nxt == Advance(num, s.snd.nxt, 0)
    ensures Writes(s, Flushed(num, s), now, resend, probeDue, Emitted(num, s, now, resend, probeDue))
  {
    var h, x, ask := FlushHeader(s), Filled(num, s), AskSend(s, probeDue);
    var acks, probes := AckSegments(h, s.rcv.acks), ProbeSegments(h, LastAck(s.rcv.acks), ask, s.askTell);
    var data := DataSegments(h, now, x.buf, |x.buf|, resend);
    FillMoves(num, s.snd, SendWindow(s));
    NotSentYet(num, s.snd, x);
    DataDue(h, now, resend, s.snd.buf, x.buf);
    DataHeads(s, now, x.buf, |x.buf|, resend);
    ControlHeads(s, ask, s.askTell);
    PartsHead(s, acks, probes, data);
    PartKinds(h, s.rcv.acks, ask, s.askTell, probes, data);
    AcksCopied(h, s.rcv.acks);
  }

  lemma AcksCopied(h: Header, acks: seq<Ack>)
    ensures AcksAre(acks, AckSegments(h, acks))
  {
  }

  lemma NotSentYet(num: Numbering, s: SendSide, t: SendSide)
    requires MovesUnsent(num, s, t)
    ensures SentBefore(s.buf, t.buf)
  {
    forall i | |s.buf| <= i < |t.buf| ensures !t.buf[i].transmitted {
      var j := i - |s.buf|;
      assert t.buf[|s.buf| + j] == Sent(Advance(num, s.nxt, j), s.queue[j], false);
    }
  }

  // ------------------------------------------------------------------ in every run

  /** What a peer parses out of packets of bytes, one after the other. */
  function Heard(conv: nat, packets: seq<seq<Byte>>): seq<Segment> {
    if packets == [] then []
    else
      var last := packets[|packets| - 1];
      Heard(conv, packets[..|packets| - 1]) + Parse(conv, last, |last|).segments
  }

  /** The peer hears exactly the segments packed. */
  lemma {:induction false} PackedIsHeard(params: Params, packets: seq<seq<Segment>>)
    requires params.Valid() && params.mtu <= 0x1_0000_0000
    requires forall k :: 0 <= k < |packets| ==> TidyPacket(params, packets[k])
    ensures Heard(params.conv, EncodePackets(WrapPackets(packets))) == Concat(WrapPackets(packets))
  {
    if packets == [] {
    } else {
      var n := |packets| - 1;
      PackedIsHeard(params, packets[..n]);
      assert WrapPackets(packets)[..n] == WrapPackets(packets[..n]);
      assert EncodePackets(WrapPackets(packets))[..n] == EncodePackets(WrapPackets(packets[..n]));
      WrappedTidyParses(params, packets[n]);
    }
  }

  /** Each segment that must go is among those written, and no other of the buffer is. */
  ghost predicate ExactlyDue(before: seq<Sent>, buf: seq<Sent>, resend: set<nat>, written: seq<Segment>) {
    && (forall i: nat :: i < |buf| ==> (IsWritten(written, buf[i]) <==> MustGo(before, i, resend)))
    && (forall k :: 0 <= k < |written| && written[k].cmd == CMD_PUSH ==> IsBuffered(buf, written[k]))
    && WrittenOnce(Of(CMD_PUSH, written))
  }

  ghost predicate IsWritten(written: seq<Segment>, x: Sent) {
    exists k :: 0 <= k < |written| && Carries(written[k], x)
  }

  ghost predicate IsBuffered(buf: seq<Sent>, seg: Segment) {
    exists i :: 0 <= i < |buf| && Carries(seg, buf[i])
  }

  ghost predicate WrittenOnce(pushes: seq<Segment>) {
    forall j, k :: 0 <= j < k < |pushes| ==> pushes[j].sn != pushes[k].sn
  }

  ghost predicate DistinctSent(buf: seq<Sent>) {
    forall i, j :: 0 <= i < j < |buf| ==> buf[i].sn != buf[j].sn
  }

  /** Where a data segment stands among the data segments. */
  lemma AmongPushes(written: seq<Segment>, n: nat) returns (k: nat)
    requires n < |written| && written[n].cmd == CMD_PUSH
    ensures k < |Of(CMD_PUSH, written)| && Of(CMD_PUSH, written)[k] == written[n]
  {
    var pushes := Of(CMD_PUSH, written);
    OfMembers(CMD_PUSH, written);
    assert written[n] in pushes;
    k :| 0 <= k < |pushes| && pushes[k] == written[n];
  }

  lemma DueIsWritten(
      at: seq<nat>, before: seq<Sent>, buf: seq<Sent>, now: nat, resend: set<nat>, written: seq<Segment>, i: nat)
    requires ListsDue(at, before, |buf|, resend) && PushesAre(at, buf, now, Of(CMD_PUSH, written))
    requires i < |buf| && MustGo(before, i, resend)
    ensures IsWritten(written, buf[i])
  {
    var pushes := Of(CMD_PUSH, written);
    var k :| 0 <= k < |at| && at[k] == i;
    OfMembers(CMD_PUSH, written);
    assert Carries(pushes[k], buf[at[k]]) && pushes[k] in pushes;
  }

  lemma WrittenIsDue(
      at: seq<nat>, before: seq<Sent>, buf: seq<Sent>, now: nat, resend: set<nat>, written: seq<Segment>, n: nat)
    requires ListsDue(at, before, |buf|, resend) && PushesAre(at, buf, now, Of(CMD_PUSH, written))
    requires n < |written| && written[n].cmd == CMD_PUSH && DistinctSent(buf)
    ensures IsBuffered(buf, written[n])
    ensures forall i: nat :: i < |buf| && Carries(written[n], buf[i]) ==> MustGo(before, i, resend)
  {
    var k := AmongPushes(written, n);
    assert Carries(Of(CMD_PUSH, written)[k], buf[at[k]]);
    forall i: nat | i < |buf| && Carries(written[n], buf[i]) ensures MustGo(before, i, resend) {
      assert i == at[k];
    }
  }

  lemma DueOnce(at: seq<nat>, before: seq<Sent>, buf: seq<Sent>, now: nat, resend: set<nat>, pushes: seq<Segment>)
    requires ListsDue(at, before, |buf|, resend) && PushesAre(at, buf, now, pushes) && DistinctSent(buf)
    ensures WrittenOnce(pushes)
  {
    forall j, k | 0 <= j < k < |pushes| ensures pushes[j].sn != pushes[k].sn {
      assert Carries(pushes[j], buf[at[j]]) && Carries(pushes[k], buf[at[k]]) && at[j] < at[k];
    }
  }

  lemma DueExactly(before: seq<Sent>, buf: seq<Sent>, now: nat, resend: set<nat>, written: seq<Segment>)
    requires DistinctSent(buf) && PushesDue(before, buf, now, resend, Of(CMD_PUSH, written))
    ensures ExactlyDue(before, buf, resend, written)
  {
    var at: seq<nat> :| ListsDue(at, before, |buf|, resend) && PushesAre(at, buf, now, Of(CMD_PUSH, written));
    forall i: nat | i < |buf| ensures IsWritten(written, buf[i]) <==> MustGo(before, i, resend) {
      if MustGo(before, i, resend) { DueIsWritten(at, before, buf, now, resend, written, i); }
      if IsWritten(written, buf[i]) {
        var n :| 0 <= n < |written| && Carries(written[n], buf[i]);
        WrittenIsDue(at, before, buf, now, resend, written, n);
      }
    }
    forall n | 0 <= n < |written| && written[n].cmd == CMD_PUSH ensures IsBuffered(buf, written[n]) {
      WrittenIsDue(at, before, buf, now, resend, written, n);
    }
    DueOnce(at, before, buf, now, resend, Of(CMD_PUSH, written));
  }

  lemma WrappedDistinct(x: Node, y: Node)
    requires Link(x, y)
    ensures DistinctSent(WrapSnd(x.kcp.snd).buf)
  {
    LinkBoundsSender(x, y);
    var buf := WrapSnd(x.kcp.snd).buf;
    forall i, j | 0 <= i < j < |buf| ensures buf[i].sn != buf[j].sn {
      assert TimeDiff(Wrapping, buf[j].sn, buf[i].sn) > 0;
    }
  }

  lemma WrappedFills(x: Node, y: Node)
    requires Link(x, y)
    ensures var s := WrapState(x.kcp);
            FillsWindow(s, Flushed(Wrapping, s).snd, TimeDiff(Wrapping, s.snd.nxt, s.snd.una))
  {
    TimeDiffWord(x.kcp.snd.nxt, x.kcp.snd.una);
    FillCounts(x.kcp.snd, SendWindow(x.kcp));
    FillWindowWraps(x.kcp.snd, SendWindow(x.kcp));
  }

  /** A flush from `s` to `t` does all of this, and `heard` is what a peer parses out of its packets. */
  ghost predicate FlushTells(
      s: State, t: State, now: nat, resend: set<nat>, probeDue: bool, heard: seq<Segment>)
  {
    && MovesQueue(Wrapping, s.snd, t.snd)
    && FillsWindow(s, t.snd, TimeDiff(Wrapping, s.snd.nxt, s.snd.una))
    && Writes(s, t, now, resend, probeDue, heard)
    && ExactlyDue(s.snd.buf, t.snd.buf, resend, heard)
  }

  /**
   In every run, of either node, whatever the timers say: a flush numbers fragments until none is left
   or the window is full, and what a peer parses out of its packets is each pending ACK, the probes
   asked for, and exactly the segments of the buffer that were never transmitted or whose timer asks
   for them, each once, with number, fragment counter and bytes.
   */
  lemma FlushInEveryRun(
      pa: Params, pb: Params, moves: seq<Move>, atA: bool, now: nat, resend: set<nat>, probeDue: bool)
    requires pa.Valid() && pb.Valid() && pa.conv == pb.conv && pa.mtu <= 0x1_0000_0000 && pb.mtu <= 0x1_0000_0000
    requires Timely(pa, pb, moves) && Clocked(moves) && now < TS_LIMIT
    ensures var p := Run(Wrapping, pa, pb, moves, |moves|);
            var me, t := p.Me(atA), Act(Wrapping, p.Me(atA), p.Peer(atA), Flush(now, resend, probeDue));
            FlushTells(me.kcp, t.kcp, now, resend, probeDue, Heard(pa.conv, EncodePackets(t.out[|me.out|..])))
  {
    WrappingRefinesUnbounded(pa, pb, moves, |moves|);
    RunKeepsInv(pa, pb, moves, |moves|);
    RunTidy(Unbounded, pa, pb, moves, |moves|);
    var q := Run(Unbounded, pa, pb, moves, |moves|);
    var me := WrapNode(q.Me(atA));
    var t := Act(Wrapping, me, WrapNode(q.Peer(atA)), Flush(now, resend, probeDue));
    FlushedIsHeard(q.Me(atA), now, resend, probeDue);
    assert t.out[|me.out|..]
      == Pack(me.kcp.params.mtu, Emitted(Wrapping, WrapState(q.Me(atA).kcp), now, resend, probeDue));
    FlushDoes(q.Me(atA), q.Peer(atA), now, resend, probeDue);
  }

  lemma FlushedIsHeard(x: Node, now: nat, resend: set<nat>, probeDue: bool)
    requires Tidy(x) && x.kcp.params.mtu <= 0x1_0000_0000 && now < TS_LIMIT
    requires x.kcp.snd.una <= x.kcp.snd.nxt <= x.kcp.snd.una + 0xFFFF
    ensures var s := WrapState(x.kcp);
            var emitted := Emitted(Wrapping, s, now, resend, probeDue);
            Heard(s.params.conv, EncodePackets(Pack(s.params.mtu, emitted))) == emitted
  {
    var mtu := x.kcp.params.mtu;
    var emitted := Emitted(Unbounded, x.kcp, now, resend, probeDue);
    EmittedTidy(Unbounded, x.kcp, now, resend, probeDue);
    PackTidy(x.kcp.params, emitted);
    PackedIsHeard(x.kcp.params, Pack(mtu, emitted));
    EmittedWraps(x.kcp, now, resend, probeDue);
    PackWraps(mtu, emitted);
    ConcatWraps(Pack(mtu, emitted));
  }

  lemma FlushDoes(x: Node, y: Node, now: nat, resend: set<nat>, probeDue: bool)
    requires Link(x, y)
    ensures var s := WrapState(x.kcp);
            FlushTells(s, Flushed(Wrapping, s), now, resend, probeDue,
              Emitted(Wrapping, s, now, resend, probeDue))
  {
    var s := WrapState(x.kcp);
    FlushMoves(Wrapping, s);
    EmittedWrites(Wrapping, s, now, resend, probeDue);
    WrappedFills(x, y);
    FlushedDistinct(x, y, now, resend, probeDue);
    DueExactly(s.snd.buf, Flushed(Wrapping, s).snd.buf, now, resend, Emitted(Wrapping, s, now, resend, probeDue));
  }

  lemma FlushedDistinct(x: Node, y: Node, now: nat, resend: set<nat>, probeDue: bool)
    requires Link(x, y)
    ensures DistinctSent(Flushed(Wrapping, WrapState(x.kcp)).snd.buf)
  {
    ActKeepsOutgoing(x, y, Flush(now, resend, probeDue));
    FlushedWraps(x.kcp);
    WrappedDistinct(Act(Unbounded, x, y, Flush(now, resend, probeDue)), y);
  }

  lemma {:induction false} ConcatWraps(packets: seq<seq<Segment>>)
    ensures Concat(WrapPackets(packets)) == WrapPacket(Concat(packets))
  {
    if packets == [] {
    } else {
      var n := |packets| - 1;
      ConcatWraps(packets[..n]);
      assert WrapPackets(packets)[..n] == WrapPackets(packets[..n]);
      WrapAppend(Concat(packets[..n]), packets[n]);
    }
  }
}
