/**
 The reliable-transport control block as a pure machine: what each operation makes of
 the block's state.  The block counts segments in wrapping 32-bit numbers.  The same
 machine can be run on numbers that never wrap, and everything below takes the
 numbering as its first argument; `KcpWrap` proves that the two runs agree.
 */
module KcpMachine {
  import opened Bytes

  const WRAP: int := 0x1_0000_0000
  const HALF: int := 0x8000_0000
  const OVERHEAD: nat := 28

  const CMD_PUSH: Byte := 81
  const CMD_ACK: Byte := 82
  const CMD_WASK: Byte := 83
  const CMD_WINS: Byte := 84

  type U16 = x: int | 0 <= x < 0x1_0000

  datatype Numbering = Wrapping | Unbounded

  /** Signed distance between two sequence numbers. */
  function TimeDiff(num: Numbering, later: nat, earlier: nat): int {
    match num
    case Unbounded => later - earlier
    case Wrapping =>
      var d := (later - earlier) % WRAP;
      if d >= HALF then d - WRAP else d
  }

  function Advance(num: Numbering, n: nat, k: nat): nat {
    match num
    case Unbounded => n + k
    case Wrapping => (n + k) % WRAP
  }

  /** The 32-bit word that stands for a sequence number. */
  function Word(n: nat): nat { n % WRAP }

  /** One fragment of a message; `frg` counts the fragments still to come. */
  datatype Fragment = Fragment(frg: Byte, data: seq<Byte>)

  /** A fragment that has been given its sequence number. */
  datatype Numbered = Numbered(sn: nat, fragment: Fragment)

  /** A numbered fragment waiting for its acknowledgement. */
  datatype Sent = Sent(sn: nat, fragment: Fragment, transmitted: bool)

  datatype Segment = Segment(
    conv: nat, cmd: Byte, frg: Byte, wnd: U16, ts: nat, sn: nat, una: nat, data: seq<Byte>)

  datatype Params = Params(conv: nat, mtu: nat, sndWnd: U16, rcvWnd: U16) {
    predicate Valid() { mtu > OVERHEAD && conv < 0x1_0000_0000_0000_0000 }

    /** Maximum segment size. */
    function Mss(): (mss: nat)
      requires Valid()
      ensures mss > 0
    {
      mtu - OVERHEAD
    }
  }

  datatype Ack = Ack(sn: nat, ts: nat)

  /** `snd_una`, `snd_nxt`, `snd_queue` and `snd_buf`. */
  datatype SendSide = SendSide(una: nat, nxt: nat, queue: seq<Fragment>, buf: seq<Sent>)

  /** `rcv_nxt`, `rcv_buf`, `rcv_queue` and `acklist`. */
  datatype ReceiveSide = ReceiveSide(nxt: nat, buf: seq<Numbered>, queue: seq<Fragment>, acks: seq<Ack>)

  datatype State = State(
    params: Params, snd: SendSide, rcv: ReceiveSide, rmtWnd: U16, askSend: bool, askTell: bool)
  {
    /** How many segments wait to be sent or acknowledged. */
    function WaitSnd(): nat { |snd.buf| + |snd.queue| }

    /** The free part of the receive window, as the peer is told it. */
    function WndUnused(): U16 {
      if |rcv.queue| < params.rcvWnd then params.rcvWnd - |rcv.queue| else 0
    }
  }

  function Init(params: Params): State {
    State(params, SendSide(0, 0, [], []), ReceiveSide(0, [], [], []), params.rcvWnd, false, false)
  }

  // ---------------------------------------------------------------- sending messages

  function FragmentCount(mss: nat, len: nat): (count: nat)
    requires mss > 0
    ensures count >= 1
  {
    if len <= mss then 1 else 1 + FragmentCount(mss, len - mss)
  }

  /** All fragments but the last are full, and the last is not empty. */
  lemma {:induction false} FragmentsCover(mss: nat, len: nat)
    requires mss > 0 && len > 0
    ensures (FragmentCount(mss, len) - 1) * mss < len <= FragmentCount(mss, len) * mss
  {
    if len <= mss {
      assert FragmentCount(mss, len) == 1;
    } else {
      FragmentsCover(mss, len - mss);
      assert FragmentCount(mss, len) * mss == FragmentCount(mss, len - mss) * mss + mss;
    }
  }

  lemma MulMonotone(a: int, b: int, m: nat)
    ensures a <= b ==> a * m <= b * m
  {
    if a <= b { assert (b - a) * m >= 0; }
  }

  /** The recursive count is the ceiling of the quotient, and one for an empty message. */
  lemma FragmentCountIsDivCeil(mss: nat, len: nat)
    requires mss > 0
    ensures FragmentCount(mss, len)
      == if (len + mss - 1) / mss < 1 then 1 else (len + mss - 1) / mss
  {
    var c, q := FragmentCount(mss, len), (len + mss - 1) / mss;
    if len > 0 {
      FragmentsCover(mss, len);
      assert len + mss - 1 == q * mss + (len + mss - 1) % mss;
      MulMonotone(q, c - 1, mss);
      MulMonotone(c, q - 1, mss);
    } else {
      assert q == 0;
    }
  }

  /** A message cut into segments of at most `mss` bytes, counted down to zero in eight bits. */
  function Fragments(mss: nat, message: seq<Byte>): (fragments: seq<Fragment>)
    requires mss > 0
    ensures |fragments| == FragmentCount(mss, |message|)
    decreases |message|
  {
    if |message| <= mss then [Fragment(0, message)]
    else
      [Fragment((FragmentCount(mss, |message|) - 1) % 256, message[..mss])]
      + Fragments(mss, message[mss..])
  }

  /** `send` refuses a message that the window or the fragment counter cannot number. */
  predicate Accepts(params: Params, message: seq<Byte>)
    requires params.Valid()
  {
    var count := FragmentCount(params.Mss(), |message|);
    count < params.rcvWnd && count < 256
  }

  function Send(s: State, message: seq<Byte>): State
    requires s.params.Valid()
  {
    if Accepts(s.params, message)
    then s.(snd := s.snd.(queue := s.snd.queue + Fragments(s.params.Mss(), message)))
    else s
  }

  // ---------------------------------------------------------------- receiving messages

  /** Moves segments that have become next in order from the buffer to the queue. */
  function MoveBuf(num: Numbering, wnd: U16, r: ReceiveSide): ReceiveSide
    decreases |r.buf|
  {
    if r.buf != [] && r.buf[0].sn == r.nxt && |r.queue| < wnd
    then
      MoveBuf(num, wnd, r.(
        nxt := Advance(num, r.nxt, 1),
        queue := r.queue + [r.buf[0].fragment],
        buf := r.buf[1..]))
    else r
  }

  /** The number of fragments up to and including the first that closes a message. */
  function MessageEnd(queue: seq<Fragment>): (n: nat)
    ensures n <= |queue|
    ensures queue != [] ==> n >= 1
  {
    if queue == [] then 0
    else if queue[0].frg == 0 then 1
    else 1 + MessageEnd(queue[1..])
  }

  function Joined(fragments: seq<Fragment>): seq<Byte> {
    if fragments == [] then [] else fragments[0].data + Joined(fragments[1..])
  }

  datatype Error =
    | ConvInconsistent | InvalidSegmentSize | InvalidSegmentDataSize
    | RecvQueueEmpty | ExpectingFragment | UnsupportedCmd
    | UserBufTooBig | UserBufTooSmall | NeedUpdate

  datatype Outcome = Ok(size: nat) | Err(error: Error)

  /** The fragment counter is eight bits wide, so `frg + 1` wraps at 255. */
  function PeekSize(queue: seq<Fragment>): Outcome {
    if queue == [] then Err(RecvQueueEmpty)
    else if queue[0].frg == 0 then Ok(|queue[0].data|)
    else if |queue| < (queue[0].frg + 1) % 256 then Err(ExpectingFragment)
    else Ok(|FrontMessage(queue)|)
  }

  /** The message a successful `recv` hands over. */
  function FrontMessage(queue: seq<Fragment>): seq<Byte> { Joined(queue[..MessageEnd(queue)]) }

  /** The state a successful `recv` leaves. */
  function Received(num: Numbering, s: State): State {
    var recover := |s.rcv.queue| >= s.params.rcvWnd;
    var r := MoveBuf(num, s.params.rcvWnd, s.rcv.(queue := s.rcv.queue[MessageEnd(s.rcv.queue)..]));
    s.(rcv := r, askTell := s.askTell || (recover && |r.queue| < s.params.rcvWnd))
  }

  // ---------------------------------------------------------------- acknowledgements

  function DropAcked(num: Numbering, buf: seq<Sent>, una: nat): seq<Sent> {
    if buf != [] && TimeDiff(num, una, buf[0].sn) > 0
    then DropAcked(num, buf[1..], una)
    else buf
  }

  /** Removes the segment an ACK names.  The numbers are compared as plain words here. */
  function RemoveAcked(buf: seq<Sent>, sn: nat): seq<Sent> {
    if buf == [] then []
    else if Word(sn) == Word(buf[0].sn) then buf[1..]
    else if Word(sn) < Word(buf[0].sn) then buf
    else [buf[0]] + RemoveAcked(buf[1..], sn)
  }

  function Shrink(x: SendSide): SendSide {
    x.(una := if x.buf == [] then x.nxt else x.buf[0].sn)
  }

  function ParseUna(num: Numbering, x: SendSide, una: nat): SendSide {
    x.(buf := DropAcked(num, x.buf, una))
  }

  function ParseAck(num: Numbering, x: SendSide, sn: nat): SendSide {
    if TimeDiff(num, sn, x.una) < 0 || TimeDiff(num, sn, x.nxt) >= 0
    then x
    else x.(buf := RemoveAcked(x.buf, sn))
  }

  // ---------------------------------------------------------------- incoming data

  datatype Slot = Repeated | Free(index: nat)

  /** Scans the first `n` buffered segments from the back for the place of number `sn`. */
  function FindSlot(num: Numbering, buf: seq<Numbered>, sn: nat, n: nat): (slot: Slot)
    requires n <= |buf|
    ensures slot.Free? ==> slot.index <= n
  {
    if n == 0 then Free(0)
    else if buf[n - 1].sn == sn then Repeated
    else if TimeDiff(num, sn, buf[n - 1].sn) > 0 then Free(n)
    else FindSlot(num, buf, sn, n - 1)
  }

  /** A number already present changes nothing. */
  function Insert(num: Numbering, buf: seq<Numbered>, x: Numbered): seq<Numbered> {
    match FindSlot(num, buf, x.sn, |buf|)
    case Repeated => buf
    case Free(k) => buf[..k] + [x] + buf[k..]
  }

  predicate BelowWindowEnd(num: Numbering, wnd: U16, r: ReceiveSide, sn: nat) {
    TimeDiff(num, sn, Advance(num, r.nxt, wnd)) < 0
  }

  function ParseData(num: Numbering, wnd: U16, r: ReceiveSide, x: Numbered): ReceiveSide {
    if !BelowWindowEnd(num, wnd, r, x.sn) || TimeDiff(num, x.sn, r.nxt) < 0
    then r
    else MoveBuf(num, wnd, r.(buf := Insert(num, r.buf, x)))
  }

  predicate KnownCmd(cmd: Byte) {
    cmd == CMD_PUSH || cmd == CMD_ACK || cmd == CMD_WASK || cmd == CMD_WINS
  }

  /** What a segment does to the sending side: every segment carries `una`. */
  function Acknowledge(num: Numbering, x: SendSide, seg: Segment): SendSide {
    var y := Shrink(ParseUna(num, x, seg.una));
    if seg.cmd == CMD_ACK then Shrink(ParseAck(num, y, seg.sn)) else y
  }

  /** What a segment does to the receiving side. */
  function Accept(num: Numbering, wnd: U16, r: ReceiveSide, seg: Segment): ReceiveSide {
    if seg.cmd != CMD_PUSH || !BelowWindowEnd(num, wnd, r, seg.sn) then r
    else
      var t := r.(acks := r.acks + [Ack(seg.sn, seg.ts)]);
      if TimeDiff(num, seg.sn, r.nxt) >= 0
      then ParseData(num, wnd, t, Numbered(seg.sn, Fragment(seg.frg, seg.data)))
      else t
  }

  function InputSegment(num: Numbering, s: State, seg: Segment): State {
    s.(rmtWnd := seg.wnd,
       snd := Acknowledge(num, s.snd, seg),
       rcv := Accept(num, s.params.rcvWnd, s.rcv, seg),
       askTell := s.askTell || seg.cmd == CMD_WASK)
  }

  function InputAll(num: Numbering, s: State, packet: seq<Segment>): State
    decreases |packet|
  {
    if packet == [] then s
    else InputAll(num, InputSegment(num, s, packet[0]), packet[1..])
  }

  // ---------------------------------------------------------------- flushing

  /** The timer that asks a peer with a closed window for its window again. */
  function AskSend(s: State, probeDue: bool): bool { s.askSend || (s.rmtWnd == 0 && probeDue) }

  function SendWindow(s: State): nat {
    if s.params.sndWnd < s.rmtWnd then s.params.sndWnd else s.rmtWnd
  }

  /** Numbers queued fragments while the window has room for them. */
  function FillWindow(num: Numbering, x: SendSide, cwnd: nat): SendSide
    decreases |x.queue|
  {
    if TimeDiff(num, x.nxt, Advance(num, x.una, cwnd)) < 0 && x.queue != []
    then
      FillWindow(num, x.(
        nxt := Advance(num, x.nxt, 1),
        buf := x.buf + [Sent(x.nxt, x.queue[0], false)],
        queue := x.queue[1..]), cwnd)
    else x
  }

  /** The fields all segments of one flush share. */
  datatype Header = Header(conv: nat, wnd: U16, una: nat)

  function AckSegments(h: Header, acks: seq<Ack>): seq<Segment> {
    seq(|acks|, i requires 0 <= i < |acks| =>
      Segment(h.conv, CMD_ACK, 0, h.wnd, acks[i].ts, acks[i].sn, h.una, []))
  }

  /** Probes reuse the ACK segment, and with it the last number and time written there. */
  function ProbeSegments(h: Header, last: Ack, ask: bool, tell: bool): seq<Segment> {
    (if ask then [Segment(h.conv, CMD_WASK, 0, h.wnd, last.ts, last.sn, h.una, [])] else [])
    + (if tell then [Segment(h.conv, CMD_WINS, 0, h.wnd, last.ts, last.sn, h.una, [])] else [])
  }

  /** A segment is due when it was never transmitted, or when its position is in `resend`. */
  predicate Due(buf: seq<Sent>, i: nat, resend: set<nat>)
    requires i < |buf|
  {
    !buf[i].transmitted || i in resend
  }

  function DataSegment(h: Header, now: nat, x: Sent): Segment {
    Segment(h.conv, CMD_PUSH, x.fragment.frg, h.wnd, now, x.sn, h.una, x.fragment.data)
  }

  /** The due segments among the first `n`, oldest first. */
  function DataSegments(h: Header, now: nat, buf: seq<Sent>, n: nat, resend: set<nat>): seq<Segment>
    requires n <= |buf|
  {
    if n == 0 then []
    else
      DataSegments(h, now, buf, n - 1, resend)
      + (if Due(buf, n - 1, resend) then [DataSegment(h, now, buf[n - 1])] else [])
  }

  function MarkTransmitted(buf: seq<Sent>): seq<Sent> {
    seq(|buf|, i requires 0 <= i < |buf| => buf[i].(transmitted := true))
  }

  function FlushHeader(s: State): Header { Header(s.params.conv, s.WndUnused(), s.rcv.nxt) }

  function LastAck(acks: seq<Ack>): Ack {
    if acks == [] then Ack(0, 0) else acks[|acks| - 1]
  }

  /** The sending side once the window has been filled. */
  function Filled(num: Numbering, s: State): SendSide { FillWindow(num, s.snd, SendWindow(s)) }

  function Flushed(num: Numbering, s: State): State {
    var x := Filled(num, s);
    s.(snd := x.(buf := MarkTransmitted(x.buf)),
       rcv := s.rcv.(acks := []),
       askSend := false,
       askTell := false)
  }

  /** Everything one flush writes: pending ACKs, then probes, then the due segments. */
  function Emitted(num: Numbering, s: State, now: nat, resend: set<nat>, probeDue: bool): seq<Segment> {
    var h := FlushHeader(s);
    var x := Filled(num, s);
    AckSegments(h, s.rcv.acks)
    + ProbeSegments(h, LastAck(s.rcv.acks), AskSend(s, probeDue), s.askTell)
    + DataSegments(h, now, x.buf, |x.buf|, resend)
  }

  // ---------------------------------------------------------------- packing

  function SegmentSize(seg: Segment): nat { OVERHEAD + |seg.data| }

  function Size(segments: seq<Segment>): nat {
    if segments == [] then 0
    else Size(segments[..|segments| - 1]) + SegmentSize(segments[|segments| - 1])
  }

  /** The packet under construction is closed when the next segment would not fit. */
  datatype Packer = Packer(done: seq<seq<Segment>>, open: seq<Segment>)

  /** The packets there are once the open one is closed; an empty one is dropped. */
  function Closed(p: Packer): seq<seq<Segment>> {
    if p.open == [] then p.done else p.done + [p.open]
  }

  function Put(mtu: nat, p: Packer, seg: Segment): Packer {
    if Size(p.open) + SegmentSize(seg) > mtu then Packer(Closed(p), [seg])
    else Packer(p.done, p.open + [seg])
  }

  function PutAll(mtu: nat, segments: seq<Segment>, n: nat): Packer
    requires n <= |segments|
  {
    if n == 0 then Packer([], []) else Put(mtu, PutAll(mtu, segments, n - 1), segments[n - 1])
  }

  function Pack(mtu: nat, segments: seq<Segment>): seq<seq<Segment>> {
    Closed(PutAll(mtu, segments, |segments|))
  }

  function Concat(packets: seq<seq<Segment>>): seq<Segment> {
    if packets == [] then []
    else Concat(packets[..|packets| - 1]) + packets[|packets| - 1]
  }

  /**
   Cutting the emitted segments into packets loses, adds and reorders nothing, leaves no
   packet empty, and keeps every packet within the MTU.
   */
  lemma {:induction false} PackIsFaithful(mtu: nat, segments: seq<Segment>)
    requires forall i :: 0 <= i < |segments| ==> SegmentSize(segments[i]) <= mtu
    ensures Concat(Pack(mtu, segments)) == segments
    ensures forall k :: 0 <= k < |Pack(mtu, segments)| ==>
      Pack(mtu, segments)[k] != [] && Size(Pack(mtu, segments)[k]) <= mtu
  {
    PutAllHolds(mtu, segments, |segments|);
    ClosedHolds(mtu, PutAll(mtu, segments, |segments|), segments);
    assert segments[..|segments|] == segments;
  }

  ghost predicate Fits(mtu: nat, packet: seq<Segment>) { packet != [] && Size(packet) <= mtu }

  ghost predicate Holds(mtu: nat, p: Packer, segments: seq<Segment>) {
    && Concat(p.done) + p.open == segments
    && Size(p.open) <= mtu
    && forall k :: 0 <= k < |p.done| ==> Fits(mtu, p.done[k])
  }

  lemma ClosedHolds(mtu: nat, p: Packer, segments: seq<Segment>)
    requires Holds(mtu, p, segments)
    ensures Concat(Closed(p)) == segments
    ensures forall k :: 0 <= k < |Closed(p)| ==> Fits(mtu, Closed(p)[k])
  {
    if p.open != [] {
      assert (p.done + [p.open])[..|p.done|] == p.done;
    }
  }

  lemma PutHolds(mtu: nat, p: Packer, segments: seq<Segment>, seg: Segment)
    requires Holds(mtu, p, segments) && SegmentSize(seg) <= mtu
    ensures Holds(mtu, Put(mtu, p, seg), segments + [seg])
  {
    if Size(p.open) + SegmentSize(seg) > mtu {
      ClosedHolds(mtu, p, segments);
      assert [seg][..0] == [];
    } else {
      assert (p.open + [seg])[..|p.open|] == p.open;
      assert Concat(p.done) + (p.open + [seg]) == (Concat(p.done) + p.open) + [seg];
    }
  }

  lemma NothingHolds(mtu: nat, segments: seq<Segment>)
    ensures Holds(mtu, PutAll(mtu, segments, 0), segments[..0])
  {
  }

  lemma NextHolds(mtu: nat, segments: seq<Segment>, n: nat, p: Packer)
    requires n < |segments| && SegmentSize(segments[n]) <= mtu && Holds(mtu, p, segments[..n])
    ensures Holds(mtu, Put(mtu, p, segments[n]), segments[..n + 1])
  {
    PutHolds(mtu, p, segments[..n], segments[n]);
    assert segments[..n] + [segments[n]] == segments[..n + 1];
  }

  lemma {:induction false} PutAllHolds(mtu: nat, segments: seq<Segment>, n: nat)
    requires n <= |segments|
    requires forall i :: 0 <= i < |segments| ==> SegmentSize(segments[i]) <= mtu
    ensures Holds(mtu, PutAll(mtu, segments, n), segments[..n])
  {
    if n == 0 {
      NothingHolds(mtu, segments);
    } else {
      PutAllHolds(mtu, segments, n - 1);
      NextHolds(mtu, segments, n - 1, PutAll(mtu, segments, n - 1));
    }
  }

  predicate TooMuch(mtu: nat, packet: seq<Segment>, next: seq<Segment>) {
    next != [] && Size(packet) + SegmentSize(next[0]) > mtu
  }

  /** The first segment of each packet would not have fitted the packet before it. */
  ghost predicate Tight(mtu: nat, packets: seq<seq<Segment>>) {
    forall j, k :: 0 <= j < k < |packets| && k == j + 1 ==> TooMuch(mtu, packets[j], packets[k])
  }

  lemma PutIsTight(mtu: nat, p: Packer, seg: Segment)
    requires SegmentSize(seg) <= mtu && Tight(mtu, Closed(p)) && (p.open == [] ==> p.done == [])
    ensures Tight(mtu, Closed(Put(mtu, p, seg))) && Put(mtu, p, seg).open != []
  {
    var before, after := Closed(p), Closed(Put(mtu, p, seg));
    if p.open != [] && Size(p.open) + SegmentSize(seg) <= mtu {
      assert (p.open + [seg])[0] == p.open[0];
      forall j, k | 0 <= j < k < |after| && k == j + 1 ensures TooMuch(mtu, after[j], after[k]) {
        assert TooMuch(mtu, before[j], before[k]);
      }
    }
  }

  lemma {:induction false} PutAllIsTight(mtu: nat, segments: seq<Segment>, n: nat)
    requires n <= |segments| && forall i :: 0 <= i < |segments| ==> SegmentSize(segments[i]) <= mtu
    ensures var p := PutAll(mtu, segments, n);
            Tight(mtu, Closed(p)) && (p.open == [] ==> p.done == [])
  {
    if n == 0 {
    } else {
      PutAllIsTight(mtu, segments, n - 1);
      PutIsTight(mtu, PutAll(mtu, segments, n - 1), segments[n - 1]);
    }
  }

  /** No packet is closed while its next segment would still fit. */
  lemma PackIsTight(mtu: nat, segments: seq<Segment>)
    requires forall i :: 0 <= i < |segments| ==> SegmentSize(segments[i]) <= mtu
    ensures Tight(mtu, Pack(mtu, segments))
  {
    PutAllIsTight(mtu, segments, |segments|);
  }
}
