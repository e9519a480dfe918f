/**
 Every action of either node keeps the invariant of `KcpPair`, on numbers that never
 wrap.  From the invariant follow ordered exactly-once delivery, no loss by
 acknowledgement, and the bounds of both windows.
 */
module KcpSafety {
  import opened KcpMachine
  import opened KcpPair
  import opened KcpSender
  import opened KcpReceiver

  // ------------------------------------------------------------------ the stream

  /** These fragments number themselves down to zero. */
  ghost predicate CountsDown(fs: seq<Fragment>) {
    fs != [] && forall i :: 0 <= i < |fs| ==> fs[i].frg == |fs| - 1 - i
  }

  lemma CountsDownFrom(first: Fragment, rest: seq<Fragment>)
    requires CountsDown(rest) && first.frg == |rest|
    ensures CountsDown([first] + rest)
  {
  }

  lemma {:induction false} FragmentsAreCounted(mss: nat, message: Message)
    requires mss > 0 && FragmentCount(mss, |message|) <= 256
    ensures CountsDown(Fragments(mss, message))
    decreases |message|
  {
    if |message| <= mss {
    } else {
      var rest := Fragments(mss, message[mss..]);
      FragmentsAreCounted(mss, message[mss..]);
      CountsDownFrom(Fragment(|rest|, message[..mss]), rest);
    }
  }

  /** Reassembling the fragments of a message gives the message back, byte for byte. */
  lemma {:induction false} ReassemblyIsInverse(mss: nat, message: Message)
    requires mss > 0
    ensures Joined(Fragments(mss, message)) == message
    decreases |message|
  {
    if |message| <= mss {
      assert Joined([Fragment(0, message)]) == message + Joined([]);
    } else {
      ReassemblyIsInverse(mss, message[mss..]);
      assert Fragments(mss, message)[1..] == Fragments(mss, message[mss..]);
      assert message == message[..mss] + message[mss..];
    }
  }

  lemma StreamSnoc(mss: nat, messages: seq<Message>, k: nat)
    requires mss > 0 && k < |messages|
    ensures Stream(mss, messages[..k + 1]) == Stream(mss, messages[..k]) + Fragments(mss, messages[k])
  {
    assert messages[..k + 1][..k] == messages[..k];
  }

  lemma {:induction false} StreamPrefix(mss: nat, messages: seq<Message>, k: nat)
    requires mss > 0 && k <= |messages|
    ensures Stream(mss, messages[..k]) <= Stream(mss, messages)
    decreases |messages| - k
  {
    if k == |messages| {
      assert messages[..k] == messages;
    } else {
      StreamPrefix(mss, messages, k + 1);
      StreamSnoc(mss, messages, k);
    }
  }

  lemma {:induction false} MessageEndAt(queue: seq<Fragment>, c: nat)
    requires 1 <= c <= |queue|
    requires queue[c - 1].frg == 0 && forall i :: 0 <= i < c - 1 ==> queue[i].frg != 0
    ensures MessageEnd(queue) == c
  {
    if c <= 1 {
    } else {
      MessageEndAt(queue[1..], c - 1);
    }
  }

  lemma EndsAfterCount(fs: seq<Fragment>, queue: seq<Fragment>)
    requires CountsDown(fs) && fs <= queue
    ensures MessageEnd(queue) == |fs|
  {
    MessageEndAt(queue, |fs|);
  }

  lemma MessageEndsAfterFragments(mss: nat, message: Message, queue: seq<Fragment>)
    requires mss > 0 && FragmentCount(mss, |message|) < 256
    requires Fragments(mss, message) <= queue
    ensures MessageEnd(queue) == |Fragments(mss, message)|
    ensures queue[0].frg == |Fragments(mss, message)| - 1
  {
    FragmentsAreCounted(mss, message);
    EndsAfterCount(Fragments(mss, message), queue);
  }

  /** A queue that begins with all fragments of a message hands over that message. */
  lemma FrontIsMessage(mss: nat, message: Message, queue: seq<Fragment>)
    requires mss > 0 && FragmentCount(mss, |message|) < 256
    requires Fragments(mss, message) <= queue
    ensures MessageEnd(queue) == |Fragments(mss, message)| && FrontMessage(queue) == message
    ensures PeekSize(queue) == Ok(|message|)
  {
    var fs := Fragments(mss, message);
    MessageEndsAfterFragments(mss, message, queue);
    assert queue[..|fs|] == fs;
    ReassemblyIsInverse(mss, message);
    if |fs| == 1 {
      assert Joined(queue[..1]) == queue[0].data + Joined([]);
    }
  }

  /** A receive queue that starts at a message boundary is a prefix of what comes next. */
  lemma QueueMatchesNext(mss: nat, sent: seq<Message>, got: seq<Message>, r: ReceiveSide)
    requires mss > 0 && Delivered(mss, sent, got, r) && r.queue != []
    ensures |got| < |sent|
    ensures var fs := Fragments(mss, sent[|got|]);
            forall i :: 0 <= i < |fs| && i < |r.queue| ==> r.queue[i] == fs[i]
  {
    var k := |got|;
    assert sent[..k] == got;
    assert k == |sent| ==> got == sent;
    StreamSnoc(mss, sent, k);
    StreamPrefix(mss, sent, k + 1);
    TailMatches(Stream(mss, got), r.queue, Fragments(mss, sent[k]), Stream(mss, sent), r.nxt);
  }

  /** Two continuations of the same beginning in one stream agree as far as both go. */
  lemma TailMatches(before: seq<Fragment>, queue: seq<Fragment>, fs: seq<Fragment>, stream: seq<Fragment>, nxt: nat)
    requires nxt <= |stream| && before + queue == stream[..nxt] && before + fs <= stream
    ensures forall i :: 0 <= i < |fs| && i < |queue| ==> queue[i] == fs[i]
  {
    forall i | 0 <= i < |fs| && i < |queue| ensures queue[i] == fs[i] {
      assert (before + queue)[|before| + i] == stream[|before| + i] == (before + fs)[|before| + i];
    }
  }

  /** What `recv` hands over is exactly the next message, and the rest starts after it. */
  lemma FrontIsNextMessage(mss: nat, sent: seq<Message>, got: seq<Message>, r: ReceiveSide)
    requires mss > 0 && Countable(mss, sent) && Delivered(mss, sent, got, r)
    requires PeekSize(r.queue).Ok?
    ensures |got| < |sent| && FrontMessage(r.queue) == sent[|got|]
    ensures PeekSize(r.queue).size == |sent[|got|]|
    ensures Delivered(mss, sent, got + [sent[|got|]], r.(queue := r.queue[MessageEnd(r.queue)..]))
  {
    WholeMessageQueued(mss, sent, got, r);
    FrontIsMessage(mss, sent[|got|], r.queue);
    PoppedDelivered(mss, sent, got, r);
  }

  /** A queue that begins like these fragments and can be peeked has them all. */
  lemma PeekedHasAll(fs: seq<Fragment>, queue: seq<Fragment>)
    requires CountsDown(fs) && |fs| < 256 && queue != []
    requires forall i :: 0 <= i < |fs| && i < |queue| ==> queue[i] == fs[i]
    requires queue[0].frg == 0 || |queue| >= (queue[0].frg + 1) % 256
    ensures fs <= queue
  {
    assert queue[0] == fs[0];
  }

  /** `peeksize` succeeds only when every fragment of the next message has arrived. */
  lemma WholeMessageQueued(mss: nat, sent: seq<Message>, got: seq<Message>, r: ReceiveSide)
    requires mss > 0 && Countable(mss, sent) && Delivered(mss, sent, got, r)
    requires PeekSize(r.queue).Ok?
    ensures |got| < |sent| && Fragments(mss, sent[|got|]) <= r.queue
  {
    QueueMatchesNext(mss, sent, got, r);
    FragmentsAreCounted(mss, sent[|got|]);
    PeekedHasAll(Fragments(mss, sent[|got|]), r.queue);
  }

  lemma PoppedDelivered(mss: nat, sent: seq<Message>, got: seq<Message>, r: ReceiveSide)
    requires mss > 0 && Delivered(mss, sent, got, r) && |got| < |sent|
    requires Fragments(mss, sent[|got|]) <= r.queue
    ensures Delivered(mss, sent, got + [sent[|got|]], r.(queue := r.queue[|Fragments(mss, sent[|got|])|..]))
  {
    var fs := Fragments(mss, sent[|got|]);
    var after := got + [sent[|got|]];
    assert after[..|got|] == got;
    assert r.queue == fs + r.queue[|fs|..];
    assert Stream(mss, after) + r.queue[|fs|..] == Stream(mss, got) + (fs + r.queue[|fs|..]);
  }

  lemma DeliveredExtends(mss: nat, sent: seq<Message>, got: seq<Message>, r: ReceiveSide, t: ReceiveSide, n: nat)
    requires mss > 0 && Delivered(mss, sent, got, r)
    requires n <= |Stream(mss, sent)| && Extends(r, t, Stream(mss, sent)[..n])
    ensures Delivered(mss, sent, got, t)
  {
    var stream := Stream(mss, sent);
    calc {
      Stream(mss, got) + t.queue;
      (Stream(mss, got) + r.queue) + stream[..n][r.nxt..t.nxt];
      stream[..r.nxt] + stream[..n][r.nxt..t.nxt];
      stream[..t.nxt];
    }
  }

  // -------------------------------------------- actions of the node that sends the data

  lemma {:induction false} InputKeepsSender(
      s: State, packet: seq<Segment>, stream: seq<Fragment>, wnd: U16, r: ReceiveSide)
    requires SenderSafe(s.snd, stream, wnd, r) && PacketAckTrue(packet, r)
    ensures SenderSafe(InputAll(Unbounded, s, packet).snd, stream, wnd, r)
    ensures InputAll(Unbounded, s, packet).snd.nxt == s.snd.nxt
    ensures InputAll(Unbounded, s, packet).params == s.params
    decreases |packet|
  {
    if packet == [] {
    } else {
      AcknowledgeKeepsSafe(s.snd, stream, wnd, r, packet[0]);
      InputKeepsSender(InputSegment(Unbounded, s, packet[0]), packet[1..], stream, wnd, r);
    }
  }

  /** Queueing more fragments at the end of the stream disturbs nothing. */
  lemma EnqueueKeepsSafe(s: SendSide, stream: seq<Fragment>, wnd: U16, r: ReceiveSide, fs: seq<Fragment>)
    requires SenderSafe(s, stream, wnd, r)
    ensures SenderSafe(s.(queue := s.queue + fs), stream + fs, wnd, r)
  {
    var t := s.(queue := s.queue + fs);
    assert (stream + fs)[s.nxt..] == t.queue;
    forall n: nat | n < t.nxt ensures Kept(t, r, n) {
      assert Kept(s, r, n);
    }
  }

  lemma SubmitKeepsOutgoing(x: Node, y: Node, message: Message)
    requires Link(x, y) && Accepts(x.kcp.params, message)
    ensures Link(Act(Unbounded, x, y, Submit(message)), y)
  {
    var t := Act(Unbounded, x, y, Submit(message));
    var fs := Fragments(x.kcp.params.Mss(), message);
    assert t.sent[..|x.sent|] == x.sent;
    assert Sending(t) == Sending(x) + fs;
    EnqueueKeepsSafe(x.kcp.snd, Sending(x), x.kcp.params.sndWnd, y.kcp.rcv, fs);
    assert Known(t) == Known(x);
    assert Sending(t)[..y.kcp.rcv.nxt] == Sending(x)[..y.kcp.rcv.nxt];
  }

  lemma FlushedData(x: State, now: nat, resend: set<nat>, probeDue: bool, known: seq<Fragment>)
    requires forall i :: 0 <= i < |Filled(Unbounded, x).buf| ==>
      var e := Filled(Unbounded, x).buf[i]; e.sn < |known| && e.fragment == known[e.sn]
    ensures PacketDataTrue(Emitted(Unbounded, x, now, resend, probeDue), known)
  {
    var t := Filled(Unbounded, x);
    var h := FlushHeader(x);
    DataSegmentsTrue(h, now, t.buf, |t.buf|, resend, known);
    assert PacketDataTrue(AckSegments(h, x.rcv.acks), known);
    assert PacketDataTrue(ProbeSegments(h, LastAck(x.rcv.acks), AskSend(x, probeDue), x.askTell), known);
  }

  lemma PackKeepsData(
      out: seq<seq<Segment>>, known: seq<Fragment>, mtu: nat, emitted: seq<Segment>, more: seq<Fragment>)
    requires AllDataTrue(out, known) && known <= more && PacketDataTrue(emitted, more)
    ensures AllDataTrue(out + Pack(mtu, emitted), more)
  {
    PackMembers(mtu, emitted);
    var packets := Pack(mtu, emitted);
    forall k | 0 <= k < |packets| ensures PacketDataTrue(packets[k], more) {
      assert Within(packets[k], emitted);
    }
    forall k | 0 <= k < |out| ensures PacketDataTrue(out[k], more) {
      assert PacketDataTrue(out[k], known);
      assert forall n :: 0 <= n < |known| ==> known[n] == more[n];
    }
  }

  lemma FlushKeepsOutgoing(x: Node, y: Node, now: nat, resend: set<nat>, probeDue: bool)
    requires Link(x, y)
    ensures Link(Act(Unbounded, x, y, Flush(now, resend, probeDue)), y)
  {
    var t := Act(Unbounded, x, y, Flush(now, resend, probeDue));
    var stream, r, wnd := Sending(x), y.kcp.rcv, x.kcp.params.sndWnd;
    var filled := Filled(Unbounded, x.kcp);
    FillWindowKeepsSafe(x.kcp.snd, stream, wnd, SendWindow(x.kcp), r);
    MarkKeepsSafe(filled, stream, wnd, r);
    var emitted := Emitted(Unbounded, x.kcp, now, resend, probeDue);
    FlushedData(x.kcp, now, resend, probeDue, Known(t));
    PackKeepsData(x.out, Known(x), x.kcp.params.mtu, emitted, Known(t));
    KnownGrows(r, y.kcp.params.rcvWnd, Known(x), Known(t));
  }

  lemma KnownGrows(r: ReceiveSide, wnd: U16, known: seq<Fragment>, more: seq<Fragment>)
    requires ReceiverOk(r, wnd, known) && known <= more
    ensures ReceiverOk(r, wnd, more)
  {
    assert forall n :: 0 <= n < |known| ==> known[n] == more[n];
  }

  lemma ActKeepsOutgoing(x: Node, y: Node, action: Action)
    requires Link(x, y)
    ensures Link(Act(Unbounded, x, y, action), y)
  {
    match action
    case Submit(message) =>
      if Accepts(x.kcp.params, message) { SubmitKeepsOutgoing(x, y, message); }
    case Flush(now, resend, probeDue) =>
      FlushKeepsOutgoing(x, y, now, resend, probeDue);
    case Deliver(index) =>
      if index < |y.out| {
        InputKeepsSender(x.kcp, y.out[index], Sending(x), x.kcp.params.sndWnd, y.kcp.rcv);
        InputKeepsQueue(x.kcp, y.out[index]);
      }
    case Drain =>
  }

  lemma {:induction false} InputKeepsQueue(s: State, packet: seq<Segment>)
    ensures InputAll(Unbounded, s, packet).snd.queue == s.snd.queue
    decreases |packet|
  {
    if packet == [] {
    } else {
      InputKeepsQueue(InputSegment(Unbounded, s, packet[0]), packet[1..]);
    }
  }

  // ------------------------------------------ actions of the node that receives the data

  lemma {:induction false} InputKeepsReceiver(s: State, packet: seq<Segment>, known: seq<Fragment>)
    requires ReceiverOk(s.rcv, s.params.rcvWnd, known) && AcksHeld(s.rcv)
    requires PacketDataTrue(packet, known)
    ensures ReceiverOk(InputAll(Unbounded, s, packet).rcv, s.params.rcvWnd, known)
    ensures AcksHeld(InputAll(Unbounded, s, packet).rcv)
    ensures Extends(s.rcv, InputAll(Unbounded, s, packet).rcv, known)
    decreases |packet|
  {
    if packet == [] {
      ExtendsItself(s.rcv, s.rcv, known);
    } else {
      var t := InputSegment(Unbounded, s, packet[0]);
      AcceptExtends(s.params.rcvWnd, s.rcv, packet[0], known);
      InputKeepsReceiver(t, packet[1..], known);
      ExtendsTransitive(s.rcv, t.rcv, InputAll(Unbounded, s, packet).rcv, known);
    }
  }

  lemma {:induction false} InputKeepsParams(s: State, packet: seq<Segment>)
    ensures InputAll(Unbounded, s, packet).params == s.params
    decreases |packet|
  {
    if packet == [] {
    } else {
      InputKeepsParams(InputSegment(Unbounded, s, packet[0]), packet[1..]);
    }
  }

  /** What is true of a receiver stays true of one that holds at least as much. */
  lemma HoldingMore(s: SendSide, out: seq<seq<Segment>>, r: ReceiveSide, t: ReceiveSide)
    requires NoneLost(s, r) && AllAckTrue(out, r)
    requires r.nxt <= t.nxt && forall n: nat :: Held(r, n) ==> Held(t, n)
    ensures NoneLost(s, t) && AllAckTrue(out, t)
  {
    forall n: nat | n < s.nxt ensures Kept(s, t, n) {
      assert Kept(s, r, n);
    }
    forall k | 0 <= k < |out| ensures PacketAckTrue(out[k], t) {
      assert PacketAckTrue(out[k], r);
      forall i | 0 <= i < |out[k]| ensures AckTrue(out[k][i], t) {
        assert AckTrue(out[k][i], r);
      }
    }
  }

  lemma DeliverKeepsIncoming(x: Node, y: Node, index: nat)
    requires Link(x, y) && index < |x.out|
    ensures Link(x, Act(Unbounded, y, x, Deliver(index)))
  {
    var t := Act(Unbounded, y, x, Deliver(index));
    InputKeepsParams(y.kcp, x.out[index]);
    InputKeepsReceiver(y.kcp, x.out[index], Known(x));
    HoldingMore(x.kcp.snd, y.out, y.kcp.rcv, t.kcp.rcv);
    DeliveredExtends(x.kcp.params.Mss(), x.sent, y.got, y.kcp.rcv, t.kcp.rcv, x.kcp.snd.nxt);
  }

  lemma DrainKeepsIncoming(x: Node, y: Node)
    requires Link(x, y) && PeekSize(y.kcp.rcv.queue).Ok?
    ensures Link(x, Act(Unbounded, y, x, Drain))
  {
    var t := Act(Unbounded, y, x, Drain);
    var mss, r, wnd := x.kcp.params.Mss(), y.kcp.rcv, y.kcp.params.rcvWnd;
    FrontIsNextMessage(mss, x.sent, y.got, r);
    var popped := r.(queue := r.queue[MessageEnd(r.queue)..]);
    assert forall n: nat :: Held(r, n) <==> Held(popped, n);
    MoveBufExtends(wnd, popped, Known(x));
    DeliveredExtends(mss, x.sent, t.got, popped, t.kcp.rcv, x.kcp.snd.nxt);
    HoldingMore(x.kcp.snd, y.out, r, t.kcp.rcv);
    assert AcksHeld(t.kcp.rcv);
  }

  lemma PackKeepsAcks(out: seq<seq<Segment>>, r: ReceiveSide, mtu: nat, emitted: seq<Segment>)
    requires AllAckTrue(out, r) && PacketAckTrue(emitted, r)
    ensures AllAckTrue(out + Pack(mtu, emitted), r)
  {
    PackMembers(mtu, emitted);
    var packets := Pack(mtu, emitted);
    forall k | 0 <= k < |packets| ensures PacketAckTrue(packets[k], r) {
      assert Within(packets[k], emitted);
    }
  }

  lemma {:induction false} DataSegmentsCarryUna(
      h: Header, now: nat, buf: seq<Sent>, n: nat, resend: set<nat>, r: ReceiveSide)
    requires n <= |buf| && h.una == r.nxt
    ensures PacketAckTrue(DataSegments(h, now, buf, n, resend), r)
  {
    if n == 0 {
    } else {
      DataSegmentsCarryUna(h, now, buf, n - 1, resend, r);
    }
  }

  lemma FlushedAcks(y: State, now: nat, resend: set<nat>, probeDue: bool)
    requires AcksHeld(y.rcv)
    ensures PacketAckTrue(Emitted(Unbounded, y, now, resend, probeDue), y.rcv)
  {
    var h := FlushHeader(y);
    var x := Filled(Unbounded, y);
    assert PacketAckTrue(AckSegments(h, y.rcv.acks), y.rcv);
    assert PacketAckTrue(ProbeSegments(h, LastAck(y.rcv.acks), AskSend(y, probeDue), y.askTell), y.rcv);
    DataSegmentsCarryUna(h, now, x.buf, |x.buf|, resend, y.rcv);
  }

  lemma FlushKeepsIncoming(x: Node, y: Node, now: nat, resend: set<nat>, probeDue: bool)
    requires Link(x, y)
    ensures Link(x, Act(Unbounded, y, x, Flush(now, resend, probeDue)))
  {
    var t := Act(Unbounded, y, x, Flush(now, resend, probeDue));
    var r, u := y.kcp.rcv, t.kcp.rcv;
    FlushedAcks(y.kcp, now, resend, probeDue);
    PackKeepsAcks(y.out, r, y.kcp.params.mtu, Emitted(Unbounded, y.kcp, now, resend, probeDue));
    assert forall n: nat :: Held(r, n) <==> Held(u, n);
    HoldingMore(x.kcp.snd, t.out, r, u);
  }

  lemma ActKeepsIncoming(x: Node, y: Node, action: Action)
    requires Link(x, y)
    ensures Link(x, Act(Unbounded, y, x, action))
  {
    match action
    case Submit(message) =>
    case Flush(now, resend, probeDue) =>
      FlushKeepsIncoming(x, y, now, resend, probeDue);
    case Deliver(index) =>
      if index < |x.out| { DeliverKeepsIncoming(x, y, index); }
    case Drain =>
      if PeekSize(y.kcp.rcv.queue).Ok? { DrainKeepsIncoming(x, y); }
  }
}
