/**
 Two control blocks joined by a network that may drop, duplicate and reorder packets.
 A node's `out` is every packet it ever put on the wire; a delivery hands the other node
 any one of them, at any time and any number of times.
 */
module KcpPair {
  import opened Bytes
  import opened KcpMachine

  type Message = seq<Byte>

  datatype Node = Node(kcp: State, out: seq<seq<Segment>>, sent: seq<Message>, got: seq<Message>)

  datatype Pair = Pair(a: Node, b: Node)
  {
    /** One of the two nodes, and the other one. */
    function Me(atA: bool): Node { if atA then a else b }

    function Peer(atA: bool): Node { if atA then b else a }
  }

  datatype Action =
    | Submit(message: Message)
    | Flush(now: nat, resend: set<nat>, probeDue: bool)
    | Deliver(index: nat)
    | Drain

  datatype Move = Move(atA: bool, action: Action)

  function Start(params: Params): Node { Node(Init(params), [], [], []) }

  /** What an action of node `me` makes of it; only a delivery looks at the peer. */
  function Act(num: Numbering, me: Node, peer: Node, action: Action): Node
    requires me.kcp.params.Valid()
  {
    match action
    case Submit(message) =>
      if Accepts(me.kcp.params, message)
      then me.(kcp := Send(me.kcp, message), sent := me.sent + [message])
      else me
    case Flush(now, resend, probeDue) =>
      me.(kcp := Flushed(num, me.kcp),
          out := me.out + Pack(me.kcp.params.mtu, Emitted(num, me.kcp, now, resend, probeDue)))
    case Deliver(index) =>
      if index < |peer.out| then me.(kcp := InputAll(num, me.kcp, peer.out[index])) else me
    case Drain =>
      if PeekSize(me.kcp.rcv.queue).Ok?
      then me.(kcp := Received(num, me.kcp), got := me.got + [FrontMessage(me.kcp.rcv.queue)])
      else me
  }

  // ------------------------------------------------------------ what a run maintains

  /** Every fragment of every message, in the order the sender numbers them. */
  function Stream(mss: nat, messages: seq<Message>): seq<Fragment>
    requires mss > 0
  {
    if messages == [] then []
    else Stream(mss, messages[..|messages| - 1]) + Fragments(mss, messages[|messages| - 1])
  }

  /** No message has more fragments than the counter in its segments can tell. */
  ghost predicate Countable(mss: nat, messages: seq<Message>)
    requires mss > 0
  {
    forall k :: 0 <= k < |messages| ==> FragmentCount(mss, |messages[k]|) < 256
  }

  /** The numbered stream of everything `x` was asked to send. */
  function Sending(x: Node): seq<Fragment>
    requires x.kcp.params.Valid()
  {
    Stream(x.kcp.params.Mss(), x.sent)
  }

  ghost predicate Buffered(buf: seq<Sent>, n: nat) {
    exists i :: 0 <= i < |buf| && buf[i].sn == n
  }

  /** The receiver has accepted segment `n`, for good. */
  ghost predicate Held(r: ReceiveSide, n: nat) {
    n < r.nxt || exists i :: 0 <= i < |r.buf| && r.buf[i].sn == n
  }

  ghost predicate SortedSent(buf: seq<Sent>) {
    forall i, j :: 0 <= i < j < |buf| ==> buf[i].sn < buf[j].sn
  }

  ghost predicate SortedNumbered(buf: seq<Numbered>) {
    forall i, j :: 0 <= i < j < |buf| ==> buf[i].sn < buf[j].sn
  }

  ghost predicate SenderOk(s: SendSide, stream: seq<Fragment>) {
    && s.nxt + |s.queue| == |stream|
    && stream[s.nxt..] == s.queue
    && s.una == (if s.buf == [] then s.nxt else s.buf[0].sn)
    && s.una <= s.nxt
    && SortedSent(s.buf)
    && forall i :: 0 <= i < |s.buf| ==> s.una <= s.buf[i].sn < s.nxt && s.buf[i].fragment == stream[s.buf[i].sn]
  }

  ghost predicate ReceiverOk(r: ReceiveSide, wnd: U16, known: seq<Fragment>) {
    && r.nxt <= |known|
    && |r.queue| <= wnd
    && SortedNumbered(r.buf)
    && forall i :: 0 <= i < |r.buf| ==>
      r.nxt <= r.buf[i].sn < r.nxt + wnd && r.buf[i].sn < |known| && r.buf[i].fragment == known[r.buf[i].sn]
  }

  /** Segment `n` is still with the sender or already with the receiver. */
  ghost predicate Kept(s: SendSide, r: ReceiveSide, n: nat) { Buffered(s.buf, n) || Held(r, n) }

  ghost predicate NoneLost(s: SendSide, r: ReceiveSide) {
    forall n: nat :: n < s.nxt ==> Kept(s, r, n)
  }

  /** The sender's share of the invariant, against the receiver's state `r`. */
  ghost predicate SenderSafe(s: SendSide, stream: seq<Fragment>, wnd: U16, r: ReceiveSide) {
    SenderOk(s, stream) && s.nxt <= s.una + wnd && NoneLost(s, r)
  }

  ghost predicate AcksHeld(r: ReceiveSide) {
    forall i :: 0 <= i < |r.acks| ==> Held(r, r.acks[i].sn)
  }

  /** What the fields of a segment from `x` to `y` say about the data direction `x` to `y`. */
  ghost predicate DataTrue(seg: Segment, known: seq<Fragment>) {
    seg.cmd == CMD_PUSH ==> seg.sn < |known| && known[seg.sn] == Fragment(seg.frg, seg.data)
  }

  /** What the fields of a segment from `y` to `x` say about the data direction `x` to `y`. */
  ghost predicate AckTrue(seg: Segment, r: ReceiveSide) {
    && seg.una <= r.nxt
    && (seg.cmd == CMD_ACK ==> Held(r, seg.sn))
  }

  ghost predicate PacketDataTrue(packet: seq<Segment>, known: seq<Fragment>) {
    forall i :: 0 <= i < |packet| ==> DataTrue(packet[i], known)
  }

  ghost predicate PacketAckTrue(packet: seq<Segment>, r: ReceiveSide) {
    forall i :: 0 <= i < |packet| ==> AckTrue(packet[i], r)
  }

  ghost predicate AllDataTrue(packets: seq<seq<Segment>>, known: seq<Fragment>) {
    forall k :: 0 <= k < |packets| ==> PacketDataTrue(packets[k], known)
  }

  ghost predicate AllAckTrue(packets: seq<seq<Segment>>, r: ReceiveSide) {
    forall k :: 0 <= k < |packets| ==> PacketAckTrue(packets[k], r)
  }

  /** The messages handed over and the receive queue make up the stream received so far. */
  ghost predicate Delivered(mss: nat, sent: seq<Message>, got: seq<Message>, r: ReceiveSide)
    requires mss > 0
  {
    && got <= sent
    && r.nxt <= |Stream(mss, sent)|
    && Stream(mss, got) + r.queue == Stream(mss, sent)[..r.nxt]
  }

  /** The fragments of `x` that have a number. */
  function Known(x: Node): seq<Fragment>
    requires x.kcp.params.Valid()
  {
    if x.kcp.snd.nxt <= |Sending(x)| then Sending(x)[..x.kcp.snd.nxt] else Sending(x)
  }

  /** Everything that stays true of the data direction from `x` to `y`. */
  ghost predicate Link(x: Node, y: Node) {
    && x.kcp.params.Valid() && y.kcp.params.Valid()
    && Countable(x.kcp.params.Mss(), x.sent)
    && SenderSafe(x.kcp.snd, Sending(x), x.kcp.params.sndWnd, y.kcp.rcv)
    && ReceiverOk(y.kcp.rcv, y.kcp.params.rcvWnd, Known(x))
    && AcksHeld(y.kcp.rcv)
    && Delivered(x.kcp.params.Mss(), x.sent, y.got, y.kcp.rcv)
    && AllDataTrue(x.out, Known(x))
    && AllAckTrue(y.out, y.kcp.rcv)
  }

  ghost predicate Inv(p: Pair) { Link(p.a, p.b) && Link(p.b, p.a) }
}
