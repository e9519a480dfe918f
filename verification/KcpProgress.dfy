/**
 No run ends in a deadlock: whatever the network has done so far, the two blocks can still hand over
 everything, if it does no more harm; exactly if every message fits the window of the peer.
 */
module KcpProgress {
  import opened KcpMachine
  import opened KcpPair
  import opened KcpSender
  import opened KcpReceiver
  import opened KcpSafety
  import opened KcpWrap
  import opened KcpTheorems
  import opened KcpAhead
  import opened KcpFlush
  import opened KcpInput

  // ------------------------------------------------------------------ from one state to another

  predicate Usable(p: Pair) { p.a.kcp.params.Valid() && p.b.kcp.params.Valid() }

  predicate SameParams(p: Pair, q: Pair) { q.a.kcp.params == p.a.kcp.params && q.b.kcp.params == p.b.kcp.params }

  lemma StepKeepsParams(p: Pair, move: Move)
    requires Usable(p)
    ensures SameParams(p, Step(Unbounded, p, move))
  {
    ActKeepsParams(Unbounded, p.a, p.b, move.action);
    ActKeepsParams(Unbounded, p.b, p.a, move.action);
  }

  /** The pair after these moves. */
  function Go(p: Pair, moves: seq<Move>): (q: Pair)
    requires Usable(p)
    ensures SameParams(p, q)
  {
    if moves == [] then p
    else
      var q := Go(p, moves[..|moves| - 1]);
      StepKeepsParams(q, moves[|moves| - 1]);
      Step(Unbounded, q, moves[|moves| - 1])
  }

  /** Each of the moves is timely when it is made. */
  ghost predicate TimelyGo(p: Pair, moves: seq<Move>)
    requires Usable(p)
  {
    moves == []
    || (TimelyGo(p, moves[..|moves| - 1]) && TimelyMove(Go(p, moves[..|moves| - 1]), moves[|moves| - 1]))
  }

  /** Some moves, all of them timely, lead from one state to the other. */
  ghost predicate Reaches(p: Pair, q: Pair)
    requires Usable(p)
  {
    exists moves :: TimelyGo(p, moves) && Go(p, moves) == q
  }

  lemma ReachesItself(p: Pair)
    requires Usable(p)
    ensures Reaches(p, p)
  {
    assert TimelyGo(p, []) && Go(p, []) == p;
  }

  lemma ReachesNext(p: Pair, q: Pair, move: Move)
    requires Usable(p) && Reaches(p, q) && Usable(q) && TimelyMove(q, move)
    ensures Reaches(p, Step(Unbounded, q, move)) && SameParams(p, q) && SameParams(q, Step(Unbounded, q, move))
  {
    var moves :| TimelyGo(p, moves) && Go(p, moves) == q;
    var more := moves + [move];
    assert more[..|moves|] == moves;
    assert TimelyGo(p, more) && Go(p, more) == Step(Unbounded, q, move);
    StepKeepsParams(q, move);
  }

  lemma {:induction false} GoAdds(p: Pair, moves: seq<Move>, more: seq<Move>)
    requires Usable(p)
    ensures Go(p, moves + more) == Go(Go(p, moves), more)
    ensures TimelyGo(p, moves) && TimelyGo(Go(p, moves), more) ==> TimelyGo(p, moves + more)
    decreases |more|
  {
    if more == [] {
      assert moves + more == moves;
    } else {
      var n := |more| - 1;
      GoAdds(p, moves, more[..n]);
      assert (moves + more)[..|moves + more| - 1] == moves + more[..n];
    }
  }

  lemma ReachesOn(p: Pair, q: Pair, r: Pair)
    requires Usable(p) && Reaches(p, q) && Usable(q) && Reaches(q, r)
    ensures Reaches(p, r)
  {
    var moves :| TimelyGo(p, moves) && Go(p, moves) == q;
    var more :| TimelyGo(q, more) && Go(q, more) == r;
    GoAdds(p, moves, more);
    assert TimelyGo(p, moves + more);
  }

  /** What every reachable state is. */
  ghost predicate Sound(p: Pair) {
    && Inv(p)
    && Settled(p.a.kcp.rcv, p.a.kcp.params.rcvWnd) && Settled(p.b.kcp.rcv, p.b.kcp.params.rcvWnd)
  }

  lemma StepIsSound(p: Pair, move: Move)
    requires Sound(p)
    ensures Sound(Step(Unbounded, p, move))
  {
    StepKeepsInv(p, move);
    StepKeepsParams(p, move);
    ActSettles(Unbounded, p.a, p.b, move.action);
    ActSettles(Unbounded, p.b, p.a, move.action);
  }

  // ------------------------------------------------------------------ one node acts

  /** The pair once one node has acted. */
  function Acted(p: Pair, atA: bool, action: Action): (q: Pair)
    requires Usable(p)
    ensures q.Me(atA) == Act(Unbounded, p.Me(atA), p.Peer(atA), action) && q.Peer(atA) == p.Peer(atA)
  {
    Step(Unbounded, p, Move(atA, action))
  }

  /** An action that delivers nothing is always possible. */
  lemma Acts(p: Pair, q: Pair, atA: bool, action: Action)
    requires Usable(p) && Reaches(p, q) && Sound(q) && !action.Deliver?
    ensures Reaches(p, Acted(q, atA, action)) && Sound(Acted(q, atA, action))
    ensures SameParams(p, q) && SameParams(q, Acted(q, atA, action))
  {
    ReachesNext(p, q, Move(atA, action));
    StepIsSound(q, Move(atA, action));
  }

  lemma Delivers(p: Pair, q: Pair, atA: bool, index: nat)
    requires Usable(p) && Reaches(p, q) && Sound(q)
    requires index < |q.Peer(atA).out|
    requires PacketRecent(q.Peer(atA).out[index], q.Me(atA).kcp.snd.nxt, q.Peer(atA).kcp.snd.nxt)
    ensures Reaches(p, Acted(q, atA, Deliver(index))) && Sound(Acted(q, atA, Deliver(index)))
    ensures SameParams(p, q) && SameParams(q, Acted(q, atA, Deliver(index)))
  {
    ReachesNext(p, q, Move(atA, Deliver(index)));
    StepIsSound(q, Move(atA, Deliver(index)));
  }

  // ------------------------------------------------------------------ several deliveries

  ghost predicate AllRecent(packets: seq<seq<Segment>>, sndNxt: nat, peerNxt: nat) {
    forall k :: 0 <= k < |packets| ==> PacketRecent(packets[k], sndNxt, peerNxt)
  }

  lemma {:induction false} InputBoth(s: State, packet: seq<Segment>, next: seq<Segment>)
    ensures InputAll(Unbounded, s, packet + next) == InputAll(Unbounded, InputAll(Unbounded, s, packet), next)
    decreases |packet|
  {
    if packet == [] {
      assert [] + next == next;
    } else {
      InputBoth(InputSegment(Unbounded, s, packet[0]), packet[1..], next);
      assert (packet + next)[1..] == packet[1..] + next;
    }
  }

  lemma {:induction false} ConcatAdds(packets: seq<seq<Segment>>, more: seq<seq<Segment>>)
    ensures Concat(packets + more) == Concat(packets) + Concat(more)
    decreases |more|
  {
    if more == [] {
      assert packets + more == packets;
    } else {
      var n := |more| - 1;
      ConcatAdds(packets, more[..n]);
      assert (packets + more)[..|packets + more| - 1] == packets + more[..n];
    }
  }

  lemma ConcatFront(packets: seq<seq<Segment>>)
    requires packets != []
    ensures Concat(packets) == packets[0] + Concat(packets[1..])
  {
    assert packets == [packets[0]] + packets[1..];
    ConcatAdds([packets[0]], packets[1..]);
    assert [packets[0]][..0] == [];
    assert Concat([packets[0]]) == Concat([]) + packets[0];
  }

  /** What a node has put out from some packet on is delivered, all of it and in order. */
  lemma {:induction false} DeliversAll(p: Pair, q: Pair, atA: bool, from: nat) returns (r: Pair)
    requires Usable(p) && Reaches(p, q) && Sound(q) && from <= |q.Peer(atA).out|
    requires AllRecent(q.Peer(atA).out[from..], q.Me(atA).kcp.snd.nxt, q.Peer(atA).kcp.snd.nxt)
    ensures Reaches(p, r) && Sound(r) && SameParams(q, r) && r.Peer(atA) == q.Peer(atA)
    ensures r.Me(atA) == q.Me(atA).(kcp := InputAll(Unbounded, q.Me(atA).kcp, Concat(q.Peer(atA).out[from..])))
    decreases |q.Peer(atA).out| - from
  {
    var out := q.Peer(atA).out;
    if from == |out| {
      assert Concat(out[from..]) == [];
      r := q;
    } else {
      assert out[from..][0] == out[from] && out[from..][1..] == out[from + 1..];
      assert PacketRecent(out[from..][0], q.Me(atA).kcp.snd.nxt, q.Peer(atA).kcp.snd.nxt);
      Delivers(p, q, atA, from);
      var next := Acted(q, atA, Deliver(from));
      InputKeepsSender(q.Me(atA).kcp, out[from], Sending(q.Me(atA)), q.Me(atA).kcp.params.sndWnd,
                       q.Peer(atA).kcp.rcv);
      RestRecent(out, from, q.Me(atA).kcp.snd.nxt, q.Peer(atA).kcp.snd.nxt);
      r := DeliversAll(p, next, atA, from + 1);
      ConcatFront(out[from..]);
      InputBoth(q.Me(atA).kcp, out[from], Concat(out[from + 1..]));
    }
  }

  lemma RestRecent(out: seq<seq<Segment>>, from: nat, sndNxt: nat, peerNxt: nat)
    requires from < |out| && AllRecent(out[from..], sndNxt, peerNxt)
    ensures AllRecent(out[from + 1..], sndNxt, peerNxt)
  {
    var rest, later := out[from..], out[from + 1..];
    forall k | 0 <= k < |later| ensures PacketRecent(later[k], sndNxt, peerNxt) {
      assert later[k] == rest[k + 1];
    }
  }

  // ------------------------------------------------------------------ draining

  lemma {:induction false} MoveBufCounts(wnd: U16, r: ReceiveSide)
    ensures var s := MoveBuf(Unbounded, wnd, r);
            |s.queue| + |s.buf| == |r.queue| + |r.buf|
    decreases |r.buf|
  {
    if r.buf != [] && r.buf[0].sn == r.nxt && |r.queue| < wnd {
      assert MoveBuf(Unbounded, wnd, r) == MoveBuf(Unbounded, wnd, Moved(r));
      MoveBufCounts(wnd, Moved(r));
    }
  }

  /** Handing messages over changes nothing else. */
  ghost predicate OnlyHanded(y: Node, t: Node) {
    && t.kcp.params == y.kcp.params && t.kcp.snd == y.kcp.snd && t.kcp.rmtWnd == y.kcp.rmtWnd
    && t.out == y.out && t.sent == y.sent && t.kcp.rcv.acks == y.kcp.rcv.acks && (y.kcp.askTell ==> t.kcp.askTell)
    && y.kcp.rcv.nxt <= t.kcp.rcv.nxt && (forall n: nat :: Held(t.kcp.rcv, n) <==> Held(y.kcp.rcv, n))
  }

  lemma DrainOnlyHands(x: Node, y: Node)
    requires Link(x, y) && PeekSize(y.kcp.rcv.queue).Ok?
    ensures var t := Act(Unbounded, y, x, Drain);
            && OnlyHanded(y, t)
            && |t.kcp.rcv.queue| + |t.kcp.rcv.buf| < |y.kcp.rcv.queue| + |y.kcp.rcv.buf|
  {
    var r, wnd := y.kcp.rcv, y.kcp.params.rcvWnd;
    var popped := r.(queue := r.queue[MessageEnd(r.queue)..]);
    DrainHandsOver(x, y);
    PeekedIff(x.kcp.params.Mss(), x.sent, y);
    assert forall n: nat :: Held(r, n) <==> Held(popped, n);
    MoveBufExtends(wnd, popped, Known(x));
    MoveBufCounts(wnd, popped);
  }

  lemma {:induction false} DrainsAll(p: Pair, q: Pair, atA: bool) returns (r: Pair)
    requires Usable(p) && Reaches(p, q) && Sound(q)
    ensures Reaches(p, r) && Sound(r) && SameParams(q, r) && r.Peer(atA) == q.Peer(atA)
    ensures OnlyHanded(q.Me(atA), r.Me(atA)) && PeekSize(r.Me(atA).kcp.rcv.queue).Err?
    decreases |q.Me(atA).kcp.rcv.queue| + |q.Me(atA).kcp.rcv.buf|
  {
    if PeekSize(q.Me(atA).kcp.rcv.queue).Err? {
      r := q;
    } else {
      DrainOnlyHands(q.Peer(atA), q.Me(atA));
      Acts(p, q, atA, Drain);
      r := DrainsAll(p, Acted(q, atA, Drain), atA);
    }
  }

  // ------------------------------------------------------------------ what is put out is recent

  ghost predicate AcksFresh(acks: seq<Ack>, nxt: nat) {
    forall i :: 0 <= i < |acks| ==> acks[i].sn + REACH >= nxt
  }

  lemma {:induction false} DataFrom(h: Header, now: nat, buf: seq<Sent>, n: nat, resend: set<nat>, least: nat)
    requires n <= |buf| && forall i :: 0 <= i < |buf| ==> buf[i].sn >= least
    ensures forall i :: 0 <= i < |DataSegments(h, now, buf, n, resend)| ==>
      DataSegments(h, now, buf, n, resend)[i].sn >= least
    ensures forall i :: 0 <= i < |DataSegments(h, now, buf, n, resend)| ==>
      DataSegments(h, now, buf, n, resend)[i].una == h.una && DataSegments(h, now, buf, n, resend)[i].cmd == CMD_PUSH
  {
    if n == 0 {
    } else {
      DataFrom(h, now, buf, n - 1, resend, least);
    }
  }

  /** What `y` puts out is recent at `x`, if what it has to acknowledge is. */
  lemma EmittedRecent(y: Node, x: Node, now: nat, resend: set<nat>, probeDue: bool)
    requires Link(x, y) && Link(y, x) && AcksFresh(y.kcp.rcv.acks, x.kcp.snd.nxt)
    ensures PacketRecent(Emitted(Unbounded, y.kcp, now, resend, probeDue), x.kcp.snd.nxt,
                         Flushed(Unbounded, y.kcp).snd.nxt)
  {
    var h, t := FlushHeader(y.kcp), Filled(Unbounded, y.kcp);
    PeerIsNear(x.kcp.snd, Sending(x), x.kcp.params.sndWnd, y.kcp.rcv, y.kcp.params.rcvWnd, Known(x));
    FillWindowKeepsSafe(y.kcp.snd, Sending(y), y.kcp.params.sndWnd, SendWindow(y.kcp), x.kcp.rcv);
    DataFrom(h, now, t.buf, |t.buf|, resend, t.una);
    var nxt, peerNxt := x.kcp.snd.nxt, t.nxt;
    assert PacketRecent(AckSegments(h, y.kcp.rcv.acks), nxt, peerNxt);
    var probes := ProbeSegments(h, LastAck(y.kcp.rcv.acks), AskSend(y.kcp, probeDue), y.kcp.askTell);
    assert PacketRecent(probes, nxt, peerNxt);
    assert PacketRecent(DataSegments(h, now, t.buf, |t.buf|, resend), nxt, peerNxt);
  }

  lemma PackedRecent(mtu: nat, emitted: seq<Segment>, sndNxt: nat, peerNxt: nat)
    requires PacketRecent(emitted, sndNxt, peerNxt)
    ensures AllRecent(Pack(mtu, emitted), sndNxt, peerNxt)
  {
    PackMembers(mtu, emitted);
    var packets := Pack(mtu, emitted);
    forall k | 0 <= k < |packets| ensures PacketRecent(packets[k], sndNxt, peerNxt) {
      assert Within(packets[k], emitted);
    }
  }

  lemma {:induction false} AcksForFresh(s: State, packet: seq<Segment>, n: nat, sndNxt: nat, peerNxt: nat)
    requires n <= |packet| && PacketRecent(packet, sndNxt, peerNxt)
    ensures AcksFresh(AcksFor(Unbounded, s, packet, n), peerNxt)
  {
    if n == 0 {
    } else {
      AcksForFresh(s, packet, n - 1, sndNxt, peerNxt);
      assert Recent(packet[n - 1], sndNxt, peerNxt);
    }
  }

  // ------------------------------------------------------------------ room at the receiver

  /** Every message has no more fragments than the peer's window. */
  ghost predicate AllFit(x: Node, wnd: nat)
    requires x.kcp.params.Valid()
  {
    forall k :: 0 <= k < |x.sent| ==> FragmentCount(x.kcp.params.Mss(), |x.sent[k]|) <= wnd
  }

  lemma LongEnough(fs: seq<Fragment>, queue: seq<Fragment>)
    requires forall i :: 0 <= i < |fs| && i < |queue| ==> queue[i] == fs[i]
    ensures |fs| <= |queue| ==> fs <= queue
  {
  }

  /** Once all complete messages have been handed over, there is room for more of the next. */
  lemma DrainedHasRoom(x: Node, y: Node)
    requires Link(x, y) && PeekSize(y.kcp.rcv.queue).Err?
    requires AllFit(x, y.kcp.params.rcvWnd) && x.sent != []
    ensures |y.kcp.rcv.queue| < y.kcp.params.rcvWnd
  {
    var mss, queue := x.kcp.params.Mss(), y.kcp.rcv.queue;
    assert FragmentCount(mss, |x.sent[0]|) >= 1;
    if queue != [] {
      QueueMatchesNext(mss, x.sent, y.got, y.kcp.rcv);
      PeekedIff(mss, x.sent, y);
      LongEnough(Fragments(mss, x.sent[|y.got|]), queue);
    }
  }

  lemma NothingStreams(mss: nat)
    requires mss > 0
    ensures Stream(mss, []) == []
  {
  }

  lemma WaitingIsStream(s: SendSide, stream: seq<Fragment>)
    requires SenderOk(s, stream) && |s.buf| + |s.queue| > 0
    ensures stream != []
  {
  }

  lemma SomethingSent(x: Node, y: Node)
    requires Link(x, y) && x.kcp.WaitSnd() > 0
    ensures x.sent != []
  {
    WaitingIsStream(x.kcp.snd, Sending(x));
    NothingStreams(x.kcp.params.Mss());
  }

  /** With room at the receiver, the next number is not one it holds. */
  lemma RoomIsNext(r: ReceiveSide, wnd: U16, known: seq<Fragment>)
    requires ReceiverOk(r, wnd, known) && Settled(r, wnd) && |r.queue| < wnd
    ensures !Held(r, r.nxt)
  {
    forall i | 0 <= i < |r.buf| ensures r.buf[i].sn > r.nxt {
      assert i > 0 ==> r.buf[0].sn < r.buf[i].sn;
    }
  }

  // ------------------------------------------------------------------ the sender's part

  /** What the sender puts out when the timers of its oldest segment and of the window probe are over. */
  function Burst(x: State): seq<Segment> { Emitted(Unbounded, x, 0, {0}, true) }

  /** Filling neither loses nor acknowledges anything. */
  lemma {:induction false} FillKeepsAll(x: SendSide, cwnd: nat)
    ensures var t := FillWindow(Unbounded, x, cwnd);
            |t.buf| + |t.queue| == |x.buf| + |x.queue| && t.una == x.una && x.buf <= t.buf
    decreases |x.queue|
  {
    if TimeDiff(Unbounded, x.nxt, Advance(Unbounded, x.una, cwnd)) >= 0 || x.queue == [] {
      assert FillWindow(Unbounded, x, cwnd) == x;
    } else {
      var t := OneMoved(Unbounded, x);
      assert FillWindow(Unbounded, x, cwnd) == FillWindow(Unbounded, t, cwnd);
      FillKeepsAll(t, cwnd);
    }
  }

  /** With an open window the oldest segment that waits is put out. */
  lemma BurstHasOldest(x: Node, y: Node)
    requires Link(x, y) && x.kcp.WaitSnd() > 0 && x.kcp.params.sndWnd > 0 && x.kcp.rmtWnd > 0
    ensures exists j :: 0 <= j < |Burst(x.kcp)| && Burst(x.kcp)[j].cmd == CMD_PUSH
              && Burst(x.kcp)[j].sn == x.kcp.snd.una
    ensures Flushed(Unbounded, x.kcp).snd.buf != []
    ensures Flushed(Unbounded, x.kcp).snd.buf[0].sn == x.kcp.snd.una
  {
    var s, t := x.kcp.snd, Filled(Unbounded, x.kcp);
    FillKeepsAll(s, SendWindow(x.kcp));
    FillCounts(s, SendWindow(x.kcp));
    assert t.buf != [];
    FillWindowKeepsSafe(s, Sending(x), x.kcp.params.sndWnd, SendWindow(x.kcp), y.kcp.rcv);
    assert t.buf[0].sn == t.una == s.una;
    OldestIsDue(FlushHeader(x.kcp), t.buf, |t.buf|, {0});
    var data := DataSegments(FlushHeader(x.kcp), 0, t.buf, |t.buf|, {0});
    var head := |Burst(x.kcp)| - |data|;
    assert Burst(x.kcp)[head] == data[0];
  }

  lemma {:induction false} OldestIsDue(h: Header, buf: seq<Sent>, n: nat, resend: set<nat>)
    requires 0 < n <= |buf| && 0 in resend
    ensures DataSegments(h, 0, buf, n, resend) != []
    ensures DataSegments(h, 0, buf, n, resend)[0] == DataSegment(h, 0, buf[0])
  {
    if n == 1 {
      assert DataSegments(h, 0, buf, 0, resend) == [];
    } else {
      OldestIsDue(h, buf, n - 1, resend);
    }
  }

  /** With a closed window the peer is asked for it. */
  lemma BurstAsks(x: State)
    requires x.rmtWnd == 0
    ensures AsksWindow(Burst(x))
  {
    var h, last := FlushHeader(x), LastAck(x.rcv.acks);
    var acks := AckSegments(h, x.rcv.acks);
    assert ProbeSegments(h, last, true, x.askTell)[0].cmd == CMD_WASK;
    assert Burst(x)[|acks|].cmd == CMD_WASK;
  }

  // ------------------------------------------------------------------ what an answer does

  lemma {:induction false} DropShrinks(buf: seq<Sent>, una: nat)
    ensures |DropAcked(Unbounded, buf, una)| <= |buf|
    ensures buf != [] && buf[0].sn < una ==> |DropAcked(Unbounded, buf, una)| < |buf|
  {
    if buf == [] || buf[0].sn >= una {
    } else {
      DropShrinks(buf[1..], una);
    }
  }

  lemma {:induction false} RemoveShrinks(buf: seq<Sent>, sn: nat)
    ensures |RemoveAcked(buf, sn)| <= |buf|
  {
    if buf == [] {
    } else {
      RemoveShrinks(buf[1..], sn);
    }
  }

  lemma SegmentShrinks(x: SendSide, seg: Segment)
    ensures var t := Acknowledge(Unbounded, x, seg);
            && t.queue == x.queue && |t.buf| <= |x.buf|
            && (x.buf != [] && x.buf[0].sn < seg.una ==> |t.buf| < |x.buf|)
  {
    DropShrinks(x.buf, seg.una);
    RemoveShrinks(DropAcked(Unbounded, x.buf, seg.una), seg.sn);
  }

  lemma {:induction false} InputShrinks(s: State, packet: seq<Segment>)
    ensures InputAll(Unbounded, s, packet).WaitSnd() <= s.WaitSnd()
    ensures packet != [] && s.snd.buf != [] && s.snd.buf[0].sn < packet[0].una ==>
      InputAll(Unbounded, s, packet).WaitSnd() < s.WaitSnd()
    decreases |packet|
  {
    if packet == [] {
    } else {
      SegmentShrinks(s.snd, packet[0]);
      InputShrinks(InputSegment(Unbounded, s, packet[0]), packet[1..]);
    }
  }

  // ------------------------------------------------------------------ one node to the other

  lemma ClosedConcat(p: Packer)
    ensures Concat(Closed(p)) == Concat(p.done) + p.open
  {
    assert (p.done + [p.open])[..|p.done|] == p.done;
  }

  lemma PutConcat(mtu: nat, p: Packer, seg: Segment)
    ensures var t := Put(mtu, p, seg);
            Concat(t.done) + t.open == Concat(p.done) + p.open + [seg]
  {
    ClosedConcat(p);
  }

  /** The segments put so far, in packets and in the open one. */
  predicate Contains(p: Packer, segments: seq<Segment>) { Concat(p.done) + p.open == segments }

  lemma NextContained(mtu: nat, segments: seq<Segment>, n: nat, next: nat, p: Packer)
    requires n < |segments| && next == n + 1 && Contains(p, segments[..n])
    ensures Contains(Put(mtu, p, segments[n]), segments[..next])
  {
    PutConcat(mtu, p, segments[n]);
    assert segments[..next] == segments[..n] + [segments[n]];
  }

  lemma {:induction false} PutAllConcat(mtu: nat, segments: seq<Segment>, n: nat)
    requires n <= |segments|
    ensures Contains(PutAll(mtu, segments, n), segments[..n])
  {
    if n == 0 {
    } else {
      PutAllConcat(mtu, segments, n - 1);
      NextContained(mtu, segments, n - 1, n, PutAll(mtu, segments, n - 1));
    }
  }

  lemma PackKeepsAll(mtu: nat, segments: seq<Segment>)
    ensures Concat(Pack(mtu, segments)) == segments
  {
    PutAllConcat(mtu, segments, |segments|);
    ClosedConcat(PutAll(mtu, segments, |segments|));
    assert segments[..|segments|] == segments;
  }

  /** What is pending after everything has arrived is as recent as what has arrived. */
  lemma PendingIsFresh(y: State, e: seq<Segment>, sndNxt: nat, peerNxt: nat)
    requires y.rcv.acks == [] && PacketRecent(e, sndNxt, peerNxt)
    ensures AcksFresh(InputAll(Unbounded, y, e).rcv.acks, peerNxt)
  {
    assert e[..|e|] == e;
    InputAcknowledges(Unbounded, y, e, |e|);
    AcksForFresh(y, e, |e|, sndNxt, peerNxt);
  }

  /** One node flushes, and all that it puts out reaches the other. */
  lemma Transfers(p: Pair, q: Pair, atA: bool, resend: set<nat>, probeDue: bool) returns (r: Pair)
    requires Usable(p) && Reaches(p, q) && Sound(q)
    requires AcksFresh(q.Me(atA).kcp.rcv.acks, q.Peer(atA).kcp.snd.nxt)
    ensures Reaches(p, r) && Sound(r) && SameParams(q, r)
    ensures r.Me(atA) == Act(Unbounded, q.Me(atA), q.Peer(atA), Flush(0, resend, probeDue))
    ensures var x, y := q.Me(atA), q.Peer(atA);
            r.Peer(atA) == y.(kcp := InputAll(Unbounded, y.kcp, Emitted(Unbounded, x.kcp, 0, resend, probeDue)))
    ensures q.Peer(atA).kcp.rcv.acks == [] ==> AcksFresh(r.Peer(atA).kcp.rcv.acks, r.Me(atA).kcp.snd.nxt)
  {
    var x, y, action := q.Me(atA), q.Peer(atA), Flush(0, resend, probeDue);
    var emitted := Emitted(Unbounded, x.kcp, 0, resend, probeDue);
    var packets := Pack(x.kcp.params.mtu, emitted);
    Acts(p, q, atA, action);
    var next := Acted(q, atA, action);
    EmittedRecent(x, y, 0, resend, probeDue);
    PackedRecent(x.kcp.params.mtu, emitted, y.kcp.snd.nxt, Flushed(Unbounded, x.kcp).snd.nxt);
    assert next.Me(atA).out[|x.out|..] == packets;
    r := DeliversAll(p, next, !atA, |x.out|);
    PackKeepsAll(x.kcp.params.mtu, emitted);
    if y.kcp.rcv.acks == [] {
      PendingIsFresh(y.kcp, emitted, y.kcp.snd.nxt, Flushed(Unbounded, x.kcp).snd.nxt);
    }
  }

  // ------------------------------------------------------------------ what a transfer does

  /** What the sender puts out is part of its stream, as far as that has been numbered then. */
  lemma BurstIsTrue(x: Node, y: Node)
    requires Link(x, y)
    ensures var t := Act(Unbounded, x, y, Flush(0, {0}, true));
            Link(t, y) && PacketDataTrue(Burst(x.kcp), Known(t))
  {
    var t := Act(Unbounded, x, y, Flush(0, {0}, true));
    FlushKeepsOutgoing(x, y, 0, {0}, true);
    FillWindowKeepsSafe(x.kcp.snd, Sending(x), x.kcp.params.sndWnd, SendWindow(x.kcp), y.kcp.rcv);
    FlushedData(x.kcp, 0, {0}, true, Known(t));
  }

  /** Where there is room, the number that the peer expects is not below the oldest that waits. */
  lemma RoomMeansBehind(x: Node, y: Node)
    requires Link(x, y) && Settled(y.kcp.rcv, y.kcp.params.rcvWnd) && |y.kcp.rcv.queue| < y.kcp.params.rcvWnd
    ensures x.kcp.snd.una <= y.kcp.rcv.nxt
  {
    AheadIff(x, y);
  }

  /** While a burst arrives, what the peer expects only rises. */
  lemma ExpectedRises(x: Node, y: Node, j: nat)
    requires Link(x, y) && j <= |Burst(x.kcp)|
    ensures When(Unbounded, y.kcp, Burst(x.kcp), j).rcv.nxt >= y.kcp.rcv.nxt
  {
    BurstIsTrue(x, y);
    InputKeepsReceiver(y.kcp, Burst(x.kcp)[..j], Known(Act(Unbounded, x, y, Flush(0, {0}, true))));
  }

  /** Where there is room the oldest segment arrives in reach of the window. */
  lemma OldestInReach(x: Node, y: Node) returns (j: nat)
    requires Link(x, y) && Settled(y.kcp.rcv, y.kcp.params.rcvWnd) && |y.kcp.rcv.queue| < y.kcp.params.rcvWnd
    requires x.kcp.WaitSnd() > 0 && x.kcp.params.sndWnd > 0 && x.kcp.rmtWnd > 0
    ensures x.kcp.snd.una <= y.kcp.rcv.nxt
    ensures j < |Burst(x.kcp)| && Burst(x.kcp)[j].sn == x.kcp.snd.una && InReach(Unbounded, y.kcp, Burst(x.kcp), j)
  {
    var e := Burst(x.kcp);
    RoomMeansBehind(x, y);
    BurstHasOldest(x, y);
    j :| 0 <= j < |e| && e[j].cmd == CMD_PUSH && e[j].sn == x.kcp.snd.una;
    ExpectedRises(x, y, j);
  }

  /** So it is held and is to be acknowledged. */
  lemma OldestArrives(x: Node, y: Node)
    requires Link(x, y) && Settled(y.kcp.rcv, y.kcp.params.rcvWnd) && |y.kcp.rcv.queue| < y.kcp.params.rcvWnd
    requires x.kcp.WaitSnd() > 0 && x.kcp.params.sndWnd > 0 && x.kcp.rmtWnd > 0
    ensures x.kcp.snd.una <= y.kcp.rcv.nxt <= InputAll(Unbounded, y.kcp, Burst(x.kcp)).rcv.nxt
    ensures InputAll(Unbounded, y.kcp, Burst(x.kcp)).rcv.acks != []
    ensures Held(InputAll(Unbounded, y.kcp, Burst(x.kcp)).rcv, x.kcp.snd.una)
  {
    var e, known := Burst(x.kcp), Known(Act(Unbounded, x, y, Flush(0, {0}, true)));
    var j := OldestInReach(x, y);
    BurstIsTrue(x, y);
    ReachIsPending(Unbounded, y.kcp, e, j);
    assert e[..|e|] == e;
    InputHolds(y.kcp, e, known, x.kcp.snd.una, |e|);
    InputKeepsReceiver(y.kcp, e, known);
  }

  lemma FlushKeepsWaiting(x: State)
    ensures Flushed(Unbounded, x).WaitSnd() == x.WaitSnd()
  {
    FillKeepsAll(x.snd, SendWindow(x));
  }

  /** Every segment of an answer tells the window and what is expected next. */
  lemma AnswerTells(y: State)
    ensures var e := Emitted(Unbounded, y, 0, {}, false);
            && (y.askTell || y.rcv.acks != [] ==> e != [])
            && forall i :: 0 <= i < |e| ==> Heads(y, e[i])
  {
    var h := FlushHeader(y);
    EmittedWrites(Unbounded, y, 0, {}, false);
    if y.askTell {
      var probes := ProbeSegments(h, LastAck(y.rcv.acks), AskSend(y, false), true);
      assert |probes| > 0;
    }
  }

  // ------------------------------------------------------------------ one round

  /** The beginning of a round: the receiver has nothing pending, and what the sender has is recent. */
  ghost predicate Ready(p: Pair, atA: bool) {
    Sound(p) && p.Peer(atA).kcp.rcv.acks == [] && AcksFresh(p.Me(atA).kcp.rcv.acks, p.Peer(atA).kcp.snd.nxt)
  }

  /** The sender's burst reaches the peer, which has handed over what it could before. */
  lemma GoesThere(p: Pair, q: Pair, atA: bool) returns (mid: Pair, there: Pair)
    requires Usable(p) && Reaches(p, q) && Ready(q, atA)
    ensures Reaches(p, there) && Sound(mid) && Sound(there) && SameParams(q, there)
    ensures mid.Me(atA) == q.Me(atA) && OnlyHanded(q.Peer(atA), mid.Peer(atA))
    ensures PeekSize(mid.Peer(atA).kcp.rcv.queue).Err?
    ensures there.Me(atA) == Act(Unbounded, mid.Me(atA), mid.Peer(atA), Flush(0, {0}, true))
    ensures there.Peer(atA)
      == mid.Peer(atA).(kcp := InputAll(Unbounded, mid.Peer(atA).kcp, Burst(mid.Me(atA).kcp)))
    ensures AcksFresh(there.Peer(atA).kcp.rcv.acks, there.Me(atA).kcp.snd.nxt)
  {
    mid := DrainsAll(p, q, !atA);
    there := Transfers(p, mid, atA, {0}, true);
  }

  /** The peer hands over what it can, and its answer reaches the sender, which has nothing pending. */
  lemma ComesBack(p: Pair, there: Pair, atA: bool) returns (back: Pair, r: Pair)
    requires Usable(p) && Reaches(p, there) && Sound(there)
    requires AcksFresh(there.Peer(atA).kcp.rcv.acks, there.Me(atA).kcp.snd.nxt)
    requires there.Me(atA).kcp.rcv.acks == []
    ensures Reaches(p, r) && Ready(r, atA) && SameParams(there, r)
    ensures Sound(back) && back.Me(atA) == there.Me(atA) && OnlyHanded(there.Peer(atA), back.Peer(atA))
    ensures PeekSize(back.Peer(atA).kcp.rcv.queue).Err?
    ensures r.Me(atA) == back.Me(atA).(
      kcp := InputAll(Unbounded, back.Me(atA).kcp, Emitted(Unbounded, back.Peer(atA).kcp, 0, {}, false)))
  {
    back := DrainsAll(p, there, !atA);
    r := Transfers(p, back, !atA, {}, false);
  }

  // ------------------------------------------------------------------ progress

  /** Where there is room for the oldest segment, the answer acknowledges it. */
  lemma AnswerAcknowledges(x: Node, y: Node, z: Node)
    requires Link(x, y) && Settled(y.kcp.rcv, y.kcp.params.rcvWnd) && |y.kcp.rcv.queue| < y.kcp.params.rcvWnd
    requires x.kcp.WaitSnd() > 0 && x.kcp.params.sndWnd > 0 && x.kcp.rmtWnd > 0
    requires OnlyHanded(y.(kcp := InputAll(Unbounded, y.kcp, Burst(x.kcp))), z) && !Held(z.kcp.rcv, z.kcp.rcv.nxt)
    ensures z.kcp.rcv.acks != [] && x.kcp.snd.una < z.kcp.rcv.nxt
  {
    OldestArrives(x, y);
  }

  /** The answer opens the sender's window, and never makes more wait. */
  lemma AnswerOpens(x: State, z: State)
    requires z.rcv.acks != [] || z.askTell
    requires |z.rcv.queue| < z.params.rcvWnd
    ensures var t := InputAll(Unbounded, x, Emitted(Unbounded, z, 0, {}, false));
            && t.rmtWnd > 0 && t.WaitSnd() <= x.WaitSnd()
            && (x.snd.buf != [] && x.snd.buf[0].sn < z.rcv.nxt ==> t.WaitSnd() < x.WaitSnd())
  {
    var e := Emitted(Unbounded, z, 0, {}, false);
    AnswerTells(z);
    InputTells(Unbounded, x, e);
    InputShrinks(x, e);
    assert Heads(z, e[0]) && Heads(z, e[|e| - 1]);
  }

  /** A round opens the sender's window, and if that was open, fewer fragments wait after it. */
  lemma Round(p: Pair, q: Pair, atA: bool) returns (r: Pair)
    requires Usable(p) && Reaches(p, q) && Ready(q, atA)
    requires q.Me(atA).kcp.WaitSnd() > 0 && q.Me(atA).kcp.params.sndWnd > 0
    requires AllFit(q.Me(atA), q.Peer(atA).kcp.params.rcvWnd)
    ensures Reaches(p, r) && Ready(r, atA) && SameParams(q, r) && r.Me(atA).sent == q.Me(atA).sent
    ensures r.Me(atA).kcp.rmtWnd > 0 && r.Me(atA).kcp.WaitSnd() <= q.Me(atA).kcp.WaitSnd()
    ensures q.Me(atA).kcp.rmtWnd > 0 ==> r.Me(atA).kcp.WaitSnd() < q.Me(atA).kcp.WaitSnd()
  {
    var mid, there := GoesThere(p, q, atA);
    var back;
    back, r := ComesBack(p, there, atA);
    RoundProgress(mid.Me(atA), mid.Peer(atA), there.Me(atA), back.Peer(atA));
  }

  /** What the four nodes of a round say of it: the sender before and after its burst, the peer before and after. */
  lemma RoundProgress(x: Node, y: Node, t: Node, z: Node)
    requires Link(x, y) && Settled(y.kcp.rcv, y.kcp.params.rcvWnd) && PeekSize(y.kcp.rcv.queue).Err?
    requires Link(t, z) && Settled(z.kcp.rcv, z.kcp.params.rcvWnd) && PeekSize(z.kcp.rcv.queue).Err?
    requires t == Act(Unbounded, x, y, Flush(0, {0}, true))
    requires OnlyHanded(y.(kcp := InputAll(Unbounded, y.kcp, Burst(x.kcp))), z)
    requires x.kcp.WaitSnd() > 0 && x.kcp.params.sndWnd > 0 && AllFit(x, y.kcp.params.rcvWnd)
    ensures var k := InputAll(Unbounded, t.kcp, Emitted(Unbounded, z.kcp, 0, {}, false));
            && k.rmtWnd > 0 && k.WaitSnd() <= x.kcp.WaitSnd()
            && (x.kcp.rmtWnd > 0 ==> k.WaitSnd() < x.kcp.WaitSnd())
  {
    InputKeepsParams(y.kcp, Burst(x.kcp));
    SomethingSent(x, y);
    DrainedHasRoom(x, y);
    DrainedHasRoom(t, z);
    RoomIsNext(z.kcp.rcv, z.kcp.params.rcvWnd, Known(t));
    FlushKeepsWaiting(x.kcp);
    if x.kcp.rmtWnd > 0 {
      AnswerAcknowledges(x, y, z);
      BurstHasOldest(x, y);
    } else {
      BurstAsks(x.kcp);
      InputTells(Unbounded, y.kcp, Burst(x.kcp));
    }
    AnswerOpens(t.kcp, z.kcp);
  }

  /** Round after round, until nothing waits. */
  lemma {:induction false} Finishes(p: Pair, q: Pair, atA: bool) returns (r: Pair)
    requires Usable(p) && Reaches(p, q) && Ready(q, atA) && q.Me(atA).kcp.params.sndWnd > 0
    requires AllFit(q.Me(atA), q.Peer(atA).kcp.params.rcvWnd)
    ensures Reaches(p, r) && Sound(r) && SameParams(q, r)
    ensures r.Me(atA).sent == q.Me(atA).sent && r.Me(atA).kcp.WaitSnd() == 0
    decreases q.Me(atA).kcp.WaitSnd() * 2 + (if q.Me(atA).kcp.rmtWnd == 0 then 1 else 0)
  {
    if q.Me(atA).kcp.WaitSnd() == 0 {
      r := q;
    } else {
      var next := Round(p, q, atA);
      r := Finishes(p, next, atA);
    }
  }

  // ------------------------------------------------------------------ the end

  lemma {:induction false} StreamCounts(mss: nat, messages: seq<Message>)
    requires mss > 0
    ensures |Stream(mss, messages)| >= |messages|
  {
    if messages == [] {
    } else {
      StreamCounts(mss, messages[..|messages| - 1]);
    }
  }

  /** When the peer has everything and has handed over what it could, it has handed over everything. */
  lemma AllHandedOver(x: Node, y: Node)
    requires Link(x, y) && Settled(y.kcp.rcv, y.kcp.params.rcvWnd) && PeekSize(y.kcp.rcv.queue).Err?
    requires x.kcp.WaitSnd() == 0 && AllFit(x, y.kcp.params.rcvWnd)
    ensures y.got == x.sent
  {
    if x.sent != [] {
      var r := y.kcp.rcv;
      DrainedHasRoom(x, y);
      RoomIsNext(r, y.kcp.params.rcvWnd, Known(x));
      AcceptedWhenQuiet(x, y);
      assert r.nxt >= |Sending(x)|;
      assert r.buf == [];
      NothingQueued(x, y);
    }
  }

  lemma NothingQueued(x: Node, y: Node)
    requires Link(x, y) && PeekSize(y.kcp.rcv.queue).Err? && y.kcp.rcv.nxt >= |Sending(x)|
    ensures y.kcp.rcv.queue == []
  {
    var mss, got, queue := x.kcp.params.Mss(), y.got, y.kcp.rcv.queue;
    PeekedIff(mss, x.sent, y);
    assert |Stream(mss, got)| + |queue| == |Sending(x)|;
    if queue != [] {
      QueueMatchesNext(mss, x.sent, got, y.kcp.rcv);
      LongEnough(Fragments(mss, x.sent[|got|]), queue);
      assert x.sent[..|got|] == got;
      StreamSnoc(mss, x.sent, |got|);
      StreamPrefix(mss, x.sent, |got| + 1);
    }
  }

  /** Both nodes flush, and the network loses it: nothing is pending any more. */
  lemma BecomesReady(p: Pair, atA: bool) returns (r: Pair)
    requires Sound(p)
    ensures Reaches(p, r) && Ready(r, atA) && SameParams(p, r) && r.Me(atA).sent == p.Me(atA).sent
  {
    ReachesItself(p);
    Acts(p, p, !atA, Flush(0, {}, false));
    var q := Acted(p, !atA, Flush(0, {}, false));
    Acts(p, q, atA, Flush(0, {}, false));
    r := Acted(q, atA, Flush(0, {}, false));
  }

  /** From wherever the run is, everything that was submitted can be handed over. */
  lemma CanBeFinished(p: Pair, atA: bool) returns (r: Pair)
    requires Sound(p) && p.Me(atA).kcp.params.sndWnd > 0
    requires AllFit(p.Me(atA), p.Peer(atA).kcp.params.rcvWnd)
    ensures Reaches(p, r) && r.Me(atA).sent == p.Me(atA).sent == r.Peer(atA).got && r.Me(atA).kcp.WaitSnd() == 0
  {
    var ready := BecomesReady(p, atA);
    var quiet := Finishes(p, ready, atA);
    r := DrainsAll(p, quiet, !atA);
    AllHandedOver(r.Me(atA), r.Peer(atA));
  }

  // ------------------------------------------------------------------ what cannot be finished

  /** What has been handed over had room in the peer's window. */
  ghost predicate GotFits(x: Node, y: Node)
    requires x.kcp.params.Valid()
  {
    forall k :: 0 <= k < |y.got| ==> FragmentCount(x.kcp.params.Mss(), |y.got[k]|) <= y.kcp.params.rcvWnd
  }

  /** A sender without a window has numbered nothing. */
  predicate NothingNumbered(x: State) { x.params.sndWnd == 0 ==> x.snd.nxt == 0 }

  lemma ActKeepsFit(x: Node, y: Node, action: Action)
    requires Link(x, y) && GotFits(x, y)
    ensures var t := Act(Unbounded, y, x, action);
            t.kcp.params == y.kcp.params && GotFits(x, t)
  {
    ActKeepsParams(Unbounded, y, x, action);
    if action.Drain? && PeekSize(y.kcp.rcv.queue).Ok? {
      DrainHandsOver(x, y);
      PeekedIff(x.kcp.params.Mss(), x.sent, y);
    }
  }

  lemma FlushNumbersNothing(x: State)
    requires x.params.sndWnd == 0 && x.snd.una <= x.snd.nxt
    ensures Flushed(Unbounded, x).snd.nxt == x.snd.nxt
  {
    assert SendWindow(x) == 0;
    assert Filled(Unbounded, x) == x.snd;
  }

  lemma UnaBelow(x: Node, y: Node)
    requires Link(x, y)
    ensures x.kcp.snd.una <= x.kcp.snd.nxt
  {
  }

  lemma ActKeepsNothing(x: Node, y: Node, action: Action)
    requires Link(x, y) && NothingNumbered(x.kcp)
    ensures NothingNumbered(Act(Unbounded, x, y, action).kcp)
  {
    ActKeepsParams(Unbounded, x, y, action);
    match action
    case Submit(_) =>
    case Flush(_, _, _) =>
      UnaBelow(x, y);
      if x.kcp.params.sndWnd == 0 { FlushNumbersNothing(x.kcp); }
    case Deliver(index) =>
      if index < |y.out| {
        InputKeepsSender(x.kcp, y.out[index], Sending(x), x.kcp.params.sndWnd, y.kcp.rcv);
      }
    case Drain =>
  }

  ghost predicate Limited(p: Pair)
    requires Usable(p)
  {
    GotFits(p.a, p.b) && GotFits(p.b, p.a) && NothingNumbered(p.a.kcp) && NothingNumbered(p.b.kcp)
  }

  lemma StepIsLimited(p: Pair, move: Move)
    requires Inv(p) && Limited(p)
    ensures Usable(Step(Unbounded, p, move)) && Limited(Step(Unbounded, p, move))
  {
    StepKeepsParams(p, move);
    if move.atA {
      ActKeepsFit(p.b, p.a, move.action);
      ActKeepsNothing(p.a, p.b, move.action);
    } else {
      ActKeepsFit(p.a, p.b, move.action);
      ActKeepsNothing(p.b, p.a, move.action);
    }
  }

  lemma {:induction false} RunIsLimited(pa: Params, pb: Params, moves: seq<Move>, n: nat)
    requires pa.Valid() && pb.Valid() && n <= |moves|
    ensures Limited(Run(Unbounded, pa, pb, moves, n))
  {
    if n == 0 {
    } else {
      RunIsLimited(pa, pb, moves, n - 1);
      RunKeepsInv(pa, pb, moves, n - 1);
      StepIsLimited(Run(Unbounded, pa, pb, moves, n - 1), moves[n - 1]);
    }
  }

  /** What has all been handed over had room, and a window to be sent in. */
  lemma FinishedHadRoom(x: Node, y: Node)
    requires Link(x, y) && GotFits(x, y) && NothingNumbered(x.kcp) && y.got == x.sent
    ensures AllFit(x, y.kcp.params.rcvWnd) && (x.sent != [] ==> x.kcp.params.sndWnd > 0)
  {
    StreamCounts(x.kcp.params.Mss(), y.got);
  }

  // ------------------------------------------------------------------ in every run

  lemma {:induction false} RunGoesOn(pa: Params, pb: Params, moves: seq<Move>, more: seq<Move>)
    requires pa.Valid() && pb.Valid() && Timely(pa, pb, moves)
    requires TimelyGo(Run(Unbounded, pa, pb, moves, |moves|), more)
    ensures Timely(pa, pb, moves + more)
    ensures Run(Unbounded, pa, pb, moves + more, |moves + more|) == Go(Run(Unbounded, pa, pb, moves, |moves|), more)
    decreases |more|
  {
    if more == [] {
      assert moves + more == moves;
    } else {
      var n := |more| - 1;
      var before, last := moves + more[..n], more[n];
      RunGoesOn(pa, pb, moves, more[..n]);
      assert moves + more == before + [last];
      OneMoreMove(pa, pb, before, last);
    }
  }

  lemma {:induction false} SameBeginning(pa: Params, pb: Params, moves: seq<Move>, last: Move, n: nat)
    requires pa.Valid() && pb.Valid() && n <= |moves|
    ensures Run(Unbounded, pa, pb, moves + [last], n) == Run(Unbounded, pa, pb, moves, n)
  {
    if n == 0 {
    } else {
      SameBeginning(pa, pb, moves, last, n - 1);
    }
  }

  lemma TimelyEarlier(pa: Params, pb: Params, moves: seq<Move>, last: Move, n: nat)
    requires pa.Valid() && pb.Valid() && n < |moves| && TimelyAt(pa, pb, moves, n)
    ensures TimelyAt(pa, pb, moves + [last], n)
  {
    SameBeginning(pa, pb, moves, last, n);
    assert (moves + [last])[n] == moves[n];
  }

  lemma TimelyLast(pa: Params, pb: Params, moves: seq<Move>, last: Move)
    requires pa.Valid() && pb.Valid() && TimelyMove(Run(Unbounded, pa, pb, moves, |moves|), last)
    ensures TimelyAt(pa, pb, moves + [last], |moves|)
  {
    SameBeginning(pa, pb, moves, last, |moves|);
    assert (moves + [last])[|moves|] == last;
  }

  lemma RunNext(pa: Params, pb: Params, moves: seq<Move>, last: Move)
    requires pa.Valid() && pb.Valid()
    ensures Run(Unbounded, pa, pb, moves + [last], |moves + [last]|)
      == Step(Unbounded, Run(Unbounded, pa, pb, moves, |moves|), last)
  {
    SameBeginning(pa, pb, moves, last, |moves|);
  }

  lemma OneMoreMove(pa: Params, pb: Params, moves: seq<Move>, last: Move)
    requires pa.Valid() && pb.Valid() && Timely(pa, pb, moves)
    requires TimelyMove(Run(Unbounded, pa, pb, moves, |moves|), last)
    ensures Timely(pa, pb, moves + [last])
    ensures Run(Unbounded, pa, pb, moves + [last], |moves + [last]|)
      == Step(Unbounded, Run(Unbounded, pa, pb, moves, |moves|), last)
  {
    RunNext(pa, pb, moves, last);
    TimelyLast(pa, pb, moves, last);
    forall n | 0 <= n < |moves| ensures TimelyAt(pa, pb, moves + [last], n) {
      TimelyEarlier(pa, pb, moves, last, n);
    }
  }

  /** The run can go on, timely, until the peer has handed over all that had been submitted. */
  ghost predicate CanFinish(pa: Params, pb: Params, moves: seq<Move>, atA: bool)
    requires pa.Valid() && pb.Valid()
  {
    exists more :: FinishesWith(pa, pb, moves, atA, more)
  }

  ghost predicate FinishesWith(pa: Params, pb: Params, moves: seq<Move>, atA: bool, more: seq<Move>)
    requires pa.Valid() && pb.Valid()
  {
    var sent := Run(Wrapping, pa, pb, moves, |moves|).Me(atA).sent;
    var q := Run(Wrapping, pa, pb, moves + more, |moves + more|);
    Timely(pa, pb, moves + more) && q.Me(atA).sent == sent == q.Peer(atA).got && q.Me(atA).kcp.WaitSnd() == 0
  }

  /** Each message submitted has no more fragments than the peer's window; and there is a window to send them in. */
  ghost predicate Deliverable(p: Pair, atA: bool)
    requires Usable(p)
  {
    p.Me(atA).sent == []
    || (p.Me(atA).kcp.params.sndWnd > 0 && AllFit(p.Me(atA), p.Peer(atA).kcp.params.rcvWnd))
  }

  /**
   No deadlock: whatever the network has lost, repeated and reordered in a run so far, it can go on so that
   every message is handed over and nothing waits any more, exactly if every message fits the peer's window.
   */
  lemma NeverStuckIff(pa: Params, pb: Params, moves: seq<Move>, atA: bool)
    requires pa.Valid() && pb.Valid() && Timely(pa, pb, moves)
    ensures CanFinish(pa, pb, moves, atA) <==> Deliverable(Run(Wrapping, pa, pb, moves, |moves|), atA)
  {
    WrappingRefinesUnbounded(pa, pb, moves, |moves|);
    if Deliverable(Run(Unbounded, pa, pb, moves, |moves|), atA) {
      DeliverableFinishes(pa, pb, moves, atA);
    }
    if more :| FinishesWith(pa, pb, moves, atA, more) {
      FinishedIsDeliverable(pa, pb, moves, atA, more);
    }
  }

  lemma FinishedIsDeliverable(pa: Params, pb: Params, moves: seq<Move>, atA: bool, more: seq<Move>)
    requires pa.Valid() && pb.Valid() && FinishesWith(pa, pb, moves, atA, more)
    ensures Deliverable(Run(Wrapping, pa, pb, moves, |moves|), atA)
  {
    WrappingRefinesUnbounded(pa, pb, moves + more, |moves + more|);
    RunKeepsInv(pa, pb, moves + more, |moves + more|);
    RunIsLimited(pa, pb, moves + more, |moves + more|);
    var q := Run(Unbounded, pa, pb, moves + more, |moves + more|);
    FinishedHadRoom(q.Me(atA), q.Peer(atA));
  }

  lemma NothingToDo(x: Node, y: Node)
    requires Link(x, y) && x.sent == []
    ensures y.got == [] && x.kcp.WaitSnd() == 0
  {
    NothingStreams(x.kcp.params.Mss());
  }

  lemma DeliverableFinishes(pa: Params, pb: Params, moves: seq<Move>, atA: bool)
    requires pa.Valid() && pb.Valid() && Timely(pa, pb, moves)
    requires Deliverable(Run(Unbounded, pa, pb, moves, |moves|), atA)
    ensures CanFinish(pa, pb, moves, atA)
  {
    WrappingRefinesUnbounded(pa, pb, moves, |moves|);
    RunKeepsInv(pa, pb, moves, |moves|);
    RunSettles(Unbounded, pa, pb, moves, |moves|);
    var p := Run(Unbounded, pa, pb, moves, |moves|);
    if p.Me(atA).sent == [] {
      NothingToDo(p.Me(atA), p.Peer(atA));
      assert moves + [] == moves;
      assert FinishesWith(pa, pb, moves, atA, []);
    } else {
      var r := CanBeFinished(p, atA);
      var more :| TimelyGo(p, more) && Go(p, more) == r;
      RunGoesOn(pa, pb, moves, more);
      WrappingRefinesUnbounded(pa, pb, moves + more, |moves + more|);
      assert FinishesWith(pa, pb, moves, atA, more);
    }
  }

  // ------------------------------------------------------------------ which windows suffice

  /** `send` takes only what is smaller than its own receive window. */
  ghost predicate OwnFit(x: Node)
    requires x.kcp.params.Valid()
  {
    forall k :: 0 <= k < |x.sent| ==> FragmentCount(x.kcp.params.Mss(), |x.sent[k]|) < x.kcp.params.rcvWnd
  }

  lemma ActKeepsOwnFit(x: Node, y: Node, action: Action)
    requires x.kcp.params.Valid() && OwnFit(x)
    ensures var t := Act(Unbounded, x, y, action);
            t.kcp.params == x.kcp.params && OwnFit(t)
  {
    ActKeepsParams(Unbounded, x, y, action);
  }

  lemma {:induction false} RunKeepsOwnFit(pa: Params, pb: Params, moves: seq<Move>, n: nat)
    requires pa.Valid() && pb.Valid() && n <= |moves|
    ensures var p := Run(Unbounded, pa, pb, moves, n);
            OwnFit(p.a) && OwnFit(p.b)
  {
    if n == 0 {
    } else {
      RunKeepsOwnFit(pa, pb, moves, n - 1);
      var p := Run(Unbounded, pa, pb, moves, n - 1);
      ActKeepsOwnFit(p.a, p.b, moves[n - 1].action);
      ActKeepsOwnFit(p.b, p.a, moves[n - 1].action);
    }
  }

  /** With windows of one size on both sides no run is ever stuck, in neither direction. */
  lemma NeverStuck(pa: Params, pb: Params, moves: seq<Move>, atA: bool)
    requires pa.Valid() && pb.Valid() && Timely(pa, pb, moves)
    requires pa.sndWnd > 0 && pb.sndWnd > 0 && pa.rcvWnd == pb.rcvWnd
    ensures CanFinish(pa, pb, moves, atA)
  {
    RunKeepsOwnFit(pa, pb, moves, |moves|);
    var p := Run(Unbounded, pa, pb, moves, |moves|);
    assert AllFit(p.Me(atA), p.Peer(atA).kcp.params.rcvWnd);
    DeliverableFinishes(pa, pb, moves, atA);
  }

  /** `send` does not know the peer's window: a message of three fragments is taken for a peer that has room for two. */
  lemma StuckAtSmallerWindow(message: Message)
    requires |message| == 150
    ensures var pa, pb, moves := Params(7, 100, 2, 5), Params(7, 100, 2, 2), [Move(true, Submit(message))];
            Timely(pa, pb, moves) && !CanFinish(pa, pb, moves, true)
  {
    var pa, pb, moves := Params(7, 100, 2, 5), Params(7, 100, 2, 2), [Move(true, Submit(message))];
    assert FragmentCount(72, 150) == 1 + FragmentCount(72, 78) == 3;
    assert Run(Wrapping, pa, pb, moves, 0) == Pair(Start(pa), Start(pb));
    var p := Run(Wrapping, pa, pb, moves, 1);
    assert p.a.sent == [message];
    assert Timely(pa, pb, moves);
    NeverStuckIff(pa, pb, moves, true);
    assert FragmentCount(pa.Mss(), |p.Me(true).sent[0]|) == 3;
  }
}
