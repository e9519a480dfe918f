/**
 What a run of two control blocks guarantees.  A run is any sequence of moves of either
 node.  It is executed twice: by the machine that counts modulo 2^32, and by the machine
 whose numbers never wrap, which gives each number on the wire its absolute meaning.
 */
module KcpTheorems {
  import opened KcpMachine
  import opened KcpPair
  import opened KcpSafety
  import opened KcpWrap

  function Step(num: Numbering, p: Pair, move: Move): Pair
    requires p.a.kcp.params.Valid() && p.b.kcp.params.Valid()
  {
    if move.atA then p.(a := Act(num, p.a, p.b, move.action))
    else p.(b := Act(num, p.b, p.a, move.action))
  }

  lemma {:induction false} InputKeeps(num: Numbering, s: State, packet: seq<Segment>)
    ensures InputAll(num, s, packet).params == s.params
    decreases |packet|
  {
    if packet == [] {
    } else {
      InputKeeps(num, InputSegment(num, s, packet[0]), packet[1..]);
    }
  }

  lemma ActKeepsParams(num: Numbering, me: Node, peer: Node, action: Action)
    requires me.kcp.params.Valid()
    ensures Act(num, me, peer, action).kcp.params == me.kcp.params
  {
    if action.Deliver? && action.index < |peer.out| {
      InputKeeps(num, me.kcp, peer.out[action.index]);
    }
  }

  /** The pair after the first `n` moves. */
  function Run(num: Numbering, pa: Params, pb: Params, moves: seq<Move>, n: nat): (p: Pair)
    requires pa.Valid() && pb.Valid() && n <= |moves|
    ensures p.a.kcp.params == pa && p.b.kcp.params == pb
  {
    if n == 0 then Pair(Start(pa), Start(pb))
    else
      var p := Run(num, pa, pb, moves, n - 1);
      var move := moves[n - 1];
      ActKeepsParams(num, p.a, p.b, move.action);
      ActKeepsParams(num, p.b, p.a, move.action);
      Step(num, p, move)
  }

  /** A delivery hands over a packet whose numbers are less than half the space old. */
  ghost predicate TimelyMove(p: Pair, move: Move) {
    var (me, peer) := if move.atA then (p.a, p.b) else (p.b, p.a);
    move.action.Deliver? && move.action.index < |peer.out| ==>
      PacketRecent(peer.out[move.action.index], me.kcp.snd.nxt, peer.kcp.snd.nxt)
  }

  /** Every delivery of the run is timely; nothing else is asked of the network. */
  ghost predicate Timely(pa: Params, pb: Params, moves: seq<Move>)
    requires pa.Valid() && pb.Valid()
  {
    forall n :: 0 <= n < |moves| ==> TimelyAt(pa, pb, moves, n)
  }

  ghost predicate TimelyAt(pa: Params, pb: Params, moves: seq<Move>, n: nat)
    requires pa.Valid() && pb.Valid() && n < |moves|
  {
    TimelyMove(Run(Unbounded, pa, pb, moves, n), moves[n])
  }

  /** No move of either node can break the invariant, timely or not. */
  lemma StepKeepsInv(p: Pair, move: Move)
    requires Inv(p)
    ensures Inv(Step(Unbounded, p, move))
  {
    if move.atA {
      ActKeepsOutgoing(p.a, p.b, move.action);
      ActKeepsIncoming(p.b, p.a, move.action);
    } else {
      ActKeepsOutgoing(p.b, p.a, move.action);
      ActKeepsIncoming(p.a, p.b, move.action);
    }
  }

  lemma StartInv(pa: Params, pb: Params)
    requires pa.Valid() && pb.Valid()
    ensures Inv(Pair(Start(pa), Start(pb)))
  {
  }

  lemma {:induction false} RunKeepsInv(pa: Params, pb: Params, moves: seq<Move>, n: nat)
    requires pa.Valid() && pb.Valid() && n <= |moves|
    ensures Inv(Run(Unbounded, pa, pb, moves, n))
  {
    if n == 0 {
      StartInv(pa, pb);
    } else {
      RunKeepsInv(pa, pb, moves, n - 1);
      StepKeepsInv(Run(Unbounded, pa, pb, moves, n - 1), moves[n - 1]);
    }
  }

  lemma StepWraps(p: Pair, move: Move)
    requires Inv(p) && TimelyMove(p, move)
    ensures Step(Wrapping, WrapPair(p), move) == WrapPair(Step(Unbounded, p, move))
  {
    if move.atA { ActWraps(p.a, p.b, move.action); } else { ActWraps(p.b, p.a, move.action); }
  }

  lemma StartWraps(pa: Params, pb: Params)
    ensures WrapPair(Pair(Start(pa), Start(pb))) == Pair(Start(pa), Start(pb))
  {
  }

  /** Counting modulo 2^32 loses nothing: the wrapped machine follows the absolute one. */
  lemma {:induction false} WrappingRefinesUnbounded(pa: Params, pb: Params, moves: seq<Move>, n: nat)
    requires pa.Valid() && pb.Valid() && n <= |moves| && Timely(pa, pb, moves)
    ensures Run(Wrapping, pa, pb, moves, n) == WrapPair(Run(Unbounded, pa, pb, moves, n))
  {
    if n == 0 {
      StartWraps(pa, pb);
    } else {
      WrappingRefinesUnbounded(pa, pb, moves, n - 1);
      NextWraps(pa, pb, moves, n - 1, n);
    }
  }

  lemma NextWraps(pa: Params, pb: Params, moves: seq<Move>, n: nat, next: nat)
    requires pa.Valid() && pb.Valid() && n < |moves| && next == n + 1 && Timely(pa, pb, moves)
    requires Run(Wrapping, pa, pb, moves, n) == WrapPair(Run(Unbounded, pa, pb, moves, n))
    ensures Run(Wrapping, pa, pb, moves, next) == WrapPair(Run(Unbounded, pa, pb, moves, next))
  {
    RunKeepsInv(pa, pb, moves, n);
    assert TimelyAt(pa, pb, moves, n);
    StepWraps(Run(Unbounded, pa, pb, moves, n), moves[n]);
  }

  /**
   Ordered, exactly-once delivery: whatever the network does, the messages one node hands
   over are a prefix of the messages the other was given, with bytes and boundaries intact.
   */
  lemma OrderedExactlyOnce(pa: Params, pb: Params, moves: seq<Move>)
    requires pa.Valid() && pb.Valid() && Timely(pa, pb, moves)
    ensures var p := Run(Wrapping, pa, pb, moves, |moves|);
            p.b.got <= p.a.sent && p.a.got <= p.b.sent
  {
    WrappingRefinesUnbounded(pa, pb, moves, |moves|);
    RunKeepsInv(pa, pb, moves, |moves|);
  }

  /**
   No loss by acknowledgement: every number given out is still buffered by its sender, or
   held by the receiver.  The words of the real machine stand for the numbers of `q`.
   */
  lemma NoLossByAcknowledgement(pa: Params, pb: Params, moves: seq<Move>)
    requires pa.Valid() && pb.Valid() && Timely(pa, pb, moves)
    ensures var q := Run(Unbounded, pa, pb, moves, |moves|);
            && Run(Wrapping, pa, pb, moves, |moves|) == WrapPair(q)
            && NoneLost(q.a.kcp.snd, q.b.kcp.rcv) && NoneLost(q.b.kcp.snd, q.a.kcp.rcv)
  {
    WrappingRefinesUnbounded(pa, pb, moves, |moves|);
    RunKeepsInv(pa, pb, moves, |moves|);
  }

  lemma {:induction false} SentSpreadsOut(buf: seq<Sent>, i: nat)
    requires SortedSent(buf) && i < |buf|
    ensures buf[i].sn >= buf[0].sn + i
  {
    if i == 0 {
    } else {
      SentSpreadsOut(buf, i - 1);
    }
  }

  /** The bounds of both windows of one node, in the words the node itself stores. */
  ghost predicate WindowsBounded(s: State) {
    && |s.snd.buf| <= s.params.sndWnd
    && TimeDiff(Wrapping, s.snd.nxt, s.snd.una) <= s.params.sndWnd
    && (forall i :: 0 <= i < |s.snd.buf| ==>
      0 <= TimeDiff(Wrapping, s.snd.buf[i].sn, s.snd.una) < TimeDiff(Wrapping, s.snd.nxt, s.snd.una))
    && (forall i, j :: 0 <= i < j < |s.snd.buf| ==>
      TimeDiff(Wrapping, s.snd.buf[j].sn, s.snd.buf[i].sn) > 0)
    && |s.rcv.queue| <= s.params.rcvWnd
    && |s.rcv.buf| <= s.params.rcvWnd
    && (forall i :: 0 <= i < |s.rcv.buf| ==>
      0 <= TimeDiff(Wrapping, s.rcv.buf[i].sn, s.rcv.nxt) < s.params.rcvWnd)
    && (forall i, j :: 0 <= i < j < |s.rcv.buf| ==>
      TimeDiff(Wrapping, s.rcv.buf[j].sn, s.rcv.buf[i].sn) > 0)
  }

  lemma LinkBoundsSender(x: Node, y: Node)
    requires Link(x, y)
    ensures var s := WrapSnd(x.kcp.snd);
            && |s.buf| <= x.kcp.params.sndWnd
            && TimeDiff(Wrapping, s.nxt, s.una) <= x.kcp.params.sndWnd
            && (forall i :: 0 <= i < |s.buf| ==>
              0 <= TimeDiff(Wrapping, s.buf[i].sn, s.una) < TimeDiff(Wrapping, s.nxt, s.una))
            && (forall i, j :: 0 <= i < j < |s.buf| ==> TimeDiff(Wrapping, s.buf[j].sn, s.buf[i].sn) > 0)
  {
    var s := x.kcp.snd;
    if s.buf != [] { SentSpreadsOut(s.buf, |s.buf| - 1); }
    TimeDiffWord(s.nxt, s.una);
    forall i | 0 <= i < |s.buf|
      ensures TimeDiff(Wrapping, Word(s.buf[i].sn), Word(s.una)) == s.buf[i].sn - s.una
    {
      TimeDiffWord(s.buf[i].sn, s.una);
    }
    forall i, j | 0 <= i < j < |s.buf|
      ensures TimeDiff(Wrapping, Word(s.buf[j].sn), Word(s.buf[i].sn)) > 0
    {
      TimeDiffWord(s.buf[j].sn, s.buf[i].sn);
    }
  }

  lemma LinkBoundsReceiver(x: Node, y: Node)
    requires Link(x, y)
    ensures var r, wnd := WrapRcv(y.kcp.rcv), y.kcp.params.rcvWnd;
            && |r.queue| <= wnd && |r.buf| <= wnd
            && (forall i :: 0 <= i < |r.buf| ==> 0 <= TimeDiff(Wrapping, r.buf[i].sn, r.nxt) < wnd)
            && (forall i, j :: 0 <= i < j < |r.buf| ==> TimeDiff(Wrapping, r.buf[j].sn, r.buf[i].sn) > 0)
  {
    var r := y.kcp.rcv;
    WindowSize(r, y.kcp.params.rcvWnd, Known(x));
    forall i | 0 <= i < |r.buf|
      ensures TimeDiff(Wrapping, Word(r.buf[i].sn), Word(r.nxt)) == r.buf[i].sn - r.nxt
    {
      TimeDiffWord(r.buf[i].sn, r.nxt);
    }
    forall i, j | 0 <= i < j < |r.buf|
      ensures TimeDiff(Wrapping, Word(r.buf[j].sn), Word(r.buf[i].sn)) > 0
    {
      TimeDiffWord(r.buf[j].sn, r.buf[i].sn);
    }
  }

  /** Both windows of both nodes keep their bounds and their order in every run. */
  lemma WindowsStayBounded(pa: Params, pb: Params, moves: seq<Move>)
    requires pa.Valid() && pb.Valid() && Timely(pa, pb, moves)
    ensures var p := Run(Wrapping, pa, pb, moves, |moves|);
            WindowsBounded(p.a.kcp) && WindowsBounded(p.b.kcp)
  {
    WrappingRefinesUnbounded(pa, pb, moves, |moves|);
    RunKeepsInv(pa, pb, moves, |moves|);
    var q := Run(Unbounded, pa, pb, moves, |moves|);
    LinkBoundsSender(q.a, q.b);
    LinkBoundsSender(q.b, q.a);
    LinkBoundsReceiver(q.a, q.b);
    LinkBoundsReceiver(q.b, q.a);
  }

  /** The receiver has everything the sender was given: each fragment is held. */
  ghost predicate HasAll(x: Node, y: Node)
    requires x.kcp.params.Valid()
  {
    forall n: nat :: n < |Sending(x)| ==> Held(y.kcp.rcv, n)
  }

  /**
   When nothing waits at the sender any more, the peer has accepted every fragment of every
   message; and once the peer has drained its buffers it has handed over all of them.
   */
  lemma QuiescentMeansAccepted(pa: Params, pb: Params, moves: seq<Move>, atA: bool)
    requires pa.Valid() && pb.Valid() && Timely(pa, pb, moves)
    requires Run(Wrapping, pa, pb, moves, |moves|).Me(atA).kcp.WaitSnd() == 0
    ensures var q := Run(Unbounded, pa, pb, moves, |moves|);
            HasAll(q.Me(atA), q.Peer(atA))
    ensures var p := Run(Wrapping, pa, pb, moves, |moves|);
            var r := p.Peer(atA).kcp.rcv;
            r.buf == [] && r.queue == [] ==> p.Peer(atA).got == p.Me(atA).sent
  {
    WrappingRefinesUnbounded(pa, pb, moves, |moves|);
    RunKeepsInv(pa, pb, moves, |moves|);
    var q := Run(Unbounded, pa, pb, moves, |moves|);
    AcceptedWhenQuiet(q.Me(atA), q.Peer(atA));
  }

  lemma AcceptedWhenQuiet(x: Node, y: Node)
    requires Link(x, y) && x.kcp.WaitSnd() == 0
    ensures HasAll(x, y)
    ensures y.kcp.rcv.buf == [] && y.kcp.rcv.queue == [] ==> y.got == x.sent
  {
    var s, r, mss := x.kcp.snd, y.kcp.rcv, x.kcp.params.Mss();
    forall n: nat | n < |Sending(x)| ensures Held(r, n) {
      assert Kept(s, r, n);
    }
    if r.buf == [] && r.queue == [] {
      if |Sending(x)| > 0 { assert Held(r, |Sending(x)| - 1); }
      assert |Stream(mss, y.got)| == |Sending(x)|;
      assert x.sent[..|y.got|] == y.got;
      if |y.got| < |x.sent| {
        StreamSnoc(mss, x.sent, |y.got|);
        StreamPrefix(mss, x.sent, |y.got| + 1);
      }
    }
  }
}
