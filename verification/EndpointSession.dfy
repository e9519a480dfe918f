/**
 One session around its KCP control block, with packets and messages as bytes.  A ghost node
 follows the block; every method does to it what `EndpointSpec` says.
 */
module EndpointSession {
  import opened Bytes
  import opened EndpointSpec
  import opened Kcp
  import opened KcpCodec
  import opened KcpMachine
  import opened KcpPair
  import opened Wire

  class EndpointSession {
    const kcp: Block

    /** The block's state, with everything it put out, was given and handed over. */
    ghost var node: Node

    ghost predicate Valid()
      reads this, kcp
    {
      kcp.Valid() && kcp.output == [] && node.kcp == kcp.View()
    }

    constructor (params: Params)
      requires params.Valid()
      ensures Valid() && fresh(kcp) && node == Start(params)
    {
      kcp := new Block(params);
      node := Start(params);
    }

    /** Takes the packets that the block put out. */
    method TakeOutput() returns (packets: seq<seq<Byte>>)
      modifies kcp`output
      ensures packets == old(kcp.output) && kcp.output == []
    {
      packets := kcp.output;
      kcp.output := [];
    }

    /** The block follows the node; packets may wait to be taken. */
    ghost predicate Following()
      reads this, kcp
    {
      kcp.Valid() && node.kcp == kcp.View()
    }

    method RunTimer(t: Timing)
      requires Valid() && t.now < WRAP
      modifies this, kcp
      ensures Following() && kcp.updated && kcp.current == t.now
      ensures node == Polled(old(node), t)
      ensures kcp.output == EncodePackets(NewPackets(old(node), node))
    {
      PolledPackets(node, t);
      kcp.Update(t.now, t.due, t.resend, t.probe);
      node := Polled(node, t);
    }

    method FlushAgain(t: Timing)
      requires Following() && kcp.updated && kcp.current == t.now
      modifies this, kcp
      ensures Following()
      ensures node == Do(old(node), Flushing(t.now, t.resendNext, t.probeNext))
      ensures kcp.output == old(kcp.output) + EncodePackets(NewPackets(old(node), node))
    {
      FlushPackets(node, t);
      var outcome := kcp.Flush(t.resendNext, t.probeNext);
      node := Do(node, Flushing(t.now, t.resendNext, t.probeNext));
    }

    /** Runs the block's timer. */
    method Poll(t: Timing) returns (packets: seq<seq<Byte>>)
      requires Valid() && t.now < WRAP
      modifies this, kcp
      ensures Valid() && node == Polled(old(node), t)
      ensures packets == EncodePackets(NewPackets(old(node), node))
    {
      RunTimer(t);
      packets := TakeOutput();
    }

    /** Runs the timer and flushes, whether or not the timer was due. */
    method FlushNow(t: Timing) returns (packets: seq<seq<Byte>>)
      requires Valid() && t.now < WRAP
      modifies this, kcp
      ensures Valid() && node == FlushedNow(old(node), t)
      ensures packets == EncodePackets(NewPackets(old(node), node))
    {
      ghost var before := node;
      RunTimer(t);
      FlushAgain(t);
      PacketsAdd(before, t);
      packets := TakeOutput();
    }

    /** Sends a message that the block accepts. */
    method SendMessage(m: SessionMessage, t: Timing) returns (packets: seq<seq<Byte>>)
      requires Valid() && t.now < WRAP && Accepts(kcp.params, EncodeSession(m))
      modifies this, kcp
      ensures Valid() && node == Submitting(old(node), m, t)
      ensures packets == EncodePackets(NewPackets(old(node), node))
    {
      var message := EncodeSession(m);
      var outcome := kcp.SendMessage(message);
      node := Do(node, Submitted(message));
      packets := FlushNow(t);
    }

    /** Takes out every complete message. */
    method RecvMessages() returns (messages: seq<seq<Byte>>)
      requires Valid()
      modifies this, kcp
      ensures Valid() && node == AllDrained(old(node))
      ensures node.got == old(node).got + messages
    {
      messages := [];
      while true
        invariant Valid()
        invariant AllDrained(node) == AllDrained(old(node))
        invariant node.got == old(node).got + messages
        decreases Holding(node)
      {
        var size := kcp.Peek();
        if size.Err? { break; }
        DrainProgress(node);
        var outcome, payload := kcp.Recv(size.size);
        FrontFits(node.kcp.rcv.queue);
        node := Do(node, Drained);
        messages := messages + [payload];
      }
    }

    /** A packet from the peer: it is answered, and the messages it completed are taken out. */
    method InputPacket(packet: seq<Byte>, t: Timing) returns (messages: seq<seq<Byte>>, packets: seq<seq<Byte>>)
      requires Valid() && t.now < WRAP
      requires |packet| >= OVERHEAD && Parse(kcp.params.conv, packet, |packet|).outcome.Ok?
      modifies this, kcp
      ensures Valid()
      ensures var segments := Parse(kcp.params.conv, packet, |packet|).segments;
              && node == Receiving(old(node), segments, t)
              && packets == EncodePackets(NewPackets(old(node), node))
      ensures node.got == old(node).got + messages
    {
      ghost var before := node;
      ghost var segments := Parse(kcp.params.conv, packet, |packet|).segments;
      var outcome := kcp.Input(t.now, packet);
      node := Do(node, Arrived(segments));
      DeedWaits(before, Arrived(segments));
      packets := FlushNow(t);
      FlushedNowFollows(Do(before, Arrived(segments)), t);
      AllDrainedFollows(node);
      messages := RecvMessages();
    }
  }

  /** The room asked for is the room the front message takes. */
  lemma FrontFits(queue: seq<Fragment>)
    requires PeekSize(queue).Ok?
    ensures PeekSize(queue).size == |FrontMessage(queue)|
  {
    if queue[0].frg == 0 {
      var front := queue[..MessageEnd(queue)];
      assert front == [queue[0]] && front[1..] == [];
      assert Joined(front) == queue[0].data + Joined(front[1..]);
    }
  }

  lemma PolledPackets(n: Node, t: Timing)
    requires n.kcp.params.Valid()
    ensures NewPackets(n, Polled(n, t)) ==
      if t.due then Pack(n.kcp.params.mtu, Emitted(Wrapping, n.kcp, t.now, t.resend, t.probe)) else []
  {
  }

  lemma FlushPackets(n: Node, t: Timing)
    requires n.kcp.params.Valid()
    ensures NewPackets(n, Do(n, Flushing(t.now, t.resendNext, t.probeNext)))
      == Pack(n.kcp.params.mtu, Emitted(Wrapping, n.kcp, t.now, t.resendNext, t.probeNext))
  {
  }

  lemma PacketsChain(n: Node, m: Node, k: Node)
    requires n.out <= m.out <= k.out
    ensures EncodePackets(NewPackets(n, k)) == EncodePackets(NewPackets(n, m)) + EncodePackets(NewPackets(m, k))
  {
    assert k.out[|n.out|..] == m.out[|n.out|..] + k.out[|m.out|..];
  }

  /** What the timer put out comes before what the flush put out. */
  lemma PacketsAdd(n: Node, t: Timing)
    requires n.kcp.params.Valid()
    ensures var m := Polled(n, t);
            EncodePackets(NewPackets(n, FlushedNow(n, t)))
            == EncodePackets(NewPackets(n, m)) + EncodePackets(NewPackets(m, FlushedNow(n, t)))
  {
    var m := Polled(n, t);
    PolledFollows(n, t);
    FlushFollows(m, t.now, t.resendNext, t.probeNext);
    PacketsChain(n, m, FlushedNow(n, t));
  }
}
