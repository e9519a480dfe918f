/**
 The control block itself: an object whose methods update its fields in loops and whose
 packets are byte strings.  Every method is proved to do what `KcpMachine` says, on
 wrapping numbers.
 */
module Kcp {
  import opened Bytes
  import opened KcpMachine
  import opened KcpCodec
  import opened KcpInput
  import opened KcpFlush

  type U32 = x: int | 0 <= x < 0x1_0000_0000

  class Block {
    const params: Params
    var sndUna: U32
    var sndNxt: U32
    var rcvNxt: U32
    var rmtWnd: U16
    var askSend: bool
    var askTell: bool
    var current: U32
    var updated: bool
    var sndQueue: seq<Fragment>
    var rcvQueue: seq<Fragment>
    var sndBuf: seq<Sent>
    var rcvBuf: seq<Numbered>
    var acklist: seq<Ack>
    var buf: seq<Byte>
    var output: seq<seq<Byte>>

    /** Every number stored is a 32-bit word; nothing is left half packed. */
    ghost predicate Valid()
      reads this
    {
      && params.Valid()
      && buf == []
      && WordSized()
    }

    ghost predicate WordSized()
      reads `sndBuf, `rcvBuf
    {
      && (forall i :: 0 <= i < |sndBuf| ==> sndBuf[i].sn < WRAP)
      && (forall i :: 0 <= i < |rcvBuf| ==> rcvBuf[i].sn < WRAP)
    }

    ghost function Snd(): SendSide
      reads `sndUna, `sndNxt, `sndQueue, `sndBuf
    {
      SendSide(sndUna, sndNxt, sndQueue, sndBuf)
    }

    ghost function Rcv(): ReceiveSide
      reads `rcvNxt, `rcvBuf, `rcvQueue, `acklist
    {
      ReceiveSide(rcvNxt, rcvBuf, rcvQueue, acklist)
    }

    /** The block's state, as the machine sees it. */
    ghost function View(): State
      reads this
    {
      State(params, Snd(), Rcv(), rmtWnd, askSend, askTell)
    }

    constructor (params: Params)
      requires params.Valid()
      ensures Valid() && View() == Init(params) && output == [] && !updated
    {
      this.params := params;
      sndUna, sndNxt, rcvNxt := 0, 0, 0;
      rmtWnd := params.rcvWnd;
      askSend, askTell, updated, current := false, false, false, 0;
      sndQueue, rcvQueue, sndBuf, rcvBuf, acklist := [], [], [], [], [];
      buf, output := [], [];
    }

    method MoveBuf()
      requires WordSized()
      modifies `rcvNxt, `rcvBuf, `rcvQueue
      ensures WordSized() && Rcv() == KcpMachine.MoveBuf(Wrapping, params.rcvWnd, old(Rcv()))
    {
      while rcvBuf != []
        invariant WordSized()
        invariant KcpMachine.MoveBuf(Wrapping, params.rcvWnd, Rcv())
          == KcpMachine.MoveBuf(Wrapping, params.rcvWnd, old(Rcv()))
        decreases |rcvBuf|
      {
        if rcvBuf[0].sn == rcvNxt && |rcvQueue| < params.rcvWnd {
          rcvNxt := Advance(Wrapping, rcvNxt, 1);
        } else {
          break;
        }
        rcvQueue := rcvQueue + [rcvBuf[0].fragment];
        rcvBuf := rcvBuf[1..];
      }
    }

    method Peek() returns (outcome: Outcome)
      ensures outcome == PeekSize(rcvQueue)
    {
      if rcvQueue == [] { return Err(RecvQueueEmpty); }
      if rcvQueue[0].frg == 0 { return Ok(|rcvQueue[0].data|); }
      if |rcvQueue| < (rcvQueue[0].frg + 1) % 256 { return Err(ExpectingFragment); }
      var len, i := 0, 0;
      while i < |rcvQueue|
        invariant i <= |rcvQueue|
        invariant len + |FrontMessage(rcvQueue[i..])| == |FrontMessage(rcvQueue)|
      {
        FrontMessageStep(rcvQueue[i..]);
        assert rcvQueue[i..][1..] == rcvQueue[i + 1..];
        len := len + |rcvQueue[i].data|;
        if rcvQueue[i].frg == 0 { break; }
        i := i + 1;
      }
      return Ok(len);
    }

    method Recv(capacity: nat) returns (outcome: Outcome, message: seq<Byte>)
      requires Valid()
      modifies `rcvNxt, `rcvBuf, `rcvQueue, `askTell
      ensures Valid()
      ensures var peek := PeekSize(old(rcvQueue));
              if peek.Err? then outcome == peek && message == [] && View() == old(View())
              else if peek.size > capacity then
                outcome == Err(UserBufTooSmall) && message == [] && View() == old(View())
              else
                && outcome == Ok(|message|) && message == FrontMessage(old(rcvQueue))
                && View() == Received(Wrapping, old(View()))
    {
      message := [];
      if rcvQueue == [] { return Err(RecvQueueEmpty), message; }
      var peek := Peek();
      if peek.Err? { return peek, message; }
      if peek.size > capacity { return Err(UserBufTooSmall), message; }
      var recover := |rcvQueue| >= params.rcvWnd;
      message := TakeFront();
      MoveBuf();
      if |rcvQueue| < params.rcvWnd && recover { askTell := true; }
      outcome := Ok(|message|);
    }

    /** Takes the fragments of the front message off the queue and joins them. */
    method TakeFront() returns (message: seq<Byte>)
      modifies `rcvQueue
      ensures message == FrontMessage(old(rcvQueue))
      ensures rcvQueue == old(rcvQueue)[MessageEnd(old(rcvQueue))..]
    {
      message := [];
      while rcvQueue != []
        invariant message + FrontMessage(rcvQueue) == FrontMessage(old(rcvQueue))
        invariant rcvQueue[MessageEnd(rcvQueue)..] == old(rcvQueue)[MessageEnd(old(rcvQueue))..]
        decreases |rcvQueue|
      {
        FrontMessageStep(rcvQueue);
        var fragment := rcvQueue[0];
        rcvQueue := rcvQueue[1..];
        message := message + fragment.data;
        if fragment.frg == 0 { break; }
      }
    }

    /** One fragment of the front message, and what is left of it. */
    static lemma FrontMessageStep(queue: seq<Fragment>)
      requires queue != []
      ensures FrontMessage(queue)
        == queue[0].data + (if queue[0].frg == 0 then [] else FrontMessage(queue[1..]))
      ensures queue[MessageEnd(queue)..]
        == if queue[0].frg == 0 then queue[1..] else queue[1..][MessageEnd(queue[1..])..]
    {
      var front := queue[..MessageEnd(queue)];
      assert front[1..] == if queue[0].frg == 0 then [] else queue[1..][..MessageEnd(queue[1..])];
      assert Joined(front) == front[0].data + Joined(front[1..]);
    }

    method SendMessage(message: seq<Byte>) returns (outcome: Outcome)
      requires params.Valid()
      modifies `sndQueue
      ensures View() == Send(old(View()), message)
      ensures outcome == if Accepts(params, message) then Ok(|message|) else Err(UserBufTooBig)
    {
      var mss := params.Mss();
      var ceil := (|message| + mss - 1) / mss;
      var count := if ceil < 1 then 1 else ceil;
      FragmentCountIsDivCeil(mss, |message|);
      if count >= params.rcvWnd || count >= 256 { return Err(UserBufTooBig); }
      Split(message, mss, count);
      return Ok(|message|);
    }

    method Split(message: seq<Byte>, mss: nat, count: nat)
      requires mss > 0 && count == FragmentCount(mss, |message|) <= 256
      modifies `sndQueue
      ensures sndQueue == old(sndQueue) + Fragments(mss, message)
    {
      var rest := message;
      ghost var done := [];
      assert done + Fragments(mss, message) == Fragments(mss, message);
      for i := 0 to count
        invariant SplitAt(mss, message, rest, done, count - i)
        invariant sndQueue == old(sndQueue) + done
      {
        var size := if mss < |rest| then mss else |rest|;
        SplitNext(mss, message, rest, done, count - i, size);
        var fragment := Fragment(count - i - 1, rest[..size]);
        sndQueue := sndQueue + [fragment];
        rest := rest[size..];
        done := done + [fragment];
      }
    }

    /** `done` are the fragments cut off so far; `left` more are in `rest`. */
    static ghost predicate SplitAt(mss: nat, message: seq<Byte>, rest: seq<Byte>, done: seq<Fragment>, left: nat)
      requires mss > 0
    {
      if left == 0 then done == Fragments(mss, message)
      else FragmentCount(mss, |rest|) == left && done + Fragments(mss, rest) == Fragments(mss, message)
    }

    static lemma SplitNext(
        mss: nat, message: seq<Byte>, rest: seq<Byte>, done: seq<Fragment>, left: nat, size: nat)
      requires mss > 0 && 0 < left <= 256 && SplitAt(mss, message, rest, done, left)
      requires size == if mss < |rest| then mss else |rest|
      ensures SplitAt(mss, message, rest[size..], done + [Fragment(left - 1, rest[..size])], left - 1)
    {
      FragmentsStep(mss, rest, left);
      var fragment := Fragment(left - 1, rest[..size]);
      if left > 1 {
        assert done + ([fragment] + Fragments(mss, rest[size..])) == done + [fragment] + Fragments(mss, rest[size..]);
      }
    }

    static lemma FragmentsStep(mss: nat, rest: seq<Byte>, k: nat)
      requires mss > 0 && k <= 256 && FragmentCount(mss, |rest|) == k
      ensures var size := if mss < |rest| then mss else |rest|;
              && Fragments(mss, rest)
                == [Fragment(k - 1, rest[..size])] + (if k > 1 then Fragments(mss, rest[size..]) else [])
              && (k > 1 ==> FragmentCount(mss, |rest[size..]|) == k - 1)
    {
      if |rest| <= mss {
        assert rest[..|rest|] == rest;
      } else {
        assert FragmentCount(mss, |rest|) == 1 + FragmentCount(mss, |rest| - mss);
      }
    }

    method ShrinkBuf()
      requires WordSized()
      modifies `sndUna
      ensures Snd() == Shrink(old(Snd()))
    {
      sndUna := if sndBuf == [] then sndNxt else sndBuf[0].sn;
    }

    method ParseUna(una: U32)
      requires WordSized()
      modifies `sndBuf
      ensures WordSized() && Snd() == KcpMachine.ParseUna(Wrapping, old(Snd()), una)
    {
      while sndBuf != []
        invariant WordSized()
        invariant DropAcked(Wrapping, sndBuf, una) == DropAcked(Wrapping, old(sndBuf), una)
        decreases |sndBuf|
      {
        if TimeDiff(Wrapping, una, sndBuf[0].sn) > 0 { sndBuf := sndBuf[1..]; } else { break; }
      }
    }

    method ParseAck(sn: U32)
      requires WordSized()
      modifies `sndBuf
      ensures WordSized() && Snd() == KcpMachine.ParseAck(Wrapping, old(Snd()), sn)
    {
      if TimeDiff(Wrapping, sn, sndUna) < 0 || TimeDiff(Wrapping, sn, sndNxt) >= 0 { return; }
      var i := 0;
      while i < |sndBuf|
        invariant i <= |sndBuf| && sndBuf == old(sndBuf)
        invariant RemoveAcked(sndBuf, sn) == sndBuf[..i] + RemoveAcked(sndBuf[i..], sn)
      {
        RemoveAckedStep(sndBuf, i, sn);
        if sn == sndBuf[i].sn {
          sndBuf := sndBuf[..i] + sndBuf[i + 1..];
          break;
        } else if sn < sndBuf[i].sn {
          break;
        } else {
          i := i + 1;
        }
      }
    }

    static lemma RemoveAckedStep(buf: seq<Sent>, i: nat, sn: U32)
      requires i < |buf| && buf[i].sn < WRAP
      ensures buf[..i] + RemoveAcked(buf[i..], sn)
        == if sn == buf[i].sn then buf[..i] + buf[i + 1..]
           else if sn < buf[i].sn then buf
           else buf[..i + 1] + RemoveAcked(buf[i + 1..], sn)
    {
      assert buf[i..][1..] == buf[i + 1..];
      assert buf == buf[..i] + buf[i..];
      assert buf[..i] + ([buf[i]] + RemoveAcked(buf[i + 1..], sn))
        == buf[..i + 1] + RemoveAcked(buf[i + 1..], sn);
    }

    method ParseData(x: Numbered)
      requires x.sn < WRAP && WordSized()
      modifies `rcvNxt, `rcvBuf, `rcvQueue
      ensures WordSized() && Rcv() == KcpMachine.ParseData(Wrapping, params.rcvWnd, old(Rcv()), x)
    {
      if TimeDiff(Wrapping, x.sn, Advance(Wrapping, rcvNxt, params.rcvWnd)) >= 0
        || TimeDiff(Wrapping, x.sn, rcvNxt) < 0
      {
        return;
      }
      var repeat, newIndex := false, |rcvBuf|;
      while newIndex > 0
        invariant 0 <= newIndex <= |rcvBuf|
        invariant FindSlot(Wrapping, rcvBuf, x.sn, newIndex) == FindSlot(Wrapping, rcvBuf, x.sn, |rcvBuf|)
        invariant !repeat
      {
        if rcvBuf[newIndex - 1].sn == x.sn {
          repeat := true;
          break;
        }
        if TimeDiff(Wrapping, x.sn, rcvBuf[newIndex - 1].sn) > 0 { break; }
        newIndex := newIndex - 1;
      }
      if !repeat {
        rcvBuf := rcvBuf[..newIndex] + [x] + rcvBuf[newIndex..];
      }
      MoveBuf();
    }

    method InputPush(seg: Segment)
      requires Encodable(seg) && seg.cmd == CMD_PUSH && WordSized()
      modifies `rcvNxt, `rcvBuf, `rcvQueue, `acklist
      ensures WordSized() && Rcv() == Accept(Wrapping, params.rcvWnd, old(Rcv()), seg)
      ensures acklist == old(acklist)
        + (if TimeDiff(Wrapping, seg.sn, Advance(Wrapping, old(rcvNxt), params.rcvWnd)) < 0
           then [Ack(seg.sn, seg.ts)] else [])
    {
      AcceptAcknowledges(Wrapping, params.rcvWnd, Rcv(), seg);
      if TimeDiff(Wrapping, seg.sn, Advance(Wrapping, rcvNxt, params.rcvWnd)) < 0 {
        acklist := acklist + [Ack(seg.sn, seg.ts)];
        if TimeDiff(Wrapping, seg.sn, rcvNxt) >= 0 {
          ParseData(Numbered(seg.sn, Fragment(seg.frg, seg.data)));
        }
      }
    }

    /** Every segment says what its sender has received up to; an ACK also names one segment. */
    method LearnAcks(seg: Segment)
      requires Encodable(seg) && WordSized()
      modifies `sndUna, `sndBuf
      ensures WordSized() && Snd() == Acknowledge(Wrapping, old(Snd()), seg)
    {
      ParseUna(seg.una);
      ShrinkBuf();
      if seg.cmd == CMD_ACK {
        ParseAck(seg.sn);
        ShrinkBuf();
      }
    }

    /** What one segment of a packet does. */
    method InputOne(seg: Segment)
      requires Valid() && Encodable(seg) && KnownCmd(seg.cmd)
      modifies `sndUna, `sndBuf, `rcvNxt, `rcvBuf, `rcvQueue, `acklist, `rmtWnd, `askTell
      ensures Valid() && View() == InputSegment(Wrapping, old(View()), seg)
    {
      rmtWnd := seg.wnd;
      LearnAcks(seg);
      if seg.cmd == CMD_PUSH {
        InputPush(seg);
      } else if seg.cmd == CMD_WASK {
        askTell := true;
      }
    }

    method Input(now: U32, packet: seq<Byte>) returns (outcome: Outcome)
      requires Valid()
      modifies `sndUna, `sndBuf, `rcvNxt, `rcvBuf, `rcvQueue, `acklist, `rmtWnd, `askTell, `current
      ensures Valid()
      ensures if |packet| < OVERHEAD
              then outcome == Err(InvalidSegmentSize) && View() == old(View()) && current == old(current)
              else
                var parsed := Parse(params.conv, packet, |packet|);
                && outcome == parsed.outcome
                && View() == InputAll(Wrapping, old(View()), parsed.segments)
                && current == now
    {
      if |packet| < OVERHEAD { return Err(InvalidSegmentSize); }
      current := now;
      var rest := packet;
      while |rest| >= OVERHEAD
        invariant Valid() && |rest| <= |packet|
        invariant Parse(params.conv, rest, |packet|).outcome == Parse(params.conv, packet, |packet|).outcome
        invariant InputAll(Wrapping, View(), Parse(params.conv, rest, |packet|).segments)
          == InputAll(Wrapping, old(View()), Parse(params.conv, packet, |packet|).segments)
        invariant current == now
        decreases |rest|
      {
        if HeaderConv(rest) != params.conv { return Err(ConvInconsistent); }
        var len := HeaderLen(rest);
        if |rest| - OVERHEAD < len { return Err(InvalidSegmentDataSize); }
        if !KnownCmd(rest[8]) { return Err(UnsupportedCmd); }
        var seg := FrontSegment(rest);
        FrontIsEncodable(rest);
        InputOne(seg);
        rest := rest[OVERHEAD + len..];
      }
      return Ok(|packet| - |rest|);
    }

    static lemma FrontIsEncodable(bytes: seq<Byte>)
      requires |bytes| >= OVERHEAD && |bytes| - OVERHEAD >= HeaderLen(bytes)
      ensures Encodable(FrontSegment(bytes)) && FrontSegment(bytes).cmd == bytes[8]
    {
      Widths();
      ReadBound(bytes[..8]);
      ReadBound(bytes[12..16]);
      ReadBound(bytes[16..20]);
      ReadBound(bytes[20..24]);
      ReadBound(bytes[24..28]);
    }

    method EmitOutput()
      modifies `buf, `output
      ensures buf == []
      ensures output == if old(buf) == [] then old(output) else old(output) + [old(buf)]
    {
      if buf != [] {
        output := output + [buf];
        buf := [];
      }
    }

    /** `written` has gone out after the packets `before`, some of it still in `buf`. */
    ghost predicate Written(before: seq<seq<Byte>>, written: seq<Segment>)
      reads `buf, `output
    {
      WrittenAs(params.mtu, before, written, output, buf)
    }

    static ghost predicate WrittenAs(
        mtu: nat, before: seq<seq<Byte>>, written: seq<Segment>, output: seq<seq<Byte>>, buf: seq<Byte>)
    {
      var p := PutAll(mtu, written, |written|);
      output == before + EncodePackets(p.done) && buf == EncodePacket(p.open)
    }

    method Write(seg: Segment, ghost before: seq<seq<Byte>>, ghost written: seq<Segment>)
      requires Written(before, written)
      modifies `buf, `output
      ensures Written(before, written + [seg])
    {
      WriteStep(params.mtu, before, written, seg, output, buf);
      if |buf| + OVERHEAD + |seg.data| > params.mtu { EmitOutput(); }
      buf := buf + Encode(seg);
    }

    static lemma {:induction false} PutAllPrefix(mtu: nat, written: seq<Segment>, more: seq<Segment>, n: nat)
      requires n <= |written|
      ensures PutAll(mtu, written + more, n) == PutAll(mtu, written, n)
    {
      if n == 0 {
      } else {
        PutAllPrefix(mtu, written, more, n - 1);
      }
    }

    static lemma PutAllNext(mtu: nat, written: seq<Segment>, seg: Segment)
      ensures PutAll(mtu, written + [seg], |written + [seg]|) == Put(mtu, PutAll(mtu, written, |written|), seg)
    {
      PutAllPrefix(mtu, written, [seg], |written|);
    }

    /** The open packet is closed first when the segment would not fit. */
    static lemma WriteStep(
        mtu: nat, before: seq<seq<Byte>>, written: seq<Segment>, seg: Segment, output: seq<seq<Byte>>, buf: seq<Byte>)
      requires WrittenAs(mtu, before, written, output, buf)
      ensures if |buf| + SegmentSize(seg) > mtu
              then WrittenAs(mtu, before, written + [seg], if buf == [] then output else output + [buf],
                             [] + Encode(seg))
              else WrittenAs(mtu, before, written + [seg], output, buf + Encode(seg))
    {
      var p := PutAll(mtu, written, |written|);
      PutAllNext(mtu, written, seg);
      assert |buf| == Size(p.open);
      if |buf| + SegmentSize(seg) > mtu {
        EncodeClosed(p);
        EncodeOne(seg);
      } else {
        EncodeMore(p.open, seg);
      }
    }

    static lemma EncodeMore(packet: seq<Segment>, seg: Segment)
      ensures EncodePacket(packet + [seg]) == EncodePacket(packet) + Encode(seg)
    {
      assert (packet + [seg])[..|packet|] == packet;
    }

    static lemma EncodeOne(seg: Segment)
      ensures EncodePacket([seg]) == [] + Encode(seg)
    {
      EncodeMore([], seg);
      assert [] + [seg] == [seg];
    }

    static lemma EncodeClosed(p: Packer)
      ensures EncodePackets(Closed(p))
        == if EncodePacket(p.open) == [] then EncodePackets(p.done) else EncodePackets(p.done) + [EncodePacket(p.open)]
    {
    }

    /** Closes the packet under construction: everything written is now in whole packets. */
    method Close(ghost before: seq<seq<Byte>>, ghost written: seq<Segment>)
      requires Written(before, written)
      modifies `buf, `output
      ensures buf == [] && output == before + EncodePackets(Pack(params.mtu, written))
    {
      EncodeClosed(PutAll(params.mtu, written, |written|));
      EmitOutput();
    }

    method FlushAcks(h: Header, ghost before: seq<seq<Byte>>)
      requires buf == [] && output == before
      modifies `buf, `output, `acklist
      ensures Written(before, AckSegments(h, old(acklist)))
      ensures acklist == []
    {
      assert EncodePackets([]) == [];
      ghost var segments := AckSegments(h, acklist);
      for i := 0 to |acklist|
        invariant Written(before, segments[..i])
        invariant acklist == old(acklist)
      {
        Write(Segment(h.conv, CMD_ACK, 0, h.wnd, acklist[i].ts, acklist[i].sn, h.una, []), before, segments[..i]);
        assert segments[..i] + [segments[i]] == segments[..i + 1];
      }
      assert segments[..|acklist|] == segments;
      acklist := [];
    }

    method FlushProbe(cmd: Byte, h: Header, last: Ack, ghost before: seq<seq<Byte>>, ghost written: seq<Segment>)
      requires Written(before, written)
      modifies `buf, `output
      ensures Written(before, written + [Segment(h.conv, cmd, 0, h.wnd, last.ts, last.sn, h.una, [])])
    {
      Write(Segment(h.conv, cmd, 0, h.wnd, last.ts, last.sn, h.una, []), before, written);
    }

    method FlushProbes(h: Header, last: Ack, ghost before: seq<seq<Byte>>, ghost written: seq<Segment>)
      requires Written(before, written)
      modifies `buf, `output, `askSend, `askTell
      ensures Written(before, written + ProbeSegments(h, last, old(askSend), old(askTell)))
      ensures !askSend && !askTell
    {
      ghost var asked := written;
      if askSend {
        FlushProbe(CMD_WASK, h, last, before, written);
        asked := written + [Segment(h.conv, CMD_WASK, 0, h.wnd, last.ts, last.sn, h.una, [])];
      }
      ghost var told := asked;
      if askTell {
        FlushProbe(CMD_WINS, h, last, before, asked);
        told := asked + [Segment(h.conv, CMD_WINS, 0, h.wnd, last.ts, last.sn, h.una, [])];
      }
      assert told == written + ProbeSegments(h, last, askSend, askTell);
      askSend, askTell := false, false;
    }

    method MoveToSendBuffer(cwnd: U16)
      requires WordSized()
      modifies `sndNxt, `sndBuf, `sndQueue
      ensures WordSized() && Snd() == FillWindow(Wrapping, old(Snd()), cwnd)
    {
      while TimeDiff(Wrapping, sndNxt, Advance(Wrapping, sndUna, cwnd)) < 0
        invariant WordSized()
        invariant FillWindow(Wrapping, Snd(), cwnd) == FillWindow(Wrapping, old(Snd()), cwnd)
        decreases |sndQueue|
      {
        if sndQueue == [] { break; }
        sndBuf := sndBuf + [Sent(sndNxt, sndQueue[0], false)];
        sndNxt := Advance(Wrapping, sndNxt, 1);
        sndQueue := sndQueue[1..];
      }
    }

    method FlushOne(
        h: Header, i: nat, resend: set<nat>, ghost before: seq<seq<Byte>>, ghost was: seq<Sent>,
        ghost written: seq<Segment>)
      requires i < |sndBuf| == |was| && sndBuf[i] == was[i]
      requires Written(before, written + DataSegments(h, current, was, i, resend))
      modifies `buf, `output, `sndBuf
      ensures sndBuf == old(sndBuf)[i := was[i].(transmitted := true)]
      ensures Written(before, written + DataSegments(h, current, was, i + 1, resend))
    {
      var x := sndBuf[i];
      ghost var sofar := written + DataSegments(h, current, was, i, resend);
      if !x.transmitted || i in resend {
        sndBuf := sndBuf[i := x.(transmitted := true)];
        Write(DataSegment(h, current, x), before, sofar);
        assert written + DataSegments(h, current, was, i + 1, resend) == sofar + [DataSegment(h, current, x)];
      } else {
        assert written + DataSegments(h, current, was, i + 1, resend) == sofar;
      }
    }

    method FlushData(h: Header, resend: set<nat>, ghost before: seq<seq<Byte>>, ghost written: seq<Segment>)
      requires Written(before, written)
      modifies `buf, `output, `sndBuf
      ensures sndBuf == MarkTransmitted(old(sndBuf))
      ensures buf == []
      ensures output == before
        + EncodePackets(Pack(params.mtu, written + DataSegments(h, current, old(sndBuf), |old(sndBuf)|, resend)))
      ensures PushesDue(old(sndBuf), sndBuf, current, resend,
        DataSegments(h, current, old(sndBuf), |old(sndBuf)|, resend))
    {
      ghost var was := sndBuf;
      assert written + DataSegments(h, current, was, 0, resend) == written;
      MarkedStarts(was);
      for i := 0 to |sndBuf|
        invariant sndBuf == MarkedTo(was, i)
        invariant Written(before, written + DataSegments(h, current, was, i, resend))
      {
        MarkedNext(was, i, i + 1);
        FlushOne(h, i, resend, before, was, written);
      }
      Close(before, written + DataSegments(h, current, was, |was|, resend));
      DataDue(h, current, resend, was, was);
    }

    /** The buffer when its first `n` segments have been marked as transmitted. */
    static ghost function MarkedTo(buf: seq<Sent>, n: nat): (marked: seq<Sent>)
      ensures |marked| == |buf|
    {
      seq(|buf|, i requires 0 <= i < |buf| => if i < n then buf[i].(transmitted := true) else buf[i])
    }

    static lemma MarkedStarts(buf: seq<Sent>)
      ensures MarkedTo(buf, 0) == buf && MarkedTo(buf, |buf|) == MarkTransmitted(buf)
    {
    }

    static lemma MarkedNext(buf: seq<Sent>, i: nat, next: nat)
      requires i < |buf| && next == i + 1
      ensures MarkedTo(buf, i)[i] == buf[i]
      ensures MarkedTo(buf, next) == MarkedTo(buf, i)[i := buf[i].(transmitted := true)]
    {
    }

    method FlushControl(h: Header, probeDue: bool, ghost before: seq<seq<Byte>>)
      requires buf == [] && output == before
      modifies `acklist, `askSend, `askTell, `buf, `output
      ensures acklist == [] && !askSend && !askTell
      ensures Written(before, AckSegments(h, old(acklist))
        + ProbeSegments(h, LastAck(old(acklist)), KcpMachine.AskSend(old(View()), probeDue), old(askTell)))
    {
      var last := LastAck(acklist);
      FlushAcks(h, before);
      if rmtWnd == 0 && probeDue { askSend := true; }
      FlushProbes(h, last, before, AckSegments(h, old(acklist)));
    }

    /**
     Writes pending ACKs, then probes, then the due segments, cut into packets no larger
     than the MTU.  Which segments are due again, and whether the window probe is due, is
     for the timers to say.
     */
    method FlushNow(resend: set<nat>, probeDue: bool)
      requires Valid()
      modifies `sndNxt, `sndBuf, `sndQueue, `acklist, `askSend, `askTell, `buf, `output
      ensures Valid() && View() == Flushed(Wrapping, old(View()))
      ensures output == old(output)
        + EncodePackets(Pack(params.mtu, Emitted(Wrapping, old(View()), current, resend, probeDue)))
    {
      ghost var was := View();
      var h := Header(params.conv, if |rcvQueue| < params.rcvWnd then params.rcvWnd - |rcvQueue| else 0, rcvNxt);
      var cwnd := if params.sndWnd < rmtWnd then params.sndWnd else rmtWnd;
      ghost var filled := FillWindow(Wrapping, was.snd, cwnd);
      FlushWith(h, cwnd, resend, probeDue, filled);
      FlushParts(was, h, cwnd, filled, current, resend, probeDue);
    }

    method FlushWith(h: Header, cwnd: U16, resend: set<nat>, probeDue: bool, ghost filled: SendSide)
      requires WordSized() && buf == [] && filled == FillWindow(Wrapping, Snd(), cwnd)
      modifies `sndNxt, `sndBuf, `sndQueue, `acklist, `askSend, `askTell, `buf, `output
      ensures WordSized() && buf == [] && acklist == [] && !askSend && !askTell
      ensures Snd() == filled.(buf := MarkTransmitted(filled.buf))
      ensures output == old(output) + EncodePackets(Pack(params.mtu,
        AckSegments(h, old(acklist))
        + ProbeSegments(h, LastAck(old(acklist)), KcpMachine.AskSend(old(View()), probeDue), old(askTell))
        + DataSegments(h, current, filled.buf, |filled.buf|, resend)))
    {
      FlushControl(h, probeDue, output);
      FlushWindow(h, cwnd, resend, old(output), AckSegments(h, old(acklist))
        + ProbeSegments(h, LastAck(old(acklist)), KcpMachine.AskSend(old(View()), probeDue), old(askTell)));
    }

    method FlushWindow(
        h: Header, cwnd: U16, resend: set<nat>, ghost before: seq<seq<Byte>>, ghost written: seq<Segment>)
      requires WordSized() && Written(before, written)
      modifies `sndNxt, `sndBuf, `sndQueue, `buf, `output
      ensures WordSized() && buf == []
      ensures var filled := FillWindow(Wrapping, old(Snd()), cwnd);
              && Snd() == filled.(buf := MarkTransmitted(filled.buf))
              && output == before + EncodePackets(
                Pack(params.mtu, written + DataSegments(h, current, filled.buf, |filled.buf|, resend)))
    {
      MoveToSendBuffer(cwnd);
      FlushData(h, resend, before, written);
    }

    static lemma FlushParts(
        s: State, h: Header, cwnd: nat, filled: SendSide, now: nat, resend: set<nat>, probeDue: bool)
      requires h == FlushHeader(s) && cwnd == SendWindow(s) && filled == FillWindow(Wrapping, s.snd, cwnd)
      ensures Emitted(Wrapping, s, now, resend, probeDue)
        == AckSegments(h, s.rcv.acks)
          + ProbeSegments(h, LastAck(s.rcv.acks), KcpMachine.AskSend(s, probeDue), s.askTell)
          + DataSegments(h, now, filled.buf, |filled.buf|, resend)
      ensures Flushed(Wrapping, s) == State(
        s.params, filled.(buf := MarkTransmitted(filled.buf)), s.rcv.(acks := []), s.rmtWnd, false, false)
    {
    }

    method Flush(resend: set<nat>, probeDue: bool) returns (outcome: Outcome)
      requires Valid()
      modifies `sndNxt, `sndBuf, `sndQueue, `acklist, `askSend, `askTell, `buf, `output
      ensures Valid()
      ensures !updated ==> outcome == Err(NeedUpdate) && View() == old(View()) && output == old(output)
      ensures updated ==> outcome == Ok(0) && View() == Flushed(Wrapping, old(View()))
      ensures updated ==> (output == old(output)
        + EncodePackets(Pack(params.mtu, Emitted(Wrapping, old(View()), current, resend, probeDue))))
    {
      if !updated { return Err(NeedUpdate); }
      FlushNow(resend, probeDue);
      outcome := Ok(0);
    }

    /** `update` stamps the clock; whether its flush interval has passed is for the timer. */
    method Update(now: U32, flushDue: bool, resend: set<nat>, probeDue: bool)
      requires Valid()
      modifies this
      ensures Valid() && updated && current == now
      ensures if flushDue
              then
                && View() == Flushed(Wrapping, old(View()))
                && output == old(output)
                  + EncodePackets(Pack(params.mtu, Emitted(Wrapping, old(View()), now, resend, probeDue)))
              else View() == old(View()) && output == old(output)
    {
      current := now;
      updated := true;
      if flushDue {
        var _ := Flush(resend, probeDue);
      }
    }

    method WaitSnd() returns (n: nat)
      ensures n == View().WaitSnd()
    {
      n := |sndBuf| + |sndQueue|;
    }
  }
}
