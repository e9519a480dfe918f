/** The envelope that every transport packet carries, and the messages inside it. */
module Wire {
  import opened Bytes
  import opened Options
  import SequenceSpec

  const ROUTE_SPAN: nat := 64
  const TIME_SPAN: nat := SequenceSpec.TIME_SPAN
  const U48_SPAN: nat := 0x1_0000_0000_0000
  const ENVELOPE_FIXED_OVERHEAD: nat := 16
  const CHANNEL_ID_SIZE: nat := 2

  datatype Envelope = Envelope(
    time: nat, seqId: nat, seqNo: nat, routePlan: seq<nat>, payload: seq<Byte>, paddingLen: nat)
  {
    /** The ranges the fields have on the wire. */
    predicate Valid() {
      && time < TIME_SPAN && seqId < U48_SPAN && seqNo < U48_SPAN
      && |routePlan| < ROUTE_SPAN && (forall i :: 0 <= i < |routePlan| ==> routePlan[i] < 0x1_0000)
      && 1 <= paddingLen < 0x100
    }
  }

  // ------------------------------------------------------------------ route plans

  function ChannelBytes(plan: seq<nat>): (bytes: seq<Byte>)
    ensures |bytes| == CHANNEL_ID_SIZE * |plan|
  {
    if plan == [] then []
    else ChannelBytes(plan[..|plan| - 1]) + LittleEndian(plan[|plan| - 1], 2)
  }

  function U16At(b: seq<Byte>, at: nat): (value: nat)
    requires at + 2 <= |b|
    ensures value < 0x1_0000
  {
    var low: nat, high: nat := b[at], b[at + 1];
    low + 256 * high
  }

  function U32At(b: seq<Byte>, at: nat): (value: nat)
    requires at + 4 <= |b|
    ensures value < 0x1_0000_0000
  {
    U16At(b, at) + 0x1_0000 * U16At(b, at + 2)
  }

  function U48At(b: seq<Byte>, at: nat): (value: nat)
    requires at + 6 <= |b|
    ensures value < U48_SPAN
  {
    U32At(b, at) + 0x1_0000_0000 * U16At(b, at + 4)
  }

  lemma TwoIs(b: seq<Byte>)
    requires |b| == 2
    ensures FromLittleEndian(b) == U16At(b, 0)
  {
    assert b[1..][1..] == [];
    assert FromLittleEndian(b[1..]) == b[1];
  }

  lemma U16AtIs(b: seq<Byte>, at: nat)
    requires at + 2 <= |b|
    ensures U16At(b, at) == FromLittleEndian(b[at..at + 2])
  {
    TwoIs(b[at..at + 2]);
  }

  /** Two bytes more are worth 2^16 times what follows them. */
  lemma TwoMore(b: seq<Byte>)
    requires |b| >= 2
    ensures FromLittleEndian(b) == U16At(b, 0) + 0x1_0000 * FromLittleEndian(b[2..])
  {
    assert b[1..][1..] == b[2..];
    assert FromLittleEndian(b[1..]) == b[1] + 256 * FromLittleEndian(b[2..]);
  }

  lemma U32AtIs(b: seq<Byte>, at: nat)
    requires at + 4 <= |b|
    ensures U32At(b, at) == FromLittleEndian(b[at..at + 4])
  {
    TwoMore(b[at..at + 4]);
    assert b[at..at + 4][2..] == b[at + 2..at + 4];
    U16AtIs(b, at + 2);
  }

  lemma U48AtIs(b: seq<Byte>, at: nat)
    requires at + 6 <= |b|
    ensures U48At(b, at) == FromLittleEndian(b[at..at + 6])
  {
    TwoMore(b[at..at + 6]);
    assert b[at..at + 6][2..] == b[at + 2..at + 6];
    U32AtIs(b, at + 2);
  }

  lemma U16Reads(b: seq<Byte>, at: nat, value: nat)
    requires at + 2 <= |b| && value < 0x1_0000 && b[at..at + 2] == LittleEndian(value, 2)
    ensures U16At(b, at) == value
  {
    U16AtIs(b, at);
    Widths();
    ReadWritten(value, 2);
  }

  lemma U16Writes(b: seq<Byte>, at: nat)
    requires at + 2 <= |b|
    ensures LittleEndian(U16At(b, at), 2) == b[at..at + 2]
  {
    U16AtIs(b, at);
    WriteRead(b[at..at + 2]);
  }

  lemma U32Reads(b: seq<Byte>, at: nat, value: nat)
    requires at + 4 <= |b| && value < 0x1_0000_0000 && b[at..at + 4] == LittleEndian(value, 4)
    ensures U32At(b, at) == value
  {
    U32AtIs(b, at);
    Widths();
    ReadWritten(value, 4);
  }

  lemma U32Writes(b: seq<Byte>, at: nat)
    requires at + 4 <= |b|
    ensures LittleEndian(U32At(b, at), 4) == b[at..at + 4]
  {
    U32AtIs(b, at);
    WriteRead(b[at..at + 4]);
  }

  lemma U48Reads(b: seq<Byte>, at: nat, value: nat)
    requires at + 6 <= |b| && value < U48_SPAN && b[at..at + 6] == LittleEndian(value, 6)
    ensures U48At(b, at) == value
  {
    U48AtIs(b, at);
    Widths();
    ReadWritten(value, 6);
  }

  lemma U48Writes(b: seq<Byte>, at: nat)
    requires at + 6 <= |b|
    ensures LittleEndian(U48At(b, at), 6) == b[at..at + 6]
  {
    U48AtIs(b, at);
    WriteRead(b[at..at + 6]);
  }

  function ReadChannel(b: seq<Byte>, from: nat, k: nat): nat
    requires from + CHANNEL_ID_SIZE * (k + 1) <= |b|
  {
    U16At(b, from + CHANNEL_ID_SIZE * k)
  }

  function ReadChannels(b: seq<Byte>, from: nat, n: nat): seq<nat>
    requires from + CHANNEL_ID_SIZE * n <= |b|
  {
    seq(n, k requires 0 <= k < n => ReadChannel(b, from, k))
  }

  lemma {:induction false} ChannelBytesAt(plan: seq<nat>, k: nat)
    requires k < |plan|
    ensures ChannelBytes(plan)[2 * k..2 * k + 2] == LittleEndian(plan[k], 2)
  {
    if k >= |plan| - 1 {
    } else {
      var init := plan[..|plan| - 1];
      ChannelBytesAt(init, k);
      assert ChannelBytes(plan)[2 * k..2 * k + 2] == ChannelBytes(init)[2 * k..2 * k + 2];
    }
  }

  lemma ChannelReadsBack(b: seq<Byte>, from: nat, channels: seq<Byte>, k: nat, value: nat)
    requires from + |channels| <= |b| && b[from..from + |channels|] == channels
    requires 2 * k + 2 <= |channels| && channels[2 * k..2 * k + 2] == LittleEndian(value, 2) && value < 0x1_0000
    ensures ReadChannel(b, from, k) == value
  {
    SliceOfSlice(b, from, from + |channels|, 2 * k, 2 * k + 2);
    U16Reads(b, from + 2 * k, value);
  }

  lemma SliceOfSlice(b: seq<Byte>, from: nat, end: nat, i: nat, j: nat)
    requires from <= end <= |b| && i <= j <= end - from
    ensures b[from..end][i..j] == b[from + i..from + j]
  {
    var x, y := b[from..end][i..j], b[from + i..from + j];
    forall k | 0 <= k < |x| ensures x[k] == y[k] {
      assert x[k] == b[from..end][i + k];
    }
  }

  lemma {:induction false} SomeReadBack(b: seq<Byte>, from: nat, channels: seq<Byte>, plan: seq<nat>, n: nat)
    requires n <= |plan| && |channels| == CHANNEL_ID_SIZE * |plan|
    requires from + |channels| <= |b| && b[from..from + |channels|] == channels
    requires forall k :: 0 <= k < |plan| ==> plan[k] < 0x1_0000 && Spells(channels, k, plan[k])
    ensures ReadChannels(b, from, n) == plan[..n]
  {
    if n == 0 {
    } else {
      SomeReadBack(b, from, channels, plan, n - 1);
      assert Spells(channels, n - 1, plan[n - 1]);
      ChannelReadsBack(b, from, channels, n - 1, plan[n - 1]);
    }
  }

  /** The `k`-th pair of bytes is that of `value`. */
  predicate Spells(channels: seq<Byte>, k: nat, value: nat) {
    2 * k + 2 <= |channels| && channels[2 * k..2 * k + 2] == LittleEndian(value, 2)
  }

  lemma ChannelsReadBack(b: seq<Byte>, from: nat, plan: seq<nat>)
    requires from + CHANNEL_ID_SIZE * |plan| <= |b|
    requires forall i :: 0 <= i < |plan| ==> plan[i] < 0x1_0000
    requires b[from..from + CHANNEL_ID_SIZE * |plan|] == ChannelBytes(plan)
    ensures ReadChannels(b, from, |plan|) == plan
  {
    var channels := ChannelBytes(plan);
    forall k | 0 <= k < |plan| ensures Spells(channels, k, plan[k]) {
      ChannelBytesAt(plan, k);
    }
    SomeReadBack(b, from, channels, plan, |plan|);
    assert plan[..|plan|] == plan;
  }

  lemma {:induction false} ChannelsWriteBack(b: seq<Byte>, from: nat, n: nat)
    requires from + CHANNEL_ID_SIZE * n <= |b|
    ensures ChannelBytes(ReadChannels(b, from, n)) == b[from..from + CHANNEL_ID_SIZE * n]
  {
    if n == 0 {
    } else {
      ChannelsWriteBack(b, from, n - 1);
      var plan, at := ReadChannels(b, from, n), from + CHANNEL_ID_SIZE * (n - 1);
      assert plan[..n - 1] == ReadChannels(b, from, n - 1);
      U16Writes(b, at);
      assert b[from..at + 2] == b[from..at] + b[at..at + 2];
    }
  }

  // ------------------------------------------------------------------ envelopes

  /** Time and number of hops share the first word. */
  function FirstWord(time: nat, hops: nat): nat { time % TIME_SPAN * ROUTE_SPAN + hops }

  function Padding(len: nat): seq<Byte>
    requires len < 0x100
  {
    seq(len, _ => len)
  }

  function EnvelopeBytes(e: Envelope): seq<Byte>
    requires |e.routePlan| < ROUTE_SPAN && e.paddingLen < 0x100
  {
    LittleEndian(FirstWord(e.time, |e.routePlan|), 4)
    + LittleEndian(e.seqId, 6)
    + LittleEndian(e.seqNo, 6)
    + e.payload
    + ChannelBytes(e.routePlan)
    + Padding(e.paddingLen)
  }

  function EnvelopeSize(e: Envelope): nat {
    ENVELOPE_FIXED_OVERHEAD + |e.payload| + CHANNEL_ID_SIZE * |e.routePlan| + e.paddingLen
  }

  function Hops(bytes: seq<Byte>): nat
    requires |bytes| >= ENVELOPE_FIXED_OVERHEAD
  {
    U32At(bytes, 0) % ROUTE_SPAN
  }

  predicate WellFormed(bytes: seq<Byte>) {
    && |bytes| >= ENVELOPE_FIXED_OVERHEAD
    && var pad: nat := bytes[|bytes| - 1];
       && pad != 0
       && |bytes| >= ENVELOPE_FIXED_OVERHEAD + pad + CHANNEL_ID_SIZE * Hops(bytes)
       && forall i :: |bytes| - pad <= i < |bytes| ==> bytes[i] == pad
  }

  function ParseEnvelope(bytes: seq<Byte>): Option<Envelope> {
    if !WellFormed(bytes) then None
    else
      var pad: nat := bytes[|bytes| - 1];
      var hops := Hops(bytes);
      var payloadEnd := |bytes| - pad - CHANNEL_ID_SIZE * hops;
      Some(Envelope(
        U32At(bytes, 0) / ROUTE_SPAN, U48At(bytes, 4), U48At(bytes, 10),
        ReadChannels(bytes, payloadEnd, hops), bytes[ENVELOPE_FIXED_OVERHEAD..payloadEnd], pad))
  }

  /** The parts of an encoded envelope, by position. */
  lemma EnvelopeParts(e: Envelope)
    requires |e.routePlan| < ROUTE_SPAN && e.paddingLen < 0x100
    ensures var b := EnvelopeBytes(e);
            var payloadEnd := ENVELOPE_FIXED_OVERHEAD + |e.payload|;
            var routeEnd := payloadEnd + CHANNEL_ID_SIZE * |e.routePlan|;
            && |b| == EnvelopeSize(e)
            && b[..4] == LittleEndian(FirstWord(e.time, |e.routePlan|), 4)
            && b[4..10] == LittleEndian(e.seqId, 6)
            && b[10..16] == LittleEndian(e.seqNo, 6)
            && b[16..payloadEnd] == e.payload
            && b[payloadEnd..routeEnd] == ChannelBytes(e.routePlan)
            && b[routeEnd..] == Padding(e.paddingLen)
  {
  }

  lemma FirstWordSplits(time: nat, hops: nat)
    requires time < TIME_SPAN && hops < ROUTE_SPAN
    ensures FirstWord(time, hops) < 0x1_0000_0000
    ensures FirstWord(time, hops) / ROUTE_SPAN == time && FirstWord(time, hops) % ROUTE_SPAN == hops
  {
  }

  lemma FirstWordJoins(word: nat)
    requires word < 0x1_0000_0000
    ensures word / ROUTE_SPAN < TIME_SPAN && FirstWord(word / ROUTE_SPAN, word % ROUTE_SPAN) == word
  {
  }

  /** What is read at the places where the fields of `e` are written. */
  ghost predicate Reads(b: seq<Byte>, e: Envelope) {
    var payloadEnd := ENVELOPE_FIXED_OVERHEAD + |e.payload|;
    var routeEnd := payloadEnd + CHANNEL_ID_SIZE * |e.routePlan|;
    && |b| == routeEnd + e.paddingLen
    && U32At(b, 0) == FirstWord(e.time, |e.routePlan|)
    && U48At(b, 4) == e.seqId && U48At(b, 10) == e.seqNo
    && b[16..payloadEnd] == e.payload && ReadChannels(b, payloadEnd, |e.routePlan|) == e.routePlan
    && forall i :: routeEnd <= i < |b| ==> b[i] == e.paddingLen
  }

  lemma EncodedReads(e: Envelope)
    requires e.Valid()
    ensures Reads(EnvelopeBytes(e), e)
  {
    EnvelopeParts(e);
    var b := EnvelopeBytes(e);
    FirstWordSplits(e.time, |e.routePlan|);
    U32Reads(b, 0, FirstWord(e.time, |e.routePlan|));
    U48Reads(b, 4, e.seqId);
    U48Reads(b, 10, e.seqNo);
    ChannelsReadBack(b, ENVELOPE_FIXED_OVERHEAD + |e.payload|, e.routePlan);
    var routeEnd := |b| - e.paddingLen;
    forall i | routeEnd <= i < |b| ensures b[i] == e.paddingLen {
      assert b[i] == b[routeEnd..][i - routeEnd];
    }
  }

  /** Bytes in which these fields are read are parsed to this envelope. */
  lemma ReadsParse(b: seq<Byte>, e: Envelope)
    requires e.Valid() && Reads(b, e)
    ensures ParseEnvelope(b) == Some(e)
  {
    FirstWordSplits(e.time, |e.routePlan|);
    assert b[|b| - 1] == e.paddingLen;
  }

  /** What is encoded is decoded again. */
  lemma EnvelopeReadsBack(e: Envelope)
    requires e.Valid()
    ensures ParseEnvelope(EnvelopeBytes(e)) == Some(e)
  {
    EncodedReads(e);
    ReadsParse(EnvelopeBytes(e), e);
  }

  /** Bytes at a place, put together, the least significant first. */
  function Two(b: seq<Byte>, at: nat): int
    requires at + 2 <= |b|
  {
    var first: int, second: int := b[at], b[at + 1];
    first + second * 0x100
  }

  function Four(b: seq<Byte>, at: nat): int
    requires at + 4 <= |b|
  {
    var third: int, fourth: int := b[at + 2], b[at + 3];
    Two(b, at) + third * 0x1_0000 + fourth * 0x100_0000
  }

  function Six(b: seq<Byte>, at: nat): int
    requires at + 6 <= |b|
  {
    var fifth: int, sixth: int := b[at + 4], b[at + 5];
    Four(b, at) + fifth * 0x1_0000_0000 + sixth * 0x100_0000_0000
  }

  lemma FourIs(b: seq<Byte>, at: nat)
    requires at + 4 <= |b|
    ensures Four(b, at) == U32At(b, at)
  {
  }

  lemma SixIs(b: seq<Byte>, at: nat)
    requires at + 6 <= |b|
    ensures Six(b, at) == U48At(b, at)
  {
    FourIs(b, at);
  }

  /** The channels of a plan, two bytes each. */
  ghost predicate Spelt(b: seq<Byte>, from: nat, plan: seq<nat>)
    requires from + 2 * |plan| <= |b|
  {
    forall i :: 0 <= i < |plan| ==> Two(b, from + 2 * i) == plan[i]
  }

  lemma ReadsSpelt(b: seq<Byte>, from: nat, plan: seq<nat>)
    requires from + 2 * |plan| <= |b| && ReadChannels(b, from, |plan|) == plan
    ensures Spelt(b, from, plan)
  {
    forall i | 0 <= i < |plan| ensures Two(b, from + 2 * i) == plan[i] {
      assert ReadChannels(b, from, |plan|)[i] == ReadChannel(b, from, i);
    }
  }

  /**
   Where each field is in the bytes of an envelope: hops in the low six bits of the first word and the time
   above them, sender and number, the payload, two bytes for each channel, and padding that tells its length.
   */
  lemma EnvelopeLayout(e: Envelope)
    requires e.Valid()
    ensures var b, route, pad := EnvelopeBytes(e), 16 + |e.payload|, 16 + |e.payload| + 2 * |e.routePlan|;
            && |b| == pad + e.paddingLen
            && Four(b, 0) == 64 * e.time + |e.routePlan| && Six(b, 4) == e.seqId && Six(b, 10) == e.seqNo
            && b[16..route] == e.payload && Spelt(b, route, e.routePlan)
            && forall i :: pad <= i < |b| ==> b[i] == e.paddingLen
  {
    EncodedReads(e);
    var b := EnvelopeBytes(e);
    FourIs(b, 0);
    SixIs(b, 4);
    SixIs(b, 10);
    ReadsSpelt(b, 16 + |e.payload|, e.routePlan);
  }

  lemma ParsedReads(bytes: seq<Byte>)
    requires ParseEnvelope(bytes).Some?
    ensures ParseEnvelope(bytes).value.Valid() && Reads(bytes, ParseEnvelope(bytes).value)
  {
    FirstWordJoins(U32At(bytes, 0));
  }

  /** Bytes in which the fields of `e` are read are the ones written for `e`. */
  lemma ReadsWrite(b: seq<Byte>, e: Envelope)
    requires e.Valid() && Reads(b, e)
    ensures EnvelopeBytes(e) == b
  {
    var payloadEnd := ENVELOPE_FIXED_OVERHEAD + |e.payload|;
    var routeEnd := payloadEnd + CHANNEL_ID_SIZE * |e.routePlan|;
    U32Writes(b, 0);
    U48Writes(b, 4);
    U48Writes(b, 10);
    ChannelsWriteBack(b, payloadEnd, |e.routePlan|);
    PaddingWrites(b, e.paddingLen);
    Rejoined(b, LittleEndian(FirstWord(e.time, |e.routePlan|), 4), LittleEndian(e.seqId, 6), LittleEndian(e.seqNo, 6),
             e.payload, ChannelBytes(e.routePlan), Padding(e.paddingLen), payloadEnd, routeEnd);
  }

  lemma PaddingWrites(bytes: seq<Byte>, pad: nat)
    requires pad <= |bytes| && pad < 0x100 && forall i :: |bytes| - pad <= i < |bytes| ==> bytes[i] == pad
    ensures bytes[|bytes| - pad..] == Padding(pad)
  {
  }

  /** What is decoded is the only envelope with that encoding, and its fields are in range. */
  lemma EnvelopeIsCanonical(bytes: seq<Byte>)
    requires ParseEnvelope(bytes).Some?
    ensures var e := ParseEnvelope(bytes).value;
            e.Valid() && EnvelopeBytes(e) == bytes
  {
    ParsedReads(bytes);
    ReadsWrite(bytes, ParseEnvelope(bytes).value);
  }

  lemma Rejoined(
      b: seq<Byte>, word: seq<Byte>, id: seq<Byte>, no: seq<Byte>, payload: seq<Byte>, channels: seq<Byte>,
      padding: seq<Byte>, payloadEnd: nat, routeEnd: nat)
    requires 16 <= payloadEnd <= routeEnd <= |b|
    requires word == b[0..4] && id == b[4..10] && no == b[10..16] && payload == b[16..payloadEnd]
    requires channels == b[payloadEnd..routeEnd] && padding == b[routeEnd..]
    ensures word + id + no + payload + channels + padding == b
  {
  }

  /** Writes the envelope behind `prefixLen` zero bytes that the seal will fill. */
  method EncodeWithPrefix(e: Envelope, prefixLen: nat) returns (out: seq<Byte>)
    requires |e.routePlan| < ROUTE_SPAN && e.paddingLen < 0x100
    ensures out == seq(prefixLen, _ => 0) + EnvelopeBytes(e)
  {
    out := seq(prefixLen, _ => 0);
    out := out + LittleEndian(FirstWord(e.time, |e.routePlan|), 4);
    out := out + LittleEndian(e.seqId, 6);
    out := out + LittleEndian(e.seqNo, 6);
    out := out + e.payload;
    ghost var head := out;
    for i := 0 to |e.routePlan|
      invariant out == head + ChannelBytes(e.routePlan[..i])
    {
      assert e.routePlan[..i + 1][..i] == e.routePlan[..i];
      out := out + LittleEndian(e.routePlan[i], 2);
    }
    assert e.routePlan[..|e.routePlan|] == e.routePlan;
    out := out + Padding(e.paddingLen);
  }

  method AllEqual(bytes: seq<Byte>, x: nat) returns (equal: bool)
    ensures equal <==> forall i :: 0 <= i < |bytes| ==> bytes[i] == x
  {
    for i := 0 to |bytes|
      invariant forall j :: 0 <= j < i ==> bytes[j] == x
    {
      if bytes[i] != x { return false; }
    }
    return true;
  }

  method ReadPlan(b: seq<Byte>, from: nat, end: nat) returns (plan: seq<nat>)
    requires from <= end <= |b| && (end - from) % 2 == 0
    ensures plan == ReadChannels(b, from, (end - from) / 2)
  {
    plan := [];
    var offset := from;
    while offset < end
      invariant from <= offset <= end && offset == from + 2 * |plan|
      invariant plan == ReadChannels(b, from, |plan|)
    {
      plan := plan + [ReadChannel(b, from, |plan|)];
      offset := offset + 2;
    }
  }

  lemma PaddedIff(bytes: seq<Byte>, pad: nat, padding: seq<Byte>)
    requires pad <= |bytes| && padding == bytes[|bytes| - pad..]
    ensures (forall i :: 0 <= i < |padding| ==> padding[i] == pad)
      <==> forall i :: |bytes| - pad <= i < |bytes| ==> bytes[i] == pad
  {
    var start := |bytes| - pad;
    assert forall i :: start <= i < |bytes| ==> bytes[i] == padding[i - start];
  }

  method Decode(bytes: seq<Byte>) returns (e: Option<Envelope>)
    ensures e == ParseEnvelope(bytes)
  {
    if |bytes| < ENVELOPE_FIXED_OVERHEAD { return None; }
    var word := U32At(bytes, 0);
    var hops := word % ROUTE_SPAN;
    var pad: nat := bytes[|bytes| - 1];
    var tail := pad + CHANNEL_ID_SIZE * hops;
    if pad == 0 || |bytes| < ENVELOPE_FIXED_OVERHEAD + tail { return None; }
    var padding := bytes[|bytes| - pad..];
    var padded := AllEqual(padding, pad);
    PaddedIff(bytes, pad, padding);
    if !padded { return None; }
    var payloadEnd, routeEnd := |bytes| - tail, |bytes| - pad;
    var plan := ReadPlan(bytes, payloadEnd, routeEnd);
    return Some(Envelope(
      word / ROUTE_SPAN, U48At(bytes, 4), U48At(bytes, 10),
      plan, bytes[ENVELOPE_FIXED_OVERHEAD..payloadEnd], pad));
  }

  // ------------------------------------------------------------------ endpoint messages

  const FLAG_KCP: nat := 1
  const FLAG_KEEP_ALIVE: nat := 2
  const FLAG_ROUTE_REPLY: nat := 4
  const REPLY_DEPTH_UNIT: nat := 8

  datatype EndpointMessage =
    | KcpPacket(replyDepth: nat, packet: seq<Byte>)
    | KeepAlive(replyDepth: nat)
    | RouteReply(replyDepth: nat, receivedSeqId: nat, receivedSeqNo: nat)
  {
    predicate Valid() {
      replyDepth < 4 && (RouteReply? ==> receivedSeqId < U48_SPAN && receivedSeqNo < U48_SPAN)
    }
  }

  function Flags(m: EndpointMessage): Byte
    requires m.Valid()
  {
    (match m case KcpPacket(_, _) => FLAG_KCP
           case KeepAlive(_) => FLAG_KEEP_ALIVE case RouteReply(_, _, _) => FLAG_ROUTE_REPLY)
    + m.replyDepth * REPLY_DEPTH_UNIT
  }

  function EncodeMessage(m: EndpointMessage): seq<Byte>
    requires m.Valid()
  {
    [Flags(m)] + match m
      case KcpPacket(_, packet) => packet
      case KeepAlive(_) => []
      case RouteReply(_, id, no) => LittleEndian(id, 6) + LittleEndian(no, 6)
  }

  /** Bits 3 and 4 hold the reply depth, the others the type; `None` where the original panics. */
  function DecodeMessage(bytes: seq<Byte>): Option<EndpointMessage> {
    if bytes == [] then None
    else
      var depth := bytes[0] / REPLY_DEPTH_UNIT % 4;
      var typeBits := bytes[0] - depth * REPLY_DEPTH_UNIT;
      if typeBits == FLAG_KCP then Some(KcpPacket(depth, bytes[1..]))
      else if typeBits == FLAG_KEEP_ALIVE then Some(KeepAlive(depth))
      else if typeBits == FLAG_ROUTE_REPLY && |bytes| >= 13 then
        Some(RouteReply(depth, U48At(bytes, 1), U48At(bytes, 7)))
      else None
  }

  lemma FlagsRead(kind: nat, depth: nat)
    requires kind < REPLY_DEPTH_UNIT && depth < 4
    ensures var flags := kind + depth * REPLY_DEPTH_UNIT;
            flags / REPLY_DEPTH_UNIT % 4 == depth && flags - depth * REPLY_DEPTH_UNIT == kind
  {
  }

  lemma ReplyParts(flags: Byte, id: seq<Byte>, no: seq<Byte>)
    requires |id| == |no| == 6
    ensures var b := [flags] + (id + no);
            |b| == 13 && b[1..7] == id && b[7..13] == no
  {
  }

  lemma MessageReadsBack(m: EndpointMessage)
    requires m.Valid()
    ensures DecodeMessage(EncodeMessage(m)) == Some(m)
  {
    FlagsRead(Flags(m) - m.replyDepth * REPLY_DEPTH_UNIT, m.replyDepth);
    match m
    case KcpPacket(_, packet) => assert EncodeMessage(m)[1..] == packet;
    case KeepAlive(_) =>
    case RouteReply(_, id, no) =>
      ReplyParts(Flags(m), LittleEndian(id, 6), LittleEndian(no, 6));
      U48Reads(EncodeMessage(m), 1, id);
      U48Reads(EncodeMessage(m), 7, no);
  }

  /** The kind of a message and its depth share the first byte; what follows is the packet, or a stamp. */
  lemma MessageLayout(m: EndpointMessage)
    requires m.Valid()
    ensures var b := EncodeMessage(m);
            match m
            case KcpPacket(depth, packet) => |b| == 1 + |packet| && b[0] == 1 + 8 * depth && b[1..] == packet
            case KeepAlive(depth) => |b| == 1 && b[0] == 2 + 8 * depth
            case RouteReply(depth, id, no) =>
              |b| == 13 && b[0] == 4 + 8 * depth && Six(b, 1) == id && Six(b, 7) == no
  {
    match m
    case KcpPacket(_, _) =>
    case KeepAlive(_) =>
    case RouteReply(_, id, no) =>
      ReplyParts(Flags(m), LittleEndian(id, 6), LittleEndian(no, 6));
      U48Reads(EncodeMessage(m), 1, id);
      U48Reads(EncodeMessage(m), 7, no);
      SixIs(EncodeMessage(m), 1);
      SixIs(EncodeMessage(m), 7);
  }

  /**
   A decoded message has the bytes it came from exactly when nothing follows a keep-alive or a
   route reply; release builds do not look.
   */
  lemma MessageIsCanonicalIff(bytes: seq<Byte>)
    requires DecodeMessage(bytes).Some?
    ensures var m := DecodeMessage(bytes).value;
            && m.Valid()
            && (EncodeMessage(m) == bytes
                <==> (m.KeepAlive? ==> |bytes| == 1) && (m.RouteReply? ==> |bytes| == 13))
  {
    var m := DecodeMessage(bytes).value;
    assert bytes == [bytes[0]] + bytes[1..];
    match m
    case KcpPacket(_, _) =>
    case KeepAlive(_) => NothingFollows(bytes);
    case RouteReply(_, _, _) =>
      U48Writes(bytes, 1);
      U48Writes(bytes, 7);
      ReplyRest(bytes);
  }

  lemma NothingFollows(bytes: seq<Byte>)
    requires bytes != []
    ensures [bytes[0]] + [] == bytes <==> |bytes| == 1
  {
  }

  lemma ReplyRest(bytes: seq<Byte>)
    requires |bytes| >= 13
    ensures [bytes[0]] + (bytes[1..7] + bytes[7..13]) == bytes <==> |bytes| == 13
  {
    var head := [bytes[0]] + (bytes[1..7] + bytes[7..13]);
    assert |head| == 13;
    if |bytes| == 13 { assert head == bytes; }
  }

  // ------------------------------------------------------------------ session messages

  datatype CloseReason = LocalClosed | RemoteClosed | Reset | Error

  datatype SessionMessage = Open | Data(bytes: seq<Byte>) | Close(reason: CloseReason)

  function ReasonByte(reason: CloseReason): Byte {
    match reason case LocalClosed => 0 case RemoteClosed => 1 case Reset => 2 case Error => 3
  }

  function EncodeSession(m: SessionMessage): seq<Byte> {
    match m
    case Open => [0]
    case Data(bytes) => [1] + bytes
    case Close(reason) => [2, ReasonByte(reason)]
  }

  /** `None` where the original panics. */
  function DecodeSession(bytes: seq<Byte>): Option<SessionMessage> {
    if bytes == [] then None
    else if bytes[0] == 0 then Some(Open)
    else if bytes[0] == 1 then Some(Data(bytes[1..]))
    else if bytes[0] == 2 && |bytes| >= 2 && bytes[1] < 4 then
      Some(Close(if bytes[1] == 0 then LocalClosed else if bytes[1] == 1 then RemoteClosed
                 else if bytes[1] == 2 then Reset else Error))
    else None
  }

  /** One byte for the kind of a session message, then its bytes or the number of its reason. */
  lemma SessionLayout(m: SessionMessage)
    ensures var b := EncodeSession(m);
            match m
            case Open => b == [0]
            case Data(bytes) => |b| == 1 + |bytes| && b[0] == 1 && b[1..] == bytes
            case Close(reason) =>
              |b| == 2 && b[0] == 2 && (b[1] == 0 <==> reason == LocalClosed) && (b[1] == 1 <==> reason == RemoteClosed)
              && (b[1] == 2 <==> reason == Reset) && (b[1] == 3 <==> reason == Error)
  {
  }

  lemma SessionReadsBack(m: SessionMessage)
    ensures DecodeSession(EncodeSession(m)) == Some(m)
  {
    if m.Data? { assert EncodeSession(m)[1..] == m.bytes; }
  }

  lemma SessionIsCanonicalIff(bytes: seq<Byte>)
    requires DecodeSession(bytes).Some?
    ensures var m := DecodeSession(bytes).value;
            EncodeSession(m) == bytes <==> (m.Open? ==> |bytes| == 1) && (m.Close? ==> |bytes| == 2)
  {
    assert bytes == [bytes[0]] + bytes[1..];
  }
}
