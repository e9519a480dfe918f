/** The byte layout of segments and packets, and the parser `input` applies to a packet. */
module KcpCodec {
  import opened Bytes
  import opened KcpMachine

  predicate Encodable(seg: Segment) {
    && seg.conv < 0x1_0000_0000_0000_0000
    && seg.ts < 0x1_0000_0000 && seg.sn < 0x1_0000_0000 && seg.una < 0x1_0000_0000
    && |seg.data| < 0x1_0000_0000
  }

  function EncodeHeader(seg: Segment): (bytes: seq<Byte>)
    ensures |bytes| == OVERHEAD
  {
    LittleEndian(seg.conv, 8) + [seg.cmd] + [seg.frg] + LittleEndian(seg.wnd, 2)
    + LittleEndian(seg.ts, 4) + LittleEndian(seg.sn, 4) + LittleEndian(seg.una, 4)
    + LittleEndian(|seg.data|, 4)
  }

  function Encode(seg: Segment): (bytes: seq<Byte>)
    ensures |bytes| == SegmentSize(seg)
  {
    EncodeHeader(seg) + seg.data
  }

  function EncodePacket(packet: seq<Segment>): (bytes: seq<Byte>)
    ensures |bytes| == Size(packet)
  {
    if packet == [] then [] else EncodePacket(packet[..|packet| - 1]) + Encode(packet[|packet| - 1])
  }

  function EncodePackets(packets: seq<seq<Segment>>): seq<seq<Byte>> {
    seq(|packets|, k requires 0 <= k < |packets| => EncodePacket(packets[k]))
  }

  function HeaderConv(bytes: seq<Byte>): nat
    requires |bytes| >= OVERHEAD
  {
    FromLittleEndian(bytes[..8])
  }

  function HeaderLen(bytes: seq<Byte>): nat
    requires |bytes| >= OVERHEAD
  {
    FromLittleEndian(bytes[24..28])
  }

  /** The segment at the front of `bytes`. */
  function FrontSegment(bytes: seq<Byte>): Segment
    requires |bytes| >= OVERHEAD && |bytes| - OVERHEAD >= HeaderLen(bytes)
  {
    Widths();
    ReadBound(bytes[10..12]);
    Segment(
      HeaderConv(bytes), bytes[8], bytes[9], FromLittleEndian(bytes[10..12]),
      FromLittleEndian(bytes[12..16]), FromLittleEndian(bytes[16..20]), FromLittleEndian(bytes[20..24]),
      bytes[28..28 + HeaderLen(bytes)])
  }

  datatype Parsed = Parsed(segments: seq<Segment>, outcome: Outcome)

  /**
   What `input` makes of a packet: the segments up to the first fault, and either that
   fault or the number of bytes consumed out of `total`.
   */
  function Parse(conv: nat, bytes: seq<Byte>, total: nat): Parsed
    requires |bytes| <= total
    decreases |bytes|
  {
    if |bytes| < OVERHEAD then Parsed([], Ok(total - |bytes|))
    else if HeaderConv(bytes) != conv then Parsed([], Err(ConvInconsistent))
    else if |bytes| - OVERHEAD < HeaderLen(bytes) then Parsed([], Err(InvalidSegmentDataSize))
    else if !KnownCmd(bytes[8]) then Parsed([], Err(UnsupportedCmd))
    else
      var rest := Parse(conv, bytes[OVERHEAD + HeaderLen(bytes)..], total);
      rest.(segments := [FrontSegment(bytes)] + rest.segments)
  }

  lemma HeaderFields(seg: Segment, more: seq<Byte>)
    ensures var bytes := EncodeHeader(seg) + more;
            && bytes[..8] == LittleEndian(seg.conv, 8) && bytes[8] == seg.cmd && bytes[9] == seg.frg
            && bytes[10..12] == LittleEndian(seg.wnd, 2) && bytes[12..16] == LittleEndian(seg.ts, 4)
            && bytes[16..20] == LittleEndian(seg.sn, 4) && bytes[20..24] == LittleEndian(seg.una, 4)
            && bytes[24..28] == LittleEndian(|seg.data|, 4) && bytes[28..] == more
  {
  }

  lemma ReadFixed(value: nat, width: nat)
    requires width in {2, 4, 8}
    requires width == 2 ==> value < 0x1_0000
    requires width == 4 ==> value < 0x1_0000_0000
    requires width == 8 ==> value < 0x1_0000_0000_0000_0000
    ensures FromLittleEndian(LittleEndian(value, width)) == value
  {
    Widths();
    ReadWritten(value, width);
  }

  /** Reading back an encoded segment gives the segment, whatever follows it. */
  lemma FrontOfEncoded(seg: Segment, more: seq<Byte>)
    requires Encodable(seg)
    ensures var bytes := Encode(seg) + more;
            && HeaderConv(bytes) == seg.conv && HeaderLen(bytes) == |seg.data|
            && bytes[8] == seg.cmd
            && FrontSegment(bytes) == seg && bytes[SegmentSize(seg)..] == more
  {
    var bytes := Encode(seg) + more;
    assert bytes == EncodeHeader(seg) + (seg.data + more);
    HeaderFields(seg, seg.data + more);
    ReadFixed(seg.conv, 8);
    ReadFixed(seg.wnd, 2);
    ReadFixed(seg.ts, 4);
    ReadFixed(seg.sn, 4);
    ReadFixed(seg.una, 4);
    ReadFixed(|seg.data|, 4);
    assert bytes[28..28 + |seg.data|] == seg.data;
  }

  /** A packet a node may put on the wire for conversation `conv`. */
  predicate Sendable(conv: nat, packet: seq<Segment>) {
    forall i :: 0 <= i < |packet| ==> Encodable(packet[i]) && packet[i].conv == conv && KnownCmd(packet[i].cmd)
  }

  lemma {:induction false} EncodeFront(packet: seq<Segment>)
    requires packet != []
    ensures EncodePacket(packet) == Encode(packet[0]) + EncodePacket(packet[1..])
  {
    var n := |packet| - 1;
    if n > 0 {
      EncodeFront(packet[..n]);
      assert packet[..n][1..] == packet[1..][..n - 1];
      assert packet[1..][n - 1] == packet[n];
    } else {
      assert packet[..0] == [] && packet[1..] == [];
    }
  }

  /** Parsing a packet of whole segments yields exactly those segments, and no error. */
  lemma {:induction false} ParseInvertsEncode(conv: nat, packet: seq<Segment>, total: nat)
    requires Sendable(conv, packet) && Size(packet) <= total
    ensures Parse(conv, EncodePacket(packet), total) == Parsed(packet, Ok(total))
    decreases |packet|
  {
    if packet == [] {
    } else {
      EncodeFront(packet);
      var rest := EncodePacket(packet[1..]);
      FrontOfEncoded(packet[0], rest);
      ParseInvertsEncode(conv, packet[1..], total);
      assert packet == [packet[0]] + packet[1..];
    }
  }
}
