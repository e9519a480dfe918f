/**
 One relay: it opens a packet, checks its stamp, takes the first hop off its plan, and packs
 it again.  Sealing is abstract: a packet is what was sealed, and whether the seal is intact.
 */
module Relay {
  import opened Bytes
  import opened Options
  import SequenceSpec
  import SequenceFilter
  import opened Wire

  const TRANSPORT_PACKET_OVERHEAD: nat := 32
  const MAX_TRANSPORT_PACKET_SIZE: nat := 0x1_0000
  const MIN_PADDING: nat := 1

  datatype Packet = Stub(len: nat) | Sealed(intact: bool, content: seq<Byte>)
  {
    function Size(): nat { if Stub? then len % TRANSPORT_PACKET_OVERHEAD else TRANSPORT_PACKET_OVERHEAD + |content| }
  }

  datatype OpenError = InvalidLength | Authentication | MalformedEnvelope

  datatype Opened = Ok(envelope: Envelope) | Err(error: OpenError)

  function OpenPacket(p: Packet): Opened {
    if p.Size() < TRANSPORT_PACKET_OVERHEAD || p.Size() > MAX_TRANSPORT_PACKET_SIZE then Err(InvalidLength)
    else if p.Stub? || !p.intact then Err(Authentication)
    else
      match ParseEnvelope(p.content)
      case None => Err(MalformedEnvelope)
      case Some(e) => Ok(e)
  }

  function Seal(e: Envelope): Packet
    requires |e.routePlan| < ROUTE_SPAN && e.paddingLen < 0x100
  {
    Sealed(true, EnvelopeBytes(e))
  }

  /** What is sealed is opened again, as long as it is no larger than any packet may be. */
  lemma SealOpens(e: Envelope)
    requires e.Valid() && TRANSPORT_PACKET_OVERHEAD + EnvelopeSize(e) <= MAX_TRANSPORT_PACKET_SIZE
    ensures OpenPacket(Seal(e)) == Ok(e)
    ensures Seal(e).Size() == TRANSPORT_PACKET_OVERHEAD + EnvelopeSize(e)
  {
    EnvelopeParts(e);
    EnvelopeReadsBack(e);
  }

  function EffectiveMtu(configured: nat): nat {
    if configured < MAX_TRANSPORT_PACKET_SIZE then configured else MAX_TRANSPORT_PACKET_SIZE
  }

  datatype Config = Config(bootTimeMs: nat, localChannels: seq<nat>, localMinMtu: nat)

  datatype Send = Send(channelId: nat, packet: Packet)

  function UnpaddedSize(e: Envelope): nat {
    TRANSPORT_PACKET_OVERHEAD + ENVELOPE_FIXED_OVERHEAD + |e.routePlan| * 2 + |e.payload|
  }

  /** The envelope with its first hop taken, when this relay can and may pass it on. */
  function NextEnvelope(c: Config, e: Envelope, random: nat): Option<Envelope> {
    if e.routePlan == [] || e.routePlan[0] !in c.localChannels then None
    else
      var rest := e.(routePlan := e.routePlan[1..]);
      var mtu := EffectiveMtu(c.localMinMtu);
      if UnpaddedSize(rest) + MIN_PADDING > mtu then None
      else
        var room := mtu - UnpaddedSize(rest);
        var available := if room < 255 then room else 255;
        Some(rest.(paddingLen := 1 + random % available))
  }

  /** What is passed on is valid, fits this relay's MTU, and differs only in plan and padding. */
  lemma NextEnvelopeFits(c: Config, e: Envelope, random: nat)
    requires e.Valid() && NextEnvelope(c, e, random).Some?
    ensures var n := NextEnvelope(c, e, random).value;
            && n.Valid()
            && Seal(n).Size() <= EffectiveMtu(c.localMinMtu)
            && OpenPacket(Seal(n)) == Ok(n)
            && n == e.(routePlan := e.routePlan[1..], paddingLen := n.paddingLen)
  {
    var n := NextEnvelope(c, e, random).value;
    SealOpens(n);
  }

  function Now(c: Config, elapsedMs: nat): nat {
    SequenceSpec.Counter(SequenceFilter.Tick(c.bootTimeMs, elapsedMs))
  }

  /** The relay accepts the packet's stamp. */
  predicate Admits(c: Config, ws: SequenceSpec.Windows, elapsedMs: nat, p: Packet) {
    && OpenPacket(p).Ok?
    && var e := OpenPacket(p).envelope;
       SequenceSpec.Judge(ws, Now(c, elapsedMs), e.time, e.seqId, e.seqNo).Accepted?
  }

  /** What a relay sends on when a packet arrives. */
  function Forwarded(c: Config, ws: SequenceSpec.Windows, elapsedMs: nat, p: Packet, random: nat): Option<Send> {
    if !Admits(c, ws, elapsedMs, p) then None
    else
      var e := OpenPacket(p).envelope;
      EnvelopeIsCanonical(p.content);
      if NextEnvelope(c, e, random).None? then None
      else
        NextEnvelopeFits(c, e, random);
        Some(Send(e.routePlan[0], Seal(NextEnvelope(c, e, random).value)))
  }

  /** What the filter keeps: a new stamp is admitted, then every expired window is forgotten. */
  function Kept(ws: SequenceSpec.Windows, now: nat, e: Envelope): SequenceSpec.Windows {
    if SequenceSpec.Judge(ws, now, e.time, e.seqId, e.seqNo).Accepted? then
      var after := SequenceSpec.Admitted(ws, now, e.time, e.seqId, e.seqNo);
      after - ExpiredIds(after, now)
    else ws
  }

  function Remembered(c: Config, ws: SequenceSpec.Windows, elapsedMs: nat, p: Packet): SequenceSpec.Windows {
    match OpenPacket(p)
    case Err(_) => ws
    case Ok(e) => Kept(ws, Now(c, elapsedMs), e)
  }

  function ExpiredIds(ws: SequenceSpec.Windows, now: nat): set<nat> {
    set id | id in ws && SequenceSpec.Expired(ws[id], now)
  }

  /** With room for no window at all, every expired one goes. */
  lemma AllExpiredRemoved(ws: SequenceSpec.Windows, now: nat, removed: seq<nat>)
    requires SequenceFilter.OldestExpired(ws, now, 0, removed)
    ensures SequenceFilter.Ids(removed) == ExpiredIds(ws, now)
  {
    var gone := SequenceFilter.Ids(removed);
    assert forall id :: id in gone ==> id in ExpiredIds(ws, now);
    if |removed| < |ws| {
      assert forall id :: id in ExpiredIds(ws, now) ==> id in gone;
    } else {
      RemovedCount(removed);
      AllOfThem(gone, ws.Keys);
    }
  }

  lemma AllOfThem(a: set<nat>, b: set<nat>)
    requires a <= b && |a| >= |b|
    ensures a == b
  {
    assert b == a + (b - a);
  }

  lemma {:induction false} RemovedCount(removed: seq<nat>)
    requires forall i, j :: 0 <= i < j < |removed| ==> removed[i] != removed[j]
    ensures |SequenceFilter.Ids(removed)| == |removed|
  {
    if removed == [] {
    } else {
      var init, last := removed[..|removed| - 1], removed[|removed| - 1];
      RemovedCount(init);
      assert SequenceFilter.Ids(removed) == SequenceFilter.Ids(init) + {last};
    }
  }

  /** The windows left by a removal with room for none. */
  lemma KeptAfterRemoval(ws: SequenceSpec.Windows, now: nat, e: Envelope, removed: seq<nat>, left: SequenceSpec.Windows)
    requires SequenceSpec.Judge(ws, now, e.time, e.seqId, e.seqNo).Accepted?
    requires var after := SequenceSpec.Admitted(ws, now, e.time, e.seqId, e.seqNo);
             SequenceFilter.OldestExpired(after, now, 0, removed) && SequenceFilter.Filter.Left(after, removed, left)
    ensures left == Kept(ws, now, e)
  {
    AllExpiredRemoved(SequenceSpec.Admitted(ws, now, e.time, e.seqId, e.seqNo), now, removed);
  }

  /** An intact packet of a size that a packet may have, with an envelope in it. */
  predicate HoldsEnvelope(p: Packet) {
    p.Sealed? && p.intact && 32 + |p.content| <= 0x1_0000 && ParseEnvelope(p.content).Some?
  }

  /** The stamp is recent, and new to the window kept for its sender, if there is one. */
  predicate NewStamp(ws: SequenceSpec.Windows, now: nat, e: Envelope) {
    && -59 <= SequenceSpec.TimeDiff(now, e.time) <= 645
    && (e.seqId in ws ==> e.seqNo !in ws[e.seqId].accepted && ws[e.seqId].maxSeqNo < e.seqNo + 0x10_0000)
  }

  /** There is a hop left, over a channel of this relay, on which the packet fits without the hop and with padding. */
  predicate HasWayOn(c: Config, e: Envelope) {
    && e.routePlan != [] && e.routePlan[0] in c.localChannels
    && 32 + 16 + 2 * (|e.routePlan| - 1) + |e.payload| + 1 <= c.localMinMtu
    && 32 + 16 + 2 * (|e.routePlan| - 1) + |e.payload| + 1 <= 0x1_0000
  }

  lemma HoldsIff(p: Packet)
    ensures OpenPacket(p).Ok? <==> HoldsEnvelope(p)
    ensures HoldsEnvelope(p) ==> OpenPacket(p).envelope == ParseEnvelope(p.content).value
  {
  }

  lemma NewIff(ws: SequenceSpec.Windows, now: nat, e: Envelope)
    ensures SequenceSpec.Judge(ws, now, e.time, e.seqId, e.seqNo).Accepted? <==> NewStamp(ws, now, e)
  {
  }

  lemma WayOnIff(c: Config, e: Envelope, random: nat)
    ensures NextEnvelope(c, e, random).Some? <==> HasWayOn(c, e)
  {
  }

  /** Exactly which packets a relay sends on. */
  lemma ForwardsExactly(c: Config, ws: SequenceSpec.Windows, elapsedMs: nat, p: Packet, random: nat)
    ensures Forwarded(c, ws, elapsedMs, p, random).Some? <==>
      && HoldsEnvelope(p)
      && NewStamp(ws, Now(c, elapsedMs), ParseEnvelope(p.content).value)
      && HasWayOn(c, ParseEnvelope(p.content).value)
  {
    HoldsIff(p);
    if HoldsEnvelope(p) {
      NewIff(ws, Now(c, elapsedMs), OpenPacket(p).envelope);
      WayOnIff(c, OpenPacket(p).envelope, random);
    }
  }

  /** And what it sends on: over the first channel of the plan, the same but for that hop and the padding. */
  lemma ForwardedIs(c: Config, ws: SequenceSpec.Windows, elapsedMs: nat, p: Packet, random: nat)
    requires Forwarded(c, ws, elapsedMs, p, random).Some?
    ensures var send, e := Forwarded(c, ws, elapsedMs, p, random).value, OpenPacket(p).envelope;
            && HoldsEnvelope(p) && send.channelId == e.routePlan[0] && HoldsEnvelope(send.packet)
            && send.packet.Size() <= c.localMinMtu
            && var n := ParseEnvelope(send.packet.content).value;
               n == e.(routePlan := e.routePlan[1..], paddingLen := n.paddingLen) && 1 <= n.paddingLen <= 255
  {
    HoldsIff(p);
    EnvelopeIsCanonical(p.content);
    NextEnvelopeFits(c, OpenPacket(p).envelope, random);
    HoldsIff(Forwarded(c, ws, elapsedMs, p, random).value.packet);
  }

  class RelayCore {
    const config: Config
    const filter: SequenceFilter.Filter
    var actions: seq<Send>

    ghost predicate Valid()
      reads this, filter, filter.Owner.Keys
    {
      this !in filter.Owner && filter.Valid()
    }

    constructor (config: Config)
      ensures Valid() && fresh(filter) && this.config == config
      ensures filter.Model == map[] && filter.Owner == map[] && actions == []
    {
      this.config := config;
      filter := new SequenceFilter.Filter();
      actions := [];
    }

    method ForwardPacket(elapsedMs: nat, packet: Packet, random: nat)
      requires Valid()
      modifies this, filter, filter.Owner.Keys
      ensures Valid() && fresh(filter.Owner.Keys - old(filter.Owner.Keys))
      ensures filter.Model == Remembered(config, old(filter.Model), elapsedMs, packet)
      ensures var sent := Forwarded(config, old(filter.Model), elapsedMs, packet, random);
              actions == old(actions) + if sent.Some? then [sent.value] else []
    {
      var received := OpenPacket(packet);
      if received.Err? { return; }
      var accepted := CheckStamp(Now(config, elapsedMs), received.envelope);
      if !accepted { return; }
      EnvelopeIsCanonical(packet.content);
      PassOn(received.envelope, random);
    }

    /** Checks the packet's stamp and, once it is accepted, forgets every window that has expired. */
    method CheckStamp(now: nat, e: Envelope) returns (accepted: bool)
      requires Valid()
      modifies filter, filter.Owner.Keys
      ensures Valid() && fresh(filter.Owner.Keys - old(filter.Owner.Keys))
      ensures filter.Model == Kept(old(filter.Model), now, e)
      ensures accepted == SequenceSpec.Judge(old(filter.Model), now, e.time, e.seqId, e.seqNo).Accepted?
    {
      var verdict := filter.CheckAndInsert(now, e.time, e.seqId, e.seqNo);
      if !verdict.Accepted? { return false; }
      var removed := filter.RemoveExpired(now, 0);
      KeptAfterRemoval(old(filter.Model), now, e, removed, filter.Model);
      return true;
    }

    method PassOn(e: Envelope, random: nat)
      requires e.Valid()
      modifies `actions
      ensures var next := NextEnvelope(config, e, random);
              if next.None? then actions == old(actions)
              else
                && next.value.Valid() && e.routePlan != []
                && actions == old(actions) + [Send(e.routePlan[0], Seal(next.value))]
    {
      var next := Repack(e, random);
      if next.None? { return; }
      NextEnvelopeFits(config, e, random);
      var bytes := EncodeWithPrefix(next.value, 0);
      assert bytes == EnvelopeBytes(next.value);
      actions := actions + [Send(e.routePlan[0], Sealed(true, bytes))];
    }

    /** Takes the first hop off the plan and chooses new padding, when the packet may go on. */
    method Repack(e: Envelope, random: nat) returns (next: Option<Envelope>)
      ensures next == NextEnvelope(config, e, random)
    {
      if |e.routePlan| == 0 { return None; }
      if e.routePlan[0] !in config.localChannels { return None; }
      var plan := e.routePlan[1..];
      var unpadded := TRANSPORT_PACKET_OVERHEAD + ENVELOPE_FIXED_OVERHEAD + |plan| * 2 + |e.payload|;
      var mtu := EffectiveMtu(config.localMinMtu);
      if unpadded + MIN_PADDING > mtu { return None; }
      var available := if mtu - unpadded < 255 then mtu - unpadded else 255;
      return Some(e.(routePlan := plan, paddingLen := 1 + random % available));
    }
  }

  // ------------------------------------------------------------------ many hops

  /** Some relay, in whatever state, takes `p` and sends on. */
  ghost predicate Hop(p: Packet, send: Send) {
    exists c, ws, elapsedMs, random :: Forwarded(c, ws, elapsedMs, p, random) == Some(send)
  }

  /** Relays pass a packet on, one after the other. */
  ghost predicate Journey(p: Packet, sends: seq<Send>)
    decreases |sends|
  {
    sends == [] || (Hop(p, sends[0]) && Journey(sends[0].packet, sends[1..]))
  }

  /** `n` is what is left of `e` after `k` hops. */
  predicate After(e: Envelope, n: Envelope, k: nat) {
    && k <= |e.routePlan| && n.routePlan == e.routePlan[k..]
    && n.payload == e.payload && n.time == e.time && n.seqId == e.seqId && n.seqNo == e.seqNo
  }

  lemma HopTakesOne(p: Packet, send: Send, e: Envelope) returns (n: Envelope)
    requires Hop(p, send) && OpenPacket(p) == Ok(e)
    ensures OpenPacket(send.packet) == Ok(n) && After(e, n, 1) && send.channelId == e.routePlan[0]
  {
    var c, ws, elapsedMs, random :| Forwarded(c, ws, elapsedMs, p, random) == Some(send);
    EnvelopeIsCanonical(p.content);
    NextEnvelopeFits(c, e, random);
    n := NextEnvelope(c, e, random).value;
  }

  /**
   After any number of hops the packet still carries its stamp and payload, it went over the
   channels its plan began with, and the rest of the plan is left.
   */
  lemma {:induction false} JourneyPreserves(p: Packet, sends: seq<Send>, e: Envelope) returns (n: Envelope)
    requires Journey(p, sends) && OpenPacket(p) == Ok(e)
    ensures OpenPacket(if sends == [] then p else sends[|sends| - 1].packet) == Ok(n)
    ensures After(e, n, |sends|)
    ensures forall i :: 0 <= i < |sends| ==> sends[i].channelId == e.routePlan[i]
    decreases |sends|
  {
    if sends == [] {
      n := e;
    } else {
      var next := HopTakesOne(p, sends[0], e);
      n := JourneyPreserves(sends[0].packet, sends[1..], next);
      HopsAdd(e, next, n, sends);
      assert |sends| > 1 ==> sends[1..][|sends[1..]| - 1] == sends[|sends| - 1];
    }
  }

  lemma HopsAdd(e: Envelope, next: Envelope, n: Envelope, sends: seq<Send>)
    requires sends != [] && After(e, next, 1) && After(next, n, |sends| - 1)
    requires sends[0].channelId == e.routePlan[0]
    requires forall i :: 0 <= i < |sends| - 1 ==> sends[1..][i].channelId == next.routePlan[i]
    ensures After(e, n, |sends|)
    ensures forall i :: 0 <= i < |sends| ==> sends[i].channelId == e.routePlan[i]
  {
    forall i | 0 < i < |sends| ensures sends[i].channelId == e.routePlan[i] {
      assert sends[i] == sends[1..][i - 1];
    }
  }

  /** A packet that has made all its hops arrives with an empty plan, unchanged stamp and payload. */
  lemma FullJourneyArrives(p: Packet, sends: seq<Send>, e: Envelope) returns (n: Envelope)
    requires Journey(p, sends) && OpenPacket(p) == Ok(e) && sends != []
    requires |sends| == |e.routePlan|
    ensures OpenPacket(sends[|sends| - 1].packet) == Ok(n)
    ensures n.routePlan == [] && n.payload == e.payload
    ensures n.time == e.time && n.seqId == e.seqId && n.seqNo == e.seqNo
  {
    n := JourneyPreserves(p, sends, e);
  }

  lemma FreshRelayForwards(p: Packet, c: Config)
    requires OpenPacket(p).Ok? && OpenPacket(p).envelope.routePlan != []
    requires var e := OpenPacket(p).envelope;
             c == Config(e.time * SequenceFilter.TICK_MS, [e.routePlan[0]], MAX_TRANSPORT_PACKET_SIZE)
    ensures Forwarded(c, map[], 0, p, 0).Some?
  {
    var e := OpenPacket(p).envelope;
    EnvelopeIsCanonical(p.content);
    EnvelopeParts(e);
    ClockAt(c, e.time);
    assert Admits(c, map[], 0, p);
  }

  lemma ClockAt(c: Config, time: nat)
    requires c.bootTimeMs == time * SequenceFilter.TICK_MS && time < TIME_SPAN
    ensures Now(c, 0) == time
  {
  }

  /** An intact packet with hops left is sent on by some relay; one that has arrived by none. */
  lemma HopPossibleIff(p: Packet)
    requires OpenPacket(p).Ok?
    ensures (exists send :: Hop(p, send)) <==> OpenPacket(p).envelope.routePlan != []
  {
    var e := OpenPacket(p).envelope;
    if e.routePlan != [] {
      var c := Config(e.time * SequenceFilter.TICK_MS, [e.routePlan[0]], MAX_TRANSPORT_PACKET_SIZE);
      FreshRelayForwards(p, c);
      assert Hop(p, Forwarded(c, map[], 0, p, 0).value);
    }
    if send :| Hop(p, send) { var n := HopTakesOne(p, send, e); }
  }
}
