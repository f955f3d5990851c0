/** Matching responses to flows and reading header rewrites out of quotations (backend.py). */
module Correlation {
  import opened Bytes
  import opened Checksum
  import opened Extensions
  import opened Model
  import opened ProbePackets
  import opened ResponseParsing
  import opened Wrappers

  /** What a backend is bound to for one run. */
  datatype Endpoint = Endpoint(source: Ipv4Address, destination: Ipv4Address, session: nat, profile: SynProfile)

  function BuildProbe(endpoint: Endpoint, spec: ProbeSpec): Result<bytes, BuildError> {
    match spec.flow.protocol
    case Udp => BuildUdpProbe(endpoint.source, endpoint.destination, spec.flow.sourcePort, spec.flow.destinationPort,
                              spec.ttl, spec.probeId, endpoint.session, spec.payloadSize)
    case Tcp => BuildTcpSynProbe(endpoint.source, endpoint.destination, spec.flow.sourcePort,
                                 spec.flow.destinationPort, spec.ttl, spec.probeId, endpoint.session, endpoint.profile)
    case Icmp => BuildIcmpEchoProbe(endpoint.source, endpoint.destination, spec.flow.icmpIdentifier, spec.ttl,
                                    spec.probeId, endpoint.session, spec.payloadSize)
  }

  function ProtocolNumber(protocol: Protocol): byte {
    match protocol
    case Udp => PROTO_UDP
    case Icmp => PROTO_ICMP
    case Tcp => PROTO_TCP
  }

  predicate MatchesFlow(endpoint: Endpoint, parsed: ParsedResponse, flow: FlowKey) {
    if parsed.direct.Some? then
      && flow.protocol.Tcp?
      && parsed.direct.value.sourcePort == flow.destinationPort
      && parsed.direct.value.destinationPort == flow.sourcePort
      && parsed.sessionVerified
    else if parsed.quoted.None? then flow.protocol.Icmp?
    else
      var quoted := parsed.quoted.value;
      && quoted.protocol == ProtocolNumber(flow.protocol)
      && (parsed.sessionVerified || MatchesUntaggedFlow(endpoint, quoted, flow))
  }

  /** Without a session tag the quoted destination and one flow field must agree. */
  predicate MatchesUntaggedFlow(endpoint: Endpoint, quoted: Quotation, flow: FlowKey) {
    && quoted.destination == endpoint.destination
    && if flow.protocol.Icmp?
       then quoted.icmpIdentifier.None? || quoted.icmpIdentifier.value == flow.icmpIdentifier
       else quoted.destinationPort.Some? && quoted.destinationPort.value == flow.destinationPort
  }

  /** Attributed to the probe: read without error, with its id, and accepted for its flow. */
  predicate AttributedTo(endpoint: Endpoint, spec: ProbeSpec, parsed: Result<ParsedResponse, ParseError>) {
    parsed.Success? && parsed.value.probeId == spec.probeId && MatchesFlow(endpoint, parsed.value, spec.flow)
  }

  function When(condition: bool, mutation: Mutation): seq<Mutation> {
    if condition then [mutation] else []
  }

  function PortMutations(quoted: Quotation, flow: FlowKey): seq<Mutation> {
    (if quoted.sourcePort.Some?
     then When(quoted.sourcePort.value != flow.sourcePort, SourcePortChanged(flow.sourcePort, quoted.sourcePort.value))
     else [])
    + (if quoted.destinationPort.Some?
       then When(quoted.destinationPort.value != flow.destinationPort,
                 DestinationPortChanged(flow.destinationPort, quoted.destinationPort.value))
       else [])
  }

  /** Rewrites of the quoted IPv4 header. */
  function HeaderMutations(endpoint: Endpoint, quoted: Quotation): seq<Mutation> {
    When(quoted.source != endpoint.source, SourceAddressChanged(endpoint.source, quoted.source))
    + When(quoted.destination != endpoint.destination,
           DestinationAddressChanged(endpoint.destination, quoted.destination))
    + When(quoted.dscpEcn / 4 != 0, DscpChanged(quoted.dscpEcn / 4))
    + When(quoted.dscpEcn % 4 != 0, EcnChanged(quoted.dscpEcn % 4))
  }

  /** Rewrites of the quoted transport fields. */
  function FlowMutations(endpoint: Endpoint, quoted: Quotation, spec: ProbeSpec): seq<Mutation> {
    var flow := spec.flow;
    match flow.protocol
    case Udp => PortMutations(quoted, flow)
    case Tcp =>
      var sequence := TcpProbeSequence(endpoint.session, spec.probeId);
      PortMutations(quoted, flow)
      + (if quoted.tcpSequence.Some?
         then When(quoted.tcpSequence.value != sequence, TcpSequenceChanged(sequence, quoted.tcpSequence.value))
         else [])
    case Icmp =>
      if quoted.icmpIdentifier.Some?
      then When(quoted.icmpIdentifier.value != flow.icmpIdentifier,
                IcmpIdentifierChanged(flow.icmpIdentifier, quoted.icmpIdentifier.value))
      else []
  }

  function Mutations(endpoint: Endpoint, parsed: ParsedResponse, spec: ProbeSpec): seq<Mutation> {
    if parsed.quoted.None? then []
    else HeaderMutations(endpoint, parsed.quoted.value) + FlowMutations(endpoint, parsed.quoted.value, spec)
  }

  // ---------- The layout of a probe ----------

  /** What every probe shows in its first 40 octets. */
  ghost predicate ProbeLayout(endpoint: Endpoint, spec: ProbeSpec, probe: bytes) {
    && 40 <= |probe| <= 0xFFFF
    && HeaderCarries(probe[..20], endpoint.source, endpoint.destination, ProtocolNumber(spec.flow.protocol), spec.ttl,
                     Low16(spec.probeId), |probe|, 0)
    && match spec.flow.protocol
       case Udp =>
         && spec.flow.sourcePort <= 0xFFFF && spec.flow.destinationPort <= 0xFFFF
         && probe[20..24] == U16(spec.flow.sourcePort) + U16(spec.flow.destinationPort)
         && spec.ttl < 256 && probe[28..40] == Tag(endpoint.session, spec.probeId, spec.ttl)
       case Tcp =>
         && spec.flow.sourcePort <= 0xFFFF && spec.flow.destinationPort <= 0xFFFF
         && probe[20..24] == U16(spec.flow.sourcePort) + U16(spec.flow.destinationPort)
         && probe[24..28] == U32(TcpProbeSequence(endpoint.session, spec.probeId))
       case Icmp =>
         && probe[24..26] == U16(Low16(spec.flow.icmpIdentifier))
         && spec.ttl < 256 && probe[28..40] == Tag(endpoint.session, spec.probeId, spec.ttl)
  }

  lemma ProbesAreLaidOut(endpoint: Endpoint, spec: ProbeSpec)
    requires BuildProbe(endpoint, spec).Success?
    ensures ProbeLayout(endpoint, spec, BuildProbe(endpoint, spec).value)
  {
    match spec.flow.protocol
    case Udp => UdpLayout(endpoint, spec);
    case Tcp => TcpLayout(endpoint, spec);
    case Icmp => IcmpLayout(endpoint, spec);
  }

  lemma UdpLayout(endpoint: Endpoint, spec: ProbeSpec)
    requires spec.flow.protocol.Udp? && BuildProbe(endpoint, spec).Success?
    ensures ProbeLayout(endpoint, spec, BuildProbe(endpoint, spec).value)
  {
    var tag := Tag(endpoint.session, spec.probeId, spec.ttl);
    var payload := PadTo(tag, spec.payloadSize);
    var udp := UdpSegment(spec.flow.sourcePort, spec.flow.destinationPort, payload);
    var header := Ipv4Header(endpoint.source, endpoint.destination, PROTO_UDP, spec.ttl, spec.probeId, |udp|).value;
    var probe := BuildProbe(endpoint, spec).value;
    assert probe == header + udp;
    assert probe[..20] == header;
    assert probe[20..24] == udp[..4] == U16(spec.flow.sourcePort) + U16(spec.flow.destinationPort);
    assert probe[28..40] == payload[..12] == tag;
  }

  lemma TcpLayout(endpoint: Endpoint, spec: ProbeSpec)
    requires spec.flow.protocol.Tcp? && BuildProbe(endpoint, spec).Success?
    ensures ProbeLayout(endpoint, spec, BuildProbe(endpoint, spec).value)
  {
    var flow := spec.flow;
    var tcp := SynSegment(endpoint.source, endpoint.destination, flow.sourcePort, flow.destinationPort, spec.probeId,
                          endpoint.session, endpoint.profile);
    var header := Ipv4Header(endpoint.source, endpoint.destination, PROTO_TCP, spec.ttl, spec.probeId, |tcp|).value;
    var probe := BuildProbe(endpoint, spec).value;
    assert probe == header + tcp;
    assert probe[..20] == header;
    SynLayout(endpoint.source, endpoint.destination, flow.sourcePort, flow.destinationPort, spec.probeId,
              endpoint.session, endpoint.profile);
    assert probe[20..24] == tcp[..4];
    assert probe[24..28] == tcp[4..8];
  }

  lemma IcmpLayout(endpoint: Endpoint, spec: ProbeSpec)
    requires spec.flow.protocol.Icmp? && BuildProbe(endpoint, spec).Success?
    ensures ProbeLayout(endpoint, spec, BuildProbe(endpoint, spec).value)
  {
    var identifier := spec.flow.icmpIdentifier;
    var icmp := EchoMessage(identifier, spec.ttl, spec.probeId, endpoint.session, spec.payloadSize).value;
    var body := EchoBody(endpoint.session, spec.probeId, spec.ttl, spec.payloadSize);
    var header := Ipv4Header(endpoint.source, endpoint.destination, PROTO_ICMP, spec.ttl, spec.probeId, |icmp|).value;
    var probe := BuildProbe(endpoint, spec).value;
    assert probe == header + icmp;
    assert probe[..20] == header;
    assert icmp[4..6] == U16(Low16(identifier));
    assert probe[24..26] == icmp[4..6];
    assert icmp[8..20] == body[..12];
    assert probe[28..40] == icmp[8..20];
  }

  /** What every probe holds beyond what identifies it: a whole datagram with a valid header checksum, and
      after the ports or the identifier exactly what its protocol asks for. Padding is zero. */
  ghost predicate ProbeHolds(endpoint: Endpoint, spec: ProbeSpec, probe: bytes)
    requires |probe| >= 40
  {
    && probe[6..8] == [0, 0] && InternetChecksum(probe[..20]) == 0
    && match spec.flow.protocol
       case Udp =>
         && probe[9] == 17 && |probe| == 28 + (if spec.payloadSize > TAG_SIZE then spec.payloadSize else TAG_SIZE)
         && ReadU16(probe, 24) == |probe| - 20 && probe[26..28] == [0, 0]
         && probe[38] == spec.ttl && (forall k :: 39 <= k < |probe| ==> probe[k] == 0)
       case Tcp =>
         && probe[9] == 6 && IsSyn(probe[20..], endpoint.profile, endpoint.session)
         && var pseudo := PseudoHeader(endpoint.source, endpoint.destination, PROTO_TCP, Low16(|probe| - 20));
            InternetChecksum(pseudo + probe[20..]) == 0
       case Icmp =>
         && probe[9] == 1
            && |probe| == 28 + (if spec.payloadSize > TAG_SIZE + 2 then spec.payloadSize else TAG_SIZE + 2)
         && probe[20..24] == [8, 0, 0x5A, 0x5A] && probe[26..28] == [0, 0] && InternetChecksum(probe[20..]) == 0
         && probe[38] == spec.ttl && (forall k :: 39 <= k < |probe| - 2 ==> probe[k] == 0)
  }

  lemma ProbesHold(endpoint: Endpoint, spec: ProbeSpec)
    requires BuildProbe(endpoint, spec).Success?
    ensures |BuildProbe(endpoint, spec).value| >= 40 && ProbeHolds(endpoint, spec, BuildProbe(endpoint, spec).value)
  {
    match spec.flow.protocol
    case Udp => UdpHolds(endpoint, spec);
    case Tcp => TcpHolds(endpoint, spec);
    case Icmp => IcmpHolds(endpoint, spec);
  }

  /** A probe can be built exactly for ports from 1 and TTLs from 1 to 255 that its packet has room for; an Echo
      request also needs an even payload size, or a compensation word that is a multiple of 257. */
  lemma BuildsExactly(endpoint: Endpoint, spec: ProbeSpec)
    ensures var flow, size := spec.flow, spec.payloadSize;
            BuildProbe(endpoint, spec).Success?
            <==> && 1 <= spec.ttl <= 255
                 && (!flow.protocol.Icmp? ==> 1 <= flow.sourcePort <= 65535 && 1 <= flow.destinationPort <= 65535)
                 && (!flow.protocol.Tcp? ==> size <= 65507)
                 && (flow.protocol.Icmp? ==>
                       var body := EchoBody(endpoint.session, spec.probeId, spec.ttl, size);
                       size <= 14 || size % 2 == 0 || EchoCompensation(flow.icmpIdentifier, body) % 257 == 0)
  {
    hide InternetChecksum, EchoCompensation, SynSegment, Tag;
    match spec.flow.protocol
    case Udp =>
    case Tcp =>
      if ValidPort(spec.flow.sourcePort) && ValidPort(spec.flow.destinationPort) {
        SynLayout(endpoint.source, endpoint.destination, spec.flow.sourcePort, spec.flow.destinationPort, spec.probeId,
                  endpoint.session, endpoint.profile);
      }
    case Icmp =>
      if spec.ttl <= 255 {
        EchoIsChecksumNeutral(spec.flow.icmpIdentifier, spec.ttl, spec.probeId, endpoint.session, spec.payloadSize);
      }
  }

  lemma TagAndPadding(session: nat, probeId: nat, ttl: byte, size: nat)
    ensures var payload := PadTo(Tag(session, probeId, ttl), size);
            && |payload| == (if size > TAG_SIZE then size else TAG_SIZE)
            && payload[10] == ttl && forall k :: 11 <= k < |payload| ==> payload[k] == 0
  {
  }

  lemma UdpHolds(endpoint: Endpoint, spec: ProbeSpec)
    requires spec.flow.protocol.Udp? && BuildProbe(endpoint, spec).Success?
    ensures |BuildProbe(endpoint, spec).value| >= 40 && ProbeHolds(endpoint, spec, BuildProbe(endpoint, spec).value)
  {
    hide InternetChecksum, Tag, PadTo, UdpSegment;
    var flow, payload := spec.flow, PadTo(Tag(endpoint.session, spec.probeId, spec.ttl), spec.payloadSize);
    TagAndPadding(endpoint.session, spec.probeId, spec.ttl, spec.payloadSize);
    UdpSegmentShape(flow.sourcePort, flow.destinationPort, payload);
    var udp := UdpSegment(flow.sourcePort, flow.destinationPort, payload);
    var header := Ipv4Header(endpoint.source, endpoint.destination, PROTO_UDP, spec.ttl, spec.probeId, |udp|).value;
    hide Ipv4Header;
    var probe := header + udp;
    assert probe[..20] == header && probe[26..28] == udp[6..8];
    forall k | 28 <= k < |probe| ensures probe[k] == payload[k - 28] {
      assert udp[8..][k - 28] == udp[k - 20];
    }
  }

  lemma TcpHolds(endpoint: Endpoint, spec: ProbeSpec)
    requires spec.flow.protocol.Tcp? && BuildProbe(endpoint, spec).Success?
    ensures |BuildProbe(endpoint, spec).value| >= 40 && ProbeHolds(endpoint, spec, BuildProbe(endpoint, spec).value)
  {
    var flow := spec.flow;
    var tcp := SynSegment(endpoint.source, endpoint.destination, flow.sourcePort, flow.destinationPort, spec.probeId,
                          endpoint.session, endpoint.profile);
    var header := Ipv4Header(endpoint.source, endpoint.destination, PROTO_TCP, spec.ttl, spec.probeId, |tcp|).value;
    SynIsBare(endpoint.source, endpoint.destination, flow.sourcePort, flow.destinationPort, spec.probeId,
              endpoint.session, endpoint.profile);
    SynVerifies(endpoint.source, endpoint.destination, flow.sourcePort, flow.destinationPort, spec.probeId,
                endpoint.session, endpoint.profile);
    hide InternetChecksum, SynSegment, Ipv4Header, PseudoHeader;
    var probe := header + tcp;
    assert probe[..20] == header && probe[20..] == tcp;
  }

  lemma IcmpHolds(endpoint: Endpoint, spec: ProbeSpec)
    requires spec.flow.protocol.Icmp? && BuildProbe(endpoint, spec).Success?
    ensures |BuildProbe(endpoint, spec).value| >= 40 && ProbeHolds(endpoint, spec, BuildProbe(endpoint, spec).value)
  {
    var identifier := spec.flow.icmpIdentifier;
    var icmp := EchoMessage(identifier, spec.ttl, spec.probeId, endpoint.session, spec.payloadSize).value;
    var body := EchoBody(endpoint.session, spec.probeId, spec.ttl, spec.payloadSize);
    var header := Ipv4Header(endpoint.source, endpoint.destination, PROTO_ICMP, spec.ttl, spec.probeId, |icmp|).value;
    EchoIsChecksumNeutral(identifier, spec.ttl, spec.probeId, endpoint.session, spec.payloadSize);
    TagAndPadding(endpoint.session, spec.probeId, spec.ttl, if spec.payloadSize > 2 then spec.payloadSize - 2 else 0);
    EchoBodyInside(identifier, spec.ttl, spec.probeId, endpoint.session, spec.payloadSize);
    hide InternetChecksum, Ipv4Header, EchoMessage, Tag, PadTo;
    var probe := header + icmp;
    assert probe[..20] == header && probe[20..] == icmp;
    assert probe[20..24] == icmp[..8][..4] && probe[26..28] == icmp[..8][6..8];
    forall k | 28 <= k < 28 + |body| ensures probe[k] == body[k - 28] {
      assert icmp[8..8 + |body|][k - 28] == icmp[k - 20];
    }
  }

  lemma EchoBodyInside(identifier: nat, ttl: byte, probeId: nat, session: nat, payloadSize: nat)
    requires EchoMessage(identifier, ttl, probeId, session, payloadSize).Success?
    ensures var icmp, body := EchoMessage(identifier, ttl, probeId, session, payloadSize).value,
                              EchoBody(session, probeId, ttl, payloadSize);
            |icmp| == 10 + |body| && icmp[8..8 + |body|] == body
  {
    hide EchoBody, EchoCompensation, InternetChecksum;
  }

  lemma TagReadsBack(data: bytes, session: nat, probeId: nat, ttl: byte)
    requires |data| >= 20 && data[8..20] == Tag(session, probeId, ttl)
    ensures ReadTag(data, 8, session) == Tagged(Low16(probeId), true)
  {
    SubSlice(data, 8, 20, 0, 4);
    SliceReads(data, 8, 20, 4);
    SliceReads(data, 8, 20, 8);
  }

  // ---------- Direct answers ----------

  /** A SYN-ACK or RST-ACK of a probe: reversed ports and the probe's sequence acknowledged. */
  ghost predicate HonestTcpAnswer(endpoint: Endpoint, spec: ProbeSpec, segment: bytes) {
    && |segment| >= 20
    && ReadU16(segment, 0) == spec.flow.destinationPort && ReadU16(segment, 2) == spec.flow.sourcePort
    && ReadU32(segment, 8) == (TcpProbeSequence(endpoint.session, spec.probeId) as int + 1) % 0x1_0000_0000
    && var word := ReadU16(segment, 12);
       && 5 <= word / 0x1000 && word / 0x1000 * 4 <= |segment|
       && HasFlag(word, TCP_FLAG_ACK) && (HasFlag(word, TCP_FLAG_SYN) || HasFlag(word, TCP_FLAG_RST))
  }

  lemma HonestTcpSegment(endpoint: Endpoint, spec: ProbeSpec, outer: ParsedIpv4)
    requires spec.flow.protocol.Tcp? && spec.probeId <= 0xFFFF && outer.protocol == PROTO_TCP
    requires HonestTcpAnswer(endpoint, spec, outer.payload)
    ensures var parsed := ParseTcpSegment(outer, endpoint.session);
            && parsed.Success?
            && parsed.value.probeId == spec.probeId && parsed.value.kind.Destination? && parsed.value.terminal
            && MatchesFlow(endpoint, parsed.value, spec.flow)
            && Mutations(endpoint, parsed.value, spec) == []
  {
    var sequence := TcpProbeSequence(endpoint.session, spec.probeId);
    FlagsSurviveMask(ReadU16(outer.payload, 12));
    AcknowledgedSequence(sequence);
    TcpSegmentReads(outer, endpoint.session, sequence);
  }

  lemma TcpSegmentReads(outer: ParsedIpv4, session: nat, sequence: uint32)
    requires outer.protocol == PROTO_TCP && |outer.payload| >= 20
    requires (ReadU32(outer.payload, 8) as int - 1) % 0x1_0000_0000 == sequence
    requires sequence / 0x1_0000 == Low16(session)
    requires var word := ReadU16(outer.payload, 12);
             && 5 <= word / 0x1000 && word / 0x1000 * 4 <= |outer.payload|
             && HasFlag(word % 0x200, TCP_FLAG_ACK)
             && (HasFlag(word % 0x200, TCP_FLAG_SYN) || HasFlag(word % 0x200, TCP_FLAG_RST))
    ensures var parsed := ParseTcpSegment(outer, session);
            && parsed.Success?
            && parsed.value.probeId == sequence % 0x1_0000
            && parsed.value.kind.Destination? && parsed.value.terminal && parsed.value.sessionVerified
            && parsed.value.quoted.None?
            && parsed.value.direct == Some(DirectTcp(ReadU16(outer.payload, 0), ReadU16(outer.payload, 2),
                                                     ReadU16(outer.payload, 12) % 0x200))
  {
  }

  lemma AcknowledgesExactly(acknowledgement: uint32, sequence: uint32)
    ensures (acknowledgement as int - 1) % 0x1_0000_0000 == sequence
       <==> acknowledgement == (sequence as int + 1) % 0x1_0000_0000
  {
  }

  lemma SequenceExactly(session: nat, probeId: nat, sequence: uint32)
    requires probeId <= 0xFFFF
    ensures sequence == TcpProbeSequence(session, probeId)
       <==> sequence / 0x1_0000 == Low16(session) && sequence % 0x1_0000 == probeId
  {
  }

  /** A TCP segment is the answer to a probe exactly when it is an honest one: anything else, such as
      other ports, a bare ACK, data, another session or another sequence, is refused. */
  lemma TcpAnswerExactly(endpoint: Endpoint, spec: ProbeSpec, outer: ParsedIpv4)
    requires spec.probeId <= 0xFFFF
    ensures var parsed := ParseTcpSegment(outer, endpoint.session);
            && (AttributedTo(endpoint, spec, parsed)
                <==> spec.flow.protocol.Tcp? && outer.protocol == PROTO_TCP
                     && HonestTcpAnswer(endpoint, spec, outer.payload))
            && (parsed.Success? ==>
                  && parsed.value.kind.Destination? && parsed.value.terminal
                  && parsed.value.responder == outer.source && parsed.value.replyTtl == Some(outer.ttl)
                  && parsed.value.icmpType.None? && parsed.value.icmpCode.None? && parsed.value.extensions.None?
                  && parsed.value.quoted.None? && parsed.value.sessionVerified && parsed.value.direct.Some?
                  && parsed.value.direct.value.flags == ReadU16(outer.payload, 12) % 0x200)
  {
    if outer.protocol == PROTO_TCP && |outer.payload| >= 20 {
      var acknowledgement: int := ReadU32(outer.payload, 8);
      AcknowledgesExactly(ReadU32(outer.payload, 8), TcpProbeSequence(endpoint.session, spec.probeId));
      SequenceExactly(endpoint.session, spec.probeId, (acknowledgement - 1) % 0x1_0000_0000);
      FlagsSurviveMask(ReadU16(outer.payload, 12));
      hide HasFlag, ReadU16, ReadU32, TcpProbeSequence;
    }
  }

  /** Every honest SYN-ACK or RST-ACK comes back to its probe. */
  lemma HonestTcpRoundTrip(endpoint: Endpoint, spec: ProbeSpec, packet: bytes)
    requires spec.flow.protocol.Tcp? && spec.probeId <= 0xFFFF
    requires ParseIpv4(packet).Success? && ParseIpv4(packet).value.protocol == PROTO_TCP
    requires HonestTcpAnswer(endpoint, spec, ParseIpv4(packet).value.payload)
    ensures var parsed := ParseTcpResponse(packet, endpoint.session);
            && parsed.Success?
            && parsed.value.probeId == spec.probeId && parsed.value.kind.Destination? && parsed.value.terminal
            && MatchesFlow(endpoint, parsed.value, spec.flow)
            && Mutations(endpoint, parsed.value, spec) == []
  {
    HonestTcpSegment(endpoint, spec, ParseIpv4(packet).value);
  }

  lemma AcknowledgedSequence(sequence: uint32)
    ensures ((sequence as int + 1) % 0x1_0000_0000 - 1) % 0x1_0000_0000 == sequence
  {
  }

  lemma MaskedFlag(word: nat, high: nat, low: nat, flag: nat, span: nat)
    requires (flag == 0x10 && span == 0x10) || (flag == 2 && span == 0x80) || (flag == 4 && span == 0x40)
    requires word == high * 0x200 + low
    ensures HasFlag(low, flag) == HasFlag(word, flag)
  {
    assert word / flag == high * span * 2 + low / flag;
  }

  lemma FlagsSurviveMask(word: nat)
    ensures HasFlag(word % 0x200, TCP_FLAG_ACK) == HasFlag(word, TCP_FLAG_ACK)
    ensures HasFlag(word % 0x200, TCP_FLAG_SYN) == HasFlag(word, TCP_FLAG_SYN)
    ensures HasFlag(word % 0x200, TCP_FLAG_RST) == HasFlag(word, TCP_FLAG_RST)
  {
    MaskedFlag(word, word / 0x200, word % 0x200, TCP_FLAG_ACK, 0x10);
    MaskedFlag(word, word / 0x200, word % 0x200, TCP_FLAG_SYN, 0x80);
    MaskedFlag(word, word / 0x200, word % 0x200, TCP_FLAG_RST, 0x40);
  }

  /** An Echo Reply is the answer to a probe exactly when the probe is an Echo request and the reply
      carries the magic, the session and the probe id. */
  lemma EchoAnswerExactly(endpoint: Endpoint, spec: ProbeSpec, arrival: IcmpArrival)
    requires |arrival.icmp| >= 8 && arrival.icmp[0] == 0
    ensures var icmp, parsed := arrival.icmp, ParseIcmpMessage(arrival, endpoint.session);
            && (AttributedTo(endpoint, spec, parsed)
                <==> spec.flow.protocol.Icmp? && |icmp| >= 20 && icmp[8..12] == TAG_MAGIC
                     && ReadU32(icmp, 12) == Low32(endpoint.session) && ReadU16(icmp, 16) == spec.probeId)
            && (parsed.Success? ==>
                  && parsed.value.kind.Destination? && parsed.value.terminal
                  && parsed.value.responder == arrival.responder && parsed.value.replyTtl == arrival.replyTtl
                  && parsed.value.icmpType == Some(0) && parsed.value.icmpCode == Some(icmp[1])
                  && parsed.value.extensions.None? && parsed.value.quoted.None? && parsed.value.sessionVerified
                  && parsed.value.direct.None?)
  {
    hide ReadU16, ReadU32;
  }

  /** Other ICMP messages are refused whatever they carry, and so are errors that do not quote a packet of
      the probe's transport protocol. */
  lemma OthersRefused(endpoint: Endpoint, spec: ProbeSpec, arrival: IcmpArrival)
    requires |arrival.icmp| >= 8 && arrival.icmp[0] != 0
    requires arrival.icmp[0] in {3, 11, 12} && ParseIpv4(arrival.icmp[8..]).Success? ==>
               ParseIpv4(arrival.icmp[8..]).value.protocol != ProtocolNumber(spec.flow.protocol)
    ensures !AttributedTo(endpoint, spec, ParseIcmpMessage(arrival, endpoint.session))
  {
    hide ReadU16, ReadU32, ReadTag, ParseIpv4, ReadQuotation, ExtensionsOf, ErrorKind;
    if arrival.icmp[0] in {3, 11, 12} && ParseIpv4(arrival.icmp[8..]).Success? {
      ShownProtocol(ParseIpv4(arrival.icmp[8..]).value, endpoint.session);
    }
  }

  lemma ShownProtocol(inner: ParsedIpv4, session: nat)
    ensures var read := ReadQuotation(inner, session);
            read.Success? ==> read.value.quoted == ShownFields(inner) && read.value.quoted.protocol == inner.protocol
  {
    hide ReadTag, ReadU16, ReadU32;
  }

  /** An Echo Reply that returns the probe's body comes back to its probe. */
  lemma HonestEchoRoundTrip(endpoint: Endpoint, spec: ProbeSpec, arrival: IcmpArrival)
    requires spec.flow.protocol.Icmp? && spec.probeId <= 0xFFFF
    requires BuildProbe(endpoint, spec).Success?
    requires |arrival.icmp| >= 8 && arrival.icmp[0] == 0
    requires arrival.icmp[8..] == BuildProbe(endpoint, spec).value[28..]
    ensures var parsed := ParseIcmpMessage(arrival, endpoint.session);
            && parsed.Success?
            && parsed.value.probeId == spec.probeId && parsed.value.sessionVerified
            && parsed.value.kind.Destination? && parsed.value.terminal && parsed.value.responder == arrival.responder
            && MatchesFlow(endpoint, parsed.value, spec.flow)
            && Mutations(endpoint, parsed.value, spec) == []
  {
    ProbesAreLaidOut(endpoint, spec);
    EchoOfProbe(endpoint, spec, BuildProbe(endpoint, spec).value, arrival);
  }

  lemma EchoOfProbe(endpoint: Endpoint, spec: ProbeSpec, probe: bytes, arrival: IcmpArrival)
    requires spec.flow.protocol.Icmp? && spec.probeId <= 0xFFFF && ProbeLayout(endpoint, spec, probe)
    requires |arrival.icmp| >= 8 && arrival.icmp[0] == 0 && arrival.icmp[8..] == probe[28..]
    ensures var parsed := ParseIcmpMessage(arrival, endpoint.session);
            && parsed.Success?
            && parsed.value.probeId == spec.probeId && parsed.value.sessionVerified
            && parsed.value.kind.Destination? && parsed.value.terminal && parsed.value.responder == arrival.responder
            && MatchesFlow(endpoint, parsed.value, spec.flow)
            && Mutations(endpoint, parsed.value, spec) == []
  {
    SubSlice(arrival.icmp, 8, |arrival.icmp|, 0, 12);
    SubSlice(probe, 28, |probe|, 0, 12);
    TagReadsBack(arrival.icmp, endpoint.session, spec.probeId, spec.ttl);
  }
}
