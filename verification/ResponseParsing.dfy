/** Reading responses (the parsers of packet.py). Failures are values, never exceptions. */
module ResponseParsing {
  import opened Bytes
  import opened Extensions
  import opened Model
  import opened ProbePackets
  import opened Wrappers

  datatype ParseError =
    | TruncatedHeader | InvalidHeader | InvalidTotalLength
    | NotIcmp | TruncatedIcmp | UnrelatedEcho | UnrelatedType | OtherSession
    | NotTcp | InvalidDataOffset | NoAcknowledgement | NeitherSynNorRst

  datatype ParsedIpv4 = ParsedIpv4(headerLength: nat, totalLength: nat, dscpEcn: byte, identification: uint16,
                                   ttl: byte, protocol: byte, source: Ipv4Address, destination: Ipv4Address,
                                   payload: bytes)

  /** The invoking packet an ICMP error quotes. */
  datatype Quotation = Quotation(ttl: byte, source: Ipv4Address, destination: Ipv4Address, protocol: byte,
                                 sourcePort: Option<uint16>, destinationPort: Option<uint16>,
                                 icmpIdentifier: Option<uint16>, dscpEcn: byte, tcpSequence: Option<uint32>)

  /** The ports and flags of a direct TCP answer. */
  datatype DirectTcp = DirectTcp(sourcePort: uint16, destinationPort: uint16, flags: nat)

  datatype ParsedResponse = ParsedResponse(probeId: uint16, kind: ReplyKind, responder: Ipv4Address,
                                           replyTtl: Option<byte>, icmpType: Option<byte>, icmpCode: Option<byte>,
                                           terminal: bool, quoted: Option<Quotation>, sessionVerified: bool,
                                           extensions: Option<ExtensionEvidence>, direct: Option<DirectTcp>)

  function ParseIpv4(data: bytes): Result<ParsedIpv4, ParseError> {
    if |data| < 20 then Failure(TruncatedHeader)
    else
      var headerLength := data[0] % 16 * 4;
      if data[0] / 16 != 4 || headerLength < 20 || |data| < headerLength then Failure(InvalidHeader)
      else
        var totalLength := ReadU16(data, 2);
        if totalLength < headerLength then Failure(InvalidTotalLength)
        else
          var available := if |data| < totalLength then |data| else totalLength;
          Success(ParsedIpv4(headerLength, totalLength, data[1], ReadU16(data, 4), data[8], data[9],
                             data[12..16], data[16..20], data[headerLength..available]))
  }

  /** A packet with header options and link-layer padding behind it reads as the fields of its header and
      exactly the payload it announces. */
  lemma OptionsAndPaddingSkipped(header: bytes, payload: bytes, padding: bytes)
    requires 20 <= |header| <= 60 && |header| % 4 == 0 && header[0] == 0x40 + |header| / 4
    requires ReadU16(header, 2) == |header| + |payload|
    ensures ParseIpv4(header + payload + padding)
         == Success(ParsedIpv4(|header|, |header| + |payload|, header[1], ReadU16(header, 4), header[8], header[9],
                               header[12..16], header[16..20], payload))
  {
    var packet := header + payload + padding;
    assert packet[|header|..|header| + |payload|] == payload;
    assert packet[12..16] == header[12..16] && packet[16..20] == header[16..20];
  }

  /** A packet is refused exactly when it is too short for the header it announces, is not of version 4 or
      announces less than its header; a payload cut short is read as far as it goes. */
  lemma HeadersAreChecked(data: bytes)
    ensures ParseIpv4(data).Success?
       <==> && |data| >= 20 && 0x45 <= data[0] < 0x50 && 4 * (data[0] - 0x40) <= |data|
            && 4 * (data[0] - 0x40) <= ReadU16(data, 2)
    ensures ParseIpv4(data).Success? && |data| <= ReadU16(data, 2) ==>
              ParseIpv4(data).value.payload == data[4 * (data[0] - 0x40)..]
  {
    hide ReadU16;
    if |data| >= 20 {
      assert data[0] == data[0] / 16 * 16 + data[0] % 16;
      assert data[|data|..] == [];
    }
  }

  datatype TagReading = NoTag | Tagged(probeId: uint16, ours: bool)

  function ReadTag(data: bytes, at: nat, session: nat): TagReading {
    if |data| < at + TAG_SIZE || data[at..at + 4] != TAG_MAGIC then NoTag
    else Tagged(ReadU16(data, at + 8), ReadU32(data, at + 4) == Low32(session))
  }

  /** An ICMP message with what the outer header, when there is one, says of its sender. */
  datatype IcmpArrival = IcmpArrival(icmp: bytes, responder: Ipv4Address, replyTtl: Option<byte>)

  const UNKNOWN_ADDRESS: Ipv4Address := [0, 0, 0, 0]

  function UnwrapIcmp(packet: bytes, responderHint: Option<Ipv4Address>): Result<IcmpArrival, ParseError> {
    if |packet| > 0 && packet[0] / 16 == 4 then
      var outer :- ParseIpv4(packet);
      if outer.protocol != PROTO_ICMP then Failure(NotIcmp)
      else Success(IcmpArrival(outer.payload, outer.source, Some(outer.ttl)))
    else
      Success(IcmpArrival(packet, if responderHint.Some? then responderHint.value else UNKNOWN_ADDRESS, None))
  }

  /** A raw socket delivers the outer header or, on some systems, the bare message; then the address the
      socket names is the sender's. A packet of another protocol is no ICMP message. */
  lemma BareOrWrapped(packet: bytes, hint: Ipv4Address)
    ensures packet == [] || packet[0] / 16 != 4 ==>
              UnwrapIcmp(packet, Some(hint)) == Success(IcmpArrival(packet, hint, None))
    ensures packet != [] && packet[0] / 16 == 4 && UnwrapIcmp(packet, Some(hint)).Success? ==>
              packet[9] == PROTO_ICMP && UnwrapIcmp(packet, Some(hint)).value.responder == packet[12..16]
  {
    hide ReadU16;
  }

  /** Probe id and session verdict of a quoted packet, and the fields it still shows. */
  datatype QuotedProbe = QuotedProbe(probeId: uint16, sessionVerified: bool, quoted: Quotation)

  /** The transport fields of a quotation long enough to show them. */
  function ShownFields(inner: ParsedIpv4): Quotation {
    var bare := Quotation(inner.ttl, inner.source, inner.destination, inner.protocol, None, None, None,
                          inner.dscpEcn, None);
    if |inner.payload| < 8 || inner.protocol !in {PROTO_UDP, PROTO_ICMP, PROTO_TCP} then bare
    else if inner.protocol == PROTO_ICMP then bare.(icmpIdentifier := Some(ReadU16(inner.payload, 4)))
    else
      bare.(sourcePort := Some(ReadU16(inner.payload, 0)), destinationPort := Some(ReadU16(inner.payload, 2)),
            tcpSequence := if inner.protocol == PROTO_TCP then Some(ReadU32(inner.payload, 4)) else None)
  }

  function ReadQuotation(inner: ParsedIpv4, session: nat): Result<QuotedProbe, ParseError> {
    var shown := ShownFields(inner);
    if shown.tcpSequence.Some? then
      var sequence := shown.tcpSequence.value;
      var ours := sequence / 0x1_0000 == Low16(session);
      Success(QuotedProbe(if ours then sequence % 0x1_0000 else inner.identification, ours, shown))
    else if shown.sourcePort.Some? || shown.icmpIdentifier.Some? then
      match ReadTag(inner.payload, 8, session)
      case NoTag => Success(QuotedProbe(inner.identification, false, shown))
      case Tagged(probeId, ours) =>
        if ours then Success(QuotedProbe(probeId, true, shown)) else Failure(OtherSession)
    else
      Success(QuotedProbe(inner.identification, false, shown))
  }

  function ErrorKind(icmpType: byte, icmpCode: byte, protocol: byte): (ReplyKind, bool) {
    if icmpType == 11 then (TimeExceeded, false)
    else if icmpType == 3 && icmpCode == 3 && protocol == PROTO_UDP then (Destination, true)
    else (if icmpType == 3 then Unreachable else OtherReply, icmpType == 3)
  }

  function ParseIcmpResponse(packet: bytes, session: nat, responderHint: Option<Ipv4Address>)
    : Result<ParsedResponse, ParseError>
  {
    var arrival :- UnwrapIcmp(packet, responderHint);
    ParseIcmpMessage(arrival, session)
  }

  function ParseIcmpMessage(arrival: IcmpArrival, session: nat): Result<ParsedResponse, ParseError> {
    var icmp := arrival.icmp;
    if |icmp| < 8 then Failure(TruncatedIcmp)
    else
      var icmpType, icmpCode := icmp[0], icmp[1];
      if icmpType == 0 then
        var tag := ReadTag(icmp, 8, session);
        if tag.NoTag? || !tag.ours then Failure(UnrelatedEcho)
        else Success(ParsedResponse(tag.probeId, Destination, arrival.responder, arrival.replyTtl, Some(icmpType),
                                    Some(icmpCode), true, None, true, None, None))
      else if icmpType !in {3, 11, 12} then Failure(UnrelatedType)
      else
        var inner :- ParseIpv4(icmp[8..]);
        var probe :- ReadQuotation(inner, session);
        var (kind, terminal) := ErrorKind(icmpType, icmpCode, inner.protocol);
        Success(ParsedResponse(probe.probeId, kind, arrival.responder, arrival.replyTtl, Some(icmpType),
                               Some(icmpCode), terminal, Some(probe.quoted), probe.sessionVerified,
                               ExtensionsOf(icmp), None))
  }

  predicate HasFlag(flags: nat, flag: nat)
    requires flag > 0
  {
    flags / flag % 2 == 1
  }

  function ParseTcpResponse(packet: bytes, session: nat): Result<ParsedResponse, ParseError> {
    var outer :- ParseIpv4(packet);
    ParseTcpSegment(outer, session)
  }

  function ParseTcpSegment(outer: ParsedIpv4, session: nat): Result<ParsedResponse, ParseError> {
    if outer.protocol != PROTO_TCP || |outer.payload| < 20 then Failure(NotTcp)
    else
      var offsetAndFlags := ReadU16(outer.payload, 12);
      var dataOffset, flags := offsetAndFlags / 0x1000, offsetAndFlags % 0x200;
      if dataOffset < 5 || |outer.payload| < dataOffset * 4 then Failure(InvalidDataOffset)
      else if !HasFlag(flags, TCP_FLAG_ACK) then Failure(NoAcknowledgement)
      else if !HasFlag(flags, TCP_FLAG_SYN) && !HasFlag(flags, TCP_FLAG_RST) then Failure(NeitherSynNorRst)
      else
        var acknowledgement: int := ReadU32(outer.payload, 8);
        var sequence: uint32 := (acknowledgement - 1) % 0x1_0000_0000;
        if sequence / 0x1_0000 != Low16(session) then Failure(OtherSession)
        else Success(ParsedResponse(sequence % 0x1_0000, Destination, outer.source, Some(outer.ttl), None, None,
                                    true, None, true, None,
                                    Some(DirectTcp(ReadU16(outer.payload, 0), ReadU16(outer.payload, 2), flags))))
  }
}
