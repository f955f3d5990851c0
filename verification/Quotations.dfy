/** ICMP errors that quote a probe: which of them are attributed to it, and what rewrites they show,
    octet by octet. */
module Quotations {
  import opened Bytes
  import opened Correlation
  import opened Extensions
  import opened Model
  import opened ProbePackets
  import opened ResponseParsing
  import opened Wrappers

  // ---------- What a quotation shows ----------

  /** The quoted octets that are read as the probe: nothing beyond the length its header states. */
  function Shown(probe: bytes, quoted: bytes): (shown: bytes)
    ensures |shown| <= |quoted| && |shown| <= |probe|
    ensures forall k :: 0 <= k < |shown| ==> shown[k] == quoted[k]
  {
    if |quoted| < |probe| then quoted else quoted[..|probe|]
  }

  /** At least 28 octets of the probe, whatever routers and middleboxes did to all but its version,
      header length, total length and protocol. */
  predicate QuotesProbe(probe: bytes, shown: bytes) {
    && 28 <= |shown| <= |probe|
    && shown[0] == probe[0] && shown[2] == probe[2] && shown[3] == probe[3] && shown[9] == probe[9]
  }

  predicate Intact(probe: bytes, shown: bytes, from: nat, to: nat)
    requires from <= to <= |shown| <= |probe|
  {
    shown[from..to] == probe[from..to]
  }

  /** The quotation still carries the session and the probe id. */
  predicate CarriesSession(protocol: Protocol, probe: bytes, shown: bytes)
    requires QuotesProbe(probe, shown)
  {
    if protocol.Tcp? then Intact(probe, shown, 24, 28)
    else |shown| >= 40 && Intact(probe, shown, 28, 38)
  }

  /** Nothing in the quotation reads as a session, ours or another. */
  predicate CarriesNoSession(protocol: Protocol, probe: bytes, shown: bytes)
    requires QuotesProbe(probe, shown)
  {
    if protocol.Tcp? then !Intact(probe, shown, 24, 26)
    else |shown| < 40 || !Intact(probe, shown, 28, 32)
  }

  /** The IP identification, the destination and the flow field that stands for the rest. */
  predicate CarriesFlow(protocol: Protocol, probe: bytes, shown: bytes)
    requires QuotesProbe(probe, shown)
  {
    && Intact(probe, shown, 4, 6) && Intact(probe, shown, 16, 20)
    && if protocol.Icmp? then Intact(probe, shown, 24, 26) else Intact(probe, shown, 22, 24)
  }

  predicate Recognisable(protocol: Protocol, probe: bytes, shown: bytes)
    requires QuotesProbe(probe, shown)
  {
    || CarriesSession(protocol, probe, shown)
    || (CarriesNoSession(protocol, probe, shown) && CarriesFlow(protocol, probe, shown))
  }

  /** The quoted octets differ from the probe's in this way. */
  ghost predicate ShowsRewrite(protocol: Protocol, probe: bytes, shown: bytes, mutation: Mutation)
    requires QuotesProbe(probe, shown)
  {
    match mutation
    case SourceAddressChanged(sent, seen) => sent == probe[12..16] && seen == shown[12..16] && sent != seen
    case DestinationAddressChanged(sent, seen) => sent == probe[16..20] && seen == shown[16..20] && sent != seen
    case DscpChanged(dscp) => dscp == shown[1] / 4 && dscp != probe[1] / 4
    case EcnChanged(ecn) => ecn == shown[1] % 4 && ecn != probe[1] % 4
    case SourcePortChanged(sent, seen) =>
      !protocol.Icmp? && sent == ReadU16(probe, 20) && seen == ReadU16(shown, 20) && sent != seen
    case DestinationPortChanged(sent, seen) =>
      !protocol.Icmp? && sent == ReadU16(probe, 22) && seen == ReadU16(shown, 22) && sent != seen
    case TcpSequenceChanged(sent, seen) =>
      protocol.Tcp? && sent == ReadU32(probe, 24) && seen == ReadU32(shown, 24) && sent != seen
    case IcmpIdentifierChanged(sent, seen) =>
      protocol.Icmp? && sent == ReadU16(probe, 24) && seen == ReadU16(shown, 24) && sent != seen
  }

  // ---------- The fields of the probe and of the quotation ----------

  /** The fields of a built probe, as numbers. */
  lemma ProbeFields(endpoint: Endpoint, spec: ProbeSpec, probe: bytes)
    requires ProbeLayout(endpoint, spec, probe)
    ensures probe[0] == 0x45 && probe[1] == 0 && ReadU16(probe, 2) == |probe|
    ensures ReadU16(probe, 4) == Low16(spec.probeId) && probe[9] == ProtocolNumber(spec.flow.protocol)
    ensures probe[12..16] == endpoint.source && probe[16..20] == endpoint.destination
  {
    SubSlice(probe, 0, 20, 12, 16);
    SubSlice(probe, 0, 20, 16, 20);
    SliceReads(probe, 0, 20, 2);
    SliceReads(probe, 0, 20, 4);
    assert probe[..20] == probe[0..20];
  }

  lemma FlowFields(endpoint: Endpoint, spec: ProbeSpec, probe: bytes)
    requires ProbeLayout(endpoint, spec, probe)
    ensures !spec.flow.protocol.Icmp? ==>
              ReadU16(probe, 20) == spec.flow.sourcePort && ReadU16(probe, 22) == spec.flow.destinationPort
    ensures spec.flow.protocol.Icmp? ==> ReadU16(probe, 24) == Low16(spec.flow.icmpIdentifier)
    ensures spec.flow.protocol.Tcp? ==> ReadU32(probe, 24) == TcpProbeSequence(endpoint.session, spec.probeId)
  {
    hide HeaderCarries, Tag, TcpProbeSequence;
    if spec.flow.protocol.Icmp? {
      SliceReads(probe, 24, 26, 0);
    } else {
      FieldsRead(spec.flow.sourcePort, spec.flow.destinationPort);
      SliceReads(probe, 20, 24, 0);
      SliceReads(probe, 20, 24, 2);
      if spec.flow.protocol.Tcp? {
        SliceReads(probe, 24, 28, 0);
      }
    }
  }

  lemma TagFields(endpoint: Endpoint, spec: ProbeSpec, probe: bytes)
    requires ProbeLayout(endpoint, spec, probe) && !spec.flow.protocol.Tcp?
    ensures probe[28..32] == TAG_MAGIC
    ensures ReadU32(probe, 32) == Low32(endpoint.session) && ReadU16(probe, 36) == Low16(spec.probeId)
  {
    hide HeaderCarries, U16;
    SubSlice(probe, 28, 40, 0, 4);
    SliceReads(probe, 28, 40, 4);
    SliceReads(probe, 28, 40, 8);
  }

  /** Fields agree exactly when their octets do. */
  lemma SameField16(a: bytes, b: bytes, at: nat)
    requires at + 2 <= |a| && at + 2 <= |b|
    ensures ReadU16(a, at) == ReadU16(b, at) <==> a[at..at + 2] == b[at..at + 2]
  {
    if ReadU16(a, at) == ReadU16(b, at) {
      assert a[at] == b[at] && a[at + 1] == b[at + 1];
    } else {
      assert a[at] != b[at] || a[at + 1] != b[at + 1];
      assert a[at..at + 2][0] == a[at] && a[at..at + 2][1] == a[at + 1];
      assert b[at..at + 2][0] == b[at] && b[at..at + 2][1] == b[at + 1];
    }
  }

  lemma SameField32(a: bytes, b: bytes, at: nat)
    requires at + 4 <= |a| && at + 4 <= |b|
    ensures ReadU32(a, at) == ReadU32(b, at) <==> a[at..at + 4] == b[at..at + 4]
    ensures ReadU32(a, at) / 0x1_0000 == ReadU16(a, at) && ReadU32(a, at) % 0x1_0000 == ReadU16(a, at + 2)
  {
    hide ReadU16;
    SameField16(a, b, at);
    SameField16(a, b, at + 2);
    SplitSlices(a, b, at, at + 2, at + 4);
  }

  /** Two stretches agree when both their parts do. */
  lemma SplitSlices(a: bytes, b: bytes, from: nat, middle: nat, to: nat)
    requires from <= middle <= to && to <= |a| && to <= |b|
    ensures a[from..to] == b[from..to] <==> a[from..middle] == b[from..middle] && a[middle..to] == b[middle..to]
  {
    assert a[from..to] == a[from..middle] + a[middle..to];
    assert b[from..to] == b[from..middle] + b[middle..to];
    if a[from..to] == b[from..to] {
      assert a[from..middle] == a[from..to][..middle - from] && b[from..middle] == b[from..to][..middle - from];
      assert a[middle..to] == a[from..to][middle - from..] && b[middle..to] == b[from..to][middle - from..];
    }
  }

  // ---------- Reading the quotation ----------

  lemma QuotedHeader(probe: bytes, quoted: bytes)
    requires 40 <= |probe| <= 0xFFFF && probe[0] == 0x45 && ReadU16(probe, 2) == |probe|
    requires QuotesProbe(probe, Shown(probe, quoted))
    ensures var shown := Shown(probe, quoted);
            ParseIpv4(quoted) == Success(ParsedIpv4(20, |probe|, shown[1], ReadU16(shown, 4), shown[8], probe[9],
                                                    shown[12..16], shown[16..20], shown[20..]))
  {
    var shown := Shown(probe, quoted);
    assert quoted[..|shown|] == shown;
    SubSlice(quoted, 0, |shown|, 12, 16);
    SubSlice(quoted, 0, |shown|, 16, 20);
    SubSlice(quoted, 0, |shown|, 20, |shown|);
    assert quoted[0..|shown|] == shown;
    assert shown[20..|shown|] == shown[20..];
  }

  /** What the fields of the quotation read as. */
  function ShownQuotation(protocol: Protocol, probe: bytes, shown: bytes): Quotation
    requires QuotesProbe(probe, shown)
  {
    var bare := Quotation(shown[8], shown[12..16], shown[16..20], probe[9], None, None, None, shown[1], None);
    match protocol
    case Icmp => bare.(icmpIdentifier := Some(ReadU16(shown, 24)))
    case Udp => bare.(sourcePort := Some(ReadU16(shown, 20)), destinationPort := Some(ReadU16(shown, 22)))
    case Tcp => bare.(sourcePort := Some(ReadU16(shown, 20)), destinationPort := Some(ReadU16(shown, 22)),
                      tcpSequence := Some(ReadU32(shown, 24)))
  }

  lemma ShownHeader(protocol: Protocol, probe: bytes, shown: bytes)
    requires QuotesProbe(probe, shown)
    ensures var quoted := ShownQuotation(protocol, probe, shown); quoted.ttl == shown[8] && quoted.protocol == probe[9]
  {
  }

  lemma QuotedFields(protocol: Protocol, probe: bytes, shown: bytes, inner: ParsedIpv4)
    requires QuotesProbe(probe, shown) && probe[9] == ProtocolNumber(protocol)
    requires inner.ttl == shown[8] && inner.protocol == probe[9] && inner.dscpEcn == shown[1]
    requires inner.source == shown[12..16] && inner.destination == shown[16..20] && inner.payload == shown[20..]
    ensures ShownFields(inner) == ShownQuotation(protocol, probe, shown)
  {
    SliceReads(shown, 20, |shown|, 0);
    SliceReads(shown, 20, |shown|, 2);
    SliceReads(shown, 20, |shown|, 4);
    assert shown[20..|shown|] == shown[20..];
  }

  lemma QuotedTag(endpoint: Endpoint, spec: ProbeSpec, probe: bytes, shown: bytes)
    requires ProbeLayout(endpoint, spec, probe) && QuotesProbe(probe, shown) && !spec.flow.protocol.Tcp?
    ensures ReadTag(shown[20..], 8, endpoint.session)
         == if |shown| < 40 || !Intact(probe, shown, 28, 32) then NoTag
            else Tagged(ReadU16(shown, 36), Intact(probe, shown, 32, 36))
  {
    hide ProbeLayout;
    TagFields(endpoint, spec, probe);
    if |shown| >= 40 {
      SubSlice(shown, 20, |shown|, 8, 12);
      SliceReads(shown, 20, |shown|, 12);
      SliceReads(shown, 20, |shown|, 16);
      SameField32(shown, probe, 32);
      assert shown[20..|shown|] == shown[20..];
    }
  }

  /** What an ICMP error says of the path: time exceeded is a router on the way, unreachable of any code is
      its end, and a port unreachable for a UDP probe is the destination itself. */
  ghost predicate ErrorMeans(icmp: bytes, udp: bool, kind: ReplyKind, terminal: bool)
    requires |icmp| >= 2
  {
    && (terminal <==> icmp[0] == 3)
    && (kind.TimeExceeded? <==> icmp[0] == 11)
    && (kind.Destination? <==> icmp[0] == 3 && icmp[1] == 3 && udp)
    && (kind.Unreachable? <==> icmp[0] == 3 && !(icmp[1] == 3 && udp))
    && !kind.Timeout?
  }

  lemma ErrorMessageReads(arrival: IcmpArrival, session: nat, inner: ParsedIpv4)
    requires |arrival.icmp| >= 8 && arrival.icmp[0] in {3, 11, 12} && ParseIpv4(arrival.icmp[8..]) == Success(inner)
    ensures var parsed, probe := ParseIcmpMessage(arrival, session), ReadQuotation(inner, session);
            && (parsed.Success? <==> probe.Success?)
            && (parsed.Success? ==>
                  && parsed.value.probeId == probe.value.probeId
                  && parsed.value.sessionVerified == probe.value.sessionVerified
                  && parsed.value.quoted == Some(probe.value.quoted) && parsed.value.direct.None?
                  && parsed.value.responder == arrival.responder
                  && parsed.value.extensions == ExtensionsOf(arrival.icmp)
                  && ErrorFields(arrival, inner.protocol == PROTO_UDP, parsed.value))
  {
    hide ReadQuotation, ExtensionsOf;
  }

  /** What the reading of an error keeps of the message itself. */
  ghost predicate ErrorFields(arrival: IcmpArrival, udp: bool, parsed: ParsedResponse)
    requires |arrival.icmp| >= 2
  {
    && ErrorMeans(arrival.icmp, udp, parsed.kind, parsed.terminal)
    && parsed.icmpType == Some(arrival.icmp[0]) && parsed.icmpCode == Some(arrival.icmp[1])
    && parsed.responder == arrival.responder && parsed.replyTtl == arrival.replyTtl && parsed.direct.None?
  }

  /** The reading of a TCP quotation. */
  lemma TcpReading(endpoint: Endpoint, spec: ProbeSpec, probe: bytes, shown: bytes, inner: ParsedIpv4)
    requires spec.flow.protocol.Tcp? && spec.probeId <= 0xFFFF
    requires ProbeLayout(endpoint, spec, probe) && QuotesProbe(probe, shown)
    requires ShownFields(inner) == ShownQuotation(Tcp, probe, shown) && inner.identification == ReadU16(shown, 4)
    ensures var read, own := ReadQuotation(inner, endpoint.session), Intact(probe, shown, 24, 26);
            && read.Success? && read.value.quoted == ShownQuotation(Tcp, probe, shown)
            && read.value.sessionVerified == own
            && (read.value.probeId == spec.probeId
                <==> if own then Intact(probe, shown, 26, 28) else Intact(probe, shown, 4, 6))
  {
    hide ShownFields, ProbeLayout, ReadU16, TcpProbeSequence;
    FlowFields(endpoint, spec, probe);
    ProbeFields(endpoint, spec, probe);
    SequenceSplits(endpoint.session, spec.probeId);
    SameField32(shown, probe, 24);
    SameField32(probe, shown, 24);
    SameField16(shown, probe, 24);
    SameField16(shown, probe, 26);
    SameField16(shown, probe, 4);
  }

  lemma SequenceSplits(session: nat, probeId: nat)
    requires probeId <= 0xFFFF
    ensures TcpProbeSequence(session, probeId) / 0x1_0000 == Low16(session)
    ensures TcpProbeSequence(session, probeId) % 0x1_0000 == probeId
  {
  }

  /** The reading of a UDP or ICMP quotation. */
  lemma TaggedReading(endpoint: Endpoint, spec: ProbeSpec, probe: bytes, shown: bytes, inner: ParsedIpv4)
    requires !spec.flow.protocol.Tcp? && spec.probeId <= 0xFFFF
    requires ProbeLayout(endpoint, spec, probe) && QuotesProbe(probe, shown)
    requires ShownFields(inner) == ShownQuotation(spec.flow.protocol, probe, shown)
    requires inner.identification == ReadU16(shown, 4) && inner.payload == shown[20..]
    ensures var read, tagged := ReadQuotation(inner, endpoint.session), |shown| >= 40 && Intact(probe, shown, 28, 32);
            && (read.Success? <==> (tagged ==> Intact(probe, shown, 32, 36)))
            && (read.Success? ==>
                  && read.value.quoted == ShownQuotation(spec.flow.protocol, probe, shown)
                  && read.value.sessionVerified == tagged
                  && (read.value.probeId == spec.probeId
                      <==> if tagged then Intact(probe, shown, 36, 38) else Intact(probe, shown, 4, 6)))
  {
    hide ShownFields, ProbeLayout, ReadTag, ReadU16;
    QuotedTag(endpoint, spec, probe, shown);
    TagFields(endpoint, spec, probe);
    ProbeFields(endpoint, spec, probe);
    SameField16(shown, probe, 4);
    if |shown| >= 40 {
      SameField16(shown, probe, 36);
    }
  }

  /** Acceptance of what was read. */
  lemma AcceptedForFlow(endpoint: Endpoint, spec: ProbeSpec, probe: bytes, shown: bytes, parsed: ParsedResponse)
    requires spec.flow.icmpIdentifier <= 0xFFFF && ProbeLayout(endpoint, spec, probe) && QuotesProbe(probe, shown)
    requires parsed.direct.None? && parsed.quoted == Some(ShownQuotation(spec.flow.protocol, probe, shown))
    ensures MatchesFlow(endpoint, parsed, spec.flow)
       <==> parsed.sessionVerified
            || (Intact(probe, shown, 16, 20)
                && if spec.flow.protocol.Icmp? then Intact(probe, shown, 24, 26) else Intact(probe, shown, 22, 24))
  {
    hide ProbeLayout, ReadU16;
    ProbeFields(endpoint, spec, probe);
    FlowFields(endpoint, spec, probe);
    SameField16(shown, probe, 22);
    SameField16(shown, probe, 24);
  }

  /** The mutations read from the quotation are the differences of its octets. */
  lemma MutationsAreDifferences(endpoint: Endpoint, spec: ProbeSpec, probe: bytes, shown: bytes, parsed: ParsedResponse,
                                m: Mutation)
    requires spec.flow.icmpIdentifier <= 0xFFFF && ProbeLayout(endpoint, spec, probe) && QuotesProbe(probe, shown)
    requires parsed.quoted == Some(ShownQuotation(spec.flow.protocol, probe, shown))
    ensures m in Mutations(endpoint, parsed, spec) <==> ShowsRewrite(spec.flow.protocol, probe, shown, m)
  {
    hide ProbeLayout, HeaderMutations, FlowMutations, ShowsRewrite, ShownQuotation;
    ProbeFields(endpoint, spec, probe);
    FlowFields(endpoint, spec, probe);
    HeaderDifferences(endpoint, spec.flow.protocol, probe, shown, m);
    FlowDifferences(endpoint, spec, probe, shown, m);
  }

  predicate InHeader(m: Mutation) {
    m.SourceAddressChanged? || m.DestinationAddressChanged? || m.DscpChanged? || m.EcnChanged?
  }

  lemma HeaderDifferences(endpoint: Endpoint, protocol: Protocol, probe: bytes, shown: bytes, m: Mutation)
    requires QuotesProbe(probe, shown) && probe[1] == 0
    requires probe[12..16] == endpoint.source && probe[16..20] == endpoint.destination
    ensures m in HeaderMutations(endpoint, ShownQuotation(protocol, probe, shown))
       <==> InHeader(m) && ShowsRewrite(protocol, probe, shown, m)
  {
    hide ReadU16, ReadU32;
  }

  lemma FlowDifferences(endpoint: Endpoint, spec: ProbeSpec, probe: bytes, shown: bytes, m: Mutation)
    requires QuotesProbe(probe, shown)
    requires if spec.flow.protocol.Icmp? then ReadU16(probe, 24) == spec.flow.icmpIdentifier
             else ReadU16(probe, 20) == spec.flow.sourcePort && ReadU16(probe, 22) == spec.flow.destinationPort
    requires spec.flow.protocol.Tcp? ==> ReadU32(probe, 24) == TcpProbeSequence(endpoint.session, spec.probeId)
    ensures m in FlowMutations(endpoint, ShownQuotation(spec.flow.protocol, probe, shown), spec)
       <==> !InHeader(m) && ShowsRewrite(spec.flow.protocol, probe, shown, m)
  {
    hide ReadU16, ReadU32, TcpProbeSequence;
  }

  /** A quotation of at least 28 octets of any built probe, however rewritten, is attributed to the
      probe exactly when it is recognisable: it still carries session and id, or it carries no session
      at all and its IP identification, destination and flow field are intact. Whenever it is read its
      type and code decide kind and terminal, and its mutations are exactly the differences of its octets
      from the probe's. */
  lemma QuotationIsAttributed(endpoint: Endpoint, spec: ProbeSpec, arrival: IcmpArrival)
    requires spec.probeId <= 0xFFFF && spec.flow.icmpIdentifier <= 0xFFFF && BuildProbe(endpoint, spec).Success?
    requires |arrival.icmp| >= 8 && arrival.icmp[0] in {3, 11, 12}
    requires var probe := BuildProbe(endpoint, spec).value; QuotesProbe(probe, Shown(probe, arrival.icmp[8..]))
    ensures var probe := BuildProbe(endpoint, spec).value;
            var shown, parsed := Shown(probe, arrival.icmp[8..]), ParseIcmpMessage(arrival, endpoint.session);
            && (AttributedTo(endpoint, spec, parsed) <==> Recognisable(spec.flow.protocol, probe, shown))
            && (AttributedTo(endpoint, spec, parsed) ==>
                  && (parsed.value.sessionVerified <==> CarriesSession(spec.flow.protocol, probe, shown))
                  && parsed.value.responder == arrival.responder)
            && (parsed.Success? ==>
                  && parsed.value.extensions == ExtensionsOf(arrival.icmp)
                  && ErrorFields(arrival, spec.flow.protocol.Udp?, parsed.value)
                  && parsed.value.quoted.Some? && parsed.value.quoted.value.ttl == shown[8]
                  && parsed.value.quoted.value.protocol == ProtocolNumber(spec.flow.protocol)
                  && forall m :: m in Mutations(endpoint, parsed.value, spec)
                                 <==> ShowsRewrite(spec.flow.protocol, probe, shown, m))
  {
    hide BuildProbe, ProbeLayout, ParseIcmpMessage, Mutations, ShowsRewrite, MatchesFlow, ParseIpv4, ShownQuotation,
         ShownFields, ReadQuotation, ExtensionsOf, Shown;
    var probe := BuildProbe(endpoint, spec).value;
    var shown, protocol := Shown(probe, arrival.icmp[8..]), spec.flow.protocol;
    ProbesAreLaidOut(endpoint, spec);
    ProbeSize(endpoint, spec, probe);
    ProbeFields(endpoint, spec, probe);
    QuotedHeader(probe, arrival.icmp[8..]);
    var inner := ParseIpv4(arrival.icmp[8..]).value;
    QuotedFields(protocol, probe, shown, inner);
    ErrorMessageReads(arrival, endpoint.session, inner);
    var parsed := ParseIcmpMessage(arrival, endpoint.session);
    if protocol.Tcp? {
      TcpReading(endpoint, spec, probe, shown, inner);
      SplitSlices(shown, probe, 24, 26, 28);
    } else {
      TaggedReading(endpoint, spec, probe, shown, inner);
      if |shown| >= 40 {
        SplitSlices(shown, probe, 28, 32, 38);
        SplitSlices(shown, probe, 32, 36, 38);
      }
    }
    if parsed.Success? {
      AcceptedForFlow(endpoint, spec, probe, shown, parsed.value);
      ShownHeader(protocol, probe, shown);
      forall m ensures m in Mutations(endpoint, parsed.value, spec) <==> ShowsRewrite(protocol, probe, shown, m) {
        MutationsAreDifferences(endpoint, spec, probe, shown, parsed.value, m);
      }
    }
  }

  lemma ProbeSize(endpoint: Endpoint, spec: ProbeSpec, probe: bytes)
    requires ProbeLayout(endpoint, spec, probe)
    ensures 40 <= |probe| <= 0xFFFF
  {
  }

  // ---------- Honest errors ----------

  /** At least 28 octets that differ from the probe only where routers must write: the IP TTL (octet 8)
      and the header checksum (octets 10 and 11). */
  ghost predicate HonestQuotation(probe: bytes, quotation: bytes) {
    && 28 <= |quotation| <= |probe|
    && forall k :: 0 <= k < |quotation| && k !in {8, 10, 11} ==> quotation[k] == probe[k]
  }

  /** An ICMP error with eight octets of its own and an honest quotation, followed by anything: nothing,
      padding, or extensions. */
  ghost predicate HonestError(icmp: bytes, probe: bytes, quotation: bytes) {
    && |icmp| >= 8 && icmp[0] in {3, 11, 12}
    && HonestQuotation(probe, quotation) && quotation <= icmp[8..]
  }

  /** The octets after a quotation too short for the tag complete it to a tag that is not the probe's. */
  predicate SpellsForeignTag(protocol: Protocol, probe: bytes, shown: bytes)
    requires QuotesProbe(probe, shown)
  {
    !protocol.Tcp? && |shown| >= 40 && Intact(probe, shown, 28, 32) && !Intact(probe, shown, 32, 38)
  }

  lemma HonestShows(probe: bytes, quoted: bytes, quotation: bytes)
    requires |probe| >= 40 && HonestQuotation(probe, quotation) && quotation <= quoted
    ensures QuotesProbe(probe, Shown(probe, quoted)) && 28 <= |quotation| <= |Shown(probe, quoted)|
    ensures forall k :: 0 <= k < |quotation| && k !in {8, 10, 11} ==> Shown(probe, quoted)[k] == probe[k]
    ensures |quoted| == |quotation| ==> |Shown(probe, quoted)| == |quotation|
  {
  }

  lemma HonestStretch(probe: bytes, shown: bytes, size: nat, from: nat, to: nat)
    requires from <= to <= size <= |shown| <= |probe| && (from >= 12 || (from == 4 && to == 6))
    requires forall k :: 0 <= k < size && k !in {8, 10, 11} ==> shown[k] == probe[k]
    ensures Intact(probe, shown, from, to)
  {
    forall k | from <= k < to ensures shown[k] == probe[k] {
      assert k !in {8, 10, 11};
    }
  }

  lemma HonestIsRecognisable(protocol: Protocol, probe: bytes, shown: bytes, size: nat)
    requires QuotesProbe(probe, shown) && 28 <= size <= |shown|
    requires forall k :: 0 <= k < size && k !in {8, 10, 11} ==> shown[k] == probe[k]
    ensures Recognisable(protocol, probe, shown) <==> !SpellsForeignTag(protocol, probe, shown)
    ensures protocol.Tcp? || size >= 40 ==> CarriesSession(protocol, probe, shown)
    ensures protocol.Tcp? || size >= 40 || |shown| == size ==> !SpellsForeignTag(protocol, probe, shown)
    ensures forall m :: !ShowsRewrite(protocol, probe, shown, m)
  {
    HonestStretch(probe, shown, size, 4, 6);
    HonestStretch(probe, shown, size, 12, 16);
    HonestStretch(probe, shown, size, 16, 20);
    HonestStretch(probe, shown, size, 22, 24);
    HonestStretch(probe, shown, size, 24, 26);
    HonestStretch(probe, shown, size, 24, 28);
    if |shown| >= 40 {
      SplitSlices(shown, probe, 28, 32, 38);
      if size >= 40 {
        HonestStretch(probe, shown, size, 28, 38);
      }
    }
  }

  /** Every honest ICMP error comes back to its probe with the kind its type and code stand for and without any
      rewrite, whatever follows the quotation, unless it cuts the tag and what follows spells another one. The
      session is verified for TCP and from 40 quoted octets on. */
  lemma HonestErrorRoundTrip(endpoint: Endpoint, spec: ProbeSpec, arrival: IcmpArrival, quotation: bytes)
    requires spec.probeId <= 0xFFFF && spec.flow.icmpIdentifier <= 0xFFFF && BuildProbe(endpoint, spec).Success?
    requires HonestError(arrival.icmp, BuildProbe(endpoint, spec).value, quotation)
    ensures var probe := BuildProbe(endpoint, spec).value;
            var shown, parsed := Shown(probe, arrival.icmp[8..]), ParseIcmpMessage(arrival, endpoint.session);
            && QuotesProbe(probe, shown)
            && (AttributedTo(endpoint, spec, parsed) <==> !SpellsForeignTag(spec.flow.protocol, probe, shown))
            && (spec.flow.protocol.Tcp? || |quotation| >= 40 || |arrival.icmp| == 8 + |quotation| ==>
                  !SpellsForeignTag(spec.flow.protocol, probe, shown))
            && (AttributedTo(endpoint, spec, parsed) ==>
                  && Mutations(endpoint, parsed.value, spec) == [] && parsed.value.responder == arrival.responder
                  && (spec.flow.protocol.Tcp? || |quotation| >= 40 ==> parsed.value.sessionVerified)
                  && (parsed.value.sessionVerified <==> CarriesSession(spec.flow.protocol, probe, shown))
                  && ErrorFields(arrival, spec.flow.protocol.Udp?, parsed.value)
                  && parsed.value.quoted.Some? && parsed.value.quoted.value.ttl == quotation[8]
                  && parsed.value.quoted.value.protocol == ProtocolNumber(spec.flow.protocol)
                  && parsed.value.extensions == ExtensionsOf(arrival.icmp))
  {
    hide BuildProbe, ParseIcmpMessage, Mutations, ShowsRewrite, AttributedTo, HonestQuotation, Shown, Recognisable,
         SpellsForeignTag, CarriesSession, ExtensionsOf, ProbeLayout, QuotesProbe;
    var probe := BuildProbe(endpoint, spec).value;
    ProbesAreLaidOut(endpoint, spec);
    ProbeSize(endpoint, spec, probe);
    HonestShows(probe, arrival.icmp[8..], quotation);
    HonestIsRecognisable(spec.flow.protocol, probe, Shown(probe, arrival.icmp[8..]), |quotation|);
    QuotationIsAttributed(endpoint, spec, arrival);
    var parsed := ParseIcmpMessage(arrival, endpoint.session);
    if AttributedTo(endpoint, spec, parsed) {
      Attributed(endpoint, spec, parsed);
      NothingListed(Mutations(endpoint, parsed.value, spec));
    }
  }

  lemma NothingListed(mutations: seq<Mutation>)
    ensures mutations == [] <==> forall m :: m !in mutations
  {
    if mutations != [] {
      assert mutations[0] in mutations;
    }
  }

  lemma Attributed(endpoint: Endpoint, spec: ProbeSpec, parsed: Result<ParsedResponse, ParseError>)
    requires AttributedTo(endpoint, spec, parsed)
    ensures parsed.Success?
  {
  }

  /** A labelled router's usual error: a truncated probe padded to the announced length, then the
      extension objects. One message gives the probe it answers and every object, in order. */
  lemma LabelledErrorRoundTrip(endpoint: Endpoint, spec: ProbeSpec, arrival: IcmpArrival, quotation: bytes,
                               padding: bytes, objects: seq<ExtensionObject>)
    requires spec.probeId <= 0xFFFF && spec.flow.icmpIdentifier <= 0xFFFF && BuildProbe(endpoint, spec).Success?
    requires HonestError(arrival.icmp, BuildProbe(endpoint, spec).value, quotation)
    requires spec.flow.protocol.Tcp? || |quotation| >= 40
    requires forall o :: o in objects ==> Encodable(o)
    requires arrival.icmp[8..] == quotation + padding + EncodeExtension(objects)
    requires |quotation + padding| == QuotationLength(arrival.icmp[5])
    ensures var parsed := ParseIcmpMessage(arrival, endpoint.session);
            && AttributedTo(endpoint, spec, parsed) && parsed.value.sessionVerified
            && Mutations(endpoint, parsed.value, spec) == []
            && parsed.value.extensions == Some(EvidenceOf(objects))
  {
    hide BuildProbe, ParseIcmpMessage, Mutations, EncodeExtension, ExtensionsOf, EvidenceOf, MatchesFlow,
         HonestQuotation, Encodable;
    HonestErrorRoundTrip(endpoint, spec, arrival, quotation);
    ExtensionRoundTrip(arrival.icmp, objects, quotation + padding);
  }

  /** The exception is real: a quotation cut inside the tag and padded with zeros, as RFC 4884 asks of a
      router that adds an extension, reads as another session's, so the reply is lost. */
  lemma PaddedTagIsLost(endpoint: Endpoint, spec: ProbeSpec, arrival: IcmpArrival, quotation: bytes)
    requires spec.probeId <= 0xFFFF && spec.flow.icmpIdentifier <= 0xFFFF && BuildProbe(endpoint, spec).Success?
    requires HonestError(arrival.icmp, BuildProbe(endpoint, spec).value, quotation)
    requires !spec.flow.protocol.Tcp? && spec.probeId % 0x100 != 0
    requires 32 <= |quotation| <= 37 && |arrival.icmp| >= 48
    requires forall k :: 8 + |quotation| <= k < 48 ==> arrival.icmp[k] == 0
    ensures !AttributedTo(endpoint, spec, ParseIcmpMessage(arrival, endpoint.session))
  {
    hide BuildProbe, ParseIcmpMessage, AttributedTo, ProbeLayout, QuotesProbe, Shown;
    var probe := BuildProbe(endpoint, spec).value;
    ProbesAreLaidOut(endpoint, spec);
    ProbeSize(endpoint, spec, probe);
    TagFields(endpoint, spec, probe);
    HonestErrorRoundTrip(endpoint, spec, arrival, quotation);
    HonestShows(probe, arrival.icmp[8..], quotation);
    var shown := Shown(probe, arrival.icmp[8..]);
    ShownReaches(probe, arrival.icmp[8..]);
    HonestStretch(probe, shown, 32, 28, 32);
    assert arrival.icmp[8..][37] == arrival.icmp[45];
    assert probe[37] != 0 && shown[37] == 0;
    assert shown[32..38][5] != probe[32..38][5];
  }

  lemma ShownReaches(probe: bytes, quoted: bytes)
    requires |probe| >= 40 && |quoted| >= 40
    ensures |Shown(probe, quoted)| >= 40
  {
  }

  /** One such error: a time-exceeded for the first probe of a session, 32 octets quoted, 96 of padding. */
  lemma LostReply(source: Ipv4Address, destination: Ipv4Address, router: Ipv4Address) returns (arrival: IcmpArrival)
    ensures var endpoint := Endpoint(source, destination, 1, Standard);
            var spec := ProbeSpec(1, FlowKey(Udp, 50000, 33434, 0, 0), BaselineFixed, 1, 32, 1);
            && BuildProbe(endpoint, spec).Success?
            && HonestError(arrival.icmp, BuildProbe(endpoint, spec).value, BuildProbe(endpoint, spec).value[..32])
            && !AttributedTo(endpoint, spec, ParseIcmpMessage(arrival, endpoint.session))
  {
    var endpoint := Endpoint(source, destination, 1, Standard);
    var spec := ProbeSpec(1, FlowKey(Udp, 50000, 33434, 0, 0), BaselineFixed, 1, 32, 1);
    assert |Tag(1, 1, 1)| == TAG_SIZE;
    var probe := BuildProbe(endpoint, spec).value;
    ProbesAreLaidOut(endpoint, spec);
    ProbeSize(endpoint, spec, probe);
    hide BuildProbe, ProbeLayout, AttributedTo, ParseIcmpMessage;
    var icmp: bytes := [11, 0, 0, 0, 0, 0, 0, 0] + (probe[..32] + Zeros(96));
    assert icmp[8..] == probe[..32] + Zeros(96);
    arrival := IcmpArrival(icmp, router, None);
    PaddedTagIsLost(endpoint, spec, arrival, probe[..32]);
  }
}
