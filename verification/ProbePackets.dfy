/** Probe construction (the builders of packet.py), octet by octet. */
module ProbePackets {
  import opened Bytes
  import opened Checksum
  import opened Wrappers

  datatype BuildError = BadTtl | BadPort | TooLong | NotChecksumNeutral

  datatype SynProfile = Standard | Minimal

  const TAG_MAGIC: bytes := [0x53, 0x54, 0x52, 0x54]
  const TAG_SIZE := 12
  const ICMP_STABLE_CHECKSUM: uint16 := 0x5A5A
  const TCP_FLAG_RST := 0x04
  const TCP_FLAG_SYN := 0x02
  const TCP_FLAG_ACK := 0x10
  const PROTO_ICMP: byte := 1
  const PROTO_TCP: byte := 6
  const PROTO_UDP: byte := 17

  function Tag(session: nat, probeId: nat, ttl: byte): (tag: bytes)
    ensures |tag| == TAG_SIZE
    ensures tag[..4] == TAG_MAGIC
    ensures ReadU32(tag, 4) == Low32(session) && ReadU16(tag, 8) == Low16(probeId)
  {
    TAG_MAGIC + U32(Low32(session)) + U16(Low16(probeId)) + [ttl, 0]
  }

  function Ipv4Header(source: Ipv4Address, destination: Ipv4Address, protocol: byte, ttl: nat,
                      identification: nat, payloadLength: nat, dscpEcn: nat := 0)
    : (header: Result<bytes, BuildError>)
    ensures header.Success? <==> 1 <= ttl <= 255 && 20 + payloadLength <= 0xFFFF
    ensures header.Success? ==> HeaderCarries(header.value, source, destination, protocol, ttl,
                                              Low16(identification), 20 + payloadLength, dscpEcn % 0x100)
    ensures header.Success? ==> InternetChecksum(header.value) == 0
  {
    if !(1 <= ttl <= 255) then Failure(BadTtl)
    else if 20 + payloadLength > 0xFFFF then Failure(TooLong)
    else
      var before: bytes := [0x45, dscpEcn % 0x100] + U16(20 + payloadLength) + U16(Low16(identification))
                           + [0, 0, ttl, protocol];
      var after := source + destination;
      assert WordSum(before + [0, 0] + after) > 0;
      FilledChecksumVerifies(before, after);
      Success(before + U16(InternetChecksum(before + [0, 0] + after)) + after)
  }

  /** The header fields a quotation preserves, read back from the octets. */
  predicate HeaderCarries(h: bytes, source: Ipv4Address, destination: Ipv4Address, protocol: byte,
                          ttl: nat, identification: nat, totalLength: nat, dscpEcn: nat)
  {
    && |h| == 20
    && h[0] == 0x45 && h[1] == dscpEcn && ReadU16(h, 2) == totalLength && ReadU16(h, 4) == identification
    && h[6] == 0 && h[7] == 0
    && h[8] == ttl && h[9] == protocol
    && h[12..16] == source && h[16..20] == destination
  }

  predicate ValidPort(port: nat) {
    1 <= port <= 0xFFFF
  }

  function PadTo(data: bytes, size: nat): bytes {
    data + Zeros(if size > |data| then size - |data| else 0)
  }

  function UdpSegment(sourcePort: uint16, destinationPort: uint16, payload: bytes): bytes
    requires 8 + |payload| <= 0xFFFF
  {
    U16(sourcePort) + U16(destinationPort) + U16(8 + |payload|) + U16(0) + payload
  }

  function BuildUdpProbe(source: Ipv4Address, destination: Ipv4Address, sourcePort: nat,
                         destinationPort: nat, ttl: nat, probeId: nat, session: nat, payloadSize: nat)
    : Result<bytes, BuildError>
  {
    if !ValidPort(sourcePort) || !ValidPort(destinationPort) then Failure(BadPort)
    else if ttl > 255 then Failure(BadTtl)
    else
      var payload := PadTo(Tag(session, probeId, ttl), payloadSize);
      if 8 + |payload| > 0xFFFF then Failure(TooLong)
      else
        var udp := UdpSegment(sourcePort, destinationPort, payload);
        var header :- Ipv4Header(source, destination, PROTO_UDP, ttl, probeId, |udp|);
        Success(header + udp)
  }

  /** The length counts header and payload, and a zero checksum says that there is none. */
  lemma UdpSegmentShape(sourcePort: uint16, destinationPort: uint16, payload: bytes)
    requires 8 + |payload| <= 0xFFFF
    ensures var udp := UdpSegment(sourcePort, destinationPort, payload);
            && |udp| == 8 + |payload| && udp[..4] == U16(sourcePort) + U16(destinationPort)
            && ReadU16(udp, 4) == |udp| && udp[6..8] == [0, 0] && udp[8..] == payload
  {
    var udp := UdpSegment(sourcePort, destinationPort, payload);
    assert udp[4..6] == U16(8 + |payload|);
    SliceReads(udp, 4, 6, 0);
  }

  /** A 16-bit session discriminator and the probe id, in the TCP sequence number. */
  function TcpProbeSequence(session: nat, probeId: nat): (sequence: uint32)
    ensures sequence / 0x1_0000 == Low16(session) && sequence % 0x1_0000 == Low16(probeId)
  {
    var high: int := Low16(session);
    high * 0x1_0000 + Low16(probeId)
  }

  function SynOptions(profile: SynProfile, session: nat): (options: bytes)
    ensures |options| % 4 == 0
  {
    match profile
    case Standard => [2, 4] + U16(1460) + [4, 2] + [8, 10] + U32(Low32(session)) + U32(0) + [1, 3, 3, 7]
    case Minimal => []
  }

  function PseudoHeader(source: Ipv4Address, destination: Ipv4Address, protocol: byte, length: uint16): bytes {
    source + destination + [0, protocol] + U16(length)
  }

  /** The sixteen octets before the TCP checksum field. */
  function SynHead(sourcePort: uint16, destinationPort: uint16, sequence: uint32, profile: SynProfile): bytes {
    U16(sourcePort) + U16(destinationPort) + U32(sequence) + U32(0)
    + U16((if profile.Standard? then 10 else 5) * 0x1000 + TCP_FLAG_SYN)
    + U16(if profile.Standard? then 64240 else 65535)
  }

  function SynSegment(source: Ipv4Address, destination: Ipv4Address, sourcePort: uint16,
                      destinationPort: uint16, probeId: nat, session: nat, profile: SynProfile): bytes
  {
    var head := SynHead(sourcePort, destinationPort, TcpProbeSequence(session, probeId), profile);
    var tail := U16(0) + SynOptions(profile, session);
    var pseudo := PseudoHeader(source, destination, PROTO_TCP, |head| + 2 + |tail|);
    head + U16(InternetChecksum(pseudo + head + [0, 0] + tail)) + tail
  }

  /** A bare SYN, octet by octet from the acknowledgement on: no flag but SYN, no acknowledgement, no
      urgent data, and the window and options of the profile. */
  predicate IsSyn(tcp: bytes, profile: SynProfile, session: nat) {
    && |tcp| == (if profile.Standard? then 40 else 20)
    && tcp[8..12] == [0, 0, 0, 0] && tcp[12] == 4 * |tcp| && tcp[13] == 0x02 && tcp[18..20] == [0, 0]
    && match profile
       case Standard =>
         && tcp[14..16] == [0xFA, 0xF0] && tcp[20..28] == [2, 4, 0x05, 0xB4, 4, 2, 8, 10]
         && tcp[28..32] == U32(Low32(session)) && tcp[32..40] == [0, 0, 0, 0, 1, 3, 3, 7]
       case Minimal => tcp[14..16] == [0xFF, 0xFF]
  }

  lemma SynIsBare(source: Ipv4Address, destination: Ipv4Address, sourcePort: uint16,
                  destinationPort: uint16, probeId: nat, session: nat, profile: SynProfile)
    ensures IsSyn(SynSegment(source, destination, sourcePort, destinationPort, probeId, session, profile),
                  profile, session)
  {
    hide InternetChecksum, TcpProbeSequence, SynOptions, SynHead, PseudoHeader;
    var head := SynHead(sourcePort, destinationPort, TcpProbeSequence(session, probeId), profile);
    var tcp := SynSegment(source, destination, sourcePort, destinationPort, probeId, session, profile);
    HeadIsBare(sourcePort, destinationPort, TcpProbeSequence(session, probeId), profile);
    OptionsAre(profile, session);
    assert tcp[..16] == head && tcp[18..20] == [0, 0] && tcp[20..] == SynOptions(profile, session);
    SplitSegment(tcp, head, SynOptions(profile, session), profile);
  }

  lemma HeadIsBare(sourcePort: uint16, destinationPort: uint16, sequence: uint32, profile: SynProfile)
    ensures var head := SynHead(sourcePort, destinationPort, sequence, profile);
            && |head| == 16 && head[8..12] == [0, 0, 0, 0] && head[13] == 0x02
            && head[12] == (if profile.Standard? then 160 else 80)
            && head[14..16] == (if profile.Standard? then [0xFA, 0xF0] else [0xFF, 0xFF])
  {
    var head := SynHead(sourcePort, destinationPort, sequence, profile);
    var window: uint16 := if profile.Standard? then 64240 else 65535;
    assert U16(window) == if profile.Standard? then [0xFA, 0xF0] else [0xFF, 0xFF];
    assert head[14..16] == U16(window);
  }

  lemma OptionsAre(profile: SynProfile, session: nat)
    ensures var options := SynOptions(profile, session);
            match profile
            case Standard =>
              && |options| == 20 && options[..8] == [2, 4, 0x05, 0xB4, 4, 2, 8, 10]
              && options[8..12] == U32(Low32(session)) && options[12..20] == [0, 0, 0, 0, 1, 3, 3, 7]
            case Minimal => options == []
  {
    hide Low32;
  }

  lemma SplitSegment(tcp: bytes, head: bytes, options: bytes, profile: SynProfile)
    requires |head| == 16 && |tcp| == 20 + |options| && tcp[..16] == head && tcp[20..] == options
    ensures tcp[8..12] == head[8..12] && tcp[14..16] == head[14..16] && tcp[12] == head[12] && tcp[13] == head[13]
    ensures profile.Standard? && |options| == 20 ==>
              tcp[20..28] == options[..8] && tcp[28..32] == options[8..12] && tcp[32..40] == options[12..20]
  {
    SubSlice(tcp, 0, 16, 8, 12);
    SubSlice(tcp, 0, 16, 14, 16);
    assert tcp[12] == tcp[..16][12] && tcp[13] == tcp[..16][13] && tcp[0..16] == tcp[..16];
    if |options| == 20 {
      SubSlice(tcp, 20, 40, 0, 8);
      SubSlice(tcp, 20, 40, 8, 12);
      SubSlice(tcp, 20, 40, 12, 20);
      assert tcp[20..40] == tcp[20..] && options[0..8] == options[..8];
    }
  }

  lemma SynLayout(source: Ipv4Address, destination: Ipv4Address, sourcePort: uint16,
                  destinationPort: uint16, probeId: nat, session: nat, profile: SynProfile)
    ensures var tcp := SynSegment(source, destination, sourcePort, destinationPort, probeId, session, profile);
            && |tcp| == (if profile.Standard? then 40 else 20)
            && tcp[..4] == U16(sourcePort) + U16(destinationPort)
            && tcp[4..8] == U32(TcpProbeSequence(session, probeId))
            && tcp[12] / 16 * 4 == |tcp|
            && IsSyn(tcp, profile, session)
  {
    SynIsBare(source, destination, sourcePort, destinationPort, probeId, session, profile);
    hide IsSyn;
    var head := SynHead(sourcePort, destinationPort, TcpProbeSequence(session, probeId), profile);
    var tcp := SynSegment(source, destination, sourcePort, destinationPort, probeId, session, profile);
    assert tcp[..16] == head;
    assert tcp[..4] == head[..4] && tcp[4..8] == head[4..8] && tcp[12] == head[12];
  }

  /** The segment verifies under its pseudo-header. */
  lemma SynVerifies(source: Ipv4Address, destination: Ipv4Address, sourcePort: uint16,
                    destinationPort: uint16, probeId: nat, session: nat, profile: SynProfile)
    ensures var tcp := SynSegment(source, destination, sourcePort, destinationPort, probeId, session, profile);
            |tcp| <= 0xFFFF && InternetChecksum(PseudoHeader(source, destination, PROTO_TCP, |tcp|) + tcp) == 0
  {
    hide InternetChecksum, TcpProbeSequence, SynOptions, SynHead, WordSum;
    var head := SynHead(sourcePort, destinationPort, TcpProbeSequence(session, probeId), profile);
    var tail := U16(0) + SynOptions(profile, session);
    HeadIsBare(sourcePort, destinationPort, TcpProbeSequence(session, probeId), profile);
    OptionsAre(profile, session);
    PseudoVerifies(source, destination, head, tail);
  }

  lemma PseudoVerifies(source: Ipv4Address, destination: Ipv4Address, head: bytes, tail: bytes)
    requires |head| == 16 && 18 + |tail| <= 0xFFFF
    ensures var pseudo := PseudoHeader(source, destination, PROTO_TCP, |head| + 2 + |tail|);
            InternetChecksum(pseudo + (head + U16(InternetChecksum(pseudo + head + [0, 0] + tail)) + tail)) == 0
  {
    hide InternetChecksum, WordSum, U16;
    var pseudo := PseudoHeader(source, destination, PROTO_TCP, |head| + 2 + |tail|);
    var checksum := InternetChecksum(pseudo + head + [0, 0] + tail);
    assert pseudo + (head + U16(checksum) + tail) == pseudo + head + U16(checksum) + tail;
    assert |pseudo| == 12 && pseudo[9] == PROTO_TCP;
    WordSumPositive(pseudo + head + [0, 0] + tail, 9);
    FilledChecksumVerifies(pseudo + head, tail);
  }

  function BuildTcpSynProbe(source: Ipv4Address, destination: Ipv4Address, sourcePort: nat,
                            destinationPort: nat, ttl: nat, probeId: nat, session: nat, profile: SynProfile)
    : Result<bytes, BuildError>
  {
    if !ValidPort(sourcePort) || !ValidPort(destinationPort) then Failure(BadPort)
    else
      var tcp := SynSegment(source, destination, sourcePort, destinationPort, probeId, session, profile);
      var header :- Ipv4Header(source, destination, PROTO_TCP, ttl, probeId, |tcp|);
      Success(header + tcp)
  }

  /** Echo header, checksum field given. */
  function EchoHeader(checksum: uint16, identifier: nat): bytes {
    [8, 0] + U16(checksum) + U16(Low16(identifier)) + U16(0)
  }

  /** Everything of the Echo body before the compensation word. */
  function EchoBody(session: nat, probeId: nat, ttl: byte, payloadSize: nat): (body: bytes)
    ensures |body| == (if payloadSize > 14 then payloadSize else 14) - 2
    ensures body[..TAG_SIZE] == Tag(session, probeId, ttl)
  {
    PadTo(Tag(session, probeId, ttl), if payloadSize > 2 then payloadSize - 2 else 0)
  }

  function EchoCompensation(identifier: nat, body: bytes): uint16 {
    ChecksumCompensation(EchoHeader(0, identifier) + body + [0, 0], ICMP_STABLE_CHECKSUM)
  }

  function EchoMessage(identifier: nat, ttl: byte, probeId: nat, session: nat, payloadSize: nat)
    : Result<bytes, BuildError>
  {
    var body := EchoBody(session, probeId, ttl, payloadSize);
    var filled := body + U16(EchoCompensation(identifier, body));
    var checksum := InternetChecksum(EchoHeader(0, identifier) + filled);
    if checksum != ICMP_STABLE_CHECKSUM then Failure(NotChecksumNeutral)
    else Success(EchoHeader(checksum, identifier) + filled)
  }

  function BuildIcmpEchoProbe(source: Ipv4Address, destination: Ipv4Address, identifier: nat, ttl: nat,
                              probeId: nat, session: nat, payloadSize: nat)
    : Result<bytes, BuildError>
  {
    if ttl > 255 then Failure(BadTtl)
    else
      var icmp :- EchoMessage(identifier, ttl, probeId, session, payloadSize);
      var header :- Ipv4Header(source, destination, PROTO_ICMP, ttl, probeId, |icmp|);
      Success(header + icmp)
  }

  lemma {:induction false} WordSumPositive(data: bytes, at: nat)
    requires at < |data| && data[at] > 0
    ensures WordSum(data) > 0
  {
    if at < 2 {
    } else {
      WordSumPositive(data[2..], at - 2);
    }
  }

  /** The Echo message is checksum neutral: built for every even payload size, and for an odd one
      exactly when the compensation word happens to be a multiple of 257. When built it verifies,
      and its first eight octets are a function of the identifier alone. */
  lemma EchoIsChecksumNeutral(identifier: nat, ttl: byte, probeId: nat, session: nat, payloadSize: nat)
    ensures var message := EchoMessage(identifier, ttl, probeId, session, payloadSize);
            var word := EchoCompensation(identifier, EchoBody(session, probeId, ttl, payloadSize));
            && (message.Success? <==> payloadSize <= 14 || payloadSize % 2 == 0 || word % 257 == 0)
            && (message.Success? ==>
                  && InternetChecksum(message.value) == 0
                  && message.value[..8] == [8, 0, 0x5A, 0x5A] + U16(Low16(identifier)) + [0, 0])
  {
    var body := EchoBody(session, probeId, ttl, payloadSize);
    var word := EchoCompensation(identifier, body);
    CompensationHitsTarget(EchoHeader(0, identifier) + body, ICMP_STABLE_CHECKSUM);
    assert EchoHeader(0, identifier) + body + U16(word) == EchoHeader(0, identifier) + (body + U16(word));
    var message := EchoMessage(identifier, ttl, probeId, session, payloadSize);
    if message.Success? {
      var after := U16(Low16(identifier)) + U16(0) + (body + U16(word));
      var zeroed := [8, 0] + [0, 0] + after;
      assert zeroed == EchoHeader(0, identifier) + (body + U16(word));
      assert message.value == [8, 0] + U16(InternetChecksum(zeroed)) + after;
      WordSumPositive(zeroed, 0);
      FilledChecksumVerifies([8, 0], after);
    }
  }

  lemma {:induction false} ZerosSum(n: nat)
    ensures WordSum(Zeros(n)) == 0
  {
    if n < 2 {
    } else {
      assert Zeros(n)[2..] == Zeros(n - 2);
      ZerosSum(n - 2);
    }
  }

  /** The condition does fail: with 17 octets of payload the compensation word of this probe is 63225,
      which is 3 modulo 257. */
  lemma OddPayloadRefused()
    ensures EchoMessage(1, 1, 1, 1, 17).Failure?
  {
    var body := EchoBody(1, 1, 1, 17);
    OddMessageSum(body);
    EchoIsChecksumNeutral(1, 1, 1, 1, 17);
  }

  lemma OddMessageSum(body: bytes)
    requires body == EchoBody(1, 1, 1, 17)
    ensures WordSum(EchoHeader(0, 1) + body + [0, 0]) == 0x800 + 1 + 0x5354 + 0x5254 + 1 + 1 + 0x100
  {
    hide WordSum;
    var id: bytes := [0, 1] + ([1, 0] + Zeros(5));
    var tag: bytes := [0x53, 0x54] + ([0x52, 0x54] + ([0, 0] + ([0, 1] + id)));
    var whole: bytes := [8, 0] + ([0, 0] + ([0, 1] + ([0, 0] + tag)));
    ZerosSum(5);
    FirstWord(1, 0, Zeros(5));
    FirstWord(0, 1, [1, 0] + Zeros(5));
    FirstWord(0, 1, id);
    FirstWord(0, 0, [0, 1] + id);
    FirstWord(0x52, 0x54, [0, 0] + ([0, 1] + id));
    FirstWord(0x53, 0x54, [0x52, 0x54] + ([0, 0] + ([0, 1] + id)));
    FirstWord(0, 0, tag);
    FirstWord(0, 1, [0, 0] + tag);
    FirstWord(0, 0, [0, 1] + ([0, 0] + tag));
    FirstWord(8, 0, [0, 0] + ([0, 1] + ([0, 0] + tag)));
    OddMessage(body);
    assert EchoHeader(0, 1) + body + [0, 0] == whole;
  }

  lemma OddMessage(body: bytes)
    requires body == EchoBody(1, 1, 1, 17)
    ensures EchoHeader(0, 1) + body + [0, 0]
         == [8, 0, 0, 0, 0, 1, 0, 0] + ([0x53, 0x54, 0x52, 0x54, 0, 0, 0, 1, 0, 1, 1, 0] + Zeros(5))
  {
    var ttl: byte := 1;
    assert body == Tag(1, 1, ttl) + Zeros(3);
    assert Tag(1, 1, ttl) == TAG_MAGIC + U32(1) + U16(1) + [ttl, 0];
    assert EchoHeader(0, 1) == [8, 0] + U16(0) + U16(1) + U16(0);
  }
}
