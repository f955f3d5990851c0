/** ICMP extension structures: sections 7 and 8 of RFC 4884, MPLS stacks of section 3 of
    RFC 4950 and interface objects of section 4 of RFC 5837 (the parser is packet.py's). */
module Extensions {
  import opened Bytes
  import opened Checksum
  import opened Model
  import opened Wrappers

  const MPLS_CLASS: byte := 1
  const MPLS_INCOMING_STACK: byte := 1
  const INTERFACE_CLASS: byte := 2
  const NO_EVIDENCE := ExtensionEvidence(true, [], [], [])

  // ---------- Decoding ----------

  function DecodeLabel(entry: uint32): MplsLabel {
    MplsLabel(entry / 0x1000, entry / 0x200 % 8, entry / 0x100 % 2 == 1, entry % 0x100)
  }

  function DecodeLabels(payload: bytes): seq<MplsLabel> {
    if |payload| < 4 then [] else [DecodeLabel(ReadU32(payload, 0))] + DecodeLabels(payload[4..])
  }

  function RoleOf(ctype: byte): InterfaceRole {
    match ctype / 0x40
    case 0 => Incoming
    case 1 => SubIpIncoming
    case 2 => Outgoing
    case _ => NextHop
  }

  function TakeWord(present: bool, payload: bytes, at: nat): Option<(Option<uint32>, nat)> {
    if !present then Some((None, at))
    else if at + 4 > |payload| then None
    else Some((Some(ReadU32(payload, at)), at + 4))
  }

  function TakeAddress(present: bool, payload: bytes, at: nat): Option<(Option<bytes>, nat)> {
    if !present then Some((None, at))
    else if at + 2 > |payload| then None
    else
      var afi, start := ReadU16(payload, at), at + 4;
      var size := if afi == 1 then 4 else if afi == 2 then 16 else 0;
      if size == 0 || start + size > |payload| then None
      else Some((Some(payload[start..start + size]), start + size))
  }

  /** The length octet counts itself; a name cut short by the payload keeps what is there. */
  function TakeName(present: bool, payload: bytes, at: nat): Option<(Option<bytes>, nat)> {
    if !present then Some((None, at))
    else if at >= |payload| then None
    else
      var length: int := payload[at];
      if length < 1 || length > 64 then None
      else
        var stop := if at + length > |payload| then |payload| else at + length;
        Some((Some(payload[at + 1..stop]), at + (length + 3) / 4 * 4))
  }

  function ParseInterfaceInfo(ctype: byte, payload: bytes): Option<InterfaceInfo> {
    var (ifindex, afterIndex) :- TakeWord(ctype / 8 % 2 == 1, payload, 0);
    var (address, afterAddress) :- TakeAddress(ctype / 4 % 2 == 1, payload, afterIndex);
    var (name, afterName) :- TakeName(ctype / 2 % 2 == 1, payload, afterAddress);
    var (mtu, _) :- TakeWord(ctype % 2 == 1, payload, afterName);
    Some(InterfaceInfo(RoleOf(ctype), ifindex, address, name, mtu))
  }

  function Append(first: ExtensionEvidence, second: ExtensionEvidence): ExtensionEvidence {
    ExtensionEvidence(first.validChecksum && second.validChecksum,
                      first.mplsLabels + second.mplsLabels,
                      first.interfaces + second.interfaces,
                      first.unknownObjects + second.unknownObjects)
  }

  function ObjectEvidence(classNumber: byte, ctype: byte, payload: bytes): ExtensionEvidence {
    if classNumber == MPLS_CLASS && ctype == MPLS_INCOMING_STACK then
      NO_EVIDENCE.(mplsLabels := DecodeLabels(payload))
    else if classNumber == INTERFACE_CLASS then
      var parsed := ParseInterfaceInfo(ctype, payload);
      if parsed.Some? then NO_EVIDENCE.(interfaces := [parsed.value]) else NO_EVIDENCE
    else
      NO_EVIDENCE.(unknownObjects := [UnknownObject(classNumber, ctype, |payload| + 4)])
  }

  /** Length of the object that starts `body`, or 0 when none is well formed there. */
  function ObjectLength(body: bytes): (length: nat)
    ensures length == 0 || (4 <= length <= |body| && length % 4 == 0)
  {
    if |body| < 4 then 0
    else
      var length := ReadU16(body, 0);
      if length < 4 || length % 4 != 0 || length > |body| then 0 else length
  }

  function ParseObjects(body: bytes): ExtensionEvidence {
    var length := ObjectLength(body);
    if length == 0 then NO_EVIDENCE
    else Append(ObjectEvidence(body[2], body[3], body[4..length]), ParseObjects(body[length..]))
  }

  predicate LooksLikeExtension(icmp: bytes, at: nat) {
    at + 4 <= |icmp| && icmp[at] / 16 == 2
  }

  /** Where the extension starts: the RFC 4884 length field, or the legacy 128-octet quotation. */
  function ExtensionOffset(icmp: bytes): (offset: Option<nat>)
    ensures offset.Some? ==> offset.value + 4 <= |icmp|
  {
    if |icmp| < 12 || icmp[0] !in {3, 11, 12} then None
    else
      var candidate := 8 + QuotationLength(icmp[5]);
      if LooksLikeExtension(icmp, candidate) then Some(candidate) else None
  }

  function QuotationLength(words: int): int {
    if words != 0 then words * 4 else 128
  }

  function ExtensionsOf(icmp: bytes): Option<ExtensionEvidence> {
    var offset :- ExtensionOffset(icmp);
    var extension := icmp[offset..];
    if ReadU16(extension, 2) == 0 || InternetChecksum(extension) == 0 then
      Some(ParseObjects(extension[4..]))
    else
      Some(ExtensionEvidence(false, [], [], []))
  }

  method ParseLabelStack(payload: bytes) returns (labels: seq<MplsLabel>)
    ensures labels == DecodeLabels(payload)
  {
    labels := [];
    var at := 0;
    while at + 4 <= |payload|
      invariant 0 <= at <= |payload|
      invariant labels + DecodeLabels(payload[at..]) == DecodeLabels(payload)
    {
      assert payload[at..][4..] == payload[at + 4..];
      labels := labels + [DecodeLabel(ReadU32(payload, at))];
      at := at + 4;
    }
  }

  /** The loop over the object area, proved against the recursive reading of it. */
  method ParseIcmpExtensions(icmp: bytes) returns (evidence: Option<ExtensionEvidence>)
    ensures evidence == ExtensionsOf(icmp)
  {
    var start := ExtensionOffset(icmp);
    if start.None? {
      return None;
    }
    var extension := icmp[start.value..];
    if ReadU16(extension, 2) != 0 && InternetChecksum(extension) != 0 {
      return Some(ExtensionEvidence(false, [], [], []));
    }
    var objects := ParseObjectArea(extension);
    evidence := Some(objects);
  }

  method AddObject(sofar: ExtensionEvidence, classNumber: byte, ctype: byte, payload: bytes)
    returns (evidence: ExtensionEvidence)
    requires sofar.validChecksum
    ensures evidence == Append(sofar, ObjectEvidence(classNumber, ctype, payload))
  {
    evidence := sofar;
    if classNumber == MPLS_CLASS && ctype == MPLS_INCOMING_STACK {
      var labels := ParseLabelStack(payload);
      evidence := evidence.(mplsLabels := evidence.mplsLabels + labels);
    } else if classNumber == INTERFACE_CLASS {
      var parsed := ParseInterfaceInfo(ctype, payload);
      if parsed.Some? {
        evidence := evidence.(interfaces := evidence.interfaces + [parsed.value]);
      }
    } else {
      evidence := evidence.(unknownObjects := evidence.unknownObjects
                                              + [UnknownObject(classNumber, ctype, |payload| + 4)]);
    }
  }

  /** What is read so far, followed by what the rest parses to, is the whole. */
  ghost predicate ReadUpTo(evidence: ExtensionEvidence, extension: bytes, offset: nat)
    requires 4 <= offset <= |extension|
  {
    && evidence.validChecksum
    && Append(evidence, ParseObjects(extension[offset..])) == ParseObjects(extension[4..])
  }

  method ParseObjectArea(extension: bytes) returns (evidence: ExtensionEvidence)
    requires |extension| >= 4
    ensures evidence == ParseObjects(extension[4..])
  {
    hide ReadUpTo, ParseObjects, ObjectEvidence;
    evidence := NO_EVIDENCE;
    NothingRead(extension);
    var offset := 4;
    while offset + 4 <= |extension|
      invariant 4 <= offset <= |extension|
      invariant ReadUpTo(evidence, extension, offset)
    {
      var length: int, classNumber, ctype := ReadU16(extension, offset), extension[offset + 2], extension[offset + 3];
      if length < 4 || length % 4 != 0 || offset + length > |extension| {
        break;
      }
      var payload := extension[offset + 4..offset + length];
      ObjectAt(evidence, extension, offset, length);
      evidence := AddObject(evidence, classNumber, ctype, payload);
      offset := offset + length;
    }
    NoObjectAt(evidence, extension, offset);
  }

  lemma NothingRead(extension: bytes)
    requires |extension| >= 4
    ensures ReadUpTo(NO_EVIDENCE, extension, 4)
  {
    AlwaysTrusted(extension[4..]);
    AppendAssociative(ParseObjects(extension[4..]), NO_EVIDENCE, NO_EVIDENCE);
  }

  lemma NoObjectAt(sofar: ExtensionEvidence, extension: bytes, offset: nat)
    requires 4 <= offset <= |extension| && ReadUpTo(sofar, extension, offset)
    requires offset + 4 <= |extension| ==>
               var length := ReadU16(extension, offset);
               length < 4 || length % 4 != 0 || offset + length > |extension|
    ensures sofar == ParseObjects(extension[4..])
  {
    assert ObjectLength(extension[offset..]) == 0;
    AppendAssociative(sofar, sofar, sofar);
  }

  lemma ObjectAt(sofar: ExtensionEvidence, extension: bytes, offset: nat, length: nat)
    requires 4 <= offset && 4 <= length && length % 4 == 0 && offset + length <= |extension|
    requires ReadU16(extension, offset) == length
    requires ReadUpTo(sofar, extension, offset)
    ensures ReadUpTo(Append(sofar, ObjectEvidence(extension[offset + 2], extension[offset + 3],
                                                  extension[offset + 4..offset + length])),
                     extension, offset + length)
  {
    var rest := extension[offset..];
    assert ObjectLength(rest) == length;
    assert rest[4..length] == extension[offset + 4..offset + length];
    assert rest[length..] == extension[offset + length..];
    AppendAssociative(sofar, ObjectEvidence(rest[2], rest[3], rest[4..length]), ParseObjects(rest[length..]));
  }

  lemma AppendAssociative(a: ExtensionEvidence, b: ExtensionEvidence, c: ExtensionEvidence)
    ensures Append(Append(a, b), c) == Append(a, Append(b, c))
    ensures a.validChecksum ==> Append(NO_EVIDENCE, a) == a && Append(a, NO_EVIDENCE) == a
  {
  }

  // ---------- What an object area is ----------

  /** A whole number of well-formed objects and nothing else. */
  predicate WellFormed(body: bytes) {
    body == [] || (ObjectLength(body) > 0 && WellFormed(body[ObjectLength(body)..]))
  }

  /** How far the loop gets. */
  function Consumed(body: bytes): (n: nat)
    ensures n <= |body|
  {
    if ObjectLength(body) == 0 then 0 else ObjectLength(body) + Consumed(body[ObjectLength(body)..])
  }

  lemma ObjectLengthOfPrefix(body: bytes, m: nat)
    requires m <= |body|
    ensures ObjectLength(body[..m]) == (if ObjectLength(body) <= m then ObjectLength(body) else 0)
  {
  }

  /** On any octets the parser uses the longest well-formed prefix, and nothing after it matters. */
  lemma {:induction false} ConsumesMaximalPrefix(body: bytes)
    ensures WellFormed(body[..Consumed(body)])
    ensures forall m :: Consumed(body) < m <= |body| ==> !WellFormed(body[..m])
    ensures ParseObjects(body) == ParseObjects(body[..Consumed(body)])
  {
    var length := ObjectLength(body);
    if length == 0 {
      forall m | 0 < m <= |body| ensures !WellFormed(body[..m]) {
        ObjectLengthOfPrefix(body, m);
      }
    } else {
      var rest := body[length..];
      ConsumesMaximalPrefix(rest);
      PrefixUnfolds(body, Consumed(body));
      forall m | Consumed(body) < m <= |body| ensures !WellFormed(body[..m]) {
        PrefixUnfolds(body, m);
        assert !WellFormed(rest[..m - length]);
      }
    }
  }

  lemma PrefixUnfolds(body: bytes, m: nat)
    requires 0 < ObjectLength(body) <= m <= |body|
    ensures WellFormed(body[..m]) <==> WellFormed(body[ObjectLength(body)..][..m - ObjectLength(body)])
    ensures ParseObjects(body[..m])
         == Append(ObjectEvidence(body[2], body[3], body[4..ObjectLength(body)]),
                   ParseObjects(body[ObjectLength(body)..][..m - ObjectLength(body)]))
  {
    var length := ObjectLength(body);
    ObjectLengthOfPrefix(body, m);
    assert body[..m][length..] == body[length..][..m - length];
    assert body[..m][4..length] == body[4..length];
  }

  /** Parsing is a homomorphism: what follows a well-formed area is parsed on its own. */
  lemma {:induction false} ParseConcatenation(a: bytes, b: bytes)
    requires WellFormed(a)
    ensures ParseObjects(a + b) == Append(ParseObjects(a), ParseObjects(b))
    ensures WellFormed(a + b) <==> WellFormed(b)
    decreases |a|
  {
    if a == [] {
      assert a + b == b;
      AlwaysTrusted(b);
      AppendAssociative(ParseObjects(b), NO_EVIDENCE, NO_EVIDENCE);
    } else {
      var length := ObjectLength(a);
      ParseConcatenation(a[length..], b);
      FirstObject(a, b);
      AppendAssociative(ObjectEvidence(a[2], a[3], a[4..length]), ParseObjects(a[length..]), ParseObjects(b));
    }
  }

  lemma FirstObject(a: bytes, b: bytes)
    requires ObjectLength(a) > 0
    ensures ObjectLength(a + b) == ObjectLength(a)
    ensures (a + b)[2] == a[2] && (a + b)[3] == a[3]
    ensures (a + b)[4..ObjectLength(a)] == a[4..ObjectLength(a)]
    ensures (a + b)[ObjectLength(a)..] == a[ObjectLength(a)..] + b
  {
  }

  lemma {:induction false} AlwaysTrusted(body: bytes)
    ensures ParseObjects(body).validChecksum
  {
    if ObjectLength(body) == 0 {
    } else {
      AlwaysTrusted(body[ObjectLength(body)..]);
    }
  }

  // ---------- Encoding ----------

  datatype ExtensionObject =
    | MplsStack(labels: seq<MplsLabel>)
    | Interface(info: InterfaceInfo)
    | Other(classNumber: byte, ctype: byte, payload: bytes)

  predicate EncodableLabel(entry: MplsLabel) {
    entry.labelValue < 0x10_0000 && entry.trafficClass < 8
  }

  predicate EncodableInfo(info: InterfaceInfo) {
    && (info.address.Some? ==> |info.address.value| in {4, 16})
    && (info.name.Some? ==> |info.name.value| <= 63)
  }

  predicate Encodable(obj: ExtensionObject) {
    match obj
    case MplsStack(labels) => 4 + 4 * |labels| <= 0xFFFF && forall l :: l in labels ==> EncodableLabel(l)
    case Interface(info) => EncodableInfo(info)
    case Other(classNumber, ctype, payload) =>
      && !(classNumber == MPLS_CLASS && ctype == MPLS_INCOMING_STACK)
      && classNumber != INTERFACE_CLASS
      && |payload| % 4 == 0 && 4 + |payload| <= 0xFFFF
  }

  function EncodeLabel(entry: MplsLabel): (word: uint32)
    requires EncodableLabel(entry)
    ensures DecodeLabel(word) == entry
  {
    var bottom := if entry.bottomOfStack then 1 else 0;
    LabelFields(entry.labelValue, entry.trafficClass, bottom, entry.ttl);
    entry.labelValue * 0x1000 + entry.trafficClass * 0x200 + bottom * 0x100 + entry.ttl
  }

  lemma LabelFields(labelValue: nat, trafficClass: nat, bottom: nat, ttl: nat)
    requires labelValue < 0x10_0000 && trafficClass < 8 && bottom < 2 && ttl < 0x100
    ensures var word := labelValue * 0x1000 + trafficClass * 0x200 + bottom * 0x100 + ttl;
            && word < 0x1_0000_0000
            && word / 0x1000 == labelValue && word / 0x200 % 8 == trafficClass
            && word / 0x100 % 2 == bottom && word % 0x100 == ttl
  {
    TopField(labelValue, trafficClass * 0x200 + bottom * 0x100 + ttl);
    ClassField(labelValue, trafficClass, bottom * 0x100 + ttl);
    BottomField(labelValue * 8 + trafficClass, bottom, ttl);
  }

  lemma TopField(labelValue: nat, rest: nat)
    requires rest < 0x1000
    ensures (labelValue * 0x1000 + rest) / 0x1000 == labelValue
  {
  }

  lemma ClassField(labelValue: nat, trafficClass: nat, rest: nat)
    requires trafficClass < 8 && rest < 0x200
    ensures (labelValue * 0x1000 + trafficClass * 0x200 + rest) / 0x200 % 8 == trafficClass
  {
    assert (labelValue * 0x1000 + trafficClass * 0x200 + rest) / 0x200 == labelValue * 8 + trafficClass;
  }

  lemma BottomField(high: nat, bottom: nat, ttl: nat)
    requires bottom < 2 && ttl < 0x100
    ensures (high * 0x200 + bottom * 0x100 + ttl) / 0x100 % 2 == bottom
    ensures (high * 0x200 + bottom * 0x100 + ttl) % 0x100 == ttl
  {
    assert (high * 0x200 + bottom * 0x100 + ttl) / 0x100 == high * 2 + bottom;
  }

  function EncodeLabels(labels: seq<MplsLabel>): (b: bytes)
    requires forall l :: l in labels ==> EncodableLabel(l)
    ensures |b| == 4 * |labels|
  {
    if labels == [] then [] else U32(EncodeLabel(labels[0])) + EncodeLabels(labels[1..])
  }

  function EncodeWord(word: Option<uint32>): (b: bytes)
    ensures |b| == (if word.Some? then 4 else 0)
  {
    if word.Some? then U32(word.value) else []
  }

  function EncodeAddress(address: Option<bytes>): (b: bytes)
    requires address.Some? ==> |address.value| in {4, 16}
    ensures |b| == (if address.Some? then 4 + |address.value| else 0)
  {
    if address.None? then []
    else U16(if |address.value| == 4 then 1 else 2) + U16(0) + address.value
  }

  /** Length octet, name, and padding to a multiple of four octets. */
  function EncodeName(name: Option<bytes>): (b: bytes)
    requires name.Some? ==> |name.value| <= 63
    ensures |b| == (if name.Some? then (|name.value| + 4) / 4 * 4 else 0)
  {
    if name.None? then []
    else
      var length := |name.value| + 1;
      [length] + name.value + Zeros((length + 3) / 4 * 4 - length)
  }

  function RoleBits(role: InterfaceRole): byte {
    match role
    case Incoming => 0
    case SubIpIncoming => 0x40
    case Outgoing => 0x80
    case NextHop => 0xC0
  }

  function InterfaceCtype(info: InterfaceInfo): byte {
    var base: int := RoleBits(info.role);
    base + (if info.ifindex.Some? then 8 else 0) + (if info.address.Some? then 4 else 0)
    + (if info.name.Some? then 2 else 0) + (if info.mtu.Some? then 1 else 0)
  }

  lemma InterfaceSize(a: nat, b: nat, c: nat, d: nat, name: nat)
    requires a in {0, 4} && b in {0, 8, 20} && d in {0, 4} && name <= 63
    requires c == 0 || c == (name + 4) / 4 * 4
    ensures (a + b + c + d) % 4 == 0 && a + b + c + d <= 92
  {
    assert c % 4 == 0;
  }

  function EncodeInterface(info: InterfaceInfo): (payload: bytes)
    requires EncodableInfo(info)
    ensures |payload| % 4 == 0 && |payload| <= 92
  {
    InterfaceSize(|EncodeWord(info.ifindex)|, |EncodeAddress(info.address)|, |EncodeName(info.name)|,
                  |EncodeWord(info.mtu)|, if info.name.Some? then |info.name.value| else 0);
    EncodeWord(info.ifindex) + EncodeAddress(info.address) + EncodeName(info.name) + EncodeWord(info.mtu)
  }

  function ObjectClass(obj: ExtensionObject): byte {
    match obj
    case MplsStack(_) => MPLS_CLASS
    case Interface(_) => INTERFACE_CLASS
    case Other(classNumber, _, _) => classNumber
  }

  function ObjectCtype(obj: ExtensionObject): byte {
    match obj
    case MplsStack(_) => MPLS_INCOMING_STACK
    case Interface(info) => InterfaceCtype(info)
    case Other(_, ctype, _) => ctype
  }

  function ObjectPayload(obj: ExtensionObject): (payload: bytes)
    requires Encodable(obj)
    ensures |payload| % 4 == 0 && 4 + |payload| <= 0xFFFF
  {
    match obj
    case MplsStack(labels) => EncodeLabels(labels)
    case Interface(info) => EncodeInterface(info)
    case Other(_, _, payload) => payload
  }

  function EncodeObject(obj: ExtensionObject): bytes
    requires Encodable(obj)
  {
    U16(4 + |ObjectPayload(obj)|) + [ObjectClass(obj), ObjectCtype(obj)] + ObjectPayload(obj)
  }

  function EncodeObjects(objects: seq<ExtensionObject>): bytes
    requires forall o :: o in objects ==> Encodable(o)
  {
    if objects == [] then [] else EncodeObject(objects[0]) + EncodeObjects(objects[1..])
  }

  function EncodeExtension(objects: seq<ExtensionObject>): bytes
    requires forall o :: o in objects ==> Encodable(o)
  {
    var area := EncodeObjects(objects);
    [0x20, 0] + U16(InternetChecksum([0x20, 0] + [0, 0] + area)) + area
  }

  function Meaning(obj: ExtensionObject): ExtensionEvidence {
    match obj
    case MplsStack(labels) => NO_EVIDENCE.(mplsLabels := labels)
    case Interface(info) => NO_EVIDENCE.(interfaces := [info])
    case Other(classNumber, ctype, payload) =>
      NO_EVIDENCE.(unknownObjects := [UnknownObject(classNumber, ctype, |payload| + 4)])
  }

  /** The evidence a list of objects stands for: each kind in order of appearance. */
  function EvidenceOf(objects: seq<ExtensionObject>): ExtensionEvidence {
    if objects == [] then NO_EVIDENCE else Append(Meaning(objects[0]), EvidenceOf(objects[1..]))
  }

  // ---------- Decoding inverts encoding ----------

  lemma {:induction false} LabelsRoundTrip(labels: seq<MplsLabel>)
    requires forall l :: l in labels ==> EncodableLabel(l)
    ensures DecodeLabels(EncodeLabels(labels)) == labels
  {
    if labels == [] {
    } else {
      LabelsRoundTrip(labels[1..]);
      assert EncodeLabels(labels)[4..] == EncodeLabels(labels[1..]);
    }
  }

  lemma WordRoundTrip(payload: bytes, before: bytes, word: Option<uint32>, after: bytes)
    requires payload == before + EncodeWord(word) + after
    ensures TakeWord(word.Some?, payload, |before|)
         == Some((word, |before| + |EncodeWord(word)|))
  {
  }

  lemma AddressRoundTrip(payload: bytes, before: bytes, address: Option<bytes>, after: bytes)
    requires address.Some? ==> |address.value| in {4, 16}
    requires payload == before + EncodeAddress(address) + after
    ensures TakeAddress(address.Some?, payload, |before|)
         == Some((address, |before| + |EncodeAddress(address)|))
  {
    if address.Some? {
      assert payload[|before| + 4..|before| + 4 + |address.value|] == address.value;
    }
  }

  lemma NameRoundTrip(payload: bytes, before: bytes, name: Option<bytes>, after: bytes)
    requires name.Some? ==> |name.value| <= 63
    requires payload == before + EncodeName(name) + after
    ensures TakeName(name.Some?, payload, |before|)
         == Some((name, |before| + |EncodeName(name)|))
  {
    if name.Some? {
      assert payload[|before| + 1..|before| + 1 + |name.value|] == name.value;
    }
  }

  lemma Bits(role: nat, i: nat, a: nat, n: nat, m: nat)
    requires role < 4 && i < 2 && a < 2 && n < 2 && m < 2
    ensures var ctype := role * 0x40 + i * 8 + a * 4 + n * 2 + m;
            ctype / 0x40 == role && ctype / 8 % 2 == i && ctype / 4 % 2 == a && ctype / 2 % 2 == n && ctype % 2 == m
  {
    var ctype := role * 0x40 + i * 8 + a * 4 + n * 2 + m;
    assert ctype / 8 == role * 8 + i;
    assert ctype / 4 == (role * 8 + i) * 2 + a;
    assert ctype / 2 == ((role * 8 + i) * 2 + a) * 2 + n;
  }

  lemma CtypeBits(info: InterfaceInfo)
    ensures var ctype := InterfaceCtype(info);
            && RoleOf(ctype) == info.role
            && (ctype / 8 % 2 == 1 <==> info.ifindex.Some?)
            && (ctype / 4 % 2 == 1 <==> info.address.Some?)
            && (ctype / 2 % 2 == 1 <==> info.name.Some?)
            && (ctype % 2 == 1 <==> info.mtu.Some?)
  {
    Bits(RoleBits(info.role) / 0x40, if info.ifindex.Some? then 1 else 0, if info.address.Some? then 1 else 0,
         if info.name.Some? then 1 else 0, if info.mtu.Some? then 1 else 0);
  }

  lemma IndexField(info: InterfaceInfo)
    requires EncodableInfo(info)
    ensures TakeWord(info.ifindex.Some?, EncodeInterface(info), 0) == Some((info.ifindex, |EncodeWord(info.ifindex)|))
  {
    var a, b, c, d :=
      EncodeWord(info.ifindex), EncodeAddress(info.address), EncodeName(info.name), EncodeWord(info.mtu);
    Regroup(a, b, c, d);
    WordRoundTrip(a + b + c + d, [], info.ifindex, b + c + d);
  }

  lemma AddressField(info: InterfaceInfo)
    requires EncodableInfo(info)
    ensures TakeAddress(info.address.Some?, EncodeInterface(info), |EncodeWord(info.ifindex)|)
         == Some((info.address, |EncodeWord(info.ifindex)| + |EncodeAddress(info.address)|))
  {
    var a, b, c, d :=
      EncodeWord(info.ifindex), EncodeAddress(info.address), EncodeName(info.name), EncodeWord(info.mtu);
    Regroup(a, b, c, d);
    AddressRoundTrip(a + b + c + d, a, info.address, c + d);
  }

  lemma NameField(info: InterfaceInfo)
    requires EncodableInfo(info)
    ensures var at := |EncodeWord(info.ifindex)| + |EncodeAddress(info.address)|;
            TakeName(info.name.Some?, EncodeInterface(info), at) == Some((info.name, at + |EncodeName(info.name)|))
  {
    var a, b, c, d :=
      EncodeWord(info.ifindex), EncodeAddress(info.address), EncodeName(info.name), EncodeWord(info.mtu);
    NameRoundTrip(a + b + c + d, a + b, info.name, d);
  }

  lemma MtuField(info: InterfaceInfo)
    requires EncodableInfo(info)
    ensures var at := |EncodeWord(info.ifindex)| + |EncodeAddress(info.address)| + |EncodeName(info.name)|;
            TakeWord(info.mtu.Some?, EncodeInterface(info), at) == Some((info.mtu, |EncodeInterface(info)|))
  {
    var a, b, c, d :=
      EncodeWord(info.ifindex), EncodeAddress(info.address), EncodeName(info.name), EncodeWord(info.mtu);
    Regroup(a, b, c, d);
    WordRoundTrip(a + b + c + d, a + b + c, info.mtu, []);
  }

  lemma Regroup(a: bytes, b: bytes, c: bytes, d: bytes)
    ensures a + b + c + d == [] + a + (b + c + d) == a + b + (c + d) == a + b + c + d + []
  {
  }

  lemma InterfaceRoundTrip(info: InterfaceInfo)
    requires EncodableInfo(info)
    ensures ParseInterfaceInfo(InterfaceCtype(info), EncodeInterface(info)) == Some(info)
  {
    CtypeBits(info);
    hide InterfaceCtype, EncodeInterface, EncodeWord, EncodeAddress, EncodeName, TakeWord, TakeAddress, TakeName,
         RoleOf;
    IndexField(info);
    AddressField(info);
    NameField(info);
    MtuField(info);
  }

  lemma FrameRoundTrip(classNumber: byte, ctype: byte, payload: bytes)
    requires |payload| % 4 == 0 && 4 + |payload| <= 0xFFFF
    ensures var frame := U16(4 + |payload|) + [classNumber, ctype] + payload;
            WellFormed(frame) && ParseObjects(frame) == ObjectEvidence(classNumber, ctype, payload)
  {
    var frame := U16(4 + |payload|) + [classNumber, ctype] + payload;
    assert ObjectLength(frame) == |frame|;
    assert frame[4..|frame|] == payload;
    assert frame[|frame|..] == [];
    AppendAssociative(ObjectEvidence(classNumber, ctype, payload), NO_EVIDENCE, NO_EVIDENCE);
  }

  lemma ObjectRoundTrip(obj: ExtensionObject)
    requires Encodable(obj)
    ensures WellFormed(EncodeObject(obj))
    ensures ParseObjects(EncodeObject(obj)) == Meaning(obj)
  {
    FrameRoundTrip(ObjectClass(obj), ObjectCtype(obj), ObjectPayload(obj));
    match obj
    case MplsStack(labels) => LabelsRoundTrip(labels);
    case Interface(info) => InterfaceRoundTrip(info);
    case Other(_, _, _) =>
  }

  lemma {:induction false} ObjectsRoundTrip(objects: seq<ExtensionObject>)
    requires forall o :: o in objects ==> Encodable(o)
    ensures WellFormed(EncodeObjects(objects))
    ensures ParseObjects(EncodeObjects(objects)) == EvidenceOf(objects)
  {
    if objects == [] {
    } else {
      ObjectsRoundTrip(objects[1..]);
      ObjectRoundTrip(objects[0]);
      ParseConcatenation(EncodeObject(objects[0]), EncodeObjects(objects[1..]));
    }
  }

  /** An ICMP error carrying an encoded extension after the quotation it announces, or after a
      legacy 128-octet one, yields exactly the encoded objects. */
  lemma ExtensionRoundTrip(icmp: bytes, objects: seq<ExtensionObject>, quotation: bytes)
    requires forall o :: o in objects ==> Encodable(o)
    requires |icmp| >= 8 && icmp[0] in {3, 11, 12}
    requires icmp[8..] == quotation + EncodeExtension(objects)
    requires |quotation| == QuotationLength(icmp[5])
    ensures ExtensionsOf(icmp) == Some(EvidenceOf(objects))
  {
    var extension := EncodeExtension(objects);
    var at := 8 + |quotation|;
    assert icmp[at..] == icmp[8..][|quotation|..] == extension;
    ExtensionIsTrusted(objects);
    assert icmp[at] == extension[0];
    ObjectsRoundTrip(objects);
  }

  lemma ExtensionIsTrusted(objects: seq<ExtensionObject>)
    requires forall o :: o in objects ==> Encodable(o)
    ensures var extension := EncodeExtension(objects);
            && |extension| >= 4 && extension[0] == 0x20
            && InternetChecksum(extension) == 0 && extension[4..] == EncodeObjects(objects)
  {
    var area := EncodeObjects(objects);
    WordSumHead([0x20, 0] + [0, 0] + area);
    FilledChecksumVerifies([0x20, 0], area);
  }

  // ---------- What is not read ----------

  const UNTRUSTED := ExtensionEvidence(false, [], [], [])

  /** Evidence is read only from a structure of version 2 behind the quotation the message announces, and
      nothing of a structure whose checksum fails. */
  lemma OnlyTrustedIsRead(icmp: bytes)
    requires |icmp| >= 12
    ensures var words: int := icmp[5];
            var at := 8 + (if words == 0 then 128 else 4 * words);
            && (ExtensionsOf(icmp).Some? <==> icmp[0] in {3, 11, 12} && at + 4 <= |icmp| && icmp[at] / 0x10 == 2)
            && (ExtensionsOf(icmp).Some? ==>
                  var sound := (icmp[at + 2] == 0 && icmp[at + 3] == 0) || InternetChecksum(icmp[at..]) == 0;
                  if sound then ExtensionsOf(icmp).value.validChecksum else ExtensionsOf(icmp) == Some(UNTRUSTED))
  {
    hide InternetChecksum, ParseObjects;
    var at := 8 + QuotationLength(icmp[5]);
    if at + 4 <= |icmp| {
      AlwaysTrusted(icmp[at..][4..]);
    }
  }

  /** Cut short anywhere, an interface object gives nothing, exactly unless the cut is behind the first octet of a
      name that comes last: the name then keeps what is there. */
  lemma TruncatedInterface(info: InterfaceInfo, n: nat)
    requires EncodableInfo(info) && n < |EncodeInterface(info)|
    ensures var at := |EncodeWord(info.ifindex)| + |EncodeAddress(info.address)|;
            ParseInterfaceInfo(InterfaceCtype(info), EncodeInterface(info)[..n])
            == if info.mtu.None? && info.name.Some? && n > at
               then Some(info.(name := Some(info.name.value[..if n - at - 1 < |info.name.value| then n - at - 1
                                                             else |info.name.value|])))
               else None
  {
    CtypeBits(info);
    TakesOfPrefix(info, n);
    hide InterfaceCtype, EncodeInterface, EncodeWord, EncodeAddress, EncodeName, TakeWord, TakeAddress, TakeName,
         RoleOf;
  }

  lemma TakesOfPrefix(info: InterfaceInfo, n: nat)
    requires EncodableInfo(info) && n < |EncodeInterface(info)|
    ensures var payload := EncodeInterface(info)[..n];
            var first := |EncodeWord(info.ifindex)|;
            var second := first + |EncodeAddress(info.address)|;
            var third := second + |EncodeName(info.name)|;
            && TakeWord(info.ifindex.Some?, payload, 0)
               == (if first <= n then Some((info.ifindex, first)) else None)
            && (first <= n ==>
                  TakeAddress(info.address.Some?, payload, first)
                  == if second <= n then Some((info.address, second)) else None)
            && (second <= n ==>
                  TakeName(info.name.Some?, payload, second)
                  == if info.name.None? then Some((None, second))
                     else if n == second then None
                     else Some((Some(info.name.value[..if n - second - 1 < |info.name.value| then n - second - 1
                                                       else |info.name.value|]), third)))
            && (third <= n || info.name.Some? ==>
                  TakeWord(info.mtu.Some?, payload, third) == if info.mtu.None? then Some((None, third)) else None)
  {
    hide InterfaceCtype, EncodeInterface, TakeWord, TakeAddress, TakeName, RoleOf;
    var payload := EncodeInterface(info);
    var first := |EncodeWord(info.ifindex)|;
    var second := first + |EncodeAddress(info.address)|;
    var third := second + |EncodeName(info.name)|;
    FieldSizes(info);
    IndexField(info);
    AddressField(info);
    NameField(info);
    MtuField(info);
    if info.name.Some? {
      NameLength(info);
    }
    PrefixWord(info.ifindex.Some?, payload, n, 0);
    PrefixAddress(info.address.Some?, payload, n, first);
    PrefixName(info.name.Some?, payload, n, second);
    PrefixWord(info.mtu.Some?, payload, n, third);
  }

  lemma NameLength(info: InterfaceInfo)
    requires EncodableInfo(info) && info.name.Some?
    ensures var at := |EncodeWord(info.ifindex)| + |EncodeAddress(info.address)|;
            && at < |EncodeInterface(info)| && EncodeInterface(info)[at] == |info.name.value| + 1
            && at + EncodeInterface(info)[at] <= |EncodeInterface(info)|
  {
    FieldSizes(info);
    hide EncodeWord, EncodeAddress;
  }

  lemma FieldSizes(info: InterfaceInfo)
    requires EncodableInfo(info)
    ensures |EncodeWord(info.ifindex)| == (if info.ifindex.Some? then 4 else 0)
    ensures |EncodeAddress(info.address)| == (if info.address.Some? then 4 + |info.address.value| else 0)
    ensures |EncodeName(info.name)| == (if info.name.Some? then (|info.name.value| + 4) / 4 * 4 else 0)
    ensures |EncodeWord(info.mtu)| == (if info.mtu.Some? then 4 else 0)
    ensures |EncodeInterface(info)|
         == |EncodeWord(info.ifindex)| + |EncodeAddress(info.address)| + |EncodeName(info.name)|
            + |EncodeWord(info.mtu)|
  {
  }

  lemma PrefixWord(present: bool, payload: bytes, n: nat, at: nat)
    requires n <= |payload|
    ensures TakeWord(present, payload[..n], at)
         == if !present then Some((None, at)) else if at + 4 <= n then TakeWord(present, payload, at) else None
  {
    assert at + 4 <= n ==> ReadU32(payload[..n], at) == ReadU32(payload, at);
  }

  lemma PrefixAddress(present: bool, payload: bytes, n: nat, at: nat)
    requires n <= |payload| && TakeAddress(present, payload, at).Some?
    ensures var taken := TakeAddress(present, payload, at).value;
            TakeAddress(present, payload[..n], at) == if !present || taken.1 <= n then Some(taken) else None
  {
    if present && at + 2 <= n {
      assert ReadU16(payload[..n], at) == ReadU16(payload, at);
      var end := TakeAddress(present, payload, at).value.1;
      if end <= n {
        assert payload[..n][at + 4..end] == payload[at + 4..end];
      }
    }
  }

  lemma PrefixName(present: bool, payload: bytes, n: nat, at: nat)
    requires n <= |payload| && TakeName(present, payload, at).Some?
    requires present ==> at + payload[at] <= |payload|
    ensures var taken := TakeName(present, payload, at).value;
            TakeName(present, payload[..n], at)
            == if !present then Some(taken) else if n <= at then None
               else Some((Some(taken.0.value[..if n - at - 1 < |taken.0.value| then n - at - 1 else |taken.0.value|]),
                          taken.1))
  {
    if present && at < n {
      var stop := if at + payload[at] > n then n else at + payload[at];
      assert payload[..n][at + 1..stop] == payload[at + 1..at + payload[at]][..stop - at - 1];
    }
  }

  /** An address family other than IPv4 and IPv6, or a name length outside 1 to 64, voids the object. */
  lemma UnknownFormsIgnored(ctype: byte, payload: bytes)
    requires var at := if ctype / 8 % 2 == 1 then 4 else 0;
             || (ctype / 4 % 2 == 1 && at + 2 <= |payload| && ReadU16(payload, at) !in {1, 2})
             || (ctype / 4 % 2 == 0 && ctype / 2 % 2 == 1 && at < |payload| && !(1 <= payload[at] <= 64))
    ensures ParseInterfaceInfo(ctype, payload).None?
  {
    hide ReadU16, ReadU32, RoleOf;
  }

  /** One octet of the objects changed on the way: nothing is read, exactly unless the structure was sent
      with checksum zero, which says that there is none. */
  lemma CorruptionIsUntrusted(icmp: bytes, objects: seq<ExtensionObject>, quotation: bytes, k: nat, octet: byte)
    requires forall o :: o in objects ==> Encodable(o)
    requires |icmp| >= 8 && icmp[0] in {3, 11, 12}
    requires icmp[8..] == quotation + EncodeExtension(objects)
    requires |quotation| == QuotationLength(icmp[5])
    requires 12 + |quotation| <= k < |icmp| && octet != icmp[k]
    ensures ExtensionsOf(icmp[k := octet]) == Some(UNTRUSTED)
       <==> InternetChecksum([0x20, 0] + [0, 0] + EncodeObjects(objects)) != 0
  {
    hide InternetChecksum, ParseObjects, EncodeObjects, ExtensionsOf;
    var extension, at := EncodeExtension(objects), 8 + |quotation|;
    var bad := icmp[k := octet];
    ExtensionIsTrusted(objects);
    assert icmp[at..] == icmp[8..][|quotation|..] == extension;
    assert bad[at..] == extension[k - at := octet];
    assert icmp[k] == icmp[at..][k - at] && bad[at + 2] == icmp[at..][2] && bad[at + 3] == icmp[at..][3];
    assert bad[at] == icmp[at..][0] && bad[5] == icmp[5] && bad[0] == icmp[0];
    OnlyTrustedIsRead(bad);
    CorruptionIsNoticed(extension, k - at, octet);
    ChecksumField(objects);
  }

  lemma ChecksumField(objects: seq<ExtensionObject>)
    requires forall o :: o in objects ==> Encodable(o)
    ensures var extension := EncodeExtension(objects);
            && |extension| >= 4
            && (extension[2] == 0 && extension[3] == 0
                <==> InternetChecksum([0x20, 0] + [0, 0] + EncodeObjects(objects)) == 0)
  {
    hide InternetChecksum, EncodeObjects;
    var checksum := InternetChecksum([0x20, 0] + [0, 0] + EncodeObjects(objects));
    assert EncodeExtension(objects)[2..4] == U16(checksum);
    assert EncodeExtension(objects)[2] == U16(checksum)[0] && EncodeExtension(objects)[3] == U16(checksum)[1];
  }

  lemma NoWord(data: bytes)
    requires data == [0, 0]
    ensures WordSum(data) == 0
  {
    assert data[2..] == [];
  }

  lemma UncheckedArea(objects: seq<ExtensionObject>)
    requires objects == [Other(3, 1, [0xDC, 0xF6, 0, 0])]
    ensures Encodable(objects[0]) && EncodeObjects(objects) == [0, 8] + ([3, 1] + ([0xDC, 0xF6] + [0, 0]))
  {
    assert EncodeObjects(objects[1..]) == [];
  }

  lemma UncheckedSum(area: bytes)
    requires area == [0, 8] + ([3, 1] + ([0xDC, 0xF6] + [0, 0]))
    ensures WordSum([0x20, 0] + [0, 0] + area) == 0xFFFF
  {
    hide WordSum;
    FirstWord(0xDC, 0xF6, [0, 0]);
    FirstWord(3, 1, [0xDC, 0xF6] + [0, 0]);
    FirstWord(0, 8, [3, 1] + ([0xDC, 0xF6] + [0, 0]));
    FirstWord(0, 0, area);
    FirstWord(0x20, 0, [0, 0] + area);
    NoWord([0, 0]);
    assert [0x20, 0] + [0, 0] + area == [0x20, 0] + ([0, 0] + area);
  }

  /** There are such structures: one unknown object whose words make up the complement of the header. */
  lemma UncheckedExtension()
    ensures var objects := [Other(3, 1, [0xDC, 0xF6, 0, 0])];
            && Encodable(objects[0])
            && InternetChecksum([0x20, 0] + [0, 0] + EncodeObjects(objects)) == 0
  {
    hide EncodeObjects, InternetChecksum, WordSum;
    var objects := [Other(3, 1, [0xDC, 0xF6, 0, 0])];
    UncheckedArea(objects);
    UncheckedSum(EncodeObjects(objects));
    VerifiesByResidue([0x20, 0] + [0, 0] + EncodeObjects(objects));
  }

  lemma WordSumHead(data: bytes)
    requires |data| >= 2 && data[0] > 0
    ensures WordSum(data) > 0
  {
  }
}
