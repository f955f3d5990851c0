/** The data shared by probing, correlation and analysis (model.py). */
module Model {
  import opened Bytes
  import opened Wrappers

  datatype Protocol = Udp | Icmp | Tcp

  /** One flow: the header fields a router may hash, and its number among the variants (0 is the main flow). */
  datatype FlowKey = FlowKey(protocol: Protocol, sourcePort: nat, destinationPort: nat,
                             icmpIdentifier: nat, variant: nat)
  {
    /** The field that distinguishes one flow of a run from another. */
    function Token(): nat {
      if protocol.Icmp? then icmpIdentifier else sourcePort
    }
  }

  datatype Phase = BaselineFixed | CanaryVaried | DbpFixed | DbpVaried

  datatype ProbeSpec = ProbeSpec(ttl: nat, flow: FlowKey, phase: Phase, sampleId: nat,
                                 payloadSize: nat, probeId: nat)

  datatype ReplyKind = TimeExceeded | Destination | Unreachable | Timeout | OtherReply

  datatype MplsLabel = MplsLabel(labelValue: nat, trafficClass: nat, bottomOfStack: bool, ttl: byte)

  datatype InterfaceRole = Incoming | SubIpIncoming | Outgoing | NextHop

  datatype InterfaceInfo = InterfaceInfo(role: InterfaceRole, ifindex: Option<uint32>,
                                         address: Option<bytes>, name: Option<bytes>, mtu: Option<uint32>)

  datatype UnknownObject = UnknownObject(classNumber: byte, ctype: byte, length: nat)

  datatype ExtensionEvidence = ExtensionEvidence(validChecksum: bool, mplsLabels: seq<MplsLabel>,
                                                 interfaces: seq<InterfaceInfo>,
                                                 unknownObjects: seq<UnknownObject>)

  datatype Mutation =
    | SourceAddressChanged(sent: Ipv4Address, quoted: Ipv4Address)
    | DestinationAddressChanged(sent: Ipv4Address, quoted: Ipv4Address)
    | DscpChanged(dscp: nat)
    | EcnChanged(ecn: nat)
    | SourcePortChanged(sentPort: nat, quotedPort: nat)
    | DestinationPortChanged(sentPort: nat, quotedPort: nat)
    | TcpSequenceChanged(sentSequence: nat, quotedSequence: nat)
    | IcmpIdentifierChanged(sentIdentifier: nat, quotedIdentifier: nat)

  datatype Correlator = IpId | TcpAck | TcpSequence | PayloadTag | IpIdAndFlow

  /** What came back for one probe. */
  datatype Reply = Reply(kind: ReplyKind, responder: Option<Ipv4Address>, replyTtl: Option<byte>,
                         icmpType: Option<byte>, icmpCode: Option<byte>, quotedTtl: Option<byte>,
                         terminal: bool, extensions: Option<ExtensionEvidence>,
                         mutations: seq<Mutation>, matchedBy: Correlator, tcpFlags: Option<nat>)
  {
    predicate Legal() {
      && (kind.Timeout? <==> responder.None?)
      && (terminal ==> responder.Some?)
    }
  }

  const NO_REPLY := Reply(Timeout, None, None, None, None, None, false, None, [], IpId, None)

  datatype Observation = Observation(spec: ProbeSpec, reply: Reply) {
    predicate Answered() {
      reply.responder.Some? && !reply.kind.Timeout?
    }
  }

  /** What every backend owes the controller: one legal observation per spec, in send order,
      for that spec up to the probe id the backend chose. */
  ghost predicate AnswersBatch(specs: seq<ProbeSpec>, observed: seq<Observation>) {
    && |observed| == |specs|
    && forall i :: 0 <= i < |specs| ==>
         && observed[i].spec == specs[i].(probeId := observed[i].spec.probeId)
         && observed[i].reply.Legal()
  }
}
