/** Sending a batch and correlating whatever arrives (RawIPv4Backend of backend.py). The network
    is an arbitrary sequence of receive rounds; a round is what one select call made readable. */
module RawBackend {
  import opened Bytes
  import opened Correlation
  import opened Extensions
  import opened Model
  import opened ProbePackets
  import opened Quotations
  import opened ResponseParsing
  import opened Sequences
  import opened Wrappers

  const ID_SPACE := 0xFFFF

  datatype Socket = IcmpSocket | TcpSocket

  datatype Arrival = Arrival(socket: Socket, packet: bytes, sender: Ipv4Address)

  function Decode(endpoint: Endpoint, arrival: Arrival): Result<ParsedResponse, ParseError> {
    if arrival.socket.TcpSocket? then ParseTcpResponse(arrival.packet, endpoint.session)
    else ParseIcmpResponse(arrival.packet, endpoint.session, Some(arrival.sender))
  }

  /** The arrival parses, names this probe and matches its flow. */
  predicate Accepts(endpoint: Endpoint, spec: ProbeSpec, arrival: Arrival) {
    AttributedTo(endpoint, spec, Decode(endpoint, arrival))
  }

  function ReplyFrom(endpoint: Endpoint, spec: ProbeSpec, parsed: ParsedResponse): Reply {
    var quoted := parsed.quoted;
    Reply(parsed.kind, Some(parsed.responder), parsed.replyTtl, parsed.icmpType, parsed.icmpCode,
          if quoted.Some? then Some(quoted.value.ttl) else None,
          parsed.terminal, parsed.extensions, Mutations(endpoint, parsed, spec),
          if parsed.direct.Some? then TcpAck
          else if quoted.Some? && quoted.value.protocol == PROTO_TCP && parsed.sessionVerified then TcpSequence
          else if parsed.sessionVerified then PayloadTag else IpIdAndFlow,
          if parsed.direct.Some? then Some(parsed.direct.value.flags) else None)
  }

  // ---------- What a probe is owed ----------

  /** Whatever parses is a reply of some kind. */
  lemma DecodedIsNoTimeout(endpoint: Endpoint, arrival: Arrival)
    ensures Decode(endpoint, arrival).Success? ==> !Decode(endpoint, arrival).value.kind.Timeout?
  {
    hide ParseIpv4, ReadQuotation, ReadTag, ReadU16, ReadU32, HasFlag, UnwrapIcmp;
  }

  /** The reply an arrival is for this probe, if it is one. */
  function ReplyOf(endpoint: Endpoint, spec: ProbeSpec, arrival: Arrival): (reply: Option<Reply>)
    ensures reply.Some? <==> Accepts(endpoint, spec, arrival)
    ensures reply.Some? ==> reply.value.Legal() && !reply.value.kind.Timeout?
  {
    hide Decode, MatchesFlow, Mutations;
    DecodedIsNoTimeout(endpoint, arrival);
    if Accepts(endpoint, spec, arrival) then Some(ReplyFrom(endpoint, spec, Decode(endpoint, arrival).value)) else None
  }

  predicate Answered(endpoint: Endpoint, spec: ProbeSpec, arrivals: seq<Arrival>) {
    exists a :: a in arrivals && Accepts(endpoint, spec, a)
  }

  /** The first accepted arrival decides; without one the probe timed out. */
  function Outcome(endpoint: Endpoint, spec: ProbeSpec, arrivals: seq<Arrival>): Reply {
    if arrivals == [] then NO_REPLY
    else if ReplyOf(endpoint, spec, arrivals[0]).Some? then ReplyOf(endpoint, spec, arrivals[0]).value
    else Outcome(endpoint, spec, arrivals[1..])
  }

  lemma {:induction false} OutcomeOfConcatenation(endpoint: Endpoint, spec: ProbeSpec, a: seq<Arrival>, b: seq<Arrival>)
    ensures Outcome(endpoint, spec, a + b)
         == if Answered(endpoint, spec, a) then Outcome(endpoint, spec, a) else Outcome(endpoint, spec, b)
    ensures !Answered(endpoint, spec, a) ==> Outcome(endpoint, spec, a) == NO_REPLY
  {
    hide Accepts, ReplyOf;
    if a == [] {
      assert a + b == b;
    } else {
      assert (a + b)[1..] == a[1..] + b;
      OutcomeOfConcatenation(endpoint, spec, a[1..], b);
      assert forall x :: x in a <==> x == a[0] || x in a[1..];
    }
  }

  /** The arrival at k is the first one accepted for the probe. */
  ghost predicate FirstAccepted(endpoint: Endpoint, spec: ProbeSpec, arrivals: seq<Arrival>, k: nat) {
    && k < |arrivals| && Accepts(endpoint, spec, arrivals[k])
    && forall j :: 0 <= j < k ==> !Accepts(endpoint, spec, arrivals[j])
  }

  /** An observation is a timeout, or is justified by the first arrival that names the probe and
      matches its flow. */
  lemma {:induction false} OutcomeIsJustified(endpoint: Endpoint, spec: ProbeSpec, arrivals: seq<Arrival>)
    ensures Outcome(endpoint, spec, arrivals).Legal()
    ensures Outcome(endpoint, spec, arrivals).kind.Timeout? <==> !Answered(endpoint, spec, arrivals)
    ensures Answered(endpoint, spec, arrivals) ==>
              exists k: nat :: && FirstAccepted(endpoint, spec, arrivals, k)
                          && ReplyOf(endpoint, spec, arrivals[k]) == Some(Outcome(endpoint, spec, arrivals))
  {
    hide Accepts, ReplyOf;
    if arrivals == [] {
    } else if Accepts(endpoint, spec, arrivals[0]) {
      assert FirstAccepted(endpoint, spec, arrivals, 0);
    } else {
      var rest := arrivals[1..];
      OutcomeIsJustified(endpoint, spec, rest);
      assert forall x :: x in arrivals <==> x == arrivals[0] || x in rest;
      if Answered(endpoint, spec, arrivals) {
        var k: nat :| FirstAccepted(endpoint, spec, rest, k)
                 && ReplyOf(endpoint, spec, rest[k]) == Some(Outcome(endpoint, spec, rest));
        forall j | 0 <= j < k + 1 ensures !Accepts(endpoint, spec, arrivals[j]) {
          assert j > 0 ==> arrivals[j] == rest[j - 1];
        }
        assert arrivals[k + 1] == rest[k];
        assert FirstAccepted(endpoint, spec, arrivals, k + 1);
      }
    }
  }

  /** An arrival for another probe, or a second one for this probe, changes nothing. */
  lemma ForeignOrLateArrivalIgnored(endpoint: Endpoint, spec: ProbeSpec, a: seq<Arrival>, x: Arrival, b: seq<Arrival>)
    requires !Accepts(endpoint, spec, x) || Answered(endpoint, spec, a)
    ensures Outcome(endpoint, spec, a + [x] + b) == Outcome(endpoint, spec, a + b)
  {
    assert a + [x] + b == a + ([x] + b);
    OutcomeOfConcatenation(endpoint, spec, a, [x] + b);
    OutcomeOfConcatenation(endpoint, spec, a, b);
    OutcomeOfConcatenation(endpoint, spec, [x], b);
  }

  // ---------- Probe ids ----------

  function NextProbeId(id: nat): nat {
    if id == ID_SPACE then 1 else id + 1
  }

  /** The id handed out by the k-th of consecutive allocations. */
  function IdAfter(start: nat, k: nat): (id: nat)
    requires 1 <= start <= ID_SPACE
    ensures 1 <= id <= ID_SPACE
  {
    (start - 1 + k) % ID_SPACE + 1
  }

  lemma NextIsAfter(start: nat, k: nat)
    requires 1 <= start <= ID_SPACE
    ensures NextProbeId(IdAfter(start, k)) == IdAfter(start, k + 1)
    ensures IdAfter(start, 0) == start
  {
  }

  /** Two allocations agree exactly when they are a multiple of 65535 calls apart. */
  lemma IdsRepeatExactly(start: nat, i: nat, j: nat)
    requires 1 <= start <= ID_SPACE && i <= j
    ensures IdAfter(start, i) == IdAfter(start, j) <==> (j - i) % 65535 == 0
  {
    var x, y := start - 1 + i, start - 1 + j;
    ResidueGap(x, y);
  }

  lemma ResidueGap(x: nat, y: nat)
    requires x <= y
    ensures x % ID_SPACE == y % ID_SPACE <==> (y - x) % ID_SPACE == 0
  {
    var d := y / ID_SPACE - x / ID_SPACE;
    assert y - x == ID_SPACE * d + (y % ID_SPACE - x % ID_SPACE);
  }

  /** The specs as sent, the k-th carrying the k-th id. */
  function Sent(specs: seq<ProbeSpec>, start: nat, k: nat): ProbeSpec
    requires k < |specs| && 1 <= start <= ID_SPACE
  {
    specs[k].(probeId := IdAfter(start, k))
  }

  lemma {:induction false} FlattenSplit(rounds: seq<seq<Arrival>>, k: nat)
    requires k <= |rounds|
    ensures exists rest :: Flatten(rounds) == Flatten(rounds[..k]) + rest && (k == |rounds| ==> rest == [])
    decreases |rounds|
  {
    if k == |rounds| {
      assert rounds[..k] == rounds;
      assert Flatten(rounds) == Flatten(rounds[..k]) + [];
    } else {
      var front := rounds[..|rounds| - 1];
      FlattenSplit(front, k);
      assert front[..k] == rounds[..k];
      var rest :| Flatten(front) == Flatten(front[..k]) + rest;
      assert Flatten(rounds) == Flatten(rounds[..k]) + (rest + rounds[|rounds| - 1]);
    }
  }

  /** What the receive loop knows after some arrivals: the reply table is the outcome table. */
  ghost predicate Correlated(endpoint: Endpoint, outstanding: map<nat, ProbeSpec>, replies: map<nat, Reply>,
                             arrivals: seq<Arrival>)
  {
    && replies.Keys <= outstanding.Keys
    && (forall id :: id in outstanding ==> outstanding[id].probeId == id)
    && (forall id :: id in outstanding ==> (id in replies <==> Answered(endpoint, outstanding[id], arrivals)))
    && (forall id :: id in replies ==> replies[id] == Outcome(endpoint, outstanding[id], arrivals))
  }

  class RawIpv4Backend {
    const endpoint: Endpoint
    var nextProbeId: nat
    var probeCount: nat

    ghost predicate Valid()
      reads this
    {
      1 <= nextProbeId <= ID_SPACE
    }

    constructor (endpoint: Endpoint, firstProbeId: nat)
      requires 1 <= firstProbeId < ID_SPACE
      ensures Valid() && this.endpoint == endpoint && nextProbeId == firstProbeId && probeCount == 0
    {
      this.endpoint := endpoint;
      nextProbeId, probeCount := firstProbeId, 0;
    }

    method AllocateProbeId() returns (id: nat)
      requires Valid()
      modifies this`nextProbeId
      ensures Valid() && id == old(nextProbeId) && nextProbeId == IdAfter(old(nextProbeId), 1)
    {
      id := nextProbeId;
      NextIsAfter(id, 0);
      nextProbeId := if id == ID_SPACE then 1 else id + 1;
    }

    /** One observation per spec, in send order, each the outcome of that probe over everything
        that arrived, whatever the order. Larger batches than the id space lose observations;
        a probe that cannot be built stops the batch. */
    method SendBatch(specs: seq<ProbeSpec>, rounds: seq<seq<Arrival>>)
      returns (result: Result<seq<Observation>, BuildError>)
      requires Valid()
      modifies this
      ensures Valid()
      ensures result.Success? <==>
                forall k :: 0 <= k < |specs| ==> BuildProbe(endpoint, Sent(specs, old(nextProbeId), k)).Success?
      ensures result.Success? ==>
                && nextProbeId == IdAfter(old(nextProbeId), |specs|)
                && probeCount == old(probeCount) + |specs|
                && (|result.value| == |specs| <==> |specs| <= ID_SPACE)
      ensures result.Success? && |specs| <= ID_SPACE ==>
                && AnswersBatch(specs, result.value)
                && forall k :: 0 <= k < |specs| ==>
                     var spec := Sent(specs, old(nextProbeId), k);
                     result.value[k] == Observation(spec, Outcome(endpoint, spec, Flatten(rounds)))
    {
      hide BuildProbe, Accepts, ReplyOf, Outcome, Answered, IdAfter;
      ghost var start := nextProbeId;
      var outstanding: map<nat, ProbeSpec>, order: seq<nat>, sent := map[], [], 0;
      NextIsAfter(start, 0);
      while sent < |specs|
        invariant 0 <= sent <= |specs| && Valid()
        invariant nextProbeId == IdAfter(start, sent) && probeCount == old(probeCount) + sent
        invariant forall k :: 0 <= k < sent ==> BuildProbe(endpoint, Sent(specs, start, k)).Success?
        invariant Registered(specs, start, sent, outstanding, order)
      {
        var id := AllocateProbeId();
        NextIsAfter(start, sent);
        NextIsAfter(id, 0);
        var spec := specs[sent].(probeId := id);
        var packet := BuildProbe(endpoint, spec);
        if packet.Failure? {
          assert spec == Sent(specs, start, sent);
          return Failure(packet.error);
        }
        Registers(specs, start, sent, outstanding, order);
        order := if id in outstanding then order else order + [id];
        outstanding := outstanding[id := spec];
        probeCount := probeCount + 1;
        sent := sent + 1;
      }
      var replies := Receive(outstanding, rounds);
      var observed: seq<Observation>, at := [], 0;
      while at < |order|
        invariant 0 <= at <= |order| && |observed| == at
        invariant forall k :: 0 <= k < at ==>
                    observed[k] == Observation(outstanding[order[k]],
                                               Outcome(endpoint, outstanding[order[k]], Flatten(rounds)))
      {
        var id := order[at];
        observed := observed + [Observation(outstanding[id], if id in replies then replies[id] else NO_REPLY)];
        at := at + 1;
      }
      forall k | 0 <= k < |specs| && |specs| <= ID_SPACE
        ensures observed[k]
                == Observation(Sent(specs, start, k), Outcome(endpoint, Sent(specs, start, k), Flatten(rounds)))
        ensures observed[k].reply.Legal()
      {
        OutcomeIsJustified(endpoint, Sent(specs, start, k), Flatten(rounds));
      }
      result := Success(observed);
    }

    /** The receive loop: stop when every probe is answered or the rounds run out. */
    method Receive(outstanding: map<nat, ProbeSpec>, rounds: seq<seq<Arrival>>) returns (replies: map<nat, Reply>)
      requires forall id :: id in outstanding ==> outstanding[id].probeId == id
      ensures replies.Keys <= outstanding.Keys
      ensures forall id :: id in outstanding ==>
                (if id in replies then replies[id] else NO_REPLY) == Outcome(endpoint, outstanding[id], Flatten(rounds))
    {
      hide *;
      replies := map[];
      NothingArrived(endpoint, outstanding);
      FlattenStep(rounds, 0);
      var round := 0;
      while |replies| < |outstanding| && round < |rounds|
        invariant 0 <= round <= |rounds|
        invariant replies.Keys <= outstanding.Keys
        invariant Correlated(endpoint, outstanding, replies, Flatten(rounds[..round]))
        decreases |rounds| - round
      {
        var readable := rounds[round];
        var at := 0;
        ghost var before := Flatten(rounds[..round]);
        assert before + readable[..0] == before;
        while at < |readable|
          invariant 0 <= at <= |readable|
          invariant replies.Keys <= outstanding.Keys
          invariant Correlated(endpoint, outstanding, replies, before + readable[..at])
        {
          Arrives(endpoint, outstanding, replies, before + readable[..at], readable[at]);
          assert before + readable[..at] + [readable[at]] == before + readable[..at + 1];
          var parsed := Decode(endpoint, readable[at]);
          if parsed.Success? && parsed.value.probeId in outstanding && parsed.value.probeId !in replies {
            var spec := outstanding[parsed.value.probeId];
            if MatchesFlow(endpoint, parsed.value, spec.flow) {
              replies := replies[parsed.value.probeId := ReplyFrom(endpoint, spec, parsed.value)];
            }
          }
          at := at + 1;
        }
        FlattenStep(rounds, round + 1);
        assert readable[..at] == readable;
        round := round + 1;
      }
      FlattenSplit(rounds, round);
      ghost var rest :| Flatten(rounds) == Flatten(rounds[..round]) + rest && (round == |rounds| ==> rest == []);
      Settled(endpoint, outstanding, replies, Flatten(rounds[..round]), rest);
    }
  }

  lemma NothingArrived(endpoint: Endpoint, outstanding: map<nat, ProbeSpec>)
    requires forall id :: id in outstanding ==> outstanding[id].probeId == id
    ensures Correlated(endpoint, outstanding, map[], [])
  {
  }

  /** The table after `sent` registrations: distinct ids in send order up to the id space. */
  ghost predicate Registered(specs: seq<ProbeSpec>, start: nat, sent: nat, outstanding: map<nat, ProbeSpec>,
                             order: seq<nat>)
    requires 1 <= start <= ID_SPACE && sent <= |specs|
  {
    && |order| == (if sent <= ID_SPACE then sent else ID_SPACE)
    && (forall k :: 0 <= k < |order| ==> order[k] == IdAfter(start, k))
    && (forall id :: id in outstanding <==> id in order)
    && (forall id :: id in outstanding ==> outstanding[id].probeId == id)
    && (sent <= ID_SPACE ==> forall k :: 0 <= k < sent ==> outstanding[order[k]] == Sent(specs, start, k))
  }

  lemma Registers(specs: seq<ProbeSpec>, start: nat, sent: nat, outstanding: map<nat, ProbeSpec>, order: seq<nat>)
    requires 1 <= start <= ID_SPACE && sent < |specs|
    requires Registered(specs, start, sent, outstanding, order)
    ensures var id := IdAfter(start, sent);
            && (id in outstanding <==> sent >= ID_SPACE)
            && Registered(specs, start, sent + 1, outstanding[id := Sent(specs, start, sent)],
                          if id in outstanding then order else order + [id])
  {
    FreshId(start, sent, order);
  }

  lemma FreshId(start: nat, sent: nat, order: seq<nat>)
    requires 1 <= start <= ID_SPACE
    requires |order| == (if sent <= ID_SPACE then sent else ID_SPACE)
    requires forall k :: 0 <= k < |order| ==> order[k] == IdAfter(start, k)
    ensures IdAfter(start, sent) in order <==> sent >= ID_SPACE
  {
    if sent >= ID_SPACE {
      IdsRepeatExactly(start, sent % ID_SPACE, sent);
      Multiple(sent);
      assert order[sent % ID_SPACE] == IdAfter(start, sent);
    } else {
      forall k | 0 <= k < sent ensures order[k] != IdAfter(start, sent) {
        IdsRepeatExactly(start, k, sent);
      }
    }
  }

  lemma Multiple(n: nat)
    ensures (n - n % ID_SPACE) % ID_SPACE == 0
  {
    assert n - n % ID_SPACE == ID_SPACE * (n / ID_SPACE);
  }

  /** One more arrival keeps the tables in step when handled as the source does. */
  lemma Arrives(endpoint: Endpoint, outstanding: map<nat, ProbeSpec>, replies: map<nat, Reply>,
                arrivals: seq<Arrival>, arrival: Arrival)
    requires Correlated(endpoint, outstanding, replies, arrivals)
    ensures var parsed := Decode(endpoint, arrival);
            if parsed.Success? && parsed.value.probeId in outstanding && parsed.value.probeId !in replies
               && MatchesFlow(endpoint, parsed.value, outstanding[parsed.value.probeId].flow)
            then Correlated(endpoint, outstanding,
                            replies[parsed.value.probeId :=
                              ReplyFrom(endpoint, outstanding[parsed.value.probeId], parsed.value)],
                            arrivals + [arrival])
            else Correlated(endpoint, outstanding, replies, arrivals + [arrival])
  {
    hide Decode, MatchesFlow;
    forall id | id in outstanding
      ensures Answered(endpoint, outstanding[id], arrivals + [arrival])
              <==> Answered(endpoint, outstanding[id], arrivals) || Accepts(endpoint, outstanding[id], arrival)
      ensures Outcome(endpoint, outstanding[id], arrivals + [arrival])
           == if Answered(endpoint, outstanding[id], arrivals) then Outcome(endpoint, outstanding[id], arrivals)
              else Outcome(endpoint, outstanding[id], [arrival])
    {
      OutcomeOfConcatenation(endpoint, outstanding[id], arrivals, [arrival]);
      AnsweredByLast(endpoint, outstanding[id], arrivals, arrival);
      SingleOutcome(endpoint, outstanding[id], arrival);
    }
  }

  lemma SingleOutcome(endpoint: Endpoint, spec: ProbeSpec, arrival: Arrival)
    ensures Outcome(endpoint, spec, [arrival])
         == if ReplyOf(endpoint, spec, arrival).Some? then ReplyOf(endpoint, spec, arrival).value else NO_REPLY
  {
    hide ReplyOf;
    assert [arrival][1..] == [];
  }

  lemma AnsweredByLast(endpoint: Endpoint, spec: ProbeSpec, arrivals: seq<Arrival>, arrival: Arrival)
    ensures Answered(endpoint, spec, arrivals + [arrival])
            <==> Answered(endpoint, spec, arrivals) || Accepts(endpoint, spec, arrival)
  {
    assert arrival in arrivals + [arrival];
    assert forall x :: x in arrivals + [arrival] <==> x in arrivals || x == arrival;
  }

  /** Stopping early is safe: once every probe is answered no later arrival counts. */
  lemma Settled(endpoint: Endpoint, outstanding: map<nat, ProbeSpec>, replies: map<nat, Reply>,
                arrivals: seq<Arrival>, rest: seq<Arrival>)
    requires Correlated(endpoint, outstanding, replies, arrivals)
    requires |replies| >= |outstanding| || rest == []
    ensures forall id :: id in outstanding ==>
              (if id in replies then replies[id] else NO_REPLY) == Outcome(endpoint, outstanding[id], arrivals + rest)
  {
    if |replies| >= |outstanding| {
      SameKeys(replies.Keys, outstanding.Keys);
    }
    forall id | id in outstanding
      ensures (if id in replies then replies[id] else NO_REPLY) == Outcome(endpoint, outstanding[id], arrivals + rest)
    {
      OutcomeOfConcatenation(endpoint, outstanding[id], arrivals, rest);
    }
  }

  lemma SameKeys(part: set<nat>, whole: set<nat>)
    requires part <= whole && |part| >= |whole|
    ensures part == whole
  {
    assert whole == part + (whole - part);
    assert |whole| == |part| + |whole - part|;
  }

  // ---------- End to end ----------

  /** An ICMP packet as the raw socket delivers it: a router's IPv4 header, then the message. */
  lemma WrappedIcmp(router: Ipv4Address, endpoint: Endpoint, ttl: nat, identification: nat, icmp: bytes,
                    hint: Ipv4Address)
    requires 1 <= ttl <= 255 && 20 + |icmp| <= 0xFFFF
    ensures var packet := Ipv4Header(router, endpoint.source, PROTO_ICMP, ttl, identification, |icmp|).value + icmp;
            UnwrapIcmp(packet, Some(hint)) == Success(IcmpArrival(icmp, router, Some(ttl)))
  {
    var header := Ipv4Header(router, endpoint.source, PROTO_ICMP, ttl, identification, |icmp|).value;
    var packet := header + icmp;
    assert packet[0..20] == header;
    SliceReads(packet, 0, 20, 2);
    HeaderParses(packet, router, endpoint.source, PROTO_ICMP, ttl, icmp);
  }

  /** A header followed by exactly the payload it announces parses to that payload. */
  lemma HeaderParses(packet: bytes, source: Ipv4Address, destination: Ipv4Address, protocol: byte, ttl: nat,
                     payload: bytes)
    requires |packet| == 20 + |payload| <= 0xFFFF && packet[20..] == payload
    requires exists identification, dscpEcn ::
               HeaderCarries(packet[0..20], source, destination, protocol, ttl, identification, |packet|, dscpEcn)
    ensures var parsed := ParseIpv4(packet);
            && parsed.Success? && parsed.value.source == source && parsed.value.protocol == protocol
            && parsed.value.ttl == ttl && parsed.value.payload == payload
  {
    SliceReads(packet, 0, 20, 2);
    SubSlice(packet, 0, 20, 12, 16);
    assert packet[20..|packet|] == payload;
  }

  /** The observation of an error, field by field: the sender and the message as they arrived, the kind and
      the end of the path its type and code stand for, the TTL it quotes, and what it was matched by. */
  ghost predicate ReportsError(reply: Reply, protocol: Protocol, message: IcmpArrival, quotedTtl: byte, tagged: bool)
    requires |message.icmp| >= 2
  {
    && reply.responder == Some(message.responder) && reply.replyTtl == message.replyTtl
    && reply.icmpType == Some(message.icmp[0]) && reply.icmpCode == Some(message.icmp[1])
    && reply.quotedTtl == Some(quotedTtl) && ErrorMeans(message.icmp, protocol.Udp?, reply.kind, reply.terminal)
    && reply.extensions == ExtensionsOf(message.icmp) && reply.tcpFlags.None?
    && (reply.matchedBy.IpIdAndFlow? <==> !tagged) && (reply.matchedBy.TcpSequence? <==> tagged && protocol.Tcp?)
    && (reply.matchedBy.PayloadTag? <==> tagged && !protocol.Tcp?)
  }

  lemma AcceptedIsReported(endpoint: Endpoint, spec: ProbeSpec, before: seq<Arrival>, arrival: Arrival,
                           after: seq<Arrival>)
    requires !Answered(endpoint, spec, before) && Accepts(endpoint, spec, arrival)
    ensures Outcome(endpoint, spec, before + [arrival] + after)
         == ReplyFrom(endpoint, spec, Decode(endpoint, arrival).value)
  {
    hide Accepts, Answered, Decode, ReplyFrom;
    assert before + [arrival] + after == before + ([arrival] + after);
    OutcomeOfConcatenation(endpoint, spec, before, [arrival] + after);
    AcceptedReply(endpoint, spec, arrival);
  }

  lemma AcceptedReply(endpoint: Endpoint, spec: ProbeSpec, arrival: Arrival)
    requires Accepts(endpoint, spec, arrival)
    ensures Decode(endpoint, arrival).Success?
    ensures ReplyOf(endpoint, spec, arrival) == Some(ReplyFrom(endpoint, spec, Decode(endpoint, arrival).value))
  {
    hide Decode, ReplyFrom;
  }

  lemma ErrorReply(endpoint: Endpoint, spec: ProbeSpec, parsed: ParsedResponse, message: IcmpArrival, quotedTtl: byte)
    requires |message.icmp| >= 2 && ErrorFields(message, spec.flow.protocol.Udp?, parsed)
    requires parsed.quoted.Some? && parsed.quoted.value.ttl == quotedTtl
    requires parsed.quoted.value.protocol == ProtocolNumber(spec.flow.protocol)
    requires parsed.extensions == ExtensionsOf(message.icmp)
    ensures var reply := ReplyFrom(endpoint, spec, parsed);
            && ReportsError(reply, spec.flow.protocol, message, quotedTtl, parsed.sessionVerified)
            && reply.mutations == Mutations(endpoint, parsed, spec)
  {
    hide Mutations, ExtensionsOf;
  }

  /** An ICMP error that quotes a probe, however rewritten, is that probe's observation when it is recognisable
      and nothing accepted came before it: field by field, with exactly the rewrites its octets show. One that
      is not recognisable changes nothing. */
  lemma QuotedErrorIsReported(endpoint: Endpoint, spec: ProbeSpec, before: seq<Arrival>, arrival: Arrival,
                              after: seq<Arrival>, message: IcmpArrival)
    requires spec.probeId <= 0xFFFF && spec.flow.icmpIdentifier <= 0xFFFF && BuildProbe(endpoint, spec).Success?
    requires arrival.socket.IcmpSocket? && UnwrapIcmp(arrival.packet, Some(arrival.sender)) == Success(message)
    requires |message.icmp| >= 8 && message.icmp[0] in {3, 11, 12}
    requires var probe := BuildProbe(endpoint, spec).value; QuotesProbe(probe, Shown(probe, message.icmp[8..]))
    requires !Answered(endpoint, spec, before)
    ensures var probe, reply := BuildProbe(endpoint, spec).value, Outcome(endpoint, spec, before + [arrival] + after);
            var shown, protocol := Shown(probe, message.icmp[8..]), spec.flow.protocol;
            if Recognisable(protocol, probe, shown)
            then && ReportsError(reply, protocol, message, shown[8], CarriesSession(protocol, probe, shown))
                 && forall m :: m in reply.mutations <==> ShowsRewrite(protocol, probe, shown, m)
            else reply == Outcome(endpoint, spec, before + after)
  {
    hide UnwrapIcmp, ParseIcmpMessage, BuildProbe, AttributedTo, Mutations, Answered, Shown, Recognisable, ExtensionsOf,
         ReplyFrom, ReportsError, ErrorFields, CarriesSession, Outcome, ShowsRewrite;
    QuotationIsAttributed(endpoint, spec, message);
    AcceptsAttributed(endpoint, spec, arrival, message);
    if Accepts(endpoint, spec, arrival) {
      AcceptedIsReported(endpoint, spec, before, arrival, after);
      ErrorReply(endpoint, spec, Decode(endpoint, arrival).value, message,
                 Shown(BuildProbe(endpoint, spec).value, message.icmp[8..])[8]);
    } else {
      ForeignOrLateArrivalIgnored(endpoint, spec, before, arrival, after);
    }
  }

  lemma AcceptsAttributed(endpoint: Endpoint, spec: ProbeSpec, arrival: Arrival, message: IcmpArrival)
    requires arrival.socket.IcmpSocket? && UnwrapIcmp(arrival.packet, Some(arrival.sender)) == Success(message)
    ensures Decode(endpoint, arrival) == ParseIcmpMessage(message, endpoint.session)
    ensures Accepts(endpoint, spec, arrival)
       <==> AttributedTo(endpoint, spec, ParseIcmpMessage(message, endpoint.session))
    ensures Accepts(endpoint, spec, arrival) ==> Decode(endpoint, arrival).Success?
  {
    hide ParseIcmpMessage, UnwrapIcmp, MatchesFlow;
  }

  /** A router's honest error for a probe, when nothing accepted came before it, is that probe's
      observation, field by field: answered by that router, terminal exactly for an unreachable, without any
      rewrite, with the extension it carries, no matter what else arrives. The one exception is a quotation cut
      inside the tag and followed by octets that spell another tag. */
  lemma HonestErrorIsReported(endpoint: Endpoint, spec: ProbeSpec, before: seq<Arrival>, arrival: Arrival,
                              after: seq<Arrival>, router: Ipv4Address, ttl: nat, identification: nat,
                              icmp: bytes, quotation: bytes)
    requires 1 <= ttl <= 255 && 20 + |icmp| <= 0xFFFF
    requires spec.probeId <= 0xFFFF && spec.flow.icmpIdentifier <= 0xFFFF && BuildProbe(endpoint, spec).Success?
    requires HonestError(icmp, BuildProbe(endpoint, spec).value, quotation)
    requires arrival.socket.IcmpSocket?
    requires arrival.packet
          == Ipv4Header(router, endpoint.source, PROTO_ICMP, ttl, identification, |icmp|).value + icmp
    requires !Answered(endpoint, spec, before)
    ensures var probe := BuildProbe(endpoint, spec).value;
            && QuotesProbe(probe, Shown(probe, icmp[8..]))
            && (SpellsForeignTag(spec.flow.protocol, probe, Shown(probe, icmp[8..])) ==>
                  Outcome(endpoint, spec, before + [arrival] + after) == Outcome(endpoint, spec, before + after))
    ensures var probe, reply := BuildProbe(endpoint, spec).value, Outcome(endpoint, spec, before + [arrival] + after);
            !SpellsForeignTag(spec.flow.protocol, probe, Shown(probe, icmp[8..])) ==>
              && ReportsError(reply, spec.flow.protocol, IcmpArrival(icmp, router, Some(ttl)), quotation[8],
                              CarriesSession(spec.flow.protocol, probe, Shown(probe, icmp[8..])))
              && reply.mutations == []
  {
    hide Ipv4Header, UnwrapIcmp, ParseIcmpMessage, BuildProbe, AttributedTo, Mutations, Answered, Shown, QuotesProbe,
         SpellsForeignTag, ExtensionsOf, ReplyFrom, ReportsError, ErrorFields, CarriesSession, Outcome;
    WrappedIcmp(router, endpoint, ttl, identification, icmp, arrival.sender);
    var message := IcmpArrival(icmp, router, Some(ttl));
    HonestErrorRoundTrip(endpoint, spec, message, quotation);
    AcceptsAttributed(endpoint, spec, arrival, message);
    if Accepts(endpoint, spec, arrival) {
      AcceptedIsReported(endpoint, spec, before, arrival, after);
      ErrorReply(endpoint, spec, Decode(endpoint, arrival).value, message, quotation[8]);
    } else {
      ForeignOrLateArrivalIgnored(endpoint, spec, before, arrival, after);
    }
  }

  /** The first honest SYN-ACK or RST-ACK for a probe is its observation: the destination, terminal, with its
      flags, whatever else arrives; every other TCP segment changes nothing. */
  lemma TcpAnswerIsReported(endpoint: Endpoint, spec: ProbeSpec, before: seq<Arrival>, arrival: Arrival,
                            after: seq<Arrival>, outer: ParsedIpv4)
    requires spec.probeId <= 0xFFFF && arrival.socket.TcpSocket? && ParseIpv4(arrival.packet) == Success(outer)
    requires !Answered(endpoint, spec, before)
    ensures Outcome(endpoint, spec, before + [arrival] + after)
         == if spec.flow.protocol.Tcp? && outer.protocol == PROTO_TCP && HonestTcpAnswer(endpoint, spec, outer.payload)
            then Reply(Destination, Some(outer.source), Some(outer.ttl), None, None, None, true, None, [], TcpAck,
                       Some(ReadU16(outer.payload, 12) % 0x200))
            else Outcome(endpoint, spec, before + after)
  {
    hide ParseTcpSegment, AttributedTo, HonestTcpAnswer, Answered, Outcome;
    TcpAnswerExactly(endpoint, spec, outer);
    if Accepts(endpoint, spec, arrival) {
      AcceptedIsReported(endpoint, spec, before, arrival, after);
      AcceptedReply(endpoint, spec, arrival);
    } else {
      ForeignOrLateArrivalIgnored(endpoint, spec, before, arrival, after);
    }
  }

  /** So for Echo: the first reply with the magic, the session and the id is the observation of its probe. */
  lemma EchoAnswerIsReported(endpoint: Endpoint, spec: ProbeSpec, before: seq<Arrival>, arrival: Arrival,
                             after: seq<Arrival>, message: IcmpArrival)
    requires arrival.socket.IcmpSocket? && UnwrapIcmp(arrival.packet, Some(arrival.sender)) == Success(message)
    requires |message.icmp| >= 8 && message.icmp[0] == 0 && !Answered(endpoint, spec, before)
    ensures Outcome(endpoint, spec, before + [arrival] + after)
         == if spec.flow.protocol.Icmp? && |message.icmp| >= 20 && message.icmp[8..12] == TAG_MAGIC
               && ReadU32(message.icmp, 12) == Low32(endpoint.session) && ReadU16(message.icmp, 16) == spec.probeId
            then Reply(Destination, Some(message.responder), message.replyTtl, Some(0), Some(message.icmp[1]), None,
                       true,
                       None, [], PayloadTag, None)
            else Outcome(endpoint, spec, before + after)
  {
    hide ParseIcmpMessage, AttributedTo, Answered, Outcome, UnwrapIcmp, ReadU32, ReadU16;
    EchoAnswerExactly(endpoint, spec, message);
    if Accepts(endpoint, spec, arrival) {
      AcceptedIsReported(endpoint, spec, before, arrival, after);
      AcceptedReply(endpoint, spec, arrival);
    } else {
      ForeignOrLateArrivalIgnored(endpoint, spec, before, arrival, after);
    }
  }
}
