/** From the log and the probed regions to classified, certified segments. */
module Segments {
  import opened Bytes
  import opened Evidence
  import opened Model
  import opened Regions
  import opened Sequences
  import opened Settings
  import opened Stats
  import opened Wrappers

  datatype SegmentType = Direct | MultipathFlow | Opaque | Mutable | Intermittent | SilentTail | Unstable | Unknown

  datatype Basis = FlowVariantCoverage | FixedFlowRepeatability | RapidSweepObservation | SilentTailObservation

  datatype Certificate = Certificate(sampleCount: nat, minDetectable: real, missBound: real, requestedMiss: real,
                                     certified: bool, basis: Basis, requiredSamples: nat)

  /** The answers of one sample along a window; a silent TTL shows no address. */
  type Signature = seq<(nat, Option<Ipv4Address>)>

  type Outcomes = seq<(Signature, nat)>

  datatype Segment = Segment(kind: SegmentType, first: nat, last: nat,
                             ingress: Option<Ipv4Address>, egress: Option<Ipv4Address>,
                             fixedOutcomes: Outcomes, variedOutcomes: Outcomes,
                             stability: Option<real>, responseRate: Option<real>,
                             certificate: Certificate, reasons: seq<Reason>, mplsNamed: bool,
                             branches: seq<(nat, seq<(Ipv4Address, nat)>)>)

  // ---------- Hops ----------

  datatype Hop = Hop(ttl: nat, primary: Option<Ipv4Address>, responders: seq<(Ipv4Address, nat)>,
                     sent: nat, answered: nat, lossRate: real, mutations: set<Mutation>)

  function Addresses(samples: Log): (r: seq<Ipv4Address>)
    ensures forall a :: a in r <==> exists o :: o in samples && o.reply.responder == Some(a)
  {
    if samples == [] then []
    else
      var last := |samples| - 1;
      Addresses(samples[..last])
      + (if samples[last].reply.responder.Some? then [samples[last].reply.responder.value] else [])
  }

  function Top<T(==,!new)>(xs: seq<T>): Option<T> {
    if MostCommon(xs) == [] then None else Some(MostCommon(xs)[0].0)
  }

  function SummarizeHop(log: Log, ttl: nat, main: FlowKey): Hop {
    var samples := Filter(log, (o: Observation) => o.spec.ttl == ttl && o.spec.flow == main);
    var addresses := Addresses(samples);
    var answered := CountIf(samples, (o: Observation) => o.Answered());
    Hop(ttl, Top(addresses), MostCommon(addresses), |samples|, answered,
        if samples == [] then 1.0 else (|samples| - answered) as real / |samples| as real,
        set o, m | o in samples && m in o.reply.mutations :: m)
  }

  method SummarizeHops(log: Log, limit: nat, main: FlowKey) returns (hops: seq<Hop>)
    ensures HopsOf(log, limit, main, hops)
  {
    hide SummarizeHop;
    hops := [];
    var ttl := 1;
    while ttl <= limit
      invariant 1 <= ttl <= limit + 1 && |hops| == ttl - 1
      invariant forall k :: 0 <= k < |hops| ==> hops[k] == SummarizeHop(log, k + 1, main)
    {
      hops := hops + [SummarizeHop(log, ttl, main)];
      ttl := ttl + 1;
    }
  }

  ghost predicate HopsOf(log: Log, limit: nat, main: FlowKey, hops: seq<Hop>) {
    |hops| == limit && forall k :: 0 <= k < |hops| ==> hops[k] == SummarizeHop(log, k + 1, main)
  }

  ghost predicate AnsweredOnMain(log: Log, ttl: nat, main: FlowKey) {
    exists o :: o in log && o.spec.ttl == ttl && o.spec.flow == main && o.Answered()
  }

  /** A hop names a primary responder exactly when the main flow was answered there. */
  lemma PrimaryIffAnswered(log: Log, ttl: nat, main: FlowKey)
    requires LegalLog(log)
    ensures SummarizeHop(log, ttl, main).primary.Some? <==> AnsweredOnMain(log, ttl, main)
  {
    var samples := Filter(log, (o: Observation) => o.spec.ttl == ttl && o.spec.flow == main);
    var addresses := Addresses(samples);
    MostCommonIsModal(addresses);
    forall o | o in samples ensures o.reply.responder.Some? <==> o.Answered() {
      assert o in log;
      assert o.reply.Legal();
    }
    if addresses != [] {
      assert addresses[0] in addresses;
      var o :| o in samples && o.reply.responder == Some(addresses[0]);
      assert o in log && o.Answered();
    }
    forall o | o in log && o.spec.ttl == ttl && o.spec.flow == main && o.Answered() ensures addresses != [] {
      assert o in samples && o.reply.responder == Some(o.reply.responder.value);
      assert o.reply.responder.value in addresses;
    }
  }

  function NearestVisible(hops: seq<Hop>, ttl: nat, down: bool): Option<Ipv4Address> {
    if hops == [] then None
    else
      var start := if ttl < 1 then 1 else if ttl > |hops| then |hops| else ttl;
      if down then VisibleDown(hops, start) else VisibleUp(hops, start)
  }

  function VisibleDown(hops: seq<Hop>, ttl: nat): Option<Ipv4Address>
    requires ttl <= |hops|
  {
    if ttl == 0 then None
    else if hops[ttl - 1].primary.Some? then hops[ttl - 1].primary
    else VisibleDown(hops, ttl - 1)
  }

  function VisibleUp(hops: seq<Hop>, ttl: nat): Option<Ipv4Address>
    requires 1 <= ttl
    decreases |hops| + 1 - ttl
  {
    if ttl > |hops| then None
    else if hops[ttl - 1].primary.Some? then hops[ttl - 1].primary
    else VisibleUp(hops, ttl + 1)
  }

  /** No hop of the list at positions from..to - 1 is visible. */
  ghost predicate NoneVisible(hops: seq<Hop>, from: int, to: int) {
    forall i :: from <= i < to && 0 <= i < |hops| ==> hops[i].primary.None?
  }

  /** The primary of the nearest visible hop at or below a TTL of the list, and none exactly when no hop is
      visible there. */
  ghost predicate NearestBelow(hops: seq<Hop>, ttl: nat, ingress: Option<Ipv4Address>) {
    if ingress.None? then NoneVisible(hops, 0, ttl)
    else exists i :: 0 <= i < ttl <= |hops| && hops[i].primary == ingress && NoneVisible(hops, i + 1, ttl)
  }

  /** The primary of the nearest visible hop at or above it. */
  ghost predicate NearestAbove(hops: seq<Hop>, ttl: nat, egress: Option<Ipv4Address>) {
    if egress.None? then NoneVisible(hops, ttl - 1, |hops|)
    else exists i :: 0 <= i && ttl <= i + 1 <= |hops| && hops[i].primary == egress && NoneVisible(hops, ttl - 1, i)
  }

  lemma NearestIsNearest(hops: seq<Hop>, ttl: nat)
    requires 1 <= ttl <= |hops|
    ensures NearestBelow(hops, ttl, NearestVisible(hops, ttl, true))
    ensures NearestAbove(hops, ttl, NearestVisible(hops, ttl, false))
  {
    var down := DownIsNearest(hops, ttl);
    var up := UpIsNearest(hops, ttl);
  }

  lemma {:induction false} DownIsNearest(hops: seq<Hop>, ttl: nat) returns (i: int)
    requires ttl <= |hops|
    ensures -1 <= i < ttl && NoneVisible(hops, i + 1, ttl)
    ensures if i < 0 then VisibleDown(hops, ttl).None?
            else hops[i].primary.Some? && hops[i].primary == VisibleDown(hops, ttl)
  {
    if ttl == 0 || hops[ttl - 1].primary.Some? {
      i := ttl - 1;
    } else {
      i := DownIsNearest(hops, ttl - 1);
    }
  }

  lemma {:induction false} UpIsNearest(hops: seq<Hop>, ttl: nat) returns (i: nat)
    requires 1 <= ttl <= |hops| + 1
    ensures ttl - 1 <= i <= |hops| && NoneVisible(hops, ttl - 1, i)
    ensures if i == |hops| then VisibleUp(hops, ttl).None?
            else hops[i].primary.Some? && hops[i].primary == VisibleUp(hops, ttl)
    decreases |hops| + 1 - ttl
  {
    if ttl > |hops| || hops[ttl - 1].primary.Some? {
      i := ttl - 1;
    } else {
      i := UpIsNearest(hops, ttl + 1);
    }
  }

  // ---------- Evidence inside a window ----------

  function InWindow(log: Log, ttls: seq<nat>, varied: bool): Log {
    Filter(log, (o: Observation) => o.spec.ttl in ttls && Varied(o.spec) == varied)
  }

  function AtTtl(samples: Log, ttl: nat): Log {
    Filter(samples, (o: Observation) => o.spec.ttl == ttl)
  }

  /** TTLs probed without a single answer. */
  function AlwaysMissing(ttls: seq<nat>, samples: Log): seq<nat> {
    Filter(ttls, (t: nat) => AtTtl(samples, t) != [] && !AnyAnswered(AtTtl(samples, t)))
  }

  predicate ResponderVariation(ttls: seq<nat>, samples: Log) {
    exists t :: t in ttls && |Responders(AtTtl(samples, t))| > 1
  }

  predicate IntermittentSomewhere(ttls: seq<nat>, samples: Log) {
    exists t :: t in ttls && AnyAnswered(AtTtl(samples, t)) && AnySilent(AtTtl(samples, t))
  }

  /** The address a sample shows at a TTL: its last probe there decides. */
  function ShownAt(samples: Log, id: nat, ttl: nat): Option<Ipv4Address> {
    if samples == [] then None
    else
      var last := samples[|samples| - 1];
      if last.spec.sampleId == id && last.spec.ttl == ttl then last.reply.responder
      else ShownAt(samples[..|samples| - 1], id, ttl)
  }

  function SignatureOf(samples: Log, id: nat, ttls: seq<nat>): Signature {
    seq(|ttls|, k requires 0 <= k < |ttls| => (ttls[k], ShownAt(samples, id, ttls[k])))
  }

  predicate CoversWindow(samples: Log, id: nat, ttls: seq<nat>) {
    forall t :: t in ttls ==> exists o :: o in samples && o.spec.sampleId == id && o.spec.ttl == t
  }

  function SampleIds(samples: Log): (ids: seq<nat>)
    ensures forall id :: id in ids <==> exists o :: o in samples && o.spec.sampleId == id
  {
    var raw: seq<nat> := seq(|samples|, k requires 0 <= k < |samples| => samples[k].spec.sampleId);
    assert forall k :: 0 <= k < |raw| ==> raw[k] == samples[k].spec.sampleId;
    Distinct<nat>(raw)
  }

  /** The samples that cover the window, in order of appearance. */
  function CompleteIds(samples: Log, ttls: seq<nat>): seq<nat> {
    Filter(SampleIds(samples), (id: nat) => CoversWindow(samples, id, ttls))
  }

  lemma CompleteIdsDiffer(samples: Log, ttls: seq<nat>)
    ensures var ids := CompleteIds(samples, ttls);
            forall i, j :: 0 <= i < j < |ids| ==> ids[i] != ids[j]
  {
    FilterKeepsDistinct<nat>(SampleIds(samples), (id: nat) => CoversWindow(samples, id, ttls));
  }

  function SampleSignatures(samples: Log, ttls: seq<nat>): (r: seq<Signature>)
    ensures |r| == |CompleteIds(samples, ttls)|
  {
    var ids := CompleteIds(samples, ttls);
    seq(|ids|, k requires 0 <= k < |ids| => SignatureOf(samples, ids[k], ttls))
  }

  /** The signatures count exactly the complete samples that adaptive sampling counts. */
  lemma SignaturesCountCompleteSamples(log: Log, ttls: seq<nat>, varied: bool)
    requires ttls != []
    ensures |SampleSignatures(InWindow(log, ttls, varied), ttls)|
         == |CompleteSamples(PlanOf(log), Elements(ttls), varied)|
  {
    var samples := InWindow(log, ttls, varied);
    var ids := CompleteIds(samples, ttls);
    CompleteIdsDiffer(samples, ttls);
    NoRepeatCount(ids);
    forall id ensures id in Elements(ids) <==> id in CompleteSamples(PlanOf(log), Elements(ttls), varied) {
      CompleteIffCovered(log, ttls, varied, id);
    }
    assert Elements(ids) == CompleteSamples(PlanOf(log), Elements(ttls), varied);
  }

  lemma CompleteIffCovered(log: Log, ttls: seq<nat>, varied: bool, id: nat)
    requires ttls != []
    ensures id in CompleteIds(InWindow(log, ttls, varied), ttls)
       <==> id in CompleteSamples(PlanOf(log), Elements(ttls), varied)
  {
    var samples, plan := InWindow(log, ttls, varied), PlanOf(log);
    assert ttls[0] in Elements(ttls);
    CompleteIffTtls(plan, Elements(ttls), varied, id);
    if CoversWindow(samples, id, ttls) {
      assert ttls[0] in ttls;
    }
    forall t | t in ttls
      ensures (exists o :: o in samples && o.spec.sampleId == id && o.spec.ttl == t) <==> t in TtlsOf(plan, varied, id)
    {
      if t in TtlsOf(plan, varied, id) {
        var i :| 0 <= i < |plan| && Varied(plan[i]) == varied && plan[i].sampleId == id && plan[i].ttl == t;
        assert log[i] in samples;
      }
      if exists o :: o in samples && o.spec.sampleId == id && o.spec.ttl == t {
        var o :| o in samples && o.spec.sampleId == id && o.spec.ttl == t;
        var i :| 0 <= i < |log| && log[i] == o;
        assert plan[i].ttl == t;
      }
    }
    assert forall t :: t in Elements(ttls) <==> t in ttls;
  }

  // ---------- Classification ----------

  predicate VisibleBoundaries(region: Region, hops: seq<Hop>) {
    && 1 <= region.first <= |hops| && 1 <= region.last <= |hops|
    && hops[region.first - 1].primary.Some? && hops[region.last - 1].primary.Some?
  }

  /** Everything the verdict on a region depends on. */
  datatype Findings = Findings(fixedVariation: bool, variedVariation: bool, severalSignatures: bool,
                               alwaysMissing: bool, boundariesVisible: bool, mutated: bool,
                               intermittent: bool, agreed: bool)

  function Verdict(region: Region, f: Findings): (SegmentType, Reason) {
    var visible := f.alwaysMissing && f.boundariesVisible;
    if region.family.Temporal? && f.fixedVariation then (Unstable, AddressesOverTime)
    else if region.family.Multipath? && f.variedVariation then (MultipathFlow, SeveralSignatures)
    else if region.family.VisibilitySilent? && visible then (Opaque, UnobservableBetweenBoundaries)
    else if region.family.HeaderMutation? && f.mutated then (Mutable, ProfileChanges)
    else if VisibilityFamily(region.family) && (f.intermittent || f.severalSignatures || f.alwaysMissing)
    then (Intermittent, VisibilityChanged)
    else if f.fixedVariation then (Unstable, AddressesOverTime)
    else if f.variedVariation then (MultipathFlow, SeveralSignatures)
    else if visible then (Opaque, UnobservableBetweenBoundaries)
    else if MutationBoundary in region.reasons && f.mutated then (Mutable, ProfileChanges)
    else if f.intermittent || f.severalSignatures then (Intermittent, VisibilityChanged)
    else if f.agreed then (Direct, FlowsAgreed)
    else (Unknown, NoStableClass)
  }

  function FindingsOf(region: Region, log: Log, hops: seq<Hop>): Findings {
    var ttls := region.probeTtls;
    var fixed, varied := InWindow(log, ttls, false), InWindow(log, ttls, true);
    var fixedSignatures, variedSignatures :=
      Elements(SampleSignatures(fixed, ttls)), Elements(SampleSignatures(varied, ttls));
    Findings(ResponderVariation(ttls, fixed), ResponderVariation(ttls, varied), |variedSignatures| > 1,
             AlwaysMissing(ttls, fixed + varied) != [], VisibleBoundaries(region, hops),
             exists o :: o in fixed + varied && o.reply.mutations != [],
             IntermittentSomewhere(ttls, fixed + varied),
             && fixed != [] && varied != [] && !AnySilent(fixed + varied)
             && fixedSignatures != {} && fixedSignatures == variedSignatures)
  }

  /** CAP certifies cross-flow coverage; a fixed-flow region is only repeatability evidence. */
  function CertificateOf(region: Region, log: Log, config: TraceConfig): Certificate
    requires config.Valid()
  {
    var fixed := |SampleSignatures(InWindow(log, region.probeTtls, false), region.probeTtls)|;
    var varied := |SampleSignatures(InWindow(log, region.probeTtls, true), region.probeTtls)|;
    var count := if region.variantCoverage then varied else fixed;
    var bound := MissProbabilityBound(config.minDetectable, count).value;
    if region.variantCoverage then
      Certificate(count, config.minDetectable, bound, config.missProbability,
                  fixed >= config.temporalSamples && count >= config.Required() && bound <= config.missProbability,
                  FlowVariantCoverage, config.Required())
    else
      Certificate(count, config.minDetectable, bound, config.missProbability,
                  count >= config.temporalSamples, FixedFlowRepeatability, config.temporalSamples)
  }

  function ModalAnswers(ttls: seq<nat>, samples: Log): nat {
    if ttls == [] then 0
    else
      var ranked := MostCommon(Addresses(AtTtl(samples, ttls[0])));
      (if ranked == [] then 0 else ranked[0].1) + ModalAnswers(ttls[1..], samples)
  }

  function AnswersWithAddress(ttls: seq<nat>, samples: Log): nat {
    if ttls == [] then 0 else |Addresses(AtTtl(samples, ttls[0]))| + AnswersWithAddress(ttls[1..], samples)
  }

  function BranchesOf(ttls: seq<nat>, varied: Log): seq<(nat, seq<(Ipv4Address, nat)>)> {
    if ttls == [] then []
    else
      var ranked := MostCommon(Addresses(AtTtl(varied, ttls[0])));
      (if |ranked| > 1 then [(ttls[0], ranked)] else []) + BranchesOf(ttls[1..], varied)
  }

  predicate CarriesMpls(samples: Log) {
    exists o :: o in samples && o.reply.extensions.Some? && o.reply.extensions.value.mplsLabels != []
  }

  function Ratio(part: nat, whole: nat): Option<real> {
    if whole == 0 then None else Some(part as real / whole as real)
  }

  function Classify(region: Region, log: Log, hops: seq<Hop>, config: TraceConfig): Segment
    requires config.Valid()
  {
    var ttls := region.probeTtls;
    var fixed, varied := InWindow(log, ttls, false), InWindow(log, ttls, true);
    var (kind, reason) := Verdict(region, FindingsOf(region, log, hops));
    var named := CarriesMpls(fixed + varied);
    Segment(kind, region.first, region.last,
            NearestVisible(hops, region.first, true), NearestVisible(hops, region.last, false),
            MostCommon(SampleSignatures(fixed, ttls)), MostCommon(SampleSignatures(varied, ttls)),
            Ratio(ModalAnswers(ttls, fixed), AnswersWithAddress(ttls, fixed)),
            Ratio(CountIf(fixed, (o: Observation) => o.Answered()), |fixed|),
            CertificateOf(region, log, config),
            Distinct(region.reasons + [reason] + (if named then [MplsStackCarried] else [])),
            named, if kind.MultipathFlow? then BranchesOf(ttls, varied) else [])
  }

  lemma AddressesAreResponders(samples: Log)
    ensures Elements(Addresses(samples)) == Responders(samples)
  {
    forall a ensures a in Elements(Addresses(samples)) <==> a in Responders(samples) {
      assert a in Elements(Addresses(samples)) <==> a in Addresses(samples);
    }
  }

  /** The most frequent responder gave all the answers exactly when there is only one. */
  lemma ModalIsAll(samples: Log)
    ensures var ranked := MostCommon(Addresses(samples));
            var modal := if ranked == [] then 0 else ranked[0].1;
            && modal <= |Addresses(samples)|
            && (modal == |Addresses(samples)| <==> |Responders(samples)| <= 1)
  {
    hide MostCommon, Addresses, Responders;
    var addresses := Addresses(samples);
    MostCommonIsModal(addresses);
    AddressesAreResponders(samples);
    if addresses == [] {
      assert Responders(samples) == {};
    } else {
      OnlyValue(addresses, MostCommon(addresses)[0].0);
      OneResponder(addresses, MostCommon(addresses)[0].0);
    }
  }

  lemma OneResponder(addresses: seq<Ipv4Address>, x: Ipv4Address)
    requires x in addresses
    ensures |Elements(addresses)| <= 1 <==> forall i :: 0 <= i < |addresses| ==> addresses[i] == x
  {
    TwoAddresses(Elements(addresses));
    assert x in Elements(addresses);
    if |Elements(addresses)| <= 1 {
      forall i | 0 <= i < |addresses| ensures addresses[i] == x {
        assert addresses[i] in Elements(addresses);
      }
    } else {
      var a, b :| a in Elements(addresses) && b in Elements(addresses) && a != b;
      var i :| 0 <= i < |addresses| && addresses[i] == if a == x then b else a;
    }
  }

  ghost predicate Steady(ttls: seq<nat>, samples: Log) {
    forall t :: t in ttls ==> |Responders(AtTtl(samples, t))| <= 1
  }

  lemma {:induction false} ModalSums(ttls: seq<nat>, samples: Log)
    ensures ModalAnswers(ttls, samples) <= AnswersWithAddress(ttls, samples)
    ensures ModalAnswers(ttls, samples) == AnswersWithAddress(ttls, samples) <==> Steady(ttls, samples)
  {
    if ttls == [] {
    } else {
      hide MostCommon, Addresses, AtTtl, Responders;
      ModalSums(ttls[1..], samples);
      ModalIsAll(AtTtl(samples, ttls[0]));
      assert Steady(ttls, samples) <==> |Responders(AtTtl(samples, ttls[0]))| <= 1 && Steady(ttls[1..], samples) by {
        assert forall t :: t in ttls <==> t == ttls[0] || t in ttls[1..];
      }
    }
  }

  /** Stability is reported as 1 exactly when the fixed flow was answered and no probed TTL showed it
      two responders. */
  lemma StableMeansOneResponder(region: Region, log: Log, hops: seq<Hop>, config: TraceConfig)
    requires config.Valid()
    ensures var fixed := InWindow(log, region.probeTtls, false);
            Classify(region, log, hops, config).stability == Some(1.0)
            <==> AnswersWithAddress(region.probeTtls, fixed) > 0 && !ResponderVariation(region.probeTtls, fixed)
  {
    var fixed := InWindow(log, region.probeTtls, false);
    ModalSums(region.probeTtls, fixed);
    assert Steady(region.probeTtls, fixed) <==> !ResponderVariation(region.probeTtls, fixed);
    hide Verdict, FindingsOf, CertificateOf, InWindow, ModalAnswers, AnswersWithAddress, MostCommon, Steady,
         ResponderVariation;
    RatioIsOne(ModalAnswers(region.probeTtls, fixed), AnswersWithAddress(region.probeTtls, fixed));
  }

  lemma RatioIsOne(part: nat, whole: nat)
    ensures Ratio(part, whole) == Some(1.0) <==> whole > 0 && part == whole
  {
    if whole > 0 {
      SameQuotient(part as real, whole as real);
    }
  }

  lemma SameQuotient(x: real, y: real)
    requires y > 0.0
    ensures x / y == 1.0 <==> x == y
  {
    assert x / y * y == x;
  }

  /** The branches are exactly the probed TTLs at which flow variants met several responders. */
  lemma {:induction false} BranchesAreExact(ttls: seq<nat>, varied: Log, t: nat)
    ensures (exists b :: b in BranchesOf(ttls, varied) && b.0 == t) <==> t in ttls && |Responders(AtTtl(varied, t))| > 1
  {
    if ttls == [] {
    } else {
      hide MostCommon, Addresses, AtTtl, Responders;
      BranchesAreExact(ttls[1..], varied, t);
      MostCommonCount(Addresses(AtTtl(varied, ttls[0])));
      AddressesAreResponders(AtTtl(varied, ttls[0]));
      assert t in ttls <==> t == ttls[0] || t in ttls[1..];
    }
  }

  /** OPAQUE is always bounded: some TTL strictly inside was probed and never answered on any
      flow, while both ends were answered on the main flow. */
  ghost predicate OpaqueBounded(segment: Segment, log: Log, main: FlowKey) {
    && AnsweredOnMain(log, segment.first, main) && AnsweredOnMain(log, segment.last, main)
    && exists t :: segment.first < t < segment.last && ProbedInVain(log, t)
  }

  ghost predicate ProbedInVain(log: Log, ttl: nat) {
    && (exists o :: o in log && o.spec.ttl == ttl)
    && forall o :: o in log && o.spec.ttl == ttl ==> !o.Answered()
  }

  lemma OpaqueIsBounded(region: Region, log: Log, main: FlowKey, hops: seq<Hop>, limit: nat, n: nat,
                        config: TraceConfig)
    requires config.Valid() && Geometry(region, limit) && LegalLog(log) && HopsOf(log, n, main, hops)
    requires Classify(region, log, hops, config).kind.Opaque?
    ensures OpaqueBounded(Classify(region, log, hops, config), log, main)
  {
    hide SummarizeHop, CertificateOf, AlwaysMissing, ModalAnswers, AnswersWithAddress, NearestVisible, MostCommon;
    var samples := InWindow(log, region.probeTtls, false) + InWindow(log, region.probeTtls, true);
    PrimaryIffAnswered(log, region.first, main);
    PrimaryIffAnswered(log, region.last, main);
    assert FindingsOf(region, log, hops).alwaysMissing && FindingsOf(region, log, hops).boundariesVisible;
    var t := AlwaysMissing(region.probeTtls, samples)[0];
    assert t in AlwaysMissing(region.probeTtls, samples);
    MissingIsProbedInVain(region, log, t);
    assert region.first <= t <= region.last;
  }

  lemma MissingIsProbedInVain(region: Region, log: Log, t: nat)
    requires t in AlwaysMissing(region.probeTtls,
                                InWindow(log, region.probeTtls, false) + InWindow(log, region.probeTtls, true))
    ensures t in region.probeTtls && ProbedInVain(log, t)
  {
    var samples := InWindow(log, region.probeTtls, false) + InWindow(log, region.probeTtls, true);
    var here := AtTtl(samples, t);
    assert here[0] in here && here[0] in samples;
    forall o | o in log && o.spec.ttl == t ensures !o.Answered() {
      assert o in samples && o in here;
    }
  }

  /** UNSTABLE always has, at a probed TTL, two main-flow answers from different addresses. */
  ghost predicate TwoMainResponders(log: Log, ttl: nat, main: FlowKey) {
    exists a, b :: && a in log && b in log && a.spec.ttl == ttl && b.spec.ttl == ttl
                   && a.spec.flow == main && b.spec.flow == main
                   && a.reply.responder.Some? && b.reply.responder.Some?
                   && a.reply.responder != b.reply.responder
  }

  /** Variant 0 is the main flow. */
  ghost predicate FixedIsMain(log: Log, main: FlowKey) {
    && main.variant == 0
    && forall o :: o in log ==> (!Varied(o.spec) <==> o.spec.flow == main)
  }

  lemma TwoAddresses(s: set<Ipv4Address>)
    ensures |s| > 1 <==> exists a, b :: a in s && b in s && a != b
  {
    if |s| > 1 {
      var a :| a in s;
      assert |s - {a}| > 0;
      var b :| b in s - {a};
    }
    if exists a, b :: a in s && b in s && a != b {
      var a, b :| a in s && b in s && a != b;
      SubsetCount({a, b}, s);
    }
  }

  lemma VariationIsTwoResponders(log: Log, ttls: seq<nat>, main: FlowKey, t: nat)
    requires FixedIsMain(log, main) && t in ttls
    ensures |Responders(AtTtl(InWindow(log, ttls, false), t))| > 1 <==> TwoMainResponders(log, t, main)
  {
    var here := AtTtl(InWindow(log, ttls, false), t);
    TwoAddresses(Responders(here));
    if TwoMainResponders(log, t, main) {
      var a, b :| && a in log && b in log && a.spec.ttl == t && b.spec.ttl == t
                  && a.spec.flow == main && b.spec.flow == main
                  && a.reply.responder.Some? && b.reply.responder.Some?
                  && a.reply.responder != b.reply.responder;
      assert a in here && b in here;
      assert a.reply.responder.value in Responders(here) && b.reply.responder.value in Responders(here);
    }
    if exists x, y :: x in Responders(here) && y in Responders(here) && x != y {
      var x, y :| x in Responders(here) && y in Responders(here) && x != y;
      var a :| a in here && a.reply.responder == Some(x);
      var b :| b in here && b.reply.responder == Some(y);
      assert a in log && b in log;
    }
  }

  lemma {:induction false} AnswersSomewhere(ttls: seq<nat>, samples: Log)
    ensures AnswersWithAddress(ttls, samples) > 0 <==> exists t :: t in ttls && Addresses(AtTtl(samples, t)) != []
  {
    if ttls == [] {
    } else {
      hide Addresses, AtTtl;
      AnswersSomewhere(ttls[1..], samples);
      assert forall t :: t in ttls <==> t == ttls[0] || t in ttls[1..];
    }
  }

  lemma AddressesOnMain(log: Log, ttls: seq<nat>, main: FlowKey, t: nat)
    requires FixedIsMain(log, main) && LegalLog(log) && t in ttls
    ensures Addresses(AtTtl(InWindow(log, ttls, false), t)) != [] <==> AnsweredOnMain(log, t, main)
  {
    hide Addresses, InWindow, AtTtl, FixedIsMain, LegalLog;
    var here := AtTtl(InWindow(log, ttls, false), t);
    FixedHere(log, ttls, main, t);
    AddressesIffAnswered(here);
    if AnsweredOnMain(log, t, main) {
      var o :| o in log && o.spec.ttl == t && o.spec.flow == main && o.Answered();
      assert o in here;
    }
  }

  lemma FixedHere(log: Log, ttls: seq<nat>, main: FlowKey, t: nat)
    requires FixedIsMain(log, main) && LegalLog(log) && t in ttls
    ensures forall o ::
              o in AtTtl(InWindow(log, ttls, false), t) <==> o in log && o.spec.ttl == t && o.spec.flow == main
    ensures forall o :: o in log ==> o.reply.Legal()
  {
  }

  lemma AddressesIffAnswered(samples: Log)
    requires forall o :: o in samples ==> o.reply.Legal()
    ensures Addresses(samples) != [] <==> exists o :: o in samples && o.Answered()
  {
    if Addresses(samples) != [] {
      assert Addresses(samples)[0] in Addresses(samples);
    }
    if exists o :: o in samples && o.Answered() {
      var o :| o in samples && o.Answered();
      assert o.reply.responder.value in Addresses(samples);
    }
  }

  /** In terms of the log: stability is 1 exactly when the main flow was answered at a probed TTL and
      by two responders at none. */
  lemma StableInTheLog(region: Region, log: Log, main: FlowKey, hops: seq<Hop>, config: TraceConfig)
    requires config.Valid() && FixedIsMain(log, main) && LegalLog(log)
    ensures Classify(region, log, hops, config).stability == Some(1.0)
            <==> SteadilyAnswered(log, region.probeTtls, main)
  {
    hide Classify, InWindow, AtTtl, Responders, Addresses, FixedIsMain, LegalLog, AnsweredOnMain, TwoMainResponders,
         AnswersWithAddress;
    var ttls := region.probeTtls;
    var fixed := InWindow(log, ttls, false);
    StableMeansOneResponder(region, log, hops, config);
    AnswersSomewhere(ttls, fixed);
    forall t | t in ttls
      ensures Addresses(AtTtl(fixed, t)) != [] <==> AnsweredOnMain(log, t, main)
      ensures |Responders(AtTtl(fixed, t))| > 1 <==> TwoMainResponders(log, t, main)
    {
      AddressesOnMain(log, ttls, main, t);
      VariationIsTwoResponders(log, ttls, main, t);
    }
  }

  ghost predicate SteadilyAnswered(log: Log, ttls: seq<nat>, main: FlowKey) {
    && (exists t :: t in ttls && AnsweredOnMain(log, t, main))
    && forall t :: t in ttls ==> !TwoMainResponders(log, t, main)
  }

  lemma UnstableIsSound(region: Region, log: Log, main: FlowKey, hops: seq<Hop>, config: TraceConfig)
    requires config.Valid() && FixedIsMain(log, main)
    requires Classify(region, log, hops, config).kind.Unstable?
    ensures exists t :: t in region.probeTtls && TwoMainResponders(log, t, main)
  {
    hide CertificateOf, ModalAnswers, AnswersWithAddress, NearestVisible, MostCommon, InWindow, AtTtl, Responders;
    assert FindingsOf(region, log, hops).fixedVariation;
    var fixed := InWindow(log, region.probeTtls, false);
    var t :| t in region.probeTtls && |Responders(AtTtl(fixed, t))| > 1;
    VariationIsTwoResponders(log, region.probeTtls, main, t);
  }

  /** MULTIPATH always has, at a probed TTL, answers from two addresses on flow variants. */
  ghost predicate TwoVariantResponders(log: Log, ttl: nat) {
    exists a, b :: && a in log && b in log && a.spec.ttl == ttl && b.spec.ttl == ttl
                   && Varied(a.spec) && Varied(b.spec)
                   && a.reply.responder.Some? && b.reply.responder.Some?
                   && a.reply.responder != b.reply.responder
  }

  lemma MultipathIsSound(region: Region, log: Log, hops: seq<Hop>, config: TraceConfig)
    requires config.Valid() && Classify(region, log, hops, config).kind.MultipathFlow?
    ensures exists t :: t in region.probeTtls && TwoVariantResponders(log, t)
  {
    hide CertificateOf, ModalAnswers, AnswersWithAddress, NearestVisible, MostCommon, InWindow, AtTtl, Responders;
    assert FindingsOf(region, log, hops).variedVariation;
    var varied := InWindow(log, region.probeTtls, true);
    var t :| t in region.probeTtls && |Responders(AtTtl(varied, t))| > 1;
    VariedIsTwoResponders(log, region.probeTtls, t);
  }

  lemma VariedIsTwoResponders(log: Log, ttls: seq<nat>, t: nat)
    requires |Responders(AtTtl(InWindow(log, ttls, true), t))| > 1
    ensures TwoVariantResponders(log, t)
  {
    var here := AtTtl(InWindow(log, ttls, true), t);
    TwoAddresses(Responders(here));
    var x, y :| x in Responders(here) && y in Responders(here) && x != y;
    var a :| a in here && a.reply.responder == Some(x);
    var b :| b in here && b.reply.responder == Some(y);
    assert a in log && b in log;
  }

  /** A temporal or global region holding such a TTL among its probed ones is UNSTABLE. */
  lemma UnstableIsComplete(region: Region, log: Log, main: FlowKey, hops: seq<Hop>, config: TraceConfig, t: nat)
    requires config.Valid() && FixedIsMain(log, main)
    requires region.family.Temporal? || region.family.GlobalCap?
    requires t in region.probeTtls && TwoMainResponders(log, t, main)
    ensures Classify(region, log, hops, config).kind.Unstable?
  {
    hide CertificateOf, ModalAnswers, AnswersWithAddress, NearestVisible, MostCommon, InWindow, AtTtl, Responders;
    VariationIsTwoResponders(log, region.probeTtls, main, t);
    assert FindingsOf(region, log, hops).fixedVariation;
  }

  /** Enough complete samples certify: the numeric bound then holds by itself. */
  lemma CertifiedByCounts(region: Region, log: Log, config: TraceConfig)
    requires config.Valid() && region.probeTtls != []
    ensures var fixed := |CompleteSamples(PlanOf(log), Elements(region.probeTtls), false)|;
            var varied := |CompleteSamples(PlanOf(log), Elements(region.probeTtls), true)|;
            CertificateOf(region, log, config).certified
            <==> fixed >= config.temporalSamples && (region.variantCoverage ==> varied >= config.Required())
  {
    hide CompleteSamples, SampleSignatures, InWindow, MissProbabilityBound, RequiredSamples;
    SignaturesCountCompleteSamples(log, region.probeTtls, false);
    SignaturesCountCompleteSamples(log, region.probeTtls, true);
    BoundByCount(config, |CompleteSamples(PlanOf(log), Elements(region.probeTtls), true)|);
  }

  /** The required count meets the requested bound. */
  lemma BoundByCount(config: TraceConfig, count: nat)
    requires config.Valid()
    ensures count >= config.Required() ==>
              MissProbabilityBound(config.minDetectable, count).value <= config.missProbability
  {
    RequiredSamplesExact(config.minDetectable, config.missProbability, if count >= 1 then count else 1);
  }

  // ---------- Coalescing ----------

  datatype Key = Key(kind: SegmentType, first: nat, last: nat, ingress: Option<Ipv4Address>,
                     egress: Option<Ipv4Address>, fixedOutcomes: Outcomes, variedOutcomes: Outcomes,
                     certificate: Certificate, branches: seq<(nat, seq<(Ipv4Address, nat)>)>)

  function KeyOf(s: Segment): Key {
    Key(s.kind, s.first, s.last, s.ingress, s.egress, s.fixedOutcomes, s.variedOutcomes, s.certificate, s.branches)
  }

  function KeysOf(segments: seq<Segment>): (keys: seq<Key>)
    ensures |keys| == |segments| && forall k :: 0 <= k < |keys| ==> keys[k] == KeyOf(segments[k])
  {
    seq(|segments|, k requires 0 <= k < |segments| => KeyOf(segments[k]))
  }

  method FindKey(segments: seq<Segment>, key: Key) returns (index: nat)
    ensures index <= |segments|
    ensures index < |segments| ==> KeyOf(segments[index]) == key
    ensures index == |segments| ==> key !in KeysOf(segments)
  {
    index := 0;
    while index < |segments|
      invariant 0 <= index <= |segments|
      invariant forall k :: 0 <= k < index ==> KeyOf(segments[k]) != key
    {
      if KeyOf(segments[index]) == key { return; }
      index := index + 1;
    }
  }

  /** The claims with one key, in order. */
  function Sharing(segments: seq<Segment>, key: Key): (same: seq<Segment>)
    ensures forall s :: s in same <==> s in segments && KeyOf(s) == key
  {
    if segments == [] then []
    else
      var last := segments[|segments| - 1];
      Sharing(segments[..|segments| - 1], key) + (if KeyOf(last) == key then [last] else [])
  }

  function AllReasons(segments: seq<Segment>): seq<Reason> {
    if segments == [] then []
    else AllReasons(segments[..|segments| - 1]) + segments[|segments| - 1].reasons
  }

  predicate MplsNamed(segments: seq<Segment>) {
    exists s :: s in segments && s.mplsNamed
  }

  /** One claim for several: the first of them, with every reason given by any of them, once each in
      order, and the mechanism if any of them names it. A claim on its own stays as it is. */
  function United(same: seq<Segment>): Segment
    requires same != []
  {
    if |same| == 1 then same[0]
    else same[0].(reasons := Distinct(AllReasons(same)), mplsNamed := MplsNamed(same))
  }

  lemma SharedKey(segments: seq<Segment>, key: Key)
    requires key in KeysOf(segments)
    ensures Sharing(segments, key) != [] && Sharing(segments, key)[0] in segments
    ensures KeyOf(United(Sharing(segments, key))) == key
  {
    var k :| 0 <= k < |segments| && KeyOf(segments[k]) == key;
    assert segments[k] in Sharing(segments, key);
    assert Sharing(segments, key)[0] in Sharing(segments, key);
  }

  function UnitedFor(segments: seq<Segment>, key: Key): Segment
    requires key in KeysOf(segments)
  {
    SharedKey(segments, key);
    United(Sharing(segments, key))
  }

  /** Coalescing keeps the keys of the input, once each and in order of first occurrence, and unites
      the claims with each key. */
  ghost predicate Coalesced(segments: seq<Segment>, merged: seq<Segment>) {
    var keys := Distinct(KeysOf(segments));
    |merged| == |keys| && forall k :: 0 <= k < |keys| ==> keys[k] in keys && merged[k] == UnitedFor(segments, keys[k])
  }

  lemma CoalescedKeys(segments: seq<Segment>, merged: seq<Segment>)
    requires Coalesced(segments, merged)
    ensures KeysOf(merged) == Distinct(KeysOf(segments))
  {
    hide United, Sharing, Distinct;
    var keys := Distinct(KeysOf(segments));
    forall k | 0 <= k < |keys| ensures KeysOf(merged)[k] == keys[k] {
      assert keys[k] in keys;
      SharedKey(segments, keys[k]);
    }
  }

  method CoalesceSegments(segments: seq<Segment>) returns (merged: seq<Segment>)
    ensures Coalesced(segments, merged)
  {
    hide Coalesced;
    merged := [];
    NothingToCoalesce();
    assert segments[..0] == [];
    var n := 0;
    while n < |segments|
      invariant 0 <= n <= |segments|
      invariant Coalesced(segments[..n], merged)
    {
      var segment := segments[n];
      var index := FindKey(merged, KeyOf(segment));
      assert segments[..n + 1] == segments[..n] + [segment];
      if index == |merged| {
        NewKey(segments[..n], merged, segment);
        merged := merged + [segment];
      } else {
        var existing := merged[index];
        KnownKey(segments[..n], merged, segment, index);
        merged := merged[index := existing.(reasons := Distinct(existing.reasons + segment.reasons),
                                            mplsNamed := existing.mplsNamed || segment.mplsNamed)];
      }
      n := n + 1;
    }
    assert segments[..n] == segments;
  }

  lemma NothingToCoalesce()
    ensures Coalesced([], [])
  {
  }

  lemma SharingGrows(segments: seq<Segment>, segment: Segment, key: Key)
    ensures Sharing(segments + [segment], key)
         == Sharing(segments, key) + (if KeyOf(segment) == key then [segment] else [])
  {
    assert (segments + [segment])[..|segments|] == segments;
  }

  lemma KeysGrow(segments: seq<Segment>, segment: Segment)
    ensures KeysOf(segments + [segment]) == KeysOf(segments) + [KeyOf(segment)]
    ensures Distinct(KeysOf(segments + [segment]))
         == Distinct(KeysOf(segments)) + (if KeyOf(segment) in Distinct(KeysOf(segments)) then [] else [KeyOf(segment)])
  {
    assert KeysOf(segments + [segment]) == KeysOf(segments) + [KeyOf(segment)];
    assert KeysOf(segments + [segment])[..|segments|] == KeysOf(segments);
  }

  /** A claim with another key leaves the claim for this one. */
  lemma OtherKey(segments: seq<Segment>, segment: Segment, key: Key)
    requires key in KeysOf(segments) && KeyOf(segment) != key
    ensures key in KeysOf(segments + [segment])
    ensures UnitedFor(segments + [segment], key) == UnitedFor(segments, key)
  {
    hide United, Sharing, KeyOf, Distinct;
    KeysGrow(segments, segment);
    SharingGrows(segments, segment, key);
    assert Sharing(segments + [segment], key) == Sharing(segments, key);
  }

  lemma NewKey(segments: seq<Segment>, merged: seq<Segment>, segment: Segment)
    requires Coalesced(segments, merged) && KeyOf(segment) !in KeysOf(merged)
    ensures Coalesced(segments + [segment], merged + [segment])
  {
    hide Distinct, UnitedFor;
    var keys, more := Distinct(KeysOf(segments)), Distinct(KeysOf(segments + [segment]));
    KeysGrow(segments, segment);
    CoalescedKeys(segments, merged);
    FirstClaim(segments, segment);
    forall k | 0 <= k < |more|
      ensures more[k] in more && (merged + [segment])[k] == UnitedFor(segments + [segment], more[k])
    {
      if k < |keys| {
        assert keys[k] in keys;
        OtherKey(segments, segment, keys[k]);
      }
    }
  }

  lemma FirstClaim(segments: seq<Segment>, segment: Segment)
    requires KeyOf(segment) !in KeysOf(segments)
    ensures KeyOf(segment) in KeysOf(segments + [segment]) && UnitedFor(segments + [segment], KeyOf(segment)) == segment
  {
    hide KeyOf;
    KeysGrow(segments, segment);
    SharingGrows(segments, segment, KeyOf(segment));
    forall i | 0 <= i < |segments| ensures KeyOf(segments[i]) != KeyOf(segment) {
      assert KeysOf(segments)[i] in KeysOf(segments);
    }
    NoneSharing(segments, KeyOf(segment));
  }

  lemma KnownKey(segments: seq<Segment>, merged: seq<Segment>, segment: Segment, index: nat)
    requires Coalesced(segments, merged) && index < |merged| && KeyOf(merged[index]) == KeyOf(segment)
    ensures var existing := merged[index];
            Coalesced(segments + [segment],
                      merged[index := existing.(reasons := Distinct(existing.reasons + segment.reasons),
                                                mplsNamed := existing.mplsNamed || segment.mplsNamed)])
  {
    hide Distinct, UnitedFor;
    var existing := merged[index];
    var united := existing.(reasons := Distinct(existing.reasons + segment.reasons),
                            mplsNamed := existing.mplsNamed || segment.mplsNamed);
    var keys, more := Distinct(KeysOf(segments)), Distinct(KeysOf(segments + [segment]));
    KeysGrow(segments, segment);
    CoalescedKeys(segments, merged);
    assert KeysOf(merged)[index] == KeyOf(segment);
    assert keys[index] in keys;
    AnotherClaim(segments, segment);
    forall k | 0 <= k < |more|
      ensures more[k] in more && merged[index := united][k] == UnitedFor(segments + [segment], more[k])
    {
      assert keys[k] in keys;
      if k != index {
        assert keys[k] != keys[index];
        OtherKey(segments, segment, keys[k]);
      }
    }
  }

  /** One more claim with a known key. */
  lemma AnotherClaim(segments: seq<Segment>, segment: Segment)
    requires KeyOf(segment) in KeysOf(segments)
    ensures KeyOf(segment) in KeysOf(segments + [segment])
    ensures var existing := UnitedFor(segments, KeyOf(segment));
            UnitedFor(segments + [segment], KeyOf(segment))
            == existing.(reasons := Distinct(existing.reasons + segment.reasons),
                         mplsNamed := existing.mplsNamed || segment.mplsNamed)
  {
    hide KeyOf, Sharing, United;
    KeysGrow(segments, segment);
    SharedKey(segments, KeyOf(segment));
    SharingGrows(segments, segment, KeyOf(segment));
    UnitedGrows(Sharing(segments, KeyOf(segment)), segment);
  }

  lemma UnitedGrows(same: seq<Segment>, segment: Segment)
    requires same != []
    ensures United(same + [segment])
         == United(same).(reasons := Distinct(United(same).reasons + segment.reasons),
                          mplsNamed := United(same).mplsNamed || segment.mplsNamed)
  {
    var more := same + [segment];
    assert more[..|same|] == same && more[|same|] == segment;
    assert AllReasons(more) == AllReasons(same) + segment.reasons;
    assert MplsNamed(more) <==> MplsNamed(same) || segment.mplsNamed by {
      assert forall s :: s in more <==> s in same || s == segment;
    }
    if |same| == 1 {
      assert same == [same[0]];
      assert AllReasons([]) == [] && same[..0] == [];
      assert AllReasons(same) == same[0].reasons;
      assert MplsNamed(same) <==> same[0].mplsNamed;
    } else {
      DistinctAppend(AllReasons(same), segment.reasons);
    }
  }

  lemma DistinctStep<T(!new)>(xs: seq<T>, x: T)
    ensures Distinct(xs + [x]) == if x in xs then Distinct(xs) else Distinct(xs) + [x]
  {
    assert (xs + [x])[..|xs|] == xs;
  }

  lemma {:induction false} DistinctAppend<T(!new)>(xs: seq<T>, ys: seq<T>)
    ensures Distinct(Distinct(xs) + ys) == Distinct(xs + ys)
  {
    hide Distinct;
    if ys == [] {
      DistinctOfDistinct(Distinct(xs));
      assert Distinct(xs) + ys == Distinct(xs) && xs + ys == xs;
    } else {
      var last := |ys| - 1;
      var front, y := ys[..last], ys[last];
      DistinctAppend(xs, front);
      assert Distinct(xs) + ys == (Distinct(xs) + front) + [y];
      assert xs + ys == (xs + front) + [y];
      DistinctStep(Distinct(xs) + front, y);
      DistinctStep(xs + front, y);
    }
  }

  /** A second pass changes nothing. */
  lemma CoalescingIsIdempotent(segments: seq<Segment>, once: seq<Segment>, twice: seq<Segment>)
    requires Coalesced(segments, once) && Coalesced(once, twice)
    ensures twice == once
  {
    hide UnitedFor;
    CoalescedKeys(segments, once);
    DistinctOfDistinct(KeysOf(once));
    forall k | 0 <= k < |once| ensures KeysOf(once)[k] in KeysOf(once) && UnitedFor(once, KeysOf(once)[k]) == once[k] {
      SoleClaim(once, k);
    }
  }

  lemma SoleClaim(segments: seq<Segment>, k: nat)
    requires k < |segments| && forall i, j :: 0 <= i < j < |segments| ==> KeysOf(segments)[i] != KeysOf(segments)[j]
    ensures KeysOf(segments)[k] in KeysOf(segments) && UnitedFor(segments, KeysOf(segments)[k]) == segments[k]
  {
    hide KeyOf;
    forall i | 0 <= i < |segments| && i != k ensures KeyOf(segments[i]) != KeyOf(segments[k]) {
      assert KeysOf(segments)[i] != KeysOf(segments)[k];
    }
    SoleSharing(segments, k, KeyOf(segments[k]));
  }

  lemma {:induction false} SoleSharing(segments: seq<Segment>, k: nat, key: Key)
    requires k < |segments| && KeyOf(segments[k]) == key
    requires forall i :: 0 <= i < |segments| && i != k ==> KeyOf(segments[i]) != key
    ensures Sharing(segments, key) == [segments[k]]
  {
    hide KeyOf;
    var last := |segments| - 1;
    assert segments == segments[..last] + [segments[last]];
    SharingGrows(segments[..last], segments[last], key);
    if k < last {
      SoleSharing(segments[..last], k, key);
    } else {
      NoneSharing(segments[..last], key);
    }
  }

  lemma {:induction false} NoneSharing(segments: seq<Segment>, key: Key)
    requires forall i :: 0 <= i < |segments| ==> KeyOf(segments[i]) != key
    ensures Sharing(segments, key) == []
  {
    if segments == [] {
    } else {
      NoneSharing(segments[..|segments| - 1], key);
    }
  }

  /** What a claim of the output takes from the first claim with its key: all but reasons and
      mechanism. */
  lemma ClaimIsFirst(segments: seq<Segment>, merged: seq<Segment>, m: Segment) returns (k: nat)
    requires Coalesced(segments, merged) && m in merged
    ensures k < |segments| && m == segments[k].(reasons := m.reasons, mplsNamed := m.mplsNamed)
    ensures forall j :: 0 <= j < k ==> KeyOf(segments[j]) != KeyOf(m)
    ensures Elements(m.reasons) == Elements(AllReasons(Sharing(segments, KeyOf(m))))
    ensures m.mplsNamed <==> MplsNamed(Sharing(segments, KeyOf(m)))
  {
    hide KeyOf, Sharing;
    CoalescedKeys(segments, merged);
    var n :| 0 <= n < |merged| && merged[n] == m;
    assert Distinct(KeysOf(segments))[n] == KeysOf(merged)[n] == KeyOf(m);
    SharedKey(segments, KeyOf(m));
    k := FirstSharing(segments, KeyOf(m));
    UnitedFacts(Sharing(segments, KeyOf(m)));
  }

  lemma UnitedFacts(same: seq<Segment>)
    requires same != []
    ensures Elements(United(same).reasons) == Elements(AllReasons(same))
    ensures United(same).mplsNamed <==> MplsNamed(same)
    ensures United(same) == same[0].(reasons := United(same).reasons, mplsNamed := United(same).mplsNamed)
  {
    if |same| == 1 {
      assert same == [same[0]] && same[..0] == [];
      assert AllReasons(same) == AllReasons([]) + same[0].reasons;
      assert MplsNamed(same) <==> same[0].mplsNamed;
    }
  }

  lemma {:induction false} FirstSharing(segments: seq<Segment>, key: Key) returns (k: nat)
    requires key in KeysOf(segments)
    ensures k < |segments| && Sharing(segments, key) != [] && Sharing(segments, key)[0] == segments[k]
    ensures KeyOf(segments[k]) == key && forall j :: 0 <= j < k ==> KeyOf(segments[j]) != key
  {
    hide KeyOf;
    var last := |segments| - 1;
    assert segments == segments[..last] + [segments[last]];
    SharingGrows(segments[..last], segments[last], key);
    if key in KeysOf(segments[..last]) {
      k := FirstSharing(segments[..last], key);
    } else {
      k := last;
      forall j | 0 <= j < last ensures KeyOf(segments[j]) != key {
        assert KeysOf(segments[..last])[j] == KeyOf(segments[j]);
      }
      NoneSharing(segments[..last], key);
    }
  }

  lemma {:induction false} DistinctOfDistinct<T(!new)>(xs: seq<T>)
    requires forall i, j :: 0 <= i < j < |xs| ==> xs[i] != xs[j]
    ensures Distinct(xs) == xs
  {
    if xs == [] {
    } else {
      DistinctOfDistinct(xs[..|xs| - 1]);
    }
  }

  /** For windows of detected runs, two claims merge exactly when class, bounds and kind of
      coverage agree: equal bounds are probed at equal TTLs, so all other evidence is equal. */
  lemma WindowsMergeExactly(a: Region, b: Region, log: Log, hops: seq<Hop>, config: TraceConfig)
    requires config.Valid() && a.first <= a.last && b.first <= b.last
    requires a.probeTtls == WindowTtls(a.first, a.last) && b.probeTtls == WindowTtls(b.first, b.last)
    ensures var x, y := Classify(a, log, hops, config), Classify(b, log, hops, config);
            KeyOf(x) == KeyOf(y)
            <==> x.kind == y.kind && x.first == y.first && x.last == y.last && a.variantCoverage == b.variantCoverage
    ensures var x, y := Classify(a, log, hops, config), Classify(b, log, hops, config);
            KeyOf(x) == KeyOf(y) ==> y == x.(reasons := y.reasons)
  {
    hide Verdict, FindingsOf, MostCommon, InWindow, SampleSignatures, NearestVisible, BranchesOf, ModalAnswers,
         AnswersWithAddress, CarriesMpls, CountIf;
  }
}
