/** What every report says, stated over the log of its run and nothing else of the model. */
module Reports {
  import opened Campaigns
  import opened Coverage
  import opened Drawing
  import opened Evidence
  import opened Guarantees
  import opened Kinds
  import opened Ledgers
  import opened Measures
  import opened Model
  import opened Regions
  import opened Rounds
  import opened Runs
  import opened Segments
  import opened Sequences
  import opened Settings
  import opened Stats
  import opened Summary
  import opened Suspicion
  import opened Sweeps
  import opened Tokens
  import opened Wrappers

  // ---------- The log of a run ----------

  lemma RunProbesOnce(config: TraceConfig, t: TraceResult, h: History)
    requires RunOf(config, t, h)
    ensures ProbedOnce(t.observations)
  {
    hide RunOf;
    RunIsAccounted(config, t, h);
    forall i, j | 0 <= i < j < |t.observations| && t.observations[i].spec.sampleId == t.observations[j].spec.sampleId
      ensures t.observations[i].spec.ttl != t.observations[j].spec.ttl
    {
      assert Separate(t.observations[i].spec, t.observations[j].spec);
    }
  }

  /** After detection no sweep probe is sent. */
  lemma RunSweeps(config: TraceConfig, t: TraceResult, h: History)
    requires RunOf(config, t, h) && BaselineAnswered(h.baseline)
    ensures LegalLog(h.swept) && SameSweeps(h.swept, t.observations)
  {
    hide Stepped, Unrefused, Reported, FoundRegions, NoTokenReuse, AnalysisLimit, Swept, Accounted, SweepProbes,
         BaselineAnswered, OnlyBaseline, Canaries, AllDrawn, WholeSamples;
    var log := t.observations;
    forall i | |h.swept| <= i < |log| ensures !SweepPhase(log[i].spec.phase) {
      assert !SweepPhase(PlanOf(log)[i].phase);
    }
    assert forall i :: 0 <= i < |h.swept| ==> h.swept[i] == log[i];
    hide RunOf;
  }

  // ---------- The baseline ----------

  lemma BaselineIndex(config: TraceConfig, t: TraceResult, h: History, i: nat)
    requires RunOf(config, t, h) && i < |t.observations| && t.observations[i].spec.phase.BaselineFixed?
    ensures h.baseline <= t.observations && i < |h.baseline| && h.baseline == LogBefore(h.rounds, |h.rounds|)
    ensures RoundsFollow(config, h.main, h.rounds) && (|h.rounds| > 1 ==> !Silent(h.rounds[0].log))
    ensures config.chunkSize > 0
  {
    hide RunOf, RoundsFollow, BaselineAnswered, Silent;
    SweptBaseline(config, t, h);
    RunSteps(config, t, h);
    ReportIsLegal(config, t, h);
    if i >= |h.baseline| {
      if BaselineAnswered(h.baseline) {
        NothingBeyondLimit(config, t, h, i);
      } else {
        DarkRun(config, t, h);
      }
    }
  }

  /** No baseline sample is probed beyond the chunk in which it met a terminal reply. */
  lemma SweepsStopAtTheEnd(config: TraceConfig, t: TraceResult, h: History, i: nat, j: nat)
    requires RunOf(config, t, h) && i < |t.observations| && j < |t.observations|
    requires t.observations[i].spec.phase.BaselineFixed? && t.observations[j].spec.phase.BaselineFixed?
    requires t.observations[i].spec.sampleId == t.observations[j].spec.sampleId && t.observations[i].reply.terminal
    ensures config.chunkSize > 0
    ensures t.observations[j].spec.ttl <= t.observations[i].spec.ttl
            || SameChunk(t.observations[i].spec.ttl, t.observations[j].spec.ttl, config.chunkSize)
  {
    hide *;
    BaselineIndex(config, t, h, i);
    BaselineIndex(config, t, h, j);
    SweepsStop(config, h.main, h.rounds, i, j);
  }

  /** Every baseline sample after the first stays in sight: it is probed no further than the lowest terminal reply
      that earlier samples met, and otherwise no further than the guard hops beyond one that was answered. */
  lemma LaterSweepsStayInSight(config: TraceConfig, t: TraceResult, h: History, i: nat)
    requires RunOf(config, t, h) && i < |t.observations| && t.observations[i].spec.phase.BaselineFixed?
    requires t.observations[i].spec.sampleId > 1
    ensures InSight(config, h.main, t.observations, i)
  {
    hide *;
    BaselineIndex(config, t, h, i);
    LaterRoundsInSight(config, h.main, h.rounds, i);
    SightGrows(config, h.main, h.baseline, t.observations, i);
  }

  lemma SightGrows(config: TraceConfig, main: FlowKey, log: Log, later: Log, i: nat)
    requires log <= later && i < |log| && InSight(config, main, log, i)
    ensures InSight(config, main, later, i)
  {
    hide MainTerminal;
    assert forall j :: 0 <= j <= i ==> later[j] == log[j];
  }

  // ---------- Detection ----------

  /** Without global CAP the regions of a run are exactly the surroundings of the stretches its log shows,
      family by family: where a canary was answered from a new address, where only one kind of sweep was
      seen, where answers come and go or never come, where the baseline varies, and where its rewrites
      change. */
  lemma RegionsAreStretches(config: TraceConfig, t: TraceResult, h: History)
    requires RunOf(config, t, h) && BaselineAnswered(h.baseline) && !config.globalCap
    ensures forall r :: r in h.regions ==>
              && r.family in EVIDENCE_FAMILIES
              && exists run :: Stretch(t.observations, r.family, h.limit, run) && Surrounds(r, run, h.limit)
    ensures forall family, run :: family in EVIDENCE_FAMILIES && Stretch(t.observations, family, h.limit, run) ==>
              exists r :: r in h.regions && r.family == family && Surrounds(r, run, h.limit)
    ensures forall i, j :: 0 <= i < j < |h.regions| ==>
              Ordered(h.regions[i], h.regions[j]) && h.regions[i] != h.regions[j]
  {
    hide *;
    RunSweeps(config, t, h);
    FoundAreProbed(config, t, h);
    FoundAreStretches(h.swept, t.observations, h.limit, h.regions);
    forall i, j | 0 <= i < j < |h.regions|
      ensures Ordered(h.regions[i], h.regions[j]) && h.regions[i] != h.regions[j]
    {
      FoundInOrder(h.swept, h.limit, h.regions, i, j);
    }
  }

  /** Whatever a TTL within the limit shows has a region around it and a segment that claims it. */
  lemma SuspicionIsReported(config: TraceConfig, t: TraceResult, h: History, family: Family, k: nat)
    returns (r: Region, s: Segment)
    requires RunOf(config, t, h) && BaselineAnswered(h.baseline) && !config.globalCap
    requires family in EVIDENCE_FAMILIES && 1 <= k <= h.limit && Shows(t.observations, family, k)
    ensures r in h.regions && r.family == family && r.first <= k <= r.last && s in t.segments && Claims(s, r)
  {
    hide *;
    RunSweeps(config, t, h);
    FoundAreProbed(config, t, h);
    ShownIsMarked(h.swept, t.observations, h.limit, family, k);
    r := MarkedIsCovered(h.swept, h.limit, h.regions, family, k);
    s := ClaimFor(config, t, h, r);
  }

  lemma ShownIsMarked(log: Log, later: Log, limit: nat, family: Family, k: nat)
    requires LegalLog(log) && SameSweeps(log, later) && family in EVIDENCE_FAMILIES
    requires 1 <= k <= limit && Shows(later, family, k)
    ensures k in Marked(log, limit, family)
  {
    hide Shows, Suspicious, LegalLog, SameSweeps;
    MarkedExactly(log, family, k);
    ShowsLater(log, later, family, k);
  }

  /** The path ends where the baseline says, and the hop list where the whole log says. */
  lemma LimitsAreEnds(config: TraceConfig, t: TraceResult, h: History)
    requires RunOf(config, t, h)
    ensures EndsAt(t.observations, h.main, config.maxHops, |t.hops|)
    ensures BaselineAnswered(h.baseline) ==> EndsAt(h.baseline, h.main, config.maxHops, h.limit)
  {
    hide EndsAt, AnalysisLimit;
    HopsReachLimit(config, t, h);
    LimitIsTheEnd(t.observations, h.main, config.maxHops);
    LimitIsTheEnd(h.baseline, h.main, config.maxHops);
    hide RunOf;
    if BaselineAnswered(h.baseline) {
      LimitIs(config, t, h);
    }
  }

  // ---------- Segments ----------

  lemma RegionShape(config: TraceConfig, t: TraceResult, h: History, r: Region)
    requires RunOf(config, t, h) && r in h.regions
    ensures 1 <= r.first <= r.last && r.probeTtls != [] && StrictlyIncreasing(r.probeTtls)
    ensures MutationBoundary in r.reasons ==> r.family.HeaderMutation?
  {
    hide RunOf, FoundRegions, BaselineAnswered;
    RegionWindows(config, t, h);
    assert Geometry(r, h.limit);
    assert r.first in r.probeTtls;
    if config.globalCap {
      GlobalIsProbed(config, t, h);
    } else {
      FoundAreProbed(config, t, h);
      FoundReasons(h.swept, h.limit, h.regions, r);
    }
  }

  lemma FoundReasons(log: Log, limit: nat, regions: seq<Region>, r: Region)
    requires FoundRegions(log, limit, regions) && r in regions
    ensures MutationBoundary in r.reasons ==> r.family.HeaderMutation?
  {
    hide MaximalRun, Marked;
    assert FromRun(log, limit, r);
  }

  /** The kind of every region's segment, exactly. A multipath region is MULTIPATH if and only if two variant
      responders were seen in it, a header-mutation region MUTABLE if and only if a rewrite was quoted, a
      visibility region OPAQUE or INTERMITTENT if and only if its silence or unsteadiness was seen; and
      UNKNOWN is left exactly where the log shows none of what the kinds stand for. */
  lemma KindsAreExact(config: TraceConfig, t: TraceResult, h: History, s: Segment) returns (r: Region)
    requires RunOf(config, t, h) && s in t.segments && FromRegion(s)
    ensures r in h.regions && Claims(s, r)
    ensures OwnKind(r, t.observations, h.main, |t.hops|, s.kind)
    ensures !FoundIts(r, t.observations, h.main) ==> OtherKind(r, t.observations, h.main, |t.hops|, s.kind)
  {
    hide *;
    r := RegionBehind(config, t, h, s);
    RegionShape(config, t, h, r);
    ReportIsLegal(config, t, h);
    FixedFlowIsMain(config, t, h);
    RunProbesOnce(config, t, h);
    KindExactly(r, t.observations, h.main, t.hops, config);
  }

  /** The evidence of every region's segment, counted: ends, rates, outcomes, branches and certificate. */
  lemma EvidenceIsCounted(config: TraceConfig, t: TraceResult, h: History, s: Segment) returns (r: Region)
    requires RunOf(config, t, h) && s in t.segments && FromRegion(s)
    ensures r in h.regions && Claims(s, r) && config.Valid()
    ensures EvidenceIs(s, r, t.observations, t.hops, config)
  {
    hide *;
    r := RegionBehind(config, t, h, s);
    RegionShape(config, t, h, r);
    ReportIsLegal(config, t, h);
    RunProbesOnce(config, t, h);
    EvidenceExactly(r, t.observations, t.hops, config);
    SameEvidence(s, Classify(r, t.observations, t.hops, config), r, t.observations, t.hops, config);
  }

  lemma SameEvidence(s: Segment, verdict: Segment, r: Region, log: Log, hops: seq<Hop>, config: TraceConfig)
    requires config.Valid() && ClaimOf(s, verdict) && EvidenceIs(verdict, r, log, hops, config)
    ensures EvidenceIs(s, r, log, hops, config)
  {
    hide RatesAre, OutcomesAre, BranchesAre, CertificateCounts, NearestBelow, NearestAbove;
    SameRates(s, verdict, log, r.probeTtls);
  }

  lemma SameRates(s: Segment, verdict: Segment, log: Log, ttls: seq<nat>)
    requires ClaimOf(s, verdict) && RatesAre(verdict, log, ttls)
    ensures RatesAre(s, log, ttls)
  {
    hide Share, Explained, FixedAnswers, FixedProbes;
  }

  /** The hop list is the path up to its end, each hop counted. */
  lemma HopsAreCounted(config: TraceConfig, t: TraceResult, h: History, k: nat)
    requires RunOf(config, t, h) && 1 <= k <= |t.hops|
    ensures HopCounts(t.hops[k - 1], t.observations, k, h.main)
  {
    hide RunOf, HopCounts, SummarizeHop, LegalLog;
    ReportIsLegal(config, t, h);
    HopIsCounted(t.observations, k, h.main);
    assert t.hops[k - 1] == SummarizeHop(t.observations, k - 1 + 1, h.main);
  }

  /** A silent tail names the last visible hop, counts the samples of the main flow that swept all of it, and
      certifies nothing. */
  lemma TailIsCounted(config: TraceConfig, t: TraceResult, h: History, s: Segment)
    requires RunOf(config, t, h) && s in t.segments && s.kind.SilentTail?
    ensures 1 <= s.first == |t.hops| < s.last && NearestBelow(t.hops, s.first, s.ingress) && s.egress.None?
    ensures s.responseRate == Some(0.0) && s.stability.None? && s.fixedOutcomes == [] && s.variedOutcomes == []
    ensures s.reasons == [OpenEndedSilence] && s.branches == [] && !s.mplsNamed
    ensures var c := s.certificate;
            && c.basis.SilentTailObservation? && c.missBound == 1.0 && !c.certified
            && c.minDetectable == config.minDetectable && c.requestedMiss == config.missProbability
            && c.requiredSamples == config.temporalSamples
    ensures s.certificate.sampleCount
         == |CompleteSamples(PlanOf(t.observations), Elements(Range(s.first + 1, s.last)), false)|
  {
    hide *;
    SilentTailIsTheTail(config, t, h, s);
    HopsReachLimit(config, t, h);
    var limit := AnalysisLimit(t.observations, h.main, config.maxHops);
    TailSilence(t, limit);
    TailShape(t.observations, limit, t.probedMax, t.hops, config, s);
    BaselineWasAnswered(config, t, h);
    HopsExist(config, t, h);
    NearestIsNearest(t.hops, |t.hops|);
  }

  lemma TailSilence(t: TraceResult, limit: nat)
    requires HasSilentTail(t, limit)
    ensures limit < t.probedMax && BaselineAnswered(t.observations)
  {
  }

  lemma TailShape(log: Log, limit: nat, probedMax: nat, hops: seq<Hop>, config: TraceConfig, s: Segment)
    requires limit < probedMax && s == SilentTailOf(log, limit, probedMax, hops, config)
    ensures s.first == limit && s.last == probedMax && s.ingress == NearestVisible(hops, limit, true) && s.egress.None?
    ensures s.responseRate == Some(0.0) && s.stability.None? && s.fixedOutcomes == [] && s.variedOutcomes == []
    ensures s.reasons == [OpenEndedSilence] && s.branches == [] && !s.mplsNamed
    ensures var c := s.certificate;
            && c.basis.SilentTailObservation? && c.missBound == 1.0 && !c.certified
            && c.minDetectable == config.minDetectable && c.requestedMiss == config.missProbability
            && c.requiredSamples == config.temporalSamples
    ensures s.certificate.sampleCount == |CompleteSamples(PlanOf(log), Elements(Range(s.first + 1, s.last)), false)|
  {
    hide CompleteSamples, NearestVisible;
  }

  lemma HopsExist(config: TraceConfig, t: TraceResult, h: History)
    requires RunOf(config, t, h) && BaselineAnswered(h.baseline)
    ensures |t.hops| >= 1
  {
    hide RunOf, EndsAt, BaselineAnswered;
    LimitsAreEnds(config, t, h);
    BaselineShows(config, t, h);
    RunTtlsPositive(config, t, h);
    EndIsPositive(t.observations, h.main, config.maxHops, |t.hops|);
  }

  lemma EndIsPositive(log: Log, main: FlowKey, maxHops: nat, limit: nat)
    requires EndsAt(log, main, maxHops, limit) && AnsweredSomewhere(log)
    requires forall o :: o in log ==> o.spec.ttl >= 1
    ensures limit >= 1
  {
    var i :| 0 <= i < |log| && log[i].Answered();
    assert log[i] in log;
  }

  lemma RunTtlsPositive(config: TraceConfig, t: TraceResult, h: History)
    requires RunOf(config, t, h)
    ensures forall o :: o in t.observations ==> o.spec.ttl >= 1
  {
    hide Stepped, Probed, Unrefused, Reported, LegalLog, SweepProbes, Cache, MainFlowOf;
    forall o | o in t.observations ensures o.spec.ttl >= 1 {
      var i :| 0 <= i < |t.observations| && t.observations[i] == o;
      assert PlanOf(t.observations)[i].ttl >= 1;
    }
  }

  lemma TerminalMeans(log: Log, main: FlowKey)
    ensures FirstTerminalTtl(log, main).None? <==> forall o :: o in log && o.spec.flow == main ==> !o.reply.terminal
    ensures ReachedDestination(log, main)
       <==> exists o :: o in log && o.spec.flow == main && o.reply.terminal && o.reply.kind.Destination?
  {
    assert forall o :: o in log <==> exists i :: 0 <= i < |log| && log[i] == o;
  }

  lemma ReportedRemarks(config: TraceConfig, t: TraceResult, h: History)
    requires RunOf(config, t, h)
    ensures t.reached == ReachedDestination(t.observations, h.main) && t.probedMax == ProbedMax(t.observations)
    ensures t.warnings == WarningsOf(config, h) + Remarks(t, h.regions, |t.hops|)
    ensures HasSilentTail(t, |t.hops|) ==> exists s :: s in t.segments && s.kind.SilentTail?
  {
    hide Accounts, Probed, Stepped, Unrefused, Summarized, HopsOf, SortBy, AnalysisLimit, FirstTerminalTtl, WarningsOf,
         Remarks, ReachedDestination, BaselineAnswered, ProbedMax, NearestVisible, CompleteSamples;
    HopsReachLimit(config, t, h);
    var limit := AnalysisLimit(t.observations, h.main, config.maxHops);
    if HasSilentTail(t, limit) {
      var tail := SilentTailOf(t.observations, limit, t.probedMax, t.hops, config);
      SortKeepsElements(h.untailed + [tail], BoundsThenKind);
      assert tail in t.segments && tail.kind.SilentTail?;
    }
  }

  /** A silent tail is reported exactly when the baseline was answered, the main flow met no terminal reply, and
      something was probed beyond the last TTL that answered. */
  lemma TailIsReported(config: TraceConfig, t: TraceResult, h: History)
    requires RunOf(config, t, h)
    ensures (exists s :: s in t.segments && s.kind.SilentTail?)
       <==> && BaselineAnswered(t.observations)
            && (forall o :: o in t.observations && o.spec.flow == h.main ==> !o.reply.terminal)
            && exists o :: o in t.observations && o.spec.ttl > |t.hops|
  {
    hide *;
    HopsReachLimit(config, t, h);
    TerminalMeans(t.observations, h.main);
    ReportedRemarks(config, t, h);
    TailMeans(t, |t.hops|);
    if s :| s in t.segments && s.kind.SilentTail? {
      SilentTailIsTheTail(config, t, h, s);
    }
  }

  lemma TailMeans(t: TraceResult, limit: nat)
    requires t.probedMax == ProbedMax(t.observations)
    ensures HasSilentTail(t, limit)
       <==> && BaselineAnswered(t.observations) && t.terminalTtl.None?
            && exists o :: o in t.observations && o.spec.ttl > limit
  {
    hide BaselineAnswered, ProbedMax;
    assert forall o :: o in t.observations ==> o.spec.ttl <= t.probedMax;
    if t.probedMax > limit {
      var i :| 0 <= i < |t.observations| && t.observations[i].spec.ttl == t.probedMax;
      assert t.observations[i] in t.observations;
    }
  }

  /** The kinds by name. */
  const ALPHABET: seq<SegmentType> := [Direct, Intermittent, MultipathFlow, Mutable, Opaque, SilentTail, Unknown,
                                       Unstable]

  predicate Bounded(a: Segment, b: Segment) {
    a.first == b.first && a.last == b.last
  }

  lemma RankIsAlphabetical(kind: SegmentType)
    ensures KindRank(kind) < |ALPHABET| && ALPHABET[KindRank(kind)] == kind
  {
  }

  /** Segments are listed by where they begin, then by where they end, and with a silent tail by name. */
  lemma SegmentsAreInOrder(config: TraceConfig, t: TraceResult, h: History, i: nat, j: nat)
    requires RunOf(config, t, h) && i < j < |t.segments|
    ensures t.segments[i].first <= t.segments[j].first
    ensures t.segments[i].first == t.segments[j].first ==> t.segments[i].last <= t.segments[j].last
    ensures Bounded(t.segments[i], t.segments[j]) && HasSilentTail(t, |t.hops|) ==>
              exists p, q :: 0 <= p <= q < |ALPHABET|
                             && ALPHABET[p] == t.segments[i].kind && ALPHABET[q] == t.segments[j].kind
  {
    hide Accounts, Probed, Stepped, Unrefused, Coalesced, HopsOf, SortBy, AnalysisLimit, FirstTerminalTtl, WarningsOf,
         Remarks, BaselineAnswered, DirectEdges, SilentTailOf, ProbedMax;
    HopsReachLimit(config, t, h);
    assert TotalPreorder(BoundsFirst) && TotalPreorder(BoundsThenKind);
    var n := |t.hops| - (if |t.hops| > 0 then 1 else 0);
    var limit := AnalysisLimit(t.observations, h.main, config.maxHops);
    SortSorts(DirectEdges(h.regions, t.hops, config, n) + h.special, BoundsFirst);
    if HasSilentTail(t, limit) {
      SortSorts(h.untailed + [SilentTailOf(t.observations, limit, t.probedMax, t.hops, config)], BoundsThenKind);
      assert BoundsThenKind(t.segments[i], t.segments[j]);
      RankIsAlphabetical(t.segments[i].kind);
      RankIsAlphabetical(t.segments[j].kind);
    } else {
      assert BoundsFirst(t.segments[i], t.segments[j]);
    }
  }

  // ---------- The flows of a run ----------

  /** The configured protocol and port, and a token from where tokens come. */
  predicate OnConfiguredFlow(config: TraceConfig, flow: FlowKey) {
    && flow.protocol == config.protocol
    && if config.protocol.Icmp? then flow.sourcePort == 0 && flow.destinationPort == 0
       && 1 <= flow.icmpIdentifier <= 65535
       else && flow.destinationPort == config.destinationPort && flow.icmpIdentifier == 0
            && (if flow.variant == 0 && config.sourcePort.Some? then flow.sourcePort == config.sourcePort.value
                else 49152 <= flow.sourcePort <= 65535)
  }

  /** Two flows that differ in nothing but their token, which differs exactly when their variants do. */
  predicate DifferInToken(a: FlowKey, b: FlowKey) {
    && (a.variant == b.variant <==> a.Token() == b.Token())
    && a == (if b.protocol.Icmp? then b.(icmpIdentifier := a.icmpIdentifier, variant := a.variant)
             else b.(sourcePort := a.sourcePort, variant := a.variant))
  }

  /** Every probe goes to the configured target on a flow that differs from every other flow of the run in
      its token alone; sweeps and repeats of the main flow are variant 0, canaries and draws are not. */
  lemma ProbesKeepTheirFlow(config: TraceConfig, t: TraceResult, h: History, i: nat, j: nat)
    requires RunOf(config, t, h) && i < |t.observations| && j < |t.observations|
    ensures OnConfiguredFlow(config, t.observations[i].spec.flow)
    ensures DifferInToken(t.observations[i].spec.flow, t.observations[j].spec.flow)
    ensures t.observations[i].spec.flow.variant == 0
       <==> t.observations[i].spec.phase.BaselineFixed? || t.observations[i].spec.phase.DbpFixed?
  {
    hide Stepped, Probed, Unrefused, Reported, LegalLog, SweepProbes;
    var plan := PlanOf(t.observations);
    assert RightFlow(plan[i], h.main, h.variants) && RightFlow(plan[j], h.main, h.variants);
    PoolMembers(h.main.protocol);
    hide RunOf, Pool;
    CachedFlow(h.main, h.variants, h.used, plan[i]);
    CachedFlow(h.main, h.variants, h.used, plan[j]);
    TokensDiffer(h.main, h.variants, h.used, plan[i].flow, plan[j].flow);
  }

  lemma CachedFlow(main: FlowKey, variants: map<nat, FlowKey>, used: set<nat>, spec: ProbeSpec)
    requires Cache(main, variants, used) && RightFlow(spec, main, variants) && main.variant == 0
    ensures spec.flow == main || (spec.flow.variant in variants && spec.flow == variants[spec.flow.variant])
    ensures spec.flow.variant == 0 <==> FixedPhase(spec.phase)
    ensures spec.flow != main ==>
              spec.flow == VariantKey(main, spec.flow.Token(), spec.flow.variant) && spec.flow.Token() in FreePool(main)
  {
    hide FreePool;
  }

  lemma TokensDiffer(main: FlowKey, variants: map<nat, FlowKey>, used: set<nat>, a: FlowKey, b: FlowKey)
    requires Cache(main, variants, used) && main.variant == 0
    requires a == main || (a.variant in variants && a == variants[a.variant])
    requires b == main || (b.variant in variants && b == variants[b.variant])
    ensures a.variant == b.variant <==> a.Token() == b.Token()
  {
    hide Pool;
  }

  // ---------- Reasons and remarks ----------

  /** The segment is the claim of this region too. */
  ghost predicate SpeaksFor(s: Segment, q: Region, log: Log, hops: seq<Hop>, config: TraceConfig)
    requires config.Valid()
  {
    KeyOf(Classify(q, log, hops, config)) == KeyOf(s)
  }

  lemma {:induction false} InAllReasons(segments: seq<Segment>, reason: Reason)
    ensures reason in AllReasons(segments) <==> exists s :: s in segments && reason in s.reasons
  {
    if segments == [] {
    } else {
      var front, last := segments[..|segments| - 1], segments[|segments| - 1];
      InAllReasons(front, reason);
      assert forall s :: s in segments <==> s in front || s == last;
    }
  }

  lemma RunCoalesced(config: TraceConfig, t: TraceResult, h: History, s: Segment)
    requires RunOf(config, t, h) && s in t.segments && FromRegion(s)
    ensures config.Valid() && s in h.special
    ensures Coalesced(ClassifyAll(h.regions, t.observations, t.hops, config), h.special)
  {
    ClaimIsSpecial(config, t, h, s);
    hide Accounts, Probed, Stepped, Unrefused, Coalesced, HopsOf, SortBy, AnalysisLimit, FirstTerminalTtl, WarningsOf,
         Remarks, HasSilentTail, DirectEdges, ProbedMax;
  }

  lemma ClassifiedWithKey(regions: seq<Region>, log: Log, hops: seq<Hop>, config: TraceConfig, s: Segment, x: Segment)
    requires config.Valid()
    ensures x in Sharing(ClassifyAll(regions, log, hops, config), KeyOf(s))
       <==> exists q :: q in regions && SpeaksFor(s, q, log, hops, config) && x == Classify(q, log, hops, config)
  {
    hide Classify, KeyOf, Sharing;
    var all := ClassifyAll(regions, log, hops, config);
    if x in all {
      var k :| 0 <= k < |all| && all[k] == x;
      assert regions[k] in regions;
    }
    if q :| q in regions && SpeaksFor(s, q, log, hops, config) && x == Classify(q, log, hops, config) {
      var k :| 0 <= k < |regions| && regions[k] == q;
      assert all[k] == x;
    }
  }

  /** A region's segment gives the reason of its kind, those of every region it speaks for, and the label
      stack exactly when one was seen in the window of such a region; nothing else. */
  lemma ReasonsAreGiven(config: TraceConfig, t: TraceResult, h: History, s: Segment, reason: Reason)
    requires RunOf(config, t, h) && s in t.segments && FromRegion(s)
    ensures config.Valid()
    ensures reason in s.reasons
       <==> || Explains(reason, s.kind) || (reason.MplsStackCarried? && s.mplsNamed)
            || exists q :: q in h.regions && SpeaksFor(s, q, t.observations, t.hops, config) && reason in q.reasons
    ensures s.mplsNamed
       <==> exists q :: && q in h.regions && SpeaksFor(s, q, t.observations, t.hops, config)
                        && LabelSeen(t.observations, q.probeTtls)
  {
    hide *;
    RunCoalesced(config, t, h, s);
    var log, hops := t.observations, t.hops;
    var same := Sharing(ClassifyAll(h.regions, log, hops, config), KeyOf(s));
    var k := ClaimIsFirst(ClassifyAll(h.regions, log, hops, config), h.special, s);
    var r := RegionBehind(config, t, h, s);
    OwnClaim(s, r, log, hops, config);
    GivenReasons(h.regions, log, hops, config, s, same, reason);
  }

  lemma OwnClaim(s: Segment, r: Region, log: Log, hops: seq<Hop>, config: TraceConfig)
    requires config.Valid() && ClaimOf(s, Classify(r, log, hops, config))
    ensures SpeaksFor(s, r, log, hops, config)
  {
    hide Classify;
  }

  lemma GivenReasons(regions: seq<Region>, log: Log, hops: seq<Hop>, config: TraceConfig, s: Segment,
                     same: seq<Segment>, reason: Reason)
    requires config.Valid() && Elements(s.reasons) == Elements(AllReasons(same)) && (s.mplsNamed <==> MplsNamed(same))
    requires same == Sharing(ClassifyAll(regions, log, hops, config), KeyOf(s))
    requires exists r :: r in regions && SpeaksFor(s, r, log, hops, config)
    ensures reason in s.reasons
       <==> || Explains(reason, s.kind) || (reason.MplsStackCarried? && s.mplsNamed)
            || exists q :: q in regions && SpeaksFor(s, q, log, hops, config) && reason in q.reasons
    ensures s.mplsNamed
       <==> exists q :: q in regions && SpeaksFor(s, q, log, hops, config) && LabelSeen(log, q.probeTtls)
  {
    hide Classify, Explains, LabelSeen, Sharing, AllReasons, SpeaksFor;
    InAllReasons(same, reason);
    assert reason in s.reasons <==> reason in Elements(AllReasons(same));
    forall q | q in regions && SpeaksFor(s, q, log, hops, config)
      ensures var verdict := Classify(q, log, hops, config);
              && verdict in same && verdict.kind == s.kind && (verdict.mplsNamed <==> LabelSeen(log, q.probeTtls))
              && (reason in verdict.reasons
                  <==> reason in q.reasons || Explains(reason, s.kind)
                       || (reason.MplsStackCarried? && verdict.mplsNamed))
    {
      ClassifiedWithKey(regions, log, hops, config, s, Classify(q, log, hops, config));
      ReasonsExactly(q, log, hops, config, reason);
      SameKind(s, q, log, hops, config);
    }
    forall x | x in same
      ensures exists q :: q in regions && SpeaksFor(s, q, log, hops, config) && x == Classify(q, log, hops, config)
    {
      ClassifiedWithKey(regions, log, hops, config, s, x);
    }
  }

  lemma GlobalIsNamed(config: TraceConfig, t: TraceResult, h: History, s: Segment)
    requires RunOf(config, t, h) && BaselineAnswered(h.baseline) && config.globalCap
    requires s in t.segments && FromRegion(s)
    ensures GlobalCoverage in s.reasons
  {
    hide *;
    ReasonsAreGiven(config, t, h, s, GlobalCoverage);
    GlobalIsProbed(config, t, h);
    var r := RegionBehind(config, t, h, s);
    OwnClaim(s, r, t.observations, t.hops, config);
    GlobalReason(h.regions, h.limit, r);
  }

  lemma GlobalReason(regions: seq<Region>, limit: nat, r: Region)
    requires regions == [GlobalRegion(limit)] && r in regions
    ensures GlobalCoverage in r.reasons
  {
  }

  /** With global CAP one segment covers the path up to the limit, about all flows; it is certified unless the
      budget refused something. */
  lemma GlobalIsCertified(config: TraceConfig, t: TraceResult, h: History, s: Segment)
    requires RunOf(config, t, h) && BaselineAnswered(h.baseline) && config.globalCap
    requires s in t.segments && FromRegion(s)
    ensures config.Valid() && s.first == 1 && s.last == h.limit
    ensures s.certificate.basis.FlowVariantCoverage? && s.certificate.requiredSamples == config.Required()
    ensures s.certificate.certified || BudgetExhausted in t.warnings
    ensures GlobalCoverage in s.reasons
  {
    hide *;
    GlobalIsNamed(config, t, h, s);
    var r := EvidenceIsCounted(config, t, h, s);
    GlobalIsProbed(config, t, h);
    GlobalShape(h.regions, h.limit, r, s, t.observations, t.hops, config);
    if !s.certificate.certified {
      UncertifiedIsExplained(config, t, h, s);
    }
  }

  lemma GlobalShape(regions: seq<Region>, limit: nat, r: Region, s: Segment, log: Log, hops: seq<Hop>,
                    config: TraceConfig)
    requires regions == [GlobalRegion(limit)] && r in regions && config.Valid() && EvidenceIs(s, r, log, hops, config)
    ensures s.first == 1 && s.last == limit
    ensures s.certificate.basis.FlowVariantCoverage? && s.certificate.requiredSamples == config.Required()
  {
    hide RatesAre, OutcomesAre, BranchesAre, NearestBelow, NearestAbove, RequiredSamples, CompleteSamples;
  }

  lemma SameKind(s: Segment, q: Region, log: Log, hops: seq<Hop>, config: TraceConfig)
    requires config.Valid() && SpeaksFor(s, q, log, hops, config)
    ensures Classify(q, log, hops, config).kind == s.kind
  {
    hide Classify;
  }

  lemma RemarksOnly(config: TraceConfig, t: TraceResult, h: History, limit: nat)
    requires t.warnings == WarningsOf(config, h) + Remarks(t, h.regions, limit)
    requires BaselineOf(config, h.main, h.rounds, h.warned) && h.baseline == LogBefore(h.rounds, |h.rounds|)
    ensures NoTerminalResponse in t.warnings <==> BaselineAnswered(t.observations) && t.terminalTtl.None?
    ensures NoAmbiguousBoundary in t.warnings
       <==> h.regions == [] && BaselineAnswered(t.observations) && !HasSilentTail(t, limit)
    ensures NoFirstResponse in t.warnings ==> forall o :: o in h.baseline ==> !o.Answered()
    ensures (forall o :: o in h.baseline ==> !o.Answered()) ==>
              NoFirstResponse in t.warnings || BudgetExhausted in t.warnings
  {
    hide HasSilentTail, BaselineAnswered, CutShort, Refusals, BaselineOf, LogBefore;
    RefusalsAre(h.refusals);
    BaselineWarned(config, h.main, h.rounds, h.warned);
  }

  lemma BaselineWarned(config: TraceConfig, main: FlowKey, rounds: seq<Round>, warned: seq<Warning>)
    requires BaselineOf(config, main, rounds, warned)
    ensures forall w :: w in warned ==> w == BudgetExhausted || w == NoFirstResponse
    ensures NoFirstResponse in warned ==> forall o :: o in LogBefore(rounds, |rounds|) ==> !o.Answered()
    ensures Silent(LogBefore(rounds, |rounds|)) ==> NoFirstResponse in warned || BudgetExhausted in warned
  {
    hide RoundsFollow;
    if Silent(LogBefore(rounds, |rounds|)) && |rounds| > 1 {
      FirstRoundStays(config, main, rounds, |rounds|);
      assert forall o :: o in rounds[0].log ==> o in LogBefore(rounds, |rounds|);
    }
  }

  /** What the report says of the end of the path and of an uneventful one is true of the log: where the main
      flow first met a terminal reply, whether that was the destination, and whether nothing was suspicious. */
  lemma RemarksAreTrue(config: TraceConfig, t: TraceResult, h: History)
    requires RunOf(config, t, h)
    ensures t.terminalTtl.None? <==> forall o :: o in t.observations && o.spec.flow == h.main ==> !o.reply.terminal
    ensures t.reached
       <==> exists o :: && o in t.observations && o.spec.flow == h.main && o.reply.terminal
                        && o.reply.kind.Destination?
    ensures NoTerminalResponse in t.warnings <==> BaselineAnswered(t.observations) && t.terminalTtl.None?
    ensures NoFirstResponse in t.warnings ==> forall o :: o in t.observations ==> !o.Answered()
    ensures (forall o :: o in t.observations ==> !o.Answered()) ==>
              NoFirstResponse in t.warnings || BudgetExhausted in t.warnings
    ensures NoAmbiguousBoundary in t.warnings
       <==> && BaselineAnswered(t.observations) && h.regions == []
            && forall s :: s in t.segments ==> !s.kind.SilentTail?
  {
    hide *;
    HopsReachLimit(config, t, h);
    TerminalMeans(t.observations, h.main);
    ReportedRemarks(config, t, h);
    RunSteps(config, t, h);
    RemarksOnly(config, t, h, |t.hops|);
    SweptBaseline(config, t, h);
    assert forall o :: o in h.baseline ==> o in t.observations;
    if NoFirstResponse in t.warnings {
      SilentBaseline(h.baseline);
      DarkRun(config, t, h);
    }
    forall s | s in t.segments && s.kind.SilentTail? ensures HasSilentTail(t, |t.hops|) {
      SilentTailIsTheTail(config, t, h, s);
    }
  }

  lemma SilentBaseline(log: Log)
    requires forall o :: o in log ==> !o.Answered()
    ensures !BaselineAnswered(log)
  {
  }

  /** Without global CAP a run has no region exactly when no TTL within the limit shows anything. */
  lemma NoRegionNothingShown(config: TraceConfig, t: TraceResult, h: History)
    requires RunOf(config, t, h) && BaselineAnswered(h.baseline) && !config.globalCap
    ensures h.regions == []
       <==> forall family, k :: family in EVIDENCE_FAMILIES && 1 <= k <= h.limit ==> !Shows(t.observations, family, k)
  {
    hide *;
    if h.regions != [] {
      RegionShows(config, t, h, h.regions[0]);
    }
    if family, k :| family in EVIDENCE_FAMILIES && 1 <= k <= h.limit && Shows(t.observations, family, k) {
      var r, s := SuspicionIsReported(config, t, h, family, k);
    }
  }

  lemma RegionShows(config: TraceConfig, t: TraceResult, h: History, r: Region)
    requires RunOf(config, t, h) && BaselineAnswered(h.baseline) && !config.globalCap && r in h.regions
    ensures exists k :: r.family in EVIDENCE_FAMILIES && 1 <= k <= h.limit && Shows(t.observations, r.family, k)
  {
    hide *;
    RegionsAreStretches(config, t, h);
    var run :| Stretch(t.observations, r.family, h.limit, run) && Surrounds(r, run, h.limit);
    StretchShows(t.observations, r.family, h.limit, run);
  }

  lemma StretchShows(log: Log, family: Family, limit: nat, run: Run)
    requires Stretch(log, family, limit, run)
    ensures 1 <= run.first <= limit && Shows(log, family, run.first)
  {
    hide Shows;
  }
}
