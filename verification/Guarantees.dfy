/** What the report of every uninterrupted run, on every network, can be relied on for. */
module Guarantees {
  import opened Campaigns
  import opened Clusters
  import opened Coverage
  import opened Drawing
  import opened Evidence
  import opened Ledgers
  import opened Measures
  import opened Model
  import opened Regions
  import opened Rounds
  import opened Runs
  import opened Sampling
  import opened Segments
  import opened Sequences
  import opened Settings
  import opened Stats
  import opened Summary
  import opened Sweeps
  import opened TokenReuse
  import opened Tokens
  import opened Verdicts
  import opened Wrappers

  // ---------- From the report back to the regions ----------

  /** The claims of the final list are those of the coalesced regions. */
  lemma ClaimIsSpecial(config: TraceConfig, t: TraceResult, h: History, s: Segment)
    requires RunOf(config, t, h)
    ensures FromRegion(s) ==> (s in t.segments <==> s in h.special)
  {
    TailIsLast(config, t, h, s);
    hide Accounts, Probed, Stepped, Unrefused, Summarized, HopsOf, HasSilentTail, WarningsOf, Remarks;
    UntailedClaims(h.regions, t.observations, t.hops, config, h.special, h.untailed, s);
  }

  lemma UntailedClaims(regions: seq<Region>, log: Log, hops: seq<Hop>, config: TraceConfig, special: seq<Segment>,
                       untailed: seq<Segment>, s: Segment)
    requires config.Valid() && Summarized(regions, log, hops, config, special, untailed)
    ensures FromRegion(s) ==> (s in untailed <==> s in special)
  {
    hide Coalesced, SortBy, DirectEdges, CountIf;
    var n := |hops| - (if |hops| > 0 then 1 else 0);
    DirectEdgesCounted(regions, hops, config, n, 0);
    SortKeepsElements(DirectEdges(regions, hops, config, n) + special, BoundsFirst);
  }

  /** A silent tail adds one claim, which comes from no region. */
  lemma TailIsLast(config: TraceConfig, t: TraceResult, h: History, s: Segment)
    requires RunOf(config, t, h)
    ensures s in h.untailed ==> s in t.segments
    ensures s in t.segments && s !in h.untailed ==>
              && s.kind.SilentTail? && !FromRegion(s)
              && HasSilentTail(t, AnalysisLimit(t.observations, h.main, config.maxHops))
              && s == SilentTailOf(t.observations, AnalysisLimit(t.observations, h.main, config.maxHops), t.probedMax,
                                   t.hops, config)
  {
    hide Accounts, Probed, Stepped, Unrefused, Summarized, HopsOf, SortBy, AnalysisLimit, FirstTerminalTtl, WarningsOf,
         Remarks;
    var limit := AnalysisLimit(t.observations, h.main, config.maxHops);
    if HasSilentTail(t, limit) {
      SortKeepsElements(h.untailed + [SilentTailOf(t.observations, limit, t.probedMax, t.hops, config)],
                        BoundsThenKind);
    }
  }

  /** Every claim from a region has a region behind it ... */
  lemma RegionBehind(config: TraceConfig, t: TraceResult, h: History, s: Segment) returns (r: Region)
    requires RunOf(config, t, h) && s in t.segments && FromRegion(s)
    ensures r in h.regions && Claims(s, r) && ClaimOf(s, Classify(r, t.observations, t.hops, config))
    ensures s.kind == Classify(r, t.observations, t.hops, config).kind
    ensures s.certificate == CertificateOf(r, t.observations, config)
  {
    hide Accounts, Probed, Stepped, Unrefused, Classify, CertificateOf, Coalesced, HopsOf, WarningsOf, Remarks;
    ClaimIsSpecial(config, t, h, s);
    r := RegionOfClaim(h.regions, t.observations, t.hops, config, h.special, s);
  }

  /** ... and every region its claim. */
  lemma ClaimFor(config: TraceConfig, t: TraceResult, h: History, r: Region) returns (s: Segment)
    requires RunOf(config, t, h) && r in h.regions
    ensures s in t.segments && Claims(s, r)
    ensures s.kind == Classify(r, t.observations, t.hops, config).kind
    ensures s.certificate == CertificateOf(r, t.observations, config)
  {
    hide Accounts, Probed, Stepped, Unrefused, Classify, CertificateOf, Coalesced, HopsOf, WarningsOf, Remarks;
    s := ClaimOfRegion(h.regions, t.observations, t.hops, config, h.special, r);
    ClaimIsSpecial(config, t, h, s);
  }

  /** Only regions give claims other than DIRECT and SILENT_TAIL. */
  lemma KindFromRegion(config: TraceConfig, t: TraceResult, h: History, s: Segment)
    requires RunOf(config, t, h) && s in t.segments && !s.kind.Direct? && !s.kind.SilentTail?
    ensures FromRegion(s)
  {
    hide Accounts, Probed, Stepped, Unrefused, Coalesced, HopsOf, SortBy, WarningsOf, Remarks;
    TailIsLast(config, t, h, s);
    var n := |t.hops| - (if |t.hops| > 0 then 1 else 0);
    var direct := DirectEdges(h.regions, t.hops, config, n);
    SortKeepsElements(direct + h.special, BoundsFirst);
    DirectEdgesDirect(h.regions, t.hops, config, n);
    ClaimsOfRegions(h.regions, t.observations, t.hops, config, h.special, 0);
  }

  lemma {:induction false} DirectEdgesDirect(regions: seq<Region>, hops: seq<Hop>, config: TraceConfig, n: nat)
    requires config.Valid()
    ensures forall s :: s in DirectEdges(regions, hops, config, n) ==> s.kind.Direct?
  {
    if n == 0 {
    } else {
      DirectEdgesDirect(regions, hops, config, n - 1);
    }
  }

  lemma RegionWindows(config: TraceConfig, t: TraceResult, h: History)
    requires RunOf(config, t, h)
    ensures AllWindows(h.regions, h.limit)
    ensures h.regions != [] ==> BaselineAnswered(h.baseline)
  {
    hide Accounts, Stepped, Unrefused, Reported, AllWindows, Geometry, FoundRegions, BaselineAnswered, AnalysisLimit;
    if BaselineAnswered(h.baseline) {
      FoundWindows(h.swept, h.limit, h.found);
      LimitPositive(config, t, h);
      GlobalWindow(h.limit);
    } else {
      NoWindows(h.limit);
    }
  }

  lemma LimitIs(config: TraceConfig, t: TraceResult, h: History)
    requires RunOf(config, t, h) && BaselineAnswered(h.baseline)
    ensures h.limit == AnalysisLimit(h.baseline, h.main, config.maxHops)
  {
    hide Accounts, Stepped, Unrefused, Reported, AnalysisLimit, FoundRegions, GrownWithin, Swept;
  }

  lemma LimitPositive(config: TraceConfig, t: TraceResult, h: History)
    requires RunOf(config, t, h) && BaselineAnswered(h.baseline)
    ensures 1 <= h.limit <= h.reach
  {
    hide *;
    BaselineTtls(config, t, h);
    SweptBaseline(config, t, h);
    LimitIs(config, t, h);
    LimitWithinReach(h.baseline, h.main, h.reach, config.maxHops);
  }

  lemma BaselineTtls(config: TraceConfig, t: TraceResult, h: History)
    requires RunOf(config, t, h)
    ensures forall i :: 0 <= i < |h.baseline| ==> 1 <= h.baseline[i].spec.ttl
  {
    SweptBaseline(config, t, h);
    hide Probed, Stepped, Unrefused, Reported, LegalLog, SweepProbes, Cache, MainFlowOf, Swept, OnlyBaseline;
    forall i | 0 <= i < |h.baseline| ensures 1 <= h.baseline[i].spec.ttl {
      assert h.baseline[i] == t.observations[i];
      assert PlanOf(t.observations)[i].ttl >= 1;
    }
  }

  lemma LimitWithinReach(log: Log, main: FlowKey, reach: nat, maxHops: nat)
    requires BaselineAnswered(log) && Swept(PlanOf(log), reach)
    requires forall i :: 0 <= i < |log| ==> 1 <= log[i].spec.ttl
    ensures 1 <= AnalysisLimit(log, main, maxHops) <= reach
  {
    hide Swept, FirstTerminalTtl, LastObservedTtl;
    SeenWithinReach(log, main, reach);
    var o :| o in log && o.Answered();
  }

  // ---------- Accounting ----------

  /** The log never exceeds the budget, the sweep counter counts the baseline and canary probes, no
      sample probes a TTL twice, and a sample keeps one flow and one phase. */
  lemma RunIsAccounted(config: TraceConfig, t: TraceResult, h: History)
    requires RunOf(config, t, h)
    ensures |t.observations| <= config.maxProbes
    ensures t.baselineProbeCount == SweepProbes(PlanOf(t.observations))
    ensures forall i, j :: 0 <= i < j < |t.observations| ==> Separate(t.observations[i].spec, t.observations[j].spec)
  {
    hide Stepped, Probed, Unrefused, Reported, LegalLog, SweepProbes, Cache, MainFlowOf;
    var plan := PlanOf(t.observations);
    forall i, j | 0 <= i < j < |plan| ensures Separate(t.observations[i].spec, t.observations[j].spec) {
      assert plan[i] == t.observations[i].spec.(probeId := 0);
      assert plan[j] == t.observations[j].spec.(probeId := 0);
    }
  }

  ghost predicate Separate(a: ProbeSpec, b: ProbeSpec) {
    a.sampleId == b.sampleId ==> a.flow == b.flow && a.phase == b.phase && a.ttl != b.ttl
  }

  /** Every adaptive sample in the log probed its whole window: one region, or regions sharing one. */
  lemma AdaptiveSamplesAreWhole(config: TraceConfig, t: TraceResult, h: History, i: nat)
    requires RunOf(config, t, h) && BaselineAnswered(h.baseline) && i < |t.observations|
    requires !SweepPhase(t.observations[i].spec.phase)
    ensures WholeSample(PlanOf(t.observations), t.observations[i].spec.(probeId := 0), h.regions, h.clusters)
  {
    hide Accounts, Stepped, Unrefused, Reported, FoundRegions, NoTokenReuse, Swept, AnalysisLimit, WholeSample,
         BaselineAnswered;
    assert PlanOf(t.observations)[i] == t.observations[i].spec.(probeId := 0);
    if i < |h.swept| {
      SweptBySweeps(config, t, h, i);
    }
  }

  lemma SweptBySweeps(config: TraceConfig, t: TraceResult, h: History, i: nat)
    requires RunOf(config, t, h) && BaselineAnswered(h.baseline) && i < |h.swept|
    ensures i < |t.observations| && SweepPhase(t.observations[i].spec.phase)
  {
    hide Accounts, Stepped, Unrefused, Reported, FoundRegions, NoTokenReuse, Swept, AnalysisLimit, WholeSamples,
         BaselineAnswered;
    assert h.swept[i] == t.observations[i] && PlanOf(h.swept)[i].phase == t.observations[i].spec.phase;
    if i < |h.baseline| {
      assert h.baseline[i] == h.swept[i] && PlanOf(h.baseline)[i].phase == t.observations[i].spec.phase;
    }
  }

  // ---------- Refusals and certificates ----------

  lemma WindowProbes(window: Region, limit: nat, maxHops: nat)
    requires Geometry(window, limit) && limit <= maxHops
    ensures |window.probeTtls| <= maxHops
  {
    hide StrictlyIncreasing;
    GeometryIsWindow(window, limit, maxHops);
    WindowSize(window.probeTtls, maxHops);
  }

  lemma WindowsAreWindows(regions: seq<Region>, clusters: seq<seq<Region>>, limit: nat)
    requires AllWindows(regions, limit) && Clustered(InOrder(regions, true), clusters)
    requires forall c :: c in clusters ==> c != []
    ensures AllWindows(Windows(regions, clusters), limit)
  {
    hide InOrder, Clustered, Geometry, Aggregate, AheadOf, Flatten;
    ClustersCover(regions, clusters, limit);
    InOrderWindows(regions, false, limit);
    var shared := Aggregates(clusters);
    forall w | w in shared ensures Geometry(w, limit) {
      var k :| 0 <= k < |shared| && shared[k] == w;
      AggregateCovers(clusters[k], limit);
    }
  }

  lemma RunSteps(config: TraceConfig, t: TraceResult, h: History)
    requires RunOf(config, t, h)
    ensures BaselineOf(config, h.main, h.rounds, h.warned) && h.baseline == LogBefore(h.rounds, |h.rounds|)
    ensures (forall c :: c in h.clusters ==> c != []) && Clustered(InOrder(h.regions, true), h.clusters)
    ensures |h.stages| > 0 && |h.refusals| == |Windows(h.regions, h.clusters)|
    ensures SampledInTurn(config, h.main, Windows(h.regions, h.clusters), h.variants, h.stages, h.refusals)
    ensures h.stages[|h.stages| - 1].plan == PlanOf(t.observations)
    ensures exists limit :: t.warnings == WarningsOf(config, h) + Remarks(t, h.regions, limit)
  {
    hide Accounts, Probed, Unrefused, BaselineOf, Summarized, HopsOf, AnalysisLimit, FirstTerminalTtl, SampledAt,
         Windows, Clustered, InOrder, WarningsOf, Remarks, SortBy, SilentTailOf, HasSilentTail, BaselineAnswered;
    var limit := AnalysisLimit(t.observations, h.main, config.maxHops);
    assert t.warnings == WarningsOf(config, h) + Remarks(t, h.regions, limit);
  }

  /** The baseline warned of its budget only when a chunk of its last round did not fit. */
  lemma BaselineRefused(config: TraceConfig, t: TraceResult, h: History)
    requires RunOf(config, t, h) && BudgetExhausted in h.warned
    ensures |h.baseline| + config.maxHops > config.maxProbes
  {
    hide RunOf, RoundFollows, SweepLimit, FirstTerminalTtl, SampledInTurn, Windows;
    RunSteps(config, t, h);
    RunTtls(config, t, h);
    SweptBaseline(config, t, h);
    LastRefused(config, h.main, h.rounds, h.warned);
  }

  lemma LastRefused(config: TraceConfig, main: FlowKey, rounds: seq<Round>, warned: seq<Warning>)
    requires BaselineOf(config, main, rounds, warned) && BudgetExhausted in warned
    requires forall i :: 0 <= i < |LogBefore(rounds, |rounds|)| ==>
               LogBefore(rounds, |rounds|)[i].spec.ttl <= config.maxHops
    ensures |LogBefore(rounds, |rounds|)| + config.maxHops > config.maxProbes
  {
    hide RoundFollows, SweepLimit, FirstTerminalTtl;
    var k := |rounds| - 1;
    var before := LogBefore(rounds, k);
    assert RoundAt(config, main, rounds, k);
    BeforeIsPrefix(config, main, rounds);
    LimitWithinHops(config, before, k, main);
    RoundRefused(config, main, k + 1, SweepLimit(config, before, k, FirstTerminalTtl(before, main)), before, rounds[k]);
  }

  lemma RunTtls(config: TraceConfig, t: TraceResult, h: History)
    requires RunOf(config, t, h)
    ensures forall i :: 0 <= i < |t.observations| ==> t.observations[i].spec.ttl <= config.maxHops
    ensures |t.observations| <= config.maxProbes
  {
    hide Stepped, Probed, Unrefused, Reported, LegalLog, SweepProbes, Cache, MainFlowOf;
    forall i | 0 <= i < |t.observations| ensures t.observations[i].spec.ttl <= config.maxHops {
      assert PlanOf(t.observations)[i].ttl <= config.maxHops;
    }
  }

  lemma BeforeIsPrefix(config: TraceConfig, main: FlowKey, rounds: seq<Round>)
    requires |rounds| > 0 && RoundsFollow(config, main, rounds)
    ensures LogBefore(rounds, |rounds| - 1) <= LogBefore(rounds, |rounds|)
  {
    hide SweepLimit, FirstTerminalTtl;
    assert RoundAt(config, main, rounds, |rounds| - 1);
  }

  lemma LimitWithinHops(config: TraceConfig, log: Log, round: nat, main: FlowKey)
    requires forall i :: 0 <= i < |log| ==> log[i].spec.ttl <= config.maxHops
    ensures SweepLimit(config, log, round, FirstTerminalTtl(log, main)) <= config.maxHops
  {
    hide FirstTerminalTtl, LastObservedTtl;
  }

  lemma CanaryRefused(config: TraceConfig, t: TraceResult, h: History)
    requires RunOf(config, t, h) && CutShort(config, h)
    ensures |h.swept| <= |t.observations| && |h.swept| + config.maxHops > config.maxProbes
  {
    hide RunOf, Canaries, BaselineAnswered;
    LimitPositive(config, t, h);
    WithinHops(config, t, h);
    RunCanaries(config, t, h);
    CutIsFull(config, h.limit, PlanOf(h.baseline), h.firstCanary, h.variants, PlanOf(h.swept), h.whole, h.part);
  }

  lemma RunCanaries(config: TraceConfig, t: TraceResult, h: History)
    requires RunOf(config, t, h) && BaselineAnswered(h.baseline)
    ensures Canaries(config, h.limit, PlanOf(h.baseline), h.firstCanary, h.variants, PlanOf(h.swept), h.whole, h.part)
    ensures h.swept <= t.observations
  {
    hide Accounts, Stepped, Unrefused, Reported, FoundRegions, GrownWithin, NoTokenReuse, AnalysisLimit, Swept,
         BaselineAnswered, WholeSamples, AllDrawn, Canaries, OnlyBaseline;
  }

  lemma CutIsFull(config: TraceConfig, limit: nat, plan: Plan, firstId: nat, variants: map<nat, FlowKey>, grown: Plan,
                  whole: nat, part: nat)
    requires Canaries(config, limit, plan, firstId, variants, grown, whole, part) && whole < config.canaryFlows
    requires limit <= config.maxHops
    ensures |grown| + config.maxHops > config.maxProbes
  {
    hide Series, Bundle, WholeChunks;
  }

  /** A window was refused only when one more bundle over it would not fit what is left at the end. */
  lemma WindowRefused(config: TraceConfig, t: TraceResult, h: History)
    requires RunOf(config, t, h) && true in h.refusals
    ensures |t.observations| + config.maxHops > config.maxProbes
  {
    hide RunOf, SampledInTurn, Windows, AllWindows, BaselineOf;
    RunSteps(config, t, h);
    var windows := Windows(h.regions, h.clusters);
    EndOfStages(config, h.main, windows, h.variants, h.stages, h.refusals);
    var k :| 0 <= k < |h.refusals| && h.refusals[k];
    RefusalLeavesNoRoom(config, h.main, windows, h.variants, h.stages, h.refusals, k);
    RunWindow(config, t, h, k);
    assert |PlanOf(t.observations)| == |t.observations|;
  }

  lemma RunWindow(config: TraceConfig, t: TraceResult, h: History, k: nat)
    requires RunOf(config, t, h) && (forall c :: c in h.clusters ==> c != [])
    requires k < |Windows(h.regions, h.clusters)|
    ensures |Windows(h.regions, h.clusters)[k].probeTtls| <= config.maxHops
  {
    hide RunOf, Windows, Geometry, BaselineOf, SampledInTurn, InOrder, Clustered, BaselineAnswered;
    RunSteps(config, t, h);
    RegionWindows(config, t, h);
    WithinHops(config, t, h);
    var limit := 0;
    if h.regions != [] {
      LimitPositive(config, t, h);
      limit := h.limit;
    }
    WindowsAreWindows(h.regions, h.clusters, limit);
    assert Windows(h.regions, h.clusters)[k] in Windows(h.regions, h.clusters);
    WindowProbes(Windows(h.regions, h.clusters)[k], limit, config.maxHops);
  }

  lemma WithinHops(config: TraceConfig, t: TraceResult, h: History)
    requires RunOf(config, t, h)
    ensures h.reach <= config.maxHops
  {
    hide Accounts, Stepped, Unrefused, Reported, FoundRegions, GrownWithin, NoTokenReuse, AnalysisLimit, Swept,
         BaselineAnswered, WholeSamples, AllDrawn, Clustered, Canaries, OnlyBaseline;
  }

  /** A budget warning is true: whatever was refused, the final log leaves no room for one more probe at
      every TTL. So a run with that much room left has refused nothing. */
  lemma WarningMeansFull(config: TraceConfig, t: TraceResult, h: History)
    requires RunOf(config, t, h) && BudgetExhausted in t.warnings
    ensures |t.observations| + config.maxHops > config.maxProbes
  {
    hide *;
    WarningOfRun(config, t, h);
    SweptBaseline(config, t, h);
    if BudgetExhausted in h.warned {
      BaselineRefused(config, t, h);
    } else if CutShort(config, h) {
      CanaryRefused(config, t, h);
    } else {
      WindowRefused(config, t, h);
    }
  }

  /** Where a budget warning comes from. */
  lemma WarningOfRun(config: TraceConfig, t: TraceResult, h: History)
    requires RunOf(config, t, h) && BudgetExhausted in t.warnings
    ensures BudgetExhausted in h.warned || CutShort(config, h) || true in h.refusals
  {
    hide *;
    RunSteps(config, t, h);
    var limit :| t.warnings == WarningsOf(config, h) + Remarks(t, h.regions, limit);
    WarningSource(config, t, h, limit);
  }

  lemma WarningSource(config: TraceConfig, t: TraceResult, h: History, limit: nat)
    requires BudgetExhausted in WarningsOf(config, h) + Remarks(t, h.regions, limit)
    ensures BudgetExhausted in h.warned || CutShort(config, h) || true in h.refusals
  {
    hide Refusals, CutShort, HasSilentTail, BaselineAnswered;
    RefusalsAre(h.refusals);
  }

  /** A region is left uncertified only when the budget refused something: a warning says so, and the log
      leaves no room for one more probe at every TTL. */
  lemma UncertifiedIsExplained(config: TraceConfig, t: TraceResult, h: History, s: Segment)
    requires RunOf(config, t, h) && s in t.segments && FromRegion(s) && !s.certificate.certified
    ensures BudgetExhausted in t.warnings && |t.observations| + config.maxHops > config.maxProbes
  {
    var r := RegionBehind(config, t, h, s);
    if BudgetExhausted !in t.warnings {
      RegionWindows(config, t, h);
      SatisfiedRegion(config, t, h, r);
      hide RunOf, CertificateOf, Classify;
      CertifiedByCounts(r, t.observations, config);
    } else {
      WarningMeansFull(config, t, h);
    }
  }

  lemma SatisfiedRegion(config: TraceConfig, t: TraceResult, h: History, r: Region)
    requires RunOf(config, t, h) && r in h.regions && BudgetExhausted !in t.warnings
    ensures r.probeTtls != [] && Satisfied(PlanOf(t.observations), r.probeTtls, r.variantCoverage, config)
  {
    RegionWindows(config, t, h);
    hide Accounts, Stepped, Probed, Reported, Satisfied;
    assert Geometry(r, h.limit);
  }

  // ---------- The limit ----------

  /** Nothing after the baseline is probed beyond the limit it set. */
  lemma NothingBeyondLimit(config: TraceConfig, t: TraceResult, h: History, i: nat)
    requires RunOf(config, t, h) && BaselineAnswered(h.baseline) && |h.baseline| <= i < |t.observations|
    ensures t.observations[i].spec.ttl <= h.limit
    ensures !t.observations[i].spec.phase.BaselineFixed?
  {
    hide Accounts, Stepped, Unrefused, Reported, FoundRegions, AnalysisLimit, Swept, NoTokenReuse, BaselineAnswered;
    var plan, swept := PlanOf(t.observations), PlanOf(h.swept);
    assert plan[i].ttl == t.observations[i].spec.ttl;
    if i < |h.swept| {
      assert h.swept[i] == t.observations[i];
      assert swept[i] == plan[i];
    }
  }

  /** So the analysis limit can only come down, and without a terminal reply it stays. */
  lemma LimitOnlyComesDown(config: TraceConfig, t: TraceResult, h: History)
    requires RunOf(config, t, h) && BaselineAnswered(h.baseline)
    ensures AnalysisLimit(t.observations, h.main, config.maxHops) <= h.limit
    ensures t.terminalTtl.None? ==> AnalysisLimit(t.observations, h.main, config.maxHops) == h.limit
    ensures |t.hops| <= h.limit
  {
    LegalParts(config, t, h);
    AnsweredIsObserved(h.baseline);
    LaterWithinLimit(config, t, h);
    HopsReachLimit(config, t, h);
    LimitIs(config, t, h);
    hide *;
    SuffixWithinLimit(h.baseline, t.observations, h.main, config.maxHops);
  }

  lemma SuffixWithinLimit(log: Log, whole: Log, main: FlowKey, maxHops: nat)
    requires log <= whole && LegalLog(log) && LegalLog(whole[|log|..]) && LastObservedTtl(log).Some?
    requires forall i :: |log| <= i < |whole| ==> whole[i].spec.ttl <= AnalysisLimit(log, main, maxHops)
    ensures AnalysisLimit(whole, main, maxHops) <= AnalysisLimit(log, main, maxHops)
    ensures FirstTerminalTtl(whole, main).None?
            ==> AnalysisLimit(whole, main, maxHops) == AnalysisLimit(log, main, maxHops)
  {
    hide AnalysisLimit, FirstTerminalTtl, LastObservedTtl, LegalLog;
    var more := whole[|log|..];
    assert whole == log + more;
    AnalysisLimitNeverGrows(log, more, main, maxHops);
  }

  lemma LaterWithinLimit(config: TraceConfig, t: TraceResult, h: History)
    requires RunOf(config, t, h) && BaselineAnswered(h.baseline)
    ensures forall i :: |h.baseline| <= i < |t.observations| ==> t.observations[i].spec.ttl <= h.limit
  {
    hide *;
    forall i | |h.baseline| <= i < |t.observations| ensures t.observations[i].spec.ttl <= h.limit {
      NothingBeyondLimit(config, t, h, i);
    }
  }

  lemma HopsReachLimit(config: TraceConfig, t: TraceResult, h: History)
    requires RunOf(config, t, h)
    ensures |t.hops| == AnalysisLimit(t.observations, h.main, config.maxHops)
    ensures t.terminalTtl == FirstTerminalTtl(t.observations, h.main)
  {
    hide Accounts, Probed, Stepped, Unrefused, AnalysisLimit, FirstTerminalTtl, WarningsOf, Remarks;
  }

  lemma LegalParts(config: TraceConfig, t: TraceResult, h: History)
    requires RunOf(config, t, h)
    ensures h.baseline <= t.observations && LegalLog(h.baseline) && LegalLog(t.observations[|h.baseline|..])
  {
    hide Stepped, Unrefused, Reported, FoundRegions, GrownWithin, NoTokenReuse, Swept, Accounted, SweepProbes, Cache,
         MainFlowOf, AnalysisLimit, BaselineAnswered;
    forall i | 0 <= i < |h.baseline| ensures h.baseline[i] == t.observations[i] {
    }
  }

  lemma AnsweredIsObserved(log: Log)
    requires BaselineAnswered(log)
    ensures LastObservedTtl(log).Some?
  {
    hide LastObservedTtl;
    var o :| o in log && o.Answered();
  }

  // ---------- Full path cover ----------

  lemma {:induction false} RunStart(s: set<nat>, k: nat) returns (first: nat)
    requires k in s && 0 !in s
    ensures 1 <= first <= k && first - 1 !in s && forall t :: first <= t <= k ==> t in s
    decreases k
  {
    if k - 1 in s {
      first := RunStart(s, k - 1);
    } else {
      first := k;
    }
  }

  lemma {:induction false} RunEnd(s: set<nat>, k: nat, limit: nat) returns (last: nat)
    requires k in s && k <= limit && forall t :: t in s ==> t <= limit
    ensures k <= last <= limit && last + 1 !in s && forall t :: k <= t <= last ==> t in s
    decreases limit - k
  {
    if k + 1 in s {
      last := RunEnd(s, k + 1, limit);
    } else {
      last := k;
    }
  }

  /** A marked TTL lies in a window of its family, and so do the edges on both sides of it. */
  lemma MarkedIsCovered(log: Log, limit: nat, regions: seq<Region>, family: Family, k: nat) returns (r: Region)
    requires FoundRegions(log, limit, regions) && family in EVIDENCE_FAMILIES && k in Marked(log, limit, family)
    ensures r in regions && r.family == family && r.first <= k <= r.last
    ensures (k > 1 ==> r.first <= k - 1) && (k < limit ==> k + 1 <= r.last)
    ensures exists run :: MaximalRun(Marked(log, limit, family), run) && run.last <= limit && run.first <= k <= run.last
              && r == Regions.Window(family, run, limit)
  {
    hide Suspicious, FromRun;
    var s := Marked(log, limit, family);
    var first := RunStart(s, k);
    var last := RunEnd(s, k, limit);
    var run := Run(first, last);
    assert MaximalRun(s, run);
    assert HasWindow(regions, family, run, limit);
    r := Regions.Window(family, run, limit);
  }

  /** Where the main flow was never answered the baseline was silent, and silence is marked. */
  lemma SilenceIsMarked(log: Log, limit: nat, k: nat)
    requires 1 <= k <= limit
    requires Samples(log, BaselineFixed, k) != [] && !AnyAnswered(Samples(log, BaselineFixed, k))
    ensures k in Marked(log, limit, VisibilityIntermittent) || k in Marked(log, limit, VisibilitySilent)
  {
    var fixed, canary := Samples(log, BaselineFixed, k), Samples(log, CanaryVaried, k);
    assert fixed[0] in fixed + canary && !fixed[0].Answered() by {
      assert fixed[0] in fixed;
    }
    assert Triggers(VisibilityIntermittent, fixed, canary) || Triggers(VisibilitySilent, fixed, canary);
    assert Suspicious(log, VisibilityIntermittent, k) || Suspicious(log, VisibilitySilent, k);
  }

  /** Every TTL within the limit was probed by the baseline. */
  lemma BaselineProbed(config: TraceConfig, t: TraceResult, h: History, k: nat)
    requires RunOf(config, t, h) && BaselineAnswered(h.baseline) && 1 <= k <= h.limit
    ensures Samples(h.swept, BaselineFixed, k) != []
  {
    hide *;
    LimitPositive(config, t, h);
    SweptBaseline(config, t, h);
    SweptShows(h.baseline, h.swept, h.main, h.reach, k);
  }

  lemma SweptShows(baseline: Log, swept: Log, main: FlowKey, reach: nat, k: nat)
    requires Swept(PlanOf(baseline), reach) && OnlyBaseline(PlanOf(baseline), main) && baseline <= swept
    requires 1 <= k <= reach
    ensures Samples(swept, BaselineFixed, k) != []
  {
    hide Samples;
    var plan := PlanOf(baseline);
    assert k in TtlsOf(plan, false, 1);
    var i :| 0 <= i < |plan| && plan[i].ttl == k;
    assert baseline[i] == swept[i] && plan[i].phase.BaselineFixed?;
    assert swept[i] in Samples(swept, BaselineFixed, k);
  }

  /** The baseline probes the main flow only, so its answers are the main flow's. */
  lemma BaselineIsMain(config: TraceConfig, t: TraceResult, h: History, o: Observation, k: nat)
    requires RunOf(config, t, h) && BaselineAnswered(h.baseline) && o in Samples(h.swept, BaselineFixed, k)
    ensures o in t.observations && o.spec.flow == h.main && o.spec.ttl == k && o in h.baseline
  {
    hide Accounts, Stepped, Unrefused, Reported, FoundRegions, GrownWithin, NoTokenReuse, AnalysisLimit, Swept,
         BaselineAnswered;
    var i :| 0 <= i < |h.swept| && h.swept[i] == o;
    assert t.observations[i] == o;
    assert PlanOf(h.swept)[i].phase.BaselineFixed?;
    assert h.baseline[i] == o;
    assert PlanOf(h.baseline)[i].flow == h.main;
  }

  lemma UnseenIsCovered(config: TraceConfig, t: TraceResult, h: History, ttl: nat, k: nat)
    requires RunOf(config, t, h) && BaselineAnswered(h.baseline) && !config.globalCap
    requires 1 <= ttl < h.limit && (k == ttl || k == ttl + 1) && !AnsweredOnMain(t.observations, k, h.main)
    ensures Covered(h.regions, ttl)
  {
    BaselineProbed(config, t, h, k);
    forall o | o in Samples(h.swept, BaselineFixed, k) ensures !o.Answered() {
      BaselineIsMain(config, t, h, o, k);
    }
    SilenceIsMarked(h.swept, h.limit, k);
    hide Accounts, Stepped, Unrefused, Reported, GrownWithin, NoTokenReuse, AnalysisLimit, Swept, BaselineAnswered,
         Samples, Marked, FoundRegions;
    var family :=
      if k in Marked(h.swept, h.limit, VisibilityIntermittent) then VisibilityIntermittent else VisibilitySilent;
    var r := MarkedIsCovered(h.swept, h.limit, h.found, family, k);
  }

  /** Full path cover: with an answered baseline, each edge of the final hop list is inside a region's
      claim or has exactly one rapid-sweep DIRECT claim, never both and never neither. */
  lemma PathIsCovered(config: TraceConfig, t: TraceResult, h: History, ttl: nat)
    requires RunOf(config, t, h) && BaselineAnswered(h.baseline) && 1 <= ttl < |t.hops|
    ensures EdgeClaimed(t.segments, ttl)
  {
    LimitOnlyComesDown(config, t, h);
    assert Covered(h.regions, ttl) || ClearEdge(h.regions, t.hops, ttl) by {
      CoveredOrClear(config, t, h, ttl);
    }
    hide Accounts, Probed, Stepped, Unrefused, Covered, ClearEdge, HopsOf, Coalesced, AnalysisLimit, WarningsOf,
         Remarks;
    EdgesAreClaimed(h.regions, t.observations, t.hops, config, h.special, h.untailed, ttl);
    TailClaimsNoEdge(config, t, h, ttl);
  }

  /** Without an answer to the baseline nothing is claimed at all. */
  lemma NothingIsClaimedInTheDark(config: TraceConfig, t: TraceResult, h: History)
    requires RunOf(config, t, h) && !BaselineAnswered(h.baseline)
    ensures t.segments == []
  {
    DarkRun(config, t, h);
    forall ttl: nat ensures !ClearEdge(h.regions, t.hops, ttl) {
      NoPrimaryInTheDark(config, t, h, ttl);
    }
    hide Accounts, Probed, Stepped, Unrefused, HopsOf, AnalysisLimit, FirstTerminalTtl, BaselineAnswered, ClearEdge,
         WarningsOf, Remarks, Summarized, SortBy, SilentTailOf, ReachedDestination, ProbedMax;
    NothingSummarized(t.observations, t.hops, config, h.special, h.untailed);
  }

  lemma NothingSummarized(log: Log, hops: seq<Hop>, config: TraceConfig, special: seq<Segment>,
                          segments: seq<Segment>)
    requires config.Valid() && Summarized([], log, hops, config, special, segments)
    requires forall ttl: nat :: !ClearEdge([], hops, ttl)
    ensures segments == []
  {
    hide ClearEdge, Coalesced, Classify;
    var n := |hops| - (if |hops| > 0 then 1 else 0);
    NoDirectEdges([], hops, config, n);
    NothingCoalesced(ClassifyAll([], log, hops, config), special);
    assert DirectEdges([], hops, config, n) + special == [];
  }

  lemma NothingCoalesced(segments: seq<Segment>, merged: seq<Segment>)
    requires Coalesced(segments, merged)
    ensures segments == [] ==> merged == []
  {
    assert |KeysOf(merged)| == |merged|;
  }

  lemma DarkRun(config: TraceConfig, t: TraceResult, h: History)
    requires RunOf(config, t, h) && !BaselineAnswered(h.baseline)
    ensures h.regions == [] && t.observations == h.baseline && OnlyBaseline(PlanOf(t.observations), h.main)
  {
    hide Accounts, Stepped, Unrefused, Reported, FoundRegions, GrownWithin, NoTokenReuse, Swept, AnalysisLimit,
         OnlyBaseline;
  }

  lemma NoPrimaryInTheDark(config: TraceConfig, t: TraceResult, h: History, ttl: nat)
    requires RunOf(config, t, h) && !BaselineAnswered(h.baseline)
    requires t.observations == h.baseline && OnlyBaseline(PlanOf(t.observations), h.main)
    ensures !ClearEdge(h.regions, t.hops, ttl)
  {
    hide *;
    ReportIsLegal(config, t, h);
    DarkLog(t.observations, h.main, ttl);
    NoPrimaryNoEdge(t.observations, h.main, t.hops, h.regions, ttl);
  }

  lemma NoPrimaryNoEdge(log: Log, main: FlowKey, hops: seq<Hop>, regions: seq<Region>, ttl: nat)
    requires LegalLog(log) && HopsOf(log, |hops|, main, hops) && !AnsweredOnMain(log, ttl, main)
    ensures !ClearEdge(regions, hops, ttl)
  {
    hide SummarizeHop, LegalLog, AnsweredOnMain, Covered;
    PrimaryIffAnswered(log, ttl, main);
  }

  lemma DarkLog(log: Log, main: FlowKey, ttl: nat)
    requires OnlyBaseline(PlanOf(log), main) && !BaselineAnswered(log)
    ensures !AnsweredOnMain(log, ttl, main)
  {
    forall o | o in log ensures !o.Answered() {
      var i :| 0 <= i < |log| && log[i] == o;
      assert PlanOf(log)[i].phase.BaselineFixed?;
    }
  }

  lemma {:induction false} NoDirectEdges(regions: seq<Region>, hops: seq<Hop>, config: TraceConfig, n: nat)
    requires config.Valid() && forall ttl: nat :: !ClearEdge(regions, hops, ttl)
    ensures DirectEdges(regions, hops, config, n) == []
  {
    if n == 0 {
    } else {
      NoDirectEdges(regions, hops, config, n - 1);
    }
  }

  lemma CoveredOrClear(config: TraceConfig, t: TraceResult, h: History, ttl: nat)
    requires RunOf(config, t, h) && BaselineAnswered(h.baseline) && 1 <= ttl < |t.hops| <= h.limit
    ensures Covered(h.regions, ttl) || ClearEdge(h.regions, t.hops, ttl)
  {
    ReportIsLegal(config, t, h);
    hide RunOf, BaselineAnswered, HopsOf, LegalLog, AnsweredOnMain, ClearEdge;
    if config.globalCap {
      GlobalIsProbed(config, t, h);
      assert GlobalRegion(h.limit) in h.regions;
    } else if !AnsweredOnMain(t.observations, ttl, h.main) {
      UnseenIsCovered(config, t, h, ttl, ttl);
    } else if !AnsweredOnMain(t.observations, ttl + 1, h.main) {
      UnseenIsCovered(config, t, h, ttl, ttl + 1);
    } else {
      AnsweredEnds(t.observations, h.main, t.hops, h.regions, ttl);
    }
  }

  lemma AnsweredEnds(log: Log, main: FlowKey, hops: seq<Hop>, regions: seq<Region>, ttl: nat)
    requires LegalLog(log) && HopsOf(log, |hops|, main, hops) && 1 <= ttl < |hops|
    requires AnsweredOnMain(log, ttl, main) && AnsweredOnMain(log, ttl + 1, main)
    ensures Covered(regions, ttl) || ClearEdge(regions, hops, ttl)
  {
    hide SummarizeHop, LegalLog, AnsweredOnMain, Covered;
    PrimaryIffAnswered(log, ttl, main);
    PrimaryIffAnswered(log, ttl + 1, main);
  }

  lemma TailClaimsNoEdge(config: TraceConfig, t: TraceResult, h: History, ttl: nat)
    requires RunOf(config, t, h)
    ensures EdgeClaimed(h.untailed, ttl) ==> EdgeClaimed(t.segments, ttl)
  {
    hide Accounts, Probed, Stepped, Unrefused, Summarized, HopsOf, AnalysisLimit, FirstTerminalTtl, SortBy, CountIf,
         WarningsOf, Remarks;
    var limit := AnalysisLimit(t.observations, h.main, config.maxHops);
    if HasSilentTail(t, limit) {
      var tail := SilentTailOf(t.observations, limit, t.probedMax, t.hops, config);
      var at := (s: Segment) => RapidAt(s, ttl);
      CountSnoc(h.untailed, tail, at);
      CountSorted(h.untailed + [tail], BoundsThenKind, at);
      SortKeepsElements(h.untailed + [tail], BoundsThenKind);
    }
  }

  /** A rapid-sweep DIRECT claims only what was seen: its ends are adjacent hops of the list, both
      answered on the main flow, named by their most frequent responders. It counts the probes of the main
      flow at its two ends, so it is certified only if both were sent as many as the bound requires. */
  lemma DirectSegmentsAreObserved(config: TraceConfig, t: TraceResult, h: History, s: Segment)
    requires RunOf(config, t, h) && s in t.segments && s.certificate.basis.RapidSweepObservation?
    ensures ObservedEdge(s, t.hops, config) && EdgeCounts(s, t.observations, h.main, config)
    ensures AnsweredOnMain(t.observations, s.first, h.main) && AnsweredOnMain(t.observations, s.last, h.main)
  {
    hide *;
    RapidIsObserved(config, t, h, s);
    RapidIsCounted(config, t, h, s);
    ReportIsLegal(config, t, h);
    EdgeEndsAnswered(t.observations, h.main, t.hops, s, config);
  }

  lemma RapidIsCounted(config: TraceConfig, t: TraceResult, h: History, s: Segment)
    requires RunOf(config, t, h) && s in t.segments && s.certificate.basis.RapidSweepObservation?
    ensures config.Valid() && EdgeCounts(s, t.observations, h.main, config)
  {
    TailIsLast(config, t, h, s);
    ReportIsLegal(config, t, h);
    hide Accounts, Probed, Stepped, Unrefused, Summarized, HopsOf, AnalysisLimit, FirstTerminalTtl, EdgeCounts,
         HasSilentTail, WarningsOf, Remarks, LegalLog;
    UntailedEdge(h.regions, t.observations, h.main, t.hops, config, h.special, h.untailed, s);
  }

  lemma UntailedEdge(regions: seq<Region>, log: Log, main: FlowKey, hops: seq<Hop>, config: TraceConfig,
                     special: seq<Segment>, untailed: seq<Segment>, s: Segment)
    requires config.Valid() && Summarized(regions, log, hops, config, special, untailed)
    requires LegalLog(log) && HopsOf(log, |hops|, main, hops)
    requires s in untailed && s.certificate.basis.RapidSweepObservation?
    ensures EdgeCounts(s, log, main, config)
  {
    hide Coalesced, SortBy, DirectEdges, EdgeCounts, ClassifyAll, LegalLog, HopsOf;
    var n := |hops| - (if |hops| > 0 then 1 else 0);
    SortKeepsElements(DirectEdges(regions, hops, config, n) + special, BoundsFirst);
    ClaimsOfRegions(regions, log, hops, config, special, 0);
    EdgesExactly(regions, log, main, hops, config, n, s);
  }

  lemma EdgeEndsAnswered(log: Log, main: FlowKey, hops: seq<Hop>, s: Segment, config: TraceConfig)
    requires config.Valid() && LegalLog(log) && HopsOf(log, |hops|, main, hops) && ObservedEdge(s, hops, config)
    ensures AnsweredOnMain(log, s.first, main) && AnsweredOnMain(log, s.last, main)
  {
    hide SummarizeHop, LegalLog, AnsweredOnMain;
    PrimaryIffAnswered(log, s.first, main);
    PrimaryIffAnswered(log, s.last, main);
  }

  lemma RapidIsObserved(config: TraceConfig, t: TraceResult, h: History, s: Segment)
    requires RunOf(config, t, h) && s in t.segments && s.certificate.basis.RapidSweepObservation?
    ensures ObservedEdge(s, t.hops, config)
  {
    TailIsLast(config, t, h, s);
    hide Accounts, Probed, Stepped, Unrefused, Summarized, HopsOf, AnalysisLimit, FirstTerminalTtl, ObservedEdge,
         HasSilentTail, WarningsOf, Remarks;
    UntailedRapid(h.regions, t.observations, t.hops, config, h.special, h.untailed, s);
  }

  lemma UntailedRapid(regions: seq<Region>, log: Log, hops: seq<Hop>, config: TraceConfig, special: seq<Segment>,
                      untailed: seq<Segment>, s: Segment)
    requires config.Valid() && Summarized(regions, log, hops, config, special, untailed)
    requires s in untailed && s.certificate.basis.RapidSweepObservation?
    ensures ObservedEdge(s, hops, config)
  {
    hide Coalesced, SortBy, DirectEdges, ObservedEdge, ClassifyAll;
    var n := |hops| - (if |hops| > 0 then 1 else 0);
    SortKeepsElements(DirectEdges(regions, hops, config, n) + special, BoundsFirst);
    DirectEdgesObserved(regions, hops, config, n);
    ClaimsOfRegions(regions, log, hops, config, special, 0);
  }

  // ---------- OPAQUE and UNSTABLE ----------

  lemma ReportIsLegal(config: TraceConfig, t: TraceResult, h: History)
    requires RunOf(config, t, h)
    ensures config.Valid() && LegalLog(t.observations) && HopsOf(t.observations, |t.hops|, h.main, t.hops)
  {
    hide Probed, Stepped, Unrefused, Summarized, AnalysisLimit, Accounted, SweepProbes, Cache, MainFlowOf, WarningsOf,
         Remarks;
  }

  /** OPAQUE is bounded in every report: both ends were answered on the main flow, and a TTL strictly
      between them was probed and never answered on any flow. */
  lemma OpaqueSegmentsAreBounded(config: TraceConfig, t: TraceResult, h: History, s: Segment)
    requires RunOf(config, t, h) && s in t.segments && s.kind.Opaque?
    ensures OpaqueBounded(s, t.observations, h.main)
  {
    KindFromRegion(config, t, h, s);
    var r := RegionBehind(config, t, h, s);
    RegionWindows(config, t, h);
    ReportIsLegal(config, t, h);
    hide Accounts, Probed, Stepped, Unrefused, Reported, Classify, CertificateOf, HopsOf, LegalLog, Geometry,
         AnsweredOnMain, ProbedInVain;
    OpaqueIsBounded(r, t.observations, h.main, t.hops, h.limit, |t.hops|, config);
    ClassifyKeepsBounds(r, t.observations, t.hops, config);
  }

  lemma ClassifyKeepsBounds(r: Region, log: Log, hops: seq<Hop>, config: TraceConfig)
    requires config.Valid()
    ensures Classify(r, log, hops, config).first == r.first && Classify(r, log, hops, config).last == r.last
  {
    hide Verdict, FindingsOf, CertificateOf;
  }

  /** Fixed evidence is the main flow's and varied evidence never is. */
  lemma FixedFlowIsMain(config: TraceConfig, t: TraceResult, h: History)
    requires RunOf(config, t, h)
    ensures FixedIsMain(t.observations, h.main)
  {
    hide Probed, Stepped, Unrefused, Reported, SweepProbes;
    var plan := PlanOf(t.observations);
    forall o | o in t.observations ensures !Varied(o.spec) <==> o.spec.flow == h.main {
      var i :| 0 <= i < |t.observations| && t.observations[i] == o;
      assert RightFlow(plan[i], h.main, h.variants);
    }
  }

  /** UNSTABLE is sound: two different addresses answered the main flow at a TTL of the segment, so
      silence alone never makes it. */
  lemma UnstableSegmentsAreSound(config: TraceConfig, t: TraceResult, h: History, s: Segment)
    requires RunOf(config, t, h) && s in t.segments && s.kind.Unstable?
    ensures exists k :: s.first <= k <= s.last && TwoMainResponders(t.observations, k, h.main)
  {
    KindFromRegion(config, t, h, s);
    var r := RegionBehind(config, t, h, s);
    RegionWindows(config, t, h);
    FixedFlowIsMain(config, t, h);
    hide Accounts, Probed, Stepped, Unrefused, Reported, Classify, CertificateOf, FixedIsMain, TwoMainResponders;
    UnstableIsSound(r, t.observations, h.main, t.hops, config);
    var k :| k in r.probeTtls && TwoMainResponders(t.observations, k, h.main);
    assert Geometry(r, h.limit);
  }

  /** DIRECT is exact for regions: every probe at every TTL probed for the region was answered, by one
      address whatever its flow, and whole samples of the main flow and of a variant cover it; only a
      rewrite the region minds can still take it away. */
  lemma DirectSegmentsAreUniform(config: TraceConfig, t: TraceResult, h: History, s: Segment) returns (r: Region)
    requires RunOf(config, t, h) && s in t.segments && FromRegion(s)
    ensures r in h.regions && Claims(s, r)
    ensures s.kind.Direct?
       <==> Uniform(t.observations, r.probeTtls) && !(MindsRewrites(r) && Rewritten(t.observations, r.probeTtls))
  {
    r := RegionBehind(config, t, h, s);
    RegionWindows(config, t, h);
    ReportIsLegal(config, t, h);
    hide RunOf, Classify, Uniform, Rewritten, LegalLog, HopsOf, Claims;
    assert Geometry(r, h.limit);
    DirectExactly(r, t.observations, t.hops, config);
  }

  /** With global CAP a DIRECT claim from the region is about the whole path: at every TTL up to the limit
      one address answered every probe of the run. */
  lemma GlobalDirectIsOnePath(config: TraceConfig, t: TraceResult, h: History, s: Segment)
    requires RunOf(config, t, h) && config.globalCap && BaselineAnswered(h.baseline)
    requires s in t.segments && FromRegion(s) && s.kind.Direct?
    ensures s.first == 1 && s.last == h.limit
    ensures forall k :: 1 <= k <= h.limit ==> OneAnswerer(t.observations, k)
  {
    hide RunOf, BaselineAnswered, OneAnswerer, Rewritten;
    var r := DirectSegmentsAreUniform(config, t, h, s);
    GlobalIsProbed(config, t, h);
    assert r == GlobalRegion(h.limit);
    RangeElements(1, h.limit);
  }

  /** OPAQUE is complete for silence: a TTL within the limit that answered neither baseline nor canaries
      lies in a silent window, whose segment is OPAQUE exactly when its ends, on the hop list, were
      answered on the main flow and some TTL probed in it never answered on any flow. */
  lemma OpaqueSegmentsAreComplete(config: TraceConfig, t: TraceResult, h: History, k: nat)
    returns (r: Region, s: Segment)
    requires RunOf(config, t, h) && BaselineAnswered(h.baseline) && !config.globalCap && 1 <= k <= h.limit
    requires SilentInSweeps(h.swept, k)
    ensures r in h.regions && r.family.VisibilitySilent? && r.first <= k <= r.last
    ensures s in t.segments && Claims(s, r)
    ensures s.kind.Opaque?
       <==> s.last <= |t.hops| && AnsweredOnMain(t.observations, s.first, h.main)
            && AnsweredOnMain(t.observations, s.last, h.main)
            && exists u :: u in r.probeTtls && ProbedInVain(t.observations, u)
  {
    hide RunOf, BaselineAnswered, SilentInSweeps, FoundRegions, Marked, Classify, AnsweredOnMain, ProbedInVain,
         LegalLog, HopsOf, CertificateOf;
    BaselineProbed(config, t, h, k);
    SilentIsMarked(h.swept, h.limit, k);
    FoundAreProbed(config, t, h);
    r := MarkedIsCovered(h.swept, h.limit, h.regions, VisibilitySilent, k);
    s := ClaimFor(config, t, h, r);
    RegionWindows(config, t, h);
    ReportIsLegal(config, t, h);
    assert Geometry(r, h.limit);
    OpaqueExactly(r, t.observations, h.main, t.hops, config);
  }

  /** Neither the baseline nor a canary was answered there. */
  ghost predicate SilentInSweeps(log: Log, ttl: nat) {
    forall o :: o in log && o.spec.ttl == ttl && SweepPhase(o.spec.phase) ==> !o.Answered()
  }

  lemma SilentIsMarked(log: Log, limit: nat, k: nat)
    requires 1 <= k <= limit && SilentInSweeps(log, k) && Samples(log, BaselineFixed, k) != []
    ensures k in Marked(log, limit, VisibilitySilent)
  {
    var fixed, canary := Samples(log, BaselineFixed, k), Samples(log, CanaryVaried, k);
    assert Triggers(VisibilitySilent, fixed, canary);
    assert Suspicious(log, VisibilitySilent, k);
  }

  /** Stability in a report: every segment of a region shows 1 exactly when the main flow was answered
      at a TTL probed for it and had two responders at none. */
  lemma StableSegmentsHaveOneResponder(config: TraceConfig, t: TraceResult, h: History, s: Segment) returns (r: Region)
    requires RunOf(config, t, h) && s in t.segments && FromRegion(s)
    ensures r in h.regions && Claims(s, r)
    ensures s.stability == Some(1.0) <==> SteadilyAnswered(t.observations, r.probeTtls, h.main)
  {
    r := RegionBehind(config, t, h, s);
    FixedFlowIsMain(config, t, h);
    ReportIsLegal(config, t, h);
    hide RunOf, Classify, FixedIsMain, SteadilyAnswered, LegalLog, HopsOf;
    StableInTheLog(r, t.observations, h.main, t.hops, config);
  }

  /** MULTIPATH is sound: two different addresses answered flow variants at a TTL of the segment. */
  lemma MultipathSegmentsAreSound(config: TraceConfig, t: TraceResult, h: History, s: Segment)
    requires RunOf(config, t, h) && s in t.segments && s.kind.MultipathFlow?
    ensures exists k :: s.first <= k <= s.last && TwoVariantResponders(t.observations, k)
  {
    KindFromRegion(config, t, h, s);
    var r := RegionBehind(config, t, h, s);
    RegionWindows(config, t, h);
    hide Accounts, Probed, Stepped, Unrefused, Reported, Classify, CertificateOf, TwoVariantResponders;
    MultipathIsSound(r, t.observations, t.hops, config);
    var k :| k in r.probeTtls && TwoVariantResponders(t.observations, k);
    assert Geometry(r, h.limit);
  }

  lemma SamplesShowTwo(config: TraceConfig, t: TraceResult, h: History, k: nat)
    requires RunOf(config, t, h) && BaselineAnswered(h.baseline)
    requires |Responders(Samples(h.swept, BaselineFixed, k))| > 1
    ensures TwoMainResponders(t.observations, k, h.main)
  {
    hide *;
    var a, b := TwoShown(Samples(h.swept, BaselineFixed, k));
    BaselineIsMain(config, t, h, a, k);
    BaselineIsMain(config, t, h, b, k);
    TwoOnMain(t.observations, k, h.main, a, b);
  }

  lemma TwoShown(log: Log) returns (a: Observation, b: Observation)
    requires |Responders(log)| > 1
    ensures a in log && b in log && a.reply.responder.Some? && b.reply.responder.Some?
    ensures a.reply.responder != b.reply.responder
  {
    TwoAddresses(Responders(log));
    var x, y :| x in Responders(log) && y in Responders(log) && x != y;
    a :| a in log && a.reply.responder == Some(x);
    b :| b in log && b.reply.responder == Some(y);
  }

  lemma TwoOnMain(log: Log, k: nat, main: FlowKey, a: Observation, b: Observation)
    requires a in log && b in log && a.spec.ttl == k && b.spec.ttl == k && a.spec.flow == main && b.spec.flow == main
    requires a.reply.responder.Some? && b.reply.responder.Some? && a.reply.responder != b.reply.responder
    ensures TwoMainResponders(log, k, main)
  {
  }

  lemma BaselineLogIsSampled(config: TraceConfig, t: TraceResult, h: History, o: Observation)
    requires RunOf(config, t, h) && o in h.baseline
    ensures o in t.observations && o.spec.flow == h.main && o in Samples(h.swept, BaselineFixed, o.spec.ttl)
  {
    hide Accounts, Stepped, Unrefused, Reported, FoundRegions, GrownWithin, NoTokenReuse, Swept, BaselineAnswered,
         AnalysisLimit;
    var i :| 0 <= i < |h.baseline| && h.baseline[i] == o;
    assert h.swept[i] == o && t.observations[i] == o;
    assert PlanOf(h.baseline)[i].phase.BaselineFixed?;
  }

  lemma TwoRespondersAreMarked(config: TraceConfig, t: TraceResult, h: History, k: nat)
    requires RunOf(config, t, h) && TwoMainResponders(h.baseline, k, h.main) && 1 <= k <= h.limit
    ensures k in Marked(h.swept, h.limit, Temporal)
  {
    hide RunOf;
    var a, b :| && a in h.baseline && b in h.baseline && a.spec.ttl == k && b.spec.ttl == k
                && a.spec.flow == h.main && b.spec.flow == h.main
                && a.reply.responder.Some? && b.reply.responder.Some?
                && a.reply.responder != b.reply.responder;
    BaselineLogIsSampled(config, t, h, a);
    BaselineLogIsSampled(config, t, h, b);
    TwoInSamples(h.swept, k, h.limit, a, b);
  }

  lemma TwoInSamples(log: Log, k: nat, limit: nat, a: Observation, b: Observation)
    requires a in Samples(log, BaselineFixed, k) && b in Samples(log, BaselineFixed, k) && 1 <= k <= limit
    requires a.reply.responder.Some? && b.reply.responder.Some? && a.reply.responder != b.reply.responder
    ensures k in Marked(log, limit, Temporal)
  {
    hide Samples;
    var here := Samples(log, BaselineFixed, k);
    assert a.reply.responder.value in Responders(here) && b.reply.responder.value in Responders(here);
    TwoAddresses(Responders(here));
    assert Triggers(Temporal, here, Samples(log, CanaryVaried, k));
    assert Suspicious(log, Temporal, k);
  }

  /** UNSTABLE is complete for the baseline: two responders at a TTL within the limit always surface as
      an UNSTABLE segment over that TTL, with or without global CAP. */
  lemma UnstableSegmentsAreComplete(config: TraceConfig, t: TraceResult, h: History, k: nat) returns (s: Segment)
    requires RunOf(config, t, h) && BaselineAnswered(h.baseline)
    requires TwoMainResponders(h.baseline, k, h.main) && 1 <= k <= h.limit
    ensures s in t.segments && s.kind.Unstable? && s.first <= k <= s.last
  {
    var r, seen := UnstableRegion(config, t, h, k);
    FixedFlowIsMain(config, t, h);
    s := ClaimFor(config, t, h, r);
    hide Accounts, Probed, Stepped, Unrefused, Reported, Classify, CertificateOf, FixedIsMain, TwoMainResponders;
    UnstableIsComplete(r, t.observations, h.main, t.hops, config, seen);
  }

  lemma UnstableRegion(config: TraceConfig, t: TraceResult, h: History, k: nat) returns (r: Region, seen: nat)
    requires RunOf(config, t, h) && BaselineAnswered(h.baseline)
    requires TwoMainResponders(h.baseline, k, h.main) && 1 <= k <= h.limit
    ensures r in h.regions && (r.family.Temporal? || r.family.GlobalCap?) && r.first <= k <= r.last
    ensures seen in r.probeTtls && TwoMainResponders(t.observations, seen, h.main)
  {
    hide *;
    TwoRespondersAreMarked(config, t, h, k);
    if config.globalCap {
      r, seen := GlobalRegion(h.limit), k;
      MarkedIsTwo(h.swept, h.limit, k);
      SamplesShowTwo(config, t, h, k);
      GlobalIsProbed(config, t, h);
      GlobalProbesAll(h.limit, k);
    } else {
      FoundAreProbed(config, t, h);
      r, seen := TemporalWindow(h.swept, h.limit, h.regions, k);
      MarkedIsTwo(h.swept, h.limit, seen);
      SamplesShowTwo(config, t, h, seen);
    }
  }

  lemma GlobalProbesAll(limit: nat, k: nat)
    requires 1 <= k <= limit
    ensures k in GlobalRegion(limit).probeTtls && GlobalRegion(limit).family.GlobalCap?
    ensures GlobalRegion(limit).first <= k <= GlobalRegion(limit).last
  {
    RangeElements(1, limit);
  }

  /** The window around a temporal run is probed at the start of the run, itself a marked TTL. */
  lemma TemporalWindow(log: Log, limit: nat, regions: seq<Region>, k: nat) returns (r: Region, seen: nat)
    requires FoundRegions(log, limit, regions) && k in Marked(log, limit, Temporal)
    ensures r in regions && r.family.Temporal? && r.first <= k <= r.last
    ensures seen in r.probeTtls && seen in Marked(log, limit, Temporal)
  {
    hide FoundRegions, Marked, Regions.Window;
    r := MarkedIsCovered(log, limit, regions, Temporal, k);
    var run :| MaximalRun(Marked(log, limit, Temporal), run) && run.last <= limit && run.first <= k <= run.last
               && r == Regions.Window(Temporal, run, limit);
    WindowGeometry(Temporal, run, limit);
    seen := run.first;
  }

  lemma MarkedIsTwo(log: Log, limit: nat, k: nat)
    requires k in Marked(log, limit, Temporal)
    ensures |Responders(Samples(log, BaselineFixed, k))| > 1
  {
  }

  lemma GlobalIsProbed(config: TraceConfig, t: TraceResult, h: History)
    requires RunOf(config, t, h) && BaselineAnswered(h.baseline) && config.globalCap
    ensures h.regions == [GlobalRegion(h.limit)]
  {
    hide Accounts, Stepped, Unrefused, Reported, FoundRegions, GrownWithin, NoTokenReuse, Swept, AnalysisLimit;
  }

  lemma FoundAreProbed(config: TraceConfig, t: TraceResult, h: History)
    requires RunOf(config, t, h) && BaselineAnswered(h.baseline) && !config.globalCap
    ensures h.regions == h.found && FoundRegions(h.swept, h.limit, h.regions)
  {
    hide Accounts, Stepped, Unrefused, Reported, FoundRegions, GrownWithin, NoTokenReuse, Swept, AnalysisLimit;
  }

  // ---------- Silent tails ----------

  lemma SilentTailIsTheTail(config: TraceConfig, t: TraceResult, h: History, s: Segment)
    requires RunOf(config, t, h) && s in t.segments && s.kind.SilentTail?
    ensures var limit := AnalysisLimit(t.observations, h.main, config.maxHops);
            HasSilentTail(t, limit) && s == SilentTailOf(t.observations, limit, t.probedMax, t.hops, config)
  {
    TailIsLast(config, t, h, s);
    if s in h.untailed {
      UntailedNotSilent(config, t, h, s);
    }
  }

  lemma UntailedNotSilent(config: TraceConfig, t: TraceResult, h: History, s: Segment)
    requires RunOf(config, t, h) && s in h.untailed
    ensures !s.kind.SilentTail?
  {
    hide Accounts, Probed, Stepped, Unrefused, Coalesced, HopsOf, SortBy, Classify, AnalysisLimit, FirstTerminalTtl,
         WarningsOf, Remarks;
    var n := |t.hops| - (if |t.hops| > 0 then 1 else 0);
    var direct := DirectEdges(h.regions, t.hops, config, n);
    SortKeepsElements(direct + h.special, BoundsFirst);
    DirectEdgesDirect(h.regions, t.hops, config, n);
    if s in h.special {
      var r := RegionOfClaim(h.regions, t.observations, t.hops, config, h.special, s);
      NeverClassifiedSilent(r, t.observations, t.hops, config);
    }
  }

  lemma NeverClassifiedSilent(r: Region, log: Log, hops: seq<Hop>, config: TraceConfig)
    requires config.Valid()
    ensures !Classify(r, log, hops, config).kind.SilentTail?
  {
    VerdictNotSilent(r, FindingsOf(r, log, hops));
    hide Verdict, FindingsOf, CertificateOf, InWindow, NearestVisible, SampleSignatures, MostCommon, ModalAnswers,
         AnswersWithAddress, CarriesMpls, BranchesOf, CountIf, Distinct;
  }

  lemma VerdictNotSilent(r: Region, f: Findings)
    ensures !Verdict(r, f).0.SilentTail?
  {
  }

  lemma BaselineWasAnswered(config: TraceConfig, t: TraceResult, h: History)
    requires RunOf(config, t, h) && BaselineAnswered(t.observations)
    ensures BaselineAnswered(h.baseline)
  {
    hide Accounts, Stepped, Unrefused, Reported, FoundRegions, GrownWithin, NoTokenReuse, Swept, AnalysisLimit,
         BaselineAnswered;
  }

  lemma ReachBounds(config: TraceConfig, t: TraceResult, h: History, i: nat)
    requires RunOf(config, t, h) && BaselineAnswered(h.baseline) && i < |t.observations|
    ensures t.observations[i].spec.ttl <= h.reach
  {
    LimitPositive(config, t, h);
    if i >= |h.baseline| {
      NothingBeyondLimit(config, t, h, i);
    } else {
      hide Accounts, Stepped, Unrefused, Reported, FoundRegions, GrownWithin, NoTokenReuse, AnalysisLimit,
           BaselineAnswered;
      assert PlanOf(h.baseline)[i].ttl <= h.reach;
      assert h.baseline[i] == t.observations[i];
    }
  }

  lemma FirstSampleCovers(config: TraceConfig, t: TraceResult, h: History, first: nat, last: nat)
    requires RunOf(config, t, h) && BaselineAnswered(h.baseline) && 1 <= first <= last <= h.reach
    ensures |CompleteSamples(PlanOf(t.observations), Elements(Range(first, last)), false)| >= 1
  {
    hide *;
    SweptBaseline(config, t, h);
    var more := PlanOf(t.observations)[|h.baseline|..];
    assert PlanOf(t.observations) == PlanOf(h.baseline) + more;
    SweptSample(PlanOf(h.baseline), more, h.reach, first, last);
  }

  lemma SweptSample(plan: Plan, more: Plan, reach: nat, first: nat, last: nat)
    requires Swept(plan, reach) && 1 <= first <= last <= reach
    ensures |CompleteSamples(plan + more, Elements(Range(first, last)), false)| >= 1
  {
    hide CompleteSamples, TtlsOf;
    var window := Elements(Range(first, last));
    RangeElements(first, last);
    TtlsOfAppend(plan, more, false, 1);
    assert first in window;
    CompleteIffTtls(plan + more, window, false, 1);
    SubsetCount({1}, CompleteSamples(plan + more, window, false));
  }

  lemma SweptBaseline(config: TraceConfig, t: TraceResult, h: History)
    requires RunOf(config, t, h)
    ensures Swept(PlanOf(h.baseline), h.reach) && OnlyBaseline(PlanOf(h.baseline), h.main)
    ensures h.baseline <= h.swept || !BaselineAnswered(h.baseline)
    ensures h.baseline <= t.observations
  {
    hide Accounts, Stepped, Unrefused, Reported, FoundRegions, GrownWithin, NoTokenReuse, AnalysisLimit,
         BaselineAnswered, Swept;
  }

  /** A silent tail is what it says: nothing beyond its first TTL ever answered, at least one sweep of
      the main flow covered it whole, it certifies nothing, and no region reaches into it. */
  lemma SilentTailIsSilent(config: TraceConfig, t: TraceResult, h: History, s: Segment)
    requires RunOf(config, t, h) && s in t.segments && s.kind.SilentTail?
    ensures s.first < s.last == t.probedMax && !s.certificate.certified && s.egress.None?
    ensures forall o :: o in t.observations && o.spec.ttl > s.first ==> !o.Answered()
    ensures s.certificate.sampleCount >= 1
    ensures forall claim :: claim in t.segments && FromRegion(claim) ==> claim.last <= s.first
  {
    hide RunOf, AnalysisLimit, CompleteSamples, AllWindows, FromRegion, BaselineAnswered, ProbedMax, NearestVisible;
    var limit := AnalysisLimit(t.observations, h.main, config.maxHops);
    SilentTailIsTheTail(config, t, h, s);
    BaselineWasAnswered(config, t, h);
    LimitOnlyComesDown(config, t, h);
    TailBounds(config, t, h);
    FirstSampleCovers(config, t, h, limit + 1, t.probedMax);
    SilenceBeyond(t.observations, h.main, config.maxHops);
    forall claim | claim in t.segments && FromRegion(claim) ensures claim.last <= s.first {
      ClaimsEndByLimit(config, t, h, claim);
    }
  }

  lemma ClaimsEndByLimit(config: TraceConfig, t: TraceResult, h: History, claim: Segment)
    requires RunOf(config, t, h) && claim in t.segments && FromRegion(claim)
    ensures claim.last <= h.limit
  {
    hide RunOf, AllWindows;
    var r := RegionBehind(config, t, h, claim);
    RegionWindows(config, t, h);
    InWindows(h.regions, r, h.limit);
  }

  lemma InWindows(regions: seq<Region>, r: Region, limit: nat)
    requires AllWindows(regions, limit) && r in regions
    ensures r.last <= limit
  {
  }

  lemma TailBounds(config: TraceConfig, t: TraceResult, h: History)
    requires RunOf(config, t, h) && BaselineAnswered(h.baseline)
    ensures t.probedMax <= h.reach && t.terminalTtl == FirstTerminalTtl(t.observations, h.main)
    ensures AnsweredSomewhere(t.observations)
  {
    HopsReachLimit(config, t, h);
    BaselineShows(config, t, h);
    assert t.probedMax == ProbedMax(t.observations) by {
      hide Accounts, Probed, Stepped, Unrefused, WarningsOf, Remarks;
    }
    hide RunOf, ProbedMax;
    if ProbedMax(t.observations) > 0 {
      var i :| 0 <= i < |t.observations| && t.observations[i].spec.ttl == ProbedMax(t.observations);
      ReachBounds(config, t, h, i);
    }
  }

  ghost predicate AnsweredSomewhere(log: Log) {
    exists i :: 0 <= i < |log| && log[i].Answered()
  }

  lemma BaselineShows(config: TraceConfig, t: TraceResult, h: History)
    requires RunOf(config, t, h) && BaselineAnswered(h.baseline)
    ensures AnsweredSomewhere(t.observations)
  {
    hide RunOf, Swept;
    SweptBaseline(config, t, h);
    SomeAnswer(h.baseline, t.observations);
  }

  lemma SomeAnswer(log: Log, whole: Log)
    requires BaselineAnswered(log) && log <= whole
    ensures AnsweredSomewhere(whole)
  {
    var o :| o in log && o.Answered();
    var i :| 0 <= i < |log| && log[i] == o;
    assert whole[i] == log[i];
  }

  lemma SilenceBeyond(log: Log, main: FlowKey, maxHops: nat)
    requires FirstTerminalTtl(log, main).None? && AnsweredSomewhere(log)
    ensures forall o :: o in log && o.spec.ttl > AnalysisLimit(log, main, maxHops) ==> !o.Answered()
  {
    hide FirstTerminalTtl, LastObservedTtl;
  }

  // ---------- Certified regions and their tokens ----------

  ghost predicate TokensOfSamples(plan: Plan, ids: seq<nat>, tokens: seq<nat>) {
    |tokens| == |ids| && forall k :: 0 <= k < |ids| ==> SampleToken(plan, ids[k], tokens[k])
  }

  lemma CompleteSampleHasToken(plan: Plan, main: FlowKey, variants: map<nat, FlowKey>, used: set<nat>,
                               nextSampleId: nat, maxTtl: nat, window: set<nat>, id: nat)
    returns (token: nat)
    requires Accounted(plan, main, variants, nextSampleId, maxTtl) && Cache(main, variants, used)
    requires id in CompleteSamples(plan, window, true)
    ensures SampleToken(plan, id, token) && token in FreePool(main)
  {
    var i :| 0 <= i < |plan| && Varied(plan[i]) && plan[i].sampleId == id;
    token := plan[i].flow.Token();
    assert RightFlow(plan[i], main, variants);
  }

  /** The tokens of the complete samples of a window that repeats none are a draw without replacement
      from the free pool. */
  lemma {:induction false} TokensAreADraw(plan: Plan, main: FlowKey, variants: map<nat, FlowKey>, used: set<nat>,
                                          nextSampleId: nat, maxTtl: nat, window: set<nat>, ids: seq<nat>)
    returns (tokens: seq<nat>)
    requires Accounted(plan, main, variants, nextSampleId, maxTtl) && Cache(main, variants, used)
    requires !RepeatsToken(plan, window)
    requires forall i, j :: 0 <= i < j < |ids| ==> ids[i] != ids[j]
    requires forall id :: id in ids ==> id in CompleteSamples(plan, window, true)
    ensures TokensOfSamples(plan, ids, tokens)
    ensures NoDuplicates(tokens) && forall token :: token in tokens ==> token in FreePool(main)
  {
    hide Accounted, Cache, CompleteSamples, SampleToken, FreePool;
    if ids == [] {
      tokens := [];
    } else {
      var last := |ids| - 1;
      var front := TokensAreADraw(plan, main, variants, used, nextSampleId, maxTtl, window, ids[..last]);
      var token := CompleteSampleHasToken(plan, main, variants, used, nextSampleId, maxTtl, window, ids[last]);
      tokens := front + [token];
      forall k | 0 <= k < last ensures front[k] != token {
        assert SampleToken(plan, ids[..last][k], front[k]);
        assert !SharedToken(plan, window, ids[k], ids[last], token);
      }
    }
  }

  lemma CoverageClaim(config: TraceConfig, t: TraceResult, h: History, s: Segment) returns (r: Region)
    requires RunOf(config, t, h) && s in t.segments && s.certificate.basis.FlowVariantCoverage?
    ensures r in h.regions && r.variantCoverage && s.first == r.first && s.last == r.last && r.probeTtls != []
    ensures s.certificate == CertificateOf(r, t.observations, config)
    ensures BaselineAnswered(h.baseline) && config.Valid()
  {
    r := RegionBehind(config, t, h, s);
    RegionWindows(config, t, h);
    hide RunOf, Classify;
    assert Geometry(r, h.limit);
  }

  /** What the log of a run says of its varied samples. */
  ghost predicate RunSamples(config: TraceConfig, t: TraceResult, h: History) {
    VariedSamples(PlanOf(t.observations), h.main, h.variants, h.used, h.nextSampleId, config.maxHops,
                  h.firstCanary, h.whole, h.part, h.limit)
  }

  lemma RunTokens(config: TraceConfig, t: TraceResult, h: History)
    requires RunOf(config, t, h) && BaselineAnswered(h.baseline)
    ensures RunSamples(config, t, h)
  {
    hide Stepped, Unrefused, Reported, FoundRegions, NoTokenReuse, AnalysisLimit, Swept, Accounted, SweepProbes,
         BaselineAnswered, CanaryLaw, OnlyBaseline, Canaries, Cached, AllDrawn, WholeSamples, Clustered;
    CacheIsNumbered(h.main, h.variants, h.used);
    CanariesFollowLaw(config, h.limit, PlanOf(h.baseline), h.firstCanary, h.main, h.variants, PlanOf(h.swept), h.whole,
                      h.part);
    forall i | |h.swept| <= i < |t.observations| ensures !PlanOf(t.observations)[i].phase.CanaryVaried? {
      assert !SweepPhase(PlanOf(t.observations)[i].phase);
    }
    LawPersists(PlanOf(h.swept), PlanOf(t.observations), h.firstCanary, h.whole, h.part, h.limit);
  }

  lemma CacheIsNumbered(main: FlowKey, variants: map<nat, FlowKey>, used: set<nat>)
    requires Cache(main, variants, used)
    ensures Cached(variants)
  {
  }

  /** The cut is visible in the log: canary probes are those of `whole` complete sweeps and of `part`
      TTLs of the next variant, and all canaries were sent exactly when nothing was cut. */
  lemma CutIsInTheLog(config: TraceConfig, t: TraceResult, h: History, variant: nat, ttl: nat)
    requires RunOf(config, t, h) && BaselineAnswered(h.baseline)
    ensures CanaryAt(PlanOf(t.observations), variant, ttl) <==> SweptByCanary(variant, ttl, h.whole, h.part, h.limit)
    ensures CanariesSent(PlanOf(t.observations), config.canaryFlows, h.limit) <==> h.whole == config.canaryFlows
    ensures CanariesSent(PlanOf(t.observations), config.canaryFlows, h.limit) ==> h.part == 0
  {
    RunTokens(config, t, h);
    LimitPositive(config, t, h);
    var plan := PlanOf(t.observations);
    CanaryIsSwept(plan, h.firstCanary, h.whole, h.part, h.limit, variant, ttl);
    CutBounds(config, t, h);
    hide RunOf, CanaryLaw;
    SentIffWhole(plan, h.firstCanary, h.whole, h.part, h.limit, config.canaryFlows);
  }

  lemma CutBounds(config: TraceConfig, t: TraceResult, h: History)
    requires RunOf(config, t, h) && BaselineAnswered(h.baseline)
    ensures h.whole <= config.canaryFlows
    ensures if h.whole == config.canaryFlows then h.part == 0 else h.part < h.limit
  {
    hide Accounts, Stepped, Unrefused, Reported, FoundRegions, GrownWithin, NoTokenReuse, AnalysisLimit, Swept, Series,
         Bundle, BaselineAnswered, AllDrawn, WholeSamples, Clustered;
  }

  /** A region that wants variants, and the cluster it was sampled with. */
  ghost predicate SampledWith(h: History, r: Region, cluster: seq<Region>) {
    r in h.regions && r.variantCoverage && cluster in h.clusters && r in cluster
  }

  lemma ClustersDrawn(config: TraceConfig, t: TraceResult, h: History)
    requires RunOf(config, t, h) && BaselineAnswered(h.baseline)
    ensures Clustered(InOrder(h.regions, true), h.clusters)
    ensures AllDrawn(PlanOf(t.observations), h.clusters, h.whole, h.part)
  {
    hide Accounts, Unrefused, Reported, FoundRegions, GrownWithin, NoTokenReuse, AnalysisLimit, Swept, BaselineAnswered,
         WholeSamples, InOrder, Canaries, Clustered, AllDrawn;
  }

  lemma ClusterOf(config: TraceConfig, t: TraceResult, h: History, r: Region) returns (cluster: seq<Region>)
    requires RunOf(config, t, h) && r in h.regions && r.variantCoverage
    ensures SampledWith(h, r, cluster)
  {
    RegionWindows(config, t, h);
    ClustersDrawn(config, t, h);
    hide RunOf, Clustered, InOrder, AllDrawn, AllWindows;
    cluster := ClusterWith(h.regions, h.clusters, r);
  }

  lemma ClusterWith(regions: seq<Region>, clusters: seq<seq<Region>>, r: Region) returns (cluster: seq<Region>)
    requires Clustered(InOrder(regions, true), clusters) && r in regions && r.variantCoverage
    ensures cluster in clusters && r in cluster
  {
    hide InOrder, Linked, Flatten, Apart;
    InOrderKeeps(regions, true);
    FlattenElements(clusters);
    assert r in InOrder(regions, true);
    var k :| 0 <= k < |clusters| && r in clusters[k];
    cluster := clusters[k];
  }

  /** The windows of a region and of its cluster, and what the cluster drew. */
  lemma ClusterFacts(config: TraceConfig, t: TraceResult, h: History, r: Region, cluster: seq<Region>)
    requires RunOf(config, t, h) && SampledWith(h, r, cluster)
    ensures r.probeTtls != [] && cluster != []
    ensures forall k :: k in r.probeTtls ==> k in Aggregate(cluster).probeTtls && k >= 1
    ensures forall part: nat :: BelowCut(r.probeTtls, part) <==> r.last <= part
    ensures forall part: nat :: BelowCut(Aggregate(cluster).probeTtls, part) <==> Highest(cluster) <= part
    ensures DrawnOn(PlanOf(t.observations), cluster, h.whole, h.part)
  {
    RegionWindows(config, t, h);
    ClustersDrawn(config, t, h);
    hide RunOf, Clustered, InOrder, AllWindows, ClusterWindows, AheadOf, Flatten, DrawnOn, Aggregate, Highest, BelowCut;
    ClustersCover(h.regions, h.clusters, h.limit);
    ClusterWindow(h.clusters, cluster, h.limit);
    MemberOfWindow(r, cluster, h.limit);
  }

  lemma MemberOfWindow(r: Region, cluster: seq<Region>, limit: nat)
    requires cluster != [] && AllWindows(cluster, limit) && r in cluster
    ensures r.probeTtls != [] && forall k :: k in r.probeTtls ==> k in Aggregate(cluster).probeTtls && k >= 1
    ensures forall part: nat :: BelowCut(r.probeTtls, part) <==> r.last <= part
    ensures forall part: nat :: BelowCut(Aggregate(cluster).probeTtls, part) <==> Highest(cluster) <= part
  {
    hide Aggregate, Highest, BelowCut;
    AggregateCovers(cluster, limit);
    WindowCut(r, cluster, limit);
    WindowCut(Aggregate(cluster), [Aggregate(cluster)], limit);
    assert ProbedWithin(r, Aggregate(cluster));
  }

  lemma ClusterWindow(clusters: seq<seq<Region>>, cluster: seq<Region>, limit: nat)
    requires ClusterWindows(clusters, limit) && cluster in clusters
    ensures cluster != [] && AllWindows(cluster, limit)
  {
  }

  lemma WindowCut(r: Region, regions: seq<Region>, limit: nat)
    requires AllWindows(regions, limit) && r in regions
    ensures r.probeTtls != [] && forall k :: k in r.probeTtls ==> k >= 1
    ensures forall part: nat :: BelowCut(r.probeTtls, part) <==> r.last <= part
  {
  }

  /** When a certificate counts a token twice, for every region of every run: exactly when the budget
      cut a canary short at or above the region's end and below the end of its cluster's window, and
      the cluster drew a variant. */
  lemma TokensRepeatExactly(config: TraceConfig, t: TraceResult, h: History, r: Region, cluster: seq<Region>)
    requires RunOf(config, t, h) && SampledWith(h, r, cluster)
    ensures cluster != []
    ensures RepeatsToken(PlanOf(t.observations), Elements(r.probeTtls))
       <==> r.last <= h.part < Highest(cluster) && Drew(PlanOf(t.observations), Aggregate(cluster).probeTtls)
  {
    RegionWindows(config, t, h);
    RunTokens(config, t, h);
    ClusterFacts(config, t, h, r, cluster);
    hide RunOf, VariedSamples, Aggregate, DrawnInOrder, FirstVariant, RepeatsToken, BelowCut, Drew, Highest,
         SampledWith;
    RepeatsExactlyAcrossCut(PlanOf(t.observations), h.main, h.variants, h.used, h.nextSampleId, config.maxHops,
                            h.firstCanary, h.whole, h.part, h.limit, r.probeTtls, Aggregate(cluster).probeTtls);
  }

  /** The budget cut a canary short at or above `last` and below the end of the cluster's window, and
      the cluster drew a variant. */
  ghost predicate CutInside(t: TraceResult, h: History, cluster: seq<Region>, last: nat) {
    && cluster != [] && last <= h.part < Highest(cluster)
    && Drew(PlanOf(t.observations), Aggregate(cluster).probeTtls)
  }

  /** The segment ends below the cut and shares its samples with a region that ends above it. */
  ghost predicate AcrossTheCut(t: TraceResult, h: History, s: Segment) {
    exists r, cluster :: SampledWith(h, r, cluster) && r.first == s.first && r.last == s.last
                         && CutInside(t, h, cluster, s.last)
  }

  /** So a coverage certificate counts a token twice exactly when its segment lies across the cut, and
      never when all canaries were sent. */
  lemma CertificateRepeatsExactly(config: TraceConfig, t: TraceResult, h: History, s: Segment) returns (r: Region)
    requires RunOf(config, t, h) && s in t.segments && s.certificate.basis.FlowVariantCoverage?
    ensures r in h.regions && r.variantCoverage && s.first == r.first && s.last == r.last && r.probeTtls != []
    ensures s.certificate == CertificateOf(r, t.observations, config)
    ensures RepeatsToken(PlanOf(t.observations), Elements(r.probeTtls)) <==> AcrossTheCut(t, h, s)
    ensures CanariesSent(PlanOf(t.observations), config.canaryFlows, h.limit) ==> !AcrossTheCut(t, h, s)
  {
    r := CoverageClaim(config, t, h, s);
    var cluster := ClusterOf(config, t, h, r);
    TokensRepeatExactly(config, t, h, r, cluster);
    CutIsInTheLog(config, t, h, 0, 0);
    ClaimIsPositive(config, t, h, r);
    hide RunOf, RepeatsToken, SampledWith, CanariesSent, CutInside, BaselineAnswered, CertificateOf;
    CutInsideIs(t, h, cluster, s.last);
    forall twin, other | SampledWith(h, twin, other) && twin.first == s.first && twin.last == s.last
      ensures other == cluster
    {
      SameCluster(config, t, h, r, cluster, twin, other);
    }
  }

  lemma CutInsideIs(t: TraceResult, h: History, cluster: seq<Region>, last: nat)
    requires cluster != []
    ensures CutInside(t, h, cluster, last)
       <==> last <= h.part < Highest(cluster) && Drew(PlanOf(t.observations), Aggregate(cluster).probeTtls)
    ensures last > 0 && h.part == 0 ==> forall other :: !CutInside(t, h, other, last)
  {
  }

  lemma ClaimIsPositive(config: TraceConfig, t: TraceResult, h: History, r: Region)
    requires RunOf(config, t, h) && r in h.regions
    ensures r.last > 0
  {
    RegionWindows(config, t, h);
    hide RunOf;
    assert Geometry(r, h.limit);
  }

  /** Regions with the same bounds share their cluster. */
  lemma SameCluster(config: TraceConfig, t: TraceResult, h: History, a: Region, first: seq<Region>,
                    b: Region, second: seq<Region>)
    requires RunOf(config, t, h) && SampledWith(h, a, first) && SampledWith(h, b, second)
    requires a.first == b.first && a.last == b.last
    ensures first == second
  {
    RegionWindows(config, t, h);
    ClustersDrawn(config, t, h);
    hide RunOf, InOrder, Clustered, AllWindows, AllDrawn;
    ClustersApart(h.regions, h.clusters, h.limit, a, first, b, second);
  }

  lemma ClustersApart(regions: seq<Region>, clusters: seq<seq<Region>>, limit: nat, a: Region, first: seq<Region>,
                      b: Region, second: seq<Region>)
    requires Clustered(InOrder(regions, true), clusters) && AllWindows(regions, limit) && a in regions
    requires first in clusters && second in clusters && a in first && b in second && a.first == b.first
    requires a.last == b.last
    ensures first == second
  {
    hide InOrder, Linked, Flatten;
    assert Geometry(a, limit);
    var i :| 0 <= i < |clusters| && clusters[i] == first;
    var j :| 0 <= j < |clusters| && clusters[j] == second;
    assert i < j ==> Before(first, second);
    assert j < i ==> Before(second, first);
  }

  /** Sampling without replacement: unless its segment lies across the cut, the complete varied samples
      behind a coverage certificate are on pairwise distinct tokens, none of them the main flow's. */
  lemma CoverageIsADraw(config: TraceConfig, t: TraceResult, h: History, s: Segment)
    returns (ttls: seq<nat>, ids: seq<nat>, tokens: seq<nat>)
    requires RunOf(config, t, h) && s in t.segments && s.certificate.basis.FlowVariantCoverage?
    requires CanariesSent(PlanOf(t.observations), config.canaryFlows, h.limit) || !AcrossTheCut(t, h, s)
    ensures ttls != [] && forall k :: k in ttls ==> s.first <= k <= s.last
    ensures forall id :: id in ids <==> id in CompleteSamples(PlanOf(t.observations), Elements(ttls), true)
    ensures |ids| == s.certificate.sampleCount && TokensOfSamples(PlanOf(t.observations), ids, tokens)
    ensures tokens in Draws(FreePool(h.main), s.certificate.sampleCount)
  {
    hide RunOf, TokensOfSamples, FreePool, Draws, AllWindows, BaselineAnswered, RepeatsToken, AcrossTheCut,
         CanariesSent, RunSamples, CertificateOf;
    var r := CertificateRepeatsExactly(config, t, h, s);
    RegionWindows(config, t, h);
    RunTokens(config, t, h);
    WindowOfClaim(config, t, h, r);
    ttls := r.probeTtls;
    ids, tokens := WindowDraw(t, config, h, r);
  }

  lemma WindowOfClaim(config: TraceConfig, t: TraceResult, h: History, r: Region)
    requires RunOf(config, t, h) && r in h.regions
    ensures forall k :: k in r.probeTtls ==> r.first <= k <= r.last
    ensures config.Valid()
  {
    RegionWindows(config, t, h);
    assert config.Valid();
    hide RunOf, StrictlyIncreasing;
    assert Geometry(r, h.limit);
  }

  lemma WindowDraw(t: TraceResult, config: TraceConfig, h: History, r: Region) returns (ids: seq<nat>, tokens: seq<nat>)
    requires config.Valid() && r.probeTtls != [] && r.variantCoverage && RunSamples(config, t, h)
    requires !RepeatsToken(PlanOf(t.observations), Elements(r.probeTtls))
    ensures forall id :: id in ids <==> id in CompleteSamples(PlanOf(t.observations), Elements(r.probeTtls), true)
    ensures |ids| == CertificateOf(r, t.observations, config).sampleCount
    ensures TokensOfSamples(PlanOf(t.observations), ids, tokens) && tokens in Draws(FreePool(h.main), |ids|)
  {
    hide Accounted, Cache, NoTokenReuse, CompleteSamples, TokensOfSamples, FreePool, CompleteIds, InWindow, Draws,
         RepeatsToken, CanaryLaw;
    var log, ttls := t.observations, r.probeTtls;
    var plan := PlanOf(log);
    ids := CompleteIds(InWindow(log, ttls, true), ttls);
    CompleteIdsDiffer(InWindow(log, ttls, true), ttls);
    forall id ensures id in ids <==> id in CompleteSamples(plan, Elements(ttls), true) {
      CompleteIffCovered(log, ttls, true, id);
    }
    tokens := TokensAreADraw(plan, h.main, h.variants, h.used, h.nextSampleId, config.maxHops, Elements(ttls), ids);
    SameLength(plan, ids, tokens);
    DrawsAreDraws(FreePool(h.main), |ids|, tokens);
  }

  lemma SameLength(plan: Plan, ids: seq<nat>, tokens: seq<nat>)
    requires TokensOfSamples(plan, ids, tokens)
    ensures |tokens| == |ids|
  {
  }

  /** The joined result. Let at least a fraction p of the free tokens take some hidden branch. A
      certified coverage region not across the cut is a draw of distinct tokens, and of all equally
      likely draws of its size at most a fraction delta miss the branch entirely. */
  lemma CertifiedMissIsUnlikely(config: TraceConfig, t: TraceResult, h: History, s: Segment, branch: set<nat>)
    returns (ids: seq<nat>, tokens: seq<nat>)
    requires RunOf(config, t, h)
    requires s in t.segments && s.certificate.basis.FlowVariantCoverage? && s.certificate.certified
    requires CanariesSent(PlanOf(t.observations), config.canaryFlows, h.limit) || !AcrossTheCut(t, h, s)
    requires branch <= FreePool(h.main)
    requires |branch| as real >= Times(config.minDetectable, |FreePool(h.main)| as real)
    ensures |ids| == s.certificate.sampleCount && TokensOfSamples(PlanOf(t.observations), ids, tokens)
    ensures tokens in Draws(FreePool(h.main), |ids|)
    ensures |Draws(FreePool(h.main) - branch, |ids|)| as real
            <= Times(config.missProbability, |Draws(FreePool(h.main), |ids|)| as real)
  {
    var ttls;
    ttls, ids, tokens := CoverageIsADraw(config, t, h, s);
    var r := CoverageClaim(config, t, h, s);
    hide RunOf, Draws, FreePool, TokensOfSamples, AcrossTheCut, CanariesSent;
    assert s.certificate.sampleCount >= config.Required();
    hide CertificateOf;
    MissedDrawsBound(FreePool(h.main), branch, |ids|, config.minDetectable, config.missProbability);
  }
}
