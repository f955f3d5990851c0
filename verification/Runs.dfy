/** What an uninterrupted run leaves behind: its result, and how its phases led there. */
module Runs {
  import opened Campaigns
  import opened Clusters
  import opened Coverage
  import opened Drawing
  import opened Evidence
  import opened Ledgers
  import opened Model
  import opened Regions
  import opened Rounds
  import opened Segments
  import opened Sequences
  import opened Settings
  import opened Summary
  import opened Sweeps
  import opened Tokens
  import opened Wrappers

  datatype TraceResult = TraceResult(observations: Log, hops: seq<Hop>, segments: seq<Segment>, warnings: seq<Warning>,
                                     reached: bool, terminalTtl: Option<nat>, probedMax: nat,
                                     probeCount: nat, baselineProbeCount: nat, adaptiveProbeCount: int)

  /** The main flow, the attempted baseline rounds, the logs after the baseline and after the canaries,
      the canaries sent (whole ones and the TTLs reached by one cut short), what was decided on the
      evidence, and how its windows were sampled. */
  datatype History = History(main: FlowKey, variants: map<nat, FlowKey>, used: set<nat>, nextSampleId: nat,
                             rounds: seq<Round>, warned: seq<Warning>, baseline: Log, reach: nat, limit: nat,
                             swept: Log, firstCanary: nat, whole: nat, part: nat, found: seq<Region>,
                             regions: seq<Region>, clusters: seq<seq<Region>>, stages: seq<Stage>,
                             refusals: seq<bool>, special: seq<Segment>, untailed: seq<Segment>)

  /** The highest TTL probed. */
  function ProbedMax(log: Log): (ttl: nat)
    ensures forall i :: 0 <= i < |log| ==> log[i].spec.ttl <= ttl
    ensures ttl > 0 ==> exists i :: 0 <= i < |log| && log[i].spec.ttl == ttl
  {
    if log == [] then 0
    else
      var last := |log| - 1;
      var front := ProbedMax(log[..last]);
      if log[last].spec.ttl > front then log[last].spec.ttl else front
  }

  predicate ReachedDestination(log: Log, main: FlowKey) {
    exists o :: o in log && MainTerminal(o, main) && o.reply.kind.Destination?
  }

  /** With global CAP one window over the whole visible path replaces the detected regions. */
  function GlobalRegion(limit: nat): Region {
    Region(1, limit, Range(1, limit), [GlobalCoverage], true, GlobalCap)
  }

  predicate HasSilentTail(t: TraceResult, limit: nat) {
    BaselineAnswered(t.observations) && t.terminalTtl.None? && limit < t.probedMax
  }

  ghost predicate Accounts(config: TraceConfig, t: TraceResult, h: History) {
    && MainFlowOf(config, h.main)
    && Ledger(config, h.main, h.variants, h.nextSampleId, t.observations, t.baselineProbeCount)
    && Cache(h.main, h.variants, h.used)
    && t.probeCount == |t.observations| && t.adaptiveProbeCount == t.probeCount - t.baselineProbeCount
  }

  /** The sweep, the canaries within the limit it set, and adaptive probing within it too. */
  ghost predicate Probed(config: TraceConfig, log: Log, h: History) {
    && h.baseline <= h.swept <= log
    && OnlyBaseline(PlanOf(h.baseline), h.main) && Swept(PlanOf(h.baseline), h.reach) && h.reach <= config.maxHops
    && if !BaselineAnswered(h.baseline) then h.regions == [] && log == h.baseline
       else && h.limit == AnalysisLimit(h.baseline, h.main, config.maxHops)
            && (forall i :: |h.baseline| <= i < |h.swept| ==>
                  PlanOf(h.swept)[i].phase.CanaryVaried? && PlanOf(h.swept)[i].ttl <= h.limit)
            && FoundRegions(h.swept, h.limit, h.found)
            && h.regions == (if config.globalCap then [GlobalRegion(h.limit)] else h.found)
            && GrownWithin(PlanOf(h.swept), PlanOf(log), h.limit)
            && Canaries(config, h.limit, PlanOf(h.baseline), h.firstCanary, h.variants, PlanOf(h.swept), h.whole,
                        h.part)
            && WholeSamples(PlanOf(log), |h.swept|, h.regions, h.clusters)
            && NoTokenReuse(PlanOf(log)) && AllDrawn(PlanOf(log), h.clusters, h.whole, h.part)
  }

  /** No refusal is silent: without a budget warning every canary and every wanted sample was sent. */
  ghost predicate Unrefused(config: TraceConfig, log: Log, warnings: seq<Warning>, h: History)
    requires config.Valid()
  {
    BudgetExhausted !in warnings ==>
      && (BaselineAnswered(h.baseline) ==> h.whole == config.canaryFlows)
      && AllSatisfied(PlanOf(log), h.regions, config)
  }

  /** A canary was refused a chunk. */
  predicate CutShort(config: TraceConfig, h: History) {
    BaselineAnswered(h.baseline) && h.whole < config.canaryFlows
  }

  /** Every warning of the measurement: those of the baseline, and one for each refusal after it. */
  function WarningsOf(config: TraceConfig, h: History): seq<Warning> {
    h.warned + (if CutShort(config, h) then [BudgetExhausted] else []) + Refusals(h.refusals)
  }

  /** The steps of the measurement: the rounds of the baseline, then the canaries, then the windows, each
      from where the one before it stopped. */
  ghost predicate Stepped(config: TraceConfig, log: Log, h: History) {
    && BaselineOf(config, h.main, h.rounds, h.warned) && h.baseline == LogBefore(h.rounds, |h.rounds|)
    && h.firstCanary == |h.rounds| + 1
    && (forall c :: c in h.clusters ==> c != []) && Clustered(InOrder(h.regions, true), h.clusters)
    && SampledInTurn(config, h.main, Windows(h.regions, h.clusters), h.variants, h.stages, h.refusals)
    && h.stages[0] == Stage(PlanOf(h.swept), FirstWindowId(config, h))
    && h.stages[|h.stages| - 1] == Stage(PlanOf(log), h.nextSampleId)
  }

  /** The sample id after the canaries: one each, and one for the canary cut short. */
  function FirstWindowId(config: TraceConfig, h: History): nat {
    h.firstCanary + (if BaselineAnswered(h.baseline) then h.whole else 0) + (if CutShort(config, h) then 1 else 0)
  }

  /** What the report remarks on. */
  function Remarks(t: TraceResult, regions: seq<Region>, limit: nat): seq<Warning> {
    (if regions == [] && BaselineAnswered(t.observations) && !HasSilentTail(t, limit) then [NoAmbiguousBoundary]
     else [])
    + (if BaselineAnswered(t.observations) && t.terminalTtl.None? then [NoTerminalResponse] else [])
  }

  ghost predicate Reported(config: TraceConfig, t: TraceResult, h: History)
    requires config.Valid()
  {
    var limit := AnalysisLimit(t.observations, h.main, config.maxHops);
    && t.terminalTtl == FirstTerminalTtl(t.observations, h.main)
    && t.reached == ReachedDestination(t.observations, h.main)
    && t.probedMax == ProbedMax(t.observations)
    && HopsOf(t.observations, limit, h.main, t.hops)
    && Summarized(h.regions, t.observations, t.hops, config, h.special, h.untailed)
    && t.segments == (if HasSilentTail(t, limit)
                      then SortBy(h.untailed + [SilentTailOf(t.observations, limit, t.probedMax, t.hops, config)],
                                  BoundsThenKind)
                      else h.untailed)
    && t.warnings == WarningsOf(config, h) + Remarks(t, h.regions, limit)
  }

  ghost predicate RunOf(config: TraceConfig, t: TraceResult, h: History) {
    && config.Valid()
    && Accounts(config, t, h) && Stepped(config, t.observations, h) && Probed(config, t.observations, h)
    && Unrefused(config, t.observations, t.warnings, h) && Reported(config, t, h)
  }

  lemma GlobalWindow(limit: nat)
    requires limit >= 1
    ensures AllWindows([GlobalRegion(limit)], limit)
  {
    RangeElements(1, limit);
    assert GlobalRegion(limit).probeTtls[0] == 1 && GlobalRegion(limit).probeTtls[limit - 1] == limit;
  }
}
