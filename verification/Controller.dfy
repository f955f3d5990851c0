/** The probe controller: baseline sweeps, flow canaries and adaptive sampling under a budget. */
module Controller {
  import opened Campaigns
  import opened Clusters
  import opened Coverage
  import opened Drawing
  import opened Evidence
  import opened Ledgers
  import opened Model
  import opened Regions
  import opened Rounds
  import opened Runs
  import opened Sampling
  import opened Segments
  import opened Sequences
  import opened Settings
  import opened Summary
  import opened Sweeps
  import opened Tokens
  import opened Wrappers

  /** The largest batch: 32 samples of a window of 255 TTLs, far below the 65535 ids a backend has. */
  const BATCH_LIMIT: nat := 8160

  class TraceController {
    const config: TraceConfig
    const network: Network
    var observations: Log
    var warnings: seq<Warning>
    var baselineProbeCount: nat
    var nextSampleId: nat
    var variantCache: map<nat, FlowKey>
    var usedVariantValues: set<nat>

    constructor (config: TraceConfig, network: Network)
      requires config.Valid()
      ensures this.config == config && this.network == network
      ensures observations == [] && warnings == [] && baselineProbeCount == 0
      ensures nextSampleId == 1 && variantCache == map[] && usedVariantValues == {}
    {
      this.config, this.network := config, network;
      observations, warnings, baselineProbeCount := [], [], 0;
      nextSampleId, variantCache, usedVariantValues := 1, map[], {};
    }

    ghost predicate Valid(main: FlowKey)
      reads `observations, `baselineProbeCount, `nextSampleId, `variantCache, `usedVariantValues
    {
      && config.Valid() && MainFlowOf(config, main)
      && Ledger(config, main, variantCache, nextSampleId, observations, baselineProbeCount)
      && FromNetwork(network, observations)
      && Cache(main, variantCache, usedVariantValues)
      && VariantsNeeded(config) <= |FreePool(main)|
      && forall v :: v in variantCache ==> v <= VariantsNeeded(config)
    }

    /** A fixed source port or identifier for the whole run. */
    method MainFlow() returns (flow: FlowKey)
      requires config.Valid()
      ensures MainFlowOf(config, flow)
    {
      if config.protocol.Icmp? {
        var identifier: nat :| 1 <= identifier < 65536;
        flow := FlowKey(Icmp, 0, 0, identifier, 0);
      } else if config.sourcePort.Some? {
        flow := FlowKey(config.protocol, config.sourcePort.value, config.destinationPort, 0, 0);
      } else {
        var port: nat :| 49152 <= port < 65536;
        flow := FlowKey(config.protocol, port, config.destinationPort, 0, 0);
      }
    }

    /** A variant keeps the token it was first given; a new one gets a token never used before. */
    method VariantFlow(variant: nat, main: FlowKey) returns (flow: FlowKey)
      requires Valid(main) && 1 <= variant <= VariantsNeeded(config)
      modifies `variantCache, `usedVariantValues
      ensures Valid(main)
      ensures variant in variantCache && flow == variantCache[variant]
      ensures if variant in old(variantCache) then variantCache == old(variantCache)
              else && variantCache == old(variantCache)[variant := flow]
                   && flow.Token() in FreePool(main) && flow.Token() !in old(usedVariantValues)
    {
      if variant in variantCache {
        return variantCache[variant];
      }
      TokenLeft(main, variantCache, usedVariantValues, variant, VariantsNeeded(config));
      PoolMembers(main.protocol);
      var token: nat :| FirstToken(main.protocol) <= token < 65536 && token != main.Token()
          && token !in usedVariantValues;
      flow := VariantKey(main, token, variant);
      CacheGrows(main, variantCache, usedVariantValues, variant, token);
      AccountedWeakens(PlanOf(observations), main, variantCache, nextSampleId, config.maxHops,
                       variantCache[variant := flow], nextSampleId);
      variantCache := variantCache[variant := flow];
      usedVariantValues := usedVariantValues + {token};
    }

    method NewSampleId(main: FlowKey) returns (id: nat)
      requires Valid(main)
      modifies `nextSampleId
      ensures Valid(main) && id == old(nextSampleId) && nextSampleId == id + 1
    {
      AccountedWeakens(PlanOf(observations), main, variantCache, nextSampleId, config.maxHops, variantCache,
                       nextSampleId + 1);
      id := nextSampleId;
      nextSampleId := nextSampleId + 1;
    }

    /** The backend's side of a batch: one legal observation per spec, in send order. */
    method SendBatch(specs: Plan) returns (received: Log)
      ensures AnswersBatch(specs, received)
      ensures forall i :: 0 <= i < |specs| ==> received[i] == Receive(network, |observations| + i, specs[i])
    {
      var n := |observations|;
      received := seq(|specs|, i requires 0 <= i < |specs| => Receive(network, n + i, specs[i]));
    }

    /** A bundle is sent whole or, when the budget cannot hold it, not at all and never silently. */
    method Send(specs: Plan, sweep: bool, main: FlowKey) returns (sent: bool)
      requires Valid(main) && |specs| <= BATCH_LIMIT
      requires forall s :: s in specs ==> s.probeId == 0 && SweepPhase(s.phase) == sweep
      requires Accounted(PlanOf(observations) + specs, main, variantCache, nextSampleId, config.maxHops)
      modifies `observations, `warnings, `baselineProbeCount
      ensures Valid(main)
      ensures sent <==> old(|observations|) + |specs| <= config.maxProbes
      ensures old(observations) <= observations
      ensures PlanOf(observations) == PlanOf(old(observations)) + (if sent then specs else [])
      ensures warnings == old(warnings) + (if sent then [] else [BudgetExhausted])
      ensures !sent ==> observations == old(observations)
    {
      hide Accounted, FromNetwork, LegalLog, Cache, MainFlowOf, SweepProbes, FreePool;
      if |specs| > config.maxProbes - |observations| {
        warnings := warnings + [BudgetExhausted];
        return false;
      }
      var received := SendBatch(specs);
      LedgerGrows(config, main, variantCache, nextSampleId, observations, baselineProbeCount, specs, received, sweep);
      NetworkGrows(network, observations, specs, received);
      observations := observations + received;
      if sweep {
        baselineProbeCount := baselineProbeCount + |received|;
      }
      return true;
    }

    lemma BatchIsMain(log: Log, specs: Plan, batch: Log, main: FlowKey, stop: nat)
      requires |batch| == |specs| && PlanOf(log + batch) == PlanOf(log) + specs
      requires forall s :: s in specs ==> s.flow == main && s.ttl <= stop
      ensures BatchOn(batch, main, stop)
    {
      var whole := log + batch;
      forall i | 0 <= i < |batch| ensures batch[i].spec.flow == main && batch[i].spec.ttl <= stop {
        assert PlanOf(whole)[|log| + i] == specs[i] && whole[|log| + i] == batch[i];
        assert specs[i] in specs;
      }
    }

    /** The next chunk of a sweep: the same flow and sample, the TTLs above `reach` up to `stop`. */
    method SendChunk(main: FlowKey, flow: FlowKey, phase: Phase, id: nat, reach: nat, stop: nat, ghost plan: Plan)
      returns (sent: bool)
      requires Valid(main) && reach < stop <= config.maxHops && SweepPhase(phase)
      requires id >= 1 && nextSampleId == id + 1 && Fresh(plan, id)
      requires RightFlow(ProbeSpec(0, flow, phase, id, config.payloadSize, 0), main, variantCache)
      requires PlanOf(observations) == plan + Bundle(Range(1, reach), flow, phase, id, config.payloadSize)
      modifies `observations, `warnings, `baselineProbeCount
      ensures Valid(main)
      ensures sent <==> old(|observations|) + stop - reach <= config.maxProbes
      ensures !sent ==> observations == old(observations) && warnings == old(warnings) + [BudgetExhausted]
      ensures sent ==>
                && |observations| == |old(observations)| + stop - reach
                && old(observations) <= observations
                && warnings == old(warnings)
                && PlanOf(observations) == plan + Bundle(Range(1, stop), flow, phase, id, config.payloadSize)
                && BatchOn(observations[|old(observations)|..], flow, stop)
    {
      hide Accounted, LegalLog, SweepProbes, Cache, MainFlowOf, FromNetwork, RightFlow;
      var specs := Bundle(Range(reach + 1, stop), flow, phase, id, config.payloadSize);
      ChunkAccounted(plan, main, variantCache, id, config.maxHops, flow, phase, reach, stop, config.payloadSize);
      ghost var log := observations;
      sent := Send(specs, true, main);
      if sent {
        BatchIsMain(log, specs, observations[|log|..], flow, stop);
      }
    }

    /** The chunk of a round from `start` on. The round ends with it when it is refused or terminal. */
    method RoundChunk(main: FlowKey, id: nat, start: nat, sweepLimit: nat, known: Option<nat>, ghost before: Log)
      returns (terminal: Option<nat>, sent: bool, stopped: bool)
      requires Valid(main) && 1 <= start <= sweepLimit <= config.maxHops
      requires id >= 1 && nextSampleId == id + 1 && Fresh(PlanOf(before), id)
      requires RightFlow(ProbeSpec(0, main, BaselineFixed, id, config.payloadSize, 0), main, variantCache)
      requires SentQuietly(before, observations, main, id, start - 1) && WholeChunks(start - 1, config.chunkSize)
      requires known == FirstTerminalTtl(observations, main)
      modifies `observations, `warnings, `baselineProbeCount
      ensures Valid(main) && terminal == FirstTerminalTtl(observations, main)
      ensures warnings == old(warnings) + (if sent then [] else [BudgetExhausted])
      ensures !sent || stopped ==>
                RoundFollows(config, main, id, sweepLimit, before, Round(observations, start - 1, sent))
      ensures sent && stopped ==> terminal.Some? && terminal.value <= ChunkEnd(config, start - 1, sweepLimit)
      ensures sent && !stopped ==>
                SentQuietly(before, observations, main, id, ChunkEnd(config, start - 1, sweepLimit))
    {
      hide *;
      var stop := if start + config.chunkSize - 1 < sweepLimit then start + config.chunkSize - 1 else sweepLimit;
      ChunkStop(main, start, sweepLimit, stop);
      ghost var log := observations;
      SentSoFar(before, main, id, start - 1);
      terminal, stopped := known, false;
      sent := SendChunk(main, main, BaselineFixed, id, start - 1, stop, PlanOf(before));
      if !sent {
        ChunkTooBig(|observations|, start - 1, sweepLimit);
        CutRound(config, main, id, sweepLimit, before, observations, start - 1);
        return;
      }
      var from := |observations| - (stop + 1 - start);
      ChunkRead(before, log, observations, from, main, id, start - 1, stop);
      var found := LowestTerminal(observations[from..]);
      if found.Some? {
        terminal, stopped := Smaller(terminal, found.value), true;
        SentRound(config, main, id, sweepLimit, before, observations, start - 1, stop);
      }
    }

    /** What a chunk that was sent means for the round. */
    lemma ChunkRead(before: Log, log: Log, after: Log, from: nat, main: FlowKey, id: nat, floor: nat, stop: nat)
      requires SentQuietly(before, log, main, id, floor) && log <= after && floor < stop
      requires from == |log| && |after| == |log| + stop - floor && BatchOn(after[|log|..], main, stop)
      requires PlanOf(after) == PlanOf(before) + Bundle(Range(1, stop), main, BaselineFixed, id, config.payloadSize)
      ensures var known, found := FirstTerminalTtl(log, main), LowestTerminal(after[from..]);
              && (found.Some? ==>
                    && FirstTerminalTtl(after, main) == Smaller(known, found.value)
                    && Smaller(known, found.value).Some? && Smaller(known, found.value).value <= stop
                    && TerminalSince(after, |before|))
              && (found.None? ==> FirstTerminalTtl(after, main) == known && SentQuietly(before, after, main, id, stop))
      ensures before <= after && QuietSince(after, |before|, floor)
    {
      hide FirstTerminalTtl, LowestTerminal, Bundle, PlanOf, BatchOn, QuietSince, TerminalSince;
      var batch := after[from..];
      assert after == log + batch;
      ChunkTerminal(log, batch, main, stop);
      ChunkQuiet(before, log, batch, main, id, stop);
    }

    lemma SentSoFar(before: Log, main: FlowKey, id: nat, reach: nat)
      requires SentQuietly(before, observations, main, id, reach)
      ensures before <= observations && !TerminalSince(observations, |before|)
      ensures PlanOf(observations)
              == PlanOf(before) + Bundle(Range(1, reach), main, BaselineFixed, id, config.payloadSize)
    {
    }

    lemma ChunkStop(main: FlowKey, start: nat, sweepLimit: nat, stop: nat)
      requires Valid(main) && 1 <= start <= sweepLimit
      requires stop == if start + config.chunkSize - 1 < sweepLimit then start + config.chunkSize - 1 else sweepLimit
      ensures start <= stop == ChunkEnd(config, start - 1, sweepLimit) <= sweepLimit
      ensures SweepPhase(BaselineFixed) && SweepPhase(CanaryVaried)
    {
    }

    lemma ChunkTooBig(sent: nat, floor: nat, limit: nat)
      requires floor < limit && WholeChunks(floor, config.chunkSize)
      requires sent + ChunkEnd(config, floor, limit) - floor > config.maxProbes
      ensures ChunkRefused(config, sent, floor, limit)
    {
    }

    /** One sample of the main flow up to the sweep limit, chunk by chunk, cut short by the first
        chunk with a terminal reply or by the budget. */
    method SweepRound(main: FlowKey, sweepLimit: nat, known: Option<nat>)
      returns (terminal: Option<nat>, sent: bool, ghost floor: nat)
      requires Valid(main) && 1 <= sweepLimit <= config.maxHops
      requires OnlyBaseline(PlanOf(observations), main) && known == FirstTerminalTtl(observations, main)
      modifies `observations, `warnings, `baselineProbeCount, `nextSampleId
      ensures Valid(main) && nextSampleId == old(nextSampleId) + 1
      ensures RoundFollows(config, main, old(nextSampleId), sweepLimit, old(observations),
                           Round(observations, floor, sent))
      ensures terminal == FirstTerminalTtl(observations, main)
      ensures var reach := Reached(config, Round(observations, floor, sent), sweepLimit);
              sent ==> reach == sweepLimit || (terminal.Some? && terminal.value <= reach)
      ensures warnings == old(warnings) + (if sent then [] else [BudgetExhausted])
    {
      hide Valid, FirstTerminalTtl, Bundle, Fresh, OnlyBaseline, PlanOf, WholeChunks, QuietSince, TerminalSince,
           RoundFollows, RightFlow, SentQuietly;
      ghost var before := observations;
      StartsRound(main);
      var id := NewSampleId(main);
      terminal, sent, floor := known, true, 0;
      StartsSending(main, id);
      var start := 1;
      while start <= sweepLimit
        invariant Valid(main) && nextSampleId == id + 1 && floor < sweepLimit
        invariant warnings == old(warnings) && sent
        invariant WholeChunks(start - 1, config.chunkSize) && WholeChunks(floor, config.chunkSize)
        invariant SentQuietly(before, observations, main, id, if start <= sweepLimit then start - 1 else sweepLimit)
        invariant start > sweepLimit ==> ChunkEnd(config, floor, sweepLimit) == sweepLimit
        invariant terminal == FirstTerminalTtl(observations, main)
        decreases sweepLimit + 1 - start
      {
        floor := start - 1;
        var stopped: bool;
        terminal, sent, stopped := RoundChunk(main, id, start, sweepLimit, terminal, before);
        if !sent || stopped {
          return;
        }
        NextChunk(start - 1, config.chunkSize);
        start := start + config.chunkSize;
      }
      QuietRound(main, id, sweepLimit, before, observations, floor);
    }

    lemma StartsSending(main: FlowKey, id: nat)
      ensures SentQuietly(observations, observations, main, id, 0) && WholeChunks(0, config.chunkSize)
    {
      NoChunks(config.chunkSize);
    }

    /** The next chunk: quiet below it, and terminal since the start of the round when it is. */
    lemma ChunkQuiet(before: Log, log: Log, batch: Log, main: FlowKey, id: nat, stop: nat)
      requires before <= log && !TerminalSince(log, |before|)
      requires PlanOf(log + batch)
               == PlanOf(before) + Bundle(Range(1, stop), main, BaselineFixed, id, config.payloadSize)
      ensures QuietSince(log + batch, |before|, |log| - |before|)
      ensures TerminalSince(log + batch, |before|) <==> LowestTerminal(batch).Some?
      ensures |log| + |batch| == |before| + stop
    {
      TerminalSinceGrows(log, batch, |before|);
      QuietBelow(before, log, log + batch, main, id, config.payloadSize, stop);
      assert |PlanOf(log + batch)| == |PlanOf(before)| + stop;
    }

    /** What a round has sent so far, without a terminal reply. */
    ghost predicate SentQuietly(before: Log, log: Log, main: FlowKey, id: nat, reach: nat) {
      && before <= log && |log| == |before| + reach && !TerminalSince(log, |before|)
      && PlanOf(log) == PlanOf(before) + Bundle(Range(1, reach), main, BaselineFixed, id, config.payloadSize)
    }

    /** A round without a terminal reply goes up to its limit. */
    lemma QuietRound(main: FlowKey, id: nat, limit: nat, before: Log, log: Log, floor: nat)
      requires SentQuietly(before, log, main, id, limit) && floor < limit && WholeChunks(floor, config.chunkSize)
      requires ChunkEnd(config, floor, limit) == limit
      ensures RoundFollows(config, main, id, limit, before, Round(log, floor, true))
    {
      SentRound(config, main, id, limit, before, log, floor, limit);
    }

    lemma StartsRound(main: FlowKey)
      requires Valid(main)
      ensures Fresh(PlanOf(observations), nextSampleId) && nextSampleId >= 1
      ensures RightFlow(ProbeSpec(0, main, BaselineFixed, nextSampleId, config.payloadSize, 0), main, variantCache)
      ensures Bundle(Range(1, 0), main, BaselineFixed, nextSampleId, config.payloadSize) == []
      ensures config.chunkSize >= 1
    {
    }

    lemma SweepLimitInRange(main: FlowKey, round: nat, terminal: Option<nat>, reach: nat)
      requires Valid(main) && terminal == FirstTerminalTtl(observations, main) && reach <= config.maxHops
      requires if round == 0 then observations == []
               else Swept(PlanOf(observations), reach) && (reach == config.maxHops || terminal.Some?)
      ensures 1 <= SweepLimit(config, observations, round, terminal) <= config.maxHops
      ensures round > 0 ==> SweepLimit(config, observations, round, terminal) <= reach
      ensures round == 0 && terminal.None? ==> SweepLimit(config, observations, round, terminal) == config.maxHops
      ensures round > 0 ==>
                VisibleWithin(observations, main, round + 1, config.tailGuardHops, config.maxHops,
                              SweepLimit(config, observations, round, terminal))
      ensures observations == [] ==> PlanOf(observations) == []
    {
      if round > 0 {
        SeenWithinReach(observations, main, reach);
      }
      forall i | 0 <= i < |observations| ensures 1 <= observations[i].spec.ttl {
        assert PlanOf(observations)[i].ttl >= 1;
      }
    }

    lemma StartsBaseline(main: FlowKey)
      requires Valid(main) && observations == []
      ensures OnlyBaseline(PlanOf(observations), main) && Swept(PlanOf(observations), 0)
      ensures FirstTerminalTtl(observations, main) == None
      ensures RoundsRepeat(observations, main, 0, config.tailGuardHops, config.maxHops)
      ensures config.Valid() && config.baselineRounds >= 1 && main.variant == 0
    {
    }

    lemma SilentSweep(main: FlowKey)
      requires Valid(main) && Silent(observations)
      ensures FirstTerminalTtl(observations, main).None? && !BaselineAnswered(observations)
    {
      hide Accounted, SweepProbes, Cache, MainFlowOf, FromNetwork;
      forall i | 0 <= i < |observations| ensures !MainTerminal(observations[i], main) && !observations[i].Answered() {
        assert observations[i] in observations && observations[i].reply.Legal();
      }
    }

    lemma FirstSweep(before: Log, main: FlowKey, reach: nat)
      requires Valid(main) && before == []
      requires PlanOf(observations)
               == PlanOf(before) + Bundle(Range(1, reach), main, BaselineFixed, 1, config.payloadSize)
      ensures Swept(PlanOf(observations), reach) && OnlyBaseline(PlanOf(observations), main)
      ensures BaselineAnswered(observations) <==> !Silent(observations)
    {
      hide Ledger, FromNetwork, Cache, Swept, OnlyBaseline, BaselineAnswered, Silent;
      assert PlanOf(before) == [];
      FirstRoundSwept(observations, main, reach, config.payloadSize);
    }

    /** One round: the first sets the reach, the later ones stay within it. */
    method BaselineRound(main: FlowKey, round: nat, known: Option<nat>, ghost before: nat)
      returns (terminal: Option<nat>, sent: bool, ghost reach: nat, ghost floor: nat)
      requires Valid(main) && nextSampleId == round + 1 && before <= config.maxHops
      requires OnlyBaseline(PlanOf(observations), main) && Swept(PlanOf(observations), before)
      requires known == FirstTerminalTtl(observations, main)
      requires if round == 0 then observations == [] && known == None
               else BaselineAnswered(observations)
                    && (before == config.maxHops || (known.Some? && known.value <= before))
      requires RoundsRepeat(observations, main, round, config.tailGuardHops, config.maxHops)
      modifies `observations, `warnings, `baselineProbeCount, `nextSampleId
      ensures Valid(main) && nextSampleId == round + 2 && reach <= config.maxHops
      ensures RoundFollows(config, main, round + 1, SweepLimit(config, old(observations), round, known),
                           old(observations), Round(observations, floor, sent))
      ensures OnlyBaseline(PlanOf(observations), main) && Swept(PlanOf(observations), reach)
      ensures terminal == FirstTerminalTtl(observations, main)
      ensures warnings == old(warnings) + (if sent then [] else [BudgetExhausted])
      ensures if round == 0 then BaselineAnswered(observations) <==> !Silent(observations)
              else BaselineAnswered(observations)
      ensures sent ==>
                && (reach == config.maxHops || (terminal.Some? && terminal.value <= reach))
                && RoundsRepeat(observations, main, round + 1, config.tailGuardHops, config.maxHops)
    {
      hide Valid, FirstTerminalTtl, LastObservedTtl, Bundle, Swept, OnlyBaseline, BaselineAnswered, SweepLimit, PlanOf,
           RoundsRepeat, VisibleWithin, Silent;
      SweepLimitInRange(main, round, known, before);
      MainIsFixed(main);
      ghost var log := observations;
      var limit := SweepLimit(config, observations, round, known);
      terminal, sent, floor := SweepRound(main, limit, known);
      ghost var r := Reached(config, Round(observations, floor, sent), limit);
      if sent {
        RoundsGrow(log, observations, main, round + 1, config.tailGuardHops, config.maxHops, limit, r,
                   config.payloadSize);
      }
      if round == 0 {
        reach := r;
        FirstSweep(log, main, reach);
      } else {
        reach := before;
        RoundSwept(log, observations, main, reach, r, round + 1, config.payloadSize);
        KnownStays(log, main);
      }
    }

    lemma MainIsFixed(main: FlowKey)
      requires Valid(main)
      ensures main.variant == 0 && config.Valid()
    {
    }

    /** A terminal reply once seen only comes down. */
    lemma KnownStays(before: Log, main: FlowKey)
      requires before <= observations
      ensures FirstTerminalTtl(before, main).Some? ==>
                && FirstTerminalTtl(observations, main).Some?
                && FirstTerminalTtl(observations, main).value <= FirstTerminalTtl(before, main).value
    {
      hide FirstTerminalTtl;
      if FirstTerminalTtl(before, main).Some? {
        TerminalComesDown(before, observations, main);
      }
    }

    /** Repeated sweeps of the main flow. Each round is sent up to its limit, a terminal reply or a chunk
        that does not fit the budget. Afterwards every TTL up to the reach was probed by the first
        sample and none beyond it; the result is the lowest terminal TTL; and without a warning all
        rounds were sent and something answered. */
    method Baseline(main: FlowKey) returns (terminal: Option<nat>, ghost reach: nat, ghost rounds: seq<Round>)
      requires Valid(main) && observations == [] && nextSampleId == 1 && warnings == []
      modifies `observations, `warnings, `baselineProbeCount, `nextSampleId
      ensures Valid(main) && OnlyBaseline(PlanOf(observations), main)
      ensures BaselineOf(config, main, rounds, warnings) && observations == LogBefore(rounds, |rounds|)
      ensures nextSampleId == |rounds| + 1
      ensures Swept(PlanOf(observations), reach) && reach <= config.maxHops
      ensures terminal == FirstTerminalTtl(observations, main)
      ensures warnings != [BudgetExhausted] ==>
                reach == config.maxHops || (terminal.Some? && terminal.value <= reach)
      ensures warnings == [] ==>
                && BaselineAnswered(observations)
                && RoundsRepeat(observations, main, config.baselineRounds, config.tailGuardHops, config.maxHops)
      ensures warnings == [NoFirstResponse] ==> !BaselineAnswered(observations)
    {
      hide Valid, FirstTerminalTtl, LastObservedTtl, Bundle, Swept, OnlyBaseline, BaselineAnswered, SweepLimit, PlanOf,
           RoundsRepeat, VisibleWithin, Silent, RoundFollows, RoundsFollow;
      terminal, reach, rounds := None, 0, [];
      var round := 0;
      StartsBaseline(main);
      NoRounds(config, main);
      while round < config.baselineRounds
        invariant 0 <= round <= config.baselineRounds && reach <= config.maxHops && config.Valid()
        invariant |rounds| == round && observations == LogBefore(rounds, round)
        invariant Valid(main) && warnings == [] && nextSampleId == round + 1
        invariant OnlyBaseline(PlanOf(observations), main) && Swept(PlanOf(observations), reach)
        invariant terminal == FirstTerminalTtl(observations, main)
        invariant if round == 0 then observations == [] && terminal == None
                  else BaselineAnswered(observations) && !Silent(rounds[0].log)
                       && (reach == config.maxHops || (terminal.Some? && terminal.value <= reach))
        invariant RoundsRepeat(observations, main, round, config.tailGuardHops, config.maxHops)
        invariant RoundsFollow(config, main, rounds) && forall k :: 0 <= k < round ==> rounds[k].sent
      {
        var sent: bool;
        ghost var floor;
        var roundStart := |observations|;
        terminal, sent, reach, floor := BaselineRound(main, round, terminal, reach);
        ghost var attempted := Round(observations, floor, sent);
        RoundsAppend(config, main, rounds, attempted);
        rounds := rounds + [attempted];
        if !sent {
          return;
        }
        assert round == 0 ==> observations[roundStart..] == observations;
        if round == 0 && Silent(observations[roundStart..]) {
          SilentSweep(main);
          warnings := warnings + [NoFirstResponse];
          return;
        }
        round := round + 1;
      }
    }

    // ---------- Flow canaries ----------

    /** One canary: the same variant at every TTL up to the limit. */
    method CanarySweep(main: FlowKey, variant: nat, limit: nat) returns (sent: bool, ghost reach: nat)
      requires Valid(main) && 1 <= variant <= VariantsNeeded(config) && limit <= config.maxHops
      modifies `observations, `warnings, `baselineProbeCount, `nextSampleId, `variantCache, `usedVariantValues
      ensures Valid(main) && nextSampleId == old(nextSampleId) + 1
      ensures old(observations) <= observations
      ensures variant in variantCache && Extends(old(variantCache), variantCache)
      ensures reach <= limit && (sent <==> reach == limit)
      ensures !sent ==> ChunkRefused(config, |observations|, reach, limit)
      ensures PlanOf(observations) == PlanOf(old(observations))
                + Bundle(Range(1, reach), variantCache[variant], CanaryVaried, old(nextSampleId), config.payloadSize)
      ensures warnings == old(warnings) + (if sent then [] else [BudgetExhausted])
    {
      hide *;
      ghost var plan, known := PlanOf(observations), variantCache;
      StartsRound(main);
      var id := NewSampleId(main);
      var flow := VariantFlow(variant, main);
      StillCached(known, variantCache, variant, flow);
      CanaryStarts(main, variant, id);
      NoChunks(config.chunkSize);
      sent, reach := true, 0;
      assert PlanOf(observations) == plan + Bundle(Range(1, reach), flow, CanaryVaried, id, config.payloadSize);
      ghost var cache := variantCache;
      var start := 1;
      while start <= limit
        invariant variantCache == cache
        invariant Valid(main) && nextSampleId == id + 1 && reach <= limit
        invariant old(observations) <= observations && warnings == old(warnings) && sent
        invariant PlanOf(observations) == plan + Bundle(Range(1, reach), flow, CanaryVaried, id, config.payloadSize)
        invariant if start <= limit then start == reach + 1 else reach == limit
        invariant WholeChunks(start - 1, config.chunkSize)
        decreases limit + 1 - start
      {
        var stop := if start + config.chunkSize - 1 < limit then start + config.chunkSize - 1 else limit;
        ChunkStop(main, start, limit, stop);
        sent := SendChunk(main, flow, CanaryVaried, id, start - 1, stop, plan);
        if !sent {
          ChunkTooBig(|observations|, start - 1, limit);
          return;
        }
        reach := stop;
        NextChunk(start - 1, config.chunkSize);
        start := start + config.chunkSize;
      }
    }

    lemma StillCached(before: map<nat, FlowKey>, after: map<nat, FlowKey>, variant: nat, flow: FlowKey)
      requires after == if variant in before then before else before[variant := flow]
      ensures Extends(before, after)
    {
    }

    lemma CanaryStarts(main: FlowKey, variant: nat, id: nat)
      requires Valid(main) && variant in variantCache
      ensures RightFlow(ProbeSpec(0, variantCache[variant], CanaryVaried, id, config.payloadSize, 0), main,
                        variantCache)
      ensures Bundle(Range(1, 0), variantCache[variant], CanaryVaried, id, config.payloadSize) == []
    {
    }

    /** Cheap differential sweeps on flow variants, one sample each, until the budget refuses a chunk. */
    method FlowCanaries(main: FlowKey, limit: nat) returns (complete: bool, ghost whole: nat, ghost part: nat)
      requires Valid(main) && limit <= config.maxHops
      modifies `observations, `warnings, `baselineProbeCount, `nextSampleId, `variantCache, `usedVariantValues
      ensures Valid(main) && old(observations) <= observations
      ensures Canaries(config, limit, PlanOf(old(observations)), old(nextSampleId), variantCache,
                       PlanOf(observations), whole, part)
      ensures whole <= config.canaryFlows && (complete <==> whole == config.canaryFlows)
      ensures nextSampleId == old(nextSampleId) + whole + (if complete then 0 else 1)
      ensures warnings == old(warnings) + (if complete then [] else [BudgetExhausted])
    {
      hide Valid, Bundle, Fresh, PlanOf, CachedFlows, Series;
      ghost var plan := PlanOf(observations);
      NoCanariesYet(config, limit, plan, nextSampleId, variantCache);
      CanariesNeeded(main);
      complete, whole, part := true, 0, 0;
      var variant := 1;
      while variant <= config.canaryFlows
        invariant 1 <= variant <= config.canaryFlows + 1 && whole == variant - 1 && complete
        invariant Valid(main) && old(observations) <= observations && warnings == old(warnings)
        invariant nextSampleId == old(nextSampleId) + whole
        invariant AllCached(variantCache, 1, whole)
        invariant PlanOf(observations) == plan + Series(Range(1, limit), CachedFlows(variantCache, 1, whole),
                                                        CanaryVaried, old(nextSampleId), config.payloadSize)
      {
        ghost var cache := variantCache;
        complete, part := CanarySweep(main, variant, limit);
        CachedFlowsGrow(cache, variantCache, 1, whole);
        if !complete {
          return;
        }
        SeriesGrows(Range(1, limit), CachedFlows(cache, 1, whole), variantCache[variant], CanaryVaried,
                    old(nextSampleId), config.payloadSize);
        whole := variant;
        variant := variant + 1;
      }
      part := 0;
    }

    lemma CanariesNeeded(main: FlowKey)
      requires Valid(main)
      ensures config.Valid() && config.canaryFlows <= VariantsNeeded(config)
    {
    }

    // ---------- Adaptive sampling ----------

    /** Sends samples just numbered, on flows fit for their phase. */
    method SendSeries(main: FlowKey, specs: Plan, ghost ttls: seq<nat>, ghost flows: seq<FlowKey>, phase: Phase,
                      ghost firstId: nat)
      returns (sent: bool)
      requires Valid(main) && !SweepPhase(phase) && |specs| <= BATCH_LIMIT
      requires specs == Series(ttls, flows, phase, firstId, config.payloadSize)
      requires firstId >= 1 && nextSampleId == firstId + |flows|
      requires ProbeWindow(ttls, config.maxHops)
      requires Accounted(PlanOf(observations), main, variantCache, firstId, config.maxHops)
      requires OnFlows(main, flows, phase)
      modifies `observations, `warnings, `baselineProbeCount
      ensures Valid(main) && old(observations) <= observations
      ensures sent <==> old(|observations|) + |specs| <= config.maxProbes
      ensures PlanOf(observations) == PlanOf(old(observations)) + (if sent then specs else [])
      ensures warnings == old(warnings) + (if sent then [] else [BudgetExhausted])
    {
      hide Valid, Accounted, Series;
      SeriesAccounted(PlanOf(observations), main, variantCache, firstId, config.maxHops, ttls, flows, phase,
                      config.payloadSize);
      SeriesSpecs(ttls, flows, phase, firstId, config.payloadSize);
      sent := Send(specs, false, main);
    }

    ghost predicate OnFlows(main: FlowKey, flows: seq<FlowKey>, phase: Phase)
      reads `variantCache
    {
      forall k :: 0 <= k < |flows| ==>
        RightFlow(ProbeSpec(0, flows[k], phase, 0, config.payloadSize, 0), main, variantCache)
    }

    /** Repeats of the main flow on a window, up to `wanted` of them. */
    method RepeatMain(main: FlowKey, ttls: seq<nat>, wanted: nat) returns (sent: bool, ghost repeats: nat)
      requires Valid(main) && ProbeWindow(ttls, config.maxHops)
      modifies `observations, `warnings, `baselineProbeCount, `nextSampleId
      ensures Valid(main) && old(observations) <= observations
      ensures repeats == Affordable(wanted, config.maxProbes - old(|observations|), |ttls|)
      ensures sent <==> repeats == wanted
      ensures PlanOf(observations) == PlanOf(old(observations))
                + Series(ttls, Copies(main, repeats), DbpFixed, old(nextSampleId), config.payloadSize)
      ensures nextSampleId == old(nextSampleId) + repeats + (if sent then 0 else 1)
      ensures warnings == old(warnings) + (if sent then [] else [BudgetExhausted])
    {
      hide Valid, PlanOf, Series, Bulk, Copies, Bundle;
      ghost var plan, firstId, size := PlanOf(observations), nextSampleId, |ttls|;
      StartsRepeats(main, ttls, firstId);
      sent, repeats := true, 0;
      var n := 0;
      while n < wanted
        invariant 0 <= n <= wanted && repeats == n && sent
        invariant Valid(main) && old(observations) <= observations && warnings == old(warnings)
        invariant nextSampleId == firstId + n
        invariant PlanOf(observations) == plan + Series(ttls, Copies(main, n), DbpFixed, firstId, config.payloadSize)
        invariant |observations| == |plan| + Bulk(n, size) <= config.maxProbes
      {
        StartsRepeat(main, ttls);
        var id := NewSampleId(main);
        var specs := Bundle(ttls, main, DbpFixed, id, config.payloadSize);
        SingleSeries(ttls, main, DbpFixed, id, config.payloadSize);
        BulkStep(n, size);
        sent := SendSeries(main, specs, ttls, [main], DbpFixed, id);
        if !sent {
          AffordableIs(wanted, config.maxProbes - |plan|, size, n);
          return;
        }
        RepeatsGrow(plan, ttls, main, n, firstId);
        n := n + 1;
        repeats := n;
      }
      AffordableIs(wanted, config.maxProbes - |plan|, size, n);
    }

    lemma StartsRepeats(main: FlowKey, ttls: seq<nat>, firstId: nat)
      requires Valid(main)
      ensures PlanOf(observations)
              == PlanOf(observations) + Series(ttls, Copies(main, 0), DbpFixed, firstId, config.payloadSize)
      ensures Bulk(0, |ttls|) == 0 && |observations| == |PlanOf(observations)| <= config.maxProbes
    {
    }

    lemma StartsRepeat(main: FlowKey, ttls: seq<nat>)
      requires Valid(main) && ProbeWindow(ttls, config.maxHops)
      ensures Accounted(PlanOf(observations), main, variantCache, nextSampleId, config.maxHops)
      ensures nextSampleId >= 1 && |ttls| <= 255 && OnFlows(main, [main], DbpFixed)
    {
      WindowSize(ttls, config.maxHops);
    }

    lemma RepeatsGrow(plan: Plan, ttls: seq<nat>, main: FlowKey, n: nat, firstId: nat)
      ensures plan + Series(ttls, Copies(main, n), DbpFixed, firstId, config.payloadSize)
              + Bundle(ttls, main, DbpFixed, firstId + n, config.payloadSize)
           == plan + Series(ttls, Copies(main, n + 1), DbpFixed, firstId, config.payloadSize)
    {
      hide Series, Bundle;
      SeriesGrows(ttls, Copies(main, n), main, DbpFixed, firstId, config.payloadSize);
      assert Copies(main, n) + [main] == Copies(main, n + 1);
      Regroup(plan, Series(ttls, Copies(main, n), DbpFixed, firstId, config.payloadSize),
              Bundle(ttls, main, DbpFixed, firstId + n, config.payloadSize));
    }

    /** Whole bundles for the next variants, numbered in order. */
    method BuildBundles(main: FlowKey, ttls: seq<nat>, first: nat, count: nat) returns (specs: Plan)
      requires Valid(main) && 1 <= first && first + count <= VariantsNeeded(config) + 1
      modifies `nextSampleId, `variantCache, `usedVariantValues
      ensures Valid(main) && nextSampleId == old(nextSampleId) + count
      ensures Extends(old(variantCache), variantCache) && AllCached(variantCache, first, count)
      ensures specs
              == Series(ttls, CachedFlows(variantCache, first, count), DbpVaried, old(nextSampleId), config.payloadSize)
    {
      hide Valid, Bundle, CachedFlows, Series;
      specs := [];
      NothingBuilt(ttls, first, nextSampleId);
      var n := 0;
      while n < count
        invariant 0 <= n <= count && Valid(main) && nextSampleId == old(nextSampleId) + n
        invariant Extends(old(variantCache), variantCache) && AllCached(variantCache, first, n)
        invariant specs
                  == Series(ttls, CachedFlows(variantCache, first, n), DbpVaried, old(nextSampleId), config.payloadSize)
      {
        ghost var cache := variantCache;
        var id := NewSampleId(main);
        var flow := VariantFlow(first + n, main);
        CachedFlowsGrow(cache, variantCache, first, n);
        SeriesGrows(ttls, CachedFlows(cache, first, n), flow, DbpVaried, old(nextSampleId), config.payloadSize);
        specs := specs + Bundle(ttls, flow, DbpVaried, id, config.payloadSize);
        n := n + 1;
      }
    }

    lemma NothingBuilt(ttls: seq<nat>, first: nat, firstId: nat)
      ensures [] == Series(ttls, CachedFlows(variantCache, first, 0), DbpVaried, firstId, config.payloadSize)
    {
    }

    /** One batch of the next variants. It fits, so the refusal of `Send` is never reached. */
    method SendVariants(main: FlowKey, ttls: seq<nat>, next: nat, count: nat)
      requires Valid(main) && ProbeWindow(ttls, config.maxHops) && next >= 1
      requires count <= config.adaptiveBatchSamples && next + count <= config.Required() + 1
      requires |observations| + Bulk(count, |ttls|) <= config.maxProbes
      modifies `observations, `warnings, `baselineProbeCount, `nextSampleId, `variantCache, `usedVariantValues
      ensures Valid(main) && old(observations) <= observations && warnings == old(warnings)
      ensures Extends(old(variantCache), variantCache) && AllCached(variantCache, next, count)
      ensures PlanOf(observations) == PlanOf(old(observations))
                + Series(ttls, CachedFlows(variantCache, next, count), DbpVaried, old(nextSampleId), config.payloadSize)
      ensures |observations| == |old(observations)| + Bulk(count, |ttls|)
      ensures nextSampleId == old(nextSampleId) + count
    {
      hide Valid, PlanOf, Series, Bulk, CachedFlows, Bundle, Accounted, LegalLog, AllCached, Extends;
      BatchFits(main, ttls, next, count);
      ghost var cache, id := variantCache, nextSampleId;
      var specs := BuildBundles(main, ttls, next, count);
      ghost var flows := CachedFlows(variantCache, next, count);
      SeriesSize(ttls, flows, DbpVaried, id, config.payloadSize);
      StillAccounted(main, cache, id);
      VariantsFit(main, next, count);
      var sent := SendSeries(main, specs, ttls, flows, DbpVaried, id);
      assert sent;
    }

    lemma StillAccounted(main: FlowKey, cache: map<nat, FlowKey>, id: nat)
      requires Accounted(PlanOf(observations), main, cache, id, config.maxHops) && Extends(cache, variantCache)
      ensures Accounted(PlanOf(observations), main, variantCache, id, config.maxHops)
    {
      hide PlanOf;
      AccountedWeakens(PlanOf(observations), main, cache, id, config.maxHops, variantCache, id);
    }

    /** The next variants on a window, in batches that always fit: refusal can only come before a batch
        is built, when not one more bundle fits. */
    method DrawVariants(main: FlowKey, ttls: seq<nat>, have: nat) returns (complete: bool, ghost draws: nat)
      requires Valid(main) && ProbeWindow(ttls, config.maxHops)
      modifies `observations, `warnings, `baselineProbeCount, `nextSampleId, `variantCache, `usedVariantValues
      ensures Valid(main) && old(observations) <= observations
      ensures Extends(old(variantCache), variantCache)
      ensures var wanted := if have < config.Required() then config.Required() - have else 0;
              && draws == Affordable(wanted, config.maxProbes - old(|observations|), |ttls|)
              && (complete <==> draws == wanted)
      ensures AllCached(variantCache, have + 1, draws)
      ensures PlanOf(observations) == PlanOf(old(observations))
                + Series(ttls, CachedFlows(variantCache, have + 1, draws), DbpVaried, old(nextSampleId),
                         config.payloadSize)
      ensures nextSampleId == old(nextSampleId) + draws
      ensures warnings == old(warnings) + (if complete then [] else [BudgetExhausted])
    {
      hide *;
      ghost var plan, firstId, size := PlanOf(observations), nextSampleId, |ttls|;
      StartsDrawing(main, ttls, have);
      var required := config.Required();
      ghost var wanted := if have < required then required - have else 0;
      complete, draws := true, 0;
      var next := have + 1;
      while next <= required
        invariant next == have + 1 + draws && draws <= wanted && complete
        invariant Valid(main) && old(observations) <= observations && warnings == old(warnings)
        invariant nextSampleId == firstId + draws && Extends(old(variantCache), variantCache)
        invariant AllCached(variantCache, have + 1, draws)
        invariant PlanOf(observations) == plan + Series(ttls, CachedFlows(variantCache, have + 1, draws), DbpVaried,
                                                        firstId, config.payloadSize)
        invariant |observations| == |plan| + Bulk(draws, size) <= config.maxProbes
        decreases required + 1 - next
      {
        var room := config.maxProbes - |observations|;
        var capacity := room / |ttls|;
        var count := if config.adaptiveBatchSamples < required - next + 1 then config.adaptiveBatchSamples
                     else required - next + 1;
        count := if capacity < count then capacity else count;
        QuotientFits(room, size);
        if count <= 0 {
          BulkStep(draws, size);
          AffordableIs(wanted, config.maxProbes - |plan|, size, draws);
          warnings := warnings + [BudgetExhausted];
          return false, draws;
        }
        BulkMonotone(count, capacity, size);
        ghost var cache := variantCache;
        SendVariants(main, ttls, next, count);
        ExtendsFurther(old(variantCache), cache, variantCache);
        ghost var flows := CachedFlows(variantCache, next, count);
        CachedFlowsJoin(cache, variantCache, have + 1, draws, count);
        SeriesConcat(ttls, CachedFlows(cache, have + 1, draws), flows, DbpVaried, firstId, config.payloadSize);
        BulkSum(draws, count, size);
        next := next + count;
        draws := draws + count;
      }
      AffordableIs(wanted, config.maxProbes - |plan|, size, draws);
    }

    lemma StartsDrawing(main: FlowKey, ttls: seq<nat>, have: nat)
      requires Valid(main) && ProbeWindow(ttls, config.maxHops)
      ensures PlanOf(observations) == PlanOf(observations)
                + Series(ttls, CachedFlows(variantCache, have + 1, 0), DbpVaried, nextSampleId, config.payloadSize)
      ensures AllCached(variantCache, have + 1, 0) && Extends(variantCache, variantCache) && |ttls| > 0
      ensures Bulk(0, |ttls|) == 0 && |observations| == |PlanOf(observations)| <= config.maxProbes
      ensures config.Valid() && config.adaptiveBatchSamples >= 1 && nextSampleId >= 1
    {
    }

    lemma BatchFits(main: FlowKey, ttls: seq<nat>, next: nat, count: nat)
      requires Valid(main) && ProbeWindow(ttls, config.maxHops)
      requires count <= config.adaptiveBatchSamples && next + count <= config.Required() + 1
      ensures Bulk(count, |ttls|) <= BATCH_LIMIT
      ensures next + count <= VariantsNeeded(config) + 1 && nextSampleId >= 1
      ensures Accounted(PlanOf(observations), main, variantCache, nextSampleId, config.maxHops)
    {
      BulkMonotone(count, 32, |ttls|);
      WindowSize(ttls, config.maxHops);
      assert Bulk(32, |ttls|) == 32 * |ttls|;
    }

    lemma VariantsFit(main: FlowKey, first: nat, count: nat)
      requires Valid(main) && first >= 1 && AllCached(variantCache, first, count)
      ensures OnFlows(main, CachedFlows(variantCache, first, count), DbpVaried)
    {
    }

    /** Samples one window as far as the evidence in the log leaves something to want. */
    method ProbeRegion(region: Region, main: FlowKey) returns (ghost refused: bool)
      requires Valid(main) && ProbeWindow(region.probeTtls, config.maxHops)
      modifies `observations, `warnings, `baselineProbeCount, `nextSampleId, `variantCache, `usedVariantValues
      ensures Valid(main) && old(observations) <= observations && Extends(old(variantCache), variantCache)
      ensures Sampled(config, main, region, PlanOf(old(observations)), old(nextSampleId), variantCache,
                      PlanOf(observations), nextSampleId, refused)
      ensures warnings == old(warnings) + (if refused then [BudgetExhausted] else [])
    {
      hide Valid, Series, Copies, CachedFlows, Bundle, CompleteSamples, Elements, AllCached;
      StartsSampling(main, region.probeTtls);
      ghost var plan, firstId := PlanOf(observations), nextSampleId;
      refused := false;
      var existingFixed := CompleteSampleCount(observations, region.probeTtls, false);
      var wanted := if existingFixed < config.temporalSamples then config.temporalSamples - existingFixed else 0;
      ghost var repeats, draws;
      var sent;
      sent, repeats := RepeatMain(main, region.probeTtls, wanted);
      if !sent {
        refused := true;
        return;
      }
      if !region.variantCoverage {
        return;
      }
      var existingVaried := CompleteSampleCount(observations, region.probeTtls, true);
      RepeatsLeaveVariants(plan, region.probeTtls, main, repeats, firstId);
      sent, draws := DrawVariants(main, region.probeTtls, existingVaried);
      refused := !sent;
    }

    lemma StartsSampling(main: FlowKey, ttls: seq<nat>)
      requires Valid(main) && ProbeWindow(ttls, config.maxHops)
      ensures config.Valid() && main.variant == 0 && ttls[0] in Elements(ttls)
      ensures |PlanOf(observations)| <= config.maxProbes
      ensures forall i :: 0 <= i < |observations| ==> PlanOf(observations)[i].sampleId < nextSampleId
    {
    }

    lemma RepeatsLeaveVariants(plan: Plan, ttls: seq<nat>, main: FlowKey, n: nat, firstId: nat)
      requires main.variant == 0 && Elements(ttls) != {}
      requires forall i :: 0 <= i < |plan| ==> plan[i].sampleId < firstId
      ensures |CompleteSamples(plan + Series(ttls, Copies(main, n), DbpFixed, firstId, config.payloadSize),
                               Elements(ttls), true)|
           == |CompleteSamples(plan, Elements(ttls), true)|
    {
      SeriesCounts(plan, ttls, Copies(main, n), DbpFixed, firstId, config.payloadSize, Elements(ttls), false, true);
    }

    lemma SamplingFacts(main: FlowKey)
      requires Valid(main)
      ensures config.Valid() && main.variant == 0 && Cached(variantCache)
      ensures IdsBelow(PlanOf(observations), nextSampleId) && Extends(variantCache, variantCache)
    {
    }

    /** Overlapping variant regions share their samples, cluster by cluster. */
    method ProbeClusters(regions: seq<Region>, main: FlowKey, ghost limit: nat, ghost whole: nat, ghost part: nat)
      returns (ghost clusters: seq<seq<Region>>, ghost stages: seq<Stage>, ghost refusals: seq<bool>)
      requires Valid(main) && AllWindows(regions, limit) && limit <= config.maxHops
      requires OnlyCanariesBeyond(PlanOf(observations), whole, part, 0, limit)
      modifies `observations, `warnings, `baselineProbeCount, `nextSampleId, `variantCache, `usedVariantValues
      ensures Valid(main) && old(observations) <= observations && Extends(old(variantCache), variantCache)
      ensures GrownWithin(PlanOf(old(observations)), PlanOf(observations), limit)
      ensures forall c :: c in clusters ==> c != []
      ensures SampledInTurn(config, main, Aggregates(clusters), variantCache, stages, refusals)
      ensures stages[0] == Stage(PlanOf(old(observations)), old(nextSampleId))
      ensures stages[|clusters|] == Stage(PlanOf(observations), nextSampleId)
      ensures warnings == old(warnings) + Refusals(refusals)
      ensures warnings == old(warnings) ==> AllSatisfied(PlanOf(observations), InOrder(regions, true), config)
      ensures regions == [] ==> observations == old(observations) && warnings == old(warnings)
      ensures Clustered(InOrder(regions, true), clusters)
      ensures NoTokenReuse(PlanOf(observations)) && AllDrawn(PlanOf(observations), clusters, whole, part)
      ensures WholeSamples(PlanOf(observations), |old(observations)|, regions, clusters)
    {
      hide *;
      SamplingFacts(main);
      ghost var plan := PlanOf(observations);
      NothingGrown(plan, limit);
      var grouped := ClusterRegions(regions);
      clusters := grouped;
      ClustersCover(regions, grouped, limit);
      if regions == [] {
        NothingInOrder(true);
        NothingToCluster(grouped, limit);
      }
      NothingSatisfied(plan);
      NothingPartial(plan, regions, clusters);
      NothingDrawn(plan, whole, part);
      FlattenStep(grouped, 0);
      assert grouped[..0] == [];
      NoWindows(limit);
      ghost var reach := 0;
      NoEmptyCluster(grouped, limit);
      ghost var windows := Aggregates(grouped);
      stages, refusals := [Stage(plan, nextSampleId)], [];
      assert windows[..0] == [];
      NothingSampled(config, main, variantCache, stages[0]);
      NoRefusalYet(warnings);
      var n := 0;
      while n < |grouped|
        invariant 0 <= n <= |grouped|
        invariant Valid(main) && old(observations) <= observations
        invariant |refusals| == n && |stages| == n + 1 && warnings == old(warnings) + Refusals(refusals)
        invariant SampledInTurn(config, main, windows[..n], variantCache, stages, refusals)
        invariant stages[0] == Stage(plan, old(nextSampleId)) && stages[n] == Stage(PlanOf(observations), nextSampleId)
        invariant Extends(old(variantCache), variantCache)
        invariant n == 0 ==> observations == old(observations) && warnings == old(warnings)
        invariant WholeSamples(PlanOf(observations), |plan|, regions, clusters)
        invariant GrownWithin(plan, PlanOf(observations), limit) && AheadOf(grouped, n, reach)
        invariant AllWindows(Flatten(grouped[..n]), limit)
        invariant warnings == old(warnings) ==> AllSatisfied(PlanOf(observations), Flatten(grouped[..n]), config)
        invariant OnlyCanariesBeyond(PlanOf(observations), whole, part, reach, limit)
        invariant AllDrawn(PlanOf(observations), grouped[..n], whole, part) && Behind(grouped[..n], reach)
      {
        ghost var before, done := PlanOf(observations), Flatten(grouped[..n]);
        ClusterAt(grouped, n, reach, limit);
        ghost var cache := variantCache;
        ghost var refused := ProbeCluster(main, grouped[n], reach, limit, |plan|, regions, clusters, grouped[..n],
                                          whole, part);
        ExtendsFurther(old(variantCache), cache, variantCache);
        assert grouped[..n + 1] == grouped[..n] + [grouped[n]];
        FlattenStep(grouped, n + 1);
        WindowsJoin(done, grouped[n], limit);
        if warnings == old(warnings) {
          SatisfiedTogether(before, PlanOf(observations), done, grouped[n], limit, config);
        }
        AheadOfNext(InOrder(regions, true), grouped, n, reach);
        GrownTransitive(plan, before, PlanOf(observations), limit);
        reach := Highest(grouped[n]);
        assert windows[..n + 1] == windows[..n] + [windows[n]];
        ghost var after := Stage(PlanOf(observations), nextSampleId);
        NextSampled(config, main, windows[..n], cache, stages, refusals, windows[n], variantCache, after, refused);
        RefusalsGrow(refusals, refused);
        stages, refusals := stages + [after], refusals + [refused];
        n := n + 1;
      }
      assert grouped[..n] == grouped && windows[..n] == windows;
      DrawnFresh(PlanOf(observations), whole, part, reach, limit);
    }

    lemma NoEmptyCluster(clusters: seq<seq<Region>>, limit: nat)
      requires ClusterWindows(clusters, limit)
      ensures forall c :: c in clusters ==> c != []
    {
    }

    /** Fixed-only regions, after the shared windows. */
    method ProbeFixedRegions(regions: seq<Region>, main: FlowKey, ghost limit: nat, ghost from: nat,
                             ghost clusters: seq<seq<Region>>, ghost whole: nat, ghost part: nat)
      returns (ghost stages: seq<Stage>, ghost refusals: seq<bool>)
      requires Valid(main) && AllWindows(regions, limit) && limit <= config.maxHops
      requires from <= |observations| && WholeSamples(PlanOf(observations), from, regions, clusters)
      requires NoTokenReuse(PlanOf(observations)) && AllDrawn(PlanOf(observations), clusters, whole, part)
      modifies `observations, `warnings, `baselineProbeCount, `nextSampleId, `variantCache, `usedVariantValues
      ensures Valid(main) && old(observations) <= observations && Extends(old(variantCache), variantCache)
      ensures GrownWithin(PlanOf(old(observations)), PlanOf(observations), limit)
      ensures SampledInTurn(config, main, InOrder(regions, false), variantCache, stages, refusals) && |stages| > 0
      ensures stages[0] == Stage(PlanOf(old(observations)), old(nextSampleId))
      ensures stages[|stages| - 1] == Stage(PlanOf(observations), nextSampleId)
      ensures warnings == old(warnings) + Refusals(refusals)
      ensures warnings == old(warnings) ==> AllSatisfied(PlanOf(observations), InOrder(regions, false), config)
      ensures regions == [] ==> observations == old(observations) && warnings == old(warnings)
      ensures WholeSamples(PlanOf(observations), from, regions, clusters)
      ensures NoTokenReuse(PlanOf(observations)) && AllDrawn(PlanOf(observations), clusters, whole, part)
    {
      hide Valid, PlanOf, Sampled, AllSatisfied, GrownWithin, InOrder, AllWindows, NoTokenReuse, WholeSamples, AllDrawn,
           SampledInTurn, SampledAt, Refusals;
      ghost var plan := PlanOf(observations);
      NothingInOrder(false);
      var sorted := InOrder(regions, false);
      InOrderWindows(regions, false, limit);
      SamplingFacts(main);
      NothingGrown(plan, limit);
      NothingSatisfied(plan);
      NoWindows(limit);
      assert sorted[..0] == [];
      stages, refusals := [Stage(plan, nextSampleId)], [];
      NothingSampled(config, main, variantCache, stages[0]);
      NoRefusalYet(warnings);
      var n := 0;
      while n < |sorted|
        invariant 0 <= n <= |sorted|
        invariant Valid(main) && old(observations) <= observations
        invariant |refusals| == n && |stages| == n + 1 && warnings == old(warnings) + Refusals(refusals)
        invariant SampledInTurn(config, main, sorted[..n], variantCache, stages, refusals)
        invariant stages[0] == Stage(plan, old(nextSampleId)) && stages[n] == Stage(PlanOf(observations), nextSampleId)
        invariant Extends(old(variantCache), variantCache)
        invariant n == 0 ==> observations == old(observations) && warnings == old(warnings)
        invariant GrownWithin(plan, PlanOf(observations), limit)
        invariant WholeSamples(PlanOf(observations), from, regions, clusters)
        invariant warnings == old(warnings) ==> AllSatisfied(PlanOf(observations), sorted[..n], config)
        invariant NoTokenReuse(PlanOf(observations)) && AllDrawn(PlanOf(observations), clusters, whole, part)
      {
        ghost var before := PlanOf(observations);
        RegionAt(sorted, n, limit);
        RegionOfRegions(regions, n);
        ghost var cache := variantCache;
        ghost var refused := ProbeFixedRegion(sorted[n], main, limit, from, regions, clusters, whole, part);
        assert sorted[..n + 1] == sorted[..n] + [sorted[n]];
        if warnings == old(warnings) {
          SatisfiedTogether(before, PlanOf(observations), sorted[..n], [sorted[n]], limit, config);
        }
        GrownTransitive(plan, before, PlanOf(observations), limit);
        ghost var after := Stage(PlanOf(observations), nextSampleId);
        NextSampled(config, main, sorted[..n], cache, stages, refusals, sorted[n], variantCache, after, refused);
        RefusalsGrow(refusals, refused);
        stages, refusals := stages + [after], refusals + [refused];
        n := n + 1;
      }
      assert sorted[..n] == sorted;
    }

    /** Overlapping variant regions share their samples, cluster by cluster; fixed-only regions follow
        and reuse them. Unless the budget refused something every region gets what it wants. No TTL sees
        the same variant from two adaptive samples, and each cluster draws the variants from the first
        that its window does not count as complete. */
    method ProbeRegions(regions: seq<Region>, main: FlowKey, ghost limit: nat, ghost whole: nat, ghost part: nat)
      returns (ghost clusters: seq<seq<Region>>, ghost stages: seq<Stage>, ghost refusals: seq<bool>)
      requires Valid(main) && AllWindows(regions, limit) && limit <= config.maxHops
      requires OnlyCanariesBeyond(PlanOf(observations), whole, part, 0, limit)
      modifies `observations, `warnings, `baselineProbeCount, `nextSampleId, `variantCache, `usedVariantValues
      ensures Valid(main) && old(observations) <= observations && Extends(old(variantCache), variantCache)
      ensures GrownWithin(PlanOf(old(observations)), PlanOf(observations), limit)
      ensures (forall c :: c in clusters ==> c != []) && |stages| > 0
      ensures SampledInTurn(config, main, Windows(regions, clusters), variantCache, stages, refusals)
      ensures stages[0] == Stage(PlanOf(old(observations)), old(nextSampleId))
      ensures stages[|stages| - 1] == Stage(PlanOf(observations), nextSampleId)
      ensures warnings == old(warnings) + Refusals(refusals)
      ensures warnings == old(warnings) ==> AllSatisfied(PlanOf(observations), regions, config)
      ensures regions == [] ==> observations == old(observations) && warnings == old(warnings)
      ensures Clustered(InOrder(regions, true), clusters)
      ensures NoTokenReuse(PlanOf(observations)) && AllDrawn(PlanOf(observations), clusters, whole, part)
      ensures WholeSamples(PlanOf(observations), |old(observations)|, regions, clusters)
    {
      hide Valid, PlanOf, Sampled, AllSatisfied, OnlyCanariesBeyond, GrownWithin, InOrder, Clustered, Aggregates,
           AllWindows, NoTokenReuse, WholeSamples, AllDrawn, SampledInTurn, SampledAt, Refusals;
      ghost var plan := PlanOf(observations);
      SamplingFacts(main);
      InOrderWindows(regions, true, limit);
      clusters, stages, refusals := ProbeClusters(regions, main, limit, whole, part);
      EndOfStages(config, main, Aggregates(clusters), variantCache, stages, refusals);
      ghost var shared, cache, later, outcomes := PlanOf(observations), variantCache, [], [];
      later, outcomes := ProbeFixedRegions(regions, main, limit, |plan|, clusters, whole, part);
      SampledJoin(config, main, Aggregates(clusters), cache, stages, refusals, InOrder(regions, false), variantCache,
                  later, outcomes);
      RefusalsJoin(refusals, outcomes);
      stages, refusals := stages + later[1..], refusals + outcomes;
      GrownTransitive(plan, shared, PlanOf(observations), limit);
      if warnings == old(warnings) {
        SatisfiedTogether(shared, PlanOf(observations), InOrder(regions, true), InOrder(regions, false), limit, config);
        SatisfiedInOrder(PlanOf(observations), regions, config);
      }
    }

    lemma NoRefusalYet(before: seq<Warning>)
      ensures before == before + Refusals([])
    {
    }

    lemma RegionAt(sorted: seq<Region>, n: nat, limit: nat)
      requires AllWindows(sorted, limit) && n < |sorted|
      ensures Geometry(sorted[n], limit) && AllWindows(sorted[..n], limit)
    {
      assert sorted[n] in sorted;
    }

    lemma RegionOfRegions(regions: seq<Region>, n: nat)
      requires n < |InOrder(regions, false)|
      ensures InOrder(regions, false)[n] in regions
    {
      hide InOrder;
      InOrderKeeps(regions, false);
      assert InOrder(regions, false)[n] in InOrder(regions, false);
    }

    method ProbeFixedRegion(region: Region, main: FlowKey, ghost limit: nat, ghost from: nat,
                            ghost regions: seq<Region>,
                            ghost clusters: seq<seq<Region>>, ghost whole: nat, ghost part: nat)
      returns (ghost refused: bool)
      requires Valid(main) && Geometry(region, limit) && limit <= config.maxHops && !region.variantCoverage
      requires from <= |observations| && WholeSamples(PlanOf(observations), from, regions, clusters)
      requires region in regions
      requires NoTokenReuse(PlanOf(observations)) && AllDrawn(PlanOf(observations), clusters, whole, part)
      modifies `observations, `warnings, `baselineProbeCount, `nextSampleId, `variantCache, `usedVariantValues
      ensures Valid(main) && old(observations) <= observations && Extends(old(variantCache), variantCache)
      ensures GrownWithin(PlanOf(old(observations)), PlanOf(observations), limit)
      ensures SampledAt(config, main, region, variantCache, Stage(PlanOf(old(observations)), old(nextSampleId)),
                        Stage(PlanOf(observations), nextSampleId), refused)
      ensures warnings == old(warnings) + (if refused then [BudgetExhausted] else [])
      ensures !refused ==> AllSatisfied(PlanOf(observations), [region], config)
      ensures WholeSamples(PlanOf(observations), from, regions, clusters)
      ensures NoTokenReuse(PlanOf(observations)) && AllDrawn(PlanOf(observations), clusters, whole, part)
    {
      hide Valid, PlanOf, Sampled, GrownWithin, Cached, IdsBelow, Geometry, Satisfied, NoTokenReuse, WholeSamples,
           ClusterTtls, AllDrawn;
      ghost var plan, firstId := PlanOf(observations), nextSampleId;
      SamplingFacts(main);
      GeometryIsWindow(region, limit, config.maxHops);
      refused := ProbeRegion(region, main);
      CachedStays(main);
      SampledWithin(config, main, region, plan, firstId, variantCache, PlanOf(observations), nextSampleId, refused,
                    limit);
      SingleMember(region);
      SampledAreWhole(config, main, region, plan, firstId, variantCache, PlanOf(observations), nextSampleId, refused,
                      from, regions, clusters, [region]);
      if !refused {
        SampledSatisfies(config, main, region, plan, firstId, variantCache, PlanOf(observations), nextSampleId);
      }
      SampledFixed(config, main, region, plan, firstId, variantCache, PlanOf(observations), nextSampleId, refused,
                   clusters, whole, part);
    }

    lemma NothingGrown(plan: Plan, limit: nat)
      ensures GrownWithin(plan, plan, limit)
    {
    }

    lemma NothingSatisfied(plan: Plan)
      requires config.Valid()
      ensures AllSatisfied(plan, [], config)
    {
    }

    /** One shared window. `done` are the clusters sampled before. */
    method ProbeCluster(main: FlowKey, cluster: seq<Region>, ghost reach: nat, ghost limit: nat, ghost from: nat,
                        ghost regions: seq<Region>, ghost clusters: seq<seq<Region>>, ghost done: seq<seq<Region>>,
                        ghost whole: nat, ghost part: nat)
      returns (ghost refused: bool)
      requires Valid(main) && cluster != [] && AllWindows(cluster, limit) && limit <= config.maxHops
      requires from <= |observations| && WholeSamples(PlanOf(observations), from, regions, clusters)
      requires cluster in clusters && forall r :: r in cluster ==> reach < r.first
      requires OnlyCanariesBeyond(PlanOf(observations), whole, part, reach, limit)
      requires AllDrawn(PlanOf(observations), done, whole, part) && Behind(done, reach)
      modifies `observations, `warnings, `baselineProbeCount, `nextSampleId, `variantCache, `usedVariantValues
      ensures Valid(main) && old(observations) <= observations && Extends(old(variantCache), variantCache)
      ensures GrownWithin(PlanOf(old(observations)), PlanOf(observations), limit)
      ensures SampledAt(config, main, Aggregate(cluster), variantCache,
                        Stage(PlanOf(old(observations)), old(nextSampleId)),
                        Stage(PlanOf(observations), nextSampleId), refused)
      ensures warnings == old(warnings) + (if refused then [BudgetExhausted] else [])
      ensures !refused ==> AllSatisfied(PlanOf(observations), cluster, config)
      ensures OnlyCanariesBeyond(PlanOf(observations), whole, part, Highest(cluster), limit)
      ensures AllDrawn(PlanOf(observations), done + [cluster], whole, part)
      ensures Behind(done + [cluster], Highest(cluster))
      ensures WholeSamples(PlanOf(observations), from, regions, clusters)
    {
      hide Valid, PlanOf, Sampled, AllSatisfied, OnlyCanariesBeyond, GrownWithin, Aggregate, AllWindows, Cached,
           IdsBelow, Geometry, WholeSamples, ClusterTtls, AllDrawn, Behind;
      ghost var plan, firstId := PlanOf(observations), nextSampleId;
      SamplingFacts(main);
      AggregateCovers(cluster, limit);
      GeometryIsWindow(Aggregate(cluster), limit, config.maxHops);
      refused := ProbeRegion(Aggregate(cluster), main);
      CachedStays(main);
      SampledWithin(config, main, Aggregate(cluster), plan, firstId, variantCache, PlanOf(observations), nextSampleId,
                    refused, limit);
      AggregateMembers(cluster, limit);
      SampledAreWhole(config, main, Aggregate(cluster), plan, firstId, variantCache, PlanOf(observations), nextSampleId,
                      refused, from, regions, clusters, cluster);
      if !refused {
        ClusterSatisfied(config, main, cluster, plan, firstId, variantCache, PlanOf(observations), nextSampleId, limit);
      }
      ClusterBeyond(config, main, done, cluster, plan, firstId, variantCache, PlanOf(observations), nextSampleId,
                    refused, whole, part, reach, limit);
    }

    lemma CachedStays(main: FlowKey)
      requires Valid(main)
      ensures Cached(variantCache)
    {
    }

    // ---------- A whole run ----------

    /** Baseline, canaries, detection and adaptive sampling. */
    method Measure(main: FlowKey) returns (regions: seq<Region>, ghost h: History)
      requires Valid(main) && observations == [] && nextSampleId == 1 && warnings == []
      modifies `observations, `warnings, `baselineProbeCount, `nextSampleId, `variantCache, `usedVariantValues
      ensures Valid(main) && h.main == main && h.regions == regions && h.variants == variantCache
      ensures Stepped(config, observations, h) && warnings == WarningsOf(config, h) && h.nextSampleId == nextSampleId
      ensures Probed(config, observations, h) && Unrefused(config, observations, warnings, h)
    {
      hide Valid, PlanOf, AllSatisfied, OnlyCanariesBeyond, GrownWithin, AllWindows, NoTokenReuse, Swept, OnlyBaseline,
           FoundRegions, AnalysisLimit, Canaries, BaselineAnswered, Geometry, Clustered, InOrder, AllDrawn,
           WholeSamples, Extends, BaselineOf, SampledInTurn, Refusals, Windows;
      ghost var reach;
      var terminal;
      ghost var rounds;
      terminal, reach, rounds := Baseline(main);
      ghost var baselined := warnings;
      var limit := AnalysisLimit(observations, main, config.maxHops);
      var answered := BaselineAnswered(observations);
      ghost var baseline, firstCanary := observations, nextSampleId;
      LimitInRange(main, reach);
      SamplingFacts(main);
      NothingBeyond(PlanOf(observations), main, limit);
      regions := [];
      ghost var found: seq<Region>, swept, whole, part := [], baseline, 0, 0;
      NoWindows(limit);
      if answered {
        whole, part := CanariesAfter(main, limit);
        swept := observations;
        regions := FindRegions(observations, limit);
        FoundWindows(observations, limit, regions);
        found := regions;
      }
      if config.globalCap && answered {
        regions := [GlobalRegion(limit)];
        GlobalWindow(limit);
      }
      ghost var warned, cache := warnings, variantCache;
      ghost var clusters, stages, refusals := ProbeRegions(regions, main, limit, whole, part);
      RefusedOrNot(warned, refusals);
      if answered {
        CanariesExtend(config, limit, PlanOf(baseline), firstCanary, cache, variantCache, PlanOf(swept), whole, part);
      }
      h := History(main, variantCache, usedVariantValues, nextSampleId, rounds, baselined, baseline, reach, limit,
                   swept,
                   firstCanary, whole, part, found, regions, clusters, stages, refusals, [], []);
    }

    /** The canaries after a baseline: the only users of variants so far. */
    method CanariesAfter(main: FlowKey, limit: nat) returns (ghost whole: nat, ghost part: nat)
      requires Valid(main) && 1 <= limit <= config.maxHops && OnlyBaseline(PlanOf(observations), main)
      modifies `observations, `warnings, `baselineProbeCount, `nextSampleId, `variantCache, `usedVariantValues
      ensures Valid(main) && old(observations) <= observations
      ensures Canaries(config, limit, PlanOf(old(observations)), old(nextSampleId), variantCache, PlanOf(observations),
                       whole, part)
      ensures forall i :: |old(observations)| <= i < |observations| ==>
                PlanOf(observations)[i].phase.CanaryVaried? && PlanOf(observations)[i].ttl <= limit
      ensures warnings == old(warnings) + (if whole == config.canaryFlows then [] else [BudgetExhausted])
      ensures nextSampleId == old(nextSampleId) + whole + (if whole == config.canaryFlows then 0 else 1)
      ensures whole <= config.canaryFlows
      ensures OnlyCanariesBeyond(PlanOf(observations), whole, part, 0, limit)
    {
      hide Valid, OnlyBaseline, OnlyCanariesBeyond, Canaries, Cached, IdsBelow;
      ghost var plan, firstId := PlanOf(observations), nextSampleId;
      SamplingFacts(main);
      var complete;
      complete, whole, part := FlowCanaries(main, limit);
      CachedStays(main);
      CanariesWithin(config, limit, plan, firstId, variantCache, PlanOf(observations), whole, part);
      CanariesAlone(config, limit, plan, firstId, main, variantCache, PlanOf(observations), whole, part);
    }

    lemma LimitInRange(main: FlowKey, reach: nat)
      requires Valid(main) && Swept(PlanOf(observations), reach) && reach <= config.maxHops
      ensures AnalysisLimit(observations, main, config.maxHops) <= config.maxHops
      ensures BaselineAnswered(observations) ==> 1 <= AnalysisLimit(observations, main, config.maxHops) <= reach
    {
      SeenWithinReach(observations, main, reach);
      forall i | 0 <= i < |observations| ensures 1 <= observations[i].spec.ttl {
        assert PlanOf(observations)[i].ttl >= 1;
      }
    }

    /** The report over everything observed. */
    method Report(main: FlowKey, regions: seq<Region>, ghost measured: History)
      returns (trace: TraceResult, ghost h: History)
      requires Valid(main) && measured.main == main && measured.regions == regions && measured.variants == variantCache
      requires measured.nextSampleId == nextSampleId && warnings == WarningsOf(config, measured)
      requires Stepped(config, observations, measured)
      requires Probed(config, observations, measured) && Unrefused(config, observations, warnings, measured)
      modifies `warnings
      ensures RunOf(config, trace, h) && trace.observations == observations && trace.warnings == warnings
    {
      hide Valid, RunOf, Accounts, Stepped, Probed, Unrefused, Summarized, HopsOf, AnalysisLimit, FirstTerminalTtl,
           LastObservedTtl, SortBy, BaselineAnswered, ReachedDestination, ProbedMax, SilentTailOf, WarningsOf;
      var limit := AnalysisLimit(observations, main, config.maxHops);
      var answered := BaselineAnswered(observations);
      var stop := FirstTerminalTtl(observations, main);
      var probedMax := ProbedMax(observations);
      var silent := answered && stop.None? && limit < probedMax;
      if regions == [] && answered && !silent {
        warnings := warnings + [NoAmbiguousBoundary];
      }
      if answered && stop.None? {
        warnings := warnings + [NoTerminalResponse];
      }
      StopIsLimit(main);
      var hops := SummarizeHops(observations, if stop.Some? then stop.value else limit, main);
      ghost var special, untailed;
      var segments;
      segments, special := SummarizeSegments(regions, observations, hops, config);
      untailed := segments;
      if silent {
        var tail := SummarizeSilentTail(observations, limit, probedMax, hops, config);
        segments := SortBy(segments + [tail], BoundsThenKind);
      }
      trace := TraceResult(observations, hops, segments, warnings, ReachedDestination(observations, main), stop,
                           probedMax, |observations|, baselineProbeCount, |observations| - baselineProbeCount);
      h := measured.(used := usedVariantValues, special := special, untailed := untailed);
      SameHistory(measured, h, old(warnings), warnings);
      RunReported(main, trace, h);
    }

    lemma RunReported(main: FlowKey, trace: TraceResult, h: History)
      requires Valid(main) && h.main == main && h.variants == variantCache && h.nextSampleId == nextSampleId
      requires h.used == usedVariantValues && trace.observations == observations
      requires trace.probeCount == |observations| && trace.baselineProbeCount == baselineProbeCount
      requires trace.adaptiveProbeCount == |observations| - baselineProbeCount
      requires Stepped(config, observations, h) && Probed(config, observations, h)
      requires Unrefused(config, observations, trace.warnings, h) && Reported(config, trace, h)
      ensures RunOf(config, trace, h)
    {
      hide Stepped, Probed, Unrefused, Reported, Ledger, Cache, MainFlowOf, FromNetwork, FreePool, VariantsNeeded;
    }

    /** A terminal TTL is the analysis limit. */
    lemma StopIsLimit(main: FlowKey)
      requires Valid(main)
      ensures FirstTerminalTtl(observations, main).Some? ==>
                FirstTerminalTtl(observations, main).value == AnalysisLimit(observations, main, config.maxHops)
      ensures config.Valid()
    {
    }

    lemma SameHistory(measured: History, h: History, before: seq<Warning>, after: seq<Warning>)
      requires config.Valid()
      requires h == measured.(used := h.used, special := h.special, untailed := h.untailed)
      ensures Stepped(config, observations, measured) ==> Stepped(config, observations, h)
      ensures WarningsOf(config, h) == WarningsOf(config, measured)
      ensures Probed(config, observations, measured) ==> Probed(config, observations, h)
      ensures Unrefused(config, observations, before, measured) && before <= after ==>
                Unrefused(config, observations, after, h)
    {
      hide AllSatisfied, GrownWithin, FoundRegions, Swept, NoTokenReuse, OnlyBaseline, AnalysisLimit, Canaries,
           Clustered, WholeSamples, AllDrawn, BaselineOf, SampledInTurn, Refusals, Windows, BaselineAnswered;
    }

    lemma StartsRun(main: FlowKey)
      requires config.Valid() && VariantsNeeded(config) <= TokensLeft(config) && MainFlowOf(config, main)
      requires observations == [] && baselineProbeCount == 0 && nextSampleId == 1
      requires variantCache == map[] && usedVariantValues == {}
      ensures Valid(main)
    {
      hide TokensLeft, FreePool, VariantsNeeded;
      TokensLeftFree(config, main);
    }

    lemma LogIsNetworks(main: FlowKey)
      requires Valid(main)
      ensures FromNetwork(network, observations)
    {
    }

    /** One uninterrupted run, from a new controller. */
    method Run() returns (trace: TraceResult, ghost h: History)
      requires config.Valid() && VariantsNeeded(config) <= TokensLeft(config)
      requires observations == [] && warnings == [] && baselineProbeCount == 0 && nextSampleId == 1
      requires variantCache == map[] && usedVariantValues == {}
      modifies this
      ensures RunOf(config, trace, h)
      ensures FromNetwork(network, trace.observations)
    {
      hide *;
      var main := MainFlow();
      StartsRun(main);
      var regions: seq<Region>;
      ghost var measured;
      regions, measured := Measure(main);
      LogIsNetworks(main);
      trace, h := Report(main, regions, measured);
    }
  }
}
