/** The books of a run: the probes sent, what the network answered, and what a step may add. */
module Ledgers {
  import opened Evidence
  import opened Model
  import opened Regions
  import opened Sampling
  import opened Sequences
  import opened Settings
  import opened Tokens

  // ---------- The network ----------

  type LegalReply = r: Reply | r.Legal() witness NO_REPLY

  datatype Answer = Answer(probeId: nat, reply: LegalReply)

  /** Any network at all: what it answers to the k-th probe of the run. */
  type Network = (nat, ProbeSpec) -> Answer

  function Receive(network: Network, k: nat, spec: ProbeSpec): Observation {
    var answer := network(k, spec);
    Observation(spec.(probeId := answer.probeId), answer.reply)
  }

  ghost predicate FromNetwork(network: Network, log: Log) {
    forall k :: 0 <= k < |log| ==> log[k] == Receive(network, k, PlanOf(log)[k])
  }

  // ---------- Warnings ----------

  datatype Warning = BudgetExhausted | NoFirstResponse | NoAmbiguousBoundary | NoTerminalResponse

  // ---------- What holds between probes ----------

  /** What holds of a run between any two probes. */
  ghost predicate Ledger(config: TraceConfig, main: FlowKey, variants: map<nat, FlowKey>, nextSampleId: nat,
                         log: Log, sweeps: nat) {
    && |log| <= config.maxProbes && LegalLog(log) && nextSampleId >= 1
    && Accounted(PlanOf(log), main, variants, nextSampleId, config.maxHops)
    && sweeps == SweepProbes(PlanOf(log))
  }

  lemma LedgerGrows(config: TraceConfig, main: FlowKey, variants: map<nat, FlowKey>, nextSampleId: nat,
                    log: Log, sweeps: nat, specs: Plan, received: Log, sweep: bool)
    requires Ledger(config, main, variants, nextSampleId, log, sweeps)
    requires |log| + |specs| <= config.maxProbes && AnswersBatch(specs, received)
    requires forall s :: s in specs ==> s.probeId == 0 && SweepPhase(s.phase) == sweep
    requires Accounted(PlanOf(log) + specs, main, variants, nextSampleId, config.maxHops)
    ensures PlanOf(log + received) == PlanOf(log) + specs
    ensures Ledger(config, main, variants, nextSampleId, log + received, sweeps + (if sweep then |received| else 0))
  {
    PlanOfBatch(log, specs, received);
    SweepProbesAppend(PlanOf(log), specs, sweep);
  }

  lemma NetworkGrows(network: Network, log: Log, specs: Plan, received: Log)
    requires FromNetwork(network, log) && forall s :: s in specs ==> s.probeId == 0
    requires |received| == |specs|
    requires forall i :: 0 <= i < |specs| ==> received[i] == Receive(network, |log| + i, specs[i])
    ensures FromNetwork(network, log + received)
  {
    var whole := log + received;
    forall k | 0 <= k < |whole| ensures whole[k] == Receive(network, k, PlanOf(whole)[k]) {
      if k < |log| {
        assert PlanOf(whole)[k] == PlanOf(log)[k];
      } else {
        assert specs[k - |log|] in specs;
        assert PlanOf(whole)[k] == specs[k - |log|];
      }
    }
  }

  // ---------- What a step adds ----------

  /** TTLs that one bundle can probe. */
  ghost predicate ProbeWindow(ttls: seq<nat>, maxTtl: nat) {
    ttls != [] && StrictlyIncreasing(ttls) && forall t :: t in ttls ==> 1 <= t <= maxTtl
  }

  lemma WindowSize(ttls: seq<nat>, maxTtl: nat)
    requires ProbeWindow(ttls, maxTtl)
    ensures |ttls| <= maxTtl
  {
    IncreasingBound(ttls, |ttls| - 1);
    assert ttls[|ttls| - 1] in ttls;
  }

  lemma {:induction false} IncreasingBound(ttls: seq<nat>, i: nat)
    requires StrictlyIncreasing(ttls) && i < |ttls| && forall t :: t in ttls ==> 1 <= t
    ensures i < ttls[i]
  {
    assert ttls[i] in ttls;
    if i == 0 {
    } else {
      IncreasingBound(ttls, i - 1);
    }
  }

  /** So many TTLs make whole chunks. */
  ghost predicate WholeChunks(ttls: nat, chunkSize: nat) {
    exists n: nat :: ttls == Bulk(n, chunkSize)
  }

  lemma NoChunks(chunkSize: nat)
    ensures WholeChunks(0, chunkSize)
  {
    BulkStep(0, chunkSize);
    assert 0 == Bulk(0, chunkSize);
  }

  lemma NextChunk(ttls: nat, chunkSize: nat)
    requires WholeChunks(ttls, chunkSize)
    ensures WholeChunks(ttls + chunkSize, chunkSize)
  {
    var n: nat :| ttls == Bulk(n, chunkSize);
    BulkStep(n, chunkSize);
    assert ttls + chunkSize == Bulk(n + 1, chunkSize);
  }

  /** The last TTL of the chunk that starts above `floor`. */
  function ChunkEnd(config: TraceConfig, floor: nat, limit: nat): nat {
    if floor + config.chunkSize < limit then floor + config.chunkSize else limit
  }

  /** With so many probes sent, the next chunk of a sweep does not fit the budget. */
  ghost predicate ChunkRefused(config: TraceConfig, sent: nat, floor: nat, limit: nat) {
    && floor < limit && WholeChunks(floor, config.chunkSize)
    && sent + ChunkEnd(config, floor, limit) - floor > config.maxProbes
  }

  /** The canaries that were sent: whole sweeps of the first variants, then part of one exactly when the
      budget could not hold its next chunk. */
  ghost predicate Canaries(config: TraceConfig, limit: nat, plan: Plan, firstId: nat,
                           variants: map<nat, FlowKey>, grown: Plan, whole: nat, part: nat) {
    && whole <= config.canaryFlows && AllCached(variants, 1, whole)
    && var sent :=
       plan + Series(Range(1, limit), CachedFlows(variants, 1, whole), CanaryVaried, firstId, config.payloadSize);
       if whole == config.canaryFlows then part == 0 && grown == sent
       else && part < limit && whole + 1 in variants && ChunkRefused(config, |grown|, part, limit)
            && grown == sent
               + Bundle(Range(1, part), variants[whole + 1], CanaryVaried, firstId + whole, config.payloadSize)
  }

  /** What was sent stays described when the cache grows. */
  lemma CanariesExtend(config: TraceConfig, limit: nat, plan: Plan, firstId: nat, variants: map<nat, FlowKey>,
                       more: map<nat, FlowKey>, grown: Plan, whole: nat, part: nat)
    requires Canaries(config, limit, plan, firstId, variants, grown, whole, part) && Extends(variants, more)
    ensures Canaries(config, limit, plan, firstId, more, grown, whole, part)
  {
    hide Series, Bundle;
    assert CachedFlows(variants, 1, whole) == CachedFlows(more, 1, whole) by {
      assert forall v :: 1 <= v < 1 + whole ==> v in variants;
    }
  }

  lemma NoCanariesYet(config: TraceConfig, limit: nat, plan: Plan, firstId: nat, variants: map<nat, FlowKey>)
    ensures plan
            == plan + Series(Range(1, limit), CachedFlows(variants, 1, 0), CanaryVaried, firstId, config.payloadSize)
  {
  }

  /** What sampling a window adds, in closed form: as many missing repeats of the main flow as the
      budget affords, then, if none had to be dropped and variants are wanted, as many of the next
      variants. It is refused when something wanted did not fit. */
  ghost predicate Sampled(config: TraceConfig, main: FlowKey, region: Region, plan: Plan, firstId: nat,
                          variants: map<nat, FlowKey>, grown: Plan, nextId: nat, refused: bool)
    requires config.Valid() && region.probeTtls != []
  {
    var ttls, have := region.probeTtls, |CompleteSamples(plan, Elements(region.probeTtls), true)|;
    var repeats := Missing(plan, ttls, false, config.temporalSamples);
    |plan| <= config.maxProbes
    && var sentRepeats := Affordable(repeats, config.maxProbes - |plan|, |ttls|);
       var middle := plan + Series(ttls, Copies(main, sentRepeats), DbpFixed, firstId, config.payloadSize);
       if sentRepeats < repeats then refused && grown == middle && nextId == firstId + sentRepeats + 1
       else if !region.variantCoverage then !refused && grown == middle && nextId == firstId + sentRepeats
       else
         var draws := Missing(plan, ttls, true, config.Required());
         |middle| <= config.maxProbes
         && var sentDraws := Affordable(draws, config.maxProbes - |middle|, |ttls|);
            && AllCached(variants, have + 1, sentDraws)
            && grown == middle + Series(ttls, CachedFlows(variants, have + 1, sentDraws), DbpVaried,
                                        firstId + sentRepeats, config.payloadSize)
            && nextId == firstId + sentRepeats + sentDraws
            && (refused <==> sentDraws < draws)
  }
}
