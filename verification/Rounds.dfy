/** The baseline in closed form: what each attempted round added to the log, where it stopped and why. */
module Rounds {
  import opened Evidence
  import opened Ledgers
  import opened Model
  import opened Sampling
  import opened Sequences
  import opened Settings
  import opened Sweeps
  import opened Wrappers

  /** The log after an attempted round, the TTLs below its last chunk, and whether that chunk was sent. */
  datatype Round = Round(log: Log, floor: nat, sent: bool)

  /** The sweep limit of a round: the destination once known, the whole range at first, then the
      visible part of the path and a few guard hops. */
  function SweepLimit(config: TraceConfig, log: Log, round: nat, terminal: Option<nat>): nat {
    if terminal.Some? then terminal.value
    else if round == 0 || LastObservedTtl(log).None? then config.maxHops
    else if LastObservedTtl(log).value + config.tailGuardHops < config.maxHops
    then LastObservedTtl(log).value + config.tailGuardHops
    else config.maxHops
  }

  /** A round adds the main flow's probes up to the end of its last chunk, or up to its floor when that
      chunk was refused. Nothing below the last chunk was terminal; a round that was sent reached its
      limit or a terminal reply, and a refused chunk did not fit the budget. */
  ghost predicate RoundFollows(config: TraceConfig, main: FlowKey, id: nat, limit: nat, before: Log, round: Round) {
    && before <= round.log && round.floor < limit && WholeChunks(round.floor, config.chunkSize)
    && PlanOf(round.log)
       == PlanOf(before)
          + Bundle(Range(1, Reached(config, round, limit)), main, BaselineFixed, id, config.payloadSize)
    && QuietSince(round.log, |before|, round.floor)
    && if round.sent then Reached(config, round, limit) == limit || TerminalSince(round.log, |before|)
       else ChunkRefused(config, |round.log|, round.floor, limit)
  }

  function Reached(config: TraceConfig, round: Round, limit: nat): nat {
    if round.sent then ChunkEnd(config, round.floor, limit) else round.floor
  }

  ghost predicate QuietSince(log: Log, from: nat, ttl: nat) {
    forall i :: from <= i < |log| && log[i].spec.ttl <= ttl ==> !log[i].reply.terminal
  }

  ghost predicate TerminalSince(log: Log, from: nat) {
    exists i :: from <= i < |log| && log[i].reply.terminal
  }

  function LogBefore(rounds: seq<Round>, k: nat): Log
    requires k <= |rounds|
  {
    if k == 0 then [] else rounds[k - 1].log
  }

  ghost predicate RoundsFollow(config: TraceConfig, main: FlowKey, rounds: seq<Round>) {
    forall k :: 0 <= k < |rounds| ==> RoundAt(config, main, rounds, k)
  }

  ghost predicate RoundAt(config: TraceConfig, main: FlowKey, rounds: seq<Round>, k: nat)
    requires k < |rounds|
  {
    var before := LogBefore(rounds, k);
    RoundFollows(config, main, k + 1, SweepLimit(config, before, k, FirstTerminalTtl(before, main)), before, rounds[k])
  }

  /** All rounds but the last were sent and the first was answered; the last one was refused, or was a
      silent first one, or completes the rounds asked for. */
  ghost predicate BaselineOf(config: TraceConfig, main: FlowKey, rounds: seq<Round>, warned: seq<Warning>) {
    && 1 <= |rounds| <= config.baselineRounds && RoundsFollow(config, main, rounds)
    && (forall k :: 0 <= k < |rounds| - 1 ==> rounds[k].sent)
    && (|rounds| > 1 ==> !Silent(rounds[0].log))
    && var last := rounds[|rounds| - 1];
       if !last.sent then warned == [BudgetExhausted]
       else if |rounds| == 1 && Silent(last.log) then warned == [NoFirstResponse]
       else warned == [] && |rounds| == config.baselineRounds
  }

  lemma NoRounds(config: TraceConfig, main: FlowKey)
    ensures RoundsFollow(config, main, [])
  {
  }

  /** One more round. */
  lemma RoundsAppend(config: TraceConfig, main: FlowKey, rounds: seq<Round>, round: Round)
    requires RoundsFollow(config, main, rounds)
    requires var before := LogBefore(rounds, |rounds|);
             RoundFollows(config, main, |rounds| + 1,
                          SweepLimit(config, before, |rounds|, FirstTerminalTtl(before, main)), before, round)
    ensures RoundsFollow(config, main, rounds + [round])
  {
    hide RoundFollows, SweepLimit, FirstTerminalTtl;
    var more := rounds + [round];
    forall k | 0 <= k < |more| ensures RoundAt(config, main, more, k) {
      if k < |rounds| {
        assert RoundAt(config, main, rounds, k);
        assert LogBefore(more, k) == LogBefore(rounds, k);
      }
    }
  }

  /** The chunks before the last one have the lower TTLs. */
  lemma QuietBelow(before: Log, log: Log, after: Log, main: FlowKey, id: nat, payloadSize: nat, stop: nat)
    requires before <= log <= after && !TerminalSince(log, |before|)
    requires PlanOf(after) == PlanOf(before) + Bundle(Range(1, stop), main, BaselineFixed, id, payloadSize)
    ensures QuietSince(after, |before|, |log| - |before|)
  {
    forall i | |before| <= i < |after| && after[i].spec.ttl <= |log| - |before| ensures !after[i].reply.terminal {
      assert PlanOf(after)[i].ttl == Range(1, stop)[i - |before|];
      assert after[i] == log[i];
    }
  }

  lemma TerminalSinceGrows(log: Log, batch: Log, from: nat)
    requires from <= |log|
    ensures TerminalSince(log + batch, from) <==> TerminalSince(log, from) || LowestTerminal(batch).Some?
  {
    hide LowestTerminal;
    var whole := log + batch;
    if TerminalSince(log, from) {
      var i :| from <= i < |log| && log[i].reply.terminal;
      assert whole[i] == log[i];
    }
    if LowestTerminal(batch).Some? {
      var i :| 0 <= i < |batch| && batch[i].reply.terminal;
      assert whole[|log| + i] == batch[i];
    }
    if TerminalSince(whole, from) {
      var i :| from <= i < |whole| && whole[i].reply.terminal;
      assert whole[i] == if i < |log| then log[i] else batch[i - |log|];
    }
  }

  lemma SentRound(config: TraceConfig, main: FlowKey, id: nat, limit: nat, before: Log, log: Log, floor: nat,
                  stop: nat)
    requires before <= log && floor < limit && WholeChunks(floor, config.chunkSize)
    requires stop == ChunkEnd(config, floor, limit)
    requires PlanOf(log) == PlanOf(before) + Bundle(Range(1, stop), main, BaselineFixed, id, config.payloadSize)
    requires QuietSince(log, |before|, floor)
    requires stop == limit || TerminalSince(log, |before|)
    ensures RoundFollows(config, main, id, limit, before, Round(log, floor, true))
  {
  }

  lemma CutRound(config: TraceConfig, main: FlowKey, id: nat, limit: nat, before: Log, log: Log, floor: nat)
    requires before <= log && !TerminalSince(log, |before|) && ChunkRefused(config, |log|, floor, limit)
    requires PlanOf(log) == PlanOf(before) + Bundle(Range(1, floor), main, BaselineFixed, id, config.payloadSize)
    ensures RoundFollows(config, main, id, limit, before, Round(log, floor, false))
  {
  }

  /** A refused round leaves less room than the whole range of TTLs. */
  lemma RoundRefused(config: TraceConfig, main: FlowKey, id: nat, limit: nat, before: Log, round: Round)
    requires RoundFollows(config, main, id, limit, before, round) && !round.sent && limit <= config.maxHops
    ensures |round.log| + config.maxHops > config.maxProbes
  {
  }

  // ---------- Where rounds stop ----------

  lemma RoundAtIs(config: TraceConfig, main: FlowKey, rounds: seq<Round>, k: nat)
    requires RoundsFollow(config, main, rounds) && k < |rounds|
    ensures var before := LogBefore(rounds, k);
            RoundFollows(config, main, k + 1, SweepLimit(config, before, k, FirstTerminalTtl(before, main)), before,
                         rounds[k])
  {
    assert RoundAt(config, main, rounds, k);
  }

  /** A round goes no further than its last chunk, which is where it can meet its first terminal reply. */
  lemma RoundStops(config: TraceConfig, main: FlowKey, id: nat, limit: nat, before: Log, round: Round)
    requires RoundFollows(config, main, id, limit, before, round)
    ensures forall i :: |before| <= i < |round.log| ==> && round.log[i].spec.ttl <= limit
                                                        && round.log[i].spec.ttl <= round.floor + config.chunkSize
                                                        && round.log[i].spec.sampleId == id
    ensures forall i :: |before| <= i < |round.log| && round.log[i].reply.terminal ==>
              round.log[i].spec.ttl > round.floor
  {
    var reach := Reached(config, round, limit);
    forall i | |before| <= i < |round.log|
      ensures round.log[i].spec.ttl <= limit && round.log[i].spec.ttl <= round.floor + config.chunkSize
      ensures round.log[i].spec.sampleId == id
    {
      assert PlanOf(round.log)[i].ttl == Range(1, reach)[i - |before|];
      assert PlanOf(round.log)[i].sampleId == id;
    }
  }

  lemma {:induction false} FirstRoundStays(config: TraceConfig, main: FlowKey, rounds: seq<Round>, n: nat)
    requires RoundsFollow(config, main, rounds) && 1 <= n <= |rounds|
    ensures rounds[0].log <= LogBefore(rounds, n)
  {
    hide SweepLimit, FirstTerminalTtl;
    if n == 1 {
    } else {
      FirstRoundStays(config, main, rounds, n - 1);
      assert RoundAt(config, main, rounds, n - 1);
    }
  }

  /** Every baseline probe is of one round, whose number its sample has. */
  lemma {:induction false} RoundOf(config: TraceConfig, main: FlowKey, rounds: seq<Round>, n: nat, i: nat)
    returns (k: nat)
    requires RoundsFollow(config, main, rounds) && n <= |rounds| && i < |LogBefore(rounds, n)|
    ensures k < n && |LogBefore(rounds, k)| <= i < |rounds[k].log|
    ensures LogBefore(rounds, k) <= rounds[k].log <= LogBefore(rounds, n)
    ensures rounds[k].log[i].spec.sampleId == k + 1
    decreases n
  {
    hide SweepLimit, FirstTerminalTtl;
    var before := LogBefore(rounds, n - 1);
    assert RoundAt(config, main, rounds, n - 1);
    if i < |before| {
      k := RoundOf(config, main, rounds, n - 1, i);
    } else {
      k := n - 1;
      RoundStops(config, main, n, SweepLimit(config, before, n - 1, FirstTerminalTtl(before, main)), before,
                 rounds[n - 1]);
    }
  }

  /** No round sends a probe beyond the chunk in which it met a terminal reply. */
  lemma SweepsStop(config: TraceConfig, main: FlowKey, rounds: seq<Round>, i: nat, j: nat)
    requires RoundsFollow(config, main, rounds) && config.chunkSize > 0
    requires var log := LogBefore(rounds, |rounds|);
             && i < |log| && j < |log| && log[i].spec.sampleId == log[j].spec.sampleId && log[i].reply.terminal
    ensures var log := LogBefore(rounds, |rounds|);
            log[j].spec.ttl <= log[i].spec.ttl || SameChunk(log[i].spec.ttl, log[j].spec.ttl, config.chunkSize)
  {
    hide SweepLimit, FirstTerminalTtl, RoundFollows;
    var k := RoundOf(config, main, rounds, |rounds|, i);
    var l := RoundOf(config, main, rounds, |rounds|, j);
    var before := LogBefore(rounds, k);
    assert RoundAt(config, main, rounds, k);
    var limit := SweepLimit(config, before, k, FirstTerminalTtl(before, main));
    RoundStops(config, main, k + 1, limit, before, rounds[k]);
    WholeFloor(config, main, k + 1, limit, before, rounds[k]);
    SameChunkAbove(rounds[k].floor, rounds[k].log[i].spec.ttl, rounds[k].log[j].spec.ttl, config.chunkSize);
  }

  /** Counted from TTL 1, the two lie in one chunk. */
  predicate SameChunk(a: nat, b: nat, chunkSize: nat)
    requires chunkSize > 0
  {
    (a - 1) / chunkSize == (b - 1) / chunkSize
  }

  lemma WholeFloor(config: TraceConfig, main: FlowKey, id: nat, limit: nat, before: Log, round: Round)
    requires RoundFollows(config, main, id, limit, before, round)
    ensures WholeChunks(round.floor, config.chunkSize)
  {
  }

  lemma SameChunkAbove(floor: nat, a: nat, b: nat, chunkSize: nat)
    requires WholeChunks(floor, chunkSize) && chunkSize > 0 && floor < a && b <= floor + chunkSize
    requires a <= floor + chunkSize
    ensures b <= a || SameChunk(a, b, chunkSize)
  {
    var n: nat :| floor == Bulk(n, chunkSize);
    if a < b {
      BulkStep(n, chunkSize);
      QuotientIs(a - 1, chunkSize, n);
      QuotientIs(b - 1, chunkSize, n);
    }
  }

  /** No probe of an earlier sample was terminal for the main flow at a lower TTL, and one was terminal no lower or
      was answered no more than the guard hops below. */
  ghost predicate InSight(config: TraceConfig, main: FlowKey, log: Log, i: nat)
    requires i < |log|
  {
    var here := log[i].spec;
    && (forall j :: 0 <= j < i && log[j].spec.sampleId < here.sampleId && MainTerminal(log[j], main) ==>
          here.ttl <= log[j].spec.ttl)
    && exists j :: && 0 <= j < i && log[j].spec.sampleId < here.sampleId
                   && ((MainTerminal(log[j], main) && here.ttl <= log[j].spec.ttl)
                       || (log[j].Answered() && here.ttl <= log[j].spec.ttl + config.tailGuardHops))
  }

  /** What was sent before a round is of earlier samples, and what it sends is not. */
  lemma {:induction false} EarlierSamples(config: TraceConfig, main: FlowKey, rounds: seq<Round>, k: nat, j: nat)
    requires RoundsFollow(config, main, rounds) && k < |rounds| && j < |rounds[k].log|
    ensures LogBefore(rounds, k) <= rounds[k].log
    ensures rounds[k].log[j].spec.sampleId < k + 1 <==> j < |LogBefore(rounds, k)|
  {
    hide SweepLimit, FirstTerminalTtl, RoundsFollow;
    var before := LogBefore(rounds, k);
    RoundAtIs(config, main, rounds, k);
    RoundStops(config, main, k + 1, SweepLimit(config, before, k, FirstTerminalTtl(before, main)), before, rounds[k]);
    if j < |before| {
      var l := RoundOf(config, main, rounds, k, j);
      assert rounds[l].log[j] == before[j] == rounds[k].log[j];
    }
  }

  lemma LimitInSight(config: TraceConfig, main: FlowKey, before: Log, k: nat, ttl: nat)
    requires k > 0 && !Silent(before) && ttl <= SweepLimit(config, before, k, FirstTerminalTtl(before, main))
    ensures forall j :: 0 <= j < |before| && MainTerminal(before[j], main) ==> ttl <= before[j].spec.ttl
    ensures exists j :: && 0 <= j < |before|
                        && ((MainTerminal(before[j], main) && ttl <= before[j].spec.ttl)
                            || (before[j].Answered() && ttl <= before[j].spec.ttl + config.tailGuardHops))
  {
    var terminal, last := FirstTerminalTtl(before, main), LastObservedTtl(before);
    if terminal.None? {
      var o :| o in before && o.Answered();
      var j :| 0 <= j < |before| && before[j] == o;
    }
  }

  lemma {:induction false} SeenBefore(config: TraceConfig, main: FlowKey, rounds: seq<Round>, k: nat)
    requires RoundsFollow(config, main, rounds) && 0 < k <= |rounds| && !Silent(rounds[0].log)
    ensures !Silent(LogBefore(rounds, k))
    decreases k
  {
    hide RoundsFollow, SweepLimit, FirstTerminalTtl;
    if k == 1 {
    } else {
      SeenBefore(config, main, rounds, k - 1);
      RoundAtIs(config, main, rounds, k - 1);
      var o :| o in LogBefore(rounds, k - 1) && o.Answered();
      assert o in rounds[k - 1].log;
    }
  }

  /** Later rounds stay in sight: up to the destination once it is known, and otherwise at most the guard hops
      beyond a TTL that already answered. */
  lemma LaterRoundsInSight(config: TraceConfig, main: FlowKey, rounds: seq<Round>, i: nat)
    requires RoundsFollow(config, main, rounds) && (|rounds| > 1 ==> !Silent(rounds[0].log))
    requires i < |LogBefore(rounds, |rounds|)| && LogBefore(rounds, |rounds|)[i].spec.sampleId > 1
    ensures var log := LogBefore(rounds, |rounds|); InSight(config, main, log, i)
  {
    hide SweepLimit, FirstTerminalTtl, RoundFollows, RoundsFollow, InSight;
    var k := RoundOf(config, main, rounds, |rounds|, i);
    var log, before := LogBefore(rounds, |rounds|), LogBefore(rounds, k);
    RoundAtIs(config, main, rounds, k);
    RoundStops(config, main, k + 1, SweepLimit(config, before, k, FirstTerminalTtl(before, main)), before, rounds[k]);
    SeenBefore(config, main, rounds, k);
    LimitInSight(config, main, before, k, log[i].spec.ttl);
    assert log[i] == rounds[k].log[i];
    ShowsInSight(config, main, rounds, k, log, i);
  }

  lemma ShowsInSight(config: TraceConfig, main: FlowKey, rounds: seq<Round>, k: nat, log: Log, i: nat)
    requires RoundsFollow(config, main, rounds) && k < |rounds| && rounds[k].log <= log
    requires var before := LogBefore(rounds, k);
             && |before| <= i < |rounds[k].log| && log[i].spec.sampleId == k + 1
             && (forall j :: 0 <= j < |before| && MainTerminal(before[j], main) ==>
                   log[i].spec.ttl <= before[j].spec.ttl)
             && exists j :: && 0 <= j < |before|
                            && ((MainTerminal(before[j], main) && log[i].spec.ttl <= before[j].spec.ttl)
                                || (before[j].Answered()
                                    && log[i].spec.ttl <= before[j].spec.ttl + config.tailGuardHops))
    ensures InSight(config, main, log, i)
  {
    hide RoundsFollow, MainTerminal;
    var before := LogBefore(rounds, k);
    forall j | 0 <= j < i
      ensures log[j].spec.sampleId < k + 1 <==> j < |before|
      ensures j < |before| ==> log[j] == before[j]
    {
      EarlierSamples(config, main, rounds, k, j);
      assert log[j] == rounds[k].log[j];
    }
    EarlierSamples(config, main, rounds, k, i);
    var j :| && 0 <= j < |before|
             && ((MainTerminal(before[j], main) && log[i].spec.ttl <= before[j].spec.ttl)
                 || (before[j].Answered() && log[i].spec.ttl <= before[j].spec.ttl + config.tailGuardHops));
    assert log[j] == before[j];
  }
}
