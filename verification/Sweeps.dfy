/** Rounds of the baseline sweep, chunk by chunk. */
module Sweeps {
  import opened Evidence
  import opened Model
  import opened Sequences
  import opened Wrappers

  /** Nothing but baseline probes of the main flow so far. */
  ghost predicate OnlyBaseline(plan: Plan, main: FlowKey) {
    forall i :: 0 <= i < |plan| ==> plan[i].phase.BaselineFixed? && plan[i].flow == main
  }

  predicate Silent(log: Log) {
    forall o :: o in log ==> !o.Answered()
  }

  /** The lowest TTL that answered terminally in a batch. */
  function LowestTerminal(batch: Log): (ttl: Option<nat>)
    ensures ttl.None? <==> forall i :: 0 <= i < |batch| ==> !batch[i].reply.terminal
    ensures ttl.Some? ==> exists i :: 0 <= i < |batch| && batch[i].reply.terminal && batch[i].spec.ttl == ttl.value
    ensures ttl.Some? ==> forall i :: 0 <= i < |batch| && batch[i].reply.terminal ==> ttl.value <= batch[i].spec.ttl
  {
    if batch == [] then None
    else
      var last := |batch| - 1;
      var front := LowestTerminal(batch[..last]);
      if batch[last].reply.terminal then Smaller(front, batch[last].spec.ttl) else front
  }

  function Lesser(a: Option<nat>, b: Option<nat>): Option<nat> {
    if b.None? then a else Smaller(a, b.value)
  }

  /** The lowest terminal TTL of a longer log is that of the log or of the batch. */
  lemma TerminalGrows(log: Log, batch: Log, main: FlowKey)
    requires forall i :: 0 <= i < |batch| ==> batch[i].spec.flow == main
    ensures FirstTerminalTtl(log + batch, main) == Lesser(FirstTerminalTtl(log, main), LowestTerminal(batch))
  {
    hide FirstTerminalTtl, LowestTerminal;
    var whole := log + batch;
    var a, b := FirstTerminalTtl(log, main), LowestTerminal(batch);
    assert forall i :: 0 <= i < |log| ==> whole[i] == log[i];
    assert forall i :: 0 <= i < |batch| ==> whole[|log| + i] == batch[i];
    if a.Some? {
      var i :| 0 <= i < |log| && MainTerminal(log[i], main) && log[i].spec.ttl == a.value;
      assert MainTerminal(whole[i], main);
    }
    if b.Some? {
      var i :| 0 <= i < |batch| && batch[i].reply.terminal && batch[i].spec.ttl == b.value;
      assert MainTerminal(whole[|log| + i], main);
    }
    forall i | 0 <= i < |whole| && MainTerminal(whole[i], main)
      ensures Lesser(a, b).Some? && Lesser(a, b).value <= whole[i].spec.ttl
    {
      assert whole[i] == if i < |log| then log[i] else batch[i - |log|];
    }
    TerminalIs(whole, main, Lesser(a, b));
  }

  /** The lowest terminal TTL is determined by being attained and least. */
  lemma TerminalIs(log: Log, main: FlowKey, ttl: Option<nat>)
    requires forall i :: 0 <= i < |log| && MainTerminal(log[i], main) ==> ttl.Some? && ttl.value <= log[i].spec.ttl
    requires ttl.Some? ==> exists i :: 0 <= i < |log| && MainTerminal(log[i], main) && log[i].spec.ttl == ttl.value
    ensures FirstTerminalTtl(log, main) == ttl
  {
  }

  /** A batch of one flow, no further than `stop`. */
  ghost predicate BatchOn(batch: Log, flow: FlowKey, stop: nat) {
    forall i :: 0 <= i < |batch| ==> batch[i].spec.flow == flow && batch[i].spec.ttl <= stop
  }

  /** The terminal TTL after a chunk of a round. */
  lemma ChunkTerminal(log: Log, batch: Log, main: FlowKey, stop: nat)
    requires BatchOn(batch, main, stop)
    ensures FirstTerminalTtl(log + batch, main) == Lesser(FirstTerminalTtl(log, main), LowestTerminal(batch))
    ensures LowestTerminal(batch).Some? ==> Lesser(FirstTerminalTtl(log, main), LowestTerminal(batch)).value <= stop
  {
    hide FirstTerminalTtl, LowestTerminal;
    TerminalGrows(log, batch, main);
    if LowestTerminal(batch).Some? {
      var i :| 0 <= i < |batch| && batch[i].reply.terminal && batch[i].spec.ttl == LowestTerminal(batch).value;
    }
  }

  lemma RangeJoin(first: nat, middle: nat, last: nat)
    requires first <= middle + 1 && middle <= last
    ensures Range(first, middle) + Range(middle + 1, last) == Range(first, last)
  {
  }

  lemma BundleJoin(a: seq<nat>, b: seq<nat>, flow: FlowKey, phase: Phase, id: nat, payloadSize: nat)
    ensures Bundle(a, flow, phase, id, payloadSize) + Bundle(b, flow, phase, id, payloadSize)
         == Bundle(a + b, flow, phase, id, payloadSize)
  {
  }

  /** The next chunk of a round extends its bundle and keeps the accounts. */
  lemma ChunkAccounted(plan: Plan, main: FlowKey, variants: map<nat, FlowKey>, id: nat, maxTtl: nat,
                       flow: FlowKey, phase: Phase, middle: nat, last: nat, payloadSize: nat)
    requires id >= 1 && middle < last <= maxTtl
    requires Accounted(plan + Bundle(Range(1, middle), flow, phase, id, payloadSize), main, variants, id + 1, maxTtl)
    requires Fresh(plan, id) && RightFlow(ProbeSpec(0, flow, phase, id, payloadSize, 0), main, variants)
    ensures plan + Bundle(Range(1, middle), flow, phase, id, payloadSize)
            + Bundle(Range(middle + 1, last), flow, phase, id, payloadSize)
         == plan + Bundle(Range(1, last), flow, phase, id, payloadSize)
    ensures Accounted(plan + Bundle(Range(1, last), flow, phase, id, payloadSize), main, variants, id + 1, maxTtl)
  {
    hide Accounted, RightFlow, Fresh, Bundle;
    RangeElements(middle + 1, last);
    NotYetProbed(plan, id, flow, phase, middle, last, payloadSize);
    AccountedBundle(plan + Bundle(Range(1, middle), flow, phase, id, payloadSize), main, variants, id + 1, maxTtl,
                    Range(middle + 1, last), flow, phase, id, payloadSize);
    RangeJoin(1, middle, last);
    BundleJoin(Range(1, middle), Range(middle + 1, last), flow, phase, id, payloadSize);
    assert plan + Bundle(Range(1, middle), flow, phase, id, payloadSize)
           + Bundle(Range(middle + 1, last), flow, phase, id, payloadSize)
        == plan + (Bundle(Range(1, middle), flow, phase, id, payloadSize)
                   + Bundle(Range(middle + 1, last), flow, phase, id, payloadSize));
  }

  lemma NotYetProbed(plan: Plan, id: nat, flow: FlowKey, phase: Phase, middle: nat, last: nat, payloadSize: nat)
    requires Fresh(plan, id) && middle < last
    ensures var whole := plan + Bundle(Range(1, middle), flow, phase, id, payloadSize);
            forall i :: 0 <= i < |whole| && whole[i].sampleId == id ==>
              whole[i].flow == flow && whole[i].phase == phase && whole[i].ttl !in Range(middle + 1, last)
  {
    RangeElements(middle + 1, last);
    var front := Bundle(Range(1, middle), flow, phase, id, payloadSize);
    var whole := plan + front;
    forall i | 0 <= i < |whole| && whole[i].sampleId == id
      ensures whole[i].flow == flow && whole[i].phase == phase && whole[i].ttl !in Range(middle + 1, last)
    {
      assert whole[i] == front[i - |plan|];
    }
  }

  /** The first round sets the reach; shorter later rounds keep it. */
  lemma SweptFirst(main: FlowKey, reach: nat, payloadSize: nat)
    requires main.variant == 0
    ensures Swept(Bundle(Range(1, reach), main, BaselineFixed, 1, payloadSize), reach)
  {
    RangeElements(1, reach);
    TtlsOfBundle(Range(1, reach), main, BaselineFixed, 1, payloadSize, false, 1);
  }

  lemma SweptAgain(plan: Plan, more: Plan, reach: nat)
    requires Swept(plan, reach) && forall s :: s in more ==> s.ttl <= reach
    ensures Swept(plan + more, reach)
  {
    TtlsOfAppend(plan, more, false, 1);
    forall i | 0 <= i < |plan + more| ensures (plan + more)[i].ttl <= reach {
      if i >= |plan| { assert (plan + more)[i] in more; }
    }
  }

  /** What a sweep saw is within its reach. */
  lemma SeenWithinReach(log: Log, main: FlowKey, reach: nat)
    requires Swept(PlanOf(log), reach)
    ensures LastObservedTtl(log).Some? ==> LastObservedTtl(log).value <= reach
    ensures FirstTerminalTtl(log, main).Some? ==> FirstTerminalTtl(log, main).value <= reach
  {
    hide LastObservedTtl, FirstTerminalTtl;
    forall i | 0 <= i < |log| ensures log[i].spec.ttl <= reach {
      assert PlanOf(log)[i].ttl <= reach;
    }
  }

  /** What a round adds to a swept log. */
  lemma RoundSwept(before: Log, after: Log, main: FlowKey, reach: nat, r: nat, id: nat, payloadSize: nat)
    requires Swept(PlanOf(before), reach) && r <= reach && OnlyBaseline(PlanOf(before), main)
    requires before <= after
    requires PlanOf(after) == PlanOf(before) + Bundle(Range(1, r), main, BaselineFixed, id, payloadSize)
    ensures Swept(PlanOf(after), reach) && OnlyBaseline(PlanOf(after), main)
    ensures FirstTerminalTtl(after, main).None? ==> FirstTerminalTtl(before, main).None?
    ensures BaselineAnswered(before) ==> BaselineAnswered(after)
  {
    hide Swept, FirstTerminalTtl;
    RangeElements(1, r);
    SweptAgain(PlanOf(before), Bundle(Range(1, r), main, BaselineFixed, id, payloadSize), reach);
    forall i | 0 <= i < |before| ensures after[i] == before[i] {
    }
    if FirstTerminalTtl(before, main).Some? {
      var i :| 0 <= i < |before| && MainTerminal(before[i], main);
      assert MainTerminal(after[i], main);
    }
    if BaselineAnswered(before) {
      var o :| o in before && o.Answered() && o.spec.phase.BaselineFixed?;
      var i :| 0 <= i < |before| && before[i] == o;
      assert after[i] == o;
    }
  }

  /** The first round, on an empty log. */
  lemma FirstRoundSwept(after: Log, main: FlowKey, reach: nat, payloadSize: nat)
    requires main.variant == 0
    requires PlanOf(after) == Bundle(Range(1, reach), main, BaselineFixed, 1, payloadSize)
    ensures Swept(PlanOf(after), reach) && OnlyBaseline(PlanOf(after), main)
    ensures BaselineAnswered(after) <==> !Silent(after)
  {
    SweptFirst(main, reach, payloadSize);
    forall i | 0 <= i < |after| ensures after[i].spec.phase.BaselineFixed? {
      assert PlanOf(after)[i].phase.BaselineFixed?;
    }
  }

  // ---------- Later rounds ----------

  /** An answer seen before round `id`, close enough below the TTL. */
  ghost predicate VisibleBefore(log: Log, id: nat, ttl: nat, guard: nat) {
    exists o :: o in log && o.Answered() && o.spec.sampleId < id && ttl <= o.spec.ttl + guard
  }

  ghost predicate UpToTerminal(log: Log, main: FlowKey, ttl: nat) {
    FirstTerminalTtl(log, main).Some? ==> ttl <= FirstTerminalTtl(log, main).value
  }

  /** Round `id` probed again all that was visible before it and the guard hops above, as far as the
      destination. */
  ghost predicate RoundRepeats(log: Log, main: FlowKey, id: nat, guard: nat, maxHops: nat) {
    forall ttl :: 1 <= ttl <= maxHops && VisibleBefore(log, id, ttl, guard) && UpToTerminal(log, main, ttl) ==>
      ttl in TtlsOf(PlanOf(log), false, id)
  }

  ghost predicate VisibleWithin(log: Log, main: FlowKey, id: nat, guard: nat, maxHops: nat, limit: nat) {
    forall ttl :: 1 <= ttl <= maxHops && VisibleBefore(log, id, ttl, guard) && UpToTerminal(log, main, ttl) ==>
      ttl <= limit
  }

  ghost predicate RoundsRepeat(log: Log, main: FlowKey, rounds: nat, guard: nat, maxHops: nat) {
    forall id :: 2 <= id <= rounds ==> RoundRepeats(log, main, id, guard, maxHops)
  }

  lemma TerminalComesDown(before: Log, after: Log, main: FlowKey)
    requires before <= after && FirstTerminalTtl(before, main).Some?
    ensures FirstTerminalTtl(after, main).Some?
    ensures FirstTerminalTtl(after, main).value <= FirstTerminalTtl(before, main).value
  {
    hide FirstTerminalTtl;
    var i :| 0 <= i < |before| && MainTerminal(before[i], main)
        && before[i].spec.ttl == FirstTerminalTtl(before, main).value;
    assert after[i] == before[i];
  }

  lemma NewIds(before: Log, after: Log, main: FlowKey, id: nat, r: nat, payloadSize: nat)
    requires before <= after
    requires PlanOf(after) == PlanOf(before) + Bundle(Range(1, r), main, BaselineFixed, id, payloadSize)
    ensures forall i :: |before| <= i < |after| ==> after[i].spec.sampleId == id
  {
    forall i | |before| <= i < |after| ensures after[i].spec.sampleId == id {
      assert PlanOf(after)[i] == Bundle(Range(1, r), main, BaselineFixed, id, payloadSize)[i - |before|];
    }
  }

  /** Old rounds stay as they were. */
  lemma OldRoundRepeats(before: Log, after: Log, main: FlowKey, id: nat, later: nat, guard: nat, maxHops: nat,
                        r: nat, payloadSize: nat)
    requires RoundRepeats(before, main, id, guard, maxHops) && id < later && before <= after
    requires PlanOf(after) == PlanOf(before) + Bundle(Range(1, r), main, BaselineFixed, later, payloadSize)
    ensures RoundRepeats(after, main, id, guard, maxHops)
  {
    hide FirstTerminalTtl, TtlsOf, Bundle;
    var more := Bundle(Range(1, r), main, BaselineFixed, later, payloadSize);
    TtlsOfAppend(PlanOf(before), more, false, id);
    NewIds(before, after, main, later, r, payloadSize);
    forall ttl | 1 <= ttl <= maxHops && VisibleBefore(after, id, ttl, guard) && UpToTerminal(after, main, ttl)
      ensures ttl in TtlsOf(PlanOf(after), false, id)
    {
      var o :| o in after && o.Answered() && o.spec.sampleId < id && ttl <= o.spec.ttl + guard;
      var i :| 0 <= i < |after| && after[i] == o;
      assert before[i] == o;
      if FirstTerminalTtl(before, main).Some? {
        TerminalComesDown(before, after, main);
      }
      assert VisibleBefore(before, id, ttl, guard) && UpToTerminal(before, main, ttl);
    }
  }

  /** A round that reaches its limit, or a terminal reply, repeats what was visible. */
  lemma NewRoundRepeats(before: Log, after: Log, main: FlowKey, id: nat, guard: nat, maxHops: nat,
                        limit: nat, r: nat, payloadSize: nat)
    requires before <= after && main.variant == 0
    requires PlanOf(after) == PlanOf(before) + Bundle(Range(1, r), main, BaselineFixed, id, payloadSize)
    requires VisibleWithin(before, main, id, guard, maxHops, limit)
    requires r == limit || (FirstTerminalTtl(after, main).Some? && FirstTerminalTtl(after, main).value <= r)
    ensures RoundRepeats(after, main, id, guard, maxHops)
  {
    hide FirstTerminalTtl, TtlsOf, Bundle;
    var more := Bundle(Range(1, r), main, BaselineFixed, id, payloadSize);
    TtlsOfAppend(PlanOf(before), more, false, id);
    TtlsOfBundle(Range(1, r), main, BaselineFixed, id, payloadSize, false, id);
    RangeElements(1, r);
    NewIds(before, after, main, id, r, payloadSize);
    forall ttl | 1 <= ttl <= maxHops && VisibleBefore(after, id, ttl, guard) && UpToTerminal(after, main, ttl)
      ensures ttl in TtlsOf(PlanOf(after), false, id)
    {
      var o :| o in after && o.Answered() && o.spec.sampleId < id && ttl <= o.spec.ttl + guard;
      var i :| 0 <= i < |after| && after[i] == o;
      assert before[i] == o;
      if FirstTerminalTtl(before, main).Some? {
        TerminalComesDown(before, after, main);
      }
      assert VisibleBefore(before, id, ttl, guard) && UpToTerminal(before, main, ttl);
      assert ttl <= r;
      assert ttl in Range(1, r);
    }
  }

  lemma RoundsGrow(before: Log, after: Log, main: FlowKey, id: nat, guard: nat, maxHops: nat,
                   limit: nat, r: nat, payloadSize: nat)
    requires before <= after && main.variant == 0 && id >= 1 && RoundsRepeat(before, main, id - 1, guard, maxHops)
    requires PlanOf(after) == PlanOf(before) + Bundle(Range(1, r), main, BaselineFixed, id, payloadSize)
    requires id >= 2 ==> VisibleWithin(before, main, id, guard, maxHops, limit)
    requires r == limit || (FirstTerminalTtl(after, main).Some? && FirstTerminalTtl(after, main).value <= r)
    ensures RoundsRepeat(after, main, id, guard, maxHops)
  {
    hide RoundRepeats, FirstTerminalTtl, VisibleWithin;
    forall k | 2 <= k <= id ensures RoundRepeats(after, main, k, guard, maxHops) {
      if k < id {
        OldRoundRepeats(before, after, main, k, id, guard, maxHops, r, payloadSize);
      } else {
        NewRoundRepeats(before, after, main, id, guard, maxHops, limit, r, payloadSize);
      }
    }
  }
}
