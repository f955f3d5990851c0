/** What the observation log says: which probes were sent, which samples are complete for a
    window, and how far the path is visible. */
module Evidence {
  import opened Model
  import opened Sequences
  import opened Wrappers

  type Log = seq<Observation>

  /** The probes behind a log, as the controller asked for them. */
  type Plan = seq<ProbeSpec>

  function PlanOf(log: Log): (plan: Plan)
    ensures |plan| == |log|
    ensures forall i :: 0 <= i < |log| ==> plan[i] == log[i].spec.(probeId := 0)
  {
    seq(|log|, i requires 0 <= i < |log| => log[i].spec.(probeId := 0))
  }

  lemma PlanOfBatch(log: Log, specs: Plan, received: Log)
    requires AnswersBatch(specs, received) && forall i :: 0 <= i < |specs| ==> specs[i].probeId == 0
    ensures PlanOf(log + received) == PlanOf(log) + specs
  {
  }

  predicate Varied(spec: ProbeSpec) {
    spec.flow.variant != 0
  }

  // ---------- Samples ----------

  /** The TTLs probed by one sample, on the main flow or on variants. */
  ghost function TtlsOf(plan: Plan, varied: bool, id: nat): set<nat> {
    set i | 0 <= i < |plan| && Varied(plan[i]) == varied && plan[i].sampleId == id :: plan[i].ttl
  }

  /** Samples that probed every TTL of a window. */
  ghost function CompleteSamples(plan: Plan, ttls: set<nat>, varied: bool): set<nat> {
    set i | 0 <= i < |plan| && Varied(plan[i]) == varied && ttls <= TtlsOf(plan, varied, plan[i].sampleId)
      :: plan[i].sampleId
  }

  /** One matched bundle: the same flow at every TTL of a list. */
  function Bundle(ttls: seq<nat>, flow: FlowKey, phase: Phase, sampleId: nat, payloadSize: nat): (bundle: Plan)
    ensures |bundle| == |ttls|
    ensures forall i :: 0 <= i < |ttls| ==> bundle[i] == ProbeSpec(ttls[i], flow, phase, sampleId, payloadSize, 0)
  {
    seq(|ttls|, i requires 0 <= i < |ttls| => ProbeSpec(ttls[i], flow, phase, sampleId, payloadSize, 0))
  }

  lemma TtlsOfAppend(plan: Plan, more: Plan, varied: bool, id: nat)
    ensures TtlsOf(plan + more, varied, id) == TtlsOf(plan, varied, id) + TtlsOf(more, varied, id)
  {
    var whole := plan + more;
    forall t | t in TtlsOf(more, varied, id) ensures t in TtlsOf(whole, varied, id) {
      var i :| 0 <= i < |more| && Varied(more[i]) == varied && more[i].sampleId == id && more[i].ttl == t;
      assert whole[|plan| + i] == more[i];
    }
    forall t | t in TtlsOf(plan, varied, id) ensures t in TtlsOf(whole, varied, id) {
      var i :| 0 <= i < |plan| && Varied(plan[i]) == varied && plan[i].sampleId == id && plan[i].ttl == t;
      assert whole[i] == plan[i];
    }
  }

  lemma TtlsOfBundle(ttls: seq<nat>, flow: FlowKey, phase: Phase, sampleId: nat, payloadSize: nat, varied: bool,
                     id: nat)
    ensures TtlsOf(Bundle(ttls, flow, phase, sampleId, payloadSize), varied, id)
         == if id == sampleId && varied == (flow.variant != 0) then Elements(ttls) else {}
  {
    var bundle := Bundle(ttls, flow, phase, sampleId, payloadSize);
    if id == sampleId && varied == (flow.variant != 0) {
      forall t | t in Elements(ttls) ensures t in TtlsOf(bundle, varied, id) {
        var i :| 0 <= i < |ttls| && ttls[i] == t;
        assert bundle[i].ttl == t;
      }
    }
  }

  ghost predicate Fresh(plan: Plan, id: nat) {
    forall i :: 0 <= i < |plan| ==> plan[i].sampleId != id
  }

  lemma CompleteIffTtls(plan: Plan, ttls: set<nat>, varied: bool, id: nat)
    requires ttls != {}
    ensures id in CompleteSamples(plan, ttls, varied) <==> ttls <= TtlsOf(plan, varied, id)
  {
    if ttls <= TtlsOf(plan, varied, id) {
      var t :| t in ttls;
      assert t in TtlsOf(plan, varied, id);
    }
  }

  /** A whole bundle adds one complete sample for exactly the windows it covers. */
  lemma BundleCompletes(plan: Plan, ttls: seq<nat>, flow: FlowKey, phase: Phase, id: nat, payloadSize: nat,
                        window: set<nat>, varied: bool)
    requires Fresh(plan, id) && window != {}
    ensures CompleteSamples(plan + Bundle(ttls, flow, phase, id, payloadSize), window, varied)
         == CompleteSamples(plan, window, varied)
            + (if window <= Elements(ttls) && varied == (flow.variant != 0) then {id} else {})
    ensures id !in CompleteSamples(plan, window, varied)
  {
    var bundle := Bundle(ttls, flow, phase, id, payloadSize);
    assert TtlsOf(plan, varied, id) == {};
    forall j
      ensures j in CompleteSamples(plan + bundle, window, varied)
        <==> if j == id then window <= Elements(ttls) && varied == (flow.variant != 0)
             else j in CompleteSamples(plan, window, varied)
    {
      CompleteIffTtls(plan + bundle, window, varied, j);
      CompleteIffTtls(plan, window, varied, j);
      TtlsOfAppend(plan, bundle, varied, j);
      TtlsOfBundle(ttls, flow, phase, id, payloadSize, varied, j);
    }
  }

  /** Complete samples survive growth of the log and shrinking of the window. */
  lemma CompleteSamplesGrow(plan: Plan, more: Plan, window: set<nat>, part: set<nat>, varied: bool)
    requires part <= window && part != {}
    ensures CompleteSamples(plan, window, varied) <= CompleteSamples(plan + more, part, varied)
    ensures |CompleteSamples(plan, window, varied)| <= |CompleteSamples(plan + more, part, varied)|
  {
    forall id | id in CompleteSamples(plan, window, varied)
      ensures id in CompleteSamples(plan + more, part, varied)
    {
      CompleteIffTtls(plan, window, varied, id);
      CompleteIffTtls(plan + more, part, varied, id);
      TtlsOfAppend(plan, more, varied, id);
    }
    SubsetCount(CompleteSamples(plan, window, varied), CompleteSamples(plan + more, part, varied));
  }

  lemma SubsetCount<T>(part: set<T>, whole: set<T>)
    requires part <= whole
    ensures |part| <= |whole|
  {
    assert whole == part + (whole - part);
  }

  // ---------- Accounting ----------

  predicate SweepPhase(phase: Phase) {
    phase.BaselineFixed? || phase.CanaryVaried?
  }

  predicate FixedPhase(phase: Phase) {
    phase.BaselineFixed? || phase.DbpFixed?
  }

  function SweepProbes(plan: Plan): nat {
    if plan == [] then 0
    else SweepProbes(plan[..|plan| - 1]) + (if SweepPhase(plan[|plan| - 1].phase) then 1 else 0)
  }

  lemma {:induction false} SweepProbesAppend(plan: Plan, more: Plan, sweep: bool)
    requires forall i :: 0 <= i < |more| ==> SweepPhase(more[i].phase) == sweep
    ensures SweepProbes(plan + more) == SweepProbes(plan) + (if sweep then |more| else 0)
  {
    if more == [] {
      assert plan + more == plan;
    } else {
      assert (plan + more)[..|plan + more| - 1] == plan + more[..|more| - 1];
      SweepProbesAppend(plan, more[..|more| - 1], sweep);
    }
  }

  /** Every probe is on the flow its phase calls for: the main flow, or the cached variant. */
  ghost predicate RightFlow(spec: ProbeSpec, main: FlowKey, variants: map<nat, FlowKey>) {
    if FixedPhase(spec.phase) then spec.flow == main
    else spec.flow.variant > 0 && spec.flow.variant in variants && spec.flow == variants[spec.flow.variant]
  }

  /** No (sample, TTL) is probed twice; a sample keeps one flow and one phase; ids are issued in order. */
  ghost predicate Accounted(plan: Plan, main: FlowKey, variants: map<nat, FlowKey>, nextSampleId: nat, maxTtl: nat) {
    && main.variant == 0
    && (forall i :: 0 <= i < |plan| ==>
          1 <= plan[i].ttl <= maxTtl && 1 <= plan[i].sampleId < nextSampleId && RightFlow(plan[i], main, variants))
    && (forall i, j :: 0 <= i < j < |plan| && plan[i].sampleId == plan[j].sampleId ==>
          plan[i].flow == plan[j].flow && plan[i].phase == plan[j].phase && plan[i].ttl != plan[j].ttl)
  }

  lemma AccountedBundle(plan: Plan, main: FlowKey, variants: map<nat, FlowKey>, nextSampleId: nat, maxTtl: nat,
                        ttls: seq<nat>, flow: FlowKey, phase: Phase, id: nat, payloadSize: nat)
    requires Accounted(plan, main, variants, nextSampleId, maxTtl) && 1 <= id < nextSampleId
    requires StrictlyIncreasing(ttls) && forall t :: t in ttls ==> 1 <= t <= maxTtl
    requires RightFlow(ProbeSpec(0, flow, phase, id, payloadSize, 0), main, variants)
    requires forall i :: 0 <= i < |plan| && plan[i].sampleId == id ==>
               plan[i].flow == flow && plan[i].phase == phase && plan[i].ttl !in ttls
    ensures Accounted(plan + Bundle(ttls, flow, phase, id, payloadSize), main, variants, nextSampleId, maxTtl)
  {
    var bundle := Bundle(ttls, flow, phase, id, payloadSize);
    var whole := plan + bundle;
    forall i | 0 <= i < |whole|
      ensures 1 <= whole[i].ttl <= maxTtl && 1 <= whole[i].sampleId < nextSampleId
      ensures RightFlow(whole[i], main, variants)
    {
      if i >= |plan| { assert whole[i] == bundle[i - |plan|]; assert whole[i].ttl in ttls; }
    }
    forall i, j | 0 <= i < j < |whole| && whole[i].sampleId == whole[j].sampleId
      ensures whole[i].flow == whole[j].flow && whole[i].phase == whole[j].phase && whole[i].ttl != whole[j].ttl
    {
      if j >= |plan| {
        assert whole[j] == bundle[j - |plan|];
        assert whole[j].ttl in ttls;
        if i >= |plan| { assert whole[i] == bundle[i - |plan|]; }
      }
    }
  }

  lemma AccountedWeakens(plan: Plan, main: FlowKey, variants: map<nat, FlowKey>, nextSampleId: nat, maxTtl: nat,
                         moreVariants: map<nat, FlowKey>, laterId: nat)
    requires Accounted(plan, main, variants, nextSampleId, maxTtl) && nextSampleId <= laterId
    requires forall v :: v in variants ==> v in moreVariants && moreVariants[v] == variants[v]
    ensures Accounted(plan, main, moreVariants, laterId, maxTtl)
  {
  }

  // ---------- Tokens without replacement ----------

  predicate Adaptive(spec: ProbeSpec) {
    spec.phase.DbpVaried?
  }

  /** No TTL is probed with the same flow variant by two adaptive samples. */
  ghost predicate NoTokenReuse(plan: Plan) {
    forall i, j :: 0 <= i < j < |plan| && Adaptive(plan[i]) && Adaptive(plan[j]) && plan[i].ttl == plan[j].ttl ==>
      plan[i].flow.variant != plan[j].flow.variant
  }

  // ---------- How far the path is visible ----------

  predicate BaselineAnswered(log: Log) {
    exists o :: o in log && o.Answered() && o.spec.phase.BaselineFixed?
  }

  function Smaller(a: Option<nat>, b: nat): Option<nat> {
    if a.None? || b < a.value then Some(b) else a
  }

  function Larger(a: Option<nat>, b: nat): Option<nat> {
    if a.None? || b > a.value then Some(b) else a
  }

  /** The highest TTL that answered on any flow. */
  function LastObservedTtl(log: Log): (ttl: Option<nat>)
    ensures ttl.None? <==> forall i :: 0 <= i < |log| ==> !log[i].Answered()
    ensures ttl.Some? ==> exists i :: 0 <= i < |log| && log[i].Answered() && log[i].spec.ttl == ttl.value
    ensures ttl.Some? ==> forall i :: 0 <= i < |log| && log[i].Answered() ==> log[i].spec.ttl <= ttl.value
  {
    if log == [] then None
    else
      var last := |log| - 1;
      var front := LastObservedTtl(log[..last]);
      if log[last].Answered() then Larger(front, log[last].spec.ttl) else front
  }

  predicate MainTerminal(o: Observation, main: FlowKey) {
    o.reply.terminal && o.spec.flow == main
  }

  /** The lowest TTL with a terminal reply on the main flow. */
  function FirstTerminalTtl(log: Log, main: FlowKey): (ttl: Option<nat>)
    ensures ttl.None? <==> forall i :: 0 <= i < |log| ==> !MainTerminal(log[i], main)
    ensures ttl.Some? ==> exists i :: 0 <= i < |log| && MainTerminal(log[i], main) && log[i].spec.ttl == ttl.value
    ensures ttl.Some? ==> forall i :: 0 <= i < |log| && MainTerminal(log[i], main) ==> ttl.value <= log[i].spec.ttl
  {
    if log == [] then None
    else
      var last := |log| - 1;
      var front := FirstTerminalTtl(log[..last], main);
      if MainTerminal(log[last], main) then Smaller(front, log[last].spec.ttl) else front
  }

  function AnalysisLimit(log: Log, main: FlowKey, maxHops: nat): nat {
    var terminal := FirstTerminalTtl(log, main);
    if terminal.Some? then terminal.value
    else
      var last := LastObservedTtl(log);
      if last.Some? then last.value else maxHops
  }

  /** The path ends at the lowest TTL with a terminal reply to the main flow, and without one at the highest
      TTL that answered any flow. */
  ghost predicate EndsAt(log: Log, main: FlowKey, maxHops: nat, limit: nat) {
    if exists o :: o in log && o.spec.flow == main && o.reply.terminal then
      && (exists o :: o in log && o.spec.flow == main && o.reply.terminal && o.spec.ttl == limit)
      && forall o :: o in log && o.spec.flow == main && o.reply.terminal ==> limit <= o.spec.ttl
    else if exists o :: o in log && o.Answered() then
      && (exists o :: o in log && o.Answered() && o.spec.ttl == limit)
      && forall o :: o in log && o.Answered() ==> o.spec.ttl <= limit
    else limit == maxHops
  }

  lemma LimitIsTheEnd(log: Log, main: FlowKey, maxHops: nat)
    ensures EndsAt(log, main, maxHops, AnalysisLimit(log, main, maxHops))
  {
    var terminal, last := FirstTerminalTtl(log, main), LastObservedTtl(log);
    assert forall o :: o in log <==> exists i :: 0 <= i < |log| && log[i] == o;
  }

  ghost predicate LegalLog(log: Log) {
    forall i :: 0 <= i < |log| ==> log[i].reply.Legal()
  }

  /** Once something answered, probing no further than the limit can only lower it, and without a
      terminal reply on the main flow leaves it where it is. */
  lemma AnalysisLimitNeverGrows(log: Log, more: Log, main: FlowKey, maxHops: nat)
    requires LegalLog(log) && LegalLog(more) && LastObservedTtl(log).Some?
    requires forall i :: 0 <= i < |more| ==> more[i].spec.ttl <= AnalysisLimit(log, main, maxHops)
    ensures AnalysisLimit(log + more, main, maxHops) <= AnalysisLimit(log, main, maxHops)
    ensures FirstTerminalTtl(log + more, main).None? ==>
              AnalysisLimit(log + more, main, maxHops) == AnalysisLimit(log, main, maxHops)
  {
    var whole, limit := log + more, AnalysisLimit(log, main, maxHops);
    assert forall i :: 0 <= i < |log| ==> whole[i] == log[i];
    assert forall i :: 0 <= i < |more| ==> whole[|log| + i] == more[i];
    var k :| 0 <= k < |log| && log[k].Answered() && log[k].spec.ttl == LastObservedTtl(log).value;
    assert whole[k].Answered();
    var terminal := FirstTerminalTtl(whole, main);
    if FirstTerminalTtl(log, main).Some? {
      var j :| 0 <= j < |log| && MainTerminal(log[j], main) && log[j].spec.ttl == limit;
      assert MainTerminal(whole[j], main);
    } else if terminal.Some? {
      var j :| 0 <= j < |whole| && MainTerminal(whole[j], main) && whole[j].spec.ttl == terminal.value;
      assert j >= |log|;
      assert whole[j] == more[j - |log|];
    } else {
      var j :| 0 <= j < |whole| && whole[j].Answered() && whole[j].spec.ttl == LastObservedTtl(whole).value;
      assert whole[j] == if j < |log| then log[j] else more[j - |log|];
    }
  }

  /** The first sweep reached `reach` on its first sample and nothing was probed beyond it. */
  ghost predicate Swept(plan: Plan, reach: nat) {
    && (forall i :: 0 <= i < |plan| ==> plan[i].ttl <= reach)
    && (forall t :: 1 <= t <= reach ==> t in TtlsOf(plan, false, 1))
  }
}
