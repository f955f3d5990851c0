/** Runs of matched bundles: what a series of samples adds to a plan. */
module Sampling {
  import opened Evidence
  import opened Model
  import opened Sequences

  /** One bundle per flow, with consecutive sample ids. */
  function Series(ttls: seq<nat>, flows: seq<FlowKey>, phase: Phase, firstId: nat, payloadSize: nat): Plan {
    if flows == [] then []
    else
      var last := |flows| - 1;
      Series(ttls, flows[..last], phase, firstId, payloadSize)
      + Bundle(ttls, flows[last], phase, firstId + last, payloadSize)
  }

  lemma SeriesGrows(ttls: seq<nat>, flows: seq<FlowKey>, flow: FlowKey, phase: Phase, firstId: nat, payloadSize: nat)
    ensures Series(ttls, flows + [flow], phase, firstId, payloadSize)
         == Series(ttls, flows, phase, firstId, payloadSize) + Bundle(ttls, flow, phase, firstId + |flows|, payloadSize)
  {
    assert (flows + [flow])[..|flows|] == flows;
  }

  lemma SingleSeries(ttls: seq<nat>, flow: FlowKey, phase: Phase, id: nat, payloadSize: nat)
    ensures Series(ttls, [flow], phase, id, payloadSize) == Bundle(ttls, flow, phase, id, payloadSize)
  {
    assert [flow][..0] == [];
  }

  lemma {:induction false} SeriesConcat(ttls: seq<nat>, flows: seq<FlowKey>, more: seq<FlowKey>, phase: Phase,
                                        firstId: nat, payloadSize: nat)
    ensures Series(ttls, flows + more, phase, firstId, payloadSize)
         == Series(ttls, flows, phase, firstId, payloadSize)
            + Series(ttls, more, phase, firstId + |flows|, payloadSize)
  {
    if more == [] {
      assert flows + more == flows;
    } else {
      hide Bundle, Series;
      var last := |more| - 1;
      var front, final := more[..last], more[last];
      assert more == front + [final];
      assert flows + more == (flows + front) + [final];
      SeriesConcat(ttls, flows, front, phase, firstId, payloadSize);
      SeriesGrows(ttls, flows + front, final, phase, firstId, payloadSize);
      SeriesGrows(ttls, front, final, phase, firstId + |flows|, payloadSize);
      Regroup(Series(ttls, flows, phase, firstId, payloadSize),
              Series(ttls, front, phase, firstId + |flows|, payloadSize),
              Bundle(ttls, final, phase, firstId + |flows| + last, payloadSize));
    }
  }

  lemma Regroup<T>(a: seq<T>, b: seq<T>, c: seq<T>)
    ensures (a + b) + c == a + (b + c)
  {
  }

  /** size * n, under a name. */
  function Bulk(n: nat, size: nat): nat {
    n * size
  }

  lemma BulkStep(n: nat, size: nat)
    ensures Bulk(n + 1, size) == Bulk(n, size) + size && Bulk(0, size) == 0
  {
  }

  lemma {:induction false} SeriesSize(ttls: seq<nat>, flows: seq<FlowKey>, phase: Phase, firstId: nat, payloadSize: nat)
    ensures |Series(ttls, flows, phase, firstId, payloadSize)| == Bulk(|flows|, |ttls|)
  {
    if flows == [] {
      BulkStep(0, |ttls|);
    } else {
      SeriesSize(ttls, flows[..|flows| - 1], phase, firstId, payloadSize);
      BulkStep(|flows| - 1, |ttls|);
    }
  }

  ghost predicate InSeries(s: ProbeSpec, ttls: seq<nat>, flows: seq<FlowKey>, phase: Phase, firstId: nat,
                           payloadSize: nat) {
    && s.ttl in ttls && s.phase == phase && s.probeId == 0 && s.payloadSize == payloadSize
    && firstId <= s.sampleId < firstId + |flows| && s.flow == flows[s.sampleId - firstId]
  }

  lemma {:induction false} SeriesSpecs(ttls: seq<nat>, flows: seq<FlowKey>, phase: Phase, firstId: nat,
                                       payloadSize: nat)
    ensures forall s :: s in Series(ttls, flows, phase, firstId, payloadSize) ==>
              InSeries(s, ttls, flows, phase, firstId, payloadSize)
  {
    if flows == [] {
    } else {
      hide Bundle, InSeries;
      var last := |flows| - 1;
      SeriesSpecs(ttls, flows[..last], phase, firstId, payloadSize);
      var front, bundle := Series(ttls, flows[..last], phase, firstId, payloadSize),
                           Bundle(ttls, flows[last], phase, firstId + last, payloadSize);
      forall s: ProbeSpec | s in front + bundle ensures InSeries(s, ttls, flows, phase, firstId, payloadSize) {
        if s in front {
          StaysInSeries(s, ttls, flows, phase, firstId, payloadSize);
        } else {
          var i :| 0 <= i < |bundle| && bundle[i] == s;
          LastInSeries(s, ttls, flows, phase, firstId, payloadSize, i);
        }
      }
    }
  }

  lemma StaysInSeries(s: ProbeSpec, ttls: seq<nat>, flows: seq<FlowKey>, phase: Phase, firstId: nat, payloadSize: nat)
    requires flows != [] && InSeries(s, ttls, flows[..|flows| - 1], phase, firstId, payloadSize)
    ensures InSeries(s, ttls, flows, phase, firstId, payloadSize)
  {
  }

  lemma LastInSeries(s: ProbeSpec, ttls: seq<nat>, flows: seq<FlowKey>, phase: Phase, firstId: nat, payloadSize: nat,
                     i: nat)
    requires flows != [] && i < |ttls|
    requires s == ProbeSpec(ttls[i], flows[|flows| - 1], phase, firstId + |flows| - 1, payloadSize, 0)
    ensures InSeries(s, ttls, flows, phase, firstId, payloadSize)
  {
  }

  /** The ids of a series. */
  ghost function Ids(firstId: nat, n: nat): (ids: set<nat>)
    ensures |ids| == n
    ensures forall id :: id in ids <==> firstId <= id < firstId + n
  {
    RangeElements(firstId, firstId + n - 1);
    IntervalCount(Elements(Range(firstId, firstId + n - 1)), firstId, firstId + n - 1);
    Elements(Range(firstId, firstId + n - 1))
  }

  ghost predicate SameVariety(flows: seq<FlowKey>, varied: bool) {
    forall k :: 0 <= k < |flows| ==> (flows[k].variant != 0) == varied
  }

  /** A series adds its ids, and no others, to the complete samples of the windows it covers. */
  lemma {:induction false} SeriesCompletes(plan: Plan, ttls: seq<nat>, flows: seq<FlowKey>, phase: Phase, firstId: nat,
                                           payloadSize: nat, window: set<nat>, sort: bool, varied: bool)
    requires window != {} && SameVariety(flows, sort)
    requires forall i :: 0 <= i < |plan| ==> plan[i].sampleId < firstId
    ensures CompleteSamples(plan + Series(ttls, flows, phase, firstId, payloadSize), window, varied)
         == CompleteSamples(plan, window, varied) + Covering(ttls, window, varied == sort, firstId, |flows|)
  {
    hide CompleteSamples, Fresh, Bundle, Elements, Ids;
    var whole := Series(ttls, flows, phase, firstId, payloadSize);
    if flows == [] {
      assert plan + whole == plan;
    } else {
      var last := |flows| - 1;
      var front := Series(ttls, flows[..last], phase, firstId, payloadSize);
      SeriesCompletes(plan, ttls, flows[..last], phase, firstId, payloadSize, window, sort, varied);
      SeriesSpecs(ttls, flows[..last], phase, firstId, payloadSize);
      FreshAfter(plan, front, firstId + last);
      BundleCompletes(plan + front, ttls, flows[last], phase, firstId + last, payloadSize, window, varied);
      assert plan + whole == plan + front + Bundle(ttls, flows[last], phase, firstId + last, payloadSize);
      CoveringGrows(ttls, window, varied == sort, firstId, last);
    }
  }

  ghost function Covering(ttls: seq<nat>, window: set<nat>, counted: bool, firstId: nat, n: nat): set<nat> {
    if counted && window <= Elements(ttls) then Ids(firstId, n) else {}
  }

  lemma CoveringGrows(ttls: seq<nat>, window: set<nat>, counted: bool, firstId: nat, n: nat)
    ensures Covering(ttls, window, counted, firstId, n + 1)
         == Covering(ttls, window, counted, firstId, n)
            + (if window <= Elements(ttls) && counted then {firstId + n} else {})
  {
    assert Ids(firstId, n + 1) == Ids(firstId, n) + {firstId + n};
  }

  /** Hence the count grows by the whole series or not at all. */
  lemma SeriesCounts(plan: Plan, ttls: seq<nat>, flows: seq<FlowKey>, phase: Phase, firstId: nat, payloadSize: nat,
                     window: set<nat>, sort: bool, varied: bool)
    requires window != {} && SameVariety(flows, sort)
    requires forall i :: 0 <= i < |plan| ==> plan[i].sampleId < firstId
    ensures |CompleteSamples(plan + Series(ttls, flows, phase, firstId, payloadSize), window, varied)|
         == |CompleteSamples(plan, window, varied)|
            + (if window <= Elements(ttls) && varied == sort then |flows| else 0)
  {
    SeriesCompletes(plan, ttls, flows, phase, firstId, payloadSize, window, sort, varied);
    var before, added :=
      CompleteSamples(plan, window, varied), Covering(ttls, window, varied == sort, firstId, |flows|);
    assert before !! added;
  }

  lemma FreshAfter(plan: Plan, front: Plan, id: nat)
    requires forall i :: 0 <= i < |plan| ==> plan[i].sampleId < id
    requires forall s :: s in front ==> s.sampleId < id
    ensures Fresh(plan + front, id)
  {
  }

  /** Every sample of a series probes the whole window. */
  lemma {:induction false} SeriesTtls(ttls: seq<nat>, flows: seq<FlowKey>, phase: Phase, firstId: nat, payloadSize: nat,
                                      sort: bool, varied: bool, id: nat)
    requires SameVariety(flows, sort)
    ensures TtlsOf(Series(ttls, flows, phase, firstId, payloadSize), varied, id)
         == if firstId <= id < firstId + |flows| && varied == sort then Elements(ttls) else {}
  {
    if flows == [] {
    } else {
      hide Elements, Bundle, TtlsOf;
      var last := |flows| - 1;
      SeriesTtls(ttls, flows[..last], phase, firstId, payloadSize, sort, varied, id);
      TtlsOfBundle(ttls, flows[last], phase, firstId + last, payloadSize, varied, id);
      TtlsOfAppend(Series(ttls, flows[..last], phase, firstId, payloadSize),
                   Bundle(ttls, flows[last], phase, firstId + last, payloadSize), varied, id);
    }
  }

  lemma FreshBundleAccounted(plan: Plan, main: FlowKey, variants: map<nat, FlowKey>, nextSampleId: nat, maxTtl: nat,
                             ttls: seq<nat>, flow: FlowKey, phase: Phase, payloadSize: nat)
    requires Accounted(plan, main, variants, nextSampleId, maxTtl) && nextSampleId >= 1
    requires StrictlyIncreasing(ttls) && forall t :: t in ttls ==> 1 <= t <= maxTtl
    requires RightFlow(ProbeSpec(0, flow, phase, 0, payloadSize, 0), main, variants)
    ensures Accounted(plan + Bundle(ttls, flow, phase, nextSampleId, payloadSize), main, variants,
                      nextSampleId + 1, maxTtl)
  {
    AccountedWeakens(plan, main, variants, nextSampleId, maxTtl, variants, nextSampleId + 1);
    AccountedBundle(plan, main, variants, nextSampleId + 1, maxTtl, ttls, flow, phase, nextSampleId, payloadSize);
  }

  /** A series of fresh samples on the right flows keeps the accounts. */
  lemma {:induction false} SeriesAccounted(plan: Plan, main: FlowKey, variants: map<nat, FlowKey>, nextSampleId: nat,
                                           maxTtl: nat, ttls: seq<nat>, flows: seq<FlowKey>, phase: Phase,
                                           payloadSize: nat)
    requires Accounted(plan, main, variants, nextSampleId, maxTtl) && nextSampleId >= 1
    requires StrictlyIncreasing(ttls) && forall t :: t in ttls ==> 1 <= t <= maxTtl
    requires forall k :: 0 <= k < |flows| ==>
               RightFlow(ProbeSpec(0, flows[k], phase, 0, payloadSize, 0), main, variants)
    ensures Accounted(plan + Series(ttls, flows, phase, nextSampleId, payloadSize), main, variants,
                      nextSampleId + |flows|, maxTtl)
  {
    hide Accounted, RightFlow, Bundle;
    if flows == [] {
      assert plan + Series(ttls, flows, phase, nextSampleId, payloadSize) == plan;
    } else {
      var last := |flows| - 1;
      var front := Series(ttls, flows[..last], phase, nextSampleId, payloadSize);
      SeriesAccounted(plan, main, variants, nextSampleId, maxTtl, ttls, flows[..last], phase, payloadSize);
      FreshBundleAccounted(plan + front, main, variants, nextSampleId + last, maxTtl, ttls, flows[last], phase,
                           payloadSize);
      assert plan + Series(ttls, flows, phase, nextSampleId, payloadSize)
          == plan + front + Bundle(ttls, flows[last], phase, nextSampleId + last, payloadSize);
    }
  }

  // ---------- Drawing tokens without replacement ----------

  /** The variants first, first + 1, ... of a cache. */
  ghost predicate Consecutive(flows: seq<FlowKey>, first: nat) {
    first >= 1 && forall k :: 0 <= k < |flows| ==> flows[k].variant == first + k
  }

  /** An adaptive sample already probed some TTL of the list with a variant of the interval. */
  ghost predicate AlreadyDrawn(plan: Plan, ttls: seq<nat>, first: nat, count: nat) {
    exists i :: 0 <= i < |plan| && Adaptive(plan[i]) && plan[i].ttl in ttls
                && first <= plan[i].flow.variant < first + count
  }

  /** Drawing the next variants on a window repeats no adaptively drawn token exactly when none of
      them was drawn before at a TTL of that window. */
  lemma DrawingKeepsTokensFresh(plan: Plan, ttls: seq<nat>, flows: seq<FlowKey>, first: nat,
                                firstId: nat, payloadSize: nat)
    requires NoTokenReuse(plan) && Consecutive(flows, first) && StrictlyIncreasing(ttls)
    ensures NoTokenReuse(plan + Series(ttls, flows, DbpVaried, firstId, payloadSize))
       <==> !AlreadyDrawn(plan, ttls, first, |flows|)
  {
    var series := Series(ttls, flows, DbpVaried, firstId, payloadSize);
    var whole := plan + series;
    if AlreadyDrawn(plan, ttls, first, |flows|) {
      var i :| 0 <= i < |plan| && Adaptive(plan[i]) && plan[i].ttl in ttls
               && first <= plan[i].flow.variant < first + |flows|;
      var j := SeriesPosition(ttls, flows, DbpVaried, firstId, payloadSize, plan[i].ttl, plan[i].flow.variant - first);
      assert whole[i] == plan[i] && whole[|plan| + j] == series[j];
      assert !NoTokenReuse(whole);
    } else {
      SeriesSpecs(ttls, flows, DbpVaried, firstId, payloadSize);
      SeriesRepeatsNothing(ttls, flows, first, firstId, payloadSize);
      forall i, j | 0 <= i < j < |whole| && Adaptive(whole[i]) && Adaptive(whole[j]) && whole[i].ttl == whole[j].ttl
        ensures whole[i].flow.variant != whole[j].flow.variant
      {
        if j >= |plan| {
          assert whole[j] == series[j - |plan|];
          assert whole[j] in series;
          if i >= |plan| { assert whole[i] == series[i - |plan|]; } else { assert whole[i] == plan[i]; }
        }
      }
    }
  }

  /** Where a series probes a given TTL with its k-th flow. */
  lemma {:induction false} SeriesPosition(ttls: seq<nat>, flows: seq<FlowKey>, phase: Phase, firstId: nat,
                                          payloadSize: nat, ttl: nat, k: nat) returns (j: nat)
    requires ttl in ttls && k < |flows|
    ensures j < |Series(ttls, flows, phase, firstId, payloadSize)|
    ensures Series(ttls, flows, phase, firstId, payloadSize)[j]
            == ProbeSpec(ttl, flows[k], phase, firstId + k, payloadSize, 0)
  {
    var last := |flows| - 1;
    var front := Series(ttls, flows[..last], phase, firstId, payloadSize);
    if k == last {
      var i :| 0 <= i < |ttls| && ttls[i] == ttl;
      j := |front| + i;
    } else {
      j := SeriesPosition(ttls, flows[..last], phase, firstId, payloadSize, ttl, k);
    }
  }

  lemma {:induction false} SeriesRepeatsNothing(ttls: seq<nat>, flows: seq<FlowKey>, first: nat,
                                                firstId: nat, payloadSize: nat)
    requires Consecutive(flows, first) && StrictlyIncreasing(ttls)
    ensures NoTokenReuse(Series(ttls, flows, DbpVaried, firstId, payloadSize))
  {
    if flows == [] {
    } else {
      hide Bundle, NoTokenReuse;
      var last := |flows| - 1;
      var front := Series(ttls, flows[..last], DbpVaried, firstId, payloadSize);
      SeriesRepeatsNothing(ttls, flows[..last], first, firstId, payloadSize);
      SeriesSpecs(ttls, flows[..last], DbpVaried, firstId, payloadSize);
      hide Series;
      forall s | s in front ensures s.flow.variant != flows[last].variant {
      }
      NewVariantRepeatsNothing(front, ttls, flows[last], firstId + last, payloadSize);
    }
  }

  /** A bundle of a variant not used before repeats nothing. */
  lemma NewVariantRepeatsNothing(plan: Plan, ttls: seq<nat>, flow: FlowKey, id: nat, payloadSize: nat)
    requires NoTokenReuse(plan) && StrictlyIncreasing(ttls) && forall s :: s in plan ==> s.flow.variant != flow.variant
    ensures NoTokenReuse(plan + Bundle(ttls, flow, DbpVaried, id, payloadSize))
  {
    var bundle := Bundle(ttls, flow, DbpVaried, id, payloadSize);
    var whole := plan + bundle;
    assert forall i, j :: |plan| <= i < j < |whole| ==> whole[i].ttl < whole[j].ttl;
    forall i, j | 0 <= i < j < |whole| && Adaptive(whole[i]) && Adaptive(whole[j]) && whole[i].ttl == whole[j].ttl
      ensures whole[i].flow.variant != whole[j].flow.variant
    {
      if i < |plan| <= j {
        assert whole[i] in plan && whole[j] == bundle[j - |plan|];
      }
    }
  }

  // ---------- What the budget affords ----------

  /** Samples still wanting for a window. */
  ghost function Missing(plan: Plan, ttls: seq<nat>, varied: bool, wanted: nat): nat {
    var have := |CompleteSamples(plan, Elements(ttls), varied)|;
    if have < wanted then wanted - have else 0
  }

  /** As many of the wanted bundles as fit the remaining budget. */
  function Affordable(wanted: nat, room: nat, size: nat): nat
    requires size > 0
  {
    if room / size < wanted then room / size else wanted
  }

  lemma {:induction false} BulkMonotone(m: nat, n: nat, size: nat)
    requires m <= n
    ensures Bulk(m, size) <= Bulk(n, size)
  {
    if m == n {
    } else {
      BulkMonotone(m, n - 1, size);
      BulkStep(n - 1, size);
    }
  }

  lemma {:induction false} BulkSum(m: nat, n: nat, size: nat)
    ensures Bulk(m + n, size) == Bulk(m, size) + Bulk(n, size)
  {
    if n == 0 {
      BulkStep(0, size);
    } else {
      BulkSum(m, n - 1, size);
      BulkStep(m + n - 1, size);
      BulkStep(n - 1, size);
    }
  }

  lemma QuotientIs(room: nat, size: nat, k: nat)
    requires size > 0 && Bulk(k, size) <= room < Bulk(k + 1, size)
    ensures room / size == k
  {
    var rest := room - Bulk(k, size);
    BulkStep(k, size);
    assert room == k * size + rest && 0 <= rest < size;
    DivisionIsUnique(room, size, k, rest);
  }

  lemma DivisionIsUnique(room: nat, size: nat, k: nat, rest: nat)
    requires size > 0 && room == k * size + rest && rest < size
    ensures room / size == k
  {
    var q, r := room / size, room % size;
    assert room == q * size + r && 0 <= r < size;
    if q < k { BulkMonotone(q + 1, k, size); BulkStep(q, size); }
    if k < q { BulkMonotone(k + 1, q, size); BulkStep(k, size); }
  }

  lemma QuotientFits(room: nat, size: nat)
    requires size > 0
    ensures Bulk(room / size, size) <= room < Bulk(room / size + 1, size)
  {
    BulkStep(room / size, size);
  }

  /** k bundles fit but one more does not, or all that were wanted fit. */
  lemma AffordableIs(wanted: nat, room: nat, size: nat, k: nat)
    requires size > 0 && k <= wanted && Bulk(k, size) <= room
    requires k < wanted ==> room < Bulk(k + 1, size)
    ensures Affordable(wanted, room, size) == k
  {
    QuotientFits(room, size);
    if k < wanted {
      QuotientIs(room, size, k);
    } else if room / size < k {
      BulkMonotone(room / size + 1, k, size);
    }
  }

  // ---------- Counting complete samples ----------

  function AtId(sampleTtls: map<nat, set<nat>>, id: nat): set<nat> {
    if id in sampleTtls then sampleTtls[id] else {}
  }

  ghost predicate Collected(plan: Plan, varied: bool, sampleTtls: map<nat, set<nat>>) {
    forall id: nat ::
      AtId(sampleTtls, id) == TtlsOf(plan, varied, id) && (id in sampleTtls <==> TtlsOf(plan, varied, id) != {})
  }

  lemma CollectStep(plan: Plan, spec: ProbeSpec, varied: bool, sampleTtls: map<nat, set<nat>>)
    requires Collected(plan, varied, sampleTtls)
    ensures Collected(plan + [spec], varied,
                      if Varied(spec) == varied
                      then sampleTtls[spec.sampleId := AtId(sampleTtls, spec.sampleId) + {spec.ttl}]
                      else sampleTtls)
  {
    var next := if Varied(spec) == varied then sampleTtls[spec.sampleId := AtId(sampleTtls, spec.sampleId) + {spec.ttl}]
                else sampleTtls;
    forall id: nat ensures AtId(next, id) == TtlsOf(plan + [spec], varied, id)
      && (id in next <==> TtlsOf(plan + [spec], varied, id) != {})
    {
      TtlsOfAppend(plan, [spec], varied, id);
      assert AtId(sampleTtls, id) == TtlsOf(plan, varied, id);
      assert [spec][0] == spec;
      assert TtlsOf([spec], varied, id) == if Varied(spec) == varied && spec.sampleId == id then {spec.ttl} else {};
    }
  }

  method CompleteSampleCount(log: Log, ttls: seq<nat>, varied: bool) returns (count: nat)
    ensures count == |CompleteSamples(PlanOf(log), Elements(ttls), varied)|
  {
    hide Collected;
    var sampleTtls: map<nat, set<nat>> := map[];
    assert Collected([], varied, sampleTtls) by { NothingCollected(varied); }
    var n := 0;
    while n < |log|
      invariant 0 <= n <= |log|
      invariant Collected(PlanOf(log)[..n], varied, sampleTtls)
    {
      var spec := log[n].spec;
      assert PlanOf(log)[..n + 1] == PlanOf(log)[..n] + [PlanOf(log)[n]];
      CollectStep(PlanOf(log)[..n], PlanOf(log)[n], varied, sampleTtls);
      if Varied(spec) == varied {
        sampleTtls := sampleTtls[spec.sampleId := AtId(sampleTtls, spec.sampleId) + {spec.ttl}];
      }
      n := n + 1;
    }
    assert PlanOf(log)[..n] == PlanOf(log);
    count := CountSupersets(sampleTtls, Elements(ttls));
    CollectedComplete(PlanOf(log), varied, sampleTtls, Elements(ttls));
  }

  lemma NothingCollected(varied: bool)
    ensures Collected([], varied, map[])
  {
  }

  ghost function Supersets(ids: set<nat>, sampleTtls: map<nat, set<nat>>, expected: set<nat>): set<nat> {
    set id | id in ids && expected <= AtId(sampleTtls, id)
  }

  lemma SupersetsOfNone(sampleTtls: map<nat, set<nat>>, expected: set<nat>)
    ensures Supersets({}, sampleTtls, expected) == {}
  {
  }

  lemma SupersetsStep(done: set<nat>, id: nat, sampleTtls: map<nat, set<nat>>, expected: set<nat>)
    requires id !in done
    ensures |Supersets(done + {id}, sampleTtls, expected)|
         == |Supersets(done, sampleTtls, expected)| + (if expected <= AtId(sampleTtls, id) then 1 else 0)
  {
    assert Supersets(done + {id}, sampleTtls, expected)
        == Supersets(done, sampleTtls, expected) + (if expected <= AtId(sampleTtls, id) then {id} else {});
  }

  method CountSupersets(sampleTtls: map<nat, set<nat>>, expected: set<nat>) returns (count: nat)
    ensures count == |Supersets(sampleTtls.Keys, sampleTtls, expected)|
  {
    hide Supersets;
    var ids: set<nat>, done: set<nat> := sampleTtls.Keys, {};
    SupersetsOfNone(sampleTtls, expected);
    count := 0;
    while ids != {}
      invariant ids + done == sampleTtls.Keys && ids !! done
      invariant count == |Supersets(done, sampleTtls, expected)|
      decreases |ids|
    {
      var id :| id in ids;
      SupersetsStep(done, id, sampleTtls, expected);
      if expected <= sampleTtls[id] {
        count := count + 1;
      }
      ids, done := ids - {id}, done + {id};
    }
  }

  lemma CollectedComplete(plan: Plan, varied: bool, sampleTtls: map<nat, set<nat>>, expected: set<nat>)
    requires Collected(plan, varied, sampleTtls)
    ensures Supersets(sampleTtls.Keys, sampleTtls, expected) == CompleteSamples(plan, expected, varied)
  {
    forall id: nat
      ensures id in Supersets(sampleTtls.Keys, sampleTtls, expected) <==> id in CompleteSamples(plan, expected, varied)
    {
      assert AtId(sampleTtls, id) == TtlsOf(plan, varied, id);
      if id in sampleTtls {
        var t :| t in TtlsOf(plan, varied, id);
      }
      if id in CompleteSamples(plan, expected, varied) {
        var i :| 0 <= i < |plan| && Varied(plan[i]) == varied && plan[i].sampleId == id;
        assert plan[i].ttl in TtlsOf(plan, varied, id);
      }
    }
  }
}
