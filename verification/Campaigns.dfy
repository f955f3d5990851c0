/** The windows of a run, sampled one after the other. */
module Campaigns {
  import opened Clusters
  import opened Evidence
  import opened Ledgers
  import opened Model
  import opened Regions
  import opened Sampling
  import opened Sequences
  import opened Settings
  import opened Tokens

  /** The probes sent and the next sample id, before a window or after the last one. */
  datatype Stage = Stage(plan: Plan, nextId: nat)

  function Aggregates(clusters: seq<seq<Region>>): (windows: seq<Region>)
    requires forall c :: c in clusters ==> c != []
    ensures |windows| == |clusters|
    ensures forall k :: 0 <= k < |windows| ==> clusters[k] in clusters && windows[k] == Aggregate(clusters[k])
  {
    seq(|clusters|, k requires 0 <= k < |clusters| && clusters[k] in clusters => Aggregate(clusters[k]))
  }

  /** The shared window of each cluster, then the regions that want no variants. */
  function Windows(regions: seq<Region>, clusters: seq<seq<Region>>): seq<Region>
    requires forall c :: c in clusters ==> c != []
  {
    Aggregates(clusters) + InOrder(regions, false)
  }

  ghost predicate SampledAt(config: TraceConfig, main: FlowKey, window: Region, variants: map<nat, FlowKey>,
                            before: Stage, after: Stage, refused: bool) {
    && config.Valid() && window.probeTtls != []
    && Sampled(config, main, window, before.plan, before.nextId, variants, after.plan, after.nextId, refused)
  }

  /** Every window was sampled from where the one before it stopped. */
  ghost predicate SampledInTurn(config: TraceConfig, main: FlowKey, windows: seq<Region>, variants: map<nat, FlowKey>,
                                stages: seq<Stage>, refusals: seq<bool>) {
    && |stages| == |windows| + 1 && |refusals| == |windows|
    && forall k :: 0 <= k < |windows| ==>
         SampledAt(config, main, windows[k], variants, stages[k], stages[k + 1], refusals[k])
  }

  /** One warning for each window refused. */
  function Refusals(refusals: seq<bool>): seq<Warning> {
    if refusals == [] then []
    else
      var last := |refusals| - 1;
      Refusals(refusals[..last]) + (if refusals[last] then [BudgetExhausted] else [])
  }

  lemma {:induction false} RefusalsAre(refusals: seq<bool>)
    ensures forall w :: w in Refusals(refusals) ==> w == BudgetExhausted
    ensures BudgetExhausted in Refusals(refusals) <==> true in refusals
  {
    if refusals == [] {
    } else {
      var last := |refusals| - 1;
      RefusalsAre(refusals[..last]);
      assert refusals == refusals[..last] + [refusals[last]];
    }
  }

  lemma RefusedOrNot(before: seq<Warning>, refusals: seq<bool>)
    ensures before + Refusals(refusals) == before || BudgetExhausted in before + Refusals(refusals)
  {
    RefusalsAre(refusals);
    if Refusals(refusals) != [] {
      assert Refusals(refusals)[0] in Refusals(refusals);
    }
  }

  lemma RefusalsGrow(refusals: seq<bool>, refused: bool)
    ensures Refusals(refusals + [refused]) == Refusals(refusals) + (if refused then [BudgetExhausted] else [])
  {
    assert (refusals + [refused])[..|refusals|] == refusals;
  }

  /** A growing cache leaves the samples as they were described. */
  lemma SampledExtends(config: TraceConfig, main: FlowKey, window: Region, variants: map<nat, FlowKey>,
                       more: map<nat, FlowKey>, before: Stage, after: Stage, refused: bool)
    requires SampledAt(config, main, window, variants, before, after, refused) && Extends(variants, more)
    ensures SampledAt(config, main, window, more, before, after, refused)
  {
    hide Series, Missing, CompleteSamples, Affordable, Copies;
    forall first: nat, n: nat | AllCached(variants, first, n)
      ensures AllCached(more, first, n) && CachedFlows(more, first, n) == CachedFlows(variants, first, n)
    {
      SameFlows(variants, more, first, n);
    }
  }

  lemma SameFlows(variants: map<nat, FlowKey>, more: map<nat, FlowKey>, first: nat, n: nat)
    requires AllCached(variants, first, n) && Extends(variants, more)
    ensures AllCached(more, first, n) && CachedFlows(more, first, n) == CachedFlows(variants, first, n)
  {
    assert forall v :: first <= v < first + n ==> v in variants;
  }

  /** The next window, after which the cache may have grown. */
  lemma NextSampled(config: TraceConfig, main: FlowKey, windows: seq<Region>, variants: map<nat, FlowKey>,
                    stages: seq<Stage>, refusals: seq<bool>, window: Region, more: map<nat, FlowKey>, after: Stage,
                    refused: bool)
    requires SampledInTurn(config, main, windows, variants, stages, refusals) && Extends(variants, more)
    requires SampledAt(config, main, window, more, stages[|windows|], after, refused)
    ensures SampledInTurn(config, main, windows + [window], more, stages + [after], refusals + [refused])
  {
    hide SampledAt;
    var all, whole, outcomes := windows + [window], stages + [after], refusals + [refused];
    forall k | 0 <= k < |all| ensures SampledAt(config, main, all[k], more, whole[k], whole[k + 1], outcomes[k]) {
      if k < |windows| {
        SampledExtends(config, main, windows[k], variants, more, stages[k], stages[k + 1], refusals[k]);
      }
    }
  }

  lemma NothingSampled(config: TraceConfig, main: FlowKey, variants: map<nat, FlowKey>, start: Stage)
    ensures SampledInTurn(config, main, [], variants, [start], [])
  {
  }

  /** Two stretches of windows, the second from where the first stopped. */
  lemma SampledJoin(config: TraceConfig, main: FlowKey, windows: seq<Region>, variants: map<nat, FlowKey>,
                    stages: seq<Stage>, refusals: seq<bool>, others: seq<Region>, more: map<nat, FlowKey>,
                    later: seq<Stage>, outcomes: seq<bool>)
    requires SampledInTurn(config, main, windows, variants, stages, refusals) && Extends(variants, more)
    requires SampledInTurn(config, main, others, more, later, outcomes) && later[0] == stages[|windows|]
    ensures SampledInTurn(config, main, windows + others, more, stages + later[1..], refusals + outcomes)
  {
    hide SampledAt;
    var all, whole, both := windows + others, stages + later[1..], refusals + outcomes;
    forall k | 0 <= k < |all| ensures SampledAt(config, main, all[k], more, whole[k], whole[k + 1], both[k]) {
      if k < |windows| {
        SampledExtends(config, main, windows[k], variants, more, stages[k], stages[k + 1], refusals[k]);
      } else {
        assert SampledAt(config, main, others[k - |windows|], more, later[k - |windows|], later[k - |windows| + 1],
                         outcomes[k - |windows|]);
      }
    }
  }

  lemma {:induction false} RefusalsJoin(a: seq<bool>, b: seq<bool>)
    ensures Refusals(a + b) == Refusals(a) + Refusals(b)
  {
    if b == [] {
      assert a + b == a;
    } else {
      var last := |b| - 1;
      RefusalsJoin(a, b[..last]);
      assert (a + b)[..|a| + last] == a + b[..last];
    }
  }

  lemma EndOfStages(config: TraceConfig, main: FlowKey, windows: seq<Region>, variants: map<nat, FlowKey>,
                    stages: seq<Stage>, refusals: seq<bool>)
    requires SampledInTurn(config, main, windows, variants, stages, refusals)
    ensures |stages| == |windows| + 1 && |refusals| == |windows|
  {
  }

  // ---------- Refusals are the budget's ----------

  /** A window is refused only when one more bundle over it does not fit. */
  lemma RefusedIsFull(config: TraceConfig, main: FlowKey, window: Region, variants: map<nat, FlowKey>,
                      before: Stage, after: Stage)
    requires SampledAt(config, main, window, variants, before, after, true)
    ensures |before.plan| <= |after.plan| && |after.plan| + |window.probeTtls| > config.maxProbes
  {
    hide CompleteSamples, Missing, Copies, CachedFlows;
    var ttls := window.probeTtls;
    var have := |CompleteSamples(before.plan, Elements(ttls), true)|;
    var repeats := Missing(before.plan, ttls, false, config.temporalSamples);
    var room := config.maxProbes - |before.plan|;
    var sentRepeats := Affordable(repeats, room, |ttls|);
    SeriesSize(ttls, Copies(main, sentRepeats), DbpFixed, before.nextId, config.payloadSize);
    NoRoomLeft(repeats, room, |ttls|);
    if sentRepeats == repeats {
      var draws := Missing(before.plan, ttls, true, config.Required());
      var middle := |before.plan| + Bulk(sentRepeats, |ttls|);
      var sentDraws := Affordable(draws, config.maxProbes - middle, |ttls|);
      SeriesSize(ttls, CachedFlows(variants, have + 1, sentDraws), DbpVaried, before.nextId + sentRepeats,
                 config.payloadSize);
      NoRoomLeft(draws, config.maxProbes - middle, |ttls|);
    }
  }

  lemma NoRoomLeft(wanted: nat, room: nat, size: nat)
    requires size > 0
    ensures Affordable(wanted, room, size) < wanted ==> Bulk(Affordable(wanted, room, size), size) + size > room
  {
    QuotientFits(room, size);
    BulkStep(room / size, size);
  }

  lemma SampledGrows(config: TraceConfig, main: FlowKey, window: Region, variants: map<nat, FlowKey>,
                     before: Stage, after: Stage, refused: bool)
    requires SampledAt(config, main, window, variants, before, after, refused)
    ensures |before.plan| <= |after.plan|
  {
    hide CompleteSamples, Missing, Copies, CachedFlows, Affordable;
  }

  lemma {:induction false} StagesGrow(config: TraceConfig, main: FlowKey, windows: seq<Region>,
                                      variants: map<nat, FlowKey>, stages: seq<Stage>, refusals: seq<bool>, k: nat,
                                      n: nat)
    requires SampledInTurn(config, main, windows, variants, stages, refusals) && k <= n <= |windows|
    ensures |stages[k].plan| <= |stages[n].plan|
    decreases n
  {
    hide SampledAt;
    if k == n {
    } else {
      StagesGrow(config, main, windows, variants, stages, refusals, k, n - 1);
      SampledGrows(config, main, windows[n - 1], variants, stages[n - 1], stages[n], refusals[n - 1]);
    }
  }

  /** After a refusal the final log leaves no room for one more bundle over that window. */
  lemma RefusalLeavesNoRoom(config: TraceConfig, main: FlowKey, windows: seq<Region>, variants: map<nat, FlowKey>,
                            stages: seq<Stage>, refusals: seq<bool>, k: nat)
    requires SampledInTurn(config, main, windows, variants, stages, refusals) && k < |windows| && refusals[k]
    ensures |stages[|windows|].plan| + |windows[k].probeTtls| > config.maxProbes
  {
    hide SampledAt;
    RefusedIsFull(config, main, windows[k], variants, stages[k], stages[k + 1]);
    StagesGrow(config, main, windows, variants, stages, refusals, k + 1, |windows|);
  }
}
