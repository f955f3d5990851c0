/** Which flow tokens the samples of a window are on: canaries, whole or cut short by the budget, and
    then draws without replacement. */
module Drawing {
  import opened Clusters
  import opened Coverage
  import opened Evidence
  import opened Ledgers
  import opened Model
  import opened Regions
  import opened Sampling
  import opened Sequences
  import opened Settings
  import opened Sweeps
  import opened Tokens

  // ---------- Beyond the windows sampled so far ----------

  ghost predicate Beyond(window: set<nat>, reach: nat, limit: nat) {
    window != {} && forall t :: t in window ==> reach < t <= limit
  }

  /** A canary cut off after `part` TTLs counts for the windows below the cut only. */
  ghost function Counted(window: set<nat>, part: nat): nat {
    if forall t :: t in window ==> t <= part then 1 else 0
  }

  /** Beyond `reach` nothing adaptive was drawn, and every window sees the whole canaries and the one
      cut short if it lies below the cut. */
  ghost predicate OnlyCanariesBeyond(plan: Plan, whole: nat, part: nat, reach: nat, limit: nat) {
    && NoTokenReuse(plan)
    && (forall i :: 0 <= i < |plan| && Adaptive(plan[i]) ==> plan[i].ttl <= reach)
    && (forall window: set<nat> :: Beyond(window, reach, limit) ==>
          |CompleteSamples(plan, window, true)| == whole + Counted(window, part))
  }

  /** The canaries start it. */
  lemma CanariesAlone(config: TraceConfig, limit: nat, plan: Plan, firstId: nat, main: FlowKey,
                      variants: map<nat, FlowKey>, grown: Plan, whole: nat, part: nat)
    requires OnlyBaseline(plan, main) && main.variant == 0 && Cached(variants) && IdsBelow(plan, firstId)
    requires Canaries(config, limit, plan, firstId, variants, grown, whole, part)
    ensures OnlyCanariesBeyond(grown, whole, part, 0, limit)
  {
    CanariesWithin(config, limit, plan, firstId, variants, grown, whole, part);
    assert forall i :: 0 <= i < |plan| ==> grown[i] == plan[i];
    hide CompleteSamples, Canaries;
    forall window: set<nat> | Beyond(window, 0, limit)
      ensures |CompleteSamples(grown, window, true)| == whole + Counted(window, part)
    {
      CanaryCounts(config, limit, plan, firstId, main, variants, grown, whole, part, window);
    }
  }

  lemma CanaryCounts(config: TraceConfig, limit: nat, plan: Plan, firstId: nat, main: FlowKey,
                     variants: map<nat, FlowKey>, grown: Plan, whole: nat, part: nat, window: set<nat>)
    requires OnlyBaseline(plan, main) && main.variant == 0 && Cached(variants) && IdsBelow(plan, firstId)
    requires Canaries(config, limit, plan, firstId, variants, grown, whole, part) && Beyond(window, 0, limit)
    ensures |CompleteSamples(grown, window, true)| == whole + Counted(window, part)
  {
    hide CompleteSamples, Series, OnlyBaseline, Cached;
    var flows := CachedFlows(variants, 1, whole);
    var series := Series(Range(1, limit), flows, CanaryVaried, firstId, config.payloadSize);
    NothingVaried(plan, main, window);
    CachedAreVaried(variants, 1, whole);
    RangeElements(1, limit);
    assert window <= Elements(Range(1, limit));
    SeriesCounts(plan, Range(1, limit), flows, CanaryVaried, firstId, config.payloadSize, window, true, true);
    if whole < config.canaryFlows {
      SeriesSpecs(Range(1, limit), flows, CanaryVaried, firstId, config.payloadSize);
      SeriesIdsBelow(plan, series, firstId + whole);
      CachedVariant(variants, whole + 1);
      PartialSample(config, plan + series, variants[whole + 1], firstId + whole, part, window);
    } else {
      var t :| t in window;
      assert Counted(window, 0) == 0;
    }
  }

  /** Without canaries there is nothing to count. */
  lemma NothingBeyond(plan: Plan, main: FlowKey, limit: nat)
    requires OnlyBaseline(plan, main) && main.variant == 0
    ensures OnlyCanariesBeyond(plan, 0, 0, 0, limit)
  {
    forall window: set<nat> | Beyond(window, 0, limit)
      ensures |CompleteSamples(plan, window, true)| == Counted(window, 0)
    {
      NothingVaried(plan, main, window);
      var t :| t in window;
    }
  }

  lemma CachedVariant(variants: map<nat, FlowKey>, v: nat)
    requires Cached(variants) && v in variants
    ensures variants[v].variant == v
  {
  }

  lemma CachedAreVaried(variants: map<nat, FlowKey>, first: nat, n: nat)
    requires Cached(variants) && AllCached(variants, first, n)
    ensures SameVariety(CachedFlows(variants, first, n), true)
  {
  }

  lemma NothingVaried(plan: Plan, main: FlowKey, window: set<nat>)
    requires OnlyBaseline(plan, main) && main.variant == 0
    ensures CompleteSamples(plan, window, true) == {}
  {
  }

  /** A canary cut off after `part` TTLs is complete for exactly the windows below the cut. */
  lemma PartialSample(config: TraceConfig, sent: Plan, flow: FlowKey, id: nat, part: nat, window: set<nat>)
    requires IdsBelow(sent, id) && flow.variant != 0 && window != {} && forall t :: t in window ==> 1 <= t
    ensures |CompleteSamples(sent + Bundle(Range(1, part), flow, CanaryVaried, id, config.payloadSize), window, true)|
         == |CompleteSamples(sent, window, true)| + Counted(window, part)
  {
    hide CompleteSamples;
    RangeElements(1, part);
    assert window <= Elements(Range(1, part)) <==> Counted(window, part) == 1;
    BundleCompletes(sent, Range(1, part), flow, CanaryVaried, id, config.payloadSize, window, true);
  }

  // ---------- The next window ----------

  /** A window beyond the reach can be sampled: the variants drawn are new to adaptive samples there,
      and past its end nothing changes. */
  lemma SampledBeyond(config: TraceConfig, main: FlowKey, region: Region, plan: Plan, firstId: nat,
                      variants: map<nat, FlowKey>, grown: Plan, nextId: nat, refused: bool,
                      whole: nat, part: nat, reach: nat, last: nat, limit: nat)
    requires config.Valid() && main.variant == 0 && Cached(variants) && IdsBelow(plan, firstId)
    requires OnlyCanariesBeyond(plan, whole, part, reach, limit)
    requires region.probeTtls != [] && StrictlyIncreasing(region.probeTtls)
    requires last <= limit && forall t :: t in region.probeTtls ==> reach < t <= last
    requires Sampled(config, main, region, plan, firstId, variants, grown, nextId, refused)
    ensures OnlyCanariesBeyond(grown, whole, part, last, limit)
    ensures DrawnInOrder(grown, region.probeTtls, FirstVariant(region.probeTtls, whole, part))
  {
    var repeats, draws := SampledParts(config, main, region, plan, firstId, variants, grown, nextId, refused);
    hide Sampled, CompleteSamples;
    var ttls := region.probeTtls;
    assert ttls[0] in Elements(ttls);
    assert Beyond(Elements(ttls), reach, limit);
    var first := FirstVariant(ttls, whole, part);
    PartsBeyond(config, main, ttls, plan, firstId, variants, first, repeats, draws, whole, part, reach, last, limit);
    NewDrawn(config, main, ttls, plan, firstId, variants, first, repeats, draws, reach);
  }

  lemma PartsBeyond(config: TraceConfig, main: FlowKey, ttls: seq<nat>, plan: Plan, firstId: nat,
                    variants: map<nat, FlowKey>, first: nat, repeats: nat, draws: nat,
                    whole: nat, part: nat, reach: nat, last: nat, limit: nat)
    requires main.variant == 0 && Cached(variants) && IdsBelow(plan, firstId) && first >= 1
    requires AllCached(variants, first, draws)
    requires OnlyCanariesBeyond(plan, whole, part, reach, limit)
    requires ttls != [] && StrictlyIncreasing(ttls) && last <= limit && forall t :: t in ttls ==> reach < t <= last
    ensures OnlyCanariesBeyond(plan + Repeats(config, main, ttls, repeats, firstId)
                               + Variants(config, variants, ttls, first, draws, firstId + repeats),
                               whole, part, last, limit)
  {
    hide CompleteSamples, Series, NoTokenReuse, Repeats;
    var middle := plan + Repeats(config, main, ttls, repeats, firstId);
    var grown := middle + Variants(config, variants, ttls, first, draws, firstId + repeats);
    RepeatsDrawNothing(plan, ttls, main, repeats, firstId, config);
    assert !AlreadyDrawn(middle, ttls, first, draws);
    DrawingKeepsTokensFresh(middle, ttls, CachedFlows(variants, first, draws), first, firstId + repeats,
                            config.payloadSize);
    assert ttls[0] in ttls;
    DrawnWithin(config, main, ttls, plan, firstId, variants, first, repeats, draws, last);
    hide Variants;
    forall window: set<nat> | Beyond(window, last, limit)
      ensures |CompleteSamples(grown, window, true)| == whole + Counted(window, part)
    {
      BeyondShrinks(window, ttls, reach, last, limit);
      SampledCounts(config, main, ttls, plan, firstId, variants, first, repeats, draws, window);
      BeyondMisses(window, ttls, last, limit);
    }
  }

  lemma BeyondShrinks(window: set<nat>, ttls: seq<nat>, reach: nat, last: nat, limit: nat)
    requires Beyond(window, last, limit) && ttls != [] && forall t :: t in ttls ==> reach < t <= last
    ensures Beyond(window, reach, limit)
  {
    assert ttls[0] in ttls;
  }

  lemma BeyondMisses(window: set<nat>, ttls: seq<nat>, last: nat, limit: nat)
    requires Beyond(window, last, limit) && forall t :: t in ttls ==> t <= last
    ensures !(window <= Elements(ttls))
  {
    var t :| t in window;
    assert t !in Elements(ttls);
  }

  /** Repeats of the main flow draw no variant. */
  lemma RepeatsDrawNothing(plan: Plan, ttls: seq<nat>, main: FlowKey, n: nat, firstId: nat, config: TraceConfig)
    ensures var grown := plan + Repeats(config, main, ttls, n, firstId);
            && (NoTokenReuse(plan) ==> NoTokenReuse(grown))
            && forall i :: 0 <= i < |grown| && Adaptive(grown[i]) ==> i < |plan| && grown[i] == plan[i]
  {
    var series := Repeats(config, main, ttls, n, firstId);
    var grown := plan + series;
    SeriesSpecs(ttls, Copies(main, n), DbpFixed, firstId, config.payloadSize);
    forall i | |plan| <= i < |grown| ensures !Adaptive(grown[i]) {
      assert grown[i] in series;
    }
  }

  lemma DrawnWithin(config: TraceConfig, main: FlowKey, ttls: seq<nat>, plan: Plan, firstId: nat,
                    variants: map<nat, FlowKey>, first: nat, repeats: nat, draws: nat, last: nat)
    requires AllCached(variants, first, draws) && forall t :: t in ttls ==> t <= last
    requires forall i :: 0 <= i < |plan| && Adaptive(plan[i]) ==> plan[i].ttl <= last
    ensures var grown := plan + Repeats(config, main, ttls, repeats, firstId)
                         + Variants(config, variants, ttls, first, draws, firstId + repeats);
            forall i :: 0 <= i < |grown| && Adaptive(grown[i]) ==> grown[i].ttl <= last
  {
    var series := Variants(config, variants, ttls, first, draws, firstId + repeats);
    var middle := plan + Repeats(config, main, ttls, repeats, firstId);
    var grown := middle + series;
    RepeatsDrawNothing(plan, ttls, main, repeats, firstId, config);
    SeriesSpecs(ttls, CachedFlows(variants, first, draws), DbpVaried, firstId + repeats, config.payloadSize);
    hide Repeats, Variants;
    forall i | |middle| <= i < |grown| ensures grown[i].ttl <= last {
      assert grown[i] in series;
    }
    assert forall i :: 0 <= i < |middle| ==> grown[i] == middle[i];
  }

  // ---------- What each window drew ----------

  /** The variant a window starts drawing at: the next after the complete samples it sees. */
  ghost function FirstVariant(ttls: seq<nat>, whole: nat, part: nat): nat {
    whole + Counted(Elements(ttls), part) + 1
  }

  ghost predicate DrewWhole(plan: Plan, ttls: seq<nat>, variant: nat) {
    exists i :: 0 <= i < |plan| && Adaptive(plan[i]) && plan[i].flow.variant == variant
                && TtlsOf(plan, true, plan[i].sampleId) == Elements(ttls)
  }

  /** If anything was drawn on the window, then the variant `first` on all of it, and no lower one. */
  ghost predicate DrawnInOrder(plan: Plan, ttls: seq<nat>, first: nat) {
    forall i :: 0 <= i < |plan| && Adaptive(plan[i]) && plan[i].ttl in ttls ==>
      plan[i].flow.variant >= first && DrewWhole(plan, ttls, first)
  }

  lemma NewDrawn(config: TraceConfig, main: FlowKey, ttls: seq<nat>, plan: Plan, firstId: nat,
                 variants: map<nat, FlowKey>, first: nat, repeats: nat, draws: nat, reach: nat)
    requires main.variant == 0 && Cached(variants) && IdsBelow(plan, firstId) && AllCached(variants, first, draws)
    requires ttls != [] && forall t :: t in ttls ==> reach < t
    requires forall i :: 0 <= i < |plan| && Adaptive(plan[i]) ==> plan[i].ttl <= reach
    ensures DrawnInOrder(plan + Repeats(config, main, ttls, repeats, firstId)
                         + Variants(config, variants, ttls, first, draws, firstId + repeats), ttls, first)
  {
    var grown := plan + Repeats(config, main, ttls, repeats, firstId)
                 + Variants(config, variants, ttls, first, draws, firstId + repeats);
    NewVariants(config, main, ttls, plan, firstId, variants, first, repeats, draws);
    if draws > 0 {
      FirstIsWhole(config, main, ttls, plan, firstId, variants, first, repeats, draws);
    }
    hide Repeats, Variants, DrewWhole;
    assert forall i :: 0 <= i < |plan| ==> grown[i] == plan[i];
  }

  lemma NewVariants(config: TraceConfig, main: FlowKey, ttls: seq<nat>, plan: Plan, firstId: nat,
                    variants: map<nat, FlowKey>, first: nat, repeats: nat, draws: nat)
    requires Cached(variants) && AllCached(variants, first, draws)
    ensures var grown := plan + Repeats(config, main, ttls, repeats, firstId)
                         + Variants(config, variants, ttls, first, draws, firstId + repeats);
            forall i :: |plan| <= i < |grown| && Adaptive(grown[i]) ==>
              draws > 0 && grown[i].ttl in ttls && grown[i].flow.variant >= first
  {
    var middle := plan + Repeats(config, main, ttls, repeats, firstId);
    var series := Variants(config, variants, ttls, first, draws, firstId + repeats);
    var grown := middle + series;
    RepeatsDrawNothing(plan, ttls, main, repeats, firstId, config);
    SeriesSpecs(ttls, CachedFlows(variants, first, draws), DbpVaried, firstId + repeats, config.payloadSize);
    hide Repeats, Variants;
    forall i | |middle| <= i < |grown|
      ensures draws > 0 && grown[i].ttl in ttls && grown[i].flow.variant >= first
    {
      assert grown[i] in series;
    }
    assert forall i :: 0 <= i < |middle| ==> grown[i] == middle[i];
  }

  lemma FirstIsWhole(config: TraceConfig, main: FlowKey, ttls: seq<nat>, plan: Plan, firstId: nat,
                     variants: map<nat, FlowKey>, first: nat, repeats: nat, draws: nat)
    requires main.variant == 0 && Cached(variants) && IdsBelow(plan, firstId) && AllCached(variants, first, draws)
    requires ttls != [] && draws > 0
    ensures DrewWhole(plan + Repeats(config, main, ttls, repeats, firstId)
                      + Variants(config, variants, ttls, first, draws, firstId + repeats), ttls, first)
  {
    hide Series, TtlsOf, Elements, IdsBelow, Repeats;
    var middle := plan + Repeats(config, main, ttls, repeats, firstId);
    var flows := CachedFlows(variants, first, draws);
    var series := Variants(config, variants, ttls, first, draws, firstId + repeats);
    var j := SeriesPosition(ttls, flows, DbpVaried, firstId + repeats, config.payloadSize, ttls[0], 0);
    SampledTtls(config, main, ttls, plan, firstId, variants, first, repeats, draws, true, firstId + repeats);
    assert (middle + series)[|middle| + j] == series[j];
  }

  /** Later windows leave it so. */
  lemma DrawnPersists(plan: Plan, grown: Plan, firstId: nat, ttls: seq<nat>, first: nat)
    requires plan <= grown && IdsBelow(plan, firstId) && DrawnInOrder(plan, ttls, first)
    requires forall i :: |plan| <= i < |grown| && Adaptive(grown[i]) ==> grown[i].ttl !in ttls
    requires forall id: nat :: id < firstId ==> TtlsOf(grown, true, id) == TtlsOf(plan, true, id)
    ensures DrawnInOrder(grown, ttls, first)
  {
    hide TtlsOf, Elements;
    forall i | 0 <= i < |grown| && Adaptive(grown[i]) && grown[i].ttl in ttls
      ensures grown[i].flow.variant >= first && DrewWhole(grown, ttls, first)
    {
      assert plan[i] == grown[i];
      var k :| 0 <= k < |plan| && Adaptive(plan[k]) && plan[k].flow.variant == first
               && TtlsOf(plan, true, plan[k].sampleId) == Elements(ttls);
      assert grown[k] == plan[k];
    }
  }

  // ---------- Cluster by cluster ----------

  ghost predicate DrawnOn(plan: Plan, cluster: seq<Region>, whole: nat, part: nat)
    requires cluster != []
  {
    DrawnInOrder(plan, Aggregate(cluster).probeTtls, FirstVariant(Aggregate(cluster).probeTtls, whole, part))
  }

  ghost predicate AllDrawn(plan: Plan, clusters: seq<seq<Region>>, whole: nat, part: nat) {
    forall c :: c in clusters ==> c != [] && DrawnOn(plan, c, whole, part)
  }

  ghost predicate Behind(clusters: seq<seq<Region>>, reach: nat) {
    forall c :: c in clusters ==> c != [] && forall t :: t in Aggregate(c).probeTtls ==> t <= reach
  }

  /** Sampling the next cluster of a sequence moves the reach to its end. */
  lemma ClusterBeyond(config: TraceConfig, main: FlowKey, done: seq<seq<Region>>, cluster: seq<Region>, plan: Plan,
                      firstId: nat, variants: map<nat, FlowKey>, grown: Plan, nextId: nat, refused: bool,
                      whole: nat, part: nat, reach: nat, limit: nat)
    requires config.Valid() && main.variant == 0 && Cached(variants) && IdsBelow(plan, firstId)
    requires cluster != [] && AllWindows(cluster, limit) && Aggregate(cluster).probeTtls != []
    requires forall r :: r in cluster ==> reach < r.first
    requires OnlyCanariesBeyond(plan, whole, part, reach, limit)
    requires AllDrawn(plan, done, whole, part) && Behind(done, reach)
    requires Sampled(config, main, Aggregate(cluster), plan, firstId, variants, grown, nextId, refused)
    ensures OnlyCanariesBeyond(grown, whole, part, Highest(cluster), limit)
    ensures AllDrawn(grown, done + [cluster], whole, part) && Behind(done + [cluster], Highest(cluster))
  {
    hide Sampled, OnlyCanariesBeyond, Aggregate, Highest, Cached, IdsBelow, DrawnInOrder, FirstVariant;
    AggregateCovers(cluster, limit);
    AggregateStarts(cluster, reach);
    var window := Aggregate(cluster);
    assert forall t :: t in window.probeTtls ==> window.first <= t <= window.last;
    SampledBeyond(config, main, window, plan, firstId, variants, grown, nextId, refused, whole, part, reach,
                  window.last, limit);
    forall c | c in done ensures DrawnOn(grown, c, whole, part) {
      StillDrawn(config, main, window, plan, firstId, variants, grown, nextId, refused, reach,
                 Aggregate(c).probeTtls, FirstVariant(Aggregate(c).probeTtls, whole, part));
    }
  }

  /** A window outside the one sampled now, or any window when only repeats were wanted. */
  lemma StillDrawn(config: TraceConfig, main: FlowKey, region: Region, plan: Plan, firstId: nat,
                   variants: map<nat, FlowKey>, grown: Plan, nextId: nat, refused: bool, reach: nat,
                   ttls: seq<nat>, first: nat)
    requires config.Valid() && main.variant == 0 && Cached(variants) && IdsBelow(plan, firstId)
    requires region.probeTtls != [] && DrawnInOrder(plan, ttls, first)
    requires region.variantCoverage ==> forall t, u :: t in ttls && u in region.probeTtls ==> t <= reach < u
    requires Sampled(config, main, region, plan, firstId, variants, grown, nextId, refused)
    ensures DrawnInOrder(grown, ttls, first)
  {
    var repeats, draws := SampledParts(config, main, region, plan, firstId, variants, grown, nextId, refused);
    var from := |CompleteSamples(plan, Elements(region.probeTtls), true)| + 1;
    hide Sampled, CompleteSamples, DrawnInOrder, Elements, TtlsOf, IdsBelow, Cached;
    NewVariants(config, main, region.probeTtls, plan, firstId, variants, from, repeats, draws);
    forall id: nat | id < firstId ensures TtlsOf(grown, true, id) == TtlsOf(plan, true, id) {
      SampledTtls(config, main, region.probeTtls, plan, firstId, variants, from, repeats, draws, true, id);
    }
    DrawnPersists(plan, grown, firstId, ttls, first);
  }

  /** A fixed-only window leaves the tokens alone. */
  lemma SampledFixed(config: TraceConfig, main: FlowKey, region: Region, plan: Plan, firstId: nat,
                     variants: map<nat, FlowKey>, grown: Plan, nextId: nat, refused: bool,
                     clusters: seq<seq<Region>>, whole: nat, part: nat)
    requires config.Valid() && main.variant == 0 && Cached(variants) && IdsBelow(plan, firstId)
    requires region.probeTtls != [] && !region.variantCoverage
    requires NoTokenReuse(plan) && AllDrawn(plan, clusters, whole, part)
    requires Sampled(config, main, region, plan, firstId, variants, grown, nextId, refused)
    ensures NoTokenReuse(grown) && AllDrawn(grown, clusters, whole, part)
  {
    hide Aggregate, FirstVariant, DrawnInOrder, CompleteSamples, NoTokenReuse, Cached, IdsBelow;
    var repeats, draws := SampledParts(config, main, region, plan, firstId, variants, grown, nextId, refused);
    RepeatsDrawNothing(plan, region.probeTtls, main, repeats, firstId, config);
    hide Sampled;
    assert grown == plan + Repeats(config, main, region.probeTtls, repeats, firstId);
    forall c | c in clusters ensures DrawnOn(grown, c, whole, part) {
      StillDrawn(config, main, region, plan, firstId, variants, grown, nextId, refused, 0,
                 Aggregate(c).probeTtls, FirstVariant(Aggregate(c).probeTtls, whole, part));
    }
  }

  lemma NothingDrawn(plan: Plan, whole: nat, part: nat)
    ensures AllDrawn(plan, [], whole, part) && Behind([], 0)
  {
  }

  lemma DrawnFresh(plan: Plan, whole: nat, part: nat, reach: nat, limit: nat)
    requires OnlyCanariesBeyond(plan, whole, part, reach, limit)
    ensures NoTokenReuse(plan)
  {
  }
}
