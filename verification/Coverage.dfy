/** What sampling a window means for the evidence: how many complete samples it leaves, and why the
    flow tokens behind them are drawn without replacement. */
module Coverage {
  import opened Clusters
  import opened Evidence
  import opened Ledgers
  import opened Model
  import opened Regions
  import opened Sampling
  import opened Sequences
  import opened Settings
  import opened Tokens

  // ---------- Enough samples ----------

  /** A region has the repeats it wants and, where variants count, the CAP sample. */
  ghost predicate Satisfied(plan: Plan, ttls: seq<nat>, variantCoverage: bool, config: TraceConfig)
    requires config.Valid()
  {
    && |CompleteSamples(plan, Elements(ttls), false)| >= config.temporalSamples
    && (variantCoverage ==> |CompleteSamples(plan, Elements(ttls), true)| >= config.Required())
  }

  /** Later probes and narrower windows stay satisfied. */
  lemma SatisfiedPersists(plan: Plan, more: Plan, ttls: seq<nat>, part: seq<nat>, variantCoverage: bool,
                          partCoverage: bool, config: TraceConfig)
    requires config.Valid() && Satisfied(plan, ttls, variantCoverage, config)
    requires partCoverage ==> variantCoverage
    requires part != [] && forall t :: t in part ==> t in ttls
    ensures Satisfied(plan + more, part, partCoverage, config)
  {
    assert part[0] in Elements(part);
    assert Elements(part) <= Elements(ttls);
    CompleteSamplesGrow(plan, more, Elements(ttls), Elements(part), false);
    CompleteSamplesGrow(plan, more, Elements(ttls), Elements(part), true);
  }

  ghost predicate IdsBelow(plan: Plan, id: nat) {
    forall i :: 0 <= i < |plan| ==> plan[i].sampleId < id
  }

  ghost function Repeats(config: TraceConfig, main: FlowKey, ttls: seq<nat>, n: nat, firstId: nat): Plan {
    Series(ttls, Copies(main, n), DbpFixed, firstId, config.payloadSize)
  }

  ghost function Variants(config: TraceConfig, variants: map<nat, FlowKey>, ttls: seq<nat>, first: nat, n: nat,
                          firstId: nat): Plan
    requires AllCached(variants, first, n)
  {
    Series(ttls, CachedFlows(variants, first, n), DbpVaried, firstId, config.payloadSize)
  }

  /** The two series that a sampled window adds. */
  lemma SampledParts(config: TraceConfig, main: FlowKey, region: Region, plan: Plan, firstId: nat,
                     variants: map<nat, FlowKey>, grown: Plan, nextId: nat, refused: bool)
    returns (repeats: nat, draws: nat)
    requires config.Valid() && region.probeTtls != []
    requires Sampled(config, main, region, plan, firstId, variants, grown, nextId, refused)
    ensures var have := |CompleteSamples(plan, Elements(region.probeTtls), true)|;
            && AllCached(variants, have + 1, draws)
            && grown == plan + Repeats(config, main, region.probeTtls, repeats, firstId)
                        + Variants(config, variants, region.probeTtls, have + 1, draws, firstId + repeats)
    ensures !region.variantCoverage ==> draws == 0
    ensures !refused ==>
              && repeats == Missing(plan, region.probeTtls, false, config.temporalSamples)
              && (region.variantCoverage ==> draws == Missing(plan, region.probeTtls, true, config.Required()))
  {
    hide Missing, CompleteSamples, Affordable;
    var ttls := region.probeTtls;
    var wanted := Missing(plan, ttls, false, config.temporalSamples);
    repeats := Affordable(wanted, config.maxProbes - |plan|, |ttls|);
    assert repeats <= wanted by { AffordableAtMost(wanted, config.maxProbes - |plan|, |ttls|); }
    var middle := plan + Repeats(config, main, ttls, repeats, firstId);
    var have := |CompleteSamples(plan, Elements(ttls), true)|;
    if repeats < wanted || !region.variantCoverage {
      draws := 0;
      assert CachedFlows(variants, have + 1, 0) == [];
      assert grown == middle + Variants(config, variants, ttls, have + 1, 0, firstId + repeats);
    } else {
      draws := Affordable(Missing(plan, ttls, true, config.Required()), config.maxProbes - |middle|, |ttls|);
      AffordableAtMost(Missing(plan, ttls, true, config.Required()), config.maxProbes - |middle|, |ttls|);
    }
  }

  lemma AffordableAtMost(wanted: nat, room: nat, size: nat)
    requires size > 0
    ensures Affordable(wanted, room, size) <= wanted
  {
  }

  ghost predicate Cached(variants: map<nat, FlowKey>) {
    forall v :: v in variants ==> v >= 1 && variants[v].variant == v
  }

  /** Complete samples of any window after both series. */
  lemma SampledCounts(config: TraceConfig, main: FlowKey, ttls: seq<nat>, plan: Plan, firstId: nat,
                      variants: map<nat, FlowKey>, first: nat, repeats: nat, draws: nat, window: set<nat>)
    requires main.variant == 0 && Cached(variants) && IdsBelow(plan, firstId) && window != {}
    requires AllCached(variants, first, draws)
    ensures var grown := plan + Repeats(config, main, ttls, repeats, firstId)
                         + Variants(config, variants, ttls, first, draws, firstId + repeats);
            && |CompleteSamples(grown, window, false)|
               == |CompleteSamples(plan, window, false)| + (if window <= Elements(ttls) then repeats else 0)
            && |CompleteSamples(grown, window, true)|
               == |CompleteSamples(plan, window, true)| + (if window <= Elements(ttls) then draws else 0)
  {
    hide CompleteSamples, Series, Elements;
    var fixed, varied := Copies(main, repeats), CachedFlows(variants, first, draws);
    var middle := plan + Repeats(config, main, ttls, repeats, firstId);
    assert SameVariety(fixed, false) && SameVariety(varied, true);
    SeriesCounts(plan, ttls, fixed, DbpFixed, firstId, config.payloadSize, window, false, false);
    SeriesCounts(plan, ttls, fixed, DbpFixed, firstId, config.payloadSize, window, false, true);
    SeriesSpecs(ttls, fixed, DbpFixed, firstId, config.payloadSize);
    SeriesIdsBelow(plan, Repeats(config, main, ttls, repeats, firstId), firstId + repeats);
    SeriesCounts(middle, ttls, varied, DbpVaried, firstId + repeats, config.payloadSize, window, true, false);
    SeriesCounts(middle, ttls, varied, DbpVaried, firstId + repeats, config.payloadSize, window, true, true);
  }

  lemma SeriesIdsBelow(plan: Plan, series: Plan, id: nat)
    requires IdsBelow(plan, id) && forall s :: s in series ==> s.sampleId < id
    ensures IdsBelow(plan + series, id)
  {
  }

  /** Samples on hand once the missing ones are there. */
  function Filled(have: nat, wanted: nat): nat {
    if have < wanted then wanted else have
  }

  /** Unless refused, sampling a window satisfies it, with no sample more than was missing. */
  lemma SampledSatisfies(config: TraceConfig, main: FlowKey, region: Region, plan: Plan, firstId: nat,
                         variants: map<nat, FlowKey>, grown: Plan, nextId: nat)
    requires config.Valid() && region.probeTtls != [] && main.variant == 0 && Cached(variants)
    requires IdsBelow(plan, firstId)
    requires Sampled(config, main, region, plan, firstId, variants, grown, nextId, false)
    ensures Satisfied(grown, region.probeTtls, region.variantCoverage, config)
    ensures var window := Elements(region.probeTtls);
            && |CompleteSamples(grown, window, false)|
               == Filled(|CompleteSamples(plan, window, false)|, config.temporalSamples)
            && |CompleteSamples(grown, window, true)|
               == if region.variantCoverage then Filled(|CompleteSamples(plan, window, true)|, config.Required())
                  else |CompleteSamples(plan, window, true)|
  {
    var repeats, draws := SampledParts(config, main, region, plan, firstId, variants, grown, nextId, false);
    var window := Elements(region.probeTtls);
    assert region.probeTtls[0] in window;
    hide Sampled, CompleteSamples, Elements, Repeats, Variants;
    SampledCounts(config, main, region.probeTtls, plan, firstId, variants,
                  |CompleteSamples(plan, window, true)| + 1, repeats, draws, window);
  }

  /** What sampling a window adds lies in the window and belongs to no sweep. */
  ghost predicate GrownWithin(plan: Plan, grown: Plan, limit: nat) {
    && plan <= grown
    && forall i :: |plan| <= i < |grown| ==> grown[i].ttl <= limit && !SweepPhase(grown[i].phase)
  }

  lemma SampledWithin(config: TraceConfig, main: FlowKey, region: Region, plan: Plan, firstId: nat,
                      variants: map<nat, FlowKey>, grown: Plan, nextId: nat, refused: bool, limit: nat)
    requires config.Valid() && region.probeTtls != [] && forall t :: t in region.probeTtls ==> t <= limit
    requires Sampled(config, main, region, plan, firstId, variants, grown, nextId, refused)
    ensures GrownWithin(plan, grown, limit)
  {
    var repeats, draws := SampledParts(config, main, region, plan, firstId, variants, grown, nextId, refused);
    hide Sampled, CompleteSamples, Elements, Repeats, Variants, GrownWithin;
    PartsWithin(config, main, region.probeTtls, plan, firstId, variants,
                |CompleteSamples(plan, Elements(region.probeTtls), true)| + 1, repeats, draws, limit);
  }

  lemma PartsWithin(config: TraceConfig, main: FlowKey, ttls: seq<nat>, plan: Plan, firstId: nat,
                    variants: map<nat, FlowKey>, first: nat, repeats: nat, draws: nat, limit: nat)
    requires AllCached(variants, first, draws) && forall t :: t in ttls ==> t <= limit
    ensures GrownWithin(plan, plan + Repeats(config, main, ttls, repeats, firstId)
                              + Variants(config, variants, ttls, first, draws, firstId + repeats), limit)
  {
    hide Series, GrownWithin;
    SeriesSpecs(ttls, Copies(main, repeats), DbpFixed, firstId, config.payloadSize);
    SeriesSpecs(ttls, CachedFlows(variants, first, draws), DbpVaried, firstId + repeats, config.payloadSize);
    AppendedWithin(plan, Repeats(config, main, ttls, repeats, firstId),
                   Variants(config, variants, ttls, first, draws, firstId + repeats), limit);
  }

  lemma AppendedWithin(plan: Plan, a: Plan, b: Plan, limit: nat)
    requires forall s :: s in a ==> s.ttl <= limit && !SweepPhase(s.phase)
    requires forall s :: s in b ==> s.ttl <= limit && !SweepPhase(s.phase)
    ensures GrownWithin(plan, plan + a + b, limit)
  {
    var grown := plan + a + b;
    forall i | |plan| <= i < |grown| ensures grown[i].ttl <= limit && !SweepPhase(grown[i].phase) {
      assert grown[i] in a || grown[i] in b;
    }
  }

  // ---------- Whole samples ----------

  /** A cluster, or a single region that wants no variants: what one shared window is made of. */
  ghost predicate OneWindow(members: seq<Region>, regions: seq<Region>, clusters: seq<seq<Region>>) {
    members in clusters || (|members| == 1 && members[0] in regions && !members[0].variantCoverage)
  }

  /** A sample probed exactly the TTLs of one window. */
  ghost predicate WholeSample(plan: Plan, spec: ProbeSpec, regions: seq<Region>, clusters: seq<seq<Region>>) {
    exists members :: OneWindow(members, regions, clusters)
                      && TtlsOf(plan, Varied(spec), spec.sampleId) == ClusterTtls(members)
  }

  ghost predicate WholeSamples(plan: Plan, from: nat, regions: seq<Region>, clusters: seq<seq<Region>>) {
    forall i :: from <= i < |plan| ==> WholeSample(plan, plan[i], regions, clusters)
  }

  lemma TtlsOfThree(plan: Plan, a: Plan, b: Plan, varied: bool, id: nat)
    ensures TtlsOf(plan + a + b, varied, id) == TtlsOf(plan, varied, id) + TtlsOf(a, varied, id) + TtlsOf(b, varied, id)
  {
    hide TtlsOf;
    TtlsOfAppend(plan, a, varied, id);
    TtlsOfAppend(plan + a, b, varied, id);
  }

  lemma NoTtlsBelow(plan: Plan, firstId: nat, varied: bool, id: nat)
    requires IdsBelow(plan, firstId) && id >= firstId
    ensures TtlsOf(plan, varied, id) == {}
  {
  }

  /** The TTLs of every sample after both series: old samples as before, new ones the whole window. */
  lemma SampledTtls(config: TraceConfig, main: FlowKey, ttls: seq<nat>, plan: Plan, firstId: nat,
                    variants: map<nat, FlowKey>, first: nat, repeats: nat, draws: nat, varied: bool, id: nat)
    requires main.variant == 0 && Cached(variants) && IdsBelow(plan, firstId) && AllCached(variants, first, draws)
    ensures var grown := plan + Repeats(config, main, ttls, repeats, firstId)
                         + Variants(config, variants, ttls, first, draws, firstId + repeats);
            TtlsOf(grown, varied, id)
            == if id < firstId then TtlsOf(plan, varied, id)
               else if id < firstId + repeats then (if varied then {} else Elements(ttls))
               else if id < firstId + repeats + draws then (if varied then Elements(ttls) else {})
               else {}
  {
    hide TtlsOf, Series, Elements;
    TtlsOfThree(plan, Repeats(config, main, ttls, repeats, firstId),
                Variants(config, variants, ttls, first, draws, firstId + repeats), varied, id);
    SeriesTtls(ttls, Copies(main, repeats), DbpFixed, firstId, config.payloadSize, false, varied, id);
    SeriesTtls(ttls, CachedFlows(variants, first, draws), DbpVaried, firstId + repeats, config.payloadSize, true,
               varied, id);
    if id >= firstId {
      NoTtlsBelow(plan, firstId, varied, id);
    }
  }

  /** Adaptive samples are never partial. */
  lemma SampledAreWhole(config: TraceConfig, main: FlowKey, region: Region, plan: Plan, firstId: nat,
                        variants: map<nat, FlowKey>, grown: Plan, nextId: nat, refused: bool,
                        from: nat, regions: seq<Region>, clusters: seq<seq<Region>>, members: seq<Region>)
    requires config.Valid() && region.probeTtls != [] && main.variant == 0 && Cached(variants)
    requires IdsBelow(plan, firstId)
    requires Sampled(config, main, region, plan, firstId, variants, grown, nextId, refused)
    requires from <= |plan| && WholeSamples(plan, from, regions, clusters)
    requires OneWindow(members, regions, clusters) && Elements(region.probeTtls) == ClusterTtls(members)
    ensures WholeSamples(grown, from, regions, clusters)
  {
    var repeats, draws := SampledParts(config, main, region, plan, firstId, variants, grown, nextId, refused);
    hide Sampled, CompleteSamples, TtlsOf, Elements, ClusterTtls, Series, OneWindow;
    var ttls, first := region.probeTtls, |CompleteSamples(plan, Elements(region.probeTtls), true)| + 1;
    SeriesSpecs(ttls, Copies(main, repeats), DbpFixed, firstId, config.payloadSize);
    SeriesSpecs(ttls, CachedFlows(variants, first, draws), DbpVaried, firstId + repeats, config.payloadSize);
    forall i | from <= i < |grown| ensures WholeSample(grown, grown[i], regions, clusters) {
      SampledTtls(config, main, ttls, plan, firstId, variants, first, repeats, draws, Varied(grown[i]),
                  grown[i].sampleId);
      if i < |plan| {
        assert WholeSample(plan, plan[i], regions, clusters);
        assert grown[i] == plan[i];
      } else {
        assert grown[i] in Repeats(config, main, ttls, repeats, firstId)
            || grown[i] in Variants(config, variants, ttls, first, draws, firstId + repeats);
        assert TtlsOf(grown, Varied(grown[i]), grown[i].sampleId) == ClusterTtls(members);
      }
    }
  }

  // ---------- All regions of a run ----------

  ghost predicate AllSatisfied(plan: Plan, regions: seq<Region>, config: TraceConfig)
    requires config.Valid()
  {
    forall r :: r in regions ==> Satisfied(plan, r.probeTtls, r.variantCoverage, config)
  }

  ghost predicate AllWindows(regions: seq<Region>, limit: nat) {
    forall r :: r in regions ==> Geometry(r, limit)
  }

  lemma AllSatisfiedPersists(plan: Plan, grown: Plan, regions: seq<Region>, limit: nat, config: TraceConfig)
    requires config.Valid() && AllSatisfied(plan, regions, config) && AllWindows(regions, limit) && plan <= grown
    ensures AllSatisfied(grown, regions, config)
  {
    hide Satisfied;
    var more := grown[|plan|..];
    assert grown == plan + more;
    forall r | r in regions ensures Satisfied(grown, r.probeTtls, r.variantCoverage, config) {
      assert r.first in r.probeTtls;
      SatisfiedPersists(plan, more, r.probeTtls, r.probeTtls, r.variantCoverage, r.variantCoverage, config);
    }
  }

  lemma GrownTransitive(a: Plan, b: Plan, c: Plan, limit: nat)
    requires GrownWithin(a, b, limit) && GrownWithin(b, c, limit)
    ensures GrownWithin(a, c, limit)
  {
    forall i | |a| <= i < |c| ensures c[i].ttl <= limit && !SweepPhase(c[i].phase) {
      if i < |b| { assert c[i] == b[i]; }
    }
  }

  /** Sampling the shared window of a cluster satisfies every member. */
  lemma ClusterSatisfied(config: TraceConfig, main: FlowKey, cluster: seq<Region>, plan: Plan, firstId: nat,
                         variants: map<nat, FlowKey>, grown: Plan, nextId: nat, limit: nat)
    requires config.Valid() && main.variant == 0 && Cached(variants) && IdsBelow(plan, firstId)
    requires cluster != [] && AllWindows(cluster, limit) && Aggregate(cluster).probeTtls != []
    requires Sampled(config, main, Aggregate(cluster), plan, firstId, variants, grown, nextId, false)
    ensures AllSatisfied(grown, cluster, config)
  {
    hide Sampled, Satisfied, Aggregate, Cached, IdsBelow, ProbedWithin;
    var window := Aggregate(cluster);
    AggregateCovers(cluster, limit);
    SampledSatisfies(config, main, window, plan, firstId, variants, grown, nextId);
    forall r | r in cluster ensures Satisfied(grown, r.probeTtls, r.variantCoverage, config) {
      MemberSatisfied(config, grown, window, r, limit);
    }
  }

  lemma MemberSatisfied(config: TraceConfig, plan: Plan, window: Region, region: Region, limit: nat)
    requires config.Valid() && Satisfied(plan, window.probeTtls, true, config) && Geometry(region, limit)
    requires ProbedWithin(region, window)
    ensures Satisfied(plan, region.probeTtls, region.variantCoverage, config)
  {
    hide Satisfied;
    SatisfiedPersists(plan, [], window.probeTtls, region.probeTtls, true, region.variantCoverage, config);
    assert plan + [] == plan;
  }

  /** The shared window probes every member's TTLs and nothing outside the members' span. */
  lemma AggregateCovers(cluster: seq<Region>, limit: nat)
    requires cluster != [] && AllWindows(cluster, limit)
    ensures var window := Aggregate(cluster);
            && window.probeTtls != [] && StrictlyIncreasing(window.probeTtls) && window.variantCoverage
            && Geometry(window, limit) && Highest(cluster) == window.last
            && forall r :: r in cluster ==> ProbedWithin(r, window)
  {
    hide Aggregate, StrictlyIncreasing, ProbedWithin, ClusterTtls;
    AggregateShape(cluster);
    AggregateSpans(cluster, limit);
  }

  lemma AggregateShape(cluster: seq<Region>)
    requires cluster != []
    ensures Aggregate(cluster).variantCoverage && Aggregate(cluster).last == Highest(cluster)
  {
  }

  lemma AggregateStarts(cluster: seq<Region>, reach: nat)
    requires cluster != [] && forall r :: r in cluster ==> reach < r.first
    ensures reach < Aggregate(cluster).first
  {
    hide Lowest;
    var l :| 0 <= l < |cluster| && cluster[l].first == Lowest(cluster);
    assert cluster[l] in cluster;
  }

  lemma GeometryIsWindow(region: Region, limit: nat, maxTtl: nat)
    requires Geometry(region, limit) && limit <= maxTtl
    ensures ProbeWindow(region.probeTtls, maxTtl) && forall t :: t in region.probeTtls ==> t <= limit
  {
  }

  /** The clusters still to come start beyond the reach. */
  ghost predicate AheadOf(clusters: seq<seq<Region>>, n: nat, reach: nat) {
    forall k, r :: n <= k < |clusters| && r in clusters[k] ==> reach < r.first
  }

  ghost predicate ClusterWindows(clusters: seq<seq<Region>>, limit: nat) {
    forall c :: c in clusters ==> c != [] && AllWindows(c, limit)
  }

  lemma ClustersCover(regions: seq<Region>, clusters: seq<seq<Region>>, limit: nat)
    requires AllWindows(regions, limit) && Clustered(InOrder(regions, true), clusters)
    ensures ClusterWindows(clusters, limit) && AheadOf(clusters, 0, 0)
    ensures Flatten(clusters) == InOrder(regions, true)
  {
    hide Geometry, InOrder, Flatten, Linked;
    InOrderKeeps(regions, true);
    FlattenElements(clusters);
    forall k, r | 0 <= k < |clusters| && r in clusters[k] ensures r in regions {
      assert r in InOrder(regions, true);
    }
    forall c | c in clusters ensures c != [] && AllWindows(c, limit) {
      var k :| 0 <= k < |clusters| && clusters[k] == c;
      LinkedNotEmpty(c);
    }
    forall k, r | 0 <= k < |clusters| && r in clusters[k] ensures 0 < r.first {
      WindowStarts(r, limit);
    }
  }

  lemma LinkedNotEmpty(cluster: seq<Region>)
    requires Linked(cluster)
    ensures cluster != []
  {
  }

  lemma WindowStarts(region: Region, limit: nat)
    requires Geometry(region, limit)
    ensures 0 < region.first
  {
  }

  lemma AheadOfNext(sorted: seq<Region>, clusters: seq<seq<Region>>, n: nat, reach: nat)
    requires Clustered(sorted, clusters) && n < |clusters| && clusters[n] != []
    ensures AheadOf(clusters, n + 1, Highest(clusters[n]))
  {
    hide Highest, Flatten, Linked;
    var h :| 0 <= h < |clusters[n]| && clusters[n][h].last == Highest(clusters[n]);
    forall k, r | n + 1 <= k < |clusters| && r in clusters[k] ensures Highest(clusters[n]) < r.first {
      assert Before(clusters[n], clusters[k]);
      assert clusters[n][h] in clusters[n];
    }
  }

  lemma AllSatisfiedJoin(plan: Plan, a: seq<Region>, b: seq<Region>, config: TraceConfig)
    requires config.Valid() && AllSatisfied(plan, a, config) && AllSatisfied(plan, b, config)
    ensures AllSatisfied(plan, a + b, config)
  {
    hide Satisfied;
  }

  lemma ClusterAt(clusters: seq<seq<Region>>, n: nat, reach: nat, limit: nat)
    requires ClusterWindows(clusters, limit) && AheadOf(clusters, n, reach) && n < |clusters|
    ensures clusters[n] != [] && AllWindows(clusters[n], limit)
    ensures forall r :: r in clusters[n] ==> reach < r.first
  {
    assert clusters[n] in clusters;
  }

  /** More regions satisfied, more probes sent. */
  lemma SatisfiedTogether(plan: Plan, grown: Plan, done: seq<Region>, more: seq<Region>, limit: nat,
                          config: TraceConfig)
    requires config.Valid() && AllWindows(done, limit) && GrownWithin(plan, grown, limit)
    requires AllSatisfied(plan, done, config) && AllSatisfied(grown, more, config)
    ensures AllSatisfied(grown, done + more, config)
  {
    hide AllSatisfied, AllWindows;
    AllSatisfiedPersists(plan, grown, done, limit, config);
    AllSatisfiedJoin(grown, done, more, config);
  }

  lemma WindowsJoin(a: seq<Region>, b: seq<Region>, limit: nat)
    requires AllWindows(a, limit) && AllWindows(b, limit)
    ensures AllWindows(a + b, limit)
  {
    hide Geometry;
  }

  /** The variant regions and the fixed-only ones are all the regions. */
  lemma SatisfiedInOrder(plan: Plan, regions: seq<Region>, config: TraceConfig)
    requires config.Valid() && AllSatisfied(plan, InOrder(regions, true) + InOrder(regions, false), config)
    ensures AllSatisfied(plan, regions, config)
  {
    hide Satisfied, InOrder;
    InOrderKeeps(regions, true);
    InOrderKeeps(regions, false);
    var both := InOrder(regions, true) + InOrder(regions, false);
    forall r | r in regions ensures Satisfied(plan, r.probeTtls, r.variantCoverage, config) {
      assert r in InOrder(regions, r.variantCoverage);
      assert r in both;
    }
  }

  lemma InOrderWindows(regions: seq<Region>, variantCoverage: bool, limit: nat)
    requires AllWindows(regions, limit)
    ensures AllWindows(InOrder(regions, variantCoverage), limit)
    ensures forall r :: r in InOrder(regions, variantCoverage) ==> r.variantCoverage == variantCoverage
  {
    hide InOrder, Geometry;
    InOrderKeeps(regions, variantCoverage);
  }

  /** Without regions there is nothing to cluster. */
  lemma NothingInOrder(variantCoverage: bool)
    ensures InOrder([], variantCoverage) == []
  {
  }

  lemma NothingToCluster(clusters: seq<seq<Region>>, limit: nat)
    requires ClusterWindows(clusters, limit)
    ensures clusters == [] || Flatten(clusters) != []
  {
    if clusters != [] {
      hide Flatten;
      FlattenElements(clusters);
      assert clusters[0] in clusters;
      assert clusters[0][0] in Flatten(clusters);
    }
  }

  /** What the canaries added. */
  lemma CanariesWithin(config: TraceConfig, limit: nat, plan: Plan, firstId: nat, variants: map<nat, FlowKey>,
                       grown: Plan, whole: nat, part: nat)
    requires Canaries(config, limit, plan, firstId, variants, grown, whole, part)
    ensures plan <= grown
    ensures forall i :: |plan| <= i < |grown| ==> grown[i].phase.CanaryVaried? && grown[i].ttl <= limit
  {
    var ttls, flows := Range(1, limit), CachedFlows(variants, 1, whole);
    var series := Series(ttls, flows, CanaryVaried, firstId, config.payloadSize);
    RangeElements(1, limit);
    SeriesSpecs(ttls, flows, CanaryVaried, firstId, config.payloadSize);
    hide Series, CachedFlows;
    forall i | |plan| <= i < |grown| ensures grown[i].phase.CanaryVaried? && grown[i].ttl <= limit {
      if i < |plan| + |series| {
        assert grown[i] == series[i - |plan|];
        assert grown[i] in series;
      } else {
        assert grown[i].ttl == Range(1, part)[i - |plan| - |series|];
      }
    }
  }

  /** Detected windows, and the global one, can be probed. */
  lemma FoundWindows(log: Log, limit: nat, regions: seq<Region>)
    requires FoundRegions(log, limit, regions)
    ensures AllWindows(regions, limit)
  {
    forall r | r in regions ensures Geometry(r, limit) {
      FoundWindow(log, limit, r);
    }
  }

  lemma FoundWindow(log: Log, limit: nat, region: Region)
    requires FromRun(log, limit, region)
    ensures Geometry(region, limit)
  {
    var run :| MaximalRun(Marked(log, limit, region.family), run) && run.last <= limit
               && region == Regions.Window(region.family, run, limit);
    WindowGeometry(region.family, run, limit);
  }

  // ---------- Windows and their members ----------

  lemma NothingPartial(plan: Plan, regions: seq<Region>, clusters: seq<seq<Region>>)
    ensures WholeSamples(plan, |plan|, regions, clusters)
  {
  }

  lemma SingleMember(region: Region)
    ensures Elements(region.probeTtls) == ClusterTtls([region])
  {
    assert [region][0] == region;
    assert forall r :: r in [region] <==> r == region;
  }

  lemma AggregateMembers(cluster: seq<Region>, limit: nat)
    requires cluster != [] && AllWindows(cluster, limit)
    ensures Elements(Aggregate(cluster).probeTtls) == ClusterTtls(cluster)
  {
    hide Aggregate, ClusterTtls, ProbedWithin;
    AggregateSpans(cluster, limit);
  }

  lemma NoWindows(limit: nat)
    ensures AllWindows([], limit)
  {
  }
}
