/** Overlapping cross-flow regions share their samples: grouping them into disjoint windows. */
module Clusters {
  import opened Regions
  import opened Sequences

  predicate BoundsLeq(a: Region, b: Region) {
    a.first < b.first || (a.first == b.first && a.last <= b.last)
  }

  /** The regions that need flow variants, or those that do not, by bounds. */
  function InOrder(regions: seq<Region>, variantCoverage: bool): seq<Region> {
    SortBy(Filter(regions, (r: Region) => r.variantCoverage == variantCoverage), BoundsLeq)
  }

  lemma InOrderKeeps(regions: seq<Region>, variantCoverage: bool)
    ensures SortedBy(InOrder(regions, variantCoverage), BoundsLeq)
    ensures forall r :: r in InOrder(regions, variantCoverage) <==> r in regions && r.variantCoverage == variantCoverage
    ensures forall i, j :: 0 <= i < j < |InOrder(regions, variantCoverage)| ==>
              var a, b := InOrder(regions, variantCoverage)[i], InOrder(regions, variantCoverage)[j];
              a.first < b.first || (a.first == b.first && a.last <= b.last)
  {
    var kept := Filter(regions, (r: Region) => r.variantCoverage == variantCoverage);
    assert TotalPreorder(BoundsLeq);
    SortSorts(kept, BoundsLeq);
    SortKeepsElements(kept, BoundsLeq);
  }

  function Highest(cluster: seq<Region>): (last: nat)
    requires cluster != []
    ensures exists k :: 0 <= k < |cluster| && cluster[k].last == last
    ensures forall r :: r in cluster ==> r.last <= last
  {
    var end := |cluster| - 1;
    if end == 0 then cluster[0].last
    else
      var front := Highest(cluster[..end]);
      assert cluster[end] in cluster;
      if cluster[end].last > front then cluster[end].last else front
  }

  function Lowest(cluster: seq<Region>): (first: nat)
    requires cluster != []
    ensures exists k :: 0 <= k < |cluster| && cluster[k].first == first
    ensures forall r :: r in cluster ==> first <= r.first
  {
    var end := |cluster| - 1;
    if end == 0 then cluster[0].first
    else
      var front := Lowest(cluster[..end]);
      assert cluster[end] in cluster;
      if cluster[end].first < front then cluster[end].first else front
  }

  /** Each region but the first meets an earlier one of its cluster. */
  ghost predicate Linked(cluster: seq<Region>) {
    cluster != [] && forall k :: 0 < k < |cluster| ==> Meets(cluster[..k], cluster[k])
  }

  ghost predicate Meets(earlier: seq<Region>, region: Region) {
    exists r :: r in earlier && region.first <= r.last
  }

  ghost predicate Before(a: seq<Region>, b: seq<Region>) {
    forall r, s :: r in a && s in b ==> r.last < s.first
  }

  /** Clusters lie one after the other, without touching. */
  ghost predicate Apart(clusters: seq<seq<Region>>) {
    forall i, j :: 0 <= i < j < |clusters| ==> Before(clusters[i], clusters[j])
  }

  ghost predicate Clustered(sorted: seq<Region>, clusters: seq<seq<Region>>) {
    && Flatten(clusters) == sorted
    && (forall c :: c in clusters ==> Linked(c))
    && Apart(clusters)
  }

  /** Every variant region lands in exactly one cluster: the clusters split the sorted list, their
      members overlap, and different clusters occupy disjoint TTL intervals in increasing order. */
  method ClusterRegions(regions: seq<Region>) returns (clusters: seq<seq<Region>>)
    ensures Clustered(InOrder(regions, true), clusters)
  {
    hide InOrder, Clustered, Linked, Highest, Flatten;
    var sorted := InOrder(regions, true);
    InOrderKeeps(regions, true);
    clusters := [];
    NothingClustered();
    assert sorted[..0] == [];
    var n := 0;
    while n < |sorted|
      invariant 0 <= n <= |sorted|
      invariant Clustered(sorted[..n], clusters)
    {
      var region := sorted[n];
      assert sorted[..n + 1] == sorted[..n] + [region];
      assert forall r :: r in sorted[..n] ==> r.first <= region.first;
      ClustersNotEmpty(sorted[..n], clusters);
      if clusters == [] || region.first > Highest(clusters[|clusters| - 1]) {
        StartsCluster(sorted[..n], clusters, region);
        clusters := clusters + [[region]];
      } else {
        JoinsCluster(sorted[..n], clusters, region);
        clusters := clusters[|clusters| - 1 := clusters[|clusters| - 1] + [region]];
      }
      n := n + 1;
    }
    assert sorted[..n] == sorted;
  }

  lemma NothingClustered()
    ensures Clustered([], [])
  {
  }

  lemma ClustersNotEmpty(sorted: seq<Region>, clusters: seq<seq<Region>>)
    requires Clustered(sorted, clusters)
    ensures clusters != [] ==> clusters[|clusters| - 1] != []
  {
    assert clusters != [] ==> clusters[|clusters| - 1] in clusters;
  }

  lemma StartsCluster(sorted: seq<Region>, clusters: seq<seq<Region>>, region: Region)
    requires Clustered(sorted, clusters) && forall r :: r in sorted ==> r.first <= region.first
    requires clusters != [] ==> clusters[|clusters| - 1] != [] && region.first > Highest(clusters[|clusters| - 1])
    ensures Clustered(sorted + [region], clusters + [[region]])
  {
    hide Linked, Highest, Before, Flatten;
    var next, n := clusters + [[region]], |clusters|;
    FlattenStart(clusters, region);
    FlattenElements(clusters);
    SingleLinked(region);
    forall i, j | 0 <= i < j < |next| ensures Before(next[i], next[j]) {
      if j < n {
        assert Before(clusters[i], clusters[j]);
      } else {
        assert n > 0 && clusters[n - 1][0] in sorted;
        assert i < n - 1 ==> Before(clusters[i], clusters[n - 1]);
        BeforeStart(clusters[i], clusters[n - 1], region, i == n - 1);
      }
    }
  }

  lemma FlattenStart(clusters: seq<seq<Region>>, region: Region)
    ensures Flatten(clusters + [[region]]) == Flatten(clusters) + [region]
  {
    assert (clusters + [[region]])[..|clusters|] == clusters;
  }

  lemma SingleLinked(region: Region)
    ensures Linked([region])
  {
  }

  lemma BeforeStart(a: seq<Region>, b: seq<Region>, region: Region, same: bool)
    requires b != [] && region.first > Highest(b) && b[0].first <= region.first
    requires if same then a == b else Before(a, b)
    ensures Before(a, [region])
  {
    assert b[0] in b;
  }

  lemma JoinsCluster(sorted: seq<Region>, clusters: seq<seq<Region>>, region: Region)
    requires Clustered(sorted, clusters) && forall r :: r in sorted ==> r.first <= region.first
    requires clusters != [] && clusters[|clusters| - 1] != [] && region.first <= Highest(clusters[|clusters| - 1])
    ensures Clustered(sorted + [region], clusters[|clusters| - 1 := clusters[|clusters| - 1] + [region]])
  {
    var n := |clusters| - 1;
    var grown := clusters[n] + [region];
    var next := clusters[n := grown];
    hide Linked, Highest, Before, Flatten;
    FlattenJoin(clusters, region);
    FlattenElements(clusters);
    assert clusters[n][0] in sorted;
    assert clusters[n] in clusters;
    JoinLinked(clusters[n], region);
    forall i, j | 0 <= i < j < |next| ensures Before(next[i], next[j]) {
      assert Before(clusters[i], clusters[j]);
      if j == n { StaysBefore(clusters[i], clusters[n], region); }
    }
    forall c | c in next ensures Linked(c) {
      assert c == grown || c in clusters;
    }
  }

  lemma FlattenJoin(clusters: seq<seq<Region>>, region: Region)
    requires clusters != []
    ensures var n := |clusters| - 1;
            Flatten(clusters[n := clusters[n] + [region]]) == Flatten(clusters) + [region]
  {
    var n := |clusters| - 1;
    assert clusters[n := clusters[n] + [region]][..n] == clusters[..n];
  }

  lemma StaysBefore(a: seq<Region>, b: seq<Region>, region: Region)
    requires Before(a, b) && b != [] && b[0].first <= region.first
    ensures Before(a, b + [region])
  {
    assert b[0] in b;
  }

  lemma JoinLinked(cluster: seq<Region>, region: Region)
    requires Linked(cluster) && region.first <= Highest(cluster)
    ensures Linked(cluster + [region])
  {
    hide Highest, Meets;
    var grown, n := cluster + [region], |cluster|;
    assert Meets(cluster, region) by { MeetsHighest(cluster, region); }
    assert grown[..n] == cluster;
    forall k | 0 < k < |grown| ensures Meets(grown[..k], grown[k]) {
      if k < n {
        assert grown[..k] == cluster[..k];
      }
    }
  }

  lemma MeetsHighest(cluster: seq<Region>, region: Region)
    requires cluster != [] && region.first <= Highest(cluster)
    ensures Meets(cluster, region)
  {
    hide Highest;
    var h :| 0 <= h < |cluster| && cluster[h].last == Highest(cluster);
    assert cluster[h] in cluster;
  }

  // ---------- The shared window of a cluster ----------

  function ClusterTtls(cluster: seq<Region>): set<nat> {
    set r, t | r in cluster && t in r.probeTtls :: t
  }

  function Aggregate(cluster: seq<Region>): Region
    requires cluster != []
  {
    Region(Lowest(cluster), Highest(cluster), Ascending(ClusterTtls(cluster), Highest(cluster)),
           [SharedWindow], true, Sampling)
  }

  ghost predicate ProbedWithin(region: Region, window: Region) {
    forall t :: t in region.probeTtls ==> t in window.probeTtls
  }

  /** The shared window spans its members and is probed wherever any of them is. */
  lemma AggregateSpans(cluster: seq<Region>, limit: nat)
    requires cluster != [] && forall r :: r in cluster ==> Geometry(r, limit)
    ensures Geometry(Aggregate(cluster), limit)
    ensures forall t :: t in Aggregate(cluster).probeTtls <==> t in ClusterTtls(cluster)
    ensures forall r :: r in cluster ==>
              && Aggregate(cluster).first <= r.first && r.last <= Aggregate(cluster).last
              && ProbedWithin(r, Aggregate(cluster))
  {
    hide Lowest, Highest, Ascending, ClusterTtls, Geometry;
    EndsAreProbed(cluster, limit);
    forall r | r in cluster ensures ProbedWithin(r, Aggregate(cluster)) {
      MemberIsProbed(cluster, r);
    }
    AggregateGeometry(cluster, limit);
  }

  lemma EndsAreProbed(cluster: seq<Region>, limit: nat)
    requires cluster != [] && forall r :: r in cluster ==> Geometry(r, limit)
    ensures Lowest(cluster) in ClusterTtls(cluster) && Highest(cluster) in ClusterTtls(cluster)
    ensures forall t :: t in ClusterTtls(cluster) ==> Lowest(cluster) <= t <= Highest(cluster)
    ensures 1 <= Lowest(cluster) && Highest(cluster) <= limit
  {
    hide Lowest, Highest;
    var l :| 0 <= l < |cluster| && cluster[l].first == Lowest(cluster);
    var h :| 0 <= h < |cluster| && cluster[h].last == Highest(cluster);
    assert cluster[l] in cluster && cluster[h] in cluster;
    assert Geometry(cluster[l], limit) && Geometry(cluster[h], limit);
    forall t | t in ClusterTtls(cluster) ensures Lowest(cluster) <= t <= Highest(cluster) {
      var r :| r in cluster && t in r.probeTtls;
    }
  }

  lemma MemberIsProbed(cluster: seq<Region>, r: Region)
    requires r in cluster && forall t :: t in ClusterTtls(cluster) ==> t <= Highest(cluster)
    ensures ProbedWithin(r, Aggregate(cluster))
  {
    hide Lowest, Highest, Ascending;
    forall t | t in r.probeTtls ensures t in Aggregate(cluster).probeTtls {
      assert t in ClusterTtls(cluster);
    }
  }

  lemma AggregateGeometry(cluster: seq<Region>, limit: nat)
    requires cluster != [] && 1 <= Lowest(cluster) && Highest(cluster) <= limit
    requires Lowest(cluster) in ClusterTtls(cluster) && Highest(cluster) in ClusterTtls(cluster)
    requires forall t :: t in ClusterTtls(cluster) ==> Lowest(cluster) <= t <= Highest(cluster)
    ensures Geometry(Aggregate(cluster), limit)
    ensures forall t :: t in Aggregate(cluster).probeTtls <==> t in ClusterTtls(cluster)
  {
    hide Lowest, Highest, Ascending, ClusterTtls;
  }
}
