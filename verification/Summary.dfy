/** The segment list of a report: classified regions, clear edges and an open-ended silent tail. */
module Summary {
  import opened Evidence
  import opened Regions
  import opened Segments
  import opened Sampling
  import opened Sequences
  import opened Settings
  import opened Stats
  import opened Wrappers

  function ClassifyAll(regions: seq<Region>, log: Log, hops: seq<Hop>, config: TraceConfig): (r: seq<Segment>)
    requires config.Valid()
    ensures |r| == |regions| && forall k :: 0 <= k < |r| ==> r[k] == Classify(regions[k], log, hops, config)
  {
    seq(|regions|, k requires 0 <= k < |regions| => Classify(regions[k], log, hops, config))
  }

  // ---------- Clear edges ----------

  /** The edge from ttl to ttl + 1 lies inside a region. */
  predicate Covered(regions: seq<Region>, ttl: nat) {
    exists r :: r in regions && r.first <= ttl < r.last
  }

  predicate ClearEdge(regions: seq<Region>, hops: seq<Hop>, ttl: nat) {
    && 1 <= ttl < |hops| && !Covered(regions, ttl)
    && hops[ttl - 1].primary.Some? && hops[ttl].primary.Some?
  }

  /** Two adjacent replies of the main flow: an observation, certified only by its own count. */
  function DirectEdge(hops: seq<Hop>, ttl: nat, config: TraceConfig): Segment
    requires config.Valid() && 1 <= ttl < |hops| && hops[ttl - 1].primary.Some? && hops[ttl].primary.Some?
  {
    var left, right := hops[ttl - 1], hops[ttl];
    var samples := if right.sent < left.sent then right.sent else left.sent;
    var lost := if left.lossRate < right.lossRate then right.lossRate else left.lossRate;
    Segment(Direct, ttl, ttl + 1, left.primary, right.primary,
            [([(ttl, left.primary), (ttl + 1, right.primary)], samples)], [],
            if samples > 0 then Some(1.0) else None, Some(1.0 - lost),
            Certificate(samples, config.minDetectable, MissProbabilityBound(config.minDetectable, samples).value,
                        config.missProbability, samples >= config.Required(), RapidSweepObservation, config.Required()),
            [AdjacentReplies], false, [])
  }

  ghost function DirectEdges(regions: seq<Region>, hops: seq<Hop>, config: TraceConfig, n: nat): seq<Segment>
    requires config.Valid()
  {
    if n == 0 then []
    else
      DirectEdges(regions, hops, config, n - 1)
      + (if ClearEdge(regions, hops, n) then [DirectEdge(hops, n, config)] else [])
  }

  predicate BoundsFirst(a: Segment, b: Segment) {
    a.first < b.first || (a.first == b.first && a.last <= b.last)
  }

  /** In the alphabetical order of the type names. */
  function KindRank(kind: SegmentType): nat {
    match kind
    case Direct => 0 case Intermittent => 1 case MultipathFlow => 2 case Mutable => 3
    case Opaque => 4 case SilentTail => 5 case Unknown => 6 case Unstable => 7
  }

  predicate BoundsThenKind(a: Segment, b: Segment) {
    || a.first < b.first
    || (a.first == b.first
        && (a.last < b.last || (a.last == b.last && KindRank(a.kind) <= KindRank(b.kind))))
  }

  /** The coalesced verdicts on the regions and one rapid-sweep edge for each clear edge, by bounds. */
  ghost predicate Summarized(regions: seq<Region>, log: Log, hops: seq<Hop>, config: TraceConfig,
                             special: seq<Segment>, segments: seq<Segment>)
    requires config.Valid()
  {
    && Coalesced(ClassifyAll(regions, log, hops, config), special)
    && segments
       == SortBy(DirectEdges(regions, hops, config, |hops| - (if |hops| > 0 then 1 else 0)) + special, BoundsFirst)
  }

  method SummarizeSegments(regions: seq<Region>, log: Log, hops: seq<Hop>, config: TraceConfig)
    returns (segments: seq<Segment>, special: seq<Segment>)
    requires config.Valid()
    ensures Summarized(regions, log, hops, config, special, segments)
  {
    hide Classify, DirectEdge, Coalesced, SortBy;
    var classified := ClassifyAll(regions, log, hops, config);
    special := CoalesceSegments(classified);
    var coveredEdges := CoveredEdges(regions);
    var direct := [];
    var ttl := 1;
    while ttl < |hops|
      invariant 1 <= ttl && (|hops| > 0 ==> ttl <= |hops|) && (|hops| == 0 ==> ttl == 1)
      invariant direct == DirectEdges(regions, hops, config, ttl - 1)
    {
      if !(ttl in coveredEdges || hops[ttl - 1].primary.None? || hops[ttl].primary.None?) {
        direct := direct + [DirectEdge(hops, ttl, config)];
      }
      ttl := ttl + 1;
    }
    segments := SortBy(direct + special, BoundsFirst);
  }

  method CoveredEdges(regions: seq<Region>) returns (edges: set<nat>)
    ensures forall t :: t in edges <==> Covered(regions, t)
  {
    edges := {};
    var n := 0;
    while n < |regions|
      invariant 0 <= n <= |regions|
      invariant forall t :: t in edges <==> exists k :: 0 <= k < n && regions[k].first <= t < regions[k].last
    {
      if regions[n].first < regions[n].last {
        edges := edges + Elements(Range(regions[n].first, regions[n].last - 1));
        RangeElements(regions[n].first, regions[n].last - 1);
      }
      n := n + 1;
    }
  }

  // ---------- Open-ended silence ----------

  /** A visible ingress and timeouts from there on: no egress, and nothing certified. */
  ghost function SilentTailOf(log: Log, limit: nat, probedMax: nat, hops: seq<Hop>, config: TraceConfig): Segment
    requires limit < probedMax
  {
    var sweeps := |CompleteSamples(PlanOf(log), Elements(Range(limit + 1, probedMax)), false)|;
    Segment(SilentTail, limit, probedMax, NearestVisible(hops, limit, true), None, [], [], None, Some(0.0),
            Certificate(sweeps, config.minDetectable, 1.0, config.missProbability, false, SilentTailObservation,
                        config.temporalSamples),
            [OpenEndedSilence], false, [])
  }

  method SummarizeSilentTail(log: Log, limit: nat, probedMax: nat, hops: seq<Hop>, config: TraceConfig)
    returns (tail: Segment)
    requires limit < probedMax
    ensures tail == SilentTailOf(log, limit, probedMax, hops, config)
  {
    var sweeps := CompleteSampleCount(log, Range(limit + 1, probedMax), false);
    tail := Segment(SilentTail, limit, probedMax, NearestVisible(hops, limit, true), None, [], [], None, Some(0.0),
                    Certificate(sweeps, config.minDetectable, 1.0, config.missProbability, false, SilentTailObservation,
                                config.temporalSamples),
                    [OpenEndedSilence], false, []);
  }

  // ---------- Every edge is accounted for ----------

  /** A rapid-sweep DIRECT claim for the edge from ttl to ttl + 1. */
  predicate RapidAt(s: Segment, ttl: nat) {
    s.certificate.basis.RapidSweepObservation? && s.kind.Direct? && s.first == ttl && s.last == ttl + 1
  }

  function RapidEdgesAt(segments: seq<Segment>, ttl: nat): nat {
    CountIf(segments, (s: Segment) => RapidAt(s, ttl))
  }

  /** A claim classified from a region, as opposed to a rapid-sweep edge or a silent tail. */
  predicate FromRegion(s: Segment) {
    s.certificate.basis.FlowVariantCoverage? || s.certificate.basis.FixedFlowRepeatability?
  }

  lemma {:induction false} CountAppend<T(!new)>(a: seq<T>, b: seq<T>, keep: T -> bool)
    ensures CountIf(a + b, keep) == CountIf(a, keep) + CountIf(b, keep)
  {
    if b == [] {
      assert a + b == a;
    } else {
      assert (a + b)[..|a + b| - 1] == a + b[..|b| - 1];
      CountAppend(a, b[..|b| - 1], keep);
    }
  }

  lemma CountSnoc<T(!new)>(xs: seq<T>, x: T, keep: T -> bool)
    ensures CountIf(xs + [x], keep) == CountIf(xs, keep) + (if keep(x) then 1 else 0)
  {
    assert (xs + [x])[..|xs|] == xs;
  }

  lemma {:induction false} CountInserted<T(!new)>(x: T, xs: seq<T>, leq: (T, T) -> bool, keep: T -> bool)
    ensures CountIf(InsertBy(x, xs, leq), keep) == CountIf(xs, keep) + (if keep(x) then 1 else 0)
  {
    hide CountIf;
    if xs == [] {
      CountSnoc([], x, keep);
      assert [] + [x] == [x];
    } else {
      var last := |xs| - 1;
      CountSnoc(xs, x, keep);
      CountSnoc(xs[..last], xs[last], keep);
      assert xs == xs[..last] + [xs[last]];
      CountSnoc(InsertBy(x, xs[..last], leq), xs[last], keep);
      CountInserted(x, xs[..last], leq, keep);
    }
  }

  lemma {:induction false} CountSorted<T(!new)>(xs: seq<T>, leq: (T, T) -> bool, keep: T -> bool)
    ensures CountIf(SortBy(xs, leq), keep) == CountIf(xs, keep)
  {
    if xs == [] {
    } else {
      var last := |xs| - 1;
      CountSorted(xs[..last], leq, keep);
      CountInserted(xs[last], SortBy(xs[..last], leq), leq, keep);
    }
  }

  lemma {:induction false} CountNone<T(!new)>(xs: seq<T>, keep: T -> bool)
    requires forall x :: x in xs ==> !keep(x)
    ensures CountIf(xs, keep) == 0
  {
    if xs == [] {
    } else {
      assert xs[|xs| - 1] in xs;
      CountNone(xs[..|xs| - 1], keep);
    }
  }

  lemma {:induction false} DirectEdgesCounted(regions: seq<Region>, hops: seq<Hop>, config: TraceConfig, n: nat,
                                              ttl: nat)
    requires config.Valid()
    ensures RapidEdgesAt(DirectEdges(regions, hops, config, n), ttl)
         == if 1 <= ttl <= n && ClearEdge(regions, hops, ttl) then 1 else 0
    ensures forall s :: s in DirectEdges(regions, hops, config, n) ==> !FromRegion(s)
  {
    hide DirectEdge, CountIf, Covered;
    var at := (s: Segment) => RapidAt(s, ttl);
    if n == 0 {
      CountNone<Segment>([], at);
    } else {
      DirectEdgesCounted(regions, hops, config, n - 1, ttl);
      if ClearEdge(regions, hops, n) {
        DirectEdgeShape(regions, hops, config, n);
        CountSnoc(DirectEdges(regions, hops, config, n - 1), DirectEdge(hops, n, config), at);
      } else {
        assert DirectEdges(regions, hops, config, n) == DirectEdges(regions, hops, config, n - 1);
      }
    }
  }

  lemma DirectEdgeShape(regions: seq<Region>, hops: seq<Hop>, config: TraceConfig, ttl: nat)
    requires config.Valid() && ClearEdge(regions, hops, ttl)
    ensures var s := DirectEdge(hops, ttl, config);
            && s.kind.Direct? && s.first == ttl && s.last == ttl + 1 && s.certificate.basis.RapidSweepObservation?
  {
  }

  /** Every claim comes from a region, the first with its key, and every region has its claim. */
  lemma CoalescedClaims(regions: seq<Region>, log: Log, hops: seq<Hop>, config: TraceConfig, special: seq<Segment>)
    requires config.Valid() && Coalesced(ClassifyAll(regions, log, hops, config), special)
    ensures forall s :: s in special ==> exists r :: r in regions && ClaimOf(s, Classify(r, log, hops, config))
    ensures forall r :: r in regions ==> exists s :: s in special && KeyOf(s) == KeyOf(Classify(r, log, hops, config))
  {
    hide Classify, Coalesced, Distinct, KeyOf, ClaimOf;
    var all := ClassifyAll(regions, log, hops, config);
    forall s | s in special ensures exists r :: r in regions && ClaimOf(s, Classify(r, log, hops, config)) {
      var k := ClaimIsFirst(all, special, s);
      assert ClaimOf(s, all[k]) by { ClaimOfIs(s, all[k]); }
      assert regions[k] in regions;
    }
    CoalescedKeys(all, special);
    forall r | r in regions ensures exists s :: s in special && KeyOf(s) == KeyOf(Classify(r, log, hops, config)) {
      var k :| 0 <= k < |regions| && regions[k] == r;
      assert KeysOf(all)[k] in Distinct(KeysOf(all));
      var i :| 0 <= i < |special| && KeysOf(special)[i] == KeysOf(all)[k];
      assert special[i] in special;
    }
  }

  /** Equal but for reasons and mechanism. */
  ghost predicate ClaimOf(s: Segment, verdict: Segment) {
    s == verdict.(reasons := s.reasons, mplsNamed := s.mplsNamed)
  }

  lemma ClaimOfIs(s: Segment, verdict: Segment)
    requires s == verdict.(reasons := s.reasons, mplsNamed := s.mplsNamed)
    ensures ClaimOf(s, verdict)
  {
  }

  /** An edge is inside a region's claim, or has exactly one rapid-sweep DIRECT claim: never both,
      never neither. */
  ghost predicate EdgeClaimed(segments: seq<Segment>, ttl: nat) {
    RapidEdgesAt(segments, ttl) == if InsideRegionClaim(segments, ttl) then 0 else 1
  }

  ghost predicate InsideRegionClaim(segments: seq<Segment>, ttl: nat) {
    exists s :: s in segments && FromRegion(s) && s.first <= ttl < s.last
  }

  lemma ClaimsOfRegions(regions: seq<Region>, log: Log, hops: seq<Hop>, config: TraceConfig, special: seq<Segment>,
                        ttl: nat)
    requires config.Valid() && Coalesced(ClassifyAll(regions, log, hops, config), special)
    ensures forall s :: s in special ==> FromRegion(s)
    ensures Covered(regions, ttl) <==> InsideRegionClaim(special, ttl)
  {
    hide ClassifyAll, Coalesced;
    forall s | s in special ensures exists r :: r in regions && Claims(s, r) {
      var r := RegionOfClaim(regions, log, hops, config, special, s);
    }
    forall r | r in regions ensures exists s :: s in special && Claims(s, r) {
      var s := ClaimOfRegion(regions, log, hops, config, special, r);
    }
  }

  ghost predicate Claims(s: Segment, r: Region) {
    s.first == r.first && s.last == r.last && FromRegion(s)
  }

  lemma RegionOfClaim(regions: seq<Region>, log: Log, hops: seq<Hop>, config: TraceConfig, special: seq<Segment>,
                      s: Segment)
    returns (r: Region)
    requires config.Valid() && Coalesced(ClassifyAll(regions, log, hops, config), special) && s in special
    ensures r in regions && Claims(s, r) && ClaimOf(s, Classify(r, log, hops, config))
    ensures s.kind == Classify(r, log, hops, config).kind && s.certificate == CertificateOf(r, log, config)
  {
    hide Classify, Coalesced;
    CoalescedClaims(regions, log, hops, config, special);
    r :| r in regions && ClaimOf(s, Classify(r, log, hops, config));
    ClassifyBounds(r, s, log, hops, config);
  }

  lemma ClaimOfRegion(regions: seq<Region>, log: Log, hops: seq<Hop>, config: TraceConfig, special: seq<Segment>,
                      r: Region)
    returns (s: Segment)
    requires config.Valid() && Coalesced(ClassifyAll(regions, log, hops, config), special) && r in regions
    ensures s in special && Claims(s, r)
    ensures s.kind == Classify(r, log, hops, config).kind && s.certificate == CertificateOf(r, log, config)
  {
    hide Classify, Coalesced;
    CoalescedClaims(regions, log, hops, config, special);
    s :| s in special && KeyOf(s) == KeyOf(Classify(r, log, hops, config));
    ClassifyBounds(r, s, log, hops, config);
  }

  lemma ClassifyBounds(region: Region, s: Segment, log: Log, hops: seq<Hop>, config: TraceConfig)
    requires config.Valid() && KeyOf(s) == KeyOf(Classify(region, log, hops, config))
    ensures s.first == region.first && s.last == region.last && FromRegion(s)
    ensures s.kind == Classify(region, log, hops, config).kind
    ensures s.certificate == CertificateOf(region, log, config)
  {
    hide Verdict, FindingsOf;
  }

  lemma EdgesAreClaimed(regions: seq<Region>, log: Log, hops: seq<Hop>, config: TraceConfig,
                        special: seq<Segment>, segments: seq<Segment>, ttl: nat)
    requires config.Valid() && Summarized(regions, log, hops, config, special, segments)
    requires 1 <= ttl < |hops|
    ensures InsideRegionClaim(segments, ttl) <==> Covered(regions, ttl)
    ensures EdgeClaimed(segments, ttl) <==> Covered(regions, ttl) || ClearEdge(regions, hops, ttl)
  {
    hide Coalesced, Covered, SortBy, CountIf, DirectEdges;
    var at := (s: Segment) => RapidAt(s, ttl);
    var direct := DirectEdges(regions, hops, config, |hops| - 1);
    ClaimsOfRegions(regions, log, hops, config, special, ttl);
    DirectEdgesCounted(regions, hops, config, |hops| - 1, ttl);
    CountNone(special, at);
    CountAppend(direct, special, at);
    CountSorted(direct + special, BoundsFirst, at);
    SortKeepsElements(direct + special, BoundsFirst);
  }

  /** A rapid-sweep claim names the primaries of two adjacent hops and counts no more samples than
      either of them was sent. */
  ghost predicate ObservedEdge(s: Segment, hops: seq<Hop>, config: TraceConfig)
    requires config.Valid()
  {
    && 1 <= s.first < |hops| && s.last == s.first + 1
    && s.ingress.Some? && s.ingress == hops[s.first - 1].primary
    && s.egress.Some? && s.egress == hops[s.first].primary
    && s.certificate.sampleCount <= hops[s.first - 1].sent && s.certificate.sampleCount <= hops[s.first].sent
    && (s.certificate.certified <==> s.certificate.sampleCount >= config.Required())
  }

  lemma {:induction false} DirectEdgesObserved(regions: seq<Region>, hops: seq<Hop>, config: TraceConfig, n: nat)
    requires config.Valid()
    ensures forall s :: s in DirectEdges(regions, hops, config, n) ==>
              s.certificate.basis.RapidSweepObservation? && ObservedEdge(s, hops, config)
  {
    if n == 0 {
    } else {
      DirectEdgesObserved(regions, hops, config, n - 1);
      hide ObservedEdge;
      if ClearEdge(regions, hops, n) {
        ClearEdgeObserved(regions, hops, config, n);
      }
    }
  }

  lemma ClearEdgeObserved(regions: seq<Region>, hops: seq<Hop>, config: TraceConfig, ttl: nat)
    requires config.Valid() && ClearEdge(regions, hops, ttl)
    ensures ObservedEdge(DirectEdge(hops, ttl, config), hops, config)
    ensures DirectEdge(hops, ttl, config).certificate.basis.RapidSweepObservation?
  {
  }
}
