/** Differential boundary probing: which TTLs are suspicious, and the windows around them. */
module Regions {
  import opened Bytes
  import opened Evidence
  import opened Model
  import opened Sequences
  import opened Wrappers

  /** In the alphabetical order of their names, which breaks sorting ties. */
  datatype Family = Multipath | HeaderMutation | Temporal | VisibilityFlow | VisibilityIntermittent
                  | VisibilitySilent | GlobalCap | Sampling

  datatype Reason =
    | IntermittentVisibility | UnobservableTtl | FlowSensitiveVisibility | FlowSensitiveResponder
    | SameFlowVariation | MutationBoundary | GlobalCoverage | SharedWindow
    | AddressesOverTime | SeveralSignatures | UnobservableBetweenBoundaries | ProfileChanges
    | VisibilityChanged | FlowsAgreed | NoStableClass | MplsStackCarried | AdjacentReplies | OpenEndedSilence

  datatype Region = Region(first: nat, last: nat, probeTtls: seq<nat>, reasons: seq<Reason>,
                           variantCoverage: bool, family: Family)

  const EVIDENCE_FAMILIES: seq<Family> := [Multipath, HeaderMutation, Temporal, VisibilityFlow, VisibilityIntermittent,
                                           VisibilitySilent]

  predicate VisibilityFamily(family: Family) {
    family in {VisibilityFlow, VisibilityIntermittent, VisibilitySilent}
  }

  /** Each family has one trigger, so a reason names its family. */
  function ReasonOf(family: Family): Reason {
    match family
    case Multipath => FlowSensitiveResponder
    case HeaderMutation => MutationBoundary
    case Temporal => SameFlowVariation
    case VisibilityFlow => FlowSensitiveVisibility
    case VisibilityIntermittent => IntermittentVisibility
    case VisibilitySilent => UnobservableTtl
    case GlobalCap => GlobalCoverage
    case Sampling => SharedWindow
  }

  function Rank(family: Family): nat {
    match family
    case Multipath => 0 case HeaderMutation => 1 case Temporal => 2 case VisibilityFlow => 3
    case VisibilityIntermittent => 4 case VisibilitySilent => 5 case GlobalCap => 6 case Sampling => 7
  }

  // ---------- Suspicion at one TTL ----------

  function Samples(log: Log, phase: Phase, ttl: nat): (samples: Log)
    ensures forall o :: o in samples <==> o in log && o.spec.phase == phase && o.spec.ttl == ttl
  {
    if log == [] then []
    else
      var last := log[|log| - 1];
      Samples(log[..|log| - 1], phase, ttl) + (if last.spec.phase == phase && last.spec.ttl == ttl then [last] else [])
  }

  predicate AnyAnswered(samples: Log) {
    exists o :: o in samples && o.Answered()
  }

  predicate AnySilent(samples: Log) {
    exists o :: o in samples && !o.Answered()
  }

  function Responders(samples: Log): set<Ipv4Address> {
    set o | o in samples && o.reply.responder.Some? :: o.reply.responder.value
  }

  /** Header rewrites quoted by the answers. */
  function Profile(samples: Log): set<Mutation> {
    set o, m | o in samples && o.Answered() && m in o.reply.mutations :: m
  }

  predicate Triggers(family: Family, fixed: Log, canary: Log) {
    var fixedAddresses, canaryAddresses := Responders(fixed), Responders(canary);
    match family
    case VisibilityIntermittent => AnyAnswered(fixed + canary) && AnySilent(fixed + canary)
    case VisibilitySilent => fixed + canary != [] && !AnyAnswered(fixed + canary)
    case Temporal => |fixedAddresses| > 1
    case Multipath =>
      && fixedAddresses != {} && canaryAddresses != {}
      && (canaryAddresses - fixedAddresses != {} || (|fixedAddresses| == 1 && fixedAddresses != canaryAddresses))
    case VisibilityFlow => fixed != [] && canary != [] && (fixedAddresses != {}) != (canaryAddresses != {})
    case _ => false
  }

  /** The profile at the nearest answered TTL below `ttl`, empty when there is none. */
  function ProfileBelow(log: Log, ttl: nat): set<Mutation> {
    if ttl <= 1 then {}
    else
      var below := Samples(log, BaselineFixed, ttl - 1);
      if AnyAnswered(below) then Profile(below) else ProfileBelow(log, ttl - 1)
  }

  predicate ChangePoint(log: Log, ttl: nat) {
    var here := Samples(log, BaselineFixed, ttl);
    AnyAnswered(here) && Profile(here) != ProfileBelow(log, ttl)
  }

  predicate Suspicious(log: Log, family: Family, ttl: nat) {
    if family.HeaderMutation? then ChangePoint(log, ttl)
    else Triggers(family, Samples(log, BaselineFixed, ttl), Samples(log, CanaryVaried, ttl))
  }

  function Marked(log: Log, limit: nat, family: Family): set<nat> {
    set t | 1 <= t <= limit && Suspicious(log, family, t)
  }

  /** The latest change point at or below `ttl`. */
  function LatestChange(log: Log, ttl: nat): (change: Option<nat>)
    ensures change.Some? ==> 1 <= change.value <= ttl && ChangePoint(log, change.value)
    ensures forall t :: 1 <= t <= ttl && ChangePoint(log, t) ==> change.Some? && t <= change.value
  {
    if ttl == 0 then None else if ChangePoint(log, ttl) then Some(ttl) else LatestChange(log, ttl - 1)
  }

  function ProfileAtChange(log: Log, change: Option<nat>): set<Mutation> {
    if change.Some? then Profile(Samples(log, BaselineFixed, change.value)) else {}
  }

  /** The change points encode every profile: what is quoted at an answered TTL is what the latest
      change point quoted (nothing before the first), and consecutive change points differ, so a
      persistent rewrite is marked once. */
  lemma ChangePointsEncodeProfiles(log: Log, ttl: nat)
    requires ttl >= 1 && AnyAnswered(Samples(log, BaselineFixed, ttl))
    ensures Profile(Samples(log, BaselineFixed, ttl)) == ProfileAtChange(log, LatestChange(log, ttl))
    ensures ChangePoint(log, ttl) ==>
              Profile(Samples(log, BaselineFixed, ttl)) != ProfileAtChange(log, LatestChange(log, ttl - 1))
  {
    ProfileBelowIsLatest(log, ttl);
    ProfileBelowIsLatest(log, ttl + 1);
  }

  lemma {:induction false} ProfileBelowIsLatest(log: Log, ttl: nat)
    requires ttl >= 1
    ensures ProfileBelow(log, ttl) == ProfileAtChange(log, LatestChange(log, ttl - 1))
  {
    if ttl <= 1 {
    } else {
      ProfileBelowIsLatest(log, ttl - 1);
    }
  }

  // ---------- Runs and windows ----------

  datatype Run = Run(first: nat, last: nat)

  ghost predicate MaximalRun(s: set<nat>, run: Run) {
    && 1 <= run.first <= run.last
    && (forall t :: run.first <= t <= run.last ==> t in s)
    && run.first - 1 !in s && run.last + 1 !in s
  }

  /** The TTLs to repeat: all of a short window; of a long one both boundary pairs and the middle. */
  function WindowTtls(first: nat, last: nat): seq<nat>
    requires first <= last
  {
    if last - first + 1 <= 7 then Range(first, last)
    else [first, first + 1, (first + last) / 2, last - 1, last]
  }

  /** A run widened by one TTL on either side, within 1..limit. */
  function Window(family: Family, run: Run, limit: nat): Region
    requires 1 <= run.first <= run.last <= limit
  {
    var first := if run.first > 1 then run.first - 1 else 1;
    var last := if run.last < limit then run.last + 1 else limit;
    Region(first, last, WindowTtls(first, last), [ReasonOf(family)],
           VisibilityFamily(family) || family.Multipath?, family)
  }

  /** What every region to be probed satisfies. */
  ghost predicate Geometry(region: Region, limit: nat) {
    && 1 <= region.first <= region.last <= limit
    && StrictlyIncreasing(region.probeTtls)
    && (forall t :: t in region.probeTtls ==> region.first <= t <= region.last)
    && region.first in region.probeTtls && region.last in region.probeTtls
  }

  lemma WindowTtlsShape(first: nat, last: nat)
    requires first <= last
    ensures var ttls := WindowTtls(first, last);
            && StrictlyIncreasing(ttls) && |ttls| <= 7
            && (forall t :: t in ttls ==> first <= t <= last)
            && first in ttls && last in ttls
            && (first < last ==> first + 1 in ttls && last - 1 in ttls)
  {
    if last - first + 1 <= 7 {
      RangeElements(first, last);
    } else {
      var ttls := WindowTtls(first, last);
      assert ttls[0] == first && ttls[1] == first + 1 && ttls[3] == last - 1 && ttls[4] == last;
    }
  }

  /** Windows stay in range, are probed at no more than seven TTLs in ascending order, and always at
      their own ends and at both ends of the run they surround. */
  lemma WindowGeometry(family: Family, run: Run, limit: nat)
    requires 1 <= run.first <= run.last <= limit
    ensures var region := Window(family, run, limit);
            && Geometry(region, limit) && |region.probeTtls| <= 7
            && region.first <= run.first && run.last <= region.last
            && run.first in region.probeTtls && run.last in region.probeTtls
            && (region.first < run.first || run.first == 1) && (run.last < region.last || run.last == limit)
  {
    var region := Window(family, run, limit);
    WindowTtlsShape(region.first, region.last);
  }

  // ---------- Finding regions ----------

  predicate KeyLeq(a: Region, b: Region) {
    || a.first < b.first
    || (a.first == b.first && (a.last < b.last || (a.last == b.last && Rank(a.family) <= Rank(b.family))))
  }

  /** The regions are the windows of exactly the maximal runs, family by family, once each and sorted. */
  ghost predicate FoundRegions(log: Log, limit: nat, regions: seq<Region>) {
    && (forall r :: r in regions ==> FromRun(log, limit, r))
    && (forall family, run :: family in EVIDENCE_FAMILIES && MaximalRun(Marked(log, limit, family), run) ==>
          HasWindow(regions, family, run, limit))
    && SortedBy(regions, KeyLeq) && NoDuplicates(regions)
  }

  ghost predicate HasWindow(regions: seq<Region>, family: Family, run: Run, limit: nat) {
    1 <= run.first <= run.last <= limit && Window(family, run, limit) in regions
  }

  ghost predicate FromRun(log: Log, limit: nat, region: Region) {
    && region.family in EVIDENCE_FAMILIES
    && exists run :: MaximalRun(Marked(log, limit, region.family), run) && run.last <= limit
                     && region == Window(region.family, run, limit)
  }

  type Buckets = map<nat, Log>

  function At(buckets: Buckets, ttl: nat): Log {
    if ttl in buckets then buckets[ttl] else []
  }

  function ReasonsAt(reasons: map<nat, seq<Reason>>, ttl: nat): seq<Reason> {
    if ttl in reasons then reasons[ttl] else []
  }

  ghost predicate Bucketed(log: Log, limit: nat, phase: Phase, buckets: Buckets) {
    forall t: nat :: At(buckets, t) == if t <= limit then Samples(log, phase, t) else []
  }

  function AddTo(buckets: Buckets, phase: Phase, limit: nat, o: Observation): Buckets {
    if o.spec.phase == phase && o.spec.ttl <= limit then buckets[o.spec.ttl := At(buckets, o.spec.ttl) + [o]]
    else buckets
  }

  lemma BucketStep(log: Log, n: nat, limit: nat, phase: Phase, buckets: Buckets)
    requires n < |log| && Bucketed(log[..n], limit, phase, buckets)
    ensures Bucketed(log[..n + 1], limit, phase, AddTo(buckets, phase, limit, log[n]))
  {
    var next := AddTo(buckets, phase, limit, log[n]);
    assert log[..n + 1][..n] == log[..n];
    forall t: nat ensures At(next, t) == if t <= limit then Samples(log[..n + 1], phase, t) else [] {
      assert At(buckets, t) == if t <= limit then Samples(log[..n], phase, t) else [];
    }
  }

  method CollectSamples(log: Log, limit: nat) returns (fixed: Buckets, canary: Buckets)
    ensures Bucketed(log, limit, BaselineFixed, fixed) && Bucketed(log, limit, CanaryVaried, canary)
  {
    hide Bucketed;
    fixed, canary := map[], map[];
    assert Bucketed(log[..0], limit, BaselineFixed, fixed) && Bucketed(log[..0], limit, CanaryVaried, canary) by {
      NothingBucketed(limit, BaselineFixed);
      NothingBucketed(limit, CanaryVaried);
    }
    var n := 0;
    while n < |log|
      invariant 0 <= n <= |log|
      invariant Bucketed(log[..n], limit, BaselineFixed, fixed) && Bucketed(log[..n], limit, CanaryVaried, canary)
    {
      var o := log[n];
      BucketStep(log, n, limit, BaselineFixed, fixed);
      BucketStep(log, n, limit, CanaryVaried, canary);
      if o.spec.phase.BaselineFixed? && o.spec.ttl <= limit {
        fixed := fixed[o.spec.ttl := At(fixed, o.spec.ttl) + [o]];
      } else if o.spec.phase.CanaryVaried? && o.spec.ttl <= limit {
        canary := canary[o.spec.ttl := At(canary, o.spec.ttl) + [o]];
      }
      n := n + 1;
    }
    assert log[..n] == log;
  }

  lemma NothingBucketed(limit: nat, phase: Phase)
    ensures Bucketed([], limit, phase, map[])
  {
  }

  /** Per-TTL reasons from the answers, the silence and the responders seen there. */
  method ReasonsFromSamples(samples: Log, canarySamples: Log) returns (reasons: seq<Reason>)
    ensures ReasonsAre(reasons, samples, canarySamples)
  {
    reasons := [];
    var combined := samples + canarySamples;
    if combined != [] && AnyAnswered(combined) && AnySilent(combined) {
      reasons := reasons + [IntermittentVisibility];
    } else if combined != [] && !AnyAnswered(combined) {
      reasons := reasons + [UnobservableTtl];
    }
    var fixedAddresses, canaryAddresses := Responders(samples), Responders(canarySamples);
    if |fixedAddresses| > 1 {
      reasons := reasons + [SameFlowVariation];
    }
    if fixedAddresses != {} && canaryAddresses != {}
       && (canaryAddresses - fixedAddresses != {} || (|fixedAddresses| == 1 && fixedAddresses != canaryAddresses)) {
      reasons := reasons + [FlowSensitiveResponder];
    }
    if samples != [] && canarySamples != [] && (fixedAddresses != {}) != (canaryAddresses != {}) {
      reasons := reasons + [FlowSensitiveVisibility];
    }
  }

  ghost predicate SampleReasons(log: Log, limit: nat, reasons: map<nat, seq<Reason>>) {
    forall family, t: nat :: family in EVIDENCE_FAMILIES && !family.HeaderMutation? ==>
      (ReasonOf(family) in ReasonsAt(reasons, t) <==> 1 <= t <= limit && Suspicious(log, family, t))
  }

  ghost predicate MutationReasons(log: Log, limit: nat, reasons: map<nat, seq<Reason>>) {
    forall t: nat :: MutationBoundary in ReasonsAt(reasons, t) <==> 1 <= t <= limit && ChangePoint(log, t)
  }

  ghost predicate ReasonsAre(reasons: seq<Reason>, samples: Log, canarySamples: Log) {
    && (forall family :: family in EVIDENCE_FAMILIES && !family.HeaderMutation? ==>
          (ReasonOf(family) in reasons <==> Triggers(family, samples, canarySamples)))
    && MutationBoundary !in reasons
  }

  method MarkSamples(ghost log: Log, limit: nat, fixed: Buckets, canary: Buckets)
    returns (reasons: map<nat, seq<Reason>>)
    requires Bucketed(log, limit, BaselineFixed, fixed) && Bucketed(log, limit, CanaryVaried, canary)
    ensures SampleReasons(log, limit, reasons) && MutationReasons(log, 0, reasons)
  {
    hide ReasonsAre, SampleReasons, MutationReasons;
    reasons := map[];
    NothingMarked(log);
    var ttl := 1;
    while ttl <= limit
      invariant 1 <= ttl <= limit + 1
      invariant SampleReasons(log, ttl - 1, reasons) && MutationReasons(log, 0, reasons)
    {
      var found := ReasonsFromSamples(At(fixed, ttl), At(canary, ttl));
      MarkedAt(log, ttl, reasons, found);
      if found != [] {
        reasons := reasons[ttl := found];
      }
      ttl := ttl + 1;
    }
  }

  lemma NothingMarked(log: Log)
    ensures SampleReasons(log, 0, map[]) && MutationReasons(log, 0, map[])
  {
  }

  lemma MarkedAt(log: Log, ttl: nat, reasons: map<nat, seq<Reason>>, found: seq<Reason>)
    requires ttl >= 1 && SampleReasons(log, ttl - 1, reasons) && MutationReasons(log, 0, reasons)
    requires ReasonsAre(found, Samples(log, BaselineFixed, ttl), Samples(log, CanaryVaried, ttl))
    ensures var next := if found != [] then reasons[ttl := found] else reasons;
            SampleReasons(log, ttl, next) && MutationReasons(log, 0, next)
  {
    hide Triggers, Suspicious, SampleReasons, MutationReasons, ReasonsAre;
    if found == [] {
      NothingToMark(log, ttl, reasons);
    } else {
      var next := reasons[ttl := found];
      assert forall t: nat :: ReasonsAt(next, t) == if t == ttl then found else ReasonsAt(reasons, t);
      hide ReasonsAt;
      SampleReasonsAt(log, ttl, reasons, next, found);
      MutationReasonsAt(log, ttl, reasons, next, found);
    }
  }

  lemma NothingToMark(log: Log, ttl: nat, reasons: map<nat, seq<Reason>>)
    requires ttl >= 1 && SampleReasons(log, ttl - 1, reasons)
    requires ReasonsAre([], Samples(log, BaselineFixed, ttl), Samples(log, CanaryVaried, ttl))
    ensures SampleReasons(log, ttl, reasons)
  {
    hide Triggers, ReasonsAt;
    forall family, t: nat | family in EVIDENCE_FAMILIES && !family.HeaderMutation?
      ensures ReasonOf(family) in ReasonsAt(reasons, t) <==> 1 <= t <= ttl && Suspicious(log, family, t)
    {
      assert ReasonOf(family) in ReasonsAt(reasons, t) <==> 1 <= t <= ttl - 1 && Suspicious(log, family, t);
    }
  }

  lemma SampleReasonsAt(log: Log, ttl: nat, reasons: map<nat, seq<Reason>>, next: map<nat, seq<Reason>>,
                        found: seq<Reason>)
    requires ttl >= 1 && SampleReasons(log, ttl - 1, reasons)
    requires forall t: nat :: ReasonsAt(next, t) == if t == ttl then found else ReasonsAt(reasons, t)
    requires ReasonsAre(found, Samples(log, BaselineFixed, ttl), Samples(log, CanaryVaried, ttl))
    ensures SampleReasons(log, ttl, next)
  {
    hide Triggers, ReasonsAt;
    forall family, t: nat | family in EVIDENCE_FAMILIES && !family.HeaderMutation?
      ensures ReasonOf(family) in ReasonsAt(next, t) <==> 1 <= t <= ttl && Suspicious(log, family, t)
    {
      assert ReasonOf(family) in ReasonsAt(reasons, t) <==> 1 <= t <= ttl - 1 && Suspicious(log, family, t);
    }
  }

  lemma MutationReasonsAt(log: Log, ttl: nat, reasons: map<nat, seq<Reason>>, next: map<nat, seq<Reason>>,
                          found: seq<Reason>)
    requires MutationReasons(log, 0, reasons)
    requires forall t: nat :: ReasonsAt(next, t) == if t == ttl then found else ReasonsAt(reasons, t)
    requires ReasonsAre(found, Samples(log, BaselineFixed, ttl), Samples(log, CanaryVaried, ttl))
    ensures MutationReasons(log, 0, next)
  {
    hide Triggers, ReasonsAt, ChangePoint;
    forall t: nat ensures MutationBoundary !in ReasonsAt(next, t) {
      assert MutationBoundary !in ReasonsAt(reasons, t);
    }
  }

  /** Rewrites persist downstream: only a profile unlike the previous visible one is marked. */
  method MarkChangePoints(ghost log: Log, limit: nat, fixed: Buckets, marked: map<nat, seq<Reason>>)
    returns (reasons: map<nat, seq<Reason>>)
    requires Bucketed(log, limit, BaselineFixed, fixed)
    requires SampleReasons(log, limit, marked) && MutationReasons(log, 0, marked)
    ensures SampleReasons(log, limit, reasons) && MutationReasons(log, limit, reasons)
  {
    hide SampleReasons, MutationReasons, Profile, AnyAnswered;
    reasons := marked;
    var previous: set<Mutation> := {};
    var ttl := 1;
    while ttl <= limit
      invariant 1 <= ttl <= limit + 1
      invariant SampleReasons(log, limit, reasons) && MutationReasons(log, ttl - 1, reasons)
      invariant previous == ProfileBelow(log, ttl)
    {
      assert At(fixed, ttl) == Samples(log, BaselineFixed, ttl);
      ChangeMarkedAt(log, limit, ttl, reasons);
      if AnyAnswered(At(fixed, ttl)) {
        var profile := Profile(At(fixed, ttl));
        if profile != previous {
          reasons := reasons[ttl := ReasonsAt(reasons, ttl) + [MutationBoundary]];
        }
        previous := profile;
      }
      ttl := ttl + 1;
    }
  }

  lemma ChangeMarkedAt(log: Log, limit: nat, ttl: nat, reasons: map<nat, seq<Reason>>)
    requires ttl >= 1 && SampleReasons(log, limit, reasons) && MutationReasons(log, ttl - 1, reasons)
    ensures var next := if ChangePoint(log, ttl) then reasons[ttl := ReasonsAt(reasons, ttl) + [MutationBoundary]]
                        else reasons;
            SampleReasons(log, limit, next) && MutationReasons(log, ttl, next)
  {
    hide ChangePoint, Suspicious;
    var next := if ChangePoint(log, ttl) then reasons[ttl := ReasonsAt(reasons, ttl) + [MutationBoundary]] else reasons;
    forall t: nat
      ensures MutationBoundary in ReasonsAt(next, t) <==> 1 <= t <= ttl && ChangePoint(log, t)
      ensures forall r :: r != MutationBoundary ==> (r in ReasonsAt(next, t) <==> r in ReasonsAt(reasons, t))
    {
      assert MutationBoundary in ReasonsAt(reasons, t) <==> 1 <= t <= ttl - 1 && ChangePoint(log, t);
    }
    forall family, t: nat | family in EVIDENCE_FAMILIES && !family.HeaderMutation?
      ensures ReasonOf(family) in ReasonsAt(next, t) <==> 1 <= t <= limit && Suspicious(log, family, t)
    {
      assert ReasonOf(family) in ReasonsAt(reasons, t) <==> 1 <= t <= limit && Suspicious(log, family, t);
      assert ReasonOf(family) != MutationBoundary;
    }
  }

  /** Consecutive TTLs grouped: each group, given by its ends, is a maximal run and none is missed. */
  method GroupRuns(ttls: seq<nat>) returns (groups: seq<Run>)
    requires StrictlyIncreasing(ttls) && forall t :: t in ttls ==> 1 <= t
    ensures forall g :: g in groups ==> MaximalRun(Elements(ttls), g) && g.last in ttls
    ensures forall run :: MaximalRun(Elements(ttls), run) ==> run in groups
    ensures forall i, j :: 0 <= i < j < |groups| ==> groups[i].last + 1 < groups[j].first
  {
    hide Covers;
    groups := [];
    NothingGrouped();
    assert ttls[..0] == [];
    var n := 0;
    while n < |ttls|
      invariant 0 <= n <= |ttls|
      invariant Grouped(ttls[..n], groups)
    {
      assert ttls[n] in ttls;
      assert ttls[..n + 1] == ttls[..n] + [ttls[n]];
      assert n > 0 ==> ttls[..n][n - 1] < ttls[n];
      if groups == [] || ttls[n] > groups[|groups| - 1].last + 1 {
        StartsGroup(ttls[..n], ttls[n], groups);
        groups := groups + [Run(ttls[n], ttls[n])];
      } else {
        ExtendsGroup(ttls[..n], ttls[n], groups);
        groups := groups[|groups| - 1 := Run(groups[|groups| - 1].first, ttls[n])];
      }
      n := n + 1;
    }
    assert ttls[..n] == ttls;
    GroupsAreMaximalRuns(ttls, groups);
  }

  ghost predicate Covers(groups: seq<Run>, t: nat) {
    exists i :: 0 <= i < |groups| && groups[i].first <= t <= groups[i].last
  }

  /** The groups cover exactly the TTLs, with gaps between them, the last ending at the last TTL. */
  ghost predicate Grouped(ttls: seq<nat>, groups: seq<Run>) {
    && (forall t :: t in ttls <==> Covers(groups, t))
    && (forall i :: 0 <= i < |groups| ==> 1 <= groups[i].first <= groups[i].last)
    && (forall i, j :: 0 <= i < j < |groups| ==> groups[i].last + 1 < groups[j].first)
    && (groups == [] <==> ttls == [])
    && (ttls != [] ==> groups[|groups| - 1].last == ttls[|ttls| - 1])
  }

  lemma NothingGrouped()
    ensures Grouped([], [])
  {
  }

  lemma StartsGroup(ttls: seq<nat>, ttl: nat, groups: seq<Run>)
    requires Grouped(ttls, groups) && ttl >= 1
    requires groups == [] || ttl > groups[|groups| - 1].last + 1
    ensures Grouped(ttls + [ttl], groups + [Run(ttl, ttl)])
  {
    var next := groups + [Run(ttl, ttl)];
    forall t: nat ensures Covers(next, t) <==> Covers(groups, t) || t == ttl {
      if Covers(groups, t) {
        var i :| 0 <= i < |groups| && groups[i].first <= t <= groups[i].last;
        assert next[i] == groups[i];
      }
      if t == ttl { assert next[|groups|].first <= t; }
    }
  }

  lemma ExtendsGroup(ttls: seq<nat>, ttl: nat, groups: seq<Run>)
    requires Grouped(ttls, groups) && groups != []
    requires ttls[|ttls| - 1] < ttl <= groups[|groups| - 1].last + 1
    ensures Grouped(ttls + [ttl], groups[|groups| - 1 := Run(groups[|groups| - 1].first, ttl)])
  {
    var k := |groups| - 1;
    var next := groups[k := Run(groups[k].first, ttl)];
    forall t: nat ensures Covers(next, t) <==> Covers(groups, t) || t == ttl {
      if Covers(groups, t) {
        var i :| 0 <= i < |groups| && groups[i].first <= t <= groups[i].last;
        assert next[i].first <= t <= next[i].last;
      }
      if Covers(next, t) && t != ttl {
        var i :| 0 <= i < |next| && next[i].first <= t <= next[i].last;
        assert groups[i].first <= t <= groups[i].last;
      }
      if t == ttl { assert next[k].first <= t <= next[k].last; }
    }
  }

  lemma GroupsAreMaximalRuns(ttls: seq<nat>, groups: seq<Run>)
    requires Grouped(ttls, groups)
    ensures forall g :: g in groups ==> MaximalRun(Elements(ttls), g) && g.last in ttls
    ensures forall run :: MaximalRun(Elements(ttls), run) ==> run in groups
  {
    hide Grouped, MaximalRun;
    forall i | 0 <= i < |groups| ensures MaximalRun(Elements(ttls), groups[i]) && groups[i].last in ttls {
      GroupIsMaximal(ttls, groups, i);
    }
    forall run | MaximalRun(Elements(ttls), run) ensures run in groups {
      RunIsGrouped(ttls, groups, run);
    }
  }

  lemma RunIsGrouped(ttls: seq<nat>, groups: seq<Run>, run: Run)
    requires Grouped(ttls, groups) && MaximalRun(Elements(ttls), run)
    ensures run in groups
  {
    assert run.first in Elements(ttls);
    assert Covers(groups, run.first);
    var i :| 0 <= i < |groups| && groups[i].first <= run.first <= groups[i].last;
    GroupIsMaximal(ttls, groups, i);
    hide Grouped, Elements;
    SameRun(Elements(ttls), groups[i], run);
  }

  lemma GroupIsMaximal(ttls: seq<nat>, groups: seq<Run>, i: nat)
    requires Grouped(ttls, groups) && i < |groups|
    ensures MaximalRun(Elements(ttls), groups[i]) && groups[i].last in ttls
  {
    var g := groups[i];
    forall t: nat | g.first <= t <= g.last ensures t in ttls {
      assert Covers(groups, t);
    }
    forall t: nat | t in ttls ensures t != g.first - 1 && t != g.last + 1 {
      assert Covers(groups, t);
      var j :| 0 <= j < |groups| && groups[j].first <= t <= groups[j].last;
      assert j < i ==> groups[j].last + 1 < groups[i].first;
      assert i < j ==> groups[i].last + 1 < groups[j].first;
    }
  }

  /** Two maximal runs that meet are the same run. */
  lemma SameRun(s: set<nat>, a: Run, b: Run)
    requires MaximalRun(s, a) && MaximalRun(s, b) && a.first <= b.first <= a.last
    ensures a == b
  {
    assert a.first <= b.first - 1 <= a.last ==> b.first - 1 in s;
    assert b.first <= a.last + 1 <= b.last ==> a.last + 1 in s;
    assert a.first <= b.last + 1 <= a.last ==> b.last + 1 in s;
  }

  method MarkedTtls(reasons: map<nat, seq<Reason>>, limit: nat, reason: Reason) returns (ttls: seq<nat>)
    ensures StrictlyIncreasing(ttls)
    ensures forall t :: t in ttls <==> 1 <= t <= limit && reason in ReasonsAt(reasons, t)
  {
    ttls := [];
    var ttl := 1;
    while ttl <= limit
      invariant 1 <= ttl <= limit + 1
      invariant forall t :: t in ttls <==> 1 <= t < ttl && reason in ReasonsAt(reasons, t)
      invariant StrictlyIncreasing(ttls)
    {
      if reason in ReasonsAt(reasons, ttl) {
        assert forall i :: 0 <= i < |ttls| ==> ttls[i] in ttls;
        ttls := ttls + [ttl];
      }
      ttl := ttl + 1;
    }
  }

  /** The windows of one family. */
  method FamilyRegions(log: Log, limit: nat, family: Family, reasons: map<nat, seq<Reason>>)
    returns (regions: seq<Region>)
    requires family in EVIDENCE_FAMILIES
    requires SampleReasons(log, limit, reasons) && MutationReasons(log, limit, reasons)
    ensures forall r :: r in regions ==> FromRun(log, limit, r) && r.family == family
    ensures forall run :: MaximalRun(Marked(log, limit, family), run) ==> HasWindow(regions, family, run, limit)
    ensures NoDuplicates(regions)
  {
    hide Suspicious, MaximalRun, Marked, Window, FromRun, HasWindow;
    var ttls := MarkedTtls(reasons, limit, ReasonOf(family));
    assert Elements(ttls) == Marked(log, limit, family) by { MarkedByReason(log, limit, family, reasons); }
    var groups := GroupRuns(ttls);
    regions := [];
    var n := 0;
    while n < |groups|
      invariant 0 <= n <= |groups| && |regions| == n
      invariant forall k :: 0 <= k < n ==>
                  RunWithin(groups[k], limit) && regions[k] == Window(family, groups[k], limit)
    {
      assert groups[n] in groups;
      RunInRange(Marked(log, limit, family), groups[n], limit);
      regions := regions + [Window(family, groups[n], limit)];
      n := n + 1;
    }
    WindowsOfRuns(log, limit, family, groups, regions);
    WindowsDiffer(family, groups, limit, regions);
  }

  predicate RunWithin(run: Run, limit: nat) {
    1 <= run.first <= run.last <= limit
  }

  lemma RunInRange(marked: set<nat>, run: Run, limit: nat)
    requires MaximalRun(marked, run) && run.last <= limit
    ensures RunWithin(run, limit)
  {
  }

  /** The windows of exactly the maximal runs. */
  lemma WindowsOfRuns(log: Log, limit: nat, family: Family, groups: seq<Run>, regions: seq<Region>)
    requires family in EVIDENCE_FAMILIES && |regions| == |groups|
    requires forall k :: 0 <= k < |groups| ==>
               RunWithin(groups[k], limit) && regions[k] == Window(family, groups[k], limit)
    requires forall g :: g in groups ==> MaximalRun(Marked(log, limit, family), g)
    requires forall run :: MaximalRun(Marked(log, limit, family), run) ==> run in groups
    ensures forall r :: r in regions ==> FromRun(log, limit, r) && r.family == family
    ensures forall run :: MaximalRun(Marked(log, limit, family), run) ==> HasWindow(regions, family, run, limit)
  {
    hide MaximalRun, Marked;
    forall r | r in regions ensures FromRun(log, limit, r) && r.family == family {
      var k :| 0 <= k < |regions| && regions[k] == r;
      assert groups[k] in groups;
    }
    forall run | MaximalRun(Marked(log, limit, family), run) ensures HasWindow(regions, family, run, limit) {
      var k :| 0 <= k < |groups| && groups[k] == run;
      assert regions[k] in regions;
    }
  }

  /** Runs with gaps between them have windows that start apart. */
  lemma WindowsDiffer(family: Family, groups: seq<Run>, limit: nat, regions: seq<Region>)
    requires |regions| == |groups| && forall i, j :: 0 <= i < j < |groups| ==> groups[i].last + 1 < groups[j].first
    requires forall k :: 0 <= k < |groups| ==>
               RunWithin(groups[k], limit) && regions[k] == Window(family, groups[k], limit)
    ensures NoDuplicates(regions)
  {
    forall i, j | 0 <= i < j < |regions| ensures regions[i] != regions[j] {
      assert regions[i].first < regions[j].first;
    }
  }

  lemma FamiliesDiffer(found: seq<Region>, more: seq<Region>, family: Family)
    requires NoDuplicates(found) && NoDuplicates(more)
    requires (forall r :: r in found ==> r.family != family) && forall r :: r in more ==> r.family == family
    ensures NoDuplicates(found + more)
  {
    var all := found + more;
    forall i, j | 0 <= i < j < |all| ensures all[i] != all[j] {
      if i < |found| <= j {
        assert all[i] in found && all[j] in more;
      }
    }
  }

  lemma MarkedByReason(log: Log, limit: nat, family: Family, reasons: map<nat, seq<Reason>>)
    requires family in EVIDENCE_FAMILIES
    requires SampleReasons(log, limit, reasons) && MutationReasons(log, limit, reasons)
    ensures forall t ::
              t in Marked(log, limit, family) <==> 1 <= t <= limit && ReasonOf(family) in ReasonsAt(reasons, t)
  {
    hide Triggers, ChangePoint;
  }

  lemma KeyIsPreorder()
    ensures TotalPreorder(KeyLeq)
  {
  }

  /** Detection over the baseline and canary evidence of a log. */
  method FindRegions(log: Log, limit: nat) returns (regions: seq<Region>)
    ensures FoundRegions(log, limit, regions)
  {
    hide MaximalRun, FromRun, Marked, Window, SampleReasons, MutationReasons;
    var fixed, canary := CollectSamples(log, limit);
    var fromSamples := MarkSamples(log, limit, fixed, canary);
    var reasons := MarkChangePoints(log, limit, fixed, fromSamples);
    var found: seq<Region> := [];
    var n := 0;
    while n < |EVIDENCE_FAMILIES|
      invariant 0 <= n <= |EVIDENCE_FAMILIES|
      invariant forall r :: r in found ==> FromRun(log, limit, r) && r.family in EVIDENCE_FAMILIES[..n]
      invariant NoDuplicates(found)
      invariant forall k, run :: 0 <= k < n && MaximalRun(Marked(log, limit, EVIDENCE_FAMILIES[k]), run) ==>
                  HasWindow(found, EVIDENCE_FAMILIES[k], run, limit)
    {
      var more := FamilyRegions(log, limit, EVIDENCE_FAMILIES[n], reasons);
      assert EVIDENCE_FAMILIES[..n + 1] == EVIDENCE_FAMILIES[..n] + [EVIDENCE_FAMILIES[n]];
      FamiliesDiffer(found, more, EVIDENCE_FAMILIES[n]);
      found := found + more;
      n := n + 1;
    }
    SortKeepsElements(found, KeyLeq);
    KeyIsPreorder();
    SortSorts(found, KeyLeq);
    SortAddsNoDuplicates(found, KeyLeq);
    regions := SortBy(found, KeyLeq);
  }
}
