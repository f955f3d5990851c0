/** A path and settings on which every run counts a token twice: 16 hops, of which 7 and 9 stay silent in
    the second sweep, one canary, and a budget of 45 probes. The canary is cut after TTL 8, the shared
    window 6..10 draws its variant again, and the region 6..8 is certified with two samples on one port. */
module CutRun {
  import opened Bytes
  import opened Campaigns
  import opened Clusters
  import opened Controller
  import opened Coverage
  import opened Drawing
  import opened Evidence
  import opened Guarantees
  import opened Ledgers
  import opened Model
  import opened Regions
  import opened Rounds
  import opened Runs
  import opened Sampling
  import opened Segments
  import opened Sequences
  import opened Settings
  import opened Stats
  import opened Sweeps
  import opened TokenReuse
  import opened Tokens
  import opened Wrappers

  // ---------- The settings, the network and the probes ----------

  const CONFIG := TraceConfig(Udp, 16, 2, 2, 1, false, 8, 8, 5, 0.5, 0.25, 45, 33434, None, 32)

  /** Hop n is 10.0.0.n and hop 16 the destination; 7 and 9 miss the second sweep. */
  function Respond(spec: ProbeSpec): LegalReply {
    if spec.phase.BaselineFixed? && spec.sampleId == 2 && (spec.ttl == 7 || spec.ttl == 9) then NO_REPLY
    else
      Reply(if spec.ttl == 16 then Destination else TimeExceeded, Some(HopAddress(spec.ttl)), None, None, None, None,
            spec.ttl == 16, None, [], PayloadTag, None)
  }

  function HopAddress(ttl: nat): Ipv4Address {
    [10, 0, 0, ttl % 0x100]
  }

  const NETWORK: Network := (_, spec) => Answer(0, Respond(spec))

  function LogOf(plan: Plan): (log: Log)
    ensures |log| == |plan| && forall k :: 0 <= k < |plan| ==> log[k] == Receive(NETWORK, k, plan[k])
  {
    seq(|plan|, k requires 0 <= k < |plan| => Receive(NETWORK, k, plan[k]))
  }

  function Sweep(last: nat, flow: FlowKey, phase: Phase, id: nat): Plan {
    Bundle(Range(1, last), flow, phase, id, 32)
  }

  function Baselined(main: FlowKey): Plan {
    Sweep(16, main, BaselineFixed, 1) + Sweep(16, main, BaselineFixed, 2)
  }

  function Canaried(main: FlowKey, drawn: FlowKey): Plan {
    Baselined(main) + Sweep(8, drawn, CanaryVaried, 3)
  }

  function Final(main: FlowKey, drawn: FlowKey): Plan {
    Canaried(main, drawn) + Bundle(Range(6, 10), drawn, DbpVaried, 4, 32)
  }

  const LEFT: Region := Regions.Window(VisibilityIntermittent, Run(7, 7), 16)
  const RIGHT: Region := Regions.Window(VisibilityIntermittent, Run(9, 9), 16)

  // ---------- Plans and logs ----------

  lemma Needed()
    ensures CONFIG.Valid() && CONFIG.Required() == 2
  {
    var half: real := 1.0 - CONFIG.minDetectable;
    assert Power(half, 0) == 1.0 && Power(half, 1) == 0.5 && Power(half, 2) == 0.25 by {
      assert Times(half, 1.0) == 0.5 && Times(half, 0.5) == 0.25;
    }
    RequiredSamplesExact(CONFIG.minDetectable, CONFIG.missProbability, 1);
    RequiredSamplesExact(CONFIG.minDetectable, CONFIG.missProbability, 2);
  }

  /** On this network the plan determines the log. */
  lemma LogIs(log: Log)
    requires FromNetwork(NETWORK, log)
    ensures log == LogOf(PlanOf(log))
  {
  }

  lemma PrefixOfNetwork(log: Log, whole: Log)
    requires log <= whole && FromNetwork(NETWORK, whole)
    ensures FromNetwork(NETWORK, log)
  {
    forall k | 0 <= k < |log| ensures log[k] == Receive(NETWORK, k, PlanOf(log)[k]) {
      assert log[k] == whole[k];
      assert PlanOf(log)[k] == PlanOf(whole)[k];
    }
  }

  lemma Unnumbered(main: FlowKey, drawn: FlowKey)
    ensures forall k :: 0 <= k < |Final(main, drawn)| ==> Final(main, drawn)[k].probeId == 0
    ensures forall k :: 0 <= k < |Canaried(main, drawn)| ==> Canaried(main, drawn)[k].probeId == 0
    ensures forall k :: 0 <= k < |Baselined(main)| ==> Baselined(main)[k].probeId == 0
    ensures |Baselined(main)| == 32 && |Canaried(main, drawn)| == 40 && |Final(main, drawn)| == 45
  {
  }

  lemma InSweep(spec: ProbeSpec, first: nat, last: nat, flow: FlowKey, phase: Phase, id: nat)
    requires first <= last + 1
    ensures spec in Bundle(Range(first, last), flow, phase, id, 32)
       <==> first <= spec.ttl <= last && spec == ProbeSpec(spec.ttl, flow, phase, id, 32, 0)
  {
    var bundle := Bundle(Range(first, last), flow, phase, id, 32);
    RangeElements(first, last);
    if first <= spec.ttl <= last && spec == ProbeSpec(spec.ttl, flow, phase, id, 32, 0) {
      assert bundle[spec.ttl - first] == spec;
    }
  }

  /** The probes sent before detection. */
  lemma InCanaried(main: FlowKey, drawn: FlowKey, spec: ProbeSpec)
    ensures spec in Baselined(main)
       <==> 1 <= spec.ttl <= 16 && 1 <= spec.sampleId <= 2
            && spec == ProbeSpec(spec.ttl, main, BaselineFixed, spec.sampleId, 32, 0)
    ensures spec in Canaried(main, drawn)
       <==> spec in Baselined(main)
            || (1 <= spec.ttl <= 8 && spec == ProbeSpec(spec.ttl, drawn, CanaryVaried, 3, 32, 0))
  {
    hide Bundle;
    InSweep(spec, 1, 16, main, BaselineFixed, 1);
    InSweep(spec, 1, 16, main, BaselineFixed, 2);
    InSweep(spec, 1, 8, drawn, CanaryVaried, 3);
  }

  /** What was observed for one probe. */
  function Seen(spec: ProbeSpec): Observation {
    Observation(spec.(probeId := 0), Respond(spec))
  }

  lemma InLog(plan: Plan, o: Observation)
    requires forall k :: 0 <= k < |plan| ==> plan[k].probeId == 0
    ensures o in LogOf(plan) <==> o.spec in plan && o == Seen(o.spec)
  {
    if o in LogOf(plan) {
      var k :| 0 <= k < |plan| && LogOf(plan)[k] == o;
      assert plan[k] == o.spec;
    }
    if o.spec in plan && o == Seen(o.spec) {
      var k :| 0 <= k < |plan| && plan[k] == o.spec;
      assert LogOf(plan)[k] == o;
    }
  }

  // ---------- The baseline ----------

  lemma ChunksOfEight(ttls: nat)
    requires WholeChunks(ttls, 8) && ttls < 16
    ensures ttls == 0 || ttls == 8
  {
    var n: nat :| ttls == Bulk(n, 8);
  }

  /** With room for 16 more probes a round over 16 TTLs is sent whole: nothing before TTL 16 is terminal. */
  lemma RoundIsWhole(main: FlowKey, id: nat, before: Log, round: Round)
    requires RoundFollows(CONFIG, main, id, 16, before, round) && |before| <= 16 && FromNetwork(NETWORK, round.log)
    ensures round.sent && PlanOf(round.log) == PlanOf(before) + Sweep(16, main, BaselineFixed, id)
  {
    hide Bundle, QuietSince, WholeChunks;
    ChunksOfEight(round.floor);
    RoundSize(main, id, before, round);
    if Reached(CONFIG, round, 16) < 16 {
      NothingTerminal(before, round.log, main, id, Reached(CONFIG, round, 16));
    }
  }

  lemma NothingTerminal(before: Log, log: Log, main: FlowKey, id: nat, reach: nat)
    requires PlanOf(log) == PlanOf(before) + Bundle(Range(1, reach), main, BaselineFixed, id, 32) && reach < 16
    requires FromNetwork(NETWORK, log)
    ensures !TerminalSince(log, |before|)
  {
    forall i | |before| <= i < |log| ensures !log[i].reply.terminal {
      SweepTtl(before, log, main, id, reach, i);
      assert log[i] == Receive(NETWORK, i, PlanOf(log)[i]);
    }
  }

  lemma RoundSize(main: FlowKey, id: nat, before: Log, round: Round)
    requires RoundFollows(CONFIG, main, id, 16, before, round) && |before| <= 16
    requires round.floor == 0 || round.floor == 8
    ensures round.sent
  {
    hide QuietSince, WholeChunks;
    assert |PlanOf(round.log)| == |round.log|;
  }

  lemma SweepTtl(before: Log, log: Log, main: FlowKey, id: nat, reach: nat, i: nat)
    requires PlanOf(log) == PlanOf(before) + Bundle(Range(1, reach), main, BaselineFixed, id, 32)
    requires |before| <= i < |log|
    ensures log[i].spec.ttl <= reach
  {
    assert PlanOf(log)[i] == Bundle(Range(1, reach), main, BaselineFixed, id, 32)[i - |before|];
  }

  /** The baseline of both rounds, or of the first alone, was answered up to the destination. */
  lemma Answering(main: FlowKey, plan: Plan)
    requires plan == Baselined(main) || plan == Sweep(16, main, BaselineFixed, 1)
    ensures BaselineAnswered(LogOf(plan)) && !Silent(LogOf(plan))
    ensures FirstTerminalTtl(LogOf(plan), main) == Some(16)
  {
    hide Bundle;
    var log, last := LogOf(plan), ProbeSpec(16, main, BaselineFixed, 1, 32, 0);
    forall s: ProbeSpec | s in plan ensures 1 <= s.ttl <= 16 && s.probeId == 0 {
      InCanaried(main, main, s);
      InSweep(s, 1, 16, main, BaselineFixed, 1);
    }
    InCanaried(main, main, last);
    InSweep(last, 1, 16, main, BaselineFixed, 1);
    InLog(plan, Seen(last));
    assert Seen(last).Answered() && MainTerminal(Seen(last), main);
    var k :| 0 <= k < |log| && log[k] == Seen(last);
    forall i | 0 <= i < |log| && MainTerminal(log[i], main) ensures 16 <= log[i].spec.ttl {
      assert log[i] in log;
      InLog(plan, log[i]);
    }
    TerminalIs(log, main, Some(16));
  }

  lemma FirstSent(main: FlowKey, rounds: seq<Round>)
    requires |rounds| > 0 && RoundsFollow(CONFIG, main, rounds) && FromNetwork(NETWORK, rounds[0].log)
    ensures rounds[0].sent && PlanOf(rounds[0].log) == Sweep(16, main, BaselineFixed, 1)
    ensures |rounds[0].log| == 16 && !Silent(rounds[0].log) && FirstTerminalTtl(rounds[0].log, main) == Some(16)
  {
    hide RoundFollows, FirstTerminalTtl, LastObservedTtl, FromNetwork, Silent;
    var log := rounds[0].log;
    assert RoundAt(CONFIG, main, rounds, 0);
    NothingYet(main);
    RoundIsWhole(main, 1, [], rounds[0]);
    assert PlanOf([]) == [] && PlanOf([]) + Sweep(16, main, BaselineFixed, 1) == Sweep(16, main, BaselineFixed, 1);
    LogIs(log);
    Answering(main, Sweep(16, main, BaselineFixed, 1));
    assert |PlanOf(log)| == |log|;
  }

  lemma SecondSent(main: FlowKey, rounds: seq<Round>)
    requires |rounds| == 2 && RoundsFollow(CONFIG, main, rounds) && FromNetwork(NETWORK, rounds[1].log)
    requires |rounds[0].log| == 16 && FirstTerminalTtl(rounds[0].log, main) == Some(16)
    ensures rounds[1].sent && PlanOf(rounds[1].log) == PlanOf(rounds[0].log) + Sweep(16, main, BaselineFixed, 2)
  {
    hide RoundFollows, FirstTerminalTtl, LastObservedTtl, Bundle, FromNetwork, PlanOf;
    assert RoundAt(CONFIG, main, rounds, 1);
    RoundIsWhole(main, 2, rounds[0].log, rounds[1]);
  }

  /** Both rounds were sent whole, and nothing was warned of. */
  lemma RoundsSent(main: FlowKey, rounds: seq<Round>, warned: seq<Warning>, log: Log)
    requires BaselineOf(CONFIG, main, rounds, warned) && LogBefore(rounds, |rounds|) <= log && FromNetwork(NETWORK, log)
    ensures |rounds| == 2 && warned == [] && PlanOf(LogBefore(rounds, 2)) == Baselined(main)
  {
    hide RoundsFollow, FirstTerminalTtl, Bundle, FromNetwork, Silent, PlanOf;
    RoundsWithin(main, rounds, warned, log);
    FirstSent(main, rounds);
    if |rounds| == 2 {
      SecondSent(main, rounds);
    }
  }

  lemma NothingYet(main: FlowKey)
    ensures FirstTerminalTtl([], main) == None
  {
  }

  /** Every round's log is a prefix of the whole one. */
  lemma RoundsWithin(main: FlowKey, rounds: seq<Round>, warned: seq<Warning>, log: Log)
    requires BaselineOf(CONFIG, main, rounds, warned) && LogBefore(rounds, |rounds|) <= log && FromNetwork(NETWORK, log)
    ensures FromNetwork(NETWORK, rounds[0].log) && FromNetwork(NETWORK, LogBefore(rounds, |rounds|))
  {
    hide FromNetwork, SweepLimit, FirstTerminalTtl;
    PrefixOfNetwork(LogBefore(rounds, |rounds|), log);
    if |rounds| == 2 {
      assert RoundAt(CONFIG, main, rounds, 1);
      PrefixOfNetwork(rounds[0].log, rounds[1].log);
    }
  }

  // ---------- The canary ----------

  /** A whole canary would exceed the budget, its first chunk does not, and its second one would: it is cut
      after TTL 8. */
  lemma CanaryIsCut(main: FlowKey, variants: map<nat, FlowKey>, grown: Plan, whole: nat, part: nat)
    requires Canaries(CONFIG, 16, Baselined(main), 3, variants, grown, whole, part) && |grown| <= 45
    ensures whole == 0 && part == 8 && 1 in variants && grown == Canaried(main, variants[1])
  {
    hide Series, Bundle, WholeChunks, Baselined;
    Unnumbered(main, main);
    SeriesSize(Range(1, 16), CachedFlows(variants, 1, whole), CanaryVaried, 3, 32);
    if whole == 0 {
      ChunksOfEight(part);
      NoSeries(Range(1, 16), CachedFlows(variants, 1, 0));
      assert Baselined(main) + [] == Baselined(main);
    }
  }

  lemma NoSeries(ttls: seq<nat>, flows: seq<FlowKey>)
    requires flows == []
    ensures Series(ttls, flows, CanaryVaried, 3, 32) == []
  {
  }

  // ---------- What is detected ----------

  lemma SamplesAt(main: FlowKey, drawn: FlowKey, phase: Phase, ttl: nat, o: Observation)
    ensures o in Samples(LogOf(Canaried(main, drawn)), phase, ttl)
       <==> o.spec in Canaried(main, drawn) && o == Seen(o.spec) && o.spec.phase == phase && o.spec.ttl == ttl
  {
    Unnumbered(main, drawn);
    hide Samples, Bundle, Canaried;
    InLog(Canaried(main, drawn), o);
  }

  /** At every TTL the first sweep was answered, and all answers come from one hop, unrewritten. */
  lemma AnswersAt(main: FlowKey, drawn: FlowKey, ttl: nat)
    requires 1 <= ttl <= 16
    ensures var log := LogOf(Canaried(main, drawn));
            var fixed, canary := Samples(log, BaselineFixed, ttl), Samples(log, CanaryVaried, ttl);
            && Responders(fixed) == {HopAddress(ttl)} && AnyAnswered(fixed)
            && Responders(canary) == (if canary == [] then {} else {HopAddress(ttl)})
            && (AnySilent(fixed + canary) <==> ttl == 7 || ttl == 9)
            && Profile(fixed) == {}
  {
    hide Samples, Canaried, Baselined;
    var log := LogOf(Canaried(main, drawn));
    var fixed, canary := Samples(log, BaselineFixed, ttl), Samples(log, CanaryVaried, ttl);
    var first, second := ProbeSpec(ttl, main, BaselineFixed, 1, 32, 0), ProbeSpec(ttl, main, BaselineFixed, 2, 32, 0);
    InCanaried(main, drawn, first);
    InCanaried(main, drawn, second);
    SamplesAt(main, drawn, BaselineFixed, ttl, Seen(first));
    SamplesAt(main, drawn, BaselineFixed, ttl, Seen(second));
    assert Seen(first) in fixed && Seen(second) in fixed;
    forall o | o in fixed ensures o == Seen(first) || o == Seen(second) {
      SamplesAt(main, drawn, BaselineFixed, ttl, o);
      InCanaried(main, drawn, o.spec);
    }
    forall o | o in canary ensures o.reply.responder == Some(HopAddress(ttl)) && o.Answered() {
      SamplesAt(main, drawn, CanaryVaried, ttl, o);
      InCanaried(main, drawn, o.spec);
    }
    assert Seen(first).reply.responder == Some(HopAddress(ttl));
    assert canary != [] ==> canary[0] in canary;
    if ttl == 7 || ttl == 9 {
      assert Seen(second) in fixed + canary && !Seen(second).Answered();
    }
    assert forall o :: o in fixed + canary <==> o in fixed || o in canary;
  }

  lemma {:induction false} NoProfileBelow(main: FlowKey, drawn: FlowKey, ttl: nat)
    requires ttl <= 17
    ensures ProfileBelow(LogOf(Canaried(main, drawn)), ttl) == {}
  {
    hide Samples, Profile, AnyAnswered, Canaried, LogOf;
    if ttl <= 1 {
    } else {
      AnswersAt(main, drawn, ttl - 1);
    }
  }

  /** One responder on every flow: only silence can be suspicious. */
  lemma OneResponder(family: Family, fixed: Log, canary: Log, address: Ipv4Address)
    requires family in EVIDENCE_FAMILIES && !family.HeaderMutation?
    requires Responders(fixed) == {address} && AnyAnswered(fixed)
    requires Responders(canary) == if canary == [] then {} else {address}
    ensures Triggers(family, fixed, canary) <==> family.VisibilityIntermittent? && AnySilent(fixed + canary)
  {
    hide Responders;
    var o :| o in fixed && o.Answered();
    assert o in fixed + canary;
    assert AnyAnswered(fixed + canary) && fixed != [];
  }

  /** Only intermittence is suspected, at TTLs 7 and 9. */
  lemma SuspectedAt(main: FlowKey, drawn: FlowKey, family: Family, ttl: nat)
    requires family in EVIDENCE_FAMILIES && 1 <= ttl <= 16
    ensures Suspicious(LogOf(Canaried(main, drawn)), family, ttl)
       <==> family.VisibilityIntermittent? && (ttl == 7 || ttl == 9)
  {
    AnswersAt(main, drawn, ttl);
    NoProfileBelow(main, drawn, ttl);
    hide Samples, Profile, Responders, AnyAnswered, AnySilent, LogOf, Canaried, Triggers;
    var log := LogOf(Canaried(main, drawn));
    if !family.HeaderMutation? {
      OneResponder(family, Samples(log, BaselineFixed, ttl), Samples(log, CanaryVaried, ttl), HopAddress(ttl));
    }
  }

  lemma MarkedAre(main: FlowKey, drawn: FlowKey, family: Family)
    requires family in EVIDENCE_FAMILIES
    ensures Marked(LogOf(Canaried(main, drawn)), 16, family)
         == if family.VisibilityIntermittent? then {7, 9} else {}
  {
    hide Suspicious, Canaried, LogOf;
    forall ttl: nat
      ensures ttl in Marked(LogOf(Canaried(main, drawn)), 16, family)
         <==> family.VisibilityIntermittent? && (ttl == 7 || ttl == 9)
    {
      if 1 <= ttl <= 16 {
        SuspectedAt(main, drawn, family, ttl);
      }
    }
  }

  lemma LeftAndRight()
    ensures LEFT == Region(6, 8, Range(6, 8), [IntermittentVisibility], true, VisibilityIntermittent)
    ensures RIGHT == Region(8, 10, Range(8, 10), [IntermittentVisibility], true, VisibilityIntermittent)
  {
  }

  lemma RunsOfMarked(marked: set<nat>, intermittent: bool, run: Run)
    requires marked == (if intermittent then {7, 9} else {}) && MaximalRun(marked, run)
    ensures intermittent && (run == Run(7, 7) || run == Run(9, 9))
  {
    assert 8 !in marked && 10 !in marked;
    assert run.first in marked;
  }

  /** The regions are the two windows. */
  lemma Detected(main: FlowKey, drawn: FlowKey, regions: seq<Region>)
    requires FoundRegions(LogOf(Canaried(main, drawn)), 16, regions)
    ensures forall r :: r in regions <==> r == LEFT || r == RIGHT
  {
    hide Marked, Regions.Window, Canaried, LogOf, MaximalRun;
    var log := LogOf(Canaried(main, drawn));
    MarkedAre(main, drawn, VisibilityIntermittent);
    SingleRuns(Marked(log, 16, VisibilityIntermittent));
    assert HasWindow(regions, VisibilityIntermittent, Run(7, 7), 16);
    assert HasWindow(regions, VisibilityIntermittent, Run(9, 9), 16);
    forall r | r in regions ensures r == LEFT || r == RIGHT {
      assert FromRun(log, 16, r);
      MarkedAre(main, drawn, r.family);
      var run :| MaximalRun(Marked(log, 16, r.family), run) && run.last <= 16 && r == Regions.Window(r.family, run, 16);
      RunsOfMarked(Marked(log, 16, r.family), r.family.VisibilityIntermittent?, run);
    }
  }

  lemma SingleRuns(marked: set<nat>)
    requires marked == {7, 9}
    ensures MaximalRun(marked, Run(7, 7)) && MaximalRun(marked, Run(9, 9))
  {
  }

  // ---------- The shared window ----------

  /** The two windows touch, so they make one cluster, and no region is left over. */
  lemma OneCluster(regions: seq<Region>, clusters: seq<seq<Region>>)
    requires forall r :: r in regions <==> r == LEFT || r == RIGHT
    requires Clustered(InOrder(regions, true), clusters)
    ensures |clusters| == 1 && (forall r :: r in clusters[0] <==> r == LEFT || r == RIGHT)
    ensures InOrder(regions, false) == []
  {
    LeftAndRight();
    hide InOrder, Linked, Flatten, LEFT, RIGHT;
    InOrderKeeps(regions, true);
    InOrderKeeps(regions, false);
    FlattenElements(clusters);
    NoElements(InOrder(regions, false));
    assert LEFT in InOrder(regions, true);
    forall i | 0 <= i < |clusters|
      ensures clusters[i] != [] && forall r :: r in clusters[i] ==> r == LEFT || r == RIGHT
    {
      assert clusters[i] in clusters;
      LinkedNotEmpty(clusters[i]);
      forall r | r in clusters[i] ensures r == LEFT || r == RIGHT {
        assert r in InOrder(regions, true);
      }
    }
    if |clusters| > 1 {
      Touching(clusters[0], clusters[1]);
    }
    forall r | r == LEFT || r == RIGHT ensures r in clusters[0] {
      assert r in InOrder(regions, true);
    }
  }

  lemma Touching(a: seq<Region>, b: seq<Region>)
    requires a != [] && b != []
    requires (forall r :: r in a ==> r == LEFT || r == RIGHT) && forall r :: r in b ==> r == LEFT || r == RIGHT
    ensures !Before(a, b)
  {
    LeftAndRight();
    hide LEFT, RIGHT;
    assert a[0] in a && b[0] in b;
  }

  lemma NoElements(regions: seq<Region>)
    ensures regions == [] <==> forall r :: r !in regions
  {
    if regions != [] {
      assert regions[0] in regions;
    }
  }

  /** The shared window is probed at TTLs 6 to 10. */
  lemma Shared(cluster: seq<Region>)
    requires cluster != [] && forall r :: r in cluster <==> r == LEFT || r == RIGHT
    ensures Aggregate(cluster).probeTtls == Range(6, 10) && Highest(cluster) == 10
  {
    LeftAndRight();
    hide LEFT, RIGHT;
    assert LEFT in cluster && RIGHT in cluster;
    RangeElements(6, 8);
    RangeElements(8, 10);
    RangeElements(6, 10);
    var high := Highest(cluster);
    forall t: nat ensures t in ClusterTtls(cluster) <==> 6 <= t <= 10 {
      if 6 <= t <= 8 {
        assert t in LEFT.probeTtls;
      } else if 8 <= t <= 10 {
        assert t in RIGHT.probeTtls;
      }
    }
    SameOrder(Ascending(ClusterTtls(cluster), 10), Range(6, 10));
  }

  /** Two ascending lists of the same numbers are the same list. */
  lemma {:induction false} SameOrder(a: seq<nat>, b: seq<nat>)
    requires StrictlyIncreasing(a) && StrictlyIncreasing(b) && forall t :: t in a <==> t in b
    ensures a == b
  {
    assert Elements(a) == Elements(b);
    NoRepeatCount(a);
    NoRepeatCount(b);
    if a == [] {
    } else {
      assert a[0] in b && b[0] in a;
      var i :| 0 <= i < |b| && b[i] == a[0];
      var j :| 0 <= j < |a| && a[j] == b[0];
      assert a[0] == b[0];
      forall t ensures t in a[1..] <==> t in b[1..] {
        assert t in a <==> t == a[0] || t in a[1..];
        assert t in b <==> t == b[0] || t in b[1..];
        assert a[0] !in a[1..] && b[0] !in b[1..];
      }
      SameOrder(a[1..], b[1..]);
    }
  }

  lemma OneMore(plan: Plan, ttls: seq<nat>, flow: FlowKey, phase: Phase, id: nat, window: set<nat>, varied: bool)
    requires Fresh(plan, id) && window != {}
    ensures |CompleteSamples(plan + Bundle(ttls, flow, phase, id, 32), window, varied)|
         == |CompleteSamples(plan, window, varied)|
            + (if window <= Elements(ttls) && varied == (flow.variant != 0) then 1 else 0)
  {
    BundleCompletes(plan, ttls, flow, phase, id, 32, window, varied);
  }

  lemma WithinSweeps(window: set<nat>)
    requires forall t :: t in window ==> 6 <= t <= 10
    ensures window <= Elements(Range(1, 16)) && window <= Elements(Range(6, 10))
    ensures Counted(window, 8) == if window <= Elements(Range(1, 8)) then 1 else 0
  {
    RangeElements(1, 16);
    RangeElements(1, 8);
    RangeElements(6, 10);
  }

  /** The complete samples of a window, bundle by bundle. */
  lemma CountsIn(main: FlowKey, drawn: FlowKey, window: set<nat>, varied: bool)
    requires main.variant == 0 && drawn.variant == 1
    requires window != {} && forall t :: t in window ==> 6 <= t <= 10
    ensures |CompleteSamples(Canaried(main, drawn), window, varied)| == if varied then Counted(window, 8) else 2
    ensures |CompleteSamples(Final(main, drawn), window, varied)| == if varied then 1 + Counted(window, 8) else 2
  {
    Freshness(main, drawn);
    WithinSweeps(window);
    NoneComplete(window, varied);
    hide CompleteSamples, Bundle, Elements, Range, Counted, Fresh;
    var first := Sweep(16, main, BaselineFixed, 1);
    assert [] + first == first;
    OneMore([], Range(1, 16), main, BaselineFixed, 1, window, varied);
    OneMore(first, Range(1, 16), main, BaselineFixed, 2, window, varied);
    OneMore(Baselined(main), Range(1, 8), drawn, CanaryVaried, 3, window, varied);
    OneMore(Canaried(main, drawn), Range(6, 10), drawn, DbpVaried, 4, window, varied);
  }

  lemma NoneComplete(window: set<nat>, varied: bool)
    ensures CompleteSamples([], window, varied) == {}
  {
  }

  lemma Freshness(main: FlowKey, drawn: FlowKey)
    ensures Fresh([], 1) && Fresh(Sweep(16, main, BaselineFixed, 1), 2) && Fresh(Baselined(main), 3)
    ensures Fresh(Canaried(main, drawn), 4)
  {
  }

  /** The window has its repeats and wants two variants; five probes are left, so variant 1 is drawn again,
      and one sample is refused. */
  lemma DrawnOnceMore(main: FlowKey, window: Region, variants: map<nat, FlowKey>, after: Stage, refused: bool)
    requires main.variant == 0 && 1 in variants && variants[1].variant == 1
    requires window.probeTtls == Range(6, 10) && window.variantCoverage
    requires SampledAt(CONFIG, main, window, variants, Stage(Canaried(main, variants[1]), 4), after, refused)
    ensures refused && after.plan == Final(main, variants[1])
  {
    hide CompleteSamples, Bundle, Canaried, Series, Elements;
    Needed();
    Unnumbered(main, variants[1]);
    var plan := Canaried(main, variants[1]);
    RangeCounts(main, variants[1]);
    assert Missing(plan, window.probeTtls, false, 2) == 0 && Missing(plan, window.probeTtls, true, 2) == 2;
    assert Affordable(0, 5, 5) == 0 && Affordable(2, 5, 5) == 1;
    NoRepeats(window.probeTtls, main);
    assert plan + [] == plan;
    assert CachedFlows(variants, 1, 1) == [variants[1]];
    SingleSeries(window.probeTtls, variants[1], DbpVaried, 4, 32);
  }

  lemma NoRepeats(ttls: seq<nat>, main: FlowKey)
    ensures Series(ttls, Copies(main, 0), DbpFixed, 4, 32) == []
  {
  }

  lemma RangeCounts(main: FlowKey, drawn: FlowKey)
    requires main.variant == 0 && drawn.variant == 1
    ensures |CompleteSamples(Canaried(main, drawn), Elements(Range(6, 10)), false)| == 2
    ensures |CompleteSamples(Canaried(main, drawn), Elements(Range(6, 10)), true)| == 0
  {
    hide CompleteSamples, Canaried;
    RangeElements(6, 10);
    var window := Elements(Range(6, 10));
    assert forall t :: t in window <==> t in Range(6, 10);
    assert 9 in window && Counted(window, 8) == 0;
    CountsIn(main, drawn, window, false);
    CountsIn(main, drawn, window, true);
  }

  // ---------- Every run ----------

  lemma MainAndVariant(main: FlowKey, variants: map<nat, FlowKey>, used: set<nat>)
    requires MainFlowOf(CONFIG, main) && Cache(main, variants, used)
    ensures main.variant == 0 && (1 in variants ==> variants[1].variant == 1)
  {
  }

  lemma RunAccounts(t: TraceResult, h: History)
    requires RunOf(CONFIG, t, h)
    ensures MainFlowOf(CONFIG, h.main) && Cache(h.main, h.variants, h.used) && |t.observations| <= 45
    ensures h.baseline <= t.observations && h.firstCanary == |h.rounds| + 1
  {
    hide Probed, Unrefused, Reported, MainFlowOf, Cache, Accounted, SweepProbes, LegalLog, BaselineOf, SampledInTurn,
         Clustered, Windows;
    SweptBaseline(CONFIG, t, h);
  }

  /** The baseline of every run. */
  lemma BaselineSent(t: TraceResult, h: History)
    requires RunOf(CONFIG, t, h) && FromNetwork(NETWORK, t.observations)
    ensures h.warned == [] && h.firstCanary == 3 && h.baseline == LogOf(Baselined(h.main))
    ensures PlanOf(h.baseline) == Baselined(h.main) && BaselineAnswered(h.baseline) && h.limit == 16
  {
    hide RunOf, BaselineOf, FromNetwork, Baselined, SampledInTurn, Windows, FirstTerminalTtl, LastObservedTtl;
    RunSteps(CONFIG, t, h);
    RunAccounts(t, h);
    RoundsSent(h.main, h.rounds, h.warned, t.observations);
    PrefixOfNetwork(h.baseline, t.observations);
    LogIs(h.baseline);
    Answering(h.main, Baselined(h.main));
    LimitIs(CONFIG, t, h);
  }

  /** The canary of every run. */
  lemma CanarySent(t: TraceResult, h: History)
    requires RunOf(CONFIG, t, h) && FromNetwork(NETWORK, t.observations)
    ensures h.whole == 0 && h.part == 8 && 1 in h.variants && h.swept == LogOf(Canaried(h.main, h.variants[1]))
    ensures PlanOf(h.swept) == Canaried(h.main, h.variants[1])
    ensures h.main.variant == 0 && h.variants[1].variant == 1
  {
    hide RunOf, FromNetwork, Baselined, Canaried, Canaries, LogOf, PlanOf, BaselineAnswered;
    BaselineSent(t, h);
    RunAccounts(t, h);
    RunCanaries(CONFIG, t, h);
    assert |PlanOf(h.swept)| <= 45;
    CanaryIsCut(h.main, h.variants, PlanOf(h.swept), h.whole, h.part);
    PrefixOfNetwork(h.swept, t.observations);
    LogIs(h.swept);
    MainAndVariant(h.main, h.variants, h.used);
  }

  /** The regions of every run, and the cluster they make. */
  lemma RegionsFound(t: TraceResult, h: History)
    requires RunOf(CONFIG, t, h) && FromNetwork(NETWORK, t.observations)
    ensures forall r :: r in h.regions <==> r == LEFT || r == RIGHT
    ensures |h.clusters| == 1 && (forall r :: r in h.clusters[0] <==> r == LEFT || r == RIGHT)
    ensures InOrder(h.regions, false) == []
  {
    hide RunOf, FromNetwork, Canaried, LogOf, BaselineAnswered, FoundRegions, BaselineOf, SampledInTurn, Windows,
         InOrder, Clustered, LEFT, RIGHT;
    BaselineSent(t, h);
    CanarySent(t, h);
    FoundAreProbed(CONFIG, t, h);
    Detected(h.main, h.variants[1], h.regions);
    RunSteps(CONFIG, t, h);
    OneCluster(h.regions, h.clusters);
  }

  lemma OneWindowOnly(regions: seq<Region>, clusters: seq<seq<Region>>)
    requires |clusters| == 1 && clusters[0] != [] && InOrder(regions, false) == []
    ensures (forall c :: c in clusters ==> c != []) && Windows(regions, clusters) == [Aggregate(clusters[0])]
  {
    assert forall c :: c in clusters ==> c == clusters[0];
  }

  lemma FirstStage(t: TraceResult, h: History)
    requires RunOf(CONFIG, t, h)
    ensures |h.stages| > 0 && h.stages[0] == Stage(PlanOf(h.swept), FirstWindowId(CONFIG, h))
  {
    hide Accounts, Probed, Unrefused, Reported, BaselineOf, SampledAt, Windows, Clustered, FirstWindowId;
  }

  /** The probes and the refusals of every run. */
  lemma ProbesSent(t: TraceResult, h: History)
    requires RunOf(CONFIG, t, h) && FromNetwork(NETWORK, t.observations)
    ensures 1 in h.variants && PlanOf(t.observations) == Final(h.main, h.variants[1]) && h.refusals == [true]
    ensures t.observations == LogOf(Final(h.main, h.variants[1]))
  {
    hide RunOf, FromNetwork, Canaried, Final, LogOf, PlanOf, BaselineAnswered, SampledAt, Windows, Aggregate, InOrder,
         LEFT, RIGHT, BaselineOf, Clustered;
    BaselineSent(t, h);
    CanarySent(t, h);
    RegionsFound(t, h);
    RunSteps(CONFIG, t, h);
    FirstStage(t, h);
    var cluster := h.clusters[0];
    assert LEFT in cluster;
    OneWindowOnly(h.regions, h.clusters);
    Shared(cluster);
    AggregateShape(cluster);
    assert SampledAt(CONFIG, h.main, Aggregate(cluster), h.variants, h.stages[0], h.stages[1], h.refusals[0]);
    DrawnOnceMore(h.main, Aggregate(cluster), h.variants, h.stages[1], h.refusals[0]);
    LogIs(t.observations);
  }

  lemma Certified(main: FlowKey, drawn: FlowKey)
    requires main.variant == 0 && drawn.variant == 1
    ensures CONFIG.Valid()
    ensures var certificate := CertificateOf(LEFT, LogOf(Final(main, drawn)), CONFIG);
            certificate.certified && certificate.sampleCount == 2 && certificate.basis.FlowVariantCoverage?
  {
    hide CompleteSamples, LogOf, PlanOf, SampleSignatures, InWindow, Regions.Window, Final, MissProbabilityBound;
    Needed();
    LeftAndRight();
    PlanOfFinal(main, drawn);
    RangeElements(6, 8);
    var window := Elements(LEFT.probeTtls);
    assert forall t :: t in window <==> t in Range(6, 8);
    assert 6 in window && Counted(window, 8) == 1;
    CountsIn(main, drawn, window, true);
    CountsIn(main, drawn, window, false);
    CertifiedByCounts(LEFT, LogOf(Final(main, drawn)), CONFIG);
    SignaturesCountCompleteSamples(LogOf(Final(main, drawn)), LEFT.probeTtls, true);
  }

  lemma PlanOfFinal(main: FlowKey, drawn: FlowKey)
    ensures PlanOf(LogOf(Final(main, drawn))) == Final(main, drawn)
  {
    Unnumbered(main, drawn);
    hide Final;
  }

  lemma DrawsAgain(main: FlowKey, drawn: FlowKey)
    ensures Drew(Final(main, drawn), Range(6, 10))
  {
    Unnumbered(main, drawn);
    assert Final(main, drawn)[40].ttl == Range(6, 10)[0];
  }

  lemma LeftTtls()
    ensures Elements(LEFT.probeTtls) == {6, 7, 8}
  {
    LeftAndRight();
    RangeElements(6, 8);
    assert forall k :: k in Elements(LEFT.probeTtls) <==> k in Range(6, 8);
  }

  /** The token is counted twice. */
  lemma TokenRepeated(t: TraceResult, h: History, s: Segment)
    requires RunOf(CONFIG, t, h) && FromNetwork(NETWORK, t.observations) && s.first == 6 && s.last == 8
    ensures RepeatsToken(PlanOf(t.observations), {6, 7, 8}) && AcrossTheCut(t, h, s)
  {
    hide RunOf, FromNetwork, LogOf, PlanOf, Aggregate, Highest, Final, Canaried, LEFT, RIGHT, Drew, RepeatsToken,
         InOrder;
    LeftAndRight();
    CanarySent(t, h);
    RegionsFound(t, h);
    ProbesSent(t, h);
    var cluster := h.clusters[0];
    assert LEFT in cluster && cluster in h.clusters;
    Shared(cluster);
    DrawsAgain(h.main, h.variants[1]);
    LeftTtls();
    TokensRepeatExactly(CONFIG, t, h, LEFT, cluster);
    assert SampledWith(h, LEFT, cluster) && CutInside(t, h, cluster, 8);
  }

  /** One warning for the canary's second chunk and one for the second draw. */
  lemma WarnedTwice(t: TraceResult, h: History)
    requires RunOf(CONFIG, t, h) && FromNetwork(NETWORK, t.observations)
    ensures t.warnings == [BudgetExhausted, BudgetExhausted]
  {
    hide RunOf, FromNetwork, LogOf, PlanOf, Final, Canaried, Baselined, LEFT, RIGHT, FirstTerminalTtl, InOrder,
         BaselineOf, SampledInTurn, Windows, BaselineAnswered;
    BaselineSent(t, h);
    CanarySent(t, h);
    RegionsFound(t, h);
    ProbesSent(t, h);
    RunSteps(CONFIG, t, h);
    assert LEFT in h.regions;
    OneRefusal();
    TerminalSeen(t, h);
  }

  lemma OneRefusal()
    ensures Refusals([true]) == [BudgetExhausted]
  {
    assert [true][..0] == [];
  }

  lemma TerminalSeen(t: TraceResult, h: History)
    requires RunOf(CONFIG, t, h) && FromNetwork(NETWORK, t.observations)
    ensures t.terminalTtl.Some?
  {
    hide RunOf, FromNetwork, FirstTerminalTtl;
    BaselineSent(t, h);
    HopsReachLimit(CONFIG, t, h);
    RunAccounts(t, h);
    Answering(h.main, Baselined(h.main));
    TerminalComesDown(h.baseline, t.observations, h.main);
  }

  /** Every run with these settings on this network certifies the segment 6..8 on two samples of one
      token, whichever ports it draws. */
  lemma EveryRunRepeats(t: TraceResult, h: History) returns (s: Segment)
    requires RunOf(CONFIG, t, h) && FromNetwork(NETWORK, t.observations)
    ensures s in t.segments && s.first == 6 && s.last == 8
    ensures s.certificate.basis.FlowVariantCoverage? && s.certificate.certified && s.certificate.sampleCount == 2
    ensures RepeatsToken(PlanOf(t.observations), {6, 7, 8}) && AcrossTheCut(t, h, s)
    ensures h.part == 8 && t.warnings == [BudgetExhausted, BudgetExhausted]
  {
    hide RunOf, FromNetwork, LogOf, Classify, Final, LEFT, RIGHT, RepeatsToken, CertificateOf, AcrossTheCut, PlanOf;
    CanarySent(t, h);
    RegionsFound(t, h);
    ProbesSent(t, h);
    LeftAndRight();
    s := ClaimFor(CONFIG, t, h, LEFT);
    Certified(h.main, h.variants[1]);
    TokenRepeated(t, h, s);
    WarnedTwice(t, h);
  }

  /** The controller itself, with these settings on this network. */
  method Trace() returns (t: TraceResult, ghost h: History, ghost s: Segment)
    ensures RunOf(CONFIG, t, h) && FromNetwork(NETWORK, t.observations)
    ensures s in t.segments && s.first == 6 && s.last == 8
    ensures s.certificate.basis.FlowVariantCoverage? && s.certificate.certified && s.certificate.sampleCount == 2
    ensures RepeatsToken(PlanOf(t.observations), {6, 7, 8})
  {
    hide RunOf, FromNetwork, RepeatsToken;
    Needed();
    var controller := new TraceController(CONFIG, NETWORK);
    t, h := controller.Run();
    s := EveryRunRepeats(t, h);
  }
}
