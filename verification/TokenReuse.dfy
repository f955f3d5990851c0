/** When two complete samples of a window are on the same flow token: never while every canary was
    sent whole, and after a canary cut short by the budget exactly across the cut. */
module TokenReuse {
  import opened Coverage
  import opened Drawing
  import opened Evidence
  import opened Ledgers
  import opened Model
  import opened Sampling
  import opened Sequences
  import opened Settings
  import opened Sweeps
  import opened Tokens

  // ---------- Canaries in the log ----------

  /** A canary probed this TTL with this variant. */
  ghost predicate CanaryAt(plan: Plan, variant: nat, ttl: nat) {
    exists i :: 0 <= i < |plan| && plan[i].phase.CanaryVaried? && plan[i].flow.variant == variant && plan[i].ttl == ttl
  }

  /** Every canary asked for probed every TTL up to the limit. */
  ghost predicate CanariesSent(plan: Plan, canaryFlows: nat, limit: nat) {
    forall variant, ttl :: 1 <= variant <= canaryFlows && 1 <= ttl <= limit ==> CanaryAt(plan, variant, ttl)
  }

  /** The canaries of a plan are whole sweeps of the variants 1..whole, numbered in order, and one of
      the next variant cut off after `part` TTLs. */
  ghost predicate CanaryLaw(plan: Plan, firstId: nat, whole: nat, part: nat, limit: nat) {
    && (forall i :: 0 <= i < |plan| && plan[i].phase.CanaryVaried? ==>
          CanaryProbe(plan[i], firstId, whole, part, limit))
    && forall variant, ttl :: SweptByCanary(variant, ttl, whole, part, limit) ==> CanaryAt(plan, variant, ttl)
  }

  ghost predicate SweptByCanary(variant: nat, ttl: nat, whole: nat, part: nat, limit: nat) {
    1 <= variant <= whole + 1 && 1 <= ttl <= if variant <= whole then limit else part
  }

  ghost predicate CanaryProbe(spec: ProbeSpec, firstId: nat, whole: nat, part: nat, limit: nat) {
    SweptByCanary(spec.flow.variant, spec.ttl, whole, part, limit) && spec.sampleId + 1 == firstId + spec.flow.variant
  }

  /** What the sweep of the canaries added follows the law. */
  lemma CanariesFollowLaw(config: TraceConfig, limit: nat, plan: Plan, firstId: nat, main: FlowKey,
                          variants: map<nat, FlowKey>, grown: Plan, whole: nat, part: nat)
    requires OnlyBaseline(plan, main) && main.variant == 0 && Cached(variants)
    requires Canaries(config, limit, plan, firstId, variants, grown, whole, part)
    ensures CanaryLaw(grown, firstId, whole, part, limit)
  {
    hide Series, Bundle, OnlyBaseline, Cached, CanaryProbe;
    var flows := CachedFlows(variants, 1, whole);
    var series := Series(Range(1, limit), flows, CanaryVaried, firstId, config.payloadSize);
    var cut := grown[|plan| + |series|..];
    assert grown == plan + series + cut;
    forall s: ProbeSpec | s in series ensures CanaryProbe(s, firstId, whole, part, limit) {
      WholeCanaryProbe(variants, whole, part, limit, firstId, config.payloadSize, s);
    }
    forall s: ProbeSpec | s in cut ensures s.phase.CanaryVaried? && CanaryProbe(s, firstId, whole, part, limit) {
      CutCanaryProbe(variants[whole + 1], variants, whole, part, limit, firstId, config.payloadSize, s);
    }
    forall i | 0 <= i < |grown| && grown[i].phase.CanaryVaried?
      ensures CanaryProbe(grown[i], firstId, whole, part, limit)
    {
      BaselineHasNoCanary(plan, main, i);
      assert i >= |plan|;
      assert grown[i] in series || grown[i] in cut;
    }
    forall variant: nat, ttl: nat | SweptByCanary(variant, ttl, whole, part, limit)
      ensures CanaryAt(grown, variant, ttl)
    {
      if variant <= whole {
        WholeCanaryAt(variants, whole, limit, firstId, config.payloadSize, variant, ttl, part);
        CanaryAtGrows(plan, series, cut, variant, ttl);
      } else {
        CutCanaryAt(variants, whole, part, limit, firstId, config.payloadSize, variant, ttl);
        assert cut == Bundle(Range(1, part), variants[whole + 1], CanaryVaried, firstId + whole, config.payloadSize);
        CanaryAtGrows(plan + series, cut, [], variant, ttl);
        assert plan + series + cut + [] == grown;
      }
    }
  }

  lemma BaselineHasNoCanary(plan: Plan, main: FlowKey, i: nat)
    requires OnlyBaseline(plan, main)
    ensures i < |plan| ==> !plan[i].phase.CanaryVaried?
  {
  }

  lemma CanaryAtGrows(plan: Plan, middle: Plan, more: Plan, variant: nat, ttl: nat)
    requires CanaryAt(middle, variant, ttl)
    ensures CanaryAt(plan + middle + more, variant, ttl)
  {
    var whole := plan + middle + more;
    var i :| 0 <= i < |middle| && middle[i].phase.CanaryVaried? && middle[i].flow.variant == variant
        && middle[i].ttl == ttl;
    assert whole[|plan| + i] == middle[i];
  }

  lemma WholeCanaryProbe(variants: map<nat, FlowKey>, whole: nat, part: nat, limit: nat, firstId: nat, payloadSize: nat,
                         spec: ProbeSpec)
    requires Cached(variants) && AllCached(variants, 1, whole)
    requires spec in Series(Range(1, limit), CachedFlows(variants, 1, whole), CanaryVaried, firstId, payloadSize)
    ensures CanaryProbe(spec, firstId, whole, part, limit)
  {
    hide Series;
    SeriesSpecs(Range(1, limit), CachedFlows(variants, 1, whole), CanaryVaried, firstId, payloadSize);
    RangeElements(1, limit);
    assert spec.flow == variants[1 + spec.sampleId - firstId];
  }

  lemma CutCanaryProbe(flow: FlowKey, variants: map<nat, FlowKey>, whole: nat, part: nat, limit: nat, firstId: nat,
                       payloadSize: nat, spec: ProbeSpec)
    requires Cached(variants) && whole + 1 in variants && flow == variants[whole + 1]
    requires spec in Bundle(Range(1, part), flow, CanaryVaried, firstId + whole, payloadSize)
    ensures spec.phase.CanaryVaried? && CanaryProbe(spec, firstId, whole, part, limit)
  {
    RangeElements(1, part);
  }

  lemma WholeCanaryAt(variants: map<nat, FlowKey>, whole: nat, limit: nat, firstId: nat, payloadSize: nat,
                      variant: nat, ttl: nat, part: nat)
    requires Cached(variants) && AllCached(variants, 1, whole)
    requires SweptByCanary(variant, ttl, whole, part, limit) && variant <= whole
    ensures CanaryAt(Series(Range(1, limit), CachedFlows(variants, 1, whole), CanaryVaried, firstId, payloadSize),
                     variant, ttl)
  {
    hide Series;
    RangeElements(1, limit);
    var j := SeriesPosition(Range(1, limit), CachedFlows(variants, 1, whole), CanaryVaried, firstId, payloadSize, ttl,
                            variant - 1);
    assert variants[variant].variant == variant;
  }

  lemma CutCanaryAt(variants: map<nat, FlowKey>, whole: nat, part: nat, limit: nat, firstId: nat, payloadSize: nat,
                    variant: nat, ttl: nat)
    requires Cached(variants) && whole + 1 in variants
    requires SweptByCanary(variant, ttl, whole, part, limit) && variant == whole + 1
    ensures CanaryAt(Bundle(Range(1, part), variants[whole + 1], CanaryVaried, firstId + whole, payloadSize), variant,
                     ttl)
  {
    var bundle := Bundle(Range(1, part), variants[whole + 1], CanaryVaried, firstId + whole, payloadSize);
    assert bundle[ttl - 1].ttl == ttl && bundle[ttl - 1].flow.variant == variant;
  }

  /** Adaptive probes and repeats leave the law as it is. */
  lemma LawPersists(plan: Plan, grown: Plan, firstId: nat, whole: nat, part: nat, limit: nat)
    requires CanaryLaw(plan, firstId, whole, part, limit) && plan <= grown
    requires forall i :: |plan| <= i < |grown| ==> !grown[i].phase.CanaryVaried?
    ensures CanaryLaw(grown, firstId, whole, part, limit)
  {
    hide CanaryProbe, SweptByCanary;
    assert grown == plan + grown[|plan|..];
    assert grown == [] + plan + grown[|plan|..];
    forall variant: nat, ttl: nat | SweptByCanary(variant, ttl, whole, part, limit)
      ensures CanaryAt(grown, variant, ttl)
    {
      CanaryAtGrows([], plan, grown[|plan|..], variant, ttl);
    }
  }

  /** So all canaries were sent exactly when none was cut short. */
  lemma SentIffWhole(plan: Plan, firstId: nat, whole: nat, part: nat, limit: nat, canaryFlows: nat)
    requires CanaryLaw(plan, firstId, whole, part, limit) && limit >= 1 && whole <= canaryFlows
    requires whole < canaryFlows ==> part < limit
    ensures CanariesSent(plan, canaryFlows, limit) <==> whole == canaryFlows
  {
    hide CanaryAt;
    if whole == canaryFlows {
      forall variant, ttl | 1 <= variant <= canaryFlows && 1 <= ttl <= limit ensures CanaryAt(plan, variant, ttl) {
        assert SweptByCanary(variant, ttl, whole, part, limit);
      }
    } else if CanariesSent(plan, canaryFlows, limit) {
      assert CanaryAt(plan, whole + 1, limit);
      CanaryIsSwept(plan, firstId, whole, part, limit, whole + 1, limit);
      assert false;
    }
  }

  lemma CanaryIsSwept(plan: Plan, firstId: nat, whole: nat, part: nat, limit: nat, variant: nat, ttl: nat)
    requires CanaryLaw(plan, firstId, whole, part, limit)
    ensures CanaryAt(plan, variant, ttl) <==> SweptByCanary(variant, ttl, whole, part, limit)
  {
    hide SweptByCanary;
    if CanaryAt(plan, variant, ttl) {
      var i :| 0 <= i < |plan| && plan[i].phase.CanaryVaried? && plan[i].flow.variant == variant && plan[i].ttl == ttl;
      assert CanaryProbe(plan[i], firstId, whole, part, limit);
    }
  }

  // ---------- Tokens of complete samples ----------

  /** A varied sample of the log and its flow token. */
  ghost predicate SampleToken(plan: Plan, id: nat, token: nat) {
    exists i :: 0 <= i < |plan| && Varied(plan[i]) && plan[i].sampleId == id && plan[i].flow.Token() == token
  }

  /** Two different complete samples of the window are on this token. */
  ghost predicate SharedToken(plan: Plan, window: set<nat>, a: nat, b: nat, token: nat) {
    && a != b && a in CompleteSamples(plan, window, true) && b in CompleteSamples(plan, window, true)
    && SampleToken(plan, a, token) && SampleToken(plan, b, token)
  }

  /** A certificate on this window counts some token twice. */
  ghost predicate RepeatsToken(plan: Plan, window: set<nat>) {
    exists a, b, token :: SharedToken(plan, window, a, b, token)
  }

  /** Some variant was drawn on the window. */
  ghost predicate Drew(plan: Plan, ttls: seq<nat>) {
    exists i :: 0 <= i < |plan| && Adaptive(plan[i]) && plan[i].ttl in ttls
  }

  predicate BelowCut(ttls: seq<nat>, part: nat) {
    forall t :: t in ttls ==> t <= part
  }

  /** What the log of a run says of its varied samples: they are accounted for, on cached flows, the
      canaries by their law and the draws without replacement. */
  ghost predicate VariedSamples(plan: Plan, main: FlowKey, variants: map<nat, FlowKey>, used: set<nat>,
                                nextSampleId: nat, maxTtl: nat, firstId: nat, whole: nat, part: nat, limit: nat) {
    && Accounted(plan, main, variants, nextSampleId, maxTtl) && Cache(main, variants, used)
    && NoTokenReuse(plan) && CanaryLaw(plan, firstId, whole, part, limit)
  }

  /** The probe of a complete sample at a TTL of its window, and its token. */
  lemma ProbeOfSample(plan: Plan, main: FlowKey, variants: map<nat, FlowKey>, nextSampleId: nat, maxTtl: nat,
                      window: set<nat>, id: nat, token: nat, ttl: nat)
    returns (i: nat)
    requires Accounted(plan, main, variants, nextSampleId, maxTtl)
    requires id in CompleteSamples(plan, window, true) && SampleToken(plan, id, token) && ttl in window
    ensures i < |plan| && plan[i].sampleId == id && plan[i].ttl == ttl && plan[i].flow.Token() == token
    ensures plan[i].phase.CanaryVaried? || Adaptive(plan[i])
    ensures plan[i].flow.variant in variants && plan[i].flow == variants[plan[i].flow.variant]
  {
    var k :| 0 <= k < |plan| && Varied(plan[k]) && plan[k].sampleId == id && plan[k].flow.Token() == token;
    assert ttl in TtlsOf(plan, true, id);
    i :| 0 <= i < |plan| && Varied(plan[i]) && plan[i].sampleId == id && plan[i].ttl == ttl;
    assert i < k ==> plan[i].flow == plan[k].flow;
    assert k < i ==> plan[k].flow == plan[i].flow;
    assert RightFlow(plan[i], main, variants);
  }

  /** One token, one variant. */
  lemma SameVariant(main: FlowKey, variants: map<nat, FlowKey>, used: set<nat>, v: nat, w: nat)
    requires Cache(main, variants, used) && v in variants && w in variants
    requires variants[v].Token() == variants[w].Token()
    ensures v == w
  {
  }

  /** A canary that shares its token with a drawn sample is the one cut short, it lies below the cut,
      and the window the draw was made for reaches past it. */
  lemma SharedWithCanary(plan: Plan, ttls: seq<nat>, shared: seq<nat>, firstId: nat, whole: nat, part: nat, limit: nat,
                         canary: nat, draw: nat)
    requires CanaryLaw(plan, firstId, whole, part, limit) && canary < |plan| && draw < |plan|
    requires plan[canary].phase.CanaryVaried? && Adaptive(plan[draw])
    requires plan[canary].flow == plan[draw].flow && plan[draw].ttl in shared
    requires DrawnInOrder(plan, shared, FirstVariant(shared, whole, part))
    ensures plan[canary].flow.variant == whole + 1 && !BelowCut(shared, part) && Drew(plan, shared)
  {
    hide DrewWhole;
    assert CanaryProbe(plan[canary], firstId, whole, part, limit);
    assert plan[draw].flow.variant >= FirstVariant(shared, whole, part);
    CountedIffBelow(shared, part);
  }

  lemma CountedIffBelow(ttls: seq<nat>, part: nat)
    ensures Counted(Elements(ttls), part) == if BelowCut(ttls, part) then 1 else 0
  {
    assert forall t :: t in Elements(ttls) <==> t in ttls;
  }

  /** A complete sample of the canary cut short probed nothing above the cut. */
  lemma CutSampleIsBelow(plan: Plan, main: FlowKey, variants: map<nat, FlowKey>, nextSampleId: nat, maxTtl: nat,
                         ttls: seq<nat>, firstId: nat, whole: nat, part: nat, limit: nat, i: nat)
    requires Accounted(plan, main, variants, nextSampleId, maxTtl) && CanaryLaw(plan, firstId, whole, part, limit)
    requires i < |plan| && plan[i].phase.CanaryVaried? && plan[i].flow.variant == whole + 1
    requires plan[i].sampleId in CompleteSamples(plan, Elements(ttls), true)
    ensures BelowCut(ttls, part)
  {
    hide CanaryAt, RightFlow;
    forall t | t in ttls ensures t <= part {
      assert t in Elements(ttls);
      assert t in TtlsOf(plan, true, plan[i].sampleId);
      var k :| 0 <= k < |plan| && plan[k].sampleId == plan[i].sampleId && plan[k].ttl == t;
      assert i < k ==> plan[i].flow == plan[k].flow && plan[i].phase == plan[k].phase;
      assert k < i ==> plan[k].flow == plan[i].flow && plan[k].phase == plan[i].phase;
      assert CanaryProbe(plan[k], firstId, whole, part, limit);
    }
  }

  /** Two samples on one token: a draw and the canary cut short, across the cut. */
  lemma RepeatsOnlyAcrossCut(plan: Plan, main: FlowKey, variants: map<nat, FlowKey>, used: set<nat>, nextSampleId: nat,
                             maxTtl: nat, firstId: nat, whole: nat, part: nat, limit: nat,
                             ttls: seq<nat>, shared: seq<nat>)
    requires VariedSamples(plan, main, variants, used, nextSampleId, maxTtl, firstId, whole, part, limit)
    requires ttls != [] && (forall t :: t in ttls ==> t in shared)
    requires DrawnInOrder(plan, shared, FirstVariant(shared, whole, part))
    requires RepeatsToken(plan, Elements(ttls))
    ensures BelowCut(ttls, part) && !BelowCut(shared, part) && Drew(plan, shared)
  {
    hide Accounted, Cache, DrawnInOrder, CanaryLaw, CompleteSamples, SampleToken;
    var window, ttl := Elements(ttls), ttls[0];
    var a, b, token :| SharedToken(plan, window, a, b, token);
    var i := ProbeOfSample(plan, main, variants, nextSampleId, maxTtl, window, a, token, ttl);
    var j := ProbeOfSample(plan, main, variants, nextSampleId, maxTtl, window, b, token, ttl);
    SameVariant(main, variants, used, plan[i].flow.variant, plan[j].flow.variant);
    if plan[i].phase.CanaryVaried? && plan[j].phase.CanaryVaried? {
      SameCanary(plan, firstId, whole, part, limit, i, j);
      assert false;
    } else if plan[i].phase.CanaryVaried? {
      SharedWithCanary(plan, ttls, shared, firstId, whole, part, limit, i, j);
      CutSampleIsBelow(plan, main, variants, nextSampleId, maxTtl, ttls, firstId, whole, part, limit, i);
    } else if plan[j].phase.CanaryVaried? {
      SharedWithCanary(plan, ttls, shared, firstId, whole, part, limit, j, i);
      CutSampleIsBelow(plan, main, variants, nextSampleId, maxTtl, ttls, firstId, whole, part, limit, j);
    } else {
      DrawnOnce(plan, i, j);
      assert false;
    }
  }

  lemma SameCanary(plan: Plan, firstId: nat, whole: nat, part: nat, limit: nat, i: nat, j: nat)
    requires CanaryLaw(plan, firstId, whole, part, limit) && i < |plan| && j < |plan|
    requires plan[i].phase.CanaryVaried? && plan[j].phase.CanaryVaried? && plan[i].flow == plan[j].flow
    ensures plan[i].sampleId == plan[j].sampleId
  {
    hide SweptByCanary, CanaryAt;
    assert CanaryProbe(plan[i], firstId, whole, part, limit) && CanaryProbe(plan[j], firstId, whole, part, limit);
  }

  lemma DrawnOnce(plan: Plan, i: nat, j: nat)
    requires NoTokenReuse(plan) && i < |plan| && j < |plan| && Adaptive(plan[i]) && Adaptive(plan[j])
    requires plan[i].ttl == plan[j].ttl && plan[i].flow == plan[j].flow
    ensures i == j
  {
  }

  /** The draw that repeats the canary cut short. */
  lemma RepeatsAcrossCut(plan: Plan, main: FlowKey, variants: map<nat, FlowKey>, used: set<nat>, nextSampleId: nat,
                         maxTtl: nat, firstId: nat, whole: nat, part: nat, limit: nat,
                         ttls: seq<nat>, shared: seq<nat>)
    requires VariedSamples(plan, main, variants, used, nextSampleId, maxTtl, firstId, whole, part, limit)
    requires ttls != [] && (forall t :: t in ttls ==> t in shared && t >= 1)
    requires DrawnInOrder(plan, shared, FirstVariant(shared, whole, part))
    requires BelowCut(ttls, part) && !BelowCut(shared, part) && Drew(plan, shared)
    ensures RepeatsToken(plan, Elements(ttls))
  {
    hide Accounted, Cache, CanaryLaw, CompleteSamples, SampleToken, RightFlow, NoTokenReuse;
    CountedIffBelow(shared, part);
    var drawn :| 0 <= drawn < |plan| && Adaptive(plan[drawn]) && plan[drawn].ttl in shared;
    assert DrewWhole(plan, shared, whole + 1);
    var i :| 0 <= i < |plan| && Adaptive(plan[i]) && plan[i].flow.variant == whole + 1
             && TtlsOf(plan, true, plan[i].sampleId) == Elements(shared);
    var k := CutCanaryCompletes(plan, main, variants, nextSampleId, maxTtl, ttls, firstId, whole, part, limit);
    SampleOf(plan, main, variants, nextSampleId, maxTtl, i);
    SampleOf(plan, main, variants, nextSampleId, maxTtl, k);
    OnePhase(plan, main, variants, nextSampleId, maxTtl, i, k);
    assert ttls[0] in Elements(ttls) && Elements(ttls) <= Elements(shared);
    CompleteIffTtls(plan, Elements(ttls), true, plan[i].sampleId);
    assert SharedToken(plan, Elements(ttls), plan[k].sampleId, plan[i].sampleId, plan[i].flow.Token());
  }

  lemma CutCanaryCompletes(plan: Plan, main: FlowKey, variants: map<nat, FlowKey>, nextSampleId: nat, maxTtl: nat,
                           ttls: seq<nat>, firstId: nat, whole: nat, part: nat, limit: nat)
    returns (k: nat)
    requires Accounted(plan, main, variants, nextSampleId, maxTtl) && CanaryLaw(plan, firstId, whole, part, limit)
    requires ttls != [] && BelowCut(ttls, part) && forall t :: t in ttls ==> t >= 1
    ensures k < |plan| && plan[k].phase.CanaryVaried? && plan[k].flow.variant == whole + 1
    ensures plan[k].sampleId in CompleteSamples(plan, Elements(ttls), true)
  {
    hide CompleteSamples, Accounted;
    assert ttls[0] in ttls;
    k := CutCanaryProbes(plan, main, variants, nextSampleId, maxTtl, firstId, whole, part, limit, ttls[0]);
    forall t | t in Elements(ttls) ensures t in TtlsOf(plan, true, plan[k].sampleId) {
      var m := CutCanaryProbes(plan, main, variants, nextSampleId, maxTtl, firstId, whole, part, limit, t);
    }
    assert ttls[0] in Elements(ttls);
    CompleteIffTtls(plan, Elements(ttls), true, plan[k].sampleId);
  }

  lemma CutCanaryProbes(plan: Plan, main: FlowKey, variants: map<nat, FlowKey>, nextSampleId: nat, maxTtl: nat,
                        firstId: nat, whole: nat, part: nat, limit: nat, ttl: nat)
    returns (k: nat)
    requires Accounted(plan, main, variants, nextSampleId, maxTtl) && CanaryLaw(plan, firstId, whole, part, limit)
    requires 1 <= ttl <= part
    ensures k < |plan| && plan[k].phase.CanaryVaried? && plan[k].flow.variant == whole + 1 && plan[k].ttl == ttl
    ensures Varied(plan[k]) && plan[k].sampleId == firstId + whole
    ensures ttl in TtlsOf(plan, true, firstId + whole)
  {
    hide Accounted;
    assert SweptByCanary(whole + 1, ttl, whole, part, limit);
    assert CanaryAt(plan, whole + 1, ttl);
    k :| 0 <= k < |plan| && plan[k].phase.CanaryVaried? && plan[k].flow.variant == whole + 1 && plan[k].ttl == ttl;
    assert CanaryProbe(plan[k], firstId, whole, part, limit);
  }

  lemma SampleOf(plan: Plan, main: FlowKey, variants: map<nat, FlowKey>, nextSampleId: nat, maxTtl: nat, i: nat)
    requires Accounted(plan, main, variants, nextSampleId, maxTtl)
    requires i < |plan| && (Adaptive(plan[i]) || plan[i].phase.CanaryVaried?)
    ensures SampleToken(plan, plan[i].sampleId, plan[i].flow.Token())
    ensures plan[i].flow.variant in variants && plan[i].flow == variants[plan[i].flow.variant]
  {
    assert RightFlow(plan[i], main, variants);
  }

  lemma OnePhase(plan: Plan, main: FlowKey, variants: map<nat, FlowKey>, nextSampleId: nat, maxTtl: nat, i: nat, k: nat)
    requires Accounted(plan, main, variants, nextSampleId, maxTtl)
    requires i < |plan| && k < |plan| && plan[i].phase != plan[k].phase
    ensures plan[i].sampleId != plan[k].sampleId
  {
  }

  /** The exact condition, for any region sampled through a shared window. */
  lemma RepeatsExactlyAcrossCut(plan: Plan, main: FlowKey, variants: map<nat, FlowKey>, used: set<nat>,
                                nextSampleId: nat, maxTtl: nat, firstId: nat, whole: nat, part: nat, limit: nat,
                                ttls: seq<nat>, shared: seq<nat>)
    requires VariedSamples(plan, main, variants, used, nextSampleId, maxTtl, firstId, whole, part, limit)
    requires ttls != [] && (forall t :: t in ttls ==> t in shared && t >= 1)
    requires DrawnInOrder(plan, shared, FirstVariant(shared, whole, part))
    ensures RepeatsToken(plan, Elements(ttls))
            <==> BelowCut(ttls, part) && !BelowCut(shared, part) && Drew(plan, shared)
  {
    hide *;
    if RepeatsToken(plan, Elements(ttls)) {
      RepeatsOnlyAcrossCut(plan, main, variants, used, nextSampleId, maxTtl, firstId, whole, part, limit, ttls, shared);
    }
    if BelowCut(ttls, part) && !BelowCut(shared, part) && Drew(plan, shared) {
      RepeatsAcrossCut(plan, main, variants, used, nextSampleId, maxTtl, firstId, whole, part, limit, ttls, shared);
    }
  }
}
