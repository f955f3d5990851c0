/** Which kind a region is reported as, exactly and from the log: what its family looks for comes first,
    then one order for all, and nothing is left for UNKNOWN that shows any of it. */
module Kinds {
  import opened Evidence
  import opened Model
  import opened Regions
  import opened Segments
  import opened Sequences
  import opened Settings
  import opened Suspicion
  import opened Verdicts

  // ---------- What the log shows in a window ----------

  ghost predicate MainVaries(log: Log, ttls: seq<nat>, main: FlowKey) {
    exists t :: t in ttls && TwoMainResponders(log, t, main)
  }

  ghost predicate VariantsVary(log: Log, ttls: seq<nat>) {
    exists t :: t in ttls && TwoVariantResponders(log, t)
  }

  /** A TTL of the window was probed and never answered. */
  ghost predicate NeverAnswers(log: Log, ttls: seq<nat>) {
    exists t :: t in ttls && ProbedInVain(log, t)
  }

  /** A TTL of the window was both answered and silent. */
  ghost predicate Fickle(log: Log, ttls: seq<nat>) {
    exists a, b :: && a in log && b in log && a.spec.ttl == b.spec.ttl && a.spec.ttl in ttls
                   && a.Answered() && !b.Answered()
  }

  /** Two variant samples that cover the window show something different at a TTL of it. */
  ghost predicate SamplesDiffer(log: Log, ttls: seq<nat>) {
    exists a, b :: DifferentlyShown(log, ttls, a, b)
  }

  ghost predicate DifferentlyShown(log: Log, ttls: seq<nat>, a: Observation, b: Observation) {
    && a in log && b in log && a.spec.ttl == b.spec.ttl && a.spec.ttl in ttls && Varied(a.spec) && Varied(b.spec)
    && a.spec.sampleId in CompleteSamples(PlanOf(log), Elements(ttls), true)
    && b.spec.sampleId in CompleteSamples(PlanOf(log), Elements(ttls), true)
    && a.reply.responder != b.reply.responder
  }

  ghost predicate Unsteady(log: Log, ttls: seq<nat>) {
    Fickle(log, ttls) || SamplesDiffer(log, ttls)
  }

  /** Both ends lie on the hop list and were answered on the main flow. */
  ghost predicate EndsSeen(region: Region, log: Log, main: FlowKey, hops: nat) {
    && region.last <= hops && AnsweredOnMain(log, region.first, main) && AnsweredOnMain(log, region.last, main)
  }

  /** No sample probes a TTL twice. */
  ghost predicate ProbedOnce(log: Log) {
    forall i, j :: 0 <= i < j < |log| && log[i].spec.sampleId == log[j].spec.sampleId ==>
      log[i].spec.ttl != log[j].spec.ttl
  }

  // ---------- The findings are those facts ----------

  lemma VariationFacts(region: Region, log: Log, main: FlowKey, hops: seq<Hop>)
    requires FixedIsMain(log, main)
    ensures FindingsOf(region, log, hops).fixedVariation <==> MainVaries(log, region.probeTtls, main)
    ensures FindingsOf(region, log, hops).variedVariation <==> VariantsVary(log, region.probeTtls)
  {
    hide InWindow, AtTtl, Responders, FixedIsMain, TwoMainResponders, TwoVariantResponders, SampleSignatures,
         AlwaysMissing, VisibleBoundaries, IntermittentSomewhere, AnySilent;
    var ttls := region.probeTtls;
    forall t | t in ttls
      ensures |Responders(AtTtl(InWindow(log, ttls, false), t))| > 1 <==> TwoMainResponders(log, t, main)
      ensures |Responders(AtTtl(InWindow(log, ttls, true), t))| > 1 <==> TwoVariantResponders(log, t)
    {
      VariationIsTwoResponders(log, ttls, main, t);
      VariedExactly(log, ttls, t);
    }
  }

  lemma VariedExactly(log: Log, ttls: seq<nat>, t: nat)
    requires t in ttls
    ensures |Responders(AtTtl(InWindow(log, ttls, true), t))| > 1 <==> TwoVariantResponders(log, t)
  {
    var here := AtTtl(InWindow(log, ttls, true), t);
    if TwoVariantResponders(log, t) {
      var a, b :| && a in log && b in log && a.spec.ttl == t && b.spec.ttl == t
                  && Varied(a.spec) && Varied(b.spec)
                  && a.reply.responder.Some? && b.reply.responder.Some?
                  && a.reply.responder != b.reply.responder;
      assert a in here && b in here;
      assert a.reply.responder.value in Responders(here) && b.reply.responder.value in Responders(here);
      TwoAddresses(Responders(here));
    }
    if |Responders(here)| > 1 {
      VariedIsTwoResponders(log, ttls, t);
    }
  }

  lemma SilenceFacts(region: Region, log: Log, main: FlowKey, hops: seq<Hop>)
    requires LegalLog(log) && HopsOf(log, |hops|, main, hops) && 1 <= region.first <= region.last
    ensures FindingsOf(region, log, hops).alwaysMissing <==> NeverAnswers(log, region.probeTtls)
    ensures FindingsOf(region, log, hops).boundariesVisible <==> EndsSeen(region, log, main, |hops|)
  {
    hide FindingsOf, SummarizeHop, LegalLog, AnsweredOnMain, ProbedInVain, AlwaysMissing, InWindow;
    PrimaryIffAnswered(log, region.first, main);
    PrimaryIffAnswered(log, region.last, main);
    MissingExactly(log, region.probeTtls);
    SilentFindings(region, log, hops);
  }

  lemma FickleFacts(region: Region, log: Log, hops: seq<Hop>)
    ensures FindingsOf(region, log, hops).intermittent <==> Fickle(log, region.probeTtls)
  {
    hide SampleSignatures, ResponderVariation, AlwaysMissing, VisibleBoundaries, AnySilent, InWindow, AtTtl;
    var ttls := region.probeTtls;
    forall t | t in ttls
      ensures forall o :: o in AtTtl(InWindow(log, ttls, false) + InWindow(log, ttls, true), t)
                     <==> o in log && o.spec.ttl == t
    {
      AtWindow(log, ttls, t);
    }
    FickleSomewhere(log, ttls);
  }

  lemma FickleSomewhere(log: Log, ttls: seq<nat>)
    requires forall t :: t in ttls ==>
               forall o :: o in AtTtl(InWindow(log, ttls, false) + InWindow(log, ttls, true), t)
                      <==> o in log && o.spec.ttl == t
    ensures IntermittentSomewhere(ttls, InWindow(log, ttls, false) + InWindow(log, ttls, true)) <==> Fickle(log, ttls)
  {
    hide InWindow, AtTtl;
    var both := InWindow(log, ttls, false) + InWindow(log, ttls, true);
    if a, b :| && a in log && b in log && a.spec.ttl == b.spec.ttl && a.spec.ttl in ttls
               && a.Answered() && !b.Answered() {
      assert a in AtTtl(both, a.spec.ttl) && b in AtTtl(both, a.spec.ttl);
    }
  }

  lemma SampleFacts(region: Region, log: Log, hops: seq<Hop>)
    requires ProbedOnce(log) && region.probeTtls != []
    ensures FindingsOf(region, log, hops).severalSignatures <==> SamplesDiffer(log, region.probeTtls)
  {
    hide ResponderVariation, AlwaysMissing, VisibleBoundaries, AnySilent, InWindow, SampleSignatures,
         IntermittentSomewhere, ProbedOnce, DifferentlyShown;
    var ttls := region.probeTtls;
    var signatures := Elements(SampleSignatures(InWindow(log, ttls, true), ttls));
    TwoMembers(signatures);
    if SamplesDiffer(log, ttls) {
      var a, b :| DifferentlyShown(log, ttls, a, b);
      DifferenceSigned(log, ttls, a, b);
    }
    if |signatures| > 1 {
      var x, y :| x in signatures && y in signatures && x != y;
      var a, b := SignedDifferently(log, ttls, x, y);
    }
  }

  /** What a sample shows at a TTL is its only probe there. */
  lemma ShownIs(log: Log, ttls: seq<nat>, varied: bool, o: Observation)
    requires ProbedOnce(log) && o in log && o.spec.ttl in ttls && Varied(o.spec) == varied
    requires o.spec.sampleId in CompleteIds(InWindow(log, ttls, varied), ttls)
    ensures ShownAt(InWindow(log, ttls, varied), o.spec.sampleId, o.spec.ttl) == o.reply.responder
  {
    hide InWindow, CompleteIds, ShownAt;
    var samples, id, t := InWindow(log, ttls, varied), o.spec.sampleId, o.spec.ttl;
    var x := ShownBy(log, ttls, varied, id, t);
    OnlyProbe(log, o, x);
  }

  lemma ShownBy(log: Log, ttls: seq<nat>, varied: bool, id: nat, t: nat) returns (o: Observation)
    requires id in CompleteIds(InWindow(log, ttls, varied), ttls) && t in ttls
    ensures o in log && o.spec.ttl == t && o.spec.sampleId == id && Varied(o.spec) == varied
    ensures ShownAt(InWindow(log, ttls, varied), id, t) == o.reply.responder
  {
    var samples := InWindow(log, ttls, varied);
    assert CoversWindow(samples, id, ttls);
    ShownIsSeen(samples, id, t);
    o :| o in samples && o.spec.sampleId == id && o.spec.ttl == t && ShownAt(samples, id, t) == o.reply.responder;
  }

  lemma OnlyProbe(log: Log, a: Observation, b: Observation)
    requires ProbedOnce(log) && a in log && b in log && a.spec.sampleId == b.spec.sampleId && a.spec.ttl == b.spec.ttl
    ensures a == b
  {
    var i :| 0 <= i < |log| && log[i] == a;
    var j :| 0 <= j < |log| && log[j] == b;
  }

  lemma DifferenceSigned(log: Log, ttls: seq<nat>, a: Observation, b: Observation)
    requires ProbedOnce(log) && ttls != [] && DifferentlyShown(log, ttls, a, b)
    ensures var signatures := Elements(SampleSignatures(InWindow(log, ttls, true), ttls));
            exists x, y :: x in signatures && y in signatures && x != y
  {
    hide InWindow, CompleteIds, ShownAt, CompleteSamples, SampleSignatures, ProbedOnce;
    var samples, t := InWindow(log, ttls, true), a.spec.ttl;
    CompleteIffCovered(log, ttls, true, a.spec.sampleId);
    CompleteIffCovered(log, ttls, true, b.spec.sampleId);
    ShownIs(log, ttls, true, a);
    ShownIs(log, ttls, true, b);
    var x, y := SignatureOf(samples, a.spec.sampleId, ttls), SignatureOf(samples, b.spec.sampleId, ttls);
    SignatureIn(log, ttls, true, x);
    SignatureIn(log, ttls, true, y);
    var k :| 0 <= k < |ttls| && ttls[k] == t;
    assert x[k] != y[k];
  }

  lemma SignedDifferently(log: Log, ttls: seq<nat>, x: Signature, y: Signature)
    returns (a: Observation, b: Observation)
    requires ProbedOnce(log) && ttls != [] && x != y
    requires x in Elements(SampleSignatures(InWindow(log, ttls, true), ttls))
    requires y in Elements(SampleSignatures(InWindow(log, ttls, true), ttls))
    ensures DifferentlyShown(log, ttls, a, b)
  {
    hide InWindow, CompleteIds, ShownAt, CompleteSamples, SampleSignatures, ProbedOnce;
    var samples := InWindow(log, ttls, true);
    SignatureIn(log, ttls, true, x);
    SignatureIn(log, ttls, true, y);
    var p :| p in CompleteIds(samples, ttls) && x == SignatureOf(samples, p, ttls);
    var q :| q in CompleteIds(samples, ttls) && y == SignatureOf(samples, q, ttls);
    var k :| 0 <= k < |ttls| && x[k] != y[k];
    a := ShownBy(log, ttls, true, p, ttls[k]);
    b := ShownBy(log, ttls, true, q, ttls[k]);
    CompleteIffCovered(log, ttls, true, p);
    CompleteIffCovered(log, ttls, true, q);
  }

  // ---------- The kind ----------

  /** What the family of a region looks for was found. */
  ghost predicate FoundIts(region: Region, log: Log, main: FlowKey) {
    var ttls := region.probeTtls;
    match region.family
    case Temporal => MainVaries(log, ttls, main)
    case Multipath => VariantsVary(log, ttls)
    case HeaderMutation => Rewritten(log, ttls)
    case VisibilityFlow => Unsteady(log, ttls) || NeverAnswers(log, ttls)
    case VisibilityIntermittent => Unsteady(log, ttls) || NeverAnswers(log, ttls)
    case VisibilitySilent => Unsteady(log, ttls) || NeverAnswers(log, ttls)
    case _ => false
  }

  /** The kind a region gets for what its family looks for, if and only if that was found. Silence is OPAQUE
      between answered ends and INTERMITTENT otherwise. */
  ghost predicate OwnKind(region: Region, log: Log, main: FlowKey, hops: nat, kind: SegmentType) {
    var found, ttls := FoundIts(region, log, main), region.probeTtls;
    var bounded := NeverAnswers(log, ttls) && EndsSeen(region, log, main, hops);
    && (region.family.Temporal? ==> (kind.Unstable? <==> found))
    && (region.family.Multipath? ==> (kind.MultipathFlow? <==> found))
    && (kind.Mutable? <==> region.family.HeaderMutation? && found)
    && (region.family.VisibilitySilent? ==> (kind.Opaque? <==> bounded) && (kind.Intermittent? <==> found && !bounded))
    && (region.family.VisibilityFlow? || region.family.VisibilityIntermittent? ==>
          !kind.Opaque? && (kind.Intermittent? <==> found))
  }

  /** The kind of a region whose family found nothing of its own: the first that the log shows of several
      main-flow responders, several variant responders, silence between answered ends and unsteadiness; then
      DIRECT where one address answered everything; and UNKNOWN exactly where the log shows none of it. */
  ghost predicate OtherKind(region: Region, log: Log, main: FlowKey, hops: nat, kind: SegmentType) {
    var ttls := region.probeTtls;
    var bounded := NeverAnswers(log, ttls) && EndsSeen(region, log, main, hops);
    var varies := MainVaries(log, ttls, main) || VariantsVary(log, ttls);
    && (kind.Unstable? <==> MainVaries(log, ttls, main))
    && (kind.MultipathFlow? <==> VariantsVary(log, ttls) && !MainVaries(log, ttls, main))
    && (kind.Opaque? <==> bounded && !varies)
    && (kind.Intermittent? <==> Unsteady(log, ttls) && !bounded && !varies)
    && (kind.Direct? <==> Uniform(log, ttls))
    && (kind.Unknown? <==> !varies && !bounded && !Unsteady(log, ttls) && !Uniform(log, ttls))
  }

  lemma KindExactly(region: Region, log: Log, main: FlowKey, hops: seq<Hop>, config: TraceConfig)
    requires config.Valid() && LegalLog(log) && FixedIsMain(log, main) && ProbedOnce(log)
    requires HopsOf(log, |hops|, main, hops) && 1 <= region.first <= region.last && region.probeTtls != []
    requires MutationBoundary in region.reasons ==> region.family.HeaderMutation?
    ensures var kind := Classify(region, log, hops, config).kind;
            && OwnKind(region, log, main, |hops|, kind)
            && (!FoundIts(region, log, main) ==> OtherKind(region, log, main, |hops|, kind))
  {
    hide FindingsOf, Classify, MainVaries, VariantsVary, NeverAnswers, EndsSeen, Fickle, SamplesDiffer, Uniform,
         Rewritten, LegalLog, FixedIsMain, ProbedOnce, HopsOf;
    VariationFacts(region, log, main, hops);
    SilenceFacts(region, log, main, hops);
    FickleFacts(region, log, hops);
    SampleFacts(region, log, hops);
    MutatedExactly(region, log, hops);
    DirectExactly(region, log, hops, config);
    KindOfVerdict(region, log, hops, config);
  }

  lemma KindOfVerdict(region: Region, log: Log, hops: seq<Hop>, config: TraceConfig)
    requires config.Valid()
    ensures Classify(region, log, hops, config).kind == Verdict(region, FindingsOf(region, log, hops)).0
  {
    hide Verdict, FindingsOf, CertificateOf, MostCommon, InWindow, NearestVisible, SampleSignatures, ModalAnswers,
         AnswersWithAddress, BranchesOf, CarriesMpls, CountIf, Distinct, Ratio;
  }
}
