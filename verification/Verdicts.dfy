/** When a verdict must be given: OPAQUE for silent windows and DIRECT for uniform ones, exactly. */
module Verdicts {
  import opened Bytes
  import opened Evidence
  import opened Model
  import opened Regions
  import opened Segments
  import opened Sequences
  import opened Settings
  import opened Wrappers

  // ---------- OPAQUE ----------

  lemma MissingExactly(log: Log, ttls: seq<nat>)
    ensures AlwaysMissing(ttls, InWindow(log, ttls, false) + InWindow(log, ttls, true)) != []
       <==> exists t :: t in ttls && ProbedInVain(log, t)
  {
    var samples := InWindow(log, ttls, false) + InWindow(log, ttls, true);
    var missing := AlwaysMissing(ttls, samples);
    if missing != [] {
      assert missing[0] in missing;
      MissingProbed(log, ttls, missing[0]);
    }
    if t :| t in ttls && ProbedInVain(log, t) {
      MissingProbed(log, ttls, t);
      assert t in missing;
    }
  }

  lemma MissingProbed(log: Log, ttls: seq<nat>, t: nat)
    requires t in ttls
    ensures t in AlwaysMissing(ttls, InWindow(log, ttls, false) + InWindow(log, ttls, true)) <==> ProbedInVain(log, t)
  {
    var samples := InWindow(log, ttls, false) + InWindow(log, ttls, true);
    var here := AtTtl(samples, t);
    assert forall o :: o in here <==> o in log && o.spec.ttl == t;
    if here != [] {
      assert here[0] in here;
    }
    if ProbedInVain(log, t) {
      var o :| o in log && o.spec.ttl == t;
      assert o in here;
    }
  }

  /** A silent window is OPAQUE exactly when its ends, on the hop list, were answered on the main flow and
      some TTL probed in it never answered on any flow. */
  lemma OpaqueExactly(region: Region, log: Log, main: FlowKey, hops: seq<Hop>, config: TraceConfig)
    requires config.Valid() && LegalLog(log) && HopsOf(log, |hops|, main, hops)
    requires region.family.VisibilitySilent? && 1 <= region.first <= region.last
    ensures Classify(region, log, hops, config).kind.Opaque?
       <==> region.last <= |hops| && AnsweredOnMain(log, region.first, main) && AnsweredOnMain(log, region.last, main)
            && exists t :: t in region.probeTtls && ProbedInVain(log, t)
  {
    hide FindingsOf, CertificateOf, SummarizeHop, LegalLog, AnsweredOnMain, ProbedInVain, MostCommon, InWindow,
         NearestVisible, SampleSignatures, ModalAnswers, AnswersWithAddress, BranchesOf, CarriesMpls, CountIf, Distinct,
         AlwaysMissing;
    PrimaryIffAnswered(log, region.first, main);
    PrimaryIffAnswered(log, region.last, main);
    MissingExactly(log, region.probeTtls);
    SilentFindings(region, log, hops);
  }

  lemma SilentFindings(region: Region, log: Log, hops: seq<Hop>)
    ensures var f, ttls := FindingsOf(region, log, hops), region.probeTtls;
            && f.alwaysMissing == (AlwaysMissing(ttls, InWindow(log, ttls, false) + InWindow(log, ttls, true)) != [])
            && f.boundariesVisible == VisibleBoundaries(region, hops)
  {
    hide InWindow, AlwaysMissing, VisibleBoundaries, SampleSignatures, ResponderVariation, IntermittentSomewhere;
  }

  // ---------- DIRECT ----------

  /** Every probe at this TTL, on whatever flow, was answered by this address. */
  ghost predicate AnsweredBy(log: Log, ttl: nat, address: Ipv4Address) {
    forall o :: o in log && o.spec.ttl == ttl ==> o.Answered() && o.reply.responder == Some(address)
  }

  ghost predicate OneAnswerer(log: Log, ttl: nat) {
    exists address :: AnsweredBy(log, ttl, address)
  }

  ghost predicate Rewritten(log: Log, ttls: seq<nat>) {
    exists o :: o in log && o.spec.ttl in ttls && o.reply.mutations != []
  }

  predicate MindsRewrites(region: Region) {
    region.family.HeaderMutation? || MutationBoundary in region.reasons
  }

  /** One address answers every probe at every TTL of the window, and some sample of the main flow and
      some sample of a variant cover it. */
  ghost predicate Uniform(log: Log, ttls: seq<nat>) {
    && (forall t :: t in ttls ==> OneAnswerer(log, t))
    && CompleteSamples(PlanOf(log), Elements(ttls), false) != {}
    && CompleteSamples(PlanOf(log), Elements(ttls), true) != {}
  }

  /** What a complete sample shows at a TTL is the answer of one of its probes. */
  lemma {:induction false} ShownIsSeen(samples: Log, id: nat, ttl: nat)
    requires exists o :: o in samples && o.spec.sampleId == id && o.spec.ttl == ttl
    ensures exists o :: o in samples && o.spec.sampleId == id && o.spec.ttl == ttl
                        && ShownAt(samples, id, ttl) == o.reply.responder
  {
    var last := samples[|samples| - 1];
    if last.spec.sampleId == id && last.spec.ttl == ttl {
      assert last in samples;
    } else {
      var front := samples[..|samples| - 1];
      assert forall o :: o in samples <==> o in front || o == last;
      ShownIsSeen(front, id, ttl);
      var o :| o in front && o.spec.sampleId == id && o.spec.ttl == ttl && ShownAt(front, id, ttl) == o.reply.responder;
      assert o in samples;
    }
  }

  lemma ShownAnswer(log: Log, ttls: seq<nat>, varied: bool, id: nat, t: nat) returns (o: Observation)
    requires id in CompleteIds(InWindow(log, ttls, varied), ttls) && t in ttls
    ensures o in log && o.spec.ttl == t && Varied(o.spec) == varied
    ensures ShownAt(InWindow(log, ttls, varied), id, t) == o.reply.responder
  {
    var samples := InWindow(log, ttls, varied);
    assert CoversWindow(samples, id, ttls);
    ShownIsSeen(samples, id, t);
    o :| o in samples && o.spec.sampleId == id && o.spec.ttl == t && ShownAt(samples, id, t) == o.reply.responder;
  }

  lemma SignatureIn(log: Log, ttls: seq<nat>, varied: bool, signature: Signature)
    ensures signature in Elements(SampleSignatures(InWindow(log, ttls, varied), ttls))
       <==> exists id :: id in CompleteIds(InWindow(log, ttls, varied), ttls)
                         && signature == SignatureOf(InWindow(log, ttls, varied), id, ttls)
  {
    hide InWindow, SignatureOf, CompleteIds;
    var samples := InWindow(log, ttls, varied);
    var ids, all := CompleteIds(samples, ttls), SampleSignatures(samples, ttls);
    if signature in Elements(all) {
      var k :| 0 <= k < |all| && all[k] == signature;
      assert ids[k] in ids;
    }
    if id :| id in ids && signature == SignatureOf(samples, id, ttls) {
      var k :| 0 <= k < |ids| && ids[k] == id;
      assert all[k] == signature;
    }
  }

  /** Where one address answers everything all complete samples show the same. */
  lemma SameSignature(log: Log, ttls: seq<nat>, varied: bool, id: nat, other: bool, twin: nat)
    requires forall t :: t in ttls ==> OneAnswerer(log, t)
    requires id in CompleteIds(InWindow(log, ttls, varied), ttls)
    requires twin in CompleteIds(InWindow(log, ttls, other), ttls)
    ensures SignatureOf(InWindow(log, ttls, varied), id, ttls) == SignatureOf(InWindow(log, ttls, other), twin, ttls)
  {
    hide InWindow, CompleteIds, ShownAt;
    forall k | 0 <= k < |ttls|
      ensures ShownAt(InWindow(log, ttls, varied), id, ttls[k]) == ShownAt(InWindow(log, ttls, other), twin, ttls[k])
    {
      var a := ShownAnswer(log, ttls, varied, id, ttls[k]);
      var b := ShownAnswer(log, ttls, other, twin, ttls[k]);
      assert OneAnswerer(log, ttls[k]);
    }
  }

  lemma CompleteExists(log: Log, ttls: seq<nat>, varied: bool)
    requires ttls != []
    ensures CompleteIds(InWindow(log, ttls, varied), ttls) != []
       <==> CompleteSamples(PlanOf(log), Elements(ttls), varied) != {}
  {
    hide InWindow, CompleteIds, CompleteSamples;
    var ids := CompleteIds(InWindow(log, ttls, varied), ttls);
    if ids != [] {
      assert ids[0] in ids;
      CompleteIffCovered(log, ttls, varied, ids[0]);
    }
    if id :| id in CompleteSamples(PlanOf(log), Elements(ttls), varied) {
      CompleteIffCovered(log, ttls, varied, id);
    }
  }

  lemma AtWindow(log: Log, ttls: seq<nat>, t: nat)
    requires t in ttls
    ensures forall o, varied :: o in AtTtl(InWindow(log, ttls, varied), t)
                           <==> o in log && o.spec.ttl == t && Varied(o.spec) == varied
    ensures forall o :: o in AtTtl(InWindow(log, ttls, false) + InWindow(log, ttls, true), t)
                   <==> o in log && o.spec.ttl == t
  {
  }

  /** In a uniform window nothing but a rewrite keeps the verdict from DIRECT. */
  lemma UniformFindings(region: Region, log: Log, hops: seq<Hop>)
    requires LegalLog(log) && region.probeTtls != [] && Uniform(log, region.probeTtls)
    ensures var f := FindingsOf(region, log, hops);
            && !f.fixedVariation && !f.variedVariation && !f.severalSignatures && !f.alwaysMissing
            && !f.intermittent && f.agreed
  {
    hide InWindow, AtTtl, CompleteIds, CompleteSamples, SignatureOf, AlwaysMissing, Responders, AnySilent, AnyAnswered;
    var ttls := region.probeTtls;
    forall t | t in ttls
      ensures |Responders(AtTtl(InWindow(log, ttls, false), t))| <= 1
      ensures |Responders(AtTtl(InWindow(log, ttls, true), t))| <= 1
      ensures !AnySilent(AtTtl(InWindow(log, ttls, false) + InWindow(log, ttls, true), t))
      ensures !ProbedInVain(log, t)
    {
      UniformAt(log, ttls, t);
    }
    MissingExactly(log, ttls);
    UniformSignatures(log, ttls);
    NoneSilent(log, ttls);
  }

  lemma UniformAt(log: Log, ttls: seq<nat>, t: nat)
    requires t in ttls && OneAnswerer(log, t)
    ensures |Responders(AtTtl(InWindow(log, ttls, false), t))| <= 1
    ensures |Responders(AtTtl(InWindow(log, ttls, true), t))| <= 1
    ensures !AnySilent(AtTtl(InWindow(log, ttls, false) + InWindow(log, ttls, true), t))
    ensures !ProbedInVain(log, t)
  {
    hide InWindow, AtTtl;
    AtWindow(log, ttls, t);
    var address :| AnsweredBy(log, t, address);
    OneAddress(AtTtl(InWindow(log, ttls, false), t), address);
    OneAddress(AtTtl(InWindow(log, ttls, true), t), address);
  }

  lemma OneAddress(samples: Log, address: Ipv4Address)
    requires forall o :: o in samples ==> o.reply.responder == Some(address)
    ensures |Responders(samples)| <= 1
  {
    SubsetCount(Responders(samples), {address});
  }

  lemma UniformSignatures(log: Log, ttls: seq<nat>)
    requires ttls != [] && Uniform(log, ttls)
    ensures var fixed := Elements(SampleSignatures(InWindow(log, ttls, false), ttls));
            var varied := Elements(SampleSignatures(InWindow(log, ttls, true), ttls));
            fixed == varied && fixed != {} && |varied| == 1
    ensures InWindow(log, ttls, false) != [] && InWindow(log, ttls, true) != []
  {
    hide InWindow, CompleteIds, CompleteSamples, SignatureOf, SampleSignatures, OneAnswerer;
    CompleteExists(log, ttls, false);
    CompleteExists(log, ttls, true);
    var id := CompleteIds(InWindow(log, ttls, false), ttls)[0];
    var only := SignatureOf(InWindow(log, ttls, false), id, ttls);
    assert id in CompleteIds(InWindow(log, ttls, false), ttls);
    forall varied: bool ensures Elements(SampleSignatures(InWindow(log, ttls, varied), ttls)) == {only} {
      OnlySignature(log, ttls, varied, id, only);
    }
    WindowNotEmpty(log, ttls, false);
    WindowNotEmpty(log, ttls, true);
  }

  lemma OnlySignature(log: Log, ttls: seq<nat>, varied: bool, id: nat, only: Signature)
    requires forall t :: t in ttls ==> OneAnswerer(log, t)
    requires id in CompleteIds(InWindow(log, ttls, false), ttls)
    requires only == SignatureOf(InWindow(log, ttls, false), id, ttls)
    requires CompleteIds(InWindow(log, ttls, varied), ttls) != []
    ensures Elements(SampleSignatures(InWindow(log, ttls, varied), ttls)) == {only}
  {
    hide InWindow, CompleteIds, SignatureOf, SampleSignatures, OneAnswerer;
    var ids := CompleteIds(InWindow(log, ttls, varied), ttls);
    assert ids[0] in ids;
    SameSignature(log, ttls, false, id, varied, ids[0]);
    forall signature
      ensures signature in Elements(SampleSignatures(InWindow(log, ttls, varied), ttls)) <==> signature == only
    {
      SignatureIn(log, ttls, varied, signature);
      if twin :| twin in ids && signature == SignatureOf(InWindow(log, ttls, varied), twin, ttls) {
        SameSignature(log, ttls, false, id, varied, twin);
      }
    }
  }

  lemma WindowNotEmpty(log: Log, ttls: seq<nat>, varied: bool)
    requires ttls != [] && CompleteIds(InWindow(log, ttls, varied), ttls) != []
    ensures InWindow(log, ttls, varied) != []
  {
    var ids := CompleteIds(InWindow(log, ttls, varied), ttls);
    assert ids[0] in ids;
    assert ids[0] in SampleIds(InWindow(log, ttls, varied));
  }

  lemma NoneSilent(log: Log, ttls: seq<nat>)
    requires forall t :: t in ttls ==> OneAnswerer(log, t)
    ensures !AnySilent(InWindow(log, ttls, false) + InWindow(log, ttls, true))
  {
    forall o | o in InWindow(log, ttls, false) + InWindow(log, ttls, true) ensures o.Answered() {
      assert OneAnswerer(log, o.spec.ttl);
    }
  }

  /** Agreement makes the window uniform when neither the main flow nor the variants vary. */
  lemma AgreedIsUniform(region: Region, log: Log, hops: seq<Hop>)
    requires LegalLog(log) && region.probeTtls != []
    requires var f := FindingsOf(region, log, hops); f.agreed && !f.fixedVariation && !f.variedVariation
    ensures Uniform(log, region.probeTtls)
  {
    hide InWindow, AtTtl, CompleteIds, CompleteSamples, SignatureOf, AlwaysMissing, Responders, AnyAnswered,
         OneAnswerer, SampleSignatures, IntermittentSomewhere, VisibleBoundaries;
    var ttls := region.probeTtls;
    var fixed := Elements(SampleSignatures(InWindow(log, ttls, false), ttls));
    assert fixed == Elements(SampleSignatures(InWindow(log, ttls, true), ttls)) && fixed != {};
    var signature :| signature in fixed;
    SignatureIn(log, ttls, false, signature);
    SignatureIn(log, ttls, true, signature);
    var id :| id in CompleteIds(InWindow(log, ttls, false), ttls)
              && signature == SignatureOf(InWindow(log, ttls, false), id, ttls);
    var twin :| twin in CompleteIds(InWindow(log, ttls, true), ttls)
                && signature == SignatureOf(InWindow(log, ttls, true), twin, ttls);
    CompleteExists(log, ttls, false);
    CompleteExists(log, ttls, true);
    forall t | t in ttls ensures OneAnswerer(log, t) {
      AgreedAt(log, ttls, id, twin, t);
    }
  }

  lemma AgreedAt(log: Log, ttls: seq<nat>, id: nat, twin: nat, t: nat)
    requires LegalLog(log) && t in ttls && !AnySilent(InWindow(log, ttls, false) + InWindow(log, ttls, true))
    requires id in CompleteIds(InWindow(log, ttls, false), ttls) && twin in CompleteIds(InWindow(log, ttls, true), ttls)
    requires SignatureOf(InWindow(log, ttls, false), id, ttls) == SignatureOf(InWindow(log, ttls, true), twin, ttls)
    requires |Responders(AtTtl(InWindow(log, ttls, false), t))| <= 1
    requires |Responders(AtTtl(InWindow(log, ttls, true), t))| <= 1
    ensures OneAnswerer(log, t)
  {
    hide CompleteIds, ShownAt, AtTtl, LegalLog;
    var a := ShownAnswer(log, ttls, false, id, t);
    var b := ShownAnswer(log, ttls, true, twin, t);
    SignaturesAgreeAt(InWindow(log, ttls, false), id, InWindow(log, ttls, true), twin, ttls, t);
    AtWindow(log, ttls, t);
    AllAnswered(log, ttls);
    var address := a.reply.responder.value;
    forall o | o in log && o.spec.ttl == t ensures o.Answered() && o.reply.responder == Some(address) {
      SoleResponder(AtTtl(InWindow(log, ttls, Varied(o.spec)), t), o, if Varied(o.spec) then b else a);
    }
    assert AnsweredBy(log, t, address);
  }

  lemma SignaturesAgreeAt(one: Log, id: nat, other: Log, twin: nat, ttls: seq<nat>, t: nat)
    requires SignatureOf(one, id, ttls) == SignatureOf(other, twin, ttls) && t in ttls
    ensures ShownAt(one, id, t) == ShownAt(other, twin, t)
  {
    var k :| 0 <= k < |ttls| && ttls[k] == t;
    assert SignatureOf(one, id, ttls)[k].1 == SignatureOf(other, twin, ttls)[k].1;
  }

  lemma AllAnswered(log: Log, ttls: seq<nat>)
    requires !AnySilent(InWindow(log, ttls, false) + InWindow(log, ttls, true))
    ensures forall o :: o in log && o.spec.ttl in ttls ==> o.Answered()
  {
    forall o | o in log && o.spec.ttl in ttls ensures o.Answered() {
      assert o in InWindow(log, ttls, Varied(o.spec));
      assert o in InWindow(log, ttls, false) + InWindow(log, ttls, true);
    }
  }

  lemma SoleResponder(samples: Log, a: Observation, b: Observation)
    requires a in samples && b in samples && a.Answered() && b.Answered() && |Responders(samples)| <= 1
    ensures a.reply.responder == b.reply.responder
  {
    TwoAddresses(Responders(samples));
    assert a.reply.responder.value in Responders(samples) && b.reply.responder.value in Responders(samples);
  }

  /** A region is DIRECT exactly when its window is uniform, unless a rewrite it minds was quoted. */
  lemma DirectExactly(region: Region, log: Log, hops: seq<Hop>, config: TraceConfig)
    requires config.Valid() && LegalLog(log) && region.probeTtls != []
    ensures Classify(region, log, hops, config).kind.Direct?
       <==> Uniform(log, region.probeTtls) && !(MindsRewrites(region) && Rewritten(log, region.probeTtls))
  {
    hide FindingsOf, CertificateOf, LegalLog, Uniform, Rewritten, MostCommon, InWindow, NearestVisible,
         SampleSignatures, ModalAnswers, AnswersWithAddress, BranchesOf, CarriesMpls, CountIf, Distinct;
    MutatedExactly(region, log, hops);
    var f := FindingsOf(region, log, hops);
    if Uniform(log, region.probeTtls) {
      UniformFindings(region, log, hops);
    }
    if f.agreed && !f.fixedVariation && !f.variedVariation {
      AgreedIsUniform(region, log, hops);
    }
  }

  lemma MutatedExactly(region: Region, log: Log, hops: seq<Hop>)
    ensures FindingsOf(region, log, hops).mutated <==> Rewritten(log, region.probeTtls)
  {
    hide AlwaysMissing, VisibleBoundaries, SampleSignatures, ResponderVariation, IntermittentSomewhere, AnySilent;
    var ttls := region.probeTtls;
    assert forall o :: o in InWindow(log, ttls, false) + InWindow(log, ttls, true) <==> o in log && o.spec.ttl in ttls;
  }
}
