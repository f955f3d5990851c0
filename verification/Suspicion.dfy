/** What makes a TTL suspicious, read off the log alone, and the windows that follow from it. */
module Suspicion {
  import opened Bytes
  import opened Evidence
  import opened Model
  import opened Regions
  import opened Sequences
  import opened Wrappers

  // ---------- The evidence ----------

  predicate FixedAt(o: Observation, ttl: nat) {
    o.spec.phase.BaselineFixed? && o.spec.ttl == ttl
  }

  predicate CanaryAt(o: Observation, ttl: nat) {
    o.spec.phase.CanaryVaried? && o.spec.ttl == ttl
  }

  predicate SweepAt(o: Observation, ttl: nat) {
    FixedAt(o, ttl) || CanaryAt(o, ttl)
  }

  ghost predicate BaselineSeen(log: Log, ttl: nat) {
    exists a :: a in log && FixedAt(a, ttl) && a.Answered()
  }

  ghost predicate CanarySeen(log: Log, ttl: nat) {
    exists c :: c in log && CanaryAt(c, ttl) && c.Answered()
  }

  /** The baseline was answered, and a canary from an address no baseline probe showed. */
  ghost predicate FlowSensitive(log: Log, ttl: nat) {
    && BaselineSeen(log, ttl)
    && exists c :: && c in log && CanaryAt(c, ttl) && c.Answered()
                   && forall a :: a in log && FixedAt(a, ttl) ==> a.reply.responder != c.reply.responder
  }

  /** Both kinds of sweep probed here and only one of them was answered. */
  ghost predicate SeenByOneKind(log: Log, ttl: nat) {
    && (exists a :: a in log && FixedAt(a, ttl)) && (exists c :: c in log && CanaryAt(c, ttl))
    && (BaselineSeen(log, ttl) <==> !CanarySeen(log, ttl))
  }

  /** Some sweep probe was answered here and some was not. */
  ghost predicate ComesAndGoes(log: Log, ttl: nat) {
    && (exists a :: a in log && SweepAt(a, ttl) && a.Answered())
    && exists b :: b in log && SweepAt(b, ttl) && !b.Answered()
  }

  /** Swept here, and never answered. */
  ghost predicate SweptInVain(log: Log, ttl: nat) {
    && (exists a :: a in log && SweepAt(a, ttl))
    && forall a :: a in log && SweepAt(a, ttl) ==> !a.Answered()
  }

  /** Two baseline probes were answered from different addresses. */
  ghost predicate BaselineVaries(log: Log, ttl: nat) {
    exists a, b :: && a in log && b in log && FixedAt(a, ttl) && FixedAt(b, ttl) && a.Answered() && b.Answered()
                   && a.reply.responder != b.reply.responder
  }

  /** A baseline answer quoted this rewrite here. */
  ghost predicate Quoted(log: Log, ttl: nat, m: Mutation) {
    exists a :: a in log && FixedAt(a, ttl) && a.Answered() && m in a.reply.mutations
  }

  /** It was quoted at the nearest TTL below that answered the baseline. */
  ghost predicate QuotedBelow(log: Log, ttl: nat, m: Mutation) {
    exists j: nat :: && 1 <= j < ttl && BaselineSeen(log, j) && Quoted(log, j, m)
                     && forall i :: j < i < ttl ==> !BaselineSeen(log, i)
  }

  /** The baseline was answered, and its rewrites are not those quoted just below. */
  ghost predicate QuotesChange(log: Log, ttl: nat) {
    BaselineSeen(log, ttl) && exists m :: Quoted(log, ttl, m) != QuotedBelow(log, ttl, m)
  }

  ghost predicate Shows(log: Log, family: Family, ttl: nat) {
    match family
    case Multipath => FlowSensitive(log, ttl)
    case HeaderMutation => QuotesChange(log, ttl)
    case Temporal => BaselineVaries(log, ttl)
    case VisibilityFlow => SeenByOneKind(log, ttl)
    case VisibilityIntermittent => ComesAndGoes(log, ttl)
    case VisibilitySilent => SweptInVain(log, ttl)
    case _ => false
  }

  // ---------- Detection marks exactly what the log shows ----------

  lemma SweepSamples(log: Log, ttl: nat)
    ensures forall o :: o in Samples(log, BaselineFixed, ttl) <==> o in log && FixedAt(o, ttl)
    ensures forall o :: o in Samples(log, CanaryVaried, ttl) <==> o in log && CanaryAt(o, ttl)
  {
  }

  lemma SeenInSamples(log: Log, ttl: nat)
    ensures AnyAnswered(Samples(log, BaselineFixed, ttl)) <==> BaselineSeen(log, ttl)
    ensures AnyAnswered(Samples(log, CanaryVaried, ttl)) <==> CanarySeen(log, ttl)
  {
    hide Samples;
    SweepSamples(log, ttl);
  }

  lemma RespondersIffAnswered(samples: Log)
    requires forall o :: o in samples ==> o.reply.Legal()
    ensures Responders(samples) != {} <==> AnyAnswered(samples)
    ensures forall x :: x in Responders(samples)
                   <==> exists o :: o in samples && o.Answered() && o.reply.responder.value == x
  {
    if AnyAnswered(samples) {
      var o :| o in samples && o.Answered();
      assert o.reply.responder.value in Responders(samples);
    }
    if Responders(samples) != {} {
      var x :| x in Responders(samples);
      var o :| o in samples && o.reply.responder == Some(x);
      assert o.Answered();
    }
  }

  lemma MultipathExactly(log: Log, ttl: nat)
    requires LegalLog(log)
    ensures Suspicious(log, Multipath, ttl) <==> FlowSensitive(log, ttl)
  {
    var fixed, canary := Samples(log, BaselineFixed, ttl), Samples(log, CanaryVaried, ttl);
    SweepSamples(log, ttl);
    SeenInSamples(log, ttl);
    RespondersIffAnswered(fixed);
    RespondersIffAnswered(canary);
    hide Samples;
    if FlowSensitive(log, ttl) {
      var c :| && c in log && CanaryAt(c, ttl) && c.Answered()
               && forall a :: a in log && FixedAt(a, ttl) ==> a.reply.responder != c.reply.responder;
      assert c.reply.responder.value in Responders(canary) - Responders(fixed);
    }
    if Suspicious(log, Multipath, ttl) {
      var x := NewAddress(Responders(fixed), Responders(canary));
      var c :| c in canary && c.Answered() && c.reply.responder.value == x;
    }
  }

  lemma NoSmallerPart(part: set<Ipv4Address>, whole: set<Ipv4Address>)
    requires part - whole == {} && part != {} && |whole| == 1
    ensures part == whole
  {
    assert whole == part + (whole - part);
    assert |whole| == |part| + |whole - part|;
  }

  lemma NewAddress(fixed: set<Ipv4Address>, canary: set<Ipv4Address>) returns (x: Ipv4Address)
    requires canary != {} && (canary - fixed != {} || (|fixed| == 1 && fixed != canary))
    ensures x in canary && x !in fixed
  {
    if canary - fixed == {} {
      NoSmallerPart(canary, fixed);
    }
    x :| x in canary - fixed;
  }

  lemma SilenceExactly(log: Log, ttl: nat)
    requires LegalLog(log)
    ensures Suspicious(log, VisibilityIntermittent, ttl) <==> ComesAndGoes(log, ttl)
    ensures Suspicious(log, VisibilitySilent, ttl) <==> SweptInVain(log, ttl)
  {
    var both := Samples(log, BaselineFixed, ttl) + Samples(log, CanaryVaried, ttl);
    SweepSamples(log, ttl);
    hide Samples;
    assert forall o :: o in both <==> o in log && SweepAt(o, ttl);
    if both != [] {
      assert both[0] in both;
    }
  }

  lemma FlowVisibilityExactly(log: Log, ttl: nat)
    requires LegalLog(log)
    ensures Suspicious(log, VisibilityFlow, ttl) <==> SeenByOneKind(log, ttl)
  {
    var fixed, canary := Samples(log, BaselineFixed, ttl), Samples(log, CanaryVaried, ttl);
    SweepSamples(log, ttl);
    SeenInSamples(log, ttl);
    RespondersIffAnswered(fixed);
    RespondersIffAnswered(canary);
    hide Samples, Responders, AnyAnswered, BaselineSeen, CanarySeen;
    if fixed != [] {
      assert fixed[0] in fixed;
    }
    if canary != [] {
      assert canary[0] in canary;
    }
  }

  lemma TemporalExactly(log: Log, ttl: nat)
    requires LegalLog(log)
    ensures Suspicious(log, Temporal, ttl) <==> BaselineVaries(log, ttl)
  {
    hide Samples, Responders, LegalLog, Suspicious;
    var fixed := Samples(log, BaselineFixed, ttl);
    LegalSamples(log, ttl);
    RespondersIffAnswered(fixed);
    TwoMembers(Responders(fixed));
    if BaselineVaries(log, ttl) {
      var a, b :| && a in log && b in log && FixedAt(a, ttl) && FixedAt(b, ttl) && a.Answered() && b.Answered()
                  && a.reply.responder != b.reply.responder;
      assert a.reply.responder.value in Responders(fixed) && b.reply.responder.value in Responders(fixed);
    }
    if |Responders(fixed)| > 1 {
      var x, y :| x in Responders(fixed) && y in Responders(fixed) && x != y;
      var a :| a in fixed && a.Answered() && a.reply.responder.value == x;
      var b :| b in fixed && b.Answered() && b.reply.responder.value == y;
    }
  }

  lemma LegalSamples(log: Log, ttl: nat)
    requires LegalLog(log)
    ensures forall o :: o in Samples(log, BaselineFixed, ttl) <==> o in log && FixedAt(o, ttl)
    ensures forall o :: o in Samples(log, BaselineFixed, ttl) ==> o.reply.Legal()
    ensures Suspicious(log, Temporal, ttl) <==> |Responders(Samples(log, BaselineFixed, ttl))| > 1
  {
    hide Responders, AnyAnswered, AnySilent;
    SweepSamples(log, ttl);
  }

  lemma TwoMembers<T>(s: set<T>)
    ensures |s| > 1 <==> exists a, b :: a in s && b in s && a != b
  {
    if |s| > 1 {
      var a :| a in s;
      assert |s - {a}| > 0;
      var b :| b in s - {a};
    }
    if a, b :| a in s && b in s && a != b {
      SubsetCount({a, b}, s);
    }
  }

  lemma QuotedInProfile(log: Log, ttl: nat, m: Mutation)
    ensures m in Profile(Samples(log, BaselineFixed, ttl)) <==> Quoted(log, ttl, m)
  {
    SweepSamples(log, ttl);
    hide Samples;
  }

  lemma QuotedBelowStep(log: Log, ttl: nat, m: Mutation)
    requires ttl > 1
    ensures QuotedBelow(log, ttl, m)
       <==> if BaselineSeen(log, ttl - 1) then Quoted(log, ttl - 1, m) else QuotedBelow(log, ttl - 1, m)
  {
    hide BaselineSeen, Quoted;
    if QuotedBelow(log, ttl, m) && !BaselineSeen(log, ttl - 1) {
      var j: nat :| && 1 <= j < ttl && BaselineSeen(log, j) && Quoted(log, j, m)
                    && forall i :: j < i < ttl ==> !BaselineSeen(log, i);
      assert j < ttl - 1;
    }
    if QuotedBelow(log, ttl - 1, m) && !BaselineSeen(log, ttl - 1) {
      var j: nat :| && 1 <= j < ttl - 1 && BaselineSeen(log, j) && Quoted(log, j, m)
                    && forall i :: j < i < ttl - 1 ==> !BaselineSeen(log, i);
      assert forall i :: j < i < ttl ==> !BaselineSeen(log, i);
    }
  }

  lemma {:induction false} ProfileBelowExactly(log: Log, ttl: nat, m: Mutation)
    ensures m in ProfileBelow(log, ttl) <==> QuotedBelow(log, ttl, m)
  {
    hide Samples, Profile, AnyAnswered, BaselineSeen, Quoted;
    if ttl <= 1 {
    } else {
      hide QuotedBelow;
      SeenInSamples(log, ttl - 1);
      QuotedInProfile(log, ttl - 1, m);
      QuotedBelowStep(log, ttl, m);
      ProfileBelowExactly(log, ttl - 1, m);
    }
  }

  lemma MutationExactly(log: Log, ttl: nat)
    ensures Suspicious(log, HeaderMutation, ttl) <==> QuotesChange(log, ttl)
  {
    hide Samples, Profile, ProfileBelow, AnyAnswered, BaselineSeen, Quoted, QuotedBelow;
    var here := Profile(Samples(log, BaselineFixed, ttl));
    SeenInSamples(log, ttl);
    forall m: Mutation
      ensures m in here <==> Quoted(log, ttl, m)
      ensures m in ProfileBelow(log, ttl) <==> QuotedBelow(log, ttl, m)
    {
      QuotedInProfile(log, ttl, m);
      ProfileBelowExactly(log, ttl, m);
    }
    if here != ProfileBelow(log, ttl) && forall m: Mutation :: Quoted(log, ttl, m) == QuotedBelow(log, ttl, m) {
      assert forall m :: m in here <==> m in ProfileBelow(log, ttl);
    }
  }

  lemma MarkedExactly(log: Log, family: Family, ttl: nat)
    requires LegalLog(log) && family in EVIDENCE_FAMILIES
    ensures Suspicious(log, family, ttl) <==> Shows(log, family, ttl)
  {
    hide Suspicious, FlowSensitive, QuotesChange, BaselineVaries, SeenByOneKind, ComesAndGoes, SweptInVain, LegalLog;
    match family
    case Multipath => MultipathExactly(log, ttl);
    case HeaderMutation => MutationExactly(log, ttl);
    case Temporal => TemporalExactly(log, ttl);
    case VisibilityFlow => FlowVisibilityExactly(log, ttl);
    case _ => SilenceExactly(log, ttl);
  }

  // ---------- Only the sweeps matter ----------

  /** The later log adds no sweep probe. */
  ghost predicate SameSweeps(log: Log, later: Log) {
    forall o: Observation :: SweepPhase(o.spec.phase) ==> (o in log <==> o in later)
  }

  lemma ShowsLater(log: Log, later: Log, family: Family, ttl: nat)
    requires SameSweeps(log, later)
    ensures Shows(log, family, ttl) <==> Shows(later, family, ttl)
  {
    hide BaselineSeen, CanarySeen, QuotesChange;
    forall k: nat ensures BaselineSeen(log, k) <==> BaselineSeen(later, k) {
      SeenLater(log, later, k);
    }
    SeenLater(log, later, ttl);
    SweepsLater(log, later, ttl);
    QuotesLater(log, later, ttl);
  }

  lemma SweepsLater(log: Log, later: Log, ttl: nat)
    requires SameSweeps(log, later)
    ensures forall o: Observation :: SweepAt(o, ttl) ==> (o in log <==> o in later)
  {
  }

  lemma SeenLater(log: Log, later: Log, ttl: nat)
    requires SameSweeps(log, later)
    ensures BaselineSeen(log, ttl) <==> BaselineSeen(later, ttl)
    ensures CanarySeen(log, ttl) <==> CanarySeen(later, ttl)
  {
    SweepsLater(log, later, ttl);
  }

  lemma QuotesLater(log: Log, later: Log, ttl: nat)
    requires SameSweeps(log, later)
    ensures QuotesChange(log, ttl) <==> QuotesChange(later, ttl)
  {
    hide BaselineSeen, Quoted;
    forall k: nat, m: Mutation
      ensures BaselineSeen(log, k) <==> BaselineSeen(later, k)
      ensures Quoted(log, k, m) <==> Quoted(later, k, m)
    {
      SeenLater(log, later, k);
      QuotedLater(log, later, k, m);
    }
  }

  lemma QuotedLater(log: Log, later: Log, ttl: nat, m: Mutation)
    requires SameSweeps(log, later)
    ensures Quoted(log, ttl, m) <==> Quoted(later, ttl, m)
  {
    SweepsLater(log, later, ttl);
  }

  // ---------- Stretches and their windows ----------

  /** A longest stretch of consecutive TTLs within the limit that all show the family. */
  ghost predicate Stretch(log: Log, family: Family, limit: nat, run: Run) {
    && 1 <= run.first <= run.last <= limit
    && (forall t :: run.first <= t <= run.last ==> Shows(log, family, t))
    && (run.first > 1 ==> !Shows(log, family, run.first - 1))
    && (run.last < limit ==> !Shows(log, family, run.last + 1))
  }

  /** The stretch with its neighbours: probed at every TTL when at most seven wide, and otherwise at the two
      TTLs at either end and in the middle; on variants too when the family is about other flows. */
  ghost predicate Surrounds(r: Region, run: Run, limit: nat) {
    && r.first == (if run.first > 1 then run.first - 1 else 1)
    && r.last == (if run.last < limit then run.last + 1 else limit)
    && StrictlyIncreasing(r.probeTtls)
    && (forall t :: t in r.probeTtls
              <==> r.first <= t <= r.last
                   && (r.last - r.first < 7 || t - r.first < 2 || r.last - t < 2 || t == (r.first + r.last) / 2))
    && (r.variantCoverage <==> !r.family.HeaderMutation? && !r.family.Temporal?)
    && r.reasons == [match r.family
                     case Multipath => FlowSensitiveResponder
                     case HeaderMutation => MutationBoundary
                     case Temporal => SameFlowVariation
                     case VisibilityFlow => FlowSensitiveVisibility
                     case VisibilityIntermittent => IntermittentVisibility
                     case _ => UnobservableTtl]
  }

  lemma RunIsStretch(log: Log, later: Log, family: Family, limit: nat, run: Run)
    requires LegalLog(log) && SameSweeps(log, later) && family in EVIDENCE_FAMILIES
    ensures MaximalRun(Marked(log, limit, family), run) && run.last <= limit <==> Stretch(later, family, limit, run)
  {
    hide Suspicious, Shows, LegalLog, SameSweeps;
    forall t: nat ensures Suspicious(log, family, t) <==> Shows(later, family, t) {
      MarkedExactly(log, family, t);
      ShowsLater(log, later, family, t);
    }
    assert forall t :: t in Marked(log, limit, family) <==> 1 <= t <= limit && Shows(later, family, t);
  }

  lemma WindowSurrounds(family: Family, run: Run, limit: nat)
    requires family in EVIDENCE_FAMILIES && 1 <= run.first <= run.last <= limit
    ensures Surrounds(Regions.Window(family, run, limit), run, limit)
  {
    var r := Regions.Window(family, run, limit);
    WindowTtlsShape(r.first, r.last);
    WindowTtlsAre(r.first, r.last);
    hide WindowTtls;
  }

  lemma WindowTtlsAre(first: nat, last: nat)
    requires first <= last
    ensures forall t :: t in WindowTtls(first, last)
                   <==> first <= t <= last
                        && (last - first < 7 || t - first < 2 || last - t < 2 || t == (first + last) / 2)
  {
    if last - first + 1 <= 7 {
      RangeElements(first, last);
    } else {
      var ttls := WindowTtls(first, last);
      assert ttls == [first, first + 1, (first + last) / 2, last - 1, last];
    }
  }

  /** By where they begin, where they end, and the alphabet of the family names. */
  ghost predicate Ordered(a: Region, b: Region) {
    || a.first < b.first || (a.first == b.first && a.last < b.last)
    || (a.first == b.first && a.last == b.last
        && exists p, q :: 0 <= p <= q < |EVIDENCE_FAMILIES|
                          && EVIDENCE_FAMILIES[p] == a.family && EVIDENCE_FAMILIES[q] == b.family)
  }

  lemma FoundInOrder(log: Log, limit: nat, regions: seq<Region>, i: nat, j: nat)
    requires FoundRegions(log, limit, regions) && i < j < |regions|
    ensures Ordered(regions[i], regions[j]) && regions[i] != regions[j]
  {
    hide FromRun, HasWindow, MaximalRun;
    var a, b := regions[i], regions[j];
    assert a in regions && b in regions;
    FamilyOf(log, limit, a);
    FamilyOf(log, limit, b);
    assert KeyLeq(a, b);
    assert EVIDENCE_FAMILIES[Rank(a.family)] == a.family && EVIDENCE_FAMILIES[Rank(b.family)] == b.family;
  }

  lemma FamilyOf(log: Log, limit: nat, r: Region)
    requires FromRun(log, limit, r)
    ensures r.family in EVIDENCE_FAMILIES
  {
  }

  /** The regions detected in a log are the surroundings of exactly its stretches. */
  lemma FoundAreStretches(log: Log, later: Log, limit: nat, regions: seq<Region>)
    requires LegalLog(log) && SameSweeps(log, later) && FoundRegions(log, limit, regions)
    ensures forall r :: r in regions ==>
              && r.family in EVIDENCE_FAMILIES
              && exists run :: Stretch(later, r.family, limit, run) && Surrounds(r, run, limit)
    ensures forall family, run :: family in EVIDENCE_FAMILIES && Stretch(later, family, limit, run) ==>
              exists r :: r in regions && r.family == family && Surrounds(r, run, limit)
  {
    hide Stretch, Surrounds, MaximalRun, Marked, LegalLog, SameSweeps, Window;
    forall r: Region | r in regions
      ensures r.family in EVIDENCE_FAMILIES
      ensures exists run :: Stretch(later, r.family, limit, run) && Surrounds(r, run, limit)
    {
      assert FromRun(log, limit, r);
      var run :| MaximalRun(Marked(log, limit, r.family), run) && run.last <= limit
                 && r == Regions.Window(r.family, run, limit);
      RunIsStretch(log, later, r.family, limit, run);
      StretchBounds(later, r.family, limit, run);
      WindowSurrounds(r.family, run, limit);
    }
    forall family, run: Run | family in EVIDENCE_FAMILIES && Stretch(later, family, limit, run)
      ensures exists r :: r in regions && r.family == family && Surrounds(r, run, limit)
    {
      RunIsStretch(log, later, family, limit, run);
      assert HasWindow(regions, family, run, limit);
      WindowSurrounds(family, run, limit);
      WindowFamily(family, run, limit);
    }
  }

  lemma StretchBounds(log: Log, family: Family, limit: nat, run: Run)
    requires Stretch(log, family, limit, run)
    ensures 1 <= run.first <= run.last <= limit
  {
  }

  lemma WindowFamily(family: Family, run: Run, limit: nat)
    requires 1 <= run.first <= run.last <= limit
    ensures Regions.Window(family, run, limit).family == family
  {
  }
}
