/** The numbers of a report, counted over the log. */
module Measures {
  import opened Bytes
  import opened Evidence
  import opened Kinds
  import opened Model
  import opened Regions
  import opened Segments
  import opened Sequences
  import opened Settings
  import opened Stats
  import opened Summary
  import opened Wrappers

  // ---------- Counting positions ----------

  ghost function Positions<T(!new)>(xs: seq<T>, keep: T -> bool): set<nat> {
    set i: nat | i < |xs| && keep(xs[i])
  }

  lemma FilterSnoc<T(!new)>(xs: seq<T>, x: T, keep: T -> bool)
    ensures Filter(xs + [x], keep) == Filter(xs, keep) + (if keep(x) then [x] else [])
  {
    assert (xs + [x])[..|xs|] == xs;
  }

  lemma PositionsSnoc<T(!new)>(xs: seq<T>, x: T, keep: T -> bool)
    ensures |Positions(xs + [x], keep)| == |Positions(xs, keep)| + (if keep(x) then 1 else 0)
  {
    var whole := xs + [x];
    assert forall i :: 0 <= i < |xs| ==> whole[i] == xs[i];
    assert Positions(whole, keep) == Positions(xs, keep) + (if keep(x) then {|xs|} else {});
    assert |xs| !in Positions(xs, keep);
  }

  /** Filtering counts positions, and so does filtering twice. */
  lemma {:induction false} FilterCounts<T(!new)>(xs: seq<T>, keep: T -> bool)
    ensures |Filter(xs, keep)| == |Positions(xs, keep)|
  {
    if xs == [] {
      assert Positions(xs, keep) == {};
    } else {
      hide Positions, Filter;
      var front, x := xs[..|xs| - 1], xs[|xs| - 1];
      assert xs == front + [x];
      FilterCounts(front, keep);
      FilterSnoc(front, x, keep);
      PositionsSnoc(front, x, keep);
    }
  }

  lemma {:induction false} FilterTwiceCounts<T(!new)>(xs: seq<T>, keep: T -> bool, more: T -> bool, both: T -> bool)
    requires forall x :: x in xs ==> (both(x) <==> keep(x) && more(x))
    ensures |Filter(Filter(xs, keep), more)| == |Positions(xs, both)|
  {
    if xs == [] {
      assert Positions(xs, both) == {};
    } else {
      hide Positions, Filter;
      var front, x := xs[..|xs| - 1], xs[|xs| - 1];
      assert xs == front + [x];
      assert x in xs;
      FilterTwiceCounts(front, keep, more, both);
      FilterTwiceSnoc(front, x, keep, more);
      PositionsSnoc(front, x, both);
    }
  }

  lemma FilterTwiceSnoc<T(!new)>(xs: seq<T>, x: T, keep: T -> bool, more: T -> bool)
    ensures |Filter(Filter(xs + [x], keep), more)|
         == |Filter(Filter(xs, keep), more)| + (if keep(x) && more(x) then 1 else 0)
  {
    hide Filter;
    FilterSnoc(xs, x, keep);
    if keep(x) {
      FilterSnoc(Filter(xs, keep), x, more);
    } else {
      assert Filter(xs, keep) + [] == Filter(xs, keep);
    }
  }

  /** The answers from one address. */
  lemma {:induction false} AddressCount(samples: Log, address: Ipv4Address)
    ensures multiset(Addresses(samples))[address]
         == |Filter(samples, (o: Observation) => o.reply.responder == Some(address))|
  {
    if samples == [] {
    } else {
      AddressCount(samples[..|samples| - 1], address);
    }
  }

  /** The ranking lists every value with its count, most frequent first. */
  lemma RankingExactly<T(!new)>(xs: seq<T>, x: T, n: nat)
    ensures (x, n) in MostCommon(xs) <==> n > 0 && n == multiset(xs)[x]
    ensures forall i, j :: 0 <= i < j < |MostCommon(xs)| ==> MostCommon(xs)[i].1 >= MostCommon(xs)[j].1
  {
    var values := Distinct(xs);
    var tally := Tally(values, xs);
    SortKeepsElements<(T, nat)>(tally, AtLeastAsFrequent);
    assert TotalPreorder<(T, nat)>(AtLeastAsFrequent);
    SortSorts<(T, nat)>(tally, AtLeastAsFrequent);
    if (x, n) in tally {
      var k :| 0 <= k < |tally| && tally[k] == (x, n);
      assert values[k] in values;
    }
    if n > 0 && n == multiset(xs)[x] {
      assert x in multiset(xs) && x in values;
      var k :| 0 <= k < |values| && values[k] == x;
      assert tally[k] == (x, n);
    }
  }

  // ---------- Hops ----------

  /** The probes of the main flow at a TTL, the answered ones, and those answered by one address. */
  ghost function MainProbes(log: Log, ttl: nat, main: FlowKey): set<nat> {
    set i: nat | i < |log| && log[i].spec.ttl == ttl && log[i].spec.flow == main
  }

  ghost function MainAnswers(log: Log, ttl: nat, main: FlowKey): set<nat> {
    set i: nat | i < |log| && log[i].spec.ttl == ttl && log[i].spec.flow == main && log[i].Answered()
  }

  ghost function MainAnswersFrom(log: Log, ttl: nat, main: FlowKey, address: Ipv4Address): set<nat> {
    set i: nat | && i < |log| && log[i].spec.ttl == ttl && log[i].spec.flow == main
                 && log[i].reply.responder == Some(address)
  }

  /** What share of the probes was answered. */
  ghost function Share(answers: set<nat>, probes: set<nat>): real {
    if probes == {} then 0.0 else |answers| as real / |probes| as real
  }

  /** A hop counts the main flow's probes and answers at its TTL, and names the most frequent responder. */
  ghost predicate HopCounts(hop: Hop, log: Log, ttl: nat, main: FlowKey) {
    && hop.ttl == ttl
    && hop.sent == |MainProbes(log, ttl, main)| && hop.answered == |MainAnswers(log, ttl, main)|
    && 1.0 - hop.lossRate == Share(MainAnswers(log, ttl, main), MainProbes(log, ttl, main))
    && (hop.primary.Some? ==>
          forall address: Ipv4Address :: |MainAnswersFrom(log, ttl, main, address)|
                         <= |MainAnswersFrom(log, ttl, main, hop.primary.value)|)
    && (forall address: Ipv4Address, n: nat :: (address, n) in hop.responders
                             <==> n > 0 && n == |MainAnswersFrom(log, ttl, main, address)|)
    && (forall i, j :: 0 <= i < j < |hop.responders| ==> hop.responders[i].1 >= hop.responders[j].1)
    && forall m :: m in hop.mutations
              <==> exists o :: o in log && o.spec.ttl == ttl && o.spec.flow == main && m in o.reply.mutations
  }

  lemma SentAndAnswered(log: Log, ttl: nat, main: FlowKey)
    ensures var samples := Filter(log, (o: Observation) => o.spec.ttl == ttl && o.spec.flow == main);
            && |samples| == |MainProbes(log, ttl, main)|
            && CountIf(samples, (o: Observation) => o.Answered()) == |MainAnswers(log, ttl, main)|
  {
    var here := (o: Observation) => o.spec.ttl == ttl && o.spec.flow == main;
    var answered := (o: Observation) => o.spec.ttl == ttl && o.spec.flow == main && o.Answered();
    var answers := (o: Observation) => o.Answered();
    hide Filter;
    FilterCounts(log, here);
    assert Positions(log, here) == MainProbes(log, ttl, main);
    FilterTwiceCounts(log, here, answers, answered);
    assert Positions(log, answered) == MainAnswers(log, ttl, main);
  }

  lemma FromAddress(log: Log, ttl: nat, main: FlowKey, address: Ipv4Address)
    ensures var samples := Filter(log, (o: Observation) => o.spec.ttl == ttl && o.spec.flow == main);
            multiset(Addresses(samples))[address] == |MainAnswersFrom(log, ttl, main, address)|
  {
    var here := (o: Observation) => o.spec.ttl == ttl && o.spec.flow == main;
    var from := (o: Observation) => o.spec.ttl == ttl && o.spec.flow == main && o.reply.responder == Some(address);
    AddressCount(Filter(log, here), address);
    hide Filter;
    FilterTwiceCounts(log, here, (o: Observation) => o.reply.responder == Some(address), from);
    assert Positions(log, from) == MainAnswersFrom(log, ttl, main, address);
  }

  lemma ComplementOfLoss(sent: nat, answered: nat)
    requires 0 < sent
    ensures 1.0 - (sent - answered) as real / sent as real == answered as real / sent as real
  {
    Complement(sent as real, answered as real);
  }

  lemma Complement(x: real, y: real)
    requires x > 0.0
    ensures 1.0 - (x - y) / x == y / x
  {
    var lost, kept := (x - y) / x, y / x;
    assert lost * x == x - y && kept * x == y;
    assert (lost + kept) * x == lost * x + kept * x;
    if lost + kept < 1.0 {
      TimesStrict(lost + kept, 1.0, x);
    } else if lost + kept > 1.0 {
      TimesStrict(1.0, lost + kept, x);
    }
  }

  lemma RankedFrom(log: Log, ttl: nat, main: FlowKey, addresses: seq<Ipv4Address>)
    requires forall address: Ipv4Address :: multiset(addresses)[address] == |MainAnswersFrom(log, ttl, main, address)|
    ensures forall address: Ipv4Address, n: nat :: (address, n) in MostCommon(addresses)
                                 <==> n > 0 && n == |MainAnswersFrom(log, ttl, main, address)|
    ensures forall i, j :: 0 <= i < j < |MostCommon(addresses)| ==>
              MostCommon(addresses)[i].1 >= MostCommon(addresses)[j].1
    ensures Top(addresses).Some? ==>
              forall address: Ipv4Address :: |MainAnswersFrom(log, ttl, main, address)|
                             <= |MainAnswersFrom(log, ttl, main, Top(addresses).value)|
  {
    hide MostCommon, MainAnswersFrom;
    forall address: Ipv4Address, n: nat
      ensures (address, n) in MostCommon(addresses) <==> n > 0 && n == |MainAnswersFrom(log, ttl, main, address)|
    {
      RankingExactly<Ipv4Address>(addresses, address, n);
    }
    RankingExactly<Ipv4Address>(addresses, [0, 0, 0, 0], 0);
    MostCommonIsModal(addresses);
    if Top(addresses).Some? {
      forall address: Ipv4Address
        ensures |MainAnswersFrom(log, ttl, main, address)| <= |MainAnswersFrom(log, ttl, main, Top(addresses).value)|
      {
        assert address !in addresses ==> multiset(addresses)[address] == 0;
      }
    }
  }

  lemma HopIsCounted(log: Log, ttl: nat, main: FlowKey)
    ensures HopCounts(SummarizeHop(log, ttl, main), log, ttl, main)
  {
    hide MostCommon, Addresses, MainProbes, MainAnswers, MainAnswersFrom, Top, CountIf;
    var samples := Filter(log, (o: Observation) => o.spec.ttl == ttl && o.spec.flow == main);
    SentAndAnswered(log, ttl, main);
    forall address: Ipv4Address
      ensures multiset(Addresses(samples))[address] == |MainAnswersFrom(log, ttl, main, address)|
    {
      FromAddress(log, ttl, main, address);
    }
    RankedFrom(log, ttl, main, Addresses(samples));
    if samples != [] {
      ComplementOfLoss(|samples|, |MainAnswers(log, ttl, main)|);
    }
  }

  // ---------- Stability and response rate ----------

  /** The probes of the main flow inside a window, and the answered ones. */
  ghost function FixedProbes(log: Log, ttls: seq<nat>): set<nat> {
    set i: nat | i < |log| && log[i].spec.ttl in ttls && !Varied(log[i].spec)
  }

  ghost function FixedAnswers(log: Log, ttls: seq<nat>): set<nat> {
    set i: nat | i < |log| && log[i].spec.ttl in ttls && !Varied(log[i].spec) && log[i].Answered()
  }

  predicate Chosen(o: Observation, ttls: seq<nat>, choice: map<nat, Ipv4Address>) {
    o.spec.ttl in ttls && o.spec.ttl in choice && o.reply.responder == Some(choice[o.spec.ttl])
  }

  /** The answers to the main flow that one responder for each TTL accounts for. */
  ghost function Explained(log: Log, ttls: seq<nat>, choice: map<nat, Ipv4Address>): set<nat> {
    set i: nat | i < |log| && !Varied(log[i].spec) && Chosen(log[i], ttls, choice)
  }

  lemma DisjointPositions<T(!new)>(xs: seq<T>, either: T -> bool, one: T -> bool, other: T -> bool)
    requires forall x :: x in xs ==> (either(x) <==> one(x) || other(x)) && !(one(x) && other(x))
    ensures |Positions(xs, either)| == |Positions(xs, one)| + |Positions(xs, other)|
  {
    assert forall i :: 0 <= i < |xs| ==> xs[i] in xs;
    assert Positions(xs, either) == Positions(xs, one) + Positions(xs, other);
    assert Positions(xs, one) !! Positions(xs, other);
  }

  lemma SamePositions<T(!new)>(xs: seq<T>, one: T -> bool, other: T -> bool)
    requires forall x :: x in xs ==> (one(x) <==> other(x))
    ensures Positions(xs, one) == Positions(xs, other)
  {
    assert forall i :: 0 <= i < |xs| ==> xs[i] in xs;
  }

  /** The answers at one TTL that a choice accounts for. */
  lemma ChosenHere(samples: Log, ttl: nat, choice: map<nat, Ipv4Address>)
    ensures |Positions(samples, (o: Observation) => o.spec.ttl == ttl && Chosen(o, [ttl], choice))|
         == if ttl in choice then multiset(Addresses(AtTtl(samples, ttl)))[choice[ttl]] else 0
  {
    var here := (o: Observation) => o.spec.ttl == ttl && Chosen(o, [ttl], choice);
    if ttl in choice {
      hide Filter, Addresses;
      AddressCount(AtTtl(samples, ttl), choice[ttl]);
      FilterTwiceCounts(samples, (o: Observation) => o.spec.ttl == ttl,
                        (o: Observation) => o.reply.responder == Some(choice[ttl]), here);
    } else {
      assert Positions(samples, here) == {};
    }
  }

  lemma ChosenSplit(samples: Log, ttls: seq<nat>, choice: map<nat, Ipv4Address>)
    requires ttls != [] && StrictlyIncreasing(ttls)
    ensures |Positions(samples, (o: Observation) => Chosen(o, ttls, choice))|
         == |Positions(samples, (o: Observation) => o.spec.ttl == ttls[0] && Chosen(o, [ttls[0]], choice))|
            + |Positions(samples, (o: Observation) => Chosen(o, ttls[1..], choice))|
  {
    hide Positions;
    assert forall t :: t in ttls <==> t == ttls[0] || t in ttls[1..];
    assert ttls[0] !in ttls[1..];
    DisjointPositions(samples, (o: Observation) => Chosen(o, ttls, choice),
                      (o: Observation) => o.spec.ttl == ttls[0] && Chosen(o, [ttls[0]], choice),
                      (o: Observation) => Chosen(o, ttls[1..], choice));
  }

  lemma ModalCount(addresses: seq<Ipv4Address>, address: Ipv4Address)
    ensures var ranked := MostCommon(addresses);
            && multiset(addresses)[address] <= (if ranked == [] then 0 else ranked[0].1)
            && (ranked != [] ==> multiset(addresses)[ranked[0].0] == ranked[0].1)
  {
    MostCommonIsModal(addresses);
    if address !in addresses {
      assert address !in multiset(addresses);
    }
  }

  lemma ModalHere(samples: Log, ttl: nat, address: Ipv4Address)
    ensures var ranked := MostCommon(Addresses(AtTtl(samples, ttl)));
            && multiset(Addresses(AtTtl(samples, ttl)))[address] <= (if ranked == [] then 0 else ranked[0].1)
            && (ranked != [] ==> multiset(Addresses(AtTtl(samples, ttl)))[ranked[0].0] == ranked[0].1)
  {
    hide Addresses, AtTtl;
    ModalCount(Addresses(AtTtl(samples, ttl)), address);
  }

  lemma {:induction false} ModalIsBest(samples: Log, ttls: seq<nat>, choice: map<nat, Ipv4Address>)
    requires StrictlyIncreasing(ttls)
    ensures |Positions(samples, (o: Observation) => Chosen(o, ttls, choice))| <= ModalAnswers(ttls, samples)
  {
    if ttls == [] {
      assert Positions(samples, (o: Observation) => Chosen(o, ttls, choice)) == {};
    } else {
      hide Positions, Chosen, MostCommon, Addresses, AtTtl;
      ModalIsBest(samples, ttls[1..], choice);
      ChosenSplit(samples, ttls, choice);
      ChosenHere(samples, ttls[0], choice);
      if ttls[0] in choice {
        ModalHere(samples, ttls[0], choice[ttls[0]]);
      }
    }
  }

  /** A choice for the first TTL leaves the others as they were. */
  lemma ChoiceGrows(samples: Log, ttls: seq<nat>, rest: map<nat, Ipv4Address>, address: Ipv4Address)
    requires ttls != [] && StrictlyIncreasing(ttls) && forall t :: t in rest ==> t in ttls[1..]
    ensures var choice := rest[ttls[0] := address];
            |Positions(samples, (o: Observation) => Chosen(o, ttls, choice))|
            == multiset(Addresses(AtTtl(samples, ttls[0])))[address]
               + |Positions(samples, (o: Observation) => Chosen(o, ttls[1..], rest))|
  {
    hide Positions, Addresses, AtTtl;
    var choice := rest[ttls[0] := address];
    ChosenSplit(samples, ttls, choice);
    ChosenHere(samples, ttls[0], choice);
    assert ttls[0] !in ttls[1..];
    SamePositions(samples, (o: Observation) => Chosen(o, ttls[1..], choice),
                  (o: Observation) => Chosen(o, ttls[1..], rest));
  }

  lemma ChoiceStays(samples: Log, ttls: seq<nat>, rest: map<nat, Ipv4Address>)
    requires ttls != [] && StrictlyIncreasing(ttls) && forall t :: t in rest ==> t in ttls[1..]
    ensures |Positions(samples, (o: Observation) => Chosen(o, ttls, rest))|
         == |Positions(samples, (o: Observation) => Chosen(o, ttls[1..], rest))|
  {
    hide Positions, Addresses, AtTtl;
    ChosenSplit(samples, ttls, rest);
    ChosenHere(samples, ttls[0], rest);
    assert ttls[0] !in ttls[1..];
  }

  lemma {:induction false} BestChoice(samples: Log, ttls: seq<nat>) returns (choice: map<nat, Ipv4Address>)
    requires StrictlyIncreasing(ttls)
    ensures |Positions(samples, (o: Observation) => Chosen(o, ttls, choice))| == ModalAnswers(ttls, samples)
    ensures forall t :: t in choice ==> t in ttls
  {
    if ttls == [] {
      choice := map[];
      assert Positions(samples, (o: Observation) => Chosen(o, ttls, choice)) == {};
    } else {
      hide Positions, Chosen, MostCommon, Addresses, AtTtl;
      var rest := BestChoice(samples, ttls[1..]);
      var ranked := MostCommon(Addresses(AtTtl(samples, ttls[0])));
      if ranked == [] {
        choice := rest;
        ChoiceStays(samples, ttls, rest);
      } else {
        choice := rest[ttls[0] := ranked[0].0];
        ChoiceGrows(samples, ttls, rest, ranked[0].0);
        ModalHere(samples, ttls[0], ranked[0].0);
      }
    }
  }

  lemma {:induction false} AllAddressed(samples: Log, ttls: seq<nat>)
    requires StrictlyIncreasing(ttls)
    ensures |Positions(samples, (o: Observation) => o.spec.ttl in ttls && o.reply.responder.Some?)|
         == AnswersWithAddress(ttls, samples)
  {
    var addressed := (o: Observation) => o.spec.ttl in ttls && o.reply.responder.Some?;
    if ttls == [] {
      assert Positions(samples, addressed) == {};
    } else {
      hide Positions, Addresses, AtTtl, Filter;
      var here := (o: Observation) => o.spec.ttl == ttls[0] && o.reply.responder.Some?;
      var rest := (o: Observation) => o.spec.ttl in ttls[1..] && o.reply.responder.Some?;
      assert forall t :: t in ttls <==> t == ttls[0] || t in ttls[1..];
      assert ttls[0] !in ttls[1..];
      AllAddressed(samples, ttls[1..]);
      DisjointPositions(samples, addressed, here, rest);
      AddressedHere(samples, ttls[0]);
    }
  }

  lemma AddressedHere(samples: Log, ttl: nat)
    ensures |Positions(samples, (o: Observation) => o.spec.ttl == ttl && o.reply.responder.Some?)|
         == |Addresses(AtTtl(samples, ttl))|
  {
    hide Positions, Filter;
    AddressesCounted(AtTtl(samples, ttl));
    FilterTwiceCounts(samples, (o: Observation) => o.spec.ttl == ttl, (o: Observation) => o.reply.responder.Some?,
                      (o: Observation) => o.spec.ttl == ttl && o.reply.responder.Some?);
  }

  lemma {:induction false} AddressesCounted(samples: Log)
    ensures |Addresses(samples)| == |Filter(samples, (o: Observation) => o.reply.responder.Some?)|
  {
    if samples == [] {
    } else {
      AddressesCounted(samples[..|samples| - 1]);
    }
  }

  /** The response rate is the answered share of the main flow's probes in the window. The stability is the
      largest share of its answers that one responder for each TTL can account for. */
  ghost predicate RatesAre(s: Segment, log: Log, ttls: seq<nat>) {
    var probes, answers := FixedProbes(log, ttls), FixedAnswers(log, ttls);
    && s.responseRate == (if probes == {} then None else Some(Share(answers, probes)))
    && (s.stability.None? <==> answers == {})
    && (s.stability.Some? ==>
          && (exists choice :: s.stability.value == Share(Explained(log, ttls, choice), answers))
          && forall choice :: Share(Explained(log, ttls, choice), answers) <= s.stability.value)
  }

  lemma RateCounts(log: Log, ttls: seq<nat>)
    ensures |InWindow(log, ttls, false)| == |FixedProbes(log, ttls)|
    ensures CountIf(InWindow(log, ttls, false), (o: Observation) => o.Answered()) == |FixedAnswers(log, ttls)|
  {
    hide Filter;
    var here := (o: Observation) => o.spec.ttl in ttls && Varied(o.spec) == false;
    var answered := (o: Observation) => o.spec.ttl in ttls && Varied(o.spec) == false && o.Answered();
    InWindowIs(log, ttls);
    FilterCounts(log, here);
    assert Positions(log, here) == FixedProbes(log, ttls);
    FilterTwiceCounts(log, here, (o: Observation) => o.Answered(), answered);
    assert Positions(log, answered) == FixedAnswers(log, ttls);
  }

  lemma InWindowIs(log: Log, ttls: seq<nat>)
    ensures InWindow(log, ttls, false)
         == Filter(log, (o: Observation) => o.spec.ttl in ttls && Varied(o.spec) == false)
  {
    SameFilter(log, (o: Observation) => o.spec.ttl in ttls && Varied(o.spec) == false,
               (o: Observation) => o.spec.ttl in ttls && Varied(o.spec) == false);
  }

  lemma {:induction false} SameFilter<T(!new)>(xs: seq<T>, one: T -> bool, other: T -> bool)
    requires forall x :: one(x) <==> other(x)
    ensures Filter(xs, one) == Filter(xs, other)
  {
    if xs == [] {
    } else {
      SameFilter(xs[..|xs| - 1], one, other);
    }
  }

  lemma ExplainedCounts(log: Log, ttls: seq<nat>, choice: map<nat, Ipv4Address>)
    ensures |Positions(InWindow(log, ttls, false), (o: Observation) => Chosen(o, ttls, choice))|
         == |Explained(log, ttls, choice)|
  {
    hide Filter;
    var here := (o: Observation) => o.spec.ttl in ttls && Varied(o.spec) == false;
    var chosen := (o: Observation) => Chosen(o, ttls, choice);
    var both := (o: Observation) => !Varied(o.spec) && Chosen(o, ttls, choice);
    InWindowIs(log, ttls);
    FilterCounts(InWindow(log, ttls, false), chosen);
    FilterTwiceCounts(log, here, chosen, both);
    assert Positions(log, both) == Explained(log, ttls, choice);
  }

  lemma AnswersCounted(log: Log, ttls: seq<nat>)
    requires LegalLog(log) && StrictlyIncreasing(ttls)
    ensures AnswersWithAddress(ttls, InWindow(log, ttls, false)) == |FixedAnswers(log, ttls)|
  {
    hide Filter;
    var here := (o: Observation) => o.spec.ttl in ttls && Varied(o.spec) == false;
    var addressed := (o: Observation) => o.spec.ttl in ttls && o.reply.responder.Some?;
    var both := (o: Observation) => o.spec.ttl in ttls && !Varied(o.spec) && o.reply.responder.Some?;
    InWindowIs(log, ttls);
    AllAddressed(InWindow(log, ttls, false), ttls);
    FilterCounts(InWindow(log, ttls, false), addressed);
    FilterTwiceCounts(log, here, addressed, both);
    assert Positions(log, both) == FixedAnswers(log, ttls);
  }

  lemma ShareMonotone(part: set<nat>, more: nat, whole: set<nat>)
    requires |part| <= more && whole != {}
    ensures Share(part, whole) <= more as real / |whole| as real
  {
    var x, y, n := |part| as real, more as real, |whole| as real;
    assert x / n * n == x && y / n * n == y;
    if x / n > y / n {
      TimesStrict(y / n, x / n, n);
    }
  }

  lemma RatesExactly(region: Region, log: Log, hops: seq<Hop>, config: TraceConfig)
    requires config.Valid() && LegalLog(log) && StrictlyIncreasing(region.probeTtls)
    ensures RatesAre(Classify(region, log, hops, config), log, region.probeTtls)
  {
    hide Verdict, FindingsOf, CertificateOf, MostCommon, InWindow, NearestVisible, SampleSignatures, ModalAnswers,
         AnswersWithAddress, BranchesOf, CarriesMpls, CountIf, Distinct, FixedProbes, FixedAnswers, Explained, LegalLog,
         Positions;
    var ttls := region.probeTtls;
    var fixed, answers := InWindow(log, ttls, false), FixedAnswers(log, ttls);
    RateCounts(log, ttls);
    AnswersCounted(log, ttls);
    var best := BestChoice(fixed, ttls);
    ExplainedCounts(log, ttls, best);
    if answers != {} {
      forall choice
        ensures Share(Explained(log, ttls, choice), answers) <= ModalAnswers(ttls, fixed) as real / |answers| as real
      {
        ModalIsBest(fixed, ttls, choice);
        ExplainedCounts(log, ttls, choice);
        ShareMonotone(Explained(log, ttls, choice), ModalAnswers(ttls, fixed), answers);
      }
    }
  }

  // ---------- Outcomes ----------

  /** The sample's probe at this TTL was answered by this address, or by none. */
  ghost predicate ShowsAt(log: Log, varied: bool, id: nat, ttl: nat, shown: Option<Ipv4Address>) {
    exists o :: && o in log && o.spec.sampleId == id && o.spec.ttl == ttl && Varied(o.spec) == varied
                && o.reply.responder == shown
  }

  /** The sample shows this along the window: at each TTL the responder of its probe there. */
  ghost predicate SampleShows(log: Log, ttls: seq<nat>, varied: bool, id: nat, signature: Signature) {
    && |signature| == |ttls|
    && forall k :: 0 <= k < |ttls| ==>
         signature[k].0 == ttls[k] && ShowsAt(log, varied, id, ttls[k], signature[k].1)
  }

  /** The samples that cover the window and show this along it. */
  ghost function Showing(log: Log, ttls: seq<nat>, varied: bool, signature: Signature): set<nat> {
    set id | && id in CompleteSamples(PlanOf(log), Elements(ttls), varied)
             && SampleShows(log, ttls, varied, id, signature)
  }

  /** The outcomes list what samples show, each with the number of samples that show it, most often first. */
  ghost predicate OutcomesAre(outcomes: Outcomes, log: Log, ttls: seq<nat>, varied: bool) {
    && (forall signature: Signature, n: nat :: (signature, n) in outcomes
                                          <==> n > 0 && n == |Showing(log, ttls, varied, signature)|)
    && forall i, j :: 0 <= i < j < |outcomes| ==> outcomes[i].1 >= outcomes[j].1
  }

  lemma {:induction false} MultisetCount<T(!new)>(xs: seq<T>, x: T, same: T -> bool)
    requires forall y :: same(y) <==> y == x
    ensures multiset(xs)[x] == |Positions(xs, same)|
  {
    if xs == [] {
      assert Positions(xs, same) == {};
    } else {
      var front, last := xs[..|xs| - 1], xs[|xs| - 1];
      assert xs == front + [last];
      MultisetCount(front, x, same);
      PositionsSnoc(front, last, same);
    }
  }

  /** Different values at different positions: as many values as positions. */
  lemma {:induction false} DistinctImage(ids: seq<nat>, positions: set<nat>, image: set<nat>)
    requires forall i, j :: 0 <= i < j < |ids| ==> ids[i] != ids[j]
    requires forall k :: k in positions ==> k < |ids|
    requires forall id :: id in image <==> exists k :: k in positions && ids[k] == id
    ensures |image| == |positions|
  {
    if positions == {} {
      assert image == {};
    } else {
      var k :| k in positions;
      assert ids[k] in image;
      var rest := positions - {k};
      forall id ensures id in image - {ids[k]} <==> exists j :: j in rest && ids[j] == id {
      }
      DistinctImage(ids, rest, image - {ids[k]});
    }
  }

  /** A sample shows its signature, and nothing else. */
  lemma SignatureShows(log: Log, ttls: seq<nat>, varied: bool, id: nat, signature: Signature)
    requires ProbedOnce(log) && id in CompleteIds(InWindow(log, ttls, varied), ttls)
    ensures signature == SignatureOf(InWindow(log, ttls, varied), id, ttls)
       <==> SampleShows(log, ttls, varied, id, signature)
  {
    hide InWindow, CompleteIds, ShownAt, ProbedOnce;
    var shown := SignatureOf(InWindow(log, ttls, varied), id, ttls);
    if signature == shown {
      forall k | 0 <= k < |ttls| ensures ShowsAt(log, varied, id, ttls[k], signature[k].1) {
        ShownExactly(log, ttls, varied, id, ttls[k], signature[k].1);
      }
    }
    if SampleShows(log, ttls, varied, id, signature) {
      forall k | 0 <= k < |ttls| ensures signature[k] == shown[k] {
        ShownExactly(log, ttls, varied, id, ttls[k], signature[k].1);
        assert signature[k] == (ttls[k], signature[k].1);
      }
      assert signature == shown;
    }
  }

  lemma ShownExactly(log: Log, ttls: seq<nat>, varied: bool, id: nat, t: nat, shown: Option<Ipv4Address>)
    requires ProbedOnce(log) && id in CompleteIds(InWindow(log, ttls, varied), ttls) && t in ttls
    ensures ShownAt(InWindow(log, ttls, varied), id, t) == shown <==> ShowsAt(log, varied, id, t, shown)
  {
    hide InWindow, CompleteIds, ShownAt, ProbedOnce;
    var o := ShownBy(log, ttls, varied, id, t);
    if x :| && x in log && x.spec.sampleId == id && x.spec.ttl == t && Varied(x.spec) == varied
            && x.reply.responder == shown {
      OnlyProbe(log, o, x);
    }
  }

  lemma SignatureCount(log: Log, ttls: seq<nat>, varied: bool, signature: Signature)
    requires ProbedOnce(log) && ttls != []
    ensures multiset(SampleSignatures(InWindow(log, ttls, varied), ttls))[signature]
         == |Showing(log, ttls, varied, signature)|
  {
    hide InWindow, CompleteIds, ShownAt, ProbedOnce, SampleShows, CompleteSamples, SignatureOf;
    var samples := InWindow(log, ttls, varied);
    var ids, signatures := CompleteIds(samples, ttls), SampleSignatures(samples, ttls);
    var same := (s: Signature) => s == signature;
    MultisetCount(signatures, signature, same);
    CompleteIdsDiffer(samples, ttls);
    forall id: nat
      ensures id in Showing(log, ttls, varied, signature)
         <==> exists k :: k in Positions(signatures, same) && ids[k] == id
    {
      CompleteIffCovered(log, ttls, varied, id);
      if id in ids {
        SignatureShows(log, ttls, varied, id, signature);
        var k :| 0 <= k < |ids| && ids[k] == id;
        assert signatures[k] == SignatureOf(samples, id, ttls);
      }
    }
    DistinctImage(ids, Positions(signatures, same), Showing(log, ttls, varied, signature));
  }

  lemma OutcomesExactly(log: Log, ttls: seq<nat>, varied: bool)
    requires ProbedOnce(log) && ttls != []
    ensures OutcomesAre(MostCommon(SampleSignatures(InWindow(log, ttls, varied), ttls)), log, ttls, varied)
  {
    hide InWindow, SampleSignatures, ProbedOnce, Showing, MostCommon;
    var signatures := SampleSignatures(InWindow(log, ttls, varied), ttls);
    forall signature: Signature, n: nat
      ensures (signature, n) in MostCommon(signatures)
         <==> n > 0 && n == |Showing(log, ttls, varied, signature)|
    {
      SignatureCount(log, ttls, varied, signature);
      RankingExactly<Signature>(signatures, signature, n);
    }
    RankingExactly<Signature>(signatures, [], 0);
  }

  // ---------- Branches ----------

  /** The answers to flow variants at a TTL from one address. */
  ghost function VariantAnswersFrom(log: Log, ttl: nat, address: Ipv4Address): set<nat> {
    set i: nat | && i < |log| && log[i].spec.ttl == ttl && Varied(log[i].spec)
                 && log[i].reply.responder == Some(address)
  }

  /** There is a branch for exactly the probed TTLs with several variant responders, and it lists each of them
      with its answers. */
  ghost predicate BranchesAre(branches: seq<(nat, seq<(Ipv4Address, nat)>)>, log: Log, ttls: seq<nat>) {
    && (forall t :: (exists b :: b in branches && b.0 == t) <==> t in ttls && TwoVariantResponders(log, t))
    && forall b :: b in branches ==> BranchCounts(b.1, log, b.0)
  }

  ghost predicate BranchCounts(ranked: seq<(Ipv4Address, nat)>, log: Log, ttl: nat) {
    forall address: Ipv4Address, n: nat :: (address, n) in ranked
                                      <==> n > 0 && n == |VariantAnswersFrom(log, ttl, address)|
  }

  lemma {:induction false} BranchesRank(ttls: seq<nat>, varied: Log, branch: (nat, seq<(Ipv4Address, nat)>))
    requires branch in BranchesOf(ttls, varied)
    ensures branch.0 in ttls && branch.1 == MostCommon(Addresses(AtTtl(varied, branch.0)))
  {
    hide MostCommon, Addresses, AtTtl;
    if branch in BranchesOf(ttls[1..], varied) {
      BranchesRank(ttls[1..], varied, branch);
    }
  }

  lemma VariantCount(log: Log, ttls: seq<nat>, ttl: nat, address: Ipv4Address)
    requires ttl in ttls
    ensures multiset(Addresses(AtTtl(InWindow(log, ttls, true), ttl)))[address]
         == |VariantAnswersFrom(log, ttl, address)|
  {
    hide Filter, Addresses;
    var window := InWindow(log, ttls, true);
    var within := (o: Observation) => o.spec.ttl in ttls && Varied(o.spec) == true;
    var here := (o: Observation) => o.spec.ttl == ttl;
    var from := (o: Observation) => o.reply.responder == Some(address);
    var both := (o: Observation) => o.spec.ttl == ttl && o.reply.responder == Some(address);
    var all := (o: Observation) => o.spec.ttl == ttl && Varied(o.spec) && o.reply.responder == Some(address);
    AddressCount(AtTtl(window, ttl), address);
    FilterTwiceCounts(window, here, from, both);
    FilterCounts(window, both);
    SameFilter(log, within, (o: Observation) => o.spec.ttl in ttls && Varied(o.spec) == true);
    FilterTwiceCounts(log, within, both, all);
    assert Positions(log, all) == VariantAnswersFrom(log, ttl, address);
  }

  lemma BranchesExactly(log: Log, ttls: seq<nat>)
    ensures BranchesAre(BranchesOf(ttls, InWindow(log, ttls, true)), log, ttls)
  {
    hide MostCommon, Addresses, AtTtl, InWindow, Responders, BranchesOf, TwoVariantResponders, VariantAnswersFrom;
    var varied := InWindow(log, ttls, true);
    forall t: nat
      ensures (exists b :: b in BranchesOf(ttls, varied) && b.0 == t) <==> t in ttls && TwoVariantResponders(log, t)
    {
      BranchesAreExact(ttls, varied, t);
      if t in ttls {
        VariedExactly(log, ttls, t);
      }
    }
    forall b | b in BranchesOf(ttls, varied) ensures BranchCounts(b.1, log, b.0) {
      BranchesRank(ttls, varied, b);
      BranchRanked(log, ttls, b.0);
    }
  }

  lemma BranchRanked(log: Log, ttls: seq<nat>, ttl: nat)
    requires ttl in ttls
    ensures BranchCounts(MostCommon(Addresses(AtTtl(InWindow(log, ttls, true), ttl))), log, ttl)
  {
    hide MostCommon, Addresses, AtTtl, InWindow, VariantAnswersFrom;
    var addresses := Addresses(AtTtl(InWindow(log, ttls, true), ttl));
    forall address: Ipv4Address, n: nat
      ensures (address, n) in MostCommon(addresses) <==> n > 0 && n == |VariantAnswersFrom(log, ttl, address)|
    {
      VariantCount(log, ttls, ttl, address);
      RankingExactly<Ipv4Address>(addresses, address, n);
    }
  }

  // ---------- Certificates and the mechanism ----------

  /** A region certifies as many samples as cover it on the flows it is about, with the bound that many
      draws meet, against the settings of the run. */
  ghost predicate CertificateCounts(c: Certificate, region: Region, log: Log, config: TraceConfig)
    requires config.Valid()
  {
    && c.sampleCount == |CompleteSamples(PlanOf(log), Elements(region.probeTtls), region.variantCoverage)|
    && c.minDetectable == config.minDetectable && c.requestedMiss == config.missProbability
    && c.missBound == Power(1.0 - config.minDetectable, c.sampleCount)
    && (c.basis.FlowVariantCoverage? <==> region.variantCoverage)
    && (c.basis.FixedFlowRepeatability? <==> !region.variantCoverage)
    && c.requiredSamples == (if region.variantCoverage then config.Required() else config.temporalSamples)
  }

  lemma CertificateExactly(region: Region, log: Log, config: TraceConfig)
    requires config.Valid() && region.probeTtls != []
    ensures CertificateCounts(CertificateOf(region, log, config), region, log, config)
  {
    hide SampleSignatures, InWindow, CompleteSamples, RequiredSamples;
    SignaturesCountCompleteSamples(log, region.probeTtls, region.variantCoverage);
  }

  /** A probe in the window was answered with an MPLS label stack. */
  ghost predicate LabelSeen(log: Log, ttls: seq<nat>) {
    exists o :: && o in log && o.spec.ttl in ttls && o.reply.extensions.Some?
                && o.reply.extensions.value.mplsLabels != []
  }

  lemma LabelsExactly(log: Log, ttls: seq<nat>)
    ensures CarriesMpls(InWindow(log, ttls, false) + InWindow(log, ttls, true)) <==> LabelSeen(log, ttls)
  {
    var both := InWindow(log, ttls, false) + InWindow(log, ttls, true);
    assert forall o :: o in both <==> o in log && o.spec.ttl in ttls;
  }

  // ---------- A classified region ----------

  /** Everything a region's segment says of the evidence, counted over the log. */
  ghost predicate EvidenceIs(s: Segment, region: Region, log: Log, hops: seq<Hop>, config: TraceConfig)
    requires config.Valid()
  {
    var ttls := region.probeTtls;
    && s.first == region.first && s.last == region.last
    && (|hops| > 0 ==>
          && NearestBelow(hops, if s.first < |hops| then s.first else |hops|, s.ingress)
          && NearestAbove(hops, if s.last < |hops| then s.last else |hops|, s.egress))
    && RatesAre(s, log, ttls)
    && OutcomesAre(s.fixedOutcomes, log, ttls, false) && OutcomesAre(s.variedOutcomes, log, ttls, true)
    && (if s.kind.MultipathFlow? then BranchesAre(s.branches, log, ttls) else s.branches == [])
    && CertificateCounts(s.certificate, region, log, config)
  }

  /** The reason that goes with a kind. */
  predicate Explains(reason: Reason, kind: SegmentType) {
    match kind
    case Direct => reason.FlowsAgreed?
    case MultipathFlow => reason.SeveralSignatures?
    case Opaque => reason.UnobservableBetweenBoundaries?
    case Mutable => reason.ProfileChanges?
    case Intermittent => reason.VisibilityChanged?
    case Unstable => reason.AddressesOverTime?
    case Unknown => reason.NoStableClass?
    case SilentTail => reason.OpenEndedSilence?
  }

  /** Beyond the hop list its last hop stands in. */
  lemma NearestWithin(hops: seq<Hop>, ttl: nat)
    requires ttl >= 1 && |hops| > 0
    ensures NearestBelow(hops, if ttl < |hops| then ttl else |hops|, NearestVisible(hops, ttl, true))
    ensures NearestAbove(hops, if ttl < |hops| then ttl else |hops|, NearestVisible(hops, ttl, false))
  {
    hide NearestBelow, NearestAbove;
    NearestIsNearest(hops, if ttl < |hops| then ttl else |hops|);
  }

  lemma EvidenceExactly(region: Region, log: Log, hops: seq<Hop>, config: TraceConfig)
    requires config.Valid() && LegalLog(log) && ProbedOnce(log)
    requires StrictlyIncreasing(region.probeTtls) && region.probeTtls != [] && 1 <= region.first <= region.last
    ensures EvidenceIs(Classify(region, log, hops, config), region, log, hops, config)
  {
    hide *;
    RatesExactly(region, log, hops, config);
    OutcomesExactly(log, region.probeTtls, false);
    OutcomesExactly(log, region.probeTtls, true);
    BranchesExactly(log, region.probeTtls);
    CertificateExactly(region, log, config);
    if |hops| > 0 {
      NearestWithin(hops, region.first);
      NearestWithin(hops, region.last);
    }
    EvidenceJoins(region, log, hops, config);
  }

  lemma EvidenceJoins(region: Region, log: Log, hops: seq<Hop>, config: TraceConfig)
    requires config.Valid() && RatesAre(Classify(region, log, hops, config), log, region.probeTtls)
    requires OutcomesAre(MostCommon(SampleSignatures(InWindow(log, region.probeTtls, false), region.probeTtls)), log,
                         region.probeTtls, false)
    requires OutcomesAre(MostCommon(SampleSignatures(InWindow(log, region.probeTtls, true), region.probeTtls)), log,
                         region.probeTtls, true)
    requires BranchesAre(BranchesOf(region.probeTtls, InWindow(log, region.probeTtls, true)), log, region.probeTtls)
    requires CertificateCounts(CertificateOf(region, log, config), region, log, config)
    requires |hops| > 0 ==>
               && NearestBelow(hops, if region.first < |hops| then region.first else |hops|,
                               NearestVisible(hops, region.first, true))
               && NearestAbove(hops, if region.last < |hops| then region.last else |hops|,
                               NearestVisible(hops, region.last, false))
    ensures EvidenceIs(Classify(region, log, hops, config), region, log, hops, config)
  {
    hide Verdict, FindingsOf, CertificateOf, MostCommon, InWindow, NearestVisible, SampleSignatures, ModalAnswers,
         AnswersWithAddress, BranchesOf, CarriesMpls, CountIf, Distinct, RatesAre, OutcomesAre, BranchesAre,
         CertificateCounts, NearestBelow, NearestAbove, Ratio;
  }

  /** The reasons are the region's own, the one of its kind, and the label stack when one was seen. */
  lemma ReasonsExactly(region: Region, log: Log, hops: seq<Hop>, config: TraceConfig, reason: Reason)
    requires config.Valid()
    ensures var s := Classify(region, log, hops, config);
            && (s.mplsNamed <==> LabelSeen(log, region.probeTtls))
            && (reason in s.reasons
                <==> reason in region.reasons || Explains(reason, s.kind) || (reason.MplsStackCarried? && s.mplsNamed))
  {
    hide FindingsOf, CertificateOf, MostCommon, InWindow, NearestVisible, SampleSignatures, ModalAnswers,
         AnswersWithAddress, BranchesOf, CarriesMpls, CountIf, Distinct, Ratio, Verdict, Explains, LabelSeen;
    LabelsExactly(log, region.probeTtls);
    VerdictExplained(region, FindingsOf(region, log, hops));
  }

  lemma VerdictExplained(region: Region, f: Findings)
    ensures forall reason :: Explains(reason, Verdict(region, f).0) <==> reason == Verdict(region, f).1
  {
  }

  // ---------- Rapid-sweep edges ----------

  /** Everything a rapid-sweep claim says of its edge, counted over the log: as many samples as the fewer of
      the main flow's probes at its ends, and the lower of the two response rates. */
  ghost predicate EdgeCounts(s: Segment, log: Log, main: FlowKey, config: TraceConfig)
    requires config.Valid()
  {
    var c, left, right := s.certificate, MainProbes(log, s.first, main), MainProbes(log, s.last, main);
    && s.last == s.first + 1 && s.ingress.Some? && s.egress.Some?
    && MostAnswers(log, s.first, main, s.ingress.value) && MostAnswers(log, s.last, main, s.egress.value)
    && c.sampleCount == (if |left| < |right| then |left| else |right|) && c.sampleCount > 0
    && s.fixedOutcomes == [([(s.first, s.ingress), (s.last, s.egress)], c.sampleCount)]
    && s.variedOutcomes == [] && s.branches == [] && s.stability == Some(1.0) && s.responseRate.Some?
    && s.kind.Direct? && s.reasons == [AdjacentReplies] && !s.mplsNamed
    && (s.responseRate == Some(Share(MainAnswers(log, s.first, main), left))
        || s.responseRate == Some(Share(MainAnswers(log, s.last, main), right)))
    && s.responseRate.value <= Share(MainAnswers(log, s.first, main), left)
    && s.responseRate.value <= Share(MainAnswers(log, s.last, main), right)
    && c.minDetectable == config.minDetectable && c.requestedMiss == config.missProbability
    && c.missBound == Power(1.0 - config.minDetectable, c.sampleCount)
    && c.requiredSamples == config.Required() && (c.certified <==> c.sampleCount >= config.Required())
  }

  /** No address answered the main flow there more often. */
  ghost predicate MostAnswers(log: Log, ttl: nat, main: FlowKey, most: Ipv4Address) {
    forall address: Ipv4Address ::
      |MainAnswersFrom(log, ttl, main, address)| <= |MainAnswersFrom(log, ttl, main, most)|
  }

  lemma SeenHop(log: Log, main: FlowKey, hops: seq<Hop>, ttl: nat)
    requires LegalLog(log) && HopsOf(log, |hops|, main, hops) && 1 <= ttl <= |hops| && hops[ttl - 1].primary.Some?
    ensures hops[ttl - 1].sent == |MainProbes(log, ttl, main)| > 0
    ensures 1.0 - hops[ttl - 1].lossRate == Share(MainAnswers(log, ttl, main), MainProbes(log, ttl, main))
    ensures MostAnswers(log, ttl, main, hops[ttl - 1].primary.value)
  {
    hide SummarizeHop, MainProbes, MainAnswers, MainAnswersFrom, LegalLog, Share;
    assert hops[ttl - 1] == SummarizeHop(log, ttl - 1 + 1, main);
    HopIsCounted(log, ttl, main);
    ProbedWhenSeen(log, ttl, main);
  }

  lemma EdgeExactly(regions: seq<Region>, log: Log, main: FlowKey, hops: seq<Hop>, config: TraceConfig, ttl: nat)
    requires config.Valid() && LegalLog(log) && HopsOf(log, |hops|, main, hops) && ClearEdge(regions, hops, ttl)
    ensures EdgeCounts(DirectEdge(hops, ttl, config), log, main, config)
  {
    hide MainProbes, MainAnswers, LegalLog, Share, RequiredSamples, Covered, MostAnswers, HopsOf, Power;
    SeenHop(log, main, hops, ttl);
    SeenHop(log, main, hops, ttl + 1);
  }

  lemma ProbedWhenSeen(log: Log, ttl: nat, main: FlowKey)
    requires LegalLog(log) && SummarizeHop(log, ttl, main).primary.Some?
    ensures |MainProbes(log, ttl, main)| > 0
  {
    hide SummarizeHop, LegalLog;
    PrimaryIffAnswered(log, ttl, main);
    var o :| o in log && o.spec.ttl == ttl && o.spec.flow == main && o.Answered();
    var i :| 0 <= i < |log| && log[i] == o;
    assert i in MainProbes(log, ttl, main);
  }

  /** So for every claim of the direct edges. */
  lemma {:induction false} EdgesExactly(regions: seq<Region>, log: Log, main: FlowKey, hops: seq<Hop>,
                                        config: TraceConfig, n: nat, s: Segment)
    requires config.Valid() && LegalLog(log) && HopsOf(log, |hops|, main, hops)
    requires s in DirectEdges(regions, hops, config, n)
    ensures EdgeCounts(s, log, main, config)
  {
    hide LegalLog, HopsOf, ClearEdge, EdgeCounts;
    if n == 0 {
    } else if s in DirectEdges(regions, hops, config, n - 1) {
      EdgesExactly(regions, log, main, hops, config, n - 1, s);
    } else {
      EdgeExactly(regions, log, main, hops, config, n);
    }
  }
}
