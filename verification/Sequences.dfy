/** The list idioms of the analysis: filtering, first-occurrence deduplication, stable sorting,
    counting and ascending enumeration. */
module Sequences {

  function Elements<T>(xs: seq<T>): set<T> {
    set x | x in xs
  }

  function Filter<T(!new)>(xs: seq<T>, keep: T -> bool): (r: seq<T>)
    ensures forall x :: x in r <==> x in xs && keep(x)
    ensures |r| <= |xs|
  {
    if xs == [] then []
    else
      var last := |xs| - 1;
      Filter(xs[..last], keep) + (if keep(xs[last]) then [xs[last]] else [])
  }

  lemma {:induction false} FilterKeepsDistinct<T(!new)>(xs: seq<T>, keep: T -> bool)
    requires forall i, j :: 0 <= i < j < |xs| ==> xs[i] != xs[j]
    ensures forall i, j :: 0 <= i < j < |Filter(xs, keep)| ==> Filter(xs, keep)[i] != Filter(xs, keep)[j]
  {
    if xs == [] {
    } else {
      var last := |xs| - 1;
      var front := Filter(xs[..last], keep);
      FilterKeepsDistinct(xs[..last], keep);
      forall i | 0 <= i < |front| ensures front[i] != xs[last] {
        assert front[i] in front;
        assert front[i] in xs[..last];
      }
    }
  }

  /** Each value once, in order of first occurrence. */
  function Distinct<T(==,!new)>(xs: seq<T>): (r: seq<T>)
    ensures forall x :: x in r <==> x in xs
    ensures forall i, j :: 0 <= i < j < |r| ==> r[i] != r[j]
  {
    if xs == [] then []
    else
      var last := |xs| - 1;
      var front := Distinct(xs[..last]);
      if xs[last] in front then front else front + [xs[last]]
  }

  lemma {:induction false} DistinctCount<T>(xs: seq<T>, r: seq<T>)
    requires forall i, j :: 0 <= i < j < |r| ==> r[i] != r[j]
    requires forall x :: x in r <==> x in xs
    ensures |r| == |Elements(xs)|
  {
    assert Elements(r) == Elements(xs);
    NoRepeatCount(r);
  }

  lemma {:induction false} NoRepeatCount<T>(r: seq<T>)
    requires forall i, j :: 0 <= i < j < |r| ==> r[i] != r[j]
    ensures |Elements(r)| == |r|
  {
    if r == [] {
    } else {
      var last := |r| - 1;
      NoRepeatCount(r[..last]);
      assert Elements(r) == Elements(r[..last]) + {r[last]};
      assert r[last] !in r[..last];
    }
  }

  // ---------- Stable sorting ----------

  function InsertBy<T>(x: T, xs: seq<T>, leq: (T, T) -> bool): (r: seq<T>)
    ensures multiset(r) == multiset(xs) + multiset{x}
  {
    if xs == [] then [x]
    else
      var last := |xs| - 1;
      assert xs == xs[..last] + [xs[last]];
      if leq(xs[last], x) then xs + [x] else InsertBy(x, xs[..last], leq) + [xs[last]]
  }

  function SortBy<T>(xs: seq<T>, leq: (T, T) -> bool): (r: seq<T>)
    ensures multiset(r) == multiset(xs)
  {
    if xs == [] then []
    else
      var last := |xs| - 1;
      assert xs == xs[..last] + [xs[last]];
      InsertBy(xs[last], SortBy(xs[..last], leq), leq)
  }

  lemma SortKeepsElements<T>(xs: seq<T>, leq: (T, T) -> bool)
    ensures |SortBy(xs, leq)| == |xs|
    ensures forall x :: x in SortBy(xs, leq) <==> x in xs
  {
    var r := SortBy(xs, leq);
    assert |multiset(r)| == |r| && |multiset(xs)| == |xs|;
    forall x ensures x in r <==> x in xs {
      assert x in r <==> x in multiset(r);
      assert x in xs <==> x in multiset(xs);
    }
  }

  ghost predicate TotalPreorder<T(!new)>(leq: (T, T) -> bool) {
    && (forall a, b :: leq(a, b) || leq(b, a))
    && (forall a, b, c :: leq(a, b) && leq(b, c) ==> leq(a, c))
  }

  ghost predicate SortedBy<T(!new)>(xs: seq<T>, leq: (T, T) -> bool) {
    forall i, j :: 0 <= i < j < |xs| ==> leq(xs[i], xs[j])
  }

  lemma SortedAppend<T(!new)>(xs: seq<T>, x: T, leq: (T, T) -> bool)
    requires SortedBy(xs, leq) && forall y :: y in xs ==> leq(y, x)
    ensures SortedBy(xs + [x], leq)
  {
  }

  lemma InsertElements<T>(x: T, xs: seq<T>, leq: (T, T) -> bool)
    ensures forall y :: y in InsertBy(x, xs, leq) ==> y == x || y in xs
  {
    forall y | y in InsertBy(x, xs, leq) ensures y == x || y in xs {
      assert y in multiset(InsertBy(x, xs, leq));
      assert y in multiset(xs) ==> y in xs;
    }
  }

  lemma {:induction false} InsertKeepsOrder<T(!new)>(x: T, xs: seq<T>, leq: (T, T) -> bool)
    requires TotalPreorder(leq) && SortedBy(xs, leq)
    ensures SortedBy(InsertBy(x, xs, leq), leq)
  {
    if xs == [] {
    } else {
      var last := |xs| - 1;
      var front := xs[..last];
      forall y | y in front ensures leq(y, xs[last]) {
      }
      if leq(xs[last], x) {
        forall y | y in xs ensures leq(y, x) {
          assert y == xs[last] || y in front;
        }
        SortedAppend(xs, x, leq);
      } else {
        InsertKeepsOrder(x, front, leq);
        InsertElements(x, front, leq);
        hide TotalPreorder, SortedBy;
        SortedAppend(InsertBy(x, front, leq), xs[last], leq);
      }
    }
  }

  lemma {:induction false} SortSorts<T(!new)>(xs: seq<T>, leq: (T, T) -> bool)
    requires TotalPreorder(leq)
    ensures SortedBy(SortBy(xs, leq), leq)
  {
    if xs == [] {
    } else {
      var last := |xs| - 1;
      SortSorts(xs[..last], leq);
      InsertKeepsOrder(xs[last], SortBy(xs[..last], leq), leq);
    }
  }

  /** No value occurs twice. */
  predicate NoDuplicates<T(==)>(xs: seq<T>) {
    forall i, j :: 0 <= i < j < |xs| ==> xs[i] != xs[j]
  }

  lemma {:induction false} DuplicatesByCount<T>(xs: seq<T>)
    ensures NoDuplicates(xs) <==> forall x :: multiset(xs)[x] <= 1
  {
    if xs == [] {
    } else {
      var last := |xs| - 1;
      DuplicatesByCount(xs[..last]);
      assert xs == xs[..last] + [xs[last]];
      assert NoDuplicates(xs) <==> NoDuplicates(xs[..last]) && xs[last] !in xs[..last];
      assert xs[last] in xs[..last] <==> multiset(xs[..last])[xs[last]] > 0;
      forall x ensures multiset(xs)[x] == multiset(xs[..last])[x] + (if x == xs[last] then 1 else 0) {
      }
      assert NoDuplicates(xs) ==> forall x :: multiset(xs)[x] <= 1;
      assert xs[last] in xs[..last] ==> multiset(xs)[xs[last]] > 1;
      forall x | multiset(xs[..last])[x] > 1 ensures multiset(xs)[x] > 1 {
      }
    }
  }

  lemma SortAddsNoDuplicates<T>(xs: seq<T>, leq: (T, T) -> bool)
    requires NoDuplicates(xs)
    ensures NoDuplicates(SortBy(xs, leq))
  {
    DuplicatesByCount(xs);
    DuplicatesByCount(SortBy(xs, leq));
  }

  // ---------- Counting ----------

  function CountIf<T(!new)>(xs: seq<T>, keep: T -> bool): nat {
    |Filter(xs, keep)|
  }

  predicate AtLeastAsFrequent<T>(a: (T, nat), b: (T, nat)) {
    a.1 >= b.1
  }

  /** Values with their multiplicities, most frequent first, ties in order of first occurrence. */
  function MostCommon<T(==,!new)>(xs: seq<T>): seq<(T, nat)> {
    SortBy(Tally(Distinct(xs), xs), AtLeastAsFrequent)
  }

  function Tally<T(==)>(values: seq<T>, xs: seq<T>): (r: seq<(T, nat)>)
    ensures |r| == |values|
    ensures forall i :: 0 <= i < |r| ==> r[i] == (values[i], multiset(xs)[values[i]])
  {
    seq(|values|, i requires 0 <= i < |values| => (values[i], multiset(xs)[values[i]]))
  }

  /** The first entry is a modal value; there is one exactly when there are values. */
  lemma MostCommonIsModal<T(!new)>(xs: seq<T>)
    ensures MostCommon(xs) == [] <==> xs == []
    ensures xs != [] ==>
              var top := MostCommon(xs)[0];
              && top.0 in xs && top.1 == multiset(xs)[top.0]
              && forall x :: x in xs ==> multiset(xs)[x] <= top.1
  {
    var tally := Tally(Distinct(xs), xs);
    FirstOfSorted(tally);
    if xs != [] {
      assert xs[0] in Distinct(xs);
      forall x | x in xs ensures (x, multiset(xs)[x]) in tally {
        var k :| 0 <= k < |Distinct(xs)| && Distinct(xs)[k] == x;
        assert tally[k] == (x, multiset(xs)[x]);
      }
      forall x | x in xs ensures multiset(xs)[x] <= MostCommon(xs)[0].1 {
        assert AtLeastAsFrequent(MostCommon(xs)[0], (x, multiset(xs)[x]));
      }
    }
  }

  /** One entry per distinct value. */
  lemma MostCommonCount<T(!new)>(xs: seq<T>)
    ensures |MostCommon(xs)| == |Elements(xs)|
  {
    SortKeepsElements<(T, nat)>(Tally(Distinct(xs), xs), AtLeastAsFrequent);
    DistinctCount(xs, Distinct(xs));
  }

  /** A value makes up the whole list exactly when it is the only one. */
  lemma {:induction false} OnlyValue<T>(xs: seq<T>, x: T)
    ensures multiset(xs)[x] <= |xs|
    ensures multiset(xs)[x] == |xs| <==> forall i :: 0 <= i < |xs| ==> xs[i] == x
  {
    if xs == [] {
    } else {
      var last := |xs| - 1;
      OnlyValue(xs[..last], x);
      assert xs == xs[..last] + [xs[last]];
    }
  }

  lemma FirstOfSorted<T(!new)>(tally: seq<(T, nat)>)
    ensures |SortBy(tally, AtLeastAsFrequent)| == |tally|
    ensures tally != [] ==>
              var top := SortBy(tally, AtLeastAsFrequent)[0];
              top in tally && forall e :: e in tally ==> AtLeastAsFrequent(top, e)
  {
    hide SortBy;
    SortKeepsElements<(T, nat)>(tally, AtLeastAsFrequent);
    SortSorts<(T, nat)>(tally, AtLeastAsFrequent);
    var sorted := SortBy(tally, AtLeastAsFrequent);
    if tally != [] {
      assert sorted[0] in sorted;
      forall e | e in tally ensures AtLeastAsFrequent(sorted[0], e) {
        var m :| 0 <= m < |sorted| && sorted[m] == e;
      }
    }
  }

  // ---------- Ascending enumeration ----------

  ghost predicate StrictlyIncreasing(xs: seq<nat>) {
    forall i, j :: 0 <= i < j < |xs| ==> xs[i] < xs[j]
  }

  /** The members of a set up to n, ascending. */
  function Ascending(s: set<nat>, n: nat): (r: seq<nat>)
    ensures StrictlyIncreasing(r)
    ensures forall t :: t in r <==> t in s && t <= n
  {
    var front := if n == 0 then [] else Ascending(s, n - 1);
    assert forall i :: 0 <= i < |front| ==> front[i] in front;
    front + (if n in s then [n] else [])
  }

  /** [first, first + 1, ..., last]. */
  function Range(first: nat, last: int): (r: seq<nat>)
    requires first <= last + 1
    ensures |r| == last + 1 - first
    ensures forall i :: 0 <= i < |r| ==> r[i] == first + i
  {
    seq(last + 1 - first, i => first + i)
  }

  lemma RangeElements(first: nat, last: int)
    requires first <= last + 1
    ensures StrictlyIncreasing(Range(first, last))
    ensures forall t :: t in Range(first, last) <==> first <= t <= last
  {
    forall t: nat | first <= t <= last ensures t in Range(first, last) {
      assert Range(first, last)[t - first] == t;
    }
  }

  /** {first, ..., last} as a set has last + 1 - first members. */
  lemma {:induction false} IntervalCount(s: set<nat>, first: nat, last: int)
    requires first <= last + 1
    requires forall t :: t in s <==> first <= t <= last
    ensures |s| == last + 1 - first
    decreases last + 1 - first
  {
    if first <= last {
      IntervalCount(s - {last}, first, last - 1);
    } else {
      assert s == {};
    }
  }

  // ---------- Concatenation ----------

  function Flatten<T>(parts: seq<seq<T>>): seq<T> {
    if parts == [] then [] else Flatten(parts[..|parts| - 1]) + parts[|parts| - 1]
  }

  lemma {:induction false} FlattenElements<T>(parts: seq<seq<T>>)
    ensures forall x :: x in Flatten(parts) <==> exists k :: 0 <= k < |parts| && x in parts[k]
  {
    if parts == [] {
    } else {
      var last := |parts| - 1;
      FlattenElements(parts[..last]);
      forall x ensures x in Flatten(parts) <==> exists k :: 0 <= k < |parts| && x in parts[k] {
        if x in Flatten(parts[..last]) {
          var k :| 0 <= k < last && x in parts[..last][k];
          assert x in parts[k];
        }
        if k :| 0 <= k < |parts| && x in parts[k] {
          assert k < last ==> x in parts[..last][k];
        }
      }
    }
  }

  lemma FlattenStep<T>(parts: seq<seq<T>>, k: nat)
    requires k <= |parts|
    ensures Flatten(parts[..k]) == if k == 0 then [] else Flatten(parts[..k - 1]) + parts[k - 1]
  {
    if k > 0 {
      assert parts[..k][..k - 1] == parts[..k - 1];
    }
  }
}
