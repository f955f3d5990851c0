/** The CAP sample bound (stats.py), over exact reals. */
module Stats {
  import opened Sequences
  import opened Wrappers

  datatype StatsError = NotAProbability | NegativeSamples

  predicate IsProbability(x: real) {
    0.0 < x < 1.0
  }

  /** Multiplication under a name, so that proofs reason about products as terms. */
  function Times(x: real, y: real): real {
    x * y
  }

  function Power(x: real, n: nat): real {
    if n == 0 then 1.0 else Times(x, Power(x, n - 1))
  }

  function MissProbabilityBound(p: real, samples: int): Result<real, StatsError> {
    if !IsProbability(p) then Failure(NotAProbability)
    else if samples < 0 then Failure(NegativeSamples)
    else Success(Power(1.0 - p, samples))
  }

  lemma TimesMonotone(l: real, r: real, a: real, b: real)
    requires 0.0 <= l <= r && 0.0 <= a <= b
    ensures 0.0 <= Times(l, a) <= Times(r, b)
  {
    TimesDifference(r, l, a);
    TimesDifference(b, a, r);
    assert Times(l, a) <= Times(r, a);
    assert Times(r, a) <= Times(r, b);
  }

  /** A product of non-negative factors, and the difference of two products with a common one. */
  lemma TimesNonNegative(x: real, y: real)
    requires 0.0 <= x && 0.0 <= y
    ensures 0.0 <= Times(x, y)
  {
  }

  lemma TimesDifference(x: real, y: real, z: real)
    requires y <= x && 0.0 <= y && 0.0 <= z
    ensures 0.0 <= Times(y, z) <= Times(x, z)
    ensures Times(z, y) == Times(y, z) && Times(z, x) == Times(x, z)
  {
    var gap := x - y;
    TimesNonNegative(y, z);
    TimesNonNegative(gap, z);
    assert (y + gap) * z == y * z + gap * z;
  }

  lemma TimesStrict(l: real, r: real, a: real)
    requires l < r && 0.0 < a
    ensures Times(l, a) < Times(r, a)
  {
  }

  lemma TimesSplit(q: real, x: real)
    ensures Times(q, 1.0 + x) == q + Times(q, x)
  {
  }

  /** At most this many samples are ever needed: one more than 1 / (p * delta). */
  function SampleCap(p: real, delta: real): (cap: nat)
    requires IsProbability(p) && IsProbability(delta)
    ensures cap >= 1 && Times(cap as real, Times(p, delta)) > 1.0
  {
    CapSuffices(Times(p, delta), p, delta);
    (1.0 / Times(p, delta)).Floor + 1
  }

  lemma CapSuffices(mass: real, p: real, delta: real)
    requires IsProbability(p) && IsProbability(delta) && mass == Times(p, delta)
    ensures mass > 0.0 && (1.0 / mass).Floor >= 0
    ensures Times(((1.0 / mass).Floor + 1) as real, mass) > 1.0
  {
    TimesStrict(0.0, p, delta);
    var x := 1.0 / mass;
    assert Times(x, mass) == 1.0;
    assert x > 0.0;
    TimesStrict(x, (x.Floor + 1) as real, mass);
  }

  lemma {:induction false} PowerBounds(x: real, n: nat)
    requires 0.0 < x < 1.0
    ensures 0.0 < Power(x, n) <= 1.0
  {
    if n == 0 {
    } else {
      PowerBounds(x, n - 1);
      TimesStrict(0.0, x, Power(x, n - 1));
      TimesMonotone(x, 1.0, Power(x, n - 1), 1.0);
    }
  }

  lemma {:induction false} PowerAntitone(x: real, m: nat, n: nat)
    requires 0.0 < x < 1.0 && m <= n
    ensures Power(x, n) <= Power(x, m)
  {
    if m == n {
    } else {
      PowerAntitone(x, m, n - 1);
      PowerBounds(x, n - 1);
      TimesMonotone(x, 1.0, Power(x, n - 1), Power(x, n - 1));
    }
  }

  lemma BernoulliStep(p: real, q: real, m: real)
    requires 0.0 <= q && 0.0 <= m && Times(q, 1.0 + Times(m, p)) <= 1.0
    ensures Times(Times(1.0 - p, q), 1.0 + Times(m + 1.0, p)) <= 1.0
  {
    var excess := Times(q, Times(m + 1.0, Times(p, p)));
    assert Times(p, p) >= 0.0;
    assert Times(m + 1.0, Times(p, p)) >= 0.0;
    assert excess >= 0.0;
    calc {
      Times(Times(1.0 - p, q), 1.0 + Times(m + 1.0, p));
      q * ((1.0 - p) * (1.0 + (m + 1.0) * p));
      q * (1.0 + m * p - (m + 1.0) * (p * p));
      Times(q, 1.0 + Times(m, p)) - excess;
    }
  }

  /** (1 - p)^n (1 + np) <= 1: the geometric tail is below a harmonic one. */
  lemma {:induction false} Bernoulli(p: real, n: nat)
    requires IsProbability(p)
    ensures Times(Power(1.0 - p, n), 1.0 + Times(n as real, p)) <= 1.0
  {
    if n == 0 {
      assert Times(0.0, p) == 0.0;
      assert Times(1.0, 1.0) == 1.0;
    } else {
      Bernoulli(p, n - 1);
      PowerBounds(1.0 - p, n - 1);
      BernoulliStep(p, Power(1.0 - p, n - 1), (n - 1) as real);
      assert (n - 1) as real + 1.0 == n as real;
    }
  }

  lemma Reassociate(n: real, p: real, d: real)
    ensures Times(n, Times(p, d)) == Times(d, Times(n, p))
  {
  }

  /** The bound is met no later than the cap, so the search for it ends. */
  lemma BoundMetAtCap(p: real, delta: real, n: nat)
    requires IsProbability(p) && IsProbability(delta)
    requires n >= SampleCap(p, delta)
    ensures Power(1.0 - p, n) <= delta
  {
    var cap, q, np := SampleCap(p, delta), Power(1.0 - p, n), Times(n as real, p);
    TimesStrict(0.0, p, delta);
    TimesMonotone(cap as real, n as real, Times(p, delta), Times(p, delta));
    Reassociate(n as real, p, delta);
    Bernoulli(p, n);
    TimesSplit(q, np);
    if q > delta {
      TimesStrict(0.0, n as real, p);
      TimesMonotone(delta, q, np, np);
      assert false;
    }
  }

  predicate Insufficient(p: real, delta: real, n: nat) {
    Power(1.0 - p, n) > delta
  }

  function LeastFrom(p: real, delta: real, n: nat): (least: nat)
    requires IsProbability(p) && IsProbability(delta)
    requires 1 <= n
    requires forall k :: 1 <= k < n ==> Insufficient(p, delta, k)
    ensures n <= least
    ensures !Insufficient(p, delta, least)
    ensures forall k :: 1 <= k < least ==> Insufficient(p, delta, k)
    decreases SampleCap(p, delta) - n
  {
    if !Insufficient(p, delta, n) then n
    else
      assert n < SampleCap(p, delta) by {
        if n >= SampleCap(p, delta) { BoundMetAtCap(p, delta, n); }
      }
      LeastFrom(p, delta, n + 1)
  }

  /** ceil(log delta / log(1 - p)), at least 1: in exact arithmetic, the least such exponent. */
  function RequiredSamples(p: real, delta: real): Result<nat, StatsError> {
    if !IsProbability(p) || !IsProbability(delta) then Failure(NotAProbability)
    else Success(LeastFrom(p, delta, 1))
  }

  /** A sample count meets the requested bound exactly when it reaches RequiredSamples. */
  lemma RequiredSamplesExact(p: real, delta: real, n: nat)
    requires IsProbability(p) && IsProbability(delta) && n >= 1
    ensures n >= RequiredSamples(p, delta).value <==> Power(1.0 - p, n) <= delta
    ensures 1 <= RequiredSamples(p, delta).value <= SampleCap(p, delta)
  {
    var least := LeastFrom(p, delta, 1);
    if n >= least {
      PowerAntitone(1.0 - p, least, n);
    } else {
      assert Insufficient(p, delta, n);
    }
    var cap := SampleCap(p, delta);
    if least > cap {
      assert Insufficient(p, delta, cap);
      BoundMetAtCap(p, delta, cap);
    }
  }

  // ---------- Uniform draws without replacement ----------

  /** All ordered draws of n distinct tokens from a pool. */
  ghost function Draws<T(!new)>(pool: set<T>, n: nat): set<seq<T>>
    decreases n, 1
  {
    if n == 0 then {[]} else DrawsStarting(pool, pool, n)
  }

  /** The draws of n >= 1 tokens whose first token lies in `heads`. */
  ghost function DrawsStarting<T(!new)>(heads: set<T>, pool: set<T>, n: nat): set<seq<T>>
    requires n > 0
    decreases n, 0
  {
    set head, rest | head in heads && rest in Draws(pool - {head}, n - 1) :: [head] + rest
  }

  lemma {:induction false} DrawsAreDraws<T(!new)>(pool: set<T>, n: nat, s: seq<T>)
    ensures s in Draws(pool, n) <==> |s| == n && NoDuplicates(s) && forall x :: x in s ==> x in pool
    decreases n
  {
    if n > 0 && |s| > 0 {
      var head, rest := s[0], s[1..];
      DrawsAreDraws(pool - {head}, n - 1, rest);
      assert s == [head] + rest;
      DrawHead(pool, n, s);
      hide Draws, NoDuplicates;
      DuplicatesFromHead(s, pool);
    } else if n > 0 {
      assert Draws(pool, n) == DrawsStarting(pool, pool, n);
    }
  }

  /** A list of different members: its first element, and different others after it. */
  lemma DuplicatesFromHead<T>(s: seq<T>, pool: set<T>)
    requires s != []
    ensures NoDuplicates(s) && (forall x :: x in s ==> x in pool)
       <==> s[0] in pool && NoDuplicates(s[1..]) && forall x :: x in s[1..] ==> x in pool - {s[0]}
  {
    var rest := s[1..];
    assert forall i :: 1 <= i < |s| ==> s[i] == rest[i - 1];
    assert forall i :: 0 <= i < |rest| ==> rest[i] in rest && rest[i] == s[i + 1];
  }

  lemma DrawHead<T(!new)>(pool: set<T>, n: nat, s: seq<T>)
    requires n > 0 && |s| > 0
    ensures s in Draws(pool, n) <==> s[0] in pool && s[1..] in Draws(pool - {s[0]}, n - 1)
  {
    assert s == [s[0]] + s[1..];
    assert Draws(pool, n) == DrawsStarting(pool, pool, n);
    forall h, r | h in pool && r in Draws(pool - {h}, n - 1) && s == [h] + r
      ensures h == s[0] && r == s[1..]
    {
    }
  }

  /** The falling factorial: size (size - 1) ... with n factors. */
  function Falling(size: nat, n: nat): nat {
    if n == 0 then 1 else if size == 0 then 0 else size * Falling(size - 1, n - 1)
  }

  ghost function Prefixed<T(!new)>(head: T, tails: set<seq<T>>): set<seq<T>> {
    set rest | rest in tails :: [head] + rest
  }

  lemma {:induction false} PrefixedCount<T(!new)>(head: T, tails: set<seq<T>>)
    ensures |Prefixed(head, tails)| == |tails|
  {
    if tails == {} {
    } else {
      var t :| t in tails;
      PrefixedCount(head, tails - {t});
      forall u | u in tails - {t} ensures [head] + u != [head] + t {
        assert ([head] + u)[1..] == u && ([head] + t)[1..] == t;
      }
      assert Prefixed(head, tails) == Prefixed(head, tails - {t}) + {[head] + t};
    }
  }

  /** Splitting the possible first tokens splits the draws. */
  lemma DrawsSplit<T(!new)>(heads: set<T>, h: T, pool: set<T>, n: nat)
    requires n > 0 && h in heads
    ensures DrawsStarting(heads, pool, n)
         == DrawsStarting(heads - {h}, pool, n) + Prefixed(h, Draws(pool - {h}, n - 1))
    ensures DrawsStarting(heads - {h}, pool, n) !! Prefixed(h, Draws(pool - {h}, n - 1))
  {
    var with, without := Prefixed(h, Draws(pool - {h}, n - 1)), DrawsStarting(heads - {h}, pool, n);
    forall s | s in with ensures s !in without { assert s[0] == h; }
  }

  lemma {:induction false} DrawsStartingCount<T(!new)>(heads: set<T>, pool: set<T>, n: nat, each: nat, k: nat)
    requires n > 0 && heads <= pool && k == |heads|
    requires pool != {} ==> each == Falling(|pool| - 1, n - 1)
    ensures |DrawsStarting(heads, pool, n)| == k * each
    decreases n, 0, k
  {
    if k == 0 {
      assert heads == {};
      assert DrawsStarting(heads, pool, n) == {};
    } else {
      var h :| h in heads;
      HeadCount(heads, h, pool, n);
      DrawsStartingCount(heads - {h}, pool, n, each, k - 1);
      Distribute(k - 1, each);
    }
  }

  lemma HeadCount<T(!new)>(heads: set<T>, h: T, pool: set<T>, n: nat)
    requires n > 0 && h in heads && heads <= pool
    ensures |DrawsStarting(heads, pool, n)|
         == |DrawsStarting(heads - {h}, pool, n)| + Falling(|pool| - 1, n - 1)
    decreases n - 1, 3
  {
    DrawsSplit(heads, h, pool, n);
    HeadDraws(h, pool, n);
    DisjointCount(DrawsStarting(heads - {h}, pool, n), Prefixed(h, Draws(pool - {h}, n - 1)));
  }

  lemma HeadDraws<T(!new)>(h: T, pool: set<T>, n: nat)
    requires n > 0 && h in pool
    ensures |Prefixed(h, Draws(pool - {h}, n - 1))| == Falling(|pool| - 1, n - 1)
    decreases n - 1, 2
  {
    assert |pool - {h}| == |pool| - 1;
    DrawsCount(pool - {h}, n - 1);
    PrefixedCount(h, Draws(pool - {h}, n - 1));
  }

  lemma DisjointCount<T>(a: set<T>, b: set<T>)
    requires a !! b
    ensures |a + b| == |a| + |b|
  {
  }

  lemma Distribute(k: nat, f: nat)
    ensures (k + 1) * f == k * f + f
  {
  }

  lemma {:induction false} DrawsCount<T(!new)>(pool: set<T>, n: nat)
    ensures |Draws(pool, n)| == Falling(|pool|, n)
    decreases n, 1
  {
    if n == 0 {
    } else {
      DrawsStartingCount(pool, pool, n, if pool == {} then 0 else Falling(|pool| - 1, n - 1), |pool|);
    }
  }

  lemma {:induction false} RealProduct(a: nat, b: nat)
    ensures (a * b) as real == Times(a as real, b as real)
  {
    if a == 0 {
    } else {
      RealProduct(a - 1, b);
      Distribute(a - 1, b);
      TimesSplit(b as real, (a - 1) as real);
      assert Times(b as real, a as real) == Times(a as real, b as real);
      assert Times(b as real, (a - 1) as real) == Times((a - 1) as real, b as real);
    }
  }

  lemma FallingStep(l: real, size: real, a: real, b: real, p: real, q: real)
    requires 0.0 <= l <= Times(1.0 - p, size) && 0.0 <= a <= Times(q, b)
    ensures Times(l, a) <= Times(Times(1.0 - p, q), Times(size, b))
  {
    TimesMonotone(l, Times(1.0 - p, size), a, Times(q, b));
    assert Times(Times(1.0 - p, size), Times(q, b)) == Times(Times(1.0 - p, q), Times(size, b));
  }

  lemma FractionShrinks(size: nat, hits: nat, p: real)
    requires IsProbability(p) && hits <= size && size > 0 && hits as real >= Times(p, size as real)
    ensures hits as real >= Times(p, (size - 1) as real)
    ensures 0.0 <= (size - hits) as real <= Times(1.0 - p, size as real)
  {
    TimesMonotone(p, p, (size - 1) as real, size as real);
    assert Times(1.0 - p, size as real) == size as real - Times(p, size as real);
  }

  /** Falling(size - hits, n) <= (1 - p)^n Falling(size, n) whenever hits / size >= p. */
  lemma {:induction false} FallingBound(size: nat, hits: nat, n: nat, p: real)
    requires IsProbability(p) && hits <= size && hits as real >= Times(p, size as real)
    ensures Falling(size - hits, n) as real <= Times(Power(1.0 - p, n), Falling(size, n) as real)
  {
    if n == 0 {
    } else {
      if size > hits {
        FractionShrinks(size, hits, p);
        FallingBound(size - 1, hits, n - 1, p);
        RealProduct(size - hits, Falling(size - 1 - hits, n - 1));
        RealProduct(size, Falling(size - 1, n - 1));
        FallingStep((size - hits) as real, size as real, Falling(size - 1 - hits, n - 1) as real,
                    Falling(size - 1, n - 1) as real,
          p, Power(1.0 - p, n - 1));
      } else {
        PowerBounds(1.0 - p, n);
        TimesMonotone(0.0, Power(1.0 - p, n), 0.0, Falling(size, n) as real);
      }
    }
  }

  /** Of all equally likely draws of n tokens, at most (1 - p)^n miss every marked token,
      when at least a fraction p of the pool is marked; n >= RequiredSamples makes that delta. */
  lemma MissedDrawsBound<T(!new)>(pool: set<T>, marked: set<T>, n: nat, p: real, delta: real)
    requires IsProbability(p) && IsProbability(delta)
    requires marked <= pool && |marked| as real >= Times(p, |pool| as real)
    ensures |Draws(pool - marked, n)| as real <= Times(Power(1.0 - p, n), |Draws(pool, n)| as real)
    ensures n >= RequiredSamples(p, delta).value ==>
              |Draws(pool - marked, n)| as real <= Times(delta, |Draws(pool, n)| as real)
  {
    DrawsCount(pool, n);
    DrawsCount(pool - marked, n);
    assert pool == (pool - marked) + marked;
    assert |pool - marked| == |pool| - |marked|;
    FallingBound(|pool|, |marked|, n, p);
    if n >= RequiredSamples(p, delta).value {
      RequiredSamplesExact(p, delta, n);
      PowerBounds(1.0 - p, n);
      var total := |Draws(pool, n)| as real;
      TimesMonotone(Power(1.0 - p, n), delta, total, total);
    }
  }
}
