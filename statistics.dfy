/** numpy's `np.median` and `np.percentile` (default "linear" method) over
    exact reals: order statistics of the ascending sort of the sample, with
    linear interpolation between neighbouring ranks. */
module Statistics {

  predicate Sorted(s: seq<real>) {
    forall i, j :: 0 <= i < j < |s| ==> s[i] <= s[j]
  }

  /** Places `x` into an ascending sequence. */
  function Insert(x: real, s: seq<real>): (r: seq<real>)
    requires Sorted(s)
    ensures |r| == |s| + 1
    ensures r[0] == if |s| == 0 || x <= s[0] then x else s[0]
    ensures Sorted(r)
    decreases |s|
  {
    if |s| == 0 || x <= s[0] then [x] + s
    else
      var tail := Insert(x, s[1..]);
      assert s[0] <= tail[0];
      [s[0]] + tail
  }

  /** Insertion adds exactly `x` to the values. */
  lemma {:induction false} InsertPermutes(x: real, s: seq<real>)
    requires Sorted(s)
    ensures multiset(Insert(x, s)) == multiset(s) + multiset{x}
    decreases |s|
  {
    if |s| > 0 && s[0] < x {
      InsertPermutes(x, s[1..]);
      assert s == [s[0]] + s[1..];
    }
  }

  /** The sample in ascending order (the order numpy sorts it into). */
  function Sort(xs: seq<real>): (r: seq<real>)
    ensures |r| == |xs|
    ensures Sorted(r)
  {
    if |xs| == 0 then [] else Insert(xs[0], Sort(xs[1..]))
  }

  /** Sorting keeps every value with its multiplicity. */
  lemma {:induction false} SortPermutes(xs: seq<real>)
    ensures multiset(Sort(xs)) == multiset(xs)
    decreases |xs|
  {
    if |xs| > 0 {
      SortPermutes(xs[1..]);
      InsertPermutes(xs[0], Sort(xs[1..]));
      assert xs == [xs[0]] + xs[1..];
    }
  }

  /** Two ascending sequences holding the same values are the same sequence. */
  lemma {:induction false} SortedUnique(a: seq<real>, b: seq<real>)
    requires Sorted(a) && Sorted(b)
    requires multiset(a) == multiset(b)
    ensures a == b
    decreases |a|
  {
    assert |a| == |multiset(a)| == |multiset(b)| == |b|;
    if |a| > 0 {
      assert a[0] in multiset(b);
      assert b[0] in multiset(a);
      assert a == [a[0]] + a[1..];
      assert b == [b[0]] + b[1..];
      assert a[0] == b[0];
      assert multiset(a[1..]) == multiset(a) - multiset{a[0]};
      assert multiset(b[1..]) == multiset(b) - multiset{b[0]};
      SortedUnique(a[1..], b[1..]);
    }
  }

  /** Sorting an already ascending sequence leaves it unchanged. */
  lemma SortOfSorted(s: seq<real>)
    requires Sorted(s)
    ensures Sort(s) == s
  {
    SortPermutes(s);
    SortedUnique(Sort(s), s);
  }

  /** The sort depends only on the multiset of values, not on draw order. */
  lemma SortPermutationInvariant(xs: seq<real>, ys: seq<real>)
    requires multiset(xs) == multiset(ys)
    ensures Sort(xs) == Sort(ys)
  {
    SortPermutes(xs);
    SortPermutes(ys);
    SortedUnique(Sort(xs), Sort(ys));
  }

  /** The fractional rank `(n - 1) * q / 100` numpy interpolates at. */
  function Rank(n: nat, q: real): (pos: real)
    requires n > 0 && 0.0 <= q <= 100.0
    ensures 0.0 <= pos <= (n - 1) as real
  {
    var m := (n - 1) as real;
    MulNonNeg(m, q);
    MulNonNeg(m, 100.0 - q);
    assert m * 100.0 - m * q == m * (100.0 - q);
    m * q / 100.0
  }

  /** Linear interpolation between the ranks around `pos` of an ascending sequence. */
  function Interpolate(s: seq<real>, pos: real): real
    requires |s| > 0 && 0.0 <= pos <= (|s| - 1) as real
  {
    var lo := pos.Floor;
    var frac := pos - lo as real;
    if lo + 1 < |s| then Lerp(s[lo], s[lo + 1], frac) else s[lo]
  }

  /** The point a fraction `f` of the way from `a` to `b`. */
  function Lerp(a: real, b: real, f: real): real {
    a + (b - a) * f
  }

  /** `np.percentile(xs, q)`. */
  function Percentile(xs: seq<real>, q: real): (p: real)
    requires |xs| > 0 && 0.0 <= q <= 100.0
    ensures Sort(xs)[0] <= p <= Sort(xs)[|xs| - 1]
  {
    var s := Sort(xs);
    InterpolateWithin(s, Rank(|xs|, q));
    Interpolate(s, Rank(|xs|, q))
  }

  /** `np.median(xs)`: the 50th percentile. */
  function Median(xs: seq<real>): real
    requires |xs| > 0
  {
    Percentile(xs, 50.0)
  }

  /** `x.Floor` is the integer part of `x`. */
  lemma FloorBounds(x: real)
    ensures x.Floor as real <= x < x.Floor as real + 1.0
  {
  }

  lemma FloorOf(k: int, f: real)
    requires 0.0 <= f < 1.0
    ensures (k as real + f).Floor == k
  {
    FloorBounds(k as real + f);
  }

  lemma MulNonNeg(a: real, b: real)
    requires a >= 0.0 && b >= 0.0
    ensures a * b >= 0.0
  {
  }

  lemma MulPos(a: real, b: real)
    requires a > 0.0 && b > 0.0
    ensures a * b > 0.0
  {
  }

  lemma LerpBounds(a: real, b: real, f: real)
    requires a <= b && 0.0 <= f <= 1.0
    ensures a <= Lerp(a, b, f) <= b
  {
    var d := b - a;
    MulNonNeg(d, f);
    MulNonNeg(d, 1.0 - f);
    assert d * (1.0 - f) == d - d * f;
  }

  lemma LerpMonotone(a: real, b: real, f1: real, f2: real)
    requires a <= b && f1 <= f2
    ensures Lerp(a, b, f1) <= Lerp(a, b, f2)
  {
    var d := b - a;
    MulNonNeg(d, f2 - f1);
    assert d * (f2 - f1) == d * f2 - d * f1;
  }

  lemma LerpScale(c: real, a: real, b: real, f: real)
    ensures Lerp(c * a, c * b, f) == c * Lerp(a, b, f)
  {
  }

  /** An interpolated value lies between its two neighbouring ranks. */
  lemma InterpolateBracket(s: seq<real>, pos: real)
    requires |s| > 0 && 0.0 <= pos <= (|s| - 1) as real
    requires Sorted(s)
    ensures var lo := pos.Floor;
      0 <= lo < |s| && s[lo] <= Interpolate(s, pos)
      && (lo + 1 < |s| ==> Interpolate(s, pos) <= s[lo + 1])
      && (lo + 1 == |s| ==> Interpolate(s, pos) == s[lo])
  {
    FloorBounds(pos);
    var lo := pos.Floor;
    var frac := pos - lo as real;
    if lo + 1 < |s| {
      LerpBounds(s[lo], s[lo + 1], frac);
    }
  }

  lemma InterpolateWithin(s: seq<real>, pos: real)
    requires |s| > 0 && 0.0 <= pos <= (|s| - 1) as real
    requires Sorted(s)
    ensures s[0] <= Interpolate(s, pos) <= s[|s| - 1]
  {
    InterpolateBracket(s, pos);
  }

  /** On an ascending sequence, interpolation is non-decreasing in the rank. */
  lemma InterpolateMonotone(s: seq<real>, p1: real, p2: real)
    requires |s| > 0 && 0.0 <= p1 <= p2 <= (|s| - 1) as real
    requires Sorted(s)
    ensures Interpolate(s, p1) <= Interpolate(s, p2)
  {
    var lo1, lo2 := p1.Floor, p2.Floor;
    FloorBounds(p1);
    FloorBounds(p2);
    InterpolateBracket(s, p1);
    InterpolateBracket(s, p2);
    if lo1 == lo2 {
      if lo1 + 1 < |s| {
        LerpMonotone(s[lo1], s[lo1 + 1], p1 - lo1 as real, p2 - lo1 as real);
      }
    } else {
      assert lo1 < lo2;
      assert s[lo1 + 1] <= s[lo2];
    }
  }

  /** Percentiles are ordered like their levels; in particular
      p10 <= median <= p90. */
  lemma {:induction false} PercentileMonotone(xs: seq<real>, q1: real, q2: real)
    requires |xs| > 0 && 0.0 <= q1 <= q2 <= 100.0
    ensures Percentile(xs, q1) <= Percentile(xs, q2)
  {
    var m := (|xs| - 1) as real;
    MulNonNeg(m, q2 - q1);
    assert m * q2 - m * q1 == m * (q2 - q1);
    InterpolateMonotone(Sort(xs), Rank(|xs|, q1), Rank(|xs|, q2));
  }

  /** Percentiles depend only on the multiset of draws: reordering the draws,
      or aggregating an already sorted copy, gives the same statistics. */
  lemma PercentilePermutationInvariant(xs: seq<real>, ys: seq<real>, q: real)
    requires |xs| > 0 && 0.0 <= q <= 100.0
    requires multiset(xs) == multiset(ys)
    ensures |ys| == |xs| && Percentile(xs, q) == Percentile(ys, q)
  {
    assert |xs| == |multiset(xs)| == |multiset(ys)| == |ys|;
    SortPermutationInvariant(xs, ys);
  }

  lemma PercentileIdempotent(xs: seq<real>, q: real)
    requires |xs| > 0 && 0.0 <= q <= 100.0
    ensures Percentile(Sort(xs), q) == Percentile(xs, q)
  {
    var s, pos := Sort(xs), Rank(|xs|, q);
    SortOfSorted(s);
    PercentileIs(xs, q, s, pos);
    PercentileIs(s, q, s, pos);
  }

  lemma InterpolateAtRank(s: seq<real>, k: int)
    requires 0 <= k < |s|
    ensures Interpolate(s, k as real) == s[k]
  {
    FloorOf(k, 0.0);
    assert k as real + 0.0 == k as real;
  }

  lemma InterpolateAtHalf(s: seq<real>, k: int)
    requires 0 <= k && k + 1 < |s|
    ensures Interpolate(s, k as real + 0.5) == (s[k] + s[k + 1]) / 2.0
  {
    FloorOf(k, 0.5);
  }

  /** The median is the middle element of the sorted sample for an odd count,
      and the mean of the two middle elements for an even count. */
  lemma MedianIsMiddle(xs: seq<real>)
    requires |xs| > 0
    ensures var s, n := Sort(xs), |xs|;
      if n % 2 == 1 then Median(xs) == s[n / 2]
      else Median(xs) == (s[n / 2 - 1] + s[n / 2]) / 2.0
  {
    var s, n := Sort(xs), |xs|;
    var k := n / 2;
    if n % 2 == 1 {
      MedianOdd(xs, s, k);
    } else {
      MedianEven(xs, s, k);
    }
  }

  lemma MedianOdd(xs: seq<real>, s: seq<real>, k: nat)
    requires |xs| == 2 * k + 1 && s == Sort(xs)
    ensures Median(xs) == s[k]
  {
    var pos := Rank(|xs|, 50.0);
    PercentileIs(xs, 50.0, s, pos);
    OddMiddleRank(k);
    InterpolateAtRank(s, k);
  }

  lemma MedianEven(xs: seq<real>, s: seq<real>, k: nat)
    requires |xs| == 2 * k && k > 0 && s == Sort(xs)
    ensures Median(xs) == (s[k - 1] + s[k]) / 2.0
  {
    var pos := Rank(|xs|, 50.0);
    PercentileIs(xs, 50.0, s, pos);
    EvenMiddleRank(k);
    InterpolateAtHalf(s, k - 1);
  }

  /** The 50th percentile of 2k + 1 values sits at rank k. */
  lemma OddMiddleRank(k: nat)
    ensures Rank(2 * k + 1, 50.0) == k as real
  {
    var m := (2 * k) as real;
    assert Rank(2 * k + 1, 50.0) == m * 50.0 / 100.0;
  }

  /** The 50th percentile of 2k values sits half-way between ranks k - 1 and k. */
  lemma EvenMiddleRank(k: nat)
    requires k > 0
    ensures Rank(2 * k, 50.0) == (k - 1) as real + 0.5
  {
    var m := (2 * k - 1) as real;
    assert Rank(2 * k, 50.0) == m * 50.0 / 100.0;
  }

  /** `f` applied to every draw. */
  function Map(f: real -> real, xs: seq<real>): (r: seq<real>)
    ensures |r| == |xs|
    ensures forall i :: 0 <= i < |xs| ==> r[i] == f(xs[i])
  {
    if |xs| == 0 then [] else [f(xs[0])] + Map(f, xs[1..])
  }

  ghost predicate StrictlyIncreasing(f: real -> real) {
    forall a, b :: a < b ==> f(a) < f(b)
  }

  lemma MapSorted(f: real -> real, s: seq<real>)
    requires StrictlyIncreasing(f) && Sorted(s)
    ensures Sorted(Map(f, s))
  {
    forall i, j | 0 <= i < j < |s| ensures f(s[i]) <= f(s[j]) {
      if s[i] < s[j] {
        assert f(s[i]) < f(s[j]);
      }
    }
  }

  lemma MapCons(f: real -> real, a: real, t: seq<real>)
    ensures Map(f, [a] + t) == [f(a)] + Map(f, t)
  {
    assert ([a] + t)[1..] == t;
  }

  lemma {:induction false} InsertMap(f: real -> real, x: real, s: seq<real>)
    requires StrictlyIncreasing(f) && Sorted(s)
    ensures Insert(f(x), Map(f, s)) == Map(f, Insert(x, s))
    decreases |s|
  {
    MapSorted(f, s);
    if |s| == 0 || x <= s[0] {
      if |s| > 0 && x < s[0] {
        assert f(x) < f(s[0]);
      }
      InsertMapFront(f, x, s);
    } else {
      assert f(s[0]) < f(x);
      InsertMap(f, x, s[1..]);
      InsertMapBehind(f, x, s);
    }
  }

  /** Inserting before the first element commutes with `f`. */
  lemma InsertMapFront(f: real -> real, x: real, s: seq<real>)
    requires Sorted(s) && Sorted(Map(f, s))
    requires |s| == 0 || (x <= s[0] && f(x) <= f(s[0]))
    ensures Insert(f(x), Map(f, s)) == Map(f, Insert(x, s))
  {
    assert Insert(x, s) == [x] + s;
    MapCons(f, x, s);
  }

  /** Inserting behind the first element commutes with `f` once it does on the tail. */
  lemma InsertMapBehind(f: real -> real, x: real, s: seq<real>)
    requires Sorted(s) && Sorted(Map(f, s))
    requires |s| > 0 && s[0] < x && f(s[0]) < f(x)
    requires Insert(f(x), Map(f, s[1..])) == Map(f, Insert(x, s[1..]))
    ensures Insert(f(x), Map(f, s)) == Map(f, Insert(x, s))
  {
    var t := Map(f, s);
    assert t[0] == f(s[0]);
    assert t[1..] == Map(f, s[1..]);
    InsertBehind(f(x), t);
    InsertBehind(x, s);
    MapCons(f, s[0], Insert(x, s[1..]));
  }

  lemma InsertBehind(x: real, s: seq<real>)
    requires Sorted(s) && |s| > 0 && s[0] < x
    ensures Insert(x, s) == [s[0]] + Insert(x, s[1..])
  {
  }

  /** Sorting commutes with any strictly increasing transformation of the draws. */
  lemma {:induction false} SortMap(f: real -> real, xs: seq<real>)
    requires StrictlyIncreasing(f)
    ensures Sort(Map(f, xs)) == Map(f, Sort(xs))
    decreases |xs|
  {
    if |xs| > 0 {
      SortMap(f, xs[1..]);
      assert Map(f, xs)[1..] == Map(f, xs[1..]);
      InsertMap(f, xs[0], Sort(xs[1..]));
    }
  }

  /** Multiplication by `c`, as a function. */
  function Times(c: real): real -> real {
    x => c * x
  }

  /** Every draw multiplied by the same factor. */
  function Scale(c: real, xs: seq<real>): (r: seq<real>)
    ensures |r| == |xs|
  {
    Map(Times(c), xs)
  }

  lemma TimesIncreasing(c: real)
    requires c > 0.0
    ensures StrictlyIncreasing(Times(c))
  {
    forall a, b | a < b ensures Times(c)(a) < Times(c)(b) {
      assert c * b - c * a == c * (b - a);
      MulPos(c, b - a);
    }
  }

  lemma InterpolateScale(c: real, s: seq<real>, pos: real)
    requires |s| > 0 && 0.0 <= pos <= (|s| - 1) as real
    ensures Interpolate(Scale(c, s), pos) == Times(c)(Interpolate(s, pos))
  {
    FloorBounds(pos);
    var lo := pos.Floor;
    var t := Scale(c, s);
    assert t[lo] == c * s[lo];
    if lo + 1 < |s| {
      assert t[lo + 1] == c * s[lo + 1];
      LerpScale(c, s[lo], s[lo + 1], pos - lo as real);
      assert Interpolate(t, pos) == Lerp(c * s[lo], c * s[lo + 1], pos - lo as real);
    } else {
      assert Interpolate(t, pos) == c * s[lo];
    }
    assert Times(c)(Interpolate(s, pos)) == c * Interpolate(s, pos);
  }

  lemma SortScale(c: real, xs: seq<real>)
    requires c > 0.0
    ensures Sort(Scale(c, xs)) == Scale(c, Sort(xs))
  {
    TimesIncreasing(c);
    SortMap(Times(c), xs);
  }

  /** A percentile of draws scaled by a positive factor is the scaled percentile. */
  lemma PercentileScale(c: real, xs: seq<real>, q: real)
    requires c > 0.0 && |xs| > 0 && 0.0 <= q <= 100.0
    ensures Percentile(Scale(c, xs), q) == Times(c)(Percentile(xs, q))
  {
    var s, pos := Sort(xs), Rank(|xs|, q);
    PercentileOfScaled(c, xs, q);
    PercentileIs(xs, q, s, pos);
    InterpolateScale(c, s, pos);
  }

  lemma MedianScale(c: real, xs: seq<real>)
    requires c > 0.0 && |xs| > 0
    ensures Median(Scale(c, xs)) == Times(c)(Median(xs))
  {
    PercentileScale(c, xs, 50.0);
  }

  lemma PercentileOfScaled(c: real, xs: seq<real>, q: real)
    requires c > 0.0 && |xs| > 0 && 0.0 <= q <= 100.0
    ensures Percentile(Scale(c, xs), q) == Interpolate(Scale(c, Sort(xs)), Rank(|xs|, q))
  {
    SortScale(c, xs);
    PercentileIs(Scale(c, xs), q, Scale(c, Sort(xs)), Rank(|xs|, q));
  }

  lemma PercentileIs(xs: seq<real>, q: real, s: seq<real>, pos: real)
    requires |xs| > 0 && 0.0 <= q <= 100.0
    requires s == Sort(xs) && pos == Rank(|xs|, q)
    ensures Percentile(xs, q) == Interpolate(s, pos)
  {
  }
}
