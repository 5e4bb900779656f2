/** Latency statistics: the two capped sample buffers and the summary computed from them. */
module Stats {
  import opened Sorting

  // ---------------------------------------------------------------- two-pass reference definitions

  function AsReal(): int -> real { x => x as real }

  function SquaredDistance(c: real): int -> real { x => (x as real - c) * (x as real - c) }

  function Sum(xs: seq<int>): real { SumOver(xs, AsReal()) }

  /** The sum of squared deviations from c. */
  function SquaredDeviations(xs: seq<int>, c: real): real { SumOver(xs, SquaredDistance(c)) }

  lemma Distribute(b: real, u: real, v: real)
    ensures b * (u + v) == b * u + b * v
  {
  }

  /** n copies of a, added up. */
  function Times(n: nat, a: real): real {
    if n == 0 then 0.0 else Times(n - 1, a) + a
  }

  lemma {:induction false} TimesIsProduct(n: nat, a: real)
    ensures Times(n, a) == n as real * a
  {
    if n > 0 {
      TimesIsProduct(n - 1, a);
      Distribute(a, (n - 1) as real, 1.0);
    }
  }

  lemma {:induction false} TimesAdd(n: nat, a: real, b: real)
    ensures Times(n, a + b) == Times(n, a) + Times(n, b)
  {
    if n > 0 {
      TimesAdd(n - 1, a, b);
    }
  }

  function Sorted(xs: seq<int>): (r: seq<int>)
    ensures |r| == |xs|
  {
    SameLength(xs, SortBy(xs, Identity));
    SortBy(xs, Identity)
  }

  /** The rounded rank p*(n-1), before clamping. */
  function RawIndex(n: nat, p: real): int
    requires n > 0
  {
    (p * (n - 1) as real + 0.5).Floor
  }

  /** pct_sorted: nearest-rank percentile of an already sorted vector, 0 for an empty one. */
  function PctSorted(v: seq<int>, p: real): int
    requires 0.0 <= p
  {
    if v == [] then 0
    else
      var idx := RawIndex(|v|, p);
      assert p * (|v| - 1) as real >= 0.0;
      v[if idx >= |v| then |v| - 1 else idx]
  }

  function Percentile(xs: seq<int>, p: real): int
    requires 0.0 <= p
  {
    PctSorted(Sorted(xs), p)
  }

  /** The variance stands for the square of the reported standard deviation. */
  datatype Summary = Summary(
    count: nat, min: int, max: int, mean: real, variance: real,
    p50: int, p90: int, p95: int, p99: int, p999: int)

  const EMPTY_SUMMARY := Summary(0, 0, 0, 0.0, 0.0, 0, 0, 0, 0, 0)

  ghost predicate IsLeast(m: int, xs: seq<int>) {
    m in xs && forall x :: x in xs ==> m <= x
  }

  ghost predicate IsGreatest(m: int, xs: seq<int>) {
    m in xs && forall x :: x in xs ==> x <= m
  }

  /** The two-pass definition: the mean is the sum over the count, the variance is the average
      squared deviation from that mean. */
  ghost predicate HasMoments(s: Summary, xs: seq<int>) {
    && s.count == |xs|
    && IsLeast(s.min, xs)
    && IsGreatest(s.max, xs)
    && Times(|xs|, s.mean) == Sum(xs)
    && Times(|xs|, s.variance) == SquaredDeviations(xs, s.mean)
  }

  ghost predicate HasPercentiles(s: Summary, xs: seq<int>) {
    && s.p50 == Percentile(xs, 0.50)
    && s.p90 == Percentile(xs, 0.90)
    && s.p95 == Percentile(xs, 0.95)
    && s.p99 == Percentile(xs, 0.99)
    && s.p999 == Percentile(xs, 0.999)
  }

  /** What the summary of some samples is, by definition and with no running update. */
  ghost predicate IsSummary(s: Summary, xs: seq<int>) {
    if xs == [] then s == EMPTY_SUMMARY else HasMoments(s, xs) && HasPercentiles(s, xs)
  }

  // ---------------------------------------------------------------- the one-pass algorithm

  /** The line a + b*(x - c). */
  function Line(a: real, b: real, c: real): int -> real { x => a + b * (x as real - c) }

  lemma {:induction false} LineSum(xs: seq<int>, a: real, b: real, c: real)
    ensures SumOver(xs, Line(a, b, c)) == Times(|xs|, a) + b * (Sum(xs) - Times(|xs|, c))
  {
    if xs != [] {
      var n := |xs| - 1;
      LineSum(xs[..n], a, b, c);
      Distribute(b, Sum(xs[..n]) - Times(n, c), xs[n] as real - c);
    }
  }

  lemma CenteredLineSum(xs: seq<int>, a: real, b: real, c: real)
    requires Times(|xs|, c) == Sum(xs)
    ensures SumOver(xs, Line(a, b, c)) == Times(|xs|, a)
  {
    LineSum(xs, a, b, c);
    ZeroProduct(b, Sum(xs) - Times(|xs|, c));
  }

  lemma ZeroProduct(b: real, u: real)
    requires u == 0.0
    ensures b * u == 0.0
  {
  }

  lemma {:induction false} SumOverAdd(xs: seq<int>, f: int -> real, g: int -> real, k: int -> real)
    requires forall x :: f(x) == g(x) + k(x)
    ensures SumOver(xs, f) == SumOver(xs, g) + SumOver(xs, k)
  {
    if xs != [] {
      SumOverAdd(xs[..|xs| - 1], f, g, k);
    }
  }

  /** Moving the center of the squared deviations by h, away from the mean. */
  lemma ShiftCenter(xs: seq<int>, c: real, h: real)
    requires Times(|xs|, c) == Sum(xs)
    ensures SquaredDeviations(xs, c + h) == SquaredDeviations(xs, c) + Times(|xs|, h * h)
  {
    forall x: int
      ensures SquaredDistance(c + h)(x) == SquaredDistance(c)(x) + Line(h * h, -2.0 * h, c)(x)
    {
      ShiftOne(x as real, c, h);
    }
    SumOverAdd(xs, SquaredDistance(c + h), SquaredDistance(c), Line(h * h, -2.0 * h, c));
    CenteredLineSum(xs, h * h, -2.0 * h, c);
  }

  lemma ShiftOne(x: real, c: real, h: real)
    ensures (x - (c + h)) * (x - (c + h)) == (x - c) * (x - c) + (h * h + (-2.0 * h) * (x - c))
  {
    var d := x - c;
    assert x - (c + h) == d - h;
    assert (d - h) * (d - h) == d * d - 2.0 * h * d + h * h;
  }

  /** The state of the one-pass loop after the samples xs. */
  ghost predicate OnePass(xs: seq<int>, mean: real, m2: real) {
    && Times(|xs|, mean) == Sum(xs)
    && m2 == SquaredDeviations(xs, mean)
  }

  /** Welford's update: with the samples xs seen, taking x in moves the mean by delta/(|xs|+1)
      and adds delta*delta2 to the sum of squared deviations. */
  lemma WelfordStep(xs: seq<int>, x: int, mean: real, m2: real, delta: real, step: real, m2': real)
    requires OnePass(xs, mean, m2)
    requires delta == x as real - mean && step == delta / (|xs| + 1) as real
    requires m2' == m2 + delta * (delta - step)
    ensures OnePass(xs + [x], mean + step, m2')
  {
    TimesQuotient(|xs| + 1, delta, step);
    WelfordMean(xs, x, mean, step);
    ShiftCenter(xs, mean, step);
    SumOverAppend(xs, x, SquaredDistance(mean + step));
    WelfordDeviations(|xs|, delta, step);
  }

  lemma TimesQuotient(n: nat, a: real, q: real)
    requires n > 0 && q == a / n as real
    ensures Times(n, q) == a
  {
    TimesIsProduct(n, q);
  }

  lemma SumOverAppend(xs: seq<int>, x: int, f: int -> real)
    ensures SumOver(xs + [x], f) == SumOver(xs, f) + f(x)
  {
    assert (xs + [x])[..|xs|] == xs;
  }

  lemma WelfordMean(xs: seq<int>, x: int, mean: real, step: real)
    requires Times(|xs|, mean) == Sum(xs) && Times(|xs| + 1, step) == x as real - mean
    ensures Times(|xs| + 1, mean + step) == Sum(xs + [x])
  {
    TimesAdd(|xs| + 1, mean, step);
    SumOverAppend(xs, x, AsReal());
  }

  lemma WelfordDeviations(n: nat, delta: real, step: real)
    requires Times(n + 1, step) == delta
    ensures delta * (delta - step) == Times(n, step * step) + (delta - step) * (delta - step)
  {
    assert Times(n, step) == delta - step;
    TimesIsProduct(n, step);
    TimesIsProduct(n, step * step);
    SquareSplit(n as real, delta, step);
  }

  lemma SquareSplit(k: real, delta: real, step: real)
    requires k * step == delta - step
    ensures delta * (delta - step) == k * (step * step) + (delta - step) * (delta - step)
  {
    assert k * (step * step) == step * (delta - step);
  }

  lemma SortedEnds(xs: seq<int>)
    requires xs != []
    ensures IsLeast(Sorted(xs)[0], xs) && IsGreatest(Sorted(xs)[|xs| - 1], xs)
  {
    var v := Sorted(xs);
    assert v[0] in multiset(xs) && v[|xs| - 1] in multiset(xs);
    forall x | x in xs ensures v[0] <= x <= v[|xs| - 1] {
      assert x in multiset(v);
      var i :| 0 <= i < |v| && v[i] == x;
      AscendingEnds(v, i);
    }
  }

  lemma AscendingEnds(v: seq<int>, i: nat)
    requires Ascending(v, Identity) && i < |v|
    ensures v[0] <= v[i] <= v[|v| - 1]
  {
    assert Identity(v[0]) <= Identity(v[i]) <= Identity(v[|v| - 1]);
  }

  lemma ExtremesStep(xs: seq<int>, v: int, mn: int, mx: int)
    requires xs == [] || (IsLeast(mn, xs) && IsGreatest(mx, xs))
    requires xs == [] ==> mn == mx == v
    ensures IsLeast(if v < mn then v else mn, xs + [v])
    ensures IsGreatest(if v > mx then v else mx, xs + [v])
  {
  }

  /** The single Welford pass of compute_summary. */
  method WelfordPass(samples: seq<int>) returns (mn: int, mx: int, mean: real, m2: real)
    requires samples != []
    ensures IsLeast(mn, samples) && IsGreatest(mx, samples)
    ensures OnePass(samples, mean, m2)
  {
    mn, mx := samples[0], samples[0];
    mean, m2 := 0.0, 0.0;
    var n := 0;
    while n < |samples|
      invariant n <= |samples|
      invariant if n == 0 then mn == mx == samples[0] else IsLeast(mn, samples[..n]) && IsGreatest(mx, samples[..n])
      invariant OnePass(samples[..n], mean, m2)
    {
      var v := samples[n];
      ghost var seen, before, m2Before := samples[..n], mean, m2;
      assert samples[..n + 1] == seen + [v];
      ExtremesStep(seen, v, mn, mx);
      n := n + 1;
      if v < mn {
        mn := v;
      }
      if v > mx {
        mx := v;
      }
      var x := v as real;
      var delta := x - mean;
      var step := delta / n as real;
      mean := mean + step;
      var delta2 := x - mean;
      m2 := m2 + delta * delta2;
      assert delta2 == delta - step;
      WelfordStep(seen, v, before, m2Before, delta, step, m2);
    }
    assert samples[..n] == samples;
  }

  method ComputeSummary(samples: seq<int>) returns (s: Summary)
    ensures s == Summarize(samples)
    ensures samples == [] ==> s == Summary(0, 0, 0, 0.0, 0.0, 0, 0, 0, 0, 0)
  {
    if samples == [] {
      SummaryPermutation(samples, samples, EMPTY_SUMMARY, Summarize(samples));
      return EMPTY_SUMMARY;
    }
    var mn, mx, mean, m2 := WelfordPass(samples);
    var variance := if |samples| > 1 then m2 / |samples| as real else 0.0;
    var sorted := Sorted(samples);
    s := Summary(|samples|, mn, mx, mean, variance,
                 PctSorted(sorted, 0.50), PctSorted(sorted, 0.90), PctSorted(sorted, 0.95),
                 PctSorted(sorted, 0.99), PctSorted(sorted, 0.999));
    OnePassSummary(samples, m2, s);
  }

  lemma OnePassSummary(xs: seq<int>, m2: real, s: Summary)
    requires xs != [] && s.count == |xs| && IsLeast(s.min, xs) && IsGreatest(s.max, xs)
    requires OnePass(xs, s.mean, m2)
    requires s.variance == if |xs| > 1 then m2 / |xs| as real else 0.0
    requires HasPercentiles(s, xs)
    ensures s == Summarize(xs)
  {
    OnePassVariance(xs, s.mean, m2, s.variance);
    SummaryPermutation(xs, xs, s, Summarize(xs));
  }

  lemma OnePassVariance(xs: seq<int>, mean: real, m2: real, variance: real)
    requires xs != [] && OnePass(xs, mean, m2)
    requires variance == if |xs| > 1 then m2 / |xs| as real else 0.0
    ensures Times(|xs|, variance) == SquaredDeviations(xs, mean)
  {
    if |xs| == 1 {
      assert xs == [] + [xs[0]];
      SumOverAppend([], xs[0], AsReal());
      SumOverAppend([], xs[0], SquaredDistance(mean));
      assert Times(1, mean) == Times(0, mean) + mean;
      assert mean == xs[0] as real;
      assert Times(1, 0.0) == Times(0, 0.0) + 0.0;
      assert SquaredDistance(mean)(xs[0]) == 0.0;
    } else {
      TimesQuotient(|xs|, m2, variance);
    }
  }

  // ---------------------------------------------------------------- what a summary says

  /** A sum keeps a pointwise inequality. */
  lemma {:induction false} SumOverMonotone(xs: seq<int>, f: int -> real, g: int -> real)
    requires forall i :: 0 <= i < |xs| ==> f(xs[i]) <= g(xs[i])
    ensures SumOver(xs, f) <= SumOver(xs, g)
  {
    if xs != [] {
      var n := |xs| - 1;
      SumOverMonotone(xs[..n], f, g);
    }
  }

  function Constant(a: real): int -> real { x => a }

  lemma {:induction false} ConstantSum(xs: seq<int>, a: real)
    ensures SumOver(xs, Constant(a)) == Times(|xs|, a)
  {
    if xs != [] {
      ConstantSum(xs[..|xs| - 1], a);
    }
  }

  /** The mean lies between the extremes. */
  lemma MeanBounds(xs: seq<int>, s: Summary)
    requires xs != [] && HasMoments(s, xs)
    ensures s.min as real <= s.mean <= s.max as real
  {
    assert forall i :: 0 <= i < |xs| ==> xs[i] in xs;
    SumOverMonotone(xs, Constant(s.min as real), AsReal());
    SumOverMonotone(xs, AsReal(), Constant(s.max as real));
    ConstantSum(xs, s.min as real);
    ConstantSum(xs, s.max as real);
    TimesReflects(|xs|, s.min as real, s.mean);
    TimesReflects(|xs|, s.mean, s.max as real);
  }

  lemma {:induction false} TimesMonotone(n: nat, a: real, b: real)
    requires a < b
    ensures Times(n, a) <= Times(n, b) && (n > 0 ==> Times(n, a) < Times(n, b))
  {
    if n > 0 {
      TimesMonotone(n - 1, a, b);
    }
  }

  lemma TimesReflects(n: nat, a: real, b: real)
    requires n > 0 && Times(n, a) <= Times(n, b)
    ensures a <= b
  {
    if b < a {
      TimesMonotone(n, b, a);
    }
  }

  /** The variance lies between 0 and (max-mean)*(mean-min). */
  lemma VarianceBounds(xs: seq<int>, s: Summary)
    requires xs != [] && HasMoments(s, xs)
    ensures 0.0 <= s.variance <= (s.max as real - s.mean) * (s.mean - s.min as real)
  {
    var a := (s.max as real - s.mean) * (s.mean - s.min as real);
    DeviationsBelowChord(xs, s.min as real, s.max as real, s.mean, a);
    TimesReflects(|xs|, 0.0, s.variance);
    TimesReflects(|xs|, s.variance, a);
  }

  lemma DeviationsBelowChord(xs: seq<int>, lo: real, hi: real, mean: real, a: real)
    requires forall x :: x in xs ==> lo <= x as real <= hi
    requires Times(|xs|, mean) == Sum(xs)
    requires a == (hi - mean) * (mean - lo)
    ensures Times(|xs|, 0.0) <= SquaredDeviations(xs, mean) <= Times(|xs|, a)
  {
    var b := lo + hi - 2.0 * mean;
    UnderTheLine(xs, lo, hi, mean, a, b);
    SumOverMonotone(xs, Constant(0.0), SquaredDistance(mean));
    ConstantSum(xs, 0.0);
    BelowLine(xs, mean, a, b);
  }

  lemma BelowLine(xs: seq<int>, c: real, a: real, b: real)
    requires forall i :: 0 <= i < |xs| ==> SquaredDistance(c)(xs[i]) <= Line(a, b, c)(xs[i])
    requires Times(|xs|, c) == Sum(xs)
    ensures SquaredDeviations(xs, c) <= Times(|xs|, a)
  {
    SumOverMonotone(xs, SquaredDistance(c), Line(a, b, c));
    CenteredLineSum(xs, a, b, c);
  }

  lemma UnderTheLine(xs: seq<int>, lo: real, hi: real, mean: real, a: real, b: real)
    requires forall x :: x in xs ==> lo <= x as real <= hi
    requires a == (hi - mean) * (mean - lo) && b == lo + hi - 2.0 * mean
    ensures forall i :: 0 <= i < |xs| ==> Constant(0.0)(xs[i]) <= SquaredDistance(mean)(xs[i])
    ensures forall i :: 0 <= i < |xs| ==> SquaredDistance(mean)(xs[i]) <= Line(a, b, mean)(xs[i])
  {
    forall i | 0 <= i < |xs|
      ensures Constant(0.0)(xs[i]) <= SquaredDistance(mean)(xs[i]) <= Line(a, b, mean)(xs[i])
    {
      assert xs[i] in xs;
      OneUnderTheLine(xs[i], lo, hi, mean, a, b);
    }
  }

  lemma OneUnderTheLine(v: int, lo: real, hi: real, mean: real, a: real, b: real)
    requires lo <= v as real <= hi && a == (hi - mean) * (mean - lo) && b == lo + hi - 2.0 * mean
    ensures Constant(0.0)(v) <= SquaredDistance(mean)(v) <= Line(a, b, mean)(v)
  {
    UnderTheChord(hi - mean, mean - lo, v as real - mean, a, b);
  }

  /** A parabola lies under its chord: d lies between -q and p. */
  lemma UnderTheChord(p: real, q: real, d: real, a: real, b: real)
    requires d <= p && 0.0 <= q + d && a == p * q && b == p - q
    ensures 0.0 <= d * d <= a + b * d
  {
    assert (p - d) * (q + d) >= 0.0;
    assert (p - d) * (q + d) == p * q + (p - q) * d - d * d;
    assert d * d >= 0.0;
  }

  /** The summary is determined by the samples, and by which samples were stored rather than their order. */
  lemma SummaryPermutation(xs: seq<int>, ys: seq<int>, s: Summary, t: Summary)
    requires multiset(xs) == multiset(ys)
    requires IsSummary(s, xs) && IsSummary(t, ys)
    ensures s == t
  {
    SameLength(xs, ys);
    if xs != [] {
      MomentsPermutation(xs, ys, s, t);
      AscendingIntsAreUnique(Sorted(xs), Sorted(ys));
    }
  }

  lemma MomentsPermutation(xs: seq<int>, ys: seq<int>, s: Summary, t: Summary)
    requires multiset(xs) == multiset(ys) && xs != [] && |xs| == |ys|
    requires HasMoments(s, xs) && HasMoments(t, ys)
    ensures s.min == t.min && s.max == t.max && s.mean == t.mean && s.variance == t.variance
  {
    assert s.min in multiset(xs) && t.min in multiset(ys) && s.max in multiset(xs) && t.max in multiset(ys);
    assert s.min in ys && t.min in xs && s.max in ys && t.max in xs;
    SumOverPermutation(xs, ys, AsReal());
    TimesReflects(|xs|, s.mean, t.mean);
    TimesReflects(|xs|, t.mean, s.mean);
    SumOverPermutation(xs, ys, SquaredDistance(s.mean));
    TimesReflects(|xs|, s.variance, t.variance);
    TimesReflects(|xs|, t.variance, s.variance);
  }

  /** Every list of samples has a summary. */
  lemma SummaryExists(xs: seq<int>)
    ensures exists s :: IsSummary(s, xs)
  {
    if xs == [] {
      assert IsSummary(EMPTY_SUMMARY, xs);
    } else {
      SortedEnds(xs);
      var mean := Sum(xs) / |xs| as real;
      TimesQuotient(|xs|, Sum(xs), mean);
      WitnessSummary(xs, mean);
    }
  }

  lemma WitnessSummary(xs: seq<int>, mean: real)
    requires xs != [] && Times(|xs|, mean) == Sum(xs)
    ensures exists s :: IsSummary(s, xs)
  {
    SortedEnds(xs);
    var variance := SquaredDeviations(xs, mean) / |xs| as real;
    TimesQuotient(|xs|, SquaredDeviations(xs, mean), variance);
    var s := Summary(|xs|, Sorted(xs)[0], Sorted(xs)[|xs| - 1], mean, variance,
                     Percentile(xs, 0.50), Percentile(xs, 0.90), Percentile(xs, 0.95),
                     Percentile(xs, 0.99), Percentile(xs, 0.999));
    assert HasMoments(s, xs);
    assert HasPercentiles(s, xs);
    assert IsSummary(s, xs);
  }

  /** The summary of some samples; SummaryPermutation shows that there is only one. */
  ghost function Summarize(xs: seq<int>): (s: Summary)
    ensures IsSummary(s, xs)
    ensures s.count == |xs|
  {
    SummaryExists(xs);
    var s :| IsSummary(s, xs);
    s
  }

  // ---------------------------------------------------------------- percentiles

  lemma ProductMonotone(a: real, b: real, w: real)
    requires a <= b && 0.0 <= w
    ensures a * w <= b * w
  {
    assert 0.0 <= (b - a) * w;
  }

  /** For p in [0,1] the rounded rank is a valid index, so the clamp is never taken; it grows with p. */
  lemma RawIndexInRange(n: nat, p: real, q: real)
    requires n > 0 && 0.0 <= p <= q <= 1.0
    ensures 0 <= RawIndex(n, p) <= RawIndex(n, q) < n
  {
    var w := (n - 1) as real;
    ProductMonotone(0.0, p, w);
    ProductMonotone(p, q, w);
    ProductMonotone(q, 1.0, w);
  }

  function CountWhere(xs: seq<int>, p: int -> bool): nat {
    if xs == [] then 0 else CountWhere(xs[..|xs| - 1], p) + if p(xs[|xs| - 1]) then 1 else 0
  }

  function Indicator(p: int -> bool): int -> real { x => if p(x) then 1.0 else 0.0 }

  lemma {:induction false} CountIsSum(xs: seq<int>, p: int -> bool)
    ensures CountWhere(xs, p) as real == SumOver(xs, Indicator(p))
  {
    if xs != [] {
      CountIsSum(xs[..|xs| - 1], p);
    }
  }

  function AtMost(v: int): int -> bool { x => x <= v }

  function AtLeast(v: int): int -> bool { x => x >= v }

  lemma {:induction false} CountAscending(v: seq<int>, k: nat, n: nat)
    requires Ascending(v, Identity) && k < |v| && n <= |v|
    ensures CountWhere(v[..n], AtMost(v[k])) >= if n <= k + 1 then n else k + 1
    ensures CountWhere(v[..n], AtLeast(v[k])) >= if n <= k then 0 else n - k
  {
    if n > 0 {
      CountAscending(v, k, n - 1);
      assert v[..n][..n - 1] == v[..n - 1];
      assert n - 1 < k ==> Identity(v[n - 1]) <= Identity(v[k]);
      assert n - 1 > k ==> Identity(v[k]) <= Identity(v[n - 1]);
    }
  }

  /** The index nearest to p*(n-1), with halves rounded up. */
  predicate NearestRank(i: nat, n: nat, p: real) {
    i as real - 0.5 <= p * (n - 1) as real < i as real + 0.5
  }

  /** v is the sample at index i of any ascending arrangement: it is one of them, at least i+1 of them are at
      most v and at least n-i are at least v. */
  ghost predicate OrderStatistic(v: int, xs: seq<int>, i: nat) {
    v in xs && CountWhere(xs, AtMost(v)) >= i + 1 && CountWhere(xs, AtLeast(v)) >= |xs| - i
  }

  /** v is the nearest-rank p-percentile of the samples. */
  ghost predicate IsPercentile(v: int, xs: seq<int>, p: real) {
    exists i: nat :: i < |xs| && NearestRank(i, |xs|, p) && OrderStatistic(v, xs, i)
  }

  /** The p-percentile stands at the index nearest to p*(n-1) of the sorted samples. */
  lemma PercentileRank(xs: seq<int>, p: real) returns (i: nat)
    requires xs != [] && 0.0 <= p <= 1.0
    ensures i < |xs| && i as real - 0.5 <= p * (|xs| - 1) as real < i as real + 0.5
    ensures Percentile(xs, p) == Sorted(xs)[i] && OrderStatistic(Percentile(xs, p), xs, i)
  {
    RawIndexInRange(|xs|, p, p);
    i := RawIndex(|xs|, p);
    RankInSorted(xs, Sorted(xs), i);
  }

  lemma PercentileIs(xs: seq<int>, p: real)
    requires xs != [] && 0.0 <= p <= 1.0
    ensures IsPercentile(Percentile(xs, p), xs, p)
  {
    var i := PercentileRank(xs, p);
    assert NearestRank(i, |xs|, p);
  }

  /** Each reported percentile is the nearest-rank percentile of its own p. */
  lemma SummaryPercentiles(xs: seq<int>, s: Summary)
    requires xs != [] && IsSummary(s, xs)
    ensures IsPercentile(s.p50, xs, 0.5) && IsPercentile(s.p90, xs, 0.9) && IsPercentile(s.p95, xs, 0.95)
    ensures IsPercentile(s.p99, xs, 0.99) && IsPercentile(s.p999, xs, 0.999)
  {
    PercentileIs(xs, 0.5);
    PercentileIs(xs, 0.9);
    PercentileIs(xs, 0.95);
    PercentileIs(xs, 0.99);
    PercentileIs(xs, 0.999);
  }

  /** The definition leaves no choice: a list of samples has one nearest-rank percentile for each p. */
  lemma PercentileUnique(v: int, w: int, xs: seq<int>, p: real)
    requires IsPercentile(v, xs, p) && IsPercentile(w, xs, p)
    ensures v == w
  {
    var i: nat :| i < |xs| && NearestRank(i, |xs|, p) && OrderStatistic(v, xs, i);
    var j: nat :| j < |xs| && NearestRank(j, |xs|, p) && OrderStatistic(w, xs, j);
    assert i == j;
    if v < w {
      CountSplits(xs, v, w);
    } else if w < v {
      CountSplits(xs, w, v);
    }
  }

  lemma {:induction false} CountSplits(xs: seq<int>, v: int, w: int)
    requires v < w
    ensures CountWhere(xs, AtMost(v)) + CountWhere(xs, AtLeast(w)) <= |xs|
  {
    if xs != [] {
      CountSplits(xs[..|xs| - 1], v, w);
    }
  }

  lemma RankInSorted(xs: seq<int>, v: seq<int>, idx: nat)
    requires multiset(v) == multiset(xs) && Ascending(v, Identity) && idx < |v| == |xs|
    ensures v[idx] in xs
    ensures CountWhere(xs, AtMost(v[idx])) >= idx + 1
    ensures CountWhere(xs, AtLeast(v[idx])) >= |xs| - idx
  {
    assert v[idx] in multiset(xs);
    CountAscending(v, idx, |v|);
    assert v[..|v|] == v;
    CountPermutation(xs, v, AtMost(v[idx]));
    CountPermutation(xs, v, AtLeast(v[idx]));
  }

  lemma CountPermutation(xs: seq<int>, ys: seq<int>, p: int -> bool)
    requires multiset(xs) == multiset(ys)
    ensures CountWhere(xs, p) == CountWhere(ys, p)
  {
    CountIsSum(xs, p);
    CountIsSum(ys, p);
    SumOverPermutation(xs, ys, Indicator(p));
  }

  /** The reported percentiles are ordered and lie between the extremes. */
  lemma PercentilesOrdered(xs: seq<int>, s: Summary)
    requires xs != [] && IsSummary(s, xs)
    ensures s.min <= s.p50 <= s.p90 <= s.p95 <= s.p99 <= s.p999 <= s.max
  {
    var v, n := Sorted(xs), |xs|;
    SortedEnds(xs);
    RawIndexInRange(n, 0.50, 0.90);
    RawIndexInRange(n, 0.90, 0.95);
    RawIndexInRange(n, 0.95, 0.99);
    RawIndexInRange(n, 0.99, 0.999);
    forall i, j | 0 <= i <= j < n ensures v[i] <= v[j] {
      assert i < j ==> Identity(v[i]) <= Identity(v[j]);
    }
  }

  // ---------------------------------------------------------------- the sample buffers

  const DEFAULT_CAP: nat := 200000

  datatype Caps = Caps(total: nat, window: nat)

  const DEFAULT_CAPS := Caps(DEFAULT_CAP, DEFAULT_CAP)

  datatype Buffers = Buffers(total: seq<int>, window: seq<int>)

  const NO_SAMPLES := Buffers([], [])

  /** LatencyStat::add: a negative sample is ignored, a full buffer drops the sample. */
  function AddSample(b: Buffers, caps: Caps, ns: int): Buffers {
    if ns < 0 then b
    else Buffers(if |b.total| < caps.total then b.total + [ns] else b.total,
                 if |b.window| < caps.window then b.window + [ns] else b.window)
  }

  class LatencyStat {
    const caps: Caps
    var totalSamples: seq<int>
    var windowSamples: seq<int>

    ghost function Value(): Buffers
      reads this
    {
      Buffers(totalSamples, windowSamples)
    }

    constructor (caps: Caps)
      ensures this.caps == caps && Value() == NO_SAMPLES
    {
      this.caps := caps;
      totalSamples, windowSamples := [], [];
    }

    method Add(ns: int)
      modifies this
      ensures Value() == AddSample(old(Value()), caps, ns)
    {
      if ns < 0 {
        return;
      }
      if |totalSamples| < caps.total {
        totalSamples := totalSamples + [ns];
      }
      if |windowSamples| < caps.window {
        windowSamples := windowSamples + [ns];
      }
    }

    method SummaryTotal() returns (s: Summary)
      ensures s == Summarize(totalSamples)
    {
      s := ComputeSummary(totalSamples);
    }

    method SummaryWindowAndReset() returns (s: Summary)
      modifies this
      ensures s == Summarize(old(windowSamples))
      ensures Value() == old(Value()).(window := [])
    {
      var copy := windowSamples;
      windowSamples := [];
      s := ComputeSummary(copy);
    }
  }

  // ---------------------------------------------------------------- buffers over whole histories

  datatype Event = Sample(ns: int) | Reset

  function Take(xs: seq<int>, n: nat): seq<int> {
    if |xs| <= n then xs else xs[..n]
  }

  /** The buffers after a history of adds and window resets. */
  function Replay(caps: Caps, es: seq<Event>): Buffers {
    if es == [] then NO_SAMPLES
    else
      var b := Replay(caps, es[..|es| - 1]);
      match es[|es| - 1]
      case Sample(ns) => AddSample(b, caps, ns)
      case Reset => b.(window := [])
  }

  /** The non-negative samples of a history, in order. */
  function NonNegative(es: seq<Event>): seq<int> {
    if es == [] then []
    else
      var rest := NonNegative(es[..|es| - 1]);
      match es[|es| - 1]
      case Sample(ns) => if ns < 0 then rest else rest + [ns]
      case Reset => rest
  }

  /** The part of a history after its last reset. */
  function SinceReset(es: seq<Event>): seq<Event> {
    if es == [] || es[|es| - 1].Reset? then [] else SinceReset(es[..|es| - 1]) + [es[|es| - 1]]
  }

  /** Everything the window resets handed out, one window after the other, then what is pending. */
  function AllWindows(caps: Caps, es: seq<Event>): seq<int> {
    Drained(caps, es) + Replay(caps, es).window
  }

  function Drained(caps: Caps, es: seq<Event>): seq<int> {
    if es == [] then []
    else
      var before := es[..|es| - 1];
      if es[|es| - 1].Reset? then Drained(caps, before) + Replay(caps, before).window else Drained(caps, before)
  }

  /** The total buffer is the first caps.total non-negative samples ever added; the window is the
      first caps.window of those added since the last reset. */
  lemma {:induction false} BuffersArePrefixes(caps: Caps, es: seq<Event>)
    ensures Replay(caps, es).total == Take(NonNegative(es), caps.total)
    ensures Replay(caps, es).window == Take(NonNegative(SinceReset(es)), caps.window)
  {
    if es != [] {
      var n := |es| - 1;
      BuffersArePrefixes(caps, es[..n]);
      if es[n].Sample? {
        assert SinceReset(es)[..|SinceReset(es)| - 1] == SinceReset(es[..n]);
      }
    }
  }

  /** When no cap was ever hit the windows, laid end to end, are exactly the total buffer.
      Whenever the window cap is not the smaller one, the windows hold at least as many samples
      as the total buffer, whatever was dropped. */
  lemma {:induction false} WindowsVersusTotal(caps: Caps, es: seq<Event>)
    ensures |NonNegative(es)| <= caps.total && |NonNegative(es)| <= caps.window
        ==> AllWindows(caps, es) == Replay(caps, es).total == NonNegative(es)
    ensures caps.window >= caps.total ==> |AllWindows(caps, es)| >= |Replay(caps, es).total|
  {
    if es != [] {
      WindowsVersusTotal(caps, es[..|es| - 1]);
      BuffersArePrefixes(caps, es[..|es| - 1]);
    }
  }
}
