// The peak detector of the charge-tuning demo and the voltages it reports,
// over exact reals.  The square root of the C library is a parameter: a
// non-negative number whose square is the variance.
module Peaks {
  import opened Prelude

  type Signal = seq<real>

  function Sum(s: Signal): real {
    if s == [] then 0.0 else Sum(s[..|s| - 1]) + s[|s| - 1]
  }

  function Mean(s: Signal): real
    requires s != []
  {
    Sum(s) / |s| as real
  }

  function Square(x: real): real {
    x * x
  }

  // The sum of the squared distances of the samples from c.
  function SumOfSquares(s: Signal, c: real): real {
    if s == [] then 0.0 else SumOfSquares(s[..|s| - 1], c) + Square(s[|s| - 1] - c)
  }

  function Variance(s: Signal): real
    requires s != []
  {
    SumOfSquares(s, Mean(s)) / |s| as real
  }

  function Magnitudes(s: Signal): Signal {
    seq(|s|, i requires 0 <= i < |s| => Abs(s[i]))
  }

  ghost predicate IsSquareRoot(r: real, v: real) {
    r >= 0.0 && r * r == v
  }

  // An interior sample above the threshold and not below either neighbour.
  predicate Qualifies(s: Signal, threshold: real, i: int) {
    1 <= i < |s| - 1 && s[i] >= s[i - 1] && s[i] >= s[i + 1] && s[i] > threshold
  }

  // A qualifying sample whose left neighbour does not qualify with the same value.
  predicate Reported(s: Signal, threshold: real, i: int) {
    Qualifies(s, threshold, i) && !(s[i - 1] == s[i] && Qualifies(s, threshold, i - 1))
  }

  ghost predicate StrictlyIncreasing(p: seq<int>) {
    forall a, b :: 0 <= a < b < |p| ==> p[a] < p[b]
  }

  ghost predicate FlatFrom(s: Signal, a: int, b: int) {
    0 <= a <= b < |s| && forall m :: a <= m <= b ==> s[m] == s[a]
  }

  ghost predicate IsPeakList(s: Signal, threshold: real, p: seq<int>) {
    StrictlyIncreasing(p) && forall i :: i in p <==> Reported(s, threshold, i)
  }

  // The threshold that the detector derives from the samples themselves.
  function Threshold(s: Signal, sigma: real, deviation: real): real
    requires s != []
  {
    Mean(s) + sigma * deviation
  }

  method AddUp(s: Signal) returns (sum: real)
    ensures sum == Sum(s)
  {
    sum := 0.0;
    for i := 0 to |s|
      invariant sum == Sum(s[..i])
    {
      assert s[..i + 1][..i] == s[..i];
      sum := sum + s[i];
    }
    assert s[..|s|] == s;
  }

  // The scan over the samples; a plateau is skipped once its first sample is taken.
  method FindPeaks(s: Signal, threshold: real) returns (peaks: seq<int>)
    ensures IsPeakList(s, threshold, peaks)
  {
    peaks := [];
    var i := 1;
    while i < |s| - 1
      invariant 1 <= i && (|s| >= 2 ==> i <= |s| - 1)
      invariant forall k :: k in peaks ==> k < i
      invariant StrictlyIncreasing(peaks)
      invariant forall k :: k < i ==> (k in peaks <==> Reported(s, threshold, k))
      invariant Qualifies(s, threshold, i - 1) && i < |s| - 1 ==> s[i - 1] != s[i]
    {
      if Qualifies(s, threshold, i) {
        var plateauStart, plateauEnd := i, i;
        while plateauEnd + 1 < |s| - 1 && s[plateauEnd] == s[plateauEnd + 1]
          invariant plateauStart <= plateauEnd < |s| - 1
          invariant FlatFrom(s, plateauStart, plateauEnd)
          invariant forall k :: plateauStart <= k < plateauEnd ==> Qualifies(s, threshold, k)
        {
          assert s[plateauEnd] >= s[plateauEnd - 1];
          plateauEnd := plateauEnd + 1;
        }
        forall k | plateauStart < k <= plateauEnd ensures !Reported(s, threshold, k) {
          assert Qualifies(s, threshold, k - 1);
        }
        assert forall a :: 0 <= a < |peaks| ==> peaks[a] in peaks;
        peaks := peaks + [plateauStart];
        i := plateauEnd + 1;
      } else {
        i := i + 1;
      }
    }
  }

  method AddUpSquares(s: Signal, c: real) returns (sum: real)
    ensures sum == SumOfSquares(s, c)
  {
    sum := 0.0;
    for i := 0 to |s|
      invariant sum == SumOfSquares(s[..i], c)
    {
      assert s[..i + 1][..i] == s[..i];
      sum := sum + (s[i] - c) * (s[i] - c);
    }
    assert s[..|s|] == s;
  }

  method TakeMagnitudes(signal: Signal) returns (abs: Signal)
    ensures abs == Magnitudes(signal)
  {
    var result := new real[|signal|];
    for i := 0 to |signal|
      invariant forall k :: 0 <= k < i ==> result[k] == Abs(signal[k])
    {
      result[i] := Abs(signal[i]);
    }
    return result[..];
  }

  // root stands for the square root of the library.
  method DetectPeaks(signal: Signal, sigma: real, root: real -> real) returns (peaks: seq<int>)
    ensures |signal| < 3 ==> peaks == []
    ensures |signal| >= 3 ==>
              var s := Magnitudes(signal);
              IsPeakList(s, Threshold(s, sigma, root(Variance(s))), peaks)
  {
    if |signal| < 3 {
      return [];
    }
    var abs := TakeMagnitudes(signal);
    var mean, variance := MeanAndVariance(abs);
    var deviation := root(variance);
    var threshold := mean + sigma * deviation;
    assert threshold == Threshold(abs, sigma, deviation);
    peaks := FindPeaks(abs, threshold);
  }

  method MeanAndVariance(s: Signal) returns (mean: real, variance: real)
    requires s != []
    ensures mean == Mean(s) && variance == Variance(s)
  {
    var sum := AddUp(s);
    mean := sum / |s| as real;
    var squares := AddUpSquares(s, mean);
    variance := squares / |s| as real;
  }

  // ---------------------------------------------------------------------
  // What a peak list says about the signal
  // ---------------------------------------------------------------------

  // Walking left from a qualifying sample along equal values reaches a reported one.
  lemma {:induction false} ReachesReported(s: Signal, threshold: real, i: int) returns (q: int)
    requires Qualifies(s, threshold, i)
    ensures 1 <= q <= i && Reported(s, threshold, q) && FlatFrom(s, q, i)
    decreases i
  {
    if s[i - 1] == s[i] && Qualifies(s, threshold, i - 1) {
      q := ReachesReported(s, threshold, i - 1);
    } else {
      q := i;
    }
  }

  // No two reported indices lie in one run of equal values.
  lemma {:induction false} OneReportPerRun(s: Signal, threshold: real, a: int, b: int)
    requires Reported(s, threshold, a) && Reported(s, threshold, b) && a < b
    ensures !FlatFrom(s, a, b)
    decreases b - a
  {
    if FlatFrom(s, a, b) {
      RunOfQualifying(s, threshold, a, b);
    }
  }

  lemma {:induction false} RunOfQualifying(s: Signal, threshold: real, a: int, b: int)
    requires Qualifies(s, threshold, a) && a < b < |s| - 1 && FlatFrom(s, a, b)
    ensures Qualifies(s, threshold, b - 1) && s[b - 1] == s[b]
    decreases b - a
  {
    assert s[b - 1] == s[a] == s[b];
    if a + 1 < b {
      assert FlatFrom(s, a, b - 1);
      RunOfQualifying(s, threshold, a, b - 1);
    }
  }

  // What a peak is meant to be: above the threshold, and no neighbour above it.
  ghost predicate StandsOut(s: Signal, threshold: real, i: int) {
    0 < i && i + 1 < |s| && threshold < s[i] && !(s[i - 1] > s[i]) && !(s[i + 1] > s[i])
  }

  // Every peak stands out, every sample that stands out lies in a flat run from a peak,
  // and no run has two peaks.
  lemma PeakListIsSoundAndComplete(s: Signal, threshold: real, p: seq<int>)
    requires IsPeakList(s, threshold, p)
    ensures forall k :: k in p ==> StandsOut(s, threshold, k)
    ensures forall i :: StandsOut(s, threshold, i) ==> exists q :: q in p && FlatFrom(s, q, i)
    ensures forall a, b :: 0 <= a < b < |p| ==> p[a] < p[b] && !FlatFrom(s, p[a], p[b])
  {
    forall i | StandsOut(s, threshold, i) ensures exists q :: q in p && FlatFrom(s, q, i) {
      var q := ReachesReported(s, threshold, i);
    }
    forall a, b | 0 <= a < b < |p| ensures !FlatFrom(s, p[a], p[b]) {
      assert p[a] in p && p[b] in p;
      OneReportPerRun(s, threshold, p[a], p[b]);
    }
  }

  // Which sample of a run of equal values a..b is the reported one: the first,
  // except that the border sample is never taken and that on a shelf reached from
  // a higher sample the first sample is below its left neighbour.
  lemma WhereARunIsReported(s: Signal, threshold: real, a: int, b: int, i: int)
    requires FlatFrom(s, a, b) && (a == 0 || s[a - 1] != s[a]) && a <= i <= b
    requires Reported(s, threshold, i)
    ensures i == if a == 0 then 1 else if s[a - 1] < s[a] then a else a + 1
  {
    assert s[i] == s[a];
    assert i - 1 >= a ==> s[i - 1] == s[a];
  }

  // A shelf behind a higher sample, and then silence.
  function Shelf(n: nat): (s: Signal)
    ensures |s| == n + 3
  {
    if n == 0 then [14.0, 11.0, 11.0] else Shelf(n - 1) + [0.0]
  }

  lemma {:induction false} ShelfTotals(n: nat, c: real)
    ensures Sum(Shelf(n)) == 36.0
    ensures SumOfSquares(Shelf(n), c) == SumOfSquares(Shelf(0), c) + Repeated(n, Square(0.0 - c))
    ensures Shelf(n)[..3] == [14.0, 11.0, 11.0] && forall i :: 3 <= i < n + 3 ==> Shelf(n)[i] == 0.0
  {
    if n == 0 {
      SumOfThree(14.0, 11.0, 11.0);
    } else {
      ShelfTotals(n - 1, c);
      assert Shelf(n)[..n + 2] == Shelf(n - 1);
    }
  }

  lemma SumOfThree(x: real, y: real, z: real)
    ensures Sum([x, y, z]) == x + y + z
  {
    assert [x, y, z][..2] == [x, y] && [x, y][..1] == [x];
    assert Sum([x]) == x && Sum([x, y]) == x + y;
  }

  lemma SquaresOfThree(x: real, y: real, z: real, c: real)
    ensures SumOfSquares([x, y, z], c) == Square(x - c) + Square(y - c) + Square(z - c)
  {
    assert [x, y, z][..2] == [x, y] && [x, y][..1] == [x];
    assert SumOfSquares([x], c) == Square(x - c);
    assert SumOfSquares([x, y], c) == Square(x - c) + Square(y - c);
  }

  lemma ShelfStatistics()
    ensures Mean(Shelf(21)) == 1.5 && Variance(Shelf(21)) == 16.0
  {
    ShelfTotals(21, 1.5);
    SquaresOfThree(14.0, 11.0, 11.0, 1.5);
    RepeatedIsProduct(21, 2.25);
    assert Square(0.0 - 1.5) == 2.25;
  }

  // The source means to record the first index of a plateau; on a falling shelf
  // it records the second.
  lemma ShelfIsReportedLate()
    ensures var s := Shelf(21);
            && Magnitudes(s) == s && IsSquareRoot(4.0, Variance(s)) && Threshold(s, 2.0, 4.0) == 9.5
            && FlatFrom(s, 1, 2) && s[0] > s[1]
            && !Reported(s, 9.5, 1) && Reported(s, 9.5, 2)
  {
    var s := Shelf(21);
    ShelfTotals(21, 1.5);
    ShelfStatistics();
    assert s[0] == s[..3][0] && s[1] == s[..3][1] && s[2] == s[..3][2];
  }

  // ---------------------------------------------------------------------
  // The threshold bounds the number of detections
  // ---------------------------------------------------------------------

  function Repeated(count: nat, x: real): real {
    if count == 0 then 0.0 else Repeated(count - 1, x) + x
  }

  lemma {:induction false} RepeatedIsProduct(count: nat, x: real)
    ensures Repeated(count, x) == x * count as real
  {
    if count == 0 {
    } else {
      RepeatedIsProduct(count - 1, x);
    }
  }

  // A sum of squares is at least the share of any chosen indices.
  lemma {:induction false} SumCoversChosen(s: Signal, c: real, p: seq<int>, level: real)
    requires StrictlyIncreasing(p) && forall k :: k in p ==> 0 <= k < |s| && Square(s[k] - c) > level
    ensures SumOfSquares(s, c) >= Repeated(|p|, level)
    ensures p != [] ==> SumOfSquares(s, c) > Repeated(|p|, level)
    decreases |s|
  {
    assert p != [] ==> p[|p| - 1] in p;
    if s != [] {
      var k := |s| - 1;
      assert Square(s[k] - c) >= 0.0;
      if p != [] && p[|p| - 1] == k {
        var rest := p[..|p| - 1];
        forall q | q in rest ensures 0 <= q < k && Square(s[..k][q] - c) > level {
          assert q in p;
        }
        SumCoversChosen(s[..k], c, rest, level);
      } else {
        forall q | q in p ensures 0 <= q < k && Square(s[..k][q] - c) > level {
          assert 0 <= q < |s|;
          var at :| 0 <= at < |p| && p[at] == q;
        }
        SumCoversChosen(s[..k], c, p, level);
      }
    }
  }

  // If the deviation is zero, no sample is away from the mean.
  lemma ZeroDeviation(s: Signal, c: real, i: int)
    requires 0 <= i < |s| && SumOfSquares(s, c) == 0.0
    ensures s[i] == c
  {
    if s[i] != c {
      NonZeroSquare(s[i] - c);
      RepeatedIsProduct(1, 0.0);
      assert forall k :: k in [i] ==> k == i;
      SumCoversChosen(s, c, [i], 0.0);
    }
  }

  lemma SquareOfMagnitude(x: real)
    ensures Square(x) == Square(Abs(x))
  {
  }

  lemma NonZeroSquare(x: real)
    requires x != 0.0
    ensures Square(x) > 0.0
  {
    GreaterSquare(0.0, Abs(x));
    SquareOfMagnitude(x);
    assert Square(0.0) == 0.0;
  }

  // With threshold mean + sigma * deviation, a non-empty list of samples above it
  // has fewer than n / (1 + sigma^2) members (the one-sided Chebyshev bound).
  lemma ThresholdBoundsDetections(s: Signal, sigma: real, deviation: real, p: seq<int>)
    requires s != [] && sigma > 0.0 && IsSquareRoot(deviation, Variance(s))
    requires p != [] && StrictlyIncreasing(p)
    requires forall k :: k in p ==> 0 <= k < |s| && s[k] > Threshold(s, sigma, deviation)
    ensures deviation > 0.0
    ensures (1.0 + sigma * sigma) * |p| as real < |s| as real
  {
    TotalOfSquares(s);
    assert p[0] in p;
    if deviation == 0.0 { ZeroDeviation(s, Mean(s), p[0]); }
    AboveSpread(s, Mean(s), Variance(s), sigma, deviation, deviation / sigma, Mean(s) + sigma * deviation, p) by {
      PositiveQuotient(deviation, sigma);
    }
  }

  lemma AboveSpread(s: Signal, c: real, variance: real, sigma: real, deviation: real, d: real, threshold: real,
                    p: seq<int>)
    requires Sum(s) == Repeated(|s|, c) && SumOfSquares(s, c) == Repeated(|s|, variance)
    requires sigma > 0.0 && d > 0.0 && deviation == d * sigma && variance == deviation * deviation
    requires p != [] && StrictlyIncreasing(p) && threshold == c + sigma * deviation
    requires forall k :: k in p ==> 0 <= k < |s| && s[k] > threshold
    ensures (1.0 + sigma * sigma) * |p| as real < |s| as real
  {
    var t, dd := 1.0 + sigma * sigma, d * d;
    FactorsOfSquares(sigma, d, dd, deviation, variance, t, t * d);
    PositiveFactors(sigma, sigma * sigma, d, dd, t);
    SpreadBoundsDetections(s, c, variance, d, dd, t * d, Square(t * d), t, t * dd, p);
  }

  // The squares from a point d below c, in multiples of q = t * d * d.
  lemma SpreadBoundsDetections(s: Signal, c: real, variance: real, d: real, dd: real, reach: real, level: real,
                               t: real, q: real, p: seq<int>)
    requires Sum(s) == Repeated(|s|, c) && SumOfSquares(s, c) == Repeated(|s|, variance)
    requires dd == d * d && reach > 0.0 && level == Square(reach)
    requires q > 0.0 && variance + dd == q && level == t * q
    requires p != [] && StrictlyIncreasing(p)
    requires forall k :: k in p ==> 0 <= k < |s| && s[k] - (c - d) > reach
    ensures t * |p| as real < |s| as real
  {
    FromBelowTheMean(s, c, d, dd, reach, level, p);
    CountsBounded(|s|, |p|, variance, dd, level, t, q);
  }

  lemma CountsBounded(n: nat, k: nat, variance: real, dd: real, level: real, t: real, q: real)
    requires q > 0.0 && variance + dd == q && level == t * q
    requires Repeated(n, variance) + Repeated(n, dd) > Repeated(k, level)
    ensures t * k as real < n as real
  {
    RepeatedAdds(n, variance, dd);
    RepeatedIsProduct(n, q);
    RepeatedIsProduct(k, level);
    CancelMultiple(q, t, level, n as real, k as real);
  }

  lemma {:induction false} RepeatedAdds(n: nat, x: real, y: real)
    ensures Repeated(n, x + y) == Repeated(n, x) + Repeated(n, y)
  {
    if n > 0 { RepeatedAdds(n - 1, x, y); }
  }

  lemma CancelMultiple(q: real, t: real, level: real, n: real, k: real)
    requires q > 0.0 && level == t * q && q * n > level * k
    ensures t * k < n
  {
    assert level * k == q * (t * k);
    CancelFactor(q, t * k, n);
  }

  // Measure the samples from a point d below the mean.
  lemma FromBelowTheMean(s: Signal, c: real, d: real, dd: real, reach: real, level: real, p: seq<int>)
    requires Sum(s) == Repeated(|s|, c) && dd == d * d && reach > 0.0 && level == Square(reach)
    requires p != [] && StrictlyIncreasing(p)
    requires forall k :: k in p ==> 0 <= k < |s| && s[k] - (c - d) > reach
    ensures SumOfSquares(s, c) + Repeated(|s|, dd) > Repeated(|p|, level)
  {
    MeasuredFromBelow(s, c - d, reach, level, p);
    OriginBelowTheMean(s, c, d, dd);
  }

  // The sum of the distances of the samples from c, each times w.
  function Leaning(s: Signal, c: real, w: real): real {
    if s == [] then 0.0 else Leaning(s[..|s| - 1], c, w) + w * (s[|s| - 1] - c)
  }

  lemma ShiftedSquare(x: real, d: real, dd: real)
    requires dd == d * d
    ensures Square(x + d) == Square(x) + (2.0 * d) * x + dd
  {
  }

  lemma {:induction false} ShiftTheOrigin(s: Signal, c: real, d: real, dd: real)
    requires dd == d * d
    ensures SumOfSquares(s, c - d) == SumOfSquares(s, c) + Leaning(s, c, 2.0 * d) + Repeated(|s|, dd)
  {
    if s != [] {
      var k := |s| - 1;
      ShiftTheOrigin(s[..k], c, d, dd);
      ShiftedSquare(s[k] - c, d, dd);
      assert s[k] - (c - d) == (s[k] - c) + d;
    }
  }

  lemma Distribute(w: real, x: real, y: real)
    ensures w * (x + y) == w * x + w * y
  {
  }

  lemma {:induction false} LeaningIsProduct(s: Signal, c: real, w: real)
    ensures Leaning(s, c, w) == w * (Sum(s) - Repeated(|s|, c))
  {
    if s != [] {
      var k := |s| - 1;
      LeaningIsProduct(s[..k], c, w);
      Distribute(w, Sum(s[..k]) - Repeated(k, c), s[k] - c);
    }
  }

  // Around the mean the distances cancel.
  lemma LeaningIsZero(s: Signal, c: real, w: real)
    requires Sum(s) == Repeated(|s|, c)
    ensures Leaning(s, c, w) == 0.0
  {
    LeaningIsProduct(s, c, w);
  }

  lemma OriginBelowTheMean(s: Signal, c: real, d: real, dd: real)
    requires Sum(s) == Repeated(|s|, c) && dd == d * d
    ensures SumOfSquares(s, c - d) == SumOfSquares(s, c) + Repeated(|s|, dd)
  {
    ShiftTheOrigin(s, c, d, dd);
    LeaningIsZero(s, c, 2.0 * d);
  }

  lemma TotalOfSquares(s: Signal)
    requires s != []
    ensures SumOfSquares(s, Mean(s)) == Repeated(|s|, Variance(s)) && Sum(s) == Repeated(|s|, Mean(s))
  {
    ShareTimesCount(Sum(s), |s|, Mean(s));
    ShareTimesCount(SumOfSquares(s, Mean(s)), |s|, Variance(s));
  }

  lemma ShareTimesCount(total: real, n: nat, share: real)
    requires n > 0 && share == total / n as real
    ensures Repeated(n, share) == total
  {
    RepeatedIsProduct(n, share);
    QuotientTimes(total, n as real);
  }

  lemma QuotientTimes(a: real, b: real)
    requires b != 0.0
    ensures a / b * b == a
  {
  }

  lemma MeasuredFromBelow(s: Signal, origin: real, reach: real, level: real, p: seq<int>)
    requires reach > 0.0 && level == Square(reach) && p != [] && StrictlyIncreasing(p)
    requires forall k :: k in p ==> 0 <= k < |s| && s[k] - origin > reach
    ensures SumOfSquares(s, origin) > Repeated(|p|, level)
  {
    forall q | q in p ensures 0 <= q < |s| && Square(s[q] - origin) > level {
      GreaterSquare(reach, s[q] - origin);
    }
    SumCoversChosen(s, origin, p, level);
  }

  lemma PositiveQuotient(a: real, b: real)
    requires a > 0.0 && b > 0.0
    ensures a / b > 0.0 && a / b * b == a
  {
  }

  lemma PositiveProduct(a: real, b: real)
    requires a > 0.0 && b > 0.0
    ensures a * b > 0.0
  {
  }

  lemma GreaterSquare(a: real, b: real)
    requires 0.0 <= a < b
    ensures Square(a) < Square(b)
  {
    PositiveProduct(b - a, b + a);
    assert (b - a) * (b + a) == b * b - a * a;
  }

  lemma FactorsOfSquares(sigma: real, d: real, dd: real, deviation: real, variance: real, t: real, reach: real)
    requires dd == d * d && deviation == d * sigma && variance == deviation * deviation
    requires t == 1.0 + sigma * sigma && reach == t * d
    ensures reach == sigma * deviation + d && variance + dd == t * dd && Square(reach) == t * (t * dd)
  {
    assert variance == sigma * sigma * dd;
    assert sigma * deviation == sigma * sigma * d;
  }

  lemma PositiveFactors(sigma: real, ss: real, d: real, dd: real, t: real)
    requires sigma > 0.0 && d > 0.0 && ss == sigma * sigma && dd == d * d && t == 1.0 + ss
    ensures t * d > 0.0 && t * dd > 0.0
  {
    PositiveAs(sigma, sigma, ss);
    PositiveAs(d, d, dd);
    PositiveProduct(t, d);
    PositiveProduct(t, dd);
  }

  lemma PositiveAs(a: real, b: real, product: real)
    requires a > 0.0 && b > 0.0 && product == a * b
    ensures product > 0.0
  {
  }

  lemma CancelFactor(q: real, a: real, b: real)
    requires q > 0.0 && q * a < q * b
    ensures a < b
  {
    assert q * (b - a) == q * b - q * a;
    if a == b {} else if b < a { PositiveProduct(q, a - b); }
  }

  // The default threshold of two deviations: fewer than one sample in five.
  lemma DefaultThresholdBound(signal: Signal, deviation: real, peaks: seq<int>)
    requires |signal| >= 3 && IsSquareRoot(deviation, Variance(Magnitudes(signal)))
    requires IsPeakList(Magnitudes(signal), Threshold(Magnitudes(signal), 2.0, deviation), peaks)
    ensures peaks != [] ==> 5 * |peaks| < |signal|
    ensures (forall i :: 0 <= i < |signal| ==> Abs(signal[i]) == Abs(signal[0])) ==> peaks == []
  {
    var s := Magnitudes(signal);
    if peaks != [] {
      ThresholdBoundsDetections(s, 2.0, deviation, peaks);
      assert peaks[0] in peaks;
      if forall i :: 0 <= i < |signal| ==> Abs(signal[i]) == Abs(signal[0]) {
        ConstantSignal(s, s[0]);
      }
    }
  }

  lemma ConstantSignal(s: Signal, c: real)
    requires s != [] && forall i :: 0 <= i < |s| ==> s[i] == c
    ensures Mean(s) == c
  {
    ConstantSum(s, c);
    assert c * |s| as real / |s| as real == c;
  }

  lemma {:induction false} ConstantSum(s: Signal, c: real)
    requires forall i :: 0 <= i < |s| ==> s[i] == c
    ensures Sum(s) == c * |s| as real
  {
    if s == [] {
    } else {
      ConstantSum(s[..|s| - 1], c);
      assert c * |s| as real == c * (|s| - 1) as real + c;
    }
  }

  // ---------------------------------------------------------------------
  // The voltages of a peak
  // ---------------------------------------------------------------------

  // The voltage of one gate at a sample of the ray from start to end.
  function VoltageAt(start: real, end: real, peak: int, resolution: int): real
    requires resolution != 1
  {
    start + (end - start) * (peak as real / (resolution - 1) as real)
  }

  // The divisor is never zero for a reported peak, and the voltage lies strictly
  // inside the scanned interval, in either direction of the scan.
  lemma PeakVoltageIsInside(s: Signal, threshold: real, peak: int, start: real, end: real)
    requires Reported(s, threshold, peak)
    ensures |s| - 1 != 0
    ensures start < end ==> start < VoltageAt(start, end, peak, |s|) < end
    ensures start > end ==> end < VoltageAt(start, end, peak, |s|) < start
    ensures start == end ==> VoltageAt(start, end, peak, |s|) == start
  {
    var p, r := peak as real, (|s| - 1) as real;
    var w := end - start;
    FractionOf(p, r, w);
  }

  // The samples are spread evenly from one end of the ray to the other.
  lemma VoltagesAreEvenlySpread(start: real, end: real, k: int, n: int)
    requires n > 1
    ensures VoltageAt(start, end, 0, n) == start && VoltageAt(start, end, n - 1, n) == end
    ensures (VoltageAt(start, end, k + 1, n) - VoltageAt(start, end, k, n)) * (n - 1) as real == end - start
  {
    var w, r, p := end - start, (n - 1) as real, k as real;
    assert 0.0 / r == 0.0 && r / r == 1.0;
    EvenStep(w, r, p);
  }

  lemma EvenStep(w: real, r: real, p: real)
    requires r > 0.0
    ensures (w * ((p + 1.0) / r) - w * (p / r)) * r == w
  {
    var x, y := p / r, (p + 1.0) / r;
    QuotientTimes(p, r);
    QuotientTimes(p + 1.0, r);
    assert (y - x) * r == 1.0;
    assert (w * y - w * x) * r == w * ((y - x) * r);
  }

  lemma FractionOf(p: real, r: real, w: real)
    requires 0.0 < p < r
    ensures w > 0.0 ==> 0.0 < w * (p / r) < w
    ensures w < 0.0 ==> w < w * (p / r) < 0.0
    ensures w == 0.0 ==> w * (p / r) == 0.0
  {
    var f := p / r;
    PositiveQuotient(p, r);
    PositiveQuotient(r - p, r);
    assert f + (r - p) / r == 1.0;
    if w > 0.0 {
      PositiveProduct(w, f);
      PositiveProduct(w, 1.0 - f);
    } else if w < 0.0 {
      PositiveProduct(-w, f);
      PositiveProduct(-w, 1.0 - f);
    }
  }

  // The voltages of all gates at all peaks.
  method Locate(starts: Signal, ends: Signal, peaks: seq<int>, s: Signal, threshold: real)
    returns (locations: seq<Signal>)
    requires |starts| == |ends| && IsPeakList(s, threshold, peaks)
    ensures |locations| == |peaks|
    ensures forall i, g :: 0 <= i < |peaks| && 0 <= g < |starts| ==>
              |s| > 1 && |locations[i]| == |starts| && locations[i][g] == VoltageAt(starts[g], ends[g], peaks[i], |s|)
  {
    locations := [];
    for i := 0 to |peaks|
      invariant |locations| == i
      invariant forall k :: 0 <= k < i ==> |locations[k]| == |starts|
      invariant i > 0 ==> |s| > 1
      invariant forall k, g :: 0 <= k < i && 0 <= g < |starts| ==>
                  |s| > 1 && locations[k][g] == VoltageAt(starts[g], ends[g], peaks[k], |s|)
    {
      assert peaks[i] in peaks;
      var gates := [];
      for g := 0 to |starts|
        invariant |gates| == g
        invariant forall h :: 0 <= h < g ==> gates[h] == VoltageAt(starts[h], ends[h], peaks[i], |s|)
      {
        gates := gates + [VoltageAt(starts[g], ends[g], peaks[i], |s|)];
      }
      locations := locations + [gates];
    }
  }

  // Peaks further along the ray sit at voltages further along the ray.
  lemma LaterPeaksAreFurther(s: Signal, threshold: real, peaks: seq<int>, i: nat, k: nat, start: real, end: real)
    requires IsPeakList(s, threshold, peaks) && i < k < |peaks| && start < end
    ensures |s| > 1 && start < VoltageAt(start, end, peaks[i], |s|) < VoltageAt(start, end, peaks[k], |s|) < end
  {
    assert peaks[i] in peaks && peaks[k] in peaks;
    PeakVoltageIsInside(s, threshold, peaks[i], start, end);
    PeakVoltageIsInside(s, threshold, peaks[k], start, end);
    LaterIsFurther(end - start, peaks[i] as real, peaks[k] as real, (|s| - 1) as real);
  }

  lemma LaterIsFurther(width: real, p: real, q: real, r: real)
    requires width > 0.0 && p < q && r > 0.0
    ensures width * (p / r) < width * (q / r)
  {
    var x, y := p / r, q / r;
    PositiveQuotient(q - p, r);
    assert y - x == (q - p) / r;
    PositiveProduct(width, y - x);
    assert width * (y - x) == width * y - width * x;
  }
}
