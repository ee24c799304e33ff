/** One-pass statistics over a list of samples, over the reals. */
module TimeStat {

  ghost function Sum(s: seq<real>): real {
    if s == [] then 0.0 else Sum(s[..|s| - 1]) + s[|s| - 1]
  }

  ghost function Mean(s: seq<real>): real
    requires s != []
  {
    Sum(s) / |s| as real
  }

  ghost function Product(x: real, y: real): real { x * y }

  ghost function Square(x: real): real { Product(x, x) }

  /** The sum of squared deviations from `m`. */
  ghost function Deviation(s: seq<real>, m: real): real {
    if s == [] then 0.0 else Deviation(s[..|s| - 1], m) + Square(s[|s| - 1] - m)
  }

  /** What a sum of `n` squared deviations from `m` becomes when the centre moves to `c`. */
  ghost function Shifted(deviation: real, sum: real, n: real, m: real, c: real): real {
    deviation + 2.0 * ((m - c) * (sum - n * m)) + n * Square(m - c)
  }

  lemma {:induction false} DeviationShift(s: seq<real>, m: real, c: real)
    ensures Deviation(s, c) == Shifted(Deviation(s, m), Sum(s), |s| as real, m, c)
  {
    if s == [] {
      assert 2.0 * ((m - c) * (0.0 - 0.0 * m)) == 0.0;
    } else {
      hide Shifted;
      hide Square;
      var k, x, rest := (|s| - 1) as real, s[|s| - 1], s[..|s| - 1];
      DeviationShift(rest, m, c);
      ShiftStep(Deviation(rest, m), Sum(rest), k, x, m, c);
      assert k + 1.0 == |s| as real;
    }
  }

  lemma ShiftStep(deviation: real, sum: real, k: real, x: real, m: real, c: real)
    ensures Shifted(deviation, sum, k, m, c) + Square(x - c)
         == Shifted(deviation + Square(x - m), sum + x, k + 1.0, m, c)
  {
    var d, y := m - c, x - m;
    assert (k + 1.0) * m == k * m + m;
    Distribute(d, sum - k * m, y);
    SquareOfSum(y, d);
    Distribute(Square(d), k, 1.0);
  }

  lemma Distribute(d: real, u: real, v: real)
    ensures d * (u + v) == d * u + d * v
    ensures (u + v) * d == u * d + v * d
  {
  }

  lemma SquareOfSum(y: real, d: real)
    ensures Square(y + d) == Square(y) + 2.0 * (d * y) + Square(d)
  {
    Distribute(y + d, y, d);
    Distribute(y, y, d);
    Distribute(d, y, d);
  }

  lemma MeanOf(s: seq<real>)
    requires s != []
    ensures Mean(s) == Sum(s) / |s| as real
  {
  }

  lemma SumIsMean(s: seq<real>)
    requires s != []
    ensures Sum(s) == |s| as real * Mean(s)
  {
  }

  lemma SumFromMean(s: seq<real>, a: real)
    requires s != [] ==> a == Mean(s)
    ensures Sum(s) == |s| as real * a
  {
    if s != [] {
      SumIsMean(s);
    }
  }

  /** Around the mean the middle term of a shift vanishes. */
  lemma ShiftFromMean(s: seq<real>, m: real, c: real)
    requires s != [] ==> m == Mean(s)
    ensures Deviation(s, c) == Deviation(s, m) + |s| as real * Square(m - c)
  {
    hide Square;
    if s != [] {
      hide Deviation;
      hide Shifted;
      DeviationShift(s, m, c);
      SumIsMean(s);
      hide Mean;
      hide Sum;
      MiddleVanishes(Deviation(s, m), |s| as real * m, |s| as real, m, c);
    }
  }

  lemma MiddleVanishes(deviation: real, sum: real, n: real, m: real, c: real)
    requires sum == n * m
    ensures Shifted(deviation, sum, n, m, c) == deviation + n * Square(m - c)
  {
    assert (m - c) * (sum - n * m) == 0.0;
  }

  /** No other centre has a smaller sum of squared deviations than the mean. */
  lemma MeanMinimizesDeviation(s: seq<real>, c: real)
    requires s != []
    ensures Deviation(s, Mean(s)) <= Deviation(s, c)
    ensures Deviation(s, Mean(s)) == Deviation(s, c) ==> c == Mean(s)
  {
    ShiftFromMean(s, Mean(s), c);
    ScaledSquare(|s| as real, Mean(s) - c);
  }

  lemma ScaledSquare(n: real, d: real)
    requires n >= 1.0
    ensures n * Square(d) >= Square(d) >= 0.0 && (Square(d) == 0.0 ==> d == 0.0)
  {
    assert (n - 1.0) * Square(d) >= 0.0;
    Distribute(Square(d), n - 1.0, 1.0);
    SquarePositive(d);
  }

  lemma SquarePositive(d: real)
    ensures Square(d) >= 0.0 && (Square(d) == 0.0 ==> d == 0.0)
  {
    if d > 0.0 {
      PositiveSquare(d);
    } else if d < 0.0 {
      SquareOfNegation(d);
      hide Square;
      PositiveSquare(-d);
    }
  }

  lemma SquareOfNegation(d: real)
    ensures Square(-d) == Square(d)
  {
  }

  lemma PositiveSquare(d: real)
    requires d > 0.0
    ensures Square(d) > 0.0
  {
    hide Product;
    PositiveProduct(d, d);
  }

  lemma PositiveProduct(x: real, y: real)
    requires x > 0.0 && y > 0.0
    ensures Product(x, y) > 0.0
  {
  }

  lemma Snoc(s: seq<real>, t: real, m: real)
    ensures Sum(s + [t]) == Sum(s) + t
    ensures Deviation(s + [t], m) == Deviation(s, m) + Square(t - m)
  {
    hide Square;
    assert (s + [t])[..|s|] == s;
  }

  /** One step of the rapid calculation: from the mean `a` of `s` to the mean `na` of `s + [t]`. */
  lemma RapidStep(s: seq<real>, t: real, a: real, na: real)
    requires s != [] ==> a == Mean(s)
    requires na == a + (t - a) / (|s| + 1) as real
    ensures Mean(s + [t]) == na
    ensures Deviation(s + [t], na) == Deviation(s, a) + (t - a) * (t - na)
  {
    hide Square;
    hide Deviation;
    SumFromMean(s, a);
    MeanOf(s + [t]);
    hide Sum;
    hide Mean;
    Snoc(s, t, na);
    ShiftFromMean(s, a, na);
    var k := |s| as real;
    assert (|s| + 1) as real == k + 1.0 && |s + [t]| as real == k + 1.0;
    MovedMean(Sum(s), k, t, a, na);
  }

  lemma MovedMean(sum: real, k: real, t: real, a: real, na: real)
    requires k >= 0.0 && sum == k * a && na == a + (t - a) / (k + 1.0)
    ensures (sum + t) / (k + 1.0) == na
    ensures k * Square(a - na) + Square(t - na) == (t - a) * (t - na)
  {
    var e := (t - a) / (k + 1.0);
    assert t - a == (k + 1.0) * e;
    Distribute(e, k, 1.0);
    Distribute(k + 1.0, a, e);
    Distribute(a, k, 1.0);
    assert sum + t == (k + 1.0) * na;
    Quotient(sum + t, k + 1.0, na);
    assert a - na == -e && t - na == k * e && t - a == k * e + e;
    assert Square(-e) == e * e;
    Distribute(k * e, k * e, e);
    assert e * (k * e) == k * (e * e);
  }

  lemma Quotient(x: real, n: real, y: real)
    requires n > 0.0 && x == n * y
    ensures x / n == y
  {
  }

  /** The update of the running mean `a` and of the running sum `q` by the `n`-th sample. */
  method RapidUpdate(ghost before: seq<real>, a: real, q: real, n: nat, t: real) returns (na: real, nq: real)
    requires n == |before| + 1 && (before != [] ==> a == Mean(before)) && q == Deviation(before, a)
    ensures na == Mean(before + [t]) && nq == Deviation(before + [t], na)
  {
    na := a + (t - a) / n as real;
    RapidStep(before, t, a, na);
    nq := q + (t - a) * (t - na);
  }

  /** The running maximum: the greatest of `start` and the samples. */
  ghost function Greatest(start: real, samples: seq<real>): real {
    if samples == [] then start else
    var m, t := Greatest(start, samples[..|samples| - 1]), samples[|samples| - 1];
    if m < t then t else m
  }

  /** The running maximum starts from the smallest positive number of the type: it is the greatest sample if and
      only if some sample is at least that. */
  lemma {:induction false} GreatestIsSampleIff(start: real, samples: seq<real>)
    ensures var m := Greatest(start, samples);
            && m >= start && (forall i :: 0 <= i < |samples| ==> samples[i] <= m)
            && (m in samples <==> exists i :: 0 <= i < |samples| && samples[i] >= start)
            && (m in samples || m == start)
  {
    if samples != [] {
      var n := |samples| - 1;
      var rest := samples[..n];
      GreatestIsSampleIff(start, rest);
      assert samples == rest + [samples[n]];
      assert forall i :: 0 <= i < n ==> samples[i] == rest[i];
    }
  }

  /** For the single sample 0 it is not a sample at all. */
  lemma GreatestOfZero(start: real)
    requires start > 0.0
    ensures Greatest(start, [0.0]) == start && Greatest(start, [0.0]) !in [0.0]
  {
    assert [0.0][..0] == [];
  }

  lemma GreatestOfNone(start: real, samples: seq<real>)
    ensures Greatest(start, samples[..0]) == start
  {
  }

  lemma GreatestStep(start: real, before: seq<real>, t: real)
    ensures var m := Greatest(start, before); Greatest(start, before + [t]) == if m < t then t else m
  {
    assert (before + [t])[..|before|] == before;
  }

  /** The loop of compute_time_stat. */
  method Accumulate(samples: seq<real>, largest: real, smallestPositive: real)
    returns (min: real, max: real, sum: real, q: real)
    requires samples != [] && forall i :: 0 <= i < |samples| ==> samples[i] <= largest
    ensures min in samples && forall i :: 0 <= i < |samples| ==> min <= samples[i]
    ensures max == Greatest(smallestPositive, samples)
    ensures sum == Sum(samples) && q == Deviation(samples, Mean(samples))
  {
    var a := 0.0;
    q, sum := 0.0, 0.0;
    assert Sum(samples[..0]) == 0.0 && Deviation(samples[..0], a) == 0.0;
    hide Square;
    hide Deviation;
    hide Sum;
    hide Mean;
    GreatestOfNone(smallestPositive, samples);
    hide Greatest;
    min, max := largest, smallestPositive;
    var n := 0;
    ghost var least := 0;
    while n < |samples|
      invariant 0 <= n <= |samples|
      invariant n > 0 ==> 0 <= least < n && samples[least] == min
      invariant n == 0 ==> min == largest
      invariant forall i :: 0 <= i < n ==> min <= samples[i]
      invariant max == Greatest(smallestPositive, samples[..n])
      invariant sum == Sum(samples[..n])
      invariant n > 0 ==> a == Mean(samples[..n])
      invariant q == Deviation(samples[..n], a)
    {
      var t := samples[n];
      ghost var before := samples[..n];
      assert samples[..n + 1] == before + [t] && samples[..n + 1][..n] == before;
      Snoc(before, t, a);
      GreatestStep(smallestPositive, before, t);
      least := if n == 0 || t < min then n else least;
      min := if t < min then t else min;
      max := if max < t then t else max;
      n := n + 1;
      sum := sum + t;
      a, q := RapidUpdate(before, a, q, n, t);
    }
    assert samples[..n] == samples;
  }

  /** A square root on the numbers that are not negative. */
  ghost predicate IsRoot(sqrt: real -> real) {
    forall x :: x >= 0.0 ==> sqrt(x) >= 0.0 && Product(sqrt(x), sqrt(x)) == x
  }

  lemma {:induction false} DeviationNotNegative(s: seq<real>, m: real)
    ensures Deviation(s, m) >= 0.0
  {
    if s != [] {
      DeviationNotNegative(s[..|s| - 1], m);
      SquarePositive(s[|s| - 1] - m);
      hide Square;
    }
  }

  ghost function CountWithin(samples: seq<real>, lower: real, upper: real): nat {
    if samples == [] then 0 else
      CountWithin(samples[..|samples| - 1], lower, upper) + if lower <= samples[|samples| - 1] <= upper then 1 else 0
  }

  /** It counts the samples of the closed interval. */
  lemma {:induction false} CountWithinIs(samples: seq<real>, lower: real, upper: real)
    ensures CountWithin(samples, lower, upper) == |set i | 0 <= i < |samples| && lower <= samples[i] <= upper|
  {
    var all := set i | 0 <= i < |samples| && lower <= samples[i] <= upper;
    if samples == [] {
      assert all == {};
    } else {
      var n := |samples| - 1;
      CountWithinIs(samples[..n], lower, upper);
      var before := set i | 0 <= i < |samples[..n]| && lower <= samples[..n][i] <= upper;
      assert all == before + (if lower <= samples[n] <= upper then {n} else {});
    }
  }

  /** within_sd: the percentage of samples in mean +/- sd. */
  method WithinSd(samples: seq<real>, mean: real, sd: real) returns (percent: real)
    ensures samples == [] ==> percent == 0.0
    ensures samples != [] ==>
              percent == CountWithin(samples, mean - sd, mean + sd) as real / |samples| as real * 100.0
  {
    if samples == [] {
      return 0.0;
    }
    var lower, upper := mean - sd, mean + sd;
    var m := 0;
    for i := 0 to |samples|
      invariant m == CountWithin(samples[..i], lower, upper)
    {
      assert samples[..i + 1][..i] == samples[..i];
      if lower <= samples[i] <= upper {
        m := m + 1;
      }
    }
    assert samples[..|samples|] == samples;
    percent := m as real / |samples| as real * 100.0;
  }

  datatype SDStat = SDStat(min: real, max: real, mean: real, sd: real, withinSd: real)

  /** compute_time_stat: minimum, running maximum, mean, standard deviation and the share of samples within it. */
  method ComputeTimeStat(samples: seq<real>, sampling: bool, sqrt: real -> real, largest: real, smallestPositive: real)
    returns (res: SDStat)
    requires IsRoot(sqrt) && forall i :: 0 <= i < |samples| ==> samples[i] <= largest
    ensures samples == [] ==> res == SDStat(0.0, 0.0, 0.0, 0.0, 0.0)
    ensures samples != [] ==>
              && res.min in samples && (forall i :: 0 <= i < |samples| ==> res.min <= samples[i])
              && res.max == Greatest(smallestPositive, samples) && res.mean == Mean(samples)
              && res.sd >= 0.0
              && Product(res.sd, res.sd) == Deviation(samples, res.mean) /
                                           (if sampling && |samples| > 1 then |samples| - 1 else |samples|) as real
              && res.withinSd ==
                   CountWithin(samples, res.mean - res.sd, res.mean + res.sd) as real / |samples| as real * 100.0
  {
    if samples == [] {
      return SDStat(0.0, 0.0, 0.0, 0.0, 0.0);
    }
    var min, max, sum, q := Accumulate(samples, largest, smallestPositive);
    var n := |samples|;
    MeanOf(samples);
    DeviationNotNegative(samples, Mean(samples));
    hide Deviation;
    hide Mean;
    hide Sum;
    hide Product;
    hide CountWithin;
    var mean := sum / n as real;
    var divisor := if sampling && n > 1 then n - 1 else n;
    NotNegative(q, divisor as real);
    var sd := sqrt(q / divisor as real);
    var withinSd := WithinSd(samples, mean, sd);
    res := SDStat(min, max, mean, sd, withinSd);
  }

  lemma NotNegative(q: real, d: real)
    requires q >= 0.0 && d > 0.0
    ensures q / d >= 0.0
  {
  }
}
