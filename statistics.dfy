/**
 * The statistics engine of the benchmark: minimum, maximum, mean, median and
 * sample variance of a vector of samples, each taking its vector by value and
 * failing on an empty one, plus the length guard of `print_vec`.
 * Samples are mathematical reals; IEEE rounding is not modelled.
 */
module Statistics {
  import opened OrderStatistics

  /**
   * Why a statistic has no value: `std::logic_error` on an empty vector,
   * `std::invalid_argument` from `print_vec`, and the 0.0 / 0.0 (NaN) that the
   * sample variance of a single sample divides out to.
   */
  datatype Failure = EmptyVector | CountExceedsSize | DivisionByZero

  datatype Result<T> = Ok(value: T) | Err(failure: Failure)

  /** Sum of the samples, accumulated left to right. */
  function Sum(s: seq<real>): real {
    if s == [] then 0.0 else Sum(s[..|s| - 1]) + s[|s| - 1]
  }

  /** Arithmetic mean: sum divided by the number of samples. */
  function Mean(s: seq<real>): real
    requires s != []
  {
    Sum(s) / (|s| as real)
  }

  /** `calc_mean`: throws on an empty vector, otherwise sums in a loop and divides by the size. */
  method CalcMean(vec: seq<real>) returns (r: Result<real>)
    ensures vec == [] ==> r == Err(EmptyVector)
    ensures vec != [] ==> r == Ok(Mean(vec))
  {
    var size := |vec|;
    if size == 0 {
      return Err(EmptyVector);
    }
    var sum := 0.0;
    for i := 0 to size
      invariant sum == Sum(vec[..i])
    {
      assert vec[..i + 1][..i] == vec[..i];
      sum := sum + vec[i];
    }
    assert vec[..size] == vec;
    r := Ok(sum / (size as real));
  }

  /** `std::min_element` on a non-empty range: the first least sample. */
  function Least(s: seq<real>): (m: real)
    requires s != []
    ensures m in s
    ensures forall i :: 0 <= i < |s| ==> m <= s[i]
  {
    if |s| == 1 then s[0]
    else
      var m := Least(s[1..]);
      if s[0] <= m then s[0] else m
  }

  /** `std::max_element` on a non-empty range: the first greatest sample. */
  function Greatest(s: seq<real>): (m: real)
    requires s != []
    ensures m in s
    ensures forall i :: 0 <= i < |s| ==> s[i] <= m
  {
    if |s| == 1 then s[0]
    else
      var m := Greatest(s[1..]);
      if m <= s[0] then s[0] else m
  }

  /** `calc_minimum`: throws on an empty vector, otherwise a sample no other sample is below. */
  function CalcMinimum(vec: seq<real>): (r: Result<real>)
    ensures vec == [] ==> r == Err(EmptyVector)
    ensures vec != [] ==> r.Ok? && r.value in vec && forall i :: 0 <= i < |vec| ==> r.value <= vec[i]
  {
    if |vec| == 0 then Err(EmptyVector) else Ok(Least(vec))
  }

  /** `calc_maximum`: throws on an empty vector, otherwise a sample no other sample is above. */
  function CalcMaximum(vec: seq<real>): (r: Result<real>)
    ensures vec == [] ==> r == Err(EmptyVector)
    ensures vec != [] ==> r.Ok? && r.value in vec && forall i :: 0 <= i < |vec| ==> vec[i] <= r.value
  {
    if |vec| == 0 then Err(EmptyVector) else Ok(Greatest(vec))
  }

  /** No sample is below the least one or above the greatest one. */
  lemma ExtremesBound(s: seq<real>, x: real)
    requires x in s
    ensures Least(s) <= x <= Greatest(s)
  {
    var i :| 0 <= i < |s| && s[i] == x;
  }

  /** In any sorted arrangement of the samples the least comes first and the greatest last. */
  lemma ExtremesOfArrangement(s: seq<real>, t: seq<real>)
    requires s != [] && Sorted(t) && multiset(t) == multiset(s)
    ensures |t| == |s|
    ensures Least(s) == t[0] && Greatest(s) == t[|t| - 1]
  {
    assert |t| == |s| by { assert |multiset(t)| == |multiset(s)|; }
    assert Least(s) in multiset(t) && Greatest(s) in multiset(t);
    SortedEnds(t, Least(s));
    SortedEnds(t, Greatest(s));
    assert t[0] in multiset(s) && t[|t| - 1] in multiset(s);
    ExtremesBound(s, t[0]);
    ExtremesBound(s, t[|t| - 1]);
  }

  /** The minimum is the first order statistic. */
  lemma MinimumIsFirstOrderStatistic(s: seq<real>)
    requires s != []
    ensures CalcMinimum(s) == Ok(Sort(s)[0])
  {
    var t := Sort(s);
    assert Least(s) == t[0] by {
      ExtremesOfArrangement(s, t);
    }
  }

  /** The maximum is the last order statistic. */
  lemma MaximumIsLastOrderStatistic(s: seq<real>)
    requires s != []
    ensures CalcMaximum(s) == Ok(Sort(s)[|s| - 1])
  {
    var t := Sort(s);
    assert Greatest(s) == t[|s| - 1] by {
      ExtremesOfArrangement(s, t);
    }
  }

  /**
   * The median as defined by the order statistics: the middle one for an odd
   * count, the average of the two middle ones for an even count.
   */
  function Median(s: seq<real>): real
    requires s != []
  {
    var t, n := Sort(s), |s|;
    if n % 2 == 1 then t[n / 2] else (t[n / 2 - 1] + t[n / 2]) / 2.0
  }

  /** On samples already in order the median is read off the middle of the vector itself. */
  lemma MedianOfSorted(s: seq<real>)
    requires s != [] && Sorted(s)
    ensures var n := |s|;
      Median(s) == if n % 2 == 1 then s[n / 2] else (s[n / 2 - 1] + s[n / 2]) / 2.0
  {
    SortFixesSorted(s);
  }

  /**
   * `calc_median`: throws on an empty vector; otherwise reorders its own copy of
   * the samples with `nth_element`, once for an odd count and twice (at n/2-1,
   * then at n/2 on the already reordered copy) for an even count.
   */
  method CalcMedian(vec: seq<real>) returns (r: Result<real>)
    ensures vec == [] ==> r == Err(EmptyVector)
    ensures vec != [] ==> r == Ok(Median(vec))
  {
    var size := |vec|;
    if size == 0 {
      return Err(EmptyVector);
    }
    var a := new real[size](i requires 0 <= i < size => vec[i]);
    assert a[..] == vec;
    var median: real;
    if size % 2 == 1 {
      var index := size / 2;
      NthElement(a, index);
      median := a[index];
    } else {
      var indexFirst, indexSecond := size / 2 - 1, size / 2;
      NthElement(a, indexFirst);
      var valueFirst := a[indexFirst];
      assert valueFirst == Sort(vec)[indexFirst];
      ghost var between := a[..];
      NthElement(a, indexSecond);
      var valueSecond := a[indexSecond];
      assert valueSecond == Sort(between)[indexSecond];
      SortIsPermutationInvariant(between, vec);
      median := (valueFirst + valueSecond) / 2.0;
    }
    assert median == Median(vec);
    r := Ok(median);
  }

  /** A sum of samples that are all at least `lo` is at least `lo` times their count. */
  lemma {:induction false} SumAtLeast(s: seq<real>, lo: real)
    requires forall i :: 0 <= i < |s| ==> lo <= s[i]
    ensures (|s| as real) * lo <= Sum(s)
  {
    if s != [] {
      SumAtLeast(s[..|s| - 1], lo);
    }
  }

  /** A sum of samples that are all at most `hi` is at most `hi` times their count. */
  lemma {:induction false} SumAtMost(s: seq<real>, hi: real)
    requires forall i :: 0 <= i < |s| ==> s[i] <= hi
    ensures Sum(s) <= (|s| as real) * hi
  {
    if s != [] {
      SumAtMost(s[..|s| - 1], hi);
    }
  }

  /** Bounds on a total carry over to the average. */
  lemma AverageBounds(total: real, n: real, lo: real, hi: real)
    requires n > 0.0
    requires n * lo <= total <= n * hi
    ensures lo <= total / n <= hi
  {
    assert total / n * n == total;
  }

  /** The mean of samples that all lie in [lo, hi] lies in [lo, hi]. */
  lemma MeanWithin(s: seq<real>, lo: real, hi: real)
    requires s != []
    requires forall i :: 0 <= i < |s| ==> lo <= s[i] <= hi
    ensures lo <= Mean(s) <= hi
  {
    SumAtLeast(s, lo);
    SumAtMost(s, hi);
    AverageBounds(Sum(s), |s| as real, lo, hi);
  }

  /** The mean lies between the minimum and the maximum. */
  lemma MeanBetweenExtremes(s: seq<real>)
    requires s != []
    ensures CalcMinimum(s).Ok? && CalcMaximum(s).Ok?
    ensures CalcMinimum(s).value <= Mean(s) <= CalcMaximum(s).value
  {
    MeanWithin(s, CalcMinimum(s).value, CalcMaximum(s).value);
  }

  /** A median computed from a sorted arrangement lies between its first and last entries. */
  lemma MiddleWithinEnds(t: seq<real>)
    requires t != [] && Sorted(t)
    ensures var n := |t|;
      t[0] <= (if n % 2 == 1 then t[n / 2] else (t[n / 2 - 1] + t[n / 2]) / 2.0) <= t[n - 1]
  {
    var n := |t|;
    assert t[0] <= t[n / 2] <= t[n - 1];
    if n % 2 == 0 {
      assert t[0] <= t[n / 2 - 1] <= t[n - 1];
    }
  }

  /** The median lies between the minimum and the maximum. */
  lemma MedianBetweenExtremes(s: seq<real>)
    requires s != []
    ensures CalcMinimum(s).Ok? && CalcMaximum(s).Ok?
    ensures CalcMinimum(s).value <= Median(s) <= CalcMaximum(s).value
  {
    ExtremesOfArrangement(s, Sort(s));
    MiddleWithinEnds(Sort(s));
  }

  /** Sum of squared deviations from `m`, accumulated left to right. */
  function SquaredDiffs(s: seq<real>, m: real): real {
    if s == [] then 0.0
    else
      var diff := s[|s| - 1] - m;
      SquaredDiffs(s[..|s| - 1], m) + diff * diff
  }

  /** Sample variance with the n - 1 denominator. */
  function Variance(s: seq<real>): real
    requires |s| >= 2
  {
    SquaredDiffs(s, Mean(s)) / ((|s| - 1) as real)
  }

  /**
   * `calc_variance`: the empty vector fails inside `calc_mean`; a single sample
   * divides 0.0 by zero; otherwise the squared deviations from the mean are
   * summed in a loop and divided by n - 1.
   */
  method CalcVariance(vec: seq<real>) returns (r: Result<real>)
    ensures |vec| == 0 ==> r == Err(EmptyVector)
    ensures |vec| == 1 ==> r == Err(DivisionByZero)
    ensures |vec| >= 2 ==> r == Ok(Variance(vec))
  {
    var size := |vec|;
    var mean := CalcMean(vec);
    if mean.Err? {
      return Err(mean.failure);
    }
    var squaredDiffs := 0.0;
    for i := 0 to size
      invariant squaredDiffs == SquaredDiffs(vec[..i], mean.value)
    {
      assert vec[..i + 1][..i] == vec[..i];
      var diff := vec[i] - mean.value;
      squaredDiffs := squaredDiffs + diff * diff;
    }
    assert vec[..size] == vec;
    if size - 1 == 0 {
      return Err(DivisionByZero);
    }
    r := Ok(squaredDiffs / ((size - 1) as real));
  }

  /** A sum of squares is never negative. */
  lemma {:induction false} SquaredDiffsNonNegative(s: seq<real>, m: real)
    ensures SquaredDiffs(s, m) >= 0.0
  {
    if s != [] {
      SquaredDiffsNonNegative(s[..|s| - 1], m);
      var diff := s[|s| - 1] - m;
      if diff < 0.0 {
        assert diff * diff == (-diff) * (-diff);
      }
      assert diff * diff >= 0.0;
    }
  }

  /** The sample variance of two or more samples is never negative. */
  lemma VarianceNonNegative(s: seq<real>)
    requires |s| >= 2
    ensures Variance(s) >= 0.0
  {
    SquaredDiffsNonNegative(s, Mean(s));
  }

  /** The sum of `n` copies of `c` is `n` times `c`. */
  lemma {:induction false} SumOfConstant(s: seq<real>, c: real)
    requires forall i :: 0 <= i < |s| ==> s[i] == c
    ensures Sum(s) == (|s| as real) * c
  {
    if s != [] {
      SumOfConstant(s[..|s| - 1], c);
    }
  }

  /** No deviation from a value that every sample equals. */
  lemma {:induction false} SquaredDiffsOfConstant(s: seq<real>, c: real)
    requires forall i :: 0 <= i < |s| ==> s[i] == c
    ensures SquaredDiffs(s, c) == 0.0
  {
    if s != [] {
      SquaredDiffsOfConstant(s[..|s| - 1], c);
    }
  }

  /** Samples that all agree (as the benchmark's fill value would) have that mean and zero variance. */
  lemma ConstantSamples(s: seq<real>, c: real)
    requires |s| >= 2
    requires forall i :: 0 <= i < |s| ==> s[i] == c
    ensures Mean(s) == c
    ensures Variance(s) == 0.0
  {
    SumOfConstant(s, c);
    SquaredDiffsOfConstant(s, c);
  }

  /**
   * `print_vec`'s guard and loop: the first `cnt` samples, in order, or
   * `std::invalid_argument` when the vector holds fewer than `cnt`.
   * The returned sequence stands for what is written to the console.
   */
  method PrintVec(vec: seq<real>, cnt: nat) returns (r: Result<seq<real>>)
    ensures cnt <= |vec| ==> r == Ok(vec[..cnt])
    ensures cnt > |vec| ==> r == Err(CountExceedsSize)
  {
    if |vec| >= cnt {
      var shown := [];
      for i := 0 to cnt
        invariant shown == vec[..i]
      {
        shown := shown + [vec[i]];
      }
      r := Ok(shown);
    } else {
      r := Err(CountExceedsSize);
    }
  }
}
