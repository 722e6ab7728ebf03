/**
 * The concrete cases the repository's test-suite pins down, stated over
 * the model. `Fake` is the four-beat series the tests share.
 */
module Examples {
  import opened Wrappers
  import opened Sequences
  import opened Validator
  import opened TimeAxis
  import opened Container
  import opened Statistics

  const Fake: seq<real> := [800.0, 810.0, 815.0, 750.0]

  /** The time axis derived from `Fake`: running sums in seconds, shifted to start at 0. */
  const FakeAxis: seq<real> := [0.0, 0.81, 1.625, 2.375]

  /** `Fake` as a plain RRi with its derived axis. */
  const FakeSeries: Series := Series(Fake, FakeAxis, false, false)

  /**
   * The seconds thresholds the examples use. The tests admit any threshold in
   * `[4, 810)`: `[1, 2, 3, 4]` is read as seconds, and `[800, 810]` is not. The
   * examples take the part below 750, the smallest value of `Fake`.
   */
  predicate TestedLimit(limit: real)
  {
    4.0 <= limit < 750.0
  }

  /** The texts the tests read back from the raised errors. */
  lemma MessageExamples()
    ensures Message(LengthMismatch) == "rri and time series must have the same length"
    ensures Message(ZeroAfterStart) == "time series cannot have 0 values after first position"
    ensures Message(NotIncreasing) == "time series must be monotonically increasing"
    ensures Message(NegativeTime) == "time series cannot have negative values"
    ensures Message(NonPositiveInterval) == "rri series can only have positive values"
  {
  }

  /**
   * Intervals at or under the threshold are scaled to milliseconds,
   * `Fake` passes as it is, and a zero or negative interval is refused.
   */
  lemma ValidateRriExamples(limit: real)
    requires TestedLimit(limit)
    ensures ValidateRri(Fake, limit) == Ok(Fake)
    ensures ValidateRri([0.8, 0.9, 1.2], limit) == Ok([800.0, 900.0, 1200.0])
    ensures ValidateRri([1.0, 2.0, 3.0, 4.0], limit) == Ok([1000.0, 2000.0, 3000.0, 4000.0])
    ensures ValidateRri([0.0, 1.0, 2.0, 3.0], limit) == Err(NonPositiveInterval)
    ensures ValidateRri([1.0, 2.0, -3.0, 4.0], limit) == Err(NonPositiveInterval)
  {
    assert Fake[3] > limit;
    assert !AllPositive([0.0, 1.0, 2.0, 3.0]) by {
      assert [0.0, 1.0, 2.0, 3.0][0] <= 0.0;
    }
    assert !AllPositive([1.0, 2.0, -3.0, 4.0]) by {
      assert [1.0, 2.0, -3.0, 4.0][2] <= 0.0;
    }
    assert Scale([0.8, 0.9, 1.2], 1000.0) == [800.0, 900.0, 1200.0];
    assert Scale([1.0, 2.0, 3.0, 4.0], 1000.0) == [1000.0, 2000.0, 3000.0, 4000.0];
  }

  /** Each malformed axis of the tests is refused with its own error; a good one passes. */
  lemma ValidateTimeExamples()
    ensures ValidateTime(Fake, [1.0, 2.0, 3.0]) == Err(LengthMismatch)
    ensures ValidateTime(Fake, [1.0, 2.0, 0.0, 3.0]) == Err(ZeroAfterStart)
    ensures ValidateTime(Fake, [0.0, 1.0, 4.0, 3.0]) == Err(NotIncreasing)
    ensures ValidateTime(Fake, [-1.0, 1.0, 2.0, 3.0]) == Err(NegativeTime)
    ensures ValidateTime(Fake, [1.0, 2.0, 3.0, 4.0]) == Ok([1.0, 2.0, 3.0, 4.0])
  {
    var zero := [1.0, 2.0, 0.0, 3.0];
    assert NonNegative(zero) && zero[2] == 0.0;
    var back := [0.0, 1.0, 4.0, 3.0];
    assert NonNegative(back) && NoZeroAfterStart(back) && back[2] > back[3];
    var neg := [-1.0, 1.0, 2.0, 3.0];
    assert neg[0] < 0.0;
    var good := [1.0, 2.0, 3.0, 4.0];
    assert StrictlyIncreasing(good) by {
      DiffsPositiveIffIncreasing(good);
    }
  }

  /** `_create_time_array(Fake)` and the plain RRi built from `Fake` alone. */
  lemma CreateTimeArrayExample(limit: real)
    requires TestedLimit(limit)
    ensures CreateTimeArray(Fake) == Ok(FakeAxis)
    ensures Construct(Fake, None, false, false, limit) == Ok(FakeSeries)
  {
    var c := CumSum(Fake);
    assert c[0] == 800.0 by {
      assert Fake[..1] == [800.0] && [800.0][..0] == [];
    }
    assert c[1] == c[0] + Fake[1] == 1610.0;
    assert c[2] == c[1] + Fake[2] == 2425.0;
    assert c[3] == c[2] + Fake[3] == 3175.0;
    var t := CreateTimeArray(Fake).value;
    assert t == FakeAxis;
    ValidateRriExamples(limit);
  }

  /** `rri[:2]` is the RRi built from the first two intervals alone. */
  lemma SliceExample(limit: real)
    requires TestedLimit(limit)
    ensures Construct([800.0, 810.0], None, false, false, limit) == Ok(SliceSeries(FakeSeries, None, Some(2)))
  {
    var v := [800.0, 810.0];
    var c := CumSum(v);
    assert c[0] == 800.0 by {
      assert v[..1] == [800.0] && [800.0][..0] == [];
    }
    assert CreateTimeArray(v).value == [0.0, 0.81];
    assert ValidateRri(v, limit) == Ok(v) by {
      assert v[1] > limit;
    }
    assert SliceBounds(4, None, Some(2)) == (0, 2);
    assert Fake[0..2] == v && FakeAxis[0..2] == [0.0, 0.81];
  }

  /** `rri[0]` is the first interval; `rri[-1]` the last. */
  lemma AtExample()
    ensures At(FakeSeries, 0) == Ok(800.0)
    ensures At(FakeSeries, -1) == Ok(750.0)
    ensures At(FakeSeries, 4) == Err(IndexOutOfRange)
  {
  }

  /** The mask `[False, True, True, False]` keeps the middle two beats. */
  lemma MaskExample()
    ensures MaskSeries(FakeSeries, [false, true, true, false]) ==
            Ok(Series([810.0, 815.0], [0.81, 1.625], false, false))
  {
    var m := [false, true, true, false];
    assert Select(Fake[3..], m[3..]) == [];
    assert Select(Fake[2..], m[2..]) == [815.0];
    assert Select(Fake[1..], m[1..]) == [810.0, 815.0];
    assert Select(FakeAxis[3..], m[3..]) == [];
    assert Select(FakeAxis[2..], m[2..]) == [1.625];
    assert Select(FakeAxis[1..], m[1..]) == [0.81, 1.625];
    assert Select(Fake, m) == [810.0, 815.0];
    assert Select(FakeAxis, m) == [0.81, 1.625];
  }

  /**
   * `rri * 10`, `rri + 10`, `rri - 10`, `rri / 10`, `rri ** 2` and `abs(rri)`
   * position by position, each keeping the time axis.
   */
  lemma ArithmeticExamples()
    ensures Arith(FakeSeries, Mul, Scalar(10.0)).values == [8000.0, 8100.0, 8150.0, 7500.0]
    ensures Arith(FakeSeries, Add, Scalar(10.0)).values == [810.0, 820.0, 825.0, 760.0]
    ensures Arith(FakeSeries, Sub, Scalar(10.0)).values == [790.0, 800.0, 805.0, 740.0]
    ensures Arith(FakeSeries, Div, Scalar(10.0)).values == [80.0, 81.0, 81.5, 75.0]
    ensures Pow(FakeSeries, ScalarExp(2)).values == [640000.0, 656100.0, 664225.0, 562500.0]
    ensures AbsSeries(FakeSeries) == FakeSeries
  {
    AbsOfPositiveIsIdentity(FakeSeries);
  }

  /** `rri == 810` and `rri > 810` compare position by position. */
  lemma ComparisonExamples()
    ensures Compare(FakeSeries, Eq, 810.0) == [false, true, false, false]
    ensures Compare(FakeSeries, Ne, 810.0) == [true, false, true, true]
    ensures Compare(FakeSeries, Gt, 810.0) == [false, false, true, false]
    ensures Compare(FakeSeries, Le, 810.0) == [true, true, false, true]
  {
  }

  /** The sum of four numbers, unfolded from the right. */
  lemma SumOfFour(a: real, b: real, c: real, d: real)
    ensures Sum([a, b, c, d]) == a + b + c + d
  {
    assert Sum([a]) == a by {
      assert [a][..0] == [];
    }
    assert Sum([a, b]) == a + b by {
      assert [a, b][..1] == [a];
    }
    assert Sum([a, b, c]) == a + b + c by {
      assert [a, b, c][..2] == [a, b];
    }
    assert [a, b, c, d][..3] == [a, b, c];
  }

  /** `mean()` and `var()` of `Fake`. */
  lemma MeanVarExample()
    ensures Mean(Fake) == 793.75
    ensures Var(Fake) == 667.1875
  {
    SumOfFour(800.0, 810.0, 815.0, 750.0);
    var d := SquaredDeviations(Fake, 793.75);
    assert d == [39.0625, 264.0625, 451.5625, 1914.0625];
    SumOfFour(39.0625, 264.0625, 451.5625, 1914.0625);
  }

  /** `min()`, `max()` and `amplitude()` of `Fake`. */
  lemma ExtremaExample()
    ensures Min(Fake) == 750.0 && Max(Fake) == 815.0
    ensures Amplitude(Fake) == 65.0
  {
    assert Min(Fake) == 750.0 by {
      assert 750.0 in Fake;
    }
    assert Max(Fake) == 815.0 by {
      assert 815.0 in Fake;
    }
  }

  /** Sorting `Fake`: the ordered sequence with the same beats. */
  lemma SortExample(s: seq<real>)
    requires s == Fake
    ensures Sort(s) == [750.0, 800.0, 810.0, 815.0]
  {
    var t := [750.0, 800.0, 810.0, 815.0];
    assert multiset(t) == multiset(s);
    assert Sorted(t);
    SortCharacterised(s, t);
  }

  /** `median()` of `Fake`: the mean of its two middle beats, 800 and 810. */
  lemma MedianExample()
    ensures Median(Fake) == 805.0
  {
    SortExample(Fake);
    var t := Sort(Fake);
    assert |t| == 4 && t[1] == 800.0 && t[2] == 810.0;
    assert Median(Fake) == (t[1] + t[2]) / 2.0;
  }

  /** `to_hr()` of `Fake`, beat by beat. */
  lemma ToHrExample()
    ensures ToHr(Fake) == [75.0, 60000.0 / 810.0, 60000.0 / 815.0, 80.0]
  {
  }

  /** The rri column of the `describe` table of `Fake`. */
  lemma DescribeExample(s: seq<real>)
    requires s == Fake
    ensures Describe(s).min.rri == 750.0 && Describe(s).max.rri == 815.0
    ensures Describe(s).amplitude.rri == 65.0
    ensures Describe(s).mean.rri == 793.75 && Describe(s).median.rri == 805.0
    ensures Describe(s).variance.rri == 667.1875
  {
    ExtremaExample();
    MeanVarExample();
    MedianExample();
  }

  /**
   * The rate column of the `describe` table of `Fake`. Its mean is the mean
   * of the rates, which differs from the rate of the mean interval 793.75.
   */
  lemma DescribeRateExample(s: seq<real>)
    requires s == Fake
    ensures Describe(s).min.hr == 60000.0 / 815.0 && Describe(s).max.hr == 80.0
    ensures Describe(s).mean.hr != 60000.0 / 793.75
  {
    DescribeExample(s);
    assert AllPositive(s);
    RateMeanExample(s);
  }

  /** The mean of the rates of `Fake`: the average of its four beat-by-beat rates. */
  lemma RateMeanExample(s: seq<real>)
    requires s == Fake
    ensures Mean(ToHr(s)) == (75.0 + 60000.0 / 810.0 + 60000.0 / 815.0 + 80.0) / 4.0
  {
    ToHrExample();
    SumOfFour(75.0, 60000.0 / 810.0, 60000.0 / 815.0, 80.0);
  }

  /** The seven-beat series of the `time_range` test, two seconds apart. */
  const LongValues: seq<real> := [800.0, 810.0, 815.0, 750.0, 817.0, 785.0, 910.0]
  const LongTimes: seq<real> := [2.0, 4.0, 6.0, 8.0, 10.0, 12.0, 14.0]

  /** `RRi(FAKE_RRI + [817, 785, 910], time=[2, 4, ..., 14])` is a valid plain RRi. */
  lemma LongSeriesBuilds(limit: real)
    requires TestedLimit(limit)
    ensures Construct(LongValues, Some(LongTimes), false, false, limit) ==
            Ok(Series(LongValues, LongTimes, false, false))
  {
    assert LongValues[0] > limit;
    DiffsPositiveIffIncreasing(LongTimes);
    IncreasingNonNegativeIsValid(LongTimes);
  }

  /** The mask `[False] * 4 + [True] * 3` keeps the last three of seven entries. */
  lemma SelectLastThree(xs: seq<real>)
    requires |xs| == 7
    ensures Select(xs, [false, false, false, false, true, true, true]) == xs[4..]
  {
    var m := [false, false, false, false, true, true, true];
    assert Select(xs[4..], m[4..]) == xs[4..] by {
      SelectAll(xs[4..], m[4..]);
    }
    assert Select(xs[3..], m[3..]) == Select(xs[4..], m[4..]) by {
      assert xs[3..][1..] == xs[4..] && m[3..][1..] == m[4..];
    }
    assert Select(xs[2..], m[2..]) == Select(xs[3..], m[3..]) by {
      assert xs[2..][1..] == xs[3..] && m[2..][1..] == m[3..];
    }
    assert Select(xs[1..], m[1..]) == Select(xs[2..], m[2..]) by {
      assert xs[1..][1..] == xs[2..] && m[1..][1..] == m[2..];
    }
  }

  /** `time_range(start=10, end=14)` keeps the last three beats, both ends included. */
  lemma TimeRangeExample(s: Series)
    requires s == Series(LongValues, LongTimes, false, false)
    ensures TimeRange(s, 10.0, 14.0) == Series([817.0, 785.0, 910.0], [10.0, 12.0, 14.0], false, false)
  {
    assert RangeMask(s.time, 10.0, 14.0) == [false, false, false, false, true, true, true];
    SelectLastThree(s.values);
    SelectLastThree(s.time);
  }

  /** `reset_time()` on `Fake` timed `[4, 5, 6, 7]` gives the axis `[0, 1, 2, 3]`. */
  lemma ResetTimeExample(limit: real)
    requires TestedLimit(limit)
    ensures Construct(Fake, Some([4.0, 5.0, 6.0, 7.0]), false, false, limit) ==
            Ok(Series(Fake, [4.0, 5.0, 6.0, 7.0], false, false))
    ensures ResetTime(Series(Fake, [4.0, 5.0, 6.0, 7.0], false, false)) ==
            Ok(Series(Fake, [0.0, 1.0, 2.0, 3.0], false, false))
  {
    ValidateRriExamples(limit);
    DiffsPositiveIffIncreasing([4.0, 5.0, 6.0, 7.0]);
    IncreasingNonNegativeIsValid([4.0, 5.0, 6.0, 7.0]);
    var t := ShiftedTime([4.0, 5.0, 6.0, 7.0]).value;
    assert t == [0.0, 1.0, 2.0, 3.0];
  }

  /** The detrended intervals of the `RRiDetrended` test, negative as detrending leaves them. */
  const Detrended: seq<real> := [-87.98470401, -88.22253018, -49.46831978, -109.69798458, -181.90892056]

  /** `RRiDetrended(values, time=[0, 1, 2, 3, 4])` is built, flagged detrended and not interpolated. */
  lemma DetrendedExample(limit: real)
    ensures Construct(Detrended, Some([0.0, 1.0, 2.0, 3.0, 4.0]), false, true, limit) ==
            Ok(Series(Detrended, [0.0, 1.0, 2.0, 3.0, 4.0], false, true))
    ensures Construct(Detrended, Some([0.0, 1.0, 2.0, 3.0, 4.0]), false, false, limit) == Err(NonPositiveInterval)
  {
    DiffsPositiveIffIncreasing([0.0, 1.0, 2.0, 3.0, 4.0]);
    IncreasingNonNegativeIsValid([0.0, 1.0, 2.0, 3.0, 4.0]);
    assert Detrended[0] <= 0.0;
  }
}
