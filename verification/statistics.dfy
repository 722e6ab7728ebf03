/**
 * The reductions of an RRi series (`min`, `max`, `amplitude`, `mean`,
 * `median`, `var`), the heart-rate transform `to_hr` and the table built by
 * `describe`, all over the intervals in milliseconds.
 */
module Statistics {
  import opened Sequences

  /** `amplitude()`: the spread between the longest and the shortest interval. */
  function Amplitude(s: seq<real>): (r: real)
    requires |s| > 0
    ensures r >= 0.0
    ensures forall i, j :: 0 <= i < |s| && 0 <= j < |s| ==> s[i] - s[j] <= r
    ensures exists i, j :: 0 <= i < |s| && 0 <= j < |s| && s[i] - s[j] == r
  {
    var hi := Max(s);
    var lo := Min(s);
    var i :| 0 <= i < |s| && s[i] == hi;
    var j :| 0 <= j < |s| && s[j] == lo;
    assert s[i] - s[j] == hi - lo;
    hi - lo
  }


  /** `r` added up `n` times. */
  function Times(n: nat, r: real): real
  {
    if n == 0 then 0.0 else Times(n - 1, r) + r
  }

  /** Adding `r` up `n` times is multiplying it by `n`. */
  lemma {:induction false} TimesIsProduct(n: nat, r: real)
    ensures Times(n, r) == n as real * r
  {
    if n > 0 {
      TimesIsProduct(n - 1, r);
      assert n as real * r == (n - 1) as real * r + r;
    }
  }

  /** The quotient `x / n`, added up `n` times, gives back `x`. */
  lemma TimesQuotient(n: nat, x: real)
    requires n > 0
    ensures Times(n, x / n as real) == x
  {
    var q := x / n as real;
    TimesIsProduct(n, q);
    assert n as real * q == x;
  }

  /** A lower bound on every element gives n times that bound below the sum. */
  lemma {:induction false} SumAtLeast(s: seq<real>, m: real)
    requires forall i :: 0 <= i < |s| ==> m <= s[i]
    ensures |s| as real * m <= Sum(s)
  {
    if |s| > 0 {
      var t := s[..|s| - 1];
      SumAtLeast(t, m);
      assert |s| as real * m == |t| as real * m + m;
    }
  }

  /** An upper bound on every element gives n times that bound above the sum. */
  lemma {:induction false} SumAtMost(s: seq<real>, m: real)
    requires forall i :: 0 <= i < |s| ==> s[i] <= m
    ensures Sum(s) <= |s| as real * m
  {
    if |s| > 0 {
      var t := s[..|s| - 1];
      SumAtMost(t, m);
      assert |s| as real * m == |t| as real * m + m;
    }
  }

  /** Dividing `n * a <= x` by a positive n. */
  lemma DivideLower(n: real, a: real, x: real)
    requires n > 0.0 && n * a <= x
    ensures a <= x / n
  {
    var q := x / n;
    assert n * q == x;
    if q < a {
      ScaleStrict(n, q, a);
    }
  }

  /** Dividing `x <= n * b` by a positive n. */
  lemma DivideUpper(n: real, x: real, b: real)
    requires n > 0.0 && x <= n * b
    ensures x / n <= b
  {
    var q := x / n;
    assert n * q == x;
    if q > b {
      ScaleStrict(n, b, q);
    }
  }

  /**
   * `mean()`: the arithmetic mean, the number that `|s|` times over makes
   * up the sum, and so lies between the smallest and the largest interval.
   */
  function Mean(s: seq<real>): (r: real)
    requires |s| > 0
    ensures Times(|s|, r) == Sum(s)
    ensures Min(s) <= r <= Max(s)
  {
    TimesQuotient(|s|, Sum(s));
    SumAtLeast(s, Min(s));
    DivideLower(|s| as real, Min(s), Sum(s));
    SumAtMost(s, Max(s));
    DivideUpper(|s| as real, Sum(s), Max(s));
    Sum(s) / |s| as real
  }

  /** A lower bound on every interval bounds the mean from below. */
  lemma MeanAtLeast(s: seq<real>, m: real)
    requires |s| > 0 && forall i :: 0 <= i < |s| ==> m <= s[i]
    ensures m <= Mean(s)
  {
    SumAtLeast(s, m);
    DivideLower(|s| as real, m, Sum(s));
  }

  /** An upper bound on every interval bounds the mean from above. */
  lemma MeanAtMost(s: seq<real>, m: real)
    requires |s| > 0 && forall i :: 0 <= i < |s| ==> s[i] <= m
    ensures Mean(s) <= m
  {
    SumAtMost(s, m);
    DivideUpper(|s| as real, Sum(s), m);
  }

  function AddConstant(s: seq<real>, c: real): (r: seq<real>)
  {
    seq(|s|, i requires 0 <= i < |s| => s[i] + c)
  }

  lemma {:induction false} SumAddConstant(s: seq<real>, c: real)
    ensures Sum(AddConstant(s, c)) == Sum(s) + |s| as real * c
  {
    if |s| > 0 {
      var t := s[..|s| - 1];
      SumAddConstant(t, c);
      assert AddConstant(s, c)[..|s| - 1] == AddConstant(t, c);
    }
  }

  /** Shifting every interval by c shifts the mean by c. */
  lemma MeanAddConstant(s: seq<real>, c: real)
    requires |s| > 0
    ensures Mean(AddConstant(s, c)) == Mean(s) + c
  {
    SumAddConstant(s, c);
    DivShift(Sum(s), |s| as real, c);
  }

  /**
   * The squared distance of every interval from `m`, written as the square
   * of the magnitude so that every factor is non-negative.
   */
  function SquaredDeviations(s: seq<real>, m: real): seq<real>
  {
    seq(|s|, i requires 0 <= i < |s| => AbsValue(s[i] - m) * AbsValue(s[i] - m))
  }

  /** `var()`: the population variance (NumPy's default, dividing by n). */
  function Var(s: seq<real>): (r: real)
    requires |s| > 0
    ensures r >= 0.0
  {
    var d := SquaredDeviations(s, Mean(s));
    SumNonNegative(d);
    Sum(d) / |s| as real
  }

  lemma {:induction false} SumNonNegative(s: seq<real>)
    requires forall i :: 0 <= i < |s| ==> s[i] >= 0.0
    ensures Sum(s) >= 0.0
  {
    if |s| > 0 {
      SumNonNegative(s[..|s| - 1]);
    }
  }

  /** A sum of non-negative terms is zero only when every term is. */
  lemma {:induction false} SumZeroIffAllZero(s: seq<real>)
    requires forall i :: 0 <= i < |s| ==> s[i] >= 0.0
    ensures Sum(s) == 0.0 <==> forall i :: 0 <= i < |s| ==> s[i] == 0.0
  {
    if |s| > 0 {
      var t := s[..|s| - 1];
      SumZeroIffAllZero(t);
      SumNonNegative(t);
      if Sum(s) == 0.0 {
        forall i | 0 <= i < |s| ensures s[i] == 0.0 {
          if i < |s| - 1 { assert s[i] == t[i]; }
        }
      }
      if forall i :: 0 <= i < |s| ==> s[i] == 0.0 {
        assert forall i :: 0 <= i < |t| ==> t[i] == 0.0;
      }
    }
  }

  /** Equal intervals have zero variance. */
  lemma ConstantHasZeroVariance(s: seq<real>)
    requires |s| > 0 && forall i :: 0 <= i < |s| ==> s[i] == s[0]
    ensures Var(s) == 0.0
  {
    var m := Mean(s);
    var d := SquaredDeviations(s, m);
    assert Min(s) == s[0] && Max(s) == s[0] by {
      assert Min(s) in s && Max(s) in s;
    }
    forall i | 0 <= i < |d| ensures d[i] == 0.0 {
      assert s[i] - m == 0.0;
    }
    SumZeroIffAllZero(d);
  }

  /** Shifting every interval by the same amount leaves the variance unchanged. */
  lemma VarAddConstant(s: seq<real>, c: real)
    requires |s| > 0
    ensures Var(AddConstant(s, c)) == Var(s)
  {
    MeanAddConstant(s, c);
    DeviationsShift(s, c, Mean(s));
  }

  /** Shifting the intervals and the centre by the same amount leaves every deviation unchanged. */
  lemma DeviationsShift(s: seq<real>, c: real, m: real)
    ensures SquaredDeviations(AddConstant(s, c), m + c) == SquaredDeviations(s, m)
  {
    var t := AddConstant(s, c);
    forall i | 0 <= i < |s| ensures SquaredDeviations(t, m + c)[i] == SquaredDeviations(s, m)[i] {
      assert t[i] - (m + c) == s[i] - m;
    }
  }

  // ---------------------------------------------------------------- median

  predicate Sorted(s: seq<real>)
  {
    forall i, j :: 0 <= i <= j < |s| ==> s[i] <= s[j]
  }

  /** Insert `x` before the first element not smaller than it. */
  function Insert(x: real, s: seq<real>): (r: seq<real>)
    ensures |r| == |s| + 1
  {
    if |s| == 0 then [x]
    else if x <= s[0] then [x] + s
    else [s[0]] + Insert(x, s[1..])
  }

  /** Insertion adds exactly one copy of `x`. */
  lemma {:induction false} InsertPermutes(x: real, s: seq<real>)
    ensures multiset(Insert(x, s)) == multiset(s) + multiset{x}
  {
    if |s| > 0 && x > s[0] {
      InsertPermutes(x, s[1..]);
      assert s == [s[0]] + s[1..];
    }
  }

  /** Insertion into a sorted sequence keeps it sorted. */
  lemma {:induction false} InsertSorted(x: real, s: seq<real>)
    requires Sorted(s)
    ensures Sorted(Insert(x, s))
  {
    if |s| > 0 && x > s[0] {
      var rest := Insert(x, s[1..]);
      InsertSorted(x, s[1..]);
      InsertPermutes(x, s[1..]);
      forall k | 0 <= k < |rest| ensures s[0] <= rest[k] {
        assert rest[k] in multiset(rest);
        assert rest[k] in multiset(s[1..]) || rest[k] == x;
      }
      assert Insert(x, s) == [s[0]] + rest;
    }
  }

  /** Insertion sort: an ordered permutation of the input. */
  function Sort(s: seq<real>): (r: seq<real>)
    ensures Sorted(r)
    ensures multiset(r) == multiset(s)
  {
    if |s| == 0 then []
    else
      var t := Sort(s[1..]);
      InsertSorted(s[0], t);
      InsertPermutes(s[0], t);
      assert s == [s[0]] + s[1..];
      Insert(s[0], t)
  }

  /** Two ordered permutations of each other start alike and go on with the same elements. */
  lemma SortedPermutationHeads(x: seq<real>, y: seq<real>)
    requires Sorted(x) && Sorted(y) && multiset(x) == multiset(y) && |x| > 0
    ensures |y| > 0 && x[0] == y[0]
    ensures multiset(x[1..]) == multiset(y[1..])
  {
    assert |x| == |multiset(x)| == |multiset(y)| == |y|;
    assert x[0] == y[0] by {
      assert x[0] in multiset(y) && y[0] in multiset(x);
      var j :| 0 <= j < |y| && y[j] == x[0];
      var i :| 0 <= i < |x| && x[i] == y[0];
      assert y[0] <= y[j] && x[0] <= x[i];
    }
    assert x == [x[0]] + x[1..] && y == [y[0]] + y[1..];
    assert multiset(x[1..]) == multiset(x) - multiset{x[0]};
    assert multiset(y[1..]) == multiset(y) - multiset{x[0]};
  }

  /** There is only one ordered permutation of a sequence, so `Sort` is pinned down by its contract. */
  lemma {:induction false} SortedPermutationUnique(x: seq<real>, y: seq<real>)
    requires Sorted(x) && Sorted(y) && multiset(x) == multiset(y)
    ensures x == y
  {
    if |x| == 0 {
      assert |y| == |multiset(y)| == 0;
    } else {
      SortedPermutationHeads(x, y);
      SortedPermutationUnique(x[1..], y[1..]);
      assert x == [x[0]] + x[1..] && y == [y[0]] + y[1..];
    }
  }

  /** `Sort` returns the ordered permutation of its input, whichever way that one is found. */
  lemma SortCharacterised(s: seq<real>, t: seq<real>)
    requires Sorted(t) && multiset(t) == multiset(s)
    ensures Sort(s) == t
  {
    SortedPermutationUnique(Sort(s), t);
  }

  /**
   * `median()`: the middle of the sorted intervals, or the mean of the two
   * middle ones when their number is even.
   */
  function Median(s: seq<real>): (r: real)
    requires |s| > 0
    ensures Min(s) <= r <= Max(s)
  {
    var t := Sort(s);
    assert |t| == |multiset(t)| == |s|;
    var n := |t|;
    assert t[n / 2] in multiset(s) && t[(n - 1) / 2] in multiset(s);
    if n % 2 == 1 then t[n / 2] else (t[n / 2 - 1] + t[n / 2]) / 2.0
  }

  /** With an odd number of intervals the median is one of them. */
  lemma MedianOfOddIsElement(s: seq<real>)
    requires |s| % 2 == 1
    ensures Median(s) in s
  {
    var t := Sort(s);
    assert |t| == |multiset(t)| == |s|;
    assert t[|t| / 2] in multiset(s);
  }

  // ---------------------------------------------------------------- heart rate

  /** `to_hr()`: beats per minute, 60000 / interval, position by position. */
  function ToHr(s: seq<real>): (r: seq<real>)
    requires AllNonZero(s)
    ensures |r| == |s|
    ensures AllPositive(s) ==> AllPositive(r)
  {
    seq(|s|, i requires 0 <= i < |s| => 60000.0 / s[i])
  }

  /** Converting rates back gives the intervals: the transform is its own inverse. */
  lemma ToHrInvolution(s: seq<real>)
    requires AllNonZero(s)
    ensures AllNonZero(ToHr(s)) && ToHr(ToHr(s)) == s
  {
    var h := ToHr(s);
    forall i | 0 <= i < |s| ensures h[i] != 0.0 && 60000.0 / h[i] == s[i] {
      assert h[i] * s[i] == 60000.0;
    }
  }

  /** An element that bounds every element from above is the maximum. */
  lemma MaxIsUpperElement(s: seq<real>, v: real)
    requires v in s && forall i :: 0 <= i < |s| ==> s[i] <= v
    ensures Max(s) == v
  {
  }

  /** An element that bounds every element from below is the minimum. */
  lemma MinIsLowerElement(s: seq<real>, v: real)
    requires v in s && forall i :: 0 <= i < |s| ==> v <= s[i]
    ensures Min(s) == v
  {
  }

  /** A rate is no faster than the rate of any shorter-or-equal interval. */
  lemma RateMonotone(x: real, y: real)
    requires 0.0 < x <= y
    ensures 60000.0 / y <= 60000.0 / x
  {
    if x < y {
      RateAntitone(x, y);
    }
  }

  /** A lower bound on the intervals gives an upper bound on the rates. */
  lemma RatesAtMost(s: seq<real>, lo: real)
    requires 0.0 < lo && forall i :: 0 <= i < |s| ==> lo <= s[i]
    ensures AllNonZero(s)
    ensures forall i :: 0 <= i < |s| ==> ToHr(s)[i] <= 60000.0 / lo
  {
    forall i | 0 <= i < |s| ensures ToHr(s)[i] <= 60000.0 / lo {
      RateMonotone(lo, s[i]);
    }
  }

  /** An upper bound on the intervals gives a lower bound on the rates. */
  lemma RatesAtLeast(s: seq<real>, hi: real)
    requires 0.0 < hi && AllPositive(s) && forall i :: 0 <= i < |s| ==> s[i] <= hi
    ensures forall i :: 0 <= i < |s| ==> 60000.0 / hi <= ToHr(s)[i]
  {
    forall i | 0 <= i < |s| ensures 60000.0 / hi <= ToHr(s)[i] {
      RateMonotone(s[i], hi);
    }
  }

  /** The fastest rate belongs to the shortest interval. */
  lemma MaxHrIsRateOfMin(s: seq<real>)
    requires |s| > 0 && AllPositive(s)
    ensures Max(ToHr(s)) == 60000.0 / Min(s)
  {
    var lo := Min(s);
    var k :| 0 <= k < |s| && s[k] == lo;
    assert ToHr(s)[k] == 60000.0 / lo;
    RatesAtMost(s, lo);
    MaxIsUpperElement(ToHr(s), 60000.0 / lo);
  }

  /** The slowest rate belongs to the longest interval. */
  lemma MinHrIsRateOfMax(s: seq<real>)
    requires |s| > 0 && AllPositive(s)
    ensures Min(ToHr(s)) == 60000.0 / Max(s)
  {
    var hi := Max(s);
    var k :| 0 <= k < |s| && s[k] == hi;
    assert ToHr(s)[k] == 60000.0 / hi;
    assert 0.0 < s[0] <= hi;
    RatesAtLeast(s, hi);
    MinIsLowerElement(ToHr(s), 60000.0 / hi);
  }

  /** A longer interval is a slower rate. */
  lemma RateAntitone(x: real, y: real)
    requires 0.0 < x < y
    ensures 60000.0 / y < 60000.0 / x
  {
    assert 60000.0 / y * y == 60000.0 == 60000.0 / x * x;
  }

  // ---------------------------------------------------------------- describe

  /** One row of the `describe` table: a statistic of the intervals and the same statistic of the rates. */
  datatype Row = Row(rri: real, hr: real)

  /** The `describe` table without its `std` row, one field per key. */
  datatype Description = Description(
    min: Row, max: Row, amplitude: Row, mean: Row, median: Row, variance: Row)

  /**
   * `describe()`: each statistic of the intervals beside the same statistic
   * of the heart-rate sequence (not the rate of the interval statistic).
   */
  function Describe(s: seq<real>): (d: Description)
    requires |s| > 0 && AllNonZero(s)
    ensures d.min == Row(Min(s), Min(ToHr(s))) && d.max == Row(Max(s), Max(ToHr(s)))
    ensures d.amplitude == Row(Amplitude(s), Amplitude(ToHr(s)))
    ensures d.mean.rri == Mean(s) && d.median.rri == Median(s) && d.variance.rri == Var(s)
    ensures d.min.rri <= d.median.rri <= d.max.rri
    ensures d.min.rri <= d.mean.rri <= d.max.rri
    ensures d.amplitude.rri == d.max.rri - d.min.rri
    ensures d.amplitude.hr == d.max.hr - d.min.hr
    ensures d.variance.rri >= 0.0 && d.variance.hr >= 0.0
    ensures d.mean.hr == Mean(ToHr(s)) && d.median.hr == Median(ToHr(s)) && d.variance.hr == Var(ToHr(s))
    ensures d.min.hr <= d.median.hr <= d.max.hr && d.min.hr <= d.mean.hr <= d.max.hr
    ensures AllPositive(s) ==> 0.0 < d.min.rri
    ensures AllPositive(s) ==> d.max.hr == 60000.0 / d.min.rri && d.min.hr == 60000.0 / d.max.rri
  {
    var h := ToHr(s);
    assert AllPositive(s) ==> Max(h) == 60000.0 / Min(s) && Min(h) == 60000.0 / Max(s) by {
      if AllPositive(s) {
        MaxHrIsRateOfMin(s);
        MinHrIsRateOfMax(s);
      }
    }
    Description(
      Row(Min(s), Min(h)),
      Row(Max(s), Max(h)),
      Row(Amplitude(s), Amplitude(h)),
      Row(Mean(s), Mean(h)),
      Row(Median(s), Median(h)),
      Row(Var(s), Var(h)))
  }
}
