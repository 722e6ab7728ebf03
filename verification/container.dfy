/**
 * The RRi series as a value: validated construction, indexing, elementwise
 * arithmetic and comparisons, `time_range` and `reset_time`. The class in
 * rri.dfy wraps these operations around objects.
 */
module Container {
  import opened Wrappers
  import opened Sequences
  import opened Validator
  import opened TimeAxis

  /** The state of one RRi object: intervals (ms), time axis (s) and the two flags. */
  datatype Series = Series(values: seq<real>, time: seq<real>, interpolated: bool, detrended: bool)
  {
    /** One time stamp per interval. */
    predicate WellFormed()
    {
      |values| == |time|
    }

    /** What `_validate_rri` and `_validate_time` establish for a plain RRi. */
    predicate Validated()
    {
      WellFormed() && AllPositive(values) && ValidTimeAxis(time)
    }
  }

  // ---------------------------------------------------------------- construction

  /**
   * `RRi(values, time, interpolated)` (`detrended` false) and
   * `RRiDetrended(values, time, interpolated)` (`detrended` true). The
   * intervals are validated first (not for the detrended kind, whose values
   * may be negative), then the supplied time axis is checked against them or
   * one is derived from them.
   */
  function Construct(values: seq<real>, time: Option<seq<real>>, interpolated: bool, detrended: bool, limit: real)
    : (r: Result<Series, Error>)
    ensures r.Ok? ==> r.value.WellFormed() && r.value.interpolated == interpolated && r.value.detrended == detrended
    ensures r.Ok? && time.Some? ==> r.value.time == time.value && ValidTimeAxis(r.value.time)
    ensures r.Ok? && time.None? ==> |r.value.time| > 0 && r.value.time[0] == 0.0
    ensures r.Ok? && !detrended ==> r.value.Validated()
    ensures r.Ok? && detrended ==> r.value.values == values
    ensures !detrended ==>
              (r.Ok? <==> AllPositive(values) &&
                          if time.Some? then |values| == |time.value| && ValidTimeAxis(time.value) else |values| > 0)
    ensures !detrended && !AllPositive(values) ==> r == Err(NonPositiveInterval)
    ensures r.Ok? && !detrended ==> ValidateRri(values, limit) == Ok(r.value.values)
    ensures r.Ok? && time.None? ==> CreateTimeArray(r.value.values) == Ok(r.value.time)
    ensures detrended ==>
              (r.Ok? <==> if time.Some? then |values| == |time.value| && ValidTimeAxis(time.value) else |values| > 0)
    ensures r.Err? && (detrended || AllPositive(values)) && time.Some? ==> ValidateTime(values, time.value) == Err(r.error)
    ensures r.Err? && (detrended || AllPositive(values)) && time.None? ==> r.error == IndexOutOfRange
  {
    var checked := if detrended then Ok(values) else ValidateRri(values, limit);
    match checked
    case Err(e) => Err(e)
    case Ok(vs) =>
      var axis := if time.Some? then ValidateTime(vs, time.value) else CreateTimeArray(vs);
      match axis
      case Err(e) => Err(e)
      case Ok(ts) =>
        assert !detrended && time.None? ==> ValidTimeAxis(ts) by {
          if !detrended && time.None? {
            CreatedAxisIsValid(vs);
          }
        }
        Ok(Series(vs, ts, interpolated, detrended))
  }

  // ---------------------------------------------------------------- indexing

  /** A Python integer position: negative positions count back from the end. */
  function Position(n: nat, i: int): (r: Result<nat, Error>)
    ensures r.Ok? <==> -(n as int) <= i < n
    ensures r.Err? ==> r.error == IndexOutOfRange
    ensures r.Ok? ==> r.value < n && (r.value - i) % n == 0
  {
    if 0 <= i < n then Ok(i)
    else if -(n as int) <= i < 0 then Ok(i + n)
    else Err(IndexOutOfRange)
  }

  /** `rri[i]` for an integer `i`: the bare interval, not a series. */
  function At(s: Series, i: int): (r: Result<real, Error>)
    ensures r.Ok? <==> -|s.values| <= i < |s.values|
    ensures r.Err? ==> r.error == IndexOutOfRange
    ensures 0 <= i < |s.values| ==> r == Ok(s.values[i])
    ensures -|s.values| <= i < 0 ==> r == Ok(s.values[|s.values| + i])
  {
    match Position(|s.values|, i)
    case Ok(p) => Ok(s.values[p])
    case Err(e) => Err(e)
  }

  /** Where a slice bound points: a negative bound counts back from the end. */
  function Resolve(n: nat, b: int): int
  {
    if b < 0 then b + n else b
  }

  /** Whether position `i` is taken by the slice `start:stop` (an absent bound is open). */
  predicate InSlice(n: nat, start: Option<int>, stop: Option<int>, i: int)
  {
    (start.None? || Resolve(n, start.value) <= i) && (stop.None? || i < Resolve(n, stop.value))
  }

  /** Python's clamping of a slice bound into `0..n`. */
  function Clamp(n: nat, b: int): (r: nat)
  {
    if b < 0 then (if b + n < 0 then 0 else b + n) else if b > n then n else b
  }

  /**
   * The half-open range of positions a step-1 slice `start:stop` covers:
   * exactly the positions `InSlice` admits, in one contiguous run.
   */
  function SliceBounds(n: nat, start: Option<int>, stop: Option<int>): (r: (nat, nat))
    ensures r.0 <= r.1 <= n
    ensures forall i :: 0 <= i < n ==> (r.0 <= i < r.1 <==> InSlice(n, start, stop, i))
  {
    var lo := if start.None? then 0 else Clamp(n, start.value);
    var hi := if stop.None? then n else Clamp(n, stop.value);
    (lo, if hi < lo then lo else hi)
  }

  /** `rri[start:stop]`: the same run of values and of time stamps, flags kept. */
  function SliceSeries(s: Series, start: Option<int>, stop: Option<int>): (r: Series)
    requires s.WellFormed()
    ensures r.WellFormed() && r.interpolated == s.interpolated && r.detrended == s.detrended
    ensures var b := SliceBounds(|s.values|, start, stop);
            r.values == s.values[b.0..b.1] && r.time == s.time[b.0..b.1]
    ensures ValidTimeAxis(s.time) ==> ValidTimeAxis(r.time)
    ensures AllPositive(s.values) ==> AllPositive(r.values)
  {
    var b := SliceBounds(|s.values|, start, stop);
    var t := s.time[b.0..b.1];
    assert ValidTimeAxis(s.time) ==> StrictlyIncreasing(t) && NonNegative(t);
    assert ValidTimeAxis(s.time) ==> ValidTimeAxis(t) by {
      if ValidTimeAxis(s.time) {
        IncreasingNonNegativeIsValid(t);
      }
    }
    Series(s.values[b.0..b.1], t, s.interpolated, s.detrended)
  }

  /** The full slice `rri[:]` gives back the same series. */
  lemma FullSliceIsIdentity(s: Series)
    requires s.WellFormed()
    ensures SliceSeries(s, None, None) == s
  {
    assert s.values[0..|s.values|] == s.values;
    assert s.time[0..|s.time|] == s.time;
  }

  /** Masking keeps the time axis valid and the intervals positive. */
  lemma SelectKeepsInvariants(s: Series, mask: seq<bool>)
    requires s.WellFormed() && |mask| == |s.values|
    ensures ValidTimeAxis(s.time) ==> ValidTimeAxis(Select(s.time, mask))
    ensures AllPositive(s.values) ==> AllPositive(Select(s.values, mask))
  {
    var t := Select(s.time, mask);
    var v := Select(s.values, mask);
    if ValidTimeAxis(s.time) {
      SelectIncreasing(s.time, mask);
      forall j | 0 <= j < |t| ensures t[j] >= 0.0 {
        assert t[j] in t;
      }
      IncreasingNonNegativeIsValid(t);
    }
    if AllPositive(s.values) {
      forall j | 0 <= j < |v| ensures v[j] > 0.0 {
        assert v[j] in v;
      }
    }
  }

  /**
   * `rri[mask]` for a boolean array: point `j` of the result is the point at
   * the `j`-th set bit, interval and time stamp together, flags kept.
   */
  function MaskSeries(s: Series, mask: seq<bool>): (r: Result<Series, Error>)
    requires s.WellFormed()
    ensures r.Ok? <==> |mask| == |s.values|
    ensures r.Err? ==> r.error == MaskLengthMismatch
    ensures r.Ok? ==> r.value.WellFormed() && |r.value.values| == Count(mask)
    ensures r.Ok? ==> r.value.interpolated == s.interpolated && r.value.detrended == s.detrended
    ensures r.Ok? ==> forall j :: 0 <= j < |r.value.values| ==>
                        r.value.values[j] == s.values[Nth(mask, j)] && r.value.time[j] == s.time[Nth(mask, j)]
    ensures r.Ok? ==> forall x :: x in r.value.values <==> exists i :: 0 <= i < |mask| && mask[i] && s.values[i] == x
    ensures r.Ok? && ValidTimeAxis(s.time) ==> ValidTimeAxis(r.value.time)
    ensures r.Ok? && AllPositive(s.values) ==> AllPositive(r.value.values)
  {
    if |mask| != |s.values| then Err(MaskLengthMismatch)
    else
      SelectKeepsInvariants(s, mask);
      SelectAt(s.values, mask);
      SelectAt(s.time, mask);
      Ok(Series(Select(s.values, mask), Select(s.time, mask), s.interpolated, s.detrended))
  }

  // ---------------------------------------------------------------- arithmetic

  /** The operators whose result is again a series. */
  datatype ArithOp = Add | Sub | Mul | Div

  /** The right-hand side: a number, or another series' values taken position by position. */
  datatype Operand = Scalar(c: real) | Each(vs: seq<real>)

  function OperandAt(rhs: Operand, i: nat): real
    requires rhs.Each? ==> i < |rhs.vs|
  {
    match rhs
    case Scalar(c) => c
    case Each(vs) => vs[i]
  }

  /** The right-hand side lines up with `n` values and no division is by zero. */
  predicate Applicable(op: ArithOp, n: nat, rhs: Operand)
  {
    (rhs.Each? ==> |rhs.vs| == n) &&
    (op == Div ==> forall i :: 0 <= i < n ==> OperandAt(rhs, i) != 0.0)
  }

  function Apply(op: ArithOp, x: real, y: real): real
    requires op == Div ==> y != 0.0
  {
    match op
    case Add => x + y
    case Sub => x - y
    case Mul => x * y
    case Div => x / y
  }

  /**
   * `rri + x`, `rri - x`, `rri * x`, `rri / x`: a new series on the same time
   * axis with the same flags. The result is not validated again, so it may
   * hold non-positive values.
   */
  function Arith(s: Series, op: ArithOp, rhs: Operand): (r: Series)
    requires s.WellFormed() && Applicable(op, |s.values|, rhs)
    ensures r.WellFormed() && r.time == s.time
    ensures r.interpolated == s.interpolated && r.detrended == s.detrended
    ensures forall i :: 0 <= i < |s.values| ==> r.values[i] == Apply(op, s.values[i], OperandAt(rhs, i))
  {
    Series(seq(|s.values|, i requires 0 <= i < |s.values| => Apply(op, s.values[i], OperandAt(rhs, i))),
           s.time, s.interpolated, s.detrended)
  }

  /** Subtracting what was added gives back the series. */
  lemma AddThenSubtract(s: Series, rhs: Operand)
    requires s.WellFormed() && Applicable(Add, |s.values|, rhs)
    ensures Arith(Arith(s, Add, rhs), Sub, rhs) == s
  {
    var r := Arith(Arith(s, Add, rhs), Sub, rhs);
    assert r.values == s.values;
  }

  /** Dividing by what multiplied gives back the series. */
  lemma MultiplyThenDivide(s: Series, rhs: Operand)
    requires s.WellFormed() && Applicable(Div, |s.values|, rhs)
    ensures Arith(Arith(s, Mul, rhs), Div, rhs) == s
  {
    var m := Arith(s, Mul, rhs);
    var r := Arith(m, Div, rhs);
    forall i | 0 <= i < |s.values| ensures r.values[i] == s.values[i] {
      var y := OperandAt(rhs, i);
      MulDivCancel(s.values[i], y);
    }
    assert r.values == s.values;
  }

  /** `x ** n` for a natural exponent. */
  function Power(x: real, n: nat): real
  {
    if n == 0 then 1.0 else x * Power(x, n - 1)
  }

  lemma {:induction false} PowerAdd(x: real, a: nat, b: nat)
    ensures Power(x, a + b) == Power(x, a) * Power(x, b)
  {
    if a > 0 {
      PowerAdd(x, a - 1, b);
      assert Power(x, a + b) == x * Power(x, a - 1 + b);
    }
  }

  /** The exponent of `rri ** e`: one natural number, or one per position. */
  datatype Exponent = ScalarExp(n: nat) | EachExp(ns: seq<nat>)

  function ExponentAt(e: Exponent, i: nat): nat
    requires e.EachExp? ==> i < |e.ns|
  {
    match e
    case ScalarExp(n) => n
    case EachExp(ns) => ns[i]
  }

  /** `rri ** e`: elementwise power on the same time axis, not validated again. */
  function Pow(s: Series, e: Exponent): (r: Series)
    requires s.WellFormed() && (e.EachExp? ==> |e.ns| == |s.values|)
    ensures r.WellFormed() && r.time == s.time
    ensures r.interpolated == s.interpolated && r.detrended == s.detrended
    ensures forall i :: 0 <= i < |s.values| ==> r.values[i] == Power(s.values[i], ExponentAt(e, i))
  {
    Series(seq(|s.values|, i requires 0 <= i < |s.values| => Power(s.values[i], ExponentAt(e, i))),
           s.time, s.interpolated, s.detrended)
  }

  /** `rri ** a * rri ** b == rri ** (a + b)`. */
  lemma PowProduct(s: Series, a: nat, b: nat)
    requires s.WellFormed()
    ensures Arith(Pow(s, ScalarExp(a)), Mul, Each(Pow(s, ScalarExp(b)).values)) == Pow(s, ScalarExp(a + b))
  {
    var l := Arith(Pow(s, ScalarExp(a)), Mul, Each(Pow(s, ScalarExp(b)).values));
    forall i | 0 <= i < |s.values| ensures l.values[i] == Power(s.values[i], a + b) {
      PowerAdd(s.values[i], a, b);
    }
    assert l.values == Pow(s, ScalarExp(a + b)).values;
  }

  /** `abs(rri)`: elementwise magnitude on the same time axis. */
  function AbsSeries(s: Series): (r: Series)
    requires s.WellFormed()
    ensures r.WellFormed() && r.time == s.time
    ensures r.interpolated == s.interpolated && r.detrended == s.detrended
    ensures forall i :: 0 <= i < |s.values| ==>
              r.values[i] >= 0.0 && (r.values[i] == s.values[i] || r.values[i] == -s.values[i])
  {
    Series(seq(|s.values|, i requires 0 <= i < |s.values| => AbsValue(s.values[i])),
           s.time, s.interpolated, s.detrended)
  }

  /** On a series of positive intervals `abs` changes nothing. */
  lemma AbsOfPositiveIsIdentity(s: Series)
    requires s.WellFormed() && AllPositive(s.values)
    ensures AbsSeries(s) == s
  {
    assert AbsSeries(s).values == s.values;
  }

  // ---------------------------------------------------------------- comparisons

  /** The operators whose result is a plain boolean sequence. */
  datatype CmpOp = Eq | Ne | Gt | Ge | Lt | Le

  predicate Holds(op: CmpOp, x: real, c: real)
  {
    match op
    case Eq => x == c
    case Ne => x != c
    case Gt => x > c
    case Ge => x >= c
    case Lt => x < c
    case Le => x <= c
  }

  /** `rri == c`, `rri != c`, `rri > c`, ...: one boolean per interval, never a series. */
  function Compare(s: Series, op: CmpOp, c: real): (r: seq<bool>)
    ensures |r| == |s.values|
    ensures forall i :: 0 <= i < |s.values| ==> (r[i] <==> Holds(op, s.values[i], c))
  {
    seq(|s.values|, i requires 0 <= i < |s.values| => Holds(op, s.values[i], c))
  }

  /** The operator answering the opposite question. */
  function Negation(op: CmpOp): CmpOp
  {
    match op
    case Eq => Ne
    case Ne => Eq
    case Gt => Le
    case Ge => Lt
    case Lt => Ge
    case Le => Gt
  }

  /** `==`/`!=`, `>`/`<=` and `>=`/`<` are complementary masks. */
  lemma NegationComplements(s: Series, op: CmpOp, c: real)
    ensures forall i :: 0 <= i < |s.values| ==> Compare(s, Negation(op), c)[i] == !Compare(s, op, c)[i]
  {
  }

  /**
   * `rri[rri > c]` and friends keep exactly the intervals that pass the
   * comparison, in order: every kept interval passes, and an interval that
   * passes is kept at the position given by the number of passing intervals
   * before it.
   */
  lemma MaskByComparison(s: Series, op: CmpOp, c: real)
    requires s.WellFormed()
    ensures MaskSeries(s, Compare(s, op, c)).Ok?
    ensures forall x :: x in MaskSeries(s, Compare(s, op, c)).value.values <==> x in s.values && Holds(op, x, c)
    ensures var r := MaskSeries(s, Compare(s, op, c)).value;
            forall j :: 0 <= j < |r.values| ==> Holds(op, r.values[j], c)
    ensures var m := Compare(s, op, c);
            var r := MaskSeries(s, m).value;
            forall i :: 0 <= i < |s.values| && Holds(op, s.values[i], c) ==>
              Count(m[..i]) < |r.values| && r.values[Count(m[..i])] == s.values[i] && r.time[Count(m[..i])] == s.time[i]
  {
    var m := Compare(s, op, c);
    var r := MaskSeries(s, m).value;
    forall x | x in s.values && Holds(op, x, c) ensures x in r.values {
      var i :| 0 <= i < |s.values| && s.values[i] == x;
      assert m[i];
    }
    forall i | 0 <= i < |s.values| && Holds(op, s.values[i], c)
      ensures Count(m[..i]) < |r.values| && r.values[Count(m[..i])] == s.values[i] && r.time[Count(m[..i])] == s.time[i]
    {
      NthOfSetBit(m, i);
    }
  }

  // ---------------------------------------------------------------- time operations

  /** The points stamped inside `[start, end]`. */
  function RangeMask(time: seq<real>, start: real, end: real): (m: seq<bool>)
    ensures |m| == |time|
    ensures forall i :: 0 <= i < |time| ==> (m[i] <==> start <= time[i] <= end)
  {
    seq(|time|, i requires 0 <= i < |time| => start <= time[i] <= end)
  }

  /**
   * `time_range(start, end)`: the points whose time lies in `[start, end]`,
   * both ends included, each interval beside its own time stamp, in order.
   */
  function TimeRange(s: Series, start: real, end: real): (r: Series)
    requires s.WellFormed()
    ensures r.WellFormed() && r.interpolated == s.interpolated && r.detrended == s.detrended
    ensures forall x :: x in r.time <==> x in s.time && start <= x <= end
    ensures var m := RangeMask(s.time, start, end);
            |r.values| == Count(m) &&
            forall j :: 0 <= j < |r.values| ==> r.values[j] == s.values[Nth(m, j)] && r.time[j] == s.time[Nth(m, j)]
    ensures ValidTimeAxis(s.time) ==> ValidTimeAxis(r.time)
    ensures AllPositive(s.values) ==> AllPositive(r.values)
  {
    var m := RangeMask(s.time, start, end);
    SelectKeepsInvariants(s, m);
    SelectAt(s.values, m);
    SelectAt(s.time, m);
    var r := Series(Select(s.values, m), Select(s.time, m), s.interpolated, s.detrended);
    assert forall x :: x in s.time && start <= x <= end ==> x in r.time by {
      forall x | x in s.time && start <= x <= end ensures x in r.time {
        var i :| 0 <= i < |s.time| && s.time[i] == x;
        assert m[i];
      }
    }
    r
  }

  /** `time - time[0]`; element 0 of an empty axis does not exist. */
  function ShiftedTime(t: seq<real>): (r: Result<seq<real>, Error>)
  {
    if |t| == 0 then Err(IndexOutOfRange)
    else Ok(seq(|t|, i requires 0 <= i < |t| => t[i] - t[0]))
  }

  /**
   * `reset_time()`: a new series whose axis starts at 0 and keeps every
   * distance between time stamps; the intervals and flags are unchanged.
   */
  function ResetTime(s: Series): (r: Result<Series, Error>)
    requires s.WellFormed()
    ensures r.Ok? <==> |s.time| > 0
    ensures r.Err? ==> r.error == IndexOutOfRange
    ensures r.Ok? ==> r.value.WellFormed() && r.value.values == s.values && r.value.time[0] == 0.0
    ensures r.Ok? ==> r.value.interpolated == s.interpolated && r.value.detrended == s.detrended
    ensures r.Ok? ==> forall i, j :: 0 <= i < |s.time| && 0 <= j < |s.time| ==>
                        r.value.time[j] - r.value.time[i] == s.time[j] - s.time[i]
    ensures r.Ok? && ValidTimeAxis(s.time) ==> ValidTimeAxis(r.value.time)
  {
    match ShiftedTime(s.time)
    case Err(e) => Err(e)
    case Ok(t) =>
      assert ValidTimeAxis(s.time) ==> ValidTimeAxis(t) by {
        if ValidTimeAxis(s.time) {
          assert NonNegative(t) by {
            forall i | 0 < i < |t| ensures t[i] >= 0.0 {
              assert s.time[0] < s.time[i];
            }
          }
          IncreasingNonNegativeIsValid(t);
        }
      }
      Ok(Series(s.values, t, s.interpolated, s.detrended))
  }

  /** Resetting an already reset series changes nothing. */
  lemma ResetTimeIdempotent(s: Series)
    requires s.WellFormed() && ResetTime(s).Ok?
    ensures ResetTime(ResetTime(s).value) == ResetTime(s)
  {
    var r := ResetTime(s).value;
    assert ResetTime(r).value.time == r.time;
  }
}
