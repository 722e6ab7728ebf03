/**
 * The `RRi` object: read-only intervals and flags, a time axis that only
 * `reset_time(inplace=True)` overwrites, and the operations that hand out
 * new objects. Each method is specified by the value-level function of the
 * same operation in Container or Segmenter.
 */
module Rri {
  import opened Wrappers
  import opened Sequences
  import opened Validator
  import opened Container
  import opened Segmenter

  class RRi {
    const values: seq<real>
    var time: seq<real>
    const interpolated: bool
    const detrended: bool

    /** The object's state as a value. */
    function Model(): Series
      reads this
    {
      Series(values, time, interpolated, detrended)
    }

    /**
     * What holds for every object handed out: one time stamp per interval,
     * and a valid time axis unless the series is detrended (whose derived
     * axis may run backwards).
     */
    ghost predicate Valid()
      reads this
    {
      |values| == |time| && (detrended || ValidTimeAxis(time))
    }

    constructor (s: Series)
      requires s.WellFormed()
      ensures Model() == s
    {
      values := s.values;
      time := s.time;
      interpolated := s.interpolated;
      detrended := s.detrended;
    }

    /** `RRi(values, time, interpolated)`: fails as construction fails, otherwise a valid object. */
    static method New(values: seq<real>, time: Option<seq<real>>, interpolated: bool, limit: real)
      returns (r: Result<RRi, Error>)
      ensures var c := Construct(values, time, interpolated, false, limit);
              (c.Err? ==> r == Err(c.error)) &&
              (c.Ok? ==> r.Ok? && fresh(r.value) && r.value.Model() == c.value && r.value.Valid())
    {
      var c := Construct(values, time, interpolated, false, limit);
      match c
      case Err(e) => r := Err(e);
      case Ok(s) =>
        var o := new RRi(s);
        r := Ok(o);
    }

    /** `RRiDetrended(values, time, interpolated)`: the same with `detrended` set and no interval check. */
    static method NewDetrended(values: seq<real>, time: Option<seq<real>>, interpolated: bool, limit: real)
      returns (r: Result<RRi, Error>)
      ensures var c := Construct(values, time, interpolated, true, limit);
              (c.Err? ==> r == Err(c.error)) &&
              (c.Ok? ==> r.Ok? && fresh(r.value) && r.value.Model() == c.value && r.value.Valid() &&
                         r.value.detrended && r.value.values == values)
    {
      var c := Construct(values, time, interpolated, true, limit);
      match c
      case Err(e) => r := Err(e);
      case Ok(s) =>
        var o := new RRi(s);
        r := Ok(o);
    }

    /** `rri[start:stop]`: a new object over the same run of points. */
    method Slice(start: Option<int>, stop: Option<int>) returns (r: RRi)
      requires Valid()
      ensures fresh(r) && r.Model() == SliceSeries(Model(), start, stop) && r.Valid()
    {
      r := new RRi(SliceSeries(Model(), start, stop));
    }

    /** `rri[mask]`: a new object over the masked points, or the length error. */
    method Mask(mask: seq<bool>) returns (r: Result<RRi, Error>)
      requires Valid()
      ensures var m := MaskSeries(Model(), mask);
              (m.Err? ==> r == Err(m.error)) &&
              (m.Ok? ==> r.Ok? && fresh(r.value) && r.value.Model() == m.value && r.value.Valid())
    {
      var m := MaskSeries(Model(), mask);
      match m
      case Err(e) => r := Err(e);
      case Ok(s) =>
        var o := new RRi(s);
        r := Ok(o);
    }

    /** `rri + x`, `rri - x`, `rri * x`, `rri / x`: a new object on the same time axis. */
    method Arithmetic(op: ArithOp, rhs: Operand) returns (r: RRi)
      requires Valid() && Applicable(op, |values|, rhs)
      ensures fresh(r) && r.Model() == Arith(Model(), op, rhs) && r.Valid()
    {
      r := new RRi(Arith(Model(), op, rhs));
    }

    /** `rri ** e`: a new object on the same time axis. */
    method Power(e: Exponent) returns (r: RRi)
      requires Valid() && (e.EachExp? ==> |e.ns| == |values|)
      ensures fresh(r) && r.Model() == Pow(Model(), e) && r.Valid()
    {
      r := new RRi(Pow(Model(), e));
    }

    /** `abs(rri)`: a new object on the same time axis. */
    method Abs() returns (r: RRi)
      requires Valid()
      ensures fresh(r) && r.Model() == AbsSeries(Model()) && r.Valid()
    {
      r := new RRi(AbsSeries(Model()));
    }

    /** `time_range(start, end)`: a new object over the points timed in `[start, end]`. */
    method TimeRangeOf(start: real, end: real) returns (r: RRi)
      requires Valid()
      ensures fresh(r) && r.Model() == TimeRange(Model(), start, end) && r.Valid()
    {
      r := new RRi(TimeRange(Model(), start, end));
    }

    /** `reset_time()`: a new object whose axis starts at 0; the receiver is untouched. */
    method ResetTimeCopy() returns (r: Result<RRi, Error>)
      requires Valid()
      ensures var m := ResetTime(Model());
              (m.Err? ==> r == Err(m.error)) &&
              (m.Ok? ==> r.Ok? && fresh(r.value) && r.value.Model() == m.value && r.value.Valid())
    {
      var m := ResetTime(Model());
      match m
      case Err(e) => r := Err(e);
      case Ok(s) =>
        var o := new RRi(s);
        r := Ok(o);
    }

    /**
     * `reset_time(inplace=True)`: overwrites the receiver's time axis with
     * the reset one; intervals and flags stay. An empty axis has no element
     * 0 to subtract and is reported, leaving the object as it was.
     */
    method ResetTimeInPlace() returns (e: Option<Error>)
      requires Valid()
      modifies this
      ensures e.None? <==> |old(time)| > 0
      ensures e.Some? ==> e.value == IndexOutOfRange && time == old(time)
      ensures e.None? ==> Model() == ResetTime(old(Model())).value
      ensures Valid()
    {
      var m := ResetTime(Model());
      match m
      case Err(err) => e := Some(err);
      case Ok(s) =>
        time := s.time;
        e := None;
    }

    /**
     * Appends a new object holding `s` to objects holding `models`; the
     * objects already there are kept, and the new one is shared with none
     * of them.
     */
    static method Append(segs: seq<RRi>, ghost models: seq<Series>, s: Series) returns (r: seq<RRi>)
      requires s.WellFormed() && |segs| == |models|
      requires forall j :: 0 <= j < |segs| ==> segs[j].Model() == models[j]
      ensures |r| == |models| + 1
      ensures forall j :: 0 <= j < |r| ==> r[j].Model() == (models + [s])[j]
      ensures r[..|segs|] == segs && fresh(r[|r| - 1])
      ensures (s.detrended || ValidTimeAxis(s.time)) ==> r[|r| - 1].Valid()
    {
      var o := new RRi(s);
      r := segs + [o];
    }

    /**
     * One new object per series of `models`, in order: each holds its
     * series, is valid, and is shared with no other.
     */
    static method NewObjects(models: seq<Series>) returns (objs: seq<RRi>)
      requires forall j :: 0 <= j < |models| ==>
                 models[j].WellFormed() && (models[j].detrended || ValidTimeAxis(models[j].time))
      ensures |objs| == |models|
      ensures forall j :: 0 <= j < |objs| ==> objs[j].Model() == models[j]
      ensures forall j :: 0 <= j < |objs| ==> fresh(objs[j]) && objs[j].Valid()
      ensures forall i, j :: 0 <= i < j < |objs| ==> objs[i] != objs[j]
    {
      objs := [];
      var n := 0;
      while n < |models|
        invariant 0 <= n <= |models| && |objs| == n
        invariant forall j :: 0 <= j < n ==> objs[j].Model() == models[j]
        invariant forall j :: 0 <= j < n ==> fresh(objs[j]) && objs[j].Valid()
        invariant forall i, j :: 0 <= i < j < n ==> objs[i] != objs[j]
      {
        objs := Append(objs, models[..n], models[n]);
        n := n + 1;
      }
    }

    /**
     * The window walk behind `time_split`: visits the windows one by one
     * from time zero, keeping the segment of each window, and stops at the
     * first empty window or the first segment that fails validation.
     */
    static method WalkWindows(s: Series, segSize: real, step: real, keepLast: bool, limit: real)
      returns (r: Result<seq<Series>, Error>)
      requires s.WellFormed() && 0.0 < step <= segSize
      ensures r == SplitFrom(s, segSize, step, keepLast, limit, 0)
    {
      ghost var spec := SplitFrom(s, segSize, step, keepLast, limit, 0);
      ghost var bound := Horizon(s.time, step);
      var models: seq<Series> := [];
      var k: nat := 0;
      PrependNothing(spec);
      while true
        invariant spec == Prepend(models, SplitFrom(s, segSize, step, keepLast, limit, k))
        decreases if k <= bound then bound - k else 0
      {
        SplitAdvance(s, segSize, step, keepLast, limit, spec, models, k);
        var w := WindowOutcome(s, segSize, step, keepLast, limit, k);
        match w
        case Fail(e) =>
          r := Err(e);
          break;
        case Stop =>
          r := Ok(models);
          break;
        case Emit(seg, last) =>
          models := models + [seg];
          if last {
            r := Ok(models);
            break;
          }
          k := k + 1;
      }
    }

    /**
     * The objects `time_split` hands out: the walk's segments, one new
     * valid object each, or the walk's error.
     */
    static method SplitObjects(s: Series, segSize: real, step: real, keepLast: bool, limit: real)
      returns (r: Result<seq<RRi>, Error>)
      requires s.WellFormed() && 0.0 < step <= segSize
      ensures var spec := SplitFrom(s, segSize, step, keepLast, limit, 0);
              (spec.Err? ==> r == Err(spec.error)) &&
              (spec.Ok? ==> r.Ok? && |r.value| == |spec.value| &&
                            forall j :: 0 <= j < |r.value| ==> r.value[j].Model() == spec.value[j])
      ensures r.Ok? ==> forall j :: 0 <= j < |r.value| ==> fresh(r.value[j]) && r.value[j].Valid()
      ensures r.Ok? ==> forall i, j :: 0 <= i < j < |r.value| ==> r.value[i] != r.value[j]
    {
      SplitFromSegmentsValidated(s, segSize, step, keepLast, limit, 0);
      var segs := WalkWindows(s, segSize, step, keepLast, limit);
      match segs
      case Err(e) =>
        r := Err(e);
      case Ok(models) =>
        var objs := NewObjects(models);
        r := Ok(objs);
    }

    /**
     * `time_split(seg_size, overlap, keep_last)`: one new object per
     * segment of the receiver's series, windows advancing by
     * `seg_size - overlap`.
     */
    method TimeSplit(segSize: real, overlap: real, keepLast: bool, limit: real)
      returns (r: Result<seq<RRi>, Error>)
      requires Valid() && 0.0 <= overlap < segSize
      ensures var spec := Split(Model(), segSize, overlap, keepLast, limit);
              (spec.Err? ==> r == Err(spec.error)) &&
              (spec.Ok? ==> r.Ok? && |r.value| == |spec.value| &&
                            forall j :: 0 <= j < |r.value| ==> r.value[j].Model() == spec.value[j])
      ensures r.Ok? ==> forall j :: 0 <= j < |r.value| ==> fresh(r.value[j]) && r.value[j].Valid()
      ensures r.Ok? ==> forall i, j :: 0 <= i < j < |r.value| ==> r.value[i] != r.value[j]
    {
      var s := Model();
      SplitIsSplitFrom(s, segSize, overlap, keepLast, limit);
      r := SplitObjects(s, segSize, segSize - overlap, keepLast, limit);
    }
  }
}
