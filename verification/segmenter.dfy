/**
 * `time_split(seg_size, overlap, keep_last)`: cutting a series into windows
 * of `seg_size` seconds that start every `seg_size - overlap` seconds,
 * counted from time zero. Every window is built into a new, validated RRi.
 */
module Segmenter {
  import opened Wrappers
  import opened Sequences
  import opened Validator
  import opened Container

  /**
   * Whether point `i` belongs to the window `[lo, hi)`. The last point of
   * the whole series is also taken when it lies exactly on the upper edge.
   */
  predicate InWindow(time: seq<real>, i: int, lo: real, hi: real)
    requires 0 <= i < |time|
  {
    lo <= time[i] < hi || (i == |time| - 1 && time[i] == hi)
  }

  /** The boolean mask of the points of window `[lo, hi)`. */
  function WindowMask(time: seq<real>, lo: real, hi: real): (m: seq<bool>)
    ensures |m| == |time|
    ensures forall i :: 0 <= i < |time| ==> (m[i] <==> InWindow(time, i, lo, hi))
  {
    seq(|time|, i requires 0 <= i < |time| => InWindow(time, i, lo, hi))
  }

  /** Where window `k` starts: `k * step` seconds after time zero. */
  function WindowStart(k: nat, step: real): real
  {
    k as real * step
  }

  /** One more than the last window index whose start is not past every time stamp. */
  function Horizon(time: seq<real>, step: real): nat
    requires step > 0.0
  {
    if |time| == 0 then 0
    else
      var f := (Max(time) / step).Floor;
      if f < 0 then 0 else f + 1
  }

  /** A non-negative multiple of a positive step is non-negative. */
  lemma StartNonNegative(k: nat, step: real)
    requires step > 0.0
    ensures WindowStart(k, step) >= 0.0
  {
    if k > 0 {
      ProductPositive(k as real, step);
    }
  }

  /** Every time stamp lies before the start of any window from the horizon on. */
  lemma PastHorizon(time: seq<real>, step: real, k: nat)
    requires step > 0.0 && k >= Horizon(time, step)
    ensures forall i :: 0 <= i < |time| ==> time[i] < WindowStart(k, step)
  {
    if |time| > 0 {
      var top := Max(time);
      var q := top / step;
      assert q * step == top;
      if q.Floor < 0 {
        assert q < 0.0;
        ProductPositive(-q, step);
        assert (-q) * step == -top;
        StartNonNegative(k, step);
      } else {
        assert q < k as real;
        ScaleStrict(step, q, k as real);
        assert step * q == top;
      }
    }
  }

  /** A window starting past the horizon holds no point. */
  lemma EmptyPastHorizon(time: seq<real>, step: real, segSize: real, k: nat)
    requires step > 0.0 && segSize > 0.0 && k >= Horizon(time, step)
    ensures Count(WindowMask(time, WindowStart(k, step), WindowStart(k, step) + segSize)) == 0
  {
    var lo := WindowStart(k, step);
    var m := WindowMask(time, lo, lo + segSize);
    PastHorizon(time, step, k);
    CountPositive(m);
  }

  /** The mask of window `k`. */
  function KthMask(time: seq<real>, segSize: real, step: real, k: nat): (m: seq<bool>)
    ensures |m| == |time|
  {
    WindowMask(time, WindowStart(k, step), WindowStart(k, step) + segSize)
  }

  /** Prefixing the segments already produced to a later outcome; an error stays an error. */
  function Prepend(done: seq<Series>, r: Result<seq<Series>, Error>): Result<seq<Series>, Error>
  {
    match r
    case Ok(rest) => Ok(done + rest)
    case Err(e) => Err(e)
  }

  /** What window `k` contributes: nothing more, one segment (maybe the last), or a failure. */
  datatype Outcome = Stop | Emit(seg: Series, last: bool) | Fail(error: Error)

  /**
   * `seg` is the series window `k` builds: a validated plain RRi whose time
   * stamps are the window's time stamps and whose intervals are the
   * window's intervals, validated afresh (so converted to milliseconds
   * when, within the window alone, they look like seconds).
   */
  predicate IsWindowSegment(seg: Series, s: Series, segSize: real, step: real, limit: real, k: nat)
    requires s.WellFormed()
  {
    var m := KthMask(s.time, segSize, step, k);
    Count(m) > 0 && seg.Validated() && !seg.interpolated && !seg.detrended &&
    seg.time == Select(s.time, m) && ValidateRri(Select(s.values, m), limit) == Ok(seg.values)
  }

  /**
   * Window `k` of the split. An empty window stops the split. The last
   * non-empty window (the next one being empty) is dropped when it covers
   * less than `segSize` seconds (its last point minus its start) unless
   * `keepLast` holds. A kept window becomes a plain RRi built from the
   * selected intervals and time stamps, validated like any other; that
   * validation is the only way to fail.
   */
  function WindowOutcome(s: Series, segSize: real, step: real, keepLast: bool, limit: real, k: nat)
    : (w: Outcome)
    requires s.WellFormed()
    ensures w.Emit? ==> w.seg.Validated() && !w.seg.interpolated && !w.seg.detrended
    ensures w.Emit? && !w.last ==> Count(KthMask(s.time, segSize, step, k + 1)) > 0
  {
    var m := KthMask(s.time, segSize, step, k);
    if Count(m) == 0 then Stop
    else
      var times := Select(s.time, m);
      var last := Count(KthMask(s.time, segSize, step, k + 1)) == 0;
      if last && !keepLast && times[|times| - 1] - WindowStart(k, step) < segSize then Stop
      else
        match Construct(Select(s.values, m), Some(times), false, false, limit)
        case Err(e) => Fail(e)
        case Ok(seg) => Emit(seg, last)
  }

  /**
   * What window `k` does, in full: it stops exactly when it is empty or is
   * the short last window and `keepLast` is off; what it emits is the
   * window's own segment, flagged last exactly when the next window is
   * empty; it fails only when the window's intervals are not all positive
   * or its time stamps are not a valid axis, so never for a validated
   * series.
   */
  lemma WindowOutcomeSpec(s: Series, segSize: real, step: real, keepLast: bool, limit: real, k: nat)
    requires s.WellFormed()
    ensures var w := WindowOutcome(s, segSize, step, keepLast, limit, k);
            var m := KthMask(s.time, segSize, step, k);
            (w.Stop? <==> Count(m) == 0 ||
                          (!keepLast && Count(KthMask(s.time, segSize, step, k + 1)) == 0 &&
                           Select(s.time, m)[Count(m) - 1] - WindowStart(k, step) < segSize)) &&
            (w.Emit? ==> IsWindowSegment(w.seg, s, segSize, step, limit, k)) &&
            (w.Emit? ==> (w.last <==> Count(KthMask(s.time, segSize, step, k + 1)) == 0)) &&
            (w.Fail? ==> !AllPositive(Select(s.values, m)) || !ValidTimeAxis(Select(s.time, m))) &&
            (s.Validated() ==> !w.Fail?)
  {
    SelectKeepsInvariants(s, KthMask(s.time, segSize, step, k));
  }

  /**
   * Every point of the series inside window `k = [lo, lo + segSize)` is in
   * the window's segment, at position `Count(m[..i])` (the number of window
   * points before it), with its time stamp and its interval, the latter
   * scaled by `c` (1000 or 1, the same for the whole segment).
   */
  lemma WindowPointsInSegment(seg: Series, s: Series, segSize: real, step: real, limit: real, k: nat)
    requires s.WellFormed() && IsWindowSegment(seg, s, segSize, step, limit, k)
    ensures var m := KthMask(s.time, segSize, step, k);
            var lo := WindowStart(k, step);
            var c := if InSeconds(Select(s.values, m), limit) then 1000.0 else 1.0;
            |seg.values| == |seg.time| == Count(m) &&
            forall i :: 0 <= i < |s.time| && InWindow(s.time, i, lo, lo + segSize) ==>
              Count(m[..i]) < |seg.time| &&
              seg.time[Count(m[..i])] == s.time[i] && seg.values[Count(m[..i])] == c * s.values[i]
  {
    var m := KthMask(s.time, segSize, step, k);
    var v := Select(s.values, m);
    var c := if InSeconds(v, limit) then 1000.0 else 1.0;
    assert forall p :: 0 <= p < |seg.values| ==> seg.values[p] == c * v[p];
    SelectPositions(s.values, m);
    SelectPositions(s.time, m);
  }

  /**
   * Every position `p` of the segment of window `k` holds the `p`-th point
   * of the series inside the window: its time stamp, and its interval
   * scaled by `c`. With `NthIncreasing` the order of the series is kept.
   */
  lemma SegmentPointsInWindow(seg: Series, s: Series, segSize: real, step: real, limit: real, k: nat)
    requires s.WellFormed() && IsWindowSegment(seg, s, segSize, step, limit, k)
    ensures var m := KthMask(s.time, segSize, step, k);
            var lo := WindowStart(k, step);
            var c := if InSeconds(Select(s.values, m), limit) then 1000.0 else 1.0;
            |seg.values| == |seg.time| == Count(m) &&
            forall p :: 0 <= p < |seg.time| ==>
              InWindow(s.time, Nth(m, p), lo, lo + segSize) &&
              seg.time[p] == s.time[Nth(m, p)] && seg.values[p] == c * s.values[Nth(m, p)]
  {
    var m := KthMask(s.time, segSize, step, k);
    var v := Select(s.values, m);
    var c := if InSeconds(v, limit) then 1000.0 else 1.0;
    assert forall p :: 0 <= p < |seg.values| ==> seg.values[p] == c * v[p];
    SelectAt(s.values, m);
    SelectAt(s.time, m);
  }

  /** Prefixing nothing changes nothing. */
  lemma PrependNothing(r: Result<seq<Series>, Error>)
    ensures Prepend([], r) == r
  {
    if r.Ok? {
      assert [] + r.value == r.value;
    }
  }

  /** Prefixing twice is prefixing the concatenation. */
  lemma PrependTwice(a: seq<Series>, b: seq<Series>, r: Result<seq<Series>, Error>)
    ensures Prepend(a, Prepend(b, r)) == Prepend(a + b, r)
  {
    if r.Ok? {
      assert a + (b + r.value) == (a + b) + r.value;
    }
  }

  /** The segments from window `k` on; the first window that fails validation fails the split. */
  function SplitFrom(s: Series, segSize: real, step: real, keepLast: bool, limit: real, k: nat)
    : (r: Result<seq<Series>, Error>)
    requires s.WellFormed() && 0.0 < step <= segSize
    decreases if k <= Horizon(s.time, step) then Horizon(s.time, step) - k else 0
  {
    match WindowOutcome(s, segSize, step, keepLast, limit, k)
    case Stop => Ok([])
    case Fail(e) => Err(e)
    case Emit(seg, last) =>
      if last then Ok([seg])
      else
        assert k + 1 < Horizon(s.time, step) by {
          if k + 1 >= Horizon(s.time, step) {
            EmptyPastHorizon(s.time, step, segSize, k + 1);
          }
        }
        Prepend([seg], SplitFrom(s, segSize, step, keepLast, limit, k + 1))
  }


  /** What window `k` makes of the split from `k` on. */
  lemma SplitFromUnfold(s: Series, segSize: real, step: real, keepLast: bool, limit: real, k: nat)
    requires s.WellFormed() && 0.0 < step <= segSize
    ensures var w := WindowOutcome(s, segSize, step, keepLast, limit, k);
            var r := SplitFrom(s, segSize, step, keepLast, limit, k);
            (w.Stop? ==> r == Ok([])) &&
            (w.Fail? ==> r == Err(w.error)) &&
            (w.Emit? && w.last ==> r == Ok([w.seg])) &&
            (w.Emit? && !w.last ==>
               k + 1 < Horizon(s.time, step) &&
               r == Prepend([w.seg], SplitFrom(s, segSize, step, keepLast, limit, k + 1)))
  {
    if k + 1 >= Horizon(s.time, step) {
      EmptyPastHorizon(s.time, step, segSize, k + 1);
    }
  }

  /**
   * Walking the windows: once the segments before window `k` are known to
   * be `done`, window `k` either settles the whole outcome `spec` or adds
   * its segment and hands on to window `k + 1`, which exists.
   */
  lemma SplitAdvance(s: Series, segSize: real, step: real, keepLast: bool, limit: real,
                     spec: Result<seq<Series>, Error>, done: seq<Series>, k: nat)
    requires s.WellFormed() && 0.0 < step <= segSize
    requires spec == Prepend(done, SplitFrom(s, segSize, step, keepLast, limit, k))
    ensures var w := WindowOutcome(s, segSize, step, keepLast, limit, k);
            (w.Stop? ==> spec == Ok(done)) &&
            (w.Fail? ==> spec == Err(w.error)) &&
            (w.Emit? && w.last ==> spec == Ok(done + [w.seg])) &&
            (w.Emit? && !w.last ==>
               k + 1 < Horizon(s.time, step) &&
               spec == Prepend(done + [w.seg], SplitFrom(s, segSize, step, keepLast, limit, k + 1)))
  {
    var w := WindowOutcome(s, segSize, step, keepLast, limit, k);
    SplitFromUnfold(s, segSize, step, keepLast, limit, k);
    if w.Stop? {
      assert done + [] == done;
    } else if w.Emit? && !w.last {
      PrependTwice(done, [w.seg], SplitFrom(s, segSize, step, keepLast, limit, k + 1));
    }
  }

  /** An empty window stops the split. */
  lemma EmptyWindowStops(s: Series, segSize: real, step: real, keepLast: bool, limit: real, k: nat)
    requires s.WellFormed() && Count(KthMask(s.time, segSize, step, k)) == 0
    ensures WindowOutcome(s, segSize, step, keepLast, limit, k).Stop?
  {
  }

  /** Segment `i - k` of `segs` is the one window `i` emits, for each window `i` from `k` on that `segs` covers. */
  predicate AllWindows(segs: seq<Series>, s: Series, segSize: real, step: real, keepLast: bool, limit: real, k: nat)
    requires s.WellFormed()
  {
    forall i: nat :: k <= i < k + |segs| ==>
      WindowOutcome(s, segSize, step, keepLast, limit, i).Emit? &&
      WindowOutcome(s, segSize, step, keepLast, limit, i).seg == segs[i - k]
  }

  /** Putting the segment window `k` emits in front of the segments of windows `k + 1` on. */
  lemma ConsWindows(seg: Series, rest: seq<Series>, s: Series, segSize: real, step: real, keepLast: bool,
                    limit: real, k: nat)
    requires s.WellFormed()
    requires WindowOutcome(s, segSize, step, keepLast, limit, k).Emit?
    requires WindowOutcome(s, segSize, step, keepLast, limit, k).seg == seg
    requires AllWindows(rest, s, segSize, step, keepLast, limit, k + 1)
    ensures AllWindows([seg] + rest, s, segSize, step, keepLast, limit, k)
  {
    var segs := [seg] + rest;
    forall i: nat | k < i < k + |segs|
      ensures WindowOutcome(s, segSize, step, keepLast, limit, i).Emit?
      ensures WindowOutcome(s, segSize, step, keepLast, limit, i).seg == segs[i - k]
    {
      assert segs[i - k] == rest[i - (k + 1)];
    }
  }

  /**
   * The split from window `k` on is exactly the windows' own segments:
   * segment `j` is what window `k + j` emits.
   */
  lemma {:induction false} SplitFromWindows(s: Series, segSize: real, step: real, keepLast: bool, limit: real, k: nat)
    requires s.WellFormed() && 0.0 < step <= segSize
    ensures var r := SplitFrom(s, segSize, step, keepLast, limit, k);
            r.Ok? ==> AllWindows(r.value, s, segSize, step, keepLast, limit, k)
    decreases if k <= Horizon(s.time, step) then Horizon(s.time, step) - k else 0
  {
    var w := WindowOutcome(s, segSize, step, keepLast, limit, k);
    SplitFromUnfold(s, segSize, step, keepLast, limit, k);
    if w.Emit? && w.last {
      ConsWindows(w.seg, [], s, segSize, step, keepLast, limit, k);
      assert [w.seg] + [] == [w.seg];
    } else if w.Emit? {
      SplitFromWindows(s, segSize, step, keepLast, limit, k + 1);
      var rest := SplitFrom(s, segSize, step, keepLast, limit, k + 1);
      if rest.Ok? {
        ConsWindows(w.seg, rest.value, s, segSize, step, keepLast, limit, k);
      }
    }
  }

  /** Window `n`, the one right after the last segment of the split from window `k` on, stops. */
  lemma {:induction false} SplitFromEnds(s: Series, segSize: real, step: real, keepLast: bool, limit: real,
                                         k: nat, n: nat)
    requires s.WellFormed() && 0.0 < step <= segSize
    requires SplitFrom(s, segSize, step, keepLast, limit, k).Ok?
    requires n == k + |SplitFrom(s, segSize, step, keepLast, limit, k).value|
    ensures WindowOutcome(s, segSize, step, keepLast, limit, n).Stop?
    decreases if k <= Horizon(s.time, step) then Horizon(s.time, step) - k else 0
  {
    var w := WindowOutcome(s, segSize, step, keepLast, limit, k);
    SplitFromUnfold(s, segSize, step, keepLast, limit, k);
    if w.Emit? && w.last {
      EmptyWindowStops(s, segSize, step, keepLast, limit, n);
    } else if w.Emit? {
      SplitFromEnds(s, segSize, step, keepLast, limit, k + 1, n);
    }
  }

  /** Windows `k` up to, but not including, `j` each emit a segment that is not the last one. */
  predicate EmitsBefore(s: Series, segSize: real, step: real, keepLast: bool, limit: real, k: nat, j: nat)
    requires s.WellFormed()
  {
    forall i: nat :: k <= i < j ==>
      WindowOutcome(s, segSize, step, keepLast, limit, i).Emit? &&
      !WindowOutcome(s, segSize, step, keepLast, limit, i).last
  }

  /**
   * A failing split from window `k` on reports the failure of the first
   * window that does not emit a segment and hand on to the next: every
   * window before it emitted one.
   */
  lemma {:induction false} SplitFromFails(s: Series, segSize: real, step: real, keepLast: bool, limit: real, k: nat)
    requires s.WellFormed() && 0.0 < step <= segSize
    requires SplitFrom(s, segSize, step, keepLast, limit, k).Err?
    ensures exists j: nat :: k <= j && EmitsBefore(s, segSize, step, keepLast, limit, k, j) &&
              WindowOutcome(s, segSize, step, keepLast, limit, j) ==
              Fail(SplitFrom(s, segSize, step, keepLast, limit, k).error)
    decreases if k <= Horizon(s.time, step) then Horizon(s.time, step) - k else 0
  {
    var w := WindowOutcome(s, segSize, step, keepLast, limit, k);
    var e := SplitFrom(s, segSize, step, keepLast, limit, k).error;
    SplitFromUnfold(s, segSize, step, keepLast, limit, k);
    if w.Fail? {
      assert EmitsBefore(s, segSize, step, keepLast, limit, k, k);
      assert WindowOutcome(s, segSize, step, keepLast, limit, k) == Fail(e);
    } else {
      assert w.Emit? && !w.last;
      assert SplitFrom(s, segSize, step, keepLast, limit, k + 1) == Err(e);
      SplitFromFails(s, segSize, step, keepLast, limit, k + 1);
      var j: nat :| k + 1 <= j && EmitsBefore(s, segSize, step, keepLast, limit, k + 1, j) &&
                    WindowOutcome(s, segSize, step, keepLast, limit, j) == Fail(e);
      assert EmitsBefore(s, segSize, step, keepLast, limit, k, j);
    }
  }

  /** Every segment of a split is a validated plain RRi. */
  lemma SplitFromSegmentsValidated(s: Series, segSize: real, step: real, keepLast: bool, limit: real, k: nat)
    requires s.WellFormed() && 0.0 < step <= segSize
    ensures var r := SplitFrom(s, segSize, step, keepLast, limit, k);
            r.Ok? ==> forall j :: 0 <= j < |r.value| ==> r.value[j].Validated() && !r.value[j].detrended
  {
    var r := SplitFrom(s, segSize, step, keepLast, limit, k);
    if r.Ok? {
      SplitFromWindows(s, segSize, step, keepLast, limit, k);
      forall j | 0 <= j < |r.value|
        ensures r.value[j].Validated() && !r.value[j].detrended
      {
        assert WindowOutcome(s, segSize, step, keepLast, limit, k + j).seg == r.value[j];
      }
    }
  }

  /** A validated series splits without error from any window on. */
  lemma {:induction false} SplitFromValidated(s: Series, segSize: real, step: real, keepLast: bool, limit: real, k: nat)
    requires s.Validated() && 0.0 < step <= segSize
    ensures SplitFrom(s, segSize, step, keepLast, limit, k).Ok?
    decreases if k <= Horizon(s.time, step) then Horizon(s.time, step) - k else 0
  {
    var w := WindowOutcome(s, segSize, step, keepLast, limit, k);
    SplitFromUnfold(s, segSize, step, keepLast, limit, k);
    WindowOutcomeSpec(s, segSize, step, keepLast, limit, k);
    if w.Emit? && !w.last {
      SplitFromValidated(s, segSize, step, keepLast, limit, k + 1);
    }
  }

  /**
   * The split from window 0 on: its segments are the windows' own, in
   * order, the window after the last one stops, a failure is that of the
   * first window that does not hand on, and a validated series never
   * fails.
   */
  lemma SplitFromStart(s: Series, segSize: real, step: real, keepLast: bool, limit: real)
    requires s.WellFormed() && 0.0 < step <= segSize
    ensures var r := SplitFrom(s, segSize, step, keepLast, limit, 0);
            (r.Ok? ==> AllWindows(r.value, s, segSize, step, keepLast, limit, 0) &&
                       WindowOutcome(s, segSize, step, keepLast, limit, |r.value|).Stop?) &&
            (s.Validated() ==> r.Ok?)
    ensures var r := SplitFrom(s, segSize, step, keepLast, limit, 0);
            r.Err? ==> exists j: nat :: EmitsBefore(s, segSize, step, keepLast, limit, 0, j) &&
                                        WindowOutcome(s, segSize, step, keepLast, limit, j) == Fail(r.error)
  {
    var r := SplitFrom(s, segSize, step, keepLast, limit, 0);
    if r.Ok? {
      SplitFromWindows(s, segSize, step, keepLast, limit, 0);
      SplitFromEnds(s, segSize, step, keepLast, limit, 0, |r.value|);
    } else {
      SplitFromFails(s, segSize, step, keepLast, limit, 0);
    }
    if s.Validated() {
      SplitFromValidated(s, segSize, step, keepLast, limit, 0);
    }
  }

  /**
   * With windows of `segSize` seconds sharing `overlap` seconds, windows 0
   * up to `j` each emit a segment and hand on, and window `j` fails with `e`.
   */
  predicate FailsFirstAt(s: Series, segSize: real, overlap: real, keepLast: bool, limit: real, j: nat, e: Error)
    requires s.WellFormed()
  {
    EmitsBefore(s, segSize, segSize - overlap, keepLast, limit, 0, j) &&
    WindowOutcome(s, segSize, segSize - overlap, keepLast, limit, j) == Fail(e)
  }

  /**
   * With windows of `segSize` seconds sharing `overlap` seconds, segment
   * `j` of `segs` is the one window `j` emits, and the window after the
   * last segment stops.
   */
  ghost predicate SplitsInto(s: Series, segSize: real, overlap: real, keepLast: bool, limit: real, segs: seq<Series>)
    requires s.WellFormed()
  {
    AllWindows(segs, s, segSize, segSize - overlap, keepLast, limit, 0) &&
    WindowOutcome(s, segSize, segSize - overlap, keepLast, limit, |segs|).Stop?
  }

  /** Some window `j` fails with `e`, and every window before it emits a segment and hands on. */
  ghost predicate SplitFailsWith(s: Series, segSize: real, overlap: real, keepLast: bool, limit: real, e: Error)
    requires s.WellFormed()
  {
    exists j: nat :: FailsFirstAt(s, segSize, overlap, keepLast, limit, j, e)
  }

  /**
   * `time_split`: windows of `segSize` seconds, consecutive ones sharing
   * `overlap` seconds. Segment `j` is the RRi built from window `j`, which
   * starts `j * (segSize - overlap)` seconds after time zero; the first
   * window that stops ends the list; the split fails with the error of
   * the first window reached that fails validation; a validated series
   * always splits.
   */
  function Split(s: Series, segSize: real, overlap: real, keepLast: bool, limit: real)
    : (r: Result<seq<Series>, Error>)
    requires s.WellFormed() && 0.0 <= overlap < segSize
    ensures r.Ok? ==> SplitsInto(s, segSize, overlap, keepLast, limit, r.value)
    ensures s.Validated() ==> r.Ok?
    ensures r.Err? ==> SplitFailsWith(s, segSize, overlap, keepLast, limit, r.error)
  {
    SplitFromStart(s, segSize, segSize - overlap, keepLast, limit);
    var r := SplitFrom(s, segSize, segSize - overlap, keepLast, limit, 0);
    assert r.Ok? ==> SplitsInto(s, segSize, overlap, keepLast, limit, r.value);
    assert r.Err? ==> SplitFailsWith(s, segSize, overlap, keepLast, limit, r.error) by {
      if r.Err? {
        var j: nat :| EmitsBefore(s, segSize, segSize - overlap, keepLast, limit, 0, j) &&
                      WindowOutcome(s, segSize, segSize - overlap, keepLast, limit, j) == Fail(r.error);
        assert FailsFirstAt(s, segSize, overlap, keepLast, limit, j, r.error);
      }
    }
    r
  }

  /** `time_split` is the split from window 0 on, windows advancing by `segSize - overlap`. */
  lemma SplitIsSplitFrom(s: Series, segSize: real, overlap: real, keepLast: bool, limit: real)
    requires s.WellFormed() && 0.0 <= overlap < segSize
    ensures Split(s, segSize, overlap, keepLast, limit) == SplitFrom(s, segSize, segSize - overlap, keepLast, limit, 0)
  {
  }

  /**
   * Segment `j` of `time_split` is the segment of window `j`: its time
   * stamps and intervals are that window's (see `WindowPointsInSegment` and
   * `SegmentPointsInWindow` for the point-by-point reading).
   */
  lemma SplitSegmentIsWindow(s: Series, segSize: real, overlap: real, keepLast: bool, limit: real, j: nat)
    requires s.WellFormed() && 0.0 <= overlap < segSize
    requires Split(s, segSize, overlap, keepLast, limit).Ok?
    requires j < |Split(s, segSize, overlap, keepLast, limit).value|
    ensures IsWindowSegment(Split(s, segSize, overlap, keepLast, limit).value[j], s, segSize, segSize - overlap, limit, j)
  {
    var step := segSize - overlap;
    assert Split(s, segSize, overlap, keepLast, limit).value[j] == WindowOutcome(s, segSize, step, keepLast, limit, j).seg;
    WindowOutcomeSpec(s, segSize, step, keepLast, limit, j);
  }

  /**
   * `keep_last` only ever adds the short trailing segment: when the split
   * that keeps it succeeds, the one that drops it succeeds too and is the
   * same list, or the same list without its last segment.
   */
  lemma {:induction false} KeepLastAddsAtMostOne(s: Series, segSize: real, step: real, limit: real, k: nat)
    requires s.WellFormed() && 0.0 < step <= segSize
    requires SplitFrom(s, segSize, step, true, limit, k).Ok?
    ensures var kept := SplitFrom(s, segSize, step, true, limit, k).value;
            var dropped := SplitFrom(s, segSize, step, false, limit, k);
            dropped.Ok? &&
            (dropped.value == kept || (|kept| > 0 && dropped.value == kept[..|kept| - 1]))
    decreases if k <= Horizon(s.time, step) then Horizon(s.time, step) - k else 0
  {
    var w := WindowOutcome(s, segSize, step, true, limit, k);
    KeepLastOnlyTouchesLast(s, segSize, step, limit, k);
    SplitFromUnfold(s, segSize, step, true, limit, k);
    SplitFromUnfold(s, segSize, step, false, limit, k);
    if w.Emit? && !w.last {
      KeepLastAddsAtMostOne(s, segSize, step, limit, k + 1);
      var kept := SplitFrom(s, segSize, step, true, limit, k + 1).value;
      var dropped := SplitFrom(s, segSize, step, false, limit, k + 1).value;
      if dropped != kept {
        assert ([w.seg] + kept)[..|kept|] == [w.seg] + kept[..|kept| - 1];
      }
    }
  }

  /**
   * `keepLast` only matters for the last non-empty window: without it that
   * window stops the split instead of being built.
   */
  lemma KeepLastOnlyTouchesLast(s: Series, segSize: real, step: real, limit: real, k: nat)
    requires s.WellFormed()
    ensures var w := WindowOutcome(s, segSize, step, true, limit, k);
            var v := WindowOutcome(s, segSize, step, false, limit, k);
            v == w || (v.Stop? && (w.Fail? || (w.Emit? && w.last)))
  {
    var m := KthMask(s.time, segSize, step, k);
    if Count(m) > 0 {
      var times := Select(s.time, m);
      var c := Construct(Select(s.values, m), Some(times), false, false, limit);
      var last := Count(KthMask(s.time, segSize, step, k + 1)) == 0;
      var w := WindowOutcome(s, segSize, step, true, limit, k);
      assert w == (if c.Err? then Fail(c.error) else Emit(c.value, last));
    }
  }
}
