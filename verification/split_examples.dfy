/**
 * The two `time_split` cases of the repository's test-suite, window by
 * window. Each case is proved in two layers: what each window of the
 * concrete series yields, and how the split chains those outcomes, stated
 * for any series with the same window outcomes.
 */
module SplitExamples {
  import opened Wrappers
  import opened Sequences
  import opened Validator
  import opened Container
  import opened Segmenter
  import opened Examples

  // ------------------------------------------ chaining window outcomes

  /**
   * A kept window `k` that is not the last goes in front of the segments
   * from window `next = k + 1` on.
   */
  lemma EmitThen(s: Series, segSize: real, step: real, keepLast: bool, limit: real, k: nat, next: nat,
                 seg: Series, rest: seq<Series>)
    requires next == k + 1
    requires s.WellFormed() && 0.0 < step <= segSize
    requires WindowOutcome(s, segSize, step, keepLast, limit, k) == Emit(seg, false)
    requires SplitFrom(s, segSize, step, keepLast, limit, next) == Ok(rest)
    ensures SplitFrom(s, segSize, step, keepLast, limit, k) == Ok([seg] + rest)
  {
    SplitFromUnfold(s, segSize, step, keepLast, limit, k);
  }

  /** A kept last window is the last segment. */
  lemma EndsWith(s: Series, segSize: real, step: real, keepLast: bool, limit: real, k: nat)
    requires s.WellFormed() && 0.0 < step <= segSize
    requires WindowOutcome(s, segSize, step, keepLast, limit, k).Emit?
    requires WindowOutcome(s, segSize, step, keepLast, limit, k).last
    ensures SplitFrom(s, segSize, step, keepLast, limit, k) ==
            Ok([WindowOutcome(s, segSize, step, keepLast, limit, k).seg])
  {
    SplitFromUnfold(s, segSize, step, keepLast, limit, k);
  }

  /** A window that stops the split adds nothing. */
  lemma StopsAt(s: Series, segSize: real, step: real, keepLast: bool, limit: real, k: nat)
    requires s.WellFormed() && 0.0 < step <= segSize
    requires WindowOutcome(s, segSize, step, keepLast, limit, k).Stop?
    ensures SplitFrom(s, segSize, step, keepLast, limit, k) == Ok([])
  {
    SplitFromUnfold(s, segSize, step, keepLast, limit, k);
  }

  /**
   * Two kept windows `k` and `k1 = k + 1` that are not the last go in front
   * of the segments from `k2 = k + 2` on. The successor indices are
   * parameters so that callers name them as literals.
   */
  lemma EmitTwice(s: Series, segSize: real, step: real, keepLast: bool, limit: real, k: nat, k1: nat, k2: nat,
                  a: Series, b: Series, tail: seq<Series>)
    requires k1 == k + 1 && k2 == k + 2
    requires s.WellFormed() && 0.0 < step <= segSize
    requires WindowOutcome(s, segSize, step, keepLast, limit, k) == Emit(a, false)
    requires WindowOutcome(s, segSize, step, keepLast, limit, k1) == Emit(b, false)
    requires SplitFrom(s, segSize, step, keepLast, limit, k2) == Ok(tail)
    ensures SplitFrom(s, segSize, step, keepLast, limit, k) == Ok([a, b] + tail)
  {
    assert SplitFrom(s, segSize, step, keepLast, limit, k1) == Ok([b] + tail) by {
      EmitThen(s, segSize, step, keepLast, limit, k1, k2, b, tail);
    }
    EmitThen(s, segSize, step, keepLast, limit, k, k1, a, [b] + tail);
    assert [a] + ([b] + tail) == [a, b] + tail;
  }

  /**
   * Window `k` emits `seg` once its mask `m` and the next window's mask
   * `m1` are known: the selected beats build `seg`, and the window is not
   * the short last one being dropped.
   */
  lemma EmitsWhen(s: Series, segSize: real, step: real, keepLast: bool, limit: real, k: nat, k1: nat,
                  m: seq<bool>, m1: seq<bool>, values: seq<real>, times: seq<real>, seg: Series, last: bool)
    requires k1 == k + 1 && s.WellFormed()
    requires KthMask(s.time, segSize, step, k) == m && KthMask(s.time, segSize, step, k1) == m1
    requires Count(m) > 0 && last == (Count(m1) == 0)
    requires Select(s.values, m) == values && Select(s.time, m) == times
    requires !(last && !keepLast && times[|times| - 1] - WindowStart(k, step) < segSize)
    requires Construct(values, Some(times), false, false, limit) == Ok(seg)
    ensures WindowOutcome(s, segSize, step, keepLast, limit, k) == Emit(seg, last)
  {
  }

  /** A plain RRi built from one beat in milliseconds. */
  lemma BuildOne(a: real, t: real, limit: real)
    requires TestedLimit(limit) && a > limit && 0.0 <= t
    ensures Construct([a], Some([t]), false, false, limit) == Ok(Series([a], [t], false, false))
  {
    assert Max([a]) > limit;
    assert ValidTimeAxis([t]);
  }

  /** A plain RRi built from two beats in milliseconds on an increasing axis. */
  lemma BuildTwo(a: real, b: real, s: real, t: real, limit: real)
    requires TestedLimit(limit) && a > limit && b > limit && 0.0 <= s < t
    ensures Construct([a, b], Some([s, t]), false, false, limit) == Ok(Series([a, b], [s, t], false, false))
  {
    assert Max([a, b]) > limit;
    assert ValidTimeAxis([s, t]);
  }

  // ------------------------------------------ ten-second windows, no overlap

  const Series1: Series := Series([800.0, 810.0, 790.0, 795.0], [1.0, 5.0, 10.0, 20.0], false, false)

  /** `RRi([800, 810, 790, 795], time=[1, 5, 10, 20])` is a valid plain RRi. */
  lemma SeriesOneBuilds(limit: real)
    requires TestedLimit(limit)
    ensures Construct(Series1.values, Some(Series1.time), false, false, limit) == Ok(Series1)
  {
    assert Series1.values[0] > limit;
    DiffsPositiveIffIncreasing(Series1.time);
    IncreasingNonNegativeIsValid(Series1.time);
  }

  /**
   * The windows `[0, 10)`, `[10, 20]` (20 s being the last time stamp),
   * `[20, 30)` and `[30, 40)` of `Series1`.
   */
  lemma MasksOne(s: Series)
    requires s == Series1
    ensures KthMask(s.time, 10.0, 10.0, 0) == [true, true, false, false]
    ensures KthMask(s.time, 10.0, 10.0, 1) == [false, false, true, true]
    ensures KthMask(s.time, 10.0, 10.0, 2) == [false, false, false, true]
    ensures KthMask(s.time, 10.0, 10.0, 3) == [false, false, false, false]
  {
  }

  /** Window 0 holds the first two beats and is not the last non-empty window. */
  lemma SplitOneWindow0(s: Series, limit: real)
    requires TestedLimit(limit) && s == Series1
    ensures WindowOutcome(s, 10.0, 10.0, false, limit, 0) ==
            Emit(Series([800.0, 810.0], [1.0, 5.0], false, false), false)
  {
    MasksOne(s);
    assert Count([true, true, false, false]) == 2;
    assert Count([false, false, true, true]) == 2;
    assert Select([800.0, 810.0, 790.0, 795.0], [true, true, false, false]) == [800.0, 810.0];
    assert Select([1.0, 5.0, 10.0, 20.0], [true, true, false, false]) == [1.0, 5.0];
    BuildTwo(800.0, 810.0, 1.0, 5.0, limit);
    EmitsWhen(s, 10.0, 10.0, false, limit, 0, 1, [true, true, false, false], [false, false, true, true],
              [800.0, 810.0], [1.0, 5.0], Series([800.0, 810.0], [1.0, 5.0], false, false), false);
  }

  /** Window 1 takes the beat at 20 s, the last one, on its closing edge. */
  lemma SplitOneWindow1(s: Series, limit: real)
    requires TestedLimit(limit) && s == Series1
    ensures WindowOutcome(s, 10.0, 10.0, false, limit, 1) ==
            Emit(Series([790.0, 795.0], [10.0, 20.0], false, false), false)
  {
    MasksOne(s);
    assert Count([false, false, true, true]) == 2;
    assert Count([false, false, false, true]) == 1;
    assert Select([800.0, 810.0, 790.0, 795.0], [false, false, true, true]) == [790.0, 795.0];
    assert Select([1.0, 5.0, 10.0, 20.0], [false, false, true, true]) == [10.0, 20.0];
    BuildTwo(790.0, 795.0, 10.0, 20.0, limit);
    EmitsWhen(s, 10.0, 10.0, false, limit, 1, 2, [false, false, true, true], [false, false, false, true],
              [790.0, 795.0], [10.0, 20.0], Series([790.0, 795.0], [10.0, 20.0], false, false), false);
  }

  /** Window 2 holds only the beat at its start, is the last non-empty one, and is dropped as too short. */
  lemma SplitOneWindow2(s: Series, limit: real)
    requires TestedLimit(limit) && s == Series1
    ensures WindowOutcome(s, 10.0, 10.0, false, limit, 2) == Stop
  {
    MasksOne(s);
    assert Count([false, false, false, true]) == 1;
    assert Count([false, false, false, false]) == 0;
    assert Select([1.0, 5.0, 10.0, 20.0], [false, false, false, true]) == [20.0];
    assert WindowStart(2, 10.0) == 20.0;
  }

  /** The split of any series whose windows 0 to 2 are those of `Series1`. */
  lemma SplitOneChain(s: Series, limit: real)
    requires s.WellFormed()
    requires WindowOutcome(s, 10.0, 10.0, false, limit, 0) ==
             Emit(Series([800.0, 810.0], [1.0, 5.0], false, false), false)
    requires WindowOutcome(s, 10.0, 10.0, false, limit, 1) ==
             Emit(Series([790.0, 795.0], [10.0, 20.0], false, false), false)
    requires WindowOutcome(s, 10.0, 10.0, false, limit, 2) == Stop
    ensures SplitFrom(s, 10.0, 10.0, false, limit, 0) ==
            Ok([Series([800.0, 810.0], [1.0, 5.0], false, false),
                Series([790.0, 795.0], [10.0, 20.0], false, false)])
  {
    var a := Series([800.0, 810.0], [1.0, 5.0], false, false);
    var b := Series([790.0, 795.0], [10.0, 20.0], false, false);
    StopsAt(s, 10.0, 10.0, false, limit, 2);
    EmitTwice(s, 10.0, 10.0, false, limit, 0, 1, 2, a, b, []);
    assert [a, b] + [] == [a, b];
  }

  /** `Series1` split window by window. */
  lemma SplitOneWindows(s: Series, limit: real)
    requires TestedLimit(limit) && s == Series1
    ensures SplitFrom(s, 10.0, 10.0, false, limit, 0) ==
            Ok([Series([800.0, 810.0], [1.0, 5.0], false, false),
                Series([790.0, 795.0], [10.0, 20.0], false, false)])
  {
    SplitOneWindow0(s, limit);
    SplitOneWindow1(s, limit);
    SplitOneWindow2(s, limit);
    SplitOneChain(s, limit);
  }

  /** `RRi([800, 810, 790, 795], time=[1, 5, 10, 20]).time_split(10, 0)`. */
  lemma SplitOneExample(limit: real)
    requires TestedLimit(limit)
    ensures Split(Series1, 10.0, 0.0, false, limit) ==
            Ok([Series([800.0, 810.0], [1.0, 5.0], false, false),
                Series([790.0, 795.0], [10.0, 20.0], false, false)])
  {
    SplitOneWindows(Series1, limit);
  }

  // ------------------------------------------ five-second windows, short last window

  const Series2: Series := Series([800.0, 810.0, 790.0, 795.0, 801.0], [1.0, 4.9, 5.1, 9.9, 12.0], false, false)

  /** `RRi([800, 810, 790, 795, 801], time=[1, 4.9, 5.1, 9.9, 12])` is a valid plain RRi. */
  lemma SeriesTwoBuilds(limit: real)
    requires TestedLimit(limit)
    ensures Construct(Series2.values, Some(Series2.time), false, false, limit) == Ok(Series2)
  {
    assert Series2.values[0] > limit;
    DiffsPositiveIffIncreasing(Series2.time);
    IncreasingNonNegativeIsValid(Series2.time);
  }

  /** The windows `[0, 5)`, `[5, 10)`, `[10, 15)` and `[15, 20)` of `Series2`. */
  lemma MasksTwo(s: Series)
    requires s == Series2
    ensures KthMask(s.time, 5.0, 5.0, 0) == [true, true, false, false, false]
    ensures KthMask(s.time, 5.0, 5.0, 1) == [false, false, true, true, false]
    ensures KthMask(s.time, 5.0, 5.0, 2) == [false, false, false, false, true]
    ensures KthMask(s.time, 5.0, 5.0, 3) == [false, false, false, false, false]
  {
  }

  /** Window 0 holds the beats at 1 s and 4.9 s. */
  lemma SplitTwoWindow0(s: Series, keepLast: bool, limit: real)
    requires TestedLimit(limit) && s == Series2
    ensures WindowOutcome(s, 5.0, 5.0, keepLast, limit, 0) ==
            Emit(Series([800.0, 810.0], [1.0, 4.9], false, false), false)
  {
    MasksTwo(s);
    assert Count([true, true, false, false, false]) == 2;
    assert Count([false, false, true, true, false]) == 2;
    assert Select([800.0, 810.0, 790.0, 795.0, 801.0], [true, true, false, false, false]) == [800.0, 810.0];
    assert Select([1.0, 4.9, 5.1, 9.9, 12.0], [true, true, false, false, false]) == [1.0, 4.9];
    BuildTwo(800.0, 810.0, 1.0, 4.9, limit);
    EmitsWhen(s, 5.0, 5.0, keepLast, limit, 0, 1, [true, true, false, false, false], [false, false, true, true, false],
              [800.0, 810.0], [1.0, 4.9], Series([800.0, 810.0], [1.0, 4.9], false, false), false);
  }

  /** Window 1 holds the beats at 5.1 s and 9.9 s. */
  lemma SplitTwoWindow1(s: Series, keepLast: bool, limit: real)
    requires TestedLimit(limit) && s == Series2
    ensures WindowOutcome(s, 5.0, 5.0, keepLast, limit, 1) ==
            Emit(Series([790.0, 795.0], [5.1, 9.9], false, false), false)
  {
    MasksTwo(s);
    assert Count([false, false, true, true, false]) == 2;
    assert Count([false, false, false, false, true]) == 1;
    assert Select([800.0, 810.0, 790.0, 795.0, 801.0], [false, false, true, true, false]) == [790.0, 795.0];
    assert Select([1.0, 4.9, 5.1, 9.9, 12.0], [false, false, true, true, false]) == [5.1, 9.9];
    BuildTwo(790.0, 795.0, 5.1, 9.9, limit);
    EmitsWhen(s, 5.0, 5.0, keepLast, limit, 1, 2, [false, false, true, true, false], [false, false, false, false, true],
              [790.0, 795.0], [5.1, 9.9], Series([790.0, 795.0], [5.1, 9.9], false, false), false);
  }

  /**
   * Window 2 holds only the beat at 12 s and is the last non-empty one;
   * it covers 2 s of its 5, so it is kept only under `keepLast`.
   */
  lemma SplitTwoWindow2(s: Series, keepLast: bool, limit: real)
    requires TestedLimit(limit) && s == Series2
    ensures WindowOutcome(s, 5.0, 5.0, keepLast, limit, 2) ==
            if keepLast then Emit(Series([801.0], [12.0], false, false), true) else Stop
  {
    MasksTwo(s);
    assert Count([false, false, false, false, true]) == 1;
    assert Count([false, false, false, false, false]) == 0;
    assert Select([800.0, 810.0, 790.0, 795.0, 801.0], [false, false, false, false, true]) == [801.0];
    assert Select([1.0, 4.9, 5.1, 9.9, 12.0], [false, false, false, false, true]) == [12.0];
    assert WindowStart(2, 5.0) == 10.0;
    BuildOne(801.0, 12.0, limit);
  }

  /** The split of any series whose windows 0 to 2 are those of `Series2` with the short window kept. */
  lemma SplitTwoKeptChain(s: Series, limit: real)
    requires s.WellFormed()
    requires WindowOutcome(s, 5.0, 5.0, true, limit, 0) ==
             Emit(Series([800.0, 810.0], [1.0, 4.9], false, false), false)
    requires WindowOutcome(s, 5.0, 5.0, true, limit, 1) ==
             Emit(Series([790.0, 795.0], [5.1, 9.9], false, false), false)
    requires WindowOutcome(s, 5.0, 5.0, true, limit, 2) == Emit(Series([801.0], [12.0], false, false), true)
    ensures SplitFrom(s, 5.0, 5.0, true, limit, 0) ==
            Ok([Series([800.0, 810.0], [1.0, 4.9], false, false),
                Series([790.0, 795.0], [5.1, 9.9], false, false),
                Series([801.0], [12.0], false, false)])
  {
    var a := Series([800.0, 810.0], [1.0, 4.9], false, false);
    var b := Series([790.0, 795.0], [5.1, 9.9], false, false);
    var c := Series([801.0], [12.0], false, false);
    EndsWith(s, 5.0, 5.0, true, limit, 2);
    EmitTwice(s, 5.0, 5.0, true, limit, 0, 1, 2, a, b, [c]);
    assert [a, b] + [c] == [a, b, c];
  }

  /** The split of any series whose windows 0 to 2 are those of `Series2` with the short window dropped. */
  lemma SplitTwoDroppedChain(s: Series, limit: real)
    requires s.WellFormed()
    requires WindowOutcome(s, 5.0, 5.0, false, limit, 0) ==
             Emit(Series([800.0, 810.0], [1.0, 4.9], false, false), false)
    requires WindowOutcome(s, 5.0, 5.0, false, limit, 1) ==
             Emit(Series([790.0, 795.0], [5.1, 9.9], false, false), false)
    requires WindowOutcome(s, 5.0, 5.0, false, limit, 2) == Stop
    ensures SplitFrom(s, 5.0, 5.0, false, limit, 0) ==
            Ok([Series([800.0, 810.0], [1.0, 4.9], false, false),
                Series([790.0, 795.0], [5.1, 9.9], false, false)])
  {
    var a := Series([800.0, 810.0], [1.0, 4.9], false, false);
    var b := Series([790.0, 795.0], [5.1, 9.9], false, false);
    StopsAt(s, 5.0, 5.0, false, limit, 2);
    EmitTwice(s, 5.0, 5.0, false, limit, 0, 1, 2, a, b, []);
    assert [a, b] + [] == [a, b];
  }

  /** `Series2` split window by window, under either `keep_last` setting. */
  lemma SplitTwoWindows(s: Series, keepLast: bool, limit: real)
    requires TestedLimit(limit) && s == Series2
    ensures keepLast ==>
              SplitFrom(s, 5.0, 5.0, keepLast, limit, 0) ==
              Ok([Series([800.0, 810.0], [1.0, 4.9], false, false),
                  Series([790.0, 795.0], [5.1, 9.9], false, false),
                  Series([801.0], [12.0], false, false)])
    ensures !keepLast ==>
              SplitFrom(s, 5.0, 5.0, keepLast, limit, 0) ==
              Ok([Series([800.0, 810.0], [1.0, 4.9], false, false),
                  Series([790.0, 795.0], [5.1, 9.9], false, false)])
  {
    SplitTwoWindow0(s, keepLast, limit);
    SplitTwoWindow1(s, keepLast, limit);
    SplitTwoWindow2(s, keepLast, limit);
    if keepLast {
      SplitTwoKeptChain(s, limit);
    } else {
      SplitTwoDroppedChain(s, limit);
    }
  }

  /**
   * `RRi([800, 810, 790, 795, 801], time=[1, 4.9, 5.1, 9.9, 12]).time_split(5, 0, keep_last)`:
   * three segments when the short last one is kept, two otherwise.
   */
  lemma SplitTwoExample(limit: real)
    requires TestedLimit(limit)
    ensures Split(Series2, 5.0, 0.0, true, limit) ==
            Ok([Series([800.0, 810.0], [1.0, 4.9], false, false),
                Series([790.0, 795.0], [5.1, 9.9], false, false),
                Series([801.0], [12.0], false, false)])
    ensures Split(Series2, 5.0, 0.0, false, limit) ==
            Ok([Series([800.0, 810.0], [1.0, 4.9], false, false),
                Series([790.0, 795.0], [5.1, 9.9], false, false)])
  {
    SplitTwoWindows(Series2, true, limit);
    SplitTwoWindows(Series2, false, limit);
  }
}
