# RRi series container of `hrv`

This project is a Dafny model of the `RRi` series container from the
`hrv` heart-rate-variability package. An RRi series holds the
intervals between consecutive heartbeats, in milliseconds. Next to them
it keeps a time axis in seconds that stamps each beat, and two flags,
`interpolated` and `detrended`.

The model covers:

- **Validation** (`Validator`). `_validate_rri` rejects non-positive
  intervals and brings a series given in seconds to milliseconds.
  `_validate_time` checks a supplied time axis for length, negative
  entries, a zero after the first position and strict increase. Each
  failure has its own error and message.
- **Time axis** (`TimeAxis`). `_create_time_array` builds the axis from
  the intervals when none is supplied: the running sum in seconds,
  shifted to start at zero.
- **Series as a value** (`Container`):
  - construction of `RRi` and `RRiDetrended`;
  - integer, slice and boolean-mask indexing;
  - elementwise `+ - * / **` and `abs` against a number or another
    series;
  - the six comparisons;
  - `time_range`;
  - `reset_time`.
- **Statistics** (`Statistics`): `min`, `max`, `amplitude`, `mean`,
  `median`, `var`, `to_hr`, and the rri/hr table behind `describe`.
- **Segmenter** (`Segmenter`). `time_split` cuts a series into windows
  of `seg_size` seconds. The windows start every `seg_size - overlap`
  seconds, counted from time zero. The short last window is kept or
  dropped according to `keep_last`.
- **The object** (`Rri.RRi`). This class has read-only intervals and
  flags, and a time axis that only `reset_time(inplace=True)`
  overwrites. Every method that hands out a new object is specified by
  the value-level function of the same operation. `TimeSplit` walks the
  windows in a loop (`WalkWindows`) and then builds one new object per
  segment (`NewObjects`); no two of the objects it hands out are the
  same object, and none is the receiver.
- **Examples** (`Examples`, `SplitExamples`, `RriExamples`). The
  concrete cases of the test suite are stated as lemmas and proved.
  `Fake` is the fixture `[800, 810, 815, 750]`.

Numbers are Dafny `real`s, so arithmetic is exact. Python exceptions
become `Err` values of `Wrappers.Result`.

`hrv/rri.py` is not part of this model. The behaviour is taken from what
`tests/test_rri.py` asserts. Where the tests leave `time_split` open, the
model fixes one reading of it:

- window `k` is `[k * step, k * step + seg_size)`, counted from time zero;
- the last beat of the whole series is also taken when it lies exactly on
  a window's upper edge;
- the first empty window ends the split;
- the last non-empty window is dropped when it covers less than
  `seg_size` seconds, unless `keep_last` holds.

The tests compare split results with `zip`, which checks only the
leading segments. The model states the whole list under this reading.
Two consequences of the reading that the tests do not cover are listed
under "Left out".

## Model

| member | source | states |
|---|---|---|
| Validator.ValidateRri | tests/test_rri.py:23-33 | accepted exactly when every interval is positive, otherwise `NonPositiveInterval`; a series at most `limit` everywhere is multiplied by 1000, any other is returned unchanged; the result keeps the length and is all positive |
| Validator.ValidateRriIdempotentIff | tests/test_rri.py:27-33 | validating an accepted result again changes nothing exactly when it is empty or no longer under the seconds threshold |
| Validator.MessagesDistinct | tests/test_rri.py:70-111 | different failures carry different messages |
| Validator.ValidateTime | tests/test_rri.py:70-102 | accepted exactly when the lengths agree and the axis is non-negative, zero-free after position 0 and strictly increasing, returning the axis unchanged; each error holds exactly when its check is the first to fail, in the order length, negative, zero after start, increase |
| Validator.ZeroAfterStartBreaksIncrease | tests/test_rri.py:84-96 | on a non-negative axis a zero after the start already breaks strict increase, so the zero check only picks the message |
| Validator.ValidAxisPositiveAfterStart | tests/test_rri.py:84-90 | on a valid axis every stamp after the first is positive |
| Validator.IncreasingNonNegativeIsValid | tests/test_rri.py:84-102 | non-negative and strictly increasing is enough for a valid axis |
| Sequences.DiffsPositiveIffIncreasing | tests/test_rri.py:92-96 | positive successive differences hold exactly when every earlier stamp is below every later one |
| TimeAxis.CumSum | tests/test_rri.py:48-54 | one running sum per interval; the first is the first interval, and each later one adds the next interval |
| TimeAxis.CreateTimeArray | tests/test_rri.py:48-61 | defined exactly for non-empty input (else `IndexOutOfRange`); same length as the intervals, starts at 0, and 1000 times each step is the corresponding interval |
| TimeAxis.CreatedAxisIsValid | tests/test_rri.py:56-61 | the axis derived from positive intervals passes `_validate_time` unchanged |
| TimeAxis.CreatedAxisDuration | tests/test_rri.py:48-54 | the last stamp is the sum of all intervals after the first, in seconds |
| Container.Construct | tests/test_rri.py:35-82 | a plain RRi is built exactly when the intervals are positive and the supplied axis is valid for them (or, with no axis, the intervals are non-empty); its intervals are `_validate_rri` of the input, a supplied axis is stored unchanged and a missing one is `_create_time_array` of the stored intervals; a detrended series is built exactly when the axis checks alone pass and keeps its values as given; a failure after the intervals pass is the error of `_validate_time`, or `IndexOutOfRange` for empty intervals with no axis |
| Container.Position | tests/test_rri.py:132-141 | a Python index is accepted exactly when it lies in `-n..n-1`, and then names a position congruent to it modulo `n` |
| Container.At | tests/test_rri.py:132-141 | `rri[i]` is the `i`-th interval, counted from the end for negative `i`, and `IndexOutOfRange` past either end |
| Sequences.Min | tests/test_rri.py:279-293 | the minimum is an element and bounds every element from below |
| Sequences.Max | tests/test_rri.py:279-293 | the maximum is an element and bounds every element from above |
| Container.SliceBounds | tests/test_rri.py:122-130 | the clamped slice bounds cover exactly the positions a Python slice `start:stop` takes |
| Container.SliceSeries | tests/test_rri.py:122-130 | `rri[start:stop]` holds the same run of intervals and of time stamps with the flags kept, and keeps a valid axis valid and positive intervals positive |
| Container.FullSliceIsIdentity | tests/test_rri.py:122-130 | the full slice gives back the same series |
| Sequences.Select | tests/test_rri.py:143-151 | mask selection keeps as many entries as the mask has `True` bits, and exactly the entries whose bit is set (order and position: `SelectAt`, `SelectPositions`) |
| Sequences.Nth | tests/test_rri.py:143-151 | the `j`-th set bit of a mask is a position of the mask whose bit is set |
| Sequences.NthCount | tests/test_rri.py:143-151 | exactly `j` bits are set before the `j`-th set bit |
| Sequences.NthIncreasing | tests/test_rri.py:143-151 | later set bits lie at later positions |
| Sequences.NthOfSetBit | tests/test_rri.py:143-151 | every set bit is the `j`-th one for `j` the number of set bits before it |
| Sequences.SelectAt | tests/test_rri.py:143-151 | entry `j` of a selection is the entry at the `j`-th set bit, so the selection keeps every selected entry once, in the input order |
| Sequences.SelectPositions | tests/test_rri.py:143-151 | every entry whose bit is set is in the selection at position "number of set bits before it" |
| Sequences.SelectIncreasing | tests/test_rri.py:143-151 | selecting from a strictly increasing sequence keeps it strictly increasing |
| Sequences.SelectAll | tests/test_rri.py:143-151 | an all-true mask selects everything |
| Sequences.CountPositive | tests/test_rri.py:143-151 | a mask selects something exactly when one of its bits is set |
| Container.SelectKeepsInvariants | tests/test_rri.py:143-151 | masking keeps the axis valid and the intervals positive |
| Container.MaskSeries | tests/test_rri.py:143-151 | `rri[mask]` succeeds exactly when the mask has the series' length (else `MaskLengthMismatch`); entry `j` of the result is the interval and the time stamp at the `j`-th `True` position, so it holds the masked points once each, in order, with intervals and stamps still paired; it keeps the flags and a valid axis valid |
| Container.Arith | tests/test_rri.py:166-201 | `+ - * /` against a number or another series give, position by position, the operator applied to the interval and the operand, on the same axis and with the same flags |
| Container.AddThenSubtract | tests/test_rri.py:175-191 | subtracting what was added gives back the series |
| Container.MultiplyThenDivide | tests/test_rri.py:166-201 | dividing by what multiplied gives back the series |
| Container.PowerAdd | tests/test_rri.py:254-260 | `x ** (a + b) == x ** a * x ** b` |
| Container.Pow | tests/test_rri.py:254-276 | `rri ** e` raises each interval to its exponent, on the same axis and with the same flags |
| Container.PowProduct | tests/test_rri.py:254-276 | `rri ** a * rri ** b == rri ** (a + b)` as series |
| Container.AbsSeries | tests/test_rri.py:203-210 | `abs(rri)` gives the non-negative magnitude of each interval, on the same axis |
| Container.AbsOfPositiveIsIdentity | tests/test_rri.py:203-210 | on positive intervals `abs` changes nothing |
| Container.Compare | tests/test_rri.py:212-252 | each comparison gives one boolean per interval, true exactly when the comparison holds for it |
| Container.NegationComplements | tests/test_rri.py:212-252 | `==`/`!=`, `>`/`<=` and `>=`/`<` give complementary masks |
| Container.MaskByComparison | tests/test_rri.py:143-252 | masking by a comparison always succeeds and keeps exactly the intervals that pass it: every passing interval `i` sits at position "number of passing intervals before `i`", with its own time stamp, and every kept interval passes |
| Container.TimeRange | tests/test_rri.py:380-388 | `time_range(start, end)` keeps exactly the points stamped in `[start, end]`, both ends included: entry `j` is the interval and stamp of the `j`-th such point, in order; it keeps the flags, and keeps the axis valid and the intervals positive |
| Container.RangeMask | tests/test_rri.py:380-388 | the range mask has one bit per stamp, set exactly when the stamp lies in `[start, end]` |
| Container.ResetTime | tests/test_rri.py:390-398 | defined exactly for a non-empty axis (else `IndexOutOfRange`); same intervals and flags, the axis starts at 0, every distance between stamps is kept, and a valid axis stays valid |
| Container.ResetTimeIdempotent | tests/test_rri.py:390-398 | resetting twice is resetting once |
| Statistics.Amplitude | tests/test_rri.py:279-293 | `amplitude()` is non-negative, bounds every difference of two intervals, and is attained by one |
| Statistics.Mean | tests/test_rri.py:279-293 | `mean()` is the number that, added once per interval, makes up the sum (`Times`, which `TimesIsProduct` shows is multiplication by the count); it lies between `min()` and `max()` |
| Statistics.MeanAtLeast | tests/test_rri.py:279-293 | a lower bound on every interval bounds the mean from below |
| Statistics.MeanAtMost | tests/test_rri.py:279-293 | an upper bound on every interval bounds the mean from above |
| Statistics.SumAddConstant | tests/test_rri.py:279-293 | shifting every interval by `c` adds `n * c` to the sum |
| Statistics.MeanAddConstant | tests/test_rri.py:279-293 | shifting every interval by `c` shifts the mean by `c` |
| Statistics.Var | tests/test_rri.py:279-293 | the population variance is non-negative |
| Statistics.ConstantHasZeroVariance | tests/test_rri.py:279-293 | equal intervals have zero variance |
| Statistics.VarAddConstant | tests/test_rri.py:279-293 | shifting every interval by the same amount leaves the variance unchanged |
| Statistics.InsertPermutes | tests/test_rri.py:279-293 | insertion adds exactly one copy of the element |
| Statistics.InsertSorted | tests/test_rri.py:279-293 | insertion into a sorted sequence keeps it sorted |
| Statistics.Sort | tests/test_rri.py:279-293 | the sort behind `median()` is ordered and a permutation of its input |
| Statistics.SortedPermutationHeads | tests/test_rri.py:279-293 | two ordered permutations of each other share their first element and the multiset of the rest |
| Statistics.SortedPermutationUnique | tests/test_rri.py:279-293 | two ordered permutations of each other are equal |
| Statistics.SortCharacterised | tests/test_rri.py:279-293 | any ordered permutation of the input is what the sort returns |
| Statistics.Median | tests/test_rri.py:279-293 | `median()` lies between `min()` and `max()` |
| Statistics.MedianOfOddIsElement | tests/test_rri.py:279-293 | with an odd count the median is one of the intervals |
| Statistics.ToHr | tests/test_rri.py:373-378 | `to_hr()` has one rate per interval, and positive intervals give positive rates |
| Statistics.ToHrInvolution | tests/test_rri.py:373-378 | converting the rates back gives the intervals |
| Statistics.MaxIsUpperElement | tests/test_rri.py:279-293 | an element that bounds every element from above is `max()` |
| Statistics.MinIsLowerElement | tests/test_rri.py:279-293 | an element that bounds every element from below is `min()` |
| Statistics.RatesAtMost | tests/test_rri.py:373-378 | a positive lower bound on the intervals bounds every rate from above |
| Statistics.RatesAtLeast | tests/test_rri.py:373-378 | an upper bound on positive intervals bounds every rate from below |
| Statistics.MaxHrIsRateOfMin | tests/test_rri.py:295-327 | the fastest rate is the rate of the shortest interval |
| Statistics.MinHrIsRateOfMax | tests/test_rri.py:295-327 | the slowest rate is the rate of the longest interval |
| Statistics.Describe | tests/test_rri.py:295-327 | on non-zero intervals, every entry of the table is its statistic of the series (rri column) or of `to_hr()` (hr column): min, max, amplitude, mean, median and var; so the hr mean is the mean of the rates, not the rate of the rri mean; in each column min <= median, mean <= max, each amplitude is max - min of its own column, and both variances are non-negative; for positive intervals the min is positive and the hr max and min are the rates of the rri min and max |
| Segmenter.WindowMask | tests/test_rri.py:566-585 | a window takes a point exactly when its stamp is in `[lo, hi)`, or it is the last point of the series lying on `hi` |
| Segmenter.PastHorizon | tests/test_rri.py:566-585 | from the horizon on, every stamp lies before the window start |
| Segmenter.EmptyPastHorizon | tests/test_rri.py:566-585 | a window from the horizon on is empty, so the split ends |
| Segmenter.WindowOutcome | tests/test_rri.py:566-585 | an emitted segment is a validated plain RRi with default flags, and a segment not marked last is followed by a non-empty window (the full account is `WindowOutcomeSpec`) |
| Segmenter.WindowOutcomeSpec | tests/test_rri.py:566-585 | window `k` stops exactly when it is empty or is the short last window without `keep_last`; what it emits has exactly the window's time stamps and the window's intervals validated afresh, and is marked last exactly when the next window is empty; it fails only on non-positive intervals or an invalid axis, so never for a validated series |
| Segmenter.WindowPointsInSegment | tests/test_rri.py:566-585 | every point of the series inside window `k` is in that window's segment, at position "number of window points before it", with its time stamp and its interval (scaled by one factor for the whole segment) |
| Segmenter.SegmentPointsInWindow | tests/test_rri.py:566-585 | every position `p` of a window's segment holds the `p`-th point of the series inside the window, with its time stamp and scaled interval, so the points keep their order |
| Segmenter.SplitFromWindows | tests/test_rri.py:566-585 | the split from window `k` on is exactly the windows' own segments: segment `j` is what window `k + j` emits |
| Segmenter.SplitFromEnds | tests/test_rri.py:566-585 | the window right after the last segment of a successful split stops, so no segment is dropped at the end |
| Segmenter.SplitFromFails | tests/test_rri.py:566-585 | when the split from window `k` fails, its error is that of the first window reached that fails: some window `j >= k` fails with that error, and every window from `k` up to `j` emits a segment and hands on |
| Segmenter.SplitFromValidated | tests/test_rri.py:566-585 | a validated series splits without error |
| Segmenter.SplitFromSegmentsValidated | tests/test_rri.py:566-585 | every segment of a split is a validated plain RRi |
| Segmenter.Split | tests/test_rri.py:566-585 | `time_split`: segment `j` is the one window `j` emits, window `j` starting `j * (seg_size - overlap)` seconds after zero; the window after the last segment stops the split; a validated series always splits; a failed split carries the error of the first window that fails, every earlier window having emitted and handed on |
| Segmenter.SplitSegmentIsWindow | tests/test_rri.py:566-585 | segment `j` of `time_split` has exactly the time stamps of window `j` and its intervals validated afresh |
| Segmenter.KeepLastOnlyTouchesLast | tests/test_rri.py:575-585 | `keep_last` changes a window's outcome only for the last non-empty window, which it builds instead of stopping |
| Segmenter.KeepLastAddsAtMostOne | tests/test_rri.py:575-585 | when the split keeping the short last window succeeds, the split dropping it succeeds too, and is the same list or that list without its last segment |
| Rri.RRi.constructor | tests/test_rri.py:35-46 | the new object holds exactly the given series |
| Rri.RRi.New | tests/test_rri.py:35-82 | `RRi(values, time)` fails as construction fails; otherwise a fresh valid object holding the constructed series |
| Rri.RRi.NewDetrended | tests/test_rri.py:544-557 | `RRiDetrended(values, time)` fails as detrended construction fails; otherwise a fresh valid object flagged detrended, holding the values as given |
| Rri.RRi.Slice | tests/test_rri.py:122-130 | a fresh valid object holding the sliced series |
| Rri.RRi.Mask | tests/test_rri.py:143-151 | a fresh valid object holding the masked series, or the mask-length error |
| Rri.RRi.Arithmetic | tests/test_rri.py:166-201 | a fresh valid object holding the elementwise result |
| Rri.RRi.Power | tests/test_rri.py:254-260 | a fresh valid object holding the elementwise power |
| Rri.RRi.Abs | tests/test_rri.py:203-210 | a fresh valid object holding the magnitudes |
| Rri.RRi.TimeRangeOf | tests/test_rri.py:380-388 | a fresh valid object holding the points timed in `[start, end]` |
| Rri.RRi.ResetTimeCopy | tests/test_rri.py:390-398 | a fresh valid object with the reset axis, or the empty-axis error; the receiver is untouched |
| Rri.RRi.ResetTimeInPlace | tests/test_rri.py:400-408 | the receiver's axis becomes the reset axis and it stays valid; an empty axis is reported and left as it was |
| Rri.RRi.Append | tests/test_rri.py:566-585 | the appended list keeps the old objects and ends with a new object holding the new segment, valid when the segment's axis is |
| Rri.RRi.NewObjects | tests/test_rri.py:566-585 | one new object per given series, in order, each holding its series and valid, no two of them the same object |
| Rri.RRi.WalkWindows | tests/test_rri.py:566-585 | the loop over the windows from window 0 returns exactly the split from window 0: its segments in order, or the first validation error |
| Rri.RRi.SplitObjects | tests/test_rri.py:566-585 | one new valid object per segment of the split from window 0, in order, holding exactly that segment, no two of them the same object; or the split's error |
| Rri.RRi.TimeSplit | tests/test_rri.py:566-585 | `time_split` on the receiver: one new valid object per segment of `Split`, in order, holding exactly that segment, no two of them the same object, or `Split`'s error |
| Examples.ValidateRriExamples | tests/test_rri.py:23-111 | `FAKE_RRI` is kept, `[0.8, 0.9, 1.2]` becomes `[800, 900, 1200]`, `[1, 2, 3, 4]` becomes `[1000, ..., 4000]`, and `[0, 1, 2, 3]` and `[1, 2, -3, 4]` are refused |
| Examples.MessageExamples | tests/test_rri.py:70-111 | the five error texts the tests read back |
| Examples.ValidateTimeExamples | tests/test_rri.py:70-102 | each malformed axis of the tests gets its own error and `[1, 2, 3, 4]` passes |
| Examples.CreateTimeArrayExample | tests/test_rri.py:48-61 | the axis derived from `FAKE_RRI` and the RRi built from it alone |
| Examples.SliceExample | tests/test_rri.py:122-130 | `rri[:2]` equals `RRi([800, 810])` in values and time |
| Examples.AtExample | tests/test_rri.py:132-141 | `rri[0] == 800`, `rri[-1] == 750`, and `rri[4]` is out of range |
| Examples.MaskExample | tests/test_rri.py:143-151 | `[False, True, True, False]` keeps `[810, 815]` |
| Examples.ArithmeticExamples | tests/test_rri.py:166-260 | the expected values of `* 10`, `+ 10`, `- 10`, `/ 10`, `** 2` and `abs` |
| Examples.ComparisonExamples | tests/test_rri.py:212-252 | the masks of `== 810`, `!= 810`, `> 810` and `<= 810` |
| Examples.MeanVarExample | tests/test_rri.py:279-293 | mean 793.75 and var 667.1875 |
| Examples.ExtremaExample | tests/test_rri.py:279-293 | min 750, max 815, amplitude 65 |
| Examples.SortExample | tests/test_rri.py:279-293 | `FAKE_RRI` sorts to `[750, 800, 810, 815]` |
| Examples.MedianExample | tests/test_rri.py:279-293 | median 805 |
| Examples.ToHrExample | tests/test_rri.py:373-378 | the rates `[75, 60000/810, 60000/815, 80]` |
| Examples.DescribeExample | tests/test_rri.py:295-327 | the rri column of the table: min 750, max 815, amplitude 65, mean 793.75, median 805, var 667.1875 |
| Examples.DescribeRateExample | tests/test_rri.py:295-327 | the hr column: min `60000/815`, max 80, and a mean that differs from the rate of the rri mean |
| Examples.RateMeanExample | tests/test_rri.py:295-327 | the hr mean is the average of the four beat-by-beat rates |
| Examples.LongSeriesBuilds | tests/test_rri.py:380-388 | the seven-beat series of the `time_range` test is a valid RRi |
| Examples.TimeRangeExample | tests/test_rri.py:380-388 | `time_range(10, 14)` gives `[817, 785, 910]` at `[10, 12, 14]` |
| Examples.ResetTimeExample | tests/test_rri.py:390-398 | `FAKE_RRI` at `[4, 5, 6, 7]` is built and resets to `[0, 1, 2, 3]` |
| Examples.DetrendedExample | tests/test_rri.py:544-557 | the negative detrended intervals build an `RRiDetrended` flagged detrended and not interpolated, and are refused as a plain RRi |
| SplitExamples.SplitOneExample | tests/test_rri.py:567-573 | `time_split(10, 0)` on `[1, 5, 10, 20]` gives exactly the segments at `[1, 5]` and `[10, 20]` |
| SplitExamples.SplitTwoExample | tests/test_rri.py:575-585 | `time_split(5, 0)` on `[1, 4.9, 5.1, 9.9, 12]` gives `[1, 4.9]`, `[5.1, 9.9]`, `[12]` with `keep_last`, and only the first two without it |
| RriExamples.ResetInPlaceExample | tests/test_rri.py:400-408 | `reset_time(inplace=True)` rewrites the object's axis to `[0, 1, 2, 3]` and keeps its intervals |
| RriExamples.SplitObjectExample | tests/test_rri.py:567-573 | the object-level `time_split(10, 0)` hands out the two expected segments |
| RriExamples.SplitKeepLastObjectExample | tests/test_rri.py:575-585 | the object-level `time_split(5, 0, keep_last=True)` hands out the three expected segments |

## Left out

- `hrv/rri.py` is not part of this model. The behaviour is taken from the assertions of `tests/test_rri.py`. For `time_split`, the reading given above fills in what the tests leave open.
- `hrv/sampledata/_load.py` is left out. It only dispatches on file extensions to readers that are not part of this model.
- Validator.ValidateRri: the seconds threshold is a parameter `limit` rather than a constant. The tests admit any threshold in `[4, 810)`: `[1, 2, 3, 4]` is read as seconds, and tests/test_rri.py:125-130 compare `rri[:2]` with `RRi([800, 810])`, which must not be rescaled. The examples take the part `[4, 750)` of that range (`TestedLimit`).
- `std()` and `rms()` are left out, as is the `std` row of `describe`. Both need a square root, which has no exact counterpart over `real`.
- Floating-point rounding is left out. Values are exact reals, so the test constants written to limited precision (`74.074...`) are stated as exact quotients (`60000/810`).
- Container.Pow: exponents are natural numbers. Real and negative exponents, such as `rri ** another_rri` with real values, are not modelled.
- Container.Arith: the right-hand series must have the same length, and a divisor must be non-zero (`Applicable`). NumPy broadcasting, length errors and division by zero (`inf`/`nan`) are not modelled.
- Validator.ValidateRri accepts an empty series (`Ok([])`), so `RRi([], time=[])` builds an empty object. This is a choice of the model: the tests never pass empty intervals, and the NumPy maximum the threshold check takes would raise on them.
- Statistics.Mean: the reductions require a non-empty series. The empty case, where NumPy raises or returns `nan`, is not modelled.
- Statistics.Describe requires non-zero intervals, because `to_hr` divides by each one. Detrended series are covered when none of their values is zero. A zero value, where NumPy gives `inf`, is not modelled.
- Validator.ValidateTime: the order of the negative and zero checks is a modelling choice. The tests fix only the single failures `[-1, 1, 2, 3]`, `[1, 2, 0, 3]` and `[0, 1, 4, 3]`. For an axis with several faults, such as `[1, -1]` or `[-1, 0, 1]`, the model reports `NegativeTime` because the negative check runs first.
- Container.SliceSeries: only `start:stop` slices are modelled. Slices with a step, such as `rri[::2]`, are not.
- Statistics.ConstantHasZeroVariance: only the direction "equal intervals have zero variance" is proved. The converse is not proved.
- Segmenter.KeepLastOnlyTouchesLast is stated as "unchanged, or stopped where the kept split fails or ends". A short last window can fail validation when kept, where dropping it would have succeeded.
- Segmenter.Split: the split is a finished list, and a validation error fails the whole split. The lazy generator, and the segments it yields before such an error, are not modelled.
- Segmenter.Split requires `0 <= overlap < seg_size`. An overlap in `(0, seg_size)` is modelled like `0`, with windows starting every `seg_size - overlap` seconds, but the tests use only `overlap = 0`. An overlap outside `[0, seg_size)` is excluded by the requires: at `seg_size` or above the windows would not advance, and the tests do not show what the program does with a negative one.
- Segmenter.Split, under the reading above, puts a final beat that lies on a window edge into both neighbouring windows when `keep_last` holds. With time `[1, 5, 10, 20]`, `time_split(10, 0, keep_last=True)` gives the segments at `[1, 5]`, `[10, 20]` and `[20]`. The tests cover only `keep_last=False` on this series.
- Segmenter.Split ends at the first empty window, so a gap longer than a window drops every later beat. With time `[1, 9, 25]` and `seg_size = 10`, `keep_last=True` gives only the segment at `[1, 9]`, and `keep_last=False` gives no segment. The tests have no such gap.
- Text rendering is left out: `__repr__`, the fixed-width `describe` output and `info`'s report on standard output with its memory estimate.
- The plotting methods `plot`, `hist` and `poincare_plot` are left out.
- The NumPy protocol (`np.mean(rri)` and friends) is left out. It yields the same reductions as the methods.
- The `AttributeError` raised on assignment to `values` or `time` is left out. Immutability is the class's `const` fields. `time` is a `var` only so that `ResetTimeInPlace` can overwrite it.
- `rri[i]` returns a bare `real`. NumPy's scalar type is not modelled.
