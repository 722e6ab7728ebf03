/**
 * The validators run when an RRi series is built: `_validate_rri` on the
 * intervals and `_validate_time` on an explicitly supplied time axis.
 */
module Validator {
  import opened Wrappers
  import opened Sequences

  /** The ways building or indexing a series can fail. */
  datatype Error =
    | NonPositiveInterval   // ValueError from _validate_rri
    | LengthMismatch        // ValueError from _validate_time
    | NegativeTime          // ValueError from _validate_time
    | ZeroAfterStart        // ValueError from _validate_time
    | NotIncreasing         // ValueError from _validate_time
    | IndexOutOfRange       // IndexError: an index past either end, or element 0 of an empty array
    | MaskLengthMismatch    // IndexError: a boolean mask whose length differs from the series'

  /** The user-facing text carried by each failure. */
  function Message(e: Error): string
  {
    match e
    case NonPositiveInterval => "rri series can only have positive values"
    case LengthMismatch => "rri and time series must have the same length"
    case NegativeTime => "time series cannot have negative values"
    case ZeroAfterStart => "time series cannot have 0 values after first position"
    case NotIncreasing => "time series must be monotonically increasing"
    case IndexOutOfRange => "index out of bounds"
    case MaskLengthMismatch => "boolean index did not match indexed array"
  }

  /** The length of each message, which already tells the failures apart. */
  function MessageLength(e: Error): (n: nat)
    ensures n == |Message(e)|
  {
    match e
    case NonPositiveInterval => 40
    case LengthMismatch => 45
    case NegativeTime => 39
    case ZeroAfterStart => 53
    case NotIncreasing => 44
    case IndexOutOfRange => 19
    case MaskLengthMismatch => 41
  }

  /** Distinct failures are reported with distinct messages. */
  lemma MessagesDistinct(e1: Error, e2: Error)
    requires e1 != e2
    ensures Message(e1) != Message(e2)
  {
    assert MessageLength(e1) != MessageLength(e2);
  }

  /** A series whose every value is at most `limit` is read as seconds. */
  predicate InSeconds(v: seq<real>, limit: real)
  {
    forall i :: 0 <= i < |v| ==> v[i] <= limit
  }

  /** Elementwise multiplication by a constant. */
  function Scale(v: seq<real>, c: real): (r: seq<real>)
  {
    seq(|v|, i requires 0 <= i < |v| => v[i] * c)
  }

  /**
   * `_validate_rri`: rejects any non-positive interval and brings a series
   * given in seconds (its largest value at most `limit`) to milliseconds.
   */
  function ValidateRri(v: seq<real>, limit: real): (r: Result<seq<real>, Error>)
    ensures r.Ok? <==> AllPositive(v)
    ensures r.Err? ==> r.error == NonPositiveInterval
    ensures r.Ok? ==> |r.value| == |v| && AllPositive(r.value)
    ensures r.Ok? && InSeconds(v, limit) ==> forall i :: 0 <= i < |v| ==> r.value[i] == 1000.0 * v[i]
    ensures r.Ok? && !InSeconds(v, limit) ==> r.value == v
  {
    if !AllPositive(v) then Err(NonPositiveInterval)
    else if |v| > 0 && Max(v) <= limit then Ok(Scale(v, 1000.0))
    else Ok(v)
  }

  /**
   * Validating an accepted series again changes nothing exactly when the
   * first pass left it above the seconds threshold (or it is empty): a
   * series still under the threshold after scaling is scaled a second time.
   */
  lemma ValidateRriIdempotentIff(v: seq<real>, limit: real)
    requires ValidateRri(v, limit).Ok?
    ensures var w := ValidateRri(v, limit).value;
            ValidateRri(w, limit) == Ok(w) <==> |v| == 0 || !InSeconds(w, limit)
  {
    var w := ValidateRri(v, limit).value;
    if |v| > 0 && InSeconds(w, limit) {
      assert ValidateRri(w, limit).value[0] == 1000.0 * w[0] != w[0];
    }
  }

  predicate NonNegative(t: seq<real>)
  {
    forall i :: 0 <= i < |t| ==> t[i] >= 0.0
  }

  predicate NoZeroAfterStart(t: seq<real>)
  {
    forall i :: 1 <= i < |t| ==> t[i] != 0.0
  }

  /** The invariants every time axis of a constructed series satisfies. */
  predicate ValidTimeAxis(t: seq<real>)
  {
    NonNegative(t) && NoZeroAfterStart(t) && StrictlyIncreasing(t)
  }

  /**
   * The zero check never rejects an axis the other checks would pass: an
   * interior zero in a non-negative axis already breaks strict increase.
   * It exists to give that case its own message.
   */
  lemma ZeroAfterStartBreaksIncrease(t: seq<real>)
    requires NonNegative(t) && !NoZeroAfterStart(t)
    ensures !StrictlyIncreasing(t)
  {
    var i :| 1 <= i < |t| && t[i] == 0.0;
    assert t[0] >= t[i];
  }

  /** On a valid axis every point after the first is strictly positive. */
  lemma ValidAxisPositiveAfterStart(t: seq<real>)
    requires ValidTimeAxis(t)
    ensures forall i :: 1 <= i < |t| ==> t[i] > 0.0
  {
    forall i | 1 <= i < |t| ensures t[i] > 0.0 {
      assert t[0] < t[i];
    }
  }

  /** A non-negative strictly increasing axis is valid. */
  lemma IncreasingNonNegativeIsValid(t: seq<real>)
    requires NonNegative(t) && StrictlyIncreasing(t)
    ensures ValidTimeAxis(t)
  {
    if !NoZeroAfterStart(t) {
      ZeroAfterStartBreaksIncrease(t);
    }
  }

  /**
   * `_validate_time`: the checks run in the order length, negative entries,
   * zero after the first position, strict increase (on successive
   * differences); the first that fails picks the error.
   */
  function ValidateTime(v: seq<real>, t: seq<real>): (r: Result<seq<real>, Error>)
    ensures r.Ok? <==> |v| == |t| && ValidTimeAxis(t)
    ensures r.Ok? ==> r.value == t
    ensures r == Err(LengthMismatch) <==> |v| != |t|
    ensures r == Err(NegativeTime) <==> |v| == |t| && !NonNegative(t)
    ensures r == Err(ZeroAfterStart) <==> |v| == |t| && NonNegative(t) && !NoZeroAfterStart(t)
    ensures r == Err(NotIncreasing) <==>
              |v| == |t| && NonNegative(t) && NoZeroAfterStart(t) && !StrictlyIncreasing(t)
  {
    DiffsPositiveIffIncreasing(t);
    if |v| != |t| then Err(LengthMismatch)
    else if exists i :: 0 <= i < |t| && t[i] < 0.0 then Err(NegativeTime)
    else if exists i :: 1 <= i < |t| && t[i] == 0.0 then Err(ZeroAfterStart)
    else if !DiffsPositive(t) then Err(NotIncreasing)
    else Ok(t)
  }
}
