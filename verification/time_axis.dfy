/**
 * `_create_time_array`: the time axis derived from the intervals when none
 * is supplied, the running sum in seconds shifted to start at 0.
 */
module TimeAxis {
  import opened Wrappers
  import opened Sequences
  import opened Validator

  /**
   * NumPy's `cumsum`: entry i is the sum of the first i + 1 values; it
   * starts with the first value and each later entry adds the next value.
   */
  function CumSum(v: seq<real>): (r: seq<real>)
    ensures |r| == |v|
    ensures |v| > 0 ==> r[0] == v[0]
    ensures forall i :: 1 <= i < |v| ==> r[i] == r[i - 1] + v[i]
  {
    var c := seq(|v|, i requires 0 <= i < |v| => Sum(v[..i + 1]));
    assert forall i :: 1 <= i < |v| ==> c[i] == c[i - 1] + v[i] by {
      forall i | 1 <= i < |v| ensures c[i] == c[i - 1] + v[i] {
        assert v[..i + 1][..i] == v[..i];
      }
    }
    assert |v| > 0 ==> c[0] == v[0] by {
      if |v| > 0 {
        assert v[..1][..0] == [] && Sum(v[..1]) == Sum([]) + v[0];
      }
    }
    c
  }

  /**
   * `cumsum(v) / 1000 - (cumsum(v) / 1000)[0]`. Indexing element 0 of an
   * empty array fails. The axis starts at 0 and consecutive beats are the
   * next interval (in seconds) apart, so the intervals can be read back
   * from it.
   */
  function CreateTimeArray(v: seq<real>): (r: Result<seq<real>, Error>)
    ensures r.Ok? <==> |v| > 0
    ensures r.Err? ==> r.error == IndexOutOfRange
    ensures r.Ok? ==> |r.value| == |v| && r.value[0] == 0.0
    ensures r.Ok? ==> forall i :: 1 <= i < |v| ==> 1000.0 * (r.value[i] - r.value[i - 1]) == v[i]
  {
    if |v| == 0 then Err(IndexOutOfRange)
    else
      var c := CumSum(v);
      Ok(seq(|v|, i requires 0 <= i < |v| => c[i] / 1000.0 - c[0] / 1000.0))
  }

  /** The axis derived from positive intervals passes `_validate_time`. */
  lemma {:induction false} CreatedAxisIsValid(v: seq<real>)
    requires |v| > 0 && AllPositive(v)
    ensures ValidateTime(v, CreateTimeArray(v).value) == Ok(CreateTimeArray(v).value)
  {
    var t := CreateTimeArray(v).value;
    assert DiffsPositive(t) by {
      forall i | 0 <= i < |t| - 1 ensures t[i] < t[i + 1] {
        assert 1000.0 * (t[i + 1] - t[i]) == v[i + 1];
      }
    }
    DiffsPositiveIffIncreasing(t);
    assert NonNegative(t) by {
      forall i | 0 < i < |t| ensures t[i] >= 0.0 {
        assert t[0] < t[i];
      }
    }
    IncreasingNonNegativeIsValid(t);
  }

  /** The last time stamp is the total duration after the first beat, in seconds. */
  lemma CreatedAxisDuration(v: seq<real>)
    requires |v| > 0
    ensures CreateTimeArray(v).value[|v| - 1] == (Sum(v) - v[0]) / 1000.0
  {
    var c := CumSum(v);
    assert v[..|v|] == v;
    assert c[|v| - 1] == Sum(v);
  }
}
