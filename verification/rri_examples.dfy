/**
 * The object-level tests: building an `RRi`, resetting its time axis in
 * place, and splitting it into new objects.
 */
module RriExamples {
  import opened Wrappers
  import opened Container
  import opened Segmenter
  import opened Rri
  import opened Examples
  import opened SplitExamples

  /** `rri.reset_time(inplace=True)` on `Fake` timed `[4, 5, 6, 7]` rewrites the axis to `[0, 1, 2, 3]`. */
  method ResetInPlaceExample(limit: real) returns (values: seq<real>, time: seq<real>)
    requires TestedLimit(limit)
    ensures values == Fake && time == [0.0, 1.0, 2.0, 3.0]
  {
    ResetTimeExample(limit);
    var r := RRi.New(Fake, Some([4.0, 5.0, 6.0, 7.0]), false, limit);
    var o := r.value;
    var e := o.ResetTimeInPlace();
    values, time := o.values, o.time;
  }

  /** `time_split(seg_size=10, overlap=0)` hands out two new objects holding the two windows. */
  method SplitObjectExample(limit: real) returns (parts: seq<Series>)
    requires TestedLimit(limit)
    ensures parts == [Series([800.0, 810.0], [1.0, 5.0], false, false),
                      Series([790.0, 795.0], [10.0, 20.0], false, false)]
  {
    var expected := [Series([800.0, 810.0], [1.0, 5.0], false, false),
                     Series([790.0, 795.0], [10.0, 20.0], false, false)];
    SeriesOneBuilds(limit);
    var r := RRi.New(Series1.values, Some(Series1.time), false, limit);
    var o := r.value;
    var segs := o.TimeSplit(10.0, 0.0, false, limit);
    assert segs.Ok? && |segs.value| == 2 && forall j :: 0 <= j < 2 ==> segs.value[j].Model() == expected[j] by {
      SplitOneExample(limit);
    }
    parts := [segs.value[0].Model(), segs.value[1].Model()];
  }

  /** `time_split(seg_size=5, overlap=0, keep_last=True)` hands out three new objects. */
  method SplitKeepLastObjectExample(limit: real) returns (parts: seq<Series>)
    requires TestedLimit(limit)
    ensures parts == [Series([800.0, 810.0], [1.0, 4.9], false, false),
                      Series([790.0, 795.0], [5.1, 9.9], false, false),
                      Series([801.0], [12.0], false, false)]
  {
    var expected := [Series([800.0, 810.0], [1.0, 4.9], false, false),
                     Series([790.0, 795.0], [5.1, 9.9], false, false),
                     Series([801.0], [12.0], false, false)];
    SeriesTwoBuilds(limit);
    var r := RRi.New(Series2.values, Some(Series2.time), false, limit);
    var o := r.value;
    var segs := o.TimeSplit(5.0, 0.0, true, limit);
    assert segs.Ok? && |segs.value| == 3 && forall j :: 0 <= j < 3 ==> segs.value[j].Model() == expected[j] by {
      SplitTwoExample(limit);
    }
    parts := [segs.value[0].Model(), segs.value[1].Model(), segs.value[2].Model()];
  }
}
