/** Streams: `DynamicMgJSONData`, which turns a list of `[time, value]`
    points into an outline entry and a sample set keyed by the same name. */
module DynamicData {

  import opened Results
  import opened Names
  import opened Schema
  import opened NumberString
  import opened Timestamps

  /** One `[time, value]` point: the time in microseconds from the origin,
      the value as a decimal scaled by 10^15. */
  datatype Point = Point(time: int, value: int)

  const DynamicObjectType: string := "dataDynamic"
  const DefaultInterpolation: string := "hold"

  /** `max(stream, key=lambda elem: elem[1])[1]`. */
  function MaxValue(stream: seq<Point>): (m: int)
    requires |stream| > 0
    ensures exists i :: 0 <= i < |stream| && stream[i].value == m
    ensures forall i :: 0 <= i < |stream| ==> stream[i].value <= m
  {
    if |stream| == 1 then stream[0].value
    else
      var rest := MaxValue(stream[1..]);
      assert forall i :: 1 <= i < |stream| ==> stream[i] == stream[1..][i - 1];
      if stream[0].value >= rest then stream[0].value else rest
  }

  /** `min(stream, key=lambda elem: elem[1])[1]`. */
  function MinValue(stream: seq<Point>): (m: int)
    requires |stream| > 0
    ensures exists i :: 0 <= i < |stream| && stream[i].value == m
    ensures forall i :: 0 <= i < |stream| ==> m <= stream[i].value
  {
    if |stream| == 1 then stream[0].value
    else
      var rest := MinValue(stream[1..]);
      assert forall i :: 1 <= i < |stream| ==> stream[i] == stream[1..][i - 1];
      if stream[0].value <= rest then stream[0].value else rest
  }

  /** `if not interpolation: interpolation = "hold"`: an absent or empty
      mode becomes "hold", any other string is kept as it is. */
  function Interpolation(given: Option<string>): (mode: string)
    ensures given.None? || given.value == "" ==> mode == DefaultInterpolation
    ensures given.Some? && given.value != "" ==> mode == given.value
  {
    if given.None? || given.value == "" then DefaultInterpolation else given.value
  }

  /** What the schema asks of the outline of a stream, stated on its own:
      a "dataDynamic" entry keyed by the stream's name both as match name
      and as sample set, under its display name and interpolation mode,
      counting its points, typed numberString with the pattern of
      `encode_number` (signed, 3 integer digits, 15 decimals), an empty
      padded-string description, the fixed legal range, and an occurring
      range that bounds every value and whose two ends are values. */
  predicate DescribesStream(o: Outline, name: string, stream: seq<Point>,
                            displayName: Option<string>, interpolation: Option<string>)
  {
    o.DynamicOutline? && o.objectType == "dataDynamic"
    && o.matchName == name && o.sampleSetID == name
    && o.displayName == DisplayName(name, displayName)
    && o.interpolation == Interpolation(interpolation)
    && !o.hasExpectedFrequecyB && o.sampleCount == |stream|
    && o.dataType.typeName == "numberString"
    && o.dataType.paddedStringProperties == Some(PaddedStringProperties(0, 0, false))
    && o.dataType.numberStringProperties.Some?
    && var p := o.dataType.numberStringProperties.value;
    p.pattern == Pattern(true, 3, 15)
    && p.range.legalMin == LegalMin && p.range.legalMax == LegalMax
    && p.range.occuringMin.Decimal? && p.range.occuringMax.Decimal?
    && (forall i :: 0 <= i < |stream| ==>
          p.range.occuringMin.scaled <= stream[i].value <= p.range.occuringMax.scaled)
    && (exists i :: 0 <= i < |stream| && stream[i].value == p.range.occuringMin.scaled)
    && (exists i :: 0 <= i < |stream| && stream[i].value == p.range.occuringMax.scaled)
  }

  /** The outline of a non-empty stream (the `self.outline` dict). */
  function StreamOutline(name: string, stream: seq<Point>, displayName: Option<string>,
                         interpolation: Option<string>): (o: Outline)
    requires |stream| > 0
    ensures DescribesStream(o, name, stream, displayName, interpolation)
  {
    var pattern := Pattern(true, IntegerDigits, FractionDigits);
    var range := Range(Decimal(MinValue(stream)), Decimal(MaxValue(stream)), LegalMin, LegalMax);
    DynamicOutline(DynamicObjectType, DisplayName(name, displayName), name,
      DataType("numberString", Some(NumberStringProperties(pattern, range)),
               Some(PaddedStringProperties(0, 0, false))),
      Interpolation(interpolation), false, |stream|, name)
  }

  /** One point of the sample set: its time through `timestamp` and its
      value through `encode_number`; fails where `timestamp` does. */
  function EncodePoint(point: Point): (r: Result<Sample>)
    ensures r.Err? <==> Timestamp(point.time).Err?
    ensures r.Err? ==> r.error == DateOutOfRange
  {
    var time := Timestamp(point.time);
    if time.Err? then Err(DateOutOfRange) else Ok(Sample(time.value, EncodeNumber(point.value)))
  }

  /** The samples of the `for time, value in stream` loop, in input order,
      or the error of the first point that fails. */
  function EncodePoints(stream: seq<Point>): (r: Result<seq<Sample>>)
    ensures r.Ok? ==> |r.value| == |stream|
  {
    MapResult(EncodePoint, stream)
  }

  /** Some point of the stream lies outside the years 1..9999. */
  predicate HasTimeOutOfRange(stream: seq<Point>)
  {
    exists i :: 0 <= i < |stream| && Timestamp(stream[i].time).Err?
  }

  /** Encoding the points fails exactly when one of their times is out of
      range, and then with DateOutOfRange; otherwise there is one sample
      per point. */
  lemma EncodePointsFails(stream: seq<Point>)
    ensures EncodePoints(stream).Err? <==> HasTimeOutOfRange(stream)
    ensures EncodePoints(stream).Err? ==> EncodePoints(stream).error == DateOutOfRange
    ensures EncodePoints(stream).Ok? ==> |EncodePoints(stream).value| == |stream|
  {
    MapResultFails(EncodePoint, stream);
    if HasTimeOutOfRange(stream) {
      var i :| 0 <= i < |stream| && Timestamp(stream[i].time).Err?;
      assert EncodePoint(stream[i]).Err?;
    }
    if EncodePoints(stream).Err? {
      var i :| FirstFailure(EncodePoint, stream, i)
        && EncodePoint(stream[i]).error == EncodePoints(stream).error;
    }
  }

  /** `DynamicMgJSONData(name, stream, display_name, interpolation)`: fails
      on an empty stream (inside `max`, before any sample is encoded);
      otherwise fails where the samples do, or gives the outline and the
      sample set, both keyed by `name`. */
  method EncodeStream(name: string, stream: seq<Point>, displayName: Option<string>,
                      interpolation: Option<string>)
    returns (r: Result<(Outline, SampleSet)>)
    ensures |stream| == 0 ==> r == Err(EmptyStream)
    ensures |stream| > 0 && EncodePoints(stream).Err? ==> r == Err(EncodePoints(stream).error)
    ensures |stream| > 0 && EncodePoints(stream).Ok? ==>
      r == Ok((StreamOutline(name, stream, displayName, interpolation),
               SampleSet(name, EncodePoints(stream).value)))
  {
    if |stream| == 0 {
      return Err(EmptyStream);
    }
    var outline := StreamOutline(name, stream, displayName, interpolation);
    var data: seq<Sample> := [];
    var i := 0;
    while i < |stream|
      invariant 0 <= i <= |stream|
      invariant EncodePoints(stream[..i]) == Ok(data)
    {
      assert stream[..i + 1][..i] == stream[..i];
      var time := Timestamp(stream[i].time);
      if time.Err? {
        EncodePointsFails(stream);
        return Err(DateOutOfRange);
      }
      var sample := Sample(time.value, EncodeNumber(stream[i].value));
      data := data + [sample];
      i := i + 1;
    }
    assert stream[..i] == stream;
    return Ok((outline, SampleSet(name, data)));
  }

  /** The sample stream: two points, 1.0 at 0 s and 0.777 at 2.23 s, give
      a count of 2, an occurring range from 0.777 to 1.0 and the default
      "hold" interpolation. */
  lemma StreamExample()
    ensures var o := StreamOutline("temperature", [Point(0, Scale), Point(2_230_000, 777_000_000_000_000)], None, None);
      o.sampleCount == 2 && o.interpolation == "hold"
      && o.dataType.numberStringProperties.value.range.occuringMin == Decimal(777_000_000_000_000)
      && o.dataType.numberStringProperties.value.range.occuringMax == Decimal(Scale)
  {
    var stream := [Point(0, Scale), Point(2_230_000, 777_000_000_000_000)];
    assert stream[1..] == [stream[1]];
    assert MaxValue(stream) == Scale;
    assert MinValue(stream) == 777_000_000_000_000;
  }

  /** Every sample reads back as its point: the value exactly, the time in
      whole milliseconds rounded toward the past. */
  lemma SamplesReadBack(stream: seq<Point>, i: int)
    requires EncodePoints(stream).Ok? && 0 <= i < |stream|
    ensures DecodeNumber(EncodePoints(stream).value[i].value) == Some(stream[i].value)
    ensures ParseTimestamp(EncodePoints(stream).value[i].time) == Some(stream[i].time / MicrosPerMilli)
  {
    MapResultPointwise(EncodePoint, stream, i);
    DecodeEncode(stream[i].value);
    TimestampRoundTrip(stream[i].time);
  }

  /** The occurring range of a stream outline bounds every sample value, as
      read back from the sample set, and both of its ends are such values. */
  lemma OutlineRangeBoundsSamples(name: string, stream: seq<Point>, displayName: Option<string>,
                                  interpolation: Option<string>)
    requires |stream| > 0 && EncodePoints(stream).Ok?
    ensures var o := StreamOutline(name, stream, displayName, interpolation);
      var range := o.dataType.numberStringProperties.value.range;
      var samples := EncodePoints(stream).value;
      o.sampleCount == |samples|
      && (forall i :: 0 <= i < |samples| ==>
            DecodeNumber(samples[i].value).Some?
            && range.occuringMin.scaled <= DecodeNumber(samples[i].value).value <= range.occuringMax.scaled)
      && (exists i :: 0 <= i < |samples| && DecodeNumber(samples[i].value) == Some(range.occuringMin.scaled))
      && (exists i :: 0 <= i < |samples| && DecodeNumber(samples[i].value) == Some(range.occuringMax.scaled))
  {
    var o := StreamOutline(name, stream, displayName, interpolation);
    var range := o.dataType.numberStringProperties.value.range;
    var samples := EncodePoints(stream).value;
    forall i | 0 <= i < |samples|
      ensures DecodeNumber(samples[i].value) == Some(stream[i].value)
    {
      SamplesReadBack(stream, i);
    }
    var ilo :| 0 <= ilo < |stream| && stream[ilo].value == range.occuringMin.scaled;
    var ihi :| 0 <= ihi < |stream| && stream[ihi].value == range.occuringMax.scaled;
    assert DecodeNumber(samples[ilo].value) == Some(range.occuringMin.scaled);
    assert DecodeNumber(samples[ihi].value) == Some(range.occuringMax.scaled);
  }
}
