/** The document: `create_doc` and the `MgJSON` builder, whose two lists
    only ever grow, and whose `json` view projects them into the envelope. */
module Document {

  import opened Results
  import opened Schema
  import opened StaticData
  import opened DynamicData

  /** The `dynamicDataInfo` block of the dynamic envelope. */
  const DynamicInfo: DynamicDataInfo := DynamicDataInfo(false, UtcInfo(3, true))

  /** `create_doc(dynamic)`: the empty envelope, dynamic or static-only. */
  function CreateDoc(dynamic: bool): (doc: Envelope)
    ensures doc.version == Version && doc.creator == Creator
    ensures doc.dynamicSamplesPresentB == dynamic
    ensures doc.dynamicDataInfo.Some? <==> dynamic
    ensures doc.dataDynamicSamples.Some? <==> dynamic
    ensures dynamic ==> doc.dynamicDataInfo == Some(DynamicInfo) && doc.dataDynamicSamples == Some([])
    ensures doc.dataOutline == []
  {
    if dynamic then Envelope(Version, Creator, true, Some(DynamicInfo), [], Some([]))
    else Envelope(Version, Creator, false, None, [], None)
  }

  /** The (sampleSetID, sampleCount) key of every stream outline, in order. */
  function StreamKeys(outlines: seq<Outline>): (keys: seq<(string, int)>)
    ensures |keys| <= |outlines|
  {
    if outlines == [] then []
    else
      var last := outlines[|outlines| - 1];
      StreamKeys(outlines[..|outlines| - 1])
        + (if last.DynamicOutline? then [(last.sampleSetID, last.sampleCount)] else [])
  }

  /** The (sampleSetID, number of samples) key of every sample set, in order. */
  function SampleSetKeys(streams: seq<SampleSet>): (keys: seq<(string, int)>)
    ensures |keys| == |streams|
    ensures forall i :: 0 <= i < |streams| ==> keys[i] == (streams[i].sampleSetID, |streams[i].samples|)
  {
    if streams == [] then []
    else
      var last := streams[|streams| - 1];
      SampleSetKeys(streams[..|streams| - 1]) + [(last.sampleSetID, |last.samples|)]
  }

  /** A document has some stream outline exactly when it has a stream key. */
  lemma {:induction false} StreamKeysNonEmpty(outlines: seq<Outline>)
    ensures StreamKeys(outlines) != [] <==> exists i :: 0 <= i < |outlines| && outlines[i].DynamicOutline?
  {
    if outlines != [] {
      var init := outlines[..|outlines| - 1];
      StreamKeysNonEmpty(init);
      if exists i :: 0 <= i < |init| && init[i].DynamicOutline? {
        var i :| 0 <= i < |init| && init[i].DynamicOutline?;
        assert outlines[i] == init[i];
      }
      if exists i :: 0 <= i < |outlines| && outlines[i].DynamicOutline? {
        var i :| 0 <= i < |outlines| && outlines[i].DynamicOutline?;
        if i < |init| { assert init[i] == outlines[i]; }
      }
    }
  }

  /** Appending a property outline leaves the stream keys as they are. */
  lemma AppendProperty(outlines: seq<Outline>, outline: Outline)
    requires outline.StaticOutline?
    ensures StreamKeys(outlines + [outline]) == StreamKeys(outlines)
  {
    assert (outlines + [outline])[..|outlines|] == outlines;
  }

  /** Appending a stream outline and the sample set it describes keeps the
      keys of the two lists equal. */
  lemma AppendStream(outlines: seq<Outline>, streams: seq<SampleSet>, outline: Outline, sampleSet: SampleSet)
    requires StreamKeys(outlines) == SampleSetKeys(streams)
    requires outline.DynamicOutline? && outline.sampleSetID == sampleSet.sampleSetID
    requires outline.sampleCount == |sampleSet.samples|
    ensures StreamKeys(outlines + [outline]) == SampleSetKeys(streams + [sampleSet])
  {
    assert (outlines + [outline])[..|outlines|] == outlines;
    assert (streams + [sampleSet])[..|streams|] == streams;
  }

  class MgJson {
    var outlines: seq<Outline>
    var streams: seq<SampleSet>

    /** Every stream outline has exactly one sample set with the same name
        and as many samples as it counts, and they come in the same order:
        the two were always added together. */
    predicate Valid()
      reads this
    {
      StreamKeys(outlines) == SampleSetKeys(streams)
    }

    constructor ()
      ensures Valid() && outlines == [] && streams == []
    {
      outlines := [];
      streams := [];
    }

    /** `add_property`: appends the property's outline, or fails on an
        unsupported type with nothing appended; the streams never change. */
    method AddProperty(name: string, value: Value, displayName: Option<string>) returns (r: Outcome)
      requires Valid()
      modifies this
      ensures Valid()
      ensures r.Fail? <==> value.OtherValue?
      ensures r.Fail? ==> r.error == UnsupportedType(value.typeName) && outlines == old(outlines)
      ensures r.Pass? ==> outlines == old(outlines) + [EncodeProperty(name, value, displayName).value]
      ensures streams == old(streams)
    {
      var encoded := EncodeProperty(name, value, displayName);
      if encoded.Err? {
        return Fail(encoded.error);
      }
      AppendProperty(outlines, encoded.value);
      outlines := outlines + [encoded.value];
      return Pass;
    }

    /** `add_stream`: appends the stream's outline and its sample set
        together, or fails (empty stream, time out of range) with neither
        list changed. */
    method AddStream(name: string, stream: seq<Point>, displayName: Option<string>,
                     interpolation: Option<string>) returns (r: Outcome)
      requires Valid()
      modifies this
      ensures Valid()
      ensures r.Fail? ==> outlines == old(outlines) && streams == old(streams)
      ensures |stream| == 0 ==> r == Fail(EmptyStream)
      ensures |stream| > 0 && EncodePoints(stream).Err? ==> r == Fail(EncodePoints(stream).error)
      ensures |stream| > 0 && EncodePoints(stream).Ok? ==>
        r == Pass
        && outlines == old(outlines) + [StreamOutline(name, stream, displayName, interpolation)]
        && streams == old(streams) + [SampleSet(name, EncodePoints(stream).value)]
    {
      var encoded := EncodeStream(name, stream, displayName, interpolation);
      if encoded.Err? {
        return Fail(encoded.error);
      }
      var outline, sampleSet := encoded.value.0, encoded.value.1;
      assert outline.DynamicOutline? && outline.sampleSetID == name && outline.sampleCount == |stream|;
      assert sampleSet.sampleSetID == name && |sampleSet.samples| == |stream| by {
        assert EncodePoints(stream).Ok?;
      }
      AppendStream(outlines, streams, outline, sampleSet);
      outlines := outlines + [outline];
      streams := streams + [sampleSet];
      return Pass;
    }

    /** `json`: the envelope over the current lists. It is dynamic exactly
        when a stream was added, carries the outlines and (when dynamic) the
        sample sets in insertion order, and changes nothing. */
    method Json() returns (doc: Envelope)
      requires Valid()
      ensures doc.version == Version && doc.creator == Creator
      ensures doc.dynamicSamplesPresentB <==> |streams| > 0
      ensures doc.dynamicSamplesPresentB <==> exists i :: 0 <= i < |outlines| && outlines[i].DynamicOutline?
      ensures doc.dynamicDataInfo == if |streams| > 0 then Some(DynamicInfo) else None
      ensures doc.dataOutline == outlines
      ensures doc.dataDynamicSamples == if |streams| > 0 then Some(streams) else None
    {
      StreamKeysNonEmpty(outlines);
      doc := CreateDoc(|streams| > 0);
      for i := 0 to |outlines|
        invariant doc == CreateDoc(|streams| > 0).(dataOutline := outlines[..i])
      {
        doc := doc.(dataOutline := doc.dataOutline + [outlines[i]]);
      }
      assert outlines[..|outlines|] == outlines;
      for j := 0 to |streams|
        invariant doc.version == Version && doc.creator == Creator
        invariant doc.dynamicSamplesPresentB == (|streams| > 0)
        invariant doc.dynamicDataInfo == if |streams| > 0 then Some(DynamicInfo) else None
        invariant doc.dataOutline == outlines
        invariant doc.dataDynamicSamples == if |streams| > 0 then Some(streams[..j]) else None
      {
        assert streams[..j + 1] == streams[..j] + [streams[j]];
        doc := doc.(dataDynamicSamples := Some(doc.dataDynamicSamples.value + [streams[j]]));
      }
      assert streams[..|streams|] == streams;
    }
  }

  /** Reading `json` twice in a row gives the same envelope. */
  method JsonIsRepeatable(m: MgJson) returns (first: Envelope, second: Envelope)
    requires m.Valid()
    ensures first == second
  {
    first := m.Json();
    second := m.Json();
  }
}
