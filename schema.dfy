/** The mgjson 2.0 document tree the encoder builds, one datatype per kind of
    JSON object, with the schema's fixed constants. Field names follow the
    JSON keys, including the schema's own spellings ("occuring",
    "hasExpectedFrequecyB"). */
module Schema {

  import opened Results

  const Version: string := "MGJSON2.0.0"
  const Creator: string := "python"

  /** The `legal` range written into every number description. */
  const LegalMin: int := -2147483648
  const LegalMax: int := 2147483648

  /** A JSON number in the document: an integer (static properties) or a
      decimal scaled by 10^15 (stream values). */
  datatype Number = Integer(i: int) | Decimal(scaled: int)

  /** The three value types a static property may have. */
  datatype Static = Int(i: int) | Bool(b: bool) | Str(s: string)

  datatype Pattern = Pattern(isSigned: bool, digitsInteger: int, digitsDecimal: int)

  datatype Range = Range(occuringMin: Number, occuringMax: Number, legalMin: int, legalMax: int)

  datatype NumberStringProperties = NumberStringProperties(pattern: Pattern, range: Range)

  datatype PaddedStringProperties =
    PaddedStringProperties(maxLen: int, maxDigitsInStrLength: int, eventMarkerB: bool)

  /** The `dataType` object: a type tag and the descriptions the tag calls for. */
  datatype DataType = DataType(
    typeName: string,
    numberStringProperties: Option<NumberStringProperties>,
    paddedStringProperties: Option<PaddedStringProperties>)

  /** An entry of `dataOutline`. */
  datatype Outline =
    | StaticOutline(objectType: string, displayName: string, dataType: DataType,
                    matchName: string, value: Static)
    | DynamicOutline(objectType: string, displayName: string, sampleSetID: string,
                     dataType: DataType, interpolation: string, hasExpectedFrequecyB: bool,
                     sampleCount: int, matchName: string)

  datatype Sample = Sample(time: string, value: string)

  /** An entry of `dataDynamicSamples`. */
  datatype SampleSet = SampleSet(sampleSetID: string, samples: seq<Sample>)

  datatype UtcInfo = UtcInfo(precisionLength: int, isGMT: bool)

  datatype DynamicDataInfo = DynamicDataInfo(useTimecodeB: bool, utcInfo: UtcInfo)

  /** The envelope. `dynamicDataInfo` and `dataDynamicSamples` are absent
      (None) in the static-only shape. */
  datatype Envelope = Envelope(
    version: string,
    creator: string,
    dynamicSamplesPresentB: bool,
    dynamicDataInfo: Option<DynamicDataInfo>,
    dataOutline: seq<Outline>,
    dataDynamicSamples: Option<seq<SampleSet>>)
}
