# mgjson encoder, modelled in Dafny

`mgjson/mgjson.py` builds MGJSON 2.0 documents. These are the JSON files
that motion-graphics tools read as data-driven animation input. An `MgJSON`
object collects two lists:

- **outlines** describe every piece of data. A static property (`add_property`)
  is a number, a boolean or a string. A dynamic stream (`add_stream`) is a
  time series of numbers.
- **sample sets** hold the samples of each stream, keyed by the stream's name.

`json` puts both lists into the envelope that `create_doc` makes. The
envelope is dynamic exactly when a stream was added. Each sample's time is
written by `timestamp` as an RFC 3339 date-time with milliseconds
("1970-01-01T00:00:02.230Z"). Its value is written by `encode_number` as a
signed, zero-padded fixed-point string ("+001.000000000000000").

The model has one module per concern:

| module | models |
|---|---|
| `Results` | failures as values; the "first exception escapes" loop as `MapResult` |
| `Digits` | `str(int)` and zero-padded decimal fields, with their read-back |
| `Names` | `str.capitalize()` and the display-name default |
| `NumberString` | `encode_number` on fixed-point values scaled by 10^15 |
| `Calendar` | proleptic Gregorian dates, counted in days from 1970-01-01 |
| `Timestamps` | `timestamp` on integer microseconds |
| `Schema` | the document's records: outlines, data types, ranges, samples |
| `StaticData` | `StaticMGJsonData`, `StaticMGJsonNumber`, `StaticMGJsonString` and the type dispatch of `add_property` |
| `DynamicData` | `DynamicMgJSONData`, as a method with the sample loop |
| `Document` | `create_doc` and the `MgJSON` class, which mutates its two lists |

`MgJson` is a class whose two fields only ever grow. Its invariant `Valid()`
is that the stream outlines and the sample sets match one for one. They come
in the same order, with the same name and with `sampleCount` equal to the
number of samples. Every method preserves it. Failures are errors the source
raises before it touches either list; here a failing call returns
`Fail(error)` and leaves both lists unchanged.

The model follows these behaviours of the code:

- `capitalize()` upper-cases the first character and lower-cases every
  other one, so "numberOfCats" is displayed as "Numberofcats".
- `digitsInteger` of a static number is `len(str(value))`, which counts the
  '-' of a negative number.
- `maxLen` of a static string is `len(value)`, 23 for the sample title
  "A new adventure awaits!".
- Neither encoder checks the legal range of ±2147483648 against the value
  (`StaticData.LegalRangeNotChecked`).

## Model

| member | source | states |
|---|---|---|
| `Document.CreateDoc` | mgjson/mgjson.py:235-258 | version "MGJSON2.0.0" and creator "python"; `dynamicSamplesPresentB` is the flag; `dynamicDataInfo` (no timecode, GMT, precision 3) and an empty `dataDynamicSamples` list are present exactly when dynamic; the outline list is empty |
| `Document.MgJson.constructor` | mgjson/mgjson.py:17-23 | a new document has no outlines and no streams, and satisfies the invariant |
| `Document.MgJson.AddProperty` | mgjson/mgjson.py:38-53 | fails exactly on a value that is not an int, bool or str (`str(int)` is taken as total, see Left out), with nothing appended; otherwise appends the property's outline; the streams never change; the invariant is kept |
| `Document.MgJson.AddStream` | mgjson/mgjson.py:55-76 | an empty stream fails; a point whose time is out of range fails with its error; on failure neither list changes; otherwise the stream's outline and its sample set are appended together; the invariant is kept |
| `Document.MgJson.Json` | mgjson/mgjson.py:25-36 | the envelope is dynamic exactly when there is a stream, which is also exactly when there is a stream outline; it carries all outlines in insertion order and, when dynamic, all sample sets in order; nothing changes |
| `Document.JsonIsRepeatable` | mgjson/mgjson.py:25-36 | the `json` property reads the same envelope twice in a row |
| `Document.StreamKeysNonEmpty` | mgjson/mgjson.py:28 | there is a stream key exactly when some outline is a stream outline |
| `Document.AppendProperty` | mgjson/mgjson.py:53 | appending a static outline leaves the stream keys unchanged |
| `Document.AppendStream` | mgjson/mgjson.py:75-76 | appending a stream outline together with its sample set keeps the two key lists equal |
| `Document.SampleSetKeys` | mgjson/mgjson.py:229-232 | key i is the name and sample count of sample set i |
| `StaticData.TypeTag` | mgjson/mgjson.py:7-11 | an int is tagged "number", a bool "boolean" and a str "string", each tag belonging to exactly one type |
| `StaticData.ToStatic` | mgjson/mgjson.py:93-95 | only an exact int, bool or str is accepted and kept as it is; any other type is refused with its name |
| `StaticData.EncodeProperty` | mgjson/mgjson.py:44-53 | fails exactly on an unsupported type; otherwise gives a static outline with the given match name holding the given value |
| `StaticData.StaticBase` | mgjson/mgjson.py:87-104 | a "dataStatic" outline with the given match name and value, the given or capitalized display name, the type tag of the value and no further description; for a boolean that is the whole description |
| `StaticData.StaticNumber` | mgjson/mgjson.py:107-131 | the number's outline meets `DescribesValue`: signed, `digitsInteger` = `len(str(value))`, no decimals, occurring range exactly the value, the fixed legal range; it keeps the name, value and display name |
| `StaticData.StaticString` | mgjson/mgjson.py:134-149 | the string's outline meets `DescribesValue`: `maxLen` = `len(value)`, `maxDigitsInStrLength` 2, no event marker; it keeps the name, value and display name |
| `StaticData.EncodePropertyDescribes` | mgjson/mgjson.py:87-149 | every accepted property is described as the schema asks (type tag, signed integer pattern and occurring range = value for numbers, `maxLen` = length for strings, nothing more for booleans) under the given or the capitalized display name |
| `StaticData.DigitsIntegerIsPrintedWidth` | mgjson/mgjson.py:121-126 | `digitsInteger` is `len(str(value))`, and that text reads back as the value |
| `StaticData.NumberExample` | mgjson/mgjson.py:281 | the number 3 named "numberOfCats" is displayed "Numberofcats", with one integer digit and occurring range 3..3 |
| `StaticData.NegativeNumberExample` | mgjson/mgjson.py:124 | -42 gets three integer digits, the '-' included |
| `StaticData.BooleanExample` | mgjson/mgjson.py:282 | a boolean carries only its type tag |
| `StaticData.StringExample` | mgjson/mgjson.py:283 | the sample title gets `maxLen` 23 |
| `StaticData.FloatExample` | mgjson/mgjson.py:93-95 | a float is refused |
| `StaticData.LegalRangeNotChecked` | mgjson/mgjson.py:127-130 | a value beyond the legal maximum still encodes, with an occurring maximum above its legal maximum |
| `DynamicData.MaxValue` | mgjson/mgjson.py:181 | the largest value of a non-empty stream: one of its values and at least every one |
| `DynamicData.MinValue` | mgjson/mgjson.py:182 | the smallest value of a non-empty stream: one of its values and at most every one |
| `DynamicData.Interpolation` | mgjson/mgjson.py:178-179 | an absent or empty mode becomes "hold"; any other mode is kept |
| `DynamicData.StreamOutline` | mgjson/mgjson.py:175-219 | the outline meets `DescribesStream`: "dataDynamic", match name and sample set ID both the stream's name, display name and interpolation defaults, `hasExpectedFrequecyB` false, `sampleCount` = number of points, numberString with pattern (signed, 3, 15), padded string (0, 0, false), the fixed legal range, and an occurring range bounding every value with both ends values of the stream |
| `DynamicData.StreamExample` | mgjson/mgjson.py:286 | the sample stream [[0.0, 1.0], [2.23, 0.777]] gets `sampleCount` 2, occurring range 0.777 to 1.0 and interpolation "hold" |
| `DynamicData.EncodePoint` | mgjson/mgjson.py:222-226 | a sample fails exactly when its time does, and then with DateOutOfRange |
| `DynamicData.EncodePoints` | mgjson/mgjson.py:221-227 | a successful loop gives one sample per point; `EncodePointsFails` and `SamplesReadBack` state when it fails and what each sample reads back as |
| `DynamicData.EncodePointsFails` | mgjson/mgjson.py:221-227 | encoding the points fails exactly when some time is out of range, with DateOutOfRange; otherwise there is one sample per point |
| `DynamicData.EncodeStream` | mgjson/mgjson.py:163-232 | an empty stream fails before any sample; a failing point fails the stream; otherwise gives the outline and the sample set of the points encoded in order, both under the stream's name |
| `DynamicData.SamplesReadBack` | mgjson/mgjson.py:221-227 | sample i reads back as point i: the value exactly, the time in whole milliseconds rounded toward the past |
| `DynamicData.OutlineRangeBoundsSamples` | mgjson/mgjson.py:181-219 | the outline counts the samples, and its occurring range bounds every sample value read back, with both ends attained |
| `Results.MapResult` | mgjson/mgjson.py:221-227 | a successful loop yields one result per element |
| `Results.MapResultPointwise` | mgjson/mgjson.py:221-227 | result i is the element function applied to element i |
| `Results.MapResultFails` | mgjson/mgjson.py:221-227 | the loop fails exactly when some element fails, and with the error of the first one |
| `Names.Capitalize` | mgjson/mgjson.py:97-98 | same length; the first character upper-cased, every other lower-cased |
| `Names.CapitalizeIdempotent` | mgjson/mgjson.py:97-98 | capitalizing twice is capitalizing once |
| `Names.CapitalizeIs` | mgjson/mgjson.py:98 | a string that has the length, first character and lower-cased rest of `capitalize()` is its result |
| `Names.CapitalizeExample` | mgjson/mgjson.py:281 | "numberOfCats" capitalizes to "Numberofcats" |
| `Names.DisplayName` | mgjson/mgjson.py:97-98 | a given display name is kept, even when empty; else the capitalized name |
| `NumberString.EncodeShape` | mgjson/mgjson.py:268-273 | every encoding is a sign, at least three integer digits, '.', fifteen digits; the sign is '-' exactly for negative numbers |
| `NumberString.EncodeNumber` | mgjson/mgjson.py:268-273 | at least 20 characters, starting with '-' exactly for a negative number and '+' otherwise; `DecodeEncode` reads it back |
| `NumberString.EncodeMagnitude` | mgjson/mgjson.py:273 | the encoding has the NumberString shape and its digits spell the magnitude of the number |
| `NumberString.EncodeLength` | mgjson/mgjson.py:273 | the field is 20 characters exactly when the magnitude is below 1000, and grows with the integer digits otherwise |
| `NumberString.DecodeEncode` | mgjson/mgjson.py:268-273 | reading an encoding back gives the number |
| `NumberString.EncodeParts` | mgjson/mgjson.py:273 | where the integer field and the fraction sit, and which values they hold |
| `Digits.IntToString` | mgjson/mgjson.py:124 | `str(i)` is as long as the digits of the magnitude plus one for a '-', which leads exactly for negatives |
| `Digits.IntToStringRoundTrip` | mgjson/mgjson.py:124 | `str(i)` reads back as i |
| `Digits.PadNat` | mgjson/mgjson.py:273 | a zero-padded field reads back as its number, and has exactly the width when the number fits it |
| `Digits.NatDigitsRoundTrip` | mgjson/mgjson.py:124 | the decimal digits of n read back as n |
| `Digits.NatDigitsLength` | mgjson/mgjson.py:273 | n fits in k digits exactly when n < 10^k |
| `Digits.PadLeftRoundTrip` | mgjson/mgjson.py:273 | leading zeros do not change the value read back |
| `Timestamps.Timestamp` | mgjson/mgjson.py:261-265 | succeeds exactly for offsets whose instant lies in the years 1..9999 |
| `Timestamps.FormatMillis` | mgjson/mgjson.py:263-264 | succeeds exactly when the day count lies in the window of the years 1..9999 |
| `Timestamps.TimestampShape` | mgjson/mgjson.py:265 | every timestamp is "YYYY-MM-DDTHH:MM:SS.mmmZ" |
| `Timestamps.Format` | mgjson/mgjson.py:265 | the `strftime` text of a date and millisecond of the day has the shape "DDDD-DD-DDTDD:DD:DD.DDDZ"; `FormatFields` and `FormatRoundTrip` read its fields back |
| `Timestamps.TimestampRoundTrip` | mgjson/mgjson.py:261-265 | reading a timestamp back gives the offset in whole milliseconds, rounded toward the past |
| `Timestamps.FormatRoundTrip` | mgjson/mgjson.py:265 | a formatted date and time of day reads back as its millisecond offset from the epoch |
| `Timestamps.FormatFields` | mgjson/mgjson.py:265 | the seven numeric fields of a formatted instant read back as year, month, day, hour, minute, second and millisecond |
| `Timestamps.ClockArithmetic` | mgjson/mgjson.py:265 | hours, minutes, seconds and milliseconds recombine to the millisecond of the day, and the hour is below 24 |
| `Timestamps.TimestampExamples` | mgjson/mgjson.py:286 | 0 s and 2.23 s become "1970-01-01T00:00:00.000Z" and "...02.230Z"; a sub-millisecond part is dropped |
| `Timestamps.EpochStart` | mgjson/mgjson.py:265 | 1970-01-01 at millisecond 0 is "1970-01-01T00:00:00.000Z" |
| `Timestamps.SampleSecondTwo` | mgjson/mgjson.py:265 | 1970-01-01 at millisecond 2230 is "1970-01-01T00:00:02.230Z" |
| `Calendar.CivilFromDays` | mgjson/mgjson.py:264 | the date n days after 1970-01-01 is valid and lies exactly n days after it |
| `Calendar.CivilFromCivil` | mgjson/mgjson.py:264 | converting a valid date to days and back gives the date |
| `Calendar.DaysFromCivilInjective` | mgjson/mgjson.py:264 | distinct dates lie at distinct day counts |
| `Calendar.EpochIsDayZero` | mgjson/mgjson.py:264 | 1970-01-01 is day 0 |
| `Calendar.YearWindow` | mgjson/mgjson.py:263-264 | the date of a day count is in the years 1..9999 exactly when the count lies in the window |
| `Calendar.YearLength` | mgjson/mgjson.py:264 | consecutive years start a year's length apart |
| `Calendar.YearStartsOrdered` | mgjson/mgjson.py:264 | year starts grow strictly with the year |
| `Calendar.DayOfYearBounds` | mgjson/mgjson.py:264 | a valid date falls inside its own year |

## Left out

- JSON text: `json.dumps(doc, default=vars, indent=4)` is not modelled. `Json` returns the document as a value.
- Class attributes: the `None` defaults and `interpolation = "hold"` on the classes are folded into the constructors.
- Floating point: times and values in the source are Python floats. Here a time is a whole number of microseconds, which is what a `timedelta` stores. A value is an integer scaled by 10^15. How a float is rounded into a `timedelta`, how `%f` rounds a float, and `-0.0`, NaN and infinity are not modelled.
- `NumberString.EncodeNumber`: a value with more than fifteen decimal digits cannot be represented. So the rounding of the fifteenth decimal is not modelled.
- `Timestamps.Format`: years below 1000 are padded to four digits. What `strftime('%Y')` prints for them depends on the C library.
- `Names.Capitalize`: only ASCII letters change case. Python's Unicode case mapping (title case for the first character, special cases such as 'ß') is not modelled.
- `Timestamps.Timestamp`: an out-of-range instant fails with `DateOutOfRange`. Python raises `OverflowError`, or an error from `timedelta` itself for offsets beyond its own range. Both end the call the same way, so they are one error here.
- `StaticData.ToStatic`: the source does `raise` of a plain string (mgjson/mgjson.py:95). That raises a `TypeError` instead of the intended message. Either way the call fails with nothing appended, and that is what is modelled.
- `DynamicData.EncodeStream`: a point in Python can be any indexable two-element sequence (a list or a tuple). A non-numeric value fails inside `max`, `min` or the format. Points here are pairs of numbers.
- The `if True` dispatch in `add_stream` (mgjson/mgjson.py:67-71) has one encoder in both branches. It is modelled as the single call.
- `interpolation`: any falsy value (`None`, `""`, `0`, `False`) becomes "hold". Only an absent or empty string is modelled.
- The `__main__` block (mgjson/mgjson.py:276-288) only prints. Its inputs are the subject of the `...Example` lemmas and of `DynamicData.StreamExample`.
- `StaticData.StaticNumber`: `str()` of an int with more than 4300 digits raises `ValueError` on CPython 3.11 and later, the default limit on integer-to-string conversion. So `add_property` fails there with nothing appended. The model treats `str(int)` as total: `StaticNumber` always succeeds, and `Document.MgJson.AddProperty` then passes for every int.
