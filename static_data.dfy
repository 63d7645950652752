/** Static properties: `StaticMGJsonData` and its `StaticMGJsonNumber` and
    `StaticMGJsonString` refinements, as one builder per kind of value, and
    the type dispatch of `MgJSON.add_property`. */
module StaticData {

  import opened Results
  import opened Digits
  import opened Names
  import opened Schema

  /** A Python value handed to `add_property`: exactly an int, a bool or a
      str, or a value of any other type (a float, a list, an int subclass),
      named by its type. */
  datatype Value = IntValue(i: int) | BoolValue(b: bool) | StrValue(s: string) | OtherValue(typeName: string)

  const StaticObjectType: string := "dataStatic"

  /** `DATATYPES_MAP`: the schema type tag of each allowed value type. */
  function TypeTag(v: Static): (tag: string)
    ensures tag == "number" <==> v.Int?
    ensures tag == "boolean" <==> v.Bool?
    ensures tag == "string" <==> v.Str?
  {
    match v
    case Int(_) => "number"
    case Bool(_) => "boolean"
    case Str(_) => "string"
  }

  /** The `ALLOWED_STATIC_DATATYPES` check: only an exact int, bool or str
      passes; anything else is an unsupported type. */
  function ToStatic(v: Value): (r: Result<Static>)
    ensures r.Err? <==> v.OtherValue?
    ensures r.Err? ==> r.error == UnsupportedType(v.typeName)
    ensures v.IntValue? ==> r == Ok(Int(v.i))
    ensures v.BoolValue? ==> r == Ok(Bool(v.b))
    ensures v.StrValue? ==> r == Ok(Str(v.s))
  {
    match v
    case IntValue(i) => Ok(Int(i))
    case BoolValue(b) => Ok(Bool(b))
    case StrValue(s) => Ok(Str(s))
    case OtherValue(t) => Err(UnsupportedType(t))
  }

  /** `StaticMGJsonData`: the outline every static property starts from,
      holding only the type tag; a boolean gets no more than this. */
  function StaticBase(name: string, v: Static, displayName: Option<string>): (o: Outline)
    ensures o.StaticOutline? && o.objectType == "dataStatic"
    ensures o.matchName == name && o.value == v && o.displayName == DisplayName(name, displayName)
    ensures o.dataType.typeName == TypeTag(v)
    ensures o.dataType.numberStringProperties.None? && o.dataType.paddedStringProperties.None?
    ensures v.Bool? ==> DescribesValue(o)
  {
    StaticOutline(StaticObjectType, DisplayName(name, displayName), DataType(TypeTag(v), None, None), name, v)
  }

  /** `StaticMGJsonNumber`: `digitsInteger` is `len(str(value))`, which
      counts the '-' of a negative number; the occurring range is the value
      itself and the legal range is the fixed one, whatever the value. */
  function StaticNumber(name: string, i: int, displayName: Option<string>): (o: Outline)
    ensures DescribesValue(o) && o.value == Int(i)
    ensures o.matchName == name && o.displayName == DisplayName(name, displayName)
  {
    var pattern := Pattern(true, |IntToString(i)|, 0);
    var range := Range(Integer(i), Integer(i), LegalMin, LegalMax);
    var base := StaticBase(name, Int(i), displayName);
    StaticOutline(base.objectType, base.displayName,
      base.dataType.(numberStringProperties := Some(NumberStringProperties(pattern, range))), base.matchName, base.value)
  }

  /** `StaticMGJsonString`: `maxLen` is the length of the string. */
  function StaticString(name: string, s: string, displayName: Option<string>): (o: Outline)
    ensures DescribesValue(o) && o.value == Str(s)
    ensures o.matchName == name && o.displayName == DisplayName(name, displayName)
  {
    var base := StaticBase(name, Str(s), displayName);
    StaticOutline(base.objectType, base.displayName,
      base.dataType.(paddedStringProperties := Some(PaddedStringProperties(|s|, 2, false))), base.matchName, base.value)
  }

  /** The outline `add_property` appends: the encoder is chosen on the exact
      type of the value, and an unsupported type fails. */
  function EncodeProperty(name: string, value: Value, displayName: Option<string>): (r: Result<Outline>)
    ensures r.Err? <==> value.OtherValue?
    ensures r.Err? ==> r.error == UnsupportedType(value.typeName)
    ensures r.Ok? ==> r.value.StaticOutline? && r.value.matchName == name
    ensures r.Ok? ==> Ok(r.value.value) == ToStatic(value)
  {
    match ToStatic(value)
    case Err(e) => Err(e)
    case Ok(Int(i)) => Ok(StaticNumber(name, i, displayName))
    case Ok(Str(s)) => Ok(StaticString(name, s, displayName))
    case Ok(Bool(b)) => Ok(StaticBase(name, Bool(b), displayName))
  }

  /** What the schema asks of a static outline, stated on its own: the tag
      names the value's type, a number carries a signed integer pattern wide
      enough to print the value and an occurring range that is the value, a
      string carries its length, and a boolean carries nothing more. */
  predicate DescribesValue(o: Outline)
  {
    o.StaticOutline? && o.objectType == "dataStatic" &&
    match o.value
    case Int(i) =>
      o.dataType.typeName == "number" && o.dataType.paddedStringProperties.None?
      && o.dataType.numberStringProperties.Some?
      && var p := o.dataType.numberStringProperties.value;
      p.pattern.isSigned && p.pattern.digitsDecimal == 0
      && p.pattern.digitsInteger == |NatDigits(Abs(i))| + (if i < 0 then 1 else 0)
      && p.range.occuringMin == Integer(i) && p.range.occuringMax == Integer(i)
      && p.range.legalMin == LegalMin && p.range.legalMax == LegalMax
    case Str(s) =>
      o.dataType.typeName == "string" && o.dataType.numberStringProperties.None?
      && o.dataType.paddedStringProperties == Some(PaddedStringProperties(|s|, 2, false))
    case Bool(_) =>
      o.dataType == DataType("boolean", None, None)
  }

  /** Every property `add_property` accepts is described as the schema asks,
      under the given display name or else the capitalized name, and carries
      the value it was given. */
  lemma EncodePropertyDescribes(name: string, value: Value, displayName: Option<string>)
    requires !value.OtherValue?
    ensures EncodeProperty(name, value, displayName).Ok?
    ensures var o := EncodeProperty(name, value, displayName).value;
      DescribesValue(o) && o.matchName == name
      && o.displayName == (if displayName.Some? then displayName.value else Capitalize(name))
      && ToStatic(value) == Ok(o.value)
  {
  }

  /** The number of integer digits in the pattern is `len(str(value))`,
      and that text reads back as the value. */
  lemma DigitsIntegerIsPrintedWidth(name: string, i: int, displayName: Option<string>)
    ensures var o := StaticNumber(name, i, displayName);
      o.dataType.numberStringProperties.Some?
      && o.dataType.numberStringProperties.value.pattern.digitsInteger == |IntToString(i)|
      && ParseInt(IntToString(i)) == Some(i)
  {
    IntToStringRoundTrip(i);
  }

  /** The sample number property: one integer digit, an occurring range
      of exactly 3, and the capitalized name. */
  lemma NumberExample()
    ensures var o := EncodeProperty("numberOfCats", IntValue(3), None).value;
      o.displayName == "Numberofcats" && o.dataType.typeName == "number"
      && o.dataType.numberStringProperties.value.pattern == Pattern(true, 1, 0)
      && o.dataType.numberStringProperties.value.range.occuringMin == Integer(3)
      && o.dataType.numberStringProperties.value.range.occuringMax == Integer(3)
  {
    CapitalizeExample();
  }

  /** The '-' of a negative number counts as an integer digit. */
  lemma NegativeNumberExample()
    ensures EncodeProperty("delta", IntValue(-42), None).value.dataType.numberStringProperties.value.pattern
      == Pattern(true, 3, 0)
  {
  }

  /** The sample boolean property. */
  lemma BooleanExample()
    ensures EncodeProperty("isItTrue", BoolValue(false), None).value.dataType == DataType("boolean", None, None)
  {
  }

  /** The sample string property: its maxLen is the length of the text, 23. */
  lemma StringExample()
    ensures EncodeProperty("title", StrValue("A new adventure awaits!"), None).value.dataType.paddedStringProperties
      == Some(PaddedStringProperties(23, 2, false))
  {
  }

  /** A float is refused. */
  lemma FloatExample()
    ensures EncodeProperty("ratio", OtherValue("float"), None) == Err(UnsupportedType("float"))
  {
  }

  /** The legal range is written without looking at the value: a value
      beyond it still encodes, and its outline then claims an occurring
      value outside its own legal range. */
  lemma LegalRangeNotChecked()
    ensures var o := EncodeProperty("big", IntValue(LegalMax + 1), None);
      o.Ok? && o.value.dataType.numberStringProperties.value.range.occuringMax == Integer(LegalMax + 1)
      && o.value.dataType.numberStringProperties.value.range.legalMax == LegalMax
  {
  }
}
