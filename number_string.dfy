/** The mgjson NumberString: `f"{number:+020.15f}"`, a sign that is always
    written, an integer part zero-padded so that the whole field is at
    least 20 characters wide, a '.' and exactly fifteen fractional digits.

    A number is a fixed-point integer `x` standing for x / 10^15, the exact
    precision of the fifteen fractional digits, so the format itself never
    rounds. */
module NumberString {

  import opened Results
  import opened Digits

  /** 10^15: one unit of the integer part in fixed-point terms. */
  const Scale: nat := 1_000_000_000_000_000

  /** Width of the whole field and digits after the point in `%+020.15f`. */
  const FieldWidth: nat := 20
  const FractionDigits: nat := 15
  /** Integer digits left once the sign, the point and the fraction are placed. */
  const IntegerDigits: nat := FieldWidth - FractionDigits - 2

  function IntegerPart(x: int): nat { Abs(x) / Scale }

  function FractionPart(x: int): nat { Abs(x) % Scale }

  function SignChar(x: int): char { if x < 0 then '-' else '+' }

  /** `encode_number`: sign, zero-padded integer part, '.', 15 digits. */
  function EncodeNumber(x: int): (r: string)
    ensures |r| >= FieldWidth
    ensures r[0] == '-' <==> x < 0
    ensures r[0] == '+' <==> x >= 0
  {
    [SignChar(x)] + PadNat(IntegerPart(x), IntegerDigits) + "." + PadNat(FractionPart(x), FractionDigits)
  }

  /** The shape every NumberString has: a sign, at least three digits, a '.'
      and exactly fifteen digits. */
  predicate IsNumberString(r: string)
  {
    |r| >= FieldWidth && (r[0] == '+' || r[0] == '-') && r[|r| - 16] == '.'
    && AllDigits(r[1..|r| - 16]) && AllDigits(r[|r| - 15..])
  }

  /** Reads a NumberString back into fixed-point. */
  function DecodeNumber(r: string): (x: Option<int>)
  {
    if IsNumberString(r) then
      Some(if r[0] == '-' then -(Magnitude(r) as int) else Magnitude(r) as int)
    else None
  }

  /** The unsigned value of a NumberString: integer digits times 10^15 plus
      the fraction digits. */
  function Magnitude(r: string): nat
    requires IsNumberString(r)
  {
    DigitsValue(r[1..|r| - 16]) * Scale + DigitsValue(r[|r| - 15..])
  }

  /** The pieces of an encoding: where its integer field and its fraction
      field sit. */
  lemma EncodeParts(x: int)
    ensures var r := EncodeNumber(x);
      |r| == |PadNat(IntegerPart(x), 3)| + 17
      && r[0] == SignChar(x) && r[|r| - 16] == '.'
      && r[1..|r| - 16] == PadNat(IntegerPart(x), 3)
      && r[|r| - 15..] == PadNat(FractionPart(x), 15)
  {
    assert Pow10(15) == Scale;
    var ip := PadNat(IntegerPart(x), 3);
    var fp := PadNat(FractionPart(x), 15);
    assert |fp| == 15;
    var r := [SignChar(x)] + ip + "." + fp;
    assert r == EncodeNumber(x);
    assert r[1..|r| - 16] == ip;
    assert r[|r| - 15..] == fp;
  }

  /** Every encoding has the NumberString shape, and its sign is '-' exactly
      for negative numbers. */
  lemma EncodeShape(x: int)
    ensures IsNumberString(EncodeNumber(x))
    ensures EncodeNumber(x)[0] == '-' <==> x < 0
  {
    EncodeParts(x);
  }

  /** The field is 20 characters exactly when |x| < 1000; otherwise it grows
      to 17 plus the number of integer digits. */
  lemma EncodeLength(x: int)
    ensures |EncodeNumber(x)| == 17 + (if IntegerPart(x) < 1000 then 3 else |NatDigits(IntegerPart(x))|)
    ensures |EncodeNumber(x)| == FieldWidth <==> Abs(x) < 1000 * Scale
  {
    assert Pow10(3) == 1000;
    EncodeParts(x);
    NatDigitsLength(IntegerPart(x), 3);
  }

  /** Decoding an encoding gives back the number. */
  lemma DecodeEncode(x: int)
    ensures DecodeNumber(EncodeNumber(x)) == Some(x)
  {
    EncodeMagnitude(x);
  }

  /** The digits of an encoding spell the magnitude of the number. */
  lemma EncodeMagnitude(x: int)
    ensures IsNumberString(EncodeNumber(x)) && Magnitude(EncodeNumber(x)) == Abs(x)
  {
    EncodeParts(x);
    var r := EncodeNumber(x);
    assert DigitsValue(r[1..|r| - 16]) == IntegerPart(x);
    assert DigitsValue(r[|r| - 15..]) == FractionPart(x);
    SplitScale(Abs(x));
  }

  lemma SplitScale(a: nat)
    ensures (a / Scale) * Scale + a % Scale == a
  {
  }
}
