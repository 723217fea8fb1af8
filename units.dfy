/**
 * convertUnits: the table of length and area conversions the busbar form
 * uses to bring a cross-section to square metres, with the source's literal
 * factors.
 */
module Units {
  import opened Wrappers

  /** The eight units the source recognises. */
  datatype Unit = Mm | Cm | M | In | Mm2 | Cm2 | M2 | In2

  predicate IsLength(u: Unit) {
    u.Mm? || u.Cm? || u.M? || u.In?
  }

  /** Both units measure lengths, or both measure areas: the pairs for which
      the source assigns `outputValue`. */
  predicate SameFamily(a: Unit, b: Unit) {
    IsLength(a) == IsLength(b)
  }

  /** The string the source compares the unit argument with. */
  function Symbol(u: Unit): string {
    match u
    case Mm => "mm"
    case Cm => "cm"
    case M => "m"
    case In => "in"
    case Mm2 => "mm²"
    case Cm2 => "cm²"
    case M2 => "m²"
    case In2 => "in²"
  }

  /** The unit a string names, or None for a string none of the source's
      comparisons accepts. */
  function ParseUnit(s: string): (u: Option<Unit>)
    ensures u.Some? ==> Symbol(u.value) == s
  {
    if s == "mm" then Some(Mm)
    else if s == "cm" then Some(Cm)
    else if s == "m" then Some(M)
    else if s == "in" then Some(In)
    else if s == "mm²" then Some(Mm2)
    else if s == "cm²" then Some(Cm2)
    else if s == "m²" then Some(M2)
    else if s == "in²" then Some(In2)
    else None
  }

  /** Every unit is recognised by its own symbol, so the eight symbols are distinct. */
  lemma ParseSymbol(u: Unit)
    ensures ParseUnit(Symbol(u)) == Some(u)
  {
  }

  /** convertUnits(inputUnits, inputValue, outputUnits) as written, including
      the square-metre to square-centimetre case that divides. */
  function ConvertUnits(inputUnits: Unit, inputValue: real, outputUnits: Unit): (r: real)
    requires SameFamily(inputUnits, outputUnits)
    ensures inputUnits == outputUnits ==> r == inputValue
  {
    match inputUnits
    case Mm =>
      (match outputUnits
       case Mm => inputValue
       case Cm => inputValue / 10.0
       case M => inputValue / 1000.0
       case In => inputValue * 0.039370)
    case Cm =>
      (match outputUnits
       case Mm => inputValue * 10.0
       case Cm => inputValue
       case M => inputValue / 100.0
       case In => inputValue * 0.39370)
    case M =>
      (match outputUnits
       case Mm => inputValue * 1000.0
       case Cm => inputValue * 100.0
       case M => inputValue
       case In => inputValue * 39.370)
    case In =>
      (match outputUnits
       case Mm => inputValue / 0.039370
       case Cm => inputValue / 0.39370
       case M => inputValue / 39.370
       case In => inputValue)
    case Mm2 =>
      (match outputUnits
       case Mm2 => inputValue
       case Cm2 => inputValue / 100.0
       case M2 => inputValue / 1000000.0
       case In2 => inputValue / 645.16)
    case Cm2 =>
      (match outputUnits
       case Mm2 => inputValue * 100.0
       case Cm2 => inputValue
       case M2 => inputValue / 10000.0
       case In2 => inputValue / 6.4516)
    case M2 =>
      (match outputUnits
       case Mm2 => inputValue * 1000000.0
       case Cm2 => inputValue / 10000.0
       case M2 => inputValue
       case In2 => inputValue * 1550.0)
    case In2 =>
      (match outputUnits
       case Mm2 => inputValue * 645.16
       case Cm2 => inputValue * 6.4516
       case M2 => inputValue / 1550.0
       case In2 => inputValue)
  }

  /** Every defined conversion multiplies by a fixed positive factor: the
      value converted from one unit. */
  lemma ConvertScales(inputUnits: Unit, inputValue: real, outputUnits: Unit)
    requires SameFamily(inputUnits, outputUnits)
    ensures ConvertUnits(inputUnits, 1.0, outputUnits) > 0.0
    ensures ConvertUnits(inputUnits, inputValue, outputUnits)
         == inputValue * ConvertUnits(inputUnits, 1.0, outputUnits)
  {
  }

  /** Conversion is linear in the value. */
  lemma ConvertLinear(inputUnits: Unit, c: real, v: real, w: real, outputUnits: Unit)
    requires SameFamily(inputUnits, outputUnits)
    ensures ConvertUnits(inputUnits, c * v + w, outputUnits)
         == c * ConvertUnits(inputUnits, v, outputUnits) + ConvertUnits(inputUnits, w, outputUnits)
  {
    var k := ConvertUnits(inputUnits, 1.0, outputUnits);
    ConvertScales(inputUnits, c * v + w, outputUnits);
    ConvertScales(inputUnits, v, outputUnits);
    ConvertScales(inputUnits, w, outputUnits);
    assert (c * v + w) * k == c * (v * k) + w * k;
  }

  /** Conversion keeps the order of values, and so their signs. */
  lemma ConvertMonotonic(inputUnits: Unit, v: real, w: real, outputUnits: Unit)
    requires SameFamily(inputUnits, outputUnits)
    ensures v < w <==> ConvertUnits(inputUnits, v, outputUnits) < ConvertUnits(inputUnits, w, outputUnits)
    ensures v == w <==> ConvertUnits(inputUnits, v, outputUnits) == ConvertUnits(inputUnits, w, outputUnits)
    ensures ConvertUnits(inputUnits, 0.0, outputUnits) == 0.0
  {
    var k := ConvertUnits(inputUnits, 1.0, outputUnits);
    ConvertScales(inputUnits, v, outputUnits);
    ConvertScales(inputUnits, w, outputUnits);
    ConvertScales(inputUnits, 0.0, outputUnits);
    assert (w - v) * k == w * k - v * k;
    if v < w {
      assert (w - v) * k > 0.0;
    } else if w < v {
      assert (v - w) * k > 0.0;
    }
  }

  /** The pair whose two directions both divide by 10000. */
  predicate IsSquareMetreCentimetrePair(a: Unit, b: Unit) {
    (a == M2 && b == Cm2) || (a == Cm2 && b == M2)
  }

  /** Converting there and back returns the value, for every pair of units of
      one family except square metres and square centimetres. */
  lemma RoundTrip(a: Unit, v: real, b: Unit)
    requires SameFamily(a, b) && !IsSquareMetreCentimetrePair(a, b)
    ensures ConvertUnits(b, ConvertUnits(a, v, b), a) == v
  {
  }

  /** Between square metres and square centimetres the round trip divides
      the value by 10^8 instead of returning it. */
  lemma SquareMetreRoundTripShrinks(v: real)
    ensures ConvertUnits(Cm2, ConvertUnits(M2, v, Cm2), M2) == v / 100000000.0
    ensures ConvertUnits(M2, ConvertUnits(Cm2, v, M2), Cm2) == v / 100000000.0
  {
  }

  /** One square metre comes out as a ten-thousandth of a square centimetre,
      and the round trip does not come back to one square metre. */
  lemma SquareMetreToCentimetreAsWritten()
    ensures ConvertUnits(M2, 1.0, Cm2) == 0.0001
    ensures ConvertUnits(Cm2, ConvertUnits(M2, 1.0, Cm2), M2) != 1.0
  {
  }

  /** convertUnits with the square-metre to square-centimetre case multiplying
      by 10000, as the other three entries of that row scale up. */
  function ConvertUnitsCorrected(inputUnits: Unit, inputValue: real, outputUnits: Unit): (r: real)
    requires SameFamily(inputUnits, outputUnits)
    ensures !(inputUnits == M2 && outputUnits == Cm2) ==>
      r == ConvertUnits(inputUnits, inputValue, outputUnits)
  {
    if inputUnits == M2 && outputUnits == Cm2 then inputValue * 10000.0
    else ConvertUnits(inputUnits, inputValue, outputUnits)
  }

  /** With the correction every same-family round trip returns the value. */
  lemma CorrectedRoundTrip(a: Unit, v: real, b: Unit)
    requires SameFamily(a, b)
    ensures ConvertUnitsCorrected(b, ConvertUnitsCorrected(a, v, b), a) == v
  {
    if !IsSquareMetreCentimetrePair(a, b) {
      RoundTrip(a, v, b);
    }
  }

  /** The corrected table agrees with the metric factors: square centimetres
      reached directly or through square millimetres give the same value. */
  lemma CorrectedSquareCentimetresConsistent(v: real)
    ensures ConvertUnitsCorrected(M2, v, Cm2) == ConvertUnitsCorrected(Mm2, ConvertUnitsCorrected(M2, v, Mm2), Cm2)
    ensures ConvertUnits(M2, v, Cm2) != ConvertUnits(Mm2, ConvertUnits(M2, v, Mm2), Cm2) || v == 0.0
  {
  }

  /** The length factors are consistent: going through any third length unit
      gives the same value as converting directly. */
  lemma LengthTableTransitive(a: Unit, b: Unit, c: Unit, v: real)
    requires IsLength(a) && IsLength(b) && IsLength(c)
    ensures ConvertUnits(b, ConvertUnits(a, v, b), c) == ConvertUnits(a, v, c)
  {
  }

  /** The two square-inch factors, 645.16 mm² and 1/1550 m², do not agree:
      square millimetres to square metres directly and through square inches
      differ for every non-zero value. */
  lemma InchAreaFactorsDisagree(v: real)
    requires v != 0.0
    ensures ConvertUnits(In2, ConvertUnits(Mm2, v, In2), M2) != ConvertUnits(Mm2, v, M2)
  {
    assert ConvertUnits(In2, ConvertUnits(Mm2, v, In2), M2) == v / 999998.0;
  }

  /** The inch uses the legacy factor 0.039370 in/mm, not exactly 25.4 mm. */
  lemma InchIsLegacyFactor()
    ensures ConvertUnits(In, 1.0, Mm) == 1.0 / 0.039370
    ensures ConvertUnits(In, 1.0, Mm) != 25.4
    ensures ConvertUnits(In2, 1.0, Cm2) == 6.4516
  {
  }
}
