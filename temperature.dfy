/**
 * Unit conversion between the controller's raw readings (integer tenths of
 * a degree Fahrenheit, sent as decimal text) and degrees Celsius with one
 * decimal, which this model writes as integer tenths of a degree Celsius.
 */
module Temperature {
  import opened Optional
  import Decimal

  /** A reading as `_formatTemperature` returns it. */
  datatype Temp =
    | Celsius(tenths: int)      // tenths / 10 degrees Celsius
    | OutsideModel(text: string) // text that is not an integer string

  function Pow10(p: nat): (r: nat)
    ensures r > 0
  {
    if p == 0 then 1 else 10 * Pow10(p - 1)
  }

  /**
   * `Math.round(num / den)`: the integer nearest to num / den, a half
   * rounded up (towards positive infinity).
   */
  function MathRound(num: int, den: int): (r: int)
    requires den > 0
    ensures den * (2 * r - 1) <= 2 * num < den * (2 * r + 1)
  {
    var q := (2 * num + den) / (2 * den);
    FloorDivision(2 * num + den, 2 * den);
    q
  }

  lemma FloorDivision(a: int, b: int)
    requires b > 0
    ensures b * (a / b) <= a < b * (a / b) + b
  {
  }

  /**
   * The helper `round(value, precision)`: `Math.round(value * 10^precision)
   * / 10^precision` for value = num / den. The result is returned in units
   * of 10^-precision, so it is the multiple of 10^-precision nearest to
   * num / den.
   */
  function Round(num: int, den: int, precision: nat): (r: int)
    requires den > 0
    ensures den * (2 * r - 1) <= 2 * num * Pow10(precision) < den * (2 * r + 1)
  {
    MathRound(num * Pow10(precision), den)
  }

  /**
   * `_formatTemperature` on an integer reading `raw` (tenths of a degree
   * Fahrenheit): Celsius = (raw / 10 - 32) * 5 / 9 = (raw - 320) * 5 / 90,
   * rounded to one decimal. The result, in tenths, is within 4/9 of a
   * tenth of the exact value: the exact value is never halfway between two
   * tenths, so no tie is ever rounded.
   */
  function CelsiusTenths(raw: int): (c: int)
    ensures -4 <= 9 * c - 5 * (raw - 320) <= 4
  {
    Round((raw - 320) * 5, 90, 1)
  }

  /**
   * The conversion in `setTargetTemperature` for value = c / 10 degrees
   * Celsius: Fahrenheit = value * 9 / 5 + 32 = (9c + 1600) / 50, and the
   * raw set point is `round(fahrenheit * 10, 0)`. The result is within
   * 2/5 of the exact tenths of a degree Fahrenheit: again never a tie.
   */
  function RawSetPoint(c: int): (raw: int)
    ensures -2 <= 5 * raw - (9 * c + 1600) <= 2
  {
    Round((9 * c + 1600) * 10, 50, 0)
  }

  /**
   * `_formatTemperature(input)`: a missing or empty attribute (`input || '0'`)
   * reads as "0"; an integer string is converted; other text is outside
   * this model.
   */
  function FormatTemperature(input: Option<string>): (t: Temp)
    ensures input.Some? && Decimal.ParseFloat(input.value).Some? ==>
              t == Celsius(CelsiusTenths(Decimal.ParseFloat(input.value).value))
    ensures input.Some? && input.value != "" && Decimal.ParseFloat(input.value).None? ==>
              t == OutsideModel(input.value)
  {
    var text := if input.None? || input.value == "" then "0" else input.value;
    match Decimal.ParseFloat(text)
    case Some(raw) => Celsius(CelsiusTenths(raw))
    case None => OutsideModel(text)
  }

  /** The converted reading is the one tenth of a degree Celsius nearest the raw value. */
  lemma CelsiusTenthsNearest(raw: int, c: int)
    requires -4 <= 9 * c - 5 * (raw - 320) <= 4
    ensures CelsiusTenths(raw) == c
  {
  }

  /** A missing sibling attribute reads as 0 tenths of a degree Fahrenheit: -17.8 degrees Celsius. */
  lemma MissingReadsAsZero()
    ensures FormatTemperature(None) == Celsius(-178)
    ensures FormatTemperature(Some("")) == Celsius(-178)
  {
    assert Decimal.ParseFloat("0") == Some(0);
  }

  /** A raw value written by `toString` reads back as the conversion of that value. */
  lemma FormatWritten(raw: int)
    ensures FormatTemperature(Some(Decimal.IntToString(raw))) == Celsius(CelsiusTenths(raw))
  {
    Decimal.ParseFloatToString(raw);
  }

  /** Converting a Celsius value to raw tenths of Fahrenheit and back gives the value. */
  lemma SetPointRoundTrip(c: int)
    ensures CelsiusTenths(RawSetPoint(c)) == c
  {
    CelsiusTenthsNearest(RawSetPoint(c), c);
  }

  /**
   * Write then read: the text `setTargetTemperature` sends for c / 10 degrees
   * Celsius, read back by `_formatTemperature`, is c / 10 degrees Celsius again.
   */
  lemma WriteReadRoundTrip(c: int)
    ensures FormatTemperature(Some(Decimal.IntToString(RawSetPoint(c)))) == Celsius(c)
  {
    FormatWritten(RawSetPoint(c));
    SetPointRoundTrip(c);
  }

  /**
   * Read then write: writing back a converted reading changes the raw value
   * by at most one tenth of a degree Fahrenheit, and reading that again
   * gives the same Celsius value.
   */
  lemma ReadWriteRead(raw: int)
    ensures -1 <= RawSetPoint(CelsiusTenths(raw)) - raw <= 1
    ensures CelsiusTenths(RawSetPoint(CelsiusTenths(raw))) == CelsiusTenths(raw)
  {
    SetPointRoundTrip(CelsiusTenths(raw));
  }

  /** 22.0 degrees Celsius is 71.6 degrees Fahrenheit, sent as 716. */
  lemma TwentyTwoDegrees()
    ensures RawSetPoint(220) == 716
    ensures Decimal.IntToString(RawSetPoint(220)) == "716"
  {
  }

  /**
   * Raw readings are tenths of a degree Fahrenheit: 215 is 21.5 degrees
   * Fahrenheit, -5.8 degrees Celsius, and 230 is -5.0.
   */
  lemma LowReadings()
    ensures CelsiusTenths(215) == -58 && CelsiusTenths(230) == -50
  {
    CelsiusTenthsNearest(215, -58);
    CelsiusTenthsNearest(230, -50);
  }
}
