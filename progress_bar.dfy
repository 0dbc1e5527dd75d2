/** The progress bar's fill: `Math.min((value / max) * 100, 100)`, with `max` defaulting to 100. */
module ProgressBar {

  /** The JavaScript numbers the fill can take: a finite value, or what a division by zero gives. */
  datatype Percent = Finite(value: real) | NegativeInfinity | NotANumber

  const DefaultMax: real := 100.0

  /**
   * `Math.min((value / max) * 100, 100)`. Dividing by a zero `max` gives plus infinity (clamped
   * to 100), minus infinity, or NaN (which `Math.min` passes on), by the sign of `value`.
   */
  function Percentage(value: real, max: real): (p: Percent)
    ensures p.Finite? ==> p.value <= 100.0
    ensures p.NegativeInfinity? <==> max == 0.0 && value < 0.0
    ensures p.NotANumber? <==> max == 0.0 && value == 0.0
    ensures max == 0.0 && value > 0.0 ==> p == Finite(100.0)
  {
    if max == 0.0 then
      if value > 0.0 then Finite(100.0)
      else if value < 0.0 then NegativeInfinity
      else NotANumber
    else
      var scaled := value / max * 100.0;
      Finite(if scaled <= 100.0 then scaled else 100.0)
  }

  /** The fill never exceeds 100: it is the scaled value when that does not exceed 100, and 100 otherwise. */
  lemma PercentageAtMostHundred(value: real, max: real)
    requires max != 0.0
    ensures Percentage(value, max).Finite?
    ensures Percentage(value, max).value <= 100.0
    ensures value / max * 100.0 <= 100.0 <==> Percentage(value, max).value == value / max * 100.0
    ensures value / max * 100.0 > 100.0 ==> Percentage(value, max).value == 100.0
  {
  }

  /** A value at or beyond a positive maximum fills the bar. */
  lemma FullBar(value: real, max: real)
    requires 0.0 < max <= value
    ensures Percentage(value, max) == Finite(100.0)
  {
    assert value / max >= 1.0 by {
      assert value / max * max == value;
    }
  }

  /** With the default maximum the fill is the value itself, capped at 100. */
  lemma DefaultMaxIsValue(value: real)
    ensures Percentage(value, DefaultMax) == Finite(if value <= 100.0 then value else 100.0)
  {
    assert value / 100.0 * 100.0 == value;
  }

  /** There is no lower clamp: a negative value gives a negative fill. */
  lemma NegativeValueNegativeFill(value: real, max: real)
    requires value < 0.0 < max
    ensures Percentage(value, max).Finite? && Percentage(value, max).value < 0.0
  {
    assert value / max < 0.0 by {
      assert value / max * max == value;
    }
  }
}
