/**
 * The delivery-radius input: a text field holding what the user typed, and
 * the values it reports through `onChange`, recorded here as a log. Typing
 * forwards only numbers within `[min, max]`; leaving the field clamps its
 * text into that range; the range slider forwards whatever it reads.
 */
module DistanceInput {
  import opened Wrappers
  import opened Numbers

  /** The default bounds and step of the input. */
  const DefaultMin: real := 1.0
  const DefaultMax: real := 100.0
  const DefaultStep: real := 1.0

  /** What leaving the field does: the value its text is set to, and whether that value is reported. */
  datatype BlurOutcome = BlurOutcome(value: real, report: bool)

  /** Whether typing `parsed` forwards it: it is a number within `[min, max]`. */
  predicate Accepted(parsed: Option<real>, min: real, max: real)
  {
    parsed.Some? && min <= parsed.value <= max
  }

  /**
   * The blur rule on the parsed text: NaN or below `min` becomes `min`,
   * above `max` becomes `max`, both reported; a value in range is kept and
   * not reported.
   */
  function Blur(parsed: Option<real>, min: real, max: real): (o: BlurOutcome)
    ensures min <= max ==> min <= o.value <= max
    ensures o.report <==> !Accepted(parsed, min, max)
    ensures Accepted(parsed, min, max) ==> o.value == parsed.value
    ensures parsed.None? || parsed.value < min ==> o == BlurOutcome(min, true)
    ensures parsed.Some? && min <= parsed.value && parsed.value > max ==> o == BlurOutcome(max, true)
  {
    if parsed.None? || parsed.value < min then BlurOutcome(min, true)
    else if parsed.value > max then BlurOutcome(max, true)
    else BlurOutcome(parsed.value, false)
  }

  /** With `min <= max`, the blurred value is the point of `[min, max]` nearest a parsed number. */
  lemma BlurIsNearest(v: real, min: real, max: real, y: real)
    requires min <= max
    requires min <= y <= max
    ensures Dist(Blur(Some(v), min, max).value, v) <= Dist(y, v)
  {
  }

  /** The distance between two reals. */
  function Dist(a: real, b: real): real
  {
    if a <= b then b - a else a - b
  }

  /** Blurring a value that blur produced keeps it and reports nothing. */
  lemma BlurIdempotent(parsed: Option<real>, min: real, max: real)
    requires min <= max
    ensures Blur(Some(Blur(parsed, min, max).value), min, max) == BlurOutcome(Blur(parsed, min, max).value, false)
  {
  }

  /** The component's state: the text field and every value reported so far. */
  class DistanceField {
    const min: real
    const max: real
    const step: real
    const parse: NumberParser
    const show: NumberPrinter
    var inputValue: string
    var reported: seq<Option<real>>

    /** Every value reported so far lies in `[min, max]`. */
    predicate ReportedInRange()
      reads this
    {
      forall k :: 0 <= k < |reported| ==> Accepted(reported[k], min, max)
    }

    /** Rendering with the `value` prop: the text starts as that value printed, nothing reported. */
    constructor (value: real, min: real, max: real, step: real, parse: NumberParser, show: NumberPrinter)
      ensures this.min == min && this.max == max && this.step == step
      ensures this.parse == parse && this.show == show
      ensures inputValue == show(value) && reported == []
      ensures ReportedInRange()
    {
      this.min, this.max, this.step := min, max, step;
      this.parse, this.show := parse, show;
      inputValue := show(value);
      reported := [];
    }

    /** Rendering with the `value` prop and the default bounds and step. */
    constructor WithDefaults(value: real, parse: NumberParser, show: NumberPrinter)
      ensures min == DefaultMin && max == DefaultMax && step == DefaultStep
      ensures this.parse == parse && this.show == show
      ensures inputValue == show(value) && reported == []
      ensures ReportedInRange()
    {
      min, max, step := DefaultMin, DefaultMax, DefaultStep;
      this.parse, this.show := parse, show;
      inputValue := show(value);
      reported := [];
    }

    /**
     * `handleChange`: the text becomes exactly what was typed, and the typed
     * value is reported exactly when it is a number within `[min, max]`.
     */
    method HandleChange(text: string)
      modifies this
      ensures inputValue == text
      ensures Accepted(parse(text), min, max) ==> reported == old(reported) + [parse(text)]
      ensures !Accepted(parse(text), min, max) ==> reported == old(reported)
      ensures old(ReportedInRange()) ==> ReportedInRange()
    {
      inputValue := text;
      var numValue := parse(text);
      if numValue.Some? && numValue.value >= min && numValue.value <= max {
        reported := reported + [numValue];
      }
    }

    /**
     * `handleBlur`: the text is replaced by the blurred value printed, and that
     * value is reported when the old text was NaN or out of range.
     */
    method HandleBlur()
      modifies this
      ensures var o := Blur(parse(old(inputValue)), min, max);
              inputValue == show(o.value)
              && reported == old(reported) + (if o.report then [Some(o.value)] else [])
      ensures min <= max && old(ReportedInRange()) ==> ReportedInRange()
    {
      var numValue := parse(inputValue);
      if numValue.None? || numValue.value < min {
        inputValue := show(min);
        reported := reported + [Some(min)];
      } else if numValue.value > max {
        inputValue := show(max);
        reported := reported + [Some(max)];
      } else {
        inputValue := show(numValue.value);
      }
    }

    /**
     * `handleRangeChange`: the slider's reading, NaN included, is printed into
     * the text and reported without any range check.
     */
    method HandleRangeChange(raw: string)
      modifies this
      ensures inputValue == (if parse(raw).Some? then show(parse(raw).value) else NaNText)
      ensures reported == old(reported) + [parse(raw)]
    {
      var newValue := parse(raw);
      inputValue := if newValue.Some? then show(newValue.value) else NaNText;
      reported := reported + [newValue];
    }
  }
}
