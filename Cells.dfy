/** Display cells of the summary table: a growth metric rendered as a
    two-decimal percentage, and the same text read back as a number. */
module Cells {
  import opened Wrappers
  import opened Numerals

  /** A metric value as the two-decimal format rounds it, counted in
      hundredths. `negative` is the sign character the format writes; Python
      keeps it for values that round to zero from below, so "-0.00" exists. */
  datatype Decimal = Decimal(negative: bool, hundredths: nat)

  /** The signed number of hundredths the decimal stands for. */
  function Value(d: Decimal): int {
    if d.negative then -(d.hundredths as int) else d.hundredths
  }

  /** The text `f"{x:.2f}%"` writes: sign, integer digits, '.', two digits, '%'. */
  function Render(d: Decimal): (s: string)
    ensures |s| >= 5 && s[|s| - 1] == '%' && s[|s| - 4] == '.'
    ensures s[0] == '-' <==> d.negative
  {
    var whole, frac := d.hundredths / 100, d.hundredths % 100;
    (if d.negative then "-" else "") + NatToDigits(whole) + "."
      + [DigitChar(frac / 10), DigitChar(frac % 10)] + "%"
  }

  /** One metric cell of the display table: "" for a missing value,
      the rendered percentage otherwise. */
  function FormatMetric(v: Option<Decimal>): (s: string)
    ensures s == "" <==> v.None?
  {
    match v
    case None => ""
    case Some(d) => Render(d)
  }

  /** The integer part of a cell with its sign character removed. */
  function Unsigned(body: string): string {
    if |body| > 0 && body[0] == '-' then body[1..] else body
  }

  /** Text of the shape the format produces, leading zeros allowed. */
  predicate WellFormed(s: string) {
    && |s| >= 5
    && s[|s| - 1] == '%'
    && s[|s| - 4] == '.'
    && IsDigit(s[|s| - 3]) && IsDigit(s[|s| - 2])
    && |Unsigned(s[..|s| - 4])| >= 1
    && AllDigits(Unsigned(s[..|s| - 4]))
  }

  /** What a metric cell may hold: empty, or a well-formed percentage. */
  predicate Displayable(s: string) {
    s == "" || WellFormed(s)
  }

  /** `float(val.strip('%'))` on a well-formed cell, in hundredths. */
  function Hundredths(s: string): (r: int)
    requires WellFormed(s)
    ensures r < 0 ==> s[0] == '-'
    ensures s[0] == '-' ==> r <= 0
  {
    var body := s[..|s| - 4];
    var magnitude := 100 * DigitsValue(Unsigned(body)) + 10 * DigitValue(s[|s| - 3]) + DigitValue(s[|s| - 2]);
    if |body| > 0 && body[0] == '-' then -magnitude else magnitude
  }

  /** Parsing what the formatter wrote gives back the rounded value, sign
      included, so "-0.00%" reads as zero. */
  lemma ParseRender(d: Decimal)
    ensures WellFormed(Render(d))
    ensures Hundredths(Render(d)) == Value(d)
  {
    var whole, frac := d.hundredths / 100, d.hundredths % 100;
    var sign := if d.negative then "-" else "";
    var w := NatToDigits(whole);
    var s := Render(d);
    assert s == sign + w + ['.', DigitChar(frac / 10), DigitChar(frac % 10), '%'];
    assert s[..|s| - 4] == sign + w;
    assert Unsigned(sign + w) == w by {
      if d.negative {
        assert (sign + w)[1..] == w;
      } else {
        assert sign + w == w;
      }
    }
    DigitsRoundTrip(whole);
  }

  /** Any cell produced by formatting is one the styling accepts. */
  lemma FormattedIsDisplayable(v: Option<Decimal>)
    ensures Displayable(FormatMetric(v))
  {
  }
}
