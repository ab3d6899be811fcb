/** The fixed-width text formats both renderers use: `%.2f` for a percentage
    and `%-50s %15s %15s` for a table row, both with `Locale.US`. */
module TableFormat {
  import opened Strings

  const ClassColumnWidth: nat := 50
  const CoverageColumnWidth: nat := 15
  const Title: string := "JaCoCo Coverage Report"

  /** The percentage in hundredths, rounded half away from zero (`RoundingMode.HALF_UP`). */
  function RoundHundredths(p: real): (h: int)
    ensures p >= 0.0 ==> h >= 0 && (h as real) - 0.5 <= p * 100.0 < (h as real) + 0.5
    ensures p < 0.0 ==> h <= 0 && (h as real) - 0.5 < p * 100.0 <= (h as real) + 0.5
  {
    if p >= 0.0 then (p * 100.0 + 0.5).Floor else -((-p * 100.0 + 0.5).Floor)
  }

  /** `String.format(Locale.US, "%.2f", p)`: integer digits, a period, two decimals. */
  function FormatPercent(p: real): string {
    var h := RoundHundredths(p);
    FormatHundredths(p < 0.0, if h < 0 then -h else h)
  }

  /** `a` hundredths as digits, a period and two decimals, after a minus sign if `negative`. */
  function FormatHundredths(negative: bool, a: nat): string {
    (if negative then "-" else "") + NatToString(a / 100) + "." + [DigitChar(a % 100 / 10), DigitChar(a % 10)]
  }

  lemma HundredthsShape(negative: bool, a: nat)
    ensures var r := FormatHundredths(negative, a);
      && |r| >= 4 && r[|r| - 3] == '.'
      && AllDigits(r[|r| - 2..])
      && (!negative ==> AllDigits(r[..|r| - 3]) && DigitsValue(r[..|r| - 3]) * 100 + DigitsValue(r[|r| - 2..]) == a)
      && (negative ==> |r| >= 5 && r[0] == '-' && AllDigits(r[1..|r| - 3])
                       && DigitsValue(r[1..|r| - 3]) * 100 + DigitsValue(r[|r| - 2..]) == a)
      && (a <= 10000 && !negative ==> |r| <= 6)
  {
    var whole := NatToString(a / 100);
    var frac := [DigitChar(a % 100 / 10), DigitChar(a % 10)];
    var r := (if negative then "-" else "") + whole + "." + frac;
    DigitsValueOfNatToString(a / 100);
    assert frac[..1] == [DigitChar(a % 100 / 10)] && [DigitChar(a % 100 / 10)][..0] == [];
    assert DigitsValue(frac[..1]) == a % 100 / 10;
    assert a % 10 == (a % 100) % 10;
    assert DigitsValue(frac) == a % 100;
    NatToStringLength(a / 100);
    assert !negative ==> r[..|r| - 3] == whole;
    assert negative ==> r[1..|r| - 3] == whole;
    assert r[|r| - 2..] == frac;
  }

  /** The text of `FormatPercent` reads back as the rounded hundredths: a negative
      percentage has a minus sign, then the digits of the rounded magnitude (so one
      that rounds to zero prints `-0.00`); a percentage between 0 and 100 takes at
      most six characters. */
  lemma FormatPercentShape(p: real)
    ensures var r := FormatPercent(p);
      && |r| >= 4 && r[|r| - 3] == '.'
      && AllDigits(r[|r| - 2..])
      && (p >= 0.0 ==>
           AllDigits(r[..|r| - 3]) && DigitsValue(r[..|r| - 3]) * 100 + DigitsValue(r[|r| - 2..]) == RoundHundredths(p))
      && (p < 0.0 ==>
           |r| >= 5 && r[0] == '-' && AllDigits(r[1..|r| - 3])
           && DigitsValue(r[1..|r| - 3]) * 100 + DigitsValue(r[|r| - 2..]) == -RoundHundredths(p))
      && (0.0 <= p <= 100.0 ==> |r| <= 6)
  {
    var h := RoundHundredths(p);
    HundredthsShape(p < 0.0, if h < 0 then -h else h);
  }

  lemma {:induction false} NatToStringLength(n: nat)
    ensures n < 10 ==> |NatToString(n)| == 1
    ensures n < 100 ==> |NatToString(n)| <= 2
    ensures n <= 100 ==> |NatToString(n)| <= 3
  {
    if n >= 10 { NatToStringLength(n / 10); }
  }

  /** `String.format(Locale.US, "%-50s %15s %15s", name, a, b)`: the name left-justified
      to 50 columns, then each value right-justified to 15, one space between; nothing is cut. */
  function FormatRow(name: string, a: string, b: string): string {
    PadRight(name, ClassColumnWidth) + " " + PadLeft(a, CoverageColumnWidth) + " " + PadLeft(b, CoverageColumnWidth)
  }

  lemma FormatRowShape(name: string, a: string, b: string)
    ensures StartsWith(FormatRow(name, a, b), name) && EndsWith(FormatRow(name, a, b), b)
    ensures |FormatRow(name, a, b)| == (if |name| < 50 then 50 else |name|) + 1
                 + (if |a| < 15 then 15 else |a|) + 1 + (if |b| < 15 then 15 else |b|)
    ensures |name| <= 50 && |a| <= 15 && |b| <= 15 ==>
      var r := FormatRow(name, a, b);
      |r| == 82 && r[50] == ' ' && r[66] == ' ' && EndsWith(r[..66], a)
      && (forall i :: |name| <= i < 50 ==> r[i] == ' ')
  {
    var left := PadRight(name, ClassColumnWidth);
    var mid := PadLeft(a, CoverageColumnWidth);
    var right := PadLeft(b, CoverageColumnWidth);
    assert FormatRow(name, a, b) == left + " " + mid + " " + right;
    RowShape(name, a, b, left, mid, right);
  }

  lemma RowShape(name: string, a: string, b: string, left: string, mid: string, right: string)
    requires |left| == (if |name| < 50 then 50 else |name|) && left[..|name|] == name
    requires forall i :: |name| <= i < |left| ==> left[i] == ' '
    requires |mid| == (if |a| < 15 then 15 else |a|) && mid[|mid| - |a|..] == a
    requires |right| == (if |b| < 15 then 15 else |b|) && right[|right| - |b|..] == b
    ensures var r := left + " " + mid + " " + right;
      && StartsWith(r, name) && EndsWith(r, b)
      && (|name| <= 50 && |a| <= 15 && |b| <= 15 ==>
        |r| == 82 && r[50] == ' ' && r[66] == ' ' && EndsWith(r[..66], a)
        && (forall i :: |name| <= i < 50 ==> r[i] == ' '))
  {
    var lm := left + " " + mid;
    var r := lm + " " + right;
    assert r[..|left|] == left;
    assert r[..|name|] == left[..|name|];
    assert r[|r| - |b|..] == right[|right| - |b|..];
    if |name| <= 50 && |a| <= 15 && |b| <= 15 {
      assert r[..66] == lm;
      assert lm[66 - |a|..] == mid[15 - |a|..];
      forall i | |name| <= i < 50 ensures r[i] == ' ' {
        assert r[i] == left[i];
      }
    }
  }

  /** A border line: `c` repeated `width` times. */
  function Border(c: char, width: nat): (r: string)
    ensures |r| == width && forall i :: 0 <= i < width ==> r[i] == c
  {
    Repeat(c, width)
  }
}
