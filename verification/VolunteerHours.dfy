/** Minutes shown as hours (`formatVolunteerHours` in src/lib/config.ts), with exact division. */
module VolunteerHours {
  import opened Decimal

  /** `toFixed(2)` of minutes / 60, in hundredths of an hour. */
  function Hundredths(minutes: nat): nat {
    (10 * minutes + 3) / 6
  }

  /** `replace(/0+$/, '')`. */
  function StripZeros(s: string): string {
    if s != "" && s[|s| - 1] == '0' then StripZeros(s[..|s| - 1]) else s
  }

  function ToFixed2(hundredths: nat): string {
    Digits(hundredths / 100) + "." + [DigitChar(hundredths / 10 % 10), DigitChar(hundredths % 10)]
  }

  function Rendered(minutes: nat): string {
    if minutes % 60 == 0 then Digits(minutes / 60) else StripZeros(ToFixed2(Hundredths(minutes)))
  }

  /** The test on hours is the source's own, on the exact quotient. */
  function Unit(minutes: nat): string {
    if minutes as real / 60.0 == 1.0 then "hr" else "hrs"
  }

  function Format(minutes: nat): string {
    Rendered(minutes) + " " + Unit(minutes)
  }

  /** The hundredths are the nearest to the quotient. */
  lemma HundredthsAreNearest(minutes: nat)
    ensures -30 < 60 * Hundredths(minutes) - 100 * minutes < 30
  {
    var q := Hundredths(minutes);
    assert 6 * q <= 10 * minutes + 3 <= 6 * q + 5;
    assert 2 * (3 * q) != 2 * (5 * minutes + 1) + 1;
  }

  // --- Reading the text back -----------------------------------------------

  function BeforeFirst(s: string, c: char): string {
    if s == "" || s[0] == c then "" else [s[0]] + BeforeFirst(s[1..], c)
  }

  function AfterFirst(s: string, c: char): string {
    if s == "" then "" else if s[0] == c then s[1..] else AfterFirst(s[1..], c)
  }

  lemma {:induction false} SplitAtFirst(a: string, c: char, b: string)
    requires c !in a
    ensures BeforeFirst(a + [c] + b, c) == a && AfterFirst(a + [c] + b, c) == b
    ensures BeforeFirst(a, c) == a && AfterFirst(a, c) == ""
  {
    if a == "" {
    } else {
      SplitAtFirst(a[1..], c, b);
      assert (a + [c] + b)[1..] == a[1..] + [c] + b;
      assert [a[0]] + a[1..] == a;
    }
  }

  function NumeralOr0(s: string): nat {
    if IsNumeral(s) then Value(s) else 0
  }

  /** The fraction digits as hundredths. */
  function FractionHundredths(fraction: string): nat {
    if |fraction| == 1 then 10 * NumeralOr0(fraction) else NumeralOr0(fraction)
  }

  /** The minutes a displayed text stands for: whole hours, and the nearest minute to the fraction. */
  function MinutesOf(text: string): nat {
    var number := BeforeFirst(text, ' ');
    60 * NumeralOr0(BeforeFirst(number, '.')) + (6 * FractionHundredths(AfterFirst(number, '.')) + 5) / 10
  }

  lemma DigitsOfHundredths(hours: nat, f: nat)
    requires f < 100
    ensures var h := 100 * hours + f; h / 100 == hours && h / 10 % 10 == f / 10 && h % 10 == f % 10
  {
    assert (100 * hours + f) / 10 == 10 * hours + f / 10;
  }

  /** Away from whole hours the hundredths never round to a whole hour, and they round back to the minutes. */
  lemma HundredthsRoundBack(hours: nat, rest: nat)
    requires 0 < rest < 60
    ensures var f := (10 * rest + 3) / 6;
      Hundredths(60 * hours + rest) == 100 * hours + f && 0 < f < 100 && (6 * f + 5) / 10 == rest
  {
    assert (10 * (60 * hours + rest) + 3) / 6 == 100 * hours + (10 * rest + 3) / 6;
  }

  /** The fraction shown for some hundredths of an hour. */
  function FractionText(hundredths: nat): string
    requires hundredths < 100
  {
    var tens, ones := hundredths / 10, hundredths % 10;
    if ones == 0 then [DigitChar(tens)] else [DigitChar(tens), DigitChar(ones)]
  }

  /** Only fraction zeros are stripped: one or two fraction digits remain. */
  lemma StrippedFraction(whole: string, f: nat)
    requires 0 < f < 100
    ensures StripZeros(whole + "." + [DigitChar(f / 10), DigitChar(f % 10)]) == whole + "." + FractionText(f)
  {
    var s := whole + "." + [DigitChar(f / 10), DigitChar(f % 10)];
    if f % 10 == 0 {
      assert s[..|s| - 1] == whole + "." + [DigitChar(f / 10)];
    }
  }

  lemma DigitsHaveNo(n: nat, c: char)
    requires !IsDigit(c)
    ensures c !in Digits(n)
  {
  }

  lemma FractionReadsBack(hundredths: nat)
    requires 0 < hundredths < 100
    ensures var text := FractionText(hundredths);
      1 <= |text| <= 2 && IsNumeral(text) && text[|text| - 1] != '0' && FractionHundredths(text) == hundredths
  {
    var text := FractionText(hundredths);
    if |text| == 2 {
      assert text[..1] == [text[0]];
      assert Value([text[0]]) == hundredths / 10;
    }
  }

  lemma FixedText(hours: nat, f: nat)
    requires f < 100
    ensures ToFixed2(100 * hours + f) == Digits(hours) + "." + [DigitChar(f / 10), DigitChar(f % 10)]
  {
    DigitsOfHundredths(hours, f);
  }

  lemma RenderedHundredths(minutes: nat, text: string)
    requires minutes % 60 != 0 && ToFixed2(Hundredths(minutes)) == text
    ensures Rendered(minutes) == StripZeros(text)
  {
  }

  /** Apart from whole hours the text is the hours, a point and the fraction without closing zeros. */
  lemma RenderedShape(minutes: nat, hours: nat, f: nat)
    requires minutes % 60 != 0 && 0 < f < 100 && Hundredths(minutes) == 100 * hours + f
    ensures Rendered(minutes) == Digits(hours) + "." + FractionText(f)
  {
    FixedText(hours, f);
    RenderedHundredths(minutes, Digits(hours) + "." + [DigitChar(f / 10), DigitChar(f % 10)]);
    StrippedFraction(Digits(hours), f);
  }

  /** Minutes past the hour as hundredths: never none and never a whole hour. */
  lemma PastTheHour(minutes: nat) returns (f: nat)
    requires minutes % 60 != 0
    ensures 0 < f < 100 && Hundredths(minutes) == 100 * (minutes / 60) + f && (6 * f + 5) / 10 == minutes % 60
  {
    var hours, rest := minutes / 60, minutes % 60;
    assert minutes == 60 * hours + rest;
    f := (10 * rest + 3) / 6;
    HundredthsRoundBack(hours, rest);
  }

  /** The displayed number never ends in a dangling point, nor its fraction in a zero. */
  lemma NoDanglingPoint(minutes: nat)
    ensures Rendered(minutes) != "" && Rendered(minutes)[|Rendered(minutes)| - 1] != '.'
    ensures minutes % 60 != 0 ==> Rendered(minutes)[|Rendered(minutes)| - 1] != '0'
  {
    if minutes % 60 == 0 {
      DigitsHaveNo(minutes / 60, '.');
    } else {
      var f := PastTheHour(minutes);
      RenderedShape(minutes, minutes / 60, f);
      FractionReadsBack(f);
    }
  }

  lemma WholeHoursReadBack(hours: nat, unit: string)
    ensures MinutesOf(Digits(hours) + [' '] + unit) == 60 * hours
  {
    var whole := Digits(hours);
    DigitsHaveNo(hours, '.');
    DigitsHaveNo(hours, ' ');
    SplitAtFirst(whole, ' ', unit);
    SplitAtFirst(whole, '.', "");
    ValueOfDigits(hours);
  }

  lemma FractionOfHourReadsBack(hours: nat, fraction: string, unit: string)
    requires IsNumeral(fraction)
    ensures MinutesOf(Digits(hours) + "." + fraction + [' '] + unit)
      == 60 * hours + (6 * FractionHundredths(fraction) + 5) / 10
  {
    var number := Digits(hours) + "." + fraction;
    DigitsHaveNo(hours, '.');
    DigitsHaveNo(hours, ' ');
    SplitAtFirst(number, ' ', unit);
    SplitAtFirst(Digits(hours), '.', fraction);
    assert "." == ['.'];
    ValueOfDigits(hours);
  }

  /** The minutes can be recovered from the displayed text. */
  lemma MinutesOfFormat(minutes: nat)
    ensures MinutesOf(Format(minutes)) == minutes
  {
    var hours, unit := minutes / 60, Unit(minutes);
    assert Format(minutes) == Rendered(minutes) + [' '] + unit;
    if minutes % 60 == 0 {
      WholeHoursReadBack(hours, unit);
    } else {
      var f := PastTheHour(minutes);
      RenderedShape(minutes, hours, f);
      FractionReadsBack(f);
      FractionOfHourReadsBack(hours, FractionText(f), unit);
    }
  }

  /** Different minutes are shown differently. */
  lemma FormatIsInjective(a: nat, b: nat)
    ensures Format(a) == Format(b) <==> a == b
  {
    MinutesOfFormat(a);
    MinutesOfFormat(b);
  }

  /** The singular unit stands beside the number 1 and beside no other: the text never reads "1 hrs", nor "1.5 hr". */
  lemma UnitAgreesWithNumber(minutes: nat)
    ensures Unit(minutes) in {"hr", "hrs"}
    ensures Unit(minutes) == "hr" <==> Rendered(minutes) == "1"
  {
    assert |"hr"| != |"hrs"|;
    if Rendered(minutes) == "1" {
      MinutesOfFormat(minutes);
      assert Digits(1) == "1";
      assert Format(minutes) == Digits(1) + [' '] + Unit(minutes);
      WholeHoursReadBack(1, Unit(minutes));
    }
    if minutes as real / 60.0 == 1.0 {
      assert minutes == 60;
      assert Digits(1) == "1";
    }
  }

  /** The three examples of the function's documentation. */
  lemma DocumentedExamples()
    ensures Format(180) == "3 hrs" && Format(90) == "1.5 hrs" && Format(60) == "1 hr"
  {
    assert Rendered(180) == "3" && Rendered(60) == "1";
    RenderedShape(90, 1, 50);
    assert FractionText(50) == "5" && Digits(1) == "1" && Rendered(90) == "1" + "." + "5";
  }
}
