/**
 * Calendar dates as Python's `datetime.date` holds them, and
 * `date.isoformat()`, which writes `YYYY-MM-DD` with zero padding.
 * `ParseIso` reads that form back; the round trip shows that the
 * extracted deadline string determines the date.
 */
module Dates {
  import opened Wrappers

  datatype Date = Date(year: int, month: int, day: int)

  predicate IsLeapYear(y: int) {
    y % 4 == 0 && (y % 100 != 0 || y % 400 == 0)
  }

  function DaysInMonth(y: int, m: int): int
    requires 1 <= m <= 12
  {
    if m == 2 then (if IsLeapYear(y) then 29 else 28)
    else if m == 4 || m == 6 || m == 9 || m == 11 then 30
    else 31
  }

  /** `datetime.date` admits years 1 (MINYEAR) to 9999 (MAXYEAR). */
  predicate IsValid(d: Date) {
    && 1 <= d.year <= 9999
    && 1 <= d.month <= 12
    && 1 <= d.day <= DaysInMonth(d.year, d.month)
  }

  type CalendarDate = d: Date | IsValid(d) witness Date(1, 1, 1)

  function Pow10(n: nat): nat {
    if n == 0 then 1 else 10 * Pow10(n - 1)
  }

  predicate IsDigit(c: char) { '0' <= c <= '9' }

  function DigitChar(v: nat): (c: char)
    requires v < 10
    ensures IsDigit(c)
  {
    ('0' as int + v) as char
  }

  /** `v` written in exactly `width` decimal digits, zero-padded (`%0<width>d`). */
  function Digits(v: nat, width: nat): (s: string)
    ensures |s| == width
    ensures forall x :: 0 <= x < |s| ==> IsDigit(s[x])
  {
    if width == 0 then [] else Digits(v / 10, width - 1) + [DigitChar(v % 10)]
  }

  /** The number a run of decimal digits denotes. */
  function DigitsValue(s: string): nat
    requires forall x :: 0 <= x < |s| ==> IsDigit(s[x])
  {
    if s == [] then 0
    else
      assert IsDigit(s[|s| - 1]);
      10 * DigitsValue(s[..|s| - 1]) + (s[|s| - 1] as int - '0' as int)
  }

  lemma {:induction false} DigitsRoundTrip(v: nat, width: nat)
    requires v < Pow10(width)
    ensures DigitsValue(Digits(v, width)) == v
  {
    if width > 0 {
      var s := Digits(v, width);
      assert s[..|s| - 1] == Digits(v / 10, width - 1);
      assert v / 10 < Pow10(width - 1);
      DigitsRoundTrip(v / 10, width - 1);
    } else {
      assert v == 0;
    }
  }

  /** `date.isoformat()`. */
  function IsoFormat(d: CalendarDate): (s: string)
    ensures |s| == 10 && s[4] == '-' && s[7] == '-'
    ensures forall x :: 0 <= x < 10 && x != 4 && x != 7 ==> IsDigit(s[x])
  {
    Digits(d.year, 4) + "-" + Digits(d.month, 2) + "-" + Digits(d.day, 2)
  }

  /** Reads a `YYYY-MM-DD` string back into a calendar date. */
  function ParseIso(s: string): (r: Option<CalendarDate>)
    ensures r.Some? ==> |s| == 10
  {
    if |s| == 10 && s[4] == '-' && s[7] == '-'
       && (forall x :: 0 <= x < 10 && x != 4 && x != 7 ==> IsDigit(s[x]))
    then
      var d := Date(DigitsValue(s[0..4]), DigitsValue(s[5..7]), DigitsValue(s[8..10]));
      if IsValid(d) then Some(d) else None
    else None
  }

  /** `isoformat` loses nothing: the written date reads back as itself. */
  lemma IsoRoundTrip(d: CalendarDate)
    ensures ParseIso(IsoFormat(d)) == Some(d)
  {
    var s := IsoFormat(d);
    assert s[0..4] == Digits(d.year, 4);
    assert s[5..7] == Digits(d.month, 2);
    assert s[8..10] == Digits(d.day, 2);
    DigitsRoundTrip(d.year, 4);
    DigitsRoundTrip(d.month, 2);
    DigitsRoundTrip(d.day, 2);
  }

  /** Distinct dates are written differently. */
  lemma IsoFormatInjective(d1: CalendarDate, d2: CalendarDate)
    requires IsoFormat(d1) == IsoFormat(d2)
    ensures d1 == d2
  {
    IsoRoundTrip(d1);
    IsoRoundTrip(d2);
  }
}
