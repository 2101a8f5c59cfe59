/** Calendar dates in the YYYY-MM-DD form of the API. */
module Dates {
  import opened Wrappers

  datatype YearMonthDay = YearMonthDay(year: nat, month: nat, day: nat)

  predicate IsLeap(year: nat) {
    year % 4 == 0 && (year % 100 != 0 || year % 400 == 0)
  }

  function DaysIn(month: nat, year: nat): nat {
    if month == 2 then (if IsLeap(year) then 29 else 28)
    else if month in {4, 6, 9, 11} then 30
    else 31
  }

  predicate IsDate(d: YearMonthDay) {
    d.year <= 9999 && 1 <= d.month <= 12 && 1 <= d.day <= DaysIn(d.month, d.year)
  }

  type Date = d: YearMonthDay | IsDate(d) witness YearMonthDay(1970, 1, 1)

  function Digit(n: nat): char
    requires n < 10
  {
    ('0' as int + n) as char
  }

  predicate IsDigit(c: char) {
    '0' <= c <= '9'
  }

  function DigitValue(c: char): nat
    requires IsDigit(c)
  {
    c as int - '0' as int
  }

  /** n in decimal, padded with zeros to the given width. */
  function Padded(n: nat, width: nat): (s: string)
    ensures |s| == width && forall c <- s :: IsDigit(c)
  {
    if width == 0 then "" else Padded(n / 10, width - 1) + [Digit(n % 10)]
  }

  function Value(s: string): nat
    requires forall c <- s :: IsDigit(c)
  {
    if s == "" then 0 else 10 * Value(s[..|s| - 1]) + DigitValue(s[|s| - 1])
  }

  function Pow10(width: nat): nat {
    if width == 0 then 1 else 10 * Pow10(width - 1)
  }

  lemma {:induction false} ValueOfPadded(n: nat, width: nat)
    requires n < Pow10(width)
    ensures Value(Padded(n, width)) == n
  {
    if width > 0 {
      ValueOfPadded(n / 10, width - 1);
      assert Padded(n, width)[..width - 1] == Padded(n / 10, width - 1);
    }
  }

  lemma OneMoreDigit(v: nat, last: nat)
    requires last < 10
    ensures (10 * v + last) / 10 == v && (10 * v + last) % 10 == last
  {
  }

  lemma {:induction false} PaddedOfValue(s: string)
    requires forall c <- s :: IsDigit(c)
    ensures Value(s) < Pow10(|s|)
    ensures Padded(Value(s), |s|) == s
  {
    if s != "" {
      var front := s[..|s| - 1];
      PaddedOfValue(front);
      var last := DigitValue(s[|s| - 1]);
      assert Value(s) == 10 * Value(front) + last && last < 10;
      OneMoreDigit(Value(front), last);
      assert s == front + [s[|s| - 1]];
    }
  }

  /** Formats with the layout 2006-01-02. */
  function FormatDate(d: Date): (s: string) {
    Padded(d.year, 4) + "-" + Padded(d.month, 2) + "-" + Padded(d.day, 2)
  }

  predicate AllDigits(s: string) {
    forall c <- s :: IsDigit(c)
  }

  /** Parses with the layout 2006-01-02: fixed widths, nothing left over, and a day
      that exists in its month. */
  function ParseDate(s: string): Option<Date> {
    if |s| != 10 || s[4] != '-' || s[7] != '-' then None
    else if !AllDigits(s[..4]) || !AllDigits(s[5..7]) || !AllDigits(s[8..]) then None
    else
      var d := YearMonthDay(Value(s[..4]), Value(s[5..7]), Value(s[8..]));
      if IsDate(d) then Some(d) else None
  }

  /** Printing then parsing gives the date back. */
  lemma ParseOfFormat(d: Date)
    ensures ParseDate(FormatDate(d)) == Some(d)
  {
    var s := FormatDate(d);
    assert Pow10(4) == 10000 && Pow10(2) == 100;
    ValueOfPadded(d.year, 4);
    ValueOfPadded(d.month, 2);
    ValueOfPadded(d.day, 2);
    assert s[..4] == Padded(d.year, 4);
    assert s[5..7] == Padded(d.month, 2);
    assert s[8..] == Padded(d.day, 2);
  }

  /** A text that parses is the one the date prints as. */
  lemma FormatOfParse(s: string)
    requires ParseDate(s).Some?
    ensures FormatDate(ParseDate(s).value) == s
  {
    PaddedOfValue(s[..4]);
    PaddedOfValue(s[5..7]);
    PaddedOfValue(s[8..]);
    assert s == s[..4] + "-" + s[5..7] + "-" + s[8..];
  }

  // ---- Which texts are dates ----

  /** A text is a date exactly when it has the form YYYY-MM-DD and the numbers its digits
      write name a day that exists. */
  lemma ParseDateExact(s: string, d: YearMonthDay)
    ensures (IsDate(d) && ParseDate(s) == Some(d)) <==>
              && |s| == 10 && s[4] == '-' && s[7] == '-'
              && (forall i | 0 <= i < 10 && i != 4 && i != 7 :: '0' <= s[i] <= '9')
              && d.year == 1000 * Digital(s[0]) + 100 * Digital(s[1]) + 10 * Digital(s[2]) + Digital(s[3])
              && d.month == 10 * Digital(s[5]) + Digital(s[6]) && d.day == 10 * Digital(s[8]) + Digital(s[9])
              && 1 <= d.month <= 12 && 1 <= d.day <= DaysIn(d.month, d.year)
  {
    if |s| == 10 && s[4] == '-' && s[7] == '-' {
      assert AllDigits(s[..4]) <==> forall i | 0 <= i < 4 :: IsDigit(s[i]) by { SliceDigits(s, 0, 4); }
      assert AllDigits(s[5..7]) <==> forall i | 5 <= i < 7 :: IsDigit(s[i]) by { SliceDigits(s, 5, 7); }
      assert AllDigits(s[8..]) <==> forall i | 8 <= i < 10 :: IsDigit(s[i]) by { SliceDigits(s, 8, 10); }
      if AllDigits(s[..4]) && AllDigits(s[5..7]) && AllDigits(s[8..]) {
        FourDigits(s[..4]);
        TwoDigits(s[5..7]);
        TwoDigits(s[8..]);
      }
    }
  }

  /** The value of a decimal digit, by code point. */
  function Digital(c: char): int {
    c as int - 48
  }

  lemma SliceDigits(s: string, i: nat, j: nat)
    requires i <= j <= |s|
    ensures AllDigits(s[i..j]) <==> forall k | i <= k < j :: IsDigit(s[k])
    ensures j == |s| ==> s[i..j] == s[i..]
    ensures i == 0 ==> s[i..j] == s[..j]
  {
    forall k | i <= k < j ensures s[k] in s[i..j] {
      assert s[i..j][k - i] == s[k];
    }
  }

  lemma TwoDigits(s: string)
    requires |s| == 2 && AllDigits(s)
    ensures Value(s) == 10 * Digital(s[0]) + Digital(s[1])
  {
    assert s[..1][..0] == "" && s[..1][0] == s[0];
    assert Value(s[..1]) == DigitValue(s[0]);
  }

  lemma FourDigits(s: string)
    requires |s| == 4 && AllDigits(s)
    ensures Value(s) == 1000 * Digital(s[0]) + 100 * Digital(s[1]) + 10 * Digital(s[2]) + Digital(s[3])
  {
    assert s[..3][..2] == s[..2] && s[..3][2] == s[2];
    TwoDigits(s[..2]);
    assert Value(s[..3]) == 10 * Value(s[..2]) + DigitValue(s[2]);
  }

  // ---- Which days exist ----

  /** The number of a day in the Gregorian calendar, counted from 1 March of year 0: the
      year begins in March, and its months have 31, 30, 31, 30, 31 days and again. */
  function DayNumber(d: YearMonthDay): int {
    var y: int := if d.month > 2 then d.year else d.year - 1;
    365 * y + y / 4 - y / 100 + y / 400 + (153 * FromMarch(d.month) + 2) / 5 + d.day - 1
  }

  /** The day after, if the days of a month are those DaysIn counts. */
  function NextDay(d: YearMonthDay): YearMonthDay {
    if d.day < DaysIn(d.month, d.year) then d.(day := d.day + 1)
    else if d.month < 12 then YearMonthDay(d.year, d.month + 1, 1)
    else YearMonthDay(d.year + 1, 1, 1)
  }

  /** One year more is one leap day more exactly in a leap year. */
  lemma LeapStep(y: int)
    requires y >= 0
    ensures y / 4 - y / 100 + y / 400 - ((y - 1) / 4 - (y - 1) / 100 + (y - 1) / 400) == if IsLeap(y) then 1 else 0
  {
    assert y / 4 - (y - 1) / 4 == if y % 4 == 0 then 1 else 0;
    assert y / 100 - (y - 1) / 100 == if y % 100 == 0 then 1 else 0;
    assert y / 400 - (y - 1) / 400 == if y % 400 == 0 then 1 else 0;
  }

  /** Months counted from March. */
  function FromMarch(month: nat): int {
    if month > 2 then month - 3 else month + 9
  }

  lemma MonthLength(month: nat, year: nat)
    requires 1 <= month <= 12 && month != 2
    ensures (153 * (FromMarch(month) + 1) + 2) / 5 - (153 * FromMarch(month) + 2) / 5 == DaysIn(month, year)
  {
    assert month == 1 || month == 3 || month == 4 || month == 5 || month == 6 || month == 7 || month == 8
        || month == 9 || month == 10 || month == 11 || month == 12;
  }

  lemma LastOfFebruary(d: Date)
    requires d.month == 2 && d.day == DaysIn(2, d.year)
    ensures DayNumber(NextDay(d)) == DayNumber(d) + 1
  {
    LeapStep(d.year);
  }

  lemma LastOfMonth(d: Date)
    requires d.month != 2 && d.day == DaysIn(d.month, d.year)
    ensures DayNumber(NextDay(d)) == DayNumber(d) + 1
  {
    MonthLength(d.month, d.year);
    hide DaysIn;
  }

  /** Main result: the days that exist are the days of the calendar. Every one of them is
      followed by the next, with none left out and none made up: numbers of successive
      days are successive. */
  lemma DaysAreConsecutive(d: Date)
    ensures DayNumber(NextDay(d)) == DayNumber(d) + 1
    ensures NextDay(d).year <= 9999 ==> IsDate(NextDay(d))
  {
    NextDayExists(d);
    if d.day == DaysIn(d.month, d.year) {
      hide DayNumber, NextDay;
      if d.month == 2 { LastOfFebruary(d); } else { LastOfMonth(d); }
    } else {
      hide DaysIn;
    }
  }

  lemma NextDayExists(d: Date)
    ensures NextDay(d).year <= 9999 ==> IsDate(NextDay(d))
  {
  }

  /** A year has 365 days, a leap year one more. */
  lemma YearLength(year: nat)
    ensures DayNumber(YearMonthDay(year + 1, 1, 1)) - DayNumber(YearMonthDay(year, 1, 1))
            == if year % 4 == 0 && (year % 100 != 0 || year % 400 == 0) then 366 else 365
  {
    LeapStep(year);
  }
}
