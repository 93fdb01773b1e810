/** The date strings of the financeiro table and the month key the report
    groups them by.

    A movement's date is written with strftime("%d/%m/%Y"); the report parses it
    back with pd.to_datetime(format="%d/%m/%Y", errors="coerce") and formats the
    result with strftime("%Y-%m"). A string that does not parse, or that names a
    day outside pandas' nanosecond Timestamp range, becomes NaT and then has no
    month at all. */
module Dates {

  datatype Option<T> = None | Some(value: T)

  predicate IsDigit(c: char) { '0' <= c <= '9' }

  function DigitValue(c: char): (n: nat)
    requires IsDigit(c)
    ensures n < 10
  {
    (c as int) - ('0' as int)
  }

  function DigitChar(n: nat): (c: char)
    requires n < 10
    ensures IsDigit(c) && DigitValue(c) == n
  {
    ('0' as int + n) as char
  }

  /** Zero-padded decimal text of n in two and four places (%d, %m and %Y). */
  function Pad2(n: nat): (s: string)
    requires n < 100
    ensures |s| == 2 && IsDigit(s[0]) && IsDigit(s[1])
  {
    [DigitChar(n / 10), DigitChar(n % 10)]
  }

  function Pad4(n: nat): (s: string)
    requires n < 10000
    ensures |s| == 4 && forall i | 0 <= i < 4 :: IsDigit(s[i])
  {
    Pad2(n / 100) + Pad2(n % 100)
  }

  /** The value of the two digits s[i], s[i+1]. */
  function Number2(s: string, i: nat): (n: nat)
    requires i + 1 < |s| && IsDigit(s[i]) && IsDigit(s[i + 1])
    ensures n < 100
  {
    10 * DigitValue(s[i]) + DigitValue(s[i + 1])
  }

  predicate IsLeapYear(y: int)
  {
    y % 4 == 0 && (y % 100 != 0 || y % 400 == 0)
  }

  function DaysInMonth(m: int, y: int): (n: int)
    requires 1 <= m <= 12
    ensures 28 <= n <= 31
  {
    if m == 2 then (if IsLeapYear(y) then 29 else 28)
    else if m == 4 || m == 6 || m == 9 || m == 11 then 30
    else 31
  }

  /** A real calendar day inside pandas' Timestamp range, whose first whole day
      is 22 September 1677 and whose last is 11 April 2262. */
  predicate ParsableDay(d: int, m: int, y: int)
  {
    && 1 <= m <= 12
    && 1 <= d <= DaysInMonth(m, y)
    && (y > 1677 || (y == 1677 && (m > 9 || (m == 9 && d >= 22))))
    && (y < 2262 || (y == 2262 && (m < 4 || (m == 4 && d <= 11))))
  }

  /** The shape "DD/MM/YYYY": two digits, a slash, two digits, a slash, four digits. */
  predicate IsDateText(s: string)
  {
    && |s| == 10
    && s[2] == '/' && s[5] == '/'
    && IsDigit(s[0]) && IsDigit(s[1]) && IsDigit(s[3]) && IsDigit(s[4])
    && IsDigit(s[6]) && IsDigit(s[7]) && IsDigit(s[8]) && IsDigit(s[9])
  }

  function Day(s: string): nat requires IsDateText(s) { Number2(s, 0) }
  function Month(s: string): nat requires IsDateText(s) { Number2(s, 3) }
  function Year(s: string): nat requires IsDateText(s) { 100 * Number2(s, 6) + Number2(s, 8) }

  /** strftime("%d/%m/%Y") of a day with a four-digit year. */
  function FormatDate(d: nat, m: nat, y: nat): (s: string)
    requires d < 100 && m < 100 && y < 10000
    ensures IsDateText(s)
  {
    Pad2(d) + "/" + Pad2(m) + "/" + Pad4(y)
  }

  /** strftime("%Y-%m") of a day with a four-digit year. */
  function FormatYearMonth(y: nat, m: nat): (s: string)
    requires m < 100 && y < 10000
    ensures |s| == 7 && s[4] == '-'
  {
    Pad4(y) + "-" + Pad2(m)
  }

  /** The month column of the report for one date string: None where pandas
      produces NaT. */
  function MonthKey(data: string): (r: Option<string>)
    ensures r.Some? <==> IsDateText(data) && ParsableDay(Day(data), Month(data), Year(data))
    ensures r.Some? ==> data == FormatDate(Day(data), Month(data), Year(data))
    ensures r.Some? ==> r.value == FormatYearMonth(Year(data), Month(data))
  {
    if IsDateText(data) && ParsableDay(Day(data), Month(data), Year(data)) then
      DateTextRoundTrip(data);
      Some(data[6..10] + "-" + data[3..5])
    else None
  }

  lemma DigitRoundTrip(c: char)
    requires IsDigit(c)
    ensures DigitChar(DigitValue(c)) == c
  {
  }

  lemma Pad2RoundTrip(s: string, i: nat)
    requires i + 1 < |s| && IsDigit(s[i]) && IsDigit(s[i + 1])
    ensures Pad2(Number2(s, i)) == s[i..i + 2]
  {
    var n := Number2(s, i);
    assert n / 10 == DigitValue(s[i]) && n % 10 == DigitValue(s[i + 1]);
    DigitRoundTrip(s[i]);
    DigitRoundTrip(s[i + 1]);
  }

  lemma Number2OfPad2(n: nat)
    requires n < 100
    ensures Number2(Pad2(n), 0) == n
  {
  }

  /** A date string in the DD/MM/YYYY shape is the formatting of the day it
      parses to. */
  lemma DateTextRoundTrip(s: string)
    requires IsDateText(s)
    ensures FormatDate(Day(s), Month(s), Year(s)) == s
    ensures FormatYearMonth(Year(s), Month(s)) == s[6..10] + "-" + s[3..5]
  {
    Pad2RoundTrip(s, 0);
    Pad2RoundTrip(s, 3);
    Pad2RoundTrip(s, 6);
    Pad2RoundTrip(s, 8);
    var y := Year(s);
    assert y / 100 == Number2(s, 6) && y % 100 == Number2(s, 8);
    assert Pad4(y) == s[6..10];
    assert s == s[0..2] + "/" + s[3..5] + "/" + s[6..10];
  }

  /** Every day the application can write (dadabase.py:288) gets the month key of its
      own year and month: write, parse and reformat agree. */
  lemma MonthKeyOfFormattedDate(d: nat, m: nat, y: nat)
    requires y < 10000 && ParsableDay(d, m, y)
    ensures MonthKey(FormatDate(d, m, y)) == Some(FormatYearMonth(y, m))
  {
    var s := FormatDate(d, m, y);
    Number2OfPad2(d);
    Number2OfPad2(m);
    Number2OfPad2(y / 100);
    Number2OfPad2(y % 100);
    assert Day(s) == d by { assert s[0..2] == Pad2(d); }
    assert Month(s) == m by { assert s[3..5] == Pad2(m); }
    assert Year(s) == y by {
      assert s[6..8] == Pad2(y / 100);
      assert s[8..10] == Pad2(y % 100);
    }
  }

  /** Two dates share a month key exactly when they share year and month. */
  lemma MonthKeyInjective(a: string, b: string)
    requires MonthKey(a).Some? && MonthKey(b).Some?
    ensures MonthKey(a) == MonthKey(b) <==> Year(a) == Year(b) && Month(a) == Month(b)
  {
    if MonthKey(a) == MonthKey(b) {
      var ka, kb := MonthKey(a).value, MonthKey(b).value;
      assert ka[..4] == b[6..10] && ka[5..] == b[3..5];
      Pad2RoundTrip(a, 6);
      Pad2RoundTrip(a, 8);
      Pad2RoundTrip(b, 6);
      Pad2RoundTrip(b, 8);
      Pad2RoundTrip(a, 3);
      Pad2RoundTrip(b, 3);
      assert a[6..8] == b[6..8] && a[8..10] == b[8..10] && a[3..5] == b[3..5];
    }
  }
}
