/**
 * Calendar dates and CPython's `datetime.strptime(s, "%Y-%m-%d").date()`.
 *
 * `_strptime` compiles the format to the regular expression
 *   (?P<Y>\d\d\d\d)-(?P<m>1[0-2]|0[1-9]|[1-9])-(?P<d>3[01]|[12]\d|0[1-9]|[1-9]| [1-9])
 * matches it at the start of the string (alternatives tried left to right),
 * rejects a match that leaves characters over, and then rejects a day that
 * the month does not have or a year outside 1..9999 (all as ValueError).
 */
module Dates {
  import opened Optional
  import opened Text

  datatype Date = Date(year: int, month: int, day: int)

  predicate IsLeapYear(y: int) {
    y % 4 == 0 && (y % 100 != 0 || y % 400 == 0)
  }

  function DaysInMonth(y: int, m: int): int {
    if m == 2 then (if IsLeapYear(y) then 29 else 28)
    else if m == 4 || m == 6 || m == 9 || m == 11 then 30
    else 31
  }

  /** The dates Python's `datetime.date` can represent. */
  predicate ValidDate(d: Date) {
    1 <= d.year <= 9999 && 1 <= d.month <= 12 && 1 <= d.day <= DaysInMonth(d.year, d.month)
  }

  predicate IsDigit(c: char) { '0' <= c <= '9' }

  function DigitValue(c: char): int { c as int - '0' as int }

  /** The `%m` group: its value and the number of characters it consumes. */
  function MatchMonth(t: string): Option<(int, nat)> {
    if |t| >= 2 && t[0] == '1' && '0' <= t[1] <= '2' then Some((10 + DigitValue(t[1]), 2))
    else if |t| >= 2 && t[0] == '0' && '1' <= t[1] <= '9' then Some((DigitValue(t[1]), 2))
    else if |t| >= 1 && '1' <= t[0] <= '9' then Some((DigitValue(t[0]), 1))
    else None
  }

  /** The `%d` group: its value and the number of characters it consumes. */
  function MatchDay(t: string): Option<(int, nat)> {
    if |t| >= 2 && t[0] == '3' && '0' <= t[1] <= '1' then Some((30 + DigitValue(t[1]), 2))
    else if |t| >= 2 && '1' <= t[0] <= '2' && IsDigit(t[1]) then Some((10 * DigitValue(t[0]) + DigitValue(t[1]), 2))
    else if |t| >= 2 && t[0] == '0' && '1' <= t[1] <= '9' then Some((DigitValue(t[1]), 2))
    else if |t| >= 1 && '1' <= t[0] <= '9' then Some((DigitValue(t[0]), 1))
    else if |t| >= 2 && t[0] == ' ' && '1' <= t[1] <= '9' then Some((DigitValue(t[1]), 2))
    else None
  }

  /** `datetime.strptime(s, "%Y-%m-%d").date()`; None stands for the ValueError. */
  function ParseYmd(s: string): (r: Option<Date>)
    ensures r.Some? ==> ValidDate(r.value) && 8 <= |s| <= 10
  {
    if |s| < 5 || !(IsDigit(s[0]) && IsDigit(s[1]) && IsDigit(s[2]) && IsDigit(s[3])) || s[4] != '-' then None
    else
      var year := 1000 * DigitValue(s[0]) + 100 * DigitValue(s[1]) + 10 * DigitValue(s[2]) + DigitValue(s[3]);
      match MatchMonth(s[5..])
      case None => None
      case Some((month, k)) =>
        var i := 5 + k;
        if i >= |s| || s[i] != '-' then None
        else
          match MatchDay(s[i + 1..])
          case None => None
          case Some((day, j)) =>
            if i + 1 + j != |s| then None
            else if ValidDate(Date(year, month, day)) then Some(Date(year, month, day))
            else None
  }

  function TwoDigits(n: int): string {
    if 0 <= n < 100 then [DigitChar(n / 10), DigitChar(n % 10)] else Decimal(n)
  }

  function FourDigits(n: int): string {
    if 0 <= n < 10000 then [DigitChar(n / 1000), DigitChar(n / 100 % 10), DigitChar(n / 10 % 10), DigitChar(n % 10)]
    else Decimal(n)
  }

  /** `date.strftime("%Y-%m-%d")`, equal to `date.isoformat()`. */
  function FormatYmd(d: Date): string {
    FourDigits(d.year) + "-" + TwoDigits(d.month) + "-" + TwoDigits(d.day)
  }

  lemma FourDigitsValue(n: int)
    requires 0 <= n < 10000
    ensures var s := FourDigits(n);
      |s| == 4 && IsDigit(s[0]) && IsDigit(s[1]) && IsDigit(s[2]) && IsDigit(s[3])
      && 1000 * DigitValue(s[0]) + 100 * DigitValue(s[1]) + 10 * DigitValue(s[2]) + DigitValue(s[3]) == n
  {
    var a, b, c, e := n / 1000, n / 100 % 10, n / 10 % 10, n % 10;
    assert n / 100 == 10 * a + b;
    assert n / 10 == 10 * (n / 100) + c;
    assert n == 10 * (n / 10) + e;
  }

  lemma MonthRoundTrip(m: int, rest: string)
    requires 1 <= m <= 12
    ensures MatchMonth(TwoDigits(m) + rest) == Some((m, 2))
  {
    var t := TwoDigits(m) + rest;
    assert t[0] == DigitChar(m / 10) && t[1] == DigitChar(m % 10);
    if m >= 10 {
      assert t[0] == '1';
    } else {
      assert t[0] == '0';
    }
  }

  lemma DayRoundTrip(d: int)
    requires 1 <= d <= 31
    ensures MatchDay(TwoDigits(d)) == Some((d, 2))
  {
    var t := TwoDigits(d);
    assert t[0] == DigitChar(d / 10) && t[1] == DigitChar(d % 10);
    if d >= 30 {
      assert t[0] == '3';
    } else if d >= 10 {
      assert '1' <= t[0] <= '2';
    } else {
      assert t[0] == '0';
    }
  }

  /** Formatting a valid date and parsing it back gives the same date. */
  lemma {:induction false} ParseFormat(d: Date)
    requires ValidDate(d)
    ensures ParseYmd(FormatYmd(d)) == Some(d)
  {
    var s := FormatYmd(d);
    FourDigitsValue(d.year);
    var y, m, dd := FourDigits(d.year), TwoDigits(d.month), TwoDigits(d.day);
    assert s == y + "-" + m + "-" + dd;
    assert s[5..] == m + "-" + dd;
    MonthRoundTrip(d.month, "-" + dd);
    assert s[7] == '-';
    assert s[8..] == dd;
    DayRoundTrip(d.day);
    assert s[..4] == y;
  }

  /** A string strptime accepts is at most ten characters long, so a
      timestamp with a time part is rejected. */
  lemma ParsedLength(s: string)
    requires |s| > 10
    ensures ParseYmd(s) == None
  {
  }
}
