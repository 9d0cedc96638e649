/**
 * Dates as the application writes and reads them. A completion date is
 * stored as the text `toLocaleDateString('pt-BR')` produces (dd/mm/yyyy) and
 * read back by splitting on '/' and building `new Date(y, m - 1, d)` from the
 * three parts (App.tsx:189, 252-253). The clock itself stays outside: "today"
 * is a `CalendarDate` the caller passes in, and a JavaScript `Date` at local
 * midnight is represented by its day number (days since 1 January 1970).
 */
module Calendar {
  import opened Base

  datatype CalendarDate = CalendarDate(day: nat, month: nat, year: nat)

  datatype ClockTime = ClockTime(hour: nat, minute: nat, second: nat)

  /** What the clock reports at the moment a handler runs. */
  datatype Clock = Clock(date: CalendarDate, time: ClockTime)

  // ---------------------------------------------------------------------
  // Decimal digits

  predicate IsDigit(c: char)
  {
    '0' <= c <= '9'
  }

  predicate AllDigits(s: string)
  {
    forall i :: 0 <= i < |s| ==> IsDigit(s[i])
  }

  function DigitChar(n: nat): (c: char)
    requires n < 10
    ensures IsDigit(c)
  {
    ('0' as int + n) as char
  }

  function DigitValue(c: char): nat
    requires IsDigit(c)
  {
    c as int - '0' as int
  }

  /** The shortest decimal numeral of `n`. */
  function Decimal(n: nat): (r: string)
    ensures |r| > 0 && AllDigits(r)
  {
    if n < 10 then [DigitChar(n)] else Decimal(n / 10) + [DigitChar(n % 10)]
  }

  /** The value of a string of decimal digits; the empty string is worth 0, as `Number("")`. */
  function DigitsValue(s: string): nat
    requires AllDigits(s)
  {
    if |s| == 0 then 0 else DigitsValue(s[..|s| - 1]) * 10 + DigitValue(s[|s| - 1])
  }

  lemma {:induction false} DecimalRoundTrip(n: nat)
    ensures DigitsValue(Decimal(n)) == n
  {
    if n >= 10 {
      var s := Decimal(n);
      assert s[..|s| - 1] == Decimal(n / 10);
      DecimalRoundTrip(n / 10);
    }
  }

  /** A leading zero does not change the value of a numeral. */
  lemma {:induction false} LeadingZero(s: string)
    requires AllDigits(s)
    ensures AllDigits("0" + s) && DigitsValue("0" + s) == DigitsValue(s)
  {
    if |s| > 0 {
      assert ("0" + s)[..|s|] == "0" + s[..|s| - 1];
      LeadingZero(s[..|s| - 1]);
    }
  }

  /** Two-digit field, as the pt-BR locale prints days, months, hours, minutes and seconds. */
  function Pad2(n: nat): (r: string)
    ensures AllDigits(r) && |r| >= 2
  {
    if n < 10 then "0" + Decimal(n) else Decimal(n)
  }

  /** `toLocaleDateString('pt-BR')`: dd/mm/yyyy. */
  function FormatDate(d: CalendarDate): string
  {
    Pad2(d.day) + "/" + Pad2(d.month) + "/" + Decimal(d.year)
  }

  /** `toLocaleTimeString('pt-BR')`: hh:mm:ss. */
  function FormatTime(t: ClockTime): string
  {
    Pad2(t.hour) + ":" + Pad2(t.minute) + ":" + Pad2(t.second)
  }

  // ---------------------------------------------------------------------
  // Reading a date back

  /** `String.prototype.split` with a one-character separator. */
  function Split(s: string, sep: char): (parts: seq<string>)
    ensures |parts| >= 1
    decreases |s|
  {
    match FirstIndex(s, (c: char) => c == sep)
    case None => [s]
    case Some(i) => [s[..i]] + Split(s[i + 1..], sep)
  }

  lemma SplitNoSeparator(s: string, sep: char)
    requires forall i :: 0 <= i < |s| ==> s[i] != sep
    ensures Split(s, sep) == [s]
  {
  }

  lemma SplitFirst(a: string, sep: char, b: string)
    requires forall i :: 0 <= i < |a| ==> a[i] != sep
    ensures Split(a + [sep] + b, sep) == [a] + Split(b, sep)
  {
    var s := a + [sep] + b;
    FirstIndexUnique(s, (c: char) => c == sep, |a|);
    assert s[..|a|] == a;
    assert s[|a| + 1..] == b;
  }

  /** `Number(text)` for the numerals this model reads: digits only (NaN is `None`). */
  function NumberOf(text: string): (r: Option<nat>)
    ensures AllDigits(text) <==> r.Some?
  {
    if AllDigits(text) then Some(DigitsValue(text)) else None
  }

  /**
   * `const [d, m, y] = text.split('/')` followed by `Number` on each part
   * (App.tsx:252). A missing part is `undefined`, whose `Number` is NaN.
   */
  function ParseDayMonthYear(text: string): Option<CalendarDate>
  {
    var parts := Split(text, '/');
    if |parts| < 3 then None
    else
      match (NumberOf(parts[0]), NumberOf(parts[1]), NumberOf(parts[2]))
      case (Some(d), Some(m), Some(y)) => Some(CalendarDate(d, m, y))
      case _ => None
  }

  lemma DigitsHaveNoSlash(s: string)
    requires AllDigits(s)
    ensures forall i :: 0 <= i < |s| ==> s[i] != '/'
  {
  }

  lemma {:induction false} Pad2Value(n: nat)
    requires n < 100
    ensures NumberOf(Pad2(n)) == Some(n)
  {
    DecimalRoundTrip(n);
    if n < 10 {
      LeadingZero(Decimal(n));
    }
  }

  /** Reading back a date the application wrote gives the same day, month and year. */
  lemma {:induction false} ParseFormatRoundTrip(d: CalendarDate)
    requires d.day < 100 && d.month < 100
    ensures ParseDayMonthYear(FormatDate(d)) == Some(d)
  {
    var dd, mm, yy := Pad2(d.day), Pad2(d.month), Decimal(d.year);
    DigitsHaveNoSlash(dd);
    DigitsHaveNoSlash(mm);
    DigitsHaveNoSlash(yy);
    assert FormatDate(d) == dd + ['/'] + (mm + ['/'] + yy);
    SplitFirst(dd, '/', mm + ['/'] + yy);
    SplitFirst(mm, '/', yy);
    SplitNoSeparator(yy, '/');
    assert Split(FormatDate(d), '/') == [dd, mm, yy];
    Pad2Value(d.day);
    Pad2Value(d.month);
    DecimalRoundTrip(d.year);
  }

  // ---------------------------------------------------------------------
  // Day numbers of `new Date(year, monthIndex, day)`, as ECMAScript's MakeDay

  predicate IsLeap(y: int)
  {
    y % 4 == 0 && (y % 100 != 0 || y % 400 == 0)
  }

  /** Days from 1 January 1970 to 1 January of year `y` (ECMAScript DayFromYear). */
  function DayFromYear(y: int): int
  {
    365 * (y - 1970) + (y - 1969) / 4 - (y - 1901) / 100 + (y - 1601) / 400
  }

  /** Length of month `m` (1-based) of year `y`. */
  function DaysInMonth(y: int, m: int): nat
    requires 1 <= m <= 12
  {
    if m == 2 then (if IsLeap(y) then 29 else 28)
    else if m == 4 || m == 6 || m == 9 || m == 11 then 30
    else 31
  }

  /** Days of year `y` before month index `mn` (0 = January). */
  function DaysBeforeMonth(y: int, mn: int): nat
    requires 0 <= mn < 12
  {
    var common :=
      if mn == 0 then 0 else if mn == 1 then 31 else if mn == 2 then 59
      else if mn == 3 then 90 else if mn == 4 then 120 else if mn == 5 then 151
      else if mn == 6 then 181 else if mn == 7 then 212 else if mn == 8 then 243
      else if mn == 9 then 273 else if mn == 10 then 304 else 334;
    common + (if mn >= 2 && IsLeap(y) then 1 else 0)
  }

  /**
   * The day number of `new Date(year, monthIndex, day)` at local midnight. A
   * year 0..99 means 1900..1999, a month index outside 0..11 carries into the
   * year, and a day outside the month carries into the following ones.
   */
  function DateValue(year: int, monthIndex: int, day: int): int
  {
    var y := if 0 <= year <= 99 then 1900 + year else year;
    var ym := y + monthIndex / 12;
    DayFromYear(ym) + DaysBeforeMonth(ym, monthIndex % 12) + day - 1
  }

  /** The day number of a calendar date read back from its text. */
  function DayNumber(d: CalendarDate): int
  {
    DateValue(d.year, d.month - 1, d.day)
  }

  /** An actual date of the Gregorian calendar, from year 100 on. */
  predicate ValidDate(d: CalendarDate)
  {
    100 <= d.year && 1 <= d.month <= 12 && 1 <= d.day <= DaysInMonth(d.year, d.month)
  }

  /** Calendar order: earlier year, else earlier month, else earlier day. */
  predicate Precedes(a: CalendarDate, b: CalendarDate)
  {
    a.year < b.year || (a.year == b.year && (a.month < b.month || (a.month == b.month && a.day < b.day)))
  }

  lemma YearLength(y: int)
    ensures DayFromYear(y + 1) - DayFromYear(y) == DaysBeforeMonth(y, 11) + 31
  {
    var a, b, c := y - 1969, y - 1901, y - 1601;
    assert (a + 1) / 4 - a / 4 == (if (a + 1) % 4 == 0 then 1 else 0);
    assert (b + 1) / 100 - b / 100 == (if (b + 1) % 100 == 0 then 1 else 0);
    assert (c + 1) / 400 - c / 400 == (if (c + 1) % 400 == 0 then 1 else 0);
    assert (a + 1) % 4 == y % 4 by { assert a + 1 == y - 4 * 492; }
    assert (b + 1) % 100 == y % 100 by { assert b + 1 == y - 100 * 19; }
    assert (c + 1) % 400 == y % 400 by { assert c + 1 == y - 400 * 4; }
  }

  lemma {:induction false} YearsIncrease(y: int, z: int)
    requires y < z
    ensures DayFromYear(y) + DaysBeforeMonth(y, 11) + 31 <= DayFromYear(z)
    decreases z - y
  {
    YearLength(y);
    if y + 1 < z {
      YearsIncrease(y + 1, z);
    }
  }

  lemma MonthsIncrease(y: int, m: int, n: int)
    requires 1 <= m < n <= 12
    ensures DaysBeforeMonth(y, m - 1) + DaysInMonth(y, m) <= DaysBeforeMonth(y, n - 1)
  {
  }

  lemma DayNumberParts(d: CalendarDate)
    requires ValidDate(d)
    ensures DayNumber(d) == DayFromYear(d.year) + DaysBeforeMonth(d.year, d.month - 1) + d.day - 1
  {
    var mi := d.month - 1;
    assert mi / 12 == 0 && mi % 12 == mi;
  }

  lemma EarlierYear(a: CalendarDate, b: CalendarDate)
    requires ValidDate(a) && ValidDate(b) && a.year < b.year
    ensures DayNumber(a) < DayNumber(b)
  {
    var endOfYear := DayFromYear(a.year) + DaysBeforeMonth(a.year, 11) + 31;
    assert DayNumber(a) < endOfYear by {
      DayNumberParts(a);
      MonthsIncreaseTo12(a.year, a.month);
    }
    assert endOfYear <= DayNumber(b) by {
      YearsIncrease(a.year, b.year);
      DayNumberParts(b);
    }
  }

  lemma EarlierMonth(a: CalendarDate, b: CalendarDate)
    requires ValidDate(a) && ValidDate(b) && a.year == b.year && a.month < b.month
    ensures DayNumber(a) < DayNumber(b)
  {
    var start := DayFromYear(a.year);
    assert DayNumber(a) < start + DaysBeforeMonth(a.year, a.month - 1) + DaysInMonth(a.year, a.month) by {
      DayNumberParts(a);
    }
    assert start + DaysBeforeMonth(a.year, b.month - 1) <= DayNumber(b) by {
      DayNumberParts(b);
    }
    MonthsIncrease(a.year, a.month, b.month);
  }

  lemma Earlier(a: CalendarDate, b: CalendarDate)
    requires ValidDate(a) && ValidDate(b) && Precedes(a, b)
    ensures DayNumber(a) < DayNumber(b)
  {
    if a.year < b.year {
      EarlierYear(a, b);
    } else if a.month < b.month {
      EarlierMonth(a, b);
    } else {
      DayNumberParts(a);
      DayNumberParts(b);
    }
  }

  /**
   * For real dates the day number orders dates chronologically: the parse
   * never confuses day and month, and a later date has a larger number.
   */
  lemma DayNumberChronological(a: CalendarDate, b: CalendarDate)
    requires ValidDate(a) && ValidDate(b)
    ensures DayNumber(a) < DayNumber(b) <==> Precedes(a, b)
    ensures DayNumber(a) == DayNumber(b) <==> a == b
  {
    if Precedes(a, b) {
      Earlier(a, b);
    } else if Precedes(b, a) {
      Earlier(b, a);
    }
  }

  lemma MonthsIncreaseTo12(y: int, m: int)
    requires 1 <= m <= 12
    ensures DaysBeforeMonth(y, m - 1) + DaysInMonth(y, m) <= DaysBeforeMonth(y, 11) + 31
  {
  }
}
