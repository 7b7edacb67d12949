/**
  Calendar dates as the loaders see them after `.dt.date`: Python
  `datetime.date` values.  A date is a (year, month, day) triple of the
  proleptic Gregorian calendar with a year between 1 and 9999; dates compare
  as triples, subtracting two dates counts the whole days between their
  ordinals (day 1 is 0001-01-01), and `str(date)` spells it YYYY-MM-DD.
 */
module Calendar {

  datatype YearMonthDay = YearMonthDay(year: int, month: int, day: int)

  const MIN_YEAR := 1
  const MAX_YEAR := 9999

  /** Days in each month of a common year, January first. */
  const DAYS_IN_MONTH: seq<int> := [31, 28, 31, 30, 31, 30, 31, 31, 30, 31, 30, 31]
  /** Days of a common year before the first of each month, January first. */
  const DAYS_BEFORE_MONTH: seq<int> := [0, 31, 59, 90, 120, 151, 181, 212, 243, 273, 304, 334]

  predicate IsLeapYear(year: int)
  {
    year % 4 == 0 && (year % 100 != 0 || year % 400 == 0)
  }

  function DaysInYear(year: int): int
  {
    if IsLeapYear(year) then 366 else 365
  }

  function DaysInMonth(year: int, month: int): int
    requires 1 <= month <= 12
  {
    if month == 2 && IsLeapYear(year) then 29 else DAYS_IN_MONTH[month - 1]
  }

  predicate IsDate(d: YearMonthDay)
  {
    && MIN_YEAR <= d.year <= MAX_YEAR
    && 1 <= d.month <= 12
    && 1 <= d.day <= DaysInMonth(d.year, d.month)
  }

  /** A value of Python's `datetime.date`. */
  type Date = d: YearMonthDay | IsDate(d) witness YearMonthDay(1, 1, 1)

  /** Days before January 1st of `year`, counted from 0001-01-01. */
  function DaysBeforeYear(year: int): int
    requires year >= 1
  {
    var y := year - 1;
    y * 365 + y / 4 - y / 100 + y / 400
  }

  /** Days of `year` before the first of `month`. */
  function DaysBeforeMonth(year: int, month: int): int
    requires 1 <= month <= 12
  {
    DAYS_BEFORE_MONTH[month - 1] + (if month > 2 && IsLeapYear(year) then 1 else 0)
  }

  /** `date.toordinal()`: 0001-01-01 is day 1. */
  function Ordinal(d: Date): (days: int)
    ensures days >= 1
  {
    DaysBeforeYear(d.year) + DaysBeforeMonth(d.year, d.month) + d.day
  }

  /** `a < b` on dates: comparison of the (year, month, day) triples. */
  predicate Before(a: Date, b: Date)
  {
    || a.year < b.year
    || (a.year == b.year && a.month < b.month)
    || (a.year == b.year && a.month == b.month && a.day < b.day)
  }

  /** `a <= b` on dates. */
  predicate NotAfter(a: Date, b: Date)
  {
    a == b || Before(a, b)
  }

  lemma DaysBeforeYearStep(year: int)
    requires year >= 1
    ensures DaysBeforeYear(year + 1) == DaysBeforeYear(year) + DaysInYear(year)
  {
    var step4, step100, step400 := QuotientStep(year, 4), QuotientStep(year, 100), QuotientStep(year, 400);
    assert DaysBeforeYear(year + 1) - DaysBeforeYear(year) == 365 + step4 - step100 + step400;
    DivisibilityChain(year);
  }

  /** A multiple of 400 is a multiple of 100, and a multiple of 100 is one of 4. */
  lemma DivisibilityChain(n: int)
    ensures n % 400 == 0 ==> n % 100 == 0
    ensures n % 100 == 0 ==> n % 4 == 0
  {
    if n % 400 == 0 {
      MultipleMod(n / 400 * 4, 100);
      assert n == n / 400 * 4 * 100;
    }
    if n % 100 == 0 {
      MultipleMod(n / 100 * 25, 4);
      assert n == n / 100 * 25 * 4;
    }
  }

  lemma MultipleMod(m: int, k: int)
    requires k == 4 || k == 100
    ensures (m * k) % k == 0
  {
  }

  /** How much `n / k` grows from `n - 1` to `n`: 1 when `k` divides `n`, else 0. */
  function QuotientStep(n: int, k: int): (step: int)
    requires k == 4 || k == 100 || k == 400
    ensures step == n / k - (n - 1) / k
  {
    if n % k == 0 then 1 else 0
  }

  /** A whole year `y1` lies before January 1st of any later year. */
  lemma {:induction false} DaysBeforeLaterYear(y1: int, y2: int)
    requires 1 <= y1 < y2
    ensures DaysBeforeYear(y1) + DaysInYear(y1) <= DaysBeforeYear(y2)
    decreases y2 - y1
  {
    DaysBeforeYearStep(y1);
    if y1 + 1 < y2 {
      DaysBeforeLaterYear(y1 + 1, y2);
    }
  }

  /** A date's day of the year lies between 1 and the length of its year. */
  lemma DayOfYearBounds(d: Date)
    ensures 1 <= DaysBeforeMonth(d.year, d.month) + d.day <= DaysInYear(d.year)
  {
  }

  /** The month `m1` ends no later than the first of a later month `m2`. */
  lemma MonthEndsBefore(year: int, m1: int, m2: int)
    requires 1 <= m1 < m2 <= 12
    ensures DaysBeforeMonth(year, m1) + DaysInMonth(year, m1) <= DaysBeforeMonth(year, m2)
  {
  }

  /**
    Ordinals follow the calendar order: `a < b` exactly when `a`'s ordinal is
    smaller, so subtracting dates agrees with comparing them.
   */
  lemma OrdinalOrder(a: Date, b: Date)
    ensures Before(a, b) <==> Ordinal(a) < Ordinal(b)
    ensures a == b <==> Ordinal(a) == Ordinal(b)
  {
    if a.year < b.year {
      DayOfYearBounds(a);
      DaysBeforeLaterYear(a.year, b.year);
    } else if b.year < a.year {
      DayOfYearBounds(b);
      DaysBeforeLaterYear(b.year, a.year);
    } else if a.month < b.month {
      MonthEndsBefore(a.year, a.month, b.month);
    } else if b.month < a.month {
      MonthEndsBefore(a.year, b.month, a.month);
    }
  }

  /**
    `(later - earlier).days`: the signed number of whole days from `earlier`
    to `later`; it is never negative exactly when `earlier <= later`, and zero
    exactly when the dates are equal.
   */
  function DaysBetween(later: Date, earlier: Date): (days: int)
    ensures days >= 0 <==> NotAfter(earlier, later)
    ensures days == 0 <==> later == earlier
  {
    OrdinalOrder(earlier, later);
    Ordinal(later) - Ordinal(earlier)
  }

  /** The calendar day after `d`: the next day of the month, else the 1st of the next month or year. */
  function NextDay(d: Date): Date
    requires d != YearMonthDay(MAX_YEAR, 12, 31)
  {
    if d.day < DaysInMonth(d.year, d.month) then YearMonthDay(d.year, d.month, d.day + 1)
    else if d.month < 12 then YearMonthDay(d.year, d.month + 1, 1)
    else YearMonthDay(d.year + 1, 1, 1)
  }

  /** The ordinal counts days: the next calendar day is exactly one day later. */
  lemma NextDayIsOneDayLater(d: Date)
    requires d != YearMonthDay(MAX_YEAR, 12, 31)
    ensures DaysBetween(NextDay(d), d) == 1
  {
    var next := NextDay(d);
    if d.day < DaysInMonth(d.year, d.month) {
      assert next == YearMonthDay(d.year, d.month, d.day + 1);
    } else if d.month < 12 {
      assert next == YearMonthDay(d.year, d.month + 1, 1);
      assert DaysBeforeMonth(d.year, d.month + 1) == DaysBeforeMonth(d.year, d.month) + DaysInMonth(d.year, d.month);
    } else {
      assert next == YearMonthDay(d.year + 1, 1, 1);
      DaysBeforeYearStep(d.year);
      assert DaysBeforeMonth(d.year, 12) + 31 == DaysInYear(d.year);
    }
  }

  /** The next calendar day comes right after `d` in date order, with no date in between. */
  lemma NextDayFollows(d: Date, e: Date)
    requires d != YearMonthDay(MAX_YEAR, 12, 31)
    ensures Before(d, NextDay(d))
    ensures Before(d, e) ==> NotAfter(NextDay(d), e)
  {
  }

  /**
    Days counted from a common origin differ by the days between the dates,
    and keep the order of the dates.
   */
  lemma DayOffsets(a: Date, b: Date, origin: Date)
    ensures DaysBetween(a, origin) - DaysBetween(b, origin) == DaysBetween(a, b)
    ensures NotAfter(a, b) ==> DaysBetween(a, origin) <= DaysBetween(b, origin)
  {
    OrdinalOrder(a, b);
  }

  /** `Series.min()` over a non-empty column of dates. */
  function MinDate(dates: seq<Date>): (first: Date)
    requires |dates| > 0
    ensures first in dates
    ensures forall i :: 0 <= i < |dates| ==> NotAfter(first, dates[i])
  {
    if |dates| == 1 then dates[0]
    else
      var rest := MinDate(dates[1..]);
      if Before(rest, dates[0]) then rest else dates[0]
  }

  predicate IsDigit(c: char)
  {
    '0' <= c <= '9'
  }

  predicate AllDigits(s: string)
  {
    forall i :: 0 <= i < |s| ==> IsDigit(s[i])
  }

  /** The number a string of decimal digits spells. */
  function DigitsValue(s: string): nat
    requires AllDigits(s)
  {
    if |s| == 0 then 0
    else DigitsValue(s[..|s| - 1]) * 10 + (s[|s| - 1] as int - '0' as int)
  }

  function DigitChar(n: int): (c: char)
    requires 0 <= n < 10
    ensures IsDigit(c) && c as int - '0' as int == n
  {
    ('0' as int + n) as char
  }

  /** `str(n)` for a natural number: its decimal digits, without leading zeros. */
  function Decimal(n: nat): (s: string)
    ensures 1 <= |s|
    ensures AllDigits(s) && DigitsValue(s) == n
    ensures n < 10 ==> |s| == 1
    ensures n >= 10 ==> |s| == |Decimal(n / 10)| + 1
  {
    if n < 10 then [DigitChar(n)]
    else
      var s := Decimal(n / 10) + [DigitChar(n % 10)];
      assert s[..|s| - 1] == Decimal(n / 10);
      s
  }

  function Power10(k: nat): nat
  {
    if k == 0 then 1 else 10 * Power10(k - 1)
  }

  /** A number below 10^w has at most w digits. */
  lemma {:induction false} DecimalLength(n: nat, w: nat)
    requires 1 <= w && n < Power10(w)
    ensures |Decimal(n)| <= w
  {
    if n >= 10 {
      assert Power10(1) == 10;
      DecimalLength(n / 10, w - 1);
    }
  }

  function Zeros(k: nat): (s: string)
    ensures |s| == k && AllDigits(s) && DigitsValue(s) == 0
  {
    if k == 0 then []
    else
      var s := Zeros(k - 1) + ['0'];
      assert s[..|s| - 1] == Zeros(k - 1);
      s
  }

  /** Leading zeros do not change the number a digit string spells. */
  lemma {:induction false} LeadingZeros(k: nat, s: string)
    requires AllDigits(s)
    ensures AllDigits(Zeros(k) + s)
    ensures DigitsValue(Zeros(k) + s) == DigitsValue(s)
    decreases |s|
  {
    var z := Zeros(k) + s;
    if |s| > 0 {
      LeadingZeros(k, s[..|s| - 1]);
      assert z[..|z| - 1] == Zeros(k) + s[..|s| - 1];
    } else {
      assert z == Zeros(k);
    }
  }

  /** `'%0*d' % (width, n)`: `n` in decimal, left-padded with zeros to `width` digits. */
  function ZeroPadded(n: nat, width: nat): (s: string)
    requires n < Power10(width) && width >= 1
    ensures |s| == width
    ensures AllDigits(s) && DigitsValue(s) == n
  {
    var digits := Decimal(n);
    DecimalLength(n, width);
    LeadingZeros(width - |digits|, digits);
    Zeros(width - |digits|) + digits
  }

  /**
    `str(date)`, i.e. `date.isoformat()`: YYYY-MM-DD.  The three digit groups
    spell the year, month and day, so the text identifies the date.
   */
  function IsoFormat(d: Date): (s: string)
    ensures |s| == 10 && s[4] == '-' && s[7] == '-'
    ensures AllDigits(s[..4]) && DigitsValue(s[..4]) == d.year
    ensures AllDigits(s[5..7]) && DigitsValue(s[5..7]) == d.month
    ensures AllDigits(s[8..]) && DigitsValue(s[8..]) == d.day
  {
    SmallPowers();
    var year := ZeroPadded(d.year, 4);
    var month := ZeroPadded(d.month, 2);
    var day := ZeroPadded(d.day, 2);
    IsoLayout(year, month, day);
    year + "-" + month + "-" + day
  }

  /** Distinct dates are spelled differently, so a file name identifies its date. */
  lemma IsoFormatInjective(a: Date, b: Date)
    ensures IsoFormat(a) == IsoFormat(b) <==> a == b
  {
    var s, t := IsoFormat(a), IsoFormat(b);
    if s == t {
      assert s[..4] == t[..4] && s[5..7] == t[5..7] && s[8..] == t[8..];
    }
  }

  lemma SmallPowers()
    ensures Power10(2) == 100 && Power10(4) == 10000
  {
    assert Power10(1) == 10;
    assert Power10(3) == 1000;
  }

  lemma IsoLayout(year: string, month: string, day: string)
    requires |year| == 4 && |month| == 2 && |day| == 2
    ensures var s := year + "-" + month + "-" + day;
      && |s| == 10 && s[4] == '-' && s[7] == '-'
      && s[..4] == year && s[5..7] == month && s[8..] == day
  {
    var s := year + "-" + month + "-" + day;
    assert s[..4] == year;
    assert s[5..7] == month;
    assert s[8..] == day;
  }
}
