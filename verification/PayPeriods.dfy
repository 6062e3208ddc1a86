/**
 Pay periods: the span of days a payday month settles, from the day after one closing date to the next closing date.

 Dates are numbered by days; `Utc` is Date.UTC with its reading of two-digit years and its carrying of months and days.
 The main results are `PeriodsTileExactly`, `EveryDayHasOnePeriod` and `PeriodLength`.
 */
module PayPeriods {
  import opened Wrappers

  // ---- The calendar ----------------------------------------------------------------------------------------

  predicate IsLeap(year: nat) {
    year % 4 == 0 && (year % 100 != 0 || year % 400 == 0)
  }

  /** The length of a month, counted in months from year 0. */
  function DaysIn(m: nat): (d: nat)
    ensures 28 <= d <= 31
  {
    var i := m % 12;
    if i == 1 then (if IsLeap(m / 12) then 29 else 28)
    else if i == 3 || i == 5 || i == 8 || i == 10 then 30
    else 31
  }

  /** The number of days before a month. */
  function DaysBefore(m: nat): nat {
    if m == 0 then 0 else DaysBefore(m - 1) + DaysIn(m - 1)
  }

  lemma {:induction false} DaysBeforeGrows(l: nat, m: nat)
    requires l <= m
    ensures DaysBefore(l) + 28 * (m - l) <= DaysBefore(m)
    decreases m
  {
    if l < m {
      DaysBeforeGrows(l, m - 1);
    }
  }

  /** The leap years of the Gregorian calendar among the years 1 to `year`. */
  function LeapYears(year: nat): nat {
    year / 4 - year / 100 + year / 400
  }

  lemma FourthYear(year: nat)
    ensures (year + 1) / 4 == year / 4 + if (year + 1) % 4 == 0 then 1 else 0
  {
  }

  lemma HundredthYear(year: nat)
    ensures (year + 1) / 100 == year / 100 + if (year + 1) % 100 == 0 then 1 else 0
    ensures (year + 1) % 100 == 0 ==> (year + 1) % 4 == 0
  {
  }

  lemma FourHundredthYear(year: nat)
    ensures (year + 1) / 400 == year / 400 + if (year + 1) % 400 == 0 then 1 else 0
    ensures (year + 1) % 400 == 0 ==> (year + 1) % 100 == 0
  {
  }

  lemma OneYearMore(year: nat)
    ensures LeapYears(year + 1) == LeapYears(year) + if IsLeap(year + 1) then 1 else 0
  {
    FourthYear(year);
    HundredthYear(year);
    FourHundredthYear(year);
  }

  /** The days of a year that lie before a month, months counted from March. */
  const DAYS_FROM_MARCH := [0, 31, 61, 92, 122, 153, 184, 214, 245, 275, 306, 337]

  /** The lengths of the months from March to February. */
  lemma MonthsFromMarch(year: nat, k: nat)
    requires k < 12
    ensures DaysIn(12 * year + 2 + k) ==
            if k == 11 then 28 + (if IsLeap(year + 1) then 1 else 0) else DAYS_FROM_MARCH[k + 1] - DAYS_FROM_MARCH[k]
  {
    var m := 12 * year + 2 + k;
    if k < 10 {
      assert m % 12 == k + 2;
    } else {
      assert m % 12 == k - 10 && m / 12 == year + 1;
    }
  }

  lemma FirstMarch()
    ensures DaysBefore(2) == 60
  {
    assert DaysBefore(0) == 0 && DaysBefore(1) == 31;
  }

  lemma MonthFollows(year: nat, k: nat, days: nat)
    requires k < 11 && DaysBefore(12 * year + 2 + k) == days
    ensures DaysBefore(12 * year + 2 + k + 1) == days + DAYS_FROM_MARCH[k + 1] - DAYS_FROM_MARCH[k]
  {
    MonthsFromMarch(year, k);
  }

  lemma MarchFollows(year: nat, days: nat)
    requires DaysBefore(12 * year + 13) == days
    ensures DaysBefore(12 * (year + 1) + 2) == days + 28 + if IsLeap(year + 1) then 1 else 0
  {
    MonthsFromMarch(year, 11);
  }

  function DaysToMarch(year: nat): nat {
    60 + 365 * year + LeapYears(year)
  }

  lemma NextMarch(year: nat)
    ensures DaysToMarch(year + 1) == DaysToMarch(year) + 365 + if IsLeap(year + 1) then 1 else 0
  {
    OneYearMore(year);
  }

  lemma {:induction false} DaysFromMarch(year: nat, k: nat)
    requires k < 12 && DaysBefore(12 * year + 2) == DaysToMarch(year)
    ensures DaysBefore(12 * year + 2 + k) == DaysToMarch(year) + DAYS_FROM_MARCH[k]
    decreases k
  {
    if k > 0 {
      DaysFromMarch(year, k - 1);
      MonthFollows(year, k - 1, DaysToMarch(year) + DAYS_FROM_MARCH[k - 1]);
    }
  }

  lemma DaysToNextMarch(year: nat)
    requires DaysBefore(12 * year + 2) == DaysToMarch(year)
    ensures DaysBefore(12 * (year + 1) + 2) == DaysToMarch(year + 1)
  {
    DaysFromMarch(year, 11);
    MarchFollows(year, DaysToMarch(year) + 337);
    NextMarch(year);
  }

  lemma {:induction false} DaysToMarchAre(year: nat)
    ensures DaysBefore(12 * year + 2) == DaysToMarch(year)
  {
    if year == 0 {
      FirstMarch();
    } else {
      DaysToMarchAre(year - 1);
      DaysToNextMarch(year - 1);
    }
  }

  /**
   The days before a month in closed form, months counted from March: a year has 365 days, and one more if it is a leap
   year.
   */
  lemma DaysBeforeInClosedForm(year: nat, k: nat)
    requires k < 12
    ensures DaysBefore(12 * year + 2 + k) == 60 + 365 * year + LeapYears(year) + DAYS_FROM_MARCH[k]
  {
    DaysToMarchAre(year);
    DaysFromMarch(year, k);
  }

  lemma LeapYearsTo1969(year: nat)
    requires year == 1969
    ensures LeapYears(year) == 477
  {
  }

  /** The first day of 1970, from which Date.UTC counts, is the day of this number. */
  lemma EpochDay(year: nat)
    requires year == 1969
    ensures DaysBefore(12 * (year + 1)) == 719528
  {
    LeapYearsTo1969(year);
    DaysBeforeInClosedForm(year, 10);
  }

  /** Date.UTC takes a year below 100 as one of the 1900s. */
  function FullYear(year: nat): nat {
    if year < 100 then 1900 + year else year
  }

  /** The number of a day; months outside the year and day 0 carry over. */
  function Utc(year: nat, monthIndex: int, day: nat): (n: nat)
    requires -24 <= monthIndex
  {
    DaysBefore(FullYear(year) * 12 + monthIndex) + day
  }

  /** The month a day belongs to. */
  function MonthOf(n: nat, m: nat): (r: nat)
    requires DaysBefore(m) < n
    ensures m <= r && DaysBefore(r) < n <= DaysBefore(r + 1)
    decreases n - DaysBefore(m)
  {
    if n <= DaysBefore(m + 1) then m else MonthOf(n, m + 1)
  }

  lemma DaysBeforeKeepsOrder(l: nat, m: nat)
    requires l <= m
    ensures DaysBefore(l) <= DaysBefore(m)
  {
    DaysBeforeGrows(l, m);
  }

  lemma {:induction false} OneMonth(n: nat, l: nat, m: nat)
    requires DaysBefore(l) < n <= DaysBefore(l + 1) && DaysBefore(m) < n <= DaysBefore(m + 1)
    ensures l == m
  {
    if l < m {
      DaysBeforeKeepsOrder(l + 1, m);
    } else if m < l {
      DaysBeforeKeepsOrder(m + 1, l);
    }
  }

  function DayOfMonth(n: nat): nat
    requires 0 < n
  {
    n - DaysBefore(MonthOf(n, 0))
  }

  // ---- The source's functions ------------------------------------------------------------------------------

  datatype Calendar = Calendar(payday: nat, closeDay: nat, offset: nat)

  datatype Period = Period(start: nat, end: nat, payday: nat)

  predicate Offered(calendar: Calendar) {
    calendar.offset <= 1
  }

  function Min(a: nat, b: nat): nat {
    if a < b then a else b
  }

  /** Day 0 of the next month is the last day of this one. */
  function LastDay(year: nat, monthIndex: int): nat
    requires -2 <= monthIndex
  {
    DaysBeforeGrows(0, FullYear(year) * 12 + monthIndex + 1);
    DayOfMonth(Utc(year, monthIndex + 1, 0))
  }

  function CloseDate(year: nat, monthIndex: int, closeDay: nat): nat
    requires -2 <= monthIndex
  {
    Utc(year, monthIndex, if closeDay == 0 then LastDay(year, monthIndex) else Min(closeDay, LastDay(year, monthIndex)))
  }

  predicate IsDigit(c: char) {
    '0' <= c <= '9'
  }

  function Digit(c: char): nat
    requires IsDigit(c)
  {
    (c - '0') as nat
  }

  /** Four digits, a dash and a month from 01 to 12. */
  function ParseMonth(text: string): (r: Option<(nat, nat)>)
    ensures r.Some? ==> r.value.0 <= 9999 && 1 <= r.value.1 <= 12
  {
    if |text| == 7 && text[4] == '-' && IsDigit(text[0]) && IsDigit(text[1]) && IsDigit(text[2]) && IsDigit(text[3])
       && IsDigit(text[5]) && IsDigit(text[6])
    then
      var month := Digit(text[5]) * 10 + Digit(text[6]);
      if 1 <= month <= 12
      then Some((Digit(text[0]) * 1000 + Digit(text[1]) * 100 + Digit(text[2]) * 10 + Digit(text[3]), month))
      else None
    else None
  }

  function PeriodOf(calendar: Calendar, year: nat, month: nat): Period
    requires Offered(calendar) && 1 <= month <= 12
  {
    var monthIndex := month - 1;
    var close := monthIndex - calendar.offset;
    Period(CloseDate(year, close - 1, calendar.closeDay) + 1, CloseDate(year, close, calendar.closeDay),
           Utc(year, monthIndex, Min(calendar.payday, LastDay(year, monthIndex))))
  }

  /** A day of a year below 100 is that of the 1900s, for whatever is computed of it. */
  lemma TwoDigitYears(year: nat, monthIndex: int, day: nat)
    requires year < 100 && -24 <= monthIndex
    ensures Utc(year, monthIndex, day) == Utc(1900 + year, monthIndex, day)
  {
    assert FullYear(1900 + year) == FullYear(year);
  }

  lemma TwoDigitLastDay(year: nat, monthIndex: int)
    requires year < 100 && -2 <= monthIndex
    ensures LastDay(year, monthIndex) == LastDay(1900 + year, monthIndex)
  {
    TwoDigitYears(year, monthIndex + 1, 0);
  }

  function PayPeriodFor(calendar: Calendar, paydayMonth: string): Result<Period, string>
    requires Offered(calendar)
  {
    match ParseMonth(paydayMonth)
    case None => Err("invalid payday month")
    case Some((year, month)) => Ok(PeriodOf(calendar, year, month))
  }

  // ---- Closing dates by absolute month ---------------------------------------------------------------------

  function MonthNumber(year: nat, month: nat): nat
    requires 1 <= month <= 12
  {
    FullYear(year) * 12 + (month - 1)
  }

  /** The closing date in a month: the closing day, or the last day where the month is too short. */
  function CloseOf(closeDay: nat, m: nat): nat {
    DaysBefore(m) + (if closeDay == 0 || DaysIn(m) < closeDay then DaysIn(m) else closeDay)
  }

  lemma LastDayIsTheLast(year: nat, monthIndex: int)
    requires -2 <= monthIndex
    ensures LastDay(year, monthIndex) == DaysIn(FullYear(year) * 12 + monthIndex)
  {
    var m := FullYear(year) * 12 + monthIndex;
    var n := DaysBefore(m + 1);
    DaysBeforeGrows(0, m + 1);
    OneMonth(n, MonthOf(n, 0), m);
  }

  lemma CloseDateIsCloseOf(year: nat, monthIndex: int, closeDay: nat, m: nat)
    requires -2 <= monthIndex && m == FullYear(year) * 12 + monthIndex
    ensures CloseDate(year, monthIndex, closeDay) == CloseOf(closeDay, m)
  {
    LastDayIsTheLast(year, monthIndex);
  }

  lemma EndByMonthNumber(calendar: Calendar, year: nat, month: nat)
    requires Offered(calendar) && 1 <= month <= 12
    ensures PeriodOf(calendar, year, month).end == CloseOf(calendar.closeDay, MonthNumber(year, month) - calendar.offset)
  {
    CloseDateIsCloseOf(year, month - 1 - calendar.offset, calendar.closeDay, MonthNumber(year, month) - calendar.offset);
  }

  lemma StartByMonthNumber(calendar: Calendar, year: nat, month: nat)
    requires Offered(calendar) && 1 <= month <= 12
    ensures PeriodOf(calendar, year, month).start
         == CloseOf(calendar.closeDay, MonthNumber(year, month) - calendar.offset - 1) + 1
  {
    CloseDateIsCloseOf(year, month - 2 - calendar.offset, calendar.closeDay, MonthNumber(year, month) - calendar.offset - 1);
  }

  lemma PeriodByMonthNumber(calendar: Calendar, year: nat, month: nat)
    requires Offered(calendar) && 1 <= month <= 12
    ensures var close := MonthNumber(year, month) - calendar.offset;
            && PeriodOf(calendar, year, month).end == CloseOf(calendar.closeDay, close)
            && PeriodOf(calendar, year, month).start == CloseOf(calendar.closeDay, close - 1) + 1
  {
    EndByMonthNumber(calendar, year, month);
    StartByMonthNumber(calendar, year, month);
  }

  lemma MonthOfDay(m: nat, n: nat)
    requires DaysBefore(m) < n <= DaysBefore(m + 1)
    ensures MonthOf(n, 0) == m && DayOfMonth(n) == n - DaysBefore(m)
  {
    OneMonth(n, MonthOf(n, 0), m);
  }

  lemma MonthSpan(m: nat)
    ensures DaysBefore(m + 1) == DaysBefore(m) + DaysIn(m)
  {
  }

  lemma DayInMonth(m: nat, n: nat)
    requires DaysBefore(m) < n <= DaysBefore(m) + DaysIn(m)
    ensures MonthOf(n, 0) == m && DayOfMonth(n) == n - DaysBefore(m)
  {
    MonthSpan(m);
    MonthOfDay(m, n);
  }

  lemma PaydayNumber(calendar: Calendar, year: nat, month: nat)
    requires Offered(calendar) && 1 <= month <= 12
    ensures var m := MonthNumber(year, month);
            PeriodOf(calendar, year, month).payday == DaysBefore(m) + Min(calendar.payday, DaysIn(m))
  {
    LastDayIsTheLast(year, month - 1);
  }

  /** A payday that the month is too short for moves to its last day; it never leaves the payday month. */
  lemma PaydayIsInItsMonth(calendar: Calendar, year: nat, month: nat)
    requires Offered(calendar) && 1 <= month <= 12 && 0 < calendar.payday
    ensures var m := MonthNumber(year, month);
            var n := PeriodOf(calendar, year, month).payday;
            MonthOf(n, 0) == m && DayOfMonth(n) == Min(calendar.payday, DaysIn(m))
  {
    var m := MonthNumber(year, month);
    PaydayNumber(calendar, year, month);
    DayInMonth(m, PeriodOf(calendar, year, month).payday);
  }

  // ---- Periods tile the calendar ---------------------------------------------------------------------------

  function NextMonth(year: nat, month: nat): (nat, nat) {
    if month == 12 then (year + 1, 1) else (year, month + 1)
  }

  /** Every period lasts 28 to 31 days. */
  lemma PeriodLength(calendar: Calendar, year: nat, month: nat)
    requires Offered(calendar) && 1 <= month <= 12
    ensures var p := PeriodOf(calendar, year, month);
            28 <= p.end - p.start + 1 <= 31
  {
    PeriodByMonthNumber(calendar, year, month);
    CloseStep(calendar.closeDay, MonthNumber(year, month) - calendar.offset - 1);
  }

  lemma CloseStep(closeDay: nat, m: nat)
    ensures 28 <= CloseOf(closeDay, m + 1) - CloseOf(closeDay, m) <= 31
  {
    assert DaysBefore(m + 1) == DaysBefore(m) + DaysIn(m);
    assert DaysIn(m) == 31 || DaysIn(m) == 30 || DaysIn(m) <= 29;
  }

  lemma {:induction false} ClosesGrow(closeDay: nat, l: nat, m: nat)
    requires l <= m
    ensures CloseOf(closeDay, l) + 28 * (m - l) <= CloseOf(closeDay, m)
    decreases m
  {
    if l < m {
      ClosesGrow(closeDay, l, m - 1);
      CloseStep(closeDay, m - 1);
    }
  }

  lemma ClosesDiffer(closeDay: nat, l: nat, m: nat)
    ensures CloseOf(closeDay, l) == CloseOf(closeDay, m) <==> l == m
  {
    if l < m {
      ClosesGrow(closeDay, l, m);
    } else {
      ClosesGrow(closeDay, m, l);
    }
  }

  lemma NextMonthNumber(year: nat, month: nat)
    requires 1 <= month <= 12
    ensures var next := NextMonth(year, month);
            MonthNumber(next.0, next.1) == MonthNumber(year, month) + 1 <==> !(year == 99 && month == 12)
  {
  }

  lemma StartsAfterClose(closeDay: nat, l: nat, m: nat, start: nat, end: nat)
    requires start == CloseOf(closeDay, l) + 1 && end == CloseOf(closeDay, m)
    ensures start == end + 1 <==> l == m
  {
    ClosesDiffer(closeDay, l, m);
  }

  lemma StartsAfter(calendar: Calendar, year: nat, month: nat, laterYear: nat, laterMonth: nat)
    requires Offered(calendar) && 1 <= month <= 12 && 1 <= laterMonth <= 12
    ensures PeriodOf(calendar, laterYear, laterMonth).start == PeriodOf(calendar, year, month).end + 1
            <==> MonthNumber(laterYear, laterMonth) == MonthNumber(year, month) + 1
  {
    var l, m := MonthNumber(laterYear, laterMonth) - calendar.offset - 1, MonthNumber(year, month) - calendar.offset;
    var start, end := PeriodOf(calendar, laterYear, laterMonth).start, PeriodOf(calendar, year, month).end;
    assert end == CloseOf(calendar.closeDay, m) by { PeriodByMonthNumber(calendar, year, month); }
    assert start == CloseOf(calendar.closeDay, l) + 1 by { PeriodByMonthNumber(calendar, laterYear, laterMonth); }
    StartsAfterClose(calendar.closeDay, l, m, start, end);
  }

  /** The next month's period starts the day after this one ends, except from December of year 99 to January of year 100. */
  lemma PeriodsTileExactly(calendar: Calendar, year: nat, month: nat)
    requires Offered(calendar) && 1 <= month <= 12
    ensures var next := NextMonth(year, month);
            PeriodOf(calendar, next.0, next.1).start == PeriodOf(calendar, year, month).end + 1
            <==> !(year == 99 && month == 12)
  {
    StartsAfter(calendar, year, month, NextMonth(year, month).0, NextMonth(year, month).1);
    NextMonthNumber(year, month);
  }

  predicate InPeriod(n: nat, p: Period) {
    p.start <= n <= p.end
  }

  predicate PaidIn(calendar: Calendar, n: nat, year: nat, month: nat)
    requires Offered(calendar)
  {
    1 <= month <= 12 && InPeriod(n, PeriodOf(calendar, year, month))
  }

  /** The month, from `m` on, in whose closing span a day falls. */
  lemma {:induction false} ClosingMonth(closeDay: nat, n: nat, m: nat) returns (r: nat)
    requires CloseOf(closeDay, m) < n
    ensures m < r && CloseOf(closeDay, r - 1) < n <= CloseOf(closeDay, r)
    decreases n - CloseOf(closeDay, m)
  {
    CloseStep(closeDay, m);
    if n <= CloseOf(closeDay, m + 1) {
      r := m + 1;
    } else {
      r := ClosingMonth(closeDay, n, m + 1);
    }
  }

  lemma OneClosingMonth(closeDay: nat, n: nat, l: nat, m: nat)
    requires 0 < l && 0 < m && CloseOf(closeDay, l - 1) < n <= CloseOf(closeDay, l)
    requires CloseOf(closeDay, m - 1) < n <= CloseOf(closeDay, m)
    ensures l == m
  {
    if l < m {
      ClosesGrow(closeDay, l, m - 1);
    } else if m < l {
      ClosesGrow(closeDay, m, l - 1);
    }
  }

  lemma MonthOfNumber(year: nat, month: nat)
    requires 100 <= year && 1 <= month <= 12
    ensures year == MonthNumber(year, month) / 12 && month == MonthNumber(year, month) % 12 + 1
  {
  }

  /** A day is paid in a month exactly if the closing month it falls to is that many months earlier. */
  lemma PaidByClosingMonth(calendar: Calendar, n: nat, r: nat, year: nat, month: nat)
    requires Offered(calendar) && 1 <= month <= 12 && 0 < r
    requires CloseOf(calendar.closeDay, r - 1) < n <= CloseOf(calendar.closeDay, r)
    ensures PaidIn(calendar, n, year, month) <==> MonthNumber(year, month) == r + calendar.offset
  {
    PeriodByMonthNumber(calendar, year, month);
    var c := MonthNumber(year, month) - calendar.offset;
    if PaidIn(calendar, n, year, month) {
      OneClosingMonth(calendar.closeDay, n, c, r);
    }
  }

  /** The first year Date.UTC reads as it stands. */
  const FIRST_YEAR: nat := 100

  lemma DayHasAPeriod(calendar: Calendar, n: nat, first: nat) returns (r: nat)
    requires Offered(calendar) && FIRST_YEAR <= first && PeriodOf(calendar, first, 1).start <= n
    ensures first * 12 <= r + calendar.offset && 0 < r
    ensures CloseOf(calendar.closeDay, r - 1) < n <= CloseOf(calendar.closeDay, r)
  {
    PeriodByMonthNumber(calendar, first, 1);
    r := ClosingMonth(calendar.closeDay, n, first * 12 - calendar.offset - 1);
  }

  /** From a year on, 100 or later, every day lies in exactly one period. */
  lemma EveryDayHasOnePeriod(calendar: Calendar, n: nat, first: nat) returns (year: nat, month: nat)
    requires Offered(calendar) && FIRST_YEAR <= first && PeriodOf(calendar, first, 1).start <= n
    ensures first <= year && PaidIn(calendar, n, year, month)
    ensures forall y: nat, m: nat :: FIRST_YEAR <= y && PaidIn(calendar, n, y, m) ==> y == year && m == month
  {
    var r := DayHasAPeriod(calendar, n, first);
    var p := r + calendar.offset;
    year, month := p / 12, p % 12 + 1;
    PaidByClosingMonth(calendar, n, r, year, month);
    forall y: nat, m: nat | FIRST_YEAR <= y && PaidIn(calendar, n, y, m) ensures y == year && m == month {
      PaidByClosingMonth(calendar, n, r, y, m);
      MonthOfNumber(y, m);
    }
  }

  // ---- Reading the month -----------------------------------------------------------------------------------

  function DigitChar(d: nat): char
    requires d < 10
  {
    '0' + d as char
  }

  /** A month as the form sends it. */
  function MonthText(year: nat, month: nat): string
    requires year <= 9999 && 1 <= month <= 12
  {
    [DigitChar(year / 1000), DigitChar(year / 100 % 10), DigitChar(year / 10 % 10), DigitChar(year % 10), '-',
     DigitChar(month / 10), DigitChar(month % 10)]
  }

  lemma DigitOfDigitChar(d: nat)
    requires d < 10
    ensures IsDigit(DigitChar(d)) && Digit(DigitChar(d)) == d
  {
  }

  lemma YearDigits(year: nat)
    requires year <= 9999
    ensures year / 1000 < 10
    ensures year / 1000 * 1000 + year / 100 % 10 * 100 + year / 10 % 10 * 10 + year % 10 == year
  {
    assert year / 100 / 10 == year / 1000 && year / 10 / 10 == year / 100;
  }

  lemma LastDigit(q: nat, d: nat)
    requires d < 10
    ensures (q * 10 + d) / 10 == q && (q * 10 + d) % 10 == d
  {
  }

  lemma DigitsOfYear(a: nat, b: nat, c: nat, d: nat)
    requires a < 10 && b < 10 && c < 10 && d < 10
    ensures var year := a * 1000 + b * 100 + c * 10 + d;
            year / 1000 == a && year / 100 % 10 == b && year / 10 % 10 == c && year % 10 == d
  {
    var year, q, r := a * 1000 + b * 100 + c * 10 + d, a * 100 + b * 10 + c, a * 10 + b;
    LastDigit(q, d);
    LastDigit(r, c);
    LastDigit(a, b);
    assert year / 10 == q && q / 10 == r && r / 10 == a;
    assert year / 100 == year / 10 / 10 && year / 1000 == year / 10 / 10 / 10;
  }

  lemma ParseMonthReads(year: nat, month: nat)
    requires year <= 9999 && 1 <= month <= 12
    ensures ParseMonth(MonthText(year, month)) == Some((year, month))
  {
    YearDigits(year);
    DigitOfDigitChar(year / 1000);
    DigitOfDigitChar(year / 100 % 10);
    DigitOfDigitChar(year / 10 % 10);
    DigitOfDigitChar(year % 10);
    DigitOfDigitChar(month / 10);
    DigitOfDigitChar(month % 10);
  }

  lemma DigitCharOfDigit(c: char)
    requires IsDigit(c)
    ensures DigitChar(Digit(c)) == c
  {
  }

  lemma ParseMonthReadsOnlyMonths(text: string)
    requires ParseMonth(text).Some?
    ensures MonthText(ParseMonth(text).value.0, ParseMonth(text).value.1) == text
  {
    DigitsOfYear(Digit(text[0]), Digit(text[1]), Digit(text[2]), Digit(text[3]));
    DigitCharOfDigit(text[0]);
    DigitCharOfDigit(text[1]);
    DigitCharOfDigit(text[2]);
    DigitCharOfDigit(text[3]);
    DigitCharOfDigit(text[5]);
    DigitCharOfDigit(text[6]);
  }

  /** A period is computed exactly for the texts of months, and it is the period of that month. */
  lemma PayPeriodForExactly(calendar: Calendar, text: string)
    requires Offered(calendar)
    ensures PayPeriodFor(calendar, text).Ok? <==>
            exists year: nat, month: nat :: year <= 9999 && 1 <= month <= 12 && text == MonthText(year, month)
    ensures forall year: nat, month: nat :: year <= 9999 && 1 <= month <= 12 && text == MonthText(year, month) ==>
              PayPeriodFor(calendar, text) == Ok(PeriodOf(calendar, year, month))
  {
    if ParseMonth(text).Some? {
      ParseMonthReadsOnlyMonths(text);
    }
    forall year: nat, month: nat | year <= 9999 && 1 <= month <= 12 && text == MonthText(year, month)
      ensures ParseMonth(text) == Some((year, month))
    {
      ParseMonthReads(year, month);
    }
  }
}
