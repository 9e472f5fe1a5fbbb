/** Calendar arithmetic: broken-down time to seconds since the Epoch, against a calendar that is walked one day
    at a time. */
module Calendar {
  // ---- The reference: the Gregorian calendar, one day after the other from 1970-01-01 ----

  datatype Date = Date(year: int, month: int, day: int)

  predicate IsLeap(year: int) {
    year % 4 == 0 && (year % 100 != 0 || year % 400 == 0)
  }

  function DaysInMonth(year: int, month: int): int
    requires 1 <= month <= 12
  {
    if month == 2 then (if IsLeap(year) then 29 else 28)
    else if month in {4, 6, 9, 11} then 30
    else 31
  }

  predicate IsDate(d: Date) {
    d.year >= 1970 && 1 <= d.month <= 12 && 1 <= d.day <= DaysInMonth(d.year, d.month)
  }

  function NextDay(d: Date): (r: Date)
    requires IsDate(d)
    ensures IsDate(r)
  {
    if d.day < DaysInMonth(d.year, d.month) then d.(day := d.day + 1)
    else if d.month < 12 then Date(d.year, d.month + 1, 1)
    else Date(d.year + 1, 1, 1)
  }

  // The date of day `n` since the Epoch, as gmtime gives it.
  function DateOf(n: nat): (d: Date)
    ensures IsDate(d)
  {
    if n == 0 then Date(1970, 1, 1) else NextDay(DateOf(n - 1))
  }

  // ---- The code's formula ----

  datatype Tm = Tm(sec: int, min: int, hour: int, mday: int, mon: int, year: int)

  // Integer division of C truncates toward zero.
  function Quot(a: int, b: int): int
    requires b > 0
  {
    if a >= 0 then a / b else -(-a / b)
  }

  function Rem(a: int, b: int): int
    requires b > 0
  {
    a - b * Quot(a, b)
  }

  const MONTH_DAY := [0, 31, 59, 90, 120, 151, 181, 212, 243, 273, 304, 334]

  // Leap days before March of the year before `year` (counted from 1900), up to a constant.
  function LeapDays(year: int): int {
    Quot(year - 69, 4) - Quot(year - 1, 100) + Quot(year + 299, 400)
  }

  // Days since the Epoch of day `mday` of `month` (0 to 11) of `year` (counted from 1900).
  function EpochDays(year: int, month: int, mday: int): int
    requires 0 <= month < 12
  {
    var yearForLeap := if month > 1 then year + 1 else year;
    MONTH_DAY[month] + mday - 1 + 365 * (year - 70) + LeapDays(yearForLeap)
  }

  // Month and year once a month number outside 0..11 has been folded into the year.
  function FoldedMonth(tm: Tm): (month: int)
    ensures 0 <= month < 12
  {
    var month := Rem(tm.mon, 12);
    if month < 0 then month + 12 else month
  }

  function FoldedYear(tm: Tm): int {
    tm.year + Quot(tm.mon, 12) - if Rem(tm.mon, 12) < 0 then 1 else 0
  }

  function MkGmTime(tm: Tm): int {
    var days := EpochDays(FoldedYear(tm), FoldedMonth(tm), tm.mday);
    var rt := tm.sec + 60 * (tm.min + 60 * (tm.hour + 24 * days));
    if rt < 0 then -1 else rt
  }

  function DayNumber(d: Date): int
    requires 1 <= d.month <= 12
  {
    EpochDays(d.year - 1900, d.month - 1, d.day)
  }

  // ---- The formula counts days ----

  lemma {:induction false} LeapStep(y: int)
    requires y >= 70
    ensures LeapDays(y + 1) == LeapDays(y) + if IsLeap(y + 1900) then 1 else 0
  {
    assert (y + 1900) % 4 == (y - 68) % 4;
    assert (y + 1900) % 100 == y % 100;
    assert (y + 1900) % 400 == (y + 300) % 400;
    DivStep(y - 69, 4);
    DivStep(y - 1, 100);
    DivStep(y + 299, 400);
  }

  lemma {:induction false} DivStep(a: nat, b: nat)
    requires b > 0
    ensures (a + 1) / b == a / b + if (a + 1) % b == 0 then 1 else 0
  {
    var q, r := a / b, a % b;
    assert a == q * b + r;
    if r + 1 == b {
      assert a + 1 == (q + 1) * b;
      Division(a + 1, b, q + 1, 0);
    } else {
      Division(a + 1, b, q, r + 1);
    }
  }

  lemma {:induction false} Multiple(d: int, b: nat)
    ensures d > 0 ==> d * b >= b
    ensures d < 0 ==> d * b + b <= 0
  {
  }

  lemma {:induction false} Division(a: int, b: int, q: int, r: int)
    requires 0 <= r < b && a == q * b + r
    ensures a / b == q && a % b == r
  {
    var d := q - a / b;
    assert a % b - r == d * b;
    Multiple(d, b);
  }

  lemma {:induction false} NextDayNumber(d: Date)
    requires IsDate(d)
    ensures DayNumber(NextDay(d)) == DayNumber(d) + 1
  {
    LeapStep(d.year - 1900);
    hide LeapDays, IsLeap;
    if d.day == DaysInMonth(d.year, d.month) && d.month < 12 {
      MonthEnds(d.year, d.month);
    }
  }

  lemma {:induction false} MonthEnds(year: int, month: int)
    requires 1 <= month < 12
    ensures MONTH_DAY[month] - MONTH_DAY[month - 1]
            == DaysInMonth(year, month) - if month == 2 && IsLeap(year) then 1 else 0
  {
    hide IsLeap;
  }

  lemma {:induction false} DayNumberOfDateOf(n: nat)
    ensures DayNumber(DateOf(n)) == n
  {
    if n == 0 {
      assert DayNumber(Date(1970, 1, 1)) == 0;
    } else {
      DayNumberOfDateOf(n - 1);
      NextDayNumber(DateOf(n - 1));
      hide DayNumber, NextDay, IsDate;
    }
  }

  lemma {:induction false} YearBegins(y: int)
    requires y >= 1970
    ensures exists n: nat :: DateOf(n) == Date(y, 1, 1)
    decreases y, 0
  {
    if y == 1970 {
      assert DateOf(0) == Date(1970, 1, 1);
    } else {
      DateIsReached(Date(y - 1, 12, 31));
      var n: nat :| DateOf(n) == Date(y - 1, 12, 31);
      assert DateOf(n + 1) == Date(y, 1, 1);
    }
  }

  // Every date from the Epoch on is reached by the walk.
  lemma {:induction false} DateIsReached(d: Date)
    requires IsDate(d)
    ensures exists n: nat :: DateOf(n) == d
    decreases d.year, d.month, d.day
  {
    if d.day > 1 {
      var p := d.(day := d.day - 1);
      DateIsReached(p);
      var n: nat :| DateOf(n) == p;
      assert DateOf(n + 1) == d;
    } else if d.month > 1 {
      var p := Date(d.year, d.month - 1, DaysInMonth(d.year, d.month - 1));
      DateIsReached(p);
      var n: nat :| DateOf(n) == p;
      assert DateOf(n + 1) == d;
    } else {
      YearBegins(d.year);
    }
  }

  // The formula and the calendar are inverse to each other.
  lemma {:induction false} DateOfDayNumber(d: Date)
    requires IsDate(d)
    ensures DayNumber(d) >= 0 && DateOf(DayNumber(d)) == d
  {
    DateIsReached(d);
    var n: nat :| DateOf(n) == d;
    DayNumberOfDateOf(n);
  }

  // ---- _mkgmtime ----

  predicate IsTimeOfDay(tm: Tm) {
    0 <= tm.hour < 24 && 0 <= tm.min < 60 && 0 <= tm.sec < 60
  }

  // Whole years are folded out of the month, for any month number.
  lemma {:induction false} MonthsFold(tm: Tm)
    ensures FoldedMonth(tm) == tm.mon % 12 && FoldedYear(tm) == tm.year + tm.mon / 12
  {
    var q, r := tm.mon / 12, tm.mon % 12;
    if tm.mon < 0 {
      if r == 0 {
        assert -tm.mon / 12 == -q;
      } else {
        assert -tm.mon == (-q - 1) * 12 + (12 - r);
      }
    }
  }

  // The seconds of any date from the Epoch on and any time of day, with the month folded: the days walked from
  // 1970-01-01, and the seconds of the last one.
  lemma {:induction false} MkGmTimeCountsDays(tm: Tm, n: nat)
    requires IsTimeOfDay(tm)
    requires DateOf(n) == Date(tm.year + tm.mon / 12 + 1900, tm.mon % 12 + 1, tm.mday)
    ensures MkGmTime(tm) == n * 86400 + tm.hour * 3600 + tm.min * 60 + tm.sec
  {
    MonthsFold(tm);
    DayNumberOfDateOf(n);
    hide EpochDays, FoldedMonth, FoldedYear;
    assert DayNumber(DateOf(n)) == EpochDays(FoldedYear(tm), FoldedMonth(tm), tm.mday);
  }

  // For any day of the month and any time, whether they lie in it or not: the seconds from the first of the month on,
  // and -1 before the Epoch.
  lemma {:induction false} MkGmTimeCarries(tm: Tm, n: nat)
    requires DateOf(n) == Date(tm.year + tm.mon / 12 + 1900, tm.mon % 12 + 1, 1)
    ensures var t := (n + tm.mday - 1) * 86400 + tm.hour * 3600 + tm.min * 60 + tm.sec;
            MkGmTime(tm) == if t >= 0 then t else -1
  {
    MonthsFold(tm);
    DayNumberOfDateOf(n);
    DaysFromTheFirst(FoldedYear(tm), FoldedMonth(tm), tm.mday);
    hide EpochDays, FoldedMonth, FoldedYear, DateOf;
    assert DayNumber(DateOf(n)) == EpochDays(FoldedYear(tm), FoldedMonth(tm), 1);
  }

  lemma {:induction false} DaysFromTheFirst(year: int, month: int, mday: int)
    requires 0 <= month < 12
    ensures EpochDays(year, month, mday) == EpochDays(year, month, 1) + mday - 1
  {
    hide LeapDays;
  }

  lemma {:induction false} FewLeapDays(y: int)
    requires y <= 70
    ensures LeapDays(y) <= 0
  {
  }

  // Before the Epoch the result is -1.
  lemma {:induction false} BeforeTheEpoch(tm: Tm)
    requires IsTimeOfDay(tm) && tm.year < 70 && 0 <= tm.mon < 12 && 1 <= tm.mday <= 31
    ensures MkGmTime(tm) == -1
  {
    MonthsFold(tm);
    FewLeapDays(tm.year);
    FewLeapDays(tm.year + 1);
    hide LeapDays;
    assert EpochDays(FoldedYear(tm), FoldedMonth(tm), tm.mday) < 0;
    hide EpochDays;
  }

  // "Seconds Since the Epoch", section 4.16 of the Base Definitions of IEEE Std 1003.1-2017: the day of the year
  // is the number of days since January 1.
  function DaysBeforeMonth(year: int, month: int): int
    requires 1 <= month <= 12
  {
    if month == 1 then 0 else DaysBeforeMonth(year, month - 1) + DaysInMonth(year, month - 1)
  }

  function SecondsSinceTheEpoch(tm: Tm): int
    requires 0 <= tm.mon < 12
  {
    var yday := DaysBeforeMonth(tm.year + 1900, tm.mon + 1) + tm.mday - 1;
    tm.sec + tm.min * 60 + tm.hour * 3600 + yday * 86400 + (tm.year - 70) * 31536000
    + ((tm.year - 69) / 4) * 86400 - ((tm.year - 1) / 100) * 86400 + ((tm.year + 299) / 400) * 86400
  }

  lemma {:induction false} DaysBeforeMonthTable(year: int, month: int)
    requires 1 <= month <= 12
    ensures DaysBeforeMonth(year, month) == MONTH_DAY[month - 1] + if month > 2 && IsLeap(year) then 1 else 0
  {
    if month > 1 {
      DaysBeforeMonthTable(year, month - 1);
    }
  }

  lemma {:induction false} MkGmTimeIsPosix(tm: Tm)
    requires IsTimeOfDay(tm) && 0 <= tm.mon < 12
    requires IsDate(Date(tm.year + 1900, tm.mon + 1, tm.mday))
    ensures MkGmTime(tm) == SecondsSinceTheEpoch(tm)
  {
    var d := Date(tm.year + 1900, tm.mon + 1, tm.mday);
    PosixCountsDays(tm, d);
    DateOfDayNumber(d);
    hide *;
    MkGmTimeCountsDays(tm, DayNumber(d));
  }

  lemma {:induction false} PosixCountsDays(tm: Tm, d: Date)
    requires 0 <= tm.mon < 12 && d == Date(tm.year + 1900, tm.mon + 1, tm.mday) && IsDate(d)
    ensures SecondsSinceTheEpoch(tm) == DayNumber(d) * 86400 + tm.hour * 3600 + tm.min * 60 + tm.sec
  {
    DayNumberIsPosix(d, tm.year);
    hide DayNumber, DaysBeforeMonth, IsDate;
  }

  lemma {:induction false} DayNumberIsPosix(d: Date, year: int)
    requires IsDate(d) && year == d.year - 1900
    ensures DayNumber(d) == DaysBeforeMonth(d.year, d.month) + d.day - 1 + (year - 70) * 365
                            + (year - 69) / 4 - (year - 1) / 100 + (year + 299) / 400
  {
    DaysBeforeMonthTable(d.year, d.month);
    LeapStep(year);
    assert LeapDays(year) == (year - 69) / 4 - (year - 1) / 100 + (year + 299) / 400;
    hide IsLeap, LeapDays, DaysBeforeMonth;
  }
}
