/**
 Calendar-month arithmetic on JavaScript time values: `nextPeriodEnd` in lib/quota.ts and
 `addMonths` in the comp-grant route. Days, years and months are numbered as in section 21.4.1
 of ECMA-262 (month 0 is January, day 0 is 1 January 1970); the server's local zone is UTC.
 */
module Calendar {

  const MS_PER_DAY := 86_400_000

  predicate Leap(y: int) {
    y % 4 == 0 && (y % 100 != 0 || y % 400 == 0)
  }

  function DaysInYear(y: int): int {
    if Leap(y) then 366 else 365
  }

  /** DayFromYear of ECMA-262, as the sum of the years between 1970 and `y`. */
  function DayFromYear(y: int): int
    decreases if y < 1970 then 1970 - y else y - 1970
  {
    if y == 1970 then 0
    else if y > 1970 then DayFromYear(y - 1) + DaysInYear(y - 1)
    else DayFromYear(y + 1) - DaysInYear(y)
  }

  function DaysInMonth(y: int, m: int): (n: int)
    requires 0 <= m < 12
    ensures 28 <= n <= 31
  {
    if m == 1 then (if Leap(y) then 29 else 28)
    else if m == 3 || m == 5 || m == 8 || m == 10 then 30
    else 31
  }

  /** Days of year `y` that precede its month `m`: the table of MonthFromTime in ECMA-262. */
  function DaysBefore(y: int, m: int): int
    requires 0 <= m <= 12
  {
    var feb := if Leap(y) then 29 else 28;
    var sinceMarch :=
      if m == 3 then 31 else if m == 4 then 61 else if m == 5 then 92 else if m == 6 then 122
      else if m == 7 then 153 else if m == 8 then 184 else if m == 9 then 214 else if m == 10 then 245
      else if m == 11 then 275 else if m == 12 then 306 else 0;
    if m == 0 then 0 else if m == 1 then 31 else (31 + feb + sinceMarch)
  }

  lemma MonthStep(y: int, m: int)
    requires 0 <= m < 12
    ensures DaysBefore(y, m + 1) == DaysBefore(y, m) + DaysInMonth(y, m)
  {
  }

  function FirstOfMonth(y: int, m: int): int
    requires 0 <= m <= 12
  {
    DayFromYear(y) + DaysBefore(y, m)
  }

  /** MakeDay of ECMA-262: months and dates may lie outside their usual range. */
  function MakeDay(y: int, m: int, date: int): int {
    FirstOfMonth(y + m / 12, m % 12) + date - 1
  }

  datatype Date = Date(year: int, month: int, date: int) {
    predicate Valid() {
      0 <= month < 12 && 1 <= date <= DaysInMonth(year, month)
    }
  }

  /** The three leap-year terms of DayFromYear advance at the multiples of 4, 100 and 400. */
  lemma Fours(y: int)
    ensures (y - 1968) / 4 - (y - 1969) / 4 == if y % 4 == 0 then 1 else 0
  {
  }

  lemma Centuries(y: int)
    ensures (y - 1900) / 100 - (y - 1901) / 100 == if y % 100 == 0 then 1 else 0
  {
  }

  lemma FourCenturies(y: int)
    ensures (y - 1600) / 400 - (y - 1601) / 400 == if y % 400 == 0 then 1 else 0
  {
  }

  lemma MultiplesNest(y: int)
    ensures y % 400 == 0 ==> y % 100 == 0
    ensures y % 100 == 0 ==> y % 4 == 0
  {
  }

  /** The closed formula by which ECMA-262 defines DayFromYear. */
  function YearDay(y: int): int {
    365 * (y - 1970) + (y - 1969) / 4 - (y - 1901) / 100 + (y - 1601) / 400
  }

  lemma YearDayStep(y: int)
    ensures YearDay(y + 1) == YearDay(y) + DaysInYear(y)
  {
    Fours(y);
    Centuries(y);
    FourCenturies(y);
    MultiplesNest(y);
  }

  lemma {:induction false} DayFromYearFormula(y: int)
    ensures DayFromYear(y) == YearDay(y)
    decreases if y < 1970 then 1970 - y else y - 1970
  {
    if y > 1970 {
      DayFromYearFormula(y - 1);
      YearDayStep(y - 1);
    } else if y < 1970 {
      DayFromYearFormula(y + 1);
      YearDayStep(y);
    }
  }

  lemma YearStep(y: int)
    ensures DayFromYear(y + 1) == DayFromYear(y) + DaysInYear(y)
  {
  }

  /** Walks from year `y` to the year that contains `day`. */
  function YearFrom(day: int, y: int): (r: int)
    ensures DayFromYear(r) <= day < DayFromYear(r + 1)
    decreases if day < DayFromYear(y) then DayFromYear(y) - day
              else if DayFromYear(y + 1) <= day then day - DayFromYear(y + 1) + 1 else 0
  {
    YearStep(y); YearStep(y - 1); YearStep(y + 1);
    if day < DayFromYear(y) then YearFrom(day, y - 1)
    else if DayFromYear(y + 1) <= day then YearFrom(day, y + 1)
    else y
  }

  /** The month at or after `m` that contains the `n`-th day of year `y`. */
  function MonthFrom(y: int, n: int, m: int): (r: int)
    requires 0 <= m < 12 && DaysBefore(y, m) <= n < DaysBefore(y, 12)
    ensures m <= r < 12 && DaysBefore(y, r) <= n < DaysBefore(y, r + 1)
    decreases 12 - m
  {
    if n < DaysBefore(y, m + 1) then m else MonthFrom(y, n, m + 1)
  }

  /** YearFromTime, MonthFromTime and DateFromTime of ECMA-262, on a day number. */
  function Decode(day: int): (d: Date)
    ensures d.Valid()
    ensures FirstOfMonth(d.year, d.month) + d.date - 1 == day
  {
    var y := YearFrom(day, 1970);
    YearStep(y);
    var n := day - DayFromYear(y);
    var m := MonthFrom(y, n, 0);
    Date(y, m, n - DaysBefore(y, m) + 1)
  }

  lemma {:induction false} YearsMonotone(x: int, y: int)
    requires x <= y
    ensures DayFromYear(x) <= DayFromYear(y)
    decreases y - x
  {
    if x < y {
      YearsMonotone(x, y - 1);
      YearStep(y - 1);
    }
  }

  lemma SameYear(day: int, x: int, y: int)
    requires DayFromYear(x) <= day < DayFromYear(x + 1)
    requires DayFromYear(y) <= day < DayFromYear(y + 1)
    ensures x == y
  {
    if x < y {
      YearsMonotone(x + 1, y);
    } else if y < x {
      YearsMonotone(y + 1, x);
    }
  }

  lemma SameMonth(y: int, n: int, m: int, k: int)
    requires 0 <= m < 12 && DaysBefore(y, m) <= n < DaysBefore(y, m + 1)
    requires 0 <= k < 12 && DaysBefore(y, k) <= n < DaysBefore(y, k + 1)
    ensures m == k
  {
  }

  lemma WithinYear(d: Date)
    requires d.Valid()
    ensures 0 <= DaysBefore(d.year, d.month) <= DaysBefore(d.year, d.month) + d.date - 1
    ensures DaysBefore(d.year, d.month) + d.date - 1 < DaysBefore(d.year, d.month + 1) <= DaysInYear(d.year)
  {
  }

  /** Two valid dates with the same day number are the same date. */
  lemma DatesDiffer(d: Date, e: Date)
    requires d.Valid() && e.Valid()
    requires FirstOfMonth(d.year, d.month) + d.date == FirstOfMonth(e.year, e.month) + e.date
    ensures d == e
  {
    WithinYear(d);
    WithinYear(e);
    YearStep(d.year);
    YearStep(e.year);
    SameYear(FirstOfMonth(d.year, d.month) + d.date - 1, d.year, e.year);
    SameMonth(d.year, DaysBefore(d.year, d.month) + d.date - 1, d.month, e.month);
  }

  /** A day number has one calendar date: decoding inverts MakeDay on every valid date. */
  lemma DecodeMakeDay(d: Date)
    requires d.Valid()
    ensures Decode(MakeDay(d.year, d.month, d.date)) == d
  {
    assert d.month / 12 == 0 && d.month % 12 == d.month;
    DatesDiffer(d, Decode(MakeDay(d.year, d.month, d.date)));
  }

  /** The month after month `m` of year `y` starts DaysInMonth later. */
  lemma NextMonth(y: int, m: int)
    requires 0 <= m < 12
    ensures FirstOfMonth(y + (m + 1) / 12, (m + 1) % 12) == FirstOfMonth(y, m) + DaysInMonth(y, m)
  {
    YearStep(y);
    MonthStep(y, m);
    if m == 11 {
      assert (m + 1) / 12 == 1 && (m + 1) % 12 == 0;
    } else {
      assert (m + 1) / 12 == 0 && (m + 1) % 12 == m + 1;
    }
  }

  function MonthsLater(day: int, months: int): int {
    var d := Decode(day);
    MakeDay(d.year, d.month + months, d.date)
  }

  /** What `setMonth(getMonth() + months)` makes of the time value `t`. */
  function AddMonths(t: int, months: int): int {
    MonthsLater(t / MS_PER_DAY, months) * MS_PER_DAY + t % MS_PER_DAY
  }

  function NextPeriodEnd(t: int): int {
    AddMonths(t, 1)
  }

  /** A billing period is exactly as long as the month it starts in. */
  lemma PeriodIsOneMonth(t: int)
    ensures var d := Decode(t / MS_PER_DAY);
            NextPeriodEnd(t) - t == DaysInMonth(d.year, d.month) * MS_PER_DAY
    ensures 28 * MS_PER_DAY <= NextPeriodEnd(t) - t <= 31 * MS_PER_DAY
  {
    var d := Decode(t / MS_PER_DAY);
    NextMonth(d.year, d.month);
  }

  /** The date `months` after `d`: same day of the month if the target month has it, else spilled. */
  function Shifted(d: Date, months: int): Date
    requires d.Valid()
  {
    var y, m := d.year + (d.month + months) / 12, (d.month + months) % 12;
    if d.date <= DaysInMonth(y, m) then Date(y, m, d.date)
    else Date(y + (m + 1) / 12, (m + 1) % 12, d.date - DaysInMonth(y, m))
  }

  lemma ShiftedDay(d: Date, months: int)
    requires d.Valid()
    ensures Shifted(d, months).Valid()
    ensures var e := Shifted(d, months);
            FirstOfMonth(e.year, e.month) + e.date - 1 == MakeDay(d.year, d.month + months, d.date)
  {
    NextMonth(d.year + (d.month + months) / 12, (d.month + months) % 12);
  }

  /**
   Day-of-month overflow: adding months keeps the day of the month exactly when the target month
   is long enough, and otherwise spills the excess days into the month after it.
   */
  lemma OverflowDate(day: int, months: int)
    ensures Decode(MonthsLater(day, months)) == Shifted(Decode(day), months)
  {
    ShiftedDay(Decode(day), months);
    DatesDiffer(Decode(MonthsLater(day, months)), Shifted(Decode(day), months));
  }

  lemma Assembled(day: int, time: int)
    requires 0 <= time < MS_PER_DAY
    ensures (day * MS_PER_DAY + time) / MS_PER_DAY == day
    ensures (day * MS_PER_DAY + time) % MS_PER_DAY == time
  {
  }

  /** On time values, adding months moves the day number and keeps the time of day. */
  lemma AddMonthsKeepsTime(t: int, months: int)
    ensures AddMonths(t, months) / MS_PER_DAY == MonthsLater(t / MS_PER_DAY, months)
    ensures AddMonths(t, months) % MS_PER_DAY == t % MS_PER_DAY
  {
    Assembled(MonthsLater(t / MS_PER_DAY, months), t % MS_PER_DAY);
  }

  /** Months later, the date is shifted and the time of day is the same. */
  lemma MovedDate(t: int, months: int)
    ensures Decode(AddMonths(t, months) / MS_PER_DAY) == Shifted(Decode(t / MS_PER_DAY), months)
    ensures AddMonths(t, months) % MS_PER_DAY == t % MS_PER_DAY
  {
    AddMonthsKeepsTime(t, months);
    OverflowDate(t / MS_PER_DAY, months);
  }

  /** Setting the month of `t` shifts its date and keeps its time of day. */
  lemma SetMonthDate(t: int, month: int, months: int)
    requires month == Decode(t / MS_PER_DAY).month + months
    ensures Decode(AddMonths(t, months) / MS_PER_DAY) == Shifted(Decode(t / MS_PER_DAY), months)
    ensures AddMonths(t, months) % MS_PER_DAY == t % MS_PER_DAY
    ensures var d := Decode(t / MS_PER_DAY);
            AddMonths(t, months) == MakeDay(d.year, month, d.date) * MS_PER_DAY + t % MS_PER_DAY
  {
    hide Decode, MakeDay, Shifted;
    MovedDate(t, months);
  }

  /** A date and a time of day make one time value. */
  lemma SameTime(t: int, u: int)
    requires Decode(t / MS_PER_DAY) == Decode(u / MS_PER_DAY) && t % MS_PER_DAY == u % MS_PER_DAY
    ensures t == u
  {
    var d := Decode(t / MS_PER_DAY);
    assert t / MS_PER_DAY == FirstOfMonth(d.year, d.month) + d.date - 1 == u / MS_PER_DAY;
  }

  /** The shifted date at the same time of day is the time value months later. */
  lemma MovedTime(t: int, u: int, months: int)
    requires Decode(u / MS_PER_DAY) == Shifted(Decode(t / MS_PER_DAY), months)
    requires u % MS_PER_DAY == t % MS_PER_DAY
    ensures u == AddMonths(t, months)
  {
    MovedDate(t, months);
    SameTime(u, AddMonths(t, months));
  }

  /** A JavaScript Date object. */
  class JsDate {
    var time: int

    constructor (time: int)
      ensures this.time == time
    {
      this.time := time;
    }

    method GetMonth() returns (m: int)
      ensures m == Decode(time / MS_PER_DAY).month
    {
      m := Decode(time / MS_PER_DAY).month;
    }

    /**
     Date.prototype.setMonth with one argument: the same day of the given month if it has one, else
     spilled into the next, at the same time of day.
     */
    method SetMonth(month: int)
      modifies this
      ensures var d := Decode(old(time) / MS_PER_DAY);
              Decode(time / MS_PER_DAY) == Shifted(d, month - d.month)
      ensures time % MS_PER_DAY == old(time) % MS_PER_DAY
    {
      var d := Decode(time / MS_PER_DAY);
      SetMonthDate(time, month, month - d.month);
      time := MakeDay(d.year, month, d.date) * MS_PER_DAY + time % MS_PER_DAY;
    }
  }

  /** `addMonths`: the argument is left alone, a fresh Date is moved. */
  method AddMonthsTo(from: JsDate, months: int) returns (out: JsDate)
    ensures fresh(out) && out.time == AddMonths(from.time, months)
    ensures from.time == old(from.time)
  {
    out := new JsDate(from.time);
    var m := out.GetMonth();
    out.SetMonth(m + months);
    MovedTime(from.time, out.time, months);
  }

  /** The 24-month comp grant lasts 731 days exactly when it spans the end of a February 29. */
  lemma CompGrantTerm(t: int)
    ensures var d := Decode(t / MS_PER_DAY);
            var leaps := if d.month <= 1 then Leap(d.year) || Leap(d.year + 1)
                         else Leap(d.year + 1) || Leap(d.year + 2);
            AddMonths(t, 24) - t == (if leaps then 731 else 730) * MS_PER_DAY
  {
    var d := Decode(t / MS_PER_DAY);
    assert (d.month + 24) / 12 == 2 && (d.month + 24) % 12 == d.month;
    TwoYears(d.year, d.month);
  }

  /** Leap years are at least four years apart. */
  lemma LeapSpacing(y: int)
    requires Leap(y)
    ensures !Leap(y + 1) && !Leap(y + 2)
  {
  }

  lemma DaysBeforeShift(x: int, y: int, m: int)
    requires 0 <= m < 12
    ensures DaysBefore(y, m) - DaysBefore(x, m) == if m <= 1 then 0 else DaysInYear(y) - DaysInYear(x)
  {
  }

  lemma TwoYears(y: int, m: int)
    requires 0 <= m < 12
    ensures FirstOfMonth(y + 2, m) - FirstOfMonth(y, m)
         == if (m <= 1 && (Leap(y) || Leap(y + 1))) || (m > 1 && (Leap(y + 1) || Leap(y + 2)))
            then 731 else 730
  {
    TwoYearsDays(y);
    DaysBeforeShift(y, y + 2, m);
    if Leap(y) { LeapSpacing(y); }
    if Leap(y + 1) { LeapSpacing(y + 1); }
  }

  lemma TwoYearsDays(y: int)
    ensures DayFromYear(y + 2) == DayFromYear(y) + DaysInYear(y) + DaysInYear(y + 1)
  {
    YearStep(y);
    YearStep(y + 1);
  }

  // ---------- In plain numbers ----------

  /** The period in milliseconds, month by month. */
  lemma PeriodInMilliseconds(t: int)
    ensures var d := Decode(t / 86_400_000);
            var february := if d.year % 4 == 0 && (d.year % 100 != 0 || d.year % 400 == 0) then 29 else 28;
            NextPeriodEnd(t) - t
            == [31, february, 31, 30, 31, 30, 31, 31, 30, 31, 30, 31][d.month] * 86_400_000
  {
    PeriodIsOneMonth(t);
  }

  /** The comp grant in milliseconds. */
  lemma GrantInMilliseconds(t: int)
    ensures AddMonths(t, 24) - t == 63_072_000_000 || AddMonths(t, 24) - t == 63_158_400_000
  {
    CompGrantTerm(t);
  }

  /** January 31 and a month is March 3, or March 2 in a leap year. */
  lemma JanuaryOverflow(y: int)
    ensures Decode(MonthsLater(MakeDay(y, 0, 31), 1)) == Date(y, 2, if Leap(y) then 2 else 3)
  {
    DecodeMakeDay(Date(y, 0, 31));
    OverflowDate(MakeDay(y, 0, 31), 1);
  }

  lemma DateOf(day: int, d: Date)
    requires d.Valid() && FirstOfMonth(d.year, d.month) + d.date - 1 == day
    ensures Decode(day) == d
  {
    DatesDiffer(d, Decode(day));
  }

  /** Day 0 is 1 January 1970. */
  lemma Epoch(day: int, y: int)
    requires day == 0 && y == 1970
    ensures Decode(day) == Date(y, 0, 1)
  {
    DateOf(day, Date(y, 0, 1));
  }

  /** Day 19782 is 29 February 2024. */
  lemma LeapDay(day: int, y: int)
    requires day == 19_782 && y == 2024
    ensures Decode(day) == Date(y, 1, 29)
  {
    DayFromYearFormula(y);
    DateOf(day, Date(y, 1, 29));
  }
}
