/**
 The proleptic Gregorian calendar as a numbering of days from 1970-01-01, with the
 formulas of section 21.4.1 of ECMA-262, against the calendar as people count it:
 each date has a next date.
 */
module Calendar {
  datatype Date = Date(y: int, m: int, d: int)

  predicate Leap(y: int) {
    y % 4 == 0 && (y % 100 != 0 || y % 400 == 0)
  }

  function DaysInMonth(y: int, m: int): (n: int)
    requires 1 <= m <= 12
    ensures 28 <= n <= 31
  {
    if m == 2 then if Leap(y) then 29 else 28
    else if m in {4, 6, 9, 11} then 30
    else 31
  }

  /** Long and short months alternate, anew from August on; February is the exception. */
  lemma MonthLengths(y: int, m: int)
    requires 1 <= m <= 12
    ensures m != 2 ==> DaysInMonth(y, m) == if m < 8 then 30 + m % 2 else 31 - m % 2
    ensures m == 2 ==> DaysInMonth(y, m) == DaysInMonth(y, 4) - 2 + YearLength(y) - 365
  {
  }

  /** Four hundred years on, the calendar repeats: the same dates, a whole number of weeks later. */
  lemma CalendarRepeats(date: Date)
    requires Valid(date)
    ensures Valid(date.(y := date.y + 400))
    ensures DayNumber(date.(y := date.y + 400)) == DayNumber(date) + 7 * 20_871
  {
    SameLeap(date.y);
    MonthsRepeat(date.y, date.m);
    YearsRepeat(date.y);
  }

  lemma FourthsRepeat(y: int)
    ensures (y + 400) % 4 == y % 4 && (y + 400 - 1969) / 4 == (y - 1969) / 4 + 100
  {
  }

  lemma HundredthsRepeat(y: int)
    ensures (y + 400) % 100 == y % 100 && (y + 400 - 1901) / 100 == (y - 1901) / 100 + 4
  {
  }

  lemma FourHundredthsRepeat(y: int)
    ensures (y + 400) % 400 == y % 400 && (y + 400 - 1601) / 400 == (y - 1601) / 400 + 1
  {
  }

  lemma YearsRepeat(y: int)
    ensures YearStart(y + 400) == YearStart(y) + 146_097
  {
    FourthsRepeat(y);
    HundredthsRepeat(y);
    FourHundredthsRepeat(y);
  }

  lemma SameLeap(y: int)
    ensures Leap(y + 400) == Leap(y)
  {
    FourthsRepeat(y);
    HundredthsRepeat(y);
    FourHundredthsRepeat(y);
  }

  lemma {:induction false} MonthsRepeat(y: int, m: int)
    requires 1 <= m <= 13
    ensures MonthStart(y + 400, m) == MonthStart(y, m)
    decreases m
  {
    SameLeap(y);
    if m > 1 {
      MonthsRepeat(y, m - 1);
    }
  }

  predicate Valid(date: Date) {
    1 <= date.m <= 12 && 1 <= date.d <= DaysInMonth(date.y, date.m)
  }

  /** The number of the first of January of `y`. */
  function YearStart(y: int): int {
    365 * (y - 1970) + (y - 1969) / 4 - (y - 1901) / 100 + (y - 1601) / 400
  }

  function YearLength(y: int): int {
    if Leap(y) then 366 else 365
  }

  lemma FourthYear(y: int)
    ensures (y + 1 - 1969) / 4 == (y - 1969) / 4 + if y % 4 == 0 then 1 else 0
  {
  }

  lemma HundredthYear(y: int)
    ensures (y + 1 - 1901) / 100 == (y - 1901) / 100 + if y % 100 == 0 then 1 else 0
  {
  }

  lemma FourHundredthYear(y: int)
    ensures (y + 1 - 1601) / 400 == (y - 1601) / 400 + if y % 400 == 0 then 1 else 0
  {
  }

  lemma FourHundredthIsHundredth(y: int)
    ensures y % 400 == 0 ==> y % 100 == 0
  {
    assert y % 400 == 0 ==> y == 100 * (4 * (y / 400));
  }

  lemma HundredthIsFourth(y: int)
    ensures y % 100 == 0 ==> y % 4 == 0
  {
    assert y % 100 == 0 ==> y == 4 * (25 * (y / 100));
  }

  lemma LeapDays(y: int)
    ensures (if Leap(y) then 1 else 0)
         == (if y % 4 == 0 then 1 else 0) - (if y % 100 == 0 then 1 else 0) + (if y % 400 == 0 then 1 else 0)
  {
    FourHundredthIsHundredth(y);
    HundredthIsFourth(y);
  }

  lemma NextYearStart(y: int)
    ensures YearStart(y + 1) == YearStart(y) + YearLength(y)
  {
    FourthYear(y);
    HundredthYear(y);
    FourHundredthYear(y);
    LeapDays(y);
  }

  /** The days of the year before the first of month `m`; `m == 13` is the whole year. */
  function MonthStart(y: int, m: int): int
    requires 1 <= m <= 13
    decreases m
  {
    if m == 1 then 0 else MonthStart(y, m - 1) + DaysInMonth(y, m - 1)
  }

  lemma MonthsFillTheYear(y: int)
    ensures MonthStart(y, 13) == YearLength(y)
  {
    assert MonthStart(y, 4) == 59 + 31 + if Leap(y) then 1 else 0;
    assert MonthStart(y, 7) == MonthStart(y, 4) + 91;
    assert MonthStart(y, 10) == MonthStart(y, 7) + 92;
  }

  lemma MonthsGrow(y: int, m: int, n: int)
    requires 1 <= m < n <= 13
    ensures MonthStart(y, m) + DaysInMonth(y, m) <= MonthStart(y, n)
    decreases n
  {
    if m < n - 1 {
      MonthsGrow(y, m, n - 1);
    }
  }

  function DayNumber(date: Date): int
    requires 1 <= date.m <= 12
  {
    YearStart(date.y) + MonthStart(date.y, date.m) + date.d - 1
  }

  /** The year holding day `n`, looked for from `y`. */
  function YearFrom(n: int, y: int): (r: int)
    ensures YearStart(r) <= n < YearStart(r) + YearLength(r)
    decreases if n < YearStart(y) then YearStart(y) - n else if n >= YearStart(y + 1) then n - YearStart(y) else 0
  {
    NextYearStart(y);
    NextYearStart(y - 1);
    if n < YearStart(y) then YearFrom(n, y - 1)
    else if n >= YearStart(y + 1) then YearFrom(n, y + 1)
    else y
  }

  /** The month holding the `k`-th day of year `y`, looked for from `m`. */
  function MonthFrom(y: int, k: int, m: int): (r: int)
    requires 1 <= m <= 12 && MonthStart(y, m) <= k < MonthStart(y, 13)
    ensures 1 <= r <= 12 && MonthStart(y, r) <= k < MonthStart(y, r) + DaysInMonth(y, r)
    decreases 12 - m
  {
    if k < MonthStart(y, m + 1) then m else MonthFrom(y, k, m + 1)
  }

  /** The date of the `k`-th day of year `y`. */
  function InYear(y: int, k: int): (date: Date)
    requires 0 <= k < YearLength(y)
    ensures Valid(date) && date.y == y && MonthStart(y, date.m) + date.d - 1 == k
  {
    MonthsFillTheYear(y);
    var m := MonthFrom(y, k, 1);
    Date(y, m, k - MonthStart(y, m) + 1)
  }

  /** The date of day `n`. */
  function Located(n: int): (date: Date)
    ensures Valid(date) && DayNumber(date) == n
  {
    var y := YearFrom(n, 1970);
    InYear(y, n - YearStart(y))
  }

  method CivilDate(n: int) returns (date: Date)
    ensures date == DateOf(n)
  {
    date := Located(n);
    DateOfNumber(date);
  }

  // ---- The two are inverse ----

  lemma YearsGrow(y: int, z: int)
    requires y < z
    ensures YearStart(y) + YearLength(y) <= YearStart(z)
    decreases z - y
  {
    NextYearStart(y);
    if y + 1 < z {
      YearsGrow(y + 1, z);
    }
  }

  /** Every day has a date. */
  lemma DateExists(n: int)
    ensures exists date :: Valid(date) && DayNumber(date) == n
  {
    var date := Located(n);
    assert Valid(date) && DayNumber(date) == n;
  }

  /** The date numbered `n`. */
  ghost function DateOf(n: int): (date: Date)
    ensures Valid(date) && DayNumber(date) == n
  {
    DateExists(n);
    var date :| Valid(date) && DayNumber(date) == n;
    date
  }

  /** A valid date lies in its own month of its own year. */
  lemma InItsYear(date: Date)
    requires Valid(date)
    ensures 0 <= DayNumber(date) - YearStart(date.y) < YearLength(date.y)
  {
    MonthsFillTheYear(date.y);
    MonthsGrow(date.y, date.m, 13);
    if date.m > 1 {
      MonthsGrow(date.y, 1, date.m);
    }
  }

  /** Valid dates are numbered in calendar order: year, then month, then day. */
  lemma NumbersFollowDates(a: Date, b: Date)
    requires Valid(a) && Valid(b)
    requires a.y < b.y || (a.y == b.y && (a.m < b.m || (a.m == b.m && a.d < b.d)))
    ensures DayNumber(a) < DayNumber(b)
  {
    InItsYear(a);
    InItsYear(b);
    if a.y < b.y {
      YearsGrow(a.y, b.y);
    } else if a.m < b.m {
      MonthsGrow(a.y, a.m, b.m);
    }
  }

  /** The date of a valid date's number is that date. */
  lemma DateOfNumber(date: Date)
    requires Valid(date)
    ensures DateOf(DayNumber(date)) == date
  {
    var back := DateOf(DayNumber(date));
    if back != date {
      if back.y < date.y || (back.y == date.y && (back.m < date.m || (back.m == date.m && back.d < date.d))) {
        NumbersFollowDates(back, date);
      } else {
        NumbersFollowDates(date, back);
      }
    }
  }

  // ---- Against the calendar as it is counted ----

  function NextDate(date: Date): Date
    requires 1 <= date.m <= 12
  {
    if date.d < DaysInMonth(date.y, date.m) then date.(d := date.d + 1)
    else if date.m < 12 then Date(date.y, date.m + 1, 1)
    else Date(date.y + 1, 1, 1)
  }

  /** Counting on `k` dates. */
  function Later(date: Date, k: nat): (r: Date)
    requires Valid(date)
    ensures Valid(r)
  {
    if k == 0 then date else NextDate(Later(date, k - 1))
  }

  lemma NextDayIsNextDate(date: Date)
    requires Valid(date)
    ensures Valid(NextDate(date)) && DayNumber(NextDate(date)) == DayNumber(date) + 1
  {
    if date.d == DaysInMonth(date.y, date.m) {
      assert MonthStart(date.y, date.m + 1) == MonthStart(date.y, date.m) + DaysInMonth(date.y, date.m);
      if date.m == 12 {
        MonthsFillTheYear(date.y);
        NextYearStart(date.y);
      }
    }
  }

  lemma DateOfNextDay(n: int)
    ensures DateOf(n + 1) == NextDate(DateOf(n))
  {
    NextDayIsNextDate(DateOf(n));
    DateOfNumber(NextDate(DateOf(n)));
  }

  /** Day 0 is the day time values are counted from. */
  lemma Epoch()
    ensures DateOf(0) == Date(1970, 1, 1)
  {
    DateOfNumber(Date(1970, 1, 1));
  }

  /** One more day is one more date counted. */
  lemma CountOneMore(m: int, date: Date, k: nat)
    requires Valid(date) && DateOf(m) == Later(date, k)
    ensures DateOf(m + 1) == Later(date, k + 1)
  {
    DateOfNextDay(m);
  }

  /** Adding `k` to a day's number is counting on `k` dates, over any month end, year end or leap day. */
  lemma {:induction false} CountingDays(n: int, k: nat)
    ensures DateOf(n + k) == Later(DateOf(n), k)
  {
    if k > 0 {
      CountingDays(n, k - 1);
      CountOneMore(n + (k - 1), DateOf(n), k - 1);
    }
  }

  // ---- Months as blocks of days ----

  /** The number of the first day of the month holding day `n`. */
  ghost function FirstOfMonth(n: int): int {
    n - DateOf(n).d + 1
  }

  /** The number of the first day of the next month. */
  ghost function NextMonth(n: int): int {
    FirstOfMonth(n) + DaysInMonth(DateOf(n).y, DateOf(n).m)
  }

  ghost predicate SameMonth(n: int, k: int) {
    DateOf(n).y == DateOf(k).y && DateOf(n).m == DateOf(k).m
  }

  /** The dates of a month are those numbered from its first day for as many days as it has. */
  lemma MonthOfDate(a: Date, b: Date)
    requires Valid(a) && Valid(b)
    ensures a.y == b.y && a.m == b.m
       <==> 0 <= DayNumber(b) - DayNumber(a.(d := 1)) < DaysInMonth(a.y, a.m)
  {
    if a.y < b.y || (a.y == b.y && a.m < b.m) {
      NumbersFollowDates(a.(d := DaysInMonth(a.y, a.m)), b);
    } else if b.y < a.y || b.m < a.m {
      NumbersFollowDates(b, a.(d := 1));
    }
  }

  /** A day is in the month of `n` exactly when it lies between the first of that month and of the next. */
  lemma MonthIsABlock(n: int, k: int)
    ensures SameMonth(n, k) <==> FirstOfMonth(n) <= k < NextMonth(n)
    ensures SameMonth(n, k) ==> FirstOfMonth(n) == FirstOfMonth(k)
  {
    MonthOfDate(DateOf(n), DateOf(k));
  }

  lemma NextMonthIsFirst(n: int)
    ensures FirstOfMonth(NextMonth(n)) == NextMonth(n) > n
  {
    var last := DateOf(n).(d := DaysInMonth(DateOf(n).y, DateOf(n).m));
    NextDayIsNextDate(last);
    DateOfNumber(NextDate(last));
  }
}
