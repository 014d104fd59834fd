/**
 Months and weeks in Indian Standard Time. An instant is its number of microseconds from the
 start of 1970-01-01 UTC; a local date is the number of its day.
 */
module IndianTime {
  import opened Calendar

  const DAY := 86_400_000_000
  /** Five hours and a half. */
  const OFFSET := 19_800_000_000

  /** `ist_date_for`. */
  function IstDay(t: int): int {
    (t + OFFSET) / DAY
  }

  /** Midnight IST of day `n`, as an instant. */
  function Midnight(n: int): int {
    n * DAY - OFFSET
  }

  /** `start_of_day_utc` at `t`. */
  function StartOfDay(t: int): int {
    Midnight(IstDay(t))
  }

  /** `start_of_month_utc` at `t`: the first of the IST month, at midnight, as an instant. */
  ghost function StartOfMonth(t: int): int {
    Midnight(DayNumber(DateOf(IstDay(t)).(d := 1)))
  }

  /** `month_key_ist`. */
  ghost function MonthKey(t: int): Date {
    DateOf(IstDay(t)).(d := 1)
  }

  /** The start of the month after the one holding `t`. */
  ghost function EndOfMonth(t: int): int {
    Midnight(NextMonth(IstDay(t)))
  }

  /** An instant is on an IST day exactly between its midnight and the next. */
  lemma DayIsAnInterval(t: int, n: int)
    ensures IstDay(t) == n <==> Midnight(n) <= t < Midnight(n + 1)
    ensures IstDay(Midnight(n)) == n
  {
  }

  /**
   Two instants share an IST day exactly when the second lies in the twenty-four hours
   from the first's start of day.
   */
  lemma DaysTile(t: int, u: int)
    ensures IstDay(t) == IstDay(u) <==> StartOfDay(t) <= u < StartOfDay(t) + DAY
  {
  }

  /** Being on day `n` or later is being at its midnight or later. */
  lemma DaysInOrder(t: int, n: int)
    ensures n <= IstDay(t) <==> Midnight(n) <= t
  {
  }

  lemma StartIsFirst(t: int)
    ensures StartOfMonth(t) == Midnight(FirstOfMonth(IstDay(t)))
  {
  }

  lemma KeyIsMonth(t: int, u: int)
    ensures MonthKey(t) == MonthKey(u) <==> SameMonth(IstDay(t), IstDay(u))
  {
  }

  /** Two instants share a month key exactly when the second lies between the first's start of month and the next. */
  lemma SharedKey(t: int, u: int)
    ensures MonthKey(t) == MonthKey(u) <==> StartOfMonth(t) <= u < EndOfMonth(t)
  {
    KeyIsMonth(t, u);
    StartIsFirst(t);
    MonthIsABlock(IstDay(t), IstDay(u));
    DaysInOrder(u, FirstOfMonth(IstDay(t)));
    DaysInOrder(u, NextMonth(IstDay(t)));
  }

  /** The key and the start of the month tell the same months apart. */
  lemma KeyIsStart(t: int, u: int)
    ensures MonthKey(t) == MonthKey(u) <==> StartOfMonth(t) == StartOfMonth(u)
    ensures MonthKey(t).d == 1 && MonthKey(t) == DateOf(IstDay(StartOfMonth(t)))
  {
    DateOfNumber(MonthKey(t));
    DayIsAnInterval(t, DayNumber(MonthKey(t)));
    if MonthKey(t) != MonthKey(u) {
      if StartOfMonth(t) == StartOfMonth(u) {
        DateOfNumber(MonthKey(t));
        DateOfNumber(MonthKey(u));
        assert false;
      }
    }
  }

  /** Months follow one another without a gap: each ends where the next one starts, under another key. */
  lemma MonthsTile(t: int)
    ensures StartOfMonth(t) <= t < EndOfMonth(t)
    ensures StartOfMonth(EndOfMonth(t)) == EndOfMonth(t)
    ensures MonthKey(EndOfMonth(t)) != MonthKey(t)
    ensures StartOfMonth(StartOfMonth(t)) == StartOfMonth(t)
  {
    SharedKey(t, t);
    NextMonthIsFirst(IstDay(t));
    DayIsAnInterval(EndOfMonth(t), NextMonth(IstDay(t)));
    SharedKey(t, EndOfMonth(t));
    SharedKey(t, StartOfMonth(t));
  }

  /** A month starts, for the counters, at 18:30 UTC on the last day of the month before, and a day likewise. */
  lemma ResetsAtHalfPastSix(t: int)
    ensures StartOfMonth(t) == (FirstOfMonth(IstDay(t)) - 1) * 86_400_000_000 + 66_600_000_000
    ensures StartOfDay(t) == (IstDay(t) - 1) * 86_400_000_000 + 66_600_000_000
    ensures !SameMonth(FirstOfMonth(IstDay(t)) - 1, IstDay(t))
  {
    StartIsFirst(t);
    MonthIsABlock(IstDay(t), FirstOfMonth(IstDay(t)) - 1);
  }

  // ---- Weeks ----

  /** `date.weekday()`: Monday is 0; 1970-01-01 was a Thursday. */
  function Weekday(n: int): int {
    (n + 3) % 7
  }

  /** `last_completed_week_ist`: Monday and Sunday of the last week over before the week of `today`. */
  function LastCompletedWeek(today: int): (week: (int, int))
    ensures Weekday(week.0) == 0 && Weekday(week.1) == 6 && week.1 == week.0 + 6
    ensures 1 <= today - week.1 <= 7
  {
    var thisMonday := today - Weekday(today);
    var lastSunday := thisMonday - 1;
    (lastSunday - 6, lastSunday)
  }

  /** No other Monday-to-Sunday block ends within the last seven days. */
  lemma OnlySuchWeek(today: int, monday: int)
    requires Weekday(monday) == 0 && 1 <= today - (monday + 6) <= 7
    ensures LastCompletedWeek(today) == (monday, monday + 6)
  {
  }

  /** The first of January 2024 was a Monday, and each week's Monday is a whole number of weeks from it. */
  lemma WeeksOfTheCalendar(today: int)
    ensures (LastCompletedWeek(today).0 - DayNumber(Date(2024, 1, 1))) % 7 == 0
  {
    assert DayNumber(Date(2024, 1, 1)) == 19723;
  }

  predicate InWeek(day: int, today: int) {
    LastCompletedWeek(today).0 <= day <= LastCompletedWeek(today).1
  }

  /** Two blocks are the same or do not overlap, and as days go by the next block is the one right after. */
  lemma WeeksTile(today: int, later: int)
    requires today <= later <= today + 7
    ensures var (monday, sunday) := LastCompletedWeek(today);
            LastCompletedWeek(later)
            == if today - Weekday(today) + 7 <= later then (sunday + 1, sunday + 7) else (monday, sunday)
  {
  }

  predicate AtLeastWeekly(todays: seq<int>) {
    forall i | 0 < i < |todays| :: todays[i-1] <= todays[i] <= todays[i-1] + 7
  }

  /** Debriefs made at least every seven days leave no day out between the first block and the last. */
  lemma {:induction false} NoDaySkipped(todays: seq<int>, day: int)
    requires todays != [] && AtLeastWeekly(todays)
    requires LastCompletedWeek(todays[0]).0 <= day <= LastCompletedWeek(todays[|todays|-1]).1
    ensures exists i | 0 <= i < |todays| :: InWeek(day, todays[i])
    decreases |todays|
  {
    var n := |todays| - 1;
    if n > 0 {
      WeeksTile(todays[n-1], todays[n]);
      if day <= LastCompletedWeek(todays[n-1]).1 {
        NoDaySkipped(todays[..n], day);
        var i :| 0 <= i < n && InWeek(day, todays[..n][i]);
        assert InWeek(day, todays[i]);
      } else {
        assert InWeek(day, todays[n]);
      }
    } else {
      assert InWeek(day, todays[0]);
    }
  }

  lemma OneMonday(a: int, b: int)
    requires Weekday(a) == 0 && Weekday(b) == 0 && -7 < a - b < 7
    ensures a == b
  {
  }

  /** No day is in two different blocks. */
  lemma OneBlockADay(day: int, today: int, other: int)
    requires InWeek(day, today) && InWeek(day, other)
    ensures LastCompletedWeek(today) == LastCompletedWeek(other)
  {
    var week, week' := LastCompletedWeek(today), LastCompletedWeek(other);
    OneMonday(week.0, week'.0);
    assert week == (week.0, week.0 + 6) && week' == (week'.0, week'.0 + 6);
  }
}
