/**
 The dashboard's date range: ISO strings in and out of local dates, and the window each
 period selects. A local date is the number of its day; a date that is no date is `None`.
 */
module DateRange {
  import opened Options
  import opened Calendar
  import opened Decimals

  // ---- Local dates as ECMAScript keeps them ----

  /** A time value may be at most this many days from the epoch. */
  const MAX_DAY := 100_000_000

  predicate InRange(n: int) {
    -MAX_DAY <= n <= MAX_DAY
  }

  /** The last date there is. */
  lemma LastDate()
    ensures Valid(Date(275_760, 9, 13)) && InRange(DayNumber(Date(275_760, 9, 13)))
    ensures !InRange(DayNumber(Date(275_760, 9, 14)))
  {
    MonthStarts(275_760);
  }

  /** The days before September in a leap year. */
  lemma MonthStarts(y: int)
    requires Leap(y)
    ensures MonthStart(y, 9) == 244
  {
    assert MonthStart(y, 3) == 60 && MonthStart(y, 6) == 60 + 92;
  }

  function Clip(n: int): Option<int> {
    if InRange(n) then Some(n) else None
  }

  /** `MakeDay`: months and days out of range carry over. `month` counts from 0. */
  function MakeDay(y: int, month: int, dt: int): int {
    DayNumber(Date(y + month / 12, month % 12 + 1, 1)) + dt - 1
  }

  /** `new Date(y, month, dt)`, which takes the years 0 to 99 for 1900 to 1999. */
  function NewDate(y: int, month: int, dt: int): Option<int> {
    Clip(MakeDay(if 0 <= y <= 99 then 1900 + y else y, month, dt))
  }

  /** `a < b` on dates: false when either is not a date. */
  predicate Before(a: Option<int>, b: Option<int>) {
    a.Some? && b.Some? && a.value < b.value
  }

  /** A JavaScript date, whose setters change it in place. */
  class LocalDate {
    var day: Option<int>

    constructor (day: Option<int>)
      ensures this.day == day
    {
      this.day := day;
    }

    method SetDate(dt: int)
      modifies this
      ensures day == if old(day).Some? then Clip(FirstOfMonth(old(day).value) + dt - 1) else None
    {
      if day.Some? {
        var date := CivilDate(day.value);
        MakeDayThere(date, dt);
        day := Clip(MakeDay(date.y, date.m - 1, dt));
      }
    }

    method SetMonth(month: int, dt: int)
      modifies this
      ensures day == if old(day).Some? then Clip(MakeDay(DateOf(old(day).value).y, month, dt)) else None
    {
      if day.Some? {
        var date := CivilDate(day.value);
        day := Clip(MakeDay(date.y, month, dt));
      }
    }

    method SetFullYear(y: int)
      requires day.Some?
      modifies this
      ensures day == var was := DateOf(old(day).value); Clip(MakeDay(y, was.m - 1, was.d))
    {
      var date := CivilDate(day.value);
      day := Clip(MakeDay(y, date.m - 1, date.d));
    }

    method GetDate() returns (d: int)
      requires day.Some?
      ensures d == DateOf(day.value).d
    {
      var date := CivilDate(day.value);
      d := date.d;
    }

    method ToISODate() returns (s: string)
      ensures s == Iso(day)
    {
      if day == None {
        return "NaN-NaN-NaN";
      }
      var date := CivilDate(day.value);
      s := Shown(date);
    }
  }

  lemma MakeDayThere(date: Date, dt: int)
    requires Valid(date)
    ensures MakeDay(date.y, date.m - 1, dt) == DayNumber(date) - date.d + dt
  {
    assert (date.m - 1) / 12 == 0 && (date.m - 1) % 12 == date.m - 1;
  }

  /** Months out of range carry into the years, and days on from there. */
  lemma MakeDayCarries(y: int, month: int, dt: int)
    ensures MakeDay(y, month + 12, dt) == MakeDay(y + 1, month, dt)
    ensures MakeDay(y, month, dt + 1) == MakeDay(y, month, dt) + 1
  {
    TwelveMore(month);
    assert MakeDay(y, month + 12, dt) == DayNumber(Date(y + 1 + month / 12, month % 12 + 1, 1)) + dt - 1;
  }

  lemma TwelveMore(month: int)
    ensures (month + 12) / 12 == month / 12 + 1 && (month + 12) % 12 == month % 12
  {
  }

  // ---- Printing and parsing ----

  function Numeral(n: int): string {
    if n < 0 then "-" + Digits(-n) else Digits(n)
  }

  /** `String(n).padStart(2, "0")`. */
  function PadTwo(n: nat): string {
    if n < 10 then "0" + Digits(n) else Digits(n)
  }

  function Shown(date: Date): string
    requires Valid(date)
  {
    Numeral(date.y) + "-" + PadTwo(date.m) + "-" + PadTwo(date.d)
  }

  ghost function Iso(t: Option<int>): string {
    if t.Some? then Shown(DateOf(t.value)) else "NaN-NaN-NaN"
  }

  /** `s.split("-")`. */
  function Split(s: string): (parts: seq<string>)
    ensures |parts| >= 1
  {
    if s == "" then [""]
    else
      var rest := Split(s[1..]);
      if s[0] == '-' then [""] + rest else [[s[0]] + rest[0]] + rest[1..]
  }

  function NumberOf(s: string): Option<int> {
    if AllDigits(s) then Some(Value(s)) else None
  }

  /** The three numbers of a date string, parts beyond the third dropped. */
  function Numbers(iso: string): Option<(int, int, int)> {
    var parts := Split(iso);
    if |parts| < 3 then None
    else
      var y, m, d := NumberOf(parts[0]), NumberOf(parts[1]), NumberOf(parts[2]);
      if y.Some? && m.Some? && d.Some? then Some((y.value, m.value, d.value)) else None
  }

  /** A part that is missing or no number makes the date no date. */
  function ParseDate(iso: string): Option<int> {
    match Numbers(iso)
    case Some((y, m, d)) => NewDate(y, m - 1, d)
    case None => None
  }

  lemma {:induction false} SplitFirst(a: string, rest: string)
    requires '-' !in a
    ensures Split(a + "-" + rest) == [a] + Split(rest)
    ensures Split(a) == [a]
  {
    var s := a + "-" + rest;
    if a == "" {
      assert s[1..] == rest;
    } else {
      assert s[1..] == a[1..] + "-" + rest;
      SplitFirst(a[1..], rest);
      assert a == [a[0]] + a[1..];
    }
  }

  lemma SplitThree(a: string, b: string, c: string)
    requires '-' !in a && '-' !in b && '-' !in c
    ensures Split(a + "-" + b + "-" + c) == [a, b, c]
  {
    assert a + "-" + b + "-" + c == a + "-" + (b + "-" + c);
    SplitFirst(a, b + "-" + c);
    SplitFirst(b, c);
    SplitFirst(c, "");
  }

  lemma PadTwoValue(n: nat)
    ensures AllDigits(PadTwo(n)) && Value(PadTwo(n)) == n
    ensures n < 100 ==> |PadTwo(n)| == 2
  {
    ValueOfDigits(n);
    if n < 10 {
      ValueSnoc("0", n);
      assert "0"[..0] == "";
    }
  }

  lemma SplitLeadingDash(s: string, y: string, m: string, d: string)
    requires '-' !in y && '-' !in m && '-' !in d && s == "-" + (y + "-" + m + "-" + d)
    ensures Split(s) == ["", y, m, d]
  {
    var rest := y + "-" + m + "-" + d;
    SplitThree(y, m, d);
    assert s == "" + "-" + rest;
    SplitFirst("", rest);
  }

  lemma ShownValues(date: Date)
    requires Valid(date)
    ensures AllDigits(PadTwo(date.m)) && Value(PadTwo(date.m)) == date.m
    ensures AllDigits(PadTwo(date.d)) && Value(PadTwo(date.d)) == date.d
    ensures '-' !in PadTwo(date.m) && '-' !in PadTwo(date.d)
  {
    PadTwoValue(date.m);
    PadTwoValue(date.d);
  }

  /** The numbers in the printed form of a date of a year that is not negative. */
  lemma NumbersShown(date: Date)
    requires Valid(date) && date.y >= 0
    ensures Numbers(Shown(date)) == Some((date.y, date.m, date.d))
  {
    ValueOfDigits(date.y);
    ShownValues(date);
    SplitThree(Digits(date.y), PadTwo(date.m), PadTwo(date.d));
  }

  /** The minus sign of a negative year reads as a separator: year 0, then the year as a month. */
  lemma NumbersOfNegative(date: Date)
    requires Valid(date) && date.y < 0
    ensures Numbers(Shown(date)) == Some((0, -date.y, date.m))
  {
    var y, m, d := Digits(-date.y), PadTwo(date.m), PadTwo(date.d);
    ValueOfDigits(-date.y);
    ShownValues(date);
    NegativeShown(date, y, m, d);
    SplitLeadingDash(Shown(date), y, m, d);
  }

  lemma NegativeShown(date: Date, y: string, m: string, d: string)
    requires Valid(date) && date.y < 0 && y == Digits(-date.y) && m == PadTwo(date.m) && d == PadTwo(date.d)
    ensures Shown(date) == "-" + (y + "-" + m + "-" + d)
  {
  }

  lemma YearsApart(a: Date, b: Date)
    requires 1 <= a.m <= 12 && a.d >= 1 && Valid(b) && a.y > b.y
    ensures DayNumber(a) > DayNumber(b)
  {
    NumbersFollowDates(b, a.(d := 1));
  }

  lemma NegativeReadsLater(date: Date)
    requires Valid(date) && date.y < 0
    ensures NewDate(0, -date.y - 1, date.m) != Some(DayNumber(date))
  {
    var month := -date.y - 1;
    var first := Date(1900 + month / 12, month % 12 + 1, 1);
    assert first.y >= 1900 && 1 <= first.m <= 12;
    YearsApart(first, date);
    assert MakeDay(1900, month, date.m) == DayNumber(first) + date.m - 1;
  }

  lemma EarlyReadsLater(date: Date)
    requires Valid(date) && 0 <= date.y < 100
    ensures NewDate(date.y, date.m - 1, date.d) != Some(DayNumber(date))
  {
    var first := Date(1900 + date.y, date.m, 1);
    MakeDayThere(first, date.d);
    YearsApart(first, date);
  }

  lemma LateReadsSame(date: Date)
    requires Valid(date) && date.y >= 100 && InRange(DayNumber(date))
    ensures NewDate(date.y, date.m - 1, date.d) == Some(DayNumber(date))
  {
    MakeDayThere(date, date.d);
  }

  /** Reading back what was printed gives the date again exactly from the year 100 on. */
  lemma ParseUndoesPrint(n: int)
    requires InRange(n)
    ensures ParseDate(Iso(Some(n))) == Some(n) <==> DateOf(n).y >= 100
  {
    var date := DateOf(n);
    if date.y < 0 {
      NumbersOfNegative(date);
      NegativeReadsLater(date);
    } else {
      NumbersShown(date);
      if date.y < 100 {
        EarlyReadsLater(date);
      } else {
        LateReadsSame(date);
      }
    }
  }

  /** Ten characters in the shape of an ISO date. */
  predicate IsoShaped(s: string) {
    && |s| == 10 && s[4] == '-' && s[7] == '-'
    && AllDigits(s[..4]) && AllDigits(s[5..7]) && AllDigits(s[8..])
  }

  function Written(s: string): Date
    requires IsoShaped(s)
  {
    Date(Value(s[..4]), Value(s[5..7]), Value(s[8..]))
  }

  /** A date of a four-digit year, written out. */
  predicate IsIsoDate(s: string) {
    IsoShaped(s) && s[0] != '0' && Valid(Written(s))
  }

  lemma TwoDigits(s: string)
    requires AllDigits(s) && |s| == 2
    ensures PadTwo(Value(s)) == s
  {
    assert s == [s[0], s[1]] && s[..1] == [s[0]] && s[..1][..0] == "";
    if s[0] == '0' {
      DigitsOfValue([s[1]]);
      assert Value(s) == Value([s[1]]);
    } else {
      DigitsOfValue(s);
      assert Value(s) >= 10;
    }
  }

  /** An ISO date is the printed form of the date it writes out. */
  lemma WrittenIsShown(s: string)
    requires IsIsoDate(s)
    ensures Shown(Written(s)) == s
    ensures 1000 <= Written(s).y <= 9999
  {
    DigitsOfValue(s[..4]);
    TwoDigits(s[5..7]);
    TwoDigits(s[8..]);
    assert s == s[..4] + "-" + s[5..7] + "-" + s[8..];
    FourDigits(s[..4]);
  }

  lemma FourDigits(s: string)
    requires AllDigits(s) && |s| == 4 && s[0] != '0'
    ensures 1000 <= Value(s) <= 9999
  {
    assert s[..3][..2] == s[..2] && s[..2][..1] == s[..1] && s[..1][..0] == "";
    assert Value(s[..1]) == DigitValue(s[0]) >= 1;
    assert 10 <= Value(s[..2]) < 100;
    assert 100 <= Value(s[..3]) < 1000;
  }

  lemma FourDigitYearsInRange(date: Date)
    requires Valid(date) && 1000 <= date.y <= 9999
    ensures InRange(DayNumber(date))
  {
    InItsYear(date);
  }

  /** An ISO date parses to the date it writes out, which prints as the same string. */
  lemma PrintUndoesParse(s: string)
    requires IsIsoDate(s)
    ensures ParseDate(s) == Some(DayNumber(Written(s)))
    ensures Iso(ParseDate(s)) == s
  {
    var date := Written(s);
    WrittenIsShown(s);
    NumbersShown(date);
    FourDigitYearsInRange(date);
    LateReadsSame(date);
    DateOfNumber(date);
  }

  /** A printed date in ISO shape is an ISO date. */
  lemma ShownIsIsoDate(date: Date, s: string)
    requires Valid(date) && IsoShaped(s) && Shown(date) == s
    ensures IsIsoDate(s)
  {
    assert Shown(date)[0] == Numeral(date.y)[0];
    PadTwoValue(date.m);
    PadTwoValue(date.d);
    var y, m, d := Numeral(date.y), PadTwo(date.m), PadTwo(date.d);
    assert |y| == 4 && s[..4] == y && s[5..7] == m && s[8..] == d;
    ValueOfDigits(date.y);
    assert Written(s) == date;
  }

  /** Of the strings in ISO shape, exactly the dates of four-digit years survive the round trip. */
  lemma SurvivesExactly(s: string)
    requires IsoShaped(s)
    ensures Iso(ParseDate(s)) == s <==> IsIsoDate(s)
  {
    if IsIsoDate(s) {
      PrintUndoesParse(s);
    } else if ParseDate(s).Some? && Iso(ParseDate(s)) == s {
      ShownIsIsoDate(DateOf(ParseDate(s).value), s);
    } else {
      assert |"NaN-NaN-NaN"| == 11;
    }
  }

  // ---- The window of a period ----

  datatype DataBounds = DataBounds(start: string, end: string)

  predicate Given(bounds: Option<DataBounds>) {
    bounds.Some? && bounds.value.start != "" && bounds.value.end != ""
  }

  /** The length in days of a period that is counted in days, which any unknown period is too. */
  function DaysOf(period: string): nat {
    if period == "7d" then 7 else if period == "90d" then 90 else 30
  }

  /** The first day of a period ending on day `end`, before it is held to the data. */
  ghost function WindowStart(period: string, end: int): int {
    if period == "ytd" then YearStart(DateOf(end).y) else end - (DaysOf(period) - 1)
  }

  /** The later of the window's first day and the data's, when both are dates. */
  ghost function Clamped(window: Option<int>, dataMin: Option<int>): Option<int> {
    if Before(window, dataMin) then dataMin else window
  }

  /** The range for a period when there is data. */
  ghost function RangeFor(period: string, bounds: DataBounds): (string, string) {
    var dataMin, dataMax := ParseDate(bounds.start), ParseDate(bounds.end);
    var window := if dataMax.Some? then Clip(WindowStart(period, dataMax.value)) else None;
    if period == "all" then (bounds.start, bounds.end) else (Iso(Clamped(window, dataMin)), Iso(dataMax))
  }

  /** Where a period starts when there is no data: the two clock readings need not fall on one day. */
  ghost function StartFromClock(period: string, endNow: int, startNow: int): Option<int> {
    if period == "ytd" then Clip(YearStart(DateOf(startNow).y))
    else if period == "all" then Clip(MakeDay(DateOf(endNow).y - 10, DateOf(startNow).m - 1, DateOf(startNow).d))
    else Clip(FirstOfMonth(startNow) + DateOf(endNow).d - DaysOf(period) - 1)
  }

  /** The switch on the period when there is data, `start` being a copy of the last day. */
  method MoveToWindow(period: string, start: LocalDate)
    requires period != "all" && start.day.Some?
    modifies start
    ensures start.day == Clip(WindowStart(period, old(start.day).value))
  {
    var dt := start.GetDate();
    if period == "7d" {
      start.SetDate(dt - 6);
    } else if period == "30d" {
      start.SetDate(dt - 29);
    } else if period == "90d" {
      start.SetDate(dt - 89);
    } else if period == "ytd" {
      FirstOfJanuary(DateOf(start.day.value).y);
      start.SetMonth(0, 1);
    } else {
      start.SetDate(dt - 29);
    }
  }

  /** The switch on the period when there is no data, `start` and `end` being two readings of the clock. */
  method MoveFromClock(period: string, start: LocalDate, end: LocalDate)
    requires start != end && start.day.Some? && end.day.Some?
    modifies start
    ensures start.day == StartFromClock(period, end.day.value, old(start.day).value)
  {
    var endDate := CivilDate(end.day.value);
    var dt := endDate.d;
    if period == "7d" {
      start.SetDate(dt - 7);
    } else if period == "30d" {
      start.SetDate(dt - 30);
    } else if period == "90d" {
      start.SetDate(dt - 90);
    } else if period == "ytd" {
      FirstOfJanuary(DateOf(start.day.value).y);
      start.SetMonth(0, 1);
    } else if period == "all" {
      start.SetFullYear(endDate.y - 10);
    } else {
      start.SetDate(dt - 30);
    }
  }

  method GetDateRangeForPeriod(period: string, bounds: Option<DataBounds>,
                               endNow: int, startNow: int) returns (first: string, last: string)
    requires InRange(endNow) && InRange(startNow)
    ensures bounds.Some? && bounds.value.start != "" && bounds.value.end != "" ==>
              (first, last) == RangeFor(period, bounds.value)
    ensures bounds == None || bounds.value.start == "" || bounds.value.end == "" ==>
              first == Iso(StartFromClock(period, endNow, startNow)) && last == Iso(Some(endNow))
  {
    var end, start;
    if Given(bounds) {
      if period == "all" {
        return bounds.value.start, bounds.value.end;
      }
      var dataMin := new LocalDate(ParseDate(bounds.value.start));
      end := new LocalDate(ParseDate(bounds.value.end));
      start := new LocalDate(end.day);
      if start.day.Some? {
        MoveToWindow(period, start);
      }
      if Before(start.day, dataMin.day) {
        start := dataMin;
      }
    } else {
      end := new LocalDate(Some(endNow));
      start := new LocalDate(Some(startNow));
      MoveFromClock(period, start, end);
    }
    first := start.ToISODate();
    last := end.ToISODate();
  }

  lemma FirstOfJanuary(y: int)
    ensures MakeDay(y, 0, 1) == YearStart(y)
  {
    assert DayNumber(Date(y, 1, 1)) == YearStart(y);
  }

  function Min(a: int, b: int): int {
    if a < b then a else b
  }

  /** The day the bounded window starts on, for data from day `lo` to day `hi`. */
  ghost function RangeStart(period: string, lo: int, hi: int): int {
    Clamped(Some(WindowStart(period, hi)), Some(lo)).value
  }

  lemma WindowInRange(period: string, hi: Date)
    requires Valid(hi) && 1000 <= hi.y <= 9999
    ensures InRange(WindowStart(period, DayNumber(hi)))
  {
    FourDigitYearsInRange(hi);
    DateOfNumber(hi);
    InItsYear(hi);
    assert YearStart(1000) >= -400_000 && YearStart(10_000) <= 4_000_000;
    YearStartMonotone(1000, hi.y);
  }

  lemma YearStartMonotone(y: int, z: int)
    requires y <= z
    ensures YearStart(y) <= YearStart(z)
  {
    if y < z {
      YearsGrow(y, z);
    }
  }

  lemma ParsedInRange(period: string, s: string)
    requires IsIsoDate(s)
    ensures ParseDate(s).Some? && InRange(WindowStart(period, ParseDate(s).value))
    ensures DateOf(ParseDate(s).value) == Written(s) && 1000 <= Written(s).y <= 9999
  {
    PrintUndoesParse(s);
    WrittenIsShown(s);
    DateOfNumber(Written(s));
    WindowInRange(period, Written(s));
  }

  /** A day not before an ISO date can be read back. */
  lemma ReadsBack(n: int, start: string, end: string)
    requires IsIsoDate(start) && IsIsoDate(end)
    requires ParseDate(start).Some? && ParseDate(end).Some? && ParseDate(start).value <= n <= ParseDate(end).value
    ensures ParseDate(Iso(Some(n))) == Some(n)
  {
    ParsedInRange("7d", start);
    var lo := DateOf(ParseDate(start).value);
    if DateOf(n).y < lo.y {
      NumbersFollowDates(DateOf(n), lo);
    }
    BetweenInRange(n, ParseDate(start).value, ParseDate(end).value);
    ParseUndoesPrint(n);
  }

  lemma BetweenInRange(n: int, lo: int, hi: int)
    requires lo <= n <= hi && InRange(lo) && InRange(hi)
    ensures InRange(n)
  {
  }

  /**
   With ISO bounds in order, the range's strings read back as the start of the window,
   held to the data, and the last day.
   */
  lemma RangeReadsBack(period: string, start: string, end: string, lo: int, hi: int)
    requires IsIsoDate(start) && IsIsoDate(end) && period != "all"
    requires ParseDate(start) == Some(lo) && ParseDate(end) == Some(hi) && lo <= hi
    ensures var (first, last) := RangeFor(period, DataBounds(start, end));
            && ParseDate(first) == Some(RangeStart(period, lo, hi)) && last == end
            && (RangeStart(period, lo, hi) == lo ==> first == start)
    ensures lo <= RangeStart(period, lo, hi) <= hi
  {
    ParsedInRange(period, end);
    PrintUndoesParse(start);
    PrintUndoesParse(end);
    StartsByEnd(period, hi);
    ReadsBack(RangeStart(period, lo, hi), start, end);
  }

  lemma StartsByEnd(period: string, hi: int)
    ensures WindowStart(period, hi) <= hi
  {
    InItsYear(DateOf(hi));
  }

  lemma WindowDays(period: string, lo: int, hi: int)
    requires lo <= hi && period != "ytd"
    ensures var days := Min(DaysOf(period), hi - lo + 1);
            && days >= 1 && RangeStart(period, lo, hi) == hi - days + 1
            && (DaysOf(period) >= hi - lo + 1 ==> RangeStart(period, lo, hi) == lo)
            && Later(DateOf(hi - days + 1), days - 1) == DateOf(hi)
  {
    var days := Min(DaysOf(period), hi - lo + 1);
    CountingDays(hi - days + 1, days - 1);
  }

  /**
   With ISO bounds in order, a period of N days gives two strings that read back as the first and
   last of exactly min(N, span) consecutive calendar dates, the last one the data's last day. A
   window longer than the data starts at the data's first day.
   */
  lemma PeriodCoversItsDays(period: string, start: string, end: string, lo: int, hi: int)
    requires IsIsoDate(start) && IsIsoDate(end) && period != "ytd" && period != "all"
    requires ParseDate(start) == Some(lo) && ParseDate(end) == Some(hi) && lo <= hi
    ensures var (first, last) := RangeFor(period, DataBounds(start, end));
            var days := Min(DaysOf(period), hi - lo + 1);
            && last == end && days >= 1
            && ParseDate(first) == Some(hi - days + 1)
            && Later(DateOf(hi - days + 1), days - 1) == DateOf(hi)
            && (DaysOf(period) >= hi - lo + 1 ==> first == start)
    ensures var first := ParseDate(RangeFor(period, DataBounds(start, end)).0);
            && (period == "7d" ==> first == Some(if lo <= hi - 6 then hi - 6 else lo))
            && (period == "90d" ==> first == Some(if lo <= hi - 89 then hi - 89 else lo))
            && (period != "7d" && period != "90d" ==> first == Some(if lo <= hi - 29 then hi - 29 else lo))
  {
    RangeReadsBack(period, start, end, lo, hi);
    WindowDays(period, lo, hi);
  }

  /** The year-to-date range's strings read back as the days of the data in the year of its last day. */
  lemma YearToDateCovers(start: string, end: string, lo: int, hi: int, k: int)
    requires IsIsoDate(start) && IsIsoDate(end)
    requires ParseDate(start) == Some(lo) && ParseDate(end) == Some(hi) && lo <= k <= hi
    ensures var (first, last) := RangeFor("ytd", DataBounds(start, end));
            && last == end && ParseDate(first).Some?
            && (ParseDate(first).value <= k <==> DateOf(k).y == DateOf(hi).y)
  {
    RangeReadsBack("ytd", start, end, lo, hi);
    SameYear(lo, hi, k);
  }

  lemma SameYear(lo: int, hi: int, k: int)
    requires lo <= k <= hi
    ensures RangeStart("ytd", lo, hi) <= k <==> DateOf(k).y == DateOf(hi).y
  {
    InItsYear(DateOf(k));
    InItsYear(DateOf(hi));
    if DateOf(k).y < DateOf(hi).y {
      YearsGrow(DateOf(k).y, DateOf(hi).y);
    } else if DateOf(k).y > DateOf(hi).y {
      YearsGrow(DateOf(hi).y, DateOf(k).y);
    }
  }

  /** Without bounds, "all" starts ten years back on the same date, or on 1 March where that is no date. */
  lemma TenYearsBack(now: int)
    requires -MAX_DAY + 4_100 <= now <= MAX_DAY
    ensures var date, start := DateOf(now), StartFromClock("all", now, now);
            && (Valid(date.(y := date.y - 10)) ==> start == Some(DayNumber(date.(y := date.y - 10))))
            && (!Valid(date.(y := date.y - 10)) ==>
                  date.m == 2 && date.d == 29 && start == Some(DayNumber(Date(date.y - 10, 3, 1))))
  {
    TenYearsOf(DateOf(now));
    TenYearsInRange(DateOf(now));
  }

  lemma TenYearsOf(date: Date)
    requires Valid(date)
    ensures var day := MakeDay(date.y - 10, date.m - 1, date.d);
            && day == DayNumber(Date(date.y - 10, date.m, 1)) + date.d - 1
            && (Valid(date.(y := date.y - 10)) ==> day == DayNumber(date.(y := date.y - 10)))
            && (!Valid(date.(y := date.y - 10)) ==>
                  date.m == 2 && date.d == 29 && day == DayNumber(Date(date.y - 10, 3, 1)))
  {
    MakeDayThere(Date(date.y - 10, date.m, 1), date.d);
    assert MonthStart(date.y - 10, 3) == MonthStart(date.y - 10, 2) + DaysInMonth(date.y - 10, 2);
  }

  lemma {:induction false} YearsBack(y: int, k: nat)
    ensures 365 * k <= YearStart(y) - YearStart(y - k) <= 366 * k
  {
    if k > 0 {
      YearsBack(y, k - 1);
      NextYearStart(y - k);
    }
  }

  lemma TenYearsInRange(date: Date)
    requires Valid(date)
    ensures DayNumber(date) - 4_100 <= DayNumber(Date(date.y - 10, date.m, 1)) + date.d - 1 <= DayNumber(date)
  {
    InItsYear(Date(date.y - 10, date.m, 1));
    YearsBack(date.y, 10);
    InItsYear(date);
  }

  /**
   Without bounds, a period of N days starts N days back, one day more than it does with them,
   exactly when both clock readings fall in one month.
   */
  lemma ClockWindow(period: string, endNow: int, startNow: int)
    requires period != "ytd" && period != "all" && InRange(endNow) && InRange(startNow)
    requires endNow - DaysOf(period) >= -MAX_DAY
    ensures StartFromClock(period, endNow, startNow) == Some(endNow - DaysOf(period)) <==> SameMonth(endNow, startNow)
    ensures endNow - DaysOf(period) == WindowStart(period, endNow) - 1
    ensures DaysOf(period) == if period in {"7d", "90d"} then (if period == "7d" then 7 else 90) else 30
  {
    MonthIsABlock(endNow, startNow);
    assert DateOf(endNow).d == endNow - FirstOfMonth(endNow) + 1;
    if FirstOfMonth(endNow) == FirstOfMonth(startNow) {
      MonthIsABlock(startNow, endNow);
    }
  }
}
