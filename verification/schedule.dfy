/**
 * The schedule page: the 42-cell month grid, month navigation and the weekly
 * availability preferences (which periods of which weekday the user is free).
 */
module Schedule {
  import Seqs

  /** One cell of the month grid: a blank or a day of the month. */
  datatype Cell = Empty | Day(day: nat)

  /** A month index as JavaScript's `Date.getMonth` returns it: 0 is January. */
  type Month = m: int | 0 <= m < 12

  /** The page's `selectedDate`, reduced to the parts the page reads. */
  datatype CalendarDate = CalendarDate(year: int, month: Month, day: int)

  /** Six rows of seven columns. */
  const GridCells: nat := 42

  /** How many cells the grid has: 42, or more when the month cannot fit. */
  function GridSize(startingDayOfWeek: nat, totalDays: nat): nat {
    if startingDayOfWeek + totalDays < GridCells then GridCells else startingDayOfWeek + totalDays
  }

  /** What the grid shows at position `index`: day `index - start + 1` inside the month, blank around it. */
  function CalendarCell(startingDayOfWeek: nat, totalDays: nat, index: int): Cell {
    if startingDayOfWeek <= index < startingDayOfWeek + totalDays then Day(index - startingDayOfWeek + 1)
    else Empty
  }

  function CalendarGrid(startingDayOfWeek: nat, totalDays: nat): seq<Cell> {
    seq(GridSize(startingDayOfWeek, totalDays), k => CalendarCell(startingDayOfWeek, totalDays, k))
  }

  /**
   * `generateCalendarDays`: leading blanks for the weekdays before the 1st, the
   * days 1..totalDays, then blanks up to 42 cells (none when already past 42).
   */
  method GenerateCalendarDays(startingDayOfWeek: nat, totalDays: nat) returns (days: seq<Cell>)
    ensures |days| == GridSize(startingDayOfWeek, totalDays)
    ensures forall k :: 0 <= k < startingDayOfWeek ==> days[k] == Empty
    ensures forall d :: 1 <= d <= totalDays ==> days[startingDayOfWeek + d - 1] == Day(d)
    ensures forall k :: startingDayOfWeek + totalDays <= k < |days| ==> days[k] == Empty
    ensures days == CalendarGrid(startingDayOfWeek, totalDays)
  {
    days := [];
    var i := 0;
    while i < startingDayOfWeek
      invariant 0 <= i <= startingDayOfWeek
      invariant |days| == i
      invariant forall k :: 0 <= k < |days| ==> days[k] == CalendarCell(startingDayOfWeek, totalDays, k)
    {
      days := days + [Empty];
      i := i + 1;
    }
    i := 1;
    while i <= totalDays
      invariant 1 <= i <= totalDays + 1
      invariant |days| == startingDayOfWeek + i - 1
      invariant forall k :: 0 <= k < |days| ==> days[k] == CalendarCell(startingDayOfWeek, totalDays, k)
    {
      days := days + [Day(i)];
      i := i + 1;
    }
    var remainingCells: int := GridCells - |days|;
    i := 0;
    while i < remainingCells
      invariant remainingCells == GridCells - startingDayOfWeek - totalDays
      invariant 0 <= i
      invariant remainingCells >= 0 ==> i <= remainingCells
      invariant remainingCells < 0 ==> i == 0
      invariant |days| == startingDayOfWeek + totalDays + i
      invariant forall k :: 0 <= k < |days| ==> days[k] == CalendarCell(startingDayOfWeek, totalDays, k)
    {
      days := days + [Empty];
      i := i + 1;
    }
  }

  /** The number of day (non-blank) cells. */
  function CountDays(cells: seq<Cell>): nat
    decreases |cells|
  {
    if |cells| == 0 then 0
    else CountDays(cells[..|cells| - 1]) + (if cells[|cells| - 1].Day? then 1 else 0)
  }

  /** The first `n` cells of the grid hold as many days as fall below position `n`. */
  lemma {:induction false} CountDaysOfGridPrefix(startingDayOfWeek: nat, totalDays: nat, n: nat)
    requires n <= GridSize(startingDayOfWeek, totalDays)
    ensures CountDays(CalendarGrid(startingDayOfWeek, totalDays)[..n]) ==
            if n <= startingDayOfWeek then 0
            else if n >= startingDayOfWeek + totalDays then totalDays
            else n - startingDayOfWeek
    decreases n
  {
    var grid := CalendarGrid(startingDayOfWeek, totalDays);
    if n > 0 {
      CountDaysOfGridPrefix(startingDayOfWeek, totalDays, n - 1);
      assert grid[..n][..n - 1] == grid[..n - 1];
    }
  }

  /** The grid holds exactly `totalDays` day cells. */
  lemma GridDayCount(startingDayOfWeek: nat, totalDays: nat)
    ensures CountDays(CalendarGrid(startingDayOfWeek, totalDays)) == totalDays
  {
    var grid := CalendarGrid(startingDayOfWeek, totalDays);
    CountDaysOfGridPrefix(startingDayOfWeek, totalDays, |grid|);
    assert grid[..|grid|] == grid;
  }

  /**
   * For any real month (it starts on weekday 0..6 and has 28..31 days) the grid
   * has exactly 42 cells, of which `totalDays` hold days, in increasing order.
   */
  lemma MonthGridShape(startingDayOfWeek: nat, totalDays: nat)
    requires startingDayOfWeek <= 6 && 28 <= totalDays <= 31
    ensures |CalendarGrid(startingDayOfWeek, totalDays)| == 42
    ensures CountDays(CalendarGrid(startingDayOfWeek, totalDays)) == totalDays
    ensures forall j, k :: 0 <= j < k < 42
              && CalendarGrid(startingDayOfWeek, totalDays)[j].Day?
              && CalendarGrid(startingDayOfWeek, totalDays)[k].Day?
              ==> CalendarGrid(startingDayOfWeek, totalDays)[j].day < CalendarGrid(startingDayOfWeek, totalDays)[k].day
  {
    GridDayCount(startingDayOfWeek, totalDays);
  }

  predicate IsLeapYear(year: int) {
    year % 4 == 0 && (year % 100 != 0 || year % 400 == 0)
  }

  /** The day `new Date(year, month + 1, 0).getDate()` returns: the length of the month. */
  function DaysInMonth(year: int, month: Month): (n: nat)
    ensures 28 <= n <= 31
  {
    if month == 1 then (if IsLeapYear(year) then 29 else 28)
    else if month == 3 || month == 5 || month == 8 || month == 10 then 30
    else 31
  }

  /** How many leap years lie in 1..y (negative for y below 0): the Gregorian correction. */
  function LeapDaysThrough(y: int): int {
    y / 4 - y / 100 + y / 400
  }

  /** Month offsets of the weekday formula, one per month. */
  const MonthOffset: seq<int> := [0, 3, 2, 5, 0, 3, 5, 1, 4, 6, 2, 4]

  /**
   * `new Date(year, month, 1).getDay()` in the proleptic Gregorian calendar:
   * 0 is Sunday. January and February count as months of the previous year.
   */
  function FirstWeekday(year: int, month: Month): (w: nat)
    ensures w <= 6
  {
    var y := if month < 2 then year - 1 else year;
    (y + LeapDaysThrough(y) + MonthOffset[month] + 1) % 7
  }

  /** A positive multiple of `d` is at least `d`; a negative one at most `-d`. */
  lemma MultipleBounds(d: int, t: int)
    requires d > 0
    ensures t >= 1 ==> d * t >= d
    ensures t <= -1 ==> d * t <= -d
  {
  }

  /** Euclidean division has one quotient: the one of any representation `a == d * q + r` with `0 <= r < d`. */
  lemma DivisionUnique(a: int, d: int, q: int, r: int)
    requires d > 0 && 0 <= r < d && a == d * q + r
    ensures a / d == q && a % d == r
  {
    var t := a / d - q;
    assert d * t == r - a % d;
    MultipleBounds(d, t);
  }

  /** Stepping from `y - 1` to `y` raises `y / d` exactly when `d` divides `y`. */
  lemma DivisionStep(y: int, d: int)
    requires d > 0
    ensures y / d - (y - 1) / d == if y % d == 0 then 1 else 0
  {
    var q, r := y / d, y % d;
    assert y == d * q + r;
    if r == 0 {
      DivisionUnique(y - 1, d, q - 1, d - 1);
    } else {
      DivisionUnique(y - 1, d, q, r - 1);
    }
  }

  /** Going from `y - 1` to `y` adds one leap day exactly when `y` is a leap year. */
  lemma LeapDaysStep(y: int)
    ensures LeapDaysThrough(y) - LeapDaysThrough(y - 1) == if IsLeapYear(y) then 1 else 0
  {
    DivisionStep(y, 4);
    DivisionStep(y, 100);
    DivisionStep(y, 400);
    if y % 400 == 0 {
      var k := y / 400;
      DivisionUnique(y, 100, 4 * k, 0);
      DivisionUnique(y, 4, 100 * k, 0);
    } else if y % 100 == 0 {
      var k := y / 100;
      DivisionUnique(y, 4, 25 * k, 0);
    }
  }

  /** The month after (year, month), carrying into the next year after December. */
  function Following(year: int, month: Month): (int, Month) {
    if month == 11 then (year + 1, 0) else (year, month + 1)
  }

  /** Adding whole weeks does not change a weekday. */
  lemma WeekdayShift(a: int, b: int, weeks: int)
    ensures (a + b + 7 * weeks) % 7 == (a % 7 + b) % 7
  {
    var q, r := a / 7, a % 7;
    var x := r + b;
    DivisionUnique(a + b + 7 * weeks, 7, q + weeks + x / 7, x % 7);
  }

  /** The next month starts on the weekday that follows the last day of this one. */
  lemma FirstWeekdayAdvances(year: int, month: Month)
    ensures FirstWeekday(Following(year, month).0, Following(year, month).1) ==
            (FirstWeekday(year, month) + DaysInMonth(year, month)) % 7
  {
    var y := if month < 2 then year - 1 else year;
    var a := y + LeapDaysThrough(y) + MonthOffset[month] + 1;
    var (nextYear, nextMonth) := Following(year, month);
    var y' := if nextMonth < 2 then nextYear - 1 else nextYear;
    var b := y' + LeapDaysThrough(y') + MonthOffset[nextMonth] + 1;
    var days := DaysInMonth(year, month);
    if month == 1 {
      LeapDaysStep(year);
    }
    var weeks := if month == 3 || month == 6 || month == 9 || month == 11 then -5 else -4;
    assert b == a + days + 7 * weeks;
    WeekdayShift(a, days, weeks);
  }

  /** The calendar shown for the selected date: 42 cells for every month of every year. */
  lemma SelectedMonthGrid(date: CalendarDate)
    ensures |CalendarGrid(FirstWeekday(date.year, date.month), DaysInMonth(date.year, date.month))| == 42
    ensures CountDays(CalendarGrid(FirstWeekday(date.year, date.month), DaysInMonth(date.year, date.month)))
            == DaysInMonth(date.year, date.month)
  {
    MonthGridShape(FirstWeekday(date.year, date.month), DaysInMonth(date.year, date.month));
  }

  /** 1 March 2025, the month the page's mock debates fall in, is a Saturday. */
  lemma March2025StartsOnSaturday()
    ensures FirstWeekday(2025, 2) == 6
  {
  }

  /**
   * `new Date(year, month + delta, 1)`: JavaScript normalises the month
   * overflow into the year; the day becomes the 1st.
   */
  function ShiftMonth(date: CalendarDate, delta: int): (r: CalendarDate)
    ensures r.day == 1
    ensures r.year * 12 + r.month == date.year * 12 + date.month + delta
  {
    var index := date.year * 12 + date.month + delta;
    CalendarDate(index / 12, index % 12, 1)
  }

  /** `goToPreviousMonth`: the 1st of the month before, across a year boundary when needed. */
  function GoToPreviousMonth(date: CalendarDate): (r: CalendarDate)
    ensures r.day == 1 && r.year * 12 + r.month == date.year * 12 + date.month - 1
  {
    ShiftMonth(date, -1)
  }

  /** `goToNextMonth`: the 1st of the month after, across a year boundary when needed. */
  function GoToNextMonth(date: CalendarDate): (r: CalendarDate)
    ensures r.day == 1 && r.year * 12 + r.month == date.year * 12 + date.month + 1
  {
    ShiftMonth(date, 1)
  }

  /** A month index identifies the (year, month) pair: the normalisation has one answer. */
  lemma MonthIndexDetermines(a: CalendarDate, b: CalendarDate)
    requires a.year * 12 + a.month == b.year * 12 + b.month
    ensures a.year == b.year && a.month == b.month
  {
    DivisionUnique(a.year * 12 + a.month, 12, a.year, a.month);
    DivisionUnique(b.year * 12 + b.month, 12, b.year, b.month);
  }

  /** Next then previous returns to the same month, on its 1st. */
  lemma NextThenPrevious(date: CalendarDate)
    ensures GoToPreviousMonth(GoToNextMonth(date)) == date.(day := 1)
  {
    MonthIndexDetermines(GoToPreviousMonth(GoToNextMonth(date)), date.(day := 1));
  }

  /** Previous then next returns to the same month, on its 1st. */
  lemma PreviousThenNext(date: CalendarDate)
    ensures GoToNextMonth(GoToPreviousMonth(date)) == date.(day := 1)
  {
    MonthIndexDetermines(GoToNextMonth(GoToPreviousMonth(date)), date.(day := 1));
  }

  /** December rolls over to January of the next year; other months stay in their year. */
  lemma NextMonthCarries(date: CalendarDate)
    ensures date.month == 11 ==> GoToNextMonth(date) == CalendarDate(date.year + 1, 0, 1)
    ensures date.month < 11 ==> GoToNextMonth(date) == CalendarDate(date.year, date.month + 1, 1)
  {
    var r := GoToNextMonth(date);
    if date.month == 11 {
      MonthIndexDetermines(r, CalendarDate(date.year + 1, 0, 1));
    } else {
      MonthIndexDetermines(r, CalendarDate(date.year, date.month + 1, 1));
    }
  }

  /** January rolls back to December of the previous year. */
  lemma PreviousMonthBorrows(date: CalendarDate)
    ensures date.month == 0 ==> GoToPreviousMonth(date) == CalendarDate(date.year - 1, 11, 1)
    ensures date.month > 0 ==> GoToPreviousMonth(date) == CalendarDate(date.year, date.month - 1, 1)
  {
    var r := GoToPreviousMonth(date);
    if date.month == 0 {
      MonthIndexDetermines(r, CalendarDate(date.year - 1, 11, 1));
    } else {
      MonthIndexDetermines(r, CalendarDate(date.year, date.month - 1, 1));
    }
  }

  datatype Weekday = Monday | Tuesday | Wednesday | Thursday | Friday | Saturday | Sunday

  /** The periods ("morning", "afternoon", "evening") the user is available on each weekday. */
  datatype WeeklyPeriods = WeeklyPeriods(
    monday: seq<string>, tuesday: seq<string>, wednesday: seq<string>, thursday: seq<string>,
    friday: seq<string>, saturday: seq<string>, sunday: seq<string>)
  {
    function Get(day: Weekday): seq<string> {
      match day
      case Monday => monday
      case Tuesday => tuesday
      case Wednesday => wednesday
      case Thursday => thursday
      case Friday => friday
      case Saturday => saturday
      case Sunday => sunday
    }

    /** The record with `day`'s list replaced, every other weekday kept. */
    function With(day: Weekday, periods: seq<string>): (r: WeeklyPeriods)
      ensures r.Get(day) == periods
      ensures forall d :: d != day ==> r.Get(d) == Get(d)
    {
      match day
      case Monday => this.(monday := periods)
      case Tuesday => this.(tuesday := periods)
      case Wednesday => this.(wednesday := periods)
      case Thursday => this.(thursday := periods)
      case Friday => this.(friday := periods)
      case Saturday => this.(saturday := periods)
      case Sunday => this.(sunday := periods)
    }
  }

  datatype AvailabilityPreferences = AvailabilityPreferences(
    weekdays: WeeklyPeriods, timezone: string, notifications: bool, autoSync: bool)

  /** The preferences the page starts with. */
  const InitialPreferences := AvailabilityPreferences(
    WeeklyPeriods(["morning", "evening"], ["afternoon"], ["morning", "afternoon", "evening"], ["afternoon"],
                  ["morning", "evening"], ["afternoon"], ["morning"]),
    "UTC-5", true, false)

  /**
   * `toggleAvailabilityPeriod`: on the named weekday a present period is
   * removed and an absent one appended; nothing else changes.
   */
  function ToggleAvailabilityPeriod(prefs: AvailabilityPreferences, day: Weekday, period: string)
    : (r: AvailabilityPreferences)
    ensures period in r.weekdays.Get(day) <==> period !in prefs.weekdays.Get(day)
    ensures period !in prefs.weekdays.Get(day) ==> r.weekdays.Get(day) == prefs.weekdays.Get(day) + [period]
    ensures period in prefs.weekdays.Get(day) ==> Seqs.IsSubsequence(r.weekdays.Get(day), prefs.weekdays.Get(day))
    ensures period in prefs.weekdays.Get(day) ==>
              multiset(r.weekdays.Get(day)) == multiset(prefs.weekdays.Get(day))[period := 0]
    ensures forall q :: q != period ==> (q in r.weekdays.Get(day) <==> q in prefs.weekdays.Get(day))
    ensures forall d :: d != day ==> r.weekdays.Get(d) == prefs.weekdays.Get(d)
    ensures r.timezone == prefs.timezone && r.notifications == prefs.notifications && r.autoSync == prefs.autoSync
  {
    var periods := prefs.weekdays.Get(day);
    var toggled := Seqs.Toggle(periods, period);
    assert period !in periods ==> toggled == periods + [period] by {
      if period !in periods {
        assert toggled == toggled[..|periods|] + [toggled[|periods|]];
      }
    }
    prefs.(weekdays := prefs.weekdays.With(day, toggled))
  }

  /** Toggling the same (day, period) twice restores every period's membership on every day. */
  lemma ToggleAvailabilityTwice(prefs: AvailabilityPreferences, day: Weekday, period: string, d: Weekday, q: string)
    ensures q in ToggleAvailabilityPeriod(ToggleAvailabilityPeriod(prefs, day, period), day, period).weekdays.Get(d)
            <==> q in prefs.weekdays.Get(d)
  {
  }

  /** A toggle keeps a weekday's list free of duplicates. */
  lemma ToggleAvailabilityNoDuplicates(prefs: AvailabilityPreferences, day: Weekday, period: string)
    requires Seqs.NoDuplicates(prefs.weekdays.Get(day))
    ensures Seqs.NoDuplicates(ToggleAvailabilityPeriod(prefs, day, period).weekdays.Get(day))
  {
    Seqs.ToggleNoDuplicates(prefs.weekdays.Get(day), period);
  }

  /** The page opens with no weekday listing a period twice, so every toggle keeps that true. */
  lemma InitialAvailabilityNoDuplicates(day: Weekday)
    ensures Seqs.NoDuplicates(InitialPreferences.weekdays.Get(day))
  {
  }

  datatype CalendarView = MonthView | WeekView

  /** The page's state. */
  datatype SchedulePage = SchedulePage(
    selectedDate: CalendarDate,
    selectedView: CalendarView,
    showAvailabilityModal: bool,
    showCalendarSyncModal: bool,
    showScheduleConflict: bool,
    preferences: AvailabilityPreferences)

  /** `saveAvailabilityPreferences`: the modal closes and the preferences are kept as they are. */
  function SaveAvailabilityPreferences(page: SchedulePage): (r: SchedulePage)
    ensures !r.showAvailabilityModal
    ensures r.preferences == page.preferences && r.selectedDate == page.selectedDate
    ensures r.selectedView == page.selectedView && r.showCalendarSyncModal == page.showCalendarSyncModal
    ensures r.showScheduleConflict == page.showScheduleConflict
  {
    page.(showAvailabilityModal := false)
  }
}
