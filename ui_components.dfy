/**
 * The calendar pane and the assignment pane: the cursor pair (`current_date`, the
 * viewed month, and `selected_date`), the commands that move it, the per-day cell
 * decision, and the list of lines shown for the selected day.
 */
module UiComponents {
  import opened Wrappers
  import opened Dates
  import opened Models

  // ---------------------------------------------------------------------------
  // Month arithmetic through `datetime.replace`
  // ---------------------------------------------------------------------------

  /** The months counted from January of year 0, so that consecutive months differ by one. */
  function MonthIndex(d: Date): int {
    d.year * 12 + d.month - 1
  }

  predicate SameMonth(a: Date, b: Date) {
    a.year == b.year && a.month == b.month
  }

  /**
   * The month after `t`, as `next_month` and the "Next:" line compute it: `replace`
   * keeps the day of month, so it fails when that day does not exist in the next month.
   */
  function NextMonthDate(t: DateTime): (r: Result<DateTime, DateError>)
    requires ValidDateTime(t)
    ensures r.Err? <==>
              || (t.date.month == 12 && t.date.year == MaxYear)
              || (t.date.month < 12 && t.date.day > DaysInMonth(t.date.year, t.date.month + 1))
    ensures r.Ok? ==> ValidDateTime(r.value) && MonthIndex(r.value.date) == MonthIndex(t.date) + 1
    ensures r.Ok? ==> r.value.date.day == t.date.day && r.value.micros == t.micros
  {
    if t.date.month == 12 then ReplaceYearMonth(t, t.date.year + 1, 1)
    else ReplaceYearMonth(t, t.date.year, t.date.month + 1)
  }

  /** The month before `t`, as `prev_month` computes it, with the same day-of-month hazard. */
  function PrevMonthDate(t: DateTime): (r: Result<DateTime, DateError>)
    requires ValidDateTime(t)
    ensures r.Err? <==>
              || (t.date.month == 1 && t.date.year == MinYear)
              || (t.date.month > 1 && t.date.day > DaysInMonth(t.date.year, t.date.month - 1))
    ensures r.Ok? ==> ValidDateTime(r.value) && MonthIndex(r.value.date) == MonthIndex(t.date) - 1
    ensures r.Ok? ==> r.value.date.day == t.date.day && r.value.micros == t.micros
  {
    if t.date.month == 1 then ReplaceYearMonth(t, t.date.year - 1, 12)
    else ReplaceYearMonth(t, t.date.year, t.date.month - 1)
  }

  /** Going forward a month and back again returns to the same timestamp. */
  lemma PrevAfterNext(t: DateTime)
    requires ValidDateTime(t) && NextMonthDate(t).Ok?
    ensures PrevMonthDate(NextMonthDate(t).value) == Ok(t)
  {
  }

  /** Going back a month and forward again returns to the same timestamp. */
  lemma NextAfterPrev(t: DateTime)
    requires ValidDateTime(t) && PrevMonthDate(t).Ok?
    ensures NextMonthDate(PrevMonthDate(t).value) == Ok(t)
  {
  }

  // ---------------------------------------------------------------------------
  // The cursor and its commands
  // ---------------------------------------------------------------------------

  /** `current_date` (a datetime whose year and month are the viewed month) and `selected_date`. */
  datatype CalendarCursor = CalendarCursor(current: DateTime, selected: Date)

  predicate ValidCursor(c: CalendarCursor) {
    ValidDateTime(c.current) && ValidDate(c.selected)
  }

  /** The viewed month is the month of the selected date. */
  predicate InSync(c: CalendarCursor) {
    SameMonth(c.current.date, c.selected)
  }

  /**
   * `navigate_day(n)`: move the selection `n` days; when it leaves the viewed month,
   * view the first of its month at midnight. OverflowError leaves everything unchanged.
   */
  function NavigateDayMove(c: CalendarCursor, n: int): (r: Result<CalendarCursor, DateError>)
    requires ValidCursor(c)
    ensures r.Ok? <==> AddDays(c.selected, n).Ok?
    ensures r.Ok? ==> ValidCursor(r.value) && InSync(r.value)
    ensures r.Ok? ==> r.value.selected == AddDays(c.selected, n).value
    ensures r.Ok? && SameMonth(c.current.date, r.value.selected) ==> r.value.current == c.current
    ensures r.Ok? && !SameMonth(c.current.date, r.value.selected) ==>
              r.value.current.date.day == 1 && r.value.current.micros == 0
  {
    match AddDays(c.selected, n)
    case Err(e) => Err(e)
    case Ok(s) =>
      if s.month != c.current.date.month || s.year != c.current.date.year
      then Ok(CalendarCursor(DateTime(Date(s.year, s.month, 1), 0), s))
      else Ok(CalendarCursor(c.current, s))
  }

  /**
   * Two moves select what one combined move selects and view the same month; they
   * can differ only in the day and time kept in `current_date`.
   */
  lemma NavigateDayAdditive(c: CalendarCursor, a: int, b: int)
    requires ValidCursor(c) && NavigateDayMove(c, a).Ok?
    ensures NavigateDayMove(NavigateDayMove(c, a).value, b).Ok? == NavigateDayMove(c, a + b).Ok?
    ensures NavigateDayMove(c, a + b).Ok? ==>
              NavigateDayMove(NavigateDayMove(c, a).value, b).value.selected == NavigateDayMove(c, a + b).value.selected
    ensures NavigateDayMove(c, a + b).Ok? ==>
              SameMonth(NavigateDayMove(NavigateDayMove(c, a).value, b).value.current.date,
                        NavigateDayMove(c, a + b).value.current.date)
  {
    AddDaysAdditive(c.selected, a, b);
  }

  /** `next_month`: view the next month; the selection stays where it was. */
  function NextMonthMove(c: CalendarCursor): (r: Result<CalendarCursor, DateError>)
    requires ValidCursor(c)
    ensures r.Ok? <==> NextMonthDate(c.current).Ok?
    ensures r.Ok? ==> ValidCursor(r.value) && r.value.selected == c.selected
    ensures r.Ok? ==> MonthIndex(r.value.current.date) == MonthIndex(c.current.date) + 1
  {
    match NextMonthDate(c.current)
    case Err(e) => Err(e)
    case Ok(t) => Ok(CalendarCursor(t, c.selected))
  }

  /** `prev_month`: view the previous month; the selection stays where it was. */
  function PrevMonthMove(c: CalendarCursor): (r: Result<CalendarCursor, DateError>)
    requires ValidCursor(c)
    ensures r.Ok? <==> PrevMonthDate(c.current).Ok?
    ensures r.Ok? ==> ValidCursor(r.value) && r.value.selected == c.selected
    ensures r.Ok? ==> MonthIndex(r.value.current.date) == MonthIndex(c.current.date) - 1
  {
    match PrevMonthDate(c.current)
    case Err(e) => Err(e)
    case Ok(t) => Ok(CalendarCursor(t, c.selected))
  }

  /** Changing the viewed month from a synchronised cursor leaves the selection outside the view. */
  lemma MonthMoveLeavesSelectionBehind(c: CalendarCursor)
    requires ValidCursor(c) && InSync(c)
    ensures NextMonthMove(c).Ok? ==> !InSync(NextMonthMove(c).value)
    ensures PrevMonthMove(c).Ok? ==> !InSync(PrevMonthMove(c).value)
  {
  }

  /** December goes to January of the next year; any other month to the next month of the same year. */
  lemma NextMonthRollover(c: CalendarCursor)
    requires ValidCursor(c) && NextMonthMove(c).Ok?
    ensures c.current.date.month == 12 ==>
              NextMonthMove(c).value.current.date.year == c.current.date.year + 1 &&
              NextMonthMove(c).value.current.date.month == 1
    ensures c.current.date.month < 12 ==>
              NextMonthMove(c).value.current.date.year == c.current.date.year &&
              NextMonthMove(c).value.current.date.month == c.current.date.month + 1
  {
  }

  /** January goes to December of the previous year; any other month to the previous month. */
  lemma PrevMonthRollover(c: CalendarCursor)
    requires ValidCursor(c) && PrevMonthMove(c).Ok?
    ensures c.current.date.month == 1 ==>
              PrevMonthMove(c).value.current.date.year == c.current.date.year - 1 &&
              PrevMonthMove(c).value.current.date.month == 12
    ensures c.current.date.month > 1 ==>
              PrevMonthMove(c).value.current.date.year == c.current.date.year &&
              PrevMonthMove(c).value.current.date.month == c.current.date.month - 1
  {
  }

  /** `select_day(d)`: only the selection changes. */
  function SelectDayMove(c: CalendarCursor, d: Date): (r: CalendarCursor)
    ensures r.current == c.current && r.selected == d
  {
    CalendarCursor(c.current, d)
  }

  /** `go_to_today`: select `date.today()` and view `datetime.now()`. */
  function GoToTodayMove(today: Date, now: DateTime): (r: CalendarCursor)
    ensures now.date == today ==> InSync(r)
    ensures r.selected == today && r.current == now
  {
    CalendarCursor(now, today)
  }

  /** Scenario: from 2024-12-31, one day forward selects and views January 2025. */
  lemma NavigateOverNewYear()
    ensures NavigateDayMove(CalendarCursor(DateTime(Date(2024, 12, 1), 0), Date(2024, 12, 31)), 1)
         == Ok(CalendarCursor(DateTime(Date(2025, 1, 1), 0), Date(2025, 1, 1)))
  {
    AddOneDay(Date(2024, 12, 31));
  }

  /** On 30 January the month after cannot be formed: February has no 30th. */
  lemma NextMonthFailsOnJanuary30()
    ensures NextMonthDate(DateTime(Date(2025, 1, 30), 0)) == Err(DayOutOfRange)
  {
  }

  // ---------------------------------------------------------------------------
  // The month grid and the per-day cell
  // ---------------------------------------------------------------------------

  /**
   * `calendar.monthcalendar(y, m)`: Monday-first weeks of seven entries, holding the
   * days of the month in order and 0 for the places outside it.
   */
  function MonthCalendar(y: int, m: int): (cal: seq<seq<int>>)
    requires MinYear <= y <= MaxYear && 1 <= m <= 12
    ensures 4 <= |cal| <= 6 && forall w :: 0 <= w < |cal| ==> |cal[w]| == 7
  {
    var lead := Weekday(Date(y, m, 1));
    var n := DaysInMonth(y, m);
    seq((lead + n + 6) / 7, w => seq(7, i => var k := 7 * w + i - lead + 1; if 1 <= k <= n then k else 0))
  }

  lemma WeekdayOfDay(y: int, m: int, k: int)
    requires MinYear <= y <= MaxYear && 1 <= m <= 12 && 1 <= k <= DaysInMonth(y, m)
    ensures Weekday(Date(y, m, k)) == (Weekday(Date(y, m, 1)) + k - 1) % 7
  {
    var o := Ordinal(Date(y, m, 1));
    assert Ordinal(Date(y, m, k)) == o + k - 1;
    assert (o + 6 + (k - 1)) % 7 == ((o + 6) % 7 + (k - 1)) % 7;
  }

  /** The row of `calendar.monthcalendar(y, m)` holding day `k`. */
  function DayRow(y: int, m: int, k: int): int
    requires MinYear <= y <= MaxYear && 1 <= m <= 12
  {
    (Weekday(Date(y, m, 1)) + k - 1) / 7
  }

  /** The column (Monday is 0) of `calendar.monthcalendar(y, m)` holding day `k`. */
  function DayColumn(y: int, m: int, k: int): int
    requires MinYear <= y <= MaxYear && 1 <= m <= 12
  {
    (Weekday(Date(y, m, 1)) + k - 1) % 7
  }

  /**
   * The grid has rows of seven; a non-zero entry is a day of the month standing in the
   * column of its weekday; every day appears, and the first and last rows are not blank.
   */
  lemma MonthCalendarShape(y: int, m: int)
    requires MinYear <= y <= MaxYear && 1 <= m <= 12
    ensures var cal := MonthCalendar(y, m);
      && |cal| > 0
      && (forall w :: 0 <= w < |cal| ==> |cal[w]| == 7)
      && (forall w, i :: 0 <= w < |cal| && 0 <= i < 7 && cal[w][i] != 0 ==>
            1 <= cal[w][i] <= DaysInMonth(y, m) && Weekday(Date(y, m, cal[w][i])) == i)
      && (forall k :: 1 <= k <= DaysInMonth(y, m) ==>
            0 <= DayRow(y, m, k) < |cal| && cal[DayRow(y, m, k)][DayColumn(y, m, k)] == k)
      && cal[0][6] != 0 && cal[|cal| - 1][0] != 0
  {
    var cal := MonthCalendar(y, m);
    var lead := Weekday(Date(y, m, 1));
    forall w, i | 0 <= w < |cal| && 0 <= i < 7 && cal[w][i] != 0
      ensures 1 <= cal[w][i] <= DaysInMonth(y, m) && Weekday(Date(y, m, cal[w][i])) == i
    {
      WeekdayOfDay(y, m, cal[w][i]);
      assert lead + cal[w][i] - 1 == 7 * w + i;
    }
  }

  /** Every entry of the grid is 0 or a day number. */
  lemma MonthCalendarEntries(y: int, m: int)
    requires MinYear <= y <= MaxYear && 1 <= m <= 12
    ensures forall w, i :: 0 <= w < |MonthCalendar(y, m)| && 0 <= i < |MonthCalendar(y, m)[w]| ==>
              0 <= MonthCalendar(y, m)[w][i] <= DaysInMonth(y, m)
  {
  }

  /** Each day of the month stands at exactly one place of the grid. */
  lemma MonthCalendarDistinct(y: int, m: int, w: int, i: int, w': int, i': int)
    requires MinYear <= y <= MaxYear && 1 <= m <= 12
    requires 0 <= w < |MonthCalendar(y, m)| && 0 <= i < 7 && 0 <= w' < |MonthCalendar(y, m)| && 0 <= i' < 7
    requires MonthCalendar(y, m)[w][i] != 0 && MonthCalendar(y, m)[w][i] == MonthCalendar(y, m)[w'][i']
    ensures w == w' && i == i'
  {
  }

  datatype Attr = Today | SelectedDay | AppointmentDay | NormalDay

  /** A cell of the grid: a blank for a 0 entry, otherwise a day button's date, text and style. */
  datatype Cell = Blank | DayCell(date: Date, text: string, attr: Attr)

  function Digit(k: int): (c: char)
    requires 0 <= k < 10
    ensures '0' <= c <= '9' && c as int - 48 == k
  {
    (48 + k) as char
  }

  /** `f'{day:2d}'` for a day of month. */
  function Pad2(day: int): (s: string)
    requires 1 <= day <= 31
    ensures |s| == 2 && (s[0] == ' ' || '0' <= s[0] <= '9') && '0' <= s[1] <= '9'
    ensures s[0] == ' ' <==> day < 10
    ensures (if s[0] == ' ' then 0 else s[0] as int - 48) * 10 + (s[1] as int - 48) == day
  {
    [if day < 10 then ' ' else Digit(day / 10), Digit(day % 10)]
  }

  /**
   * The cell of `update` for date `d`: the style is today > selected > has assignments >
   * plain, and the button text is the day text centred in six columns.
   */
  function DayCellFor(d: Date, today: Date, selected: Date, has: bool): (c: Cell)
    requires 1 <= d.day <= 31
    ensures c.DayCell? && c.date == d
    ensures |c.text| == 6 && c.text[1..3] == Pad2(d.day)
    ensures '*' in c.text <==> has
    ensures c.text[0] == '[' <==> d == today
    ensures c.text[0] == '(' <==> d != today && d == selected
  {
    var mark := if has then '*' else ' ';
    var p := Pad2(d.day);
    assert p == [p[0], p[1]] && p[0] != '*' && p[1] != '*';
    if d == today then DayCell(d, ['[', p[0], p[1], ']', mark, ' '], Today)
    else if d == selected then DayCell(d, ['(', p[0], p[1], ')', mark, ' '], SelectedDay)
    else if has then DayCell(d, [' ', p[0], p[1], mark, ' ', ' '], AppointmentDay)
    else DayCell(d, [' ', p[0], p[1], mark, ' ', ' '], NormalDay)
  }

  /** The style precedence: each of the four styles is chosen exactly when it should be. */
  lemma CellStylePrecedence(d: Date, today: Date, selected: Date, has: bool)
    requires 1 <= d.day <= 31
    ensures DayCellFor(d, today, selected, has).attr == Today <==> d == today
    ensures DayCellFor(d, today, selected, has).attr == SelectedDay <==> d != today && d == selected
    ensures DayCellFor(d, today, selected, has).attr == AppointmentDay <==> d != today && d != selected && has
    ensures DayCellFor(d, today, selected, has).attr == NormalDay <==> d != today && d != selected && !has
  {
  }

  /** The cell for grid entry `day` of month (`y`, `m`); `keys` are the dates that have assignments. */
  function CellAt(day: int, y: int, m: int, today: Date, selected: Date, keys: set<Date>): Cell
    requires 0 <= day <= 31
  {
    if day == 0 then Blank else DayCellFor(Date(y, m, day), today, selected, Date(y, m, day) in keys)
  }

  function RenderWeek(week: seq<int>, y: int, m: int, today: Date, selected: Date, keys: set<Date>): (r: seq<Cell>)
    requires forall i :: 0 <= i < |week| ==> 0 <= week[i] <= 31
    ensures |r| == |week|
  {
    seq(|week|, i requires 0 <= i < |week| => CellAt(week[i], y, m, today, selected, keys))
  }

  /** What `update` paints for the weeks of the viewed month. */
  function RenderMonth(y: int, m: int, today: Date, selected: Date, keys: set<Date>): (r: seq<seq<Cell>>)
    requires MinYear <= y <= MaxYear && 1 <= m <= 12
    ensures |r| == |MonthCalendar(y, m)|
  {
    var cal := MonthCalendar(y, m);
    seq(|cal|, w requires 0 <= w < |cal| => RenderWeek(cal[w], y, m, today, selected, keys))
  }

  lemma RenderedCell(y: int, m: int, today: Date, selected: Date, keys: set<Date>, w: int, i: int)
    requires MinYear <= y <= MaxYear && 1 <= m <= 12
    requires 0 <= w < |MonthCalendar(y, m)| && 0 <= i < 7
    ensures |RenderMonth(y, m, today, selected, keys)[w]| == 7
    ensures RenderMonth(y, m, today, selected, keys)[w][i]
         == CellAt(MonthCalendar(y, m)[w][i], y, m, today, selected, keys)
  {
  }

  /** Only today's cell is painted in the `today` style. */
  lemma TodayPaintedOnlyOnToday(y: int, m: int, today: Date, selected: Date, keys: set<Date>, w: int, i: int)
    requires MinYear <= y <= MaxYear && 1 <= m <= 12
    requires 0 <= w < |RenderMonth(y, m, today, selected, keys)|
    requires 0 <= i < |RenderMonth(y, m, today, selected, keys)[w]|
    requires RenderMonth(y, m, today, selected, keys)[w][i].DayCell?
    requires RenderMonth(y, m, today, selected, keys)[w][i].attr == Today
    ensures RenderMonth(y, m, today, selected, keys)[w][i].date == today
    ensures w == DayRow(y, m, today.day) && i == DayColumn(y, m, today.day)
  {
    MonthCalendarShape(y, m);
    RenderedCell(y, m, today, selected, keys, w, i);
    var k := today.day;
    MonthCalendarDistinct(y, m, w, i, DayRow(y, m, k), DayColumn(y, m, k));
  }

  /** When today lies in the viewed month, its cell is painted in the `today` style. */
  lemma TodayPaintedInItsMonth(y: int, m: int, today: Date, selected: Date, keys: set<Date>)
    requires MinYear <= y <= MaxYear && 1 <= m <= 12
    requires ValidDate(today) && today.year == y && today.month == m
    ensures var g := RenderMonth(y, m, today, selected, keys);
      && 0 <= DayRow(y, m, today.day) < |g|
      && 0 <= DayColumn(y, m, today.day) < |g[DayRow(y, m, today.day)]|
      && g[DayRow(y, m, today.day)][DayColumn(y, m, today.day)] == DayCellFor(today, today, selected, today in keys)
      && g[DayRow(y, m, today.day)][DayColumn(y, m, today.day)].attr == Today
  {
    MonthCalendarShape(y, m);
    RenderedCell(y, m, today, selected, keys, DayRow(y, m, today.day), DayColumn(y, m, today.day));
  }

  // ---------------------------------------------------------------------------
  // The assignment list for a day
  // ---------------------------------------------------------------------------

  /** The three lines shown for one assignment: time and name, course, spacing. */
  function EntryLines(a: Assignment): seq<string> {
    [a.dueTime + " " + a.name, "  └ " + a.course, ""]
  }

  function Entries(s: seq<Assignment>): (r: seq<string>)
    ensures |r| == 3 * |s|
  {
    if s == [] then [] else Entries(s[..|s| - 1]) + EntryLines(s[|s| - 1])
  }

  /** The lines `update_for_date` puts in the list for the (sorted) assignments `s`. */
  function Listing(s: seq<Assignment>): (r: seq<string>)
    ensures |r| == if s == [] then 1 else 3 * |s|
    ensures r == ["[No Assignments]"] <==> s == []
  {
    if s == [] then ["[No Assignments]"] else Entries(s)
  }

  lemma {:induction false} EntriesShape(s: seq<Assignment>)
    ensures |Entries(s)| == 3 * |s|
    ensures forall i :: 0 <= i < |s| ==> Entries(s)[3 * i .. 3 * i + 3] == EntryLines(s[i])
  {
    if s != [] {
      var p := s[..|s| - 1];
      EntriesShape(p);
      forall i | 0 <= i < |s| ensures Entries(s)[3 * i .. 3 * i + 3] == EntryLines(s[i]) {
        if i < |p| {
          assert Entries(s)[3 * i .. 3 * i + 3] == Entries(p)[3 * i .. 3 * i + 3];
        }
      }
    }
  }

  /**
   * An empty day shows exactly the line `[No Assignments]`; otherwise three lines per
   * assignment, in the order given, starting with its time and name and then its course.
   */
  lemma ListingShape(s: seq<Assignment>)
    ensures s == [] ==> Listing(s) == ["[No Assignments]"]
    ensures s != [] ==> |Listing(s)| == 3 * |s|
    ensures s != [] ==> forall i :: 0 <= i < |s| ==>
      && Listing(s)[3 * i] == s[i].dueTime + " " + s[i].name
      && Listing(s)[3 * i + 1] == "  └ " + s[i].course
      && Listing(s)[3 * i + 2] == ""
  {
    EntriesShape(s);
    if s != [] {
      forall i | 0 <= i < |s|
        ensures Listing(s)[3 * i] == s[i].dueTime + " " + s[i].name
        ensures Listing(s)[3 * i + 1] == "  └ " + s[i].course
        ensures Listing(s)[3 * i + 2] == ""
      {
        assert Entries(s)[3 * i .. 3 * i + 3] == EntryLines(s[i]);
      }
    }
  }

  // ---------------------------------------------------------------------------
  // The two widgets
  // ---------------------------------------------------------------------------

  /** How a widget operation ended: normally, or with an exception from the date arithmetic. */
  datatype Outcome = Done | Raised(error: DateError)

  /** `AppointmentWidget`: the list of lines shown for one date. */
  class AppointmentWidget {
    var assignments: AssignmentCollection
    var currentDate: Option<Date>
    var lines: seq<string>

    constructor (assignments: AssignmentCollection)
      ensures this.assignments == assignments && currentDate == None && lines == []
    {
      this.assignments := assignments;
      currentDate := None;
      lines := [];
    }

    /** `update_for_date`: remember the date and list its assignments in query order. */
    method UpdateForDate(d: Date)
      requires assignments.Valid()
      modifies this, assignments
      ensures assignments == old(assignments) && assignments.Valid()
      ensures assignments.byDate == AfterQuery(old(assignments.byDate), d)
      ensures currentDate == Some(d)
      ensures lines == Listing(Query(old(assignments.byDate), d))
    {
      currentDate := Some(d);
      var found := assignments.GetAssignmentsForDate(d);
      var shown: seq<string> := [];
      if found == [] {
        shown := shown + ["[No Assignments]"];
      } else {
        var i := 0;
        while i < |found|
          invariant 0 <= i <= |found|
          invariant shown == Entries(found[..i])
          modifies {}
        {
          assert found[..i + 1][..i] == found[..i];
          shown := shown + [found[i].dueTime + " " + found[i].name, "  └ " + found[i].course, ""];
          i := i + 1;
        }
        assert found[..i] == found;
      }
      assert shown == Listing(found);
      lines := shown;
    }
  }

  /**
   * `CalendarWidget`: the cursor fields, the painted weeks and the month number of the
   * "Next:" line (`None` when painting stopped before that line). `appointments` is the
   * target of the day callback, which the application wires to `update_for_date`.
   */
  class CalendarWidget {
    var assignments: AssignmentCollection
    var appointments: AppointmentWidget
    var currentDate: DateTime
    var selectedDate: Date
    var weeks: seq<seq<Cell>>
    var nextMonthLine: Option<int>

    ghost predicate Valid()
      reads this, assignments, appointments
    {
      && assignments.Valid()
      && appointments.assignments == assignments
      && ValidCursor(CalendarCursor(currentDate, selectedDate))
    }

    function Cursor(): CalendarCursor
      reads this
    {
      CalendarCursor(currentDate, selectedDate)
    }

    /** The painted grid is that of the current state, and the "Next:" line is there iff it could be formed. */
    ghost predicate Painted(today: Date)
      reads this, assignments
      requires ValidDateTime(currentDate)
    {
      && weeks == RenderMonth(currentDate.date.year, currentDate.date.month, today, selectedDate, assignments.byDate.Keys)
      && nextMonthLine == match NextMonthDate(currentDate)
                          case Ok(t) => Some(t.date.month)
                          case Err(_) => None
    }

    constructor (assignments: AssignmentCollection, appointments: AppointmentWidget, today: Date, now: DateTime)
      requires assignments.Valid() && appointments.assignments == assignments
      requires ValidDate(today) && ValidDateTime(now)
      ensures Valid() && this.assignments == assignments && this.appointments == appointments
      ensures Cursor() == CalendarCursor(now, today) && weeks == [] && nextMonthLine == None
    {
      this.assignments := assignments;
      this.appointments := appointments;
      currentDate := now;
      selectedDate := today;
      weeks := [];
      nextMonthLine := None;
    }

    /** `update`: repaint the viewed month; raises while forming the "Next:" line when `replace` fails. */
    method Update(today: Date) returns (o: Outcome)
      requires Valid()
      modifies this
      ensures Valid() && Painted(today)
      ensures Cursor() == old(Cursor())
      ensures assignments == old(assignments) && appointments == old(appointments)
      ensures o == UpdateOutcome(currentDate)
    {
      var y, m := currentDate.date.year, currentDate.date.month;
      var cal := MonthCalendar(y, m);
      MonthCalendarEntries(y, m);
      ghost var keys := assignments.byDate.Keys;
      var painted: seq<seq<Cell>> := [];
      var w := 0;
      while w < |cal|
        invariant 0 <= w <= |cal|
        invariant |painted| == w
        invariant forall v :: 0 <= v < w ==> painted[v] == RenderWeek(cal[v], y, m, today, selectedDate, keys)
        modifies {}
      {
        var row := PaintWeek(cal[w], today);
        painted := painted + [row];
        w := w + 1;
      }
      weeks := painted;
      nextMonthLine := None;
      match NextMonthDate(currentDate)
      case Ok(t) =>
        nextMonthLine := Some(t.date.month);
        o := Done;
      case Err(e) =>
        o := Raised(e);
    }

    /** The inner loop of `update`: the cells of one week of the viewed month. */
    method PaintWeek(week: seq<int>, today: Date) returns (row: seq<Cell>)
      requires Valid() && forall i :: 0 <= i < |week| ==> 0 <= week[i] <= 31
      ensures row == RenderWeek(week, currentDate.date.year, currentDate.date.month, today, selectedDate,
                                assignments.byDate.Keys)
    {
      var y, m := currentDate.date.year, currentDate.date.month;
      row := [];
      var i := 0;
      while i < |week|
        invariant 0 <= i <= |week|
        invariant |row| == i
        invariant forall j :: 0 <= j < i ==> row[j] == CellAt(week[j], y, m, today, selectedDate, assignments.byDate.Keys)
      {
        var cell := Blank;
        if week[i] != 0 {
          var dayDate := Date(y, m, week[i]);
          var has := assignments.HasAssignmentsForDate(dayDate);
          cell := DayCellFor(dayDate, today, selectedDate, has);
        }
        row := row + [cell];
        i := i + 1;
      }
    }

    /** `select_day`: select `d`, show its assignments, repaint. */
    method SelectDay(d: Date, today: Date) returns (o: Outcome)
      requires Valid() && ValidDate(d)
      modifies this, appointments, assignments
      ensures assignments == old(assignments) && appointments == old(appointments)
      ensures Valid() && Painted(today)
      ensures Cursor() == SelectDayMove(old(Cursor()), d)
      ensures ShowsDay(old(assignments.byDate), d)
      ensures o == UpdateOutcome(currentDate)
    {
      selectedDate := d;
      appointments.UpdateForDate(d);
      o := Update(today);
    }

    /** `prev_month`: view the previous month and repaint; when `replace` raises nothing changes. */
    method PrevMonth(today: Date) returns (o: Outcome)
      requires Valid()
      modifies this
      ensures assignments == old(assignments) && appointments == old(appointments)
      ensures Valid()
      ensures PrevMonthMove(old(Cursor())).Err? ==>
                o == Raised(PrevMonthMove(old(Cursor())).error) && unchanged(this)
      ensures PrevMonthMove(old(Cursor())).Ok? ==>
                Cursor() == PrevMonthMove(old(Cursor())).value && Painted(today) && o == UpdateOutcome(currentDate)
    {
      match PrevMonthDate(currentDate)
      case Err(e) =>
        o := Raised(e);
      case Ok(t) =>
        currentDate := t;
        o := Update(today);
    }

    /** `next_month`: view the next month and repaint; when `replace` raises nothing changes. */
    method NextMonth(today: Date) returns (o: Outcome)
      requires Valid()
      modifies this
      ensures assignments == old(assignments) && appointments == old(appointments)
      ensures Valid()
      ensures NextMonthMove(old(Cursor())).Err? ==>
                o == Raised(NextMonthMove(old(Cursor())).error) && unchanged(this)
      ensures NextMonthMove(old(Cursor())).Ok? ==>
                Cursor() == NextMonthMove(old(Cursor())).value && Painted(today) && o == UpdateOutcome(currentDate)
    {
      match NextMonthDate(currentDate)
      case Err(e) =>
        o := Raised(e);
      case Ok(t) =>
        currentDate := t;
        o := Update(today);
    }

    /**
     * `navigate_day(n)`: move the selection, follow it with the viewed month, show the
     * new day's assignments and repaint; on OverflowError nothing changes.
     */
    method NavigateDay(n: int, today: Date) returns (o: Outcome)
      requires Valid()
      modifies this, appointments, assignments
      ensures assignments == old(assignments) && appointments == old(appointments)
      ensures Valid()
      ensures NavigateDayMove(old(Cursor()), n).Err? ==>
                o == Raised(NavigateDayMove(old(Cursor()), n).error) &&
                unchanged(this) && unchanged(old(appointments)) && unchanged(old(assignments))
      ensures NavigateDayMove(old(Cursor()), n).Ok? ==>
                && Cursor() == NavigateDayMove(old(Cursor()), n).value
                && ShowsDay(old(assignments.byDate), selectedDate)
                && Painted(today) && o == UpdateOutcome(currentDate)
    {
      match AddDays(selectedDate, n)
      case Err(e) =>
        o := Raised(e);
      case Ok(s) =>
        selectedDate := s;
        if selectedDate.month != currentDate.date.month || selectedDate.year != currentDate.date.year {
          currentDate := DateTime(Date(selectedDate.year, selectedDate.month, 1), 0);
        }
        appointments.UpdateForDate(selectedDate);
        o := Update(today);
    }

    /** `go_to_today`: select today, view the month of `now`, show today's assignments, repaint. */
    method GoToToday(today: Date, now: DateTime) returns (o: Outcome)
      requires Valid() && ValidDate(today) && ValidDateTime(now)
      modifies this, appointments, assignments
      ensures assignments == old(assignments) && appointments == old(appointments)
      ensures Valid() && Painted(today)
      ensures Cursor() == GoToTodayMove(today, now)
      ensures ShowsDay(old(assignments.byDate), today)
      ensures o == UpdateOutcome(currentDate)
    {
      selectedDate := today;
      currentDate := now;
      appointments.UpdateForDate(selectedDate);
      o := Update(today);
    }

    /** The assignment pane shows `d`, queried against the dictionary `before` the callback. */
    ghost predicate ShowsDay(before: Buckets, d: Date)
      reads this, appointments, assignments
    {
      && appointments.currentDate == Some(d)
      && appointments.lines == Listing(Query(before, d))
      && assignments.byDate == AfterQuery(before, d)
    }
  }

  /** How `update` ends for a viewed month: it raises exactly when the "Next:" line cannot be formed. */
  function UpdateOutcome(t: DateTime): (o: Outcome)
    requires ValidDateTime(t)
    ensures o.Raised? <==> NextMonthDate(t).Err?
  {
    match NextMonthDate(t)
    case Ok(_) => Done
    case Err(e) => Raised(e)
  }
}
