# canvasCTL core in Dafny

canvasCTL is a terminal calendar for Canvas assignments, in the style of calcurse. It loads
assignments from the Canvas API into a collection keyed by due date. The calendar pane paints
the viewed month, marking today, the selected day and the days that have assignments. The
assignment pane lists the selected day's assignments. Keys move the selection by days and weeks,
change the viewed month, jump to today, refresh, or open a help overlay.

This project models and proves properties of four parts:

- **`AssignmentCollection`** (`models.dfy`). This is a class over a map from date to sequence.
  - `add_assignment` appends to the bucket for `due_date.date()`.
  - `get_assignments_for_date` sorts that bucket in place and returns it.
  - `has_assignments_for_date` tests whether the key is present.
  - `clear` empties the map.
  - Python's stable `list.sort` is specified by a reference stable insertion sort, `SortByDue`.
    It is proved sorted, a permutation, order-preserving among entries due at the same instant,
    and the only sort with those properties.
  - The invariant "every bucket is non-empty and holds only its own date" makes "the key is
    present" equivalent to "the query is non-empty".
- **The calendar pane** (`ui_components.dfy`).
  - It tracks the cursor pair `current_date` and `selected_date`, and the pure moves
    `navigate_day`, `next_month`, `prev_month`, `select_day` and `go_to_today`.
  - The `CalendarWidget` class runs those moves on its fields and repaints. Each repaint is a loop
    over `calendar.monthcalendar` that produces the rendered grid of cells.
  - The per-day cell decision covers the style precedence and the `*` marker.
  - The `AppointmentWidget` class lists lines for a day (`update_for_date`).
  - Dates follow Python's `date`/`datetime` (`dates.dfy`):
    - years 1 to 9999;
    - addition of days via the proleptic Gregorian ordinal, raising OverflowError at the ends;
    - `replace(month = …)`, which keeps the day of month and raises ValueError when that day does
      not exist.
- **Key dispatch** (`keyboard_handler.dfy`). The elif chain of `handle_input` is a table from keys
  to commands. The main loop has two input modes:
  - the handler itself;
  - the help overlay, whose `close_help` consumes the next non-empty key.

  The pure transition `Step` works over (mode, cursor). The `KeyboardHandler` class's methods are
  proved to follow it.
- **Configuration** (`config.dfy`). The environment is a map from string to string.
  - It computes which required variables are missing.
  - It builds the error message, naming the missing variables in a fixed order.
  - `COURSE_LIST` is split on commas, with every piece kept verbatim.
  - The consumer strips each course id and skips blank ones.

Outcomes the source handles by raising are explicit:

- `Result` errors for the date arithmetic;
- an `Outcome` (`Done` or `Raised`) for widget operations;
- an `Effect` (`Continue`, `Exit`, `RefreshRequested` or `Crash`) for a key.

`date.today()` and `datetime.now()` are parameters (`today`, `now`).

Three behaviours of the code are modelled exactly as written:

- `select_day` changes only the selection. The viewed month stays where it was.
- A query reorders the stored bucket in place. The dictionary keeps the sorted list, but no key is
  created.
- `update` forms the "Next:" line with `replace(month = month + 1)`. So repainting a month whose
  `current_date` is, for example, 30 January raises ValueError after the grid has been painted.
  `next_month` and `prev_month` have the same hazard. All three are error outcomes, and none is
  silently clamped.

## Model

| member | source | states |
|---|---|---|
| `Dates.AddDays` | CanvasCTL/ui_components.py:139 | `date + timedelta(days = n)` succeeds exactly when the shifted ordinal lies in Python's date range. It then gives a valid date with that ordinal. Otherwise it gives the overflow error. |
| `Dates.AddOneDay` | CanvasCTL/ui_components.py:139 | Adding one day agrees with an independent calendar step: next day, or the 1st of the next month, or 1 January of the next year, with leap Februaries. |
| `Dates.AddDaysAdditive` | CanvasCTL/ui_components.py:139 | Shifting by `a` and then by `b` is shifting by `a + b`, including whether it overflows. |
| `Dates.AddDaysInverse` | CanvasCTL/ui_components.py:139 | Shifting by `n` and then by `-n` returns the original date. |
| `Dates.ReplaceYearMonth` | CanvasCTL/ui_components.py:124-134 | `replace(year, month)` succeeds exactly when the year is in range and the kept day exists in the target month. It then keeps the day and the time. |
| `Dates.DateTimeLeTotalOrder` | CanvasCTL/models.py:36 | The due-date order used as the sort key is total, transitive and antisymmetric. |
| `Models.DateKey` | CanvasCTL/models.py:17-20 | `date_key` is the date part of the due datetime, a valid date whenever the datetime is valid. |
| `Models.SortByDue` | CanvasCTL/models.py:36 | The reference sort keeps the length. The lemmas below state exactly what `list.sort` gives. |
| `Models.SortByDueSortedPermutation` | CanvasCTL/models.py:36 | The reference sort yields an ascending sequence with the same multiset of entries. |
| `Models.SortByDueStable` | CanvasCTL/models.py:36 | For every timestamp, the entries due then keep their original relative order (stability). |
| `Models.StableSortUnique` | CanvasCTL/models.py:36 | Two sorted sequences with the same entries in the same order at each timestamp are equal. |
| `Models.SortByDueIsTheStableSort` | CanvasCTL/models.py:36 | Any sorted, stable rearrangement of a bucket is the reference sort's result. So the reference pins down `list.sort` exactly. |
| `Models.SortByDueOfSorted` | CanvasCTL/models.py:36 | Sorting an already sorted bucket leaves it as it is. |
| `Models.SortByDueIdempotent` | CanvasCTL/models.py:36 | Sorting twice is sorting once. |
| `Models.DueAtMembers` | CanvasCTL/models.py:36 | The entries picked out at a timestamp are entries of the bucket due at that timestamp. |
| `Models.Inserted` | CanvasCTL/models.py:28-30 | The dictionary after `add_assignment(a)`: a's date becomes a key if it was not one, the old bucket is kept in order as a prefix, `a` is its last entry, and every other bucket is kept. |
| `Models.Query` | CanvasCTL/models.py:32-37 | `get_assignments_for_date` returns as many entries as the bucket holds, and [] for a date that is not a key. |
| `Models.AfterQuery` | CanvasCTL/models.py:32-37 | After the query, the keys are unchanged, every other bucket is kept, and the queried bucket keeps its length. |
| `Models.InsertedValid` | CanvasCTL/models.py:28-30 | Appending keeps every bucket non-empty and every entry under its own date. |
| `Models.InsertedBuckets` | CanvasCTL/models.py:28-30 | After adding `a`, its date is a key and `a` is in that date's query. Every other date keeps its key status and its query. |
| `Models.InsertedNoDedup` | CanvasCTL/models.py:30 | Adding `a` puts exactly one more copy of it in its bucket, and the bucket grows by one. |
| `Models.QueryAbsent` | CanvasCTL/models.py:34 | Querying a date that is not a key returns the empty list and leaves the dictionary unchanged. |
| `Models.QuerySortedStable` | CanvasCTL/models.py:34-37 | The query result is ascending by due date, a permutation of the bucket, and stable. |
| `Models.QueryRepeatable` | CanvasCTL/models.py:34-37 | A query changes neither the keys nor the other buckets, and keeps its own bucket's entries. A second query returns the same list and leaves the same dictionary. |
| `Models.AfterQueryValid` | CanvasCTL/models.py:34-37 | The in-place sort keeps the collection invariant. |
| `Models.HasIffNonEmpty` | CanvasCTL/models.py:39-41 | Under the invariant, a date is a key exactly when its query is non-empty. |
| `Models.QueryOnlyOwnDate` | CanvasCTL/models.py:32-37 | Under the invariant, a query for `d` returns only assignments whose date is `d`. |
| `Models.AssignmentCollection.constructor` | CanvasCTL/models.py:25-26 | A new collection is empty and satisfies the invariant. |
| `Models.AssignmentCollection.AddAssignment` | CanvasCTL/models.py:28-30 | The new dictionary is the old one with `a` appended to its date's bucket. The invariant is kept. |
| `Models.AssignmentCollection.GetAssignmentsForDate` | CanvasCTL/models.py:32-37 | Returns the stably sorted bucket, a sorted permutation of the stored one. Stores it back in place when the key exists, and creates no key otherwise. |
| `Models.AssignmentCollection.HasAssignmentsForDate` | CanvasCTL/models.py:39-41 | True exactly when the date is a key, and equally exactly when its query is non-empty. Changes nothing. |
| `Models.AssignmentCollection.Clear` | CanvasCTL/models.py:43-45 | The dictionary is empty afterwards and every date's query is empty. |
| `UiComponents.NextMonthDate` | CanvasCTL/ui_components.py:129-135 | It fails exactly in two cases: December of year 9999, or a day of month that the next month lacks. Otherwise the month index goes up by one, keeping day and time. |
| `UiComponents.PrevMonthDate` | CanvasCTL/ui_components.py:121-127 | It fails exactly in two cases: January of year 1, or a day of month that the previous month lacks. Otherwise the month index goes down by one, keeping day and time. |
| `UiComponents.PrevAfterNext` | CanvasCTL/ui_components.py:121-135 | Going forward a month and back returns the same timestamp. |
| `UiComponents.NextAfterPrev` | CanvasCTL/ui_components.py:121-135 | Going back a month and forward returns the same timestamp. |
| `UiComponents.NavigateDayMove` | CanvasCTL/ui_components.py:137-142 | Fails exactly when the day shift overflows. Otherwise the selection is old + n days and the view is the selection's month. The view is unchanged when the month stayed the same, else it is the 1st of the new month at midnight. |
| `UiComponents.NavigateDayAdditive` | CanvasCTL/ui_components.py:137-142 | Moving by `a` and then `b` succeeds exactly when moving by `a + b` does. It then selects the same date and views the same month. |
| `UiComponents.NextMonthMove` | CanvasCTL/ui_components.py:129-135 | Succeeds exactly when the month after can be formed. The view then advances one month and the selection is unchanged. |
| `UiComponents.PrevMonthMove` | CanvasCTL/ui_components.py:121-127 | Succeeds exactly when the month before can be formed. The view then goes back one month and the selection is unchanged. |
| `UiComponents.MonthMoveLeavesSelectionBehind` | CanvasCTL/ui_components.py:121-135 | From a cursor whose view holds the selection, a successful month change leaves the selection outside the view. |
| `UiComponents.NextMonthRollover` | CanvasCTL/ui_components.py:129-135 | December goes to January of the next year; any other month goes to the next month of the same year. |
| `UiComponents.PrevMonthRollover` | CanvasCTL/ui_components.py:121-127 | January goes to December of the previous year; any other month goes to the previous month of the same year. |
| `UiComponents.SelectDayMove` | CanvasCTL/ui_components.py:115-119 | Only the selection changes; the viewed month stays. |
| `UiComponents.GoToTodayMove` | CanvasCTL/ui_components.py:146-151 | Selects today and views now. When now falls on today, the view holds the selection. |
| `UiComponents.NavigateOverNewYear` | CanvasCTL/ui_components.py:137-142 | From 2024-12-31, one day forward selects 2025-01-01 and views January 2025 from its 1st. |
| `UiComponents.NextMonthFailsOnJanuary30` | CanvasCTL/ui_components.py:131-134 | On 30 January the month after cannot be formed, and the day error is raised. |
| `UiComponents.MonthCalendar` | CanvasCTL/ui_components.py:27 | `calendar.monthcalendar(y, m)` has between four and six weeks of seven entries each. |
| `Dates.Weekday` | CanvasCTL/ui_components.py:27 | `date.weekday()` is in 0..6. `MonthCalendarShape` uses it to put each day in its column of the grid. |
| `UiComponents.MonthCalendarShape` | CanvasCTL/ui_components.py:27 | The month grid has rows of seven, Monday first. A non-zero entry is a day of the month in its weekday's column. Every day appears at its row and column, and the first and last rows are not blank. |
| `UiComponents.MonthCalendarEntries` | CanvasCTL/ui_components.py:27 | Every grid entry is 0 or a day of the month. |
| `UiComponents.MonthCalendarDistinct` | CanvasCTL/ui_components.py:42-50 | No day of the month appears at two places of the grid. |
| `UiComponents.DayCellFor` | CanvasCTL/ui_components.py:54-72 | The cell is a button for its date, six characters wide, carrying the two-digit day. It has a `*` exactly when the day has assignments, brackets exactly when it is today, and parentheses exactly when it is selected and not today. |
| `UiComponents.CellStylePrecedence` | CanvasCTL/ui_components.py:59-69 | Each style is chosen exactly when it should be: today, else selected, else has assignments, else normal. |
| `UiComponents.RenderedCell` | CanvasCTL/ui_components.py:42-76 | Each painted row has seven cells, and each cell is the one decided for its grid entry. |
| `UiComponents.TodayPaintedOnlyOnToday` | CanvasCTL/ui_components.py:59-62 | A cell painted in the today style is today's cell, at today's row and column. |
| `UiComponents.TodayPaintedInItsMonth` | CanvasCTL/ui_components.py:42-62 | When today is in the viewed month, its cell is painted in the today style. |
| `UiComponents.EntriesShape` | CanvasCTL/ui_components.py:179-191 | The lines for `s` are three per assignment, and the i-th triple is the i-th assignment's lines. |
| `UiComponents.Listing` | CanvasCTL/ui_components.py:172-191 | The pane has one line for an empty day and three per assignment otherwise. It is `[No Assignments]` exactly when the day has none. |
| `UiComponents.ListingShape` | CanvasCTL/ui_components.py:172-191 | An empty day shows exactly `[No Assignments]`. Otherwise the pane shows, in query order, three lines per assignment: "time name", "  └ course" and "". |
| `UiComponents.AppointmentWidget.constructor` | CanvasCTL/ui_components.py:160-164 | A new pane has no current date and no lines. |
| `UiComponents.AppointmentWidget.UpdateForDate` | CanvasCTL/ui_components.py:166-191 | Its loop remembers the date, shows the listing of the date's query, and leaves the collection with that bucket sorted in place. |
| `UiComponents.CalendarWidget.constructor` | CanvasCTL/ui_components.py:14-18 | The cursor starts at (now, today). |
| `UiComponents.CalendarWidget.Update` | CanvasCTL/ui_components.py:22-90 | Its nested loops paint exactly the rendered grid of the viewed month, and the cursor is unchanged. The outcome raises exactly when the "Next:" line cannot be formed. |
| `UiComponents.CalendarWidget.PaintWeek` | CanvasCTL/ui_components.py:45-76 | Its loop paints one week: in order, each entry's cell is the one decided from the collection's keys, today and the selection. |
| `UiComponents.CalendarWidget.SelectDay` | CanvasCTL/ui_components.py:115-119 | The cursor becomes `SelectDayMove(d)` and the pane shows `d`'s assignments. The calendar is repainted. The widget keeps the same collection and pane objects. |
| `UiComponents.CalendarWidget.PrevMonth` | CanvasCTL/ui_components.py:121-127 | On failure it raises and nothing changes. Otherwise the cursor is `PrevMonthMove` and the calendar is repainted. The widget keeps the same collection and pane objects. |
| `UiComponents.CalendarWidget.NextMonth` | CanvasCTL/ui_components.py:129-135 | On failure it raises and nothing changes. Otherwise the cursor is `NextMonthMove` and the calendar is repainted. The widget keeps the same collection and pane objects. |
| `UiComponents.CalendarWidget.NavigateDay` | CanvasCTL/ui_components.py:137-144 | On overflow it raises and neither widget nor the collection changes. Otherwise the cursor is `NavigateDayMove(n)`, the pane shows the new day, and the calendar is repainted. The widget keeps the same collection and pane objects. |
| `UiComponents.CalendarWidget.GoToToday` | CanvasCTL/ui_components.py:146-151 | The cursor is `GoToTodayMove` and the pane shows today's assignments. The calendar is repainted. The widget keeps the same collection and pane objects. |
| `UiComponents.UpdateOutcome` | CanvasCTL/ui_components.py:84-87 | A repaint raises exactly when `replace` cannot form the month after the viewed date. |
| `KeyboardHandler.Step` | CanvasCTL/keyboard_handler.py:15-104 | The main loop's transition on one key. Help mode is entered only by `h` and left by any non-empty key. Only `q`/`Q` exit, and only `r` requests a refresh, both in the normal mode. In help mode, and for `q`, `h`, `r` and unbound keys, the cursor stays put. |
| `KeyboardHandler.CommandStep` | CanvasCTL/keyboard_handler.py:21-41 | A cursor command ends in the normal mode with a valid cursor, and it neither exits nor requests a refresh. |
| `KeyboardHandler.Dispatch` | CanvasCTL/keyboard_handler.py:15-43 | A key selects no command exactly when it is outside the handled keys. Day moves are by +1, -1, +7 or -7 only. |
| `KeyboardHandler.QuitKeysExit` | CanvasCTL/keyboard_handler.py:17-18 | `q` and `Q` end the loop and change nothing else. |
| `KeyboardHandler.UnboundKeyIgnored` | CanvasCTL/keyboard_handler.py:15-43 | Any other key changes neither mode nor cursor. |
| `KeyboardHandler.DayKeyBindings` | CanvasCTL/keyboard_handler.py:24-35 | `j`/down and `k`/up move by one day; `l`/right and left move by a week, forward and back. |
| `KeyboardHandler.OtherKeyBindings` | CanvasCTL/keyboard_handler.py:15-43 | `>`/`.` is the next month and `<`/`,` the previous one. `t` is today, `r` refresh, `h` help, and `q`/`Q` quit. |
| `KeyboardHandler.CommandKeysStep` | CanvasCTL/keyboard_handler.py:21-43 | A command key runs that command's cursor move followed by the repaint. The refresh key requests a refresh and leaves the cursor. |
| `KeyboardHandler.DayKeysKeepSync` | CanvasCTL/keyboard_handler.py:24-35 | A day or week key never exits. Unless the move overflows, the view afterwards holds the selection. |
| `KeyboardHandler.HelpConsumesNextKey` | CanvasCTL/keyboard_handler.py:98-104 | `h` opens help and changes nothing else. In help, a non-empty key, even `q`, only closes help; an empty key leaves help open. |
| `KeyboardHandler.KeyboardHandler.constructor` | CanvasCTL/keyboard_handler.py:10-13 | The handler starts in the normal mode. |
| `KeyboardHandler.KeyboardHandler.Feed` | CanvasCTL/keyboard_handler.py:98-104 | Delivering a key to whichever handler is installed gives the mode, cursor and effect of `Step`. In help mode, no key changes the calendar, the pane or the collection. In the normal mode, it keeps every guarantee of `HandleInput`. The calendar keeps the same collection and pane objects. |
| `KeyboardHandler.KeyboardHandler.CloseHelp` | CanvasCTL/keyboard_handler.py:98-101 | A non-empty key restores the normal mode; an empty one keeps help. |
| `KeyboardHandler.KeyboardHandler.HandleInput` | CanvasCTL/keyboard_handler.py:15-43 | The handler's mode, cursor and effect are those of `Step` in the normal mode. `q`/`Q`, `h`, `r` and unbound keys leave the calendar, the pane and the collection exactly as they were. After `t`, and after a day key that does not overflow, the grid is repainted and the pane shows the new selected day. A day key that overflows changes nothing. A month key never touches the pane or the collection. It repaints when `replace` succeeds, and otherwise leaves the calendar as it was. The calendar keeps the same collection and pane objects. |
| `KeyboardHandler.KeyboardHandler.RunCommand` | CanvasCTL/keyboard_handler.py:21-41 | The `t`, day and month branches: the cursor and effect of `CommandStep`, together with the same pane, repaint and unchanged-state guarantees. The calendar keeps the same collection and pane objects. |
| `Config.GetEnv` | CanvasCTL/config.py:14-20 | `os.getenv` is `None` exactly when unset, and otherwise the variable's value. |
| `Config.MissingOf` | CanvasCTL/config.py:28-29 | A name is reported exactly when it is required and unset or empty. |
| `Config.MissingVarsOrder` | CanvasCTL/config.py:28-32 | The missing names come in the order API_URL, API_KEY, COURSE_LIST. |
| `Config.ValidateEnv` | CanvasCTL/config.py:26-32 | No error exactly when all three variables are set and non-empty. Otherwise the message is the fixed prefix followed by the missing names joined by ", ". |
| `Config.Split` | CanvasCTL/config.py:24 | `split` gives at least one piece, and no piece contains the separator. |
| `Config.JoinSplit` | CanvasCTL/config.py:24 | Joining the pieces with the separator gives back the string. |
| `Config.SplitJoin` | CanvasCTL/config.py:24 | Splitting a join of separator-free pieces gives back the pieces. |
| `Config.SplitCount` | CanvasCTL/config.py:24 | There is one more piece than there are commas. |
| `Config.CourseList` | CanvasCTL/config.py:22-24 | The entries joined with "," are exactly the `COURSE_LIST` value, or "" when unset. There is at least one entry, and none contains a comma. With `SplitJoin`, this makes the result the one and only split: the pieces are verbatim, empty and blank ones included. |
| `Config.CourseListExample` | CanvasCTL/config.py:24 | "101, ,102," gives four entries: "101", " ", "102" and "". |
| `Config.StripSpec` | CanvasCTL/canvas_api.py:26-29 | `strip()` leaves no whitespace at either end, and is empty exactly when the entry is all whitespace (Python's `isspace` set). |
| `Config.StripKeeps` | CanvasCTL/canvas_api.py:26-29 | An entry with no whitespace at either end is its own strip. |
| `Config.TrimLeftSpec` | CanvasCTL/canvas_api.py:26-29 | Stripping the left keeps a suffix. The removed prefix is all whitespace, and the suffix does not start with whitespace. |
| `Config.TrimRightSpec` | CanvasCTL/canvas_api.py:26-29 | Stripping the right keeps a prefix. The removed suffix is all whitespace, and the prefix does not end with whitespace. |
| `Config.TrimLeftEmpty` | CanvasCTL/canvas_api.py:26 | Stripping the left leaves nothing exactly when the entry is all whitespace. |
| `Config.CourseIds` | CanvasCTL/canvas_api.py:25-29 | The fetched ids are non-empty, and there are no more of them than entries. |
| `Config.CourseIdsSingle` | CanvasCTL/canvas_api.py:26-29 | One entry contributes its strip, or nothing when the strip is blank. |
| `Config.CourseIdsAppend` | CanvasCTL/canvas_api.py:25-29 | The ids of two concatenated lists are the ids of each, concatenated. With `CourseIdsSingle`, the ids are the stripped non-blank entries in list order, repeats kept. |
| `Config.CourseIdsRepeats` | CanvasCTL/canvas_api.py:25-29 | "101,101" fetches course 101 twice, so its assignments are loaded twice. |
| `Config.Strip` | CanvasCTL/canvas_api.py:26-29 | `str.strip()` is never longer than the entry. Its other properties are in `StripSpec`, `TrimLeftSpec` and `TrimRightSpec`. |
| `Config.CourseIdsTrimmed` | CanvasCTL/canvas_api.py:25-29 | Every fetched id is non-empty and has no whitespace at either end. |
| `Config.CourseIdsMembers` | CanvasCTL/canvas_api.py:25-29 | An id is fetched exactly when some entry strips to it and it is not blank. |
| `Config.CourseIdsExample` | CanvasCTL/canvas_api.py:25-29 | Of "101", " ", "102" and "", exactly "101" and "102" are fetched, in that order. |

## Left out

- urwid widget construction, walkers, `AttrMap`/`Columns` layout, focus and the palette
  (CanvasCTL/ui_theme.py). These are terminal rendering. A painted grid is a sequence of cells
  with a style, and the pane is a sequence of lines.
- urwid's focus handling. A focused widget may consume keys such as the arrows, Enter or space
  before `unhandled_input` sees them. The model assumes that every key reaches `handle_input`,
  so `DayKeyBindings` gives the handler's bindings but not which keys urwid delivers.
- The `strftime` texts: the month header, the weekday header row, `get_header_text` of both widgets
  and the month name on the "Next:" line. These are locale-dependent formatting, so the "Next:"
  line is kept as the month number it names.
- The help text and the overlay's geometry. Only the mode change is modelled.
- `update_appointment_header`, `update_calendar_header` and `refresh_assignments`. They are empty
  in the handler, and the application replaces them with header painting and a reload. A refresh
  key yields `RefreshRequested`. When the application reloads, it replaces the collection and
  re-queries the pane's current date (CanvasCTL/main_app.py:124-131). That glue is not part of
  this model.
- The day callback is wired to `AppointmentWidget.update_for_date`, as the application does. Its
  header update is left out.
- CanvasCTL/canvas_api.py: the Canvas API calls, network errors, ISO date parsing, and the
  placeholder assignment built on an error. Only the course-id strip-and-skip rule is modelled.
- CanvasCTL/main_app.py, CanvasCTL/main.py, run.py and `__init__.py`. These are process wiring,
  exit codes and re-exports.
- The unused `_week_selected` and the empty `add_*_next_month` stubs of `CalendarWidget`.
- `load_dotenv`. The environment map is taken as already holding the `.env` values.
- Time zones, and naive/aware datetime mixing. Datetimes are naive: a date and a time of day in
  microseconds. `now` and `today` are parameters rather than clock reads, so nothing ties `now`'s
  date to `today`.
- Python's key values are modelled as strings. urwid's mouse-event tuples reaching the handler
  are not modelled, and `if key:` is "the string is not empty".
- Exceptions other than the date arithmetic's, for example from urwid.
