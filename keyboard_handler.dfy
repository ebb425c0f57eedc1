/**
 * Key dispatch: the if/elif chain of `handle_input` as a table from keys to commands,
 * and the two input modes of the main loop (the handler itself, or the help overlay's
 * `close_help` that consumes the next key).
 */
module KeyboardHandler {
  import opened Wrappers
  import opened Dates
  import opened UiComponents

  datatype Command =
    | Quit
    | ShowHelp
    | GoToTodayCmd
    | NavigateDays(days: int)
    | NextMonthCmd
    | PrevMonthCmd
    | RefreshCmd
    | NoCommand

  /** Every key that the elif chain of `handle_input` reacts to. */
  const BoundKeys: set<string> :=
    {"q", "Q", "h", "t", "j", "down", "k", "up", "l", "right", "left", ">", ".", "<", ",", "r"}

  /** The branch of `handle_input` taken for `key`. */
  function Dispatch(key: string): (c: Command)
    ensures c == NoCommand <==> key !in BoundKeys
    ensures c.NavigateDays? ==> c.days in {1, -1, 7, -7}
  {
    if key == "q" || key == "Q" then Quit
    else if key == "h" then ShowHelp
    else if key == "t" then GoToTodayCmd
    else if key == "j" || key == "down" then NavigateDays(1)
    else if key == "k" || key == "up" then NavigateDays(-1)
    else if key == "l" || key == "right" then NavigateDays(7)
    else if key == "left" then NavigateDays(-7)
    else if key == ">" || key == "." then NextMonthCmd
    else if key == "<" || key == "," then PrevMonthCmd
    else if key == "r" then RefreshCmd
    else NoCommand
  }

  /** The commands that neither move the cursor nor touch the calendar, the pane or the collection. */
  predicate Leaves(c: Command) {
    c.Quit? || c.ShowHelp? || c.RefreshCmd? || c.NoCommand?
  }

  /** Which input handler the main loop has installed. */
  datatype Mode = Normal | HelpShown

  /** What a key does to the main loop beyond the cursor. */
  datatype Effect =
    | Continue
    | Exit                     // urwid.ExitMainLoop
    | RefreshRequested         // refresh_assignments, supplied by the application
    | Crash(error: DateError)  // an exception escaping the handler ends the loop

  datatype StepResult = StepResult(mode: Mode, cursor: CalendarCursor, effect: Effect)

  /** A cursor command followed by the repaint, which raises when the "Next:" line fails. */
  function Repaint(r: Result<CalendarCursor, DateError>, c: CalendarCursor): (s: StepResult)
    requires ValidCursor(c) && (r.Ok? ==> ValidCursor(r.value))
  {
    match r
    case Err(e) => StepResult(Normal, c, Crash(e))
    case Ok(c') =>
      StepResult(Normal, c', match UpdateOutcome(c'.current) case Done => Continue case Raised(e) => Crash(e))
  }

  /** The transition of the main loop on one key, over the input mode and the cursor. */
  function Step(mode: Mode, c: CalendarCursor, key: string, today: Date, now: DateTime): (s: StepResult)
    requires ValidCursor(c) && ValidDate(today) && ValidDateTime(now)
    ensures ValidCursor(s.cursor)
    ensures s.mode == HelpShown <==> (mode == HelpShown && key == "") || (mode == Normal && Dispatch(key) == ShowHelp)
    ensures s.effect == Exit <==> mode == Normal && Dispatch(key) == Quit
    ensures s.effect == RefreshRequested <==> mode == Normal && Dispatch(key) == RefreshCmd
    ensures mode == HelpShown || Leaves(Dispatch(key)) ==> s.cursor == c
  {
    match mode
    case HelpShown => StepResult(if key != "" then Normal else HelpShown, c, Continue)
    case Normal =>
      match Dispatch(key)
      case Quit => StepResult(Normal, c, Exit)
      case ShowHelp => StepResult(HelpShown, c, Continue)
      case RefreshCmd => StepResult(Normal, c, RefreshRequested)
      case NoCommand => StepResult(Normal, c, Continue)
      case GoToTodayCmd => CommandStep(c, GoToTodayCmd, today, now)
      case NavigateDays(n) => CommandStep(c, NavigateDays(n), today, now)
      case NextMonthCmd => CommandStep(c, NextMonthCmd, today, now)
      case PrevMonthCmd => CommandStep(c, PrevMonthCmd, today, now)
  }

  /** A command that moves the cursor: the move, then the repaint. */
  function CommandStep(c: CalendarCursor, cmd: Command, today: Date, now: DateTime): (s: StepResult)
    requires ValidCursor(c) && ValidDate(today) && ValidDateTime(now) && !Leaves(cmd)
    ensures ValidCursor(s.cursor) && s.mode == Normal && !s.effect.Exit? && !s.effect.RefreshRequested?
  {
    match cmd
    case GoToTodayCmd => Repaint(Ok(GoToTodayMove(today, now)), c)
    case NavigateDays(n) => Repaint(NavigateDayMove(c, n), c)
    case NextMonthCmd => Repaint(NextMonthMove(c), c)
    case PrevMonthCmd => Repaint(PrevMonthMove(c), c)
  }

  /** `q` and `Q` end the loop and change nothing else. */
  lemma QuitKeysExit(c: CalendarCursor, key: string, today: Date, now: DateTime)
    requires ValidCursor(c) && ValidDate(today) && ValidDateTime(now) && key in {"q", "Q"}
    ensures Step(Normal, c, key, today, now) == StepResult(Normal, c, Exit)
  {
  }

  /** A key outside the chain changes nothing: the chain has no final else. */
  lemma UnboundKeyIgnored(c: CalendarCursor, key: string, today: Date, now: DateTime)
    requires ValidCursor(c) && ValidDate(today) && ValidDateTime(now) && key !in BoundKeys
    ensures Step(Normal, c, key, today, now) == StepResult(Normal, c, Continue)
  {
  }

  /** The movement bindings: `j`/down, `k`/up, `l`/right and left move by +1, -1, +7 and -7 days. */
  lemma DayKeyBindings()
    ensures Dispatch("j") == NavigateDays(1) && Dispatch("down") == NavigateDays(1)
    ensures Dispatch("k") == NavigateDays(-1) && Dispatch("up") == NavigateDays(-1)
    ensures Dispatch("l") == NavigateDays(7) && Dispatch("right") == NavigateDays(7)
    ensures Dispatch("left") == NavigateDays(-7)
  {
  }

  /** The other bindings: `>`/`.` and `<`/`,` change the month; `t`, `r`, `h`, `q`/`Q`. */
  lemma OtherKeyBindings()
    ensures Dispatch(">") == NextMonthCmd && Dispatch(".") == NextMonthCmd
    ensures Dispatch("<") == PrevMonthCmd && Dispatch(",") == PrevMonthCmd
    ensures Dispatch("t") == GoToTodayCmd && Dispatch("r") == RefreshCmd && Dispatch("h") == ShowHelp
    ensures Dispatch("q") == Quit && Dispatch("Q") == Quit
  {
  }

  /** A bound key runs its command on the cursor, followed by the repaint. */
  lemma CommandKeysStep(c: CalendarCursor, key: string, today: Date, now: DateTime)
    requires ValidCursor(c) && ValidDate(today) && ValidDateTime(now)
    ensures Dispatch(key).NavigateDays? ==>
              Step(Normal, c, key, today, now) == Repaint(NavigateDayMove(c, Dispatch(key).days), c)
    ensures Dispatch(key) == NextMonthCmd ==> Step(Normal, c, key, today, now) == Repaint(NextMonthMove(c), c)
    ensures Dispatch(key) == PrevMonthCmd ==> Step(Normal, c, key, today, now) == Repaint(PrevMonthMove(c), c)
    ensures Dispatch(key) == GoToTodayCmd ==>
              Step(Normal, c, key, today, now) == Repaint(Ok(GoToTodayMove(today, now)), c)
    ensures Dispatch(key) == RefreshCmd ==> Step(Normal, c, key, today, now) == StepResult(Normal, c, RefreshRequested)
  {
  }

  /** A day key keeps the viewed month on the selection, unless the move itself overflows. */
  lemma DayKeysKeepSync(c: CalendarCursor, key: string, today: Date, now: DateTime)
    requires ValidCursor(c) && ValidDate(today) && ValidDateTime(now) && Dispatch(key).NavigateDays?
    ensures !Step(Normal, c, key, today, now).effect.Exit?
    ensures Step(Normal, c, key, today, now).effect != Crash(DateOverflow) ==> InSync(Step(Normal, c, key, today, now).cursor)
  {
  }

  /**
   * `h` installs the help overlay; the next key that is not empty restores the handler
   * and is consumed: even `q` does not end the loop then, and the cursor stays put.
   */
  lemma HelpConsumesNextKey(c: CalendarCursor, key: string, today: Date, now: DateTime)
    requires ValidCursor(c) && ValidDate(today) && ValidDateTime(now)
    ensures Step(Normal, c, "h", today, now) == StepResult(HelpShown, c, Continue)
    ensures key != "" ==> Step(HelpShown, c, key, today, now) == StepResult(Normal, c, Continue)
    ensures key == "" ==> Step(HelpShown, c, key, today, now) == StepResult(HelpShown, c, Continue)
  {
  }

  /**
   * `KeyboardHandler` with the main loop's installed-handler state: `mode` says whether
   * `handle_input` or the overlay's `close_help` receives the next key.
   */
  class KeyboardHandler {
    var calendar: CalendarWidget
    var mode: Mode

    ghost predicate Valid()
      reads this, calendar, calendar.assignments, calendar.appointments
    {
      calendar.Valid()
    }

    constructor (calendar: CalendarWidget)
      ensures this.calendar == calendar && mode == Normal
    {
      this.calendar := calendar;
      mode := Normal;
    }

    /** The main loop delivering `key` to whichever handler is installed. */
    method Feed(key: string, today: Date, now: DateTime) returns (e: Effect)
      requires Valid() && ValidDate(today) && ValidDateTime(now)
      modifies this, calendar, calendar.appointments, calendar.assignments
      ensures calendar.assignments == old(calendar.assignments) && calendar.appointments == old(calendar.appointments)
      ensures Valid() && calendar == old(calendar)
      ensures var s := Step(old(mode), old(calendar.Cursor()), key, today, now);
        mode == s.mode && calendar.Cursor() == s.cursor && e == s.effect
      ensures old(mode) == HelpShown ==>
                unchanged(old(calendar), old(calendar.appointments), old(calendar.assignments))
      ensures old(mode) == Normal && Leaves(Dispatch(key)) ==>
                unchanged(old(calendar), old(calendar.appointments), old(calendar.assignments))
      ensures old(mode) == Normal && (Dispatch(key) == NextMonthCmd || Dispatch(key) == PrevMonthCmd) ==>
                unchanged(old(calendar.appointments), old(calendar.assignments))
      ensures old(mode) == Normal && Dispatch(key) == NextMonthCmd ==>
                if NextMonthMove(old(calendar.Cursor())).Ok? then calendar.Painted(today) else unchanged(old(calendar))
      ensures old(mode) == Normal && Dispatch(key) == PrevMonthCmd ==>
                if PrevMonthMove(old(calendar.Cursor())).Ok? then calendar.Painted(today) else unchanged(old(calendar))
      ensures old(mode) == Normal && Dispatch(key) == GoToTodayCmd ==>
                calendar.Painted(today) && calendar.ShowsDay(old(calendar.assignments.byDate), today)
      ensures old(mode) == Normal && Dispatch(key).NavigateDays? && e != Crash(DateOverflow) ==>
                calendar.Painted(today) && calendar.ShowsDay(old(calendar.assignments.byDate), calendar.selectedDate)
      ensures old(mode) == Normal && Dispatch(key).NavigateDays? && e == Crash(DateOverflow) ==>
                unchanged(old(calendar), old(calendar.appointments), old(calendar.assignments))
    {
      if mode == HelpShown {
        CloseHelp(key);
        e := Continue;
      } else {
        e := HandleInput(key, today, now);
      }
    }

    /** `close_help`: a key that is not empty restores the normal handler. */
    method CloseHelp(key: string)
      requires mode == HelpShown
      modifies this
      ensures calendar == old(calendar)
      ensures mode == if key != "" then Normal else HelpShown
    {
      if key != "" {
        mode := Normal;
      }
    }

    /** `handle_input`: run the command bound to `key` on the calendar. */
    method HandleInput(key: string, today: Date, now: DateTime) returns (e: Effect)
      requires Valid() && ValidDate(today) && ValidDateTime(now)
      modifies this, calendar, calendar.appointments, calendar.assignments
      ensures calendar.assignments == old(calendar.assignments) && calendar.appointments == old(calendar.appointments)
      ensures Valid() && calendar == old(calendar)
      ensures var s := Step(Normal, old(calendar.Cursor()), key, today, now);
        mode == (if s.mode == HelpShown then HelpShown else old(mode)) &&
        calendar.Cursor() == s.cursor && e == s.effect
      ensures Leaves(Dispatch(key)) ==>
                unchanged(old(calendar), old(calendar.appointments), old(calendar.assignments))
      ensures (Dispatch(key) == NextMonthCmd || Dispatch(key) == PrevMonthCmd) ==>
                unchanged(old(calendar.appointments), old(calendar.assignments))
      ensures Dispatch(key) == NextMonthCmd ==>
                if NextMonthMove(old(calendar.Cursor())).Ok? then calendar.Painted(today) else unchanged(old(calendar))
      ensures Dispatch(key) == PrevMonthCmd ==>
                if PrevMonthMove(old(calendar.Cursor())).Ok? then calendar.Painted(today) else unchanged(old(calendar))
      ensures Dispatch(key) == GoToTodayCmd ==>
                calendar.Painted(today) && calendar.ShowsDay(old(calendar.assignments.byDate), today)
      ensures Dispatch(key).NavigateDays? && e != Crash(DateOverflow) ==>
                calendar.Painted(today) && calendar.ShowsDay(old(calendar.assignments.byDate), calendar.selectedDate)
      ensures Dispatch(key).NavigateDays? && e == Crash(DateOverflow) ==>
                unchanged(old(calendar), old(calendar.appointments), old(calendar.assignments))
    {
      if Leaves(Dispatch(key)) {
        if Dispatch(key) == Quit {
          e := Exit;
        } else if Dispatch(key) == ShowHelp {
          mode := HelpShown;
          e := Continue;
        } else if Dispatch(key) == RefreshCmd {
          e := RefreshRequested;
        } else {
          e := Continue;
        }
      } else {
        e := RunCommand(Dispatch(key), today, now);
      }
    }

    /** The branches of `handle_input` that run a calendar command: the move, the pane and the repaint. */
    method RunCommand(cmd: Command, today: Date, now: DateTime) returns (e: Effect)
      requires Valid() && ValidDate(today) && ValidDateTime(now) && !Leaves(cmd)
      modifies calendar, calendar.appointments, calendar.assignments
      ensures calendar.assignments == old(calendar.assignments) && calendar.appointments == old(calendar.appointments)
      ensures calendar.Valid()
      ensures var s := CommandStep(old(calendar.Cursor()), cmd, today, now);
        calendar.Cursor() == s.cursor && e == s.effect
      ensures (cmd == NextMonthCmd || cmd == PrevMonthCmd) ==>
                unchanged(old(calendar.appointments), old(calendar.assignments))
      ensures cmd == NextMonthCmd ==>
                if NextMonthMove(old(calendar.Cursor())).Ok? then calendar.Painted(today) else unchanged(calendar)
      ensures cmd == PrevMonthCmd ==>
                if PrevMonthMove(old(calendar.Cursor())).Ok? then calendar.Painted(today) else unchanged(calendar)
      ensures cmd == GoToTodayCmd ==>
                calendar.Painted(today) && calendar.ShowsDay(old(calendar.assignments.byDate), today)
      ensures cmd.NavigateDays? && e != Crash(DateOverflow) ==>
                calendar.Painted(today) && calendar.ShowsDay(old(calendar.assignments.byDate), calendar.selectedDate)
      ensures cmd.NavigateDays? && e == Crash(DateOverflow) ==>
                unchanged(calendar, old(calendar.appointments), old(calendar.assignments))
    {
      var o: Outcome;
      match cmd {
        case GoToTodayCmd =>
          o := calendar.GoToToday(today, now);
        case NavigateDays(n) =>
          o := calendar.NavigateDay(n, today);
        case NextMonthCmd =>
          o := calendar.NextMonth(today);
        case PrevMonthCmd =>
          o := calendar.PrevMonth(today);
      }
      e := if o.Raised? then Crash(o.error) else Continue;
    }
  }
}
