/** The Time Window Evaluator: the three windows, relative to the instant
    `now` a pass runs at, that an occurrence's due instant can fall into
    (functions/src/index.ts:580-581 and :801-803). */
module Windows {
  import opened Wrappers
  import opened Clock

  /** `one_hour`, `due` and `missed`. */
  datatype Window = OneHour | DueNow | Missed

  /** Where a window starts, in minutes relative to `now`. */
  function StartMinute(w: Window): int {
    match w
    case OneHour => 55
    case DueNow => 0
    case Missed => -30
  }

  /** Where a window ends (exclusive), in minutes relative to `now`. */
  function EndMinute(w: Window): int {
    match w
    case OneHour => 60
    case DueNow => 5
    case Missed => -15
  }

  /** The schedule period, in minutes, of the pass that evaluates a window:
      every 5 minutes for the upcoming pass, every 15 for the missed pass
      (functions/src/index.ts:574, :796). */
  function CadenceMinutes(w: Window): int {
    match w
    case OneHour => 5
    case DueNow => 5
    case Missed => 15
  }

  /** `due` lies in window `w` of a pass run at `now`. */
  predicate InWindow(w: Window, due: int, now: int) {
    now + StartMinute(w) * MINUTE_MS <= due < now + EndMinute(w) * MINUTE_MS
  }

  /** The windows `due` lies in. */
  function WindowsAt(due: int, now: int): (r: set<Window>)
    ensures forall w :: w in r <==> InWindow(w, due, now)
  {
    set w: Window | w in {OneHour, DueNow, Missed} && InWindow(w, due, now)
  }

  /** The windows never overlap: an occurrence is in at most one of them. */
  lemma WindowsExclusive(due: int, now: int)
    ensures |WindowsAt(due, now)| <= 1
  {
    var r := WindowsAt(due, now);
    if OneHour in r {
      assert r == {OneHour};
    } else if DueNow in r {
      assert r == {DueNow};
    } else if Missed in r {
      assert r == {Missed};
    } else {
      assert r == {};
    }
  }

  /** The upcoming pass's choice for one occurrence: the one-hour reminder
      when it is not yet recorded and `due` is 55 to 60 minutes ahead,
      otherwise the due-now reminder when that is not yet recorded and `due`
      is less than 5 minutes ahead (the `if / else if` of
      functions/src/index.ts:832-856 and :899-923). Because the windows are
      disjoint, each choice is made exactly under its own condition. */
  function UpcomingChoice(due: int, now: int, firedOneHour: bool, firedDue: bool): (r: Option<Window>)
    ensures r == Some(OneHour) <==> !firedOneHour && InWindow(OneHour, due, now)
    ensures r == Some(DueNow) <==> !firedDue && InWindow(DueNow, due, now)
    ensures r != Some(Missed)
  {
    if !firedOneHour && InWindow(OneHour, due, now) then Some(OneHour)
    else if !firedDue && InWindow(DueNow, due, now) then Some(DueNow)
    else None
  }

  /** The instant of the `k`-th run after `origin` of the pass that
      evaluates `w`. */
  function TickAt(w: Window, origin: int, k: int): int {
    origin + k * CadenceMinutes(w) * MINUTE_MS
  }

  /** The index of the run whose window `w` contains `due`. */
  function TickFor(w: Window, due: int, origin: int): int {
    (due - origin - StartMinute(w) * MINUTE_MS) / (CadenceMinutes(w) * MINUTE_MS)
  }

  /** Each window is exactly as wide as its pass's period, so when the pass
      runs on schedule every due instant falls into the window of exactly one
      run. An appointment is therefore seen once; a habit entry is seen only
      if that run also falls on the entry's own day, which `DayBoundaryGap`
      shows fails near midnight. */
  lemma EveryDueInstantSeenOnce(w: Window, due: int, origin: int, k: int)
    ensures InWindow(w, due, TickAt(w, origin, TickFor(w, due, origin)))
    ensures InWindow(w, due, TickAt(w, origin, k)) ==> k == TickFor(w, due, origin)
  {
  }

  /** A habit pass expands only the schedule of the day its run falls on, so
      an entry at `minuteOfDay` of `day` can only be seen by a run on `day`.
      Such a run sees it in the one-hour window exactly when it is due at
      00:55 or later, and in the missed window exactly when it is due before
      23:45: an entry due earlier than 00:55 never gets its one-hour
      reminder, and one due at 23:45 or later (23:30 or later when the runs
      fall on the quarter hours) is never reported missed. */
  lemma DayBoundaryGap(day: Day, now: int, minuteOfDay: int)
    requires day.start <= now < day.start + DAY_MS
    requires 0 <= minuteOfDay < MINUTES_PER_DAY
    ensures InWindow(OneHour, DueInstant(day, minuteOfDay), now) ==> minuteOfDay >= 55
    ensures InWindow(Missed, DueInstant(day, minuteOfDay), now) ==> minuteOfDay < MINUTES_PER_DAY - 15
    ensures minuteOfDay >= 55 ==>
      var run := DueInstant(day, minuteOfDay) - 55 * MINUTE_MS;
      day.start <= run && InWindow(OneHour, DueInstant(day, minuteOfDay), run)
    ensures minuteOfDay < MINUTES_PER_DAY - 15 ==>
      var run := DueInstant(day, minuteOfDay) + 15 * MINUTE_MS + 1;
      run < day.start + DAY_MS && InWindow(Missed, DueInstant(day, minuteOfDay), run)
  {
  }
}
