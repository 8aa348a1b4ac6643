/** How the scheduled passes' own writes look to the document triggers that
    watch the same task documents: `onTaskCompleted` and `onTaskEdited` run
    on every update, including the flag updates of the reminder passes
    (functions/src/index.ts:121-158, :454-514, :616, :670, :836-912). */
module Interplay {
  import opened Wrappers
  import opened Clock
  import opened Windows
  import opened Model
  import opened Ledger
  import Upcoming
  import Missed
  import opened Reactive

  /** A write that keeps status and type and only raises flags is never
      taken for a completion. */
  lemma FlagWritesAreNotCompletions(before: Task, after: Task, ws: set<Window>, keys: seq<string>)
    requires after.status == before.status && after.taskType == before.taskType
    requires RaisesOnly(before.history, after.history, ws)
    ensures DetectCompletion(before, after, keys).None?
  {
  }


  /** None of the four scheduler writes (appointment and habit, upcoming and
      missed) triggers a completion notice. */
  lemma SchedulerWritesAreNotCompletions(t: Task, now: int, day: Day, keys: seq<string>)
    ensures DetectCompletion(t, Upcoming.AppointmentStep(t, now).task, keys).None?
    ensures DetectCompletion(t, Upcoming.HabitStep(t, now, day).task, keys).None?
    ensures DetectCompletion(t, Missed.AppointmentStep(t, now).task, keys).None?
    ensures DetectCompletion(t, Missed.HabitStep(t, now, day).task, keys).None?
  {
    var ws := {OneHour, DueNow, Missed};
    assert RaisesOnly(t.history, t.history, ws);
    FlagWritesAreNotCompletions(t, Upcoming.AppointmentStep(t, now).task, ws, keys);
    FlagWritesAreNotCompletions(t, Upcoming.HabitStep(t, now, day).task, {OneHour, DueNow}, keys);
    FlagWritesAreNotCompletions(t, Missed.AppointmentStep(t, now).task, ws, keys);
    FlagWritesAreNotCompletions(t, Missed.HabitStep(t, now, day).task, {Missed}, keys);
  }

  /** With the date compared as intended, none of the scheduler writes is
      taken for an edit: they change no field the editor can change. */
  lemma SchedulerWritesAreNotIntendedEdits(t: Task, now: int, day: Day)
    ensures EditRecipientsIntended(t, Upcoming.AppointmentStep(t, now).task).None?
    ensures EditRecipientsIntended(t, Upcoming.HabitStep(t, now, day).task).None?
    ensures EditRecipientsIntended(t, Missed.AppointmentStep(t, now).task).None?
    ensures EditRecipientsIntended(t, Missed.HabitStep(t, now, day).task).None?
  {
  }

  /** A write that changes only the history and, in doing so, adds the
      `completionHistory` field to an undated task is taken for an edit as
      written. */
  lemma FirstHistoryWriteLooksLikeEdit(before: Task, after: Task)
    requires after == before.(history := after.history, fields := before.fields + {"completionHistory"})
    requires after.history != before.history
    requires before.dueAt.None? && "completionHistory" !in before.fields
    requires |before.assignedTo| > 0 && before.taskType != Countdown
    ensures EditRecipients(before, after) == Some(before.assignedTo)
  {
  }


  /** As written, the upcoming pass's first reminder for a habit that has no
      date and no `completionHistory` field yet is taken for an edit: the
      flag write adds a top-level field, so the history change is not
      dismissed as a completion, and the missing date counts as a change. The
      assignees get a "task edited" notice alongside the reminder. */
  lemma FirstHabitReminderLooksLikeEdit(t: Task, now: int, day: Day)
    requires Upcoming.HabitStep(t, now, day).intents != []
    requires t.dueAt.None? && "completionHistory" !in t.fields
    ensures EditRecipients(t, Upcoming.HabitStep(t, now, day).task) == Some(t.assignedTo)
  {
    var s := Upcoming.HabitStep(t, now, day);
    var x := s.intents[0];
    assert x in s.intents;
    assert Upcoming.HabitNoticeJustified(t, s.task.history, now, day, x);
    FirstHistoryWriteLooksLikeEdit(t, s.task);
  }

  /** The same holds for the missed pass's first alert on such a habit. */
  lemma FirstMissedAlertLooksLikeEdit(t: Task, now: int, day: Day)
    requires Missed.HabitStep(t, now, day).intents != []
    requires t.dueAt.None? && "completionHistory" !in t.fields
    ensures EditRecipients(t, Missed.HabitStep(t, now, day).task) == Some(t.assignedTo)
  {
    var s := Missed.HabitStep(t, now, day);
    var x := s.intents[0];
    assert x in s.intents;
    assert Missed.MissedNoticeJustified(t, s.task.history, now, day, x);
    FirstHistoryWriteLooksLikeEdit(t, s.task);
  }

  /** Once a habit has a `completionHistory` field, the upcoming pass's flag
      writes add no field and the written edit check dismisses them. */
  lemma LaterHabitRemindersAreNotEdits(t: Task, now: int, day: Day)
    requires "completionHistory" in t.fields && Upcoming.HabitStep(t, now, day).intents != []
    ensures EditRecipients(t, Upcoming.HabitStep(t, now, day).task).None?
  {
    var u := Upcoming.HabitStep(t, now, day);
    var x := u.intents[0];
    assert x in u.intents;
    assert Upcoming.HabitNoticeJustified(t, u.task.history, now, day, x);
    HistoryWriteKeepingFieldsIsNoEdit(t, u.task);
  }

  /** The same for the missed pass's flag writes. */
  lemma LaterMissedAlertsAreNotEdits(t: Task, now: int, day: Day)
    requires "completionHistory" in t.fields && Missed.HabitStep(t, now, day).intents != []
    ensures EditRecipients(t, Missed.HabitStep(t, now, day).task).None?
  {
    var m := Missed.HabitStep(t, now, day);
    var x := m.intents[0];
    assert x in m.intents;
    assert Missed.MissedNoticeJustified(t, m.task.history, now, day, x);
    HistoryWriteKeepingFieldsIsNoEdit(t, m.task);
  }

  /** Appointment flag writes are never taken for edits: an appointment the
      passes act on has a date, and the write changes no editable field. */
  lemma AppointmentFlagWritesAreNotEdits(t: Task, now: int)
    ensures Upcoming.AppointmentStep(t, now).intents != [] ==>
      EditRecipients(t, Upcoming.AppointmentStep(t, now).task).None?
    ensures Missed.AppointmentStep(t, now).intents != [] ==>
      EditRecipients(t, Missed.AppointmentStep(t, now).task).None?
  {
  }

  /** A write that changes the history and adds no new top-level field is
      dismissed by the written edit check. */
  lemma HistoryWriteKeepingFieldsIsNoEdit(before: Task, after: Task)
    requires after.history != before.history
    requires after.fields == before.fields + {"completionHistory"} && "completionHistory" in before.fields
    ensures EditRecipients(before, after).None?
  {
    assert after.fields == before.fields;
  }
}
