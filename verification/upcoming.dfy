/** `checkUpcomingTasksJob` (functions/src/index.ts:800-923): every five
    minutes, remind assignees one hour before an appointment or habit
    occurrence, and remind assignees and alert caretakers when it falls due,
    recording each reminder so that it is sent once. */
module Upcoming {
  import opened Wrappers
  import Text
  import opened Clock
  import opened Windows
  import opened Model
  import opened Ledger

  /** The appointments query: pending appointments due within the next hour
      (functions/src/index.ts:812-817). */
  predicate AppointmentSelected(t: Task, now: int) {
    && t.taskType == Appointment && t.status == Pending && t.dueAt.Some?
    && now <= t.dueAt.value < now + 60 * MINUTE_MS
  }

  /** A task the passes can address: it has assignees and a group id. */
  predicate Addressable(t: Task) {
    |t.assignedTo| > 0 && t.groupId != ""
  }

  /** One appointment of the upcoming pass: the window chosen for it, its
      notices, and the task with that window's flag set
      (functions/src/index.ts:819-857). */
  function AppointmentStep(t: Task, now: int): (r: Step)
    ensures r.intents != [] ==> AppointmentSelected(t, now) && Addressable(t)
    ensures forall x :: x in r.intents ==>
      && x.occurrence == None && x.kind != MissedCaretakerAlert
      && InWindow(WindowOf(x.kind), t.dueAt.value, now)
      && !TaskHasFired(t, None, WindowOf(x.kind)) && TaskHasFired(r.task, None, WindowOf(x.kind))
      && x.taskId == t.id && x.groupId == t.groupId && x.assignees == t.assignedTo
    ensures r.intents == [] ==> r.task == t
    ensures r.task == t.(notified1Hour := r.task.notified1Hour, notifiedDue := r.task.notifiedDue,
                         fields := r.task.fields)
    ensures forall w :: TaskHasFired(t, None, w) ==> TaskHasFired(r.task, None, w)
    ensures AppointmentSelected(t, now) && Addressable(t) && !t.notified1Hour && InWindow(OneHour, t.dueAt.value, now) ==>
      && r.intents == NoticesFor(t, None, OneHour) && r.task.notified1Hour && r.task.notifiedDue == t.notifiedDue
      && r.task.fields == t.fields + {"notified1Hour"}
    ensures AppointmentSelected(t, now) && Addressable(t) && !t.notifiedDue && InWindow(DueNow, t.dueAt.value, now) ==>
      && r.intents == NoticesFor(t, None, DueNow) && r.task.notifiedDue && r.task.notified1Hour == t.notified1Hour
      && r.task.fields == t.fields + {"notifiedDue"}
  {
    if !AppointmentSelected(t, now) || !Addressable(t) then Step([], t)
    else
      match UpcomingChoice(t.dueAt.value, now, t.notified1Hour, t.notifiedDue)
      case Some(OneHour) =>
        Step(NoticesFor(t, None, OneHour),
             t.(notified1Hour := true, fields := t.fields + {"notified1Hour"}))
      case Some(DueNow) =>
        Step(NoticesFor(t, None, DueNow),
             t.(notifiedDue := true, fields := t.fields + {"notifiedDue"}))
      case _ => Step([], t)
  }

  /** The upcoming window chosen for one habit occurrence: none once it is
      completed or already past, else the first unrecorded window it lies in
      (functions/src/index.ts:885-906). */
  function OccurrenceChoice(o: Occurrence, h: History, now: int): (r: Option<Window>)
    ensures r.Some? ==> !IsCompleted(h, o.key) && now <= o.due
    ensures r.Some? ==> r.value != Missed && InWindow(r.value, o.due, now) && !HasFired(h, o.key, r.value)
    ensures r == Some(OneHour) <==>
      !IsCompleted(h, o.key) && !HasFired(h, o.key, OneHour) && InWindow(OneHour, o.due, now)
    ensures r == Some(DueNow) <==>
      !IsCompleted(h, o.key) && !HasFired(h, o.key, DueNow) && InWindow(DueNow, o.due, now)
  {
    if o.due < now || IsCompleted(h, o.key) then None
    else UpcomingChoice(o.due, now, HasFired(h, o.key, OneHour), HasFired(h, o.key, DueNow))
  }

  /** The firings of a habit's occurrences, in schedule order. Every decision
      reads the history as it was before the loop, as the source does with
      its `completionHistory` snapshot. */
  function OccurrenceFirings(os: seq<Occurrence>, h: History, now: int): (fs: seq<Firing>)
    ensures forall f :: f in fs ==> f.window in {OneHour, DueNow}
    ensures forall f :: f in fs ==>
      exists o :: o in os && o.key == f.key && OccurrenceChoice(o, h, now) == Some(f.window)
    ensures forall o :: o in os && OccurrenceChoice(o, h, now).Some? ==>
      Firing(o.key, OccurrenceChoice(o, h, now).value) in fs
    ensures fs == [] <==> forall o :: o in os ==> OccurrenceChoice(o, h, now).None?
    decreases |os|
  {
    if |os| == 0 then []
    else
      var rest := OccurrenceFirings(os[1..], h, now);
      assert forall o :: o in os <==> o == os[0] || o in os[1..];
      match OccurrenceChoice(os[0], h, now)
      case Some(w) => [Firing(os[0].key, w)] + rest
      case None => rest
  }

  /** The active-habits query (functions/src/index.ts:864-867). */
  predicate HabitSelected(t: Task) {
    t.taskType == HabitSchedule && t.status == Active
  }

  /** Notice `x` of a habit pass over `t` on `day` at `now`, which left the
      history `h2`, is justified: it is for an occurrence of the day that is
      not completed, lies ahead in the notice's window and had not been
      notified for it, and the history now records it as notified. */
  predicate HabitNoticeJustified(t: Task, h2: History, now: int, day: Day, x: Intent) {
    && x.occurrence.Some? && x.kind != MissedCaretakerAlert
    && !IsCompleted(t.history, x.occurrence.value)
    && !HasFired(t.history, x.occurrence.value, WindowOf(x.kind))
    && HasFired(h2, x.occurrence.value, WindowOf(x.kind))
    && (exists o :: o in Expand(TodayItems(t, day), day) && o.key == x.occurrence.value
                    && now <= o.due && InWindow(WindowOf(x.kind), o.due, now))
    && x.taskId == t.id && x.groupId == t.groupId && x.assignees == t.assignedTo
  }

  /** A firing of a habit's occurrences is for an occurrence of the day that
      is not completed, lies ahead in the firing's upcoming window, and had
      not been notified for it. */
  lemma FiringJustified(t: Task, now: int, day: Day, f: Firing)
    requires f in OccurrenceFirings(Expand(TodayItems(t, day), day), t.history, now)
    ensures f.window != Missed && !IsCompleted(t.history, f.key) && !HasFired(t.history, f.key, f.window)
    ensures exists o :: (o in Expand(TodayItems(t, day), day) && o.key == f.key
                         && now <= o.due && InWindow(f.window, o.due, now))
  {
    var os := Expand(TodayItems(t, day), day);
    var o :| o in os && o.key == f.key && OccurrenceChoice(o, t.history, now) == Some(f.window);
  }

  /** Every notice of a habit's firings is justified. */
  lemma HabitNoticesSound(t: Task, now: int, day: Day, fs: seq<Firing>)
    requires fs == OccurrenceFirings(Expand(TodayItems(t, day), day), t.history, now)
    ensures forall x :: x in FiringNotices(t, fs) ==>
      HabitNoticeJustified(t, RecordFirings(t.history, fs, {OneHour, DueNow}), now, day, x)
  {
    var h2 := RecordFirings(t.history, fs, {OneHour, DueNow});
    forall x | x in FiringNotices(t, fs)
      ensures HabitNoticeJustified(t, h2, now, day, x)
    {
      var f := Firing(x.occurrence.value, WindowOf(x.kind));
      assert f in fs;
      assert HasFired(h2, f.key, f.window);
      NoticeJustified(t, h2, now, day, x);
    }
  }

  /** A notice for a firing of the pass, once the firing is recorded in
      `h2`, is justified. */
  lemma NoticeJustified(t: Task, h2: History, now: int, day: Day, x: Intent)
    requires x.occurrence.Some?
    requires x.taskId == t.id && x.groupId == t.groupId && x.assignees == t.assignedTo
    requires Firing(x.occurrence.value, WindowOf(x.kind))
      in OccurrenceFirings(Expand(TodayItems(t, day), day), t.history, now)
    requires HasFired(h2, x.occurrence.value, WindowOf(x.kind))
    ensures HabitNoticeJustified(t, h2, now, day, x)
  {
    FiringJustified(t, now, day, Firing(x.occurrence.value, WindowOf(x.kind)));
  }

  /** Every occurrence of the day that has an upcoming window to fire in
      history `h` gets all of that window's notices among `xs`. */
  predicate HabitNoticesComplete(t: Task, h: History, now: int, day: Day, xs: seq<Intent>) {
    forall o, y ::
      (o in Expand(TodayItems(t, day), day) && OccurrenceChoice(o, h, now).Some? &&
       y in NoticesFor(t, Some(o.key), OccurrenceChoice(o, h, now).value)) ==> y in xs
  }

  /** The notices of a habit's firings cover every occurrence that has a
      window to fire. */
  lemma FiringsNoticed(t: Task, now: int, day: Day, fs: seq<Firing>)
    requires fs == OccurrenceFirings(Expand(TodayItems(t, day), day), t.history, now)
    ensures HabitNoticesComplete(t, t.history, now, day, FiringNotices(t, fs))
  {
  }

  /** One habit of the upcoming pass: the notices for its occurrences today,
      and the habit with the matching history flags set
      (functions/src/index.ts:869-924). */
  function HabitStep(t: Task, now: int, day: Day): (r: Step)
    ensures r.intents != [] ==> HabitSelected(t) && Addressable(t)
    ensures forall x :: x in r.intents ==> HabitNoticeJustified(t, r.task.history, now, day, x)
    ensures r.intents == [] ==> r.task == t
    ensures r.task == t.(history := r.task.history, fields := r.task.fields)
    ensures RaisesOnly(t.history, r.task.history, {OneHour, DueNow})
    ensures r.intents != [] ==> r.task.fields == t.fields + {"completionHistory"}
    ensures HabitSelected(t) && Addressable(t) ==> HabitNoticesComplete(t, t.history, now, day, r.intents)
    ensures FlagsTraced(t.history, r.task.history, r.intents)
  {
    var items := TodayItems(t, day);
    if !HabitSelected(t) || |items| == 0 || !Addressable(t) then Step([], t)
    else
      var fs := OccurrenceFirings(Expand(items, day), t.history, now);
      if |fs| == 0 then Step([], t)
      else
        HabitNoticesSound(t, now, day, fs);
        FiringsNoticed(t, now, day, fs);
        WrittenFlagsAreNoticed(t, t.history, fs, {OneHour, DueNow});
        Step(FiringNotices(t, fs),
             t.(history := RecordFirings(t.history, fs, {OneHour, DueNow}), fields := t.fields + {"completionHistory"}))
  }

  /** One habit of the upcoming pass with its flag writes as the document
      store applies the source's dotted update paths: the same notices, but
      a flag whose key has a '.' in it lands in a nested map. */
  function HabitStepAsWritten(t: Task, now: int, day: Day): (r: Step)
    ensures r.task == t.(history := r.task.history, fields := r.task.fields)
    ensures forall k :: '.' in k ==>
      (k in r.task.history <==> k in t.history) && (k in t.history ==> r.task.history[k] == t.history[k])
    ensures HabitSelected(t) && Addressable(t) ==> HabitNoticesComplete(t, t.history, now, day, r.intents)
  {
    var items := TodayItems(t, day);
    if !HabitSelected(t) || |items| == 0 || !Addressable(t) then Step([], t)
    else
      var fs := OccurrenceFirings(Expand(items, day), t.history, now);
      if |fs| == 0 then Step([], t)
      else
        FiringsNoticed(t, now, day, fs);
        Step(FiringNotices(t, fs),
             t.(history := RecordFiringsAsWritten(t.history, fs), fields := t.fields + {"completionHistory"}))
  }

  /** As written, an occurrence whose key has a '.' in it (an entry titled
      "Vitamin D 2.5mg", say) never has a readable flag, so a second run at
      the same instant sends all its notices again; compare
      `HabitStepNoRepeat`, which holds of the whole-key write. */
  lemma DottedEntryIsResent(t: Task, now: int, day: Day, o: Occurrence)
    requires HabitSelected(t) && Addressable(t)
    requires o in Expand(TodayItems(t, day), day) && '.' in o.key
    requires OccurrenceChoice(o, t.history, now).Some?
    ensures var once := HabitStepAsWritten(t, now, day);
      forall y :: y in NoticesFor(t, Some(o.key), OccurrenceChoice(o, t.history, now).value) ==>
        y in once.intents && y in HabitStepAsWritten(once.task, now, day).intents
  {
    var t1 := HabitStepAsWritten(t, now, day).task;
    FlagKeyDot(o.key, OneHour);
    FlagKeyDot(o.key, DueNow);
    assert OccurrenceChoice(o, t1.history, now) == OccurrenceChoice(o, t.history, now);
    assert TodayItems(t1, day) == TodayItems(t, day);
  }

  /** The whole upcoming pass at instant `now` on calendar day `day`: the
      appointments loop, then the habits loop over the updated corpus. */
  function Pass(tasks: seq<Task>, now: int, day: Day): PassResult {
    RunTwo(tasks, t => AppointmentStep(t, now), t => HabitStep(t, now, day))
  }

  /** Idempotence for an appointment: after a pass has run, running it again
      at the same instant on the updated task sends nothing. */
  lemma AppointmentStepIdempotent(t: Task, now: int)
    ensures AppointmentStep(AppointmentStep(t, now).task, now).intents == []
  {
  }

  /** A completed occurrence key never looks like a one-hour or due flag key;
      true of every history whose keys are built as occurrence keys from
      titles that do not end in a flag suffix. */
  ghost predicate NoFlagLookalikes(h: History) {
    forall k :: IsCompleted(h, k) ==>
      !Text.EndsWith(k, FlagSuffix(OneHour)) && !Text.EndsWith(k, FlagSuffix(DueNow))
  }

  /** Per (occurrence, window): no notice of a second run at the same instant
      repeats a notice of the first, whatever the history holds. */
  lemma HabitStepNoRepeat(t: Task, now: int, day: Day, x: Intent, y: Intent)
    requires x in HabitStep(t, now, day).intents
    requires y in HabitStep(HabitStep(t, now, day).task, now, day).intents
    ensures (x.occurrence, WindowOf(x.kind)) != (y.occurrence, WindowOf(y.kind))
  {
  }

  /** Idempotence for a habit: after a pass has run, running it again at the
      same instant on the updated habit sends nothing, provided no completed
      key looks like a flag key. */
  lemma HabitStepIdempotent(t: Task, now: int, day: Day)
    requires NoFlagLookalikes(t.history)
    ensures HabitStep(HabitStep(t, now, day).task, now, day).intents == []
  {
    var t' := HabitStep(t, now, day).task;
    var items := TodayItems(t, day);
    assert TodayItems(t', day) == items;
    if HabitSelected(t) && |items| > 0 && Addressable(t) {
      var os := Expand(items, day);
      var h := t.history;
      var fs := OccurrenceFirings(os, h, now);
      HabitStepWrites(t, now, day);
      DaySettled(os, h, now);
      HabitStepQuiet(t', now, day);
    }
  }

  /** The history a habit step leaves is its firings recorded. */
  lemma HabitStepWrites(t: Task, now: int, day: Day)
    requires HabitSelected(t) && Addressable(t)
    ensures HabitStep(t, now, day).task.history ==
      RecordFirings(t.history, OccurrenceFirings(Expand(TodayItems(t, day), day), t.history, now), {OneHour, DueNow})
  {
  }

  /** Once the firings of a day's occurrences are recorded, none of them has
      a window left to fire at the same instant. */
  lemma DaySettled(os: seq<Occurrence>, h: History, now: int)
    requires NoFlagLookalikes(h)
    ensures var h' := RecordFirings(h, OccurrenceFirings(os, h, now), {OneHour, DueNow});
      forall o :: o in os ==> OccurrenceChoice(o, h', now).None?
  {
    var fs := OccurrenceFirings(os, h, now);
    forall o | o in os
      ensures OccurrenceChoice(o, RecordFirings(h, fs, {OneHour, DueNow}), now).None?
    {
      OccurrenceSettled(o, h, fs, now);
    }
  }

  /** A habit none of whose occurrences today has a window to fire gets no
      notice. */
  lemma HabitStepQuiet(t: Task, now: int, day: Day)
    requires forall o :: o in Expand(TodayItems(t, day), day) ==> OccurrenceChoice(o, t.history, now).None?
    ensures HabitStep(t, now, day).intents == []
  {
  }

  /** After the firings of a pass are recorded, an occurrence has no window
      left to fire at the same instant. */
  lemma OccurrenceSettled(o: Occurrence, h: History, fs: seq<Firing>, now: int)
    requires NoFlagLookalikes(h)
    requires forall f :: f in fs ==> f.window in {OneHour, DueNow}
    requires OccurrenceChoice(o, h, now).Some? ==> Firing(o.key, OccurrenceChoice(o, h, now).value) in fs
    ensures OccurrenceChoice(o, RecordFirings(h, fs, {OneHour, DueNow}), now).None?
  {
    var ws := {OneHour, DueNow};
    var h' := RecordFirings(h, fs, ws);
    if IsCompleted(h, o.key) {
      RaisesKeepsCompletion(h, h', ws, o.key);
    } else if o.due >= now {
      if IsCompleted(h', o.key) {
        RaisesNeverCompletes(h, h', ws, o.key);
      }
      if HasFired(h, o.key, OneHour) {
        RaisesKeepsFlags(h, h', ws, o.key, OneHour);
      }
      if HasFired(h, o.key, DueNow) {
        RaisesKeepsFlags(h, h', ws, o.key, DueNow);
      }
      var c := OccurrenceChoice(o, h, now);
      if c.Some? {
        assert HasFired(h', o.key, c.value);
      }
    }
  }

  /** Completion short-circuit: a completed task, or a completed habit
      occurrence, gets no upcoming notice. */
  lemma CompletedIsSilent(t: Task, now: int, day: Day, key: string)
    ensures t.status == Completed ==> AppointmentStep(t, now).intents == [] && HabitStep(t, now, day).intents == []
    ensures IsCompleted(t.history, key) ==>
      forall x :: x in HabitStep(t, now, day).intents ==> x.occurrence != Some(key)
  {
  }

  /** Idempotence of the whole pass: running it twice at the same instant,
      the second run sends nothing, provided no habit's completed keys look
      like flag keys. */
  lemma PassIdempotent(tasks: seq<Task>, now: int, day: Day)
    requires forall i :: 0 <= i < |tasks| ==> NoFlagLookalikes(tasks[i].history)
    ensures Pass(Pass(tasks, now, day).tasks, now, day).intents == []
  {
    forall i | 0 <= i < |tasks|
      ensures var once := HabitStep(AppointmentStep(tasks[i], now).task, now, day).task;
        AppointmentStep(once, now).intents == [] && HabitStep(AppointmentStep(once, now).task, now, day).intents == []
    {
      TaskSettled(tasks[i], now, day);
    }
    RunTwoTwice(tasks, t => AppointmentStep(t, now), t => HabitStep(t, now, day));
  }

  /** One task after one pass has nothing left to send at the same instant. */
  lemma TaskSettled(t: Task, now: int, day: Day)
    requires NoFlagLookalikes(t.history)
    ensures var t1 := HabitStep(AppointmentStep(t, now).task, now, day).task;
      && AppointmentStep(t1, now).intents == []
      && HabitStep(AppointmentStep(t1, now).task, now, day).intents == []
  {
    var a := AppointmentStep(t, now).task;
    var t1 := HabitStep(a, now, day).task;
    if t.taskType == Appointment {
      assert t1 == a;
      AppointmentStepIdempotent(t, now);
    } else {
      assert a == t;
      assert AppointmentStep(t1, now).task == t1;
      HabitStepIdempotent(t, now, day);
    }
  }
}
