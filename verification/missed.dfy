/** `checkMissedTasksJob` (functions/src/index.ts:571-679): every fifteen
    minutes, alert caretakers about appointments and habit occurrences that
    fell due 15 to 30 minutes ago and were neither completed nor already
    reported missed, recording each alert so that it is sent once. */
module Missed {
  import opened Wrappers
  import Text
  import opened Clock
  import opened Windows
  import opened Model
  import opened Ledger
  import Upcoming

  /** The missed-appointments query: pending appointments due in the missed
      window and not yet reported (functions/src/index.ts:588-595). */
  predicate AppointmentSelected(t: Task, now: int) {
    && t.taskType == Appointment && t.status == Pending && t.dueAt.Some?
    && InWindow(Missed, t.dueAt.value, now) && !t.notifiedMissed
  }

  /** One appointment of the missed pass (functions/src/index.ts:597-616). */
  function AppointmentStep(t: Task, now: int): (r: Step)
    ensures r.intents != [] <==> AppointmentSelected(t, now) && Upcoming.Addressable(t)
    ensures forall x :: x in r.intents ==>
      && x.kind == MissedCaretakerAlert && x.occurrence == None
      && x.taskId == t.id && x.groupId == t.groupId && x.assignees == t.assignedTo
    ensures r.intents != [] ==> r.task.notifiedMissed && r.task.fields == t.fields + {"notifiedMissed"}
    ensures r.intents == [] ==> r.task == t
    ensures r.task == t.(notifiedMissed := r.task.notifiedMissed, fields := r.task.fields)
  {
    if AppointmentSelected(t, now) && Upcoming.Addressable(t) then
      Step(NoticesFor(t, None, Missed), t.(notifiedMissed := true, fields := t.fields + {"notifiedMissed"}))
    else Step([], t)
  }

  /** A habit occurrence the missed pass reports: due in the missed window,
      not completed, not yet reported (functions/src/index.ts:650-657). The
      pass does not look at the one-hour and due flags. */
  predicate OccurrenceMissed(o: Occurrence, h: History, now: int) {
    InWindow(Missed, o.due, now) && !IsCompleted(h, o.key) && !HasFired(h, o.key, Missed)
  }

  /** The missed firings of a habit's occurrences, in schedule order, all
      decided on the history read before the loop. */
  function MissedFirings(os: seq<Occurrence>, h: History, now: int): (fs: seq<Firing>)
    ensures forall f :: f in fs ==> f.window == Missed
    ensures forall f :: f in fs ==> exists o :: o in os && o.key == f.key && OccurrenceMissed(o, h, now)
    ensures forall o :: o in os && OccurrenceMissed(o, h, now) ==> Firing(o.key, Missed) in fs
    ensures fs == [] <==> forall o :: o in os ==> !OccurrenceMissed(o, h, now)
    decreases |os|
  {
    if |os| == 0 then []
    else
      var rest := MissedFirings(os[1..], h, now);
      assert forall o :: o in os <==> o == os[0] || o in os[1..];
      if OccurrenceMissed(os[0], h, now) then [Firing(os[0].key, Missed)] + rest else rest
  }

  /** Notice `x` of a missed pass over `t`, which left history `h2`, is a
      caretaker alert for an occurrence of the day that was missed and is
      now recorded as reported. */
  predicate MissedNoticeJustified(t: Task, h2: History, now: int, day: Day, x: Intent) {
    && x.kind == MissedCaretakerAlert && x.occurrence.Some?
    && !IsCompleted(t.history, x.occurrence.value)
    && !HasFired(t.history, x.occurrence.value, Missed)
    && HasFired(h2, x.occurrence.value, Missed)
    && (exists o :: o in Expand(TodayItems(t, day), day) && o.key == x.occurrence.value
                    && InWindow(Missed, o.due, now))
    && x.taskId == t.id && x.groupId == t.groupId && x.assignees == t.assignedTo
  }

  /** A missed firing is for an occurrence of the day that was missed. */
  lemma MissedFiringJustified(t: Task, now: int, day: Day, f: Firing)
    requires f in MissedFirings(Expand(TodayItems(t, day), day), t.history, now)
    ensures f.window == Missed && !IsCompleted(t.history, f.key) && !HasFired(t.history, f.key, Missed)
    ensures exists o :: o in Expand(TodayItems(t, day), day) && o.key == f.key && InWindow(Missed, o.due, now)
  {
    var os := Expand(TodayItems(t, day), day);
    var o :| o in os && o.key == f.key && OccurrenceMissed(o, t.history, now);
  }

  /** Every notice of a habit's missed firings is justified. */
  lemma MissedNoticesSound(t: Task, now: int, day: Day, fs: seq<Firing>)
    requires fs == MissedFirings(Expand(TodayItems(t, day), day), t.history, now)
    ensures forall x :: x in FiringNotices(t, fs) ==>
      MissedNoticeJustified(t, RecordFirings(t.history, fs, {Missed}), now, day, x)
  {
    var h2 := RecordFirings(t.history, fs, {Missed});
    forall x | x in FiringNotices(t, fs)
      ensures MissedNoticeJustified(t, h2, now, day, x)
    {
      var f := Firing(x.occurrence.value, WindowOf(x.kind));
      assert f in fs;
      assert HasFired(h2, f.key, f.window);
      MissedNoticeJustifiedBy(t, h2, now, day, x);
    }
  }

  /** A notice for a missed firing of the pass, once the firing is recorded
      in `h2`, is justified. */
  lemma MissedNoticeJustifiedBy(t: Task, h2: History, now: int, day: Day, x: Intent)
    requires x.occurrence.Some?
    requires x.taskId == t.id && x.groupId == t.groupId && x.assignees == t.assignedTo
    requires Firing(x.occurrence.value, WindowOf(x.kind))
      in MissedFirings(Expand(TodayItems(t, day), day), t.history, now)
    requires HasFired(h2, x.occurrence.value, WindowOf(x.kind))
    ensures MissedNoticeJustified(t, h2, now, day, x)
  {
    MissedFiringJustified(t, now, day, Firing(x.occurrence.value, WindowOf(x.kind)));
  }

  /** Every occurrence of the day missed in history `h` gets its caretaker
      alert among `xs`. */
  predicate MissedNoticesComplete(t: Task, h: History, now: int, day: Day, xs: seq<Intent>) {
    forall o, y ::
      (o in Expand(TodayItems(t, day), day) && OccurrenceMissed(o, h, now) &&
       y in NoticesFor(t, Some(o.key), Missed)) ==> y in xs
  }

  /** The notices of a habit's missed firings cover every missed
      occurrence. */
  lemma MissedFiringsNoticed(t: Task, now: int, day: Day, fs: seq<Firing>)
    requires fs == MissedFirings(Expand(TodayItems(t, day), day), t.history, now)
    ensures MissedNoticesComplete(t, t.history, now, day, FiringNotices(t, fs))
  {
  }

  /** One habit of the missed pass (functions/src/index.ts:627-672). */
  function HabitStep(t: Task, now: int, day: Day): (r: Step)
    ensures r.intents != [] ==> Upcoming.HabitSelected(t) && Upcoming.Addressable(t)
    ensures forall x :: x in r.intents ==> MissedNoticeJustified(t, r.task.history, now, day, x)
    ensures r.intents == [] ==> r.task == t
    ensures r.task == t.(history := r.task.history, fields := r.task.fields)
    ensures RaisesOnly(t.history, r.task.history, {Missed})
    ensures r.intents != [] ==> r.task.fields == t.fields + {"completionHistory"}
    ensures Upcoming.HabitSelected(t) && Upcoming.Addressable(t) ==> MissedNoticesComplete(t, t.history, now, day, r.intents)
    ensures FlagsTraced(t.history, r.task.history, r.intents)
  {
    var items := TodayItems(t, day);
    if !Upcoming.HabitSelected(t) || |items| == 0 || !Upcoming.Addressable(t) then Step([], t)
    else
      var fs := MissedFirings(Expand(items, day), t.history, now);
      if |fs| == 0 then Step([], t)
      else
        MissedNoticesSound(t, now, day, fs);
        MissedFiringsNoticed(t, now, day, fs);
        WrittenFlagsAreNoticed(t, t.history, fs, {Missed});
        Step(FiringNotices(t, fs),
             t.(history := RecordFirings(t.history, fs, {Missed}), fields := t.fields + {"completionHistory"}))
  }

  /** One habit of the missed pass with its flag writes as the document
      store applies the source's dotted update path (functions/src/index.ts:671). */
  function HabitStepAsWritten(t: Task, now: int, day: Day): (r: Step)
    ensures r.task == t.(history := r.task.history, fields := r.task.fields)
    ensures forall k :: '.' in k ==>
      (k in r.task.history <==> k in t.history) && (k in t.history ==> r.task.history[k] == t.history[k])
    ensures Upcoming.HabitSelected(t) && Upcoming.Addressable(t) ==> MissedNoticesComplete(t, t.history, now, day, r.intents)
  {
    var items := TodayItems(t, day);
    if !Upcoming.HabitSelected(t) || |items| == 0 || !Upcoming.Addressable(t) then Step([], t)
    else
      var fs := MissedFirings(Expand(items, day), t.history, now);
      if |fs| == 0 then Step([], t)
      else
        MissedFiringsNoticed(t, now, day, fs);
        Step(FiringNotices(t, fs),
             t.(history := RecordFiringsAsWritten(t.history, fs), fields := t.fields + {"completionHistory"}))
  }

  /** As written, a missed occurrence whose key has a '.' in it is reported
      again by a second run at the same instant, its flag never being
      readable; compare `HabitStepIdempotent`, which holds of the whole-key
      write. */
  lemma DottedMissReportedAgain(t: Task, now: int, day: Day, o: Occurrence)
    requires Upcoming.HabitSelected(t) && Upcoming.Addressable(t)
    requires o in Expand(TodayItems(t, day), day) && '.' in o.key
    requires OccurrenceMissed(o, t.history, now)
    ensures var once := HabitStepAsWritten(t, now, day);
      forall y :: y in NoticesFor(t, Some(o.key), Missed) ==>
        y in once.intents && y in HabitStepAsWritten(once.task, now, day).intents
  {
    var once := HabitStepAsWritten(t, now, day);
    var t1 := once.task;
    FlagKeyDot(o.key, Missed);
    assert OccurrenceMissed(o, t1.history, now);
    assert TodayItems(t1, day) == TodayItems(t, day);
    assert NoticesFor(t1, Some(o.key), Missed) == NoticesFor(t, Some(o.key), Missed);
  }

  /** The whole missed pass: the appointments loop, then the habits loop. */
  function Pass(tasks: seq<Task>, now: int, day: Day): PassResult {
    RunTwo(tasks, t => AppointmentStep(t, now), t => HabitStep(t, now, day))
  }

  /** A completed occurrence key never looks like a missed flag key. */
  ghost predicate NoMissedLookalikes(h: History) {
    forall k :: IsCompleted(h, k) ==> !Text.EndsWith(k, FlagSuffix(Missed))
  }

  /** After one missed pass, a second one at the same instant reports
      nothing for an appointment. */
  lemma AppointmentStepIdempotent(t: Task, now: int)
    ensures AppointmentStep(AppointmentStep(t, now).task, now).intents == []
  {
  }

  /** After one missed pass, a second one at the same instant reports
      nothing for a habit, provided no completed key looks like a missed
      flag key. */
  lemma HabitStepIdempotent(t: Task, now: int, day: Day)
    requires NoMissedLookalikes(t.history)
    ensures HabitStep(HabitStep(t, now, day).task, now, day).intents == []
  {
    var t' := HabitStep(t, now, day).task;
    var items := TodayItems(t, day);
    assert TodayItems(t', day) == items;
    if Upcoming.HabitSelected(t) && |items| > 0 && Upcoming.Addressable(t) {
      var os := Expand(items, day);
      var h := t.history;
      var fs := MissedFirings(os, h, now);
      var h' := RecordFirings(h, fs, {Missed});
      assert t'.history == h';
      forall o | o in os
        ensures !OccurrenceMissed(o, h', now)
      {
        MissedSettled(o, h, fs, now);
      }
      MissedStepQuiet(t', now, day);
    }
  }

  /** A habit none of whose occurrences today was missed gets no alert. */
  lemma MissedStepQuiet(t: Task, now: int, day: Day)
    requires forall o :: o in Expand(TodayItems(t, day), day) ==> !OccurrenceMissed(o, t.history, now)
    ensures HabitStep(t, now, day).intents == []
  {
  }

  /** After the missed firings of a pass are recorded, an occurrence is no
      longer missed at the same instant. */
  lemma MissedSettled(o: Occurrence, h: History, fs: seq<Firing>, now: int)
    requires NoMissedLookalikes(h)
    requires forall f :: f in fs ==> f.window == Missed
    requires OccurrenceMissed(o, h, now) ==> Firing(o.key, Missed) in fs
    ensures !OccurrenceMissed(o, RecordFirings(h, fs, {Missed}), now)
  {
  }


  /** Rerunning the missed pass at the same instant is a no-op. */
  lemma PassIdempotent(tasks: seq<Task>, now: int, day: Day)
    requires forall i :: 0 <= i < |tasks| ==> NoMissedLookalikes(tasks[i].history)
    ensures Pass(Pass(tasks, now, day).tasks, now, day).intents == []
  {
    forall i | 0 <= i < |tasks|
      ensures var once := HabitStep(AppointmentStep(tasks[i], now).task, now, day).task;
        AppointmentStep(once, now).intents == [] && HabitStep(AppointmentStep(once, now).task, now, day).intents == []
    {
      TaskSettled(tasks[i], now, day);
    }
    RunTwoTwice(tasks, t => AppointmentStep(t, now), t => HabitStep(t, now, day));
  }

  /** One task after one missed pass has nothing left to report at the same
      instant. */
  lemma TaskSettled(t: Task, now: int, day: Day)
    requires NoMissedLookalikes(t.history)
    ensures var t1 := HabitStep(AppointmentStep(t, now).task, now, day).task;
      && AppointmentStep(t1, now).intents == []
      && HabitStep(AppointmentStep(t1, now).task, now, day).intents == []
  {
    var a := AppointmentStep(t, now).task;
    var t1 := HabitStep(a, now, day).task;
    if t.taskType == Appointment {
      assert t1 == a;
      AppointmentStepIdempotent(t, now);
    } else {
      assert a == t;
      assert AppointmentStep(t1, now).task == t1;
      HabitStepIdempotent(t, now, day);
    }
  }

  /** The missed pass never touches the upcoming pass's one-hour and due
      flags, and the upcoming pass never touches the missed flags: each pass
      only ever raises its own windows' flags. */
  lemma PassesKeepEachOthersFlags(t: Task, now: int, day: Day, key: string)
    ensures var h2 := HabitStep(t, now, day).task.history;
      && (HasFired(h2, key, OneHour) <==> HasFired(t.history, key, OneHour))
      && (HasFired(h2, key, DueNow) <==> HasFired(t.history, key, DueNow))
    ensures var h2 := Upcoming.HabitStep(t, now, day).task.history;
      HasFired(h2, key, Missed) <==> HasFired(t.history, key, Missed)
  {
    RaisesKeepsOtherWindows(t.history, HabitStep(t, now, day).task.history, {Missed}, key, OneHour);
    RaisesKeepsOtherWindows(t.history, HabitStep(t, now, day).task.history, {Missed}, key, DueNow);
    RaisesKeepsOtherWindows(t.history, Upcoming.HabitStep(t, now, day).task.history, {OneHour, DueNow}, key, Missed);
  }

  /** A completed occurrence, or a task that is no longer pending or active,
      is never reported missed. */
  lemma CompletedIsNeverMissed(t: Task, now: int, day: Day, key: string)
    ensures t.status == Completed ==> AppointmentStep(t, now).intents == [] && HabitStep(t, now, day).intents == []
    ensures IsCompleted(t.history, key) ==>
      forall x :: x in HabitStep(t, now, day).intents ==> x.occurrence != Some(key)
  {
  }
}
