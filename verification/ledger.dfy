/** The Habit Occurrence Expander and the Notification State Tracker: how a
    habit's schedule becomes dated occurrences with stable string keys, and
    how "already notified" is recorded, per occurrence and window, as flags
    in the habit's completion history (functions/src/index.ts:644-657,
    :880-894) or, for an appointment, as fields of the task. */
module Ledger {
  import opened Wrappers
  import Text
  import opened Clock
  import opened Windows
  import opened Model

  /** The history value that marks an occurrence as done. */
  const COMPLETED: string := "completed"

  /** `${todayKey}_${time}_${title}`: the key of a habit occurrence. */
  function OccurrenceKey(date: string, time: string, title: string): string {
    date + "_" + time + "_" + title
  }

  /** The suffix that turns an occurrence key into the key of its flag for
      window `w`. */
  function FlagSuffix(w: Window): string {
    match w
    case OneHour => "_notified1Hour"
    case DueNow => "_notifiedDue"
    case Missed => "_notifiedMissed"
  }

  function FlagKey(key: string, w: Window): string {
    key + FlagSuffix(w)
  }

  /** `completionHistory[key] === "completed"`. */
  predicate IsCompleted(h: History, key: string) {
    key in h && h[key] == Text(COMPLETED)
  }

  /** `completionHistory[key + suffix] === true`. */
  predicate HasFired(h: History, key: string, w: Window) {
    FlagKey(key, w) in h && h[FlagKey(key, w)] == Flag(true)
  }

  /** Distinct (occurrence, window) pairs never share a flag slot: the three
      suffixes end in different letters, so the window is determined by the
      flag key, and then so is the occurrence key. */
  lemma FlagKeyInjective(k1: string, w1: Window, k2: string, w2: Window)
    requires FlagKey(k1, w1) == FlagKey(k2, w2)
    ensures k1 == k2 && w1 == w2
  {
    var f := FlagKey(k1, w1);
    assert f[|f| - 1] == FlagSuffix(w1)[|FlagSuffix(w1)| - 1];
    assert f[|f| - 1] == FlagSuffix(w2)[|FlagSuffix(w2)| - 1];
    assert w1 == w2;
    assert k1 == f[..|k1|] && k2 == f[..|k2|];
  }

  /** An occurrence's own key is never one of its flag keys. */
  lemma FlagKeyIsNotOccurrenceKey(key: string, w: Window)
    ensures FlagKey(key, w) != key
  {
  }

  /** A (occurrence key, window) pair the pass has decided to notify. */
  datatype Firing = Firing(key: string, window: Window)

  /** True when `h'` differs from `h` only by flags of the windows in `ws`
      newly set to true: nothing is removed, nothing else changes. */
  predicate RaisesOnly(h: History, h': History, ws: set<Window>) {
    && (forall k :: k in h ==> k in h')
    && (forall k :: k in h' ==>
          || (k in h && h'[k] == h[k])
          || (h'[k] == Flag(true) && exists w :: w in ws && Text.EndsWith(k, FlagSuffix(w))))
  }

  /** Raising flags never clears a flag that was already set. */
  lemma RaisesKeepsFlags(h: History, h': History, ws: set<Window>, key: string, w: Window)
    requires RaisesOnly(h, h', ws) && HasFired(h, key, w)
    ensures HasFired(h', key, w)
  {
  }

  /** Raising flags never marks an occurrence completed. */
  lemma RaisesNeverCompletes(h: History, h': History, ws: set<Window>, key: string)
    requires RaisesOnly(h, h', ws) && IsCompleted(h', key)
    ensures IsCompleted(h, key)
  {
  }

  /** A completed occurrence stays completed when flags are raised, unless its
      own key looks like a flag key: a flag write can overwrite a history
      entry only under a key that ends with a flag suffix. */
  lemma RaisesKeepsCompletion(h: History, h': History, ws: set<Window>, key: string)
    requires RaisesOnly(h, h', ws) && IsCompleted(h, key)
    requires forall w :: w in ws ==> !Text.EndsWith(key, FlagSuffix(w))
    ensures IsCompleted(h', key)
  {
  }

  /** A flag key of window `w` never ends with another window's suffix. */
  lemma FlagSuffixesDiffer(key: string, w: Window, v: Window)
    requires v != w
    ensures !Text.EndsWith(FlagKey(key, w), FlagSuffix(v))
  {
    var f := FlagKey(key, w);
    assert f[|f| - 1] == FlagSuffix(w)[|FlagSuffix(w)| - 1];
  }

  /** Raising the flags of the windows in `ws` leaves the flags of every
      other window exactly as they were. */
  lemma RaisesKeepsOtherWindows(h: History, h': History, ws: set<Window>, key: string, w: Window)
    requires RaisesOnly(h, h', ws) && w !in ws
    ensures HasFired(h', key, w) <==> HasFired(h, key, w)
  {
    var f := FlagKey(key, w);
    forall v | v in ws
      ensures !Text.EndsWith(f, FlagSuffix(v))
    {
      FlagSuffixesDiffer(key, w, v);
    }
  }

  /** The history after the completion-history updates of a pass: the flag of
      every firing set to true, in order, and nothing else written. Each
      update addresses the flag key as one whole key, which is what the
      source's reads of `completionHistory[key]` expect; the store's own
      reading of the source's dotted update path is `RecordFiringsAsWritten`. */
  function RecordFirings(h: History, fs: seq<Firing>, ws: set<Window>): (h': History)
    requires forall f :: f in fs ==> f.window in ws
    ensures forall f :: f in fs ==> HasFired(h', f.key, f.window)
    ensures RaisesOnly(h, h', ws)
    ensures forall k :: k in h' <==> k in h || exists f :: f in fs && k == FlagKey(f.key, f.window)
    ensures forall k :: k in h && (forall f :: f in fs ==> k != FlagKey(f.key, f.window)) ==> h'[k] == h[k]
    ensures |fs| == 0 ==> h' == h
    decreases |fs|
  {
    if |fs| == 0 then h
    else
      var f := fs[|fs| - 1];
      var before := RecordFirings(h, fs[..|fs| - 1], ws);
      var after := before[FlagKey(f.key, f.window) := Flag(true)];
      RaiseOne(before, f.key, f.window, ws);
      RaisesTransitive(h, before, after, ws);
      assert forall g :: g in fs <==> g in fs[..|fs| - 1] || g == f by {
        assert fs == fs[..|fs| - 1] + [f];
      }
      forall g | g in fs
        ensures HasFired(after, g.key, g.window)
      {
        if g != f {
          RaisesKeepsFlags(before, after, ws, g.key, g.window);
        }
      }
      after
  }

  /** Setting one flag of a window in `ws` raises only that window's flags. */
  lemma RaiseOne(h: History, key: string, w: Window, ws: set<Window>)
    requires w in ws
    ensures RaisesOnly(h, h[FlagKey(key, w) := Flag(true)], ws)
    ensures HasFired(h[FlagKey(key, w) := Flag(true)], key, w)
    ensures forall k :: k in h && k != FlagKey(key, w) ==> h[FlagKey(key, w) := Flag(true)][k] == h[k]
  {
  }


  /** Two writes that each only raise flags of `ws` together only raise flags
      of `ws`. */
  lemma RaisesTransitive(h1: History, h2: History, h3: History, ws: set<Window>)
    requires RaisesOnly(h1, h2, ws) && RaisesOnly(h2, h3, ws)
    ensures RaisesOnly(h1, h3, ws)
  {
  }

  /** Every history entry that `h'` adds or changes relative to `h` is the
      flag of an (occurrence, window) pair some notice among `xs` is for. */
  predicate FlagsTraced(h: History, h': History, xs: seq<Intent>) {
    forall k :: k in h' && (k !in h || h'[k] != h[k]) ==>
      exists x :: x in xs && x.occurrence.Some? && k == FlagKey(x.occurrence.value, WindowOf(x.kind))
  }

  /** The flag writes of a pass touch only the flags of the pairs its notices
      are for. */
  lemma WrittenFlagsAreNoticed(t: Task, h: History, fs: seq<Firing>, ws: set<Window>)
    requires forall f :: f in fs ==> f.window in ws
    ensures FlagsTraced(h, RecordFirings(h, fs, ws), FiringNotices(t, fs))
  {
    var h' := RecordFirings(h, fs, ws);
    forall k | k in h' && (k !in h || h'[k] != h[k])
      ensures exists x :: x in FiringNotices(t, fs) && x.occurrence.Some? && k == FlagKey(x.occurrence.value, WindowOf(x.kind))
    {
      var f :| f in fs && k == FlagKey(f.key, f.window);
      var x := NoticesFor(t, Some(f.key), f.window)[0];
      assert x in NoticesFor(t, Some(f.key), f.window);
    }
  }

  /** The part of an update path before its first '.': the entry of the
      completion history that the store writes for that path. */
  function PathHead(key: string): (r: string)
    ensures '.' !in r
  {
    Text.Split(key, '.')[0]
  }

  /** The update `{["completionHistory." + key]: v}` of the source
      (functions/src/index.ts:671, :903, :912) as the document store applies
      it: the update path is split at every '.', so a key with no '.' is
      written as it is, while a key with one creates a nested map under the
      part of the key before its first '.', and the key itself stays unset. */
  function FieldPathWrite(h: History, key: string, v: HistoryValue): (h': History)
    ensures '.' !in key ==> h' == h[key := v]
    ensures '.' in key ==> h'.Keys == h.Keys + {PathHead(key)} && h'[PathHead(key)] == Nested
    ensures forall k :: '.' in k ==> (k in h' <==> k in h) && (k in h ==> h'[k] == h[k])
  {
    if '.' in key then h[PathHead(key) := Nested] else h[key := v]
  }

  /** The completion-history updates of a pass, as the store applies the
      source's dotted update paths: a write never reaches a key with a '.'
      in it. */
  function RecordFiringsAsWritten(h: History, fs: seq<Firing>): (h': History)
    ensures forall k :: '.' in k ==> (k in h' <==> k in h) && (k in h ==> h'[k] == h[k])
    decreases |fs|
  {
    if |fs| == 0 then h
    else
      var f := fs[|fs| - 1];
      FieldPathWrite(RecordFiringsAsWritten(h, fs[..|fs| - 1]), FlagKey(f.key, f.window), Flag(true))
  }

  /** A flag key has a '.' in it exactly when its occurrence key has. */
  lemma FlagKeyDot(key: string, w: Window)
    ensures '.' in FlagKey(key, w) <==> '.' in key
  {
    var f := FlagKey(key, w);
    if '.' in key {
      var i :| 0 <= i < |key| && key[i] == '.';
      assert f[i] == '.';
    }
    if '.' in f {
      var i :| 0 <= i < |f| && f[i] == '.';
      assert i < |key|;
      assert key[i] == '.';
    }
  }

  /** For occurrence keys without a '.', the store's reading of the dotted
      update path is the whole-key write, so every property proved of
      `RecordFirings` holds of the source as written. */
  lemma {:induction false} AsWrittenAgreesWithoutDots(h: History, fs: seq<Firing>, ws: set<Window>)
    requires forall f :: f in fs ==> f.window in ws && '.' !in f.key
    ensures RecordFiringsAsWritten(h, fs) == RecordFirings(h, fs, ws)
    decreases |fs|
  {
    if |fs| > 0 {
      var f := fs[|fs| - 1];
      assert f in fs;
      assert forall g :: g in fs[..|fs| - 1] ==> g in fs;
      AsWrittenAgreesWithoutDots(h, fs[..|fs| - 1], ws);
      FlagKeyDot(f.key, f.window);
    }
  }

  /** The notices a habit pass issues for its firings, in firing order. */
  function FiringNotices(t: Task, fs: seq<Firing>): (r: seq<Intent>)
    ensures |r| == 0 <==> |fs| == 0
    ensures forall x :: x in r ==>
      && x.occurrence.Some? && Firing(x.occurrence.value, WindowOf(x.kind)) in fs
      && x.taskId == t.id && x.groupId == t.groupId && x.assignees == t.assignedTo
    ensures forall f, y :: f in fs && y in NoticesFor(t, Some(f.key), f.window) ==> y in r
    decreases |fs|
  {
    if |fs| == 0 then []
    else
      var head := NoticesFor(t, Some(fs[0].key), fs[0].window);
      var rest := FiringNotices(t, fs[1..]);
      assert head[0] in head;
      assert forall f :: f in fs ==> f == fs[0] || f in fs[1..];
      head + rest
  }

  /** The flag for `(occurrence, w)` of a task, wherever the source keeps it:
      the appointment's `notified1Hour`, `notifiedDue` or `notifiedMissed`
      field, or the habit's completion history. */
  predicate TaskHasFired(t: Task, occurrence: Option<string>, w: Window) {
    match occurrence
    case None =>
      (match w
       case OneHour => t.notified1Hour
       case DueNow => t.notifiedDue
       case Missed => t.notifiedMissed)
    case Some(key) => HasFired(t.history, key, w)
  }

  /** The schedule entries for the day's weekday (`schedule[weekday] ?? []`). */
  function TodayItems(t: Task, day: Day): seq<SubItem> {
    var k := ScheduleKey(day.weekday);
    if k in t.schedule then t.schedule[k] else []
  }

  /** A dated habit occurrence: its key and the instant it falls due. */
  datatype Occurrence = Occurrence(key: string, due: int)

  /** The occurrence a well-formed schedule entry stands for on `day`. */
  function OccurrenceOf(item: SubItem, day: Day): Occurrence
    requires ParseTime(item.time).Some?
  {
    Occurrence(OccurrenceKey(day.key, item.time, item.title),
               DueInstant(day, ParseTime(item.time).value.MinuteOfDay()))
  }

  /** A schedule entry whose time parses: the only kind the passes act on. */
  predicate WellFormed(item: SubItem) {
    ParseTime(item.time).Some?
  }

  /** The day's occurrences of a habit, in schedule order, entries whose time
      does not parse being skipped; each falls due within the day. */
  function Expand(items: seq<SubItem>, day: Day): (r: seq<Occurrence>)
    ensures |r| <= |items|
    ensures forall o :: o in r ==> day.start <= o.due < day.start + DAY_MS
    decreases |items|
  {
    if |items| == 0 then []
    else if WellFormed(items[0]) then
      DueInstantWithinDay(day, ParseTime(items[0].time).value);
      [OccurrenceOf(items[0], day)] + Expand(items[1..], day)
    else Expand(items[1..], day)
  }

  /** The expansion holds the occurrence of every well-formed entry and
      nothing else. */
  lemma {:induction false} ExpandContents(items: seq<SubItem>, day: Day, o: Occurrence)
    ensures o in Expand(items, day) <==>
      exists i :: 0 <= i < |items| && WellFormed(items[i]) && o == OccurrenceOf(items[i], day)
    decreases |items|
  {
    if |items| > 0 {
      ExpandContents(items[1..], day, o);
      EntryShift(items, day, o);
      ExpandUnfold(items, day);
    }
  }

  /** One step of `Expand`: the head entry's occurrence, if it has one, before
      the expansion of the rest. */
  lemma ExpandUnfold(items: seq<SubItem>, day: Day)
    requires |items| > 0
    ensures WellFormed(items[0]) ==> Expand(items, day) == [OccurrenceOf(items[0], day)] + Expand(items[1..], day)
    ensures !WellFormed(items[0]) ==> Expand(items, day) == Expand(items[1..], day)
  {
  }

  /** An entry of `items` standing for `o` is its head or an entry of the
      rest. */
  lemma EntryShift(items: seq<SubItem>, day: Day, o: Occurrence)
    requires |items| > 0
    ensures (exists i :: 0 <= i < |items| && WellFormed(items[i]) && o == OccurrenceOf(items[i], day)) <==>
      (|| (WellFormed(items[0]) && o == OccurrenceOf(items[0], day))
       || exists i :: 0 <= i < |items[1..]| && WellFormed(items[1..][i]) && o == OccurrenceOf(items[1..][i], day))
  {
    var rest := items[1..];
    if exists i :: 0 <= i < |items| && WellFormed(items[i]) && o == OccurrenceOf(items[i], day) {
      var i :| 0 <= i < |items| && WellFormed(items[i]) && o == OccurrenceOf(items[i], day);
      if i > 0 {
        assert rest[i - 1] == items[i];
      }
    }
    if exists i :: 0 <= i < |rest| && WellFormed(rest[i]) && o == OccurrenceOf(rest[i], day) {
      var i :| 0 <= i < |rest| && WellFormed(rest[i]) && o == OccurrenceOf(rest[i], day);
      assert items[i + 1] == rest[i];
    }
  }

  /** `key.split("_")`, and when there are at least three parts, parts 2.. joined
      back with "_": the item title the completion trigger reports
      (functions/src/index.ts:151-152). */
  function ItemTitleOf(key: string): Option<string> {
    var parts := Text.Split(key, '_');
    if |parts| >= 3 then Some(Text.Join(parts[2..], '_')) else None
  }

  /** An occurrence key splits back into its date, its time and its title,
      when the date and the time hold no "_"; so the title the completion
      trigger reports is the schedule entry's title, underscores and all. */
  lemma OccurrenceKeyParts(date: string, time: string, title: string)
    requires '_' !in date && '_' !in time
    ensures Text.Split(OccurrenceKey(date, time, title), '_') == [date, time] + Text.Split(title, '_')
    ensures ItemTitleOf(OccurrenceKey(date, time, title)) == Some(title)
  {
    var key := OccurrenceKey(date, time, title);
    assert key == date + ['_'] + (time + ['_'] + title);
    Text.SplitAround(date, time + ['_'] + title, '_');
    Text.SplitAround(time, title, '_');
    Text.SplitNoSeparator(date, '_');
    Text.SplitNoSeparator(time, '_');
    var parts := Text.Split(key, '_');
    assert parts == [date, time] + Text.Split(title, '_');
    assert parts[2..] == Text.Split(title, '_');
    Text.JoinSplit(title, '_');
  }

  /** Key stability: the same date, time and title always give the same key,
      and (with no "_" in the date or time) different ones never share it, so
      repeated expansions on a day hit the same flag slots and no others. */
  lemma OccurrenceKeyInjective(d1: string, t1: string, x1: string, d2: string, t2: string, x2: string)
    requires '_' !in d1 && '_' !in t1 && '_' !in d2 && '_' !in t2
    ensures OccurrenceKey(d1, t1, x1) == OccurrenceKey(d2, t2, x2) <==> d1 == d2 && t1 == t2 && x1 == x2
  {
    if OccurrenceKey(d1, t1, x1) == OccurrenceKey(d2, t2, x2) {
      OccurrenceKeyParts(d1, t1, x1);
      OccurrenceKeyParts(d2, t2, x2);
      var p1 := [d1, t1] + Text.Split(x1, '_');
      var p2 := [d2, t2] + Text.Split(x2, '_');
      assert p1 == p2;
      assert p1[0] == d1 && p2[0] == d2;
      assert p1[1] == t1 && p2[1] == t2;
    }
  }
}
