# TuenJai reminder engine in Dafny

TuenJai is a care-coordination app. Caretakers and care receivers share
groups, and each group holds tasks of three kinds: dated *appointments*,
weekly *habit schedules* with `HH:MM` entries per weekday, and countdowns.
Its Cloud Functions back end (`functions/src/index.ts`) decides who gets
which push notification, and when. This project models that decision logic
as pure Dafny functions over integer instants, maps and sequences, and
proves what the code promises about it:

- **Time** (`clock.dfy`, `windows.dfy`). `parseTimeStringToDate` is modelled
  with JavaScript's `parseInt`. The weekday becomes a schedule key "1".."7"
  with Sunday = "7". There are three windows relative to the run instant
  `now`: one hour ahead [now+55m, now+60m), due [now, now+5m) and missed
  [now-30m, now-15m).
- **Occurrences and flags** (`ledger.dfy`). A habit's entries for today
  become occurrences with keys `date_time_title`. "Already notified" is
  recorded per occurrence and window under the keys `_notified1Hour`,
  `_notifiedDue` and `_notifiedMissed` in the completion history. For an
  appointment it is recorded in the task's `notified1Hour`, `notifiedDue`
  and `notifiedMissed` fields.
- **The scheduled passes** (`upcoming.dfy`, `missed.dfy`, `model.dfy`).
  - `checkUpcomingTasksJob` runs every 5 minutes. `checkMissedTasksJob`
    runs every 15 minutes.
  - Each is a function from the task corpus and `now` to the dispatch
    intents it emits and the updated corpus. It loops over appointments,
    then over habits.
  - Within one habit, every decision reads the history as it was before
    the loop, as the source does.
- **Audiences** (`audience.dfy`). These are the token lookups of every
  notification helper: caretakers only or not, some ids excluded, and
  either the trimmed or the plain token test. `notifyGroupMembers` looks
  members up in batches of 10.
- **Document triggers** (`reactive.dfy`). These cover a new join request,
  a completion, an edit and a creation, each as a comparison of the
  document before and after the write.
- **How the passes and triggers interact** (`interplay.dfy`). The passes'
  flag writes fire the update triggers too.

External effects are left out: Firestore, FCM, logging and the clock.
Reads of the store become a `Store` value or the task list. Each
notification sent becomes an `Intent`. The current instant and the
calendar `Day` (local midnight, `YYYY-MM-DD` key and weekday) are
parameters.

## Model

| member | source | states |
|---|---|---|
| Clock.ParseTime | functions/src/index.ts:774-792 | a time parses only when it splits on ':' into exactly two parts; the parts' `parseInt` values must be the hour and minute, with the hour in 0..23 and the minute in 0..59; the result is a minute of the day |
| Clock.ParseTimeNeedsOneColon | functions/src/index.ts:776-777 | a string with no ':' or with several is rejected |
| Clock.ParseFormatTime | functions/src/index.ts:774-787 | every valid time written `HH:MM` parses back to the same hour and minute |
| Clock.ParseIntOfDigits | functions/src/index.ts:778-779 | `parseInt` of a plain numeral is its decimal value |
| Clock.DueInstantWithinDay | functions/src/index.ts:785-787 | the due instant of a parsed entry lies within the calendar day it was built on |
| Clock.ScheduleKey | functions/src/index.ts:862 | the schedule key is one digit 1..7, and it is "7" exactly on Sunday |
| Clock.ScheduleKeyRoundTrip | functions/src/index.ts:862 | weekdays and schedule keys correspond one to one, so every weekday reads its own schedule entry |
| Windows.WindowsAt | functions/src/index.ts:801-803 | gives the set of windows a due instant lies in, relative to `now` |
| Windows.WindowsExclusive | functions/src/index.ts:580-581 | the one-hour, due and missed windows are pairwise disjoint: no instant lies in two of them |
| Windows.UpcomingChoice | functions/src/index.ts:832-856 | one-hour is chosen iff its flag is unset and due is 55 to 60 minutes ahead; due is chosen iff its flag is unset and due is less than 5 minutes ahead; missed is never chosen |
| Windows.EveryDueInstantSeenOnce | functions/src/index.ts:794-803 | with runs every 5 (or 15) minutes, every due instant falls into the window of exactly one run; for a habit entry near midnight that run falls on another day (Windows.DayBoundaryGap) |
| Windows.DayBoundaryGap | functions/src/index.ts:859-862 | a run on the entry's own day sees a habit entry in the one-hour window iff it is due at 00:55 or later, and in the missed window iff it is due before 23:45; entries outside those bounds never get that notice |
| Ledger.FlagKeyInjective | functions/src/index.ts:887-889 | two (occurrence, window) pairs share a flag key only when they are the same pair |
| Ledger.FlagKeyIsNotOccurrenceKey | functions/src/index.ts:653-654 | a flag key never coincides with its own occurrence's key |
| Ledger.OccurrenceKeyInjective | functions/src/index.ts:887 | when date and time contain no '_', equal occurrence keys mean the same date, time and title |
| Ledger.OccurrenceKeyParts | functions/src/index.ts:151-152 | splitting an occurrence key on '_' and rejoining parts 2.. gives back the entry's title, underscores included |
| Ledger.RecordFirings | functions/src/index.ts:903 | every firing's flag is true afterwards; the keys afterwards are exactly the old keys plus the firings' flag keys; every other entry keeps its value; only flags of the pass's own windows change. This is the whole-key write that the flag reads expect (see Findings) |
| Ledger.FieldPathWrite | functions/src/index.ts:903 | the store's reading of a dotted update path: a key without '.' is written as it is; a key with '.' adds a nested map under its part before the first '.', and no key containing '.' changes |
| Ledger.RecordFiringsAsWritten | functions/src/index.ts:670-672 | the flag writes of a pass, as the store applies them, never change an entry whose key contains '.' |
| Ledger.FlagKeyDot | functions/src/index.ts:653-654 | a flag key contains '.' exactly when its occurrence key does |
| Ledger.AsWrittenAgreesWithoutDots | functions/src/index.ts:912 | when no firing's key contains '.', the writes as the store applies them equal the whole-key writes, so what is proved of those holds of the source |
| Ledger.RaisesKeepsFlags | functions/src/index.ts:891-892 | raising flags never clears a flag that was already set |
| Ledger.RaisesNeverCompletes | functions/src/index.ts:890 | raising flags never marks an occurrence completed |
| Ledger.RaisesKeepsCompletion | functions/src/index.ts:890 | a completed occurrence stays completed unless its key ends with a flag suffix |
| Ledger.RaisesKeepsOtherWindows | functions/src/index.ts:670-672 | raising one set of windows' flags leaves every other window's flag as it was |
| Ledger.FlagSuffixesDiffer | functions/src/index.ts:654 | a flag key of one window never ends with another window's suffix |
| Ledger.FiringNotices | functions/src/index.ts:898-922 | there are notices iff there are firings; each notice names a firing of the list, and every firing gets all the notices of its window |
| Ledger.WrittenFlagsAreNoticed | functions/src/index.ts:898-912 | the flag writes of a pass add or change only the flags of (occurrence, window) pairs that its notices are for |
| Ledger.Expand | functions/src/index.ts:880-885 | the day's occurrences are no more than the entries, and each falls due within the day |
| Ledger.ExpandContents | functions/src/index.ts:880-885 | an occurrence is in the expansion iff it stands for an entry whose time parses |
| Model.NoticesFor | functions/src/index.ts:831-856 | one hour ahead notifies the assignees; due notifies the assignees, then the caretakers; missed notifies the caretakers; each notice is for this task and occurrence |
| Model.RunSteps | functions/src/index.ts:819 | a loop over the corpus keeps its length and updates each task by its own step; a notice is emitted iff some task's step emits it |
| Model.RunTwoPointwise | functions/src/index.ts:811-925 | a two-loop pass updates each task as the second loop applied after the first; it is silent iff both loops are silent on every task |
| Model.RunTwoTwice | functions/src/index.ts:811-925 | if every task, once updated, is silent in both loops, the second run of the pass sends nothing |
| Upcoming.AppointmentStep | functions/src/index.ts:819-857 | a selected, addressable appointment with an unset one-hour (due) flag and due 55 to 60 (0 to 5) minutes ahead gets exactly that window's notices; exactly that flag is set, and exactly that one field is added to the document; a notice is sent only in those cases; nothing else changes, and no flag is ever cleared |
| Upcoming.OccurrenceChoice | functions/src/index.ts:885-906 | the one-hour window is chosen iff the occurrence is not completed, its one-hour flag is unset and it is due 55 to 60 minutes ahead; the due window likewise with the due flag and 0 to 5 minutes; missed is never chosen |
| Upcoming.OccurrenceFirings | functions/src/index.ts:880-924 | each firing comes from an occurrence that chose that window, every occurrence that chose a window fires it, and there are no firings iff no occurrence chose a window |
| Upcoming.FiringJustified | functions/src/index.ts:885-906 | a firing is for an occurrence of the day that is not completed, lies ahead in the firing's window and was not yet notified |
| Upcoming.NoticeJustified | functions/src/index.ts:898-912 | a notice of a firing whose flag is now recorded is justified |
| Upcoming.HabitNoticesSound | functions/src/index.ts:880-924 | every notice of a habit's firings is justified against the history the pass leaves |
| Upcoming.HabitStep | functions/src/index.ts:869-924 | a selected, addressable habit gets every notice of every occurrence today that has a window to fire, and every notice it gets is justified; every history entry the step adds or changes is the flag of an (occurrence, window) pair it sent a notice for, raised to true; if it sends nothing the habit is unchanged; the write adds the `completionHistory` field |
| Upcoming.FiringsNoticed | functions/src/index.ts:880-922 | the notices of a habit's firings include every notice of every occurrence that has a window to fire |
| Upcoming.HabitStepAsWritten | functions/src/index.ts:903 | with the flag writes as the store applies them, a habit still gets every notice it is due, and no history entry whose key contains '.' changes |
| Upcoming.DottedEntryIsResent | functions/src/index.ts:887-892 | as written, an occurrence whose key contains '.' gets all its notices again from a second run at the same instant |
| Upcoming.AppointmentStepIdempotent | functions/src/index.ts:836 | once the flag is written, a second run at the same instant sends nothing for the appointment |
| Upcoming.HabitStepNoRepeat | functions/src/index.ts:903 | no notice of a second run at the same instant repeats an (occurrence, window) pair of the first, for any history |
| Upcoming.HabitStepIdempotent | functions/src/index.ts:912 | a second run at the same instant sends the habit nothing, provided no completed key ends like a flag key |
| Upcoming.HabitStepQuiet | functions/src/index.ts:878-906 | a habit none of whose occurrences has a window to fire gets no notice |
| Upcoming.OccurrenceSettled | functions/src/index.ts:890-912 | once a pass's firings are recorded, no occurrence has a window left to fire at the same instant |
| Upcoming.DaySettled | functions/src/index.ts:880-912 | once the firings of a day's occurrences are recorded, none of them has a window left to fire at the same instant |
| Upcoming.CompletedIsSilent | functions/src/index.ts:890-894 | a completed task gets no upcoming notice, and a completed occurrence gets none |
| Upcoming.TaskSettled | functions/src/index.ts:819-924 | after one pass a task has nothing left to send at the same instant |
| Upcoming.PassIdempotent | functions/src/index.ts:811-925 | running the whole upcoming pass twice at the same instant, the second run sends nothing |
| Missed.AppointmentStep | functions/src/index.ts:590-617 | an appointment gets a caretaker alert iff it is pending, due 15 to 30 minutes ago, not yet reported, assigned and grouped; `notifiedMissed` is then set, exactly that one field is added to the document, and nothing else changes |
| Missed.MissedFirings | functions/src/index.ts:644-675 | each missed firing comes from a missed occurrence, every missed occurrence fires, and there are no firings iff none is missed |
| Missed.MissedFiringJustified | functions/src/index.ts:652-658 | a missed firing is for an occurrence of the day that is due in the missed window, not completed and not yet reported |
| Missed.MissedNoticeJustifiedBy | functions/src/index.ts:652-672 | an alert for a missed firing whose flag is now recorded is justified |
| Missed.MissedNoticesSound | functions/src/index.ts:644-672 | every alert of a habit's missed firings is justified against the history the pass leaves |
| Missed.HabitStep | functions/src/index.ts:633-676 | a selected, addressable habit gets an alert for every occurrence today that was missed, and every alert is justified; every history entry the step adds or changes is the missed flag of an occurrence it sent an alert for, raised to true; if it sends nothing the habit is unchanged |
| Missed.MissedFiringsNoticed | functions/src/index.ts:644-668 | the alerts of a habit's missed firings cover every missed occurrence |
| Missed.HabitStepAsWritten | functions/src/index.ts:670-672 | with the flag write as the store applies it, a habit still gets an alert for every missed occurrence, and no entry whose key contains '.' changes |
| Missed.DottedMissReportedAgain | functions/src/index.ts:653-657 | as written, a missed occurrence whose key contains '.' is reported again by a second run at the same instant |
| Missed.AppointmentStepIdempotent | functions/src/index.ts:616 | once `notifiedMissed` is written, a second run sends nothing for the appointment |
| Missed.HabitStepIdempotent | functions/src/index.ts:670-672 | a second run at the same instant sends the habit nothing, provided no completed key ends like a missed flag key |
| Missed.MissedStepQuiet | functions/src/index.ts:642-658 | a habit none of whose occurrences was missed gets no alert |
| Missed.MissedSettled | functions/src/index.ts:657-672 | once the missed firings are recorded, no occurrence is missed at the same instant |
| Missed.TaskSettled | functions/src/index.ts:599-676 | after one missed pass a task has nothing left to report at the same instant |
| Missed.PassIdempotent | functions/src/index.ts:588-676 | running the whole missed pass twice at the same instant, the second run reports nothing |
| Missed.PassesKeepEachOthersFlags | functions/src/index.ts:670-672 | the missed pass never changes a one-hour or due flag, and the upcoming pass never changes a missed flag |
| Missed.CompletedIsNeverMissed | functions/src/index.ts:657 | a completed task is never reported missed, and neither is a completed occurrence |
| Text.TrimEmptyIffBlank | functions/src/index.ts:182 | a string trims to empty exactly when it is all white space, so the trimmed token test keeps exactly the tokens with a non-space character |
| Audience.KeptTokens | functions/src/index.ts:180-183 | a token is kept iff it is a string entry of the array that passes the test |
| Audience.KeptTokensNonEmpty | functions/src/index.ts:182 | every kept token is non-empty, whichever test is used |
| Audience.TrimmedStricterThanPlain | functions/src/index.ts:977 | the trimmed test keeps only tokens the plain test keeps; the plain test also keeps " " |
| Audience.AdmittedUsers | functions/src/index.ts:171-179 | a user is kept iff the lookup asked for its id, it has the wanted role, and it is not excluded |
| Audience.CollectTokens | functions/src/index.ts:177-184 | a token is collected iff some admitted user holds it and it passes the test |
| Audience.ExcludedNeverReached | functions/src/index.ts:179 | a token held only by excluded users is never collected |
| Audience.BatchesShape | functions/src/index.ts:331-332 | the batches concatenate to the members in order; each has 1 to 10 members; all but the last are full; there are ceil(n/10) of them |
| Audience.BatchMembers | functions/src/index.ts:331-342 | the batching loop produces exactly the batches above |
| Audience.BatchedTokensContents | functions/src/index.ts:331-342 | batched lookups collect exactly the tokens of one lookup over all members |
| Audience.GroupBroadcast | functions/src/index.ts:317-350 | a group broadcast goes to exactly the members' valid tokens; it is not sent when the group is missing or empty, or when no member has a valid token |
| Audience.LookupFor | functions/src/index.ts:940-967 | reminders look up the assignees with the trimmed test; due and missed alerts look up the group's caretakers other than the assignees with the plain test; there is no lookup iff the ids are missing |
| Audience.Resolve | functions/src/index.ts:969-987 | a notice is sent to exactly the tokens its lookup collects, and not sent when there are none |
| Audience.AlertsSkipAssignees | functions/src/index.ts:970-972 | every token of a due or missed alert belongs to a caretaker member of the group who is not an assignee |
| Audience.ResolvedTokensNonEmpty | functions/src/index.ts:976-977 | every token a notice is sent to is a non-empty string |
| Reactive.FirstNew | functions/src/index.ts:71 | finds the first id of the new list that the old list lacks, and none iff every new id was already present |
| Reactive.NewPendingRequest | functions/src/index.ts:66-72 | a join request is announced iff the pending list grew and its first new id is non-empty, and it names that id |
| Reactive.GrowthFindsNewcomer | functions/src/index.ts:69-72 | a grown duplicate-free pending list always has a new id |
| Reactive.PendingMemberAlert | functions/src/index.ts:74-99 | a join alert goes to exactly the valid tokens of the group's caretakers, and only for a new request from an existing user; for such a request it is withheld only when no caretaker member holds a valid token |
| Reactive.FirstCompletedKey | functions/src/index.ts:147-155 | finds the first key in iteration order that newly became "completed", skipping `_by` keys; there is none iff no key did |
| Reactive.CompleterOf | functions/src/index.ts:150 | the completer is the non-empty text stored under the key's `_by` entry |
| Reactive.DetectCompletion | functions/src/index.ts:134-158 | an appointment's status change to completed with a completer is announced with that completer; a habit's first newly completed key with a completer is announced with that completer and the item title; nothing else is announced, and nothing without a completer |
| Reactive.HabitCompletionFound | functions/src/index.ts:147-155 | when the search visits the history's own keys once each, a newly completed occurrence is always found, it is announced when the key found has a completer, and a sole newly completed key is the one announced |
| Reactive.CompletionNamesTheItem | functions/src/index.ts:150-152 | a habit completion reports the completed entry's own title |
| Reactive.CompletionAlert | functions/src/index.ts:160-185 | a completion alert goes to exactly the valid tokens of the group's caretakers other than the completer; for a detected completion in an existing group it is withheld only when no such caretaker holds a valid token |
| Reactive.CompleterNotNotified | functions/src/index.ts:179 | a token held only by the completer is never in the completion alert |
| Reactive.EditAudience | functions/src/index.ts:476-514 | an edit is announced to the assignees iff it is not a completion write, a relevant field changed, there are assignees, and the task is not a countdown |
| Reactive.EditRecipients | functions/src/index.ts:490-503 | with the date test as written, any non-completion write to an undated, assigned, non-countdown task counts as an edit |
| Reactive.EditRecipientsIntended | functions/src/index.ts:490-503 | with the date compared as intended, a write that leaves title, description, date, schedule and assignees unchanged is never announced |
| Reactive.EditDetectionsAgreeWithDate | functions/src/index.ts:494 | the written and the intended edit checks agree on every task that had a date |
| Reactive.CompletionSuppressesEdit | functions/src/index.ts:476-485 | a write that completes a task is never announced as an edit |
| Reactive.EditAlert | functions/src/index.ts:516-537 | an edit notice goes to exactly the assignees' valid tokens, and for a detected edit it is withheld only when no assignee holds one |
| Reactive.CreatedRecipients | functions/src/index.ts:379 | a new task is announced iff it has assignees and is not a countdown, and it goes to all the assignees |
| Reactive.CreationAlert | functions/src/index.ts:396-417 | a creation notice goes to exactly the assignees' valid tokens, and is not sent only when there are none |
| Interplay.FlagWritesAreNotCompletions | functions/src/index.ts:144-156 | a write that only raises flags is never taken for a completion |
| Interplay.SchedulerWritesAreNotCompletions | functions/src/index.ts:138-158 | none of the four scheduler writes triggers a completion notice |
| Interplay.SchedulerWritesAreNotIntendedEdits | functions/src/index.ts:490-503 | with the intended date test, none of the scheduler writes triggers an edit notice |
| Interplay.FirstHistoryWriteLooksLikeEdit | functions/src/index.ts:476-503 | a history write that adds the `completionHistory` field to an undated task counts as an edit as written |
| Interplay.FirstHabitReminderLooksLikeEdit | functions/src/index.ts:903 | as written, the first reminder for an undated habit with no history field also sends its assignees a "task edited" notice |
| Interplay.FirstMissedAlertLooksLikeEdit | functions/src/index.ts:670-672 | as written, the same holds for the first missed alert on such a habit |
| Interplay.LaterHabitRemindersAreNotEdits | functions/src/index.ts:478-485 | once the habit has a `completionHistory` field, reminder flag writes are dismissed by the edit trigger |
| Interplay.LaterMissedAlertsAreNotEdits | functions/src/index.ts:478-485 | the same holds for missed-alert flag writes |
| Interplay.AppointmentFlagWritesAreNotEdits | functions/src/index.ts:494 | an appointment's flag writes are never announced as edits |
| Interplay.HistoryWriteKeepingFieldsIsNoEdit | functions/src/index.ts:478-485 | a history write that adds no top-level field is dismissed as a completion write |

## Left out

- Firestore, FCM and logging are left out. Queries become predicates over the task list or the `Store`. A multicast becomes an `Intent` or a token list.
- The Firestore rule that `!= true` skips documents lacking the field is left out. So is the limit on `in` lists. The model treats a missing `notifiedMissed` as false and a lookup as a filter over all users.
- JavaScript `Date`, the time zone, `toISOString` and the day-key format are left out. The day is a parameter (midnight instant, key, weekday), and instants are integer milliseconds.
- Notification titles, bodies, data payloads, APNs and Android priorities are left out. So are the user-name lookups that only feed the text.
- `dailyNotificationsJob` (countdown reminders and the morning summary) is left out. Only its helper `notifyGroupMembers` is modelled, as Audience.GroupBroadcast.
- Exceptions and concurrency are left out: a failing store call, overlapping runs, and the absence of compare-and-set between the flag read and the flag write.
- A non-array `fcmTokens` value is left out. The model keeps it a sequence whose entries may be non-strings.
- A non-string `_by` value (for instance a boolean) is not modelled: it would be a truthy completer id.
- Reactive.RelevantChange: compares schedule and assignees by value. The source compares `JSON.stringify` output, which also differs when only the key order differs.
- Reactive.DetectCompletion: `for...in` key order is the parameter `keys`, not derived from the map. Reactive.HabitCompletionFound proves detection under the hypothesis that `keys` lists the history's own keys once each.
- Clock.ParseInt: `-0` parses to 0. The source only compares the result with 0, 23 and 59, where the two agree.
- Upcoming.PassIdempotent: proved only for histories in which no completed key ends with `_notified1Hour` or `_notifiedDue`. A flag write could overwrite such a key. It is also proved only of the whole-key flag write, which the source's update path performs only for keys without '.' (see Findings).
- Missed.PassIdempotent: proved only for histories in which no completed key ends with `_notifiedMissed`, for the same reason. It too is proved of the whole-key flag write only.
- Ledger.RecordFirings: models the whole-key flag write that the flag reads expect, not the dotted update path as the store applies it (see Findings). Ledger.AsWrittenAgreesWithoutDots carries its properties over to the source as written for occurrence keys without '.'.
- Upcoming.OccurrenceSettled: holds of the whole-key flag write. As written it fails for an occurrence key containing '.' (Upcoming.DottedEntryIsResent).
- Upcoming.TaskSettled: the same restriction to the whole-key flag write.
- Upcoming.DaySettled: the same restriction to the whole-key flag write.
- Upcoming.HabitStepIdempotent: the same restriction to the whole-key flag write.
- Upcoming.HabitStepNoRepeat: the same restriction to the whole-key flag write.
- Missed.MissedSettled: holds of the whole-key flag write. As written it fails for an occurrence key containing '.' (Missed.DottedMissReportedAgain).
- Missed.TaskSettled: the same restriction to the whole-key flag write.
- Missed.HabitStepIdempotent: the same restriction to the whole-key flag write.
- Windows.EveryDueInstantSeenOnce: finds the run whose window holds a due instant, not whether that run expands the entry's day. The model keeps the source's behaviour near midnight, and Windows.DayBoundaryGap states which habit entries are never seen.
- Reactive.EditAlert: uses the corrected date comparison of the finding below, not the one as written.
- `android/app/build.gradle.kts` is build configuration with no logic.

## Findings

| source | as written | input that shows it | evidently intended | confidence | as-written member | corrected member |
|---|---|---|---|---|---|---|
| functions/src/index.ts:494 | The date test negates an optional-chained comparison. A task document without `taskDateTime` therefore always counts as date-changed. | A habit (no `taskDateTime`, no `completionHistory` field) with an entry due in 3 minutes. The upcoming pass writes its `_notifiedDue` flag. That adds a top-level field, so the edit trigger does not dismiss the write, and the missing date counts as a change. The assignees get a "task edited" notice next to the due reminder. | Only a real change of the date counts. | medium, not executed | Reactive.EditRecipients, Interplay.FirstHabitReminderLooksLikeEdit | Reactive.EditRecipientsIntended, Interplay.SchedulerWritesAreNotIntendedEdits |
| functions/src/index.ts:903 | The flags are written with the update path `completionHistory.${key}`, and the document store splits an update path at every '.'. For an entry title containing '.', the flag lands in a nested map under the key's part before its first '.'. The reads at :891-892 look the flag up under the whole key, so they never see it. The missed flag at :671 and its read at :656 behave the same. | A habit entry `08:00` titled `Vitamin D 2.5mg`, and two runs of the upcoming pass at 07:57 (a retried or overlapping invocation). Both runs send the due reminder and the caretaker alert. | The flag written is the flag read: a second run at the same instant sends nothing. | medium, not executed; depends on the store's dotted-path semantics | Upcoming.HabitStepAsWritten, Upcoming.DottedEntryIsResent, Missed.DottedMissReportedAgain | Ledger.RecordFirings, Upcoming.HabitStepNoRepeat, Upcoming.PassIdempotent, Missed.PassIdempotent |
