/** The documents the reminder engine reads and writes (tasks, users and
    groups) and the dispatch intents it emits. A missing string field is
    the empty string wherever the source only tests it for truthiness
    (`!groupId`, `!completerId`); a missing list or map is empty, as the
    source's `?? []` and `?? {}` make it. */
module Model {
  import opened Wrappers
  import opened Windows

  type UserId = string
  type GroupId = string

  datatype TaskType = Appointment | Countdown | HabitSchedule | OtherType

  datatype Status = Pending | Active | Completed | OtherStatus

  /** A value in a habit's completion history: the text "completed" or a
      completer's id, a boolean notification flag, or a nested map that an
      update path with a '.' in it created (its contents are not tracked). */
  datatype HistoryValue = Text(text: string) | Flag(flag: bool) | Nested

  type History = map<string, HistoryValue>

  /** One entry of a habit's weekly schedule: `{ time: "HH:MM", title }`. */
  datatype SubItem = SubItem(time: string, title: string)

  /** A task document. `dueAt` is `taskDateTime` in milliseconds; the three
      booleans are an appointment's notification flags; `schedule` maps a
      weekday key "1".."7" to that day's entries; `fields` is the set of
      top-level field names the stored document has. */
  datatype Task = Task(
    id: string,
    groupId: GroupId,
    title: Option<string>,
    description: Option<string>,
    taskType: TaskType,
    status: Status,
    assignedTo: seq<UserId>,
    dueAt: Option<int>,
    notified1Hour: bool,
    notifiedDue: bool,
    notifiedMissed: bool,
    schedule: map<string, seq<SubItem>>,
    history: History,
    completedBy: UserId,
    fields: set<string>)

  datatype Role = Caretaker | CareReceiver | OtherRole

  /** An entry of a user's `fcmTokens` array, which need not be a string. */
  datatype TokenEntry = Token(token: string) | NotText

  datatype User = User(
    id: UserId,
    role: Role,
    fcmTokens: seq<TokenEntry>,
    joinedGroups: seq<GroupId>)

  datatype Group = Group(
    members: seq<UserId>,
    pendingRequests: seq<UserId>)

  /** The document store as the notification helpers read it: groups by id,
      and the users collection in the order its queries return users. */
  datatype Store = Store(groups: map<GroupId, Group>, users: seq<User>)

  /** Which helper a pass calls: `notifyAssigneesOfUpcomingTask` with "1hour"
      or "due", `notifyCaretakersOfDueTask`, `notifyCaretakersOfMissedTask`. */
  datatype NoticeKind = OneHourReminder | DueReminder | DueCaretakerAlert | MissedCaretakerAlert

  /** A dispatch intent: one call of a notification helper for a task and,
      for a habit, one of its occurrences (`None` for an appointment). */
  datatype Intent = Intent(
    kind: NoticeKind,
    groupId: GroupId,
    taskId: string,
    occurrence: Option<string>,
    assignees: seq<UserId>)

  /** The window a notice belongs to. */
  function WindowOf(k: NoticeKind): Window {
    match k
    case OneHourReminder => OneHour
    case DueReminder => DueNow
    case DueCaretakerAlert => DueNow
    case MissedCaretakerAlert => Missed
  }

  /** What one task contributes to a pass: its intents and its updated
      document. */
  datatype Step = Step(intents: seq<Intent>, task: Task)

  /** What a pass produces: all intents, in dispatch order, and the updated
      task corpus. */
  datatype PassResult = PassResult(intents: seq<Intent>, tasks: seq<Task>)

  /** The notices a pass issues once it has chosen window `w` for occurrence
      `occurrence` of `t`: assignees alone for one hour ahead; assignees, then
      caretakers, when due; caretakers alone when missed. */
  function NoticesFor(t: Task, occurrence: Option<string>, w: Window): (r: seq<Intent>)
    ensures |r| >= 1
    ensures forall x :: x in r ==>
      && WindowOf(x.kind) == w && x.occurrence == occurrence
      && x.taskId == t.id && x.groupId == t.groupId && x.assignees == t.assignedTo
  {
    match w
    case OneHour => [Intent(OneHourReminder, t.groupId, t.id, occurrence, t.assignedTo)]
    case DueNow => [Intent(DueReminder, t.groupId, t.id, occurrence, t.assignedTo),
                    Intent(DueCaretakerAlert, t.groupId, t.id, occurrence, t.assignedTo)]
    case Missed => [Intent(MissedCaretakerAlert, t.groupId, t.id, occurrence, t.assignedTo)]
  }

  /** One pass over the task corpus: `step` applied to every task in order,
      the intents concatenated in that order. */
  function RunSteps(tasks: seq<Task>, step: Task -> Step): (r: PassResult)
    ensures |r.tasks| == |tasks|
    ensures forall i :: 0 <= i < |tasks| ==> r.tasks[i] == step(tasks[i]).task
    ensures forall x :: x in r.intents <==> exists i :: 0 <= i < |tasks| && x in step(tasks[i]).intents
    ensures r.intents == [] <==> forall i :: 0 <= i < |tasks| ==> step(tasks[i]).intents == []
    decreases |tasks|
  {
    if |tasks| == 0 then PassResult([], [])
    else
      var s := step(tasks[0]);
      var rest := RunSteps(tasks[1..], step);
      assert forall i :: 1 <= i < |tasks| ==> tasks[1..][i - 1] == tasks[i];
      assert forall x :: x in rest.intents ==> exists i :: 0 <= i < |tasks| && x in step(tasks[i]).intents by {
        forall x | x in rest.intents ensures exists i :: 0 <= i < |tasks| && x in step(tasks[i]).intents {
          var j :| 0 <= j < |tasks[1..]| && x in step(tasks[1..][j]).intents;
          assert x in step(tasks[j + 1]).intents;
        }
      }
      PassResult(s.intents + rest.intents, [s.task] + rest.tasks)
  }

  /** A pass made of two loops over the corpus: `first` on every task, then
      `second` on every task as `first` left it; the intents of the first
      loop come before those of the second. */
  function RunTwo(tasks: seq<Task>, first: Task -> Step, second: Task -> Step): PassResult {
    var a := RunSteps(tasks, first);
    var b := RunSteps(a.tasks, second);
    PassResult(a.intents + b.intents, b.tasks)
  }

  /** A two-loop pass acts on each task on its own: the updated corpus is
      `second` after `first`, task by task, and the pass is silent exactly
      when both loops are silent on every task. */
  lemma RunTwoPointwise(tasks: seq<Task>, first: Task -> Step, second: Task -> Step)
    ensures |RunTwo(tasks, first, second).tasks| == |tasks|
    ensures forall i :: 0 <= i < |tasks| ==>
      RunTwo(tasks, first, second).tasks[i] == second(first(tasks[i]).task).task
    ensures RunTwo(tasks, first, second).intents == [] <==>
      forall i :: 0 <= i < |tasks| ==>
        first(tasks[i]).intents == [] && second(first(tasks[i]).task).intents == []
  {
  }


  /** A two-loop pass whose second run on each task's result is silent is
      silent as a whole the second time round. */
  lemma RunTwoTwice(tasks: seq<Task>, first: Task -> Step, second: Task -> Step)
    requires forall i :: 0 <= i < |tasks| ==>
      var once := second(first(tasks[i]).task).task;
      first(once).intents == [] && second(first(once).task).intents == []
    ensures RunTwo(RunTwo(tasks, first, second).tasks, first, second).intents == []
  {
  }

}
