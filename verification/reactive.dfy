/** The Reactive Change Detector: the document triggers, each a comparison
    of a document before and after a write — a new join request on a group,
    a task or habit occurrence completed, a task edited, a task created —
    and the caretakers or assignees each one notifies
    (functions/src/index.ts:55-205, :356-568). */
module Reactive {
  import opened Wrappers
  import Text
  import opened Model
  import opened Ledger
  import opened Audience

  // ---------------------------------------------------------------------
  // New pending member (`onNewPendingMember`)
  // ---------------------------------------------------------------------

  /** `after.find((id) => !before.includes(id))`: the first id of `after`
      that `before` lacks. */
  function FirstNew(before: seq<UserId>, after: seq<UserId>): (r: Option<UserId>)
    ensures r.Some? ==> r.value in after && r.value !in before
    ensures r.Some? ==> exists i :: (0 <= i < |after| && after[i] == r.value &&
      forall j :: 0 <= j < i ==> after[j] in before)
    ensures r.None? <==> forall id :: id in after ==> id in before
    decreases |after|
  {
    if |after| == 0 then None
    else if after[0] !in before then Some(after[0])
    else
      var r := FirstNew(before, after[1..]);
      assert forall id :: id in after <==> id == after[0] || id in after[1..];
      if r.Some? then
        var i :| 0 <= i < |after[1..]| && after[1..][i] == r.value &&
          forall j :: 0 <= j < i ==> after[1..][j] in before;
        assert after[i + 1] == r.value;
        assert forall j :: 1 <= j < i + 1 ==> after[j] == after[1..][j - 1];
        r
      else r
  }

  /** The join request a group update announces: only when the pending list
      grew, the first id not pending before, and not when that id is empty
      (functions/src/index.ts:66-72). */
  function NewPendingRequest(before: Group, after: Group): (r: Option<UserId>)
    ensures r.Some? ==> |after.pendingRequests| > |before.pendingRequests|
    ensures r.Some? ==> r.value != "" && r == FirstNew(before.pendingRequests, after.pendingRequests)
    ensures |after.pendingRequests| <= |before.pendingRequests| ==> r.None?
    ensures |after.pendingRequests| > |before.pendingRequests| ==>
      match FirstNew(before.pendingRequests, after.pendingRequests)
      case Some(id) => r == (if id == "" then None else Some(id))
      case None => r.None?
  {
    if |after.pendingRequests| <= |before.pendingRequests| then None
    else
      match FirstNew(before.pendingRequests, after.pendingRequests)
      case Some(id) => if id == "" then None else Some(id)
      case None => None
  }

  predicate Distinct(s: seq<UserId>) {
    forall i, j :: 0 <= i < j < |s| ==> s[i] != s[j]
  }

  function Elems(s: seq<UserId>): set<UserId> {
    set x | x in s
  }

  lemma {:induction false} ElemsCard(s: seq<UserId>)
    ensures |Elems(s)| <= |s|
    ensures Distinct(s) ==> |Elems(s)| == |s|
    decreases |s|
  {
    if |s| > 0 {
      ElemsCard(s[1..]);
      assert Elems(s) == {s[0]} + Elems(s[1..]);
      if Distinct(s) {
        assert Distinct(s[1..]);
        assert s[0] !in Elems(s[1..]) by {
          forall j | 0 <= j < |s[1..]|
            ensures s[1..][j] != s[0]
          {
            assert s[1..][j] == s[j + 1];
          }
        }
      }
    }
  }

  lemma SubsetCard(a: set<UserId>, b: set<UserId>)
    requires a <= b
    ensures |a| <= |b|
  {
    assert b == a + (b - a);
  }

  /** When the pending list grows and holds no id twice, a newcomer is
      always found: a longer duplicate-free list cannot fit inside a
      shorter one. */
  lemma GrowthFindsNewcomer(before: seq<UserId>, after: seq<UserId>)
    requires |after| > |before| && Distinct(after)
    ensures FirstNew(before, after).Some?
  {
    if FirstNew(before, after).None? {
      ElemsCard(before);
      ElemsCard(after);
      SubsetCard(Elems(after), Elems(before));
      assert false;
    }
  }

  /** A user document with id `id` exists. */
  predicate UserExists(users: seq<User>, id: UserId) {
    exists u :: u in users && u.id == id
  }

  /** `onNewPendingMember`: the tokens of the group's caretakers, trimmed
      test, when a new request names an existing user and the group has
      members, some of them caretakers (functions/src/index.ts:74-111). */
  function PendingMemberAlert(users: seq<User>, before: Group, after: Group): (r: Option<seq<string>>)
    ensures r.Some? ==> (NewPendingRequest(before, after).Some?
      && UserExists(users, NewPendingRequest(before, after).value) && |r.value| > 0)
    ensures r.Some? ==> forall t :: t in r.value <==>
      exists u :: u in users && u.id in after.members && u.role == Caretaker
        && Token(t) in u.fcmTokens && Keeps(Trimmed, Token(t))
    ensures NewPendingRequest(before, after).None? ==> r.None?
    ensures NewPendingRequest(before, after).Some? && UserExists(users, NewPendingRequest(before, after).value) && r.None? ==>
      forall u, t :: u in users && u.id in after.members && u.role == Caretaker && Token(t) in u.fcmTokens ==>
        !Keeps(Trimmed, Token(t))
  {
    match NewPendingRequest(before, after)
    case None => None
    case Some(id) =>
      if !UserExists(users, id) || |after.members| == 0 then None
      else
        var lookup := Admission(after.members, true, []);
        if |AdmittedUsers(users, lookup)| == 0 then None
        else
          var tokens := CollectTokens(users, lookup, Trimmed);
          if |tokens| == 0 then None else Some(tokens)
  }

  // ---------------------------------------------------------------------
  // Completion (`onTaskCompleted`)
  // ---------------------------------------------------------------------

  /** Who completed what: the completer's id and, for a habit, the item
      title recovered from the occurrence key. */
  datatype Completion = Completion(completer: UserId, itemTitle: Option<string>)

  /** A key whose history entry became "completed" in this write; keys
      ending in "_by" are the completer entries and are skipped. */
  predicate NewlyCompleted(before: History, after: History, key: string) {
    !Text.EndsWith(key, "_by") && IsCompleted(after, key) && !IsCompleted(before, key)
  }

  /** The first newly completed key in `for...in` order `keys`. */
  function FirstCompletedKey(keys: seq<string>, before: History, after: History): (r: Option<string>)
    ensures r.Some? ==> exists i :: (0 <= i < |keys| && keys[i] == r.value
      && NewlyCompleted(before, after, keys[i])
      && forall j :: 0 <= j < i ==> !NewlyCompleted(before, after, keys[j]))
    ensures r.None? <==> forall k :: k in keys ==> !NewlyCompleted(before, after, k)
    decreases |keys|
  {
    if |keys| == 0 then None
    else if NewlyCompleted(before, after, keys[0]) then Some(keys[0])
    else
      var r := FirstCompletedKey(keys[1..], before, after);
      assert forall k :: k in keys <==> k == keys[0] || k in keys[1..];
      if r.Some? then
        var i :| 0 <= i < |keys[1..]| && keys[1..][i] == r.value
          && NewlyCompleted(before, after, keys[1..][i])
          && forall j :: 0 <= j < i ==> !NewlyCompleted(before, after, keys[1..][j]);
        assert keys[i + 1] == r.value;
        assert forall j :: 1 <= j < i + 1 ==> keys[j] == keys[1..][j - 1];
        r
      else r
  }

  /** The completer id stored under `key + "_by"`, when it is a non-empty
      string. */
  function CompleterOf(h: History, key: string): (r: Option<UserId>)
    ensures r.Some? ==> key + "_by" in h && h[key + "_by"] == Text(r.value) && r.value != ""
    ensures r.None? ==> key + "_by" !in h || !h[key + "_by"].Text? || h[key + "_by"].text == ""
  {
    var k := key + "_by";
    if k in h && h[k].Text? && h[k].text != "" then Some(h[k].text) else None
  }

  /** The completion a task write announces (functions/src/index.ts:134-158):
      for an appointment, a status change to completed, by `completedBy`;
      for a habit, the first newly completed occurrence key, by the id under
      its "_by" key. The search stops at that first key even when it has no
      completer. `keys` is the order `for...in` visits the history's keys. */
  function DetectCompletion(before: Task, after: Task, keys: seq<string>): (r: Option<Completion>)
    ensures r.Some? ==> r.value.completer != ""
    ensures r.Some? && after.taskType == Appointment ==>
      before.status != Completed && after.status == Completed
      && r.value.completer == after.completedBy && r.value.itemTitle == None
    ensures r.Some? && after.taskType != Appointment ==>
      && after.taskType == HabitSchedule
      && FirstCompletedKey(keys, before.history, after.history).Some?
      && var k := FirstCompletedKey(keys, before.history, after.history).value;
         CompleterOf(after.history, k) == Some(r.value.completer) && r.value.itemTitle == ItemTitleOf(k)
    ensures after.taskType == Appointment && before.status == Completed ==> r.None?
    ensures (after.taskType == HabitSchedule &&
      forall k :: k in keys ==> !NewlyCompleted(before.history, after.history, k)) ==> r.None?
    ensures after.taskType !in {Appointment, HabitSchedule} ==> r.None?
    ensures (after.taskType == Appointment && before.status != Completed && after.status == Completed
             && after.completedBy != "") ==> r == Some(Completion(after.completedBy, None))
    ensures after.taskType == HabitSchedule && FirstCompletedKey(keys, before.history, after.history).Some? ==>
      var k := FirstCompletedKey(keys, before.history, after.history).value;
      CompleterOf(after.history, k).Some? ==> r == Some(Completion(CompleterOf(after.history, k).value, ItemTitleOf(k)))
  {
    if after.taskType == Appointment && before.status != Completed && after.status == Completed then
      if after.completedBy == "" then None else Some(Completion(after.completedBy, None))
    else if after.taskType == HabitSchedule then
      match FirstCompletedKey(keys, before.history, after.history)
      case None => None
      case Some(k) =>
        match CompleterOf(after.history, k)
        case None => None
        case Some(c) => Some(Completion(c, ItemTitleOf(k)))
    else None
  }

  /** `keys` is a `for...in` order of history `h`: each of its keys exactly
      once. */
  predicate ForInOrder(keys: seq<string>, h: History) {
    && Distinct(keys)
    && (forall k :: k in keys ==> k in h)
    && (forall k :: k in h ==> k in keys)
  }

  /** A habit write that newly completes an occurrence is always detected
      when the search visits the history's own keys: the search finds a
      newly completed key, the write is announced when that key has a
      completer, and when `key` is the only newly completed key, the
      announcement is about `key`. */
  lemma HabitCompletionFound(before: Task, after: Task, keys: seq<string>, key: string)
    requires ForInOrder(keys, after.history)
    requires after.taskType == HabitSchedule && NewlyCompleted(before.history, after.history, key)
    ensures FirstCompletedKey(keys, before.history, after.history).Some?
    ensures var k := FirstCompletedKey(keys, before.history, after.history).value;
      CompleterOf(after.history, k).Some? ==>
        DetectCompletion(before, after, keys) == Some(Completion(CompleterOf(after.history, k).value, ItemTitleOf(k)))
    ensures (forall k :: k in after.history && k != key ==> !NewlyCompleted(before.history, after.history, k)) ==>
      FirstCompletedKey(keys, before.history, after.history) == Some(key)
  {
    assert key in keys;
  }

  /** A completion on a habit reports the item title of the schedule entry
      whose occurrence was completed, underscores in the title included. */
  lemma CompletionNamesTheItem(before: Task, after: Task, keys: seq<string>,
                               date: string, time: string, title: string)
    requires '_' !in date && '_' !in time
    requires after.taskType == HabitSchedule
    requires FirstCompletedKey(keys, before.history, after.history) == Some(OccurrenceKey(date, time, title))
    requires DetectCompletion(before, after, keys).Some?
    ensures DetectCompletion(before, after, keys).value.itemTitle == Some(title)
  {
    OccurrenceKeyParts(date, time, title);
  }

  /** `onTaskCompleted`'s audience: the group's caretakers other than the
      completer, trimmed test (functions/src/index.ts:160-185). */
  function CompletionAlert(store: Store, groupId: GroupId, before: Task, after: Task, keys: seq<string>): (r: Option<seq<string>>)
    ensures r.Some? ==> DetectCompletion(before, after, keys).Some? && groupId in store.groups && |r.value| > 0
    ensures r.Some? ==> forall t :: t in r.value <==>
      exists u :: u in store.users && u.id in store.groups[groupId].members && u.role == Caretaker
        && u.id != DetectCompletion(before, after, keys).value.completer
        && Token(t) in u.fcmTokens && Keeps(Trimmed, Token(t))
    ensures DetectCompletion(before, after, keys).Some? && groupId in store.groups && r.None? ==>
      forall u, t ::
        (u in store.users && u.id in store.groups[groupId].members && u.role == Caretaker
         && u.id != DetectCompletion(before, after, keys).value.completer && Token(t) in u.fcmTokens) ==>
        !Keeps(Trimmed, Token(t))
  {
    match DetectCompletion(before, after, keys)
    case None => None
    case Some(c) =>
      if groupId !in store.groups || |store.groups[groupId].members| == 0 then None
      else
        var tokens := CollectTokens(store.users, Admission(store.groups[groupId].members, true, [c.completer]), Trimmed);
        if |tokens| == 0 then None else Some(tokens)
  }

  /** The completer is never told about their own completion: a token only
      the completer holds is never in the audience. */
  lemma CompleterNotNotified(store: Store, groupId: GroupId, before: Task, after: Task, keys: seq<string>, t: string)
    requires CompletionAlert(store, groupId, before, after, keys).Some?
    requires forall u :: u in store.users && Token(t) in u.fcmTokens ==>
      u.id == DetectCompletion(before, after, keys).value.completer
    ensures t !in CompletionAlert(store, groupId, before, after, keys).value
  {
  }

  // ---------------------------------------------------------------------
  // Edits (`onTaskEdited`)
  // ---------------------------------------------------------------------

  predicate StatusChangedToCompleted(before: Task, after: Task) {
    before.status != Completed && after.status == Completed
  }

  /** The write the edit trigger ignores as a completion: a status change to
      completed, or a history change that leaves the number of top-level
      fields unchanged (functions/src/index.ts:476-486). */
  predicate LooksLikeCompletion(before: Task, after: Task) {
    StatusChangedToCompleted(before, after) ||
    (before.history != after.history && |before.fields| == |after.fields|)
  }

  /** `!before.taskDateTime?.isEqual(after.taskDateTime)`: with no date on
      the old document the optional chain yields `undefined`, and its
      negation is true, so a task without a date always counts as changed. */
  predicate DateTimeChangedAsWritten(before: Task, after: Task) {
    before.dueAt.None? || before.dueAt != after.dueAt
  }

  /** The comparison that expression evidently stands for. */
  predicate DateTimeChanged(before: Task, after: Task) {
    before.dueAt != after.dueAt
  }

  /** A change to a field the task editor can change: title, description,
      date, schedule or assignees (functions/src/index.ts:490-503), with the
      date compared by `dateChanged`. */
  predicate RelevantChange(before: Task, after: Task, dateChanged: bool) {
    before.title != after.title || before.description != after.description || dateChanged
    || before.schedule != after.schedule || before.assignedTo != after.assignedTo
  }

  /** The assignees an edit notice goes to, given how the date comparison
      came out (functions/src/index.ts:476-514). */
  function EditAudience(before: Task, after: Task, dateChanged: bool): (r: Option<seq<UserId>>)
    ensures r.Some? <==>
      && !LooksLikeCompletion(before, after) && RelevantChange(before, after, dateChanged)
      && |after.assignedTo| > 0 && after.taskType != Countdown
    ensures r.Some? ==> r.value == after.assignedTo
  {
    if LooksLikeCompletion(before, after) then None
    else if !RelevantChange(before, after, dateChanged) then None
    else if |after.assignedTo| == 0 || after.taskType == Countdown then None
    else Some(after.assignedTo)
  }

  /** The edit trigger as written. */
  function EditRecipients(before: Task, after: Task): (r: Option<seq<UserId>>)
    ensures r.Some? ==> !StatusChangedToCompleted(before, after) && |r.value| > 0 && after.taskType != Countdown
    ensures (before.dueAt.None? && !LooksLikeCompletion(before, after)
      && |after.assignedTo| > 0 && after.taskType != Countdown) ==> r == Some(after.assignedTo)
  {
    EditAudience(before, after, DateTimeChangedAsWritten(before, after))
  }

  /** The edit trigger with the date compared as intended. */
  function EditRecipientsIntended(before: Task, after: Task): (r: Option<seq<UserId>>)
    ensures r.Some? ==> !StatusChangedToCompleted(before, after) && |r.value| > 0 && after.taskType != Countdown
    ensures r.Some? ==> RelevantChange(before, after, before.dueAt != after.dueAt)
    ensures (before.title == after.title && before.description == after.description && before.dueAt == after.dueAt
      && before.schedule == after.schedule && before.assignedTo == after.assignedTo) ==> r.None?
  {
    EditAudience(before, after, DateTimeChanged(before, after))
  }

  /** The two agree whenever the old document has a date; they differ only
      for undated tasks, where the written comparison always reports a
      change. */
  lemma EditDetectionsAgreeWithDate(before: Task, after: Task)
    requires before.dueAt.Some?
    ensures EditRecipients(before, after) == EditRecipientsIntended(before, after)
  {
  }

  /** A completion suppresses an edit notice, even one written together
      with a real edit of the title. */
  lemma CompletionSuppressesEdit(before: Task, after: Task)
    requires StatusChangedToCompleted(before, after)
    ensures EditRecipients(before, after).None? && EditRecipientsIntended(before, after).None?
  {
  }

  /** `onTaskEdited`'s audience: the assignees after the write, trimmed test
      (functions/src/index.ts:516-537), for an edit detected with the date
      compared as intended. */
  function EditAlert(users: seq<User>, before: Task, after: Task): (r: Option<seq<string>>)
    ensures r.Some? ==> EditRecipientsIntended(before, after).Some? && |r.value| > 0
    ensures r.Some? ==> forall t :: t in r.value <==>
      exists u :: u in users && u.id in after.assignedTo && Token(t) in u.fcmTokens && Keeps(Trimmed, Token(t))
    ensures EditRecipientsIntended(before, after).Some? && r.None? ==>
      forall u, t :: u in users && u.id in after.assignedTo && Token(t) in u.fcmTokens ==> !Keeps(Trimmed, Token(t))
  {
    match EditRecipientsIntended(before, after)
    case None => None
    case Some(ids) =>
      var tokens := CollectTokens(users, Admission(ids, false, []), Trimmed);
      if |tokens| == 0 then None else Some(tokens)
  }

  // ---------------------------------------------------------------------
  // Creation (`onTaskCreated`)
  // ---------------------------------------------------------------------

  /** The assignees a new task is announced to: all of them, unless there
      are none or the task is a countdown (functions/src/index.ts:379). */
  function CreatedRecipients(t: Task): (r: Option<seq<UserId>>)
    ensures r.Some? <==> |t.assignedTo| > 0 && t.taskType != Countdown
    ensures r.Some? ==> r.value == t.assignedTo
  {
    if |t.assignedTo| == 0 || t.taskType == Countdown then None else Some(t.assignedTo)
  }

  /** `onTaskCreated`'s audience: the assignees, trimmed test
      (functions/src/index.ts:396-416). */
  function CreationAlert(users: seq<User>, t: Task): (r: Option<seq<string>>)
    ensures r.Some? ==> CreatedRecipients(t).Some? && |r.value| > 0
    ensures r.Some? ==> forall x :: x in r.value <==>
      exists u :: u in users && u.id in t.assignedTo && Token(x) in u.fcmTokens && Keeps(Trimmed, Token(x))
    ensures CreatedRecipients(t).Some? && r.None? ==>
      forall u, x :: u in users && u.id in t.assignedTo && Token(x) in u.fcmTokens ==> !Keeps(Trimmed, Token(x))
  {
    match CreatedRecipients(t)
    case None => None
    case Some(ids) =>
      var tokens := CollectTokens(users, Admission(ids, false, []), Trimmed);
      if |tokens| == 0 then None else Some(tokens)
  }
}
