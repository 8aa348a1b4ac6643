/** The Audience Resolver: which device tokens a notice is sent to. Users
    are looked up by id (`where(documentId, "in", ids)`), optionally only
    caretakers, some ids excluded; each admitted user's `fcmTokens` are
    filtered, and a notice with no token left is not sent
    (functions/src/index.ts:170-184, :317-350, :706-737, :954-985,
    :1034-1052). */
module Audience {
  import opened Wrappers
  import Text
  import opened Model

  /** The two token tests in the source: `t.trim().length > 0` on most
      paths, plain `token.length > 0` on the due and missed caretaker
      alerts. Both reject entries that are not strings. */
  datatype TokenFilter = Trimmed | Plain

  predicate Keeps(f: TokenFilter, e: TokenEntry) {
    e.Token? &&
    match f
    case Trimmed => |Text.Trim(e.token)| > 0
    case Plain => |e.token| > 0
  }

  /** The tokens of one user that pass the filter, in array order. */
  function KeptTokens(entries: seq<TokenEntry>, f: TokenFilter): (r: seq<string>)
    ensures |r| <= |entries|
    ensures forall t :: t in r <==> Token(t) in entries && Keeps(f, Token(t))
    decreases |entries|
  {
    if |entries| == 0 then []
    else
      var rest := KeptTokens(entries[1..], f);
      assert forall e :: e in entries <==> e == entries[0] || e in entries[1..];
      if Keeps(f, entries[0]) then [entries[0].token] + rest else rest
  }

  /** Every kept token is a non-empty string, whichever test is used. */
  lemma KeptTokensNonEmpty(entries: seq<TokenEntry>, f: TokenFilter, t: string)
    requires t in KeptTokens(entries, f)
    ensures |t| > 0
  {
  }


  /** The trimmed test is the stricter one: it keeps only tokens the plain
      test keeps, and the plain test also keeps a blank token such as " ". */
  lemma TrimmedStricterThanPlain(e: TokenEntry)
    ensures Keeps(Trimmed, e) ==> Keeps(Plain, e)
    ensures Keeps(Plain, Token(" ")) && !Keeps(Trimmed, Token(" "))
  {
  }

  /** A user lookup: ids asked for, whether only caretakers are wanted, and
      ids skipped in the loop over the result. */
  datatype Admission = Admission(ids: seq<UserId>, caretakersOnly: bool, excluded: seq<UserId>)

  predicate Admits(a: Admission, u: User) {
    u.id in a.ids && (!a.caretakersOnly || u.role == Caretaker) && u.id !in a.excluded
  }

  /** The users a lookup returns and the loop keeps, in store order. */
  function AdmittedUsers(users: seq<User>, a: Admission): (r: seq<User>)
    ensures forall u :: u in r <==> u in users && Admits(a, u)
    decreases |users|
  {
    if |users| == 0 then []
    else
      var rest := AdmittedUsers(users[1..], a);
      assert forall u :: u in users <==> u == users[0] || u in users[1..];
      if Admits(a, users[0]) then [users[0]] + rest else rest
  }

  /** The tokens collected from the admitted users, user after user. A token
      is collected exactly when some admitted user holds it and it passes
      the filter: in particular never because of an excluded user alone. */
  function CollectTokens(users: seq<User>, a: Admission, f: TokenFilter): (r: seq<string>)
    ensures forall t :: t in r <==>
      exists u :: u in users && Admits(a, u) && Token(t) in u.fcmTokens && Keeps(f, Token(t))
    decreases |users|
  {
    if |users| == 0 then []
    else
      var rest := CollectTokens(users[1..], a, f);
      assert forall u :: u in users <==> u == users[0] || u in users[1..];
      if Admits(a, users[0]) then KeptTokens(users[0].fcmTokens, f) + rest else rest
  }

  /** A token that only excluded users hold is never collected. */
  lemma ExcludedNeverReached(users: seq<User>, a: Admission, f: TokenFilter, t: string)
    requires forall u :: u in users && Token(t) in u.fcmTokens ==> u.id in a.excluded
    ensures t !in CollectTokens(users, a, f)
  {
  }

  /** The size of a member batch in `notifyGroupMembers`. */
  const BATCH: nat := 10

  /** The concatenation of a sequence of batches. */
  function Concat(ss: seq<seq<UserId>>): seq<UserId> {
    if |ss| == 0 then [] else Concat(ss[..|ss| - 1]) + ss[|ss| - 1]
  }

  /** Members split into consecutive batches of `BATCH`, the last one
      shorter when the count is not a multiple. */
  function Batches(members: seq<UserId>): seq<seq<UserId>>
    decreases |members|
  {
    if |members| == 0 then []
    else if |members| <= BATCH then [members]
    else [members[..BATCH]] + Batches(members[BATCH..])
  }

  /** The batches are all full but the last, none is empty, there are
      ceil(n / 10) of them, and together they are exactly the members in
      order: every member is looked up once. */
  lemma {:induction false} BatchesShape(members: seq<UserId>)
    ensures Concat(Batches(members)) == members
    ensures forall j :: 0 <= j < |Batches(members)| ==> 0 < |Batches(members)[j]| <= BATCH
    ensures forall j :: 0 <= j < |Batches(members)| - 1 ==> |Batches(members)[j]| == BATCH
    ensures |Batches(members)| == (|members| + BATCH - 1) / BATCH
    decreases |members|
  {
    var r := Batches(members);
    if |members| == 0 {
    } else if |members| <= BATCH {
      assert r == [members];
      assert r[..0] == [];
    } else {
      var rest := members[BATCH..];
      BatchesShape(rest);
      assert r == [members[..BATCH]] + Batches(rest);
      ConcatCons(members[..BATCH], Batches(rest));
      assert members[..BATCH] + rest == members;
      assert forall j :: 1 <= j < |r| ==> r[j] == Batches(rest)[j - 1];
    }
  }

  lemma {:induction false} ConcatCons(c: seq<UserId>, ss: seq<seq<UserId>>)
    ensures Concat([c] + ss) == c + Concat(ss)
    decreases |ss|
  {
    if |ss| > 0 {
      var init := ss[..|ss| - 1];
      ConcatCons(c, init);
      assert ([c] + ss)[..|ss|] == [c] + init;
    } else {
      assert ([c] + ss)[..0] == [];
    }
  }

  /** `Math.min`, the clamp `slice` applies to its end index. */
  function Min(a: int, b: int): int {
    if a <= b then a else b
  }

  /** Batching from position `i` takes the slice `[i, i + 10)`, clamped,
      then batches the rest. */
  lemma BatchesStep(members: seq<UserId>, i: int)
    requires 0 <= i < |members|
    ensures Batches(members[i..]) ==
      [members[i..Min(i + BATCH, |members|)]] + Batches(members[Min(i + BATCH, |members|)..])
  {
    var rest := members[i..];
    if i + BATCH < |members| {
      assert rest[..BATCH] == members[i..i + BATCH];
      assert rest[BATCH..] == members[i + BATCH..];
    } else {
      assert members[Min(i + BATCH, |members|)..] == [];
      assert members[i..Min(i + BATCH, |members|)] == rest;
    }
  }

  /** The batching loop of `notifyGroupMembers` (`for (i = 0; i < n;
      i += 10) members.slice(i, i + 10)`, the slice clamped at the end). */
  method BatchMembers(members: seq<UserId>) returns (batches: seq<seq<UserId>>)
    ensures batches == Batches(members)
  {
    batches := [];
    var i := 0;
    while i < |members|
      invariant 0 <= i
      invariant batches + Batches(members[Min(i, |members|)..]) == Batches(members)
    {
      BatchesStep(members, i);
      batches := batches + [members[i..Min(i + BATCH, |members|)]];
      i := i + BATCH;
    }
    assert members[Min(i, |members|)..] == [];
  }

  /** The tokens `notifyGroupMembers` collects: batch after batch, each
      member of the batch looked up, trimmed test. */
  function BatchedTokens(users: seq<User>, batches: seq<seq<UserId>>): (r: seq<string>)
    decreases |batches|
  {
    if |batches| == 0 then []
    else BatchedTokens(users, batches[..|batches| - 1]) + CollectTokens(users, Admission(batches[|batches| - 1], false, []), Trimmed)
  }

  /** Batching changes the order tokens are collected in but not which
      tokens: the same ones as one lookup over all members. */
  lemma {:induction false} BatchedTokensContents(users: seq<User>, batches: seq<seq<UserId>>, t: string)
    ensures t in BatchedTokens(users, batches) <==> t in CollectTokens(users, Admission(Concat(batches), false, []), Trimmed)
    decreases |batches|
  {
    if |batches| > 0 {
      var init := batches[..|batches| - 1];
      var last := batches[|batches| - 1];
      BatchedTokensContents(users, init, t);
      var all := Admission(Concat(batches), false, []);
      assert forall u :: Admits(all, u) <==> Admits(Admission(Concat(init), false, []), u) || Admits(Admission(last, false, []), u);
    }
  }

  /** `notifyGroupMembers`: nothing unless the group exists and has members,
      then the batched tokens of all members, sent only if there are any. */
  function GroupBroadcast(store: Store, groupId: GroupId): (r: Option<seq<string>>)
    ensures r.Some? ==> groupId in store.groups && |store.groups[groupId].members| > 0 && |r.value| > 0
    ensures r.Some? ==> forall t :: t in r.value <==>
      exists u :: u in store.users && u.id in store.groups[groupId].members
        && Token(t) in u.fcmTokens && Keeps(Trimmed, Token(t))
    ensures r.None? && groupId in store.groups ==>
      forall u, t :: u in store.users && u.id in store.groups[groupId].members && Token(t) in u.fcmTokens
        ==> !Keeps(Trimmed, Token(t))
  {
    if groupId !in store.groups || |store.groups[groupId].members| == 0 then None
    else
      var members := store.groups[groupId].members;
      var r := BatchedTokens(store.users, Batches(members));
      BatchesShape(members);
      assert forall t :: t in r <==> t in CollectTokens(store.users, Admission(members, false, []), Trimmed) by {
        forall t ensures t in r <==> t in CollectTokens(store.users, Admission(members, false, []), Trimmed) {
          BatchedTokensContents(store.users, Batches(members), t);
        }
      }
      if |r| == 0 then
        None
      else Some(r)
  }

  /** The lookup behind each notice kind: assignees with the trimmed test
      for reminders; the group's caretakers other than the assignees, plain
      test, for due and missed alerts. */
  function LookupFor(x: Intent, store: Store): (r: Option<(Admission, TokenFilter)>)
    ensures r.Some? && x.kind in {OneHourReminder, DueReminder} ==>
      r.value == (Admission(x.assignees, false, []), Trimmed) && |x.assignees| > 0
    ensures r.Some? && x.kind in {DueCaretakerAlert, MissedCaretakerAlert} ==>
      && x.groupId in store.groups && |store.groups[x.groupId].members| > 0
      && r.value == (Admission(store.groups[x.groupId].members, true, x.assignees), Plain)
    ensures r.None? <==>
      if x.kind in {OneHourReminder, DueReminder} then |x.assignees| == 0
      else x.groupId !in store.groups || |store.groups[x.groupId].members| == 0
  {
    match x.kind
    case OneHourReminder | DueReminder =>
      if |x.assignees| == 0 then None
      else Some((Admission(x.assignees, false, []), Trimmed))
    case DueCaretakerAlert | MissedCaretakerAlert =>
      if x.groupId !in store.groups || |store.groups[x.groupId].members| == 0 then None
      else Some((Admission(store.groups[x.groupId].members, true, x.assignees), Plain))
  }

  /** The tokens a notice is sent to, or `None` when no multicast is made. */
  function Resolve(x: Intent, store: Store): (r: Option<seq<string>>)
    ensures r.Some? ==> |r.value| > 0 && LookupFor(x, store).Some?
    ensures r.Some? ==> forall t :: t in r.value <==>
      var (a, f) := LookupFor(x, store).value;
      exists u :: u in store.users && Admits(a, u) && Token(t) in u.fcmTokens && Keeps(f, Token(t))
    ensures r.None? && LookupFor(x, store).Some? ==> |CollectTokens(store.users, LookupFor(x, store).value.0, LookupFor(x, store).value.1)| == 0
  {
    match LookupFor(x, store)
    case None => None
    case Some((a, f)) =>
      var tokens := CollectTokens(store.users, a, f);
      if |tokens| == 0 then None else Some(tokens)
  }

  /** A caretaker alert never reaches an assignee: every token it is sent to
      is held by a caretaker member of the group who is not an assignee. */
  lemma AlertsSkipAssignees(x: Intent, store: Store, t: string)
    requires x.kind in {DueCaretakerAlert, MissedCaretakerAlert}
    requires Resolve(x, store).Some? && t in Resolve(x, store).value
    ensures exists u :: (u in store.users && u.id in store.groups[x.groupId].members
      && u.role == Caretaker && u.id !in x.assignees && Token(t) in u.fcmTokens)
  {
  }

  /** Every token a notice is sent to is a non-empty string. */
  lemma ResolvedTokensNonEmpty(x: Intent, store: Store, t: string)
    requires Resolve(x, store).Some? && t in Resolve(x, store).value
    ensures |t| > 0
  {
  }

}
