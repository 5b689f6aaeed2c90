/**
 * The row loop of the registration sheet sync.  A parsed row is reduced to what the loop looks at:
 * whether it is valid, the comparison key of its mobile number and that of its email.
 */
module RegistrationSync {
  import opened Common

  type UserId = nat

  datatype Row = Row(valid: bool, phone: string, email: Option<string>)

  /** Users by comparison key, the users that have a member record, and the next unused user id. */
  datatype Tables = Tables(
    byPhone: map<string, UserId>,
    byEmail: map<string, UserId>,
    members: set<UserId>,
    next: UserId)

  datatype Action = Insert | Link | Update | Skip | Fail

  ghost predicate WellFormed(t: Tables) {
    && (forall k :: k in t.byPhone ==> t.byPhone[k] < t.next)
    && (forall k :: k in t.byEmail ==> t.byEmail[k] < t.next)
    && (forall u :: u in t.members ==> u < t.next)
  }

  // ---------------------------------------------------------------- what each row should yield

  predicate SameEmail(a: Row, b: Row) { a.email.Some? && a.email == b.email }

  /** A valid row that repeats neither the number nor the email of an accepted row above it. */
  ghost predicate Accepted(rows: seq<Row>, i: nat)
    requires i < |rows|
    decreases i
  {
    && rows[i].valid
    && forall j :: 0 <= j < i && Accepted(rows, j) ==> rows[j].phone != rows[i].phone && !SameEmail(rows[j], rows[i])
  }

  datatype Match = Nobody | One(user: UserId) | Two

  function Lookup(users: map<string, UserId>, key: string): Option<UserId> {
    if key in users then Some(users[key]) else None
  }

  /** Who a row identifies; two different users cannot be merged. */
  function MatchOf(t: Tables, row: Row): Match {
    var phone := Lookup(t.byPhone, row.phone);
    var email := if row.email.Some? then Lookup(t.byEmail, row.email.value) else None;
    if phone.Some? && email.Some? && phone != email then Two
    else if phone.Some? then One(phone.value)
    else if email.Some? then One(email.value)
    else Nobody
  }

  /** What a dry run reports for a row: a function of the rows above it and of the initial tables. */
  ghost function Planned(t: Tables, rows: seq<Row>, i: nat): Action
    requires i < |rows|
  {
    if !rows[i].valid then Fail
    else if !Accepted(rows, i) then Skip
    else
      match MatchOf(t, rows[i])
      case Two => Fail
      case Nobody => Insert
      case One(u) => if u in t.members then Update else Link
  }

  /** An accepted row above `i` resolves to user `u` and was written. */
  ghost predicate WrittenBefore(t: Tables, rows: seq<Row>, ok: seq<bool>, i: nat, u: UserId)
    requires i <= |rows| == |ok|
  {
    exists j :: 0 <= j < i && Accepted(rows, j) && MatchOf(t, rows[j]) == One(u) && ok[j]
  }

  /** What a write does with a row, when `ok` tells which row writes succeed. */
  ghost function Performed(t: Tables, rows: seq<Row>, ok: seq<bool>, i: nat): Action
    requires i < |rows| == |ok|
  {
    var planned := Planned(t, rows, i);
    if planned == Fail || planned == Skip then planned
    else if !ok[i] then Fail
    else if planned == Link && WrittenBefore(t, rows, ok, i, MatchOf(t, rows[i]).user) then Update
    else planned
  }

  function Count(actions: seq<Action>, a: Action): nat {
    if actions == [] then 0
    else Count(actions[..|actions| - 1], a) + if actions[|actions| - 1] == a then 1 else 0
  }

  // ---------------------------------------------------------------- the loop

  ghost predicate SeenOk(rows: seq<Row>, i: nat, phones: set<string>, emails: set<string>)
    requires i <= |rows|
  {
    && (forall k :: k in phones <==> exists j :: 0 <= j < i && Accepted(rows, j) && rows[j].phone == k)
    && (forall k :: k in emails <==> exists j :: 0 <= j < i && Accepted(rows, j) && rows[j].email == Some(k))
  }

  lemma AcceptedIffUnseen(rows: seq<Row>, i: nat, phones: set<string>, emails: set<string>)
    requires i < |rows| && SeenOk(rows, i, phones, emails) && rows[i].valid
    ensures Accepted(rows, i) <==>
      rows[i].phone !in phones && (rows[i].email.Some? ==> rows[i].email.value !in emails)
  {
  }

  lemma SeenStep(rows: seq<Row>, i: nat, phones: set<string>, emails: set<string>)
    requires i < |rows| && SeenOk(rows, i, phones, emails)
    ensures if Accepted(rows, i)
      then SeenOk(rows, i + 1, phones + {rows[i].phone},
                  if rows[i].email.Some? then emails + {rows[i].email.value} else emails)
      else SeenOk(rows, i + 1, phones, emails)
  {
  }

  /** Row `j` was inserted: its keys lead to one new user, who has a member record. */
  ghost predicate Inserted(cur: Tables, row: Row) {
    && row.phone in cur.byPhone && cur.byPhone[row.phone] in cur.members
    && (row.email.Some? ==> Lookup(cur.byEmail, row.email.value) == Some(cur.byPhone[row.phone]))
  }

  ghost predicate SameLookups(t: Tables, cur: Tables, row: Row) {
    && Lookup(cur.byPhone, row.phone) == Lookup(t.byPhone, row.phone)
    && (row.email.Some? ==> Lookup(cur.byEmail, row.email.value) == Lookup(t.byEmail, row.email.value))
  }

  /** The first `i` rows of a write have left the keys they use in order. */
  ghost predicate KeysWritten(t: Tables, rows: seq<Row>, ok: seq<bool>, i: nat, cur: Tables)
    requires i <= |rows| == |ok|
  {
    forall j :: 0 <= j < i && Accepted(rows, j) ==>
      if MatchOf(t, rows[j]) == Nobody && ok[j] then Inserted(cur, rows[j]) else SameLookups(t, cur, rows[j])
  }

  /** Of the users known at the start, those with a member record after the first `i` rows. */
  ghost predicate MembersWritten(t: Tables, rows: seq<Row>, ok: seq<bool>, i: nat, cur: Tables)
    requires i <= |rows| == |ok|
  {
    forall u: UserId :: u < t.next ==> (u in cur.members <==> u in t.members || WrittenBefore(t, rows, ok, i, u))
  }

  /** The tables after the first `i` rows of a write. */
  ghost predicate Written(t: Tables, rows: seq<Row>, ok: seq<bool>, i: nat, cur: Tables)
    requires i <= |rows| == |ok|
  {
    && WellFormed(cur) && t.next <= cur.next
    && KeysWritten(t, rows, ok, i, cur)
    && MembersWritten(t, rows, ok, i, cur)
  }

  /** Keys no accepted row has used still lead where they led at the start. */
  ghost predicate Untouched(t: Tables, cur: Tables, phones: set<string>, emails: set<string>) {
    && (forall k :: k !in phones ==> Lookup(cur.byPhone, k) == Lookup(t.byPhone, k))
    && (forall k :: k !in emails ==> Lookup(cur.byEmail, k) == Lookup(t.byEmail, k))
  }

  lemma WrittenBeforeStep(t: Tables, rows: seq<Row>, ok: seq<bool>, i: nat, u: UserId)
    requires i < |rows| == |ok|
    ensures WrittenBefore(t, rows, ok, i + 1, u)
      <==> WrittenBefore(t, rows, ok, i, u) || (Accepted(rows, i) && MatchOf(t, rows[i]) == One(u) && ok[i])
  {
  }

  lemma MembersStep(t: Tables, rows: seq<Row>, ok: seq<bool>, i: nat, cur: Tables, next: Tables)
    requires i < |rows| == |ok| && MembersWritten(t, rows, ok, i, cur)
    requires forall u: UserId :: u < t.next ==> (u in next.members
      <==> u in cur.members || (Accepted(rows, i) && MatchOf(t, rows[i]) == One(u) && ok[i]))
    ensures MembersWritten(t, rows, ok, i + 1, next)
  {
    hide Accepted, MatchOf, WrittenBefore;
    forall u: UserId | u < t.next
      ensures u in next.members <==> u in t.members || WrittenBefore(t, rows, ok, i + 1, u)
    {
      WrittenBeforeStep(t, rows, ok, i, u);
    }
  }

  /** A row that writes nothing new to the tables. */
  lemma WrittenSame(t: Tables, rows: seq<Row>, ok: seq<bool>, i: nat, cur: Tables)
    requires i < |rows| == |ok| && Written(t, rows, ok, i, cur)
    requires Accepted(rows, i) ==> SameLookups(t, cur, rows[i]) && (ok[i] ==> MatchOf(t, rows[i]) != Nobody)
    requires Accepted(rows, i) && ok[i] && MatchOf(t, rows[i]).One? ==> MatchOf(t, rows[i]).user in cur.members
    ensures Written(t, rows, ok, i + 1, cur)
  {
    hide Accepted, MatchOf, WrittenBefore, MembersWritten, WellFormed, SameLookups, Inserted;
    MembersStep(t, rows, ok, i, cur, cur);
  }

  function Joined(cur: Tables, u: UserId): Tables {
    cur.(members := cur.members + {u})
  }

  lemma WrittenLink(t: Tables, rows: seq<Row>, ok: seq<bool>, i: nat, cur: Tables, u: UserId)
    requires i < |rows| == |ok| && Written(t, rows, ok, i, cur)
    requires Accepted(rows, i) && ok[i] && MatchOf(t, rows[i]) == One(u) && SameLookups(t, cur, rows[i]) && u < t.next
    ensures Written(t, rows, ok, i + 1, Joined(cur, u))
  {
    hide Accepted, MatchOf, WrittenBefore, MembersWritten, KeysWritten;
    MembersStep(t, rows, ok, i, cur, Joined(cur, u));
    KeysLink(t, rows, ok, i, cur, u);
  }

  lemma KeysLink(t: Tables, rows: seq<Row>, ok: seq<bool>, i: nat, cur: Tables, u: UserId)
    requires i < |rows| == |ok| && KeysWritten(t, rows, ok, i, cur)
    requires MatchOf(t, rows[i]) == One(u) && SameLookups(t, cur, rows[i])
    ensures KeysWritten(t, rows, ok, i + 1, Joined(cur, u))
  {
    hide Accepted, MatchOf, Lookup;
  }

  function Registered(cur: Tables, row: Row): Tables {
    Tables(cur.byPhone[row.phone := cur.next],
           if row.email.Some? then cur.byEmail[row.email.value := cur.next] else cur.byEmail,
           cur.members + {cur.next},
           cur.next + 1)
  }

  lemma AcceptedKeys(rows: seq<Row>, i: nat)
    requires i < |rows|
    ensures Accepted(rows, i) ==> rows[i].valid
    ensures Accepted(rows, i) ==> forall j :: 0 <= j < i && Accepted(rows, j) ==>
      rows[j].phone != rows[i].phone && !SameEmail(rows[j], rows[i])
  {
  }

  lemma WrittenInsert(t: Tables, rows: seq<Row>, ok: seq<bool>, i: nat, cur: Tables)
    requires i < |rows| == |ok| && Written(t, rows, ok, i, cur)
    requires Accepted(rows, i) && ok[i] && MatchOf(t, rows[i]) == Nobody
    ensures Written(t, rows, ok, i + 1, Registered(cur, rows[i]))
  {
    hide Accepted, MatchOf, WrittenBefore, MembersWritten, KeysWritten, WellFormed;
    MembersStep(t, rows, ok, i, cur, Registered(cur, rows[i]));
    KeysInsert(t, rows, ok, i, cur);
    RegisteredRow(cur, rows[i]);
  }

  lemma KeysInsert(t: Tables, rows: seq<Row>, ok: seq<bool>, i: nat, cur: Tables)
    requires i < |rows| == |ok| && KeysWritten(t, rows, ok, i, cur) && WellFormed(cur)
    requires Accepted(rows, i) && ok[i] && MatchOf(t, rows[i]) == Nobody
    ensures KeysWritten(t, rows, ok, i + 1, Registered(cur, rows[i]))
  {
    var next := Registered(cur, rows[i]);
    AcceptedKeys(rows, i);
    RegisteredRow(cur, rows[i]);
    hide Accepted, MatchOf, SameEmail, SameLookups, Inserted, Registered;
    forall j | 0 <= j < i && Accepted(rows, j)
      ensures if MatchOf(t, rows[j]) == Nobody && ok[j] then Inserted(next, rows[j]) else SameLookups(t, next, rows[j])
    {
      RegisteredOther(t, cur, rows[i], rows[j]);
    }
  }

  lemma RegisteredOther(t: Tables, cur: Tables, row: Row, other: Row)
    requires other.phone != row.phone && !SameEmail(other, row)
    ensures Inserted(cur, other) ==> Inserted(Registered(cur, row), other)
    ensures SameLookups(t, cur, other) ==> SameLookups(t, Registered(cur, row), other)
  {
  }

  lemma RegisteredRow(cur: Tables, row: Row)
    requires WellFormed(cur)
    ensures Inserted(Registered(cur, row), row) && WellFormed(Registered(cur, row))
  {
  }

  /** Everything but this row's keys leads where it led. */
  ghost predicate OnlyKeysOf(row: Row, cur: Tables, next: Tables) {
    && (forall k :: k != row.phone ==> Lookup(next.byPhone, k) == Lookup(cur.byPhone, k))
    && (forall k :: Some(k) != row.email ==> Lookup(next.byEmail, k) == Lookup(cur.byEmail, k))
  }

  /** The part of the loop body behind the duplicate checks. */
  method Process(ghost t: Tables, rows: seq<Row>, ok: seq<bool>, i: nat, dryRun: bool, cur: Tables)
    returns (action: Action, next: Tables)
    requires WellFormed(t) && i < |rows| == |ok| && Accepted(rows, i)
    requires if dryRun then cur == t else Written(t, rows, ok, i, cur) && SameLookups(t, cur, rows[i])
    ensures action == Expected(t, rows, ok, dryRun, i)
    ensures if dryRun then next == t else Written(t, rows, ok, i + 1, next) && OnlyKeysOf(rows[i], cur, next)
    ensures !dryRun ==> |next.members| == |cur.members| + if MakesMember(action) then 1 else 0
  {
    WrittenWell(t, rows, ok, i, cur, dryRun);
    SameEffect(cur, rows[i]);
    hide Written, WrittenBefore, Joined, Registered, OnlyKeysOf;
    next := cur;
    var row := rows[i];
    var userByPhone := Lookup(cur.byPhone, row.phone);
    var userByEmail := if row.email.Some? then Lookup(cur.byEmail, row.email.value) else None;
    assert MatchOf(cur, row) == MatchOf(t, row);
    if userByPhone.Some? && userByEmail.Some? && userByPhone != userByEmail {
      assert MatchOf(t, row) == Two;
      action := Fail;
      if !dryRun {
        WrittenSame(t, rows, ok, i, cur);
      }
      return;
    }
    var user := if userByPhone.Some? then userByPhone else userByEmail;
    if user.Some? {
      assert MatchOf(t, row) == One(user.value);
      action := if user.value in cur.members then Update else Link;
      MatchKnown(t, row);
      if !dryRun {
        MemberIff(t, rows, ok, i, cur, user.value);
        if !ok[i] {
          action := Fail;
          WrittenSame(t, rows, ok, i, cur);
        } else if action == Update {
          WrittenSame(t, rows, ok, i, cur);
        } else {
          next := Joined(cur, user.value);
          JoinedEffect(cur, row, user.value);
          WrittenLink(t, rows, ok, i, cur, user.value);
        }
      }
    } else {
      assert MatchOf(t, row) == Nobody;
      action := Insert;
      if !dryRun {
        if ok[i] {
          next := Registered(cur, row);
          RegisteredEffect(cur, row);
          WrittenInsert(t, rows, ok, i, cur);
        } else {
          action := Fail;
          WrittenSame(t, rows, ok, i, cur);
        }
      }
    }
  }

  predicate MakesMember(a: Action) { a == Insert || a == Link }

  lemma SameEffect(cur: Tables, row: Row)
    ensures OnlyKeysOf(row, cur, cur)
  {
  }

  lemma JoinedEffect(cur: Tables, row: Row, u: UserId)
    requires u !in cur.members
    ensures OnlyKeysOf(row, cur, Joined(cur, u)) && |Joined(cur, u).members| == |cur.members| + 1
  {
  }

  lemma RegisteredEffect(cur: Tables, row: Row)
    requires cur.next !in cur.members
    ensures OnlyKeysOf(row, cur, Registered(cur, row)) && |Registered(cur, row).members| == |cur.members| + 1
  {
  }

  lemma WrittenWell(t: Tables, rows: seq<Row>, ok: seq<bool>, i: nat, cur: Tables, dryRun: bool)
    requires i <= |rows| == |ok| && (!dryRun ==> Written(t, rows, ok, i, cur))
    ensures !dryRun ==> cur.next !in cur.members
  {
  }

  lemma MemberIff(t: Tables, rows: seq<Row>, ok: seq<bool>, i: nat, cur: Tables, u: UserId)
    requires i <= |rows| == |ok| && Written(t, rows, ok, i, cur) && u < t.next
    ensures u in cur.members <==> u in t.members || WrittenBefore(t, rows, ok, i, u)
  {
  }

  lemma MatchKnown(t: Tables, row: Row)
    requires WellFormed(t) && MatchOf(t, row).One?
    ensures MatchOf(t, row).user < t.next
  {
  }

  /**
   * The loop in both modes.  `ok` says which row writes succeed; a dry run ignores it.  Every row
   * gets exactly one action, the counters count the actions, a dry run leaves the tables alone, and
   * a write adds exactly one member record for every inserted or linked row.
   */
  method Run(t: Tables, rows: seq<Row>, ok: seq<bool>, dryRun: bool)
    returns (actions: seq<Action>, inserted: nat, linked: nat, updated: nat, skipped: nat, failed: nat, after: Tables)
    requires WellFormed(t) && |ok| == |rows|
    ensures |actions| == |rows| && Reported(t, rows, ok, dryRun, actions)
    ensures Counted(actions, inserted, linked, updated, skipped, failed)
    ensures if dryRun then after == t else Written(t, rows, ok, |rows|, after)
    ensures !dryRun ==> |after.members| == |t.members| + inserted + linked
    ensures OthersUntouched(t, rows, after)
  {
    hide Accepted, MatchOf, Written, WrittenBefore, SeenOk, Reported, Counted;
    actions, inserted, linked, updated, skipped, failed, after := [], 0, 0, 0, 0, 0, t;
    var seenPhones: set<string>, seenEmails: set<string> := {}, {};
    Start(t, rows, ok, dryRun);
    for i := 0 to |rows|
      invariant |actions| == i && Reported(t, rows, ok, dryRun, actions)
      invariant Counted(actions, inserted, linked, updated, skipped, failed)
      invariant SeenOk(rows, i, seenPhones, seenEmails)
      invariant if dryRun then after == t
        else Written(t, rows, ok, i, after) && Untouched(t, after, seenPhones, seenEmails)
      invariant !dryRun ==> |after.members| == |t.members| + inserted + linked
    {
      var row := rows[i];
      SeenStep(rows, i, seenPhones, seenEmails);
      AcceptedKeys(rows, i);
      var action;
      if !row.valid {
        NotAccepted(t, rows, ok, i, after, dryRun);
        action := Fail;
      } else if row.phone in seenPhones || (row.email.Some? && row.email.value in seenEmails) {
        AcceptedIffUnseen(rows, i, seenPhones, seenEmails);
        NotAccepted(t, rows, ok, i, after, dryRun);
        action := Skip;
      } else {
        AcceptedIffUnseen(rows, i, seenPhones, seenEmails);
        seenPhones := seenPhones + {row.phone};
        if row.email.Some? {
          seenEmails := seenEmails + {row.email.value};
        }
        action, after := Process(t, rows, ok, i, dryRun, after);
      }
      CountedStep(actions, action, inserted, linked, updated, skipped, failed);
      match action {
        case Insert => inserted := inserted + 1;
        case Link => linked := linked + 1;
        case Update => updated := updated + 1;
        case Skip => skipped := skipped + 1;
        case Fail => failed := failed + 1;
      }
      ReportedStep(t, rows, ok, dryRun, actions, action);
      actions := actions + [action];
    }
    UnusedUntouched(t, rows, after, seenPhones, seenEmails, dryRun);
  }

  /** Keys that no accepted row carries lead where they led. */
  ghost predicate OthersUntouched(t: Tables, rows: seq<Row>, after: Tables) {
    && (forall k :: (forall j :: 0 <= j < |rows| && Accepted(rows, j) ==> rows[j].phone != k) ==>
          Lookup(after.byPhone, k) == Lookup(t.byPhone, k))
    && (forall k :: (forall j :: 0 <= j < |rows| && Accepted(rows, j) ==> rows[j].email != Some(k)) ==>
          Lookup(after.byEmail, k) == Lookup(t.byEmail, k))
  }

  lemma UnusedUntouched(t: Tables, rows: seq<Row>, after: Tables, phones: set<string>, emails: set<string>,
      dryRun: bool)
    requires SeenOk(rows, |rows|, phones, emails)
    requires if dryRun then after == t else Untouched(t, after, phones, emails)
    ensures OthersUntouched(t, rows, after)
  {
    hide Accepted, Lookup;
  }

  ghost function Expected(t: Tables, rows: seq<Row>, ok: seq<bool>, dryRun: bool, i: nat): Action
    requires i < |rows| == |ok|
  {
    if dryRun then Planned(t, rows, i) else Performed(t, rows, ok, i)
  }

  ghost predicate Reported(t: Tables, rows: seq<Row>, ok: seq<bool>, dryRun: bool, actions: seq<Action>)
    requires |actions| <= |rows| == |ok|
  {
    forall i :: 0 <= i < |actions| ==> actions[i] == Expected(t, rows, ok, dryRun, i)
  }

  lemma ReportedStep(t: Tables, rows: seq<Row>, ok: seq<bool>, dryRun: bool, actions: seq<Action>, action: Action)
    requires |actions| < |rows| == |ok| && Reported(t, rows, ok, dryRun, actions)
    requires action == Expected(t, rows, ok, dryRun, |actions|)
    ensures Reported(t, rows, ok, dryRun, actions + [action])
  {
  }

  ghost predicate Counted(actions: seq<Action>, inserted: nat, linked: nat, updated: nat, skipped: nat, failed: nat) {
    && inserted == Count(actions, Insert) && linked == Count(actions, Link) && updated == Count(actions, Update)
    && skipped == Count(actions, Skip) && failed == Count(actions, Fail)
  }

  lemma CountedStep(actions: seq<Action>, action: Action, inserted: nat, linked: nat, updated: nat, skipped: nat,
      failed: nat)
    requires Counted(actions, inserted, linked, updated, skipped, failed)
    ensures Counted(actions + [action],
      if action == Insert then inserted + 1 else inserted,
      if action == Link then linked + 1 else linked,
      if action == Update then updated + 1 else updated,
      if action == Skip then skipped + 1 else skipped,
      if action == Fail then failed + 1 else failed)
  {
    assert (actions + [action])[..|actions|] == actions;
  }

  lemma Start(t: Tables, rows: seq<Row>, ok: seq<bool>, dryRun: bool)
    requires WellFormed(t) && |rows| == |ok|
    ensures SeenOk(rows, 0, {}, {}) && Written(t, rows, ok, 0, t)
    ensures Reported(t, rows, ok, dryRun, []) && Counted([], 0, 0, 0, 0, 0)
  {
  }

  lemma NotAccepted(t: Tables, rows: seq<Row>, ok: seq<bool>, i: nat, cur: Tables, dryRun: bool)
    requires i < |rows| == |ok| && !Accepted(rows, i)
    requires !dryRun ==> Written(t, rows, ok, i, cur)
    ensures Planned(t, rows, i) == Performed(t, rows, ok, i) == if rows[i].valid then Skip else Fail
    ensures !dryRun ==> Written(t, rows, ok, i + 1, cur)
  {
    if !dryRun {
      WrittenSame(t, rows, ok, i, cur);
    }
  }

  // ---------------------------------------------------------------- the two modes compared

  /** Every row yields exactly one of the five outcomes. */
  lemma {:induction false} CountsPartition(actions: seq<Action>)
    ensures Count(actions, Insert) + Count(actions, Link) + Count(actions, Update)
          + Count(actions, Skip) + Count(actions, Fail) == |actions|
  {
    if actions != [] {
      CountsPartition(actions[..|actions| - 1]);
    }
  }

  /** `wet` is `dry`, except that some links have become updates. */
  ghost predicate LinksTurned(dry: seq<Action>, wet: seq<Action>) {
    && |dry| == |wet|
    && forall i :: 0 <= i < |dry| ==> wet[i] == dry[i] || (dry[i] == Link && wet[i] == Update)
  }

  lemma CountLast(actions: seq<Action>)
    requires actions != []
    ensures forall a ::
      Count(actions, a) == Count(actions[..|actions| - 1], a) + if actions[|actions| - 1] == a then 1 else 0
  {
  }

  lemma TurnedFront(dry: seq<Action>, wet: seq<Action>)
    requires LinksTurned(dry, wet) && dry != []
    ensures var n := |dry| - 1;
      && LinksTurned(dry[..n], wet[..n])
      && (wet[n] == dry[n] || (dry[n] == Link && wet[n] == Update))
      && (wet == dry <==> wet[..n] == dry[..n] && wet[n] == dry[n])
  {
    var n := |dry| - 1;
    assert dry == dry[..n] + [dry[n]] && wet == wet[..n] + [wet[n]];
  }

  lemma {:induction false} TurnedCounts(dry: seq<Action>, wet: seq<Action>)
    requires LinksTurned(dry, wet)
    ensures forall a :: a != Link && a != Update ==> Count(wet, a) == Count(dry, a)
    ensures Count(wet, Link) + Count(wet, Update) == Count(dry, Link) + Count(dry, Update)
    ensures Count(wet, Link) <= Count(dry, Link)
    ensures Count(wet, Link) == Count(dry, Link) <==> wet == dry
  {
    if dry != [] {
      var n := |dry| - 1;
      TurnedFront(dry, wet);
      TurnedCounts(dry[..n], wet[..n]);
      CountLast(dry);
      CountLast(wet);
      hide *;
    }
  }

  /** Two accepted rows resolve to the same user, who had no member record at the start. */
  ghost predicate MemberlessUserTwice(t: Tables, rows: seq<Row>) {
    exists i, j :: 0 <= j < i < |rows| && Accepted(rows, i) && Accepted(rows, j)
      && MatchOf(t, rows[i]).One? && MatchOf(t, rows[i]) == MatchOf(t, rows[j])
      && MatchOf(t, rows[i]).user !in t.members
  }

  lemma PerformedTurns(t: Tables, rows: seq<Row>, ok: seq<bool>, i: nat)
    requires i < |rows| == |ok| && forall j :: 0 <= j < |ok| ==> ok[j]
    ensures var planned, performed := Planned(t, rows, i), Performed(t, rows, ok, i);
      && (performed == planned || (planned == Link && performed == Update))
      && (performed != planned ==> MemberlessUserTwice(t, rows))
  {
    hide Accepted, MatchOf;
  }

  lemma TwiceTurns(t: Tables, rows: seq<Row>, ok: seq<bool>)
    requires |rows| == |ok| && (forall j :: 0 <= j < |ok| ==> ok[j]) && MemberlessUserTwice(t, rows)
    ensures exists i :: 0 <= i < |rows| && Performed(t, rows, ok, i) != Planned(t, rows, i)
  {
    AllAcceptedValid(rows);
    hide Accepted, MatchOf;
    var i, j :| 0 <= j < i < |rows| && Accepted(rows, i) && Accepted(rows, j)
      && MatchOf(t, rows[i]).One? && MatchOf(t, rows[i]) == MatchOf(t, rows[j])
      && MatchOf(t, rows[i]).user !in t.members;
    assert WrittenBefore(t, rows, ok, i, MatchOf(t, rows[i]).user);
    assert Performed(t, rows, ok, i) != Planned(t, rows, i);
  }

  lemma AllAcceptedValid(rows: seq<Row>)
    ensures forall i :: 0 <= i < |rows| && Accepted(rows, i) ==> rows[i].valid
  {
    forall i | 0 <= i < |rows| && Accepted(rows, i)
      ensures rows[i].valid
    {
      AcceptedKeys(rows, i);
    }
  }

  /** The two modes differ, if at all, in links turned into updates, and only for such a user. */
  lemma ModesTurn(t: Tables, rows: seq<Row>, ok: seq<bool>, dry: seq<Action>, wet: seq<Action>)
    requires |rows| == |ok| == |dry| == |wet| && forall i :: 0 <= i < |ok| ==> ok[i]
    requires Reported(t, rows, ok, true, dry) && Reported(t, rows, ok, false, wet)
    ensures LinksTurned(dry, wet)
    ensures wet == dry <==> !MemberlessUserTwice(t, rows)
  {
    forall i | 0 <= i < |rows|
      ensures wet[i] == dry[i] || (dry[i] == Link && wet[i] == Update)
      ensures wet[i] != dry[i] ==> MemberlessUserTwice(t, rows)
    {
      PerformedTurns(t, rows, ok, i);
    }
    hide MemberlessUserTwice, Planned, Performed;
    if MemberlessUserTwice(t, rows) {
      TwiceTurns(t, rows, ok);
      var i :| 0 <= i < |rows| && Performed(t, rows, ok, i) != Planned(t, rows, i);
      assert wet[i] != dry[i];
    } else {
      assert wet == dry;
    }
  }

  /**
   * When no row write fails, a dry run predicts the write: equal numbers of inserted, skipped and
   * failed rows and an equal sum of linked and updated ones.  The write links at most as many, and
   * exactly as many iff no user without a member record is reached by two accepted rows.
   */
  lemma DryRunSimulatesWrite(t: Tables, rows: seq<Row>, ok: seq<bool>, dry: seq<Action>, wet: seq<Action>)
    requires |rows| == |ok| == |dry| == |wet| && forall i :: 0 <= i < |ok| ==> ok[i]
    requires Reported(t, rows, ok, true, dry) && Reported(t, rows, ok, false, wet)
    ensures Count(wet, Insert) == Count(dry, Insert) && Count(wet, Skip) == Count(dry, Skip) &&
      Count(wet, Fail) == Count(dry, Fail)
    ensures Count(wet, Link) + Count(wet, Update) == Count(dry, Link) + Count(dry, Update)
    ensures Count(wet, Link) <= Count(dry, Link)
    ensures Count(wet, Link) == Count(dry, Link) <==> !MemberlessUserTwice(t, rows)
  {
    ModesTurn(t, rows, ok, dry, wet);
    TurnedCounts(dry, wet);
    hide *;
  }

  /** Whatever fails, a row links only a user without a member record, and no two rows the same user. */
  lemma NoUserLinkedTwice(t: Tables, rows: seq<Row>, ok: seq<bool>, i: nat, j: nat)
    requires j < i < |rows| == |ok| && Performed(t, rows, ok, i) == Link
    ensures MatchOf(t, rows[i]).One? && MatchOf(t, rows[i]).user !in t.members
    ensures Performed(t, rows, ok, j) == Link ==> MatchOf(t, rows[i]) != MatchOf(t, rows[j])
  {
    hide Accepted, MatchOf;
  }

  /** A user reached by number on one row and by email on the next: two links foretold, one made. */
  lemma LinkedThenUpdated()
    ensures var t := Tables(map["1" := 0], map["e" := 0], {}, 1);
      var rows := [Row(true, "1", None), Row(true, "2", Some("e"))];
      && MemberlessUserTwice(t, rows)
      && Planned(t, rows, 0) == Planned(t, rows, 1) == Link
      && Performed(t, rows, [true, true], 0) == Link && Performed(t, rows, [true, true], 1) == Update
  {
    var t := Tables(map["1" := 0], map["e" := 0], {}, 1);
    var rows := [Row(true, "1", None), Row(true, "2", Some("e"))];
    assert Accepted(rows, 0) && Accepted(rows, 1);
    assert MatchOf(t, rows[0]) == MatchOf(t, rows[1]) == One(0);
    assert WrittenBefore(t, rows, [true, true], 1, 0);
    assert 0 <= 0 < 1 < |rows| && MatchOf(t, rows[1]).user !in t.members;
  }

  // ---------------------------------------------------------------- outcomes in terms of the tables

  /** The row's mobile number or its email leads to that user. */
  predicate Names(t: Tables, row: Row, u: UserId) {
    || (row.phone in t.byPhone && t.byPhone[row.phone] == u)
    || (row.email.Some? && row.email.value in t.byEmail && t.byEmail[row.email.value] == u)
  }

  /** The row leads to that user and to nobody else. */
  ghost predicate NamesOnly(t: Tables, row: Row, u: UserId) {
    Names(t, row, u) && forall v :: Names(t, row, v) ==> v == u
  }

  ghost predicate NamesTwo(t: Tables, row: Row) {
    exists u, v :: u != v && Names(t, row, u) && Names(t, row, v)
  }

  ghost predicate NamesNobody(t: Tables, row: Row) {
    forall u :: !Names(t, row, u)
  }

  /** Whom a row identifies, in terms of the two lookup tables. */
  lemma MatchNames(t: Tables, row: Row)
    ensures MatchOf(t, row) == Two <==> NamesTwo(t, row)
    ensures MatchOf(t, row) == Nobody <==> NamesNobody(t, row)
    ensures forall u :: MatchOf(t, row) == One(u) <==> NamesOnly(t, row, u)
  {
    var phone := Lookup(t.byPhone, row.phone);
    var email := if row.email.Some? then Lookup(t.byEmail, row.email.value) else None;
    assert phone.Some? ==> Names(t, row, phone.value);
    assert email.Some? ==> Names(t, row, email.value);
    if phone.Some? && email.Some? && phone != email {
      assert NamesTwo(t, row);
    }
  }

  /** An accepted row above already carries the row's mobile number or email. */
  ghost predicate Repeats(rows: seq<Row>, i: nat)
    requires i < |rows|
  {
    exists j :: 0 <= j < i && Accepted(rows, j) && (rows[j].phone == rows[i].phone || SameEmail(rows[j], rows[i]))
  }

  lemma AcceptedIff(rows: seq<Row>, i: nat)
    requires i < |rows|
    ensures Accepted(rows, i) <==> rows[i].valid && !Repeats(rows, i)
  {
  }

  /**
   * What a dry run reports: an invalid row fails, a row repeating an accepted one is skipped, one
   * naming two users fails, one naming nobody is an insertion, and one naming a single user an
   * update or a link by whether that user has a member record.
   */
  lemma DryOutcomeIff(t: Tables, rows: seq<Row>, i: nat)
    requires i < |rows|
    ensures var row, action := rows[i], Planned(t, rows, i);
      && (action == Skip <==> row.valid && Repeats(rows, i))
      && (action == Fail <==> !row.valid || (!Repeats(rows, i) && NamesTwo(t, row)))
      && (action == Insert <==> row.valid && !Repeats(rows, i) && NamesNobody(t, row))
      && (action == Update <==> row.valid && !Repeats(rows, i) && exists u :: NamesOnly(t, row, u) && u in t.members)
      && (action == Link <==> row.valid && !Repeats(rows, i) && exists u :: NamesOnly(t, row, u) && u !in t.members)
  {
    AcceptedIff(rows, i);
    MatchNames(t, rows[i]);
    hide Accepted, MatchOf, Repeats, NamesTwo, NamesNobody, NamesOnly;
    if MatchOf(t, rows[i]).One? {
      assert NamesOnly(t, rows[i], MatchOf(t, rows[i]).user);
    }
  }

  /** A row above named only that user, was accepted, and its write succeeded. */
  ghost predicate MadeMemberAbove(t: Tables, rows: seq<Row>, ok: seq<bool>, i: nat, u: UserId)
    requires i <= |rows| == |ok|
  {
    exists j :: 0 <= j < i && rows[j].valid && !Repeats(rows, j) && NamesOnly(t, rows[j], u) && ok[j]
  }

  /** The user has a member record, from the start or since a row above. */
  ghost predicate HasRecord(t: Tables, rows: seq<Row>, ok: seq<bool>, i: nat, u: UserId)
    requires i <= |rows| == |ok|
  {
    u in t.members || MadeMemberAbove(t, rows, ok, i, u)
  }

  lemma WrittenBeforeIff(t: Tables, rows: seq<Row>, ok: seq<bool>, i: nat, u: UserId)
    requires i <= |rows| == |ok|
    ensures WrittenBefore(t, rows, ok, i, u) <==> MadeMemberAbove(t, rows, ok, i, u)
  {
    forall j | 0 <= j < i
      ensures Accepted(rows, j) && MatchOf(t, rows[j]) == One(u)
        <==> rows[j].valid && !Repeats(rows, j) && NamesOnly(t, rows[j], u)
    {
      AcceptedIff(rows, j);
      MatchNames(t, rows[j]);
    }
    hide Accepted, MatchOf, Repeats, NamesOnly;
  }

  /**
   * What a write does: the same, except that a failing row write fails the row, and that a user
   * without a member record is linked by the first row that succeeds and updated by later ones.
   */
  lemma WriteOutcomeIff(t: Tables, rows: seq<Row>, ok: seq<bool>, i: nat)
    requires i < |rows| == |ok|
    ensures var row, action, first := rows[i], Performed(t, rows, ok, i), rows[i].valid && !Repeats(rows, i);
      && (action == Skip <==> row.valid && Repeats(rows, i))
      && (action == Fail <==> !row.valid || (first && (NamesTwo(t, row) || !ok[i])))
      && (action == Insert <==> first && ok[i] && NamesNobody(t, row))
      && (action == Update <==> first && ok[i] && exists u :: NamesOnly(t, row, u) && HasRecord(t, rows, ok, i, u))
      && (action == Link <==> first && ok[i] && exists u :: NamesOnly(t, row, u) && !HasRecord(t, rows, ok, i, u))
  {
    AcceptedIff(rows, i);
    MatchNames(t, rows[i]);
    if MatchOf(t, rows[i]).One? {
      WrittenBeforeIff(t, rows, ok, i, MatchOf(t, rows[i]).user);
      assert NamesOnly(t, rows[i], MatchOf(t, rows[i]).user);
    }
    hide Accepted, MatchOf, Repeats, NamesTwo, NamesNobody, NamesOnly, WrittenBefore, MadeMemberAbove;
  }

  /** A mobile number and an email that belong to two members: the row fails in both modes. */
  lemma TwoMembersFail()
    ensures var t := Tables(map["1" := 0], map["e" := 1], {0, 1}, 2);
      var rows := [Row(true, "1", Some("e"))];
      Planned(t, rows, 0) == Fail && Performed(t, rows, [true], 0) == Fail
  {
    var t := Tables(map["1" := 0], map["e" := 1], {0, 1}, 2);
    var rows := [Row(true, "1", Some("e"))];
    assert Names(t, rows[0], 0) && Names(t, rows[0], 1);
    DryOutcomeIff(t, rows, 0);
    hide Planned;
  }

  // ---------------------------------------------------------------- running again

  /** Rows that found or made a member lead to that member now; the others are what they were. */
  lemma AfterWrite(t: Tables, rows: seq<Row>, ok: seq<bool>, after: Tables, i: nat)
    requires WellFormed(t) && |ok| == |rows| && (forall j :: 0 <= j < |ok| ==> ok[j])
    requires Written(t, rows, ok, |rows|, after) && i < |rows| && Accepted(rows, i)
    ensures MatchOf(t, rows[i]) == Two ==> MatchOf(after, rows[i]) == Two
    ensures MatchOf(t, rows[i]) != Two ==> MatchOf(after, rows[i]).One? && MatchOf(after, rows[i]).user in after.members
  {
    match MatchOf(t, rows[i])
    case Two =>
    case Nobody => assert Inserted(after, rows[i]);
    case One(u) =>
      MatchKnown(t, rows[i]);
      assert SameLookups(t, after, rows[i]);
      assert WrittenBefore(t, rows, ok, |rows|, u);
  }

  /**
   * After a write in which nothing failed, the same sheet inserts and links nothing, in either
   * mode: every row that had been inserted, linked or updated is an update, the others repeat.
   */
  lemma RerunOnlyUpdates(t: Tables, rows: seq<Row>, ok: seq<bool>, after: Tables, i: nat)
    requires WellFormed(t) && |ok| == |rows| && (forall j :: 0 <= j < |ok| ==> ok[j])
    requires Written(t, rows, ok, |rows|, after) && i < |rows|
    ensures var first := Performed(t, rows, ok, i);
      Planned(after, rows, i) == Performed(after, rows, ok, i)
        == if first == Skip || first == Fail then first else Update
  {
    if Accepted(rows, i) {
      AfterWrite(t, rows, ok, after, i);
      AcceptedKeys(rows, i);
    }
    hide Accepted, MatchOf, Written, WrittenBefore;
  }
}
