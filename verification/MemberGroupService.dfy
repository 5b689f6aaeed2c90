/** The membership service on the session's tables, operation by operation. */
module MemberGroupService {
  import opened Common
  import opened IdCodec
  import opened MemberGroups
  import opened MemberGroupProofs
  import opened MemberGroupRuns

  /** A method ends as its specification says: with its store, or with the tables it started from. */
  ghost predicate EndsAs<T>(before: Store, outcome: Outcome<T>, after: Store, r: Result<T, Error>) {
    match outcome
    case Done(t, value, _) => after == t && r == Success(value)
    case Aborted(e) => after == before && r == Failure(e)
  }

  /** The same for a part of an operation, whose caller restores the tables on failure. */
  ghost predicate Reaches<T>(outcome: Outcome<T>, after: Store, r: Result<T, Error>) {
    match outcome
    case Done(t, value, _) => after == t && r == Success(value)
    case Aborted(e) => r == Failure(e)
  }

  /** Two outcomes that differ at most in what was minted on the way. */
  ghost predicate SameEnd<T>(a: Outcome<T>, b: Outcome<T>) {
    match (a, b)
    case (Done(s, v, _), Done(t, w, _)) => s == t && v == w
    case (Aborted(e), Aborted(f)) => e == f
    case _ => false
  }

  lemma SameEndTransitive<T>(a: Outcome<T>, b: Outcome<T>, c: Outcome<T>)
    requires SameEnd(a, b) && SameEnd(b, c)
    ensures SameEnd(a, c)
  {
  }

  lemma SameEndSelf<T>(a: Outcome<T>)
    ensures SameEnd(a, a)
  {
  }

  lemma SameEndAborted<T>(a: Outcome<T>, e: Error)
    requires SameEnd(a, Aborted(e))
    ensures a == Aborted(e)
  {
  }

  lemma SameEndDone<T>(a: Outcome<T>, s: Store, value: T)
    requires SameEnd(a, Done(s, value, []))
    ensures a.Done? && a.store == s && a.value == value
  {
  }

  lemma LiveIsStored(groups: map<GroupId, Group>, g: GroupId)
    requires Live(groups, g)
    ensures g in groups
  {
  }

  /** One step of an ordered addition. */
  lemma AddAllCons(s: Store, m: MemberId, g: GroupId, gs: seq<GroupId>, managed: Option<GroupId>)
    requires m in s.members
    ensures var whole := AddAll(s, m, [g] + gs, managed);
      && (!Manages(managed, g) ==> whole == Aborted(NotManaged))
      && (Manages(managed, g) && !Live(s.groups, g) ==> SameEnd(whole, AddAll(s, m, gs, managed)))
      && (Manages(managed, g) && Live(s.groups, g) ==>
            var first := Add(s, m, g);
            && (first.Aborted? ==> whole == Aborted(first.error))
            && (first.Done? ==> SameEnd(whole, AddAll(first.store, m, gs, managed))))
  {
    var all := [g] + gs;
    assert all[0] == g && all[1..] == gs;
    AddAllHead(s, m, all, managed);
    hide *;
  }

  lemma AddAllHead(s: Store, m: MemberId, all: seq<GroupId>, managed: Option<GroupId>)
    requires m in s.members && all != []
    ensures var whole := AddAll(s, m, all, managed);
      && (!Manages(managed, all[0]) ==> whole == Aborted(NotManaged))
      && (Manages(managed, all[0]) && !Live(s.groups, all[0]) ==> SameEnd(whole, AddAll(s, m, all[1..], managed)))
      && (Manages(managed, all[0]) && Live(s.groups, all[0]) ==>
            var first := Add(s, m, all[0]);
            && (first.Aborted? ==> whole == Aborted(first.error))
            && (first.Done? ==> SameEnd(whole, AddAll(first.store, m, all[1..], managed))))
  {
    if Manages(managed, all[0]) && !Live(s.groups, all[0]) {
      assert AddAll(s, m, all, managed) == AddAll(s, m, all[1..], managed);
      hide AddAll;
      SameEndSelf(AddAll(s, m, all[1..], managed));
    } else if Manages(managed, all[0]) && Add(s, m, all[0]).Done? {
      var first := Add(s, m, all[0]);
      var rest := AddAll(first.store, m, all[1..], managed);
      assert rest.Done? ==>
        AddAll(s, m, all, managed) == Done(rest.store, (), first.minted + rest.minted) && rest.value == ();
      assert rest.Aborted? ==> AddAll(s, m, all, managed) == Aborted(rest.error);
    }
    hide Add, AddAll;
  }

  lemma RemoveAllCons(s: Store, m: MemberId, g: GroupId, gs: seq<GroupId>)
    requires m in s.members
    ensures var whole, first := RemoveAll(s, m, [g] + gs), Remove(s, m, g);
      && (first.Aborted? ==> whole == Aborted(first.error))
      && (first.Done? ==> SameEnd(whole, RemoveAll(first.store, m, gs)))
  {
    assert ([g] + gs)[1..] == gs;
    hide Remove;
  }

  lemma MissingCons(current: seq<GroupId>, g: GroupId, desired: seq<GroupId>)
    ensures Missing(current, [g] + desired) ==
      if g in current then Missing(current, desired) else [g] + Missing(current, desired)
  {
    assert ([g] + desired)[1..] == desired;
  }

  lemma DroppedCons(g: GroupId, current: seq<GroupId>, desired: seq<GroupId>, managed: Option<GroupId>)
    ensures Dropped([g] + current, desired, managed)
      == if g in desired || !Manages(managed, g) then Dropped(current, desired, managed)
        else [g] + Dropped(current, desired, managed)
  {
    assert ([g] + current)[1..] == current;
  }

  lemma AllDone(s: Store, m: MemberId, gs: seq<GroupId>, managed: Option<GroupId>)
    requires m in s.members && gs == []
    ensures AddAll(s, m, gs, managed) == Done(s, (), []) && RemoveAll(s, m, gs) == Done(s, (), [])
  {
  }

  lemma NothingMissing(current: seq<GroupId>, desired: seq<GroupId>, managed: Option<GroupId>)
    ensures Missing(current, []) == [] && Dropped([], desired, managed) == []
  {
  }

  class MembershipSession {
    const groups: map<GroupId, Group>
    var members: map<MemberId, Member>
    var counters: map<GroupId, nat>

    constructor (groups: map<GroupId, Group>, members: map<MemberId, Member>, counters: map<GroupId, nat>)
      ensures Db() == Store(groups, members, counters)
    {
      this.groups, this.members, this.counters := groups, members, counters;
    }

    ghost function Db(): Store
      reads this
    {
      Store(groups, members, counters)
    }

    method GetGroupMemberCount(g: GroupId) returns (count: nat)
      ensures count == MemberCount(Db(), g)
    {
      var mirrored := Mirrored(Store(groups, members, counters), g);
      count := |mirrored|;
      if count == 0 {
        count := |Affected(Store(groups, members, counters), g)|;
      }
    }

    /** A group without a code issues no numbers and keeps no counter. */
    method NextGroupMemberId(g: GroupId) returns (r: Result<string, Error>)
      requires g in groups
      modifies this`counters
      ensures groups[g].code == "" ==> r == Failure(NoGroupCode) && counters == old(counters)
      ensures groups[g].code != "" ==> var next := LastSequence(old(Db()), g) + 1;
        counters == old(counters)[g := next] && r == Success(FormatMemberId(groups[g].code, next))
    {
      if groups[g].code == "" {
        return Failure(NoGroupCode);
      }
      if g !in counters {
        var existing := GetGroupMemberCount(g);
        counters := counters[g := existing];
      }
      counters := counters[g := counters[g] + 1];
      r := Success(FormatMemberId(groups[g].code, counters[g]));
    }

    /** A number the member already holds in the group, or a freshly minted one. */
    method ChooseNumber(m: MemberId, g: GroupId) returns (number: string)
      requires m in members && g in groups && groups[g].code != ""
      modifies this`counters
      ensures number == SettledNumber(old(Db()), m, g)
      ensures var mem := members[m];
        if mem.user.Some? && g in mem.mirror && mem.mirror[g].number != "" then number == mem.mirror[g].number
        else if RowNumber(mem.rows, g) != "" then number == RowNumber(mem.rows, g)
        else MembershipNumberMatches(mem.number, groups[g].code) ==> number == mem.number
      ensures counters == if KnownNumber(members[m], g, groups[g].code) != "" then old(counters)
                          else old(counters)[g := LastSequence(old(Db()), g) + 1]
    {
      var mem := members[m];
      var i := IndexOf(mem.rows, g);
      if mem.user.Some? && g in mem.mirror && mem.mirror[g].number != "" {
        number := mem.mirror[g].number;
      } else if i < |mem.rows| && mem.rows[i].number != "" {
        number := mem.rows[i].number;
      } else if MembershipNumberMatches(mem.number, groups[g].code) {
        number := mem.number;
      } else {
        var minted := NextGroupMemberId(g);
        number := minted.value;
      }
    }

    /** The three writes: the member itself when primary, the membership row, the mirror row. */
    method WriteRecords(m: MemberId, g: GroupId, number: string)
      requires m in members
      modifies this`members
      ensures members == old(members)[m := WriteNumber(old(members)[m], g, number)]
    {
      hide Place, Drop, MaxPriority;
      var mem := members[m];
      var hasPrimary := mem.user.Some? && exists h :: h in mem.mirror && h != g && mem.mirror[h].primary;
      if !hasPrimary && mem.group.Some? && mem.group.value != g {
        hasPrimary := true;
      }
      if !hasPrimary {
        mem := mem.(number := number, group := Some(g));
      }
      var i := IndexOf(mem.rows, g);
      if i < |mem.rows| {
        var row := mem.rows[i].(number := number);
        if hasPrimary {
          mem := mem.(rows := mem.rows[i := row]);
        } else {
          mem := mem.(rows := Place(Drop(mem.rows, i), row.(priority := 1)));
        }
      } else {
        var next := MaxPriority(mem.rows) + 1;
        mem := mem.(rows := Place(mem.rows, Row(g, if hasPrimary then next else 1, number)));
      }
      if mem.user.Some? {
        mem := mem.(mirror := mem.mirror[g := Mirror(number, !hasPrimary)]);
      }
      members := members[m := mem];
    }

    method AssignMemberId(m: MemberId, g: GroupId) returns (r: Result<bool, Error>)
      requires m in members && g in groups
      modifies this
      ensures EndsAs(old(Db()), Assign(old(Db()), m, g), Db(), r)
    {
      if groups[g].code == "" {
        return Success(false);
      }
      var savedMembers, savedCounters := members, counters;
      var number := ChooseNumber(m, g);
      WriteRecords(m, g, number);
      if NumbersUnique(members) {
        r := Success(true);
      } else {
        members, counters := savedMembers, savedCounters;
        r := Failure(Conflict);
      }
    }

    method EnsureLegacyMembership(m: MemberId)
      requires m in members
      modifies this`members
      ensures Db() == Put(old(Db()), m, EnsureLegacy(old(members)[m]))
    {
      var mem := members[m];
      if mem.rows == [] && mem.group.Some? {
        members := members[m := mem.(rows := [Row(mem.group.value, 1, "")])];
      }
    }

    method AddMembership(m: MemberId, g: GroupId) returns (r: Result<bool, Error>)
      requires m in members && g in groups
      modifies this
      ensures EndsAs(old(Db()), Add(old(Db()), m, g), Db(), r)
      ensures old(Valid(Db())) ==> Valid(Db())
    {
      hide Valid, AddKnown, AddNew, EnsureLegacy, HasRow;
      var savedMembers, savedCounters := members, counters;
      EnsureLegacyMembership(m);
      if HasRow(members[m].rows, g) {
        r := NumberExisting(m, g);
      } else {
        r := InsertMembership(m, g);
      }
      if r.Failure? {
        members, counters := savedMembers, savedCounters;
      } else if old(Valid(Db())) {
        AddKeeps(old(Db()), m, g);
      }
    }

    /** The member already has the group: restore a missing pointer, mint a missing number. */
    method NumberExisting(m: MemberId, g: GroupId) returns (r: Result<bool, Error>)
      requires m in members && g in groups && HasRow(members[m].rows, g)
      modifies this
      ensures Reaches(AddKnown(old(Db()), m, g), Db(), r)
    {
      var mem := members[m];
      var row := mem.rows[IndexOf(mem.rows, g)];
      if mem.group.None? {
        members := members[m := mem.(group := Some(row.group))];
      }
      assert Db() == Put(old(Db()), m, if mem.group.None? then mem.(group := Some(g)) else mem);
      r := Success(false);
      if row.number == "" && groups[g].code != "" {
        var assignment := AssignMemberId(m, g);
        if assignment.Failure? {
          r := assignment;
        }
      }
    }

    method InsertMembership(m: MemberId, g: GroupId) returns (r: Result<bool, Error>)
      requires m in members && g in groups
      modifies this
      ensures Reaches(AddNew(old(Db()), m, g), Db(), r)
    {
      var mem := members[m];
      var priority := MaxPriority(mem.rows) + 1;
      mem := mem.(rows := Place(mem.rows, Row(g, priority, "")));
      if priority == 1 {
        mem := mem.(group := Some(g));
      }
      members := members[m := mem];
      assert Db() == Put(old(Db()), m, InsertRow(old(members)[m], g));
      if groups[g].code != "" {
        r := AssignMemberId(m, g);
      } else {
        if priority == 1 {
          members := members[m := mem.(number := "")];
        }
        r := Success(true);
      }
    }

    method RemoveMembership(m: MemberId, g: GroupId) returns (r: Result<Removal, Error>)
      requires m in members
      modifies this
      ensures EndsAs(old(Db()), Remove(old(Db()), m, g), Db(), r)
      ensures old(Valid(Db())) ==> Valid(Db())
    {
      var savedMembers, savedCounters := members, counters;
      EnsureLegacyMembership(m);
      ghost var base := Db();
      var mem := members[m];
      var i := IndexOf(mem.rows, g);
      if i == |mem.rows| {
        r := Success(Removal(false, None));
      } else {
        var wasPrimary := mem.rows[i].priority == 1;
        mem := mem.(rows := mem.rows[..i] + mem.rows[i + 1..]);
        if mem.user.Some? {
          mem := mem.(mirror := mem.mirror - {g});
        }
        members := members[m := mem];
        assert Db() == Put(base, m, DeleteRow(base.members[m], g));
        if !wasPrimary {
          r := Success(Removal(true, None));
        } else {
          r := PromoteNext(m);
        }
      }
      if r.Failure? {
        members, counters := savedMembers, savedCounters;
      } else if old(Valid(Db())) {
        RemoveKeeps(old(Db()), m, g);
      }
    }

    method PromoteNext(m: MemberId) returns (r: Result<Removal, Error>)
      requires m in members
      modifies this
      ensures match Promote(old(Db()), m)
        case Done(t, next, _) => Db() == t && r == Success(Removal(true, next))
        case Aborted(e) => r == Failure(e)
    {
      ghost var before := Db();
      var mem := members[m];
      if mem.rows == [] {
        members := members[m := mem.(group := None, number := "")];
        return Success(Removal(true, None));
      }
      var next := mem.rows[0].group;
      members := members[m := mem.(rows := Place(mem.rows[1..], mem.rows[0].(priority := 1)), group := Some(next))];
      assert Db() == Put(before, m, PromoteFirst(before.members[m]));
      if next in groups && groups[next].code != "" {
        var assignment := AssignMemberId(m, next);
        r := if assignment.Failure? then Failure(assignment.error) else Success(Removal(true, Some(next)));
      } else {
        members := members[m := members[m].(number := "")];
        r := Success(Removal(true, Some(next)));
      }
    }
  
    method SyncMemberships(m: MemberId, ids: seq<GroupId>, managed: Option<GroupId>) returns (r: Result<(), Error>)
      requires m in members
      modifies this
      ensures EndsAs(old(Db()), Sync(old(Db()), m, ids, managed), Db(), r)
      ensures old(Valid(Db())) ==> Valid(Db())
    {
      hide Valid, RemoveAll, AddAll, Dropped, Missing, EnsureLegacy;
      var savedMembers, savedCounters := members, counters;
      var desired := DesiredGroups(ids);
      if desired == [] {
        return Failure(EmptySelection);
      }
      EnsureLegacyMembership(m);
      var current := members[m].rows;
      r := RemoveUnwanted(m, current, desired, managed);
      if r.Success? {
        r := AddMissing(m, Groups(current), desired, managed);
      }
      assert r.Success? ==> r.value == ();
      if r.Failure? {
        members, counters := savedMembers, savedCounters;
      } else if old(Valid(Db())) {
        SyncKeeps(old(Db()), m, ids, managed);
      }
    }

    method DesiredGroups(ids: seq<GroupId>) returns (desired: seq<GroupId>)
      ensures desired == Dedup(ids)
    {
      desired := [];
      for i := 0 to |ids|
        invariant desired == Dedup(ids[..i])
      {
        assert ids[..i + 1][..i] == ids[..i];
        if ids[i] !in desired {
          desired := desired + [ids[i]];
        }
      }
      assert ids[..|ids|] == ids;
    }

    method RemoveUnwanted(m: MemberId, current: seq<Row>, desired: seq<GroupId>, managed: Option<GroupId>)
      returns (r: Result<(), Error>)
      requires m in members
      modifies this
      ensures Reaches(RemoveAll(old(Db()), m, Dropped(Groups(current), desired, managed)), Db(), r)
      ensures r.Success? ==> m in members
    {
      hide RemoveAll, Dropped, Remove, Valid, SameEnd;
      ghost var all := Groups(current);
      ghost var whole := RemoveAll(Db(), m, Dropped(all, desired, managed));
      assert all[0..] == all;
      SameEndSelf(whole);
      for i := 0 to |current|
        invariant m in members
        invariant SameEnd(whole, RemoveAll(Db(), m, Dropped(all[i..], desired, managed)))
      {
        assert all[i..] == [current[i].group] + all[i + 1..];
        var g := current[i].group;
        DroppedCons(g, all[i + 1..], desired, managed);
        if g in desired || !Manages(managed, g) {
          continue;
        }
        ghost var before := Db();
        ghost var rest := Dropped(all[i + 1..], desired, managed);
        RemoveAllCons(before, m, g, rest);
        var removal := RemoveMembership(m, g);
        if removal.Failure? {
          SameEndAborted(whole, removal.error);
          return Failure(removal.error);
        }
        SameEndTransitive(whole, RemoveAll(before, m, [g] + rest), RemoveAll(Db(), m, rest));
      }
      assert all[|current|..] == [];
      NothingMissing([], desired, managed);
      AllDone(Db(), m, [], managed);
      SameEndDone(whole, Db(), ());
      r := Success(());
    }

    method AddMissing(m: MemberId, current: seq<GroupId>, desired: seq<GroupId>, managed: Option<GroupId>)
      returns (r: Result<(), Error>)
      requires m in members
      modifies this
      ensures Reaches(AddAll(old(Db()), m, Missing(current, desired), managed), Db(), r)
    {
      hide AddAll, Missing, Add, Valid, SameEnd, Live;
      ghost var whole := AddAll(Db(), m, Missing(current, desired), managed);
      assert desired[0..] == desired;
      SameEndSelf(whole);
      for i := 0 to |desired|
        invariant m in members
        invariant SameEnd(whole, AddAll(Db(), m, Missing(current, desired[i..]), managed))
      {
        assert desired[i..] == [desired[i]] + desired[i + 1..];
        var g := desired[i];
        MissingCons(current, g, desired[i + 1..]);
        if g in current {
          continue;
        }
        ghost var before := Db();
        ghost var rest := Missing(current, desired[i + 1..]);
        AddAllCons(before, m, g, rest, managed);
        if !Manages(managed, g) {
          SameEndAborted(whole, NotManaged);
          return Failure(NotManaged);
        }
        if !Live(groups, g) {
          SameEndTransitive(whole, AddAll(before, m, [g] + rest, managed), AddAll(before, m, rest, managed));
          continue;
        }
        LiveIsStored(groups, g);
        var added := AddMembership(m, g);
        if added.Failure? {
          SameEndAborted(whole, added.error);
          return Failure(added.error);
        }
        SameEndTransitive(whole, AddAll(before, m, [g] + rest, managed), AddAll(Db(), m, rest, managed));
      }
      assert desired[|desired|..] == [];
      NothingMissing(current, [], managed);
      AllDone(Db(), m, [], managed);
      SameEndDone(whole, Db(), ());
      r := Success(());
    }

    method DetachGroup(g: GroupId, order: seq<MemberId>) returns (r: Result<(), Error>)
      modifies this
      ensures EndsAs(old(Db()), Detach(old(Db()), g, order), Db(), r)
      ensures old(Valid(Db()) && Enabled(Db(), DetachOp(g, order))) ==> Valid(Db())
    {
      var savedMembers, savedCounters := members, counters;
      ghost var whole := Detach(Db(), g, order);
      assert order[0..] == order;
      for i := 0 to |order|
        invariant SameEnd(whole, Detach(Db(), g, order[i..]))
      {
        assert order[i..] == [order[i]] + order[i + 1..];
        if order[i] in members {
          var removal := RemoveMembership(order[i], g);
          if removal.Failure? {
            members, counters := savedMembers, savedCounters;
            return Failure(removal.error);
          }
        }
      }
      r := Success(());
      if old(Valid(Db()) && Enabled(Db(), DetachOp(g, order))) {
        EnabledIsRemaining(old(Db()), g, order);
        DetachKeeps(old(Db()), g, order);
      }
    }
  }
}
