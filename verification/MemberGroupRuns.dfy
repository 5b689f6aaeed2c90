/** Ordered selections, bulk detachment, and whole runs of membership operations. */
module MemberGroupRuns {
  import opened Common
  import opened IdCodec
  import opened MemberGroups
  import opened MemberGroupProofs

  // ---------------------------------------------------------------- ordered selections

  lemma TouchesTransitive(s: Store, t: Store, u: Store, m: MemberId)
    requires Touches(s, t, m) && Touches(t, u, m)
    ensures Touches(s, u, m)
  {
  }

  lemma {:induction false} RemoveAllKeeps(s: Store, m: MemberId, gs: seq<GroupId>)
    requires Valid(s) && m in s.members && Settled(s.members[m]) && RemoveAll(s, m, gs).Done?
    ensures var t := RemoveAll(s, m, gs).store;
      && Valid(t) && Touches(s, t, m) && Settled(t.members[m])
      && Groups(t.members[m].rows) == Except(Groups(s.members[m].rows), gs)
    decreases gs
  {
    hide Valid, RemovedFrom, Remove;
    var before := Groups(s.members[m].rows);
    if gs == [] {
      ExceptNone(before, gs);
    } else {
      var t := Remove(s, m, gs[0]).store;
      RemoveKeeps(s, m, gs[0]);
      RemoveAllKeeps(t, m, gs[1..]);
      TouchesTransitive(s, t, RemoveAll(s, m, gs).store, m);
      ExceptTwice(before, [gs[0]], gs[1..]);
      assert [gs[0]] + gs[1..] == gs;
    }
  }

  lemma AddedGroups(groups: map<GroupId, Group>, base: Member, g: GroupId, after: Member, isNew: bool)
    requires g in groups && Added(groups, base, g, after, isNew) && !HasRow(base.rows, g)
    ensures Groups(after.rows) == Groups(base.rows) + [g] && Settled(after)
  {
    assert forall i :: 0 <= i < |base.rows| ==> after.rows[i] == after.rows[..|base.rows|][i];
  }

  function LiveOnly(groups: map<GroupId, Group>, gs: seq<GroupId>): seq<GroupId> {
    Filter(gs, g => Live(groups, g))
  }

  lemma {:induction false} AddAllKeeps(s: Store, m: MemberId, gs: seq<GroupId>, managed: Option<GroupId>)
    requires Valid(s) && m in s.members && Settled(s.members[m]) && AddAll(s, m, gs, managed).Done?
    requires Distinct(gs) && forall g :: g in gs ==> g !in Groups(s.members[m].rows)
    ensures var t := AddAll(s, m, gs, managed).store;
      && Valid(t) && Touches(s, t, m) && Settled(t.members[m])
      && Groups(t.members[m].rows) == Groups(s.members[m].rows) + LiveOnly(s.groups, gs)
      && (forall g :: g in gs ==> Manages(managed, g))
    decreases gs
  {
    hide Valid, Added, Add;
    if gs != [] {
      var g, rest := gs[0], gs[1..];
      assert forall i :: 0 <= i < |rest| ==> rest[i] == gs[i + 1];
      if !Live(s.groups, g) {
        AddAllKeeps(s, m, rest, managed);
      } else {
        var t := Add(s, m, g).store;
        AbsentIff(s.members[m].rows, g);
        AddKeeps(s, m, g);
        AddedGroups(s.groups, s.members[m], g, t.members[m], Add(s, m, g).value);
        AddAllKeeps(t, m, rest, managed);
        TouchesTransitive(s, t, AddAll(s, m, gs, managed).store, m);
        assert Groups(t.members[m].rows) + LiveOnly(s.groups, rest)
            == Groups(s.members[m].rows) + ([g] + LiveOnly(s.groups, rest));
      }
    }
  }

  /** The current groups that survive a selection, in their order. */
  function Kept(current: seq<GroupId>, desired: seq<GroupId>, managed: Option<GroupId>): seq<GroupId> {
    Filter(current, g => g in desired || !Manages(managed, g))
  }

  lemma KeptIsNotDropped(current: seq<GroupId>, desired: seq<GroupId>, managed: Option<GroupId>)
    ensures Except(current, Dropped(current, desired, managed)) == Kept(current, desired, managed)
  {
    var dropped := Dropped(current, desired, managed);
    FilterAgree(current, g => g !in dropped, g => g in desired || !Manages(managed, g));
  }

  /**
   * An accepted selection: afterwards the member's groups, by ascending priority, are the surviving
   * old ones in their old order followed by the stored, undeleted new ones in the caller's order.
   */
  lemma SyncKeeps(s: Store, m: MemberId, ids: seq<GroupId>, managed: Option<GroupId>)
    requires Valid(s) && m in s.members && Sync(s, m, ids, managed).Done?
    ensures var t, current := Sync(s, m, ids, managed).store, Groups(EnsureLegacy(s.members[m]).rows);
      && Valid(t) && Touches(s, t, m)
      && Groups(t.members[m].rows)
           == Kept(current, Dedup(ids), managed) + LiveOnly(s.groups, Missing(current, Dedup(ids)))
      && (forall g :: g in Missing(current, Dedup(ids)) ==> Manages(managed, g))
  {
    hide Valid;
    var desired, base := Dedup(ids), Put(s, m, EnsureLegacy(s.members[m]));
    var current := Groups(base.members[m].rows);
    Prepared(s, m);
    var t := RemoveAll(base, m, Dropped(current, desired, managed)).store;
    RemoveAllKeeps(base, m, Dropped(current, desired, managed));
    KeptIsNotDropped(current, desired, managed);
    FilterDistinct(desired, g => g !in current);
    AddAllKeeps(t, m, Missing(current, desired), managed);
    TouchesTransitive(base, t, Sync(s, m, ids, managed).store, m);
    TouchesPrepared(s, base.members[m], Sync(s, m, ids, managed).store, m);
  }

  /** A group admin's selection leaves every other group of the member where it was. */
  lemma SyncManagedLeavesOthers(s: Store, m: MemberId, ids: seq<GroupId>, own: GroupId)
    requires Valid(s) && m in s.members && Sync(s, m, ids, Some(own)).Done?
    ensures Except(Groups(Sync(s, m, ids, Some(own)).store.members[m].rows), [own])
         == Except(Groups(EnsureLegacy(s.members[m]).rows), [own])
  {
    hide *;
    SyncKeeps(s, m, ids, Some(own));
    ManagedSelection(s.groups, Groups(EnsureLegacy(s.members[m]).rows), Dedup(ids), own);
  }

  lemma ManagedSelection(groups: map<GroupId, Group>, current: seq<GroupId>, desired: seq<GroupId>, own: GroupId)
    requires forall g :: g in Missing(current, desired) ==> Manages(Some(own), g)
    ensures Except(Kept(current, desired, Some(own)) + LiveOnly(groups, Missing(current, desired)), [own]) ==
      Except(current, [own])
  {
    var kept, added := Kept(current, desired, Some(own)), LiveOnly(groups, Missing(current, desired));
    FilterAppend(kept, added, g => g !in [own]);
    assert Except(kept + added, [own]) == Except(kept, [own]) + Except(added, [own]);
    assert forall g :: g in added ==> g in Missing(current, desired) && g == own;
    NothingButOwn(added, own);
    KeptOthers(current, desired, own);
  }

  lemma {:induction false} NothingButOwn(gs: seq<GroupId>, own: GroupId)
    requires forall g :: g in gs ==> g == own
    ensures Except(gs, [own]) == []
  {
    if gs != [] {
      assert forall g :: g in gs[1..] ==> g in gs;
      NothingButOwn(gs[1..], own);
    }
  }

  lemma {:induction false} KeptOthers(current: seq<GroupId>, desired: seq<GroupId>, own: GroupId)
    ensures Except(Kept(current, desired, Some(own)), [own]) == Except(current, [own])
  {
    if current != [] {
      KeptOthers(current[1..], desired, own);
      if current[0] in desired || current[0] != own {
        assert Kept(current, desired, Some(own)) == [current[0]] + Kept(current[1..], desired, Some(own));
      }
    }
  }

  // ---------------------------------------------------------------- detaching a group

  /** A member the detached group was removed from. */
  ghost predicate Left(before: Member, g: GroupId, after: Member) {
    && Groups(after.rows) == Except(Groups(before.rows), [g])
    && g !in after.mirror && after.group != Some(g)
  }

  lemma RemoveLeaves(s: Store, m: MemberId, g: GroupId)
    requires Valid(s) && m in s.members && HasRow(s.members[m].rows, g) && Remove(s, m, g).Done?
    ensures var t := Remove(s, m, g).store;
      Valid(t) && Touches(s, t, m) && Left(s.members[m], g, t.members[m]) && !HasRow(t.members[m].rows, g)
  {
    RemoveKeeps(s, m, g);
    var after := Remove(s, m, g).store.members[m];
    AbsentIff(after.rows, g);
    assert RowsOk(s.groups, after) && Settled(after);
    if after.rows != [] {
      assert Groups(after.rows)[0] == after.rows[0].group;
    }
  }

  /** The members still to be visited all have the group, and so does nobody else. */
  ghost predicate Remaining(s: Store, g: GroupId, order: seq<MemberId>) {
    && Distinct(order)
    && (forall m :: m in order ==> m in s.members)
    && (forall m :: m in s.members ==> (HasRow(s.members[m].rows, g) <==> m in order))
  }

  lemma RemainingAfter(s: Store, t: Store, g: GroupId, order: seq<MemberId>)
    requires order != [] && Remaining(s, g, order) && Touches(s, t, order[0])
    requires !HasRow(t.members[order[0]].rows, g)
    ensures Remaining(t, g, order[1..]) && order[0] !in order[1..]
  {
    assert forall i :: 0 <= i < |order| - 1 ==> order[1..][i] == order[i + 1];
    assert forall m :: m in order <==> m == order[0] || m in order[1..];
  }

  lemma DetachFirst(s: Store, g: GroupId, order: seq<MemberId>)
    requires Valid(s) && order != [] && Remaining(s, g, order) && Remove(s, order[0], g).Done?
    ensures var t, m := Remove(s, order[0], g).store, order[0];
      && m in s.members && m !in order[1..]
      && Valid(t) && Touches(s, t, m) && Left(s.members[m], g, t.members[m])
      && Remaining(t, g, order[1..])
  {
    hide Valid, Left, Remove;
    RemoveLeaves(s, order[0], g);
    RemainingAfter(s, Remove(s, order[0], g).store, g, order);
  }

  ghost predicate Detached(s: Store, g: GroupId, order: seq<MemberId>, t: Store) {
    && SameKeys(s, t)
    && (forall m :: m in t.members ==> !HasRow(t.members[m].rows, g))
    && (forall m :: m in s.members && m in order ==> Left(s.members[m], g, t.members[m]))
    && (forall m :: m in s.members && m !in order ==> t.members[m] == s.members[m])
  }

  lemma DetachedCons(s: Store, t: Store, u: Store, g: GroupId, m: MemberId, rest: seq<MemberId>)
    requires m in s.members && m !in rest && Touches(s, t, m) && Left(s.members[m], g, t.members[m])
    requires Detached(t, g, rest, u)
    ensures Detached(s, g, [m] + rest, u)
  {
    hide Left, HasRow;
  }

  /**
   * Detaching leaves no membership of the group.  Members that had it hand over to their next
   * group; everybody else is untouched.
   */
  lemma {:induction false} DetachKeeps(s: Store, g: GroupId, order: seq<MemberId>)
    requires Valid(s) && Remaining(s, g, order) && Detach(s, g, order).Done?
    ensures Valid(Detach(s, g, order).store) && Detached(s, g, order, Detach(s, g, order).store)
    decreases order
  {
    hide Valid, Left, Remove, HasRow;
    if order != [] {
      var m, rest := order[0], order[1..];
      assert order == [m] + rest;
      var t := Remove(s, m, g).store;
      DetachFirst(s, g, order);
      DetachKeeps(t, g, rest);
      DetachedCons(s, t, Detach(t, g, rest).store, g, m, rest);
      hide Detached, Remaining, Touches;
    }
  }

  /** A pointer that was never materialised survives the detachment, and no other pointer does. */
  lemma DetachLeavesOnlyLegacyPointers(s: Store, g: GroupId, order: seq<MemberId>, m: MemberId)
    requires Valid(s) && Enabled(s, DetachOp(g, order)) && Detach(s, g, order).Done? && m in s.members
    ensures Detach(s, g, order).store.members[m].group == Some(g)
       <==> s.members[m].group == Some(g) && s.members[m].rows == []
  {
    EnabledIsRemaining(s, g, order);
    DetachKeeps(s, g, order);
    assert MemberOk(s.groups, s.members[m]);
    if s.members[m].rows != [] && s.members[m].group == Some(g) {
      assert s.members[m].rows[0].group == g;
      assert HasRow(s.members[m].rows, g);
    }
  }

  lemma EnabledIsRemaining(s: Store, g: GroupId, order: seq<MemberId>)
    requires Enabled(s, DetachOp(g, order))
    ensures Remaining(s, g, order)
  {
    forall m | m in s.members
      ensures HasRow(s.members[m].rows, g) <==> m in order
    {
      assert m in Affected(s, g) <==> m in (set n | n in order);
    }
    forall m | m in order
      ensures m in s.members
    {
      assert m in (set n | n in order);
      assert m in Affected(s, g);
    }
  }

  // ---------------------------------------------------------------- whole runs

  lemma StepKeepsValid(s: Store, op: Op)
    requires Valid(s) && Enabled(s, op)
    ensures Valid(Step(s, op).store) && SameKeys(s, Step(s, op).store)
  {
    match op
    case AddOp(m, g) =>
      if Add(s, m, g).Done? { AddKeeps(s, m, g); }
    case RemoveOp(m, g) =>
      if Remove(s, m, g).Done? { RemoveKeeps(s, m, g); }
    case SyncOp(m, ids, managed) =>
      if Sync(s, m, ids, managed).Done? { SyncKeeps(s, m, ids, managed); }
    case DetachOp(g, order) =>
      if Detach(s, g, order).Done? {
        EnabledIsRemaining(s, g, order);
        DetachKeeps(s, g, order);
      }
  }

  /** Every state any sequence of operations reaches is valid. */
  lemma {:induction false} RunKeepsValid(s: Store, ops: seq<Op>)
    requires Valid(s)
    ensures Valid(Run(s, ops).store) && SameKeys(s, Run(s, ops).store)
    decreases ops
  {
    hide Valid, Enabled, Step;
    if ops != [] {
      if Enabled(s, ops[0]) {
        StepKeepsValid(s, ops[0]);
        RunKeepsValid(Step(s, ops[0]).store, ops[1..]);
      } else {
        RunKeepsValid(s, ops[1..]);
      }
    }
  }

  /** What validity says about one member, in the terms of the three records. */
  lemma RecordsAgree(s: Store, m: MemberId)
    requires Valid(s) && m in s.members
    ensures var mem := s.members[m];
      && (forall i, j :: 0 <= i < j < |mem.rows| ==> 1 <= mem.rows[i].priority < mem.rows[j].priority)
      && (mem.rows != [] ==>
            exists i :: 0 <= i < |mem.rows| && mem.rows[i].priority == 1 && mem.group == Some(mem.rows[i].group)
              && (mem.rows[i].number != "" ==> mem.number == mem.rows[i].number))
      && (forall g, h :: g in mem.mirror && h in mem.mirror && mem.mirror[g].primary && mem.mirror[h].primary ==>
           g == h)
      && (forall g :: g in mem.mirror && mem.mirror[g].primary ==> mem.group == Some(g))
      && (forall g :: g in mem.mirror ==>
            exists i :: 0 <= i < |mem.rows| && mem.rows[i].group == g && mem.rows[i].number == mem.mirror[g].number)
  {
    var mem := s.members[m];
    assert MemberOk(s.groups, mem);
    forall g | g in mem.mirror
      ensures exists i :: 0 <= i < |mem.rows| && mem.rows[i].group == g && mem.rows[i].number == mem.mirror[g].number
    {
      assert mem.rows[IndexOf(mem.rows, g)].group == g;
    }
  }
}
