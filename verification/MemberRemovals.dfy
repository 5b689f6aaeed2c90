/** When the unique constraints refuse a removal: only where it promotes another group. */
module MemberRemovals {
  import opened Common
  import opened IdCodec
  import opened MemberGroups
  import opened MemberGroupProofs
  import opened MemberNumbers
  import opened MemberAdditions
  import opened HeldNumbers

  /** Removing the group makes another one the primary group, and that one issues numbers. */
  predicate HandsOver(s: Store, m: MemberId, g: GroupId) {
    && m in s.members && |s.members[m].rows| >= 2 && s.members[m].rows[0].group == g
    && CodeOf(s.groups, s.members[m].rows[1].group) != ""
  }

  /** The number the promoted group settles on: its own, the visible one if it has the shape, or the next. */
  function NextNumber(s: Store, m: MemberId): string
    requires m in s.members && |s.members[m].rows| >= 2
  {
    var mem, next := s.members[m], s.members[m].rows[1];
    var code := CodeOf(s.groups, next.group);
    if next.number != "" then next.number
    else if MembershipNumberMatches(mem.number, code) then mem.number
    else FormatMemberId(code, LastSequence(s, next.group) + 1)
  }

  /** The other member shows the number visibly, or in a mirror row of the promoted group. */
  predicate ShownBy(s: Store, m: MemberId, number: string, n: MemberId)
    requires m in s.members && |s.members[m].rows| >= 2 && n in s.members
  {
    var g := s.members[m].rows[1].group;
    || s.members[n].number == number
    || (s.members[m].user.Some? && g in s.members[n].mirror && s.members[n].mirror[g].number == number)
  }

  /** The promotion would write a number somebody else shows. */
  ghost predicate Refused(s: Store, m: MemberId, g: GroupId) {
    HandsOver(s, m, g) && exists n :: n in s.members && n != m && ShownBy(s, m, NextNumber(s, m), n)
  }

  /** The member after the promotion, with the number in every record. */
  function Promoted(s: Store, m: MemberId): Member
    requires m in s.members && |s.members[m].rows| >= 2
  {
    WriteNumber(Succeeded(s.members[m]), s.members[m].rows[1].group, NextNumber(s, m))
  }

  lemma NextIsKept(groups: map<GroupId, Group>, mem: Member)
    requires MemberOk(groups, mem) && |mem.rows| >= 2
    ensures var next, after := mem.rows[1].group, Succeeded(mem);
      && next in groups
      && HasRow(mem.rows, next) && HasRow(after.rows, next) && (next in after.mirror <==> next in mem.mirror)
  {
    FoundAt(mem.rows, 1);
    assert Succeeded(mem).rows[0].group == mem.rows[1].group;
    FoundAt(Succeeded(mem).rows, 0);
    assert mem.rows[0].group != mem.rows[1].group;
    hide MirrorOk, IndexOf;
  }

  lemma HoldersSame(s: Store, m: MemberId, after: Member, g: GroupId)
    requires m in s.members && HasRow(s.members[m].rows, g) && HasRow(after.rows, g)
    requires g in after.mirror <==> g in s.members[m].mirror
    ensures LastSequence(Put(s, m, after), g) == LastSequence(s, g)
  {
    hide HasRow;
    assert Mirrored(Put(s, m, after), g) == Mirrored(s, g);
    assert Affected(Put(s, m, after), g) == Affected(s, g);
    hide Mirrored, Affected;
  }

  lemma SettledIs(s: Store, m: MemberId, g: GroupId)
    requires m in s.members && g in s.groups
    ensures var known := KnownNumber(s.members[m], g, s.groups[g].code);
      SettledNumber(s, m, g) == if known != "" then known else FormatMemberId(s.groups[g].code, LastSequence(s, g) + 1)
  {
    hide KnownNumber, FormatMemberId, LastSequence;
  }

  lemma NextNumberIs(s: Store, m: MemberId, g: GroupId)
    requires HandsOver(s, m, g) && s.members[m].rows[1].group in s.groups
    ensures var mem, next := s.members[m], s.members[m].rows[1];
      var code := s.groups[next.group].code;
      && code != "" && FormatMemberId(code, LastSequence(s, next.group) + 1) != ""
      && NextNumber(s, m) == (
           if next.number != "" then next.number
           else if MembershipNumberMatches(mem.number, code) then mem.number
           else FormatMemberId(code, LastSequence(s, next.group) + 1))
      && (MembershipNumberMatches(mem.number, code) ==> mem.number != "")
  {
    hide LastSequence;
  }

  lemma KnownIsNext(s: Store, m: MemberId, g: GroupId)
    requires HandsOver(s, m, g) && MemberOk(s.groups, s.members[m])
    ensures var next := s.members[m].rows[1].group;
      && next in s.groups && s.groups[next].code != ""
      && var known := KnownNumber(Succeeded(s.members[m]), next, s.groups[next].code);
         NextNumber(s, m) ==
           if known != "" then known else FormatMemberId(s.groups[next].code, LastSequence(s, next) + 1)
  {
    NextIsKept(s.groups, s.members[m]);
    NextNumberIs(s, m, g);
    SucceededKnows(s.groups, s.members[m]);
    hide MemberOk, Succeeded, KnownNumber, LastSequence, FormatMemberId, MembershipNumberMatches, NextNumber, HasRow;
  }

  lemma NextIsText(s: Store, m: MemberId, g: GroupId)
    requires HandsOver(s, m, g) && MemberOk(s.groups, s.members[m])
    ensures NextNumber(s, m) != ""
  {
    NextIsKept(s.groups, s.members[m]);
    NextNumberIs(s, m, g);
    hide MemberOk, LastSequence, FormatMemberId, MembershipNumberMatches, NextNumber, HasRow;
  }

  lemma SettledIsNext(s: Store, m: MemberId, g: GroupId)
    requires Valid(s) && HandsOver(s, m, g)
    ensures var next := s.members[m].rows[1].group;
      && m in Put(s, m, Succeeded(s.members[m])).members
      && next in s.groups && s.groups[next].code != ""
      && SettledNumber(Put(s, m, Succeeded(s.members[m])), m, next) == NextNumber(s, m)
      && NextNumber(s, m) != ""
  {
    MemberIsOk(s, m);
    assert m in s.members && |s.members[m].rows| >= 2;
    hide *;
    var mem := s.members[m];
    var next, put := mem.rows[1].group, Put(s, m, Succeeded(mem));
    NextIsKept(s.groups, mem);
    KnownIsNext(s, m, g);
    NextIsText(s, m, g);
    HoldersSame(s, m, Succeeded(mem), next);
    PutOver(s, m, Succeeded(mem), mem, map[]);
    SettledIs(put, m, next);
  }

  /** What the promotion writes. */
  lemma PromotedIs(s: Store, m: MemberId, g: GroupId)
    requires Valid(s) && HandsOver(s, m, g)
    ensures var mem, after, number := s.members[m], Promoted(s, m), NextNumber(s, m);
      && after.number == number != ""
      && after.mirror ==
           if mem.user.Some? then (mem.mirror - {g})[mem.rows[1].group := Mirror(number, true)] else mem.mirror
  {
    var mem, number := s.members[m], NextNumber(s, m);
    MemberIsOk(s, m);
    SettledIsNext(s, m, g);
    SucceededWritten(s.groups, mem, number);
    WriteNumberEffect(s.groups, Succeeded(mem), mem.rows[1].group, number);
    hide Valid, MemberOk, WriteNumber, NextNumber, Takes, Renumbered, Removed;
  }

  /** One member against another, once a number is written visibly and in one mirror row. */
  lemma PairDiffers(mem: Member, after: Member, other: Member, g: GroupId, next: GroupId, number: string)
    requires NumbersDiffer(mem, other) && NumbersDiffer(other, mem) && (mem.user.None? ==> mem.mirror == map[])
    requires after.number == number != ""
    requires after.mirror == if mem.user.Some? then (mem.mirror - {g})[next := Mirror(number, true)] else mem.mirror
    ensures NumbersDiffer(after, other) && NumbersDiffer(other, after) <==>
      other.number != number && !(mem.user.Some? && next in other.mirror && other.mirror[next].number == number)
  {
  }

  lemma DiffersFrom(s: Store, m: MemberId, g: GroupId, n: MemberId)
    requires Valid(s) && HandsOver(s, m, g) && n in s.members && n != m
    ensures var after, other := Promoted(s, m), s.members[n];
      NumbersDiffer(after, other) && NumbersDiffer(other, after) <==> !ShownBy(s, m, NextNumber(s, m), n)
  {
    PromotedIs(s, m, g);
    assert NumbersDiffer(s.members[m], s.members[n]) && NumbersDiffer(s.members[n], s.members[m]);
    NoUserNoMirror(s, m);
    hide Valid, Promoted, NextNumber, NumbersDiffer;
    PairDiffers(s.members[m], Promoted(s, m), s.members[n], g, s.members[m].rows[1].group, NextNumber(s, m));
  }

  lemma NoUserNoMirror(s: Store, m: MemberId)
    requires Valid(s) && m in s.members
    ensures s.members[m].user.None? ==> s.members[m].mirror == map[]
  {
    MemberIsOk(s, m);
    hide Valid, RowsOk;
  }

  lemma DiffersUnlessShown(s: Store, m: MemberId, g: GroupId)
    requires Valid(s) && HandsOver(s, m, g)
    ensures DiffersFromOthers(s.members, m, Promoted(s, m)) <==> !Refused(s, m, g)
  {
    forall n | n in s.members && n != m
      ensures NumbersDiffer(Promoted(s, m), s.members[n]) && NumbersDiffer(s.members[n], Promoted(s, m))
        <==> !ShownBy(s, m, NextNumber(s, m), n)
    {
      DiffersFrom(s, m, g, n);
    }
    hide Valid, Promoted, NextNumber, ShownBy, NumbersDiffer, HandsOver;
  }

  lemma Uniquely(s: Store)
    requires Valid(s)
    ensures NumbersUnique(s.members)
  {
    hide NumbersUnique;
  }

  /** A removal that hands over succeeds exactly when nobody shows the number it settles on. */
  lemma HandOverIff(s: Store, m: MemberId, g: GroupId)
    requires Valid(s) && HandsOver(s, m, g)
    ensures if Refused(s, m, g) then Remove(s, m, g) == Aborted(Conflict) else Remove(s, m, g).Done?
  {
    assert m in s.members && |s.members[m].rows| >= 2;
    hide *;
    var put, next := Put(s, m, Succeeded(s.members[m])), s.members[m].rows[1].group;
    HandedIsAssign(s, m, g);
    SettledIsNext(s, m, g);
    PutOver(s, m, Succeeded(s.members[m]), s.members[m], map[]);
    PromotedPut(s, m);
    AssignEnds(put, m, next);
    Uniquely(s);
    UniqueAfter(s.members, m, Promoted(s, m));
    DiffersUnlessShown(s, m, g);
  }

  lemma HandedIsAssign(s: Store, m: MemberId, g: GroupId)
    requires Valid(s) && HandsOver(s, m, g)
    ensures var next := s.members[m].rows[1].group;
      && next in s.groups && s.groups[next].code != ""
      && var handed := Assign(Put(s, m, Succeeded(s.members[m])), m, next);
         && Remove(s, m, g).Done? == handed.Done?
         && (handed.Aborted? ==> Remove(s, m, g) == Aborted(handed.error))
  {
    MemberIsOk(s, m);
    assert Ordered(s.members[m].rows);
    RemovePrimaryShape(s, m);
    hide Valid, MemberOk, Ordered, Remove, Assign, Succeeded;
  }

  lemma PromotedPut(s: Store, m: MemberId)
    requires m in s.members && |s.members[m].rows| >= 2
    ensures var mem, put := s.members[m], Put(s, m, Succeeded(s.members[m]));
      && Promoted(s, m) == WriteNumber(Succeeded(mem), mem.rows[1].group, NextNumber(s, m))
      && put.members[m := Promoted(s, m)] == s.members[m := Promoted(s, m)]
  {
    hide NextNumber, WriteNumber, Succeeded;
  }

  /** Every other removal goes through. */
  lemma OthersGoThrough(s: Store, m: MemberId, g: GroupId)
    requires Valid(s) && m in s.members && !HandsOver(s, m, g)
    ensures Remove(s, m, g).Done?
  {
    var mem := s.members[m];
    var base := Put(s, m, EnsureLegacy(mem));
    Prepared(s, m);
    if |mem.rows| >= 2 && mem.rows[0].group == g {
      MemberIsOk(s, m);
      assert Ordered(mem.rows);
      RemovePrimaryShape(s, m);
    } else if !HasRow(EnsureLegacy(mem).rows, g) {
    } else if IndexOf(EnsureLegacy(mem).rows, g) > 0 {
      RemovePreparedSecondary(base, m, g);
    } else {
      RemoveOnlyShape(base, m);
    }
    hide Valid, MemberOk, Ordered, DeleteRow, Promote, Succeeded, HoldsLess, Settled, RemovedFrom;
  }

  /**
   * A removal is refused exactly when it promotes a group that issues numbers and somebody else
   * shows the number the promotion settles on, visibly or in a mirror row of that group.
   */
  lemma RemovalSucceedsIff(s: Store, m: MemberId, g: GroupId)
    requires Valid(s) && m in s.members
    ensures if Refused(s, m, g) then Remove(s, m, g) == Aborted(Conflict) else Remove(s, m, g).Done?
  {
    if HandsOver(s, m, g) {
      HandOverIff(s, m, g);
    } else {
      OthersGoThrough(s, m, g);
    }
    hide *;
  }

  // ---------------------------------------------------------------- what a removal writes

  lemma DeletedIs(mem: Member, g: GroupId)
    requires HasRow(mem.rows, g)
    ensures var k := IndexOf(mem.rows, g);
      && k < |mem.rows|
      && DeleteRow(mem, g) == mem.(rows := mem.rows[..k] + mem.rows[k + 1..],
                                   mirror := if mem.user.Some? then mem.mirror - {g} else mem.mirror)
  {
  }

  /** Removing a secondary group takes its row and mirror row and leaves everything else of the member as it was. */
  lemma SecondaryRemovalIs(s: Store, m: MemberId, g: GroupId)
    requires Valid(s) && m in s.members && HasRow(s.members[m].rows, g) && IndexOf(s.members[m].rows, g) > 0
    ensures var mem, k := s.members[m], IndexOf(s.members[m].rows, g);
      && k < |mem.rows|
      && Remove(s, m, g) == Done(Put(s, m, mem.(rows := mem.rows[..k] + mem.rows[k + 1..],
           mirror := if mem.user.Some? then mem.mirror - {g} else mem.mirror)), Removal(true, None), [])
  {
    RowsThere(s.members[m].rows, g);
    RemoveIsPrepared(s, m, g);
    RemovePreparedSecondary(s, m, g);
    hide *;
    DeletedIs(s.members[m], g);
  }

  lemma RowsThere(rows: seq<Row>, g: GroupId)
    requires HasRow(rows, g)
    ensures rows != []
  {
  }

  /** Removing the only group, or a pointer without a row, leaves the member without groups and number. */
  lemma OnlyRemovalIs(s: Store, m: MemberId, g: GroupId)
    requires Valid(s) && m in s.members
    requires var mem := s.members[m];
      if mem.rows == [] then mem.group == Some(g) else |mem.rows| == 1 && mem.rows[0].group == g
    ensures Remove(s, m, g) ==
      Done(Put(s, m, Member(s.members[m].user, None, "", [], map[])), Removal(true, None), [])
  {
    var mem := s.members[m];
    var base := Put(s, m, EnsureLegacy(mem));
    Prepared(s, m);
    RemoveOnlyShape(base, m);
    PutTwice(s, m, EnsureLegacy(mem), Cleared(EnsureLegacy(mem)));
    assert Cleared(EnsureLegacy(mem)) == Member(mem.user, None, "", [], map[]);
    hide Valid, RemovePrepared, HoldsLess;
  }

  /** Removing the primary group of a member whose next group issues no numbers. */
  lemma SilentRemovalIs(s: Store, m: MemberId, g: GroupId)
    requires Valid(s) && m in s.members && |s.members[m].rows| >= 2 && s.members[m].rows[0].group == g
    requires CodeOf(s.groups, s.members[m].rows[1].group) == ""
    ensures var mem, next := s.members[m], s.members[m].rows[1];
      Remove(s, m, g) == Done(Put(s, m, Member(mem.user, Some(next.group), "",
        [Row(next.group, 1, next.number)] + mem.rows[2..],
        if mem.user.Some? then mem.mirror - {g} else mem.mirror)), Removal(true, Some(next.group)), [])
  {
    MemberIsOk(s, m);
    assert Ordered(s.members[m].rows) && s.members[m].rows[1].group in s.groups;
    RemovePrimaryShape(s, m);
    hide Valid, MemberOk, Ordered, Remove;
  }

  /** Removing the primary group of a member whose next group does: that group's number goes everywhere. */
  lemma HandOverIs(s: Store, m: MemberId, g: GroupId)
    requires Valid(s) && HandsOver(s, m, g) && Remove(s, m, g).Done?
    ensures var mem, next, number := s.members[m], s.members[m].rows[1].group, NextNumber(s, m);
      Remove(s, m, g).store.members == s.members[m := Member(mem.user, Some(next), number,
        [Row(next, 1, number)] + mem.rows[2..],
        if mem.user.Some? then (mem.mirror - {g})[next := Mirror(number, true)] else mem.mirror)]
  {
    assert m in s.members && |s.members[m].rows| >= 2;
    hide *;
    var put, next := Put(s, m, Succeeded(s.members[m])), s.members[m].rows[1].group;
    HandedIsAssign(s, m, g);
    HandedStore(s, m, g);
    SettledIsNext(s, m, g);
    PutOver(s, m, Succeeded(s.members[m]), s.members[m], map[]);
    PromotedPut(s, m);
    AssignEnds(put, m, next);
    PromotedMemberIs(s, m, g);
  }

  lemma HandedStore(s: Store, m: MemberId, g: GroupId)
    requires Valid(s) && HandsOver(s, m, g) && Remove(s, m, g).Done?
    ensures var next := s.members[m].rows[1].group;
      && next in s.groups
      && var handed := Assign(Put(s, m, Succeeded(s.members[m])), m, next);
         handed.Done? && Remove(s, m, g).store == handed.store
  {
    MemberIsOk(s, m);
    assert Ordered(s.members[m].rows);
    RemovePrimaryShape(s, m);
    hide Valid, MemberOk, Ordered, Remove, Assign, Succeeded;
  }

  lemma SucceededIs(mem: Member, g: GroupId, number: string)
    requires |mem.rows| >= 2 && mem.rows[0].group == g
    ensures var next, after := mem.rows[1].group, Succeeded(mem);
      && Takes(after, next) && after.user == mem.user
      && Renumbered(after.rows, next, number) == [Row(next, 1, number)] + mem.rows[2..]
      && after.mirror == if mem.user.Some? then mem.mirror - {g} else mem.mirror
  {
    var next, after := mem.rows[1].group, Succeeded(mem);
    assert after.rows[0].group == next;
    assert IndexOf(after.rows, next) == 0;
    assert after.rows[0 := after.rows[0].(number := number)] == [Row(next, 1, number)] + mem.rows[2..];
    hide IndexOf;
  }

  lemma PromotedMemberIs(s: Store, m: MemberId, g: GroupId)
    requires Valid(s) && HandsOver(s, m, g)
    ensures var mem, next, number := s.members[m], s.members[m].rows[1].group, NextNumber(s, m);
      Promoted(s, m) == Member(mem.user, Some(next), number, [Row(next, 1, number)] + mem.rows[2..],
        if mem.user.Some? then (mem.mirror - {g})[next := Mirror(number, true)] else mem.mirror)
  {
    assert m in s.members && |s.members[m].rows| >= 2 && s.members[m].rows[0].group == g;
    hide *;
    var mem, number := s.members[m], NextNumber(s, m);
    MemberIsOk(s, m);
    SettledIsNext(s, m, g);
    SucceededWritten(s.groups, mem, number);
    WriteNumberEffect(s.groups, Succeeded(mem), mem.rows[1].group, number);
    SucceededIs(mem, g, number);
    PromotedPut(s, m);
  }

  // ---------------------------------------------------------------- detaching a group

  /** One after another, the removals of a detachment. */
  lemma DetachCons(s: Store, g: GroupId, m: MemberId, rest: seq<MemberId>)
    ensures var r := Detach(s, g, [m] + rest);
      if m !in s.members then r == Detach(s, g, rest)
      else if Remove(s, m, g).Aborted? then r == Aborted(Remove(s, m, g).error)
      else
        var more := Detach(Remove(s, m, g).store, g, rest);
        if more.Aborted? then r == Aborted(more.error) else r.Done? && r.store == more.store
  {
    assert ([m] + rest)[1..] == rest;
    hide Remove;
  }

  /** Detaching the first `k` members goes through, and the next one's removal is refused. */
  ghost predicate StopsAt(s: Store, g: GroupId, order: seq<MemberId>, k: nat) {
    && k < |order| && Detach(s, g, order[..k]).Done?
    && order[k] in s.members && Refused(Detach(s, g, order[..k]).store, order[k], g)
  }

  lemma StopsCons(s: Store, g: GroupId, m: MemberId, rest: seq<MemberId>, k: nat)
    requires m in s.members && Remove(s, m, g).Done?
    ensures StopsAt(s, g, [m] + rest, k + 1) <==> StopsAt(Remove(s, m, g).store, g, rest, k)
  {
    if k < |rest| {
      assert ([m] + rest)[..k + 1] == [m] + rest[..k];
      DetachCons(s, g, m, rest[..k]);
    }
    hide Remove, Refused, Detach;
  }

  lemma StopsSkip(s: Store, g: GroupId, m: MemberId, rest: seq<MemberId>, k: nat)
    requires m !in s.members
    ensures StopsAt(s, g, [m] + rest, k + 1) <==> StopsAt(s, g, rest, k)
  {
    if k < |rest| {
      assert ([m] + rest)[..k + 1] == [m] + rest[..k];
      DetachCons(s, g, m, rest[..k]);
    }
    hide Remove, Refused, Detach;
  }

  lemma StopsFirst(s: Store, g: GroupId, order: seq<MemberId>)
    requires order != []
    ensures StopsAt(s, g, order, 0) <==> order[0] in s.members && Refused(s, order[0], g)
  {
    assert order[..0] == [];
    hide Refused;
  }

  /** A detachment is refused exactly when the removal of one of its members is, at its turn. */
  lemma {:induction false} DetachRefusedIff(s: Store, g: GroupId, order: seq<MemberId>)
    requires Valid(s)
    ensures Detach(s, g, order) == Aborted(Conflict) || Detach(s, g, order).Done?
    ensures Detach(s, g, order) == Aborted(Conflict) <==> exists k: nat :: StopsAt(s, g, order, k)
    decreases order
  {
    hide Valid, Remove, Refused, StopsAt;
    if order == [] {
      assert forall k: nat :: !StopsAt(s, g, order, k) by { NeverStops(s, g); }
    } else {
      var m, rest := order[0], order[1..];
      assert order == [m] + rest;
      DetachCons(s, g, m, rest);
      StopsFirst(s, g, order);
      if m !in s.members {
        hide Detach;
        DetachRefusedIff(s, g, rest);
        forall k: nat
          ensures StopsAt(s, g, order, k + 1) <==> StopsAt(s, g, rest, k)
        {
          StopsSkip(s, g, m, rest, k);
        }
        ShiftedStops(s, order, s, rest, g);
      } else {
        hide Detach;
        RemovalSucceedsIff(s, m, g);
        if !Refused(s, m, g) {
          var t := Remove(s, m, g).store;
          RemoveKeeps(s, m, g);
          DetachRefusedIff(t, g, rest);
          forall k: nat
            ensures StopsAt(s, g, order, k + 1) <==> StopsAt(t, g, rest, k)
          {
            StopsCons(s, g, m, rest, k);
          }
          ShiftedStops(s, order, t, rest, g);
        }
      }
    }
  }

  lemma NeverStops(s: Store, g: GroupId)
    ensures forall k: nat :: !StopsAt(s, g, [], k)
  {
  }

  lemma ShiftedStops(s: Store, order: seq<MemberId>, t: Store, rest: seq<MemberId>, g: GroupId)
    requires !StopsAt(s, g, order, 0)
    requires forall k: nat :: StopsAt(s, g, order, k + 1) <==> StopsAt(t, g, rest, k)
    ensures (exists k: nat :: StopsAt(s, g, order, k)) <==> exists k: nat :: StopsAt(t, g, rest, k)
  {
    hide StopsAt;
    if i: nat :| StopsAt(s, g, order, i) {
      assert StopsAt(s, g, order, (i - 1) + 1);
      assert StopsAt(t, g, rest, i - 1);
    }
    if k: nat :| StopsAt(t, g, rest, k) {
      assert StopsAt(s, g, order, k + 1);
    }
  }
}
