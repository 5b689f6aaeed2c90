/** When a selection of groups is accepted, and what adding a group the member holds does. */
module MemberSelections {
  import opened Common
  import opened IdCodec
  import opened MemberGroups
  import opened MemberGroupProofs
  import opened MemberGroupRuns
  import opened MemberNumbers
  import opened MemberAdditions
  import opened MemberRemovals
  import opened HeldNumbers

  // ---------------------------------------------------------------- a group the member holds

  /** The membership is there, or is the pointer's, and has no number although the group issues numbers. */
  predicate Unnumbered(s: Store, m: MemberId, g: GroupId) {
    && m in s.members && g in s.groups && s.groups[g].code != ""
    && HasRow(EnsureLegacy(s.members[m]).rows, g) && RowNumber(EnsureLegacy(s.members[m]).rows, g) == ""
  }

  /** The number it settles on: the visible one if it has the shape, or else the next. */
  function LateNumber(s: Store, m: MemberId, g: GroupId): string
    requires m in s.members && g in s.groups
  {
    if KeepsNumber(s, m, g) then s.members[m].number
    else FormatMemberId(s.groups[g].code, LastSequence(Put(s, m, EnsureLegacy(s.members[m])), g) + 1)
  }

  /** The other member shows the number where it would be written. */
  predicate LateTakenBy(s: Store, m: MemberId, g: GroupId, number: string, n: MemberId)
    requires m in s.members && n in s.members
  {
    || (s.members[m].group == Some(g) && s.members[n].number == number)
    || (s.members[m].user.Some? && g in s.members[n].mirror && s.members[n].mirror[g].number == number)
  }

  ghost predicate LateTaken(s: Store, m: MemberId, g: GroupId)
    requires m in s.members && g in s.groups
  {
    exists n :: n in s.members && n != m && LateTakenBy(s, m, g, LateNumber(s, m, g), n)
  }

  /** The member with the number in every record of the group. */
  function LateMember(s: Store, m: MemberId, g: GroupId): Member
    requires m in s.members && g in s.groups
  {
    WriteNumber(EnsureLegacy(s.members[m]), g, LateNumber(s, m, g))
  }

  lemma PreparedIs(s: Store, m: MemberId)
    requires Valid(s) && m in s.members
    ensures var base, put := EnsureLegacy(s.members[m]), Put(s, m, EnsureLegacy(s.members[m]));
      && Valid(put) && MemberOk(s.groups, base) && m in put.members && put.members[m] == base
      && put.groups == s.groups && put.counters == s.counters && put.members.Keys == s.members.Keys
      && (base.rows == [] ==> base.group.None?)
      && base.user == s.members[m].user && base.group == s.members[m].group
      && base.number == s.members[m].number && base.mirror == s.members[m].mirror
  {
    Prepared(s, m);
    EnsureLegacyOk(s.groups, s.members[m]);
    hide Valid, MemberOk;
  }

  lemma UnnumberedNoMirror(groups: map<GroupId, Group>, mem: Member, g: GroupId)
    requires MemberOk(groups, mem) && HasRow(mem.rows, g) && RowNumber(mem.rows, g) == "" && g in groups
    ensures g !in mem.mirror && mem.group.Some? && mem.rows != []
    ensures KnownNumber(mem, g, groups[g].code) ==
      if MembershipNumberMatches(mem.number, groups[g].code) then mem.number else ""
  {
    hide MembershipNumberMatches;
  }

  lemma KnownAddIs(s: Store, m: MemberId, g: GroupId)
    requires m in s.members && g in s.groups && s.members[m].group.Some?
    requires HasRow(s.members[m].rows, g)
    ensures AddKnown(s, m, g) ==
      if RowNumber(s.members[m].rows, g) == "" && s.groups[g].code != "" then
        (if Assign(s, m, g).Done? then Done(Assign(s, m, g).store, false, Assign(s, m, g).minted)
         else Aborted(Assign(s, m, g).error))
      else Done(s, false, [])
  {
    assert Put(s, m, s.members[m]) == s;
    hide Assign, HasRow, RowNumber;
  }

  lemma HeldAddIs(s: Store, m: MemberId, g: GroupId)
    requires m in s.members && g in s.groups && HasRow(EnsureLegacy(s.members[m]).rows, g)
    ensures m in Put(s, m, EnsureLegacy(s.members[m])).members
    ensures Put(s, m, EnsureLegacy(s.members[m])).members[m] == EnsureLegacy(s.members[m])
    ensures Add(s, m, g) == AddKnown(Put(s, m, EnsureLegacy(s.members[m])), m, g)
  {
    hide AddKnown, AddNew, HasRow, EnsureLegacy;
  }

  /** What adding such a group writes. */
  lemma LateMemberIs(s: Store, m: MemberId, g: GroupId)
    requires Valid(s) && Unnumbered(s, m, g)
    ensures var base, after, number := EnsureLegacy(s.members[m]), LateMember(s, m, g), LateNumber(s, m, g);
      && number != "" && after.user == base.user && after.group == base.group
      && after.number == (if base.group == Some(g) then number else base.number)
      && after.rows == base.rows[IndexOf(base.rows, g) := base.rows[IndexOf(base.rows, g)].(number := number)]
      && after.mirror ==
           (if base.user.Some? then base.mirror[g := Mirror(number, base.group == Some(g))] else base.mirror)
  {
    var base, number := EnsureLegacy(s.members[m]), LateNumber(s, m, g);
    PreparedIs(s, m);
    UnnumberedNoMirror(s.groups, base, g);
    LateIsText(s, m, g);
    assert Assignable(s.groups, base, g, number);
    WriteNumberEffect(s.groups, base, g, number);
    hide Valid, MemberOk, WriteNumber, LateNumber, KnownNumber;
  }

  lemma LateIsText(s: Store, m: MemberId, g: GroupId)
    requires m in s.members && g in s.groups
    ensures LateNumber(s, m, g) != ""
  {
    hide LastSequence;
  }

  lemma LateNumberIs(s: Store, m: MemberId, g: GroupId)
    requires m in s.members && g in s.groups
    ensures var mem, code, put := s.members[m], s.groups[g].code, Put(s, m, EnsureLegacy(s.members[m]));
      && LateNumber(s, m, g) ==
           (if MembershipNumberMatches(mem.number, code) then mem.number
             else FormatMemberId(code, LastSequence(put, g) + 1))
      && (MembershipNumberMatches(mem.number, code) ==> mem.number != "")
  {
    hide LastSequence, FormatMemberId, EnsureLegacy;
  }

  lemma LateIsSettled(s: Store, m: MemberId, g: GroupId)
    requires Valid(s) && Unnumbered(s, m, g)
    ensures var put := Put(s, m, EnsureLegacy(s.members[m]));
      && m in put.members && g in put.groups && SettledNumber(put, m, g) == LateNumber(s, m, g)
  {
    UnnumberedIn(s, m, g);
    hide *;
    var base := EnsureLegacy(s.members[m]);
    PreparedIs(s, m);
    UnnumberedNoMirror(s.groups, base, g);
    SettledIs(Put(s, m, base), m, g);
    LateNumberIs(s, m, g);
  }

  lemma LatePairDiffers(mem: Member, after: Member, other: Member, g: GroupId, number: string)
    requires NumbersDiffer(mem, other) && NumbersDiffer(other, mem) && (mem.user.None? ==> mem.mirror == map[])
    requires number != "" && after.number == (if mem.group == Some(g) then number else mem.number)
    requires after.mirror == if mem.user.Some? then mem.mirror[g := Mirror(number, mem.group == Some(g))]
      else mem.mirror
    ensures NumbersDiffer(after, other) && NumbersDiffer(other, after) <==>
      !((mem.group == Some(g) && other.number == number)
        || (mem.user.Some? && g in other.mirror && other.mirror[g].number == number))
  {
  }

  lemma LateDiffersFrom(s: Store, m: MemberId, g: GroupId, n: MemberId)
    requires Valid(s) && Unnumbered(s, m, g) && n in s.members && n != m
    ensures var after, other := LateMember(s, m, g), s.members[n];
      NumbersDiffer(after, other) && NumbersDiffer(other, after) <==> !LateTakenBy(s, m, g, LateNumber(s, m, g), n)
  {
    LateMemberIs(s, m, g);
    PreparedIs(s, m);
    assert NumbersDiffer(s.members[m], s.members[n]) && NumbersDiffer(s.members[n], s.members[m]);
    NoUserNoMirror(s, m);
    hide Valid, MemberOk, LateMember, LateNumber, NumbersDiffer, EnsureLegacy, Unnumbered, IndexOf;
    LatePairDiffers(s.members[m], LateMember(s, m, g), s.members[n], g, LateNumber(s, m, g));
  }

  lemma LateDiffersUnlessTaken(s: Store, m: MemberId, g: GroupId)
    requires Valid(s) && Unnumbered(s, m, g)
    ensures DiffersFromOthers(s.members, m, LateMember(s, m, g)) <==> !LateTaken(s, m, g)
  {
    forall n | n in s.members && n != m
      ensures NumbersDiffer(LateMember(s, m, g), s.members[n]) && NumbersDiffer(s.members[n], LateMember(s, m, g))
        <==> !LateTakenBy(s, m, g, LateNumber(s, m, g), n)
    {
      LateDiffersFrom(s, m, g, n);
    }
    hide Valid, LateMember, LateNumber, LateTakenBy, NumbersDiffer, Unnumbered;
  }

  lemma LatePut(s: Store, m: MemberId, g: GroupId)
    requires m in s.members && g in s.groups
    ensures var put := Put(s, m, EnsureLegacy(s.members[m]));
      && LateMember(s, m, g) == WriteNumber(EnsureLegacy(s.members[m]), g, LateNumber(s, m, g))
      && put.members[m := LateMember(s, m, g)] == s.members[m := LateMember(s, m, g)]
  {
    hide LateNumber, WriteNumber, EnsureLegacy;
  }

  /**
   * Adding a group the member holds without a number gives the membership one, in every record, and
   * is refused exactly when somebody else shows it where it would be written.
   */
  lemma LateNumberIff(s: Store, m: MemberId, g: GroupId)
    requires Valid(s) && Unnumbered(s, m, g)
    ensures if LateTaken(s, m, g) then Add(s, m, g) == Aborted(Conflict)
      else Add(s, m, g).Done? && !Add(s, m, g).value
           && Add(s, m, g).store.members == s.members[m := LateMember(s, m, g)]
  {
    UnnumberedIn(s, m, g);
    hide *;
    var base := EnsureLegacy(s.members[m]);
    var put := Put(s, m, base);
    PreparedIs(s, m);
    UnnumberedNoMirror(s.groups, base, g);
    HeldAddIs(s, m, g);
    KnownAddIs(put, m, g);
    LateIsSettled(s, m, g);
    LatePut(s, m, g);
    AssignEnds(put, m, g);
    Uniquely(s);
    UniqueAfter(s.members, m, LateMember(s, m, g));
    LateDiffersUnlessTaken(s, m, g);
  }

  lemma UnnumberedIn(s: Store, m: MemberId, g: GroupId)
    requires Unnumbered(s, m, g)
    ensures m in s.members && g in s.groups && s.groups[g].code != ""
    ensures HasRow(EnsureLegacy(s.members[m]).rows, g) && RowNumber(EnsureLegacy(s.members[m]).rows, g) == ""
  {
  }

  /**
   * Adding a group whose membership has its number, or that issues none, changes nothing but
   * materialises a pointer.
   */
  lemma HeldAgain(s: Store, m: MemberId, g: GroupId)
    requires Valid(s) && m in s.members && g in s.groups
    requires HasRow(EnsureLegacy(s.members[m]).rows, g) && !Unnumbered(s, m, g)
    ensures Add(s, m, g) == Done(Put(s, m, EnsureLegacy(s.members[m])), false, [])
  {
    var put := Put(s, m, EnsureLegacy(s.members[m]));
    PreparedIs(s, m);
    HeldAddIs(s, m, g);
    RowsHavePointer(s.groups, EnsureLegacy(s.members[m]), g);
    KnownAddIs(put, m, g);
    hide Valid, MemberOk, Add, AddKnown, Assign, EnsureLegacy, HasRow, RowNumber;
  }

  lemma RowsHavePointer(groups: map<GroupId, Group>, mem: Member, g: GroupId)
    requires MemberOk(groups, mem) && HasRow(mem.rows, g)
    ensures mem.group.Some?
  {
  }

  // ---------------------------------------------------------------- every addition

  /** A unique constraint would refuse the addition. */
  ghost predicate AddRefused(s: Store, m: MemberId, g: GroupId) {
    && m in s.members && g in s.groups && s.groups[g].code != ""
    && ((NewGroup(s, m, g) && Taken(s, m, g, NumberFor(s, m, g))) || (Unnumbered(s, m, g) && LateTaken(s, m, g)))
  }

  /** An addition is refused exactly when somebody else shows the number it settles on where it would be written. */
  lemma AddEndsIff(s: Store, m: MemberId, g: GroupId)
    requires Valid(s) && m in s.members && g in s.groups
    ensures if AddRefused(s, m, g) then Add(s, m, g) == Aborted(Conflict) else Add(s, m, g).Done?
  {
    if NewGroup(s, m, g) {
      AdditionSucceedsIff(s, m, g);
    } else if Unnumbered(s, m, g) {
      LateNumberIff(s, m, g);
    } else {
      HeldAgain(s, m, g);
    }
    hide Valid, Add, Taken, LateTaken, NumberFor, Unnumbered, HasRow, EnsureLegacy;
  }

  // ---------------------------------------------------------------- removing and adding one by one

  /** Removing the first `k` groups goes through, and the next removal is refused. */
  ghost predicate RemovalStops(s: Store, m: MemberId, gs: seq<GroupId>, k: nat)
    requires m in s.members
  {
    && k < |gs| && RemoveAll(s, m, gs[..k]).Done?
    && Refused(RemoveAll(s, m, gs[..k]).store, m, gs[k])
  }

  lemma RemoveAllCons(s: Store, m: MemberId, g: GroupId, rest: seq<GroupId>)
    requires m in s.members
    ensures var r, first := RemoveAll(s, m, [g] + rest), Remove(s, m, g);
      if first.Aborted? then r == Aborted(first.error)
      else
        && m in first.store.members
        && var more := RemoveAll(first.store, m, rest);
           if more.Aborted? then r == Aborted(more.error) else r.Done? && r.store == more.store
  {
    assert ([g] + rest)[1..] == rest;
    hide Remove;
  }

  lemma RemovalStopsCons(s: Store, m: MemberId, g: GroupId, rest: seq<GroupId>, k: nat)
    requires m in s.members && Remove(s, m, g).Done?
    ensures m in Remove(s, m, g).store.members
    ensures RemovalStops(s, m, [g] + rest, k + 1) <==> RemovalStops(Remove(s, m, g).store, m, rest, k)
  {
    if k < |rest| {
      assert ([g] + rest)[..k + 1] == [g] + rest[..k];
      RemoveAllCons(s, m, g, rest[..k]);
    }
    hide Remove, Refused, RemoveAll;
  }

  lemma RemovalStopsFirst(s: Store, m: MemberId, gs: seq<GroupId>)
    requires m in s.members && gs != []
    ensures RemovalStops(s, m, gs, 0) <==> Refused(s, m, gs[0])
  {
    assert gs[..0] == [];
    hide Refused;
  }

  lemma NoRemovalStops(s: Store, m: MemberId)
    requires m in s.members
    ensures forall k: nat :: !RemovalStops(s, m, [], k)
  {
  }

  lemma {:induction false} RemoveAllIff(s: Store, m: MemberId, gs: seq<GroupId>)
    requires Valid(s) && m in s.members
    ensures RemoveAll(s, m, gs) == Aborted(Conflict) || RemoveAll(s, m, gs).Done?
    ensures RemoveAll(s, m, gs) == Aborted(Conflict) <==> exists k: nat :: RemovalStops(s, m, gs, k)
    decreases gs
  {
    hide Valid, Remove, Refused, RemovalStops;
    if gs == [] {
      NoRemovalStops(s, m);
    } else {
      var g, rest := gs[0], gs[1..];
      assert gs == [g] + rest;
      RemoveAllCons(s, m, g, rest);
      RemovalStopsFirst(s, m, gs);
      RemovalSucceedsIff(s, m, g);
      hide RemoveAll;
      if !Refused(s, m, g) {
        var t := Remove(s, m, g).store;
        RemoveKeeps(s, m, g);
        RemoveAllIff(t, m, rest);
        forall k: nat
          ensures RemovalStops(s, m, gs, k + 1) <==> RemovalStops(t, m, rest, k)
        {
          RemovalStopsCons(s, m, g, rest, k);
        }
        ShiftedRemovals(s, m, gs, t, rest);
      }
    }
  }

  lemma ShiftedRemovals(s: Store, m: MemberId, gs: seq<GroupId>, t: Store, rest: seq<GroupId>)
    requires m in s.members && m in t.members && !RemovalStops(s, m, gs, 0)
    requires forall k: nat :: RemovalStops(s, m, gs, k + 1) <==> RemovalStops(t, m, rest, k)
    ensures (exists k: nat :: RemovalStops(s, m, gs, k)) <==> exists k: nat :: RemovalStops(t, m, rest, k)
  {
    hide RemovalStops;
    if i: nat :| RemovalStops(s, m, gs, i) {
      assert RemovalStops(s, m, gs, (i - 1) + 1);
      assert RemovalStops(t, m, rest, i - 1);
    }
    if k: nat :| RemovalStops(t, m, rest, k) {
      assert RemovalStops(s, m, gs, k + 1);
    }
  }

  /** Adding the first `k` groups goes through, and the next one's addition is refused. */
  ghost predicate AdditionStops(s: Store, m: MemberId, gs: seq<GroupId>, managed: Option<GroupId>, k: nat)
    requires m in s.members
  {
    && k < |gs| && AddAll(s, m, gs[..k], managed).Done? && Manages(managed, gs[k]) && Live(s.groups, gs[k])
    && AddRefused(AddAll(s, m, gs[..k], managed).store, m, gs[k])
  }

  lemma AddAllCons(s: Store, m: MemberId, g: GroupId, rest: seq<GroupId>, managed: Option<GroupId>)
    requires m in s.members
    ensures var r := AddAll(s, m, [g] + rest, managed);
      if !Manages(managed, g) then r == Aborted(NotManaged)
      else if !Live(s.groups, g) then r == AddAll(s, m, rest, managed)
      else if Add(s, m, g).Aborted? then r == Aborted(Add(s, m, g).error)
      else
        && m in Add(s, m, g).store.members && Add(s, m, g).store.groups == s.groups
        && var more := AddAll(Add(s, m, g).store, m, rest, managed);
           if more.Aborted? then r == Aborted(more.error) else r.Done? && r.store == more.store
  {
    assert ([g] + rest)[1..] == rest;
    hide Add;
  }

  lemma AdditionStopsCons(s: Store, m: MemberId, g: GroupId, rest: seq<GroupId>, managed: Option<GroupId>, k: nat)
    requires m in s.members && Manages(managed, g) && Live(s.groups, g) && Add(s, m, g).Done?
    ensures m in Add(s, m, g).store.members
    ensures AdditionStops(s, m, [g] + rest, managed, k + 1) <==> AdditionStops(Add(s, m, g).store, m, rest, managed, k)
  {
    AddAllCons(s, m, g, [], managed);
    if k < |rest| {
      assert ([g] + rest)[..k + 1] == [g] + rest[..k];
      AddAllCons(s, m, g, rest[..k], managed);
    }
    hide Add, AddRefused, AddAll;
  }

  lemma AdditionStopsSkip(s: Store, m: MemberId, g: GroupId, rest: seq<GroupId>, managed: Option<GroupId>, k: nat)
    requires m in s.members && Manages(managed, g) && !Live(s.groups, g)
    ensures AdditionStops(s, m, [g] + rest, managed, k + 1) <==> AdditionStops(s, m, rest, managed, k)
  {
    if k < |rest| {
      assert ([g] + rest)[..k + 1] == [g] + rest[..k];
      AddAllCons(s, m, g, rest[..k], managed);
    }
    hide Add, AddRefused, AddAll;
  }

  lemma AdditionStopsFirst(s: Store, m: MemberId, gs: seq<GroupId>, managed: Option<GroupId>)
    requires m in s.members && gs != []
    ensures AdditionStops(s, m, gs, managed, 0)
      <==> Manages(managed, gs[0]) && Live(s.groups, gs[0]) && AddRefused(s, m, gs[0])
  {
    assert gs[..0] == [];
    hide AddRefused;
  }

  lemma NoAdditionStops(s: Store, m: MemberId, managed: Option<GroupId>)
    requires m in s.members
    ensures forall k: nat :: !AdditionStops(s, m, [], managed, k)
  {
  }

  lemma NothingAfterUnmanaged(s: Store, m: MemberId, gs: seq<GroupId>, managed: Option<GroupId>)
    requires m in s.members && gs != [] && !Manages(managed, gs[0])
    ensures forall k: nat :: !AdditionStops(s, m, gs, managed, k)
  {
    forall k: nat
      ensures !AdditionStops(s, m, gs, managed, k)
    {
      if 0 < k < |gs| {
        assert gs[..k] == [gs[0]] + gs[1..k];
        AddAllCons(s, m, gs[0], gs[1..k], managed);
      }
    }
    hide AddAll, AddRefused;
  }

  lemma ShiftedAdditions(s: Store, m: MemberId, gs: seq<GroupId>, t: Store, rest: seq<GroupId>,
      managed: Option<GroupId>)
    requires m in s.members && m in t.members && !AdditionStops(s, m, gs, managed, 0)
    requires forall k: nat :: AdditionStops(s, m, gs, managed, k + 1) <==> AdditionStops(t, m, rest, managed, k)
    ensures (exists k: nat :: AdditionStops(s, m, gs, managed, k))
      <==> exists k: nat :: AdditionStops(t, m, rest, managed, k)
  {
    hide AdditionStops;
    if i: nat :| AdditionStops(s, m, gs, managed, i) {
      assert AdditionStops(s, m, gs, managed, (i - 1) + 1);
      assert AdditionStops(t, m, rest, managed, i - 1);
    }
    if k: nat :| AdditionStops(t, m, rest, managed, k) {
      assert AdditionStops(s, m, gs, managed, k + 1);
    }
  }

  ghost predicate AllManaged(gs: seq<GroupId>, managed: Option<GroupId>) {
    forall g :: g in gs ==> Manages(managed, g)
  }

  /** How a list of additions ends: with a refused one, or at an unmanaged group, or with all of them done. */
  lemma {:induction false} AddAllIff(s: Store, m: MemberId, gs: seq<GroupId>, managed: Option<GroupId>)
    requires Valid(s) && m in s.members
    ensures var r := AddAll(s, m, gs, managed);
      && (r == Aborted(Conflict) <==> exists k: nat :: AdditionStops(s, m, gs, managed, k))
      && (r == Aborted(NotManaged) <==>
            !AllManaged(gs, managed) && forall k: nat :: !AdditionStops(s, m, gs, managed, k))
      && (r.Done? <==> AllManaged(gs, managed) && forall k: nat :: !AdditionStops(s, m, gs, managed, k))
    decreases gs
  {
    hide Valid, Add, AddRefused, AdditionStops, Live;
    if gs == [] {
      NoAdditionStops(s, m, managed);
    } else {
      var g, rest := gs[0], gs[1..];
      assert gs == [g] + rest;
      AddAllCons(s, m, g, rest, managed);
      AdditionStopsFirst(s, m, gs, managed);
      ManagedCons(g, rest, managed);
      hide AddAll, AllManaged;
      if !Manages(managed, g) {
        NothingAfterUnmanaged(s, m, gs, managed);
      } else if !Live(s.groups, g) {
        AddAllIff(s, m, rest, managed);
        forall k: nat
          ensures AdditionStops(s, m, gs, managed, k + 1) <==> AdditionStops(s, m, rest, managed, k)
        {
          AdditionStopsSkip(s, m, g, rest, managed, k);
        }
        ShiftedAdditions(s, m, gs, s, rest, managed);
      } else {
        LiveIsIn(s.groups, g);
        AddEndsIff(s, m, g);
        if !AddRefused(s, m, g) {
          var t := Add(s, m, g).store;
          AddKeeps(s, m, g);
          AddAllIff(t, m, rest, managed);
          forall k: nat
            ensures AdditionStops(s, m, gs, managed, k + 1) <==> AdditionStops(t, m, rest, managed, k)
          {
            AdditionStopsCons(s, m, g, rest, managed, k);
          }
          ShiftedAdditions(s, m, gs, t, rest, managed);
        }
      }
    }
  }

  lemma LiveIsIn(groups: map<GroupId, Group>, g: GroupId)
    requires Live(groups, g)
    ensures g in groups
  {
  }

  lemma ManagedCons(g: GroupId, rest: seq<GroupId>, managed: Option<GroupId>)
    ensures AllManaged([g] + rest, managed) <==> Manages(managed, g) && AllManaged(rest, managed)
  {
    hide Manages;
    if AllManaged([g] + rest, managed) {
      assert forall x :: x in rest ==> x in [g] + rest;
      assert g in [g] + rest;
    }
  }

  // ---------------------------------------------------------------- selections

  /** The groups of the member's rows, or its pointer's when it has none. */
  function CurrentGroups(mem: Member): seq<GroupId> {
    if mem.rows != [] then Groups(mem.rows) else if mem.group.Some? then [mem.group.value] else []
  }

  lemma CurrentIs(mem: Member)
    ensures Groups(EnsureLegacy(mem).rows) == CurrentGroups(mem)
  {
  }

  /** Some group to be added is not the caller's to add. */
  predicate AsksUnmanaged(mem: Member, ids: seq<GroupId>, managed: Option<GroupId>) {
    exists g :: g in ids && g !in CurrentGroups(mem) && !Manages(managed, g)
  }

  lemma MissingManaged(mem: Member, ids: seq<GroupId>, managed: Option<GroupId>)
    ensures AllManaged(Missing(CurrentGroups(mem), Dedup(ids)), managed) <==> !AsksUnmanaged(mem, ids, managed)
  {
    hide Manages, CurrentGroups;
  }

  lemma DedupEmpty(ids: seq<GroupId>)
    ensures Dedup(ids) == [] <==> ids == []
  {
    if ids != [] {
      assert ids[0] in Dedup(ids);
    }
    hide Dedup;
  }

  /** The tables a selection starts from, and the groups it removes and adds. */
  function SelectionStart(s: Store, m: MemberId): Store
    requires m in s.members
  {
    Put(s, m, EnsureLegacy(s.members[m]))
  }

  function ToRemove(s: Store, m: MemberId, ids: seq<GroupId>, managed: Option<GroupId>): seq<GroupId>
    requires m in s.members
  {
    Dropped(CurrentGroups(s.members[m]), Dedup(ids), managed)
  }

  function ToAdd(s: Store, m: MemberId, ids: seq<GroupId>): seq<GroupId>
    requires m in s.members
  {
    Missing(CurrentGroups(s.members[m]), Dedup(ids))
  }

  /** One of the removals, or after all of them one of the additions, is refused at its turn. */
  ghost predicate SelectionStops(s: Store, m: MemberId, ids: seq<GroupId>, managed: Option<GroupId>)
    requires m in s.members
  {
    var start, gone := SelectionStart(s, m), ToRemove(s, m, ids, managed);
    || (exists k: nat :: RemovalStops(start, m, gone, k))
    || (RemoveAll(start, m, gone).Done?
        && exists k: nat :: AdditionStops(RemoveAll(start, m, gone).store, m, ToAdd(s, m, ids), managed, k))
  }

  lemma SelectionShape(s: Store, m: MemberId, ids: seq<GroupId>, managed: Option<GroupId>)
    requires m in s.members
    ensures var r, start, first := Sync(s, m, ids, managed), SelectionStart(s, m),
        RemoveAll(SelectionStart(s, m), m, ToRemove(s, m, ids, managed));
      && m in start.members && (first.Done? ==> m in first.store.members)
      && if ids == [] then r == Aborted(EmptySelection)
         else if first.Aborted? then r == Aborted(first.error)
         else
           var rest := AddAll(first.store, m, ToAdd(s, m, ids), managed);
           if rest.Aborted? then r == Aborted(rest.error) else r.Done?
  {
    CurrentIs(s.members[m]);
    DedupEmpty(ids);
    hide EnsureLegacy, RemoveAll, AddAll, Dropped, Missing, Dedup, CurrentGroups, Groups;
  }

  /**
   * How a selection ends: as empty exactly when nothing is selected; in a conflict exactly when one
   * of its removals or additions is refused at its turn; as not managed exactly when otherwise some
   * selected group the member does not have is not the caller's; and accepted in all other cases.
   */
  lemma SelectionIff(s: Store, m: MemberId, ids: seq<GroupId>, managed: Option<GroupId>)
    requires Valid(s) && m in s.members
    ensures var r, stops, asks := Sync(s, m, ids, managed), SelectionStops(s, m, ids, managed),
        AsksUnmanaged(s.members[m], ids, managed);
      && (r == Aborted(EmptySelection) <==> ids == [])
      && (r == Aborted(Conflict) <==> ids != [] && stops)
      && (r == Aborted(NotManaged) <==> ids != [] && !stops && asks)
      && (r.Done? <==> ids != [] && !stops && !asks)
  {
    hide *;
    var start, gone, added := SelectionStart(s, m), ToRemove(s, m, ids, managed), ToAdd(s, m, ids);
    SelectionShape(s, m, ids, managed);
    StartValid(s, m);
    SelectionStopsIs(s, m, ids, managed);
    RemoveAllIff(start, m, gone);
    if RemoveAll(start, m, gone).Done? {
      RemoveAllKeeps(start, m, gone);
      AddAllIff(RemoveAll(start, m, gone).store, m, added, managed);
      AddsManaged(s, m, ids, managed);
    }
  }

  lemma StartValid(s: Store, m: MemberId)
    requires Valid(s) && m in s.members
    ensures Valid(SelectionStart(s, m)) && m in SelectionStart(s, m).members
    ensures Settled(SelectionStart(s, m).members[m])
  {
    Prepared(s, m);
    hide Valid, EnsureLegacy;
  }

  lemma SelectionStopsIs(s: Store, m: MemberId, ids: seq<GroupId>, managed: Option<GroupId>)
    requires m in s.members
    ensures var start, gone := SelectionStart(s, m), ToRemove(s, m, ids, managed);
      && m in start.members && (RemoveAll(start, m, gone).Done? ==> m in RemoveAll(start, m, gone).store.members)
      && (SelectionStops(s, m, ids, managed) <==>
            (exists k: nat :: RemovalStops(start, m, gone, k))
            || (RemoveAll(start, m, gone).Done?
                && exists k: nat :: AdditionStops(RemoveAll(start, m, gone).store, m, ToAdd(s, m, ids), managed, k)))
  {
    hide RemovalStops, AdditionStops, RemoveAll, ToAdd, ToRemove, EnsureLegacy;
  }

  lemma AddsManaged(s: Store, m: MemberId, ids: seq<GroupId>, managed: Option<GroupId>)
    requires m in s.members
    ensures AllManaged(ToAdd(s, m, ids), managed) <==> !AsksUnmanaged(s.members[m], ids, managed)
  {
    MissingManaged(s.members[m], ids, managed);
    hide Missing, Dedup, CurrentGroups, AllManaged, AsksUnmanaged;
  }

  /** Where every number is accounted for, only an empty selection and an unmanaged group are refused. */
  lemma SelectionAccepted(s: Store, m: MemberId, ids: seq<GroupId>, managed: Option<GroupId>)
    requires Accounted(s) && m in s.members
    ensures var r, asks := Sync(s, m, ids, managed), AsksUnmanaged(s.members[m], ids, managed);
      && (r.Done? <==> ids != [] && !asks)
      && (r == Aborted(EmptySelection) <==> ids == [])
      && (r == Aborted(NotManaged) <==> ids != [] && asks)
  {
    assert Valid(s);
    hide Accounted, Valid, SelectionStops, AsksUnmanaged, Sync;
    SelectionIff(s, m, ids, managed);
    NothingConflicts(s, SyncOp(m, ids, managed));
  }

  /** A member without groups and one group that has issued no number yet. */
  function Newcomer(): Store {
    Store(map[7 := Group("MP0901", false)], map[0 := Member(None, None, "", [], map[])], map[7 := 0])
  }

  lemma NewcomerAccounted()
    ensures Accounted(Newcomer()) && 0 in Newcomer().members
    ensures CurrentGroups(Newcomer().members[0]) == []
  {
    var s := Newcomer();
    assert MemberOk(s.groups, s.members[0]);
    assert Valid(s) by { hide MemberOk; }
    assert forall limit: nat :: ApartTo(s.groups, limit);
    hide Valid;
    NothingHeldYet(s);
  }

  /** Selecting a first group for a new member. */
  lemma FirstSelection()
    ensures var s := Newcomer();
      0 in s.members && Sync(s, 0, [7], None).Done?
  {
    var s := Newcomer();
    NewcomerAccounted();
    hide Accounted, Sync;
    SelectionAccepted(s, 0, [7], None);
  }

  /**
   * The groups after an accepted selection: of the member's own those selected or not the caller's to
   * drop, and of the others those selected that are stored and not deleted.
   */
  lemma SelectedGroups(s: Store, m: MemberId, ids: seq<GroupId>, managed: Option<GroupId>, g: GroupId)
    requires Valid(s) && m in s.members && Sync(s, m, ids, managed).Done?
    ensures m in Sync(s, m, ids, managed).store.members
    ensures g in Groups(Sync(s, m, ids, managed).store.members[m].rows) <==>
      if g in CurrentGroups(s.members[m]) then g in ids || (managed.Some? && managed.value != g)
      else g in ids && g in s.groups && !s.groups[g].deleted
  {
    SyncKeeps(s, m, ids, managed);
    CurrentIs(s.members[m]);
    hide Valid, Sync, Dedup, EnsureLegacy, CurrentGroups, Groups;
  }

  // ---------------------------------------------------------------- the order of a selection

  /** A selection keeps the order in which groups are first named. */
  lemma {:induction false} DedupInOrder(ids: seq<GroupId>, i: nat, j: nat)
    requires i < j < |Dedup(ids)|
    ensures exists p :: 0 <= p < |ids| && ids[p] == Dedup(ids)[i] && Dedup(ids)[j] !in ids[..p + 1]
  {
    var n := |ids| - 1;
    var front := Dedup(ids[..n]);
    if j < |front| {
      DedupInOrder(ids[..n], i, j);
      var p :| 0 <= p < n && ids[..n][p] == front[i] && front[j] !in ids[..n][..p + 1];
      assert ids[..n][..p + 1] == ids[..p + 1];
      assert ids[p] == Dedup(ids)[i];
    } else {
      assert front[i] in ids[..n];
      var p :| 0 <= p < n && ids[..n][p] == front[i];
      assert Dedup(ids)[j] == ids[n] && ids[n] !in front && ids[n] !in ids[..n];
      assert forall x :: x in ids[..p + 1] ==> x in ids[..n];
      assert ids[p] == Dedup(ids)[i];
    }
  }
}
