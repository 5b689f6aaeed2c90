/** What an addition writes, and when the unique constraints refuse it. */
module MemberAdditions {
  import opened Common
  import opened Decimal
  import opened IdCodec
  import opened MemberGroups
  import opened MemberGroupProofs
  import opened MemberNumbers

  /** The sequence a new membership mints: its row is stored before the rows are counted. */
  function NextSequence(s: Store, g: GroupId): nat {
    if g in s.counters then s.counters[g] + 1
    else if Mirrored(s, g) != {} then |Mirrored(s, g)| + 1
    else |Affected(s, g)| + 2
  }

  /** A visible number that has the shape of the group's IDs is kept; otherwise one is minted. */
  predicate KeepsNumber(s: Store, m: MemberId, g: GroupId)
    requires m in s.members && g in s.groups
  {
    MembershipNumberMatches(s.members[m].number, s.groups[g].code)
  }

  function NumberFor(s: Store, m: MemberId, g: GroupId): string
    requires m in s.members && g in s.groups
  {
    if KeepsNumber(s, m, g) then s.members[m].number else FormatMemberId(s.groups[g].code, NextSequence(s, g))
  }

  /** Somebody else shows the number where the addition would write it. */
  ghost predicate Taken(s: Store, m: MemberId, g: GroupId, number: string)
    requires m in s.members
  {
    exists n :: n in s.members && n != m && TakenBy(s, m, g, number, n)
  }

  /** The visible number is written for a first group, the mirror for a member with a user. */
  predicate TakenBy(s: Store, m: MemberId, g: GroupId, number: string, n: MemberId)
    requires m in s.members && n in s.members
  {
    || (EnsureLegacy(s.members[m]).rows == [] && s.members[n].number == number)
    || (s.members[m].user.Some? && g in s.members[n].mirror && s.members[n].mirror[g].number == number)
  }

  function Extension(s: Store, m: MemberId, g: GroupId): Member
    requires m in s.members
  {
    Appended(EnsureLegacy(s.members[m]), g)
  }

  ghost predicate NewGroup(s: Store, m: MemberId, g: GroupId) {
    m in s.members && g in s.groups && !HasRow(EnsureLegacy(s.members[m]).rows, g)
  }

  lemma ExtensionOk(s: Store, m: MemberId, g: GroupId)
    requires Valid(s) && NewGroup(s, m, g)
    ensures var base := EnsureLegacy(s.members[m]);
      && MemberOk(s.groups, base) && MemberOk(s.groups, Extension(s, m, g))
      && InsertRow(base, g) == Extension(s, m, g)
      && (base.rows == [] ==> base.group.None?)
      && base.number == s.members[m].number && base.mirror == s.members[m].mirror && g !in base.mirror
      && RowNumber(Extension(s, m, g).rows, g) == ""
  {
    var base := EnsureLegacy(s.members[m]);
    EnsureLegacyOk(s.groups, s.members[m]);
    AppendedOk(s.groups, base, g);
    InsertRowIsAppended(base, g);
  }

  lemma ExtensionRow(s: Store, m: MemberId, g: GroupId)
    requires Valid(s) && NewGroup(s, m, g)
    ensures var after := Extension(s, m, g);
      && HasRow(after.rows, g) && !HasRow(s.members[m].rows, g)
      && after.mirror == s.members[m].mirror
  {
    ExtensionOk(s, m, g);
    AppendedFound(EnsureLegacy(s.members[m]), g);
  }

  /** Who holds the group once one member has been rewritten. */
  lemma HoldersOfPut(s: Store, m: MemberId, after: Member, g: GroupId)
    requires m in s.members && HasRow(after.rows, g) && !HasRow(s.members[m].rows, g) &&
      after.mirror == s.members[m].mirror
    ensures var put := Put(s, m, after);
      Affected(put, g) == Affected(s, g) + {m} && m !in Affected(s, g) && Mirrored(put, g) == Mirrored(s, g)
  {
    hide HasRow;
  }

  /** The new row is counted, the mirror rows are not yet. */
  lemma HoldersAfterInsert(s: Store, m: MemberId, g: GroupId)
    requires Valid(s) && NewGroup(s, m, g)
    ensures LastSequence(Put(s, m, Extension(s, m, g)), g) + 1 == NextSequence(s, g)
  {
    var put := Put(s, m, Extension(s, m, g));
    ExtensionRow(s, m, g);
    HoldersOfPut(s, m, Extension(s, m, g), g);
    hide Valid, HasRow, Extension, EnsureLegacy, Affected, Mirrored, NewGroup;
  }

  /** The number an addition settles on. */
  lemma ExtensionKnown(s: Store, m: MemberId, g: GroupId)
    requires Valid(s) && NewGroup(s, m, g)
    ensures KnownNumber(Extension(s, m, g), g, s.groups[g].code) ==
      if KeepsNumber(s, m, g) then s.members[m].number else ""
  {
    ExtensionOk(s, m, g);
    hide Valid, MemberOk, HasRow, RowNumber, MembershipNumberMatches;
  }

  /** The member after the addition, with its number written in every record. */
  function AddedMember(s: Store, m: MemberId, g: GroupId): Member
    requires m in s.members && g in s.groups
  {
    WriteNumber(Extension(s, m, g), g, NumberFor(s, m, g))
  }

  function AddedStore(s: Store, m: MemberId, g: GroupId): Store
    requires m in s.members && g in s.groups
  {
    Store(s.groups, s.members[m := AddedMember(s, m, g)],
          if KeepsNumber(s, m, g) then s.counters else s.counters[g := NextSequence(s, g)])
  }

  lemma AddIsAssign(s: Store, m: MemberId, g: GroupId)
    requires Valid(s) && NewGroup(s, m, g) && s.groups[g].code != ""
    ensures Add(s, m, g) == Assign(Put(s, m, Extension(s, m, g)), m, g)
  {
    var base := EnsureLegacy(s.members[m]);
    ExtensionOk(s, m, g);
    PutTwice(s, m, base, Extension(s, m, g));
    hide Valid, MemberOk, HasRow, InsertRow, Appended, Assign, EnsureLegacy, AddKnown, Extension;
  }

  lemma AssignIs(s: Store, m: MemberId, g: GroupId)
    requires m in s.members && g in s.groups && s.groups[g].code != ""
    ensures var mem, code, next := s.members[m], s.groups[g].code, LastSequence(s, g) + 1;
      var known := KnownNumber(mem, g, code);
      Assign(s, m, g) ==
        if known != "" then Flush(Put(s, m, WriteNumber(mem, g, known)), [])
        else Flush(Put(s.(counters := s.counters[g := next]), m, WriteNumber(mem, g, FormatMemberId(code, next))),
                   [Mint(g, next)])
  {
    hide KnownNumber, LastSequence, WriteNumber, Flush, FormatMemberId;
  }

  lemma PutOver(s: Store, m: MemberId, a: Member, b: Member, counters: map<GroupId, nat>)
    ensures m in Put(s, m, a).members && Put(s, m, a).members[m] == a
    ensures Put(s, m, a).groups == s.groups && Put(s, m, a).counters == s.counters
    ensures Put(Put(s, m, a), m, b) == Store(s.groups, s.members[m := b], s.counters)
    ensures Put(Put(s, m, a).(counters := counters), m, b) == Store(s.groups, s.members[m := b], counters)
  {
  }

  /** All that an addition of a new group does: one member rewritten, at most one number minted. */
  lemma AdditionShape(s: Store, m: MemberId, g: GroupId)
    requires Valid(s) && NewGroup(s, m, g) && s.groups[g].code != ""
    ensures Add(s, m, g) ==
      Flush(AddedStore(s, m, g), if KeepsNumber(s, m, g) then [] else [Mint(g, NextSequence(s, g))])
  {
    NewGroupIn(s, m, g);
    hide *;
    var next, number := NextSequence(s, g), NumberFor(s, m, g);
    var put := Put(s, m, Extension(s, m, g));
    AddIsAssign(s, m, g);
    ExtensionKnown(s, m, g);
    HoldersAfterInsert(s, m, g);
    KeptIsNotBlank(s, m, g);
    AddedStoreIs(s, m, g);
    PutOver(s, m, Extension(s, m, g), WriteNumber(Extension(s, m, g), g, number), s.counters[g := next]);
    AssignIs(put, m, g);
  }

  lemma NewGroupIn(s: Store, m: MemberId, g: GroupId)
    requires NewGroup(s, m, g)
    ensures m in s.members && g in s.groups
  {
  }

  lemma AddedStoreIs(s: Store, m: MemberId, g: GroupId)
    requires m in s.members && g in s.groups
    ensures var next, number := NextSequence(s, g), NumberFor(s, m, g);
      && number == (if KeepsNumber(s, m, g) then s.members[m].number else FormatMemberId(s.groups[g].code, next))
      && AddedStore(s, m, g) == Store(s.groups, s.members[m := WriteNumber(Extension(s, m, g), g, number)],
           if KeepsNumber(s, m, g) then s.counters else s.counters[g := next])
  {
    hide NextSequence, KeepsNumber, WriteNumber, Extension, FormatMemberId;
  }

  lemma KeptIsNotBlank(s: Store, m: MemberId, g: GroupId)
    requires m in s.members && g in s.groups
    ensures KeepsNumber(s, m, g) ==> s.members[m].number != ""
    ensures NumberFor(s, m, g) != ""
  {
  }

  lemma AddedMemberIs(s: Store, m: MemberId, g: GroupId)
    requires Valid(s) && NewGroup(s, m, g) && s.groups[g].code != ""
    ensures var base, after, number := EnsureLegacy(s.members[m]), AddedMember(s, m, g), NumberFor(s, m, g);
      && after.user == base.user && number != ""
      && after.number == (if base.rows == [] then number else base.number)
      && after.group == (if base.rows == [] then Some(g) else base.group)
      && after.mirror == (if base.user.Some? then base.mirror[g := Mirror(number, base.rows == [])] else base.mirror)
      && after.rows == base.rows + [Row(g, MaxPriority(base.rows) + 1, number)]
  {
    ExtensionOk(s, m, g);
    KeptIsNotBlank(s, m, g);
    assert EnsureLegacy(s.members[m]).user == s.members[m].user;
    AppendedWritten(s.groups, EnsureLegacy(s.members[m]), g, NumberFor(s, m, g));
    hide NumberFor, WriteNumber, EnsureLegacy, MaxPriority, Valid, MemberOk, HasRow, Appended;
  }

  lemma AppendedWritten(groups: map<GroupId, Group>, base: Member, g: GroupId, number: string)
    requires MemberOk(groups, base) && !HasRow(base.rows, g) && (base.rows == [] ==> base.group.None?)
    requires g in groups && groups[g].code != "" && number != ""
    ensures WriteNumber(Appended(base, g), g, number) == Member(
      base.user,
      if base.rows == [] then Some(g) else base.group,
      if base.rows == [] then number else base.number,
      base.rows + [Row(g, MaxPriority(base.rows) + 1, number)],
      if base.user.Some? then base.mirror[g := Mirror(number, base.rows == [])] else base.mirror)
  {
    AppendedOk(groups, base, g);
    WriteNumberEffect(groups, Appended(base, g), g, number);
    RenumberLast(base, g, number);
    FirstIsOther(groups, base, g);
    hide WriteNumber, MaxPriority, MemberOk, HasRow, Renumbered, Takes;
  }

  lemma RenumberLast(base: Member, g: GroupId, number: string)
    requires !HasRow(base.rows, g)
    ensures Renumbered(Appended(base, g).rows, g, number) == base.rows + [Row(g, MaxPriority(base.rows) + 1, number)]
  {
    AppendedFound(base, g);
  }

  lemma FirstIsOther(groups: map<GroupId, Group>, base: Member, g: GroupId)
    requires MemberOk(groups, base) && !HasRow(base.rows, g) && (base.rows == [] ==> base.group.None?)
    ensures Takes(Appended(base, g), g) <==> base.rows == []
  {
    assert base.rows != [] ==> base.group == Some(base.rows[0].group) && base.rows[0].group != g;
  }

  ghost predicate DiffersFromOthers(members: map<MemberId, Member>, m: MemberId, after: Member) {
    forall n :: n in members && n != m ==> NumbersDiffer(after, members[n]) && NumbersDiffer(members[n], after)
  }

  /** Rewriting one member leaves the others different from each other. */
  lemma UniqueAfter(members: map<MemberId, Member>, m: MemberId, after: Member)
    requires NumbersUnique(members) && m in members
    ensures NumbersUnique(members[m := after]) <==> DiffersFromOthers(members, m, after)
  {
    var written := members[m := after];
    hide NumbersDiffer;
    if NumbersUnique(written) {
      forall n | n in members && n != m
        ensures NumbersDiffer(after, members[n]) && NumbersDiffer(members[n], after)
      {
        assert written[m] == after && written[n] == members[n];
      }
    }
  }

  lemma DiffersIff(s: Store, m: MemberId, g: GroupId, n: MemberId)
    requires Valid(s) && NewGroup(s, m, g) && s.groups[g].code != "" && n in s.members && n != m
    ensures var after, other := AddedMember(s, m, g), s.members[n];
      NumbersDiffer(after, other) && NumbersDiffer(other, after) <==> !TakenBy(s, m, g, NumberFor(s, m, g), n)
  {
    AddedMemberIs(s, m, g);
    ExtensionOk(s, m, g);
    assert NumbersDiffer(s.members[m], s.members[n]) && NumbersDiffer(s.members[n], s.members[m]);
    hide Valid, MemberOk, AddedMember, NumberFor, MaxPriority, HasRow, EnsureLegacy, Extension;
  }

  /**
   * When an addition of a new group succeeds: always without a group code; otherwise exactly when
   * nobody else shows the number it settles on, visibly if the group becomes the primary one, or in
   * a mirror row of the group if the member has a user.  Otherwise it ends in a conflict.
   */
  lemma AdditionSucceedsIff(s: Store, m: MemberId, g: GroupId)
    requires Valid(s) && NewGroup(s, m, g)
    ensures s.groups[g].code == "" ==> Add(s, m, g).Done?
    ensures s.groups[g].code != "" ==>
      if Taken(s, m, g, NumberFor(s, m, g)) then Add(s, m, g) == Aborted(Conflict) else Add(s, m, g).Done?
    ensures s.groups[g].code != "" && Add(s, m, g).Done? && !KeepsNumber(s, m, g) ==>
      Add(s, m, g).minted == [Mint(g, NextSequence(s, g))]
  {
    if s.groups[g].code == "" {
      assert !HasRow(Put(s, m, EnsureLegacy(s.members[m])).members[m].rows, g);
      hide Valid, EnsureLegacy, HasRow;
    } else {
      AdditionShape(s, m, g);
      assert NumbersUnique(s.members);
      UniqueAfter(s.members, m, AddedMember(s, m, g));
      forall n | n in s.members && n != m
        ensures NumbersDiffer(AddedMember(s, m, g), s.members[n]) && NumbersDiffer(s.members[n], AddedMember(s, m, g))
          <==> !TakenBy(s, m, g, NumberFor(s, m, g), n)
      {
        DiffersIff(s, m, g, n);
      }
      assert DiffersFromOthers(s.members, m, AddedMember(s, m, g)) <==> !Taken(s, m, g, NumberFor(s, m, g));
      hide Valid, Add, AddedMember, NumberFor, KeepsNumber, NextSequence, TakenBy, NumbersDiffer, NumbersUnique,
        NewGroup;
    }
  }

  /** A new group without a code: a last row without a number, and the pointer if it is the first. */
  lemma SilentAdditionIs(s: Store, m: MemberId, g: GroupId)
    requires Valid(s) && NewGroup(s, m, g) && s.groups[g].code == ""
    ensures var base := EnsureLegacy(s.members[m]);
      var rows := base.rows + [Row(g, MaxPriority(base.rows) + 1, "")];
      Add(s, m, g) == Done(Put(s, m,
        if base.rows == [] then base.(group := Some(g), number := "", rows := rows) else base.(rows := rows)), true, [])
  {
    var base := EnsureLegacy(s.members[m]);
    ExtensionOk(s, m, g);
    FirstPriority(s.groups, base);
    PutTwice(s, m, base, Extension(s, m, g));
    PutTwice(s, m, base, Extension(s, m, g).(number := ""));
    hide Valid, MemberOk, HasRow, InsertRow, EnsureLegacy, AddKnown, Assign, MaxPriority;
  }

  lemma FirstPriority(groups: map<GroupId, Group>, mem: Member)
    requires MemberOk(groups, mem)
    ensures MaxPriority(mem.rows) + 1 == 1 <==> mem.rows == []
  {
  }

  /** A member without a user, a group or a number. */
  ghost predicate Blank(mem: Member) {
    mem.user.None? && mem.group.None? && mem.number == "" && mem.rows == [] && mem.mirror == map[]
  }

  /**
   * The first number of a group without a counter or mirror rows is two past its number of rows, and
   * the addition of a blank member succeeds exactly when no member shows that number.  The aborted
   * transaction takes the new counter back, so every retry meets the same number.
   */
  lemma FirstAdditionSucceedsIff(s: Store, m: MemberId, g: GroupId)
    requires Valid(s) && m in s.members && g in s.groups && Blank(s.members[m])
    requires s.groups[g].code != "" && g !in s.counters && Mirrored(s, g) == {}
    ensures var first := FormatMemberId(s.groups[g].code, |Affected(s, g)| + 2);
      && (Add(s, m, g).Done? <==> forall n :: n in s.members ==> s.members[n].number != first)
      && (Add(s, m, g).Done? ==> Add(s, m, g).minted == [Mint(g, |Affected(s, g)| + 2)])
  {
    BlankAddition(s, m, g);
    AdditionSucceedsIff(s, m, g);
    hide Valid, Add, FormatMemberId, NewGroup, Blank, TakenBy, KeepsNumber, NumberFor, NextSequence, Affected, Mirrored;
  }

  lemma BlankAddition(s: Store, m: MemberId, g: GroupId)
    requires m in s.members && g in s.groups && Blank(s.members[m])
    requires g !in s.counters && Mirrored(s, g) == {}
    ensures var first := FormatMemberId(s.groups[g].code, |Affected(s, g)| + 2);
      && NewGroup(s, m, g) && !KeepsNumber(s, m, g) && NumberFor(s, m, g) == first
      && NextSequence(s, g) == |Affected(s, g)| + 2 && s.members[m].number != first
      && forall n :: n in s.members ==> (TakenBy(s, m, g, first, n) <==> s.members[n].number == first)
  {
    assert FormatMemberId(s.groups[g].code, |Affected(s, g)| + 2) != "";
    hide FormatMemberId, MembershipNumberMatches;
    assert !KeepsNumber(s, m, g) by { NoNumberMatches(s.groups[g].code); }
  }

  lemma NoNumberMatches(code: string)
    ensures !MembershipNumberMatches("", code)
  {
  }
}
