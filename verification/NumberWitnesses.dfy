/** Tables at which the numbering parts from its description. */
module NumberWitnesses {
  import opened Common
  import opened Decimal
  import opened IdCodec
  import opened MemberGroups
  import opened MemberGroupProofs
  import opened MemberGroupRuns
  import opened MemberNumbers
  import opened MemberAdditions
  import opened MemberRemovals
  import opened HeldNumbers
  import opened NumberReturns

  /** A member of group 0 alone, with that number in every record. */
  function Holder(user: Option<UserId>, number: string): Member {
    Member(user, Some(0), number, [Row(0, 1, number)], if user.Some? then map[0 := Mirror(number, true)] else map[])
  }

  const NOBODY := Member(None, None, "", [], map[])

  /** Stored numbers beside an empty counter table. */
  function Uncounted(first: Member, second: Member): Store {
    Store(map[0 := Group("MP0901", false)], map[0 := first, 1 := second, 2 := NOBODY], map[])
  }

  lemma SmallNumbers()
    ensures FormatMemberId("MP0901", 1) == "MP0901001" && FormatMemberId("MP0901", 2) == "MP0901002"
  {
    SmallPads();
    hide Pad;
  }

  lemma SmallPads()
    ensures Pad(1, 3) == "001" && Pad(2, 3) == "002"
  {
    assert Show(1) == "1" && Show(2) == "2";
    assert LeftPad("001", 3) == "001" && LeftPad("002", 3) == "002";
    assert LeftPad("01", 3) == LeftPad("0" + "01", 3) && LeftPad("02", 3) == LeftPad("0" + "02", 3);
    assert "0" + "01" == "001" && "0" + "02" == "002" && "0" + "1" == "01" && "0" + "2" == "02";
  }

  lemma HolderOk(groups: map<GroupId, Group>, user: Option<UserId>, number: string)
    requires 0 in groups && number != "" && groups[0].code != ""
    ensures MemberOk(groups, Holder(user, number)) && MemberOk(groups, NOBODY)
  {
  }

  lemma UncountedValid(user: Option<UserId>)
    ensures Valid(Uncounted(Holder(user, "MP0901001"), Holder(None, "MP0901002")))
  {
    var s := Uncounted(Holder(user, "MP0901001"), Holder(None, "MP0901002"));
    HolderOk(s.groups, user, "MP0901001");
    HolderOk(s.groups, None, "MP0901002");
    hide MemberOk;
  }

  /** The tables above once both holders have left. */
  lemma BothLeave(s: Store)
    requires s == Uncounted(Holder(None, "MP0901001"), Holder(None, "MP0901002"))
    ensures Run(s, [RemoveOp(1, 0)] + [RemoveOp(0, 0)]) == Stepped(Uncounted(NOBODY, NOBODY), [])
    ensures Valid(Uncounted(NOBODY, NOBODY))
  {
    var t := Uncounted(Holder(None, "MP0901001"), NOBODY);
    assert Put(s, 1, Emptied(s.members[1])) == t;
    assert Put(t, 0, Emptied(t.members[0])) == Uncounted(NOBODY, NOBODY);
    UncountedValid(None);
    hide Valid, Run, Emptied;
    RemoveStep(s, 1, 0);
    RemoveStep(t, 0, 0);
    RunTwo(s, RemoveOp(1, 0), t, [], RemoveOp(0, 0), Uncounted(NOBODY, NOBODY));
  }

  lemma NextIsTwo(s: Store)
    requires s == Uncounted(NOBODY, NOBODY) && Valid(s)
    ensures Enabled(s, AddOp(2, 0)) && Step(s, AddOp(2, 0)).minted == [Mint(0, 2)]
  {
    hide *;
    NobodyIsBlank(s);
    NobodyShowsIt(s);
    FirstAdditionSucceedsIff(s, 2, 0);
    AddStepIs(s, 2, 0);
  }

  lemma NobodyIsBlank(s: Store)
    requires s == Uncounted(NOBODY, NOBODY)
    ensures 2 in s.members && 0 in s.groups && s.groups[0].code == "MP0901" && Blank(s.members[2]) && 0 !in s.counters
    ensures Affected(s, 0) == {} && Mirrored(s, 0) == {} && |Affected(s, 0)| == 0
  {
  }

  lemma NobodyShowsIt(s: Store)
    requires s == Uncounted(NOBODY, NOBODY)
    ensures forall n :: n in s.members ==> s.members[n].number != FormatMemberId("MP0901", 2)
  {
    SmallNumbers();
    hide FormatMemberId;
  }

  lemma AddStepIs(s: Store, m: MemberId, g: GroupId)
    requires m in s.members && g in s.groups && Add(s, m, g).Done?
    ensures Enabled(s, AddOp(m, g)) && Step(s, AddOp(m, g)).minted == Add(s, m, g).minted
  {
    hide Add;
  }

  lemma HoldsSecond(s: Store)
    requires s == Uncounted(Holder(None, "MP0901001"), Holder(None, "MP0901002"))
    ensures 1 in s.members && Holds(s.members[1], FormatMemberId("MP0901", 2))
  {
    SmallNumbers();
    hide FormatMemberId;
  }

  /**
   * Two members hold the first two numbers of a group without a counter row.  Both leave, and the
   * next member is given the number the second of them held.
   */
  lemma FreedNumberReturns()
    ensures var s := Uncounted(Holder(None, "MP0901001"), Holder(None, "MP0901002"));
      && Valid(s) && 1 in s.members && Holds(s.members[1], FormatMemberId("MP0901", 2))
      && Run(s, [RemoveOp(1, 0), RemoveOp(0, 0), AddOp(2, 0)]).minted == [Mint(0, 2)]
  {
    hide *;
    var s, t := Uncounted(Holder(None, "MP0901001"), Holder(None, "MP0901002")), Uncounted(NOBODY, NOBODY);
    UncountedValid(None);
    HoldsSecond(s);
    BothLeave(s);
    NextIsTwo(t);
    RunOne(t, AddOp(2, 0));
    RunInTwo(s, [RemoveOp(1, 0)] + [RemoveOp(0, 0)], [AddOp(2, 0)]);
    assert ([RemoveOp(1, 0)] + [RemoveOp(0, 0)]) + [AddOp(2, 0)] == [RemoveOp(1, 0), RemoveOp(0, 0), AddOp(2, 0)];
    assert [] + [Mint(0, 2)] == [Mint(0, 2)];
  }

  lemma SecondIsTaken(s: Store)
    requires s == Uncounted(Holder(Some(0), "MP0901001"), Holder(None, "MP0901002"))
    ensures 2 in s.members && 0 in s.groups && s.groups[0].code == "MP0901"
    ensures NewGroup(s, 2, 0) && NumberFor(s, 2, 0) == "MP0901002" && Taken(s, 2, 0, "MP0901002")
  {
    assert Mirrored(s, 0) == {0};
    SmallNumbers();
    NoNumberMatches("MP0901");
    assert TakenBy(s, 2, 0, "MP0901002", 1);
    hide FormatMemberId, MembershipNumberMatches, TakenBy, Mirrored, Affected;
  }

  /**
   * One mirror row stands for a group of two members without a counter row: the next addition tries
   * the number the other member shows, is refused, and every retry meets the same number.
   */
  lemma AdditionConflicts()
    ensures var s := Uncounted(Holder(Some(0), "MP0901001"), Holder(None, "MP0901002"));
      Valid(s) && 2 in s.members && 0 in s.groups && Add(s, 2, 0) == Aborted(Conflict)
  {
    hide *;
    var s := Uncounted(Holder(Some(0), "MP0901001"), Holder(None, "MP0901002"));
    UncountedValid(Some(0));
    SecondIsTaken(s);
    AdditionSucceedsIff(s, 2, 0);
  }

  lemma OneRowOnePointer(s: Store)
    requires s == Uncounted(Member(None, Some(0), "MP0901001", [], map[]), Holder(None, "MP0901002"))
    ensures Valid(s)
  {
    HolderOk(s.groups, None, "MP0901002");
    LegacyOk(s.groups, "MP0901001");
    hide MemberOk;
  }

  lemma LegacyOk(groups: map<GroupId, Group>, number: string)
    requires 0 in groups && groups[0].code != ""
    ensures MemberOk(groups, Member(None, Some(0), number, [], map[]))
  {
  }

  lemma SecondLeaves(s: Store, first: Member)
    requires s == Uncounted(first, Holder(None, "MP0901002"))
    ensures 1 in s.members && |s.members[1].rows| == 1 && s.members[1].rows[0].group == 0
    ensures Put(s, 1, Emptied(s.members[1])) == Uncounted(first, NOBODY)
  {
  }

  lemma OneIsAffected(s: Store)
    requires s == Uncounted(Member(None, Some(0), "MP0901001", [], map[]), Holder(None, "MP0901002"))
    ensures Enabled(s, DetachOp(0, [1]))
  {
    assert Affected(s, 0) == {1} == (set m | m in [1]);
    hide Affected;
  }

  lemma DetachOne(s: Store, g: GroupId, m: MemberId)
    requires m in s.members && Remove(s, m, g).Done?
    ensures Detach(s, g, [m]).Done? && Detach(s, g, [m]).store == Remove(s, m, g).store
  {
    assert [m][1..] == [];
    hide Remove;
  }

  /** A pointer without rows is not among the members a detachment walks over. */
  lemma PointerOutlivesDetachment()
    ensures var legacy := Member(None, Some(0), "MP0901001", [], map[]);
      var s := Uncounted(legacy, Holder(None, "MP0901002"));
      && Valid(s) && Enabled(s, DetachOp(0, [1]))
      && Detach(s, 0, [1]).Done? && Detach(s, 0, [1]).store == Uncounted(legacy, NOBODY)
  {
    hide *;
    var legacy := Member(None, Some(0), "MP0901001", [], map[]);
    var s := Uncounted(legacy, Holder(None, "MP0901002"));
    OneRowOnePointer(s);
    OneIsAffected(s);
    SecondLeaves(s, legacy);
    RemoveLast(s, 1, 0);
    DetachOne(s, 0, 1);
  }

  /** A member that points to group 1 and has no row there. */
  const POINTING := Member(None, Some(1), "", [], map[])

  lemma AssignsTwo(s: Store)
    requires s == Store(map[0 := Group("MP0901", false), 1 := Group("MP0902", false)], map[0 := POINTING], map[])
    ensures 0 in s.members && 0 in s.groups && s.groups[0].code != "" && Valid(s)
    ensures !Materialised(s.members[0], 0)
  {
    assert MemberOk(s.groups, POINTING);
  }

  lemma AssignsIt(s: Store)
    requires 0 in s.members && s.members[0] == POINTING && 0 in s.groups && s.groups[0].code == "MP0901"
    requires s.members.Keys == {0}
    ensures Assign(s, 0, 0).Done? && Assign(s, 0, 0).store.members[0].group == Some(1)
    ensures Groups(Assign(s, 0, 0).store.members[0].rows) == [0]
  {
    NoNumberMatches("MP0901");
    hide MembershipNumberMatches, FormatMemberId, LastSequence;
    assert KnownNumber(POINTING, 0, "MP0901") == "";
    hide NumbersDiffer;
  }

  /** A number assigned for one group beside a pointer to another group that has no row. */
  lemma AssignmentSplitsRecords()
    ensures var s := Store(map[0 := Group("MP0901", false), 1 := Group("MP0902", false)], map[0 := POINTING], map[]);
      && Valid(s) && Assign(s, 0, 0).Done? && !Valid(Assign(s, 0, 0).store)
      && Assign(s, 0, 0).store.members[0].group == Some(1) && Groups(Assign(s, 0, 0).store.members[0].rows) == [0]
  {
    hide *;
    var s := Store(map[0 := Group("MP0901", false), 1 := Group("MP0902", false)], map[0 := POINTING], map[]);
    AssignsTwo(s);
    AssignsIt(s);
    AssignSoundIff(s, 0, 0);
  }

  // ---------------------------------------------------------------- a refused removal

  /** A member of two groups, unnumbered in the second, beside a member that shows a number of that one. */
  function Handing(): Store {
    Store(map[0 := Group("MP0901", false), 1 := Group("MP0902", false)],
          map[0 := Member(None, Some(0), "MP0901001", [Row(0, 1, "MP0901001"), Row(1, 2, "")], map[]),
              1 := Member(None, Some(1), "MP0902002", [], map[])],
          map[0 := 1])
  }

  lemma HandingNumbers(s: Store)
    requires s == Handing()
    ensures HandsOver(s, 0, 0) && s.members[0].rows[1] == Row(1, 2, "") && CodeOf(s.groups, 1) == "MP0902"
    ensures s.members[0].number == "MP0901001" && 1 in s.members && s.members[1].number == "MP0902002"
    ensures LastSequence(s, 1) == 1
  {
    assert HasRow(s.members[0].rows, 1) by { FoundAt(s.members[0].rows, 1); }
    assert Affected(s, 1) == {0};
    assert Mirrored(s, 1) == {};
  }

  lemma NotShaped()
    ensures !MembershipNumberMatches("MP0901001", "MP0902") && FormatMemberId("MP0902", 2) == "MP0902002"
  {
    assert "MP0901001"[5] == '1' && "MP0902"[5] == '2';
    SmallPads();
    hide Pad;
  }

  lemma HandingRefused(s: Store)
    requires s == Handing()
    ensures Refused(s, 0, 0)
  {
    HandingNumbers(s);
    NotShaped();
    hide MembershipNumberMatches, FormatMemberId, LastSequence, HandsOver;
    assert NextNumber(s, 0) == "MP0902002" && ShownBy(s, 0, "MP0902002", 1);
  }

  lemma HandingValid(s: Store)
    requires s == Handing()
    ensures Valid(s) && Enabled(s, DetachOp(0, [0])) && 0 in s.members
  {
    assert MemberOk(s.groups, s.members[0]) && MemberOk(s.groups, s.members[1]);
    assert NumbersDiffer(s.members[0], s.members[1]) && NumbersDiffer(s.members[1], s.members[0]);
    assert Affected(s, 0) == {0} == (set m | m in [0]);
    hide MemberOk, NumbersDiffer, Affected;
  }

  /** Removing the first group, or detaching it altogether, meets the number the other member shows. */
  lemma RemovalConflicts()
    ensures var s := Handing();
      && Valid(s) && Enabled(s, DetachOp(0, [0])) && 0 in s.members
      && Remove(s, 0, 0) == Aborted(Conflict) && Detach(s, 0, [0]) == Aborted(Conflict)
  {
    hide *;
    var s := Handing();
    HandingValid(s);
    HandingRefused(s);
    RemovalSucceedsIff(s, 0, 0);
    DetachCons(s, 0, 0, []);
    assert [0] + [] == [0];
  }
}
