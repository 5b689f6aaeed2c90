/** Exactly which numbers of a group some run can still mint. */
module NumberReturns {
  import opened Common
  import opened Decimal
  import opened IdCodec
  import opened MemberGroups
  import opened MemberGroupProofs
  import opened MemberGroupRuns
  import opened MemberNumbers
  import opened MemberAdditions
  import opened HeldNumbers

  /** Some run of operations mints that sequence for the group. */
  ghost predicate CanMint(s: Store, g: GroupId, sequence: nat) {
    exists ops :: Mint(g, sequence) in Run(s, ops).minted
  }

  lemma MintLater(s: Store, ops: seq<Op>, g: GroupId, sequence: nat)
    requires CanMint(Run(s, ops).store, g, sequence)
    ensures CanMint(s, g, sequence)
  {
    var more :| Mint(g, sequence) in Run(Run(s, ops).store, more).minted;
    RunInTwo(s, ops, more);
    hide Run;
    assert Mint(g, sequence) in Run(s, ops + more).minted;
  }

  lemma RunOne(s: Store, op: Op)
    requires Enabled(s, op)
    ensures Run(s, [op]) == Step(s, op)
  {
    var first := Step(s, op);
    assert [op][1..] == [];
    assert Run(first.store, []) == Stepped(first.store, []);
    assert first.minted + [] == first.minted;
    hide Step, Enabled;
  }

  lemma RunNothing(s: Store)
    ensures Run(s, []) == Stepped(s, [])
  {
  }

  /** After operations that mint nothing the run goes on as from the tables they lead to. */
  lemma RunAfter(s: Store, first: seq<Op>, t: Store, rest: seq<Op>)
    requires Run(s, first) == Stepped(t, [])
    ensures Run(s, first + rest) == Run(t, rest)
  {
    hide Run;
    RunInTwo(s, first, rest);
    assert [] + Run(t, rest).minted == Run(t, rest).minted;
  }

  // ---------------------------------------------------------------- clearing a member

  /** A member without memberships; a number without a membership stays. */
  function Emptied(mem: Member): Member {
    mem.(group := None, rows := [], mirror := map[],
         number := if mem.rows == [] && mem.group.None? then mem.number else "")
  }

  /** A member with one membership, or a pointer, is emptied by one removal. */
  lemma RemoveLast(s: Store, m: MemberId, g: GroupId)
    requires Valid(s) && m in s.members
    requires var mem := s.members[m];
      if mem.rows == [] then mem.group == Some(g) else |mem.rows| == 1 && mem.rows[0].group == g
    ensures Remove(s, m, g) == Done(Put(s, m, Emptied(s.members[m])), Removal(true, None), [])
    ensures Valid(Put(s, m, Emptied(s.members[m])))
  {
    var mem := s.members[m];
    var base := Put(s, m, EnsureLegacy(mem));
    Prepared(s, m);
    RemoveOnlyShape(base, m);
    PutTwice(s, m, EnsureLegacy(mem), Cleared(EnsureLegacy(mem)));
    assert Cleared(EnsureLegacy(mem)) == Emptied(mem);
    hide Valid, RemovePrepared, HoldsLess;
  }

  lemma RemoveLastRow(s: Store, m: MemberId)
    requires Valid(s) && m in s.members && |s.members[m].rows| >= 2
    ensures var mem := s.members[m];
      var g := mem.rows[|mem.rows| - 1].group;
      && HasRow(mem.rows, g)
      && Remove(s, m, g) == Done(Put(s, m, DeleteRow(mem, g)), Removal(true, None), [])
      && Valid(Put(s, m, DeleteRow(mem, g)))
      && |DeleteRow(mem, g).rows| == |mem.rows| - 1 && Emptied(DeleteRow(mem, g)) == Emptied(mem)
  {
    var mem := s.members[m];
    var g := mem.rows[|mem.rows| - 1].group;
    MemberIsOk(s, m);
    LastRow(s.groups, mem);
    RemoveIsPrepared(s, m, g);
    hide *;
    RemovePreparedSecondary(s, m, g);
  }

  lemma LastRow(groups: map<GroupId, Group>, mem: Member)
    requires MemberOk(groups, mem) && |mem.rows| >= 2
    ensures var g := mem.rows[|mem.rows| - 1].group;
      && HasRow(mem.rows, g) && IndexOf(mem.rows, g) > 0
      && |DeleteRow(mem, g).rows| == |mem.rows| - 1 && Emptied(DeleteRow(mem, g)) == Emptied(mem)
  {
    FoundAt(mem.rows, |mem.rows| - 1);
    DroppedLast(mem.rows);
    hide MemberOk, IndexOf;
  }

  lemma DroppedLast(rows: seq<Row>)
    requires rows != []
    ensures |Drop(rows, |rows| - 1)| == |rows| - 1
  {
  }

  lemma EmptyAlready(groups: map<GroupId, Group>, mem: Member)
    requires MemberOk(groups, mem) && mem.rows == [] && mem.group.None?
    ensures Emptied(mem) == mem
  {
    forall g
      ensures g !in mem.mirror
    {
    }
  }

  lemma ClearedAlready(s: Store, m: MemberId)
    requires Valid(s) && m in s.members && s.members[m].rows == [] && s.members[m].group.None?
    ensures Put(s, m, Emptied(s.members[m])) == s
  {
    MemberIsOk(s, m);
    EmptyAlready(s.groups, s.members[m]);
    assert Put(s, m, s.members[m]) == s;
    hide Valid, MemberOk;
  }

  lemma RunRemoval(s: Store, m: MemberId, g: GroupId, t: Store, r: Removal)
    requires m in s.members && Remove(s, m, g) == Done(t, r, [])
    ensures Run(s, [RemoveOp(m, g)]) == Stepped(t, [])
  {
    hide Remove;
    RunOne(s, RemoveOp(m, g));
  }

  lemma ClearOne(s: Store, m: MemberId, g: GroupId)
    requires Valid(s) && m in s.members
    requires var mem := s.members[m];
      if mem.rows == [] then mem.group == Some(g) else |mem.rows| == 1 && mem.rows[0].group == g
    ensures Run(s, [RemoveOp(m, g)]) == Stepped(Put(s, m, Emptied(s.members[m])), [])
    ensures Valid(Put(s, m, Emptied(s.members[m])))
  {
    hide *;
    RemoveLast(s, m, g);
    RunRemoval(s, m, g, Put(s, m, Emptied(s.members[m])), Removal(true, None));
  }

  lemma ClearLastRow(s: Store, m: MemberId) returns (g: GroupId, t: Store)
    requires Valid(s) && m in s.members && |s.members[m].rows| >= 2
    ensures Run(s, [RemoveOp(m, g)]) == Stepped(t, []) && Valid(t)
    ensures m in t.members && |t.members[m].rows| == |s.members[m].rows| - 1
    ensures Put(t, m, Emptied(t.members[m])) == Put(s, m, Emptied(s.members[m]))
  {
    hide *;
    var mem := s.members[m];
    g := mem.rows[|mem.rows| - 1].group;
    RemoveLastRow(s, m);
    t := Put(s, m, DeleteRow(mem, g));
    PutTwice(s, m, DeleteRow(mem, g), Emptied(mem));
    PutOver(s, m, DeleteRow(mem, g), mem, map[]);
    RunRemoval(s, m, g, t, Removal(true, None));
  }

  /** Removing a member's groups from the last to the first mints nothing and leaves it empty. */
  lemma {:induction false} ClearMember(s: Store, m: MemberId) returns (ops: seq<Op>)
    requires Valid(s) && m in s.members
    ensures Run(s, ops) == Stepped(Put(s, m, Emptied(s.members[m])), []) && Valid(Put(s, m, Emptied(s.members[m])))
    decreases |s.members[m].rows|
  {
    hide *;
    var mem := s.members[m];
    if |mem.rows| >= 2 {
      var g, t := ClearLastRow(s, m);
      var rest := ClearMember(t, m);
      ops := [RemoveOp(m, g)] + rest;
      RunAfter(s, [RemoveOp(m, g)], t, rest);
    } else if mem.rows == [] && mem.group.None? {
      ClearedAlready(s, m);
      ops := [];
      RunNothing(s);
    } else {
      var g := if mem.rows == [] then mem.group.value else mem.rows[0].group;
      ClearOne(s, m, g);
      ops := [RemoveOp(m, g)];
    }
  }

  /** The tables with the given members emptied. */
  function EmptiedAll(s: Store, todo: set<MemberId>): Store {
    s.(members := map n | n in s.members :: if n in todo then Emptied(s.members[n]) else s.members[n])
  }

  lemma EmptyOneMore(s: Store, m: MemberId, todo: set<MemberId>)
    requires m in todo && m in s.members
    ensures EmptiedAll(Put(s, m, Emptied(s.members[m])), todo - {m}) == EmptiedAll(s, todo)
  {
    hide Emptied;
  }

  lemma {:induction false} ClearMembers(s: Store, todo: set<MemberId>) returns (ops: seq<Op>)
    requires Valid(s) && todo <= s.members.Keys
    ensures Run(s, ops) == Stepped(EmptiedAll(s, todo), []) && Valid(EmptiedAll(s, todo))
    decreases todo
  {
    if todo == {} {
      assert EmptiedAll(s, todo) == s;
      ops := [];
      hide Valid;
    } else {
      var m :| m in todo;
      var t := Put(s, m, Emptied(s.members[m]));
      EmptyOneMore(s, m, todo);
      hide Valid, EmptiedAll, Emptied;
      var first := ClearMember(s, m);
      var rest := ClearMembers(t, todo - {m});
      RunAfter(s, first, t, rest);
      ops := first + rest;
      hide Run;
    }
  }

  // ---------------------------------------------------------------- numbers left without a membership

  /** No memberships anywhere; numbers may be left over. */
  ghost predicate Vacant(mem: Member) {
    mem.rows == [] && mem.group.None? && mem.mirror == map[]
  }

  ghost predicate AllVacant(s: Store) {
    forall m :: m in s.members ==> Vacant(s.members[m])
  }

  lemma EmptiedVacant(s: Store)
    ensures AllVacant(EmptiedAll(s, s.members.Keys))
    ensures EmptiedAll(s, s.members.Keys).groups == s.groups && EmptiedAll(s, s.members.Keys).counters == s.counters
    ensures EmptiedAll(s, s.members.Keys).members.Keys == s.members.Keys
  {
  }

  lemma NobodyHolds(s: Store, g: GroupId)
    requires AllVacant(s)
    ensures Mirrored(s, g) == {} && Affected(s, g) == {}
  {
  }

  /** In vacant tables only a visible number can stand in the way of an addition. */
  lemma VacantAddition(s: Store, m: MemberId, g: GroupId)
    requires Valid(s) && AllVacant(s) && m in s.members && g in s.groups && s.groups[g].code != ""
    requires forall n :: n in s.members && n != m ==> s.members[n].number != NumberFor(s, m, g)
    ensures NewGroup(s, m, g)
    ensures Add(s, m, g) ==
      Done(AddedStore(s, m, g), true, if KeepsNumber(s, m, g) then [] else [Mint(g, NextSequence(s, g))])
  {
    AdditionShape(s, m, g);
    AdditionSucceedsIff(s, m, g);
    forall n | n in s.members && n != m
      ensures !TakenBy(s, m, g, NumberFor(s, m, g), n)
    {
      assert Vacant(s.members[n]);
    }
    hide Valid, Add, NumberFor, AddedStore, KeepsNumber, NextSequence, NumbersUnique;
  }

  /** Where an addition from vacant tables and the following removal lead. */
  function Passed(s: Store, m: MemberId, g: GroupId): Store
    requires m in s.members && g in s.groups
  {
    Store(s.groups, s.members[m := s.members[m].(number := "")], AddedStore(s, m, g).counters)
  }

  lemma PassedVacant(s: Store, m: MemberId, g: GroupId)
    requires AllVacant(s) && m in s.members && g in s.groups
    ensures AllVacant(Passed(s, m, g))
  {
    hide AddedStore;
  }

  lemma AddedIsLast(s: Store, m: MemberId, g: GroupId)
    requires Valid(s) && AllVacant(s) && NewGroup(s, m, g) && s.groups[g].code != ""
    ensures var after := AddedMember(s, m, g);
      && |after.rows| == 1 && after.rows[0].group == g
      && Put(AddedStore(s, m, g), m, Emptied(after)) == Passed(s, m, g)
  {
    AddedEmptied(s, m, g);
    hide AddedMember, Emptied, Valid, KeepsNumber, NextSequence;
  }

  lemma AddedEmptied(s: Store, m: MemberId, g: GroupId)
    requires Valid(s) && AllVacant(s) && NewGroup(s, m, g) && s.groups[g].code != ""
    ensures var after := AddedMember(s, m, g);
      |after.rows| == 1 && after.rows[0].group == g && Emptied(after) == s.members[m].(number := "")
  {
    assert Vacant(s.members[m]);
    hide AddedMember, NumberFor, Valid, NewGroup;
    AddedMemberIs(s, m, g);
  }

  /** What the pair of an addition and a removal mints in vacant tables. */
  function PairMints(s: Store, m: MemberId, g: GroupId): seq<Mint>
    requires m in s.members && g in s.groups
  {
    if KeepsNumber(s, m, g) then [] else [Mint(g, NextSequence(s, g))]
  }

  lemma AddStep(s: Store, m: MemberId, g: GroupId)
    requires Valid(s) && AllVacant(s) && m in s.members && g in s.groups && s.groups[g].code != ""
    requires forall n :: n in s.members && n != m ==> s.members[n].number != NumberFor(s, m, g)
    ensures Enabled(s, AddOp(m, g)) && Step(s, AddOp(m, g)) == Stepped(AddedStore(s, m, g), PairMints(s, m, g))
    ensures Valid(AddedStore(s, m, g))
  {
    VacantAddition(s, m, g);
    hide Valid, AllVacant, Add, NumberFor, AddedStore, KeepsNumber, NextSequence, NewGroup;
    AddKeeps(s, m, g);
  }

  lemma RemoveStep(s: Store, m: MemberId, g: GroupId)
    requires Valid(s) && m in s.members && |s.members[m].rows| == 1 && s.members[m].rows[0].group == g
    ensures Enabled(s, RemoveOp(m, g)) && Step(s, RemoveOp(m, g)) == Stepped(Put(s, m, Emptied(s.members[m])), [])
    ensures Valid(Put(s, m, Emptied(s.members[m])))
  {
    hide *;
    RemoveLast(s, m, g);
    RemovalStep(s, m, g, Put(s, m, Emptied(s.members[m])), Removal(true, None));
  }

  lemma RemovalStep(s: Store, m: MemberId, g: GroupId, t: Store, r: Removal)
    requires m in s.members && Remove(s, m, g) == Done(t, r, [])
    ensures Enabled(s, RemoveOp(m, g)) && Step(s, RemoveOp(m, g)) == Stepped(t, [])
  {
    hide Remove;
  }

  lemma RunTwo(s: Store, one: Op, t: Store, a: seq<Mint>, two: Op, u: Store)
    requires Enabled(s, one) && Step(s, one) == Stepped(t, a)
    requires Enabled(t, two) && Step(t, two) == Stepped(u, [])
    ensures Run(s, [one] + [two]) == Stepped(u, a)
  {
    hide *;
    RunOne(s, one);
    RunOne(t, two);
    RunInTwo(s, [one], [two]);
    assert a + [] == a;
  }

  /** Adding a member to the group and removing it again, in vacant tables. */
  lemma AddAndRemove(s: Store, m: MemberId, g: GroupId) returns (ops: seq<Op>)
    requires Valid(s) && AllVacant(s) && m in s.members && g in s.groups && s.groups[g].code != ""
    requires forall n :: n in s.members && n != m ==> s.members[n].number != NumberFor(s, m, g)
    ensures Run(s, ops) == Stepped(Passed(s, m, g), PairMints(s, m, g))
    ensures Valid(Passed(s, m, g)) && AllVacant(Passed(s, m, g))
  {
    VacantIsNew(s, m, g);
    InAdded(s, m, g);
    hide *;
    AddStep(s, m, g);
    AddedIsLast(s, m, g);
    PassedVacant(s, m, g);
    RemoveStep(AddedStore(s, m, g), m, g);
    RunTwo(s, AddOp(m, g), AddedStore(s, m, g), PairMints(s, m, g), RemoveOp(m, g), Passed(s, m, g));
    ops := [AddOp(m, g)] + [RemoveOp(m, g)];
  }

  lemma InAdded(s: Store, m: MemberId, g: GroupId)
    requires m in s.members && g in s.groups
    ensures m in AddedStore(s, m, g).members && AddedStore(s, m, g).members[m] == AddedMember(s, m, g)
  {
  }

  lemma VacantIsNew(s: Store, m: MemberId, g: GroupId)
    requires AllVacant(s) && m in s.members && g in s.groups
    ensures NewGroup(s, m, g)
  {
  }

  /** Nobody shows a number that looks like one of the group's. */
  ghost predicate NoneLeft(s: Store, g: GroupId)
    requires g in s.groups
  {
    forall m :: m in s.members ==> !MembershipNumberMatches(s.members[m].number, s.groups[g].code)
  }

  ghost predicate Bare(s: Store, g: GroupId) {
    g in s.groups && s.groups[g].code != "" && Valid(s) && AllVacant(s) && NoneLeft(s, g)
  }

  /** A member that shows such a number keeps it on an addition, and loses it with the removal. */
  lemma LeftoverCleared(s: Store, m: MemberId, g: GroupId) returns (ops: seq<Op>)
    requires Valid(s) && AllVacant(s) && m in s.members && g in s.groups && s.groups[g].code != "" &&
      KeepsNumber(s, m, g)
    ensures var t := Store(s.groups, s.members[m := s.members[m].(number := "")], s.counters);
      Run(s, ops) == Stepped(t, []) && Valid(t) && AllVacant(t)
  {
    LeftoverIsItsOwn(s, m, g);
    LeftoverPasses(s, m, g);
    hide *;
    ops := AddAndRemove(s, m, g);
  }

  lemma LeftoverIsItsOwn(s: Store, m: MemberId, g: GroupId)
    requires Valid(s) && m in s.members && g in s.groups && KeepsNumber(s, m, g)
    ensures forall n :: n in s.members && n != m ==> s.members[n].number != NumberFor(s, m, g)
  {
    KeptIsNotBlank(s, m, g);
    assert NumbersUnique(s.members);
    forall n | n in s.members && n != m
      ensures s.members[n].number != NumberFor(s, m, g)
    {
      assert NumbersDiffer(s.members[m], s.members[n]);
    }
    hide Valid, KeepsNumber;
  }

  lemma LeftoverPasses(s: Store, m: MemberId, g: GroupId)
    requires m in s.members && g in s.groups && KeepsNumber(s, m, g)
    ensures Passed(s, m, g) == Store(s.groups, s.members[m := s.members[m].(number := "")], s.counters)
    ensures PairMints(s, m, g) == []
  {
    hide AddedMember, NextSequence, KeepsNumber;
  }

  function Leftovers(s: Store, g: GroupId): set<MemberId>
    requires g in s.groups
  {
    set m | m in s.members && KeepsNumber(s, m, g)
  }

  lemma FewerLeftovers(s: Store, m: MemberId, g: GroupId, t: Store)
    requires m in s.members && g in s.groups && KeepsNumber(s, m, g)
    requires t == Store(s.groups, s.members[m := s.members[m].(number := "")], s.counters)
    ensures Leftovers(t, g) == Leftovers(s, g) - {m} && m in Leftovers(s, g)
  {
    NoNumberMatches(s.groups[g].code);
    hide MembershipNumberMatches;
  }

  lemma PickLeftover(s: Store, g: GroupId) returns (m: MemberId, t: Store)
    requires g in s.groups && Leftovers(s, g) != {}
    ensures m in s.members && KeepsNumber(s, m, g)
    ensures t == Store(s.groups, s.members[m := s.members[m].(number := "")], s.counters)
    ensures Leftovers(t, g) < Leftovers(s, g) && t.members.Keys == s.members.Keys
  {
    m :| m in Leftovers(s, g);
    t := Store(s.groups, s.members[m := s.members[m].(number := "")], s.counters);
    hide KeepsNumber;
    FewerLeftovers(s, m, g, t);
  }

  lemma NothingLeft(s: Store, g: GroupId)
    requires Valid(s) && AllVacant(s) && g in s.groups && s.groups[g].code != "" && Leftovers(s, g) == {}
    ensures Bare(s, g)
  {
    forall m | m in s.members
      ensures !MembershipNumberMatches(s.members[m].number, s.groups[g].code)
    {
      assert m !in Leftovers(s, g);
    }
    hide Valid, AllVacant, MembershipNumberMatches;
  }

  /** Vacant tables can be cleared of such numbers without minting any. */
  lemma {:induction false} ClearLeftovers(s: Store, g: GroupId) returns (ops: seq<Op>)
    requires Valid(s) && AllVacant(s) && g in s.groups && s.groups[g].code != ""
    ensures var r := Run(s, ops);
      r.minted == [] && Bare(r.store, g) && r.store.counters == s.counters && r.store.members.Keys == s.members.Keys
    decreases Leftovers(s, g)
  {
    hide *;
    if Leftovers(s, g) == {} {
      NothingLeft(s, g);
      ops := [];
      RunNothing(s);
    } else {
      var m, t := PickLeftover(s, g);
      var first := LeftoverCleared(s, m, g);
      var rest := ClearLeftovers(t, g);
      ops := first + rest;
      RunAfter(s, first, t, rest);
    }
  }

  // ---------------------------------------------------------------- climbing to a sequence

  /** In bare tables an addition mints the next sequence, and the tables are bare again. */
  lemma MintNext(s: Store, m: MemberId, g: GroupId) returns (ops: seq<Op>)
    requires Bare(s, g) && m in s.members
    ensures var r := Run(s, ops);
      && r.minted == [Mint(g, NextSequence(s, g))] && Bare(r.store, g) && m in r.store.members
      && r.store.counters == s.counters[g := NextSequence(s, g)]
  {
    BareMints(s, m, g);
    BarePassed(s, m, g);
    BareIs(s, g);
    hide *;
    ops := AddAndRemove(s, m, g);
    BareIs(Passed(s, m, g), g);
  }

  lemma BareIs(s: Store, g: GroupId)
    ensures Bare(s, g) <==> g in s.groups && s.groups[g].code != "" && Valid(s) && AllVacant(s) && NoneLeft(s, g)
  {
  }

  lemma BareMints(s: Store, m: MemberId, g: GroupId)
    requires Bare(s, g) && m in s.members
    ensures !KeepsNumber(s, m, g) && PairMints(s, m, g) == [Mint(g, NextSequence(s, g))]
    ensures forall n :: n in s.members && n != m ==> s.members[n].number != NumberFor(s, m, g)
  {
    OwnNumberMatches(s.groups[g].code, NextSequence(s, g));
    hide Valid, AllVacant, MembershipNumberMatches, NextSequence, FormatMemberId;
  }

  lemma BarePassed(s: Store, m: MemberId, g: GroupId)
    requires Bare(s, g) && m in s.members
    ensures var t := Passed(s, m, g);
      && t.groups == s.groups && m in t.members && NoneLeft(t, g) && t.counters == s.counters[g := NextSequence(s, g)]
  {
    NoNumberMatches(s.groups[g].code);
    hide Valid, AllVacant, MembershipNumberMatches, NextSequence, AddedMember;
  }

  lemma MintsIt(s: Store, ops: seq<Op>, g: GroupId, sequence: nat)
    requires Run(s, ops).minted == [Mint(g, sequence)]
    ensures CanMint(s, g, sequence)
  {
    assert Mint(g, sequence) in Run(s, ops).minted;
  }

  lemma {:induction false} Climb(s: Store, m: MemberId, g: GroupId, sequence: nat)
    requires Bare(s, g) && m in s.members && NextSequence(s, g) <= sequence
    ensures CanMint(s, g, sequence)
    decreases sequence - NextSequence(s, g)
  {
    hide Bare, Run, CanMint;
    var next := NextSequence(s, g);
    var ops := MintNext(s, m, g);
    if next == sequence {
      MintsIt(s, ops, g, sequence);
    } else {
      var t := Run(s, ops).store;
      assert NextSequence(t, g) == next + 1;
      Climb(t, m, g, sequence);
      MintLater(s, ops, g, sequence);
    }
  }

  /** From any tables with a member in them, every sequence above the group's start can be reached. */
  lemma CanReach(s: Store, m: MemberId, g: GroupId, sequence: nat)
    requires Valid(s) && m in s.members && g in s.groups && s.groups[g].code != ""
    requires if g in s.counters then s.counters[g] < sequence else sequence >= 2
    ensures CanMint(s, g, sequence)
  {
    var vacant := EmptiedAll(s, s.members.Keys);
    EmptiedVacant(s);
    hide Valid, AllVacant, EmptiedAll, Run, CanMint, Bare;
    var clearing := ClearMembers(s, s.members.Keys);
    var tidying := ClearLeftovers(vacant, g);
    var bare := Run(vacant, tidying).store;
    BareStart(bare, g);
    Climb(bare, m, g, sequence);
    MintLater(vacant, tidying, g, sequence);
    MintLater(s, clearing, g, sequence);
  }

  lemma BareStart(s: Store, g: GroupId)
    requires Bare(s, g)
    ensures NextSequence(s, g) == if g in s.counters then s.counters[g] + 1 else 2
  {
    NobodyHolds(s, g);
    hide Bare;
  }

  /**
   * Exactly which sequences a group can still mint: those above its counter, or, without a counter
   * row, all from 2 on.  A number somebody holds can therefore be minted again exactly when the
   * counter is missing or behind it.
   */
  lemma NumberReturnsIff(s: Store, g: GroupId, sequence: nat)
    requires Valid(s) && s.members != map[] && g in s.groups && s.groups[g].code != ""
    ensures CanMint(s, g, sequence) <==> if g in s.counters then s.counters[g] < sequence else sequence >= 2
  {
    if CanMint(s, g, sequence) {
      var ops :| Mint(g, sequence) in Run(s, ops).minted;
      RunMintsIncrease(s, ops);
      hide Run, Valid;
      var minted := Run(s, ops).minted;
      var i :| 0 <= i < |minted| && minted[i] == Mint(g, sequence);
      assert MintedBetween(s.counters, minted[i], Run(s, ops).store.counters);
    } else if if g in s.counters then s.counters[g] < sequence else sequence >= 2 {
      var m :| m in s.members;
      CanReach(s, m, g, sequence);
    }
  }
}
