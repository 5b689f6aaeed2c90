/** The numbers minted by runs of membership operations. */
module MemberNumbers {
  import opened Common
  import opened Decimal
  import opened IdCodec
  import opened MemberGroups
  import opened MemberGroupProofs
  import opened MemberGroupRuns

  /**
   * How minting moves the counters from `before` to `after`: they never fall, every minted sequence
   * lies above its counter's old value and not above its new one, sequences of one group increase,
   * and a counter that did not exist starts past 1.
   */
  ghost predicate Advances(before: map<GroupId, nat>, minted: seq<Mint>, after: map<GroupId, nat>) {
    && (forall g :: g in before ==> g in after && before[g] <= after[g])
    && (forall g :: g in after && g !in before ==> after[g] >= 2)
    && (forall i :: 0 <= i < |minted| ==> MintedBetween(before, minted[i], after))
    && (forall i, j :: 0 <= i < j < |minted| && minted[i].group == minted[j].group ==>
          minted[i].sequence < minted[j].sequence)
  }

  ghost predicate MintedBetween(before: map<GroupId, nat>, mint: Mint, after: map<GroupId, nat>) {
    && mint.group in after && mint.sequence <= after[mint.group]
    && (if mint.group in before then before[mint.group] < mint.sequence else mint.sequence >= 2)
  }

  lemma AdvancesTransitive(a: map<GroupId, nat>, x: seq<Mint>, b: map<GroupId, nat>, y: seq<Mint>, c: map<GroupId, nat>)
    requires Advances(a, x, b) && Advances(b, y, c)
    ensures Advances(a, x + y, c)
  {
    var z := x + y;
    forall i | 0 <= i < |z|
      ensures MintedBetween(a, z[i], c)
    {
      if i < |x| {
        assert MintedBetween(a, x[i], b);
      } else {
        assert MintedBetween(b, y[i - |x|], c);
      }
    }
    forall i, j | 0 <= i < j < |z| && z[i].group == z[j].group
      ensures z[i].sequence < z[j].sequence
    {
      if i < |x| {
        assert MintedBetween(a, x[i], b);
        if j >= |x| {
          assert MintedBetween(b, y[j - |x|], c);
        }
      }
    }
  }

  /** An operation whose minting is in order. */
  ghost predicate Orderly<T>(s: Store, outcome: Outcome<T>) {
    outcome.Done? ==> Advances(s.counters, outcome.minted, outcome.store.counters)
  }

  lemma RowIsCounted(s: Store, m: MemberId, g: GroupId)
    requires m in s.members && HasRow(s.members[m].rows, g) && g !in s.counters
    ensures LastSequence(s, g) >= 1
  {
    assert m in Affected(s, g);
  }

  /** A number is only minted for a member that already has the row, so a new counter starts at 2. */
  lemma AssignOrderly(s: Store, m: MemberId, g: GroupId)
    requires m in s.members && g in s.groups && HasRow(s.members[m].rows, g)
    ensures Orderly(s, Assign(s, m, g))
  {
    if g !in s.counters {
      RowIsCounted(s, m, g);
    }
  }

  lemma AddKnownOrderly(s: Store, m: MemberId, g: GroupId)
    requires m in s.members && g in s.groups && HasRow(s.members[m].rows, g)
    ensures Orderly(s, AddKnown(s, m, g))
  {
    var mem := s.members[m];
    AssignOrderly(Put(s, m, if mem.group.None? then mem.(group := Some(g)) else mem), m, g);
  }

  lemma AddNewOrderly(s: Store, m: MemberId, g: GroupId)
    requires m in s.members && g in s.groups && !HasRow(s.members[m].rows, g) && Ordered(s.members[m].rows)
    ensures Orderly(s, AddNew(s, m, g))
  {
    InsertRowIsAppended(s.members[m], g);
    AppendedFound(s.members[m], g);
    AssignOrderly(Put(s, m, InsertRow(s.members[m], g)), m, g);
  }

  lemma AddOrderly(s: Store, m: MemberId, g: GroupId)
    requires Valid(s) && m in s.members && g in s.groups
    ensures Orderly(s, Add(s, m, g))
  {
    var base := EnsureLegacy(s.members[m]);
    EnsureLegacyOk(s.groups, s.members[m]);
    hide Valid, AddKnown, AddNew;
    if HasRow(base.rows, g) {
      AddKnownOrderly(Put(s, m, base), m, g);
    } else {
      AddNewOrderly(Put(s, m, base), m, g);
    }
  }

  lemma PromoteOrderly(s: Store, m: MemberId)
    requires m in s.members && s.members[m].rows != []
    requires forall i :: 1 <= i < |s.members[m].rows| ==> s.members[m].rows[i].priority > 1
    ensures Orderly(s, Promote(s, m))
  {
    var mem := s.members[m];
    var rest := mem.rows[1..];
    PlaceFirst(rest, mem.rows[0].(priority := 1));
    var g := mem.rows[0].group;
    assert PromoteFirst(mem).rows[0].group == g;
    assert HasRow(PromoteFirst(mem).rows, g);
    if CodeOf(s.groups, g) != "" {
      AssignOrderly(Put(s, m, PromoteFirst(mem)), m, g);
    }
  }

  lemma DropFirst(rows: seq<Row>, g: GroupId)
    requires Ordered(rows) && HasRow(rows, g)
    ensures rows[IndexOf(rows, g)].priority == 1 <==> IndexOf(rows, g) == 0
    ensures IndexOf(rows, g) == 0 ==>
      var rest := Drop(rows, 0);
      rest == rows[1..] && forall i :: 0 <= i < |rest| ==> rest[i].priority > 1
  {
  }

  lemma DeletedFirst(mem: Member, g: GroupId)
    requires Ordered(mem.rows) && HasRow(mem.rows, g) && mem.rows[IndexOf(mem.rows, g)].priority == 1
    ensures var rest := DeleteRow(mem, g).rows;
      forall i :: 0 <= i < |rest| ==> rest[i].priority > 1
  {
    DropFirst(mem.rows, g);
    hide Ordered, IndexOf;
  }

  lemma PromoteAnyOrderly(s: Store, m: MemberId)
    requires m in s.members
    requires forall i :: 0 <= i < |s.members[m].rows| ==> s.members[m].rows[i].priority > 1
    ensures Orderly(s, Promote(s, m))
  {
    if s.members[m].rows != [] {
      PromoteOrderly(s, m);
      hide Promote;
    }
  }

  lemma RemovePreparedOrderly(s: Store, m: MemberId, g: GroupId)
    requires m in s.members && Ordered(s.members[m].rows)
    ensures Orderly(s, RemovePrepared(s, m, g))
  {
    var mem := s.members[m];
    hide Ordered, HasRow, DeleteRow, Promote, Advances;
    NothingMinted(s);
    if HasRow(mem.rows, g) && mem.rows[IndexOf(mem.rows, g)].priority == 1 {
      DeletedFirst(mem, g);
      PromoteAnyOrderly(Put(s, m, DeleteRow(mem, g)), m);
    }
  }

  lemma RemoveOrderly(s: Store, m: MemberId, g: GroupId)
    requires Valid(s) && m in s.members
    ensures Orderly(s, Remove(s, m, g))
  {
    EnsureLegacyOk(s.groups, s.members[m]);
    assert Ordered(EnsureLegacy(s.members[m]).rows);
    hide Valid, RemovePrepared, MemberOk, Ordered;
    RemovePreparedOrderly(Put(s, m, EnsureLegacy(s.members[m])), m, g);
  }

  lemma {:induction false} RemoveAllOrderly(s: Store, m: MemberId, gs: seq<GroupId>)
    requires Valid(s) && m in s.members
    ensures Orderly(s, RemoveAll(s, m, gs))
    decreases gs
  {
    hide Valid, Advances, Remove;
    if gs == [] {
      NothingMinted(s);
    } else if Remove(s, m, gs[0]).Done? {
      var first := Remove(s, m, gs[0]);
      RemoveOrderly(s, m, gs[0]);
      RemoveKeeps(s, m, gs[0]);
      RemoveAllOrderly(first.store, m, gs[1..]);
      var rest := RemoveAll(first.store, m, gs[1..]);
      if rest.Done? {
        AdvancesTransitive(s.counters, first.minted, first.store.counters, rest.minted, rest.store.counters);
      }
    }
  }

  lemma NothingMinted(s: Store)
    ensures Advances(s.counters, [], s.counters)
  {
  }

  lemma {:induction false} AddAllOrderly(s: Store, m: MemberId, gs: seq<GroupId>, managed: Option<GroupId>)
    requires Valid(s) && m in s.members
    ensures Orderly(s, AddAll(s, m, gs, managed))
    decreases gs
  {
    hide Valid, Advances, Add;
    if gs == [] {
      NothingMinted(s);
    } else if Manages(managed, gs[0]) {
      if !Live(s.groups, gs[0]) {
        AddAllOrderly(s, m, gs[1..], managed);
      } else if Add(s, m, gs[0]).Done? {
        var first := Add(s, m, gs[0]);
        AddOrderly(s, m, gs[0]);
        AddKeeps(s, m, gs[0]);
        AddAllOrderly(first.store, m, gs[1..], managed);
        var rest := AddAll(first.store, m, gs[1..], managed);
        if rest.Done? {
          AdvancesTransitive(s.counters, first.minted, first.store.counters, rest.minted, rest.store.counters);
        }
      }
    }
  }

  lemma SyncOrderly(s: Store, m: MemberId, ids: seq<GroupId>, managed: Option<GroupId>)
    requires Valid(s) && m in s.members
    ensures Orderly(s, Sync(s, m, ids, managed))
  {
    hide Valid, Advances, RemoveAll, AddAll;
    var base := Put(s, m, EnsureLegacy(s.members[m]));
    Prepared(s, m);
    var current := Groups(base.members[m].rows);
    var dropped, missing := Dropped(current, Dedup(ids), managed), Missing(current, Dedup(ids));
    RemoveAllOrderly(base, m, dropped);
    var first := RemoveAll(base, m, dropped);
    if first.Done? {
      RemoveAllKeeps(base, m, dropped);
      AddAllOrderly(first.store, m, missing, managed);
      var rest := AddAll(first.store, m, missing, managed);
      if rest.Done? {
        AdvancesTransitive(s.counters, first.minted, first.store.counters, rest.minted, rest.store.counters);
      }
    }
  }

  lemma {:induction false} DetachOrderly(s: Store, g: GroupId, order: seq<MemberId>)
    requires Valid(s)
    ensures Orderly(s, Detach(s, g, order))
    decreases order
  {
    hide Valid, Advances, Remove;
    if order == [] {
      NothingMinted(s);
    } else if order[0] !in s.members {
      DetachOrderly(s, g, order[1..]);
    } else if Remove(s, order[0], g).Done? {
      var first := Remove(s, order[0], g);
      RemoveOrderly(s, order[0], g);
      RemoveKeeps(s, order[0], g);
      DetachOrderly(first.store, g, order[1..]);
      var rest := Detach(first.store, g, order[1..]);
      if rest.Done? {
        AdvancesTransitive(s.counters, first.minted, first.store.counters, rest.minted, rest.store.counters);
      }
    }
  }

  lemma StepOrderly(s: Store, op: Op)
    requires Valid(s) && Enabled(s, op)
    ensures Advances(s.counters, Step(s, op).minted, Step(s, op).store.counters)
  {
    hide Valid, Advances, Add, Remove, Sync, Detach;
    NothingMinted(s);
    match op
    case AddOp(m, g) => AddOrderly(s, m, g);
    case RemoveOp(m, g) => RemoveOrderly(s, m, g);
    case SyncOp(m, ids, managed) => SyncOrderly(s, m, ids, managed);
    case DetachOp(g, order) => DetachOrderly(s, g, order);
  }

  /**
   * Over every run the sequences minted for one group strictly increase, across additions,
   * removals, re-additions and aborted attempts; so a number minted in the run is not minted again
   * in it, whether it was freed or not.  Nothing is said here about numbers stored before the run.
   */
  lemma {:induction false} RunMintsIncrease(s: Store, ops: seq<Op>)
    requires Valid(s)
    ensures Advances(s.counters, Run(s, ops).minted, Run(s, ops).store.counters)
    decreases ops
  {
    hide Valid, Advances, Step, Enabled;
    if ops == [] {
      NothingMinted(s);
    } else if !Enabled(s, ops[0]) {
      RunMintsIncrease(s, ops[1..]);
    } else {
      var first := Step(s, ops[0]);
      StepOrderly(s, ops[0]);
      StepKeepsValid(s, ops[0]);
      RunMintsIncrease(first.store, ops[1..]);
      var rest := Run(first.store, ops[1..]);
      AdvancesTransitive(s.counters, first.minted, first.store.counters, rest.minted, rest.store.counters);
    }
  }

  /**
   * No two numbers minted in a run are the same text, unless they belong to groups whose codes are
   * equal, or extend each other while the shorter code's sequence has gone far enough.
   */
  lemma MintedNumbersDiffer(s: Store, ops: seq<Op>, i: nat, j: nat)
    requires Valid(s) && i < j < |Run(s, ops).minted|
    requires var a, b := Run(s, ops).minted[i], Run(s, ops).minted[j];
      && a.group in s.groups && b.group in s.groups
      && (a.group != b.group ==>
            var c, d := s.groups[a.group].code, s.groups[b.group].code;
            c != d && Clear(c, a.sequence, d) && Clear(d, b.sequence, c))
    ensures var a, b := Run(s, ops).minted[i], Run(s, ops).minted[j];
      FormatMemberId(s.groups[a.group].code, a.sequence) != FormatMemberId(s.groups[b.group].code, b.sequence)
  {
    RunMintsIncrease(s, ops);
    var minted, after := Run(s, ops).minted, Run(s, ops).store.counters;
    var a, b := minted[i], minted[j];
    assert MintedBetween(s.counters, a, after) && MintedBetween(s.counters, b, after);
    hide Valid, Run, FormatMemberId, Clear;
    if a.group == b.group {
      MemberIdsInjectiveInGroup(s.groups[a.group].code, a.sequence, b.sequence);
    } else {
      IdsDiffer(s.groups[a.group].code, a.sequence, s.groups[b.group].code, b.sequence);
    }
  }

  // ---------------------------------------------------------------- where the code and its description part

  /** On a valid store an assignment is sound exactly when the member is materialised for the group. */
  lemma AssignSoundIff(s: Store, m: MemberId, g: GroupId)
    requires Valid(s) && m in s.members && g in s.groups && s.groups[g].code != "" && Assign(s, m, g).Done?
    ensures Valid(Assign(s, m, g).store) <==> Materialised(s.members[m], g)
  {
    var mem := s.members[m];
    assert MemberOk(s.groups, mem);
    if Materialised(mem, g) {
      AssignKeeps(s, m, g);
    } else {
      var after := Assign(s, m, g).store.members[m];
      AssignShape(s, m, g);
      assert after.rows[0].group == g && after.group != Some(g);
      assert !MemberOk(s.groups, after);
    }
  }

  lemma AssignMinted(s: Store, m: MemberId, g: GroupId)
    requires m in s.members && g in s.groups && s.groups[g].code != "" && Assign(s, m, g).Done?
    ensures Assign(s, m, g).minted == [] <==> KnownNumber(s.members[m], g, s.groups[g].code) != ""
  {
  }

  /** Removing the primary group is an assignment to the successor. */
  lemma RemovePrimaryShape(s: Store, m: MemberId)
    requires m in s.members && Ordered(s.members[m].rows) && |s.members[m].rows| >= 2
    requires s.members[m].rows[1].group in s.groups
    ensures var mem, r := s.members[m], Remove(s, m, s.members[m].rows[0].group);
      var next := mem.rows[1].group;
      if s.groups[next].code == "" then
        r == Done(Put(s, m, Succeeded(mem).(number := "")), Removal(true, Some(next)), [])
      else
        var handed := Assign(Put(s, m, Succeeded(mem)), m, next);
        && r.Done? == handed.Done?
        && (r.Done? ==> r.store == handed.store && r.minted == handed.minted)
        && (handed.Aborted? ==> r == Aborted(handed.error))
  {
    var mem := s.members[m];
    var g := mem.rows[0].group;
    assert Put(s, m, EnsureLegacy(mem)) == s;
    PromotionIsSucceeded(mem);
    PutTwice(s, m, DeleteRow(mem, g), Succeeded(mem));
    PutTwice(s, m, DeleteRow(mem, g), Succeeded(mem).(number := ""));
    assert DeleteRow(mem, g).rows[0] == mem.rows[1];
    hide Assign, Ordered, PromoteFirst, Succeeded;
  }

  /**
   * A promotion mints only for a row that has no number yet; otherwise the number the member
   * already held in the group becomes the visible one.
   */
  lemma PromotionMintsIff(s: Store, m: MemberId)
    requires Valid(s) && m in s.members && |s.members[m].rows| >= 2
    requires Remove(s, m, s.members[m].rows[0].group).Done?
    ensures var mem, r := s.members[m], Remove(s, m, s.members[m].rows[0].group);
      var next := mem.rows[1];
      && (r.minted == [] <==>
            CodeOf(s.groups, next.group) == "" || next.number != ""
            || MembershipNumberMatches(mem.number, CodeOf(s.groups, next.group)))
      && (next.number != "" ==> m in r.store.members && r.store.members[m].number == next.number)
  {
    var mem := s.members[m];
    var next := mem.rows[1];
    assert MemberOk(s.groups, mem);
    RemovePrimaryShape(s, m);
    if s.groups[next.group].code != "" {
      var moved := Put(s, m, Succeeded(mem));
      SucceededKnows(s.groups, mem);
      AssignMinted(moved, m, next.group);
      AssignShape(moved, m, next.group);
      SucceededWritten(s.groups, mem, SettledNumber(moved, m, next.group));
    }
    hide Valid, MemberOk, Remove, Assign, Succeeded, MembershipNumberMatches, KnownNumber;
  }

  lemma SucceededKnows(groups: map<GroupId, Group>, mem: Member)
    requires MemberOk(groups, mem) && |mem.rows| >= 2 && groups[mem.rows[1].group].code != ""
    ensures var next := mem.rows[1];
      KnownNumber(Succeeded(mem), next.group, groups[next.group].code)
        == if next.number != "" then next.number
           else if MembershipNumberMatches(mem.number, groups[next.group].code) then mem.number else ""
  {
    var after, next := Succeeded(mem), mem.rows[1];
    SucceededMirror(groups, mem);
    assert after.rows[0].group == next.group;
    FoundAt(after.rows, 0);
    FoundAt(mem.rows, 1);
  }
}
