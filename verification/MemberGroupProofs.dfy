/** What every membership operation keeps. */
module MemberGroupProofs {
  import opened Common
  import opened IdCodec
  import opened MemberGroups

  // ---------------------------------------------------------------- the invariant

  /** Priorities start at 1 and increase; no group occurs twice. */
  ghost predicate Ordered(rows: seq<Row>) {
    && (forall i, j :: 0 <= i < j < |rows| ==> rows[i].priority < rows[j].priority && rows[i].group != rows[j].group)
    && (rows != [] ==> rows[0].priority == 1)
  }

  /** Foreign keys: every group a member's rows or pointer names is stored. */
  ghost predicate References(groups: map<GroupId, Group>, mem: Member) {
    && (forall i :: 0 <= i < |mem.rows| ==> mem.rows[i].group in groups)
    && (mem.group.Some? ==> mem.group.value in groups)
  }

  ghost predicate RowsOk(groups: map<GroupId, Group>, mem: Member) {
    && Ordered(mem.rows)
    && References(groups, mem)
    && (forall i :: 0 <= i < |mem.rows| && mem.rows[i].number != "" ==> groups[mem.rows[i].group].code != "")
    && (mem.rows != [] ==> mem.group == Some(mem.rows[0].group))
  }

  /** A mirror row repeats the number of a membership row; only the member's own group is primary. */
  ghost predicate MirrorOk(mem: Member) {
    && (mem.user.None? ==> mem.mirror == map[])
    && (forall g :: g in mem.mirror ==>
          && HasRow(mem.rows, g)
          && mem.mirror[g].number != "" && mem.mirror[g].number == RowNumber(mem.rows, g)
          && (mem.mirror[g].primary ==> mem.group == Some(g)))
  }

  /** The visible number is the primary row's number whenever that row has one. */
  ghost predicate VisibleOk(mem: Member) {
    mem.rows != [] && mem.rows[0].number != "" ==> mem.number == mem.rows[0].number
  }

  ghost predicate MemberOk(groups: map<GroupId, Group>, mem: Member) {
    RowsOk(groups, mem) && MirrorOk(mem) && VisibleOk(mem)
  }

  ghost predicate Valid(s: Store) {
    && (forall m :: m in s.members ==> MemberOk(s.groups, s.members[m]))
    && NumbersUnique(s.members)
  }

  lemma MemberIsOk(s: Store, m: MemberId)
    requires Valid(s) && m in s.members
    ensures MemberOk(s.groups, s.members[m])
  {
    hide MemberOk;
  }

  // ---------------------------------------------------------------- row lists

  lemma {:induction false} PlaceFirst(rows: seq<Row>, row: Row)
    requires forall i :: 0 <= i < |rows| ==> row.priority < rows[i].priority
    ensures Place(rows, row) == [row] + rows
  {
    if rows != [] {
      PlaceFirst(rows[..|rows| - 1], row);
      assert rows == rows[..|rows| - 1] + [rows[|rows| - 1]];
    }
  }

  lemma FoundAt(rows: seq<Row>, i: nat)
    requires i < |rows|
    requires forall a, b :: 0 <= a < b < |rows| ==> rows[a].group != rows[b].group
    ensures IndexOf(rows, rows[i].group) == i
  {
  }

  lemma AbsentIff(rows: seq<Row>, g: GroupId)
    ensures HasRow(rows, g) <==> g in Groups(rows)
  {
    if HasRow(rows, g) {
      assert Groups(rows)[IndexOf(rows, g)] == g;
    } else {
      assert forall i :: 0 <= i < |rows| ==> Groups(rows)[i] != g;
    }
  }

  /** What an assignment leaves: the row renumbered in place, or a new last row. */
  function Renumbered(rows: seq<Row>, g: GroupId, number: string): seq<Row> {
    var i := IndexOf(rows, g);
    if i < |rows| then rows[i := rows[i].(number := number)] else rows + [Row(g, MaxPriority(rows) + 1, number)]
  }

  lemma RenumberPrimary(rows: seq<Row>, g: GroupId, number: string)
    requires Ordered(rows) && rows != [] && rows[0].group == g
    ensures NumberedRows(rows, g, number, true) == [Row(g, 1, number)] + rows[1..]
  {
    var rest := rows[1..];
    assert Drop(rows, 0) == rest;
    assert forall i :: 0 <= i < |rest| ==> rest[i] == rows[i + 1];
    PlaceFirst(rest, Row(g, 1, number));
  }

  lemma UpdateFirst(rows: seq<Row>, row: Row)
    requires rows != []
    ensures rows[0 := row] == [row] + rows[1..]
  {
  }

  lemma NumberedRowsShape(rows: seq<Row>, g: GroupId, number: string, primary: bool)
    requires Ordered(rows)
    requires primary ==> IndexOf(rows, g) == 0
    ensures NumberedRows(rows, g, number, primary) == Renumbered(rows, g, number)
  {
    if primary && rows != [] {
      RenumberPrimary(rows, g, number);
      UpdateFirst(rows, Row(g, 1, number));
    }
  }

  /** Renumbering touches the number of that row only. */
  lemma RenumberedNumbers(rows: seq<Row>, g: GroupId, number: string, h: GroupId)
    requires Ordered(rows)
    ensures var after := Renumbered(rows, g, number);
      && HasRow(after, h) == (h == g || HasRow(rows, h))
      && RowNumber(after, h) == if h == g then number else RowNumber(rows, h)
  {
    var after := Renumbered(rows, g, number);
    var i := IndexOf(rows, h);
    RenumberedOrdered(rows, g, number);
    if i < |rows| {
      FoundAt(after, i);
    } else if h == g {
      FoundAt(after, |rows|);
    } else {
      AbsentIff(after, h);
    }
  }

  lemma RenumberedOrdered(rows: seq<Row>, g: GroupId, number: string)
    requires Ordered(rows)
    ensures Ordered(Renumbered(rows, g, number))
  {
  }

  lemma RenumberedGroups(rows: seq<Row>, g: GroupId, number: string)
    ensures Groups(Renumbered(rows, g, number)) == if HasRow(rows, g) then Groups(rows) else Groups(rows) + [g]
  {
  }

  // ---------------------------------------------------------------- assigning a number

  /** A group becomes primary exactly when the member's pointer is free or already names it. */
  ghost predicate Takes(mem: Member, g: GroupId) { mem.group.None? || mem.group == Some(g) }

  /** A member with rows, or whose pointer does not name another group. */
  ghost predicate Materialised(mem: Member, g: GroupId) { mem.rows != [] || Takes(mem, g) }

  lemma PrimaryIsOwnGroup(groups: map<GroupId, Group>, mem: Member, g: GroupId)
    requires RowsOk(groups, mem) && MirrorOk(mem)
    ensures BecomesPrimary(mem, g) <==> Takes(mem, g)
    ensures BecomesPrimary(mem, g) ==> IndexOf(mem.rows, g) == 0
  {
  }

  ghost predicate Assignable(groups: map<GroupId, Group>, mem: Member, g: GroupId, number: string) {
    && RowsOk(groups, mem) && MirrorOk(mem)
    && g in groups && groups[g].code != "" && number != ""
    && Materialised(mem, g)
  }

  /** The complete effect of an assignment on the member. */
  lemma WriteNumberEffect(groups: map<GroupId, Group>, mem: Member, g: GroupId, number: string)
    requires Assignable(groups, mem, g, number)
    ensures WriteNumber(mem, g, number) == Member(
      mem.user,
      if Takes(mem, g) then Some(g) else mem.group,
      if Takes(mem, g) then number else mem.number,
      Renumbered(mem.rows, g, number),
      if mem.user.Some? then mem.mirror[g := Mirror(number, Takes(mem, g))] else mem.mirror)
  {
    PrimaryIsOwnGroup(groups, mem, g);
    NumberedRowsShape(mem.rows, g, number, Takes(mem, g));
  }

  lemma WriteNumberRows(groups: map<GroupId, Group>, mem: Member, g: GroupId, number: string)
    requires Assignable(groups, mem, g, number)
    ensures RowsOk(groups, WriteNumber(mem, g, number))
  {
    WriteNumberEffect(groups, mem, g, number);
    RenumberedOrdered(mem.rows, g, number);
    var after := Renumbered(mem.rows, g, number);
    assert forall i :: 0 <= i < |after| ==>
      if i < |mem.rows| && i != IndexOf(mem.rows, g) then after[i] == mem.rows[i] else after[i].group == g;
  }

  lemma WriteNumberMirror(groups: map<GroupId, Group>, mem: Member, g: GroupId, number: string)
    requires Assignable(groups, mem, g, number)
    ensures MirrorOk(WriteNumber(mem, g, number))
  {
    WriteNumberEffect(groups, mem, g, number);
    var after := WriteNumber(mem, g, number);
    forall h | h in after.mirror
      ensures HasRow(after.rows, h) && after.mirror[h].number != ""
      ensures after.mirror[h].number == RowNumber(after.rows, h)
      ensures after.mirror[h].primary ==> after.group == Some(h)
    {
      RenumberedNumbers(mem.rows, g, number, h);
    }
  }

  /** An assignment on a materialised member keeps the member's records in agreement. */
  lemma WriteNumberKeeps(groups: map<GroupId, Group>, mem: Member, g: GroupId, number: string)
    requires Assignable(groups, mem, g, number)
    requires VisibleOk(mem) || Takes(mem, g)
    ensures MemberOk(groups, WriteNumber(mem, g, number))
  {
    WriteNumberRows(groups, mem, g, number);
    WriteNumberMirror(groups, mem, g, number);
    WriteNumberEffect(groups, mem, g, number);
  }

  // ---------------------------------------------------------------- inserting a row

  /** A new, still unnumbered, last row. */
  function Appended(mem: Member, g: GroupId): Member {
    mem.(group := if mem.rows == [] then Some(g) else mem.group,
         rows := mem.rows + [Row(g, MaxPriority(mem.rows) + 1, "")])
  }

  lemma AppendedOk(groups: map<GroupId, Group>, mem: Member, g: GroupId)
    requires MemberOk(groups, mem) && g in groups && !HasRow(mem.rows, g) && Materialised(mem, g)
    ensures MemberOk(groups, Appended(mem, g))
    ensures HasRow(Appended(mem, g).rows, g) && RowNumber(Appended(mem, g).rows, g) == ""
  {
    var after := Appended(mem, g);
    assert after.rows == Renumbered(mem.rows, g, "");
    RenumberedOrdered(mem.rows, g, "");
    RenumberedNumbers(mem.rows, g, "", g);
    forall h | h in mem.mirror
      ensures HasRow(after.rows, h) && RowNumber(after.rows, h) == RowNumber(mem.rows, h)
    {
      RenumberedNumbers(mem.rows, g, "", h);
    }
  }

  lemma InsertRowIsAppended(mem: Member, g: GroupId)
    requires Ordered(mem.rows)
    ensures InsertRow(mem, g) == Appended(mem, g)
    ensures MaxPriority(mem.rows) + 1 == 1 <==> mem.rows == []
  {
  }

  lemma EnsureLegacyOk(groups: map<GroupId, Group>, mem: Member)
    requires MemberOk(groups, mem)
    ensures MemberOk(groups, EnsureLegacy(mem))
    ensures EnsureLegacy(mem).rows == [] ==> mem.group.None?
  {
    if mem.rows == [] && mem.group.Some? {
      AppendedOk(groups, mem, mem.group.value);
      assert EnsureLegacy(mem) == Appended(mem, mem.group.value);
    }
  }

  // ---------------------------------------------------------------- deleting a row

  /** A list of groups without some of them. */
  function Except(gs: seq<GroupId>, dropped: seq<GroupId>): seq<GroupId> {
    Filter(gs, g => g !in dropped)
  }

  lemma ExceptNone(gs: seq<GroupId>, dropped: seq<GroupId>)
    requires forall g :: g in gs ==> g !in dropped
    ensures Except(gs, dropped) == gs
  {
    FilterAll(gs, g => g !in dropped);
  }

  lemma {:induction false} ExceptTwice(gs: seq<GroupId>, a: seq<GroupId>, b: seq<GroupId>)
    ensures Except(Except(gs, a), b) == Except(gs, a + b)
  {
    if gs != [] {
      ExceptTwice(gs[1..], a, b);
      if gs[0] !in a {
        assert Except(gs, a) == [gs[0]] + Except(gs[1..], a);
      }
    }
  }

  lemma DroppedRow(rows: seq<Row>, i: nat, h: GroupId)
    requires Ordered(rows) && i < |rows| && h != rows[i].group
    ensures HasRow(Drop(rows, i), h) == HasRow(rows, h) && RowNumber(Drop(rows, i), h) == RowNumber(rows, h)
  {
    var after := Drop(rows, i);
    var j := IndexOf(rows, h);
    assert forall a, b :: 0 <= a < b < |after| ==> after[a].group != after[b].group;
    if j < |rows| {
      assert after[if j < i then j else j - 1] == rows[j];
      FoundAt(after, if j < i then j else j - 1);
    } else {
      assert forall k :: 0 <= k < |after| ==> after[k] == rows[if k < i then k else k + 1];
      AbsentIff(after, h);
    }
  }

  lemma {:induction false} DroppedGroups(rows: seq<Row>, i: nat)
    requires i < |rows|
    requires forall j :: 0 <= j < |rows| && j != i ==> rows[j].group != rows[i].group
    ensures Groups(Drop(rows, i)) == Except(Groups(rows), [rows[i].group])
  {
    var before, after := Groups(rows[..i]), Groups(rows[i + 1..]);
    var keep := (x: GroupId) => x !in [rows[i].group];
    assert Groups(rows) == before + ([rows[i].group] + after);
    assert Groups(Drop(rows, i)) == before + after;
    FilterAppend(before, [rows[i].group] + after, keep);
    FilterAll(before, keep);
    FilterAll(after, keep);
  }

  lemma DeleteRowMirror(groups: map<GroupId, Group>, mem: Member, g: GroupId)
    requires RowsOk(groups, mem) && MirrorOk(mem) && HasRow(mem.rows, g)
    ensures MirrorOk(DeleteRow(mem, g)) && g !in DeleteRow(mem, g).mirror
  {
    var after := DeleteRow(mem, g);
    forall h | h in after.mirror
      ensures HasRow(after.rows, h) && RowNumber(after.rows, h) == RowNumber(mem.rows, h)
    {
      DroppedRow(mem.rows, IndexOf(mem.rows, g), h);
    }
  }

  lemma DeleteSecondaryOk(groups: map<GroupId, Group>, mem: Member, g: GroupId)
    requires MemberOk(groups, mem) && HasRow(mem.rows, g) && IndexOf(mem.rows, g) > 0
    ensures MemberOk(groups, DeleteRow(mem, g))
  {
    DeleteRowMirror(groups, mem, g);
    hide MirrorOk;
  }

  /** The successor's row keeps its number and takes priority 1. */
  lemma PromoteFirstShape(rows: seq<Row>)
    requires Ordered(rows) && |rows| >= 2
    ensures Place(rows[2..], rows[1].(priority := 1)) == [rows[1].(priority := 1)] + rows[2..]
  {
    var rest := rows[2..];
    assert forall i :: 0 <= i < |rest| ==> rest[i] == rows[i + 2];
    PlaceFirst(rest, rows[1].(priority := 1));
  }

  /** Where a group is found depends on the groups of the rows only. */
  lemma {:induction false} SameGroupsSameIndex(a: seq<Row>, b: seq<Row>, h: GroupId)
    requires |a| == |b| && forall i :: 0 <= i < |a| ==> a[i].group == b[i].group
    ensures IndexOf(a, h) == IndexOf(b, h)
  {
    if a != [] && a[0].group != h {
      SameGroupsSameIndex(a[1..], b[1..], h);
    }
  }

  lemma PromotedNumbers(rows: seq<Row>, h: GroupId)
    requires Ordered(rows) && |rows| >= 2 && h != rows[0].group
    ensures var after := [rows[1].(priority := 1)] + rows[2..];
      HasRow(after, h) == HasRow(rows, h) && RowNumber(after, h) == RowNumber(rows, h)
  {
    var after, rest := [rows[1].(priority := 1)] + rows[2..], rows[1..];
    DroppedRow(rows, 0, h);
    assert Drop(rows, 0) == rest;
    assert forall i :: 0 <= i < |rest| ==> after[i].group == rest[i].group && after[i].number == rest[i].number;
    SameGroupsSameIndex(after, rest, h);
  }

  /** The member after its primary row is deleted and the next one promoted. */
  function Succeeded(mem: Member): Member
    requires |mem.rows| >= 2
  {
    mem.(group := Some(mem.rows[1].group),
         rows := [mem.rows[1].(priority := 1)] + mem.rows[2..],
         mirror := if mem.user.Some? then mem.mirror - {mem.rows[0].group} else mem.mirror)
  }

  lemma PromotionIsSucceeded(mem: Member)
    requires Ordered(mem.rows) && |mem.rows| >= 2
    ensures IndexOf(mem.rows, mem.rows[0].group) == 0
    ensures PromoteFirst(DeleteRow(mem, mem.rows[0].group)) == Succeeded(mem)
  {
    FoundAt(mem.rows, 0);
    assert Drop(mem.rows, 0) == mem.rows[1..];
    assert mem.rows[1..][1..] == mem.rows[2..];
    PromoteFirstShape(mem.rows);
  }

  lemma SucceededRows(groups: map<GroupId, Group>, mem: Member)
    requires RowsOk(groups, mem) && |mem.rows| >= 2
    ensures RowsOk(groups, Succeeded(mem))
  {
    var after := Succeeded(mem).rows;
    assert forall i :: 1 <= i < |after| ==> after[i] == mem.rows[i + 1];
  }

  lemma SucceededMirror(groups: map<GroupId, Group>, mem: Member)
    requires RowsOk(groups, mem) && MirrorOk(mem) && |mem.rows| >= 2
    ensures MirrorOk(Succeeded(mem))
  {
    var after := Succeeded(mem);
    forall h | h in after.mirror
      ensures HasRow(after.rows, h) && RowNumber(after.rows, h) == RowNumber(mem.rows, h)
    {
      PromotedNumbers(mem.rows, h);
    }
  }

  /** Nothing is left of the last membership. */
  lemma DeleteOnlyOk(groups: map<GroupId, Group>, mem: Member)
    requires MemberOk(groups, mem) && |mem.rows| == 1
    ensures var after := DeleteRow(mem, mem.rows[0].group).(group := None, number := "");
      MemberOk(groups, after) && after.rows == [] && after.mirror == map[]
  {
    FoundAt(mem.rows, 0);
    DeleteRowMirror(groups, mem, mem.rows[0].group);
  }

  // ---------------------------------------------------------------- operations on the tables

  ghost predicate OthersOk(s: Store, m: MemberId) {
    forall n :: n in s.members && n != m ==> MemberOk(s.groups, s.members[n])
  }

  lemma ValidPut(s: Store, t: Store, m: MemberId, mem: Member)
    requires OthersOk(s, m) && m in s.members && MemberOk(s.groups, mem)
    requires t.groups == s.groups && t.members == s.members[m := mem] && NumbersUnique(t.members)
    ensures Valid(t)
  {
    forall n | n in t.members
      ensures MemberOk(t.groups, t.members[n])
    {
      assert n == m || t.members[n] == s.members[n];
    }
  }

  /** `after` shows no number that `mem` did not already show. */
  ghost predicate ShowsLess(after: Member, mem: Member) {
    && (after.number == mem.number || after.number == "")
    && (forall g :: g in after.mirror ==> g in mem.mirror && after.mirror[g] == mem.mirror[g])
  }

  lemma ShowsLessDiffers(after: Member, mem: Member, other: Member)
    requires ShowsLess(after, mem) && NumbersDiffer(mem, other) && NumbersDiffer(other, mem)
    ensures NumbersDiffer(after, other) && NumbersDiffer(other, after)
  {
  }

  lemma PutUnique(members: map<MemberId, Member>, m: MemberId, mem: Member)
    requires NumbersUnique(members) && m in members && ShowsLess(mem, members[m])
    ensures NumbersUnique(members[m := mem])
  {
    forall n | n in members && n != m
      ensures NumbersDiffer(mem, members[n]) && NumbersDiffer(members[n], mem)
    {
      ShowsLessDiffers(mem, members[m], members[n]);
    }
  }

  /** A write that shows no new number cannot break uniqueness. */
  lemma PutKeeps(s: Store, m: MemberId, mem: Member)
    requires Valid(s) && m in s.members && MemberOk(s.groups, mem) && ShowsLess(mem, s.members[m])
    ensures Valid(Put(s, m, mem))
  {
    PutUnique(s.members, m, mem);
    ValidPut(s, Put(s, m, mem), m, mem);
  }

  /** What a successful assignment does to the tables. */
  ghost predicate Assigned(s: Store, t: Store, m: MemberId, g: GroupId, number: string)
    requires m in s.members
  {
    && number != ""
    && t.groups == s.groups
    && t.members == s.members[m := WriteNumber(s.members[m], g, number)]
  }

  /** The number an assignment settles on: one the member already holds, or a freshly minted one. */
  function SettledNumber(s: Store, m: MemberId, g: GroupId): string
    requires m in s.members && g in s.groups
  {
    var known := KnownNumber(s.members[m], g, s.groups[g].code);
    if known != "" then known else FormatMemberId(s.groups[g].code, LastSequence(s, g) + 1)
  }

  lemma AssignShape(s: Store, m: MemberId, g: GroupId)
    requires m in s.members && g in s.groups && s.groups[g].code != "" && Assign(s, m, g).Done?
    ensures var t := Assign(s, m, g).store;
      && Assign(s, m, g).value
      && Assigned(s, t, m, g, SettledNumber(s, m, g)) && NumbersUnique(t.members)
  {
  }

  lemma AssignKeeps(s: Store, m: MemberId, g: GroupId)
    requires m in s.members && g in s.groups && s.groups[g].code != "" && OthersOk(s, m)
    requires var mem := s.members[m];
      RowsOk(s.groups, mem) && MirrorOk(mem) && Materialised(mem, g) && (VisibleOk(mem) || Takes(mem, g))
    requires Assign(s, m, g).Done?
    ensures Valid(Assign(s, m, g).store)
    ensures Assigned(s, Assign(s, m, g).store, m, g, SettledNumber(s, m, g))
  {
    var number := SettledNumber(s, m, g);
    AssignShape(s, m, g);
    WriteNumberKeeps(s.groups, s.members[m], g, number);
    ValidPut(s, Assign(s, m, g).store, m, WriteNumber(s.members[m], g, number));
  }

  /** The same for a member that has just been rewritten. */
  lemma AssignPutKeeps(s: Store, m: MemberId, mem: Member, g: GroupId) returns (number: string)
    requires m in s.members && g in s.groups && s.groups[g].code != "" && OthersOk(s, m)
    requires RowsOk(s.groups, mem) && MirrorOk(mem) && Materialised(mem, g) && (VisibleOk(mem) || Takes(mem, g))
    requires Assign(Put(s, m, mem), m, g).Done?
    ensures var r := Assign(Put(s, m, mem), m, g);
      && r.value && Valid(r.store) && number != ""
      && r.store.groups == s.groups && r.store.members == s.members[m := WriteNumber(mem, g, number)]
  {
    var put := Put(s, m, mem);
    number := SettledNumber(put, m, g);
    PutOne(s, m, mem, WriteNumber(mem, g, number));
    hide Valid, Assign, WriteNumber, SettledNumber, RowsOk, MirrorOk, VisibleOk, Materialised, MemberOk, NumbersUnique;
    AssignShape(put, m, g);
    AssignKeeps(put, m, g);
    hide OthersOk, Put, Takes;
  }

  lemma PutOne(s: Store, m: MemberId, mem: Member, written: Member)
    requires m in s.members && OthersOk(s, m)
    ensures var put := Put(s, m, mem);
      && put.groups == s.groups && m in put.members && put.members[m] == mem && OthersOk(put, m)
      && put.members[m := written] == s.members[m := written]
  {
    hide MemberOk;
  }

  /** Only member `m` may have changed. */
  ghost predicate Touches(s: Store, t: Store, m: MemberId) {
    && t.groups == s.groups && m in t.members
    && t.members == s.members[m := t.members[m]]
  }

  lemma AddKnownKeeps(s: Store, m: MemberId, g: GroupId)
    requires Valid(s) && m in s.members && g in s.groups && HasRow(s.members[m].rows, g) && AddKnown(s, m, g).Done?
    ensures var t := AddKnown(s, m, g).store;
      && Valid(t) && Touches(s, t, m)
      && t.members[m].user == s.members[m].user
      && Groups(t.members[m].rows) == Groups(s.members[m].rows)
    ensures !AddKnown(s, m, g).value
  {
    var mem := s.members[m];
    assert MemberOk(s.groups, mem) && mem.group.Some?;
    assert Put(s, m, mem) == s;
    assert OthersOk(s, m) && Materialised(mem, g);
    if RowNumber(mem.rows, g) == "" && s.groups[g].code != "" {
      hide Valid, OthersOk, RowsOk, MirrorOk, VisibleOk, Materialised, HasRow, RowNumber, Assign, WriteNumber, Groups;
      var number := AssignPutKeeps(s, m, mem, g);
      WriteNumberEffect(s.groups, mem, g, number);
      RenumberedGroups(mem.rows, g, number);
      hide Takes, Renumbered;
    }
  }

  /** The effect of adding a group the member does not have yet. */
  ghost predicate Extended(groups: map<GroupId, Group>, mem: Member, g: GroupId, after: Member)
    requires g in groups
  {
    && after.user == mem.user
    && |after.rows| == |mem.rows| + 1 && after.rows[..|mem.rows|] == mem.rows
    && after.rows[|mem.rows|].group == g && after.rows[|mem.rows|].priority == MaxPriority(mem.rows) + 1
    && (after.rows[|mem.rows|].number == "" <==> groups[g].code == "")
    && (mem.rows != [] ==> after.number == mem.number && after.group == mem.group)
    && (mem.rows == [] ==> after.group == Some(g))
  }

  lemma AddNewUnnumbered(s: Store, m: MemberId, g: GroupId)
    requires Valid(s) && m in s.members && g in s.groups && !HasRow(s.members[m].rows, g)
    requires s.members[m].rows == [] ==> s.members[m].group.None?
    requires s.groups[g].code == ""
    ensures AddNew(s, m, g).Done? && AddNew(s, m, g).value
    ensures var t := AddNew(s, m, g).store;
      Valid(t) && Touches(s, t, m) && Extended(s.groups, s.members[m], g, t.members[m])
  {
    var mem := s.members[m];
    InsertRowIsAppended(mem, g);
    AppendedOk(s.groups, mem, g);
    var after := if mem.rows == [] then Appended(mem, g).(number := "") else Appended(mem, g);
    assert MemberOk(s.groups, after);
    PutKeeps(s, m, after);
    assert AddNew(s, m, g).store == Put(s, m, after);
  }

  lemma AppendedExtended(groups: map<GroupId, Group>, mem: Member, g: GroupId, number: string)
    requires MemberOk(groups, mem) && g in groups && groups[g].code != "" && !HasRow(mem.rows, g) && number != ""
    requires mem.rows == [] ==> mem.group.None?
    ensures Extended(groups, mem, g, WriteNumber(Appended(mem, g), g, number))
  {
    AppendedOk(groups, mem, g);
    AppendedFound(mem, g);
    WriteNumberEffect(groups, Appended(mem, g), g, number);
  }

  lemma AddNewNumbered(s: Store, m: MemberId, g: GroupId)
    requires Valid(s) && m in s.members && g in s.groups && !HasRow(s.members[m].rows, g) && AddNew(s, m, g).Done?
    requires s.members[m].rows == [] ==> s.members[m].group.None?
    requires s.groups[g].code != ""
    ensures AddNew(s, m, g).value
    ensures var t := AddNew(s, m, g).store;
      Valid(t) && Touches(s, t, m) && Extended(s.groups, s.members[m], g, t.members[m])
  {
    var mem := s.members[m];
    InsertRowIsAppended(mem, g);
    AppendedOk(s.groups, mem, g);
    var number := AssignPutKeeps(s, m, Appended(mem, g), g);
    AppendedExtended(s.groups, mem, g, number);
  }

  lemma AppendedFound(mem: Member, g: GroupId)
    requires !HasRow(mem.rows, g)
    ensures IndexOf(Appended(mem, g).rows, g) == |mem.rows|
  {
    var after := Appended(mem, g).rows;
    assert forall i :: 0 <= i < |mem.rows| ==> after[i] == mem.rows[i];
    assert after[|mem.rows|].group == g;
  }

  /** A group the member already has changes no membership list; a new one goes last. */
  ghost predicate Added(groups: map<GroupId, Group>, base: Member, g: GroupId, after: Member, isNew: bool)
    requires g in groups
  {
    && after.user == base.user
    && (isNew <==> !HasRow(base.rows, g))
    && (isNew ==> Extended(groups, base, g, after))
    && (!isNew ==> Groups(after.rows) == Groups(base.rows))
  }

  lemma AddPreparedKeeps(s: Store, m: MemberId, g: GroupId)
    requires Valid(s) && m in s.members && g in s.groups && AddPrepared(s, m, g).Done?
    requires s.members[m].rows == [] ==> s.members[m].group.None?
    ensures var t := AddPrepared(s, m, g).store;
      Valid(t) && Touches(s, t, m) && Added(s.groups, s.members[m], g, t.members[m], AddPrepared(s, m, g).value)
  {
    hide Valid, AddKnown, AddNew, Touches, Extended, HasRow, Groups;
    if HasRow(s.members[m].rows, g) {
      AddKnownKeeps(s, m, g);
    } else if s.groups[g].code == "" {
      AddNewUnnumbered(s, m, g);
    } else {
      AddNewNumbered(s, m, g);
    }
  }

  lemma TouchesPrepared(s: Store, mem: Member, t: Store, m: MemberId)
    requires m in s.members && Touches(Put(s, m, mem), t, m)
    ensures Touches(s, t, m)
  {
  }

  lemma Prepared(s: Store, m: MemberId)
    requires Valid(s) && m in s.members
    ensures Valid(Put(s, m, EnsureLegacy(s.members[m])))
    ensures EnsureLegacy(s.members[m]).rows == [] ==> EnsureLegacy(s.members[m]).group.None?
  {
    EnsureLegacyOk(s.groups, s.members[m]);
    PutKeeps(s, m, EnsureLegacy(s.members[m]));
  }

  /**
   * Adding a group keeps the invariant and touches nobody else.  A group the member already has
   * changes no membership list; a new one goes last, and unless it is the first it leaves the
   * primary group and the visible number alone.
   */
  lemma AddKeeps(s: Store, m: MemberId, g: GroupId)
    requires Valid(s) && m in s.members && g in s.groups && Add(s, m, g).Done?
    ensures var t := Add(s, m, g).store;
      && Valid(t) && Touches(s, t, m)
      && Added(s.groups, EnsureLegacy(s.members[m]), g, t.members[m], Add(s, m, g).value)
  {
    Prepared(s, m);
    var base := EnsureLegacy(s.members[m]);
    AddPreparedKeeps(Put(s, m, base), m, g);
    TouchesPrepared(s, base, Add(s, m, g).store, m);
  }

  // ---------------------------------------------------------------- removing a group from the tables

  /** The row is gone, its mirror with it, and the others keep their order and their numbers. */
  ghost predicate Removed(base: Member, g: GroupId, after: Member) {
    && after.user == base.user
    && Groups(after.rows) == Except(Groups(base.rows), [g])
    && g !in after.mirror
  }

  lemma RemoveSecondaryKeeps(s: Store, m: MemberId, g: GroupId)
    requires Valid(s) && m in s.members && HasRow(s.members[m].rows, g) && IndexOf(s.members[m].rows, g) > 0
    ensures var mem := DeleteRow(s.members[m], g);
      && Valid(Put(s, m, mem)) && Removed(s.members[m], g, mem)
      && mem.number == s.members[m].number && mem.group == s.members[m].group
  {
    var mem := s.members[m];
    DeleteSecondaryOk(s.groups, mem, g);
    DeleteRowMirror(s.groups, mem, g);
    DroppedGroups(mem.rows, IndexOf(mem.rows, g));
    PutKeeps(s, m, DeleteRow(mem, g));
  }

  lemma RemoveOnlyKeeps(s: Store, m: MemberId)
    requires Valid(s) && m in s.members && |s.members[m].rows| == 1
    ensures var mem, g := s.members[m], s.members[m].rows[0].group;
      HasRow(mem.rows, g) &&
      var after := DeleteRow(mem, g).(group := None, number := "");
      && DeleteRow(mem, g).rows == []
      && Valid(Put(s, m, after)) && Removed(mem, g, after)
  {
    var mem := s.members[m];
    FoundAt(mem.rows, 0);
    DeleteOnlyOk(s.groups, mem);
    DroppedGroups(mem.rows, 0);
    PutKeeps(s, m, DeleteRow(mem, mem.rows[0].group).(group := None, number := ""));
  }

  lemma SucceededGroups(mem: Member)
    requires Ordered(mem.rows) && |mem.rows| >= 2
    ensures Groups(Succeeded(mem).rows) == Except(Groups(mem.rows), [mem.rows[0].group])
  {
    DroppedGroups(mem.rows, 0);
    assert Groups(Succeeded(mem).rows) == Groups(Drop(mem.rows, 0));
  }

  lemma SucceededWritten(groups: map<GroupId, Group>, mem: Member, number: string)
    requires MemberOk(groups, mem) && |mem.rows| >= 2 && number != ""
    requires groups[mem.rows[1].group].code != ""
    ensures var next, after := mem.rows[1].group, Succeeded(mem);
      && Assignable(groups, after, next, number) && Takes(after, next)
      && Removed(mem, mem.rows[0].group, WriteNumber(after, next, number))
      && WriteNumber(after, next, number).group == Some(next)
      && WriteNumber(after, next, number).number == number
  {
    var next, after := mem.rows[1].group, Succeeded(mem);
    SucceededRows(groups, mem);
    SucceededMirror(groups, mem);
    SucceededGroups(mem);
    assert after.rows[0].group == next;
    FoundAt(after.rows, 0);
    WriteNumberEffect(groups, after, next, number);
    RenumberedGroups(after.rows, next, number);
  }

  lemma PromoteNumbered(s: Store, m: MemberId)
    requires Valid(s) && m in s.members && |s.members[m].rows| >= 2
    requires s.groups[s.members[m].rows[1].group].code != ""
    requires Assign(Put(s, m, Succeeded(s.members[m])), m, s.members[m].rows[1].group).Done?
    ensures var mem := s.members[m];
      var t := Assign(Put(s, m, Succeeded(mem)), m, mem.rows[1].group).store;
      && Valid(t) && Touches(s, t, m)
      && Removed(mem, mem.rows[0].group, t.members[m])
      && t.members[m].group == Some(mem.rows[1].group)
  {
    var mem := s.members[m];
    var next := mem.rows[1].group;
    SucceededWritten(s.groups, mem, "0");
    var number := AssignPutKeeps(s, m, Succeeded(mem), next);
    SucceededWritten(s.groups, mem, number);
  }

  lemma PromoteUnnumbered(s: Store, m: MemberId)
    requires Valid(s) && m in s.members && |s.members[m].rows| >= 2
    requires s.groups[s.members[m].rows[1].group].code == ""
    ensures var after := Succeeded(s.members[m]).(number := "");
      Valid(Put(s, m, after)) && Removed(s.members[m], s.members[m].rows[0].group, after)
  {
    var mem := s.members[m];
    var after := Succeeded(mem).(number := "");
    SucceededRows(s.groups, mem);
    SucceededMirror(s.groups, mem);
    SucceededGroups(mem);
    assert after.rows[0].number == "";
    assert MemberOk(s.groups, after);
    PutKeeps(s, m, after);
  }

  lemma PutTwice(s: Store, m: MemberId, a: Member, b: Member)
    ensures Put(Put(s, m, a), m, b) == Put(s, m, b)
  {
  }

  /** The member's next group, if any, becomes the primary one. */
  function Successor(rows: seq<Row>): Option<GroupId> {
    if |rows| < 2 then None else Some(rows[1].group)
  }

  lemma RemovePrimaryKeeps(s: Store, m: MemberId)
    requires Valid(s) && m in s.members && s.members[m].rows != []
    requires HasRow(s.members[m].rows, s.members[m].rows[0].group)
    requires RemovePrimary(s, m).Done?
    ensures var mem, t := s.members[m], RemovePrimary(s, m).store;
      && Valid(t) && Touches(s, t, m)
      && Removed(mem, mem.rows[0].group, t.members[m])
      && t.members[m].group == Successor(mem.rows) == RemovePrimary(s, m).value
  {
    var mem := s.members[m];
    var g := mem.rows[0].group;
    FoundAt(mem.rows, 0);
    if |mem.rows| == 1 {
      RemoveOnlyKeeps(s, m);
      PutTwice(s, m, DeleteRow(mem, g), DeleteRow(mem, g).(group := None, number := ""));
    } else {
      PromotionIsSucceeded(mem);
      assert DeleteRow(mem, g).rows[0] == mem.rows[1];
      PutTwice(s, m, DeleteRow(mem, g), Succeeded(mem));
      PutTwice(s, m, DeleteRow(mem, g), Succeeded(mem).(number := ""));
      if s.groups[mem.rows[1].group].code == "" {
        PromoteUnnumbered(s, m);
      } else {
        PromoteNumbered(s, m);
      }
    }
  }

  function RemovePrimary(s: Store, m: MemberId): Outcome<Option<GroupId>>
    requires m in s.members && s.members[m].rows != [] && HasRow(s.members[m].rows, s.members[m].rows[0].group)
  {
    Promote(Put(s, m, DeleteRow(s.members[m], s.members[m].rows[0].group)), m)
  }

  // ---------------------------------------------------------------- removal as a whole

  /** No pointer is left without a row. */
  ghost predicate Settled(mem: Member) { mem.rows == [] ==> mem.group.None? }

  /**
   * All that a removal does to a prepared member: nothing unless the row exists; a secondary row
   * leaves the primary group and the visible number alone; the primary row hands over to the next.
   */
  ghost predicate RemovedFrom(base: Member, g: GroupId, after: Member, removal: Removal) {
    && (removal.removed <==> HasRow(base.rows, g))
    && (!removal.removed ==> after == base && removal.promoted.None?)
    && (removal.removed ==> Removed(base, g, after))
    && (removal.removed && IndexOf(base.rows, g) > 0 ==>
          after.number == base.number && after.group == base.group && removal.promoted.None?)
    && (removal.removed && IndexOf(base.rows, g) == 0 ==>
          after.group == Successor(base.rows) == removal.promoted)
  }

  lemma RemovePreparedSecondary(s: Store, m: MemberId, g: GroupId)
    requires Valid(s) && m in s.members && HasRow(s.members[m].rows, g) && IndexOf(s.members[m].rows, g) > 0
    ensures var r := RemovePrepared(s, m, g);
      && r == Done(Put(s, m, DeleteRow(s.members[m], g)), Removal(true, None), [])
      && Valid(r.store)
      && RemovedFrom(s.members[m], g, r.store.members[m], r.value)
      && Settled(r.store.members[m])
  {
    assert MemberOk(s.groups, s.members[m]);
    RemoveSecondaryKeeps(s, m, g);
  }

  lemma RemovePreparedPrimary(s: Store, m: MemberId, g: GroupId)
    requires Valid(s) && m in s.members && HasRow(s.members[m].rows, g) && IndexOf(s.members[m].rows, g) == 0
    requires RemovePrepared(s, m, g).Done?
    ensures var r := RemovePrepared(s, m, g);
      && Valid(r.store) && Touches(s, r.store, m)
      && RemovedFrom(s.members[m], g, r.store.members[m], r.value)
      && Settled(r.store.members[m])
  {
    assert MemberOk(s.groups, s.members[m]);
    assert s.members[m].rows[0].group == g;
    RemovePrimaryKeeps(s, m);
    var after := RemovePrimary(s, m).store.members[m];
    if |s.members[m].rows| >= 2 {
      SucceededGroups(s.members[m]);
      assert |Groups(after.rows)| == |Groups(Succeeded(s.members[m]).rows)|;
    }
  }

  lemma RemovePreparedKeeps(s: Store, m: MemberId, g: GroupId)
    requires Valid(s) && m in s.members && Settled(s.members[m]) && RemovePrepared(s, m, g).Done?
    ensures var r := RemovePrepared(s, m, g);
      && Valid(r.store) && Touches(s, r.store, m)
      && RemovedFrom(s.members[m], g, r.store.members[m], r.value)
      && Settled(r.store.members[m])
  {
    hide Valid, RemovedFrom;
    if !HasRow(s.members[m].rows, g) {
      NothingRemoved(s.members[m], g);
    } else if IndexOf(s.members[m].rows, g) > 0 {
      RemovePreparedSecondary(s, m, g);
    } else {
      RemovePreparedPrimary(s, m, g);
    }
  }

  lemma NothingRemoved(mem: Member, g: GroupId)
    requires !HasRow(mem.rows, g)
    ensures RemovedFrom(mem, g, mem, Removal(false, None))
  {
  }

  lemma RemoveKeeps(s: Store, m: MemberId, g: GroupId)
    requires Valid(s) && m in s.members && Remove(s, m, g).Done?
    ensures var t := Remove(s, m, g).store;
      && Valid(t) && Touches(s, t, m)
      && RemovedFrom(EnsureLegacy(s.members[m]), g, t.members[m], Remove(s, m, g).value)
      && Settled(t.members[m])
      && Groups(t.members[m].rows) == Except(Groups(EnsureLegacy(s.members[m]).rows), [g])
  {
    Prepared(s, m);
    var base := EnsureLegacy(s.members[m]);
    RemovePreparedKeeps(Put(s, m, base), m, g);
    TouchesPrepared(s, base, Remove(s, m, g).store, m);
    if !HasRow(base.rows, g) {
      AbsentIff(base.rows, g);
      ExceptNone(Groups(base.rows), [g]);
    }
  }
}
