/** The numbers members hold, and what keeps them apart from the numbers still to be minted. */
module HeldNumbers {
  import opened Common
  import opened Decimal
  import opened IdCodec
  import opened MemberGroups
  import opened MemberGroupProofs
  import opened MemberGroupRuns
  import opened MemberNumbers

  predicate InRows(rows: seq<Row>, x: string) {
    exists i :: 0 <= i < |rows| && rows[i].number == x
  }

  predicate InMirror(mirror: map<GroupId, Mirror>, x: string) {
    exists g :: g in mirror && mirror[g].number == x
  }

  /** A member holds a number visibly, in a membership row or in a mirror row. */
  predicate Holds(mem: Member, x: string) {
    x != "" && (mem.number == x || InRows(mem.rows, x) || InMirror(mem.mirror, x))
  }

  ghost predicate HoldsLess(after: Member, mem: Member) {
    forall x :: Holds(after, x) ==> Holds(mem, x)
  }

  /** No member ID of one group, up to a sequence, is a member ID of another. */
  ghost predicate ApartTo(groups: map<GroupId, Group>, limit: nat) {
    forall g, h, m: nat, n: nat :: g in groups && h in groups && g != h && groups[g].code != "" && groups[h].code != ""
      && 1 <= m <= limit && 1 <= n <= limit
      ==> FormatMemberId(groups[g].code, m) != FormatMemberId(groups[h].code, n)
  }

  /** If the number is one of the group's IDs up to the limit, the group's counter exists and has passed it. */
  ghost predicate CountedIn(s: Store, limit: nat, g: GroupId, x: string)
    requires g in s.groups
  {
    s.groups[g].code != "" ==>
      forall n: nat :: 1 <= n <= limit && x == FormatMemberId(s.groups[g].code, n) ==>
        g in s.counters && n <= s.counters[g]
  }

  /** Every number anybody holds is counted by the group it belongs to. */
  ghost predicate Covered(s: Store, limit: nat) {
    forall m, x, g :: m in s.members && g in s.groups && Holds(s.members[m], x) ==> CountedIn(s, limit, g, x)
  }

  /** No number is held by two members. */
  ghost predicate Exclusive(members: map<MemberId, Member>) {
    forall m, n, x :: m in members && n in members && m != n && Holds(members[m], x) ==> !Holds(members[n], x)
  }

  /** Sequences up to `limit` may be minted, and `steps` single operations are still to come. */
  datatype Budget = Budget(limit: nat, steps: nat)

  function Spend(b: Budget, n: nat): Budget
    requires n <= b.steps
  {
    b.(steps := b.steps - n)
  }

  /** A bound of the last sequence: the counter, or without one the number of members. */
  function Start(s: Store, g: GroupId): nat {
    if g in s.counters then s.counters[g] else |s.members|
  }

  /** No group can pass the limit in the steps to come. */
  ghost predicate Room(s: Store, b: Budget) {
    forall g :: g in s.groups && s.groups[g].code != "" ==> Start(s, g) + b.steps <= b.limit
  }

  ghost predicate AccountedTo(s: Store, b: Budget) {
    Valid(s) && ApartTo(s.groups, b.limit) && Covered(s, b.limit) && Exclusive(s.members) && Room(s, b)
  }

  // ---------------------------------------------------------------- what one member holds

  lemma MirrorInRows(mem: Member, x: string)
    requires MirrorOk(mem) && InMirror(mem.mirror, x)
    ensures InRows(mem.rows, x)
  {
    var g :| g in mem.mirror && mem.mirror[g].number == x;
    assert mem.rows[IndexOf(mem.rows, g)].number == x;
  }

  /** With an agreeing mirror, holding a number is showing it or having it in a row. */
  lemma HeldInRows(mem: Member, x: string)
    requires MirrorOk(mem)
    ensures Holds(mem, x) <==> x != "" && (mem.number == x || InRows(mem.rows, x))
  {
    if InMirror(mem.mirror, x) {
      MirrorInRows(mem, x);
    }
  }

  lemma LessByRows(after: Member, mem: Member)
    requires MirrorOk(after)
    requires after.number == mem.number || after.number == ""
    requires forall i :: 0 <= i < |after.rows| && after.rows[i].number != "" ==> InRows(mem.rows, after.rows[i].number)
    ensures HoldsLess(after, mem)
  {
    forall x | Holds(after, x)
      ensures Holds(mem, x)
    {
      HeldInRows(after, x);
    }
    hide MirrorOk;
  }

  lemma RowsHeld(rows: seq<Row>)
    ensures forall i :: 0 <= i < |rows| ==> InRows(rows, rows[i].number)
  {
  }

  lemma LegacyHoldsLess(groups: map<GroupId, Group>, mem: Member)
    requires MemberOk(groups, mem)
    ensures HoldsLess(EnsureLegacy(mem), mem)
  {
    EnsureLegacyOk(groups, mem);
    RowsHeld(mem.rows);
    LessByRows(EnsureLegacy(mem), mem);
  }

  lemma AppendedHoldsLess(mem: Member, g: GroupId)
    requires MirrorOk(Appended(mem, g))
    ensures HoldsLess(Appended(mem, g), mem)
    ensures MirrorOk(Appended(mem, g).(number := "")) && HoldsLess(Appended(mem, g).(number := ""), mem)
  {
    RowsHeld(mem.rows);
    LessByRows(Appended(mem, g), mem);
    LessByRows(Appended(mem, g).(number := ""), mem);
  }

  lemma DeletedHoldsLess(mem: Member, g: GroupId)
    requires HasRow(mem.rows, g) && MirrorOk(DeleteRow(mem, g))
    ensures HoldsLess(DeleteRow(mem, g), mem)
    ensures MirrorOk(DeleteRow(mem, g).(group := None, number := "")) ==>
      HoldsLess(DeleteRow(mem, g).(group := None, number := ""), mem)
  {
    var after, k := DeleteRow(mem, g), IndexOf(mem.rows, g);
    RowsHeld(mem.rows);
    assert forall i :: 0 <= i < |after.rows| ==> after.rows[i] == mem.rows[if i < k then i else i + 1];
    LessByRows(after, mem);
    if MirrorOk(after.(group := None, number := "")) {
      LessByRows(after.(group := None, number := ""), mem);
    }
  }

  lemma SucceededHoldsLess(mem: Member)
    requires |mem.rows| >= 2 && MirrorOk(Succeeded(mem))
    ensures HoldsLess(Succeeded(mem), mem)
    ensures MirrorOk(Succeeded(mem).(number := "")) && HoldsLess(Succeeded(mem).(number := ""), mem)
  {
    var after := Succeeded(mem);
    RowsHeld(mem.rows);
    assert forall i :: 0 <= i < |after.rows| ==> after.rows[i].number == mem.rows[i + 1].number;
    LessByRows(after, mem);
    LessByRows(after.(number := ""), mem);
  }

  /** An assignment writes one number; everything else it leaves was there. */
  lemma WrittenHolds(groups: map<GroupId, Group>, mem: Member, g: GroupId, number: string, x: string)
    requires Assignable(groups, mem, g, number) && Holds(WriteNumber(mem, g, number), x)
    ensures x == number || Holds(mem, x)
  {
    WriteNumberMirror(groups, mem, g, number);
    WriteNumberEffect(groups, mem, g, number);
    HeldInRows(WriteNumber(mem, g, number), x);
    var after := Renumbered(mem.rows, g, number);
    if InRows(after, x) && x != number {
      var i :| 0 <= i < |after| && after[i].number == x;
      assert i < |mem.rows| && mem.rows[i].number == x;
    }
    hide WriteNumber, Assignable;
  }

  // ---------------------------------------------------------------- the tables

  /** A rewrite that shows no new number keeps the numbers accounted for. */
  lemma PutLess(s: Store, limit: nat, m: MemberId, mem: Member)
    requires Covered(s, limit) && Exclusive(s.members) && m in s.members && HoldsLess(mem, s.members[m])
    ensures Covered(Put(s, m, mem), limit) && Exclusive(Put(s, m, mem).members)
  {
    hide Holds;
    var t := Put(s, m, mem);
    forall n, x | n in t.members && Holds(t.members[n], x)
      ensures Holds(s.members[n], x)
    {
    }
    CoveredBy(s, t, limit);
    ExclusiveBy(s.members, t.members);
  }

  lemma CoveredBy(s: Store, t: Store, limit: nat)
    requires Covered(s, limit) && t.groups == s.groups && t.counters == s.counters && t.members.Keys == s.members.Keys
    requires forall n, x :: n in t.members && Holds(t.members[n], x) ==> Holds(s.members[n], x)
    ensures Covered(t, limit)
  {
    hide Holds, FormatMemberId;
    forall n, x, g | n in t.members && g in t.groups && Holds(t.members[n], x)
      ensures CountedIn(t, limit, g, x)
    {
      assert CountedIn(s, limit, g, x);
    }
  }

  lemma ExclusiveBy(before: map<MemberId, Member>, after: map<MemberId, Member>)
    requires Exclusive(before) && before.Keys == after.Keys
    requires forall n, x :: n in after && Holds(after[n], x) ==> Holds(before[n], x)
    ensures Exclusive(after)
  {
    hide Holds;
  }

  lemma NumbersApart(members: map<MemberId, Member>, m: MemberId, n: MemberId)
    requires m in members && n in members && m != n && Exclusive(members) && MirrorOk(members[m])
    ensures NumbersDiffer(members[m], members[n])
  {
    var a, b := members[m], members[n];
    ShownIsHeld(a);
    ShownIsHeld(b);
    hide Holds;
    forall g | g in a.mirror && g in b.mirror
      ensures a.mirror[g].number != b.mirror[g].number
    {
      assert a.mirror[g].number != "" && Holds(a, a.mirror[g].number);
    }
  }

  lemma ShownIsHeld(mem: Member)
    ensures mem.number != "" ==> Holds(mem, mem.number)
    ensures forall g :: g in mem.mirror && mem.mirror[g].number != "" ==> Holds(mem, mem.mirror[g].number)
  {
    forall g | g in mem.mirror && mem.mirror[g].number != ""
      ensures Holds(mem, mem.mirror[g].number)
    {
      assert InMirror(mem.mirror, mem.mirror[g].number);
    }
  }

  /** Members that hold different numbers violate no unique constraint. */
  lemma ExclusiveIsUnique(members: map<MemberId, Member>)
    requires Exclusive(members) && forall m :: m in members ==> MirrorOk(members[m])
    ensures NumbersUnique(members)
  {
    forall m, n | m in members && n in members && m != n
      ensures NumbersDiffer(members[m], members[n])
    {
      NumbersApart(members, m, n);
    }
    hide Exclusive, MirrorOk, NumbersDiffer;
  }

  /** Where every held number is counted, nobody holds the next one. */
  lemma NextIsFresh(s: Store, limit: nat, g: GroupId, n: nat, m: MemberId)
    requires Covered(s, limit) && g in s.groups && s.groups[g].code != "" && m in s.members && 1 <= n <= limit
    requires g in s.counters ==> s.counters[g] < n
    ensures !Holds(s.members[m], FormatMemberId(s.groups[g].code, n))
  {
    var x := FormatMemberId(s.groups[g].code, n);
    hide Holds, FormatMemberId;
    CoveredAt(s, limit, m, x, g);
  }

  lemma CoveredAt(s: Store, limit: nat, m: MemberId, x: string, g: GroupId)
    requires Covered(s, limit) && m in s.members && g in s.groups
    ensures Holds(s.members[m], x) ==> CountedIn(s, limit, g, x)
  {
  }

  // ---------------------------------------------------------------- room in the counters

  lemma CountedMembers(s: Store, g: GroupId)
    ensures LastSequence(s, g) <= Start(s, g)
  {
    assert Mirrored(s, g) <= s.members.Keys && Affected(s, g) <= s.members.Keys;
    Smaller(Mirrored(s, g), s.members.Keys);
    Smaller(Affected(s, g), s.members.Keys);
    hide Mirrored, Affected;
  }

  lemma {:induction false} Smaller<T>(a: set<T>, b: set<T>)
    requires a <= b
    ensures |a| <= |b|
  {
    if x :| x in a {
      Smaller(a - {x}, b - {x});
    }
  }

  /** With a step left the next sequence is within the limit. */
  lemma NextFits(s: Store, b: Budget, g: GroupId)
    requires Room(s, b) && b.steps >= 1 && g in s.groups && s.groups[g].code != ""
    ensures LastSequence(s, g) + 1 <= b.limit
  {
    CountedMembers(s, g);
    hide LastSequence;
  }

  lemma RoomStays(s: Store, t: Store, b: Budget, n: nat)
    requires Room(s, b) && n <= b.steps && SameKeys(s, t) && t.counters == s.counters
    ensures Room(t, Spend(b, n))
  {
  }

  /** Minting one sequence takes one step. */
  lemma RoomMinted(s: Store, t: Store, b: Budget, g: GroupId)
    requires Room(s, b) && b.steps >= 1 && SameKeys(s, t) && t.counters == s.counters[g := LastSequence(s, g) + 1]
    ensures Room(t, Spend(b, 1))
  {
    CountedMembers(s, g);
    hide LastSequence;
  }

  // ---------------------------------------------------------------- an assignment

  /** The number an assignment settles on was held by the member, or is held by nobody. */
  lemma SettledIsApart(s: Store, limit: nat, m: MemberId, g: GroupId, n: MemberId)
    requires Covered(s, limit) && Exclusive(s.members) && m in s.members && g in s.groups && s.groups[g].code != ""
    requires n in s.members && n != m && LastSequence(s, g) + 1 <= limit
    ensures SettledNumber(s, m, g) != "" && !Holds(s.members[n], SettledNumber(s, m, g))
  {
    KnownIsHeld(s.members[m], g, s.groups[g].code);
    MintedIsText(s.groups[g].code, LastSequence(s, g) + 1);
    if KnownNumber(s.members[m], g, s.groups[g].code) == "" {
      NextIsFresh(s, limit, g, LastSequence(s, g) + 1, n);
    }
    hide Holds, KnownNumber, FormatMemberId, Covered;
  }

  lemma MintedIsText(code: string, n: nat)
    ensures FormatMemberId(code, n) != ""
  {
  }

  lemma KnownIsHeld(mem: Member, g: GroupId, code: string)
    ensures var known := KnownNumber(mem, g, code); known != "" ==> Holds(mem, known)
  {
    ShownIsHeld(mem);
    RowsHeld(mem.rows);
    hide MembershipNumberMatches;
  }

  /** The tables once a settled number is written. */
  lemma SettledExclusive(s: Store, m: MemberId, written: Member, number: string)
    requires Exclusive(s.members) && m in s.members
    requires forall x :: Holds(written, x) ==> x == number || Holds(s.members[m], x)
    requires forall n :: n in s.members && n != m ==> !Holds(s.members[n], number)
    ensures Exclusive(s.members[m := written])
  {
    hide Holds;
  }

  /** After an assignment the counters are where they were, or at the sequence just minted. */
  lemma AssignedCounters(s: Store, m: MemberId, g: GroupId)
    requires m in s.members && g in s.groups && s.groups[g].code != "" && Assign(s, m, g).Done?
    ensures var t := Assign(s, m, g).store;
      && t.groups == s.groups && t.members == s.members[m := WriteNumber(s.members[m], g, SettledNumber(s, m, g))]
      && if KnownNumber(s.members[m], g, s.groups[g].code) != "" then t.counters == s.counters
         else t.counters == s.counters[g := LastSequence(s, g) + 1]
              && SettledNumber(s, m, g) == FormatMemberId(s.groups[g].code, LastSequence(s, g) + 1)
  {
    hide KnownNumber, LastSequence, WriteNumber, FormatMemberId, NumbersUnique;
  }

  /** A number that was counted stays counted when a counter moves on. */
  lemma StillCounted(s: Store, t: Store, limit: nat, h: GroupId, x: string)
    requires h in s.groups && t.groups == s.groups && CountedIn(s, limit, h, x)
    requires forall k :: k in s.counters ==> k in t.counters && s.counters[k] <= t.counters[k]
    ensures CountedIn(t, limit, h, x)
  {
    hide FormatMemberId;
  }

  lemma MintedCounted(t: Store, limit: nat, g: GroupId, n: nat, h: GroupId)
    requires ApartTo(t.groups, limit) && g in t.groups && h in t.groups && t.groups[g].code != "" && 1 <= n <= limit
    requires g in t.counters && t.counters[g] == n
    ensures CountedIn(t, limit, h, FormatMemberId(t.groups[g].code, n))
  {
    hide FormatMemberId;
    forall k: nat | 1 <= k <= limit && FormatMemberId(t.groups[g].code, n) == FormatMemberId(t.groups[h].code, k) &&
      t.groups[h].code != ""
      ensures h == g && k == n
    {
      assert h == g;
      MemberIdsInjectiveInGroup(t.groups[g].code, n, k);
    }
  }

  lemma AssignCovers(s: Store, limit: nat, m: MemberId, g: GroupId, n: MemberId, x: string, h: GroupId)
    requires ApartTo(s.groups, limit) && Covered(s, limit) && m in s.members && g in s.groups && s.groups[g].code != ""
    requires Assignable(s.groups, s.members[m], g, SettledNumber(s, m, g)) && Assign(s, m, g).Done?
    requires LastSequence(s, g) + 1 <= limit
    requires var t := Assign(s, m, g).store; n in t.members && h in t.groups && Holds(t.members[n], x)
    ensures var t := Assign(s, m, g).store; h in t.groups && CountedIn(t, limit, h, x)
  {
    var t, next := Assign(s, m, g).store, LastSequence(s, g) + 1;
    var known := KnownNumber(s.members[m], g, s.groups[g].code);
    AssignedCounters(s, m, g);
    KnownIsHeld(s.members[m], g, s.groups[g].code);
    CounterMoves(s, g);
    hide Assign, KnownNumber, LastSequence, WriteNumber, FormatMemberId, Holds, CountedIn, Covered, ApartTo, Assignable;
    if n == m {
      WrittenHolds(s.groups, s.members[m], g, SettledNumber(s, m, g), x);
    }
    if n in s.members && Holds(s.members[n], x) {
      CoveredAt(s, limit, n, x, h);
      StillCounted(s, t, limit, h, x);
    } else if known != "" {
      CoveredAt(s, limit, m, x, h);
      StillCounted(s, t, limit, h, x);
    } else {
      MintedCounted(t, limit, g, next, h);
    }
  }

  lemma CounterMoves(s: Store, g: GroupId)
    ensures g in s.counters ==> s.counters[g] <= LastSequence(s, g) + 1
  {
  }

  /** Where every number is accounted for, an assignment meets no conflict and keeps it so. */
  lemma AssignAccounted(s: Store, b: Budget, m: MemberId, mem: Member, g: GroupId)
    requires AccountedTo(s, b) && b.steps >= 1 && m in s.members && g in s.groups && s.groups[g].code != ""
    requires RowsOk(s.groups, mem) && MirrorOk(mem) && Materialised(mem, g) && (VisibleOk(mem) || Takes(mem, g))
    requires HoldsLess(mem, s.members[m])
    ensures Assign(Put(s, m, mem), m, g).Done? && AccountedTo(Assign(Put(s, m, mem), m, g).store, Spend(b, 1))
  {
    var put := Put(s, m, mem);
    var number := SettledNumber(put, m, g);
    AccountedIs(s, b);
    PutLess(s, b.limit, m, mem);
    PutOne(s, m, mem, WriteNumber(mem, g, number));
    SameTables(s, m, mem);
    RoomStays(s, put, b, 0);
    NextFits(put, b, g);
    MintedIsText(s.groups[g].code, LastSequence(put, g) + 1);
    assert number != "";
    WriteNumberKeeps(s.groups, mem, g, number);
    hide *;
    AssignSucceeds(put, b.limit, m, g, number);
    AssignValid(s, m, mem, g);
    AssignKeepsCovered(put, b.limit, m, g);
    AssignKeepsRoom(put, b, m, g);
    AccountedIs(Assign(put, m, g).store, Spend(b, 1));
  }

  lemma SameTables(s: Store, m: MemberId, mem: Member)
    requires m in s.members
    ensures SameKeys(s, Put(s, m, mem)) && Put(s, m, mem).counters == s.counters
  {
  }

  lemma AssignKeepsRoom(s: Store, b: Budget, m: MemberId, g: GroupId)
    requires Room(s, b) && b.steps >= 1 && m in s.members && g in s.groups && s.groups[g].code != ""
    requires Assign(s, m, g).Done?
    ensures Room(Assign(s, m, g).store, Spend(b, 1))
  {
    var t := Assign(s, m, g).store;
    AssignedCounters(s, m, g);
    hide Room, Assign, LastSequence, KnownNumber;
    if t.counters == s.counters {
      RoomStays(s, t, b, 1);
    } else {
      RoomMinted(s, t, b, g);
    }
  }

  lemma AccountedIs(s: Store, b: Budget)
    ensures AccountedTo(s, b) <==>
      Valid(s) && ApartTo(s.groups, b.limit) && Covered(s, b.limit) && Exclusive(s.members) && Room(s, b)
  {
  }

  lemma AssignValid(s: Store, m: MemberId, mem: Member, g: GroupId)
    requires Valid(s) && m in s.members && g in s.groups && s.groups[g].code != ""
    requires RowsOk(s.groups, mem) && MirrorOk(mem) && Materialised(mem, g) && (VisibleOk(mem) || Takes(mem, g))
    requires Assign(Put(s, m, mem), m, g).Done?
    ensures Valid(Assign(Put(s, m, mem), m, g).store)
  {
    ValidOthers(s, m);
    hide *;
    var number := AssignPutKeeps(s, m, mem, g);
  }

  lemma ValidOthers(s: Store, m: MemberId)
    requires Valid(s)
    ensures OthersOk(s, m)
  {
    hide MemberOk;
  }

  lemma AssignSucceeds(s: Store, limit: nat, m: MemberId, g: GroupId, number: string)
    requires LastSequence(s, g) + 1 <= limit
    requires Covered(s, limit) && Exclusive(s.members) && m in s.members && g in s.groups && s.groups[g].code != ""
    requires number == SettledNumber(s, m, g) && Assignable(s.groups, s.members[m], g, number)
    requires OthersOk(s, m) && MemberOk(s.groups, WriteNumber(s.members[m], g, number))
    ensures Assign(s, m, g).Done?
    ensures Exclusive(Assign(s, m, g).store.members)
  {
    var written := WriteNumber(s.members[m], g, number);
    var members := s.members[m := written];
    forall x | Holds(written, x)
      ensures x == number || Holds(s.members[m], x)
    {
      WrittenHolds(s.groups, s.members[m], g, number, x);
    }
    forall n | n in s.members && n != m
      ensures !Holds(s.members[n], number)
    {
      SettledIsApart(s, limit, m, g, n);
    }
    hide Holds, WriteNumber, SettledNumber, Assignable, Covered;
    SettledExclusive(s, m, written, number);
    OthersMirror(s, m, written);
    ExclusiveIsUnique(members);
    hide Exclusive, NumbersUnique, MemberOk, OthersOk;
    AssignEnds(s, m, g);
  }

  lemma OthersMirror(s: Store, m: MemberId, written: Member)
    requires OthersOk(s, m) && MemberOk(s.groups, written) && m in s.members
    ensures var members := s.members[m := written]; forall n :: n in members ==> MirrorOk(members[n])
  {
    hide RowsOk, VisibleOk, MirrorOk;
    var members := s.members[m := written];
    forall n | n in members
      ensures MirrorOk(members[n])
    {
      assert n != m ==> MemberOk(s.groups, s.members[n]);
    }
  }

  /** An assignment ends in a conflict exactly when its write violates a unique constraint. */
  lemma AssignEnds(s: Store, m: MemberId, g: GroupId)
    requires m in s.members && g in s.groups && s.groups[g].code != ""
    ensures var members := s.members[m := WriteNumber(s.members[m], g, SettledNumber(s, m, g))];
      if NumbersUnique(members) then Assign(s, m, g).Done? && Assign(s, m, g).store.members == members
      else Assign(s, m, g) == Aborted(Conflict)
  {
    hide KnownNumber, LastSequence, WriteNumber, FormatMemberId, NumbersUnique;
  }

  lemma AssignKeepsCovered(s: Store, limit: nat, m: MemberId, g: GroupId)
    requires LastSequence(s, g) + 1 <= limit
    requires ApartTo(s.groups, limit) && Covered(s, limit) && m in s.members && g in s.groups && s.groups[g].code != ""
    requires Assignable(s.groups, s.members[m], g, SettledNumber(s, m, g)) && Assign(s, m, g).Done?
    ensures Covered(Assign(s, m, g).store, limit)
    ensures Assign(s, m, g).store.groups == s.groups
  {
    var t := Assign(s, m, g).store;
    hide Holds, CountedIn, Assignable, SettledNumber, Assign, ApartTo;
    assert t.groups == s.groups;
    forall n, x, h | n in t.members && h in t.groups && Holds(t.members[n], x)
      ensures CountedIn(t, limit, h, x)
    {
      AssignCovers(s, limit, m, g, n, x, h);
    }
  }

  // ---------------------------------------------------------------- every operation

  lemma AccountedPut(s: Store, b: Budget, m: MemberId, mem: Member)
    requires AccountedTo(s, b) && m in s.members && Valid(Put(s, m, mem)) && HoldsLess(mem, s.members[m])
    ensures AccountedTo(Put(s, m, mem), b)
  {
    AccountedIs(s, b);
    AccountedIs(Put(s, m, mem), b);
    PutLess(s, b.limit, m, mem);
    SameTables(s, m, mem);
    RoomStays(s, Put(s, m, mem), b, 0);
    hide *;
    assert Spend(b, 0) == b by { SpendNothing(b); }
  }

  lemma SpendNothing(b: Budget)
    ensures Spend(b, 0) == b
  {
  }

  lemma AccountedLess(s: Store, b: Budget, n: nat)
    requires AccountedTo(s, b) && n <= b.steps
    ensures AccountedTo(s, Spend(b, n))
  {
    RoomStays(s, s, b, n);
    hide Valid, Covered, ApartTo, Exclusive, Room;
  }

  lemma AccountedPrepared(s: Store, b: Budget, m: MemberId)
    requires AccountedTo(s, b) && m in s.members
    ensures AccountedTo(Put(s, m, EnsureLegacy(s.members[m])), b)
  {
    Prepared(s, m);
    LegacyHoldsLess(s.groups, s.members[m]);
    hide Valid, HoldsLess, EnsureLegacy;
    AccountedPut(s, b, m, EnsureLegacy(s.members[m]));
  }

  lemma AddKnownAccounted(s: Store, b: Budget, m: MemberId, g: GroupId)
    requires AccountedTo(s, b) && b.steps >= 1 && m in s.members && g in s.groups && HasRow(s.members[m].rows, g)
    ensures AddKnown(s, m, g).Done? && AccountedTo(AddKnown(s, m, g).store, Spend(b, 1))
  {
    var mem := s.members[m];
    assert MemberOk(s.groups, mem) && mem.group.Some? && mem.rows != [];
    assert Put(s, m, mem) == s;
    AccountedLess(s, b, 1);
    if RowNumber(mem.rows, g) == "" && s.groups[g].code != "" {
      SelfHoldsLess(mem);
      AssignAccounted(s, b, m, mem, g);
    }
    hide AccountedTo, MemberOk, Assign;
  }

  lemma SelfHoldsLess(mem: Member)
    ensures HoldsLess(mem, mem)
  {
  }

  lemma AddNewAccounted(s: Store, b: Budget, m: MemberId, g: GroupId)
    requires AccountedTo(s, b) && b.steps >= 1 && m in s.members && g in s.groups && !HasRow(s.members[m].rows, g)
    requires s.members[m].rows == [] ==> s.members[m].group.None?
    ensures AddNew(s, m, g).Done? && AccountedTo(AddNew(s, m, g).store, Spend(b, 1))
  {
    var mem := s.members[m];
    assert MemberOk(s.groups, mem);
    AppendedOk(s.groups, mem, g);
    InsertRowIsAppended(mem, g);
    AppendedHoldsLess(mem, g);
    if s.groups[g].code != "" {
      AssignAccounted(s, b, m, Appended(mem, g), g);
    } else {
      AddNewUnnumbered(s, m, g);
      var after := if mem.rows == [] then Appended(mem, g).(number := "") else Appended(mem, g);
      assert AddNew(s, m, g).store == Put(s, m, after);
      AccountedPut(s, b, m, after);
      AccountedLess(Put(s, m, after), b, 1);
    }
    hide AccountedTo, Assign, MemberOk, HoldsLess;
  }

  /** Where every number is accounted for, an addition meets no conflict. */
  lemma AddAccounted(s: Store, b: Budget, m: MemberId, g: GroupId)
    requires AccountedTo(s, b) && b.steps >= 1 && m in s.members && g in s.groups
    ensures Add(s, m, g).Done? && AccountedTo(Add(s, m, g).store, Spend(b, 1))
  {
    var base := Put(s, m, EnsureLegacy(s.members[m]));
    AccountedPrepared(s, b, m);
    AccountedIs(s, b);
    Prepared(s, m);
    hide AccountedTo, Valid, AddKnown, AddNew, EnsureLegacy, HasRow;
    if HasRow(base.members[m].rows, g) {
      AddKnownAccounted(base, b, m, g);
    } else {
      AddNewAccounted(base, b, m, g);
    }
  }

  lemma RemoveSecondaryAccounted(s: Store, b: Budget, m: MemberId, g: GroupId)
    requires AccountedTo(s, b) && b.steps >= 1 && m in s.members && HasRow(s.members[m].rows, g) &&
      IndexOf(s.members[m].rows, g) > 0
    ensures RemovePrepared(s, m, g).Done? && AccountedTo(RemovePrepared(s, m, g).store, Spend(b, 1))
  {
    AccountedIs(s, b);
    RemovePreparedSecondary(s, m, g);
    assert MemberOk(s.groups, s.members[m]);
    DeleteRowMirror(s.groups, s.members[m], g);
    DeletedHoldsLess(s.members[m], g);
    hide AccountedTo, Valid, MemberOk, RemovePrepared, HoldsLess, DeleteRow, RemovedFrom;
    AccountedPut(s, b, m, DeleteRow(s.members[m], g));
    AccountedLess(Put(s, m, DeleteRow(s.members[m], g)), b, 1);
  }

  /** What removing the only membership leaves. */
  function Cleared(mem: Member): Member { mem.(group := None, number := "", rows := [], mirror := map[]) }

  lemma RemoveOnlyShape(s: Store, m: MemberId)
    requires Valid(s) && m in s.members && |s.members[m].rows| == 1
    ensures var g := s.members[m].rows[0].group;
      && RemovePrepared(s, m, g) == Done(Put(s, m, Cleared(s.members[m])), Removal(true, None), [])
      && Valid(Put(s, m, Cleared(s.members[m]))) && HoldsLess(Cleared(s.members[m]), s.members[m])
  {
    var mem := s.members[m];
    var g := mem.rows[0].group;
    FoundAt(mem.rows, 0);
    RemoveOnlyKeeps(s, m);
    assert MemberOk(s.groups, mem);
    DeleteOnlyOk(s.groups, mem);
    var after := DeleteRow(mem, g).(group := None, number := "");
    assert after == Cleared(mem);
    PutTwice(s, m, DeleteRow(mem, g), after);
    DeletedMirror(s.groups, mem);
    DeletedHoldsLess(mem, g);
    hide Valid, MemberOk, HoldsLess, Removed;
  }

  lemma DeletedMirror(groups: map<GroupId, Group>, mem: Member)
    requires MemberOk(groups, mem) && |mem.rows| == 1 && HasRow(mem.rows, mem.rows[0].group)
    ensures MirrorOk(DeleteRow(mem, mem.rows[0].group))
    ensures MirrorOk(DeleteRow(mem, mem.rows[0].group).(group := None, number := ""))
  {
    DeleteRowMirror(groups, mem, mem.rows[0].group);
    DeleteOnlyOk(groups, mem);
  }

  lemma RemoveHandedOverAccounted(s: Store, b: Budget, m: MemberId)
    requires AccountedTo(s, b) && b.steps >= 1 && m in s.members && |s.members[m].rows| >= 2
    ensures var g := s.members[m].rows[0].group;
      Remove(s, m, g).Done? && AccountedTo(Remove(s, m, g).store, Spend(b, 1))
  {
    var mem := s.members[m];
    var next := mem.rows[1].group;
    AccountedIs(s, b);
    assert MemberOk(s.groups, mem);
    RemovePrimaryShape(s, m);
    SucceededMirror(s.groups, mem);
    SucceededHoldsLess(mem);
    if s.groups[next].code == "" {
      PromoteUnnumbered(s, m);
      AccountedPut(s, b, m, Succeeded(mem).(number := ""));
      AccountedLess(Put(s, m, Succeeded(mem).(number := "")), b, 1);
    } else {
      SucceededWritten(s.groups, mem, "0");
      AssignAccounted(s, b, m, Succeeded(mem), next);
    }
    hide AccountedTo, Valid, MemberOk, Remove, Assign, HoldsLess, Succeeded;
  }

  lemma RemovePreparedAccounted(s: Store, b: Budget, m: MemberId, g: GroupId)
    requires AccountedTo(s, b) && b.steps >= 1 && m in s.members &&
      (s.members[m].rows == [] ==> s.members[m].group.None?)
    ensures RemovePrepared(s, m, g).Done? && AccountedTo(RemovePrepared(s, m, g).store, Spend(b, 1))
  {
    var mem := s.members[m];
    AccountedIs(s, b);
    if HasRow(mem.rows, g) {
      if IndexOf(mem.rows, g) > 0 {
        RemoveSecondaryAccounted(s, b, m, g);
      } else if |mem.rows| == 1 {
        RemoveOnlyShape(s, m);
        AccountedPut(s, b, m, Cleared(mem));
        AccountedLess(Put(s, m, Cleared(mem)), b, 1);
      } else {
        assert mem.rows[0].group == g;
        RemoveHandedOverAccounted(s, b, m);
        RemoveIsPrepared(s, m, g);
      }
    } else {
      AccountedLess(s, b, 1);
    }
    hide AccountedTo, Valid, RemovePrepared, Remove;
  }

  lemma RemoveIsPrepared(s: Store, m: MemberId, g: GroupId)
    requires m in s.members && (s.members[m].rows == [] ==> s.members[m].group.None?)
    ensures Remove(s, m, g) == RemovePrepared(s, m, g)
  {
    assert EnsureLegacy(s.members[m]) == s.members[m];
    assert Put(s, m, s.members[m]) == s;
    hide RemovePrepared;
  }

  /** Where every number is accounted for, a removal meets no conflict. */
  lemma RemoveAccounted(s: Store, b: Budget, m: MemberId, g: GroupId)
    requires AccountedTo(s, b) && b.steps >= 1 && m in s.members
    ensures Remove(s, m, g).Done? && AccountedTo(Remove(s, m, g).store, Spend(b, 1))
  {
    AccountedPrepared(s, b, m);
    AccountedIs(s, b);
    Prepared(s, m);
    hide AccountedTo, Valid, RemovePrepared, EnsureLegacy;
    RemovePreparedAccounted(Put(s, m, EnsureLegacy(s.members[m])), b, m, g);
  }

  lemma {:induction false} RemoveAllAccounted(s: Store, b: Budget, m: MemberId, gs: seq<GroupId>)
    requires AccountedTo(s, b) && |gs| <= b.steps && m in s.members
    ensures RemoveAll(s, m, gs).Done? && AccountedTo(RemoveAll(s, m, gs).store, Spend(b, |gs|))
    decreases gs
  {
    hide AccountedTo, Remove;
    if gs != [] {
      RemoveAccounted(s, b, m, gs[0]);
      RemoveAllAccounted(Remove(s, m, gs[0]).store, Spend(b, 1), m, gs[1..]);
      assert Spend(Spend(b, 1), |gs[1..]|) == Spend(b, |gs|);
    }
  }

  /** An outcome that is no conflict, and whose store, if any, is accounted for. */
  ghost predicate Smooth<T>(outcome: Outcome<T>, b: Budget) {
    outcome != Aborted(Conflict) && (outcome.Done? ==> AccountedTo(outcome.store, b))
  }

  lemma {:induction false} AddAllAccounted(s: Store, b: Budget, m: MemberId, gs: seq<GroupId>, managed: Option<GroupId>)
    requires AccountedTo(s, b) && |gs| <= b.steps && m in s.members
    ensures Smooth(AddAll(s, m, gs, managed), Spend(b, |gs|))
    decreases gs
  {
    hide AccountedTo, Add;
    if gs != [] && Manages(managed, gs[0]) {
      assert Spend(Spend(b, 1), |gs[1..]|) == Spend(b, |gs|);
      if Live(s.groups, gs[0]) {
        AddAccounted(s, b, m, gs[0]);
        AddAllAccounted(Add(s, m, gs[0]).store, Spend(b, 1), m, gs[1..], managed);
      } else {
        AccountedLess(s, b, 1);
        AddAllAccounted(s, Spend(b, 1), m, gs[1..], managed);
      }
    }
  }

  lemma {:induction false} Fewer<T>(s: seq<T>, keep: T -> bool)
    ensures |Filter(s, keep)| <= |s|
  {
    if s != [] {
      Fewer(s[1..], keep);
    }
  }

  lemma {:induction false} DedupFewer(gs: seq<GroupId>)
    ensures |Dedup(gs)| <= |gs|
  {
    if gs != [] {
      DedupFewer(gs[..|gs| - 1]);
    }
  }

  lemma {:induction false} DistinctWithin<T>(s: seq<T>, all: set<T>)
    requires Distinct(s) && forall x :: x in s ==> x in all
    ensures |s| <= |all|
  {
    if s != [] {
      DistinctWithin(s[1..], all - {s[0]});
    }
  }

  /** A member has at most one row for each group. */
  lemma RowsWithin(groups: map<GroupId, Group>, mem: Member)
    requires MemberOk(groups, mem)
    ensures |mem.rows| <= |groups|
  {
    var gs := Groups(mem.rows);
    assert |groups.Keys| == |groups|;
    DistinctWithin(gs, groups.Keys);
  }

  /** A selection takes no more steps than there are groups and entries in it. */
  lemma SyncSteps(s: Store, m: MemberId, ids: seq<GroupId>, managed: Option<GroupId>)
    requires Valid(s) && m in s.members
    ensures var current := Groups(EnsureLegacy(s.members[m]).rows);
      |Dropped(current, Dedup(ids), managed)| + |Missing(current, Dedup(ids))| <= |s.groups| + |ids|
  {
    var current := Groups(EnsureLegacy(s.members[m]).rows);
    EnsureLegacyOk(s.groups, s.members[m]);
    RowsWithin(s.groups, EnsureLegacy(s.members[m]));
    Fewer(current, g => g !in Dedup(ids) && Manages(managed, g));
    Fewer(Dedup(ids), g => g !in current);
    DedupFewer(ids);
    hide Valid, MemberOk, EnsureLegacy, Dedup;
  }

  /** A selection ends as its additions do, if its removals go through. */
  lemma SyncIs(s: Store, m: MemberId, ids: seq<GroupId>, managed: Option<GroupId>, b: Budget)
    requires m in s.members
    ensures var base := Put(s, m, EnsureLegacy(s.members[m]));
      var current := Groups(EnsureLegacy(s.members[m]).rows);
      var first := RemoveAll(base, m, Dropped(current, Dedup(ids), managed));
      && m in base.members && (first.Done? ==> m in first.store.members)
      && (first.Done? && Smooth(AddAll(first.store, m, Missing(current, Dedup(ids)), managed), b) ==>
            Smooth(Sync(s, m, ids, managed), b))
  {
    hide EnsureLegacy, RemoveAll, AddAll, Dropped, Missing, Dedup, AccountedTo, Groups;
  }

  lemma SmoothLess<T>(outcome: Outcome<T>, b: Budget, n: nat, c: Budget)
    requires Smooth(outcome, b) && n <= b.steps && c == Spend(b, n)
    ensures Smooth(outcome, c)
  {
    hide AccountedTo;
    if outcome.Done? {
      AccountedLess(outcome.store, b, n);
    }
  }

  lemma SpendTwice(b: Budget, i: nat, j: nat)
    requires i + j <= b.steps
    ensures Spend(Spend(b, i), j) == Spend(b, i + j)
    ensures Spend(b, i).steps == b.steps - i && Spend(b, i).limit == b.limit
  {
  }

  lemma SyncAccounted(s: Store, b: Budget, m: MemberId, ids: seq<GroupId>, managed: Option<GroupId>)
    requires AccountedTo(s, b) && |s.groups| + |ids| <= b.steps && m in s.members
    ensures Smooth(Sync(s, m, ids, managed), Spend(b, |s.groups| + |ids|))
  {
    hide *;
    var base := Put(s, m, EnsureLegacy(s.members[m]));
    var current := Groups(EnsureLegacy(s.members[m]).rows);
    var dropped, missing := Dropped(current, Dedup(ids), managed), Missing(current, Dedup(ids));
    var all := Spend(b, |s.groups| + |ids|);
    SyncIs(s, m, ids, managed, all);
    AccountedPrepared(s, b, m);
    AccountedIs(s, b);
    SyncSteps(s, m, ids, managed);
    RemoveAllAccounted(base, b, m, dropped);
    var t := RemoveAll(base, m, dropped).store;
    SpendTwice(b, |dropped|, |missing|);
    AddAllAccounted(t, Spend(b, |dropped|), m, missing, managed);
    var spent := |dropped| + |missing|;
    SpendTwice(b, spent, |s.groups| + |ids| - spent);
    SmoothLess(AddAll(t, m, missing, managed), Spend(b, spent), |s.groups| + |ids| - spent, all);
  }

  lemma {:induction false} DetachAccounted(s: Store, b: Budget, g: GroupId, order: seq<MemberId>)
    requires AccountedTo(s, b) && |order| <= b.steps
    ensures Detach(s, g, order).Done? && AccountedTo(Detach(s, g, order).store, Spend(b, |order|))
    decreases order
  {
    hide AccountedTo, Remove;
    if order != [] {
      assert Spend(Spend(b, 1), |order[1..]|) == Spend(b, |order|);
      if order[0] in s.members {
        RemoveAccounted(s, b, order[0], g);
        DetachAccounted(Remove(s, order[0], g).store, Spend(b, 1), g, order[1..]);
      } else {
        AccountedLess(s, b, 1);
        DetachAccounted(s, Spend(b, 1), g, order[1..]);
      }
    }
  }

  /** A unique constraint refuses the operation. */
  predicate Conflicts(s: Store, op: Op)
    requires op.DetachOp? || op.member in s.members
    requires op.AddOp? ==> op.group in s.groups
  {
    match op
    case AddOp(m, g) => Add(s, m, g) == Aborted(Conflict)
    case RemoveOp(m, g) => Remove(s, m, g) == Aborted(Conflict)
    case SyncOp(m, ids, managed) => Sync(s, m, ids, managed) == Aborted(Conflict)
    case DetachOp(g, order) => Detach(s, g, order) == Aborted(Conflict)
  }

  /** How many sequences of one group an operation can mint at most. */
  function Cost(groups: nat, op: Op): nat {
    match op
    case AddOp(_, _) => 1
    case RemoveOp(_, _) => 1
    case SyncOp(_, ids, _) => groups + |ids|
    case DetachOp(_, order) => |order|
  }

  function Costs(groups: nat, ops: seq<Op>): nat {
    if ops == [] then 0 else Cost(groups, ops[0]) + Costs(groups, ops[1..])
  }

  /** Where every number up to the limit is accounted for and the limit is far enough, nothing conflicts. */
  lemma NothingConflictsWithin(s: Store, b: Budget, op: Op)
    requires AccountedTo(s, b) && Enabled(s, op) && Cost(|s.groups|, op) <= b.steps
    ensures !Conflicts(s, op)
    ensures AccountedTo(Step(s, op).store, Spend(b, Cost(|s.groups|, op)))
  {
    AccountedLess(s, b, Cost(|s.groups|, op));
    hide AccountedTo, Add, Remove, Sync, Detach;
    match op
    case AddOp(m, g) => AddAccounted(s, b, m, g);
    case RemoveOp(m, g) => RemoveAccounted(s, b, m, g);
    case SyncOp(m, ids, managed) => SyncAccounted(s, b, m, ids, managed);
    case DetachOp(g, order) => DetachAccounted(s, b, g, order);
  }

  // ---------------------------------------------------------------- whole runs

  /** A run within the budget keeps every held number counted, and held by one member. */
  lemma {:induction false} RunKeepsAccountedTo(s: Store, b: Budget, ops: seq<Op>)
    requires AccountedTo(s, b) && Costs(|s.groups|, ops) <= b.steps
    ensures AccountedTo(Run(s, ops).store, Spend(b, Costs(|s.groups|, ops)))
    decreases ops
  {
    hide AccountedTo, Enabled, Step, Cost;
    if ops == [] {
      SpendNothing(b);
    } else {
      var c := Cost(|s.groups|, ops[0]);
      assert Spend(Spend(b, c), Costs(|s.groups|, ops[1..])) == Spend(b, Costs(|s.groups|, ops));
      if Enabled(s, ops[0]) {
        NothingConflictsWithin(s, b, ops[0]);
        StepGroups(s, b, ops[0]);
        RunKeepsAccountedTo(Step(s, ops[0]).store, Spend(b, c), ops[1..]);
      } else {
        AccountedLess(s, b, c);
        RunKeepsAccountedTo(s, Spend(b, c), ops[1..]);
      }
    }
  }

  lemma StepGroups(s: Store, b: Budget, op: Op)
    requires AccountedTo(s, b) && Enabled(s, op)
    ensures Step(s, op).store.groups == s.groups
  {
    AccountedIs(s, b);
    hide Step, AccountedTo, Valid, Enabled;
    StepKeepsValid(s, op);
  }

  /** A run can be cut anywhere. */
  lemma {:induction false} RunInTwo(s: Store, a: seq<Op>, b: seq<Op>)
    ensures Run(s, a + b) == Stepped(Run(Run(s, a).store, b).store, Run(s, a).minted + Run(Run(s, a).store, b).minted)
    decreases a
  {
    hide Enabled, Step;
    if a == [] {
      assert a + b == b;
    } else {
      assert (a + b)[1..] == a[1..] + b;
      if Enabled(s, a[0]) {
        var first := Step(s, a[0]);
        RunInTwo(first.store, a[1..], b);
        var x, y := Run(first.store, a[1..]).minted, Run(Run(s, a).store, b).minted;
        assert first.minted + (x + y) == (first.minted + x) + y;
      } else {
        RunInTwo(s, a[1..], b);
      }
    }
  }

  /**
   * A number held at any time of a run within the budget, kept or freed afterwards, is never minted
   * again, for its own group or another.
   */
  lemma HeldNeverMintedWithin(s: Store, b: Budget, earlier: seq<Op>, later: seq<Op>, m: MemberId, x: string, i: nat)
    requires AccountedTo(s, b) && Costs(|s.groups|, earlier) + Costs(|s.groups|, later) <= b.steps
    requires var t := Run(s, earlier).store; m in t.members && Holds(t.members[m], x)
    requires i < |Run(Run(s, earlier).store, later).minted|
    ensures var mint := Run(Run(s, earlier).store, later).minted[i];
      mint.group in s.groups && s.groups[mint.group].code != "" ==>
        FormatMemberId(s.groups[mint.group].code, mint.sequence) != x
  {
    hide *;
    var t, c := Run(s, earlier).store, Spend(b, Costs(|s.groups|, earlier));
    AccountedIs(s, b);
    RunKeepsAccountedTo(s, b, earlier);
    RunGroups(s, earlier);
    SpendTwice(b, Costs(|s.groups|, earlier), Costs(|s.groups|, later));
    AccountedIs(t, c);
    MintedIsNext(t, c, later, i);
    var mint := Run(t, later).minted[i];
    if mint.group in s.groups && s.groups[mint.group].code != "" {
      NextIsFresh(t, b.limit, mint.group, mint.sequence, m);
    }
  }

  lemma RunGroups(s: Store, ops: seq<Op>)
    requires Valid(s)
    ensures Run(s, ops).store.groups == s.groups
  {
    hide Valid, Run;
    RunKeepsValid(s, ops);
  }

  /** Within the budget a run mints above the counters and not past the limit. */
  lemma MintedIsNext(s: Store, b: Budget, ops: seq<Op>, i: nat)
    requires AccountedTo(s, b) && Costs(|s.groups|, ops) <= b.steps && i < |Run(s, ops).minted|
    ensures var mint := Run(s, ops).minted[i];
      mint.group in s.groups && s.groups[mint.group].code != "" ==>
        1 <= mint.sequence <= b.limit && (mint.group in s.counters ==> s.counters[mint.group] < mint.sequence)
  {
    var t := Run(s, ops).store;
    AccountedIs(s, b);
    RunKeepsAccountedTo(s, b, ops);
    AccountedIs(t, Spend(b, Costs(|s.groups|, ops)));
    RunGroups(s, ops);
    RunMintsIncrease(s, ops);
    var mint := Run(s, ops).minted[i];
    assert MintedBetween(s.counters, mint, t.counters);
    if mint.group in s.groups && s.groups[mint.group].code != "" {
      assert mint.sequence <= Start(t, mint.group) <= b.limit;
    }
    hide AccountedTo, Valid, Covered, Exclusive, ApartTo, Run, Costs, Advances;
  }

  // ---------------------------------------------------------------- without a limit

  /** No member ID of one group is ever a member ID of another. */
  ghost predicate CodesApart(groups: map<GroupId, Group>) {
    forall limit: nat :: ApartTo(groups, limit)
  }

  /** Every number anybody holds is counted by its group, and nobody else holds it. */
  ghost predicate Accounted(s: Store) {
    Valid(s) && CodesApart(s.groups) && (forall limit: nat :: Covered(s, limit)) && Exclusive(s.members)
  }

  /** Some limit leaves room for any number of steps. */
  lemma {:induction false} SomeRoom(s: Store, steps: nat, gs: set<GroupId>) returns (limit: nat)
    ensures forall g :: g in gs ==> Start(s, g) + steps <= limit
    decreases gs
  {
    if gs == {} {
      limit := 0;
    } else {
      var g :| g in gs;
      var rest := SomeRoom(s, steps, gs - {g});
      limit := if rest < Start(s, g) + steps then Start(s, g) + steps else rest;
    }
  }

  lemma AccountedUpTo(s: Store, steps: nat, least: nat) returns (b: Budget)
    requires Accounted(s)
    ensures AccountedTo(s, b) && b.steps == steps && b.limit >= least
  {
    var room := SomeRoom(s, steps, s.groups.Keys);
    b := Budget(if room < least then least else room, steps);
    hide Valid, ApartTo, Covered, Exclusive;
  }

  lemma NarrowerLimit(s: Store, limit: nat, less: nat)
    requires less <= limit
    ensures ApartTo(s.groups, limit) ==> ApartTo(s.groups, less)
    ensures Covered(s, limit) ==> Covered(s, less)
  {
    hide FormatMemberId, Holds;
    if Covered(s, limit) {
      forall m, x, g | m in s.members && g in s.groups && Holds(s.members[m], x)
        ensures CountedIn(s, less, g, x)
      {
        CoveredAt(s, limit, m, x, g);
      }
    }
  }

  /** Tables in which nobody holds a number yet are accounted for, with or without counters. */
  lemma NothingHeldYet(s: Store)
    requires Valid(s) && CodesApart(s.groups)
    requires forall m, x :: m in s.members ==> !Holds(s.members[m], x)
    ensures Accounted(s)
  {
    hide Valid, CodesApart, Holds, CountedIn;
  }

  /** Where every number is accounted for, no operation ends in a conflict. */
  lemma NothingConflicts(s: Store, op: Op)
    requires Accounted(s) && Enabled(s, op)
    ensures !Conflicts(s, op)
    ensures Accounted(Step(s, op).store)
  {
    var t := Step(s, op).store;
    hide Valid, ApartTo, Covered, Exclusive, Enabled, Step, Conflicts, Cost;
    forall limit: nat
      ensures !Conflicts(s, op) && Valid(t) && t.groups == s.groups && Covered(t, limit) && Exclusive(t.members)
    {
      var b := AccountedUpTo(s, Cost(|s.groups|, op), limit);
      NothingConflictsWithin(s, b, op);
      AccountedIs(t, Spend(b, b.steps));
      StepGroups(s, b, op);
      NarrowerLimit(t, b.limit, limit);
    }
    assert Valid(t) && Exclusive(t.members) && t.groups == s.groups && !Conflicts(s, op) by {
      assert Covered(t, 0);
    }
  }

  /** Every run keeps every held number counted, and held by one member. */
  lemma {:induction false} RunKeepsAccounted(s: Store, ops: seq<Op>)
    requires Accounted(s)
    ensures Accounted(Run(s, ops).store)
    decreases ops
  {
    hide Accounted, Enabled, Step;
    if ops != [] {
      if Enabled(s, ops[0]) {
        NothingConflicts(s, ops[0]);
        RunKeepsAccounted(Step(s, ops[0]).store, ops[1..]);
      } else {
        RunKeepsAccounted(s, ops[1..]);
      }
    }
  }

  /** A number held at any time of any run, kept or freed afterwards, is never minted again. */
  lemma HeldNeverMintedAgain(s: Store, earlier: seq<Op>, later: seq<Op>, m: MemberId, x: string, i: nat)
    requires Accounted(s)
    requires var t := Run(s, earlier).store; m in t.members && Holds(t.members[m], x)
    requires i < |Run(Run(s, earlier).store, later).minted|
    ensures var mint := Run(Run(s, earlier).store, later).minted[i];
      mint.group in s.groups && s.groups[mint.group].code != "" ==>
        FormatMemberId(s.groups[mint.group].code, mint.sequence) != x
  {
    hide *;
    var b := AccountedUpTo(s, Costs(|s.groups|, earlier) + Costs(|s.groups|, later), 0);
    HeldNeverMintedWithin(s, b, earlier, later, m, x, i);
  }
}
