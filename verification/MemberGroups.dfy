/**
 * Members that belong to several groups: the tables, and what each operation of the membership
 * service does to them.  Three records describe one fact and must agree: the member's own group
 * pointer and visible number, the prioritised membership rows, and the mirror rows of its user.
 *
 * Text columns use "" for NULL: the code only ever asks whether such a value is empty.  A user
 * belongs to at most one member (`members.user_id` is unique), so both junction tables are kept
 * beside the member they belong to.
 */
module MemberGroups {
  import opened Common
  import opened IdCodec

  type MemberId = nat
  type GroupId = nat
  type UserId = nat

  /** A group without a business code ("") never issues member IDs. */
  datatype Group = Group(code: string, deleted: bool)

  datatype Row = Row(group: GroupId, priority: int, number: string)

  datatype Mirror = Mirror(number: string, primary: bool)

  /** `rows` is in the order of a query by ascending priority. */
  datatype Member = Member(
    user: Option<UserId>,
    group: Option<GroupId>,
    number: string,
    rows: seq<Row>,
    mirror: map<GroupId, Mirror>)

  datatype Mint = Mint(group: GroupId, sequence: nat)

  datatype Store = Store(
    groups: map<GroupId, Group>,
    members: map<MemberId, Member>,
    counters: map<GroupId, nat>)

  datatype Error = Conflict | EmptySelection | NotManaged | NoGroupCode

  /** An aborted operation rolls its transaction back, so it has no store of its own. */
  datatype Outcome<+T> = Done(store: Store, value: T, minted: seq<Mint>) | Aborted(error: Error)

  // ---------------------------------------------------------------- rows of one member

  function IndexOf(rows: seq<Row>, g: GroupId): (i: nat)
    ensures i <= |rows|
    ensures i < |rows| ==> rows[i].group == g
    ensures forall j :: 0 <= j < i ==> rows[j].group != g
  {
    if rows == [] || rows[0].group == g then 0 else 1 + IndexOf(rows[1..], g)
  }

  predicate HasRow(rows: seq<Row>, g: GroupId) { IndexOf(rows, g) < |rows| }

  function RowNumber(rows: seq<Row>, g: GroupId): string {
    if HasRow(rows, g) then rows[IndexOf(rows, g)].number else ""
  }

  function Groups(rows: seq<Row>): (gs: seq<GroupId>)
    ensures |gs| == |rows| && forall i :: 0 <= i < |rows| ==> gs[i] == rows[i].group
  {
    seq(|rows|, i requires 0 <= i < |rows| => rows[i].group)
  }

  /** Insertion or re-ordering by priority. */
  function Place(rows: seq<Row>, row: Row): seq<Row> {
    if rows == [] || rows[|rows| - 1].priority <= row.priority then rows + [row]
    else Place(rows[..|rows| - 1], row) + [rows[|rows| - 1]]
  }

  function MaxPriority(rows: seq<Row>): int {
    if rows == [] then 0 else rows[|rows| - 1].priority
  }

  function Drop(rows: seq<Row>, i: nat): seq<Row>
    requires i < |rows|
  {
    rows[..i] + rows[i + 1..]
  }

  // ---------------------------------------------------------------- one member

  /** A pointer without rows is turned into a primary membership. */
  function EnsureLegacy(mem: Member): Member {
    if mem.rows != [] || mem.group.None? then mem
    else mem.(rows := [Row(mem.group.value, 1, "")])
  }

  /** The row of a new membership, before any number is assigned. */
  function InsertRow(mem: Member, g: GroupId): Member {
    var priority := MaxPriority(mem.rows) + 1;
    mem.(group := if priority == 1 then Some(g) else mem.group,
         rows := Place(mem.rows, Row(g, priority, "")))
  }

  function DeleteRow(mem: Member, g: GroupId): Member
    requires HasRow(mem.rows, g)
  {
    mem.(rows := Drop(mem.rows, IndexOf(mem.rows, g)),
         mirror := if mem.user.Some? then mem.mirror - {g} else mem.mirror)
  }

  /** The row of lowest priority becomes the primary one. */
  function PromoteFirst(mem: Member): Member
    requires mem.rows != []
  {
    mem.(rows := Place(mem.rows[1..], mem.rows[0].(priority := 1)), group := Some(mem.rows[0].group))
  }

  /** A number the member already holds in the group: the mirror first, then the row, then the visible one. */
  function KnownNumber(mem: Member, g: GroupId, code: string): string {
    if mem.user.Some? && g in mem.mirror && mem.mirror[g].number != "" then mem.mirror[g].number
    else if RowNumber(mem.rows, g) != "" then RowNumber(mem.rows, g)
    else if MembershipNumberMatches(mem.number, code) then mem.number
    else ""
  }

  predicate BecomesPrimary(mem: Member, g: GroupId) {
    && !(mem.user.Some? && exists h :: h in mem.mirror && h != g && mem.mirror[h].primary)
    && !(mem.group.Some? && mem.group.value != g)
  }

  function NumberedRows(rows: seq<Row>, g: GroupId, number: string, primary: bool): seq<Row> {
    var i := IndexOf(rows, g);
    if i < |rows| then
      if primary then Place(Drop(rows, i), Row(g, 1, number)) else rows[i := rows[i].(number := number)]
    else
      Place(rows, Row(g, if primary then 1 else MaxPriority(rows) + 1, number))
  }

  /** The three writes of an assignment. */
  function WriteNumber(mem: Member, g: GroupId, number: string): Member {
    var primary := BecomesPrimary(mem, g);
    mem.(number := if primary then number else mem.number,
         group := if primary then Some(g) else mem.group,
         rows := NumberedRows(mem.rows, g, number, primary),
         mirror := if mem.user.Some? then mem.mirror[g := Mirror(number, primary)] else mem.mirror)
  }

  // ---------------------------------------------------------------- the tables

  function Put(s: Store, m: MemberId, mem: Member): Store {
    s.(members := s.members[m := mem])
  }

  function Mirrored(s: Store, g: GroupId): set<MemberId> {
    set m | m in s.members && g in s.members[m].mirror
  }

  function Affected(s: Store, g: GroupId): set<MemberId> {
    set m | m in s.members && HasRow(s.members[m].rows, g)
  }

  /** The mirror rows of a group, or its membership rows when it has no mirror row. */
  function MemberCount(s: Store, g: GroupId): nat {
    if Mirrored(s, g) != {} then |Mirrored(s, g)| else |Affected(s, g)|
  }

  /** The counter, or what it is initialised to on first use. */
  function LastSequence(s: Store, g: GroupId): nat {
    if g in s.counters then s.counters[g] else MemberCount(s, g)
  }

  predicate NumbersDiffer(a: Member, b: Member) {
    && (a.number != "" ==> a.number != b.number)
    && (forall g :: g in a.mirror && g in b.mirror ==> a.mirror[g].number != b.mirror[g].number)
  }

  /** UNIQUE(members.membership_number) and UNIQUE(group_members.group_id, membership_number). */
  predicate NumbersUnique(members: map<MemberId, Member>) {
    forall m, n :: m in members && n in members && m != n ==> NumbersDiffer(members[m], members[n])
  }

  /** The write of a whole member, which the unique constraints may refuse. */
  function Flush(s: Store, minted: seq<Mint>): Outcome<bool> {
    if NumbersUnique(s.members) then Done(s, true, minted) else Aborted(Conflict)
  }

  /** Operations on a member neither create nor delete members or groups. */
  predicate SameKeys(s: Store, t: Store) {
    t.groups == s.groups && t.members.Keys == s.members.Keys
  }

  /** The value says whether the group issues numbers at all. */
  function Assign(s: Store, m: MemberId, g: GroupId): (r: Outcome<bool>)
    requires m in s.members && g in s.groups
    ensures r.Done? ==> SameKeys(s, r.store)
  {
    var mem, code := s.members[m], s.groups[g].code;
    if code == "" then Done(s, false, [])
    else if KnownNumber(mem, g, code) != "" then
      Flush(Put(s, m, WriteNumber(mem, g, KnownNumber(mem, g, code))), [])
    else
      var next := LastSequence(s, g) + 1;
      var counted := s.(counters := s.counters[g := next]);
      Flush(Put(counted, m, WriteNumber(mem, g, FormatMemberId(code, next))), [Mint(g, next)])
  }

  // ---------------------------------------------------------------- the service operations

  function AddKnown(s: Store, m: MemberId, g: GroupId): (r: Outcome<bool>)
    requires m in s.members && g in s.groups && HasRow(s.members[m].rows, g)
    ensures r.Done? ==> SameKeys(s, r.store)
  {
    var mem := s.members[m];
    var pointed := Put(s, m, if mem.group.None? then mem.(group := Some(g)) else mem);
    if RowNumber(mem.rows, g) == "" && s.groups[g].code != "" then
      match Assign(pointed, m, g)
      case Done(t, _, minted) => Done(t, false, minted)
      case Aborted(e) => Aborted(e)
    else Done(pointed, false, [])
  }

  function AddNew(s: Store, m: MemberId, g: GroupId): (r: Outcome<bool>)
    requires m in s.members && g in s.groups
    ensures r.Done? ==> SameKeys(s, r.store)
  {
    var mem := InsertRow(s.members[m], g);
    if s.groups[g].code != "" then Assign(Put(s, m, mem), m, g)
    else if MaxPriority(s.members[m].rows) + 1 == 1 then Done(Put(s, m, mem.(number := "")), true, [])
    else Done(Put(s, m, mem), true, [])
  }

  function AddPrepared(s: Store, m: MemberId, g: GroupId): (r: Outcome<bool>)
    requires m in s.members && g in s.groups
    ensures r.Done? ==> SameKeys(s, r.store)
  {
    if HasRow(s.members[m].rows, g) then AddKnown(s, m, g) else AddNew(s, m, g)
  }

  /** The value says whether the membership is new. */
  function Add(s: Store, m: MemberId, g: GroupId): (r: Outcome<bool>)
    requires m in s.members && g in s.groups
    ensures r.Done? ==> SameKeys(s, r.store)
  {
    AddPrepared(Put(s, m, EnsureLegacy(s.members[m])), m, g)
  }

  /** A group that is not stored counts as one without a code. */
  function CodeOf(groups: map<GroupId, Group>, g: GroupId): string {
    if g in groups then groups[g].code else ""
  }

  /** After the primary row is gone: the next row takes over, or the member is left without a group. */
  function Promote(s: Store, m: MemberId): (r: Outcome<Option<GroupId>>)
    requires m in s.members
    ensures r.Done? ==> SameKeys(s, r.store)
  {
    var mem := s.members[m];
    if mem.rows == [] then Done(Put(s, m, mem.(group := None, number := "")), None, [])
    else
      var next := mem.rows[0].group;
      var moved := PromoteFirst(mem);
      if CodeOf(s.groups, next) == "" then Done(Put(s, m, moved.(number := "")), Some(next), [])
      else
        match Assign(Put(s, m, moved), m, next)
        case Done(t, _, minted) => Done(t, Some(next), minted)
        case Aborted(e) => Aborted(e)
  }

  datatype Removal = Removal(removed: bool, promoted: Option<GroupId>)

  function RemovePrepared(s: Store, m: MemberId, g: GroupId): (r: Outcome<Removal>)
    requires m in s.members
    ensures r.Done? ==> SameKeys(s, r.store)
  {
    var mem := s.members[m];
    if !HasRow(mem.rows, g) then Done(s, Removal(false, None), [])
    else
      var deleted := Put(s, m, DeleteRow(mem, g));
      if mem.rows[IndexOf(mem.rows, g)].priority != 1 then Done(deleted, Removal(true, None), [])
      else
        match Promote(deleted, m)
        case Done(t, next, minted) => Done(t, Removal(true, next), minted)
        case Aborted(e) => Aborted(e)
  }

  /** The value says whether a row was removed, and which group was promoted. */
  function Remove(s: Store, m: MemberId, g: GroupId): (r: Outcome<Removal>)
    requires m in s.members
    ensures r.Done? ==> SameKeys(s, r.store)
  {
    RemovePrepared(Put(s, m, EnsureLegacy(s.members[m])), m, g)
  }

  function RemoveAll(s: Store, m: MemberId, gs: seq<GroupId>): (r: Outcome<()>)
    requires m in s.members
    ensures r.Done? ==> SameKeys(s, r.store)
    decreases gs
  {
    if gs == [] then Done(s, (), [])
    else
      match Remove(s, m, gs[0])
      case Aborted(e) => Aborted(e)
      case Done(t, _, first) =>
        match RemoveAll(t, m, gs[1..])
        case Aborted(e) => Aborted(e)
        case Done(u, _, rest) => Done(u, (), first + rest)
  }

  /** A group admin manages one group; everybody else manages all of them. */
  predicate Manages(managed: Option<GroupId>, g: GroupId) { managed.None? || managed.value == g }

  predicate Live(groups: map<GroupId, Group>, g: GroupId) { g in groups && !groups[g].deleted }

  function AddAll(s: Store, m: MemberId, gs: seq<GroupId>, managed: Option<GroupId>): (r: Outcome<()>)
    requires m in s.members
    ensures r.Done? ==> SameKeys(s, r.store)
    decreases gs
  {
    if gs == [] then Done(s, (), [])
    else if !Manages(managed, gs[0]) then Aborted(NotManaged)
    else if !Live(s.groups, gs[0]) then AddAll(s, m, gs[1..], managed)
    else
      match Add(s, m, gs[0])
      case Aborted(e) => Aborted(e)
      case Done(t, _, first) =>
        match AddAll(t, m, gs[1..], managed)
        case Aborted(e) => Aborted(e)
        case Done(u, _, rest) => Done(u, (), first + rest)
  }

  /** First occurrences, in order. */
  function Dedup(gs: seq<GroupId>): (r: seq<GroupId>)
    ensures Distinct(r)
    ensures forall g :: g in r <==> g in gs
  {
    if gs == [] then []
    else
      var front, last := Dedup(gs[..|gs| - 1]), gs[|gs| - 1];
      if last in front then front else front + [last]
  }

  /** The current groups a selection drops, as far as the caller may drop them. */
  function Dropped(current: seq<GroupId>, desired: seq<GroupId>, managed: Option<GroupId>): seq<GroupId> {
    Filter(current, g => g !in desired && Manages(managed, g))
  }

  function Missing(current: seq<GroupId>, desired: seq<GroupId>): seq<GroupId> {
    Filter(desired, g => g !in current)
  }

  function Sync(s: Store, m: MemberId, ids: seq<GroupId>, managed: Option<GroupId>): (r: Outcome<()>)
    requires m in s.members
    ensures r.Done? ==> SameKeys(s, r.store)
  {
    var desired := Dedup(ids);
    if desired == [] then Aborted(EmptySelection)
    else
      var base := Put(s, m, EnsureLegacy(s.members[m]));
      var current := Groups(base.members[m].rows);
      match RemoveAll(base, m, Dropped(current, desired, managed))
      case Aborted(e) => Aborted(e)
      case Done(t, _, first) =>
        match AddAll(t, m, Missing(current, desired), managed)
        case Aborted(e) => Aborted(e)
        case Done(u, _, rest) => Done(u, (), first + rest)
  }

  /** Takes the members in the order the query returned them. */
  function Detach(s: Store, g: GroupId, order: seq<MemberId>): (r: Outcome<()>)
    ensures r.Done? ==> SameKeys(s, r.store)
    decreases order
  {
    if order == [] then Done(s, (), [])
    else if order[0] !in s.members then Detach(s, g, order[1..])
    else
      match Remove(s, order[0], g)
      case Aborted(e) => Aborted(e)
      case Done(t, _, first) =>
        match Detach(t, g, order[1..])
        case Aborted(e) => Aborted(e)
        case Done(u, _, rest) => Done(u, (), first + rest)
  }

  // ---------------------------------------------------------------- runs

  datatype Op =
    | AddOp(member: MemberId, group: GroupId)
    | RemoveOp(member: MemberId, group: GroupId)
    | SyncOp(member: MemberId, groups: seq<GroupId>, managed: Option<GroupId>)
    | DetachOp(group: GroupId, order: seq<MemberId>)

  /** The caller passes a stored member and a stored group; detaching walks over the affected members. */
  ghost predicate Enabled(s: Store, op: Op) {
    match op
    case AddOp(m, g) => m in s.members && g in s.groups
    case RemoveOp(m, _) => m in s.members
    case SyncOp(m, _, _) => m in s.members
    case DetachOp(g, order) => Distinct(order) && (set m | m in order) == Affected(s, g)
  }

  datatype Stepped = Stepped(store: Store, minted: seq<Mint>)

  function Settle<T>(s: Store, outcome: Outcome<T>): Stepped {
    match outcome
    case Done(t, _, minted) => Stepped(t, minted)
    case Aborted(_) => Stepped(s, [])
  }

  /** An aborted operation leaves the tables as they were. */
  ghost function Step(s: Store, op: Op): Stepped
    requires Enabled(s, op)
  {
    match op
    case AddOp(m, g) => Settle(s, Add(s, m, g))
    case RemoveOp(m, g) => Settle(s, Remove(s, m, g))
    case SyncOp(m, ids, managed) => Settle(s, Sync(s, m, ids, managed))
    case DetachOp(g, order) => Settle(s, Detach(s, g, order))
  }

  /** A run of operations, each performed when its caller could perform it. */
  ghost function Run(s: Store, ops: seq<Op>): Stepped
    decreases ops
  {
    if ops == [] then Stepped(s, [])
    else if !Enabled(s, ops[0]) then Run(s, ops[1..])
    else
      var first := Step(s, ops[0]);
      var rest := Run(first.store, ops[1..]);
      Stepped(rest.store, first.minted + rest.minted)
  }
}
