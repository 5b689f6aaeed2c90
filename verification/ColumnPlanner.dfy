/** The plan that maps unknown sheet headers to existing or new columns of the `members` table. */
module ColumnPlanner {
  import opened Common
  import opened SheetColumns
  import opened Text

  /** A column's type: whether it stores text, and the length limit of a VARCHAR(n). */
  datatype Info = Info(isText: bool, maxLength: Option<nat>)

  /** Where one header's values are stored. */
  datatype Column = Column(name: string, maxLength: Option<nat>) {
    /** Cut a value so that the column cannot reject it; a limit of zero counts as none. */
    function Fit(value: string): (r: string)
      ensures r <= value && (r == value || |r| < |value|)
      ensures maxLength.Some? && maxLength.value > 0 ==> |r| <= maxLength.value
      ensures maxLength == None || maxLength.value == 0 || |value| <= maxLength.value ==> r == value
    {
      if maxLength.Some? && maxLength.value > 0 && |value| > maxLength.value then value[..maxLength.value] else value
    }
  }

  type Schema = map<string, Info>

  /** Identity, audit, lifecycle, photo and sync-managed columns of `members`. */
  function SystemColumns(): set<string> {
    {"id", "user_id", "group_id", "location_id", "created_at", "updated_at", "created_by", "updated_by",
     "is_deleted", "deleted_at", "membership_number", "membership_status", "joined_at", "approved_at",
     "approved_by", "rejection_reason", "is_profile_complete", "profile_data", "first_name", "last_name",
     "date_of_birth", "contact_phone", "contact_email", "address_line", "occupation_summary",
     "profile_photo_url", "profile_photo_drive_url", "profile_photo_r2_object_key", "profile_photo_r2_url",
     "spouse_photo_drive_url", "spouse_photo_r2_object_key", "spouse_photo_r2_url"}
  }

  // ---------------------------------------------------------------- what the plan should be

  /** A header cell and the registration field it matched, if any. */
  datatype Cell = Cell(header: string, key: Option<string>)

  /** The column a cell asks for; "" when it is mapped already, blank, or has no usable name. */
  function Asks(c: Cell): string {
    if c.key.Some? || Trim(c.header) == "" then "" else NormalizeColumnName(c.header)
  }

  /** The column names asked for, each once, in order of first appearance. */
  function Names(cells: seq<Cell>): (r: seq<string>)
    ensures "" !in r && forall c :: c in cells && Asks(c) != "" ==> Asks(c) in r
    ensures forall n :: n in r ==> exists c :: c in cells && Asks(c) == n
  {
    if cells == [] then []
    else
      var front, name := Names(cells[..|cells| - 1]), Asks(cells[|cells| - 1]);
      assert cells == cells[..|cells| - 1] + [cells[|cells| - 1]];
      if name == "" || name in front then front else front + [name]
  }

  /** The names that are no column yet. */
  function Missing(existing: Schema, names: seq<string>): seq<string> {
    Filter(names, n => n !in existing)
  }

  function Without(names: seq<string>, refused: set<string>): seq<string> {
    Filter(names, n => n !in refused)
  }

  function Take(s: seq<string>, n: nat): seq<string> { if |s| <= n then s else s[..n] }

  function Drop(s: seq<string>, n: nat): seq<string> { if |s| <= n then [] else s[n..] }

  /** The new columns: the first hundred missing names that the database accepts. */
  function Added(existing: Schema, names: seq<string>, refused: set<string>): seq<string> {
    Take(Without(Missing(existing, names), refused), MAX_NEW_COLUMNS)
  }

  /** Where a name's values go, given the columns added by this run. */
  function Target(existing: Schema, added: seq<string>, name: string): Option<Column> {
    if name in existing then
      if name in SystemColumns() || !existing[name].isText then None else Some(Column(name, existing[name].maxLength))
    else if name in added then Some(Column(name, None))
    else None
  }

  /** `mapping` sends exactly the headers whose name has a target there. */
  ghost predicate Maps(existing: Schema, added: seq<string>, cells: seq<Cell>, mapping: map<string, Column>) {
    && (forall c :: c in cells && Asks(c) != "" && Target(existing, added, Asks(c)).Some? ==> c.header in mapping)
    && (forall h :: h in mapping ==>
          && (exists c :: c in cells && c.header == h && Asks(c) != "")
          && Some(mapping[h]) == Target(existing, added, NormalizeColumnName(h)))
  }

  // ---------------------------------------------------------------- plan_sheet_columns

  lemma NamesStep(cells: seq<Cell>, c: Cell)
    ensures Names(cells + [c]) ==
      if Asks(c) == "" || Asks(c) in Names(cells) then Names(cells) else Names(cells) + [Asks(c)]
  {
    assert (cells + [c])[..|cells|] == cells;
  }

  lemma AddedStep(existing: Schema, names: seq<string>, refused: set<string>, name: string)
    ensures var added := Added(existing, names, refused);
      Added(existing, names + [name], refused)
        == if name in existing || name in refused || |added| >= MAX_NEW_COLUMNS then added else added + [name]
  {
    FilterAppend(names, [name], n => n !in existing);
    var missing, more := Missing(existing, names), Missing(existing, [name]);
    assert more == if name in existing then [] else [name];
    assert Missing(existing, names + [name]) == missing + more;
    FilterAppend(missing, more, n => n !in refused);
    var ok, also := Without(missing, refused), Without(more, refused);
    assert also == if name in existing || name in refused then [] else [name];
    assert Without(missing + more, refused) == ok + also;
  }

  /** A decided name stays decided: columns added for later names leave its target alone. */
  lemma TargetStays(existing: Schema, added: seq<string>, name: string, other: string)
    requires name != other
    ensures Target(existing, added + [other], name) == Target(existing, added, name)
  {
  }

  lemma MapsGrows(existing: Schema, added: seq<string>, cells: seq<Cell>, mapping: map<string, Column>, name: string)
    requires Maps(existing, added, cells, mapping) && name !in Names(cells)
    ensures Maps(existing, added + [name], cells, mapping)
  {
    hide Target, Names, NormalizeColumnName, Trim;
    forall d | d in cells && Asks(d) != ""
      ensures Target(existing, added + [name], Asks(d)) == Target(existing, added, Asks(d))
    {
      TargetStays(existing, added, Asks(d), name);
    }
  }

  lemma MapsCell(existing: Schema, added: seq<string>, cells: seq<Cell>, mapping: map<string, Column>, c: Cell)
    requires Maps(existing, added, cells, mapping)
    ensures var target := if Asks(c) == "" then None else Target(existing, added, Asks(c));
      Maps(existing, added, cells + [c], if target.Some? then mapping[c.header := target.value] else mapping)
  {
    hide Target, NormalizeColumnName, Trim;
  }

  lemma MapsStep(existing: Schema, added: seq<string>, cells: seq<Cell>, mapping: map<string, Column>,
      c: Cell, more: seq<string>, next: map<string, Column>)
    requires Maps(existing, added, cells, mapping)
    requires more == added || (more == added + [Asks(c)] && Asks(c) !in Names(cells) && Asks(c) != "")
    requires Asks(c) == "" ==> next == mapping
    requires Asks(c) != "" ==> next == match Target(existing, more, Asks(c)) {
      case None => mapping
      case Some(column) => mapping[c.header := column]
    }
    ensures Maps(existing, more, cells + [c], next)
  {
    hide Target, Names, Asks, Maps;
    if more != added {
      MapsGrows(existing, added, cells, mapping, Asks(c));
    }
    MapsCell(existing, more, cells, mapping, c);
  }

  /** The names decided so far, each with the first header that asked for it. */
  ghost predicate Decides(decided: map<string, string>, cells: seq<Cell>) {
    && (forall n :: n in decided <==> n in Names(cells))
    && (forall n :: n in decided ==> exists c :: c in cells && c.header == decided[n] && Asks(c) == n)
  }

  lemma DecidesStep(decided: map<string, string>, cells: seq<Cell>, c: Cell)
    requires Decides(decided, cells)
    ensures Decides(if Asks(c) == "" || Asks(c) in decided then decided else decided[Asks(c) := c.header], cells + [c])
  {
    NamesStep(cells, c);
    hide Names, Asks;
  }

  /** A header mapped because its name's owner is mapped gets what its own name would give. */
  lemma OwnerShares(existing: Schema, added: seq<string>, cells: seq<Cell>, mapping: map<string, Column>,
      decided: map<string, string>, name: string)
    requires Maps(existing, added, cells, mapping) && Decides(decided, cells) && name in decided
    ensures decided[name] in mapping <==> Target(existing, added, name).Some?
    ensures decided[name] in mapping ==> Target(existing, added, name) == Some(mapping[decided[name]])
  {
    hide Target, Names, NormalizeColumnName, Trim;
  }

  /**
   * `existing` is the catalogue of `members`, `refuses` the names whose ALTER TABLE raises.  A dry
   * run (`apply` false) alters nothing, so nothing is refused.
   */
  method PlanSheetColumns(existing: Schema, cells: seq<Cell>, refuses: set<string>, apply: bool)
    returns (mapping: map<string, Column>, added: seq<string>)
    ensures existing == map[] ==> mapping == map[] && added == []
    ensures existing != map[] ==>
      && added == Added(existing, Names(cells), if apply then refuses else {})
      && Maps(existing, added, cells, mapping)
  {
    hide Names, Added, Target, Maps, Decides, SystemColumns, NormalizeColumnName, Asks;
    mapping, added := map[], [];
    if existing == map[] {
      return;
    }
    ghost var refused := if apply then refuses else {};
    var decided: map<string, string> := map[];
    PlanStarts(existing, refused);
    for i := 0 to |cells|
      invariant added == Added(existing, Names(cells[..i]), refused)
      invariant Maps(existing, added, cells[..i], mapping)
      invariant Decides(decided, cells[..i])
    {
      var c, name := cells[i], Asks(cells[i]);
      ghost var before := cells[..i];
      assert cells[..i + 1] == before + [c];
      NamesStep(before, c);
      DecidesStep(decided, before, c);
      NameInDecided(decided, before);
      if name == "" {
        MapsStep(existing, added, before, mapping, c, added, mapping);
        continue;
      }
      if name in decided {
        OwnerShares(existing, added, before, mapping, decided, name);
        var next := if decided[name] in mapping then mapping[c.header := mapping[decided[name]]] else mapping;
        MapsStep(existing, added, before, mapping, c, added, next);
        mapping := next;
        continue;
      }
      decided := decided[name := c.header];
      AddedStep(existing, Names(before), refused, name);
      TargetCases(existing, added, name);
      AddedIsMissing(existing, Names(before), refused);
      if name !in existing {
        if |added| >= MAX_NEW_COLUMNS || (apply && name in refuses) {
          MapsStep(existing, added, before, mapping, c, added, mapping);
          continue;
        }
        var next := mapping[c.header := Column(name, None)];
        TargetCases(existing, added + [name], name);
        MapsStep(existing, added, before, mapping, c, added + [name], next);
        added, mapping := added + [name], next;
        continue;
      }
      if name in SystemColumns() || !existing[name].isText {
        MapsStep(existing, added, before, mapping, c, added, mapping);
        continue;
      }
      var next := mapping[c.header := Column(name, existing[name].maxLength)];
      MapsStep(existing, added, before, mapping, c, added, next);
      mapping := next;
    }
    assert cells[..|cells|] == cells;
  }

  lemma PlanStarts(existing: Schema, refused: set<string>)
    ensures Added(existing, Names([]), refused) == []
    ensures Maps(existing, [], [], map[]) && Decides(map[], [])
  {
  }

  lemma NameInDecided(decided: map<string, string>, cells: seq<Cell>)
    requires Decides(decided, cells)
    ensures forall n :: n in decided <==> n in Names(cells)
  {
  }

  lemma TargetCases(existing: Schema, added: seq<string>, name: string)
    ensures name !in existing ==>
      Target(existing, added, name) == if name in added then Some(Column(name, None)) else None
    ensures name in existing && (name in SystemColumns() || !existing[name].isText) ==>
      Target(existing, added, name) == None
    ensures name in existing && name !in SystemColumns() && existing[name].isText
      ==> Target(existing, added, name) == Some(Column(name, existing[name].maxLength))
  {
  }

  lemma AddedIsMissing(existing: Schema, names: seq<string>, refused: set<string>)
    ensures forall n :: n in Added(existing, names, refused) ==> n in names && n !in existing && n !in refused
  {
  }

  // ---------------------------------------------------------------- what a plan may do

  lemma {:induction false} NamesDistinct(cells: seq<Cell>)
    ensures Distinct(Names(cells))
    ensures forall n :: n in Names(cells) ==> exists c :: c in cells && Asks(c) == n
  {
    if cells != [] {
      NamesDistinct(cells[..|cells| - 1]);
    }
    hide Asks;
  }

  lemma AddedDistinct(existing: Schema, names: seq<string>, refused: set<string>)
    requires Distinct(names)
    ensures Distinct(Added(existing, names, refused)) && |Added(existing, names, refused)| <= MAX_NEW_COLUMNS
  {
    FilterDistinct(names, n => n !in existing);
    var missing := Missing(existing, names);
    FilterDistinct(missing, n => n !in refused);
    assert Distinct(Without(missing, refused));
  }

  /** New columns are at most a hundred, distinct, valid identifiers, and no columns yet. */
  lemma NewColumnsAreSafe(existing: Schema, cells: seq<Cell>, refused: set<string>)
    ensures var added := Added(existing, Names(cells), refused);
      && |added| <= MAX_NEW_COLUMNS && Distinct(added)
      && forall n :: n in added ==> IsIdentifier(n) && |n| <= MAX_IDENTIFIER && n !in existing
  {
    NamesDistinct(cells);
    AddedDistinct(existing, Names(cells), refused);
    AddedIsMissing(existing, Names(cells), refused);
    hide Added, Names, NormalizeColumnName, IsIdentifier;
    forall n | n in Names(cells)
      ensures IsIdentifier(n) && |n| <= MAX_IDENTIFIER
    {
      var c :| c in cells && Asks(c) == n;
      ColumnNameSafe(c.header);
    }
  }

  /** Two unknown headers with one normalised name are both mapped, to one column, or neither is. */
  lemma HeadersShareTarget(existing: Schema, added: seq<string>, cells: seq<Cell>, mapping: map<string, Column>,
      c: Cell, d: Cell)
    requires Maps(existing, added, cells, mapping) && c in cells && d in cells
    requires Asks(c) == Asks(d) != ""
    ensures c.header in mapping <==> d.header in mapping
    ensures c.header in mapping ==> mapping[c.header] == mapping[d.header]
  {
    hide Target, NormalizeColumnName, Trim;
  }

  /**
   * A mapped header goes to a column that existed as text and is not a system one, or to one added
   * by this run; so a system column is targeted exactly when the run had to create it.
   */
  lemma SystemTargetedIffCreated(existing: Schema, added: seq<string>, cells: seq<Cell>, mapping: map<string, Column>)
    requires Maps(existing, added, cells, mapping)
    requires forall n :: n in added ==> n !in existing && exists c :: c in cells && Asks(c) == n
    requires "" !in added
    ensures forall h :: h in mapping ==> var n := mapping[h].name;
      if n in existing then existing[n].isText && n !in SystemColumns() else n in added
    ensures (exists h :: h in mapping && mapping[h].name in SystemColumns()) <==>
      exists n :: n in added && n in SystemColumns()
  {
    hide SystemColumns, NormalizeColumnName, Trim;
    forall h | h in mapping
      ensures var n := mapping[h].name;
        if n in existing then existing[n].isText && n !in SystemColumns() else n in added
    {
      TargetCases(existing, added, mapping[h].name);
    }
    forall n | n in added && n in SystemColumns()
      ensures exists h :: h in mapping && mapping[h].name in SystemColumns()
    {
      var c :| c in cells && Asks(c) == n;
      TargetCases(existing, added, n);
      assert c.header in mapping && mapping[c.header].name == n;
    }
  }

  lemma TakePrefix(s: seq<string>, n: nat)
    ensures Take(s, n) + Drop(s, n) == s
  {
  }

  lemma TakeCons(n: string, rest: seq<string>, k: nat)
    requires k > 0
    ensures Take([n] + rest, k) == [n] + Take(rest, k - 1)
  {
  }

  /** Removing refused names changes the first `k` exactly when one of them is refused. */
  lemma {:induction false} TakeWithout(s: seq<string>, refused: set<string>, k: nat)
    requires Distinct(s)
    ensures Take(Without(s, refused), k) == Take(s, k) <==> forall n :: n in Take(s, k) ==> n !in refused
  {
    if s != [] && k > 0 {
      var n, rest, ok := s[0], s[1..], Without(s[1..], refused);
      TakeWithout(rest, refused, k - 1);
      WithoutCons(n, rest, refused);
      TakeCons(n, rest, k);
      TakeCons(n, ok, k);
      TakeSubset(Without(s, refused), k);
      assert s == [n] + rest;
      hide *;
      if n in refused {
        assert n in Take(s, k) && n !in Without(s, refused);
      } else {
        assert Take(s, k)[1..] == Take(rest, k - 1);
        assert Take(Without(s, refused), k)[1..] == Take(ok, k - 1);
      }
    }
  }

  lemma WithoutCons(n: string, rest: seq<string>, refused: set<string>)
    ensures Without([n] + rest, refused) ==
      if n in refused then Without(rest, refused) else [n] + Without(rest, refused)
    ensures n in refused ==> n !in Without([n] + rest, refused)
  {
    assert ([n] + rest)[1..] == rest;
  }

  lemma TakeSubset(s: seq<string>, k: nat)
    ensures forall n :: n in Take(s, k) ==> n in s
  {
  }

  /** A dry run reports the columns that the apply run adds exactly when none of them is refused. */
  lemma DryRunForetellsApply(existing: Schema, cells: seq<Cell>, refuses: set<string>)
    ensures var dry, wet := Added(existing, Names(cells), {}), Added(existing, Names(cells), refuses);
      wet == dry <==> forall n :: n in dry ==> n !in refuses
  {
    NamesDistinct(cells);
    MissingDistinct(existing, Names(cells));
    var missing := Missing(existing, Names(cells));
    WithoutNothing(missing, {});
    TakeWithout(missing, refuses, MAX_NEW_COLUMNS);
    hide Names, Missing, Without, Take;
  }

  lemma MissingDistinct(existing: Schema, names: seq<string>)
    requires Distinct(names)
    ensures Distinct(Missing(existing, names))
  {
    FilterDistinct(names, n => n !in existing);
  }

  lemma WithoutNothing(names: seq<string>, refused: set<string>)
    requires refused == {}
    ensures Without(names, refused) == names
  {
    FilterAll(names, n => n !in refused);
  }

  // ---------------------------------------------------------------- running again

  /** The catalogue after an apply run added `added` as text columns. */
  function Grown(existing: Schema, added: seq<string>): Schema {
    existing + map n | n in added && n !in existing :: Info(true, None)
  }

  /** The missing columns that the database would accept: what runs still have to add. */
  function Pending(existing: Schema, names: seq<string>, refused: set<string>): seq<string> {
    Without(Missing(existing, names), refused)
  }

  lemma {:induction false} PendingIs(existing: Schema, names: seq<string>, refused: set<string>)
    ensures Pending(existing, names, refused) == Filter(names, n => n !in existing && n !in refused)
  {
    if names != [] {
      PendingIs(existing, names[1..], refused);
      var n, rest := names[0], names[1..];
      var missing := Missing(existing, rest);
      assert Missing(existing, names) == if n in existing then missing else [n] + missing;
      assert ([n] + missing)[1..] == missing;
    }
  }

  lemma {:induction false} FilterDropsPrefix(s: seq<string>, k: nat)
    requires Distinct(s)
    ensures Filter(s, n => n !in Take(s, k)) == Drop(s, k)
  {
    var front, back := Take(s, k), Drop(s, k);
    TakePrefix(s, k);
    FilterAppend(front, back, n => n !in Take(s, k));
    forall n | n in back
      ensures n !in front
    {
    }
    FilterAll(back, n => n !in Take(s, k));
    FilterNone(front, n => n !in Take(s, k));
    assert [] + back == back;
  }

  lemma {:induction false} FilterTwice(s: seq<string>, p: string -> bool, q: string -> bool)
    ensures Filter(Filter(s, p), q) == Filter(s, n => p(n) && q(n))
  {
    if s != [] {
      FilterTwice(s[1..], p, q);
      var f := Filter(s[1..], p);
      assert ([s[0]] + f)[1..] == f;
    }
  }

  /** After a run, what is left to add is what was left before, less the columns just added. */
  lemma RunAddsTheNext(existing: Schema, names: seq<string>, refused: set<string>)
    requires Distinct(names)
    ensures var added := Added(existing, names, refused);
      Pending(Grown(existing, added), names, refused) == Drop(Pending(existing, names, refused), MAX_NEW_COLUMNS)
  {
    var added, pending := Added(existing, names, refused), Pending(existing, names, refused);
    var grown := Grown(existing, added);
    assert added == Take(pending, MAX_NEW_COLUMNS);
    PendingIs(existing, names, refused);
    PendingIs(grown, names, refused);
    FilterDistinct(names, n => n !in existing && n !in refused);
    FilterDropsPrefix(pending, MAX_NEW_COLUMNS);
    FilterTwice(names, n => n !in existing && n !in refused, n => n !in Take(pending, MAX_NEW_COLUMNS));
    FilterAgree(names, n => n !in grown && n !in refused,
      n => (k => k !in existing && k !in refused)(n) && (k => k !in Take(pending, MAX_NEW_COLUMNS))(n));
  }

  function AfterRuns(existing: Schema, names: seq<string>, refused: set<string>, k: nat): Schema {
    if k == 0 then existing
    else
      var s := AfterRuns(existing, names, refused, k - 1);
      Grown(s, Added(s, names, refused))
  }

  lemma {:induction false} PendingAfterRuns(existing: Schema, names: seq<string>, refused: set<string>, k: nat)
    requires Distinct(names)
    ensures Pending(AfterRuns(existing, names, refused, k), names, refused)
      == Drop(Pending(existing, names, refused), MAX_NEW_COLUMNS * k)
  {
    AfterRunsStep(existing, names, refused, k);
    DropNone(Pending(existing, names, refused));
    hide *;
    if k > 0 {
      PendingAfterRuns(existing, names, refused, k - 1);
      RunAddsTheNext(AfterRuns(existing, names, refused, k - 1), names, refused);
      DropDrop(Pending(existing, names, refused), MAX_NEW_COLUMNS * (k - 1));
    }
  }

  lemma AfterRunsStep(existing: Schema, names: seq<string>, refused: set<string>, k: nat)
    ensures k == 0 ==> AfterRuns(existing, names, refused, k) == existing
    ensures k > 0 ==> var s := AfterRuns(existing, names, refused, k - 1);
      AfterRuns(existing, names, refused, k) == Grown(s, Added(s, names, refused))
  {
  }

  lemma DropNone(s: seq<string>)
    ensures Drop(s, 0) == s
  {
  }

  /**
   * Repeated apply runs over the same sheet add the pending columns a hundred at a time, so what is
   * left shrinks by a hundred with every run; once nothing is left, a run changes nothing.
   */
  lemma RunsReachFixedPoint(existing: Schema, cells: seq<Cell>, refused: set<string>, k: nat)
    ensures var names := Names(cells);
      var s := AfterRuns(existing, names, refused, k);
      && Pending(s, names, refused) == Drop(Pending(existing, names, refused), MAX_NEW_COLUMNS * k)
      && (MAX_NEW_COLUMNS * k >= |Pending(existing, names, refused)| ==>
            Added(s, names, refused) == [] && AfterRuns(existing, names, refused, k + 1) == s)
  {
    NamesDistinct(cells);
    var names := Names(cells);
    var s := AfterRuns(existing, names, refused, k);
    PendingAfterRuns(existing, names, refused, k);
    NothingPending(s, names, refused);
    assert AfterRuns(existing, names, refused, k + 1) == Grown(s, Added(s, names, refused));
    hide Names, Pending, Grown, Added, AfterRuns;
  }

  lemma NothingPending(existing: Schema, names: seq<string>, refused: set<string>)
    ensures Pending(existing, names, refused) == [] ==>
      Added(existing, names, refused) == [] && Grown(existing, []) == existing
  {
  }

  lemma DropDrop(s: seq<string>, m: nat)
    ensures Drop(Drop(s, m), MAX_NEW_COLUMNS) == Drop(s, m + MAX_NEW_COLUMNS)
  {
  }

  /** A header keeps its column in the next run, unless it asked for a system column that was missing. */
  lemma TargetSurvives(existing: Schema, names: seq<string>, refused: set<string>, name: string)
    ensures var added := Added(existing, names, refused);
      var grown := Grown(existing, added);
      var again := Target(grown, Added(grown, names, refused), name);
      Target(existing, added, name).Some? ==>
        again ==
          if name in added && name !in existing && name in SystemColumns() then None else Target(existing, added, name)
  {
    hide Added, SystemColumns;
  }

  // ---------------------------------------------------------------- which cells create a column

  /** The cell asks for a name that is no column, is not refused, and has fewer than a hundred such names before it. */
  ghost predicate GetsColumn(existing: Schema, cells: seq<Cell>, refused: set<string>, k: nat) {
    && k < |cells| && Asks(cells[k]) != "" && Asks(cells[k]) !in existing && Asks(cells[k]) !in refused
    && |Pending(existing, Names(cells[..k]), refused)| < MAX_NEW_COLUMNS
  }

  /** The cells that ask for `n` and get a column for it. */
  ghost predicate SomeCellGets(existing: Schema, cells: seq<Cell>, refused: set<string>, n: string) {
    exists k: nat :: k < |cells| && GetsColumn(existing, cells, refused, k) && Asks(cells[k]) == n
  }

  lemma AddedIsPending(existing: Schema, names: seq<string>, refused: set<string>)
    ensures |Added(existing, names, refused)| < MAX_NEW_COLUMNS <==>
      |Pending(existing, names, refused)| < MAX_NEW_COLUMNS
    ensures |Pending(existing, names, refused)| < MAX_NEW_COLUMNS ==>
      Added(existing, names, refused) == Pending(existing, names, refused)
    ensures forall n :: n in Pending(existing, names, refused) <==> n in names && n !in existing && n !in refused
  {
  }

  lemma GetsEarlier(existing: Schema, front: seq<Cell>, c: Cell, refused: set<string>, n: string)
    ensures SomeCellGets(existing, front + [c], refused, n)
       <==> SomeCellGets(existing, front, refused, n)
            || (GetsColumn(existing, front + [c], refused, |front|) && Asks(c) == n)
  {
    var cells := front + [c];
    forall k: nat | k < |front|
      ensures GetsColumn(existing, cells, refused, k) <==> GetsColumn(existing, front, refused, k)
      ensures cells[k] == front[k]
    {
      assert cells[..k] == front[..k];
    }
    hide GetsColumn, Asks;
    if SomeCellGets(existing, front, refused, n) {
      var k: nat :| k < |front| && GetsColumn(existing, front, refused, k) && Asks(front[k]) == n;
      assert GetsColumn(existing, cells, refused, k) && Asks(cells[k]) == n;
    }
    if GetsColumn(existing, cells, refused, |front|) && Asks(c) == n {
      assert cells[|front|] == c;
    }
  }

  lemma LastGets(existing: Schema, front: seq<Cell>, c: Cell, refused: set<string>)
    ensures GetsColumn(existing, front + [c], refused, |front|) <==>
      && Asks(c) != "" && Asks(c) !in existing && Asks(c) !in refused
      && |Pending(existing, Names(front), refused)| < MAX_NEW_COLUMNS
  {
    assert (front + [c])[..|front|] == front;
    hide Asks, Pending, Names;
  }

  /** The columns a run adds, read off the cells before the run. */
  lemma {:induction false} AddedIff(existing: Schema, cells: seq<Cell>, refused: set<string>, n: string)
    ensures n in Added(existing, Names(cells), refused) <==> SomeCellGets(existing, cells, refused, n)
  {
    if cells != [] {
      var front, c := cells[..|cells| - 1], cells[|cells| - 1];
      assert cells == front + [c];
      AddedIff(existing, front, refused, n);
      NamesStep(front, c);
      AddedStep(existing, Names(front), refused, Asks(c));
      AddedIsPending(existing, Names(front), refused);
      GetsEarlier(existing, front, c, refused, n);
      LastGets(existing, front, c, refused);
      hide *;
    } else {
      NothingAdded(existing, refused);
    }
  }

  lemma NothingAdded(existing: Schema, refused: set<string>)
    ensures Names([]) == [] && Added(existing, [], refused) == []
  {
  }

  /**
   * A system column is targeted exactly when some cell asks for one that is no column yet, that the
   * database accepts, and that is among the first hundred such names.
   */
  lemma SystemTargetedIff(existing: Schema, cells: seq<Cell>, refused: set<string>, mapping: map<string, Column>)
    requires Maps(existing, Added(existing, Names(cells), refused), cells, mapping)
    ensures (exists h :: h in mapping && mapping[h].name in SystemColumns())
       <==> exists n :: n in SystemColumns() && SomeCellGets(existing, cells, refused, n)
  {
    var added := Added(existing, Names(cells), refused);
    AddedIsMissing(existing, Names(cells), refused);
    NamesDistinct(cells);
    hide Added, Names, Maps, SystemColumns, SomeCellGets, Asks;
    SystemTargetedIffCreated(existing, added, cells, mapping);
    forall n | n in SystemColumns()
      ensures n in added <==> SomeCellGets(existing, cells, refused, n)
    {
      AddedIff(existing, cells, refused, n);
    }
  }

  /** While the system columns exist, none of them is ever targeted. */
  lemma SystemColumnsAreSafe(existing: Schema, cells: seq<Cell>, refused: set<string>, mapping: map<string, Column>)
    requires Maps(existing, Added(existing, Names(cells), refused), cells, mapping)
    requires SystemColumns() <= existing.Keys
    ensures forall h :: h in mapping ==> mapping[h].name !in SystemColumns()
  {
    SystemTargetedIff(existing, cells, refused, mapping);
    forall n | n in SystemColumns()
      ensures !SomeCellGets(existing, cells, refused, n)
    {
    }
    hide Maps, Added, Names, SystemColumns, SomeCellGets;
  }

  // ---------------------------------------------------------------- which headers are mapped

  /** A header no registration field claims, that is not blank and yields a column name. */
  predicate Unclaimed(c: Cell) {
    c.key.None? && Trim(c.header) != "" && NormalizeColumnName(c.header) != ""
  }

  lemma AsksIff(c: Cell)
    ensures Asks(c) == if Unclaimed(c) then NormalizeColumnName(c.header) else ""
  {
    hide NormalizeColumnName, Trim;
  }

  /**
   * A header is mapped exactly when no registration field claims it and its name is a text column
   * that is not a system column, or a column this run adds; then its values go there, cut to the
   * column's length.
   */
  lemma MappedIff(existing: Schema, added: seq<string>, cells: seq<Cell>, mapping: map<string, Column>, header: string)
    requires Maps(existing, added, cells, mapping)
    ensures var n := NormalizeColumnName(header);
      && (header in mapping <==>
            && (exists c :: c in cells && c.header == header && Unclaimed(c))
            && if n in existing then existing[n].isText && n !in SystemColumns() else n in added)
      && (header in mapping ==>
            mapping[header] == Column(n, if n in existing then existing[n].maxLength else None))
  {
    forall c | c in cells
      ensures Asks(c) == if Unclaimed(c) then NormalizeColumnName(c.header) else ""
    {
      AsksIff(c);
    }
    if c :| c in cells && c.header == header && Unclaimed(c) {
      assert Asks(c) == NormalizeColumnName(header);
    }
    hide NormalizeColumnName, Trim, SystemColumns, Asks;
  }

  /** Every column a run adds is the name of an unclaimed header. */
  lemma AddedFor(existing: Schema, cells: seq<Cell>, refused: set<string>, n: string)
    requires n in Added(existing, Names(cells), refused)
    ensures n !in existing && n !in refused
    ensures exists c :: c in cells && Unclaimed(c) && NormalizeColumnName(c.header) == n
  {
    AddedIsMissing(existing, Names(cells), refused);
    hide NormalizeColumnName, Trim, Asks;
    var c :| c in cells && Asks(c) == n;
    AsksIff(c);
  }
}
