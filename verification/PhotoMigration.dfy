/**
 * Copying member photos from Drive links into object storage.  A slot is one photo of one member;
 * what the run decides about a slot is separated from what it then does, so that the dry run and
 * the apply run can be compared.
 */
module PhotoMigration {
  import opened Common

  const ID_LENGTH: nat := 36

  type MemberId = s: string | |s| == ID_LENGTH witness seq(ID_LENGTH, _ => '0')

  datatype Role = MemberPhoto | SpousePhoto

  datatype SlotId = SlotId(member: MemberId, role: Role)

  /** A stored link as its classification sees it; `Hosted` is the serving URL of an object key. */
  datatype Url =
    | Blank
    | Drive(id: string, text: string)
    | Direct(text: string)
    | Hosted(key: string)
    | Other(text: string)

  /** The fields behind one photo: the profile entry, the profile photo column, and the three `*_photo_*` columns. */
  datatype Slot = Slot(json: Option<Url>, photo: Url, drive: Url, key: string, url: Url)

  type Bytes = seq<bv8>

  datatype Photo = Photo(content: Bytes, fileName: string)

  /** The storage backend: whether it can list keys, which listed key comes first, whether it has public URLs. */
  datatype Backend = Backend(lists: bool, first: set<string> -> string, publicUrls: bool)

  ghost predicate Lists(b: Backend) {
    forall s: set<string> :: s != {} ==> b.first(s) in s
  }

  /** What the outside world answers during a run: the photos that download and the keys that can be deleted. */
  datatype Answers = Answers(photos: map<SlotId, Photo>, deletable: set<string>)

  datatype World = World(slots: map<SlotId, Slot>, store: map<string, Bytes>)

  datatype Status = Migrated | AlreadyMigrated | Replaced | Skipped | Failed

  datatype Outcome = Outcome(slot: SlotId, status: Status, key: Option<string>)

  // ---------------------------------------------------------------- object keys

  function RoleName(r: Role): string {
    match r
    case MemberPhoto => "member"
    case SpousePhoto => "spouse"
  }

  function Prefix(id: SlotId): string {
    "members/" + id.member + "/photos/" + RoleName(id.role)
  }

  predicate IsAlnum(c: char) { '0' <= c <= '9' || 'a' <= c <= 'z' || 'A' <= c <= 'Z' }

  function Lower(c: char): char { if 'A' <= c <= 'Z' then (c as int + 32) as char else c }

  function AfterLastDot(s: string): string {
    if '.' in s then AfterLastDot(s[1..]) else s
  }

  function AlnumLower(s: string): string {
    if s == "" then "" else (if IsAlnum(s[0]) then [Lower(s[0])] else "") + AlnumLower(s[1..])
  }

  function Suffix(fileName: string): string {
    var suffix := AlnumLower(if '.' in fileName then AfterLastDot(fileName) else "img");
    if suffix == "" then "img" else suffix
  }

  function ObjectKey(id: SlotId, fileName: string): (key: string)
    ensures Prefix(id) <= key
  {
    Prefix(id) + "." + Suffix(fileName)
  }

  lemma PrefixParts(id: SlotId)
    ensures var p := Prefix(id);
      |p| == 8 + ID_LENGTH + 8 + 6 && p[8..8 + ID_LENGTH] == id.member && p[8 + ID_LENGTH + 8..] == RoleName(id.role)
  {
    var p := Prefix(id);
    assert p == "members/" + (id.member + "/photos/" + RoleName(id.role));
    assert p == ("members/" + id.member) + ("/photos/" + RoleName(id.role));
    assert p == ("members/" + id.member + "/photos/") + RoleName(id.role);
  }

  /** No key belongs to two slots: a key's prefix names the member and the role. */
  lemma PrefixesSeparate(a: SlotId, b: SlotId, key: string)
    requires Prefix(a) <= key && Prefix(b) <= key
    ensures a == b
  {
    PrefixParts(a);
    PrefixParts(b);
    var p, q := Prefix(a), Prefix(b);
    hide Prefix;
    assert p == key[..|p|] == q;
    assert RoleName(a.role)[0] == (if a.role.MemberPhoto? then 'm' else 's');
    assert RoleName(b.role)[0] == (if b.role.MemberPhoto? then 'm' else 's');
  }

  /** Where the upload API keeps a slot's objects. */
  function Uploads(id: SlotId): string {
    "members/" + id.member + "/" + RoleName(id.role) + "/"
  }

  /** Whether a key is one of the slot's own: written by the migration or by the upload API. */
  predicate Belongs(id: SlotId, key: string) {
    Prefix(id) <= key || Uploads(id) <= key
  }

  lemma UploadsParts(id: SlotId)
    ensures var u := Uploads(id);
      && |u| == 8 + ID_LENGTH + 1 + 6 + 1 && u[8..8 + ID_LENGTH] == id.member
      && u[8 + ID_LENGTH + 1] == RoleName(id.role)[0]
  {
    var u := Uploads(id);
    assert u == "members/" + (id.member + "/" + RoleName(id.role) + "/");
    assert u == ("members/" + id.member) + ("/" + RoleName(id.role) + "/");
    assert u[8 + ID_LENGTH..] == "/" + RoleName(id.role) + "/";
    assert u[8 + ID_LENGTH..][1] == RoleName(id.role)[0];
  }

  /** The two places of a slot, told apart by the character after the member: 'p', 'm' or 's'. */
  lemma PlaceOf(id: SlotId, key: string)
    requires Belongs(id, key)
    ensures |key| > 8 + ID_LENGTH + 1 && key[8..8 + ID_LENGTH] == id.member
    ensures key[8 + ID_LENGTH + 1] == if Prefix(id) <= key then 'p' else if id.role.MemberPhoto? then 'm' else 's'
  {
    PrefixParts(id);
    UploadsParts(id);
    if Prefix(id) <= key {
      var p := Prefix(id);
      assert p == ("members/" + id.member) + ("/photos/" + RoleName(id.role));
      assert p[8 + ID_LENGTH..] == "/photos/" + RoleName(id.role);
      assert p[8 + ID_LENGTH..][1] == 'p';
      assert key[8..8 + ID_LENGTH] == p[8..8 + ID_LENGTH];
    } else {
      assert key[8..8 + ID_LENGTH] == Uploads(id)[8..8 + ID_LENGTH];
    }
  }

  /** An uploaded key is never one of the migration's. */
  lemma PlacesApart(id: SlotId, key: string)
    requires Uploads(id) <= key
    ensures !(Prefix(id) <= key)
  {
    UploadsParts(id);
    assert key[8 + ID_LENGTH + 1] == Uploads(id)[8 + ID_LENGTH + 1] == RoleName(id.role)[0];
    if Prefix(id) <= key {
      PlaceOf(id, key);
    }
    hide Prefix, Uploads;
  }

  /** No key belongs to two slots, whoever wrote it. */
  lemma BelongsSeparate(a: SlotId, b: SlotId, key: string)
    requires Belongs(a, key) && Belongs(b, key)
    ensures a == b
  {
    PlaceOf(a, key);
    PlaceOf(b, key);
    hide Prefix, Uploads;
    if Prefix(a) <= key && Prefix(b) <= key {
      PrefixesSeparate(a, b, key);
    }
  }

  // ---------------------------------------------------------------- what to do with a slot

  /** The links a slot may be copied from, most trusted first. */
  function Candidates(s: Slot, r: Role): seq<Url> {
    (if s.json.Some? then [s.json.value] else []) + (if r.MemberPhoto? then [s.photo] else []) + [s.drive]
  }

  function FirstDrive(links: seq<Url>): Option<Url> {
    if links == [] then None else if links[0].Drive? then Some(links[0]) else FirstDrive(links[1..])
  }

  /** The first Drive link, or else the first candidate whatever it is. */
  function SourceLink(s: Slot, r: Role): Url {
    var found := FirstDrive(Candidates(s, r));
    if found.Some? then found.value else Candidates(s, r)[0]
  }

  /** The sheet names another Drive file than the one migrated last. */
  predicate Changed(s: Slot, r: Role) {
    s.key != "" && SourceLink(s, r).Drive? && s.drive.Drive? && SourceLink(s, r).id != s.drive.id
  }

  function Own(store: map<string, Bytes>, id: SlotId): set<string> {
    set k | k in store && Prefix(id) <= k
  }

  function Find(b: Backend, keys: set<string>): Option<string> {
    if b.lists && keys != {} then Some(b.first(keys)) else None
  }

  datatype Plan = Nothing | Keep(key: string) | Skip | Adopt(key: string) | Fetch(superseding: bool)

  /** The decision both modes share. */
  function Decide(b: Backend, s: Slot, id: SlotId, store: map<string, Bytes>): Plan {
    var source, found := SourceLink(s, id.role), Find(b, Own(store, id));
    if s.key != "" && !Changed(s, id.role) && s.key in store then Keep(s.key)
    else if source.Blank? then Nothing
    else if !source.Drive? then Skip
    else if Changed(s, id.role) then Fetch(true)
    else if found.Some? then Adopt(found.value)
    else Fetch(false)
  }

  function PublicUrl(b: Backend, key: string): Url {
    if b.publicUrls then Hosted(key) else Blank
  }

  /** The slot after its photo is recorded under `key` with serving URL `served`. */
  function Recorded(s: Slot, r: Role, key: string, served: Url): Slot {
    var source := SourceLink(s, r);
    if served == Blank then s.(key := key, drive := source)
    else s.(key := key, drive := source, url := served, json := Some(served),
            photo := if r.MemberPhoto? then served else s.photo)
  }

  /** The serving URL kept for an adopted object: the one on record, unless its own object is gone. */
  function AdoptedUrl(b: Backend, s: Slot, key: string): Url {
    if s.key == "" && s.url != Blank then s.url else PublicUrl(b, key)
  }

  /** Storage after the new object is written and a superseded one, if deletable, removed. */
  function Stored(store: map<string, Bytes>, key: string, content: Bytes, superseded: string,
      deletable: set<string>): map<string, Bytes>
  {
    var grown := store[key := content];
    if superseded != "" && superseded != key && superseded in deletable then grown - {superseded} else grown
  }

  /** One slot of an apply run. */
  function Migrate(b: Backend, a: Answers, w: World, id: SlotId): (r: (World, Option<Outcome>))
    requires id in w.slots
    ensures r.0.slots.Keys == w.slots.Keys
  {
    var s := w.slots[id];
    match Decide(b, s, id, w.store)
    case Nothing => (w, None)
    case Keep(key) => (w, Some(Outcome(id, AlreadyMigrated, Some(key))))
    case Skip => (w, Some(Outcome(id, Skipped, None)))
    case Adopt(key) =>
      (w.(slots := w.slots[id := Recorded(s, id.role, key, AdoptedUrl(b, s, key))]),
       Some(Outcome(id, AlreadyMigrated, Some(key))))
    case Fetch(superseding) =>
      if id !in a.photos then (w, Some(Outcome(id, Failed, None)))
      else
        var key := ObjectKey(id, a.photos[id].fileName);
        (World(w.slots[id := Recorded(s, id.role, key, PublicUrl(b, key))],
               Stored(w.store, key, a.photos[id].content, if superseding then s.key else "", a.deletable)),
         Some(Outcome(id, if superseding then Replaced else Migrated, Some(key))))
  }

  /** One slot of a dry run: what it reports; nothing changes. */
  function Foretell(b: Backend, w: World, id: SlotId): Option<Outcome>
    requires id in w.slots
  {
    match Decide(b, w.slots[id], id, w.store)
    case Nothing => None
    case Keep(key) => Some(Outcome(id, AlreadyMigrated, Some(key)))
    case Skip => Some(Outcome(id, Skipped, None))
    case Adopt(key) => Some(Outcome(id, AlreadyMigrated, Some(key)))
    case Fetch(superseding) => Some(Outcome(id, if superseding then Replaced else Migrated, None))
  }

  function Some1(o: Option<Outcome>): seq<Outcome> {
    if o.Some? then [o.value] else []
  }

  /** An apply run over the slots, one after another. */
  function Apply(b: Backend, a: Answers, w: World, ids: seq<SlotId>): (r: (World, seq<Outcome>))
    requires forall id :: id in ids ==> id in w.slots
    ensures r.0.slots.Keys == w.slots.Keys
  {
    if ids == [] then (w, [])
    else
      var n := |ids| - 1;
      var (v, outs) := Apply(b, a, w, ids[..n]);
      var (next, o) := Migrate(b, a, v, ids[n]);
      (next, outs + Some1(o))
  }

  /** What a dry run reports. */
  function Preview(b: Backend, w: World, ids: seq<SlotId>): seq<Outcome>
    requires forall id :: id in ids ==> id in w.slots
  {
    if ids == [] then [] else Preview(b, w, ids[..|ids| - 1]) + Some1(Foretell(b, w, ids[|ids| - 1]))
  }

  /** Both slots of each member, in order. */
  function SlotsOf(members: seq<MemberId>): seq<SlotId> {
    if members == [] then []
    else
      var last := members[|members| - 1];
      SlotsOf(members[..|members| - 1]) + [SlotId(last, MemberPhoto), SlotId(last, SpousePhoto)]
  }

  // ---------------------------------------------------------------- the service

  function CountOf(outcomes: seq<Outcome>, st: Status): nat {
    if outcomes == [] then 0
    else CountOf(outcomes[..|outcomes| - 1], st) + if outcomes[|outcomes| - 1].status == st then 1 else 0
  }

  /** The migration over the member table and the object store, both updated in place. */
  class DrivePhotoMigration {
    const backend: Backend
    var slots: map<SlotId, Slot>
    var store: map<string, Bytes>
    var migrated: nat
    var already: nat
    var replaced: nat
    var skipped: nat
    var failed: nat
    var outcomes: seq<Outcome>

    constructor (backend: Backend, slots: map<SlotId, Slot>, store: map<string, Bytes>)
      ensures this.backend == backend && Now() == World(slots, store) && outcomes == [] && Counted()
    {
      this.backend := backend;
      this.slots, this.store := slots, store;
      migrated, already, replaced, skipped, failed, outcomes := 0, 0, 0, 0, 0, [];
    }

    function Now(): World
      reads this
    {
      World(slots, store)
    }

    /** Each counter counts the outcomes of its status. */
    predicate Counted()
      reads this`outcomes, this`migrated, this`already, this`replaced, this`skipped, this`failed
    {
      && migrated == CountOf(outcomes, Migrated) && already == CountOf(outcomes, AlreadyMigrated)
      && replaced == CountOf(outcomes, Replaced) && skipped == CountOf(outcomes, Skipped)
      && failed == CountOf(outcomes, Failed)
    }

    /** Delete a superseded object, best effort. */
    method DiscardObject(key: string, deletable: set<string>)
      modifies this`store
      ensures store == if key in deletable then old(store) - {key} else old(store)
    {
      if key in deletable {
        store := store - {key};
      }
    }

    method Finish(id: SlotId, key: string, served: Url, source: Url)
      requires id in slots && source == SourceLink(slots[id], id.role)
      modifies this`slots
      ensures slots == old(slots)[id := Recorded(old(slots)[id], id.role, key, served)]
    {
      var s := slots[id].(key := key);
      s := s.(drive := source);
      if served != Blank {
        s := s.(url := served, json := Some(served));
        if id.role.MemberPhoto? {
          s := s.(photo := served);
        }
      }
      slots := slots[id := s];
    }

    method MigrateOne(id: SlotId, dryRun: bool, a: Answers) returns (outcome: Option<Outcome>)
      requires id in slots
      modifies this`slots, this`store
      ensures dryRun ==> Now() == old(Now()) && outcome == Foretell(backend, old(Now()), id)
      ensures !dryRun ==> (Now(), outcome) == Migrate(backend, a, old(Now()), id)
    {
      var s := slots[id];
      var source := SourceLink(s, id.role);
      var key, url := s.key, s.url;
      var isReplaced := key != "" && source.Drive? && s.drive.Drive? && source.id != s.drive.id;
      if key != "" && !isReplaced {
        if key in store {
          return Some(Outcome(id, AlreadyMigrated, Some(key)));
        }
        key, url := "", Blank;
      }
      if source.Blank? {
        return None;
      }
      if source.Direct? {
        return Some(Outcome(id, Skipped, None));
      }
      if !source.Drive? {
        return Some(Outcome(id, Skipped, None));
      }
      if !isReplaced {
        var existing := if key != "" then Some(key) else Find(backend, Own(store, id));
        if existing.Some? {
          if !dryRun {
            Finish(id, existing.value, if url != Blank then url else PublicUrl(backend, existing.value), source);
          }
          return Some(Outcome(id, AlreadyMigrated, Some(existing.value)));
        }
      }
      if dryRun {
        return Some(Outcome(id, if isReplaced then Replaced else Migrated, None));
      }
      if id !in a.photos {
        return Some(Outcome(id, Failed, None));
      }
      var photo := a.photos[id];
      var objectKey := ObjectKey(id, photo.fileName);
      store := store[objectKey := photo.content];
      if isReplaced && key != "" && key != objectKey {
        DiscardObject(key, a.deletable);
      }
      Finish(id, objectKey, PublicUrl(backend, objectKey), source);
      outcome := Some(Outcome(id, if isReplaced then Replaced else Migrated, Some(objectKey)));
    }

    /** Record an outcome and bump the counter of its status. */
    method Report(outcome: Option<Outcome>)
      requires Counted()
      modifies this`outcomes, this`migrated, this`already, this`replaced, this`skipped, this`failed
      ensures Counted() && outcomes == old(outcomes) + Some1(outcome)
    {
      if outcome.None? {
        return;
      }
      ghost var before := outcomes;
      outcomes := outcomes + [outcome.value];
      CountNext(before, outcome.value);
      hide CountOf;
      match outcome.value.status {
        case Migrated => migrated := migrated + 1;
        case AlreadyMigrated => already := already + 1;
        case Replaced => replaced := replaced + 1;
        case Skipped => skipped := skipped + 1;
        case Failed => failed := failed + 1;
      }
    }

    /** Both photo slots of one member. */
    method MigrateMember(member: MemberId, dryRun: bool, a: Answers)
      requires Counted()
      requires SlotId(member, MemberPhoto) in slots && SlotId(member, SpousePhoto) in slots
      modifies this
      ensures Counted()
      ensures Visited(backend, a, dryRun, old(Now()), old(outcomes), member, Now(), outcomes)
    {
      hide Counted, Migrate, Foretell;
      var outcome := MigrateOne(SlotId(member, MemberPhoto), dryRun, a);
      Report(outcome);
      outcome := MigrateOne(SlotId(member, SpousePhoto), dryRun, a);
      Report(outcome);
    }

    /** The first `i` members of a run that began in `start` are done. */
    ghost predicate Underway(members: seq<MemberId>, i: nat, dryRun: bool, a: Answers, start: World)
      reads this
    {
      && i <= |members| && Counted()
      && (forall id :: id in SlotsOf(members) ==> id in start.slots)
      && Ran(backend, a, dryRun, start, SlotsOf(members[..i]), Now(), outcomes)
    }

    /** The loop body. */
    method MigrateNext(members: seq<MemberId>, i: nat, dryRun: bool, a: Answers, ghost start: World)
      requires i < |members| && Underway(members, i, dryRun, a, start)
      modifies this
      ensures Underway(members, i + 1, dryRun, a, start)
    {
      SlotsListed(members, i);
      RanKeys(backend, a, dryRun, start, SlotsOf(members[..i]), Now(), outcomes);
      ghost var w, outs := Now(), outcomes;
      hide Counted, Visited, Ran, SlotsOf;
      MigrateMember(members[i], dryRun, a);
      RanStep(backend, a, dryRun, start, SlotsOf(members[..i]), w, outs, members[i], Now(), outcomes);
    }

    /** One run over the members, with a fresh summary. */
    method Run(members: seq<MemberId>, dryRun: bool, a: Answers)
      requires forall id :: id in SlotsOf(members) ==> id in slots
      modifies this
      ensures Counted()
      ensures Ran(backend, a, dryRun, old(Now()), SlotsOf(members), Now(), outcomes)
    {
      ghost var start := Now();
      StartSummary();
      RunStarts(backend, a, dryRun, start, members);
      assert members[..|members|] == members;
      for i := 0 to |members|
        invariant Underway(members, i, dryRun, a, start)
      {
        hide *;
        MigrateNext(members, i, dryRun, a, start);
      }
    }

    method StartSummary()
      modifies this
      ensures Now() == old(Now()) && Counted() && outcomes == []
    {
      migrated, already, replaced, skipped, failed, outcomes := 0, 0, 0, 0, 0, [];
    }
  }

  lemma CountNext(outcomes: seq<Outcome>, o: Outcome)
    ensures forall st :: CountOf(outcomes + [o], st) == CountOf(outcomes, st) + if o.status == st then 1 else 0
  {
    assert (outcomes + [o])[..|outcomes|] == outcomes;
  }

  /** One member's slots have been gone through. */
  ghost predicate Visited(b: Backend, a: Answers, dryRun: bool, w: World, outs: seq<Outcome>, member: MemberId,
      next: World, more: seq<Outcome>)
    requires SlotId(member, MemberPhoto) in w.slots && SlotId(member, SpousePhoto) in w.slots
  {
    var one, two := SlotId(member, MemberPhoto), SlotId(member, SpousePhoto);
    if dryRun then next == w && more == outs + Some1(Foretell(b, w, one)) + Some1(Foretell(b, w, two))
    else
      var (v, first) := Migrate(b, a, w, one);
      var (u, second) := Migrate(b, a, v, two);
      next == u && more == outs + Some1(first) + Some1(second)
  }

  /** A run over the slots has ended, or come so far. */
  ghost predicate Ran(b: Backend, a: Answers, dryRun: bool, start: World, ids: seq<SlotId>, w: World,
      outs: seq<Outcome>)
  {
    && (forall id :: id in ids ==> id in start.slots)
    && if dryRun then w == start && outs == Preview(b, start, ids) else (w, outs) == Apply(b, a, start, ids)
  }

  lemma RunStarts(b: Backend, a: Answers, dryRun: bool, w: World, members: seq<MemberId>)
    ensures Ran(b, a, dryRun, w, SlotsOf(members[..0]), w, [])
  {
  }

  lemma RanKeys(b: Backend, a: Answers, dryRun: bool, start: World, ids: seq<SlotId>, w: World, outs: seq<Outcome>)
    requires Ran(b, a, dryRun, start, ids, w, outs)
    ensures w.slots.Keys == start.slots.Keys
  {
  }

  lemma RanStep(b: Backend, a: Answers, dryRun: bool, start: World, ids: seq<SlotId>, w: World, outs: seq<Outcome>,
      member: MemberId, next: World, more: seq<Outcome>)
    requires Ran(b, a, dryRun, start, ids, w, outs)
    requires SlotId(member, MemberPhoto) in w.slots && SlotId(member, SpousePhoto) in w.slots
    requires Visited(b, a, dryRun, w, outs, member, next, more)
    ensures Ran(b, a, dryRun, start, ids + [SlotId(member, MemberPhoto), SlotId(member, SpousePhoto)], next, more)
  {
    var one, two := SlotId(member, MemberPhoto), SlotId(member, SpousePhoto);
    RanKeys(b, a, dryRun, start, ids, w, outs);
    hide Foretell, Migrate;
    assert ids + [one, two] == (ids + [one]) + [two];
    if dryRun {
      PreviewStep(b, start, ids, one);
      PreviewStep(b, start, ids + [one], two);
    } else {
      ApplyStep(b, a, start, ids, one);
      ApplyStep(b, a, start, ids + [one], two);
    }
    hide Preview, Apply;
  }

  lemma PreviewStep(b: Backend, w: World, ids: seq<SlotId>, id: SlotId)
    requires (forall i :: i in ids ==> i in w.slots) && id in w.slots
    ensures Preview(b, w, ids + [id]) == Preview(b, w, ids) + Some1(Foretell(b, w, id))
  {
    assert (ids + [id])[..|ids|] == ids;
    hide Foretell;
  }

  lemma ApplyStep(b: Backend, a: Answers, w: World, ids: seq<SlotId>, id: SlotId)
    requires (forall i :: i in ids ==> i in w.slots) && id in w.slots
    ensures var (v, outs) := Apply(b, a, w, ids);
      var (next, o) := Migrate(b, a, v, id);
      Apply(b, a, w, ids + [id]) == (next, outs + Some1(o))
  {
    assert (ids + [id])[..|ids|] == ids;
    hide Migrate;
  }

  lemma {:induction false} SlotsPrefix(members: seq<MemberId>, i: nat)
    requires i <= |members|
    ensures forall id :: id in SlotsOf(members[..i]) ==> id in SlotsOf(members)
  {
    if i < |members| {
      var n := |members| - 1;
      assert members[..n][..i] == members[..i];
      SlotsPrefix(members[..n], i);
    } else {
      assert members[..i] == members;
    }
  }

  lemma SlotsListed(members: seq<MemberId>, i: nat)
    requires i < |members|
    ensures SlotsOf(members[..i + 1]) ==
      SlotsOf(members[..i]) + [SlotId(members[i], MemberPhoto), SlotId(members[i], SpousePhoto)]
    ensures SlotId(members[i], MemberPhoto) in SlotsOf(members) && SlotId(members[i], SpousePhoto) in SlotsOf(members)
  {
    assert members[..i + 1][..i] == members[..i];
    SlotsPrefix(members, i + 1);
    var both := [SlotId(members[i], MemberPhoto), SlotId(members[i], SpousePhoto)];
    assert both[0] in SlotsOf(members[..i + 1]) && both[1] in SlotsOf(members[..i + 1]);
  }
}
