/** What photo migration runs keep, and how dry runs and repeated runs relate to them. */
module PhotoRuns {
  import opened Common
  import opened PhotoMigration

  /** A recorded key is one of the slot's own, and the serving column holds no Drive link. */
  predicate SoundSlot(id: SlotId, s: Slot) {
    && (s.key != "" ==> Belongs(id, s.key))
    && !s.url.Drive?
  }

  ghost predicate Sound(w: World) {
    forall id :: id in w.slots ==> SoundSlot(id, w.slots[id])
  }

  /** The stored objects of a slot. */
  function OwnObjects(store: map<string, Bytes>, id: SlotId): map<string, Bytes> {
    map k | k in store && Belongs(id, k) :: store[k]
  }

  /** Both worlds agree on everything that belongs to the slot. */
  predicate SameFor(v: World, w: World, id: SlotId) {
    id in v.slots && id in w.slots && v.slots[id] == w.slots[id] && OwnObjects(v.store, id) == OwnObjects(w.store, id)
  }

  predicate Present(w: World, id: SlotId) {
    id in w.slots && w.slots[id].key != "" && w.slots[id].key in w.store
  }

  predicate Succeeded(o: Outcome) {
    o.status in {Migrated, AlreadyMigrated, Replaced}
  }

  // ---------------------------------------------------------------- one slot

  lemma OwnIsOwnObjects(store: map<string, Bytes>, id: SlotId)
    ensures Own(store, id) == set k | k in OwnObjects(store, id) && Prefix(id) <= k
  {
  }

  lemma DecideLocal(b: Backend, v: World, w: World, id: SlotId)
    requires SameFor(v, w, id) && SoundSlot(id, v.slots[id])
    ensures Decide(b, v.slots[id], id, v.store) == Decide(b, w.slots[id], id, w.store)
  {
    OwnIsOwnObjects(v.store, id);
    OwnIsOwnObjects(w.store, id);
    var key := v.slots[id].key;
    if key != "" {
      assert key in v.store <==> key in OwnObjects(v.store, id);
      assert key in w.store <==> key in OwnObjects(w.store, id);
    }
    hide OwnObjects, Own, Changed, SourceLink, Find;
  }

  /** Storing a slot's object and discarding the superseded one touches no other slot's objects. */
  lemma StoredElsewhere(store: map<string, Bytes>, id: SlotId, key: string, content: Bytes, superseded: string,
      deletable: set<string>, other: SlotId)
    requires id != other && Belongs(id, key) && (superseded != "" ==> Belongs(id, superseded))
    ensures OwnObjects(Stored(store, key, content, superseded, deletable), other) == OwnObjects(store, other)
  {
    if Belongs(other, key) {
      BelongsSeparate(id, other, key);
    }
    if superseded != "" && Belongs(other, superseded) {
      BelongsSeparate(id, other, superseded);
    }
    hide Belongs;
  }

  lemma StoredSame(s1: map<string, Bytes>, s2: map<string, Bytes>, id: SlotId, key: string, content: Bytes,
      superseded: string, deletable: set<string>)
    requires OwnObjects(s1, id) == OwnObjects(s2, id)
    ensures OwnObjects(Stored(s1, key, content, superseded, deletable), id)
      == OwnObjects(Stored(s2, key, content, superseded, deletable), id)
  {
    var t1, t2 := Stored(s1, key, content, superseded, deletable), Stored(s2, key, content, superseded, deletable);
    forall k | Belongs(id, k)
      ensures k in t1 <==> k in t2
      ensures k in t1 ==> t1[k] == t2[k]
    {
      assert k in s1 <==> k in OwnObjects(s1, id);
      assert k in s2 <==> k in OwnObjects(s2, id);
      assert k in s1 ==> s1[k] == OwnObjects(s1, id)[k];
      assert k in s2 ==> s2[k] == OwnObjects(s2, id)[k];
    }
    hide Belongs, Stored;
  }

  lemma AdoptedIsOwn(b: Backend, s: Slot, id: SlotId, store: map<string, Bytes>)
    requires Lists(b) && Decide(b, s, id, store).Adopt?
    ensures var key := Decide(b, s, id, store).key; key in store && Prefix(id) <= key
  {
  }

  lemma PrefixNotEmpty(id: SlotId)
    ensures Prefix(id) != ""
  {
    PrefixParts(id);
  }

  lemma FetchFrame(b: Backend, a: Answers, w: World, id: SlotId, superseding: bool)
    requires Sound(w) && id in w.slots && id in a.photos
    ensures Prefix(id) <= ObjectKey(id, a.photos[id].fileName)
    ensures var key := ObjectKey(id, a.photos[id].fileName);
      forall other :: other in w.slots && other != id ==>
        OwnObjects(Stored(w.store, key, a.photos[id].content,
                          if superseding then w.slots[id].key else "", a.deletable), other)
          == OwnObjects(w.store, other)
  {
    var s, key := w.slots[id], ObjectKey(id, a.photos[id].fileName);
    assert SoundSlot(id, s);
    forall other | other in w.slots && other != id
      ensures OwnObjects(Stored(w.store, key, a.photos[id].content,
                                if superseding then s.key else "", a.deletable), other)
        == OwnObjects(w.store, other)
    {
      StoredElsewhere(w.store, id, key, a.photos[id].content, if superseding then s.key else "", a.deletable, other);
    }
    hide Stored, OwnObjects;
  }

  /** Migrating a slot keeps the world sound and touches nothing of another slot, record or object. */
  lemma MigrateFrame(b: Backend, a: Answers, w: World, id: SlotId)
    requires Sound(w) && Lists(b) && id in w.slots
    ensures Sound(Migrate(b, a, w, id).0)
    ensures forall other :: other in w.slots && other != id ==> SameFor(Migrate(b, a, w, id).0, w, other)
  {
    var s := w.slots[id];
    assert SoundSlot(id, s);
    match Decide(b, s, id, w.store)
    case Nothing =>
    case Keep(_) =>
    case Skip =>
    case Adopt(key) => AdoptedIsOwn(b, s, id, w.store);
    case Fetch(superseding) =>
      if id in a.photos {
        FetchFrame(b, a, w, id, superseding);
      }
      hide Stored, ObjectKey, OwnObjects;
  }

  /** What happens to a slot depends on nothing that belongs to another slot. */
  lemma MigrateLocal(b: Backend, a: Answers, v: World, w: World, id: SlotId)
    requires SameFor(v, w, id) && SoundSlot(id, v.slots[id])
    ensures Migrate(b, a, v, id).1 == Migrate(b, a, w, id).1
    ensures SameFor(Migrate(b, a, v, id).0, Migrate(b, a, w, id).0, id)
  {
    var s := v.slots[id];
    DecideLocal(b, v, w, id);
    var plan := Decide(b, s, id, v.store);
    if plan.Fetch? && id in a.photos {
      var photo := a.photos[id];
      StoredSame(v.store, w.store, id, ObjectKey(id, photo.fileName), photo.content,
                 if plan.superseding then s.key else "", a.deletable);
    }
    hide OwnObjects, Decide, Stored, ObjectKey, Recorded;
  }

  /** A slot that succeeds records the reported key, and its object is in storage. */
  lemma SuccessIsPresent(b: Backend, a: Answers, w: World, id: SlotId)
    requires Sound(w) && Lists(b) && id in w.slots
    ensures var (next, o) := Migrate(b, a, w, id);
      && (o.Some? ==> o.value.slot == id)
      && (o.Some? && Succeeded(o.value) ==> Present(next, id) && o.value.key == Some(next.slots[id].key))
      && (o.Some? && !Succeeded(o.value) ==> next == w)
  {
    PrefixNotEmpty(id);
    var plan := Decide(b, w.slots[id], id, w.store);
    if plan.Adopt? {
      AdoptedIsOwn(b, w.slots[id], id, w.store);
    } else if plan.Fetch? && id in a.photos {
      assert ObjectKey(id, a.photos[id].fileName) != "";
    }
    KeepIsThere(b, w.slots[id], id, w.store);
    hide Prefix, SourceLink, Find, Own, ObjectKey, Decide, Sound;
  }

  lemma KeepIsThere(b: Backend, s: Slot, id: SlotId, store: map<string, Bytes>)
    ensures Decide(b, s, id, store).Keep? ==> s.key != "" && s.key in store && Decide(b, s, id, store).key == s.key
  {
  }

  /** A recorded object that is there stays there, or is replaced by one that is. */
  lemma MigrateKeepsPresent(b: Backend, a: Answers, w: World, id: SlotId, other: SlotId)
    requires Sound(w) && Lists(b) && id in w.slots && Present(w, other)
    ensures Present(Migrate(b, a, w, id).0, other)
  {
    var next := Migrate(b, a, w, id).0;
    if other == id {
      SuccessIsPresent(b, a, w, id);
      NothingChangesNothing(b, a, w, id);
    } else {
      MigrateFrame(b, a, w, id);
      assert SoundSlot(other, w.slots[other]);
      assert w.slots[other].key in OwnObjects(w.store, other);
      assert w.slots[other].key in OwnObjects(next.store, other);
    }
    hide Migrate;
  }

  lemma NothingChangesNothing(b: Backend, a: Answers, w: World, id: SlotId)
    requires id in w.slots
    ensures Migrate(b, a, w, id).1.None? ==> Migrate(b, a, w, id).0 == w
  {
    hide Decide;
  }

  // ---------------------------------------------------------------- whole runs

  /** One run's slots exist and are not listed twice. */
  ghost predicate RunOf(w: World, ids: seq<SlotId>) {
    Distinct(ids) && forall id :: id in ids ==> id in w.slots
  }

  /** What each slot would report if it were alone in the run. */
  function Alone(b: Backend, a: Answers, w: World, ids: seq<SlotId>): seq<Outcome>
    requires forall id :: id in ids ==> id in w.slots
  {
    if ids == [] then [] else Alone(b, a, w, ids[..|ids| - 1]) + Some1(Migrate(b, a, w, ids[|ids| - 1]).1)
  }

  lemma RunOfFront(w: World, ids: seq<SlotId>)
    requires RunOf(w, ids) && ids != []
    ensures var n := |ids| - 1; RunOf(w, ids[..n]) && ids[n] !in ids[..n] && ids[n] in w.slots
    ensures forall id :: id in ids <==> id in ids[..|ids| - 1] || id == ids[|ids| - 1]
  {
    assert ids == ids[..|ids| - 1] + [ids[|ids| - 1]];
  }

  lemma SameForTrans(u: World, v: World, w: World, id: SlotId)
    requires SameFor(u, v, id) && SameFor(v, w, id)
    ensures SameFor(u, w, id)
  {
  }

  /**
   * A run does to each slot, in the table, in storage and in its report, what it would do to the
   * slot alone, and leaves the other slots as they are: the order of the slots does not matter.
   */
  lemma {:induction false} RunIsSlotwise(b: Backend, a: Answers, w: World, ids: seq<SlotId>)
    requires Sound(w) && Lists(b) && RunOf(w, ids)
    ensures var (after, outs) := Apply(b, a, w, ids);
      && Sound(after) && outs == Alone(b, a, w, ids)
      && (forall id :: id in ids ==> SameFor(after, Migrate(b, a, w, id).0, id))
      && (forall id :: id in w.slots && id !in ids ==> SameFor(after, w, id))
  {
    if ids != [] {
      var n := |ids| - 1;
      RunOfFront(w, ids);
      RunIsSlotwise(b, a, w, ids[..n]);
      var v := Apply(b, a, w, ids[..n]).0;
      SlotwiseStep(b, a, w, v, ids[..n], ids[n]);
      hide Migrate, Sound, SameFor, RunOf, Lists;
    }
  }

  lemma SlotwiseStep(b: Backend, a: Answers, w: World, v: World, ids: seq<SlotId>, last: SlotId)
    requires Sound(w) && Sound(v) && Lists(b) && last in w.slots && last !in ids && v.slots.Keys == w.slots.Keys
    requires forall id :: id in ids ==> id in w.slots
    requires forall id :: id in ids ==> SameFor(v, Migrate(b, a, w, id).0, id)
    requires forall id :: id in w.slots && id !in ids ==> SameFor(v, w, id)
    ensures var after := Migrate(b, a, v, last).0;
      && Sound(after) && Migrate(b, a, v, last).1 == Migrate(b, a, w, last).1
      && (forall id :: id in ids || id == last ==> SameFor(after, Migrate(b, a, w, id).0, id))
      && (forall id :: id in w.slots && id !in ids && id != last ==> SameFor(after, w, id))
  {
    var after := Migrate(b, a, v, last).0;
    assert SoundSlot(last, v.slots[last]);
    MigrateFrame(b, a, v, last);
    MigrateLocal(b, a, v, w, last);
    hide Migrate, Sound, SameFor, Lists;
    forall id | id in ids
      ensures SameFor(after, Migrate(b, a, w, id).0, id)
    {
      SameForTrans(after, v, Migrate(b, a, w, id).0, id);
    }
    forall id | id in w.slots && id !in ids && id != last
      ensures SameFor(after, w, id)
    {
      SameForTrans(after, v, w, id);
    }
  }

  lemma {:induction false} AloneFrom(b: Backend, a: Answers, w: World, ids: seq<SlotId>, o: Outcome)
    requires (forall id :: id in ids ==> id in w.slots) && o in Alone(b, a, w, ids)
    ensures exists id :: id in ids && Migrate(b, a, w, id).1 == Some(o)
  {
    var n := |ids| - 1;
    if o in Alone(b, a, w, ids[..n]) {
      AloneFrom(b, a, w, ids[..n], o);
    } else {
      assert Migrate(b, a, w, ids[n]).1 == Some(o);
    }
    hide Migrate;
  }

  /**
   * Every slot a run reports migrated, replaced or already migrated records the reported key, whose
   * object is in storage when the run ends; a failed or skipped slot keeps its record and objects.
   */
  lemma PointerIntegrity(b: Backend, a: Answers, w: World, ids: seq<SlotId>, o: Outcome)
    requires Sound(w) && Lists(b) && RunOf(w, ids) && o in Apply(b, a, w, ids).1
    ensures var after := Apply(b, a, w, ids).0;
      && o.slot in ids
      && (Succeeded(o) ==> Present(after, o.slot) && o.key == Some(after.slots[o.slot].key))
      && (!Succeeded(o) ==> SameFor(after, w, o.slot))
  {
    RunIsSlotwise(b, a, w, ids);
    AloneFrom(b, a, w, ids, o);
    var after := Apply(b, a, w, ids).0;
    hide Migrate, Alone, Apply;
    var id :| id in ids && Migrate(b, a, w, id).1 == Some(o);
    SuccessIsPresent(b, a, w, id);
    assert SameFor(after, Migrate(b, a, w, id).0, id);
    if Succeeded(o) {
      PresentLocal(Migrate(b, a, w, id).0, after, id);
    }
  }

  lemma PresentLocal(v: World, w: World, id: SlotId)
    requires SameFor(w, v, id) && Present(v, id) && Sound(w)
    ensures Present(w, id)
  {
    assert SoundSlot(id, w.slots[id]);
    assert v.slots[id].key in OwnObjects(v.store, id);
  }

  // ---------------------------------------------------------------- sequences of runs

  /**
   * Between runs the sheet may change the links of a slot, and the upload API may store a photo or
   * remove one.  `served` is the URL an upload is served from, which fills the serving column only
   * when it is absolute.
   */
  datatype Event =
    | Edit(slot: SlotId, json: Option<Url>, photo: Url)
    | Upload(slot: SlotId, name: string, content: Bytes, served: Url, absolute: bool, deletable: set<string>)
    | Removal(slot: SlotId, deletable: set<string>)
    | Run(answers: Answers, slots: seq<SlotId>)

  /** Every event is about stored slots, and uploads are not served from Drive. */
  ghost predicate Playable(w: World, events: seq<Event>) {
    forall e :: e in events ==>
      && (if e.Run? then forall id :: id in e.slots ==> id in w.slots else e.slot in w.slots)
      && (e.Upload? ==> !e.served.Drive?)
  }

  /** The slot's columns after the upload API has written a serving URL and a key, or cleared both. */
  function Written(s: Slot, r: Role, key: string, json: Option<Url>, shown: Url, url: Url): Slot {
    s.(key := key, url := url, json := json, photo := if r.MemberPhoto? then shown else s.photo)
  }

  /** The new object is stored under a key of its own, the previous one discarded, best effort. */
  function Uploaded(w: World, id: SlotId, name: string, content: Bytes, served: Url, absolute: bool,
      deletable: set<string>): World
    requires id in w.slots
  {
    var s, key := w.slots[id], Uploads(id) + name;
    World(w.slots[id := Written(s, id.role, key, Some(served), served, if absolute then served else Blank)],
          Stored(w.store, key, content, s.key, deletable))
  }

  /** The columns are cleared, all but the Drive link of the last migration, and the object discarded. */
  function Removed(w: World, id: SlotId, deletable: set<string>): World
    requires id in w.slots
  {
    var s := w.slots[id];
    World(w.slots[id := Written(s, id.role, "", None, Blank, Blank)],
          if s.key in deletable then w.store - {s.key} else w.store)
  }

  function Play(b: Backend, w: World, events: seq<Event>): (r: World)
    requires Playable(w, events)
    ensures r.slots.Keys == w.slots.Keys
  {
    if events == [] then w
    else
      var v, e := Play(b, w, events[..|events| - 1]), events[|events| - 1];
      match e
      case Edit(id, json, photo) => v.(slots := v.slots[id := v.slots[id].(json := json, photo := photo)])
      case Upload(id, name, content, served, absolute, deletable) =>
        Uploaded(v, id, name, content, served, absolute, deletable)
      case Removal(id, deletable) => Removed(v, id, deletable)
      case Run(answers, ids) => Apply(b, answers, v, ids).0
  }

  predicate Clears(e: Event, id: SlotId) { e.Removal? && e.slot == id }

  lemma UploadBelongs(id: SlotId, name: string)
    ensures Belongs(id, Uploads(id) + name) && Uploads(id) + name != ""
  {
  }

  /** An upload to one slot touches no other slot and leaves its own object in storage. */
  lemma UploadKeeps(w: World, id: SlotId, name: string, content: Bytes, served: Url, absolute: bool,
      deletable: set<string>)
    requires Sound(w) && id in w.slots && !served.Drive?
    ensures var after := Uploaded(w, id, name, content, served, absolute, deletable);
      && Sound(after) && Present(after, id)
      && forall other :: other in w.slots && other != id ==> SameFor(after, w, other)
  {
    UploadBelongs(id, name);
    SoundAt(w, id);
    forall other | other in w.slots && other != id
      ensures OwnObjects(Stored(w.store, Uploads(id) + name, content, w.slots[id].key, deletable), other)
        == OwnObjects(w.store, other)
    {
      StoredElsewhere(w.store, id, Uploads(id) + name, content, w.slots[id].key, deletable, other);
    }
    hide Belongs, OwnObjects, Uploads;
  }

  /** So does a removal, which clears its own slot. */
  lemma RemovalKeeps(w: World, id: SlotId, deletable: set<string>)
    requires Sound(w) && id in w.slots
    ensures var after := Removed(w, id, deletable);
      && Sound(after) && forall other :: other in w.slots && other != id ==> SameFor(after, w, other)
  {
    SoundAt(w, id);
    var after, key := Removed(w, id, deletable), w.slots[id].key;
    forall other | other in w.slots && other != id
      ensures OwnObjects(after.store, other) == OwnObjects(w.store, other)
    {
      if Belongs(other, key) && key != "" {
        BelongsSeparate(id, other, key);
      }
      PlaceOfNothing(other);
    }
    hide Belongs;
  }

  lemma PlaceOfNothing(id: SlotId)
    ensures !Belongs(id, "")
  {
    if Belongs(id, "") {
      PlaceOf(id, "");
    }
  }

  /** Every other slot's recorded object stays when a slot's own things are all that changes. */
  lemma OthersStayPresent(w: World, after: World, id: SlotId)
    requires Sound(w) && after.slots.Keys == w.slots.Keys
    requires forall other :: other in w.slots && other != id ==> SameFor(after, w, other)
    ensures forall other :: other != id && Present(w, other) ==> Present(after, other)
  {
    forall other | other != id && Present(w, other)
      ensures Present(after, other)
    {
      SoundAt(w, other);
      assert w.slots[other].key in OwnObjects(w.store, other);
      assert w.slots[other].key in OwnObjects(after.store, other);
    }
    hide Belongs;
  }

  lemma {:induction false} RunKeepsPresent(b: Backend, a: Answers, w: World, ids: seq<SlotId>)
    requires Sound(w) && Lists(b) && forall id :: id in ids ==> id in w.slots
    ensures var after := Apply(b, a, w, ids).0;
      Sound(after) && forall id :: Present(w, id) ==> Present(after, id)
  {
    if ids != [] {
      var n := |ids| - 1;
      RunKeepsPresent(b, a, w, ids[..n]);
      var v := Apply(b, a, w, ids[..n]).0;
      MigrateFrame(b, a, v, ids[n]);
      hide Migrate, Sound, SameFor, Lists, Present;
      forall id | Present(w, id)
        ensures Present(Migrate(b, a, v, ids[n]).0, id)
      {
        MigrateKeepsPresent(b, a, v, ids[n], id);
      }
    }
  }

  lemma EventKeepsPresent(b: Backend, w: World, e: Event)
    requires Sound(w) && Lists(b) && Playable(w, [e])
    ensures var after := Play(b, w, [e]);
      Sound(after) && forall id :: Present(w, id) && !Clears(e, id) ==> Present(after, id)
  {
    assert e in [e] && [e][..0] == [];
    assert Play(b, w, [e][..0]) == w;
    match e
    case Edit(id, json, photo) =>
    case Upload(id, name, content, served, absolute, deletable) =>
      UploadKeeps(w, id, name, content, served, absolute, deletable);
      OthersStayPresent(w, Uploaded(w, id, name, content, served, absolute, deletable), id);
    case Removal(id, deletable) =>
      RemovalKeeps(w, id, deletable);
      OthersStayPresent(w, Removed(w, id, deletable), id);
    case Run(answers, ids) => RunKeepsPresent(b, answers, w, ids);
    hide Uploaded, Removed, Apply, SameFor;
  }

  lemma PlayLast(b: Backend, w: World, events: seq<Event>)
    requires Playable(w, events) && events != []
    ensures var n := |events| - 1;
      && Playable(w, events[..n])
      && Playable(Play(b, w, events[..n]), [events[n]])
      && Play(b, w, events) == Play(b, Play(b, w, events[..n]), [events[n]])
  {
    var n := |events| - 1;
    var v, e := Play(b, w, events[..n]), events[n];
    assert [e][..0] == [];
    assert Play(b, v, []) == v;
    hide Apply, Uploaded, Removed;
  }

  /**
   * A photo once recorded with its object in storage stays so through every later run, sheet edit
   * and upload, until it is removed.
   */
  lemma {:induction false} PresentForever(b: Backend, w: World, events: seq<Event>)
    requires Sound(w) && Lists(b)
    requires Playable(w, events)
    ensures var after := Play(b, w, events);
      Sound(after) && forall id :: Present(w, id) && (forall e :: e in events ==> !Clears(e, id)) ==> Present(after, id)
  {
    if events != [] {
      var n := |events| - 1;
      PlayLast(b, w, events);
      PresentForever(b, w, events[..n]);
      EventKeepsPresent(b, Play(b, w, events[..n]), events[n]);
      hide Play, Sound, Present, Playable, Clears;
    }
  }

  /**
   * Wherever in a sequence of runs, sheet edits, uploads and removals a slot is reported migrated,
   * replaced or already migrated, it records a key whose object is in storage at the end, unless
   * its photo has been removed since.
   */
  lemma ReportedStaysPresent(b: Backend, w: World, earlier: seq<Event>, a: Answers, ids: seq<SlotId>,
      later: seq<Event>, o: Outcome)
    requires Sound(w) && Lists(b) && Playable(w, earlier) && Playable(w, later) && RunOf(w, ids)
    requires o in Apply(b, a, Play(b, w, earlier), ids).1 && Succeeded(o)
    requires forall e :: e in later ==> !Clears(e, o.slot)
    ensures Present(Play(b, Apply(b, a, Play(b, w, earlier), ids).0, later), o.slot)
  {
    PresentForever(b, w, earlier);
    var v := Play(b, w, earlier);
    PointerIntegrity(b, a, v, ids, o);
    RunIsSlotwise(b, a, v, ids);
    PresentForever(b, Apply(b, a, v, ids).0, later);
    hide *;
  }

  // ---------------------------------------------------------------- the dry run

  /** What a dry run reports against what the apply run reports for the same slot. */
  predicate Foretold(a: Answers, dry: Outcome, wet: Outcome) {
    && wet.slot == dry.slot
    && wet.status == (if dry.status in {Migrated, Replaced} && dry.slot !in a.photos then Failed else dry.status)
    && (dry.key.Some? ==> wet.key == dry.key)
  }

  lemma SlotForetold(b: Backend, a: Answers, w: World, id: SlotId)
    requires id in w.slots
    ensures var dry, wet := Foretell(b, w, id), Migrate(b, a, w, id).1;
      (dry.Some? <==> wet.Some?) && (dry.Some? ==> Foretold(a, dry.value, wet.value))
  {
    hide Decide;
  }

  /**
   * A dry run, which changes nothing, predicts the apply run outcome by outcome: the same slots in
   * the same order with the same status, except that a photo to be fetched fails if its download does.
   */
  lemma {:induction false} DryRunForetells(b: Backend, a: Answers, w: World, ids: seq<SlotId>)
    requires Sound(w) && Lists(b) && RunOf(w, ids)
    ensures var dry, wet := Preview(b, w, ids), Apply(b, a, w, ids).1;
      |dry| == |wet| && forall i :: 0 <= i < |dry| ==> Foretold(a, dry[i], wet[i])
  {
    RunIsSlotwise(b, a, w, ids);
    PreviewAlone(b, a, w, ids);
    hide *;
  }

  lemma {:induction false} PreviewAlone(b: Backend, a: Answers, w: World, ids: seq<SlotId>)
    requires forall id :: id in ids ==> id in w.slots
    ensures var dry, wet := Preview(b, w, ids), Alone(b, a, w, ids);
      |dry| == |wet| && forall i :: 0 <= i < |dry| ==> Foretold(a, dry[i], wet[i])
  {
    if ids != [] {
      PreviewAlone(b, a, w, ids[..|ids| - 1]);
      SlotForetold(b, a, w, ids[|ids| - 1]);
    }
    hide Foretold, Migrate, Foretell;
  }

  // ---------------------------------------------------------------- a second run

  /** Recording a photo leaves its source the slot's source, so it does not look changed. */
  lemma RecordedIsUnchanged(s: Slot, r: Role, key: string, served: Url)
    requires SourceLink(s, r).Drive? && !served.Drive?
    ensures SourceLink(Recorded(s, r, key, served), r) == SourceLink(s, r)
    ensures !Changed(Recorded(s, r, key, served), r)
  {
    var t := Recorded(s, r, key, served);
    assert s.drive == Candidates(s, r)[|Candidates(s, r)| - 1];
    FirstOfThree(s, r);
    FirstOfThree(t, r);
    hide FirstDrive, Candidates;
  }

  lemma FirstOfThree(s: Slot, r: Role)
    ensures s.json.Some? && s.json.value.Drive? ==> SourceLink(s, r) == s.json.value
    ensures !(s.json.Some? && s.json.value.Drive?) && r.MemberPhoto? && s.photo.Drive? ==> SourceLink(s, r) == s.photo
    ensures !(s.json.Some? && s.json.value.Drive?) && !(r.MemberPhoto? && s.photo.Drive?) && s.drive.Drive? ==>
      SourceLink(s, r) == s.drive
    ensures !(s.json.Some? && s.json.value.Drive?) && !(r.MemberPhoto? && s.photo.Drive?) && !s.drive.Drive? ==>
      !SourceLink(s, r).Drive?
  {
    var j := if s.json.Some? then [s.json.value] else [];
    var p := if r.MemberPhoto? then [s.photo] else [];
    FirstDriveOf(j, p + [s.drive]);
    FirstDriveOf(p, [s.drive]);
    assert Candidates(s, r) == j + (p + [s.drive]);
    assert FirstDrive([s.drive]) == if s.drive.Drive? then Some(s.drive) else None;
  }

  lemma FirstDriveOf(front: seq<Url>, back: seq<Url>)
    requires |front| <= 1
    ensures FirstDrive(front + back) == if front != [] && front[0].Drive? then Some(front[0]) else FirstDrive(back)
  {
    if front == [] {
      assert front + back == back;
    } else {
      assert (front + back)[1..] == back;
    }
  }

  /** Migrating a slot once more, whatever would download now, finds it migrated or skips it again. */
  lemma SlotSettles(b: Backend, a: Answers, again: Answers, w: World, id: SlotId)
    requires Sound(w) && Lists(b) && id in w.slots
    ensures var (next, o) := Migrate(b, a, w, id);
      o.Some? && !o.value.status.Failed? ==>
        Migrate(b, again, next, id) ==
          (next, Some(Outcome(id, if Succeeded(o.value) then AlreadyMigrated else Skipped, o.value.key)))
  {
    var s := w.slots[id];
    var (next, o) := Migrate(b, a, w, id);
    var plan := Decide(b, s, id, w.store);
    SuccessIsPresent(b, a, w, id);
    assert SoundSlot(id, s);
    if plan.Adopt? {
      RecordedIsUnchanged(s, id.role, plan.key, AdoptedUrl(b, s, plan.key));
      KeepsPresent(b, again, next, id);
    } else if plan.Fetch? && id in a.photos {
      var key := ObjectKey(id, a.photos[id].fileName);
      RecordedIsUnchanged(s, id.role, key, PublicUrl(b, key));
      KeepsPresent(b, again, next, id);
    }
    hide SourceLink, Changed, Recorded, Find, Own, ObjectKey, Stored;
  }

  lemma KeepsPresent(b: Backend, a: Answers, w: World, id: SlotId)
    requires Present(w, id) && !Changed(w.slots[id], id.role)
    ensures Migrate(b, a, w, id) == (w, Some(Outcome(id, AlreadyMigrated, Some(w.slots[id].key))))
  {
  }

  lemma {:induction false} AloneHas(b: Backend, a: Answers, w: World, ids: seq<SlotId>, id: SlotId)
    requires (forall i :: i in ids ==> i in w.slots) && id in ids && Migrate(b, a, w, id).1.Some?
    ensures Migrate(b, a, w, id).1.value in Alone(b, a, w, ids)
  {
    var n := |ids| - 1;
    if id != ids[n] {
      assert ids == ids[..n] + [ids[n]];
      AloneHas(b, a, w, ids[..n], id);
    }
    hide Migrate;
  }

  /**
   * A second apply run over unchanged links, whatever would download by then, reports every slot
   * migrated or replaced before as already migrated under the same key, skips what it skipped, and
   * changes neither the record nor the objects of these slots: it uploads nothing for them.
   */
  lemma SecondRunIsIdle(b: Backend, a: Answers, again: Answers, w: World, ids: seq<SlotId>, o: Outcome)
    requires Sound(w) && Lists(b) && RunOf(w, ids)
    requires o in Apply(b, a, w, ids).1 && !o.status.Failed?
    ensures var v := Apply(b, a, w, ids).0;
      var (after, outs) := Apply(b, again, v, ids);
      && SameFor(after, v, o.slot)
      && Outcome(o.slot, if Succeeded(o) then AlreadyMigrated else Skipped, o.key) in outs
  {
    var v := Apply(b, a, w, ids).0;
    RunIsSlotwise(b, a, w, ids);
    RunIsSlotwise(b, again, v, ids);
    AloneFrom(b, a, w, ids, o);
    hide Migrate, Alone, Apply, Sound, SameFor, Lists;
    var id :| id in ids && Migrate(b, a, w, id).1 == Some(o);
    var next := Migrate(b, a, w, id).0;
    SlotSettles(b, a, again, w, id);
    SlotOf(b, a, w, id);
    assert SameFor(v, next, id);
    SoundAt(v, id);
    MigrateLocal(b, again, v, next, id);
    AloneHas(b, again, v, ids, id);
    SameForFlip(v, next, id);
    SameForTrans(Migrate(b, again, v, id).0, next, v, id);
    SameForTrans(Apply(b, again, v, ids).0, Migrate(b, again, v, id).0, v, id);
  }

  lemma SlotOf(b: Backend, a: Answers, w: World, id: SlotId)
    requires id in w.slots
    ensures Migrate(b, a, w, id).1.Some? ==> Migrate(b, a, w, id).1.value.slot == id
  {
    hide Decide;
  }

  lemma SoundAt(w: World, id: SlotId)
    requires Sound(w) && id in w.slots
    ensures SoundSlot(id, w.slots[id])
  {
  }

  lemma SameForFlip(v: World, w: World, id: SlotId)
    requires SameFor(v, w, id)
    ensures SameFor(w, v, id)
  {
  }

  // ---------------------------------------------------------------- counters and serving URLs

  /** The five counters add up to the number of outcomes. */
  lemma {:induction false} CountersSum(outs: seq<Outcome>)
    ensures CountOf(outs, Migrated) + CountOf(outs, AlreadyMigrated) + CountOf(outs, Replaced)
      + CountOf(outs, Skipped) + CountOf(outs, Failed) == |outs|
  {
    if outs != [] {
      CountersSum(outs[..|outs| - 1]);
    }
  }

  /** The serving column is empty or serves the recorded object. */
  predicate ServesRecorded(s: Slot) {
    s.url == Blank || s.url == Hosted(s.key)
  }

  /**
   * After a download the serving column follows the new key exactly when the storage has public
   * URLs, or nothing was served before, or the key is the same; otherwise it names the old object.
   */
  lemma ServingFollowsKeyIff(b: Backend, a: Answers, w: World, id: SlotId)
    requires id in w.slots && ServesRecorded(w.slots[id])
    requires Decide(b, w.slots[id], id, w.store).Fetch? && id in a.photos
    ensures ServesRecorded(Migrate(b, a, w, id).0.slots[id])
      <==> b.publicUrls || w.slots[id].url == Blank || w.slots[id].key == ObjectKey(id, a.photos[id].fileName)
  {
    hide ObjectKey, SourceLink, Stored;
  }

  /** A slot served from `key` whose sheet link has changed to another Drive file. */
  function ChangedSlot(key: string): Slot {
    Slot(Some(Drive("new", "n")), Blank, Drive("previous", "p"), key, Hosted(key))
  }

  lemma ChangedSlotFetches(b: Backend, id: SlotId, key: string, store: map<string, Bytes>)
    requires key != ""
    ensures Decide(b, ChangedSlot(key), id, store) == Fetch(true)
  {
    FirstOfThree(ChangedSlot(key), id.role);
    hide SourceLink, Find, Own;
  }

  /**
   * The failing case: replaced while the storage has no public URL, the photo is recorded under its
   * new key, the old object is deleted, and the serving column still names the old object.
   */
  lemma StaleServingUrl(b: Backend, id: SlotId, key: string, photo: Photo)
    requires !b.publicUrls && key != "" && key != ObjectKey(id, photo.fileName)
    ensures var w := World(map[id := ChangedSlot(key)], map[key := photo.content]);
      var after := Migrate(b, Answers(map[id := photo], {key}), w, id).0;
      after.slots[id].key == ObjectKey(id, photo.fileName) && after.slots[id].url == Hosted(key) && key !in after.store
  {
    ChangedSlotFetches(b, id, key, map[key := photo.content]);
    hide ObjectKey, Decide, SourceLink;
  }
}
