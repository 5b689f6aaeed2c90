/** Which bytes a photo slot ends with, when the upload API and the migration write the same columns. */
module PhotoSources {
  import opened Common
  import opened PhotoMigration
  import opened PhotoRuns

  /** What Drive serves for each file. */
  type Files = map<string, Bytes>

  /** The link names a Drive file and the content is that file's. */
  predicate Serves(files: Files, link: Url, content: Bytes) {
    link.Drive? && link.id in files && files[link.id] == content
  }

  /** The recorded object holds the file the slot records as its source. */
  predicate Traced(files: Files, w: World, id: SlotId) {
    Present(w, id) && Serves(files, w.slots[id].drive, w.store[w.slots[id].key])
  }

  /** A download delivers the file the slot's link names. */
  predicate Delivers(files: Files, a: Answers, w: World, id: SlotId)
    requires id in w.slots
  {
    id in a.photos && SourceLink(w.slots[id], id.role).Drive? ==>
      Serves(files, SourceLink(w.slots[id], id.role), a.photos[id].content)
  }

  /** The migration would take over a stored object that is not the file the slot's link names. */
  predicate AdoptsForeign(files: Files, b: Backend, w: World, id: SlotId)
    requires id in w.slots
  {
    var s := w.slots[id];
    var plan := Decide(b, s, id, w.store);
    plan.Adopt? && plan.key in w.store && !Serves(files, SourceLink(s, id.role), w.store[plan.key])
  }

  /** A slot that is left alone because its object is there holds its recorded source already. */
  predicate KeepsTraced(files: Files, b: Backend, w: World, id: SlotId)
    requires id in w.slots
  {
    Decide(b, w.slots[id], id, w.store).Keep? ==> Traced(files, w, id)
  }

  lemma RecordedSource(s: Slot, r: Role, key: string, served: Url)
    ensures Recorded(s, r, key, served).key == key && Recorded(s, r, key, served).drive == SourceLink(s, r)
  {
    hide SourceLink;
  }

  lemma FetchDecided(b: Backend, s: Slot, id: SlotId, store: map<string, Bytes>)
    ensures Decide(b, s, id, store).Fetch? || Decide(b, s, id, store).Adopt? ==> SourceLink(s, id.role).Drive?
  {
    hide SourceLink, Find, Own;
  }

  /** One slot that succeeds ends with its recorded source's bytes iff it adopted no other file's object. */
  lemma SlotTracedIff(files: Files, b: Backend, a: Answers, w: World, id: SlotId)
    requires Sound(w) && Lists(b) && id in w.slots && Delivers(files, a, w, id) && KeepsTraced(files, b, w, id)
    requires var o := Migrate(b, a, w, id).1; o.Some? && Succeeded(o.value)
    ensures Traced(files, Migrate(b, a, w, id).0, id) <==> !AdoptsForeign(files, b, w, id)
  {
    var s := w.slots[id];
    var plan := Decide(b, s, id, w.store);
    SuccessIsPresent(b, a, w, id);
    FetchDecided(b, s, id, w.store);
    if plan.Adopt? {
      AdoptedIsOwn(b, s, id, w.store);
      RecordedSource(s, id.role, plan.key, AdoptedUrl(b, s, plan.key));
    } else if plan.Fetch? && id in a.photos {
      var key := ObjectKey(id, a.photos[id].fileName);
      RecordedSource(s, id.role, key, PublicUrl(b, key));
    }
    hide SourceLink, Recorded, ObjectKey, Decide, Sound;
  }

  lemma TracedLocal(files: Files, v: World, w: World, id: SlotId)
    requires SameFor(v, w, id) && SoundSlot(id, w.slots[id])
    ensures Traced(files, v, id) <==> Traced(files, w, id)
  {
    var key := w.slots[id].key;
    assert key in v.store && Belongs(id, key) <==> key in OwnObjects(v.store, id);
    assert key in w.store && Belongs(id, key) <==> key in OwnObjects(w.store, id);
    if Belongs(id, key) && key in v.store && key in w.store {
      assert v.store[key] == OwnObjects(v.store, id)[key] == w.store[key];
    }
    hide Belongs, Serves;
  }

  /**
   * A whole run: a slot reported migrated, replaced or already migrated ends with the bytes of the
   * file it records as its source exactly when it did not take over an object of another file.
   */
  lemma ReportedIsTracedIff(files: Files, b: Backend, a: Answers, w: World, ids: seq<SlotId>, o: Outcome)
    requires Sound(w) && Lists(b) && RunOf(w, ids) && o in Apply(b, a, w, ids).1 && Succeeded(o)
    requires forall id :: id in ids ==> Delivers(files, a, w, id) && KeepsTraced(files, b, w, id)
    ensures o.slot in w.slots && (Traced(files, Apply(b, a, w, ids).0, o.slot) <==> !AdoptsForeign(files, b, w, o.slot))
  {
    RunIsSlotwise(b, a, w, ids);
    AloneFrom(b, a, w, ids, o);
    var after := Apply(b, a, w, ids).0;
    hide Migrate, Alone, Apply, Delivers, KeepsTraced, AdoptsForeign, Traced;
    var id :| id in ids && Migrate(b, a, w, id).1 == Some(o);
    SlotOf(b, a, w, id);
    SlotTracedIff(files, b, a, w, id);
    MigrateFrame(b, a, w, id);
    SoundAt(Migrate(b, a, w, id).0, id);
    TracedLocal(files, after, Migrate(b, a, w, id).0, id);
  }

  // ---------------------------------------------------------------- instances

  /** A slot migrated from one Drive file and served from storage. */
  function Served(id: SlotId, key: string, file: string): Slot {
    Slot(Some(Hosted(key)), Hosted(key), Drive(file, file), key, Hosted(key))
  }

  lemma LeftoverFound(b: Backend, id: SlotId, content: Bytes)
    requires Lists(b) && b.lists
    ensures Find(b, Own(map[ObjectKey(id, "a.jpg") := content], id)) == Some(ObjectKey(id, "a.jpg"))
  {
    assert Own(map[ObjectKey(id, "a.jpg") := content], id) == {ObjectKey(id, "a.jpg")};
    hide ObjectKey;
  }

  lemma NewLinkAdopts(b: Backend, id: SlotId, s: Slot, content: Bytes, file: string)
    requires Lists(b) && b.lists && s.key == "" && s.json == Some(Drive(file, file))
    ensures Decide(b, s, id, map[ObjectKey(id, "a.jpg") := content]) == Adopt(ObjectKey(id, "a.jpg"))
    ensures SourceLink(s, id.role) == Drive(file, file)
  {
    LeftoverFound(b, id, content);
    FirstOfThree(s, id.role);
    hide ObjectKey, SourceLink, Find, Own;
  }

  /** The slot of an object left behind, once the sheet names a new file. */
  lemma AdoptsLeftover(b: Backend, a: Answers, id: SlotId, s: Slot, content: Bytes)
    requires Lists(b) && b.lists && s.key == "" && s.json == Some(Drive("new", "new"))
    ensures var key := ObjectKey(id, "a.jpg");
      var (after, o) := Migrate(b, a, World(map[id := s], map[key := content]), id);
      && o == Some(Outcome(id, AlreadyMigrated, Some(key)))
      && after.slots[id].key == key && after.slots[id].drive == Drive("new", "new")
      && after.store == map[key := content]
  {
    var key := ObjectKey(id, "a.jpg");
    NewLinkAdopts(b, id, s, content, "new");
    RecordedSource(s, id.role, key, AdoptedUrl(b, s, key));
    hide ObjectKey, SourceLink, Decide, Recorded, AdoptedUrl;
  }

  /** A slot migrated from the file "old", after its photo is removed and its link edited. */
  function Relinked(id: SlotId, key: string): Slot {
    Written(Served(id, key, "old"), id.role, "", None, Blank, Blank).(json := Some(Drive("new", "new")), photo := Blank)
  }

  lemma RelinkedIs(b: Backend, id: SlotId, key: string, content: Bytes)
    ensures var w := World(map[id := Served(id, key, "old")], map[key := content]);
      var events := [Removal(id, {}), Edit(id, Some(Drive("new", "new")), Blank)];
      Playable(w, events) && Play(b, w, events) == World(map[id := Relinked(id, key)], map[key := content])
  {
    var w := World(map[id := Served(id, key, "old")], map[key := content]);
    PlayedTwo(b, w, [Removal(id, {}), Edit(id, Some(Drive("new", "new")), Blank)]);
    hide Play, Playable;
  }

  /**
   * A photo is removed while its object cannot be deleted, and the sheet then names another file:
   * the next run takes the old object over and records it as a copy of the new file.
   */
  lemma LeftoverIsAdopted(b: Backend, a: Answers, id: SlotId, content: Bytes)
    requires Lists(b) && b.lists
    ensures var key := ObjectKey(id, "a.jpg");
      var w := World(map[id := Served(id, key, "old")], map[key := content]);
      var events := [Removal(id, {}), Edit(id, Some(Drive("new", "new")), Blank)];
      && Playable(w, events) && id in Play(b, w, events).slots
      && var (after, o) := Migrate(b, a, Play(b, w, events), id);
         && o == Some(Outcome(id, AlreadyMigrated, Some(key)))
         && after.slots[id].key == key && after.slots[id].drive == Drive("new", "new")
         && after.store == map[key := content]
  {
    var key := ObjectKey(id, "a.jpg");
    assert Relinked(id, key).key == "" && Relinked(id, key).json == Some(Drive("new", "new"));
    hide *;
    RelinkedIs(b, id, key, content);
    AdoptsLeftover(b, a, id, Relinked(id, key), content);
  }

  lemma PlayedTwo(b: Backend, w: World, events: seq<Event>)
    requires |events| == 2 && events[0].Removal? && events[1].Edit? && events[0].slot == events[1].slot &&
      events[0].slot in w.slots
    ensures Playable(w, events)
    ensures var v := Removed(w, events[0].slot, events[0].deletable);
      var id := events[0].slot;
      Play(b, w, events) == v.(slots := v.slots[id := v.slots[id].(json := events[1].json, photo := events[1].photo)])
  {
    assert events[..1] == [events[0]] && events[..1][..0] == [];
    assert Play(b, w, events[..1][..0]) == w;
    hide Removed;
  }

  /**
   * An uploaded photo whose sheet link comes to name another Drive file: the next run replaces it,
   * deletes the uploaded object, and leaves every other slot as it is.
   */
  lemma UploadIsReplaced(b: Backend, photo: Photo, w: World, id: SlotId, name: string)
    requires Sound(w) && Lists(b) && id in w.slots && w.slots[id] == ChangedSlot(Uploads(id) + name)
    ensures var key := Uploads(id) + name;
      var (after, o) := Migrate(b, Answers(map[id := photo], {key}), w, id);
      && o == Some(Outcome(id, Replaced, Some(ObjectKey(id, photo.fileName))))
      && after.slots[id].key == ObjectKey(id, photo.fileName) && after.store[after.slots[id].key] == photo.content
      && key !in after.store
      && forall other :: other in w.slots && other != id ==> SameFor(after, w, other)
  {
    var key, a := Uploads(id) + name, Answers(map[id := photo], {Uploads(id) + name});
    UploadBelongs(id, name);
    PlacesApart(id, key);
    ChangedSlotFetches(b, id, key, w.store);
    RecordedSource(w.slots[id], id.role, ObjectKey(id, photo.fileName), PublicUrl(b, ObjectKey(id, photo.fileName)));
    MigrateFrame(b, a, w, id);
    hide ObjectKey, SourceLink, Decide, Recorded, Prefix, Uploads, SameFor, Sound;
  }

  // ---------------------------------------------------------------- removing a photo

  /**
   * Removing a photo keeps the Drive link it was migrated from, so the next run over the slot
   * brings a photo back exactly when there is such a link and an object is left or it downloads.
   */
  lemma RemovalUndoneIff(b: Backend, a: Answers, w: World, id: SlotId, deletable: set<string>)
    requires Sound(w) && Lists(b) && id in w.slots
    ensures var v := Removed(w, id, deletable);
      Present(Migrate(b, a, v, id).0, id) <==>
        w.slots[id].drive.Drive? && (Find(b, Own(v.store, id)).Some? || id in a.photos)
  {
    var v := Removed(w, id, deletable);
    RemovalKeeps(w, id, deletable);
    SuccessIsPresent(b, a, v, id);
    ClearedSource(w.slots[id], id.role);
    hide Sound, Removed, Written, Find, Own, Stored, ObjectKey, Recorded;
  }

  lemma ClearedSource(s: Slot, r: Role)
    ensures var t := Written(s, r, "", None, Blank, Blank);
      SourceLink(t, r).Drive? <==> s.drive.Drive?
  {
    FirstOfThree(Written(s, r, "", None, Blank, Blank), r);
  }
}
