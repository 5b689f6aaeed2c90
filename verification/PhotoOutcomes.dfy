/** What becomes of a photo slot, in terms of its columns, the storage and the download. */
module PhotoOutcomes {
  import opened Common
  import opened PhotoMigration
  import opened PhotoRuns

  /** The Drive link of the slot: the profile entry's, else the member photo column's, else the one migrated last. */
  function Linked(s: Slot, r: Role): Option<Url> {
    if s.json.Some? && s.json.value.Drive? then s.json
    else if r.MemberPhoto? && s.photo.Drive? then Some(s.photo)
    else if s.drive.Drive? then Some(s.drive)
    else None
  }

  /** Without a Drive link, what the slot shows first. */
  function Shown(s: Slot, r: Role): Url {
    if s.json.Some? then s.json.value else if r.MemberPhoto? then s.photo else s.drive
  }

  /** The link names another Drive file than the one the recorded object was copied from. */
  predicate Moved(s: Slot, r: Role) {
    s.key != "" && Linked(s, r).Some? && s.drive.Drive? && Linked(s, r).value.id != s.drive.id
  }

  /** The recorded object is there and still wanted. */
  predicate Stands(s: Slot, r: Role, store: map<string, Bytes>) {
    s.key != "" && s.key in store && !Moved(s, r)
  }

  /** An object under the slot's prefix, as the backend lists it. */
  function Listed(b: Backend, id: SlotId, store: map<string, Bytes>): Option<string> {
    var own := set k | k in store && Prefix(id) <= k;
    if b.lists && own != {} then Some(b.first(own)) else None
  }

  /** The photo has to be downloaded: there is a link, and no object to use for it. */
  predicate Wanted(b: Backend, s: Slot, id: SlotId, store: map<string, Bytes>) {
    && Linked(s, id.role).Some? && !Stands(s, id.role, store)
    && (Moved(s, id.role) || Listed(b, id, store).None?)
  }

  lemma LinkedIsSource(s: Slot, r: Role)
    ensures Linked(s, r).Some? <==> SourceLink(s, r).Drive?
    ensures Linked(s, r).Some? ==> SourceLink(s, r) == Linked(s, r).value
    ensures Linked(s, r).None? ==> SourceLink(s, r) == Shown(s, r)
  {
    FirstOfThree(s, r);
    NoDriveLink(s, r);
    hide SourceLink;
  }

  lemma {:induction false} FoundIsDrive(links: seq<Url>)
    ensures FirstDrive(links).Some? ==> FirstDrive(links).value.Drive?
  {
    if links != [] {
      FoundIsDrive(links[1..]);
    }
  }

  lemma NoDriveLink(s: Slot, r: Role)
    ensures Linked(s, r).None? ==> SourceLink(s, r) == Candidates(s, r)[0] == Shown(s, r)
  {
    FirstOfThree(s, r);
    FoundIsDrive(Candidates(s, r));
    hide FirstDrive;
  }

  lemma MovedIsChanged(s: Slot, r: Role)
    ensures Moved(s, r) <==> Changed(s, r)
  {
    LinkedIsSource(s, r);
    hide SourceLink, Linked;
  }

  /** What one slot of an apply run reports. */
  lemma OutcomeIff(b: Backend, a: Answers, w: World, id: SlotId)
    requires id in w.slots
    ensures var s, o := w.slots[id], Migrate(b, a, w, id).1;
      var wanted, moved, link := Wanted(b, s, id, w.store), Moved(s, id.role), Linked(s, id.role);
      && (o.None? <==> !Stands(s, id.role, w.store) && link.None? && Shown(s, id.role).Blank?)
      && (o.Some? && o.value.status == Skipped <==>
            !Stands(s, id.role, w.store) && link.None? && !Shown(s, id.role).Blank?)
      && (o.Some? && o.value.status == Migrated <==> wanted && !moved && id in a.photos)
      && (o.Some? && o.value.status == Replaced <==> wanted && moved && id in a.photos)
      && (o.Some? && o.value.status == Failed <==> wanted && id !in a.photos)
      && (o.Some? && o.value.status == AlreadyMigrated <==>
            Stands(s, id.role, w.store) || (link.Some? && !wanted))
  {
    var s := w.slots[id];
    LinkedIsSource(s, id.role);
    MovedIsChanged(s, id.role);
    assert Find(b, Own(w.store, id)) == Listed(b, id, w.store);
    hide SourceLink, Linked, Shown, Moved, Changed, Own, Find, Listed, Recorded, Stored, ObjectKey;
  }

  /**
   * What a download leaves: its bytes under the slot's new key, recorded with the link they came
   * from; the superseded object gone if it could be deleted; every other object as it was.
   */
  lemma DownloadedIs(b: Backend, a: Answers, w: World, id: SlotId)
    requires id in w.slots && Wanted(b, w.slots[id], id, w.store) && id in a.photos
    ensures var s, after, key := w.slots[id], Migrate(b, a, w, id).0, ObjectKey(id, a.photos[id].fileName);
      && Migrate(b, a, w, id).1 ==
           Some(Outcome(id, if Moved(s, id.role) then Replaced else Migrated, Some(key)))
      && key in after.store && after.store[key] == a.photos[id].content
      && after.slots[id].key == key && Some(after.slots[id].drive) == Linked(s, id.role)
      && (forall k :: k != key && !(Moved(s, id.role) && k == s.key) ==>
            (k in after.store <==> k in w.store) && (k in w.store ==> after.store[k] == w.store[k]))
      && (Moved(s, id.role) && s.key != key ==> (s.key in after.store <==> s.key in w.store && s.key !in a.deletable))
  {
    var s := w.slots[id];
    LinkedIsSource(s, id.role);
    MovedIsChanged(s, id.role);
    assert Find(b, Own(w.store, id)) == Listed(b, id, w.store);
    hide SourceLink, Linked, Shown, Moved, Changed, Own, Find, Listed, ObjectKey;
  }

  /** An object that is there is used again: the recorded one as it stands, a listed one with the link recorded. */
  lemma ReusedIs(b: Backend, a: Answers, w: World, id: SlotId)
    requires id in w.slots && Linked(w.slots[id], id.role).Some? && !Wanted(b, w.slots[id], id, w.store)
    ensures var s, after, o := w.slots[id], Migrate(b, a, w, id).0, Migrate(b, a, w, id).1;
      && after.store == w.store
      && if Stands(s, id.role, w.store) then after == w && o == Some(Outcome(id, AlreadyMigrated, Some(s.key)))
         else
           && Listed(b, id, w.store).Some? && after.slots[id].key == Listed(b, id, w.store).value
           && Some(after.slots[id].drive) == Linked(s, id.role)
           && o == Some(Outcome(id, AlreadyMigrated, Listed(b, id, w.store)))
  {
    var s := w.slots[id];
    LinkedIsSource(s, id.role);
    MovedIsChanged(s, id.role);
    assert Find(b, Own(w.store, id)) == Listed(b, id, w.store);
    hide SourceLink, Linked, Shown, Moved, Changed, Own, Find, Listed, ObjectKey;
  }

  /**
   * Where the serving URL of a recorded photo goes: into the serving column, the profile entry and,
   * for a member's photo, the photo column; without one these three stay as they are.
   */
  lemma ServedIn(s: Slot, r: Role, key: string, served: Url)
    ensures var after := Recorded(s, r, key, served);
      && (served.Blank? ==> after.url == s.url && after.json == s.json && after.photo == s.photo)
      && (!served.Blank? ==> after.url == served && after.json == Some(served))
      && (!served.Blank? && r.MemberPhoto? ==> after.photo == served)
      && (r.SpousePhoto? ==> after.photo == s.photo)
  {
    hide SourceLink;
  }

  /** A download is served from its own key, if the storage has public URLs. */
  lemma DownloadServed(b: Backend, a: Answers, w: World, id: SlotId)
    requires id in w.slots && Wanted(b, w.slots[id], id, w.store) && id in a.photos
    ensures var s, after, key := w.slots[id], Migrate(b, a, w, id).0.slots[id], ObjectKey(id, a.photos[id].fileName);
      && (b.publicUrls ==> after.url == Hosted(key) && after.json == Some(Hosted(key)))
      && (b.publicUrls && id.role.MemberPhoto? ==> after.photo == Hosted(key))
      && (!b.publicUrls ==> after.url == s.url && after.json == s.json)
      && (!b.publicUrls || id.role.SpousePhoto? ==> after.photo == s.photo)
  {
    var s := w.slots[id];
    LinkedIsSource(s, id.role);
    MovedIsChanged(s, id.role);
    assert Find(b, Own(w.store, id)) == Listed(b, id, w.store);
    ServedIn(s, id.role, ObjectKey(id, a.photos[id].fileName), PublicUrl(b, ObjectKey(id, a.photos[id].fileName)));
    hide SourceLink, Linked, Shown, Moved, Changed, Own, Find, Listed, ObjectKey, Recorded, Stored;
  }

  /**
   * A listed object is served as the slot was served before, if it has lost its record only, and
   * otherwise from its own key, if the storage has public URLs.
   */
  lemma ReusedServed(b: Backend, a: Answers, w: World, id: SlotId)
    requires id in w.slots && Linked(w.slots[id], id.role).Some? && !Wanted(b, w.slots[id], id, w.store)
    requires !Stands(w.slots[id], id.role, w.store)
    ensures var s, after := w.slots[id], Migrate(b, a, w, id).0.slots[id];
      && Listed(b, id, w.store).Some?
      && var served := if s.key == "" && !s.url.Blank? then Some(s.url)
                       else if b.publicUrls then Some(Hosted(Listed(b, id, w.store).value)) else None;
         && (served.Some? ==> after.url == served.value && after.json == served)
         && (served.Some? && id.role.MemberPhoto? ==> after.photo == served.value)
         && (served.None? ==> after.url == s.url && after.json == s.json)
         && (served.None? || id.role.SpousePhoto? ==> after.photo == s.photo)
  {
    var s := w.slots[id];
    LinkedIsSource(s, id.role);
    MovedIsChanged(s, id.role);
    assert Find(b, Own(w.store, id)) == Listed(b, id, w.store);
    var key := Listed(b, id, w.store).value;
    ServedIn(s, id.role, key, AdoptedUrl(b, s, key));
    hide SourceLink, Linked, Shown, Moved, Changed, Own, Find, Listed, Recorded;
  }

  /** Letters and digits in lower case. */
  predicate Plain(ext: string) {
    forall i :: 0 <= i < |ext| ==> '0' <= ext[i] <= '9' || 'a' <= ext[i] <= 'z'
  }

  lemma {:induction false} PlainStays(ext: string)
    requires Plain(ext)
    ensures AlnumLower(ext) == ext && '.' !in ext
  {
    if ext != "" {
      PlainStays(ext[1..]);
      assert ext == [ext[0]] + ext[1..];
    }
  }

  lemma {:induction false} LastDot(stem: string, ext: string)
    requires '.' !in ext
    ensures AfterLastDot(stem + "." + ext) == ext
  {
    if stem == "" {
      assert (stem + "." + ext)[1..] == ext;
    } else {
      assert (stem + "." + ext)[1..] == stem[1..] + "." + ext;
      assert '.' in stem + "." + ext;
      LastDot(stem[1..], ext);
    }
  }

  /** A slot's key: its prefix and the extension of the file, or "img" when there is none. */
  lemma KeyIs(id: SlotId, stem: string, ext: string)
    requires Plain(ext)
    ensures ObjectKey(id, stem + "." + ext) == Prefix(id) + "." + if ext == "" then "img" else ext
    ensures '.' !in stem ==> ObjectKey(id, stem) == Prefix(id) + ".img"
  {
    PlainStays(ext);
    PlainStays("img");
    LastDot(stem, ext);
    assert '.' in stem + "." + ext;
    hide AlnumLower, AfterLastDot, Prefix;
  }

  /** A slot whose link was never copied, over an empty storage. */
  lemma FirstPhotoIsCopied(b: Backend, id: SlotId, photo: Photo)
    ensures var w := World(map[id := Slot(Some(Drive("f", "f")), Blank, Blank, "", Blank)], map[]);
      var (after, o) := Migrate(b, Answers(map[id := photo], {}), w, id);
      var key := ObjectKey(id, photo.fileName);
      && o == Some(Outcome(id, Migrated, Some(key)))
      && after.slots[id].key == key && after.store == map[key := photo.content]
  {
    var w := World(map[id := Slot(Some(Drive("f", "f")), Blank, Blank, "", Blank)], map[]);
    DownloadedIs(b, Answers(map[id := photo], {}), w, id);
    hide Migrate, ObjectKey;
  }
}
