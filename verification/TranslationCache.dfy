/** The bounded translation cache: an insertion-ordered dictionary of timed entries. */
module TranslationCache {
  import opened Common

  type Key = string

  /** A cached value and the time it was written. */
  datatype Entry = Entry(key: Key, time: int, value: string)

  function Find(entries: seq<Entry>, key: Key): (r: Option<Entry>)
    ensures r.Some? ==> r.value in entries && r.value.key == key
    ensures r.None? ==> forall e :: e in entries ==> e.key != key
  {
    if entries == [] then None
    else if entries[0].key == key then Some(entries[0])
    else Find(entries[1..], key)
  }

  /** Assigning to a dictionary: in place for a known key, at the end for a new one. */
  function Put(entries: seq<Entry>, e: Entry): seq<Entry> {
    if entries == [] then [e]
    else if entries[0].key == e.key then [e] + entries[1..]
    else [entries[0]] + Put(entries[1..], e)
  }

  /** Insertion after the entries that are not younger. */
  function Place(e: Entry, s: seq<Entry>): (r: seq<Entry>)
    ensures |r| == |s| + 1
  {
    if s == [] || s[|s| - 1].time <= e.time then s + [e]
    else Place(e, s[..|s| - 1]) + [s[|s| - 1]]
  }

  /** `sorted(items, key=time)`, a stable sort. */
  function ByTime(s: seq<Entry>): (r: seq<Entry>)
    ensures |r| == |s|
  {
    if s == [] then [] else Place(s[|s| - 1], ByTime(s[..|s| - 1]))
  }

  function KeysOf(s: seq<Entry>): set<Key> { set e | e in s :: e.key }

  function Without(entries: seq<Entry>, keys: set<Key>): seq<Entry> {
    Filter(entries, (e: Entry) => e.key !in keys)
  }

  /** Clean-up: of too many entries, those with the lowest times go. */
  function Cleaned(entries: seq<Entry>, maxSize: nat): seq<Entry> {
    if |entries| <= maxSize then entries
    else Without(entries, KeysOf(ByTime(entries)[..|entries| - maxSize]))
  }

  function AfterSet(entries: seq<Entry>, maxSize: nat, e: Entry): seq<Entry> {
    Cleaned(Put(entries, e), maxSize)
  }

  class Cache {
    const maxSize: nat
    var entries: seq<Entry>

    constructor (maxSize: nat)
      ensures this.maxSize == maxSize && entries == []
    {
      this.maxSize := maxSize;
      entries := [];
    }

    method Get(key: Key) returns (value: Option<string>)
      ensures value.None? <==> forall e :: e in entries ==> e.key != key
      ensures DistinctKeys(entries) ==> forall e :: e in entries && e.key == key ==> value == Some(e.value)
    {
      var entry := Find(entries, key);
      if DistinctKeys(entries) {
        EntryFound(entries, key);
      }
      if entry.None? {
        return None;
      }
      value := Some(entry.value.value);
    }

    method Set(key: Key, value: string, now: int)
      modifies this
      ensures entries == AfterSet(old(entries), maxSize, Entry(key, now, value))
    {
      entries := Put(entries, Entry(key, now, value));
      Cleanup();
    }

    method Cleanup()
      modifies this
      ensures entries == Cleaned(old(entries), maxSize)
    {
      if |entries| <= maxSize {
        return;
      }
      var items := ByTime(entries);
      var toRemove := |entries| - maxSize;
      ghost var start := entries;
      NothingWithout(start, KeysOf(items[..0]));
      for i := 0 to toRemove
        invariant entries == Without(start, KeysOf(items[..i]))
      {
        PopOne(start, KeysOf(items[..i]), items[i].key);
        assert items[..i + 1] == items[..i] + [items[i]];
        KeysOfStep(items[..i], items[i]);
        entries := Without(entries, {items[i].key});
      }
    }
  }

  lemma NothingWithout(entries: seq<Entry>, keys: set<Key>)
    requires keys == {}
    ensures Without(entries, keys) == entries
  {
    FilterAll(entries, (e: Entry) => e.key !in keys);
  }

  lemma KeysOfStep(s: seq<Entry>, e: Entry)
    ensures KeysOf(s + [e]) == KeysOf(s) + {e.key}
  {
    assert forall x :: x in s + [e] <==> x in s || x == e;
    assert e in s + [e];
  }

  lemma {:induction false} PopOne(entries: seq<Entry>, keys: set<Key>, key: Key)
    ensures Without(Without(entries, keys), {key}) == Without(entries, keys + {key})
  {
    if entries != [] {
      PopOne(entries[1..], keys, key);
      WithoutCons(entries[0], entries[1..], keys);
      WithoutCons(entries[0], entries[1..], keys + {key});
      WithoutCons(entries[0], Without(entries[1..], keys), {key});
      assert entries == [entries[0]] + entries[1..];
    }
    hide Without;
  }

  lemma WithoutCons(e: Entry, rest: seq<Entry>, keys: set<Key>)
    ensures Without([e] + rest, keys) == if e.key in keys then Without(rest, keys) else [e] + Without(rest, keys)
  {
    assert ([e] + rest)[1..] == rest;
  }

  // ---------------------------------------------------------------- dictionary facts

  ghost predicate DistinctKeys(entries: seq<Entry>) {
    forall i, j :: 0 <= i < j < |entries| ==> entries[i].key != entries[j].key
  }

  lemma {:induction false} FindPut(entries: seq<Entry>, e: Entry, k: Key)
    ensures Find(Put(entries, e), k) == if k == e.key then Some(e) else Find(entries, k)
    ensures |Put(entries, e)| == |entries| + if Find(entries, e.key).Some? then 0 else 1
  {
    if entries != [] && entries[0].key != e.key {
      FindPut(entries[1..], e, k);
      assert ([entries[0]] + Put(entries[1..], e))[1..] == Put(entries[1..], e);
    }
  }

  lemma PutKeys(entries: seq<Entry>, e: Entry, x: Entry)
    requires x in Put(entries, e)
    ensures x == e || x in entries
  {
  }

  lemma {:induction false} PutDistinct(entries: seq<Entry>, e: Entry)
    requires DistinctKeys(entries)
    ensures DistinctKeys(Put(entries, e))
  {
    if entries != [] && entries[0].key != e.key {
      var rest := Put(entries[1..], e);
      PutDistinct(entries[1..], e);
      forall x | x in rest
        ensures x.key != entries[0].key
      {
        PutKeys(entries[1..], e, x);
      }
    }
  }

  lemma {:induction false} FindWithout(entries: seq<Entry>, keys: set<Key>, k: Key)
    ensures Find(Without(entries, keys), k) == if k in keys then None else Find(entries, k)
  {
    if entries != [] {
      FindWithout(entries[1..], keys, k);
      WithoutCons(entries[0], entries[1..], keys);
      assert entries == [entries[0]] + entries[1..];
      assert ([entries[0]] + Without(entries[1..], keys))[1..] == Without(entries[1..], keys);
    }
    hide Without;
  }

  lemma {:induction false} WithoutDistinct(entries: seq<Entry>, keys: set<Key>)
    requires DistinctKeys(entries)
    ensures DistinctKeys(Without(entries, keys))
  {
    if entries != [] {
      var rest := entries[1..];
      WithoutDistinct(rest, keys);
      WithoutCons(entries[0], rest, keys);
      assert entries == [entries[0]] + rest;
      WithoutSubset(rest, keys);
      forall x | x in rest
        ensures x.key != entries[0].key
      {
        var i :| 0 <= i < |rest| && rest[i] == x;
        assert entries[i + 1] == x;
      }
    }
    hide Without;
  }

  lemma WithoutSubset(entries: seq<Entry>, keys: set<Key>)
    ensures forall e :: e in Without(entries, keys) ==> e in entries
  {
  }

  lemma {:induction false} WithoutAbsent(entries: seq<Entry>, key: Key)
    requires forall e :: e in entries ==> e.key != key
    ensures Without(entries, {key}) == entries
  {
    if entries != [] {
      WithoutAbsent(entries[1..], key);
      WithoutCons(entries[0], entries[1..], {key});
      assert entries == [entries[0]] + entries[1..];
    }
    hide Without;
  }

  /** Popping one key that is there leaves one entry less. */
  lemma {:induction false} PopLength(entries: seq<Entry>, key: Key)
    requires DistinctKeys(entries)
    ensures |Without(entries, {key})| == |entries| - if Find(entries, key).Some? then 1 else 0
  {
    if entries != [] {
      var rest := entries[1..];
      WithoutCons(entries[0], rest, {key});
      assert entries == [entries[0]] + rest;
      if entries[0].key == key {
        WithoutAbsent(rest, key);
      } else {
        PopLength(rest, key);
      }
    }
    hide Without;
  }

  /** The entry that clean-up removes first: the lowest time, the earliest inserted among equals. */
  function Oldest(s: seq<Entry>): (o: Entry)
    requires s != []
    ensures o in s && forall e :: e in s ==> o.time <= e.time
  {
    if |s| == 1 then s[0]
    else
      var o, last := Oldest(s[..|s| - 1]), s[|s| - 1];
      assert s == s[..|s| - 1] + [last];
      if last.time < o.time then last else o
  }

  lemma {:induction false} PlaceHead(e: Entry, s: seq<Entry>)
    requires forall i, j :: 0 <= i < j < |s| ==> s[i].time <= s[j].time
    ensures Place(e, s)[0] == if s == [] || e.time < s[0].time then e else s[0]
    ensures var r := Place(e, s); forall i, j :: 0 <= i < j < |r| ==> r[i].time <= r[j].time
    ensures forall x :: x in Place(e, s) ==> x == e || x in s
  {
    if s != [] && e.time < s[|s| - 1].time {
      var n := |s| - 1;
      PlaceHead(e, s[..n]);
      assert forall x :: x in Place(e, s[..n]) ==> x.time <= s[n].time;
    }
  }

  lemma {:induction false} OldestFirst(s: seq<Entry>)
    requires s != []
    ensures ByTime(s)[0] == Oldest(s)
    ensures var r := ByTime(s); forall i, j :: 0 <= i < j < |r| ==> r[i].time <= r[j].time
  {
    var front := s[..|s| - 1];
    if front != [] {
      OldestFirst(front);
    }
    PlaceHead(s[|s| - 1], ByTime(front));
  }

  /** With one entry too many, clean-up removes the oldest. */
  lemma CleanedOne(entries: seq<Entry>, maxSize: nat)
    requires DistinctKeys(entries) && |entries| == maxSize + 1
    ensures Cleaned(entries, maxSize) == Without(entries, {Oldest(entries).key})
    ensures |Cleaned(entries, maxSize)| == maxSize && DistinctKeys(Cleaned(entries, maxSize))
  {
    OldestFirst(entries);
    var first := ByTime(entries)[..1];
    assert first == [] + [Oldest(entries)];
    KeysOfStep([], Oldest(entries));
    assert KeysOf([]) == {};
    assert KeysOf(first) == {Oldest(entries).key};
    assert Find(entries, Oldest(entries).key).Some?;
    PopLength(entries, Oldest(entries).key);
    WithoutDistinct(entries, {Oldest(entries).key});
    hide Without, ByTime, KeysOf;
  }

  // ---------------------------------------------------------------- the history of writes

  function Play(maxSize: nat, writes: seq<Entry>): seq<Entry> {
    if writes == [] then []
    else AfterSet(Play(maxSize, writes[..|writes| - 1]), maxSize, writes[|writes| - 1])
  }

  /** The last write of a key. */
  function LastWrite(writes: seq<Entry>, key: Key): (r: Option<Entry>)
    ensures r.Some? ==> r.value in writes && r.value.key == key
  {
    if writes == [] then None
    else if writes[|writes| - 1].key == key then Some(writes[|writes| - 1])
    else LastWrite(writes[..|writes| - 1], key)
  }

  function Except(keys: seq<Key>, key: Key): seq<Key> { Filter(keys, k => k != key) }

  /** The keys written, the most recently written first. */
  function Recency(writes: seq<Entry>): seq<Key> {
    if writes == [] then []
    else [writes[|writes| - 1].key] + Except(Recency(writes[..|writes| - 1]), writes[|writes| - 1].key)
  }

  function Top(keys: seq<Key>, n: nat): seq<Key> { if |keys| <= n then keys else keys[..n] }

  ghost predicate Increasing(writes: seq<Entry>) {
    forall i, j :: 0 <= i < j < |writes| ==> writes[i].time < writes[j].time
  }

  /** The cache holds the last writes of exactly the given keys. */
  ghost predicate Holds(entries: seq<Entry>, keys: seq<Key>, writes: seq<Entry>) {
    && DistinctKeys(entries) && |entries| == |keys|
    && forall k :: Find(entries, k) == if k in keys then LastWrite(writes, k) else None
  }

  lemma {:induction false} RecencyDistinct(writes: seq<Entry>)
    ensures Distinct(Recency(writes))
    ensures forall k :: k in Recency(writes) <==> LastWrite(writes, k).Some?
  {
    if writes != [] {
      var n := |writes| - 1;
      var key, older := writes[n].key, Recency(writes[..n]);
      RecencyDistinct(writes[..n]);
      FilterDistinct(older, k => k != key);
      assert Distinct(Except(older, key));
      ExceptMembers(older, key);
      DistinctCons(key, Except(older, key));
      assert Recency(writes) == [key] + Except(older, key);
      hide Except, Recency, Distinct;
    }
  }

  lemma ExceptCons(k: Key, rest: seq<Key>, key: Key)
    ensures Except([k] + rest, key) == if k == key then Except(rest, key) else [k] + Except(rest, key)
    ensures forall x :: x in Except(rest, key) ==> x in rest && x != key
  {
    assert ([k] + rest)[1..] == rest;
  }

  lemma ExceptMembers(keys: seq<Key>, key: Key)
    ensures forall x :: x in Except(keys, key) <==> x in keys && x != key
  {
  }

  lemma LastWriteStep(writes: seq<Entry>, k: Key)
    requires writes != []
    ensures var n := |writes| - 1;
      LastWrite(writes, k) == if writes[n].key == k then Some(writes[n]) else LastWrite(writes[..n], k)
  {
  }

  lemma IncreasingFront(writes: seq<Entry>)
    requires Increasing(writes) && writes != []
    ensures var n := |writes| - 1;
      Increasing(writes[..n]) && forall e :: e in writes[..n] ==> e.time < writes[n].time
  {
  }

  /** The last write of `k` is later than that of `l`. */
  predicate Later(writes: seq<Entry>, k: Key, l: Key) {
    var a, b := LastWrite(writes, k), LastWrite(writes, l);
    a.Some? && b.Some? && a.value.time > b.value.time
  }

  ghost predicate Ordered(keys: seq<Key>, writes: seq<Entry>) {
    forall i, j :: 0 <= i < j < |keys| ==> Later(writes, keys[i], keys[j])
  }

  lemma OrderedCons(k: Key, rest: seq<Key>, writes: seq<Entry>)
    requires Ordered(rest, writes) && forall x :: x in rest ==> Later(writes, k, x)
    ensures Ordered([k] + rest, writes)
  {
    hide Later;
  }

  lemma {:induction false} OrderedExcept(keys: seq<Key>, key: Key, writes: seq<Entry>)
    requires Ordered(keys, writes)
    ensures Ordered(Except(keys, key), writes)
  {
    if keys != [] {
      hide Later, Except;
      OrderedExcept(keys[1..], key, writes);
      ExceptCons(keys[0], keys[1..], key);
      assert keys == [keys[0]] + keys[1..];
      if keys[0] != key {
        OrderedCons(keys[0], Except(keys[1..], key), writes);
      }
    } else {
      assert Except([], key) == [];
    }
  }

  /** Keys further down were last written earlier. */
  lemma {:induction false} RecencyOrdered(writes: seq<Entry>)
    requires Increasing(writes)
    ensures Ordered(Recency(writes), writes)
  {
    if writes != [] {
      var n := |writes| - 1;
      var front, last := writes[..n], writes[n];
      var older := Except(Recency(front), last.key);
      IncreasingFront(writes);
      RecencyOrdered(front);
      OrderedExcept(Recency(front), last.key, front);
      RecencyDistinct(front);
      ExceptMembers(Recency(front), last.key);
      assert Recency(writes) == [last.key] + older;
      hide Except, Recency, LastWrite, Increasing;
      LastWriteStep(writes, last.key);
      forall k | k in older
        ensures LastWrite(writes, k) == LastWrite(front, k) && Later(writes, last.key, k)
      {
        LastWriteStep(writes, k);
      }
      assert Ordered(older, writes);
      OrderedCons(last.key, older, writes);
    }
  }

  // ---------------------------------------------------------------- one write

  /** Moving a key within reach of the top to the front leaves the same keys at the top. */
  lemma TopAgain(keys: seq<Key>, key: Key, n: nat)
    requires Distinct(keys) && key in Top(keys, n)
    ensures var next := [key] + Except(keys, key);
      |Top(next, n)| == |Top(keys, n)| && forall k :: k in Top(next, n) <==> k in Top(keys, n)
  {
    var top, rest := Top(keys, n), keys[|Top(keys, n)|..];
    assert keys == top + rest;
    ExceptAppend(top, rest, key);
    ExceptAbsent(rest, key);
    ExceptLength(top, key);
    ExceptMembers(top, key);
    hide Except;
    assert Top([key] + Except(keys, key), n) == [key] + Except(top, key);
  }

  /** A key from beyond the top, or a new one, pushes the last of a full top out. */
  lemma TopNew(keys: seq<Key>, key: Key, n: nat)
    requires key !in Top(keys, n)
    ensures Top([key] + Except(keys, key), n + 1) == [key] + Top(keys, n)
    ensures |Top(keys, n)| < n ==> Top([key] + Except(keys, key), n) == [key] + Top(keys, n)
  {
    var top, rest := Top(keys, n), keys[|Top(keys, n)|..];
    assert keys == top + rest;
    ExceptAppend(top, rest, key);
    ExceptAbsent(top, key);
    if |top| < n {
      assert rest == [] && Except(rest, key) == [];
    }
    hide Except;
  }

  lemma ExceptAppend(a: seq<Key>, b: seq<Key>, key: Key)
    ensures Except(a + b, key) == Except(a, key) + Except(b, key)
  {
    FilterAppend(a, b, k => k != key);
  }

  lemma ExceptAbsent(keys: seq<Key>, key: Key)
    requires key !in keys
    ensures Except(keys, key) == keys
  {
    FilterAll(keys, k => k != key);
  }

  lemma {:induction false} ExceptLength(keys: seq<Key>, key: Key)
    requires Distinct(keys) && key in keys
    ensures |Except(keys, key)| == |keys| - 1
  {
    ExceptCons(keys[0], keys[1..], key);
    assert keys == [keys[0]] + keys[1..];
    if keys[0] == key {
      ExceptAbsent(keys[1..], key);
    } else {
      ExceptLength(keys[1..], key);
    }
    hide Except;
  }

  lemma LastWriteAppend(writes: seq<Entry>, e: Entry, k: Key)
    ensures LastWrite(writes + [e], k) == if e.key == k then Some(e) else LastWrite(writes, k)
  {
    assert (writes + [e])[..|writes|] == writes;
  }

  lemma RecencyAppend(writes: seq<Entry>, e: Entry)
    ensures Recency(writes + [e]) == [e.key] + Except(Recency(writes), e.key)
  {
    assert (writes + [e])[..|writes|] == writes;
  }

  /** After the assignment, before clean-up: the key just written and those held before. */
  lemma PutHolds(entries: seq<Entry>, keys: seq<Key>, writes: seq<Entry>, e: Entry, next: seq<Key>)
    requires Holds(entries, keys, writes) && (forall k :: k in keys ==> LastWrite(writes, k).Some?)
    requires |next| == |keys| + if e.key in keys then 0 else 1
    requires forall k :: k in next <==> k == e.key || k in keys
    ensures Holds(Put(entries, e), next, writes + [e])
  {
    PutDistinct(entries, e);
    FindPut(entries, e, e.key);
    hide Find, Put, LastWrite, DistinctKeys;
    forall k
      ensures Find(Put(entries, e), k) == if k in next then LastWrite(writes + [e], k) else None
    {
      FindPut(entries, e, k);
      LastWriteAppend(writes, e, k);
    }
  }

  lemma HeldBy(entries: seq<Entry>, keys: seq<Key>, writes: seq<Entry>, k: Key)
    requires Holds(entries, keys, writes)
    ensures Find(entries, k) == if k in keys then LastWrite(writes, k) else None
  {
  }

  lemma LastDropped(keys: seq<Key>, k: Key)
    requires Distinct(keys) && keys != []
    ensures k in keys[..|keys| - 1] <==> k in keys && k != keys[|keys| - 1]
  {
    assert keys == keys[..|keys| - 1] + [keys[|keys| - 1]];
  }

  lemma CleanedFind(entries: seq<Entry>, keys: seq<Key>, writes: seq<Entry>, maxSize: nat, k: Key)
    requires Holds(entries, keys, writes) && |keys| == maxSize + 1 && Distinct(keys)
    requires Cleaned(entries, maxSize) == Without(entries, {keys[maxSize]})
    ensures Find(Cleaned(entries, maxSize), k) == if k in keys[..maxSize] then LastWrite(writes, k) else None
  {
    FindWithout(entries, {keys[maxSize]}, k);
    HeldBy(entries, keys, writes, k);
    LastDropped(keys, k);
    hide *;
  }

  /** Clean-up of one entry too many drops the key written longest ago. */
  lemma CleanupHolds(entries: seq<Entry>, keys: seq<Key>, writes: seq<Entry>, maxSize: nat)
    requires Holds(entries, keys, writes) && |keys| == maxSize + 1 && Ordered(keys, writes) && Distinct(keys)
    ensures Holds(Cleaned(entries, maxSize), keys[..maxSize], writes)
  {
    CleanedOne(entries, maxSize);
    OldestIsLast(entries, keys, writes);
    hide Find, LastWrite, DistinctKeys, Ordered, Without, Cleaned, Oldest, Distinct;
    forall k
      ensures Find(Cleaned(entries, maxSize), k) == if k in keys[..maxSize] then LastWrite(writes, k) else None
    {
      CleanedFind(entries, keys, writes, maxSize, k);
    }
  }

  lemma OldestIsLast(entries: seq<Entry>, keys: seq<Key>, writes: seq<Entry>)
    requires Holds(entries, keys, writes) && entries != [] && Ordered(keys, writes)
    ensures Oldest(entries).key == keys[|keys| - 1]
  {
    var o, last := Oldest(entries), keys[|keys| - 1];
    FindSelf(entries, o);
    assert o.key in keys;
    var i :| 0 <= i < |keys| && keys[i] == o.key;
    assert last in keys && Find(entries, last) == LastWrite(writes, last);
    if i < |keys| - 1 {
      assert false;
    }
  }

  lemma {:induction false} FindSelf(entries: seq<Entry>, e: Entry)
    requires DistinctKeys(entries) && e in entries
    ensures Find(entries, e.key) == Some(e)
  {
    if entries[0] != e {
      var i :| 0 <= i < |entries| && entries[i] == e;
      assert entries[1..][i - 1] == e;
      FindSelf(entries[1..], e);
    }
  }

  lemma SetHoldsKnown(entries: seq<Entry>, writes: seq<Entry>, maxSize: nat, e: Entry)
    requires Holds(entries, Top(Recency(writes), maxSize), writes) && e.key in Top(Recency(writes), maxSize)
    ensures Holds(AfterSet(entries, maxSize, e), Top(Recency(writes + [e]), maxSize), writes + [e])
  {
    var r := Recency(writes);
    RecencyAppend(writes, e);
    RecencyDistinct(writes);
    TopIn(r, maxSize);
    hide Recency, Put, Except, LastWrite, Distinct, DistinctKeys, Find;
    TopAgain(r, e.key, maxSize);
    PutHolds(entries, Top(r, maxSize), writes, e, Top([e.key] + Except(r, e.key), maxSize));
  }

  lemma SetHoldsNew(entries: seq<Entry>, writes: seq<Entry>, maxSize: nat, e: Entry)
    requires Holds(entries, Top(Recency(writes), maxSize), writes) && e.key !in Top(Recency(writes), maxSize)
    requires Increasing(writes + [e])
    ensures Holds(AfterSet(entries, maxSize, e), Top(Recency(writes + [e]), maxSize), writes + [e])
  {
    var r, key := Recency(writes), e.key;
    var top, next := Top(r, maxSize), [key] + Except(r, key);
    RecencyAppend(writes, e);
    RecencyDistinct(writes);
    RecencyDistinct(writes + [e]);
    RecencyOrdered(writes + [e]);
    TopIn(r, maxSize);
    hide Recency, Increasing, Put, Except, LastWrite, Distinct, Ordered, DistinctKeys, Find;
    TopNew(r, key, maxSize);
    PutHolds(entries, top, writes, e, [key] + top);
    TopOrdered(next, maxSize + 1, writes + [e]);
    if |top| == maxSize {
      TopOfTop(next, maxSize);
      HoldsLength(Put(entries, e), [key] + top, writes + [e]);
      assert AfterSet(entries, maxSize, e) == Cleaned(Put(entries, e), maxSize);
      hide *;
      CleanupHolds(Put(entries, e), [key] + top, writes + [e], maxSize);
    } else {
      HoldsLength(Put(entries, e), [key] + top, writes + [e]);
      TopLength(r, maxSize);
      assert AfterSet(entries, maxSize, e) == Put(entries, e);
      hide *;
    }
  }

  lemma SetHolds(entries: seq<Entry>, writes: seq<Entry>, maxSize: nat, e: Entry)
    requires Holds(entries, Top(Recency(writes), maxSize), writes) && Increasing(writes + [e])
    ensures Holds(AfterSet(entries, maxSize, e), Top(Recency(writes + [e]), maxSize), writes + [e])
  {
    hide *;
    if e.key in Top(Recency(writes), maxSize) {
      SetHoldsKnown(entries, writes, maxSize, e);
    } else {
      SetHoldsNew(entries, writes, maxSize, e);
    }
  }

  lemma TopOfTop(keys: seq<Key>, n: nat)
    ensures |Top(keys, n + 1)| == n + 1 ==> Top(keys, n) == Top(keys, n + 1)[..n]
  {
  }

  lemma TopLength(keys: seq<Key>, n: nat)
    ensures |Top(keys, n)| <= n
  {
  }

  lemma HoldsLength(entries: seq<Entry>, keys: seq<Key>, writes: seq<Entry>)
    requires Holds(entries, keys, writes)
    ensures |entries| == |keys|
  {
  }

  lemma TopIn(keys: seq<Key>, n: nat)
    ensures forall k :: k in Top(keys, n) ==> k in keys
  {
  }

  lemma TopOrdered(keys: seq<Key>, n: nat, writes: seq<Entry>)
    requires Ordered(keys, writes) && Distinct(keys)
    ensures Ordered(Top(keys, n), writes) && Distinct(Top(keys, n))
  {
    hide Later;
  }

  /**
   * With strictly increasing times the cache, whatever its capacity, holds exactly the most
   * recently written keys that fit, each with its last written value.
   */
  lemma {:induction false} RefinesHistory(maxSize: nat, writes: seq<Entry>)
    requires Increasing(writes)
    ensures Holds(Play(maxSize, writes), Top(Recency(writes), maxSize), writes)
  {
    if writes != [] {
      var n := |writes| - 1;
      IncreasingFront(writes);
      RefinesHistory(maxSize, writes[..n]);
      assert writes == writes[..n] + [writes[n]];
      SetHolds(Play(maxSize, writes[..n]), writes[..n], maxSize, writes[n]);
    }
    hide Holds, AfterSet, Recency, Top;
  }

  lemma EntryFound(entries: seq<Entry>, key: Key)
    requires DistinctKeys(entries)
    ensures forall e :: e in entries && e.key == key ==> Find(entries, key) == Some(e)
  {
    forall e | e in entries && e.key == key
      ensures Find(entries, key) == Some(e)
    {
      FindSelf(entries, e);
    }
  }

  /** What a reader finds: the last value written for the key while it is among the most recent ones. */
  lemma ReadsLastWrite(maxSize: nat, writes: seq<Entry>, key: Key)
    requires Increasing(writes)
    ensures Find(Play(maxSize, writes), key) ==
      if key in Top(Recency(writes), maxSize) then LastWrite(writes, key) else None
  {
    RefinesHistory(maxSize, writes);
    hide Play, Recency, Top, LastWrite, Find, DistinctKeys;
  }

  // ---------------------------------------------------------------- any clock

  /** Oldest among a new entry at the end and the others: the new one only if it is strictly older than all. */
  lemma OldestOfAppended(entries: seq<Entry>, e: Entry)
    ensures Oldest(entries + [e]) == if forall x :: x in entries ==> e.time < x.time then e else Oldest(entries)
  {
    var s := entries + [e];
    assert s[..|s| - 1] == entries;
  }

  lemma {:induction false} PutAppends(entries: seq<Entry>, e: Entry)
    requires Find(entries, e.key).None?
    ensures Put(entries, e) == entries + [e]
  {
    if entries != [] {
      PutAppends(entries[1..], e);
      assert entries + [e] == [entries[0]] + (entries[1..] + [e]);
    }
  }

  /**
   * Whatever the clock does, a write never leaves the cache above its capacity, and the entry just
   * written is missing afterwards exactly when its key was new, the cache was full, and the clock
   * had fallen behind the time of every entry in it.
   */
  lemma WrittenIsKeptIff(entries: seq<Entry>, maxSize: nat, e: Entry)
    requires DistinctKeys(entries) && |entries| <= maxSize
    ensures var next := AfterSet(entries, maxSize, e);
      && DistinctKeys(next) && |next| <= maxSize
      && (Find(next, e.key) == Some(e) <==>
            Find(entries, e.key).Some? || |entries| < maxSize || exists x :: x in entries && x.time <= e.time)
      && (Find(next, e.key).Some? ==> Find(next, e.key) == Some(e))
  {
    PutDistinct(entries, e);
    FindPut(entries, e, e.key);
    if |Put(entries, e)| > maxSize {
      FullCleaned(entries, maxSize, e);
      hide *;
    } else {
      hide Find, Put, DistinctKeys;
      assert AfterSet(entries, maxSize, e) == Put(entries, e);
    }
  }

  lemma FullCleaned(entries: seq<Entry>, maxSize: nat, e: Entry)
    requires DistinctKeys(entries) && |entries| == maxSize && Find(entries, e.key).None?
    ensures var next := AfterSet(entries, maxSize, e);
      && DistinctKeys(next) && |next| == maxSize
      && (Find(next, e.key) == Some(e) <==> exists x :: x in entries && x.time <= e.time)
      && (Find(next, e.key).Some? ==> Find(next, e.key) == Some(e))
  {
    var put := entries + [e];
    PutAppends(entries, e);
    PutDistinct(entries, e);
    FindPut(entries, e, e.key);
    CleanedOne(put, maxSize);
    FindWithout(put, {Oldest(put).key}, e.key);
    OldestOfAppended(entries, e);
    assert entries != [] ==> Oldest(entries) in entries;
    hide Without, Cleaned, Put, DistinctKeys, Oldest;
  }

  /** A clock that has stepped back loses the entry just written to a full cache. */
  lemma SteppedBackClockLoses()
    ensures AfterSet([Entry("a", 5, "x")], 1, Entry("b", 4, "y")) == [Entry("a", 5, "x")]
  {
    var first, second := Entry("a", 5, "x"), Entry("b", 4, "y");
    PutAppends([first], second);
    assert [first] + [second] == [first, second];
    OldestOfAppended([first], second);
    CleanedOne([first, second], 1);
    WithoutCons(first, [second], {"b"});
    WithoutCons(second, [], {"b"});
    assert [first] + [second] == [first, second] && [second] + [] == [second];
    assert Without([], {"b"}) == [];
    hide Put, Cleaned, Without;
  }
}
