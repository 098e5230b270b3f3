/**
 The cache kept under one key prefix: clearing it removes the keys that carry the
 prefix and no other.
 */
module Cache {
  import opened Bytes
  import opened Records
  import opened Wal
  import opened Formats
  import opened Contents
  import opened Lsm
  import opened Disk
  import opened Iter
  import opened Db

  /** "cache:". */
  const KEY_PREFIX: Bytes := [99, 97, 99, 104, 101, 58]

  function CacheKey(key: Key): Key
  {
    KEY_PREFIX + key
  }

  lemma CacheKeysArePrefixed()
    ensures forall key :: KEY_PREFIX <= CacheKey(key)
    ensures KEY_PREFIX == [99, 97, 99, 104, 101, 58]
  {
  }

  /** Keys that carry a prefix are neighbours: after the first key without it no other has it. */
  lemma {:induction false} PrefixedKeysAreNeighbours(prefix: Key, without: Key, later: Key)
    requires AtMost(prefix, without) && !(prefix <= without) && Less(without, later)
    ensures !(prefix <= later)
    decreases |prefix|
  {
    if prefix <= later && without[0] == later[0] == prefix[0] {
      assert prefix == [prefix[0]] + prefix[1..] && without == [without[0]] + without[1..];
      assert later[1..][..|prefix| - 1] == prefix[1..];
      PrefixedKeysAreNeighbours(prefix[1..], without[1..], later[1..]);
    }
  }

  class PebbleCache {
    const db: DbInner

    constructor (db: DbInner)
      ensures this.db == db
    {
      this.db := db;
    }

    /** Afterwards a prefixed key is gone, and every other key is as it was; a crash leaves some of them. */
    method Clear() returns (ok: bool)
      requires db.Valid()
      modifies db
      ensures db.overflowed ==>
                && !ok
                && db.Full(old(db.disk), Tombstones(old(db.disk)), old(db.MostEntries()) + 1,
                           db.options.targetFileSize)
      ensures !db.overflowed ==>
                Left(old(db.disk), db.disk, Tombstones(old(db.disk)), old(db.MostEntries()) + 1, db.format)
      ensures db.Traced() && old(db.states) <= db.states && (!ok && !db.overflowed ==> db.stopped.Some?)
      ensures !db.overflowed ==>
                forall i | |old(db.states)| <= i < |db.states| :: PartlyCleared(old(db.disk), db.states[i].disk)
      ensures ok ==> db.Valid()
      ensures ok ==> forall k :: Lookup(db.disk, k) == if [99, 97, 99, 104, 101, 58] <= k then None
                                                       else old(Lookup(db.disk, k))
      ensures ok ==> forall key :: Lookup(db.disk, CacheKey(key)) == None
      ensures !ok && !db.overflowed ==> PartlyCleared(old(db.disk), db.disk)
      ensures old(db.budget).None? ==> db.budget.None? && (ok || db.overflowed)
    {
      hide *;
      ValidIsReadable(db);
      CacheKeysArePrefixed();
      ghost var entries := db.MostEntries();
      MostEntriesIs(db);
      var keys := PrefixedKeys();
      ok := true;
      var i := 0;
      while i < |keys|
        invariant 0 <= i <= |keys|
        invariant db.Valid() && Sound(db.disk) && Readable(db.disk) && Storable(db.disk, db.format) && !db.overflowed
        invariant RecordsOn(db.disk) <= old(RecordsOn(db.disk)) + Tombstones(old(db.disk))
        invariant |db.memtable| <= entries && LogEntries(db.disk) == |db.memtable|
        invariant forall k :: Lookup(db.disk, k) == if k in keys[..i] then None else old(Lookup(db.disk, k))
        invariant old(db.states) <= db.states
        invariant forall i | |old(db.states)| <= i < |db.states| :: PartlyCleared(old(db.disk), db.states[i].disk)
        invariant old(db.budget).None? ==> db.budget.None?
      {
        assert keys[i] in keys;
        assert keys[..i + 1] == keys[..i] + [keys[i]];
        ghost var before, held, from := db.disk, |db.memtable|, |db.states|;
        AfterWriteIsShort(db.memtable, Record(keys[i], Tombstone), db.options.flushThreshold);
        TombstoneIn(old(db.disk), keys[i]);
        var existed;
        ok, existed := db.Delete(keys[i]);
        OneTombstone(db, old(db.disk), before, keys[i], held + 1, entries + 1);
        if db.overflowed { return; }
        OneDeleted(before, db.disk, keys[i]);
        StatesCleared(db.states, from, old(db.disk), before, keys[i], {Record(keys[i], Tombstone)}, held + 1,
                      db.format);
        ClearedSoFar(old(db.disk), before, db.disk, keys[i]);
        if !ok { return; }
        ValidIsReadable(db);
        i := i + 1;
      }
      assert keys[..i] == keys;
      ValidIsReadable(db);
      NothingLeft(db, old(db.disk), entries + 1);
    }

    /** The keys with the prefix: a range from the prefix on, up to the first key without it. */
    method PrefixedKeys() returns (keys: seq<Key>)
      requires db.Valid() && Readable(db.disk)
      ensures forall k :: k in keys <==> KEY_PREFIX <= k && Lookup(db.disk, k).Some?
    {
      hide Recover, Lookup, DbInner.Valid, MergeAll, Shown, MergeIterator.Valid, Within, Less, Readable;
      var iter := db.Range(Included(KEY_PREFIX), Unbounded);
      ghost var all := iter.Remaining();
      ghost var done: seq<Record> := [];
      keys := [];
      var item := iter.Next();
      while item.Some?
        invariant fresh(iter) && fresh(iter.merged) && iter.Valid()
        invariant item.None? ==> all == done && iter.Remaining() == []
        invariant item.Some? ==> all == done + [Record(item.value.0, Value(item.value.1))] + iter.Remaining()
        invariant |keys| == |done| && forall j | 0 <= j < |keys| :: keys[j] == done[j].key && KEY_PREFIX <= keys[j]
        decreases item.Some?, |iter.Remaining()|
      {
        if !(KEY_PREFIX <= item.value.0) {
          break;
        }
        keys := keys + [item.value.0];
        done := done + [Record(item.value.0, Value(item.value.1))];
        item := iter.Next();
      }
      forall k
        ensures AtMost(KEY_PREFIX, k) <==> Less(KEY_PREFIX, k) || k == KEY_PREFIX
      {
        BoundsMean(k, Included(KEY_PREFIX), Unbounded);
      }
      if |done| < |all| {
        FindAt(all, |done|);
      }
      forall k
        ensures k in keys <==> KEY_PREFIX <= k && Find(all, k).Some?
      {
        CollectedAre(all, done, keys, k);
      }
      forall k | KEY_PREFIX <= k
        ensures AtMost(KEY_PREFIX, k)
      {
        PrefixFirst(KEY_PREFIX, k);
      }
    }
  }

  /** Some of the keys with the prefix are gone, and every other key is as it was. */
  ghost predicate PartlyCleared(d: Disk, e: Disk)
    requires Readable(d)
  {
    Sound(e) && forall k :: Lookup(e, k) == Lookup(d, k) || ([99, 97, 99, 104, 101, 58] <= k && Lookup(e, k) == None)
  }

  lemma ClearedSoFar(d: Disk, e: Disk, f: Disk, key: Key)
    requires Readable(d) && Readable(e) && Readable(f) && KEY_PREFIX <= key
    requires forall k :: Lookup(e, k) == Lookup(d, k) || (KEY_PREFIX <= k && Lookup(e, k) == None)
    requires SameView(e, f) || Updated(e, f, key, None)
    ensures Sound(f) ==> PartlyCleared(d, f)
  {
    hide Lookup, Readable;
  }

  lemma StatesCleared(states: seq<Moment>, from: nat, d: Disk, e: Disk, key: Key, added: set<Record>, entries: nat,
                      format: Format)
    requires Readable(d) && Readable(e) && KEY_PREFIX <= key
    requires forall k :: Lookup(e, k) == Lookup(d, k) || (KEY_PREFIX <= k && Lookup(e, k) == None)
    requires EachLeft(states, from, e, added, entries, format)
    requires AllUpdated(states, from, e, key, None) || AllSame(states, from, e)
    ensures forall i | from <= i < |states| :: PartlyCleared(d, states[i].disk)
  {
    hide Lookup, Updated, SameView, PartlyCleared, RecordsOn, LogEntries, Sound, Storable;
    forall i | from <= i < |states|
      ensures PartlyCleared(d, states[i].disk)
    {
      ClearedSoFar(d, e, states[i].disk, key);
    }
  }

  /** What clearing writes: a tombstone for each key on the directory that has the prefix, at most. */
  ghost function Tombstones(d: Disk): set<Record>
    requires Readable(d)
  {
    set r | r in RecordsOn(d) && KEY_PREFIX <= r.key :: Record(r.key, Tombstone)
  }

  lemma TombstoneIn(d: Disk, k: Key)
    requires Readable(d) && KEY_PREFIX <= k && Lookup(d, k).Some?
    ensures Record(k, Tombstone) in Tombstones(d)
  {
    hide RecordsOn, Lookup;
    LiveIsHeld(d, k);
  }

  lemma OneTombstone(db: DbInner, d: Disk, e: Disk, k: Key, entries: nat, more: nat)
    requires Readable(d) && Readable(e) && RecordsOn(e) <= RecordsOn(d) + Tombstones(d)
    requires Record(k, Tombstone) in Tombstones(d) && entries <= more
    ensures Left(e, db.disk, {Record(k, Tombstone)}, entries, db.format) ==>
              && Left(d, db.disk, Tombstones(d), more, db.format)
              && Readable(db.disk) && Sound(db.disk) && RecordsOn(db.disk) <= RecordsOn(d) + Tombstones(d)
    ensures db.Full(e, {Record(k, Tombstone)}, entries, db.options.targetFileSize) ==>
              db.Full(d, Tombstones(d), more, db.options.targetFileSize)
  {
    hide RecordsOn, Tombstones, Room, Storable, Recover, Coherent, WellFormed, LogEntries;
    var some, added := RecordsOn(e) + {Record(k, Tombstone)}, RecordsOn(d) + Tombstones(d);
    assert some <= added;
    var target := db.options.targetFileSize;
    if Room(db.format, added, more, target) {
      RoomForLess(db.format, some, entries, target, added, more, target);
    }
  }

  lemma MostEntriesIs(db: DbInner)
    ensures |db.memtable| <= db.MostEntries() && db.options.flushThreshold <= db.MostEntries()
  {
  }

  lemma NothingLeft(db: DbInner, d: Disk, entries: nat)
    requires Readable(d) && Sound(db.disk) && Storable(db.disk, db.format) && Readable(db.disk)
    requires RecordsOn(db.disk) <= RecordsOn(d) + Tombstones(d) && LogEntries(db.disk) <= entries
    ensures Left(d, db.disk, Tombstones(d), entries, db.format)
  {
    hide RecordsOn, Tombstones, Storable, Recover, Coherent, WellFormed, LogEntries;
  }

  lemma ValidIsReadable(db: DbInner)
    requires db.Valid()
    ensures Readable(db.disk) && Sound(db.disk) && Storable(db.disk, db.format) && !db.overflowed
    ensures RecordsOn(db.disk) <= RecordsOn(db.disk) + Tombstones(db.disk) && LogEntries(db.disk) == |db.memtable|
    ensures db.Traced()
  {
    hide Recover, Lookup, Coherent, WellFormed, Storable, RecordsOn, Tombstones;
  }

  lemma OneDeleted(d: Disk, e: Disk, key: Key)
    requires Readable(d) && Readable(e)
    requires SameView(d, e) || Updated(d, e, key, None)
    ensures forall k :: k != key ==> Lookup(e, k) == Lookup(d, k)
    ensures Lookup(e, key) == Lookup(d, key) || Lookup(e, key) == None
    ensures Updated(d, e, key, None) ==> Lookup(e, key) == None
  {
    hide Lookup, Readable;
  }

  /** The records collected before the first key without the prefix are all those with it. */
  lemma CollectedAre(all: seq<Record>, done: seq<Record>, keys: seq<Key>, k: Key)
    requires Sorted(all) && done <= all && |keys| == |done|
    requires forall j | 0 <= j < |keys| :: keys[j] == done[j].key && KEY_PREFIX <= keys[j]
    requires |done| < |all| ==> AtMost(KEY_PREFIX, all[|done|].key) && !(KEY_PREFIX <= all[|done|].key)
    ensures k in keys <==> KEY_PREFIX <= k && Find(all, k).Some?
  {
    if k in keys {
      var j :| 0 <= j < |keys| && keys[j] == k;
      FindAt(all, j);
    }
    if KEY_PREFIX <= k && Find(all, k).Some? {
      FindIndex(all, k);
      var i :| 0 <= i < |all| && all[i] == Record(k, Find(all, k).value);
      if i > |done| {
        PrefixedKeysAreNeighbours(KEY_PREFIX, all[|done|].key, k);
      }
    }
  }
}
