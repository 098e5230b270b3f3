/**
 Opening a directory by its names and bytes: unfinished files go, a pending merge
 is finished, and every table is loaded. What happens to names and bytes is what
 happens to the abstract directory that they store.
 */
module Opening {
  import opened Bytes
  import opened Records
  import opened Disk
  import opened Merging
  import opened Levels
  import opened Names
  import opened Formats
  import opened Contents
  import opened Directory
  import SsTableReader
  import SsTableSize
  import SsTable

  // ---------- names ----------

  predicate IsTmp(name: string)
  {
    StripSuffix(name, ".tmp").Some?
  }

  lemma OnlyTmpsAreTmp(level: nat, id: nat)
    ensures !IsTmp(WAL_FILE) && !IsTmp(MERGE_PENDING_FILE) && !IsTmp(FileName(level, id)) && !IsTmp(LegacyName(id))
    ensures IsTmp(FileName(level, id) + ".tmp")
  {
    hide Decimal, SixDigits;
    var name, legacy := FileName(level, id), LegacyName(id);
    assert name[|name| - 4..] == ".sst" && legacy[|legacy| - 4..] == ".sst";
    assert (name + ".tmp")[|name|..] == ".tmp";
    assert WAL_FILE[|WAL_FILE| - 4..] == ".log" && MERGE_PENDING_FILE[|MERGE_PENDING_FILE| - 4..] == "ding";
  }

  /** A stored table is known by its name, and by no other table's. */
  lemma NameOfTable(dir: map<string, Content>, d: Disk, format: Format, id: nat)
    requires Storable(d, format) && id in d.files
    ensures var name := TableName(dir, d.files, id);
            && ParseFileName(name) == Some((id, d.files[id].level))
            && name != WAL_FILE && name != MERGE_PENDING_FILE
    ensures ParseFileName(LegacyName(id)) == Some((id, 0))
    ensures ParseFileName(FileName(d.files[id].level, id)) == Some((id, d.files[id].level))
  {
    hide FileName, LegacyName, ParseFileName;
    StorableIds(d, format, id);
    NamesAreParsed(d.files[id].level, id);
  }

  // ---------- steps ----------

  /** The directory without its unfinished files. */
  function WithoutTmps(dir: map<string, Content>): map<string, Content>
  {
    map name | name in dir && !IsTmp(name) :: dir[name]
  }

  lemma TmpsRemoved(dir: map<string, Content>, d: Disk, format: Format)
    requires Stores(dir, d, format)
    ensures Stores(WithoutTmps(dir), d.(tmps := {}), format)
  {
    hide FileName, LegacyName, IsTmp, Format.FileOf, MarkerText;
    var rest, e := WithoutTmps(dir), d.(tmps := {});
    OnlyTmpsAreTmp(0, 0);
    forall id | id in d.files
      ensures TableName(rest, d.files, id) == TableName(dir, d.files, id) && TableName(dir, d.files, id) in rest
    {
      OnlyTmpsAreTmp(d.files[id].level, id);
    }
    forall name | name in rest
      ensures name == WAL_FILE || name == MERGE_PENDING_FILE || exists id :: IsTableName(e, name, id)
    {
      if level, id :| id in d.tmps && name == FileName(level, id) + ".tmp" {
        OnlyTmpsAreTmp(level, id);
      } else if id :| IsTableName(d, name, id) {
        assert IsTableName(e, name, id);
      }
    }
  }

  /** Deleting the file of a table deletes the table and nothing else. */
  lemma TableRemoved(dir: map<string, Content>, d: Disk, format: Format, id: nat, name: string, e: Disk)
    requires Stores(dir, d, format) && Storable(d, format) && id in d.files && d.tmps == {}
    requires name == TableName(dir, d.files, id) && e == d.(files := d.files - {id})
    ensures Stores(dir - {name}, e, format)
    ensures forall o | o in e.files :: o in d.files && TableName(dir - {name}, e.files, o) == TableName(dir, d.files, o)
  {
    hide FileName, LegacyName, ParseFileName, Format.FileOf, MarkerText, Storable;
    var rest := dir - {name};
    NameOfTable(dir, d, format, id);
    forall o | o in e.files
      ensures o in d.files && TableName(rest, e.files, o) == TableName(dir, d.files, o) != name
    {
      NameOfTable(dir, d, format, o);
    }
    forall other | other in rest
      ensures other == WAL_FILE || other == MERGE_PENDING_FILE || exists o :: IsTableName(e, other, o)
    {
      if o :| IsTableName(d, other, o) {
        assert o != id;
        assert IsTableName(e, other, o);
      }
    }
  }

  lemma MarkerRemoved(dir: map<string, Content>, d: Disk, format: Format)
    requires Stores(dir, d, format) && Storable(d, format) && d.tmps == {}
    ensures Stores(dir - {MERGE_PENDING_FILE}, d.(marker := None), format)
  {
    hide FileName, LegacyName, ParseFileName, Format.FileOf, MarkerText, Storable;
    var rest, e := dir - {MERGE_PENDING_FILE}, d.(marker := None);
    assert WAL_FILE[0] == 'w' && MERGE_PENDING_FILE[0] == 'm';
    forall id | id in e.files
      ensures TableName(rest, e.files, id) == TableName(dir, d.files, id) && TableName(dir, d.files, id) in rest
    {
      NameOfTable(dir, d, format, id);
      OtherNamesAreNoTables();
    }
    forall other | other in rest
      ensures other == WAL_FILE || exists o :: IsTableName(e, other, o)
    {
      if o :| IsTableName(d, other, o) {
        assert IsTableName(e, other, o);
      }
    }
  }

  // ---------- tables ----------

  predicate Loads(dir: map<string, Content>, name: string)
  {
    name in dir && dir[name].Data? && SsTableReader.LoadedFrom(dir[name].bytes).Ok?
  }

  /** Every file with the name of a table loads. */
  predicate AllLoad(dir: map<string, Content>)
  {
    forall t | t in Discovered(dir) :: Loads(dir, t.name)
  }

  /** The files of a directory, and what opening does to them. */
  class Folder {
    var dir: map<string, Content>

    constructor (dir: map<string, Content>)
      ensures this.dir == dir
    {
      this.dir := dir;
    }

    /** Whatever ends in ".tmp" goes. */
    method RemoveTmps()
      modifies this
      ensures dir == WithoutTmps(old(dir))
    {
      var names := dir.Keys;
      while names != {}
        invariant names <= old(dir).Keys
        invariant dir == map name | name in old(dir) && (name in names || !IsTmp(name)) :: old(dir)[name]
        decreases names
      {
        var name :| name in names;
        names := names - {name};
        if IsTmp(name) {
          dir := dir - {name};
        }
      }
    }

    /** What is left is the directory in which the marker has been dealt with. */
    method FinishPendingMerge(ghost d: Disk, ghost format: Format)
      requires Stores(dir, d, format) && Storable(d, format) && d.tmps == {}
      modifies this
      ensures Stores(dir, d.(files := RecoveredFiles(d), marker := None), format)
    {
      hide *;
      MarkerStored(dir, d, format);
      if MERGE_PENDING_FILE !in dir {
        return;
      }
      var marker := ReadMarker(dir[MERGE_PENDING_FILE].text);
      var files := Discovered(dir);
      TablesAreDiscovered(dir, d, format);
      OneNameEach(dir, d, files);
      Recovers(d, files, marker);
      MarkerRemoved(dir, d, format);
      if forall id | id in marker.outputs :: exists f | f in files :: f.id == id {
        ghost var gone: set<nat> := {};
        NothingRemoved(dir, d, format, marker.inputs);
        var left := files;
        while left != {}
          invariant Removing(old(dir), dir, d, format, marker.inputs, left, gone)
          decreases left
        {
          var f :| f in left;
          RemoveNext(old(dir), dir, d, format, marker.inputs, left, gone, f);
          left := left - {f};
          if f.id in marker.inputs {
            dir := dir - {f.name};
            gone := gone + {f.id};
          }
        }
        InputsRemoved(old(dir), dir, d, format, marker.inputs, gone);
      }
      dir := dir - {MERGE_PENDING_FILE};
    }

    /** `discover_sstables` and the loop over it: every table in its level, or a file that does not load. */
    method LoadTables(ghost d: Disk, ghost format: Format) returns (ok: bool, levels: Levels, next: nat)
      ensures ok <==> AllLoad(dir)
      ensures Stores(dir, d, format) && Storable(d, format) ==>
                && ok && |levels| >= 1 && Mirrors(levels, d.files)
                && (forall id | id in d.files :: id < next) && (next > 0 ==> next - 1 in d.files)
    {
      hide *;
      ghost var stored := Stores(dir, d, format) && Storable(d, format);
      ghost var ids: seq<nat> := [];
      var files := Discovered(dir);
      if stored {
        TablesAreDiscovered(dir, d, format);
        NothingSoFar(dir, d);
      }
      AllLoadIs(dir);
      levels := [[]];
      next := 0;
      var left := files;
      while left != {}
        invariant left <= files && forall t | t in files && t !in left :: Loads(dir, t.name)
        invariant stored ==> SoFar(dir, levels, d, ids, left, next)
        decreases left
      {
        LeastExists(left);
        var t :| t in left && forall o | o in left :: t.id <= o.id;
        LoadsIs(dir, t.name);
        if stored {
          OneOfThem(dir, levels, d, ids, left, next, t);
          TableLoads(dir, d, format, t.id);
        }
        if t.name !in dir || !dir[t.name].Data? {
          return false, levels, next;
        }
        var loaded := SsTableReader.Load(dir[t.name].bytes);
        if loaded.Err? {
          return false, levels, next;
        }
        var entries := loaded.value.Entries();
        if stored {
          OneMoreLoaded(dir, levels, d, ids, left, next, t);
        }
        PaddedHas(levels, t.level);
        levels := EnsureLevel(levels, t.level);
        levels := levels[t.level := levels[t.level] + [Sst(t.id, entries)]];
        next := (if t.id > next then t.id else next) + 1;
        left := left - {t};
        ids := ids + [t.id];
      }
      ok := true;
      if stored {
        LoadedAll(dir, levels, d, ids, next);
      }
    }

    /** All of it, in the order of `open_with_options`. */
    method Open(ghost d: Disk, ghost format: Format) returns (ok: bool, levels: Levels, next: nat)
      requires Stores(dir, d, format) && Storable(d, format)
      modifies this
      ensures ok && Stores(dir, Disk(d.wal, RecoveredFiles(d), {}, None), format)
      ensures |levels| >= 1 && Mirrors(levels, RecoveredFiles(d))
      ensures (forall id | id in RecoveredFiles(d) :: id < next) && (next > 0 ==> next - 1 in RecoveredFiles(d))
    {
      hide *;
      RecoveredIsStorable(d, format);
      TmpsRemoved(dir, d, format);
      RemoveTmps();
      FinishPendingMerge(d.(tmps := {}), format);
      ok, levels, next := LoadTables(Disk(d.wal, RecoveredFiles(d), {}, None), format);
    }
  }

  /** `while levels.len() <= level`. */
  method EnsureLevel(before: Levels, level: nat) returns (levels: Levels)
    ensures levels == Padded(before, level)
  {
    levels := before;
    while |levels| <= level
      invariant Padded(levels, level) == Padded(before, level)
      decreases level + 1 - |levels|
    {
      levels := levels + [[]];
    }
  }

  // ---------- what the loops need ----------

  lemma MarkerStored(dir: map<string, Content>, d: Disk, format: Format)
    requires Stores(dir, d, format) && Storable(d, format)
    ensures MERGE_PENDING_FILE in dir <==> d.marker.Some?
    ensures d.marker.None? ==> RecoveredFiles(d) == d.files
    ensures d.marker.Some? ==>
              && dir[MERGE_PENDING_FILE].Text?
              && AfterLines(Lines(dir[MERGE_PENDING_FILE].text))
                 == MarkerIds(d.marker.value.outputs, d.marker.value.inputs)
  {
    hide FileName, LegacyName, Format.Fits, Format.FileOf, MarkerText, Lines, Storable;
    if d.marker.Some? {
      MarkerIsRead(dir, d, format);
    }
  }

  lemma OneNameEach(dir: map<string, Content>, d: Disk, files: set<TableFile>)
    requires files == TableFiles(dir, d.files)
    ensures forall f | f in files ::
              f.id in d.files && f.level == d.files[f.id].level && f.name == TableName(dir, d.files, f.id)
    ensures forall f, g | f in files && g in files && f.id == g.id :: f == g
    ensures forall id | id in d.files :: exists f :: f in files && f.id == id
  {
    hide TableName;
    forall id | id in d.files
      ensures exists f :: f in files && f.id == id
    {
      assert TableFile(id, d.files[id].level, TableName(dir, d.files, id)) in files;
    }
  }

  /** The names tell whether the outputs are there. */
  lemma Recovers(d: Disk, files: set<TableFile>, marker: MarkerIds)
    requires d.marker == Some(Marker(marker.outputs, marker.inputs))
    requires forall f | f in files :: f.id in d.files
    requires forall id | id in d.files :: exists f :: f in files && f.id == id
    ensures RecoveredFiles(d)
         == if forall id | id in marker.outputs :: exists f | f in files :: f.id == id
            then d.files - IdSet(marker.inputs) else d.files
  {
    if forall id | id in marker.outputs :: exists f | f in files :: f.id == id {
      assert IdSet(marker.outputs) <= d.files.Keys;
    }
    if IdSet(marker.outputs) <= d.files.Keys {
      forall id | id in marker.outputs
        ensures exists f | f in files :: f.id == id
      {
        assert id in IdSet(marker.outputs);
      }
    }
  }

  /** The inputs that were listed and are not left are gone, and nothing else is. */
  ghost predicate Removing(all: map<string, Content>, dir: map<string, Content>, d: Disk, format: Format,
                           inputs: seq<nat>, left: set<TableFile>, gone: set<nat>)
  {
    var e := d.(files := d.files - gone);
    && Stores(dir, e, format) && Storable(e, format)
    && left <= TableFiles(all, d.files) && (forall f | f in left :: f.id !in gone)
    && (forall f | f in left && f.id in e.files :: f.name == TableName(dir, e.files, f.id))
    && (forall id | id in gone :: id in inputs)
    && (forall f | f in TableFiles(all, d.files) && f !in left && f.id in inputs :: f.id in gone)
  }

  lemma NothingRemoved(dir: map<string, Content>, d: Disk, format: Format, inputs: seq<nat>)
    requires Stores(dir, d, format) && Storable(d, format)
    ensures Removing(dir, dir, d, format, inputs, TableFiles(dir, d.files), {})
  {
    hide Stores, Storable, TableFiles, TableName;
    OneNameEach(dir, d, TableFiles(dir, d.files));
    assert d.files - {} == d.files;
  }

  lemma RemoveNext(all: map<string, Content>, dir: map<string, Content>, d: Disk, format: Format, inputs: seq<nat>,
                   left: set<TableFile>, gone: set<nat>, f: TableFile)
    requires Removing(all, dir, d, format, inputs, left, gone) && f in left && d.tmps == {}
    ensures if f.id in inputs then Removing(all, dir - {f.name}, d, format, inputs, left - {f}, gone + {f.id})
            else Removing(all, dir, d, format, inputs, left - {f}, gone)
  {
    hide Stores, Storable, TableFiles, TableName;
    OneNameEach(all, d, TableFiles(all, d.files));
    if f.id in inputs {
      var e := d.(files := d.files - gone);
      TableRemoved(dir, e, format, f.id, TableName(dir, e.files, f.id), e.(files := e.files - {f.id}));
      StorableWithout(e, format, f.id);
      assert d.files - (gone + {f.id}) == d.files - gone - {f.id};
    }
  }

  lemma InputsRemoved(all: map<string, Content>, dir: map<string, Content>, d: Disk, format: Format, inputs: seq<nat>,
                      gone: set<nat>)
    requires Removing(all, dir, d, format, inputs, {}, gone) && d.tmps == {}
    ensures Stores(dir - {MERGE_PENDING_FILE}, d.(files := d.files - IdSet(inputs), marker := None), format)
  {
    hide Stores, Storable, TableFiles, TableName;
    OneNameEach(all, d, TableFiles(all, d.files));
    MarkerRemoved(dir, d.(files := d.files - gone), format);
    assert d.files - gone == d.files - IdSet(inputs);
  }

  lemma StorableWithout(d: Disk, format: Format, id: nat)
    requires Storable(d, format)
    ensures Storable(d.(files := d.files - {id}), format)
  {
    hide TableFits;
  }

  lemma RecoveredIsStorable(d: Disk, format: Format)
    requires Storable(d, format)
    ensures Storable(d.(tmps := {}), format) && Storable(Disk(d.wal, RecoveredFiles(d), {}, None), format)
    ensures d.(tmps := {}).(files := RecoveredFiles(d.(tmps := {})), marker := None)
         == Disk(d.wal, RecoveredFiles(d), {}, None)
  {
    hide TableFits;
  }

  lemma AllLoadIs(dir: map<string, Content>)
    ensures AllLoad(dir) <==> forall t | t in Discovered(dir) :: Loads(dir, t.name)
  {
  }

  lemma LoadsIs(dir: map<string, Content>, name: string)
    ensures Loads(dir, name) <==> name in dir && dir[name].Data? && SsTableReader.LoadedFrom(dir[name].bytes).Ok?
  {
    hide SsTableReader.LoadedFrom;
  }

  lemma {:induction false} LeastExists(files: set<TableFile>)
    requires files != {}
    ensures exists t :: t in files && forall o | o in files :: t.id <= o.id
    decreases |files|
  {
    var t :| t in files;
    var rest := files - {t};
    if rest != {} {
      LeastExists(rest);
      var r :| r in rest && forall o | o in rest :: r.id <= o.id;
      var least := if r.id < t.id then r else t;
      assert forall o | o in files :: o == t || o in rest;
      assert least in files && forall o | o in files :: least.id <= o.id;
    } else {
      assert files == {t};
    }
  }

  /** Tables are loaded up to those that are left, in ascending order of ids. */
  ghost predicate SoFar(dir: map<string, Content>, levels: Levels, d: Disk, ids: seq<nat>, left: set<TableFile>,
                        next: nat)
  {
    && Loaded(levels, d.files, ids) && left <= TableFiles(dir, d.files)
    && (forall id :: id in ids <==> id in d.files && forall t | t in left :: t.id != id)
    && (forall id, t | id in ids && t in left :: id < t.id)
    && (forall id | id in ids :: id < next) && (next > 0 ==> next - 1 in ids)
  }

  lemma NothingSoFar(dir: map<string, Content>, d: Disk)
    ensures SoFar(dir, [[]], d, [], TableFiles(dir, d.files), 0)
  {
    hide Loaded, TableFiles;
    OneNameEach(dir, d, TableFiles(dir, d.files));
    NothingLoaded(d.files);
  }

  lemma OneOfThem(dir: map<string, Content>, levels: Levels, d: Disk, ids: seq<nat>, left: set<TableFile>, next: nat,
                  t: TableFile)
    requires SoFar(dir, levels, d, ids, left, next) && t in left
    ensures t.id in d.files && t.level == d.files[t.id].level && t.name == TableName(dir, d.files, t.id)
  {
    hide Loaded, TableFiles, TableName;
    OneNameEach(dir, d, TableFiles(dir, d.files));
  }

  lemma OneMoreLoaded(dir: map<string, Content>, levels: Levels, d: Disk, ids: seq<nat>, left: set<TableFile>,
                      next: nat, t: TableFile)
    requires SoFar(dir, levels, d, ids, left, next) && t in left && forall o | o in left :: t.id <= o.id
    requires t.id in d.files && t.level == d.files[t.id].level
    ensures |Padded(levels, t.level)| > t.level
    ensures var padded := Padded(levels, t.level);
            SoFar(dir, padded[t.level := padded[t.level] + [Sst(t.id, d.files[t.id].records)]], d, ids + [t.id],
                  left - {t}, (if t.id > next then t.id else next) + 1)
  {
    hide Loaded, TableFiles, Padded, TableName;
    OneNameEach(dir, d, TableFiles(dir, d.files));
    LoadMore(levels, d.files, ids, t.id);
    PaddedHas(levels, t.level);
  }

  lemma LoadedAll(dir: map<string, Content>, levels: Levels, d: Disk, ids: seq<nat>, next: nat)
    requires SoFar(dir, levels, d, ids, {}, next)
    ensures |levels| >= 1 && Mirrors(levels, d.files)
    ensures (forall id | id in d.files :: id < next) && (next > 0 ==> next - 1 in d.files)
  {
    hide Loaded, Mirrors, TableFiles;
    AllLoaded(levels, d.files, ids);
  }

  // ---------- a directory that cannot be opened ----------

  /** With the table of one record that is too long, a directory is not opened again. */
  lemma LongTableStopsOpening(dir: map<string, Content>, d: Disk, format: Format, id: nat, k: Key, v: Bytes)
    requires Stores(dir, d, format) && id in d.files && id < U64_MODULUS && d.files[id].level < U32_MODULUS
    requires d.files[id].records == [Record(k, Entry.Value(v))]
    requires 1 <= |k| < 0x1_0000 && RecordSize(Record(k, Entry.Value(v))) == U32_MODULUS - 1
    ensures !AllLoad(dir)
  {
    hide FileName, LegacyName, ParseFileName, Format.FileOf, MarkerText, SsTableReader.LoadedFrom, SsTable.FileOf,
      SsTable.FilterFor;
    var name, rs := TableName(dir, d.files, id), d.files[id].records;
    NamesAreParsed(d.files[id].level, id);
    assert TableFile(id, d.files[id].level, name) in Discovered(dir);
    FileOfIs(format, rs);
    SsTableSize.LongRecordIsNotLoaded(k, v, format.blockSize, SsTable.FilterFor(rs, format.sizing));
  }
}
