/**
 The directory as the operating system sees it: names and contents. What the
 engine discovers in it is the abstract directory that the protocol is about.
 */
module Directory {
  import opened Bytes
  import opened Records
  import opened Lsm
  import opened Disk
  import opened SsTableReader
  import opened Names
  import opened Formats
  import opened Contents

  datatype Content = Data(bytes: Bytes) | Text(text: string)

  const WAL_FILE := "wal.log"
  const MERGE_PENDING_FILE := "merge.pending"

  /** A table of L0 may have the name of a time when there were no levels. */
  predicate IsTableName(d: Disk, name: string, id: nat)
  {
    id in d.files && (name == FileName(d.files[id].level, id) || (d.files[id].level == 0 && name == LegacyName(id)))
  }

  /** The name that a table has in a directory. */
  function TableName(dir: map<string, Content>, fs: Files, id: nat): string
    requires id in fs
  {
    if fs[id].level == 0 && LegacyName(id) in dir then LegacyName(id) else FileName(fs[id].level, id)
  }

  /** What the engine has written: the log, the tables, unfinished files, the marker. */
  ghost predicate Stores(dir: map<string, Content>, d: Disk, format: Format)
  {
    && WAL_FILE in dir && dir[WAL_FILE] == Data(d.wal)
    && (MERGE_PENDING_FILE in dir <==> d.marker.Some?)
    && (d.marker.Some? ==> dir[MERGE_PENDING_FILE] == Text(MarkerText(d.marker.value.outputs, d.marker.value.inputs)))
    && (forall id | id in d.files ::
          var name := TableName(dir, d.files, id);
          name in dir && dir[name] == Data(format.FileOf(d.files[id].records)))
    && (forall id | id in d.files && d.files[id].level == 0 :: FileName(0, id) !in dir || LegacyName(id) !in dir)
    && (forall name | name in dir ::
          || name == WAL_FILE || name == MERGE_PENDING_FILE
          || (exists id :: IsTableName(d, name, id))
          || (exists level, id :: id in d.tmps && name == FileName(level, id) + ".tmp"))
  }

  datatype TableFile = TableFile(id: nat, level: nat, name: string)

  /** `discover_sstables`: the names that are names of tables, with their ids and levels. */
  function Discovered(dir: map<string, Content>): set<TableFile>
  {
    set name | name in dir && ParseFileName(name).Some?
      :: TableFile(ParseFileName(name).value.0, ParseFileName(name).value.1, name)
  }

  function TableFiles(dir: map<string, Content>, fs: Files): set<TableFile>
  {
    set id | id in fs :: TableFile(id, fs[id].level, TableName(dir, fs, id))
  }

  /** Every storable directory can be stored. */
  function FilesFor(d: Disk, format: Format): map<string, Content>
  {
    var tables := map name | name in TableNames(d)
                             && ParseFileName(name).Some? && ParseFileName(name).value.0 in d.files
                    :: Data(format.FileOf(d.files[ParseFileName(name).value.0].records));
    var log := tables[WAL_FILE := Data(d.wal)];
    if d.marker.None? then log
    else log[MERGE_PENDING_FILE := Text(MarkerText(d.marker.value.outputs, d.marker.value.inputs))]
  }

  function TableNames(d: Disk): set<string>
  {
    set id | id in d.files :: FileName(d.files[id].level, id)
  }

  /** Each name of a storable table, the old one included, is parsed as it should be, and is no other file's. */
  lemma NamesAreParsed(level: nat, id: nat)
    requires level < U32_MODULUS && id < U64_MODULUS
    ensures ParseFileName(FileName(level, id)) == Some((id, level)) && ParseFileName(LegacyName(id)) == Some((id, 0))
    ensures FileName(level, id) != WAL_FILE && FileName(level, id) != MERGE_PENDING_FILE
    ensures LegacyName(id) != WAL_FILE && LegacyName(id) != MERGE_PENDING_FILE
    ensures FileName(level, id) != LegacyName(id)
  {
    hide Decimal, SixDigits, ParseFileName;
    FileNameRoundTripIffFits(level, id);
    LegacyNameParses(id);
    assert FileName(level, id)[0] == 's' && LegacyName(id)[0] == 's' && WAL_FILE[0] == 'w'
        && MERGE_PENDING_FILE[0] == 'm';
    assert FileName(level, id)[8] == 'L';
    assert LegacyName(id)[8] == SixDigits(id)[0] && SixDigits(id)[0] in SixDigits(id);
  }

  lemma StorableCanBeStored(d: Disk, format: Format)
    requires Storable(d, format)
    ensures Stores(FilesFor(d, format), d, format)
  {
    hide ParseFileName, FileName, LegacyName, Format.Fits, Format.FileOf, MarkerText, Storable;
    NamesDiffer(d);
    var dir := FilesFor(d, format);
    forall id | id in d.files
      ensures TableName(dir, d.files, id) in dir && LegacyName(id) !in dir
      ensures dir[TableName(dir, d.files, id)] == Data(format.FileOf(d.files[id].records))
    {
      FileForTable(d, format, id);
    }
    forall name | name in dir
      ensures name == WAL_FILE || name == MERGE_PENDING_FILE || exists id :: IsTableName(d, name, id)
    {
      if name in TableNames(d) {
        var id :| id in d.files && name == FileName(d.files[id].level, id);
        assert IsTableName(d, name, id);
      }
    }
  }

  lemma FileForTable(d: Disk, format: Format, id: nat)
    requires Storable(d, format) && id in d.files
    ensures var dir, name := FilesFor(d, format), FileName(d.files[id].level, id);
            && LegacyName(id) !in dir && name in dir && dir[name] == Data(format.FileOf(d.files[id].records))
  {
    hide ParseFileName, FileName, LegacyName, Format.Fits, Format.FileOf, MarkerText, Storable;
    NamesDiffer(d);
    StorableIds(d, format, id);
    NamesAreParsed(d.files[id].level, id);
    assert FileName(d.files[id].level, id) in TableNames(d);
    if LegacyName(id) in TableNames(d) {
      var o :| o in d.files && LegacyName(id) == FileName(d.files[o].level, o);
      StorableIds(d, format, o);
      NamesAreParsed(d.files[o].level, o);
    }
  }

  lemma NamesDiffer(d: Disk)
    ensures WAL_FILE != MERGE_PENDING_FILE
    ensures WAL_FILE !in TableNames(d) && MERGE_PENDING_FILE !in TableNames(d)
  {
    hide Decimal, SixDigits;
    assert WAL_FILE[0] == 'w' && MERGE_PENDING_FILE[0] == 'm';
    forall id | id in d.files
      ensures FileName(d.files[id].level, id) != WAL_FILE && FileName(d.files[id].level, id) != MERGE_PENDING_FILE
    {
      assert FileName(d.files[id].level, id)[0] == 's';
    }
  }

  lemma OtherNamesAreNoTables()
    ensures ParseFileName(WAL_FILE) == None && ParseFileName(MERGE_PENDING_FILE) == None
  {
    assert WAL_FILE[0] == 'w' && MERGE_PENDING_FILE[0] == 'm' && "sstable_"[0] == 's';
  }

  /** Discovery finds exactly the tables, each under its own id and level, whichever form of name it has. */
  lemma TablesAreDiscovered(dir: map<string, Content>, d: Disk, format: Format)
    requires Stores(dir, d, format) && Storable(d, format)
    ensures Discovered(dir) == TableFiles(dir, d.files)
  {
    hide ParseFileName, FileName, LegacyName, Format.Fits, Format.FileOf;
    OtherNamesAreNoTables();
    var tables := TableFiles(dir, d.files);
    forall id | id in d.files
      ensures TableFile(id, d.files[id].level, TableName(dir, d.files, id)) in Discovered(dir)
    {
      StorableIds(d, format, id);
      NamesAreParsed(d.files[id].level, id);
    }
    forall t | t in Discovered(dir)
      ensures t in tables
    {
      var name := t.name;
      if id :| IsTableName(d, name, id) {
        StorableIds(d, format, id);
        NamesAreParsed(d.files[id].level, id);
        assert name == TableName(dir, d.files, id);
      } else {
        var level, id :| id in d.tmps && name == FileName(level, id) + ".tmp";
        TmpIsNoTable(FileName(level, id));
      }
    }
  }

  /** The failing input of a reader that knows the new form only: a table of L0 with its old name is found. */
  lemma LegacyIsDiscovered(dir: map<string, Content>, id: nat)
    requires "sstable_" + SixDigits(id) + ".sst" in dir && id < U64_MODULUS
    ensures TableFile(id, 0, "sstable_" + SixDigits(id) + ".sst") in Discovered(dir)
  {
    hide ParseFileName, SixDigits;
    LegacyNameParses(id);
    assert LegacyName(id) in dir;
  }

  /** A discovered table loads, holds the records of the abstract file, and answers lookups like them. */
  lemma TableLoads(dir: map<string, Content>, d: Disk, format: Format, id: nat)
    requires Stores(dir, d, format) && Storable(d, format) && id in d.files
    ensures var name, rs := TableName(dir, d.files, id), d.files[id].records;
            && name in dir && dir[name].Data? && LoadedFrom(dir[name].bytes).Ok?
            && var t := LoadedFrom(dir[name].bytes).value;
               t.Gathered(|t.index|) == rs && forall key :: t.Lookup(key) == Ok(Find(rs, key))
  {
    hide FileName, LegacyName, Format.FileOf, Format.Fits, LoadedFrom, Loaded.Gathered, Loaded.Lookup;
    StorableIds(d, format, id);
    FittingTableLoads(format, d.files[id].records);
  }

  /** The marker is read as it was written. */
  lemma MarkerIsRead(dir: map<string, Content>, d: Disk, format: Format)
    requires Stores(dir, d, format) && Storable(d, format) && d.marker.Some?
    ensures MERGE_PENDING_FILE in dir && dir[MERGE_PENDING_FILE].Text?
    ensures AfterLines(Lines(dir[MERGE_PENDING_FILE].text)) == MarkerIds(d.marker.value.outputs, d.marker.value.inputs)
  {
    hide FileName, LegacyName, Format.Fits, Format.FileOf;
    MarkerRoundTrip(d.marker.value.outputs, d.marker.value.inputs);
  }
}
