/**
 Cursors over sorted records, and the newest-wins k-way merge of them.
 */
module Iter {
  import opened Bytes
  import opened Records

  // ---------- one source ----------

  function PartitionPoint(rs: seq<Record>, target: Key): (i: nat)
    ensures i <= |rs|
    decreases |rs|
  {
    if rs == [] || !Less(rs[0].key, target) then 0 else 1 + PartitionPoint(rs[1..], target)
  }

  /** The records from `target` on. */
  function From(rs: seq<Record>, target: Key): seq<Record>
  {
    rs[PartitionPoint(rs, target)..]
  }

  /** A memtable iterator, and what every other source behaves like: a snapshot and a position. */
  datatype Cursor = Cursor(entries: seq<Record>, pos: Option<nat>) {
    function Remaining(): seq<Record>
    {
      if pos.Some? && pos.value < |entries| then entries[pos.value..] else []
    }

    function At(i: nat): (c: Cursor)
      requires i <= |entries|
      ensures c.entries == entries && c.Remaining() == entries[i..]
    {
      Cursor(entries, if i < |entries| then Some(i) else None)
    }

    function SeekToFirst(): Cursor
    {
      At(0)
    }

    function Seek(target: Key): Cursor
    {
      At(PartitionPoint(entries, target))
    }

    function Advance(): (c: Cursor)
      ensures c.entries == entries
      ensures c.Remaining() == if Remaining() == [] then [] else Remaining()[1..]
    {
      Cursor(entries, if pos.Some? && pos.value + 1 < |entries| then Some(pos.value + 1) else None)
    }

    predicate Valid()
    {
      Remaining() != []
    }

    function Key(): Option<Key>
    {
      if Valid() then Some(Remaining()[0].key) else None
    }

    function Value(): Option<Bytes>
    {
      if Valid() then Visible(Some(Remaining()[0].entry)) else None
    }
  }

  /** The mutable memtable cursor: a copy of the entries, so later writes do not reach it. */
  class MemtableIterator {
    const entries: seq<Record>
    var pos: Option<nat>

    ghost function View(): Cursor
      reads this
    {
      Cursor(entries, pos)
    }

    constructor (memtable: seq<Record>)
      ensures View() == Cursor(memtable, None)
    {
      entries := memtable;
      pos := None;
    }

    method SeekToFirst()
      modifies this
      ensures View() == old(View()).SeekToFirst()
      ensures View().Remaining() == entries
    {
      pos := if entries != [] then Some(0) else None;
    }

    method Seek(target: Key)
      modifies this
      ensures View() == old(View()).Seek(target)
      ensures View().Remaining() == From(entries, target)
    {
      var i := PartitionPoint(entries, target);
      pos := if i < |entries| then Some(i) else None;
    }

    method Advance()
      modifies this
      ensures View() == old(View()).Advance()
    {
      pos := if pos.Some? && pos.value + 1 < |entries| then Some(pos.value + 1) else None;
    }
  }

  lemma {:induction false} FromIsSuffix(rs: seq<Record>, target: Key)
    requires Sorted(rs)
    ensures forall r | r in From(rs, target) :: AtMost(target, r.key)
    ensures forall i | 0 <= i < PartitionPoint(rs, target) :: Less(rs[i].key, target)
    decreases |rs|
  {
    if rs != [] {
      if Less(rs[0].key, target) {
        FromIsSuffix(rs[1..], target);
        assert From(rs, target) == From(rs[1..], target);
      } else {
        forall r | r in rs
          ensures AtMost(target, r.key)
        {
          if r != rs[0] && Less(r.key, target) {
            LessTransitive(rs[0].key, r.key, target);
          }
        }
      }
    }
  }

  lemma {:induction false} FindFrom(rs: seq<Record>, target: Key, k: Key)
    requires Sorted(rs)
    ensures Find(From(rs, target), k) == if Less(k, target) then None else Find(rs, k)
    decreases |rs|
  {
    if rs != [] && Less(rs[0].key, target) {
      FindFrom(rs[1..], target, k);
      assert From(rs, target) == From(rs[1..], target);
    } else if rs != [] && Less(k, target) {
      AtMostTransitiveLess(k, target, rs[0].key);
      FindBelow(rs, k);
    }
  }

  lemma AtMostTransitiveLess(a: Key, b: Key, c: Key)
    requires Less(a, b) && AtMost(b, c)
    ensures Less(a, c)
  {
    LessAtMost(a, b, c);
  }

  // ---------- merging ----------

  /** Two sorted lists in one, the first winning where both hold a key. */
  function Merge(newer: seq<Record>, older: seq<Record>): seq<Record>
    decreases |newer| + |older|
  {
    if newer == [] then older
    else if older == [] then newer
    else if newer[0].key == older[0].key then [newer[0]] + Merge(newer[1..], older[1..])
    else if Less(newer[0].key, older[0].key) then [newer[0]] + Merge(newer[1..], older)
    else [older[0]] + Merge(newer, older[1..])
  }

  /** Newest first: the merge of a list of sources. */
  function MergeAll(sources: seq<seq<Record>>): seq<Record>
    decreases |sources|
  {
    if sources == [] then [] else Merge(sources[0], MergeAll(sources[1..]))
  }

  /** The entry of the newest source that holds `k`. */
  function FirstFind(sources: seq<seq<Record>>, k: Key): Option<Entry>
    decreases |sources|
  {
    if sources == [] then None
    else if Find(sources[0], k).Some? then Find(sources[0], k)
    else FirstFind(sources[1..], k)
  }

  ghost predicate AllSorted(sources: seq<seq<Record>>)
  {
    forall s | s in sources :: Sorted(s)
  }

  lemma {:induction false} MergeMembers(newer: seq<Record>, older: seq<Record>)
    ensures forall r | r in Merge(newer, older) :: r in newer || r in older
    ensures |Merge(newer, older)| <= |newer| + |older|
    decreases |newer| + |older|
  {
    if newer != [] && older != [] {
      if newer[0].key == older[0].key {
        MergeMembers(newer[1..], older[1..]);
      } else if Less(newer[0].key, older[0].key) {
        MergeMembers(newer[1..], older);
      } else {
        MergeMembers(newer, older[1..]);
      }
    }
  }

  lemma {:induction false} MergeSorted(newer: seq<Record>, older: seq<Record>)
    requires Sorted(newer) && Sorted(older)
    ensures Sorted(Merge(newer, older))
    decreases |newer| + |older|
  {
    if newer != [] && older != [] {
      var n, o := newer[0].key, older[0].key;
      SortedTail(newer);
      SortedTail(older);
      if n == o {
        MergeSorted(newer[1..], older[1..]);
        MergeMembers(newer[1..], older[1..]);
        SortedCons(newer[0], Merge(newer[1..], older[1..]));
      } else if Less(n, o) {
        MergeSorted(newer[1..], older);
        MergeMembers(newer[1..], older);
        HeadBelow(n, older);
        SortedCons(newer[0], Merge(newer[1..], older));
      } else {
        LessTotal(n, o);
        MergeSorted(newer, older[1..]);
        MergeMembers(newer, older[1..]);
        HeadBelow(o, newer);
        SortedCons(older[0], Merge(newer, older[1..]));
      }
    }
  }

  lemma HeadBelow(k: Key, rs: seq<Record>)
    requires Sorted(rs) && rs != [] && Less(k, rs[0].key)
    ensures forall r | r in rs :: Less(k, r.key)
  {
    forall r | r in rs
      ensures Less(k, r.key)
    {
      if r != rs[0] {
        LessTransitive(k, rs[0].key, r.key);
      }
    }
  }

  lemma {:induction false} MergeFinds(newer: seq<Record>, older: seq<Record>, k: Key)
    requires Sorted(newer) && Sorted(older)
    ensures Find(Merge(newer, older), k) == if Find(newer, k).Some? then Find(newer, k) else Find(older, k)
    decreases |newer| + |older|
  {
    if newer != [] && older != [] {
      var n, o := newer[0].key, older[0].key;
      if n == o {
        MergeFinds(newer[1..], older[1..], k);
        assert Merge(newer, older)[1..] == Merge(newer[1..], older[1..]);
      } else if Less(n, o) {
        MergeFinds(newer[1..], older, k);
        assert Merge(newer, older)[1..] == Merge(newer[1..], older);
      } else {
        LessTotal(n, o);
        MergeFinds(newer, older[1..], k);
        assert Merge(newer, older)[1..] == Merge(newer, older[1..]);
        if k == o {
          FindBelow(newer, k);
        }
      }
    }
  }

  lemma {:induction false} MergeAllSorted(sources: seq<seq<Record>>)
    requires AllSorted(sources)
    ensures Sorted(MergeAll(sources))
    decreases |sources|
  {
    if sources != [] {
      MergeAllSorted(sources[1..]);
      MergeSorted(sources[0], MergeAll(sources[1..]));
    }
  }

  /** The merge holds exactly the newest record of every key of its sources. */
  lemma {:induction false} MergeAllFinds(sources: seq<seq<Record>>, k: Key)
    requires AllSorted(sources)
    ensures Find(MergeAll(sources), k) == FirstFind(sources, k)
    decreases |sources|
  {
    if sources != [] {
      MergeAllFinds(sources[1..], k);
      MergeAllSorted(sources[1..]);
      MergeFinds(sources[0], MergeAll(sources[1..]), k);
    }
  }

  // ---------- one step of the merge ----------

  function SkipIn(rs: seq<Record>, key: Key): seq<Record>
  {
    if rs != [] && rs[0].key == key then rs[1..] else rs
  }

  function Skip(sources: seq<seq<Record>>, key: Key): (r: seq<seq<Record>>)
    ensures |r| == |sources|
  {
    seq(|sources|, i requires 0 <= i < |sources| => SkipIn(sources[i], key))
  }

  /** `source` is the first of those whose head has the smallest key. */
  ghost predicate IsSmallest(sources: seq<seq<Record>>, source: nat)
  {
    && source < |sources| && sources[source] != []
    && (forall i | 0 <= i < |sources| && sources[i] != [] :: AtMost(sources[source][0].key, sources[i][0].key))
    && (forall i | 0 <= i < source && sources[i] != [] :: sources[i][0].key != sources[source][0].key)
  }

  lemma SkipInFinds(rs: seq<Record>, key: Key, k: Key)
    requires Sorted(rs) && (rs != [] ==> AtMost(key, rs[0].key))
    ensures Find(SkipIn(rs, key), k) == if k == key then None else Find(rs, k)
  {
    if rs != [] {
      if rs[0].key == key {
        HeadOnlyOnce(rs);
      } else {
        LessTotal(key, rs[0].key);
        FindBelow(rs, key);
      }
    }
  }

  lemma {:induction false} SkipFinds(sources: seq<seq<Record>>, key: Key, k: Key)
    requires AllSorted(sources)
    requires forall s: seq<Record> | s in sources && s != [] :: AtMost(key, s[0].key)
    ensures FirstFind(Skip(sources, key), k) == if k == key then None else FirstFind(sources, k)
    decreases |sources|
  {
    if sources != [] {
      SkipInFinds(sources[0], key, k);
      SkipFinds(sources[1..], key, k);
      assert Skip(sources, key)[1..] == Skip(sources[1..], key);
    }
  }

  lemma {:induction false} FirstFindSource(sources: seq<seq<Record>>, k: Key)
    requires FirstFind(sources, k).Some?
    ensures exists s :: s in sources && Find(s, k).Some?
    decreases |sources|
  {
    if Find(sources[0], k).Some? {
      assert sources[0] in sources;
    } else {
      FirstFindSource(sources[1..], k);
    }
  }

  lemma {:induction false} FirstFindAt(sources: seq<seq<Record>>, source: nat)
    requires AllSorted(sources) && IsSmallest(sources, source)
    ensures FirstFind(sources, sources[source][0].key) == Some(sources[source][0].entry)
    decreases |sources|
  {
    if source > 0 {
      var key := sources[source][0].key;
      if sources[0] != [] {
        LessTotal(key, sources[0][0].key);
      }
      FindBelow(sources[0], key);
      assert sources[1..][source - 1] == sources[source];
      FirstFindAt(sources[1..], source - 1);
    }
  }

  lemma SkipSorted(sources: seq<seq<Record>>, key: Key)
    requires AllSorted(sources)
    ensures AllSorted(Skip(sources, key))
  {
    forall s | s in Skip(sources, key)
      ensures Sorted(s)
    {
      var i :| 0 <= i < |sources| && s == SkipIn(sources[i], key);
      assert sources[i] in sources;
    }
  }

  /** The merge of sources is the head of the smallest one, then the merge of what is left. */
  lemma MergeStep(sources: seq<seq<Record>>, source: nat)
    requires AllSorted(sources) && IsSmallest(sources, source)
    ensures MergeAll(sources) == [sources[source][0]] + MergeAll(Skip(sources, sources[source][0].key))
  {
    var head := sources[source][0];
    var left := Skip(sources, head.key);
    forall s: seq<Record> | s in sources && s != []
      ensures AtMost(head.key, s[0].key)
    {
      var i :| 0 <= i < |sources| && sources[i] == s;
    }
    SkipSorted(sources, head.key);
    MergeAllSorted(sources);
    MergeAllSorted(left);
    forall r | r in MergeAll(left)
      ensures Less(head.key, r.key)
    {
      SkipLeavesGreater(sources, head.key, r);
    }
    SortedCons(head, MergeAll(left));
    var stepped := [head] + MergeAll(left);
    forall k
      ensures Find(MergeAll(sources), k) == Find(stepped, k)
    {
      MergeAllFinds(sources, k);
      MergeAllFinds(left, k);
      SkipFinds(sources, head.key, k);
      FirstFindAt(sources, source);
      assert stepped[1..] == MergeAll(left);
    }
    SortedUnique(MergeAll(sources), stepped);
  }

  lemma SkipLeavesGreater(sources: seq<seq<Record>>, key: Key, r: Record)
    requires AllSorted(sources)
    requires forall s: seq<Record> | s in sources && s != [] :: AtMost(key, s[0].key)
    requires r in MergeAll(Skip(sources, key))
    ensures Less(key, r.key)
  {
    var merged := MergeAll(Skip(sources, key));
    SkipSorted(sources, key);
    MergeAllSorted(Skip(sources, key));
    var i :| 0 <= i < |merged| && merged[i] == r;
    FindAt(merged, i);
    MergeAllFinds(Skip(sources, key), r.key);
    SkipFinds(sources, key, r.key);
    FirstFindSource(sources, r.key);
    var s: seq<Record> :| s in sources && Find(s, r.key).Some?;
    FindWithin(s, r.key);
    AtMostTransitive(key, s[0].key, r.key);
    LessTotal(key, r.key);
  }

  lemma {:induction false} MergeOfNothing(sources: seq<seq<Record>>)
    requires forall s | s in sources :: s == []
    ensures MergeAll(sources) == []
    decreases |sources|
  {
    if sources != [] {
      assert sources[0] in sources;
      assert forall s | s in sources[1..] :: s in sources;
      MergeOfNothing(sources[1..]);
    }
  }

  /** How many records the sources still have. */
  function Total(sources: seq<seq<Record>>): nat
    decreases |sources|
  {
    if sources == [] then 0 else |sources[0]| + Total(sources[1..])
  }

  lemma {:induction false} MergeAllLength(sources: seq<seq<Record>>)
    ensures |MergeAll(sources)| <= Total(sources)
    decreases |sources|
  {
    if sources != [] {
      MergeAllLength(sources[1..]);
      MergeMembers(sources[0], MergeAll(sources[1..]));
    }
  }

  lemma {:induction false} SkipShrinks(sources: seq<seq<Record>>, source: nat)
    requires source < |sources| && sources[source] != []
    ensures Total(Skip(sources, sources[source][0].key)) < Total(sources)
    decreases |sources|
  {
    var key := sources[source][0].key;
    assert Skip(sources, key)[1..] == Skip(sources[1..], key);
    if source > 0 {
      assert sources[1..][source - 1] == sources[source];
      SkipShrinks(sources[1..], source - 1);
    } else {
      SkipNeverGrows(sources[1..], key);
    }
  }

  lemma {:induction false} SkipNeverGrows(sources: seq<seq<Record>>, key: Key)
    ensures Total(Skip(sources, key)) <= Total(sources)
    decreases |sources|
  {
    if sources != [] {
      assert Skip(sources, key)[1..] == Skip(sources[1..], key);
      SkipNeverGrows(sources[1..], key);
    }
  }

  // ---------- what a merge shows ----------

  /** A reader skips tombstones; a compaction keeps them. */
  function Shown(rs: seq<Record>, keepTombstones: bool): seq<Record>
    decreases |rs|
  {
    if rs == [] then []
    else if keepTombstones || rs[0].entry.Value? then [rs[0]] + Shown(rs[1..], keepTombstones)
    else Shown(rs[1..], keepTombstones)
  }

  lemma {:induction false} ShownMembers(rs: seq<Record>, keepTombstones: bool)
    ensures forall r | r in Shown(rs, keepTombstones) :: r in rs && (keepTombstones || r.entry.Value?)
    ensures keepTombstones ==> Shown(rs, keepTombstones) == rs
    decreases |rs|
  {
    if rs != [] {
      ShownMembers(rs[1..], keepTombstones);
      assert rs == [rs[0]] + rs[1..];
    }
  }

  lemma {:induction false} ShownSorted(rs: seq<Record>, keepTombstones: bool)
    requires Sorted(rs)
    ensures Sorted(Shown(rs, keepTombstones))
    decreases |rs|
  {
    if rs != [] {
      SortedTail(rs);
      ShownSorted(rs[1..], keepTombstones);
      ShownMembers(rs[1..], keepTombstones);
      SortedCons(rs[0], Shown(rs[1..], keepTombstones));
    }
  }

  lemma {:induction false} ShownFinds(rs: seq<Record>, keepTombstones: bool, k: Key)
    requires Sorted(rs)
    ensures Find(Shown(rs, keepTombstones), k)
         == if keepTombstones || (Find(rs, k).Some? && Find(rs, k).value.Value?) then Find(rs, k) else None
    decreases |rs|
  {
    if rs != [] {
      ShownFinds(rs[1..], keepTombstones, k);
      if k == rs[0].key {
        HeadOnlyOnce(rs);
      }
      if keepTombstones || rs[0].entry.Value? {
        assert Shown(rs, keepTombstones)[1..] == Shown(rs[1..], keepTombstones);
      }
    }
  }

  lemma SortedFrom(rs: seq<Record>, target: Key)
    requires Sorted(rs)
    ensures Sorted(From(rs, target))
  {
  }

  /** Seeking in every source is seeking in what the merge shows. */
  lemma SeekCommutes(sources: seq<seq<Record>>, target: Key, keepTombstones: bool)
    requires AllSorted(sources)
    ensures Shown(MergeAll(FromAll(sources, target)), keepTombstones)
              == From(Shown(MergeAll(sources), keepTombstones), target)
  {
    FromAllSorted(sources, target);
    MergeAllSorted(sources);
    MergeAllSorted(FromAll(sources, target));
    var left := Shown(MergeAll(FromAll(sources, target)), keepTombstones);
    var shown := Shown(MergeAll(sources), keepTombstones);
    ShownSorted(MergeAll(sources), keepTombstones);
    ShownSorted(MergeAll(FromAll(sources, target)), keepTombstones);
    SortedFrom(shown, target);
    forall k
      ensures Find(left, k) == Find(From(shown, target), k)
    {
      ShownFinds(MergeAll(FromAll(sources, target)), keepTombstones, k);
      MergeAllFinds(FromAll(sources, target), k);
      FirstFindFrom(sources, target, k);
      FindFrom(shown, target, k);
      ShownFinds(MergeAll(sources), keepTombstones, k);
      MergeAllFinds(sources, k);
    }
    SortedUnique(left, From(shown, target));
  }

  function FromAll(sources: seq<seq<Record>>, target: Key): (r: seq<seq<Record>>)
    ensures |r| == |sources|
  {
    seq(|sources|, i requires 0 <= i < |sources| => From(sources[i], target))
  }

  lemma FromAllSorted(sources: seq<seq<Record>>, target: Key)
    requires AllSorted(sources)
    ensures AllSorted(FromAll(sources, target))
  {
    forall s | s in FromAll(sources, target)
      ensures Sorted(s)
    {
      var i :| 0 <= i < |sources| && s == From(sources[i], target);
      assert sources[i] in sources;
    }
  }

  lemma {:induction false} FirstFindFrom(sources: seq<seq<Record>>, target: Key, k: Key)
    requires AllSorted(sources)
    ensures FirstFind(FromAll(sources, target), k) == if Less(k, target) then None else FirstFind(sources, k)
    decreases |sources|
  {
    if sources != [] {
      assert sources[0] in sources;
      assert forall s | s in sources[1..] :: s in sources;
      FindFrom(sources[0], target, k);
      FirstFindFrom(sources[1..], target, k);
      assert FromAll(sources, target)[1..] == FromAll(sources[1..], target);
    }
  }

  // ---------- the merge iterator ----------

  function Rests(children: seq<Cursor>): (r: seq<seq<Record>>)
    ensures |r| == |children|
  {
    seq(|children|, i requires 0 <= i < |children| => children[i].Remaining())
  }

  function Sources(children: seq<Cursor>): (r: seq<seq<Record>>)
    ensures |r| == |children|
  {
    seq(|children|, i requires 0 <= i < |children| => children[i].entries)
  }

  lemma SourcesMore(children: seq<Cursor>, c: Cursor)
    ensures Sources(children + [c]) == Sources(children) + [c.entries]
  {
  }

  lemma RestsSorted(children: seq<Cursor>)
    requires AllSorted(Sources(children))
    ensures AllSorted(Rests(children))
  {
    forall s | s in Rests(children)
      ensures Sorted(s)
    {
      var i :| 0 <= i < |children| && s == children[i].Remaining();
      assert Sources(children)[i] in Sources(children);
    }
  }

  datatype CurrentEntry = CurrentEntry(key: Key, source: nat)

  class MergeIterator {
    var children: seq<Cursor>
    var current: Option<CurrentEntry>
    const keepTombstones: bool

    /** The records the iterator has still to show. */
    ghost function Remaining(): seq<Record>
      reads this
    {
      Shown(MergeAll(Rests(children)), keepTombstones)
    }

    /** All the records it shows from the start. */
    ghost function Everything(): seq<Record>
      reads this
    {
      Shown(MergeAll(Sources(children)), keepTombstones)
    }

    ghost predicate Sound()
      reads this
    {
      AllSorted(Sources(children))
    }

    ghost predicate Valid()
      reads this
    {
      && Sound()
      && match current
         case None => Remaining() == []
         case Some(c) =>
           && IsSmallest(Rests(children), c.source)
           && var head := Rests(children)[c.source][0];
              head.key == c.key && (keepTombstones || head.entry.Value?)
    }

    constructor (sources: seq<Cursor>, keepTombstones: bool)
      requires AllSorted(Sources(sources))
      ensures Valid() && this.keepTombstones == keepTombstones && Sources(children) == Sources(sources)
      ensures Remaining() == Everything()
    {
      children := sources;
      current := None;
      this.keepTombstones := keepTombstones;
      new;
      SeekToFirst();
    }

    method SeekToFirst()
      requires Sound()
      modifies this
      ensures Valid() && Sources(children) == old(Sources(children))
      ensures Remaining() == Everything()
    {
      var i := 0;
      while i < |children|
        invariant 0 <= i <= |children| == |old(children)|
        invariant Sources(children) == old(Sources(children))
        invariant forall j | 0 <= j < i :: children[j].Remaining() == children[j].entries
      {
        var before := children;
        children := children[i := children[i].SeekToFirst()];
        assert Sources(children) == Sources(before);
        i := i + 1;
      }
      assert Rests(children) == Sources(children);
      Normalize();
    }

    /** Lands on the first key to show that is not below `target`. */
    method Seek(target: Key)
      requires Sound()
      modifies this
      ensures Valid() && Sources(children) == old(Sources(children))
      ensures Remaining() == From(Everything(), target)
    {
      var i := 0;
      while i < |children|
        invariant 0 <= i <= |children| == |old(children)|
        invariant Sources(children) == old(Sources(children))
        invariant forall j | 0 <= j < i :: children[j].Remaining() == From(children[j].entries, target)
      {
        var before := children;
        children := children[i := children[i].Seek(target)];
        assert Sources(children) == Sources(before);
        i := i + 1;
      }
      assert Rests(children) == FromAll(Sources(children), target);
      SeekCommutes(Sources(children), target, keepTombstones);
      Normalize();
    }

    method Normalize()
      requires Sound()
      modifies this
      ensures Valid() && Sources(children) == old(Sources(children))
      ensures Remaining() == old(Remaining())
    {
      while true
        invariant Sound() && Sources(children) == old(Sources(children))
        invariant Remaining() == old(Remaining())
        decreases Total(Rests(children))
      {
        var best := Smallest();
        if best.None? {
          current := None;
          MergeOfNothing(Rests(children));
          return;
        }
        var source := best.value.source;
        RestsSorted(children);
        MergeStep(Rests(children), source);
        if keepTombstones || children[source].Value().Some? {
          current := best;
          return;
        }
        SkipShrinks(Rests(children), source);
        SkipKey(best.value.key);
      }
    }

    /** The smallest head, from the newest source that has it. */
    method Smallest() returns (best: Option<CurrentEntry>)
      ensures best.None? ==> forall s | s in Rests(children) :: s == []
      ensures best.Some? ==> IsSmallest(Rests(children), best.value.source)
      ensures best.Some? ==> Rests(children)[best.value.source][0].key == best.value.key
    {
      best := None;
      var i := 0;
      while i < |children|
        invariant 0 <= i <= |children|
        invariant best.None? ==> forall j | 0 <= j < i :: children[j].Remaining() == []
        invariant best.Some? ==> IsSmallest(Rests(children)[..i], best.value.source)
        invariant best.Some? ==> Rests(children)[best.value.source][0].key == best.value.key
      {
        var key := children[i].Key();
        if key.Some? && (best.None? || Less(key.value, best.value.key)) {
          forall j | 0 <= j < i && Rests(children)[j] != []
            ensures Less(key.value, Rests(children)[j][0].key)
          {
            assert Rests(children)[..i][j] == Rests(children)[j];
            LessAtMost(key.value, best.value.key, Rests(children)[j][0].key);
          }
          SmallestReplaced(Rests(children), i);
          best := Some(CurrentEntry(key.value, i));
        } else if best.Some? {
          SmallestKept(Rests(children), best.value.source, i);
        }
        i := i + 1;
      }
      assert Rests(children)[..i] == Rests(children);
    }

    method SkipKey(key: Key)
      requires Sound()
      modifies this`children
      ensures Sources(children) == old(Sources(children))
      ensures Rests(children) == Skip(old(Rests(children)), key)
    {
      var i := 0;
      while i < |children|
        invariant 0 <= i <= |children| == |old(children)|
        invariant Sources(children) == old(Sources(children))
        invariant forall j | 0 <= j < i :: children[j].Remaining() == SkipIn(old(children)[j].Remaining(), key)
        invariant forall j | i <= j < |children| :: children[j] == old(children)[j]
      {
        if children[i].Key() == Some(key) {
          var before := children;
          children := children[i := children[i].Advance()];
          assert Sources(children) == Sources(before);
        }
        i := i + 1;
      }
    }

    method Advance()
      requires Valid()
      modifies this
      ensures Valid() && Sources(children) == old(Sources(children))
      ensures Remaining() == if old(Remaining()) == [] then [] else old(Remaining())[1..]
    {
      if current.Some? {
        var key := current.value.key;
        RestsSorted(children);
        MergeStep(Rests(children), current.value.source);
        current := None;
        SkipKey(key);
        Normalize();
      }
    }

    predicate IsValid()
      requires Valid()
      reads this
      ensures IsValid() <==> Remaining() != []
    {
      HeadIsCurrent();
      current.Some?
    }

    function Key(): (k: Option<Key>)
      requires Valid()
      reads this
      ensures k == if Remaining() == [] then None else Some(Remaining()[0].key)
    {
      HeadIsCurrent();
      if current.Some? then Some(current.value.key) else None
    }

    function Value(): (v: Option<Bytes>)
      requires Valid()
      reads this
      ensures v == if Remaining() == [] then None else Visible(Some(Remaining()[0].entry))
    {
      HeadIsCurrent();
      if current.Some? then children[current.value.source].Value() else None
    }

    lemma HeadIsCurrent()
      requires Valid()
      ensures current.Some? ==> Remaining() != [] && Remaining()[0] == Rests(children)[current.value.source][0]
      ensures current.Some? ==> Rests(children)[current.value.source] == children[current.value.source].Remaining()
    {
      if current.Some? {
        RestsSorted(children);
        MergeStep(Rests(children), current.value.source);
      }
    }
  }

  lemma SmallestReplaced(rests: seq<seq<Record>>, i: nat)
    requires i < |rests| && rests[i] != []
    requires forall j | 0 <= j < i && rests[j] != [] :: Less(rests[i][0].key, rests[j][0].key)
    ensures IsSmallest(rests[..i + 1], i)
  {
    forall j | 0 <= j <= i && rests[j] != []
      ensures AtMost(rests[i][0].key, rests[j][0].key)
      ensures j < i ==> rests[j][0].key != rests[i][0].key
    {
      LessIrreflexive(rests[i][0].key);
      if j < i {
        LessAsymmetric(rests[i][0].key, rests[j][0].key);
      }
    }
  }

  lemma SmallestKept(rests: seq<seq<Record>>, source: nat, i: nat)
    requires i < |rests| && IsSmallest(rests[..i], source)
    requires rests[i] == [] || AtMost(rests[source][0].key, rests[i][0].key)
    ensures IsSmallest(rests[..i + 1], source)
  {
    assert forall j | 0 <= j < i :: rests[..i][j] == rests[j] == rests[..i + 1][j];
  }

  /** Every record of a merge, in order. */
  method Drain(merged: MergeIterator) returns (out: seq<Record>)
    requires merged.Valid()
    modifies merged
    ensures out == old(merged.Remaining())
  {
    hide *;
    out := [];
    while merged.IsValid()
      invariant merged.Valid() && out + merged.Remaining() == old(merged.Remaining())
      decreases |merged.Remaining()|
    {
      ghost var left := merged.Remaining();
      var value := merged.Value();
      VisibleEntry(left[0].entry);
      out := out + [Record(merged.Key().value, if value.Some? then Value(value.value) else Tombstone)];
      merged.Advance();
      assert left == [left[0]] + merged.Remaining();
    }
  }

  // ---------- bounded ranges ----------

  datatype Bound = Unbounded | Included(key: Key) | Excluded(key: Key)

  predicate AfterStart(k: Key, start: Bound)
  {
    match start
    case Unbounded => true
    case Included(s) => AtMost(s, k)
    case Excluded(s) => Less(s, k)
  }

  predicate BeforeEnd(k: Key, end: Bound)
  {
    match end
    case Unbounded => true
    case Included(e) => AtMost(k, e)
    case Excluded(e) => Less(k, e)
  }

  /** An included bound takes its own key in, an excluded one leaves it out, and no bound takes everything in. */
  lemma BoundsMean(k: Key, start: Bound, end: Bound)
    ensures AfterStart(k, start)
       <==> start.Unbounded? || Less(start.key, k) || (start.Included? && k == start.key)
    ensures BeforeEnd(k, end) <==> end.Unbounded? || Less(k, end.key) || (end.Included? && k == end.key)
  {
    LessIrreflexive(k);
    if !start.Unbounded? {
      LessTotal(start.key, k);
      if Less(k, start.key) && Less(start.key, k) {
        LessAsymmetric(k, start.key);
      }
    }
    if !end.Unbounded? {
      LessTotal(end.key, k);
      if Less(k, end.key) && Less(end.key, k) {
        LessAsymmetric(k, end.key);
      }
    }
  }

  /** The records up to the first one past the end. */
  function Within(rs: seq<Record>, end: Bound): seq<Record>
    decreases |rs|
  {
    if rs == [] || !BeforeEnd(rs[0].key, end) then [] else [rs[0]] + Within(rs[1..], end)
  }

  /** Where a range starts. */
  function Starting(rs: seq<Record>, start: Bound): seq<Record>
  {
    match start
    case Unbounded => rs
    case Included(s) => From(rs, s)
    case Excluded(s) => SkipIn(From(rs, s), s)
  }

  lemma StartingFinds(rs: seq<Record>, start: Bound, k: Key)
    requires Sorted(rs)
    ensures Find(Starting(rs, start), k) == if AfterStart(k, start) then Find(rs, k) else None
  {
    if !start.Unbounded? {
      FindFrom(rs, start.key, k);
      SortedFrom(rs, start.key);
      FromIsSuffix(rs, start.key);
      LessTotal(start.key, k);
      if start.Excluded? {
        SkipInFinds(From(rs, start.key), start.key, k);
        LessIrreflexive(k);
        if Less(start.key, k) {
          LessAsymmetric(start.key, k);
        }
      }
    }
  }

  lemma StartingSorted(rs: seq<Record>, start: Bound)
    requires Sorted(rs)
    ensures Sorted(Starting(rs, start))
    ensures forall r | r in Starting(rs, start) :: r in rs
  {
    if !start.Unbounded? {
      SortedFrom(rs, start.key);
      var f := From(rs, start.key);
      if f != [] {
        SortedTail(f);
      }
    }
  }

  lemma PastEndIsUp(a: Key, b: Key, end: Bound)
    requires Less(a, b) && BeforeEnd(b, end)
    ensures BeforeEnd(a, end)
  {
    if end.Included? && Less(end.key, a) {
      LessTransitive(end.key, a, b);
    } else if end.Excluded? {
      LessTransitive(a, b, end.key);
    }
  }

  lemma {:induction false} WithinFinds(rs: seq<Record>, end: Bound, k: Key)
    requires Sorted(rs)
    ensures Find(Within(rs, end), k) == if BeforeEnd(k, end) then Find(rs, k) else None
    decreases |rs|
  {
    if rs != [] {
      if !BeforeEnd(rs[0].key, end) {
        if Find(rs, k).Some? && BeforeEnd(k, end) {
          FindWithin(rs, k);
          LessTotal(rs[0].key, k);
          if rs[0].key != k {
            PastEndIsUp(rs[0].key, k, end);
          }
        }
      } else {
        SortedTail(rs);
        WithinFinds(rs[1..], end, k);
        assert Within(rs, end)[1..] == Within(rs[1..], end);
      }
    }
  }

  lemma {:induction false} WithinPrefix(rs: seq<Record>, end: Bound)
    ensures |Within(rs, end)| <= |rs| && Within(rs, end) == rs[..|Within(rs, end)|]
    decreases |rs|
  {
    if rs != [] && BeforeEnd(rs[0].key, end) {
      WithinPrefix(rs[1..], end);
    }
  }

  /** The records of `rs` inside the bounds, for any bounds, in order. */
  lemma RangeFinds(rs: seq<Record>, start: Bound, end: Bound)
    requires Sorted(rs)
    ensures Sorted(Within(Starting(rs, start), end))
    ensures forall k :: Find(Within(Starting(rs, start), end), k)
                     == if AfterStart(k, start) && BeforeEnd(k, end) then Find(rs, k) else None
  {
    StartingSorted(rs, start);
    WithinPrefix(Starting(rs, start), end);
    forall k
      ensures Find(Within(Starting(rs, start), end), k)
           == if AfterStart(k, start) && BeforeEnd(k, end) then Find(rs, k) else None
    {
      WithinFinds(Starting(rs, start), end, k);
      StartingFinds(rs, start, k);
    }
  }

  /** Behind the end of a range nothing is in it. */
  lemma PastEndStaysPast(rs: seq<Record>, end: Bound)
    requires Sorted(rs)
    ensures rs != [] ==> Within(rs[1..], end) == if Within(rs, end) == [] then [] else Within(rs, end)[1..]
  {
    if rs != [] && !BeforeEnd(rs[0].key, end) && |rs| > 1 && BeforeEnd(rs[1].key, end) {
      PastEndIsUp(rs[0].key, rs[1].key, end);
    }
  }

  /**
   Going back to the first record gives the range again exactly when no record
   up to the end lies before the start.
   */
  lemma RestartGivesRangeIff(rs: seq<Record>, start: Bound, end: Bound)
    requires Sorted(rs)
    ensures Within(rs, end) == Within(Starting(rs, start), end)
            <==> forall r | r in rs && BeforeEnd(r.key, end) :: AfterStart(r.key, start)
  {
    var all, range := Within(rs, end), Within(Starting(rs, start), end);
    RangeFinds(rs, start, end);
    WithinPrefix(rs, end);
    forall k
      ensures Find(all, k) == if BeforeEnd(k, end) then Find(rs, k) else None
    {
      WithinFinds(rs, end, k);
    }
    if all == range {
      forall r | r in rs && BeforeEnd(r.key, end)
        ensures AfterStart(r.key, start)
      {
        var i :| 0 <= i < |rs| && rs[i] == r;
        FindAt(rs, i);
        assert Find(range, r.key) == Find(all, r.key);
      }
    }
    if forall r | r in rs && BeforeEnd(r.key, end) :: AfterStart(r.key, start) {
      forall k
        ensures Find(all, k) == Find(range, k)
      {
        FindIndex(rs, k);
      }
      SortedUnique(all, range);
    }
  }

  /** Seeking and starting are independent. */
  lemma StartingCommutes(rs: seq<Record>, start: Bound, target: Key)
    requires Sorted(rs)
    ensures Starting(From(rs, target), start) == From(Starting(rs, start), target)
  {
    hide Starting, From;
    SortedFrom(rs, target);
    StartingSorted(rs, start);
    StartingSorted(From(rs, target), start);
    SortedFrom(Starting(rs, start), target);
    forall k
      ensures Find(Starting(From(rs, target), start), k) == Find(From(Starting(rs, start), target), k)
    {
      StartingFinds(From(rs, target), start, k);
      FindFrom(rs, target, k);
      FindFrom(Starting(rs, start), target, k);
      StartingFinds(rs, start, k);
    }
    SortedUnique(Starting(From(rs, target), start), From(Starting(rs, start), target));
  }

  lemma FromMembers(rs: seq<Record>, target: Key)
    requires Sorted(rs)
    ensures forall r :: r in From(rs, target) <==> r in rs && AtMost(target, r.key)
  {
    FromIsSuffix(rs, target);
    var n := PartitionPoint(rs, target);
    assert rs == rs[..n] + rs[n..];
  }

  /**
   Seeking in a range stays in it exactly when no record from the target to the
   end lies before the start.
   */
  lemma SeekGivesRangeIff(rs: seq<Record>, target: Key, start: Bound, end: Bound)
    requires Sorted(rs)
    ensures Within(From(rs, target), end) == Within(From(Starting(rs, start), target), end)
            <==> forall r | r in rs && AtMost(target, r.key) && BeforeEnd(r.key, end) :: AfterStart(r.key, start)
  {
    hide Within, Starting, From, AfterStart, BeforeEnd;
    SortedFrom(rs, target);
    StartingCommutes(rs, start, target);
    FromMembers(rs, target);
    RestartGivesRangeIff(From(rs, target), start, end);
  }

  /** A range from `b` on that is sent to its first record, or to `a`, yields `a` too. */
  lemma RestartLeavesRange(a: Key, x: Bytes, b: Key, y: Bytes)
    requires Less(a, b)
    ensures var rs := [Record(a, Entry.Value(x)), Record(b, Entry.Value(y))];
            && Within(Starting(rs, Included(b)), Unbounded) == [rs[1]]
            && Within(rs, Unbounded) == rs && Within(From(rs, a), Unbounded) == rs
  {
    var rs := [Record(a, Entry.Value(x)), Record(b, Entry.Value(y))];
    LessIrreflexive(a);
    LessIrreflexive(b);
    assert rs[1..] == [rs[1]] && rs[1..][1..] == [];
    assert PartitionPoint(rs[1..], b) == 0 && PartitionPoint(rs, b) == 1 && PartitionPoint(rs, a) == 0;
    assert Within(rs[1..], Unbounded) == [rs[1]] + Within(rs[1..][1..], Unbounded) == [rs[1]];
    assert [rs[0]] + [rs[1]] == rs && rs[0..] == rs;
  }

  class RangeIterator {
    const merged: MergeIterator
    const end: Bound

    ghost predicate Valid()
      reads this, merged
    {
      merged.Valid() && !merged.keepTombstones
    }

    /** The records the range has still to yield. */
    ghost function Remaining(): seq<Record>
      reads this, merged
    {
      Within(merged.Remaining(), end)
    }

    constructor (merged: MergeIterator, start: Bound, end: Bound)
      requires merged.Valid() && !merged.keepTombstones && merged.Remaining() == merged.Everything()
      modifies merged
      ensures Valid() && this.merged == merged && this.end == end
      ensures Remaining() == Within(Starting(old(merged.Everything()), start), end)
    {
      this.merged := merged;
      this.end := end;
      new;
      match start {
        case Unbounded =>
        case Included(key) =>
          merged.Seek(key);
        case Excluded(key) =>
          merged.Seek(key);
          if merged.Key() == Some(key) {
            merged.Advance();
          }
      }
    }

    predicate WithinEnd()
      requires Valid()
      reads this, merged
    {
      merged.Key().Some? && BeforeEnd(merged.Key().value, end)
    }

    predicate IsValid()
      requires Valid()
      reads this, merged
      ensures IsValid() <==> Remaining() != []
    {
      merged.IsValid() && WithinEnd()
    }

    /** Goes back to the first record there is: the start of the range is not remembered. */
    method SeekToFirst()
      requires Valid()
      modifies merged
      ensures Valid() && Remaining() == Within(old(merged.Everything()), end)
    {
      hide MergeAll, Shown, Within;
      merged.SeekToFirst();
    }

    method Seek(target: Key)
      requires Valid()
      modifies merged
      ensures Valid() && Remaining() == Within(From(old(merged.Everything()), target), end)
    {
      hide MergeAll, Shown, Within;
      merged.Seek(target);
    }

    method Advance()
      requires Valid()
      modifies merged
      ensures Valid() && Remaining() == if old(Remaining()) == [] then [] else old(Remaining())[1..]
    {
      hide MergeAll, Shown;
      ghost var left := merged.Remaining();
      MergedIsSorted();
      PastEndStaysPast(left, end);
      merged.Advance();
    }

    lemma MergedIsSorted()
      requires Valid()
      ensures Sorted(merged.Remaining())
    {
      RestsSorted(merged.children);
      MergeAllSorted(Rests(merged.children));
      ShownSorted(MergeAll(Rests(merged.children)), merged.keepTombstones);
    }

    method Next() returns (item: Option<(Key, Bytes)>)
      requires Valid()
      modifies merged
      ensures Valid()
      ensures old(Remaining()) == [] ==> item == None && Remaining() == []
      ensures old(Remaining()) != [] ==>
                && old(Remaining())[0].entry.Value?
                && item == Some((old(Remaining())[0].key, old(Remaining())[0].entry.bytes))
                && Remaining() == old(Remaining())[1..]
      ensures item.Some? ==>
                var k := item.value.0; end.Unbounded? || Less(k, end.key) || (end.Included? && k == end.key)
      ensures item.None? && old(merged.Remaining()) != [] ==>
                var k := old(merged.Remaining())[0].key;
                !end.Unbounded? && (Less(end.key, k) || (end.Excluded? && k == end.key))
    {
      if merged.Remaining() != [] {
        BoundsMean(merged.Remaining()[0].key, Unbounded, end);
        if !end.Unbounded? {
          LessTotal(merged.Remaining()[0].key, end.key);
        }
      }
      if !IsValid() {
        return None;
      }
      ShownMembers(MergeAll(Rests(merged.children)), false);
      assert merged.Remaining()[0] in merged.Remaining();
      item := Some((merged.Key().value, merged.Value().value));
      merged.Advance();
    }

    method Collect() returns (items: seq<(Key, Bytes)>)
      requires Valid()
      modifies merged
      ensures forall r | r in old(Remaining()) :: r.entry.Value?
      ensures items == Pairs(old(Remaining()))
    {
      hide MergeAll, Shown, Rests, Sources, Within;
      items := [];
      ghost var done: seq<Record> := [];
      var item := Next();
      while item.Some?
        invariant Valid()
        invariant forall r | r in done :: r.entry.Value?
        invariant items == Pairs(done)
        invariant item.None? ==> old(Remaining()) == done && Remaining() == []
        invariant item.Some? ==> old(Remaining()) == done + [Record(item.value.0, Value(item.value.1))] + Remaining()
        decreases item.Some?, |Remaining()|
      {
        items := items + [item.value];
        done := done + [Record(item.value.0, Value(item.value.1))];
        item := Next();
      }
    }
  }

  function Pairs(rs: seq<Record>): (items: seq<(Key, Bytes)>)
    requires forall r | r in rs :: r.entry.Value?
    ensures |items| == |rs|
  {
    seq(|rs|, i requires 0 <= i < |rs| => assert rs[i] in rs; (rs[i].key, rs[i].entry.bytes))
  }

  lemma PairsFind(rs: seq<Record>, k: Key, v: Bytes)
    requires Sorted(rs) && forall r | r in rs :: r.entry.Value?
    ensures (k, v) in Pairs(rs) <==> Find(rs, k) == Some(Entry.Value(v))
  {
    if (k, v) in Pairs(rs) {
      var i :| 0 <= i < |rs| && Pairs(rs)[i] == (k, v);
      FindAt(rs, i);
    }
    FindIndex(rs, k);
    if Find(rs, k) == Some(Entry.Value(v)) {
      var i :| 0 <= i < |rs| && rs[i] == Record(k, Entry.Value(v));
      assert Pairs(rs)[i] == (k, v);
    }
  }
}
