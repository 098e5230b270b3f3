/**
 Records and the sorted association lists they form. A `BTreeMap`, a memtable
 and an SSTable are all such a list: keys strictly ascending in byte order.
 */
module Records {
  import opened Bytes

  datatype Option<+T> = None | Some(value: T)

  datatype Result<+T, +E> = Ok(value: T) | Err(error: E)

  type Key = Bytes

  datatype Entry = Value(bytes: Bytes) | Tombstone

  datatype Record = Record(key: Key, entry: Entry)

  /** `record_size`. */
  function RecordSize(r: Record): nat
  {
    1 + 4 + 4 + |r.key| + (if r.entry.Value? then |r.entry.bytes| else 0)
  }

  function SizeOf(rs: seq<Record>): nat
    decreases |rs|
  {
    if rs == [] then 0 else SizeOf(rs[..|rs| - 1]) + RecordSize(rs[|rs| - 1])
  }

  ghost predicate Sorted(rs: seq<Record>)
  {
    forall i, j | 0 <= i < j < |rs| :: Less(rs[i].key, rs[j].key)
  }

  /** Point lookup by a scan from the front. */
  function Find(rs: seq<Record>, k: Key): Option<Entry>
    decreases |rs|
  {
    if rs == [] then None
    else if rs[0].key == k then Some(rs[0].entry)
    else Find(rs[1..], k)
  }

  /** What a reader sees of an entry: a tombstone is no value. */
  function Visible(e: Option<Entry>): Option<Bytes>
  {
    if e.Some? && e.value.Value? then Some(e.value.bytes) else None
  }

  /** Seeing no value in a present entry is seeing a tombstone. */
  lemma VisibleEntry(e: Entry)
    ensures e == if Visible(Some(e)).Some? then Value(Visible(Some(e)).value) else Tombstone
  {
  }

  lemma {:induction false} FindIndex(rs: seq<Record>, k: Key)
    ensures Find(rs, k).Some? ==> Record(k, Find(rs, k).value) in rs
    ensures Find(rs, k).None? ==> forall r | r in rs :: r.key != k
    decreases |rs|
  {
    if rs != [] {
      FindIndex(rs[1..], k);
      assert rs == [rs[0]] + rs[1..];
    }
  }

  lemma {:induction false} FindAt(rs: seq<Record>, i: nat)
    requires Sorted(rs) && i < |rs|
    ensures Find(rs, rs[i].key) == Some(rs[i].entry)
    decreases |rs|
  {
    if i > 0 {
      LessIrreflexive(rs[0].key);
      assert rs[0].key != rs[i].key;
      FindAt(rs[1..], i - 1);
    }
  }

  lemma {:induction false} FindConcat(a: seq<Record>, b: seq<Record>, k: Key)
    ensures Find(a + b, k) == if Find(a, k).Some? then Find(a, k) else Find(b, k)
    decreases |a|
  {
    if a == [] {
      assert a + b == b;
    } else {
      assert (a + b)[1..] == a[1..] + b;
      FindConcat(a[1..], b, k);
    }
  }

  lemma SortedConcat(a: seq<Record>, b: seq<Record>)
    requires Sorted(a + b)
    ensures Sorted(a) && Sorted(b)
    ensures forall i, j | 0 <= i < |a| && 0 <= j < |b| :: Less(a[i].key, b[j].key)
  {
    var c := a + b;
    forall i, j | 0 <= i < j < |a|
      ensures Less(a[i].key, a[j].key)
    {
      assert a[i] == c[i] && a[j] == c[j];
    }
    forall i, j | 0 <= i < j < |b|
      ensures Less(b[i].key, b[j].key)
    {
      assert b[i] == c[|a| + i] && b[j] == c[|a| + j];
    }
    forall i, j | 0 <= i < |a| && 0 <= j < |b|
      ensures Less(a[i].key, b[j].key)
    {
      assert a[i] == c[i] && b[j] == c[|a| + j];
    }
  }

  /** A key in a sorted list lies between the first and the last. */
  lemma FindWithin(rs: seq<Record>, k: Key)
    requires Sorted(rs) && Find(rs, k).Some?
    ensures rs != [] && AtMost(rs[0].key, k) && AtMost(k, rs[|rs| - 1].key)
  {
    FindIndex(rs, k);
    var i :| 0 <= i < |rs| && rs[i] == Record(k, Find(rs, k).value);
    LessIrreflexive(k);
    if i > 0 {
      LessAsymmetric(rs[0].key, k);
    }
    if i < |rs| - 1 {
      LessAsymmetric(k, rs[|rs| - 1].key);
    }
  }

  /** A key below the first key of a sorted list is absent. */
  lemma FindBelow(rs: seq<Record>, k: Key)
    requires Sorted(rs) && (rs == [] || Less(k, rs[0].key))
    ensures Find(rs, k) == None
  {
    if Find(rs, k).Some? {
      FindWithin(rs, k);
    }
  }

  /** A sorted list is determined by its lookups. */
  lemma {:induction false} SortedUnique(a: seq<Record>, b: seq<Record>)
    requires Sorted(a) && Sorted(b)
    requires forall k :: Find(a, k) == Find(b, k)
    ensures a == b
    decreases |a|
  {
    if a == [] {
      var q := if b == [] then [] else b[0].key;
      assert Find(a, q) == Find(b, q);
    } else {
      FindAt(a, 0);
      assert Find(b, a[0].key).Some?;
      FindWithin(b, a[0].key);
      FindAt(b, 0);
      assert Find(a, b[0].key).Some?;
      FindWithin(a, b[0].key);
      AtMostAntisymmetric(a[0].key, b[0].key);
      forall k
        ensures Find(a[1..], k) == Find(b[1..], k)
      {
        assert Find(a, k) == Find(b, k);
        if k == a[0].key {
          HeadOnlyOnce(a);
          HeadOnlyOnce(b);
        }
      }
      SortedUnique(a[1..], b[1..]);
      assert a == [a[0]] + a[1..] && b == [b[0]] + b[1..];
    }
  }

  lemma HeadOnlyOnce(a: seq<Record>)
    requires Sorted(a) && a != []
    ensures Find(a[1..], a[0].key) == None
  {
    FindBelow(a[1..], a[0].key);
  }

  // ---------- insertion ----------

  /** `BTreeMap::insert`. */
  function Insert(rs: seq<Record>, k: Key, e: Entry): seq<Record>
    decreases |rs|
  {
    if rs == [] then [Record(k, e)]
    else if k == rs[0].key then [Record(k, e)] + rs[1..]
    else if Less(k, rs[0].key) then [Record(k, e)] + rs
    else [rs[0]] + Insert(rs[1..], k, e)
  }

  /** Insertions one after another. */
  function InsertAll(into: seq<Record>, rs: seq<Record>): seq<Record>
    decreases |rs|
  {
    if rs == [] then into
    else
      var last := rs[|rs| - 1];
      Insert(InsertAll(into, rs[..|rs| - 1]), last.key, last.entry)
  }

  lemma {:induction false} InsertFinds(rs: seq<Record>, k: Key, e: Entry, q: Key)
    ensures Find(Insert(rs, k, e), q) == if q == k then Some(e) else Find(rs, q)
    decreases |rs|
  {
    if rs != [] && k != rs[0].key && !Less(k, rs[0].key) {
      InsertFinds(rs[1..], k, e, q);
      assert Insert(rs, k, e)[1..] == Insert(rs[1..], k, e);
    } else if rs != [] && k == rs[0].key {
      assert Insert(rs, k, e)[1..] == rs[1..];
    } else if rs != [] {
      assert Insert(rs, k, e)[1..] == rs;
    }
  }

  lemma {:induction false} InsertMembers(rs: seq<Record>, k: Key, e: Entry)
    ensures Insert(rs, k, e) != []
    ensures forall r | r in Insert(rs, k, e) :: r == Record(k, e) || r in rs
    decreases |rs|
  {
    if rs != [] && k != rs[0].key && !Less(k, rs[0].key) {
      InsertMembers(rs[1..], k, e);
    }
  }

  lemma SortedCons(r: Record, rs: seq<Record>)
    requires Sorted(rs)
    requires forall s | s in rs :: Less(r.key, s.key)
    ensures Sorted([r] + rs)
  {
    var a := [r] + rs;
    forall i, j | 0 <= i < j < |a|
      ensures Less(a[i].key, a[j].key)
    {
      assert a[j] == rs[j - 1] && rs[j - 1] in rs;
      if i > 0 {
        assert a[i] == rs[i - 1];
      }
    }
  }

  lemma SortedTail(rs: seq<Record>)
    requires Sorted(rs) && rs != []
    ensures Sorted(rs[1..])
    ensures forall s | s in rs[1..] :: Less(rs[0].key, s.key)
  {
  }

  lemma {:induction false} InsertSorted(rs: seq<Record>, k: Key, e: Entry)
    requires Sorted(rs)
    ensures Sorted(Insert(rs, k, e))
    decreases |rs|
  {
    if rs != [] {
      SortedTail(rs);
      if k == rs[0].key {
        SortedCons(Record(k, e), rs[1..]);
      } else if Less(k, rs[0].key) {
        forall s | s in rs
          ensures Less(k, s.key)
        {
          if s != rs[0] {
            LessTransitive(k, rs[0].key, s.key);
          }
        }
        SortedCons(Record(k, e), rs);
      } else {
        LessTotal(k, rs[0].key);
        InsertSorted(rs[1..], k, e);
        InsertMembers(rs[1..], k, e);
        SortedCons(rs[0], Insert(rs[1..], k, e));
      }
    }
  }

  /** Appending a key above all others is insertion. */
  lemma {:induction false} InsertLast(rs: seq<Record>, k: Key, e: Entry)
    requires forall i | 0 <= i < |rs| :: Less(rs[i].key, k)
    ensures Insert(rs, k, e) == rs + [Record(k, e)]
    decreases |rs|
  {
    if rs != [] {
      LessIrreflexive(k);
      LessAsymmetric(rs[0].key, k);
      InsertLast(rs[1..], k, e);
      assert rs == [rs[0]] + rs[1..];
    }
  }

  // ---------- sizes ----------

  lemma {:induction false} SizeOfConcat(a: seq<Record>, b: seq<Record>)
    ensures SizeOf(a + b) == SizeOf(a) + SizeOf(b)
    decreases |b|
  {
    if b == [] {
      assert a + b == a;
    } else {
      assert (a + b)[..|a + b| - 1] == a + b[..|b| - 1];
      SizeOfConcat(a, b[..|b| - 1]);
    }
  }

  lemma SizeOfOne(r: Record)
    ensures SizeOf([r]) == RecordSize(r)
  {
    assert [r][..0] == [];
  }

  lemma SizeOfMore(current: seq<Record>, r: Record)
    ensures SizeOf(current + [r]) == SizeOf(current) + RecordSize(r)
  {
    assert (current + [r])[..|current|] == current;
  }

  lemma {:induction false} SizeOfPrefix(a: seq<Record>, b: seq<Record>)
    ensures SizeOf(a) <= SizeOf(a + b)
    decreases |b|
  {
    if b == [] {
      assert a + b == a;
    } else {
      assert (a + b)[..|a + b| - 1] == a + b[..|b| - 1];
      SizeOfPrefix(a, b[..|b| - 1]);
    }
  }

  // ---------- lists of lists ----------

  function Flat(pieces: seq<seq<Record>>): seq<Record>
    decreases |pieces|
  {
    if pieces == [] then [] else pieces[0] + Flat(pieces[1..])
  }

  lemma {:induction false} FlatConcat(a: seq<seq<Record>>, b: seq<seq<Record>>)
    ensures Flat(a + b) == Flat(a) + Flat(b)
    decreases |a|
  {
    if a == [] {
      assert a + b == b;
    } else {
      assert (a + b)[1..] == a[1..] + b;
      FlatConcat(a[1..], b);
    }
  }

  lemma {:induction false} FlatMembers(pieces: seq<seq<Record>>)
    ensures forall r :: r in Flat(pieces) <==> exists i :: 0 <= i < |pieces| && r in pieces[i]
    decreases |pieces|
  {
    if pieces != [] {
      FlatMembers(pieces[1..]);
      forall r
        ensures r in Flat(pieces) <==> exists i :: 0 <= i < |pieces| && r in pieces[i]
      {
        if r in Flat(pieces[1..]) {
          var i :| 0 <= i < |pieces[1..]| && r in pieces[1..][i];
          assert r in pieces[i + 1];
        }
        if i :| 0 <= i < |pieces| && r in pieces[i] {
          if i > 0 {
            assert r in pieces[1..][i - 1];
          }
        }
      }
    }
  }

  /** Pieces of an ascending list are ascending, one wholly before the next. */
  lemma {:induction false} PiecesAscend(pieces: seq<seq<Record>>)
    requires Sorted(Flat(pieces))
    ensures forall i | 0 <= i < |pieces| :: Sorted(pieces[i])
    ensures forall i, j, r, s | 0 <= i < j < |pieces| && r in pieces[i] && s in pieces[j] :: Less(r.key, s.key)
    decreases |pieces|
  {
    if pieces != [] {
      SortedConcat(pieces[0], Flat(pieces[1..]));
      PiecesAscend(pieces[1..]);
      FlatMembers(pieces[1..]);
      forall i, j, r, s | 0 <= i < j < |pieces| && r in pieces[i] && s in pieces[j]
        ensures Less(r.key, s.key)
      {
        assert s in pieces[1..][j - 1];
        if i == 0 {
          assert s in Flat(pieces[1..]);
        } else {
          assert r in pieces[1..][i - 1];
        }
      }
    }
  }
}
