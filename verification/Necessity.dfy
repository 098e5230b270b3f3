/**
 Why the protocol is as careful as it is: two runs of a job that go wrong, or
 leave more behind than a reader might think.
 */
module Necessity {
  import opened Bytes
  import opened Records
  import opened Lsm
  import opened Planning

  lemma FindCons(r: Record, rest: seq<Record>, k: Key)
    ensures Find([r] + rest, k) == if k == r.key then Some(r.entry) else Find(rest, k)
  {
    assert ([r] + rest)[1..] == rest;
  }

  lemma FindInThree(r: Record, s: Record, t: Record, k: Key)
    ensures Find([r], k) == if k == r.key then Some(r.entry) else None
    ensures Find([r, s], k) == if k == r.key then Some(r.entry) else if k == s.key then Some(s.entry) else None
    ensures Find([r, s, t], k)
         == if k == r.key then Some(r.entry) else if k == s.key then Some(s.entry)
            else if k == t.key then Some(t.entry) else None
  {
    FindCons(t, [], k);
    FindCons(s, [t], k);
    FindCons(s, [], k);
    FindCons(r, [s, t], k);
    FindCons(r, [s], k);
    FindCons(r, [], k);
    assert [r] + [s, t] == [r, s, t] && [r] + [s] == [r, s] && [s] + [t] == [s, t];
    assert [r] + [] == [r] && [s] + [] == [s] && [t] + [] == [t];
  }

  /**
   Deleting inputs before the marker is written would not be safe: with only the
   shallower input of a planned job gone, a deleted key comes back.
   */
  lemma DeletingWithoutMarkerResurrects(k: Key, v: Bytes)
    ensures var fs: Files := map[1 := Table(1, [Record(k, Value(v))]), 2 := Table(0, [Record(k, Tombstone)])];
            var job := Job({1, 2}, 1, true);
            && WellFormed(fs) && DisjointLevels(fs) && Takes(fs, job, 0, {2}, k, k)
            && Safe(fs, job) && AllOutputsOf(fs, job, map[])
            && Visible(Newest(fs, k)) == None
            && Visible(Newest((fs + map[]) - {2}, k)) == Some(v)
  {
    var fs: Files := map[1 := Table(1, [Record(k, Value(v))]), 2 := Table(0, [Record(k, Tombstone)])];
    var job := Job({1, 2}, 1, true);
    var left: Files := map[1 := Table(1, [Record(k, Value(v))])];
    assert (fs + map[]) - {2} == left;
    TombstoneAbove(fs, k, v);
    hide Takes, DisjointLevels, Safe, Less, Sorted, Top, AllOutputsOf, ColumnOf, Merged;
    PlanIsSafe(fs, job, 0, {2}, k, k);
    forall q
      ensures q != k ==> Merged(fs, job, q) == None
      ensures q == k ==> Merged(fs, job, q) == Newest(fs, q) == Some(Tombstone) && Newest(left, q) == Some(Value(v))
    {
      ResurrectedColumn(fs, left, k, v, q);
    }
    NoOutputs(fs, job);
  }

  /** A job whose every record is a dropped tombstone has no outputs. */
  lemma NoOutputs(fs: Files, job: Job)
    requires job.dropTombstones && forall q :: Merged(fs, job, q) == None || Merged(fs, job, q) == Some(Tombstone)
    ensures AllOutputsOf(fs, job, map[])
  {
    hide Merged, Top;
    forall q
      ensures ColumnOf(map[], q) == map[]
    {
    }
  }

  lemma TombstoneAbove(fs: Files, k: Key, v: Bytes)
    requires fs == map[1 := Table(1, [Record(k, Value(v))]), 2 := Table(0, [Record(k, Tombstone)])]
    ensures WellFormed(fs) && DisjointLevels(fs) && Takes(fs, Job({1, 2}, 1, true), 0, {2}, k, k)
  {
    LessIrreflexive(k);
    hide Less;
    assert fs.Keys == {1, 2};
  }

  lemma ResurrectedColumn(fs: Files, left: Files, k: Key, v: Bytes, q: Key)
    requires fs == map[1 := Table(1, [Record(k, Value(v))]), 2 := Table(0, [Record(k, Tombstone)])]
    requires left == map[1 := Table(1, [Record(k, Value(v))])]
    ensures var job := Job({1, 2}, 1, true);
            if q == k then Merged(fs, job, q) == Newest(fs, q) == Some(Tombstone) && Newest(left, q) == Some(Value(v))
            else Merged(fs, job, q) == None
  {
    assert Restrict(fs, {1, 2}) == fs;
    FindInThree(Record(k, Value(v)), Record(k, Tombstone), Record(k, Tombstone), q);
    FindInThree(Record(k, Tombstone), Record(k, Tombstone), Record(k, Tombstone), q);
    hide Find, Top, Less;
    var c, l := ColumnOf(fs, q), ColumnOf(left, q);
    if q == k {
      assert c == map[1 := Cell(1, Value(v)), 2 := Cell(0, Tombstone)];
      assert l == map[1 := Cell(1, Value(v))];
      assert IsFirst(c, 2) && IsFirst(l, 1);
      TopIs(c, 2);
      TopIs(l, 1);
    } else {
      assert c == map[];
      TopOfEmpty(c);
    }
  }

  /**
   A planned job cut short before its marker leaves its outputs beside its inputs:
   two files of one level then overlap, so the levels are no longer disjoint. What
   is left is the coherence that reads rely on. File 1 came of the first flush and
   its compaction, file 2 is the second flush.
   */
  lemma CutShortJobOverlaps(a: Key, b: Key, c: Key, x: Bytes, y: Bytes, z: Bytes)
    requires Less(a, b) && Less(b, c)
    ensures var fs: Files := map[1 := Table(1, [Record(a, Value(x)), Record(c, Value(z))]),
                                 2 := Table(0, [Record(b, Value(y))])];
            var job := Job({1, 2}, 1, true);
            var outs: Files := map[3 := Table(1, [Record(a, Value(x)), Record(b, Value(y)), Record(c, Value(z))])];
            && WellFormed(fs) && DisjointLevels(fs) && Takes(fs, job, 0, {2}, b, b)
            && Safe(fs, job) && AllOutputsOf(fs, job, outs)
            && WellFormed(fs + outs) && !DisjointLevels(fs + outs) && Coherent(fs + outs)
  {
    var fs: Files := map[1 := Table(1, [Record(a, Value(x)), Record(c, Value(z))]),
                         2 := Table(0, [Record(b, Value(y))])];
    var job := Job({1, 2}, 1, true);
    var outs: Files := map[3 := Table(1, [Record(a, Value(x)), Record(b, Value(y)), Record(c, Value(z))])];
    BeforeTheCut(fs, a, b, c, x, y, z);
    ThreeAscend(Record(a, Value(x)), Record(b, Value(y)), Record(c, Value(z)));
    PlanIsSafe(fs, job, 0, {2}, b, b);
    forall q
      ensures OutputColumn(ColumnOf(fs, q), job, ColumnOf(outs, q))
      ensures Merged(fs, job, q).Some? ==> 3 in ColumnOf(outs, q)
    {
      OverlapColumn(fs, outs, a, b, c, x, y, z, q);
    }
    hide Top, Less, Sorted;
    DisjointIsCoherent(fs);
    SomeOutputsHarmless(fs, job, outs);
    AllOutputsDisjointIff(fs, job, outs, 0, {2}, b, b);
  }

  lemma BeforeTheCut(fs: Files, a: Key, b: Key, c: Key, x: Bytes, y: Bytes, z: Bytes)
    requires Less(a, b) && Less(b, c)
    requires fs == map[1 := Table(1, [Record(a, Value(x)), Record(c, Value(z))]), 2 := Table(0, [Record(b, Value(y))])]
    ensures WellFormed(fs) && DisjointLevels(fs) && Takes(fs, Job({1, 2}, 1, true), 0, {2}, b, b)
  {
    ThreeAscend(Record(a, Value(x)), Record(b, Value(y)), Record(c, Value(z)));
    LessIrreflexive(b);
    LessAsymmetric(a, b);
    LessAsymmetric(b, c);
    hide Less, Sorted;
    assert fs.Keys == {1, 2};
  }

  lemma OverlapColumn(fs: Files, outs: Files, a: Key, b: Key, c: Key, x: Bytes, y: Bytes, z: Bytes, q: Key)
    requires Less(a, b) && Less(b, c)
    requires fs == map[1 := Table(1, [Record(a, Value(x)), Record(c, Value(z))]), 2 := Table(0, [Record(b, Value(y))])]
    requires outs == map[3 := Table(1, [Record(a, Value(x)), Record(b, Value(y)), Record(c, Value(z))])]
    ensures var job := Job({1, 2}, 1, true);
            && OutputColumn(ColumnOf(fs, q), job, ColumnOf(outs, q))
            && (Merged(fs, job, q).Some? ==> 3 in ColumnOf(outs, q))
  {
    Distinct(a, b, c);
    var col, out := ColumnOf(fs, q), ColumnOf(outs, q);
    OverlapCells(fs, outs, a, b, c, x, y, z, q);
    assert Restrict(fs, {1, 2}) == fs;
    hide ColumnOf, Top, Less;
    assert Restrict(col, {1, 2}) == col;
    if q == a || q == c {
      assert IsFirst(col, 1);
      TopIs(col, 1);
    } else if q == b {
      assert IsFirst(col, 2);
      TopIs(col, 2);
    } else {
      TopOfEmpty(col);
    }
  }

  lemma OverlapCells(fs: Files, outs: Files, a: Key, b: Key, c: Key, x: Bytes, y: Bytes, z: Bytes, q: Key)
    requires a != b && b != c && a != c
    requires fs == map[1 := Table(1, [Record(a, Value(x)), Record(c, Value(z))]), 2 := Table(0, [Record(b, Value(y))])]
    requires outs == map[3 := Table(1, [Record(a, Value(x)), Record(b, Value(y)), Record(c, Value(z))])]
    ensures ColumnOf(fs, q) == if q == a then map[1 := Cell(1, Value(x))]
                               else if q == b then map[2 := Cell(0, Value(y))]
                               else if q == c then map[1 := Cell(1, Value(z))] else map[]
    ensures ColumnOf(outs, q) == if q == a then map[3 := Cell(1, Value(x))]
                                 else if q == b then map[3 := Cell(1, Value(y))]
                                 else if q == c then map[3 := Cell(1, Value(z))] else map[]
  {
    FindInThree(Record(a, Value(x)), Record(b, Value(y)), Record(c, Value(z)), q);
    FindInThree(Record(b, Value(y)), Record(b, Value(y)), Record(b, Value(y)), q);
    FindInThree(Record(a, Value(x)), Record(c, Value(z)), Record(c, Value(z)), q);
    hide Find;
  }

  /**
   The highest id does not always win. From levels as a crash-free run leaves
   them, the planned job on the oldest file of level 1 rewrites an old record of
   `k` one level down, under an id above that of the newer record in level 1.
   Reads, and a later merge of both files, still take the newer one.
   */
  lemma HighestIdLosesAfterJob(a: Key, b: Key, k: Key, x: Bytes, y: Bytes, older: Bytes, newer: Bytes)
    requires Less(a, b) && Less(b, k)
    ensures var before: Files := map[5 := Table(2, [Record(a, Value(x)), Record(k, Value(older))]),
                                     6 := Table(1, [Record(b, Value(y))]), 7 := Table(1, [Record(k, Value(newer))])];
            var job := Job({5, 6}, 2, true);
            var outs: Files := map[8 := Table(2, [Record(a, Value(x)), Record(b, Value(y)), Record(k, Value(older))])];
            var after := (before - job.inputs) + outs;
            && WellFormed(before) && DisjointLevels(before) && Coherent(before)
            && Takes(before, job, 1, {6}, b, b) && Safe(before, job)
            && AllOutputsOf(before, job, outs) && WellFormed(outs)
            && ColumnOf(after, k) == map[7 := Cell(1, Value(newer)), 8 := Cell(2, Value(older))]
            && Newest(after, k) == Some(Value(newer)) && Merged(after, Job({7, 8}, 1, true), k) == Some(Value(newer))
  {
    var before: Files := map[5 := Table(2, [Record(a, Value(x)), Record(k, Value(older))]),
                             6 := Table(1, [Record(b, Value(y))]), 7 := Table(1, [Record(k, Value(newer))])];
    var job := Job({5, 6}, 2, true);
    var outs: Files := map[8 := Table(2, [Record(a, Value(x)), Record(b, Value(y)), Record(k, Value(older))])];
    hide *;
    StateBefore(before, a, b, k, x, y, older, newer);
    PlanIsSafe(before, job, 1, {6}, b, b);
    JobOutputs(before, outs, a, b, k, x, y, older, newer);
    var after := (before - job.inputs) + outs;
    assert after == map[7 := before[7], 8 := outs[8]];
    StateAfter(after, a, b, k, x, y, older, newer);
  }

  lemma JobOutputs(before: Files, outs: Files, a: Key, b: Key, k: Key, x: Bytes, y: Bytes, older: Bytes, newer: Bytes)
    requires Less(a, b) && Less(b, k)
    requires before == map[5 := Table(2, [Record(a, Value(x)), Record(k, Value(older))]),
                           6 := Table(1, [Record(b, Value(y))]), 7 := Table(1, [Record(k, Value(newer))])]
    requires outs == map[8 := Table(2, [Record(a, Value(x)), Record(b, Value(y)), Record(k, Value(older))])]
    ensures AllOutputsOf(before, Job({5, 6}, 2, true), outs) && WellFormed(outs)
  {
    ThreeAscend(Record(a, Value(x)), Record(b, Value(y)), Record(k, Value(older)));
    hide Less, Sorted, ColumnOf, Merged, OutputColumn;
    forall q
      ensures OutputColumn(ColumnOf(before, q), Job({5, 6}, 2, true), ColumnOf(outs, q))
      ensures Merged(before, Job({5, 6}, 2, true), q).Some? ==> ColumnOf(outs, q).Keys != {}
    {
      JobColumn(before, outs, a, b, k, x, y, older, newer, q);
    }
  }

  lemma ThreeAscend(r: Record, s: Record, t: Record)
    requires Less(r.key, s.key) && Less(s.key, t.key)
    ensures Sorted([r, s, t]) && Sorted([r, t]) && Sorted([s]) && Sorted([t])
  {
    LessTransitive(r.key, s.key, t.key);
  }

  lemma StateBefore(before: Files, a: Key, b: Key, k: Key, x: Bytes, y: Bytes, older: Bytes, newer: Bytes)
    requires Less(a, b) && Less(b, k)
    requires before == map[5 := Table(2, [Record(a, Value(x)), Record(k, Value(older))]),
                           6 := Table(1, [Record(b, Value(y))]), 7 := Table(1, [Record(k, Value(newer))])]
    ensures WellFormed(before) && DisjointLevels(before) && Coherent(before)
    ensures Takes(before, Job({5, 6}, 2, true), 1, {6}, b, b)
  {
    ThreeAscend(Record(a, Value(x)), Record(b, Value(y)), Record(k, Value(older)));
    LessTransitive(a, b, k);
    LessIrreflexive(b);
    LessAsymmetric(a, b);
    LessAsymmetric(b, k);
    hide Less, Sorted, Coherent;
    assert before.Keys == {5, 6, 7};
    assert Apart(before[6], before[7]);
    DisjointIsCoherent(before);
  }

  lemma JobColumn(before: Files, outs: Files, a: Key, b: Key, k: Key,
                  x: Bytes, y: Bytes, older: Bytes, newer: Bytes, q: Key)
    requires Less(a, b) && Less(b, k)
    requires before == map[5 := Table(2, [Record(a, Value(x)), Record(k, Value(older))]),
                           6 := Table(1, [Record(b, Value(y))]), 7 := Table(1, [Record(k, Value(newer))])]
    requires outs == map[8 := Table(2, [Record(a, Value(x)), Record(b, Value(y)), Record(k, Value(older))])]
    ensures var job := Job({5, 6}, 2, true);
            && OutputColumn(ColumnOf(before, q), job, ColumnOf(outs, q))
            && (Merged(before, job, q).Some? ==> ColumnOf(outs, q).Keys != {})
  {
    Distinct(a, b, k);
    JobCells(before, outs, a, b, k, x, y, older, newer, q);
    ColumnOfRestrict(before, {5, 6}, q);
    hide *;
    var col, out := ColumnOf(before, q), ColumnOf(outs, q);
    MergedIs(before, q);
    if q == a {
      OneInput(col, out, 5);
    } else if q == b {
      OneInput(col, out, 6);
    } else if q == k {
      OneInput(col, out, 5);
    } else {
      NoInput(col, out);
    }
  }

  lemma MergedIs(fs: Files, q: Key)
    ensures Merged(fs, Job({5, 6}, 2, true), q) == Top(Restrict(ColumnOf(fs, q), {5, 6}))
  {
    ColumnOfRestrict(fs, {5, 6}, q);
  }

  /** The job takes the key from one file, and its output has it. */
  lemma OneInput(c: Column, out: Column, id: nat)
    requires id in c && c.Keys <= {id, 7} && id in {5, 6} && c[id].entry.Value?
    requires out == map[8 := Cell(2, c[id].entry)]
    ensures OutputColumn(c, Job({5, 6}, 2, true), out) && out.Keys != {}
  {
    var ins := Restrict(c, {5, 6});
    assert IsFirst(ins, id);
    TopIs(ins, id);
    assert 8 in out;
  }

  lemma NoInput(c: Column, out: Column)
    requires c == map[] && out == map[]
    ensures OutputColumn(c, Job({5, 6}, 2, true), out) && Top(Restrict(c, {5, 6})) == None
  {
    assert Restrict(c, {5, 6}) == map[];
    TopOfEmpty(Restrict(c, {5, 6}));
  }

  lemma Distinct(a: Key, b: Key, k: Key)
    requires Less(a, b) && Less(b, k)
    ensures a != b && b != k && a != k
  {
    LessTransitive(a, b, k);
    LessIrreflexive(a);
    LessIrreflexive(b);
  }

  lemma JobCells(before: Files, outs: Files, a: Key, b: Key, k: Key,
                 x: Bytes, y: Bytes, older: Bytes, newer: Bytes, q: Key)
    requires a != b && b != k && a != k
    requires before == map[5 := Table(2, [Record(a, Value(x)), Record(k, Value(older))]),
                           6 := Table(1, [Record(b, Value(y))]), 7 := Table(1, [Record(k, Value(newer))])]
    requires outs == map[8 := Table(2, [Record(a, Value(x)), Record(b, Value(y)), Record(k, Value(older))])]
    ensures ColumnOf(before, q) == if q == a then map[5 := Cell(2, Value(x))]
                                   else if q == b then map[6 := Cell(1, Value(y))]
                                   else if q == k then map[5 := Cell(2, Value(older)), 7 := Cell(1, Value(newer))]
                                   else map[]
    ensures ColumnOf(outs, q) == if q == a then map[8 := Cell(2, Value(x))]
                                 else if q == b then map[8 := Cell(2, Value(y))]
                                 else if q == k then map[8 := Cell(2, Value(older))]
                                 else map[]
  {
    FindInThree(Record(a, Value(x)), Record(b, Value(y)), Record(k, Value(older)), q);
    FindInThree(Record(a, Value(x)), Record(k, Value(older)), Record(k, Value(older)), q);
    FindInThree(Record(b, Value(y)), Record(b, Value(y)), Record(b, Value(y)), q);
    FindInThree(Record(k, Value(newer)), Record(k, Value(newer)), Record(k, Value(newer)), q);
    hide Find;
  }

  lemma StateAfter(after: Files, a: Key, b: Key, k: Key, x: Bytes, y: Bytes, older: Bytes, newer: Bytes)
    requires Less(a, b) && Less(b, k)
    requires after == map[7 := Table(1, [Record(k, Value(newer))]),
                          8 := Table(2, [Record(a, Value(x)), Record(b, Value(y)), Record(k, Value(older))])]
    ensures ColumnOf(after, k) == map[7 := Cell(1, Value(newer)), 8 := Cell(2, Value(older))]
    ensures Newest(after, k) == Some(Value(newer)) && Merged(after, Job({7, 8}, 1, true), k) == Some(Value(newer))
  {
    Distinct(a, b, k);
    FindInThree(Record(a, Value(x)), Record(b, Value(y)), Record(k, Value(older)), k);
    FindInThree(Record(k, Value(newer)), Record(k, Value(newer)), Record(k, Value(newer)), k);
    hide Find, Top;
    var c := ColumnOf(after, k);
    assert c == map[7 := Cell(1, Value(newer)), 8 := Cell(2, Value(older))];
    assert Restrict(after, {7, 8}) == after;
    assert IsFirst(c, 7);
    TopIs(c, 7);
  }
}
