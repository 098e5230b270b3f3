/**
 How many table ids a run can use. Every record that is written sinks through at
 most so many levels, and a job uses no more ids than it has records to merge.
 */
module Ids {
  import opened Records
  import opened Lsm
  import opened Planning
  import opened Merging
  import opened Levels
  import opened Jobs

  /** The files, the id that comes next, and how many entries the memtable has. */
  datatype Usage = Usage(files: Files, next: nat, entries: nat)

  /** A bound on the ids used when all of the records have sunk, if no job ever merges more than `most`. */
  function Owed(u: Usage, most: nat): nat
  {
    u.next + u.entries + (Energy(u.files, u.next) + FLOOR * u.entries) * most
  }

  /** A write may add a record, a full compaction lifts them all. */
  function Costs(writes: nat, fulls: nat, most: nat): nat
  {
    writes * (1 + FLOOR * most) + fulls * (most + FLOOR * most * most)
  }

  /** With so many writes and full compactions to come, there are never more than `most` records, nor `limit` ids. */
  predicate Allows(u: Usage, most: nat, limit: nat, writes: nat, fulls: nat)
  {
    && Sum(u.files, Length, u.next) + u.entries + writes <= most
    && Owed(u, most) + Costs(writes, fulls, most) <= limit
  }

  /** So many writes and full compactions, done or cut short, used no more ids than they were allowed. */
  ghost predicate Uses(u: Usage, next: nat, writes: nat, fulls: nat)
  {
    forall most, limit, w: nat, f: nat | Allows(u, most, limit, w, f) && writes <= w && fulls <= f :: next <= limit
  }

  /** Once they are done, the rest of what was allowed is still allowed. */
  ghost predicate Spent(u: Usage, v: Usage, writes: nat, fulls: nat)
  {
    forall most, limit, w: nat, f: nat | Allows(u, most, limit, w, f) && writes <= w && fulls <= f ::
      Allows(v, most, limit, w - writes, f - fulls)
  }

  /** How many ids a run without a crash uses at most. */
  function IdsFor(writes: nat, fulls: nat): nat
  {
    (1 + fulls) * writes * (1 + FLOOR * writes)
  }

  lemma AllowedAtFirst(writes: nat, fulls: nat)
    ensures Allows(Usage(map[], 0, 0), writes, IdsFor(writes, fulls), writes, fulls)
  {
    var most := writes;
    calc {
      IdsFor(writes, fulls);
      (1 + fulls) * (most * (1 + FLOOR * most));
      most * (1 + FLOOR * most) + fulls * (most * (1 + FLOOR * most));
      writes * (1 + FLOOR * most) + fulls * (most + FLOOR * most * most);
    }
  }

  lemma AllowedIsWithin(u: Usage, most: nat, limit: nat, writes: nat, fulls: nat)
    requires Allows(u, most, limit, writes, fulls)
    ensures u.next + u.entries <= limit
  {
    hide Energy, Sum, Costs;
  }

  lemma SpentThrough(u: Usage, v: Usage, w: Usage, writes: nat, fulls: nat, more: nat, moreFulls: nat)
    requires Spent(u, v, writes, fulls) && Spent(v, w, more, moreFulls)
    ensures Spent(u, w, writes + more, fulls + moreFulls)
  {
    hide Allows;
    forall most, limit, n: nat, f: nat | Allows(u, most, limit, n, f) && writes + more <= n && fulls + moreFulls <= f
      ensures Allows(w, most, limit, n - (writes + more), f - (fulls + moreFulls))
    {
      assert Allows(v, most, limit, n - writes, f - fulls);
    }
  }

  lemma UsesThrough(u: Usage, v: Usage, next: nat, writes: nat, fulls: nat, more: nat, moreFulls: nat)
    requires Spent(u, v, writes, fulls) && Uses(v, next, more, moreFulls)
    ensures Uses(u, next, writes + more, fulls + moreFulls)
  {
    hide Allows;
  }

  lemma UsesMore(u: Usage, next: nat, writes: nat, fulls: nat, moreWrites: nat, moreFulls: nat)
    requires Uses(u, next, writes, fulls) && writes <= moreWrites && fulls <= moreFulls
    ensures Uses(u, next, moreWrites, moreFulls)
  {
    hide Allows;
  }

  /** From an empty directory on. */
  lemma IdsAreFew(u: Usage, next: nat, writes: nat, fulls: nat)
    requires u == Usage(map[], 0, 0) && Uses(u, next, writes, fulls)
    ensures next <= IdsFor(writes, fulls)
  {
    hide Allows, IdsFor;
    AllowedAtFirst(writes, fulls);
  }

  // ---------- no more ids, no more entries ----------

  lemma {:induction false} SpentNone(u: Usage, v: Usage)
    requires v.files == u.files && v.next <= u.next && v.entries <= u.entries
    requires forall id | id in u.files :: id < v.next
    ensures Spent(u, v, 0, 0)
  {
    hide Sum, Costs, Allows;
    forall most, limit, w: nat, f: nat | Allows(u, most, limit, w, f)
      ensures Allows(v, most, limit, w, f)
    {
      AllowsFewer(u, v, most, limit, w, f);
    }
  }

  lemma AllowsFewer(u: Usage, v: Usage, most: nat, limit: nat, writes: nat, fulls: nat)
    requires v.files == u.files && v.next <= u.next && v.entries <= u.entries
    requires forall id | id in u.files :: id < v.next
    requires Allows(u, most, limit, writes, fulls)
    ensures Allows(v, most, limit, writes, fulls)
  {
    hide Sum, Costs;
    SumBeyond(u.files, Length, v.next, u.next);
    SumBeyond(u.files, Height, v.next, u.next);
    Scale(Energy(u.files, u.next) + FLOOR * v.entries, Energy(u.files, u.next) + FLOOR * u.entries, most);
  }

  lemma Scale(a: nat, b: nat, c: nat)
    requires a <= b
    ensures a * c <= b * c
  {
  }

  /** An id for each entry of the memtable is always allowed. */
  lemma UsesEntries(u: Usage, next: nat, writes: nat, fulls: nat)
    requires next <= u.next + u.entries
    ensures Uses(u, next, writes, fulls)
  {
    hide Allows;
    forall most, limit, w: nat, f: nat | Allows(u, most, limit, w, f)
      ensures next <= limit
    {
      AllowedIsWithin(u, most, limit, w, f);
    }
  }

  // ---------- a write ----------

  lemma CostOfWrite(writes: nat, fulls: nat, most: nat)
    requires writes >= 1
    ensures Costs(writes, fulls, most) == Costs(writes - 1, fulls, most) + 1 + FLOOR * most
  {
  }

  lemma CostOfFull(writes: nat, fulls: nat, most: nat)
    requires fulls >= 1
    ensures Costs(writes, fulls, most) == Costs(writes, fulls - 1, most) + most + FLOOR * most * most
  {
  }

  lemma SpentByWrite(u: Usage, v: Usage)
    requires v.files == u.files && v.next == u.next && v.entries <= u.entries + 1
    ensures Spent(u, v, 1, 0)
  {
    hide Sum, Costs, Allows;
    forall most, limit, w: nat, f: nat | Allows(u, most, limit, w, f) && 1 <= w
      ensures Allows(v, most, limit, w - 1, f)
    {
      AllowsWrite(u, v, most, limit, w, f);
    }
  }

  lemma AllowsWrite(u: Usage, v: Usage, most: nat, limit: nat, writes: nat, fulls: nat)
    requires v.files == u.files && v.next == u.next && v.entries <= u.entries + 1
    requires Allows(u, most, limit, writes, fulls) && writes >= 1
    ensures Allows(v, most, limit, writes - 1, fulls)
  {
    hide Sum, Energy, Costs;
    CostOfWrite(writes, fulls, most);
    var energy := Energy(u.files, u.next);
    Scale(energy + FLOOR * v.entries, energy + FLOOR * (u.entries + 1), most);
    calc {
      (energy + FLOOR * (u.entries + 1)) * most;
      (energy + FLOOR * u.entries + FLOOR) * most;
      (energy + FLOOR * u.entries) * most + FLOOR * most;
    }
  }

  // ---------- a flush ----------

  lemma SpentByFlush(fs: Files, next: nat, records: seq<Record>)
    requires records != [] && forall id | id in fs :: id < next
    ensures Spent(Usage(fs, next, |records|), Usage(fs[next := Table(0, records)], next + 1, 0), 0, 0)
  {
    hide Costs, Energy, Sum, Allows;
    var gs := fs[next := Table(0, records)];
    var u, v := Usage(fs, next, |records|), Usage(gs, next + 1, 0);
    SumSame(fs, gs, Length, next);
    SumSame(fs, gs, Height, next);
    OneMoreTable(gs, next);
    assert Energy(fs, next) == Sum(fs, Height, next) by {
      EnergyIs(fs, next);
    }
    forall most, limit, w: nat, f: nat | Allows(u, most, limit, w, f)
      ensures Allows(v, most, limit, w, f)
    {
      AllowsTable(u, v, most, limit, w, f);
    }
  }

  lemma EnergyIs(fs: Files, n: nat)
    ensures Energy(fs, n) == Sum(fs, Height, n)
  {
  }

  lemma AllowsTable(u: Usage, v: Usage, most: nat, limit: nat, writes: nat, fulls: nat)
    requires Allows(u, most, limit, writes, fulls) && u.entries > 0 && v.next == u.next + 1 && v.entries == 0
    requires Energy(v.files, v.next) == Energy(u.files, u.next) + FLOOR * u.entries
    requires Sum(v.files, Length, v.next) == Sum(u.files, Length, u.next) + u.entries
    ensures Allows(v, most, limit, writes, fulls)
  {
    hide Costs, Energy, Sum;
  }

  lemma OneMoreTable(fs: Files, id: nat)
    requires id in fs && fs[id].level == 0
    ensures Energy(fs, id + 1) == Sum(fs, Height, id) + FLOOR * |fs[id].records|
    ensures Sum(fs, Length, id + 1) == Sum(fs, Length, id) + |fs[id].records|
  {
  }

  lemma {:induction false} SumSame(fs: Files, gs: Files, w: Table -> nat, n: nat)
    requires forall id | id < n :: (id in fs <==> id in gs) && (id in fs ==> fs[id] == gs[id])
    ensures Sum(fs, w, n) == Sum(gs, w, n)
  {
    if n > 0 {
      SumSame(fs, gs, w, n - 1);
    }
  }

  // ---------- a job ----------

  lemma {:induction false} FlatIsAsLong(pieces: seq<seq<Record>>)
    requires forall i | 0 <= i < |pieces| :: pieces[i] != []
    ensures |pieces| <= |Flat(pieces)|
    decreases |pieces|
  {
    if pieces != [] {
      FlatIsAsLong(pieces[1..]);
    }
  }

  /** A job uses no more ids than it has records to merge, and leaves no more records than there were. */
  lemma JobUses(levels: Levels, fs: Files, job: CompactionJob, first: nat)
    requires Mirrors(levels, fs) && InputsFrom(job.inputs, levels)
    requires forall id | id in fs :: id < first
    ensures |OutputPieces(job)| <= Sum(fs, Length, first)
    ensures Sum((fs - IdsOf(job.inputs)) + OutputFiles(job, first), Length, first + |OutputPieces(job)|)
         <= Sum(fs, Length, first)
  {
    hide *;
    var n := first + |OutputPieces(job)|;
    JobShrinks(levels, fs, job, first, n);
    PiecesAreFew(job, first);
    OutputIdsFrom(job, first);
    SumAfterJob(fs, IdsOf(job.inputs), OutputFiles(job, first), first, n);
  }

  lemma OutputIdsFrom(job: CompactionJob, first: nat)
    ensures forall id | id in OutputFiles(job, first) :: id >= first
  {
    hide OutputPieces;
  }

  lemma PiecesAreFew(job: CompactionJob, first: nat)
    ensures |OutputPieces(job)| <= Sum(OutputFiles(job, first), Length, first + |OutputPieces(job)|)
  {
    hide Sum, Length, Surviving, MergedRecords, Cut, Flat, FilesOf;
    var pieces := OutputPieces(job);
    CutPieces([], Surviving(MergedRecords(job.inputs), job.dropTombstones), job.targetFileSize);
    assert forall i | 0 <= i < |pieces| :: pieces[i] in pieces;
    FlatIsAsLong(pieces);
    FlatLength(pieces, first, job.outputLevel, first + |pieces|);
  }

  lemma SumAfterJob(fs: Files, gone: set<nat>, outs: Files, first: nat, n: nat)
    requires first <= n && (forall id | id in fs :: id < first) && (forall id | id in outs :: id >= first)
    requires Sum(outs, Length, n) <= Sum(Restrict(fs, gone), Length, n)
    ensures Sum(outs, Length, n) <= Sum(fs, Length, first)
    ensures Sum((fs - gone) + outs, Length, n) <= Sum(fs, Length, first)
  {
    hide Sum, Length;
    assert fs == (fs - gone) + Restrict(fs, gone);
    SumDisjoint(fs - gone, Restrict(fs, gone), Length, n);
    SumDisjoint(fs - gone, outs, Length, n);
    SumBeyond(fs, Length, first, n);
  }

  /** A planned job pays for its ids with the energy that it takes away. */
  lemma SpentByJob(u: Usage, v: Usage)
    requires Energy(v.files, v.next) < Energy(u.files, u.next) && v.next <= u.next + Sum(u.files, Length, u.next)
    requires Sum(v.files, Length, v.next) <= Sum(u.files, Length, u.next) && v.entries == u.entries
    ensures Spent(u, v, 0, 0)
  {
    hide Sum, Energy, Allows;
    forall most, limit, w: nat, f: nat | Allows(u, most, limit, w, f)
      ensures Allows(v, most, limit, w, f)
    {
      AllowsJob(u, v, most, limit, w, f);
    }
  }

  lemma AllowsJob(u: Usage, v: Usage, most: nat, limit: nat, writes: nat, fulls: nat)
    requires Energy(v.files, v.next) < Energy(u.files, u.next) && v.next <= u.next + Sum(u.files, Length, u.next)
    requires Sum(v.files, Length, v.next) <= Sum(u.files, Length, u.next) && v.entries == u.entries
    requires Allows(u, most, limit, writes, fulls)
    ensures Allows(v, most, limit, writes, fulls)
  {
    hide Sum, Energy, Costs;
    OneMore(Energy(v.files, v.next) + FLOOR * u.entries, Energy(u.files, u.next) + FLOOR * u.entries, most);
  }

  lemma OneMore(a: nat, b: nat, c: nat)
    requires a < b
    ensures a * c + c <= b * c
  {
    Scale(a + 1, b, c);
  }

  /** A job that is not done may have used as many. */
  lemma UsesInJob(u: Usage, next: nat)
    requires Energy(u.files, u.next) >= 1 && next <= u.next + Sum(u.files, Length, u.next)
    ensures Uses(u, next, 0, 0)
  {
    hide Sum, Energy, Costs;
    forall most, limit, w: nat, f: nat | Allows(u, most, limit, w, f)
      ensures next <= limit
    {
      Scale(1, Energy(u.files, u.next) + FLOOR * u.entries, most);
    }
  }

  // ---------- a full compaction ----------

  lemma UsesInFull(u: Usage, next: nat)
    requires next <= u.next + Sum(u.files, Length, u.next)
    ensures Uses(u, next, 0, 1)
  {
    hide Sum, Energy, Costs, Owed;
    forall most, limit, w: nat, f: nat | Allows(u, most, limit, w, f) && 1 <= f
      ensures next <= limit
    {
      CostOfFull(w, f, most);
      OwedAtLeast(u, most);
    }
  }

  lemma SpentByFull(u: Usage, v: Usage)
    requires v.next <= u.next + Sum(u.files, Length, u.next) && v.entries == u.entries
    requires (forall id | id in v.files :: v.files[id].level == 1)
    requires Sum(v.files, Length, v.next) <= Sum(u.files, Length, u.next)
    ensures Spent(u, v, 0, 1)
  {
    hide Sum, Energy, Costs, Owed;
    forall most, limit, w: nat, f: nat | Allows(u, most, limit, w, f) && 1 <= f
      ensures Allows(v, most, limit, w, f - 1)
    {
      CostOfFull(w, f, most);
      OwedAtLeast(u, most);
      EnergyAtLevel(v.files, 1, v.next);
      OwedAtMost(v, most);
    }
  }

  /** A full compaction that has nothing to do uses none. */
  lemma FullNotNeeded(u: Usage)
    ensures Spent(u, u, 0, 1)
  {
    hide Sum, Costs, Owed;
    forall most, limit, w: nat, f: nat | Allows(u, most, limit, w, f) && 1 <= f
      ensures Allows(u, most, limit, w, f - 1)
    {
      CostOfFull(w, f, most);
    }
  }

  lemma OwedAtLeast(u: Usage, most: nat)
    ensures Owed(u, most) >= u.next + u.entries + FLOOR * u.entries * most
  {
    hide Energy;
    Scale(FLOOR * u.entries, Energy(u.files, u.next) + FLOOR * u.entries, most);
  }

  lemma OwedAtMost(u: Usage, most: nat)
    requires Energy(u.files, u.next) <= FLOOR * most
    ensures Owed(u, most) <= u.next + u.entries + FLOOR * u.entries * most + FLOOR * most * most
  {
    hide Energy;
    Scale(Energy(u.files, u.next) + FLOOR * u.entries, FLOOR * most + FLOOR * u.entries, most);
  }
}
