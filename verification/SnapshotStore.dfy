/** One process's view of the shared directory: write, reap, clear and evict
  * (src/pheasant/job_snapshots.py, JobSnapshotStore). */
module SnapshotStore {
  import opened Options
  import opened JobSnapshots

  /** Nothing is added or changed, and nothing that reads running is dropped. */
  ghost predicate Kept(before: map<string, File>, after: map<string, File>, now: real) {
    && (forall id :: id in after ==> id in before && after[id] == before[id])
    && (forall id :: id in before && Read(before[id], now).active ==> id in after)
  }

  /** A running snapshot whose process went away. */
  predicate Orphan(file: File, now: real) {
    file.payload.active && !Read(file, now).active
  }

  /** The orphan `was`, written down as the failure a reader sees. */
  predicate WrittenDown(was: File, after: File, now: real) {
    Orphan(was, now) && after == File(Interrupted(was), now)
  }

  /** What reads finished in a directory. */
  function FinishedIn(files: map<string, File>, now: real): (ids: set<string>) {
    set id | id in files && !Read(files[id], now).active
  }

  /** Whatever was dropped is no younger than what is left finished. */
  ghost predicate OldestGone(before: map<string, File>, after: map<string, File>, now: real) {
    forall gone, kept :: gone in before && gone !in after && kept in FinishedIn(after, now) ==>
      kept in before && Read(before[gone], now).order <= Read(before[kept], now).order
  }

  /** The directory after a write, given what was there with the snapshot replaced: nothing but finished
    * snapshots has gone, and of these the oldest and only as many as the cap asks for. */
  ghost predicate Replaced(was: map<string, File>, files: map<string, File>, cap: nat, now: real) {
    && Kept(was, files, now)
    && (|files| <= cap || FinishedIn(files, now) == {})
    && (files == was || |files| >= cap)
    && (|was| <= cap ==> files == was)
    && OldestGone(was, files, now)
  }

  /** The directory part way through a reap: orphans outside `keep` that were looked at are written down
    * as failed, or evicted; nothing that reads running is touched. */
  ghost predicate Reaping(original: map<string, File>, files: map<string, File>, todo: set<string>,
      keep: set<string>, now: real)
  {
    && (forall id :: id in files ==> id in original)
    && (forall id :: id in files && files[id] != original[id] ==>
          id !in todo && id !in keep && WrittenDown(original[id], files[id], now))
    && (forall id :: id in files && id !in keep && id !in todo ==> !Orphan(files[id], now))
    && (forall id :: id in original && Read(original[id], now).active ==> id in files && files[id] == original[id])
  }

  /** No more has gone than the cap asks for. */
  ghost predicate WithinCap(original: map<string, File>, files: map<string, File>, cap: nat) {
    && (files.Keys == original.Keys || |files| >= cap)
    && (|original| <= cap ==> files.Keys == original.Keys)
  }

  /** One snapshot of a reap: rewritten and the directory evicted, or passed over. */
  ghost predicate Reaped(before: map<string, File>, after: map<string, File>, id: string, keep: set<string>,
      cap: nat, now: real)
  {
    if id !in keep && id in before && Orphan(before[id], now)
    then Replaced(before[id := File(Interrupted(before[id]), now)], after, cap, now) else after == before
  }

  lemma ReapingPassesOver(original: map<string, File>, files: map<string, File>, todo: set<string>,
      keep: set<string>, id: string, now: real)
    requires Reaping(original, files, todo, keep, now) && (id !in keep && id in files ==> !Orphan(files[id], now))
    ensures Reaping(original, files, todo - {id}, keep, now)
  {
  }

  lemma ReapingRewrites(original: map<string, File>, before: map<string, File>, was: map<string, File>,
      todo: set<string>, keep: set<string>, id: string, now: real)
    requires Reaping(original, before, todo, keep, now) && id in todo && id !in keep
    requires id in before && Orphan(before[id], now) && was == before[id := File(Interrupted(before[id]), now)]
    ensures Reaping(original, was, todo - {id}, keep, now)
  {
  }

  lemma ReapingEvicts(original: map<string, File>, was: map<string, File>, after: map<string, File>,
      todo: set<string>, keep: set<string>, now: real)
    requires Reaping(original, was, todo, keep, now) && Kept(was, after, now)
    ensures Reaping(original, after, todo, keep, now)
  {
  }

  lemma ReapingStep(original: map<string, File>, before: map<string, File>, after: map<string, File>,
      todo: set<string>, keep: set<string>, id: string, cap: nat, now: real)
    requires Reaping(original, before, todo, keep, now) && id in todo && Reaped(before, after, id, keep, cap, now)
    ensures Reaping(original, after, todo - {id}, keep, now)
  {
    if id !in keep && id in before && Orphan(before[id], now) {
      var was := before[id := File(Interrupted(before[id]), now)];
      ReapingRewrites(original, before, was, todo, keep, id, now);
      ReapingEvicts(original, was, after, todo - {id}, keep, now);
    } else {
      ReapingPassesOver(original, before, todo, keep, id, now);
    }
  }

  /** With nothing left to look at. */
  lemma ReapEnds(original: map<string, File>, files: map<string, File>, keep: set<string>, cap: nat, now: real)
    requires Reaping(original, files, {}, keep, now) && WithinCap(original, files, cap)
    ensures |original| <= cap ==> files.Keys == original.Keys && forall id :: id in files ==>
      files[id] == if id !in keep && Orphan(original[id], now) then File(Interrupted(original[id]), now)
                   else original[id]
  {
  }

  lemma WithinCapStep(original: map<string, File>, before: map<string, File>, after: map<string, File>,
      keep: set<string>, id: string, cap: nat, now: real)
    requires WithinCap(original, before, cap) && Reaped(before, after, id, keep, cap, now)
    ensures WithinCap(original, after, cap)
  {
    if after != before {
      var was := before[id := File(Interrupted(before[id]), now)];
      assert was.Keys == before.Keys;
      assert |was| == |was.Keys| && |before| == |before.Keys| && |original| == |original.Keys|;
    }
  }

  lemma DropStep(original: map<string, File>, before: map<string, File>, oldest: string, now: real)
    requires Kept(original, before, now) && OldestGone(original, before, now)
    requires oldest in FinishedIn(before, now)
    requires forall id :: id in FinishedIn(before, now) ==>
      Read(before[oldest], now).order <= Read(before[id], now).order
    ensures Kept(original, before - {oldest}, now) && OldestGone(original, before - {oldest}, now)
    ensures |before - {oldest}| == |before| - 1
  {
    assert (before - {oldest}).Keys == before.Keys - {oldest};
    assert |(before - {oldest}).Keys| == |before.Keys| - 1;
  }

  class Store {
    const maxRecords: nat
    var files: map<string, File>

    constructor (maxRecords: int)
      ensures this.maxRecords == (if maxRecords < 1 then 1 else maxRecords) && files == map[]
    {
      this.maxRecords := if maxRecords < 1 then 1 else maxRecords;
      files := map[];
    }

    ghost predicate Valid()
      reads this
    {
      maxRecords >= 1 && "" !in files && forall id :: id in files ==> files[id].payload.id == id
    }

    /** The ids a reader sees finished. */
    function Finished(now: real): (ids: set<string>)
      reads this
    {
      FinishedIn(files, now)
    }

    method OldestOf(ids: set<string>, now: real) returns (oldest: string)
      requires ids != {} && ids <= files.Keys
      ensures oldest in ids
      ensures forall id :: id in ids ==> Read(files[oldest], now).order <= Read(files[id], now).order
    {
      oldest :| oldest in ids;
      var rest := ids - {oldest};
      while rest != {}
        invariant oldest in ids && rest <= ids
        invariant forall id :: id in ids - rest ==> Read(files[oldest], now).order <= Read(files[id], now).order
        decreases rest
      {
        var id :| id in rest;
        if Read(files[id], now).order < Read(files[oldest], now).order {
          oldest := id;
        }
        rest := rest - {id};
      }
    }

    /** `_evict`: past the cap, drop finished snapshots, oldest first, and only as many as needed. A
      * snapshot that reads running is never dropped. */
    method Evict(now: real)
      requires Valid()
      modifies this
      ensures Valid()
      ensures Kept(old(files), files, now)
      ensures files == old(files) || |files| >= maxRecords
      ensures |old(files)| <= maxRecords ==> files == old(files)
      ensures |files| <= maxRecords || Finished(now) == {}
      ensures OldestGone(old(files), files, now)
    {
      while |files| > maxRecords && Finished(now) != {}
        invariant Valid() && Kept(old(files), files, now) && OldestGone(old(files), files, now)
        invariant files == old(files) || |files| >= maxRecords
        invariant |old(files)| <= maxRecords ==> files == old(files)
        decreases |files|
      {
        var oldest := OldestOf(Finished(now), now);
        DropStep(old(files), files, oldest, now);
        files := files - {oldest};
      }
    }

    /** `write`: the job's snapshot is replaced whole, then the directory is brought under its cap. A
      * payload without an id is not written. */
    method Write(payload: Payload, now: real)
      requires Valid()
      modifies this
      ensures Valid()
      ensures payload.id == "" ==> files == old(files)
      ensures payload.id != "" ==> Replaced(old(files)[payload.id := File(payload, now)], files, maxRecords, now)
    {
      if payload.id == "" {
        return;
      }
      files := files[payload.id := File(payload, now)];
      Evict(now);
    }

    /** `clear_finished`: exactly the snapshots asked about that do not read running are removed; an absent or
      * empty id asks about every one. */
    method ClearFinished(jobId: Option<string>, now: real) returns (removed: set<string>)
      requires Valid()
      modifies this
      ensures Valid()
      ensures files == old(files) - removed
      ensures forall id :: id in removed <==>
        && id in old(files) && !Read(old(files)[id], now).active
        && (jobId == None || jobId == Some("") || jobId == Some(id))
    {
      var candidates := if jobId.Some? && jobId.value != "" then {jobId.value} else files.Keys;
      var todo := candidates;
      removed := {};
      while todo != {}
        invariant todo <= candidates
        invariant files == old(files) - removed
        invariant removed == set id | id in old(files) && id in candidates - todo && !Read(old(files)[id], now).active
        decreases todo
      {
        var id :| id in todo;
        todo := todo - {id};
        if id in files && !Read(files[id], now).active {
          files := files - {id};
          removed := removed + {id};
        }
      }
    }

    /** `reap_stale`: no orphan is left running outside `keep`, and nothing that reads running is
      * touched; every other snapshot is as it was or, being an orphan, written down as failed. Each
      * rewrite may evict, so finished snapshots can go. */
    method ReapStale(keep: set<string>, now: real)
      requires Valid()
      modifies this
      ensures Valid()
      ensures forall id :: id in files && id !in keep ==> !Orphan(files[id], now)
      ensures forall id :: id in files ==> id in old(files)
      ensures forall id :: id in files && files[id] != old(files)[id] ==>
        id !in keep && WrittenDown(old(files)[id], files[id], now)
      ensures forall id :: id in old(files) && Read(old(files)[id], now).active ==>
        id in files && files[id] == old(files)[id]
      ensures files.Keys == old(files).Keys || |files| >= maxRecords
      ensures |old(files)| <= maxRecords ==> files.Keys == old(files).Keys && forall id :: id in files ==>
        files[id] == if id !in keep && Orphan(old(files)[id], now) then File(Interrupted(old(files)[id]), now)
                     else old(files)[id]
    {
      var todo := files.Keys;
      while todo != {}
        invariant Valid() && Reaping(old(files), files, todo, keep, now) && WithinCap(old(files), files, maxRecords)
        decreases todo
      {
        var id :| id in todo;
        ghost var before := files;
        if id !in keep && id in files && Orphan(files[id], now) {
          Write(Read(files[id], now), now);
        }
        ReapingStep(old(files), before, files, todo, keep, id, maxRecords, now);
        WithinCapStep(old(files), before, files, keep, id, maxRecords, now);
        todo := todo - {id};
      }
      ReapEnds(old(files), files, keep, maxRecords, now);
    }
  }
}
