/** What one call does to a job: the rollup of its records, its headline, and what its sources ended as
  * (src/pheasant/jobs.py, Job). */
module JobRollup {
  import opened Lists
  import opened Options
  import opened JobSnapshots
  import opened SourceProgress
  import opened JobRegistry

  // ----- the rollup -----

  lemma {:induction false} SumCurrentReplaced(sources: seq<Record>, i: nat, r: Record)
    requires i < |sources|
    ensures SumCurrent(sources[i := r]) - SumCurrent(sources) == r.current - sources[i].current
  {
    var n := |sources| - 1;
    if i < n {
      SumCurrentReplaced(sources[..n], i, r);
      assert sources[i := r][..n] == sources[..n][i := r];
    } else {
      assert sources[i := r][..n] == sources[..n];
    }
  }

  lemma {:induction false} SumTotalReplaced(sources: seq<Record>, i: nat, r: Record)
    requires i < |sources| && Known(sources[i].total) && Known(r.total)
    ensures SumTotal(sources[i := r]) - SumTotal(sources) == r.total.value - sources[i].total.value
  {
    var n := |sources| - 1;
    if i < n {
      SumTotalReplaced(sources[..n], i, r);
      assert sources[i := r][..n] == sources[..n][i := r];
    } else {
      assert sources[i := r][..n] == sources[..n];
    }
  }

  /** Exactly the records of a job count, each once: a job has a total if and only if every record has
    * one that is not zero, and replacing a record moves the counter and the total by its own difference. */
  lemma RollupFollowsRecords(job: JobRecord, i: nat, r: Record)
    requires i < |job.sources|
    ensures var was, now := Recompute(job), Recompute(job.(sources := job.sources[i := r]));
      && now.current - was.current == r.current - job.sources[i].current
      && (was.total.Some? <==>
            forall k :: 0 <= k < |job.sources| ==> job.sources[k].total.Some? && job.sources[k].total.value != 0)
      && (was.total.Some? && r.total.Some? && r.total.value != 0 ==>
           now.total.Some? && now.total.value - was.total.value == r.total.value - job.sources[i].total.value)
  {
    SumCurrentReplaced(job.sources, i, r);
    if AllKnown(job.sources) && Known(r.total) { SumTotalReplaced(job.sources, i, r); }
  }

  /** And a job of one source reads as that source. */
  lemma RollupOfOne(job: JobRecord, r: Record)
    requires job.sources == [r]
    ensures Recompute(job).current == r.current && Recompute(job).phase == r.phase
    ensures Recompute(job).total == if r.total.Some? && r.total.value != 0 then r.total else None
    ensures Recompute(job).detail == r.detail
  {
    var none: seq<Record> := [];
    assert [r][..0] == none;
    assert SumCurrent([r]) == SumCurrent(none) + r.current;
    assert Known(r.total) ==> SumTotal([r]) == SumTotal(none) + r.total.value;
    assert AllKnown([r]) <==> Known([r][0].total);
    assert ActiveRecords([r]) == ActiveRecords(none) + if Active(r) then [r] else [];
  }

  // ----- the headline -----

  lemma {:induction false} NewestIsNewest(records: seq<Record>)
    requires records != []
    ensures Newest(records) in records
    ensures forall r :: r in records ==> r.lastMonotonic <= Newest(records).lastMonotonic
  {
    if |records| > 1 {
      NewestIsNewest(records[..|records| - 1]);
      forall r ensures r in records <==> r in records[..|records| - 1] || r == records[|records| - 1] {
        InInitLast(records, r);
      }
    } else {
      assert records == [records[0]];
    }
  }

  lemma {:induction false} ActiveRecordsExactly(sources: seq<Record>, r: Record)
    ensures r in ActiveRecords(sources) <==> r in sources && Active(r)
  {
    if sources != [] {
      var before, last := sources[..|sources| - 1], sources[|sources| - 1];
      ActiveRecordsExactly(before, r);
      InInitLast(sources, r);
      if Active(last) {
        InAppend(ActiveRecords(before), last, r);
      } else {
        assert ActiveRecords(sources) == ActiveRecords(before);
      }
    }
  }

  /** The job's headline is the phase of the record updated last, among those still active if any is. */
  lemma HeadlineIsNewest(job: JobRecord) returns (r: Record)
    requires job.sources != []
    ensures r in job.sources && Recompute(job).phase == r.phase
    ensures forall other :: other in job.sources && Active(other) ==>
      Active(r) && other.lastMonotonic <= r.lastMonotonic
    ensures forall other :: other in job.sources && !Active(r) ==> other.lastMonotonic <= r.lastMonotonic
  {
    var active := ActiveRecords(job.sources);
    r := Newest(if active != [] then active else job.sources);
    NewestIsNewest(if active != [] then active else job.sources);
    forall other ensures other in active <==> other in job.sources && Active(other) {
      ActiveRecordsExactly(job.sources, other);
    }
  }

  lemma {:induction false} NewestAt(records: seq<Record>) returns (i: nat)
    requires records != []
    ensures i < |records| && Newest(records) == records[i]
    ensures forall j :: 0 <= j < |records| ==> records[j].lastMonotonic <= records[i].lastMonotonic
    ensures forall j :: 0 <= j < i ==> records[j].lastMonotonic < records[i].lastMonotonic
  {
    var n := |records| - 1;
    if n == 0 {
      i := 0;
    } else {
      i := NewestAt(records[..n]);
      assert forall j :: 0 <= j < n ==> records[..n][j] == records[j];
      if records[n].lastMonotonic > records[i].lastMonotonic { i := n; }
    }
  }

  lemma {:induction false} ActivePlace(sources: seq<Record>, k: nat) returns (i: nat)
    requires k < |ActiveRecords(sources)|
    ensures i < |sources| && ActiveRecords(sources)[k] == sources[i] && Active(sources[i])
    ensures forall j :: 0 <= j < i && Active(sources[j]) ==> sources[j] in ActiveRecords(sources)[..k]
  {
    var n := |sources| - 1;
    var before := ActiveRecords(sources[..n]);
    assert forall j :: 0 <= j < n ==> sources[..n][j] == sources[j] && sources[j] in sources[..n];
    if k < |before| {
      i := ActivePlace(sources[..n], k);
      assert ActiveRecords(sources)[..k] == before[..k];
    } else {
      i := n;
      assert ActiveRecords(sources)[..k] == before;
      forall j | 0 <= j < n && Active(sources[j]) ensures sources[j] in before {
        ActiveRecordsExactly(sources[..n], sources[j]);
      }
    }
  }

  /** Whether a record can give the job its headline: any active one, or any at all when none is. */
  ghost predicate MayLead(job: JobRecord, i: nat) {
    i < |job.sources| && (Active(job.sources[i]) || forall r :: r in job.sources ==> !Active(r))
  }

  /** The headline is that of the first of the records updated last; a job of several sources says which. */
  lemma HeadlineIsFirstNewest(job: JobRecord) returns (i: nat)
    requires job.sources != []
    ensures MayLead(job, i) && Recompute(job).phase == job.sources[i].phase
    ensures Recompute(job).detail ==
      if |job.sources| >= 2 then "[" + job.sources[i].source + "] " + job.sources[i].detail else job.sources[i].detail
    ensures forall j: nat :: MayLead(job, j) ==> job.sources[j].lastMonotonic <= job.sources[i].lastMonotonic
    ensures forall j: nat :: j < i && MayLead(job, j) ==> job.sources[j].lastMonotonic < job.sources[i].lastMonotonic
  {
    var active := ActiveRecords(job.sources);
    forall r ensures r in active <==> r in job.sources && Active(r) { ActiveRecordsExactly(job.sources, r); }
    if active == [] {
      i := NewestAt(job.sources);
    } else {
      var k := NewestAt(active);
      i := ActivePlace(job.sources, k);
      assert active[0] in active;
      assert forall j: nat :: MayLead(job, j) ==> job.sources[j] in active;
    }
  }

  lemma StarIsFirst(sources: seq<Record>)
    requires UniqueNames(sources)
    ensures !HasSource(WithoutStar(sources), STAR) && UniqueNames(WithoutStar(sources))
  {
  }

  lemma WithRecordUnique(sources: seq<Record>, name: string, now: int)
    requires UniqueNames(sources)
    ensures UniqueNames(WithRecord(sources, name, now))
  {
    if IndexOf(sources, name) >= |sources| {
      assert !HasSource(sources, name);
    }
  }

  lemma UpdatedUnique(sources: seq<Record>, i: nat, r: Record)
    requires UniqueNames(sources) && i < |sources| && r.source == sources[i].source
    ensures UniqueNames(sources[i := r])
  {
  }

  lemma WithRecordHas(sources: seq<Record>, name: string, now: int, other: string)
    ensures HasSource(WithRecord(sources, name, now), other) <==> HasSource(sources, other) || other == name
  {
    var after := WithRecord(sources, name, now);
    if IndexOf(sources, name) >= |sources| { assert after[|sources|].source == name; }
    assert forall i :: 0 <= i < |sources| ==> after[i] == sources[i];
  }

  lemma UpdatedHas(sources: seq<Record>, i: nat, r: Record, other: string)
    requires i < |sources| && r.source == sources[i].source
    ensures HasSource(sources[i := r], other) <==> HasSource(sources, other)
  {
    assert forall k :: 0 <= k < |sources| ==> sources[i := r][k].source == sources[k].source;
  }

  /** An update that names its source leaves no placeholder record behind. */
  lemma NamedUpdateLeavesNoStar(job: JobRecord, name: string, update: Update)
    requires UniqueNames(job.sources) && name != STAR
    ensures !HasSource(Progressed(job, Some(name), update).sources, STAR)
    ensures HasSource(Progressed(job, Some(name), update).sources, name)
    ensures UniqueNames(Progressed(job, Some(name), update).sources)
  {
    var kept := WithoutStar(job.sources);
    StarIsFirst(job.sources);
    WithRecordUnique(kept, name, update.now);
    WithRecordHas(kept, name, update.now, STAR);
    WithRecordHas(kept, name, update.now, name);
    UpdatedAt(WithRecord(kept, name, update.now), IndexOf(kept, name), update, name);
    SourcesAfter(job, name, update);
  }

  lemma SourcesAfter(job: JobRecord, name: string, update: Update)
    requires name != STAR
    ensures var kept := WithoutStar(job.sources);
      var sources, i := WithRecord(kept, name, update.now), IndexOf(kept, name);
      Progressed(job, Some(name), update).sources == sources[i := Apply(sources[i], update)]
  {
  }

  lemma UpdatedAt(sources: seq<Record>, i: nat, update: Update, name: string)
    requires UniqueNames(sources) && i < |sources|
    ensures var after := sources[i := Apply(sources[i], update)];
      && UniqueNames(after)
      && (HasSource(after, name) <==> HasSource(sources, name))
      && (HasSource(after, STAR) <==> HasSource(sources, STAR))
  {
    var r := Apply(sources[i], update);
    UpdatedUnique(sources, i, r);
    UpdatedHas(sources, i, r, name);
    UpdatedHas(sources, i, r, STAR);
  }

  // ----- the headline and the least advanced source -----

  /** The record an update is about, as it was before. */
  function Subject(job: JobRecord, about: Option<string>, now: int): Record {
    var i := IndexOf(job.sources, Target(job, about));
    if i < |job.sources| then job.sources[i] else Fresh(Target(job, about), now)
  }

  /** A record that an update leaves as it is: it is about another, and names no source or this is not
    * the placeholder. */
  predicate Stays(job: JobRecord, about: Option<string>, r: Record) {
    r in job.sources && r.source != Target(job, about) && (about.Some? ==> r.source != STAR)
  }

  lemma WithoutStarMembers(sources: seq<Record>, r: Record)
    requires UniqueNames(sources)
    ensures r in WithoutStar(sources) <==> r in sources && r.source != STAR
  {
    var i := IndexOf(sources, STAR);
    if i < |sources| {
      Parts(sources, i);
      InConcat(sources[..i] + [sources[i]], sources[i + 1..], r);
      InAppend(sources[..i], sources[i], r);
      InConcat(sources[..i], sources[i + 1..], r);
    }
  }

  lemma UpdatedMembers(sources: seq<Record>, i: nat, r: Record, x: Record)
    requires UniqueNames(sources) && i < |sources| && r.source == sources[i].source
    ensures x in sources[i := r] <==> x == r || (x in sources && x.source != r.source)
  {
    var after := sources[i := r];
    assert after[i] == r;
    if x in after && x != r {
      var k :| 0 <= k < |after| && after[k] == x;
      assert sources[k] == x;
    }
    if x in sources && x.source != r.source {
      var k :| 0 <= k < |sources| && sources[k] == x;
      assert after[k] == x;
    }
  }

  lemma RecordOf(sources: seq<Record>, r: Record)
    requires UniqueNames(sources) && r in sources
    ensures IndexOf(sources, r.source) < |sources| && sources[IndexOf(sources, r.source)] == r
  {
  }

  lemma AfterUpdate(kept: seq<Record>, name: string, update: Update, x: Record)
    requires UniqueNames(kept)
    ensures var sources, i := WithRecord(kept, name, update.now), IndexOf(kept, name);
      x in sources[i := Apply(sources[i], update)] <==>
        x == Apply(sources[i], update) || (x in kept && x.source != name)
  {
    var sources, i := WithRecord(kept, name, update.now), IndexOf(kept, name);
    WithRecordUnique(kept, name, update.now);
    UpdatedMembers(sources, i, Apply(sources[i], update), x);
    if i >= |kept| { InAppend(kept, Fresh(name, update.now), x); }
  }

  /** What an update leaves: the record it is about, updated, and those that stay. */
  lemma ProgressedMembers(job: JobRecord, about: Option<string>, update: Update, x: Record)
    requires UniqueNames(job.sources)
    ensures x in Progressed(job, about, update).sources <==>
      x == Apply(Subject(job, about, update.now), update) || Stays(job, about, x)
  {
    var name := Target(job, about);
    var named := about.Some? && name != STAR;
    var kept := if named then WithoutStar(job.sources) else job.sources;
    StarIsFirst(job.sources);
    if named { WithoutStarMembers(job.sources, x); }
    AfterUpdate(kept, name, update, x);
    SameSubject(job, about, update.now);
  }

  lemma SameSubject(job: JobRecord, about: Option<string>, now: int)
    requires UniqueNames(job.sources)
    ensures var name := Target(job, about);
      var kept := if about.Some? && name != STAR then WithoutStar(job.sources) else job.sources;
      WithRecord(kept, name, now)[IndexOf(kept, name)] == Subject(job, about, now)
  {
    var name := Target(job, about);
    if about.Some? && name != STAR {
      var kept := WithoutStar(job.sources);
      var i, k := IndexOf(kept, name), IndexOf(job.sources, name);
      if i < |kept| {
        WithoutStarMembers(job.sources, kept[i]);
        RecordOf(job.sources, kept[i]);
      } else if k < |job.sources| {
        WithoutStarMembers(job.sources, job.sources[k]);
      }
    }
  }

  /** What an update that names its source does: it goes to that source's record, made when there is none;
    * the placeholder goes and every other record stays as it was. */
  lemma NamedUpdateExactly(job: JobRecord, name: string, update: Update, x: Record)
    requires UniqueNames(job.sources) && name != STAR
    ensures x in Progressed(job, Some(name), update).sources <==>
      || (x in job.sources && x.source != name && x.source != STAR)
      || (exists r :: r in job.sources && r.source == name && x == Apply(r, update))
      || ((forall r :: r in job.sources ==> r.source != name) && x == Apply(Fresh(name, update.now), update))
  {
    ProgressedMembers(job, Some(name), update, x);
    SubjectExactly(job, Some(name), update.now);
  }

  /** One that names none goes to the only record there is. */
  lemma UnnamedUpdateOfOne(job: JobRecord, update: Update)
    requires |job.sources| == 1
    ensures Progressed(job, None, update).sources == [Apply(job.sources[0], update)]
  {
  }

  /** On a job of several records, or none, it goes to the placeholder and changes no named record. */
  lemma UnnamedUpdateExactly(job: JobRecord, update: Update, x: Record)
    requires UniqueNames(job.sources) && |job.sources| != 1
    ensures x.source != STAR ==> (x in Progressed(job, None, update).sources <==> x in job.sources)
    ensures exists r :: r in Progressed(job, None, update).sources && r.source == STAR
  {
    ProgressedMembers(job, None, update, x);
    ProgressedMembers(job, None, update, Apply(Subject(job, None, update.now), update));
  }

  lemma SubjectExactly(job: JobRecord, about: Option<string>, now: int)
    requires UniqueNames(job.sources)
    ensures var s, name := Subject(job, about, now), Target(job, about);
      && s.source == name
      && (s in job.sources || (s == Fresh(name, now) && forall r :: r in job.sources ==> r.source != name))
    ensures forall r :: r in job.sources && r.source == Target(job, about) ==> r == Subject(job, about, now)
  {
    var name := Target(job, about);
    var i := IndexOf(job.sources, name);
    forall r | r in job.sources && r.source == name ensures r == Subject(job, about, now) { RecordOf(job.sources, r); }
  }

  /** A new job has one record for each target, queued and running, and no other. */
  lemma {:induction false} TargetsAreSeeded(targets: seq<string>, now: int, r: Record)
    ensures r in Seeded(targets, now) <==> r.source in targets && r == Fresh(r.source, now)
    ensures r in Seeded(targets, now) ==>
      r.phase == "queued" && r.status == Running && r.current == 0 && r.total == None
  {
    if targets != [] {
      var init, last := Seeded(targets[..|targets| - 1], now), targets[|targets| - 1];
      TargetsAreSeeded(targets[..|targets| - 1], now, r);
      TargetsAreSeeded(targets[..|targets| - 1], now, Fresh(last, now));
      InInitLast(targets, r.source);
      if IndexOf(init, last) >= |init| {
        InAppend(init, Fresh(last, now), r);
      } else {
        TargetsAreSeeded(targets[..|targets| - 1], now, init[IndexOf(init, last)]);
      }
    }
  }

  /** No source still active is in an earlier phase than the headline. */
  ghost predicate HeadlineIsLeast(job: JobRecord, rank: string -> int) {
    forall r :: r in job.sources && Active(r) ==> rank(job.phase) <= rank(r.phase)
  }

  /** After an update, the headline is the phase of the source it was about, so it is a least advanced
    * phase among the active sources, in whatever order phases come, exactly when that source is now in no
    * later a phase than any other that is active. */
  lemma HeadlineIsLeastExactly(job: JobRecord, about: Option<string>, update: Update, rank: string -> int)
    requires UniqueNames(job.sources) && update.Observe?
    requires forall r :: r in job.sources ==> r.lastMonotonic < update.now
    requires Active(Subject(job, about, update.now))
    ensures var phase := if update.phase.Some? then update.phase.value else Subject(job, about, update.now).phase;
      && Progressed(job, about, update).phase == phase
      && (HeadlineIsLeast(Progressed(job, about, update), rank) <==>
           forall r :: Stays(job, about, r) && Active(r) ==> rank(phase) <= rank(r.phase))
  {
    var after, updated := Progressed(job, about, update), Apply(Subject(job, about, update.now), update);
    forall x ensures x in after.sources <==> x == updated || Stays(job, about, x) {
      ProgressedMembers(job, about, update, x);
    }
    var newest := NewestAfter(job, about, update);
    assert newest == updated;
  }

  /** The headline is taken from the record the update was about. */
  lemma NewestAfter(job: JobRecord, about: Option<string>, update: Update) returns (newest: Record)
    requires UniqueNames(job.sources) && update.Observe?
    requires forall r :: r in job.sources ==> r.lastMonotonic < update.now
    requires Active(Subject(job, about, update.now))
    ensures newest == Apply(Subject(job, about, update.now), update)
    ensures Progressed(job, about, update).phase == newest.phase
  {
    var after, updated := Progressed(job, about, update), Apply(Subject(job, about, update.now), update);
    ProgressedMembers(job, about, update, updated);
    newest := HeadlineIsNewest(after);
    assert updated in after.sources && Active(updated) && updated.lastMonotonic == update.now;
    ProgressedMembers(job, about, update, newest);
  }

  // ----- the headline when the newest report is not the one just made -----

  /** With a source active, the headline is that of the newest active record, and a least advanced phase
    * exactly when none of those records is in an earlier one. */
  lemma HeadlineOfActive(job: JobRecord, rank: string -> int, a: Record) returns (n: Record)
    requires a in job.sources && Active(a)
    ensures n in job.sources && Active(n) && Recompute(job).phase == n.phase
    ensures forall r :: r in job.sources && Active(r) ==> r.lastMonotonic <= n.lastMonotonic
    ensures HeadlineIsLeast(Recompute(job), rank) <==>
      forall r :: r in job.sources && Active(r) ==> rank(n.phase) <= rank(r.phase)
  {
    n := HeadlineIsNewest(job);
    assert Recompute(job).sources == job.sources;
  }

  /** An active record of another source. */
  predicate Remains(job: JobRecord, source: string, r: Record) {
    r in job.sources && Active(r) && r.source != source
  }

  lemma ActiveAfterFinish(job: JobRecord, source: string, status: Status, now: int, x: Record)
    requires UniqueNames(job.sources) && Terminal(status)
    requires IndexOf(job.sources, source) < |job.sources| && Active(job.sources[IndexOf(job.sources, source)])
    ensures x in SourceFinished(job, source, status, now).sources && Active(x) <==> Remains(job, source, x)
  {
    var i := IndexOf(job.sources, source);
    UpdatedMembers(job.sources, i, Apply(job.sources[i], Update.Finish(status, now)), x);
  }

  /** Finishing a source while others are active makes the newest of these the headline, and that is a least
    * advanced phase exactly when no other of them is in an earlier one. */
  lemma HeadlineAfterFinishExactly(
      job: JobRecord, source: string, status: Status, now: int, rank: string -> int, a: Record) returns (n: Record)
    requires UniqueNames(job.sources) && Terminal(status) && Remains(job, source, a)
    requires IndexOf(job.sources, source) < |job.sources| && Active(job.sources[IndexOf(job.sources, source)])
    ensures Remains(job, source, n)
    ensures forall r :: Remains(job, source, r) ==> r.lastMonotonic <= n.lastMonotonic
    ensures var after := SourceFinished(job, source, status, now);
      && after.phase == n.phase
      && (HeadlineIsLeast(after, rank) <==> forall r :: Remains(job, source, r) ==> rank(n.phase) <= rank(r.phase))
  {
    var i := IndexOf(job.sources, source);
    var changed := job.(sources := job.sources[i := Apply(job.sources[i], Update.Finish(status, now))]);
    forall x ensures x in changed.sources && Active(x) <==> Remains(job, source, x) {
      ActiveAfterFinish(job, source, status, now, x);
    }
    n := HeadlineOfActive(changed, rank, a);
  }

  lemma ActiveAfterLateReport(job: JobRecord, about: Option<string>, update: Update, x: Record)
    requires UniqueNames(job.sources) && update.Observe? && !Active(Subject(job, about, update.now))
    ensures x in Progressed(job, about, update).sources && Active(x) <==> Stays(job, about, x) && Active(x)
  {
    ProgressedMembers(job, about, update, x);
  }

  lemma ProgressedIsRecomputed(job: JobRecord, about: Option<string>, update: Update) returns (changed: JobRecord)
    ensures Progressed(job, about, update) == Recompute(changed)
    ensures changed.sources == Progressed(job, about, update).sources
  {
    var name := Target(job, about);
    var kept := if about.Some? && name != STAR then WithoutStar(job.sources) else job.sources;
    var sources := WithRecord(kept, name, update.now);
    var i := IndexOf(kept, name);
    changed := job.(sources := sources[i := Apply(sources[i], update)]);
  }

  /** So it is when a report comes for a source that has ended: it does not count, and the headline is the
    * newest of the others that are active. */
  lemma HeadlineAfterLateReportExactly(
      job: JobRecord, about: Option<string>, update: Update, rank: string -> int, a: Record) returns (n: Record)
    requires UniqueNames(job.sources) && update.Observe? && !Active(Subject(job, about, update.now))
    requires Stays(job, about, a) && Active(a)
    ensures Stays(job, about, n) && Active(n)
    ensures forall r :: Stays(job, about, r) && Active(r) ==> r.lastMonotonic <= n.lastMonotonic
    ensures var after := Progressed(job, about, update);
      && after.phase == n.phase
      && (HeadlineIsLeast(after, rank) <==>
           forall r :: Stays(job, about, r) && Active(r) ==> rank(n.phase) <= rank(r.phase))
  {
    var changed := ProgressedIsRecomputed(job, about, update);
    forall x ensures x in changed.sources && Active(x) <==> Stays(job, about, x) && Active(x) {
      ActiveAfterLateReport(job, about, update, x);
    }
    n := HeadlineOfActive(changed, rank, a);
  }

  /** The status of the record of that name. */
  function StatusOf(sources: seq<Record>, name: string): Option<Status> {
    var i := IndexOf(sources, name);
    if i < |sources| then Some(sources[i].status) else None
  }

  lemma {:induction false} StatusFrom(a: seq<Record>, b: seq<Record>, name: string)
    requires |a| == |b|
    requires forall i :: 0 <= i < |a| ==> a[i].source == b[i].source
    ensures IndexOf(a, name) == IndexOf(b, name)
  {
    if a != [] { StatusFrom(a[1..], b[1..], name); }
  }

  lemma {:induction false} IndexAppend(a: seq<Record>, r: Record, name: string)
    requires IndexOf(a, name) < |a|
    ensures IndexOf(a + [r], name) == IndexOf(a, name)
  {
    if a[0].source != name {
      assert (a + [r])[1..] == a[1..] + [r];
      IndexAppend(a[1..], r, name);
    }
  }

  lemma {:induction false} StatusConcat(a: seq<Record>, b: seq<Record>, name: string)
    ensures StatusOf(a + b, name) == if StatusOf(a, name).Some? then StatusOf(a, name) else StatusOf(b, name)
  {
    if a == [] {
      assert a + b == b;
    } else if a[0].source != name {
      assert (a + b)[1..] == a[1..] + b;
      StatusConcat(a[1..], b, name);
    }
  }

  lemma StatusAlone(r: Record, name: string)
    ensures StatusOf([r], name) == if r.source == name then Some(r.status) else None
  {
  }

  lemma StatusWithoutStar(sources: seq<Record>, name: string)
    requires name != STAR
    ensures StatusOf(WithoutStar(sources), name) == StatusOf(sources, name)
  {
    var i := IndexOf(sources, STAR);
    if i < |sources| {
      StatusConcat(sources[..i], sources[i + 1..], name);
      StatusConcat(sources[..i], [sources[i]], name);
      StatusConcat(sources[..i] + [sources[i]], sources[i + 1..], name);
      StatusAlone(sources[i], name);
      Parts(sources, i);
    }
  }

  lemma StatusAfterObserve(kept: seq<Record>, target: string, update: Update, name: string)
    requires update.Observe? && IndexOf(kept, name) < |kept|
    ensures var sources := WithRecord(kept, target, update.now);
      var i := IndexOf(kept, target);
      StatusOf(sources[i := Apply(sources[i], update)], name) == StatusOf(kept, name)
  {
    var sources := WithRecord(kept, target, update.now);
    var i := IndexOf(kept, target);
    if i >= |kept| {
      IndexAppend(kept, Fresh(target, update.now), name);
    }
    StatusFrom(sources, sources[i := Apply(sources[i], update)], name);
  }

  /** A progress update never changes what a source's record says it ended as, not even for the source
    * it is about. */
  lemma ProgressKeepsTerminal(job: JobRecord, about: Option<string>, update: Update, name: string)
    requires name != STAR && update.Observe?
    requires StatusOf(job.sources, name) != None
    ensures StatusOf(Progressed(job, about, update).sources, name) == StatusOf(job.sources, name)
  {
    var target := Target(job, about);
    var kept := if about.Some? && target != STAR then WithoutStar(job.sources) else job.sources;
    StatusWithoutStar(job.sources, name);
    StatusAfterObserve(kept, target, update, name);
  }

  lemma FinishingOneKeepsTerminal(job: JobRecord, source: string, status: Status, now: int, name: string)
    requires StatusOf(job.sources, name).Some? && Terminal(StatusOf(job.sources, name).value)
    ensures StatusOf(SourceFinished(job, source, status, now).sources, name) == StatusOf(job.sources, name)
  {
    var i := IndexOf(job.sources, source);
    if i < |job.sources| {
      StatusFrom(job.sources, job.sources[i := Apply(job.sources[i], Update.Finish(status, now))], name);
    }
  }

  lemma FinishingAllEnds(job: JobRecord, outcome: Outcome, now: int, name: string)
    requires StatusOf(job.sources, name).Some?
    ensures var was := StatusOf(job.sources, name).value;
      StatusOf(Finished(job, outcome, now).sources, name) == Some(if Terminal(was) then was else outcome.status)
  {
    StatusFrom(job.sources, FinishRecords(job.sources, outcome.status, now), name);
  }

  /** Finishing a source or the whole job never overwrites a source that already ended; finishing the
    * job ends every source that had not. */
  lemma FinishKeepsTerminal(
      job: JobRecord, source: string, status: Status, outcome: Outcome, now: int, name: string)
    requires StatusOf(job.sources, name) != None
    ensures Terminal(StatusOf(job.sources, name).value) ==>
      && StatusOf(SourceFinished(job, source, status, now).sources, name) == StatusOf(job.sources, name)
      && StatusOf(Finished(job, outcome, now).sources, name) == StatusOf(job.sources, name)
    ensures !Terminal(StatusOf(job.sources, name).value) ==>
      StatusOf(Finished(job, outcome, now).sources, name) == Some(outcome.status)
  {
    FinishingAllEnds(job, outcome, now, name);
    if Terminal(StatusOf(job.sources, name).value) { FinishingOneKeepsTerminal(job, source, status, now, name); }
  }

  /** A finished job whose total is known is at that total: its fraction is one. Finishing leaves the total
    * what the sources reported. */
  lemma FinishedJobIsComplete(job: JobRecord, outcome: Outcome, now: int)
    ensures var done := Finished(job, outcome, now);
      && (done.total.Some? && done.total.value != 0 ==> done.current == done.total.value)
      && (job.sources != [] ==> done.total == Recompute(job).total)
  {
    SameTotals(job.sources, FinishRecords(job.sources, outcome.status, now));
  }

  /** With no source of its own a job that has ended reads as how it ended. */
  lemma EndedJobOfNone(job: JobRecord, outcome: Outcome, now: int)
    requires job.sources == []
    ensures Finished(job, outcome, now).phase ==
      match outcome.status
      case Running => "running" case Succeeded => "succeeded" case Failed => "failed" case Cancelled => "cancelled"
  {
  }

  lemma {:induction false} SameTotals(a: seq<Record>, b: seq<Record>)
    requires |a| == |b| && forall i :: 0 <= i < |a| ==> a[i].total == b[i].total
    ensures SumTotal(a) == SumTotal(b) && AllKnown(a) == AllKnown(b)
  {
    if a != [] { SameTotals(a[..|a| - 1], b[..|b| - 1]); }
    assert AllKnown(a) <==> AllKnown(b);
  }

  // ----- what every job of a run is like -----

  /** Nothing is left to end, and ending it once more changes nothing. */
  ghost predicate Closed(job: JobRecord) {
    job == Settle(job) && forall i :: 0 <= i < |job.sources| ==> !Active(job.sources[i])
  }

  /** One record per source; while the job runs its rollup is derived from them, and once it is finished
    * none of them runs and a known total is reached. */
  ghost predicate Coherent(job: JobRecord) {
    && UniqueNames(job.sources)
    && (!Terminal(job.status) ==> RolledUp(job))
    && (Terminal(job.status) ==>
          Closed(job) && (job.total.Some? && job.total.value != 0 ==> job.current == job.total.value))
  }

  lemma ProgressedCoherent(job: JobRecord, about: Option<string>, update: Update)
    requires UniqueNames(job.sources) && !Terminal(job.status)
    ensures Coherent(Progressed(job, about, update))
  {
    var target := Target(job, about);
    var kept := if about.Some? && target != STAR then WithoutStar(job.sources) else job.sources;
    StarIsFirst(job.sources);
    WithRecordUnique(kept, target, update.now);
    var sources := WithRecord(kept, target, update.now);
    var i := IndexOf(kept, target);
    UpdatedUnique(sources, i, Apply(sources[i], update));
  }

  lemma {:induction false} SeededCoherent(targets: seq<string>, now: int)
    ensures UniqueNames(Seeded(targets, now)) && SumCurrent(Seeded(targets, now)) == 0
    ensures forall i :: 0 <= i < |Seeded(targets, now)| ==> Seeded(targets, now)[i].total == None
  {
    if targets != [] {
      var init := Seeded(targets[..|targets| - 1], now);
      SeededCoherent(targets[..|targets| - 1], now);
      WithRecordUnique(init, targets[|targets| - 1], now);
      assert (init + [Fresh(targets[|targets| - 1], now)])[..|init|] == init;
    }
  }

  lemma SettleTwice(job: JobRecord)
    ensures Settle(Settle(job)) == Settle(job)
  {
  }

  lemma FinishedCoherent(job: JobRecord, outcome: Outcome, now: int)
    requires UniqueNames(job.sources) && Terminal(outcome.status)
    ensures Coherent(Finished(job, outcome, now))
  {
    var records := FinishRecords(job.sources, outcome.status, now);
    forall i | 0 <= i < |records| ensures records[i].source == job.sources[i].source && !Active(records[i]) { }
    SettleTwice(job.(status := outcome.status, error := outcome.error, result := outcome.result,
                     finishedAt := Some(outcome.at), sources := records));
  }

  lemma SourceFinishedCoherent(job: JobRecord, source: string, status: Status, now: int)
    requires Coherent(job) && !Terminal(job.status)
    ensures Coherent(SourceFinished(job, source, status, now))
  {
    var i := IndexOf(job.sources, source);
    if i < |job.sources| {
      UpdatedUnique(job.sources, i, Apply(job.sources[i], Update.Finish(status, now)));
    }
  }

  /** Finishing a finished job again changes it exactly when the call says something else than it holds. */
  lemma FinishingAgainChangesExactly(job: JobRecord, outcome: Outcome, now: int)
    requires Terminal(job.status) && Coherent(job)
    ensures Finished(job, outcome, now) != job <==> !Says(job, outcome)
  {
    if Says(job, outcome) {
      assert FinishRecords(job.sources, outcome.status, now) == job.sources;
      assert job.(status := outcome.status, error := outcome.error, result := outcome.result,
                  finishedAt := Some(outcome.at), sources := job.sources) == job;
    }
  }
}
