/** Runs in which a job's headline is ahead of its least advanced source (src/pheasant/jobs.py,
  * Job.recompute). */
module HeadlineRuns {
  import opened Lists
  import opened Options
  import opened JobSnapshots
  import opened SourceProgress
  import opened JobRegistry
  import opened JobRollup
  import R = RegistryRuns

  /** What an update reports of phases alone. */
  function Enters(phase: string, now: int): Update {
    Update.Observe(Some(phase), None, None, None, Stats(None, None, None, None, []), now)
  }

  /** The job's sources are all active and were last heard of by then. */
  ghost predicate ActiveBy(job: JobRecord, now: int) {
    UniqueNames(job.sources) && forall r :: r in job.sources ==> Active(r) && r.lastMonotonic <= now
  }

  lemma {:induction false} SeededActive(targets: seq<string>, now: int, r: Record)
    requires r in Seeded(targets, now)
    ensures Active(r) && r.lastMonotonic == now
  {
    var init, last := Seeded(targets[..|targets| - 1], now), targets[|targets| - 1];
    InAppend(init, Fresh(last, now), r);
    if r in init { SeededActive(targets[..|targets| - 1], now, r); }
  }

  lemma ReportLeaves(job: JobRecord, a: string, phase: string, now: int, x: Record)
    requires ActiveBy(job, now - 1)
    ensures var r := Apply(Subject(job, Some(a), now), Enters(phase, now));
      x in Progressed(job, Some(a), Enters(phase, now)).sources <==> x == r || Stays(job, Some(a), x)
  {
    ProgressedMembers(job, Some(a), Enters(phase, now), x);
  }

  lemma ReportedRecord(job: JobRecord, a: string, phase: string, now: int) returns (r: Record)
    requires ActiveBy(job, now - 1)
    ensures r == Apply(Subject(job, Some(a), now), Enters(phase, now))
    ensures r.source == a && r.phase == phase && Active(r) && r.lastMonotonic == now
  {
    r := Apply(Subject(job, Some(a), now), Enters(phase, now));
  }

  lemma ReportedUnique(job: JobRecord, a: string, phase: string, now: int)
    requires ActiveBy(job, now - 1) && job.status == Running
    ensures var after := Progressed(job, Some(a), Enters(phase, now));
      UniqueNames(after.sources) && after.status == Running
  {
    ProgressedCoherent(job, Some(a), Enters(phase, now));
  }

  /** The record that a source's report leaves, and the others. */
  lemma ReportedJob(job: JobRecord, a: string, phase: string, now: int, after: JobRecord) returns (r: Record)
    requires ActiveBy(job, now - 1) && job.status == Running && after == Progressed(job, Some(a), Enters(phase, now))
    ensures ActiveBy(after, now) && after.status == Running
    ensures r.source == a && r.phase == phase && Active(r) && r.lastMonotonic == now
    ensures forall x :: x in after.sources <==> x == r || Stays(job, Some(a), x)
  {
    r := ReportedRecord(job, a, phase, now);
    ReportedUnique(job, a, phase, now);
    forall x ensures x in after.sources <==> x == r || Stays(job, Some(a), x) { ReportLeaves(job, a, phase, now, x); }
  }

  lemma NewJobActive(create: Op)
    requires create.CreateOp?
    ensures ActiveBy(NewJob(create.id, create.targets, create.now), create.now)
  {
    SeededCoherent(create.targets, create.now);
    forall r | r in Seeded(create.targets, create.now) ensures Active(r) && r.lastMonotonic <= create.now {
      SeededActive(create.targets, create.now, r);
    }
  }

  /** A run of a job whose sources are all active begins with its creation. */
  lemma CreatedActive(cap: int, create: Op)
    requires create.CreateOp?
    ensures R.Runs(R.Play(cap, [create]), create.id) && ActiveBy(R.Play(cap, [create]).jobs[create.id], create.now)
  {
    assert [create][..0] == [];
    R.CreateKeeps(R.Play(cap, []), cap, create, create.id);
    NewJobActive(create);
  }

  /** What a report says, as the registry's call. */
  function Report(id: string, source: string, phase: string, now: int): Op {
    ProgressOp(id, Some(source), Enters(phase, now))
  }

  /** A run goes on with a report: its source's record is there, and those of other sources that it leaves. */
  lemma GoesOn(cap: int, before: seq<Op>, id: string, a: string, phase: string, now: int)
    returns (ops: seq<Op>, r: Record)
    requires R.Runs(R.Play(cap, before), id) && ActiveBy(R.Play(cap, before).jobs[id], now - 1)
    ensures ops == before + [Report(id, a, phase, now)]
    ensures R.Runs(R.Play(cap, ops), id) && ActiveBy(R.Play(cap, ops).jobs[id], now)
    ensures r.source == a && r.phase == phase && Active(r) && r.lastMonotonic == now
    ensures forall x :: x in R.Play(cap, ops).jobs[id].sources <==>
      x == r || Stays(R.Play(cap, before).jobs[id], Some(a), x)
  {
    ops := before + [Report(id, a, phase, now)];
    R.PlayOne(cap, before, Report(id, a, phase, now));
    r := ReportedJob(R.Play(cap, before).jobs[id], a, phase, now, R.Play(cap, ops).jobs[id]);
  }

  lemma LaterReported(job: JobRecord, r: Record, b: string, late: string, now: int, rank: string -> int)
    requires ActiveBy(job, now - 1) && r in job.sources && r.source != b && r.source != STAR && b != STAR
    requires rank(r.phase) < rank(late)
    ensures var after := Progressed(job, Some(b), Enters(late, now));
      after.phase == late && !HeadlineIsLeast(after, rank)
  {
    HeadlineIsLeastExactly(job, Some(b), Enters(late, now), rank);
    assert Stays(job, Some(b), r);
  }

  lemma LaterReportedNext(
      cap: int, before: seq<Op>, id: string, r: Record, b: string, late: string, now: int, rank: string -> int)
    returns (ops: seq<Op>)
    requires R.Runs(R.Play(cap, before), id) && ActiveBy(R.Play(cap, before).jobs[id], now - 1)
    requires r in R.Play(cap, before).jobs[id].sources && r.source != b && r.source != STAR && b != STAR
    requires rank(r.phase) < rank(late)
    ensures ops == before + [Report(id, b, late, now)] && id in R.Play(cap, ops).jobs
    ensures R.Play(cap, ops).jobs[id].phase == late && !HeadlineIsLeast(R.Play(cap, ops).jobs[id], rank)
  {
    ops := before + [Report(id, b, late, now)];
    R.PlayOne(cap, before, Report(id, b, late, now));
    LaterReported(R.Play(cap, before).jobs[id], r, b, late, now, rank);
  }

  /** In any run of a job whose sources are all active, one of them reports an early phase and then another a
    * later one: the headline is the later phase while a source is still in the early one. Whatever orders
    * the phases so, the headline is not the least advanced. */
  lemma HeadlineCanBeAhead(
      cap: int, before: seq<Op>, id: string, now: int, a: string, b: string, early: string, late: string,
      rank: string -> int) returns (ops: seq<Op>)
    requires R.Runs(R.Play(cap, before), id) && ActiveBy(R.Play(cap, before).jobs[id], now)
    requires a != b && a != STAR && b != STAR && rank(early) < rank(late)
    ensures ops == before + [Report(id, a, early, now + 1)] + [Report(id, b, late, now + 2)]
    ensures id in R.Play(cap, ops).jobs
    ensures R.Play(cap, ops).jobs[id].phase == late && !HeadlineIsLeast(R.Play(cap, ops).jobs[id], rank)
  {
    var one, r := GoesOn(cap, before, id, a, early, now + 1);
    ops := LaterReportedNext(cap, one, id, r, b, late, now + 2, rank);
  }

  /** Past the source c, one record is there and another is newer than all the rest. */
  ghost predicate SecondOf(job: JobRecord, early: Record, late: Record, c: string) {
    && Remains(job, c, early) && Remains(job, c, late)
    && forall r :: Remains(job, c, r) && r != late ==> r.lastMonotonic < late.lastMonotonic
  }

  /** A third source that reported last ends, and the newest of the others is in the later phase. */
  lemma LastFinished(
      job: JobRecord, early: Record, late: Record, c: string, status: Status, now: int, rank: string -> int)
    requires UniqueNames(job.sources) && Terminal(status) && SecondOf(job, early, late, c)
    requires rank(early.phase) < rank(late.phase)
    requires exists r :: r in job.sources && r.source == c && Active(r)
    ensures var after := SourceFinished(job, c, status, now);
      after.phase == late.phase && !HeadlineIsLeast(after, rank)
  {
    var r :| r in job.sources && r.source == c && Active(r);
    RecordOf(job.sources, r);
    var n := HeadlineAfterFinishExactly(job, c, status, now, rank, late);
    assert n == late;
  }

  lemma EarlyAndLate(
      cap: int, before: seq<Op>, id: string, a: string, b: string, early: string, late: string, c: string, now: int)
    returns (ops: seq<Op>, first: Record, second: Record)
    requires R.Runs(R.Play(cap, before), id) && ActiveBy(R.Play(cap, before).jobs[id], now)
    requires a != STAR && a != b && b != c && a != c
    ensures ops == before + [Report(id, a, early, now + 1)] + [Report(id, b, late, now + 2)]
    ensures R.Runs(R.Play(cap, ops), id) && ActiveBy(R.Play(cap, ops).jobs[id], now + 2)
    ensures SecondOf(R.Play(cap, ops).jobs[id], first, second, c)
    ensures first.source == a && first.phase == early && second.source == b && second.phase == late
  {
    var ops1;
    ops1, first := GoesOn(cap, before, id, a, early, now + 1);
    ops, second := GoesOn(cap, ops1, id, b, late, now + 2);
  }

  lemma LastEnds(
      cap: int, before: seq<Op>, id: string, first: Record, second: Record, c: string, status: Status, now: int,
      rank: string -> int) returns (ops: seq<Op>)
    requires R.Runs(R.Play(cap, before), id) && UniqueNames(R.Play(cap, before).jobs[id].sources) && Terminal(status)
    requires SecondOf(R.Play(cap, before).jobs[id], first, second, c) && rank(first.phase) < rank(second.phase)
    requires exists r :: r in R.Play(cap, before).jobs[id].sources && r.source == c && Active(r)
    ensures ops == before + [FinishSourceOp(id, c, status, now)] && id in R.Play(cap, ops).jobs
    ensures R.Play(cap, ops).jobs[id].phase == second.phase && !HeadlineIsLeast(R.Play(cap, ops).jobs[id], rank)
  {
    ops := before + [FinishSourceOp(id, c, status, now)];
    R.PlayOne(cap, before, FinishSourceOp(id, c, status, now));
    LastFinished(R.Play(cap, before).jobs[id], first, second, c, status, now, rank);
  }

  lemma ThirdReports(
      cap: int, before: seq<Op>, id: string, first: Record, second: Record, c: string, phase: string, now: int)
    returns (ops: seq<Op>)
    requires R.Runs(R.Play(cap, before), id) && ActiveBy(R.Play(cap, before).jobs[id], now - 1)
    requires SecondOf(R.Play(cap, before).jobs[id], first, second, c)
    requires first.source != STAR && second.source != STAR
    ensures ops == before + [Report(id, c, phase, now)]
    ensures R.Runs(R.Play(cap, ops), id) && UniqueNames(R.Play(cap, ops).jobs[id].sources)
    ensures SecondOf(R.Play(cap, ops).jobs[id], first, second, c)
    ensures exists r :: r in R.Play(cap, ops).jobs[id].sources && r.source == c && Active(r)
  {
    var rc;
    ops, rc := GoesOn(cap, before, id, c, phase, now);
    assert rc in R.Play(cap, ops).jobs[id].sources;
  }

  /** Finishing a source can put the headline ahead too. In any run of a job whose sources are all active,
    * three of them report in turn and the last of these ends: it was in the early phase, which another source
    * is still in, and the headline is now the later phase of the second. */
  lemma FinishingCanPutHeadlineAhead(
      cap: int, before: seq<Op>, id: string, now: int, a: string, b: string, c: string, early: string, late: string,
      status: Status, rank: string -> int) returns (ops: seq<Op>)
    requires R.Runs(R.Play(cap, before), id) && ActiveBy(R.Play(cap, before).jobs[id], now)
    requires a != STAR && b != STAR && c != STAR && a != b && b != c && a != c
    requires Terminal(status) && rank(early) < rank(late)
    ensures ops == before + [Report(id, a, early, now + 1)] + [Report(id, b, late, now + 2)] +
                   [Report(id, c, early, now + 3)] + [FinishSourceOp(id, c, status, now + 4)]
    ensures id in R.Play(cap, ops).jobs
    ensures R.Play(cap, ops).jobs[id].phase == late && !HeadlineIsLeast(R.Play(cap, ops).jobs[id], rank)
  {
    var two, first, second := EarlyAndLate(cap, before, id, a, b, early, late, c, now);
    var three := ThirdReports(cap, two, id, first, second, c, early, now + 3);
    ops := LastEnds(cap, three, id, first, second, c, status, now + 4, rank);
  }
}
