/** The registry of background jobs: records per source, the rollup, eviction and terminal states
  * (src/pheasant/jobs.py, Job and JobRegistry). */
module JobRegistry {
  import opened Options
  import opened JobSnapshots
  import opened SourceProgress

  /** `sources` keeps a job's records in the order they were added, one per source name; a result is its
    * serialized text. */
  datatype JobRecord = JobRecord(
    id: string, targets: seq<string>, status: Status,
    phase: string, current: int, total: Option<int>, detail: string,
    sources: seq<Record>,
    error: Option<string>, result: Option<string>, finishedAt: Option<int>)

  /** What a call of `finish` says of the job, and the wall clock then. */
  datatype Outcome = Outcome(status: Status, error: Option<string>, result: Option<string>, at: int)

  const STAR := "*"

  function StatusName(status: Status): string {
    match status
    case Running => "running" case Succeeded => "succeeded" case Failed => "failed" case Cancelled => "cancelled"
  }

  predicate HasSource(sources: seq<Record>, name: string) {
    exists i :: 0 <= i < |sources| && sources[i].source == name
  }

  function IndexOf(sources: seq<Record>, name: string): (i: nat)
    ensures i <= |sources|
    ensures i < |sources| ==> sources[i].source == name
    ensures i >= |sources| ==> !HasSource(sources, name)
    ensures forall k :: 0 <= k < i && k < |sources| ==> sources[k].source != name
  {
    if sources == [] then 0
    else if sources[0].source == name then 0
    else 1 + IndexOf(sources[1..], name)
  }

  /** `source_record`: the record of that name, added at the end when there is none. */
  function WithRecord(sources: seq<Record>, name: string, now: int): (r: seq<Record>)
    ensures IndexOf(sources, name) < |r|
  {
    if IndexOf(sources, name) < |sources| then sources else sources + [Fresh(name, now)]
  }

  /** `sources.pop("*", None)`. */
  function WithoutStar(sources: seq<Record>): seq<Record> {
    var i := IndexOf(sources, STAR);
    if i < |sources| then sources[..i] + sources[i + 1..] else sources
  }

  ghost predicate UniqueNames(sources: seq<Record>) {
    forall i, j :: 0 <= i < j < |sources| ==> sources[i].source != sources[j].source
  }

  // ----- the rollup -----

  function SumCurrent(sources: seq<Record>): int {
    if sources == [] then 0 else SumCurrent(sources[..|sources| - 1]) + sources[|sources| - 1].current
  }

  function SumTotal(sources: seq<Record>): int {
    if sources == [] then 0
    else
      var last := sources[|sources| - 1].total;
      SumTotal(sources[..|sources| - 1]) + if Known(last) then last.value else 0
  }

  predicate AllKnown(sources: seq<Record>) {
    forall i :: 0 <= i < |sources| ==> Known(sources[i].total)
  }

  function ActiveRecords(sources: seq<Record>): seq<Record> {
    if sources == [] then []
    else
      ActiveRecords(sources[..|sources| - 1]) +
      if Active(sources[|sources| - 1]) then [sources[|sources| - 1]] else []
  }

  /** The first of the records updated last. */
  function Newest(records: seq<Record>): Record
    requires records != []
  {
    if |records| == 1 then records[0]
    else
      var n := Newest(records[..|records| - 1]);
      if records[|records| - 1].lastMonotonic > n.lastMonotonic then records[|records| - 1] else n
  }

  /** `Job.recompute`. */
  function Recompute(job: JobRecord): JobRecord {
    if job.sources == [] then job
    else
      var active := ActiveRecords(job.sources);
      var newest := Newest(if active != [] then active else job.sources);
      job.(current := SumCurrent(job.sources),
           total := if AllKnown(job.sources) then Some(SumTotal(job.sources)) else None,
           phase := newest.phase,
           detail := if |job.sources| > 1 then "[" + newest.source + "] " + newest.detail else newest.detail)
  }

  /** The rollup is derived from the records. */
  ghost predicate RolledUp(job: JobRecord) {
    job.sources != [] ==>
      && job.current == SumCurrent(job.sources)
      && job.total == if AllKnown(job.sources) then Some(SumTotal(job.sources)) else None
  }

  // ----- what each call does to one job -----

  /** The record an update is about. */
  function Target(job: JobRecord, source: Option<string>): string {
    if source.Some? then source.value
    else if |job.sources| == 1 then job.sources[0].source
    else STAR
  }

  function Progressed(job: JobRecord, source: Option<string>, update: Update): JobRecord {
    var name := Target(job, source);
    var kept := if source.Some? && name != STAR then WithoutStar(job.sources) else job.sources;
    var sources := WithRecord(kept, name, update.now);
    var i := IndexOf(kept, name);
    Recompute(job.(sources := sources[i := Apply(sources[i], update)]))
  }

  function FinishRecords(sources: seq<Record>, status: Status, now: int): (r: seq<Record>)
    ensures |r| == |sources|
    ensures forall i :: 0 <= i < |sources| ==>
      r[i] == if Active(sources[i]) then Apply(sources[i], Update.Finish(status, now)) else sources[i]
  {
    seq(|sources|, i requires 0 <= i < |sources| =>
      if Active(sources[i]) then Apply(sources[i], Update.Finish(status, now)) else sources[i])
  }

  predicate Says(job: JobRecord, outcome: Outcome) {
    && job.status == outcome.status && job.error == outcome.error && job.result == outcome.result
    && job.finishedAt == Some(outcome.at)
  }

  /** The rollup of a job that ends: a known total is reached. */
  function Settle(job: JobRecord): JobRecord {
    var ended := Recompute(job.(phase := StatusName(job.status)));
    if Known(ended.total) then ended.(current := ended.total.value) else ended
  }

  function Finished(job: JobRecord, outcome: Outcome, now: int): (done: JobRecord)
    ensures Says(done, outcome)
  {
    Settle(job.(status := outcome.status, error := outcome.error, result := outcome.result,
                finishedAt := Some(outcome.at),
                sources := FinishRecords(job.sources, outcome.status, now)))
  }

  function SourceFinished(job: JobRecord, source: string, status: Status, now: int): JobRecord {
    var i := IndexOf(job.sources, source);
    if i < |job.sources| && Active(job.sources[i])
    then Recompute(job.(sources := job.sources[i := Apply(job.sources[i], Update.Finish(status, now))]))
    else job
  }

  function Seeded(targets: seq<string>, now: int): seq<Record> {
    if targets == [] then []
    else WithRecord(Seeded(targets[..|targets| - 1], now), targets[|targets| - 1], now)
  }

  function NewJob(id: string, targets: seq<string>, now: int): JobRecord {
    JobRecord(id, targets, Running, "starting", 0, None, "", Seeded(targets, now), None, None, None)
  }

  // ----- the registry -----

  datatype Reg = Reg(jobs: map<string, JobRecord>, order: seq<string>)

  predicate IsEnded(jobs: map<string, JobRecord>, id: string) { id in jobs && Terminal(jobs[id].status) }

  /** `_evict`'s walk: drop finished jobs from the oldest until enough are gone. */
  function Evicted(reg: Reg, removable: int): Reg
    decreases |reg.order|
  {
    if reg.order == [] then reg
    else
      var id := reg.order[0];
      if removable > 0 && IsEnded(reg.jobs, id) then
        Evicted(Reg(reg.jobs - {id}, reg.order[1..]), removable - 1)
      else
        var rest := Evicted(Reg(reg.jobs, reg.order[1..]), removable);
        Reg(rest.jobs, [id] + rest.order)
  }

  datatype Op =
    | CreateOp(id: string, targets: seq<string>, now: int)
    | ProgressOp(id: string, about: Option<string>, update: Update)
    | FinishOp(id: string, outcome: Outcome, now: int)
    | FinishSourceOp(id: string, source: string, status: Status, now: int)
    | ClearOp(which: Option<string>)

  /** The finished jobs among those `clear` was asked about. */
  function Gone(reg: Reg, which: Option<string>): set<string> {
    set id | id in reg.jobs && IsEnded(reg.jobs, id) && id in Selected(reg, which)
  }

  function Selected(reg: Reg, which: Option<string>): seq<string> {
    if which.Some? then [which.value] else reg.order
  }

  function Cleared(reg: Reg, which: Option<string>): Reg {
    var gone := Gone(reg, which);
    if gone == {} then reg
    else Reg(reg.jobs - gone, Remaining(reg.order, reg.jobs.Keys - gone))
  }

  function Remaining(order: seq<string>, keys: set<string>): seq<string> {
    if order == [] then []
    else Remaining(order[..|order| - 1], keys) + if order[|order| - 1] in keys then [order[|order| - 1]] else []
  }

  function ApplyOp(reg: Reg, cap: int, op: Op): Reg {
    match op
    case CreateOp(id, targets, now) =>
      var added := Reg(reg.jobs[id := NewJob(id, targets, now)], reg.order + [id]);
      Evicted(added, |added.order| - cap)
    case ProgressOp(id, source, update) =>
      if id !in reg.jobs || Terminal(reg.jobs[id].status) then reg
      else reg.(jobs := reg.jobs[id := Progressed(reg.jobs[id], source, update)])
    case FinishOp(id, outcome, now) =>
      if id !in reg.jobs then reg else reg.(jobs := reg.jobs[id := Finished(reg.jobs[id], outcome, now)])
    case FinishSourceOp(id, source, status, now) =>
      if id !in reg.jobs || Terminal(reg.jobs[id].status) then reg
      else reg.(jobs := reg.jobs[id := SourceFinished(reg.jobs[id], source, status, now)])
    case ClearOp(which) => Cleared(reg, which)
  }

  /** The registry under its lock: every method is one critical section. */
  class Registry {
    const maxRecords: int
    var jobs: map<string, JobRecord>
    var order: seq<string>

    function View(): Reg
      reads this
    {
      Reg(jobs, order)
    }

    constructor (maxRecords: int)
      ensures this.maxRecords == maxRecords && View() == Reg(map[], [])
    {
      this.maxRecords := maxRecords;
      jobs, order := map[], [];
    }

    method Evict()
      modifies this
      ensures View() == Evicted(old(View()), |old(order)| - maxRecords)
    {
      EvictNothing(View(), |order| - maxRecords);
      if |order| <= maxRecords {
        return;
      }
      var keep: seq<string> := [];
      var removable := |order| - maxRecords;
      for i := 0 to |order|
        invariant order == old(order)
        invariant var rest := Evicted(Reg(jobs, order[i..]), removable);
          Reg(rest.jobs, keep + rest.order) == Evicted(old(View()), |old(order)| - maxRecords)
      {
        var id := order[i];
        assert order[i..][1..] == order[i + 1..];
        if removable > 0 && id in jobs && Terminal(jobs[id].status) {
          jobs := jobs - {id};
          removable := removable - 1;
        } else {
          keep := keep + [id];
        }
      }
      order := keep;
    }

    method Create(id: string, targets: seq<string>, now: int)
      modifies this
      ensures View() == ApplyOp(old(View()), maxRecords, CreateOp(id, targets, now))
    {
      var sources: seq<Record> := [];
      for i := 0 to |targets|
        invariant sources == Seeded(targets[..i], now)
      {
        assert targets[..i + 1][..i] == targets[..i];
        sources := WithRecord(sources, targets[i], now);
      }
      assert targets[..|targets|] == targets;
      jobs := jobs[id := JobRecord(id, targets, Running, "starting", 0, None, "", sources, None, None, None)];
      order := order + [id];
      Evict();
    }

    method Progress(id: string, source: Option<string>, update: Update)
      modifies this`jobs
      ensures View() == ApplyOp(old(View()), maxRecords, ProgressOp(id, source, update))
    {
      if id !in jobs || Terminal(jobs[id].status) {
        return;
      }
      var job := jobs[id];
      var name: string;
      if source == None {
        name := if |job.sources| == 1 then job.sources[0].source else STAR;
      } else {
        name := source.value;
        if name != STAR {
          job := job.(sources := WithoutStar(job.sources));
        }
      }
      var i := IndexOf(job.sources, name);
      var sources := WithRecord(job.sources, name, update.now);
      job := job.(sources := sources[i := Apply(sources[i], update)]);
      jobs := jobs[id := Recompute(job)];
    }

    method Finish(id: string, outcome: Outcome, now: int)
      modifies this`jobs
      ensures View() == ApplyOp(old(View()), maxRecords, FinishOp(id, outcome, now))
    {
      if id !in jobs {
        return;
      }
      var job := jobs[id].(status := outcome.status, error := outcome.error, result := outcome.result,
                           finishedAt := Some(outcome.at));
      var records := job.sources;
      for i := 0 to |records|
        invariant |records| == |job.sources|
        invariant forall k :: 0 <= k < |records| ==>
          records[k] == if k < i then FinishRecords(job.sources, outcome.status, now)[k] else job.sources[k]
      {
        if Active(records[i]) {
          records := records[i := Apply(records[i], Update.Finish(outcome.status, now))];
        }
      }
      assert records == FinishRecords(job.sources, outcome.status, now);
      job := Recompute(job.(sources := records, phase := StatusName(outcome.status)));
      if Known(job.total) {
        job := job.(current := job.total.value);
      }
      jobs := jobs[id := job];
    }

    method FinishSource(id: string, source: string, status: Status, now: int)
      modifies this`jobs
      ensures View() == ApplyOp(old(View()), maxRecords, FinishSourceOp(id, source, status, now))
    {
      if id !in jobs || Terminal(jobs[id].status) {
        return;
      }
      var job := jobs[id];
      var i := IndexOf(job.sources, source);
      if i >= |job.sources| || !Active(job.sources[i]) {
        return;
      }
      var ended := Apply(job.sources[i], Update.Finish(status, now));
      jobs := jobs[id := Recompute(job.(sources := job.sources[i := ended]))];
    }

    method Clear(which: Option<string>) returns (removed: set<string>)
      modifies this
      ensures View() == ApplyOp(old(View()), maxRecords, ClearOp(which))
      ensures removed == old(jobs).Keys - jobs.Keys
    {
      var selected := Selected(View(), which);
      removed := {};
      for i := 0 to |selected|
        invariant jobs == old(jobs) - removed && order == old(order)
        invariant removed == set id | id in old(jobs) && IsEnded(old(jobs), id) && id in selected[..i]
      {
        assert selected[..i + 1] == selected[..i] + [selected[i]];
        var id := selected[i];
        if id in jobs && Terminal(jobs[id].status) {
          jobs := jobs - {id};
          removed := removed + {id};
        }
      }
      assert selected[..|selected|] == selected;
      assert removed == Gone(old(View()), which);
      if removed != {} {
        order := Remaining(order, jobs.Keys);
      }
    }
  }

  lemma {:induction false} EvictNothing(reg: Reg, removable: int)
    ensures removable <= 0 ==> Evicted(reg, removable) == reg
    decreases |reg.order|
  {
    if reg.order != [] && removable <= 0 {
      EvictNothing(Reg(reg.jobs, reg.order[1..]), removable);
    }
  }
}
