/** What the job registry keeps over whole runs (src/pheasant/jobs.py, JobRegistry). An id may be created any
  * number of times, as the drainer does with the id of its task. */
module RegistryRuns {
  import opened Lists
  import opened Options
  import opened JobSnapshots
  import opened SourceProgress
  import opened JobRegistry
  import opened JobRollup

  // ----- eviction -----

  /** What one step of the walk leaves to walk. */
  function Rest(reg: Reg, removable: int): (Reg, int)
    requires reg.order != []
  {
    var drop := removable > 0 && IsEnded(reg.jobs, reg.order[0]);
    (Reg(if drop then reg.jobs - {reg.order[0]} else reg.jobs, reg.order[1..]),
     if drop then removable - 1 else removable)
  }

  lemma EvictedStep(reg: Reg, removable: int)
    requires reg.order != []
    ensures var (rest, left) := Rest(reg, removable);
      && Evicted(reg, removable).jobs == Evicted(rest, left).jobs
      && Evicted(reg, removable).order ==
           (if removable > 0 && IsEnded(reg.jobs, reg.order[0]) then [] else [reg.order[0]]) + Evicted(rest, left).order
  {
  }

  /** Eviction drops only finished jobs that the order lists and leaves every other as it was. */
  lemma {:induction false} EvictionAt(reg: Reg, removable: int, id: string)
    ensures var after := Evicted(reg, removable).jobs;
      && (id in after ==> id in reg.jobs && after[id] == reg.jobs[id])
      && (id in reg.jobs && id !in after ==> id in reg.order && IsEnded(reg.jobs, id))
    decreases |reg.order|
  {
    if reg.order != [] {
      EvictedStep(reg, removable);
      EvictionAt(Rest(reg, removable).0, Rest(reg, removable).1, id);
      assert id in reg.order[1..] ==> id in reg.order;
    }
  }

  /** The ids a walk drops. */
  function Dropped(reg: Reg, removable: int): set<string> { reg.jobs.Keys - Evicted(reg, removable).jobs.Keys }

  lemma DroppedStep(reg: Reg, removable: int)
    requires reg.order != []
    ensures var (rest, left) := Rest(reg, removable);
      if removable > 0 && IsEnded(reg.jobs, reg.order[0])
      then reg.order[0] !in Dropped(rest, left) && Dropped(reg, removable) == Dropped(rest, left) + {reg.order[0]}
      else reg.order[0] !in Dropped(reg, removable) && Dropped(reg, removable) == Dropped(rest, left)
  {
    var id := reg.order[0];
    var (rest, left) := Rest(reg, removable);
    EvictedStep(reg, removable);
    EvictionAt(rest, left, id);
    EvictNothing(reg, removable);
  }

  /** A list without the first occurrence of each of some values. */
  function WithoutFirst(s: seq<string>, gone: set<string>): seq<string> {
    if s == [] then []
    else if s[0] in gone then WithoutFirst(s[1..], gone - {s[0]})
    else [s[0]] + WithoutFirst(s[1..], gone)
  }

  /** The order keeps its order and loses one entry for each job that is dropped, the first. */
  lemma {:induction false} EvictionKeepsOrder(reg: Reg, removable: int)
    ensures Evicted(reg, removable).order == WithoutFirst(reg.order, Dropped(reg, removable))
    decreases |reg.order|
  {
    if reg.order != [] {
      var id := reg.order[0];
      var (rest, left) := Rest(reg, removable);
      EvictedStep(reg, removable);
      DroppedStep(reg, removable);
      EvictionKeepsOrder(rest, left);
      if removable > 0 && IsEnded(reg.jobs, id) { assert Dropped(reg, removable) - {id} == Dropped(rest, left); }
    }
  }

  /** A dropped job is listed before every finished job that stays. */
  lemma {:induction false} EvictionDropsOldest(reg: Reg, removable: int, i: nat, j: nat)
    requires i < j < |reg.order| && reg.order[j] !in reg.order[..j]
    requires reg.order[j] in Dropped(reg, removable) && IsEnded(reg.jobs, reg.order[i])
    ensures reg.order[i] in Dropped(reg, removable)
    decreases |reg.order|
  {
    var (rest, left) := Rest(reg, removable);
    DroppedStep(reg, removable);
    assert reg.order[j] != reg.order[0] by { assert reg.order[0] == reg.order[..j][0]; }
    if i > 0 && !(removable > 0 && reg.order[i] == reg.order[0]) {
      assert rest.order[i - 1] == reg.order[i] && rest.order[j - 1] == reg.order[j];
      assert rest.order[j - 1] !in rest.order[..j - 1] by { assert rest.order[..j - 1] == reg.order[..j][1..]; }
      EvictionDropsOldest(rest, left, i - 1, j - 1);
    } else {
      EvictNothing(reg, removable);
    }
  }

  lemma DroppedJobs(reg: Reg, removable: int)
    ensures |Evicted(reg, removable).jobs| == |reg.jobs| - |Dropped(reg, removable)|
  {
    var after := Evicted(reg, removable).jobs;
    forall id | id in after.Keys ensures id in reg.jobs.Keys { EvictionAt(reg, removable, id); }
    assert reg.jobs.Keys == after.Keys + Dropped(reg, removable);
    assert |reg.jobs| == |reg.jobs.Keys| && |after| == |after.Keys|;
  }

  lemma DroppedStepCount(reg: Reg, removable: int)
    requires reg.order != []
    ensures var (rest, left) := Rest(reg, removable);
      |Dropped(reg, removable)| ==
        |Dropped(rest, left)| + if removable > 0 && IsEnded(reg.jobs, reg.order[0]) then 1 else 0
  {
    DroppedStep(reg, removable);
  }

  lemma NotEndedAfter(reg: Reg, removable: int)
    requires reg.order != [] && (removable > 0 || !IsEnded(reg.jobs, reg.order[0]))
    ensures !IsEnded(Evicted(reg, removable).jobs, reg.order[0])
  {
    DroppedStep(reg, removable);
    EvictionAt(reg, removable, reg.order[0]);
  }

  lemma {:induction false} EvictionSizes(reg: Reg, removable: int)
    ensures var dropped := |Dropped(reg, removable)|;
      |Evicted(reg, removable).order| == |reg.order| - dropped && dropped <= (if removable > 0 then removable else 0)
    decreases |reg.order|
  {
    if reg.order != [] {
      var (rest, left) := Rest(reg, removable);
      EvictedStep(reg, removable);
      DroppedStepCount(reg, removable);
      EvictionSizes(rest, left);
    } else {
      DroppedJobs(reg, removable);
    }
  }

  lemma {:induction false} EvictionTakesAll(reg: Reg, removable: int, id: string)
    requires removable > |Dropped(reg, removable)| && id in reg.order
    ensures !IsEnded(Evicted(reg, removable).jobs, id)
    decreases |reg.order|
  {
    var (rest, left) := Rest(reg, removable);
    EvictedStep(reg, removable);
    DroppedStepCount(reg, removable);
    if id == reg.order[0] {
      NotEndedAfter(reg, removable);
    } else {
      EvictionTakesAll(rest, left, id);
    }
  }

  /** It drops as many as are past the cap, or every finished job that the order lists. */
  lemma EvictionCount(reg: Reg, removable: int)
    ensures var after, dropped := Evicted(reg, removable), |Dropped(reg, removable)|;
      && |after.order| == |reg.order| - dropped && |after.jobs| == |reg.jobs| - dropped
      && dropped <= (if removable > 0 then removable else 0)
      && (removable <= dropped || forall id :: id in reg.order ==> !IsEnded(after.jobs, id))
  {
    DroppedJobs(reg, removable);
    EvictionSizes(reg, removable);
    if removable > |Dropped(reg, removable)| {
      forall id | id in reg.order ensures !IsEnded(Evicted(reg, removable).jobs, id) {
        EvictionTakesAll(reg, removable, id);
      }
    }
  }

  lemma {:induction false} RemainingMembers(s: seq<string>, keys: set<string>, x: string)
    ensures x in Remaining(s, keys) <==> x in s && x in keys
  {
    if s != [] {
      RemainingMembers(s[..|s| - 1], keys, x);
      InInitLast(s, x);
    }
  }

  lemma {:induction false} WithoutFirstKeeps(s: seq<string>, gone: set<string>, x: string)
    requires x !in gone
    ensures x in WithoutFirst(s, gone) <==> x in s
  {
    if s != [] {
      assert s == [s[0]] + s[1..];
      WithoutFirstKeeps(s[1..], gone - {s[0]}, x);
      WithoutFirstKeeps(s[1..], gone, x);
    }
  }

  // ----- one call -----

  function Added(reg: Reg, job: JobRecord): Reg { Reg(reg.jobs[job.id := job], reg.order + [job.id]) }

  lemma CreateAdds(reg: Reg, cap: int, op: Op)
    requires op.CreateOp?
    ensures var job := NewJob(op.id, op.targets, op.now);
      job.id == op.id && job.status == Running &&
      ApplyOp(reg, cap, op) == Evicted(Added(reg, job), |reg.order| + 1 - cap)
  {
  }

  /** Creating a job adds it, leaves the others as they were, and drops none that runs. */
  lemma CreateKeeps(reg: Reg, cap: int, op: Op, id: string)
    requires op.CreateOp?
    ensures var after := ApplyOp(reg, cap, op).jobs;
      && op.id in after && after[op.id] == NewJob(op.id, op.targets, op.now)
      && (id in after && id != op.id ==> id in reg.jobs && after[id] == reg.jobs[id])
      && (id in reg.jobs && !IsEnded(reg.jobs, id) ==> id in after)
  {
    var added := Added(reg, NewJob(op.id, op.targets, op.now));
    CreateAdds(reg, cap, op);
    EvictionAt(added, |reg.order| + 1 - cap, id);
    EvictionAt(added, |reg.order| + 1 - cap, op.id);
  }

  /** "A job in any of these will never change again" fails for exactly two calls about it: creating its id
    * again, which replaces it by a running job, and a second finish that says anything else than the first.
    * Every other call that leaves a finished job in the table leaves it exactly as it was. */
  lemma FinishedJobChangesExactly(reg: Reg, cap: int, op: Op, id: string)
    requires id in reg.jobs && Terminal(reg.jobs[id].status) && Coherent(reg.jobs[id])
    requires id in ApplyOp(reg, cap, op).jobs
    ensures ApplyOp(reg, cap, op).jobs[id] != reg.jobs[id] <==>
      || (op.CreateOp? && op.id == id)
      || (op.FinishOp? && op.id == id && !Says(reg.jobs[id], op.outcome))
  {
    if op.CreateOp? {
      CreateKeeps(reg, cap, op, id);
    } else if op.FinishOp? && op.id == id {
      FinishingAgainChangesExactly(reg.jobs[id], op.outcome, op.now);
    }
  }

  // ----- whole runs -----

  function Play(cap: int, ops: seq<Op>): Reg {
    if ops == [] then Reg(map[], []) else ApplyOp(Play(cap, ops[..|ops| - 1]), cap, ops[|ops| - 1])
  }

  lemma PlayOne(cap: int, before: seq<Op>, op: Op)
    ensures Play(cap, before + [op]) == ApplyOp(Play(cap, before), cap, op)
  {
    assert (before + [op])[..|before|] == before;
  }

  /** Jobs are finished with a terminal status. */
  ghost predicate Ends(ops: seq<Op>) {
    forall i :: 0 <= i < |ops| && ops[i].FinishOp? ==> Terminal(ops[i].outcome.status)
  }

  /** The id was created and has not been finished since. */
  predicate Unfinished(ops: seq<Op>, id: string) {
    if ops == [] then false
    else
      var op := ops[|ops| - 1];
      if op.CreateOp? && op.id == id then true
      else if op.FinishOp? && op.id == id then false
      else Unfinished(ops[..|ops| - 1], id)
  }

  predicate Runs(reg: Reg, id: string) { id in reg.jobs && reg.jobs[id].status == Running }

  lemma OpKeepsRunning(reg: Reg, cap: int, op: Op, id: string)
    requires !(op.FinishOp? && op.id == id)
    ensures Runs(ApplyOp(reg, cap, op), id) <==> Runs(reg, id) || (op.CreateOp? && op.id == id)
  {
    if op.CreateOp? { CreateKeeps(reg, cap, op, id); }
  }

  /** The registry drops no running job and keeps none running that ended: an id runs exactly when it was
    * created and not finished since, whatever else was created, finished, cleared or evicted, and however
    * often. */
  lemma {:induction false} RunningExactly(cap: int, ops: seq<Op>, id: string)
    requires Ends(ops)
    ensures Runs(Play(cap, ops), id) <==> Unfinished(ops, id)
  {
    if ops != [] {
      var init, op := ops[..|ops| - 1], ops[|ops| - 1];
      RunningExactly(cap, init, id);
      if !(op.FinishOp? && op.id == id) { OpKeepsRunning(Play(cap, init), cap, op, id); }
    }
  }

  lemma OpKeepsCoherent(reg: Reg, cap: int, op: Op, id: string)
    requires op.FinishOp? ==> Terminal(op.outcome.status)
    requires id in reg.jobs ==> Coherent(reg.jobs[id])
    requires id in ApplyOp(reg, cap, op).jobs
    ensures Coherent(ApplyOp(reg, cap, op).jobs[id])
  {
    match op
    case CreateOp(new', targets, now) =>
      CreateKeeps(reg, cap, op, id);
      SeededCoherent(targets, now);
    case ProgressOp(_, about, update) =>
      if op.id == id && !Terminal(reg.jobs[id].status) { ProgressedCoherent(reg.jobs[id], about, update); }
    case FinishOp(_, outcome, now) =>
      if op.id == id { FinishedCoherent(reg.jobs[id], outcome, now); }
    case FinishSourceOp(_, source, status, now) =>
      if op.id == id && !Terminal(reg.jobs[id].status) { SourceFinishedCoherent(reg.jobs[id], source, status, now); }
    case ClearOp(_) =>
  }

  /** In every run, every job has one record per source; a running job's counter and total are derived from
    * its records; and of a finished job no source runs any more, and a known total is reached. */
  lemma {:induction false} JobsStayCoherent(cap: int, ops: seq<Op>, id: string)
    requires Ends(ops) && id in Play(cap, ops).jobs
    ensures Coherent(Play(cap, ops).jobs[id])
  {
    if ops != [] {
      var init := ops[..|ops| - 1];
      if id in Play(cap, init).jobs { JobsStayCoherent(cap, init, id); }
      OpKeepsCoherent(Play(cap, init), cap, ops[|ops| - 1], id);
    }
  }

  // ----- the order and the table -----

  ghost predicate Listed(reg: Reg) { forall id :: id in reg.jobs ==> id in reg.order }

  /** The order lists every job in the registry, exactly once, and nothing else. */
  ghost predicate Sound(reg: Reg) {
    Distinct(reg.order) && forall id :: id in reg.order <==> id in reg.jobs
  }

  lemma EvictionKeepsListed(reg: Reg, removable: int)
    requires Listed(reg)
    ensures Listed(Evicted(reg, removable))
  {
    EvictionKeepsOrder(reg, removable);
    forall id | id in Evicted(reg, removable).jobs ensures id in Evicted(reg, removable).order {
      EvictionAt(reg, removable, id);
      WithoutFirstKeeps(reg.order, Dropped(reg, removable), id);
    }
  }

  lemma OpKeepsListed(reg: Reg, cap: int, op: Op)
    requires Listed(reg)
    ensures Listed(ApplyOp(reg, cap, op))
  {
    match op
    case CreateOp(id, targets, now) =>
      CreateAdds(reg, cap, op);
      EvictionKeepsListed(Added(reg, NewJob(id, targets, now)), |reg.order| + 1 - cap);
    case ClearOp(which) =>
      var keys := reg.jobs.Keys - Gone(reg, which);
      forall id | id in keys ensures id in Remaining(reg.order, keys) { RemainingMembers(reg.order, keys, id); }
    case _ =>
  }

  lemma {:induction false} JobsAreListed(cap: int, ops: seq<Op>)
    ensures Listed(Play(cap, ops))
  {
    if ops != [] {
      JobsAreListed(cap, ops[..|ops| - 1]);
      OpKeepsListed(Play(cap, ops[..|ops| - 1]), cap, ops[|ops| - 1]);
    }
  }

  lemma {:induction false} RemainingDistinct(s: seq<string>, keys: set<string>)
    requires Distinct(s)
    ensures Distinct(Remaining(s, keys))
  {
    if s != [] {
      var init, last := s[..|s| - 1], s[|s| - 1];
      RemainingDistinct(init, keys);
      assert last !in init;
      RemainingMembers(init, keys, last);
    }
  }

  lemma {:induction false} WithoutFirstCounts(s: seq<string>, gone: set<string>, x: string)
    ensures x !in gone ==> multiset(WithoutFirst(s, gone))[x] == multiset(s)[x]
    ensures Distinct(s) && x in gone ==> multiset(WithoutFirst(s, gone))[x] == 0
    ensures multiset(WithoutFirst(s, gone))[x] <= multiset(s)[x]
  {
    if s != [] {
      assert s == [s[0]] + s[1..];
      var gone' := if s[0] in gone then gone - {s[0]} else gone;
      WithoutFirstCounts(s[1..], gone', x);
      if Distinct(s) { assert s[0] !in s[1..]; }
    }
  }

  lemma {:induction false} DistinctOnce(s: seq<string>)
    ensures Distinct(s) <==> forall x :: multiset(s)[x] <= 1
  {
    if s != [] {
      var init, last := s[..|s| - 1], s[|s| - 1];
      InitLast(s);
      DistinctOnce(init);
      assert multiset(s) == multiset(init) + multiset{last};
      assert multiset(init)[last] == 0 <==> last !in init;
      if Distinct(s) {
        assert last !in init;
      } else if Distinct(init) {
        assert last in init;
        assert multiset(s)[last] > 1;
      } else {
        var x :| multiset(init)[x] > 1;
        assert multiset(s)[x] > 1;
      }
    }
  }

  lemma EvictionKeepsSound(reg: Reg, removable: int)
    requires Sound(reg)
    ensures Sound(Evicted(reg, removable))
  {
    var after, gone := Evicted(reg, removable), Dropped(reg, removable);
    EvictionKeepsOrder(reg, removable);
    DistinctOnce(reg.order);
    forall x ensures multiset(after.order)[x] <= 1 { WithoutFirstCounts(reg.order, gone, x); }
    DistinctOnce(after.order);
    forall id ensures id in after.order <==> id in after.jobs {
      WithoutFirstCounts(reg.order, gone, id);
      EvictionAt(reg, removable, id);
      assert id in after.order <==> multiset(after.order)[id] > 0;
    }
  }

  lemma CreateKeepsSoundExactly(reg: Reg, cap: int, op: Op)
    requires Sound(reg) && op.CreateOp?
    ensures Sound(ApplyOp(reg, cap, op)) <==> op.id !in reg.jobs
  {
    var added := Added(reg, NewJob(op.id, op.targets, op.now));
    var removable := |reg.order| + 1 - cap;
    CreateAdds(reg, cap, op);
    forall x ensures x in added.order <==> x in reg.order || x == op.id { InAppend(reg.order, op.id, x); }
    if op.id !in reg.jobs {
      EvictionKeepsSound(added, removable);
    } else {
      EvictionKeepsOrder(added, removable);
      EvictionAt(added, removable, op.id);
      WithoutFirstCounts(added.order, Dropped(added, removable), op.id);
      DistinctOnce(Evicted(added, removable).order);
      assert multiset(added.order)[op.id] > 1;
    }
  }

  lemma OpKeepsSoundExactly(reg: Reg, cap: int, op: Op)
    requires Sound(reg)
    ensures Sound(ApplyOp(reg, cap, op)) <==> !(op.CreateOp? && op.id in reg.jobs)
  {
    match op
    case CreateOp(_, _, _) => CreateKeepsSoundExactly(reg, cap, op);
    case ClearOp(which) =>
      var keys := reg.jobs.Keys - Gone(reg, which);
      RemainingDistinct(reg.order, keys);
      forall id ensures id in Remaining(reg.order, keys) <==> id in keys { RemainingMembers(reg.order, keys, id); }
    case _ =>
  }

  ghost predicate SoundThroughout(cap: int, ops: seq<Op>) {
    forall k :: 0 <= k <= |ops| ==> Sound(Play(cap, ops[..k]))
  }

  /** No job is created while one of its id is in the table. */
  ghost predicate NoneReplaced(cap: int, ops: seq<Op>) {
    forall k :: 0 <= k < |ops| && ops[k].CreateOp? ==> ops[k].id !in Play(cap, ops[..k]).jobs
  }

  lemma PlayNext(cap: int, ops: seq<Op>, k: nat)
    requires k < |ops|
    ensures Play(cap, ops[..k + 1]) == ApplyOp(Play(cap, ops[..k]), cap, ops[k])
  {
    assert ops[..k + 1][..k] == ops[..k];
  }

  lemma {:induction false} SoundUpTo(cap: int, ops: seq<Op>, k: nat)
    requires NoneReplaced(cap, ops) && k <= |ops|
    ensures Sound(Play(cap, ops[..k]))
  {
    if k > 0 {
      SoundUpTo(cap, ops, k - 1);
      PlayNext(cap, ops, k - 1);
      OpKeepsSoundExactly(Play(cap, ops[..k - 1]), cap, ops[k - 1]);
    }
  }

  /** Over a whole run `_order` lists exactly the jobs there are, each once, if and only if no job is
    * created while one of its id is still in the table. */
  lemma OrderMatchesJobsExactly(cap: int, ops: seq<Op>)
    ensures SoundThroughout(cap, ops) <==> NoneReplaced(cap, ops)
  {
    if NoneReplaced(cap, ops) {
      forall k | 0 <= k <= |ops| ensures Sound(Play(cap, ops[..k])) { SoundUpTo(cap, ops, k); }
    } else {
      var k :| 0 <= k < |ops| && ops[k].CreateOp? && ops[k].id in Play(cap, ops[..k]).jobs;
      PlayNext(cap, ops, k);
      if Sound(Play(cap, ops[..k])) {
        OpKeepsSoundExactly(Play(cap, ops[..k]), cap, ops[k]);
        assert !Sound(Play(cap, ops[..k + 1]));
      }
    }
  }

  // ----- how large the registry gets -----

  function RunningIds(reg: Reg): set<string> {
    set id | id in reg.jobs && !Terminal(reg.jobs[id].status)
  }

  /** The most jobs that ever ran at once. */
  function PeakRunning(cap: int, ops: seq<Op>): (peak: nat)
    ensures peak >= |RunningIds(Play(cap, ops))|
  {
    var now := |RunningIds(Play(cap, ops))|;
    if ops == [] then now
    else
      var before := PeakRunning(cap, ops[..|ops| - 1]);
      if now > before then now else before
  }

  lemma {:induction false} SetWithin(keys: set<string>, s: seq<string>)
    requires forall x :: x in keys ==> x in s
    ensures |keys| <= |s|
  {
    if s != [] {
      var last := s[|s| - 1];
      forall x | x in keys - {last} ensures x in s[..|s| - 1] { InInitLast(s, x); }
      SetWithin(keys - {last}, s[..|s| - 1]);
    }
  }

  lemma SubsetSize(a: set<string>, b: set<string>)
    requires a <= b
    ensures |a| <= |b|
  {
    assert b == a + (b - a);
  }

  lemma CreateBounds(reg: Reg, cap: int, op: Op)
    requires Listed(reg) && op.CreateOp?
    ensures var after := ApplyOp(reg, cap, op);
      |after.jobs| <= cap || |after.jobs| <= |RunningIds(after)|
  {
    var added := Added(reg, NewJob(op.id, op.targets, op.now));
    var after := ApplyOp(reg, cap, op);
    CreateAdds(reg, cap, op);
    EvictionCount(added, |reg.order| + 1 - cap);
    OpKeepsListed(reg, cap, op);
    SetWithin(after.jobs.Keys, after.order);
    assert |after.jobs| == |after.jobs.Keys|;
    if |after.order| > cap {
      forall id | id in after.jobs ensures id in RunningIds(after) {
        EvictionAt(added, |reg.order| + 1 - cap, id);
        InAppend(reg.order, op.id, id);
      }
      SubsetSize(after.jobs.Keys, RunningIds(after));
    }
  }

  /** The registry never holds more than its cap or, if more ever ran at once, than that many jobs. */
  lemma {:induction false} RegistryIsBounded(cap: int, ops: seq<Op>)
    ensures |Play(cap, ops).jobs| <= cap || |Play(cap, ops).jobs| <= PeakRunning(cap, ops)
  {
    if ops != [] {
      var init, op := ops[..|ops| - 1], ops[|ops| - 1];
      var reg, after := Play(cap, init), Play(cap, ops);
      RegistryIsBounded(cap, init);
      JobsAreListed(cap, init);
      if op.CreateOp? {
        CreateBounds(reg, cap, op);
      } else {
        forall id | id in after.jobs.Keys ensures id in reg.jobs.Keys { }
        SubsetSize(after.jobs.Keys, reg.jobs.Keys);
        assert |after.jobs| == |after.jobs.Keys| && |reg.jobs| == |reg.jobs.Keys|;
      }
    }
  }

  // ----- clearing -----

  /** A clear of one id, or of all. */
  predicate Asks(which: Option<string>, id: string) { which == None || which == Some(id) }

  lemma ClearedAt(reg: Reg, which: Option<string>, id: string)
    requires Listed(reg)
    ensures var before, after := reg.jobs, Cleared(reg, which).jobs;
      && (id in after <==> id in before && !(Terminal(before[id].status) && Asks(which, id)))
      && (id in after ==> after[id] == before[id])
  {
    assert id in reg.jobs ==> (id in Selected(reg, which) <==> Asks(which, id));
    assert id in Gone(reg, which) <==> id in reg.jobs && Terminal(reg.jobs[id].status) && Asks(which, id);
  }

  /** In any run, a clear removes exactly the jobs that have ended and that it asks about, and leaves every
    * other as it was. */
  lemma ClearRemovesExactly(cap: int, ops: seq<Op>, which: Option<string>, id: string)
    ensures var before, after := Play(cap, ops).jobs, Play(cap, ops + [ClearOp(which)]).jobs;
      && (id in after <==> id in before && !(Terminal(before[id].status) && Asks(which, id)))
      && (id in after ==> after[id] == before[id])
  {
    PlayOne(cap, ops, ClearOp(which));
    JobsAreListed(cap, ops);
    ClearedAt(Play(cap, ops), which, id);
  }

  lemma {:induction false} RemainingPlaces(s: seq<string>, keys: set<string>) returns (at: seq<nat>)
    ensures |at| == |Remaining(s, keys)|
    ensures forall k :: 0 <= k < |at| ==> at[k] < |s| && Remaining(s, keys)[k] == s[at[k]] && s[at[k]] in keys
    ensures forall k, l :: 0 <= k < l < |at| ==> at[k] < at[l]
    ensures forall i: nat :: i < |s| && s[i] in keys ==> i in at
  {
    at := [];
    if s != [] {
      var n := |s| - 1;
      var before := RemainingPlaces(s[..n], keys);
      at := before;
      if s[n] in keys {
        at := before + [n];
        assert at[|before|] == n;
        forall i: nat | i < |s| && s[i] in keys ensures i in at { InAppend(before, n, i); }
      }
    }
  }

  /** A clear that removes nothing leaves the order alone; one that removes a job leaves exactly the entries
    * that have a job, in their order. */
  lemma ClearKeepsOrder(cap: int, ops: seq<Op>, which: Option<string>) returns (at: seq<nat>)
    ensures var before, after := Play(cap, ops), Play(cap, ops + [ClearOp(which)]);
      if after.jobs == before.jobs then after.order == before.order
      else
        && |at| == |after.order| && (forall k :: 0 <= k < |at| ==> at[k] < |before.order|)
        && (forall k :: 0 <= k < |at| ==> after.order[k] == before.order[at[k]])
        && (forall k, l :: 0 <= k < l < |at| ==> at[k] < at[l])
        && (forall i: nat :: i in at <==> i < |before.order| && before.order[i] in after.jobs)
  {
    PlayOne(cap, ops, ClearOp(which));
    var before := Play(cap, ops);
    var gone := Gone(before, which);
    if gone == {} {
      at := [];
    } else {
      var id :| id in gone;
      at := RemainingPlaces(before.order, before.jobs.Keys - gone);
    }
  }

  // ----- how many finished jobs are kept -----

  /** Eviction drops anything exactly when the order is past the cap and lists a finished job. */
  lemma EvictsExactly(reg: Reg, removable: int)
    ensures Dropped(reg, removable) != {} <==> removable > 0 && exists id :: id in reg.order && IsEnded(reg.jobs, id)
  {
    EvictionCount(reg, removable);
    if id :| id in Dropped(reg, removable) {
      EvictionAt(reg, removable, id);
      assert id in reg.order && IsEnded(reg.jobs, id);
    }
    if id :| id in reg.order && IsEnded(reg.jobs, id) { EvictionAt(reg, removable, id); }
  }

  /** The finished jobs, but for one of this id. */
  function FinishedBut(reg: Reg, id: string): set<string> {
    set other | other in reg.jobs && other != id && IsEnded(reg.jobs, other)
  }

  lemma CreateDrops(reg: Reg, cap: int, op: Op, id: string)
    requires op.CreateOp?
    ensures var added := Added(reg, NewJob(op.id, op.targets, op.now));
      id in FinishedBut(ApplyOp(reg, cap, op), op.id) <==>
        id in FinishedBut(reg, op.id) && id !in Dropped(added, |reg.order| + 1 - cap)
  {
    CreateAdds(reg, cap, op);
    EvictionAt(Added(reg, NewJob(op.id, op.targets, op.now)), |reg.order| + 1 - cap, id);
  }

  lemma DroppedWereFinished(reg: Reg, cap: int, op: Op, id: string)
    requires op.CreateOp? && id in Dropped(Added(reg, NewJob(op.id, op.targets, op.now)), |reg.order| + 1 - cap)
    ensures id in FinishedBut(reg, op.id)
  {
    EvictionAt(Added(reg, NewJob(op.id, op.targets, op.now)), |reg.order| + 1 - cap, id);
  }

  /** A finished job is dropped when the order lists it and is past the cap by more than is dropped. */
  lemma ListedIsDropped(reg: Reg, removable: int, id: string)
    requires removable > |Dropped(reg, removable)| && id in reg.order && IsEnded(reg.jobs, id)
    ensures id in Dropped(reg, removable)
  {
    EvictionTakesAll(reg, removable, id);
    EvictionAt(reg, removable, id);
  }

  lemma NoneLeft(reg: Reg, cap: int, op: Op, added: Reg, id: string)
    requires op.CreateOp? && Listed(reg) && added == Added(reg, NewJob(op.id, op.targets, op.now))
    requires |reg.order| + 1 - cap > |Dropped(added, |reg.order| + 1 - cap)|
    ensures id !in FinishedBut(ApplyOp(reg, cap, op), op.id)
  {
    CreateDrops(reg, cap, op, id);
    if id in FinishedBut(reg, op.id) {
      InAppend(reg.order, op.id, id);
      ListedIsDropped(added, |reg.order| + 1 - cap, id);
    }
  }

  lemma FinishedSplit(reg: Reg, cap: int, op: Op) returns (dropped: set<string>)
    requires op.CreateOp?
    ensures dropped == Dropped(Added(reg, NewJob(op.id, op.targets, op.now)), |reg.order| + 1 - cap)
    ensures var before, after := FinishedBut(reg, op.id), FinishedBut(ApplyOp(reg, cap, op), op.id);
      after <= before && |before| == |after| + |dropped|
  {
    var before, after := FinishedBut(reg, op.id), FinishedBut(ApplyOp(reg, cap, op), op.id);
    dropped := Dropped(Added(reg, NewJob(op.id, op.targets, op.now)), |reg.order| + 1 - cap);
    forall id ensures id in after <==> id in before && id !in dropped { CreateDrops(reg, cap, op, id); }
    forall id | id in dropped ensures id in before { DroppedWereFinished(reg, cap, op, id); }
    assert before == after + dropped && after !! dropped;
  }

  /** How many are kept past a create: all while the order has room, and then one fewer for each entry that
    * the order is past the cap, whatever the entries are. */
  lemma CreateKeepsFinished(reg: Reg, cap: int, op: Op)
    requires op.CreateOp? && Listed(reg)
    ensures var before, after := FinishedBut(reg, op.id), FinishedBut(ApplyOp(reg, cap, op), op.id);
      var over := |reg.order| + 1 - cap;
      after <= before && |after| == if over <= 0 then |before| else if over >= |before| then 0 else |before| - over
  {
    var over := |reg.order| + 1 - cap;
    var dropped := FinishedSplit(reg, cap, op);
    var added := Added(reg, NewJob(op.id, op.targets, op.now));
    EvictionSizes(added, over);
    if over > |dropped| {
      forall id ensures id !in FinishedBut(ApplyOp(reg, cap, op), op.id) { NoneLeft(reg, cap, op, added, id); }
      assert FinishedBut(ApplyOp(reg, cap, op), op.id) == {};
    }
  }

  lemma ListedSize(reg: Reg, id: string)
    requires Listed(reg)
    ensures |FinishedBut(reg, id)| <= |reg.order|
  {
    SetWithin(FinishedBut(reg, id), reg.order);
  }

  lemma LostCount(before: set<string>, after: set<string>)
    requires after <= before
    ensures |before - after| == |before| - |after| && (before - after != {} <==> |after| < |before|)
  {
    assert before == after + (before - after);
  }

  lemma CreateLosesExactly(reg: Reg, cap: int, op: Op, after: set<string>)
    requires op.CreateOp? && Listed(reg) && after == FinishedBut(ApplyOp(reg, cap, op), op.id)
    ensures var before := FinishedBut(reg, op.id);
      && after <= before
      && (before - after != {} <==> |reg.order| >= cap && before != {})
      && (cap >= 1 ==> (before - after != {} <==> |after| < |before| && |after| < cap))
  {
    CreateKeepsFinished(reg, cap, op);
    ListedSize(reg, op.id);
    LostCount(FinishedBut(reg, op.id), after);
  }

  /** "How many completed jobs to keep": in any run, a create of an id loses a finished job of another exactly
    * when the order already has as many entries as the cap and there is one to lose. The entries may be those
    * of running jobs, or of ids created before, so with a cap of at least one this is exactly when it does not
    * keep as many finished jobs as there are and the cap allows. */
  lemma FinishedLostExactly(cap: int, ops: seq<Op>, op: Op)
    requires op.CreateOp?
    ensures var reg, next := Play(cap, ops), Play(cap, ops + [op]);
      var before, after := FinishedBut(reg, op.id), FinishedBut(next, op.id);
      && after <= before
      && (before - after != {} <==> |reg.order| >= cap && before != {})
      && (cap >= 1 ==> (before - after != {} <==> |after| < |before| && |after| < cap))
  {
    PlayOne(cap, ops, op);
    JobsAreListed(cap, ops);
    CreateLosesExactly(Play(cap, ops), cap, op, FinishedBut(Play(cap, ops + [op]), op.id));
  }

  /** Running jobs alone do it: with a cap of one and no id created twice, the finished job is lost as soon
    * as another is created. */
  lemma RunningJobsCount(create: Op, outcome: Outcome, other: Op)
    requires create.CreateOp? && other.CreateOp? && other.id != create.id && Terminal(outcome.status)
    ensures var ops := [create, FinishOp(create.id, outcome, create.now), other];
      NoneReplaced(1, ops) && Play(1, ops).jobs.Keys == {other.id}
  {
    var finish := FinishOp(create.id, outcome, create.now);
    var ops := [create, finish, other];
    ReusedIdIsEvictedEarly(1, create, outcome, 1, other);
    OrderGrowsWithReuse(1, create, outcome, 1);
    assert Resyncs(create, outcome, 1) == [create, finish];
    assert [create, finish] + [other] == ops && ops[..2] == [create, finish];
    assert ops[..0] == [];
  }

  // ----- runs in which it goes wrong -----

  /** Creating the id of a finished job replaces it by a running one, and a second finish overwrites what
    * the first said, with the same status too. */
  lemma FinishedJobCanChange(cap: int, create: Op, first: Outcome, second: Outcome, now: int)
    requires create.CreateOp? && Terminal(first.status)
    ensures var id, ops := create.id, [create, FinishOp(create.id, first, now)];
      && IsEnded(Play(cap, ops).jobs, id) && Says(Play(cap, ops).jobs[id], first)
      && Runs(Play(cap, ops + [create]), id)
      && id in Play(cap, ops + [FinishOp(id, second, now)]).jobs
      && Says(Play(cap, ops + [FinishOp(id, second, now)]).jobs[id], second)
  {
    var id, ops := create.id, [create, FinishOp(create.id, first, now)];
    var none: seq<Op> := [];
    assert [create][..0] == none && ops[..1] == [create];
    CreateKeeps(Play(cap, none), cap, create, id);
    assert (ops + [create])[..2] == ops && (ops + [FinishOp(id, second, now)])[..2] == ops;
    CreateKeeps(Play(cap, ops), cap, create, id);
  }

  function Copies(id: string, n: nat): (s: seq<string>)
    ensures |s| == n && forall i :: 0 <= i < n ==> s[i] == id
  {
    seq(n, i => id)
  }

  /** One id created and finished n times, as one source synced n times is. */
  function Resyncs(create: Op, outcome: Outcome, n: nat): seq<Op>
    requires create.CreateOp?
  {
    if n == 0 then [] else Resyncs(create, outcome, n - 1) + [create, FinishOp(create.id, outcome, create.now)]
  }

  lemma NothingEnded(reg: Reg, removable: int)
    requires forall id :: id in reg.order ==> !IsEnded(reg.jobs, id)
    ensures Evicted(reg, removable) == reg
    decreases |reg.order|
  {
    if reg.order != [] {
      assert reg.order == [reg.order[0]] + reg.order[1..];
      NothingEnded(Rest(reg, removable).0, Rest(reg, removable).1);
    }
  }

  lemma Resynced(cap: int, reg: Reg, create: Op, outcome: Outcome)
    requires create.CreateOp? && Terminal(outcome.status) && reg.jobs.Keys <= {create.id}
    requires forall id :: id in reg.order ==> id == create.id
    ensures var after := ApplyOp(ApplyOp(reg, cap, create), cap, FinishOp(create.id, outcome, create.now));
      && after.order == reg.order + [create.id]
      && after.jobs.Keys == {create.id} && IsEnded(after.jobs, create.id)
  {
    CreateAdds(reg, cap, create);
    NothingEnded(Added(reg, NewJob(create.id, create.targets, create.now)), |reg.order| + 1 - cap);
  }

  lemma PlayTwo(cap: int, before: seq<Op>, a: Op, b: Op)
    ensures Play(cap, before + [a, b]) == ApplyOp(ApplyOp(Play(cap, before), cap, a), cap, b)
  {
    var all := before + [a, b];
    assert all[..|all| - 1] == before + [a] && (before + [a])[..|before|] == before;
  }

  lemma OneMoreCopy(id: string, n: nat)
    ensures Copies(id, n) + [id] == Copies(id, n + 1)
  {
  }

  /** The order grows with every sync of one source, past any cap, while the table holds the one job. */
  lemma {:induction false} OrderGrowsWithReuse(cap: int, create: Op, outcome: Outcome, n: nat)
    requires create.CreateOp? && Terminal(outcome.status)
    ensures var reg := Play(cap, Resyncs(create, outcome, n));
      && reg.order == Copies(create.id, n) && reg.jobs.Keys == (if n == 0 then {} else {create.id})
      && (n > 0 ==> IsEnded(reg.jobs, create.id))
  {
    if n > 0 {
      var before, finish := Resyncs(create, outcome, n - 1), FinishOp(create.id, outcome, create.now);
      OrderGrowsWithReuse(cap, create, outcome, n - 1);
      PlayTwo(cap, before, create, finish);
      OneMoreCopy(create.id, n - 1);
      Resynced(cap, Play(cap, before), create, outcome);
    }
  }

  /** The entries are counted as jobs: when the order has reached the cap in this way, creating any other job
    * evicts the finished one, although the table then holds a single job, and leaves its other entries in
    * the order without a job. */
  lemma ReusedIdIsEvictedEarly(cap: int, create: Op, outcome: Outcome, n: nat, other: Op)
    requires create.CreateOp? && other.CreateOp? && other.id != create.id && Terminal(outcome.status)
    requires n > 0 && n >= cap
    ensures var reg := Play(cap, Resyncs(create, outcome, n) + [other]);
      reg.jobs.Keys == {other.id} && reg.order == Copies(create.id, n - 1) + [other.id]
  {
    var before := Resyncs(create, outcome, n);
    var reg := Play(cap, before);
    OrderGrowsWithReuse(cap, create, outcome, n);
    assert (before + [other])[..|before|] == before;
    CreateAdds(reg, cap, other);
    var added := Added(reg, NewJob(other.id, other.targets, other.now));
    EvictedStep(added, n + 1 - cap);
    assert added.order[0] == create.id;
    assert added.order[1..] == Copies(create.id, n - 1) + [other.id];
    NothingEnded(Rest(added, n + 1 - cap).0, Rest(added, n + 1 - cap).1);
  }
}
