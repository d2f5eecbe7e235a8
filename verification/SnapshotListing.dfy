/** Which job a process lists under an id (src/pheasant/jobs.py, JobRegistry.create). */
module SnapshotListing {
  import opened SnapshotProtocol

  lemma GrowsAt(run: seq<State>, i: nat)
    requires Run(run) && i < |run| - 1
    ensures Grown(run[i].jobs, run[i + 1].jobs)
  {
    var step := StepTaken(run, i);
    StepGrows(run[i], run[i + 1], step);
  }

  lemma {:induction false} GrowsTo(run: seq<State>, k: nat, i: nat)
    requires k <= i < |run| && forall j :: k <= j < i ==> Grown(run[j].jobs, run[j + 1].jobs)
    ensures Grown(run[k].jobs, run[i].jobs)
  {
    if k < i {
      GrowsTo(run, k, i - 1);
      assert Grown(run[i - 1].jobs, run[i - 1 + 1].jobs);
    }
  }

  lemma JobsGrow(run: seq<State>, k: nat, i: nat)
    requires Run(run) && k <= i < |run|
    ensures Grown(run[k].jobs, run[i].jobs)
  {
    forall j | k <= j < i ensures Grown(run[j].jobs, run[j + 1].jobs) { GrowsAt(run, j); }
    GrowsTo(run, k, i);
  }

  ghost predicate SameKey(s: State, job: nat, other: nat) {
    && job in s.jobs && other in s.jobs
    && s.jobs[job].owner == s.jobs[other].owner && s.jobs[job].id == s.jobs[other].id
  }

  /** A step that creates another job of this one's id in its process. */
  ghost predicate Replaces(s: State, s': State, job: nat) {
    exists other :: other !in s.jobs && SameKey(s', job, other)
  }

  /** Another job of the id was created in the same process after this one. */
  ghost predicate Superseded(run: seq<State>, i: nat, job: nat)
    requires i < |run|
  {
    exists k: nat, other :: k < i && job in run[k].jobs && other !in run[k].jobs && SameKey(run[i], job, other)
  }

  lemma ListingStep(s: State, s': State, step: Step, job: nat)
    requires NextStep(s, s', step) && job in s.jobs
    ensures job in s'.jobs && (s'.jobs[job].listed <==> s.jobs[job].listed && !Replaces(s, s', job))
  {
    StepGrows(s, s', step);
    if step.Create? && step.process == s.jobs[job].owner && step.id == s.jobs[job].id {
      assert SameKey(s', job, step.job);
    }
  }

  lemma NewIsListed(s: State, s': State, step: Step, job: nat)
    requires NextStep(s, s', step) && job !in s.jobs && job in s'.jobs
    ensures s'.jobs[job].listed
  {
    StepGrows(s, s', step);
  }

  lemma ListedAt(run: seq<State>, i: nat, job: nat)
    requires Run(run) && i < |run| - 1 && job in run[i + 1].jobs
    ensures job in run[i].jobs ==>
      (run[i + 1].jobs[job].listed <==> run[i].jobs[job].listed && !Replaces(run[i], run[i + 1], job))
    ensures job !in run[i].jobs ==> run[i + 1].jobs[job].listed
  {
    var step := StepTaken(run, i);
    if job in run[i].jobs {
      ListingStep(run[i], run[i + 1], step, job);
    } else {
      NewIsListed(run[i], run[i + 1], step, job);
    }
  }

  lemma SupersededStep(run: seq<State>, i: nat, job: nat)
    requires i < |run| - 1 && job in run[i].jobs && Grown(run[i].jobs, run[i + 1].jobs)
    requires forall k: nat :: k <= i ==> Grown(run[k].jobs, run[i].jobs)
    ensures Superseded(run, i + 1, job) <==> (Superseded(run, i, job) || Replaces(run[i], run[i + 1], job))
  {
    if k: nat, other :| k < i && job in run[k].jobs && other !in run[k].jobs && SameKey(run[i], job, other) {
      assert SameKey(run[i + 1], job, other);
    }
    if other :| other !in run[i].jobs && SameKey(run[i + 1], job, other) {
      assert i < i + 1;
    }
    if k: nat, other :| k < i + 1 && job in run[k].jobs && other !in run[k].jobs && SameKey(run[i + 1], job, other) {
      if other in run[i].jobs { assert k < i && SameKey(run[i], job, other); }
    }
  }

  lemma NewIsNotSuperseded(run: seq<State>, i: nat, job: nat)
    requires i < |run| - 1 && job !in run[i].jobs && forall k: nat :: k <= i ==> Grown(run[k].jobs, run[i].jobs)
    ensures !Superseded(run, i + 1, job)
  {
  }

  /** A process lists a job under its id exactly until it creates another of that id: jobs of other ids and of
    * other processes stay listed. */
  lemma {:induction false} ListedExactly(run: seq<State>, i: nat, job: nat)
    requires Run(run) && i < |run| && job in run[i].jobs
    ensures run[i].jobs[job].listed <==> !Superseded(run, i, job)
  {
    assert i > 0;
    var before: nat := i - 1;
    forall k: nat | k <= before ensures Grown(run[k].jobs, run[before].jobs) { JobsGrow(run, k, before); }
    GrowsAt(run, before);
    ListedAt(run, before, job);
    if job in run[before].jobs {
      ListedExactly(run, before, job);
      SupersededStep(run, before, job);
    } else {
      NewIsNotSuperseded(run, before, job);
    }
  }
}
