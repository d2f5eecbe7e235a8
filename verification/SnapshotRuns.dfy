/** What snapshots of running and ended jobs keep saying (src/pheasant/jobs.py, src/pheasant/job_snapshots.py),
  * with ids created again at any time, as the queue drainer does at each sync of a source. */
module SnapshotRuns {
  import opened JobSnapshots
  import opened Options
  import opened SnapshotProtocol

  // ----- a live job -----

  /** The job's id has a snapshot that says running and is no older than the job's own last write. */
  ghost predicate Shown(s: State, job: nat) {
    && job in s.jobs && s.jobs[job].id in s.dir && s.jobs[job].lastWrite.Some?
    && s.dir[s.jobs[job].id].file.payload.active
    && s.dir[s.jobs[job].id].file.written >= s.jobs[job].lastWrite.value
  }

  /** Something begun that would end or remove a snapshot of this id: a removal, a reap, or a publish of
    * a job that has ended, rendered or still to be. */
  ghost predicate Hostile(s: State, t: Task, id: string) {
    && Id(t.action) == id
    && match t.action
       case Call(job, _) => job in s.jobs && s.jobs[job].status != Running
       case Publish(_, p) => !p.active
       case Rewrite(_, _) => true
       case Unlink(_) => true
  }

  ghost predicate NoneHostile(s: State, id: string) {
    forall t :: t in s.pending ==> !Hostile(s, t, id)
  }

  /** A job of the id is finished. */
  ghost predicate Finishes(s: State, step: Step, id: string) {
    step.Finish? && step.job in s.jobs && s.jobs[step.job].id == id
  }

  ghost predicate StepsUnfinished(s: State, s': State, id: string) {
    exists step :: NextStep(s, s', step) && !Finishes(s, step, id)
  }

  /** A stretch in which the job stays live and is written in time, and no job of its id is finished. The id
    * may be created again, and other jobs, of other ids or of this one, may be late. */
  ghost predicate Stretch(more: seq<State>, job: nat, id: string) {
    && more != []
    && (forall i :: 0 <= i < |more| ==> Live(more[i], job) && OnTime(more[i], job))
    && (forall i :: 0 <= i < |more| - 1 ==> StepsUnfinished(more[i], more[i + 1], id))
  }

  ghost predicate StaysShown(s: State, job: nat, id: string) {
    forall more, i :: Stretch(more, job, id) && more[0] == s && 0 <= i < |more| ==> Shown(more[i], job)
  }

  lemma ShownReads(s: State, job: nat)
    requires Accounted(s) && Honest(s) && Live(s, job) && OnTime(s, job) && Shown(s, job)
    ensures Read(s.dir[s.jobs[job].id].file, s.now).active
    ensures Read(s.dir[s.jobs[job].id].file, s.now).status == Running
  {
    assert Truthful(s.jobs[s.dir[s.jobs[job].id].job], s.dir[s.jobs[job].id].file.payload);
    ReadExactly(s.dir[s.jobs[job].id].file, s.now);
  }

  lemma StatusKept(s: State, s': State, step: Step, job: nat)
    requires NextStep(s, s', step) && job in s.jobs && !(step.Finish? && step.job == job)
    ensures job in s'.jobs && s'.jobs[job].status == s.jobs[job].status && s'.jobs[job].id == s.jobs[job].id
  {
  }

  lemma NoHostileBegun(s: State, s': State, step: Step, job: nat, t: Task)
    requires Accounted(s) && OnTime(s, job) && Live(s, job) && NoneHostile(s, s.jobs[job].id)
    requires Shown(s, job) || s.jobs[job].id !in s.dir
    requires NextStep(s, s', step) && !Finishes(s, step, s.jobs[job].id) && t in s'.pending
    ensures !Hostile(s', t, s.jobs[job].id)
  {
    var id := s.jobs[job].id;
    if t in s.pending {
      assert !Hostile(s, t, id) && TaskAccounted(s, t);
      if t.action.Call? && Id(t.action) == id { StatusKept(s, s', step, t.action.job); }
    } else if step.Render? {
      assert !Hostile(s, step.task, id) && TaskAccounted(s, step.task);
    }
  }

  lemma StillShownByWrite(s: State, s': State, task: Task, again: bool, job: nat)
    requires Accounted(s) && Live(s, job) && Shown(s, job) && NextStep(s, s', Do(task, again))
    requires !Hostile(s, task, s.jobs[job].id)
    ensures Shown(s', job)
  {
    assert TaskAccounted(s, task);
  }

  lemma StillShown(s: State, s': State, step: Step, job: nat)
    requires Accounted(s) && Live(s, job) && Shown(s, job) && NoneHostile(s, s.jobs[job].id)
    requires NextStep(s, s', step) && Live(s', job)
    ensures Shown(s', job)
  {
    if step.Do? {
      assert !Hostile(s, step.task, s.jobs[job].id);
      StillShownByWrite(s, s', step.task, step.again, job);
    } else {
      assert s'.dir == s.dir;
      StepGrows(s, s', step);
    }
  }

  lemma {:induction false} StretchStaysShown(more: seq<State>, job: nat, id: string, i: nat)
    requires Stretch(more, job, id) && i < |more| && more[0].jobs[job].id == id
    requires Accounted(more[0]) && Shown(more[0], job) && NoneHostile(more[0], id)
    ensures Accounted(more[i]) && Shown(more[i], job) && NoneHostile(more[i], id) && more[i].jobs[job].id == id
  {
    if i > 0 {
      StretchStaysShown(more, job, id, i - 1);
      var step := QuietStep(more, job, id, i - 1);
      StepKeepsAccounted(more[i - 1], more[i], step);
      StillShown(more[i - 1], more[i], step, job);
      forall t | t in more[i].pending ensures !Hostile(more[i], t, id) {
        NoHostileBegun(more[i - 1], more[i], step, job, t);
      }
      StepGrows(more[i - 1], more[i], step);
    }
  }

  lemma QuietStep(more: seq<State>, job: nat, id: string, i: nat) returns (step: Step)
    requires Stretch(more, job, id) && i < |more| - 1
    ensures NextStep(more[i], more[i + 1], step) && !Finishes(more[i], step, id)
    ensures Live(more[i], job) && OnTime(more[i], job) && Live(more[i + 1], job)
  {
    assert StepsUnfinished(more[i], more[i + 1], id);
    step :| NextStep(more[i], more[i + 1], step) && !Finishes(more[i], step, id);
  }

  /** A hostile task, done, ends or removes the snapshot at once; nothing else has to happen. */
  lemma DoneStrikes(s: State, job: nat, t: Task) returns (more: seq<State>)
    requires Accounted(s) && Honest(s) && Live(s, job) && OnTime(s, job)
    requires t in s.pending && !t.action.Call? && Hostile(s, t, s.jobs[job].id)
    ensures Stretch(more, job, s.jobs[job].id) && more[0] == s && !Shown(more[|more| - 1], job)
  {
    assert TaskAccounted(s, t) && HonestTask(s, t);
    var s' := Effect(s, t).(pending := s.pending - {t});
    assert NextStep(s, s', Do(t, false));
    assert StepsUnfinished(s, s', s.jobs[job].id);
    more := [s, s'];
  }

  lemma CallStrikes(s: State, job: nat, t: Task) returns (more: seq<State>)
    requires Accounted(s) && Honest(s) && Live(s, job) && OnTime(s, job)
    requires t in s.pending && t.action.Call? && Hostile(s, t, s.jobs[job].id)
    ensures Stretch(more, job, s.jobs[job].id) && more[0] == s && !Shown(more[|more| - 1], job)
  {
    assert TaskAccounted(s, t);
    var ended := s.jobs[t.action.job];
    var p := Payload(ended.id, ended.status, false, 0.0, []);
    var publish := Task(t.process, Publish(t.action.job, p));
    var s1 := s.(pending := s.pending - {t} + {publish});
    assert NextStep(s, s1, Render(t, p, false));
    StepKeepsAccounted(s, s1, Render(t, p, false));
    StepKeepsHonest(s, s1, Render(t, p, false));
    var rest := DoneStrikes(s1, job, publish);
    assert StepsUnfinished(s, s1, s.jobs[job].id);
    more := [s] + rest;
    StretchFrom(s, rest, job, s.jobs[job].id);
  }

  lemma StretchFrom(s: State, rest: seq<State>, job: nat, id: string)
    requires Stretch(rest, job, id) && StepsUnfinished(s, rest[0], id) && Live(s, job) && OnTime(s, job)
    ensures Stretch([s] + rest, job, id)
  {
    var more := [s] + rest;
    forall i | 0 <= i < |more| ensures Live(more[i], job) && OnTime(more[i], job) {
      if i > 0 { assert more[i] == rest[i - 1]; }
    }
    forall i | 0 <= i < |more| - 1 ensures StepsUnfinished(more[i], more[i + 1], id) {
      if i > 0 { assert StepsUnfinished(rest[i - 1], rest[i - 1 + 1], id); }
    }
  }

  /** From the moment a live job's snapshot stands, it stands for as long as that job runs and is written in
    * time and no job of its id is finished, whatever becomes of other jobs and however often the id is
    * created again, exactly when nothing hostile to the id is still begun: no removal, no reap, no publish
    * of an older job of the id that ended. */
  lemma LiveSnapshotStaysExactly(run: seq<State>, n: nat, job: nat)
    requires Run(run) && n < |run| && Live(run[n], job) && OnTime(run[n], job) && Shown(run[n], job)
    ensures StaysShown(run[n], job, run[n].jobs[job].id) <==> NoneHostile(run[n], run[n].jobs[job].id)
  {
    var s, id := run[n], run[n].jobs[job].id;
    RunKeepsSettled(run, n);
    if NoneHostile(s, id) {
      forall more, i | Stretch(more, job, id) && more[0] == s && 0 <= i < |more| ensures Shown(more[i], job) {
        StretchStaysShown(more, job, id, i);
      }
    } else {
      var t :| t in s.pending && Hostile(s, t, id);
      var more := Strikes(s, job, t);
      assert !Shown(more[|more| - 1], job);
    }
  }

  lemma Strikes(s: State, job: nat, t: Task) returns (more: seq<State>)
    requires Accounted(s) && Honest(s) && Live(s, job) && OnTime(s, job)
    requires t in s.pending && Hostile(s, t, s.jobs[job].id)
    ensures Stretch(more, job, s.jobs[job].id) && more[0] == s && !Shown(more[|more| - 1], job)
  {
    if t.action.Call? { more := CallStrikes(s, job, t); } else { more := DoneStrikes(s, job, t); }
  }

  // ----- a job whose id was never used before -----

  /** No other job has its id. */
  ghost predicate Sole(s: State, job: nat)
    requires job in s.jobs
  {
    forall other :: other in s.jobs && other != job ==> s.jobs[other].id != s.jobs[job].id
  }

  ghost predicate Protected(s: State, job: nat)
    requires job in s.jobs
  {
    && NoneHostile(s, s.jobs[job].id)
    && (s.jobs[job].lastWrite.None? ==> s.jobs[job].id !in s.dir)
    && (s.jobs[job].lastWrite.Some? ==> Shown(s, job))
  }

  lemma CreatedProtected(s: State, s': State, step: Step, job: nat)
    requires Accounted(s) && Accounted(s') && NextStep(s, s', step)
    requires job !in s.jobs && Live(s', job) && Sole(s', job)
    ensures Protected(s', job)
  {
    StepGrows(s, s', step);
    var id := s'.jobs[job].id;
    assert id in s.dir ==> FileAccounted(s, id);
    forall t | t in s'.pending ensures !Hostile(s', t, id) {
      assert t in s.pending ==> TaskAccounted(s, t);
    }
  }

  lemma SoleStaysProtected(s: State, s': State, step: Step, job: nat)
    requires Accounted(s) && Honest(s) && OnTime(s, job) && NextStep(s, s', step)
    requires job in s.jobs && Live(s', job) && Sole(s', job) && Protected(s, job)
    ensures Protected(s', job)
  {
    StepGrows(s, s', step);
    var id := s.jobs[job].id;
    assert Live(s, job) && !Finishes(s, step, id);
    forall t | t in s'.pending ensures !Hostile(s', t, id) { NoHostileBegun(s, s', step, job, t); }
    if s.jobs[job].lastWrite.Some? {
      StillShown(s, s', step, job);
    } else {
      FirstShown(s, s', step, job);
    }
  }

  lemma FirstShown(s: State, s': State, step: Step, job: nat)
    requires Accounted(s) && NextStep(s, s', step) && Live(s', job)
    requires job in s.jobs && Sole(s, job) && NoneHostile(s, s.jobs[job].id)
    requires s.jobs[job].lastWrite.None? && s.jobs[job].id !in s.dir
    ensures s'.jobs[job].lastWrite.None? ==> s.jobs[job].id !in s'.dir
    ensures s'.jobs[job].lastWrite.Some? ==> Shown(s', job)
  {
    StepGrows(s, s', step);
    if step.Do? {
      assert TaskAccounted(s, step.task) && !Hostile(s, step.task, s.jobs[job].id);
    }
  }

  lemma SoleBefore(s: State, s': State, step: Step, job: nat)
    requires NextStep(s, s', step) && job in s.jobs && Live(s', job) && Sole(s', job)
    ensures Live(s, job) && Sole(s, job)
  {
    StepGrows(s, s', step);
  }

  lemma SoleStep(s: State, s': State, step: Step, job: nat)
    requires Accounted(s) && Honest(s) && Accounted(s') && OnTime(s, job) && NextStep(s, s', step)
    requires Live(s', job) && Sole(s', job) && (job in s.jobs ==> Protected(s, job))
    ensures Protected(s', job)
  {
    if job in s.jobs {
      SoleStaysProtected(s, s', step, job);
    } else {
      CreatedProtected(s, s', step, job);
    }
  }

  lemma {:induction false} SoleIsProtected(run: seq<State>, i: nat, job: nat)
    requires Run(run) && i < |run| && forall k :: 0 <= k <= i ==> OnTime(run[k], job)
    requires Live(run[i], job) && Sole(run[i], job)
    ensures Protected(run[i], job)
  {
    if i > 0 {
      var step := StepTaken(run, i - 1);
      RunKeepsSettled(run, i - 1);
      StepKeepsAccounted(run[i - 1], run[i], step);
      if job in run[i - 1].jobs {
        SoleBefore(run[i - 1], run[i], step, job);
        SoleIsProtected(run, i - 1, job);
      }
      SoleStep(run[i - 1], run[i], step, job);
    }
  }

  /** While its process rewrites its snapshot in time, whatever other processes do or fail to do, a published
    * live job whose id no other job has is in the directory at every moment and every reader in every
    * process sees it running: no read reports it interrupted, and no clear, eviction or reap, however long
    * after the read it rests on, removes or fails it. */
  lemma LiveJobStaysRunning(run: seq<State>, i: nat, job: nat)
    requires Run(run) && i < |run| && forall k :: 0 <= k <= i ==> OnTime(run[k], job)
    requires Live(run[i], job) && run[i].jobs[job].lastWrite.Some? && Sole(run[i], job)
    ensures var s, id := run[i], run[i].jobs[job].id;
      id in s.dir && Read(s.dir[id].file, s.now).active && Read(s.dir[id].file, s.now).status == Running
  {
    SoleIsProtected(run, i, job);
    RunKeepsSettled(run, i);
    ShownReads(run[i], job);
  }

  // ----- an ended snapshot -----

  /** The id's snapshot, if there is one, says its job has ended. */
  ghost predicate SaysEnded(s: State, id: string) {
    id in s.dir ==> !s.dir[id].file.payload.active
  }

  /** A job that can still be rendered while it runs. */
  ghost predicate StillRenders(s: State, job: nat) {
    && job in s.jobs && s.jobs[job].status == Running && s.jobs[job].owner !in s.dead
    && (s.jobs[job].listed || CallOf(s, job) in s.pending)
  }

  /** A publish of this id that says running, rendered and not yet written. */
  ghost predicate ActivePublish(t: Task, id: string) {
    t.action.Publish? && t.action.payload.id == id && t.action.payload.active
  }

  ghost predicate CanSayRunning(s: State, id: string) {
    || (exists job :: StillRenders(s, job) && s.jobs[job].id == id)
    || (exists t :: t in s.pending && ActivePublish(t, id))
  }

  ghost predicate StepsUncreated(s: State, s': State, id: string) {
    exists step :: NextStep(s, s', step) && !(step.Create? && step.id == id)
  }

  /** A stretch in which the id is not created again. */
  ghost predicate Uncreated(more: seq<State>, id: string) {
    more != [] && forall i :: 0 <= i < |more| - 1 ==> StepsUncreated(more[i], more[i + 1], id)
  }

  ghost predicate StaysEnded(s: State, id: string) {
    forall more, i :: Uncreated(more, id) && more[0] == s && 0 <= i < |more| ==> SaysEnded(more[i], id)
  }

  lemma NoRenderBegun(s: State, s': State, step: Step, id: string, job: nat)
    requires Accounted(s) && !CanSayRunning(s, id)
    requires NextStep(s, s', step) && !(step.Create? && step.id == id)
    requires StillRenders(s', job)
    ensures s'.jobs[job].id != id
  {
    StepGrows(s, s', step);
    assert job in s.jobs && s.jobs[job].id == id ==> !StillRenders(s, job);
  }

  lemma NoActiveBegun(s: State, s': State, step: Step, id: string, t: Task)
    requires Accounted(s) && !CanSayRunning(s, id)
    requires NextStep(s, s', step) && t in s'.pending
    ensures !ActivePublish(t, id)
  {
    if t in s.pending {
      assert !ActivePublish(t, id);
    } else if step.Render? {
      var job := step.task.action.job;
      assert TaskAccounted(s, step.task);
      assert StillRenders(s, job) ==> s.jobs[job].id != id;
    }
  }

  lemma StillSaysEnded(s: State, s': State, step: Step, id: string)
    requires Accounted(s) && Honest(s) && !CanSayRunning(s, id) && SaysEnded(s, id) && NextStep(s, s', step)
    ensures SaysEnded(s', id)
  {
    if id in s'.dir && !(id in s.dir && s'.dir[id] == s.dir[id]) {
      var task := FileWritten(s, s', step, id);
      assert HonestTask(s, task) && !ActivePublish(task, id);
    }
  }

  lemma {:induction false} UncreatedStaysEnded(more: seq<State>, id: string, i: nat)
    requires Uncreated(more, id) && i < |more|
    requires Accounted(more[0]) && Honest(more[0]) && SaysEnded(more[0], id) && !CanSayRunning(more[0], id)
    ensures Accounted(more[i]) && Honest(more[i]) && SaysEnded(more[i], id) && !CanSayRunning(more[i], id)
  {
    if i > 0 {
      UncreatedStaysEnded(more, id, i - 1);
      var s, s' := more[i - 1], more[i];
      var step := UncreatedStep(more, id, i - 1);
      StepKeepsAccounted(s, s', step);
      StepKeepsHonest(s, s', step);
      StillSaysEnded(s, s', step, id);
      forall job | StillRenders(s', job) ensures s'.jobs[job].id != id { NoRenderBegun(s, s', step, id, job); }
      forall t | t in s'.pending ensures !ActivePublish(t, id) { NoActiveBegun(s, s', step, id, t); }
    }
  }

  lemma UncreatedStep(more: seq<State>, id: string, i: nat) returns (step: Step)
    requires Uncreated(more, id) && i < |more| - 1
    ensures NextStep(more[i], more[i + 1], step) && !(step.Create? && step.id == id)
  {
    assert StepsUncreated(more[i], more[i + 1], id);
    step :| NextStep(more[i], more[i + 1], step) && !(step.Create? && step.id == id);
  }

  lemma UncreatedFrom(s: State, rest: seq<State>, id: string)
    requires Uncreated(rest, id) && StepsUncreated(s, rest[0], id)
    ensures Uncreated([s] + rest, id)
  {
    var more := [s] + rest;
    forall i | 0 <= i < |more| - 1 ensures StepsUncreated(more[i], more[i + 1], id) {
      if i > 0 { assert StepsUncreated(rest[i - 1], rest[i - 1 + 1], id); }
    }
  }

  lemma PublishRunsAgain(s: State, id: string, t: Task) returns (more: seq<State>)
    requires t in s.pending && ActivePublish(t, id)
    ensures Uncreated(more, id) && more[0] == s && !SaysEnded(more[|more| - 1], id)
  {
    var s' := Effect(s, t).(pending := s.pending - {t});
    assert NextStep(s, s', Do(t, false));
    assert StepsUncreated(s, s', id);
    more := [s, s'];
  }

  lemma CallRunsAgain(s: State, job: nat) returns (more: seq<State>)
    requires job in s.jobs && s.jobs[job].status == Running && CallOf(s, job) in s.pending
    ensures Uncreated(more, s.jobs[job].id) && more[0] == s && !SaysEnded(more[|more| - 1], s.jobs[job].id)
  {
    var id, t := s.jobs[job].id, CallOf(s, job);
    var p := Payload(id, Running, true, 0.0, []);
    var publish := Task(t.process, Publish(job, p));
    var s1 := s.(pending := s.pending - {t} + {publish});
    assert NextStep(s, s1, Render(t, p, false));
    assert StepsUncreated(s, s1, id);
    var rest := PublishRunsAgain(s1, id, publish);
    UncreatedFrom(s, rest, id);
    more := [s] + rest;
  }

  lemma JobRunsAgain(s: State, job: nat) returns (more: seq<State>)
    requires StillRenders(s, job)
    ensures Uncreated(more, s.jobs[job].id) && more[0] == s && !SaysEnded(more[|more| - 1], s.jobs[job].id)
  {
    if CallOf(s, job) in s.pending {
      more := CallRunsAgain(s, job);
    } else {
      var s1 := s.(pending := s.pending + {CallOf(s, job)});
      assert NextStep(s, s1, Touch(job));
      assert StepsUncreated(s, s1, s.jobs[job].id);
      var rest := CallRunsAgain(s1, job);
      UncreatedFrom(s, rest, s.jobs[job].id);
      more := [s] + rest;
    }
  }

  /** An ended snapshot stays ended until its id is created again exactly when no job of the id in a
    * living process still renders as running, and no publish rendered while one ran is still to be
    * written. */
  lemma EndedStaysExactly(run: seq<State>, n: nat, id: string)
    requires Run(run) && n < |run| && SaysEnded(run[n], id)
    ensures StaysEnded(run[n], id) <==> !CanSayRunning(run[n], id)
  {
    var s := run[n];
    RunKeepsSettled(run, n);
    if CanSayRunning(s, id) {
      var more := RunsAgain(s, id);
      assert !SaysEnded(more[|more| - 1], id);
    } else {
      forall more, i | Uncreated(more, id) && more[0] == s && 0 <= i < |more| ensures SaysEnded(more[i], id) {
        UncreatedStaysEnded(more, id, i);
      }
    }
  }

  lemma RunsAgain(s: State, id: string) returns (more: seq<State>)
    requires CanSayRunning(s, id)
    ensures Uncreated(more, id) && more[0] == s && !SaysEnded(more[|more| - 1], id)
  {
    if job :| StillRenders(s, job) && s.jobs[job].id == id {
      more := JobRunsAgain(s, job);
    } else {
      var t :| t in s.pending && ActivePublish(t, id);
      more := PublishRunsAgain(s, id, t);
    }
  }

  /** Every job of the id was in a process that is now dead. */
  ghost predicate AllDead(s: State, id: string) {
    forall job :: job in s.jobs && s.jobs[job].id == id ==> s.jobs[job].owner in s.dead
  }

  lemma DeadSayNothing(s: State, id: string)
    requires Accounted(s) && AllDead(s, id)
    ensures !CanSayRunning(s, id)
  {
    forall t | t in s.pending ensures !ActivePublish(t, id) { assert TaskAccounted(s, t); }
  }

  /** So the snapshot of an id whose processes are all dead, once it says ended, does so until the id is
    * created again. */
  lemma DeadStaysEnded(run: seq<State>, n: nat, id: string)
    requires Run(run) && n < |run| && SaysEnded(run[n], id) && AllDead(run[n], id)
    ensures StaysEnded(run[n], id)
  {
    EndedStaysExactly(run, n, id);
    RunKeepsSettled(run, n);
    DeadSayNothing(run[n], id);
  }

  lemma RewriteEnds(s: State, s': State, task: Task, again: bool)
    requires Accounted(s) && Honest(s) && NextStep(s, s', Do(task, again)) && task.action.Rewrite?
    ensures Id(task.action) in s'.dir && SaysEnded(s', Id(task.action))
  {
    assert HonestTask(s, task);
  }

  /** A reap makes the death permanent: when the processes of all jobs of an id are dead and a rewrite of its
    * snapshot is done, whenever it was decided on, the snapshot is there and says ended, and says so in every
    * later state until the id is created again. */
  lemma ReapIsPermanent(run: seq<State>, n: nat, task: Task, again: bool)
    requires Run(run) && n < |run| - 1 && NextStep(run[n], run[n + 1], Do(task, again))
    requires task.action.Rewrite? && AllDead(run[n], Id(task.action))
    ensures Id(task.action) in run[n + 1].dir && StaysEnded(run[n + 1], Id(task.action))
  {
    var id := Id(task.action);
    RunKeepsSettled(run, n);
    RewriteEnds(run[n], run[n + 1], task, again);
    StepGrows(run[n], run[n + 1], Do(task, again));
    DeadStaysEnded(run, n + 1, id);
  }

  lemma RunGoesOn(run: seq<State>, s: State)
    requires Run(run) && Next(run[|run| - 1], s)
    ensures Run(run + [s])
  {
    var more := run + [s];
    forall i | 0 <= i < |more| - 1 ensures Next(more[i], more[i + 1]) {
      if i < |run| - 1 { assert Next(run[i], run[i + 1]); }
    }
  }

  /** Once the process of the job that was rendered into a snapshot is dead, and that job never finished,
    * every read of it more than 150 seconds later says failed, whatever others did to it in between. */
  lemma DeadJobReadsFailed(run: seq<State>, i: nat, id: string)
    requires Run(run) && i < |run| && id in run[i].dir
    requires var s, job := run[i], run[i].dir[id].job;
      && job in s.jobs && s.jobs[job].status == Running && s.jobs[job].owner in s.dead
      && s.now > s.dead[s.jobs[job].owner] + STALE_SECONDS
    ensures !Read(run[i].dir[id].file, run[i].now).active && Read(run[i].dir[id].file, run[i].now).status == Failed
  {
    RunKeepsSettled(run, i);
    assert Settled(run[i], id);
    assert Truthful(run[i].jobs[run[i].dir[id].job], run[i].dir[id].file.payload);
    ReadExactly(run[i].dir[id].file, run[i].now);
  }

  /** A reap of it is open to every living process: more than 150 seconds after the death of the process whose
    * running snapshot it is, one that reads the directory decides on the rewrite and does it, and when no
    * job of the id is in a living process that settles the matter. */
  lemma DeadJobCanBeReaped(run: seq<State>, id: string, process: nat) returns (decided: State, done: State)
    requires Run(run) && id in run[|run| - 1].dir && run[|run| - 1].dir[id].file.payload.active
    requires var s := run[|run| - 1]; var job := s.dir[id].job;
      && AllDead(s, id) && process !in s.dead
      && job in s.jobs && s.jobs[job].owner in s.dead && s.now > s.dead[s.jobs[job].owner] + STALE_SECONDS
    ensures NextStep(run[|run| - 1], decided, DecideRewrite(process, id)) && Next(decided, done)
    ensures id in done.dir && Read(done.dir[id].file, done.now).status == Failed && StaysEnded(done, id)
  {
    var s := run[|run| - 1];
    RunKeepsSettled(run, |run| - 1);
    assert Settled(s, id) && FileAccounted(s, id);
    ReadExactly(s.dir[id].file, s.now);
    var task := Task(process, Rewrite(s.dir[id].job, Read(s.dir[id].file, s.now)));
    decided := s.(pending := s.pending + {task});
    assert NextStep(s, decided, DecideRewrite(process, id));
    RunGoesOn(run, decided);
    done := Effect(decided, task).(pending := decided.pending - {task});
    assert NextStep(decided, done, Do(task, false));
    RunGoesOn(run + [decided], done);
    ReapIsPermanent(run + [decided] + [done], |run|, task, false);
  }

  // ----- how a finished job reads -----

  /** A reader of the id's snapshot, if there is one, is told this status. */
  ghost predicate ReadsAs(s: State, id: string, status: Status) {
    id in s.dir ==> Read(s.dir[id].file, s.now).status == status
  }

  /** The id's snapshot, if there is one, says it ended so. */
  ghost predicate SaysOutcome(s: State, id: string, status: Status) {
    && status != Running
    && (id in s.dir ==> !s.dir[id].file.payload.active && s.dir[id].file.payload.status == status)
  }

  /** Something begun and still to be written that says otherwise: rendered, read by a reap, or to be
    * rendered from a job that stands otherwise. */
  ghost predicate Contradicts(s: State, t: Task, id: string, status: Status) {
    && Id(t.action) == id
    && match t.action
       case Call(job, _) => job in s.jobs && s.jobs[job].status != status
       case Publish(_, p) => p.status != status
       case Rewrite(_, p) => p.status != status
       case Unlink(_) => false
  }

  ghost predicate CanSayOtherwise(s: State, id: string, status: Status) {
    || (exists job :: StillRenders(s, job) && s.jobs[job].id == id)
    || (exists t :: t in s.pending && Contradicts(s, t, id, status))
  }

  /** The id is created again, or a job of that id is finished. */
  ghost predicate Disturbs(s: State, step: Step, id: string) {
    (step.Create? && step.id == id) || Finishes(s, step, id)
  }

  ghost predicate StepsQuietly(s: State, s': State, id: string) {
    exists step :: NextStep(s, s', step) && !Disturbs(s, step, id)
  }

  ghost predicate Quiet(more: seq<State>, id: string) {
    more != [] && forall i :: 0 <= i < |more| - 1 ==> StepsQuietly(more[i], more[i + 1], id)
  }

  ghost predicate KeepsOutcome(s: State, id: string, status: Status) {
    forall more, i :: Quiet(more, id) && more[0] == s && 0 <= i < |more| ==> ReadsAs(more[i], id, status)
  }

  ghost predicate Concluded(s: State, id: string, status: Status) {
    SaysOutcome(s, id, status) && !CanSayOtherwise(s, id, status)
  }

  lemma ConcludedSaysNoRunning(s: State, id: string, status: Status)
    requires Accounted(s) && Honest(s) && Concluded(s, id, status)
    ensures !CanSayRunning(s, id)
  {
    forall t | t in s.pending ensures !ActivePublish(t, id) {
      assert HonestTask(s, t) && !Contradicts(s, t, id, status);
    }
  }

  lemma NoContradictionBegun(s: State, s': State, step: Step, id: string, status: Status, t: Task)
    requires Accounted(s) && Concluded(s, id, status)
    requires NextStep(s, s', step) && !Disturbs(s, step, id) && t in s'.pending
    ensures !Contradicts(s', t, id, status)
  {
    if t in s.pending {
      assert TaskAccounted(s, t) && !Contradicts(s, t, id, status);
      if t.action.Call? && Id(t.action) == id { StatusKept(s, s', step, t.action.job); }
    } else if step.Render? {
      assert TaskAccounted(s, step.task) && !Contradicts(s, step.task, id, status);
    } else if step.DecideRewrite? {
      assert FileAccounted(s, step.id);
    } else if step.Touch? {
      assert StillRenders(s, step.job);
    }
  }

  lemma OutcomeStays(s: State, s': State, step: Step, id: string, status: Status)
    requires Accounted(s) && Honest(s) && Concluded(s, id, status) && NextStep(s, s', step)
    ensures SaysOutcome(s', id, status)
  {
    if id in s'.dir && !(id in s.dir && s'.dir[id] == s.dir[id]) {
      var task := FileWritten(s, s', step, id);
      assert HonestTask(s, task) && !Contradicts(s, task, id, status);
    }
  }

  lemma StepKeepsConcluded(s: State, s': State, step: Step, id: string, status: Status)
    requires Accounted(s) && Honest(s) && Concluded(s, id, status)
    requires NextStep(s, s', step) && !Disturbs(s, step, id)
    ensures Concluded(s', id, status)
  {
    ConcludedSaysNoRunning(s, id, status);
    forall job | StillRenders(s', job) ensures s'.jobs[job].id != id { NoRenderBegun(s, s', step, id, job); }
    forall t | t in s'.pending ensures !Contradicts(s', t, id, status) {
      NoContradictionBegun(s, s', step, id, status, t);
    }
    OutcomeStays(s, s', step, id, status);
  }

  lemma {:induction false} QuietStaysConcluded(more: seq<State>, id: string, status: Status, i: nat)
    requires Quiet(more, id) && i < |more|
    requires Accounted(more[0]) && Honest(more[0]) && Concluded(more[0], id, status)
    ensures Accounted(more[i]) && Honest(more[i]) && Concluded(more[i], id, status)
  {
    if i > 0 {
      QuietStaysConcluded(more, id, status, i - 1);
      var s, s' := more[i - 1], more[i];
      assert StepsQuietly(s, more[i - 1 + 1], id);
      var step :| NextStep(s, s', step) && !Disturbs(s, step, id);
      StepKeepsAccounted(s, s', step);
      StepKeepsHonest(s, s', step);
      StepKeepsConcluded(s, s', step, id, status);
    }
  }

  /** Done, it is what a reader is told. */
  lemma WriteContradicts(s: State, id: string, status: Status, t: Task) returns (more: seq<State>)
    requires t in s.pending && Contradicts(s, t, id, status) && !t.action.Call?
    ensures Quiet(more, id) && more[0] == s && !ReadsAs(more[|more| - 1], id, status)
  {
    var s' := Effect(s, t).(pending := s.pending - {t});
    assert NextStep(s, s', Do(t, false));
    assert StepsQuietly(s, s', id);
    more := [s, s'];
  }

  lemma QuietFrom(s: State, rest: seq<State>, id: string)
    requires Quiet(rest, id) && StepsQuietly(s, rest[0], id)
    ensures Quiet([s] + rest, id) && ([s] + rest)[|rest|] == rest[|rest| - 1]
  {
    var more := [s] + rest;
    forall i | 0 <= i < |more| - 1 ensures StepsQuietly(more[i], more[i + 1], id) {
      if i > 0 { assert StepsQuietly(rest[i - 1], rest[i - 1 + 1], id); }
    }
  }

  lemma CallContradicts(s: State, id: string, status: Status, t: Task) returns (more: seq<State>)
    requires TaskAccounted(s, t) && t in s.pending && Contradicts(s, t, id, status) && t.action.Call?
    ensures Quiet(more, id) && more[0] == s && !ReadsAs(more[|more| - 1], id, status)
  {
    var job := s.jobs[t.action.job];
    var p := Payload(id, job.status, job.status == Running, 0.0, []);
    var publish := Task(t.process, Publish(t.action.job, p));
    var s1 := s.(pending := s.pending - {t} + {publish});
    assert NextStep(s, s1, Render(t, p, false));
    assert StepsQuietly(s, s1, id);
    var rest := WriteContradicts(s1, id, status, publish);
    QuietFrom(s, rest, id);
    more := [s] + rest;
  }

  lemma RunningContradicts(s: State, status: Status, job: nat) returns (more: seq<State>)
    requires StillRenders(s, job) && status != Running
    ensures Quiet(more, s.jobs[job].id) && more[0] == s && !ReadsAs(more[|more| - 1], s.jobs[job].id, status)
  {
    var id, t := s.jobs[job].id, CallOf(s, job);
    if t in s.pending {
      more := CallContradicts(s, id, status, t);
    } else {
      var s1 := s.(pending := s.pending + {t});
      assert NextStep(s, s1, Touch(job));
      assert StepsQuietly(s, s1, id);
      var rest := CallContradicts(s1, id, status, t);
      QuietFrom(s, rest, id);
      more := [s] + rest;
    }
  }

  lemma SaysOtherwise(s: State, id: string, status: Status) returns (more: seq<State>)
    requires Accounted(s) && status != Running && CanSayOtherwise(s, id, status)
    ensures Quiet(more, id) && more[0] == s && !ReadsAs(more[|more| - 1], id, status)
  {
    if job :| StillRenders(s, job) && s.jobs[job].id == id {
      more := RunningContradicts(s, status, job);
    } else {
      var t :| t in s.pending && Contradicts(s, t, id, status);
      assert TaskAccounted(s, t);
      if t.action.Call? {
        more := CallContradicts(s, id, status, t);
      } else {
        more := WriteContradicts(s, id, status, t);
      }
    }
  }

  /** Once the snapshot of an id says how a job ended, every later read says the same, until the id is
    * created or finished again, exactly when no job of the id that runs can still be rendered and nothing
    * begun before is still to be written that says otherwise: no publish rendered under the lock while the
    * job ran or of a job that ended otherwise, and no reap's rewrite. */
  lemma FinishedKeepsOutcomeExactly(run: seq<State>, n: nat, id: string, status: Status)
    requires Run(run) && n < |run| && SaysOutcome(run[n], id, status)
    ensures KeepsOutcome(run[n], id, status) <==> !CanSayOtherwise(run[n], id, status)
  {
    var s := run[n];
    RunKeepsSettled(run, n);
    if CanSayOtherwise(s, id, status) {
      var more := SaysOtherwise(s, id, status);
      assert !ReadsAs(more[|more| - 1], id, status);
    } else {
      forall more, i | Quiet(more, id) && more[0] == s && 0 <= i < |more| ensures ReadsAs(more[i], id, status) {
        QuietStaysConcluded(more, id, status, i);
      }
    }
  }

  // ----- runs in which it goes wrong -----

  ghost predicate TimelyRun(run: seq<State>) {
    Run(run) && forall k :: 0 <= k < |run| ==> Timely(run[k])
  }

  /** A state some run with timely rewrites reaches. */
  ghost predicate Reachable(s: State) { exists run :: TimelyRun(run) && run[|run| - 1] == s }

  lemma ReachStep(s: State, s': State, step: Step)
    requires Reachable(s) && NextStep(s, s', step) && Timely(s')
    ensures Reachable(s')
  {
    var run :| TimelyRun(run) && run[|run| - 1] == s;
    var more := run + [s'];
    assert Next(s, s');
    forall i | 0 <= i < |more| - 1 ensures Next(more[i], more[i + 1]) {
      if i < |run| - 1 { assert Next(run[i], run[i + 1]); }
    }
    assert more[|more| - 1] == s';
  }

  lemma Begins() returns (s: State)
    ensures Reachable(s) && s == State(0.0, map[], map[], map[], {})
  {
    s := State(0.0, map[], map[], map[], {});
    assert TimelyRun([s]);
  }

  function RunningPayload(id: string): Payload { Payload(id, Running, true, 0.0, []) }
  function DonePayload(id: string): Payload { Payload(id, Succeeded, false, 0.0, []) }

  /** A job is created, and its first publish rendered. */
  lemma FirstRender(id: string) returns (s: State)
    ensures Reachable(s)
    ensures s == State(0.0, map[], map[0 := Job(1, id, Running, true, None)], map[],
      {Task(1, Publish(0, RunningPayload(id)))})
  {
    var s0 := Begins();
    var call := Task(1, Call(0, id));
    var s1 := s0.(jobs := map[0 := Job(1, id, Running, true, None)], pending := {call});
    assert Unlisted(s0.jobs, 1, id) == map[];
    ReachStep(s0, s1, Create(1, id, 0));
    s := s1.(pending := {Task(1, Publish(0, RunningPayload(id)))});
    assert {call} - {call} == {};
    ReachStep(s1, s, Render(call, RunningPayload(id), false));
  }

  /** A process publishes its running job and dies, and 151 seconds pass: every reader is told it failed, and
    * the reap of it is open to any other process. */
  lemma DyingJobReadsFailed(id: string) returns (s: State)
    ensures Reachable(s) && id in s.dir && s.dir[id].file.payload.active && AllDead(s, id)
    ensures 1 in s.dead && 2 !in s.dead
    ensures s.dir[id].job in s.jobs && s.jobs[s.dir[id].job].status == Running
    ensures Read(s.dir[id].file, s.now).status == Failed
  {
    var s2 := FirstRender(id);
    var publish := Task(1, Publish(0, RunningPayload(id)));
    var s3 := Effect(s2, publish).(pending := {});
    assert {publish} - {publish} == {};
    ReachStep(s2, s3, Do(publish, false));
    var s4 := s3.(dead := map[1 := 0.0], pending := {});
    assert (set t | t in s3.pending && t.process != 1) == {};
    ReachStep(s3, s4, Die(1));
    s := s4.(now := 151.0);
    ReachStep(s4, s, Tick(151.0));
  }

  /** It finishes before that publish is written, and its last publish is rendered too. */
  lemma CrossingPublishes(id: string) returns (s: State)
    ensures Reachable(s)
    ensures s == State(0.0, map[], map[0 := Job(1, id, Succeeded, true, None)], map[],
      {Task(1, Publish(0, RunningPayload(id))), Task(1, Publish(0, DonePayload(id)))})
  {
    var s2 := FirstRender(id);
    var early, late := Task(1, Publish(0, RunningPayload(id))), Task(1, Publish(0, DonePayload(id)));
    var call := Task(1, Call(0, id));
    var s3 := s2.(jobs := map[0 := Job(1, id, Succeeded, true, None)], pending := {early, call});
    ReachStep(s2, s3, Finish(0, Succeeded));
    s := s3.(pending := {early, late});
    assert {early, call} - {call} == {early};
    ReachStep(s3, s, Render(call, DonePayload(id), false));
  }

  /** Publishing renders under the lock and writes after releasing it: the two cross, the older one lands
    * last, and a job that succeeded in a process that still lives reads as failed 151 seconds on, every
    * gap respected. */
  lemma SucceededJobCanReadFailed(id: string) returns (s: State)
    ensures Reachable(s)
    ensures 0 in s.jobs && s.jobs[0].id == id && s.jobs[0].status == Succeeded && s.jobs[0].owner !in s.dead
    ensures id in s.dir && s.dir[id].job == 0 && Read(s.dir[id].file, s.now).status == Failed
  {
    var early, late := Task(1, Publish(0, RunningPayload(id))), Task(1, Publish(0, DonePayload(id)));
    var s4 := CrossingPublishes(id);
    var s5 := Effect(s4, late).(pending := {early});
    assert {early, late} - {late} == {early};
    ReachStep(s4, s5, Do(late, false));
    var s6 := Effect(s5, early).(pending := {});
    ReachStep(s5, s6, Do(early, false));
    s := s6.(now := 151.0);
    ReachStep(s6, s, Tick(151.0));
  }

  /** A job that succeeded, and its snapshot written. */
  lemma FinishedAndWritten(id: string) returns (s: State)
    ensures Reachable(s)
    ensures s == State(0.0, map[id := Snapshot(File(DonePayload(id), 0.0), 0)],
      map[0 := Job(1, id, Succeeded, true, Some(0.0))], map[], {})
  {
    var early, late := Task(1, Publish(0, RunningPayload(id))), Task(1, Publish(0, DonePayload(id)));
    var s4 := CrossingPublishes(id);
    var s5 := Effect(s4, early).(pending := {late});
    assert {early, late} - {early} == {late};
    ReachStep(s4, s5, Do(early, false));
    s := Effect(s5, late).(pending := {});
    ReachStep(s5, s, Do(late, false));
  }

  function OlderJob(id: string): Job { Job(1, id, Succeeded, false, Some(0.0)) }

  /** Another process is about to clear it away when the id is created again. */
  lemma CreatedWhileClearing(id: string) returns (s: State)
    ensures Reachable(s)
    ensures s == State(0.0, map[id := Snapshot(File(DonePayload(id), 0.0), 0)],
      map[0 := OlderJob(id), 1 := Job(1, id, Running, true, None)], map[],
      {Task(2, Unlink(id)), Task(1, Call(1, id))})
  {
    var s6 := FinishedAndWritten(id);
    var s7 := s6.(pending := {Task(2, Unlink(id))});
    ReachStep(s6, s7, DecideUnlink(2, id));
    s := s7.(jobs := map[0 := OlderJob(id), 1 := Job(1, id, Running, true, None)],
             pending := {Task(2, Unlink(id)), Task(1, Call(1, id))});
    assert Unlisted(s7.jobs, 1, id) == map[0 := OlderJob(id)];
    ReachStep(s7, s, Create(1, id, 1));
  }

  /** Its running snapshot is published. */
  lemma CreatedAgainWhileClearing(id: string) returns (s: State)
    ensures Reachable(s)
    ensures s == State(0.0, map[id := Snapshot(File(RunningPayload(id), 0.0), 1)],
      map[0 := OlderJob(id), 1 := Job(1, id, Running, true, Some(0.0))], map[], {Task(2, Unlink(id))})
  {
    var unlink, call, publish := Task(2, Unlink(id)), Task(1, Call(1, id)), Task(1, Publish(1, RunningPayload(id)));
    var s8 := CreatedWhileClearing(id);
    var s9 := s8.(pending := {unlink, publish});
    assert {unlink, call} - {call} == {unlink};
    ReachStep(s8, s9, Render(call, RunningPayload(id), false));
    s := Effect(s9, publish).(pending := {unlink});
    assert {unlink, publish} - {publish} == {unlink};
    ReachStep(s9, s, Do(publish, false));
  }

  /** An id that is created again is not protected: the removal another process decided on when the older
    * job had ended takes away the snapshot of the job now running, every gap respected. */
  lemma RecreatedJobCanVanish(id: string) returns (s: State)
    ensures Reachable(s) && Live(s, 1) && s.jobs[1].id == id && s.jobs[1].lastWrite.Some? && id !in s.dir
  {
    var unlink := Task(2, Unlink(id));
    var s10 := CreatedAgainWhileClearing(id);
    s := Effect(s10, unlink).(pending := {});
    ReachStep(s10, s, Do(unlink, false));
  }

  /** And an ended id that is created again says running again: from any state, three steps of a living
    * process bring it about. */
  lemma CreationSaysRunning(s: State, process: nat, id: string, job: nat) returns (more: seq<State>)
    requires process !in s.dead && job !in s.jobs
    ensures |more| == 4 && more[0] == s && NextStep(s, more[1], Create(process, id, job))
    ensures Next(more[1], more[2]) && Next(more[2], more[3])
    ensures id in more[3].dir && Read(more[3].dir[id].file, more[3].now).status == Running
  {
    var call, publish := Task(process, Call(job, id)), Task(process, Publish(job, RunningPayload(id)));
    var s1 := s.(jobs := Unlisted(s.jobs, process, id)[job := Job(process, id, Running, true, None)],
                 pending := s.pending + {call});
    assert NextStep(s, s1, Create(process, id, job));
    var s2 := s1.(pending := s1.pending - {call} + {publish});
    assert NextStep(s1, s2, Render(call, RunningPayload(id), false));
    var s3 := Effect(s2, publish).(pending := s2.pending - {publish});
    assert NextStep(s2, s3, Do(publish, false));
    more := [s, s1, s2, s3];
  }
}
