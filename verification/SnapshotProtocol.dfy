/** Any number of processes publishing jobs into one directory of snapshots (src/pheasant/jobs.py, _publish
  * and _heartbeat, and src/pheasant/job_snapshots.py). A job id may be created again, in the same process
  * or another, while older snapshots, threads and even jobs of that id are still about. */
module SnapshotProtocol {
  import opened JobSnapshots
  import opened Options

  /** One call of `create`: the job it made, whether its process's table still lists it under its id, and
    * when it was last written. Jobs are numbered; ids are not unique. */
  datatype Job = Job(owner: nat, id: string, status: Status, listed: bool, lastWrite: Option<real>)

  /** What a thread has begun and not yet done. `_publish` is called on a job, renders it under the lock,
    * and writes what it rendered after releasing it; a rewrite or an unlink rests on an earlier read. */
  datatype Action =
    | Call(job: nat, id: string)
    | Publish(job: nat, payload: Payload)
    | Rewrite(job: nat, payload: Payload)
    | Unlink(id: string)

  datatype Task = Task(process: nat, action: Action)

  /** A file of the directory, and the job that was rendered into it. */
  datatype Snapshot = Snapshot(file: File, job: nat)

  datatype State = State(
    now: real,
    dir: map<string, Snapshot>,
    jobs: map<nat, Job>,
    dead: map<nat, real>,    // processes that died, and when
    pending: set<Task>)

  datatype Step =
    | Tick(seconds: real)
    | Create(process: nat, id: string, job: nat)
    | Touch(job: nat)                               // progress, finish_source, heartbeat
    | Finish(job: nat, status: Status)
    | Render(task: Task, payload: Payload, again: bool)
    | DecideUnlink(process: nat, id: string)        // clear_finished, and _evict after a write
    | DecideRewrite(process: nat, id: string)       // reap_stale
    | Do(task: Task, again: bool)                   // `again`: another thread holds the same task
    | Die(process: nat)

  ghost predicate Init(s: State) {
    s.dir == map[] && s.jobs == map[] && s.dead == map[] && s.pending == {}
  }

  function Id(action: Action): string {
    match action
    case Call(_, id) => id
    case Publish(_, p) => p.id
    case Rewrite(_, p) => p.id
    case Unlink(id) => id
  }

  /** The process's table gives the id to a new job: an older one there is listed no more. */
  function Unlisted(jobs: map<nat, Job>, process: nat, id: string): map<nat, Job> {
    map j | j in jobs ::
      if jobs[j].owner == process && jobs[j].id == id then jobs[j].(listed := false) else jobs[j]
  }

  function CallOf(s: State, job: nat): Task
    requires job in s.jobs
  {
    Task(s.jobs[job].owner, Call(job, s.jobs[job].id))
  }

  function Wrote(jobs: map<nat, Job>, job: nat, now: real): map<nat, Job> {
    if job in jobs then jobs[job := jobs[job].(lastWrite := Some(now))] else jobs
  }

  function Effect(s: State, task: Task): State
    requires !task.action.Call?
  {
    match task.action
    case Publish(job, p) =>
      s.(dir := s.dir[p.id := Snapshot(File(p, s.now), job)], jobs := Wrote(s.jobs, job, s.now))
    case Rewrite(job, p) => s.(dir := s.dir[p.id := Snapshot(File(p, s.now), job)])
    case Unlink(id) => s.(dir := s.dir - {id})
  }

  /** Listed by a process that lives: what `progress` and `finish` can reach. */
  ghost predicate Reached(s: State, job: nat) {
    job in s.jobs && s.jobs[job].listed && s.jobs[job].owner !in s.dead
  }

  function Without(pending: set<Task>, task: Task, again: bool): set<Task> {
    if again then pending else pending - {task}
  }

  ghost predicate RendersAs(job: Job, payload: Payload) {
    payload.id == job.id && payload.status == job.status && payload.active == (job.status == Running)
  }

  ghost predicate NextStep(s: State, s': State, step: Step) {
    match step
    case Tick(seconds) => seconds >= 0.0 && s' == s.(now := s.now + seconds)
    case Create(p, id, job) =>
      && p !in s.dead && job !in s.jobs
      && s' == s.(jobs := Unlisted(s.jobs, p, id)[job := Job(p, id, Running, true, None)],
                  pending := s.pending + {Task(p, Call(job, id))})
    case Touch(job) =>
      && Reached(s, job) && s.jobs[job].status == Running
      && s' == s.(pending := s.pending + {CallOf(s, job)})
    case Finish(job, status) =>
      && Reached(s, job) && status != Running
      && s' == s.(jobs := s.jobs[job := s.jobs[job].(status := status)], pending := s.pending + {CallOf(s, job)})
    case Render(task, payload, again) =>
      && task in s.pending && task.action.Call? && task.action.job in s.jobs
      && RendersAs(s.jobs[task.action.job], payload)
      && s' == s.(pending := Without(s.pending, task, again) + {Task(task.process, Publish(task.action.job, payload))})
    case DecideUnlink(p, id) =>
      && p !in s.dead && id in s.dir && !Read(s.dir[id].file, s.now).active
      && s' == s.(pending := s.pending + {Task(p, Unlink(id))})
    case DecideRewrite(p, id) =>
      && p !in s.dead && id in s.dir && s.dir[id].file.payload.active && !Read(s.dir[id].file, s.now).active
      && s' == s.(pending := s.pending + {Task(p, Rewrite(s.dir[id].job, Read(s.dir[id].file, s.now)))})
    case Do(task, again) =>
      && task in s.pending && !task.action.Call?
      && s' == Effect(s, task).(pending := Without(s.pending, task, again))
    case Die(p) =>
      && p !in s.dead
      && s' == s.(dead := s.dead[p := s.now], pending := set t | t in s.pending && t.process != p)
  }

  ghost predicate Next(s: State, s': State) { exists step :: NextStep(s, s', step) }

  ghost predicate Run(run: seq<State>) {
    && run != [] && Init(run[0])
    && forall i :: 0 <= i < |run| - 1 ==> Next(run[i], run[i + 1])
  }

  lemma StepTaken(run: seq<State>, i: nat) returns (step: Step)
    requires Run(run) && i < |run| - 1
    ensures NextStep(run[i], run[i + 1], step)
  {
    assert Next(run[i], run[i + 1]);
    step :| NextStep(run[i], run[i + 1], step);
  }

  /** The job is running in a process that lives and lists it. */
  ghost predicate Live(s: State, job: nat) {
    Reached(s, job) && s.jobs[job].status == Running
  }

  /** The hypothesis on a schedule, for one job: while it is live, its process rewrites its snapshot, once it
    * has written it at all, at gaps of at most 150 seconds. */
  ghost predicate OnTime(s: State, job: nat) {
    Live(s, job) && s.jobs[job].lastWrite.Some? ==> s.now - s.jobs[job].lastWrite.value <= STALE_SECONDS
  }

  /** Every job in time. */
  ghost predicate Timely(s: State) { forall job :: OnTime(s, job) }

  // ----- invariants, whatever the schedule -----

  /** The file is of a job of its id. */
  ghost predicate FileAccounted(s: State, id: string)
    requires id in s.dir
  {
    && s.dir[id].job in s.jobs && s.jobs[s.dir[id].job].id == id
    && s.dir[id].file.payload.id == id && s.dir[id].file.written <= s.now
  }

  ghost predicate Used(s: State, id: string) {
    exists job :: job in s.jobs && s.jobs[job].id == id
  }

  /** The task is of a job of its id and a process that lives; only a job's own process publishes it. */
  ghost predicate TaskAccounted(s: State, t: Task) {
    && t.process !in s.dead
    && match t.action
       case Call(job, id) => job in s.jobs && s.jobs[job].id == id && s.jobs[job].owner == t.process
       case Publish(job, p) => job in s.jobs && s.jobs[job].id == p.id && s.jobs[job].owner == t.process
       case Rewrite(job, p) => job in s.jobs && s.jobs[job].id == p.id
       case Unlink(id) => Used(s, id)
  }

  ghost predicate Accounted(s: State) {
    && (forall id :: id in s.dir ==> FileAccounted(s, id))
    && (forall t :: t in s.pending ==> TaskAccounted(s, t))
    && (forall p :: p in s.dead ==> s.dead[p] <= s.now)
    && (forall job :: job in s.jobs && s.jobs[job].lastWrite.Some? ==> s.jobs[job].lastWrite.value <= s.now)
  }

  /** What a payload of a job may say: active means running, and a job that never finished is never said
    * to have ended but by a reader that found it stale. */
  ghost predicate Truthful(job: Job, p: Payload) {
    (p.active ==> p.status == Running) && (job.status == Running && !p.active ==> p.status == Failed)
  }

  /** The same of all that is written or about to be; a publish of a job still running says so, and a
    * rewrite always says failed. */
  ghost predicate Honest(s: State)
    requires Accounted(s)
  {
    && (forall id :: id in s.dir ==> Truthful(s.jobs[s.dir[id].job], s.dir[id].file.payload))
    && (forall t :: t in s.pending ==> HonestTask(s, t))
  }

  ghost predicate HonestTask(s: State, t: Task)
    requires TaskAccounted(s, t)
  {
    match t.action
    case Publish(job, p) => (p.active <==> p.status == Running) && (s.jobs[job].status == Running ==> p.active)
    case Rewrite(_, p) => !p.active && p.status == Failed
    case _ => true
  }

  /** An active snapshot of a dead process's job was written before it died. */
  ghost predicate DeadSettled(s: State)
    requires Accounted(s)
  {
    forall id :: id in s.dir ==> Settled(s, id)
  }

  /** Jobs are only added; of one that is there only its status, its listing and its last write change,
    * and it never runs again once it has ended. */
  ghost predicate Grown(a: map<nat, Job>, b: map<nat, Job>) {
    forall job :: job in a ==>
      && job in b && b[job].owner == a[job].owner && b[job].id == a[job].id
      && (b[job].status == Running ==> a[job].status == Running)
      && (b[job].listed ==> a[job].listed)
  }

  lemma StepGrows(s: State, s': State, step: Step)
    requires NextStep(s, s', step)
    ensures Grown(s.jobs, s'.jobs) && s'.now >= s.now
    ensures s'.jobs.Keys == s.jobs.Keys + (if step.Create? then {step.job} else {})
  {
  }

  lemma TaskStays(s: State, s': State, t: Task)
    requires TaskAccounted(s, t) && Grown(s.jobs, s'.jobs) && t.process !in s'.dead
    ensures TaskAccounted(s', t)
  {
    if t.action.Unlink? {
      var job :| job in s.jobs && s.jobs[job].id == t.action.id;
      assert job in s'.jobs && s'.jobs[job].id == t.action.id;
    }
  }

  lemma FileStays(s: State, s': State, id: string)
    requires id in s.dir && FileAccounted(s, id) && Grown(s.jobs, s'.jobs) && s'.now >= s.now
    requires id in s'.dir && s'.dir[id] == s.dir[id]
    ensures FileAccounted(s', id)
  {
  }

  /** What a step leaves begun was begun before, or is begun by it and accounted for. */
  lemma NewTasksAccounted(s: State, s': State, step: Step, t: Task)
    requires Accounted(s) && NextStep(s, s', step) && t in s'.pending
    ensures TaskAccounted(s', t)
  {
    StepGrows(s, s', step);
    if t in s.pending {
      TaskStays(s, s', t);
    } else if step.Render? {
      assert TaskAccounted(s, step.task);
    } else if step.DecideUnlink? || step.DecideRewrite? {
      assert FileAccounted(s, step.id);
      assert s'.jobs == s.jobs;
    }
  }

  /** A file that a step puts there is what some task was about to write. */
  lemma FileWritten(s: State, s': State, step: Step, id: string) returns (task: Task)
    requires NextStep(s, s', step) && id in s'.dir && !(id in s.dir && s'.dir[id] == s.dir[id])
    ensures task in s.pending && (task.action.Publish? || task.action.Rewrite?) && task.action.payload.id == id
    ensures s'.dir[id] == Snapshot(File(task.action.payload, s.now), task.action.job)
    ensures s'.dead == s.dead && s'.now == s.now
  {
    task := step.task;
  }

  lemma NewFilesAccounted(s: State, s': State, step: Step, id: string)
    requires Accounted(s) && NextStep(s, s', step) && id in s'.dir
    ensures FileAccounted(s', id)
  {
    StepGrows(s, s', step);
    if id in s.dir && s'.dir[id] == s.dir[id] {
      FileStays(s, s', id);
    } else {
      var task := FileWritten(s, s', step, id);
      assert TaskAccounted(s, task);
    }
  }

  lemma TimesAccounted(s: State, s': State, step: Step)
    requires Accounted(s) && NextStep(s, s', step)
    ensures forall p :: p in s'.dead ==> s'.dead[p] <= s'.now
    ensures forall job :: job in s'.jobs && s'.jobs[job].lastWrite.Some? ==> s'.jobs[job].lastWrite.value <= s'.now
  {
  }

  lemma StepKeepsAccounted(s: State, s': State, step: Step)
    requires Accounted(s) && NextStep(s, s', step)
    ensures Accounted(s')
  {
    forall t | t in s'.pending ensures TaskAccounted(s', t) { NewTasksAccounted(s, s', step, t); }
    forall id | id in s'.dir ensures FileAccounted(s', id) { NewFilesAccounted(s, s', step, id); }
    TimesAccounted(s, s', step);
  }

  lemma NewTasksHonest(s: State, s': State, step: Step, t: Task)
    requires Accounted(s) && Honest(s) && NextStep(s, s', step) && Accounted(s') && t in s'.pending
    ensures HonestTask(s', t)
  {
    StepGrows(s, s', step);
    if t in s.pending {
      assert TaskAccounted(s, t) && HonestTask(s, t);
    } else if step.Render? {
      assert s'.jobs == s.jobs;
    }
  }

  lemma TruthStays(a: Job, b: Job, p: Payload)
    requires Truthful(a, p) && (b.status == Running ==> a.status == Running)
    ensures Truthful(b, p)
  {
  }

  lemma WrittenTruthfully(s: State, t: Task)
    requires TaskAccounted(s, t) && HonestTask(s, t) && (t.action.Publish? || t.action.Rewrite?)
    ensures Truthful(s.jobs[t.action.job], t.action.payload)
    ensures t.action.payload.active ==> s.jobs[t.action.job].owner !in s.dead
  {
  }

  lemma NewFilesHonest(s: State, s': State, step: Step, id: string)
    requires Accounted(s) && Honest(s) && NextStep(s, s', step) && Accounted(s') && id in s'.dir
    ensures Truthful(s'.jobs[s'.dir[id].job], s'.dir[id].file.payload)
  {
    StepGrows(s, s', step);
    var job, p := s'.dir[id].job, s'.dir[id].file.payload;
    if id in s.dir && s'.dir[id] == s.dir[id] {
      assert FileAccounted(s, id);
    } else {
      var task := FileWritten(s, s', step, id);
      WrittenTruthfully(s, task);
    }
    TruthStays(s.jobs[job], s'.jobs[job], p);
  }

  lemma StepKeepsHonest(s: State, s': State, step: Step)
    requires Accounted(s) && Honest(s) && NextStep(s, s', step) && Accounted(s')
    ensures Honest(s')
  {
    forall t | t in s'.pending ensures HonestTask(s', t) { NewTasksHonest(s, s', step, t); }
    forall id | id in s'.dir ensures Truthful(s'.jobs[s'.dir[id].job], s'.dir[id].file.payload) {
      NewFilesHonest(s, s', step, id);
    }
  }

  /** One file's part of DeadSettled. */
  ghost predicate Settled(s: State, id: string)
    requires id in s.dir && FileAccounted(s, id)
  {
    var snapshot := s.dir[id];
    snapshot.file.payload.active && s.jobs[snapshot.job].owner in s.dead ==>
      snapshot.file.written <= s.dead[s.jobs[snapshot.job].owner]
  }

  lemma StepSettles(s: State, s': State, step: Step, id: string)
    requires Accounted(s) && Honest(s) && NextStep(s, s', step) && id in s'.dir && FileAccounted(s', id)
    requires id in s.dir ==> Settled(s, id)
    ensures Settled(s', id)
  {
    StepGrows(s, s', step);
    if id in s.dir && s'.dir[id] == s.dir[id] {
      assert FileAccounted(s, id);
    } else {
      var task := FileWritten(s, s', step, id);
      WrittenTruthfully(s, task);
    }
  }

  lemma StepKeepsDeadSettled(s: State, s': State, step: Step)
    requires Accounted(s) && Honest(s) && DeadSettled(s) && NextStep(s, s', step) && Accounted(s')
    ensures DeadSettled(s')
  {
    forall id | id in s'.dir ensures Settled(s', id) { StepSettles(s, s', step, id); }
  }

  /** Whatever the schedule, in every state of a run each file and each task belongs to a job of its id,
    * nothing lies about its job, and the dead wrote before they died. */
  lemma {:induction false} RunKeepsSettled(run: seq<State>, i: nat)
    requires Run(run) && i < |run|
    ensures Accounted(run[i]) && Honest(run[i]) && DeadSettled(run[i])
  {
    if i > 0 {
      RunKeepsSettled(run, i - 1);
      var step := StepTaken(run, i - 1);
      StepKeepsAccounted(run[i - 1], run[i], step);
      StepKeepsHonest(run[i - 1], run[i], step);
      StepKeepsDeadSettled(run[i - 1], run[i], step);
    }
  }
}
