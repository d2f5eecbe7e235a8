/** The elected indexer and its sync gate (src/pheasant/cli.py, _OrchestrationSupervisor and
  * _QueueDrainer). One step is what one thread does between two points where another may run:
  * the election thread, the promotion worker, any number of drainer threads, and whoever else
  * takes the same lock. Every observable action is appended to a log. */
module PromotionGate {
  import opened Options

  datatype Producer = Watcher | Scheduler | Drainer

  datatype On = On(watcher: bool, scheduler: bool, drainer: bool) {
    predicate Has(p: Producer) {
      match p case Watcher => watcher case Scheduler => scheduler case Drainer => drainer
    }
    function Set(p: Producer, value: bool): On {
      match p
      case Watcher => this.(watcher := value)
      case Scheduler => this.(scheduler := value)
      case Drainer => this.(drainer := value)
    }
  }

  const NONE := On(false, false, false)
  const ALL := On(true, true, true)

  datatype Event =
    | Reserve | Release
    | DrainBegin(thread: nat) | Claim(thread: nat) | DrainEnd(thread: nat)
    | Promoted | Demoted
    | Started(producer: Producer) | Stopped(producer: Producer)

  /** Where the election thread is. */
  datatype Pc =
    | Polling
    | StopDrainer | StopScheduler | StopWatcher | ClearLeader
    | TryLease
    | SetLeader | CheckWorker | AwaitGate | SpawnWorker
    | StartWatcher | StartScheduler | StartDrainer
    | GiveUpLease | Exited

  datatype Holder = Free | Reserved | DrainedBy(thread: nat) | Other

  /** The promotion worker: no live thread, reconciling, or past its release but still alive. */
  datatype Worker = NoWorker | Reconciling | Ending

  datatype DrainPc = AtHead | WaitingForGate | Draining

  datatype Election = Election(
    pc: Pc,
    exiting: bool,        // the election loop has seen the stop event
    stopping: bool,       // the stop event
    leader: bool,
    leaseHeld: bool,
    on: On)               // producers started since they were last stopped

  datatype Gate = Gate(
    holder: Holder,
    worker: Worker,
    drainerStop: bool,    // the drainer's current stop event
    drainers: map<nat, DrainPc>)

  datatype State = State(e: Election, g: Gate, log: seq<Event>)

  ghost predicate Init(s: State) {
    s == State(Election(Polling, false, s.e.stopping, false, false, NONE), Gate(Free, NoWorker, true, map[]), [])
  }

  datatype Step =
    | Poll | DemoteStep | LeaseAttempt(won: bool) | PromoteStep(thread: nat) | ReleaseLease
    | LoseLease | RequestStop
    | FinishReconcile | WorkerEnds
    | DrainerLoop(t: nat) | DrainerTakesGate(t: nat) | DrainerClaims(t: nat) | DrainerEnds(t: nat, dies: bool)
    | OtherTakes | OtherReleases

  /** One pass of `_run`: a lost lease or a stop leads to `_demote`, which returns at once for a
    * process that does not lead. */
  function Polled(e: Election): Election {
    if !e.stopping && e.leaseHeld then e
    else e.(exiting := e.stopping,
            pc := if e.leader then StopDrainer else if e.stopping then GiveUpLease else TryLease)
  }

  predicate Demoting(pc: Pc) {
    pc == StopDrainer || pc == StopScheduler || pc == StopWatcher || pc == ClearLeader
  }

  /** `_demote`, stop by stop. */
  function DemotedBy(e: Election): Election
    requires Demoting(e.pc)
  {
    match e.pc
    case StopDrainer => e.(pc := StopScheduler, on := e.on.Set(Drainer, false))
    case StopScheduler => e.(pc := StopWatcher, on := e.on.Set(Scheduler, false))
    case StopWatcher => e.(pc := ClearLeader, on := e.on.Set(Watcher, false))
    case ClearLeader => e.(pc := if e.exiting then GiveUpLease else TryLease, leader := false)
  }

  function DemotionEvent(pc: Pc): Event
    requires Demoting(pc)
  {
    match pc
    case StopDrainer => Stopped(Drainer)
    case StopScheduler => Stopped(Scheduler)
    case StopWatcher => Stopped(Watcher)
    case ClearLeader => Demoted
  }

  predicate Promoting(pc: Pc) {
    || pc == SetLeader || pc == CheckWorker || pc == AwaitGate || pc == SpawnWorker
    || pc == StartWatcher || pc == StartScheduler || pc == StartDrainer
  }

  /** `_promote`: reserve the gate and hand it to a worker unless one is still alive, then start the
    * producers. */
  function PromotedBy(e: Election, workerAlive: bool): Election
    requires Promoting(e.pc)
  {
    match e.pc
    case SetLeader => e.(pc := CheckWorker, leader := true)
    case CheckWorker => e.(pc := if workerAlive then StartWatcher else AwaitGate)
    case AwaitGate => e.(pc := SpawnWorker)
    case SpawnWorker => e.(pc := StartWatcher)
    case StartWatcher => e.(pc := StartScheduler, on := e.on.Set(Watcher, true))
    case StartScheduler => e.(pc := StartDrainer, on := e.on.Set(Scheduler, true))
    case StartDrainer => e.(pc := Polling, on := e.on.Set(Drainer, true))
  }

  /** Reserving takes a free gate; a started drainer is a new thread with a new stop event. */
  ghost predicate PromotionMovesGate(pc: Pc, g: Gate, g': Gate, thread: nat) {
    match pc
    case AwaitGate => g.holder == Free && g' == g.(holder := Reserved)
    case SpawnWorker => g' == g.(worker := Reconciling)
    case StartDrainer =>
      thread !in g.drainers && g' == g.(drainerStop := false, drainers := g.drainers[thread := AtHead])
    case _ => g' == g
  }

  function PromotionEvents(pc: Pc): seq<Event> {
    match pc
    case SetLeader => [Promoted]
    case AwaitGate => [Reserve]
    case StartWatcher => [Started(Watcher)]
    case StartScheduler => [Started(Scheduler)]
    case StartDrainer => [Started(Drainer)]
    case _ => []
  }

  /** What the threads behind the gate do to it. */
  ghost predicate GateStep(g: Gate, g': Gate, step: Step) {
    match step
    // `promotion_lock.release()` in the worker's finally: a plain lock frees whoever holds it.
    case FinishReconcile => g.worker == Reconciling && g' == g.(worker := Ending, holder := Free)
    case WorkerEnds => g.worker == Ending && g' == g.(worker := NoWorker)
    case DrainerLoop(t) =>
      && t in g.drainers && g.drainers[t] == AtHead
      && g' == g.(drainers := if g.drainerStop then g.drainers - {t} else g.drainers[t := WaitingForGate])
    case DrainerTakesGate(t) =>
      && t in g.drainers && g.drainers[t] == WaitingForGate && g.holder == Free
      && g' == g.(holder := DrainedBy(t), drainers := g.drainers[t := Draining])
    case DrainerClaims(t) => t in g.drainers && g.drainers[t] == Draining && g' == g
    case DrainerEnds(t, dies) =>
      && t in g.drainers && g.drainers[t] == Draining
      && g' == g.(holder := Free, drainers := if dies then g.drainers - {t} else g.drainers[t := AtHead])
    case OtherTakes => g.holder == Free && g' == g.(holder := Other)
    case OtherReleases => g.holder == Other && g' == g.(holder := Free)
    case _ => false
  }

  function GateEvents(step: Step): seq<Event> {
    match step
    case FinishReconcile => [Release]
    case DrainerTakesGate(t) => [DrainBegin(t)]
    case DrainerClaims(t) => [Claim(t)]
    case DrainerEnds(t, _) => [DrainEnd(t)]
    case _ => []
  }

  ghost predicate NextStep(s: State, s': State, step: Step) {
    match step
    case Poll => s.e.pc == Polling && s' == s.(e := Polled(s.e))
    case LoseLease => s' == s.(e := s.e.(leaseHeld := false))
    case RequestStop => s' == s.(e := s.e.(stopping := true))
    case LeaseAttempt(won) =>
      && s.e.pc == TryLease
      && s' == s.(e := if won then s.e.(leaseHeld := true, pc := SetLeader) else s.e.(pc := Polling))
    case ReleaseLease => s.e.pc == GiveUpLease && s' == s.(e := s.e.(leaseHeld := false, pc := Exited))
    case DemoteStep =>
      && Demoting(s.e.pc) && s'.e == DemotedBy(s.e)
      // Stopping the drainer only sets its event: the join is bounded.
      && s'.g == (if s.e.pc == StopDrainer then s.g.(drainerStop := true) else s.g)
      && s'.log == s.log + [DemotionEvent(s.e.pc)]
    case PromoteStep(thread) =>
      && Promoting(s.e.pc) && s'.e == PromotedBy(s.e, s.g.worker != NoWorker)
      && PromotionMovesGate(s.e.pc, s.g, s'.g, thread)
      && s'.log == s.log + PromotionEvents(s.e.pc)
    case _ => s'.e == s.e && GateStep(s.g, s'.g, step) && s'.log == s.log + GateEvents(step)
  }

  ghost predicate Next(s: State, s': State) { exists step :: NextStep(s, s', step) }

  ghost predicate Run(run: seq<State>) {
    && run != [] && Init(run[0])
    && forall i :: 0 <= i < |run| - 1 ==> Next(run[i], run[i + 1])
  }

  // ----- what a log may look like, said without the machine -----

  /** What an observer of the log knows: is the gate reserved, who drains, which producers run, does the
    * process lead. */
  datatype Observed = Observed(reserved: bool, draining: Option<nat>, on: On, leads: bool)

  predicate StoppedInTurn(on: On, p: Producer) {
    match p
    case Drainer => true
    case Scheduler => !on.drainer
    case Watcher => !on.drainer && !on.scheduler
  }

  function Observe(o: Observed, e: Event): Option<Observed> {
    match e
    case Reserve => if o.reserved || o.draining.Some? then None else Some(o.(reserved := true))
    case Release => if o.reserved then Some(o.(reserved := false)) else None
    case DrainBegin(t) => if o.reserved || o.draining.Some? then None else Some(o.(draining := Some(t)))
    case Claim(t) => if o.reserved || o.draining != Some(t) then None else Some(o)
    case DrainEnd(t) => if o.draining != Some(t) then None else Some(o.(draining := None))
    // only a leader's producers run, and they are stopped drainer first, watcher last
    case Started(p) => if !o.leads || o.on.Has(p) then None else Some(o.(on := o.on.Set(p, true)))
    case Stopped(p) => if !o.on.Has(p) || !StoppedInTurn(o.on, p) then None else Some(o.(on := o.on.Set(p, false)))
    // leadership is gained and given up with every producer stopped
    case Promoted => if o.leads || o.on != NONE then None else Some(o.(leads := true))
    case Demoted => if !o.leads || o.on != NONE then None else Some(o.(leads := false))
  }

  function Replay(log: seq<Event>): Option<Observed> {
    if log == [] then Some(Observed(false, None, NONE, false))
    else match Replay(log[..|log| - 1])
      case None => None
      case Some(o) => Observe(o, log[|log| - 1])
  }

  ghost predicate Legal(log: seq<Event>) { Replay(log).Some? }

  // ----- the invariant -----

  ghost predicate LeaderMatches(e: Election) {
    match e.pc
    case Polling => e.on == if e.leader then ALL else NONE
    case StopDrainer => e.leader && e.on == ALL
    case StopScheduler => e.leader && e.on == On(true, true, false)
    case StopWatcher => e.leader && e.on == On(true, false, false)
    case ClearLeader => e.leader && e.on == NONE
    case StartScheduler => e.leader && e.on == On(true, false, false)
    case StartDrainer => e.leader && e.on == On(true, true, false)
    case CheckWorker | AwaitGate | SpawnWorker | StartWatcher => e.leader && e.on == NONE
    case TryLease | SetLeader | GiveUpLease | Exited => !e.leader && e.on == NONE
  }

  /** A reserved gate always has exactly one party that will release it. */
  ghost predicate GateAccounted(pc: Pc, g: Gate) {
    && (g.holder == Reserved <==> pc == SpawnWorker || g.worker == Reconciling)
    && (pc == SpawnWorker || pc == AwaitGate ==> g.worker == NoWorker)
    && (forall t :: t in g.drainers && g.drainers[t] == Draining ==> g.holder == DrainedBy(t))
    && (g.holder.DrainedBy? ==> g.holder.thread in g.drainers && g.drainers[g.holder.thread] == Draining)
  }

  function Seen(s: State): Observed {
    Observed(s.g.holder == Reserved, if s.g.holder.DrainedBy? then Some(s.g.holder.thread) else None, s.e.on,
             s.e.leader)
  }

  ghost predicate Inv(s: State) {
    && LeaderMatches(s.e) && GateAccounted(s.e.pc, s.g)
    && s.g.drainerStop == !s.e.on.drainer
    && Replay(s.log) == Some(Seen(s))
  }

  lemma ReplayAppend(log: seq<Event>, events: seq<Event>)
    requires |events| <= 1
    ensures Replay(log + events) == if events == [] then Replay(log) else
      match Replay(log) case None => None case Some(o) => Observe(o, events[0])
  {
    if events == [] {
      assert log + events == log;
    } else {
      assert (log + events)[..|log|] == log;
    }
  }

  lemma GateStepKeepsAccount(pc: Pc, g: Gate, g': Gate, step: Step)
    requires GateAccounted(pc, g) && GateStep(g, g', step)
    ensures GateAccounted(pc, g')
  {
  }

  /** Every step logs at most one event, and that event is legal where it is logged. */
  ghost predicate LogsLegally(o: Observed, events: seq<Event>, o': Observed) {
    if events == [] then o' == o else |events| == 1 && Observe(o, events[0]) == Some(o')
  }

  lemma GateStepLogsLegally(s: State, s': State, step: Step)
    requires GateAccounted(s.e.pc, s.g) && s'.e == s.e && GateStep(s.g, s'.g, step)
    ensures LogsLegally(Seen(s), GateEvents(step), Seen(s'))
  {
  }

  lemma DemotionKeepsLeader(e: Election)
    requires LeaderMatches(e) && Demoting(e.pc)
    ensures LeaderMatches(DemotedBy(e)) && !Promoting(DemotedBy(e).pc)
    ensures DemotedBy(e).on.drainer == (e.on.drainer && e.pc != StopDrainer)
  {
  }

  lemma DemotionLogsLegally(e: Election, o: Observed)
    requires LeaderMatches(e) && Demoting(e.pc) && o.on == e.on && o.leads == e.leader
    ensures LogsLegally(o, [DemotionEvent(e.pc)], o.(on := DemotedBy(e).on, leads := DemotedBy(e).leader))
  {
  }

  lemma DemotionKeepsInv(s: State, s': State)
    requires Inv(s) && NextStep(s, s', DemoteStep)
    ensures Inv(s')
  {
    DemotionKeepsLeader(s.e);
    DemotionLogsLegally(s.e, Seen(s));
    ReplayAppend(s.log, [DemotionEvent(s.e.pc)]);
  }

  lemma PromotionKeepsLeader(e: Election, workerAlive: bool)
    requires LeaderMatches(e) && Promoting(e.pc)
    ensures LeaderMatches(PromotedBy(e, workerAlive))
    ensures PromotedBy(e, workerAlive).on.drainer == (e.on.drainer || e.pc == StartDrainer)
  {
  }

  lemma NewDrainerKeepsAccount(g: Gate, g': Gate, thread: nat)
    requires GateAccounted(StartDrainer, g) && PromotionMovesGate(StartDrainer, g, g', thread)
    ensures GateAccounted(Polling, g') && !g'.drainerStop
  {
  }

  lemma ReservationKeepsAccount(e: Election, g: Gate, g': Gate, thread: nat)
    requires GateAccounted(e.pc, g) && (e.pc == AwaitGate || e.pc == SpawnWorker)
    requires PromotionMovesGate(e.pc, g, g', thread)
    ensures GateAccounted(PromotedBy(e, g.worker != NoWorker).pc, g') && g'.drainerStop == g.drainerStop
  {
  }

  lemma PromotionKeepsAccount(e: Election, g: Gate, g': Gate, thread: nat)
    requires GateAccounted(e.pc, g) && Promoting(e.pc) && PromotionMovesGate(e.pc, g, g', thread)
    ensures GateAccounted(PromotedBy(e, g.worker != NoWorker).pc, g')
    ensures g'.drainerStop == (g.drainerStop && e.pc != StartDrainer)
  {
    if e.pc == StartDrainer {
      NewDrainerKeepsAccount(g, g', thread);
    } else if e.pc == AwaitGate || e.pc == SpawnWorker {
      ReservationKeepsAccount(e, g, g', thread);
    } else {
      assert g' == g;
    }
  }

  lemma PromotionLogsLegally(s: State, s': State, thread: nat)
    requires LeaderMatches(s.e) && GateAccounted(s.e.pc, s.g) && NextStep(s, s', PromoteStep(thread))
    ensures LogsLegally(Seen(s), PromotionEvents(s.e.pc), Seen(s'))
  {
  }

  lemma PromotionKeepsInv(s: State, s': State, thread: nat)
    requires Inv(s) && NextStep(s, s', PromoteStep(thread))
    ensures Inv(s')
  {
    PromotionKeepsLeader(s.e, s.g.worker != NoWorker);
    PromotionKeepsAccount(s.e, s.g, s'.g, thread);
    PromotionLogsLegally(s, s', thread);
    ReplayAppend(s.log, PromotionEvents(s.e.pc));
  }

  lemma ElectionKeepsInv(s: State, s': State, step: Step)
    requires Inv(s) && NextStep(s, s', step)
    requires step.Poll? || step.LoseLease? || step.RequestStop? || step.LeaseAttempt? || step.ReleaseLease?
    ensures Inv(s')
  {
    assert s'.g == s.g && s'.log == s.log && s'.e.on == s.e.on;
  }

  lemma StepKeepsInv(s: State, s': State, step: Step)
    requires Inv(s) && NextStep(s, s', step)
    ensures Inv(s')
  {
    match step
    case Poll | LoseLease | RequestStop | LeaseAttempt(_) | ReleaseLease => ElectionKeepsInv(s, s', step);
    case DemoteStep => DemotionKeepsInv(s, s');
    case PromoteStep(thread) => PromotionKeepsInv(s, s', thread);
    case _ =>
      GateStepKeepsAccount(s.e.pc, s.g, s'.g, step);
      GateStepLogsLegally(s, s', step);
      ReplayAppend(s.log, GateEvents(step));
  }

  /** In every interleaving, every state keeps the invariant. */
  lemma {:induction false} RunKeepsInv(run: seq<State>, i: nat)
    requires Run(run) && i < |run|
    ensures Inv(run[i]) && Legal(run[i].log)
  {
    if i > 0 {
      RunKeepsInv(run, i - 1);
      var step := StepTaken(run, i - 1);
      StepKeepsInv(run[i - 1], run[i], step);
    }
  }

  lemma StepTaken(run: seq<State>, i: nat) returns (step: Step)
    requires Run(run) && i < |run| - 1
    ensures NextStep(run[i], run[i + 1], step)
  {
    assert Next(run[i], run[i + 1]);
    step :| NextStep(run[i], run[i + 1], step);
  }

  // ----- what every log says -----

  lemma {:induction false} LegalPrefix(log: seq<Event>, k: nat)
    requires Legal(log) && k <= |log|
    ensures Legal(log[..k])
  {
    if k < |log| {
      LegalPrefix(log[..|log| - 1], k);
      assert log[..|log| - 1][..k] == log[..k];
    } else {
      assert log[..k] == log;
    }
  }

  /** What was known before event `k`, and that the event was legal then. */
  lemma LegalAt(log: seq<Event>, k: nat) returns (o: Observed)
    requires Legal(log) && k < |log|
    ensures Replay(log[..k]) == Some(o)
    ensures Observe(o, log[k]).Some? && Replay(log[..k + 1]) == Observe(o, log[k])
  {
    LegalPrefix(log, k + 1);
    assert log[..k + 1][..k] == log[..k];
    o := Replay(log[..k]).value;
  }

  lemma {:induction false} StaysReserved(log: seq<Event>, i: nat, k: nat)
    requires Legal(log) && i < k <= |log| && log[i] == Reserve
    requires forall j :: i < j < k ==> log[j] != Release
    ensures Replay(log[..k]).Some? && Replay(log[..k]).value.reserved
  {
    var o := LegalAt(log, k - 1);
    if i < k - 1 { StaysReserved(log, i, k - 1); }
  }

  lemma {:induction false} StaysDraining(log: seq<Event>, i: nat, k: nat, t: nat)
    requires Legal(log) && i < k <= |log| && log[i] == DrainBegin(t)
    requires forall j :: i < j < k ==> log[j] != DrainEnd(t)
    ensures Replay(log[..k]).Some? && Replay(log[..k]).value.draining == Some(t)
  {
    var o := LegalAt(log, k - 1);
    if i < k - 1 { StaysDraining(log, i, k - 1, t); }
  }

  lemma {:induction false} StaysOn(log: seq<Event>, i: nat, k: nat, p: Producer)
    requires Legal(log) && i < k <= |log| && log[i] == Started(p)
    requires forall j :: i < j < k ==> log[j] != Stopped(p)
    ensures Replay(log[..k]).Some? && Replay(log[..k]).value.on.Has(p)
  {
    var o := LegalAt(log, k - 1);
    if i < k - 1 { StaysOn(log, i, k - 1, p); }
  }

  lemma LogIsLegal(run: seq<State>, n: nat)
    requires Run(run) && n < |run|
    ensures Legal(run[n].log)
  {
    RunKeepsInv(run, n);
  }

  /** From the moment `_promote` takes the gate until that reconciliation ends, nobody claims a task
    * or begins a drain, and the gate is not reserved a second time. */
  lemma NoClaimWhileReconciling(run: seq<State>, n: nat, i: nat, k: nat)
    requires Run(run) && n < |run| && i < k < |run[n].log|
    requires run[n].log[i] == Reserve
    requires run[n].log[k].Claim? || run[n].log[k].DrainBegin? || run[n].log[k].Reserve?
    ensures exists j :: i < j < k && run[n].log[j] == Release
  {
    var log := run[n].log;
    LogIsLegal(run, n);
    if forall j :: i < j < k ==> log[j] != Release {
      StaysReserved(log, i, k);
      var o := LegalAt(log, k);
    }
  }

  function Count(log: seq<Event>, e: Event): nat { multiset(log)[e] }

  lemma {:induction false} ReservationsCounted(log: seq<Event>)
    requires Legal(log)
    ensures Count(log, Reserve) == Count(log, Release) + if Replay(log).value.reserved then 1 else 0
  {
    if log != [] {
      assert log == log[..|log| - 1] + [log[|log| - 1]];
      ReservationsCounted(log[..|log| - 1]);
    }
  }

  /** Every reservation is released exactly once: never a second time, and never left held, since a
    * reservation not yet released still has the party that will release it. */
  lemma ReleasedOncePerReservation(run: seq<State>, n: nat)
    requires Run(run) && n < |run|
    ensures var s := run[n];
      Count(s.log, Reserve) == Count(s.log, Release)
        + if s.e.pc == SpawnWorker || s.g.worker == Reconciling then 1 else 0
  {
    RunKeepsInv(run, n);
    ReservationsCounted(run[n].log);
  }

  /** Drains never overlap, not even between a new drainer and one that outlived its `stop`. */
  lemma DrainsNeverOverlap(run: seq<State>, n: nat, i: nat, k: nat, t: nat)
    requires Run(run) && n < |run| && i < k < |run[n].log|
    requires run[n].log[i] == DrainBegin(t)
    requires run[n].log[k].DrainBegin? || (run[n].log[k].Claim? && run[n].log[k].thread != t)
    ensures exists j :: i < j < k && run[n].log[j] == DrainEnd(t)
  {
    var log := run[n].log;
    LogIsLegal(run, n);
    if forall j :: i < j < k ==> log[j] != DrainEnd(t) {
      StaysDraining(log, i, k, t);
      var o := LegalAt(log, k);
    }
  }

  /** A producer is started only after it was stopped, and leadership is gained only with every
    * producer stopped. */
  lemma ProducersStartDemoted(run: seq<State>, n: nat, i: nat, k: nat, p: Producer)
    requires Run(run) && n < |run| && i < k < |run[n].log|
    requires run[n].log[i] == Started(p)
    requires run[n].log[k] == Started(p) || run[n].log[k] == Promoted
    ensures exists j :: i < j < k && run[n].log[j] == Stopped(p)
  {
    var log := run[n].log;
    LogIsLegal(run, n);
    if forall j :: i < j < k ==> log[j] != Stopped(p) {
      StaysOn(log, i, k, p);
      var o := LegalAt(log, k);
    }
  }

  /** A demotion stops claims first, then what schedules them, then what watches, and gives up the lead last. */
  lemma DemotionInOrder(run: seq<State>, n: nat, i: nat, k: nat, q: Producer)
    requires Run(run) && n < |run| && i < k < |run[n].log| && run[n].log[i] == Started(q)
    requires
      || run[n].log[k] == Demoted
      || (run[n].log[k] == Stopped(Scheduler) && q == Drainer)
      || (run[n].log[k] == Stopped(Watcher) && q != Watcher)
    ensures exists j :: i < j < k && run[n].log[j] == Stopped(q)
  {
    var log := run[n].log;
    LogIsLegal(run, n);
    if forall j :: i < j < k ==> log[j] != Stopped(q) {
      StaysOn(log, i, k, q);
      var o := LegalAt(log, k);
    }
  }

  /** The lead was gained before this point of the log, and not given up since. */
  ghost predicate LeadsAt(log: seq<Event>, k: nat)
    requires k <= |log|
  {
    exists i :: 0 <= i < k && log[i] == Promoted && forall j :: i < j < k ==> log[j] != Demoted
  }

  lemma {:induction false} LeadsIsLogged(log: seq<Event>, k: nat)
    requires Legal(log) && k <= |log|
    ensures Replay(log[..k]).Some? && (Replay(log[..k]).value.leads <==> LeadsAt(log, k))
  {
    if k > 0 {
      LeadsIsLogged(log, k - 1);
      var o := LegalAt(log, k - 1);
      if i :| 0 <= i < k - 1 && log[i] == Promoted && forall j :: i < j < k - 1 ==> log[j] != Demoted {
        assert log[k - 1] != Demoted ==> forall j :: i < j < k ==> log[j] != Demoted;
      }
      if log[k - 1] == Promoted { assert LeadsAt(log, k); }
    } else {
      assert log[..0] == [];
    }
  }

  /** Only a leader starts producers or gives up the lead, and it is not promoted while it leads. */
  lemma OnlyLeadersStart(run: seq<State>, n: nat, k: nat)
    requires Run(run) && n < |run| && k < |run[n].log|
    ensures run[n].log[k].Started? || run[n].log[k] == Demoted ==> LeadsAt(run[n].log, k)
    ensures run[n].log[k] == Promoted ==> !LeadsAt(run[n].log, k)
  {
    LogIsLegal(run, n);
    LeadsIsLogged(run[n].log, k);
    var o := LegalAt(run[n].log, k);
  }

  // ----- claims after a demotion -----

  /** A stretch of steps in which this process is not promoted again. */
  ghost predicate Unpromoted(run: seq<State>) {
    && run != []
    && forall i :: 0 <= i < |run| - 1 ==> StepsUnpromoted(run[i], run[i + 1])
  }

  ghost predicate StepsUnpromoted(s: State, s': State) {
    exists step :: NextStep(s, s', step) && !step.PromoteStep?
  }

  ghost predicate EndsWithClaim(run: seq<State>) {
    && |run| >= 2
    && exists t :: NextStep(run[|run| - 2], run[|run| - 1], DrainerClaims(t))
  }

  ghost predicate CanStillClaim(s: State) {
    exists run :: Unpromoted(run) && run[0] == s && EndsWithClaim(run)
  }

  /** No drainer thread is past its stop check. */
  ghost predicate AllAtHead(g: Gate) {
    g.drainerStop && forall t :: t in g.drainers ==> g.drainers[t] == AtHead
  }

  lemma UnpromotedKeepsAllAtHead(s: State, s': State)
    requires StepsUnpromoted(s, s') && AllAtHead(s.g)
    ensures AllAtHead(s'.g)
  {
    var step :| NextStep(s, s', step) && !step.PromoteStep?;
    if !step.Poll? && !step.LoseLease? && !step.RequestStop? && !step.LeaseAttempt? && !step.DemoteStep? &&
       !step.ReleaseLease? {
      assert GateStep(s.g, s'.g, step);
    }
  }

  lemma {:induction false} UnpromotedStaysAllAtHead(run: seq<State>, i: nat)
    requires Unpromoted(run) && AllAtHead(run[0].g) && i < |run|
    ensures AllAtHead(run[i].g)
  {
    if i > 0 {
      UnpromotedStaysAllAtHead(run, i - 1);
      assert StepsUnpromoted(run[i - 1], run[i - 1 + 1]);
      UnpromotedKeepsAllAtHead(run[i - 1], run[i]);
    }
  }

  /** A thread waiting for a free gate takes it and claims. */
  lemma WaitingDrainerClaims(s: State, t: nat) returns (run: seq<State>)
    requires s.g.holder == Free && t in s.g.drainers && s.g.drainers[t] == WaitingForGate
    ensures Unpromoted(run) && run[0] == s && EndsWithClaim(run)
  {
    var taken := s.g.(holder := DrainedBy(t), drainers := s.g.drainers[t := Draining]);
    var s1 := State(s.e, taken, s.log + [DrainBegin(t)]);
    var s2 := s1.(log := s1.log + [Claim(t)]);
    assert NextStep(s, s1, DrainerTakesGate(t));
    assert NextStep(s1, s2, DrainerClaims(t));
    run := [s, s1, s2];
  }

  lemma Prepend(s: State, run: seq<State>)
    requires Unpromoted(run) && EndsWithClaim(run) && StepsUnpromoted(s, run[0])
    ensures Unpromoted([s] + run) && EndsWithClaim([s] + run)
  {
    var all := [s] + run;
    forall i | 0 <= i < |all| - 1 ensures StepsUnpromoted(all[i], all[i + 1]) {
      if i > 0 { assert StepsUnpromoted(run[i - 1], run[i - 1 + 1]); }
    }
    assert all[|all| - 2] == run[|run| - 2] && all[|all| - 1] == run[|run| - 1];
  }

  lemma PastCheckClaims(s: State, t: nat) returns (run: seq<State>)
    requires Inv(s) && !s.e.leader
    requires t in s.g.drainers && s.g.drainers[t] != AtHead
    ensures Unpromoted(run) && run[0] == s && EndsWithClaim(run)
  {
    if s.g.drainers[t] == Draining || s.g.holder.DrainedBy? {
      var u := s.g.holder.thread;
      var s1 := s.(log := s.log + [Claim(u)]);
      assert NextStep(s, s1, DrainerClaims(u));
      run := [s, s1];
    } else if s.g.holder == Free {
      run := WaitingDrainerClaims(s, t);
    } else {
      var s1;
      if s.g.holder == Other {
        s1 := s.(g := s.g.(holder := Free));
        assert NextStep(s, s1, OtherReleases);
      } else {
        s1 := State(s.e, s.g.(worker := Ending, holder := Free), s.log + [Release]);
        assert NextStep(s, s1, FinishReconcile);
      }
      assert StepsUnpromoted(s, s1);
      var rest := WaitingDrainerClaims(s1, t);
      Prepend(s, rest);
      run := [s] + rest;
    }
  }

  /** Demotion stops the drainer first so that a demoted leader begins no other task. It does so
    * exactly when no drainer thread was past its stop check: `stop` waits ten seconds at most, and a
    * thread blocked on the gate, or still draining, claims once more after its process gave up the
    * lead. */
  lemma DemotedClaimsExactlyWhenPastCheck(run: seq<State>, n: nat)
    requires Run(run) && n < |run| && !run[n].e.leader
    ensures CanStillClaim(run[n]) <==>
      exists t :: t in run[n].g.drainers && run[n].g.drainers[t] != AtHead
  {
    var s := run[n];
    RunKeepsInv(run, n);
    if t :| t in s.g.drainers && s.g.drainers[t] != AtHead {
      var more := PastCheckClaims(s, t);
    } else {
      forall more | Unpromoted(more) && more[0] == s && |more| >= 2 ensures !EndsWithClaim(more) {
        UnpromotedStaysAllAtHead(more, |more| - 2);
      }
    }
  }

  ghost predicate Reachable(s: State) { exists run :: Run(run) && run[|run| - 1] == s }

  lemma ReachStep(s: State, s': State, step: Step)
    requires Reachable(s) && NextStep(s, s', step)
    ensures Reachable(s')
  {
    var run :| Run(run) && run[|run| - 1] == s;
    var more := run + [s'];
    assert Next(s, s');
    forall i | 0 <= i < |more| - 1 ensures Next(more[i], more[i + 1]) {
      if i < |run| - 1 { assert Next(run[i], run[i + 1]); }
    }
    assert more[|more| - 1] == s';
  }

  /** The first election of a process, up to the lead. */
  lemma FirstLead() returns (s: State)
    ensures Reachable(s)
    ensures s.e == Election(CheckWorker, false, false, true, true, NONE)
    ensures s.g == Gate(Free, NoWorker, true, map[])
  {
    var s0 := State(Election(Polling, false, false, false, false, NONE), Gate(Free, NoWorker, true, map[]), []);
    assert Run([s0]);
    var s1 := s0.(e := s0.e.(pc := TryLease));
    ReachStep(s0, s1, Poll);
    var s2 := s1.(e := s1.e.(leaseHeld := true, pc := SetLeader));
    ReachStep(s1, s2, LeaseAttempt(true));
    s := State(s2.e.(leader := true, pc := CheckWorker), s2.g, s2.log + [Promoted]);
    ReachStep(s2, s, PromoteStep(0));
  }

  /** ... its gate reserved and handed to the worker ... */
  lemma FirstReservation() returns (s: State)
    ensures Reachable(s)
    ensures s.e == Election(StartWatcher, false, false, true, true, NONE)
    ensures s.g == Gate(Reserved, Reconciling, true, map[])
  {
    var s3 := FirstLead();
    var s4 := State(s3.e.(pc := AwaitGate), s3.g, s3.log + []);
    ReachStep(s3, s4, PromoteStep(0));
    var s5 := State(s4.e.(pc := SpawnWorker), s4.g.(holder := Reserved), s4.log + [Reserve]);
    ReachStep(s4, s5, PromoteStep(0));
    s := State(s5.e.(pc := StartWatcher), s5.g.(worker := Reconciling), s5.log + []);
    ReachStep(s5, s, PromoteStep(0));
  }

  /** ... and on to its producers ... */
  lemma FirstProducers() returns (s: State)
    ensures Reachable(s)
    ensures s.e == Election(StartDrainer, false, false, true, true, On(true, true, false))
    ensures s.g == Gate(Reserved, Reconciling, true, map[])
  {
    var s6 := FirstReservation();
    var s7 := State(s6.e.(pc := StartScheduler, on := On(true, false, false)), s6.g, s6.log + [Started(Watcher)]);
    ReachStep(s6, s7, PromoteStep(0));
    s := State(s7.e.(pc := StartDrainer, on := On(true, true, false)), s7.g, s7.log + [Started(Scheduler)]);
    ReachStep(s7, s, PromoteStep(0));
  }

  /** ... and its drainer, which waits behind the reconciliation, still running. */
  lemma FirstWait() returns (s: State)
    ensures Reachable(s)
    ensures s.e == Election(Polling, false, false, true, true, ALL)
    ensures s.g == Gate(Reserved, Reconciling, false, map[0 := WaitingForGate])
  {
    var s8 := FirstProducers();
    var s9 := State(s8.e.(pc := Polling, on := ALL), s8.g.(drainerStop := false, drainers := map[0 := AtHead]),
                    s8.log + [Started(Drainer)]);
    ReachStep(s8, s9, PromoteStep(0));
    s := s9.(g := s9.g.(drainers := map[0 := WaitingForGate]));
    ReachStep(s9, s, DrainerLoop(0));
  }

  /** The lease is lost, and the next look at it begins the demotion. */
  lemma FirstLoss() returns (s: State)
    ensures Reachable(s)
    ensures s.e == Election(StopDrainer, false, false, true, false, ALL)
    ensures s.g == Gate(Reserved, Reconciling, false, map[0 := WaitingForGate])
  {
    var s1 := FirstWait();
    var s2 := s1.(e := s1.e.(leaseHeld := false));
    ReachStep(s1, s2, LoseLease);
    s := s2.(e := s2.e.(pc := StopDrainer));
    ReachStep(s2, s, Poll);
  }

  /** It happens: a drainer waits behind a long reconciliation, the lease is lost, the demotion
    * completes, and the process, no longer leader, can still claim. */
  lemma DemotedProcessCanClaim() returns (s: State)
    ensures Reachable(s) && s.e.pc == TryLease && !s.e.leader && CanStillClaim(s)
  {
    var s3 := FirstLoss();
    var s4 := State(DemotedBy(s3.e), s3.g.(drainerStop := true), s3.log + [DemotionEvent(StopDrainer)]);
    ReachStep(s3, s4, DemoteStep);
    var s5 := State(DemotedBy(s4.e), s4.g, s4.log + [DemotionEvent(StopScheduler)]);
    ReachStep(s4, s5, DemoteStep);
    var s6 := State(DemotedBy(s5.e), s5.g, s5.log + [DemotionEvent(StopWatcher)]);
    ReachStep(s5, s6, DemoteStep);
    s := State(DemotedBy(s6.e), s6.g, s6.log + [DemotionEvent(ClearLeader)]);
    ReachStep(s6, s, DemoteStep);
    var run :| Run(run) && run[|run| - 1] == s;
    DemotedClaimsExactlyWhenPastCheck(run, |run| - 1);
    assert s.g.drainers[0] == WaitingForGate;
  }
}
