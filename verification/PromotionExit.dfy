/** What a process does once it is told to stop or has lost its lease, and what stands between gaining the lead
  * and starting producers (src/pheasant/cli.py, _OrchestrationSupervisor). */
module PromotionExit {
  import opened PromotionGate

  // ----- after the stop event was seen -----

  /** The ways out of the loop. */
  predicate Leaving(pc: Pc) { Demoting(pc) || pc == GiveUpLease || pc == Exited }

  ghost predicate ExitInv(e: Election) {
    && (e.exiting ==> e.stopping && Leaving(e.pc))
    && (e.pc == GiveUpLease || e.pc == Exited ==> e.exiting)
    && (e.pc == Exited ==> !e.leaseHeld)
  }

  lemma StepKeepsExitInv(s: State, s': State, step: Step)
    requires ExitInv(s.e) && NextStep(s, s', step)
    ensures ExitInv(s'.e)
    ensures s.e.stopping ==> s'.e.stopping
    ensures s.e.exiting ==> s'.e.exiting
  {
  }

  lemma {:induction false} RunKeepsExitInv(run: seq<State>, i: nat)
    requires Run(run) && i < |run|
    ensures ExitInv(run[i].e)
  {
    if i > 0 {
      RunKeepsExitInv(run, i - 1);
      var step := StepTaken(run, i - 1);
      StepKeepsExitInv(run[i - 1], run[i], step);
    }
  }

  ghost predicate Follows(e: Election, e': Election) {
    (e.stopping ==> e'.stopping) && (e.exiting ==> e'.exiting)
  }

  lemma StoppingStep(run: seq<State>, i: nat)
    requires Run(run) && i < |run| - 1
    ensures Follows(run[i].e, run[i + 1].e)
  {
    var step := StepTaken(run, i);
    RunKeepsExitInv(run, i);
    StepKeepsExitInv(run[i], run[i + 1], step);
  }

  lemma {:induction false} StoppingFollows(run: seq<State>, n: nat, m: nat)
    requires n <= m < |run| && forall i :: n <= i < m ==> Follows(run[i].e, run[i + 1].e)
    ensures Follows(run[n].e, run[m].e)
  {
    if n < m {
      StoppingFollows(run, n, m - 1);
      assert Follows(run[m - 1].e, run[m - 1 + 1].e);
    }
  }

  lemma StaysStopping(run: seq<State>, n: nat, m: nat)
    requires Run(run) && n <= m < |run|
    ensures Follows(run[n].e, run[m].e)
  {
    forall i | n <= i < m ensures Follows(run[i].e, run[i + 1].e) { StoppingStep(run, i); }
    StoppingFollows(run, n, m);
  }

  /** What a step logs. */
  function Logged(s: State, step: Step): seq<Event> {
    if step.DemoteStep? && Demoting(s.e.pc) then [DemotionEvent(s.e.pc)]
    else if step.PromoteStep? then PromotionEvents(s.e.pc)
    else GateEvents(step)
  }

  lemma StepLogs(s: State, s': State, step: Step)
    requires NextStep(s, s', step)
    ensures s'.log == s.log + Logged(s, step) && |Logged(s, step)| <= 1
  {
    if step.Poll? || step.LoseLease? || step.RequestStop? || step.LeaseAttempt? || step.ReleaseLease? {
      assert s'.log == s.log + [];
    }
  }

  /** What only a process going on with its work logs. */
  predicate Begins(e: Event) { e == Promoted || e == Reserve || e.Started? }

  lemma LeavingBeginsNothing(s: State, s': State, step: Step)
    requires ExitInv(s.e) && s.e.exiting && NextStep(s, s', step)
    ensures Logged(s, step) != [] ==> !Begins(Logged(s, step)[0])
  {
  }

  /** The second log goes on from the first, and nothing in between begins anything. */
  ghost predicate Quiet(log: seq<Event>, log': seq<Event>) {
    && |log| <= |log'|
    && (forall k :: 0 <= k < |log| ==> log'[k] == log[k])
    && (forall k :: |log| <= k < |log'| ==> !Begins(log'[k]))
  }

  lemma QuietStep(run: seq<State>, i: nat)
    requires Run(run) && i < |run| - 1 && run[i].e.exiting
    ensures Quiet(run[i].log, run[i + 1].log)
  {
    var step := StepTaken(run, i);
    RunKeepsExitInv(run, i);
    StepLogs(run[i], run[i + 1], step);
    LeavingBeginsNothing(run[i], run[i + 1], step);
  }

  lemma {:induction false} StaysQuiet(run: seq<State>, n: nat, m: nat)
    requires n <= m < |run| && forall i :: n <= i < m ==> Quiet(run[i].log, run[i + 1].log)
    ensures Quiet(run[n].log, run[m].log)
  {
    if n < m {
      StaysQuiet(run, n, m - 1);
      assert Quiet(run[m - 1].log, run[m - 1 + 1].log);
    }
  }

  /** The election loop ends at the stop event: from the moment it has seen it, the process is not promoted
    * again, does not take the gate for a reconciliation and starts no producer, in any interleaving. */
  lemma NothingBeginsAfterExit(run: seq<State>, n: nat, m: nat, k: nat)
    requires Run(run) && n <= m < |run| && run[n].e.exiting && |run[n].log| <= k < |run[m].log|
    ensures !Begins(run[m].log[k])
  {
    forall i | n <= i < m ensures Quiet(run[i].log, run[i + 1].log) {
      StaysStopping(run, n, i);
      QuietStep(run, i);
    }
    StaysQuiet(run, n, m);
  }

  // ----- the way out -----

  /** The election steps a stopping process has left. */
  function Left(e: Election): nat {
    match e.pc
    case Exited => 0
    case GiveUpLease => 1
    case ClearLeader => if e.exiting then 2 else 16
    case StopWatcher => if e.exiting then 3 else 17
    case StopScheduler => if e.exiting then 4 else 18
    case StopDrainer => if e.exiting then 5 else 19
    case Polling => 6
    case StartDrainer => 7
    case StartScheduler => 8
    case StartWatcher => 9
    case SpawnWorker => 10
    case AwaitGate => 11
    case CheckWorker => 12
    case SetLeader => 13
    case TryLease => 14
  }

  /** The steps of the election thread's own. */
  predicate Elects(step: Step) {
    step.Poll? || step.DemoteStep? || step.LeaseAttempt? || step.PromoteStep? || step.ReleaseLease?
  }

  /** Each of them brings a stopping process nearer to its end, and nothing takes it back. */
  lemma StopCountsDown(s: State, s': State, step: Step)
    requires ExitInv(s.e) && s.e.stopping && NextStep(s, s', step)
    ensures if Elects(step) then Left(s'.e) < Left(s.e) else Left(s'.e) == Left(s.e)
    ensures s.e.exiting && Elects(step) ==> Left(s'.e) == Left(s.e) - 1
    ensures s'.e.pc != s.e.pc <==> Elects(step)
  {
  }

  /** Whether the election thread moves at this step of a run. */
  function Moved(run: seq<State>, i: nat): nat
    requires i < |run| - 1
  {
    if run[i].e.pc != run[i + 1].e.pc then 1 else 0
  }

  /** How often the election thread moves between two points of a run. */
  function Moves(run: seq<State>, n: nat, m: nat): nat
    requires n <= m < |run|
  {
    if n == m then 0 else Moves(run, n, m - 1) + Moved(run, m - 1)
  }

  lemma MoveCounted(run: seq<State>, i: nat)
    requires Run(run) && i < |run| - 1 && run[i].e.stopping
    ensures Left(run[i + 1].e) + Moved(run, i) <= Left(run[i].e)
    ensures run[i].e.exiting ==> Left(run[i + 1].e) + Moved(run, i) == Left(run[i].e)
  {
    var step := StepTaken(run, i);
    RunKeepsExitInv(run, i);
    StopCountsDown(run[i], run[i + 1], step);
  }

  /** Whatever falls by at least one at each move falls by at least the moves. */
  lemma {:induction false} MovesFall(run: seq<State>, n: nat, m: nat, left: Election -> nat)
    requires n <= m < |run|
    requires forall i :: n <= i < m ==> left(run[i + 1].e) + Moved(run, i) <= left(run[i].e)
    ensures Moves(run, n, m) + left(run[m].e) <= left(run[n].e)
    ensures (forall i :: n <= i < m ==> left(run[i + 1].e) + Moved(run, i) == left(run[i].e)) ==>
      Moves(run, n, m) + left(run[m].e) == left(run[n].e)
  {
    if n < m {
      MovesFall(run, n, m - 1, left);
    }
  }

  lemma MovesBounded(run: seq<State>, n: nat, m: nat)
    requires Run(run) && n <= m < |run| && run[n].e.stopping
    ensures Moves(run, n, m) + Left(run[m].e) <= Left(run[n].e)
    ensures run[n].e.exiting ==> Moves(run, n, m) + Left(run[m].e) == Left(run[n].e)
  {
    forall i | n <= i < m
      ensures Left(run[i + 1].e) + Moved(run, i) <= Left(run[i].e)
      ensures run[n].e.exiting ==> Left(run[i + 1].e) + Moved(run, i) == Left(run[i].e)
    {
      StaysStopping(run, n, i);
      MoveCounted(run, i);
    }
    MovesFall(run, n, m, Left);
  }

  lemma LeftBounds(e: Election)
    requires ExitInv(e)
    ensures Left(e) <= 19 && (e.exiting ==> Left(e) <= 5) && (Left(e) == 0 <==> e.pc == Exited)
  {
  }

  lemma ExitedIsDown(run: seq<State>, m: nat)
    requires Run(run) && m < |run| && run[m].e.pc == Exited
    ensures !run[m].e.leader && !run[m].e.leaseHeld && run[m].e.on == NONE && run[m].g.drainerStop
  {
    RunKeepsExitInv(run, m);
    RunKeepsInv(run, m);
  }

  /** A process told to stop has at most nineteen election steps left in it, and five once it has seen the
    * event; when these are done, and only then, the thread has ended, not leading, its lease given up and
    * every producer stopped. */
  lemma StopEndsElection(run: seq<State>, n: nat, m: nat)
    requires Run(run) && n <= m < |run| && run[n].e.stopping
    ensures Moves(run, n, m) <= 19
    ensures run[n].e.exiting ==> Moves(run, n, m) <= Left(run[n].e) <= 5
    ensures run[n].e.exiting ==> (Moves(run, n, m) == Left(run[n].e) <==> run[m].e.pc == Exited)
    ensures run[m].e.pc == Exited ==>
      !run[m].e.leader && !run[m].e.leaseHeld && run[m].e.on == NONE && run[m].g.drainerStop
  {
    MovesBounded(run, n, m);
    RunKeepsExitInv(run, n);
    RunKeepsExitInv(run, m);
    LeftBounds(run[n].e);
    LeftBounds(run[m].e);
    if run[m].e.pc == Exited { ExitedIsDown(run, m); }
  }

  lemma RunGoesOn(run: seq<State>, s: State, step: Step)
    requires Run(run) && NextStep(run[|run| - 1], s, step)
    ensures Run(run + [s])
  {
    var more := run + [s];
    assert Next(run[|run| - 1], s);
    forall i | 0 <= i < |more| - 1 ensures Next(more[i], more[i + 1]) {
      if i < |run| - 1 { assert Next(run[i], run[i + 1]); }
    }
  }

  /** A drainer number past all that are in use. */
  lemma {:induction false} FreshThread(used: set<nat>) returns (t: nat)
    ensures forall u :: u in used ==> u < t
  {
    t := 0;
    if used != {} {
      var x :| x in used;
      var rest := FreshThread(used - {x});
      t := if rest > x then rest else x + 1;
      assert forall u :: u in used ==> u == x || u in used - {x};
    }
  }

  lemma PromotionMoves(s: State) returns (s': State, step: Step)
    requires Promoting(s.e.pc) && (s.e.pc == AwaitGate ==> s.g.holder == Free)
    ensures NextStep(s, s', step) && Elects(step)
  {
    var t := FreshThread(s.g.drainers.Keys);
    assert t !in s.g.drainers;
    var g := match s.e.pc
      case AwaitGate => s.g.(holder := Reserved)
      case SpawnWorker => s.g.(worker := Reconciling)
      case StartDrainer => s.g.(drainerStop := false, drainers := s.g.drainers[t := AtHead])
      case _ => s.g;
    s' := State(PromotedBy(s.e, s.g.worker != NoWorker), g, s.log + PromotionEvents(s.e.pc));
    step := PromoteStep(t);
  }

  /** The election thread can always move, but where it waits for a gate that another thread holds. */
  lemma ElectionMoves(s: State) returns (s': State, step: Step)
    requires s.e.pc != Exited && (s.e.pc == AwaitGate ==> s.g.holder == Free)
    ensures NextStep(s, s', step) && Elects(step)
  {
    match s.e.pc
    case Polling => s', step := s.(e := Polled(s.e)), Poll;
    case TryLease => s', step := s.(e := s.e.(pc := Polling)), LeaseAttempt(false);
    case GiveUpLease => s', step := s.(e := s.e.(leaseHeld := false, pc := Exited)), ReleaseLease;
    case StopDrainer | StopScheduler | StopWatcher | ClearLeader =>
      var g := if s.e.pc == StopDrainer then s.g.(drainerStop := true) else s.g;
      s', step := State(DemotedBy(s.e), g, s.log + [DemotionEvent(s.e.pc)]), DemoteStep;
    case _ => s', step := PromotionMoves(s);
  }

  /** And the holder can let go. */
  lemma HolderLetsGo(s: State) returns (s': State, step: Step)
    requires Inv(s) && s.e.pc == AwaitGate && s.g.holder != Free
    ensures NextStep(s, s', step) && !Elects(step) && s'.e == s.e && s'.g.holder == Free
  {
    if s.g.holder == Other {
      s', step := s.(g := s.g.(holder := Free)), OtherReleases;
      assert s.log + [] == s.log;
    } else {
      var t := s.g.holder.thread;
      s' := State(s.e, s.g.(holder := Free, drainers := s.g.drainers[t := AtHead]), s.log + [DrainEnd(t)]);
      step := DrainerEnds(t, false);
    }
  }

  /** Some step brings a stopping thread nearer to its end, or frees the gate it waits for. */
  lemma NearerToExit(s: State) returns (s': State, step: Step)
    requires Inv(s) && ExitInv(s.e) && s.e.stopping && s.e.pc != Exited
    ensures NextStep(s, s', step) && s'.e.stopping
    ensures Left(s'.e) < Left(s.e) || (s'.e == s.e && s.g.holder != Free && s'.g.holder == Free)
  {
    if s.e.pc == AwaitGate && s.g.holder != Free {
      s', step := HolderLetsGo(s);
    } else {
      s', step := ElectionMoves(s);
      StopCountsDown(s, s', step);
      StepKeepsExitInv(s, s', step);
    }
  }

  /** No interleaving traps a process told to stop: from wherever it is, its thread can reach its end. */
  lemma {:induction false} StoppingCanExit(run: seq<State>) returns (more: seq<State>)
    requires Run(run) && run[|run| - 1].e.stopping
    ensures Run(more) && run <= more && more[|more| - 1].e.pc == Exited
    decreases Left(run[|run| - 1].e), run[|run| - 1].g.holder != Free
  {
    if run[|run| - 1].e.pc == Exited {
      more := run;
    } else {
      RunKeepsInv(run, |run| - 1);
      RunKeepsExitInv(run, |run| - 1);
      var s', step := NearerToExit(run[|run| - 1]);
      RunGoesOn(run, s', step);
      more := StoppingCanExit(run + [s']);
    }
  }

  // ----- promotions after a stop -----

  /** Whether a process could still be on its way to the lead. */
  function Chance(e: Election): nat {
    if !e.exiting && (Demoting(e.pc) || e.pc == TryLease || e.pc == SetLeader) then 1 else 0
  }

  lemma CountAppend(log: seq<Event>, events: seq<Event>, e: Event)
    requires |events| <= 1
    ensures Count(log + events, e) == Count(log, e) + if events == [e] then 1 else 0
  {
  }

  lemma ChanceFalls(s: State, s': State, step: Step)
    requires ExitInv(s.e) && s.e.stopping && NextStep(s, s', step)
    ensures Chance(s'.e) + (if Logged(s, step) == [Promoted] then 1 else 0) <= Chance(s.e)
  {
  }

  /** Promotions so far and still possible. */
  function Promotions(s: State): nat { Count(s.log, Promoted) + Chance(s.e) }

  lemma ChanceStep(run: seq<State>, i: nat)
    requires Run(run) && i < |run| - 1 && run[i].e.stopping
    ensures Promotions(run[i + 1]) <= Promotions(run[i])
  {
    var step := StepTaken(run, i);
    RunKeepsExitInv(run, i);
    StepLogs(run[i], run[i + 1], step);
    CountAppend(run[i].log, Logged(run[i], step), Promoted);
    ChanceFalls(run[i], run[i + 1], step);
  }

  lemma {:induction false} NeverRises(run: seq<State>, n: nat, m: nat, f: State -> nat)
    requires n <= m < |run| && forall i :: n <= i < m ==> f(run[i + 1]) <= f(run[i])
    ensures f(run[m]) <= f(run[n])
  {
    if n < m {
      NeverRises(run, n, m - 1, f);
      assert f(run[m - 1 + 1]) <= f(run[m - 1]);
    }
  }

  /** A process told to stop is promoted once more at most, and only if it was already past the look at the
    * stop event that precedes an attempt at the lease. */
  lemma StoppingPromotesAtMostOnce(run: seq<State>, n: nat, m: nat)
    requires Run(run) && n <= m < |run| && run[n].e.stopping
    ensures Count(run[n].log, Promoted) + 1 >= Count(run[m].log, Promoted)
    ensures Count(run[m].log, Promoted) > Count(run[n].log, Promoted) ==>
      !run[n].e.exiting && (Demoting(run[n].e.pc) || run[n].e.pc == TryLease || run[n].e.pc == SetLeader)
  {
    forall i | n <= i < m ensures Promotions(run[i + 1]) <= Promotions(run[i]) {
      StaysStopping(run, n, i);
      ChanceStep(run, i);
    }
    NeverRises(run, n, m, Promotions);
  }

  // ----- the lease and the lead -----

  /** The stops a demotion has still to make, and the lead to give up. */
  function Phase(pc: Pc): nat {
    match pc
    case StopDrainer => 4
    case StopScheduler => 3
    case StopWatcher => 2
    case ClearLeader => 1
    case _ => 0
  }

  ghost predicate DemotedSince(log: seq<Event>, from: nat) {
    exists k :: from <= k < |log| && log[k] == Demoted
  }

  lemma PhaseStep(s: State, s': State, step: Step)
    requires NextStep(s, s', step) && Demoting(s.e.pc)
    ensures if step.DemoteStep? then Phase(s'.e.pc) == Phase(s.e.pc) - 1 else s'.e.pc == s.e.pc
    ensures s.e.pc == ClearLeader && step.DemoteStep? ==> Logged(s, step) == [Demoted]
  {
  }

  lemma DemotionGoesOn(run: seq<State>, i: nat, from: nat)
    requires Run(run) && i < |run| - 1 && from <= |run[i].log|
    ensures |run[i].log| <= |run[i + 1].log|
    ensures DemotedSince(run[i].log, from) ==> DemotedSince(run[i + 1].log, from)
    ensures Demoting(run[i].e.pc) ==>
      || DemotedSince(run[i + 1].log, from)
      || (Demoting(run[i + 1].e.pc) && Phase(run[i + 1].e.pc) + Moved(run, i) == Phase(run[i].e.pc))
  {
    var s, s' := run[i], run[i + 1];
    var step := StepTaken(run, i);
    StepLogs(s, s', step);
    if k :| from <= k < |s.log| && s.log[k] == Demoted { assert s'.log[k] == Demoted; }
    if Demoting(s.e.pc) {
      PhaseStep(s, s', step);
      if s.e.pc == ClearLeader && step.DemoteStep? { assert s'.log[|s.log|] == Demoted; }
    }
  }

  /** Demoted since the log had this many events, or at it, as many moves on as stops are made. */
  ghost predicate Demotes(run: seq<State>, i: nat, from: nat, m: nat)
    requires i <= m < |run|
  {
    && from <= |run[m].log|
    && (DemotedSince(run[m].log, from) || (Demoting(run[m].e.pc) && Moves(run, i, m) + Phase(run[m].e.pc) == 4))
  }

  lemma DemotesStep(run: seq<State>, i: nat, from: nat, m: nat)
    requires Run(run) && i <= m < |run| - 1 && Demotes(run, i, from, m)
    ensures Demotes(run, i, from, m + 1)
  {
    DemotionGoesOn(run, m, from);
  }

  lemma {:induction false} StaysDemoting(run: seq<State>, i: nat, from: nat, m: nat)
    requires i <= m < |run| && Demotes(run, i, from, i)
    requires forall k :: i <= k < m && Demotes(run, i, from, k) ==> Demotes(run, i, from, k + 1)
    ensures Demotes(run, i, from, m)
  {
    if i < m {
      StaysDemoting(run, i, from, m - 1);
      assert Demotes(run, i, from, m - 1 + 1);
    }
  }

  lemma DemotionSteps(run: seq<State>, i: nat, from: nat, m: nat)
    requires Run(run) && i <= m < |run|
    ensures forall k :: i <= k < m && Demotes(run, i, from, k) ==> Demotes(run, i, from, k + 1)
  {
    forall k | i <= k < m && Demotes(run, i, from, k) ensures Demotes(run, i, from, k + 1) {
      DemotesStep(run, i, from, k);
    }
  }

  lemma PollBegins(s: State, s': State)
    requires NextStep(s, s', Poll) && s.e.leader && (!s.e.leaseHeld || s.e.stopping)
    ensures s'.e.pc == StopDrainer && s'.log == s.log
  {
  }

  /** A leader that finds its lease lost, or the stop event set, gives up the lead: in every continuation it
    * is within its demotion or the demotion is in the log, at the latest four election steps later. */
  lemma LostLeaseDemotes(run: seq<State>, i: nat, m: nat)
    requires Run(run) && 0 < i <= m < |run| && NextStep(run[i - 1], run[i], Poll)
    requires run[i - 1].e.leader && (!run[i - 1].e.leaseHeld || run[i - 1].e.stopping)
    ensures Demotes(run, i, |run[i - 1].log|, m)
  {
    PollBegins(run[i - 1], run[i]);
    DemotionSteps(run, i, |run[i - 1].log|, m);
    StaysDemoting(run, i, |run[i - 1].log|, m);
  }

  ghost predicate Undisturbed(run: seq<State>, n: nat, m: nat)
    requires n <= m < |run|
  {
    forall i :: n <= i <= m ==> run[i].e.leaseHeld && !run[i].e.stopping
  }

  predicate Leads(e: Election) { e.leader && !Demoting(e.pc) }

  lemma LeadStep(run: seq<State>, i: nat)
    requires Run(run) && i < |run| - 1 && Leads(run[i].e) && run[i].e.leaseHeld && !run[i].e.stopping
    ensures Leads(run[i + 1].e)
  {
    var step := StepTaken(run, i);
    RunKeepsInv(run, i);
  }

  lemma {:induction false} StaysLeading(run: seq<State>, n: nat, m: nat)
    requires Run(run) && n <= m < |run| && Undisturbed(run, n, m) && Leads(run[n].e)
    ensures Leads(run[m].e)
  {
    if n < m {
      StaysLeading(run, n, m - 1);
      LeadStep(run, m - 1);
    }
  }

  /** And a process keeps the lead for as long as it holds the lease and is not told to stop. */
  lemma HeldLeaseKeepsLead(run: seq<State>, n: nat, m: nat)
    requires Run(run) && n <= m < |run| && Undisturbed(run, n, m)
    requires run[n].e.leader && !Demoting(run[n].e.pc)
    ensures run[m].e.leader && !Demoting(run[m].e.pc)
  {
    StaysLeading(run, n, m);
  }

  lemma WinStep(s: State, s': State, step: Step)
    requires NextStep(s, s', step) && s'.e.pc == SetLeader && s.e.pc != SetLeader
    ensures step == LeaseAttempt(true)
  {
  }

  ghost predicate Wins(s: State, s': State) { exists won :: won && NextStep(s, s', LeaseAttempt(won)) }

  lemma WinNext(s: State, s': State)
    requires Next(s, s') && s'.e.pc == SetLeader && s.e.pc != SetLeader
    ensures Wins(s, s')
  {
    var step :| NextStep(s, s', step);
    WinStep(s, s', step);
  }

  /** The lead is gained only by winning the lease: the attempt that won is the election thread's last step
    * before it. */
  lemma PromotedOnWonLease(run: seq<State>, i: nat) returns (j: nat)
    requires Run(run) && i < |run| && run[i].e.pc == SetLeader
    ensures j < i && Wins(run[j], run[j + 1])
    ensures forall l :: j < l <= i ==> run[l].e.pc == SetLeader
  {
    j := i;
    while j > 0 && run[j - 1].e.pc == SetLeader
      invariant j <= i && forall l :: j <= l <= i ==> run[l].e.pc == SetLeader
    {
      j := j - 1;
    }
    assert j > 0;
    j := j - 1;
    WinNext(run[j], run[j + 1]);
  }

  // ----- the gate is reserved before any producer starts -----

  predicate Starting(pc: Pc) { pc == StartWatcher || pc == StartScheduler || pc == StartDrainer }

  /** The gate was taken after the lead was last gained. */
  predicate ReservedSince(log: seq<Event>) {
    log != [] && (log[|log| - 1] == Reserve || (log[|log| - 1] != Promoted && ReservedSince(log[..|log| - 1])))
  }

  lemma ReservedAppend(log: seq<Event>, events: seq<Event>)
    requires |events| <= 1
    ensures ReservedSince(log + events) ==
      if events == [] then ReservedSince(log) else events[0] == Reserve || (events[0] != Promoted && ReservedSince(log))
  {
    if events == [] {
      assert log + events == log;
    } else {
      assert (log + events)[..|log|] == log;
    }
  }

  lemma StartFollows(s: State, s': State, step: Step)
    requires NextStep(s, s', step) && Starting(s'.e.pc) && s'.e.pc != s.e.pc
    ensures Starting(s.e.pc) || s.e.pc == SpawnWorker || (s.e.pc == CheckWorker && s.g.worker != NoWorker)
    ensures step.PromoteStep?
  {
  }

  lemma SpawnFollows(s: State, s': State, step: Step)
    requires NextStep(s, s', step) && s'.e.pc == SpawnWorker && s.e.pc != SpawnWorker
    ensures Logged(s, step) == [Reserve]
  {
  }

  lemma StartIsNoPromotion(s: State, s': State, step: Step)
    requires NextStep(s, s', step) && (Starting(s'.e.pc) || s'.e.pc == SpawnWorker) && s.e.pc != AwaitGate
    ensures Logged(s, step) != [Promoted]
  {
  }

  /** The worker of an earlier promotion was alive when this one looked: at k, with no promotion since. */
  ghost predicate WorkerWasAlive(run: seq<State>, k: nat, i: nat)
    requires k <= i < |run|
  {
    && run[k].e.pc == CheckWorker && run[k].g.worker != NoWorker
    && Count(run[k].log, Promoted) == Count(run[i].log, Promoted)
  }

  ghost predicate ReservedOrAlive(run: seq<State>, i: nat)
    requires i < |run|
  {
    || ReservedSince(run[i].log)
    || (run[i].e.pc != SpawnWorker && exists k: nat :: k <= i && WorkerWasAlive(run, k, i))
  }

  predicate Starts(e: Election) { Starting(e.pc) || e.pc == SpawnWorker }

  lemma ReservedAtEntry(run: seq<State>, i: nat)
    requires Run(run) && i < |run| - 1 && Starts(run[i + 1].e) && !Starts(run[i].e)
    ensures ReservedOrAlive(run, i + 1)
  {
    var s, s' := run[i], run[i + 1];
    var step := StepTaken(run, i);
    StepLogs(s, s', step);
    if s'.e.pc == SpawnWorker {
      SpawnFollows(s, s', step);
      ReservedAppend(s.log, Logged(s, step));
    } else {
      StartFollows(s, s', step);
      StartIsNoPromotion(s, s', step);
      CountAppend(s.log, Logged(s, step), Promoted);
      assert WorkerWasAlive(run, i, i + 1);
    }
  }

  lemma ReservedWithin(run: seq<State>, i: nat)
    requires Run(run) && i < |run| - 1 && Starts(run[i + 1].e) && Starts(run[i].e) && ReservedOrAlive(run, i)
    ensures ReservedOrAlive(run, i + 1)
  {
    var s, s' := run[i], run[i + 1];
    var step := StepTaken(run, i);
    StepLogs(s, s', step);
    StartIsNoPromotion(s, s', step);
    ReservedAppend(s.log, Logged(s, step));
    CountAppend(s.log, Logged(s, step), Promoted);
    if s'.e.pc == SpawnWorker && s.e.pc != SpawnWorker { SpawnFollows(s, s', step); }
    if k: nat :| k <= i && WorkerWasAlive(run, k, i) { assert WorkerWasAlive(run, k, i + 1); }
  }

  ghost predicate Covered(run: seq<State>, i: nat)
    requires i < |run|
  {
    Starts(run[i].e) ==> ReservedOrAlive(run, i)
  }

  lemma CoveredStep(run: seq<State>, i: nat)
    requires Run(run) && i < |run| - 1 && Covered(run, i)
    ensures Covered(run, i + 1)
  {
    if Starts(run[i + 1].e) {
      if Starts(run[i].e) { ReservedWithin(run, i); } else { ReservedAtEntry(run, i); }
    }
  }

  lemma {:induction false} StaysCovered(run: seq<State>, i: nat)
    requires i < |run| && Covered(run, 0)
    requires forall k: nat :: k < i && Covered(run, k) ==> Covered(run, k + 1)
    ensures Covered(run, i)
  {
    if i > 0 { StaysCovered(run, i - 1); }
  }

  /** Before any producer starts the gate has been taken for this promotion's reconciliation, or the worker of
    * an earlier one was still alive. */
  lemma ReservedBeforeStart(run: seq<State>, i: nat)
    requires Run(run) && i < |run| && (Starting(run[i].e.pc) || run[i].e.pc == SpawnWorker)
    ensures ReservedOrAlive(run, i)
  {
    forall k: nat | k < i && Covered(run, k) ensures Covered(run, k + 1) { CoveredStep(run, k); }
    StaysCovered(run, i);
  }
}
