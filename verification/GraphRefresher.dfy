/** Picking up a graph another process published (src/pheasant/cli.py, _GraphRefresher). The store's
  * publication stamp only grows; an announcement follows its publication and may be dropped. */
module GraphRefresher {
  /** Where the refresher's thread is: asleep on the wake event, past the wait but before `clear`,
    * past `clear`, or in `reload_graph` after it noted a stamp. */
  datatype Pc = Asleep | Woken | Cleared | Reloading

  datatype State = State(
    published: nat,       // the store's stamp; 0 before the first publication
    seen: nat,            // the stamp last acted on
    loaded: nat,          // the publication the loaded graph came from
    wake: bool,
    pc: Pc,
    subscribed: bool,
    unannounced: nat,     // publications whose announcement has not been sent yet
    inFlight: nat,        // announcements sent and not yet delivered
    missed: bool,         // an announcement was dropped, or came before the subscription, since the last look
    failed: bool)         // the last reload raised

  datatype Step =
    | PublishGraph | Announce | Deliver | Drop | Subscribe
    | WakeUp | TimeOut | ClearWake | CheckStamp | ReloadDone(from: nat) | ReloadRaises

  /** Constructed with the published graph loaded, before it subscribes. */
  ghost predicate Init(s: State) {
    && s.seen == s.published && s.loaded >= s.seen && s.loaded <= s.published
    && !s.wake && s.pc == Asleep && !s.subscribed && s.unannounced == 0 && s.inFlight == 0
    && !s.missed && !s.failed
  }

  ghost predicate NextStep(s: State, s': State, step: Step) {
    match step
    case PublishGraph => s' == s.(published := s.published + 1, unannounced := s.unannounced + 1)
    case Announce =>
      && s.unannounced > 0
      && s' == if s.subscribed then s.(unannounced := s.unannounced - 1, inFlight := s.inFlight + 1)
               else s.(unannounced := s.unannounced - 1, missed := true)
    case Deliver => s.inFlight > 0 && s' == s.(inFlight := s.inFlight - 1, wake := true)
    case Drop => s.inFlight > 0 && s' == s.(inFlight := s.inFlight - 1, missed := true)
    case Subscribe => s' == s.(subscribed := true)
    // `_run`: wait returns on the event or at the interval, then the event is cleared.
    case WakeUp => s.pc == Asleep && s.wake && s' == s.(pc := Woken)
    case TimeOut => s.pc == Asleep && s' == s.(pc := Woken)
    case ClearWake => s.pc == Woken && s' == s.(pc := Cleared, wake := false)
    // `check_once`: the stamp is read and noted before the graph is loaded.
    case CheckStamp =>
      && s.pc == Cleared
      && s' == if s.published == 0 || s.published == s.seen then s.(pc := Asleep, missed := false)
               else s.(pc := Reloading, seen := s.published, missed := false)
    // `reload_graph` loads what is published at some moment between the check and its end.
    case ReloadDone(from) =>
      && s.pc == Reloading && s.seen <= from <= s.published
      && s' == s.(pc := Asleep, loaded := from, failed := false)
    case ReloadRaises => s.pc == Reloading && s' == s.(pc := Asleep, failed := true)
  }

  ghost predicate Next(s: State, s': State) { exists step :: NextStep(s, s', step) }

  ghost predicate Run(run: seq<State>) {
    && run != [] && Init(run[0])
    && forall i :: 0 <= i < |run| - 1 ==> Next(run[i], run[i + 1])
  }

  /** A newer publication than the one seen is never forgotten: someone will still look. */
  ghost predicate NothingLost(s: State) {
    s.published == s.seen || s.unannounced > 0 || s.inFlight > 0 || s.wake || s.missed
    || s.pc == Woken || s.pc == Cleared
  }

  ghost predicate Inv(s: State) {
    && NothingLost(s)
    && s.seen <= s.published && s.loaded <= s.published
    && (s.pc != Reloading && !s.failed ==> s.loaded >= s.seen)
  }

  lemma StepKeepsInv(s: State, s': State, step: Step)
    requires Inv(s) && NextStep(s, s', step)
    ensures Inv(s')
  {
  }

  lemma {:induction false} RunKeepsInv(run: seq<State>, i: nat)
    requires Run(run) && i < |run|
    ensures Inv(run[i])
  {
    if i > 0 {
      RunKeepsInv(run, i - 1);
      var step := StepTaken(run, i - 1);
      StepKeepsInv(run[i - 1], run[i], step);
    }
  }

  lemma StepTaken(run: seq<State>, i: nat) returns (step: Step)
    requires Run(run) && i < |run| - 1
    ensures NextStep(run[i], run[i + 1], step)
  {
    assert Next(run[i], run[i + 1]);
    step :| NextStep(run[i], run[i + 1], step);
  }

  /** For every interleaving: whenever the refresher sleeps with the wake flag clear, the published
    * stamp is the one it has seen, or an announcement is still on its way, or one was missed since it
    * last looked, which is what the poll underneath is for. */
  lemma NoLostPublication(run: seq<State>, i: nat)
    requires Run(run) && i < |run| && run[i].pc == Asleep && !run[i].wake
    ensures run[i].seen == run[i].published || run[i].unannounced + run[i].inFlight > 0 || run[i].missed
  {
    RunKeepsInv(run, i);
  }

  /** One pass of the loop from where it sleeps, with no publication meanwhile and a reload that does not
    * raise: it sees the published stamp, whatever happened before. It leaves the published graph loaded
    * exactly when that stamp is not the one seen before, or its graph was loaded already. */
  lemma OnePassCatchesUpExactly(run: seq<State>, i: nat, s1: State, s2: State, s3: State, s4: State, from: nat)
    requires Run(run) && i < |run| && run[i].pc == Asleep
    requires NextStep(run[i], s1, TimeOut) && NextStep(s1, s2, ClearWake) && NextStep(s2, s3, CheckStamp)
    requires if s3.pc == Reloading then NextStep(s3, s4, ReloadDone(from)) else s4 == s3
    ensures s4.pc == Asleep && s4.seen == s4.published == run[i].published
    ensures s4.loaded == s4.published <==>
      run[i].published != run[i].seen || run[i].loaded == run[i].published
  {
    RunKeepsInv(run, i);
  }

  /** The loaded graph is never older than the stamp seen, as long as no reload has raised since the
    * last one that did not. */
  lemma LoadedNotOlderThanSeen(run: seq<State>, i: nat)
    requires Run(run) && i < |run| && run[i].pc != Reloading && !run[i].failed
    ensures run[i].seen <= run[i].loaded <= run[i].published
  {
    RunKeepsInv(run, i);
  }

  // ----- a reload that raises -----

  /** A look that changes nothing: the stamp is the one seen. */
  ghost predicate Looks(s: State, s': State) {
    exists a, b :: NextStep(s, a, TimeOut) && NextStep(a, b, ClearWake) && NextStep(b, s', CheckStamp)
  }

  ghost predicate Looking(run: seq<State>) {
    run != [] && forall i :: 0 <= i < |run| - 1 ==> Looks(run[i], run[i + 1])
  }

  /** The reload under way at this point of the run raises, of a stamp newer than the graph loaded. */
  ghost predicate RaisesBehind(run: seq<State>, k: nat)
    requires k < |run| - 1
  {
    NextStep(run[k], run[k + 1], ReloadRaises) && run[k].loaded < run[k].seen
  }

  ghost predicate Loads(s: State, s': State) { exists from :: NextStep(s, s', ReloadDone(from)) }

  /** No reload loads anything from this point of the run to that. */
  ghost predicate NoneLoads(run: seq<State>, k: nat, i: nat)
    requires k <= i < |run|
  {
    forall j :: k <= j < i ==> !Loads(run[j], run[j + 1])
  }

  lemma StepBehind(s: State, s': State, step: Step)
    requires Inv(s) && NextStep(s, s', step) && s'.pc != Reloading && s'.loaded < s'.seen
    ensures !Loads(s, s')
    ensures s.loaded < s.seen && (s.pc == Reloading ==> step.ReloadRaises?)
  {
  }

  lemma StepStaysBehind(s: State, s': State, step: Step)
    requires Inv(s) && NextStep(s, s', step) && s.loaded < s.seen && !Loads(s, s')
    ensures s'.loaded < s'.seen
  {
    if step.ReloadDone? { assert NextStep(s, s', ReloadDone(step.from)); }
  }

  lemma NoneLoadsStep(run: seq<State>, k: nat, i: nat)
    requires k < i < |run| && NoneLoads(run, k, i - 1) && !Loads(run[i - 1], run[i])
    ensures NoneLoads(run, k, i)
  {
    assert run[i - 1 + 1] == run[i];
  }

  lemma BehindBefore(run: seq<State>, i: nat)
    requires Run(run) && i < |run| && run[i].pc != Reloading && run[i].loaded < run[i].seen
    ensures i > 0 && !Loads(run[i - 1], run[i]) && run[i - 1].loaded < run[i - 1].seen
    ensures run[i - 1].pc == Reloading ==> RaisesBehind(run, i - 1)
  {
    assert i > 0;
    RunKeepsInv(run, i - 1);
    var step := StepTaken(run, i - 1);
    StepBehind(run[i - 1], run[i], step);
  }

  lemma {:induction false} BehindFromRaise(run: seq<State>, i: nat) returns (k: nat)
    requires Run(run) && i < |run| && run[i].pc != Reloading && run[i].loaded < run[i].seen
    ensures k < i && RaisesBehind(run, k) && NoneLoads(run, k, i)
  {
    BehindBefore(run, i);
    if run[i - 1].pc == Reloading {
      k := i - 1;
    } else {
      k := BehindFromRaise(run, i - 1);
    }
    NoneLoadsStep(run, k, i);
  }

  lemma NoneLoadedBefore(run: seq<State>, k: nat, i: nat)
    requires k < i < |run| && NoneLoads(run, k, i)
    ensures NoneLoads(run, k, i - 1) && !Loads(run[i - 1], run[i])
  {
    assert run[i - 1 + 1] == run[i];
  }

  lemma StaysBehind(run: seq<State>, i: nat)
    requires Run(run) && i < |run| - 1 && run[i].loaded < run[i].seen && !Loads(run[i], run[i + 1])
    ensures run[i + 1].loaded < run[i + 1].seen
  {
    RunKeepsInv(run, i);
    var step := StepTaken(run, i);
    StepStaysBehind(run[i], run[i + 1], step);
  }

  lemma {:induction false} RaiseLeavesBehind(run: seq<State>, k: nat, i: nat)
    requires Run(run) && k < i < |run| && RaisesBehind(run, k) && NoneLoads(run, k, i)
    ensures run[i].loaded < run[i].seen
  {
    if i > k + 1 {
      NoneLoadedBefore(run, k, i);
      RaiseLeavesBehind(run, k, i - 1);
      StaysBehind(run, i - 1);
    }
  }

  /** Over every run, outside a reload, the loaded graph is older than the stamp seen exactly when a reload of
    * a newer stamp raised and none has loaded since. */
  lemma BehindExactly(run: seq<State>, i: nat)
    requires Run(run) && i < |run| && run[i].pc != Reloading
    ensures run[i].loaded < run[i].seen <==> exists k :: 0 <= k < i && RaisesBehind(run, k) && NoneLoads(run, k, i)
  {
    if run[i].loaded < run[i].seen {
      var k := BehindFromRaise(run, i);
    }
    if k :| 0 <= k < i && RaisesBehind(run, k) && NoneLoads(run, k, i) {
      RaiseLeavesBehind(run, k, i);
    }
  }

  /** The log line promises a retry. There is none: the stamp was noted before the reload, so until
    * something is published again no number of polls reloads the graph. */
  lemma {:induction false} RaisedReloadIsNotRetried(s: State, looks: seq<State>, i: nat)
    requires s.pc == Asleep && s.loaded < s.seen == s.published
    requires Looking(looks) && looks[0] == s && i < |looks|
    ensures looks[i].pc == Asleep && looks[i].loaded < looks[i].published && looks[i].seen == looks[i].published
    ensures looks[i].loaded == s.loaded
  {
    if i > 0 {
      RaisedReloadIsNotRetried(s, looks, i - 1);
      assert Looks(looks[i - 1], looks[i - 1 + 1]);
    }
  }

  /** And such a state is reached: one publication, one raise. */
  lemma RaiseLeavesStaleGraph() returns (run: seq<State>)
    ensures Run(run)
    ensures var s := run[|run| - 1]; s.pc == Asleep && !s.wake && s.loaded < s.seen == s.published
  {
    var s0 := State(1, 1, 1, false, Asleep, false, 0, 0, false, false);
    var s1 := s0.(published := 2, unannounced := 1);
    assert NextStep(s0, s1, PublishGraph);
    var s2 := s1.(pc := Woken);
    assert NextStep(s1, s2, TimeOut);
    var s3 := s2.(pc := Cleared);
    assert NextStep(s2, s3, ClearWake);
    var s4 := s3.(pc := Reloading, seen := 2);
    assert NextStep(s3, s4, CheckStamp);
    var s5 := s4.(pc := Asleep, failed := true);
    assert NextStep(s4, s5, ReloadRaises);
    run := [s0, s1, s2, s3, s4, s5];
  }

  // ----- announcements -----

  /** Announcements not yet delivered or missed. */
  function Outstanding(s: State): nat { s.unannounced + s.inFlight }

  /** How many were delivered or missed in the first steps of a run. */
  function Settled(run: seq<State>, i: nat): nat
    requires i < |run|
  {
    if i == 0 then 0 else Settled(run, i - 1) + if Outstanding(run[i]) < Outstanding(run[i - 1]) then 1 else 0
  }

  lemma AccountStep(s: State, s': State)
    requires Next(s, s')
    ensures s'.published - s.published ==
      Outstanding(s') - Outstanding(s) + if Outstanding(s') < Outstanding(s) then 1 else 0
    ensures s.subscribed ==> s'.subscribed
  {
    var step :| NextStep(s, s', step);
  }

  /** Every publication has one announcement, which is still to be sent, on its way, or was delivered or
    * missed, once; and who has subscribed stays so. */
  lemma {:induction false} AnnouncementsAddUp(run: seq<State>, i: nat)
    requires Run(run) && i < |run|
    ensures run[i].published == run[0].published + Outstanding(run[i]) + Settled(run, i)
    ensures forall k :: 0 <= k <= i && run[k].subscribed ==> run[i].subscribed
  {
    if i > 0 {
      AnnouncementsAddUp(run, i - 1);
      assert Next(run[i - 1], run[i - 1 + 1]);
      AccountStep(run[i - 1], run[i]);
    }
  }

  /** An announcement is dropped, or is sent before the refresher subscribed. */
  ghost predicate Misses(s: State, s': State) {
    NextStep(s, s', Drop) || (NextStep(s, s', Announce) && !s.subscribed)
  }

  ghost predicate Checks(s: State, s': State) { s.pc == Cleared && s'.pc != Cleared }

  ghost predicate NoneChecks(run: seq<State>, k: nat, i: nat)
    requires k <= i < |run|
  {
    forall j :: k <= j < i ==> !Checks(run[j], run[j + 1])
  }

  ghost predicate MissedSince(run: seq<State>, i: nat)
    requires i < |run|
  {
    exists k: nat :: k < i && Misses(run[k], run[k + 1]) && NoneChecks(run, k, i)
  }

  lemma MissedStep(s: State, s': State)
    requires Next(s, s')
    ensures s'.missed <==> (Misses(s, s') || (s.missed && !Checks(s, s')))
    ensures Misses(s, s') ==> !Checks(s, s')
  {
    var step :| NextStep(s, s', step);
  }

  lemma MissedSinceStep(run: seq<State>, i: nat)
    requires i < |run| - 1 && (Misses(run[i], run[i + 1]) ==> !Checks(run[i], run[i + 1]))
    ensures MissedSince(run, i + 1) <==>
      (Misses(run[i], run[i + 1]) || (MissedSince(run, i) && !Checks(run[i], run[i + 1])))
  {
    if Misses(run[i], run[i + 1]) { assert NoneChecks(run, i, i + 1); }
    if k: nat :| k < i && Misses(run[k], run[k + 1]) && NoneChecks(run, k, i) {
      if !Checks(run[i], run[i + 1]) { assert NoneChecks(run, k, i + 1); }
    }
    if k: nat :| k < i + 1 && Misses(run[k], run[k + 1]) && NoneChecks(run, k, i + 1) {
      if k < i { assert NoneChecks(run, k, i); }
    }
  }

  /** What counts as missed: an announcement dropped, or sent to nobody, since the refresher last looked. */
  lemma {:induction false} MissedExactly(run: seq<State>, i: nat)
    requires Run(run) && i < |run|
    ensures run[i].missed <==> MissedSince(run, i)
  {
    if i > 0 {
      MissedExactly(run, i - 1);
      assert Next(run[i - 1], run[i - 1 + 1]);
      MissedStep(run[i - 1], run[i]);
      MissedSinceStep(run, i - 1);
    }
  }

  ghost predicate Raises(s: State, s': State) { NextStep(s, s', ReloadRaises) }

  ghost predicate RaisedSince(run: seq<State>, i: nat)
    requires i < |run|
  {
    exists k: nat :: k < i && Raises(run[k], run[k + 1]) && NoneLoads(run, k, i)
  }

  lemma FailedStep(s: State, s': State)
    requires Next(s, s')
    ensures s'.failed <==> (Raises(s, s') || (s.failed && !Loads(s, s')))
    ensures Raises(s, s') ==> !Loads(s, s')
  {
    var step :| NextStep(s, s', step);
    if step.ReloadDone? { assert NextStep(s, s', ReloadDone(step.from)); }
  }

  lemma RaisedSinceStep(run: seq<State>, i: nat)
    requires i < |run| - 1 && (Raises(run[i], run[i + 1]) ==> !Loads(run[i], run[i + 1]))
    ensures RaisedSince(run, i + 1) <==>
      (Raises(run[i], run[i + 1]) || (RaisedSince(run, i) && !Loads(run[i], run[i + 1])))
  {
    if Raises(run[i], run[i + 1]) { assert NoneLoads(run, i, i + 1); }
    if k: nat :| k < i && Raises(run[k], run[k + 1]) && NoneLoads(run, k, i) {
      if !Loads(run[i], run[i + 1]) { assert NoneLoads(run, k, i + 1); }
    }
    if k: nat :| k < i + 1 && Raises(run[k], run[k + 1]) && NoneLoads(run, k, i + 1) {
      if k < i { assert NoneLoads(run, k, i); }
    }
  }

  /** A reload counts as failed from when it raises until one loads. */
  lemma {:induction false} FailedExactly(run: seq<State>, i: nat)
    requires Run(run) && i < |run|
    ensures run[i].failed <==> RaisedSince(run, i)
  {
    if i > 0 {
      FailedExactly(run, i - 1);
      assert Next(run[i - 1], run[i - 1 + 1]);
      FailedStep(run[i - 1], run[i]);
      RaisedSinceStep(run, i - 1);
    }
  }

  /** The way an announcement takes: sent to a subscribed refresher it is delivered, wakes it, and what was
    * published is loaded, all in a pass of the loop. */
  lemma AnnouncementIsLoaded(s: State) returns (path: seq<State>)
    requires s.subscribed && s.pc == Asleep && s.unannounced > 0 && s.published > 0 && s.seen < s.published
    ensures |path| == 7 && path[0] == s
    ensures NextStep(path[0], path[1], Announce) && NextStep(path[1], path[2], Deliver)
    ensures NextStep(path[2], path[3], WakeUp) && NextStep(path[3], path[4], ClearWake)
    ensures NextStep(path[4], path[5], CheckStamp) && NextStep(path[5], path[6], ReloadDone(s.published))
    ensures path[6] == s.(unannounced := s.unannounced - 1, wake := false, seen := s.published, loaded := s.published,
                          missed := false, failed := false)
  {
    var s1 := s.(unannounced := s.unannounced - 1, inFlight := s.inFlight + 1);
    var s2 := s1.(inFlight := s.inFlight, wake := true);
    var s3 := s2.(pc := Woken);
    var s4 := s3.(pc := Cleared, wake := false);
    var s5 := s4.(pc := Reloading, seen := s.published, missed := false);
    var s6 := s5.(pc := Asleep, loaded := s.published, failed := false);
    path := [s, s1, s2, s3, s4, s5, s6];
  }

  /** And such a state is reached: the refresher subscribes and a graph is published. */
  lemma SubscribedPublication() returns (run: seq<State>)
    ensures Run(run)
    ensures var s := run[|run| - 1]; s.subscribed && s.pc == Asleep && s.unannounced == 1 && 0 < s.seen < s.published
  {
    var s0 := State(1, 1, 1, false, Asleep, false, 0, 0, false, false);
    var s1 := s0.(subscribed := true);
    assert NextStep(s0, s1, Subscribe);
    var s2 := s1.(published := 2, unannounced := 1);
    assert NextStep(s1, s2, PublishGraph);
    run := [s0, s1, s2];
  }
}
