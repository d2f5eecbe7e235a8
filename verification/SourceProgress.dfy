/** One source's progress record (src/pheasant/jobs.py, SourceProgress). */
module SourceProgress {
  import opened Options
  import opened JobSnapshots

  const RATE_SAMPLES := 30
  const FAILURE_TAIL := 25

  datatype Sample = Sample(at: int, count: int)

  /** What an update says was done, and which files failed. */
  datatype Stats = Stats(
    indexed: Option<int>, skipped: Option<int>, failed: Option<int>, bytesDone: Option<int>, failures: seq<string>)

  datatype Counts = Counts(indexed: int, skipped: int, failed: int, bytesDone: int)

  /** One call on a record, with the registry's clock reading. */
  datatype Update =
    | Observe(phase: Option<string>, current: Option<int>, total: Option<int>, detail: Option<string>,
              stats: Stats, now: int)
    | Finish(status: Status, now: int)

  datatype Record = Record(
    source: string, phase: string, current: int, total: Option<int>, detail: string, status: Status,
    samples: seq<Sample>, phaseSeconds: map<string, int>, phaseStarted: int, lastMonotonic: int,
    failures: seq<string>, counts: Counts)

  predicate Terminal(status: Status) { status != Running }

  predicate Active(r: Record) { !Terminal(r.status) }

  /** A total that Python finds truthy. */
  predicate Known(total: Option<int>) { total.Some? && total.value != 0 }

  function LastN<T>(n: nat, s: seq<T>): (r: seq<T>)
    ensures |r| <= n
  {
    if |s| <= n then s else s[|s| - n..]
  }

  function Queued(): string { "queued" }

  function Fresh(source: string, now: int): Record {
    Record(source, Queued(), 0, None, "", Running, [], map[], now, now, [], Counts(0, 0, 0, 0))
  }

  function Banked(r: Record, phase: string): int {
    if phase in r.phaseSeconds then r.phaseSeconds[phase] else 0
  }

  /** The phase in progress, banked. */
  function BankedBy(r: Record, now: int): map<string, int> {
    r.phaseSeconds[r.phase := Banked(r, r.phase) + (now - r.phaseStarted)]
  }

  predicate ChangesPhase(phase: string, u: Update) {
    u.Observe? && u.phase.Some? && u.phase.value != phase
  }

  function Or(reported: Option<int>, before: int): int {
    if reported.Some? then reported.value else before
  }

  /** Each count that is reported replaces the one before. */
  function Counted(c: Counts, stats: Stats): Counts {
    Counts(Or(stats.indexed, c.indexed), Or(stats.skipped, c.skipped), Or(stats.failed, c.failed),
           Or(stats.bytesDone, c.bytesDone))
  }

  /** The record after one update. */
  function Apply(r: Record, u: Update): Record {
    match u
    case Observe(phase, current, total, detail, stats, now) =>
      var changed := ChangesPhase(r.phase, u);
      var samples := if changed then [] else r.samples;
      r.(phase := if changed then phase.value else r.phase,
         phaseSeconds := if changed then BankedBy(r, now) else r.phaseSeconds,
         phaseStarted := if changed then now else r.phaseStarted,
         total := if total.Some? then total else if changed then None else r.total,
         current := if current.Some? then current.value else r.current,
         samples := if current.Some? then LastN(RATE_SAMPLES, samples + [Sample(now, current.value)]) else samples,
         detail := if detail.Some? then detail.value else r.detail,
         failures := LastN(FAILURE_TAIL, r.failures + stats.failures),
         counts := Counted(r.counts, stats),
         lastMonotonic := now)
    case Finish(status, now) =>
      r.(phaseSeconds := BankedBy(r, now),
         phaseStarted := now,
         status := status,
         current := if Known(r.total) then r.total.value else r.current)
  }

  /** The record as the registry holds it: fields updated in place. */
  class Progress {
    const source: string
    var phase: string
    var current: int
    var total: Option<int>
    var detail: string
    var status: Status
    var samples: seq<Sample>
    var phaseSeconds: map<string, int>
    var phaseStarted: int
    var lastMonotonic: int
    var failures: seq<string>
    var counts: Counts

    function View(): Record
      reads this
    {
      Record(source, phase, current, total, detail, status, samples, phaseSeconds, phaseStarted, lastMonotonic,
             failures, counts)
    }

    /** The deque's own bound. */
    ghost predicate Valid()
      reads this
    {
      |failures| <= FAILURE_TAIL
    }

    constructor (source: string, now: int)
      ensures Valid() && View() == Fresh(source, now)
    {
      this.source := source;
      phase, current, total, detail, status := Queued(), 0, None, "", Running;
      samples, phaseSeconds, failures, counts := [], map[], [], Counts(0, 0, 0, 0);
      phaseStarted, lastMonotonic := now, now;
    }

    /** `self.phase_seconds[self.phase] += now - self._phase_started`, then the clock restarts. */
    method Bank(now: int)
      modifies this`phaseSeconds, this`phaseStarted
      ensures phaseSeconds == old(BankedBy(View(), now))
      ensures phaseStarted == now
    {
      var banked := if phase in phaseSeconds then phaseSeconds[phase] else 0;
      phaseSeconds := phaseSeconds[phase := banked + (now - phaseStarted)];
      phaseStarted := now;
    }

    method AppendFailures(more: seq<string>)
      requires Valid()
      modifies this`failures
      ensures Valid() && failures == LastN(FAILURE_TAIL, old(failures) + more)
    {
      assert old(failures) + more[..0] == old(failures);
      for i := 0 to |more|
        invariant failures == LastN(FAILURE_TAIL, old(failures) + more[..i])
      {
        failures := LastN(FAILURE_TAIL, failures + [more[i]]);
        assert old(failures) + more[..i + 1] == (old(failures) + more[..i]) + [more[i]];
      }
      assert more[..|more|] == more;
    }

    method Report(newCurrent: int, now: int)
      modifies this`current, this`samples
      ensures current == newCurrent
      ensures samples == LastN(RATE_SAMPLES, old(samples) + [Sample(now, newCurrent)])
    {
      current := newCurrent;
      samples := LastN(RATE_SAMPLES, samples + [Sample(now, current)]);
    }

    method AddStats(stats: Stats)
      requires Valid()
      modifies this`failures, this`counts
      ensures Valid() && counts == Counted(old(counts), stats)
      ensures failures == LastN(FAILURE_TAIL, old(failures) + stats.failures)
    {
      counts := Counted(counts, stats);
      AppendFailures(stats.failures);
    }

    /** The phase changes: its time is banked, and what only meant something in it is dropped. */
    method EnterPhase(newPhase: string, newTotal: Option<int>, now: int)
      modifies this`phase, this`total, this`samples, this`phaseSeconds, this`phaseStarted
      ensures phaseSeconds == old(BankedBy(View(), now))
      ensures phase == newPhase && samples == [] && phaseStarted == now
      ensures total == if newTotal == None then None else old(total)
    {
      Bank(now);
      phase := newPhase;
      if newTotal == None {
        total := None;
      }
      samples := [];
    }

    method Observe(newPhase: Option<string>, newCurrent: Option<int>, newTotal: Option<int>,
                   newDetail: Option<string>, stats: Stats, now: int)
      requires Valid()
      modifies this
      ensures Valid()
      ensures View() == Apply(old(View()), Update.Observe(newPhase, newCurrent, newTotal, newDetail, stats, now))
    {
      ghost var before := View();
      ghost var changed := newPhase.Some? && newPhase.value != phase;
      if newPhase.Some? && newPhase.value != phase {
        EnterPhase(newPhase.value, newTotal, now);
      }
      if newTotal.Some? {
        total := newTotal;
      }
      assert total == if newTotal.Some? then newTotal else if changed then None else before.total;
      if newCurrent.Some? {
        Report(newCurrent.value, now);
      }
      if newDetail.Some? {
        detail := newDetail.value;
      }
      AddStats(stats);
      lastMonotonic := now;
    }

    method Finish(newStatus: Status, now: int)
      requires Valid()
      modifies this
      ensures Valid() && View() == Apply(old(View()), Update.Finish(newStatus, now))
    {
      Bank(now);
      status := newStatus;
      if Known(total) {
        current := total.value;
      }
    }
  }

  // ----- the record against the whole history of updates -----

  /** The record after a whole history. */
  function Play(source: string, created: int, h: seq<Update>): Record {
    if h == [] then Fresh(source, created) else Apply(Play(source, created, h[..|h| - 1]), h[|h| - 1])
  }

  /** The phase last reported. */
  function PhaseOf(h: seq<Update>): string {
    if h == [] then "queued"
    else
      var u := h[|h| - 1];
      if u.Observe? && u.phase.Some? then u.phase.value else PhaseOf(h[..|h| - 1])
  }

  /** Where the current phase begins: the index of the last update that changed the phase. */
  function PhaseStart(h: seq<Update>): (i: nat)
    ensures i <= |h|
  {
    if h == [] then 0
    else
      var n := |h| - 1;
      if ChangesPhase(PhaseOf(h[..n]), h[n]) then n else PhaseStart(h[..n])
  }

  /** The updates of the current phase, the one that opened it first. */
  function ThisPhase(h: seq<Update>): seq<Update> { h[PhaseStart(h)..] }

  /** Every counter report among some updates. */
  function Reports(updates: seq<Update>): seq<Sample> {
    if updates == [] then []
    else
      var u := updates[|updates| - 1];
      Reports(updates[..|updates| - 1]) +
      if u.Observe? && u.current.Some? then [Sample(u.now, u.current.value)] else []
  }

  /** The last total among some updates. */
  function LastTotal(updates: seq<Update>): Option<int> {
    if updates == [] then None
    else
      var u := updates[|updates| - 1];
      if u.Observe? && u.total.Some? then u.total else LastTotal(updates[..|updates| - 1])
  }

  function AllFailures(h: seq<Update>): seq<string> {
    if h == [] then []
    else
      var u := h[|h| - 1];
      AllFailures(h[..|h| - 1]) + if u.Observe? then u.stats.failures else []
  }

  lemma ThisPhaseStep(h: seq<Update>, u: Update)
    ensures ThisPhase(h + [u]) == if ChangesPhase(PhaseOf(h), u) then [u] else ThisPhase(h) + [u]
  {
    assert (h + [u])[..|h|] == h;
  }

  lemma LastNStep<T>(n: nat, s: seq<T>, x: seq<T>)
    ensures LastN(n, LastN(n, s) + x) == LastN(n, s + x)
  {
  }

  lemma {:induction false} PhaseAndFailures(source: string, created: int, h: seq<Update>)
    ensures Play(source, created, h).phase == PhaseOf(h)
    ensures Play(source, created, h).failures == LastN(FAILURE_TAIL, AllFailures(h))
  {
    if h != [] {
      var u := h[|h| - 1];
      PhaseAndFailures(source, created, h[..|h| - 1]);
      LastNStep(FAILURE_TAIL, AllFailures(h[..|h| - 1]), if u.Observe? then u.stats.failures else []);
    }
  }

  lemma ReportsStep(updates: seq<Update>, u: Update)
    ensures Reports(updates + [u]) ==
      Reports(updates) + if u.Observe? && u.current.Some? then [Sample(u.now, u.current.value)] else []
    ensures LastTotal(updates + [u]) == if u.Observe? && u.total.Some? then u.total else LastTotal(updates)
  {
    assert (updates + [u])[..|updates|] == updates;
  }

  lemma {:induction false} SamplesAndTotal(source: string, created: int, h: seq<Update>)
    ensures Play(source, created, h).samples == LastN(RATE_SAMPLES, Reports(ThisPhase(h)))
    ensures Play(source, created, h).total == LastTotal(ThisPhase(h))
  {
    if h != [] {
      var init, u := h[..|h| - 1], h[|h| - 1];
      SamplesAndTotal(source, created, init);
      PhaseAndFailures(source, created, init);
      assert h == init + [u];
      ThisPhaseStep(init, u);
      var base := if ChangesPhase(PhaseOf(init), u) then [] else ThisPhase(init);
      assert ThisPhase(h) == base + [u];
      ReportsStep(base, u);
      LastNStep(RATE_SAMPLES, Reports(base),
                if u.Observe? && u.current.Some? then [Sample(u.now, u.current.value)] else []);
    }
  }

  /** The counter: the last one reported, or the total known when the source finished. */
  function CurrentOf(h: seq<Update>): int {
    if h == [] then 0
    else
      var init, u := h[..|h| - 1], h[|h| - 1];
      match u
      case Observe(_, current, _, _, _, _) => if current.Some? then current.value else CurrentOf(init)
      case Finish(_, _) =>
        var total := LastTotal(ThisPhase(init));
        if total.Some? && total.value != 0 then total.value else CurrentOf(init)
  }

  /** How the source ended last, or that it has not. */
  function EndOf(h: seq<Update>): Status {
    if h == [] then Running
    else if h[|h| - 1].Finish? then h[|h| - 1].status
    else EndOf(h[..|h| - 1])
  }

  /** The detail last reported. */
  function DetailOf(h: seq<Update>): string {
    if h == [] then ""
    else
      var u := h[|h| - 1];
      if u.Observe? && u.detail.Some? then u.detail.value else DetailOf(h[..|h| - 1])
  }

  /** When the source last reported anything: finishing is no report. */
  function HeardAt(created: int, h: seq<Update>): int {
    if h == [] then created else if h[|h| - 1].Observe? then h[|h| - 1].now else HeardAt(created, h[..|h| - 1])
  }

  lemma {:induction false} CounterAndStatus(source: string, created: int, h: seq<Update>)
    ensures Play(source, created, h).current == CurrentOf(h) && Play(source, created, h).status == EndOf(h)
    ensures Play(source, created, h).detail == DetailOf(h)
    ensures Play(source, created, h).lastMonotonic == HeardAt(created, h)
  {
    if h != [] {
      CounterAndStatus(source, created, h[..|h| - 1]);
      SamplesAndTotal(source, created, h[..|h| - 1]);
    }
  }

  function IndexedIn(stats: Stats): Option<int> { stats.indexed }
  function SkippedIn(stats: Stats): Option<int> { stats.skipped }
  function FailedIn(stats: Stats): Option<int> { stats.failed }
  function BytesIn(stats: Stats): Option<int> { stats.bytesDone }

  /** The value a count was last reported with. */
  function LastCount(h: seq<Update>, count: Stats -> Option<int>): int {
    if h == [] then 0
    else
      var u := h[|h| - 1];
      if u.Observe? && count(u.stats).Some? then count(u.stats).value else LastCount(h[..|h| - 1], count)
  }

  lemma {:induction false} CountsAreLastReported(source: string, created: int, h: seq<Update>)
    ensures var counts := Play(source, created, h).counts;
      && counts.indexed == LastCount(h, IndexedIn) && counts.skipped == LastCount(h, SkippedIn)
      && counts.failed == LastCount(h, FailedIn) && counts.bytesDone == LastCount(h, BytesIn)
  {
    if h != [] { CountsAreLastReported(source, created, h[..|h| - 1]); }
  }

  /** The record refines its history: the phase is the last reported, the samples are the last 30
    * counter reports of the current phase, the total is the last one reported in that phase or unknown,
    * the counter is the last one reported or the total it finished at, each count is the last one
    * reported, and the failures are the last 25. */
  lemma RecordRefinesHistory(source: string, created: int, h: seq<Update>)
    ensures var r := Play(source, created, h);
      && r.phase == PhaseOf(h)
      && r.samples == LastN(30, Reports(ThisPhase(h)))
      && r.total == LastTotal(ThisPhase(h))
      && r.current == CurrentOf(h)
      && r.status == EndOf(h)
      && r.detail == DetailOf(h) && r.lastMonotonic == HeardAt(created, h)
      && r.failures == LastN(25, AllFailures(h))
      && r.counts.indexed == LastCount(h, IndexedIn) && r.counts.skipped == LastCount(h, SkippedIn)
      && r.counts.failed == LastCount(h, FailedIn) && r.counts.bytesDone == LastCount(h, BytesIn)
  {
    PhaseAndFailures(source, created, h);
    CountsAreLastReported(source, created, h);
    SamplesAndTotal(source, created, h);
    CounterAndStatus(source, created, h);
  }

  // ----- where the time went -----

  ghost function MapSum(m: map<string, int>): int {
    if m == map[] then 0
    else
      var k :| k in m;
      m[k] + MapSum(m - {k})
  }

  lemma {:induction false} MapSumWithout(m: map<string, int>, k: string)
    requires k in m
    ensures MapSum(m) == m[k] + MapSum(m - {k})
    decreases |m|
  {
    var j :| j in m && MapSum(m) == m[j] + MapSum(m - {j});
    if j != k {
      MapSumWithout(m - {j}, k);
      MapSumWithout(m - {k}, j);
      assert m - {j} - {k} == m - {k} - {j};
    }
  }

  lemma MapSumSet(m: map<string, int>, k: string, v: int)
    ensures MapSum(m[k := v]) == MapSum(m) + v - if k in m then m[k] else 0
  {
    MapSumWithout(m[k := v], k);
    assert m[k := v] - {k} == m - {k};
    if k in m {
      MapSumWithout(m, k);
    } else {
      assert m - {k} == m;
    }
  }

  /** The seconds `as_dict` reports per phase: an active record adds the phase in progress. */
  function Reported(r: Record, now: int): map<string, int> {
    if Active(r) then BankedBy(r, now) else r.phaseSeconds
  }

  lemma ApplyBanks(r: Record, u: Update)
    ensures MapSum(Apply(r, u).phaseSeconds) - Apply(r, u).phaseStarted == MapSum(r.phaseSeconds) - r.phaseStarted
  {
    MapSumSet(r.phaseSeconds, r.phase, Banked(r, r.phase) + (u.now - r.phaseStarted));
  }

  lemma {:induction false} BankedAddsUp(source: string, created: int, h: seq<Update>)
    ensures MapSum(Play(source, created, h).phaseSeconds) == Play(source, created, h).phaseStarted - created
  {
    if h != [] {
      BankedAddsUp(source, created, h[..|h| - 1]);
      ApplyBanks(Play(source, created, h[..|h| - 1]), h[|h| - 1]);
    }
  }

  /** The phase seconds account for all of the time: what is banked sums to exactly the time from
    * creation to the last banking, so the phases an active record reports sum to its age. */
  lemma PhaseSecondsAddUp(source: string, created: int, h: seq<Update>, now: int)
    ensures var r := Play(source, created, h);
      && MapSum(r.phaseSeconds) == r.phaseStarted - created
      && MapSum(Reported(r, now)) == (if Active(r) then now else r.phaseStarted) - created
  {
    BankedAddsUp(source, created, h);
    var r := Play(source, created, h);
    MapSumSet(r.phaseSeconds, r.phase, Banked(r, r.phase) + (now - r.phaseStarted));
  }

  predicate Banks(h: seq<Update>, u: Update) { u.Finish? || ChangesPhase(PhaseOf(h), u) }

  /** When time was last banked: at the last phase change or finish, else at creation. */
  function BankedAt(created: int, h: seq<Update>): int {
    if h == [] then created
    else
      var init, u := h[..|h| - 1], h[|h| - 1];
      if Banks(init, u) then u.now else BankedAt(created, init)
  }

  /** All the time spent in a phase, over every visit to it. */
  function TimeIn(created: int, h: seq<Update>, phase: string): int {
    if h == [] then 0
    else
      var init, u := h[..|h| - 1], h[|h| - 1];
      TimeIn(created, init, phase) +
      if Banks(init, u) && PhaseOf(init) == phase then u.now - BankedAt(created, init) else 0
  }

  /** Each phase is credited with its own visits and no other's, however often it ran. */
  lemma {:induction false} PhaseSecondsAreTimeIn(source: string, created: int, h: seq<Update>, phase: string)
    ensures Play(source, created, h).phaseStarted == BankedAt(created, h)
    ensures Banked(Play(source, created, h), phase) == TimeIn(created, h, phase)
  {
    if h != [] {
      PhaseSecondsAreTimeIn(source, created, h[..|h| - 1], phase);
      PhaseAndFailures(source, created, h[..|h| - 1]);
    }
  }

  // ----- observed rate -----

  /** `files_per_second`: files advanced over the window divided by its length. */
  function FilesPerSecond(r: Record): (rate: Option<real>)
    ensures rate.Some? ==> rate.value > 0.0
  {
    if |r.samples| < 2 then None
    else
      var first, last := r.samples[0], r.samples[|r.samples| - 1];
      var elapsed, advanced := last.at - first.at, last.count - first.count;
      if elapsed <= 0 || advanced <= 0 then None else Some(advanced as real / elapsed as real)
  }

  /** `eta_seconds`: what is left at the observed rate. */
  function EtaSeconds(r: Record): Option<real> {
    if FilesPerSecond(r) == None || !Known(r.total) then None
    else
      var remaining := if r.total.value > r.current then r.total.value - r.current else 0;
      Some(remaining as real / FilesPerSecond(r).value)
  }

  /** A quoted time to completion, at the quoted rate, does exactly what is left of the phase's own
    * total; there is one exactly when both the rate and the total are known. */
  lemma EtaCompletes(r: Record)
    ensures EtaSeconds(r).Some? <==> FilesPerSecond(r).Some? && r.total.Some? && r.total.value != 0
    ensures EtaSeconds(r).Some? ==>
      && EtaSeconds(r).value >= 0.0
      && FilesPerSecond(r).value * EtaSeconds(r).value ==
           (if r.total.value > r.current then r.total.value - r.current else 0) as real
  {
  }

  /** A quoted rate never compares counters of two phases: both ends of its window are reports of the
    * phase in progress, and the rate times the time between them is what was done between them. */
  lemma RateIsWithinThePhase(source: string, created: int, h: seq<Update>)
    requires FilesPerSecond(Play(source, created, h)).Some?
    ensures var rate := FilesPerSecond(Play(source, created, h)).value;
      exists first, last ::
        && first in Reports(ThisPhase(h)) && last in Reports(ThisPhase(h))
        && last == Reports(ThisPhase(h))[|Reports(ThisPhase(h))| - 1]
        && rate * (last.at - first.at) as real == (last.count - first.count) as real
  {
    SamplesAndTotal(source, created, h);
    var samples, reports := Play(source, created, h).samples, Reports(ThisPhase(h));
    assert samples == LastN(RATE_SAMPLES, reports);
    var first, last := samples[0], samples[|samples| - 1];
    assert first in reports && last == reports[|reports| - 1];
  }

  /** The window is the last 30 reports of the phase in progress, and there is a rate exactly when it has two
    * ends with time and progress between them. */
  lemma RateExactly(source: string, created: int, h: seq<Update>)
    ensures var all := Reports(ThisPhase(h));
      var first, last := if |all| <= 30 then 0 else |all| - 30, |all| - 1;
      FilesPerSecond(Play(source, created, h)).Some? <==>
        first < last && all[last].at > all[first].at && all[last].count > all[first].count
  {
    SamplesAndTotal(source, created, h);
  }
}
