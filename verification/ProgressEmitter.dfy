/** The throttled progress wire of the indexing child (src/pheasant/cli.py, _progress_emitter). */
module ProgressEmitter {
  import opened Options

  /** One call of the hook; `now` is the monotonic clock read under the emitter's lock. */
  datatype Update = Update(source: string, phase: string, current: int, total: Option<int>, detail: string, now: real)

  /** What the emitter remembers of a source: its last line, or nothing yet. */
  datatype Seen = Seen(emitted: real, current: int, phase: string)

  const UNSEEN := Seen(0.0, 0, "")

  function SeenOf(last: map<string, Seen>, source: string): Seen {
    if source in last then last[source] else UNSEEN
  }

  predicate Suppressed(seen: Seen, u: Update) {
    u.phase == seen.phase && u.current - seen.current < 25 && u.now - seen.emitted < 1.0
  }

  /** The emitter: one lock, so calls take effect one after another. Its lines are the updates it
    * printed. */
  class Emitter {
    var last: map<string, Seen>
    var lines: seq<Update>

    constructor ()
      ensures last == map[] && lines == []
    {
      last, lines := map[], [];
    }

    ghost predicate Holds(stream: seq<Update>)
      reads this
    {
      lines == Lines(stream) && forall source :: SeenOf(last, source) == LastSeen(stream, source)
    }

    /** After any stream of calls the printed lines are those the stream calls for. */
    method Emit(u: Update, ghost stream: seq<Update>)
      requires Holds(stream)
      modifies this
      ensures Holds(stream + [u])
    {
      assert (stream + [u])[..|stream|] == stream;
      if u.source !in last {
        last := last[u.source := UNSEEN];
      }
      var seen := last[u.source];
      var changedPhase := u.phase != seen.phase;
      if !changedPhase && u.current - seen.current < 25 && u.now - seen.emitted < 1.0 {
        return;
      }
      last := last[u.source := Seen(u.now, u.current, u.phase)];
      lines := lines + [u];
    }
  }

  // ----- what a stream calls for -----

  /** The source's last printed line in a stream, as the emitter remembers it. */
  function LastSeen(stream: seq<Update>, source: string): Seen {
    if stream == [] then UNSEEN
    else
      var before, u := stream[..|stream| - 1], stream[|stream| - 1];
      if u.source == source && !Suppressed(LastSeen(before, source), u) then Seen(u.now, u.current, u.phase)
      else LastSeen(before, source)
  }

  predicate Prints(stream: seq<Update>, i: nat)
    requires i < |stream|
  {
    !Suppressed(LastSeen(stream[..i], stream[i].source), stream[i])
  }

  /** The updates printed, in order. */
  function Lines(stream: seq<Update>): seq<Update> {
    if stream == [] then []
    else
      var n := |stream| - 1;
      if Prints(stream, n) then Lines(stream[..n]) + [stream[n]] else Lines(stream[..n])
  }

  /** The updates of one source. */
  function Only(stream: seq<Update>, source: string): seq<Update> {
    if stream == [] then []
    else
      var n := |stream| - 1;
      if stream[n].source == source then Only(stream[..n], source) + [stream[n]] else Only(stream[..n], source)
  }

  lemma OnlyStep(s: seq<Update>, u: Update, source: string)
    ensures Only(s + [u], source) == if u.source == source then Only(s, source) + [u] else Only(s, source)
  {
    assert (s + [u])[..|s|] == s;
  }

  lemma LastSeenStep(s: seq<Update>, u: Update, source: string)
    ensures LastSeen(s + [u], source) ==
      if u.source == source && !Suppressed(LastSeen(s, source), u) then Seen(u.now, u.current, u.phase)
      else LastSeen(s, source)
  {
    assert (s + [u])[..|s|] == s;
  }

  lemma LinesStep(s: seq<Update>, u: Update)
    ensures Lines(s + [u]) == if Suppressed(LastSeen(s, u.source), u) then Lines(s) else Lines(s) + [u]
  {
    assert (s + [u])[..|s|] == s;
  }

  lemma {:induction false} LastSeenIsPrivate(stream: seq<Update>, source: string)
    ensures LastSeen(stream, source) == LastSeen(Only(stream, source), source)
  {
    if stream != [] {
      var n := |stream| - 1;
      LastSeenIsPrivate(stream[..n], source);
      if stream[n].source == source {
        LastSeenStep(Only(stream[..n], source), stream[n], source);
      }
    }
  }

  /** The lines printed for a source are exactly those an emitter of its own would print for its
    * updates alone: no other source's updates, whatever their number and order, hide or add one. */
  lemma {:induction false} SourcesAreIndependent(stream: seq<Update>, source: string)
    ensures Only(Lines(stream), source) == Lines(Only(stream, source))
  {
    if stream != [] {
      var n := |stream| - 1;
      var u := stream[n];
      SourcesAreIndependent(stream[..n], source);
      if Prints(stream, n) {
        OnlyStep(Lines(stream[..n]), u, source);
      }
      if u.source == source {
        LastSeenIsPrivate(stream[..n], source);
        LinesStep(Only(stream[..n], source), u);
      }
    }
  }

  /** The index of the source's last printed update, if it has one. */
  function LastLine(stream: seq<Update>, source: string): Option<nat> {
    if stream == [] then None
    else
      var n := |stream| - 1;
      if stream[n].source == source && Prints(stream, n) then Some(n) else LastLine(stream[..n], source)
  }

  lemma {:induction false} LastSeenIsLastLine(stream: seq<Update>, source: string)
    ensures match LastLine(stream, source)
      case None => LastSeen(stream, source) == UNSEEN
      case Some(k) =>
        && k < |stream| && stream[k].source == source && Prints(stream, k)
        && LastSeen(stream, source) == Seen(stream[k].now, stream[k].current, stream[k].phase)
        && forall j :: k < j < |stream| && stream[j].source == source ==> !Prints(stream, j)
  {
    if stream != [] {
      var n := |stream| - 1;
      LastSeenIsLastLine(stream[..n], source);
      forall j | 0 <= j < n ensures stream[..n][..j] == stream[..j] { }
    }
  }

  /** An update is withheld exactly when its source's last line has its phase, is less than 25 items
    * behind and less than a second old; without a line yet, only an update of the empty phase can be. */
  lemma WithheldExactly(stream: seq<Update>, i: nat)
    requires i < |stream|
    ensures var u := stream[i];
      match LastLine(stream[..i], u.source)
      case Some(k) =>
        k < i && (!Prints(stream, i) <==>
          stream[k].phase == u.phase && u.current < stream[k].current + 25 && u.now < stream[k].now + 1.0)
      case None => !Prints(stream, i) <==> u.phase == "" && u.current < 25 && u.now < 1.0
  {
    LastSeenIsLastLine(stream[..i], stream[i].source);
  }
}
