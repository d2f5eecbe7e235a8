/** Job snapshots shared across processes (src/pheasant/job_snapshots.py). A snapshot's age is the
  * evidence that its process lives. */
module JobSnapshots {
  const STALE_SECONDS := 150.0

  datatype Status = Running | Succeeded | Failed | Cancelled

  datatype SourceState = SourceState(name: string, active: bool, status: Status)

  /** `order` is what eviction sorts by: the finish time, else the start time. */
  datatype Payload = Payload(id: string, status: Status, active: bool, order: real, sources: seq<SourceState>)

  datatype File = File(payload: Payload, written: real)

  function EndSource(source: SourceState): SourceState {
    if source.active then source.(active := false, status := Failed) else source
  }

  /** `_interrupted`: the running snapshot of a process that stopped writing, as the failure it is. */
  function Interrupted(file: File): Payload {
    var sources := file.payload.sources;
    file.payload.(status := Failed, active := false, order := file.written,
                  sources := seq(|sources|, i requires 0 <= i < |sources| => EndSource(sources[i])))
  }

  /** `_read` of a file at a time. */
  function Read(file: File, now: real): Payload {
    if file.payload.active && now - file.written > STALE_SECONDS then Interrupted(file) else file.payload
  }

  /** A reader sees a job running exactly while its running snapshot is at most 150 seconds old;
    * past that it sees a failure in which no source runs either. */
  lemma ReadExactly(file: File, now: real)
    ensures Read(file, now).active <==> file.payload.active && now - file.written <= STALE_SECONDS
    ensures Read(file, now).active || !file.payload.active ==> Read(file, now) == file.payload
    ensures file.payload.active && !Read(file, now).active ==>
      && Read(file, now).status == Failed && Read(file, now).id == file.payload.id
      && |Read(file, now).sources| == |file.payload.sources|
      && forall i :: 0 <= i < |file.payload.sources| ==> !Read(file, now).sources[i].active
  {
  }

  /** Of a running snapshot found stale a reader sees every source that ran as failed, every other as it was,
    * and the end at the time of the last write; nothing else is changed. */
  lemma InterruptedExactly(file: File, now: real, i: nat)
    requires file.payload.active && now - file.written > STALE_SECONDS && i < |file.payload.sources|
    ensures var was, seen := file.payload, Read(file, now);
      && seen.id == was.id && seen.order == file.written && |seen.sources| == |was.sources|
      && seen.sources[i].name == was.sources[i].name
      && (was.sources[i].active ==> !seen.sources[i].active && seen.sources[i].status == Failed)
      && (!was.sources[i].active ==> seen.sources[i] == was.sources[i])
  {
  }
}
