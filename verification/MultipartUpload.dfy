/** The parallel multipart upload: one producer feeding a bounded job queue, worker
    processes that upload parts and complete objects, and the queues on which they
    answer (barman/cloud.py). */
module MultipartUpload {
  import opened Wrappers

  type Key = nat
  type Bytes = seq<bv8>

  datatype PartId = PartId(key: Key, number: nat)

  /** A queued job. `Stop` is the None that ends a worker. */
  datatype Job =
    | UploadPart(id: PartId, body: Bytes)
    | Complete(key: Key, parts: seq<nat>)
    | Stop

  /** How far a worker is with its job. Anything may go wrong before `Settled`. */
  datatype Stage = Taken | Acted | Settled

  datatype Worker = Idle | Busy(job: Job, stage: Stage) | Stopped

  /** The producer's side of one archive: all bytes written, the buffered tail, the
      bodies submitted so far and the part counter. */
  datatype Uploader = Uploader(
    written: Bytes,
    buffer: Option<Bytes>,
    bodies: seq<Bytes>,
    counter: nat,
    closing: bool,
    completed: bool)

  datatype UploadStatus = Uploading | Finished | Aborted

  /** Where a submitted part is. */
  datatype Place = Queued | InFlight(worker: nat) | Failed | Dropped | Returned | Recorded | Assembled

  datatype State = State(
    chunkSize: nat,
    uploaders: map<Key, Uploader>,
    queue: seq<Job>,
    unfinished: nat,
    workers: seq<Worker>,
    aborting: set<nat>,
    results: seq<PartId>,
    errors: nat,
    done: seq<(Key, UploadStatus)>,
    error: bool,
    partsDb: map<Key, seq<nat>>,
    status: map<Key, UploadStatus>,
    store: map<PartId, Bytes>,
    objects: map<Key, Bytes>,
    place: map<PartId, Place>)

  // ---------------------------------------------------------------- the provider

  function Concat(bodies: seq<Bytes>): Bytes {
    if bodies == [] then [] else Concat(bodies[..|bodies| - 1]) + bodies[|bodies| - 1]
  }

  /** The provider joins the stored parts in the order of the list it is given. */
  function Assemble(store: map<PartId, Bytes>, key: Key, parts: seq<nat>): Bytes {
    if parts == [] then []
    else
      var id := PartId(key, parts[|parts| - 1]);
      Assemble(store, key, parts[..|parts| - 1]) + (if id in store then store[id] else [])
  }

  // ---------------------------------------------------------------- the parts database

  predicate StrictlySorted(list: seq<nat>) {
    forall i, j :: 0 <= i < j < |list| ==> list[i] < list[j]
  }

  function Insert(list: seq<nat>, x: nat): seq<nat> {
    if list == [] || x < list[0] then [x] + list else [list[0]] + Insert(list[1..], x)
  }

  /** Sorting by part number. */
  function SortParts(list: seq<nat>): seq<nat> {
    if list == [] then [] else Insert(SortParts(list[1..]), list[0])
  }

  function PartsOf(db: map<Key, seq<nat>>, key: Key): seq<nat> { if key in db then db[key] else [] }

  /** The part numbers that a list of results holds for a key, in order of arrival. */
  function Arrived(results: seq<PartId>, key: Key): seq<nat> {
    if results == [] then []
    else
      Arrived(results[..|results| - 1], key) +
      (if results[|results| - 1].key == key then [results[|results| - 1].number] else [])
  }

  /** Appending every result to its key's list and sorting the lists that were touched. */
  function Merge(db: map<Key, seq<nat>>, results: seq<PartId>): map<Key, seq<nat>> {
    map k | k in db.Keys + (set r | r in results :: r.key) ::
      if Arrived(results, k) == [] then PartsOf(db, k) else SortParts(PartsOf(db, k) + Arrived(results, k))
  }

  function UpdateStatus(status: map<Key, UploadStatus>, done: seq<(Key, UploadStatus)>): map<Key, UploadStatus> {
    if done == [] then status
    else UpdateStatus(status, done[..|done| - 1])[done[|done| - 1].0 := done[|done| - 1].1]
  }

  // ---------------------------------------------------------------- steps

  datatype Step =
    // the producer
    | Open(key: Key)
    | Write(key: Key, data: Bytes)
    | StartClose(key: Key)
    | Submit(key: Key)
    | SkipSubmit(key: Key)
    | Retrieve
    | RaiseError
    | QueueComplete(key: Key)
    | PutStop
    // worker w
    | Take(w: nat)
    | Act(w: nat)
    | Report(w: nat)
    | Skip(w: nat)
    | Fail(w: nat)
    | Interrupt(w: nat)
    | TaskDone(w: nat)

  predicate IsBusy(s: State, w: nat, stages: set<Stage>) {
    w < |s.workers| && s.workers[w].Busy? && s.workers[w].stage in stages
  }

  predicate Enabled(s: State, step: Step) {
    match step
    case Open(k) => k !in s.uploaders
    case Write(k, data) =>
      k in s.uploaders && !s.uploaders[k].closing &&
      (s.uploaders[k].buffer.None? || |s.uploaders[k].buffer.value| <= s.chunkSize)
    case StartClose(k) => k in s.uploaders && !s.uploaders[k].closing
    case Submit(k) => !s.error && |s.queue| < |s.workers| && MayFlush(s, k)
    case SkipSubmit(k) => s.error && MayFlush(s, k)
    case Retrieve => s.unfinished == 0
    case RaiseError => s.errors > 0 && !s.error
    case QueueComplete(k) =>
      !s.error && k in s.uploaders && s.uploaders[k].closing && s.uploaders[k].buffer.None? && !s.uploaders[k].completed
      && |PartsOf(s.partsDb, k)| >= s.uploaders[k].counter && |s.queue| < |s.workers|
    case PutStop => |s.queue| < |s.workers|
    case Take(w) => w < |s.workers| && s.workers[w].Idle? && s.queue != []
    case Act(w) => IsBusy(s, w, {Taken}) && !s.workers[w].job.Stop? && w !in s.aborting
    case Report(w) => IsBusy(s, w, {Acted}) && !s.workers[w].job.Stop?
    case Skip(w) => IsBusy(s, w, {Taken}) && !s.workers[w].job.Stop? && w in s.aborting
    case Fail(w) => IsBusy(s, w, {Taken, Acted}) && !s.workers[w].job.Stop?
    case Interrupt(w) =>
      w < |s.workers| && (s.workers[w].Idle? || (s.workers[w].Busy? && !s.workers[w].job.Stop?))
    case TaskDone(w) => IsBusy(s, w, {Settled}) || (IsBusy(s, w, {Taken}) && s.workers[w].job.Stop?)
  }

  /** A buffer is submitted when a write finds it over the chunk size, or on closing. */
  predicate MayFlush(s: State, k: Key) {
    k in s.uploaders && s.uploaders[k].buffer.Some? && !s.uploaders[k].completed
    && (s.uploaders[k].closing || |s.uploaders[k].buffer.value| > s.chunkSize)
  }

  function SetWorker(s: State, w: nat, worker: Worker): State
    requires w < |s.workers|
  {
    s.(workers := s.workers[w := worker])
  }

  function Apply(s: State, step: Step): State
    requires Enabled(s, step)
  {
    match step
    case Open(k) =>
      s.(uploaders := s.uploaders[k := Uploader([], None, [], 0, false, false)], status := s.status[k := Uploading])
    case Write(k, data) =>
      var u := s.uploaders[k];
      var tail := if u.buffer.Some? then u.buffer.value else [];
      s.(uploaders := s.uploaders[k := u.(written := u.written + data, buffer := Some(tail + data))])
    case StartClose(k) => s.(uploaders := s.uploaders[k := s.uploaders[k].(closing := true)])
    case Submit(k) =>
      var u := s.uploaders[k];
      var id := PartId(k, u.counter + 1);
      s.(uploaders := s.uploaders[k := u.(buffer := None, bodies := u.bodies + [u.buffer.value], counter := u.counter + 1)],
         queue := s.queue + [UploadPart(id, u.buffer.value)],
         unfinished := s.unfinished + 1,
         place := s.place[id := Queued])
    case SkipSubmit(k) =>
      // An error has been reported already: the part is given up without a job.
      s.(uploaders := s.uploaders[k := s.uploaders[k].(buffer := None, counter := s.uploaders[k].counter + 1)])
    case Retrieve => RetrieveResults(s)
    case RaiseError => s.(error := true, errors := s.errors - 1)
    case QueueComplete(k) =>
      s.(queue := s.queue + [Complete(k, PartsOf(s.partsDb, k))],
         unfinished := s.unfinished + 1,
         partsDb := s.partsDb - {k},
         uploaders := s.uploaders[k := s.uploaders[k].(completed := true)],
         place := map id | id in s.place :: if id.key == k && s.place[id] == Recorded then Assembled else s.place[id])
    case PutStop => s.(queue := s.queue + [Stop], unfinished := s.unfinished + 1)
    case Take(w) =>
      var job := s.queue[0];
      SetWorker(s, w, Busy(job, Taken)).(
        queue := s.queue[1..],
        place := if job.UploadPart? then s.place[job.id := InFlight(w)] else s.place)
    case Act(w) =>
      var job := s.workers[w].job;
      var s' := SetWorker(s, w, Busy(job, Acted));
      if job.UploadPart? then s'.(store := s.store[job.id := job.body])
      else s'.(objects := s.objects[job.key := Assemble(s.store, job.key, job.parts)])
    case Report(w) =>
      var job := s.workers[w].job;
      var s' := SetWorker(s, w, Busy(job, Settled));
      if job.UploadPart? then s'.(results := s.results + [job.id], place := s.place[job.id := Returned])
      else s'.(done := s.done + [(job.key, Finished)])
    case Skip(w) =>
      var job := s.workers[w].job;
      var s' := SetWorker(s, w, Busy(job, Settled));
      if job.UploadPart? then s'.(place := s.place[job.id := Dropped])
      else s'.(done := s.done + [(job.key, Aborted)])
    case Fail(w) =>
      var job := s.workers[w].job;
      SetWorker(s, w, Busy(job, Settled)).(
        errors := s.errors + 1,
        place := if job.UploadPart? then s.place[job.id := Failed] else s.place)
    case Interrupt(w) =>
      if s.workers[w].Idle? then SetWorker(s, w, Stopped)
      else
        var job := s.workers[w].job;
        SetWorker(s, w, Busy(job, Settled)).(
          aborting := s.aborting + {w},
          place := if job.UploadPart? && s.workers[w].stage != Settled then s.place[job.id := Dropped] else s.place)
    case TaskDone(w) =>
      SetWorker(s, w, if s.workers[w].job.Stop? then Stopped else Idle).(
        unfinished := if s.unfinished > 0 then s.unfinished - 1 else 0)
  }

  /** Draining the answers once all jobs are done. */
  function RetrieveResults(s: State): State {
    s.(partsDb := Merge(s.partsDb, s.results),
       results := [],
       status := UpdateStatus(s.status, s.done),
       done := [],
       place := map id | id in s.place :: if s.place[id] == Returned then Recorded else s.place[id])
  }
}
