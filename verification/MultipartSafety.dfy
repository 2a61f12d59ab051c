/** Whatever the interleaving, failures and interrupts: a completed object is the byte
    stream that was written, and no part is lost track of. */
module MultipartSafety {
  import opened Sequences
  import opened MultipartUpload

  // ---------------------------------------------------------------- the invariant

  predicate IsSubmitted(s: State, id: PartId) {
    id.key in s.uploaders && 1 <= id.number <= |s.uploaders[id.key].bodies|
  }

  function BodyOf(s: State, id: PartId): Bytes
    requires IsSubmitted(s, id)
  {
    s.uploaders[id.key].bodies[id.number - 1]
  }

  function Tail(u: Uploader): Bytes { if u.buffer.Some? then u.buffer.value else [] }

  /** Until an error is reported nothing written is missing; once completed, never. */
  predicate UploaderOk(u: Uploader, error: bool) {
    && (!error ==> u.counter == |u.bodies| && u.written == Concat(u.bodies) + Tail(u))
    && (u.completed ==> u.closing && u.buffer.None? && u.counter == |u.bodies| && u.written == Concat(u.bodies))
  }

  predicate At(s: State, id: PartId, p: Place) { id in s.place && s.place[id] == p }

  predicate IsPartJob(s: State, job: Job, p: Place) {
    job.UploadPart? && IsSubmitted(s, job.id) && job.body == BodyOf(s, job.id) && At(s, job.id, p)
  }

  /** The list 1, 2, ..., n. */
  predicate IsOneTo(parts: seq<nat>, n: nat) {
    |parts| == n && forall i :: 0 <= i < n ==> parts[i] == i + 1
  }

  /** A complete job carries exactly the parts 1..n, all stored by the provider. */
  predicate IsCompleteJob(s: State, job: Job) {
    && job.Complete? && job.key in s.uploaders && s.uploaders[job.key].completed
    && IsOneTo(job.parts, |s.uploaders[job.key].bodies|)
    && forall n :: 1 <= n <= |s.uploaders[job.key].bodies| ==> PartId(job.key, n) in s.store
  }

  ghost predicate UploadersOk(s: State) { forall k :: k in s.uploaders ==> UploaderOk(s.uploaders[k], s.error) }

  /** Every submitted part is in one place, and nothing else is anywhere. */
  ghost predicate PlacesOk(s: State) { forall id :: id in s.place <==> IsSubmitted(s, id) }

  ghost predicate StoreOk(s: State) {
    forall id :: id in s.store ==> IsSubmitted(s, id) && s.store[id] == BodyOf(s, id)
  }

  ghost predicate ObjectsOk(s: State) {
    forall k :: k in s.objects ==>
      k in s.uploaders && s.uploaders[k].completed && s.objects[k] == Concat(s.uploaders[k].bodies)
  }

  ghost predicate CompletedOk(s: State) {
    && (forall k :: k in s.uploaders && s.uploaders[k].completed ==> k !in s.partsDb)
    && (forall id :: At(s, id, Assembled) <==> id in s.place && id.key in s.uploaders && s.uploaders[id.key].completed)
  }

  ghost predicate ProducerOk(s: State) {
    UploadersOk(s) && PlacesOk(s) && StoreOk(s) && ObjectsOk(s) && CompletedOk(s)
  }

  ghost predicate QueueOk(s: State) {
    && (forall i :: 0 <= i < |s.queue| ==> JobOk(s, s.queue[i], Queued))
    && (forall i, j :: 0 <= i < j < |s.queue| && s.queue[i].UploadPart? && s.queue[j].UploadPart?
          ==> s.queue[i].id != s.queue[j].id)
    && (forall id :: At(s, id, Queued) ==> exists i :: 0 <= i < |s.queue| && s.queue[i].UploadPart? && s.queue[i].id == id)
  }

  predicate JobOk(s: State, job: Job, p: Place) {
    && (job.UploadPart? ==> IsPartJob(s, job, p))
    && (job.Complete? ==> IsCompleteJob(s, job))
  }

  predicate WorkerOk(s: State, w: nat)
    requires w < |s.workers|
  {
    var worker := s.workers[w];
    worker.Busy? ==>
      && (worker.job.UploadPart? && worker.stage != Settled ==> IsPartJob(s, worker.job, InFlight(w)))
      && (worker.job.UploadPart? && worker.stage == Acted ==> worker.job.id in s.store)
      && (worker.job.Complete? ==> IsCompleteJob(s, worker.job))
      && (worker.job.Complete? && worker.stage == Acted ==> worker.job.key in s.objects)
      && (worker.job.Stop? ==> worker.stage == Taken)
  }

  ghost predicate WorkersOk(s: State) {
    && (forall w :: 0 <= w < |s.workers| ==> WorkerOk(s, w))
    && (forall id, w: nat :: At(s, id, InFlight(w)) ==>
          w < |s.workers| && s.workers[w].Busy? && s.workers[w].stage != Settled
          && s.workers[w].job.UploadPart? && s.workers[w].job.id == id)
  }

  ghost predicate AnswersOk(s: State) {
    && (forall i :: 0 <= i < |s.results| ==> At(s, s.results[i], Returned) && s.results[i] in s.store)
    && (forall i, j :: 0 <= i < j < |s.results| ==> s.results[i] != s.results[j])
    && (forall id :: At(s, id, Returned) ==> id in s.results)
    && (forall k :: k in s.partsDb ==> StrictlySorted(s.partsDb[k]))
    && (forall k, n :: k in s.partsDb && n in s.partsDb[k] ==> At(s, PartId(k, n), Recorded) && PartId(k, n) in s.store)
    && (forall id :: At(s, id, Recorded) ==> id.key in s.partsDb && id.number in s.partsDb[id.key])
  }

  ghost predicate ReportsOk(s: State) {
    && (forall i :: 0 <= i < |s.done| && s.done[i].1 == Finished ==> s.done[i].0 in s.objects)
    && (forall k :: k in s.status && s.status[k] == Finished ==> k in s.objects)
    && (forall id :: At(s, id, Failed) ==> s.error || s.errors > 0)
  }

  function BusyCount(workers: seq<Worker>): nat {
    if workers == [] then 0
    else BusyCount(workers[..|workers| - 1]) + (if workers[|workers| - 1].Busy? then 1 else 0)
  }

  ghost predicate CountOk(s: State) { s.unfinished == |s.queue| + BusyCount(s.workers) }

  ghost predicate Inv(s: State) {
    ProducerOk(s) && QueueOk(s) && WorkersOk(s) && AnswersOk(s) && ReportsOk(s) && CountOk(s)
  }

  // ---------------------------------------------------------------- helpers

  lemma {:induction false} BusyCountUpdate(workers: seq<Worker>, w: nat, worker: Worker)
    requires w < |workers|
    ensures BusyCount(workers[w := worker]) + (if workers[w].Busy? then 1 else 0)
         == BusyCount(workers) + (if worker.Busy? then 1 else 0)
  {
    var init := workers[..|workers| - 1];
    if w == |workers| - 1 {
      assert workers[w := worker][..|workers| - 1] == init;
    } else {
      BusyCountUpdate(init, w, worker);
      assert workers[w := worker][..|workers| - 1] == init[w := worker];
    }
  }

  lemma {:induction false} AssembleIsConcat(s: State, key: Key, parts: seq<nat>, n: nat)
    requires StoreOk(s) && key in s.uploaders && n <= |s.uploaders[key].bodies| && IsOneTo(parts, n)
    requires forall m :: 1 <= m <= n ==> PartId(key, m) in s.store
    ensures Assemble(s.store, key, parts) == Concat(s.uploaders[key].bodies[..n])
    decreases n
  {
    if n > 0 {
      AssembleIsConcat(s, key, parts[..n - 1], n - 1);
      var bodies := s.uploaders[key].bodies;
      assert bodies[..n][..n - 1] == bodies[..n - 1];
      assert s.store[PartId(key, n)] == BodyOf(s, PartId(key, n));
    }
  }

  /** Strictly increasing numbers between 1 and n, at least n of them: they are 1..n. */
  lemma SortedFillsUp(list: seq<nat>, n: nat)
    requires StrictlySorted(list) && |list| >= n && forall i :: 0 <= i < |list| ==> 1 <= list[i] <= n
    ensures IsOneTo(list, n)
  {
    forall i | 0 <= i < |list| ensures i + 1 <= list[i] { RisesFrom(list, i); }
    forall i | 0 <= i < |list| ensures list[i] <= n - (|list| - 1 - i) { FallsTo(list, n, i); }
    if list != [] { assert 1 <= list[0] <= n - (|list| - 1); }
  }

  lemma {:induction false} RisesFrom(list: seq<nat>, i: nat)
    requires StrictlySorted(list) && i < |list| && forall k :: 0 <= k < |list| ==> 1 <= list[k]
    ensures i + 1 <= list[i]
    decreases i
  {
    if i > 0 { RisesFrom(list, i - 1); }
  }

  lemma {:induction false} FallsTo(list: seq<nat>, n: nat, i: nat)
    requires StrictlySorted(list) && i < |list| && forall k :: 0 <= k < |list| ==> list[k] <= n
    ensures list[i] <= n - (|list| - 1 - i)
    decreases |list| - i
  {
    if i + 1 < |list| { FallsTo(list, n, i + 1); }
  }

  // ---------------------------------------------------------------- sorting the answers

  lemma {:induction false} InsertEffect(list: seq<nat>, x: nat)
    requires StrictlySorted(list) && x !in list
    ensures StrictlySorted(Insert(list, x))
    ensures forall y :: y in Insert(list, x) <==> y in list || y == x
  {
    if list != [] && list[0] < x {
      var rest := list[1..];
      assert list == [list[0]] + rest;
      InsertEffect(rest, x);
      var r := Insert(rest, x);
      assert Insert(list, x) == [list[0]] + r;
      forall j | 0 <= j < |r| ensures list[0] < r[j] { assert r[j] in r; }
    } else {
      assert Insert(list, x) == [x] + list;
    }
  }

  lemma {:induction false} SortEffect(list: seq<nat>)
    requires NoDuplicates(list)
    ensures StrictlySorted(SortParts(list))
    ensures forall y :: y in SortParts(list) <==> y in list
  {
    if list != [] {
      var rest := list[1..];
      assert list == [list[0]] + rest;
      assert NoDuplicates(rest);
      SortEffect(rest);
      assert list[0] !in rest by { forall k | 0 <= k < |rest| ensures rest[k] != list[0] { assert list[k + 1] == rest[k]; } }
      InsertEffect(SortParts(rest), list[0]);
    }
  }

  lemma {:induction false} ArrivedMembership(results: seq<PartId>, key: Key, n: nat)
    ensures n in Arrived(results, key) <==> PartId(key, n) in results
  {
    if results != [] {
      var init := results[..|results| - 1];
      ArrivedMembership(init, key, n);
      assert results == init + [results[|results| - 1]];
    }
  }

  lemma {:induction false} ArrivedNoRepeats(results: seq<PartId>, key: Key)
    requires forall i, j :: 0 <= i < j < |results| ==> results[i] != results[j]
    ensures NoDuplicates(Arrived(results, key))
  {
    if results != [] {
      var init, last := results[..|results| - 1], results[|results| - 1];
      ArrivedNoRepeats(init, key);
      ArrivedMembership(init, key, last.number);
      assert last !in init;
    }
  }

  lemma MergeEffect(s: State, k: Key)
    requires AnswersOk(s) && k in Merge(s.partsDb, s.results)
    ensures StrictlySorted(Merge(s.partsDb, s.results)[k])
    ensures forall n :: n in Merge(s.partsDb, s.results)[k] <==> n in PartsOf(s.partsDb, k) || PartId(k, n) in s.results
  {
    var known, arrived := PartsOf(s.partsDb, k), Arrived(s.results, k);
    forall n ensures n in arrived <==> PartId(k, n) in s.results { ArrivedMembership(s.results, k, n); }
    ArrivedNoRepeats(s.results, k);
    assert NoDuplicates(known + arrived) by {
      forall i, j | 0 <= i < |known| && 0 <= j < |arrived| ensures known[i] != arrived[j] {
        assert arrived[j] in arrived && known[i] in known;
        assert At(s, PartId(k, known[i]), Recorded) && At(s, PartId(k, arrived[j]), Returned);
      }
    }
    if arrived != [] {
      SortEffect(known + arrived);
    } else {
      assert forall n :: n !in arrived;
    }
  }
}
