/** The steps of the upload protocol, one by one, and its runs. */
module MultipartRuns {
  import opened Wrappers
  import opened MultipartUpload
  import opened MultipartSafety

  // ---------------------------------------------------------------- what a step leaves alone

  /** Bodies are only added, completed archives are settled, the store only grows. */
  ghost predicate Grows(s: State, s': State) {
    && (forall k :: k in s.uploaders ==> k in s'.uploaders && s.uploaders[k].bodies <= s'.uploaders[k].bodies)
    && (forall k :: k in s.uploaders && s.uploaders[k].completed ==> s'.uploaders[k] == s.uploaders[k])
    && (forall id :: id in s.store ==> id in s'.store)
    && (forall k :: k in s.objects ==> k in s'.objects)
  }

  lemma JobCarries(s: State, s': State, job: Job, p: Place)
    requires Grows(s, s')
    ensures IsPartJob(s, job, p) && At(s', job.id, p) ==> IsPartJob(s', job, p)
    ensures IsCompleteJob(s, job) ==> IsCompleteJob(s', job)
  {
  }

  lemma CarryQueue(s: State, s': State)
    requires QueueOk(s) && Grows(s, s') && s'.queue == s.queue
    requires forall id :: At(s, id, Queued) <==> At(s', id, Queued)
    ensures QueueOk(s')
  {
    forall i | 0 <= i < |s'.queue| ensures JobOk(s', s'.queue[i], Queued) {
      JobCarries(s, s', s.queue[i], Queued);
    }
  }

  lemma WorkerCarries(s: State, s': State, w: nat)
    requires Grows(s, s') && w < |s.workers| && w < |s'.workers| && s'.workers[w] == s.workers[w]
    requires WorkerOk(s, w)
    requires forall id :: At(s, id, InFlight(w)) ==> At(s', id, InFlight(w))
    ensures WorkerOk(s', w)
  {
    var worker := s.workers[w];
    if worker.Busy? { JobCarries(s, s', worker.job, InFlight(w)); }
  }

  lemma CarryWorkers(s: State, s': State)
    requires WorkersOk(s) && Grows(s, s') && s'.workers == s.workers
    requires forall id, w: nat :: At(s, id, InFlight(w)) <==> At(s', id, InFlight(w))
    ensures WorkersOk(s')
  {
    forall w | 0 <= w < |s'.workers| ensures WorkerOk(s', w) { WorkerCarries(s, s', w); }
  }

  /** One worker moves on; the parts in flight elsewhere stay where they are. */
  lemma CarryOtherWorkers(s: State, s': State, w: nat)
    requires WorkersOk(s) && Grows(s, s') && w < |s.workers| == |s'.workers| && s'.workers == s.workers[w := s'.workers[w]]
    requires forall id, x: nat :: x != w ==> (At(s, id, InFlight(x)) <==> At(s', id, InFlight(x)))
    requires WorkerOk(s', w)
    requires forall id :: At(s', id, InFlight(w)) ==>
      s'.workers[w].Busy? && s'.workers[w].stage != Settled && s'.workers[w].job.UploadPart? && s'.workers[w].job.id == id
    ensures WorkersOk(s')
  {
    forall x | 0 <= x < |s'.workers| ensures WorkerOk(s', x) {
      if x != w { WorkerCarries(s, s', x); }
    }
  }

  lemma CarryAnswers(s: State, s': State)
    requires AnswersOk(s) && Grows(s, s') && s'.results == s.results && s'.partsDb == s.partsDb
    requires forall id :: At(s, id, Returned) <==> At(s', id, Returned)
    requires forall id :: At(s, id, Recorded) <==> At(s', id, Recorded)
    ensures AnswersOk(s')
  {
  }

  lemma CarryProducer(s: State, s': State)
    requires ProducerOk(s) && s'.uploaders == s.uploaders && s'.store == s.store && s'.objects == s.objects
    requires s'.partsDb == s.partsDb && (s.error ==> s'.error) && s'.place.Keys == s.place.Keys
    requires forall id :: At(s, id, Assembled) <==> At(s', id, Assembled)
    ensures ProducerOk(s')
  {
    assert forall id :: IsSubmitted(s', id) <==> IsSubmitted(s, id);
    forall k | k in s'.uploaders ensures UploaderOk(s'.uploaders[k], s'.error) {
      assert UploaderOk(s.uploaders[k], s.error);
    }
  }

  lemma CarryReports(s: State, s': State)
    requires ReportsOk(s) && s'.done == s.done && forall k :: k in s.objects ==> k in s'.objects
    requires forall k :: k in s'.status && s'.status[k] == Finished ==> k in s.status && s.status[k] == Finished
    requires forall id :: At(s', id, Failed) ==> At(s, id, Failed)
    requires s.error || s.errors > 0 ==> s'.error || s'.errors > 0
    ensures ReportsOk(s')
  {
  }

  // ---------------------------------------------------------------- the producer's steps

  lemma OpenKeepsProducer(s: State, s': State, k: Key)
    requires ProducerOk(s) && k !in s.uploaders && s' == Apply(s, Open(k))
    ensures ProducerOk(s')
  {
    assert forall id :: IsSubmitted(s', id) <==> IsSubmitted(s, id);
    assert UploaderOk(s'.uploaders[k], s'.error) by { assert Concat([]) + [] == []; }
  }

  lemma OpenKeepsInv(s: State, step: Step)
    requires Inv(s) && step.Open? && Enabled(s, step)
    ensures Inv(Apply(s, step))
  {
    hide ProducerOk, QueueOk, WorkersOk, AnswersOk, ReportsOk;
    var s' := Apply(s, step);
    OpenKeepsProducer(s, s', step.key);
    CarryQueue(s, s');
    CarryWorkers(s, s');
    CarryAnswers(s, s');
    CarryReports(s, s');
  }

  /** Steps that only touch the buffer and flags of an archive in the making. */
  lemma BufferKeepsProducer(s: State, s': State, k: Key, u: Uploader)
    requires ProducerOk(s) && k in s.uploaders && !s.uploaders[k].completed
    requires u.bodies == s.uploaders[k].bodies && !u.completed && UploaderOk(u, s.error)
    requires s' == s.(uploaders := s.uploaders[k := u])
    ensures ProducerOk(s')
  {
    assert forall id :: IsSubmitted(s', id) <==> IsSubmitted(s, id);
  }

  lemma BufferKeepsInv(s: State, k: Key, u: Uploader)
    requires Inv(s) && k in s.uploaders && !s.uploaders[k].completed
    requires u.bodies == s.uploaders[k].bodies && !u.completed && UploaderOk(u, s.error)
    ensures Inv(s.(uploaders := s.uploaders[k := u]))
  {
    hide ProducerOk, QueueOk, WorkersOk, AnswersOk, ReportsOk;
    var s' := s.(uploaders := s.uploaders[k := u]);
    BufferKeepsProducer(s, s', k, u);
    CarryQueue(s, s');
    CarryWorkers(s, s');
    CarryAnswers(s, s');
    CarryReports(s, s');
  }

  lemma TheUploader(s: State, k: Key)
    requires ProducerOk(s) && k in s.uploaders
    ensures UploaderOk(s.uploaders[k], s.error)
  {
  }

  lemma WriteKeepsInv(s: State, step: Step)
    requires Inv(s) && step.Write? && Enabled(s, step)
    ensures Inv(Apply(s, step))
  {
    hide ProducerOk, QueueOk, WorkersOk, AnswersOk, ReportsOk;
    TheUploader(s, step.key);
    var u := s.uploaders[step.key];
    assert Concat(u.bodies) + (Tail(u) + step.data) == (Concat(u.bodies) + Tail(u)) + step.data;
    BufferKeepsInv(s, step.key, u.(written := u.written + step.data, buffer := Some(Tail(u) + step.data)));
  }

  lemma StartCloseKeepsInv(s: State, step: Step)
    requires Inv(s) && step.StartClose? && Enabled(s, step)
    ensures Inv(Apply(s, step))
  {
    hide ProducerOk, QueueOk, WorkersOk, AnswersOk, ReportsOk;
    TheUploader(s, step.key);
    BufferKeepsInv(s, step.key, s.uploaders[step.key].(closing := true));
  }

  lemma SkipSubmitKeepsInv(s: State, step: Step)
    requires Inv(s) && step.SkipSubmit? && Enabled(s, step)
    ensures Inv(Apply(s, step))
  {
    hide ProducerOk, QueueOk, WorkersOk, AnswersOk, ReportsOk;
    TheUploader(s, step.key);
    var u := s.uploaders[step.key];
    BufferKeepsInv(s, step.key, u.(buffer := None, counter := u.counter + 1));
  }

  lemma SubmittedUploaderOk(u: Uploader)
    requires UploaderOk(u, false) && u.buffer.Some? && !u.completed
    ensures UploaderOk(u.(buffer := None, bodies := u.bodies + [u.buffer.value], counter := u.counter + 1), false)
  {
    var bodies := u.bodies + [u.buffer.value];
    assert bodies[..|bodies| - 1] == u.bodies;
    assert Concat(bodies) + [] == Concat(bodies);
  }

  lemma SubmitKeepsUploaders(s: State, s': State, k: Key)
    requires UploadersOk(s) && k in s.uploaders && k in s'.uploaders && s'.uploaders == s.uploaders[k := s'.uploaders[k]]
    requires UploaderOk(s'.uploaders[k], s'.error) && s'.error == s.error
    ensures UploadersOk(s')
  {
  }

  /** The part `id` is the next one of its archive. */
  ghost predicate NextPart(s: State, s': State, id: PartId) {
    && id.key in s.uploaders && id.key in s'.uploaders && !s.uploaders[id.key].completed && !s'.uploaders[id.key].completed
    && s'.uploaders == s.uploaders[id.key := s'.uploaders[id.key]] && id.number == |s.uploaders[id.key].bodies| + 1
    && |s'.uploaders[id.key].bodies| == id.number
    && (forall i :: 0 <= i < id.number - 1 ==> s'.uploaders[id.key].bodies[i] == s.uploaders[id.key].bodies[i])
  }

  lemma SubmitKeepsPlaces(s: State, s': State, id: PartId)
    requires PlacesOk(s) && CompletedOk(s) && NextPart(s, s', id) && s'.place == s.place[id := Queued] && s'.partsDb == s.partsDb
    ensures PlacesOk(s') && CompletedOk(s') && id !in s.place
  {
    assert !IsSubmitted(s, id);
    assert forall x :: IsSubmitted(s', x) <==> IsSubmitted(s, x) || x == id;
    forall x | x in s'.place && s'.uploaders[x.key].completed ensures At(s', x, Assembled) {
      assert x in s.place && s.uploaders[x.key].completed;
      assert At(s, x, Assembled);
    }
  }

  lemma SubmitKeepsStore(s: State, s': State, id: PartId)
    requires StoreOk(s) && NextPart(s, s', id) && s'.store == s.store
    ensures StoreOk(s')
  {
  }

  lemma SubmitKeepsObjects(s: State, s': State, k: Key)
    requires ObjectsOk(s) && k in s.uploaders && !s.uploaders[k].completed && k in s'.uploaders
    requires s'.uploaders == s.uploaders[k := s'.uploaders[k]] && s'.objects == s.objects
    ensures ObjectsOk(s')
  {
  }

  lemma SubmitGrows(s: State, s': State, id: PartId)
    requires NextPart(s, s', id) && s'.store == s.store && s'.objects == s.objects
    ensures Grows(s, s')
  {
    var k := id.key;
    assert s'.uploaders[k].bodies[..|s.uploaders[k].bodies|] == s.uploaders[k].bodies;
  }

  lemma SubmitKeepsProducer(s: State, s': State, k: Key, id: PartId)
    requires ProducerOk(s) && NextPart(s, s', id) && id.key == k
    requires UploaderOk(s'.uploaders[k], s'.error) && s'.place == s.place[id := Queued] && s'.partsDb == s.partsDb
    requires s'.store == s.store && s'.objects == s.objects && s'.error == s.error
    ensures ProducerOk(s') && Grows(s, s') && id !in s.place
  {
    hide UploadersOk, PlacesOk, StoreOk, ObjectsOk, CompletedOk;
    SubmitKeepsUploaders(s, s', k);
    SubmitKeepsPlaces(s, s', id);
    SubmitKeepsStore(s, s', id);
    SubmitKeepsObjects(s, s', k);
    SubmitGrows(s, s', id);
  }

  lemma SubmitKeepsInv(s: State, step: Step)
    requires Inv(s) && step.Submit? && Enabled(s, step)
    ensures Inv(Apply(s, step))
  {
    hide ProducerOk, QueueOk, WorkersOk, AnswersOk, ReportsOk;
    var k, s' := step.key, Apply(s, step);
    TheUploader(s, k);
    SubmittedUploaderOk(s.uploaders[k]);
    var id := PartId(k, s.uploaders[k].counter + 1);
    SubmitKeepsProducer(s, s', k, id);
    SubmitKeepsQueue(s, s', id);
    CarryWorkers(s, s');
    CarryAnswers(s, s');
    CarryReports(s, s');
  }

  lemma SubmittedIsNew(s: State, id: PartId, i: nat)
    requires QueueOk(s) && id !in s.place && i < |s.queue|
    ensures s.queue[i].UploadPart? ==> s.queue[i].id != id
  {
    assert JobOk(s, s.queue[i], Queued);
  }

  lemma QueuedIsFound(s: State, id: PartId) returns (i: nat)
    requires QueueOk(s) && At(s, id, Queued)
    ensures i < |s.queue| && s.queue[i].UploadPart? && s.queue[i].id == id
  {
    i :| 0 <= i < |s.queue| && s.queue[i].UploadPart? && s.queue[i].id == id;
  }

  lemma QueuedJob(s: State, i: nat)
    requires QueueOk(s) && i < |s.queue|
    ensures JobOk(s, s.queue[i], Queued)
    ensures forall j :: 0 <= j < |s.queue| && j != i && s.queue[i].UploadPart? && s.queue[j].UploadPart?
              ==> s.queue[i].id != s.queue[j].id
  {
    forall j | 0 <= j < |s.queue| && j != i && s.queue[i].UploadPart? && s.queue[j].UploadPart?
      ensures s.queue[i].id != s.queue[j].id
    {
      assert if i < j then s.queue[i].id != s.queue[j].id else s.queue[j].id != s.queue[i].id;
    }
  }

  lemma SubmitKeepsQueue(s: State, s': State, id: PartId)
    requires QueueOk(s) && Grows(s, s') && id !in s.place && s'.place == s.place[id := Queued]
    requires |s'.queue| == |s.queue| + 1 && s'.queue[..|s.queue|] == s.queue
    requires IsPartJob(s', s'.queue[|s.queue|], Queued) && s'.queue[|s.queue|].id == id
    ensures QueueOk(s')
  {
    var n := |s.queue|;
    forall i | 0 <= i < n ensures s'.queue[i] == s.queue[i] { assert s'.queue[..n][i] == s'.queue[i]; }
    forall i | 0 <= i < |s'.queue| ensures JobOk(s', s'.queue[i], Queued) {
      if i < n {
        QueuedJob(s, i);
        JobCarries(s, s', s.queue[i], Queued);
      }
    }
    forall i, j | 0 <= i < j < |s'.queue| && s'.queue[i].UploadPart? && s'.queue[j].UploadPart?
      ensures s'.queue[i].id != s'.queue[j].id
    {
      QueuedJob(s, i);
      SubmittedIsNew(s, id, i);
    }
    forall x | At(s', x, Queued) ensures exists i :: 0 <= i < |s'.queue| && s'.queue[i].UploadPart? && s'.queue[i].id == x {
      if x == id {
        assert s'.queue[n].id == x;
      } else {
        var i := QueuedIsFound(s, x);
        assert s'.queue[i] == s.queue[i];
      }
    }
  }

  /** Adding a job that is not a part. */
  lemma EnqueueKeepsQueue(s: State, s': State, job: Job)
    requires QueueOk(s) && Grows(s, s') && s'.queue == s.queue + [job] && !job.UploadPart?
    requires job.Complete? ==> IsCompleteJob(s', job)
    requires forall id :: At(s, id, Queued) <==> At(s', id, Queued)
    ensures QueueOk(s')
  {
    forall i | 0 <= i < |s'.queue| ensures JobOk(s', s'.queue[i], Queued) {
      if i < |s.queue| {
        assert s'.queue[i] == s.queue[i];
        JobCarries(s, s', s.queue[i], Queued);
      }
    }
    forall x | At(s', x, Queued) ensures exists i :: 0 <= i < |s'.queue| && s'.queue[i].UploadPart? && s'.queue[i].id == x {
      var i :| 0 <= i < |s.queue| && s.queue[i].UploadPart? && s.queue[i].id == x;
      assert s'.queue[i] == s.queue[i];
    }
  }

  lemma PutStopKeepsInv(s: State, step: Step)
    requires Inv(s) && step.PutStop? && Enabled(s, step)
    ensures Inv(Apply(s, step))
  {
    hide ProducerOk, QueueOk, WorkersOk, AnswersOk, ReportsOk;
    var s' := Apply(s, step);
    CarryProducer(s, s');
    EnqueueKeepsQueue(s, s', Stop);
    CarryWorkers(s, s');
    CarryAnswers(s, s');
    CarryReports(s, s');
  }

  lemma RaiseErrorKeepsInv(s: State, step: Step)
    requires Inv(s) && step.RaiseError? && Enabled(s, step)
    ensures Inv(Apply(s, step))
  {
    hide ProducerOk, QueueOk, WorkersOk, AnswersOk, ReportsOk;
    var s' := Apply(s, step);
    CarryProducer(s, s');
    CarryQueue(s, s');
    CarryWorkers(s, s');
    CarryAnswers(s, s');
    CarryReports(s, s');
  }

  /** Waiting for as many parts as were submitted is waiting for exactly those. */
  lemma AllPartsRecorded(s: State, k: Key)
    requires ProducerOk(s) && AnswersOk(s) && k in s.uploaders
    requires |PartsOf(s.partsDb, k)| >= |s.uploaders[k].bodies|
    ensures IsOneTo(PartsOf(s.partsDb, k), |s.uploaders[k].bodies|)
    ensures forall id :: IsSubmitted(s, id) && id.key == k ==> At(s, id, Recorded) && id in s.store
  {
    var n, list := |s.uploaders[k].bodies|, PartsOf(s.partsDb, k);
    forall i | 0 <= i < |list| ensures 1 <= list[i] <= n {
      assert list[i] in list;
      assert IsSubmitted(s, PartId(k, list[i]));
    }
    SortedFillsUp(list, n);
    forall id | IsSubmitted(s, id) && id.key == k ensures At(s, id, Recorded) && id in s.store {
      assert list[id.number - 1] == id.number;
      assert id == PartId(k, id.number);
    }
  }

  lemma CompleteKeepsPlaces(s: State, s': State, k: Key)
    requires PlacesOk(s) && CompletedOk(s) && Enabled(s, QueueComplete(k)) && s' == Apply(s, QueueComplete(k))
    requires forall id :: IsSubmitted(s, id) && id.key == k ==> At(s, id, Recorded)
    ensures PlacesOk(s') && CompletedOk(s')
  {
    assert forall id :: IsSubmitted(s', id) <==> IsSubmitted(s, id);
    assert forall id :: At(s', id, Assembled) <==> At(s, id, Assembled) || (id.key == k && At(s, id, Recorded));
  }

  lemma CompleteKeepsStore(s: State, s': State, k: Key)
    requires StoreOk(s) && Enabled(s, QueueComplete(k)) && s' == Apply(s, QueueComplete(k))
    ensures StoreOk(s')
  {
    assert forall id :: IsSubmitted(s', id) <==> IsSubmitted(s, id);
  }

  lemma CompleteKeepsProducer(s: State, s': State, k: Key)
    requires ProducerOk(s) && Enabled(s, QueueComplete(k)) && s' == Apply(s, QueueComplete(k))
    requires forall id :: IsSubmitted(s, id) && id.key == k ==> At(s, id, Recorded)
    ensures ProducerOk(s')
  {
    TheUploader(s, k);
    assert Concat(s.uploaders[k].bodies) + [] == Concat(s.uploaders[k].bodies);
    hide UploadersOk, PlacesOk, StoreOk, ObjectsOk, CompletedOk;
    CompleteKeepsPlaces(s, s', k);
    SubmitKeepsUploaders(s, s', k);
    CompleteKeepsStore(s, s', k);
    SubmitKeepsObjects(s, s', k);
  }

  lemma QueueCompleteKeepsInv(s: State, step: Step)
    requires Inv(s) && step.QueueComplete? && Enabled(s, step)
    ensures Inv(Apply(s, step))
  {
    hide ProducerOk, QueueOk, WorkersOk, AnswersOk, ReportsOk;
    var k, s' := step.key, Apply(s, step);
    TheUploader(s, k);
    AllPartsRecorded(s, k);
    CompleteKeepsProducer(s, s', k);
    forall n | 1 <= n <= |s.uploaders[k].bodies| ensures PartId(k, n) in s.store {
      assert IsSubmitted(s, PartId(k, n));
    }
    EnqueueKeepsQueue(s, s', Complete(k, PartsOf(s.partsDb, k)));
    CarryWorkers(s, s');
    CompleteKeepsAnswers(s, s', k);
    CarryReports(s, s');
  }

  lemma CompleteKeepsAnswers(s: State, s': State, k: Key)
    requires AnswersOk(s) && s'.results == s.results && s'.partsDb == s.partsDb - {k} && s'.store == s.store
    requires s'.place == map id | id in s.place :: if id.key == k && s.place[id] == Recorded then Assembled else s.place[id]
    ensures AnswersOk(s')
  {
    assert forall id :: At(s', id, Returned) <==> At(s, id, Returned);
    assert forall id :: At(s', id, Recorded) <==> At(s, id, Recorded) && id.key != k;
  }

  lemma RetrieveKeepsCompleted(s: State, s': State)
    requires CompletedOk(s) && AnswersOk(s) && s' == RetrieveResults(s)
    ensures CompletedOk(s')
  {
    forall k | k in s'.partsDb ensures !(k in s.uploaders && s.uploaders[k].completed) {
      if k !in s.partsDb {
        var id :| id in s.results && id.key == k;
        var i :| 0 <= i < |s.results| && s.results[i] == id;
        assert At(s, id, Returned) && !At(s, id, Assembled);
      }
    }
    assert forall id :: At(s', id, Assembled) <==> At(s, id, Assembled);
  }

  lemma RetrieveFrame(s: State, s': State)
    requires UploadersOk(s) && PlacesOk(s) && StoreOk(s) && ObjectsOk(s)
    requires s'.uploaders == s.uploaders && s'.error == s.error && s'.store == s.store && s'.objects == s.objects
    requires s'.place.Keys == s.place.Keys
    ensures UploadersOk(s') && PlacesOk(s') && StoreOk(s') && ObjectsOk(s')
  {
    assert forall id :: IsSubmitted(s', id) <==> IsSubmitted(s, id);
  }

  lemma RetrieveKeepsProducer(s: State, s': State)
    requires ProducerOk(s) && AnswersOk(s) && s' == RetrieveResults(s)
    ensures ProducerOk(s')
  {
    hide UploadersOk, PlacesOk, StoreOk, ObjectsOk, CompletedOk, AnswersOk;
    RetrieveKeepsCompleted(s, s');
    RetrieveFrame(s, s');
  }

  lemma RetrieveKeepsInv(s: State, step: Step)
    requires Inv(s) && step.Retrieve?
    ensures Inv(RetrieveResults(s))
  {
    hide ProducerOk, QueueOk, WorkersOk, AnswersOk, ReportsOk;
    var s' := RetrieveResults(s);
    RetrieveKeepsProducer(s, s');
    CarryQueue(s, s');
    CarryWorkers(s, s');
    RetrieveKeepsAnswers(s);
    RetrieveKeepsReports(s, s');
  }

  lemma RetrieveKeepsReports(s: State, s': State)
    requires ReportsOk(s) && s' == RetrieveResults(s)
    ensures ReportsOk(s')
  {
    StatusFinished(s, s.status, s.done);
    assert forall id :: At(s', id, Failed) ==> At(s, id, Failed);
  }

  lemma {:induction false} StatusFinished(s: State, status: map<Key, UploadStatus>, done: seq<(Key, UploadStatus)>)
    requires forall i :: 0 <= i < |done| && done[i].1 == Finished ==> done[i].0 in s.objects
    requires forall k :: k in status && status[k] == Finished ==> k in s.objects
    ensures var r := UpdateStatus(status, done); forall k :: k in r && r[k] == Finished ==> k in s.objects
  {
    if done != [] { StatusFinished(s, status, done[..|done| - 1]); }
  }

  lemma RetrievedWereAnswered(s: State, s': State, k: Key, n: nat)
    requires AnswersOk(s) && s' == RetrieveResults(s) && k in s'.partsDb && n in s'.partsDb[k]
    ensures At(s', PartId(k, n), Recorded) && PartId(k, n) in s'.store
  {
    MergeEffect(s, k);
    if PartId(k, n) in s.results {
      var i :| 0 <= i < |s.results| && s.results[i] == PartId(k, n);
    }
  }

  lemma AnsweredAreRetrieved(s: State, s': State, id: PartId)
    requires AnswersOk(s) && s' == RetrieveResults(s) && At(s', id, Recorded)
    ensures id.key in s'.partsDb && id.number in s'.partsDb[id.key]
  {
    assert id == PartId(id.key, id.number);
    assert At(s, id, Recorded) || At(s, id, Returned);
    if At(s, id, Returned) { assert id.key in (set r | r in s.results :: r.key); }
    MergeEffect(s, id.key);
  }

  lemma RetrieveKeepsAnswers(s: State)
    requires AnswersOk(s)
    ensures AnswersOk(RetrieveResults(s))
  {
    var s' := RetrieveResults(s);
    forall k | k in s'.partsDb ensures StrictlySorted(s'.partsDb[k]) { MergeEffect(s, k); }
    forall k, n | k in s'.partsDb && n in s'.partsDb[k]
      ensures At(s', PartId(k, n), Recorded) && PartId(k, n) in s'.store
    {
      RetrievedWereAnswered(s, s', k, n);
    }
    forall id | At(s', id, Recorded) ensures id.key in s'.partsDb && id.number in s'.partsDb[id.key] {
      AnsweredAreRetrieved(s, s', id);
    }
    hide Merge;
  }

  // ---------------------------------------------------------------- the workers' steps

  lemma TakeKeepsWorkers(s: State, s': State, w: nat)
    requires WorkersOk(s) && Enabled(s, Take(w)) && s' == Apply(s, Take(w)) && JobOk(s, s.queue[0], Queued)
    ensures WorkersOk(s')
  {
    var job := s.queue[0];
    JobCarries(s, s', job, InFlight(w));
    assert forall id :: At(s', id, InFlight(w)) ==> At(s, id, InFlight(w)) || (job.UploadPart? && id == job.id);
    CarryOtherWorkers(s, s', w);
  }

  lemma TheJob(s: State)
    requires QueueOk(s) && s.queue != []
    ensures JobOk(s, s.queue[0], Queued)
  {
  }

  lemma TakeKeepsInv(s: State, step: Step)
    requires Inv(s) && step.Take? && Enabled(s, step)
    ensures Inv(Apply(s, step))
  {
    hide ProducerOk, QueueOk, WorkersOk, AnswersOk, ReportsOk;
    var w, s' := step.w, Apply(s, step);
    TheJob(s);
    CarryProducer(s, s');
    TakeKeepsQueue(s, s');
    TakeKeepsWorkers(s, s', w);
    CarryAnswers(s, s');
    CarryReports(s, s');
    BusyCountUpdate(s.workers, w, s'.workers[w]);
  }

  lemma TakeKeepsQueue(s: State, s': State)
    requires QueueOk(s) && s.queue != [] && s'.queue == s.queue[1..] && s'.uploaders == s.uploaders && s'.store == s.store
    requires forall id :: !s.queue[0].UploadPart? || id != s.queue[0].id ==> (id in s.place <==> id in s'.place) && (id in s.place ==> s'.place[id] == s.place[id])
    requires s.queue[0].UploadPart? ==> !At(s', s.queue[0].id, Queued)
    ensures QueueOk(s')
  {
    forall i | 0 <= i < |s'.queue| ensures JobOk(s', s'.queue[i], Queued) {
      assert s'.queue[i] == s.queue[i + 1];
      assert JobOk(s, s.queue[i + 1], Queued);
    }
    forall x | At(s', x, Queued) ensures exists i :: 0 <= i < |s'.queue| && s'.queue[i].UploadPart? && s'.queue[i].id == x {
      assert At(s, x, Queued);
      var i :| 0 <= i < |s.queue| && s.queue[i].UploadPart? && s.queue[i].id == x;
      assert i > 0 && s'.queue[i - 1] == s.queue[i];
    }
  }

  lemma TheWorker(s: State, w: nat)
    requires WorkersOk(s) && w < |s.workers|
    ensures WorkerOk(s, w)
  {
  }

  lemma ActKeepsStore(s: State, s': State, job: Job, p: Place)
    requires StoreOk(s) && IsPartJob(s, job, p) && s'.uploaders == s.uploaders && s'.store == s.store[job.id := job.body]
    ensures StoreOk(s')
  {
  }

  lemma ActKeepsObjects(s: State, s': State, job: Job)
    requires StoreOk(s) && ObjectsOk(s) && IsCompleteJob(s, job) && s'.uploaders == s.uploaders
    requires s'.objects == s.objects[job.key := Assemble(s.store, job.key, job.parts)]
    ensures ObjectsOk(s')
  {
    var bodies := s.uploaders[job.key].bodies;
    AssembleIsConcat(s, job.key, job.parts, |bodies|);
    assert bodies[..|bodies|] == bodies;
  }

  /** What acting on a job changes: the worker, and the store or the objects. */
  ghost predicate ActsOn(s: State, s': State, w: nat, job: Job) {
    && w < |s.workers| && s.workers[w] == Busy(job, Taken) && !job.Stop?
    && s'.workers == s.workers[w := Busy(job, Acted)] && s'.uploaders == s.uploaders && s'.queue == s.queue
    && s'.unfinished == s.unfinished && s'.results == s.results && s'.errors == s.errors && s'.done == s.done
    && s'.error == s.error && s'.partsDb == s.partsDb && s'.status == s.status && s'.place == s.place
    && s'.aborting == s.aborting
    && (job.UploadPart? ==> s'.store == s.store[job.id := job.body] && s'.objects == s.objects)
    && (job.Complete? ==> s'.store == s.store && s'.objects == s.objects[job.key := Assemble(s.store, job.key, job.parts)])
  }

  lemma ActOnPart(s: State, step: Step, job: Job)
    requires step.Act? && Enabled(s, step) && job == s.workers[step.w].job && job.UploadPart?
    ensures ActsOn(s, Apply(s, step), step.w, job)
  {
  }

  lemma ActOnComplete(s: State, step: Step, job: Job)
    requires step.Act? && Enabled(s, step) && job == s.workers[step.w].job && job.Complete?
    ensures ActsOn(s, Apply(s, step), step.w, job)
  {
  }

  lemma ActActs(s: State, step: Step, job: Job)
    requires step.Act? && Enabled(s, step) && job == s.workers[step.w].job
    ensures ActsOn(s, Apply(s, step), step.w, job)
  {
    hide ActsOn, Apply;
    if job.UploadPart? { ActOnPart(s, step, job); } else { ActOnComplete(s, step, job); }
  }

  lemma ActKeepsProducer(s: State, s': State, w: nat, job: Job)
    requires ProducerOk(s) && ActsOn(s, s', w, job) && WorkerOk(s, w)
    ensures ProducerOk(s') && Grows(s, s')
  {
    hide UploadersOk, PlacesOk, StoreOk, ObjectsOk, CompletedOk;
    ActFrame(s, s');
    if job.Complete? {
      ActKeepsObjects(s, s', job);
    } else {
      ActKeepsStore(s, s', job, InFlight(w));
    }
  }

  lemma ActFrame(s: State, s': State)
    requires s'.uploaders == s.uploaders && s'.error == s.error && s'.place == s.place && s'.partsDb == s.partsDb
    ensures UploadersOk(s) ==> UploadersOk(s')
    ensures PlacesOk(s) ==> PlacesOk(s')
    ensures CompletedOk(s) ==> CompletedOk(s')
    ensures StoreOk(s) && s'.store == s.store ==> StoreOk(s')
    ensures ObjectsOk(s) && s'.objects == s.objects ==> ObjectsOk(s')
  {
    assert forall id :: IsSubmitted(s', id) <==> IsSubmitted(s, id);
    assert forall id :: At(s', id, Assembled) <==> At(s, id, Assembled);
  }

  /** A worker that stays on its job, or drops it, leaves the others alone. */
  lemma ActKeepsWorkers(s: State, s': State, w: nat, job: Job)
    requires WorkersOk(s) && Grows(s, s') && w < |s.workers| && s.workers[w] == Busy(job, Taken) && !job.Stop?
    requires s'.workers == s.workers[w := Busy(job, Acted)] && s'.place == s.place && s'.uploaders == s.uploaders
    requires job.UploadPart? ==> job.id in s'.store
    requires job.Complete? ==> job.key in s'.objects
    ensures WorkersOk(s')
  {
    assert WorkerOk(s, w);
    JobCarries(s, s', job, InFlight(w));
    assert forall id :: At(s', id, InFlight(w)) ==> At(s, id, InFlight(w));
    CarryOtherWorkers(s, s', w);
  }

  lemma ActKeepsInv(s: State, step: Step)
    requires Inv(s) && step.Act? && Enabled(s, step)
    ensures Inv(Apply(s, step))
  {
    var w, s' := step.w, Apply(s, step);
    var job := s.workers[w].job;
    ActActs(s, step, job);
    hide ProducerOk, QueueOk, WorkersOk, AnswersOk, ReportsOk, Apply, Enabled;
    TheWorker(s, w);
    ActKeepsProducer(s, s', w, job);
    CarryQueue(s, s');
    ActKeepsWorkers(s, s', w, job);
    CarryAnswers(s, s');
    CarryReports(s, s');
    BusyCountUpdate(s.workers, w, Busy(job, Acted));
  }

  /** Worker `w` lets go of its job and the place of its part becomes `p`. */
  ghost predicate LetsGo(s: State, s': State, w: nat, p: Place) {
    && IsBusy(s, w, {Taken, Acted}) && !s.workers[w].job.Stop? && p in {Failed, Dropped, Returned}
    && s'.workers == s.workers[w := Busy(s.workers[w].job, Settled)]
    && s'.uploaders == s.uploaders && s'.store == s.store && s'.objects == s.objects
    && s'.queue == s.queue && s'.unfinished == s.unfinished && s'.partsDb == s.partsDb && s'.error == s.error
    && s'.place == if s.workers[w].job.UploadPart? then s.place[s.workers[w].job.id := p] else s.place
  }

  lemma LetsGoKeepsWorkers(s: State, s': State, w: nat, p: Place)
    requires WorkersOk(s) && LetsGo(s, s', w, p)
    ensures WorkersOk(s')
  {
    var job := s.workers[w].job;
    assert WorkerOk(s, w);
    JobCarries(s, s', job, InFlight(w));
    if job.UploadPart? {
      assert forall id :: At(s', id, InFlight(w)) ==> id != job.id && At(s, id, InFlight(w));
    } else {
      assert forall id :: At(s', id, InFlight(w)) ==> At(s, id, InFlight(w));
    }
    CarryOtherWorkers(s, s', w);
  }

  lemma LetsGoKeepsJobs(s: State, s': State, w: nat, p: Place)
    requires Inv(s) && LetsGo(s, s', w, p)
    ensures ProducerOk(s') && QueueOk(s') && WorkersOk(s') && CountOk(s')
  {
    hide ProducerOk, QueueOk, WorkersOk, AnswersOk, ReportsOk;
    TheWorker(s, w);
    CarryProducer(s, s');
    CarryQueue(s, s');
    LetsGoKeepsWorkers(s, s', w, p);
    BusyCountUpdate(s.workers, w, s'.workers[w]);
  }

  lemma ReportKeepsAnswers(s: State, s': State, id: PartId, w: nat)
    requires AnswersOk(s) && At(s, id, InFlight(w)) && id in s.store && s'.store == s.store && s'.partsDb == s.partsDb
    requires s'.results == s.results + [id] && s'.place == s.place[id := Returned]
    ensures AnswersOk(s')
  {
    assert id !in s.results;
    assert forall x :: At(s', x, Returned) <==> At(s, x, Returned) || x == id;
    assert forall x :: At(s', x, Recorded) <==> At(s, x, Recorded);
  }

  lemma ReportKeepsReports(s: State, s': State, key: Key)
    requires ReportsOk(s) && key in s.objects && s'.done == s.done + [(key, Finished)]
    requires s'.objects == s.objects && s'.status == s.status && s'.place == s.place
    requires s'.error == s.error && s'.errors == s.errors
    ensures ReportsOk(s')
  {
    assert forall id :: At(s', id, Failed) ==> At(s, id, Failed);
  }

  lemma ReportKeepsInv(s: State, step: Step)
    requires Inv(s) && step.Report? && Enabled(s, step)
    ensures Inv(Apply(s, step))
  {
    hide ProducerOk, QueueOk, WorkersOk, AnswersOk, ReportsOk;
    var w, s' := step.w, Apply(s, step);
    var job := s.workers[w].job;
    TheWorker(s, w);
    LetsGoKeepsJobs(s, s', w, Returned);
    if job.UploadPart? {
      ReportKeepsAnswers(s, s', job.id, w);
      CarryReports(s, s');
    } else {
      CarryAnswers(s, s');
      ReportKeepsReports(s, s', job.key);
    }
  }

  lemma SkipKeepsReports(s: State, s': State, key: Key)
    requires ReportsOk(s) && s'.done == s.done + [(key, Aborted)]
    requires s'.objects == s.objects && s'.status == s.status && s'.place == s.place
    requires s'.error == s.error && s'.errors == s.errors
    ensures ReportsOk(s')
  {
    assert forall id :: At(s', id, Failed) ==> At(s, id, Failed);
  }

  lemma SkipKeepsInv(s: State, step: Step)
    requires Inv(s) && step.Skip? && Enabled(s, step)
    ensures Inv(Apply(s, step))
  {
    hide ProducerOk, QueueOk, WorkersOk, AnswersOk, ReportsOk;
    var w, s' := step.w, Apply(s, step);
    var job := s.workers[w].job;
    TheWorker(s, w);
    if job.UploadPart? {
      LetsGoKeepsJobs(s, s', w, Dropped);
      CarryAnswers(s, s');
      CarryReports(s, s');
    } else {
      LetsGoKeepsJobs(s, s', w, Dropped);
      CarryAnswers(s, s');
      SkipKeepsReports(s, s', job.key);
    }
  }

  lemma FailKeepsReports(s: State, s': State)
    requires ReportsOk(s) && s'.done == s.done && s'.objects == s.objects && s'.status == s.status && s'.errors > 0
    ensures ReportsOk(s')
  {
  }

  lemma FailKeepsInv(s: State, step: Step)
    requires Inv(s) && step.Fail? && Enabled(s, step)
    ensures Inv(Apply(s, step))
  {
    hide ProducerOk, QueueOk, WorkersOk, AnswersOk, ReportsOk;
    var w, s' := step.w, Apply(s, step);
    TheWorker(s, w);
    LetsGoKeepsJobs(s, s', w, Failed);
    CarryAnswers(s, s');
    FailKeepsReports(s, s');
  }

  /** A worker with nothing in flight may change its state. */
  lemma RestKeepsWorkers(s: State, s': State, w: nat, worker: Worker)
    requires WorkersOk(s) && w < |s.workers| && s'.workers == s.workers[w := worker] && Grows(s, s')
    requires s'.place == s.place && s'.uploaders == s.uploaders && s'.store == s.store
    requires s.workers[w].Busy? ==> s.workers[w].stage == Settled || s.workers[w].job.Stop?
    requires worker.Busy? ==> s.workers[w].Busy? && !worker.job.Stop? && worker.job == s.workers[w].job && worker.stage == Settled
    ensures WorkersOk(s')
  {
    assert WorkerOk(s, w);
    assert forall id :: At(s', id, InFlight(w)) ==> At(s, id, InFlight(w));
    if worker.Busy? { JobCarries(s, s', worker.job, InFlight(w)); }
    CarryOtherWorkers(s, s', w);
  }

  lemma InterruptedAtWork(s: State, s': State, step: Step)
    requires Inv(s) && step.Interrupt? && Enabled(s, step) && s' == Apply(s, step)
    requires s.workers[step.w].Busy? && s.workers[step.w].stage != Settled
    ensures Inv(s')
  {
    hide ProducerOk, QueueOk, WorkersOk, AnswersOk, ReportsOk;
    var w := step.w;
    TheWorker(s, w);
    LetsGoKeepsJobs(s, s', w, Dropped);
    CarryAnswers(s, s');
    CarryReports(s, s');
  }

  /** Only the worker, the jobs it has done and the requests to abort may change. */
  lemma RestKeepsInv(s: State, s': State, w: nat, worker: Worker)
    requires Inv(s) && w < |s.workers|
    requires s' == s.(workers := s.workers[w := worker], aborting := s'.aborting, unfinished := s'.unfinished)
    requires s.workers[w].Busy? ==> s.workers[w].stage == Settled || s.workers[w].job.Stop?
    requires worker.Busy? ==> s.workers[w].Busy? && !worker.job.Stop? && worker.job == s.workers[w].job && worker.stage == Settled
    requires s.unfinished - s'.unfinished == (if s.workers[w].Busy? then 1 else 0) - (if worker.Busy? then 1 else 0)
    ensures Inv(s')
  {
    hide ProducerOk, QueueOk, WorkersOk, AnswersOk, ReportsOk;
    CarryProducer(s, s');
    CarryQueue(s, s');
    RestKeepsWorkers(s, s', w, worker);
    CarryAnswers(s, s');
    CarryReports(s, s');
    BusyCountUpdate(s.workers, w, worker);
  }

  lemma InterruptedAtRest(s: State, step: Step)
    requires Inv(s) && step.Interrupt? && Enabled(s, step)
    requires s.workers[step.w].Busy? ==> s.workers[step.w].stage == Settled
    ensures Inv(Apply(s, step))
  {
    hide Inv;
    var s', w := Apply(s, step), step.w;
    if s.workers[w].Idle? {
      RestKeepsInv(s, s', w, Stopped);
    } else {
      RestKeepsInv(s, s', w, Busy(s.workers[w].job, Settled));
    }
  }

  lemma InterruptKeepsInv(s: State, step: Step)
    requires Inv(s) && step.Interrupt? && Enabled(s, step)
    ensures Inv(Apply(s, step))
  {
    hide Inv;
    if s.workers[step.w].Busy? && s.workers[step.w].stage != Settled {
      InterruptedAtWork(s, Apply(s, step), step);
    } else {
      InterruptedAtRest(s, step);
    }
  }

  lemma BusyMeansUnfinished(s: State, w: nat)
    requires CountOk(s) && w < |s.workers| && s.workers[w].Busy?
    ensures s.unfinished > 0
  {
    BusyCountUpdate(s.workers, w, Idle);
  }

  lemma TaskDoneKeepsInv(s: State, step: Step)
    requires Inv(s) && step.TaskDone? && Enabled(s, step)
    ensures Inv(Apply(s, step))
  {
    var s' := Apply(s, step);
    hide ProducerOk, QueueOk, WorkersOk, AnswersOk, ReportsOk;
    BusyMeansUnfinished(s, step.w);
    RestKeepsInv(s, s', step.w, s'.workers[step.w]);
  }
}
