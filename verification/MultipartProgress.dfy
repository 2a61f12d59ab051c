/** Runs of the upload protocol: what a finished upload holds, and that waiting ends. */
module MultipartProgress {
  import opened Wrappers
  import opened MultipartUpload
  import opened MultipartSafety
  import opened MultipartRuns

  // ---------------------------------------------------------------- runs

  /** Starting with K idle workers and taking one enabled step after another. */
  datatype Run = Begin(chunkSize: nat, workers: nat) | Then(before: Run, step: Step)

  function Start(chunkSize: nat, workers: nat): State {
    State(chunkSize, map[], [], 0, seq(workers, i => Idle), {}, [], 0, [], false, map[], map[], map[], map[], map[])
  }

  ghost predicate IsRun(run: Run)
    decreases run, 0
  {
    match run
    case Begin(_, _) => true
    case Then(before, step) => IsRun(before) && Enabled(Final(before), step)
  }

  ghost function Final(run: Run): State
    requires IsRun(run)
    decreases run, 1
  {
    match run
    case Begin(chunkSize, workers) => Start(chunkSize, workers)
    case Then(before, step) => Apply(Final(before), step)
  }

  lemma {:induction false} AllIdle(workers: seq<Worker>)
    requires forall w :: 0 <= w < |workers| ==> workers[w] == Idle
    ensures BusyCount(workers) == 0
  {
    if workers != [] { AllIdle(workers[..|workers| - 1]); }
  }

  lemma StepKeepsInv(s: State, step: Step)
    requires Inv(s) && Enabled(s, step)
    ensures Inv(Apply(s, step))
  {
    hide Inv;
    match step
    case Open(_) => OpenKeepsInv(s, step);
    case Write(_, _) => WriteKeepsInv(s, step);
    case StartClose(_) => StartCloseKeepsInv(s, step);
    case Submit(_) => SubmitKeepsInv(s, step);
    case SkipSubmit(_) => SkipSubmitKeepsInv(s, step);
    case Retrieve => RetrieveKeepsInv(s, step);
    case RaiseError => RaiseErrorKeepsInv(s, step);
    case QueueComplete(_) => QueueCompleteKeepsInv(s, step);
    case PutStop => PutStopKeepsInv(s, step);
    case Take(_) => TakeKeepsInv(s, step);
    case Act(_) => ActKeepsInv(s, step);
    case Report(_) => ReportKeepsInv(s, step);
    case Skip(_) => SkipKeepsInv(s, step);
    case Fail(_) => FailKeepsInv(s, step);
    case Interrupt(_) => InterruptKeepsInv(s, step);
    case TaskDone(_) => TaskDoneKeepsInv(s, step);
  }

  lemma {:induction false} RunKeepsInv(run: Run)
    requires IsRun(run)
    ensures Inv(Final(run))
  {
    match run
    case Begin(_, _) => AllIdle(Final(run).workers);
    case Then(before, step) =>
      hide Inv;
      RunKeepsInv(before);
      StepKeepsInv(Final(before), step);
  }

  // ---------------------------------------------------------------- safety over runs

  /** Whatever the interleaving, failures and interrupts: an object in the store is the
      whole byte stream that its archive was given, and only closed archives have one. */
  lemma ObjectIsWhatWasWritten(run: Run, k: Key)
    requires IsRun(run) && k in Final(run).objects
    ensures k in Final(run).uploaders && Final(run).uploaders[k].closing
    ensures Final(run).objects[k] == Final(run).uploaders[k].written
  {
    RunKeepsInv(run);
    assert UploaderOk(Final(run).uploaders[k], Final(run).error);
  }

  /** An upload reported as done has its object. */
  lemma FinishedMeansStored(run: Run, k: Key)
    requires IsRun(run) && k in Final(run).status && Final(run).status[k] == Finished
    ensures k in Final(run).objects && k in Final(run).uploaders
    ensures Final(run).objects[k] == Final(run).uploaders[k].written
  {
    RunKeepsInv(run);
    ObjectIsWhatWasWritten(run, k);
  }

  /** A job that completes an archive names its parts 1..n in order, no more and no fewer than
      were submitted; the provider has each of them, and together they are the archive. */
  lemma CompleteJobsAreExact(run: Run, i: nat)
    requires IsRun(run) && i < |Final(run).queue| && Final(run).queue[i].Complete?
    ensures var s, job := Final(run), Final(run).queue[i];
      job.key in s.uploaders && IsOneTo(job.parts, s.uploaders[job.key].counter)
      && Assemble(s.store, job.key, job.parts) == s.uploaders[job.key].written
  {
    RunKeepsInv(run);
    var s, job := Final(run), Final(run).queue[i];
    assert JobOk(s, job, Queued);
    assert UploaderOk(s.uploaders[job.key], s.error);
    var bodies := s.uploaders[job.key].bodies;
    AssembleIsConcat(s, job.key, job.parts, |bodies|);
    assert bodies[..|bodies|] == bodies;
  }

  /** No part is stored under the wrong number or with foreign bytes, at any time. */
  lemma StoredPartsAreSubmittedParts(run: Run, id: PartId)
    requires IsRun(run) && id in Final(run).store
    ensures IsSubmitted(Final(run), id) && Final(run).store[id] == BodyOf(Final(run), id)
  {
    RunKeepsInv(run);
  }

  // ---------------------------------------------------------------- joining the queue

  lemma {:induction false} BusyIsCounted(workers: seq<Worker>, w: nat)
    requires w < |workers| && workers[w].Busy?
    ensures BusyCount(workers) > 0
  {
    if w < |workers| - 1 { BusyIsCounted(workers[..|workers| - 1], w); }
  }

  /** The counter that `join` waits on counts exactly the jobs queued or being worked on;
      at zero every submitted part has been answered for. */
  lemma JoinedMeansAnswered(run: Run, id: PartId)
    requires IsRun(run) && IsSubmitted(Final(run), id) && Final(run).unfinished == 0
    ensures id in Final(run).place && Final(run).place[id] in {Failed, Dropped, Returned, Recorded, Assembled}
  {
    RunKeepsInv(run);
    var s := Final(run);
    AnsweredWhenJoined(s, id);
  }

  lemma AnsweredWhenJoined(s: State, id: PartId)
    requires PlacesOk(s) && QueueOk(s) && WorkersOk(s) && CountOk(s) && IsSubmitted(s, id) && s.unfinished == 0
    ensures id in s.place && s.place[id] in {Failed, Dropped, Returned, Recorded, Assembled}
  {
    if At(s, id, Queued) {
      assert false;
    } else if s.place[id].InFlight? {
      var w := s.place[id].worker;
      assert At(s, id, InFlight(w));
      BusyIsCounted(s.workers, w);
      assert false;
    }
  }

  // ---------------------------------------------------------------- waiting for all parts

  /** The numbers 1..n, each occurring in a list, make it at least n long. */
  lemma {:induction false} CoversAtLeast(list: seq<nat>, n: nat)
    requires forall m :: 1 <= m <= n ==> m in list
    ensures |list| >= n
    decreases n
  {
    if n > 0 {
      assert n in list;
      var i :| 0 <= i < |list| && list[i] == n;
      var rest := list[..i] + list[i + 1..];
      forall m | 1 <= m <= n - 1 ensures m in rest {
        assert m in list;
        var j :| 0 <= j < |list| && list[j] == m;
        assert rest[if j < i then j else j - 1] == m;
      }
      CoversAtLeast(rest, n - 1);
    }
  }

  ghost predicate NoneDropped(s: State, k: Key) { forall id: PartId :: id.key == k ==> !At(s, id, Dropped) }

  /** With no error reported, the first draining of the answers either collects every part of
      an archive, and the wait is over, or an interrupted worker dropped a part. */
  lemma OneRetrievalSuffices(run: Run, k: Key)
    requires IsRun(run) && Enabled(Final(run), Retrieve)
    requires !Final(run).error && Final(run).errors == 0
    requires k in Final(run).uploaders && !Final(run).uploaders[k].completed
    ensures |PartsOf(RetrieveResults(Final(run)).partsDb, k)| >= Final(run).uploaders[k].counter
         <==> NoneDropped(Final(run), k)
  {
    RunKeepsInv(run);
    RetrieveKeepsInv(Final(run), Retrieve);
    RetrievalCollects(Final(run), RetrieveResults(Final(run)), k);
  }

  lemma TheParts(s: State, k: Key)
    requires UploadersOk(s) && k in s.uploaders && !s.error
    ensures s.uploaders[k].counter == |s.uploaders[k].bodies|
  {
    assert UploaderOk(s.uploaders[k], s.error);
  }

  /** A part that was neither dropped nor failed is recorded once the answers are drained. */
  lemma RetrievalRecords(s: State, s': State, id: PartId)
    requires Inv(s) && AnswersOk(s') && s' == RetrieveResults(s) && s.unfinished == 0 && !s.error && s.errors == 0
    requires IsSubmitted(s, id) && !s.uploaders[id.key].completed && !At(s, id, Dropped)
    ensures id.key in s'.partsDb && id.number in s'.partsDb[id.key]
  {
    AnsweredWhenJoined(s, id);
    hide QueueOk, WorkersOk, StoreOk, ObjectsOk, UploadersOk, Merge;
    assert !At(s, id, Failed) && !At(s, id, Assembled);
    assert At(s', id, Recorded);
  }

  lemma RetrievalCollects(s: State, s': State, k: Key)
    requires Inv(s) && Inv(s') && s' == RetrieveResults(s) && s.unfinished == 0 && !s.error && s.errors == 0
    requires k in s.uploaders && !s.uploaders[k].completed
    ensures |PartsOf(s'.partsDb, k)| >= s.uploaders[k].counter <==> NoneDropped(s, k)
  {
    hide QueueOk, WorkersOk, AnswersOk, ReportsOk, ObjectsOk, StoreOk, UploadersOk, CompletedOk, Merge;
    TheParts(s, k);
    if NoneDropped(s, k) {
      forall m | 1 <= m <= s.uploaders[k].counter ensures m in PartsOf(s'.partsDb, k) {
        RetrievalRecords(s, s', PartId(k, m));
      }
      CoversAtLeast(PartsOf(s'.partsDb, k), s.uploaders[k].counter);
    }
    if |PartsOf(s'.partsDb, k)| >= s.uploaders[k].counter {
      AllPartsRecorded(s', k);
      forall id: PartId | id.key == k ensures !At(s, id, Dropped) {
        assert IsSubmitted(s', id) ==> At(s', id, Recorded);
      }
    }
  }

  /** No worker was interrupted. */
  predicate NeverInterrupted(run: Run) {
    run.Then? ==> NeverInterrupted(run.before) && !run.step.Interrupt?
  }

  lemma SubmitDropsNothing(s: State, step: Step, id: PartId)
    requires step.Submit? && Enabled(s, step) && !At(s, id, Dropped)
    ensures !At(Apply(s, step), id, Dropped) && Apply(s, step).aborting == s.aborting
  {
  }

  lemma TakePlaces(s: State, step: Step)
    requires step.Take? && Enabled(s, step)
    ensures Apply(s, step).aborting == s.aborting
    ensures Apply(s, step).place == if s.queue[0].UploadPart? then s.place[s.queue[0].id := InFlight(step.w)] else s.place
  {
  }

  lemma TakeDropsNothing(s: State, step: Step, id: PartId)
    requires step.Take? && Enabled(s, step) && !At(s, id, Dropped)
    ensures !At(Apply(s, step), id, Dropped) && Apply(s, step).aborting == s.aborting
  {
    TakePlaces(s, step);
    hide Apply;
  }

  lemma ReportDropsNothing(s: State, step: Step, id: PartId)
    requires step.Report? && Enabled(s, step) && !At(s, id, Dropped)
    ensures !At(Apply(s, step), id, Dropped) && Apply(s, step).aborting == s.aborting
  {
    match s.workers[step.w].job
    case UploadPart(_, _) =>
    case Complete(_, _) =>
  }

  lemma FailDropsNothing(s: State, step: Step, id: PartId)
    requires step.Fail? && Enabled(s, step) && !At(s, id, Dropped)
    ensures !At(Apply(s, step), id, Dropped) && Apply(s, step).aborting == s.aborting
  {
    match s.workers[step.w].job
    case UploadPart(_, _) =>
    case Complete(_, _) =>
  }

  lemma RetrieveDropsNothing(s: State, step: Step, id: PartId)
    requires step.Retrieve? && Enabled(s, step) && !At(s, id, Dropped)
    ensures !At(Apply(s, step), id, Dropped) && Apply(s, step).aborting == s.aborting
  {
  }

  lemma QueueCompleteDropsNothing(s: State, step: Step, id: PartId)
    requires step.QueueComplete? && Enabled(s, step) && !At(s, id, Dropped)
    ensures !At(Apply(s, step), id, Dropped) && Apply(s, step).aborting == s.aborting
  {
  }

  predicate IsQuietStep(step: Step) {
    step.Open? || step.Write? || step.StartClose? || step.SkipSubmit? || step.RaiseError? || step.PutStop?
  }

  lemma QuietStepMovesNothing(s: State, step: Step)
    requires IsQuietStep(step) && Enabled(s, step)
    ensures Apply(s, step).place == s.place && Apply(s, step).workers == s.workers
    ensures Apply(s, step).aborting == s.aborting
  {
  }

  lemma ActMovesNothing(s: State, step: Step)
    requires step.Act? && Enabled(s, step)
    ensures Apply(s, step).place == s.place && Apply(s, step).aborting == s.aborting
  {
    ActActs(s, step, s.workers[step.w].job);
    hide Apply;
  }

  lemma TaskDoneMovesNothing(s: State, step: Step)
    requires step.TaskDone? && Enabled(s, step)
    ensures Apply(s, step).place == s.place && Apply(s, step).aborting == s.aborting
  {
  }

  lemma NotDropped(s: State, step: Step, id: PartId)
    requires Enabled(s, step) && !step.Interrupt? && !step.Skip? && !At(s, id, Dropped)
    ensures !At(Apply(s, step), id, Dropped) && Apply(s, step).aborting == s.aborting
  {
    hide Apply, Enabled;
    if step.Submit? {
      SubmitDropsNothing(s, step, id);
    } else if step.Take? {
      TakeDropsNothing(s, step, id);
    } else if step.Report? {
      ReportDropsNothing(s, step, id);
    } else if step.Fail? {
      FailDropsNothing(s, step, id);
    } else if step.Retrieve? {
      RetrieveDropsNothing(s, step, id);
    } else if step.QueueComplete? {
      QueueCompleteDropsNothing(s, step, id);
    } else if IsQuietStep(step) {
      QuietStepMovesNothing(s, step);
    } else if step.Act? {
      ActMovesNothing(s, step);
    } else {
      TaskDoneMovesNothing(s, step);
    }
  }

  lemma NothingDropped(s: State, step: Step)
    requires Enabled(s, step) && !step.Interrupt? && s.aborting == {} && forall id :: !At(s, id, Dropped)
    ensures Apply(s, step).aborting == {} && forall id :: !At(Apply(s, step), id, Dropped)
  {
    assert !step.Skip?;
    hide Apply, Enabled;
    assert !At(s, PartId(0, 0), Dropped);
    NotDropped(s, step, PartId(0, 0));
    forall id ensures !At(Apply(s, step), id, Dropped) { NotDropped(s, step, id); }
  }

  lemma {:induction false} NothingIsDropped(run: Run)
    requires IsRun(run) && NeverInterrupted(run)
    ensures Final(run).aborting == {} && forall id :: !At(Final(run), id, Dropped)
  {
    if run.Then? {
      NothingIsDropped(run.before);
      NothingDropped(Final(run.before), run.step);
    }
  }

  /** The upload makes progress: with no interrupts and no error, the first draining of the answers
      collects every part of an archive, so the wait ends after at most one. */
  lemma UninterruptedWaitEnds(run: Run, k: Key)
    requires IsRun(run) && NeverInterrupted(run) && Enabled(Final(run), Retrieve)
    requires !Final(run).error && Final(run).errors == 0
    requires k in Final(run).uploaders && !Final(run).uploaders[k].completed
    ensures |PartsOf(RetrieveResults(Final(run)).partsDb, k)| >= Final(run).uploaders[k].counter
  {
    NothingIsDropped(run);
    hide IsRun, Final;
    OneRetrievalSuffices(run, k);
  }

  // ---------------------------------------------------------------- each part once

  /** How many times a worker acted on a part. */
  ghost function Acts(run: Run, id: PartId): nat
    requires IsRun(run)
  {
    match run
    case Begin(_, _) => 0
    case Then(before, step) => Acts(before, id) + (if ActsOnPart(Final(before), step, id) then 1 else 0)
  }

  predicate ActsOnPart(s: State, step: Step, id: PartId) {
    step.Act? && Enabled(s, step) && s.workers[step.w].job.UploadPart? && s.workers[step.w].job.id == id
  }

  /** The part is still to come, queued, or with a worker that has not acted on it. */
  predicate Untried(s: State, id: PartId) {
    || id !in s.place || s.place[id] == Queued
    || (s.place[id].InFlight? && s.place[id].worker < |s.workers| && s.workers[s.place[id].worker].Busy?
        && s.workers[s.place[id].worker].stage == Taken)
  }

  lemma ActingIsATry(s: State, step: Step, id: PartId)
    requires WorkersOk(s) && Enabled(s, step) && ActsOnPart(s, step, id)
    ensures Untried(s, id) && !Untried(Apply(s, step), id)
  {
    assert WorkerOk(s, step.w);
  }

  lemma SubmittedIsUntried(s: State, step: Step)
    requires UploadersOk(s) && PlacesOk(s) && step.Submit? && Enabled(s, step)
    ensures PartId(step.key, s.uploaders[step.key].counter + 1) !in s.place
  {
    assert UploaderOk(s.uploaders[step.key], s.error);
    assert !IsSubmitted(s, PartId(step.key, s.uploaders[step.key].counter + 1));
  }

  lemma TakenIsUntried(s: State, step: Step)
    requires QueueOk(s) && step.Take? && Enabled(s, step) && s.queue[0].UploadPart?
    ensures At(s, s.queue[0].id, Queued)
  {
    assert JobOk(s, s.queue[0], Queued);
  }

  lemma InFlightIsHeld(s: State, id: PartId, w: nat)
    requires WorkersOk(s) && At(s, id, InFlight(w))
    ensures w < |s.workers| && s.workers[w].Busy? && s.workers[w].stage != Settled
    ensures s.workers[w].job.UploadPart? && s.workers[w].job.id == id
  {
  }

  /** A part in flight is the job of the worker it is with. */
  predicate Held(s: State, id: PartId) {
    id in s.place && s.place[id].InFlight? ==>
      var w := s.place[id].worker;
      w < |s.workers| && s.workers[w].Busy? && s.workers[w].stage != Settled
      && s.workers[w].job.UploadPart? && s.workers[w].job.id == id
  }

  lemma ActKeepsTried(s: State, step: Step, id: PartId)
    requires step.Act? && Enabled(s, step) && !Untried(s, id) && Held(s, id)
    ensures !Untried(Apply(s, step), id)
  {
    ActActs(s, step, s.workers[step.w].job);
    hide Apply;
  }

  lemma ReportKeepsTried(s: State, step: Step, id: PartId)
    requires step.Report? && Enabled(s, step) && !Untried(s, id) && Held(s, id)
    ensures !Untried(Apply(s, step), id)
  {
    match s.workers[step.w].job
    case UploadPart(_, _) =>
    case Complete(_, _) =>
  }

  lemma SkipKeepsTried(s: State, step: Step, id: PartId)
    requires step.Skip? && Enabled(s, step) && !Untried(s, id) && Held(s, id)
    ensures !Untried(Apply(s, step), id)
  {
    match s.workers[step.w].job
    case UploadPart(_, _) =>
    case Complete(_, _) =>
  }

  lemma FailKeepsTried(s: State, step: Step, id: PartId)
    requires step.Fail? && Enabled(s, step) && !Untried(s, id) && Held(s, id)
    ensures !Untried(Apply(s, step), id)
  {
    match s.workers[step.w].job
    case UploadPart(_, _) =>
    case Complete(_, _) =>
  }

  lemma InterruptKeepsTried(s: State, step: Step, id: PartId)
    requires step.Interrupt? && Enabled(s, step) && !Untried(s, id) && Held(s, id)
    ensures !Untried(Apply(s, step), id)
  {
    if s.workers[step.w].Busy? {
      match s.workers[step.w].job
      case UploadPart(_, _) =>
      case Complete(_, _) =>
    }
  }

  lemma TaskDoneKeepsTried(s: State, step: Step, id: PartId)
    requires step.TaskDone? && Enabled(s, step) && !Untried(s, id) && Held(s, id)
    ensures !Untried(Apply(s, step), id)
  {
  }

  lemma RetrieveKeepsTried(s: State, step: Step, id: PartId)
    requires step.Retrieve? && Enabled(s, step) && !Untried(s, id) && Held(s, id)
    ensures !Untried(Apply(s, step), id)
  {
  }

  lemma QueueCompleteKeepsTried(s: State, step: Step, id: PartId)
    requires step.QueueComplete? && Enabled(s, step) && !Untried(s, id) && Held(s, id)
    ensures !Untried(Apply(s, step), id)
  {
  }

  lemma SubmitKeepsTried(s: State, step: Step, id: PartId)
    requires UploadersOk(s) && PlacesOk(s) && step.Submit? && Enabled(s, step) && !Untried(s, id)
    ensures !Untried(Apply(s, step), id)
  {
    SubmittedIsUntried(s, step);
  }

  lemma TakeKeepsTried(s: State, step: Step, id: PartId)
    requires QueueOk(s) && step.Take? && Enabled(s, step) && !Untried(s, id) && Held(s, id)
    ensures !Untried(Apply(s, step), id)
  {
    if s.queue[0].UploadPart? { TakenIsUntried(s, step); }
    hide QueueOk;
  }

  /** What was tried stays tried: no step brings a part back. */
  lemma TriedStaysTried(s: State, step: Step, id: PartId)
    requires UploadersOk(s) && PlacesOk(s) && QueueOk(s) && WorkersOk(s) && Enabled(s, step) && !Untried(s, id)
    ensures !Untried(Apply(s, step), id)
  {
    if s.place[id].InFlight? { InFlightIsHeld(s, id, s.place[id].worker); }
    assert Held(s, id);
    hide UploadersOk, PlacesOk, QueueOk, WorkersOk, Held, Apply, Enabled;
    if step.Submit? {
      SubmitKeepsTried(s, step, id);
    } else if step.Take? {
      TakeKeepsTried(s, step, id);
    } else if step.Act? {
      ActKeepsTried(s, step, id);
    } else if step.Report? {
      ReportKeepsTried(s, step, id);
    } else if step.Skip? {
      SkipKeepsTried(s, step, id);
    } else if step.Fail? {
      FailKeepsTried(s, step, id);
    } else if step.Interrupt? {
      InterruptKeepsTried(s, step, id);
    } else if step.TaskDone? {
      TaskDoneKeepsTried(s, step, id);
    } else if step.Retrieve? {
      RetrieveKeepsTried(s, step, id);
    } else if step.QueueComplete? {
      QueueCompleteKeepsTried(s, step, id);
    } else {
      QuietStepMovesNothing(s, step);
    }
  }

  lemma {:induction false} TriesAreCounted(run: Run, id: PartId)
    requires IsRun(run)
    ensures Acts(run, id) <= 1 && (Untried(Final(run), id) ==> Acts(run, id) == 0)
  {
    match run
    case Begin(_, _) =>
    case Then(before, step) =>
      var s := Final(before);
      TriesAreCounted(before, id);
      RunKeepsInv(before);
      assert ProducerOk(s) && QueueOk(s) && WorkersOk(s);
      hide UploadersOk, PlacesOk, QueueOk, WorkersOk, Untried;
      if ActsOnPart(s, step, id) {
        ActingIsATry(s, step, id);
      } else if !Untried(s, id) {
        TriedStaysTried(s, step, id);
      }
  }

  /** In every run each part is uploaded at most once. */
  lemma EachPartIsUploadedOnce(run: Run, id: PartId)
    requires IsRun(run)
    ensures Acts(run, id) <= 1
  {
    TriesAreCounted(run, id);
  }

  // ---------------------------------------------------------------- draining twice

  /** Draining again changes nothing: the loop that waits for a dropped part waits forever. */
  lemma RetrievingTwiceIsIdle(s: State)
    ensures RetrieveResults(RetrieveResults(s)) == RetrieveResults(s)
  {
    var s' := RetrieveResults(s);
    MergeNothing(s'.partsDb);
    hide Merge;
    assert RetrieveResults(s').place == s'.place;
  }

  lemma MergeNothing(db: map<Key, seq<nat>>)
    ensures Merge(db, []) == db
  {
    assert forall k :: Arrived([], k) == [];
  }

  /** A part that failed is never lost silently: its error is reported or waiting to be. */
  lemma FailureIsReported(run: Run, id: PartId)
    requires IsRun(run) && At(Final(run), id, Failed)
    ensures Final(run).error || Final(run).errors > 0
  {
    RunKeepsInv(run);
  }

  /** One worker, interrupted while it holds the only part of an archive. */
  function InterruptedRun(): Run {
    Then(Then(Then(Then(Then(Then(Then(Begin(0, 1), Open(0)), Write(0, [7])), StartClose(0)), Submit(0)),
      Take(0)), Interrupt(0)), TaskDone(0))
  }

  /** Where it ends: the archive is closed, its part is gone and nobody is at fault. */
  function StuckState(): State {
    State(0, map[0 := Uploader([7], None, [[7]], 1, true, false)], [], 0, [Idle], {0}, [], 0, [], false, map[],
          map[0 := Uploading], map[], map[], map[PartId(0, 1) := Dropped])
  }

  lemma Next(run: Run, s: State, step: Step, s': State)
    requires IsRun(run) && Final(run) == s && Enabled(s, step) && Apply(s, step) == s'
    ensures IsRun(Then(run, step)) && Final(Then(run, step)) == s'
  {
  }

  /** The archive before the worker picks up its part. */
  function QueuedState(): State {
    StuckState().(queue := [UploadPart(PartId(0, 1), [7])], unfinished := 1, aborting := {},
                  place := map[PartId(0, 1) := Queued])
  }

  lemma PartIsQueued(run: Run)
    requires run == Then(Then(Then(Then(Begin(0, 1), Open(0)), Write(0, [7])), StartClose(0)), Submit(0))
    ensures IsRun(run) && Final(run) == QueuedState()
  {
    var s0 := State(0, map[], [], 0, [Idle], {}, [], 0, [], false, map[], map[], map[], map[], map[]);
    var s1 := s0.(uploaders := map[0 := Uploader([], None, [], 0, false, false)], status := map[0 := Uploading]);
    var s2 := s1.(uploaders := map[0 := Uploader([7], Some([7]), [], 0, false, false)]);
    var s3 := s2.(uploaders := map[0 := Uploader([7], Some([7]), [], 0, true, false)]);
    assert Start(0, 1).workers == [Idle];
    Next(Begin(0, 1), s0, Open(0), s1);
    hide IsRun, Final;
    assert s1.uploaders[0].written + [7] == [7];
    Next(run.before.before.before, s1, Write(0, [7]), s2);
    Next(run.before.before, s2, StartClose(0), s3);
    assert s3.uploaders[0].bodies + [[7]] == [[7]];
    Next(run.before, s3, Submit(0), QueuedState());
  }

  lemma PartIsDropped(run: Run)
    requires IsRun(run) && Final(run) == QueuedState()
    ensures IsRun(Then(Then(run, Take(0)), Interrupt(0)))
    ensures Final(Then(Then(run, Take(0)), Interrupt(0))) ==
      StuckState().(workers := [Busy(UploadPart(PartId(0, 1), [7]), Settled)], unfinished := 1)
  {
    hide IsRun, Final;
    var part, id, s4 := UploadPart(PartId(0, 1), [7]), PartId(0, 1), QueuedState();
    var s5 := s4.(queue := [], workers := [Busy(part, Taken)], place := map[id := InFlight(0)]);
    var s6 := s5.(workers := [Busy(part, Settled)], aborting := {0}, place := map[id := Dropped]);
    Next(run, s4, Take(0), s5);
    Next(Then(run, Take(0)), s5, Interrupt(0), s6);
  }

  lemma InterruptedRunEnds()
    ensures IsRun(InterruptedRun()) && Final(InterruptedRun()) == StuckState()
  {
    var run := InterruptedRun();
    PartIsQueued(run.before.before.before);
    hide IsRun, Final;
    PartIsDropped(run.before.before.before);
    Next(run.before, Final(run.before), TaskDone(0), StuckState());
  }

  /** The archive is closed, every job is done and no error is reported, yet its part is gone:
      its completion can never be queued, however often the answers are drained. */
  lemma InterruptedUploadNeverCompletes()
    ensures IsRun(InterruptedRun())
    ensures var s := Final(InterruptedRun());
      s.unfinished == 0 && !s.error && s.errors == 0 && 0 in s.uploaders
      && |PartsOf(RetrieveResults(s).partsDb, 0)| < s.uploaders[0].counter
      && RetrieveResults(RetrieveResults(s)) == RetrieveResults(s)
  {
    InterruptedRunEnds();
    hide IsRun, Final;
    RetrievingTwiceIsIdle(StuckState());
  }

  // ---------------------------------------------------------------- the workers get there

  function Weight(worker: Worker): nat {
    match worker
    case Busy(_, Taken) => 3
    case Busy(_, Acted) => 2
    case Busy(_, Settled) => 1
    case _ => 0
  }

  function TotalWeight(workers: seq<Worker>): nat {
    if workers == [] then 0 else TotalWeight(workers[..|workers| - 1]) + Weight(workers[|workers| - 1])
  }

  /** The work still to be done on the jobs that were queued. */
  function Work(s: State): nat { 4 * |s.queue| + TotalWeight(s.workers) }

  lemma {:induction false} TotalWeightUpdate(workers: seq<Worker>, w: nat, worker: Worker)
    requires w < |workers|
    ensures TotalWeight(workers[w := worker]) + Weight(workers[w]) == TotalWeight(workers) + Weight(worker)
  {
    var init := workers[..|workers| - 1];
    if w == |workers| - 1 {
      assert workers[w := worker][..|workers| - 1] == init;
    } else {
      TotalWeightUpdate(init, w, worker);
      assert workers[w := worker][..|workers| - 1] == init[w := worker];
    }
  }

  predicate IsWorkerStep(step: Step) {
    step.Take? || step.Act? || step.Report? || step.Skip? || step.Fail? || step.TaskDone?
  }

  lemma WorkDrops(s: State, s': State, w: nat, worker: Worker)
    requires w < |s.workers| && s'.workers == s.workers[w := worker]
    requires 4 * |s'.queue| + Weight(worker) < 4 * |s.queue| + Weight(s.workers[w])
    ensures Work(s') < Work(s)
  {
    TotalWeightUpdate(s.workers, w, worker);
  }

  lemma TakeDrops(s: State, s': State, step: Step, w: nat)
    requires step.Take? && step.w == w && Enabled(s, step) && s' == Apply(s, step)
    ensures Work(s') < Work(s)
  {
    hide Work;
    WorkDrops(s, s', w, Busy(s.queue[0], Taken));
  }

  lemma ActShape(s: State, s': State, step: Step, w: nat, job: Job)
    requires step.Act? && step.w == w && Enabled(s, step) && s' == Apply(s, step) && job == s.workers[w].job
    ensures s'.workers == s.workers[w := Busy(job, Acted)] && s'.queue == s.queue
  {
  }

  lemma ActDrops(s: State, s': State, step: Step, w: nat)
    requires step.Act? && step.w == w && Enabled(s, step) && s' == Apply(s, step)
    ensures Work(s') < Work(s)
  {
    var job := s.workers[w].job;
    ActShape(s, s', step, w, job);
    assert Weight(s.workers[w]) > Weight(Busy(job, Acted));
    hide Apply, Work, Weight;
    WorkDrops(s, s', w, Busy(job, Acted));
  }

  lemma ReportShape(s: State, s': State, step: Step, w: nat, job: Job)
    requires step.Report? && step.w == w && Enabled(s, step) && s' == Apply(s, step) && job == s.workers[w].job
    ensures s'.workers == s.workers[w := Busy(job, Settled)] && s'.queue == s.queue
  {
  }

  lemma ReportDrops(s: State, s': State, step: Step, w: nat)
    requires step.Report? && step.w == w && Enabled(s, step) && s' == Apply(s, step)
    ensures Work(s') < Work(s)
  {
    var job := s.workers[w].job;
    ReportShape(s, s', step, w, job);
    assert Weight(s.workers[w]) > Weight(Busy(job, Settled));
    hide Apply, Work, Weight;
    WorkDrops(s, s', w, Busy(job, Settled));
  }

  lemma SkipShape(s: State, s': State, step: Step, w: nat, job: Job)
    requires step.Skip? && step.w == w && Enabled(s, step) && s' == Apply(s, step) && job == s.workers[w].job
    ensures s'.workers == s.workers[w := Busy(job, Settled)] && s'.queue == s.queue
  {
  }

  lemma SkipDrops(s: State, s': State, step: Step, w: nat)
    requires step.Skip? && step.w == w && Enabled(s, step) && s' == Apply(s, step)
    ensures Work(s') < Work(s)
  {
    var job := s.workers[w].job;
    SkipShape(s, s', step, w, job);
    assert Weight(s.workers[w]) > Weight(Busy(job, Settled));
    hide Apply, Work, Weight;
    WorkDrops(s, s', w, Busy(job, Settled));
  }

  lemma FailDrops(s: State, s': State, step: Step, w: nat)
    requires step.Fail? && step.w == w && Enabled(s, step) && s' == Apply(s, step)
    ensures Work(s') < Work(s)
  {
    hide Work;
    WorkDrops(s, s', w, Busy(s.workers[w].job, Settled));
  }

  lemma TaskDoneDrops(s: State, s': State, step: Step, w: nat)
    requires step.TaskDone? && step.w == w && Enabled(s, step) && s' == Apply(s, step)
    ensures Work(s') < Work(s)
  {
    hide Work;
    WorkDrops(s, s', w, if s.workers[w].job.Stop? then Stopped else Idle);
  }

  /** Each step of a worker leaves strictly less to do, so the workers cannot go round in circles. */
  lemma WorkerStepsRunOut(s: State, step: Step)
    requires IsWorkerStep(step) && Enabled(s, step)
    ensures Work(Apply(s, step)) < Work(s)
  {
    hide Work, Enabled, Apply;
    match step
    case Take(w) => TakeDrops(s, Apply(s, step), step, w);
    case Act(w) => ActDrops(s, Apply(s, step), step, w);
    case Report(w) => ReportDrops(s, Apply(s, step), step, w);
    case Skip(w) => SkipDrops(s, Apply(s, step), step, w);
    case Fail(w) => FailDrops(s, Apply(s, step), step, w);
    case TaskDone(w) => TaskDoneDrops(s, Apply(s, step), step, w);
  }

  lemma {:induction false} SomeBusy(workers: seq<Worker>) returns (w: nat)
    requires BusyCount(workers) > 0
    ensures w < |workers| && workers[w].Busy?
  {
    if workers[|workers| - 1].Busy? { w := |workers| - 1; } else { w := SomeBusy(workers[..|workers| - 1]); }
  }

  predicate CanMove(s: State, step: Step) { IsWorkerStep(step) && Enabled(s, step) }

  /** While a job is unfinished some worker can move, except when all workers have stopped. */
  lemma JoinIsNotStuck(run: Run)
    requires IsRun(run) && Final(run).unfinished > 0
    ensures (exists step :: CanMove(Final(run), step)) <==> !AllStopped(Final(run).workers)
  {
    RunKeepsInv(run);
    hide IsRun, Final, ProducerOk, QueueOk, AnswersOk, ReportsOk, Enabled;
    var s := Final(run);
    if w :| 0 <= w < |s.workers| && !s.workers[w].Stopped? {
      var x := w;
      if BusyCount(s.workers) > 0 { x := SomeBusy(s.workers); }
      TheWorker(s, x);
      MayMove(s, x);
    }
    if step :| CanMove(s, step) { MoverIsNotStopped(s, step); }
  }

  predicate AllStopped(workers: seq<Worker>) { forall w :: 0 <= w < |workers| ==> workers[w].Stopped? }

  lemma MoverIsNotStopped(s: State, step: Step)
    requires CanMove(s, step)
    ensures step.w < |s.workers| && !s.workers[step.w].Stopped?
  {
  }

  lemma MayMove(s: State, w: nat)
    requires w < |s.workers| && (s.workers[w].Busy? || (s.workers[w].Idle? && s.queue != []))
    requires WorkerOk(s, w)
    ensures exists step :: CanMove(s, step)
  {
    var worker := s.workers[w];
    var step :=
      if worker.Idle? then Take(w)
      else if worker.stage == Settled || worker.job.Stop? then TaskDone(w)
      else if worker.stage == Acted then Report(w)
      else if w in s.aborting then Skip(w)
      else Act(w);
    assert CanMove(s, step);
  }

  // ---------------------------------------------------------------- the queue is bounded

  lemma QueueingStaysBounded(s: State, step: Step)
    requires Enabled(s, step) && |s.queue| <= |s.workers|
    requires step.Submit? || step.QueueComplete? || step.PutStop? || step.Take?
    ensures |Apply(s, step).queue| <= |Apply(s, step).workers| == |s.workers|
  {
  }

  lemma ProducerKeepsQueue(s: State, step: Step)
    requires Enabled(s, step)
    requires step.Open? || step.Write? || step.StartClose? || step.SkipSubmit? || step.RaiseError? || step.Retrieve?
    ensures Apply(s, step).queue == s.queue && Apply(s, step).workers == s.workers
  {
  }

  lemma FailKeepsQueue(s: State, step: Step)
    requires Enabled(s, step) && (step.Fail? || step.TaskDone?)
    ensures Apply(s, step).queue == s.queue && |Apply(s, step).workers| == |s.workers|
  {
  }

  lemma InterruptKeepsQueue(s: State, step: Step)
    requires Enabled(s, step) && step.Interrupt?
    ensures Apply(s, step).queue == s.queue && |Apply(s, step).workers| == |s.workers|
  {
    hide Apply;
    if s.workers[step.w].Idle? { IdleKeepsQueue(s, step); } else { BusyKeepsQueue(s, step); }
  }

  lemma IdleKeepsQueue(s: State, step: Step)
    requires Enabled(s, step) && step.Interrupt? && s.workers[step.w].Idle?
    ensures Apply(s, step).queue == s.queue && |Apply(s, step).workers| == |s.workers|
  {
  }

  lemma BusyKeepsQueue(s: State, step: Step)
    requires Enabled(s, step) && step.Interrupt? && s.workers[step.w].Busy?
    ensures Apply(s, step).queue == s.queue && |Apply(s, step).workers| == |s.workers|
  {
  }

  lemma StepStaysBounded(s: State, step: Step)
    requires Enabled(s, step) && |s.queue| <= |s.workers|
    ensures |Apply(s, step).queue| <= |Apply(s, step).workers| == |s.workers|
  {
    if step.Act? {
      ActShape(s, Apply(s, step), step, step.w, s.workers[step.w].job);
    } else if step.Report? {
      ReportShape(s, Apply(s, step), step, step.w, s.workers[step.w].job);
    } else if step.Skip? {
      SkipShape(s, Apply(s, step), step, step.w, s.workers[step.w].job);
    } else if step.Submit? || step.QueueComplete? || step.PutStop? || step.Take? {
      QueueingStaysBounded(s, step);
    } else if step.Fail? || step.TaskDone? {
      FailKeepsQueue(s, step);
    } else if step.Interrupt? {
      InterruptKeepsQueue(s, step);
    } else {
      ProducerKeepsQueue(s, step);
    }
    hide Apply;
  }

  /** Never more jobs wait than there are workers. */
  lemma {:induction false} QueueIsBounded(run: Run)
    requires IsRun(run)
    ensures |Final(run).queue| <= |Final(run).workers|
  {
    if run.Then? {
      QueueIsBounded(run.before);
      hide Apply, Enabled;
      StepStaysBounded(Final(run.before), run.step);
    }
  }
}
