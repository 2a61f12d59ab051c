/** The second wait of the upload, for the answer to the completion job: where that job is at every
    moment of a run, and exactly when the wait ends (barman/cloud.py). */
module MultipartCompletion {
  import opened Wrappers
  import opened MultipartUpload
  import opened MultipartSafety
  import opened MultipartRuns
  import opened MultipartProgress

  // ---------------------------------------------------------------- where the completion job is

  predicate Completes(job: Job, k: Key) { job.Complete? && job.key == k }

  function InQueue(queue: seq<Job>, k: Key): nat {
    if queue == [] then 0 else InQueue(queue[..|queue| - 1], k) + (if Completes(queue[|queue| - 1], k) then 1 else 0)
  }

  /** The worker holds the job and has not answered yet. */
  predicate WorksOn(worker: Worker, k: Key) { worker.Busy? && worker.stage != Settled && Completes(worker.job, k) }

  function WithWorkers(workers: seq<Worker>, k: Key): nat {
    if workers == [] then 0
    else WithWorkers(workers[..|workers| - 1], k) + (if WorksOn(workers[|workers| - 1], k) then 1 else 0)
  }

  function Answers(done: seq<(Key, UploadStatus)>, k: Key): nat {
    if done == [] then 0 else Answers(done[..|done| - 1], k) + (if done[|done| - 1].0 == k then 1 else 0)
  }

  function Known(status: map<Key, UploadStatus>, k: Key): nat { if k in status && status[k] != Uploading then 1 else 0 }

  function Ended(uploaders: map<Key, Uploader>, k: Key): nat { if k in uploaders && uploaders[k].completed then 1 else 0 }

  /** The job in the queue or with a worker, its answer under way, or its answer read. */
  function Present(s: State, k: Key): nat {
    InQueue(s.queue, k) + WithWorkers(s.workers, k) + Answers(s.done, k) + Known(s.status, k)
  }

  /** The step takes the job away from its worker without an answer. */
  predicate Drops(s: State, step: Step, k: Key) {
    step.Interrupt? && step.w < |s.workers| && WorksOn(s.workers[step.w], k)
  }

  predicate FailsOn(s: State, step: Step, k: Key) { step.Fail? && step.w < |s.workers| && WorksOn(s.workers[step.w], k) }

  function Dropping(s: State, step: Step, k: Key): nat { if Drops(s, step, k) then 1 else 0 }

  function Failing(s: State, step: Step, k: Key): nat { if FailsOn(s, step, k) then 1 else 0 }

  /** How often the job was dropped, and how often it failed, in a run. */
  ghost function TimesDropped(run: Run, k: Key): nat
    requires IsRun(run)
  {
    match run
    case Begin(_, _) => 0
    case Then(before, step) => TimesDropped(before, k) + Dropping(Final(before), step, k)
  }

  ghost function TimesFailed(run: Run, k: Key): nat
    requires IsRun(run)
  {
    match run
    case Begin(_, _) => 0
    case Then(before, step) => TimesFailed(before, k) + Failing(Final(before), step, k)
  }

  // ---------------------------------------------------------------- counting

  lemma QueueGrows(queue: seq<Job>, job: Job, k: Key)
    ensures InQueue(queue + [job], k) == InQueue(queue, k) + (if Completes(job, k) then 1 else 0)
  {
    assert (queue + [job])[..|queue|] == queue;
  }

  lemma {:induction false} QueueShrinks(queue: seq<Job>, k: Key)
    requires queue != []
    ensures InQueue(queue, k) == InQueue(queue[1..], k) + (if Completes(queue[0], k) then 1 else 0)
  {
    var init, last := queue[..|queue| - 1], queue[|queue| - 1];
    if init == [] {
      assert queue[1..] == [];
    } else {
      QueueShrinks(init, k);
      QueueGrows(init[1..], last, k);
      assert queue[1..] == init[1..] + [last];
    }
  }

  lemma {:induction false} WorkersChange(workers: seq<Worker>, w: nat, worker: Worker, k: Key)
    requires w < |workers|
    ensures WithWorkers(workers[w := worker], k) + (if WorksOn(workers[w], k) then 1 else 0)
         == WithWorkers(workers, k) + (if WorksOn(worker, k) then 1 else 0)
  {
    var init := workers[..|workers| - 1];
    if w == |workers| - 1 {
      assert workers[w := worker][..|workers| - 1] == init;
    } else {
      WorkersChange(init, w, worker, k);
      assert workers[w := worker][..|workers| - 1] == init[w := worker];
    }
  }

  lemma AnswersGrow(done: seq<(Key, UploadStatus)>, answer: (Key, UploadStatus), k: Key)
    ensures Answers(done + [answer], k) == Answers(done, k) + (if answer.0 == k then 1 else 0)
  {
    assert (done + [answer])[..|done|] == done;
  }

  /** An answer says that the upload finished or was given up. */
  ghost predicate AnswersAreFinal(done: seq<(Key, UploadStatus)>) {
    forall i :: 0 <= i < |done| ==> done[i].1 != Uploading
  }

  lemma {:induction false} ReadingAnswers(status: map<Key, UploadStatus>, done: seq<(Key, UploadStatus)>, k: Key)
    requires AnswersAreFinal(done)
    ensures Answers(done, k) > 0 ==> Known(UpdateStatus(status, done), k) == 1
    ensures Answers(done, k) == 0 ==> Known(UpdateStatus(status, done), k) == Known(status, k)
  {
    if done != [] {
      var init := done[..|done| - 1];
      assert forall i :: 0 <= i < |init| ==> init[i] == done[i];
      ReadingAnswers(status, init, k);
    }
  }

  lemma {:induction false} StartHasNone(workers: seq<Worker>, k: Key)
    requires forall w :: 0 <= w < |workers| ==> workers[w] == Idle
    ensures WithWorkers(workers, k) == 0
  {
    if workers != [] { StartHasNone(workers[..|workers| - 1], k); }
  }

  // ---------------------------------------------------------------- what steps do to the job

  /** Worker `w` is done with its job; with an answer, if it completed an archive. */
  ghost predicate Settles(s: State, s': State, w: nat, answer: Option<UploadStatus>) {
    && w < |s.workers| && s.workers[w].Busy? && s.workers[w].stage != Settled && !s.workers[w].job.Stop?
    && s'.workers == s.workers[w := Busy(s.workers[w].job, Settled)]
    && s'.queue == s.queue && s'.uploaders == s.uploaders && s'.status == s.status
    && s'.error == s.error && s'.errors >= s.errors
    && s'.done == if s.workers[w].job.Complete? && answer.Some? then s.done + [(s.workers[w].job.key, answer.value)] else s.done
  }

  lemma SettlingMoves(s: State, s': State, w: nat, answer: Option<UploadStatus>, k: Key)
    requires Settles(s, s', w, answer)
    ensures Present(s', k) + (if answer.None? && WorksOn(s.workers[w], k) then 1 else 0) == Present(s, k)
  {
    var job := s.workers[w].job;
    WorkersChange(s.workers, w, Busy(job, Settled), k);
    if job.Complete? && answer.Some? { AnswersGrow(s.done, (job.key, answer.value), k); }
    hide InQueue, WithWorkers, Answers;
  }

  lemma ReportOfPart(s: State, step: Step)
    requires step.Report? && Enabled(s, step) && s.workers[step.w].job.UploadPart?
    ensures Settles(s, Apply(s, step), step.w, Some(Finished))
  {
  }

  lemma ReportOfCompletion(s: State, step: Step)
    requires step.Report? && Enabled(s, step) && s.workers[step.w].job.Complete?
    ensures Settles(s, Apply(s, step), step.w, Some(Finished))
  {
  }

  lemma ReportSettles(s: State, step: Step)
    requires step.Report? && Enabled(s, step)
    ensures Settles(s, Apply(s, step), step.w, Some(Finished))
  {
    hide Apply, Settles;
    if s.workers[step.w].job.UploadPart? { ReportOfPart(s, step); } else { ReportOfCompletion(s, step); }
  }

  lemma SkipOfPart(s: State, step: Step)
    requires step.Skip? && Enabled(s, step) && s.workers[step.w].job.UploadPart?
    ensures Settles(s, Apply(s, step), step.w, Some(Aborted))
  {
  }

  lemma SkipOfCompletion(s: State, step: Step)
    requires step.Skip? && Enabled(s, step) && s.workers[step.w].job.Complete?
    ensures Settles(s, Apply(s, step), step.w, Some(Aborted))
  {
  }

  lemma SkipSettles(s: State, step: Step)
    requires step.Skip? && Enabled(s, step)
    ensures Settles(s, Apply(s, step), step.w, Some(Aborted))
  {
    hide Apply, Settles;
    if s.workers[step.w].job.UploadPart? { SkipOfPart(s, step); } else { SkipOfCompletion(s, step); }
  }

  lemma FailSettles(s: State, step: Step)
    requires step.Fail? && Enabled(s, step)
    ensures Settles(s, Apply(s, step), step.w, None) && Apply(s, step).errors > 0
  {
  }

  /** Nothing about the job changes. */
  ghost predicate LeavesAlone(s: State, s': State, k: Key) {
    && s'.queue == s.queue && s'.done == s.done && s'.status == s.status
    && WithWorkers(s'.workers, k) == WithWorkers(s.workers, k)
    && Ended(s'.uploaders, k) == Ended(s.uploaders, k)
  }

  lemma QuietLeavesAlone(s: State, step: Step, k: Key)
    requires IsQuietStep(step) && !step.Open? && !step.PutStop? && Enabled(s, step)
    ensures LeavesAlone(s, Apply(s, step), k)
  {
    hide WithWorkers;
  }

  lemma ActLeavesAlone(s: State, step: Step, k: Key)
    requires step.Act? && Enabled(s, step)
    ensures LeavesAlone(s, Apply(s, step), k)
  {
    var job := s.workers[step.w].job;
    ActActs(s, step, job);
    WorkersChange(s.workers, step.w, Busy(job, Acted), k);
    hide Apply, WithWorkers;
  }

  lemma RestLeavesAlone(s: State, s': State, w: nat, k: Key)
    requires w < |s.workers| && !WorksOn(s.workers[w], k)
    requires s'.workers == s.workers[w := Idle] || s'.workers == s.workers[w := Stopped]
    ensures WithWorkers(s'.workers, k) == WithWorkers(s.workers, k)
  {
    WorkersChange(s.workers, w, Idle, k);
    WorkersChange(s.workers, w, Stopped, k);
  }

  lemma TaskDoneLeavesAlone(s: State, step: Step, k: Key)
    requires step.TaskDone? && Enabled(s, step)
    ensures LeavesAlone(s, Apply(s, step), k)
  {
    hide WithWorkers;
    RestLeavesAlone(s, Apply(s, step), step.w, k);
  }

  lemma InterruptIdle(s: State, step: Step, k: Key)
    requires step.Interrupt? && Enabled(s, step) && s.workers[step.w].Idle?
    ensures LeavesAlone(s, Apply(s, step), k)
  {
    WorkersChange(s.workers, step.w, Stopped, k);
    hide WithWorkers;
  }

  lemma InterruptElsewhere(s: State, step: Step, k: Key)
    requires step.Interrupt? && Enabled(s, step) && s.workers[step.w].Busy? && !WorksOn(s.workers[step.w], k)
    ensures LeavesAlone(s, Apply(s, step), k)
  {
    WorkersChange(s.workers, step.w, Busy(s.workers[step.w].job, Settled), k);
    hide WithWorkers;
  }

  lemma InterruptSettles(s: State, step: Step, k: Key)
    requires step.Interrupt? && Enabled(s, step) && WorksOn(s.workers[step.w], k)
    ensures Settles(s, Apply(s, step), step.w, None)
  {
  }

  lemma TakeMoves(s: State, step: Step, k: Key)
    requires step.Take? && Enabled(s, step)
    ensures Present(Apply(s, step), k) == Present(s, k)
    ensures Apply(s, step).uploaders == s.uploaders && Apply(s, step).done == s.done
  {
    QueueShrinks(s.queue, k);
    WorkersChange(s.workers, step.w, Busy(s.queue[0], Taken), k);
    hide WithWorkers, InQueue, Answers;
  }

  lemma SubmitMoves(s: State, step: Step, k: Key)
    requires (step.Submit? || step.PutStop?) && Enabled(s, step)
    ensures Present(Apply(s, step), k) == Present(s, k)
    ensures Ended(Apply(s, step).uploaders, k) == Ended(s.uploaders, k) && Apply(s, step).done == s.done
  {
    var queue := Apply(s, step).queue;
    var job := queue[|queue| - 1];
    QueueGrows(s.queue, job, k);
    hide WithWorkers, InQueue, Answers;
  }

  lemma QueueCompleteMoves(s: State, step: Step, k: Key)
    requires step.QueueComplete? && Enabled(s, step)
    ensures Present(Apply(s, step), k) + Ended(s.uploaders, k) == Present(s, k) + Ended(Apply(s, step).uploaders, k)
    ensures Apply(s, step).done == s.done
  {
    QueueGrows(s.queue, Complete(step.key, PartsOf(s.partsDb, step.key)), k);
    hide WithWorkers, InQueue, Answers;
  }

  lemma OpenMoves(s: State, step: Step, k: Key)
    requires step.Open? && Enabled(s, step) && Present(s, k) <= Ended(s.uploaders, k)
    ensures Present(Apply(s, step), k) == Present(s, k)
    ensures Ended(Apply(s, step).uploaders, k) == Ended(s.uploaders, k) && Apply(s, step).done == s.done
  {
    hide WithWorkers, InQueue, Answers;
  }

  lemma RetrieveMoves(s: State, step: Step, k: Key)
    requires step.Retrieve? && Enabled(s, step) && Present(s, k) <= 1 && AnswersAreFinal(s.done)
    ensures Present(Apply(s, step), k) == Present(s, k)
    ensures Apply(s, step).uploaders == s.uploaders && Apply(s, step).done == []
  {
    ReadingAnswers(s.status, s.done, k);
    hide WithWorkers, InQueue;
  }

  /** The answers stay final. */
  lemma StepAnswers(s: State, step: Step)
    requires Enabled(s, step) && AnswersAreFinal(s.done)
    ensures AnswersAreFinal(Apply(s, step).done)
  {
    hide Enabled, Apply, Present;
    if step.Report? {
      ReportSettles(s, step);
    } else if step.Skip? {
      SkipSettles(s, step);
    } else if step.Open? || step.Retrieve? {
      OpeningAnswersNothing(s, step);
    } else {
      OthersAnswerNothing(s, step);
    }
  }

  lemma OpeningAnswersNothing(s: State, step: Step)
    requires Enabled(s, step) && (step.Open? || step.Retrieve?)
    ensures Apply(s, step).done == s.done || Apply(s, step).done == []
    ensures Apply(s, step).error == s.error && Apply(s, step).errors == s.errors
  {
  }

  /** Neither answers nor what was read of them change, no archive is added, no error goes away. */
  ghost predicate Aside(s: State, s': State) {
    s'.uploaders.Keys == s.uploaders.Keys && s'.done == s.done && s'.status == s.status && (s'.error == s.error || s'.error) && (s'.errors >= s.errors || s'.error)
  }

  lemma ProducerAside(s: State, step: Step)
    requires Enabled(s, step)
    requires step.Write? || step.StartClose? || step.SkipSubmit? || step.RaiseError? || step.PutStop?
    ensures Aside(s, Apply(s, step))
  {
  }

  lemma QueueingAside(s: State, step: Step)
    requires Enabled(s, step) && (step.Submit? || step.QueueComplete? || step.Take?)
    ensures Aside(s, Apply(s, step))
  {
  }

  lemma TaskDoneAside(s: State, step: Step)
    requires Enabled(s, step) && step.TaskDone?
    ensures Aside(s, Apply(s, step))
  {
  }

  lemma ActAside(s: State, step: Step)
    requires Enabled(s, step) && step.Act?
    ensures Aside(s, Apply(s, step))
  {
    ActActs(s, step, s.workers[step.w].job);
    hide Apply;
  }

  lemma InterruptAside(s: State, step: Step)
    requires Enabled(s, step) && step.Interrupt?
    ensures Aside(s, Apply(s, step))
  {
    hide Apply;
    if s.workers[step.w].Idle? { IdleAside(s, step); } else { BusyAside(s, step); }
  }

  lemma IdleAside(s: State, step: Step)
    requires Enabled(s, step) && step.Interrupt? && s.workers[step.w].Idle?
    ensures Aside(s, Apply(s, step))
  {
  }

  lemma BusyAside(s: State, step: Step)
    requires Enabled(s, step) && step.Interrupt? && s.workers[step.w].Busy?
    ensures Aside(s, Apply(s, step))
  {
  }

  lemma OthersAnswerNothing(s: State, step: Step)
    requires Enabled(s, step) && !step.Open? && !step.Retrieve? && !step.Report? && !step.Skip?
    ensures Aside(s, Apply(s, step))
  {
    hide Enabled, Apply;
    if step.Act? {
      ActAside(s, step);
    } else if step.Fail? {
      FailSettles(s, step);
    } else if step.Interrupt? {
      InterruptAside(s, step);
    } else if step.TaskDone? {
      TaskDoneAside(s, step);
    } else if step.Submit? || step.QueueComplete? || step.Take? {
      QueueingAside(s, step);
    } else {
      ProducerAside(s, step);
    }
  }

  // ---------------------------------------------------------------- the job is always in one place

  /** What a step changes: the completion job is queued once, and leaves only by being dropped or
      by failing. */
  lemma StepConserves(s: State, step: Step, k: Key)
    requires Enabled(s, step) && AnswersAreFinal(s.done) && Present(s, k) <= Ended(s.uploaders, k)
    ensures Present(Apply(s, step), k) + Dropping(s, step, k) + Failing(s, step, k) + Ended(s.uploaders, k)
         == Present(s, k) + Ended(Apply(s, step).uploaders, k)
  {
    hide Enabled, Apply, WithWorkers, InQueue, Answers, AnswersAreFinal;
    if step.Open? {
      OpenMoves(s, step, k);
    } else if step.Submit? || step.PutStop? {
      SubmitMoves(s, step, k);
    } else if step.Retrieve? {
      RetrieveMoves(s, step, k);
    } else if step.QueueComplete? {
      QueueCompleteMoves(s, step, k);
    } else if step.Take? {
      TakeMoves(s, step, k);
    } else {
      WorkerStepConserves(s, step, k);
    }
  }

  lemma WorkerStepConserves(s: State, step: Step, k: Key)
    requires Enabled(s, step)
    requires step.Act? || step.TaskDone? || step.Report? || step.Skip? || step.Fail? || step.Interrupt?
      || (IsQuietStep(step) && !step.Open? && !step.PutStop?)
    ensures Present(Apply(s, step), k) + Dropping(s, step, k) + Failing(s, step, k) + Ended(s.uploaders, k)
         == Present(s, k) + Ended(Apply(s, step).uploaders, k)
  {
    hide Apply, WithWorkers, InQueue, Answers;
    var s' := Apply(s, step);
    if step.Act? {
      ActLeavesAlone(s, step, k);
    } else if step.TaskDone? {
      TaskDoneLeavesAlone(s, step, k);
    } else if step.Report? {
      ReportSettles(s, step);
      SettlingMoves(s, s', step.w, Some(Finished), k);
    } else if step.Skip? {
      SkipSettles(s, step);
      SettlingMoves(s, s', step.w, Some(Aborted), k);
    } else if step.Fail? {
      FailSettles(s, step);
      SettlingMoves(s, s', step.w, None, k);
    } else if step.Interrupt? {
      InterruptConserves(s, step, k);
    } else {
      QuietLeavesAlone(s, step, k);
    }
  }

  lemma InterruptConserves(s: State, step: Step, k: Key)
    requires Enabled(s, step) && step.Interrupt?
    ensures Present(Apply(s, step), k) + Dropping(s, step, k) + Ended(s.uploaders, k)
         == Present(s, k) + Ended(Apply(s, step).uploaders, k)
  {
    hide Apply, WithWorkers, InQueue, Answers;
    if WorksOn(s.workers[step.w], k) {
      InterruptSettles(s, step, k);
      SettlingMoves(s, Apply(s, step), step.w, None, k);
    } else if s.workers[step.w].Idle? {
      InterruptIdle(s, step, k);
    } else {
      InterruptElsewhere(s, step, k);
    }
  }

  /** At every moment of every run the completion job of an archive is in exactly one place: still
      to be queued, in the queue, with a worker, answered, dropped, or failed. */
  lemma {:induction false} CompletionIsInOnePlace(run: Run, k: Key)
    requires IsRun(run)
    ensures Present(Final(run), k) + TimesDropped(run, k) + TimesFailed(run, k) == Ended(Final(run).uploaders, k)
    ensures AnswersAreFinal(Final(run).done)
  {
    match run
    case Begin(chunkSize, workers) =>
      assert Final(run) == Start(chunkSize, workers);
      StartHasNone(Final(run).workers, k);
    case Then(before, step) =>
      CompletionIsInOnePlace(before, k);
      var s := Final(before);
      hide Present, AnswersAreFinal, Ended, Enabled, Apply;
      StepConserves(s, step, k);
      StepAnswers(s, step);
  }

  lemma ErrorsStay(s: State, step: Step)
    requires Enabled(s, step) && (s.error || s.errors > 0 || step.Fail?)
    ensures Apply(s, step).error || Apply(s, step).errors > 0
  {
    hide Enabled, Apply;
    if step.Report? {
      ReportSettles(s, step);
    } else if step.Skip? {
      SkipSettles(s, step);
    } else if step.Fail? {
      FailSettles(s, step);
    } else if step.Open? || step.Retrieve? {
      OpeningAnswersNothing(s, step);
    } else {
      OthersAnswerNothing(s, step);
    }
  }

  lemma {:induction false} FailureOfTheCompletionShows(run: Run, k: Key)
    requires IsRun(run) && TimesFailed(run, k) > 0
    ensures Final(run).error || Final(run).errors > 0
  {
    if run.Then? {
      var s := Final(run.before);
      if TimesFailed(run.before, k) > 0 { FailureOfTheCompletionShows(run.before, k); }
      hide Apply, Enabled;
      ErrorsStay(s, run.step);
    }
  }

  // ---------------------------------------------------------------- the second wait

  lemma {:induction false} NobodyWorks(workers: seq<Worker>, k: Key)
    requires BusyCount(workers) == 0
    ensures WithWorkers(workers, k) == 0
  {
    if workers != [] { NobodyWorks(workers[..|workers| - 1], k); }
  }

  lemma JoinedHoldsNoJob(s: State, k: Key)
    requires CountOk(s) && s.unfinished == 0
    ensures InQueue(s.queue, k) == 0 && WithWorkers(s.workers, k) == 0
  {
    NobodyWorks(s.workers, k);
  }

  lemma {:induction false} ReadingForgetsNothing(status: map<Key, UploadStatus>, done: seq<(Key, UploadStatus)>)
    ensures status.Keys <= UpdateStatus(status, done).Keys
  {
    if done != [] { ReadingForgetsNothing(status, done[..|done| - 1]); }
  }

  lemma OpeningIsKnown(s: State, step: Step)
    requires Enabled(s, step) && (step.Open? || step.Retrieve?) && s.uploaders.Keys <= s.status.Keys
    ensures Apply(s, step).uploaders.Keys <= Apply(s, step).status.Keys
  {
    ReadingForgetsNothing(s.status, s.done);
  }

  lemma {:induction false} UploadsAreKnown(run: Run)
    requires IsRun(run)
    ensures Final(run).uploaders.Keys <= Final(run).status.Keys
  {
    if run.Then? {
      UploadsAreKnown(run.before);
      var s, step := Final(run.before), run.step;
      hide Enabled, Apply;
      if step.Report? {
        ReportSettles(s, step);
      } else if step.Skip? {
        SkipSettles(s, step);
      } else if step.Open? || step.Retrieve? {
        OpeningIsKnown(s, step);
      } else {
        OthersAnswerNothing(s, step);
      }
    }
  }

  /** The test of the loop: the status read is that of an upload under way. */
  predicate StillWaits(s: State, k: Key)
    requires k in s.status
  {
    s.status[k] == Uploading
  }

  /** With all jobs done and no error reported, one draining of the answers leaves the wait for
      the completion if and only if no interrupted worker dropped the completion job. */
  lemma SecondWaitEndsIff(run: Run, k: Key)
    requires IsRun(run) && Enabled(Final(run), Retrieve) && !Final(run).error && Final(run).errors == 0
    requires k in Final(run).uploaders && Final(run).uploaders[k].completed
    ensures k in RetrieveResults(Final(run)).status
    ensures StillWaits(RetrieveResults(Final(run)), k) <==> TimesDropped(run, k) > 0
  {
    var s := Final(run);
    CompletionIsInOnePlace(run, k);
    if TimesFailed(run, k) > 0 { FailureOfTheCompletionShows(run, k); }
    RunKeepsInv(run);
    JoinedHoldsNoJob(s, k);
    ReadingAnswers(s.status, s.done, k);
    UploadsAreKnown(run);
    ReadingForgetsNothing(s.status, s.done);
    hide IsRun, Final, Inv, UpdateStatus, Merge;
  }

  // ---------------------------------------------------------------- without interrupts

  lemma {:induction false} NoInterruptNoDrop(run: Run, k: Key)
    requires IsRun(run) && NeverInterrupted(run)
    ensures TimesDropped(run, k) == 0
  {
    if run.Then? { NoInterruptNoDrop(run.before, k); }
  }

  ghost predicate NothingAborted(s: State) {
    && (forall i :: 0 <= i < |s.done| ==> s.done[i].1 != Aborted)
    && (forall k :: k in s.status ==> s.status[k] != Aborted)
  }

  lemma {:induction false} ReadingAbortsNothing(status: map<Key, UploadStatus>, done: seq<(Key, UploadStatus)>)
    requires forall i :: 0 <= i < |done| ==> done[i].1 != Aborted
    requires forall k :: k in status ==> status[k] != Aborted
    ensures forall k :: k in UpdateStatus(status, done) ==> UpdateStatus(status, done)[k] != Aborted
  {
    if done != [] {
      var init := done[..|done| - 1];
      assert forall i :: 0 <= i < |init| ==> init[i] == done[i];
      ReadingAbortsNothing(status, init);
    }
  }

  lemma StepAbortsNothing(s: State, step: Step)
    requires Enabled(s, step) && !step.Skip? && NothingAborted(s)
    ensures NothingAborted(Apply(s, step))
  {
    if step.Retrieve? {
      ReadingAbortsNothing(s.status, s.done);
    } else if step.Open? {
    } else {
      hide Enabled, Apply;
      if step.Report? { ReportSettles(s, step); } else { OthersAnswerNothing(s, step); }
    }
  }

  lemma {:induction false} NoInterruptNoAbort(run: Run)
    requires IsRun(run) && NeverInterrupted(run)
    ensures NothingAborted(Final(run))
  {
    if run.Then? {
      NoInterruptNoAbort(run.before);
      NothingIsDropped(run.before);
      assert !run.step.Skip?;
      hide NothingAborted, Apply, Enabled;
      StepAbortsNothing(Final(run.before), run.step);
    }
  }

  /** The upload makes progress: with no interrupts and no error, once the completion is queued and
      all jobs are done, one draining of the answers reports the upload as done, and the object is
      the byte stream that was written. */
  lemma UninterruptedUploadFinishes(run: Run, k: Key)
    requires IsRun(run) && NeverInterrupted(run)
    requires Enabled(Final(run), Retrieve) && !Final(run).error && Final(run).errors == 0
    requires k in Final(run).uploaders && Final(run).uploaders[k].completed
    ensures var s := RetrieveResults(Final(run));
      k in s.status && s.status[k] == Finished && k in s.objects && s.objects[k] == Final(run).uploaders[k].written
  {
    var next := Then(run, Retrieve);
    NoInterruptNoDrop(run, k);
    SecondWaitEndsIff(run, k);
    NoInterruptNoAbort(next);
    FinishedMeansStored(next, k);
  }

  // ---------------------------------------------------------------- a dropped completion

  const ID: PartId := PartId(0, 1)
  const PART: Job := UploadPart(ID, [7])
  const COMPLETION: Job := Complete(0, [1])

  function UploadedRun(): Run {
    Then(Then(Then(Then(Then(Then(Then(Then(Begin(0, 1), Open(0)), Write(0, [7])), StartClose(0)), Submit(0)),
      Take(0)), Act(0)), Report(0)), TaskDone(0))
  }

  /** One worker, interrupted while it holds the completion of the archive. */
  function LostRun(): Run {
    Then(Then(Then(Then(Then(UploadedRun(), Retrieve), QueueComplete(0)), Take(0)), Interrupt(0)), TaskDone(0))
  }

  function TakenState(): State {
    QueuedState().(queue := [], workers := [Busy(PART, Taken)], place := map[ID := InFlight(0)])
  }

  function ActedState(): State { TakenState().(workers := [Busy(PART, Acted)], store := map[ID := [7]]) }

  function ReportedState(): State {
    ActedState().(workers := [Busy(PART, Settled)], results := [ID], place := map[ID := Returned])
  }

  /** The only part is uploaded and answered for. */
  function UploadedState(): State { ReportedState().(workers := [Idle], unfinished := 0) }

  function RecordedState(): State {
    UploadedState().(results := [], partsDb := map[0 := [1]], place := map[ID := Recorded])
  }

  function CompletionQueuedState(): State {
    RecordedState().(uploaders := map[0 := Uploader([7], None, [[7]], 1, true, true)], queue := [COMPLETION],
                     unfinished := 1, partsDb := map[], place := map[ID := Assembled])
  }

  /** The completion is with the worker. */
  function CompletingState(): State { CompletionQueuedState().(queue := [], workers := [Busy(COMPLETION, Taken)]) }

  function DroppedState(): State { CompletingState().(workers := [Busy(COMPLETION, Settled)], aborting := {0}) }

  /** Every part is accounted for, nobody is at fault, and there is no object. */
  function LostState(): State { DroppedState().(unfinished := 0, workers := [Idle]) }

  ghost predicate Goes(s: State, step: Step, s': State) { Enabled(s, step) && Apply(s, step) == s' }

  lemma PartTaken()
    ensures Goes(QueuedState(), Take(0), TakenState())
  {
  }

  lemma PartStored()
    ensures Goes(TakenState(), Act(0), ActedState())
  {
  }

  lemma PartReported()
    ensures Goes(ActedState(), Report(0), ReportedState())
  {
    assert ActedState().results + [ID] == [ID];
  }

  lemma PartDone()
    ensures Goes(ReportedState(), TaskDone(0), UploadedState())
  {
  }

  lemma OnePartMerges()
    ensures Merge(map[], [ID]) == map[0 := [1]]
  {
    assert [ID][..0] == [];
    assert Arrived([ID], 0) == [1] && forall k: Key :: k != 0 ==> Arrived([ID], k) == [];
    assert SortParts([1]) == [1];
    assert [] + [1] == [1];
    var db := Merge(map[], [ID]);
    assert ID in [ID] && ID.key == 0;
    assert db.Keys == {0};
  }

  lemma PartRecorded()
    ensures Goes(UploadedState(), Retrieve, RecordedState())
  {
    OnePartMerges();
    hide Merge;
    assert RetrieveResults(UploadedState()).place == map[ID := Recorded];
  }

  lemma CompletionQueued()
    ensures Goes(RecordedState(), QueueComplete(0), CompletionQueuedState())
  {
    var s := RecordedState();
    assert s.partsDb - {0} == map[];
    assert s.queue + [COMPLETION] == [COMPLETION];
    assert Apply(s, QueueComplete(0)).place == map[ID := Assembled];
  }

  lemma CompletionTaken()
    ensures Goes(CompletionQueuedState(), Take(0), CompletingState())
  {
  }

  lemma CompletionDropped()
    ensures Goes(CompletingState(), Interrupt(0), DroppedState())
  {
  }

  lemma CompletionDone()
    ensures Goes(DroppedState(), TaskDone(0), LostState())
  {
  }

  lemma GoOn(run: Run, s: State, step: Step, s': State)
    requires IsRun(run) && Final(run) == s && Goes(s, step, s')
    ensures IsRun(Then(run, step)) && Final(Then(run, step)) == s'
  {
  }

  lemma PartIsUploaded(run: Run)
    requires run == Then(Then(Then(Then(Begin(0, 1), Open(0)), Write(0, [7])), StartClose(0)), Submit(0))
    ensures UploadedRun() == Then(Then(Then(Then(run, Take(0)), Act(0)), Report(0)), TaskDone(0))
    ensures IsRun(UploadedRun()) && Final(UploadedRun()) == UploadedState()
  {
    PartIsQueued(run);
    PartTaken();
    PartStored();
    PartReported();
    PartDone();
    hide IsRun, Final, Goes, QueuedState, TakenState, ActedState, ReportedState, UploadedState;
    GoOn(run, QueuedState(), Take(0), TakenState());
    GoOn(Then(run, Take(0)), TakenState(), Act(0), ActedState());
    GoOn(Then(Then(run, Take(0)), Act(0)), ActedState(), Report(0), ReportedState());
    GoOn(Then(Then(Then(run, Take(0)), Act(0)), Report(0)), ReportedState(), TaskDone(0), UploadedState());
  }

  lemma LostRunEnds()
    ensures IsRun(LostRun()) && Final(LostRun()) == LostState()
  {
    var run := LostRun();
    PartIsUploaded(UploadedRun().before.before.before.before);
    PartRecorded();
    CompletionQueued();
    CompletionTaken();
    CompletionDropped();
    CompletionDone();
    hide IsRun, Final, Goes, UploadedState, RecordedState, CompletionQueuedState, CompletingState, DroppedState, LostState;
    GoOn(UploadedRun(), UploadedState(), Retrieve, RecordedState());
    GoOn(run.before.before.before.before, RecordedState(), QueueComplete(0), CompletionQueuedState());
    GoOn(run.before.before.before, CompletionQueuedState(), Take(0), CompletingState());
    GoOn(run.before.before, CompletingState(), Interrupt(0), DroppedState());
    GoOn(run.before, DroppedState(), TaskDone(0), LostState());
  }

  /** No part was dropped, every job is done and no error is reported, yet the completion is gone:
      there is no object, and draining the answers never changes that. */
  lemma DroppedCompletionIsNeverAnswered()
    ensures IsRun(LostRun()) && Final(LostRun()) == LostState()
    ensures var s := LostState();
      NoneDropped(s, 0) && s.uploaders[0].completed && s.unfinished == 0 && !s.error && s.errors == 0
      && 0 !in s.objects && StillWaits(s, 0) && RetrieveResults(s) == s
  {
    LostRunEnds();
    MergeNothing(map[]);
    hide IsRun, Final, Merge;
  }
}
