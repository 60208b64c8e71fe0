/** `processVideo`: upload a video, then poll the server for the job's phase
    and project each reported phase onto a (status, progress) update.

    The loop in the source never ends by itself except on the `completed`
    phase; it is modelled as a fold over a finite sequence of poll outcomes,
    so a run either exits (a `completed` reply was seen) or is still polling
    when the outcomes run out. Sleeps, `fetch` and the object URL are left to
    the caller: the server's replies and the URL are inputs. */
module ApiServices {
  import opened Types

  /** What one status request yields: the reply's `status` field, or a failed
      request (network error or non-OK HTTP status), which the inner `catch`
      swallows. */
  datatype PollOutcome = Reply(phase: string) | TransientFailure

  /** What the upload request yields. `UploadRejected` is a non-OK response
      (or a failed request); `UploadMalformed` an OK response whose body is
      not JSON or has no `file` record. */
  datatype UploadReply =
    | UploadRejected
    | UploadMalformed
    | UploadAccepted(fileId: string, uploadedAt: nat)

  /** The loop's local variables: `currentStatus` and `progressValue`. */
  datatype PollState = PollState(currentStatus: ProcessingStatus, progressValue: nat)

  const InitialPollState := PollState(Processing, 0)

  /** One iteration: the next state, the update it emits (if any), and whether
      `processingComplete` was set. */
  datatype PollStep = PollStep(next: PollState, emitted: Option<ProcessingProgress>, done: bool)

  /** A fold of the loop over a finite prefix of outcomes: the updates it
      emitted, whether it exited, how many outcomes it consumed, and its
      final state. */
  datatype PollRun = PollRun(emitted: seq<ProcessingProgress>, exited: bool, consumed: nat, final: PollState)

  const StartingUpload := ProcessingProgress(Uploading, 0, Some("Starting upload..."))
  const UploadComplete := ProcessingProgress(Uploading, 100, Some("Upload complete"))
  const ProcessingCheckpoint := ProcessingProgress(Processing, 10, Some("Processing video..."))
  const TranscribingCheckpoint := ProcessingProgress(Transcribing, 40, Some("Transcribing audio..."))
  const GeneratingCheckpoint := ProcessingProgress(Generating, 70, Some("Generating questions..."))
  const CompleteCheckpoint := ProcessingProgress(Complete, 100, Some("Processing complete!"))
  const FailureUpdate := ProcessingProgress(Error, 0, Some("Processing failed. Please try again."))
  const InProgressMessage := "Processing in progress..."

  /** The five phase names the `switch` recognises. */
  predicate KnownPhase(phase: string) {
    phase == "uploaded" || phase == "transcribing" || phase == "generating" || phase == "completed" || phase == "error"
  }

  predicate IsCompletion(o: PollOutcome) {
    o == Reply("completed")
  }

  /** Outcomes that emit nothing: a failed request, and a server `error`
      phase, whose `throw` is caught by the inner `catch` of the same
      iteration. */
  predicate IsSilent(o: PollOutcome) {
    o == TransientFailure || o == Reply("error")
  }

  /** The values `currentStatus` takes: it starts as `processing` and is only
      ever set to `transcribing` or `generating`. */
  predicate StageStatus(s: ProcessingStatus) {
    s == Processing || s == Transcribing || s == Generating
  }

  /** The statuses an iteration can emit. */
  predicate PollStatus(s: ProcessingStatus) {
    s == Processing || s == Transcribing || s == Generating || s == Complete
  }

  /** An update emitted by the `default` branch for an unrecognised phase. */
  predicate IsTick(p: ProcessingProgress) {
    p.message == Some(InProgressMessage)
  }

  /** One iteration of the polling loop, after its sleep. */
  function Step(st: PollState, o: PollOutcome): (r: PollStep)
    requires StageStatus(st.currentStatus)
    ensures r.emitted.None? <==> IsSilent(o)
    ensures r.done <==> IsCompletion(o)
    ensures StageStatus(r.next.currentStatus)
    ensures r.emitted.Some? ==> PollStatus(r.emitted.value.status)
    ensures r.emitted.Some? && r.emitted.value.status == Complete <==> IsCompletion(o)
    ensures r.emitted.Some? && IsTick(r.emitted.value) ==> 5 <= r.emitted.value.progress <= 95
    ensures r.next.progressValue >= Min(st.progressValue, 95)
    ensures r.emitted.Some? && IsTick(r.emitted.value) ==>
      r.emitted.value.progress == r.next.progressValue == Min(st.progressValue + 5, 95)
  {
    match o
    case TransientFailure => PollStep(st, None, false)
    case Reply(phase) =>
      if phase == "uploaded" then PollStep(st, Some(ProcessingCheckpoint), false)
      else if phase == "transcribing" then PollStep(st.(currentStatus := Transcribing), Some(TranscribingCheckpoint), false)
      else if phase == "generating" then PollStep(st.(currentStatus := Generating), Some(GeneratingCheckpoint), false)
      else if phase == "completed" then PollStep(st, Some(CompleteCheckpoint), true)
      else if phase == "error" then PollStep(st, None, false)
      else
        var value := Min(st.progressValue + 5, 95);
        PollStep(st.(progressValue := value), Some(ProcessingProgress(st.currentStatus, value, Some(InProgressMessage))), false)
  }

  function Emitted(step: PollStep): seq<ProcessingProgress> {
    if step.emitted.Some? then [step.emitted.value] else []
  }

  /** `while (!processingComplete) { … }` over a finite sequence of outcomes. */
  function Poll(st: PollState, outcomes: seq<PollOutcome>): (r: PollRun)
    requires StageStatus(st.currentStatus)
    ensures r.consumed <= |outcomes|
    ensures r.exited <==> exists i :: 0 <= i < |outcomes| && IsCompletion(outcomes[i])
    ensures r.exited ==> 0 < r.consumed && IsCompletion(outcomes[r.consumed - 1])
    ensures forall i :: 0 <= i < r.consumed - 1 ==> !IsCompletion(outcomes[i])
    ensures !r.exited ==> r.consumed == |outcomes|
    ensures forall k :: 0 <= k < |r.emitted| ==> PollStatus(r.emitted[k].status)
    ensures r.exited <==> |r.emitted| > 0 && r.emitted[|r.emitted| - 1] == CompleteCheckpoint
    ensures forall k :: 0 <= k < |r.emitted| - 1 ==> r.emitted[k].status != Complete
    decreases |outcomes|
  {
    if |outcomes| == 0 then PollRun([], false, 0, st)
    else
      var step := Step(st, outcomes[0]);
      if step.done then PollRun(Emitted(step), true, 1, step.next)
      else
        var rest := Poll(step.next, outcomes[1..]);
        assert forall i :: 1 <= i < |outcomes| ==> outcomes[i] == outcomes[1..][i - 1];
        PollRun(Emitted(step) + rest.emitted, rest.exited, rest.consumed + 1, rest.final)
  }

  /** How `processVideo` settles: it returned a handle, it threw, or (the
      outcomes having run out) it is still polling. */
  datatype Settlement = Returned(video: VideoFile) | Threw | StillPolling

  /** Every update passed to `onProgressUpdate`, in order, and the settlement. */
  datatype ProcessRun = ProcessRun(emitted: seq<ProcessingProgress>, settlement: Settlement)

  /** `processVideo(file, onProgressUpdate)`. */
  function ProcessVideo(file: LocalFile, upload: UploadReply, outcomes: seq<PollOutcome>, objectUrl: string): (r: ProcessRun)
    ensures |r.emitted| >= 2 && r.emitted[0] == StartingUpload
    ensures r.settlement.Threw? <==> !upload.UploadAccepted?
    ensures !upload.UploadAccepted? ==> r.emitted == [StartingUpload, FailureUpdate]
    ensures upload.UploadAccepted? ==> r.emitted[1] == UploadComplete
    ensures upload.UploadAccepted? ==> r.emitted[2..] == Poll(InitialPollState, outcomes).emitted
    ensures r.settlement.Returned? <==> upload.UploadAccepted? && exists i :: 0 <= i < |outcomes| && IsCompletion(outcomes[i])
    ensures r.settlement.Returned? ==>
      r.settlement.video == VideoFile(upload.fileId, file.name, file.size, file.mimeType, objectUrl, upload.uploadedAt)
    ensures (exists k :: 0 <= k < |r.emitted| && r.emitted[k].status == Error) <==> r.settlement.Threw?
    ensures r.settlement.Returned? <==> r.emitted[|r.emitted| - 1] == CompleteCheckpoint
  {
    match upload
    case UploadAccepted(fileId, uploadedAt) =>
      var run := Poll(InitialPollState, outcomes);
      var emitted := [StartingUpload, UploadComplete] + run.emitted;
      UploadThenPoll(emitted, run.emitted, run.exited);
      if run.exited then
        ProcessRun(emitted, Returned(VideoFile(fileId, file.name, file.size, file.mimeType, objectUrl, uploadedAt)))
      else ProcessRun(emitted, StillPolling)
    case _ =>
      var emitted := [StartingUpload, FailureUpdate];
      assert emitted[1].status == Error;
      ProcessRun(emitted, Threw)
  }

  /** The two upload updates followed by the poll emissions: no error among
      them, and the last is the completion checkpoint iff polling exited. */
  lemma UploadThenPoll(emitted: seq<ProcessingProgress>, polled: seq<ProcessingProgress>, exited: bool)
    requires emitted == [StartingUpload, UploadComplete] + polled
    requires forall k :: 0 <= k < |polled| ==> PollStatus(polled[k].status)
    requires exited <==> |polled| > 0 && polled[|polled| - 1] == CompleteCheckpoint
    ensures emitted[2..] == polled
    ensures forall k :: 0 <= k < |emitted| ==> emitted[k].status != Error
    ensures exited <==> emitted[|emitted| - 1] == CompleteCheckpoint
  {
    assert forall k :: 2 <= k < |emitted| ==> emitted[k] == polled[k - 2];
  }
}
