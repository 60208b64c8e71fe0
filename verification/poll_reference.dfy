/** A reference definition of the progress projector that does not use the
    loop's mutable state: the update for a reply is computed from the reply
    and the history of outcomes before it. The lemmas show that the loop of
    `processVideo` emits exactly the reference updates, and state the
    progress-counter properties. */
module PollReference {
  import opened Types
  import opened ApiServices

  /** The status an unrecognised phase is reported under after history `h`:
      that of the last `transcribing`/`generating` reply, else `processing`. */
  function StageAfter(h: seq<PollOutcome>): (s: ProcessingStatus)
    ensures StageStatus(s)
  {
    if |h| == 0 then Processing
    else if h[|h| - 1] == Reply("transcribing") then Transcribing
    else if h[|h| - 1] == Reply("generating") then Generating
    else StageAfter(h[..|h| - 1])
  }

  /** The number of replies in `h` with a phase the `switch` does not know. */
  function UnknownCount(h: seq<PollOutcome>): nat {
    if |h| == 0 then 0
    else UnknownCount(h[..|h| - 1]) + (if h[|h| - 1].Reply? && !KnownPhase(h[|h| - 1].phase) then 1 else 0)
  }

  /** The loop's state as a function of the history. */
  function StateAfter(h: seq<PollOutcome>): PollState {
    PollState(StageAfter(h), Min(5 * UnknownCount(h), 95))
  }

  /** The update the projector emits for outcome `o` after history `h`. */
  function Projection(h: seq<PollOutcome>, o: PollOutcome): Option<ProcessingProgress> {
    match o
    case TransientFailure => None
    case Reply(phase) =>
      if phase == "uploaded" then Some(ProcessingCheckpoint)
      else if phase == "transcribing" then Some(TranscribingCheckpoint)
      else if phase == "generating" then Some(GeneratingCheckpoint)
      else if phase == "completed" then Some(CompleteCheckpoint)
      else if phase == "error" then None
      else Some(ProcessingProgress(StageAfter(h), Min(5 * (UnknownCount(h) + 1), 95), Some(InProgressMessage)))
  }

  /** All updates for a history, in order. */
  function ReferenceEmissions(h: seq<PollOutcome>): seq<ProcessingProgress> {
    if |h| == 0 then []
    else
      var p := Projection(h[..|h| - 1], h[|h| - 1]);
      ReferenceEmissions(h[..|h| - 1]) + (if p.Some? then [p.value] else [])
  }

  lemma StateAfterEmpty()
    ensures StateAfter([]) == InitialPollState
  {
  }

  /** One iteration from the reference state agrees with the reference. */
  lemma StepAgrees(h: seq<PollOutcome>, o: PollOutcome)
    ensures Step(StateAfter(h), o).next == StateAfter(h + [o])
    ensures Step(StateAfter(h), o).emitted == Projection(h, o)
  {
    var h' := h + [o];
    assert h'[..|h'| - 1] == h;
    assert h'[|h'| - 1] == o;
    var k := UnknownCount(h);
    assert Min(Min(5 * k, 95) + 5, 95) == Min(5 * (k + 1), 95);
  }

  lemma ReferenceSnoc(h: seq<PollOutcome>, o: PollOutcome)
    ensures ReferenceEmissions(h + [o]) == ReferenceEmissions(h) + Emitted(Step(StateAfter(h), o))
  {
    var h' := h + [o];
    assert h'[..|h'| - 1] == h;
    StepAgrees(h, o);
  }

  /** Consuming one more outcome from the reference state extends the
      reference emissions by what the loop emits for it. */
  lemma {:induction false} PollFromHistory(h: seq<PollOutcome>, outcomes: seq<PollOutcome>)
    ensures ReferenceEmissions(h) + Poll(StateAfter(h), outcomes).emitted
      == ReferenceEmissions(h + outcomes[..Poll(StateAfter(h), outcomes).consumed])
    decreases |outcomes|
  {
    if |outcomes| == 0 {
      assert h + outcomes[..0] == h;
    } else {
      var step := Step(StateAfter(h), outcomes[0]);
      ReferenceSnoc(h, outcomes[0]);
      if step.done {
        PollDoneStep(h, outcomes);
      } else {
        PollFromHistory(h + [outcomes[0]], outcomes[1..]);
        PollOngoingStep(h, outcomes);
      }
    }
  }

  lemma PollDoneStep(h: seq<PollOutcome>, outcomes: seq<PollOutcome>)
    requires |outcomes| > 0 && Step(StateAfter(h), outcomes[0]).done
    requires ReferenceEmissions(h + [outcomes[0]]) == ReferenceEmissions(h) + Emitted(Step(StateAfter(h), outcomes[0]))
    ensures ReferenceEmissions(h) + Poll(StateAfter(h), outcomes).emitted
      == ReferenceEmissions(h + outcomes[..Poll(StateAfter(h), outcomes).consumed])
  {
    assert outcomes[..1] == [outcomes[0]];
  }

  lemma PollOngoingStep(h: seq<PollOutcome>, outcomes: seq<PollOutcome>)
    requires |outcomes| > 0 && !Step(StateAfter(h), outcomes[0]).done
    requires ReferenceEmissions(h + [outcomes[0]]) == ReferenceEmissions(h) + Emitted(Step(StateAfter(h), outcomes[0]))
    requires ReferenceEmissions(h + [outcomes[0]]) + Poll(StateAfter(h + [outcomes[0]]), outcomes[1..]).emitted
      == ReferenceEmissions(h + [outcomes[0]] + outcomes[1..][..Poll(StateAfter(h + [outcomes[0]]), outcomes[1..]).consumed])
    ensures ReferenceEmissions(h) + Poll(StateAfter(h), outcomes).emitted
      == ReferenceEmissions(h + outcomes[..Poll(StateAfter(h), outcomes).consumed])
  {
    var o := outcomes[0];
    StepAgrees(h, o);
    PollUnfold(StateAfter(h), outcomes);
    var rest := Poll(StateAfter(h + [o]), outcomes[1..]);
    ChainEmissions(h, outcomes, Poll(StateAfter(h), outcomes).emitted, Emitted(Step(StateAfter(h), o)), rest.emitted, rest.consumed);
  }

  lemma ChainEmissions(h: seq<PollOutcome>, outcomes: seq<PollOutcome>, all: seq<ProcessingProgress>,
                       first: seq<ProcessingProgress>, others: seq<ProcessingProgress>, c: nat)
    requires c < |outcomes|
    requires all == first + others
    requires ReferenceEmissions(h + [outcomes[0]]) == ReferenceEmissions(h) + first
    requires ReferenceEmissions(h + [outcomes[0]]) + others == ReferenceEmissions(h + [outcomes[0]] + outcomes[1..][..c])
    ensures ReferenceEmissions(h) + all == ReferenceEmissions(h + outcomes[..c + 1])
  {
    PrefixSplit(h, outcomes, c);
    assert ReferenceEmissions(h) + (first + others) == (ReferenceEmissions(h) + first) + others;
  }

  lemma PrefixSplit<T>(h: seq<T>, s: seq<T>, c: nat)
    requires c < |s|
    ensures h + s[..c + 1] == h + [s[0]] + s[1..][..c]
  {
    assert s[..c + 1] == [s[0]] + s[1..][..c];
    assert h + ([s[0]] + s[1..][..c]) == (h + [s[0]]) + s[1..][..c];
  }

  /** One unfolding of the loop on an iteration that does not exit. */
  lemma PollUnfold(st: PollState, outcomes: seq<PollOutcome>)
    requires StageStatus(st.currentStatus)
    requires |outcomes| > 0 && !Step(st, outcomes[0]).done
    ensures Poll(st, outcomes).emitted == Emitted(Step(st, outcomes[0])) + Poll(Step(st, outcomes[0]).next, outcomes[1..]).emitted
    ensures Poll(st, outcomes).consumed == Poll(Step(st, outcomes[0]).next, outcomes[1..]).consumed + 1
  {
  }

  /** The loop emits exactly the reference updates for the outcomes it consumed. */
  lemma PollMatchesReference(outcomes: seq<PollOutcome>)
    ensures Poll(InitialPollState, outcomes).emitted == ReferenceEmissions(outcomes[..Poll(InitialPollState, outcomes).consumed])
  {
    var run := Poll(InitialPollState, outcomes);
    StateAfterEmpty();
    PollFromHistory([], outcomes);
    assert [] + outcomes[..run.consumed] == outcomes[..run.consumed];
    assert ReferenceEmissions([]) + run.emitted == run.emitted;
  }

  // ------------------------------------------------------------ counter

  /** Every update for an unrecognised phase in `e` reports at least `floor`. */
  predicate TicksAtLeast(e: seq<ProcessingProgress>, floor: nat) {
    forall k :: 0 <= k < |e| && IsTick(e[k]) ==> floor <= e[k].progress
  }

  /** The updates for unrecognised phases in `e` have non-decreasing progress. */
  predicate TicksOrdered(e: seq<ProcessingProgress>) {
    forall i, j :: 0 <= i < j < |e| && IsTick(e[i]) && IsTick(e[j]) ==> e[i].progress <= e[j].progress
  }

  /** Every update for an unrecognised phase reports at least the counter's
      starting value (capped at 95). */
  lemma {:induction false} TicksAbove(st: PollState, outcomes: seq<PollOutcome>)
    requires StageStatus(st.currentStatus)
    ensures TicksAtLeast(Poll(st, outcomes).emitted, Min(st.progressValue, 95))
    decreases |outcomes|
  {
    if |outcomes| > 0 {
      var step := Step(st, outcomes[0]);
      if !step.done {
        var rest := Poll(step.next, outcomes[1..]);
        TicksAbove(step.next, outcomes[1..]);
        var e := Poll(st, outcomes).emitted;
        var head := Emitted(step);
        assert e == head + rest.emitted;
        forall k | 0 <= k < |e| && IsTick(e[k])
          ensures Min(st.progressValue, 95) <= e[k].progress
        {
          if k < |head| {
            assert e[k] == step.emitted.value;
          } else {
            assert e[k] == rest.emitted[k - |head|];
          }
        }
      }
    }
  }

  /** Across the updates for unrecognised phases, progress never decreases:
      the counter is only ever raised by 5 and capped at 95. */
  lemma {:induction false} TicksNonDecreasing(st: PollState, outcomes: seq<PollOutcome>)
    requires StageStatus(st.currentStatus)
    ensures TicksOrdered(Poll(st, outcomes).emitted)
    decreases |outcomes|
  {
    if |outcomes| > 0 {
      var step := Step(st, outcomes[0]);
      if !step.done {
        var rest := Poll(step.next, outcomes[1..]);
        TicksNonDecreasing(step.next, outcomes[1..]);
        TicksAbove(step.next, outcomes[1..]);
        var e := Poll(st, outcomes).emitted;
        var head := Emitted(step);
        assert e == head + rest.emitted;
        forall i, j | 0 <= i < j < |e| && IsTick(e[i]) && IsTick(e[j])
          ensures e[i].progress <= e[j].progress
        {
          assert e[j] == rest.emitted[j - |head|];
          if i >= |head| {
            assert e[i] == rest.emitted[i - |head|];
          } else {
            assert e[i] == step.emitted.value;
          }
        }
      }
    }
  }

  /** From the start of polling, every update for an unrecognised phase lies
      in [5, 95], and those updates never go down. */
  lemma TickBounds(outcomes: seq<PollOutcome>)
    ensures TicksOrdered(Poll(InitialPollState, outcomes).emitted)
    ensures forall k :: 0 <= k < |Poll(InitialPollState, outcomes).emitted| && IsTick(Poll(InitialPollState, outcomes).emitted[k]) ==>
      5 <= Poll(InitialPollState, outcomes).emitted[k].progress <= 95
  {
    TicksNonDecreasing(InitialPollState, outcomes);
    TicksInRange(InitialPollState, outcomes);
  }

  lemma {:induction false} TicksInRange(st: PollState, outcomes: seq<PollOutcome>)
    requires StageStatus(st.currentStatus)
    ensures forall k :: 0 <= k < |Poll(st, outcomes).emitted| && IsTick(Poll(st, outcomes).emitted[k]) ==>
      5 <= Poll(st, outcomes).emitted[k].progress <= 95
    decreases |outcomes|
  {
    if |outcomes| > 0 {
      var step := Step(st, outcomes[0]);
      if !step.done {
        var rest := Poll(step.next, outcomes[1..]);
        TicksInRange(step.next, outcomes[1..]);
        var e := Poll(st, outcomes).emitted;
        var head := Emitted(step);
        assert e == head + rest.emitted;
        forall k | 0 <= k < |e| && IsTick(e[k])
          ensures 5 <= e[k].progress <= 95
        {
          if k >= |head| {
            assert e[k] == rest.emitted[k - |head|];
          }
        }
      }
    }
  }

  // ------------------------------------------------------------ scenarios

  /** The phases uploaded, transcribing, generating, completed give the four
      checkpoints and a returned handle carrying the file's own name. */
  lemma HappyPath(file: LocalFile, fileId: string, uploadedAt: nat, url: string)
    ensures var run := ProcessVideo(file, UploadAccepted(fileId, uploadedAt),
        [Reply("uploaded"), Reply("transcribing"), Reply("generating"), Reply("completed")], url);
      && run.emitted == [StartingUpload, UploadComplete, ProcessingCheckpoint, TranscribingCheckpoint, GeneratingCheckpoint, CompleteCheckpoint]
      && run.settlement == Returned(VideoFile(fileId, file.name, file.size, file.mimeType, url, uploadedAt))
  {
    var outcomes := [Reply("uploaded"), Reply("transcribing"), Reply("generating"), Reply("completed")];
    assert outcomes[1..] == [Reply("transcribing"), Reply("generating"), Reply("completed")];
    assert outcomes[1..][1..] == [Reply("generating"), Reply("completed")];
    assert outcomes[1..][1..][1..] == [Reply("completed")];
    assert IsCompletion(outcomes[3]);
  }

  /** A server `error` phase neither emits an error update nor ends the loop:
      uploaded then error leaves the run still polling after one checkpoint. */
  lemma ErrorPhaseKeepsPolling(file: LocalFile, fileId: string, uploadedAt: nat, url: string)
    ensures var run := ProcessVideo(file, UploadAccepted(fileId, uploadedAt), [Reply("uploaded"), Reply("error")], url);
      && run.emitted == [StartingUpload, UploadComplete, ProcessingCheckpoint]
      && run.settlement == StillPolling
  {
    var outcomes := [Reply("uploaded"), Reply("error")];
    assert outcomes[1..] == [Reply("error")];
    assert !IsCompletion(outcomes[0]) && !IsCompletion(outcomes[1]);
  }

  /** Progress is not monotonic over a whole run: the counter for unknown
      phases is not lifted to the last checkpoint, so after `transcribing`
      (40) an unknown phase reports 5. */
  lemma ProgressCanDrop()
    ensures Poll(InitialPollState, [Reply("transcribing"), Reply("queued")]).emitted
      == [TranscribingCheckpoint, ProcessingProgress(Transcribing, 5, Some(InProgressMessage))]
  {
    var outcomes := [Reply("transcribing"), Reply("queued")];
    assert outcomes[1..] == [Reply("queued")];
    assert !KnownPhase("queued");
  }
}
