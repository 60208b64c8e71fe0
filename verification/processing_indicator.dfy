/** The progress card: headline icon, description and percentage. */
module ProcessingIndicator {
  import opened Types
  import opened Text

  /** `getStatusMessage(status)`. */
  function StatusMessage(status: ProcessingStatus): (r: string)
    ensures r != ""
    ensures MessageStatus(r) == Some(status)
  {
    match status
    case Idle => "Waiting to start..."
    case Uploading => "Uploading video..."
    case Processing => "Processing video..."
    case Transcribing => "Transcribing audio..."
    case Generating => "Generating questions..."
    case Complete => "Process completed!"
    case Error => "Error occurred"
  }

  /** Reads a status message back to its status. */
  function MessageStatus(message: string): Option<ProcessingStatus> {
    if message == "Waiting to start..." then Some(Idle)
    else if message == "Uploading video..." then Some(Uploading)
    else if message == "Processing video..." then Some(Processing)
    else if message == "Transcribing audio..." then Some(Transcribing)
    else if message == "Generating questions..." then Some(Generating)
    else if message == "Process completed!" then Some(Complete)
    else if message == "Error occurred" then Some(Error)
    else None
  }

  /** The message of a status names that status and no other, so the seven
      messages are distinct. */
  lemma StatusMessageNamesStatus(status: ProcessingStatus)
    ensures MessageStatus(StatusMessage(status)) == Some(status)
  {
  }

  lemma StatusMessagesDistinct(a: ProcessingStatus, b: ProcessingStatus)
    ensures StatusMessage(a) == StatusMessage(b) <==> a == b
  {
    StatusMessageNamesStatus(a);
    StatusMessageNamesStatus(b);
  }

  /** `progress.message || getStatusMessage(progress.status)`: an absent or
      empty message falls back to the status message. */
  function Description(p: ProcessingProgress): (r: string)
    ensures r != ""
    ensures p.message.Some? && p.message.value != "" ==> r == p.message.value
    ensures p.message.None? || p.message.value == "" ==> MessageStatus(r) == Some(p.status)
  {
    StatusMessageNamesStatus(p.status);
    if p.message.Some? && p.message.value != "" then p.message.value else StatusMessage(p.status)
  }

  datatype Icon = Spinner | Check | Cross

  /** The icons the card title renders, in order: three independent
      conditions on the status. */
  function Icons(status: ProcessingStatus): (r: seq<Icon>)
    ensures |r| == 1
    ensures r[0] == Spinner <==> status != Complete && status != Error
    ensures r[0] == Check <==> status == Complete
    ensures r[0] == Cross <==> status == Error
  {
    (if status != Complete && status != Error then [Spinner] else [])
      + (if status == Complete then [Check] else [])
      + (if status == Error then [Cross] else [])
  }

  /** `{progress.progress}%`. */
  function PercentLabel(p: ProcessingProgress): (r: string)
    ensures |r| >= 2 && r[|r| - 1] == '%'
    ensures AllDigits(r[..|r| - 1]) && DigitsValue(r[..|r| - 1]) == p.progress
    ensures r[0] == '0' ==> p.progress == 0
  {
    var digits := NatToString(p.progress);
    assert (digits + "%")[..|digits|] == digits;
    digits + "%"
  }
}
