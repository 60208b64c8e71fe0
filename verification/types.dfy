/** The records shared by the whole front end: the seven processing statuses,
    a progress update, the uploaded-video handle, transcript segments and
    multiple-choice questions. Seconds and byte sizes are natural numbers. */
module Types {

  /** A value that may be absent (`undefined` or `null` on the JavaScript side). */
  datatype Option<+T> = None | Some(value: T)

  /** Either a value or the message of the error that was thrown. */
  datatype Result<+T> = Ok(value: T) | Err(message: string)

  /** The client-visible processing status. `Idle` and `Uploading` exist only
      on the client; the others mirror the server's job phases. */
  datatype ProcessingStatus =
    | Idle
    | Uploading
    | Processing
    | Transcribing
    | Generating
    | Complete
    | Error

  /** One progress update: a status, a percentage and an optional message. */
  datatype ProcessingProgress = ProcessingProgress(status: ProcessingStatus, progress: nat, message: Option<string>)

  /** A browser `File` as far as the client reads it. */
  datatype LocalFile = LocalFile(name: string, size: nat, mimeType: string)

  /** The handle of an accepted, uploaded video. `url` is the local object URL
      used for playback and `uploadedAt` a timestamp in milliseconds. */
  datatype VideoFile = VideoFile(id: string, name: string, size: nat, mimeType: string, url: string, uploadedAt: nat)

  /** A transcript segment covering `[startTime, endTime)` seconds of the video. */
  datatype TranscriptSegment = TranscriptSegment(id: string, videoId: string, startTime: nat, endTime: nat, text: string)

  /** A multiple-choice question; `correctAnswer` indexes `options`, or is -1
      when no option is marked correct. */
  datatype MCQuestion = MCQuestion(id: string, segmentId: string, question: string, options: seq<string>, correctAnswer: int)

  function Min(a: nat, b: nat): nat {
    if a <= b then a else b
  }
}
