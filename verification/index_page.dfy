/** The page that ties the pieces together: its state, and the handlers that
    move it (upload, loading the transcript and questions, playback, segment
    selection, exports, reset). Rendering is reduced to the predicates it
    branches on. */
module IndexPage {
  import opened Types
  import opened Text
  import opened ApiServices
  import opened ApiQueries
  import opened ApiExport

  /** `isAPIConnected`: `null` while the first health check runs, then its answer. */
  datatype Connection = Checking | Connected | Disconnected

  datatype ViewerState = ViewerState(
    connection: Connection,
    processingProgress: ProcessingProgress,
    videoFile: Option<VideoFile>,
    segments: seq<TranscriptSegment>,
    questionsMap: map<string, seq<MCQuestion>>,
    activeSegmentId: Option<string>,
    currentVideoTime: nat,
    isLoadingSegments: bool,
    isLoadingQuestions: map<string, bool>)

  const IdleProgress := ProcessingProgress(Idle, 0, None)

  /** The state the page mounts with. */
  const InitialState := ViewerState(Checking, IdleProgress, None, [], map[], None, 0, false, map[])

  /** Everything but the connection is as on mount. */
  predicate IsFresh(st: ViewerState) {
    st.(connection := Checking) == InitialState
  }

  /** The health check's answer (a failed check counts as disconnected). */
  function HealthChecked(st: ViewerState, healthy: bool): (r: ViewerState)
    ensures r.connection == (if healthy then Connected else Disconnected)
    ensures r.(connection := st.connection) == st
  {
    st.(connection := if healthy then Connected else Disconnected)
  }

  /** `handleReset`: back to the mount state; the connection is kept. */
  function HandleReset(st: ViewerState): (r: ViewerState)
    ensures IsFresh(r) && r.connection == st.connection
  {
    InitialState.(connection := st.connection)
  }

  lemma ResetIdempotent(st: ViewerState)
    ensures HandleReset(HandleReset(st)) == HandleReset(st)
    ensures IsFresh(st) ==> HandleReset(st) == st
  {
  }

  /** The uploader's `disabled` flag. */
  function UploaderDisabled(st: ViewerState): (disabled: bool)
    ensures st.connection != Connected ==> disabled
    ensures st.connection == Connected ==>
      (disabled <==> st.processingProgress.status in {Uploading, Processing, Transcribing, Generating, Complete})
  {
    st.connection != Connected || (st.processingProgress.status != Idle && st.processingProgress.status != Error)
  }

  /** The export buttons are disabled while the questions map has no key. */
  function ExportDisabled(st: ViewerState): (disabled: bool)
    ensures disabled <==> st.questionsMap == map[]
  {
    |st.questionsMap.Keys| == 0
  }

  // ---------------------------------------------------------------- loading

  /** How fetching one segment's questions ended. */
  datatype QuestionFetch = Fetched(questions: seq<MCQuestion>) | FetchFailed

  /** A failed fetch stores the empty list for its segment. */
  function Stored(f: QuestionFetch): seq<MCQuestion> {
    match f
    case Fetched(qs) => qs
    case FetchFailed => []
  }

  function SegmentIds(segs: seq<TranscriptSegment>): (r: set<string>)
    ensures forall i :: 0 <= i < |segs| ==> segs[i].id in r
    ensures forall id :: id in r ==> exists i :: 0 <= i < |segs| && segs[i].id == id
  {
    if |segs| == 0 then {} else {segs[0].id} + SegmentIds(segs[1..])
  }

  /** The questions gathered so far and the per-segment loading flags. */
  datatype QuestionLoad = QuestionLoad(data: map<string, seq<MCQuestion>>, loading: map<string, bool>)

  /** The `for … of fetchedSegments` loop, one segment after the other; each
      segment's flag is raised, its questions fetched, and the flag lowered. */
  function LoadQuestions(segs: seq<TranscriptSegment>, fetch: string -> QuestionFetch, acc: QuestionLoad): (r: QuestionLoad)
    ensures r.data.Keys == acc.data.Keys + SegmentIds(segs)
    ensures r.loading.Keys == acc.loading.Keys + SegmentIds(segs)
    ensures forall i :: 0 <= i < |segs| ==> r.data[segs[i].id] == Stored(fetch(segs[i].id))
    ensures forall i :: 0 <= i < |segs| ==> !r.loading[segs[i].id]
    ensures forall id :: id in acc.data && id !in SegmentIds(segs) ==> r.data[id] == acc.data[id]
    ensures forall id :: id in acc.loading && id !in SegmentIds(segs) ==> r.loading[id] == acc.loading[id]
  {
    if |segs| == 0 then acc
    else
      var id := segs[0].id;
      var next := QuestionLoad(acc.data[id := Stored(fetch(id))], acc.loading[id := false]);
      var r := LoadQuestions(segs[1..], fetch, next);
      assert forall i :: 1 <= i < |segs| ==> segs[i] == segs[1..][i - 1];
      r
  }

  /** `loadTranscriptAndQuestions(videoId)`. A failed transcript request leaves
      segments, questions and the active segment as they were. */
  function LoadTranscriptAndQuestions(st: ViewerState, videoId: string, b: Backend, fetch: string -> QuestionFetch): (r: ViewerState)
    ensures !r.isLoadingSegments
    ensures r.connection == st.connection && r.processingProgress == st.processingProgress
    ensures r.videoFile == st.videoFile && r.currentVideoTime == st.currentVideoTime
    ensures GetTranscriptSegments(videoId, b).Err? ==> r == st.(isLoadingSegments := false)
    ensures GetTranscriptSegments(videoId, b).Ok? ==>
      var segs := GetTranscriptSegments(videoId, b).value;
      && r.segments == segs
      && r.questionsMap.Keys == SegmentIds(segs)
      && (forall i :: 0 <= i < |segs| ==> r.questionsMap[segs[i].id] == Stored(fetch(segs[i].id)))
      && r.isLoadingQuestions.Keys == st.isLoadingQuestions.Keys + SegmentIds(segs)
      && (forall i :: 0 <= i < |segs| ==> !r.isLoadingQuestions[segs[i].id])
      && r.activeSegmentId == (if |segs| > 0 then Some(segs[0].id) else st.activeSegmentId)
  {
    match GetTranscriptSegments(videoId, b)
    case Err(_) => st.(isLoadingSegments := false)
    case Ok(segs) =>
      var active := if |segs| > 0 then Some(segs[0].id) else st.activeSegmentId;
      var load := LoadQuestions(segs, fetch, QuestionLoad(map[], st.isLoadingQuestions));
      st.(segments := segs, activeSegmentId := active, questionsMap := load.data,
          isLoadingQuestions := load.loading, isLoadingSegments := false)
  }

  /** The page's own fetcher: `getMCQuestions` answers every request (with the
      empty list on failure), so the page's catch branch never runs. */
  function BackendFetch(b: Backend): string -> QuestionFetch {
    id => Fetched(GetMCQuestions(id, b))
  }

  /** A segment whose fetch failed gets the empty list, and a failure leaves
      every other segment with what its own fetch returned. */
  lemma FailureIsolated(st: ViewerState, videoId: string, b: Backend, fetch: string -> QuestionFetch, i: nat, j: nat)
    requires GetTranscriptSegments(videoId, b).Ok?
    requires var segs := GetTranscriptSegments(videoId, b).value;
      i < |segs| && j < |segs| && fetch(segs[i].id) == FetchFailed && fetch(segs[j].id).Fetched?
    ensures var segs := GetTranscriptSegments(videoId, b).value;
      var r := LoadTranscriptAndQuestions(st, videoId, b, fetch);
      r.questionsMap[segs[i].id] == [] && r.questionsMap[segs[j].id] == fetch(segs[j].id).questions
  {
  }

  /** `handleFileSelect(file)`. Without a connection nothing happens. Each
      progress update of `processVideo` replaces the shown progress; when it
      throws, the handler shows its own error; when it returns, the video is
      shown and, if its id is non-empty, its transcript and questions load. */
  function HandleFileSelect(st: ViewerState, file: LocalFile, upload: UploadReply, outcomes: seq<PollOutcome>,
                            objectUrl: string, b: Backend): (r: ViewerState)
    ensures st.connection != Connected ==> r == st
    ensures r.connection == st.connection
    ensures st.connection == Connected ==>
      (ProcessVideo(file, upload, outcomes, objectUrl).settlement.Threw? <==> r.processingProgress == HandlerFailure)
    ensures st.connection == Connected && ProcessVideo(file, upload, outcomes, objectUrl).settlement.Returned? ==>
      r.videoFile == Some(ProcessVideo(file, upload, outcomes, objectUrl).settlement.video)
      && r.processingProgress == CompleteCheckpoint
    ensures st.connection == Connected ==>
      (ProcessVideo(file, upload, outcomes, objectUrl).settlement.Returned? <==> r.processingProgress == CompleteCheckpoint)
    ensures !ProcessVideo(file, upload, outcomes, objectUrl).settlement.Returned? ==>
      r.segments == st.segments && r.questionsMap == st.questionsMap && r.videoFile == st.videoFile
    ensures var settled := ProcessVideo(file, upload, outcomes, objectUrl).settlement;
      st.connection == Connected && settled.Returned? && settled.video.id == "" ==>
      r.segments == st.segments && r.questionsMap == st.questionsMap
    ensures var settled := ProcessVideo(file, upload, outcomes, objectUrl).settlement;
      st.connection == Connected && settled.Returned? && settled.video.id != "" ==>
      var listed := GetTranscriptSegments(settled.video.id, b);
      && (listed.Err? ==> r.segments == st.segments && r.questionsMap == st.questionsMap)
      && (listed.Ok? ==> r.segments == listed.value && r.questionsMap.Keys == SegmentIds(listed.value)
                         && forall i :: 0 <= i < |listed.value| ==>
                              r.questionsMap[listed.value[i].id] == GetMCQuestions(listed.value[i].id, b))
  {
    if st.connection != Connected then st
    else
      var run := ProcessVideo(file, upload, outcomes, objectUrl);
      var shown := st.(processingProgress := run.emitted[|run.emitted| - 1]);
      match run.settlement
      case Threw => shown.(processingProgress := HandlerFailure)
      case StillPolling => shown
      case Returned(video) =>
        var withVideo := shown.(videoFile := Some(video));
        if video.id != "" then LoadTranscriptAndQuestions(withVideo, video.id, b, BackendFetch(b)) else withVideo
  }

  const HandlerFailure := ProcessingProgress(Error, 0, Some("An error occurred while processing the video."))

  /** A failed upload leaves the uploader usable again. */
  lemma FailureReenablesUploader(st: ViewerState, file: LocalFile, upload: UploadReply, outcomes: seq<PollOutcome>,
                                 objectUrl: string, b: Backend)
    requires st.connection == Connected && !upload.UploadAccepted?
    ensures !UploaderDisabled(HandleFileSelect(st, file, upload, outcomes, objectUrl, b))
  {
  }

  /** While `processVideo` is still polling the uploader stays disabled. */
  lemma PollingDisablesUploader(st: ViewerState, file: LocalFile, upload: UploadReply, outcomes: seq<PollOutcome>,
                                objectUrl: string, b: Backend)
    requires st.connection == Connected
    requires ProcessVideo(file, upload, outcomes, objectUrl).settlement.StillPolling?
    ensures UploaderDisabled(HandleFileSelect(st, file, upload, outcomes, objectUrl, b))
  {
    var run := ProcessVideo(file, upload, outcomes, objectUrl);
    var last := run.emitted[|run.emitted| - 1];
    if |run.emitted| > 2 {
      assert last == run.emitted[2..][|run.emitted| - 3];
    }
  }

  // ---------------------------------------------------------------- playback

  /** `segments.find(seg => time >= seg.startTime && time < seg.endTime)`. */
  function FindSegmentAt(segs: seq<TranscriptSegment>, time: nat): (r: Option<nat>)
    ensures r.Some? ==> r.value < |segs| && segs[r.value].startTime <= time < segs[r.value].endTime
    ensures r.Some? ==> forall j :: 0 <= j < r.value ==> !(segs[j].startTime <= time < segs[j].endTime)
    ensures r.None? ==> forall j :: 0 <= j < |segs| ==> !(segs[j].startTime <= time < segs[j].endTime)
  {
    if |segs| == 0 then None
    else if segs[0].startTime <= time < segs[0].endTime then Some(0)
    else
      var k := FindSegmentAt(segs[1..], time);
      if k.None? then None
      else
        assert forall j :: 1 <= j < |segs| ==> segs[j] == segs[1..][j - 1];
        Some(k.value + 1)
  }

  /** `handleVideoTimeUpdate(time)`. */
  function HandleVideoTimeUpdate(st: ViewerState, time: nat): (r: ViewerState)
    ensures r.currentVideoTime == time
    ensures r.(currentVideoTime := st.currentVideoTime, activeSegmentId := st.activeSegmentId) == st
    ensures r.activeSegmentId != st.activeSegmentId ==>
      exists i :: 0 <= i < |st.segments| && r.activeSegmentId == Some(st.segments[i].id)
              && st.segments[i].startTime <= time < st.segments[i].endTime
              && forall j :: 0 <= j < i ==> !(st.segments[j].startTime <= time < st.segments[j].endTime)
    ensures FindSegmentAt(st.segments, time).None? ==> r.activeSegmentId == st.activeSegmentId
    ensures FindSegmentAt(st.segments, time).Some? ==>
      r.activeSegmentId == Some(st.segments[FindSegmentAt(st.segments, time).value].id)
  {
    var found := FindSegmentAt(st.segments, time);
    var next := st.(currentVideoTime := time);
    if found.Some? && Some(st.segments[found.value].id) != st.activeSegmentId
    then next.(activeSegmentId := Some(st.segments[found.value].id))
    else next
  }

  /** `handleSegmentSelect(segment)`. */
  function HandleSegmentSelect(st: ViewerState, segment: TranscriptSegment): (r: ViewerState)
    ensures r.activeSegmentId == Some(segment.id) && r.currentVideoTime == segment.startTime
    ensures r.(activeSegmentId := st.activeSegmentId, currentVideoTime := st.currentVideoTime) == st
  {
    st.(activeSegmentId := Some(segment.id), currentVideoTime := segment.startTime)
  }

  /** After selecting a listed segment that is the first to cover its own
      start, the player's report of that start time keeps it active. */
  lemma SelectThenPlay(st: ViewerState, i: nat)
    requires i < |st.segments| && st.segments[i].startTime < st.segments[i].endTime
    requires forall j :: 0 <= j < i ==> !(st.segments[j].startTime <= st.segments[i].startTime < st.segments[j].endTime)
    ensures var selected := HandleSegmentSelect(st, st.segments[i]);
      HandleVideoTimeUpdate(selected, st.segments[i].startTime) == selected
  {
    var selected := HandleSegmentSelect(st, st.segments[i]);
    var found := FindSegmentAt(st.segments, st.segments[i].startTime);
    assert found.Some?;
    assert found.value == i;
  }

  // ---------------------------------------------------------------- exports

  /** `Math.floor(start / 60)-Math.floor(end / 60)`. */
  function MinuteRange(segment: TranscriptSegment): (r: string)
    ensures var k := |NatToString(segment.startTime / 60)|;
      && k + 1 < |r| && r[k] == '-'
      && AllDigits(r[..k]) && DigitsValue(r[..k]) == segment.startTime / 60
      && AllDigits(r[k + 1..]) && DigitsValue(r[k + 1..]) == segment.endTime / 60
      && (r[0] == '0' ==> segment.startTime / 60 == 0)
      && (r[k + 1] == '0' ==> segment.endTime / 60 == 0)
  {
    var a := NatToString(segment.startTime / 60);
    var b := NatToString(segment.endTime / 60);
    var r := a + "-" + b;
    assert r[..|a|] == a;
    assert r[|a| + 1..] == b;
    r
  }

  /** The record `handleExportQuestions` serializes (its timestamp left out),
      with the download name it offers. */
  datatype SegmentExport = SegmentExport(
    videoId: string, segmentId: string, timeRange: string, questions: seq<ExportItem>, fileName: string)

  function FindSegmentById(segs: seq<TranscriptSegment>, id: string): (r: Option<nat>)
    ensures r.Some? ==> r.value < |segs| && segs[r.value].id == id
    ensures r.Some? ==> forall j :: 0 <= j < r.value ==> segs[j].id != id
    ensures r.None? ==> forall j :: 0 <= j < |segs| ==> segs[j].id != id
  {
    if |segs| == 0 then None
    else if segs[0].id == id then Some(0)
    else
      var k := FindSegmentById(segs[1..], id);
      if k.None? then None
      else
        assert forall j :: 1 <= j < |segs| ==> segs[j] == segs[1..][j - 1];
        Some(k.value + 1)
  }

  /** `handleExportQuestions(segmentId)`: nothing without a video or without
      questions for the segment; otherwise the segment's questions as export
      items, labelled with the segment's minute range ("Unknown" when the id
      is not among the segments, where the file name falls back to 0-0). */
  function HandleExportQuestions(st: ViewerState, segmentId: string): (r: Option<SegmentExport>)
    ensures r.Some? <==> st.videoFile.Some? && segmentId in st.questionsMap && |st.questionsMap[segmentId]| > 0
    ensures r.Some? ==> r.value.videoId == st.videoFile.value.id && r.value.segmentId == segmentId
    ensures r.Some? ==> r.value.questions == ExportJson(st.videoFile.value.id, st.questionsMap[segmentId]).questions
    ensures r.Some? && FindSegmentById(st.segments, segmentId).None? ==>
      r.value.timeRange == "Unknown" && r.value.fileName == "questions_segment_0-0.json"
    ensures r.Some? && FindSegmentById(st.segments, segmentId).Some? ==>
      var range := MinuteRange(st.segments[FindSegmentById(st.segments, segmentId).value]);
      r.value.timeRange == range + " minutes" && r.value.fileName == "questions_segment_" + range + ".json"
  {
    if st.videoFile.None? then None
    else
      var questions := if segmentId in st.questionsMap then st.questionsMap[segmentId] else [];
      if |questions| == 0 then None
      else
        var found := FindSegmentById(st.segments, segmentId);
        var range := if found.Some? then MinuteRange(st.segments[found.value]) else "0-0";
        var timeRange := if found.Some? then range + " minutes" else "Unknown";
        Some(SegmentExport(st.videoFile.value.id, segmentId, timeRange, ToExportItems(questions),
                           "questions_segment_" + range + ".json"))
  }

  /** A file offered for download. */
  datatype Download = Download(document: ExportDocument, fileName: string, mimeType: string)

  /** `handleExportAllQuestions(format)`. */
  function HandleExportAllQuestions(st: ViewerState, format: ExportFormat, b: Backend): (r: Option<Download>)
    ensures r.Some? <==> st.videoFile.Some?
    ensures r.Some? ==> r.value.document == ExportMCQs(st.videoFile.value.id, format, b)
    ensures r.Some? ==> (r.value.document.JsonDocument? <==> r.value.mimeType == "application/json")
    ensures r.Some? ==> (r.value.document.JsonDocument? <==> r.value.fileName == "all_questions.json")
  {
    if st.videoFile.None? then None
    else
      var doc := ExportMCQs(st.videoFile.value.id, format, b);
      match format
      case JsonFormat => Some(Download(doc, "all_questions.json", "application/json"))
      case CsvFormat => Some(Download(doc, "all_questions.csv", "text/csv"))
  }

  // ---------------------------------------------------------------- question total

  /** The lengths of the lists stored under `keys`, summed; the keys are taken
      in no particular order. */
  ghost function SumOver(keys: set<string>, m: map<string, seq<MCQuestion>>): nat
    requires keys <= m.Keys
  {
    if keys == {} then 0
    else
      var k :| k in keys;
      |m[k]| + SumOver(keys - {k}, m)
  }

  /** The displayed total: `Object.values(questionsMap)` lengths summed. */
  ghost function MapTotal(m: map<string, seq<MCQuestion>>): nat {
    SumOver(m.Keys, m)
  }

  /** The sum depends only on the lists stored under `keys`. */
  lemma {:induction false} SumOverAgree(keys: set<string>, m1: map<string, seq<MCQuestion>>, m2: map<string, seq<MCQuestion>>)
    requires keys <= m1.Keys && keys <= m2.Keys
    requires forall k :: k in keys ==> m1[k] == m2[k]
    ensures SumOver(keys, m1) == SumOver(keys, m2)
    decreases keys
  {
    if keys != {} {
      var k :| k in keys;
      SumOverRemove(keys, m1, k);
      SumOverRemove(keys, m2, k);
      SumOverAgree(keys - {k}, m1, m2);
    }
  }

  /** The displayed total does not depend on the order `Object.values` lists
      the entries: an empty map totals 0, and any one entry can be counted
      first, the rest summing to the total of the map without it. */
  lemma MapTotalAnyOrder(m: map<string, seq<MCQuestion>>, k: string)
    ensures m == map[] ==> MapTotal(m) == 0
    ensures k in m ==> MapTotal(m) == |m[k]| + MapTotal(m - {k})
  {
    if k in m {
      SumOverRemove(m.Keys, m, k);
      assert (m - {k}).Keys == m.Keys - {k};
      SumOverAgree(m.Keys - {k}, m, m - {k});
    }
  }

  /** Taking any one key out first gives the same sum. */
  lemma {:induction false} SumOverRemove(keys: set<string>, m: map<string, seq<MCQuestion>>, k: string)
    requires keys <= m.Keys && k in keys
    ensures SumOver(keys, m) == |m[k]| + SumOver(keys - {k}, m)
    decreases keys
  {
    var j :| j in keys && SumOver(keys, m) == |m[j]| + SumOver(keys - {j}, m);
    if j != k {
      SumOverRemove(keys - {j}, m, k);
      SumOverRemove(keys - {k}, m, j);
      assert keys - {j} - {k} == keys - {k} - {j};
    }
  }

  /** The lengths of the lists of `segs`, in order, from the map. */
  function ListedTotal(segs: seq<TranscriptSegment>, m: map<string, seq<MCQuestion>>): nat
    requires forall i :: 0 <= i < |segs| ==> segs[i].id in m
  {
    if |segs| == 0 then 0 else |m[segs[0].id]| + ListedTotal(segs[1..], m)
  }

  predicate DistinctIds(segs: seq<TranscriptSegment>) {
    forall i, j :: 0 <= i < j < |segs| ==> segs[i].id != segs[j].id
  }

  /** Summing over the segments' ids as a set equals summing along the
      segments, when no two segments share an id. */
  lemma {:induction false} TotalOverSegments(segs: seq<TranscriptSegment>, m: map<string, seq<MCQuestion>>)
    requires DistinctIds(segs) && SegmentIds(segs) <= m.Keys
    ensures SumOver(SegmentIds(segs), m) == ListedTotal(segs, m)
  {
    if |segs| > 0 {
      var k := segs[0].id;
      SumOverRemove(SegmentIds(segs), m, k);
      assert SegmentIds(segs) - {k} == SegmentIds(segs[1..]) by {
        assert SegmentIds(segs) == {k} + SegmentIds(segs[1..]);
        assert k !in SegmentIds(segs[1..]);
      }
      TotalOverSegments(segs[1..], m);
    }
  }

  /** The number of questions the loaded segments received. */
  function FetchedTotal(segs: seq<TranscriptSegment>, fetch: string -> QuestionFetch): nat {
    if |segs| == 0 then 0 else |Stored(fetch(segs[0].id))| + FetchedTotal(segs[1..], fetch)
  }

  lemma {:induction false} ListedIsFetched(segs: seq<TranscriptSegment>, m: map<string, seq<MCQuestion>>, fetch: string -> QuestionFetch)
    requires forall i :: 0 <= i < |segs| ==> segs[i].id in m && m[segs[i].id] == Stored(fetch(segs[i].id))
    ensures ListedTotal(segs, m) == FetchedTotal(segs, fetch)
  {
    if |segs| > 0 {
      ListedIsFetched(segs[1..], m, fetch);
    }
  }

  /** No segment index occurs twice in a transcript reply. */
  predicate DistinctIndices(raws: seq<RawSegment>) {
    forall i, j :: 0 <= i < j < |raws| ==> raws[i].segmentIndex != raws[j].segmentIndex
  }

  /** The segments listed for one video have distinct ids exactly when the
      backend's segment indices are distinct: each id is the video id, the
      separator and the numeral of its index. */
  lemma ListedIdsDistinct(videoId: string, b: Backend)
    requires GetTranscriptSegments(videoId, b).Ok? && b.transcriptions[videoId].segments.Some?
    ensures var raws := b.transcriptions[videoId].segments.value;
      DistinctIds(GetTranscriptSegments(videoId, b).value) <==> DistinctIndices(raws)
  {
    var raws := b.transcriptions[videoId].segments.value;
    var segs := GetTranscriptSegments(videoId, b).value;
    forall i, j | 0 <= i < j < |raws| && segs[i].id == segs[j].id
      ensures raws[i].segmentIndex == raws[j].segmentIndex
    {
      SameVideoIndex(videoId, raws[i].segmentIndex, raws[j].segmentIndex);
    }
  }

  /** Within one video, the segment id determines the index. */
  lemma SameVideoIndex(videoId: string, n1: nat, n2: nat)
    requires SegmentId(videoId, n1) == SegmentId(videoId, n2)
    ensures n1 == n2
  {
    var k := |videoId| + |SegmentSeparator|;
    assert SegmentId(videoId, n1)[k..] == SegmentId(videoId, n2)[k..];
  }

  /** The displayed total counts every fetched question when the backend lists
      each segment index once (or lists no segments). */
  lemma LoadedTotalDistinctIndices(st: ViewerState, videoId: string, b: Backend, fetch: string -> QuestionFetch)
    requires GetTranscriptSegments(videoId, b).Ok?
    requires b.transcriptions[videoId].segments.Some? ==> DistinctIndices(b.transcriptions[videoId].segments.value)
    ensures MapTotal(LoadTranscriptAndQuestions(st, videoId, b, fetch).questionsMap)
         == FetchedTotal(GetTranscriptSegments(videoId, b).value, fetch)
  {
    if b.transcriptions[videoId].segments.Some? {
      ListedIdsDistinct(videoId, b);
    }
    LoadedTotal(st, videoId, b, fetch);
  }

  /** After a successful load of segments with distinct ids, the displayed
      total is the number of questions fetched for them. */
  lemma LoadedTotal(st: ViewerState, videoId: string, b: Backend, fetch: string -> QuestionFetch)
    requires GetTranscriptSegments(videoId, b).Ok? && DistinctIds(GetTranscriptSegments(videoId, b).value)
    ensures MapTotal(LoadTranscriptAndQuestions(st, videoId, b, fetch).questionsMap)
         == FetchedTotal(GetTranscriptSegments(videoId, b).value, fetch)
  {
    var segs := GetTranscriptSegments(videoId, b).value;
    var m := LoadTranscriptAndQuestions(st, videoId, b, fetch).questionsMap;
    TotalOverSegments(segs, m);
    ListedIsFetched(segs, m, fetch);
  }
}
