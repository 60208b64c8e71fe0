/** The read side of the backend client: transcript segments of a video, the
    questions of one segment, and every question of a video. The backend is a
    value: each map answers one family of GET requests, and a missing key is a
    request that failed (a network error or a non-2xx status). */
module ApiQueries {
  import opened Types
  import opened Text

  /** One segment as the transcription endpoint lists it. */
  datatype RawSegment = RawSegment(segmentIndex: nat, startTime: nat, endTime: nat, text: string)

  /** The transcription document of a video: its own id and its segments, each
      possibly absent from the reply. */
  datatype Transcription = Transcription(id: Option<string>, segments: Option<seq<RawSegment>>)

  datatype RawOption = RawOption(text: string, isCorrect: bool)

  datatype RawQuestion = RawQuestion(id: string, segmentIndex: nat, question: string, options: seq<RawOption>)

  /** A question endpoint replies with a list, or with something that is not one. */
  datatype QuestionsReply = NotAList | QuestionList(items: seq<RawQuestion>)

  datatype Backend = Backend(
    /** `GET /api/transcription/file/{videoId}` */
    transcriptions: map<string, Transcription>,
    /** `GET /api/questions/transcription/{transcriptionId}/segment/{segmentIndex}` */
    segmentQuestions: map<(string, ParsedInt), QuestionsReply>,
    /** `GET /api/questions/transcription/{transcriptionId}` */
    allQuestions: map<string, QuestionsReply>)

  // ---------------------------------------------------------------- segment ids

  const SegmentSeparator: string := "_segment_"

  /** The id the client gives the segment with index `index` of video `videoId`. */
  function SegmentId(videoId: string, index: nat): (r: string)
    ensures videoId <= r
    ensures OccursAt(r, SegmentSeparator, |videoId|)
    ensures var digits := r[|videoId| + |SegmentSeparator|..];
      |digits| > 0 && AllDigits(digits) && DigitsValue(digits) == index && (digits[0] == '0' ==> index == 0)
  {
    var r := videoId + SegmentSeparator + NatToString(index);
    assert r[|videoId|..|videoId| + |SegmentSeparator|] == SegmentSeparator;
    assert r[|videoId| + |SegmentSeparator|..] == NatToString(index);
    r
  }

  /** What `getMCQuestions` reads back out of a segment id. */
  datatype SegmentRef = SegmentRef(videoId: string, index: ParsedInt)

  const InvalidSegmentId: string := "Invalid segment ID format"

  /** Splits at every separator; exactly two parts are accepted, and the
      second is read with `parseInt(_, 10)`. */
  function ParseSegmentId(segmentId: string): (r: Result<SegmentRef>)
    ensures r.Err? ==> r.message == InvalidSegmentId
    ensures r.Ok? <==> OneCut(segmentId, SegmentSeparator)
    ensures r.Ok? ==> IndexOfFrom(segmentId, SegmentSeparator, 0) == Some(|r.value.videoId|)
    ensures r.Ok? ==> |r.value.videoId| + |SegmentSeparator| <= |segmentId|
    ensures r.Ok? ==> segmentId[..|r.value.videoId|] == r.value.videoId
    ensures r.Ok? ==> OccursAt(segmentId, SegmentSeparator, |r.value.videoId|)
    ensures r.Ok? ==> !Contains(r.value.videoId, SegmentSeparator)
    ensures r.Ok? ==> r.value.index == ParseInt(segmentId[|r.value.videoId| + |SegmentSeparator|..])
  {
    var parts := Split(segmentId, SegmentSeparator);
    SplitInTwo(segmentId, SegmentSeparator);
    if |parts| != 2 then Err(InvalidSegmentId)
    else
      assert Join(parts, SegmentSeparator) == parts[0] + SegmentSeparator + parts[1];
      assert segmentId[..|parts[0]|] == parts[0];
      assert segmentId[|parts[0]|..|parts[0]| + |SegmentSeparator|] == SegmentSeparator;
      assert segmentId[|parts[0]| + |SegmentSeparator|..] == parts[1];
      Ok(SegmentRef(parts[0], ParseInt(parts[1])))
  }

  /** An id with a second separator has three parts and is rejected. */
  lemma TwoSeparatorsRejected()
    ensures ParseSegmentId("v_segment_1_segment_2").Err?
  {
    var s := "v_segment_1_segment_2";
    assert s[0..9][0] != SegmentSeparator[0];
    assert OccursAt(s, SegmentSeparator, 1);
    assert IndexOfFrom(s, SegmentSeparator, 0) == Some(1);
    assert OccursAt(s, SegmentSeparator, 11);
  }

  /** No occurrence of the separator starts inside the video id once the
      separator is appended to it: the first separator of `SegmentId(videoId, n)`
      is then the one the client put there. */
  predicate Unambiguous(videoId: string) {
    forall i :: 0 <= i < |videoId| ==> !OccursAt(videoId + SegmentSeparator, SegmentSeparator, i)
  }

  /** A decimal numeral never contains the separator, which starts with '_'. */
  lemma DigitsHaveNoSeparator(d: string)
    requires AllDigits(d)
    ensures Split(d, SegmentSeparator) == [d]
  {
    forall i | 0 <= i
      ensures !OccursAt(d, SegmentSeparator, i)
    {
      if i + |SegmentSeparator| <= |d| {
        assert d[i..i + |SegmentSeparator|][0] == d[i] != SegmentSeparator[0];
      }
    }
  }

  lemma SeparatorAt(v: string, d: string)
    requires Unambiguous(v)
    ensures IndexOfFrom(v + SegmentSeparator + d, SegmentSeparator, 0) == Some(|v|)
  {
    var s := v + SegmentSeparator + d;
    assert s[|v|..|v| + |SegmentSeparator|] == SegmentSeparator;
    assert OccursAt(s, SegmentSeparator, |v|);
    forall i | 0 <= i < |v|
      ensures !OccursAt(s, SegmentSeparator, i)
    {
      assert !OccursAt(v + SegmentSeparator, SegmentSeparator, i);
      assert s[i..i + |SegmentSeparator|] == (v + SegmentSeparator)[i..i + |SegmentSeparator|];
    }
    var r := IndexOfFrom(s, SegmentSeparator, 0);
    assert r.Some? && r.value <= |v|;
  }

  lemma EarlySeparator(v: string, d: string, i: nat)
    requires i < |v| && OccursAt(v + SegmentSeparator, SegmentSeparator, i)
    ensures Split(v + SegmentSeparator + d, SegmentSeparator)[0] != v
  {
    var s := v + SegmentSeparator + d;
    assert s[i..i + |SegmentSeparator|] == (v + SegmentSeparator)[i..i + |SegmentSeparator|];
    assert OccursAt(s, SegmentSeparator, i);
    var j := IndexOfFrom(s, SegmentSeparator, 0);
    assert j.Some? && j.value <= i;
    assert |Split(s, SegmentSeparator)[0]| == j.value;
  }

  /** A segment id reads back as the video id and index it was built from
      exactly when the video id is unambiguous. */
  lemma SegmentIdRoundTrip(videoId: string, index: nat)
    ensures ParseSegmentId(SegmentId(videoId, index)) == Ok(SegmentRef(videoId, Num(index)))
        <==> Unambiguous(videoId)
  {
    var d := NatToString(index);
    var s := videoId + SegmentSeparator + d;
    if Unambiguous(videoId) {
      SeparatorAt(videoId, d);
      assert s[..|videoId|] == videoId;
      assert s[|videoId| + |SegmentSeparator|..] == d;
      DigitsHaveNoSeparator(d);
      assert Split(s, SegmentSeparator) == [videoId, d];
      ParseIntOfNat(index, "");
      assert d + "" == d;
    } else {
      var i :| 0 <= i < |videoId| && OccursAt(videoId + SegmentSeparator, SegmentSeparator, i);
      EarlySeparator(videoId, d, i);
    }
  }

  /** Video ids without an underscore (the server's hexadecimal ids among
      them) are unambiguous. */
  lemma NoUnderscoreUnambiguous(videoId: string)
    requires forall i :: 0 <= i < |videoId| ==> videoId[i] != '_'
    ensures Unambiguous(videoId)
  {
    forall i | 0 <= i < |videoId|
      ensures !OccursAt(videoId + SegmentSeparator, SegmentSeparator, i)
    {
      if i + |SegmentSeparator| <= |videoId + SegmentSeparator| {
        assert (videoId + SegmentSeparator)[i..i + |SegmentSeparator|][0] == videoId[i] != SegmentSeparator[0];
      }
    }
  }

  /** A video id ending in "_segment" is not: its segment ids split one
      separator too early. */
  lemma AmbiguousVideoId()
    ensures !Unambiguous("a_segment")
    ensures ParseSegmentId(SegmentId("a_segment", 0)) != Ok(SegmentRef("a_segment", Num(0)))
  {
    var v := "a_segment";
    assert (v + SegmentSeparator)[1..1 + |SegmentSeparator|] == SegmentSeparator;
    assert OccursAt(v + SegmentSeparator, SegmentSeparator, 1);
    SegmentIdRoundTrip(v, 0);
  }

  /** Distinct (video, index) pairs with unambiguous video ids get distinct
      segment ids. */
  lemma SegmentIdInjective(v1: string, n1: nat, v2: string, n2: nat)
    requires Unambiguous(v1) && Unambiguous(v2)
    requires SegmentId(v1, n1) == SegmentId(v2, n2)
    ensures v1 == v2 && n1 == n2
  {
    SegmentIdRoundTrip(v1, n1);
    SegmentIdRoundTrip(v2, n2);
  }

  // ---------------------------------------------------------------- questions

  /** `options.findIndex(opt => opt.isCorrect)`. */
  function FirstCorrect(options: seq<RawOption>): (r: int)
    ensures -1 <= r < |options|
    ensures r == -1 <==> forall j :: 0 <= j < |options| ==> !options[j].isCorrect
    ensures r >= 0 ==> options[r].isCorrect && forall j :: 0 <= j < r ==> !options[j].isCorrect
  {
    if |options| == 0 then -1
    else if options[0].isCorrect then 0
    else
      var k := FirstCorrect(options[1..]);
      if k == -1 then -1 else k + 1
  }

  function OptionTexts(options: seq<RawOption>): (r: seq<string>)
    ensures |r| == |options| && forall i :: 0 <= i < |options| ==> r[i] == options[i].text
  {
    if |options| == 0 then [] else [options[0].text] + OptionTexts(options[1..])
  }

  /** A server question filed under `segmentId`. */
  function ToQuestion(segmentId: string, q: RawQuestion): MCQuestion {
    MCQuestion(q.id, segmentId, q.question, OptionTexts(q.options), FirstCorrect(q.options))
  }

  /** `q` was made from `raw` and filed under `segmentId`. */
  predicate Converted(q: MCQuestion, raw: RawQuestion, segmentId: string) {
    && q.id == raw.id && q.segmentId == segmentId && q.question == raw.question
    && |q.options| == |raw.options|
    && (forall k :: 0 <= k < |raw.options| ==> q.options[k] == raw.options[k].text)
    && q.correctAnswer == FirstCorrect(raw.options)
  }

  function ToQuestions(segmentId: string, items: seq<RawQuestion>): (r: seq<MCQuestion>)
    ensures |r| == |items| && forall i :: 0 <= i < |items| ==> Converted(r[i], items[i], segmentId)
  {
    if |items| == 0 then [] else [ToQuestion(segmentId, items[0])] + ToQuestions(segmentId, items[1..])
  }

  /** The transcription id of a video, when the transcription request succeeds
      and the id is present and non-empty (`!transcriptionId` rejects both). */
  function TranscriptionId(b: Backend, videoId: string): (r: Option<string>)
    ensures r.Some? <==> videoId in b.transcriptions && b.transcriptions[videoId].id.Some?
                         && b.transcriptions[videoId].id.value != ""
    ensures r.Some? ==> r.value == b.transcriptions[videoId].id.value
  {
    if videoId !in b.transcriptions then None
    else match b.transcriptions[videoId].id
      case None => None
      case Some(t) => if t == "" then None else Some(t)
  }

  /** The list the backend holds for one segment of one transcription, if the
      request succeeds and answers with a list. */
  function SegmentList(b: Backend, transcriptionId: string, index: ParsedInt): Option<seq<RawQuestion>> {
    var key := (transcriptionId, index);
    if key in b.segmentQuestions && b.segmentQuestions[key].QuestionList?
    then Some(b.segmentQuestions[key].items) else None
  }

  /** `getMCQuestions(segmentId)`: every failure on the way (a malformed id, a
      failed request, a missing transcription id, a reply that is not a list)
      ends in the empty list. */
  function GetMCQuestions(segmentId: string, b: Backend): (r: seq<MCQuestion>)
    ensures forall i :: 0 <= i < |r| ==> r[i].segmentId == segmentId
    ensures forall i :: 0 <= i < |r| ==> -1 <= r[i].correctAnswer < |r[i].options|
    ensures ParseSegmentId(segmentId).Err? ==> r == []
    ensures ParseSegmentId(segmentId).Ok? && TranscriptionId(b, ParseSegmentId(segmentId).value.videoId).None? ==> r == []
    ensures |r| > 0 ==> ParseSegmentId(segmentId).Ok? && TranscriptionId(b, ParseSegmentId(segmentId).value.videoId).Some?
  {
    match ParseSegmentId(segmentId)
    case Err(_) => []
    case Ok(ref) =>
      match TranscriptionId(b, ref.videoId)
      case None => []
      case Some(tid) =>
        match SegmentList(b, tid, ref.index)
        case None => []
        case Some(items) => ToQuestions(segmentId, items)
  }

  /** The questions of segment `index` of an unambiguous video are exactly the
      backend's list for that transcription and index, converted one by one. */
  lemma SegmentQuestionsRoute(videoId: string, index: nat, b: Backend)
    requires Unambiguous(videoId)
    ensures var r := GetMCQuestions(SegmentId(videoId, index), b);
      match TranscriptionId(b, videoId)
      case None => r == []
      case Some(tid) =>
        match SegmentList(b, tid, Num(index))
        case None => r == []
        case Some(items) =>
          |r| == |items| && forall i :: 0 <= i < |items| ==> Converted(r[i], items[i], SegmentId(videoId, index))
  {
    SegmentIdRoundTrip(videoId, index);
  }

  /** `getAllQuestions(videoId)`: each question is filed under the segment id
      built from its own segment index; every failure gives the empty list. */
  function GetAllQuestions(videoId: string, b: Backend): (r: seq<MCQuestion>)
    ensures TranscriptionId(b, videoId).None? ==> r == []
    ensures TranscriptionId(b, videoId).Some? ==>
      var tid := TranscriptionId(b, videoId).value;
      if tid in b.allQuestions && b.allQuestions[tid].QuestionList? then
        |r| == |b.allQuestions[tid].items| &&
        forall i :: 0 <= i < |r| ==>
          Converted(r[i], b.allQuestions[tid].items[i], SegmentId(videoId, b.allQuestions[tid].items[i].segmentIndex))
      else r == []
  {
    match TranscriptionId(b, videoId)
    case None => []
    case Some(tid) =>
      if tid in b.allQuestions && b.allQuestions[tid].QuestionList?
      then FileUnderSegments(videoId, b.allQuestions[tid].items)
      else []
  }

  function FileUnderSegments(videoId: string, items: seq<RawQuestion>): (r: seq<MCQuestion>)
    ensures |r| == |items|
    ensures forall i :: 0 <= i < |items| ==> Converted(r[i], items[i], SegmentId(videoId, items[i].segmentIndex))
  {
    if |items| == 0 then []
    else [ToQuestion(SegmentId(videoId, items[0].segmentIndex), items[0])] + FileUnderSegments(videoId, items[1..])
  }

  /** Every question of a video's full list points back, through its segment
      id, at that video and at its own segment index. */
  lemma AllQuestionsPointBack(videoId: string, b: Backend, i: nat)
    requires Unambiguous(videoId)
    requires TranscriptionId(b, videoId).Some?
    requires var tid := TranscriptionId(b, videoId).value;
      tid in b.allQuestions && b.allQuestions[tid].QuestionList? && i < |b.allQuestions[tid].items|
    ensures var tid := TranscriptionId(b, videoId).value;
      ParseSegmentId(GetAllQuestions(videoId, b)[i].segmentId)
        == Ok(SegmentRef(videoId, Num(b.allQuestions[tid].items[i].segmentIndex)))
  {
    var tid := TranscriptionId(b, videoId).value;
    SegmentIdRoundTrip(videoId, b.allQuestions[tid].items[i].segmentIndex);
  }

  // ---------------------------------------------------------------- segments

  const TranscriptFailure: string := "Failed to fetch transcript segments"

  function ToSegments(videoId: string, raws: seq<RawSegment>): (r: seq<TranscriptSegment>)
    ensures |r| == |raws|
    ensures forall i :: 0 <= i < |raws| ==>
      r[i] == TranscriptSegment(SegmentId(videoId, raws[i].segmentIndex), videoId, raws[i].startTime, raws[i].endTime, raws[i].text)
  {
    if |raws| == 0 then []
    else
      var s := raws[0];
      [TranscriptSegment(SegmentId(videoId, s.segmentIndex), videoId, s.startTime, s.endTime, s.text)]
        + ToSegments(videoId, raws[1..])
  }

  /** `getTranscriptSegments(videoId)`: a failed request is an error with a
      fixed message; a transcription without segments gives the empty list. */
  function GetTranscriptSegments(videoId: string, b: Backend): (r: Result<seq<TranscriptSegment>>)
    ensures r.Err? <==> videoId !in b.transcriptions
    ensures r.Err? ==> r.message == TranscriptFailure
    ensures r.Ok? && b.transcriptions[videoId].segments.None? ==> r.value == []
    ensures r.Ok? && b.transcriptions[videoId].segments.Some? ==>
      var raws := b.transcriptions[videoId].segments.value;
      |r.value| == |raws| &&
      forall i :: 0 <= i < |raws| ==>
        && r.value[i].videoId == videoId
        && r.value[i].id == SegmentId(videoId, raws[i].segmentIndex)
        && r.value[i].startTime == raws[i].startTime && r.value[i].endTime == raws[i].endTime
        && r.value[i].text == raws[i].text
  {
    if videoId !in b.transcriptions then Err(TranscriptFailure)
    else match b.transcriptions[videoId].segments
      case None => Ok([])
      case Some(raws) => if |raws| == 0 then Ok([]) else Ok(ToSegments(videoId, raws))
  }

  /** Asking for the questions of a segment the transcript listed reaches the
      backend's list for that segment's own index. */
  lemma ListedSegmentQuestions(videoId: string, b: Backend, i: nat)
    requires Unambiguous(videoId)
    requires GetTranscriptSegments(videoId, b).Ok? && i < |GetTranscriptSegments(videoId, b).value|
    ensures var seg := GetTranscriptSegments(videoId, b).value[i];
      var index := b.transcriptions[videoId].segments.value[i].segmentIndex;
      ParseSegmentId(seg.id) == Ok(SegmentRef(videoId, Num(index)))
  {
    var index := b.transcriptions[videoId].segments.value[i].segmentIndex;
    SegmentIdRoundTrip(videoId, index);
  }
}
