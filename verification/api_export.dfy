/** Exporting every question of a video, as a JSON document or as CSV text. */
module ApiExport {
  import opened Types
  import opened Text
  import opened Csv
  import opened ApiQueries

  datatype ExportFormat = JsonFormat | CsvFormat

  /** One exported question. `correctAnswerText` is the option the answer
      index names; an index outside the options reads as `undefined`, which the
      serializer drops, and is `None` here. */
  datatype ExportItem = ExportItem(
    id: string, question: string, options: seq<string>, correctAnswer: int,
    correctAnswerText: Option<string>)

  /** The JSON export before serialization; its timestamp is not modelled. */
  datatype JsonExport = JsonExport(videoId: string, totalQuestions: nat, questions: seq<ExportItem>)

  function ToExportItem(q: MCQuestion): (r: ExportItem)
    ensures r.id == q.id && r.question == q.question && r.options == q.options
    ensures r.correctAnswer == q.correctAnswer
    ensures r.correctAnswerText.Some? <==> 0 <= q.correctAnswer < |q.options|
    ensures r.correctAnswerText.Some? ==> r.correctAnswerText.value == q.options[q.correctAnswer]
  {
    ExportItem(q.id, q.question, q.options, q.correctAnswer,
      if 0 <= q.correctAnswer < |q.options| then Some(q.options[q.correctAnswer]) else None)
  }

  function ToExportItems(qs: seq<MCQuestion>): (r: seq<ExportItem>)
    ensures |r| == |qs| && forall i :: 0 <= i < |qs| ==> r[i] == ToExportItem(qs[i])
  {
    if |qs| == 0 then [] else [ToExportItem(qs[0])] + ToExportItems(qs[1..])
  }

  function ExportJson(videoId: string, qs: seq<MCQuestion>): (r: JsonExport)
    ensures r.videoId == videoId
    ensures r.totalQuestions == |r.questions| == |qs|
    ensures forall i :: 0 <= i < |qs| ==> r.questions[i] == ToExportItem(qs[i])
  {
    JsonExport(videoId, |qs|, ToExportItems(qs))
  }

  // ---------------------------------------------------------------- CSV

  const HeaderCells: seq<Cell> := [
    Bare("Question ID"), Bare("Question"), Bare("Option A"), Bare("Option B"),
    Bare("Option C"), Bare("Option D"), Bare("Correct Answer")]

  /** The header line: the seven column names joined with commas and ended
      with a line feed, which spells
      `Question ID,Question,Option A,Option B,Option C,Option D,Correct Answer`. */
  const CsvHeader: string := EncodeRecord(HeaderCells)

  lemma HeaderSafe()
    ensures SafeCells(HeaderCells)
  {
    assert SafeBare("Question ID") && SafeBare("Question");
    assert SafeBare("Option A") && SafeBare("Option B") && SafeBare("Option C") && SafeBare("Option D");
    assert SafeBare("Correct Answer");
    SevenBareSafe("Question ID", "Question", "Option A", "Option B", "Option C", "Option D", "Correct Answer");
  }

  lemma SevenBareSafe(a: string, b: string, c: string, d: string, e: string, f: string, g: string)
    requires SafeBare(a) && SafeBare(b) && SafeBare(c) && SafeBare(d) && SafeBare(e) && SafeBare(f) && SafeBare(g)
    ensures SafeCells([Bare(a), Bare(b), Bare(c), Bare(d), Bare(e), Bare(f), Bare(g)])
  {
  }

  /** Empty strings appended until there are at least four options. */
  function PadOptions(options: seq<string>): (r: seq<string>)
    ensures |r| == if |options| >= 4 then |options| else 4
    ensures r[..|options|] == options
    ensures forall i :: |options| <= i < |r| ==> r[i] == ""
    decreases 4 - |options|
  {
    if |options| >= 4 then options else PadOptions(options + [""])
  }

  /** `String.fromCharCode(65 + correctAnswer)`: 'A' for the first option. */
  function AnswerLetter(correctAnswer: int): (r: string)
    ensures |r| == 1
    ensures 0 <= correctAnswer < 26 ==> 'A' <= r[0] <= 'Z' && r[0] as int - 'A' as int == correctAnswer
    ensures correctAnswer == -1 ==> r == "@"
  {
    [FromCharCode(65 + correctAnswer)]
  }

  /** The letter of an index from -1 ('@') up to the last code point below the
      surrogates reads back as that index, and is safe as a bare cell. */
  lemma AnswerLetterIndex(correctAnswer: int)
    requires -1 <= correctAnswer < 0xD800 - 65
    ensures |AnswerLetter(correctAnswer)| == 1
    ensures AnswerLetter(correctAnswer)[0] as int - 65 == correctAnswer
    ensures SafeBare(AnswerLetter(correctAnswer))
  {
  }

  /** The seven cells of one question's row: the id bare, the question and the
      first four (padded) options quoted, the answer letter bare. */
  function RowCells(q: MCQuestion): (r: seq<Cell>)
    ensures |r| == 7
    ensures r[0] == Bare(q.id) && r[1] == Quoted(q.question)
    ensures forall k :: 0 <= k < 4 ==> r[2 + k] == Quoted(if k < |q.options| then q.options[k] else "")
    ensures r[6] == Bare(AnswerLetter(q.correctAnswer))
  {
    var options := PadOptions(q.options);
    [Bare(q.id), Quoted(q.question), Quoted(options[0]), Quoted(options[1]),
     Quoted(options[2]), Quoted(options[3]), Bare(AnswerLetter(q.correctAnswer))]
  }

  /** The rows as `forEach` appends them: each joined with commas and ended
      with a line feed. */
  function CsvBody(qs: seq<MCQuestion>): (r: string)
    ensures r == "" <==> |qs| == 0
    ensures |qs| > 0 ==> r[|r| - 1] == '\n'
    ensures |qs| > 0 ==> EncodeRecord(RowCells(qs[0])) <= r
  {
    if |qs| == 0 then "" else EncodeRecord(RowCells(qs[0])) + CsvBody(qs[1..])
  }

  /** The CSV text: the header line, then one line per question. */
  function ExportCsv(qs: seq<MCQuestion>): (r: string)
    ensures CsvHeader <= r
    ensures |qs| == 0 <==> r == CsvHeader
    ensures r[|r| - 1] == '\n'
  {
    CsvHeader + CsvBody(qs)
  }

  /** What a question's row holds once read back. */
  function RowTexts(q: MCQuestion): (r: seq<string>)
    ensures |r| == 7
  {
    var options := PadOptions(q.options);
    [q.id, q.question, options[0], options[1], options[2], options[3], AnswerLetter(q.correctAnswer)]
  }

  function RowsTexts(qs: seq<MCQuestion>): (r: seq<seq<string>>)
    ensures |r| == |qs| && forall i :: 0 <= i < |qs| ==> r[i] == RowTexts(qs[i])
  {
    if |qs| == 0 then [] else [RowTexts(qs[0])] + RowsTexts(qs[1..])
  }

  /** A question can be written as a row that reads back: its id is a safe
      bare cell and its answer index has a safe letter. */
  predicate Exportable(q: MCQuestion) {
    SafeBare(q.id) && -1 <= q.correctAnswer < 0xD800 - 65
  }

  function CellRows(qs: seq<MCQuestion>): (r: seq<seq<Cell>>)
    ensures |r| == |qs| && forall i :: 0 <= i < |qs| ==> r[i] == RowCells(qs[i])
  {
    if |qs| == 0 then [] else [RowCells(qs[0])] + CellRows(qs[1..])
  }

  lemma {:induction false} BodyIsRecords(qs: seq<MCQuestion>)
    ensures CsvBody(qs) == EncodeRecords(CellRows(qs))
  {
    if |qs| > 0 {
      BodyIsRecords(qs[1..]);
      assert CellRows(qs)[1..] == CellRows(qs[1..]);
    }
  }

  lemma RowReadsBack(q: MCQuestion)
    requires Exportable(q)
    ensures SafeCells(RowCells(q)) && Texts(RowCells(q)) == RowTexts(q)
  {
    AnswerLetterIndex(q.correctAnswer);
  }

  lemma RowsSafe(qs: seq<MCQuestion>)
    requires forall i :: 0 <= i < |qs| ==> Exportable(qs[i])
    ensures forall i :: 0 <= i < |qs| ==> SafeCells(CellRows(qs)[i])
    ensures TextRows(CellRows(qs)) == RowsTexts(qs)
  {
    forall i | 0 <= i < |qs|
      ensures SafeCells(CellRows(qs)[i]) && TextRows(CellRows(qs))[i] == RowsTexts(qs)[i]
    {
      RowReadsBack(qs[i]);
    }
  }

  lemma WithHeader(header: seq<Cell>, qs: seq<MCQuestion>)
    requires |header| > 0
    ensures EncodeRecords([header] + CellRows(qs)) == EncodeRecord(header) + CsvBody(qs)
    ensures TextRows([header] + CellRows(qs)) == [Texts(header)] + TextRows(CellRows(qs))
  {
    var rows := [header] + CellRows(qs);
    assert rows[1..] == CellRows(qs);
    BodyIsRecords(qs);
  }

  /** Every record, the given header included, is non-empty and safe. */
  lemma RecordsSafe(header: seq<Cell>, qs: seq<MCQuestion>)
    requires |header| > 0 && SafeCells(header)
    requires forall i :: 0 <= i < |qs| ==> Exportable(qs[i])
    ensures var rows := [header] + CellRows(qs);
      forall i :: 0 <= i < |rows| ==> |rows[i]| > 0 && SafeCells(rows[i])
  {
    var rows := [header] + CellRows(qs);
    RowsSafe(qs);
    forall i | 0 <= i < |rows|
      ensures |rows[i]| > 0 && SafeCells(rows[i])
    {
      if i > 0 {
        assert rows[i] == CellRows(qs)[i - 1];
      }
    }
  }

  /** A safe header line followed by the question rows reads back as the
      header's texts and then the rows' texts. */
  lemma BodyReadsBack(header: seq<Cell>, qs: seq<MCQuestion>)
    requires |header| > 0 && SafeCells(header)
    requires forall i :: 0 <= i < |qs| ==> Exportable(qs[i])
    ensures ReadRecords(EncodeRecord(header) + CsvBody(qs)) == Some([Texts(header)] + RowsTexts(qs))
  {
    RecordsSafe(header, qs);
    ReadEncodedRecords([header] + CellRows(qs));
    WithHeader(header, qs);
    RowsSafe(qs);
  }

  /** Reading the CSV export back gives the header and then, per question and
      in order, its id, question, first four padded options and answer letter. */
  lemma ExportCsvReadsBack(qs: seq<MCQuestion>)
    requires forall i :: 0 <= i < |qs| ==> Exportable(qs[i])
    ensures ReadRecords(ExportCsv(qs)) == Some([Texts(HeaderCells)] + RowsTexts(qs))
  {
    HeaderSafe();
    BodyReadsBack(HeaderCells, qs);
  }

  /** For an answer among the first four options, the CSV row's letter and the
      option cell it names agree with the JSON item's answer text. */
  lemma FormatsAgree(q: MCQuestion)
    requires 0 <= q.correctAnswer < 4 && q.correctAnswer < |q.options|
    ensures AnswerLetter(q.correctAnswer) == ["ABCD"[q.correctAnswer]]
    ensures Some(RowTexts(q)[2 + q.correctAnswer]) == ToExportItem(q).correctAnswerText
  {
    var options := PadOptions(q.options);
    assert options[q.correctAnswer] == options[..|q.options|][q.correctAnswer];
  }

  // ---------------------------------------------------------------- exportMCQs

  datatype ExportDocument = JsonDocument(json: JsonExport) | CsvDocument(csv: string)

  /** `exportMCQs(videoId, format)`: every question of the video in the chosen
      format. Fetching all questions cannot fail (it yields the empty list
      instead), so neither can the export. */
  function ExportMCQs(videoId: string, format: ExportFormat, b: Backend): (r: ExportDocument)
    ensures r.JsonDocument? <==> format == JsonFormat
    ensures r.JsonDocument? ==> r.json == ExportJson(videoId, GetAllQuestions(videoId, b))
    ensures r.CsvDocument? ==> r.csv == ExportCsv(GetAllQuestions(videoId, b))
  {
    var qs := GetAllQuestions(videoId, b);
    match format
    case JsonFormat => JsonDocument(ExportJson(videoId, qs))
    case CsvFormat => CsvDocument(ExportCsv(qs))
  }

  /** The two formats of the same video list the same number of questions:
      the JSON total equals the CSV records after the header. */
  lemma ExportCountsAgree(videoId: string, b: Backend)
    requires forall i :: 0 <= i < |GetAllQuestions(videoId, b)| ==> Exportable(GetAllQuestions(videoId, b)[i])
    ensures ReadRecords(ExportMCQs(videoId, CsvFormat, b).csv).Some?
    ensures |ReadRecords(ExportMCQs(videoId, CsvFormat, b).csv).value|
         == ExportMCQs(videoId, JsonFormat, b).json.totalQuestions + 1
  {
    ExportCsvReadsBack(GetAllQuestions(videoId, b));
  }
}
