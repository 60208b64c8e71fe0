/** One transcript segment card: its time header, its questions and their
    lettered options with the correct one highlighted. */
module TranscriptSegmentView {
  import opened Types
  import opened Text
  import opened TimeFormat

  /** `formatTime(start) - formatTime(end)`. */
  function Header(segment: TranscriptSegment): (r: string)
    ensures |r| == |FormatTime(segment.startTime)| + 3 + |FormatTime(segment.endTime)|
    ensures ParseTime(r[..|FormatTime(segment.startTime)|]) == Some(segment.startTime)
    ensures ParseTime(r[|r| - |FormatTime(segment.endTime)|..]) == Some(segment.endTime)
  {
    LabelPair(segment.startTime, " - ", segment.endTime);
    FormatTime(segment.startTime) + " - " + FormatTime(segment.endTime)
  }

  /** `Questions ({questions.length}):`. */
  function CountLabel(questions: seq<MCQuestion>): (r: string)
    ensures |r| > 13 && r[..11] == "Questions (" && r[|r| - 2..] == "):"
    ensures AllDigits(r[11..|r| - 2]) && DigitsValue(r[11..|r| - 2]) == |questions|
    ensures r[11] == '0' ==> |questions| == 0
  {
    var digits := NatToString(|questions|);
    var r := "Questions (" + digits + "):";
    assert r[11..|r| - 2] == digits;
    r
  }

  /** `Q{index + 1}`: questions are numbered from 1. */
  function QuestionNumber(index: nat): (r: string)
    ensures |r| >= 2 && r[0] == 'Q'
    ensures AllDigits(r[1..]) && DigitsValue(r[1..]) == index + 1
    ensures r[1] != '0'
  {
    var r := "Q" + NatToString(index + 1);
    assert r[1..] == NatToString(index + 1);
    r
  }

  /** No two questions of a card share a number. */
  lemma QuestionNumbersDistinct(i: nat, j: nat)
    requires i != j
    ensures QuestionNumber(i) != QuestionNumber(j)
  {
    var a := QuestionNumber(i);
    var b := QuestionNumber(j);
    assert DigitsValue(a[1..]) != DigitsValue(b[1..]);
  }

  /** `String.fromCharCode(65 + optionIndex)`: A, B, C, ... */
  function OptionLetter(optionIndex: nat): (c: char)
    ensures optionIndex < 0xD800 - 65 ==> c as int == 65 + optionIndex
  {
    FromCharCode(65 + optionIndex)
  }

  lemma OptionLettersDistinct(i: nat, j: nat)
    requires i < j < 0xD800 - 65
    ensures OptionLetter(i) != OptionLetter(j)
  {
  }

  /** The option indices, from `k` on, that are drawn in the answer colour. */
  function HighlightedFrom(q: MCQuestion, k: nat): (r: seq<int>)
    requires k <= |q.options|
    ensures |r| <= 1
    ensures r == [q.correctAnswer] <==> k <= q.correctAnswer < |q.options|
    ensures r == [] <==> !(k <= q.correctAnswer < |q.options|)
    decreases |q.options| - k
  {
    if k == |q.options| then []
    else if k == q.correctAnswer then
      var rest := HighlightedFrom(q, k + 1);
      assert rest == [];
      [k]
    else HighlightedFrom(q, k + 1)
  }

  /** An option is highlighted exactly when its index is the answer index:
      at most one is, and none when the answer index is -1 or out of range. */
  function Highlighted(q: MCQuestion): (r: seq<int>)
    ensures |r| <= 1
    ensures forall i :: 0 <= i < |r| ==> 0 <= r[i] < |q.options| && r[i] == q.correctAnswer
    ensures |r| == 1 <==> 0 <= q.correctAnswer < |q.options|
  {
    HighlightedFrom(q, 0)
  }
}
