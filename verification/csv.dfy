/** Comma-separated values as section 2 of RFC 4180 lays them out, with a
    line feed ending each record: a writer of cells, and an independent reader
    that recovers the cell texts. */
module Csv {
  import opened Types
  import opened Text

  /** A cell written as is, or between double quotes with inner quotes doubled. */
  datatype Cell = Bare(text: string) | Quoted(text: string)

  function CellText(c: Cell): string {
    match c
    case Bare(t) => t
    case Quoted(t) => "\"" + EscapeQuotes(t) + "\""
  }

  /** `cells.join(',')` over the written cell texts. */
  function JoinCells(cells: seq<Cell>): string
    requires |cells| > 0
  {
    if |cells| == 1 then CellText(cells[0]) else CellText(cells[0]) + "," + JoinCells(cells[1..])
  }

  /** One record: the joined cells and a terminating line feed. */
  function EncodeRecord(cells: seq<Cell>): string
    requires |cells| > 0
  {
    JoinCells(cells) + "\n"
  }

  function Texts(cells: seq<Cell>): (r: seq<string>)
    ensures |r| == |cells| && forall i :: 0 <= i < |cells| ==> r[i] == cells[i].text
  {
    if |cells| == 0 then [] else [cells[0].text] + Texts(cells[1..])
  }

  /** A bare cell must not contain a separator, a line feed or a quote. */
  predicate SafeBare(t: string) {
    forall i :: 0 <= i < |t| ==> t[i] != ',' && t[i] != '\n' && t[i] != '"'
  }

  predicate SafeCells(cells: seq<Cell>) {
    forall i :: 0 <= i < |cells| ==> (cells[i].Bare? ==> SafeBare(cells[i].text))
  }

  // ---------------------------------------------------------------- reader

  /** Reads the inside of a quoted field (after its opening quote) up to the
      closing quote, a doubled quote standing for one; returns the text and
      what follows the closing quote. */
  function ReadQuoted(s: string): (r: Option<(string, string)>)
    ensures r.Some? ==> |r.value.1| < |s|
    decreases |s|
  {
    if |s| == 0 then None
    else if s[0] == '"' then
      if |s| > 1 && s[1] == '"' then
        var inner := ReadQuoted(s[2..]);
        if inner.None? then None else Some(("\"" + inner.value.0, inner.value.1))
      else Some(([], s[1..]))
    else
      var inner := ReadQuoted(s[1..]);
      if inner.None? then None else Some(([s[0]] + inner.value.0, inner.value.1))
  }

  /** Reads an unquoted field up to the next separator or line feed. */
  function ReadBare(s: string): (r: (string, string))
    ensures r.0 + r.1 == s
    ensures |r.1| > 0 ==> r.1[0] == ',' || r.1[0] == '\n'
  {
    if |s| == 0 || s[0] == ',' || s[0] == '\n' then ([], s)
    else
      var inner := ReadBare(s[1..]);
      ([s[0]] + inner.0, inner.1)
  }

  function ReadField(s: string): (r: Option<(string, string)>)
    ensures r.Some? ==> |r.value.1| <= |s|
  {
    if |s| > 0 && s[0] == '"' then ReadQuoted(s[1..]) else Some(ReadBare(s))
  }

  /** Reads the fields of one record, through its terminating line feed. */
  function ReadRecord(s: string): (r: Option<(seq<string>, string)>)
    ensures r.Some? ==> |r.value.1| < |s|
    decreases |s|
  {
    var field := ReadField(s);
    if field.None? then None
    else
      var f := field.value.0;
      var rest := field.value.1;
      if |rest| == 0 then None
      else if rest[0] == '\n' then Some(([f], rest[1..]))
      else if rest[0] == ',' then
        var more := ReadRecord(rest[1..]);
        if more.None? then None else Some(([f] + more.value.0, more.value.1))
      else None
  }

  /** Reads a whole document as a sequence of records. */
  function ReadRecords(s: string): Option<seq<seq<string>>>
    decreases |s|
  {
    if |s| == 0 then Some([])
    else
      var first := ReadRecord(s);
      if first.None? then None
      else
        var others := ReadRecords(first.value.1);
        if others.None? then None else Some([first.value.0] + others.value)
  }

  // ---------------------------------------------------------------- round trip

  /** Un-doubling the quotes of an escaped text restores the text. */
  lemma {:induction false} ReadQuotedEscaped(t: string, rest: string)
    requires |rest| == 0 || rest[0] != '"'
    ensures ReadQuoted(EscapeQuotes(t) + "\"" + rest) == Some((t, rest))
  {
    var s := EscapeQuotes(t) + "\"" + rest;
    if |t| == 0 {
      assert s == "\"" + rest;
      assert s[1..] == rest;
    } else {
      ReadQuotedEscaped(t[1..], rest);
      if t[0] == '"' {
        assert s == "\"\"" + (EscapeQuotes(t[1..]) + "\"" + rest);
        assert s[2..] == EscapeQuotes(t[1..]) + "\"" + rest;
        assert "\"" + t[1..] == t;
      } else {
        assert s == [t[0]] + (EscapeQuotes(t[1..]) + "\"" + rest);
        assert s[1..] == EscapeQuotes(t[1..]) + "\"" + rest;
        assert [t[0]] + t[1..] == t;
      }
    }
  }

  lemma {:induction false} ReadBareSafe(t: string, rest: string)
    requires forall i :: 0 <= i < |t| ==> t[i] != ',' && t[i] != '\n'
    requires |rest| == 0 || rest[0] == ',' || rest[0] == '\n'
    ensures ReadBare(t + rest) == (t, rest)
  {
    var s := t + rest;
    if |t| > 0 {
      assert s[0] == t[0];
      assert s[1..] == t[1..] + rest;
      ReadBareSafe(t[1..], rest);
      var inner := ReadBare(s[1..]);
      assert inner == (t[1..], rest);
      assert ReadBare(s) == ([s[0]] + inner.0, inner.1);
      assert [t[0]] + t[1..] == t;
    } else {
      assert s == rest;
    }
  }

  lemma ReadCell(c: Cell, rest: string)
    requires c.Bare? ==> SafeBare(c.text)
    requires |rest| > 0 && (rest[0] == ',' || rest[0] == '\n')
    ensures ReadField(CellText(c) + rest) == Some((c.text, rest))
  {
    match c
    case Bare(t) =>
      ReadBareSafe(t, rest);
      if |t| > 0 {
        assert (t + rest)[0] == t[0];
      }
    case Quoted(t) =>
      var s := CellText(c) + rest;
      assert s == "\"" + (EscapeQuotes(t) + "\"" + rest);
      assert s[1..] == EscapeQuotes(t) + "\"" + rest;
      ReadQuotedEscaped(t, rest);
  }

  lemma ReadLastCell(c: Cell, rest: string)
    requires c.Bare? ==> SafeBare(c.text)
    ensures ReadRecord(CellText(c) + "\n" + rest) == Some(([c.text], rest))
  {
    var tail := "\n" + rest;
    assert CellText(c) + "\n" + rest == CellText(c) + tail;
    ReadCell(c, tail);
    assert tail[1..] == rest;
  }

  lemma ReadInnerCell(c: Cell, more: string, fs: seq<string>, rest: string)
    requires c.Bare? ==> SafeBare(c.text)
    requires ReadRecord(more) == Some((fs, rest))
    ensures ReadRecord(CellText(c) + "," + more) == Some(([c.text] + fs, rest))
  {
    var tail := "," + more;
    assert CellText(c) + "," + more == CellText(c) + tail;
    ReadCell(c, tail);
    assert tail[1..] == more;
  }

  /** A written record reads back as the texts of its cells. */
  lemma {:induction false} ReadEncodedRecord(cells: seq<Cell>, rest: string)
    requires |cells| > 0 && SafeCells(cells)
    ensures ReadRecord(EncodeRecord(cells) + rest) == Some((Texts(cells), rest))
  {
    if |cells| == 1 {
      assert EncodeRecord(cells) + rest == CellText(cells[0]) + "\n" + rest;
      ReadLastCell(cells[0], rest);
      assert Texts(cells) == [cells[0].text];
    } else {
      var more := EncodeRecord(cells[1..]) + rest;
      assert EncodeRecord(cells) + rest == CellText(cells[0]) + "," + more;
      ReadEncodedRecord(cells[1..], rest);
      ReadInnerCell(cells[0], more, Texts(cells[1..]), rest);
      assert Texts(cells) == [cells[0].text] + Texts(cells[1..]);
    }
  }

  /** A document of written records reads back record by record. */
  function EncodeRecords(rows: seq<seq<Cell>>): string
    requires forall i :: 0 <= i < |rows| ==> |rows[i]| > 0
  {
    if |rows| == 0 then [] else EncodeRecord(rows[0]) + EncodeRecords(rows[1..])
  }

  /** The cell texts of every row. */
  function TextRows(rows: seq<seq<Cell>>): (r: seq<seq<string>>)
    ensures |r| == |rows| && forall i :: 0 <= i < |rows| ==> r[i] == Texts(rows[i])
  {
    if |rows| == 0 then [] else [Texts(rows[0])] + TextRows(rows[1..])
  }

  lemma {:induction false} ReadEncodedRecords(rows: seq<seq<Cell>>)
    requires forall i :: 0 <= i < |rows| ==> |rows[i]| > 0 && SafeCells(rows[i])
    ensures ReadRecords(EncodeRecords(rows)) == Some(TextRows(rows))
  {
    if |rows| == 0 {
      assert EncodeRecords(rows) == [];
    } else {
      var rest := EncodeRecords(rows[1..]);
      assert EncodeRecords(rows) == EncodeRecord(rows[0]) + rest;
      assert |EncodeRecords(rows)| > 0;
      ReadEncodedRecord(rows[0], rest);
      ReadEncodedRecords(rows[1..]);
      assert TextRows(rows) == [Texts(rows[0])] + TextRows(rows[1..]);
    }
  }
}
