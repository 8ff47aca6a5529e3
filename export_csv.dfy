/**
 * The text `exportToCSV` (src/utils/exportCSV.ts) puts in its download: the
 * guests sorted by envelope number, one six-cell record per guest under a header
 * record, each cell quoted in the style of section 2 (rules 6 and 7) of RFC 4180
 * when it holds a comma, a double quote or a line feed, records separated by a
 * line feed, and the whole prefixed with a byte order mark.
 *
 * A reader for exactly this format is the inverse of the serialiser: reading the
 * exported text gives back the header and the cells of every guest.
 */
module ExportCsv {
  import opened Wrappers
  import opened JsStrings
  import opened Guests

  const Headers: seq<string> := ["번호", "성명", "축의금", "식권", "비고", "등록시간"]

  /** U+FEFF, written before the records so spreadsheet programs read UTF-8. */
  const Bom: char := '\U{FEFF}'

  // ---------------------------------------------------------------------------
  // Records

  /**
   * The cells of one guest: number, name, amount, meal tickets, message (empty
   * when absent) and the creation time as `timeText` renders it (the source's
   * `toLocaleString('ko-KR')`, which this model does not spell out).
   */
  function Row(g: Guest, timeText: int -> string): (r: seq<string>)
    ensures |r| == |Headers|
    ensures IsDigits(r[0]) && ParseDigits(r[0]) == g.envelopeNumber
    ensures r[1] == g.name
    ensures IsDigits(r[2]) && ParseDigits(r[2]) == g.amount
    ensures JsParseInt(r[3]) == Some(g.mealTickets)
    ensures r[4] == g.message.GetOr("") && r[5] == timeText(g.timestamp)
  {
    ParseDecimalString(g.envelopeNumber);
    ParseDecimalString(g.amount);
    ParseIntString(g.mealTickets);
    [DecimalString(g.envelopeNumber), g.name, DecimalString(g.amount),
     IntString(g.mealTickets), g.message.GetOr(""), timeText(g.timestamp)]
  }

  function Rows(gs: seq<Guest>, timeText: int -> string): (r: seq<seq<string>>)
    ensures |r| == |gs|
    ensures forall i :: 0 <= i < |gs| ==> r[i] == Row(gs[i], timeText)
  {
    if gs == [] then [] else [Row(gs[0], timeText)] + Rows(gs[1..], timeText)
  }

  // ---------------------------------------------------------------------------
  // Cell escaping

  /** A cell is quoted when it holds a comma, a double quote or a line feed (not a lone CR). */
  function NeedsQuotes(s: string): (r: bool)
    ensures r <==> exists i :: 0 <= i < |s| && (s[i] == ',' || s[i] == '"' || s[i] == '\n')
  {
    ContainsChar(s, ',');
    ContainsChar(s, '"');
    ContainsChar(s, '\n');
    Contains(s, ",") || Contains(s, "\"") || Contains(s, "\n")
  }

  /** `replace(/"/g, '""')`. */
  function DoubleQuotes(s: string): (r: string)
    ensures |r| >= |s|
  {
    if s == [] then []
    else (if s[0] == '"' then "\"\"" else [s[0]]) + DoubleQuotes(s[1..])
  }

  /** `escapeCSV`: a cell holding a separator is wrapped in quotes; any other is written as it is. */
  function EscapeCell(s: string): (r: string)
    ensures NeedsQuotes(s) ==> |r| >= |s| + 2 && r[0] == '"' && r[|r| - 1] == '"'
    ensures !NeedsQuotes(s) ==> r == s
  {
    if NeedsQuotes(s) then "\"" + DoubleQuotes(s) + "\"" else s
  }

  function EscapeCells(cells: seq<string>): (r: seq<string>)
    ensures |r| == |cells|
  {
    if cells == [] then [] else [EscapeCell(cells[0])] + EscapeCells(cells[1..])
  }

  /** One line of the file: the escaped cells joined by commas. */
  function RecordLine(cells: seq<string>): string {
    Join(EscapeCells(cells), ",")
  }

  function RecordLines(records: seq<seq<string>>): (r: seq<string>)
    ensures |r| == |records|
    ensures forall i :: 0 <= i < |records| ==> r[i] == RecordLine(records[i])
  {
    if records == [] then [] else [RecordLine(records[0])] + RecordLines(records[1..])
  }

  // ---------------------------------------------------------------------------
  // The exported text

  /** `csvContent`: the header line, then one line per guest in envelope order. */
  function CsvContent(guests: seq<Guest>, timeText: int -> string): (r: string)
    ensures var header := Join(Headers, ",");
            |header| <= |r| && r[..|header|] == header
    ensures guests == [] ==> r == Join(Headers, ",")
  {
    JoinEnds([Join(Headers, ",")] + RecordLines(Rows(SortBy(ByEnvelopeNumber, guests), timeText)), "\n");
    assert guests == [] ==> SortBy(ByEnvelopeNumber, guests) == [] by {
      if guests == [] {
        assert |multiset(SortBy(ByEnvelopeNumber, guests))| == 0;
      }
    }
    Join([Join(Headers, ",")] + RecordLines(Rows(SortBy(ByEnvelopeNumber, guests), timeText)), "\n")
  }

  /** `BOM + csvContent`, the contents of the downloaded file. */
  function CsvText(guests: seq<Guest>, timeText: int -> string): (r: string)
    ensures |r| >= 1 && r[0] == Bom
  {
    [Bom] + CsvContent(guests, timeText)
  }

  // ---------------------------------------------------------------------------
  // The reader: the inverse of the serialiser

  /** Strips the outer quotes of a quoted cell and halves its doubled quotes. */
  function Unescape(s: string): string {
    if |s| >= 2 && s[0] == '"' && s[|s| - 1] == '"' then HalveQuotes(s[1..|s| - 1]) else s
  }

  function HalveQuotes(s: string): string {
    if |s| >= 2 && s[0] == '"' && s[1] == '"' then "\"" + HalveQuotes(s[2..])
    else if s == [] then []
    else [s[0]] + HalveQuotes(s[1..])
  }

  /** An unquoted cell: everything up to the next comma, line feed or the end. */
  function ParseBare(s: string): (r: (string, string))
    ensures |r.1| <= |s|
  {
    if s == [] || s[0] == ',' || s[0] == '\n' then ([], s)
    else
      var rest := ParseBare(s[1..]);
      ([s[0]] + rest.0, rest.1)
  }

  /** The inside of a quoted cell, after its opening quote; None when it is never closed. */
  function ParseQuoted(s: string): (r: Option<(string, string)>)
    ensures r.Some? ==> |r.value.1| < |s|
  {
    if s == [] then None
    else if s[0] == '"' then
      if |s| >= 2 && s[1] == '"' then
        match ParseQuoted(s[2..])
        case None => None
        case Some(rest) => Some(("\"" + rest.0, rest.1))
      else Some(([], s[1..]))
    else
      match ParseQuoted(s[1..])
      case None => None
      case Some(rest) => Some(([s[0]] + rest.0, rest.1))
  }

  function ParseCell(s: string): (r: Option<(string, string)>)
    ensures r.Some? ==> |r.value.1| <= |s|
  {
    if |s| > 0 && s[0] == '"' then ParseQuoted(s[1..]) else Some(ParseBare(s))
  }

  /** The cells of one record and what follows it (nothing, or a line feed and more). */
  function ParseRecord(s: string): (r: Option<(seq<string>, string)>)
    ensures r.Some? ==> |r.value.1| <= |s|
    decreases |s|
  {
    match ParseCell(s)
    case None => None
    case Some(cell) =>
      var rest := cell.1;
      if rest != [] && rest[0] == ',' then
        match ParseRecord(rest[1..])
        case None => None
        case Some(more) => Some(([cell.0] + more.0, more.1))
      else if rest == [] || rest[0] == '\n' then Some(([cell.0], rest))
      else None
  }

  /** All records of a text whose records are separated by line feeds. */
  function ParseRecords(s: string): Option<seq<seq<string>>>
    decreases |s|
  {
    match ParseRecord(s)
    case None => None
    case Some(record) =>
      if record.1 == [] then Some([record.0])
      else
        match ParseRecords(record.1[1..])
        case None => None
        case Some(more) => Some([record.0] + more)
  }

  /** Reads a CSV text, skipping a leading byte order mark. */
  function ParseCsv(text: string): Option<seq<seq<string>>> {
    if |text| > 0 && text[0] == Bom then ParseRecords(text[1..]) else ParseRecords(text)
  }

  // ---------------------------------------------------------------------------
  // Lemmas

  /** A one-character search is a membership test. */
  lemma ContainsChar(s: string, c: char)
    ensures Contains(s, [c]) <==> exists i :: 0 <= i < |s| && s[i] == c
  {
    if Contains(s, [c]) {
      var i :| OccursAt(s, [c], i);
      assert s[i..i + 1][0] == s[i];
    }
    if exists i :: 0 <= i < |s| && s[i] == c {
      var i :| 0 <= i < |s| && s[i] == c;
      assert s[i..i + 1] == [c];
      assert OccursAt(s, [c], i);
    }
  }

  /** A quoted cell is the doubled text between two quotes; any other cell is unchanged. */
  lemma EscapeCellShape(s: string)
    ensures NeedsQuotes(s) ==> EscapeCell(s) == "\"" + DoubleQuotes(s) + "\""
    ensures !NeedsQuotes(s) ==> EscapeCell(s) == s
                                && forall i :: 0 <= i < |s| ==> s[i] != ',' && s[i] != '"' && s[i] != '\n'
  {
  }

  /** Halving the doubled quotes gives the text back. */
  lemma {:induction false} HalveDoubleQuotes(s: string)
    ensures HalveQuotes(DoubleQuotes(s)) == s
  {
    if s != [] {
      HalveDoubleQuotes(s[1..]);
      if s[0] == '"' {
        assert DoubleQuotes(s) == "\"\"" + DoubleQuotes(s[1..]);
        assert DoubleQuotes(s)[2..] == DoubleQuotes(s[1..]);
      } else {
        assert DoubleQuotes(s) == [s[0]] + DoubleQuotes(s[1..]);
        assert DoubleQuotes(s)[1..] == DoubleQuotes(s[1..]);
      }
    }
  }

  /** Unquoting an escaped cell recovers the cell. */
  lemma UnescapeEscapeCell(s: string)
    ensures Unescape(EscapeCell(s)) == s
  {
    EscapeCellShape(s);
    if NeedsQuotes(s) {
      var e := EscapeCell(s);
      assert e[1..|e| - 1] == DoubleQuotes(s);
      HalveDoubleQuotes(s);
    } else if |s| >= 2 {
      assert s[0] != '"';
    }
  }

  /** True of what may follow a cell: nothing, a comma or a line feed. */
  predicate CellEnd(t: string) {
    t == [] || t[0] == ',' || t[0] == '\n'
  }

  lemma {:induction false} ParseBarePlain(c: string, t: string)
    requires forall i :: 0 <= i < |c| ==> c[i] != ',' && c[i] != '"' && c[i] != '\n'
    requires CellEnd(t)
    ensures ParseBare(c + t) == (c, t)
  {
    if c == [] {
      assert c + t == t;
    } else {
      assert (c + t)[0] == c[0];
      assert (c + t)[1..] == c[1..] + t;
      ParseBarePlain(c[1..], t);
      assert [c[0]] + c[1..] == c;
    }
  }

  lemma {:induction false} ParseQuotedDoubled(c: string, t: string)
    requires CellEnd(t)
    ensures ParseQuoted(DoubleQuotes(c) + "\"" + t) == Some((c, t))
  {
    var s := DoubleQuotes(c) + "\"" + t;
    if c == [] {
      assert s == "\"" + t;
      assert s[1..] == t;
    } else {
      var rest := DoubleQuotes(c[1..]) + "\"" + t;
      ParseQuotedDoubled(c[1..], t);
      if c[0] == '"' {
        assert s == "\"\"" + rest;
        assert s[2..] == rest;
      } else {
        assert s == [c[0]] + rest;
        assert s[1..] == rest;
      }
      assert [c[0]] + c[1..] == c;
    }
  }

  /** A cell that opens with a quote is read as quoted text from the next character on. */
  lemma OpeningQuote(d: string, t: string)
    ensures ParseCell("\"" + d + "\"" + t) == ParseQuoted(d + "\"" + t)
  {
    assert ("\"" + d + "\"" + t)[1..] == d + "\"" + t;
  }

  /** Reading an escaped cell gives the cell and leaves what follows it. */
  lemma ParseEscapedCell(c: string, t: string)
    requires CellEnd(t)
    ensures ParseCell(EscapeCell(c) + t) == Some((c, t))
  {
    EscapeCellShape(c);
    if NeedsQuotes(c) {
      OpeningQuote(DoubleQuotes(c), t);
      ParseQuotedDoubled(c, t);
    } else {
      ParseBarePlain(c, t);
    }
  }

  /** Reading a record line gives its cells back. */
  lemma {:induction false} ParseRecordLine(cells: seq<string>, t: string)
    requires |cells| >= 1
    requires t == [] || t[0] == '\n'
    ensures ParseRecord(RecordLine(cells) + t) == Some((cells, t))
  {
    if |cells| == 1 {
      SingleCellLine(cells[0], t);
      assert cells == [cells[0]];
    } else {
      RecordLineCons(cells);
      ParseRecordLine(cells[1..], t);
      FirstCellOfLine(cells[0], cells[1..], RecordLine(cells[1..]), t, RecordLine(cells));
      assert cells == [cells[0]] + cells[1..];
    }
  }

  /** Reading a line of one cell gives that cell back. */
  lemma SingleCellLine(c: string, t: string)
    requires t == [] || t[0] == '\n'
    ensures ParseRecord(RecordLine([c]) + t) == Some(([c], t))
  {
    assert EscapeCells([c]) == [EscapeCell(c)];
    ParseEscapedCell(c, t);
    LastCell(RecordLine([c]) + t, c, t);
  }

  /** A line of two or more cells is the first escaped cell, a comma and the line of the others. */
  lemma RecordLineCons(cells: seq<string>)
    requires |cells| >= 2
    ensures RecordLine(cells) == EscapeCell(cells[0]) + "," + RecordLine(cells[1..])
  {
    assert EscapeCells(cells)[1..] == EscapeCells(cells[1..]);
  }

  /** An escaped cell and a comma in front of a readable line add that cell in front of its record. */
  lemma FirstCellOfLine(first: string, rest: seq<string>, line: string, t: string, whole: string)
    requires whole == EscapeCell(first) + "," + line
    requires ParseRecord(line + t) == Some((rest, t))
    ensures ParseRecord(whole + t) == Some(([first] + rest, t))
  {
    var tail := "," + line + t;
    Regroup(EscapeCell(first), ",", line, t);
    ParseEscapedCell(first, tail);
    NextCell(whole + t, first, tail, (rest, t));
  }

  /**
   * A proof step of FirstCellOfLine, kept apart so that sequence associativity is
   * solved over plain parameters: the text regrouped around its first cell.
   */
  lemma Regroup(cell: string, sep: string, line: string, t: string)
    requires |sep| == 1
    ensures cell + sep + line + t == cell + (sep + line + t)
    ensures (sep + line + t)[1..] == line + t
  {
  }

  /** A cell followed by the end of the text or of the line ends the record. */
  lemma LastCell(s: string, cell: string, t: string)
    requires ParseCell(s) == Some((cell, t)) && (t == [] || t[0] == '\n')
    ensures ParseRecord(s) == Some(([cell], t))
  {
  }

  /** A cell followed by a comma starts a record whose other cells are read after the comma. */
  lemma NextCell(s: string, cell: string, tail: string, more: (seq<string>, string))
    requires ParseCell(s) == Some((cell, tail)) && tail != [] && tail[0] == ','
    requires ParseRecord(tail[1..]) == Some(more)
    ensures ParseRecord(s) == Some(([cell] + more.0, more.1))
  {
  }

  /** Every cell is escaped on its own, in place. */
  lemma {:induction false} EscapeCellsEach(cells: seq<string>)
    ensures forall i :: 0 <= i < |cells| ==> EscapeCells(cells)[i] == EscapeCell(cells[i])
  {
    if cells != [] {
      EscapeCellsEach(cells[1..]);
    }
  }

  /** A record line starts with its first escaped cell and ends with its last. */
  lemma RecordLineEnds(cells: seq<string>)
    requires cells != []
    ensures var r, first := RecordLine(cells), EscapeCell(cells[0]);
            |first| <= |r| && r[..|first|] == first
    ensures var r, last := RecordLine(cells), EscapeCell(cells[|cells| - 1]);
            |last| <= |r| && r[|r| - |last|..] == last
  {
    EscapeCellsEach(cells);
    JoinEnds(EscapeCells(cells), ",");
  }

  /** Reading the lines of several records, joined by line feeds, gives the records back. */
  lemma {:induction false} ParseRecordLines(records: seq<seq<string>>)
    requires |records| >= 1
    requires forall k :: 0 <= k < |records| ==> |records[k]| >= 1
    ensures ParseRecords(Join(RecordLines(records), "\n")) == Some(records)
  {
    var lines := RecordLines(records);
    if |records| == 1 {
      assert Join(lines, "\n") == RecordLine(records[0]) == RecordLine(records[0]) + "";
      ParseRecordLine(records[0], "");
      assert records == [records[0]];
    } else {
      var rest := Join(RecordLines(records[1..]), "\n");
      assert lines[1..] == RecordLines(records[1..]);
      assert Join(lines, "\n") == lines[0] + "\n" + rest;
      assert Join(lines, "\n") == RecordLine(records[0]) + ("\n" + rest);
      ParseRecordLine(records[0], "\n" + rest);
      assert ("\n" + rest)[1..] == rest;
      ParseRecordLines(records[1..]);
      assert records == [records[0]] + records[1..];
    }
  }

  /** A cell without a comma, a double quote or a line feed is written as it is. */
  lemma PlainCell(s: string)
    requires forall i :: 0 <= i < |s| ==> s[i] != ',' && s[i] != '"' && s[i] != '\n'
    ensures EscapeCell(s) == s
  {
  }

  /** No character of the text is a comma, a double quote or a line feed. */
  predicate PlainText(s: string) {
    s == [] || (s[0] != ',' && s[0] != '"' && s[0] != '\n' && PlainText(s[1..]))
  }

  /** Every cell is plain text. */
  predicate PlainTexts(cells: seq<string>) {
    cells == [] || (PlainText(cells[0]) && PlainTexts(cells[1..]))
  }

  lemma {:induction false} PlainTextChars(s: string)
    requires PlainText(s)
    ensures forall i :: 0 <= i < |s| ==> s[i] != ',' && s[i] != '"' && s[i] != '\n'
  {
    if s != [] {
      PlainTextChars(s[1..]);
      assert forall i :: 1 <= i < |s| ==> s[i] == s[1..][i - 1];
    }
  }

  /** Plain cells are all written as they are. */
  lemma {:induction false} PlainCells(cells: seq<string>)
    requires PlainTexts(cells)
    ensures EscapeCells(cells) == cells
  {
    if cells != [] {
      PlainTextChars(cells[0]);
      PlainCell(cells[0]);
      PlainCells(cells[1..]);
      assert cells == [cells[0]] + cells[1..];
    }
  }

  /** None of the header names needs quoting, so the header line is their plain join. */
  lemma HeaderLine(headers: seq<string>)
    requires headers == Headers
    ensures RecordLine(headers) == Join(headers, ",")
  {
    assert PlainTexts(headers);
    PlainCells(headers);
  }

  /** A header line followed by record lines reads back as the header and the records. */
  lemma ContentReadsBack(header: seq<string>, rows: seq<seq<string>>)
    requires |header| >= 1 && RecordLine(header) == Join(header, ",")
    requires forall k :: 0 <= k < |rows| ==> |rows[k]| >= 1
    ensures ParseRecords(Join([Join(header, ",")] + RecordLines(rows), "\n")) == Some([header] + rows)
  {
    var records := [header] + rows;
    assert records[1..] == rows;
    assert RecordLines(records) == [Join(header, ",")] + RecordLines(rows);
    ParseRecordLines(records);
  }

  /**
   * The exported file reads back as the header record followed by the cells of
   * every guest, one record per guest, in ascending envelope-number order: the
   * guests of the file are exactly the ledger's guests, reordered.
   */
  lemma ExportReadsBack(guests: seq<Guest>, timeText: int -> string)
    ensures exists sorted: seq<Guest> ::
              SortedBy(ByEnvelopeNumber, sorted) && multiset(sorted) == multiset(guests)
              && ParseCsv(CsvText(guests, timeText)) == Some([Headers] + Rows(sorted, timeText))
  {
    var sorted := SortBy(ByEnvelopeNumber, guests);
    HeaderLine(Headers);
    ContentReadsBack(Headers, Rows(sorted, timeText));
    assert CsvText(guests, timeText)[1..] == CsvContent(guests, timeText);
  }
}
