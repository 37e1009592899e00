/** COPY in CSV format (src/copy.rs): the line parser inverts the value formatter, and which tables survive. */
module CopyCsv {
  import opened Wrappers
  import opened Text
  import opened CopyText

  // ----- Formatting -----

  predicate NeedsQuoting(v: string, delimiter: char, quote: char, force: bool) {
    force || delimiter in v || quote in v || '\n' in v || '\r' in v
  }

  /** `format_csv_value`. */
  function FormatCsv(value: Option<string>, delimiter: char, quote: char, force: bool): string {
    if value.None? then ""
    else if NeedsQuoting(value.value, delimiter, quote, force)
    then [quote] + ReplaceChar(value.value, quote, [quote, quote]) + [quote]
    else value.value
  }

  function FormatCsvs(row: Row, delimiter: char, quote: char): (cells: seq<string>)
    ensures |cells| == |row|
    ensures forall i :: 0 <= i < |row| ==> cells[i] == FormatCsv(row[i], delimiter, quote, false)
  {
    seq(|row|, i requires 0 <= i < |row| => FormatCsv(row[i], delimiter, quote, false))
  }

  function CsvLine(row: Row, delimiter: char, quote: char): string {
    Join(FormatCsvs(row, delimiter, quote), [delimiter])
  }

  /** A value is written without quotes exactly if it needs none (rule 6 in section 2 of RFC 4180). */
  lemma BareIff(v: string, delimiter: char, quote: char)
    ensures FormatCsv(Some(v), delimiter, quote, false) == v
       <==> delimiter !in v && quote !in v && '\n' !in v && '\r' !in v
  {
    ReplacedIsLonger(v, quote, [quote, quote]);
  }

  lemma {:induction false} ReplacedIsLonger(s: string, c: char, rep: string)
    requires rep != ""
    ensures |ReplaceChar(s, c, rep)| >= |s|
  {
    if s != "" {
      ReplacedIsLonger(s[1..], c, rep);
    }
  }

  // ----- Parsing a line -----

  function CsvFold(fields: seq<string>, current: string, inQuotes: bool, s: string, delimiter: char, quote: char)
    : seq<string>
    decreases |s|
  {
    if s == [] then fields + [current]
    else if s[0] == quote then
      if !inQuotes then CsvFold(fields, current, true, s[1..], delimiter, quote)
      else if |s| > 1 && s[1] == quote then CsvFold(fields, current + [quote], true, s[2..], delimiter, quote)
      else CsvFold(fields, current, false, s[1..], delimiter, quote)
    else if s[0] == delimiter && !inQuotes then CsvFold(fields + [current], "", false, s[1..], delimiter, quote)
    else CsvFold(fields, current + [s[0]], inQuotes, s[1..], delimiter, quote)
  }

  function CsvFields(line: string, delimiter: char, quote: char): seq<string> {
    CsvFold([], "", false, line, delimiter, quote)
  }

  method ParseCsvLine(line: string, delimiter: char, quote: char) returns (result: seq<string>)
    ensures result == CsvFields(line, delimiter, quote)
  {
    result := [];
    var current, inQuotes, i := "", false, 0;
    while i < |line|
      invariant 0 <= i <= |line|
      invariant CsvFold(result, current, inQuotes, line[i..], delimiter, quote) == CsvFields(line, delimiter, quote)
    {
      var c := line[i];
      assert line[i..][1..] == line[i + 1..] && (i + 1 < |line| ==> line[i..][2..] == line[i + 2..]);
      i := i + 1;
      if c == quote {
        if inQuotes {
          if i < |line| && line[i] == quote {
            i := i + 1;
            current := current + [quote];
          } else {
            inQuotes := false;
          }
        } else {
          inQuotes := true;
        }
      } else if c == delimiter && !inQuotes {
        result := result + [current];
        current := "";
      } else {
        current := current + [c];
      }
    }
    assert line[i..] == [];
    result := result + [current];
  }

  // ----- Formatted values inside a line -----

  lemma {:induction false} FoldPlain(fields: seq<string>, current: string, v: string, rest: string,
                                     delimiter: char, quote: char)
    requires delimiter !in v && quote !in v
    ensures CsvFold(fields, current, false, v + rest, delimiter, quote)
         == CsvFold(fields, current + v, false, rest, delimiter, quote)
    decreases |v|
  {
    if v == [] {
      assert v + rest == rest && current + v == current;
    } else {
      assert (v + rest)[1..] == v[1..] + rest;
      FoldPlain(fields, current + [v[0]], v[1..], rest, delimiter, quote);
      assert current + [v[0]] + v[1..] == current + v;
    }
  }

  /** Doubled quotes are read as one; the closing quote is the one that is not followed by another. */
  lemma {:induction false} FoldQuoted(fields: seq<string>, current: string, v: string, rest: string,
                                      delimiter: char, quote: char)
    requires !StartsWith(rest, quote)
    ensures CsvFold(fields, current, true, ReplaceChar(v, quote, [quote, quote]) + ([quote] + rest), delimiter, quote)
         == CsvFold(fields, current + v, false, rest, delimiter, quote)
    decreases |v|
  {
    var text := ReplaceChar(v, quote, [quote, quote]) + ([quote] + rest);
    if v == [] {
      assert text == [quote] + rest && text[1..] == rest && current + v == current;
    } else {
      var tail := ReplaceChar(v[1..], quote, [quote, quote]) + ([quote] + rest);
      FoldQuoted(fields, current + [v[0]], v[1..], rest, delimiter, quote);
      assert current + [v[0]] + v[1..] == current + v;
      if v[0] == quote {
        assert text[0] == quote && text[1] == quote && text[2..] == tail;
      } else {
        assert text[0] == v[0] && text[1..] == tail;
      }
    }
  }

  function TextOf(value: Option<string>): string {
    if value.Some? then value.value else ""
  }

  /** A formatted value in front of a delimiter or the end of the line is read as the value. */
  lemma FoldFormatted(fields: seq<string>, value: Option<string>, rest: string, delimiter: char, quote: char)
    requires !StartsWith(rest, quote)
    ensures CsvFold(fields, "", false, FormatCsv(value, delimiter, quote, false) + rest, delimiter, quote)
         == CsvFold(fields, TextOf(value), false, rest, delimiter, quote)
  {
    var v := TextOf(value);
    if value.Some? && NeedsQuoting(v, delimiter, quote, false) {
      var body := ReplaceChar(v, quote, [quote, quote]);
      var text := [quote] + body + [quote] + rest;
      assert text[0] == quote && text[1..] == body + ([quote] + rest);
      FoldQuoted(fields, "", v, rest, delimiter, quote);
      assert "" + v == v;
    } else {
      FoldPlain(fields, "", v, rest, delimiter, quote);
      assert "" + v == v;
    }
  }

  function TextsOf(row: Row): (texts: seq<string>)
    ensures |texts| == |row| && forall i :: 0 <= i < |row| ==> texts[i] == TextOf(row[i])
  {
    seq(|row|, i requires 0 <= i < |row| => TextOf(row[i]))
  }

  lemma {:induction false} FoldRow(fields: seq<string>, row: Row, delimiter: char, quote: char)
    requires row != [] && quote != delimiter
    ensures CsvFold(fields, "", false, CsvLine(row, delimiter, quote), delimiter, quote) == fields + TextsOf(row)
    decreases |row|
  {
    var cells := FormatCsvs(row, delimiter, quote);
    if |row| == 1 {
      assert cells[0] + "" == cells[0] && TextsOf(row) == [TextOf(row[0])];
      FoldFormatted(fields, row[0], "", delimiter, quote);
    } else {
      var rest := CsvLine(row[1..], delimiter, quote);
      assert cells[1..] == FormatCsvs(row[1..], delimiter, quote);
      assert cells[0] + [delimiter] + rest == cells[0] + ([delimiter] + rest) && ([delimiter] + rest)[1..] == rest;
      FoldFormatted(fields, row[0], [delimiter] + rest, delimiter, quote);
      FoldRow(fields + [TextOf(row[0])], row[1..], delimiter, quote);
      assert fields + [TextOf(row[0])] + TextsOf(row[1..]) == fields + TextsOf(row);
    }
  }

  /** The parser inverts the formatter on every non-empty row of arbitrary strings when quote and delimiter differ. */
  lemma {:induction false} LineReadsBack(row: Row, delimiter: char, quote: char)
    requires row != [] && quote != delimiter
    ensures CsvFields(CsvLine(row, delimiter, quote), delimiter, quote) == TextsOf(row)
  {
    FoldRow([], row, delimiter, quote);
    assert [] + TextsOf(row) == TextsOf(row);
  }

  /** ... and only then: with the same character for both, two empty values come back as one. */
  lemma {:induction false} LinesReadBackIff(delimiter: char, quote: char)
    ensures (forall row: Row :: row != [] ==>
               CsvFields(CsvLine(row, delimiter, quote), delimiter, quote) == TextsOf(row))
       <==> quote != delimiter
  {
    if quote != delimiter {
      forall row: Row | row != []
        ensures CsvFields(CsvLine(row, delimiter, quote), delimiter, quote) == TextsOf(row)
      {
        LineReadsBack(row, delimiter, quote);
      }
    } else {
      var row: Row := [None, None];
      var cells := FormatCsvs(row, delimiter, quote);
      assert |cells| == 2 && cells[0] == "" && |cells[1..]| == 1 && cells[1..][0] == "";
      assert Join(cells[1..], [delimiter]) == "" && "" + [delimiter] + "" == [delimiter];
      assert CsvLine(row, delimiter, quote) == [delimiter] && [delimiter][1..] == [];
      assert CsvFold([], "", true, [], delimiter, quote) == [""];
      assert |TextsOf(row)| == 2;
    }
  }

  // ----- Whole tables -----

  function CsvLines(rows: seq<Row>, delimiter: char, quote: char): (lines: seq<string>)
    ensures |lines| == |rows|
    ensures forall i :: 0 <= i < |rows| ==> lines[i] == CsvLine(rows[i], delimiter, quote)
  {
    seq(|rows|, i requires 0 <= i < |rows| => CsvLine(rows[i], delimiter, quote))
  }

  function Names(names: seq<string>): Row {
    seq(|names|, i requires 0 <= i < |names| => Some(names[i]))
  }

  /** The text COPY TO sends, with a line of column names in front if there is a header. */
  function WriteCsv(rows: seq<Row>, header: Option<seq<string>>, delimiter: char, quote: char): string {
    Unlines((if header.Some? then [CsvLine(Names(header.value), delimiter, quote)] else [])
            + CsvLines(rows, delimiter, quote))
  }

  function ReadField(field: string, nullString: string): Option<string> {
    if field == nullString then None else Some(field)
  }

  function ReadFields(fields: seq<string>, nullString: string): (row: Row)
    ensures |row| == |fields| && forall i :: 0 <= i < |fields| ==> row[i] == ReadField(fields[i], nullString)
  {
    seq(|fields|, i requires 0 <= i < |fields| => ReadField(fields[i], nullString))
  }

  function ReadCsvLines(lines: seq<string>, delimiter: char, quote: char, nullString: string): seq<Row> {
    if lines == [] then [] else
      (if lines[0] == "" then [] else [ReadFields(CsvFields(lines[0], delimiter, quote), nullString)])
      + ReadCsvLines(lines[1..], delimiter, quote, nullString)
  }

  /** The rows COPY FROM gets out of a text; a header line is skipped. */
  function ReadCsv(content: string, header: bool, delimiter: char, quote: char, nullString: string): seq<Row> {
    var lines := Lines(content);
    ReadCsvLines(if header && lines != [] then lines[1..] else lines, delimiter, quote, nullString)
  }

  /** The line break after the last row may be missing. */
  lemma FinalBreakIsOptional(content: string, header: bool, delimiter: char, quote: char, nullString: string)
    requires EndsInside(content)
    ensures ReadCsv(content, header, delimiter, quote, nullString)
         == ReadCsv(content + "\n", header, delimiter, quote, nullString)
  {
    FinalBreakIsOptionalIff(content);
  }

  predicate GoodSeparators(delimiter: char, quote: char) {
    delimiter != quote && delimiter != '\r' && delimiter != '\n' && quote != '\r' && quote != '\n'
  }

  /** A cell that is read as what was written: NULL is written as nothing, and lines are split before quotes count. */
  predicate CellSurvives(cell: Option<string>, nullString: string) {
    if cell.None? then nullString == "" else cell.value != nullString && '\n' !in cell.value
  }

  predicate CsvRowSurvives(row: Row, nullString: string) {
    row != [] && row != [None] && row != [Some("")] && forall cell :: cell in row ==> CellSurvives(cell, nullString)
  }

  predicate NoNewlines(row: Row) {
    forall cell :: cell in row && cell.Some? ==> '\n' !in cell.value
  }

  lemma {:induction false} ReplacedMembers(s: string, c: char, rep: string, x: char)
    requires x in ReplaceChar(s, c, rep)
    ensures x in s || x in rep
  {
    if s != [] && x !in (if s[0] == c then rep else [s[0]]) {
      ReplacedMembers(s[1..], c, rep, x);
    }
  }

  lemma FormattedIsClean(value: Option<string>, delimiter: char, quote: char)
    requires GoodSeparators(delimiter, quote) && (value.Some? ==> '\n' !in value.value)
    ensures var cell := FormatCsv(value, delimiter, quote, false); '\n' !in cell && !EndsWith(cell, '\r')
  {
    if value.Some? && NeedsQuoting(value.value, delimiter, quote, false) {
      var body := ReplaceChar(value.value, quote, [quote, quote]);
      if '\n' in body {
        ReplacedMembers(value.value, quote, [quote, quote], '\n');
      }
    }
  }

  /** A row without LF in its values is one line, and CR is never its last character. */
  lemma CsvLineIsClean(row: Row, delimiter: char, quote: char)
    requires GoodSeparators(delimiter, quote) && NoNewlines(row)
    ensures var line := CsvLine(row, delimiter, quote); '\n' !in line && StripCr(line) == line
  {
    var cells := FormatCsvs(row, delimiter, quote);
    forall i | 0 <= i < |row|
      ensures '\n' !in cells[i] && !EndsWith(cells[i], '\r')
    {
      assert row[i] in row;
      FormattedIsClean(row[i], delimiter, quote);
    }
    JoinedIsClean(cells, [delimiter], '\n');
    if row != [] {
      JoinEnd(cells, [delimiter], '\r');
    }
  }

  /** Only a lone NULL or empty string, or no column at all, makes an empty line. */
  lemma EmptyCsvLine(row: Row, delimiter: char, quote: char)
    ensures CsvLine(row, delimiter, quote) == "" <==> row == [] || row == [None] || row == [Some("")]
  {
    var cells := FormatCsvs(row, delimiter, quote);
    if |row| == 1 {
      assert row == [row[0]] && cells == [cells[0]];
    } else if |row| > 1 {
      assert |CsvLine(row, delimiter, quote)| >= |[delimiter]|;
    }
  }

  lemma {:induction false} ReadCsvLinesIsShorter(lines: seq<string>, delimiter: char, quote: char, nullString: string)
    ensures |ReadCsvLines(lines, delimiter, quote, nullString)| <= |lines|
  {
    if lines != [] {
      ReadCsvLinesIsShorter(lines[1..], delimiter, quote, nullString);
    }
  }

  lemma FieldsSurviveIff(row: Row, nullString: string)
    requires NoNewlines(row)
    ensures ReadFields(TextsOf(row), nullString) == row
       <==> forall cell :: cell in row ==> CellSurvives(cell, nullString)
  {
    forall i | 0 <= i < |row|
      ensures ReadField(TextOf(row[i]), nullString) == row[i] <==> CellSurvives(row[i], nullString)
    {
      assert row[i] in row;
    }
    if ReadFields(TextsOf(row), nullString) == row {
      forall cell | cell in row
        ensures CellSurvives(cell, nullString)
      {
        var i :| 0 <= i < |row| && cell == row[i];
      }
    }
  }

  lemma {:induction false} CsvLinesReadBackIff(rows: seq<Row>, delimiter: char, quote: char, nullString: string)
    requires quote != delimiter && forall row :: row in rows ==> row != [] && NoNewlines(row)
    ensures ReadCsvLines(CsvLines(rows, delimiter, quote), delimiter, quote, nullString) == rows
       <==> forall row :: row in rows ==> CsvRowSurvives(row, nullString)
  {
    if rows != [] {
      var lines := CsvLines(rows, delimiter, quote);
      var head, tail := ReadFields(CsvFields(lines[0], delimiter, quote), nullString),
                        ReadCsvLines(lines[1..], delimiter, quote, nullString);
      assert rows == [rows[0]] + rows[1..] && rows[0] in rows;
      assert lines[1..] == CsvLines(rows[1..], delimiter, quote);
      assert forall row :: row in rows[1..] ==> row in rows;
      CsvLinesReadBackIff(rows[1..], delimiter, quote, nullString);
      EmptyCsvLine(rows[0], delimiter, quote);
      ReadCsvLinesIsShorter(lines[1..], delimiter, quote, nullString);
      LineReadsBack(rows[0], delimiter, quote);
      FieldsSurviveIff(rows[0], nullString);
      SameHeadAndTail(head, tail, rows);
      if lines[0] == "" {
        assert ReadCsvLines(lines, delimiter, quote, nullString) == tail;
        assert !CsvRowSurvives(rows[0], nullString);
      } else {
        assert ReadCsvLines(lines, delimiter, quote, nullString) == [head] + tail;
        assert CsvRowSurvives(rows[0], nullString) <==> head == rows[0];
      }
    }
  }

  /** Whatever the text, the rows read from it have at least one column and no LF in a value. */
  lemma {:induction false} ReadCsvLinesAreReadable(lines: seq<string>, delimiter: char, quote: char, nullString: string)
    requires quote != '\n' && forall line :: line in lines ==> '\n' !in line
    ensures forall row :: row in ReadCsvLines(lines, delimiter, quote, nullString) ==> row != [] && NoNewlines(row)
  {
    if lines != [] {
      assert lines[0] in lines;
      ReadCsvLinesAreReadable(lines[1..], delimiter, quote, nullString);
      FoldHasNoNewlines([], "", false, lines[0], delimiter, quote);
      FieldsHaveNoNewlines(CsvFields(lines[0], delimiter, quote), nullString);
    }
  }

  lemma {:induction false} FoldHasNoNewlines(fields: seq<string>, current: string, inQuotes: bool, s: string,
                                             delimiter: char, quote: char)
    requires quote != '\n' && '\n' !in s && '\n' !in current && forall field :: field in fields ==> '\n' !in field
    ensures var r := CsvFold(fields, current, inQuotes, s, delimiter, quote);
            r != [] && forall field :: field in r ==> '\n' !in field
    decreases |s|
  {
    if s != [] {
      if s[0] == quote {
        if !inQuotes {
          FoldHasNoNewlines(fields, current, true, s[1..], delimiter, quote);
        } else if |s| > 1 && s[1] == quote {
          FoldHasNoNewlines(fields, current + [quote], true, s[2..], delimiter, quote);
        } else {
          FoldHasNoNewlines(fields, current, false, s[1..], delimiter, quote);
        }
      } else if s[0] == delimiter && !inQuotes {
        FoldHasNoNewlines(fields + [current], "", false, s[1..], delimiter, quote);
      } else {
        FoldHasNoNewlines(fields, current + [s[0]], inQuotes, s[1..], delimiter, quote);
      }
    }
  }

  lemma FieldsHaveNoNewlines(fields: seq<string>, nullString: string)
    requires forall field :: field in fields ==> '\n' !in field
    ensures NoNewlines(ReadFields(fields, nullString))
  {
    forall cell | cell in ReadFields(fields, nullString) && cell.Some?
      ensures '\n' !in cell.value
    {
      var i :| 0 <= i < |fields| && cell == ReadFields(fields, nullString)[i];
      assert fields[i] in fields;
    }
  }

  lemma CsvLinesAreLines(rows: seq<Row>, header: Option<seq<string>>, delimiter: char, quote: char)
    requires GoodSeparators(delimiter, quote) && forall row :: row in rows ==> NoNewlines(row)
    requires header.Some? ==> NoNewlines(Names(header.value))
    ensures Lines(WriteCsv(rows, header, delimiter, quote))
         == (if header.Some? then [CsvLine(Names(header.value), delimiter, quote)] else [])
            + CsvLines(rows, delimiter, quote)
  {
    var head := if header.Some? then [CsvLine(Names(header.value), delimiter, quote)] else [];
    var lines := head + CsvLines(rows, delimiter, quote);
    forall line | line in lines
      ensures '\n' !in line && StripCr(line) == line
    {
      if line in head {
        CsvLineIsClean(Names(header.value), delimiter, quote);
      } else {
        var i :| 0 <= i < |rows| && line == CsvLines(rows, delimiter, quote)[i];
        CsvLineIsClean(rows[i], delimiter, quote);
      }
    }
    LinesOfUnlines(lines);
    assert StripAll(lines) == lines;
  }

  /** A table comes back exactly when no row is empty or a lone NULL or empty string, no value contains LF or equals
      the null marker, and there is no NULL unless the null marker is the empty string. */
  lemma {:induction false} CsvRoundTripIff(rows: seq<Row>, header: Option<seq<string>>, delimiter: char, quote: char,
                                           nullString: string)
    requires GoodSeparators(delimiter, quote) && (header.Some? ==> NoNewlines(Names(header.value)))
    ensures ReadCsv(WriteCsv(rows, header, delimiter, quote), header.Some?, delimiter, quote, nullString) == rows
       <==> forall row :: row in rows ==> CsvRowSurvives(row, nullString)
  {
    if forall row :: row in rows ==> row != [] && NoNewlines(row) {
      BodyIsFound(rows, header, delimiter, quote, nullString);
      CsvLinesReadBackIff(rows, delimiter, quote, nullString);
    } else {
      ReadRowsAreReadable(WriteCsv(rows, header, delimiter, quote), header.Some?, delimiter, quote, nullString);
      assert forall row :: CsvRowSurvives(row, nullString) ==> row != [] && NoNewlines(row);
    }
  }

  lemma BodyIsFound(rows: seq<Row>, header: Option<seq<string>>, delimiter: char, quote: char, nullString: string)
    requires GoodSeparators(delimiter, quote) && (header.Some? ==> NoNewlines(Names(header.value)))
    requires forall row :: row in rows ==> NoNewlines(row)
    ensures ReadCsv(WriteCsv(rows, header, delimiter, quote), header.Some?, delimiter, quote, nullString)
         == ReadCsvLines(CsvLines(rows, delimiter, quote), delimiter, quote, nullString)
  {
    CsvLinesAreLines(rows, header, delimiter, quote);
    if header.Some? {
      var head, lines := CsvLine(Names(header.value), delimiter, quote), CsvLines(rows, delimiter, quote);
      assert ([head] + lines)[1..] == lines;
    } else {
      assert [] + CsvLines(rows, delimiter, quote) == CsvLines(rows, delimiter, quote);
    }
  }

  lemma ReadRowsAreReadable(content: string, header: bool, delimiter: char, quote: char, nullString: string)
    requires GoodSeparators(delimiter, quote)
    ensures forall row :: row in ReadCsv(content, header, delimiter, quote, nullString) ==> row != [] && NoNewlines(row)
  {
    var lines := Lines(content);
    var body := if header && lines != [] then lines[1..] else lines;
    assert forall line :: line in body ==> line in lines;
    ReadCsvLinesAreReadable(body, delimiter, quote, nullString);
  }

  lemma NamesAreTexts(names: seq<string>)
    ensures TextsOf(Names(names)) == names
  {
  }

  /** The first line of an export with a header is read as the column names, in their order. */
  lemma HeaderReadsBack(rows: seq<Row>, names: seq<string>, delimiter: char, quote: char)
    requires GoodSeparators(delimiter, quote) && names != [] && forall name :: name in names ==> '\n' !in name
    ensures var lines := Lines(WriteCsv(rows, Some(names), delimiter, quote));
            lines != [] && CsvFields(lines[0], delimiter, quote) == names
  {
    var row, rest := Names(names), Unlines(CsvLines(rows, delimiter, quote));
    var line := CsvLine(row, delimiter, quote);
    forall cell | cell in row
      ensures cell.Some? && '\n' !in cell.value
    {
      var i :| 0 <= i < |row| && row[i] == cell;
      assert names[i] in names;
    }
    CsvLineIsClean(row, delimiter, quote);
    LineReadsBack(row, delimiter, quote);
    NamesAreTexts(names);
    var lines := [line] + CsvLines(rows, delimiter, quote);
    assert lines[0] == line && lines[1..] == CsvLines(rows, delimiter, quote);
    LineInFront(line, rest);
  }
}
