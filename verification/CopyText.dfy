/** COPY in text format (src/copy.rs): what COPY TO writes and what COPY FROM makes of it. */
module CopyText {
  import opened Sequences
  import opened Wrappers
  import opened Text

  type Row = seq<Option<string>>

  // ----- Escaping -----

  /** `escape_text_value`; TAB as escape character means that nothing is escaped. */
  function EscapeChar(c: char, esc: char): string {
    if c == '\n' then [esc, 'n']
    else if c == '\t' then [esc, 't']
    else if c == '\r' then [esc, 'r']
    else if c == esc then [esc, esc]
    else [c]
  }

  function EscapeAll(s: string, esc: char): string {
    if s == [] then "" else EscapeChar(s[0], esc) + EscapeAll(s[1..], esc)
  }

  function EscapeText(s: string, esc: char): string {
    if esc == '\t' then s else EscapeAll(s, esc)
  }

  method EscapeTextValue(value: string, esc: char) returns (result: string)
    ensures result == EscapeText(value, esc)
  {
    if esc == '\t' {
      return value;
    }
    result := "";
    for i := 0 to |value|
      invariant result + EscapeAll(value[i..], esc) == EscapeAll(value, esc)
    {
      var c := value[i];
      ghost var before := result;
      assert value[i..][1..] == value[i + 1..];
      if c == '\n' {
        result := result + [esc];
        result := result + ['n'];
      } else if c == '\t' {
        result := result + [esc];
        result := result + ['t'];
      } else if c == '\r' {
        result := result + [esc];
        result := result + ['r'];
      } else if c == esc {
        result := result + [esc];
        result := result + [esc];
      } else {
        result := result + [c];
      }
      assert result == before + EscapeChar(c, esc);
      Assoc(before, EscapeChar(c, esc), EscapeAll(value[i + 1..], esc));
    }
  }

  /** What `unescape_text_value` makes of the character after a backslash. */
  function Unescaped(c: char): string {
    match c
    case 'n' => "\n"
    case 't' => "\t"
    case 'r' => "\r"
    case '\\' => "\\"
    case _ => ['\\', c]
  }

  function UnescapeAll(s: string): string
    decreases |s|
  {
    if s == [] then ""
    else if s[0] != '\\' then [s[0]] + UnescapeAll(s[1..])
    else if |s| == 1 then "\\"
    else Unescaped(s[1]) + UnescapeAll(s[2..])
  }

  function UnescapeText(s: string, esc: char): string {
    if esc == '\t' || '\\' !in s then s else UnescapeAll(s)
  }

  method UnescapeTextValue(value: string, esc: char) returns (result: string)
    ensures result == UnescapeText(value, esc)
  {
    if esc == '\t' || '\\' !in value {
      return value;
    }
    result := "";
    var i := 0;
    while i < |value|
      invariant 0 <= i <= |value|
      invariant result + UnescapeAll(value[i..]) == UnescapeAll(value)
    {
      ghost var before := result;
      var c := value[i];
      i := i + 1;
      if c == '\\' {
        if i < |value| {
          assert value[i - 1..][2..] == value[i + 1..];
          result := result + Unescaped(value[i]);
          Assoc(before, Unescaped(value[i]), UnescapeAll(value[i + 1..]));
          i := i + 1;
        } else {
          result := result + ['\\'];
          assert value[i..] == "" && UnescapeAll(value[i - 1..]) == "\\";
        }
      } else {
        assert value[i - 1..][1..] == value[i..];
        result := result + [c];
        Assoc(before, [c], UnescapeAll(value[i..]));
      }
    }
    assert value[i..] == "";
  }

  // ----- Writing and reading tables -----

  function FormatCell(cell: Option<string>, nullString: string, esc: char): string {
    if cell.None? then nullString else EscapeText(cell.value, esc)
  }

  function FormatCells(row: Row, nullString: string, esc: char): (cells: seq<string>)
    ensures |cells| == |row|
    ensures forall i :: 0 <= i < |row| ==> cells[i] == FormatCell(row[i], nullString, esc)
  {
    seq(|row|, i requires 0 <= i < |row| => FormatCell(row[i], nullString, esc))
  }

  function RowLine(row: Row, delimiter: char, nullString: string, esc: char): string {
    Join(FormatCells(row, nullString, esc), [delimiter])
  }

  function RowLines(rows: seq<Row>, delimiter: char, nullString: string, esc: char): (lines: seq<string>)
    ensures |lines| == |rows|
    ensures forall i :: 0 <= i < |rows| ==> lines[i] == RowLine(rows[i], delimiter, nullString, esc)
  {
    seq(|rows|, i requires 0 <= i < |rows| => RowLine(rows[i], delimiter, nullString, esc))
  }

  /** The text COPY TO sends. */
  function WriteText(rows: seq<Row>, delimiter: char, nullString: string, esc: char): string {
    Unlines(RowLines(rows, delimiter, nullString, esc))
  }

  function ReadCell(text: string, nullString: string, esc: char): Option<string> {
    if text == nullString then None else Some(UnescapeText(text, esc))
  }

  function ReadCells(texts: seq<string>, nullString: string, esc: char): (row: Row)
    ensures |row| == |texts|
    ensures forall i :: 0 <= i < |texts| ==> row[i] == ReadCell(texts[i], nullString, esc)
  {
    seq(|texts|, i requires 0 <= i < |texts| => ReadCell(texts[i], nullString, esc))
  }

  /** Empty lines are skipped. */
  function ReadLines(lines: seq<string>, delimiter: char, nullString: string, esc: char): seq<Row> {
    if lines == [] then [] else
      (if lines[0] == "" then [] else [ReadCells(Split(lines[0], delimiter), nullString, esc)])
      + ReadLines(lines[1..], delimiter, nullString, esc)
  }

  /** The rows COPY FROM gets out of a text. */
  function ReadText(content: string, delimiter: char, nullString: string, esc: char): seq<Row> {
    ReadLines(Lines(content), delimiter, nullString, esc)
  }

  /** The line break after the last row may be missing. */
  lemma FinalBreakIsOptional(content: string, delimiter: char, nullString: string, esc: char)
    requires EndsInside(content)
    ensures ReadText(content, delimiter, nullString, esc) == ReadText(content + "\n", delimiter, nullString, esc)
  {
    FinalBreakIsOptionalIff(content);
  }

  // ----- Escape character backslash -----

  lemma UnescapeEscapedChar(c: char, rest: string)
    ensures UnescapeAll(EscapeChar(c, '\\') + rest) == [c] + UnescapeAll(rest)
  {
    var e := EscapeChar(c, '\\');
    if |e| == 2 {
      assert (e + rest)[2..] == rest && (e + rest)[0] == e[0] && (e + rest)[1] == e[1];
    } else {
      assert (e + rest)[1..] == rest;
    }
  }

  lemma {:induction false} UnescapeAllInvertsEscape(s: string)
    ensures UnescapeAll(EscapeAll(s, '\\')) == s
  {
    if s != [] {
      UnescapeEscapedChar(s[0], EscapeAll(s[1..], '\\'));
      UnescapeAllInvertsEscape(s[1..]);
    }
  }

  lemma {:induction false} UnescapeAllWithoutBackslash(s: string)
    requires '\\' !in s
    ensures UnescapeAll(s) == s
  {
    if s != [] {
      UnescapeAllWithoutBackslash(s[1..]);
    }
  }

  /** With backslash as escape character unescaping inverts escaping on every string. */
  lemma {:induction false} UnescapeInvertsEscape(s: string)
    ensures UnescapeText(EscapeText(s, '\\'), '\\') == s
  {
    UnescapeAllInvertsEscape(s);
    if '\\' !in EscapeAll(s, '\\') {
      UnescapeAllWithoutBackslash(EscapeAll(s, '\\'));
    }
  }

  /** An escaped value contains no raw TAB, CR or LF. */
  lemma {:induction false} EscapedIsClean(s: string, esc: char)
    requires esc != '\t' && esc != '\r' && esc != '\n'
    ensures var e := EscapeText(s, esc); '\t' !in e && '\r' !in e && '\n' !in e
  {
    if s != [] {
      EscapedIsClean(s[1..], esc);
    }
  }

  /** An escaped value never equals the null marker `\N`. */
  lemma EscapedIsNotNull(s: string)
    ensures EscapeText(s, '\\') != "\\N"
  {
    if s != [] {
      var e, head := EscapeText(s, '\\'), EscapeChar(s[0], '\\');
      assert e[0] == head[0] && (|head| == 2 ==> e[1] == head[1]);
    }
  }

  /** The null marker stays within a line. */
  predicate CleanNull(nullString: string) {
    '\r' !in nullString && '\n' !in nullString
  }

  lemma CellsAreClean(row: Row, nullString: string, x: char)
    requires x in "\t\r\n" && x !in nullString
    ensures forall cell :: cell in FormatCells(row, nullString, '\\') ==> x !in cell
  {
    forall cell | cell in FormatCells(row, nullString, '\\')
      ensures x !in cell
    {
      var i :| 0 <= i < |row| && cell == FormatCells(row, nullString, '\\')[i];
      if row[i].Some? {
        EscapedIsClean(row[i].value, '\\');
      }
    }
  }

  lemma LineIsClean(row: Row, delimiter: char, nullString: string)
    requires CleanNull(nullString) && CleanNull([delimiter])
    ensures var line := RowLine(row, delimiter, nullString, '\\'); '\r' !in line && '\n' !in line
  {
    var cells := FormatCells(row, nullString, '\\');
    CellsAreClean(row, nullString, '\r');
    CellsAreClean(row, nullString, '\n');
    assert delimiter in [delimiter];
    JoinedIsClean(cells, [delimiter], '\r');
    JoinedIsClean(cells, [delimiter], '\n');
  }

  lemma LinesAreFound(rows: seq<Row>, delimiter: char, nullString: string)
    requires CleanNull(nullString) && CleanNull([delimiter])
    ensures Lines(WriteText(rows, delimiter, nullString, '\\')) == RowLines(rows, delimiter, nullString, '\\')
  {
    var lines := RowLines(rows, delimiter, nullString, '\\');
    forall line | line in lines
      ensures '\n' !in line && StripCr(line) == line
    {
      var i :| 0 <= i < |rows| && line == lines[i];
      LineIsClean(rows[i], delimiter, nullString);
    }
    LinesOfUnlines(lines);
    assert StripAll(lines) == lines;
  }

  /** A row as it comes back: a value whose escaped form is the null marker turns into NULL. */
  function Marked(row: Row, nullString: string): (marked: Row)
    ensures |marked| == |row|
  {
    seq(|row|, i requires 0 <= i < |row| =>
      if row[i].Some? && EscapeText(row[i].value, '\\') == nullString then None else row[i])
  }

  /** The rows that come back: those not written as an empty line. */
  function Kept(rows: seq<Row>, nullString: string): seq<Row> {
    if rows == [] then [] else
      (if RowLine(rows[0], '\t', nullString, '\\') == "" then [] else [Marked(rows[0], nullString)])
      + Kept(rows[1..], nullString)
  }

  /** No cell has the delimiter in it when written. Whatever the delimiter is, only TAB is escaped. */
  predicate Separated(row: Row, delimiter: char, nullString: string) {
    forall cell :: cell in FormatCells(row, nullString, '\\') ==> delimiter !in cell
  }

  lemma RowReadsBack(row: Row, delimiter: char, nullString: string)
    requires row != [] && Separated(row, delimiter, nullString)
    ensures ReadCells(Split(RowLine(row, delimiter, nullString, '\\'), delimiter), nullString, '\\')
         == Marked(row, nullString)
  {
    var cells := FormatCells(row, nullString, '\\');
    SplitOfJoin(cells, delimiter);
    forall i | 0 <= i < |row|
      ensures ReadCell(cells[i], nullString, '\\') == Marked(row, nullString)[i]
    {
      if row[i].Some? {
        UnescapeInvertsEscape(row[i].value);
      }
    }
  }

  lemma {:induction false} RowLinesReadBack(rows: seq<Row>, nullString: string)
    requires '\t' !in nullString
    ensures ReadLines(RowLines(rows, '\t', nullString, '\\'), '\t', nullString, '\\') == Kept(rows, nullString)
  {
    if rows != [] {
      var lines := RowLines(rows, '\t', nullString, '\\');
      if lines[0] != "" {
        CellsAreClean(rows[0], nullString, '\t');
        RowReadsBack(rows[0], '\t', nullString);
      }
      RowLinesReadBack(rows[1..], nullString);
      assert lines[1..] == RowLines(rows[1..], '\t', nullString, '\\');
    }
  }

  /** Reading what was written, for every table and every null marker without TAB, CR and LF. */
  lemma {:induction false} TextReadsBack(rows: seq<Row>, nullString: string)
    requires CleanNull(nullString) && '\t' !in nullString
    ensures ReadText(WriteText(rows, '\t', nullString, '\\'), '\t', nullString, '\\') == Kept(rows, nullString)
  {
    LinesAreFound(rows, '\t', nullString);
    RowLinesReadBack(rows, nullString);
  }

  lemma {:induction false} ReadLinesIsShorter(lines: seq<string>, delimiter: char, nullString: string, esc: char)
    ensures |ReadLines(lines, delimiter, nullString, esc)| <= |lines|
  {
    if lines != [] {
      ReadLinesIsShorter(lines[1..], delimiter, nullString, esc);
    }
  }

  lemma SameHeadAndTail(head: Row, tail: seq<Row>, rows: seq<Row>)
    requires rows != []
    ensures [head] + tail == rows <==> head == rows[0] && tail == rows[1..]
  {
    assert ([head] + tail)[0] == head && ([head] + tail)[1..] == tail;
    assert [rows[0]] + rows[1..] == rows;
  }

  lemma JoinedIsClean(parts: seq<string>, sep: string, x: char)
    requires x !in sep && forall part :: part in parts ==> x !in part
    ensures x !in Join(parts, sep)
  {
    if x in Join(parts, sep) {
      JoinMembers(parts, sep, x);
    }
  }

  lemma {:induction false} JoinEnd(parts: seq<string>, sep: string, c: char)
    requires parts != [] && sep != "" && sep[|sep| - 1] != c
    ensures EndsWith(Join(parts, sep), c) <==> EndsWith(parts[|parts| - 1], c)
    decreases |parts|
  {
    if |parts| > 1 {
      JoinEnd(parts[1..], sep, c);
    }
  }

  // ----- Whole tables, whatever the options -----

  predicate StaysOnLine(c: char) {
    c != '\n' && c != '\r'
  }

  /** The cell's text has no separator in it, and the cell can be told from it. */
  predicate ComesBack(cell: Option<string>, delimiter: char, nullString: string, esc: char) {
    var text := FormatCell(cell, nullString, esc);
    delimiter !in text && '\n' !in text && ReadCell(text, nullString, esc) == cell
  }

  /** Every cell comes back, and the line is neither empty nor cut at its end. */
  predicate Survives(row: Row, delimiter: char, nullString: string, esc: char) {
    (forall cell :: cell in row ==> ComesBack(cell, delimiter, nullString, esc))
    && RowLine(row, delimiter, nullString, esc) != "" && !EndsWith(RowLine(row, delimiter, nullString, esc), '\r')
  }

  predicate NoNewlineIn(row: Row, nullString: string, esc: char) {
    forall i :: 0 <= i < |row| ==> '\n' !in FormatCell(row[i], nullString, esc)
  }

  /** Without the CR at its end a text is read as something else. */
  lemma CutTextIsOther(cell: Option<string>, nullString: string, esc: char, cut: string)
    requires StaysOnLine(esc) && FormatCell(cell, nullString, esc) == cut + "\r"
    ensures ReadCell(cut, nullString, esc) != cell
  {
    assert (cut + "\r")[|cut|] == '\r';
    if cell.Some? && esc != '\t' {
      EscapedIsClean(cell.value, esc);
    }
  }

  lemma {:induction false} JoinCut(parts: seq<string>, sep: string, cut: string)
    requires parts != [] && parts[|parts| - 1] == cut + "\r"
    ensures Join(parts, sep) == Join(parts[|parts| - 1 := cut], sep) + "\r"
    decreases |parts|
  {
    var others := parts[|parts| - 1 := cut];
    if |parts| > 1 {
      JoinCut(parts[1..], sep, cut);
      assert others[1..] == parts[1..][|parts| - 2 := cut];
      Assoc(parts[0] + sep, Join(others[1..], sep), "\r");
    }
  }

  /** Texts are found again in their line exactly if none has the delimiter in it. */
  lemma TextsAreFoundIff(texts: seq<string>, delimiter: char)
    requires texts != []
    ensures |Split(Join(texts, [delimiter]), delimiter)| == |texts| ==>
              forall text :: text in texts ==> delimiter !in text
    ensures (forall text :: text in texts ==> delimiter !in text) ==>
              Split(Join(texts, [delimiter]), delimiter) == texts
  {
    SplitWidth(texts, delimiter);
    if forall text :: text in texts ==> delimiter !in text {
      SplitOfJoin(texts, delimiter);
    }
  }

  lemma WholeLineReadsBackIff(row: Row, delimiter: char, nullString: string, esc: char)
    requires row != [] && NoNewlineIn(row, nullString, esc)
    ensures ReadCells(Split(RowLine(row, delimiter, nullString, esc), delimiter), nullString, esc) == row
       <==> forall cell :: cell in row ==> ComesBack(cell, delimiter, nullString, esc)
  {
    var texts := FormatCells(row, nullString, esc);
    var parts := Split(RowLine(row, delimiter, nullString, esc), delimiter);
    TextsAreFoundIff(texts, delimiter);
    if ReadCells(parts, nullString, esc) == row {
      forall cell | cell in row
        ensures ComesBack(cell, delimiter, nullString, esc)
      {
        var i :| 0 <= i < |row| && row[i] == cell;
        assert texts[i] in texts && ReadCells(parts, nullString, esc)[i] == ReadCell(texts[i], nullString, esc);
      }
    }
    if forall cell :: cell in row ==> ComesBack(cell, delimiter, nullString, esc) {
      forall text | text in texts
        ensures delimiter !in text
      {
        var i :| 0 <= i < |row| && texts[i] == text;
        assert row[i] in row;
      }
      forall i | 0 <= i < |row|
        ensures ReadCell(texts[i], nullString, esc) == row[i]
      {
        assert row[i] in row;
      }
    }
  }

  lemma CutLineIsOther(row: Row, delimiter: char, nullString: string, esc: char)
    requires StaysOnLine(delimiter) && StaysOnLine(esc) && row != []
    requires EndsWith(RowLine(row, delimiter, nullString, esc), '\r')
    ensures var line := RowLine(row, delimiter, nullString, esc);
            ReadCells(Split(line[..|line| - 1], delimiter), nullString, esc) != row
  {
    var texts, line := FormatCells(row, nullString, esc), RowLine(row, delimiter, nullString, esc);
    var last := |texts| - 1;
    JoinEnd(texts, [delimiter], '\r');
    var cut := texts[last][..|texts[last]| - 1];
    assert texts[last] == cut + "\r";
    JoinCut(texts, [delimiter], cut);
    var others := texts[last := cut];
    assert line[..|line| - 1] == Join(others, [delimiter]);
    TextsAreFoundIff(others, delimiter);
    CutTextIsOther(row[last], nullString, esc, cut);
    var parts := Split(Join(others, [delimiter]), delimiter);
    assert parts == others || |parts| != |row|;
    assert others[last] == cut;
  }

  lemma LineReadsBackIff(row: Row, delimiter: char, nullString: string, esc: char)
    requires StaysOnLine(delimiter) && StaysOnLine(esc) && NoNewlineIn(row, nullString, esc)
    ensures var line := StripCr(RowLine(row, delimiter, nullString, esc));
            (line != "" && ReadCells(Split(line, delimiter), nullString, esc) == row)
            <==> Survives(row, delimiter, nullString, esc)
  {
    if row != [] {
      if EndsWith(RowLine(row, delimiter, nullString, esc), '\r') {
        CutLineIsOther(row, delimiter, nullString, esc);
      } else {
        WholeLineReadsBackIff(row, delimiter, nullString, esc);
      }
    }
  }

  lemma {:induction false} LinesReadBackIff(rows: seq<Row>, delimiter: char, nullString: string, esc: char)
    requires StaysOnLine(delimiter) && StaysOnLine(esc)
    requires forall row :: row in rows ==> NoNewlineIn(row, nullString, esc)
    ensures ReadLines(StripAll(RowLines(rows, delimiter, nullString, esc)), delimiter, nullString, esc) == rows
       <==> forall row :: row in rows ==> Survives(row, delimiter, nullString, esc)
  {
    if rows != [] {
      var lines := StripAll(RowLines(rows, delimiter, nullString, esc));
      assert rows == [rows[0]] + rows[1..] && rows[0] in rows;
      LineReadsBackIff(rows[0], delimiter, nullString, esc);
      LinesReadBackIff(rows[1..], delimiter, nullString, esc);
      assert lines[1..] == StripAll(RowLines(rows[1..], delimiter, nullString, esc));
      ReadLinesIsShorter(lines[1..], delimiter, nullString, esc);
      SameHeadAndTail(ReadCells(Split(lines[0], delimiter), nullString, esc),
                      ReadLines(lines[1..], delimiter, nullString, esc), rows);
    }
  }

  /** What was read has no text with a line break in it. */
  lemma {:induction false} ReadRowsHaveNoNewline(lines: seq<string>, delimiter: char, nullString: string, esc: char)
    requires StaysOnLine(esc) && forall line :: line in lines ==> '\n' !in line
    ensures forall row :: row in ReadLines(lines, delimiter, nullString, esc) ==> NoNewlineIn(row, nullString, esc)
  {
    if lines != [] {
      ReadRowsHaveNoNewline(lines[1..], delimiter, nullString, esc);
      ReadRowHasNoNewline(lines[0], delimiter, nullString, esc);
    }
  }

  lemma ReadRowHasNoNewline(line: string, delimiter: char, nullString: string, esc: char)
    requires StaysOnLine(esc) && '\n' !in line
    ensures NoNewlineIn(ReadCells(Split(line, delimiter), nullString, esc), nullString, esc)
  {
    var parts := Split(line, delimiter);
    var row := ReadCells(parts, nullString, esc);
    forall i | 0 <= i < |row|
      ensures '\n' !in FormatCell(row[i], nullString, esc)
    {
      assert parts[i] in parts;
      if row[i].Some? && esc != '\t' {
        EscapedIsClean(row[i].value, esc);
      }
    }
  }

  lemma StrippedLinesAreFound(rows: seq<Row>, delimiter: char, nullString: string, esc: char)
    requires StaysOnLine(delimiter) && forall row :: row in rows ==> NoNewlineIn(row, nullString, esc)
    ensures Lines(WriteText(rows, delimiter, nullString, esc)) == StripAll(RowLines(rows, delimiter, nullString, esc))
  {
    var lines := RowLines(rows, delimiter, nullString, esc);
    forall line | line in lines
      ensures '\n' !in line
    {
      var i :| 0 <= i < |rows| && line == lines[i];
      assert rows[i] in rows;
      JoinedIsClean(FormatCells(rows[i], nullString, esc), [delimiter], '\n');
    }
    LinesOfUnlines(lines);
  }

  /** Whatever delimiter, escape character and null marker are: a table comes back from its text exactly if every row
      survives. */
  lemma {:induction false} TextRoundTripIff(rows: seq<Row>, delimiter: char, nullString: string, esc: char)
    requires StaysOnLine(delimiter) && StaysOnLine(esc)
    ensures ReadText(WriteText(rows, delimiter, nullString, esc), delimiter, nullString, esc) == rows
       <==> forall row :: row in rows ==> Survives(row, delimiter, nullString, esc)
  {
    ReadRowsHaveNoNewline(Lines(WriteText(rows, delimiter, nullString, esc)), delimiter, nullString, esc);
    if forall row :: row in rows ==> NoNewlineIn(row, nullString, esc) {
      StrippedLinesAreFound(rows, delimiter, nullString, esc);
      LinesReadBackIff(rows, delimiter, nullString, esc);
    } else {
      var row :| row in rows && !NoNewlineIn(row, nullString, esc);
      var i :| 0 <= i < |row| && '\n' in FormatCell(row[i], nullString, esc);
      assert row[i] in row && !Survives(row, delimiter, nullString, esc);
    }
  }

  // ----- Escape character backslash -----

  /** A character that plays no part in escaping is kept, except that TAB is always written as an escape. */
  lemma {:induction false} EscapedContainsIff(s: string, x: char)
    requires x !in "\\nrt\n\r"
    ensures x in EscapeText(s, '\\') <==> x in s && x != '\t'
  {
    if s != [] {
      EscapedContainsIff(s[1..], x);
      assert x !in "\\nrt\n\r" ==> x != '\\' && x != 'n' && x != 'r' && x != 't' && x != '\n' && x != '\r' by {
        assert "\\nrt\n\r" == ['\\', 'n', 'r', 't', '\n', '\r'];
      }
      assert s == [s[0]] + s[1..];
      assert x in EscapeChar(s[0], '\\') <==> x == s[0] && x != '\t';
    }
  }

  /** With the null marker `\N` and a delimiter that is no part of an escape, every row survives unless it has no
      columns, is a lone empty string, or has a value with the delimiter in it; a TAB does no harm. */
  lemma {:induction false} StandardMarkerSurvival(row: Row, delimiter: char)
    requires delimiter !in "\\nrt\n\r" && delimiter != 'N'
    ensures Survives(row, delimiter, "\\N", '\\')
       <==> && row != [] && row != [Some("")]
            && (delimiter == '\t' || forall cell :: cell in row ==> cell.Some? ==> delimiter !in cell.value)
  {
    forall cell | cell in row
      ensures ComesBack(cell, delimiter, "\\N", '\\')
         <==> (delimiter == '\t' || (cell.Some? ==> delimiter !in cell.value))
    {
      EscapedCellComesBackIff(cell, delimiter);
    }
    LineEndsPlainly(row, delimiter);
    if |row| == 1 && row[0].Some? && row[0].value != "" {
      assert |EscapeChar(row[0].value[0], '\\')| > 0;
    }
    assert |row| == 1 ==> row == [row[0]];
  }

  lemma EscapedCellComesBackIff(cell: Option<string>, delimiter: char)
    requires delimiter !in "\\nrt\n\r" && delimiter != 'N'
    ensures ComesBack(cell, delimiter, "\\N", '\\')
       <==> (delimiter == '\t' || (cell.Some? ==> delimiter !in cell.value))
  {
    assert "\\nrt\n\r"[0] == '\\';
    if cell.Some? {
      EscapedContainsIff(cell.value, delimiter);
      EscapedIsClean(cell.value, '\\');
      EscapedIsNotNull(cell.value);
      UnescapeInvertsEscape(cell.value);
    }
  }

  lemma LineEndsPlainly(row: Row, delimiter: char)
    requires delimiter != '\r'
    ensures !EndsWith(RowLine(row, delimiter, "\\N", '\\'), '\r')
  {
    if row != [] {
      var texts, last := FormatCells(row, "\\N", '\\'), row[|row| - 1];
      JoinEnd(texts, [delimiter], '\r');
      if last.Some? {
        EscapedIsClean(last.value, '\\');
      }
    }
  }

  // ----- Other escape characters -----

  /** The writer escapes with the given character, and the reader undoes backslashes. Neither finds anything to do: no
      LF, TAB, CR or escape character, and no backslash pair that is undone. */
  predicate Inert(s: string, esc: char) {
    && (forall i :: 0 <= i < |s| ==> EscapeChar(s[i], esc) == [s[i]])
    && forall i :: 0 <= i && i + 1 < |s| && s[i] == '\\' ==> s[i + 1] !in "ntr\\"
  }

  predicate IsOther(esc: char) {
    esc != '\\' && esc != '\t' && esc != '\n' && esc != '\r'
  }

  /** Written and read. */
  function ThereAndBack(s: string, esc: char): string {
    UnescapeAll(EscapeAll(s, esc))
  }

  lemma UnescapePlain(c: char, t: string)
    requires c != '\\'
    ensures UnescapeAll([c] + t) == [c] + UnescapeAll(t)
  {
    assert ([c] + t)[1..] == t;
  }

  lemma UnescapePair(d: char, t: string)
    ensures UnescapeAll(['\\', d] + t) == Unescaped(d) + UnescapeAll(t)
  {
    assert (['\\', d] + t)[2..] == t;
  }

  lemma BackFirst(s: string, esc: char)
    requires s != "" && IsOther(esc) && s[0] != '\\'
    ensures ThereAndBack(s, esc) == EscapeChar(s[0], esc) + ThereAndBack(s[1..], esc)
  {
    var e, rest := EscapeChar(s[0], esc), EscapeAll(s[1..], esc);
    if |e| == 2 {
      UnescapePlain(e[0], [e[1]] + rest);
      UnescapePlain(e[1], rest);
      assert e + rest == [e[0]] + ([e[1]] + rest);
      assert [e[0]] + ([e[1]] + UnescapeAll(rest)) == e + UnescapeAll(rest);
    } else {
      UnescapePlain(e[0], rest);
      assert e == [e[0]];
    }
  }

  /** A backslash is read together with what the next character is written as. */
  lemma BackPair(s: string, esc: char)
    requires |s| > 1 && IsOther(esc) && s[0] == '\\'
    ensures var e := EscapeChar(s[1], esc);
            ThereAndBack(s, esc) == Unescaped(e[0]) + (e[1..] + ThereAndBack(s[2..], esc))
  {
    var e, rest := EscapeChar(s[1], esc), EscapeAll(s[2..], esc);
    assert s[1..][0] == s[1] && s[1..][1..] == s[2..];
    assert EscapeAll(s[1..], esc) == e + rest;
    assert EscapeAll(s, esc) == ['\\'] + (e + rest);
    assert ['\\'] + (e + rest) == ['\\', e[0]] + (e[1..] + rest);
    UnescapePair(e[0], e[1..] + rest);
    if |e| == 2 {
      UnescapePlain(e[1], rest);
      assert e[1..] == [e[1]];
    } else {
      assert e[1..] == "" && "" + rest == rest && "" + UnescapeAll(rest) == UnescapeAll(rest);
    }
  }

  lemma BackAlone(esc: char)
    requires IsOther(esc)
    ensures ThereAndBack("\\", esc) == "\\"
  {
    assert "\\"[1..] == "" && EscapeAll("", esc) == "";
    assert EscapeAll("\\", esc) == ['\\'] + "";
    assert ['\\'] + "" == "\\";
  }

  function Times(c: char, k: nat): (s: string)
    ensures |s| == k && forall i :: 0 <= i < k ==> s[i] == c
  {
    seq(k, i => c)
  }

  /** Doubled once, the escape character never comes out even. */
  lemma {:induction false} DoubledStaysLonger(s: string, esc: char, k: nat)
    requires IsOther(esc) && k > 0
    ensures s != Times(esc, k) + ThereAndBack(s, esc)
    decreases |s|
  {
    if s != "" && s[0] == esc {
      DoubledStaysLonger(s[1..], esc, k + 1);
      BackFirst(s, esc);
      OneMoreDoubled(esc, k, s[1..], ThereAndBack(s[1..], esc));
      assert s == [esc] + s[1..];
    } else {
      assert (Times(esc, k) + ThereAndBack(s, esc))[0] == esc;
    }
  }

  lemma OneMoreDoubled(esc: char, k: nat, rest: string, back: string)
    requires rest != Times(esc, k + 1) + back
    ensures [esc] + rest != Times(esc, k) + ([esc, esc] + back)
  {
    assert Times(esc, k) + ([esc, esc] + back) == [esc] + (Times(esc, k + 1) + back);
    SameFirst(esc, rest, Times(esc, k + 1) + back);
  }

  /** Halved once, a row of backslashes never comes out even. */
  lemma {:induction false} HalvedStaysShorter(s: string, esc: char, k: nat)
    requires IsOther(esc) && k > 0
    ensures Times('\\', k) + s != ThereAndBack(s, esc)
    decreases |s|
  {
    assert (Times('\\', k) + s)[0] == '\\';
    if s == "" {
    } else if s[0] != '\\' {
      BackFirst(s, esc);
    } else if |s| == 1 {
      BackAlone(esc);
      assert s == "\\";
    } else if s[1] == '\\' {
      HalvedStaysShorter(s[2..], esc, k + 1);
      BackPairOfBackslashes(s, esc);
      OneMoreHalved(k, s[2..], ThereAndBack(s[2..], esc));
    } else {
      PairIsNoBackslash(s, esc);
      assert (Times('\\', k) + s)[1] == '\\';
    }
  }

  lemma BackPairOfBackslashes(s: string, esc: char)
    requires |s| > 1 && IsOther(esc) && s[0] == s[1] == '\\'
    ensures s == ['\\', '\\'] + s[2..] && ThereAndBack(s, esc) == ['\\'] + ThereAndBack(s[2..], esc)
  {
    BackPair(s, esc);
    var back := ThereAndBack(s[2..], esc);
    assert "\\" + ("" + back) == ['\\'] + back;
  }

  lemma OneMoreHalved(k: nat, rest: string, back: string)
    requires Times('\\', k + 1) + rest != back
    ensures Times('\\', k) + (['\\', '\\'] + rest) != ['\\'] + back
  {
    assert Times('\\', k) + (['\\', '\\'] + rest) == ['\\'] + (Times('\\', k + 1) + rest);
    SameFirst('\\', Times('\\', k + 1) + rest, back);
  }

  /** Nothing but a pair of backslashes is read as a backslash and another one. */
  lemma PairIsNoBackslash(s: string, esc: char)
    requires |s| > 1 && IsOther(esc) && s[0] == '\\' && s[1] != '\\'
    ensures var back := ThereAndBack(s, esc);
            back != "" && (back[0] != '\\' || (|back| > 1 && back[1] != '\\'))
  {
    BackPair(s, esc);
  }

  lemma {:induction false} InertIff(s: string, esc: char)
    requires IsOther(esc)
    ensures ThereAndBack(s, esc) == s <==> Inert(s, esc)
    decreases |s|
  {
    if s == "" {
    } else if s[0] != '\\' {
      InertIff(s[1..], esc);
      FirstInertIff(s, esc);
    } else if |s| == 1 {
      BackAlone(esc);
      assert s == "\\";
    } else {
      InertIff(s[2..], esc);
      PairInertIff(s, esc);
    }
  }

  lemma InertTail(s: string, esc: char, n: nat)
    requires 1 <= n <= 2 && n <= |s| && Inert(s[..n], esc) && s[n - 1] != '\\'
    ensures Inert(s, esc) <==> Inert(s[n..], esc)
  {
    var front, back := s[..n], s[n..];
    assert forall i :: 0 <= i < n ==> s[i] == front[i];
    assert forall i :: n <= i < |s| ==> s[i] == back[i - n];
    if Inert(s, esc) {
      assert forall i :: 0 <= i < |back| ==> back[i] == s[i + n];
    }
  }

  lemma FirstInertIff(s: string, esc: char)
    requires s != "" && IsOther(esc) && s[0] != '\\'
    requires ThereAndBack(s[1..], esc) == s[1..] <==> Inert(s[1..], esc)
    ensures ThereAndBack(s, esc) == s <==> Inert(s, esc)
  {
    if EscapeChar(s[0], esc) == [s[0]] {
      PlainFirst(s, esc);
      InertTail(s, esc, 1);
    } else if s[0] == esc {
      EscapeFirst(s, esc);
    } else {
      ControlFirst(s, esc);
    }
  }

  lemma PlainFirst(s: string, esc: char)
    requires s != "" && IsOther(esc) && s[0] != '\\' && EscapeChar(s[0], esc) == [s[0]]
    ensures ThereAndBack(s, esc) == s <==> ThereAndBack(s[1..], esc) == s[1..]
    ensures Inert(s[..1], esc)
  {
    BackFirst(s, esc);
    assert s == [s[0]] + s[1..];
    SameFirst(s[0], ThereAndBack(s[1..], esc), s[1..]);
  }

  lemma EscapeFirst(s: string, esc: char)
    requires s != "" && IsOther(esc) && s[0] == esc
    ensures ThereAndBack(s, esc) != s && !Inert(s, esc)
  {
    var back := ThereAndBack(s[1..], esc);
    BackFirst(s, esc);
    DoubledStaysLonger(s[1..], esc, 1);
    assert s == [esc] + s[1..] && [esc, esc] + back == [esc] + (Times(esc, 1) + back);
    SameFirst(esc, Times(esc, 1) + back, s[1..]);
    assert |EscapeChar(s[0], esc)| == 2;
  }

  lemma ControlFirst(s: string, esc: char)
    requires s != "" && IsOther(esc) && s[0] in "\n\t\r"
    ensures ThereAndBack(s, esc) != s && !Inert(s, esc)
  {
    BackFirst(s, esc);
    assert EscapeChar(s[0], esc)[0] == esc;
  }

  lemma PairInertIff(s: string, esc: char)
    requires |s| > 1 && IsOther(esc) && s[0] == '\\'
    requires ThereAndBack(s[2..], esc) == s[2..] <==> Inert(s[2..], esc)
    ensures ThereAndBack(s, esc) == s <==> Inert(s, esc)
  {
    if s[1] == '\\' {
      PairOfBackslashes(s, esc);
    } else if s[1] in "ntr" {
      PairWithLetter(s, esc);
    } else if s[1] == esc {
      PairWithEscape(s, esc);
    } else if s[1] in "\n\t\r" {
      PairWithControl(s, esc);
    } else {
      PlainPair(s, esc);
      InertTail(s, esc, 2);
    }
  }

  lemma PlainPair(s: string, esc: char)
    requires |s| > 1 && IsOther(esc) && s[0] == '\\' && s[1] !in "\n\t\rntr\\" && s[1] != esc
    ensures ThereAndBack(s, esc) == s <==> ThereAndBack(s[2..], esc) == s[2..]
    ensures Inert(s[..2], esc)
  {
    var back := ThereAndBack(s[2..], esc);
    BackPair(s, esc);
    assert EscapeChar(s[1], esc) == [s[1]];
    assert ['\\', s[1]] + ("" + back) == ['\\'] + ([s[1]] + back);
    assert s == ['\\'] + ([s[1]] + s[2..]);
    SameFirst('\\', [s[1]] + back, [s[1]] + s[2..]);
    SameFirst(s[1], back, s[2..]);
  }

  lemma PairOfBackslashes(s: string, esc: char)
    requires |s| > 1 && IsOther(esc) && s[0] == s[1] == '\\'
    ensures ThereAndBack(s, esc) != s && !Inert(s, esc)
  {
    var back := ThereAndBack(s[2..], esc);
    BackPairOfBackslashes(s, esc);
    HalvedStaysShorter(s[2..], esc, 1);
    assert s == ['\\'] + (Times('\\', 1) + s[2..]);
    SameFirst('\\', Times('\\', 1) + s[2..], back);
  }

  lemma PairWithEscape(s: string, esc: char)
    requires |s| > 1 && IsOther(esc) && s[0] == '\\' && s[1] == esc && esc !in "ntr"
    ensures ThereAndBack(s, esc) != s && !Inert(s, esc)
  {
    var back := ThereAndBack(s[2..], esc);
    BackPair(s, esc);
    DoubledStaysLonger(s[2..], esc, 1);
    assert ['\\', esc] + ([esc] + back) == ['\\'] + ([esc] + (Times(esc, 1) + back));
    assert s == ['\\'] + ([esc] + s[2..]);
    SameFirst('\\', [esc] + (Times(esc, 1) + back), [esc] + s[2..]);
    SameFirst(esc, Times(esc, 1) + back, s[2..]);
  }

  lemma PairWithLetter(s: string, esc: char)
    requires |s| > 1 && IsOther(esc) && s[0] == '\\' && s[1] in "ntr"
    ensures ThereAndBack(s, esc) != s && !Inert(s, esc)
  {
    BackPair(s, esc);
    assert EscapeChar(s[1], esc)[0] == s[1] && Unescaped(s[1])[0] != '\\';
    assert s[0 + 1] in "ntr\\";
  }

  lemma PairWithControl(s: string, esc: char)
    requires |s| > 1 && IsOther(esc) && s[0] == '\\' && s[1] in "\n\t\r"
    ensures ThereAndBack(s, esc) != s && !Inert(s, esc)
  {
    BackPair(s, esc);
    assert EscapeChar(s[1], esc)[0] == esc;
  }

  /** With an escape character other than backslash and TAB, a value comes back exactly if it is inert, has no delimiter
      in it, and is not the null marker. */
  lemma {:induction false} OtherEscapeComesBackIff(value: string, delimiter: char, nullString: string, esc: char)
    requires IsOther(esc)
    ensures ComesBack(Some(value), delimiter, nullString, esc)
       <==> Inert(value, esc) && delimiter !in value && value != nullString
  {
    InertIff(value, esc);
    var text := EscapeAll(value, esc);
    EscapedIsClean(value, esc);
    if '\\' !in text {
      UnescapeAllWithoutBackslash(text);
    }
    if Inert(value, esc) {
      InertIsWrittenAsIs(value, esc);
    }
  }

  lemma {:induction false} InertIsWrittenAsIs(s: string, esc: char)
    requires forall i :: 0 <= i < |s| ==> EscapeChar(s[i], esc) == [s[i]]
    ensures EscapeAll(s, esc) == s
  {
    if s != "" {
      InertIsWrittenAsIs(s[1..], esc);
      assert s == [s[0]] + s[1..];
    }
  }

  // ----- The default options: TAB as escape character -----

  /** No cell of the default format may contain its separators, look like the null marker, or end the line in CR. */
  predicate PlainRow(row: Row) {
    && row != [] && row != [Some("")]
    && (forall cell :: cell in row && cell.Some? ==> PlainCell(cell.value))
    && (row[|row| - 1].Some? ==> !EndsWith(row[|row| - 1].value, '\r'))
  }

  predicate PlainCell(s: string) {
    '\t' !in s && '\n' !in s && s != "\\N"
  }

  function ReadDefault(content: string): seq<Row> {
    ReadText(content, '\t', "\\N", '\t')
  }

  function WriteDefault(rows: seq<Row>): string {
    WriteText(rows, '\t', "\\N", '\t')
  }

  lemma PlainSurvival(row: Row)
    ensures Survives(row, '\t', "\\N", '\t') <==> PlainRow(row)
  {
    assert forall cell :: ComesBack(cell, '\t', "\\N", '\t') <==> (cell.Some? ==> PlainCell(cell.value));
    if row != [] {
      JoinEnd(FormatCells(row, "\\N", '\t'), "\t", '\r');
    }
    assert |row| == 1 ==> row == [row[0]];
  }

  /** With the default options nothing is escaped: a table comes back exactly when every row is plain. */
  lemma {:induction false} DefaultRoundTripIff(rows: seq<Row>)
    ensures ReadDefault(WriteDefault(rows)) == rows <==> forall row :: row in rows ==> PlainRow(row)
  {
    TextRoundTripIff(rows, '\t', "\\N", '\t');
    forall row | row in rows
      ensures Survives(row, '\t', "\\N", '\t') <==> PlainRow(row)
    {
      PlainSurvival(row);
    }
  }

  /** In particular a value with a TAB in it comes back as two columns. */
  lemma TabSplitsDefaultValue(a: string, b: string)
    requires PlainCell(a) && PlainCell(b) && !EndsWith(b, '\r')
    ensures ReadDefault(WriteDefault([[Some(a + "\t" + b)]])) == [[Some(a), Some(b)]]
  {
    var whole := a + "\t" + b;
    var row, two := [Some(whole)], [Some(a), Some(b)];
    assert FormatCells(row, "\\N", '\t') == [whole] && FormatCells(two, "\\N", '\t') == [a, b];
    assert [a, b][1..] == [b] && Join([whole], "\t") == whole;
    assert Join([a, b], "\t") == whole && ['\t'] == "\t";
    assert RowLines([row], '\t', "\\N", '\t') == RowLines([two], '\t', "\\N", '\t');
    DefaultRoundTripIff([two]);
  }
}
