/** The COPY handler (src/copy.rs): its buffer, state and row counter, and the inserts it performs. */
module CopyHandling {
  import opened Sequences
  import opened Wrappers
  import opened Text
  import opened CopyText
  import Csv = CopyCsv
  import Binary = CopyBinary

  type byte = Binary.byte

  datatype CopyFormat = TextFormat | CsvFormat | BinaryFormat

  datatype CopyOptions =
    CopyOptions(format: CopyFormat, delimiter: char, quote: char, escape: char, nullString: string, header: bool)

  datatype CopyState = Idle | FromStdin(columns: seq<string>, options: CopyOptions) | ToStdout(options: CopyOptions)

  /** UTF-8 encoding, and decoding as `String::from_utf8_lossy` does it. */
  datatype Utf8 = Utf8(encode: string -> seq<byte>, decode: seq<byte> -> string)

  ghost predicate Faithful(utf8: Utf8) {
    forall s :: utf8.decode(utf8.encode(s)) == s
  }

  // ----- Inserting rows -----

  /** The table after the inserts, and their number or the error that ended them. */
  datatype Inserted = Inserted(table: seq<Row>, outcome: Result<nat>)

  const WRONG_WIDTH: string := "Wrong number of parameters passed to query"

  /** Rows are inserted one by one; an error leaves the earlier ones in place. `error` is met after the last row. */
  function InsertRows(table: seq<Row>, rows: seq<Row>, arity: nat, error: Option<string>, done: nat): Inserted
    decreases |rows|
  {
    if rows == [] then Inserted(table, if error.Some? then Err(error.value) else Ok(done))
    else if |rows[0]| != arity then Inserted(table, Err(WRONG_WIDTH))
    else InsertRows(table + [rows[0]], rows[1..], arity, error, done + 1)
  }

  predicate Rectangular(rows: seq<Row>, width: nat) {
    forall row :: row in rows ==> |row| == width
  }

  /** An import succeeds, with the number of rows, exactly if they all fit and no error is met behind them. */
  lemma {:induction false} InsertedIff(table: seq<Row>, rows: seq<Row>, arity: nat, error: Option<string>, done: nat)
    ensures InsertRows(table, rows, arity, error, done).outcome.Ok? <==> Rectangular(rows, arity) && error.None?
    ensures Rectangular(rows, arity) ==>
              InsertRows(table, rows, arity, error, done)
                == Inserted(table + rows, if error.Some? then Err(error.value) else Ok(done + |rows|))
    decreases |rows|
  {
    if rows == [] {
      assert table + rows == table;
    } else {
      assert rows == [rows[0]] + rows[1..];
      InsertedIff(table + [rows[0]], rows[1..], arity, error, done + 1);
      AppendOne(table, rows[0], rows[1..]);
    }
  }

  /** In any case the table only grows, by a prefix of the rows. */
  lemma {:induction false} InsertedIsPrefix(table: seq<Row>, rows: seq<Row>, arity: nat, error: Option<string>,
                                            done: nat)
    ensures exists n: nat :: n <= |rows| && InsertRows(table, rows, arity, error, done).table == table + rows[..n]
    decreases |rows|
  {
    if rows == [] || |rows[0]| != arity {
      assert table + rows[..0] == table;
    } else {
      InsertedIsPrefix(table + [rows[0]], rows[1..], arity, error, done + 1);
      var n: nat :| n <= |rows[1..]|
        && InsertRows(table + [rows[0]], rows[1..], arity, error, done + 1).table == table + [rows[0]] + rows[1..][..n];
      assert table + [rows[0]] + rows[1..][..n] == table + rows[..n + 1];
    }
  }

  function DecodeRow(row: Binary.BinaryRow, utf8: Utf8): (decoded: Row)
    ensures |decoded| == |row|
  {
    seq(|row|, i requires 0 <= i < |row| => if row[i].Some? then Some(utf8.decode(row[i].value)) else None)
  }

  function DecodeRows(rows: seq<Binary.BinaryRow>, utf8: Utf8): (decoded: seq<Row>)
    ensures |decoded| == |rows|
  {
    seq(|rows|, i requires 0 <= i < |rows| => DecodeRow(rows[i], utf8))
  }

  function EncodeRow(row: Row, utf8: Utf8): (encoded: Binary.BinaryRow)
    ensures |encoded| == |row|
  {
    seq(|row|, i requires 0 <= i < |row| => if row[i].Some? then Some(utf8.encode(row[i].value)) else None)
  }

  function EncodeRows(rows: seq<Row>, utf8: Utf8): (encoded: seq<Binary.BinaryRow>)
    ensures |encoded| == |rows|
  {
    seq(|rows|, i requires 0 <= i < |rows| => EncodeRow(rows[i], utf8))
  }

  // ----- What a stream of bytes means, and what a table is sent as -----

  /** The rows in the data and the error met after them. */
  function Imported(data: seq<byte>, o: CopyOptions, utf8: Utf8): (seq<Row>, Option<string>) {
    match o.format
    case TextFormat => (ReadText(utf8.decode(data), o.delimiter, o.nullString, o.escape), None)
    case CsvFormat => (Csv.ReadCsv(utf8.decode(data), o.header, o.delimiter, o.quote, o.nullString), None)
    case BinaryFormat => var r := Binary.ReadBinary(data); (DecodeRows(r.rows, utf8), r.error)
  }

  /** Text and CSV data may come without the line break behind its last row. */
  lemma FinalBreakIsOptional(data: seq<byte>, longer: seq<byte>, o: CopyOptions, utf8: Utf8)
    requires !o.format.BinaryFormat?
    requires EndsInside(utf8.decode(data)) && utf8.decode(longer) == utf8.decode(data) + "\n"
    ensures Imported(data, o, utf8) == Imported(longer, o, utf8)
  {
    FinalBreakIsOptionalIff(utf8.decode(data));
  }

  /** What inserting imported data does to a table. */
  function Received(table: seq<Row>, imported: (seq<Row>, Option<string>), arity: nat): Inserted {
    InsertRows(table, imported.0, arity, imported.1, 0)
  }

  function Exported(rows: seq<Row>, names: seq<string>, o: CopyOptions, utf8: Utf8): seq<byte> {
    match o.format
    case TextFormat => utf8.encode(WriteText(rows, o.delimiter, o.nullString, o.escape))
    case CsvFormat =>
      utf8.encode(Csv.WriteCsv(rows, if o.header then Some(names) else None, o.delimiter, o.quote))
    case BinaryFormat => Binary.WriteBinary(EncodeRows(rows, utf8))
  }

  method FormatTextRow(row: Row, o: CopyOptions) returns (line: string)
    ensures line == RowLine(row, o.delimiter, o.nullString, o.escape)
  {
    var cells: seq<string> := [];
    for j := 0 to |row|
      invariant |cells| == j
      invariant forall k :: 0 <= k < j ==> cells[k] == FormatCell(row[k], o.nullString, o.escape)
    {
      if row[j].None? {
        cells := cells + [o.nullString];
      } else {
        var escaped := EscapeTextValue(row[j].value, o.escape);
        cells := cells + [escaped];
      }
    }
    assert cells == FormatCells(row, o.nullString, o.escape);
    line := Join(cells, [o.delimiter]);
  }

  /** One line more leaves one line fewer to write. */
  lemma LineWritten(text: string, lines: seq<string>, i: nat)
    requires i < |lines|
    ensures text + lines[i] + "\n" + Unlines(lines[i + 1..]) == text + Unlines(lines[i..])
  {
    assert lines[i..][1..] == lines[i + 1..];
    Assoc(text, lines[i] + "\n", Unlines(lines[i + 1..]));
    Assoc(text, lines[i], "\n");
  }

  method FormatTextRows(rows: seq<Row>, o: CopyOptions) returns (text: string)
    ensures text == WriteText(rows, o.delimiter, o.nullString, o.escape)
  {
    text := "";
    ghost var lines := RowLines(rows, o.delimiter, o.nullString, o.escape);
    assert lines[0..] == lines;
    for i := 0 to |rows|
      invariant text + Unlines(lines[i..]) == Unlines(lines)
    {
      var line := FormatTextRow(rows[i], o);
      LineWritten(text, lines, i);
      text := text + line + "\n";
    }
  }

  method FormatCsvRow(row: Row, o: CopyOptions) returns (line: string)
    ensures line == Csv.CsvLine(row, o.delimiter, o.quote)
  {
    var cells: seq<string> := [];
    for j := 0 to |row|
      invariant |cells| == j
      invariant forall k :: 0 <= k < j ==> cells[k] == Csv.FormatCsv(row[k], o.delimiter, o.quote, false)
    {
      cells := cells + [Csv.FormatCsv(row[j], o.delimiter, o.quote, false)];
    }
    assert cells == Csv.FormatCsvs(row, o.delimiter, o.quote);
    line := Join(cells, [o.delimiter]);
  }

  method FormatCsvLines(start: string, rows: seq<Row>, o: CopyOptions) returns (text: string)
    ensures text == start + Unlines(Csv.CsvLines(rows, o.delimiter, o.quote))
  {
    text := start;
    ghost var lines := Csv.CsvLines(rows, o.delimiter, o.quote);
    assert lines[0..] == lines;
    for i := 0 to |rows|
      invariant text + Unlines(lines[i..]) == start + Unlines(lines)
    {
      var line := FormatCsvRow(rows[i], o);
      LineWritten(text, lines, i);
      text := text + line + "\n";
    }
  }

  method FormatCsvRows(rows: seq<Row>, names: seq<string>, o: CopyOptions) returns (text: string)
    ensures text == Csv.WriteCsv(rows, if o.header then Some(names) else None, o.delimiter, o.quote)
  {
    ghost var lines := Csv.CsvLines(rows, o.delimiter, o.quote);
    var start := "";
    if o.header {
      var header := FormatCsvRow(Csv.Names(names), o);
      start := header + "\n";
      assert ([header] + lines)[1..] == lines;
    } else {
      assert [] + lines == lines;
    }
    text := FormatCsvLines(start, rows, o);
  }

  method ReadTextRow(line: string, o: CopyOptions) returns (row: Row)
    ensures row == ReadCells(Split(line, o.delimiter), o.nullString, o.escape)
  {
    var parts := Split(line, o.delimiter);
    row := [];
    for j := 0 to |parts|
      invariant |row| == j
      invariant forall k :: 0 <= k < j ==> row[k] == ReadCell(parts[k], o.nullString, o.escape)
    {
      if parts[j] == o.nullString {
        row := row + [None];
      } else {
        var value := UnescapeTextValue(parts[j], o.escape);
        row := row + [Some(value)];
      }
    }
  }

  class CopyHandler {
    var state: CopyState
    var buffer: seq<byte>
    var rowCount: nat
    var table: seq<Row>
    const width: nat
    const utf8: Utf8

    constructor (table: seq<Row>, width: nat, utf8: Utf8)
      ensures state == Idle && buffer == [] && rowCount == 0
      ensures this.table == table && this.width == width && this.utf8 == utf8
    {
      state, buffer, rowCount := Idle, [], 0;
      this.table, this.width, this.utf8 := table, width, utf8;
    }

    method StartCopyFrom(columns: seq<string>, options: CopyOptions)
      modifies this`state, this`buffer, this`rowCount
      ensures state == FromStdin(columns, options) && buffer == [] && rowCount == 0
    {
      state := FromStdin(columns, options);
      buffer := [];
      rowCount := 0;
    }

    /** COPY TO: the table is sent and not changed. */
    method StartCopyTo(names: seq<string>, options: CopyOptions) returns (data: seq<byte>)
      modifies this`state
      ensures state == ToStdout(options) && data == Exported(table, names, options, utf8)
    {
      state := ToStdout(options);
      match options.format
      case TextFormat =>
        var text := FormatTextRows(table, options);
        data := utf8.encode(text);
      case CsvFormat =>
        var text := FormatCsvRows(table, names, options);
        data := utf8.encode(text);
      case BinaryFormat => data := Binary.CopyToBinary(EncodeRows(table, utf8));
    }

    /** Data arrives in chunks of any size. */
    method OnCopyData(data: seq<byte>)
      modifies this`buffer
      ensures buffer == old(buffer) + data
    {
      buffer := buffer + data;
    }

    /** Executes one INSERT; the number of values must match the statement's parameters. */
    method Insert(row: Row, arity: nat) returns (ok: bool)
      modifies this`table
      ensures ok == (|row| == arity)
      ensures table == if ok then old(table) + [row] else old(table)
    {
      ok := |row| == arity;
      if ok {
        table := table + [row];
      }
    }

    method ProcessTextData(content: string, arity: nat, o: CopyOptions) returns (outcome: Result<nat>)
      modifies this`table
      ensures Inserted(table, outcome)
           == InsertRows(old(table), ReadText(content, o.delimiter, o.nullString, o.escape), arity, None, 0)
    {
      var lines, count := Lines(content), 0;
      ghost var all := InsertRows(table, ReadLines(lines, o.delimiter, o.nullString, o.escape), arity, None, 0);
      for i := 0 to |lines|
        invariant InsertRows(table, ReadLines(lines[i..], o.delimiter, o.nullString, o.escape), arity, None, count)
               == all
      {
        assert lines[i..][1..] == lines[i + 1..];
        if lines[i] == "" {
          NoRow(ReadLines(lines[i + 1..], o.delimiter, o.nullString, o.escape));
          continue;
        }
        var row := ReadTextRow(lines[i], o);
        FirstRow(row, ReadLines(lines[i + 1..], o.delimiter, o.nullString, o.escape));
        var ok := Insert(row, arity);
        if !ok {
          return Err(WRONG_WIDTH);
        }
        count := count + 1;
      }
      outcome := Ok(count);
    }

    method ProcessCsvData(content: string, arity: nat, o: CopyOptions) returns (outcome: Result<nat>)
      modifies this`table
      ensures Inserted(table, outcome)
           == InsertRows(old(table), Csv.ReadCsv(content, o.header, o.delimiter, o.quote, o.nullString), arity, None, 0)
    {
      var lines, count := Lines(content), 0;
      var start := if o.header && lines != [] then 1 else 0;
      ghost var all := InsertRows(table, Csv.ReadCsvLines(lines[start..], o.delimiter, o.quote, o.nullString), arity,
                                  None, 0);
      for i := start to |lines|
        invariant InsertRows(table, Csv.ReadCsvLines(lines[i..], o.delimiter, o.quote, o.nullString), arity, None,
                             count) == all
      {
        assert lines[i..][1..] == lines[i + 1..];
        if lines[i] == "" {
          NoRow(Csv.ReadCsvLines(lines[i + 1..], o.delimiter, o.quote, o.nullString));
          continue;
        }
        var fields := Csv.ParseCsvLine(lines[i], o.delimiter, o.quote);
        var row := Csv.ReadFields(fields, o.nullString);
        FirstRow(row, Csv.ReadCsvLines(lines[i + 1..], o.delimiter, o.quote, o.nullString));
        var ok := Insert(row, arity);
        if !ok {
          return Err(WRONG_WIDTH);
        }
        count := count + 1;
      }
      outcome := Ok(count);
    }

    method ProcessBinaryData(data: seq<byte>, arity: nat) returns (outcome: Result<nat>)
      modifies this`table
      ensures var r := Binary.ReadBinary(data);
              Inserted(table, outcome) == InsertRows(old(table), DecodeRows(r.rows, utf8), arity, r.error, 0)
    {
      var binaryRows, error := Binary.ProcessBinaryData(data);
      var rows := DecodeRows(binaryRows, utf8);
      ghost var all := InsertRows(table, rows, arity, error, 0);
      for i := 0 to |rows|
        invariant InsertRows(table, rows[i..], arity, error, i) == all
      {
        assert rows[i..][1..] == rows[i + 1..];
        var ok := Insert(rows[i], arity);
        if !ok {
          return Err(WRONG_WIDTH);
        }
      }
      outcome := if error.Some? then Err(error.value) else Ok(|rows|);
    }

    /** The end of the data: everything received is inserted. After an error the buffer keeps the data. */
    method OnCopyDone() returns (outcome: Result<nat>)
      modifies this`table, this`buffer, this`rowCount
      ensures state.FromStdin? ==>
                Inserted(table, outcome)
                  == Received(old(table), Imported(old(buffer), state.options, utf8),
                              if state.columns != [] then |state.columns| else width)
      ensures !state.FromStdin? ==> table == old(table) && outcome == Ok(0)
      ensures outcome.Ok? ==> rowCount == outcome.value && buffer == []
      ensures outcome.Err? ==> rowCount == old(rowCount) && buffer == old(buffer)
    {
      outcome := Ok(0);
      if state.FromStdin? {
        var arity := if state.columns != [] then |state.columns| else width;
        match state.options.format
        case TextFormat => outcome := ProcessTextData(utf8.decode(buffer), arity, state.options);
        case CsvFormat => outcome := ProcessCsvData(utf8.decode(buffer), arity, state.options);
        case BinaryFormat => outcome := ProcessBinaryData(buffer, arity);
      }
      if outcome.Ok? {
        rowCount := outcome.value;
        buffer := [];
      }
    }

    method ResetState()
      modifies this`state, this`buffer, this`rowCount
      ensures state == Idle && buffer == [] && rowCount == 0
    {
      state, buffer, rowCount := Idle, [], 0;
    }
  }

  lemma FirstRow(row: Row, rest: seq<Row>)
    ensures ([row] + rest)[0] == row && ([row] + rest)[1..] == rest
  {
  }

  lemma NoRow(rest: seq<Row>)
    ensures [] + rest == rest
  {
  }

  // ----- From one handler to another -----

  /** The condition under which a table survives a transfer with the given options, decided from the table alone. */
  predicate Transferable(rows: seq<Row>, o: CopyOptions, utf8: Utf8) {
    match o.format
    case TextFormat => forall row :: row in rows ==> Survives(row, o.delimiter, o.nullString, o.escape)
    case CsvFormat => forall row :: row in rows ==> Csv.CsvRowSurvives(row, o.nullString)
    case BinaryFormat => rows != [] && forall row :: row in EncodeRows(rows, utf8) ==> Binary.Fits(row)
  }

  /** The option combinations considered: text without line breaks as separators, CSV with usable separators, and
      binary. */
  predicate Standard(o: CopyOptions, names: seq<string>) {
    match o.format
    case TextFormat => StaysOnLine(o.delimiter) && StaysOnLine(o.escape)
    case CsvFormat => Csv.GoodSeparators(o.delimiter, o.quote) && (o.header ==> Csv.NoNewlines(Csv.Names(names)))
    case BinaryFormat => true
  }

  lemma EncodedRowDecodes(row: Row, utf8: Utf8)
    requires Faithful(utf8)
    ensures DecodeRow(EncodeRow(row, utf8), utf8) == row
  {
    forall i | 0 <= i < |row|
      ensures DecodeRow(EncodeRow(row, utf8), utf8)[i] == row[i]
    {
    }
  }

  lemma EncodedRowsDecode(rows: seq<Row>, utf8: Utf8)
    requires Faithful(utf8)
    ensures DecodeRows(EncodeRows(rows, utf8), utf8) == rows
  {
    forall i | 0 <= i < |rows|
      ensures DecodeRow(EncodeRow(rows[i], utf8), utf8) == rows[i]
    {
      EncodedRowDecodes(rows[i], utf8);
    }
  }

  /** Every transferable table comes out of the other handler's import unchanged, in all three formats. */
  lemma {:induction false} TransferIsExact(rows: seq<Row>, names: seq<string>, o: CopyOptions, utf8: Utf8)
    requires Faithful(utf8) && Standard(o, names) && Transferable(rows, o, utf8)
    ensures Imported(Exported(rows, names, o, utf8), o, utf8) == (rows, None)
  {
    match o.format
    case TextFormat =>
      TextRoundTripIff(rows, o.delimiter, o.nullString, o.escape);
    case CsvFormat =>
      Csv.CsvRoundTripIff(rows, if o.header then Some(names) else None, o.delimiter, o.quote, o.nullString);
    case BinaryFormat =>
      Binary.BinaryRoundTripIff(EncodeRows(rows, utf8));
      EncodedRowsDecode(rows, utf8);
  }

  lemma AllAreReceived(table: seq<Row>, rows: seq<Row>, width: nat)
    requires Rectangular(rows, width)
    ensures Received(table, (rows, None), width) == Inserted(table + rows, Ok(|rows|))
  {
    InsertedIff(table, rows, width, None, 0);
  }

  /** What the receiving handler inserts. */
  lemma TransferIsInserted(table: seq<Row>, rows: seq<Row>, names: seq<string>, o: CopyOptions, utf8: Utf8, width: nat)
    requires Faithful(utf8) && Standard(o, names) && Transferable(rows, o, utf8)
    requires Rectangular(rows, width)
    ensures Received(table, Imported(Exported(rows, names, o, utf8), o, utf8), width)
         == Inserted(table + rows, Ok(|rows|))
  {
    TransferIsExact(rows, names, o, utf8);
    AllAreReceived(table, rows, width);
  }

  /** Delivers data in chunks of the given sizes, and the remainder in a last one. */
  method Deliver(target: CopyHandler, data: seq<byte>, sizes: seq<nat>)
    modifies target`buffer
    ensures target.buffer == old(target.buffer) + data
  {
    var sent := 0;
    for i := 0 to |sizes|
      invariant sent <= |data| && target.buffer == old(target.buffer) + data[..sent]
    {
      var next := if sent + sizes[i] <= |data| then sent + sizes[i] else |data|;
      target.OnCopyData(data[sent..next]);
      assert data[..next] == data[..sent] + data[sent..next];
      sent := next;
    }
    target.OnCopyData(data[sent..]);
    assert data == data[..sent] + data[sent..];
  }

  /** A whole COPY FROM, with its data in chunks of the given sizes. */
  method Import(target: CopyHandler, data: seq<byte>, o: CopyOptions, sizes: seq<nat>) returns (outcome: Result<nat>)
    modifies target
    ensures Inserted(target.table, outcome) == Received(old(target.table), Imported(data, o, target.utf8), target.width)
    ensures outcome.Ok? ==> target.rowCount == outcome.value
  {
    target.StartCopyFrom([], o);
    Deliver(target, data, sizes);
    assert target.buffer == data;
    outcome := target.OnCopyDone();
  }

  /** Sends the table of one handler to another, in chunks of the given sizes. */
  method Transfer(source: CopyHandler, target: CopyHandler, names: seq<string>, o: CopyOptions, sizes: seq<nat>)
    returns (outcome: Result<nat>)
    requires source != target && source.utf8 == target.utf8 && Faithful(source.utf8)
    requires Standard(o, names) && Transferable(source.table, o, source.utf8)
    requires Rectangular(source.table, target.width)
    modifies source, target
    ensures source.table == old(source.table)
    ensures target.table == old(target.table) + old(source.table)
    ensures outcome == Ok(|old(source.table)|) && target.rowCount == |old(source.table)|
  {
    ghost var rows := source.table;
    var data := source.StartCopyTo(names, o);
    TransferIsInserted(target.table, rows, names, o, target.utf8, target.width);
    outcome := Import(target, data, o, sizes);
  }
}
