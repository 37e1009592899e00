/** COPY in binary format (src/copy.rs; "Binary Format" under File Formats in the PostgreSQL COPY reference). */
module CopyBinary {
  import opened Sequences
  import opened Wrappers

  type byte = b: int | 0 <= b < 0x100

  /** Fields are the bytes of their text. */
  type BinaryRow = seq<Option<seq<byte>>>

  // ----- Big-endian integers -----

  function Low(n: int): byte {
    var low: int := n % 0x100;
    low
  }

  /** `n as i16` in two bytes: two's complement, and wrap-around when `n` does not fit. */
  function Be16(n: int): (bytes: seq<byte>)
    ensures |bytes| == 2
  {
    [Low(n / 0x100), Low(n)]
  }

  /** `n as i32` in four bytes. */
  function Be32(n: int): (bytes: seq<byte>)
    ensures |bytes| == 4
  {
    [Low(n / 0x100_0000), Low(n / 0x1_0000), Low(n / 0x100), Low(n)]
  }

  /** `get_i16`. */
  function I16(s: seq<byte>): (n: int)
    requires |s| >= 2
    ensures -0x8000 <= n < 0x8000
  {
    var u: int := 0x100 * s[0] as int + s[1] as int;
    if u >= 0x8000 then u - 0x1_0000 else u
  }

  /** `get_i32`. */
  function I32(s: seq<byte>): (n: int)
    requires |s| >= 4
    ensures -0x8000_0000 <= n < 0x8000_0000
  {
    var u: int := 0x100_0000 * s[0] as int + 0x1_0000 * s[1] as int + 0x100 * s[2] as int + s[3] as int;
    if u >= 0x8000_0000 then u - 0x1_0000_0000 else u
  }

  lemma TwoBytes(n: int)
    ensures 0x100 * (n / 0x100 % 0x100) + n % 0x100 == n % 0x1_0000
  {
    var high := n / 0x100;
    assert n == 0x1_0000 * (high / 0x100) + (0x100 * (high % 0x100) + n % 0x100);
  }

  lemma FourBytes(n: int)
    ensures 0x100_0000 * (n / 0x100_0000 % 0x100) + 0x1_0000 * (n / 0x1_0000 % 0x100) + 0x100 * (n / 0x100 % 0x100)
            + n % 0x100 == n % 0x1_0000_0000
  {
    var high := n / 0x1_0000;
    TwoBytes(high);
    TwoBytes(n);
    assert n / 0x100_0000 == high / 0x100;
    TwoHalves(n);
  }

  lemma TwoHalves(n: int)
    ensures 0x1_0000 * (n / 0x1_0000 % 0x1_0000) + n % 0x1_0000 == n % 0x1_0000_0000
  {
    var high := n / 0x1_0000;
    assert n == 0x1_0000_0000 * (high / 0x1_0000) + (0x1_0000 * (high % 0x1_0000) + n % 0x1_0000);
  }

  lemma I16OfBe16(n: int, rest: seq<byte>)
    requires -0x8000 <= n < 0x8000
    ensures I16(Be16(n) + rest) == n
  {
    TwoBytes(n);
  }

  lemma I32OfBe32(n: int, rest: seq<byte>)
    requires -0x8000_0000 <= n < 0x8000_0000
    ensures I32(Be32(n) + rest) == n
  {
    FourBytes(n);
  }

  // ----- Writing -----

  /** `PGCOPY\n\xff\r\n\0`. */
  const SIGNATURE: seq<byte> := [0x50, 0x47, 0x43, 0x4F, 0x50, 0x59, 0x0A, 0xFF, 0x0D, 0x0A, 0x00]

  function FieldBytes(field: Option<seq<byte>>): seq<byte> {
    if field.Some? then Be32(|field.value|) + field.value else Be32(-1)
  }

  function FieldsBytes(row: BinaryRow): seq<byte> {
    if row == [] then [] else FieldBytes(row[0]) + FieldsBytes(row[1..])
  }

  function TupleBytes(row: BinaryRow): seq<byte> {
    Be16(|row|) + FieldsBytes(row)
  }

  function TuplesBytes(rows: seq<BinaryRow>): seq<byte> {
    if rows == [] then [] else TupleBytes(rows[0]) + TuplesBytes(rows[1..])
  }

  const HEADER: seq<byte> := SIGNATURE + Be32(0) + Be32(0)

  /** What COPY TO sends. The header goes out with the first tuple, so an empty table gets only the trailer. */
  function WriteBinary(rows: seq<BinaryRow>): seq<byte> {
    (if rows == [] then [] else HEADER) + TuplesBytes(rows) + Be16(-1)
  }

  method CopyToBinary(rows: seq<BinaryRow>) returns (data: seq<byte>)
    ensures data == WriteBinary(rows)
  {
    data := [];
    for i := 0 to |rows|
      invariant i == 0 <==> data == []
      invariant i > 0 ==> data + TuplesBytes(rows[i..]) == HEADER + TuplesBytes(rows)
    {
      if data == [] {
        data := HEADER;
      }
      assert rows[i..][1..] == rows[i + 1..] && rows[0..] == rows;
      ghost var before := data;
      data := data + Be16(|rows[i]|);
      ghost var start := data;
      for j := 0 to |rows[i]|
        invariant data != [] && data + FieldsBytes(rows[i][j..]) == start + FieldsBytes(rows[i])
      {
        assert rows[i][j..][1..] == rows[i][j + 1..];
        Assoc(data, FieldBytes(rows[i][j]), FieldsBytes(rows[i][j + 1..]));
        match rows[i][j]
        case Some(bytes) =>
          Assoc(data, Be32(|bytes|), bytes);
          data := data + Be32(|bytes|) + bytes;
        case None => data := data + Be32(-1);
      }
      assert rows[i][|rows[i]|..] == [] && data + [] == data;
      Assoc(before, Be16(|rows[i]|), FieldsBytes(rows[i]));
      Assoc(before, TupleBytes(rows[i]), TuplesBytes(rows[i + 1..]));
      assert data == before + TupleBytes(rows[i]);
    }
    assert rows[|rows|..] == [] && data + [] == data;
    data := data + Be16(-1);
  }

  // ----- Reading -----

  datatype Fields = FieldsError(message: string) | Fields(row: BinaryRow, rest: seq<byte>)

  /** One field: its length, and unless that is -1 its bytes; `used` is what it takes up. */
  datatype Field = BadField(message: string) | Field(value: Option<seq<byte>>, used: nat)

  function ReadField(data: seq<byte>): (f: Field)
    ensures f.Field? ==> f.used <= |data| && (f.value.Some? ==> |f.value.value| < 0x8000_0000)
  {
    if |data| < 4 then BadField("Binary COPY data too short (field length)") else
      var len := I32(data);
      if len < -1 then BadField("Invalid field length in binary COPY")
      else if len == -1 then Field(None, 4)
      else if |data| - 4 < len then BadField("Binary COPY data too short (field data)")
      else Field(Some(data[4..4 + len]), 4 + len)
  }

  function ReadFields(count: nat, data: seq<byte>): (r: Fields)
    ensures r.Fields? ==> |r.row| == count && |r.rest| <= |data|
  {
    if count == 0 then Fields([], data) else
      var field := ReadField(data);
      if field.BadField? then FieldsError(field.message)
      else FieldFirst(field.value, ReadFields(count - 1, data[field.used..]))
  }

  function FieldFirst(field: Option<seq<byte>>, more: Fields): Fields {
    if more.FieldsError? then more else Fields([field] + more.row, more.rest)
  }

  /** The rows inserted, and the error that stopped the reader, if any. Rows read before an error stay inserted. */
  datatype Import = Import(rows: seq<BinaryRow>, error: Option<string>)

  function ReadTuples(data: seq<byte>): Import
    decreases |data|
  {
    if |data| < 2 then Import([], None) else
      var count := I16(data);
      if count == -1 then Import([], None)
      else if count < 0 then Import([], Some("Invalid field count in binary COPY")) else
        var fields := ReadFields(count, data[2..]);
        if fields.FieldsError? then Import([], Some(fields.message)) else
          var more := ReadTuples(fields.rest);
          Import([fields.row] + more.rows, more.error)
  }

  function ReadBinary(data: seq<byte>): Import {
    if |data| < 11 then Import([], Some("Binary COPY data too short (signature)"))
    else if data[..11] != SIGNATURE then Import([], Some("Invalid binary COPY signature"))
    else if |data| < 15 then Import([], Some("Binary COPY data too short (flags)"))
    else if |data| < 19 then Import([], Some("Binary COPY data too short (extension)")) else
      var extension := I32(data[15..]);
      if extension > 0 && |data| - 19 < extension
      then Import([], Some("Binary COPY data too short (extension data)"))
      else ReadTuples(data[if extension > 0 then 19 + extension else 19..])
  }

  // The reader's cursor is modelled by the bytes that remain behind it.

  /** The signature, the flags and the header extension. */
  method ProcessHeader(data: seq<byte>) returns (rest: seq<byte>, error: Option<string>)
    ensures if error.Some? then ReadBinary(data) == Import([], error) else ReadBinary(data) == ReadTuples(rest)
  {
    rest, error := data, None;
    if |rest| < 11 {
      return rest, Some("Binary COPY data too short (signature)");
    }
    if rest[..11] != SIGNATURE {
      return rest, Some("Invalid binary COPY signature");
    }
    rest := rest[11..];
    if |rest| < 4 {
      return rest, Some("Binary COPY data too short (flags)");
    }
    rest := rest[4..];
    if |rest| < 4 {
      return rest, Some("Binary COPY data too short (extension)");
    }
    var extension := I32(rest);
    rest := rest[4..];
    assert data[11..][4..] == data[15..] && data[15..][4..] == data[19..];
    if extension > 0 {
      if |rest| < extension {
        return rest, Some("Binary COPY data too short (extension data)");
      }
      rest := rest[extension..];
      assert rest == data[19 + extension..];
    }
  }

  /** `process_binary_data`: it terminates and stays inside the data for any bytes whatsoever. */
  method ProcessBinaryData(data: seq<byte>) returns (rows: seq<BinaryRow>, error: Option<string>)
    ensures Import(rows, error) == ReadBinary(data)
  {
    rows := [];
    var rest: seq<byte>;
    rest, error := ProcessHeader(data);
    if error.Some? {
      return;
    }
    ghost var all := ReadTuples(rest);
    while |rest| >= 2
      invariant Continues(rows, ReadTuples(rest), all)
      decreases |rest|
    {
      var count := I16(rest);
      if count == -1 {
        break;
      }
      if count < 0 {
        NoMoreTuples(rows, rest, all);
        return rows, Some("Invalid field count in binary COPY");
      }
      var values, next, failure := ProcessFields(rest[2..], count);
      if failure.Some? {
        NoMoreTuples(rows, rest, all);
        return rows, failure;
      }
      TupleIsRead(rows, rest, all);
      rows := rows + [values];
      rest := next;
    }
    NoMoreTuples(rows, rest, all);
  }

  ghost predicate Continues(rows: seq<BinaryRow>, more: Import, all: Import) {
    rows + more.rows == all.rows && more.error == all.error
  }

  lemma NoMoreTuples(rows: seq<BinaryRow>, rest: seq<byte>, all: Import)
    requires Continues(rows, ReadTuples(rest), all) && ReadTuples(rest).rows == []
    ensures all == Import(rows, ReadTuples(rest).error)
  {
    assert rows + [] == rows;
  }

  lemma TupleIsRead(rows: seq<BinaryRow>, rest: seq<byte>, all: Import)
    requires |rest| >= 2 && I16(rest) >= 0 && ReadFields(I16(rest), rest[2..]).Fields?
    requires Continues(rows, ReadTuples(rest), all)
    ensures var fields := ReadFields(I16(rest), rest[2..]);
            Continues(rows + [fields.row], ReadTuples(fields.rest), all)
  {
    var fields := ReadFields(I16(rest), rest[2..]);
    AppendOne(rows, fields.row, ReadTuples(fields.rest).rows);
  }

  /** The loop over the fields of one tuple. */
  method ProcessFields(data: seq<byte>, count: nat) returns (values: BinaryRow, rest: seq<byte>, error: Option<string>)
    ensures ReadFields(count, data) == if error.Some? then FieldsError(error.value) else Fields(values, rest)
  {
    values, rest, error := [], data, None;
    ghost var all := ReadFields(count, data);
    for i := 0 to count
      invariant error.None? && FieldsContinue(values, ReadFields(count - i, rest), all)
    {
      var field := ProcessField(rest);
      if field.BadField? {
        FieldFails(count - i, rest, values, all);
        return values, rest, Some(field.message);
      }
      FieldIsRead(count - i, rest, values, all);
      values := values + [field.value];
      rest := rest[field.used..];
    }
    NoMoreFields(values, rest, all);
  }

  /** The body of that loop. */
  method ProcessField(data: seq<byte>) returns (field: Field)
    ensures field == ReadField(data)
  {
    var rest := data;
    if |rest| < 4 {
      return BadField("Binary COPY data too short (field length)");
    }
    var len := I32(rest);
    rest := rest[4..];
    if len == -1 {
      return Field(None, 4);
    }
    if len < 0 {
      return BadField("Invalid field length in binary COPY");
    }
    if |rest| < len {
      return BadField("Binary COPY data too short (field data)");
    }
    assert rest[..len] == data[4..4 + len];
    field := Field(Some(rest[..len]), 4 + len);
  }

  lemma FieldFails(count: nat, rest: seq<byte>, values: BinaryRow, all: Fields)
    requires count > 0 && ReadField(rest).BadField? && FieldsContinue(values, ReadFields(count, rest), all)
    ensures all == FieldsError(ReadField(rest).message)
  {
  }

  lemma NoMoreFields(values: BinaryRow, rest: seq<byte>, all: Fields)
    requires FieldsContinue(values, ReadFields(0, rest), all)
    ensures all == Fields(values, rest)
  {
    assert values + [] == values;
  }

  ghost predicate FieldsContinue(values: BinaryRow, more: Fields, all: Fields) {
    if more.FieldsError? then all == more else all == Fields(values + more.row, more.rest)
  }

  /** Reading one complete field moves it from the rest to the values. */
  lemma FieldIsRead(count: nat, rest: seq<byte>, values: BinaryRow, all: Fields)
    requires count > 0 && ReadField(rest).Field? && FieldsContinue(values, ReadFields(count, rest), all)
    ensures var field := ReadField(rest);
            FieldsContinue(values + [field.value], ReadFields(count - 1, rest[field.used..]), all)
  {
    var field := ReadField(rest);
    AppendRow(values, field.value, ReadFields(count - 1, rest[field.used..]));
  }

  lemma AppendRow(values: BinaryRow, field: Option<seq<byte>>, more: Fields)
    ensures more.Fields? ==> values + [field] + more.row == values + ([field] + more.row)
  {
  }

  // ----- The round trip -----

  lemma {:induction false} FieldsReadBack(row: BinaryRow, rest: seq<byte>)
    requires forall field :: field in row && field.Some? ==> |field.value| < 0x8000_0000
    ensures ReadFields(|row|, FieldsBytes(row) + rest) == Fields(row, rest)
  {
    if row == [] {
      assert FieldsBytes(row) + rest == rest;
    } else {
      var tail := FieldsBytes(row[1..]) + rest;
      assert row[0] in row && [row[0]] + row[1..] == row;
      Assoc(FieldBytes(row[0]), FieldsBytes(row[1..]), rest);
      FieldReadsBack(row[0], tail);
      FieldsReadBack(row[1..], rest);
    }
  }

  lemma FieldReadsBack(field: Option<seq<byte>>, tail: seq<byte>)
    requires field.Some? ==> |field.value| < 0x8000_0000
    ensures var read := ReadField(FieldBytes(field) + tail);
            read.Field? && read.value == field && (FieldBytes(field) + tail)[read.used..] == tail
  {
    var data := FieldBytes(field) + tail;
    if field.Some? {
      var len := |field.value|;
      I32OfBe32(len, field.value + tail);
      Assoc(Be32(len), field.value, tail);
      assert data[4..4 + len] == field.value && data[4 + len..] == tail;
    } else {
      I32OfBe32(-1, tail);
      assert data[4..] == tail;
    }
  }

  predicate Fits(row: BinaryRow) {
    |row| < 0x8000 && forall field :: field in row && field.Some? ==> |field.value| < 0x8000_0000
  }

  /** The trailer, with anything behind it, or too little for another row. */
  predicate IsEnd(tail: seq<byte>) {
    |tail| < 2 || I16(tail) == -1
  }

  lemma {:induction false} TuplesReadBack(rows: seq<BinaryRow>, end: seq<byte>)
    requires IsEnd(end) && forall row :: row in rows ==> Fits(row)
    ensures ReadTuples(TuplesBytes(rows) + end) == Import(rows, None)
  {
    if rows == [] {
      assert TuplesBytes(rows) + end == end;
    } else {
      assert rows[0] in rows && [rows[0]] + rows[1..] == rows;
      Assoc(TupleBytes(rows[0]), TuplesBytes(rows[1..]), end);
      TupleReadsBack(rows[0], TuplesBytes(rows[1..]) + end);
      TuplesReadBack(rows[1..], end);
    }
  }

  lemma TupleReadsBack(row: BinaryRow, tail: seq<byte>)
    requires Fits(row)
    ensures var more := ReadTuples(tail);
            ReadTuples(TupleBytes(row) + tail) == Import([row] + more.rows, more.error)
  {
    var data, fields := TupleBytes(row) + tail, FieldsBytes(row) + tail;
    Assoc(Be16(|row|), FieldsBytes(row), tail);
    assert data[2..] == fields;
    I16OfBe16(|row|, fields);
    FieldsReadBack(row, tail);
  }

  lemma {:induction false} ReadFieldsFit(count: nat, data: seq<byte>)
    ensures var r := ReadFields(count, data);
            r.Fields? ==> forall field :: field in r.row && field.Some? ==> |field.value| < 0x8000_0000
  {
    if count > 0 {
      var field := ReadField(data);
      if field.Field? {
        ReadFieldsFit(count - 1, data[field.used..]);
      }
    }
  }

  /** Whatever the bytes, the rows read fit the format's counters. */
  lemma {:induction false} ReadTuplesFit(data: seq<byte>)
    ensures forall row :: row in ReadTuples(data).rows ==> Fits(row)
    decreases |data|
  {
    if |data| >= 2 && I16(data) >= 0 {
      var fields := ReadFields(I16(data), data[2..]);
      if fields.Fields? {
        ReadFieldsFit(I16(data), data[2..]);
        ReadTuplesFit(fields.rest);
      }
    }
  }

  lemma HeaderIsRead(tuples: seq<byte>)
    ensures ReadBinary(HEADER + tuples) == ReadTuples(tuples)
  {
    var data := HEADER + tuples;
    assert data[..11] == SIGNATURE;
    assert data[15..] == Be32(0) + tuples;
    I32OfBe32(0, tuples);
    assert data[19..] == tuples;
  }

  /** A table comes back exactly when it has a row, no row has more than 32767 columns, and no field 2^31 bytes. */
  lemma {:induction false} BinaryRoundTripIff(rows: seq<BinaryRow>)
    ensures ReadBinary(WriteBinary(rows)) == Import(rows, None)
       <==> rows != [] && forall row :: row in rows ==> Fits(row)
  {
    if rows == [] {
      assert |WriteBinary(rows)| == 2;
    } else {
      var tuples := TuplesBytes(rows) + Be16(-1);
      assert WriteBinary(rows) == HEADER + tuples;
      HeaderIsRead(tuples);
      if forall row :: row in rows ==> Fits(row) {
        assert Be16(-1) + [] == Be16(-1);
        I16OfBe16(-1, []);
        TuplesReadBack(rows, Be16(-1));
      } else {
        ReadTuplesFit(tuples);
      }
    }
  }

  // ----- Which data is accepted -----

  lemma Be16OfI16(s: seq<byte>)
    requires |s| >= 2
    ensures Be16(I16(s)) == s[..2]
  {
    var u := 0x100 * s[0] as int + s[1] as int;
    assert I16(s) == u || I16(s) == u - 0x1_0000;
    assert I16(s) / 0x100 % 0x100 == s[0] && I16(s) % 0x100 == s[1];
  }

  lemma Digits(high: int, low: int)
    requires 0 <= low < 0x1_0000
    ensures (0x1_0000 * high + low) / 0x1_0000 == high && (0x1_0000 * high + low) % 0x1_0000 == low
  {
  }

  lemma Be32OfI32(s: seq<byte>)
    requires |s| >= 4
    ensures Be32(I32(s)) == s[..4]
  {
    var n, high, low := I32(s), I16(s), 0x100 * s[2] as int + s[3] as int;
    assert n == 0x1_0000 * high + low;
    Digits(high, low);
    LowerBytes(n, low, s[2], s[3]);
    Be16OfI16(s);
    assert n / 0x100_0000 == high / 0x100;
  }

  lemma LowerBytes(n: int, low: int, a: byte, b: byte)
    requires n % 0x1_0000 == low == 0x100 * a as int + b as int
    ensures n / 0x100 % 0x100 == a && n % 0x100 == b
  {
    assert n == 0x100 * (0x100 * (n / 0x1_0000) + a as int) + b as int;
  }

  lemma FieldIsWritten(data: seq<byte>)
    requires ReadField(data).Field?
    ensures var field := ReadField(data); data == FieldBytes(field.value) + data[field.used..]
  {
    var len := I32(data);
    Be32OfI32(data);
    assert data == data[..4] + data[4..];
    if len >= 0 {
      assert data[4..] == data[4..4 + len] + data[4 + len..];
      Assoc(data[..4], data[4..4 + len], data[4 + len..]);
    }
  }

  lemma {:induction false} FieldsAreWritten(count: nat, data: seq<byte>)
    requires ReadFields(count, data).Fields?
    ensures var r := ReadFields(count, data); data == FieldsBytes(r.row) + r.rest
  {
    if count == 0 {
      assert FieldsBytes([]) + data == data;
    } else {
      var field := ReadField(data);
      var more := ReadFields(count - 1, data[field.used..]);
      FieldIsWritten(data);
      FieldsAreWritten(count - 1, data[field.used..]);
      assert ([field.value] + more.row)[1..] == more.row;
      Assoc(FieldBytes(field.value), FieldsBytes(more.row), more.rest);
    }
  }

  /** What is read without an error is what the rows are written as, up to the end. */
  lemma {:induction false} TuplesAreWritten(data: seq<byte>) returns (end: seq<byte>)
    requires ReadTuples(data).error.None?
    ensures IsEnd(end) && data == TuplesBytes(ReadTuples(data).rows) + end
    decreases |data|
  {
    if IsEnd(data) {
      end := data;
      assert TuplesBytes([]) + data == data;
    } else {
      var fields := ReadFields(I16(data), data[2..]);
      FieldsAreWritten(I16(data), data[2..]);
      Be16OfI16(data);
      end := TuplesAreWritten(fields.rest);
      var rows := ReadTuples(fields.rest).rows;
      assert ([fields.row] + rows)[1..] == rows;
      assert data == data[..2] + data[2..];
      Assoc(Be16(I16(data)), FieldsBytes(fields.row), fields.rest);
      Assoc(TupleBytes(fields.row), TuplesBytes(rows), end);
    }
  }

  /** Flags of any value, a header extension with its length, rows that fit, and an end. */
  datatype Layout = Layout(flags: seq<byte>, length: int, extension: seq<byte>, end: seq<byte>)

  predicate IsLayout(l: Layout) {
    && |l.flags| == 4 && -0x8000_0000 <= l.length < 0x8000_0000
    && |l.extension| == (if l.length > 0 then l.length else 0) && IsEnd(l.end)
  }

  function Laid(l: Layout, rows: seq<BinaryRow>): seq<byte> {
    SIGNATURE + l.flags + Be32(l.length) + (l.extension + (TuplesBytes(rows) + l.end))
  }

  lemma LaidParts(l: Layout, behind: seq<byte>)
    requires IsLayout(l)
    ensures var data := SIGNATURE + l.flags + Be32(l.length) + behind;
            data[..11] == SIGNATURE && data[15..] == Be32(l.length) + behind && data[19..] == behind
  {
  }

  lemma LayoutIsRead(l: Layout, rows: seq<BinaryRow>)
    requires IsLayout(l) && forall row :: row in rows ==> Fits(row)
    ensures ReadBinary(Laid(l, rows)) == Import(rows, None)
  {
    var data, behind := Laid(l, rows), l.extension + (TuplesBytes(rows) + l.end);
    LaidParts(l, behind);
    I32OfBe32(l.length, behind);
    assert data[19 + |l.extension|..] == behind[|l.extension|..] == TuplesBytes(rows) + l.end;
    TuplesReadBack(rows, l.end);
  }

  lemma AcceptedIsLaid(data: seq<byte>) returns (l: Layout)
    requires ReadBinary(data).error.None?
    ensures IsLayout(l) && data == Laid(l, ReadBinary(data).rows)
  {
    var length := I32(data[15..]);
    var skip := if length > 0 then length else 0;
    var tuples := data[19 + skip..];
    var end := TuplesAreWritten(tuples);
    l := Layout(data[11..15], length, data[19..19 + skip], end);
    Be32OfI32(data[15..]);
    HeaderIsCut(data);
    assert data[19..] == l.extension + tuples;
  }

  lemma HeaderIsCut(data: seq<byte>)
    requires |data| >= 19
    ensures data == data[..11] + data[11..15] + data[15..][..4] + data[19..]
  {
  }

  ghost predicate IsLaidOut(data: seq<byte>, rows: seq<BinaryRow>) {
    exists l :: IsLayout(l) && data == Laid(l, rows)
  }

  lemma AcceptedRowsFit(data: seq<byte>)
    requires ReadBinary(data).error.None?
    ensures forall row :: row in ReadBinary(data).rows ==> Fits(row)
  {
    var extension := I32(data[15..]);
    ReadTuplesFit(data[if extension > 0 then 19 + extension else 19..]);
  }

  /** Data is read as these rows, without an error, exactly if it is laid out as the format demands. */
  lemma {:induction false} AcceptedIff(data: seq<byte>, rows: seq<BinaryRow>)
    ensures ReadBinary(data) == Import(rows, None)
       <==> IsLaidOut(data, rows) && forall row :: row in rows ==> Fits(row)
  {
    if ReadBinary(data) == Import(rows, None) {
      var l := AcceptedIsLaid(data);
      AcceptedRowsFit(data);
    } else if IsLaidOut(data, rows) && forall row :: row in rows ==> Fits(row) {
      var l :| IsLayout(l) && data == Laid(l, rows);
      LayoutIsRead(l, rows);
    }
  }

  // ----- An example -----

  lemma ExampleHeader()
    ensures HEADER == [
      'P' as int, 'G' as int, 'C' as int, 'O' as int, 'P' as int, 'Y' as int, '\n' as int, 0xFF, '\r' as int,
      '\n' as int, 0,
      0, 0, 0, 0,
      0, 0, 0, 0]
  {
    assert Be32(0) == [0, 0, 0, 0];
  }

  lemma ExampleFields(row: BinaryRow)
    requires row == [Some([0x41]), None]
    ensures TupleBytes(row) == [0, 2, 0, 0, 0, 1, 0x41, 0xFF, 0xFF, 0xFF, 0xFF]
  {
    assert Be16(2) == [0, 2];
    assert row[1..] == [None];
    assert FieldsBytes(row[1..]) == Be32(-1);
    assert Be32(1) == [0, 0, 0, 1] && Be32(-1) == [0xFF, 0xFF, 0xFF, 0xFF];
  }

  /** A table of one row `('A', NULL)`, byte by byte as the PostgreSQL documentation lays the format out. */
  lemma FormatExample()
    ensures WriteBinary([[Some([0x41]), None]]) == [
      'P' as int, 'G' as int, 'C' as int, 'O' as int, 'P' as int, 'Y' as int, '\n' as int, 0xFF, '\r' as int,
      '\n' as int, 0,
      0, 0, 0, 0,
      0, 0, 0, 0,
      0, 2,
      0, 0, 0, 1, 0x41,
      0xFF, 0xFF, 0xFF, 0xFF,
      0xFF, 0xFF]
  {
    var row: BinaryRow := [Some([0x41]), None];
    assert [row][1..] == [];
    ExampleHeader();
    ExampleFields(row);
    assert Be16(-1) == [0xFF, 0xFF];
    assert TuplesBytes([row]) == TupleBytes(row);
  }
}
