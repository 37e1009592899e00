/** Array values, their JSON and Postgres-literal texts, and the hand-written readers of both
    (src/array/types.rs, src/array/utils.rs). */
module ArrayText {
  import opened Wrappers
  import opened Text

  datatype ArrayValue = OneD(elements: seq<Option<string>>) | MultiD(arrays: seq<ArrayValue>) | Empty

  // ----- Printing JSON -----

  /** The five replacements of `to_json_string`, in their order. */
  function JsonEscape(s: string): string {
    ReplaceChar(ReplaceChar(ReplaceChar(ReplaceChar(ReplaceChar(s, '\\', "\\\\"), '"', "\\\""), '\n', "\\n"),
                            '\r', "\\r"), '\t', "\\t")
  }

  function JsonElement(e: Option<string>): string {
    if e.Some? then "\"" + JsonEscape(e.value) + "\"" else "null"
  }

  function JsonElementTexts(elements: seq<Option<string>>): (texts: seq<string>)
    ensures |texts| == |elements|
    ensures forall i :: 0 <= i < |elements| ==> texts[i] == JsonElement(elements[i])
  {
    seq(|elements|, i requires 0 <= i < |elements| => JsonElement(elements[i]))
  }

  function ToJson(v: ArrayValue): string
    decreases v
  {
    match v
    case Empty => "[]"
    case OneD(elements) => "[" + Join(JsonElementTexts(elements), ",") + "]"
    case MultiD(arrays) => "[" + Join(JsonTexts(arrays), ",") + "]"
  }

  function JsonTexts(arrays: seq<ArrayValue>): (texts: seq<string>)
    ensures |texts| == |arrays|
    ensures forall i :: 0 <= i < |arrays| ==> texts[i] == ToJson(arrays[i])
    decreases arrays
  {
    if arrays == [] then [] else [ToJson(arrays[0])] + JsonTexts(arrays[1..])
  }

  // ----- Printing literals -----

  predicate NeedsQuotes(s: string) {
    ',' in s || '{' in s || '}' in s || '"' in s || s == ""
  }

  function PgElement(e: Option<string>): string {
    if e.None? then "NULL"
    else if NeedsQuotes(e.value)
    then "\"" + ReplaceChar(ReplaceChar(e.value, '\\', "\\\\"), '"', "\\\"") + "\""
    else e.value
  }

  function PgElementTexts(elements: seq<Option<string>>): (texts: seq<string>)
    ensures |texts| == |elements|
    ensures forall i :: 0 <= i < |elements| ==> texts[i] == PgElement(elements[i])
  {
    seq(|elements|, i requires 0 <= i < |elements| => PgElement(elements[i]))
  }

  function ToPg(v: ArrayValue): string
    decreases v
  {
    match v
    case Empty => "{}"
    case OneD(elements) => "{" + Join(PgElementTexts(elements), ",") + "}"
    case MultiD(arrays) => "{" + Join(PgTexts(arrays), ",") + "}"
  }

  function PgTexts(arrays: seq<ArrayValue>): (texts: seq<string>)
    ensures |texts| == |arrays|
    ensures forall i :: 0 <= i < |arrays| ==> texts[i] == ToPg(arrays[i])
    decreases arrays
  {
    if arrays == [] then [] else [ToPg(arrays[0])] + PgTexts(arrays[1..])
  }

  // ----- Splitting JSON elements -----

  datatype JsonScan =
    JsonScan(elements: seq<string>, current: string, depth: int, inString: bool, escapeNext: bool)

  const JSON_START := JsonScan([], "", 0, false, false)

  function JsonStep(st: JsonScan, c: char): JsonScan {
    var pushed := st.(current := st.current + [c]);
    if st.escapeNext then pushed.(escapeNext := false)
    else if c == '\\' && st.inString then pushed.(escapeNext := true)
    else if c == '"' then pushed.(inString := !st.inString)
    else if (c == '[' || c == '{') && !st.inString then pushed.(depth := st.depth + 1)
    else if (c == ']' || c == '}') && !st.inString then pushed.(depth := st.depth - 1)
    else if c == ',' && !st.inString && st.depth == 0
    then st.(elements := st.elements + [Trim(st.current)], current := "")
    else pushed
  }

  function JsonFold(st: JsonScan, s: string): JsonScan
    decreases |s|
  {
    if s == [] then st else JsonFold(JsonStep(st, s[0]), s[1..])
  }

  function JsonFinish(st: JsonScan): seq<string> {
    if Trim(st.current) != "" then st.elements + [Trim(st.current)] else st.elements
  }

  function JsonElements(input: string): seq<string> {
    JsonFinish(JsonFold(JSON_START, input))
  }

  method ParseJsonElements(input: string) returns (elements: seq<string>)
    ensures elements == JsonElements(input)
  {
    elements := [];
    var current, depth, inString, escapeNext := "", 0, false, false;
    for i := 0 to |input|
      invariant JsonFold(JsonScan(elements, current, depth, inString, escapeNext), input[i..])
             == JsonFold(JSON_START, input)
    {
      var c := input[i];
      assert input[i..][1..] == input[i + 1..];
      if escapeNext {
        current := current + [c];
        escapeNext := false;
      } else if c == '\\' && inString {
        current := current + [c];
        escapeNext := true;
      } else if c == '"' {
        current := current + [c];
        inString := !inString;
      } else if (c == '[' || c == '{') && !inString {
        current := current + [c];
        depth := depth + 1;
      } else if (c == ']' || c == '}') && !inString {
        current := current + [c];
        depth := depth - 1;
      } else if c == ',' && !inString && depth == 0 {
        elements := elements + [Trim(current)];
        current := "";
      } else {
        current := current + [c];
      }
    }
    if Trim(current) != "" {
      elements := elements + [Trim(current)];
    }
  }

  // ----- Unescaping JSON strings -----

  function Unescaped(c: char): string {
    match c
    case 'n' => "\n"
    case 'r' => "\r"
    case 't' => "\t"
    case '"' => "\""
    case '\\' => "\\"
    case _ => ['\\', c]
  }

  function UnescapeFold(result: string, escapeNext: bool, s: string): string
    decreases |s|
  {
    if s == [] then result
    else if escapeNext then UnescapeFold(result + Unescaped(s[0]), false, s[1..])
    else if s[0] == '\\' then UnescapeFold(result, true, s[1..])
    else UnescapeFold(result + [s[0]], false, s[1..])
  }

  function JsonUnescape(s: string): string {
    UnescapeFold("", false, s)
  }

  method UnescapeJsonString(s: string) returns (result: string)
    ensures result == JsonUnescape(s)
  {
    result := "";
    var escapeNext := false;
    for i := 0 to |s|
      invariant UnescapeFold(result, escapeNext, s[i..]) == JsonUnescape(s)
    {
      assert s[i..][1..] == s[i + 1..];
      if escapeNext {
        result := result + Unescaped(s[i]);
        escapeNext := false;
      } else if s[i] == '\\' {
        escapeNext := true;
      } else {
        result := result + [s[i]];
      }
    }
  }

  // ----- Splitting nested literals -----

  datatype PgNest = PgNest(arrays: seq<string>, current: string, depth: int, inString: bool)

  const PG_NEST_START := PgNest([], "", 0, false)

  function PgNestStep(st: PgNest, c: char): PgNest {
    var pushed := st.(current := st.current + [c]);
    if c == '"' && (!st.inString || st.depth == 0) then pushed.(inString := !st.inString)
    else if c == '{' && !st.inString then pushed.(depth := st.depth + 1)
    else if c == '}' && !st.inString then
      if st.depth == 1 then PgNest(st.arrays + [Trim(pushed.current)], "", 0, st.inString)
      else pushed.(depth := st.depth - 1)
    else if c == ',' && !st.inString && st.depth == 0 then st
    else pushed
  }

  function PgNestFold(st: PgNest, s: string): PgNest
    decreases |s|
  {
    if s == [] then st else PgNestFold(PgNestStep(st, s[0]), s[1..])
  }

  function PgSubarrays(inner: string): seq<string> {
    PgNestFold(PG_NEST_START, inner).arrays
  }

  method SplitPgSubarrays(inner: string) returns (arrays: seq<string>)
    ensures arrays == PgSubarrays(inner)
  {
    arrays := [];
    var current, depth, inString := "", 0, false;
    for i := 0 to |inner|
      invariant PgNestFold(PgNest(arrays, current, depth, inString), inner[i..]) == PgNestFold(PG_NEST_START, inner)
    {
      var c := inner[i];
      assert inner[i..][1..] == inner[i + 1..];
      if c == '"' && (!inString || depth == 0) {
        inString := !inString;
        current := current + [c];
      } else if c == '{' && !inString {
        depth := depth + 1;
        current := current + [c];
      } else if c == '}' && !inString {
        depth := depth - 1;
        current := current + [c];
        if depth == 0 {
          arrays := arrays + [Trim(current)];
          current := "";
        }
      } else if c == ',' && !inString && depth == 0 {
      } else {
        current := current + [c];
      }
    }
  }

  // ----- Splitting literal elements -----

  datatype PgScan = PgScan(elements: seq<Option<string>>, current: string, inQuotes: bool, escapeNext: bool)

  const PG_START := PgScan([], "", false, false)

  /** An element text that is empty or NULL outside quotes is a null. */
  function PgRead(text: string, inQuotes: bool): Option<string> {
    var elem := Trim(text);
    if !inQuotes && (elem == "NULL" || elem == "") then None else Some(elem)
  }

  function PgStep(st: PgScan, c: char): PgScan {
    if st.escapeNext then st.(current := st.current + [c], escapeNext := false)
    else if c == '\\' then st.(escapeNext := true)
    else if c == '"' then st.(inQuotes := !st.inQuotes)
    else if c == ',' && !st.inQuotes
    then st.(elements := st.elements + [PgRead(st.current, st.inQuotes)], current := "")
    else st.(current := st.current + [c])
  }

  function PgFold(st: PgScan, s: string): PgScan
    decreases |s|
  {
    if s == [] then st else PgFold(PgStep(st, s[0]), s[1..])
  }

  /** The last element; here a bare NULL counts as null even inside quotes left open. */
  function PgFinish(st: PgScan): seq<Option<string>> {
    var elem := Trim(st.current);
    if elem == "" && st.elements == [] then []
    else st.elements + [if elem == "NULL" || (elem == "" && !st.inQuotes) then None else Some(elem)]
  }

  function PgElements(input: string): seq<Option<string>> {
    PgFinish(PgFold(PG_START, input))
  }

  method ParsePgElements(input: string) returns (elements: seq<Option<string>>)
    ensures elements == PgElements(input)
  {
    elements := [];
    var current, inQuotes, escapeNext := "", false, false;
    for i := 0 to |input|
      invariant PgFold(PgScan(elements, current, inQuotes, escapeNext), input[i..]) == PgFold(PG_START, input)
    {
      var c := input[i];
      assert input[i..][1..] == input[i + 1..];
      if escapeNext {
        current := current + [c];
        escapeNext := false;
      } else if c == '\\' {
        escapeNext := true;
      } else if c == '"' {
        inQuotes := !inQuotes;
      } else if c == ',' && !inQuotes {
        elements := elements + [PgRead(current, inQuotes)];
        current := "";
      } else {
        current := current + [c];
      }
    }
    var elem := Trim(current);
    if elem != "" || elements != [] {
      elements := elements + [if elem == "NULL" || (elem == "" && !inQuotes) then None else Some(elem)];
    }
  }

  // ----- Lengths -----

  ghost predicate AllWithin(texts: seq<string>, n: nat) {
    forall text :: text in texts ==> |text| <= n
  }

  lemma {:induction false} JsonFoldWithin(st: JsonScan, s: string, n: nat)
    requires AllWithin(st.elements, n) && |st.current| <= n
    ensures AllWithin(JsonFold(st, s).elements, n + |s|) && |JsonFold(st, s).current| <= n + |s|
    decreases |s|
  {
    if s != [] {
      JsonFoldWithin(JsonStep(st, s[0]), s[1..], n + 1);
    }
  }

  lemma JsonElementsWithin(input: string)
    ensures AllWithin(JsonElements(input), |input|)
  {
    JsonFoldWithin(JSON_START, input, 0);
  }

  lemma {:induction false} PgNestFoldWithin(st: PgNest, s: string, n: nat)
    requires AllWithin(st.arrays, n) && |st.current| <= n
    ensures AllWithin(PgNestFold(st, s).arrays, n + |s|)
    decreases |s|
  {
    if s != [] {
      PgNestFoldWithin(PgNestStep(st, s[0]), s[1..], n + 1);
    }
  }

  lemma PgSubarraysWithin(inner: string)
    ensures AllWithin(PgSubarrays(inner), |inner|)
  {
    PgNestFoldWithin(PG_NEST_START, inner, 0);
  }

  // ----- Reading arrays -----

  /** The outcome of a reader; `Panics` where the slice `e[1..e.len() - 1]` of a lone quote is out of range. */
  datatype Parsed<+T> = Parsed(value: T) | Rejected(message: string) | Panics {
    predicate IsFailure() {
      !Parsed?
    }

    function PropagateFailure<U>(): Parsed<U>
      requires IsFailure()
    {
      if Panics? then Panics else Rejected(message)
    }

    function Extract(): T
      requires !IsFailure()
    {
      value
    }
  }

  predicate LooksLikeArray(e: string) {
    (StartsWith(e, '[') && EndsWith(e, ']')) || (StartsWith(e, '{') && EndsWith(e, '}'))
  }

  function JsonValue(e: string): Parsed<Option<string>> {
    var e := Trim(e);
    if e == "null" || e == "" then Parsed(None)
    else if StartsWith(e, '"') && EndsWith(e, '"')
    then if |e| >= 2 then Parsed(Some(JsonUnescape(e[1..|e| - 1]))) else Panics
    else Parsed(Some(e))
  }

  function JsonValues(elements: seq<string>): Parsed<seq<Option<string>>> {
    if elements == [] then Parsed([]) else
      var value :- JsonValue(elements[0]);
      var values :- JsonValues(elements[1..]);
      Parsed([value] + values)
  }

  function ParseArray(input: string): Parsed<ArrayValue>
    decreases |input|, 4, 0
  {
    var trimmed := Trim(input);
    if StartsWith(trimmed, '[') then ParseJsonArray(trimmed)
    else if StartsWith(trimmed, '{') then ParsePgArray(trimmed)
    else if trimmed == "" then Parsed(Empty)
    else Rejected("Unknown array format")
  }

  function ParseJsonArray(input: string): Parsed<ArrayValue>
    decreases |input|, 3, 0
  {
    var trimmed := Trim(input);
    if !StartsWith(trimmed, '[') || !EndsWith(trimmed, ']') then Rejected("Invalid JSON array format") else
    var inner := Trim(trimmed[1..|trimmed| - 1]);
    JsonElementsWithin(inner);
    if inner == "" then Parsed(Empty) else ParseItems(JsonElements(inner), |input|)
  }

  /** A list in which everything looks like an array is one of arrays. */
  function ParseItems(elements: seq<string>, bound: nat): Parsed<ArrayValue>
    requires bound > 0 && AllWithin(elements, bound - 1)
    decreases bound, 2, 0
  {
    if elements != [] && (forall i :: 0 <= i < |elements| ==> LooksLikeArray(Trim(elements[i]))) then
      var arrays :- ParseArrays(elements, bound);
      Parsed(MultiD(arrays))
    else
      var values :- JsonValues(elements);
      Parsed(OneD(values))
  }

  function ParseArrays(elements: seq<string>, bound: nat): Parsed<seq<ArrayValue>>
    requires bound > 0 && AllWithin(elements, bound - 1)
    decreases bound, 1, |elements|
  {
    if elements == [] then Parsed([]) else
      var first :- ParseArray(elements[0]);
      var rest :- ParseArrays(elements[1..], bound);
      Parsed([first] + rest)
  }

  /** Position of the first `]={`, which ends a list of array bounds, or the length. */
  function FindBounds(s: string): (at: nat)
    ensures at <= |s| && (at < |s| ==> at + 3 <= |s| && s[at..at + 3] == "]={")
  {
    if |s| < 3 then |s| else if s[..3] == "]={" then 0 else
      var at := FindBounds(s[1..]);
      assert at + 3 <= |s[1..]| ==> s[1..][at..at + 3] == s[at + 1..at + 4];
      1 + at
  }

  function ParsePgArray(input: string): Parsed<ArrayValue>
    decreases |input|, 3, 0
  {
    var trimmed := Trim(input);
    var at := FindBounds(trimmed);
    var content := if StartsWith(trimmed, '[') && at < |trimmed| then trimmed[at + 2..] else trimmed;
    if !StartsWith(content, '{') || !EndsWith(content, '}') then Rejected("Invalid PostgreSQL array format")
    else ParseBraces(content, |input|)
  }

  function ParseBraces(content: string, bound: nat): Parsed<ArrayValue>
    requires 2 <= |content| <= bound
    decreases bound, 2, 0
  {
    var inner := Trim(content[1..|content| - 1]);
    if inner == "" then Parsed(Empty)
    else if StartsWith(inner, '{') then
      PgSubarraysWithin(content[1..|content| - 1]);
      var arrays :- ParsePgArrays(PgSubarrays(content[1..|content| - 1]), bound);
      Parsed(MultiD(arrays))
    else Parsed(OneD(PgElements(inner)))
  }

  function ParsePgArrays(elements: seq<string>, bound: nat): Parsed<seq<ArrayValue>>
    requires bound > 0 && AllWithin(elements, bound - 1)
    decreases bound, 1, |elements|
  {
    if elements == [] then Parsed([]) else
      var first :- ParsePgArray(elements[0]);
      var rest :- ParsePgArrays(elements[1..], bound);
      Parsed([first] + rest)
  }
}
