/** The JSON form of an array reads back as the array, at any nesting depth and for any strings. */
module ArrayJson {
  import opened Sequences
  import opened Wrappers
  import opened Text
  import opened ArrayText

  // ----- The chained replacements are one escape per character -----

  function EscapeChar(c: char): string {
    match c
    case '\\' => "\\\\"
    case '"' => "\\\""
    case '\n' => "\\n"
    case '\r' => "\\r"
    case '\t' => "\\t"
    case _ => [c]
  }

  function EscapeChars(s: string): string {
    if s == [] then "" else EscapeChar(s[0]) + EscapeChars(s[1..])
  }

  lemma JsonEscapeAppend(a: string, b: string)
    ensures JsonEscape(a + b) == JsonEscape(a) + JsonEscape(b)
  {
    var a1, b1 := ReplaceChar(a, '\\', "\\\\"), ReplaceChar(b, '\\', "\\\\");
    var a2, b2 := ReplaceChar(a1, '"', "\\\""), ReplaceChar(b1, '"', "\\\"");
    var a3, b3 := ReplaceChar(a2, '\n', "\\n"), ReplaceChar(b2, '\n', "\\n");
    var a4, b4 := ReplaceChar(a3, '\r', "\\r"), ReplaceChar(b3, '\r', "\\r");
    ReplaceCharAppend(a, b, '\\', "\\\\");
    ReplaceCharAppend(a1, b1, '"', "\\\"");
    ReplaceCharAppend(a2, b2, '\n', "\\n");
    ReplaceCharAppend(a3, b3, '\r', "\\r");
    ReplaceCharAppend(a4, b4, '\t', "\\t");
  }

  lemma ReplaceSingle(c: char, d: char, rep: string)
    ensures ReplaceChar([c], d, rep) == if c == d then rep else [c]
  {
    assert ReplaceChar([c][1..], d, rep) == "";
  }

  lemma ReplacePair(a: char, b: char, d: char, rep: string)
    requires a != d && b != d
    ensures ReplaceChar([a, b], d, rep) == [a, b]
  {
    ReplaceCharAbsent([a, b], d, rep);
  }

  /** One character: whichever replacement applies, the later ones leave its result alone. */
  lemma JsonEscapeChar(c: char)
    ensures JsonEscape([c]) == EscapeChar(c)
  {
    ReplaceSingle(c, '\\', "\\\\");
    ReplaceSingle(c, '"', "\\\"");
    ReplaceSingle(c, '\n', "\\n");
    ReplaceSingle(c, '\r', "\\r");
    ReplaceSingle(c, '\t', "\\t");
    ReplacePair('\\', '\\', '"', "\\\"");
    ReplacePair('\\', '\\', '\n', "\\n");
    ReplacePair('\\', '\\', '\r', "\\r");
    ReplacePair('\\', '\\', '\t', "\\t");
    ReplacePair('\\', '"', '\n', "\\n");
    ReplacePair('\\', '"', '\r', "\\r");
    ReplacePair('\\', '"', '\t', "\\t");
    ReplacePair('\\', 'n', '\r', "\\r");
    ReplacePair('\\', 'n', '\t', "\\t");
    ReplacePair('\\', 'r', '\t', "\\t");
  }

  lemma {:induction false} JsonEscapeIsPerChar(s: string)
    ensures JsonEscape(s) == EscapeChars(s)
  {
    if s != [] {
      assert [s[0]] + s[1..] == s;
      JsonEscapeAppend([s[0]], s[1..]);
      JsonEscapeChar(s[0]);
      JsonEscapeIsPerChar(s[1..]);
    }
  }

  // ----- Unescaping undoes escaping -----

  lemma UnescapeFoldStep(result: string, escapeNext: bool, c: char, rest: string)
    ensures UnescapeFold(result, escapeNext, [c] + rest)
         == if escapeNext then UnescapeFold(result + Unescaped(c), false, rest)
            else if c == '\\' then UnescapeFold(result, true, rest)
            else UnescapeFold(result + [c], false, rest)
  {
    assert ([c] + rest)[1..] == rest;
  }

  lemma UnescapeChar(result: string, c: char, rest: string)
    ensures UnescapeFold(result, false, EscapeChar(c) + rest) == UnescapeFold(result + [c], false, rest)
  {
    var e := EscapeChar(c);
    if |e| == 2 {
      assert e + rest == [e[0]] + ([e[1]] + rest);
      UnescapeFoldStep(result, false, e[0], [e[1]] + rest);
      UnescapeFoldStep(result, true, e[1], rest);
    } else {
      UnescapeFoldStep(result, false, c, rest);
    }
  }

  lemma {:induction false} UnescapeEscaped(result: string, s: string)
    ensures UnescapeFold(result, false, EscapeChars(s)) == result + s
    decreases |s|
  {
    if s != [] {
      UnescapeChar(result, s[0], EscapeChars(s[1..]));
      UnescapeEscaped(result + [s[0]], s[1..]);
      assert result + [s[0]] + s[1..] == result + s;
    } else {
      assert result + s == result;
    }
  }

  /** `unescape_json_string` is a left inverse of the escaping done by `to_json_string`, on every string. */
  lemma {:induction false} UnescapeInvertsEscape(s: string)
    ensures JsonUnescape(JsonEscape(s)) == s
  {
    JsonEscapeIsPerChar(s);
    UnescapeEscaped("", s);
  }

  /** Escapes that the printer does not use are kept as they are: `\/` and `\u0041` are no `/` and no `A`. */
  lemma OtherEscapesAreKept(c: char)
    requires c !in "nrt\"\\"
    ensures JsonUnescape(['\\', c]) == ['\\', c]
  {
    assert ['\\', c] == ['\\'] + [c] && [c] == [c] + "";
    UnescapeFoldStep("", false, '\\', [c]);
    UnescapeFoldStep("", true, c, "");
    assert "" + ['\\', c] == ['\\', c];
  }

  // ----- Scanning printed values -----

  lemma {:induction false} JsonFoldAppend(st: JsonScan, a: string, b: string)
    ensures JsonFold(st, a + b) == JsonFold(JsonFold(st, a), b)
    decreases |a|
  {
    if a == [] {
      assert a + b == b;
    } else {
      assert (a + b)[1..] == a[1..] + b;
      JsonFoldAppend(JsonStep(st, a[0]), a[1..], b);
    }
  }

  /** Outside strings, the scanner copies the text as a whole and ends in the state it began in. */
  ghost predicate Transparent(text: string) {
    forall elements, current, depth :: depth >= 0 ==>
      JsonFold(JsonScan(elements, current, depth, false, false), text)
        == JsonScan(elements, current + text, depth, false, false)
  }

  lemma ScanEscapedChar(st: JsonScan, c: char)
    requires st.inString && !st.escapeNext
    ensures JsonFold(st, EscapeChar(c)) == st.(current := st.current + EscapeChar(c))
  {
    var e := EscapeChar(c);
    JsonFoldSingle(st, e[0]);
    if |e| == 2 {
      assert e == [e[0]] + [e[1]];
      JsonFoldAppend(st, [e[0]], [e[1]]);
      JsonFoldSingle(JsonStep(st, e[0]), e[1]);
      assert st.current + [e[0]] + [e[1]] == st.current + e;
    }
  }

  lemma {:induction false} ScanEscaped(st: JsonScan, s: string)
    requires st.inString && !st.escapeNext
    ensures JsonFold(st, EscapeChars(s)) == st.(current := st.current + EscapeChars(s))
    decreases |s|
  {
    if s == [] {
      assert st.current + "" == st.current;
    } else {
      JsonFoldAppend(st, EscapeChar(s[0]), EscapeChars(s[1..]));
      ScanEscapedChar(st, s[0]);
      var next := st.(current := st.current + EscapeChar(s[0]));
      ScanEscaped(next, s[1..]);
      Assoc(st.current, EscapeChar(s[0]), EscapeChars(s[1..]));
    }
  }

  lemma QuotedIsTransparent(s: string)
    ensures Transparent("\"" + JsonEscape(s) + "\"")
  {
    forall elements, current, depth | depth >= 0
      ensures JsonFold(JsonScan(elements, current, depth, false, false), "\"" + JsonEscape(s) + "\"")
           == JsonScan(elements, current + ("\"" + JsonEscape(s) + "\""), depth, false, false)
    {
      ScanQuoted(JsonScan(elements, current, depth, false, false), s);
    }
  }

  lemma ScanQuoted(st: JsonScan, s: string)
    requires !st.inString && !st.escapeNext
    ensures JsonFold(st, "\"" + JsonEscape(s) + "\"") == st.(current := st.current + ("\"" + JsonEscape(s) + "\""))
  {
    JsonEscapeIsPerChar(s);
    var body, quote := EscapeChars(s), "\"";
    var inside := st.(current := st.current + quote, inString := true);
    JsonFoldAppend(st, quote + body, quote);
    JsonFoldAppend(st, quote, body);
    JsonFoldSingle(st, '"');
    ScanEscaped(inside, s);
    JsonFoldSingle(inside.(current := inside.current + body), '"');
    Assoc(st.current, quote, body);
    Assoc(st.current, quote + body, quote);
  }

  lemma JsonFoldSingle(st: JsonScan, c: char)
    ensures JsonFold(st, [c]) == JsonStep(st, c)
  {
    assert [c][1..] == "";
  }

  lemma NullIsTransparent()
    ensures Transparent("null")
  {
    forall elements, current, depth | depth >= 0
      ensures JsonFold(JsonScan(elements, current, depth, false, false), "null")
           == JsonScan(elements, current + "null", depth, false, false)
    {
      var st := JsonScan(elements, current, depth, false, false);
      assert "null"[1..] == "ull" && "ull"[1..] == "ll" && "ll"[1..] == "l";
      JsonFoldSingle(st.(current := current + "n" + "u" + "l"), 'l');
      assert current + "n" + "u" + "l" + "l" == current + "null";
    }
  }

  lemma ElementIsTransparent(e: Option<string>)
    ensures Transparent(JsonElement(e)) && TrimStable(JsonElement(e)) && JsonElement(e) != ""
    ensures !LooksLikeArray(JsonElement(e))
  {
    if e.Some? {
      QuotedIsTransparent(e.value);
    } else {
      NullIsTransparent();
    }
  }

  ghost predicate AllTransparent(parts: seq<string>) {
    forall part :: part in parts ==> Transparent(part)
  }

  /** Inside brackets the commas between the parts are copied like any other character. */
  lemma {:induction false} JoinedIsCopied(parts: seq<string>, elements: seq<string>, current: string, depth: int)
    requires AllTransparent(parts) && depth > 0
    ensures JsonFold(JsonScan(elements, current, depth, false, false), Join(parts, ","))
         == JsonScan(elements, current + Join(parts, ","), depth, false, false)
    decreases |parts|
  {
    var st := JsonScan(elements, current, depth, false, false);
    assert parts != [] ==> parts[0] in parts;
    if parts == [] {
      assert current + "" == current;
    } else if |parts| > 1 {
      var rest := Join(parts[1..], ",");
      JsonFoldAppend(st, parts[0] + ",", rest);
      JsonFoldAppend(st, parts[0], ",");
      JsonFoldSingle(st.(current := current + parts[0]), ',');
      JoinedIsCopied(parts[1..], elements, current + parts[0] + ",", depth);
      assert current + parts[0] + "," + rest == current + (parts[0] + "," + rest);
    }
  }

  predicate Brackets(open: char, close: char) {
    (open == '[' && close == ']') || (open == '{' && close == '}')
  }

  lemma BracketsAreTransparent(parts: seq<string>, open: char, close: char)
    requires AllTransparent(parts) && Brackets(open, close)
    ensures Transparent([open] + Join(parts, ",") + [close])
  {
    var body, text := Join(parts, ","), [open] + Join(parts, ",") + [close];
    forall elements, current, depth | depth >= 0
      ensures JsonFold(JsonScan(elements, current, depth, false, false), text)
           == JsonScan(elements, current + text, depth, false, false)
    {
      var st := JsonScan(elements, current, depth, false, false);
      var inside := JsonScan(elements, current + [open], depth + 1, false, false);
      JsonFoldAppend(st, [open] + body, [close]);
      JsonFoldAppend(st, [open], body);
      JsonFoldSingle(st, open);
      JoinedIsCopied(parts, elements, current + [open], depth + 1);
      JsonFoldSingle(inside.(current := inside.current + body), close);
      assert current + [open] + body + [close] == current + text;
    }
  }

  lemma {:induction false} JsonIsTransparent(v: ArrayValue)
    ensures Transparent(ToJson(v))
    decreases v
  {
    match v
    case Empty =>
      BracketsAreTransparent([], '[', ']');
      assert "[" + "" + "]" == "[]";
    case OneD(elements) =>
      forall part | part in JsonElementTexts(elements)
        ensures Transparent(part)
      {
        var i :| 0 <= i < |elements| && part == JsonElementTexts(elements)[i];
        ElementIsTransparent(elements[i]);
      }
      BracketsAreTransparent(JsonElementTexts(elements), '[', ']');
    case MultiD(arrays) =>
      JsonTextsAreTransparent(arrays);
      BracketsAreTransparent(JsonTexts(arrays), '[', ']');
  }

  lemma {:induction false} JsonTextsAreTransparent(arrays: seq<ArrayValue>)
    ensures AllTransparent(JsonTexts(arrays))
    decreases arrays
  {
    if arrays != [] {
      JsonIsTransparent(arrays[0]);
      JsonTextsAreTransparent(arrays[1..]);
    }
  }

  // ----- Splitting at top level -----

  ghost predicate AllWhole(parts: seq<string>) {
    forall part :: part in parts ==> Transparent(part) && TrimStable(part) && part != ""
  }

  function Trimmed(parts: seq<string>): (trimmed: seq<string>)
    ensures |trimmed| == |parts| && forall i :: 0 <= i < |parts| ==> trimmed[i] == Trim(parts[i])
  {
    seq(|parts|, i requires 0 <= i < |parts| => Trim(parts[i]))
  }

  lemma PartIsCollected(part: string, elements: seq<string>)
    requires Transparent(part)
    ensures JsonFold(JsonScan(elements, "", 0, false, false), part) == JsonScan(elements, part, 0, false, false)
  {
    assert "" + part == part;
  }

  lemma FirstPartIsSplit(part: string, rest: string, elements: seq<string>)
    requires Transparent(part)
    ensures JsonFold(JsonScan(elements, "", 0, false, false), part + "," + rest)
         == JsonFold(JsonScan(elements + [Trim(part)], "", 0, false, false), rest)
  {
    var st := JsonScan(elements, "", 0, false, false);
    PartIsCollected(part, elements);
    JsonFoldAppend(st, part + ",", rest);
    JsonFoldAppend(st, part, ",");
    JsonFoldSingle(st.(current := part), ',');
  }

  lemma FirstOfParts(parts: seq<string>)
    requires AllTransparent(parts) && parts != [] && forall part :: part in parts ==> Trim(part) != ""
    ensures Transparent(parts[0]) && Trim(parts[0]) != "" && AllTransparent(parts[1..])
    ensures forall part :: part in parts[1..] ==> Trim(part) != ""
    ensures Trimmed(parts) == [Trim(parts[0])] + Trimmed(parts[1..]) && (|parts| == 1 ==> Trimmed(parts[1..]) == [])
  {
    assert parts[0] in parts && forall part :: part in parts[1..] ==> part in parts;
    FirstTrimmed(parts);
  }

  lemma FirstTrimmed(parts: seq<string>)
    requires parts != []
    ensures Trimmed(parts) == [Trim(parts[0])] + Trimmed(parts[1..])
  {
  }

  /** Outside brackets the scanner splits exactly between the parts, and drops the space around them. */
  lemma {:induction false} JoinedIsSplit(parts: seq<string>, elements: seq<string>)
    requires AllTransparent(parts) && parts != [] && forall part :: part in parts ==> Trim(part) != ""
    ensures JsonFinish(JsonFold(JsonScan(elements, "", 0, false, false), Join(parts, ",")))
         == elements + Trimmed(parts)
    decreases |parts|
  {
    FirstOfParts(parts);
    if |parts| == 1 {
      PartIsCollected(parts[0], elements);
    } else {
      FirstPartIsSplit(parts[0], Join(parts[1..], ","), elements);
      JoinedIsSplit(parts[1..], elements + [Trim(parts[0])]);
      Assoc(elements, [Trim(parts[0])], Trimmed(parts[1..]));
    }
  }

  lemma ElementsOfJoined(parts: seq<string>)
    requires AllWhole(parts) && parts != []
    ensures JsonElements(Join(parts, ",")) == parts
  {
    assert Trimmed(parts) == parts;
    JoinedIsSplit(parts, []);
  }

  lemma {:induction false} JoinIsStable(parts: seq<string>)
    requires parts != [] && forall part :: part in parts ==> TrimStable(part) && part != ""
    ensures TrimStable(Join(parts, ",")) && Join(parts, ",") != ""
  {
    assert parts[0] in parts;
    if |parts| > 1 {
      JoinIsStable(parts[1..]);
    }
  }

  // ----- The round trip -----

  /** The array with every empty list replaced by `Empty`: all three print as `[]`. */
  function Normal(v: ArrayValue): ArrayValue
    decreases v
  {
    match v
    case Empty => Empty
    case OneD(elements) => if elements == [] then Empty else v
    case MultiD(arrays) => if arrays == [] then Empty else MultiD(Normals(arrays))
  }

  function Normals(arrays: seq<ArrayValue>): (normals: seq<ArrayValue>)
    ensures |normals| == |arrays|
    decreases arrays
  {
    if arrays == [] then [] else [Normal(arrays[0])] + Normals(arrays[1..])
  }

  predicate NoEmptyLists(v: ArrayValue)
    decreases v
  {
    match v
    case Empty => true
    case OneD(elements) => elements != []
    case MultiD(arrays) => arrays != [] && NoneEmpty(arrays)
  }

  predicate NoneEmpty(arrays: seq<ArrayValue>)
    decreases arrays
  {
    arrays != [] ==> NoEmptyLists(arrays[0]) && NoneEmpty(arrays[1..])
  }

  lemma {:induction false} NormalIsIdentityIff(v: ArrayValue)
    ensures Normal(v) == v <==> NoEmptyLists(v)
    decreases v
  {
    if v.MultiD? {
      NormalsAreIdentityIff(v.arrays);
    }
  }

  lemma {:induction false} NormalsAreIdentityIff(arrays: seq<ArrayValue>)
    ensures Normals(arrays) == arrays <==> NoneEmpty(arrays)
    decreases arrays
  {
    if arrays != [] {
      NormalIsIdentityIff(arrays[0]);
      NormalsAreIdentityIff(arrays[1..]);
      assert [arrays[0]] + arrays[1..] == arrays;
    }
  }

  lemma {:induction false} JsonShape(v: ArrayValue)
    ensures var text := ToJson(v); |text| >= 2 && text[0] == '[' && text[|text| - 1] == ']'
    ensures TrimStable(ToJson(v)) && LooksLikeArray(ToJson(v))
  {
  }

  /** What the reader does with a bracketed list of whole parts. */
  lemma ParseBracketed(parts: seq<string>, text: string)
    requires AllWhole(parts) && parts != [] && text == "[" + Join(parts, ",") + "]"
    ensures Trim(text) == text && JsonElements(Trim(text[1..|text| - 1])) == parts
    ensures Trim(text[1..|text| - 1]) != ""
  {
    JoinIsStable(parts);
    ElementsOfJoined(parts);
    Bracketed(Join(parts, ","));
  }

  lemma Bracketed(body: string)
    ensures var text := "[" + body + "]"; TrimStable(text) && text[1..|text| - 1] == body
  {
  }

  lemma ReadElement(e: Option<string>)
    ensures JsonValue(JsonElement(e)) == Parsed(e)
  {
    ElementIsTransparent(e);
    if e.Some? {
      var text := JsonElement(e);
      assert text[1..|text| - 1] == JsonEscape(e.value);
      UnescapeInvertsEscape(e.value);
    }
  }

  lemma {:induction false} ReadElements(elements: seq<Option<string>>)
    ensures JsonValues(JsonElementTexts(elements)) == Parsed(elements)
  {
    if elements != [] {
      ReadElement(elements[0]);
      ReadElements(elements[1..]);
      assert JsonElementTexts(elements)[1..] == JsonElementTexts(elements[1..]);
      assert [elements[0]] + elements[1..] == elements;
    }
  }

  /** Reading the JSON text of any array gives the array, with empty lists turned into the empty array. */
  lemma {:induction false} JsonReadsBack(v: ArrayValue)
    ensures ParseArray(ToJson(v)) == Parsed(Normal(v))
    decreases v, 0
  {
    JsonShape(v);
    match v
    case Empty =>
    case OneD(elements) =>
      if elements != [] {
        FlatJsonReadsBack(elements);
      }
    case MultiD(arrays) =>
      if arrays != [] {
        var parts := JsonTexts(arrays);
        JsonTextsAreWhole(arrays);
        ParseBracketed(parts, ToJson(v));
        JsonElementsWithin(Join(parts, ","));
        ElementsOfJoined(parts);
        AllJsonReadsBack(arrays, |ToJson(v)|);
        NestedJsonIsRead(parts, ToJson(v));
      }
  }

  lemma NestedJsonIsRead(parts: seq<string>, text: string)
    requires StartsWith(text, '[') && EndsWith(text, ']') && AllWithin(parts, |text| - 1)
    requires Trim(text) == text && Trim(text[1..|text| - 1]) != "" && JsonElements(Trim(text[1..|text| - 1])) == parts
    requires parts != [] && forall part :: part in parts ==> LooksLikeArray(Trim(part))
    ensures var arrays := ParseArrays(parts, |text|);
            arrays.Parsed? ==> ParseArray(text) == Parsed(MultiD(arrays.value))
  {
    ItemsAreTaken(text);
    AllLookLikeArrays(parts, |text|);
  }

  lemma ItemsAreTaken(text: string)
    requires StartsWith(text, '[') && EndsWith(text, ']') && Trim(text) == text && Trim(text[1..|text| - 1]) != ""
    ensures var parts := JsonElements(Trim(text[1..|text| - 1]));
            AllWithin(parts, |text| - 1) && ParseArray(text) == ParseItems(parts, |text|)
  {
    JsonElementsWithin(Trim(text[1..|text| - 1]));
  }

  lemma AllLookLikeArrays(parts: seq<string>, bound: nat)
    requires bound > 0 && AllWithin(parts, bound - 1)
    requires parts != [] && forall part :: part in parts ==> LooksLikeArray(Trim(part))
    ensures var arrays := ParseArrays(parts, bound);
            arrays.Parsed? ==> ParseItems(parts, bound) == Parsed(MultiD(arrays.value))
  {
    assert forall i :: 0 <= i < |parts| ==> LooksLikeArray(Trim(parts[i]));
  }

  lemma FlatJsonReadsBack(elements: seq<Option<string>>)
    requires elements != []
    ensures ParseArray(ToJson(OneD(elements))) == Parsed(OneD(elements))
  {
    var parts := JsonElementTexts(elements);
    forall part | part in parts
      ensures Transparent(part) && TrimStable(part) && part != ""
    {
      var i :| 0 <= i < |elements| && part == parts[i];
      ElementIsTransparent(elements[i]);
    }
    ParseBracketed(parts, ToJson(OneD(elements)));
    ReadElements(elements);
    ElementIsTransparent(elements[0]);
    FlatJsonIsRead(parts, ToJson(OneD(elements)), elements);
  }

  lemma FlatJsonIsRead(parts: seq<string>, text: string, elements: seq<Option<string>>)
    requires StartsWith(text, '[') && EndsWith(text, ']') && Trim(text) == text
    requires Trim(text[1..|text| - 1]) != "" && JsonElements(Trim(text[1..|text| - 1])) == parts
    requires parts != [] && TrimStable(parts[0]) && !LooksLikeArray(parts[0])
    requires JsonValues(parts) == Parsed(elements)
    ensures ParseArray(text) == Parsed(OneD(elements))
  {
    ItemsAreTaken(text);
    assert !LooksLikeArray(Trim(parts[0]));
  }

  lemma {:induction false} JsonTextsAreWhole(arrays: seq<ArrayValue>)
    ensures AllWhole(JsonTexts(arrays))
    ensures forall part :: part in JsonTexts(arrays) ==> LooksLikeArray(Trim(part))
    decreases arrays
  {
    if arrays != [] {
      JsonIsTransparent(arrays[0]);
      JsonShape(arrays[0]);
      JsonTextsAreWhole(arrays[1..]);
    }
  }

  lemma {:induction false} AllJsonReadsBack(arrays: seq<ArrayValue>, bound: nat)
    requires bound > 0 && AllWithin(JsonTexts(arrays), bound - 1)
    ensures ParseArrays(JsonTexts(arrays), bound) == Parsed(Normals(arrays))
    decreases arrays, 0
  {
    if arrays != [] {
      JsonReadsBack(arrays[0]);
      assert JsonTexts(arrays)[1..] == JsonTexts(arrays[1..]);
      AllJsonReadsBack(arrays[1..], bound);
    }
  }

  /** The JSON round trip is exact precisely for the arrays without empty lists. */
  lemma {:induction false} JsonRoundTripIff(v: ArrayValue)
    ensures ParseArray(ToJson(v)) == Parsed(v) <==> NoEmptyLists(v)
  {
    JsonReadsBack(v);
    NormalIsIdentityIff(v);
  }
}
