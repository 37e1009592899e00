/** The Postgres-literal form of an array: exactly which arrays read back unchanged. */
module ArrayLiteral {
  import opened Sequences
  import opened Wrappers
  import opened Text
  import opened ArrayText
  import opened ArrayJson

  // ----- The condition -----

  /** What one element must satisfy: a string is not empty, not `NULL`, has no outer whitespace, and if it contains
      a backslash it also contains something that makes the printer quote it. */
  predicate Faithful(e: Option<string>) {
    e.Some? ==>
      e.value != "" && e.value != "NULL" && TrimStable(e.value) && ('\\' in e.value ==> NeedsQuotes(e.value))
  }

  predicate AllFaithful(elements: seq<Option<string>>) {
    forall e :: e in elements ==> Faithful(e)
  }

  predicate Unquoted(e: Option<string>) {
    e.Some? ==> !NeedsQuotes(e.value)
  }

  /** No string at any depth is printed with quotes. */
  predicate QuoteFree(v: ArrayValue)
    decreases v
  {
    match v
    case Empty => true
    case OneD(elements) => forall e :: e in elements ==> Unquoted(e)
    case MultiD(arrays) => AllQuoteFree(arrays)
  }

  predicate AllQuoteFree(arrays: seq<ArrayValue>)
    decreases arrays
  {
    arrays != [] ==> QuoteFree(arrays[0]) && AllQuoteFree(arrays[1..])
  }

  /** The arrays whose literal reads back: no empty list, faithful elements, and no quotes inside nested arrays. */
  predicate Literal(v: ArrayValue)
    decreases v
  {
    match v
    case Empty => true
    case OneD(elements) => elements != [] && AllFaithful(elements)
    case MultiD(arrays) => arrays != [] && AllQuoteFree(arrays) && AllLiteral(arrays)
  }

  predicate AllLiteral(arrays: seq<ArrayValue>)
    decreases arrays
  {
    arrays != [] ==> Literal(arrays[0]) && AllLiteral(arrays[1..])
  }

  // ----- Folds -----

  lemma {:induction false} PgFoldAppend(st: PgScan, a: string, b: string)
    ensures PgFold(st, a + b) == PgFold(PgFold(st, a), b)
    decreases |a|
  {
    if a == [] {
      assert a + b == b;
    } else {
      assert (a + b)[1..] == a[1..] + b;
      PgFoldAppend(PgStep(st, a[0]), a[1..], b);
    }
  }

  lemma PgFoldSingle(st: PgScan, c: char)
    ensures PgFold(st, [c]) == PgStep(st, c)
  {
    assert [c][1..] == "";
  }

  lemma PgFoldJoin(st: PgScan, parts: seq<string>)
    requires |parts| > 1
    ensures PgFold(st, Join(parts, ",")) == PgFold(PgStep(PgFold(st, parts[0]), ','), Join(parts[1..], ","))
  {
    PgFoldAppend(st, parts[0] + ",", Join(parts[1..], ","));
    PgFoldAppend(st, parts[0], ",");
    PgFoldSingle(PgFold(st, parts[0]), ',');
  }

  // ----- Quoted elements -----

  function PgEscapeChar(c: char): string {
    if c == '\\' then "\\\\" else if c == '"' then "\\\"" else [c]
  }

  function PgEscapeChars(s: string): string {
    if s == [] then "" else PgEscapeChar(s[0]) + PgEscapeChars(s[1..])
  }

  lemma {:induction false} PgEscapeIsPerChar(s: string)
    ensures ReplaceChar(ReplaceChar(s, '\\', "\\\\"), '"', "\\\"") == PgEscapeChars(s)
  {
    if s != [] {
      var head := if s[0] == '\\' then "\\\\" else [s[0]];
      PgEscapeIsPerChar(s[1..]);
      ReplaceCharAppend(head, ReplaceChar(s[1..], '\\', "\\\\"), '"', "\\\"");
      ReplaceSingle(s[0], '"', "\\\"");
      ReplacePair('\\', '\\', '"', "\\\"");
    }
  }

  lemma {:induction false} ScanPgEscaped(st: PgScan, s: string)
    requires st.inQuotes && !st.escapeNext
    ensures PgFold(st, PgEscapeChars(s)) == st.(current := st.current + s)
    decreases |s|
  {
    if s == [] {
      assert st.current + "" == st.current;
    } else {
      var next := st.(current := st.current + [s[0]]);
      PgFoldAppend(st, PgEscapeChar(s[0]), PgEscapeChars(s[1..]));
      ScanPgEscapedChar(st, s[0]);
      ScanPgEscaped(next, s[1..]);
      Assoc(st.current, [s[0]], s[1..]);
      assert [s[0]] + s[1..] == s;
    }
  }

  lemma ScanPgEscapedChar(st: PgScan, c: char)
    requires st.inQuotes && !st.escapeNext
    ensures PgFold(st, PgEscapeChar(c)) == st.(current := st.current + [c])
  {
    var e := PgEscapeChar(c);
    PgFoldSingle(st, e[0]);
    if |e| == 2 {
      assert e == [e[0]] + [e[1]];
      PgFoldAppend(st, [e[0]], [e[1]]);
      PgFoldSingle(PgStep(st, e[0]), e[1]);
    }
  }

  /** A quoted element puts exactly its string into `current`. */
  lemma ScanPgQuoted(st: PgScan, s: string)
    requires !st.inQuotes && !st.escapeNext && NeedsQuotes(s)
    ensures PgFold(st, PgElement(Some(s))) == st.(current := st.current + s)
  {
    PgEscapeIsPerChar(s);
    var body, quote := PgEscapeChars(s), "\"";
    PgFoldAppend(st, quote + body, quote);
    PgFoldAppend(st, quote, body);
    PgFoldSingle(st, '"');
    ScanPgEscaped(st.(inQuotes := true), s);
    PgFoldSingle(st.(inQuotes := true, current := st.current + s), '"');
  }

  // ----- Unquoted elements -----

  lemma {:induction false} ScanPgPlain(st: PgScan, s: string)
    requires !st.escapeNext && '\\' !in s && '"' !in s && ',' !in s
    ensures PgFold(st, s) == st.(current := st.current + s)
    decreases |s|
  {
    if s == [] {
      assert st.current + "" == st.current;
    } else {
      ScanPgPlain(PgStep(st, s[0]), s[1..]);
      Assoc(st.current, [s[0]], s[1..]);
      assert [s[0]] + s[1..] == s;
    }
  }

  lemma FaithfulIsRead(e: Option<string>)
    requires Faithful(e)
    ensures PgRead(if e.Some? then e.value else "NULL", false) == e
  {
  }

  /** A faithful element leaves the text in `current` that is read as the element. */
  lemma ScanFaithful(st: PgScan, e: Option<string>)
    requires Faithful(e) && st.current == "" && !st.inQuotes && !st.escapeNext
    ensures var raw := if e.Some? then e.value else "NULL";
            PgFold(st, PgElement(e)) == st.(current := raw) && PgRead(raw, false) == e
  {
    FaithfulIsRead(e);
    FaithfulIsCollected(st, e);
    var raw := if e.Some? then e.value else "NULL";
    assert "" + raw == raw;
  }

  lemma FaithfulIsCollected(st: PgScan, e: Option<string>)
    requires Faithful(e) && !st.inQuotes && !st.escapeNext
    ensures PgFold(st, PgElement(e)) == st.(current := st.current + (if e.Some? then e.value else "NULL"))
  {
    if e.Some? && NeedsQuotes(e.value) {
      ScanPgQuoted(st, e.value);
    } else {
      ScanPgPlain(st, PgElement(e));
    }
  }

  /** At the comma the text collected becomes an element. */
  lemma FirstElementIsRead(st: PgScan, e: Option<string>, raw: string)
    requires st.current == "" && !st.inQuotes && !st.escapeNext && PgRead(raw, false) == e
    ensures PgStep(st.(current := raw), ',') == PgScan(st.elements + [e], "", false, false)
  {
  }

  lemma FaithfulParts(elements: seq<Option<string>>)
    requires elements != [] && AllFaithful(elements)
    ensures Faithful(elements[0]) && AllFaithful(elements[1..])
  {
    assert elements[0] in elements;
  }

  lemma OneByOne(before: seq<Option<string>>, elements: seq<Option<string>>)
    requires elements != []
    ensures before + [elements[0]] + elements[1..] == before + elements
  {
  }

  lemma FirstFaithful(e: Option<string>, texts: seq<string>, before: seq<Option<string>>)
    requires Faithful(e) && |texts| > 1 && texts[0] == PgElement(e)
    ensures PgFold(PgScan(before, "", false, false), Join(texts, ","))
         == PgFold(PgScan(before + [e], "", false, false), Join(texts[1..], ","))
  {
    var st := PgScan(before, "", false, false);
    ScanFaithful(st, e);
    PgFoldJoin(st, texts);
    FirstElementIsRead(st, e, if e.Some? then e.value else "NULL");
  }

  lemma LastFaithful(e: Option<string>, before: seq<Option<string>>)
    requires Faithful(e)
    ensures PgFinish(PgFold(PgScan(before, "", false, false), PgElement(e))) == before + [e]
  {
    ScanFaithful(PgScan(before, "", false, false), e);
  }

  /** Faithful elements are split and read one by one. */
  lemma {:induction false} ScanFaithfulElements(elements: seq<Option<string>>, before: seq<Option<string>>)
    requires elements != [] && AllFaithful(elements)
    ensures PgFinish(PgFold(PgScan(before, "", false, false), Join(PgElementTexts(elements), ","))) == before + elements
    decreases |elements|
  {
    var texts := PgElementTexts(elements);
    FaithfulParts(elements);
    if |elements| == 1 {
      LastFaithful(elements[0], before);
      assert elements == [elements[0]];
    } else {
      assert texts[1..] == PgElementTexts(elements[1..]);
      FirstFaithful(elements[0], texts, before);
      ScanFaithfulElements(elements[1..], before + [elements[0]]);
      OneByOne(before, elements);
    }
  }

  // ----- Only faithful elements read back -----

  /** Number of backslashes. */
  function Slashes(s: string): nat {
    if s == [] then 0 else (if s[0] == '\\' then 1 else 0) + Slashes(s[1..])
  }

  lemma {:induction false} SlashesAppend(a: string, b: string)
    ensures Slashes(a + b) == Slashes(a) + Slashes(b)
  {
    if a == [] {
      assert a + b == b;
    } else {
      assert (a + b)[1..] == a[1..] + b;
      SlashesAppend(a[1..], b);
    }
  }

  lemma {:induction false} SlashesPositive(s: string)
    ensures '\\' in s <==> Slashes(s) > 0
  {
    if s != [] {
      SlashesPositive(s[1..]);
    }
  }

  lemma {:induction false} TrimStartKeepsSlashes(s: string)
    ensures Slashes(TrimStart(s)) == Slashes(s)
  {
    if s != [] && IsSpace(s[0]) {
      TrimStartKeepsSlashes(s[1..]);
    }
  }

  lemma {:induction false} TrimEndKeepsSlashes(s: string)
    ensures Slashes(TrimEnd(s)) == Slashes(s)
  {
    if s != [] && IsSpace(s[|s| - 1]) {
      TrimEndKeepsSlashes(s[..|s| - 1]);
      SlashesAppend(s[..|s| - 1], [s[|s| - 1]]);
      assert s == s[..|s| - 1] + [s[|s| - 1]];
    }
  }

  function SlashesOf(elements: seq<Option<string>>): nat {
    if elements == [] then 0 else
      SlashesOf(elements[..|elements| - 1])
      + (if elements[|elements| - 1].Some? then Slashes(elements[|elements| - 1].value) else 0)
  }

  lemma SlashesOfAppend(elements: seq<Option<string>>, e: Option<string>)
    ensures SlashesOf(elements + [e]) == SlashesOf(elements) + (if e.Some? then Slashes(e.value) else 0)
  {
    assert (elements + [e])[..|elements|] == elements;
  }

  lemma ReadKeepsSlashes(text: string, inQuotes: bool)
    ensures var e := PgRead(text, inQuotes); (if e.Some? then Slashes(e.value) else 0) <= Slashes(text)
  {
    TrimStartKeepsSlashes(text);
    TrimEndKeepsSlashes(TrimStart(text));
  }

  /** How many backslashes the reader has put out so far. */
  function SlashesIn(st: PgScan): nat {
    SlashesOf(st.elements) + Slashes(st.current)
  }

  lemma PushSlashes(st: PgScan, c: char)
    ensures SlashesIn(st.(current := st.current + [c])) == SlashesIn(st) + (if c == '\\' then 1 else 0)
  {
    SlashesAppend(st.current, [c]);
  }

  /** Without quotes a backslash is dropped in favour of the next character, so not all of them come out. */
  lemma {:induction false} UnquotedLosesSlashes(st: PgScan, s: string)
    requires !st.inQuotes && '"' !in s && ',' !in s
    ensures var after := PgFold(st, s);
            !after.inQuotes && SlashesIn(after) <= SlashesIn(st) + Slashes(s)
            && (!st.escapeNext && '\\' in s ==> SlashesIn(after) < SlashesIn(st) + Slashes(s))
    decreases |s|
  {
    if s != [] {
      PushSlashes(st, s[0]);
      UnquotedLosesSlashes(PgStep(st, s[0]), s[1..]);
    }
  }

  function ElementSlashes(e: Option<string>): nat {
    if e.Some? then Slashes(e.value) else 0
  }

  lemma ElementSlashesBound(st: PgScan, e: Option<string>)
    requires !st.inQuotes && !st.escapeNext
    ensures var after := PgFold(st, PgElement(e));
            !after.inQuotes && SlashesIn(after) <= SlashesIn(st) + ElementSlashes(e)
            && (e.Some? && '\\' in e.value && !NeedsQuotes(e.value) ==>
                SlashesIn(after) < SlashesIn(st) + ElementSlashes(e))
  {
    if e.Some? && NeedsQuotes(e.value) {
      ScanPgQuoted(st, e.value);
      SlashesAppend(st.current, e.value);
    } else {
      UnquotedLosesSlashes(st, PgElement(e));
      assert Slashes("NULL") == 0 by {
        SlashesPositive("NULL");
      }
    }
  }

  lemma CommaKeepsSlashes(st: PgScan)
    requires !st.inQuotes
    ensures var after := PgStep(st, ',');
            !after.inQuotes && !after.escapeNext && SlashesIn(after) <= SlashesIn(st)
  {
    if st.escapeNext {
      PushSlashes(st, ',');
    } else {
      ReadKeepsSlashes(st.current, false);
      SlashesOfAppend(st.elements, PgRead(st.current, false));
    }
  }

  predicate HasBareSlash(elements: seq<Option<string>>) {
    exists e :: e in elements && e.Some? && '\\' in e.value && !NeedsQuotes(e.value)
  }

  function AllSlashes(elements: seq<Option<string>>): nat {
    if elements == [] then 0 else ElementSlashes(elements[0]) + AllSlashes(elements[1..])
  }

  lemma {:induction false} SlashesLost(elements: seq<Option<string>>, st: PgScan)
    requires !st.inQuotes && !st.escapeNext
    ensures var after := PgFold(st, Join(PgElementTexts(elements), ","));
            !after.inQuotes && SlashesIn(after) <= SlashesIn(st) + AllSlashes(elements)
            && (HasBareSlash(elements) ==> SlashesIn(after) < SlashesIn(st) + AllSlashes(elements))
    decreases |elements|
  {
    if elements != [] {
      var texts := PgElementTexts(elements);
      ElementSlashesBound(st, elements[0]);
      if |elements| > 1 {
        var after := PgFold(st, texts[0]);
        assert texts[1..] == PgElementTexts(elements[1..]);
        PgFoldJoin(st, texts);
        CommaKeepsSlashes(after);
        SlashesLost(elements[1..], PgStep(after, ','));
        assert elements == [elements[0]] + elements[1..];
      }
    }
  }

  lemma {:induction false} AllSlashesIsSlashesOf(elements: seq<Option<string>>)
    ensures SlashesOf(elements) == AllSlashes(elements)
    decreases |elements|
  {
    if |elements| > 1 {
      var init, last := elements[..|elements| - 1], elements[|elements| - 1];
      AllSlashesIsSlashesOf(init);
      AllSlashesIsSlashesOf(elements[1..]);
      AllSlashesIsSlashesOf(init[1..]);
      assert init[1..] == elements[1..][..|elements| - 2] && elements[1..][|elements| - 2] == last;
    } else if |elements| == 1 {
      assert elements[..0] == [];
    }
  }

  ghost predicate Readable(elements: seq<Option<string>>) {
    forall e :: e in elements ==> e.Some? ==> e.value != "" && e.value != "NULL" && TrimStable(e.value)
  }

  /** Whatever the text, the strings completed by commas are non-empty, not `NULL`, and trimmed. */
  lemma {:induction false} FoldIsReadable(st: PgScan, s: string)
    requires Readable(st.elements)
    ensures Readable(PgFold(st, s).elements)
    decreases |s|
  {
    if s != [] {
      FoldIsReadable(PgStep(st, s[0]), s[1..]);
    }
  }

  /** The elements of a one-dimensional array are read back exactly when all of them are faithful. */
  lemma {:induction false} ElementsReadBackIff(elements: seq<Option<string>>)
    requires elements != []
    ensures PgElements(Join(PgElementTexts(elements), ",")) == elements <==> AllFaithful(elements)
  {
    var text := Join(PgElementTexts(elements), ",");
    if AllFaithful(elements) {
      ScanFaithfulElements(elements, []);
      assert [] + elements == elements;
    }
    if PgElements(text) == elements {
      var st := PgFold(PG_START, text);
      FoldIsReadable(PG_START, text);
      SlashesLost(elements, PG_START);
      FinishKeepsSlashes(st);
      AllSlashesIsSlashesOf(elements);
      assert !HasBareSlash(elements);
      FinishIsReadable(st);
    }
  }

  lemma FinishKeepsSlashes(st: PgScan)
    ensures SlashesOf(PgFinish(st)) <= SlashesIn(st)
  {
    ReadKeepsSlashes(st.current, true);
    var elem := Trim(st.current);
    SlashesOfAppend(st.elements, if elem == "NULL" || (elem == "" && !st.inQuotes) then None else Some(elem));
  }

  lemma FinishIsReadable(st: PgScan)
    requires Readable(st.elements) && !st.inQuotes
    ensures Readable(PgFinish(st))
  {
  }

  // ----- Nested arrays without quotes -----

  lemma {:induction false} NestFoldAppend(st: PgNest, a: string, b: string)
    ensures PgNestFold(st, a + b) == PgNestFold(PgNestFold(st, a), b)
    decreases |a|
  {
    if a == [] {
      assert a + b == b;
    } else {
      assert (a + b)[1..] == a[1..] + b;
      NestFoldAppend(PgNestStep(st, a[0]), a[1..], b);
    }
  }

  lemma NestFoldSingle(st: PgNest, c: char)
    ensures PgNestFold(st, [c]) == PgNestStep(st, c)
  {
    assert [c][1..] == "";
  }

  lemma NestFoldJoin(st: PgNest, parts: seq<string>)
    requires |parts| > 1
    ensures PgNestFold(st, Join(parts, ","))
         == PgNestFold(PgNestStep(PgNestFold(st, parts[0]), ','), Join(parts[1..], ","))
  {
    NestFoldAppend(st, parts[0] + ",", Join(parts[1..], ","));
    NestFoldAppend(st, parts[0], ",");
    NestFoldSingle(PgNestFold(st, parts[0]), ',');
  }

  /** Inside an array the splitter copies the text as a whole. */
  ghost predicate Copied(text: string) {
    forall st: PgNest :: st.depth >= 1 && !st.inString ==> CopiesAt(st, text)
  }

  ghost predicate CopiesAt(st: PgNest, text: string) {
    PgNestFold(st, text) == st.(current := st.current + text)
  }

  ghost predicate AllCopied(parts: seq<string>) {
    forall part :: part in parts ==> Copied(part)
  }

  lemma {:induction false} PlainIsCopiedAt(st: PgNest, s: string)
    requires st.depth >= 1 && !st.inString && '"' !in s && '{' !in s && '}' !in s
    ensures PgNestFold(st, s) == st.(current := st.current + s)
    decreases |s|
  {
    if s == [] {
      assert st.current + "" == st.current;
    } else {
      PlainIsCopiedAt(PgNestStep(st, s[0]), s[1..]);
      Assoc(st.current, [s[0]], s[1..]);
      assert [s[0]] + s[1..] == s;
    }
  }

  lemma UnquotedIsCopied(e: Option<string>)
    requires Unquoted(e)
    ensures Copied(PgElement(e))
  {
    forall st: PgNest | st.depth >= 1 && !st.inString
      ensures CopiesAt(st, PgElement(e))
    {
      PlainIsCopiedAt(st, PgElement(e));
    }
  }

  lemma {:induction false} JoinIsCopiedAt(parts: seq<string>, st: PgNest)
    requires AllCopied(parts) && st.depth >= 1 && !st.inString
    ensures PgNestFold(st, Join(parts, ",")) == st.(current := st.current + Join(parts, ","))
    decreases |parts|
  {
    assert parts != [] ==> parts[0] in parts && CopiesAt(st, parts[0]);
    if parts == [] {
      assert st.current + "" == st.current;
    } else if |parts| > 1 {
      var rest := Join(parts[1..], ",");
      var next := st.(current := st.current + parts[0]);
      NestFoldJoin(st, parts);
      assert PgNestFold(st, parts[0]) == next;
      JoinIsCopiedAt(parts[1..], st.(current := st.current + parts[0] + ","));
      Assoc(st.current, parts[0], ",");
      Assoc(st.current, parts[0] + ",", rest);
    }
  }

  function Texts(v: ArrayValue): seq<string> {
    match v
    case Empty => []
    case OneD(elements) => PgElementTexts(elements)
    case MultiD(arrays) => PgTexts(arrays)
  }

  lemma ToPgIsBraced(v: ArrayValue)
    ensures ToPg(v) == "{" + Join(Texts(v), ",") + "}"
  {
  }

  /** Braces around copied parts: copied in turn, and split off as one array at the top. */
  lemma BracedAt(parts: seq<string>, st: PgNest)
    requires AllCopied(parts) && st.depth >= 0 && !st.inString
    ensures var text := "{" + Join(parts, ",") + "}";
            PgNestFold(st, text)
              == if st.depth == 0 then PgNest(st.arrays + [Trim(st.current + text)], "", 0, false)
                 else st.(current := st.current + text)
  {
    var body := Join(parts, ",");
    var inside := st.(current := st.current + "{", depth := st.depth + 1);
    NestFoldAppend(st, "{" + body, "}");
    NestFoldAppend(st, "{", body);
    NestFoldSingle(st, '{');
    JoinIsCopiedAt(parts, inside);
    NestFoldSingle(inside.(current := inside.current + body), '}');
    InBraces(st.current, body);
  }

  lemma InBraces(before: string, body: string)
    ensures before + "{" + body + "}" == before + ("{" + body + "}")
  {
    Assoc(before, "{", body);
    Assoc(before, "{" + body, "}");
  }

  lemma {:induction false} QuoteFreeTextsAreCopied(v: ArrayValue)
    requires QuoteFree(v)
    ensures AllCopied(Texts(v)) && Copied(ToPg(v))
    decreases v, 1
  {
    if v.OneD? {
      forall part | part in Texts(v)
        ensures Copied(part)
      {
        var i :| 0 <= i < |v.elements| && part == PgElementTexts(v.elements)[i];
        UnquotedIsCopied(v.elements[i]);
      }
    } else if v.MultiD? {
      QuoteFreeArraysAreCopied(v.arrays);
    }
    BracedIsCopied(v);
  }

  lemma BracedIsCopied(v: ArrayValue)
    requires AllCopied(Texts(v))
    ensures Copied(ToPg(v))
  {
    ToPgIsBraced(v);
    forall st: PgNest | st.depth >= 1 && !st.inString
      ensures CopiesAt(st, ToPg(v))
    {
      BracedAt(Texts(v), st);
    }
  }

  lemma {:induction false} QuoteFreeArraysAreCopied(arrays: seq<ArrayValue>)
    requires AllQuoteFree(arrays)
    ensures AllCopied(PgTexts(arrays))
    decreases arrays, 0
  {
    if arrays != [] {
      QuoteFreeTextsAreCopied(arrays[0]);
      QuoteFreeArraysAreCopied(arrays[1..]);
    }
  }

  lemma {:induction false} LiteralShape(v: ArrayValue)
    ensures var text := ToPg(v); |text| >= 2 && text[0] == '{' && text[|text| - 1] == '}' && TrimStable(text)
  {
    ToPgIsBraced(v);
  }

  /** Without quotes the subarrays are split exactly. */
  lemma {:induction false} SubarraysAreSplit(arrays: seq<ArrayValue>, before: seq<string>)
    requires AllQuoteFree(arrays)
    ensures PgNestFold(PgNest(before, "", 0, false), Join(PgTexts(arrays), ","))
         == PgNest(before + PgTexts(arrays), "", 0, false)
    decreases |arrays|
  {
    if arrays == [] {
      assert before + [] == before;
    } else {
      SubarrayIsSplit(arrays[0], before);
      var texts := PgTexts(arrays);
      assert texts == [texts[0]] + texts[1..] && texts[1..] == PgTexts(arrays[1..]);
      if |arrays| > 1 {
        NestFoldJoin(PgNest(before, "", 0, false), texts);
        SubarraysAreSplit(arrays[1..], before + [texts[0]]);
        Assoc(before, [texts[0]], texts[1..]);
      }
    }
  }

  lemma SubarrayIsSplit(v: ArrayValue, before: seq<string>)
    requires QuoteFree(v)
    ensures PgNestFold(PgNest(before, "", 0, false), ToPg(v)) == PgNest(before + [ToPg(v)], "", 0, false)
  {
    QuoteFreeTextsAreCopied(v);
    ToPgIsBraced(v);
    LiteralShape(v);
    BracedAt(Texts(v), PgNest(before, "", 0, false));
    assert "" + ToPg(v) == ToPg(v);
  }

  // ----- Nested arrays with quotes -----

  /** Inside an array an opening quote is never closed again. */
  ghost predicate Stuck(st: PgNest) {
    st.inString && st.depth >= 1
  }

  lemma {:induction false} StaysStuck(st: PgNest, s: string)
    requires Stuck(st)
    ensures Stuck(PgNestFold(st, s)) && PgNestFold(st, s).arrays == st.arrays
    decreases |s|
  {
    if s != [] {
      StaysStuck(PgNestStep(st, s[0]), s[1..]);
    }
  }

  ghost predicate SticksAt(st: PgNest, text: string) {
    Stuck(PgNestFold(st, text)) && PgNestFold(st, text).arrays == st.arrays
  }

  ghost predicate CopiedBefore(parts: seq<string>, k: nat)
    requires k <= |parts|
  {
    forall i :: 0 <= i < k ==> Copied(parts[i])
  }

  /** From anywhere inside an array, the text ends within a quotation that nothing closes. */
  ghost predicate GetsStuck(text: string) {
    forall st: PgNest :: st.depth >= 1 && !st.inString ==> SticksAt(st, text)
  }

  lemma StuckInRest(parts: seq<string>, k: nat)
    requires 0 < k < |parts| && CopiedBefore(parts, k)
    ensures parts[1..][k - 1] == parts[k] && CopiedBefore(parts[1..], k - 1)
  {
  }

  lemma {:induction false} JoinGetsStuck(parts: seq<string>, k: nat, st: PgNest)
    requires k < |parts| && CopiedBefore(parts, k) && GetsStuck(parts[k]) && st.depth >= 1 && !st.inString
    ensures SticksAt(st, Join(parts, ","))
    decreases |parts|
  {
    if |parts| > 1 {
      var after := PgNestFold(st, parts[0]);
      NestFoldJoin(st, parts);
      if k == 0 {
        assert SticksAt(st, parts[0]);
        StaysStuck(PgNestStep(after, ','), Join(parts[1..], ","));
      } else {
        assert CopiesAt(st, parts[0]);
        StuckInRest(parts, k);
        JoinGetsStuck(parts[1..], k - 1, PgNestStep(after, ','));
      }
    }
  }

  lemma QuotedGetsStuck(s: string)
    requires NeedsQuotes(s)
    ensures GetsStuck(PgElement(Some(s)))
  {
    PgEscapeIsPerChar(s);
    forall st: PgNest | st.depth >= 1 && !st.inString
      ensures SticksAt(st, PgElement(Some(s)))
    {
      NestFoldAppend(st, "\"" + PgEscapeChars(s), "\"");
      NestFoldAppend(st, "\"", PgEscapeChars(s));
      NestFoldSingle(st, '"');
      StaysStuck(PgNestStep(st, '"'), PgEscapeChars(s));
      StaysStuck(PgNestFold(PgNestStep(st, '"'), PgEscapeChars(s)), "\"");
    }
  }

  /** The position of the first part that is not quote-free. */
  lemma {:induction false} FirstStuckPart(v: ArrayValue) returns (k: nat)
    requires !QuoteFree(v)
    ensures k < |Texts(v)| && CopiedBefore(Texts(v), k) && GetsStuck(Texts(v)[k])
    decreases v, 2
  {
    match v
    case OneD(elements) =>
      k := 0;
      while k < |elements| && Unquoted(elements[k])
        invariant k <= |elements| && forall i :: 0 <= i < k ==> Unquoted(elements[i])
      {
        k := k + 1;
      }
      forall i | 0 <= i < k
        ensures Copied(Texts(v)[i])
      {
        UnquotedIsCopied(elements[i]);
      }
      QuotedGetsStuck(elements[k].value);
    case MultiD(arrays) => k := FirstStuckArray(arrays);
  }

  lemma CopiedAndOneMore(texts: seq<string>, rest: seq<string>, k: nat)
    requires texts != [] && rest == texts[1..] && k < |rest| && Copied(texts[0]) && CopiedBefore(rest, k)
    ensures CopiedBefore(texts, k + 1) && texts[k + 1] == rest[k]
  {
    forall i | 0 <= i < k + 1
      ensures Copied(texts[i])
    {
      assert i > 0 ==> texts[i] == rest[i - 1];
    }
  }

  lemma FirstPgText(arrays: seq<ArrayValue>)
    requires arrays != []
    ensures PgTexts(arrays)[0] == ToPg(arrays[0]) && PgTexts(arrays)[1..] == PgTexts(arrays[1..])
  {
  }

  lemma {:induction false} FirstStuckArray(arrays: seq<ArrayValue>) returns (k: nat)
    requires !AllQuoteFree(arrays)
    ensures k < |arrays| && CopiedBefore(PgTexts(arrays), k) && GetsStuck(PgTexts(arrays)[k])
    decreases arrays, 0
  {
    if QuoteFree(arrays[0]) {
      k := FirstStuckArray(arrays[1..]);
      QuoteFreeTextsAreCopied(arrays[0]);
      FirstPgText(arrays);
      StuckOneLater(PgTexts(arrays), PgTexts(arrays[1..]), k);
      k := k + 1;
    } else {
      k := 0;
      FirstPgText(arrays);
      ArrayGetsStuck(arrays[0]);
    }
  }

  lemma StuckOneLater(texts: seq<string>, rest: seq<string>, k: nat)
    requires texts != [] && rest == texts[1..] && k < |rest| && Copied(texts[0]) && CopiedBefore(rest, k)
    requires GetsStuck(rest[k])
    ensures CopiedBefore(texts, k + 1) && GetsStuck(texts[k + 1])
  {
    CopiedAndOneMore(texts, rest, k);
  }

  lemma {:induction false} ArrayGetsStuck(v: ArrayValue)
    requires !QuoteFree(v)
    ensures GetsStuck(ToPg(v))
    decreases v, 3
  {
    var k := FirstStuckPart(v);
    forall st: PgNest | st.depth >= 1 && !st.inString
      ensures SticksAt(st, ToPg(v))
    {
      BracedGetsStuck(v, k, st);
    }
  }

  /** From the opening brace on, nothing is split off any more. */
  lemma BracedGetsStuck(v: ArrayValue, k: nat, st: PgNest)
    requires k < |Texts(v)| && CopiedBefore(Texts(v), k) && GetsStuck(Texts(v)[k]) && st.depth >= 0 && !st.inString
    ensures SticksAt(st, ToPg(v))
  {
    var body := Join(Texts(v), ",");
    ToPgIsBraced(v);
    NestFoldAppend(st, "{" + body, "}");
    NestFoldAppend(st, "{", body);
    NestFoldSingle(st, '{');
    JoinGetsStuck(Texts(v), k, PgNestStep(st, '{'));
    StaysStuck(PgNestFold(PgNestStep(st, '{'), body), "}");
  }

  /** With quotes somewhere inside, fewer subarrays are found than were printed. */
  lemma {:induction false} SubarraysAreLost(arrays: seq<ArrayValue>, before: seq<string>)
    requires !AllQuoteFree(arrays)
    ensures |PgNestFold(PgNest(before, "", 0, false), Join(PgTexts(arrays), ",")).arrays| < |before| + |arrays|
    decreases |arrays|
  {
    var st, texts := PgNest(before, "", 0, false), PgTexts(arrays);
    if |arrays| > 1 {
      NestFoldJoin(st, texts);
      assert texts[1..] == PgTexts(arrays[1..]);
    }
    if QuoteFree(arrays[0]) {
      SubarrayIsSplit(arrays[0], before);
      SubarraysAreLost(arrays[1..], before + [texts[0]]);
    } else {
      var k := FirstStuckPart(arrays[0]);
      BracedGetsStuck(arrays[0], k, st);
      if |arrays| > 1 {
        StaysStuck(PgNestStep(PgNestFold(st, texts[0]), ','), Join(texts[1..], ","));
      }
    }
  }

  // ----- The round trip -----

  lemma {:induction false} JoinStart(parts: seq<string>, sep: string)
    requires parts != [] && parts[0] != ""
    ensures Join(parts, sep) != "" && Join(parts, sep)[0] == parts[0][0]
  {
  }

  /** The literal of a one-dimensional array reads back exactly when all elements are faithful. */
  lemma {:induction false} FlatReadsBackIff(elements: seq<Option<string>>)
    requires elements != []
    ensures ParsePgArray(ToPg(OneD(elements))) == Parsed(OneD(elements)) <==> AllFaithful(elements)
  {
    var text, body := ToPg(OneD(elements)), Join(PgElementTexts(elements), ",");
    LiteralShape(OneD(elements));
    assert text[1..|text| - 1] == body;
    ElementsReadBackIff(elements);
    if Trimmed(elements) {
      TrimmedBody(elements);
    } else if PgElements(Trim(body)) == elements {
      ElementsAreTrimmed(Trim(body));
      assert false;
    }
  }

  predicate Trimmed(elements: seq<Option<string>>) {
    forall e :: e in elements ==> e.Some? ==> TrimStable(e.value)
  }

  lemma ElementsAreTrimmed(text: string)
    ensures Trimmed(PgElements(text))
  {
    FoldIsReadable(PG_START, text);
  }

  /** The elements' texts neither begin nor end with whitespace, and none begins with a brace. */
  lemma TrimmedBody(elements: seq<Option<string>>)
    requires elements != [] && Trimmed(elements)
    ensures var body := Join(PgElementTexts(elements), ","); Trim(body) == body && body != "" && body[0] != '{'
  {
    var texts := PgElementTexts(elements);
    forall part | part in texts
      ensures TrimStable(part) && part != ""
    {
      var i :| 0 <= i < |elements| && part == texts[i];
      assert elements[i] in elements;
    }
    JoinIsStable(texts);
    JoinStart(texts, ",");
  }

  /** At the top of a nested array: the reader sees the printed subarrays and nothing else. */
  lemma NestedIsRead(arrays: seq<ArrayValue>)
    requires arrays != []
    ensures var text, body := ToPg(MultiD(arrays)), Join(PgTexts(arrays), ",");
            AllWithin(PgSubarrays(body), |text| - 1)
            && (var parsed := ParsePgArrays(PgSubarrays(body), |text|);
                ParsePgArray(text)
                  == if parsed.Parsed? then Parsed(MultiD(parsed.value)) else parsed.PropagateFailure())
  {
    var text, body := ToPg(MultiD(arrays)), Join(PgTexts(arrays), ",");
    PgSubarraysWithin(body);
    LiteralShape(MultiD(arrays));
    NestedBody(arrays);
    assert text[1..|text| - 1] == body;
  }

  lemma NestedBody(arrays: seq<ArrayValue>)
    requires arrays != []
    ensures var body := Join(PgTexts(arrays), ","); TrimStable(body) && StartsWith(body, '{')
  {
    LiteralShape(arrays[0]);
    forall part | part in PgTexts(arrays)
      ensures TrimStable(part) && part != ""
    {
      var i :| 0 <= i < |arrays| && part == PgTexts(arrays)[i];
      LiteralShape(arrays[i]);
    }
    JoinIsStable(PgTexts(arrays));
    JoinStart(PgTexts(arrays), ",");
  }

  lemma {:induction false} ParsedAsMany(texts: seq<string>, bound: nat)
    requires bound > 0 && AllWithin(texts, bound - 1)
    ensures var parsed := ParsePgArrays(texts, bound); parsed.Parsed? ==> |parsed.value| == |texts|
    decreases |texts|
  {
    if texts != [] {
      ParsedAsMany(texts[1..], bound);
      assert ParsePgArrays(texts, bound).Parsed? ==> ParsePgArrays(texts[1..], bound).Parsed?;
    }
  }

  lemma {:induction false} PgReadsBackIff(v: ArrayValue)
    ensures ParsePgArray(ToPg(v)) == Parsed(v) <==> Literal(v)
    decreases v, 0
  {
    LiteralShape(v);
    match v
    case Empty =>
    case OneD(elements) =>
      if elements != [] {
        FlatReadsBackIff(elements);
      }
    case MultiD(arrays) =>
      if arrays != [] {
        NestedReadsBackIff(arrays);
      }
  }

  lemma {:induction false} NestedReadsBackIff(arrays: seq<ArrayValue>)
    requires arrays != []
    ensures ParsePgArray(ToPg(MultiD(arrays))) == Parsed(MultiD(arrays)) <==> AllQuoteFree(arrays) && AllLiteral(arrays)
    decreases arrays, 1
  {
    var text, body := ToPg(MultiD(arrays)), Join(PgTexts(arrays), ",");
    NestedIsRead(arrays);
    if AllQuoteFree(arrays) {
      SubarraysAreSplit(arrays, []);
      assert PgSubarrays(body) == PgTexts(arrays);
      AllPgReadBackIff(arrays, |text|);
    } else {
      SubarraysAreLost(arrays, []);
      ParsedAsMany(PgSubarrays(body), |text|);
    }
  }

  lemma FirstArrayIsParsed(texts: seq<string>, bound: nat, arrays: seq<ArrayValue>)
    requires bound > 0 && texts != [] && AllWithin(texts, bound - 1) && |texts| == |arrays|
    ensures ParsePgArrays(texts, bound) == Parsed(arrays)
       <==> ParsePgArray(texts[0]) == Parsed(arrays[0]) && ParsePgArrays(texts[1..], bound) == Parsed(arrays[1..])
  {
    var first, rest := ParsePgArray(texts[0]), ParsePgArrays(texts[1..], bound);
    if first.Parsed? && rest.Parsed? {
      SameArrays(first.value, rest.value, arrays);
    }
  }

  lemma SameArrays(head: ArrayValue, tail: seq<ArrayValue>, arrays: seq<ArrayValue>)
    requires arrays != []
    ensures [head] + tail == arrays <==> head == arrays[0] && tail == arrays[1..]
  {
    assert arrays == [arrays[0]] + arrays[1..];
    assert ([head] + tail)[1..] == tail;
  }

  lemma {:induction false} AllPgReadBackIff(arrays: seq<ArrayValue>, bound: nat)
    requires bound > 0 && AllWithin(PgTexts(arrays), bound - 1)
    ensures ParsePgArrays(PgTexts(arrays), bound) == Parsed(arrays) <==> AllLiteral(arrays)
    decreases arrays, 0
  {
    if arrays != [] {
      var texts := PgTexts(arrays);
      PgReadsBackIff(arrays[0]);
      AllPgReadBackIff(arrays[1..], bound);
      FirstArrayIsParsed(texts, bound, arrays);
    }
  }

  /** `parse_array` inverts `to_postgres_string` on exactly the arrays described by `Literal`. */
  lemma {:induction false} LiteralRoundTripIff(v: ArrayValue)
    ensures ParseArray(ToPg(v)) == Parsed(v) <==> Literal(v)
  {
    LiteralShape(v);
    PgReadsBackIff(v);
  }

  // ----- Malformed literals -----

  /** A quote that is never closed is ignored, and does not keep NULL from being one. */
  lemma OpenQuoteIsIgnored(word: string)
    requires word != "" && TrimStable(word) && '\\' !in word && '"' !in word && ',' !in word
    ensures PgElements("\"" + word) == [if word == "NULL" then None else Some(word)]
  {
    PgFoldAppend(PG_START, "\"", word);
    PgFoldSingle(PG_START, '"');
    ScanPgPlain(PG_START.(inQuotes := true), word);
    assert "" + word == word;
  }

  // ----- Literals with bounds -----

  lemma {:induction false} BoundsAreFound(bounds: string, literal: string)
    requires bounds != "" && bounds[|bounds| - 1] == ']' && '=' !in bounds && StartsWith(literal, '{')
    ensures FindBounds(bounds + "=" + literal) == |bounds| - 1
    decreases |bounds|
  {
    var s := bounds + "=" + literal;
    if |bounds| == 1 {
      assert s[..3] == "]={";
    } else {
      assert s[1] == bounds[1] && s[..3][1] == s[1] && "]={"[1] == '=';
      assert s[1..] == bounds[1..] + "=" + literal;
      BoundsAreFound(bounds[1..], literal);
    }
  }

  lemma {:induction false} AnyBoundWillDo(elements: seq<string>, m: nat, n: nat)
    requires m > 0 && n > 0 && AllWithin(elements, m - 1) && AllWithin(elements, n - 1)
    ensures ParsePgArrays(elements, m) == ParsePgArrays(elements, n)
  {
    if elements != [] {
      AnyBoundWillDo(elements[1..], m, n);
    }
  }

  lemma BracketIsJson(text: string)
    requires |text| >= 2 && TrimStable(text) && StartsWith(text, '[') && !EndsWith(text, ']')
    ensures ParseArray(text) == Rejected("Invalid JSON array format")
  {
  }

  lemma SameContent(content: string, bound: nat)
    requires 2 <= |content| <= bound
    ensures ParseBraces(content, bound) == ParseBraces(content, |content|)
  {
    var inner := content[1..|content| - 1];
    PgSubarraysWithin(inner);
    AnyBoundWillDo(PgSubarrays(inner), bound, |content|);
  }

  /** The reader of literals passes over bounds, as in `[1:2]={a,b}`. But it never sees them: what begins with a bracket
      is taken for JSON, and refused. */
  lemma BoundsAreRejected(bounds: string, literal: string)
    requires StartsWith(bounds, '[') && EndsWith(bounds, ']') && '=' !in bounds
    requires |literal| >= 2 && StartsWith(literal, '{') && EndsWith(literal, '}')
    ensures ParsePgArray(bounds + "=" + literal) == ParsePgArray(literal)
    ensures ParseArray(bounds + "=" + literal) == Rejected("Invalid JSON array format")
  {
    var text := bounds + "=" + literal;
    BoundsAreFound(bounds, literal);
    BoundedShape(bounds, literal);
    BracketIsJson(text);
    BracesAreTaken(text, literal);
    BracesAreTaken(literal, literal);
    SameContent(literal, |text|);
  }

  lemma BoundedShape(bounds: string, literal: string)
    requires StartsWith(bounds, '[') && EndsWith(bounds, ']') && StartsWith(literal, '{') && EndsWith(literal, '}')
    ensures var text := bounds + "=" + literal;
            TrimStable(text) && StartsWith(text, '[') && !EndsWith(text, ']') && text[|bounds| + 1..] == literal
  {
    var text := bounds + "=" + literal;
    assert text[0] == bounds[0] && text[|text| - 1] == literal[|literal| - 1];
  }

  lemma BracesAreTaken(text: string, content: string)
    requires TrimStable(text) && 2 <= |content| <= |text| && StartsWith(content, '{') && EndsWith(content, '}')
    requires var at := FindBounds(text);
             content == if StartsWith(text, '[') && at < |text| then text[at + 2..] else text
    ensures ParsePgArray(text) == ParseBraces(content, |text|)
  {
  }
}
