/** Texts of arrays that the printers do not write: bare elements, white space between the tokens, and literals inside
    JSON. */
module ArraySpelling {
  import opened Sequences
  import opened Wrappers
  import opened Text
  import opened ArrayText
  import opened ArrayJson
  import Literal = ArrayLiteral

  // ----- Elements -----

  /** A string or NULL as the printer writes it, or a word without quotes. */
  datatype Item = Written(element: Option<string>) | Bare(word: string)

  /** A word that the scanner passes over, and that is not the JSON null. */
  predicate IsWord(word: string) {
    && word != "" && TrimStable(word) && word != "null"
    && forall c :: c in word ==> c !in "\"[]{},"
  }

  predicate IsItem(item: Item) {
    item.Bare? ==> IsWord(item.word)
  }

  function ItemText(item: Item): string {
    if item.Written? then JsonElement(item.element) else item.word
  }

  function ItemValue(item: Item): Option<string> {
    if item.Written? then item.element else Some(item.word)
  }

  lemma {:induction false} WordIsCopied(st: JsonScan, word: string)
    requires !st.inString && !st.escapeNext && forall c :: c in word ==> c !in "\"[]{},"
    ensures JsonFold(st, word) == st.(current := st.current + word)
    decreases |word|
  {
    if word == "" {
      assert st.current + "" == st.current;
    } else {
      assert word[0] in word;
      WordIsCopied(st.(current := st.current + [word[0]]), word[1..]);
      assert st.current + [word[0]] + word[1..] == st.current + word;
    }
  }

  lemma WordIsTransparent(word: string)
    requires forall c :: c in word ==> c !in "\"[]{},"
    ensures Transparent(word)
  {
    forall elements, current, depth | depth >= 0
      ensures JsonFold(JsonScan(elements, current, depth, false, false), word)
           == JsonScan(elements, current + word, depth, false, false)
    {
      WordIsCopied(JsonScan(elements, current, depth, false, false), word);
    }
  }

  lemma ItemIsRead(item: Item)
    requires IsItem(item)
    ensures var text := ItemText(item);
            Transparent(text) && TrimStable(text) && text != "" && !LooksLikeArray(text)
            && JsonValue(text) == Parsed(ItemValue(item))
  {
    if item.Written? {
      ElementIsTransparent(item.element);
      ReadElement(item.element);
    } else {
      WordIsTransparent(item.word);
      assert item.word[0] in item.word;
    }
  }

  // ----- Parts with white space around them -----

  datatype Padded = Padded(before: string, core: string, after: string) {
    function Text(): string {
      before + core + after
    }
  }

  predicate IsSpaced(p: Padded) {
    IsPadding(p.before) && IsPadding(p.after) && TrimStable(p.core) && p.core != ""
  }

  ghost predicate IsPadded(p: Padded) {
    IsSpaced(p) && Transparent(p.core)
  }

  function Texts(parts: seq<Padded>): (texts: seq<string>)
    ensures |texts| == |parts| && forall i :: 0 <= i < |parts| ==> texts[i] == parts[i].Text()
  {
    seq(|parts|, i requires 0 <= i < |parts| => parts[i].Text())
  }

  function Cores(parts: seq<Padded>): (cores: seq<string>)
    ensures |cores| == |parts| && forall i :: 0 <= i < |parts| ==> cores[i] == parts[i].core
  {
    seq(|parts|, i requires 0 <= i < |parts| => parts[i].core)
  }

  lemma TransparentBoth(a: string, b: string)
    requires Transparent(a) && Transparent(b)
    ensures Transparent(a + b)
  {
    forall elements, current, depth | depth >= 0
      ensures JsonFold(JsonScan(elements, current, depth, false, false), a + b)
           == JsonScan(elements, current + (a + b), depth, false, false)
    {
      JsonFoldAppend(JsonScan(elements, current, depth, false, false), a, b);
      assert current + a + b == current + (a + b);
    }
  }

  lemma PaddingIsTransparent(padding: string)
    requires IsPadding(padding)
    ensures Transparent(padding)
  {
    forall c | c in padding
      ensures c !in "\"[]{},"
    {
      assert IsSpace(c);
    }
    WordIsTransparent(padding);
  }

  lemma PaddedIsWhole(p: Padded)
    requires IsPadded(p)
    ensures Transparent(p.Text()) && Trim(p.Text()) == p.core
  {
    PaddingIsTransparent(p.before);
    PaddingIsTransparent(p.after);
    TransparentBoth(p.before, p.core);
    TransparentBoth(p.before + p.core, p.after);
    TrimPadded(p.before, p.core, p.after);
  }

  /** The first and the last part without their outer space. */
  function WithoutFirst(parts: seq<Padded>): (r: seq<Padded>)
    requires parts != []
    ensures |r| == |parts|
  {
    [parts[0].(before := "")] + parts[1..]
  }

  function WithoutLast(parts: seq<Padded>): (r: seq<Padded>)
    requires parts != []
    ensures |r| == |parts|
  {
    parts[..|parts| - 1] + [parts[|parts| - 1].(after := "")]
  }

  lemma FirstPaddingIsOutside(parts: seq<Padded>)
    requires parts != []
    ensures Join(Texts(parts), ",") == parts[0].before + Join(Texts(WithoutFirst(parts)), ",")
  {
    var p, q := parts[0], parts[0].(before := "");
    assert q.Text() == p.core + p.after && p.Text() == p.before + q.Text();
    assert Texts(parts)[1..] == Texts(WithoutFirst(parts))[1..];
    if |parts| > 1 {
      var rest := Join(Texts(parts)[1..], ",");
      assert p.before + q.Text() + "," + rest == p.before + (q.Text() + "," + rest);
    }
  }

  lemma {:induction false} LastPaddingIsOutside(parts: seq<Padded>)
    requires parts != []
    ensures Join(Texts(parts), ",") == Join(Texts(WithoutLast(parts)), ",") + parts[|parts| - 1].after
    decreases |parts|
  {
    var texts, less := Texts(parts), Texts(WithoutLast(parts));
    if |parts| == 1 {
      var p := parts[0];
      assert p.(after := "").Text() == p.before + p.core;
    } else {
      LastPaddingIsOutside(parts[1..]);
      assert texts[1..] == Texts(parts[1..]) && less[1..] == Texts(WithoutLast(parts[1..]));
      var rest, after := Join(less[1..], ","), parts[|parts| - 1].after;
      assert less[0] + "," + (rest + after) == less[0] + "," + rest + after;
    }
  }

  lemma TightParts(parts: seq<Padded>)
    requires parts != [] && forall p :: p in parts ==> IsSpaced(p)
    ensures var tight := WithoutLast(WithoutFirst(parts));
            && (forall p :: p in tight ==> IsSpaced(p)) && Cores(tight) == Cores(parts)
            && Trim(Join(Texts(parts), ",")) == Join(Texts(tight), ",") && Join(Texts(tight), ",") != ""
  {
    var first := WithoutFirst(parts);
    var tight := WithoutLast(first);
    assert parts[0] in parts && parts[|parts| - 1] in parts;
    forall p | p in tight
      ensures IsSpaced(p)
    {
      var i :| 0 <= i < |tight| && tight[i] == p;
      assert parts[i] in parts && p.core == parts[i].core;
    }
    assert Cores(tight) == Cores(parts);
    FirstPaddingIsOutside(parts);
    LastPaddingIsOutside(first);
    TightIsStable(tight);
    TrimOutside(parts[0].before, Join(Texts(tight), ","), first[|first| - 1].after);
  }

  lemma TrimOutside(before: string, inner: string, after: string)
    requires IsPadding(before) && IsPadding(after) && TrimStable(inner) && inner != ""
    ensures Trim(before + (inner + after)) == inner
  {
    assert before + (inner + after) == before + inner + after;
    TrimPadded(before, inner, after);
  }

  lemma TightIsStable(parts: seq<Padded>)
    requires parts != [] && parts[0].before == "" && parts[|parts| - 1].after == ""
    requires parts[0].core != "" && parts[|parts| - 1].core != ""
    requires TrimStable(parts[0].core) && TrimStable(parts[|parts| - 1].core)
    ensures TrimStable(Join(Texts(parts), ",")) && Join(Texts(parts), ",") != ""
  {
    var text, first, last := Join(Texts(parts), ","), parts[0], parts[|parts| - 1];
    assert first.Text() == first.core + first.after && last.Text() == last.before + last.core;
    JoinStart(Texts(parts));
    JoinLast(Texts(parts));
  }

  lemma JoinStart(parts: seq<string>)
    requires parts != [] && parts[0] != ""
    ensures Join(parts, ",") != "" && Join(parts, ",")[0] == parts[0][0]
  {
  }

  lemma {:induction false} JoinLast(parts: seq<string>)
    requires parts != [] && parts[|parts| - 1] != ""
    ensures var text, last := Join(parts, ","), parts[|parts| - 1];
            text != "" && text[|text| - 1] == last[|last| - 1]
    decreases |parts|
  {
    if |parts| > 1 {
      JoinLast(parts[1..]);
    }
  }

  /** A bracketed list of padded parts is taken apart into the parts without their padding. */
  lemma PaddedAreSplit(parts: seq<Padded>)
    requires parts != [] && forall p :: p in parts ==> IsPadded(p)
    ensures var inner := Trim(Join(Texts(parts), ",")); inner != "" && JsonElements(inner) == Cores(parts)
    ensures Transparent("[" + Join(Texts(parts), ",") + "]") && Transparent("{" + Join(Texts(parts), ",") + "}")
  {
    var tight := WithoutLast(WithoutFirst(parts));
    TightParts(parts);
    AllAreWhole(parts);
    BracketsAreTransparent(Texts(parts), '[', ']');
    BracketsAreTransparent(Texts(parts), '{', '}');
    forall p | p in tight
      ensures IsPadded(p)
    {
      var i :| 0 <= i < |tight| && tight[i] == p;
      assert parts[i] in parts && Cores(tight)[i] == Cores(parts)[i];
    }
    AllAreWhole(tight);
    JoinedIsSplit(Texts(tight), []);
  }

  lemma AllAreWhole(parts: seq<Padded>)
    requires forall p :: p in parts ==> IsPadded(p)
    ensures AllTransparent(Texts(parts)) && Trimmed(Texts(parts)) == Cores(parts)
    ensures forall text :: text in Texts(parts) ==> Trim(text) != ""
  {
    forall i | 0 <= i < |parts|
      ensures Transparent(Texts(parts)[i]) && Trim(Texts(parts)[i]) == parts[i].core != ""
    {
      assert parts[i] in parts;
      PaddedIsWhole(parts[i]);
    }
    forall text | text in Texts(parts)
      ensures Transparent(text) && Trim(text) != ""
    {
      var i :| 0 <= i < |parts| && Texts(parts)[i] == text;
    }
  }

  // ----- Arrays -----

  /** White space stands in front of and behind every item of a list, and between the brackets of an empty one. The
      last two are literals in braces. */
  datatype Spelling =
    | NoItems(space: string)
    | Items(items: seq<PaddedItem>)
    | Arrays(arrays: seq<PaddedArray>)
    | NoElements(space: string)
    | Elements(elements: seq<PaddedElement>)

  /** An element of a literal, as the other printer writes it. */
  datatype PaddedElement = PaddedElement(before: string, element: Option<string>, after: string)

  datatype PaddedItem = PaddedItem(before: string, item: Item, after: string)

  datatype PaddedArray = PaddedArray(before: string, inner: Spelling, after: string)

  predicate IsSpelling(s: Spelling)
    decreases s
  {
    match s
    case NoItems(space) => IsPadding(space)
    case Items(items) =>
      items != [] && forall i :: 0 <= i < |items| ==>
        IsPadding(items[i].before) && IsItem(items[i].item) && IsPadding(items[i].after)
    case Arrays(arrays) => arrays != [] && AreSpellings(arrays)
    case NoElements(space) => IsPadding(space)
    case Elements(elements) => IsLiteral(elements) && PassesScanner(elements)
  }

  predicate IsLiteral(elements: seq<PaddedElement>) {
    elements != [] && forall i :: 0 <= i < |elements| ==>
      IsPadding(elements[i].before) && Literal.Faithful(elements[i].element) && IsPadding(elements[i].after)
  }

  /** Nothing in the elements that the scanner for JSON takes notice of. */
  predicate PassesScanner(elements: seq<PaddedElement>) {
    forall i :: 0 <= i < |elements| ==> forall c :: c in PgElement(elements[i].element) ==> c !in "\"[]{},"
  }

  predicate AreSpellings(arrays: seq<PaddedArray>)
    decreases arrays
  {
    arrays != [] ==>
      && IsPadding(arrays[0].before) && IsSpelling(arrays[0].inner) && IsPadding(arrays[0].after)
      && AreSpellings(arrays[1..])
  }

  function Spelled(s: Spelling): string
    decreases s, 1
  {
    match s
    case NoItems(space) => "[" + space + "]"
    case Items(items) => "[" + Join(Texts(ItemParts(items)), ",") + "]"
    case Arrays(arrays) => "[" + Join(Texts(ArrayParts(arrays)), ",") + "]"
    case NoElements(space) => "{" + space + "}"
    case Elements(elements) => "{" + Join(Texts(ElementParts(elements)), ",") + "}"
  }

  function ElementParts(elements: seq<PaddedElement>): (parts: seq<Padded>)
    ensures |parts| == |elements|
    ensures forall i :: 0 <= i < |elements| ==>
                          parts[i] == Padded(elements[i].before, PgElement(elements[i].element), elements[i].after)
  {
    seq(|elements|, i requires 0 <= i < |elements| =>
      Padded(elements[i].before, PgElement(elements[i].element), elements[i].after))
  }

  function ElementValues(elements: seq<PaddedElement>): (values: seq<Option<string>>)
    ensures |values| == |elements| && forall i :: 0 <= i < |elements| ==> values[i] == elements[i].element
  {
    seq(|elements|, i requires 0 <= i < |elements| => elements[i].element)
  }

  function ItemParts(items: seq<PaddedItem>): (parts: seq<Padded>)
    ensures |parts| == |items|
    ensures forall i :: 0 <= i < |items| ==>
                          parts[i] == Padded(items[i].before, ItemText(items[i].item), items[i].after)
  {
    seq(|items|, i requires 0 <= i < |items| => Padded(items[i].before, ItemText(items[i].item), items[i].after))
  }

  function ArrayParts(arrays: seq<PaddedArray>): (parts: seq<Padded>)
    ensures |parts| == |arrays|
    decreases arrays, 0
  {
    if arrays == [] then []
    else [Padded(arrays[0].before, Spelled(arrays[0].inner), arrays[0].after)] + ArrayParts(arrays[1..])
  }

  function Values(items: seq<PaddedItem>): seq<Option<string>> {
    seq(|items|, i requires 0 <= i < |items| => ItemValue(items[i].item))
  }

  /** The array that is meant. */
  function Meaning(s: Spelling): ArrayValue
    decreases s, 1
  {
    match s
    case NoItems(_) => Empty
    case Items(items) => OneD(Values(items))
    case Arrays(arrays) => MultiD(Meanings(arrays))
    case NoElements(_) => Empty
    case Elements(elements) => OneD(ElementValues(elements))
  }

  function Meanings(arrays: seq<PaddedArray>): (meanings: seq<ArrayValue>)
    ensures |meanings| == |arrays|
    decreases arrays, 0
  {
    if arrays == [] then [] else [Meaning(arrays[0].inner)] + Meanings(arrays[1..])
  }

  lemma SpelledShape(s: Spelling)
    ensures var text := Spelled(s); |text| >= 2 && Brackets(text[0], text[|text| - 1])
    ensures TrimStable(Spelled(s)) && LooksLikeArray(Spelled(s))
  {
  }

  lemma ItemsArePadded(items: seq<PaddedItem>)
    requires IsSpelling(Items(items))
    ensures forall p :: p in ItemParts(items) ==> IsPadded(p)
  {
    forall p | p in ItemParts(items)
      ensures IsPadded(p)
    {
      var i :| 0 <= i < |items| && ItemParts(items)[i] == p;
      ItemIsRead(items[i].item);
    }
  }

  lemma {:induction false} SpelledIsTransparent(s: Spelling)
    requires IsSpelling(s)
    ensures Transparent(Spelled(s))
    decreases s, 1
  {
    match s
    case NoItems(space) =>
      SpaceIsTransparent(space, '[', ']');
    case Items(items) =>
      ItemsArePadded(items);
      PaddedAreSplit(ItemParts(items));
    case Arrays(arrays) =>
      ArraysArePadded(arrays);
      PaddedAreSplit(ArrayParts(arrays));
    case NoElements(space) =>
      SpaceIsTransparent(space, '{', '}');
    case Elements(elements) =>
      ElementsAreSpaced(elements);
      ElementsArePadded(elements);
      PaddedAreSplit(ElementParts(elements));
  }

  lemma SpaceIsTransparent(space: string, open: char, close: char)
    requires IsPadding(space) && Brackets(open, close)
    ensures Transparent([open] + space + [close])
  {
    PaddingIsTransparent(space);
    BracketsAreTransparent([space], open, close);
    assert Join([space], ",") == space;
  }

  lemma ElementsAreSpaced(elements: seq<PaddedElement>)
    requires IsLiteral(elements)
    ensures forall p :: p in ElementParts(elements) ==> IsSpaced(p)
  {
    forall p | p in ElementParts(elements)
      ensures IsSpaced(p)
    {
      var i :| 0 <= i < |elements| && ElementParts(elements)[i] == p;
      ElementIsSpaced(elements[i]);
    }
  }

  lemma ElementIsSpaced(e: PaddedElement)
    requires IsPadding(e.before) && Literal.Faithful(e.element) && IsPadding(e.after)
    ensures IsSpaced(Padded(e.before, PgElement(e.element), e.after))
  {
  }

  lemma ElementsArePadded(elements: seq<PaddedElement>)
    requires IsLiteral(elements) && PassesScanner(elements)
    ensures forall p :: p in ElementParts(elements) ==> IsPadded(p)
  {
    ElementsAreSpaced(elements);
    forall p | p in ElementParts(elements)
      ensures Transparent(p.core)
    {
      var i :| 0 <= i < |elements| && ElementParts(elements)[i] == p;
      WordIsTransparent(p.core);
    }
  }

  lemma {:induction false} ArraysArePadded(arrays: seq<PaddedArray>)
    requires AreSpellings(arrays)
    ensures forall p :: p in ArrayParts(arrays) ==> IsPadded(p) && LooksLikeArray(p.core)
    decreases arrays, 0
  {
    if arrays != [] {
      SpelledIsTransparent(arrays[0].inner);
      SpelledShape(arrays[0].inner);
      ArraysArePadded(arrays[1..]);
    }
  }

  lemma FirstItem(items: seq<PaddedItem>)
    requires items != []
    ensures Cores(ItemParts(items)) == [ItemText(items[0].item)] + Cores(ItemParts(items[1..]))
    ensures Values(items) == [ItemValue(items[0].item)] + Values(items[1..])
  {
    assert ItemParts(items)[0].core == ItemText(items[0].item);
    assert ItemParts(items)[1..] == ItemParts(items[1..]);
    FirstCore(ItemParts(items));
  }

  lemma FirstCore(parts: seq<Padded>)
    requires parts != []
    ensures Cores(parts) == [parts[0].core] + Cores(parts[1..])
  {
  }

  lemma {:induction false} ValuesAreRead(items: seq<PaddedItem>)
    requires forall i :: 0 <= i < |items| ==> IsItem(items[i].item)
    ensures JsonValues(Cores(ItemParts(items))) == Parsed(Values(items))
  {
    if items == [] {
      assert Cores(ItemParts(items)) == [] && Values(items) == [];
    } else {
      ItemIsRead(items[0].item);
      ValuesAreRead(items[1..]);
      FirstItem(items);
      ValueInFront(ItemText(items[0].item), ItemValue(items[0].item), Cores(ItemParts(items[1..])), Values(items[1..]));
    }
  }

  lemma EmptyIsRead(space: string)
    requires IsPadding(space)
    ensures ParseArray("[" + space + "]") == Parsed(Empty)
  {
    Bracketed(space);
    TrimPadding(space);
  }

  lemma Braced(body: string)
    ensures var text := "{" + body + "}"; TrimStable(text) && text[1..|text| - 1] == body
    ensures ParseArray("{" + body + "}") == ParseBraces("{" + body + "}", |body| + 2)
  {
    var text := "{" + body + "}";
    assert Trim(text) == text && text[0] == '{' && text[|text| - 1] == '}';
  }

  lemma EmptyLiteralIsRead(space: string)
    requires IsPadding(space)
    ensures ParseArray("{" + space + "}") == Parsed(Empty)
  {
    Braced(space);
    TrimPadding(space);
  }

  ghost predicate AreElements(parts: seq<Padded>, elements: seq<Option<string>>) {
    |parts| == |elements| && forall i :: 0 <= i < |parts| ==>
      IsSpaced(parts[i]) && parts[i].core == PgElement(elements[i]) && Literal.Faithful(elements[i])
  }

  lemma FirstElementIsSplit(parts: seq<Padded>, e: Option<string>, before: seq<Option<string>>)
    requires |parts| > 1 && IsSpaced(parts[0]) && parts[0].core == PgElement(e) && Literal.Faithful(e)
    ensures PgFold(PgScan(before, "", false, false), Join(Texts(parts), ","))
         == PgFold(PgScan(before + [e], "", false, false), Join(Texts(parts[1..]), ","))
  {
    ElementIsCollected(parts[0], e, before);
    Literal.PgFoldJoin(PgScan(before, "", false, false), Texts(parts));
    assert Texts(parts)[1..] == Texts(parts[1..]);
  }

  /** Whatever stands around it in white space, each part is read as its element. */
  lemma {:induction false} ElementsAreSplit(parts: seq<Padded>, elements: seq<Option<string>>,
                                            before: seq<Option<string>>)
    requires parts != [] && AreElements(parts, elements)
    ensures PgFinish(PgFold(PgScan(before, "", false, false), Join(Texts(parts), ","))) == before + elements
    decreases |parts|
  {
    if |parts| == 1 {
      ElementIsCollected(parts[0], elements[0], before);
      assert elements == [elements[0]];
    } else {
      FirstElementIsSplit(parts, elements[0], before);
      ElementsAreSplit(parts[1..], elements[1..], before + [elements[0]]);
      AppendOne(before, elements[0], elements[1..]);
      assert [elements[0]] + elements[1..] == elements;
    }
  }

  lemma ElementIsCollected(p: Padded, e: Option<string>, before: seq<Option<string>>)
    requires IsSpaced(p) && p.core == PgElement(e) && Literal.Faithful(e)
    ensures var st := PgFold(PgScan(before, "", false, false), p.Text());
            && PgStep(st, ',') == PgScan(before + [e], "", false, false)
            && PgFinish(st) == before + [e]
  {
    var st, raw := PgScan(before, "", false, false), if e.Some? then e.value else "NULL";
    PaddingIsPlain(p.before);
    PaddingIsPlain(p.after);
    Literal.PgFoldAppend(st, p.before + p.core, p.after);
    Literal.PgFoldAppend(st, p.before, p.core);
    Literal.ScanPgPlain(st, p.before);
    assert "" + p.before == p.before;
    Literal.FaithfulIsCollected(st.(current := p.before), e);
    Literal.ScanPgPlain(st.(current := p.before + raw), p.after);
    TrimPadded(p.before, raw, p.after);
  }

  lemma PaddingIsPlain(padding: string)
    requires IsPadding(padding)
    ensures '\\' !in padding && '"' !in padding && ',' !in padding
  {
    assert !IsSpace('\\') && !IsSpace('"') && !IsSpace(',');
  }

  /** A literal with white space between its tokens is read as its elements, if they come back from a literal at all. */
  lemma LiteralIsRead(elements: seq<PaddedElement>)
    requires IsLiteral(elements)
    ensures ParseArray("{" + Join(Texts(ElementParts(elements)), ",") + "}") == Parsed(OneD(ElementValues(elements)))
  {
    var parts, values := ElementParts(elements), ElementValues(elements);
    var tight := WithoutLast(WithoutFirst(parts));
    Braced(Join(Texts(parts), ","));
    ElementsAreSpaced(elements);
    TightParts(parts);
    forall i | 0 <= i < |tight|
      ensures IsSpaced(tight[i]) && tight[i].core == PgElement(values[i])
    {
      assert Cores(tight)[i] == Cores(parts)[i] && tight[i] in tight;
    }
    ElementsAreSplit(tight, values, []);
    assert [] + values == values;
    FirstIsNoBrace(tight, values[0]);
  }

  lemma FirstIsNoBrace(parts: seq<Padded>, e: Option<string>)
    requires parts != [] && parts[0].before == "" && parts[0].core == PgElement(e) && Literal.Faithful(e)
    ensures !StartsWith(Join(Texts(parts), ","), '{')
  {
    var text := PgElement(e);
    assert parts[0].Text() == text + parts[0].after;
    JoinStart(Texts(parts));
    assert text[0] != '{' by {
      assert e.Some? && !NeedsQuotes(e.value) ==> e.value[0] in e.value;
    }
  }

  lemma ItemsAreRead(items: seq<PaddedItem>)
    requires IsSpelling(Items(items))
    ensures ParseArray(Spelled(Items(items))) == Parsed(OneD(Values(items)))
  {
    var parts := ItemParts(items);
    ItemsArePadded(items);
    PaddedAreSplit(parts);
    Bracketed(Join(Texts(parts), ","));
    ValuesAreRead(items);
    ItemIsRead(items[0].item);
    FlatJsonIsRead(Cores(parts), Spelled(Items(items)), Values(items));
  }

  lemma {:induction false} ArraysAreRead(arrays: seq<PaddedArray>)
    requires IsSpelling(Arrays(arrays))
    ensures ParseArray(Spelled(Arrays(arrays))) == Parsed(MultiD(Meanings(arrays)))
    decreases arrays, 1
  {
    var cores, text := Cores(ArrayParts(arrays)), Spelled(Arrays(arrays));
    ArrayCores(arrays);
    SpellingsAreRead(arrays, |text|);
    NestedJsonIsRead(cores, text);
  }

  lemma ArrayCores(arrays: seq<PaddedArray>)
    requires IsSpelling(Arrays(arrays))
    ensures var cores, text := Cores(ArrayParts(arrays)), Spelled(Arrays(arrays));
            && cores != [] && AllWithin(cores, |text| - 1)
            && (forall core :: core in cores ==> LooksLikeArray(Trim(core)))
            && StartsWith(text, '[') && EndsWith(text, ']') && Trim(text) == text
            && Trim(text[1..|text| - 1]) != "" && JsonElements(Trim(text[1..|text| - 1])) == cores
  {
    var parts, text := ArrayParts(arrays), Spelled(Arrays(arrays));
    ArraysArePadded(arrays);
    PaddedAreSplit(parts);
    Bracketed(Join(Texts(parts), ","));
    JsonElementsWithin(Trim(text[1..|text| - 1]));
    CoresLookLikeArrays(parts);
  }

  lemma CoresLookLikeArrays(parts: seq<Padded>)
    requires forall p :: p in parts ==> TrimStable(p.core) && LooksLikeArray(p.core)
    ensures forall core :: core in Cores(parts) ==> LooksLikeArray(Trim(core))
  {
    forall core | core in Cores(parts)
      ensures LooksLikeArray(Trim(core))
    {
      var i :| 0 <= i < |parts| && Cores(parts)[i] == core;
      assert parts[i] in parts;
    }
  }

  /** Whatever the spelling, at any depth, the array that is meant is read. */
  lemma {:induction false} SpellingIsRead(before: string, s: Spelling, after: string)
    requires IsPadding(before) && IsSpelling(s) && IsPadding(after)
    ensures ParseArray(before + Spelled(s) + after) == Parsed(Meaning(s))
    decreases s, 1
  {
    match s {
      case NoItems(space) => EmptyIsRead(space);
      case Items(items) => ItemsAreRead(items);
      case Arrays(arrays) => ArraysAreRead(arrays);
      case NoElements(space) => EmptyLiteralIsRead(space);
      case Elements(elements) => LiteralIsRead(elements);
    }
    SpelledShape(s);
    TrimPadded(before, Spelled(s), after);
    SameTrimmed(before + Spelled(s) + after, Spelled(s));
  }

  lemma SameTrimmed(a: string, b: string)
    requires Trim(a) == Trim(b)
    ensures ParseArray(a) == ParseArray(b)
  {
  }

  lemma {:induction false} SpellingsAreRead(arrays: seq<PaddedArray>, bound: nat)
    requires AreSpellings(arrays) && bound > 0 && AllWithin(Cores(ArrayParts(arrays)), bound - 1)
    ensures ParseArrays(Cores(ArrayParts(arrays)), bound) == Parsed(Meanings(arrays))
    decreases arrays, 0
  {
    if arrays != [] {
      var text := Spelled(arrays[0].inner);
      SpellingIsRead("", arrays[0].inner, "");
      assert "" + text + "" == text;
      assert Cores(ArrayParts(arrays))[1..] == Cores(ArrayParts(arrays[1..]));
      assert Cores(ArrayParts(arrays))[0] == text;
      SpellingsAreRead(arrays[1..], bound);
    }
  }

  // ----- Other texts -----

  /** White space is the empty array; any other text must begin with a bracket or a brace. */
  lemma OtherTexts(input: string)
    ensures IsPadding(input) ==> ParseArray(input) == Parsed(Empty)
    ensures Trim(input) != "" && Trim(input)[0] !in "[{" ==> ParseArray(input) == Rejected("Unknown array format")
  {
    if IsPadding(input) {
      TrimPadding(input);
    }
  }

  /** Between two commas there is a NULL. */
  lemma MissingElementIsNull(a: string, b: string)
    requires IsWord(a) && IsWord(b)
    ensures ParseArray("[" + (a + ",," + b) + "]") == Parsed(OneD([Some(a), None, Some(b)]))
  {
    var body := a + ",," + b;
    var text, parts := "[" + body + "]", [a, "", b];
    Bracketed(body);
    ItemIsRead(Bare(a));
    ItemIsRead(Bare(b));
    MissingIsSplit(a, b);
    MissingIsRead(a, b);
    FlatJsonIsRead(parts, text, [Some(a), None, Some(b)]);
  }

  lemma MissingIsSplit(a: string, b: string)
    requires Transparent(a) && Transparent(b) && TrimStable(a) && TrimStable(b) && a != "" && b != ""
    ensures Trim(a + ",," + b) == a + ",," + b && JsonElements(a + ",," + b) == [a, "", b]
  {
    assert TrimStable(a + ",," + b);
    assert a + ",," + b == a + "," + ("" + "," + b) && [] + [Trim(a)] == [a];
    PaddingIsTransparent("");
    TrimPadding("");
    FirstPartIsSplit(a, "" + "," + b, []);
    FirstPartIsSplit("", b, [a]);
    PartIsCollected(b, [a, ""]);
    assert [a] + [""] == [a, ""] && [a, ""] + [b] == [a, "", b];
  }

  lemma ValueInFront(e: string, value: Option<string>, rest: seq<string>, values: seq<Option<string>>)
    requires JsonValue(e) == Parsed(value) && JsonValues(rest) == Parsed(values)
    ensures JsonValues([e] + rest) == Parsed([value] + values)
  {
    assert ([e] + rest)[1..] == rest;
  }

  lemma MissingIsRead(a: string, b: string)
    requires JsonValue(a) == Parsed(Some(a)) && JsonValue(b) == Parsed(Some(b))
    ensures JsonValues([a, "", b]) == Parsed([Some(a), None, Some(b)])
  {
    TrimPadding("");
    assert JsonValue("") == Parsed(None);
    ValueInFront(b, Some(b), [], []);
    ValueInFront("", None, [b] + [], [Some(b)] + []);
    ValueInFront(a, Some(a), [""] + ([b] + []), [None] + ([Some(b)] + []));
    assert [a] + ([""] + ([b] + [])) == [a, "", b];
    assert [Some(a)] + ([None] + ([Some(b)] + [])) == [Some(a), None, Some(b)];
  }
}
