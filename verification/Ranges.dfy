/** Integer ranges (src/range.rs): literals, their canonical form, and the operators on them. */
module Ranges {
  import opened Wrappers
  import opened Decimal
  import Text

  datatype RangeType = Int4 | Int8

  datatype Bound = Value(text: string) | Infinite

  datatype RangeValue =
    | Range(low: Bound, high: Bound, lowInc: bool, highInc: bool, rtype: RangeType)
    | Empty(rtype: RangeType)

  // ----- The code -----

  /** `i + 1` on i64, which wraps around in a release build. */
  function Successor(n: int): int {
    if n == I64_MAX then I64_MIN else n + 1
  }

  /** A text that is no integer stays as it is. */
  function IncrementDiscrete(v: string): string {
    var n := ParseI64(v);
    if n.Some? then OfInt(Successor(n.value)) else v
  }

  /** A text that is no integer counts as 0. */
  function Number(v: string): int {
    var n := ParseI64(v);
    if n.Some? then n.value else 0
  }

  /** Negative, zero or positive. */
  function CompareDiscrete(a: string, b: string): int {
    Number(a) - Number(b)
  }

  method Canonicalize(r: RangeValue) returns (c: RangeValue)
    ensures c == Canonical(r)
  {
    if r.Empty? {
      return r;
    }
    var low, high, lowInc, highInc := r.low, r.high, r.lowInc, r.highInc;
    if !lowInc {
      if low.Value? {
        low := Value(IncrementDiscrete(low.text));
        lowInc := true;
      }
    }
    if highInc {
      if high.Value? {
        high := Value(IncrementDiscrete(high.text));
        highInc := false;
      }
    }
    if low.Value? && high.Value? {
      var order := CompareDiscrete(low.text, high.text);
      if order > 0 || (order == 0 && (!lowInc || !highInc)) {
        return Empty(r.rtype);
      }
    }
    c := Range(low, high, lowInc, highInc, r.rtype);
  }

  function Canonical(r: RangeValue): RangeValue {
    if r.Empty? then r
    else
      var low := if !r.lowInc && r.low.Value? then Value(IncrementDiscrete(r.low.text)) else r.low;
      var high := if r.highInc && r.high.Value? then Value(IncrementDiscrete(r.high.text)) else r.high;
      if low.Value? && high.Value? && Number(low.text) >= Number(high.text) then Empty(r.rtype)
      else Range(low, high, r.lowInc || low.Value?, r.highInc && high.Infinite?, r.rtype)
  }

  function ToPostgresString(r: RangeValue): string {
    match r
    case Empty(_) => "empty"
    case Range(low, high, lowInc, highInc, _) =>
      var lowText := if low.Value? then low.text else "";
      var highText := if high.Value? then high.text else "";
      (if lowInc then "[" else "(") + lowText + "," + highText + (if highInc then "]" else ")")
  }

  function Lowercase(s: string): (t: string)
    ensures |t| == |s|
  {
    seq(|s|, i requires 0 <= i < |s| => if 'A' <= s[i] <= 'Z' then (s[i] as int + 32) as char else s[i])
  }

  function BoundOf(text: string): Bound {
    if text == "" then Infinite else Value(text)
  }

  /** A range literal as it is written, before it is canonicalized. */
  function ReadLiteral(input: string, rtype: RangeType): Result<RangeValue> {
    var trimmed := Text.Trim(input);
    if Lowercase(trimmed) == "empty" then Ok(Empty(rtype))
    else if |trimmed| < 2 || trimmed[0] !in "[(" || trimmed[|trimmed| - 1] !in "])" then
      Err("Invalid range format: " + input)
    else
      var content := trimmed[1..|trimmed| - 1];
      var comma := Text.IndexOf(content, ',');
      if comma == |content| then Err("Invalid range format (missing comma): " + input)
      else
        Ok(Range(BoundOf(Text.Trim(content[..comma])), BoundOf(Text.Trim(content[comma + 1..])),
                 trimmed[0] == '[', trimmed[|trimmed| - 1] == ']', rtype))
  }

  method ParseRange(input: string, rtype: RangeType) returns (r: Result<RangeValue>)
    ensures r == Parsed(input, rtype)
  {
    var literal := ReadLiteral(input, rtype);
    if literal.Err? {
      return literal;
    }
    var c := Canonicalize(literal.value);
    r := Ok(c);
  }

  function Parsed(input: string, rtype: RangeType): Result<RangeValue> {
    var r := ReadLiteral(input, rtype);
    if r.Err? then r else Ok(Canonical(r.value))
  }

  function RangeContainsElem(range: string, elem: string, rtype: RangeType): Result<bool> {
    var r := Parsed(range, rtype);
    if r.Err? then Err(r.error)
    else match r.value
      case Empty(_) => Ok(false)
      case Range(low, high, lowInc, highInc, _) =>
        var lowOk := low.Infinite?
          || CompareDiscrete(elem, low.text) > 0 || (CompareDiscrete(elem, low.text) == 0 && lowInc);
        var highOk := high.Infinite?
          || CompareDiscrete(elem, high.text) < 0 || (CompareDiscrete(elem, high.text) == 0 && highInc);
        Ok(lowOk && highOk)
  }

  function RangeContains(left: string, right: string, rtype: RangeType): Result<bool> {
    var l, r := Parsed(left, rtype), Parsed(right, rtype);
    if l.Err? then Err(l.error)
    else if r.Err? then Err(r.error)
    else if r.value.Empty? then Ok(true)
    else if l.value.Empty? then Ok(false)
    else
      var lowOk :=
        if l.value.low.Infinite? then true
        else if r.value.low.Infinite? then false
        else
          var order := CompareDiscrete(l.value.low.text, r.value.low.text);
          order < 0 || (order == 0 && (l.value.lowInc || !r.value.lowInc));
      var highOk :=
        if l.value.high.Infinite? then true
        else if r.value.high.Infinite? then false
        else
          var order := CompareDiscrete(l.value.high.text, r.value.high.text);
          order > 0 || (order == 0 && (l.value.highInc || !r.value.highInc));
      Ok(lowOk && highOk)
  }

  /** The end of the first range is left of the start of the second. */
  predicate EndsBefore(l: RangeValue, r: RangeValue)
    requires l.Range? && r.Range?
  {
    if l.high.Infinite? || r.low.Infinite? then false
    else
      var order := CompareDiscrete(l.high.text, r.low.text);
      order < 0 || (order == 0 && (!l.highInc || !r.lowInc))
  }

  function RangeOverlaps(left: string, right: string, rtype: RangeType): Result<bool> {
    var l, r := Parsed(left, rtype), Parsed(right, rtype);
    if l.Err? then Err(l.error)
    else if r.Err? then Err(r.error)
    else if l.value.Empty? || r.value.Empty? then Ok(false)
    else Ok(!(EndsBefore(l.value, r.value) || EndsBefore(r.value, l.value)))
  }

  function RangeLeft(left: string, right: string, rtype: RangeType): Result<bool> {
    var l, r := Parsed(left, rtype), Parsed(right, rtype);
    if l.Err? then Err(l.error)
    else if r.Err? then Err(r.error)
    else if l.value.Empty? || r.value.Empty? then Ok(false)
    else Ok(EndsBefore(l.value, r.value))
  }

  predicate Meets(l: RangeValue, r: RangeValue)
    requires l.Range? && r.Range?
  {
    l.high.Value? && r.low.Value? && CompareDiscrete(l.high.text, r.low.text) == 0 && l.highInc != r.lowInc
  }

  function RangeAdjacent(left: string, right: string, rtype: RangeType): Result<bool> {
    var l, r := Parsed(left, rtype), Parsed(right, rtype);
    if l.Err? then Err(l.error)
    else if r.Err? then Err(r.error)
    else if l.value.Empty? || r.value.Empty? then Ok(false)
    else Ok(Meets(l.value, r.value) || Meets(r.value, l.value))
  }

  // ----- The integers a range denotes -----

  predicate NumericBound(b: Bound) {
    b.Value? ==> ParseI64(b.text).Some?
  }

  /** Every bound is an integer literal. */
  predicate Numeric(r: RangeValue) {
    r.Range? ==> NumericBound(r.low) && NumericBound(r.high)
  }

  predicate Member(x: int, r: RangeValue) {
    && r.Range?
    && (r.low.Infinite? || Number(r.low.text) < x || (Number(r.low.text) == x && r.lowInc))
    && (r.high.Infinite? || x < Number(r.high.text) || (x == Number(r.high.text) && r.highInc))
  }

  predicate LowOverflows(r: RangeValue) {
    r.Range? && !r.lowInc && r.low.Value? && Number(r.low.text) == I64_MAX
  }

  predicate HighOverflows(r: RangeValue) {
    r.Range? && r.highInc && r.high.Value? && Number(r.high.text) == I64_MAX
  }

  /** No increment leaves the 64-bit integers. */
  predicate Fits(r: RangeValue) {
    Numeric(r) && !LowOverflows(r) && !HighOverflows(r)
  }

  lemma IncrementAdds(v: string)
    requires ParseI64(v).Some?
    ensures ParseI64(IncrementDiscrete(v)) == Some(Successor(Number(v)))
  {
    ParseOfInt(Successor(Number(v)));
  }

  /** The increments of a canonicalization, if there are any. */
  lemma BoundsAreIncremented(r: RangeValue)
    requires Numeric(r)
    ensures Numeric(Canonical(r))
    ensures r.Range? && r.low.Value? && !r.lowInc ==>
              Number(IncrementDiscrete(r.low.text)) == Successor(Number(r.low.text))
    ensures r.Range? && r.high.Value? && r.highInc ==>
              Number(IncrementDiscrete(r.high.text)) == Successor(Number(r.high.text))
  {
    if r.Range? && r.low.Value? {
      IncrementAdds(r.low.text);
    }
    if r.Range? && r.high.Value? {
      IncrementAdds(r.high.text);
    }
  }

  /** The canonical form denotes the same integers. */
  lemma CanonicalDenotesTheSame(r: RangeValue, x: int)
    requires Fits(r)
    ensures Member(x, Canonical(r)) <==> Member(x, r)
  {
    BoundsAreIncremented(r);
  }

  /** An overflowing increment is harmless in one situation only: the lower bound wraps around and the upper one is
      the smallest integer, excluded, or wraps around as well. */
  predicate HarmlessOverflow(r: RangeValue) {
    && LowOverflows(r) && r.high.Value?
    && (HighOverflows(r) || (!r.highInc && Number(r.high.text) == I64_MIN))
  }

  lemma CanonicalDenotesTheSameIff(r: RangeValue)
    requires Numeric(r)
    ensures (forall x :: Member(x, Canonical(r)) <==> Member(x, r)) <==> Fits(r) || HarmlessOverflow(r)
  {
    BoundsAreIncremented(r);
    if Fits(r) {
      forall x
        ensures Member(x, Canonical(r)) <==> Member(x, r)
      {
        CanonicalDenotesTheSame(r, x);
      }
    } else if LowOverflows(r) {
      assert Member(I64_MIN, Canonical(r)) <==> !HarmlessOverflow(r);
    } else if r.low.Infinite? {
      assert Member(I64_MAX, r) && !Member(I64_MAX, Canonical(r));
    } else {
      assert Member(I64_MAX, r) && !Member(I64_MAX, Canonical(r));
    }
  }

  /** A canonical range is a fixed point, whatever its bounds. */
  lemma CanonicalIsIdempotent(r: RangeValue)
    ensures Canonical(Canonical(r)) == Canonical(r)
  {
  }

  predicate CanonicalForm(r: RangeValue) {
    && Numeric(r)
    && (r.Range? ==>
          && (r.low.Value? ==> r.lowInc)
          && (r.high.Value? ==> !r.highInc)
          && (r.low.Value? && r.high.Value? ==> Number(r.low.text) < Number(r.high.text)))
  }

  lemma CanonicalHasForm(r: RangeValue)
    requires Numeric(r)
    ensures CanonicalForm(Canonical(r))
  {
    BoundsAreIncremented(r);
  }

  /** A canonical range is empty only if it says so. */
  lemma CanonicalIsInhabited(c: RangeValue) returns (x: int)
    requires CanonicalForm(c) && c.Range?
    ensures Member(x, c)
  {
    x := if c.low.Value? then Number(c.low.text) else if c.high.Value? then Number(c.high.text) - 1 else 0;
  }

  /** Empty is the canonical form of exactly the ranges without members. */
  lemma EmptyIff(r: RangeValue)
    requires Fits(r)
    ensures Canonical(r).Empty? <==> forall x :: !Member(x, r)
  {
    CanonicalHasForm(r);
    var c := Canonical(r);
    if c.Range? {
      var x := CanonicalIsInhabited(c);
      CanonicalDenotesTheSame(r, x);
    } else {
      forall x
        ensures !Member(x, r)
      {
        CanonicalDenotesTheSame(r, x);
      }
    }
  }

  predicate SameBound(a: Bound, b: Bound) {
    (a.Infinite? && b.Infinite?) || (a.Value? && b.Value? && Number(a.text) == Number(b.text))
  }

  predicate SameBounds(a: RangeValue, b: RangeValue) {
    if a.Empty? || b.Empty? then a.Empty? && b.Empty? else SameBound(a.low, b.low) && SameBound(a.high, b.high)
  }

  lemma CanonicalFormIsUnique(a: RangeValue, b: RangeValue)
    requires CanonicalForm(a) && CanonicalForm(b)
    requires forall x :: Member(x, a) <==> Member(x, b)
    ensures SameBounds(a, b)
  {
    if a.Range? {
      var x := CanonicalIsInhabited(a);
      assert Member(x, b);
      LowIsSame(a, b);
      LowIsSame(b, a);
      HighIsSame(a, b);
      HighIsSame(b, a);
    } else if b.Range? {
      var x := CanonicalIsInhabited(b);
    }
  }

  lemma LowIsSame(a: RangeValue, b: RangeValue)
    requires CanonicalForm(a) && CanonicalForm(b) && a.Range? && b.Range?
    requires forall x :: Member(x, a) <==> Member(x, b)
    ensures a.low.Value? ==> b.low.Value? && Number(a.low.text) >= Number(b.low.text)
  {
    if a.low.Value? {
      var l := Number(a.low.text);
      assert Member(l, a);
      assert Member(l, b) && !Member(l - 1, a) && !Member(l - 1, b);
    }
  }

  lemma HighIsSame(a: RangeValue, b: RangeValue)
    requires CanonicalForm(a) && CanonicalForm(b) && a.Range? && b.Range?
    requires forall x :: Member(x, a) <==> Member(x, b)
    ensures a.high.Value? ==> b.high.Value? && Number(a.high.text) <= Number(b.high.text)
  {
    if a.high.Value? {
      var h := Number(a.high.text);
      assert Member(h - 1, a);
      assert Member(h - 1, b) && !Member(h, a) && !Member(h, b);
    }
  }

  /** Two ranges denote the same integers exactly if their canonical forms have the same bounds. */
  lemma {:induction false} EqualIffSameBounds(r: RangeValue, s: RangeValue)
    requires Fits(r) && Fits(s)
    ensures (forall x :: Member(x, r) <==> Member(x, s)) <==> SameBounds(Canonical(r), Canonical(s))
  {
    CanonicalHasForm(r);
    CanonicalHasForm(s);
    forall x
      ensures Member(x, Canonical(r)) <==> Member(x, r)
      ensures Member(x, Canonical(s)) <==> Member(x, s)
    {
      CanonicalDenotesTheSame(r, x);
      CanonicalDenotesTheSame(s, x);
    }
    if forall x :: Member(x, r) <==> Member(x, s) {
      CanonicalFormIsUnique(Canonical(r), Canonical(s));
    }
  }

  // ----- Printing and reading back -----

  lemma NumeralsAreClean(s: string)
    requires ParseI64(s).Some?
    ensures s != "" && ',' !in s && Text.TrimStable(s)
  {
    var digits := if s[0] == '-' || s[0] == '+' then s[1..] else s;
    assert forall i :: 0 <= i < |s| ==> IsDigit(s[i]) || s[i] in "+-" by {
      forall i | 0 <= i < |s|
        ensures IsDigit(s[i]) || s[i] in "+-"
      {
        if |digits| == |s| {
          assert IsDigit(digits[i]);
        } else if i > 0 {
          assert IsDigit(digits[i - 1]);
        }
      }
    }
  }

  function BoundText(b: Bound): string {
    if b.Value? then b.text else ""
  }

  lemma BoundReadsBack(b: Bound)
    requires NumericBound(b)
    ensures BoundOf(Text.Trim(BoundText(b))) == b && ',' !in BoundText(b)
  {
    if b.Value? {
      NumeralsAreClean(b.text);
    }
  }

  lemma Brackets(open: char, content: string, close: char)
    ensures var s := [open] + content + [close];
            |s| >= 2 && s[0] == open && s[|s| - 1] == close && s[1..|s| - 1] == content
  {
  }

  lemma BoundsAreSplit(low: string, high: string)
    requires ',' !in low
    ensures var content := low + "," + high;
            var comma := Text.IndexOf(content, ',');
            comma < |content| && content[..comma] == low && content[comma + 1..] == high
  {
    Text.IndexOfFirst(low, ',', high);
  }

  lemma PrintedIsBracketed(r: RangeValue, open: char, close: char)
    requires r.Range? && open == (if r.lowInc then '[' else '(') && close == (if r.highInc then ']' else ')')
    ensures Text.Trim(ToPostgresString(r)) == [open] + (BoundText(r.low) + "," + BoundText(r.high)) + [close]
  {
    assert ToPostgresString(r) == [open] + BoundText(r.low) + "," + BoundText(r.high) + [close];
    PrintedIsGrouped([open], BoundText(r.low), ",", BoundText(r.high), [close]);
    BracketsAreStable(open, BoundText(r.low) + "," + BoundText(r.high), close);
  }

  lemma PrintedIsGrouped(a: string, b: string, c: string, d: string, e: string)
    ensures a + b + c + d + e == a + (b + c + d) + e
  {
  }

  lemma BracketsAreStable(open: char, content: string, close: char)
    requires open in "[(" && close in "])"
    ensures Text.TrimStable([open] + content + [close])
  {
    assert !Text.IsSpace(open) && !Text.IsSpace(close);
  }

  lemma BracketedLiteralIsRead(input: string, open: char, low: string, high: string, close: char, rtype: RangeType)
    requires Text.Trim(input) == [open] + (low + "," + high) + [close] && ',' !in low
    requires open in "[(" && close in "])"
    ensures ReadLiteral(input, rtype)
         == Ok(Range(BoundOf(Text.Trim(low)), BoundOf(Text.Trim(high)), open == '[', close == ']', rtype))
  {
    var text := Text.Trim(input);
    Brackets(open, low + "," + high, close);
    BoundsAreSplit(low, high);
    assert Lowercase(text)[0] != 'e';
  }

  /** The printed form is read as the range it was printed from. */
  lemma PrintedReadsBack(r: RangeValue)
    requires Numeric(r)
    ensures ReadLiteral(ToPostgresString(r), r.rtype) == Ok(r)
  {
    var printed := ToPostgresString(r);
    if r.Empty? {
      assert Text.TrimStable("empty");
      assert Lowercase("empty") == "empty";
    } else {
      var open, close := if r.lowInc then '[' else '(', if r.highInc then ']' else ')';
      PrintedIsBracketed(r, open, close);
      BoundReadsBack(r.low);
      BoundReadsBack(r.high);
      BracketedLiteralIsRead(printed, open, BoundText(r.low), BoundText(r.high), close, r.rtype);
    }
  }

  /** A canonical value survives printing and parsing; any other one comes back canonical. */
  lemma PrintThenParse(r: RangeValue)
    requires Numeric(r)
    ensures Parsed(ToPostgresString(r), r.rtype) == Ok(Canonical(r))
    ensures Parsed(ToPostgresString(Canonical(r)), r.rtype) == Ok(Canonical(r))
  {
    PrintedReadsBack(r);
    CanonicalHasForm(r);
    PrintedReadsBack(Canonical(r));
    CanonicalIsIdempotent(r);
  }

  // ----- Texts that are not printed -----

  /** A bound as it is written, with white space around it. */
  datatype BoundSpelling = BoundSpelling(before: string, bound: Bound, after: string) {
    predicate Valid() {
      Text.IsPadding(before) && NumericBound(bound) && Text.IsPadding(after)
    }

    function Written(): string {
      before + BoundText(bound) + after
    }
  }

  lemma BoundSpellingReadsBack(b: BoundSpelling)
    requires b.Valid()
    ensures BoundOf(Text.Trim(b.Written())) == b.bound && ',' !in b.Written()
  {
    if b.bound.Value? {
      NumeralsAreClean(b.bound.text);
      Text.TrimPadded(b.before, b.bound.text, b.after);
    } else {
      Text.TrimPadding(b.Written());
    }
    assert forall c :: c in b.before || c in b.after ==> c != ',' by {
      assert !Text.IsSpace(',');
    }
  }

  /** White space may stand anywhere but inside a numeral. */
  lemma SpacedLiteralIsRead(before: string, low: BoundSpelling, high: BoundSpelling, after: string, lowInc: bool,
                            highInc: bool, rtype: RangeType)
    requires Text.IsPadding(before) && low.Valid() && high.Valid() && Text.IsPadding(after)
    ensures var open, close := if lowInc then '[' else '(', if highInc then ']' else ')';
            ReadLiteral(before + ([open] + (low.Written() + "," + high.Written()) + [close]) + after, rtype)
              == Ok(Range(low.bound, high.bound, lowInc, highInc, rtype))
  {
    var open, close := if lowInc then '[' else '(', if highInc then ']' else ')';
    var text := [open] + (low.Written() + "," + high.Written()) + [close];
    Text.TrimPadded(before, text, after);
    BoundSpellingReadsBack(low);
    BoundSpellingReadsBack(high);
    BracketedLiteralIsRead(before + text + after, open, low.Written(), high.Written(), close, rtype);
  }

  /** A bracket, two parts with a comma between them, and a bracket. */
  ghost predicate IsBracketed(text: string) {
    exists open, low, high, close :: text == [open] + (low + "," + high) + [close] && open in "[(" && close in "])"
  }

  /** Whatever is neither bracketed nor the word for the empty range is refused. */
  lemma {:induction false} RejectedIff(input: string, rtype: RangeType)
    ensures ReadLiteral(input, rtype).Ok? <==> IsBracketed(Text.Trim(input)) || Lowercase(Text.Trim(input)) == "empty"
  {
    var text := Text.Trim(input);
    if IsBracketed(text) {
      BracketedIsRead(input, rtype);
    }
    if ReadLiteral(input, rtype).Ok? && Lowercase(text) != "empty" {
      ReadIsBracketed(input, rtype);
    }
  }

  lemma ReadIsBracketed(input: string, rtype: RangeType)
    requires ReadLiteral(input, rtype).Ok? && Lowercase(Text.Trim(input)) != "empty"
    ensures IsBracketed(Text.Trim(input))
  {
    var text := Text.Trim(input);
    var content := text[1..|text| - 1];
    var comma := Text.IndexOf(content, ',');
    var open, low, high, close := text[0], content[..comma], content[comma + 1..], text[|text| - 1];
    CutAt(content, comma);
    CutEnds(text);
    assert text == [open] + (low + "," + high) + [close];
  }

  lemma CutAt(s: string, at: nat)
    requires at < |s| && s[at] == ','
    ensures s == s[..at] + "," + s[at + 1..]
  {
  }

  lemma CutEnds(s: string)
    requires |s| >= 2
    ensures s == [s[0]] + s[1..|s| - 1] + [s[|s| - 1]]
  {
  }

  lemma BracketedIsRead(input: string, rtype: RangeType)
    requires IsBracketed(Text.Trim(input))
    ensures ReadLiteral(input, rtype).Ok?
  {
    var open, low, high, close :|
      Text.Trim(input) == [open] + (low + "," + high) + [close] && open in "[(" && close in "])";
    Brackets(open, low + "," + high, close);
    assert (low + "," + high)[|low|] == ',';
  }

  /** The word for the empty range may be written in capitals. */
  lemma EmptyIsReadInAnyCase(word: string, rtype: RangeType)
    requires |word| == 5 && forall i :: 0 <= i < 5 ==> word[i] == "empty"[i] || word[i] == "EMPTY"[i]
    ensures ReadLiteral(word, rtype) == Ok(Empty(rtype))
  {
    assert Lowercase(word) == "empty";
  }

  /** An operator answers with the error of its first malformed operand. */
  lemma MalformedIsRefused(left: string, right: string, rtype: RangeType)
    requires ReadLiteral(left, rtype).Err? || ReadLiteral(right, rtype).Err?
    ensures var error := if ReadLiteral(left, rtype).Err? then ReadLiteral(left, rtype).error
                         else ReadLiteral(right, rtype).error;
            && RangeContains(left, right, rtype) == Err(error) && RangeOverlaps(left, right, rtype) == Err(error)
            && RangeLeft(left, right, rtype) == Err(error) && RangeAdjacent(left, right, rtype) == Err(error)
    ensures ReadLiteral(left, rtype).Err? ==>
              forall elem :: RangeContainsElem(left, elem, rtype) == Err(ReadLiteral(left, rtype).error)
  {
  }

  /** A bound that is no integer stays as it is, although it then counts as included below and excluded above. */
  lemma OtherBoundsAreKept(r: RangeValue)
    requires r.Range? && Canonical(r).Range?
    ensures r.low.Value? && ParseI64(r.low.text).None? ==> Canonical(r).low == r.low && Canonical(r).lowInc
    ensures r.high.Value? && ParseI64(r.high.text).None? ==> Canonical(r).high == r.high && !Canonical(r).highInc
  {
  }

  // ----- The operators are set algebra -----

  /** The integers a range denotes, as a set. */
  ghost function Members(r: RangeValue): (members: iset<int>)
    ensures forall x :: x in members <==> Member(x, r)
  {
    iset x | Member(x, r)
  }

  /** What an input text denotes, if it is a range of integer literals without overflow. */
  ghost predicate Denotes(input: string, rtype: RangeType, members: iset<int>) {
    var r := ReadLiteral(input, rtype);
    r.Ok? && Fits(r.value) && Members(r.value) == members
  }

  lemma DenotesCanonical(input: string, rtype: RangeType, members: iset<int>) returns (c: RangeValue)
    requires Denotes(input, rtype, members)
    ensures Parsed(input, rtype) == Ok(c) && CanonicalForm(c) && Members(c) == members
  {
    var r := ReadLiteral(input, rtype).value;
    c := Canonical(r);
    CanonicalHasForm(r);
    forall x
      ensures x in Members(c) <==> x in Members(r)
    {
      CanonicalDenotesTheSame(r, x);
    }
  }

  lemma {:induction false} ContainsElemIff(range: string, elem: string, rtype: RangeType, r: iset<int>, n: int)
    requires Denotes(range, rtype, r) && ParseI64(elem) == Some(n)
    ensures RangeContainsElem(range, elem, rtype) == Ok(n in r)
  {
    var c := DenotesCanonical(range, rtype, r);
    assert n in r <==> Member(n, c);
  }

  /** An element that is no integer is taken for 0. */
  lemma OtherElementsAreZero(range: string, elem: string, rtype: RangeType, r: iset<int>)
    requires Denotes(range, rtype, r) && ParseI64(elem).None?
    ensures RangeContainsElem(range, elem, rtype) == Ok(0 in r)
  {
    var c := DenotesCanonical(range, rtype, r);
    assert 0 in r <==> Member(0, c);
  }

  lemma {:induction false} ContainsIff(left: string, right: string, rtype: RangeType, l: iset<int>, r: iset<int>)
    requires Denotes(left, rtype, l) && Denotes(right, rtype, r)
    ensures RangeContains(left, right, rtype) == Ok(r <= l)
  {
    var a := DenotesCanonical(left, rtype, l);
    var b := DenotesCanonical(right, rtype, r);
    CoversIff(a, b);
  }

  /** What `range_contains` decides about canonical ranges. */
  predicate Covers(l: RangeValue, r: RangeValue) {
    r.Empty? || (l.Range?
                 && (l.low.Infinite? || (r.low.Value? && Number(l.low.text) <= Number(r.low.text)))
                 && (l.high.Infinite? || (r.high.Value? && Number(l.high.text) >= Number(r.high.text))))
  }

  lemma CoversIff(l: RangeValue, r: RangeValue)
    requires CanonicalForm(l) && CanonicalForm(r)
    ensures Covers(l, r) <==> Members(r) <= Members(l)
  {
    if r.Range? && !Covers(l, r) {
      var x := CanonicalIsInhabited(r);
      if l.Empty? {
      } else if l.low.Value? && !(r.low.Value? && Number(l.low.text) <= Number(r.low.text)) {
        x := if x < Number(l.low.text) then x else Number(l.low.text) - 1;
      } else {
        x := if x >= Number(l.high.text) then x else Number(l.high.text);
      }
      assert x in Members(r) && x !in Members(l);
    }
  }

  lemma {:induction false} OverlapsIff(left: string, right: string, rtype: RangeType, l: iset<int>, r: iset<int>)
    requires Denotes(left, rtype, l) && Denotes(right, rtype, r)
    ensures RangeOverlaps(left, right, rtype) == Ok(l * r != iset{})
  {
    var a := DenotesCanonical(left, rtype, l);
    var b := DenotesCanonical(right, rtype, r);
    if a.Range? && b.Range? {
      if EndsBefore(a, b) || EndsBefore(b, a) {
        ApartIsDisjoint(a, b);
      } else {
        var x := CommonMember(a, b);
        assert x in l * r;
      }
    } else {
      assert l == iset{} || r == iset{};
    }
  }

  lemma ApartIsDisjoint(a: RangeValue, b: RangeValue)
    requires CanonicalForm(a) && CanonicalForm(b) && a.Range? && b.Range?
    requires EndsBefore(a, b) || EndsBefore(b, a)
    ensures Members(a) * Members(b) == iset{}
  {
  }

  lemma CommonMember(a: RangeValue, b: RangeValue) returns (x: int)
    requires CanonicalForm(a) && CanonicalForm(b) && a.Range? && b.Range?
    requires !EndsBefore(a, b) && !EndsBefore(b, a)
    ensures Member(x, a) && Member(x, b)
  {
    if a.low.Value? && b.low.Value? {
      x := if Number(a.low.text) >= Number(b.low.text) then Number(a.low.text) else Number(b.low.text);
    } else if a.low.Value? {
      x := Number(a.low.text);
    } else if b.low.Value? {
      x := Number(b.low.text);
    } else if a.high.Value? && b.high.Value? {
      x := (if Number(a.high.text) <= Number(b.high.text) then Number(a.high.text) else Number(b.high.text)) - 1;
    } else if a.high.Value? {
      x := Number(a.high.text) - 1;
    } else {
      x := if b.high.Value? then Number(b.high.text) - 1 else 0;
    }
  }

  ghost predicate Below(l: iset<int>, r: iset<int>) {
    forall x, y :: x in l && y in r ==> x < y
  }

  lemma {:induction false} LeftIff(left: string, right: string, rtype: RangeType, l: iset<int>, r: iset<int>)
    requires Denotes(left, rtype, l) && Denotes(right, rtype, r)
    ensures RangeLeft(left, right, rtype) == Ok(l != iset{} && r != iset{} && Below(l, r))
  {
    var a := DenotesCanonical(left, rtype, l);
    var b := DenotesCanonical(right, rtype, r);
    EmptyHasNoMembers(a);
    EmptyHasNoMembers(b);
    if a.Range? && b.Range? {
      EndsBeforeIff(a, b);
    }
  }

  lemma EmptyHasNoMembers(c: RangeValue)
    requires CanonicalForm(c)
    ensures c.Empty? <==> Members(c) == iset{}
  {
    if c.Range? {
      var x := CanonicalIsInhabited(c);
      assert x in Members(c);
    }
  }

  lemma EndsBeforeIff(a: RangeValue, b: RangeValue)
    requires CanonicalForm(a) && CanonicalForm(b) && a.Range? && b.Range?
    ensures EndsBefore(a, b) <==> Below(Members(a), Members(b))
  {
    if !EndsBefore(a, b) {
      var x := CanonicalIsInhabited(a);
      var y := CanonicalIsInhabited(b);
      if x < y {
        if a.high.Infinite? {
          x := y;
        } else if b.low.Infinite? {
          y := x;
        } else {
          x, y := Number(a.high.text) - 1, Number(b.low.text);
        }
      }
      assert x in Members(a) && y in Members(b);
    }
  }

  /** No gap between any two members. */
  ghost predicate IsInterval(members: iset<int>) {
    forall x, y, z :: x in members && z in members && x < y < z ==> y in members
  }

  lemma {:induction false} AdjacentIff(left: string, right: string, rtype: RangeType, l: iset<int>, r: iset<int>)
    requires Denotes(left, rtype, l) && Denotes(right, rtype, r)
    ensures RangeAdjacent(left, right, rtype)
         == Ok(l != iset{} && r != iset{} && l * r == iset{} && IsInterval(l + r))
  {
    var a := DenotesCanonical(left, rtype, l);
    var b := DenotesCanonical(right, rtype, r);
    EmptyHasNoMembers(a);
    EmptyHasNoMembers(b);
    if a.Range? && b.Range? {
      MeetsIff(a, b);
    }
  }

  lemma MeetsIff(a: RangeValue, b: RangeValue)
    requires CanonicalForm(a) && CanonicalForm(b) && a.Range? && b.Range?
    ensures Meets(a, b) || Meets(b, a)
       <==> Members(a) * Members(b) == iset{} && IsInterval(Members(a) + Members(b))
  {
    if EndsBefore(a, b) {
      ApartIsDisjoint(a, b);
      OrderedMeetIff(a, b);
    } else if EndsBefore(b, a) {
      ApartIsDisjoint(a, b);
      OrderedMeetIff(b, a);
      assert Members(a) + Members(b) == Members(b) + Members(a);
    } else {
      var x := CommonMember(a, b);
      assert x in Members(a) * Members(b);
    }
  }

  lemma OrderedMeetIff(a: RangeValue, b: RangeValue)
    requires CanonicalForm(a) && CanonicalForm(b) && a.Range? && b.Range? && EndsBefore(a, b)
    ensures !Meets(b, a)
    ensures Meets(a, b) <==> IsInterval(Members(a) + Members(b))
  {
    var end, start := Number(a.high.text), Number(b.low.text);
    var union := Members(a) + Members(b);
    assert Member(end - 1, a) && Member(start, b);
    assert end - 1 in union && start in union;
    if end < start {
      assert end !in union;
    }
  }
}
