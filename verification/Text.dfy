/** The string operations of the Rust standard library that the parsers rely on. */
module Text {
  import opened Sequences

  /** `char::is_whitespace`: the Unicode White_Space property. */
  predicate IsSpace(c: char) {
    var n := c as int;
    9 <= n <= 13 || n == 0x20 || n == 0x85 || n == 0xA0 || n == 0x1680 || 0x2000 <= n <= 0x200A
    || n == 0x2028 || n == 0x2029 || n == 0x202F || n == 0x205F || n == 0x3000
  }

  function TrimStart(s: string): (t: string)
    ensures |t| <= |s| && (t != [] ==> !IsSpace(t[0]))
  {
    if s != [] && IsSpace(s[0]) then TrimStart(s[1..]) else s
  }

  function TrimEnd(s: string): (t: string)
    ensures t <= s && (t != [] ==> !IsSpace(t[|t| - 1]))
  {
    if s != [] && IsSpace(s[|s| - 1]) then TrimEnd(s[..|s| - 1]) else s
  }

  /** `str::trim`. */
  function Trim(s: string): (t: string)
    ensures |t| <= |s| && TrimStable(t)
    ensures TrimStable(s) ==> t == s
  {
    TrimEnd(TrimStart(s))
  }

  /** Neither begins nor ends with whitespace. */
  predicate TrimStable(s: string) {
    s != [] ==> !IsSpace(s[0]) && !IsSpace(s[|s| - 1])
  }

  /** White space only. */
  predicate IsPadding(s: string) {
    forall i :: 0 <= i < |s| ==> IsSpace(s[i])
  }

  lemma {:induction false} TrimStartPadded(padding: string, s: string)
    requires IsPadding(padding)
    ensures TrimStart(padding + s) == TrimStart(s)
  {
    if padding == "" {
      assert padding + s == s;
    } else {
      assert (padding + s)[1..] == padding[1..] + s;
      TrimStartPadded(padding[1..], s);
    }
  }

  lemma {:induction false} TrimEndPadded(s: string, padding: string)
    requires IsPadding(padding)
    ensures TrimEnd(s + padding) == TrimEnd(s)
    decreases |padding|
  {
    if padding == "" {
      assert s + padding == s;
    } else {
      var last := |padding| - 1;
      assert (s + padding)[..|s| + last] == s + padding[..last];
      TrimEndPadded(s, padding[..last]);
    }
  }

  lemma TrimPadded(before: string, s: string, after: string)
    requires IsPadding(before) && IsPadding(after) && TrimStable(s) && s != ""
    ensures Trim(before + s + after) == s
  {
    assert before + s + after == before + (s + after);
    TrimStartPadded(before, s + after);
    assert TrimStart(s + after) == s + after;
    TrimEndPadded(s, after);
  }

  lemma {:induction false} TrimPadding(s: string)
    requires IsPadding(s)
    ensures Trim(s) == ""
  {
    TrimStartPadded(s, "");
    assert s + "" == s;
  }

  predicate StartsWith(s: string, c: char) {
    s != [] && s[0] == c
  }

  predicate EndsWith(s: string, c: char) {
    s != [] && s[|s| - 1] == c
  }

  function Join(parts: seq<string>, sep: string): string {
    if parts == [] then "" else if |parts| == 1 then parts[0] else parts[0] + sep + Join(parts[1..], sep)
  }

  /** `str::replace` of a single character. */
  function ReplaceChar(s: string, c: char, rep: string): string {
    if s == [] then "" else (if s[0] == c then rep else [s[0]]) + ReplaceChar(s[1..], c, rep)
  }

  lemma {:induction false} ReplaceCharAppend(a: string, b: string, c: char, rep: string)
    ensures ReplaceChar(a + b, c, rep) == ReplaceChar(a, c, rep) + ReplaceChar(b, c, rep)
  {
    if a == [] {
      assert a + b == b;
    } else {
      assert (a + b)[1..] == a[1..] + b;
      ReplaceCharAppend(a[1..], b, c, rep);
    }
  }

  lemma {:induction false} ReplaceCharAbsent(s: string, c: char, rep: string)
    requires c !in s
    ensures ReplaceChar(s, c, rep) == s
  {
    if s != [] {
      ReplaceCharAbsent(s[1..], c, rep);
      assert [s[0]] + s[1..] == s;
    }
  }

  // ----- Lines and fields -----

  function IndexOf(s: string, c: char): (at: nat)
    ensures at <= |s| && (at < |s| ==> s[at] == c)
    ensures forall i :: 0 <= i < at ==> s[i] != c
  {
    if s == [] || s[0] == c then 0 else 1 + IndexOf(s[1..], c)
  }

  function StripCr(line: string): string {
    if EndsWith(line, '\r') then line[..|line| - 1] else line
  }

  /** `str::lines`: pieces ended by LF, less one CR in front of it; a last piece without LF is kept as it is. */
  function Lines(s: string): (lines: seq<string>)
    ensures forall line :: line in lines ==> '\n' !in line
  {
    if s == [] then [] else
      var at := IndexOf(s, '\n');
      if at == |s| then [s] else [StripCr(s[..at])] + Lines(s[at + 1..])
  }

  /** Every line followed by LF. */
  function Unlines(lines: seq<string>): string {
    if lines == [] then "" else lines[0] + "\n" + Unlines(lines[1..])
  }

  /** `str::split` at a character. */
  function Split(s: string, c: char): (parts: seq<string>)
    ensures parts != [] && forall part :: part in parts ==> c !in part && forall x :: x in part ==> x in s
    decreases |s|
  {
    var at := IndexOf(s, c);
    if at == |s| then [s] else [s[..at]] + Split(s[at + 1..], c)
  }

  function StripAll(lines: seq<string>): (stripped: seq<string>)
    ensures |stripped| == |lines| && forall i :: 0 <= i < |lines| ==> stripped[i] == StripCr(lines[i])
  {
    seq(|lines|, i requires 0 <= i < |lines| => StripCr(lines[i]))
  }

  lemma IndexOfFirst(a: string, c: char, rest: string)
    requires c !in a
    ensures IndexOf(a + [c] + rest, c) == |a|
  {
    var s := a + [c] + rest;
    assert s[|a|] == c && forall i :: 0 <= i < |a| ==> s[i] == a[i];
  }

  /** Lines that contain no LF are found again, less a CR at their end. */
  lemma {:induction false} LinesOfUnlines(lines: seq<string>)
    requires forall line :: line in lines ==> '\n' !in line
    ensures Lines(Unlines(lines)) == StripAll(lines)
  {
    if lines != [] {
      var s := Unlines(lines);
      assert s == lines[0] + ['\n'] + Unlines(lines[1..]);
      IndexOfFirst(lines[0], '\n', Unlines(lines[1..]));
      assert s[..|lines[0]|] == lines[0] && s[|lines[0]| + 1..] == Unlines(lines[1..]);
      LinesOfUnlines(lines[1..]);
      assert StripAll(lines) == [StripCr(lines[0])] + StripAll(lines[1..]);
    }
  }

  lemma LastLineIsFound(last: string)
    requires last != "" && '\n' !in last
    ensures Lines(last) == [last] && Lines(last + "\n") == [StripCr(last)]
  {
    IndexOfFirst(last, '\n', "");
    assert last + ['\n'] + "" == last + "\n";
    assert (last + "\n")[..|last|] == last && (last + "\n")[|last| + 1..] == "";
  }

  lemma LineInFront(line: string, rest: string)
    requires '\n' !in line
    ensures Lines(line + "\n" + rest) == [StripCr(line)] + Lines(rest)
  {
    IndexOfFirst(line, '\n', rest);
    var s := line + "\n" + rest;
    assert s[..|line|] == line && s[|line| + 1..] == rest;
  }

  /** The line break at the end may be missing; a CR there then stays. */
  lemma {:induction false} LinesWithoutFinalBreak(lines: seq<string>, last: string)
    requires (forall line :: line in lines ==> '\n' !in line) && '\n' !in last && last != ""
    ensures Lines(Unlines(lines) + last) == StripAll(lines) + [last]
  {
    if lines == [] {
      assert Unlines(lines) + last == last && StripAll(lines) + [last] == [last];
      LastLineIsFound(last);
    } else {
      var rest := Unlines(lines[1..]) + last;
      assert lines[0] in lines;
      Assoc(lines[0] + "\n", Unlines(lines[1..]), last);
      LineInFront(lines[0], rest);
      LinesWithoutFinalBreak(lines[1..], last);
      assert StripAll(lines) == [StripCr(lines[0])] + StripAll(lines[1..]);
      Assoc([StripCr(lines[0])], StripAll(lines[1..]), [last]);
    }
  }

  /** The text ends within a line, and not in CR. */
  predicate EndsInside(s: string) {
    s != "" && s[|s| - 1] != '\n' && s[|s| - 1] != '\r'
  }

  lemma SameEnd(s: string, at: nat)
    requires at < |s| && s[at] == '\n'
    ensures EndsInside(s) <==> EndsInside(s[at + 1..])
  {
  }

  lemma CutAtLine(s: string, at: nat)
    requires at < |s| && s[at] == '\n'
    ensures s == s[..at] + "\n" + s[at + 1..] && s + "\n" == s[..at] + "\n" + (s[at + 1..] + "\n")
  {
    Assoc(s[..at] + "\n", s[at + 1..], "\n");
  }

  /** For any text: a line break added at its end changes its lines exactly if there is no line for it to end, or if
      the CR in front of it goes as well. */
  lemma {:induction false} FinalBreakIsOptionalIff(s: string)
    ensures Lines(s + "\n") == Lines(s) <==> EndsInside(s)
    decreases |s|
  {
    var at := IndexOf(s, '\n');
    if s == "" {
      assert s + "\n" == "\n" && "\n"[..0] == "" && Lines("\n") != [];
    } else if at == |s| {
      LastLineIsFound(s);
      assert s[|s| - 1] != '\n';
    } else {
      var line, rest := s[..at], s[at + 1..];
      CutAtLine(s, at);
      LineInFront(line, rest);
      LineInFront(line, rest + "\n");
      SameFirst(StripCr(line), Lines(rest + "\n"), Lines(rest));
      SameEnd(s, at);
      FinalBreakIsOptionalIff(rest);
    }
  }

  lemma AbsentIsNotSplit(s: string, c: char)
    requires c !in s
    ensures Split(s, c) == [s]
  {
  }

  lemma SplitFirst(a: string, c: char, rest: string)
    requires c !in a
    ensures Split(a + [c] + rest, c) == [a] + Split(rest, c)
  {
    IndexOfFirst(a, c, rest);
    var s := a + [c] + rest;
    assert s[..|a|] == a && s[|a| + 1..] == rest;
  }

  /** Parts that do not contain the separator are found again. */
  lemma {:induction false} SplitOfJoin(parts: seq<string>, c: char)
    requires parts != [] && forall part :: part in parts ==> c !in part
    ensures Split(Join(parts, [c]), c) == parts
    decreases |parts|
  {
    assert parts[0] in parts;
    assert parts == [parts[0]] + parts[1..];
    var last := Join(parts[1..], [c]);
    if |parts| == 1 {
      AbsentIsNotSplit(parts[0], c);
    } else {
      forall part | part in parts[1..]
        ensures c !in part
      {
        assert part in parts;
      }
      SplitOfJoin(parts[1..], c);
      SplitFirst(parts[0], c, last);
      assert Join(parts, [c]) == parts[0] + [c] + last;
    }
  }

  lemma {:induction false} SplitAppend(a: string, c: char, rest: string)
    ensures |Split(a + [c] + rest, c)| == |Split(a, c)| + |Split(rest, c)|
    decreases |a|
  {
    var at := IndexOf(a, c);
    if at == |a| {
      SplitFirst(a, c, rest);
      AbsentIsNotSplit(a, c);
    } else {
      var first, second := a[..at], a[at + 1..];
      assert a == first + [c] + second;
      SplitAppend(second, c, rest);
      SplitBehind(first, c, second, rest);
    }
  }

  lemma SplitBehind(first: string, c: char, second: string, rest: string)
    requires c !in first
    ensures Split(first + [c] + second, c) == [first] + Split(second, c)
    ensures Split(first + [c] + second + [c] + rest, c) == [first] + Split(second + [c] + rest, c)
  {
    SplitFirst(first, c, second);
    SplitFirst(first, c, second + [c] + rest);
    Reassociate(first, [c], second, rest);
  }

  lemma Reassociate(a: string, sep: string, b: string, c: string)
    ensures a + sep + b + sep + c == a + sep + (b + sep + c)
  {
  }

  /** A separator inside a part makes more parts of them. */
  lemma {:induction false} SplitWidth(parts: seq<string>, c: char)
    requires parts != []
    ensures |Split(Join(parts, [c]), c)| >= |parts|
    ensures |Split(Join(parts, [c]), c)| == |parts| ==> forall part :: part in parts ==> c !in part
    decreases |parts|
  {
    assert parts == [parts[0]] + parts[1..];
    LoneSplit(parts[0], c);
    if |parts| > 1 {
      SplitWidth(parts[1..], c);
      SplitAppend(parts[0], c, Join(parts[1..], [c]));
      assert Join(parts, [c]) == parts[0] + [c] + Join(parts[1..], [c]);
    }
  }

  lemma LoneSplit(s: string, c: char)
    ensures |Split(s, c)| == 1 ==> c !in s
  {
    var at := IndexOf(s, c);
    if at < |s| {
      assert |Split(s, c)| == 1 + |Split(s[at + 1..], c)|;
    }
  }

  lemma {:induction false} JoinMembers(parts: seq<string>, sep: string, x: char)
    requires x in Join(parts, sep)
    ensures x in sep || exists i :: 0 <= i < |parts| && x in parts[i]
    decreases |parts|
  {
    if |parts| > 1 && x !in parts[0] && x !in sep {
      JoinMembers(parts[1..], sep, x);
      var i :| 0 <= i < |parts[1..]| && x in parts[1..][i];
      assert x in parts[i + 1];
    }
  }
}
