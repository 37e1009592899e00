/** From lines to characters and back: the text that the translator returns determines the lines it was rendered from.
    The reader goes by Lua's keywords; expressions are taken over as they are. */
module LuaText {
  import opened Sequences
  import opened Wrappers
  import opened LuaEmitter
  import T = Text

  // ----- Parts of a line -----

  predicate IsNameChar(c: char) {
    'a' <= c <= 'z' || 'A' <= c <= 'Z' || '0' <= c <= '9' || c == '_' || c == '.'
  }

  /** An identifier, or a chain of field names. */
  predicate IsName(s: string) {
    s != "" && forall i :: 0 <= i < |s| ==> IsNameChar(s[i])
  }

  function WordLength(s: string): (n: nat)
    ensures n <= |s| && (n < |s| ==> !IsNameChar(s[n]))
    ensures forall i :: 0 <= i < n ==> IsNameChar(s[i])
  {
    if s == "" || !IsNameChar(s[0]) then 0 else 1 + WordLength(s[1..])
  }

  lemma WordIsFound(word: string, rest: string)
    requires (forall i :: 0 <= i < |word| ==> IsNameChar(word[i])) && (rest == "" || !IsNameChar(rest[0]))
    ensures var s := word + rest;
            WordLength(s) == |word| && s[..|word|] == word && s[|word|..] == rest
  {
    var s := word + rest;
    assert forall i :: 0 <= i < |word| ==> s[i] == word[i];
    assert rest != "" ==> s[|word|] == rest[0];
  }

  predicate Starts(s: string, start: string) {
    |start| <= |s| && s[..|start|] == start
  }

  predicate Within(s: string, start: string, end: string) {
    |start| + |end| <= |s| && s[..|start|] == start && s[|s| - |end|..] == end
  }

  function Inner(s: string, start: string, end: string): string
    requires Within(s, start, end)
  {
    s[|start|..|s| - |end|]
  }

  lemma InnerIsFound(start: string, inner: string, end: string)
    ensures var s := start + inner + end; Within(s, start, end) && Inner(s, start, end) == inner
  {
  }

  // ----- One line -----

  function ParseCode(text: string): Code {
    if text == CodeEnsureSet.Text() then CodeEnsureSet
    else if text == CodePcall.Text() then CodePcall
    else ParseWord(text, text[..WordLength(text)], text[WordLength(text)..])
  }

  /** Goes by the first word of the line. */
  function ParseWord(text: string, word: string, rest: string): Code {
    match word
    case "if" => ParseIf(text, rest)
    case "elseif" => if Within(rest, " ", " then") then CodeElseif(Inner(rest, " ", " then")) else CodeText(text)
    case "else" => if rest == "" then CodeElse else CodeText(text)
    case "end" => if rest == "" then CodeEnd else if rest == ")" then CodeEndParen else CodeText(text)
    case "while" => if Within(rest, " ", " do") then CodeWhile(Inner(rest, " ", " do")) else CodeText(text)
    case "for" => if Starts(rest, " ") then ParseFor(text, rest[1..]) else CodeText(text)
    case "break" => if rest == "" then CodeBreak else CodeText(text)
    case "return" =>
      if rest == "" then CodeReturn(None)
      else if Starts(rest, " ") then CodeReturn(Some(rest[1..])) else CodeText(text)
    case "local" => ParseLocal(text, rest)
    case "table.insert" =>
      if Within(rest, "(_result_set, ", ")") then CodeInsert(Inner(rest, "(_result_set, ", ")")) else CodeText(text)
    case _ => if word != "" && Starts(rest, " = ") then CodeAssign(word, rest[3..]) else CodeText(text)
  }

  function ParseIf(text: string, rest: string): Code {
    if Within(rest, " ", " then break end") then CodeBreakIf(Inner(rest, " ", " then break end"))
    else if Within(rest, " ", " then") then CodeIf(Inner(rest, " ", " then"))
    else CodeText(text)
  }

  function ParseFor(text: string, s: string): Code {
    var name, rest := s[..WordLength(s)], s[WordLength(s)..];
    if Within(rest, " in _ctx.query_iter([[", "]], {}) do")
    then CodeForIn(name, Inner(rest, " in _ctx.query_iter([[", "]], {}) do"))
    else if Within(rest, " = ", " do") then ParseBounds(text, name, T.Split(Inner(rest, " = ", " do"), ','))
    else CodeText(text)
  }

  /** `first, last` or `first, last, -1`. */
  function ParseBounds(text: string, name: string, parts: seq<string>): Code {
    if |parts| == 2 && Starts(parts[1], " ") then CodeFor(name, parts[0], parts[1][1..], false)
    else if |parts| == 3 && Starts(parts[1], " ") && parts[2] == " -1"
    then CodeFor(name, parts[0], parts[1][1..], true)
    else CodeText(text)
  }

  function ParseLocal(text: string, rest: string): Code {
    if Within(rest, " function ", "(_ctx, ...)") then CodeFunction(Inner(rest, " function ", "(_ctx, ...)"))
    else if !Starts(rest, " ") then CodeText(text)
    else
      var s := rest[1..];
      var name, more := s[..WordLength(s)], s[WordLength(s)..];
      if Starts(more, " = ") then CodeLocal(name, more[3..]) else CodeText(text)
  }

  const KEYWORDS: seq<string> :=
    ["if", "elseif", "else", "end", "while", "for", "break", "return", "local", "table.insert"]

  /** Assignments are to names that are no keywords, the bounds of a loop have no commas of their own, and a statement
      taken over as it is looks like none of the others. */
  predicate Readable(code: Code) {
    match code
    case CodeFor(name, first, last, _) => IsName(name) && ',' !in first && ',' !in last
    case CodeForIn(name, _) => IsName(name)
    case CodeAssign(name, _) => IsName(name) && name !in KEYWORDS
    case CodeLocal(name, _) => IsName(name) && name != "function"
    case CodeText(text) => ParseCode(text) == code && !Starts(text, " ")
    case _ => true
  }

  /** A readable line without line breaks in it. */
  predicate Printable(code: Code) {
    Readable(code) && '\n' !in code.Text()
  }

  /** Two fixed lines begin with words of other lines. */
  lemma EnsureSetLine()
    ensures var text := CodeEnsureSet.Text();
            |text| > 5 && WordLength(text) == 2 && text[..2] == "if"
            && text[|text| - 5] == '}' && text[|text| - 1] == 'd'
  {
    var start, end := "if ", "_result_set == nil" + " then " + "_result_set = {";
    assert CodeEnsureSet.Text() == start + end + "} end";
    EnsureSetWord(start, end + "} end");
    assert start + end + "} end" == start + (end + "} end");
  }

  lemma EnsureSetWord(start: string, end: string)
    requires start == "if "
    ensures WordLength(start + end) == 2 && (start + end)[..2] == "if"
  {
    assert start + end == "if" + ([' '] + end);
    WordIsFound("if", [' '] + end);
  }

  lemma PcallLine()
    ensures var text := CodePcall.Text();
            |text| > 9 && WordLength(text) == 5 && text[..5] == "local" && text[6..9] == "_ok" && text[9] == ','
  {
    var start, end := "local _ok", ", _result_or_err = pcall(function()";
    assert CodePcall.Text() == start + end && end[0] == ',';
    PcallWord(start, end);
  }

  lemma PcallWord(start: string, end: string)
    requires start == "local _ok" && end != "" && end[0] == ','
    ensures var text := start + end;
            |text| > 9 && WordLength(text) == 5 && text[..5] == "local" && text[6..9] == "_ok" && text[9] == ','
  {
    assert start + end == "local" + (" _ok" + end);
    WordIsFound("local", " _ok" + end);
  }

  lemma LineWord(word: string, rest: string)
    requires (forall i :: 0 <= i < |word| ==> IsNameChar(word[i])) && (rest == "" || !IsNameChar(rest[0]))
    requires word != "if" || word + rest != CodeEnsureSet.Text()
    requires word != "local" || word + rest != CodePcall.Text()
    ensures ParseCode(word + rest) == ParseWord(word + rest, word, rest)
  {
    WordIsFound(word, rest);
    EnsureSetLine();
    PcallLine();
  }

  lemma OtherEnd(s: string, start: string, end: string)
    requires s != "" && end != "" && s[|s| - 1] != end[|end| - 1]
    ensures !Within(s, start, end)
  {
  }

  lemma IfReadsBack(cond: string)
    ensures ParseCode("if " + cond + " then") == CodeIf(cond)
  {
    var rest := " " + cond + " then";
    var text := "if" + rest;
    assert "if " + cond + " then" == text;
    assert text[|text| - 1] == 'n';
    EnsureSetLine();
    LineWord("if", rest);
    InnerIsFound(" ", cond, " then");
    OtherEnd(rest, " ", " then break end");
  }

  lemma BreakIfReadsBack(cond: string)
    ensures ParseCode("if " + cond + " then break end") == CodeBreakIf(cond)
  {
    var rest := " " + cond + " then break end";
    var text := "if" + rest;
    assert "if " + cond + " then break end" == text;
    assert text[|text| - 5] == 'k';
    EnsureSetLine();
    LineWord("if", rest);
    InnerIsFound(" ", cond, " then break end");
  }

  lemma ElseifReadsBack(cond: string)
    ensures ParseCode("elseif " + cond + " then") == CodeElseif(cond)
  {
    var rest := " " + cond + " then";
    assert "elseif " + cond + " then" == "elseif" + rest;
    LineWord("elseif", rest);
    InnerIsFound(" ", cond, " then");
  }

  lemma WhileReadsBack(cond: string)
    ensures ParseCode("while " + cond + " do") == CodeWhile(cond)
  {
    var rest := " " + cond + " do";
    assert "while " + cond + " do" == "while" + rest;
    LineWord("while", rest);
    InnerIsFound(" ", cond, " do");
  }

  lemma BareWord(word: string)
    requires forall i :: 0 <= i < |word| ==> IsNameChar(word[i])
    requires word != "if" && word != "local"
    ensures ParseCode(word) == ParseWord(word, word, "")
  {
    assert word + "" == word;
    LineWord(word, "");
  }

  lemma EndParenReadsBack()
    ensures ParseCode("end)") == CodeEndParen
  {
    assert "end" + ")" == "end)";
    LineWord("end", ")");
  }

  lemma ReturnReadsBack(expr: Option<string>)
    ensures ParseCode(CodeReturn(expr).Text()) == CodeReturn(expr)
  {
    if expr.None? {
      BareWord("return");
    } else {
      ReturnedReadsBack(expr.value);
    }
  }

  lemma ReturnedReadsBack(expr: string)
    ensures ParseCode("return " + expr) == CodeReturn(Some(expr))
  {
    var rest := " " + expr;
    assert "return " + expr == "return" + rest;
    LineWord("return", rest);
    assert rest[1..] == expr;
  }

  lemma InsertReadsBack(value: string)
    ensures ParseCode("table.insert(_result_set, " + value + ")") == CodeInsert(value)
  {
    var rest := "(_result_set, " + value + ")";
    assert "table.insert(_result_set, " + value + ")" == "table.insert" + rest;
    LineWord("table.insert", rest);
    InnerIsFound("(_result_set, ", value, ")");
  }

  lemma AssignReadsBack(name: string, value: string)
    requires IsName(name) && name !in KEYWORDS
    ensures ParseCode(name + " = " + value) == CodeAssign(name, value)
  {
    var rest := " = " + value;
    assert name + " = " + value == name + rest && rest[3..] == value;
    LineWord(name, rest);
    NoKeyword(name);
  }

  lemma NoKeyword(name: string)
    requires name !in KEYWORDS
    ensures name != "if" && name != "elseif" && name != "else" && name != "end" && name != "while" && name != "for"
    ensures name != "break" && name != "return" && name != "local" && name != "table.insert"
  {
    assert KEYWORDS[0] == "if" && KEYWORDS[1] == "elseif" && KEYWORDS[2] == "else" && KEYWORDS[3] == "end";
    assert KEYWORDS[4] == "while" && KEYWORDS[5] == "for" && KEYWORDS[6] == "break" && KEYWORDS[7] == "return";
    assert KEYWORDS[8] == "local" && KEYWORDS[9] == "table.insert";
  }

  // ----- Loops -----

  lemma ForLine(text: string, rest: string)
    requires text == "for" + rest && rest != "" && rest[0] == ' '
    ensures ParseCode(text) == ParseFor(text, rest[1..])
  {
    LineWord("for", rest);
    assert rest[..1] == " ";
  }

  lemma ForIsRead(s: string)
    ensures ParseCode("for " + s) == ParseFor("for " + s, s)
  {
    var rest := " " + s;
    assert "for" + " " == "for ";
    Assoc("for", " ", s);
    ForLine("for " + s, rest);
    assert rest[1..] == s;
  }

  const ITERATE: string := " in _ctx.query_iter([["

  lemma ForInReadsBack(name: string, query: string)
    requires IsName(name)
    ensures ParseCode("for " + name + " in _ctx.query_iter([[" + query + "]], {}) do") == CodeForIn(name, query)
  {
    HeaderIsGrouped("for ", name, ITERATE, query, "]], {}) do");
    ForIsRead(name + (ITERATE + query + "]], {}) do"));
    IterationIsRead("for " + (name + (ITERATE + query + "]], {}) do")), name, ITERATE, query);
  }

  lemma IterationIsRead(text: string, name: string, iterate: string, query: string)
    requires IsName(name) && iterate == ITERATE
    ensures ParseFor(text, name + (iterate + query + "]], {}) do")) == CodeForIn(name, query)
  {
    var rest := iterate + query + "]], {}) do";
    assert iterate[0] == ' ' && rest[0] == iterate[0];
    WordIsFound(name, rest);
    InnerIsFound(iterate, query, "]], {}) do");
  }

  lemma UpwardIsRead(text: string, name: string, first: string, last: string)
    requires ',' !in first && ',' !in last
    ensures ParseBounds(text, name, T.Split(first + ", " + last, ',')) == CodeFor(name, first, last, false)
  {
    assert first + ", " + last == first + [','] + (" " + last);
    T.SplitFirst(first, ',', " " + last);
    T.AbsentIsNotSplit(" " + last, ',');
    assert (" " + last)[1..] == last;
  }

  lemma BoundsAreGrouped(a: string, comma: string, space: string, b: string, step: string)
    ensures a + (comma + space) + b + (comma + step) == a + comma + (space + b + comma + step)
  {
  }

  lemma ThreeParts(first: string, second: string)
    requires ',' !in second
    ensures [first] + T.Split(second + [','] + " -1", ',') == [first, second, " -1"]
  {
    T.SplitFirst(second, ',', " -1");
    T.AbsentIsNotSplit(" -1", ',');
  }

  lemma DownwardIsRead(text: string, name: string, first: string, last: string)
    requires ',' !in first && ',' !in last
    ensures ParseBounds(text, name, T.Split(first + ", " + last + ", -1", ',')) == CodeFor(name, first, last, true)
  {
    var second := " " + last;
    assert [','] + " " == ", " && [','] + " -1" == ", -1";
    BoundsAreGrouped(first, [','], " ", last, " -1");
    T.SplitFirst(first, ',', second + [','] + " -1");
    ThreeParts(first, second);
    assert second[1..] == last;
  }

  lemma HeaderIsGrouped(a: string, b: string, c: string, d: string, e: string)
    ensures a + b + c + d + e == a + (b + (c + d + e))
  {
  }

  lemma HeaderIsRead(name: string, bounds: string)
    requires IsName(name)
    ensures var text := "for " + name + " = " + bounds + " do";
            ParseCode(text) == ParseBounds(text, name, T.Split(bounds, ','))
  {
    var rest := " = " + bounds + " do";
    HeaderIsGrouped("for ", name, " = ", bounds, " do");
    ForIsRead(name + rest);
    HeaderEndIsRead("for " + (name + rest), name, bounds);
  }

  lemma HeaderEndIsRead(text: string, name: string, bounds: string)
    requires IsName(name)
    ensures ParseFor(text, name + (" = " + bounds + " do")) == ParseBounds(text, name, T.Split(bounds, ','))
  {
    var rest := " = " + bounds + " do";
    assert rest[0] == ' ' && rest[1] == '=' && " in _ctx.query_iter([["[1] == 'i';
    WordIsFound(name, rest);
    InnerIsFound(" = ", bounds, " do");
    OtherStart(rest, " in _ctx.query_iter([[", "]], {}) do");
  }

  lemma OtherStart(s: string, start: string, end: string)
    requires |s| > 1 && |start| > 1 && s[1] != start[1]
    ensures !Within(s, start, end) && !Starts(s, start)
  {
    assert |start| <= |s| ==> s[..|start|][1] == s[1];
  }

  lemma ForReadsBack(name: string, first: string, last: string, down: bool)
    requires IsName(name) && ',' !in first && ',' !in last
    ensures var code := CodeFor(name, first, last, down); ParseCode(code.Text()) == code
  {
    var text := CodeFor(name, first, last, down).Text();
    if down {
      assert text == "for " + name + " = " + (first + ", " + last + ", -1") + " do";
      HeaderIsRead(name, first + ", " + last + ", -1");
      DownwardIsRead(text, name, first, last);
    } else {
      assert text == "for " + name + " = " + (first + ", " + last) + " do";
      HeaderIsRead(name, first + ", " + last);
      UpwardIsRead(text, name, first, last);
    }
  }

  // ----- Declarations -----

  lemma PcallReadsBack()
    ensures ParseCode(CodePcall.Text()) == CodePcall
  {
    EnsureSetLine();
    PcallLine();
    assert |"if"| != |"local"|;
  }

  lemma FunctionReadsBack(name: string)
    ensures ParseCode("local function " + name + "(_ctx, ...)") == CodeFunction(name)
  {
    var rest := " function " + name + "(_ctx, ...)";
    var text := "local" + rest;
    assert "local function " + name + "(_ctx, ...)" == text && text[6] == 'f';
    PcallLine();
    assert CodePcall.Text()[6] == CodePcall.Text()[6..9][0] == '_';
    LineWord("local", rest);
    InnerIsFound(" function ", name, "(_ctx, ...)");
  }

  lemma LocalIsGrouped(a: string, b: string, name: string, equals: string, value: string)
    ensures (a + b) + name + equals + value == a + (b + (name + (equals + value)))
  {
  }

  lemma LocalLine(text: string, rest: string)
    requires text == "local" + rest && rest != "" && rest[0] == ' ' && text != CodePcall.Text()
    ensures ParseCode(text) == ParseLocal(text, rest)
  {
    LineWord("local", rest);
  }

  lemma LocalReadsBack(name: string, value: string)
    requires IsName(name) && name != "function"
    ensures ParseCode("local " + name + " = " + value) == CodeLocal(name, value)
  {
    var text, rest := "local" + " " + name + " = " + value, " " + (name + (" = " + value));
    assert "local" + " " == "local ";
    LocalIsGrouped("local", " ", name, " = ", value);
    NotPcall(name, " = " + value);
    LocalLine(text, rest);
    LocalIsRead(text, name, value);
  }

  lemma LocalIsRead(text: string, name: string, value: string)
    requires IsName(name) && name != "function"
    ensures ParseLocal(text, " " + (name + (" = " + value))) == CodeLocal(name, value)
  {
    var more := " = " + value;
    var rest := " " + (name + more);
    assert rest[1..] == name + more && more[3..] == value;
    NotFunction(name, more);
    WordIsFound(name, more);
  }

  lemma NotPcall(name: string, more: string)
    requires IsName(name) && more != "" && more[0] == ' '
    ensures "local" + (" " + (name + more)) != CodePcall.Text()
  {
    PcallLine();
    SecondWord("local" + (" " + (name + more)), name, more, CodePcall.Text());
  }

  lemma SecondWord(text: string, name: string, more: string, pcall: string)
    requires IsName(name) && more != "" && more[0] == ' ' && text == "local" + (" " + (name + more))
    requires |pcall| > 9 && pcall[6..9] == "_ok" && pcall[9] == ','
    ensures text != pcall
  {
    assert text[6..] == name + more && pcall[6..] == pcall[6..9] + pcall[9..];
    WordIsFound(name, more);
    WordIsFound(pcall[6..9], pcall[9..]);
  }

  lemma NotFunction(name: string, more: string)
    requires IsName(name) && name != "function" && more != "" && !IsNameChar(more[0])
    ensures !Starts(" " + (name + more), " function ")
  {
    WordIsFound(name, more);
    if Starts(" " + (name + more), " function ") {
      FunctionWord(name + more);
    }
  }

  lemma FunctionWord(s: string)
    requires Starts(" " + s, " function ")
    ensures s[..WordLength(s)] == "function"
  {
    assert (" " + s)[..10][1..] == s[..9];
    assert s == "function" + (" " + s[9..]);
    WordIsFound("function", " " + s[9..]);
  }

  lemma ElseReadsBack()
    ensures ParseCode("else") == CodeElse
  {
    BareWord("else");
  }

  lemma EndReadsBack()
    ensures ParseCode("end") == CodeEnd
  {
    BareWord("end");
  }

  lemma BreakReadsBack()
    ensures ParseCode("break") == CodeBreak
  {
    BareWord("break");
  }

  /** A readable line is read as the line that it was printed from. */
  lemma {:induction false} CodeReadsBack(code: Code)
    requires Readable(code)
    ensures ParseCode(code.Text()) == code
  {
    match code
    case CodeIf(cond) => IfReadsBack(cond);
    case CodeElseif(cond) => ElseifReadsBack(cond);
    case CodeElse => ElseReadsBack();
    case CodeEnd => EndReadsBack();
    case CodeEndParen => EndParenReadsBack();
    case CodeWhile(cond) => WhileReadsBack(cond);
    case CodeFor(name, first, last, down) => ForReadsBack(name, first, last, down);
    case CodeForIn(name, query) => ForInReadsBack(name, query);
    case CodePcall => PcallReadsBack();
    case CodeFunction(name) => FunctionReadsBack(name);
    case _ => LeafReadsBack(code);
  }

  lemma LeafReadsBack(code: Code)
    requires Readable(code)
    requires code.CodeBreak? || code.CodeBreakIf? || code.CodeReturn? || code.CodeAssign? || code.CodeLocal?
             || code.CodeInsert? || code.CodeEnsureSet? || code.CodeText?
    ensures ParseCode(code.Text()) == code
  {
    match code
    case CodeBreak => BreakReadsBack();
    case CodeBreakIf(cond) => BreakIfReadsBack(cond);
    case CodeReturn(expr) => ReturnReadsBack(expr);
    case CodeAssign(name, value) => AssignReadsBack(name, value);
    case CodeLocal(name, value) => LocalReadsBack(name, value);
    case CodeInsert(value) => InsertReadsBack(value);
    case CodeEnsureSet =>
    case CodeText(_) =>
  }

  lemma CodeIsNotIndented(code: Code)
    requires Readable(code)
    ensures !Starts(code.Text(), " ")
  {
    var text := code.Text();
    assert text != "" ==> text[..1] == [text[0]];
    match code
    case CodeAssign(name, value) => assert text[0] == name[0];
    case CodeReturn(expr) => assert text[0] == 'r';
    case _ =>
  }

  // ----- Whole texts -----

  function LeadingSpaces(s: string): (n: nat)
    ensures n <= |s|
  {
    if s == "" || s[0] != ' ' then 0 else 1 + LeadingSpaces(s[1..])
  }

  function ParseLine(s: string): Line {
    var n := LeadingSpaces(s);
    Line(n / 2, ParseCode(s[n..]))
  }

  function ParseLines(text: string): seq<Line> {
    if text == "" then [] else
      var at := T.IndexOf(text, '\n');
      if at == |text| then [ParseLine(text)] else [ParseLine(text[..at])] + ParseLines(text[at + 1..])
  }

  lemma {:induction false} SpacesAreCounted(indent: nat, text: string)
    requires !Starts(text, " ")
    ensures LeadingSpaces(Spaces(indent) + text) == 2 * indent && (Spaces(indent) + text)[2 * indent..] == text
    ensures '\n' in Spaces(indent) + text <==> '\n' in text
  {
    if indent == 0 {
      assert Spaces(0) + text == text && (text != "" ==> text[..1] == [text[0]]);
    } else {
      var rest := Spaces(indent - 1) + text;
      assert Spaces(indent) + text == [' '] + ([' '] + rest);
      assert ([' '] + ([' '] + rest))[1..] == [' '] + rest && ([' '] + rest)[1..] == rest;
      SpacesAreCounted(indent - 1, text);
      assert (Spaces(indent) + text)[2 * indent..] == rest[2 * (indent - 1)..];
    }
  }

  function LineText(line: Line): string {
    Spaces(line.indent) + line.code.Text()
  }

  lemma LineReadsBack(line: Line)
    requires Printable(line.code)
    ensures ParseLine(LineText(line)) == line && '\n' !in LineText(line)
  {
    CodeReadsBack(line.code);
    CodeIsNotIndented(line.code);
    SpacesAreCounted(line.indent, line.code.Text());
  }

  lemma {:induction false} RenderFirst(line: Line, rest: seq<Line>)
    ensures Render([line] + rest) == LineText(line) + "\n" + Render(rest)
    decreases |rest|
  {
    var lines := [line] + rest;
    if rest == [] {
      assert lines[..0] == [] && lines == [line];
      assert Render([]) + Spaces(line.indent) + line.code.Text() + "\n" == LineText(line) + "\n" + Render([]);
    } else {
      var last := rest[|rest| - 1];
      assert lines[..|rest|] == [line] + rest[..|rest| - 1] && lines[|rest|] == last;
      RenderFirst(line, rest[..|rest| - 1]);
      var front, end := LineText(line) + "\n", Spaces(last.indent) + last.code.Text() + "\n";
      Assoc(front, Render(rest[..|rest| - 1]), end);
      RenderLast(lines);
      RenderLast(rest);
    }
  }

  lemma RenderLast(lines: seq<Line>)
    requires lines != []
    ensures var n := |lines| - 1;
            Render(lines) == Render(lines[..n]) + (Spaces(lines[n].indent) + lines[n].code.Text() + "\n")
  {
    var n := |lines| - 1;
    var front, spaces, text := Render(lines[..n]), Spaces(lines[n].indent), lines[n].code.Text();
    Assoc(front, spaces, text);
    Assoc(front, spaces + text, "\n");
  }

  /** The text determines its lines. */
  lemma {:induction false} TextReadsBack(lines: seq<Line>)
    requires forall line :: line in lines ==> Printable(line.code)
    ensures ParseLines(Render(lines)) == lines
  {
    if lines != [] {
      assert lines == [lines[0]] + lines[1..] && lines[0] in lines;
      RenderFirst(lines[0], lines[1..]);
      LineReadsBack(lines[0]);
      FirstLineIsParsed(LineText(lines[0]), Render(lines[1..]));
      TextReadsBack(lines[1..]);
    }
  }

  lemma FirstLineIsParsed(text: string, rest: string)
    requires '\n' !in text
    ensures ParseLines(text + "\n" + rest) == [ParseLine(text)] + ParseLines(rest)
  {
    var s := text + "\n" + rest;
    T.IndexOfFirst(text, '\n', rest);
    assert s[..|text|] == text && s[|text| + 1..] == rest;
  }
}
