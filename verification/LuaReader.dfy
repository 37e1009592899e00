/** Reading generated Lua back: a block reader for the line formats, the tree each PL/pgSQL statement is meant to
    become, and the proof that the reader finds exactly that tree in the emitted lines. */
module LuaReader {
  import opened Sequences
  import opened Wrappers
  import opened PlpgsqlAst
  import opened LuaEmitter

  // ----- Lua trees -----

  datatype LuaElse = NoLuaElse | LuaElse(body: seq<Lua>)

  datatype LuaBranch = LuaBranch(cond: string, body: seq<Lua>)

  /** `LuaIf` holds its first branch apart: a chain has at least one. */
  datatype Lua =
    | LuaIf(first: LuaBranch, rest: seq<LuaBranch>, otherwise: LuaElse)
    | LuaWhile(cond: string, body: seq<Lua>)
    | LuaFor(name: string, lo: string, hi: string, down: bool, body: seq<Lua>)
    | LuaForIn(name: string, query: string, body: seq<Lua>)
    | LuaPcall(body: seq<Lua>)
    | LuaFunction(name: string, body: seq<Lua>)
    | LuaBreak
    | LuaBreakIf(cond: string)
    | LuaReturn(expr: Option<string>)
    | LuaAssign(name: string, value: string)
    | LuaLocal(name: string, value: string)
    | LuaInsert(value: string)
    | LuaEnsureSet
    | LuaText(text: string)

  // ----- The reader -----

  predicate Opens(code: Code) {
    code.CodeIf? || code.CodeWhile? || code.CodeFor? || code.CodeForIn? || code.CodePcall? || code.CodeFunction?
  }

  predicate Closes(code: Code) {
    code.CodeEnd? || code.CodeEndParen?
  }

  predicate Terminates(code: Code) {
    Closes(code) || code.CodeElse? || code.CodeElseif?
  }

  function Leaf(code: Code): Lua
    requires !Opens(code) && !Terminates(code)
  {
    match code
    case CodeBreak => LuaBreak
    case CodeBreakIf(cond) => LuaBreakIf(cond)
    case CodeReturn(expr) => LuaReturn(expr)
    case CodeAssign(name, value) => LuaAssign(name, value)
    case CodeLocal(name, value) => LuaLocal(name, value)
    case CodeInsert(value) => LuaInsert(value)
    case CodeEnsureSet => LuaEnsureSet
    case CodeText(text) => LuaText(text)
  }

  /** The statement that an opening line makes of its body. */
  function Enclosing(code: Code, body: seq<Lua>): Lua
    requires Opens(code) && !code.CodeIf?
  {
    match code
    case CodeWhile(cond) => LuaWhile(cond, body)
    case CodeFor(name, lo, hi, down) => LuaFor(name, lo, hi, down, body)
    case CodeForIn(name, query) => LuaForIn(name, query, body)
    case CodePcall => LuaPcall(body)
    case CodeFunction(name) => LuaFunction(name, body)
  }

  datatype Read<+T> = Unreadable | Read(value: T, rest: seq<Line>)

  /** Statements up to the first line that ends the block, or to the end of the lines. */
  function ReadBlock(lines: seq<Line>): (r: Read<seq<Lua>>)
    ensures r.Read? ==> |r.rest| <= |lines| && (r.rest == [] || Terminates(r.rest[0].code))
    decreases |lines|, 1
  {
    if lines == [] || Terminates(lines[0].code) then Read([], lines) else
      var head := ReadStatement(lines);
      if head.Unreadable? then Unreadable else
      var tail := ReadBlock(head.rest);
      if tail.Unreadable? then Unreadable else Read([head.value] + tail.value, tail.rest)
  }

  function ReadStatement(lines: seq<Line>): (r: Read<Lua>)
    requires lines != [] && !Terminates(lines[0].code)
    ensures r.Read? ==> |r.rest| < |lines|
    decreases |lines|, 0
  {
    var code := lines[0].code;
    if !Opens(code) then Read(Leaf(code), lines[1..]) else
      var body := ReadBlock(lines[1..]);
      if body.Unreadable? || body.rest == [] then Unreadable
      else if code.CodeIf? then
        var chain := ReadChain(body.rest);
        if chain.Unreadable? then Unreadable
        else Read(LuaIf(LuaBranch(code.cond, body.value), chain.value.0, chain.value.1), chain.rest)
      else if !(if code.CodePcall? then body.rest[0].code.CodeEndParen? else body.rest[0].code.CodeEnd?)
        then Unreadable
      else
        Read(Enclosing(code, body.value), body.rest[1..])
  }

  /** The rest of an `if` chain: `elseif` branches, an optional `else`, and the closing `end`. */
  function ReadChain(lines: seq<Line>): (r: Read<(seq<LuaBranch>, LuaElse)>)
    requires lines != []
    ensures r.Read? ==> |r.rest| < |lines|
    decreases |lines|, 0
  {
    match lines[0].code
    case CodeEnd => Read(([], NoLuaElse), lines[1..])
    case CodeElse =>
      var body := ReadBlock(lines[1..]);
      if body.Read? && body.rest != [] && body.rest[0].code.CodeEnd?
      then Read(([], LuaElse(body.value)), body.rest[1..]) else Unreadable
    case CodeElseif(cond) =>
      var body := ReadBlock(lines[1..]);
      if body.Unreadable? || body.rest == [] then Unreadable else
      var chain := ReadChain(body.rest);
      if chain.Unreadable? then Unreadable
      else Read(([LuaBranch(cond, body.value)] + chain.value.0, chain.value.1), chain.rest)
    case _ => Unreadable
  }

  /** A whole chunk: nothing may be left over. */
  function ReadChunk(lines: seq<Line>): Option<seq<Lua>> {
    var r := ReadBlock(lines);
    if r.Read? && r.rest == [] then Some(r.value) else None
  }

  // ----- The intended trees -----

  function Trees(stmt: Stmt, env: Env): seq<Lua>
    decreases stmt, 0
  {
    match stmt
    case Block(body, NoExceptions) => ListTrees(body, env)
    case Block(body, Handlers(handlers)) =>
      if handlers == [] then [] else
        [LuaPcall(ListTrees(body, env)),
         LuaIf(LuaBranch("not _ok",
                         ERROR_TREES + [LuaIf(HandlerTree(handlers[0], env), HandlerTrees(handlers[1..], env),
                                              Rethrow(handlers))]),
               [], LuaElse([LuaReturn(Some("_result_or_err"))]))]
    case Assign(varno, query) => [LuaAssign(VarName(env.datums, varno), env.rhs(AssignedExpr(query)))]
    case If(cond, thenBody, elsifs, elseBody) =>
      [LuaIf(LuaBranch(env.condition(cond), ListTrees(thenBody, env)), BranchTrees(elsifs, env),
             ElseTree(elseBody, env))]
    case Loop(body) => [LuaWhile("true", ListTrees(body, env))]
    case While(cond, body) => [LuaWhile(env.condition(cond), ListTrees(body, env))]
    case ForI(name, lower, upper, reverse, body) =>
      var first, last := if reverse then upper else lower, if reverse then lower else upper;
      [LuaFor(name, env.condition(first), env.condition(last), reverse,
              [LuaAssign("_loop_var", name)] + ListTrees(body, env))]
    case ForS(name, query, body) => [LuaForIn(name, query, ListTrees(body, env))]
    case Exit(cond) => [if cond.Some? then LuaBreakIf(env.condition(cond.value)) else LuaBreak]
    case Return(expr) =>
      if env.isSetof then (if expr.Some? then [LuaInsert("{}")] else [])
      else [LuaReturn(if expr.Some? then Some(env.condition(expr.value)) else None)]
    case ReturnNext(expr) =>
      [LuaEnsureSet, LuaInsert(if expr.Some? then env.condition(expr.value) else "_loop_var")]
    case Case(whens, elseBody) =>
      if whens == [] then [] else
        [LuaIf(LuaBranch(env.condition(whens[0].cond), ListTrees(whens[0].body, env)),
               BranchTrees(whens[1..], env), ElseTree(elseBody, env))]
    case Simple(texts) => seq(|texts|, i requires 0 <= i < |texts| => LuaText(texts[i]))
  }

  function ListTrees(stmts: seq<Stmt>, env: Env): seq<Lua>
    decreases stmts, 0
  {
    if stmts == [] then [] else Trees(stmts[0], env) + ListTrees(stmts[1..], env)
  }

  function BranchTrees(branches: seq<Branch>, env: Env): seq<LuaBranch>
    decreases branches, 0
  {
    if branches == [] then [] else
      [LuaBranch(env.condition(branches[0].cond), ListTrees(branches[0].body, env))] + BranchTrees(branches[1..], env)
  }

  function HandlerTree(handler: Handler, env: Env): LuaBranch
    decreases handler, 0
  {
    LuaBranch(HandlerTest(handler), ListTrees(handler.action, env))
  }

  function HandlerTrees(handlers: seq<Handler>, env: Env): seq<LuaBranch>
    decreases handlers, 0
  {
    if handlers == [] then [] else [HandlerTree(handlers[0], env)] + HandlerTrees(handlers[1..], env)
  }

  function ElseTree(elseBody: Else, env: Env): LuaElse
    decreases elseBody, 0
  {
    match elseBody
    case NoElse => NoLuaElse
    case Else(body) => LuaElse(ListTrees(body, env))
  }

  function Rethrow(handlers: seq<Handler>): LuaElse {
    if CatchesOthers(handlers) then NoLuaElse else LuaElse([LuaText("error(_err)")])
  }

  const ERROR_TREES: seq<Lua> := [
    Leaf(ERROR_LINES[0]), Leaf(ERROR_LINES[1]), Leaf(ERROR_LINES[2]), Leaf(ERROR_LINES[3]), Leaf(ERROR_LINES[4])]

  /** The leaf lines of the prologue and the epilogue, as trees. */
  function LeafTrees(lines: seq<Line>): seq<Lua>
    requires AllLeaves(lines)
  {
    seq(|lines|, i requires 0 <= i < |lines| => Leaf(lines[i].code))
  }

  predicate AllLeaves(lines: seq<Line>) {
    forall line :: line in lines ==> !Opens(line.code) && !Terminates(line.code)
  }

  lemma {:induction false} ParamLinesAreLeaves(datums: seq<Datum>, i: nat, count: nat)
    requires i <= count <= |datums|
    ensures AllLeaves(ParamLines(datums, i, count))
    decreases count - i
  {
    if i < count {
      ParamLinesAreLeaves(datums, i + 1, count);
    }
  }

  lemma {:induction false} LocalLinesAreLeaves(env: Env, i: nat)
    requires i <= |env.datums|
    ensures AllLeaves(LocalLines(env, i))
    decreases |env.datums| - i
  {
    if i < |env.datums| {
      LocalLinesAreLeaves(env, i + 1);
    }
  }

  lemma PrologueIsLeaves(env: Env)
    ensures AllLeaves(PrologueLines(env))
  {
    ParamLinesAreLeaves(env.datums, 0, ParamCount(env.datums));
    LocalLinesAreLeaves(env, ParamCount(env.datums));
    LeavesBoth(ParameterPart(env), DeclarationPart(env));
    LeavesBoth(ParameterPart(env) + DeclarationPart(env),
               if env.isSetof then [Line(1, CodeLocal("_result_set", "{}"))] else []);
  }

  lemma EpilogueIsLeaves(env: Env)
    ensures AllLeaves(EpilogueLines(env))
  {
  }

  lemma LeavesBoth(a: seq<Line>, b: seq<Line>)
    requires AllLeaves(a) && AllLeaves(b)
    ensures AllLeaves(a + b)
  {
  }

  // ----- Non-empty lists -----

  /** Every CASE has a WHEN and every EXCEPTION section a handler, at any depth. */
  predicate ListsNonEmpty(stmt: Stmt)
    decreases stmt, 0
  {
    match stmt
    case Block(body, NoExceptions) => AllListsNonEmpty(body)
    case Block(body, Handlers(handlers)) =>
      AllListsNonEmpty(body) && handlers != [] && HandlerListsNonEmpty(handlers)
    case If(_, thenBody, elsifs, elseBody) =>
      AllListsNonEmpty(thenBody) && BranchListsNonEmpty(elsifs) && (elseBody.Else? ==> AllListsNonEmpty(elseBody.body))
    case Loop(body) => AllListsNonEmpty(body)
    case While(_, body) => AllListsNonEmpty(body)
    case ForI(_, _, _, _, body) => AllListsNonEmpty(body)
    case ForS(_, _, body) => AllListsNonEmpty(body)
    case Case(whens, elseBody) =>
      whens != [] && BranchListsNonEmpty(whens) && (elseBody.Else? ==> AllListsNonEmpty(elseBody.body))
    case _ => true
  }

  predicate AllListsNonEmpty(stmts: seq<Stmt>)
    decreases stmts, 0
  {
    stmts != [] ==> ListsNonEmpty(stmts[0]) && AllListsNonEmpty(stmts[1..])
  }

  predicate BranchListsNonEmpty(branches: seq<Branch>)
    decreases branches, 0
  {
    branches != [] ==> AllListsNonEmpty(branches[0].body) && BranchListsNonEmpty(branches[1..])
  }

  predicate HandlerListsNonEmpty(handlers: seq<Handler>)
    decreases handlers, 0
  {
    handlers != [] ==> AllListsNonEmpty(handlers[0].action) && HandlerListsNonEmpty(handlers[1..])
  }

  // ----- Reading pieces of a chunk -----

  /** What the reader returns when `trees` come before whatever it finds in the remaining lines. */
  function Before(trees: seq<Lua>, r: Read<seq<Lua>>): Read<seq<Lua>> {
    if r.Unreadable? then Unreadable else Read(trees + r.value, r.rest)
  }

  /** The lines read as exactly these trees, whatever follows them. */
  ghost predicate ReadsAs(lines: seq<Line>, trees: seq<Lua>) {
    forall rest :: ReadBlock(lines + rest) == Before(trees, ReadBlock(rest))
  }

  /** The lines complete an `if` chain with these branches, whatever follows them. */
  ghost predicate ChainReadsAs(lines: seq<Line>, branches: seq<LuaBranch>, otherwise: LuaElse) {
    lines != [] && Terminates(lines[0].code)
    && forall rest :: ReadChain(lines + rest) == Read((branches, otherwise), rest)
  }

  lemma ReadNothing()
    ensures ReadsAs([], [])
  {
    forall rest: seq<Line>
      ensures ReadBlock([] + rest) == Before([], ReadBlock(rest))
    {
      assert [] + rest == rest;
      if ReadBlock(rest).Read? {
        assert [] + ReadBlock(rest).value == ReadBlock(rest).value;
      }
    }
  }

  lemma ReadBoth(a: seq<Line>, s: seq<Lua>, b: seq<Line>, t: seq<Lua>)
    requires ReadsAs(a, s) && ReadsAs(b, t)
    ensures ReadsAs(a + b, s + t)
  {
    forall rest
      ensures ReadBlock(a + b + rest) == Before(s + t, ReadBlock(rest))
    {
      ReadBothBefore(a, s, b, t, rest);
    }
  }

  lemma ReadBothBefore(a: seq<Line>, s: seq<Lua>, b: seq<Line>, t: seq<Lua>, rest: seq<Line>)
    requires ReadBlock(a + (b + rest)) == Before(s, ReadBlock(b + rest))
    requires ReadBlock(b + rest) == Before(t, ReadBlock(rest))
    ensures ReadBlock(a + b + rest) == Before(s + t, ReadBlock(rest))
  {
    Assoc(a, b, rest);
    BeforeBefore(s, t, ReadBlock(rest));
  }

  lemma BeforeBefore(s: seq<Lua>, t: seq<Lua>, r: Read<seq<Lua>>)
    ensures Before(s, Before(t, r)) == Before(s + t, r)
  {
    if r.Read? {
      assert s + (t + r.value) == s + t + r.value;
    }
  }

  lemma ReadLeaf(line: Line)
    requires !Opens(line.code) && !Terminates(line.code)
    ensures ReadsAs([line], [Leaf(line.code)])
  {
    forall rest
      ensures ReadBlock([line] + rest) == Before([Leaf(line.code)], ReadBlock(rest))
    {
      assert ([line] + rest)[1..] == rest;
    }
  }

  lemma {:induction false} ReadLeaves(lines: seq<Line>)
    requires AllLeaves(lines)
    ensures ReadsAs(lines, LeafTrees(lines))
  {
    if lines == [] {
      ReadNothing();
    } else {
      ReadLeaf(lines[0]);
      ReadLeaves(lines[1..]);
      ReadBoth([lines[0]], [Leaf(lines[0].code)], lines[1..], LeafTrees(lines[1..]));
      assert [lines[0]] + lines[1..] == lines;
      assert [Leaf(lines[0].code)] + LeafTrees(lines[1..]) == LeafTrees(lines);
    }
  }

  /** A block ends where a terminating line follows it. */
  lemma ReadUpTo(body: seq<Line>, trees: seq<Lua>, end: seq<Line>)
    requires ReadsAs(body, trees) && end != [] && Terminates(end[0].code)
    ensures ReadBlock(body + end) == Read(trees, end)
  {
    assert trees + [] == trees;
  }

  /** An opening line, a body and the matching closing line. */
  lemma ReadEnclosed(open: Line, body: seq<Line>, trees: seq<Lua>, close: Line)
    requires Opens(open.code) && !open.code.CodeIf? && ReadsAs(body, trees)
    requires if open.code.CodePcall? then close.code.CodeEndParen? else close.code.CodeEnd?
    ensures ReadsAs([open] + body + [close], [Enclosing(open.code, trees)])
  {
    forall rest
      ensures ReadBlock([open] + body + [close] + rest) == Before([Enclosing(open.code, trees)], ReadBlock(rest))
    {
      var end := [close] + rest;
      var all := [open] + body + [close] + rest;
      assert all[1..] == body + end;
      ReadUpTo(body, trees, end);
      assert end[1..] == rest;
      assert ReadStatement(all) == Read(Enclosing(open.code, trees), rest);
    }
  }

  lemma ReadIf(open: Line, body: seq<Line>, trees: seq<Lua>,
               chain: seq<Line>, branches: seq<LuaBranch>, otherwise: LuaElse)
    requires open.code.CodeIf? && ReadsAs(body, trees) && ChainReadsAs(chain, branches, otherwise)
    ensures ReadsAs([open] + body + chain, [LuaIf(LuaBranch(open.code.cond, trees), branches, otherwise)])
  {
    var tree := LuaIf(LuaBranch(open.code.cond, trees), branches, otherwise);
    forall rest
      ensures ReadBlock([open] + body + chain + rest) == Before([tree], ReadBlock(rest))
    {
      var all := [open] + body + chain + rest;
      assert all[1..] == body + (chain + rest);
      ReadUpTo(body, trees, chain + rest);
      assert ReadStatement(all) == Read(tree, rest);
    }
  }

  lemma ReadChainEnd(close: Line)
    requires close.code.CodeEnd?
    ensures ChainReadsAs([close], [], NoLuaElse)
  {
    forall rest
      ensures ReadChain([close] + rest) == Read(([], NoLuaElse), rest)
    {
      assert ([close] + rest)[1..] == rest;
    }
  }

  lemma ReadChainElse(open: Line, body: seq<Line>, trees: seq<Lua>, close: Line)
    requires open.code.CodeElse? && close.code.CodeEnd? && ReadsAs(body, trees)
    ensures ChainReadsAs([open] + body + [close], [], LuaElse(trees))
  {
    forall rest
      ensures ReadChain([open] + body + [close] + rest) == Read(([], LuaElse(trees)), rest)
    {
      var all := [open] + body + [close] + rest;
      assert all[1..] == body + ([close] + rest);
      ReadUpTo(body, trees, [close] + rest);
      assert ([close] + rest)[1..] == rest;
    }
  }

  lemma ReadChainElseif(open: Line, body: seq<Line>, trees: seq<Lua>,
                        chain: seq<Line>, branches: seq<LuaBranch>, otherwise: LuaElse)
    requires open.code.CodeElseif? && ReadsAs(body, trees) && ChainReadsAs(chain, branches, otherwise)
    ensures ChainReadsAs([open] + body + chain, [LuaBranch(open.code.cond, trees)] + branches, otherwise)
  {
    forall rest
      ensures ReadChain([open] + body + chain + rest)
           == Read(([LuaBranch(open.code.cond, trees)] + branches, otherwise), rest)
    {
      var all := [open] + body + chain + rest;
      assert all[1..] == body + (chain + rest);
      ReadUpTo(body, trees, chain + rest);
    }
  }

  // ----- Reading statements back -----

  /** The emitted lines of a statement read back as its intended trees, whatever lines follow. */
  lemma {:induction false} ReadStmt(stmt: Stmt, env: Env, d: nat)
    requires ListsNonEmpty(stmt)
    ensures ReadsAs(Lines(stmt, env, d), Trees(stmt, env))
    decreases stmt, 1
  {
    match stmt
    case Block(body, NoExceptions) => ReadStmts(body, env, d);
    case Block(body, Handlers(_)) => ReadProtectedBlock(stmt, env, d);
    case If(cond, thenBody, elsifs, elseBody) =>
      ReadStmts(thenBody, env, d + 1);
      ReadElse(elseBody, env, d);
      ReadBranches(elsifs, env, d, ElseLines(elseBody, env, d) + [Line(d, CodeEnd)], ElseTree(elseBody, env));
      ReadIfChain(Line(d, CodeIf(env.condition(cond))), ListLines(thenBody, env, d + 1), ListTrees(thenBody, env),
                  BranchLines(elsifs, env, d, false), ElseLines(elseBody, env, d), [Line(d, CodeEnd)],
                  BranchTrees(elsifs, env), ElseTree(elseBody, env));
    case Case(whens, elseBody) =>
      ReadStmts(whens[0].body, env, d + 1);
      ReadElse(elseBody, env, d);
      ReadBranches(whens[1..], env, d, ElseLines(elseBody, env, d) + [Line(d, CodeEnd)], ElseTree(elseBody, env));
      ReadIfChain(Line(d, CodeIf(env.condition(whens[0].cond))), ListLines(whens[0].body, env, d + 1),
                  ListTrees(whens[0].body, env), BranchLines(whens[1..], env, d, false),
                  ElseLines(elseBody, env, d), [Line(d, CodeEnd)], BranchTrees(whens[1..], env),
                  ElseTree(elseBody, env));
    case Loop(body) =>
      ReadStmts(body, env, d + 1);
      ReadEnclosed(Line(d, CodeWhile("true")), ListLines(body, env, d + 1), ListTrees(body, env), Line(d, CodeEnd));
    case While(cond, body) =>
      ReadStmts(body, env, d + 1);
      ReadEnclosed(Line(d, CodeWhile(env.condition(cond))), ListLines(body, env, d + 1), ListTrees(body, env),
                   Line(d, CodeEnd));
    case ForI(name, _, _, _, body) =>
      ReadStmts(body, env, d + 1);
      ReadForI(stmt, env, d);
    case ForS(name, query, body) =>
      ReadStmts(body, env, d + 1);
      ReadEnclosed(Line(d, CodeForIn(name, query)), ListLines(body, env, d + 1), ListTrees(body, env),
                   Line(d, CodeEnd));
    case _ => ReadLeafStmt(stmt, env, d);
  }

  lemma ReadLeafStmt(stmt: Stmt, env: Env, d: nat)
    requires stmt.Assign? || stmt.Exit? || stmt.Return? || stmt.ReturnNext? || stmt.Simple?
    ensures ReadsAs(Lines(stmt, env, d), Trees(stmt, env))
  {
    LeafStmtLines(stmt, env, d);
    ReadLeaves(Lines(stmt, env, d));
  }

  /** A statement without a body becomes lines that neither open nor end anything. */
  lemma LeafStmtLines(stmt: Stmt, env: Env, d: nat)
    requires stmt.Assign? || stmt.Exit? || stmt.Return? || stmt.ReturnNext? || stmt.Simple?
    ensures AllLeaves(Lines(stmt, env, d)) && Trees(stmt, env) == LeafTrees(Lines(stmt, env, d))
    ensures forall line :: line in Lines(stmt, env, d) ==> line.indent == d
  {
    match stmt
    case Simple(_) => SimpleLines(stmt, env, d);
    case Return(_) => ReturnLines(stmt, env, d);
    case ReturnNext(_) => TwoLeaves(Lines(stmt, env, d)[0], Lines(stmt, env, d)[1]);
    case Assign(_, _) => OneLeaf(Lines(stmt, env, d)[0]);
    case Exit(_) => OneLeaf(Lines(stmt, env, d)[0]);
  }

  lemma ReturnLines(stmt: Stmt, env: Env, d: nat)
    requires stmt.Return?
    ensures AllLeaves(Lines(stmt, env, d)) && Trees(stmt, env) == LeafTrees(Lines(stmt, env, d))
    ensures forall line :: line in Lines(stmt, env, d) ==> line.indent == d
  {
    var lines := Lines(stmt, env, d);
    if lines != [] {
      OneLeaf(lines[0]);
    }
  }

  lemma TwoLeaves(first: Line, second: Line)
    requires !Opens(first.code) && !Terminates(first.code) && !Opens(second.code) && !Terminates(second.code)
    ensures AllLeaves([first, second]) && LeafTrees([first, second]) == [Leaf(first.code), Leaf(second.code)]
  {
  }

  lemma OneLeaf(line: Line)
    requires !Opens(line.code) && !Terminates(line.code)
    ensures AllLeaves([line]) && LeafTrees([line]) == [Leaf(line.code)]
  {
  }

  lemma SimpleLines(stmt: Stmt, env: Env, d: nat)
    requires stmt.Simple?
    ensures AllLeaves(Lines(stmt, env, d)) && Trees(stmt, env) == LeafTrees(Lines(stmt, env, d))
    ensures forall line :: line in Lines(stmt, env, d) ==> line.indent == d
  {
    var lines := Lines(stmt, env, d);
    forall line | line in lines
      ensures line.code.CodeText? && line.indent == d
    {
      var i :| 0 <= i < |lines| && lines[i] == line;
    }
    assert |Trees(stmt, env)| == |lines|;
  }

  lemma ReadIfChain(open: Line, body: seq<Line>, trees: seq<Lua>, elsifs: seq<Line>, otherwise: seq<Line>,
                    end: seq<Line>, branches: seq<LuaBranch>, last: LuaElse)
    requires open.code.CodeIf? && ReadsAs(body, trees)
    requires ChainReadsAs(elsifs + (otherwise + end), branches, last)
    ensures ReadsAs([open] + body + elsifs + otherwise + end, [LuaIf(LuaBranch(open.code.cond, trees), branches, last)])
  {
    ReadIf(open, body, trees, elsifs + (otherwise + end), branches, last);
    Append3([open] + body, elsifs, otherwise, end);
    Assoc(elsifs, otherwise, end);
  }

  lemma ReadForI(stmt: Stmt, env: Env, d: nat)
    requires stmt.ForI? && ReadsAs(ListLines(stmt.body, env, d + 1), ListTrees(stmt.body, env))
    ensures ReadsAs(Lines(stmt, env, d), Trees(stmt, env))
  {
    var setter := Line(d, CodeAssign("_loop_var", stmt.varname));
    var header := Line(d, ForHeader(stmt, env));
    var body := ListLines(stmt.body, env, d + 1);
    ReadLeaf(setter);
    ReadBoth([setter], [LuaAssign("_loop_var", stmt.varname)], body, ListTrees(stmt.body, env));
    ReadEnclosed(header, [setter] + body, [LuaAssign("_loop_var", stmt.varname)] + ListTrees(stmt.body, env),
                 Line(d, CodeEnd));
    PairFirst(header, setter, body);
  }

  lemma PairFirst(a: Line, b: Line, rest: seq<Line>)
    ensures [a] + ([b] + rest) == [a, b] + rest
  {
  }

  lemma {:induction false} ReadStmts(stmts: seq<Stmt>, env: Env, d: nat)
    requires AllListsNonEmpty(stmts)
    ensures ReadsAs(ListLines(stmts, env, d), ListTrees(stmts, env))
    decreases stmts, 0
  {
    if stmts == [] {
      ReadNothing();
    } else {
      ReadStmt(stmts[0], env, d);
      ReadStmts(stmts[1..], env, d);
      ReadBoth(Lines(stmts[0], env, d), Trees(stmts[0], env),
               ListLines(stmts[1..], env, d), ListTrees(stmts[1..], env));
    }
  }

  lemma {:induction false} ReadBranches(branches: seq<Branch>, env: Env, d: nat, tail: seq<Line>, last: LuaElse)
    requires BranchListsNonEmpty(branches) && ChainReadsAs(tail, [], last)
    ensures ChainReadsAs(BranchLines(branches, env, d, false) + tail, BranchTrees(branches, env), last)
    decreases branches, 0
  {
    if branches == [] {
      assert BranchLines(branches, env, d, false) + tail == tail;
    } else {
      var open := Line(d, CodeElseif(env.condition(branches[0].cond)));
      var body, more := ListLines(branches[0].body, env, d + 1), BranchLines(branches[1..], env, d, false);
      ReadStmts(branches[0].body, env, d + 1);
      ReadBranches(branches[1..], env, d, tail, last);
      ReadChainElseif(open, body, ListTrees(branches[0].body, env), more + tail, BranchTrees(branches[1..], env), last);
      Assoc([open] + body, more, tail);
    }
  }

  lemma {:induction false} ReadHandlers(handlers: seq<Handler>, env: Env, d: nat, tail: seq<Line>, last: LuaElse)
    requires HandlerListsNonEmpty(handlers) && ChainReadsAs(tail, [], last)
    ensures ChainReadsAs(HandlerLines(handlers, env, d, false) + tail, HandlerTrees(handlers, env), last)
    decreases handlers, 0
  {
    if handlers == [] {
      assert HandlerLines(handlers, env, d, false) + tail == tail;
    } else {
      var open := Line(d, HandlerHeader(handlers[0], false));
      var body, more := ListLines(handlers[0].action, env, d + 1), HandlerLines(handlers[1..], env, d, false);
      ReadStmts(handlers[0].action, env, d + 1);
      ReadHandlers(handlers[1..], env, d, tail, last);
      ReadChainElseif(open, body, ListTrees(handlers[0].action, env), more + tail, HandlerTrees(handlers[1..], env),
                      last);
      Assoc([open] + body, more, tail);
    }
  }

  lemma {:induction false} ReadElse(elseBody: Else, env: Env, d: nat)
    requires elseBody.Else? ==> AllListsNonEmpty(elseBody.body)
    ensures ChainReadsAs(ElseLines(elseBody, env, d) + [Line(d, CodeEnd)], [], ElseTree(elseBody, env))
    decreases elseBody, 0
  {
    if elseBody.Else? {
      ReadStmts(elseBody.body, env, d + 1);
      ReadChainElse(Line(d, CodeElse), ListLines(elseBody.body, env, d + 1), ListTrees(elseBody.body, env),
                    Line(d, CodeEnd));
    } else {
      assert ElseLines(elseBody, env, d) + [Line(d, CodeEnd)] == [Line(d, CodeEnd)];
      ReadChainEnd(Line(d, CodeEnd));
    }
  }

  // ----- Protected blocks -----

  /** The protected call, then the test of its outcome around the handler chain. */
  lemma {:induction false} ReadProtectedBlock(stmt: Stmt, env: Env, d: nat)
    requires stmt.Block? && stmt.exceptions.Handlers? && ListsNonEmpty(stmt)
    ensures ReadsAs(Lines(stmt, env, d), Trees(stmt, env))
    decreases stmt, 0
  {
    var body, handlers := stmt.body, stmt.exceptions.list;
    var inner, first := HandlerLines(handlers, env, d + 1, true), ListLines(handlers[0].action, env, d + 2);
    ReadStmts(body, env, d + 1);
    ReadEnclosed(Line(d, CodePcall), ListLines(body, env, d + 1), ListTrees(body, env), Line(d, CodeEndParen));
    ReadStmts(handlers[0].action, env, d + 2);
    ReadRethrow(handlers, d + 1);
    ReadHandlers(handlers[1..], env, d + 1, RethrowLines(handlers, d + 1), Rethrow(handlers));
    ReadIf(Line(d + 1, HandlerHeader(handlers[0], true)), first, ListTrees(handlers[0].action, env),
           HandlerLines(handlers[1..], env, d + 1, false) + RethrowLines(handlers, d + 1),
           HandlerTrees(handlers[1..], env), Rethrow(handlers));
    Assoc(HandlerPart(handlers[0], env, d + 1, true), HandlerLines(handlers[1..], env, d + 1, false),
          RethrowLines(handlers, d + 1));
    assert inner == HandlerPart(handlers[0], env, d + 1, true) + HandlerLines(handlers[1..], env, d + 1, false);
    var chain := LuaIf(HandlerTree(handlers[0], env), HandlerTrees(handlers[1..], env), Rethrow(handlers));
    ReadOutcome(inner + RethrowLines(handlers, d + 1), chain, d);
    var test := LuaIf(LuaBranch("not _ok", ERROR_TREES + [chain]), [], LuaElse([LuaReturn(Some("_result_or_err"))]));
    ReadBoth([Line(d, CodePcall)] + ListLines(body, env, d + 1) + [Line(d, CodeEndParen)],
             [LuaPcall(ListTrees(body, env))], OutcomeTest(inner + RethrowLines(handlers, d + 1), d), [test]);
    ProtectedBlockLines(ListLines(body, env, d + 1), inner, handlers, d);
    assert Trees(stmt, env) == [LuaPcall(ListTrees(body, env))] + [test];
  }

  function RethrowLines(handlers: seq<Handler>, d: nat): seq<Line> {
    (if CatchesOthers(handlers) then [] else [Line(d, CodeElse), Line(d + 1, CodeText("error(_err)"))])
    + [Line(d, CodeEnd)]
  }

  function OutcomeTest(chain: seq<Line>, d: nat): seq<Line> {
    [Line(d, CodeIf("not _ok"))] + (At(d + 1, ERROR_LINES) + chain)
    + ([Line(d, CodeElse)] + [Line(d + 1, CodeReturn(Some("_result_or_err")))] + [Line(d, CodeEnd)])
  }

  lemma ReadRethrow(handlers: seq<Handler>, d: nat)
    ensures ChainReadsAs(RethrowLines(handlers, d), [], Rethrow(handlers))
  {
    if CatchesOthers(handlers) {
      ReadChainEnd(Line(d, CodeEnd));
      assert RethrowLines(handlers, d) == [Line(d, CodeEnd)];
    } else {
      var reraise := Line(d + 1, CodeText("error(_err)"));
      ReadLeaf(reraise);
      ReadChainElse(Line(d, CodeElse), [reraise], [LuaText("error(_err)")], Line(d, CodeEnd));
      assert RethrowLines(handlers, d) == [Line(d, CodeElse)] + [reraise] + [Line(d, CodeEnd)];
    }
  }

  lemma ReadOutcome(lines: seq<Line>, chain: Lua, d: nat)
    requires ReadsAs(lines, [chain])
    ensures ReadsAs(OutcomeTest(lines, d),
      [LuaIf(LuaBranch("not _ok", ERROR_TREES + [chain]), [], LuaElse([LuaReturn(Some("_result_or_err"))]))])
  {
    var done := Line(d + 1, CodeReturn(Some("_result_or_err")));
    ReadLeaves(At(d + 1, ERROR_LINES));
    assert LeafTrees(At(d + 1, ERROR_LINES)) == ERROR_TREES;
    ReadBoth(At(d + 1, ERROR_LINES), ERROR_TREES, lines, [chain]);
    ReadLeaf(done);
    ReadChainElse(Line(d, CodeElse), [done], [LuaReturn(Some("_result_or_err"))], Line(d, CodeEnd));
    ReadIf(Line(d, CodeIf("not _ok")), At(d + 1, ERROR_LINES) + lines, ERROR_TREES + [chain],
           [Line(d, CodeElse)] + [done] + [Line(d, CodeEnd)], [], LuaElse([LuaReturn(Some("_result_or_err"))]));
  }

  /** The pieces in the order the reader meets them are the pieces in the order they were written. */
  lemma ProtectedBlockLines(body: seq<Line>, inner: seq<Line>, handlers: seq<Handler>, d: nat)
    ensures [Line(d, CodePcall)] + body + [Line(d, CodeEndParen)]
            + OutcomeTest(inner + RethrowLines(handlers, d + 1), d)
         == [Line(d, CodePcall)] + body + FailureLines(d) + inner + OutcomeLines(handlers, d)
  {
  }

  // ----- Reading a function back -----

  function BodyTrees(f: Function, env: Env): seq<Lua> {
    PrologueIsLeaves(env);
    EpilogueIsLeaves(env);
    LeafTrees(PrologueLines(env)) + ListTrees(f.body, env) + LeafTrees(EpilogueLines(env))
  }

  function FunctionTrees(f: Function, env: Env): seq<Lua> {
    [LuaText("-- Generated from PL/pgSQL"), LuaFunction(FunctionName(f), BodyTrees(f, env)),
     LuaReturn(Some(FunctionName(f)))]
  }

  /** The whole chunk reads back as the intended function, with nothing left over. */
  lemma {:induction false} ReadFunction(f: Function, env: Env)
    requires AllListsNonEmpty(f.body)
    ensures ReadChunk(FunctionLines(f, env)) == Some(FunctionTrees(f, env))
  {
    var comment, header := Line(0, CodeText("-- Generated from PL/pgSQL")), Line(0, CodeFunction(FunctionName(f)));
    var close, last := Line(0, CodeEnd), Line(0, CodeReturn(Some(FunctionName(f))));
    var inner := PrologueLines(env) + ListLines(f.body, env, 1) + EpilogueLines(env);
    ReadBody(f, env);
    ReadWrapped(comment, header, inner, BodyTrees(f, env), close, last);
    FunctionPieces(comment, header, PrologueLines(env), ListLines(f.body, env, 1), EpilogueLines(env), close, last);
  }

  lemma ReadBody(f: Function, env: Env)
    requires AllListsNonEmpty(f.body)
    ensures ReadsAs(PrologueLines(env) + ListLines(f.body, env, 1) + EpilogueLines(env), BodyTrees(f, env))
  {
    PrologueIsLeaves(env);
    EpilogueIsLeaves(env);
    ReadLeaves(PrologueLines(env));
    ReadStmts(f.body, env, 1);
    ReadLeaves(EpilogueLines(env));
    ReadThree(PrologueLines(env), LeafTrees(PrologueLines(env)), ListLines(f.body, env, 1), ListTrees(f.body, env),
              EpilogueLines(env), LeafTrees(EpilogueLines(env)));
  }

  lemma ReadThree(a: seq<Line>, s: seq<Lua>, b: seq<Line>, t: seq<Lua>, c: seq<Line>, u: seq<Lua>)
    requires ReadsAs(a, s) && ReadsAs(b, t) && ReadsAs(c, u)
    ensures ReadsAs(a + b + c, s + t + u)
  {
    ReadBoth(a, s, b, t);
    ReadBoth(a + b, s + t, c, u);
  }

  lemma ReadWrapped(comment: Line, header: Line, inner: seq<Line>, trees: seq<Lua>, close: Line, last: Line)
    requires comment.code.CodeText? && header.code.CodeFunction? && close.code.CodeEnd? && last.code.CodeReturn?
    requires ReadsAs(inner, trees)
    ensures ReadChunk([comment] + ([header] + inner + [close]) + [last])
         == Some([Leaf(comment.code), LuaFunction(header.code.name, trees), Leaf(last.code)])
  {
    var tree := LuaFunction(header.code.name, trees);
    var closed := [header] + inner + [close];
    ReadEnclosed(header, inner, trees, close);
    ReadLeaf(comment);
    ReadLeaf(last);
    ReadBoth([comment], [Leaf(comment.code)], closed, [tree]);
    ReadBoth([comment] + closed, [Leaf(comment.code)] + [tree], [last], [Leaf(last.code)]);
    var all := [comment] + closed + [last];
    assert all + [] == all;
    assert ReadBlock([]) == Read([], []);
    assert [Leaf(comment.code)] + [tree] + [Leaf(last.code)] + [] == [Leaf(comment.code), tree, Leaf(last.code)];
  }

  lemma FunctionPieces(comment: Line, header: Line, pro: seq<Line>, body: seq<Line>, epi: seq<Line>, close: Line,
                       last: Line)
    ensures [comment] + ([header] + (pro + body + epi) + [close]) + [last]
         == [comment, header] + pro + body + epi + [close, last]
  {
  }
}
