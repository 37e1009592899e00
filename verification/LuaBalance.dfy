/** When the generated text is a Lua program: its blocks balance exactly when no CASE or EXCEPTION section is empty,
    and then the indentation is the nesting depth on every line. */
module LuaBalance {
  import opened Wrappers
  import opened PlpgsqlAst
  import opened LuaEmitter
  import opened LuaReader

  // ----- Closers minus openers -----

  function Weight(code: Code): int {
    if Opens(code) then -1 else if Closes(code) then 1 else 0
  }

  function Excess(lines: seq<Line>): int {
    if lines == [] then 0 else Weight(lines[0].code) + Excess(lines[1..])
  }

  lemma {:induction false} ExcessAppend(a: seq<Line>, b: seq<Line>)
    ensures Excess(a + b) == Excess(a) + Excess(b)
  {
    if a == [] {
      assert a + b == b;
    } else {
      assert (a + b)[1..] == a[1..] + b;
      ExcessAppend(a[1..], b);
    }
  }

  /** A successful read consumes as many closing as opening lines. */
  lemma {:induction false} ReadBlockBalances(lines: seq<Line>)
    requires ReadBlock(lines).Read?
    ensures Excess(lines) == Excess(ReadBlock(lines).rest)
    decreases |lines|, 1
  {
    if lines != [] && !Terminates(lines[0].code) {
      ReadStatementBalances(lines);
      ReadBlockBalances(ReadStatement(lines).rest);
    }
  }

  lemma {:induction false} ReadStatementBalances(lines: seq<Line>)
    requires lines != [] && !Terminates(lines[0].code) && ReadStatement(lines).Read?
    ensures Excess(lines) == Excess(ReadStatement(lines).rest)
    decreases |lines|, 0
  {
    if Opens(lines[0].code) {
      ReadBlockBalances(lines[1..]);
      var rest := ReadBlock(lines[1..]).rest;
      if lines[0].code.CodeIf? {
        ReadChainBalances(rest);
      }
    }
  }

  lemma {:induction false} ReadChainBalances(lines: seq<Line>)
    requires lines != [] && ReadChain(lines).Read?
    ensures Excess(lines) == 1 + Excess(ReadChain(lines).rest)
    decreases |lines|, 0
  {
    match lines[0].code
    case CodeEnd =>
    case CodeElse => ReadBlockBalances(lines[1..]);
    case CodeElseif(_) =>
      ReadBlockBalances(lines[1..]);
      ReadChainBalances(ReadBlock(lines[1..]).rest);
  }

  // ----- Empty CASE and EXCEPTION lists -----

  /** How many CASE statements without WHEN and EXCEPTION sections without handlers there are, at any depth. */
  function Empties(stmt: Stmt): nat
    decreases stmt, 0
  {
    match stmt
    case Block(body, NoExceptions) => ListEmpties(body)
    case Block(body, Handlers(handlers)) =>
      ListEmpties(body) + HandlerEmpties(handlers) + (if handlers == [] then 1 else 0)
    case If(_, thenBody, elsifs, elseBody) => ListEmpties(thenBody) + BranchEmpties(elsifs) + ElseEmpties(elseBody)
    case Loop(body) => ListEmpties(body)
    case While(_, body) => ListEmpties(body)
    case ForI(_, _, _, _, body) => ListEmpties(body)
    case ForS(_, _, body) => ListEmpties(body)
    case Case(whens, elseBody) => BranchEmpties(whens) + ElseEmpties(elseBody) + (if whens == [] then 1 else 0)
    case _ => 0
  }

  function ListEmpties(stmts: seq<Stmt>): nat
    decreases stmts, 0
  {
    if stmts == [] then 0 else Empties(stmts[0]) + ListEmpties(stmts[1..])
  }

  function BranchEmpties(branches: seq<Branch>): nat
    decreases branches, 0
  {
    if branches == [] then 0 else ListEmpties(branches[0].body) + BranchEmpties(branches[1..])
  }

  function HandlerEmpties(handlers: seq<Handler>): nat
    decreases handlers, 0
  {
    if handlers == [] then 0 else ListEmpties(handlers[0].action) + HandlerEmpties(handlers[1..])
  }

  function ElseEmpties(elseBody: Else): nat
    decreases elseBody, 0
  {
    if elseBody.Else? then ListEmpties(elseBody.body) else 0
  }

  lemma {:induction false} NoEmpties(stmt: Stmt)
    ensures Empties(stmt) == 0 <==> ListsNonEmpty(stmt)
    decreases stmt, 0
  {
    match stmt
    case Block(body, NoExceptions) => NoListEmpties(body);
    case Block(body, Handlers(handlers)) => NoListEmpties(body); NoHandlerEmpties(handlers);
    case If(_, thenBody, elsifs, elseBody) =>
      NoListEmpties(thenBody); NoBranchEmpties(elsifs); NoElseEmpties(elseBody);
    case Loop(body) => NoListEmpties(body);
    case While(_, body) => NoListEmpties(body);
    case ForI(_, _, _, _, body) => NoListEmpties(body);
    case ForS(_, _, body) => NoListEmpties(body);
    case Case(whens, elseBody) => NoBranchEmpties(whens); NoElseEmpties(elseBody);
    case _ =>
  }

  lemma {:induction false} NoListEmpties(stmts: seq<Stmt>)
    ensures ListEmpties(stmts) == 0 <==> AllListsNonEmpty(stmts)
    decreases stmts, 0
  {
    if stmts != [] {
      NoEmpties(stmts[0]);
      NoListEmpties(stmts[1..]);
    }
  }

  lemma {:induction false} NoBranchEmpties(branches: seq<Branch>)
    ensures BranchEmpties(branches) == 0 <==> BranchListsNonEmpty(branches)
    decreases branches, 0
  {
    if branches != [] {
      NoListEmpties(branches[0].body);
      NoBranchEmpties(branches[1..]);
    }
  }

  lemma {:induction false} NoHandlerEmpties(handlers: seq<Handler>)
    ensures HandlerEmpties(handlers) == 0 <==> HandlerListsNonEmpty(handlers)
    decreases handlers, 0
  {
    if handlers != [] {
      NoListEmpties(handlers[0].action);
      NoHandlerEmpties(handlers[1..]);
    }
  }

  lemma {:induction false} NoElseEmpties(elseBody: Else)
    ensures ElseEmpties(elseBody) == 0 <==> (elseBody.Else? ==> AllListsNonEmpty(elseBody.body))
    decreases elseBody, 0
  {
    if elseBody.Else? {
      NoListEmpties(elseBody.body);
    }
  }

  // ----- The emitted lines are out of balance by exactly the empty lists -----

  lemma Excess2(a: Line, b: seq<Line>, c: Line)
    ensures Excess([a] + b + [c]) == Weight(a.code) + Excess(b) + Weight(c.code)
  {
    ExcessAppend([a] + b, [c]);
    ExcessAppend([a], b);
  }

  lemma IfExcess(open: Line, body: seq<Line>, elsifs: seq<Line>, otherwise: seq<Line>, close: Line)
    requires open.code.CodeIf? && close.code.CodeEnd?
    ensures Excess([open] + body + elsifs + otherwise + [close]) == Excess(body) + Excess(elsifs) + Excess(otherwise)
  {
    ExcessAppend([open], body);
    Excess3([open] + body, elsifs, otherwise);
    ExcessAppend([open] + body + elsifs + otherwise, [close]);
  }

  lemma ExcessPair(a: Line, b: Line)
    ensures Excess([a, b]) == Weight(a.code) + Weight(b.code)
  {
    assert [a, b] == [a] + [b];
    ExcessAppend([a], [b]);
  }

  lemma Excess3(a: seq<Line>, b: seq<Line>, c: seq<Line>)
    ensures Excess(a + b + c) == Excess(a) + Excess(b) + Excess(c)
  {
    ExcessAppend(a + b, c);
    ExcessAppend(a, b);
  }

  lemma {:induction false} LeavesHaveNoExcess(lines: seq<Line>)
    requires AllLeaves(lines)
    ensures Excess(lines) == 0
  {
    if lines != [] {
      LeavesHaveNoExcess(lines[1..]);
    }
  }

  lemma {:induction false} StmtExcess(stmt: Stmt, env: Env, d: nat)
    ensures Excess(Lines(stmt, env, d)) == Empties(stmt)
    decreases stmt, 1
  {
    match stmt
    case Block(body, NoExceptions) => ListExcess(body, env, d);
    case Block(body, Handlers(handlers)) =>
      ListExcess(body, env, d + 1);
      HandlersExcess(handlers, env, d + 1, true);
      ProtectedExcess(ListLines(body, env, d + 1), HandlerLines(handlers, env, d + 1, true), handlers, d);
    case If(_, _, _, _) => IfStmtExcess(stmt, env, d);
    case Loop(_) => LoopExcess(stmt, env, d);
    case While(_, _) => LoopExcess(stmt, env, d);
    case ForI(_, _, _, _, _) => ForIExcess(stmt, env, d);
    case ForS(_, _, _) => LoopExcess(stmt, env, d);
    case Case(whens, elseBody) =>
      BranchesExcess(whens, env, d, true);
      ElseExcess(elseBody, env, d);
      Excess3(BranchLines(whens, env, d, true), ElseLines(elseBody, env, d), [Line(d, CodeEnd)]);
    case _ => LeafStmtExcess(stmt, env, d);
  }

  lemma {:induction false} IfStmtExcess(stmt: Stmt, env: Env, d: nat)
    requires stmt.If?
    ensures Excess(Lines(stmt, env, d)) == Empties(stmt)
    decreases stmt, 0
  {
    ListExcess(stmt.thenBody, env, d + 1);
    BranchesExcess(stmt.elsifs, env, d, false);
    ElseExcess(stmt.elseBody, env, d);
    IfExcess(Line(d, CodeIf(env.condition(stmt.cond))), ListLines(stmt.thenBody, env, d + 1),
             BranchLines(stmt.elsifs, env, d, false), ElseLines(stmt.elseBody, env, d), Line(d, CodeEnd));
  }

  lemma {:induction false} ForIExcess(stmt: Stmt, env: Env, d: nat)
    requires stmt.ForI?
    ensures Excess(Lines(stmt, env, d)) == ListEmpties(stmt.body)
    decreases stmt, 0
  {
    var header, setter := Line(d, ForHeader(stmt, env)), Line(d, CodeAssign("_loop_var", stmt.varname));
    ListExcess(stmt.body, env, d + 1);
    ExcessPair(header, setter);
    Excess3([header, setter], ListLines(stmt.body, env, d + 1), [Line(d, CodeEnd)]);
  }

  lemma {:induction false} LoopExcess(stmt: Stmt, env: Env, d: nat)
    requires stmt.Loop? || stmt.While? || stmt.ForS?
    ensures Excess(Lines(stmt, env, d)) == ListEmpties(stmt.body)
    decreases stmt, 0
  {
    ListExcess(stmt.body, env, d + 1);
    var header := if stmt.Loop? then CodeWhile("true")
                  else if stmt.While? then CodeWhile(env.condition(stmt.cond)) else CodeForIn(stmt.varname, stmt.query);
    Excess2(Line(d, header), ListLines(stmt.body, env, d + 1), Line(d, CodeEnd));
  }

  lemma LeafStmtExcess(stmt: Stmt, env: Env, d: nat)
    requires stmt.Assign? || stmt.Exit? || stmt.Return? || stmt.ReturnNext? || stmt.Simple?
    ensures Excess(Lines(stmt, env, d)) == 0
  {
    LeafStmtLines(stmt, env, d);
    LeavesHaveNoExcess(Lines(stmt, env, d));
  }

  lemma {:induction false} ListExcess(stmts: seq<Stmt>, env: Env, d: nat)
    ensures Excess(ListLines(stmts, env, d)) == ListEmpties(stmts)
    decreases stmts, 0
  {
    if stmts != [] {
      StmtExcess(stmts[0], env, d);
      ListExcess(stmts[1..], env, d);
      ExcessAppend(Lines(stmts[0], env, d), ListLines(stmts[1..], env, d));
    }
  }

  lemma {:induction false} BranchesExcess(branches: seq<Branch>, env: Env, d: nat, opens: bool)
    ensures Excess(BranchLines(branches, env, d, opens))
         == BranchEmpties(branches) - (if opens && branches != [] then 1 else 0)
    decreases branches, 0
  {
    if branches != [] {
      var cond := env.condition(branches[0].cond);
      ListExcess(branches[0].body, env, d + 1);
      BranchesExcess(branches[1..], env, d, false);
      Excess3([Line(d, if opens then CodeIf(cond) else CodeElseif(cond))], ListLines(branches[0].body, env, d + 1),
              BranchLines(branches[1..], env, d, false));
    }
  }

  lemma {:induction false} HandlersExcess(handlers: seq<Handler>, env: Env, d: nat, opens: bool)
    ensures Excess(HandlerLines(handlers, env, d, opens))
         == HandlerEmpties(handlers) - (if opens && handlers != [] then 1 else 0)
    decreases handlers, 0
  {
    if handlers != [] {
      ListExcess(handlers[0].action, env, d + 1);
      HandlersExcess(handlers[1..], env, d, false);
      Excess3([Line(d, HandlerHeader(handlers[0], opens))], ListLines(handlers[0].action, env, d + 1),
              HandlerLines(handlers[1..], env, d, false));
    }
  }

  lemma {:induction false} ElseExcess(elseBody: Else, env: Env, d: nat)
    ensures Excess(ElseLines(elseBody, env, d)) == ElseEmpties(elseBody)
    decreases elseBody, 0
  {
    if elseBody.Else? {
      ListExcess(elseBody.body, env, d + 1);
      ExcessAppend([Line(d, CodeElse)], ListLines(elseBody.body, env, d + 1));
    }
  }

  lemma FailureExcess(d: nat)
    ensures Excess(FailureLines(d)) == 0
  {
    LeavesHaveNoExcess(At(d + 1, ERROR_LINES));
    ExcessAppend([Line(d, CodeEndParen), Line(d, CodeIf("not _ok"))], At(d + 1, ERROR_LINES));
  }

  lemma OutcomeExcess(handlers: seq<Handler>, d: nat)
    ensures Excess(OutcomeLines(handlers, d)) == 2
  {
    var rethrow := if CatchesOthers(handlers) then []
                   else [Line(d + 1, CodeElse), Line(d + 2, CodeText("error(_err)"))];
    if !CatchesOthers(handlers) {
      ExcessPair(rethrow[0], rethrow[1]);
    }
    var closing := [Line(d + 1, CodeEnd), Line(d, CodeElse)];
    var last := [Line(d + 1, CodeReturn(Some("_result_or_err"))), Line(d, CodeEnd)];
    ExcessPair(closing[0], closing[1]);
    ExcessPair(last[0], last[1]);
    Excess3(rethrow, closing, last);
    assert OutcomeLines(handlers, d) == rethrow + closing + last;
  }

  lemma ProtectedExcess(body: seq<Line>, inner: seq<Line>, handlers: seq<Handler>, d: nat)
    ensures Excess([Line(d, CodePcall)] + body + FailureLines(d) + inner + OutcomeLines(handlers, d))
         == Excess(body) + Excess(inner) + 1
  {
    FailureExcess(d);
    OutcomeExcess(handlers, d);
    ExcessAppend([Line(d, CodePcall)], body);
    Excess3([Line(d, CodePcall)] + body, FailureLines(d), inner);
    ExcessAppend([Line(d, CodePcall)] + body + FailureLines(d) + inner, OutcomeLines(handlers, d));
  }

  /** The emitted chunk can be read back exactly when no CASE or EXCEPTION list is empty. */
  lemma {:induction false} ReadableIffListsNonEmpty(f: Function, env: Env)
    ensures ReadChunk(FunctionLines(f, env)).Some? <==> AllListsNonEmpty(f.body)
  {
    NoListEmpties(f.body);
    if AllListsNonEmpty(f.body) {
      ReadFunction(f, env);
    } else {
      FunctionExcess(f, env);
      if ReadChunk(FunctionLines(f, env)).Some? {
        ReadBlockBalances(FunctionLines(f, env));
        assert false;
      }
    }
  }

  lemma FunctionExcess(f: Function, env: Env)
    ensures Excess(FunctionLines(f, env)) == ListEmpties(f.body)
  {
    PrologueIsLeaves(env);
    EpilogueIsLeaves(env);
    LeavesHaveNoExcess(PrologueLines(env));
    LeavesHaveNoExcess(EpilogueLines(env));
    ListExcess(f.body, env, 1);
    WrappedExcess(Line(0, CodeText("-- Generated from PL/pgSQL")), Line(0, CodeFunction(FunctionName(f))),
                  PrologueLines(env), ListLines(f.body, env, 1), EpilogueLines(env), Line(0, CodeEnd),
                  Line(0, CodeReturn(Some(FunctionName(f)))));
  }

  lemma WrappedExcess(comment: Line, header: Line, pro: seq<Line>, body: seq<Line>, epi: seq<Line>, close: Line,
                      last: Line)
    requires comment.code.CodeText? && header.code.CodeFunction? && close.code.CodeEnd? && last.code.CodeReturn?
    ensures Excess([comment, header] + pro + body + epi + [close, last]) == Excess(pro) + Excess(body) + Excess(epi)
  {
    Excess3([comment, header] + pro, body, epi);
    ExcessAppend([comment, header], pro);
    ExcessAppend([comment, header] + pro + body + epi, [close, last]);
    assert [comment, header] == [comment] + [header] && [close, last] == [close] + [last];
    ExcessAppend([comment], [header]);
    ExcessAppend([close], [last]);
  }

  // ----- Indentation -----

  /** Walks the lines keeping the nesting depth, and gives the depth at the end; None when a line is not indented
      to its depth or a closing line has nothing to close. The line that stores the FOR variable is written at the
      depth of its header, and lines that end a block stand one level out. */
  function Nest(lines: seq<Line>, d: nat): Option<nat> {
    if lines == [] then Some(d) else
      var line := lines[0];
      if Opens(line.code) then (if line.indent == d then Nest(lines[1..], d + 1) else None)
      else if Terminates(line.code) then
        if line.indent + 1 == d then Nest(lines[1..], if Closes(line.code) then d - 1 else d) else None
      else if line.indent == d || (line.indent + 1 == d && IsLoopVarLine(line)) then Nest(lines[1..], d) else None
  }

  predicate IsLoopVarLine(line: Line) {
    line.code.CodeAssign? && line.code.name == "_loop_var"
  }

  lemma {:induction false} NestAppend(a: seq<Line>, b: seq<Line>, d: nat)
    requires Nest(a, d).Some?
    ensures Nest(a + b, d) == Nest(b, Nest(a, d).value)
  {
    if a == [] {
      assert a + b == b;
    } else {
      assert (a + b)[1..] == a[1..] + b;
      var next := if Opens(a[0].code) then d + 1 else if Closes(a[0].code) then d - 1 else d;
      NestAppend(a[1..], b, next);
    }
  }

  lemma NestPair(a: Line, b: Line, d: nat)
    requires Nest([a], d).Some?
    ensures Nest([a, b], d) == Nest([b], Nest([a], d).value)
  {
    assert [a, b] == [a] + [b];
    NestAppend([a], [b], d);
  }

  lemma Nest3(a: seq<Line>, b: seq<Line>, c: seq<Line>, d: nat, e: nat)
    requires Nest(a, d) == Some(e) && Nest(b, e) == Some(e) && Nest(c, e) == Some(d)
    ensures Nest(a + b + c, d) == Some(d)
  {
    NestAppend(a, b, d);
    NestAppend(a + b, c, d);
  }

  lemma {:induction false} NestLeaves(lines: seq<Line>, d: nat)
    requires AllLeaves(lines) && forall line :: line in lines ==> line.indent == d
    ensures Nest(lines, d) == Some(d)
  {
    if lines != [] {
      NestLeaves(lines[1..], d);
    }
  }

  /** Every statement is indented to its nesting depth and leaves the depth as it found it. */
  lemma {:induction false} StmtNests(stmt: Stmt, env: Env, d: nat)
    requires ListsNonEmpty(stmt)
    ensures Nest(Lines(stmt, env, d), d) == Some(d)
    decreases stmt, 1
  {
    match stmt
    case Block(body, NoExceptions) => ListNests(body, env, d);
    case Block(body, Handlers(handlers)) =>
      ListNests(body, env, d + 1);
      HandlersNest(handlers, env, d + 1, true);
      ProtectedNests(ListLines(body, env, d + 1), HandlerLines(handlers, env, d + 1, true), handlers, d);
    case If(_, _, _, _) => IfStmtNests(stmt, env, d);
    case Loop(_) => LoopStmtNests(stmt, env, d);
    case While(_, _) => LoopStmtNests(stmt, env, d);
    case ForI(_, _, _, _, body) =>
      ListNests(body, env, d + 1);
      ForINests(stmt, env, d);
    case ForS(_, _, _) => LoopStmtNests(stmt, env, d);
    case Case(_, _) => CaseStmtNests(stmt, env, d);
    case _ => LeafStmtNests(stmt, env, d);
  }

  lemma {:induction false} LoopStmtNests(stmt: Stmt, env: Env, d: nat)
    requires (stmt.Loop? || stmt.While? || stmt.ForS?) && AllListsNonEmpty(stmt.body)
    ensures Nest(Lines(stmt, env, d), d) == Some(d)
    decreases stmt, 0
  {
    ListNests(stmt.body, env, d + 1);
    var header := if stmt.Loop? then CodeWhile("true")
                  else if stmt.While? then CodeWhile(env.condition(stmt.cond)) else CodeForIn(stmt.varname, stmt.query);
    EnclosedNests(Line(d, header), ListLines(stmt.body, env, d + 1), Line(d, CodeEnd));
  }

  lemma {:induction false} CaseStmtNests(stmt: Stmt, env: Env, d: nat)
    requires stmt.Case? && ListsNonEmpty(stmt)
    ensures Nest(Lines(stmt, env, d), d) == Some(d)
    decreases stmt, 0
  {
    BranchesNest(stmt.whens, env, d, true);
    ElseNests(stmt.elseBody, env, d);
    CaseNests(BranchLines(stmt.whens, env, d, true), ElseLines(stmt.elseBody, env, d), Line(d, CodeEnd));
  }

  lemma CaseNests(whens: seq<Line>, otherwise: seq<Line>, close: Line)
    requires Closes(close.code) && Nest(whens, close.indent) == Some(close.indent + 1)
    requires Nest(otherwise, close.indent + 1) == Some(close.indent + 1)
    ensures Nest(whens + otherwise + [close], close.indent) == Some(close.indent)
  {
    assert Nest([close], close.indent + 1) == Some(close.indent);
    Nest3(whens, otherwise, [close], close.indent, close.indent + 1);
  }

  lemma LeafStmtNests(stmt: Stmt, env: Env, d: nat)
    requires stmt.Assign? || stmt.Exit? || stmt.Return? || stmt.ReturnNext? || stmt.Simple?
    ensures Nest(Lines(stmt, env, d), d) == Some(d)
  {
    LeafStmtLines(stmt, env, d);
    NestLeaves(Lines(stmt, env, d), d);
  }

  lemma {:induction false} IfStmtNests(stmt: Stmt, env: Env, d: nat)
    requires stmt.If? && ListsNonEmpty(stmt)
    ensures Nest(Lines(stmt, env, d), d) == Some(d)
    decreases stmt, 0
  {
    ListNests(stmt.thenBody, env, d + 1);
    BranchesNest(stmt.elsifs, env, d, false);
    ElseNests(stmt.elseBody, env, d);
    IfNests(Line(d, CodeIf(env.condition(stmt.cond))), ListLines(stmt.thenBody, env, d + 1),
            BranchLines(stmt.elsifs, env, d, false), ElseLines(stmt.elseBody, env, d), Line(d, CodeEnd));
  }

  lemma EnclosedNests(open: Line, body: seq<Line>, close: Line)
    requires Opens(open.code) && Closes(close.code) && close.indent == open.indent
    requires Nest(body, open.indent + 1) == Some(open.indent + 1)
    ensures Nest([open] + body + [close], open.indent) == Some(open.indent)
  {
    assert Nest([open], open.indent) == Some(open.indent + 1);
    assert Nest([close], open.indent + 1) == Some(open.indent);
    Nest3([open], body, [close], open.indent, open.indent + 1);
  }

  lemma IfNests(open: Line, body: seq<Line>, elsifs: seq<Line>, otherwise: seq<Line>, close: Line)
    requires Opens(open.code) && Closes(close.code) && close.indent == open.indent
    requires Nest(body, open.indent + 1) == Some(open.indent + 1)
    requires Nest(elsifs, open.indent + 1) == Some(open.indent + 1)
    requires Nest(otherwise, open.indent + 1) == Some(open.indent + 1)
    ensures Nest([open] + body + elsifs + otherwise + [close], open.indent) == Some(open.indent)
  {
    NestAppend(body, elsifs, open.indent + 1);
    NestAppend(body + elsifs, otherwise, open.indent + 1);
    EnclosedNests(open, body + elsifs + otherwise, close);
    assert [open] + (body + elsifs + otherwise) == [open] + body + elsifs + otherwise;
  }

  lemma ForINests(stmt: Stmt, env: Env, d: nat)
    requires stmt.ForI? && Nest(ListLines(stmt.body, env, d + 1), d + 1) == Some(d + 1)
    ensures Nest(Lines(stmt, env, d), d) == Some(d)
  {
    var header, setter := Line(d, ForHeader(stmt, env)), Line(d, CodeAssign("_loop_var", stmt.varname));
    NestPair(header, setter, d);
    assert Nest([setter], d + 1) == Some(d + 1);
    assert Nest([Line(d, CodeEnd)], d + 1) == Some(d);
    Nest3([header, setter], ListLines(stmt.body, env, d + 1), [Line(d, CodeEnd)], d, d + 1);
  }

  lemma {:induction false} ListNests(stmts: seq<Stmt>, env: Env, d: nat)
    requires AllListsNonEmpty(stmts)
    ensures Nest(ListLines(stmts, env, d), d) == Some(d)
    decreases stmts, 0
  {
    if stmts != [] {
      StmtNests(stmts[0], env, d);
      ListNests(stmts[1..], env, d);
      NestAppend(Lines(stmts[0], env, d), ListLines(stmts[1..], env, d), d);
    }
  }

  /** A chain of branches is entered at d if its first line opens it, and at d + 1 if it continues one. */
  lemma {:induction false} BranchesNest(branches: seq<Branch>, env: Env, d: nat, opens: bool)
    requires BranchListsNonEmpty(branches) && (opens ==> branches != [])
    ensures Nest(BranchLines(branches, env, d, opens), if opens then d else d + 1) == Some(d + 1)
    decreases branches, 0
  {
    if branches != [] {
      var cond := env.condition(branches[0].cond);
      var header := Line(d, if opens then CodeIf(cond) else CodeElseif(cond));
      ListNests(branches[0].body, env, d + 1);
      BranchesNest(branches[1..], env, d, false);
      PartNests(header, ListLines(branches[0].body, env, d + 1), BranchLines(branches[1..], env, d, false));
    }
  }

  /** The header and body of a branch, and the rest of the chain. */
  lemma PartNests(header: Line, body: seq<Line>, rest: seq<Line>)
    requires Opens(header.code) || (Terminates(header.code) && !Closes(header.code))
    requires Nest(body, header.indent + 1) == Some(header.indent + 1)
    requires Nest(rest, header.indent + 1) == Some(header.indent + 1)
    ensures Nest([header] + body + rest, if Opens(header.code) then header.indent else header.indent + 1)
         == Some(header.indent + 1)
  {
    var d := if Opens(header.code) then header.indent else header.indent + 1;
    assert Nest([header], d) == Some(header.indent + 1);
    NestAppend([header], body, d);
    NestAppend([header] + body, rest, d);
  }

  lemma {:induction false} HandlersNest(handlers: seq<Handler>, env: Env, d: nat, opens: bool)
    requires HandlerListsNonEmpty(handlers) && (opens ==> handlers != [])
    ensures Nest(HandlerLines(handlers, env, d, opens), if opens then d else d + 1) == Some(d + 1)
    decreases handlers, 0
  {
    if handlers != [] {
      var header := Line(d, HandlerHeader(handlers[0], opens));
      ListNests(handlers[0].action, env, d + 1);
      HandlersNest(handlers[1..], env, d, false);
      PartNests(header, ListLines(handlers[0].action, env, d + 1), HandlerLines(handlers[1..], env, d, false));
    }
  }

  lemma {:induction false} ElseNests(elseBody: Else, env: Env, d: nat)
    requires elseBody.Else? ==> AllListsNonEmpty(elseBody.body)
    ensures Nest(ElseLines(elseBody, env, d), d + 1) == Some(d + 1)
    decreases elseBody, 0
  {
    if elseBody.Else? {
      ListNests(elseBody.body, env, d + 1);
      assert Nest([Line(d, CodeElse)], d + 1) == Some(d + 1);
      NestAppend([Line(d, CodeElse)], ListLines(elseBody.body, env, d + 1), d + 1);
    }
  }

  lemma ProtectedNests(body: seq<Line>, inner: seq<Line>, handlers: seq<Handler>, d: nat)
    requires Nest(body, d + 1) == Some(d + 1) && Nest(inner, d + 1) == Some(d + 2)
    ensures Nest([Line(d, CodePcall)] + body + FailureLines(d) + inner + OutcomeLines(handlers, d), d) == Some(d)
  {
    assert Nest([Line(d, CodePcall)], d) == Some(d + 1);
    FailureNests(d);
    OutcomeNests(handlers, d);
    NestAppend([Line(d, CodePcall)], body, d);
    NestAppend([Line(d, CodePcall)] + body, FailureLines(d), d);
    NestAppend([Line(d, CodePcall)] + body + FailureLines(d), inner, d);
    NestAppend([Line(d, CodePcall)] + body + FailureLines(d) + inner, OutcomeLines(handlers, d), d);
  }

  lemma FailureNests(d: nat)
    ensures Nest(FailureLines(d), d + 1) == Some(d + 1)
  {
    var head := [Line(d, CodeEndParen), Line(d, CodeIf("not _ok"))];
    NestPair(head[0], head[1], d + 1);
    NestLeaves(At(d + 1, ERROR_LINES), d + 1);
    NestAppend(head, At(d + 1, ERROR_LINES), d + 1);
  }

  lemma OutcomeNests(handlers: seq<Handler>, d: nat)
    ensures Nest(OutcomeLines(handlers, d), d + 2) == Some(d)
  {
    var rethrow := if CatchesOthers(handlers) then []
                   else [Line(d + 1, CodeElse), Line(d + 2, CodeText("error(_err)"))];
    if !CatchesOthers(handlers) {
      NestPair(rethrow[0], rethrow[1], d + 2);
    }
    ClosingNests(d);
    NestAppend(rethrow, ClosingLines(d), d + 2);
    assert OutcomeLines(handlers, d) == rethrow + ClosingLines(d);
  }

  function ClosingLines(d: nat): seq<Line> {
    [Line(d + 1, CodeEnd), Line(d, CodeElse), Line(d + 1, CodeReturn(Some("_result_or_err"))), Line(d, CodeEnd)]
  }

  lemma ClosingNests(d: nat)
    ensures Nest(ClosingLines(d), d + 2) == Some(d)
  {
    var closing := [Line(d + 1, CodeEnd), Line(d, CodeElse)];
    var last := [Line(d + 1, CodeReturn(Some("_result_or_err"))), Line(d, CodeEnd)];
    NestPair(closing[0], closing[1], d + 2);
    NestPair(last[0], last[1], d + 1);
    NestAppend(closing, last, d + 2);
    assert ClosingLines(d) == closing + last;
  }

  /** On every prefix of a well-nested text no more blocks have been closed than opened; the depth reached is the
      number of blocks still open. */
  lemma {:induction false} NestCountsOpenBlocks(lines: seq<Line>, d: nat, k: nat)
    requires Nest(lines, d).Some? && k <= |lines|
    ensures Nest(lines[..k], d) == Some(d - Excess(lines[..k])) && Excess(lines[..k]) <= d
  {
    if k > 0 {
      var next := if Opens(lines[0].code) then d + 1 else if Closes(lines[0].code) then d - 1 else d;
      NestCountsOpenBlocks(lines[1..], next, k - 1);
      assert lines[..k][1..] == lines[1..][..k - 1];
    }
  }

  /** The whole chunk is indented to its nesting depth, on no prefix have more blocks been closed than opened, and
      none is open at the end. */
  lemma {:induction false} FunctionIsWellNested(f: Function, env: Env, k: nat)
    requires AllListsNonEmpty(f.body) && k <= |FunctionLines(f, env)|
    ensures Nest(FunctionLines(f, env), 0) == Some(0)
    ensures Excess(FunctionLines(f, env)[..k]) <= 0 && Excess(FunctionLines(f, env)) == 0
  {
    PrologueIsLeaves(env);
    EpilogueIsLeaves(env);
    ParamLinesIndented(env.datums, 0, ParamCount(env.datums));
    LocalLinesIndented(env, ParamCount(env.datums));
    NestLeaves(PrologueLines(env), 1);
    NestLeaves(EpilogueLines(env), 1);
    ListNests(f.body, env, 1);
    WrappedNests(Line(0, CodeText("-- Generated from PL/pgSQL")), Line(0, CodeFunction(FunctionName(f))),
                 PrologueLines(env), ListLines(f.body, env, 1), EpilogueLines(env), Line(0, CodeEnd),
                 Line(0, CodeReturn(Some(FunctionName(f)))));
    NestCountsOpenBlocks(FunctionLines(f, env), 0, k);
    FunctionExcess(f, env);
    NoListEmpties(f.body);
  }

  lemma WrappedNests(comment: Line, header: Line, pro: seq<Line>, body: seq<Line>, epi: seq<Line>, close: Line,
                     last: Line)
    requires comment.code.CodeText? && header.code.CodeFunction? && close.code.CodeEnd? && last.code.CodeReturn?
    requires comment.indent == header.indent == close.indent == last.indent == 0
    requires Nest(pro, 1) == Some(1) && Nest(body, 1) == Some(1) && Nest(epi, 1) == Some(1)
    ensures Nest([comment, header] + pro + body + epi + [close, last], 0) == Some(0)
  {
    NestPair(comment, header, 0);
    NestPair(close, last, 1);
    NestAppend([comment, header], pro, 0);
    NestAppend([comment, header] + pro, body, 0);
    NestAppend([comment, header] + pro + body, epi, 0);
    NestAppend([comment, header] + pro + body + epi, [close, last], 0);
  }

  lemma {:induction false} ParamLinesIndented(datums: seq<Datum>, i: nat, count: nat)
    requires i <= count <= |datums|
    ensures forall line :: line in ParamLines(datums, i, count) ==> line.indent == 1
    decreases count - i
  {
    if i < count {
      ParamLinesIndented(datums, i + 1, count);
    }
  }

  lemma {:induction false} LocalLinesIndented(env: Env, i: nat)
    requires i <= |env.datums|
    ensures forall line :: line in LocalLines(env, i) ==> line.indent == 1
    decreases |env.datums| - i
  {
    if i < |env.datums| {
      LocalLinesIndented(env, i + 1);
    }
  }
}
