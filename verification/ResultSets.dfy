/** Functions that return sets: the translator looks for RETURN NEXT in the syntax tree, and by that decides whether
    the function gets a result set. */
module ResultSets {
  import opened Wrappers
  import opened PlpgsqlAst
  import opened Execution
  import opened LuaEmitter
  import opened TranslationCorrect
  import Pl = PlpgsqlSemantics

  // ----- What is found is what is written -----

  predicate Writes(lines: seq<Line>, code: Code) {
    exists i :: 0 <= i < |lines| && lines[i].code == code
  }

  lemma WritesEither(a: seq<Line>, b: seq<Line>, code: Code)
    ensures Writes(a + b, code) <==> Writes(a, code) || Writes(b, code)
  {
    var lines := a + b;
    if i :| 0 <= i < |a| && a[i].code == code {
      assert lines[i].code == code;
    }
    if i :| 0 <= i < |b| && b[i].code == code {
      assert lines[|a| + i].code == code;
    }
  }

  lemma WritesAround(first: seq<Line>, body: seq<Line>, last: seq<Line>, code: Code)
    requires !Writes(first, code) && !Writes(last, code)
    ensures Writes(first + body + last, code) <==> Writes(body, code)
  {
    WritesEither(first, body, code);
    WritesEither(first + body, last, code);
  }

  /** No EXCEPTION section at any depth. */
  predicate NoHandlers(stmt: Stmt)
    decreases stmt, 0
  {
    match stmt
    case Block(body, exceptions) => exceptions.NoExceptions? && AllNoHandlers(body)
    case If(_, thenBody, elsifs, elseBody) =>
      AllNoHandlers(thenBody) && BranchesNoHandlers(elsifs) && (elseBody.Else? ==> AllNoHandlers(elseBody.body))
    case Loop(body) => AllNoHandlers(body)
    case While(_, body) => AllNoHandlers(body)
    case ForI(_, _, _, _, body) => AllNoHandlers(body)
    case ForS(_, _, body) => AllNoHandlers(body)
    case Case(whens, elseBody) => BranchesNoHandlers(whens) && (elseBody.Else? ==> AllNoHandlers(elseBody.body))
    case _ => true
  }

  predicate AllNoHandlers(stmts: seq<Stmt>)
    decreases stmts, 0
  {
    stmts != [] ==> NoHandlers(stmts[0]) && AllNoHandlers(stmts[1..])
  }

  predicate BranchesNoHandlers(branches: seq<Branch>)
    decreases branches, 0
  {
    branches != [] ==> AllNoHandlers(branches[0].body) && BranchesNoHandlers(branches[1..])
  }

  lemma {:induction false} StmtReturnsNextIff(stmt: Stmt, env: Env, d: nat)
    requires NoHandlers(stmt)
    ensures StmtReturnsNext(stmt) <==> Writes(Lines(stmt, env, d), CodeEnsureSet)
    decreases stmt, 1
  {
    match stmt
    case Block(body, _) => HasReturnNextIff(body, env, d);
    case If(_, _, _, _) => IfReturnsNextIff(stmt, env, d);
    case Loop(body) => EnclosedReturnsNextIff([Line(d, CodeWhile("true"))], body, env, d);
    case While(cond, body) => EnclosedReturnsNextIff([Line(d, CodeWhile(env.condition(cond)))], body, env, d);
    case ForI(name, _, _, _, body) =>
      EnclosedReturnsNextIff([Line(d, ForHeader(stmt, env)), Line(d, CodeAssign("_loop_var", name))], body, env, d);
    case ForS(name, query, body) => EnclosedReturnsNextIff([Line(d, CodeForIn(name, query))], body, env, d);
    case Case(whens, elseBody) =>
      BranchesReturnNextIff(whens, env, d, true);
      ElseReturnsNextIff(elseBody, env, d);
      WritesEither(BranchLines(whens, env, d, true), ElseLines(elseBody, env, d), CodeEnsureSet);
      WritesEither(BranchLines(whens, env, d, true) + ElseLines(elseBody, env, d), [Line(d, CodeEnd)], CodeEnsureSet);
    case ReturnNext(_) => assert Lines(stmt, env, d)[0].code == CodeEnsureSet;
    case _ =>
  }

  lemma {:induction false} IfReturnsNextIff(stmt: Stmt, env: Env, d: nat)
    requires stmt.If? && NoHandlers(stmt)
    ensures StmtReturnsNext(stmt) <==> Writes(Lines(stmt, env, d), CodeEnsureSet)
    decreases stmt, 0
  {
    var head, body := [Line(d, CodeIf(env.condition(stmt.cond)))], ListLines(stmt.thenBody, env, d + 1);
    var branches, otherwise := BranchLines(stmt.elsifs, env, d, false), ElseLines(stmt.elseBody, env, d);
    HasReturnNextIff(stmt.thenBody, env, d + 1);
    BranchesReturnNextIff(stmt.elsifs, env, d, false);
    ElseReturnsNextIff(stmt.elseBody, env, d);
    WritesEither(head, body, CodeEnsureSet);
    WritesEither(head + body, branches, CodeEnsureSet);
    WritesEither(head + body + branches, otherwise, CodeEnsureSet);
    WritesEither(head + body + branches + otherwise, [Line(d, CodeEnd)], CodeEnsureSet);
  }

  lemma {:induction false} EnclosedReturnsNextIff(head: seq<Line>, body: seq<Stmt>, env: Env, d: nat)
    requires AllNoHandlers(body) && !Writes(head, CodeEnsureSet)
    ensures HasReturnNext(body) <==> Writes(head + ListLines(body, env, d + 1) + [Line(d, CodeEnd)], CodeEnsureSet)
    decreases body, 1
  {
    HasReturnNextIff(body, env, d + 1);
    WritesAround(head, ListLines(body, env, d + 1), [Line(d, CodeEnd)], CodeEnsureSet);
  }

  /** RETURN NEXT is found in a body without handlers exactly if the line that it puts in front of its row is
      written. */
  lemma {:induction false} HasReturnNextIff(stmts: seq<Stmt>, env: Env, d: nat)
    requires AllNoHandlers(stmts)
    ensures HasReturnNext(stmts) <==> Writes(ListLines(stmts, env, d), CodeEnsureSet)
    decreases stmts, 0
  {
    if stmts != [] {
      StmtReturnsNextIff(stmts[0], env, d);
      HasReturnNextIff(stmts[1..], env, d);
      WritesEither(Lines(stmts[0], env, d), ListLines(stmts[1..], env, d), CodeEnsureSet);
    }
  }

  lemma {:induction false} BranchesReturnNextIff(branches: seq<Branch>, env: Env, d: nat, opens: bool)
    requires BranchesNoHandlers(branches)
    ensures BranchesReturnNext(branches) <==> Writes(BranchLines(branches, env, d, opens), CodeEnsureSet)
    decreases branches, 0
  {
    if branches != [] {
      var cond := env.condition(branches[0].cond);
      var head := [Line(d, if opens then CodeIf(cond) else CodeElseif(cond))];
      HasReturnNextIff(branches[0].body, env, d + 1);
      BranchesReturnNextIff(branches[1..], env, d, false);
      WritesEither(head, ListLines(branches[0].body, env, d + 1), CodeEnsureSet);
      WritesEither(head + ListLines(branches[0].body, env, d + 1), BranchLines(branches[1..], env, d, false),
                   CodeEnsureSet);
    }
  }

  lemma {:induction false} ElseReturnsNextIff(elseBody: Else, env: Env, d: nat)
    requires elseBody.Else? ==> AllNoHandlers(elseBody.body)
    ensures elseBody.Else? && HasReturnNext(elseBody.body) <==> Writes(ElseLines(elseBody, env, d), CodeEnsureSet)
    decreases elseBody, 0
  {
    if elseBody.Else? {
      HasReturnNextIff(elseBody.body, env, d + 1);
      WritesEither([Line(d, CodeElse)], ListLines(elseBody.body, env, d + 1), CodeEnsureSet);
    }
  }

  /** A RETURN NEXT in a handler is written, but not found: the function gets no result set to return. */
  lemma ReturnNextInHandlerIsMissed(body: seq<Stmt>, conditions: seq<string>, row: Option<string>, env: Env, d: nat)
    requires !HasReturnNext(body)
    ensures var stmts := [Block(body, Handlers([Handler(conditions, [ReturnNext(row)])]))];
            !HasReturnNext(stmts) && Writes(ListLines(stmts, env, d), CodeEnsureSet)
  {
    var handler := Handler(conditions, [ReturnNext(row)]);
    var stmts := [Block(body, Handlers([handler]))];
    assert stmts[1..] == [] && handler.action[1..] == [] && [handler][1..] == [];
    var action := Lines(ReturnNext(row), env, d + 2);
    assert action[0].code == CodeEnsureSet;
    assert ListLines(handler.action, env, d + 2) == action;
    var head := [Line(d + 1, HandlerHeader(handler, true))];
    var before := [Line(d, CodePcall)] + ListLines(body, env, d + 1) + FailureLines(d);
    assert HandlerLines([handler], env, d + 1, true) == head + action;
    WritesEither(head, action, CodeEnsureSet);
    WritesEither(before, head + action, CodeEnsureSet);
    WritesEither(before + (head + action), OutcomeLines([handler], d), CodeEnsureSet);
    assert ListLines(stmts, env, d) == Lines(stmts[0], env, d);
  }

  // ----- Only RETURN NEXT makes rows -----

  predicate SameRows(o: Outcome<PlState>, s: PlState) {
    match o
    case Normal(s1) => s1.rows == s.rows
    case Exited(s1) => s1.rows == s.rows
    case Returned(_, s1) => s1.rows == s.rows
    case _ => true
  }

  lemma {:induction false} StmtAddsNoRow(stmt: Stmt, datums: seq<Datum>, ev: Pl.PlEval, s: PlState, fuel: nat)
    requires !StmtReturnsNext(stmt)
    ensures SameRows(Pl.Exec(stmt, datums, ev, s, fuel), s)
    decreases fuel, stmt, 0
  {
    match stmt
    case Block(body, _) => AllAddNoRow(body, datums, ev, s, fuel);
    case If(_, thenBody, elsifs, elseBody) =>
      AllAddNoRow(thenBody, datums, ev, s, fuel);
      BranchesAddNoRow(elsifs, datums, ev, s, fuel);
      if elseBody.Else? {
        AllAddNoRow(elseBody.body, datums, ev, s, fuel);
      }
    case Loop(body) => WhileAddsNoRow(None, body, datums, ev, s, fuel);
    case While(cond, body) => WhileAddsNoRow(Some(cond), body, datums, ev, s, fuel);
    case ForI(name, lower, upper, reverse, body) =>
      var lo, hi := ev(lower, s.vars), ev(upper, s.vars);
      if lo.Int? && hi.Int? {
        ForAddsNoRow(Pl.DatumOf(datums, name), Pl.ForValues(lo.n, hi.n, reverse), body, datums, ev, s, fuel);
      }
    case Case(whens, elseBody) =>
      BranchesAddNoRow(whens, datums, ev, s, fuel);
      if elseBody.Else? {
        AllAddNoRow(elseBody.body, datums, ev, s, fuel);
      }
    case _ =>
  }

  /** Where RETURN NEXT is not found, no run adds a row to the result. */
  lemma {:induction false} AllAddNoRow(stmts: seq<Stmt>, datums: seq<Datum>, ev: Pl.PlEval, s: PlState, fuel: nat)
    requires !HasReturnNext(stmts)
    ensures SameRows(Pl.ExecList(stmts, datums, ev, s, fuel), s)
    decreases fuel, stmts, 0
  {
    if stmts != [] {
      StmtAddsNoRow(stmts[0], datums, ev, s, fuel);
      var first := Pl.Exec(stmts[0], datums, ev, s, fuel);
      if first.Normal? {
        AllAddNoRow(stmts[1..], datums, ev, first.state, fuel);
      }
    }
  }

  lemma {:induction false} BranchesAddNoRow(branches: seq<Branch>, datums: seq<Datum>, ev: Pl.PlEval, s: PlState,
                                            fuel: nat)
    requires !BranchesReturnNext(branches)
    ensures var o := Pl.ExecBranches(branches, datums, ev, s, fuel); o.Some? ==> SameRows(o.value, s)
    decreases fuel, branches, 0
  {
    if branches != [] {
      AllAddNoRow(branches[0].body, datums, ev, s, fuel);
      BranchesAddNoRow(branches[1..], datums, ev, s, fuel);
    }
  }

  lemma {:induction false} WhileAddsNoRow(cond: Option<string>, body: seq<Stmt>, datums: seq<Datum>, ev: Pl.PlEval,
                                          s: PlState, fuel: nat)
    requires !HasReturnNext(body)
    ensures SameRows(Pl.ExecWhile(cond, body, datums, ev, s, fuel), s)
    decreases fuel, body, 1
  {
    if !(cond.Some? && !Pl.IsTrue(ev(cond.value, s.vars))) && fuel > 0 {
      AllAddNoRow(body, datums, ev, s, fuel - 1);
      var round := Pl.ExecList(body, datums, ev, s, fuel - 1);
      if round.Normal? {
        WhileAddsNoRow(cond, body, datums, ev, round.state, fuel - 1);
      }
    }
  }

  lemma {:induction false} ForAddsNoRow(k: nat, values: seq<int>, body: seq<Stmt>, datums: seq<Datum>, ev: Pl.PlEval,
                                        s: PlState, fuel: nat)
    requires !HasReturnNext(body)
    ensures SameRows(Pl.ExecFor(k, values, body, datums, ev, s, fuel), s)
    decreases fuel, body, 1 + |values|
  {
    if values != [] && k < |s.vars| {
      var entered := s.(vars := s.vars[k := Int(values[0])]);
      AllAddNoRow(body, datums, ev, entered, fuel);
      var round := Pl.ExecList(body, datums, ev, entered, fuel);
      if round.Normal? {
        ForAddsNoRow(k, values[1..], body, datums, ev, round.state, fuel);
      }
    }
  }
}
