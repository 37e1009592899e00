/** When Luau, the Lua of the runtime (src/plpgsql/runtime.rs), accepts the generated chunk. Besides balanced blocks, it
    wants `return` and `break` to be the last statement of their block, and `break` to stand inside a loop of the same
    function. */
module LuaLoads {
  import opened Wrappers
  import opened PlpgsqlAst
  import opened LuaEmitter
  import opened LuaReader
  import opened LuaBalance

  // ----- Luau's rules -----

  predicate EndsBlock(tree: Lua) {
    tree.LuaBreak? || tree.LuaReturn?
  }

  predicate Compiles(tree: Lua, inLoop: bool)
    decreases tree, 0
  {
    match tree
    case LuaIf(first, rest, otherwise) =>
      CompilesAll(first.body, inLoop) && BranchesCompile(rest, inLoop)
      && (otherwise.LuaElse? ==> CompilesAll(otherwise.body, inLoop))
    case LuaWhile(_, body) => CompilesAll(body, true)
    case LuaFor(_, _, _, _, body) => CompilesAll(body, true)
    case LuaForIn(_, _, body) => CompilesAll(body, true)
    case LuaPcall(body) => CompilesAll(body, false)
    case LuaFunction(_, body) => CompilesAll(body, false)
    case LuaBreak => inLoop
    case LuaBreakIf(_) => inLoop
    case _ => true
  }

  predicate CompilesAll(trees: seq<Lua>, inLoop: bool)
    decreases trees, 0
  {
    trees != [] ==>
      Compiles(trees[0], inLoop) && (EndsBlock(trees[0]) ==> |trees| == 1) && CompilesAll(trees[1..], inLoop)
  }

  predicate BranchesCompile(branches: seq<LuaBranch>, inLoop: bool)
    decreases branches, 0
  {
    branches != [] ==> CompilesAll(branches[0].body, inLoop) && BranchesCompile(branches[1..], inLoop)
  }

  /** The chunk can be read and follows Luau's rules. */
  predicate Loads(lines: seq<Line>) {
    var chunk := ReadChunk(lines);
    chunk.Some? && CompilesAll(chunk.value, false)
  }

  // ----- The same conditions on the PL/pgSQL source -----

  /** Translated to nothing: RETURN without expression in a set-returning function, and blocks of such statements. */
  predicate Silent(stmt: Stmt, isSetof: bool)
    decreases stmt, 0
  {
    match stmt
    case Return(expr) => isSetof && expr.None?
    case Block(body, NoExceptions) => AllSilent(body, isSetof)
    case Simple(texts) => texts == []
    case _ => false
  }

  predicate AllSilent(stmts: seq<Stmt>, isSetof: bool)
    decreases stmts, 0
  {
    stmts != [] ==> Silent(stmts[0], isSetof) && AllSilent(stmts[1..], isSetof)
  }

  /** Nothing may follow: RETURN, EXIT without WHEN, or a plain block that ends in one. */
  predicate Stops(stmt: Stmt, isSetof: bool)
    decreases stmt, 0
  {
    match stmt
    case Return(_) => !isSetof
    case Exit(cond) => cond.None?
    case Block(body, NoExceptions) => LastStops(body, isSetof)
    case _ => false
  }

  predicate LastStops(stmts: seq<Stmt>, isSetof: bool)
    decreases stmts, 0
  {
    stmts != []
    && (LastStops(stmts[1..], isSetof) || (Stops(stmts[0], isSetof) && AllSilent(stmts[1..], isSetof)))
  }

  /** EXIT stands in a loop without an EXCEPTION section in between, and no statement follows RETURN or EXIT. */
  predicate Tidy(stmt: Stmt, isSetof: bool, inLoop: bool)
    decreases stmt, 0
  {
    match stmt
    case Block(body, NoExceptions) => AllTidy(body, isSetof, inLoop)
    case Block(body, Handlers(handlers)) => AllTidy(body, isSetof, false) && HandlersTidy(handlers, isSetof, inLoop)
    case If(_, thenBody, elsifs, elseBody) =>
      AllTidy(thenBody, isSetof, inLoop) && BranchesTidy(elsifs, isSetof, inLoop) && ElseTidy(elseBody, isSetof, inLoop)
    case Loop(body) => AllTidy(body, isSetof, true)
    case While(_, body) => AllTidy(body, isSetof, true)
    case ForI(_, _, _, _, body) => AllTidy(body, isSetof, true)
    case ForS(_, _, body) => AllTidy(body, isSetof, true)
    case Exit(_) => inLoop
    case Case(whens, elseBody) => BranchesTidy(whens, isSetof, inLoop) && ElseTidy(elseBody, isSetof, inLoop)
    case _ => true
  }

  predicate AllTidy(stmts: seq<Stmt>, isSetof: bool, inLoop: bool)
    decreases stmts, 0
  {
    stmts != [] ==>
      Tidy(stmts[0], isSetof, inLoop) && (Stops(stmts[0], isSetof) ==> AllSilent(stmts[1..], isSetof))
      && AllTidy(stmts[1..], isSetof, inLoop)
  }

  predicate BranchesTidy(branches: seq<Branch>, isSetof: bool, inLoop: bool)
    decreases branches, 0
  {
    branches != [] ==> AllTidy(branches[0].body, isSetof, inLoop) && BranchesTidy(branches[1..], isSetof, inLoop)
  }

  predicate HandlersTidy(handlers: seq<Handler>, isSetof: bool, inLoop: bool)
    decreases handlers, 0
  {
    handlers != [] ==> AllTidy(handlers[0].action, isSetof, inLoop) && HandlersTidy(handlers[1..], isSetof, inLoop)
  }

  predicate ElseTidy(elseBody: Else, isSetof: bool, inLoop: bool)
    decreases elseBody, 0
  {
    elseBody.Else? ==> AllTidy(elseBody.body, isSetof, inLoop)
  }

  // ----- Lists of trees -----

  predicate LastEndsBlock(trees: seq<Lua>) {
    trees != [] && EndsBlock(trees[|trees| - 1])
  }

  lemma {:induction false} CompilesAppend(a: seq<Lua>, b: seq<Lua>, inLoop: bool)
    ensures CompilesAll(a + b, inLoop)
       <==> CompilesAll(a, inLoop) && CompilesAll(b, inLoop) && (LastEndsBlock(a) ==> b == [])
  {
    if a == [] {
      assert a + b == b;
    } else {
      assert (a + b)[1..] == a[1..] + b && (a + b)[0] == a[0];
      CompilesAppend(a[1..], b, inLoop);
      if |a| == 1 {
        assert a[1..] == [];
      } else {
        assert LastEndsBlock(a) <==> LastEndsBlock(a[1..]);
      }
    }
  }

  lemma SingleCompiles(tree: Lua, inLoop: bool)
    ensures CompilesAll([tree], inLoop) <==> Compiles(tree, inLoop)
  {
  }

  lemma {:induction false} PlainTreesCompile(trees: seq<Lua>, inLoop: bool)
    requires forall t :: t in trees ==> t.LuaText? || t.LuaLocal? || t.LuaAssign? || t.LuaInsert? || t.LuaEnsureSet?
    ensures CompilesAll(trees, inLoop) && !LastEndsBlock(trees)
  {
    if trees != [] {
      assert trees[0] in trees && trees[|trees| - 1] in trees;
      assert CompilesAll(trees[1..], inLoop) by {
        PlainTreesCompile(trees[1..], inLoop);
      }
    }
  }

  lemma {:induction false} SilentHasNoTrees(stmt: Stmt, env: Env)
    requires ListsNonEmpty(stmt)
    ensures Trees(stmt, env) == [] <==> Silent(stmt, env.isSetof)
    decreases stmt, 0
  {
    if stmt.Block? && stmt.exceptions.NoExceptions? {
      AllSilentHaveNoTrees(stmt.body, env);
    }
  }

  lemma {:induction false} AllSilentHaveNoTrees(stmts: seq<Stmt>, env: Env)
    requires AllListsNonEmpty(stmts)
    ensures ListTrees(stmts, env) == [] <==> AllSilent(stmts, env.isSetof)
    decreases stmts, 0
  {
    if stmts != [] {
      SilentHasNoTrees(stmts[0], env);
      AllSilentHaveNoTrees(stmts[1..], env);
    }
  }

  lemma {:induction false} StopsEndsBlock(stmt: Stmt, env: Env)
    requires ListsNonEmpty(stmt)
    ensures LastEndsBlock(Trees(stmt, env)) <==> Stops(stmt, env.isSetof)
    decreases stmt, 0
  {
    if stmt.Block? && stmt.exceptions.NoExceptions? {
      LastStopsEndsBlock(stmt.body, env);
    }
  }

  lemma {:induction false} LastStopsEndsBlock(stmts: seq<Stmt>, env: Env)
    requires AllListsNonEmpty(stmts)
    ensures LastEndsBlock(ListTrees(stmts, env)) <==> LastStops(stmts, env.isSetof)
    decreases stmts, 0
  {
    if stmts != [] {
      StopsEndsBlock(stmts[0], env);
      LastStopsEndsBlock(stmts[1..], env);
      AllSilentHaveNoTrees(stmts[1..], env);
      AllSilentDoNotStop(stmts[1..], env.isSetof);
    }
  }

  lemma {:induction false} AllSilentDoNotStop(stmts: seq<Stmt>, isSetof: bool)
    ensures AllSilent(stmts, isSetof) ==> !LastStops(stmts, isSetof)
    decreases stmts
  {
    if stmts != [] {
      AllSilentDoNotStop(stmts[1..], isSetof);
      if stmts[0].Block? && stmts[0].exceptions.NoExceptions? {
        AllSilentDoNotStop(stmts[0].body, isSetof);
      }
      assert Silent(stmts[0], isSetof) ==> !Stops(stmts[0], isSetof);
    }
  }

  // ----- Both sets of conditions agree -----

  lemma {:induction false} CompilesIffTidy(stmt: Stmt, env: Env, inLoop: bool)
    requires ListsNonEmpty(stmt)
    ensures CompilesAll(Trees(stmt, env), inLoop) <==> Tidy(stmt, env.isSetof, inLoop)
    decreases stmt, 1
  {
    match stmt
    case Block(body, NoExceptions) => ListCompilesIffTidy(body, env, inLoop);
    case Block(body, Handlers(handlers)) => ProtectedBlockCompilesIffTidy(stmt, env, inLoop);
    case If(_, thenBody, elsifs, elseBody) =>
      ListCompilesIffTidy(thenBody, env, inLoop);
      BranchesCompileIffTidy(elsifs, env, inLoop);
      ElseCompilesIffTidy(elseBody, env, inLoop);
    case Loop(_) => LoopCompilesIffTidy(stmt, env, inLoop);
    case While(_, _) => LoopCompilesIffTidy(stmt, env, inLoop);
    case ForI(_, _, _, _, _) => LoopCompilesIffTidy(stmt, env, inLoop);
    case ForS(_, _, _) => LoopCompilesIffTidy(stmt, env, inLoop);
    case Case(whens, elseBody) =>
      BranchesCompileIffTidy(whens, env, inLoop);
      ElseCompilesIffTidy(elseBody, env, inLoop);
    case Simple(_) => PlainTreesCompile(Trees(stmt, env), inLoop);
    case ReturnNext(_) => PlainTreesCompile(Trees(stmt, env), inLoop);
    case _ =>
  }

  lemma {:induction false} LoopCompilesIffTidy(stmt: Stmt, env: Env, inLoop: bool)
    requires (stmt.Loop? || stmt.While? || stmt.ForI? || stmt.ForS?) && AllListsNonEmpty(stmt.body)
    ensures CompilesAll(Trees(stmt, env), inLoop) <==> Tidy(stmt, env.isSetof, inLoop)
    decreases stmt, 0
  {
    ListCompilesIffTidy(stmt.body, env, true);
    if stmt.ForI? {
      CompilesAppend([LuaAssign("_loop_var", stmt.varname)], ListTrees(stmt.body, env), true);
    }
  }

  lemma {:induction false} ListCompilesIffTidy(stmts: seq<Stmt>, env: Env, inLoop: bool)
    requires AllListsNonEmpty(stmts)
    ensures CompilesAll(ListTrees(stmts, env), inLoop) <==> AllTidy(stmts, env.isSetof, inLoop)
    decreases stmts, 0
  {
    if stmts != [] {
      CompilesIffTidy(stmts[0], env, inLoop);
      ListCompilesIffTidy(stmts[1..], env, inLoop);
      StopsEndsBlock(stmts[0], env);
      AllSilentHaveNoTrees(stmts[1..], env);
      CompilesAppend(Trees(stmts[0], env), ListTrees(stmts[1..], env), inLoop);
    }
  }

  lemma {:induction false} BranchesCompileIffTidy(branches: seq<Branch>, env: Env, inLoop: bool)
    requires BranchListsNonEmpty(branches)
    ensures BranchesCompile(BranchTrees(branches, env), inLoop) <==> BranchesTidy(branches, env.isSetof, inLoop)
    decreases branches, 0
  {
    if branches != [] {
      ListCompilesIffTidy(branches[0].body, env, inLoop);
      BranchesCompileIffTidy(branches[1..], env, inLoop);
    }
  }

  lemma {:induction false} HandlersCompileIffTidy(handlers: seq<Handler>, env: Env, inLoop: bool)
    requires HandlerListsNonEmpty(handlers)
    ensures BranchesCompile(HandlerTrees(handlers, env), inLoop) <==> HandlersTidy(handlers, env.isSetof, inLoop)
    decreases handlers, 0
  {
    if handlers != [] {
      ListCompilesIffTidy(handlers[0].action, env, inLoop);
      HandlersCompileIffTidy(handlers[1..], env, inLoop);
    }
  }

  lemma {:induction false} ElseCompilesIffTidy(elseBody: Else, env: Env, inLoop: bool)
    requires elseBody.Else? ==> AllListsNonEmpty(elseBody.body)
    ensures (ElseTree(elseBody, env).LuaElse? ==> CompilesAll(ElseTree(elseBody, env).body, inLoop))
       <==> ElseTidy(elseBody, env.isSetof, inLoop)
    decreases elseBody, 0
  {
    if elseBody.Else? {
      ListCompilesIffTidy(elseBody.body, env, inLoop);
    }
  }

  lemma {:induction false} ProtectedBlockCompilesIffTidy(stmt: Stmt, env: Env, inLoop: bool)
    requires stmt.Block? && stmt.exceptions.Handlers? && ListsNonEmpty(stmt)
    ensures CompilesAll(Trees(stmt, env), inLoop) <==> Tidy(stmt, env.isSetof, inLoop)
    decreases stmt, 0
  {
    var handlers := stmt.exceptions.list;
    ListCompilesIffTidy(stmt.body, env, false);
    ListCompilesIffTidy(handlers[0].action, env, inLoop);
    HandlersCompileIffTidy(handlers[1..], env, inLoop);
    var chain := LuaIf(HandlerTree(handlers[0], env), HandlerTrees(handlers[1..], env), Rethrow(handlers));
    var call := LuaPcall(ListTrees(stmt.body, env));
    var test := LuaIf(LuaBranch("not _ok", ERROR_TREES + [chain]), [], LuaElse([LuaReturn(Some("_result_or_err"))]));
    RethrowCompiles(handlers, inLoop);
    OutcomeTestCompiles(chain, inLoop);
    CompilesAppend([call], [test], inLoop);
    SingleCompiles(call, inLoop);
    assert Trees(stmt, env) == [call] + [test];
  }

  lemma RethrowCompiles(handlers: seq<Handler>, inLoop: bool)
    ensures Rethrow(handlers).LuaElse? ==> CompilesAll(Rethrow(handlers).body, inLoop)
  {
    SingleCompiles(LuaText("error(_err)"), inLoop);
  }

  lemma OutcomeTestCompiles(chain: Lua, inLoop: bool)
    requires chain.LuaIf?
    ensures CompilesAll([LuaIf(LuaBranch("not _ok", ERROR_TREES + [chain]), [],
                               LuaElse([LuaReturn(Some("_result_or_err"))]))], inLoop)
       <==> Compiles(chain, inLoop)
  {
    PlainTreesCompile(ERROR_TREES, inLoop);
    CompilesAppend(ERROR_TREES, [chain], inLoop);
    SingleCompiles(chain, inLoop);
    SingleCompiles(LuaReturn(Some("_result_or_err")), inLoop);
    SingleCompiles(LuaIf(LuaBranch("not _ok", ERROR_TREES + [chain]), [],
                         LuaElse([LuaReturn(Some("_result_or_err"))])), inLoop);
  }

  // ----- Whole functions -----

  /** In a set-returning function a statement list outside loops never ends in RETURN or EXIT. */
  lemma {:induction false} SetofBodyDoesNotStop(stmts: seq<Stmt>)
    ensures AllTidy(stmts, true, false) ==> !LastStops(stmts, true)
    decreases stmts
  {
    if stmts != [] {
      SetofBodyDoesNotStop(stmts[1..]);
      if stmts[0].Block? && stmts[0].exceptions.NoExceptions? {
        SetofBodyDoesNotStop(stmts[0].body);
      }
      assert Tidy(stmts[0], true, false) ==> !Stops(stmts[0], true);
    }
  }

  /** Luau accepts the translation of a function exactly when no CASE or EXCEPTION section is empty, every EXIT
      belongs to a loop in the same protected block, and no statement follows RETURN or EXIT. */
  lemma {:induction false} LoadsIffTidy(f: Function, env: Env)
    ensures Loads(FunctionLines(f, env)) <==> AllListsNonEmpty(f.body) && AllTidy(f.body, env.isSetof, false)
  {
    ReadableIffListsNonEmpty(f, env);
    if AllListsNonEmpty(f.body) {
      ReadFunction(f, env);
      BodyCompilesIffTidy(f, env);
      WrapperCompiles(LuaText("-- Generated from PL/pgSQL"), LuaFunction(FunctionName(f), BodyTrees(f, env)),
                      LuaReturn(Some(FunctionName(f))));
    }
  }

  lemma WrapperCompiles(comment: Lua, function_: Lua, last: Lua)
    requires comment.LuaText? && function_.LuaFunction? && last.LuaReturn?
    ensures CompilesAll([comment, function_, last], false) <==> CompilesAll(function_.body, false)
  {
    assert [comment, function_, last] == [comment] + ([function_] + [last]);
    CompilesAppend([comment], [function_] + [last], false);
    CompilesAppend([function_], [last], false);
    SingleCompiles(comment, false);
    SingleCompiles(function_, false);
    SingleCompiles(last, false);
    assert !LastEndsBlock([comment]) && !LastEndsBlock([function_]);
  }

  lemma {:induction false} BodyCompilesIffTidy(f: Function, env: Env)
    requires AllListsNonEmpty(f.body)
    ensures CompilesAll(BodyTrees(f, env), false) <==> AllTidy(f.body, env.isSetof, false)
  {
    PrologueIsLeaves(env);
    EpilogueIsLeaves(env);
    var pro, body, epi := LeafTrees(PrologueLines(env)), ListTrees(f.body, env), LeafTrees(EpilogueLines(env));
    PrologueIsPlain(env);
    PlainTreesCompile(pro, false);
    EpilogueCompiles(env);
    CompilesAppend(pro, body, false);
    CompilesAppend(pro + body, epi, false);
    ListCompilesIffTidy(f.body, env, false);
    LastStopsEndsBlock(f.body, env);
    if env.isSetof {
      SetofBodyDoesNotStop(f.body);
    }
  }

  lemma EpilogueCompiles(env: Env)
    requires AllLeaves(EpilogueLines(env))
    ensures CompilesAll(LeafTrees(EpilogueLines(env)), false)
    ensures LeafTrees(EpilogueLines(env)) == [] <==> !env.isSetof
  {
  }

  predicate Plain(line: Line) {
    line.code.CodeText? || line.code.CodeLocal?
  }

  predicate AllPlain(lines: seq<Line>) {
    forall line :: line in lines ==> Plain(line)
  }

  lemma PlainTrees(lines: seq<Line>)
    requires AllLeaves(lines) && AllPlain(lines)
    ensures forall t :: t in LeafTrees(lines) ==> t.LuaText? || t.LuaLocal?
  {
    forall t | t in LeafTrees(lines)
      ensures t.LuaText? || t.LuaLocal?
    {
      var i :| 0 <= i < |lines| && t == LeafTrees(lines)[i];
      assert lines[i] in lines;
    }
  }

  lemma PrologueIsPlain(env: Env)
    requires AllLeaves(PrologueLines(env))
    ensures forall t :: t in LeafTrees(PrologueLines(env)) ==> t.LuaText? || t.LuaLocal?
  {
    ParamLinesArePlain(env.datums, 0, ParamCount(env.datums));
    LocalLinesArePlain(env, ParamCount(env.datums));
    assert AllPlain(ParameterPart(env)) && AllPlain(DeclarationPart(env));
    assert AllPlain(PrologueLines(env));
    PlainTrees(PrologueLines(env));
  }

  lemma {:induction false} ParamLinesArePlain(datums: seq<Datum>, i: nat, count: nat)
    requires i <= count <= |datums|
    ensures forall line :: line in ParamLines(datums, i, count) ==> Plain(line)
    decreases count - i
  {
    if i < count {
      ParamLinesArePlain(datums, i + 1, count);
    }
  }

  lemma {:induction false} LocalLinesArePlain(env: Env, i: nat)
    requires i <= |env.datums|
    ensures forall line :: line in LocalLines(env, i) ==> Plain(line)
    decreases |env.datums| - i
  {
    if i < |env.datums| {
      LocalLinesArePlain(env, i + 1);
    }
  }
}
