/** From the emitted lines to their effect: the chunk is read back, and what was read is run. */
module CompiledText {
  import opened Wrappers
  import opened PlpgsqlAst
  import opened Execution
  import opened LuaEmitter
  import opened LuaReader
  import opened TranslationCorrect
  import opened FunctionEntry
  import opened ResultSets
  import opened Sequences
  import LuaLoads
  import LuaText
  import Pl = PlpgsqlSemantics
  import L = LuaSemantics

  /** Calls the function that a chunk defines and returns. */
  function RunChunk(lines: seq<Line>, lua: L.LuaEval, globals: map<string, Value>, fuel: nat): CallResult {
    var chunk := ReadChunk(lines);
    if chunk.None? || |chunk.value| != 3 || !chunk.value[1].LuaFunction?
       || chunk.value[2] != LuaReturn(Some(chunk.value[1].name)) then Error
    else Handed(L.ExecAll(chunk.value[1].body, lua, Start(globals), fuel))
  }

  // ----- Supported functions are readable -----

  lemma {:induction false} SupportedIsReadable(stmt: Stmt, c: Setting)
    requires Supported(stmt, c)
    ensures ListsNonEmpty(stmt)
    decreases stmt, 0
  {
    match stmt
    case Block(body, _) => AllSupportedIsReadable(body, c);
    case If(_, thenBody, elsifs, elseBody) =>
      AllSupportedIsReadable(thenBody, c);
      BranchesSupportedIsReadable(elsifs, c);
      if elseBody.Else? {
        AllSupportedIsReadable(elseBody.body, c);
      }
    case Loop(body) => AllSupportedIsReadable(body, c);
    case While(_, body) => AllSupportedIsReadable(body, c);
    case ForI(_, _, _, _, body) => AllSupportedIsReadable(body, c);
    case Case(whens, elseBody) =>
      BranchesSupportedIsReadable(whens, c);
      AllSupportedIsReadable(elseBody.body, c);
    case _ =>
  }

  lemma {:induction false} AllSupportedIsReadable(stmts: seq<Stmt>, c: Setting)
    requires AllSupported(stmts, c)
    ensures AllListsNonEmpty(stmts)
    decreases stmts, 0
  {
    if stmts != [] {
      SupportedIsReadable(stmts[0], c);
      AllSupportedIsReadable(stmts[1..], c);
    }
  }

  lemma {:induction false} BranchesSupportedIsReadable(branches: seq<Branch>, c: Setting)
    requires BranchesSupported(branches, c)
    ensures BranchListsNonEmpty(branches)
    decreases branches, 0
  {
    if branches != [] {
      AllSupportedIsReadable(branches[0].body, c);
      BranchesSupportedIsReadable(branches[1..], c);
    }
  }

  lemma {:induction false} ReadableWithReturn(stmts: seq<Stmt>)
    requires stmts != [] && stmts[|stmts| - 1] == Return(None) && AllListsNonEmpty(stmts[..|stmts| - 1])
    ensures AllListsNonEmpty(stmts)
    decreases |stmts|
  {
    if |stmts| > 1 {
      assert stmts[..|stmts| - 1][1..] == stmts[1..][..|stmts| - 2];
      ReadableWithReturn(stmts[1..]);
    }
  }

  lemma SupportedBodyIsReadable(f: Function, c: Setting)
    requires SupportedBody(f.body, c)
    ensures AllListsNonEmpty(f.body)
  {
    if AllSupported(f.body, c) {
      AllSupportedIsReadable(f.body, c);
    } else {
      AllSupportedIsReadable(f.body[..|f.body| - 1], c);
      ReadableWithReturn(f.body);
    }
  }

  // ----- Running what was read -----

  /** A call of a readable function whose prologue succeeds is a run of body and epilogue behind it. */
  lemma ChunkRuns(f: Function, c: Setting, globals: map<string, Value>, fuel: nat)
    requires AllListsNonEmpty(f.body) && AllLeaves(PrologueLines(c.env))
    requires L.ExecAll(LeafTrees(PrologueLines(c.env)), c.lua, Start(globals), fuel).Normal?
    ensures RunChunk(FunctionLines(f, c.env), c.lua, globals, fuel)
         == LuaCall(f, c, L.ExecAll(LeafTrees(PrologueLines(c.env)), c.lua, Start(globals), fuel).state, fuel)
  {
    EpilogueIsLeaves(c.env);
    var prologue, body, epilogue :=
      LeafTrees(PrologueLines(c.env)), ListTrees(f.body, c.env), LeafTrees(EpilogueLines(c.env));
    ReadFunction(f, c.env);
    Assoc(prologue, body, epilogue);
    L.ExecAppend(prologue, body + epilogue, c.lua, Start(globals), fuel);
  }

  /** For any emitting environment: the text called with any arguments comes to what the PL/pgSQL function comes to
      exactly if that does not end amiss. */
  lemma {:induction false} ChunkCorrect(f: Function, kind: Kind, c: Setting, args: seq<Value>,
                                        globals: map<string, Value>, fuel: nat)
    requires SupportedBody(f.body, c) && NamesDistinct(c.env.datums) && DefaultsKnown(c) && CalledWith(c, args)
    requires TextsAgree(c) && FoundIsNotRead(c) && Unshadowed(c, globals) && (c.env.isSetof ==> kind.ReturnsSet?)
    ensures var entry := Pl.Entry(c.env.datums, args, c.pl);
            RunChunk(FunctionLines(f, c.env), c.lua, globals, fuel)
              == Delivered(PlCall(f, kind, c, entry, fuel))
            <==> !EndsAmiss(kind, c.env.isSetof, Pl.ExecList(f.body, c.env.datums, c.pl, entry, fuel))
  {
    ExprsAgreeIff(c);
    SupportedBodyIsReadable(f, c);
    PrologueRuns(c, args, globals, fuel);
    ChunkRuns(f, c, globals, fuel);
    FunctionCorrect(f, kind, c, Pl.Entry(c.env.datums, args, c.pl),
                    L.ExecAll(LeafTrees(PrologueLines(c.env)), c.lua, Start(globals), fuel).state, fuel);
  }

  /** The body has a line that makes sure of a result set, as RETURN NEXT puts one in front of its row. */
  predicate CollectsRows(f: Function, env: Env) {
    Writes(ListLines(f.body, env, 1), CodeEnsureSet)
  }

  lemma {:induction false} SupportedHasNoHandlers(stmt: Stmt, c: Setting)
    requires Supported(stmt, c)
    ensures NoHandlers(stmt)
    decreases stmt, 0
  {
    match stmt
    case Block(body, _) => AllSupportedHaveNoHandlers(body, c);
    case If(_, thenBody, elsifs, elseBody) =>
      AllSupportedHaveNoHandlers(thenBody, c);
      BranchesSupportedHaveNoHandlers(elsifs, c);
      if elseBody.Else? {
        AllSupportedHaveNoHandlers(elseBody.body, c);
      }
    case Loop(body) => AllSupportedHaveNoHandlers(body, c);
    case While(_, body) => AllSupportedHaveNoHandlers(body, c);
    case ForI(_, _, _, _, body) => AllSupportedHaveNoHandlers(body, c);
    case Case(whens, elseBody) =>
      BranchesSupportedHaveNoHandlers(whens, c);
      AllSupportedHaveNoHandlers(elseBody.body, c);
    case _ =>
  }

  lemma {:induction false} AllSupportedHaveNoHandlers(stmts: seq<Stmt>, c: Setting)
    requires AllSupported(stmts, c)
    ensures AllNoHandlers(stmts)
    decreases stmts, 0
  {
    if stmts != [] {
      SupportedHasNoHandlers(stmts[0], c);
      AllSupportedHaveNoHandlers(stmts[1..], c);
    }
  }

  lemma {:induction false} BranchesSupportedHaveNoHandlers(branches: seq<Branch>, c: Setting)
    requires BranchesSupported(branches, c)
    ensures BranchesNoHandlers(branches)
    decreases branches, 0
  {
    if branches != [] {
      AllSupportedHaveNoHandlers(branches[0].body, c);
      BranchesSupportedHaveNoHandlers(branches[1..], c);
    }
  }

  lemma {:induction false} AllNoHandlersAppend(stmts: seq<Stmt>, last: Stmt)
    requires AllNoHandlers(stmts) && NoHandlers(last)
    ensures AllNoHandlers(stmts + [last])
    decreases |stmts|
  {
    if stmts != [] {
      AllNoHandlersAppend(stmts[1..], last);
      assert (stmts + [last])[1..] == stmts[1..] + [last];
    }
  }

  /** The translator looks for RETURN NEXT, and finds it exactly where it writes it. */
  lemma ResultSetIff(f: Function, c: Setting)
    requires SupportedBody(f.body, c)
    ensures HasReturnNext(f.body) <==> CollectsRows(f, c.env)
  {
    if AllSupported(f.body, c) {
      AllSupportedHaveNoHandlers(f.body, c);
    } else {
      var init := f.body[..|f.body| - 1];
      AllSupportedHaveNoHandlers(init, c);
      AllNoHandlersAppend(init, Return(None));
      assert init + [Return(None)] == f.body;
    }
    HasReturnNextIff(f.body, c.env, 1);
  }

  /** The same for the environment that the translator uses. */
  lemma {:induction false} CompiledLinesCorrect(f: Function, kind: Kind, c: Setting, args: seq<Value>,
                                                globals: map<string, Value>, fuel: nat)
    requires c.env == FunctionEnv(f, c.env.condition, c.env.rhs)
    requires SupportedBody(f.body, c) && NamesDistinct(f.datums) && DefaultsKnown(c) && CalledWith(c, args)
    requires TextsAgree(c) && FoundIsNotRead(c) && Unshadowed(c, globals)
    requires CollectsRows(f, c.env) ==> kind.ReturnsSet?
    ensures var entry := Pl.Entry(f.datums, args, c.pl);
            RunChunk(FunctionLines(f, c.env), c.lua, globals, fuel)
              == Delivered(PlCall(f, kind, c, entry, fuel))
            <==> !EndsAmiss(kind, CollectsRows(f, c.env), Pl.ExecList(f.body, f.datums, c.pl, entry, fuel))
  {
    ResultSetIff(f, c);
    ChunkCorrect(f, kind, c, args, globals, fuel);
  }

  /** Calls the function that a text defines. */
  function RunText(text: string, lua: L.LuaEval, globals: map<string, Value>, fuel: nat): CallResult {
    RunChunk(LuaText.ParseLines(text), lua, globals, fuel)
  }

  /** The end-to-end statement: the text that the translator returns, read character by character and called with any
      arguments, comes to what the PL/pgSQL function comes to exactly if that does not end amiss. */
  lemma {:induction false} CompiledTextCorrect(f: Function, kind: Kind, c: Setting, text: string, args: seq<Value>,
                                               globals: map<string, Value>, fuel: nat)
    requires text == Render(FunctionLines(f, FunctionEnv(f, c.env.condition, c.env.rhs)))
    requires c.env == FunctionEnv(f, c.env.condition, c.env.rhs)
    requires forall line :: line in FunctionLines(f, c.env) ==> LuaText.Printable(line.code)
    requires SupportedBody(f.body, c) && NamesDistinct(f.datums) && DefaultsKnown(c) && CalledWith(c, args)
    requires TextsAgree(c) && FoundIsNotRead(c) && Unshadowed(c, globals)
    requires CollectsRows(f, c.env) ==> kind.ReturnsSet?
    ensures var entry := Pl.Entry(f.datums, args, c.pl);
            RunText(text, c.lua, globals, fuel) == Delivered(PlCall(f, kind, c, entry, fuel))
            <==> !EndsAmiss(kind, CollectsRows(f, c.env), Pl.ExecList(f.body, f.datums, c.pl, entry, fuel))
  {
    LuaText.TextReadsBack(FunctionLines(f, c.env));
    CompiledLinesCorrect(f, kind, c, args, globals, fuel);
  }

  /** And Lua accepts the text to begin with, if every EXIT belongs to a loop and nothing follows RETURN or EXIT. */
  lemma SupportedTextLoads(f: Function, c: Setting)
    requires SupportedBody(f.body, c)
    ensures LuaLoads.Loads(FunctionLines(f, c.env)) <==> LuaLoads.AllTidy(f.body, c.env.isSetof, false)
  {
    SupportedBodyIsReadable(f, c);
    LuaLoads.LoadsIffTidy(f, c.env);
  }
}
