/** Where the generated Lua departs from PL/pgSQL, with the exact condition under which it does not. */
module TranslationLimits {
  import opened Wrappers
  import opened PlpgsqlAst
  import opened Execution
  import opened LuaEmitter
  import opened LuaReader
  import opened TranslationCorrect
  import Pl = PlpgsqlSemantics
  import L = LuaSemantics
  import opened CompiledText
  import opened FunctionEntry

  // ----- FOR ... REVERSE -----

  ghost predicate StmtAgrees(stmt: Stmt, c: Setting, s: PlState, t: LuaState, fuel: nat) {
    SameOutcome(c, Pl.Exec(stmt, c.env.datums, c.pl, s, fuel), L.ExecAll(Trees(stmt, c.env), c.lua, t, fuel))
  }

  /** The emitted header swaps the bounds of a REVERSE loop. With two integers as bounds, the loop therefore does the
      same for every body only when it runs forward or the bounds are equal. */
  lemma {:induction false} CountedLoopAgreesIff(name: string, lower: string, upper: string, reverse: bool, c: Setting,
                                                s: PlState, t: LuaState, fuel: nat)
    requires lower in c.exprs && upper in c.exprs && Pl.DatumOf(c.env.datums, name) < |c.env.datums|
    requires ExprsAgree(c) && NamesDistinct(c.env.datums) && Matches(c, s, t)
    ensures var lo, hi := c.pl(lower, s.vars), c.pl(upper, s.vars);
            (forall body :: AllSupported(body, c) ==>
               StmtAgrees(ForI(name, lower, upper, reverse, body), c, s, t, fuel))
            <==> !(lo.Int? && hi.Int?) || !reverse || lo == hi
  {
    var lo, hi := c.pl(lower, s.vars), c.pl(upper, s.vars);
    if !(lo.Int? && hi.Int?) || !reverse || lo == hi {
      forall body | AllSupported(body, c)
        ensures StmtAgrees(ForI(name, lower, upper, reverse, body), c, s, t, fuel)
      {
        var stmt := ForI(name, lower, upper, reverse, body);
        L.ExecSingle(Trees(stmt, c.env)[0], c.lua, t, fuel);
        if lo.Int? && hi.Int? {
          LoopCorrect(name, Pl.ForValues(lo.n, hi.n, reverse), body, c, s, t, fuel);
        }
      }
    } else {
      SwappedBoundsShow(name, lower, upper, c, s, t, fuel);
    }
  }

  /** An endless body tells a loop that runs from one that does not. */
  const ENDLESS: seq<Stmt> := [Loop([])]

  lemma SwappedInPl(name: string, lower: string, upper: string, c: Setting, s: PlState, fuel: nat)
    requires Pl.DatumOf(c.env.datums, name) < |c.env.datums| == |s.vars|
    requires c.pl(lower, s.vars).Int? && c.pl(upper, s.vars).Int?
    ensures var o := Pl.Exec(ForI(name, lower, upper, true, ENDLESS), c.env.datums, c.pl, s, fuel);
            if c.pl(lower, s.vars).n < c.pl(upper, s.vars).n then o.Normal? else o == OutOfFuel
  {
    var k, lo, hi := Pl.DatumOf(c.env.datums, name), c.pl(lower, s.vars).n, c.pl(upper, s.vars).n;
    assert |Descending(lo, hi)| == 0 <==> lo < hi;
    EndlessLoop(name, k, Descending(lo, hi), c, s, fuel);
  }

  lemma SwappedInLua(name: string, lower: string, upper: string, c: Setting, t: LuaState, fuel: nat)
    requires var lo, hi := c.lua(c.env.condition(lower), t.vars), c.lua(c.env.condition(upper), t.vars);
             lo.Int? && hi.Int?
    requires ExprsAgree(c)
    ensures var p := L.ExecAll(Trees(ForI(name, lower, upper, true, ENDLESS), c.env), c.lua, t, fuel);
            if c.lua(c.env.condition(upper), t.vars).n < c.lua(c.env.condition(lower), t.vars).n then p.Normal?
            else p == OutOfFuel
  {
    var lo, hi := c.lua(c.env.condition(lower), t.vars).n, c.lua(c.env.condition(upper), t.vars).n;
    L.ExecSingle(Trees(ForI(name, lower, upper, true, ENDLESS), c.env)[0], c.lua, t, fuel);
    assert |Descending(hi, lo)| == 0 <==> hi < lo;
    EndlessLuaLoop(name, Descending(hi, lo), c, t, fuel);
  }

  lemma SwappedBoundsShow(name: string, lower: string, upper: string, c: Setting, s: PlState, t: LuaState, fuel: nat)
    requires lower in c.exprs && upper in c.exprs && Pl.DatumOf(c.env.datums, name) < |c.env.datums|
    requires ExprsAgree(c) && NamesDistinct(c.env.datums) && Matches(c, s, t)
    requires var lo, hi := c.pl(lower, s.vars), c.pl(upper, s.vars); lo.Int? && hi.Int? && lo != hi
    ensures AllSupported(ENDLESS, c) && !StmtAgrees(ForI(name, lower, upper, true, ENDLESS), c, s, t, fuel)
  {
    SwappedInPl(name, lower, upper, c, s, fuel);
    SwappedInLua(name, lower, upper, c, t, fuel);
  }

  lemma EndlessLoop(name: string, k: nat, values: seq<int>, c: Setting, s: PlState, fuel: nat)
    requires k < |s.vars| && |s.vars| == |c.env.datums|
    ensures Pl.ExecFor(k, values, ENDLESS, c.env.datums, c.pl, s, fuel) == if values == [] then Normal(s) else OutOfFuel
  {
    if values != [] {
      var s1 := s.(vars := s.vars[k := Int(values[0])]);
      NeverEnds(c, s1, fuel);
      assert Pl.Exec(ENDLESS[0], c.env.datums, c.pl, s1, fuel) == OutOfFuel;
    }
  }

  lemma {:induction false} NeverEnds(c: Setting, s: PlState, fuel: nat)
    ensures Pl.ExecWhile(None, [], c.env.datums, c.pl, s, fuel) == OutOfFuel
  {
    if fuel > 0 {
      NeverEnds(c, s, fuel - 1);
    }
  }

  lemma EndlessLuaLoop(name: string, values: seq<int>, c: Setting, t: LuaState, fuel: nat)
    requires ExprsAgree(c)
    ensures L.ExecFor(name, values, [LuaAssign("_loop_var", name)] + ListTrees(ENDLESS, c.env), c.lua, t, fuel)
         == if values == [] then Normal(t) else OutOfFuel
  {
    if values != [] {
      var setter := LuaAssign("_loop_var", name);
      var t1 := t.(vars := t.vars[name := Int(values[0])]);
      var t2 := L.Exec(setter, c.lua, t1, fuel).state;
      assert ListTrees(ENDLESS, c.env) == [LuaWhile("true", [])];
      PairRuns(setter, LuaWhile("true", []), c.lua, t1, t2, fuel);
      LuaNeverEnds(c, t2, fuel);
      assert [setter] + ListTrees(ENDLESS, c.env) == [setter, LuaWhile("true", [])];
    }
  }

  lemma {:induction false} LuaNeverEnds(c: Setting, t: LuaState, fuel: nat)
    requires ExprsAgree(c)
    ensures L.ExecWhile("true", [], c.lua, t, fuel) == OutOfFuel
  {
    if fuel > 0 {
      LuaNeverEnds(c, t, fuel - 1);
    }
  }

  // ----- FOUND -----

  ghost predicate ListAgrees(stmts: seq<Stmt>, c: Setting, s: PlState, t: LuaState, fuel: nat) {
    SameOutcome(c, Pl.ExecList(stmts, c.env.datums, c.pl, s, fuel), L.ExecAll(ListTrees(stmts, c.env), c.lua, t, fuel))
  }

  ghost predicate AlwaysAgrees(c: Setting) {
    forall stmts, s, t, fuel: nat :: AllSupported(stmts, c) && Matches(c, s, t) ==> ListAgrees(stmts, c, s, t, fuel)
  }

  /** The supported statements agree from all matching states exactly if no expression depends on FOUND. */
  lemma {:induction false} AgreementIffFoundIsNotRead(c: Setting)
    requires TextsAgree(c) && NamesDistinct(c.env.datums)
    ensures AlwaysAgrees(c) <==> FoundIsNotRead(c)
  {
    if AlwaysAgrees(c) {
      forall q, vars, v | q in c.exprs && |vars| == |c.env.datums|
        ensures c.pl(q, WithFound(c.env.datums, vars, v)) == c.pl(q, vars)
      {
        FoundShows(q, vars, v, c);
      }
    }
    if FoundIsNotRead(c) {
      ExprsAgreeIff(c);
      forall stmts, s, t, fuel: nat | AllSupported(stmts, c) && Matches(c, s, t)
        ensures ListAgrees(stmts, c, s, t, fuel)
      {
        ListCorrect(stmts, c, s, t, fuel);
      }
    }
  }

  /** RETURN NEXT makes the value of an expression visible. */
  lemma FoundShows(q: string, vars: seq<Value>, v: Value, c: Setting)
    requires AlwaysAgrees(c) && NamesDistinct(c.env.datums) && q in c.exprs && |vars| == |c.env.datums|
    ensures c.pl(q, WithFound(c.env.datums, vars, v)) == c.pl(q, vars)
  {
    var t := LuaState.LuaState(LuaVars(c.env.datums, vars), Some([]), L.Unmarked);
    RowShows(q, vars, c, t);
    RowShows(q, WithFound(c.env.datums, vars, v), c, t);
  }

  lemma RowShows(q: string, vars: seq<Value>, c: Setting, t: LuaState)
    requires AlwaysAgrees(c) && q in c.exprs && VarsMatch(c.env.datums, vars, t.vars)
    requires t.rows == Some([]) && t.table.Unmarked?
    ensures var p := L.ExecAll(ListTrees([ReturnNext(Some(q))], c.env), c.lua, t, 0);
            p.Normal? && RowsOf(p.state.rows) == if c.pl(q, vars) == Null then [] else [c.pl(q, vars)]
  {
    var s, stmts := PlState.PlState(vars, []), [ReturnNext(Some(q))];
    OneRow(q, c, s);
    OneSupported(ReturnNext(Some(q)), c);
    assert Matches(c, s, t);
    Agrees(stmts, c, s, t, 0);
    SameRows(c, Pl.ExecList(stmts, c.env.datums, c.pl, s, 0), L.ExecAll(ListTrees(stmts, c.env), c.lua, t, 0));
  }

  lemma Agrees(stmts: seq<Stmt>, c: Setting, s: PlState, t: LuaState, fuel: nat)
    requires AlwaysAgrees(c) && AllSupported(stmts, c) && Matches(c, s, t)
    ensures ListAgrees(stmts, c, s, t, fuel)
  {
  }

  lemma SameRows(c: Setting, o: Outcome<PlState>, p: Outcome<LuaState>)
    requires SameOutcome(c, o, p) && o.Normal?
    ensures p.Normal? && RowsOf(p.state.rows) == NonNull(o.state.rows)
  {
  }

  lemma OneSupported(stmt: Stmt, c: Setting)
    requires Supported(stmt, c)
    ensures AllSupported([stmt], c)
  {
    assert [stmt][1..] == [];
  }

  lemma OneRow(q: string, c: Setting, s: PlState)
    requires s.rows == []
    ensures var o := Pl.ExecList([ReturnNext(Some(q))], c.env.datums, c.pl, s, 0);
            o.Normal? && NonNull(o.state.rows) == if c.pl(q, s.vars) == Null then [] else [c.pl(q, s.vars)]
  {
    NonNullAppend([], c.pl(q, s.vars));
  }

  /** `FOR i IN lower..upper LOOP END LOOP; RETURN found;` */
  function LoopThenFound(lower: string, upper: string, datums: seq<Datum>): Function {
    Function.Function(None, datums, [ForI("i", lower, upper, false, []), Return(Some("found"))])
  }

  lemma {:induction false} EmptyLoop(k: nat, values: seq<int>, c: Setting, s: PlState, fuel: nat)
    requires k < |s.vars|
    ensures var o := Pl.ExecFor(k, values, [], c.env.datums, c.pl, s, fuel);
            o.Normal? && |o.state.vars| == |s.vars|
    decreases |values|
  {
    if values != [] {
      EmptyLoop(k, values[1..], c, s.(vars := s.vars[k := Int(values[0])]), fuel);
    }
  }

  lemma {:induction false} EmptyLuaLoop(name: string, values: seq<int>, c: Setting, t: LuaState, fuel: nat)
    requires name != "found"
    ensures var p := L.ExecFor(name, values, [LuaAssign("_loop_var", name)], c.lua, t, fuel);
            p.Normal? && L.Get(p.state.vars, "found") == L.Get(t.vars, "found") && p.state.table == t.table
    decreases |values|
  {
    if values != [] {
      var setter, t1 := LuaAssign("_loop_var", name), t.(vars := t.vars[name := Int(values[0])]);
      L.ExecSingle(setter, c.lua, t1, fuel);
      EmptyLuaLoop(name, values[1..], c, L.Exec(setter, c.lua, t1, fuel).state, fuel);
    }
  }

  /** What the expressions of that function evaluate to, on either side. */
  ghost predicate ReadsFound(c: Setting, lower: string, upper: string, lo: int, hi: int) {
    && c.env.datums == [Datum(Some("found"), None), Datum(Some("i"), None)] && !c.env.isSetof
    && (forall vars :: c.pl(lower, vars) == Int(lo) && c.pl(upper, vars) == Int(hi))
    && (forall vars :: |vars| == 2 ==> c.pl("found", vars) == vars[0])
    && (forall m :: c.lua(c.env.condition(lower), m) == Int(lo) && c.lua(c.env.condition(upper), m) == Int(hi))
    && (forall m :: c.lua(c.env.condition("found"), m) == L.Get(m, "found"))
    && c.env.condition("found") != "_result_set"
  }

  lemma LoopSetsFound(lower: string, upper: string, lo: int, hi: int, c: Setting, s: PlState, fuel: nat)
    requires ReadsFound(c, lower, upper, lo, hi) && |s.vars| == 2
    ensures var o := Pl.Exec(ForI("i", lower, upper, false, []), c.env.datums, c.pl, s, fuel);
            o.Normal? && |o.state.vars| == 2 && o.state.vars[0] == Bool(lo <= hi)
  {
    EmptyLoop(1, Ascending(lo, hi), c, s, fuel);
    assert VarName(c.env.datums, 0) == "found" && VarName(c.env.datums, 1) == "i" && |"found"| == 5 && |"i"| == 1;
    assert Pl.DatumOf(c.env.datums, "i") == 1 && Pl.DatumOf(c.env.datums, "found") == 0;
  }

  lemma FoundInPl(lower: string, upper: string, lo: int, hi: int, c: Setting, s: PlState, fuel: nat)
    requires ReadsFound(c, lower, upper, lo, hi) && |s.vars| == 2
    ensures PlCall(LoopThenFound(lower, upper, c.env.datums), ReturnsValue, c, s, fuel) == Scalar(Bool(lo <= hi))
  {
    var loop, last := ForI("i", lower, upper, false, []), Return(Some("found"));
    LoopSetsFound(lower, upper, lo, hi, c, s, fuel);
    var s1 := Pl.Exec(loop, c.env.datums, c.pl, s, fuel).state;
    assert [loop, last][1..] == [last];
    assert Pl.ExecList([last], c.env.datums, c.pl, s1, fuel) == Returned(Some(Bool(lo <= hi)), s1);
  }

  lemma LoopThenFoundTrees(lower: string, upper: string, env: Env)
    requires !env.isSetof
    ensures ListTrees(LoopThenFound(lower, upper, env.datums).body, env)
         == [LuaFor("i", env.condition(lower), env.condition(upper), false, [LuaAssign("_loop_var", "i")]),
             LuaReturn(Some(env.condition("found")))]
  {
    var loop, last := ForI("i", lower, upper, false, []), Return(Some("found"));
    assert [loop, last][1..] == [last] && [last][1..] == [];
    assert ListTrees([last], env) == [LuaReturn(Some(env.condition("found")))];
    assert [LuaAssign("_loop_var", "i")] + ListTrees([], env) == [LuaAssign("_loop_var", "i")];
    assert Trees(loop, env)
        == [LuaFor("i", env.condition(lower), env.condition(upper), false, [LuaAssign("_loop_var", "i")])];
  }

  lemma LoopKeepsFound(lower: string, upper: string, lo: int, hi: int, c: Setting, t: LuaState, fuel: nat)
    requires ReadsFound(c, lower, upper, lo, hi)
    ensures var body := [LuaAssign("_loop_var", "i")];
            var loop := LuaFor("i", c.env.condition(lower), c.env.condition(upper), false, body);
            var o := L.Exec(loop, c.lua, t, fuel);
            o.Normal? && L.Get(o.state.vars, "found") == L.Get(t.vars, "found") && o.state.table == t.table
  {
    EmptyLuaLoop("i", Ascending(lo, hi), c, t, fuel);
  }

  lemma FoundInLua(lower: string, upper: string, lo: int, hi: int, c: Setting, t: LuaState, fuel: nat)
    requires ReadsFound(c, lower, upper, lo, hi)
    ensures var o := L.ExecAll(ListTrees(LoopThenFound(lower, upper, c.env.datums).body, c.env), c.lua, t, fuel);
            o.Returned? && o.value == Some(L.Get(t.vars, "found")) && o.state.table == t.table
  {
    var loop := LuaFor("i", c.env.condition(lower), c.env.condition(upper), false, [LuaAssign("_loop_var", "i")]);
    var last := LuaReturn(Some(c.env.condition("found")));
    LoopThenFoundTrees(lower, upper, c.env);
    LoopKeepsFound(lower, upper, lo, hi, c, t, fuel);
    PairRuns(loop, last, c.lua, t, L.Exec(loop, c.lua, t, fuel).state, fuel);
  }

  /** Such a function tells in PL/pgSQL whether its loop ran. The compiled function never declares or sets FOUND:
      whatever the bounds, it returns nil, or the value that an earlier call left in a global of that name. */
  lemma {:induction false} FoundIsLost(lower: string, upper: string, lo: int, hi: int, c: Setting,
                                       globals: map<string, Value>, fuel: nat)
    requires ReadsFound(c, lower, upper, lo, hi) && CalledWith(c, [])
    ensures var f := LoopThenFound(lower, upper, c.env.datums);
            && PlCall(f, ReturnsValue, c, Pl.Entry(c.env.datums, [], c.pl), fuel) == Scalar(Bool(lo <= hi))
            && RunChunk(FunctionLines(f, c.env), c.lua, globals, fuel) == Scalar(L.Get(globals, "found"))
  {
    FoundInPl(lower, upper, lo, hi, c, Pl.Entry(c.env.datums, [], c.pl), fuel);
    NothingDeclaresFound(c, globals, fuel);
    FoundInLua(lower, upper, lo, hi, c,
               L.ExecAll(LeafTrees(PrologueLines(c.env)), c.lua, Start(globals), fuel).state, fuel);
    LoopThenFoundIsReadable(lower, upper, c.env.datums);
    BodyReturns(LoopThenFound(lower, upper, c.env.datums), c, globals, fuel);
  }

  lemma LoopThenFoundIsReadable(lower: string, upper: string, datums: seq<Datum>)
    ensures AllListsNonEmpty(LoopThenFound(lower, upper, datums).body)
  {
    assert LoopThenFound(lower, upper, datums).body[1..] == [Return(Some("found"))];
  }

  /** Outside result sets, what the body returns is what the call returns. */
  lemma BodyReturns(f: Function, c: Setting, globals: map<string, Value>, fuel: nat)
    requires AllListsNonEmpty(f.body) && !c.env.isSetof && AllLeaves(PrologueLines(c.env))
    requires L.ExecAll(LeafTrees(PrologueLines(c.env)), c.lua, Start(globals), fuel).Normal?
    requires var t := L.ExecAll(LeafTrees(PrologueLines(c.env)), c.lua, Start(globals), fuel).state;
             var o := L.ExecAll(ListTrees(f.body, c.env), c.lua, t, fuel);
             o.Returned? && !o.state.table.HandedOut?
    ensures var t := L.ExecAll(LeafTrees(PrologueLines(c.env)), c.lua, Start(globals), fuel).state;
            RunChunk(FunctionLines(f, c.env), c.lua, globals, fuel)
              == Scalar(OrNull(L.ExecAll(ListTrees(f.body, c.env), c.lua, t, fuel).value))
  {
    EpilogueIsLeaves(c.env);
    ChunkRuns(f, c, globals, fuel);
    assert ListTrees(f.body, c.env) + LeafTrees(EpilogueLines(c.env)) == ListTrees(f.body, c.env);
  }

  lemma NothingDeclaresFound(c: Setting, globals: map<string, Value>, fuel: nat)
    requires c.env.datums == [Datum(Some("found"), None), Datum(Some("i"), None)] && !c.env.isSetof
    ensures AllLeaves(PrologueLines(c.env))
            && var o := L.ExecAll(LeafTrees(PrologueLines(c.env)), c.lua, Start(globals), fuel);
               o.Normal? && L.Get(o.state.vars, "found") == L.Get(globals, "found") && o.state.table.Unmarked?
  {
    var local := [Line(1, CodeLocal("i", "nil"))];
    assert LocalLines(c.env, 2) == [] && LocalLines(c.env, 1) == local;
    assert LocalLines(c.env, 0) == LocalLines(c.env, 1);
    assert PrologueLines(c.env) == [Line(1, CodeText("-- Local variables"))] + local by {
      assert ParamCount(c.env.datums) == 0;
    }
    var start := Start(globals);
    var t := start.(vars := start.vars["i" := c.lua("nil", start.vars)]);
    assert local == [Line(1, CodeLocal("i", "nil"))] + [];
    LocalRuns("i", "nil", [], c.lua, start, t, fuel);
    CommentRuns("-- Local variables", local, c.lua, start, fuel);
  }

  // ----- Functions that reach their end -----

  /** `IF cond THEN RETURN expr; END IF;` */
  function MaybeReturn(cond: string, expr: string, datums: seq<Datum>): Function {
    Function.Function(None, datums, [If(cond, [Return(Some(expr))], [], NoElse)])
  }

  /** If the condition does not hold, such a function fails in PL/pgSQL for lack of a RETURN. The compiled function
      returns nil, as if it had returned NULL. */
  lemma {:induction false} MissingReturnIsNull(cond: string, expr: string, c: Setting, args: seq<Value>,
                                               globals: map<string, Value>, fuel: nat)
    requires IsCondition(c, cond) && expr in c.exprs && !c.env.isSetof
    requires NamesDistinct(c.env.datums) && DefaultsKnown(c) && CalledWith(c, args)
    requires TextsAgree(c) && FoundIsNotRead(c) && Unshadowed(c, globals)
    requires !Pl.IsTrue(c.pl(cond, Pl.Entry(c.env.datums, args, c.pl).vars))
    ensures var f := MaybeReturn(cond, expr, c.env.datums);
            && PlCall(f, ReturnsValue, c, Pl.Entry(c.env.datums, args, c.pl), fuel) == Error
            && RunChunk(FunctionLines(f, c.env), c.lua, globals, fuel) == Scalar(Null)
  {
    var f, entry := MaybeReturn(cond, expr, c.env.datums), Pl.Entry(c.env.datums, args, c.pl);
    OneSupported(Return(Some(expr)), c);
    OneSupported(f.body[0], c);
    assert f.body[1..] == [] && Pl.ExecBranches([], c.env.datums, c.pl, entry, fuel) == None;
    assert Pl.Exec(f.body[0], c.env.datums, c.pl, entry, fuel) == Normal(entry);
    assert Pl.ExecList([], c.env.datums, c.pl, entry, fuel) == Normal(entry);
    assert Pl.ExecList(f.body, c.env.datums, c.pl, entry, fuel) == Normal(entry);
    ChunkCorrect(f, ReturnsVoid, c, args, globals, fuel);
  }

  // ----- CASE without ELSE -----

  /** Without ELSE, PL/pgSQL fails when no WHEN applies while the Lua chain does nothing. */
  lemma {:induction false} CaseWithoutElseAgreesIff(whens: seq<Branch>, c: Setting, s: PlState, t: LuaState, fuel: nat)
    requires whens != [] && BranchesSupported(whens, c)
    requires ExprsAgree(c) && NamesDistinct(c.env.datums) && Matches(c, s, t)
    ensures SameOutcome(c, Pl.Exec(Case(whens, NoElse), c.env.datums, c.pl, s, fuel),
                        L.ExecAll(Trees(Case(whens, NoElse), c.env), c.lua, t, fuel))
       <==> exists i :: 0 <= i < |whens| && Pl.IsTrue(c.pl(whens[i].cond, s.vars))
  {
    var stmt := Case(whens, NoElse);
    L.ExecSingle(Trees(stmt, c.env)[0], c.lua, t, fuel);
    ListCorrect(whens[0].body, c, s, t, fuel);
    BranchesCorrect(whens[1..], c, s, t, fuel);
    assert c.lua(c.env.condition(whens[0].cond), t.vars) == c.pl(whens[0].cond, s.vars);
    assert Pl.ExecBranches(whens, c.env.datums, c.pl, s, fuel)
        == if Pl.IsTrue(c.pl(whens[0].cond, s.vars)) then Some(Pl.ExecList(whens[0].body, c.env.datums, c.pl, s, fuel))
           else Pl.ExecBranches(whens[1..], c.env.datums, c.pl, s, fuel);
    SomeBranchIsTaken(whens, c, s, fuel);
  }

  lemma {:induction false} SomeBranchIsTaken(branches: seq<Branch>, c: Setting, s: PlState, fuel: nat)
    ensures Pl.ExecBranches(branches, c.env.datums, c.pl, s, fuel).Some?
       <==> exists i :: 0 <= i < |branches| && Pl.IsTrue(c.pl(branches[i].cond, s.vars))
    decreases |branches|
  {
    if branches != [] {
      SomeBranchIsTaken(branches[1..], c, s, fuel);
      if exists i :: 0 <= i < |branches[1..]| && Pl.IsTrue(c.pl(branches[1..][i].cond, s.vars)) {
        var i :| 0 <= i < |branches[1..]| && Pl.IsTrue(c.pl(branches[1..][i].cond, s.vars));
        assert branches[i + 1] == branches[1..][i];
      }
      if i :| 1 <= i < |branches| && Pl.IsTrue(c.pl(branches[i].cond, s.vars)) {
        assert branches[i] == branches[1..][i - 1];
      }
    }
  }

  // ----- Blocks with exception handlers -----

  /** How the two texts around a protected call evaluate, and that their variables are not PL/pgSQL variables. */
  ghost predicate OutcomeVarsReserved(c: Setting) {
    (forall i :: 0 <= i < |c.env.datums| ==>
       VarName(c.env.datums, i) != "_ok" && VarName(c.env.datums, i) != "_result_or_err")
    && (forall vars :: c.lua("not _ok", vars) == Bool(!L.Truthy(L.Get(vars, "_ok"))))
    && forall vars :: c.lua("_result_or_err", vars) == L.Get(vars, "_result_or_err")
  }

  /** When its body raises no error, a block with handlers always makes the Lua function return; that is right only
      if the body returned itself (or never ends). */
  lemma {:induction false} ProtectedBlockAgreesIffBodyReturns(body: seq<Stmt>, handlers: seq<Handler>, c: Setting,
                                                              s: PlState, t: LuaState, fuel: nat)
    requires handlers != [] && AllSupported(body, c) && OutcomeVarsReserved(c)
    requires ExprsAgree(c) && NamesDistinct(c.env.datums) && Matches(c, s, t)
    requires var o := Pl.ExecList(body, c.env.datums, c.pl, s, fuel); !o.Failed? && !o.Exited?
    ensures var stmt := Block(body, Handlers(handlers));
            (SameOutcome(c, Pl.Exec(stmt, c.env.datums, c.pl, s, fuel), L.ExecAll(Trees(stmt, c.env), c.lua, t, fuel))
             <==> !Pl.ExecList(body, c.env.datums, c.pl, s, fuel).Normal?)
  {
    var stmt := Block(body, Handlers(handlers));
    ListCorrect(body, c, s, t, fuel);
    ProtectedBlockRuns(stmt, c, t, fuel);
    var o, inner := Pl.ExecList(body, c.env.datums, c.pl, s, fuel), L.ExecAll(ListTrees(body, c.env), c.lua, t, fuel);
    if inner.Normal? || inner.Returned? {
      ProtectedMatches(c, o.state, inner);
    }
  }

  lemma ProtectedMatches(c: Setting, s: PlState, inner: Outcome<LuaState>)
    requires OutcomeVarsReserved(c) && (inner.Normal? || inner.Returned?) && Matches(c, s, inner.state)
    ensures Matches(c, s, L.Protected(inner).state)
  {
  }

  /** The Lua of a protected block returns the value its body returned, or nil. */
  lemma ProtectedBlockRuns(stmt: Stmt, c: Setting, t: LuaState, fuel: nat)
    requires stmt.Block? && stmt.exceptions.Handlers? && stmt.exceptions.list != [] && OutcomeVarsReserved(c)
    ensures var inner := L.ExecAll(ListTrees(stmt.body, c.env), c.lua, t, fuel);
            L.ExecAll(Trees(stmt, c.env), c.lua, t, fuel)
              == (match inner
                  case Normal(_) => Returned(Some(Null), L.Protected(inner).state)
                  case Returned(v, _) => Returned(Some(OrNull(v)), L.Protected(inner).state)
                  case _ => inner)
  {
    var call, test := Trees(stmt, c.env)[0], Trees(stmt, c.env)[1];
    var inner := L.ExecAll(ListTrees(stmt.body, c.env), c.lua, t, fuel);
    assert Trees(stmt, c.env) == [call] + [test];
    L.ExecAppend([call], [test], c.lua, t, fuel);
    L.ExecSingle(call, c.lua, t, fuel);
    if inner.Normal? || inner.Returned? {
      var t1 := L.Protected(inner).state;
      L.ExecSingle(test, c.lua, t1, fuel);
      L.ExecSingle(LuaReturn(Some("_result_or_err")), c.lua, t1, fuel);
    }
  }
}
