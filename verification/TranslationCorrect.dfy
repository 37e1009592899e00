/** Running the generated Lua gives what running the PL/pgSQL gives. */
module TranslationCorrect {
  import opened Wrappers
  import opened PlpgsqlAst
  import opened Execution
  import opened LuaEmitter
  import opened LuaReader
  import Pl = PlpgsqlSemantics
  import L = LuaSemantics

  type PlState = Pl.PlState
  type LuaState = L.LuaState

  /** A translation together with both ways of evaluating expressions; `exprs` are the expressions of the function. */
  datatype Setting = Setting(env: Env, pl: Pl.PlEval, lua: L.LuaEval, exprs: set<string>)

  // ----- Matching states -----

  /** FOUND is left out: the generated Lua neither declares nor sets it. */
  ghost predicate VarsMatch(datums: seq<Datum>, vars: seq<Value>, luaVars: map<string, Value>) {
    |vars| == |datums|
    && forall i :: 0 <= i < |vars| && VarName(datums, i) != "found" ==> L.Get(luaVars, VarName(datums, i)) == vars[i]
  }

  /** The same with FOUND. */
  ghost predicate AllVarsMatch(datums: seq<Datum>, vars: seq<Value>, luaVars: map<string, Value>) {
    |vars| == |datums| && forall i :: 0 <= i < |vars| ==> L.Get(luaVars, VarName(datums, i)) == vars[i]
  }

  /** Lua tables cannot hold nil, so the result set has the rows without the NULLs. */
  function NonNull(rows: seq<Value>): seq<Value> {
    if rows == [] then [] else
      NonNull(rows[..|rows| - 1]) + (if rows[|rows| - 1] == Null then [] else [rows[|rows| - 1]])
  }

  function RowsOf(rows: Option<seq<Value>>): seq<Value> {
    if rows.Some? then rows.value else []
  }

  ghost predicate Matches(c: Setting, s: PlState, t: LuaState) {
    VarsMatch(c.env.datums, s.vars, t.vars) && RowsOf(t.rows) == NonNull(s.rows)
    && t.table.Unmarked? && (c.env.isSetof ==> t.rows.Some?)
  }

  ghost predicate SameOutcome(c: Setting, o: Outcome<PlState>, p: Outcome<LuaState>) {
    match o
    case Normal(s) => p.Normal? && Matches(c, s, p.state)
    case Exited(s) => p.Exited? && Matches(c, s, p.state)
    case Returned(v, s) => p.Returned? && OrNull(p.value) == OrNull(v) && Matches(c, s, p.state)
    case Failed => p.Failed?
    case OutOfFuel => p.OutOfFuel?
  }

  // ----- Assumptions on names and expressions -----

  const RESERVED: seq<string> := ["_loop_var", "_result_set", "_sqlstate", "_result_set._is_result_set"]

  ghost predicate NamesDistinct(datums: seq<Datum>) {
    (forall i, j :: 0 <= i < j < |datums| ==> VarName(datums, i) != VarName(datums, j))
    && forall i :: 0 <= i < |datums| ==> VarName(datums, i) !in RESERVED
  }

  /** Where all variables match, the translated text of an expression evaluates to what the original evaluates to. */
  ghost predicate TextsAgree(c: Setting) {
    (forall q, vars, luaVars :: q in c.exprs && AllVarsMatch(c.env.datums, vars, luaVars) ==>
       c.lua(c.env.condition(q), luaVars) == c.pl(q, vars))
    && (forall q, vars, luaVars :: q in c.exprs && AllVarsMatch(c.env.datums, vars, luaVars) ==>
       c.lua(c.env.rhs(q), luaVars) == c.pl(q, vars))
    && (forall luaVars :: c.lua("true", luaVars) == Bool(true))
    && forall q :: q in c.exprs ==> c.env.condition(q) != "_result_set"
  }

  ghost predicate IgnoresFound(c: Setting, q: string) {
    forall vars, v :: |vars| == |c.env.datums| ==> c.pl(q, WithFound(c.env.datums, vars, v)) == c.pl(q, vars)
  }

  function WithFound(datums: seq<Datum>, vars: seq<Value>, v: Value): seq<Value>
    requires |vars| == |datums|
  {
    var k := Pl.DatumOf(datums, "found");
    if k < |vars| then vars[k := v] else vars
  }

  /** No expression of the function depends on FOUND. */
  ghost predicate FoundIsNotRead(c: Setting) {
    forall q :: q in c.exprs ==> IgnoresFound(c, q)
  }

  /** The texts agree wherever the variables match, whatever FOUND is. */
  ghost predicate ExprsAgree(c: Setting) {
    (forall q, vars, luaVars :: q in c.exprs && VarsMatch(c.env.datums, vars, luaVars) ==>
       c.lua(c.env.condition(q), luaVars) == c.pl(q, vars))
    && (forall q, vars, luaVars :: q in c.exprs && VarsMatch(c.env.datums, vars, luaVars) ==>
       c.lua(c.env.rhs(q), luaVars) == c.pl(q, vars))
    && (forall luaVars :: c.lua("true", luaVars) == Bool(true))
    && forall q :: q in c.exprs ==> c.env.condition(q) != "_result_set"
  }

  /** An expression of the function that is always true, false or NULL. */
  ghost predicate IsCondition(c: Setting, cond: string) {
    cond in c.exprs && forall vars :: c.pl(cond, vars).Bool? || c.pl(cond, vars) == Null
  }

  ghost predicate AlwaysEqual(c: Setting, q: string, r: string) {
    forall vars :: c.pl(q, vars) == c.pl(r, vars)
  }

  /** A Lua state that has every variable of a PL/pgSQL state. */
  function LuaVars(datums: seq<Datum>, vars: seq<Value>): (m: map<string, Value>)
    requires |vars| == |datums| && NamesDistinct(datums)
    ensures AllVarsMatch(datums, vars, m)
  {
    map i | 0 <= i < |datums| :: VarName(datums, i) := vars[i]
  }

  /** Texts that agree where all variables match agree whatever FOUND is exactly if no expression depends on it. */
  lemma {:induction false} ExprsAgreeIff(c: Setting)
    requires TextsAgree(c) && NamesDistinct(c.env.datums)
    ensures ExprsAgree(c) <==> FoundIsNotRead(c)
  {
    var datums := c.env.datums;
    if ExprsAgree(c) {
      forall q, vars, v | q in c.exprs && |vars| == |datums|
        ensures c.pl(q, WithFound(datums, vars, v)) == c.pl(q, vars)
      {
        var luaVars := LuaVars(datums, vars);
        assert VarsMatch(datums, vars, luaVars) && VarsMatch(datums, WithFound(datums, vars, v), luaVars);
        assert c.lua(c.env.condition(q), luaVars) == c.pl(q, vars);
      }
    }
    if FoundIsNotRead(c) {
      forall q, vars, luaVars | q in c.exprs && VarsMatch(datums, vars, luaVars)
        ensures c.lua(c.env.condition(q), luaVars) == c.pl(q, vars) && c.lua(c.env.rhs(q), luaVars) == c.pl(q, vars)
      {
        var all := WithFound(datums, vars, L.Get(luaVars, "found"));
        FoundAdded(datums, vars, luaVars);
        assert IgnoresFound(c, q) && c.pl(q, all) == c.pl(q, vars);
      }
    }
  }

  lemma FoundAdded(datums: seq<Datum>, vars: seq<Value>, luaVars: map<string, Value>)
    requires VarsMatch(datums, vars, luaVars) && NamesDistinct(datums)
    ensures AllVarsMatch(datums, WithFound(datums, vars, L.Get(luaVars, "found")), luaVars)
  {
    var k := Pl.DatumOf(datums, "found");
    forall i | 0 <= i < |vars|
      ensures L.Get(luaVars, VarName(datums, i)) == WithFound(datums, vars, L.Get(luaVars, "found"))[i]
    {
      if k < i {
        assert VarName(datums, k) != VarName(datums, i);
      }
    }
  }

  // ----- The supported statements -----

  ghost predicate Supported(stmt: Stmt, c: Setting)
    decreases stmt, 0
  {
    match stmt
    case Block(body, exceptions) => exceptions.NoExceptions? && AllSupported(body, c)
    case Assign(varno, query) => 0 <= varno < |c.env.datums| && AssignedExpr(query) in c.exprs
    case If(cond, thenBody, elsifs, elseBody) =>
      IsCondition(c, cond) && AllSupported(thenBody, c) && BranchesSupported(elsifs, c)
      && (elseBody.Else? ==> AllSupported(elseBody.body, c))
    case Loop(body) => AllSupported(body, c)
    case While(cond, body) => IsCondition(c, cond) && AllSupported(body, c)
    case ForI(name, lower, upper, reverse, body) =>
      lower in c.exprs && upper in c.exprs && Pl.DatumOf(c.env.datums, name) < |c.env.datums|
      && (reverse ==> AlwaysEqual(c, lower, upper)) && AllSupported(body, c)
    case Exit(cond) => cond.Some? ==> IsCondition(c, cond.value)
    case Return(expr) => !c.env.isSetof && (expr.Some? ==> expr.value in c.exprs)
    case ReturnNext(expr) => expr.Some? && expr.value in c.exprs
    case Case(whens, elseBody) =>
      whens != [] && BranchesSupported(whens, c) && elseBody.Else? && AllSupported(elseBody.body, c)
    case ForS(_, _, _) => false
    case Simple(_) => false
  }

  ghost predicate AllSupported(stmts: seq<Stmt>, c: Setting)
    decreases stmts, 0
  {
    stmts != [] ==> Supported(stmts[0], c) && AllSupported(stmts[1..], c)
  }

  ghost predicate BranchesSupported(branches: seq<Branch>, c: Setting)
    decreases branches, 0
  {
    branches != [] ==>
      IsCondition(c, branches[0].cond) && AllSupported(branches[0].body, c) && BranchesSupported(branches[1..], c)
  }

  // ----- Updates of matching states -----

  lemma UpdateMatches(datums: seq<Datum>, vars: seq<Value>, luaVars: map<string, Value>, k: nat, v: Value)
    requires VarsMatch(datums, vars, luaVars) && NamesDistinct(datums) && k < |datums|
    ensures VarsMatch(datums, vars[k := v], luaVars[VarName(datums, k) := v])
  {
    forall i | 0 <= i < |vars| && VarName(datums, i) != "found"
      ensures L.Get(luaVars[VarName(datums, k) := v], VarName(datums, i)) == vars[k := v][i]
    {
      if i < k {
        assert VarName(datums, i) != VarName(datums, k);
      } else if k < i {
        assert VarName(datums, k) != VarName(datums, i);
      }
    }
  }

  lemma LoopVarMatches(datums: seq<Datum>, vars: seq<Value>, luaVars: map<string, Value>, v: Value)
    requires VarsMatch(datums, vars, luaVars) && NamesDistinct(datums)
    ensures VarsMatch(datums, vars, luaVars["_loop_var" := v])
  {
  }

  lemma NonNullAppend(rows: seq<Value>, v: Value)
    ensures NonNull(rows + [v]) == NonNull(rows) + (if v == Null then [] else [v])
  {
    assert (rows + [v])[..|rows|] == rows;
  }

  // ----- Simulation -----

  lemma {:induction false} StmtCorrect(stmt: Stmt, c: Setting, s: PlState, t: LuaState, fuel: nat)
    requires Supported(stmt, c) && ExprsAgree(c) && NamesDistinct(c.env.datums) && Matches(c, s, t)
    ensures SameOutcome(c, Pl.Exec(stmt, c.env.datums, c.pl, s, fuel), L.ExecAll(Trees(stmt, c.env), c.lua, t, fuel))
    decreases fuel, stmt, 1
  {
    match stmt
    case Block(body, _) => ListCorrect(body, c, s, t, fuel);
    case Assign(_, _) => AssignCorrect(stmt, c, s, t, fuel);
    case If(_, _, _, _) => IfCorrect(stmt, c, s, t, fuel);
    case Loop(body) =>
      L.ExecSingle(Trees(stmt, c.env)[0], c.lua, t, fuel);
      WhileCorrect(None, "true", body, c, s, t, fuel);
    case While(cond, body) =>
      L.ExecSingle(Trees(stmt, c.env)[0], c.lua, t, fuel);
      WhileCorrect(Some(cond), c.env.condition(cond), body, c, s, t, fuel);
    case ForI(_, _, _, _, _) => ForICorrect(stmt, c, s, t, fuel);
    case Exit(_) => LeavingCorrect(stmt, c, s, t, fuel);
    case Return(_) => LeavingCorrect(stmt, c, s, t, fuel);
    case ReturnNext(_) => ReturnNextCorrect(stmt, c, s, t, fuel);
    case Case(_, _) => CaseCorrect(stmt, c, s, t, fuel);
  }

  lemma AssignCorrect(stmt: Stmt, c: Setting, s: PlState, t: LuaState, fuel: nat)
    requires stmt.Assign? && Supported(stmt, c) && ExprsAgree(c) && NamesDistinct(c.env.datums) && Matches(c, s, t)
    ensures SameOutcome(c, Pl.Exec(stmt, c.env.datums, c.pl, s, fuel), L.ExecAll(Trees(stmt, c.env), c.lua, t, fuel))
  {
    L.ExecSingle(Trees(stmt, c.env)[0], c.lua, t, fuel);
    UpdateMatches(c.env.datums, s.vars, t.vars, stmt.varno, c.pl(AssignedExpr(stmt.query), s.vars));
  }

  lemma LeavingCorrect(stmt: Stmt, c: Setting, s: PlState, t: LuaState, fuel: nat)
    requires (stmt.Exit? || stmt.Return?) && Supported(stmt, c) && ExprsAgree(c) && Matches(c, s, t)
    ensures SameOutcome(c, Pl.Exec(stmt, c.env.datums, c.pl, s, fuel), L.ExecAll(Trees(stmt, c.env), c.lua, t, fuel))
  {
    L.ExecSingle(Trees(stmt, c.env)[0], c.lua, t, fuel);
  }

  lemma {:induction false} ListCorrect(stmts: seq<Stmt>, c: Setting, s: PlState, t: LuaState, fuel: nat)
    requires AllSupported(stmts, c) && ExprsAgree(c) && NamesDistinct(c.env.datums) && Matches(c, s, t)
    ensures SameOutcome(c, Pl.ExecList(stmts, c.env.datums, c.pl, s, fuel),
                        L.ExecAll(ListTrees(stmts, c.env), c.lua, t, fuel))
    decreases fuel, stmts, 0
  {
    if stmts != [] {
      StmtCorrect(stmts[0], c, s, t, fuel);
      L.ExecAppend(Trees(stmts[0], c.env), ListTrees(stmts[1..], c.env), c.lua, t, fuel);
      var first := Pl.Exec(stmts[0], c.env.datums, c.pl, s, fuel);
      if first.Normal? {
        var luaFirst := L.ExecAll(Trees(stmts[0], c.env), c.lua, t, fuel);
        ListCorrect(stmts[1..], c, first.state, luaFirst.state, fuel);
      }
    }
  }

  lemma {:induction false} BranchesCorrect(branches: seq<Branch>, c: Setting, s: PlState, t: LuaState, fuel: nat)
    requires BranchesSupported(branches, c) && ExprsAgree(c) && NamesDistinct(c.env.datums) && Matches(c, s, t)
    ensures var o, p := Pl.ExecBranches(branches, c.env.datums, c.pl, s, fuel),
                        L.ExecBranches(BranchTrees(branches, c.env), c.lua, t, fuel);
            (o.Some? <==> p.Some?) && (o.Some? ==> SameOutcome(c, o.value, p.value))
    decreases fuel, branches, 0
  {
    if branches != [] {
      ListCorrect(branches[0].body, c, s, t, fuel);
      BranchesCorrect(branches[1..], c, s, t, fuel);
    }
  }

  lemma {:induction false} IfCorrect(stmt: Stmt, c: Setting, s: PlState, t: LuaState, fuel: nat)
    requires stmt.If? && Supported(stmt, c) && ExprsAgree(c) && NamesDistinct(c.env.datums) && Matches(c, s, t)
    ensures SameOutcome(c, Pl.Exec(stmt, c.env.datums, c.pl, s, fuel), L.ExecAll(Trees(stmt, c.env), c.lua, t, fuel))
    decreases fuel, stmt, 0
  {
    L.ExecSingle(Trees(stmt, c.env)[0], c.lua, t, fuel);
    ListCorrect(stmt.thenBody, c, s, t, fuel);
    BranchesCorrect(stmt.elsifs, c, s, t, fuel);
    if stmt.elseBody.Else? {
      ListCorrect(stmt.elseBody.body, c, s, t, fuel);
    }
  }

  lemma {:induction false} CaseCorrect(stmt: Stmt, c: Setting, s: PlState, t: LuaState, fuel: nat)
    requires stmt.Case? && Supported(stmt, c) && ExprsAgree(c) && NamesDistinct(c.env.datums) && Matches(c, s, t)
    ensures SameOutcome(c, Pl.Exec(stmt, c.env.datums, c.pl, s, fuel), L.ExecAll(Trees(stmt, c.env), c.lua, t, fuel))
    decreases fuel, stmt, 0
  {
    var first := stmt.whens[0];
    L.ExecSingle(Trees(stmt, c.env)[0], c.lua, t, fuel);
    ListCorrect(first.body, c, s, t, fuel);
    BranchesCorrect(stmt.whens[1..], c, s, t, fuel);
    ListCorrect(stmt.elseBody.body, c, s, t, fuel);
    assert c.lua(c.env.condition(first.cond), t.vars) == c.pl(first.cond, s.vars);
    assert Pl.ExecBranches(stmt.whens, c.env.datums, c.pl, s, fuel)
        == if Pl.IsTrue(c.pl(first.cond, s.vars)) then Some(Pl.ExecList(first.body, c.env.datums, c.pl, s, fuel))
           else Pl.ExecBranches(stmt.whens[1..], c.env.datums, c.pl, s, fuel);
  }

  lemma {:induction false} WhileCorrect(cond: Option<string>, luaCond: string, body: seq<Stmt>, c: Setting,
                                        s: PlState, t: LuaState, fuel: nat)
    requires if cond.Some? then luaCond == c.env.condition(cond.value) && IsCondition(c, cond.value)
             else luaCond == "true"
    requires AllSupported(body, c) && ExprsAgree(c) && NamesDistinct(c.env.datums) && Matches(c, s, t)
    ensures SameOutcome(c, Pl.ExecWhile(cond, body, c.env.datums, c.pl, s, fuel),
                        L.ExecWhile(luaCond, ListTrees(body, c.env), c.lua, t, fuel))
    decreases fuel, body, 1
  {
    if fuel > 0 {
      ListCorrect(body, c, s, t, fuel - 1);
      var round := Pl.ExecList(body, c.env.datums, c.pl, s, fuel - 1);
      if round.Normal? {
        WhileCorrect(cond, luaCond, body, c, round.state, L.ExecAll(ListTrees(body, c.env), c.lua, t, fuel - 1).state,
                     fuel - 1);
      }
    }
  }

  lemma {:induction false} ForICorrect(stmt: Stmt, c: Setting, s: PlState, t: LuaState, fuel: nat)
    requires stmt.ForI? && Supported(stmt, c) && ExprsAgree(c) && NamesDistinct(c.env.datums) && Matches(c, s, t)
    ensures SameOutcome(c, Pl.Exec(stmt, c.env.datums, c.pl, s, fuel), L.ExecAll(Trees(stmt, c.env), c.lua, t, fuel))
    decreases fuel, stmt, 0
  {
    var lo, hi := c.pl(stmt.lower, s.vars), c.pl(stmt.upper, s.vars);
    L.ExecSingle(Trees(stmt, c.env)[0], c.lua, t, fuel);
    if lo.Int? && hi.Int? {
      LoopCorrect(stmt.varname, Pl.ForValues(lo.n, hi.n, stmt.reverse), stmt.body, c, s, t, fuel);
    }
  }

  /** A whole counted loop over the same values, including what happens on leaving it. */
  lemma {:induction false} LoopCorrect(name: string, values: seq<int>, body: seq<Stmt>, c: Setting,
                                       s: PlState, t: LuaState, fuel: nat)
    requires Pl.DatumOf(c.env.datums, name) < |c.env.datums|
    requires AllSupported(body, c) && ExprsAgree(c) && NamesDistinct(c.env.datums) && Matches(c, s, t)
    ensures var k := Pl.DatumOf(c.env.datums, name);
            SameOutcome(c, Pl.Leave(Pl.ExecFor(k, values, body, c.env.datums, c.pl, s, fuel), k, s.vars[k],
                                    c.env.datums, values != []),
                        L.Leave(L.ExecFor(name, values, [LuaAssign("_loop_var", name)] + ListTrees(body, c.env), c.lua,
                                          t, fuel), name, L.Get(t.vars, name)))
    decreases fuel, body, 2 + |values|
  {
    var k := Pl.DatumOf(c.env.datums, name);
    ForCorrect(k, values, body, c, s, t, fuel);
    var o := Pl.ExecFor(k, values, body, c.env.datums, c.pl, s, fuel);
    var p := L.ExecFor(name, values, [LuaAssign("_loop_var", name)] + ListTrees(body, c.env), c.lua, t, fuel);
    LeaveCorrect(k, c, o, p, s.vars[k], L.Get(t.vars, name), values != []);
  }

  /** A variable called `found` need not come back with the same value. */
  lemma LeaveCorrect(k: nat, c: Setting, o: Outcome<PlState>, p: Outcome<LuaState>, outer: Value, luaOuter: Value,
                     found: bool)
    requires SameOutcome(c, o, p) && NamesDistinct(c.env.datums) && k < |c.env.datums|
    requires VarName(c.env.datums, k) != "found" ==> luaOuter == outer
    ensures SameOutcome(c, Pl.Leave(o, k, outer, c.env.datums, found), L.Leave(p, VarName(c.env.datums, k), luaOuter))
  {
    if o.Normal? || o.Returned? {
      UpdateMatches(c.env.datums, o.state.vars, p.state.vars, k, luaOuter);
    }
  }

  lemma {:induction false} ForCorrect(k: nat, values: seq<int>, body: seq<Stmt>, c: Setting,
                                      s: PlState, t: LuaState, fuel: nat)
    requires k < |c.env.datums|
    requires AllSupported(body, c) && ExprsAgree(c) && NamesDistinct(c.env.datums) && Matches(c, s, t)
    ensures var name := VarName(c.env.datums, k);
            SameOutcome(c, Pl.ExecFor(k, values, body, c.env.datums, c.pl, s, fuel),
                        L.ExecFor(name, values, [LuaAssign("_loop_var", name)] + ListTrees(body, c.env), c.lua, t,
                                  fuel))
    decreases fuel, body, 1 + |values|
  {
    if values != [] {
      var name := VarName(c.env.datums, k);
      var setter := LuaAssign("_loop_var", name);
      var s1, t1 := s.(vars := s.vars[k := Int(values[0])]), t.(vars := t.vars[name := Int(values[0])]);
      UpdateMatches(c.env.datums, s.vars, t.vars, k, Int(values[0]));
      var t2 := t1.(vars := t1.vars["_loop_var" := c.lua(name, t1.vars)]);
      LoopVarMatches(c.env.datums, s1.vars, t1.vars, c.lua(name, t1.vars));
      L.ExecSingle(setter, c.lua, t1, fuel);
      L.ExecAppend([setter], ListTrees(body, c.env), c.lua, t1, fuel);
      ListCorrect(body, c, s1, t2, fuel);
      var round := Pl.ExecList(body, c.env.datums, c.pl, s1, fuel);
      if round.Normal? {
        ForCorrect(k, values[1..], body, c, round.state, L.ExecAll(ListTrees(body, c.env), c.lua, t2, fuel).state,
                   fuel);
      }
    }
  }

  lemma InsertMatches(c: Setting, s: PlState, t: LuaState, v: Value)
    requires Matches(c, s, t) && t.rows.Some?
    ensures L.Insert(t, v).Normal? && Matches(c, s.(rows := s.rows + [v]), L.Insert(t, v).state)
  {
    NonNullAppend(s.rows, v);
  }

  lemma ReturnNextCorrect(stmt: Stmt, c: Setting, s: PlState, t: LuaState, fuel: nat)
    requires stmt.ReturnNext? && Supported(stmt, c) && ExprsAgree(c) && Matches(c, s, t)
    ensures SameOutcome(c, Pl.Exec(stmt, c.env.datums, c.pl, s, fuel), L.ExecAll(Trees(stmt, c.env), c.lua, t, fuel))
  {
    var value := c.env.condition(stmt.expr.value);
    var t1 := if t.rows.None? then t.(rows := Some([])) else t;
    InsertMatches(c, s, t1, c.pl(stmt.expr.value, s.vars));
    PairRuns(LuaEnsureSet, LuaInsert(value), c.lua, t, t1, fuel);
  }

  lemma PairRuns(a: Lua, b: Lua, ev: L.LuaEval, t: LuaState, t1: LuaState, fuel: nat)
    requires L.Exec(a, ev, t, fuel) == Normal(t1)
    ensures L.ExecAll([a, b], ev, t, fuel) == L.Exec(b, ev, t1, fuel)
  {
    assert [a, b] == [a] + [b];
    L.ExecAppend([a], [b], ev, t, fuel);
    L.ExecSingle(a, ev, t, fuel);
    L.ExecSingle(b, ev, t1, fuel);
  }

  // ----- Whole functions -----

  /** In a set-returning function the only RETURN is a bare one at the end; elsewhere RETURN may occur anywhere. */
  ghost predicate SupportedBody(stmts: seq<Stmt>, c: Setting) {
    AllSupported(stmts, c)
    || (c.env.isSetof && stmts != [] && stmts[|stmts| - 1] == Return(None) && AllSupported(stmts[..|stmts| - 1], c))
  }

  /** What CREATE FUNCTION declares. The translator is not told; it looks for RETURN NEXT. */
  datatype Kind = ReturnsValue | ReturnsVoid | ReturnsSet

  /** What a call comes to. */
  datatype CallResult = Scalar(value: Value) | Rows(rows: seq<Value>) | Nothing | Error | Unfinished

  function AtTheEnd(kind: Kind, s: PlState): CallResult {
    match kind
    case ReturnsValue => Error
    case ReturnsVoid => Nothing
    case ReturnsSet => Rows(s.rows)
  }

  /** PL/pgSQL: a function that returns a value fails if control reaches its end, where the parser may have put a bare
      RETURN; the other kinds may run off their ends, and RETURN takes no value there. */
  function PlResult(kind: Kind, o: Outcome<PlState>): CallResult {
    match o
    case Normal(s) => AtTheEnd(kind, s)
    case Returned(None, s) => AtTheEnd(kind, s)
    case Returned(Some(v), _) => if kind.ReturnsValue? then Scalar(v) else Error
    case OutOfFuel => Unfinished
    case _ => Error
  }

  function PlCall(f: Function, kind: Kind, c: Setting, s: PlState, fuel: nat): CallResult {
    PlResult(kind, Pl.ExecList(f.body, c.env.datums, c.pl, s, fuel))
  }

  /** What the Lua function hands to its caller: the result set, or a value, where nothing at all counts as nil. */
  function Handed(o: Outcome<LuaState>): CallResult {
    match o
    case Returned(v, t) => if t.table.HandedOut? then Rows(RowsOf(t.rows)) else Scalar(OrNull(v))
    case Normal(_) => Scalar(Null)
    case OutOfFuel => Unfinished
    case _ => Error
  }

  /** Running the Lua function from the end of its prologue. */
  function LuaCall(f: Function, c: Setting, t: LuaState, fuel: nat): CallResult {
    EpilogueIsLeaves(c.env);
    Handed(L.ExecAll(ListTrees(f.body, c.env) + LeafTrees(EpilogueLines(c.env)), c.lua, t, fuel))
  }

  /** What Lua can make of a result: no value is nil, and a table holds no nil. */
  function Delivered(r: CallResult): CallResult {
    match r
    case Nothing => Scalar(Null)
    case Rows(rows) => Rows(NonNull(rows))
    case _ => r
  }

  /** The body ends in a way that does not fit the kind of the function, or that the translator takes for another kind:
      a value function without a value, a void or set-returning function with one, a set-returning function in which no
      RETURN NEXT was found. */
  predicate EndsAmiss(kind: Kind, isSetof: bool, o: Outcome<PlState>) {
    match kind
    case ReturnsValue => o.Normal? || (o.Returned? && o.value.None?)
    case ReturnsVoid => o.Returned? && o.value.Some?
    case ReturnsSet => !isSetof && (o.Normal? || o.Returned?)
  }

  /** A bare RETURN at the end of a set-returning function is translated to nothing. */
  lemma {:induction false} FinalReturnIsSilent(stmts: seq<Stmt>, c: Setting, s: PlState, fuel: nat)
    requires c.env.isSetof
    ensures ListTrees(stmts + [Return(None)], c.env) == ListTrees(stmts, c.env)
    ensures var o := Pl.ExecList(stmts, c.env.datums, c.pl, s, fuel);
            (Pl.ExecList(stmts + [Return(None)], c.env.datums, c.pl, s, fuel)
             == if o.Normal? then Returned(None, o.state) else o)
    decreases |stmts|
  {
    if stmts == [] {
      assert stmts + [Return(None)] == [Return(None)];
    } else {
      assert (stmts + [Return(None)])[1..] == stmts[1..] + [Return(None)];
      var first := Pl.Exec(stmts[0], c.env.datums, c.pl, s, fuel);
      FinalReturnIsSilent(stmts[1..], c, if first.Normal? then first.state else s, fuel);
    }
  }

  lemma EpilogueRuns(c: Setting, t: LuaState, fuel: nat)
    requires c.env.isSetof && AllLeaves(EpilogueLines(c.env)) && ExprsAgree(c) && t.rows.Some?
    ensures var o := L.ExecAll(LeafTrees(EpilogueLines(c.env)), c.lua, t, fuel);
            o.Returned? && o.state.rows == t.rows && o.state.table.HandedOut?
  {
    var mark, last := LuaAssign("_result_set._is_result_set", "true"), LuaReturn(Some("_result_set"));
    assert LeafTrees(EpilogueLines(c.env)) == [mark, last];
    PairRuns(mark, last, c.lua, t, L.Exec(mark, c.lua, t, fuel).state, fuel);
  }

  /** From matching states the translated function comes to the same as the PL/pgSQL function, less the NULLs of its
      rows, exactly if the body does not end amiss; otherwise an error, or an empty set, becomes NULL. */
  lemma {:induction false} FunctionCorrect(f: Function, kind: Kind, c: Setting, s: PlState, t: LuaState, fuel: nat)
    requires SupportedBody(f.body, c) && ExprsAgree(c) && NamesDistinct(c.env.datums) && Matches(c, s, t)
    requires c.env.isSetof ==> kind.ReturnsSet?
    ensures LuaCall(f, c, t, fuel) == Delivered(PlCall(f, kind, c, s, fuel))
       <==> !EndsAmiss(kind, c.env.isSetof, Pl.ExecList(f.body, c.env.datums, c.pl, s, fuel))
  {
    if c.env.isSetof {
      SetCallCorrect(f, c, s, t, fuel);
    } else {
      EpilogueIsLeaves(c.env);
      ListCorrect(f.body, c, s, t, fuel);
      assert ListTrees(f.body, c.env) + LeafTrees(EpilogueLines(c.env)) == ListTrees(f.body, c.env);
    }
  }

  /** Where a result set is declared, the rows are those collected, however the body ends. */
  lemma SetCallCorrect(f: Function, c: Setting, s: PlState, t: LuaState, fuel: nat)
    requires SupportedBody(f.body, c) && ExprsAgree(c) && NamesDistinct(c.env.datums) && Matches(c, s, t)
    requires c.env.isSetof
    ensures LuaCall(f, c, t, fuel) == Delivered(PlCall(f, ReturnsSet, c, s, fuel))
  {
    EpilogueIsLeaves(c.env);
    L.ExecAppend(ListTrees(f.body, c.env), LeafTrees(EpilogueLines(c.env)), c.lua, t, fuel);
    SetBodyCorrect(f.body, c, s, t, fuel);
    var p := L.ExecAll(ListTrees(f.body, c.env), c.lua, t, fuel);
    if p.Normal? {
      EpilogueRuns(c, p.state, fuel);
    }
  }

  /** In a set-returning function the translated body ends normally where the original ends or returns. */
  lemma SetBodyCorrect(stmts: seq<Stmt>, c: Setting, s: PlState, t: LuaState, fuel: nat)
    requires SupportedBody(stmts, c) && ExprsAgree(c) && NamesDistinct(c.env.datums) && Matches(c, s, t)
    requires c.env.isSetof
    ensures var o := Pl.ExecList(stmts, c.env.datums, c.pl, s, fuel);
            var p := L.ExecAll(ListTrees(stmts, c.env), c.lua, t, fuel);
            match o
            case Normal(s1) => p.Normal? && Matches(c, s1, p.state)
            case Returned(v, s1) => v.None? && p.Normal? && Matches(c, s1, p.state)
            case _ => SameOutcome(c, o, p)
  {
    var init := if AllSupported(stmts, c) then stmts else stmts[..|stmts| - 1];
    ListCorrect(init, c, s, t, fuel);
    NoReturnInSetof(init, c, s, fuel);
    if init != stmts {
      assert init + [Return(None)] == stmts;
      FinalReturnIsSilent(init, c, s, fuel);
    }
  }

  /** The supported statements of a set-returning function never return early. */
  lemma {:induction false} NoReturnInSetof(stmts: seq<Stmt>, c: Setting, s: PlState, fuel: nat)
    requires c.env.isSetof && AllSupported(stmts, c)
    ensures !Pl.ExecList(stmts, c.env.datums, c.pl, s, fuel).Returned?
    decreases fuel, stmts, 0
  {
    if stmts != [] {
      StmtDoesNotReturn(stmts[0], c, s, fuel);
      var first := Pl.Exec(stmts[0], c.env.datums, c.pl, s, fuel);
      if first.Normal? {
        NoReturnInSetof(stmts[1..], c, first.state, fuel);
      }
    }
  }

  lemma {:induction false} StmtDoesNotReturn(stmt: Stmt, c: Setting, s: PlState, fuel: nat)
    requires c.env.isSetof && Supported(stmt, c)
    ensures !Pl.Exec(stmt, c.env.datums, c.pl, s, fuel).Returned?
    decreases fuel, stmt, 0
  {
    match stmt
    case Block(body, _) => NoReturnInSetof(body, c, s, fuel);
    case If(_, thenBody, elsifs, elseBody) =>
      NoReturnInSetof(thenBody, c, s, fuel);
      BranchesDoNotReturn(elsifs, c, s, fuel);
      if elseBody.Else? {
        NoReturnInSetof(elseBody.body, c, s, fuel);
      }
    case Loop(body) => WhileDoesNotReturn(None, body, c, s, fuel);
    case While(cond, body) => WhileDoesNotReturn(Some(cond), body, c, s, fuel);
    case ForI(name, lower, upper, reverse, body) =>
      var lo, hi := c.pl(lower, s.vars), c.pl(upper, s.vars);
      if lo.Int? && hi.Int? {
        ForDoesNotReturn(Pl.DatumOf(c.env.datums, name), Pl.ForValues(lo.n, hi.n, reverse), body, c, s, fuel);
      }
    case Case(whens, elseBody) =>
      BranchesDoNotReturn(whens, c, s, fuel);
      NoReturnInSetof(elseBody.body, c, s, fuel);
    case _ =>
  }

  lemma {:induction false} BranchesDoNotReturn(branches: seq<Branch>, c: Setting, s: PlState, fuel: nat)
    requires c.env.isSetof && BranchesSupported(branches, c)
    ensures var o := Pl.ExecBranches(branches, c.env.datums, c.pl, s, fuel); o.Some? ==> !o.value.Returned?
    decreases fuel, branches, 0
  {
    if branches != [] {
      NoReturnInSetof(branches[0].body, c, s, fuel);
      BranchesDoNotReturn(branches[1..], c, s, fuel);
    }
  }

  lemma {:induction false} WhileDoesNotReturn(cond: Option<string>, body: seq<Stmt>, c: Setting, s: PlState, fuel: nat)
    requires c.env.isSetof && AllSupported(body, c)
    ensures !Pl.ExecWhile(cond, body, c.env.datums, c.pl, s, fuel).Returned?
    decreases fuel, body, 1
  {
    if fuel > 0 {
      NoReturnInSetof(body, c, s, fuel - 1);
      var round := Pl.ExecList(body, c.env.datums, c.pl, s, fuel - 1);
      if round.Normal? {
        WhileDoesNotReturn(cond, body, c, round.state, fuel - 1);
      }
    }
  }

  lemma {:induction false} ForDoesNotReturn(k: nat, values: seq<int>, body: seq<Stmt>, c: Setting, s: PlState,
                                            fuel: nat)
    requires c.env.isSetof && AllSupported(body, c)
    ensures !Pl.ExecFor(k, values, body, c.env.datums, c.pl, s, fuel).Returned?
    decreases fuel, body, 1 + |values|
  {
    if values != [] && k < |s.vars| {
      var s1 := s.(vars := s.vars[k := Int(values[0])]);
      NoReturnInSetof(body, c, s1, fuel);
      var round := Pl.ExecList(body, c.env.datums, c.pl, s1, fuel);
      if round.Normal? {
        ForDoesNotReturn(k, values[1..], body, c, round.state, fuel);
      }
    }
  }

  /** The rows survive exactly when none of them is NULL. */
  lemma {:induction false} NonNullIsIdentity(rows: seq<Value>)
    ensures NonNull(rows) == rows <==> Null !in rows
  {
    if rows != [] {
      NonNullIsIdentity(rows[..|rows| - 1]);
      NonNullShrinks(rows[..|rows| - 1]);
      assert rows == rows[..|rows| - 1] + [rows[|rows| - 1]];
    }
  }

  lemma {:induction false} NonNullShrinks(rows: seq<Value>)
    ensures |NonNull(rows)| <= |rows| && Null !in NonNull(rows)
  {
    if rows != [] {
      NonNullShrinks(rows[..|rows| - 1]);
    }
  }
}
