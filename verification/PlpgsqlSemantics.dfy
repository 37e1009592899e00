/** What PL/pgSQL statements mean: a fuel-bounded interpreter over the declared variables. */
module PlpgsqlSemantics {
  import opened Wrappers
  import opened PlpgsqlAst
  import opened Execution
  import LuaEmitter

  /** The values of the datums, by datum number, and the rows produced by RETURN NEXT. */
  datatype PlState = PlState(vars: seq<Value>, rows: seq<Value>)

  /** Evaluation of an expression text. */
  type PlEval = (string, seq<Value>) -> Value

  function DatumOf(datums: seq<Datum>, name: string): (k: nat)
    ensures k <= |datums|
    ensures k < |datums| ==> LuaEmitter.VarName(datums, k) == name
    ensures forall i :: 0 <= i < k ==> LuaEmitter.VarName(datums, i) != name
  {
    DatumFrom(datums, name, 0)
  }

  function DatumFrom(datums: seq<Datum>, name: string, i: nat): (k: nat)
    requires i <= |datums|
    ensures i <= k <= |datums|
    ensures k < |datums| ==> LuaEmitter.VarName(datums, k) == name
    ensures forall j :: i <= j < k ==> LuaEmitter.VarName(datums, j) != name
    decreases |datums| - i
  {
    if i == |datums| || LuaEmitter.VarName(datums, i) == name then i else DatumFrom(datums, name, i + 1)
  }

  predicate IsTrue(v: Value) {
    v == Bool(true)
  }

  /** The values a FOR variable takes: REVERSE counts down from the first bound to the second. */
  function ForValues(lower: int, upper: int, reverse: bool): seq<int> {
    if reverse then Descending(lower, upper) else Ascending(lower, upper)
  }

  function Exec(stmt: Stmt, datums: seq<Datum>, ev: PlEval, s: PlState, fuel: nat): Outcome<PlState>
    decreases fuel, stmt, 0
  {
    match stmt
    case Block(body, NoExceptions) => ExecList(body, datums, ev, s, fuel)
    case Block(body, Handlers(_)) => ExecList(body, datums, ev, s, fuel)
    case Assign(varno, query) =>
      if 0 <= varno < |s.vars|
      then Normal(s.(vars := s.vars[varno := ev(LuaEmitter.AssignedExpr(query), s.vars)])) else Failed
    case If(cond, thenBody, elsifs, elseBody) =>
      if IsTrue(ev(cond, s.vars)) then ExecList(thenBody, datums, ev, s, fuel) else
        var chosen := ExecBranches(elsifs, datums, ev, s, fuel);
        if chosen.Some? then chosen.value
        else if elseBody.Else? then ExecList(elseBody.body, datums, ev, s, fuel) else Normal(s)
    case Loop(body) => ExecWhile(None, body, datums, ev, s, fuel)
    case While(cond, body) => ExecWhile(Some(cond), body, datums, ev, s, fuel)
    case ForI(name, lower, upper, reverse, body) =>
      var k, lo, hi := DatumOf(datums, name), ev(lower, s.vars), ev(upper, s.vars);
      if !(k < |s.vars| && lo.Int? && hi.Int?) then Failed
      else
        var values := ForValues(lo.n, hi.n, reverse);
        Leave(ExecFor(k, values, body, datums, ev, s, fuel), k, s.vars[k], datums, values != [])
    case ForS(_, _, _) => Failed
    case Exit(cond) => if cond.None? || IsTrue(ev(cond.value, s.vars)) then Exited(s) else Normal(s)
    case Return(expr) => Returned(if expr.Some? then Some(ev(expr.value, s.vars)) else None, s)
    case ReturnNext(expr) =>
      if expr.Some? then Normal(s.(rows := s.rows + [ev(expr.value, s.vars)])) else Failed
    case Case(whens, elseBody) =>
      var chosen := ExecBranches(whens, datums, ev, s, fuel);
      if chosen.Some? then chosen.value
      else if elseBody.Else? then ExecList(elseBody.body, datums, ev, s, fuel) else Failed
    case Simple(_) => Failed
  }

  function ExecList(stmts: seq<Stmt>, datums: seq<Datum>, ev: PlEval, s: PlState, fuel: nat): Outcome<PlState>
    decreases fuel, stmts, 0
  {
    if stmts == [] then Normal(s) else
      var first := Exec(stmts[0], datums, ev, s, fuel);
      if first.Normal? then ExecList(stmts[1..], datums, ev, first.state, fuel) else first
  }

  /** The outcome of the first branch whose condition is true, if there is one. */
  function ExecBranches(branches: seq<Branch>, datums: seq<Datum>, ev: PlEval, s: PlState, fuel: nat)
    : Option<Outcome<PlState>>
    decreases fuel, branches, 0
  {
    if branches == [] then None
    else if IsTrue(ev(branches[0].cond, s.vars)) then Some(ExecList(branches[0].body, datums, ev, s, fuel))
    else ExecBranches(branches[1..], datums, ev, s, fuel)
  }

  /** LOOP (no condition) and WHILE. Each iteration uses one unit of fuel. */
  function ExecWhile(cond: Option<string>, body: seq<Stmt>, datums: seq<Datum>, ev: PlEval, s: PlState, fuel: nat)
    : Outcome<PlState>
    decreases fuel, body, 1
  {
    if cond.Some? && !IsTrue(ev(cond.value, s.vars)) then Normal(s)
    else if fuel == 0 then OutOfFuel
    else
      var round := ExecList(body, datums, ev, s, fuel - 1);
      if round.Normal? then ExecWhile(cond, body, datums, ev, round.state, fuel - 1)
      else if round.Exited? then Normal(round.state) else round
  }

  /** The loop counter is kept apart: assigning to the variable in the body does not change the next value. */
  function ExecFor(k: nat, values: seq<int>, body: seq<Stmt>, datums: seq<Datum>, ev: PlEval, s: PlState, fuel: nat)
    : Outcome<PlState>
    decreases fuel, body, 1 + |values|
  {
    if values == [] then Normal(s)
    else if k >= |s.vars| then Failed
    else
      var round := ExecList(body, datums, ev, s.(vars := s.vars[k := Int(values[0])]), fuel);
      if round.Normal? then ExecFor(k, values[1..], body, datums, ev, round.state, fuel)
      else if round.Exited? then Normal(round.state) else round
  }

  /** FOUND is an ordinary datum called `found`. */
  function SetFound(vars: seq<Value>, datums: seq<Datum>, found: bool): (r: seq<Value>)
    ensures |r| == |vars|
    ensures forall i :: 0 <= i < |vars| && LuaEmitter.VarName(datums, i) != "found" ==> r[i] == vars[i]
  {
    var k := DatumOf(datums, "found");
    if k < |vars| && k < |datums| then vars[k := Bool(found)] else vars
  }

  /** The FOR variable is local to its loop: the outer value is visible again afterwards. FOUND then tells whether
      the loop ran at all. */
  function Leave(o: Outcome<PlState>, k: nat, outer: Value, datums: seq<Datum>, found: bool): Outcome<PlState> {
    match o
    case Normal(s) => if k < |s.vars| then Normal(Left(s, k, outer, datums, found)) else Failed
    case Returned(v, s) => if k < |s.vars| then Returned(v, Left(s, k, outer, datums, found)) else Failed
    case _ => o
  }

  function Left(s: PlState, k: nat, outer: Value, datums: seq<Datum>, found: bool): PlState
    requires k < |s.vars|
  {
    s.(vars := SetFound(s.vars[k := outer], datums, found))
  }

  // ----- The start of a call -----

  function Argument(args: seq<Value>, i: nat): Value {
    if i < |args| then args[i] else Null
  }

  /** The variables when the arguments of the first `i` datums are bound. FOUND is false in every new call. */
  function Bound(datums: seq<Datum>, args: seq<Value>, i: nat): (vars: seq<Value>)
    ensures |vars| == |datums|
  {
    seq(|datums|, k requires 0 <= k < |datums| =>
      if k < i && datums[k].varName.Some? then Argument(args, k)
      else if datums[k].varName == Some("found") then Bool(false) else Null)
  }

  /** Evaluates the declarations from datum `i` on. Each sees the variables before it. */
  function Declare(datums: seq<Datum>, i: nat, vars: seq<Value>, ev: PlEval): (r: seq<Value>)
    requires i <= |datums| == |vars|
    ensures |r| == |datums|
    decreases |datums| - i
  {
    if i == |datums| then vars else
      var datum := datums[i];
      Declare(datums, i + 1,
              if LuaEmitter.IsLocal(datum) && datum.defaultVal.Some? then vars[i := ev(datum.defaultVal.value, vars)]
              else vars, ev)
  }

  /** The state in which the body of a function starts. Its parameters are the datums before `found`. */
  function Entry(datums: seq<Datum>, args: seq<Value>, ev: PlEval): PlState {
    var params := LuaEmitter.ParamCount(datums);
    PlState(Declare(datums, params, Bound(datums, args, params), ev), [])
  }
}
