/** What the generated Lua means: a fuel-bounded interpreter over named variables. */
module LuaSemantics {
  import opened Wrappers
  import opened Execution
  import opened LuaReader

  /** A result set is marked as one before it is returned. */
  datatype Table = Unmarked | Marked | HandedOut

  /** Variables by name, absent meaning nil, and the table `_result_set`, absent meaning nil. */
  datatype LuaState = LuaState(vars: map<string, Value>, rows: Option<seq<Value>>, table: Table)

  type LuaEval = (string, map<string, Value>) -> Value

  function Get(vars: map<string, Value>, name: string): Value {
    if name in vars then vars[name] else Null
  }

  /** Everything but nil and false counts as true. */
  predicate Truthy(v: Value) {
    v != Null && v != Bool(false)
  }

  /** What the handlers of an EXCEPTION section are tested for. */
  const READ_SQLSTATE: string := "_err and _err.sqlstate or 'P0001'"

  const RAISE_AGAIN: string := "error(_err)"

  function ForValues(first: int, last: int, down: bool): seq<int> {
    if down then Descending(first, last) else Ascending(first, last)
  }

  function Exec(tree: Lua, ev: LuaEval, s: LuaState, fuel: nat): Outcome<LuaState>
    decreases fuel, tree, 0
  {
    match tree
    case LuaIf(first, rest, otherwise) =>
      if Truthy(ev(first.cond, s.vars)) then ExecAll(first.body, ev, s, fuel) else
        var chosen := ExecBranches(rest, ev, s, fuel);
        if chosen.Some? then chosen.value
        else if otherwise.LuaElse? then ExecAll(otherwise.body, ev, s, fuel) else Normal(s)
    case LuaWhile(cond, body) => ExecWhile(cond, body, ev, s, fuel)
    case LuaFor(name, lo, hi, down, body) =>
      var first, last := ev(lo, s.vars), ev(hi, s.vars);
      if !(first.Int? && last.Int?) then Failed
      else Leave(ExecFor(name, ForValues(first.n, last.n, down), body, ev, s, fuel), name, Get(s.vars, name))
    case LuaForIn(_, _, _) => Failed
    case LuaPcall(body) => Protected(ExecAll(body, ev, s, fuel))
    case LuaFunction(_, _) => Normal(s)
    case LuaBreak => Exited(s)
    case LuaBreakIf(cond) => if Truthy(ev(cond, s.vars)) then Exited(s) else Normal(s)
    case LuaReturn(expr) =>
      if expr == Some("_result_set") then HandOut(s)
      else Returned(if expr.Some? then Some(ev(expr.value, s.vars)) else None, s)
    case LuaAssign(name, value) =>
      if name == "_result_set._is_result_set" then Mark(s, ev(value, s.vars))
      else Normal(s.(vars := s.vars[name := ev(value, s.vars)]))
    case LuaLocal(name, value) =>
      if name == "_result_set" && value == "{}" then Normal(s.(rows := Some([]), table := Unmarked))
      else if name == "_sqlstate" && value == READ_SQLSTATE then
        var code := CodeSeen(Get(s.vars, "_err"));
        if code.None? then Failed else Normal(s.(vars := s.vars[name := Text(code.value)]))
      else Normal(s.(vars := s.vars[name := ev(value, s.vars)]))
    case LuaInsert(value) => Insert(s, ev(value, s.vars))
    case LuaEnsureSet => Normal(if s.rows.None? then s.(rows := Some([])) else s)
    case LuaText(text) => if text == RAISE_AGAIN then Failed else Normal(s)
  }

  /** A field can be set on a table only. */
  function Mark(s: LuaState, v: Value): Outcome<LuaState> {
    if s.rows.None? then Failed else Normal(s.(table := if Truthy(v) then Marked else Unmarked))
  }

  /** The host takes marked tables only. */
  function HandOut(s: LuaState): Outcome<LuaState> {
    if s.rows.None? then Returned(Some(Null), s)
    else if s.table.Marked? then Returned(None, s.(table := HandedOut)) else Failed
  }

  /** `_err and _err.sqlstate or 'P0001'`: of nil and false no field is read, strings do not have this one, and reading
      a field of anything else that is no table is an error. */
  function CodeSeen(err: Value): Option<string> {
    match err
    case ErrorTable(sqlstate) => Some(sqlstate)
    case HostError => None
    case Int(_) => None
    case Bool(b) => if b then None else Some("P0001")
    case _ => Some("P0001")
  }

  /** `table.insert(t, v)` writes `t[#t + 1] = v`, so inserting nil leaves the table as it is. */
  function Insert(s: LuaState, v: Value): Outcome<LuaState> {
    if s.rows.None? then Failed
    else Normal(if v == Null then s else s.(rows := Some(s.rows.value + [v])))
  }

  /** `local _ok, _result_or_err = pcall(...)` of a function that raises no error. */
  function Protected(o: Outcome<LuaState>): Outcome<LuaState> {
    match o
    case Normal(s) => Normal(s.(vars := s.vars["_ok" := Bool(true)]["_result_or_err" := Null]))
    case Returned(v, s) => Normal(s.(vars := s.vars["_ok" := Bool(true)]["_result_or_err" := OrNull(v)]))
    case _ => o
  }

  function ExecAll(trees: seq<Lua>, ev: LuaEval, s: LuaState, fuel: nat): Outcome<LuaState>
    decreases fuel, trees, 0
  {
    if trees == [] then Normal(s) else
      var first := Exec(trees[0], ev, s, fuel);
      if first.Normal? then ExecAll(trees[1..], ev, first.state, fuel) else first
  }

  function ExecBranches(branches: seq<LuaBranch>, ev: LuaEval, s: LuaState, fuel: nat): Option<Outcome<LuaState>>
    decreases fuel, branches, 0
  {
    if branches == [] then None
    else if Truthy(ev(branches[0].cond, s.vars)) then Some(ExecAll(branches[0].body, ev, s, fuel))
    else ExecBranches(branches[1..], ev, s, fuel)
  }

  function ExecWhile(cond: string, body: seq<Lua>, ev: LuaEval, s: LuaState, fuel: nat): Outcome<LuaState>
    decreases fuel, body, 1
  {
    if !Truthy(ev(cond, s.vars)) then Normal(s)
    else if fuel == 0 then OutOfFuel
    else
      var round := ExecAll(body, ev, s, fuel - 1);
      if round.Normal? then ExecWhile(cond, body, ev, round.state, fuel - 1)
      else if round.Exited? then Normal(round.state) else round
  }

  function ExecFor(name: string, values: seq<int>, body: seq<Lua>, ev: LuaEval, s: LuaState, fuel: nat)
    : Outcome<LuaState>
    decreases fuel, body, 1 + |values|
  {
    if values == [] then Normal(s) else
      var round := ExecAll(body, ev, s.(vars := s.vars[name := Int(values[0])]), fuel);
      if round.Normal? then ExecFor(name, values[1..], body, ev, round.state, fuel)
      else if round.Exited? then Normal(round.state) else round
  }

  /** The variable of a `for` is local to it. */
  function Leave(o: Outcome<LuaState>, name: string, outer: Value): Outcome<LuaState> {
    match o
    case Normal(s) => Normal(s.(vars := s.vars[name := outer]))
    case Returned(v, s) => Returned(v, s.(vars := s.vars[name := outer]))
    case _ => o
  }

  lemma {:induction false} ExecAppend(a: seq<Lua>, b: seq<Lua>, ev: LuaEval, s: LuaState, fuel: nat)
    ensures ExecAll(a + b, ev, s, fuel)
         == (var first := ExecAll(a, ev, s, fuel);
             if first.Normal? then ExecAll(b, ev, first.state, fuel) else first)
    decreases |a|
  {
    if a == [] {
      assert a + b == b;
    } else {
      assert (a + b)[0] == a[0] && (a + b)[1..] == a[1..] + b;
      var first := Exec(a[0], ev, s, fuel);
      if first.Normal? {
        ExecAppend(a[1..], b, ev, first.state, fuel);
      }
    }
  }

  lemma ExecFirst(tree: Lua, rest: seq<Lua>, ev: LuaEval, s: LuaState, fuel: nat)
    ensures ExecAll([tree] + rest, ev, s, fuel)
         == (var first := Exec(tree, ev, s, fuel);
             if first.Normal? then ExecAll(rest, ev, first.state, fuel) else first)
  {
    assert ([tree] + rest)[1..] == rest;
  }

  lemma ExecSingle(tree: Lua, ev: LuaEval, s: LuaState, fuel: nat)
    ensures ExecAll([tree], ev, s, fuel) == Exec(tree, ev, s, fuel)
  {
  }
}
