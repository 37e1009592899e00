/** The start of a call: run from the arguments, the prologue builds the state in which PL/pgSQL starts the body. */
module FunctionEntry {
  import opened Wrappers
  import opened PlpgsqlAst
  import opened Execution
  import opened LuaEmitter
  import opened LuaReader
  import opened TranslationCorrect
  import Decimal
  import Pl = PlpgsqlSemantics
  import L = LuaSemantics

  /** The state of a Lua function before its first statement: nothing is declared, but earlier calls may have left
      global variables, by assigning to FOUND or to a variable without a name. */
  function Start(globals: map<string, Value>): LuaState {
    LuaState.LuaState(globals, None, L.Unmarked)
  }

  /** None of the globals is a variable of this function, other than FOUND. */
  ghost predicate Unshadowed(c: Setting, globals: map<string, Value>) {
    VarsMatch(c.env.datums, seq(|c.env.datums|, i => Null), globals)
  }

  function Select(n: nat): string {
    "select(" + Decimal.OfNat(n) + ", ...)"
  }

  /** In this call `select(n, ...)`, which counts from 1, yields the n-th argument; `nil` is nil. */
  ghost predicate CalledWith(c: Setting, args: seq<Value>) {
    (forall n: nat, vars :: n > 0 ==> c.lua(Select(n), vars) == Pl.Argument(args, n - 1))
    && forall vars :: c.lua("nil", vars) == Null
  }

  /** The defaults of the local variables are among the expressions of the function. */
  ghost predicate DefaultsKnown(c: Setting) {
    forall i :: ParamCount(c.env.datums) <= i < |c.env.datums| && IsLocal(c.env.datums[i]) ==>
      c.env.datums[i].defaultVal.Some? ==> c.env.datums[i].defaultVal.value in c.exprs
  }

  lemma FirstLeafRuns(line: Line, rest: seq<Line>, lua: L.LuaEval, t: LuaState, fuel: nat)
    requires AllLeaves([line] + rest)
    ensures AllLeaves([line]) && AllLeaves(rest)
    ensures var first := L.Exec(Leaf(line.code), lua, t, fuel);
            L.ExecAll(LeafTrees([line] + rest), lua, t, fuel)
              == if first.Normal? then L.ExecAll(LeafTrees(rest), lua, first.state, fuel) else first
  {
    var lines := [line] + rest;
    assert lines[0] == line && lines[1..] == rest;
    forall i | 0 <= i < |rest|
      ensures !Opens(rest[i].code) && !Terminates(rest[i].code)
    {
      assert lines[i + 1] == rest[i];
    }
    assert LeafTrees(lines)[1..] == LeafTrees(rest);
  }

  lemma LocalRuns(name: string, text: string, rest: seq<Line>, lua: L.LuaEval, t: LuaState, t1: LuaState, fuel: nat)
    requires AllLeaves(rest) && name != "_result_set" && name != "_sqlstate"
    requires t1 == t.(vars := t.vars[name := lua(text, t.vars)])
    ensures var lines := [Line(1, CodeLocal(name, text))] + rest;
            AllLeaves(lines) && L.ExecAll(LeafTrees(lines), lua, t, fuel) == L.ExecAll(LeafTrees(rest), lua, t1, fuel)
  {
    LeavesBoth([Line(1, CodeLocal(name, text))], rest);
    FirstLeafRuns(Line(1, CodeLocal(name, text)), rest, lua, t, fuel);
  }

  lemma CommentRuns(text: string, rest: seq<Line>, lua: L.LuaEval, t: LuaState, fuel: nat)
    requires AllLeaves(rest) && text != "" && text[0] == '-'
    ensures var lines := [Line(1, CodeText(text))] + rest;
            AllLeaves(lines) && L.ExecAll(LeafTrees(lines), lua, t, fuel) == L.ExecAll(LeafTrees(rest), lua, t, fuel)
  {
    LeavesBoth([Line(1, CodeText(text))], rest);
    FirstLeafRuns(Line(1, CodeText(text)), rest, lua, t, fuel);
  }

  // ----- Parameters -----

  lemma BoundStep(datums: seq<Datum>, args: seq<Value>, i: nat, luaVars: map<string, Value>)
    requires NamesDistinct(datums) && i < ParamCount(datums) && VarsMatch(datums, Pl.Bound(datums, args, i), luaVars)
    ensures var vars := Pl.Bound(datums, args, i + 1);
            if datums[i].varName.Some? then VarsMatch(datums, vars, luaVars[VarName(datums, i) := Pl.Argument(args, i)])
            else VarsMatch(datums, vars, luaVars)
  {
    var before, vars := Pl.Bound(datums, args, i), Pl.Bound(datums, args, i + 1);
    if datums[i].varName.Some? {
      UpdateMatches(datums, before, luaVars, i, Pl.Argument(args, i));
      assert vars == before[i := Pl.Argument(args, i)];
    } else {
      assert vars == before;
    }
  }

  lemma LocalIsNotReserved(datums: seq<Datum>, i: nat)
    requires NamesDistinct(datums) && i < |datums|
    ensures VarName(datums, i) != "_result_set" && VarName(datums, i) != "_sqlstate"
  {
    assert RESERVED[1] == "_result_set" && RESERVED[2] == "_sqlstate";
  }

  lemma ArgumentIsSelected(c: Setting, args: seq<Value>, i: nat, vars: map<string, Value>)
    requires CalledWith(c, args)
    ensures c.lua(ArgumentText(i), vars) == Pl.Argument(args, i)
  {
    assert ArgumentText(i) == Select(i + 1);
  }

  /** One parameter, and the state behind it. */
  lemma ParamRuns(c: Setting, args: seq<Value>, i: nat, t: LuaState, fuel: nat) returns (t1: LuaState)
    requires NamesDistinct(c.env.datums) && CalledWith(c, args) && i < ParamCount(c.env.datums)
    requires VarsMatch(c.env.datums, Pl.Bound(c.env.datums, args, i), t.vars)
    requires AllLeaves(ParamLines(c.env.datums, i, ParamCount(c.env.datums)))
    requires AllLeaves(ParamLines(c.env.datums, i + 1, ParamCount(c.env.datums)))
    ensures t1.rows == t.rows && t1.table == t.table
    ensures VarsMatch(c.env.datums, Pl.Bound(c.env.datums, args, i + 1), t1.vars)
    ensures var count := ParamCount(c.env.datums);
            L.ExecAll(LeafTrees(ParamLines(c.env.datums, i, count)), c.lua, t, fuel)
              == L.ExecAll(LeafTrees(ParamLines(c.env.datums, i + 1, count)), c.lua, t1, fuel)
  {
    var datums, count, name := c.env.datums, ParamCount(c.env.datums), VarName(c.env.datums, i);
    BoundStep(datums, args, i, t.vars);
    if datums[i].varName.Some? {
      t1 := t.(vars := t.vars[name := Pl.Argument(args, i)]);
      ArgumentIsSelected(c, args, i, t.vars);
      LocalIsNotReserved(datums, i);
      LocalRuns(name, ArgumentText(i), ParamLines(datums, i + 1, count), c.lua, t, t1, fuel);
    } else {
      t1 := t;
      assert ParamLines(datums, i, count) == ParamLines(datums, i + 1, count);
    }
  }

  lemma {:induction false} ParamsRun(c: Setting, args: seq<Value>, i: nat, t: LuaState, fuel: nat)
    requires NamesDistinct(c.env.datums) && CalledWith(c, args) && i <= ParamCount(c.env.datums)
    requires VarsMatch(c.env.datums, Pl.Bound(c.env.datums, args, i), t.vars)
    ensures var count := ParamCount(c.env.datums);
            AllLeaves(ParamLines(c.env.datums, i, count))
            && var o := L.ExecAll(LeafTrees(ParamLines(c.env.datums, i, count)), c.lua, t, fuel);
               o.Normal? && o.state.rows == t.rows && o.state.table == t.table
               && VarsMatch(c.env.datums, Pl.Bound(c.env.datums, args, count), o.state.vars)
    decreases ParamCount(c.env.datums) - i
  {
    var datums, count := c.env.datums, ParamCount(c.env.datums);
    ParamLinesAreLeaves(datums, i, count);
    if i < count {
      ParamLinesAreLeaves(datums, i + 1, count);
      var t1 := ParamRuns(c, args, i, t, fuel);
      ParamsRun(c, args, i + 1, t1, fuel);
    }
  }

  // ----- Declarations -----

  predicate UndeclaredFrom(datums: seq<Datum>, vars: seq<Value>, i: nat) {
    |vars| == |datums| && forall k :: i <= k < |datums| && IsLocal(datums[k]) ==> vars[k] == Null
  }

  lemma DeclareStep(datums: seq<Datum>, i: nat, vars: seq<Value>, ev: Pl.PlEval)
    requires i < |datums| && UndeclaredFrom(datums, vars, i) && IsLocal(datums[i])
    ensures var value := if datums[i].defaultVal.Some? then ev(datums[i].defaultVal.value, vars) else Null;
            && UndeclaredFrom(datums, vars[i := value], i + 1)
            && Pl.Declare(datums, i, vars, ev) == Pl.Declare(datums, i + 1, vars[i := value], ev)
  {
    assert datums[i].defaultVal.None? ==> vars[i := Null] == vars;
  }

  lemma DefaultEvaluates(c: Setting, i: nat, vars: seq<Value>, luaVars: map<string, Value>)
    returns (text: string, value: Value)
    requires ExprsAgree(c) && DefaultsKnown(c) && VarsMatch(c.env.datums, vars, luaVars)
    requires c.lua("nil", luaVars) == Null
    requires ParamCount(c.env.datums) <= i < |c.env.datums| && IsLocal(c.env.datums[i])
    ensures text == if c.env.datums[i].defaultVal.Some? then c.env.rhs(c.env.datums[i].defaultVal.value) else "nil"
    ensures value == if c.env.datums[i].defaultVal.Some? then c.pl(c.env.datums[i].defaultVal.value, vars) else Null
    ensures c.lua(text, luaVars) == value
  {
    var default := c.env.datums[i].defaultVal;
    text := if default.Some? then c.env.rhs(default.value) else "nil";
    value := c.lua(text, luaVars);
  }

  /** One declaration: its value, and the state behind it. */
  lemma DeclarationRuns(c: Setting, i: nat, vars: seq<Value>, t: LuaState, fuel: nat)
    returns (value: Value, t1: LuaState)
    requires NamesDistinct(c.env.datums) && ExprsAgree(c) && DefaultsKnown(c) && c.lua("nil", t.vars) == Null
    requires ParamCount(c.env.datums) <= i < |c.env.datums| && IsLocal(c.env.datums[i])
    requires VarsMatch(c.env.datums, vars, t.vars) && UndeclaredFrom(c.env.datums, vars, i)
    requires AllLeaves(LocalLines(c.env, i)) && AllLeaves(LocalLines(c.env, i + 1))
    ensures t1.rows == t.rows && t1.table == t.table && VarsMatch(c.env.datums, vars[i := value], t1.vars)
    ensures UndeclaredFrom(c.env.datums, vars[i := value], i + 1)
    ensures Pl.Declare(c.env.datums, i, vars, c.pl) == Pl.Declare(c.env.datums, i + 1, vars[i := value], c.pl)
    ensures L.ExecAll(LeafTrees(LocalLines(c.env, i)), c.lua, t, fuel)
         == L.ExecAll(LeafTrees(LocalLines(c.env, i + 1)), c.lua, t1, fuel)
  {
    var datums, name, text := c.env.datums, VarName(c.env.datums, i), "";
    text, value := DefaultEvaluates(c, i, vars, t.vars);
    t1 := t.(vars := t.vars[name := value]);
    UpdateMatches(datums, vars, t.vars, i, value);
    DeclareStep(datums, i, vars, c.pl);
    LocalIsNotReserved(datums, i);
    LocalRuns(name, text, LocalLines(c.env, i + 1), c.lua, t, t1, fuel);
  }

  lemma {:induction false} LocalsRun(c: Setting, i: nat, vars: seq<Value>, t: LuaState, fuel: nat)
    requires NamesDistinct(c.env.datums) && ExprsAgree(c) && DefaultsKnown(c)
    requires ParamCount(c.env.datums) <= i <= |c.env.datums|
    requires forall luaVars :: c.lua("nil", luaVars) == Null
    requires VarsMatch(c.env.datums, vars, t.vars) && UndeclaredFrom(c.env.datums, vars, i)
    ensures AllLeaves(LocalLines(c.env, i))
            && var o := L.ExecAll(LeafTrees(LocalLines(c.env, i)), c.lua, t, fuel);
               o.Normal? && o.state.rows == t.rows && o.state.table == t.table
               && VarsMatch(c.env.datums, Pl.Declare(c.env.datums, i, vars, c.pl), o.state.vars)
    decreases |c.env.datums| - i
  {
    var datums := c.env.datums;
    LocalLinesAreLeaves(c.env, i);
    if i < |datums| {
      LocalLinesAreLeaves(c.env, i + 1);
      if IsLocal(datums[i]) {
        var value, t1 := DeclarationRuns(c, i, vars, t, fuel);
        LocalsRun(c, i + 1, vars[i := value], t1, fuel);
      } else {
        assert LocalLines(c.env, i) == LocalLines(c.env, i + 1);
        LocalsRun(c, i + 1, vars, t, fuel);
      }
    }
  }

  // ----- The prologue -----

  lemma StartMatches(c: Setting, args: seq<Value>, globals: map<string, Value>)
    requires Unshadowed(c, globals)
    ensures VarsMatch(c.env.datums, Pl.Bound(c.env.datums, args, 0), globals)
  {
  }

  lemma ParameterPartRuns(c: Setting, args: seq<Value>, globals: map<string, Value>, fuel: nat)
    requires Unshadowed(c, globals)
    requires NamesDistinct(c.env.datums) && CalledWith(c, args)
    ensures AllLeaves(ParameterPart(c.env))
            && var o := L.ExecAll(LeafTrees(ParameterPart(c.env)), c.lua, Start(globals), fuel);
               o.Normal? && o.state.rows == None && o.state.table.Unmarked?
               && VarsMatch(c.env.datums, Pl.Bound(c.env.datums, args, ParamCount(c.env.datums)), o.state.vars)
  {
    StartMatches(c, args, globals);
    if ParamCount(c.env.datums) > 0 {
      ParamsRun(c, args, 0, Start(globals), fuel);
      CommentRuns("-- Parameters", ParamLines(c.env.datums, 0, ParamCount(c.env.datums)), c.lua, Start(globals), fuel);
    }
  }

  lemma DeclarationPartRuns(c: Setting, vars: seq<Value>, t: LuaState, fuel: nat)
    requires NamesDistinct(c.env.datums) && ExprsAgree(c) && DefaultsKnown(c)
    requires forall luaVars :: c.lua("nil", luaVars) == Null
    requires VarsMatch(c.env.datums, vars, t.vars) && UndeclaredFrom(c.env.datums, vars, ParamCount(c.env.datums))
    ensures AllLeaves(DeclarationPart(c.env))
            && var o := L.ExecAll(LeafTrees(DeclarationPart(c.env)), c.lua, t, fuel);
               o.Normal? && o.state.rows == t.rows && o.state.table == t.table
               && VarsMatch(c.env.datums, Pl.Declare(c.env.datums, ParamCount(c.env.datums), vars, c.pl), o.state.vars)
  {
    var locals := LocalLines(c.env, ParamCount(c.env.datums));
    LocalsRun(c, ParamCount(c.env.datums), vars, t, fuel);
    if locals != [] {
      CommentRuns("-- Local variables", locals, c.lua, t, fuel);
    }
  }

  lemma TwoPartsRun(a: seq<Line>, b: seq<Line>, lua: L.LuaEval, t: LuaState, fuel: nat)
    requires AllLeaves(a) && AllLeaves(b)
    ensures AllLeaves(a + b)
    ensures var first := L.ExecAll(LeafTrees(a), lua, t, fuel);
            L.ExecAll(LeafTrees(a + b), lua, t, fuel)
              == if first.Normal? then L.ExecAll(LeafTrees(b), lua, first.state, fuel) else first
  {
    LeavesBoth(a, b);
    assert LeafTrees(a + b) == LeafTrees(a) + LeafTrees(b);
    L.ExecAppend(LeafTrees(a), LeafTrees(b), lua, t, fuel);
  }

  lemma DeclarationsRun(c: Setting, args: seq<Value>, globals: map<string, Value>, fuel: nat)
    requires Unshadowed(c, globals)
    requires NamesDistinct(c.env.datums) && ExprsAgree(c) && DefaultsKnown(c) && CalledWith(c, args)
    ensures var lines := ParameterPart(c.env) + DeclarationPart(c.env);
            AllLeaves(lines)
            && var o := L.ExecAll(LeafTrees(lines), c.lua, Start(globals), fuel);
               o.Normal? && o.state.rows == None && o.state.table.Unmarked?
               && VarsMatch(c.env.datums, Pl.Entry(c.env.datums, args, c.pl).vars, o.state.vars)
  {
    ParameterPartRuns(c, args, globals, fuel);
    DeclarationPartRuns(c, Pl.Bound(c.env.datums, args, ParamCount(c.env.datums)),
                        L.ExecAll(LeafTrees(ParameterPart(c.env)), c.lua, Start(globals), fuel).state, fuel);
    TwoPartsRun(ParameterPart(c.env), DeclarationPart(c.env), c.lua, Start(globals), fuel);
  }

  const TABLE: seq<Line> := [Line(1, CodeLocal("_result_set", "{}"))]

  lemma TableRuns(lua: L.LuaEval, t: LuaState, fuel: nat)
    ensures AllLeaves(TABLE)
    ensures L.ExecAll(LeafTrees(TABLE), lua, t, fuel) == Normal(t.(rows := Some([]), table := L.Unmarked))
  {
    assert LeafTrees(TABLE) == [LuaLocal("_result_set", "{}")];
    L.ExecSingle(LuaLocal("_result_set", "{}"), lua, t, fuel);
  }

  /** Behind its prologue the Lua function is in a state that matches the one in which PL/pgSQL starts the body:
      parameters hold their arguments, local variables their defaults, and the result set is empty. */
  lemma {:induction false} PrologueRuns(c: Setting, args: seq<Value>, globals: map<string, Value>, fuel: nat)
    requires Unshadowed(c, globals)
    requires NamesDistinct(c.env.datums) && ExprsAgree(c) && DefaultsKnown(c) && CalledWith(c, args)
    ensures AllLeaves(PrologueLines(c.env))
            && var o := L.ExecAll(LeafTrees(PrologueLines(c.env)), c.lua, Start(globals), fuel);
               o.Normal? && Matches(c, Pl.Entry(c.env.datums, args, c.pl), o.state)
  {
    var lines := ParameterPart(c.env) + DeclarationPart(c.env);
    DeclarationsRun(c, args, globals, fuel);
    if c.env.isSetof {
      TwoPartsRun(lines, TABLE, c.lua, Start(globals), fuel);
      TableRuns(c.lua, L.ExecAll(LeafTrees(lines), c.lua, Start(globals), fuel).state, fuel);
    } else {
      assert PrologueLines(c.env) == lines;
    }
  }
}
