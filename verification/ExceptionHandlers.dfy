/** Which handler of an EXCEPTION section runs: PostgreSQL's choice by condition names, and that of the emitted
    chain. */
module ExceptionHandlers {
  import opened Sequences
  import opened Wrappers
  import opened PlpgsqlAst
  import opened Execution
  import opened LuaEmitter
  import opened LuaReader
  import opened TranslationCorrect
  import L = LuaSemantics

  // ----- PostgreSQL -----

  /** PostgreSQL's condition names (Appendix A of its manual) with their codes; some names have several. */
  type Conditions = map<string, set<string>>

  predicate IsCode(code: string) {
    |code| == 5
  }

  /** A code that ends in 000 is a class and covers all codes that begin alike. */
  predicate IsClass(code: string) {
    IsCode(code) && code[2..] == "000"
  }

  predicate Covers(base: string, code: string)
    requires IsCode(code)
  {
    code == base || (IsClass(base) && code[..2] == base[..2])
  }

  /** OTHERS in either spelling; PL/pgSQL's scanner makes it lower case. */
  predicate IsCatchAll(name: string) {
    name == "others" || name == "OTHERS"
  }

  const QUERY_CANCELED := "57014"
  const ASSERT_FAILURE := "P0004"

  /** OTHERS leaves out two codes, and a condition given as SQLSTATE is a code itself. */
  predicate StandsFor(table: Conditions, name: string, code: string)
    requires IsCode(code)
  {
    if IsCatchAll(name) then code != QUERY_CANCELED && code != ASSERT_FAILURE
    else if name in table then exists base :: base in table[name] && Covers(base, code)
    else Covers(name, code)
  }

  predicate Catches(table: Conditions, handler: Handler, code: string)
    requires IsCode(code)
  {
    exists i :: 0 <= i < |handler.conditions| && StandsFor(table, handler.conditions[i], code)
  }

  /** The first handler that catches the error, or the number of handlers. */
  function PgHandler(table: Conditions, handlers: seq<Handler>, code: string): (k: nat)
    requires IsCode(code)
    ensures k <= |handlers| && (k < |handlers| ==> Catches(table, handlers[k], code))
    ensures forall i :: 0 <= i < k ==> !Catches(table, handlers[i], code)
  {
    if handlers == [] || Catches(table, handlers[0], code) then 0 else 1 + PgHandler(table, handlers[1..], code)
  }

  // ----- Errors -----

  /** Where an error comes from: a division by zero in an expression that the translator wrapped, RAISE EXCEPTION, a
      failing SQL statement, or Lua itself. All but the first with the code that PostgreSQL gives them. */
  datatype Error = DivisionByZero | Raised(code: string) | SqlFailure(code: string) | ScriptFailure(code: string)
  {
    function Code(): string {
      if DivisionByZero? then DIVISION_BY_ZERO else this.code
    }
  }

  const DIVISION_BY_ZERO := "22012"
  const RAISE_EXCEPTION := "P0001"

  /** What Lua's binding makes of an error of the host program, RAISE and SQL among them: its message, or an object. */
  predicate IsHostValue(host: Value) {
    host.Text? || host.HostError?
  }

  /** What the protected call catches. Only the division is raised as a table with a code; RAISE puts the code into the
      text of a message. */
  function Caught(e: Error, host: Value): Value {
    match e
    case DivisionByZero => ErrorTable(DIVISION_BY_ZERO)
    case ScriptFailure(_) => Text("script error")
    case _ => host
  }

  /** The code by which the handlers are tested, if it can be read at all. */
  function Seen(e: Error, host: Value): Option<string> {
    L.CodeSeen(Caught(e, host))
  }

  // ----- The emitted chain -----

  /** The first handler whose test succeeds, or the number of handlers. */
  function LuaHandler(handlers: seq<Handler>, code: string): (k: nat)
    ensures k <= |handlers| && (k < |handlers| ==> TestedCode(handlers[k]) == code)
    ensures forall i :: 0 <= i < k ==> TestedCode(handlers[i]) != code
  {
    if handlers == [] || TestedCode(handlers[0]) == code then 0 else 1 + LuaHandler(handlers[1..], code)
  }

  /** The handler that runs on an error, or the number of handlers. */
  function HandlerRun(handlers: seq<Handler>, e: Error, host: Value): (k: nat) {
    var code := Seen(e, host);
    if code.Some? then LuaHandler(handlers, code.value) else |handlers|
  }

  function Equals(code: string): string {
    "_sqlstate == '" + code + "'"
  }

  ghost predicate TestsEvaluate(c: Setting) {
    (forall code, vars :: c.lua(Equals(code), vars) == Bool(L.Get(vars, "_sqlstate") == Text(code)))
    && (forall vars :: c.lua("not _ok", vars) == Bool(!L.Truthy(L.Get(vars, "_ok"))))
    && forall vars :: c.lua("_result_or_err", vars) == L.Get(vars, "_result_or_err")
  }

  lemma TestEvaluates(handler: Handler, c: Setting)
    requires TestsEvaluate(c)
    ensures forall vars ::
      c.lua(HandlerTest(handler), vars) == Bool(L.Get(vars, "_sqlstate") == Text(TestedCode(handler)))
  {
    assert HandlerTest(handler) == Equals(TestedCode(handler));
  }

  lemma {:induction false} HandlerBranchesRun(handlers: seq<Handler>, code: string, c: Setting, t: LuaState, fuel: nat)
    requires TestsEvaluate(c) && L.Get(t.vars, "_sqlstate") == Text(code)
    ensures var k := LuaHandler(handlers, code);
            L.ExecBranches(HandlerTrees(handlers, c.env), c.lua, t, fuel)
              == if k < |handlers| then Some(L.ExecAll(ListTrees(handlers[k].action, c.env), c.lua, t, fuel)) else None
    decreases |handlers|
  {
    if handlers != [] {
      HandlerBranchesRun(handlers[1..], code, c, t, fuel);
      TestEvaluates(handlers[0], c);
      assert HandlerTrees(handlers, c.env)[1..] == HandlerTrees(handlers[1..], c.env);
    }
  }

  function HandlerChain(handlers: seq<Handler>, env: Env): Lua
    requires handlers != []
  {
    LuaIf(HandlerTree(handlers[0], env), HandlerTrees(handlers[1..], env), Rethrow(handlers))
  }

  /** What the chain does about a code that is seen. */
  function ChainOutcome(handlers: seq<Handler>, code: string, c: Setting, t: LuaState, fuel: nat): Outcome<LuaState> {
    var k := LuaHandler(handlers, code);
    if k < |handlers| then L.ExecAll(ListTrees(handlers[k].action, c.env), c.lua, t, fuel)
    else if CatchesOthers(handlers) then Normal(t) else Failed
  }

  lemma RethrowFails(handlers: seq<Handler>, c: Setting, t: LuaState, fuel: nat)
    requires Rethrow(handlers).LuaElse?
    ensures L.ExecAll(Rethrow(handlers).body, c.lua, t, fuel) == Failed
  {
    L.ExecSingle(LuaText("error(_err)"), c.lua, t, fuel);
  }

  /** The emitted chain runs the first handler whose one tested code is the one seen. If there is none, a chain with
      `OTHERS` goes on as if nothing had happened, and any other raises the error again. */
  lemma {:induction false} HandlerChainRuns(handlers: seq<Handler>, code: string, c: Setting, t: LuaState, fuel: nat)
    requires handlers != [] && TestsEvaluate(c) && L.Get(t.vars, "_sqlstate") == Text(code)
    ensures L.Exec(HandlerChain(handlers, c.env), c.lua, t, fuel) == ChainOutcome(handlers, code, c, t, fuel)
  {
    HandlerBranchesRun(handlers[1..], code, c, t, fuel);
    TestEvaluates(handlers[0], c);
    if Rethrow(handlers).LuaElse? {
      RethrowFails(handlers, c, t, fuel);
    }
  }

  /** The five lines in front of the chain, from a caught error. */
  lemma ErrorIsRead(c: Setting, t: LuaState, fuel: nat)
    requires TestsEvaluate(c)
    ensures var code, o := L.CodeSeen(L.Get(t.vars, "_result_or_err")), L.ExecAll(ERROR_TREES, c.lua, t, fuel);
            if code.None? then o == Failed
            else o.Normal? && o.state.rows == t.rows && L.Get(o.state.vars, "_sqlstate") == Text(code.value)
  {
    var rest := ERROR_TREES[2..];
    var t1 := t.(vars := t.vars["_err" := L.Get(t.vars, "_result_or_err")]);
    assert ERROR_TREES == [ERROR_TREES[0]] + ([ERROR_TREES[1]] + rest);
    L.ExecFirst(ERROR_TREES[0], [ERROR_TREES[1]] + rest, c.lua, t, fuel);
    L.ExecFirst(ERROR_TREES[1], rest, c.lua, t1, fuel);
    var code := L.CodeSeen(L.Get(t.vars, "_result_or_err"));
    if code.Some? {
      RestOfErrorIsRead(c, t1.(vars := t1.vars["_sqlstate" := Text(code.value)]), fuel);
    }
  }

  lemma RestOfErrorIsRead(c: Setting, t: LuaState, fuel: nat)
    ensures var o := L.ExecAll(ERROR_TREES[2..], c.lua, t, fuel);
            o.Normal? && o.state.rows == t.rows && L.Get(o.state.vars, "_sqlstate") == L.Get(t.vars, "_sqlstate")
  {
    var a, b, d := ERROR_TREES[2], ERROR_TREES[3], ERROR_TREES[4];
    var t1 := L.Exec(a, c.lua, t, fuel).state;
    var t2 := L.Exec(b, c.lua, t1, fuel).state;
    assert ERROR_TREES[2..] == [a] + ([b] + [d]);
    L.ExecFirst(a, [b] + [d], c.lua, t, fuel);
    L.ExecFirst(b, [d], c.lua, t1, fuel);
    L.ExecSingle(d, c.lua, t2, fuel);
  }

  /** Behind the protected call, with the error it has caught: the code is read, and the chain runs. A host object has
      no fields, so reading it fails, and no handler runs. */
  lemma {:induction false} FailureBranchRuns(body: seq<Stmt>, handlers: seq<Handler>, e: Error, host: Value, c: Setting,
                                             t: LuaState, fuel: nat)
    requires handlers != [] && TestsEvaluate(c) && IsHostValue(host)
    requires L.Get(t.vars, "_ok") == Bool(false) && L.Get(t.vars, "_result_or_err") == Caught(e, host)
    ensures var test, read := Trees(Block(body, Handlers(handlers)), c.env)[1], L.ExecAll(ERROR_TREES, c.lua, t, fuel);
            match Seen(e, host)
            case None => L.Exec(test, c.lua, t, fuel) == Failed
            case Some(code) =>
              read.Normal? && L.Exec(test, c.lua, t, fuel) == ChainOutcome(handlers, code, c, read.state, fuel)
  {
    var chain := HandlerChain(handlers, c.env);
    ErrorIsRead(c, t, fuel);
    L.ExecAppend(ERROR_TREES, [chain], c.lua, t, fuel);
    var read := L.ExecAll(ERROR_TREES, c.lua, t, fuel);
    if read.Normal? {
      L.ExecSingle(chain, c.lua, read.state, fuel);
      HandlerChainRuns(handlers, Seen(e, host).value, c, read.state, fuel);
    }
  }

  // ----- Where they agree -----

  predicate TestedUpTo(handlers: seq<Handler>, i: nat, code: string)
    requires i < |handlers|
  {
    exists j :: 0 <= j <= i && TestedCode(handlers[j]) == code
  }

  predicate CaughtUpTo(table: Conditions, handlers: seq<Handler>, i: nat, code: string)
    requires i < |handlers| && IsCode(code)
  {
    exists j :: 0 <= j <= i && Catches(table, handlers[j], code)
  }

  /** Handlers that catch the code stand behind, or are, one that tests for what is seen of the error, and the other way
      round. */
  predicate Corresponds(table: Conditions, handlers: seq<Handler>, code: string, seen: Option<string>)
    requires IsCode(code)
  {
    forall i :: 0 <= i < |handlers| ==>
      (Catches(table, handlers[i], code) ==> seen.Some? && TestedUpTo(handlers, i, seen.value))
      && (seen.Some? && TestedCode(handlers[i]) == seen.value ==> CaughtUpTo(table, handlers, i, code))
  }

  predicate Agree(table: Conditions, handlers: seq<Handler>, e: Error, host: Value)
    requires IsCode(e.Code())
  {
    PgHandler(table, handlers, e.Code()) == HandlerRun(handlers, e, host)
  }

  /** Whatever PostgreSQL's names stand for: on a given error the handler that PL/pgSQL runs is run exactly if those
      that catch its code correspond to those that test for what is seen of it. */
  lemma {:induction false} HandlersAgreeIff(table: Conditions, handlers: seq<Handler>, e: Error, host: Value)
    requires IsCode(e.Code())
    ensures Agree(table, handlers, e, host) <==> Corresponds(table, handlers, e.Code(), Seen(e, host))
  {
    if Agree(table, handlers, e, host) {
      AgreeingCorresponds(table, handlers, e, host);
    }
    if Corresponds(table, handlers, e.Code(), Seen(e, host)) {
      var p, k := PgHandler(table, handlers, e.Code()), HandlerRun(handlers, e, host);
      if p < |handlers| {
        assert TestedUpTo(handlers, p, Seen(e, host).value);
      }
      if k < |handlers| {
        assert CaughtUpTo(table, handlers, k, e.Code());
      }
    }
  }

  lemma AgreeingCorresponds(table: Conditions, handlers: seq<Handler>, e: Error, host: Value)
    requires IsCode(e.Code()) && Agree(table, handlers, e, host)
    ensures Corresponds(table, handlers, e.Code(), Seen(e, host))
  {
    var code, seen, k := e.Code(), Seen(e, host), HandlerRun(handlers, e, host);
    forall i | 0 <= i < |handlers| && Catches(table, handlers[i], code)
      ensures seen.Some? && TestedUpTo(handlers, i, seen.value)
    {
      assert k <= i && TestedCode(handlers[k]) == seen.value;
    }
    forall i | 0 <= i < |handlers| && seen.Some? && TestedCode(handlers[i]) == seen.value
      ensures CaughtUpTo(table, handlers, i, code)
    {
      assert k <= i && Catches(table, handlers[k], code);
    }
  }

  ghost predicate CatchesNothing(table: Conditions, handler: Handler) {
    forall code :: IsCode(code) ==> !Catches(table, handler, code)
  }

  /** Neither of the two codes that can be seen. */
  predicate TestsForNothing(handler: Handler) {
    TestedCode(handler) != DIVISION_BY_ZERO && TestedCode(handler) != RAISE_EXCEPTION
  }

  ghost predicate NothingCaught(table: Conditions, handlers: seq<Handler>) {
    forall i :: 0 <= i < |handlers| ==> CatchesNothing(table, handlers[i]) && TestsForNothing(handlers[i])
  }

  lemma NothingToRun(table: Conditions, handlers: seq<Handler>, e: Error, host: Value)
    requires IsCode(e.Code()) && IsHostValue(host) && NothingCaught(table, handlers)
    ensures Agree(table, handlers, e, host)
  {
    var seen := Seen(e, host);
    assert forall i :: 0 <= i < |handlers| ==> !Catches(table, handlers[i], e.Code());
    assert seen.Some? ==> seen.value == DIVISION_BY_ZERO || seen.value == RAISE_EXCEPTION;
    assert forall i :: 0 <= i < |handlers| && seen.Some? ==> TestedCode(handlers[i]) != seen.value;
  }

  ghost predicate AllAgree(table: Conditions, handlers: seq<Handler>, host: Value) {
    forall e: Error :: IsCode(e.Code()) ==> Agree(table, handlers, e, host)
  }

  lemma TwoCodesOneHandler(handlers: seq<Handler>, a: string, b: string)
    requires a != b && LuaHandler(handlers, a) == LuaHandler(handlers, b)
    ensures LuaHandler(handlers, a) == |handlers|
  {
  }

  /** RAISE with any code is seen as one and the same. */
  lemma NoHandlerRuns(table: Conditions, handlers: seq<Handler>, host: Value)
    requires IsHostValue(host) && AllAgree(table, handlers, host)
    ensures LuaHandler(handlers, DIVISION_BY_ZERO) == LuaHandler(handlers, RAISE_EXCEPTION) == |handlers|
  {
    DivisionAgrees(table, handlers, host);
    assert DIVISION_BY_ZERO != RAISE_EXCEPTION by {
      assert DIVISION_BY_ZERO[0] == '2' && RAISE_EXCEPTION[0] == 'P';
    }
    TwoCodesOneHandler(handlers, DIVISION_BY_ZERO, RAISE_EXCEPTION);
  }

  lemma DivisionAgrees(table: Conditions, handlers: seq<Handler>, host: Value)
    requires AllAgree(table, handlers, host)
    ensures LuaHandler(handlers, DIVISION_BY_ZERO) == LuaHandler(handlers, RAISE_EXCEPTION)
  {
    var a, b := DivisionByZero, ScriptFailure(DIVISION_BY_ZERO);
    assert IsCode(a.Code()) && IsCode(b.Code());
    assert Agree(table, handlers, a, host) && Agree(table, handlers, b, host);
    assert Seen(a, host) == Some(DIVISION_BY_ZERO) && Seen(b, host) == Some(RAISE_EXCEPTION);
  }

  lemma RaisedIsNotCaught(table: Conditions, handlers: seq<Handler>, host: Value, code: string)
    requires IsHostValue(host) && AllAgree(table, handlers, host) && IsCode(code)
    requires LuaHandler(handlers, RAISE_EXCEPTION) == |handlers|
    ensures PgHandler(table, handlers, code) == |handlers|
  {
    assert Raised(code).Code() == code;
    assert Agree(table, handlers, Raised(code), host);
  }

  /** A section that catches anything at all goes wrong on some error: RAISE can give it any code, and whatever that is,
      what is seen of it is the same. */
  lemma {:induction false} AllErrorsAgreeIff(table: Conditions, handlers: seq<Handler>, host: Value)
    requires IsHostValue(host)
    ensures AllAgree(table, handlers, host) <==> NothingCaught(table, handlers)
  {
    if NothingCaught(table, handlers) {
      forall e: Error | IsCode(e.Code())
        ensures Agree(table, handlers, e, host)
      {
        NothingToRun(table, handlers, e, host);
      }
    }
    if AllAgree(table, handlers, host) {
      NoHandlerRuns(table, handlers, host);
      forall i, code | 0 <= i < |handlers| && IsCode(code)
        ensures !Catches(table, handlers[i], code)
      {
        RaisedIsNotCaught(table, handlers, host, code);
      }
    }
  }

  // ----- Names that the translator maps -----

  /** A name with one code of its own, to which the translator maps it. */
  predicate IsMapped(table: Conditions, name: string) {
    !IsCatchAll(name) && name in table && table[name] == {SqlState(name)} && IsCode(SqlState(name))
    && !IsClass(SqlState(name))
  }

  predicate Tested(handlers: seq<Handler>, code: string) {
    exists i :: 0 <= i < |handlers| && TestedCode(handlers[i]) == code
  }

  /** Handlers with one mapped name each are chosen rightly on a division by zero. Of any other error nothing but P0001,
      or nothing at all, is seen: they are chosen rightly exactly if that is its code, or no handler is concerned. */
  lemma {:induction false} MappedNamesAgreeIff(table: Conditions, handlers: seq<Handler>, e: Error, host: Value)
    requires forall h :: h in handlers ==> |h.conditions| == 1 && IsMapped(table, h.conditions[0])
    requires IsCode(e.Code()) && IsHostValue(host)
    ensures Agree(table, handlers, e, host)
       <==> match Seen(e, host)
            case None => !Tested(handlers, e.Code())
            case Some(seen) => seen == e.Code() || (!Tested(handlers, e.Code()) && !Tested(handlers, seen))
    ensures Seen(DivisionByZero, host) == Some(DIVISION_BY_ZERO)
  {
    SameByCode(table, handlers, e.Code());
    var k := LuaHandler(handlers, e.Code());
    assert Tested(handlers, e.Code()) <==> k < |handlers|;
    if Seen(e, host).Some? {
      var m := LuaHandler(handlers, Seen(e, host).value);
      assert Tested(handlers, Seen(e, host).value) <==> m < |handlers|;
    }
  }

  lemma {:induction false} SameByCode(table: Conditions, handlers: seq<Handler>, code: string)
    requires forall h :: h in handlers ==> |h.conditions| == 1 && IsMapped(table, h.conditions[0])
    requires IsCode(code)
    ensures PgHandler(table, handlers, code) == LuaHandler(handlers, code)
  {
    if handlers != [] {
      assert handlers[0] in handlers && forall h :: h in handlers[1..] ==> h in handlers;
      OneCode(table, handlers[0]);
      SameByCode(table, handlers[1..], code);
    }
  }

  lemma OneCode(table: Conditions, handler: Handler)
    requires |handler.conditions| == 1 && IsMapped(table, handler.conditions[0])
    ensures IsCode(TestedCode(handler))
    ensures forall code :: IsCode(code) ==> (Catches(table, handler, code) <==> code == TestedCode(handler))
  {
    forall code | IsCode(code)
      ensures Catches(table, handler, code) <==> code == TestedCode(handler)
    {
      assert SqlState(handler.conditions[0]) in table[handler.conditions[0]];
      assert Covers(TestedCode(handler), code) <==> code == TestedCode(handler);
      assert StandsFor(table, handler.conditions[0], code) <==> code == TestedCode(handler);
    }
  }

  /** The codes that PostgreSQL gives to the names that the translator maps. */
  predicate IsPostgres(table: Conditions) {
    && "division_by_zero" in table && table["division_by_zero"] == {"22012"}
    && "unique_violation" in table && table["unique_violation"] == {"23505"}
    && "foreign_key_violation" in table && table["foreign_key_violation"] == {"23503"}
    && "check_violation" in table && table["check_violation"] == {"23514"}
    && "not_null_violation" in table && table["not_null_violation"] == {"23502"}
    && "no_data_found" in table && table["no_data_found"] == {"P0002"}
    && "too_many_rows" in table && table["too_many_rows"] == {"P0003"}
    && "raise_exception" in table && table["raise_exception"] == {"P0001"}
  }

  const MAPPED_NAMES := ["division_by_zero", "unique_violation", "foreign_key_violation", "check_violation",
                         "not_null_violation", "no_data_found", "too_many_rows", "raise_exception"]

  lemma MappedName(table: Conditions, name: string, code: string)
    requires name in table && table[name] == {code} && SqlState(name) == code
    requires |name| > 6 && |code| == 5 && code[4] != '0'
    ensures IsMapped(table, name)
  {
    assert code[2..][2] == code[4] && "000"[2] == '0';
    assert |"others"| == |"OTHERS"| == 6;
  }

  /** Each of the eight is mapped to its own code. */
  lemma MappedNamesAreRight(table: Conditions)
    requires IsPostgres(table)
    ensures forall i :: 0 <= i < |MAPPED_NAMES| ==> IsMapped(table, MAPPED_NAMES[i])
  {
    MappedName(table, "division_by_zero", "22012");
    MappedName(table, "unique_violation", "23505");
    MappedName(table, "foreign_key_violation", "23503");
    MappedName(table, "check_violation", "23514");
    MappedName(table, "not_null_violation", "23502");
    MappedName(table, "no_data_found", "P0002");
    MappedName(table, "too_many_rows", "P0003");
    MappedName(table, "raise_exception", "P0001");
  }

  /** The handler for a violated UNIQUE constraint does not run on one, whether RAISE or SQL reports it. */
  lemma UniqueViolationIsMissed(table: Conditions, action: seq<Stmt>, e: Error, host: Value)
    requires "unique_violation" in table && table["unique_violation"] == {"23505"}
    requires e == Raised("23505") || e == SqlFailure("23505")
    requires IsHostValue(host)
    ensures PgHandler(table, [Handler(["unique_violation"], action)], e.Code()) == 0
    ensures HandlerRun([Handler(["unique_violation"], action)], e, host) == 1
  {
    var handler := Handler(["unique_violation"], action);
    assert |"unique_violation"| == 16 && |"others"| == |"OTHERS"| == 6;
    assert SqlState("unique_violation") == "23505";
    assert "23505"[2..][0] == '5' && "000"[0] == '0' && "23505"[0] == '2' && RAISE_EXCEPTION[0] == 'P';
    OneCode(table, handler);
    assert Catches(table, handler, "23505") && [handler][1..] == [];
  }

  /** A name that the translator does not know is tested as if it were a code: its handler does not run even if the code
      is seen. */
  lemma UnmappedNameIsMissed(table: Conditions, name: string, code: string, action: seq<Stmt>)
    requires name in table && !IsCatchAll(name) && code in table[name] && IsCode(code) && SqlState(name) == name != code
    ensures PgHandler(table, [Handler([name], action)], code) == 0
    ensures LuaHandler([Handler([name], action)], code) == 1
  {
    var handler := Handler([name], action);
    assert Covers(code, code);
    assert StandsFor(table, handler.conditions[0], code);
    assert [handler][1..] == [];
  }

  /** For example `WHEN undefined_table` and its code 42P01. */
  lemma UndefinedTableIsMissed(table: Conditions, action: seq<Stmt>)
    requires "undefined_table" in table && table["undefined_table"] == {"42P01"}
    ensures PgHandler(table, [Handler(["undefined_table"], action)], "42P01") == 0
    ensures LuaHandler([Handler(["undefined_table"], action)], "42P01") == 1
  {
    assert |"undefined_table"| == 15 && |"others"| == |"OTHERS"| == 6;
    assert SqlState("undefined_table") == "undefined_table";
    UnmappedNameIsMissed(table, "undefined_table", "42P01", action);
  }

  /** A second condition is never tested: its handler does not run even if the code is seen. */
  lemma SecondConditionIsMissed(table: Conditions, a: string, b: string, action: seq<Stmt>)
    requires IsMapped(table, a) && IsMapped(table, b) && SqlState(a) != SqlState(b)
    ensures PgHandler(table, [Handler([a, b], action)], SqlState(b)) == 0
    ensures LuaHandler([Handler([a, b], action)], SqlState(b)) == 1
  {
    var handler := Handler([a, b], action);
    assert Covers(SqlState(b), SqlState(b)) && handler.conditions[1] == b;
    assert StandsFor(table, handler.conditions[1], SqlState(b));
    assert [handler][1..] == [];
  }

  // ----- OTHERS and classes -----

  /** A handler for OTHERS does not run on any code. In lower case, as PL/pgSQL's scanner delivers it, the error is
      raised again; in upper case it is swallowed. */
  lemma OthersNeverRuns(action: seq<Stmt>, code: string, c: Setting, t: LuaState, fuel: nat)
    requires IsCode(code)
    ensures ChainOutcome([Handler(["others"], action)], code, c, t, fuel) == Failed
    ensures ChainOutcome([Handler(["OTHERS"], action)], code, c, t, fuel) == Normal(t)
  {
    var lower, upper := Handler(["others"], action), Handler(["OTHERS"], action);
    assert |"others"| == 6 && |"OTHERS"| == 6 && "others"[0] == 'o' && "OTHERS"[0] == 'O';
    assert [lower][1..] == [] && [upper][1..] == [];
    assert TestedCode(lower) == "others" && TestedCode(upper) == "OTHERS";
    assert [upper][0].conditions[0] == "OTHERS";
  }

  /** The condition stands for every code that begins with the two characters. */
  ghost predicate IsWide(table: Conditions, name: string, start: string) {
    |start| == 2 && forall code :: IsCode(code) && code[..2] == start ==> StandsFor(table, name, code)
  }

  lemma CatchAllIsWide(table: Conditions, name: string)
    requires IsCatchAll(name)
    ensures IsWide(table, name, "ZZ")
  {
    assert QUERY_CANCELED[0] == '5' && ASSERT_FAILURE[0] == 'P' && "ZZ"[0] == 'Z';
    forall code | IsCode(code) && code[..2] == "ZZ"
      ensures StandsFor(table, name, code)
    {
      assert code[0] == code[..2][0];
    }
  }

  lemma ClassIsWide(table: Conditions, name: string, base: string)
    requires !IsCatchAll(name) && name in table && base in table[name] && IsClass(base)
    ensures IsWide(table, name, base[..2])
  {
  }

  function CodeIn(start: string, k: nat): (code: string)
    requires |start| == 2 && k < 50_000
    ensures IsCode(code) && code[..2] == start && code[2] == (0x41 + k) as char
  {
    start + [(0x41 + k) as char] + "AA"
  }

  lemma {:induction false} WideConditionIsMissed(table: Conditions, handlers: seq<Handler>, i: nat, n: nat,
                                                 start: string)
    requires i < |handlers| < 50_000 && n < |handlers[i].conditions| && IsWide(table, handlers[i].conditions[n], start)
    ensures exists code :: IsCode(code) && PgHandler(table, handlers, code) != LuaHandler(handlers, code)
  {
    var codes := seq(|handlers| + 1, k requires 0 <= k <= |handlers| => CodeIn(start, k));
    var tested := seq(|handlers|, k requires 0 <= k < |handlers| => TestedCode(handlers[k]));
    if forall k :: 0 <= k < |codes| ==> codes[k] in tested {
      forall j, k | 0 <= j < k < |codes|
        ensures codes[j] != codes[k]
      {
        assert codes[j][2] != codes[k][2];
      }
      DistinctMembers(codes, tested);
    } else {
      var k :| 0 <= k < |codes| && codes[k] !in tested;
      var code := CodeIn(start, k);
      forall j | 0 <= j < |handlers|
        ensures TestedCode(handlers[j]) != code
      {
        assert tested[j] in tested;
      }
      assert StandsFor(table, handlers[i].conditions[n], code);
      UntestedIsMissed(table, handlers, i, n, code);
    }
  }

  predicate StandsForClass(table: Conditions, name: string) {
    name in table && exists base :: base in table[name] && IsClass(base)
  }

  /** OTHERS, or a name that stands for a class, cannot be covered by tests for single codes: for some code PL/pgSQL
      runs a handler that the chain does not run even if the code is seen, however many handlers a function could
      have. */
  lemma {:induction false} OthersAndClassesAreMissed(table: Conditions, handlers: seq<Handler>, i: nat, n: nat)
    requires i < |handlers| < 50_000 && n < |handlers[i].conditions|
    requires var name := handlers[i].conditions[n]; IsCatchAll(name) || StandsForClass(table, name)
    ensures exists code :: IsCode(code) && PgHandler(table, handlers, code) != LuaHandler(handlers, code)
  {
    var name := handlers[i].conditions[n];
    if IsCatchAll(name) {
      CatchAllIsWide(table, name);
      WideConditionIsMissed(table, handlers, i, n, "ZZ");
    } else {
      var base :| base in table[name] && IsClass(base);
      ClassIsWide(table, name, base);
      WideConditionIsMissed(table, handlers, i, n, base[..2]);
    }
  }

  lemma UntestedIsMissed(table: Conditions, handlers: seq<Handler>, i: nat, n: nat, code: string)
    requires i < |handlers| && n < |handlers[i].conditions| && IsCode(code)
    requires StandsFor(table, handlers[i].conditions[n], code)
    requires forall k :: 0 <= k < |handlers| ==> TestedCode(handlers[k]) != code
    ensures PgHandler(table, handlers, code) <= i < |handlers| == LuaHandler(handlers, code)
  {
    assert Catches(table, handlers[i], code);
  }
}
