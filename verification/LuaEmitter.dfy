/** The PL/pgSQL to Lua translator (src/plpgsql/transpiler.rs): the lines it writes, and the context it writes
    them through. */
module LuaEmitter {
  import opened Sequences
  import opened Wrappers
  import opened PlpgsqlAst
  import Decimal
  import Text

  // ----- Lines -----

  /** One line of generated Lua. Every constructor is one of the formats the translator writes. */
  datatype Code =
    | CodeIf(cond: string)
    | CodeElseif(cond: string)
    | CodeElse
    | CodeEnd
    | CodeEndParen
    | CodeWhile(cond: string)
    | CodeFor(name: string, first: string, last: string, down: bool)
    | CodeForIn(name: string, query: string)
    | CodePcall
    | CodeFunction(name: string)
    | CodeBreak
    | CodeBreakIf(cond: string)
    | CodeReturn(expr: Option<string>)
    | CodeAssign(name: string, value: string)
    | CodeLocal(name: string, value: string)
    | CodeInsert(value: string)
    | CodeEnsureSet
    | CodeText(text: string)
  {
    function Text(): string {
      match this
      case CodeIf(cond) => "if " + cond + " then"
      case CodeElseif(cond) => "elseif " + cond + " then"
      case CodeElse => "else"
      case CodeEnd => "end"
      case CodeEndParen => "end)"
      case CodeWhile(cond) => "while " + cond + " do"
      case CodeFor(name, first, last, down) =>
        "for " + name + " = " + first + ", " + last + (if down then ", -1 do" else " do")
      case CodeForIn(name, query) => "for " + name + " in _ctx.query_iter([[" + query + "]], {}) do"
      case CodePcall => "local _ok" + ", _result_or_err = pcall(function()"
      case CodeFunction(name) => "local function " + name + "(_ctx, ...)"
      case CodeBreak => "break"
      case CodeBreakIf(cond) => "if " + cond + " then break end"
      case CodeReturn(expr) => if expr.Some? then "return " + expr.value else "return"
      case CodeAssign(name, value) => name + " = " + value
      case CodeLocal(name, value) => "local " + name + " = " + value
      case CodeInsert(value) => "table.insert(_result_set, " + value + ")"
      case CodeEnsureSet => "if " + "_result_set == nil" + " then " + "_result_set = {" + "} end"
      case CodeText(text) => text
    }
  }

  datatype Line = Line(indent: nat, code: Code)

  function Spaces(indent: nat): string {
    if indent == 0 then "" else "  " + Spaces(indent - 1)
  }

  function Render(lines: seq<Line>): string {
    if lines == [] then "" else
      Render(lines[..|lines| - 1]) + Spaces(lines[|lines| - 1].indent) + lines[|lines| - 1].code.Text() + "\n"
  }

  // ----- Names and expressions -----

  /** How expressions are turned into Lua: `condition` is `transpile_expr`, `rhs` is `plpgsql_expr_to_lua`. */
  datatype Env = Env(datums: seq<Datum>, isSetof: bool, condition: string -> string, rhs: string -> string)

  function VarName(datums: seq<Datum>, index: int): string {
    if 0 <= index < |datums| && datums[index].varName.Some? then datums[index].varName.value
    else "var_" + Decimal.OfInt(index)
  }

  function IndexOfAssignment(query: string): (at: nat)
    ensures at <= |query|
    ensures at < |query| ==> at + 1 < |query| && query[at] == ':' && query[at + 1] == '='
    ensures forall i :: 0 <= i < at && i + 1 < |query| ==> !(query[i] == ':' && query[i + 1] == '=')
  {
    if query == [] then 0
    else if |query| >= 2 && query[0] == ':' && query[1] == '=' then 0
    else 1 + IndexOfAssignment(query[1..])
  }

  /** The expression to the right of the first `:=`, or the whole text when there is none; without outer spaces. */
  function AssignedExpr(query: string): string {
    var at := IndexOfAssignment(query);
    Text.Trim(if at < |query| then query[at + 2..] else query)
  }

  lemma {:induction false} FirstAssignmentIsFound(target: string, expr: string)
    requires IndexOfAssignment(target) == |target|
    ensures IndexOfAssignment(target + ":=" + expr) == |target|
  {
    var query := target + ":=" + expr;
    assert query[|target|] == ':' && query[|target| + 1] == '=';
    assert forall i :: 0 <= i < |target| ==> query[i] == target[i];
  }

  /** Of `target := expr` the expression is assigned, also if it has another `:=` in it; a text without `:=` is an
      expression itself. */
  lemma AssignedExprIsRight(target: string, expr: string)
    requires IndexOfAssignment(target) == |target|
    ensures AssignedExpr(target + ":=" + expr) == Text.Trim(expr) && AssignedExpr(target) == Text.Trim(target)
  {
    var query := target + ":=" + expr;
    FirstAssignmentIsFound(target, expr);
    assert query[|target| + 2..] == expr;
  }

  function SqlState(condition: string): string {
    match condition
    case "division_by_zero" => "22012"
    case "unique_violation" => "23505"
    case "foreign_key_violation" => "23503"
    case "check_violation" => "23514"
    case "not_null_violation" => "23502"
    case "no_data_found" => "P0002"
    case "too_many_rows" => "P0003"
    case "raise_exception" => "P0001"
    case _ => condition
  }

  /** The one code that the test of a handler compares with. */
  function TestedCode(handler: Handler): string {
    SqlState(if handler.conditions != [] then handler.conditions[0] else "OTHERS")
  }

  function HandlerTest(handler: Handler): string {
    "_sqlstate == '" + TestedCode(handler) + "'"
  }

  predicate CatchesOthers(handlers: seq<Handler>) {
    exists i :: 0 <= i < |handlers| && handlers[i].conditions != [] && handlers[i].conditions[0] == "OTHERS"
  }

  const ERROR_LINES: seq<Code> := [
    CodeLocal("_err", "_result_or_err"),
    CodeLocal("_sqlstate", "_err and _err.sqlstate or 'P0001'"),
    CodeLocal("_sqlerrm", "_err and _err.message or tostring(_err)"),
    CodeAssign("_ctx.SQLSTATE", "_sqlstate"),
    CodeAssign("_ctx.SQLERRM", "_sqlerrm")]

  // ----- The lines of a statement -----

  function At(indent: nat, codes: seq<Code>): (lines: seq<Line>)
    ensures |lines| == |codes|
    ensures forall i :: 0 <= i < |codes| ==> lines[i] == Line(indent, codes[i])
  {
    seq(|codes|, i requires 0 <= i < |codes| => Line(indent, codes[i]))
  }

  function Lines(stmt: Stmt, env: Env, d: nat): seq<Line>
    decreases stmt, 0
  {
    match stmt
    case Block(body, NoExceptions) => ListLines(body, env, d)
    case Block(body, Handlers(handlers)) =>
      [Line(d, CodePcall)] + ListLines(body, env, d + 1) + FailureLines(d) + HandlerLines(handlers, env, d + 1, true)
      + OutcomeLines(handlers, d)
    case Assign(varno, query) => [Line(d, CodeAssign(VarName(env.datums, varno), env.rhs(AssignedExpr(query))))]
    case If(cond, thenBody, elsifs, elseBody) =>
      [Line(d, CodeIf(env.condition(cond)))] + ListLines(thenBody, env, d + 1)
      + BranchLines(elsifs, env, d, false) + ElseLines(elseBody, env, d) + [Line(d, CodeEnd)]
    case Loop(body) => [Line(d, CodeWhile("true"))] + ListLines(body, env, d + 1) + [Line(d, CodeEnd)]
    case While(cond, body) =>
      [Line(d, CodeWhile(env.condition(cond)))] + ListLines(body, env, d + 1) + [Line(d, CodeEnd)]
    case ForI(name, lower, upper, reverse, body) =>
      [Line(d, ForHeader(stmt, env)), Line(d, CodeAssign("_loop_var", name))] + ListLines(body, env, d + 1)
      + [Line(d, CodeEnd)]
    case ForS(name, query, body) =>
      [Line(d, CodeForIn(name, query))] + ListLines(body, env, d + 1) + [Line(d, CodeEnd)]
    case Exit(cond) =>
      [Line(d, if cond.Some? then CodeBreakIf(env.condition(cond.value)) else CodeBreak)]
    case Return(expr) =>
      if env.isSetof then (if expr.Some? then [Line(d, CodeInsert("{}"))] else [])
      else [Line(d, CodeReturn(if expr.Some? then Some(env.condition(expr.value)) else None))]
    case ReturnNext(expr) =>
      [Line(d, CodeEnsureSet), Line(d, CodeInsert(if expr.Some? then env.condition(expr.value) else "_loop_var"))]
    case Case(whens, elseBody) =>
      BranchLines(whens, env, d, true) + ElseLines(elseBody, env, d) + [Line(d, CodeEnd)]
    case Simple(texts) => At(d, seq(|texts|, i requires 0 <= i < |texts| => CodeText(texts[i])))
  }

  function FailureLines(d: nat): seq<Line> {
    [Line(d, CodeEndParen), Line(d, CodeIf("not _ok"))] + At(d + 1, ERROR_LINES)
  }

  /** What follows the handlers: re-raise if no handler is a catch-all, and hand out the result of a success. */
  function OutcomeLines(handlers: seq<Handler>, d: nat): seq<Line> {
    (if CatchesOthers(handlers) then [] else [Line(d + 1, CodeElse), Line(d + 2, CodeText("error(_err)"))])
    + [Line(d + 1, CodeEnd), Line(d, CodeElse), Line(d + 1, CodeReturn(Some("_result_or_err"))), Line(d, CodeEnd)]
  }

  function ForHeader(stmt: Stmt, env: Env): Code
    requires stmt.ForI?
  {
    if stmt.reverse then CodeFor(stmt.varname, env.condition(stmt.upper), env.condition(stmt.lower), true)
    else CodeFor(stmt.varname, env.condition(stmt.lower), env.condition(stmt.upper), false)
  }

  function ListLines(stmts: seq<Stmt>, env: Env, d: nat): seq<Line>
    decreases stmts, 0
  {
    if stmts == [] then [] else Lines(stmts[0], env, d) + ListLines(stmts[1..], env, d)
  }

  /** The first branch opens the chain when `opens` is set; the others continue it. */
  function BranchLines(branches: seq<Branch>, env: Env, d: nat, opens: bool): seq<Line>
    decreases branches, 0
  {
    if branches == [] then [] else
      var cond := env.condition(branches[0].cond);
      [Line(d, if opens then CodeIf(cond) else CodeElseif(cond))] + ListLines(branches[0].body, env, d + 1)
      + BranchLines(branches[1..], env, d, false)
  }

  function HandlerHeader(handler: Handler, opens: bool): Code {
    if opens then CodeIf(HandlerTest(handler)) else CodeElseif(HandlerTest(handler))
  }

  function HandlerLines(handlers: seq<Handler>, env: Env, d: nat, opens: bool): seq<Line>
    decreases handlers, 0
  {
    if handlers == [] then [] else
      HandlerPart(handlers[0], env, d, opens) + HandlerLines(handlers[1..], env, d, false)
  }

  function HandlerPart(handler: Handler, env: Env, d: nat, opens: bool): seq<Line>
    decreases handler, 0
  {
    [Line(d, HandlerHeader(handler, opens))] + ListLines(handler.action, env, d + 1)
  }

  function ElseLines(elseBody: Else, env: Env, d: nat): seq<Line>
    decreases elseBody, 0
  {
    match elseBody
    case NoElse => []
    case Else(body) => [Line(d, CodeElse)] + ListLines(body, env, d + 1)
  }

  // ----- The lines of a function -----

  function ParamCount(datums: seq<Datum>): (n: nat)
    ensures n <= |datums|
    ensures n < |datums| ==> datums[n].varName == Some("found")
    ensures forall i :: 0 <= i < n ==> datums[i].varName != Some("found")
  {
    if datums == [] || datums[0].varName == Some("found") then 0 else 1 + ParamCount(datums[1..])
  }

  /** How argument `i` is taken from the variable arguments of the Lua function. */
  function ArgumentText(i: nat): string {
    "select(" + Decimal.OfNat(i + 1) + ", ...)"
  }

  /** `local` lines for the named datums from index `i` up to `count`. */
  function ParamLines(datums: seq<Datum>, i: nat, count: nat): seq<Line>
    requires i <= count <= |datums|
    decreases count - i
  {
    if i == count then [] else
      (if datums[i].varName.Some?
       then [Line(1, CodeLocal(datums[i].varName.value, ArgumentText(i)))] else [])
      + ParamLines(datums, i + 1, count)
  }

  predicate IsLocal(datum: Datum) {
    datum.varName.Some? && datum.varName.value != "found"
  }

  function LocalLines(env: Env, i: nat): seq<Line>
    requires i <= |env.datums|
    decreases |env.datums| - i
  {
    if i == |env.datums| then [] else
      (if IsLocal(env.datums[i])
       then [Line(1, CodeLocal(env.datums[i].varName.value,
                               if env.datums[i].defaultVal.Some? then env.rhs(env.datums[i].defaultVal.value)
                               else "nil"))]
       else [])
      + LocalLines(env, i + 1)
  }

  function ParameterPart(env: Env): seq<Line> {
    var count := ParamCount(env.datums);
    if count > 0 then [Line(1, CodeText("-- Parameters"))] + ParamLines(env.datums, 0, count) else []
  }

  function DeclarationPart(env: Env): seq<Line> {
    var locals := LocalLines(env, ParamCount(env.datums));
    if locals != [] then [Line(1, CodeText("-- Local variables"))] + locals else []
  }

  function PrologueLines(env: Env): seq<Line> {
    ParameterPart(env) + DeclarationPart(env)
    + (if env.isSetof then [Line(1, CodeLocal("_result_set", "{}"))] else [])
  }

  function EpilogueLines(env: Env): seq<Line> {
    if env.isSetof
    then [Line(1, CodeAssign("_result_set._is_result_set", "true")), Line(1, CodeReturn(Some("_result_set")))]
    else []
  }

  function FunctionName(f: Function): string {
    if f.name.Some? then f.name.value else "anonymous"
  }

  function FunctionEnv(f: Function, condition: string -> string, rhs: string -> string): Env {
    Env(f.datums, HasReturnNext(f.body), condition, rhs)
  }

  function FunctionLines(f: Function, env: Env): seq<Line> {
    [Line(0, CodeText("-- Generated from PL/pgSQL")), Line(0, CodeFunction(FunctionName(f)))]
    + PrologueLines(env) + ListLines(f.body, env, 1) + EpilogueLines(env)
    + [Line(0, CodeEnd), Line(0, CodeReturn(Some(FunctionName(f))))]
  }

  // Appending pieces one after another appends their concatenation.

  lemma Append3(s: seq<Line>, a: seq<Line>, b: seq<Line>, c: seq<Line>)
    ensures s + a + b + c == s + (a + b + c)
  {
    Assoc(s, a, b);
    Assoc(s, a + b, c);
  }

  lemma Append5(s: seq<Line>, a: seq<Line>, b: seq<Line>, c: seq<Line>, d: seq<Line>, e: seq<Line>)
    ensures s + a + b + c + d + e == s + (a + b + c + d + e)
  {
    Append3(s, a, b, c);
    Append3(s, a + b + c, d, e);
  }

  // ----- The context -----

  /** `TranspileContext`: the lines written so far and the two nesting counters. */
  class TranspileContext {
    var output: seq<Line>
    var indentLevel: nat
    var loopDepth: nat
    const env: Env

    constructor (env: Env)
      ensures output == [] && indentLevel == 0 && loopDepth == 0 && this.env == env
    {
      output, indentLevel, loopDepth := [], 0, 0;
      this.env := env;
    }

    method Indent()
      modifies this`indentLevel
      ensures indentLevel == old(indentLevel) + 1
    {
      indentLevel := indentLevel + 1;
    }

    method Dedent()
      modifies this`indentLevel
      ensures indentLevel == if old(indentLevel) > 0 then old(indentLevel) - 1 else 0
    {
      if indentLevel > 0 {
        indentLevel := indentLevel - 1;
      }
    }

    method EmitLine(code: Code)
      modifies this`output
      ensures output == old(output) + [Line(indentLevel, code)]
    {
      output := output + [Line(indentLevel, code)];
    }

    /** Writes one statement. Both counters are back at their entry values afterwards. */
    method EmitStatement(stmt: Stmt)
      modifies this
      ensures output == old(output) + Lines(stmt, env, indentLevel)
      ensures indentLevel == old(indentLevel) && loopDepth == old(loopDepth)
      decreases stmt, 1
    {
      match stmt
      case Block(body, NoExceptions) => EmitList(body);
      case Block(body, Handlers(handlers)) => EmitProtectedBlock(stmt);
      case Assign(varno, query) =>
        EmitLine(CodeAssign(VarName(env.datums, varno), env.rhs(AssignedExpr(query))));
      case If(_, _, _, _) => EmitIf(stmt);
      case Loop(body) =>
        loopDepth := loopDepth + 1;
        EmitWhile("true", body);
        loopDepth := loopDepth - 1;
      case While(cond, body) =>
        EmitWhile(env.condition(cond), body);
      case ForI(_, _, _, _, _) => EmitForI(stmt);
      case ForS(_, _, _) => EmitForS(stmt);
      case Exit(cond) =>
        if cond.Some? {
          EmitLine(CodeBreakIf(env.condition(cond.value)));
        } else {
          EmitLine(CodeBreak);
        }
      case Return(expr) => EmitReturn(stmt);
      case ReturnNext(expr) =>
        EmitLine(CodeEnsureSet);
        EmitLine(CodeInsert(if expr.Some? then env.condition(expr.value) else "_loop_var"));
      case Case(whens, elseBody) =>
        ghost var start := output;
        EmitBranches(whens, true);
        EmitElse(elseBody);
        EmitLine(CodeEnd);
        Append3(start, BranchLines(whens, env, indentLevel, true), ElseLines(elseBody, env, indentLevel),
                [Line(indentLevel, CodeEnd)]);
      case Simple(texts) => EmitTexts(stmt);
    }

    method EmitReturn(stmt: Stmt)
      requires stmt.Return?
      modifies this`output
      ensures output == old(output) + Lines(stmt, env, indentLevel)
    {
      if stmt.expr.Some? {
        if env.isSetof {
          EmitLine(CodeInsert("{}"));
        } else {
          EmitLine(CodeReturn(Some(env.condition(stmt.expr.value))));
        }
      } else if !env.isSetof {
        EmitLine(CodeReturn(None));
      }
    }

    method EmitTexts(stmt: Stmt)
      requires stmt.Simple?
      modifies this`output
      ensures output == old(output) + Lines(stmt, env, indentLevel)
    {
      for i := 0 to |stmt.texts|
        invariant output == old(output) + Lines(stmt, env, indentLevel)[..i]
      {
        EmitLine(CodeText(stmt.texts[i]));
      }
    }

    method EmitWhile(cond: string, body: seq<Stmt>)
      modifies this
      ensures indentLevel == old(indentLevel) && loopDepth == old(loopDepth)
      ensures output == old(output) + ([Line(indentLevel, CodeWhile(cond))] + ListLines(body, env, indentLevel + 1)
                                     + [Line(indentLevel, CodeEnd)])
      decreases body, 2
    {
      ghost var start := output;
      EmitLine(CodeWhile(cond));
      EmitNested(body);
      EmitLine(CodeEnd);
      Append3(start, [Line(indentLevel, CodeWhile(cond))], ListLines(body, env, indentLevel + 1),
              [Line(indentLevel, CodeEnd)]);
    }

    method EmitForI(stmt: Stmt)
      requires stmt.ForI?
      modifies this
      ensures output == old(output) + Lines(stmt, env, indentLevel)
      ensures indentLevel == old(indentLevel) && loopDepth == old(loopDepth)
      decreases stmt, 0
    {
      ghost var start := output;
      var lower, upper := env.condition(stmt.lower), env.condition(stmt.upper);
      if stmt.reverse {
        EmitLine(CodeFor(stmt.varname, upper, lower, true));
      } else {
        EmitLine(CodeFor(stmt.varname, lower, upper, false));
      }
      EmitLine(CodeAssign("_loop_var", stmt.varname));
      ghost var header := [Line(indentLevel, ForHeader(stmt, env)),
                           Line(indentLevel, CodeAssign("_loop_var", stmt.varname))];
      assert output == start + header;
      EmitNested(stmt.body);
      EmitLine(CodeEnd);
      Append3(start, header, ListLines(stmt.body, env, indentLevel + 1), [Line(indentLevel, CodeEnd)]);
    }

    method EmitForS(stmt: Stmt)
      requires stmt.ForS?
      modifies this
      ensures output == old(output) + Lines(stmt, env, indentLevel)
      ensures indentLevel == old(indentLevel) && loopDepth == old(loopDepth)
      decreases stmt, 0
    {
      ghost var start := output;
      EmitLine(CodeForIn(stmt.varname, stmt.query));
      EmitNested(stmt.body);
      EmitLine(CodeEnd);
      Append3(start, [Line(indentLevel, CodeForIn(stmt.varname, stmt.query))],
              ListLines(stmt.body, env, indentLevel + 1), [Line(indentLevel, CodeEnd)]);
    }

    method EmitIf(stmt: Stmt)
      requires stmt.If?
      modifies this
      ensures output == old(output) + Lines(stmt, env, indentLevel)
      ensures indentLevel == old(indentLevel) && loopDepth == old(loopDepth)
      decreases stmt, 0
    {
      ghost var start := output;
      EmitLine(CodeIf(env.condition(stmt.cond)));
      EmitNested(stmt.thenBody);
      EmitBranches(stmt.elsifs, false);
      EmitElse(stmt.elseBody);
      EmitLine(CodeEnd);
      Append5(start, [Line(indentLevel, CodeIf(env.condition(stmt.cond)))],
              ListLines(stmt.thenBody, env, indentLevel + 1), BranchLines(stmt.elsifs, env, indentLevel, false),
              ElseLines(stmt.elseBody, env, indentLevel), [Line(indentLevel, CodeEnd)]);
    }

    /** A block with exception handlers becomes a protected call followed by a test of its outcome. */
    method EmitProtectedBlock(stmt: Stmt)
      requires stmt.Block? && stmt.exceptions.Handlers?
      modifies this
      ensures output == old(output) + Lines(stmt, env, indentLevel)
      ensures indentLevel == old(indentLevel) && loopDepth == old(loopDepth)
      decreases stmt, 0
    {
      var handlers := stmt.exceptions.list;
      ghost var start := output;
      EmitCall(stmt.body);
      EmitHandlers(handlers);
      EmitOutcome(handlers);
      Append5(start, [Line(old(indentLevel), CodePcall)], ListLines(stmt.body, env, old(indentLevel) + 1),
              FailureLines(old(indentLevel)), HandlerLines(handlers, env, old(indentLevel) + 1, true),
              OutcomeLines(handlers, old(indentLevel)));
    }

    /** The protected call, up to the point where the handlers are tested. */
    method EmitCall(body: seq<Stmt>)
      modifies this
      ensures var d := old(indentLevel);
              output == old(output) + [Line(d, CodePcall)] + ListLines(body, env, d + 1) + FailureLines(d)
      ensures indentLevel == old(indentLevel) + 1 && loopDepth == old(loopDepth)
      decreases body, 2
    {
      EmitLine(CodePcall);
      EmitNested(body);
      EmitFailure();
    }

    /** Ends the protected call and opens its failure branch. */
    method EmitFailure()
      modifies this
      ensures output == old(output) + FailureLines(old(indentLevel))
      ensures indentLevel == old(indentLevel) + 1 && loopDepth == old(loopDepth)
    {
      EmitLine(CodeEndParen);
      EmitLine(CodeIf("not _ok"));
      Indent();
      EmitLine(CodeLocal("_err", "_result_or_err"));
      EmitLine(CodeLocal("_sqlstate", "_err and _err.sqlstate or 'P0001'"));
      EmitLine(CodeLocal("_sqlerrm", "_err and _err.message or tostring(_err)"));
      EmitLine(CodeAssign("_ctx.SQLSTATE", "_sqlstate"));
      EmitLine(CodeAssign("_ctx.SQLERRM", "_sqlerrm"));
    }

    /** Closes the handler chain and the failure branch. */
    method EmitOutcome(handlers: seq<Handler>)
      requires indentLevel > 0
      modifies this
      ensures output == old(output) + OutcomeLines(handlers, old(indentLevel) - 1)
      ensures indentLevel == old(indentLevel) - 1 && loopDepth == old(loopDepth)
    {
      if !CatchesOthers(handlers) {
        EmitLine(CodeElse);
        Indent();
        EmitLine(CodeText("error(_err)"));
        Dedent();
      }
      EmitLine(CodeEnd);
      Dedent();
      EmitLine(CodeElse);
      Indent();
      EmitLine(CodeReturn(Some("_result_or_err")));
      Dedent();
      EmitLine(CodeEnd);
    }

    /** A statement list at the current indentation. */
    method EmitList(stmts: seq<Stmt>)
      modifies this
      ensures output == old(output) + ListLines(stmts, env, indentLevel)
      ensures indentLevel == old(indentLevel) && loopDepth == old(loopDepth)
      decreases stmts, 0
    {
      for i := 0 to |stmts|
        invariant indentLevel == old(indentLevel) && loopDepth == old(loopDepth)
        invariant output + ListLines(stmts[i..], env, indentLevel)
               == old(output) + ListLines(stmts, env, indentLevel)
      {
        assert stmts[i..][1..] == stmts[i + 1..];
        Assoc(output, Lines(stmts[i], env, indentLevel), ListLines(stmts[i + 1..], env, indentLevel));
        EmitStatement(stmts[i]);
      }
    }

    /** A statement list one level deeper. */
    method EmitNested(stmts: seq<Stmt>)
      modifies this
      ensures output == old(output) + ListLines(stmts, env, indentLevel + 1)
      ensures indentLevel == old(indentLevel) && loopDepth == old(loopDepth)
      decreases stmts, 1
    {
      Indent();
      EmitList(stmts);
      Dedent();
    }

    method EmitBranches(branches: seq<Branch>, opens: bool)
      modifies this
      ensures output == old(output) + BranchLines(branches, env, indentLevel, opens)
      ensures indentLevel == old(indentLevel) && loopDepth == old(loopDepth)
      decreases branches, 0
    {
      var first := opens;
      for i := 0 to |branches|
        invariant indentLevel == old(indentLevel) && loopDepth == old(loopDepth)
        invariant first == (opens && i == 0)
        invariant output + BranchLines(branches[i..], env, indentLevel, first)
               == old(output) + BranchLines(branches, env, indentLevel, opens)
      {
        assert branches[i..][1..] == branches[i + 1..];
        var cond := env.condition(branches[i].cond);
        Append3(output, [Line(indentLevel, if first then CodeIf(cond) else CodeElseif(cond))],
                ListLines(branches[i].body, env, indentLevel + 1),
                BranchLines(branches[i + 1..], env, indentLevel, false));
        if first {
          EmitLine(CodeIf(cond));
          first := false;
        } else {
          EmitLine(CodeElseif(cond));
        }
        EmitNested(branches[i].body);
      }
    }

    method EmitHandlers(handlers: seq<Handler>)
      modifies this
      ensures output == old(output) + HandlerLines(handlers, env, indentLevel, true)
      ensures indentLevel == old(indentLevel) && loopDepth == old(loopDepth)
      decreases handlers, 0
    {
      var first := true;
      for i := 0 to |handlers|
        invariant indentLevel == old(indentLevel) && loopDepth == old(loopDepth) && first == (i == 0)
        invariant output + HandlerLines(handlers[i..], env, indentLevel, first)
               == old(output) + HandlerLines(handlers, env, indentLevel, true)
      {
        assert handlers[i..][1..] == handlers[i + 1..];
        ghost var before, rest := output, HandlerLines(handlers[i + 1..], env, indentLevel, false);
        EmitHandler(handlers[i], first);
        Assoc(before, HandlerPart(handlers[i], env, indentLevel, first), rest);
        first := false;
      }
    }

    method EmitHandler(handler: Handler, first: bool)
      modifies this
      ensures output == old(output) + HandlerPart(handler, env, indentLevel, first)
      ensures indentLevel == old(indentLevel) && loopDepth == old(loopDepth)
      decreases handler
    {
      Assoc(output, [Line(indentLevel, HandlerHeader(handler, first))],
            ListLines(handler.action, env, indentLevel + 1));
      EmitLine(HandlerHeader(handler, first));
      EmitNested(handler.action);
    }

    method EmitElse(elseBody: Else)
      modifies this
      ensures output == old(output) + ElseLines(elseBody, env, indentLevel)
      ensures indentLevel == old(indentLevel) && loopDepth == old(loopDepth)
      decreases elseBody, 0
    {
      if elseBody.Else? {
        EmitLine(CodeElse);
        EmitNested(elseBody.body);
      }
    }

    method EmitParameters()
      requires indentLevel == 1
      modifies this`output
      ensures output == old(output) + ParameterPart(env)
    {
      var count := ParamCount(env.datums);
      if count > 0 {
        Assoc(output, [Line(1, CodeText("-- Parameters"))], ParamLines(env.datums, 0, count));
        EmitLine(CodeText("-- Parameters"));
        ghost var start := output;
        for i := 0 to count
          invariant output + ParamLines(env.datums, i, count) == start + ParamLines(env.datums, 0, count)
        {
          if env.datums[i].varName.Some? {
            EmitLine(CodeLocal(env.datums[i].varName.value, ArgumentText(i)));
          }
        }
      }
    }

    method EmitVariableDeclarations()
      requires indentLevel == 1
      modifies this`output
      ensures output == old(output) + DeclarationPart(env)
    {
      var params := ParamCount(env.datums);
      var hasVars := false;
      ghost var all := LocalLines(env, params);
      for i := params to |env.datums|
        invariant hasVars ==> all != [] && output + LocalLines(env, i) == old(output) + DeclarationPart(env)
        invariant !hasVars ==> output == old(output) && LocalLines(env, i) == all
      {
        if IsLocal(env.datums[i]) {
          if !hasVars {
            EmitLine(CodeText("-- Local variables"));
            hasVars := true;
          }
          if env.datums[i].defaultVal.Some? {
            EmitLine(CodeLocal(env.datums[i].varName.value, env.rhs(env.datums[i].defaultVal.value)));
          } else {
            EmitLine(CodeLocal(env.datums[i].varName.value, "nil"));
          }
        }
      }
    }

    method EmitPrologue()
      requires indentLevel == 1
      modifies this`output
      ensures output == old(output) + PrologueLines(env)
    {
      ghost var start := output;
      EmitParameters();
      EmitVariableDeclarations();
      if env.isSetof {
        EmitLine(CodeLocal("_result_set", "{}"));
      }
      Append3(start, ParameterPart(env), DeclarationPart(env),
              if env.isSetof then [Line(1, CodeLocal("_result_set", "{}"))] else []);
    }

    method EmitEpilogue()
      requires indentLevel == 1
      modifies this`output
      ensures output == old(output) + EpilogueLines(env)
    {
      if env.isSetof {
        EmitLine(CodeAssign("_result_set._is_result_set", "true"));
        EmitLine(CodeReturn(Some("_result_set")));
      }
    }
  }

  /** `transpile_to_lua`: the text is the rendering of the function's lines. */
  method TranspileToLua(f: Function, condition: string -> string, rhs: string -> string) returns (lua: string)
    ensures lua == Render(FunctionLines(f, FunctionEnv(f, condition, rhs)))
  {
    var env := Env(f.datums, HasReturnNext(f.body), condition, rhs);
    var ctx := new TranspileContext(env);
    ctx.EmitLine(CodeText("-- Generated from PL/pgSQL"));
    ctx.EmitLine(CodeFunction(FunctionName(f)));
    ctx.Indent();
    ghost var header := ctx.output;
    assert header == [Line(0, CodeText("-- Generated from PL/pgSQL")), Line(0, CodeFunction(FunctionName(f)))];
    ctx.EmitPrologue();
    ctx.EmitList(f.body);
    ctx.EmitEpilogue();
    ctx.Dedent();
    ctx.EmitLine(CodeEnd);
    ctx.EmitLine(CodeReturn(Some(FunctionName(f))));
    Assoc(header + PrologueLines(env) + ListLines(f.body, env, 1) + EpilogueLines(env), [Line(0, CodeEnd)],
          [Line(0, CodeReturn(Some(FunctionName(f))))]);
    assert [Line(0, CodeEnd)] + [Line(0, CodeReturn(Some(FunctionName(f))))]
        == [Line(0, CodeEnd), Line(0, CodeReturn(Some(FunctionName(f))))];
    lua := Render(ctx.output);
  }
}
