/** The PL/pgSQL syntax tree, as delivered by the parser (src/plpgsql/ast.rs). */
module PlpgsqlAst {
  import opened Wrappers

  /** A declared variable. Rows and records have no name. */
  datatype Datum = Datum(varName: Option<string>, defaultVal: Option<string>)

  /** The optional parts of statements: `else_body`/`else_stmts` and `exceptions`. */
  datatype Else = NoElse | Else(body: seq<Stmt>)

  datatype Exceptions = NoExceptions | Handlers(list: seq<Handler>)

  datatype Branch = Branch(cond: string, body: seq<Stmt>)

  datatype Handler = Handler(conditions: seq<string>, action: seq<Stmt>)

  /** Expressions and queries are kept as their source text. `Simple` stands for the statements that are
      translated line by line without structure (RAISE, SQL, diagnostics, cursors), given by their Lua lines. */
  datatype Stmt =
    | Block(body: seq<Stmt>, exceptions: Exceptions)
    | Assign(varno: int, query: string)
    | If(cond: string, thenBody: seq<Stmt>, elsifs: seq<Branch>, elseBody: Else)
    | Loop(body: seq<Stmt>)
    | While(cond: string, body: seq<Stmt>)
    | ForI(varname: string, lower: string, upper: string, reverse: bool, body: seq<Stmt>)
    | ForS(varname: string, query: string, body: seq<Stmt>)
    | Exit(exitWhen: Option<string>)
    | Return(expr: Option<string>)
    | ReturnNext(expr: Option<string>)
    | Case(whens: seq<Branch>, elseBody: Else)
    | Simple(texts: seq<string>)

  datatype Function = Function(name: Option<string>, datums: seq<Datum>, body: seq<Stmt>)

  /** Whether the statements contain RETURN NEXT. Exception handlers are not searched. */
  predicate HasReturnNext(stmts: seq<Stmt>)
    decreases stmts
  {
    stmts != [] && (StmtReturnsNext(stmts[0]) || HasReturnNext(stmts[1..]))
  }

  predicate StmtReturnsNext(stmt: Stmt)
    decreases stmt
  {
    match stmt
    case ReturnNext(_) => true
    case Block(body, _) => HasReturnNext(body)
    case If(_, thenBody, elsifs, elseBody) =>
      HasReturnNext(thenBody) || BranchesReturnNext(elsifs) || (elseBody.Else? && HasReturnNext(elseBody.body))
    case Loop(body) => HasReturnNext(body)
    case While(_, body) => HasReturnNext(body)
    case ForI(_, _, _, _, body) => HasReturnNext(body)
    case ForS(_, _, body) => HasReturnNext(body)
    case Case(whens, elseBody) => BranchesReturnNext(whens) || (elseBody.Else? && HasReturnNext(elseBody.body))
    case Assign(_, _) => false
    case Exit(_) => false
    case Return(_) => false
    case Simple(_) => false
  }

  predicate BranchesReturnNext(branches: seq<Branch>)
    decreases branches
  {
    branches != [] && (HasReturnNext(branches[0].body) || BranchesReturnNext(branches[1..]))
  }
}
