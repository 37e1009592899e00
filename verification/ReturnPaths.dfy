/** Which functions come to the right result whatever their expressions are: the ways in which a statement can end, as
    its control structure shows them. */
module ReturnPaths {
  import opened Wrappers
  import opened PlpgsqlAst
  import opened Execution
  import opened LuaEmitter
  import opened TranslationCorrect
  import Pl = PlpgsqlSemantics
  import L = LuaSemantics

  // ----- Ways to end -----

  /** At its end, by EXIT, by a bare RETURN, or by RETURN with a value. `NoWay` is none of them. */
  datatype Way = AtEnd | ByExit | Bare | WithValue | NoWay

  function WayOf(o: Outcome<PlState>): Way {
    match o
    case Normal(_) => AtEnd
    case Exited(_) => ByExit
    case Returned(v, _) => if v.Some? then WithValue else Bare
    case _ => NoWay
  }

  /** Some choice of expressions may make the statement end that way. */
  predicate May(stmt: Stmt, way: Way)
    decreases stmt, 0
  {
    match stmt
    case Block(body, _) => MayAll(body, way)
    case Assign(_, _) => way.AtEnd?
    case If(_, thenBody, elsifs, elseBody) =>
      MayAll(thenBody, way) || MayBranches(elsifs, way)
      || (if elseBody.Else? then MayAll(elseBody.body, way) else way.AtEnd?)
    case Loop(body) => MayLeaveLoop(body, way)
    case While(_, body) => way.AtEnd? || MayLeaveLoop(body, way)
    case ForI(_, _, _, _, body) => way.AtEnd? || MayLeaveLoop(body, way)
    case Exit(cond) => way.ByExit? || (cond.Some? && way.AtEnd?)
    case Return(expr) => if expr.Some? then way.WithValue? else way.Bare?
    case ReturnNext(_) => way.AtEnd?
    case Case(whens, elseBody) => MayBranches(whens, way) || (elseBody.Else? && MayAll(elseBody.body, way))
    case ForS(_, _, _) => false
    case Simple(_) => false
  }

  /** EXIT ends the loop. */
  predicate MayLeaveLoop(body: seq<Stmt>, way: Way)
    decreases body, 1
  {
    if way.AtEnd? then MayAll(body, ByExit) else !way.ByExit? && MayAll(body, way)
  }

  predicate MayAll(stmts: seq<Stmt>, way: Way)
    decreases stmts, 0
  {
    if stmts == [] then way.AtEnd?
    else (!way.AtEnd? && May(stmts[0], way)) || (May(stmts[0], AtEnd) && MayAll(stmts[1..], way))
  }

  predicate MayBranches(branches: seq<Branch>, way: Way)
    decreases branches, 0
  {
    branches != [] && (MayAll(branches[0].body, way) || MayBranches(branches[1..], way))
  }

  // ----- Statements end in no other way -----

  lemma {:induction false} EndsAsItMay(stmt: Stmt, datums: seq<Datum>, ev: Pl.PlEval, s: PlState, fuel: nat)
    ensures var way := WayOf(Pl.Exec(stmt, datums, ev, s, fuel)); way.NoWay? || May(stmt, way)
    decreases fuel, stmt, 0
  {
    match stmt
    case Block(body, _) => AllEndAsTheyMay(body, datums, ev, s, fuel);
    case If(_, thenBody, elsifs, elseBody) =>
      AllEndAsTheyMay(thenBody, datums, ev, s, fuel);
      BranchesEndAsTheyMay(elsifs, datums, ev, s, fuel);
      if elseBody.Else? {
        AllEndAsTheyMay(elseBody.body, datums, ev, s, fuel);
      }
    case Loop(body) => WhileEndsAsItMay(None, body, datums, ev, s, fuel);
    case While(cond, body) => WhileEndsAsItMay(Some(cond), body, datums, ev, s, fuel);
    case ForI(name, lower, upper, reverse, body) =>
      var lo, hi := ev(lower, s.vars), ev(upper, s.vars);
      if lo.Int? && hi.Int? {
        ForEndsAsItMay(Pl.DatumOf(datums, name), Pl.ForValues(lo.n, hi.n, reverse), body, datums, ev, s, fuel);
      }
    case Case(whens, elseBody) =>
      BranchesEndAsTheyMay(whens, datums, ev, s, fuel);
      if elseBody.Else? {
        AllEndAsTheyMay(elseBody.body, datums, ev, s, fuel);
      }
    case _ =>
  }

  lemma {:induction false} AllEndAsTheyMay(stmts: seq<Stmt>, datums: seq<Datum>, ev: Pl.PlEval, s: PlState, fuel: nat)
    ensures var way := WayOf(Pl.ExecList(stmts, datums, ev, s, fuel)); way.NoWay? || MayAll(stmts, way)
    decreases fuel, stmts, 0
  {
    if stmts != [] {
      EndsAsItMay(stmts[0], datums, ev, s, fuel);
      var first := Pl.Exec(stmts[0], datums, ev, s, fuel);
      if first.Normal? {
        AllEndAsTheyMay(stmts[1..], datums, ev, first.state, fuel);
      }
    }
  }

  lemma {:induction false} BranchesEndAsTheyMay(branches: seq<Branch>, datums: seq<Datum>, ev: Pl.PlEval, s: PlState,
                                                fuel: nat)
    ensures var o := Pl.ExecBranches(branches, datums, ev, s, fuel);
            o.Some? ==> WayOf(o.value).NoWay? || MayBranches(branches, WayOf(o.value))
    decreases fuel, branches, 0
  {
    if branches != [] {
      AllEndAsTheyMay(branches[0].body, datums, ev, s, fuel);
      BranchesEndAsTheyMay(branches[1..], datums, ev, s, fuel);
    }
  }

  lemma {:induction false} WhileEndsAsItMay(cond: Option<string>, body: seq<Stmt>, datums: seq<Datum>, ev: Pl.PlEval,
                                            s: PlState, fuel: nat)
    ensures var way := WayOf(Pl.ExecWhile(cond, body, datums, ev, s, fuel));
            way.NoWay? || MayLeaveLoop(body, way) || (cond.Some? && way.AtEnd?)
    decreases fuel, body, 1
  {
    if fuel > 0 {
      AllEndAsTheyMay(body, datums, ev, s, fuel - 1);
      var round := Pl.ExecList(body, datums, ev, s, fuel - 1);
      if round.Normal? {
        WhileEndsAsItMay(cond, body, datums, ev, round.state, fuel - 1);
      }
    }
  }

  lemma {:induction false} ForEndsAsItMay(k: nat, values: seq<int>, body: seq<Stmt>, datums: seq<Datum>, ev: Pl.PlEval,
                                          s: PlState, fuel: nat)
    ensures var way := WayOf(Pl.ExecFor(k, values, body, datums, ev, s, fuel));
            way.NoWay? || MayLeaveLoop(body, way) || way.AtEnd?
    decreases fuel, body, 1 + |values|
  {
    if values != [] && k < |s.vars| {
      var s1 := s.(vars := s.vars[k := Int(values[0])]);
      AllEndAsTheyMay(body, datums, ev, s1, fuel);
      var round := Pl.ExecList(body, datums, ev, s1, fuel);
      if round.Normal? {
        ForEndsAsItMay(k, values[1..], body, datums, ev, round.state, fuel);
      }
    }
  }

  // ----- The same control structure -----

  /** Statements that differ in expressions, variables and the direction of loops only. */
  predicate SameShape(a: Stmt, b: Stmt)
    decreases a, 0
  {
    match a
    case Block(body, exceptions) =>
      b.Block? && exceptions.NoExceptions? && b.exceptions.NoExceptions? && AllSameShape(body, b.body)
    case Assign(_, _) => b.Assign?
    case If(_, thenBody, elsifs, elseBody) =>
      b.If? && AllSameShape(thenBody, b.thenBody) && BranchesSameShape(elsifs, b.elsifs)
      && elseBody.Else? == b.elseBody.Else? && (elseBody.Else? ==> AllSameShape(elseBody.body, b.elseBody.body))
    case Loop(body) => b.Loop? && AllSameShape(body, b.body)
    case While(_, body) => b.While? && AllSameShape(body, b.body)
    case ForI(_, _, _, _, body) => b.ForI? && AllSameShape(body, b.body)
    case Exit(cond) => b.Exit? && cond.Some? == b.exitWhen.Some?
    case Return(expr) => b.Return? && expr.Some? == b.expr.Some?
    case ReturnNext(expr) => b.ReturnNext? && expr.Some? == b.expr.Some?
    case Case(whens, elseBody) =>
      b.Case? && BranchesSameShape(whens, b.whens)
      && elseBody.Else? == b.elseBody.Else? && (elseBody.Else? ==> AllSameShape(elseBody.body, b.elseBody.body))
    case ForS(_, _, _) => false
    case Simple(_) => false
  }

  predicate AllSameShape(a: seq<Stmt>, b: seq<Stmt>)
    decreases a, 0
  {
    |a| == |b| && (a == [] || (SameShape(a[0], b[0]) && AllSameShape(a[1..], b[1..])))
  }

  predicate BranchesSameShape(a: seq<Branch>, b: seq<Branch>)
    decreases a, 0
  {
    |a| == |b| && (a == [] || (AllSameShape(a[0].body, b[0].body) && BranchesSameShape(a[1..], b[1..])))
  }

  lemma {:induction false} ShapeDecides(a: Stmt, b: Stmt, way: Way)
    requires SameShape(a, b)
    ensures May(a, way) == May(b, way) && StmtReturnsNext(a) == StmtReturnsNext(b)
    decreases a, 0
  {
    match a
    case Block(body, _) => ShapesDecide(body, b.body, way);
    case If(_, thenBody, elsifs, elseBody) =>
      ShapesDecide(thenBody, b.thenBody, way);
      BranchShapesDecide(elsifs, b.elsifs, way);
      if elseBody.Else? {
        ShapesDecide(elseBody.body, b.elseBody.body, way);
      }
    case Loop(body) => LoopShapeDecides(body, b.body, way);
    case While(_, body) => LoopShapeDecides(body, b.body, way);
    case ForI(_, _, _, _, body) => LoopShapeDecides(body, b.body, way);
    case Case(whens, elseBody) =>
      BranchShapesDecide(whens, b.whens, way);
      if elseBody.Else? {
        ShapesDecide(elseBody.body, b.elseBody.body, way);
      }
    case _ =>
  }

  lemma LoopShapeDecides(a: seq<Stmt>, b: seq<Stmt>, way: Way)
    requires AllSameShape(a, b)
    ensures MayLeaveLoop(a, way) == MayLeaveLoop(b, way) && HasReturnNext(a) == HasReturnNext(b)
    decreases a, 1
  {
    ShapesDecide(a, b, way);
    ShapesDecide(a, b, ByExit);
  }

  lemma {:induction false} ShapesDecide(a: seq<Stmt>, b: seq<Stmt>, way: Way)
    requires AllSameShape(a, b)
    ensures MayAll(a, way) == MayAll(b, way) && HasReturnNext(a) == HasReturnNext(b)
    decreases a, 0
  {
    if a != [] {
      ShapeDecides(a[0], b[0], way);
      ShapeDecides(a[0], b[0], AtEnd);
      ShapesDecide(a[1..], b[1..], way);
    }
  }

  lemma {:induction false} BranchShapesDecide(a: seq<Branch>, b: seq<Branch>, way: Way)
    requires BranchesSameShape(a, b)
    ensures MayBranches(a, way) == MayBranches(b, way) && BranchesReturnNext(a) == BranchesReturnNext(b)
    decreases a, 0
  {
    if a != [] {
      ShapesDecide(a[0].body, b[0].body, way);
      BranchShapesDecide(a[1..], b[1..], way);
    }
  }

  // ----- Expressions that lead down a given way -----

  const DATUMS: seq<Datum> := [Datum(Some("x"), None)]

  function Meaning(text: string): Value {
    match text
    case "true" => Bool(true)
    case "false" => Bool(false)
    case "0" => Int(0)
    case "1" => Int(1)
    case _ => Null
  }

  /** One variable, and constants that mean themselves in both languages. */
  function Constants(): Setting {
    Setting(Env(DATUMS, false, text => text, text => text), (text, vars) => Meaning(text),
            (text, vars) => Meaning(text), {"true", "false", "0", "1"})
  }

  /** The statement with constants for expressions, chosen so that it ends the given way if it may. */
  function Steer(stmt: Stmt, way: Way): Stmt
    decreases stmt, 0
  {
    match stmt
    case Block(body, exceptions) => Block(SteerAll(body, way), NoExceptions)
    case Assign(_, _) => Assign(0, "1")
    case If(_, thenBody, elsifs, elseBody) =>
      If(if MayAll(thenBody, way) then "true" else "false", SteerAll(thenBody, way), SteerBranches(elsifs, way),
         SteerElse(elseBody, way))
    case Loop(body) => Loop(SteerAll(body, if way.AtEnd? then ByExit else way))
    case While(_, body) => While(if way.AtEnd? then "false" else "true", SteerAll(body, way))
    case ForI(_, _, _, _, body) => ForI("x", "1", if way.AtEnd? then "0" else "1", false, SteerAll(body, way))
    case Exit(cond) => Exit(if cond.None? then None else Some(if way.ByExit? then "true" else "false"))
    case Return(expr) => Return(if expr.Some? then Some("1") else None)
    case ReturnNext(expr) => ReturnNext(if expr.Some? then Some("1") else None)
    case Case(whens, elseBody) => Case(SteerBranches(whens, way), SteerElse(elseBody, way))
    case _ => stmt
  }

  function SteerElse(elseBody: Else, way: Way): Else
    decreases elseBody, 0
  {
    if elseBody.Else? then Else(SteerAll(elseBody.body, way)) else NoElse
  }

  function SteerAll(stmts: seq<Stmt>, way: Way): seq<Stmt>
    decreases stmts, 0
  {
    if stmts == [] then []
    else [Steer(stmts[0], if May(stmts[0], way) then way else AtEnd)] + SteerAll(stmts[1..], way)
  }

  function SteerBranches(branches: seq<Branch>, way: Way): seq<Branch>
    decreases branches, 0
  {
    if branches == [] then []
    else [Branch(if MayAll(branches[0].body, way) then "true" else "false", SteerAll(branches[0].body, way))]
         + SteerBranches(branches[1..], way)
  }

  /** What the simulation covers, as far as the control structure goes. */
  predicate Modelled(stmt: Stmt)
    decreases stmt, 0
  {
    match stmt
    case Block(body, exceptions) => exceptions.NoExceptions? && AllModelled(body)
    case If(_, thenBody, elsifs, elseBody) =>
      AllModelled(thenBody) && BranchesModelled(elsifs) && (elseBody.Else? ==> AllModelled(elseBody.body))
    case Loop(body) => AllModelled(body)
    case While(_, body) => AllModelled(body)
    case ForI(_, _, _, _, body) => AllModelled(body)
    case ReturnNext(expr) => expr.Some?
    case Case(whens, elseBody) => whens != [] && BranchesModelled(whens) && elseBody.Else? && AllModelled(elseBody.body)
    case ForS(_, _, _) => false
    case Simple(_) => false
    case _ => true
  }

  predicate AllModelled(stmts: seq<Stmt>)
    decreases stmts, 0
  {
    stmts != [] ==> Modelled(stmts[0]) && AllModelled(stmts[1..])
  }

  predicate BranchesModelled(branches: seq<Branch>)
    decreases branches, 0
  {
    branches != [] ==> AllModelled(branches[0].body) && BranchesModelled(branches[1..])
  }

  lemma ConstantsAgree()
    ensures TextsAgree(Constants()) && ExprsAgree(Constants()) && NamesDistinct(DATUMS)
    ensures IsCondition(Constants(), "true") && IsCondition(Constants(), "false")
    ensures AssignedExpr("1") == "1" && Pl.DatumOf(DATUMS, "x") == 0 && Pl.DatumOf(DATUMS, "found") == 1
  {
    assert VarName(DATUMS, 0) == "x" && |"x"| == 1 && |"found"| == 5 && |"_loop_var"| > 1 && |"_result_set"| > 1
        && |"_sqlstate"| > 1;
  }

  lemma {:induction false} SteeredIsSupported(stmt: Stmt, way: Way)
    requires Modelled(stmt)
    ensures SameShape(stmt, Steer(stmt, way)) && Supported(Steer(stmt, way), Constants())
    decreases stmt, 1
  {
    ConstantsAgree();
    match stmt
    case Block(body, _) => AllSteeredAreSupported(body, way);
    case If(_, _, _, _) => SteeredIfIsSupported(stmt, way);
    case Loop(body) => AllSteeredAreSupported(body, if way.AtEnd? then ByExit else way);
    case While(_, body) => AllSteeredAreSupported(body, way);
    case ForI(_, _, _, _, body) => AllSteeredAreSupported(body, way);
    case Case(whens, elseBody) =>
      SteeredBranchesAreSupported(whens, way);
      AllSteeredAreSupported(elseBody.body, way);
    case _ =>
  }

  lemma {:induction false} SteeredIfIsSupported(stmt: Stmt, way: Way)
    requires stmt.If? && Modelled(stmt)
    ensures SameShape(stmt, Steer(stmt, way)) && Supported(Steer(stmt, way), Constants())
    decreases stmt, 0
  {
    ConstantsAgree();
    AllSteeredAreSupported(stmt.thenBody, way);
    SteeredBranchesAreSupported(stmt.elsifs, way);
    if stmt.elseBody.Else? {
      AllSteeredAreSupported(stmt.elseBody.body, way);
    }
  }

  lemma {:induction false} AllSteeredAreSupported(stmts: seq<Stmt>, way: Way)
    requires AllModelled(stmts)
    ensures AllSameShape(stmts, SteerAll(stmts, way)) && AllSupported(SteerAll(stmts, way), Constants())
    decreases stmts, 0
  {
    if stmts != [] {
      SteeredIsSupported(stmts[0], if May(stmts[0], way) then way else AtEnd);
      AllSteeredAreSupported(stmts[1..], way);
      assert SteerAll(stmts, way)[1..] == SteerAll(stmts[1..], way);
    }
  }

  lemma {:induction false} SteeredBranchesAreSupported(branches: seq<Branch>, way: Way)
    requires BranchesModelled(branches)
    ensures BranchesSameShape(branches, SteerBranches(branches, way))
    ensures BranchesSupported(SteerBranches(branches, way), Constants())
    decreases branches, 0
  {
    if branches != [] {
      ConstantsAgree();
      AllSteeredAreSupported(branches[0].body, way);
      SteeredBranchesAreSupported(branches[1..], way);
      assert SteerBranches(branches, way)[1..] == SteerBranches(branches[1..], way);
    }
  }

  // ----- They do -----

  /** The fuel that one passage needs. */
  function Loops(stmt: Stmt): nat
    decreases stmt, 0
  {
    match stmt
    case Block(body, _) => LoopsOfAll(body)
    case If(_, thenBody, elsifs, elseBody) =>
      LoopsOfAll(thenBody) + LoopsOfBranches(elsifs) + (if elseBody.Else? then LoopsOfAll(elseBody.body) else 0)
    case Loop(body) => 1 + LoopsOfAll(body)
    case While(_, body) => 1 + LoopsOfAll(body)
    case ForI(_, _, _, _, body) => LoopsOfAll(body)
    case Case(whens, elseBody) => LoopsOfBranches(whens) + (if elseBody.Else? then LoopsOfAll(elseBody.body) else 0)
    case _ => 0
  }

  function LoopsOfAll(stmts: seq<Stmt>): nat
    decreases stmts, 0
  {
    if stmts == [] then 0 else Loops(stmts[0]) + LoopsOfAll(stmts[1..])
  }

  function LoopsOfBranches(branches: seq<Branch>): nat
    decreases branches, 0
  {
    if branches == [] then 0 else LoopsOfAll(branches[0].body) + LoopsOfBranches(branches[1..])
  }

  predicate EndsBy(o: Outcome<PlState>, way: Way) {
    WayOf(o) == way && !way.NoWay? && |o.state.vars| == 1
  }

  lemma {:induction false} SteeredEnds(stmt: Stmt, way: Way, s: PlState, fuel: nat)
    requires Modelled(stmt) && May(stmt, way) && !way.NoWay? && |s.vars| == 1 && fuel >= Loops(stmt)
    ensures EndsBy(Pl.Exec(Steer(stmt, way), DATUMS, Constants().pl, s, fuel), way)
    decreases stmt, 1
  {
    ConstantsAgree();
    match stmt
    case Block(body, _) => AllSteeredEnd(body, way, s, fuel);
    case If(_, _, _, _) => SteeredIfEnds(stmt, way, s, fuel);
    case Loop(body) => AllSteeredEnd(body, if way.AtEnd? then ByExit else way, s, fuel - 1);
    case While(_, body) =>
      if !way.AtEnd? {
        AllSteeredEnd(body, way, s, fuel - 1);
      }
    case ForI(_, _, _, _, body) =>
      if !way.AtEnd? {
        AllSteeredEnd(body, way, s.(vars := s.vars[0 := Int(1)]), fuel);
      }
      SteeredForEnds(body, way, s, fuel);
    case Case(_, _) => SteeredCaseEnds(stmt, way, s, fuel);
    case _ =>
  }

  lemma {:induction false} SteeredIfEnds(stmt: Stmt, way: Way, s: PlState, fuel: nat)
    requires stmt.If? && Modelled(stmt) && May(stmt, way) && !way.NoWay? && |s.vars| == 1 && fuel >= Loops(stmt)
    ensures EndsBy(Pl.Exec(Steer(stmt, way), DATUMS, Constants().pl, s, fuel), way)
    decreases stmt, 0
  {
    if MayAll(stmt.thenBody, way) {
      AllSteeredEnd(stmt.thenBody, way, s, fuel);
    } else {
      SteeredBranchesEnd(stmt.elsifs, way, s, fuel);
      if !MayBranches(stmt.elsifs, way) && stmt.elseBody.Else? {
        AllSteeredEnd(stmt.elseBody.body, way, s, fuel);
      }
    }
  }

  lemma {:induction false} SteeredCaseEnds(stmt: Stmt, way: Way, s: PlState, fuel: nat)
    requires stmt.Case? && Modelled(stmt) && May(stmt, way) && !way.NoWay? && |s.vars| == 1 && fuel >= Loops(stmt)
    ensures EndsBy(Pl.Exec(Steer(stmt, way), DATUMS, Constants().pl, s, fuel), way)
    decreases stmt, 0
  {
    SteeredBranchesEnd(stmt.whens, way, s, fuel);
    if !MayBranches(stmt.whens, way) {
      AllSteeredEnd(stmt.elseBody.body, way, s, fuel);
    }
  }

  /** A loop over one value, or over none to get past it. */
  lemma SteeredForEnds(body: seq<Stmt>, way: Way, s: PlState, fuel: nat)
    requires !way.ByExit? && |s.vars| == 1
    requires way.AtEnd? || EndsBy(Pl.ExecList(SteerAll(body, way), DATUMS, Constants().pl,
                                              s.(vars := s.vars[0 := Int(1)]), fuel), way)
    ensures var stmt := ForI("x", "1", if way.AtEnd? then "0" else "1", false, SteerAll(body, way));
            EndsBy(Pl.Exec(stmt, DATUMS, Constants().pl, s, fuel), way)
  {
    ConstantsAgree();
    assert Ascending(1, 0) == [] && Ascending(1, 1) == [1];
  }

  lemma {:induction false} AllSteeredEnd(stmts: seq<Stmt>, way: Way, s: PlState, fuel: nat)
    requires AllModelled(stmts) && MayAll(stmts, way) && !way.NoWay? && |s.vars| == 1 && fuel >= LoopsOfAll(stmts)
    ensures EndsBy(Pl.ExecList(SteerAll(stmts, way), DATUMS, Constants().pl, s, fuel), way)
    decreases stmts, 0
  {
    if stmts != [] {
      var aim := if May(stmts[0], way) then way else AtEnd;
      SteeredEnds(stmts[0], aim, s, fuel);
      assert SteerAll(stmts, way)[1..] == SteerAll(stmts[1..], way);
      if aim.AtEnd? {
        AllSteeredEnd(stmts[1..], way, Pl.Exec(Steer(stmts[0], aim), DATUMS, Constants().pl, s, fuel).state, fuel);
      }
    }
  }

  lemma {:induction false} SteeredBranchesEnd(branches: seq<Branch>, way: Way, s: PlState, fuel: nat)
    requires BranchesModelled(branches) && !way.NoWay? && |s.vars| == 1 && fuel >= LoopsOfBranches(branches)
    ensures var o := Pl.ExecBranches(SteerBranches(branches, way), DATUMS, Constants().pl, s, fuel);
            if MayBranches(branches, way) then o.Some? && EndsBy(o.value, way) else o.None?
    decreases branches, 0
  {
    if branches != [] {
      assert SteerBranches(branches, way)[1..] == SteerBranches(branches[1..], way);
      if MayAll(branches[0].body, way) {
        AllSteeredEnd(branches[0].body, way, s, fuel);
      } else {
        SteeredBranchesEnd(branches[1..], way, s, fuel);
      }
    }
  }

  // ----- Functions that are right whatever their expressions are -----

  /** No way through the body ends amiss. */
  predicate EndsWell(kind: Kind, body: seq<Stmt>) {
    match kind
    case ReturnsValue => !MayAll(body, AtEnd) && !MayAll(body, Bare)
    case ReturnsVoid => !MayAll(body, WithValue)
    case ReturnsSet =>
      HasReturnNext(body) || (!MayAll(body, AtEnd) && !MayAll(body, Bare) && !MayAll(body, WithValue))
  }

  /** A translation as it is made, with expressions that agree, and states that match. */
  ghost predicate Comparable(body: seq<Stmt>, c: Setting, s: PlState, t: LuaState) {
    SupportedBody(body, c) && ExprsAgree(c) && NamesDistinct(c.env.datums) && Matches(c, s, t)
    && c.env.isSetof == HasReturnNext(body)
  }

  ghost predicate CallsAgree(body: seq<Stmt>, kind: Kind, c: Setting, s: PlState, t: LuaState, fuel: nat) {
    var f := Function.Function(None, c.env.datums, body);
    LuaCall(f, c, t, fuel) == Delivered(PlCall(f, kind, c, s, fuel))
  }

  /** Every function of a given control structure comes to the same in both languages exactly if no way through the body
      ends amiss. In particular a value function must not reach its end. */
  lemma {:induction false} EndsWellIff(kind: Kind, body: seq<Stmt>)
    requires AllModelled(body) && (HasReturnNext(body) ==> kind.ReturnsSet?)
    ensures (forall b, c, s, t, fuel: nat ::
               AllSameShape(body, b) && Comparable(b, c, s, t) ==> CallsAgree(b, kind, c, s, t, fuel))
            <==> EndsWell(kind, body)
  {
    if EndsWell(kind, body) {
      forall b, c, s, t, fuel: nat | AllSameShape(body, b) && Comparable(b, c, s, t)
        ensures CallsAgree(b, kind, c, s, t, fuel)
      {
        WellEndedAgrees(kind, body, b, c, s, t, fuel);
      }
    } else {
      var way := AmissWay(kind, body);
      AmissShows(kind, body, way);
    }
  }

  lemma WellEndedAgrees(kind: Kind, body: seq<Stmt>, b: seq<Stmt>, c: Setting, s: PlState, t: LuaState, fuel: nat)
    requires EndsWell(kind, body) && (HasReturnNext(body) ==> kind.ReturnsSet?)
    requires AllSameShape(body, b) && Comparable(b, c, s, t)
    ensures CallsAgree(b, kind, c, s, t, fuel)
  {
    var way := WayOf(Pl.ExecList(b, c.env.datums, c.pl, s, fuel));
    AllEndAsTheyMay(b, c.env.datums, c.pl, s, fuel);
    ShapesDecide(body, b, way);
    FunctionCorrect(Function.Function(None, c.env.datums, b), kind, c, s, t, fuel);
  }

  function AmissWay(kind: Kind, body: seq<Stmt>): (way: Way)
    requires !EndsWell(kind, body)
    ensures MayAll(body, way) && !way.ByExit? && !way.NoWay?
    ensures kind.ReturnsValue? ==> !way.WithValue?
    ensures kind.ReturnsVoid? ==> way.WithValue?
  {
    if kind.ReturnsVoid? then WithValue
    else if MayAll(body, AtEnd) then AtEnd
    else if MayAll(body, Bare) then Bare else WithValue
  }

  lemma AmissShows(kind: Kind, body: seq<Stmt>, way: Way)
    requires AllModelled(body) && !EndsWell(kind, body) && (HasReturnNext(body) ==> kind.ReturnsSet?)
    requires way == AmissWay(kind, body)
    ensures var b, c := SteerAll(body, way), Constants();
            var s, t := PlState.PlState([Null], []), LuaState.LuaState(map[], None, L.Unmarked);
            && AllSameShape(body, b) && Comparable(b, c, s, t)
            && !CallsAgree(b, kind, c, s, t, LoopsOfAll(body))
  {
    var b, c, fuel := SteerAll(body, way), Constants(), LoopsOfAll(body);
    var s, t := PlState.PlState([Null], []), LuaState.LuaState(map[], None, L.Unmarked);
    ConstantsAgree();
    AllSteeredAreSupported(body, way);
    ShapesDecide(body, b, way);
    AllSteeredEnd(body, way, s, fuel);
    FunctionCorrect(Function.Function(None, DATUMS, b), kind, c, s, t, fuel);
  }
}
