/** PostgreSQL's own transaction blocks, and when the session behaves like them. */
module PostgresSession {
  import opened Sqlite
  import opened Session

  // ----- PostgreSQL -----

  datatype Block<C> = Outside | Inside(base: C, stack: seq<Savepoint<C>>, aborted: bool)

  datatype Postgres<C> = Postgres(contents: C, block: Block<C>)

  function NamesOf<C>(stack: seq<Savepoint<C>>): (names: seq<string>)
    ensures |names| == |stack| && forall i :: 0 <= i < |names| ==> names[i] == stack[i].name
  {
    seq(|stack|, i requires 0 <= i < |stack| => stack[i].name)
  }

  /** Every error inside a block aborts it, that of naming an unknown savepoint included. In an aborted block only the
      ends of the block and ROLLBACK TO are obeyed. */
  function PgStep<C>(p: Postgres<C>, command: Command<C>): Postgres<C> {
    match p.block
    case Outside =>
      (match command
       case Begin => p.(block := Inside(p.contents, [], false))
       case Statement(effect) => p.(contents := effect(p.contents).0)
       case _ => p)
    case Inside(base, stack, aborted) =>
      (match command
       case Begin => p
       case Commit(_) => Postgres(if aborted then base else p.contents, Outside)
       case Rollback => Postgres(base, Outside)
       case RollbackTo(name) =>
         var at := LastMatch(NamesOf(stack), name);
         if at < 0 then p.(block := Inside(base, stack, true))
         else Postgres(stack[at].snapshot, Inside(base, stack[..at + 1], false))
       case SetSavepoint(name) =>
         if aborted then p else p.(block := Inside(base, stack + [Savepoint(name, p.contents)], false))
       case Release(name) =>
         if aborted then p
         else
           var at := LastMatch(NamesOf(stack), name);
           p.(block := if at < 0 then Inside(base, stack, true) else Inside(base, stack[..at], false))
       case Statement(effect) =>
         if aborted then p else Postgres(effect(p.contents).0, Inside(base, stack, effect(p.contents).1)))
  }

  function PgRun<C>(p: Postgres<C>, commands: seq<Command<C>>): Postgres<C> {
    if commands == [] then p
    else PgStep(PgRun(p, commands[..|commands| - 1]), commands[|commands| - 1])
  }

  // ----- The session as PostgreSQL would see it -----

  function View<C>(w: World<C>): Postgres<C>
    requires InStep(w)
  {
    Postgres(w.db.contents,
             if w.status == Idle then Outside
             else Inside(w.db.transaction.base, w.db.transaction.stack, w.status == InError))
  }

  lemma ViewHasNames<C>(w: World<C>)
    requires InStep(w) && w.status != Idle
    ensures NamesOf(View(w).block.stack) == w.savepoints
  {
  }

  /** What a client must keep to. ROLLBACK TO and RELEASE of an unknown savepoint abort the block in PostgreSQL and
      leave it as it is here; an aborted block takes SAVEPOINT and RELEASE here; and COMMIT of one commits what was done
      before the failure. */
  ghost predicate Keeps<C>(w: World<C>, command: Command<C>)
    requires InStep(w)
  {
    match command
    case RollbackTo(name) => w.status == InTransaction ==> LastMatch(w.savepoints, name) >= 0
    case Release(name) =>
      (w.status == InTransaction ==> LastMatch(w.savepoints, name) >= 0)
      && (w.status == InError ==> LastMatch(w.savepoints, name) < 0)
    case SetSavepoint(_) => w.status != InError
    case Commit(_) => w.status == InError ==> w.db.contents == w.db.transaction.base
    case _ => true
  }

  lemma StepAgreesIff<C>(w: World<C>, command: Command<C>)
    requires InStep(w) && Proper(w, command)
    ensures InStep(Step(w, command).0)
    ensures View(Step(w, command).0) == PgStep(View(w), command) <==> Keeps(w, command)
  {
    StepKeepsInStepIff(w, command);
    if w.status != Idle {
      ViewHasNames(w);
      match command
      case SetSavepoint(name) => SavepointAgreesIff(w, name);
      case RollbackTo(name) => RollbackToAgreesIff(w, name);
      case Release(name) => ReleaseAgreesIff(w, name);
      case _ =>
    }
  }

  lemma SavepointAgreesIff<C>(w: World<C>, name: string)
    requires InStep(w) && w.status != Idle && InStep(Step(w, SetSavepoint(name)).0)
    ensures View(Step(w, SetSavepoint(name)).0) == PgStep(View(w), SetSavepoint(name)) <==> w.status != InError
  {
    var entry := Savepoint(name, w.db.contents);
    assert |w.db.transaction.stack + [entry]| != |w.db.transaction.stack|;
  }

  lemma RollbackToAgreesIff<C>(w: World<C>, name: string)
    requires InStep(w) && w.status != Idle && InStep(Step(w, RollbackTo(name)).0)
    requires NamesOf(View(w).block.stack) == w.savepoints
    ensures View(Step(w, RollbackTo(name)).0) == PgStep(View(w), RollbackTo(name)) <==> Keeps(w, RollbackTo(name))
  {
  }

  lemma ReleaseAgreesIff<C>(w: World<C>, name: string)
    requires InStep(w) && w.status != Idle && InStep(Step(w, Release(name)).0)
    requires NamesOf(View(w).block.stack) == w.savepoints
    ensures View(Step(w, Release(name)).0) == PgStep(View(w), Release(name)) <==> Keeps(w, Release(name))
  {
    var at := LastMatch(w.savepoints, name);
    if at >= 0 {
      assert |w.db.transaction.stack[..at]| != |w.db.transaction.stack|;
    }
  }

  // ----- Whole runs -----

  ghost predicate AgreesAt<C>(w: World<C>, commands: seq<Command<C>>, n: nat)
    requires n <= |commands| && InStep(w) && ProperRun(w, commands)
  {
    ProperPrefix(w, commands, n);
    ProperRunsStayInStep(w, commands[..n]);
    View(Run(w, commands[..n])) == PgRun(View(w), commands[..n])
  }

  /** Command n keeps to the conditions; for COMMIT of an aborted transaction: the contents are those of its BEGIN. */
  ghost predicate KeepsAt<C>(w: World<C>, commands: seq<Command<C>>, n: nat)
    requires n < |commands| && InStep(w) && ProperRun(w, commands)
  {
    ProperPrefix(w, commands, n);
    ProperRunsStayInStep(w, commands[..n]);
    var before := Run(w, commands[..n]);
    if commands[n].Commit? then
      before.status == InError ==>
        History(w, commands)[n] == History(w, commands)[BeginTime(w, commands[..n])]
    else Keeps(before, commands[n])
  }

  lemma KeepsAtIsKeeps<C>(w: World<C>, commands: seq<Command<C>>, n: nat)
    requires InStep(w) && w.status == Idle && ProperRun(w, commands) && n < |commands|
    ensures InStep(Run(w, commands[..n]))
    ensures KeepsAt(w, commands, n) <==> Keeps(Run(w, commands[..n]), commands[n])
  {
    var before := commands[..n];
    ProperPrefix(w, commands, n);
    ContentsAreFromHistory(w, before);
    ProperRunsStayInStep(w, before);
    assert commands[..BeginTime(w, before)] == before[..BeginTime(w, before)] && before[..n] == before;
  }

  lemma OneCommandAgreesIff<C>(w: World<C>, commands: seq<Command<C>>, n: nat)
    requires InStep(w) && w.status == Idle && ProperRun(w, commands) && n < |commands| && AgreesAt(w, commands, n)
    ensures AgreesAt(w, commands, n + 1) <==> KeepsAt(w, commands, n)
  {
    assert commands[..n + 1][..n] == commands[..n];
    KeepsAtIsKeeps(w, commands, n);
    ProperPrefix(w, commands, n);
    ProperRunsStayInStep(w, commands[..n]);
    StepAgreesIff(Run(w, commands[..n]), commands[n]);
  }

  lemma {:induction false} AgreesWhileKept<C>(w: World<C>, commands: seq<Command<C>>, n: nat)
    requires InStep(w) && w.status == Idle && ProperRun(w, commands) && n <= |commands|
    requires forall k :: 0 <= k < n ==> KeepsAt(w, commands, k)
    ensures AgreesAt(w, commands, n)
  {
    if n > 0 {
      AgreesWhileKept(w, commands, n - 1);
      OneCommandAgreesIff(w, commands, n - 1);
    }
  }

  /** A proper run is PostgreSQL's, moment by moment, exactly if no ROLLBACK TO or RELEASE in a sound transaction names
      an unknown savepoint, no SAVEPOINT or matching RELEASE is issued in an aborted one, and every COMMIT of an aborted
      one finds the contents of its BEGIN. */
  lemma {:induction false} AgreesWithPostgresIff<C>(w: World<C>, commands: seq<Command<C>>)
    requires InStep(w) && w.status == Idle && ProperRun(w, commands)
    ensures (forall n :: 0 <= n <= |commands| ==> AgreesAt(w, commands, n))
       <==> forall n :: 0 <= n < |commands| ==> KeepsAt(w, commands, n)
  {
    if forall n :: 0 <= n <= |commands| ==> AgreesAt(w, commands, n) {
      forall n | 0 <= n < |commands|
        ensures KeepsAt(w, commands, n)
      {
        assert AgreesAt(w, commands, n) && AgreesAt(w, commands, n + 1);
        OneCommandAgreesIff(w, commands, n);
      }
    }
    if forall n :: 0 <= n < |commands| ==> KeepsAt(w, commands, n) {
      forall n | 0 <= n <= |commands|
        ensures AgreesAt(w, commands, n)
      {
        AgreesWhileKept(w, commands, n);
      }
    }
  }

  // ----- Runs that do not agree -----

  lemma BothOneMore<C>(w: World<C>, p: Postgres<C>, commands: seq<Command<C>>, command: Command<C>)
    ensures Run(w, commands + [command]) == Step(Run(w, commands), command).0
    ensures PgRun(p, commands + [command]) == PgStep(PgRun(p, commands), command)
  {
    assert (commands + [command])[..|commands|] == commands;
  }

  /** BEGIN, a statement, ROLLBACK TO an unknown savepoint, COMMIT: PostgreSQL rolls back, and here the work is
      committed. */
  lemma FailedRollbackToIsIgnored<C>(w: World<C>, effect: C -> (C, bool), name: string)
    requires InStep(w) && w.status == Idle && !effect(w.db.contents).1
    ensures var commands := [Begin, Statement(effect), RollbackTo(name), Commit(true)];
            && Run(w, commands).db == Database(effect(w.db.contents).0, NoTransaction)
            && PgRun(View(w), commands) == Postgres(w.db.contents, Outside)
  {
    var a, b: seq<Command<C>> := [Begin], [Begin] + [Statement(effect)];
    var c := b + [RollbackTo(name)];
    BothOneMore(w, View(w), [], Begin);
    assert [] + [Begin] == a;
    BothOneMore(w, View(w), a, Statement(effect));
    assert Run(w, b) == World(InTransaction, [], Database(effect(w.db.contents).0, Open(w.db.contents, [], true)));
    BothOneMore(w, View(w), b, RollbackTo(name));
    assert Run(w, c) == Run(w, b) && NamesOf<C>([]) == [];
    BothOneMore(w, View(w), c, Commit(true));
    assert c + [Commit(true)] == [Begin, Statement(effect), RollbackTo(name), Commit(true)];
  }

  /** BEGIN, a failing statement, SAVEPOINT: PostgreSQL refuses the savepoint, and here it is set. */
  lemma SavepointAfterFailureIsSet<C>(w: World<C>, effect: C -> (C, bool), name: string)
    requires InStep(w) && w.status == Idle && effect(w.db.contents).1
    ensures var commands := [Begin, Statement(effect), SetSavepoint(name)];
            && Run(w, commands).savepoints == [name] && Run(w, commands).status == InError
            && PgRun(View(w), commands).block == Inside(w.db.contents, [], true)
  {
    var a, b: seq<Command<C>> := [Begin], [Begin] + [Statement(effect)];
    BothOneMore(w, View(w), [], Begin);
    assert [] + [Begin] == a;
    BothOneMore(w, View(w), a, Statement(effect));
    BothOneMore(w, View(w), b, SetSavepoint(name));
    assert b + [SetSavepoint(name)] == [Begin, Statement(effect), SetSavepoint(name)];
  }
}
