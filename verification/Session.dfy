/** The session state machine (src/handler/transaction.rs and the dispatch in src/handler/query.rs): the proxy keeps
    its own transaction status and savepoint names and drives a SQLite connection that has its own. */
module Session {
  import opened Wrappers
  import opened Sqlite

  datatype Status = Idle | InTransaction | InError

  /** `Commit` carries SQLite's answer; `Statement` is anything that is not transaction control, as the contents it
      leaves and whether it failed. */
  datatype Command<!C> =
    | Begin
    | Commit(ok: bool)
    | Rollback
    | SetSavepoint(name: string)
    | RollbackTo(name: string)
    | Release(name: string)
    | Statement(effect: C -> (C, bool))

  datatype Response = Done | NoSuchSavepoint(name: string) | Aborted | Failed

  // ----- The code -----

  class SessionContext {
    var status: Status
    var savepoints: seq<string>

    constructor (status: Status, savepoints: seq<string>)
      ensures this.status == status && this.savepoints == savepoints
    {
      this.status, this.savepoints := status, savepoints;
    }

    /** Only the session's own state changes here; None means that the command is not transaction control. */
    method HandleTransactionControl<C>(command: Command<C>) returns (answer: Option<Response>)
      modifies this
      ensures command.Statement? ==> answer == None && status == old(status) && savepoints == old(savepoints)
      ensures !command.Statement? ==>
                (status, savepoints, answer)
                == (var next := Control(old(status), old(savepoints), command); (next.0, next.1, Some(next.2)))
    {
      answer := Some(Done);
      match command
      case Begin =>
        if status != Idle {
          return;
        }
        status := InTransaction;
      case Commit(_) =>
        if status == Idle {
          return;
        }
        status := Idle;
        savepoints := [];
      case Rollback =>
        status := Idle;
        savepoints := [];
      case SetSavepoint(name) =>
        savepoints := savepoints + [name];
      case RollbackTo(name) =>
        var at := LastMatch(savepoints, name);
        if at < 0 {
          return Some(NoSuchSavepoint(name));
        }
        savepoints := savepoints[..at + 1];
        if status == InError {
          status := InTransaction;
        }
      case Release(name) =>
        var at := LastMatch(savepoints, name);
        if at < 0 {
          return Some(NoSuchSavepoint(name));
        }
        savepoints := savepoints[..at];
      case Statement(_) =>
        answer := None;
    }
  }

  class QueryHandler<C> {
    var session: SessionContext
    const connection: Connection<C>

    constructor (contents: C)
      ensures Now() == Fresh(contents) && fresh(session) && fresh(connection)
    {
      session := new SessionContext(Idle, []);
      connection := new Connection(contents);
    }

    ghost function Now(): World<C>
      reads this, session, connection
    {
      World(session.status, session.savepoints, connection.db)
    }

    /** A transaction command works on a copy of the session, which replaces the stored one after SQLite was driven;
        SQLite's own errors are ignored. Other statements are refused in an aborted transaction, and their failure
        aborts an open one. */
    method ExecuteQuery(command: Command<C>) returns (response: Response)
      modifies this, session, connection
      ensures Now() == Step(old(Now()), command).0 && response == Step(old(Now()), command).1
    {
      var copy := new SessionContext(session.status, session.savepoints);
      var before := copy.status;
      var answer := copy.HandleTransactionControl(command);
      if answer.Some? {
        if before == Idle && copy.status == InTransaction {
          connection.ExecuteBegin();
        } else if before != Idle && copy.status == Idle {
          if command.Rollback? {
            connection.ExecuteRollback();
          } else {
            connection.ExecuteCommit(command.ok);
          }
        } else if command.SetSavepoint? {
          connection.ExecuteSavepoint(command.name);
        } else if command.RollbackTo? {
          connection.ExecuteRollbackTo(command.name);
        } else if command.Release? {
          connection.ExecuteRelease(command.name);
        }
        session := copy;
        return answer.value;
      }
      if session.status == InError {
        return Aborted;
      }
      var failed := connection.ExecuteStatement(command.effect);
      if failed && session.status == InTransaction {
        session := new SessionContext(InError, session.savepoints);
      }
      response := if failed then Failed else Done;
    }
  }

  // ----- Its specification: one step of session and database together -----

  datatype World<C> = World(status: Status, savepoints: seq<string>, db: Database<C>)

  function Fresh<C>(contents: C): World<C> {
    World(Idle, [], Database(contents, NoTransaction))
  }

  function Control<C>(status: Status, savepoints: seq<string>, command: Command<C>): (Status, seq<string>, Response)
    requires !command.Statement?
  {
    match command
    case Begin => (if status == Idle then InTransaction else status, savepoints, Done)
    case Commit(_) => (Idle, if status == Idle then savepoints else [], Done)
    case Rollback => (Idle, [], Done)
    case SetSavepoint(name) => (status, savepoints + [name], Done)
    case RollbackTo(name) =>
      var at := LastMatch(savepoints, name);
      if at < 0 then (status, savepoints, NoSuchSavepoint(name))
      else (if status == InError then InTransaction else status, savepoints[..at + 1], Done)
    case Release(name) =>
      var at := LastMatch(savepoints, name);
      if at < 0 then (status, savepoints, NoSuchSavepoint(name)) else (status, savepoints[..at], Done)
  }

  /** What SQLite is asked to do. */
  function Drive<C>(status: Status, db: Database<C>, command: Command<C>): Database<C>
    requires !command.Statement?
  {
    match command
    case Begin => if status == Idle then db.Begin() else db
    case Commit(ok) => if status == Idle then db else db.Commit(ok)
    case Rollback => if status == Idle then db else db.Rollback()
    case SetSavepoint(name) => db.Mark(name)
    case RollbackTo(name) => db.RollbackTo(name)
    case Release(name) => db.Release(name)
  }

  function Step<C>(w: World<C>, command: Command<C>): (World<C>, Response) {
    if command.Statement? then
      var (contents, failed) := command.effect(w.db.contents);
      if w.status == InError then (w, Aborted)
      else
        var status := if failed && w.status == InTransaction then InError else w.status;
        (World(status, w.savepoints, w.db.(contents := contents)), if failed then Failed else Done)
    else
      var db := Drive(w.status, w.db, command);
      var (status, savepoints, response) := Control(w.status, w.savepoints, command);
      (World(status, savepoints, db), response)
  }

  /** A run, oldest command first. */
  function Run<C>(w: World<C>, commands: seq<Command<C>>): World<C> {
    if commands == [] then w
    else Step(Run(w, commands[..|commands| - 1]), commands[|commands| - 1]).0
  }

  lemma RunOneMore<C>(w: World<C>, commands: seq<Command<C>>, command: Command<C>)
    ensures Run(w, commands + [command]) == Step(Run(w, commands), command).0
  {
    assert (commands + [command])[..|commands|] == commands;
  }

  // ----- The two state machines agree -----

  predicate InStep<C>(w: World<C>) {
    && (w.status == Idle <==> w.db.transaction.NoTransaction?)
    && w.savepoints == w.db.Names()
    && (w.db.transaction.Open? ==> w.db.transaction.explicit)
  }

  /** SAVEPOINT only inside a transaction, and no COMMIT that SQLite refuses. */
  predicate Proper<C>(w: World<C>, command: Command<C>) {
    && (command.SetSavepoint? ==> w.status != Idle)
    && (command.Commit? && w.status != Idle ==> command.ok)
  }

  /** One step keeps the machines together exactly if the command is proper. */
  lemma StepKeepsInStepIff<C>(w: World<C>, command: Command<C>)
    requires InStep(w)
    ensures InStep(Step(w, command).0) <==> Proper(w, command)
  {
    var next := Step(w, command).0;
    if Proper(w, command) && !command.Statement? {
      assert next.savepoints == next.db.Names();
    }
  }

  predicate ProperRun<C>(w: World<C>, commands: seq<Command<C>>) {
    forall i :: 0 <= i < |commands| ==> Proper(Run(w, commands[..i]), commands[i])
  }

  lemma ProperPrefix<C>(w: World<C>, commands: seq<Command<C>>, n: nat)
    requires ProperRun(w, commands) && n <= |commands|
    ensures ProperRun(w, commands[..n])
  {
    forall i | 0 <= i < n
      ensures Proper(Run(w, commands[..n][..i]), commands[..n][i])
    {
      assert commands[..n][..i] == commands[..i];
    }
  }

  /** In every proper run the session is idle exactly when SQLite has no transaction open, and the savepoint names are
      SQLite's, position by position. */
  lemma {:induction false} ProperRunsStayInStep<C>(w: World<C>, commands: seq<Command<C>>)
    requires InStep(w) && ProperRun(w, commands)
    ensures InStep(Run(w, commands))
    decreases |commands|
  {
    if commands != [] {
      var last := |commands| - 1;
      ProperPrefix(w, commands, last);
      ProperRunsStayInStep(w, commands[..last]);
      StepKeepsInStepIff(Run(w, commands[..last]), commands[last]);
    }
  }

  // ----- Where the contents come from -----

  /** A savepoint still open, and the moment (number of commands before it) at which it was set. */
  datatype Mark = Mark(name: string, time: nat)

  function MarkNames(marks: seq<Mark>): (names: seq<string>)
    ensures |names| == |marks| && forall i :: 0 <= i < |marks| ==> names[i] == marks[i].name
  {
    seq(|marks|, i requires 0 <= i < |marks| => marks[i].name)
  }

  /** The end of a transaction drops all savepoints, RELEASE the named one and all later ones, ROLLBACK TO only the
      later ones. */
  function MarksAfter<C>(marks: seq<Mark>, command: Command<C>, time: nat): (next: seq<Mark>)
    requires forall i :: 0 <= i < |marks| ==> marks[i].time < time
    ensures forall i :: 0 <= i < |next| ==> next[i].time <= time
  {
    match command
    case Commit(_) => []
    case Rollback => []
    case SetSavepoint(name) => marks + [Mark(name, time)]
    case RollbackTo(name) =>
      var at := LastMatch(MarkNames(marks), name);
      if at < 0 then marks else marks[..at + 1]
    case Release(name) =>
      var at := LastMatch(MarkNames(marks), name);
      if at < 0 then marks else marks[..at]
    case _ => marks
  }

  /** The savepoints a history of commands leaves open. */
  function OpenMarks<C>(commands: seq<Command<C>>): (marks: seq<Mark>)
    ensures forall i :: 0 <= i < |marks| ==> marks[i].time < |commands|
  {
    if commands == [] then []
    else MarksAfter(OpenMarks(commands[..|commands| - 1]), commands[|commands| - 1], |commands| - 1)
  }

  /** The moment the transaction open at the end of a history began, if the session was idle to begin with. */
  function BeginTime<C>(w: World<C>, commands: seq<Command<C>>): (time: nat)
    ensures time <= |commands|
  {
    if commands == [] then 0 else
      var last := |commands| - 1;
      if Run(w, commands[..last]).status == Idle then last else BeginTime(w, commands[..last])
  }

  /** The contents at every moment of a run. */
  function History<C>(w: World<C>, commands: seq<Command<C>>): (history: seq<C>)
    ensures |history| == |commands| + 1
    ensures forall i :: 0 <= i <= |commands| ==> history[i] == Run(w, commands[..i]).db.contents
  {
    seq(|commands| + 1, i requires 0 <= i <= |commands| => Run(w, commands[..i]).db.contents)
  }

  ghost predicate SnapshotsAreFrom<C>(stack: seq<Savepoint<C>>, marks: seq<Mark>, history: seq<C>)
    requires forall i :: 0 <= i < |marks| ==> marks[i].time < |history|
  {
    |stack| == |marks| && forall i :: 0 <= i < |marks| ==> stack[i].snapshot == history[marks[i].time]
  }

  lemma FirstSnapshots<C>(stack: seq<Savepoint<C>>, marks: seq<Mark>, history: seq<C>, n: nat)
    requires forall i :: 0 <= i < |marks| ==> marks[i].time < |history|
    requires SnapshotsAreFrom(stack, marks, history) && n <= |marks|
    ensures SnapshotsAreFrom(stack[..n], marks[..n], history)
  {
  }

  lemma OneMoreSnapshot<C>(stack: seq<Savepoint<C>>, marks: seq<Mark>, history: seq<C>, name: string)
    requires history != [] && forall i :: 0 <= i < |marks| ==> marks[i].time < |history|
    requires SnapshotsAreFrom(stack, marks, history)
    ensures SnapshotsAreFrom(stack + [Savepoint(name, history[|history| - 1])], marks + [Mark(name, |history| - 1)],
                             history)
  {
  }

  ghost predicate ContentsAreFrom<C>(end: World<C>, marks: seq<Mark>, begin: nat, history: seq<C>)
    requires begin < |history| && forall i :: 0 <= i < |marks| ==> marks[i].time < |history|
  {
    && MarkNames(marks) == end.savepoints
    && SnapshotsAreFrom(end.db.Stack(), marks, history)
    && (end.db.transaction.Open? ==> end.db.transaction.base == history[begin])
  }

  lemma MarksAreNamed<C>(w: World<C>, command: Command<C>, marks: seq<Mark>, time: nat)
    requires InStep(w) && MarkNames(marks) == w.savepoints
    requires forall i :: 0 <= i < |marks| ==> marks[i].time < time
    ensures MarkNames(MarksAfter(marks, command, time)) == Step(w, command).0.savepoints
  {
  }

  lemma SnapshotsStayFrom<C>(w: World<C>, command: Command<C>, marks: seq<Mark>, begin: nat, history: seq<C>)
    requires InStep(w) && Proper(w, command)
    requires history != [] && history[|history| - 1] == w.db.contents
    requires begin < |history| && forall i :: 0 <= i < |marks| ==> marks[i].time < |history| - 1
    requires ContentsAreFrom(w, marks, begin, history)
    ensures var next, after := Step(w, command).0, MarksAfter(marks, command, |history| - 1);
            SnapshotsAreFrom(next.db.Stack(), after, history)
  {
    assert w.db.Names() == MarkNames(marks);
    match command
    case SetSavepoint(name) => OneMoreSnapshot(w.db.Stack(), marks, history, name);
    case RollbackTo(name) =>
      FirstSnapshots(w.db.Stack(), marks, history, LastMatch(MarkNames(marks), name) + 1);
    case Release(name) =>
      var at := LastMatch(MarkNames(marks), name);
      FirstSnapshots(w.db.Stack(), marks, history, if at < 0 then 0 else at);
    case _ =>
  }

  lemma ContentsStayFrom<C>(w: World<C>, command: Command<C>, marks: seq<Mark>, begin: nat, history: seq<C>)
    requires InStep(w) && Proper(w, command)
    requires history != [] && history[|history| - 1] == w.db.contents
    requires begin < |history| && forall i :: 0 <= i < |marks| ==> marks[i].time < |history| - 1
    requires ContentsAreFrom(w, marks, begin, history)
    ensures ContentsAreFrom(Step(w, command).0, MarksAfter(marks, command, |history| - 1),
                            if w.status == Idle then |history| - 1 else begin, history)
  {
    MarksAreNamed(w, command, marks, |history| - 1);
    SnapshotsStayFrom(w, command, marks, begin, history);
  }

  lemma LongerHistory<C>(end: World<C>, marks: seq<Mark>, begin: nat, history: seq<C>, longer: seq<C>)
    requires history <= longer
    requires begin < |history| && forall i :: 0 <= i < |marks| ==> marks[i].time < |history|
    requires ContentsAreFrom(end, marks, begin, history)
    ensures ContentsAreFrom(end, marks, begin, longer)
  {
  }

  lemma HistoryGrows<C>(w: World<C>, commands: seq<Command<C>>)
    requires commands != []
    ensures History(w, commands[..|commands| - 1]) <= History(w, commands)
  {
    var last := |commands| - 1;
    forall n | 0 <= n <= last
      ensures History(w, commands)[n] == History(w, commands[..last])[n]
    {
      assert commands[..n] == commands[..last][..n];
    }
  }

  /** Over every proper run: each savepoint open in SQLite holds exactly the contents from the moment its SAVEPOINT
      command was issued, and an open transaction's base those from the moment of its BEGIN. */
  lemma {:induction false} ContentsAreFromHistory<C>(w: World<C>, commands: seq<Command<C>>)
    requires InStep(w) && w.status == Idle && ProperRun(w, commands)
    ensures ContentsAreFrom(Run(w, commands), OpenMarks(commands), BeginTime(w, commands), History(w, commands))
    decreases |commands|
  {
    if commands != [] {
      var last := |commands| - 1;
      var before := commands[..last];
      ProperPrefix(w, commands, last);
      ContentsAreFromHistory(w, before);
      ProperRunsStayInStep(w, before);
      assert before[..last] == before;
      ContentsStayFrom(Run(w, before), commands[last], OpenMarks(before), BeginTime(w, before), History(w, before));
      HistoryGrows(w, commands);
      LongerHistory(Run(w, commands), OpenMarks(commands), BeginTime(w, commands), History(w, before),
                    History(w, commands));
    }
  }

  // ----- What the commands do to the contents, over whole runs -----

  /** ROLLBACK restores the contents at the BEGIN of the open transaction, from any state inside it. */
  lemma RollbackRestoresBegin<C>(w: World<C>, commands: seq<Command<C>>)
    requires InStep(w) && w.status == Idle && ProperRun(w, commands)
    requires Run(w, commands).status != Idle
    ensures var after := Run(w, commands + [Rollback]);
            && after.status == Idle && after.savepoints == [] && after.db.transaction.NoTransaction?
            && after.db.contents == History(w, commands)[BeginTime(w, commands)]
  {
    ContentsAreFromHistory(w, commands);
    ProperRunsStayInStep(w, commands);
    RunOneMore(w, commands, Rollback);
  }

  /** ROLLBACK TO restores the contents at the most recent matching SAVEPOINT still open, keeps that savepoint, drops
      the later ones, and leaves the aborted state; with no match it changes nothing. */
  lemma RollbackToRestoresSavepoint<C>(w: World<C>, commands: seq<Command<C>>, name: string)
    requires InStep(w) && w.status == Idle && ProperRun(w, commands)
    ensures var before := Run(w, commands);
            var after := Run(w, commands + [RollbackTo(name)]);
            var marks := OpenMarks(commands);
            var at := LastMatch(MarkNames(marks), name);
            if at < 0 then after == before
            else
              && after.db.contents == History(w, commands)[marks[at].time]
              && after.savepoints == MarkNames(marks)[..at + 1]
              && after.status == InTransaction
  {
    ContentsAreFromHistory(w, commands);
    ProperRunsStayInStep(w, commands);
    RunOneMore(w, commands, RollbackTo(name));
  }

  /** A mark is indeed a SAVEPOINT command of the history, with its name; marks are in the order of the commands. */
  lemma {:induction false} MarksAreCommands<C>(commands: seq<Command<C>>)
    ensures forall i :: 0 <= i < |OpenMarks(commands)| ==>
                          commands[OpenMarks(commands)[i].time] == SetSavepoint(OpenMarks(commands)[i].name)
    ensures forall i, j :: 0 <= i < j < |OpenMarks(commands)| ==>
                             OpenMarks(commands)[i].time < OpenMarks(commands)[j].time
    decreases |commands|
  {
    if commands != [] {
      MarksAreCommands(commands[..|commands| - 1]);
    }
  }

  /** RELEASE changes no contents, nor what other connections see. */
  lemma ReleaseChangesNothing<C>(w: World<C>, name: string)
    requires InStep(w)
    ensures var after := Step(w, Release(name)).0;
            && after.db.contents == w.db.contents && after.db.Committed() == w.db.Committed()
            && after.status == w.status
            && after.savepoints == (var at := LastMatch(w.savepoints, name);
                                    if at < 0 then w.savepoints else w.savepoints[..at])
  {
  }

  /** Once aborted, nothing but COMMIT, ROLLBACK and ROLLBACK TO changes the contents or ends the aborted state, and
      every ordinary statement is refused. */
  lemma {:induction false} AbortedIsFrozen<C>(w: World<C>, commands: seq<Command<C>>)
    requires w.status == InError
    requires forall c :: c in commands ==> c.Statement? || c.Begin? || c.SetSavepoint? || c.Release?
    requires InStep(w)
    ensures var end := Run(w, commands);
            && end.status == InError && end.db.contents == w.db.contents && InStep(end)
            && forall effect :: Step(end, Statement(effect)) == (end, Aborted)
    decreases |commands|
  {
    if commands != [] {
      var last := |commands| - 1;
      assert commands[last] in commands;
      AbortedIsFrozen(w, commands[..last]);
      StepKeepsInStepIff(Run(w, commands[..last]), commands[last]);
    }
  }

  /** The aborted state is entered in one way only: by a failing statement inside a transaction. */
  lemma AbortedOnlyByFailure<C>(w: World<C>, command: Command<C>)
    requires w.status != InError
    ensures Step(w, command).0.status == InError
       <==> w.status == InTransaction && command.Statement? && command.effect(w.db.contents).1
  {
  }

  /** Other connections see a change only through a successful COMMIT, or a statement outside a transaction. */
  lemma CommittedOnlyByCommit<C>(w: World<C>, command: Command<C>)
    requires InStep(w) && Proper(w, command)
    ensures var after := Step(w, command).0;
            after.db.Committed() ==
              if w.status != Idle && command.Commit? then w.db.contents
              else if w.status == Idle && command.Statement? then command.effect(w.db.contents).0
              else w.db.Committed()
  {
  }

  // ----- What the answers tell a client -----

  function Answer<C>(w: World<C>, commands: seq<Command<C>>, command: Command<C>): Response {
    Step(Run(w, commands), command).1
  }

  /** Whether the command names a savepoint that the history of commands has left open, or names none. */
  predicate SavepointIsOpen<C>(commands: seq<Command<C>>, command: Command<C>) {
    command.RollbackTo? || command.Release? ==>
      exists i :: 0 <= i < |OpenMarks(commands)| && SameName(OpenMarks(commands)[i].name, command.name)
  }

  lemma SavepointIsOpenIff<C>(commands: seq<Command<C>>, command: Command<C>)
    requires command.RollbackTo? || command.Release?
    ensures SavepointIsOpen(commands, command) <==> LastMatch(MarkNames(OpenMarks(commands)), command.name) >= 0
  {
    var marks := OpenMarks(commands);
    var at := LastMatch(MarkNames(marks), command.name);
    assert at >= 0 ==> SameName(marks[at].name, command.name);
  }

  /** After any history: `Failed` is the answer exactly to a statement that was executed and failed, `Aborted` to one
      that was refused, NoSuchSavepoint to ROLLBACK TO and RELEASE of a name that no open SAVEPOINT has, and `Done` to
      everything else. */
  lemma AnswersIff<C>(w: World<C>, commands: seq<Command<C>>, command: Command<C>)
    requires InStep(w) && w.status == Idle && ProperRun(w, commands)
    ensures var before, answer := Run(w, commands), Answer(w, commands, command);
            && (answer == Failed <==>
                  command.Statement? && before.status != InError && command.effect(before.db.contents).1)
            && (answer == Aborted <==> command.Statement? && before.status == InError)
            && (answer.NoSuchSavepoint? <==> !SavepointIsOpen(commands, command))
            && (answer.NoSuchSavepoint? ==> answer.name == command.name)
  {
    ContentsAreFromHistory(w, commands);
    if command.RollbackTo? || command.Release? {
      SavepointIsOpenIff(commands, command);
    }
  }

  /** What a client may conclude: a statement answered `Done` has had its effect and did not fail; after `Aborted` and
      NoSuchSavepoint everything is as it was; and after `Failed` no transaction that was sound still is. */
  lemma AnswersTell<C>(w: World<C>, commands: seq<Command<C>>, command: Command<C>)
    requires InStep(w) && w.status == Idle && ProperRun(w, commands)
    ensures var before, after := Run(w, commands), Step(Run(w, commands), command).0;
            match Answer(w, commands, command)
            case Done =>
              command.Statement? ==> command.effect(before.db.contents) == (after.db.contents, false)
                                     && after == before.(db := before.db.(contents := after.db.contents))
            case Failed => after.status != InTransaction && (after.status == Idle <==> before.status == Idle)
            case _ => after == before
  {
    ProperRunsStayInStep(w, commands);
  }

  // ----- Where the machine departs from its intent -----

  /** A SAVEPOINT outside a transaction opens one in SQLite that the session does not know of: a later statement,
      executed as if it were committed at once, is lost if a BEGIN and a ROLLBACK follow. */
  lemma IdleSavepointLosesStatement<C>(w: World<C>, name: string, effect: C -> (C, bool))
    requires InStep(w) && w.status == Idle
    ensures var done := Step(Step(w, SetSavepoint(name)).0, Statement(effect)).0;
            && done.status == Idle && done.db.contents == effect(w.db.contents).0
            && Step(Step(done, Begin).0, Rollback).0.db.contents == w.db.contents
    ensures Step(Step(Step(w, Statement(effect)).0, Begin).0, Rollback).0.db.contents == effect(w.db.contents).0
  {
  }

  /** A COMMIT that SQLite refuses leaves its transaction open behind an idle session: a later BEGIN and ROLLBACK undo
      work that was reported as committed. */
  lemma RefusedCommitIsUndone<C>(w: World<C>)
    requires InStep(w) && w.status != Idle
    ensures Step(w, Commit(false)).1 == Done
    ensures Step(Step(Step(w, Commit(false)).0, Begin).0, Rollback).0.db.contents == w.db.transaction.base
  {
  }
}
