/** The transaction commands of a SQLite connection, as the proxy uses them. Values of type C stand for whole
    database contents. */
module Sqlite {

  function Lower(c: char): char {
    if 'A' <= c <= 'Z' then (c as int + 32) as char else c
  }

  /** Savepoint names are compared without regard to ASCII case, by SQLite and by the proxy. */
  predicate SameName(a: string, b: string) {
    |a| == |b| && forall i :: 0 <= i < |a| ==> Lower(a[i]) == Lower(b[i])
  }

  function Upper(c: char): char {
    if 'a' <= c <= 'z' then (c as int - 32) as char else c
  }

  /** Names are the same exactly if their capitals are. */
  lemma SameNameIff(a: string, b: string)
    ensures SameName(a, b)
       <==> |a| == |b| && forall i :: 0 <= i < |a| ==> Upper(a[i]) == Upper(b[i])
  {
    assert forall c, d :: Lower(c) == Lower(d) <==> Upper(c) == Upper(d);
  }

  /** The position of the last name that matches, or -1. */
  function LastMatch(names: seq<string>, name: string): (at: int)
    ensures -1 <= at < |names|
    ensures at >= 0 ==> SameName(names[at], name)
    ensures forall i :: at < i < |names| ==> !SameName(names[i], name)
  {
    if names == [] then -1
    else if SameName(names[|names| - 1], name) then |names| - 1
    else LastMatch(names[..|names| - 1], name)
  }

  datatype Savepoint<C> = Savepoint(name: string, snapshot: C)

  /** `explicit` tells a transaction opened by BEGIN from one opened by a SAVEPOINT outside any transaction. */
  datatype Transaction<C> = NoTransaction | Open(base: C, stack: seq<Savepoint<C>>, explicit: bool)

  datatype Database<C> = Database(contents: C, transaction: Transaction<C>) {

    function Stack(): seq<Savepoint<C>> {
      if transaction.NoTransaction? then [] else transaction.stack
    }

    function Names(): (names: seq<string>)
      ensures |names| == |Stack()| && forall i :: 0 <= i < |names| ==> names[i] == Stack()[i].name
    {
      seq(|Stack()|, i requires 0 <= i < |Stack()| => Stack()[i].name)
    }

    /** What another connection sees. */
    function Committed(): C {
      if transaction.NoTransaction? then contents else transaction.base
    }

    function Begin(): Database<C> {
      if transaction.Open? then this else Database(contents, Open(contents, [], true))
    }

    /** `ok` is SQLite's own answer: a failed COMMIT leaves the transaction open. */
    function Commit(ok: bool): Database<C> {
      if transaction.NoTransaction? || !ok then this else Database(contents, NoTransaction)
    }

    function Rollback(): Database<C> {
      if transaction.NoTransaction? then this else Database(transaction.base, NoTransaction)
    }

    /** Outside a transaction SAVEPOINT opens one. */
    function Mark(name: string): Database<C> {
      var entry := Savepoint(name, contents);
      Database(contents,
               if transaction.NoTransaction? then Open(contents, [entry], false)
               else transaction.(stack := transaction.stack + [entry]))
    }

    function RollbackTo(name: string): Database<C> {
      var at := LastMatch(Names(), name);
      if at < 0 then this
      else Database(Stack()[at].snapshot, transaction.(stack := Stack()[..at + 1]))
    }

    /** Releasing the savepoint that opened the transaction commits it. */
    function Release(name: string): Database<C> {
      var at := LastMatch(Names(), name);
      if at < 0 then this
      else if at == 0 && !transaction.explicit then Database(contents, NoTransaction)
      else Database(contents, transaction.(stack := Stack()[..at]))
    }
  }

  class Connection<C> {
    var db: Database<C>

    constructor (contents: C)
      ensures db == Database(contents, NoTransaction)
    {
      db := Database(contents, NoTransaction);
    }

    method ExecuteBegin()
      modifies this
      ensures db == old(db).Begin()
    {
      db := db.Begin();
    }

    method ExecuteCommit(ok: bool)
      modifies this
      ensures db == old(db).Commit(ok)
    {
      db := db.Commit(ok);
    }

    method ExecuteRollback()
      modifies this
      ensures db == old(db).Rollback()
    {
      db := db.Rollback();
    }

    method ExecuteSavepoint(name: string)
      modifies this
      ensures db == old(db).Mark(name)
    {
      db := db.Mark(name);
    }

    method ExecuteRollbackTo(name: string)
      modifies this
      ensures db == old(db).RollbackTo(name)
    {
      db := db.RollbackTo(name);
    }

    method ExecuteRelease(name: string)
      modifies this
      ensures db == old(db).Release(name)
    {
      db := db.Release(name);
    }

    /** Any other statement: the contents it leaves, and whether it failed. It leaves the transaction as it is. */
    method ExecuteStatement(effect: C -> (C, bool)) returns (failed: bool)
      modifies this
      ensures db == old(db).(contents := effect(old(db).contents).0) && failed == effect(old(db).contents).1
    {
      var (contents, failure) := effect(db.contents);
      db := db.(contents := contents);
      failed := failure;
    }
  }
}
