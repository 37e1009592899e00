/** SELECT DISTINCT ON and its rewriting to ROW_NUMBER() (src/transpiler/dml.rs). */
module DistinctOn {
  import opened Wrappers
  import opened Relations
  import opened Sequences

  /** Target list, DISTINCT ON columns, ORDER BY, LIMIT and OFFSET of a SELECT; its table is given separately. Without
      DISTINCT ON columns the code does not rewrite the statement; what is proved here holds for that case too. */
  datatype Select =
    Select(columns: seq<string>, keys: seq<string>, order: seq<SortItem>, limit: Limit, offset: Option<nat>)

  /** The rewritten statement: select `columns` from (select `columns`, row_number() over (partition by `partition`
      order by `window`) as "__rn" from the table) where "__rn" = 1 order by `order` `limit`. */
  datatype Rewritten =
    Rewritten(columns: seq<string>, partition: seq<string>, window: seq<SortText>, order: seq<SortText>,
              limit: LimitText)

  /** A negative LIMIT is written if there is only an OFFSET. */
  function ReconstructLimit(limit: Limit, offset: Option<nat>): LimitText {
    if !limit.LimitCount? && offset.None? then NoLimitText
    else LimitText(if limit.LimitCount? then limit.n else -1, if offset.Some? then offset.value else 0)
  }

  lemma LimitIsPreserved<T>(rows: seq<T>, limit: Limit, offset: Option<nat>)
    ensures SqliteSlice(rows, ReconstructLimit(limit, offset))
         == PgSlice(rows, limit, if offset.Some? then offset.value else 0)
  {
  }

  /** Without ORDER BY the window is ordered by the DISTINCT ON columns. */
  method ReconstructDistinctOnSelect(q: Select) returns (r: Rewritten)
    ensures r == Rewriting(q)
  {
    var window := [];
    if q.order != [] {
      window := ReconstructSorts(q.order);
    } else {
      for i := 0 to |q.keys|
        invariant |window| == i && forall k :: 0 <= k < i ==> window[k] == SortText(q.keys[k], false)
      {
        window := window + [SortText(q.keys[i], false)];
      }
      assert window == Ascending(q.keys);
    }
    var limit := NoLimitText;
    var hasLimit := q.limit.LimitCount?;
    if hasLimit {
      limit := LimitText(q.limit.n, 0);
    }
    if q.offset.Some? {
      if !hasLimit {
        limit := LimitText(-1, 0);
      }
      limit := limit.(offset := q.offset.value);
    }
    r := Rewritten(q.columns, q.keys, window, ReconstructSorts(q.order), limit);
  }

  function Ascending(columns: seq<string>): seq<SortText> {
    seq(|columns|, i requires 0 <= i < |columns| => SortText(columns[i], false))
  }

  function Rewriting(q: Select): Rewritten {
    Rewritten(q.columns, q.keys, if q.order != [] then ReconstructSorts(q.order) else Ascending(q.keys),
              ReconstructSorts(q.order), ReconstructLimit(q.limit, q.offset))
  }

  // ----- PostgreSQL: sort, keep the first row of each run of equal keys, cut -----

  predicate SameOn(a: Row, b: Row, columns: seq<string>) {
    forall c :: c in columns ==> Cell(a, c) == Cell(b, c)
  }

  /** The first position of each run of rows equal on `columns`; `previous` is the position before the first. */
  function FirstOfRuns(t: Table, columns: seq<string>, at: seq<nat>, previous: Option<nat>): (r: seq<nat>)
    requires Positions(t, at) && (previous.Some? ==> previous.value < |t|)
    ensures Positions(t, r) && forall i :: i in r ==> i in at
    decreases |at|
  {
    if at == [] then []
    else (if previous.Some? && SameOn(t[previous.value], t[at[0]], columns) then [] else [at[0]])
         + FirstOfRuns(t, columns, at[1..], Some(at[0]))
  }

  function Project(t: Table, columns: seq<string>): (rows: seq<seq<Value>>)
    ensures |rows| == |t|
  {
    seq(|t|, i requires 0 <= i < |t| => ProjectRow(t[i], columns))
  }

  function ProjectRow(row: Row, columns: seq<string>): (values: seq<Value>)
    ensures |values| == |columns| && forall i :: 0 <= i < |columns| ==> values[i] == Cell(row, columns[i])
  {
    seq(|columns|, i requires 0 <= i < |columns| => Cell(row, columns[i]))
  }

  function OffsetOf(q: Select): nat {
    if q.offset.Some? then q.offset.value else 0
  }

  /** The positions of the rows PostgreSQL keeps, in order. */
  function PgKept(q: Select, t: Table): (at: seq<nat>)
    ensures Positions(t, at)
  {
    FirstOfRuns(t, q.keys, Sort(t, PgKeys(q.order), UpTo(|t|)), None)
  }

  function EvalPg(q: Select, t: Table): seq<seq<Value>> {
    PgSlice(Project(Pick(t, PgKept(q, t)), q.columns), q.limit, OffsetOf(q))
  }

  // ----- SQLite: number the rows of each partition, keep number one, sort, cut -----

  /** How many of the positions below n hold a row of i's partition that comes before i. */
  function CountBefore(t: Table, partition: seq<string>, keys: seq<SortKey>, i: nat, n: nat): nat
    requires i < |t| && n <= |t|
  {
    if n == 0 then 0
    else CountBefore(t, partition, keys, i, n - 1)
         + if SameOn(t[i], t[n - 1], partition) && Before(t, keys, n - 1, i) then 1 else 0
  }

  function RowNumber(t: Table, partition: seq<string>, keys: seq<SortKey>, i: nat): nat
    requires i < |t|
  {
    CountBefore(t, partition, keys, i, |t|) + 1
  }

  function Numbered(t: Table, partition: seq<string>, keys: seq<SortKey>, number: nat, n: nat): (at: seq<nat>)
    requires n <= |t|
    ensures forall i :: i in at <==> 0 <= i < n && RowNumber(t, partition, keys, i) == number
    ensures Positions(t, at) && Distinct(at)
  {
    if n == 0 then []
    else
      var rest := Numbered(t, partition, keys, number, n - 1);
      if RowNumber(t, partition, keys, n - 1) == number then rest + [n - 1] else rest
  }

  /** The columns of the inner query that the outer one can name. */
  function Visible(t: Table, columns: seq<string>): (inner: Table)
    ensures |inner| == |t|
    ensures forall i, c :: 0 <= i < |t| && c in columns ==> Cell(inner[i], c) == Cell(t[i], c)
  {
    seq(|t|, i requires 0 <= i < |t| => map c | c in columns :: Cell(t[i], c))
  }

  predicate Names(order: seq<SortText>, columns: seq<string>) {
    forall s :: s in order ==> s.column in columns
  }

  const NO_SUCH_COLUMN: string := "no such column"

  function SqliteKept(r: Rewritten, t: Table): (at: seq<nat>)
    ensures Positions(t, at)
  {
    var inner := Visible(t, r.columns);
    Sort(inner, SqliteKeys(r.order), Numbered(t, r.partition, SqliteKeys(r.window), 1, |t|))
  }

  function EvalSqlite(r: Rewritten, t: Table): Result<seq<seq<Value>>> {
    if !Names(r.order, r.columns) then Err(NO_SUCH_COLUMN)
    else Ok(SqliteSlice(Project(Pick(Visible(t, r.columns), SqliteKept(r, t)), r.columns), r.limit))
  }

  // ----- What both keep -----

  /** No row of the same partition comes before row i. */
  ghost predicate Leads(t: Table, columns: seq<string>, keys: seq<SortKey>, i: nat)
    requires i < |t|
  {
    forall j :: 0 <= j < |t| ==> !(SameOn(t[i], t[j], columns) && Before(t, keys, j, i))
  }

  lemma {:induction false} NoneBeforeIff(t: Table, partition: seq<string>, keys: seq<SortKey>, i: nat, n: nat)
    requires i < |t| && n <= |t|
    ensures CountBefore(t, partition, keys, i, n) == 0
       <==> forall j :: 0 <= j < n ==> !(SameOn(t[i], t[j], partition) && Before(t, keys, j, i))
  {
    if n > 0 {
      NoneBeforeIff(t, partition, keys, i, n - 1);
    }
  }

  /** How many items at the start of ORDER BY are DISTINCT ON columns. */
  function KeyPrefix(order: seq<SortItem>, columns: seq<string>): (n: nat)
    ensures n <= |order| && forall i :: 0 <= i < n ==> order[i].column in columns
  {
    if order != [] && order[0].column in columns then 1 + KeyPrefix(order[1..], columns) else 0
  }

  /** ORDER BY starts with all DISTINCT ON columns, in any order. PostgreSQL also accepts one that ends before it has
      named them all. */
  predicate StartsWithKeys(q: Select) {
    forall c :: c in q.keys ==> exists i :: 0 <= i < KeyPrefix(q.order, q.keys) && q.order[i].column == c
  }

  lemma {:induction false} ComparePrefix(a: Row, b: Row, keys: seq<SortKey>, n: nat)
    requires n <= |keys|
    ensures var first := CompareRows(a, b, keys[..n]);
            CompareRows(a, b, keys) == if first != 0 then first else CompareRows(a, b, keys[n..])
  {
    if n == 0 {
      assert keys[0..] == keys;
    } else {
      ComparePrefix(a, b, keys[1..], n - 1);
      assert keys[..n][1..] == keys[1..][..n - 1] && keys[1..][n - 1..] == keys[n..];
    }
  }

  /** Rows that agree on the DISTINCT ON columns are neighbours in the sorted table: whatever lies between agrees
      too. */
  lemma RunsAreContiguous(q: Select, a: Row, b: Row, c: Row)
    requires StartsWithKeys(q) && SameOn(a, c, q.keys)
    requires CompareRows(a, b, PgKeys(q.order)) <= 0 && CompareRows(b, c, PgKeys(q.order)) <= 0
    ensures SameOn(a, b, q.keys) && SameOn(b, c, q.keys)
  {
    var keys, n := PgKeys(q.order), KeyPrefix(q.order, q.keys);
    ComparePrefix(a, b, keys, n);
    ComparePrefix(b, c, keys, n);
    CompareEqualIff(a, c, keys[..n]);
    CompareIsTransitive(a, b, c, keys[..n]);
    CompareIsAntisymmetric(a, c, keys[..n]);
    PrefixDecides(a, b, c, keys[..n]);
    CompareEqualIff(a, b, keys[..n]);
    forall column | column in q.keys
      ensures Cell(a, column) == Cell(b, column)
    {
      var i :| 0 <= i < n && q.order[i].column == column;
      assert keys[..n][i] in keys[..n];
    }
  }

  lemma PrefixDecides(a: Row, b: Row, c: Row, keys: seq<SortKey>)
    requires CompareRows(a, b, keys) <= 0 && CompareRows(b, c, keys) <= 0 && CompareRows(a, c, keys) == 0
    ensures CompareRows(a, b, keys) == 0
  {
    CompareIsTransitive(a, b, c, keys);
  }

  lemma {:induction false} RunsStartWithLeaders(q: Select, t: Table, at: seq<nat>, previous: Option<nat>)
    requires StartsWithKeys(q) && Positions(t, at) && Sorted(t, PgKeys(q.order), at)
    requires previous.Some? ==>
               previous.value < |t| && forall i :: i in at ==> Before(t, PgKeys(q.order), previous.value, i)
    ensures forall i :: i in FirstOfRuns(t, q.keys, at, previous)
                   <==> i in at && (previous.Some? ==> !SameOn(t[previous.value], t[i], q.keys))
                        && forall j :: j in at ==> !(SameOn(t[i], t[j], q.keys) && Before(t, PgKeys(q.order), j, i))
    decreases |at|
  {
    if at != [] {
      var keys, head := PgKeys(q.order), at[0];
      assert at == [head] + at[1..] && head in at;
      HeadIsNotInTail(t, keys, at);
      RunsStartWithLeaders(q, t, at[1..], Some(head));
      BeforeIsTotal(t, keys, head, head);
      forall i | i in at[1..]
        ensures Before(t, keys, head, i) && !Before(t, keys, i, head)
        ensures previous.Some? && SameOn(t[previous.value], t[i], q.keys) ==> SameOn(t[head], t[i], q.keys)
      {
        BeforeIsTotal(t, keys, head, i);
        if previous.Some? && SameOn(t[previous.value], t[i], q.keys) {
          RunsAreContiguous(q, t[previous.value], t[head], t[i]);
        }
      }
    }
  }

  lemma {:induction false} FirstOfRunsIsSorted(t: Table, columns: seq<string>, keys: seq<SortKey>, at: seq<nat>,
                                               previous: Option<nat>)
    requires Positions(t, at) && (previous.Some? ==> previous.value < |t|) && Sorted(t, keys, at)
    ensures Sorted(t, keys, FirstOfRuns(t, columns, at, previous))
    decreases |at|
  {
    if at != [] {
      FirstOfRunsIsSorted(t, columns, keys, at[1..], Some(at[0]));
      var rest := FirstOfRuns(t, columns, at[1..], Some(at[0]));
      assert [] + rest == rest && ([at[0]] + rest)[1..] == rest;
    }
  }

  /** PostgreSQL keeps the leaders, sorted. */
  lemma PgKeepsLeaders(q: Select, t: Table)
    requires StartsWithKeys(q)
    ensures Sorted(t, PgKeys(q.order), PgKept(q, t))
    ensures forall i :: i in PgKept(q, t) <==> 0 <= i < |t| && Leads(t, q.keys, PgKeys(q.order), i)
  {
    var at := Sort(t, PgKeys(q.order), UpTo(|t|));
    AllPositions(t, PgKeys(q.order));
    RunsStartWithLeaders(q, t, at, None);
    FirstOfRunsIsSorted(t, q.keys, PgKeys(q.order), at, None);
  }

  lemma VisibleSortsAlike(t: Table, columns: seq<string>, order: seq<SortText>)
    requires Names(order, columns)
    ensures var keys := SqliteKeys(order);
            forall i, j :: 0 <= i < |t| && 0 <= j < |t| ==>
                             (Before(Visible(t, columns), keys, i, j) <==> Before(t, keys, i, j))
  {
    var inner, keys := Visible(t, columns), SqliteKeys(order);
    forall i, j | 0 <= i < |t| && 0 <= j < |t|
      ensures Before(inner, keys, i, j) <==> Before(t, keys, i, j)
    {
      forall k | k in keys
        ensures k.column in columns
      {
        var n :| 0 <= n < |keys| && keys[n] == k;
        assert order[n] in order;
      }
      CompareSeesKeysOnly(inner[i], inner[j], t[i], t[j], keys);
    }
  }

  lemma KeptIsSorted(r: Rewritten, t: Table)
    requires Names(r.order, r.columns)
    ensures Sorted(t, SqliteKeys(r.order), SqliteKept(r, t))
  {
    var keys, inner := SqliteKeys(r.order), Visible(t, r.columns);
    SortSorts(inner, keys, Numbered(t, r.partition, SqliteKeys(r.window), 1, |t|));
    VisibleSortsAlike(t, r.columns, r.order);
    SortedTransfers(inner, keys, t, keys, SqliteKept(r, t));
  }

  /** SQLite keeps the leaders of its own order, sorted by it. */
  lemma SqliteKeepsLeaders(q: Select, t: Table)
    requires q.order != [] && Names(ReconstructSorts(q.order), q.columns)
    ensures var keys := SqliteKeys(ReconstructSorts(q.order));
            var kept := SqliteKept(Rewriting(q), t);
            && Sorted(t, keys, kept)
            && forall i :: i in kept <==> 0 <= i < |t| && Leads(t, q.keys, keys, i)
  {
    var r := Rewriting(q);
    var keys := SqliteKeys(r.order);
    KeptIsSorted(r, t);
    forall i | 0 <= i < |t|
      ensures RowNumber(t, q.keys, keys, i) == 1 <==> Leads(t, q.keys, keys, i)
    {
      NoneBeforeIff(t, q.keys, keys, i, |t|);
    }
  }

  // ----- The rewriting preserves the result -----

  lemma SameRowsKept(q: Select, t: Table)
    requires q.order != [] && StartsWithKeys(q) && Names(ReconstructSorts(q.order), q.columns)
    requires NullsAgree(q.order, t)
    ensures SqliteKept(Rewriting(q), t) == PgKept(q, t)
  {
    var pg, sqlite := PgKeys(q.order), SqliteKeys(ReconstructSorts(q.order));
    PgKeepsLeaders(q, t);
    SqliteKeepsLeaders(q, t);
    OrdersAgree(q.order, t);
    SortedTransfers(t, sqlite, t, pg, SqliteKept(Rewriting(q), t));
    forall i | 0 <= i < |t|
      ensures Leads(t, q.keys, pg, i) <==> Leads(t, q.keys, sqlite, i)
    {
    }
    SortedIsUnique(t, pg, SqliteKept(Rewriting(q), t), PgKept(q, t));
  }

  lemma VisibleProjectsAlike(t: Table, columns: seq<string>, at: seq<nat>)
    requires Positions(t, at)
    ensures Project(Pick(Visible(t, columns), at), columns) == Project(Pick(t, at), columns)
  {
    forall i | 0 <= i < |at|
      ensures ProjectRow(Visible(t, columns)[at[i]], columns) == ProjectRow(t[at[i]], columns)
    {
    }
  }

  /** For every table: the rewritten statement returns the same rows in the same order, if ORDER BY uses selected
      columns only and no NULL placement is at stake. */
  lemma DistinctOnIsPreserved(q: Select, t: Table)
    requires q.order != [] && StartsWithKeys(q) && Names(ReconstructSorts(q.order), q.columns)
    requires NullsAgree(q.order, t)
    ensures EvalSqlite(Rewriting(q), t) == Ok(EvalPg(q, t))
  {
    SameRowsKept(q, t);
    VisibleProjectsAlike(t, q.columns, PgKept(q, t));
    LimitIsPreserved(Project(Pick(t, PgKept(q, t)), q.columns), q.limit, q.offset);
  }

  // ----- Without ORDER BY -----

  /** The row of i's partition that comes before all its others among the first n positions. */
  lemma {:induction false} LeaderExists(t: Table, columns: seq<string>, keys: seq<SortKey>, i: nat, n: nat)
    returns (m: nat)
    requires i < |t| && n <= |t|
    ensures m < |t| && SameOn(t[i], t[m], columns)
    ensures forall j :: 0 <= j < n && SameOn(t[i], t[j], columns) ==> !Before(t, keys, j, m)
  {
    if n == 0 {
      return i;
    }
    m := LeaderExists(t, columns, keys, i, n - 1);
    BeforeIsTotal(t, keys, n - 1, n - 1);
    if SameOn(t[i], t[n - 1], columns) && Before(t, keys, n - 1, m) {
      forall j | 0 <= j < n && SameOn(t[i], t[j], columns)
        ensures !Before(t, keys, j, n - 1)
      {
        if Before(t, keys, j, n - 1) {
          BeforeIsTransitive(t, keys, j, n - 1, m);
        }
      }
      m := n - 1;
    }
  }

  /** A group's leader in the order of its own columns is its first row. */
  lemma LeaderIsFirst(t: Table, columns: seq<string>, k: nat, j: nat)
    requires j < k < |t| && Leads(t, columns, SqliteKeys(Ascending(columns)), k)
    ensures !SameOn(t[k], t[j], columns)
  {
    var keys := SqliteKeys(Ascending(columns));
    if SameOn(t[k], t[j], columns) {
      forall key | key in keys
        ensures Cell(t[j], key.column) == Cell(t[k], key.column)
      {
        var n :| 0 <= n < |keys| && keys[n] == key;
        assert key.column == columns[n];
      }
      CompareEqualIff(t[j], t[k], keys);
      assert Before(t, keys, j, k);
    }
  }

  ghost predicate IsRepresented(t: Table, columns: seq<string>, kept: seq<nat>, i: nat)
    requires Positions(t, kept) && i < |t|
  {
    exists n :: 0 <= n < |kept| && SameOn(t[i], t[kept[n]], columns)
  }

  ghost predicate FirstOfEachGroup(t: Table, columns: seq<string>, kept: seq<nat>)
    requires Positions(t, kept)
  {
    && (forall i :: 0 <= i < |t| ==> IsRepresented(t, columns, kept, i))
    && (forall k :: k in kept ==> forall j :: 0 <= j < k ==> !SameOn(t[k], t[j], columns))
  }

  lemma WithoutOrderKept(q: Select, t: Table, i: nat)
    requires q.order == [] && i < |t|
    ensures i in SqliteKept(Rewriting(q), t) <==> Leads(t, q.keys, SqliteKeys(Ascending(q.keys)), i)
  {
    NoneBeforeIff(t, q.keys, SqliteKeys(Ascending(q.keys)), i, |t|);
  }

  /** PostgreSQL then promises one row of each group, any of them and in any order: the rewriting returns such a
      choice, the first row of each group in the table. */
  lemma WithoutOrderFirstOfEachGroup(q: Select, t: Table)
    requires q.order == []
    ensures FirstOfEachGroup(t, q.keys, SqliteKept(Rewriting(q), t))
  {
    var keys, kept := SqliteKeys(Ascending(q.keys)), SqliteKept(Rewriting(q), t);
    forall i | 0 <= i < |t|
      ensures IsRepresented(t, q.keys, kept, i)
    {
      var m := LeaderExists(t, q.keys, keys, i, |t|);
      assert Leads(t, q.keys, keys, m);
      WithoutOrderKept(q, t, m);
      var n :| 0 <= n < |kept| && kept[n] == m;
    }
    forall k | k in kept
      ensures forall j :: 0 <= j < k ==> !SameOn(t[k], t[j], q.keys)
    {
      WithoutOrderKept(q, t, k);
      forall j | 0 <= j < k
        ensures !SameOn(t[k], t[j], q.keys)
      {
        LeaderIsFirst(t, q.keys, k, j);
      }
    }
  }

  /** One row of each group, in any order. */
  ghost predicate OneOfEachGroup(t: Table, columns: seq<string>, at: seq<nat>)
    requires Positions(t, at)
  {
    && (forall i :: 0 <= i < |t| ==> IsRepresented(t, columns, at, i))
    && (forall m, n :: 0 <= m < n < |at| ==> !SameOn(t[at[m]], t[at[n]], columns))
  }

  /** PostgreSQL promises no more than some choice of one row of each group, cut by LIMIT and OFFSET. */
  ghost predicate IsPgResult(q: Select, t: Table, at: seq<nat>, rows: seq<seq<Value>>)
    requires Positions(t, at)
  {
    OneOfEachGroup(t, q.keys, at) && rows == PgSlice(Project(Pick(t, at), q.columns), q.limit, OffsetOf(q))
  }

  lemma FirstIsOne(t: Table, columns: seq<string>, kept: seq<nat>)
    requires Positions(t, kept) && Distinct(kept) && FirstOfEachGroup(t, columns, kept)
    ensures OneOfEachGroup(t, columns, kept)
  {
    forall m, n | 0 <= m < n < |kept|
      ensures !SameOn(t[kept[m]], t[kept[n]], columns)
    {
      assert kept[m] in kept && kept[n] in kept && kept[m] != kept[n];
      if SameOn(t[kept[m]], t[kept[n]], columns) {
        assert SameOn(t[kept[n]], t[kept[m]], columns);
      }
    }
  }

  lemma KeptIsDistinct(r: Rewritten, t: Table)
    requires Names(r.order, r.columns)
    ensures Distinct(SqliteKept(r, t))
  {
    var keys, kept := SqliteKeys(r.order), SqliteKept(r, t);
    KeptIsSorted(r, t);
    forall m, n | 0 <= m < n < |kept|
      ensures kept[m] != kept[n]
    {
      SortedIsPairwise(t, keys, kept, m, n);
      BeforeIsTotal(t, keys, kept[m], kept[m]);
    }
  }

  /** Without ORDER BY the rewritten statement returns a result that PostgreSQL could return, with the query's own LIMIT
      and OFFSET: that of the first row of each group. */
  lemma WithoutOrderIsPreserved(q: Select, t: Table)
    requires q.order == []
    ensures var kept := SqliteKept(Rewriting(q), t);
            && FirstOfEachGroup(t, q.keys, kept)
            && EvalSqlite(Rewriting(q), t).Ok? && IsPgResult(q, t, kept, EvalSqlite(Rewriting(q), t).value)
  {
    var kept := SqliteKept(Rewriting(q), t);
    WithoutOrderFirstOfEachGroup(q, t);
    KeptIsDistinct(Rewriting(q), t);
    FirstIsOne(t, q.keys, kept);
    VisibleProjectsAlike(t, q.columns, kept);
    LimitIsPreserved(Project(Pick(t, kept), q.columns), q.limit, q.offset);
    assert ReconstructSorts(q.order) == [];
  }

  // ----- And where it does not -----

  ghost predicate KeepsLeaders(t: Table, columns: seq<string>, keys: seq<SortKey>, kept: seq<nat>)
    requires Positions(t, kept)
  {
    Sorted(t, keys, kept) && forall i :: i in kept <==> 0 <= i < |t| && Leads(t, columns, keys, i)
  }

  /** If the lost criterion is on a DISTINCT ON column, every row of the table is a group of its own. */
  lemma NullTableIsKept(columns: seq<string>, keys: seq<SortKey>, n: nat, m: nat, kept: seq<nat>)
    requires n < |keys| && keys[n].column in columns && forall k :: 0 <= k < n ==> keys[k].column != keys[n].column
    requires var t := NullTable(keys[n].column, m); Positions(t, kept) && KeepsLeaders(t, columns, keys, kept)
    ensures kept == NullTableSorted(m, keys[n])
  {
    var column := keys[n].column;
    var t := NullTable(column, m);
    forall i, j | 0 <= i < |t| && 0 <= j < |t|
      ensures !(SameOn(t[i], t[j], columns) && Before(t, keys, j, i))
    {
      if SameOn(t[i], t[j], columns) {
        assert Cell(t[i], column) == Cell(t[j], column);
        BeforeIsTotal(t, keys, i, i);
      }
    }
    NullTableIsSorted(keys, n, m);
    AllPositions(t, keys);
    SortedIsUnique(t, keys, kept, Sort(t, keys, UpTo(|t|)));
  }

  /** m + 1 groups of two rows that differ in one column: 0 and NULL. */
  function GroupTable(group: string, column: string, m: nat): (t: Table)
    ensures |t| == 2 * m + 2
  {
    seq(2 * m + 2, i => map[group := Number(i / 2)][column := if i % 2 == 0 then Number(0) else Null])
  }

  function Sibling(i: nat): nat {
    if i % 2 == 0 then i + 1 else i - 1
  }

  /** Which of the two comes first. */
  function Preferred(key: SortKey): Value {
    if key.nullsFirst then Null else Number(0)
  }

  lemma SiblingsCompare(group: string, keys: seq<SortKey>, n: nat, m: nat, i: nat)
    requires n < |keys| && i < 2 * m + 2 && forall k :: 0 <= k < n ==> keys[k].column != keys[n].column
    ensures var t := GroupTable(group, keys[n].column, m);
            Before(t, keys, i, Sibling(i)) <==> Cell(t[i], keys[n].column) == Preferred(keys[n])
  {
    var t := GroupTable(group, keys[n].column, m);
    FirstOnColumnDecides(t[i], t[Sibling(i)], keys, keys[n].column, n);
  }

  /** If it is on another column, each group's representative has the value that comes first. */
  lemma RepresentativesShow(group: string, columns: seq<string>, keys: seq<SortKey>, n: nat, m: nat, kept: seq<nat>)
    requires n < |keys| && keys[n].column !in columns && forall k :: 0 <= k < n ==> keys[k].column != keys[n].column
    requires group in columns || m == 0
    requires var t := GroupTable(group, keys[n].column, m); Positions(t, kept) && KeepsLeaders(t, columns, keys, kept)
    ensures var t := GroupTable(group, keys[n].column, m);
            |kept| > m && forall i :: 0 <= i < |kept| ==> Cell(t[kept[i]], keys[n].column) == Preferred(keys[n])
  {
    var column := keys[n].column;
    var t := GroupTable(group, column, m);
    forall i | 0 <= i < |kept|
      ensures Cell(t[kept[i]], column) == Preferred(keys[n])
    {
      assert kept[i] in kept;
      SiblingsCompare(group, keys, n, m, kept[i]);
      SiblingsCompare(group, keys, n, m, Sibling(kept[i]));
      assert SameOn(t[kept[i]], t[Sibling(kept[i])], columns);
    }
    var leaders: seq<nat> := seq(m + 1, g => 2 * g + if keys[n].nullsFirst then 1 else 0);
    forall g | 0 <= g < |leaders|
      ensures leaders[g] in kept
    {
      PreferredLeads(group, columns, keys, n, m, leaders[g]);
    }
    DistinctMembers(leaders, kept);
  }

  lemma PreferredLeads(group: string, columns: seq<string>, keys: seq<SortKey>, n: nat, m: nat, x: nat)
    requires n < |keys| && keys[n].column !in columns && forall k :: 0 <= k < n ==> keys[k].column != keys[n].column
    requires (group in columns || m == 0) && x < 2 * m + 2
    requires Cell(GroupTable(group, keys[n].column, m)[x], keys[n].column) == Preferred(keys[n])
    ensures Leads(GroupTable(group, keys[n].column, m), columns, keys, x)
  {
    var t := GroupTable(group, keys[n].column, m);
    forall j | 0 <= j < |t| && SameOn(t[x], t[j], columns)
      ensures !Before(t, keys, j, x)
    {
      assert m > 0 ==> Cell(t[x], group) == Cell(t[j], group);
      assert j == x || j == Sibling(x);
      BeforeIsTotal(t, keys, x, j);
      SiblingsCompare(group, keys, n, m, x);
    }
  }

  lemma SortColumnIsSelected(q: Select, n: nat)
    requires Names(ReconstructSorts(q.order), q.columns) && n < |q.order|
    ensures q.order[n].column in q.columns
  {
    assert ReconstructSorts(q.order)[n] in ReconstructSorts(q.order);
  }

  /** Row m of what the two databases keep differs in a selected column. */
  ghost predicate RowDiffers(q: Select, t: Table, pg: seq<nat>, sqlite: seq<nat>, column: string)
    requires Positions(t, pg) && Positions(t, sqlite)
  {
    var m := OffsetOf(q);
    column in q.columns && m < |pg| && m < |sqlite| && Cell(t[pg[m]], column) != Cell(t[sqlite[m]], column)
  }

  lemma CutKeepsFirst<T>(rows: seq<T>, limit: Limit, offset: nat)
    requires limit != LimitCount(0) && offset < |rows|
    ensures PgSlice(rows, limit, offset) != [] && PgSlice(rows, limit, offset)[0] == rows[offset]
  {
  }

  lemma DifferenceShows(q: Select, t: Table, column: string)
    requires Names(ReconstructSorts(q.order), q.columns) && q.limit != LimitCount(0)
    requires RowDiffers(q, t, PgKept(q, t), SqliteKept(Rewriting(q), t), column)
    ensures EvalSqlite(Rewriting(q), t) != Ok(EvalPg(q, t))
  {
    var pg := Project(Pick(t, PgKept(q, t)), q.columns);
    var sqlite := Project(Pick(t, SqliteKept(Rewriting(q), t)), q.columns);
    var m, c :| m == OffsetOf(q) && 0 <= c < |q.columns| && q.columns[c] == column;
    assert pg[m][c] != sqlite[m][c];
    CutKeepsFirst(pg, q.limit, m);
    CutKeepsFirst(sqlite, q.limit, m);
    VisibleProjectsAlike(t, q.columns, SqliteKept(Rewriting(q), t));
    LimitIsPreserved(sqlite, q.limit, q.offset);
  }

  /** The table on which the lost placement of NULLs in item n shows behind OFFSET. */
  function Witness(q: Select, n: nat): Table
    requires n < |q.order|
  {
    var column, m := q.order[n].column, OffsetOf(q);
    if column in q.keys then NullTable(column, m)
    else GroupTable(if q.keys == [] then column else q.keys[0], column, m)
  }

  lemma WitnessDiffers(q: Select, n: nat, pg: seq<nat>, sqlite: seq<nat>)
    requires n < |q.order| && !Repeated(q.order, n) && !NullsKept(q.order[n]) && q.order[n].column in q.columns
    requires q.keys == [] ==> OffsetOf(q) == 0
    requires Positions(Witness(q, n), pg) && KeepsLeaders(Witness(q, n), q.keys, PgKeys(q.order), pg)
    requires Positions(Witness(q, n), sqlite)
    requires KeepsLeaders(Witness(q, n), q.keys, SqliteKeys(ReconstructSorts(q.order)), sqlite)
    ensures RowDiffers(q, Witness(q, n), pg, sqlite, q.order[n].column)
  {
    var column, m := q.order[n].column, OffsetOf(q);
    var pgKeys, sqliteKeys := PgKeys(q.order), SqliteKeys(ReconstructSorts(q.order));
    if column in q.keys {
      NullTableIsKept(q.keys, pgKeys, n, m, pg);
      NullTableIsKept(q.keys, sqliteKeys, n, m, sqlite);
    } else {
      var group := if q.keys == [] then column else q.keys[0];
      RepresentativesShow(group, q.keys, pgKeys, n, m, pg);
      RepresentativesShow(group, q.keys, sqliteKeys, n, m, sqlite);
    }
  }

  lemma LostNullsShow(q: Select, n: nat)
    requires q.order != [] && StartsWithKeys(q) && Names(ReconstructSorts(q.order), q.columns)
    requires q.limit != LimitCount(0) && (q.keys == [] ==> OffsetOf(q) == 0)
    requires n < |q.order| && !Repeated(q.order, n) && !NullsKept(q.order[n])
    ensures EvalSqlite(Rewriting(q), Witness(q, n)) != Ok(EvalPg(q, Witness(q, n)))
  {
    var t := Witness(q, n);
    PgKeepsLeaders(q, t);
    SqliteKeepsLeaders(q, t);
    SortColumnIsSelected(q, n);
    WitnessDiffers(q, n, PgKept(q, t), SqliteKept(Rewriting(q), t));
    DifferenceShows(q, t, q.order[n].column);
  }

  /** Without DISTINCT ON columns there is one group, so at most one row is kept. */
  lemma OneGroup(t: Table, keys: seq<SortKey>, kept: seq<nat>)
    requires Positions(t, kept) && KeepsLeaders(t, [], keys, kept)
    ensures |kept| <= 1
  {
    if |kept| > 1 {
      var i, j := kept[0], kept[1];
      assert i in kept && j in kept && SameOn(t[j], t[i], []);
      SortedIsPairwise(t, keys, kept, 0, 1);
    }
  }

  /** LIMIT 0, or an OFFSET behind the only group there would be without DISTINCT ON columns. */
  predicate ReturnsNothing(q: Select) {
    q.limit == LimitCount(0) || (q.keys == [] && OffsetOf(q) > 0)
  }

  lemma NothingIsPreserved(q: Select, t: Table)
    requires q.order != [] && StartsWithKeys(q) && Names(ReconstructSorts(q.order), q.columns) && ReturnsNothing(q)
    ensures EvalSqlite(Rewriting(q), t) == Ok(EvalPg(q, t))
  {
    LimitIsPreserved(Project(Pick(Visible(t, q.columns), SqliteKept(Rewriting(q), t)), q.columns), q.limit, q.offset);
    if q.limit != LimitCount(0) {
      PgKeepsLeaders(q, t);
      SqliteKeepsLeaders(q, t);
      OneGroup(t, PgKeys(q.order), PgKept(q, t));
      OneGroup(t, SqliteKeys(ReconstructSorts(q.order)), SqliteKept(Rewriting(q), t));
    }
  }

  /** The rewriting is right for all tables exactly if every sort column is selected and either nothing is returned, or
      no effective sort item asks for a placement of NULLs other than SQLite's own. */
  lemma {:induction false} RewritingIsRightIff(q: Select)
    requires q.order != [] && StartsWithKeys(q)
    ensures (forall t :: EvalSqlite(Rewriting(q), t) == Ok(EvalPg(q, t)))
       <==> Names(ReconstructSorts(q.order), q.columns) && (ReturnsNothing(q) || EffectiveKept(q.order))
  {
    if !Names(ReconstructSorts(q.order), q.columns) {
      var t: Table := [];
      assert EvalSqlite(Rewriting(q), t).Err?;
    } else if ReturnsNothing(q) {
      forall t: Table
        ensures EvalSqlite(Rewriting(q), t) == Ok(EvalPg(q, t))
      {
        NothingIsPreserved(q, t);
      }
    } else if i :| 0 <= i < |q.order| && !Repeated(q.order, i) && !NullsKept(q.order[i]) {
      LostNullsShow(q, i);
    } else {
      forall t: Table
        ensures EvalSqlite(Rewriting(q), t) == Ok(EvalPg(q, t))
      {
        DistinctOnIsPreserved(q, t);
      }
    }
  }

  /** In particular a plain ascending ORDER BY puts NULLs at the other end than PostgreSQL does. */
  lemma PlainOrderLosesNulls(key: string, column: string)
    requires key != column
    ensures var order := [SortItem(key, false, NullsFirst), SortItem(column, false, DefaultNulls)];
            exists t :: EvalSqlite(Rewriting(Select([key, column], [key], order, NoLimit, None)), t)
                     != Ok(EvalPg(Select([key, column], [key], order, NoLimit, None), t))
  {
    var order := [SortItem(key, false, NullsFirst), SortItem(column, false, DefaultNulls)];
    var q := Select([key, column], [key], order, NoLimit, None);
    assert order[1..][0] == order[1] && order[0].column == key;
    assert !Repeated(order, 1);
    LostNullsShow(q, 1);
  }
}
