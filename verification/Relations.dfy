/** Tables, ORDER BY and LIMIT, as far as the two databases' SELECT statements share them. */
module Relations {

  datatype Value = Null | Number(n: int)

  /** Column names with their values. */
  type Row = map<string, Value>

  type Table = seq<Row>

  function Cell(row: Row, column: string): Value {
    if column in row then row[column] else Null
  }

  // ----- ORDER BY as written -----

  datatype Nulls = DefaultNulls | NullsFirst | NullsLast

  datatype SortItem = SortItem(column: string, descending: bool, nulls: Nulls)

  /** A sort criterion with the placement of NULLs settled. */
  datatype SortKey = SortKey(column: string, descending: bool, nullsFirst: bool)

  /** PostgreSQL: by default NULLs sort as if larger than any other value. */
  function PgKey(item: SortItem): SortKey {
    SortKey(item.column, item.descending,
            match item.nulls case DefaultNulls => item.descending case NullsFirst => true case NullsLast => false)
  }

  function PgKeys(items: seq<SortItem>): (keys: seq<SortKey>)
    ensures |keys| == |items| && forall i :: 0 <= i < |keys| ==> keys[i] == PgKey(items[i])
  {
    seq(|items|, i requires 0 <= i < |items| => PgKey(items[i]))
  }

  /** What the transpiler writes of a sort item: NULLS FIRST and NULLS LAST are lost. */
  datatype SortText = SortText(column: string, descending: bool)

  function ReconstructSortBy(item: SortItem): SortText {
    SortText(item.column, item.descending)
  }

  function ReconstructSorts(items: seq<SortItem>): (texts: seq<SortText>)
    ensures |texts| == |items| && forall i :: 0 <= i < |texts| ==> texts[i] == ReconstructSortBy(items[i])
  {
    seq(|items|, i requires 0 <= i < |items| => ReconstructSortBy(items[i]))
  }

  /** SQLite: NULLs sort as if smaller than any other value. */
  function SqliteKeys(texts: seq<SortText>): (keys: seq<SortKey>)
    ensures |keys| == |texts|
    ensures forall i :: 0 <= i < |keys| ==>
                          keys[i] == SortKey(texts[i].column, texts[i].descending, !texts[i].descending)
  {
    seq(|texts|, i requires 0 <= i < |texts| => SortKey(texts[i].column, texts[i].descending, !texts[i].descending))
  }

  /** SQLite's fixed placement of NULLs is the one asked for: ascending with NULLS FIRST, descending with NULLS LAST. */
  predicate NullsKept(item: SortItem) {
    PgKey(item).nullsFirst == !item.descending
  }

  // ----- Comparing rows -----

  /** Negative if a comes before b. */
  function CompareValues(a: Value, b: Value, key: SortKey): int {
    if a.Null? && b.Null? then 0
    else if a.Null? then if key.nullsFirst then -1 else 1
    else if b.Null? then if key.nullsFirst then 1 else -1
    else if key.descending then b.n - a.n
    else a.n - b.n
  }

  function CompareRows(a: Row, b: Row, keys: seq<SortKey>): int {
    if keys == [] then 0 else
      var first := CompareValues(Cell(a, keys[0].column), Cell(b, keys[0].column), keys[0]);
      if first != 0 then first else CompareRows(a, b, keys[1..])
  }

  lemma {:induction false} CompareIsAntisymmetric(a: Row, b: Row, keys: seq<SortKey>)
    ensures CompareRows(a, b, keys) < 0 <==> CompareRows(b, a, keys) > 0
    ensures CompareRows(a, b, keys) == 0 <==> CompareRows(b, a, keys) == 0
  {
    if keys != [] {
      CompareIsAntisymmetric(a, b, keys[1..]);
    }
  }

  lemma {:induction false} CompareIsTransitive(a: Row, b: Row, c: Row, keys: seq<SortKey>)
    requires CompareRows(a, b, keys) <= 0 && CompareRows(b, c, keys) <= 0
    ensures CompareRows(a, c, keys) <= 0
    ensures CompareRows(a, c, keys) == 0 ==> CompareRows(a, b, keys) == 0 && CompareRows(b, c, keys) == 0
  {
    if keys != [] && CompareValues(Cell(a, keys[0].column), Cell(b, keys[0].column), keys[0]) == 0
       && CompareValues(Cell(b, keys[0].column), Cell(c, keys[0].column), keys[0]) == 0 {
      CompareIsTransitive(a, b, c, keys[1..]);
    }
  }

  lemma {:induction false} CompareEqualIff(a: Row, b: Row, keys: seq<SortKey>)
    ensures CompareRows(a, b, keys) == 0
       <==> forall k :: k in keys ==> Cell(a, k.column) == Cell(b, k.column)
  {
    if keys != [] {
      CompareEqualIff(a, b, keys[1..]);
      assert keys == [keys[0]] + keys[1..];
    }
  }

  /** Comparison is by the values of the key columns only. */
  lemma {:induction false} CompareSeesKeysOnly(a: Row, b: Row, c: Row, d: Row, keys: seq<SortKey>)
    requires forall k :: k in keys ==> Cell(a, k.column) == Cell(c, k.column) && Cell(b, k.column) == Cell(d, k.column)
    ensures CompareRows(a, b, keys) == CompareRows(c, d, keys)
  {
    if keys != [] {
      assert keys[0] in keys;
      CompareSeesKeysOnly(a, b, c, d, keys[1..]);
    }
  }

  // ----- Sorting positions -----

  /** Rows that compare equal stay in the order of their positions. */
  predicate Before(t: Table, keys: seq<SortKey>, i: nat, j: nat)
    requires i < |t| && j < |t|
  {
    CompareRows(t[i], t[j], keys) < 0 || (CompareRows(t[i], t[j], keys) == 0 && i < j)
  }

  lemma BeforeIsTotal(t: Table, keys: seq<SortKey>, i: nat, j: nat)
    requires i < |t| && j < |t|
    ensures Before(t, keys, i, j) || Before(t, keys, j, i) || i == j
    ensures !(Before(t, keys, i, j) && Before(t, keys, j, i))
  {
    CompareIsAntisymmetric(t[i], t[j], keys);
  }

  lemma BeforeIsTransitive(t: Table, keys: seq<SortKey>, i: nat, j: nat, k: nat)
    requires i < |t| && j < |t| && k < |t|
    requires Before(t, keys, i, j) && Before(t, keys, j, k)
    ensures Before(t, keys, i, k)
  {
    CompareIsTransitive(t[i], t[j], t[k], keys);
  }

  predicate Positions(t: Table, at: seq<nat>) {
    forall i :: 0 <= i < |at| ==> at[i] < |t|
  }

  /** The head comes before all others, and so on. */
  predicate Sorted(t: Table, keys: seq<SortKey>, at: seq<nat>)
    requires Positions(t, at)
  {
    at == [] || ((forall i :: i in at[1..] ==> Before(t, keys, at[0], i)) && Sorted(t, keys, at[1..]))
  }

  function Insert(t: Table, keys: seq<SortKey>, x: nat, at: seq<nat>): (r: seq<nat>)
    requires x < |t| && Positions(t, at)
    ensures |r| == |at| + 1 && Positions(t, r) && forall i :: i in r <==> i == x || i in at
  {
    if at == [] then [x]
    else if Before(t, keys, x, at[0]) then [x] + at
    else [at[0]] + Insert(t, keys, x, at[1..])
  }

  function Sort(t: Table, keys: seq<SortKey>, at: seq<nat>): (r: seq<nat>)
    requires Positions(t, at)
    ensures |r| == |at| && Positions(t, r) && forall i :: i in r <==> i in at
  {
    if at == [] then [] else Insert(t, keys, at[0], Sort(t, keys, at[1..]))
  }

  lemma {:induction false} InsertKeepsSorted(t: Table, keys: seq<SortKey>, x: nat, at: seq<nat>)
    requires x < |t| && Positions(t, at) && x !in at && Sorted(t, keys, at)
    ensures Sorted(t, keys, Insert(t, keys, x, at))
  {
    if at == [] {
    } else if Before(t, keys, x, at[0]) {
      forall i | i in at
        ensures Before(t, keys, x, i)
      {
        if i != at[0] {
          assert i in at[1..];
          BeforeIsTransitive(t, keys, x, at[0], i);
        }
      }
      assert ([x] + at)[1..] == at;
    } else {
      assert at[0] in at;
      BeforeIsTotal(t, keys, x, at[0]);
      InsertKeepsSorted(t, keys, x, at[1..]);
      var rest := Insert(t, keys, x, at[1..]);
      assert ([at[0]] + rest)[1..] == rest;
    }
  }

  predicate Distinct(at: seq<nat>) {
    forall i, j :: 0 <= i < j < |at| ==> at[i] != at[j]
  }

  lemma {:induction false} SortSorts(t: Table, keys: seq<SortKey>, at: seq<nat>)
    requires Positions(t, at) && Distinct(at)
    ensures Sorted(t, keys, Sort(t, keys, at))
  {
    if at != [] {
      SortSorts(t, keys, at[1..]);
      InsertKeepsSorted(t, keys, at[0], Sort(t, keys, at[1..]));
    }
  }

  /** A strictly sorted sequence is determined by its members. */
  lemma {:induction false} SortedIsUnique(t: Table, keys: seq<SortKey>, a: seq<nat>, b: seq<nat>)
    requires Positions(t, a) && Positions(t, b) && Sorted(t, keys, a) && Sorted(t, keys, b)
    requires forall i :: i in a <==> i in b
    ensures a == b
  {
    assert b != [] ==> b[0] in b;
    if a != [] {
      assert a[0] in a && a[0] in b;
      assert b[0] in b && b[0] in a;
      if a[0] != b[0] {
        assert b[0] in a[1..] && a[0] in b[1..];
        BeforeIsTotal(t, keys, a[0], b[0]);
      }
      HeadIsNotInTail(t, keys, a);
      HeadIsNotInTail(t, keys, b);
      SortedIsUnique(t, keys, a[1..], b[1..]);
      assert a == [a[0]] + a[1..] && b == [b[0]] + b[1..];
    }
  }

  lemma HeadIsNotInTail(t: Table, keys: seq<SortKey>, a: seq<nat>)
    requires a != [] && Positions(t, a) && Sorted(t, keys, a)
    ensures a[0] !in a[1..] && forall i :: i in a[1..] <==> i in a && i != a[0]
  {
    if a[0] in a[1..] {
      BeforeIsTotal(t, keys, a[0], a[0]);
    }
    assert a == [a[0]] + a[1..];
  }

  /** Sortedness depends on nothing but the order of positions. */
  lemma {:induction false} SortedTransfers(t: Table, keys: seq<SortKey>, u: Table, others: seq<SortKey>, at: seq<nat>)
    requires |t| == |u| && Positions(t, at) && Sorted(t, keys, at)
    requires forall i, j :: 0 <= i < |t| && 0 <= j < |t| ==> (Before(t, keys, i, j) <==> Before(u, others, i, j))
    ensures Positions(u, at) && Sorted(u, others, at)
  {
    if at != [] {
      SortedTransfers(t, keys, u, others, at[1..]);
    }
  }

  lemma {:induction false} SortedIsPairwise(t: Table, keys: seq<SortKey>, at: seq<nat>, i: nat, j: nat)
    requires Positions(t, at) && Sorted(t, keys, at) && i < j < |at|
    ensures Before(t, keys, at[i], at[j])
  {
    if i > 0 {
      SortedIsPairwise(t, keys, at[1..], i - 1, j - 1);
    } else {
      assert at[j] == at[1..][j - 1];
    }
  }

  lemma {:induction false} PairwiseIsSorted(t: Table, keys: seq<SortKey>, at: seq<nat>)
    requires Positions(t, at) && forall i, j :: 0 <= i < j < |at| ==> Before(t, keys, at[i], at[j])
    ensures Sorted(t, keys, at)
  {
    if at != [] {
      PairwiseIsSorted(t, keys, at[1..]);
    }
  }

  ghost predicate SameOrder(t: Table, keys: seq<SortKey>, others: seq<SortKey>) {
    forall i, j :: 0 <= i < |t| && 0 <= j < |t| ==> (Before(t, keys, i, j) <==> Before(t, others, i, j))
  }

  function UpTo(n: nat): (at: seq<nat>)
    ensures |at| == n && forall i :: 0 <= i < n ==> at[i] == i
  {
    seq(n, i => i)
  }

  lemma AllPositions(t: Table, keys: seq<SortKey>)
    ensures Distinct(UpTo(|t|)) && Positions(t, UpTo(|t|))
    ensures forall i :: i in Sort(t, keys, UpTo(|t|)) <==> 0 <= i < |t|
    ensures Sorted(t, keys, Sort(t, keys, UpTo(|t|)))
  {
    var at := UpTo(|t|);
    forall i: nat | i < |t|
      ensures i in at
    {
      assert at[i] == i;
    }
    SortSorts(t, keys, at);
  }

  function Pick(t: Table, at: seq<nat>): (rows: Table)
    requires Positions(t, at)
    ensures |rows| == |at| && forall i :: 0 <= i < |at| ==> rows[i] == t[at[i]]
  {
    seq(|at|, i requires 0 <= i < |at| => t[at[i]])
  }

  function OrderBy(t: Table, keys: seq<SortKey>): Table {
    Pick(t, Sort(t, keys, UpTo(|t|)))
  }

  lemma {:induction false} SortsAlike(t: Table, keys: seq<SortKey>, others: seq<SortKey>, at: seq<nat>)
    requires Positions(t, at) && SameOrder(t, keys, others)
    ensures Sort(t, keys, at) == Sort(t, others, at)
  {
    if at != [] {
      SortsAlike(t, keys, others, at[1..]);
      InsertsAlike(t, keys, others, at[0], Sort(t, keys, at[1..]));
    }
  }

  lemma {:induction false} InsertsAlike(t: Table, keys: seq<SortKey>, others: seq<SortKey>, x: nat, at: seq<nat>)
    requires x < |t| && Positions(t, at) && SameOrder(t, keys, others)
    ensures Insert(t, keys, x, at) == Insert(t, others, x, at)
  {
    if at != [] {
      InsertsAlike(t, keys, others, x, at[1..]);
    }
  }

  /** The rows of a sorted table never descend. */
  lemma OrderByIsOrdered(t: Table, keys: seq<SortKey>, i: nat, j: nat)
    requires i < j < |t|
    ensures |OrderBy(t, keys)| == |t| && CompareRows(OrderBy(t, keys)[i], OrderBy(t, keys)[j], keys) <= 0
  {
    AllPositions(t, keys);
    SortedIsPairwise(t, keys, Sort(t, keys, UpTo(|t|)), i, j);
  }

  // ----- Where the orders of the two databases agree -----

  /** No comparison of a NULL with another value can arise in this column. */
  predicate Unmixed(t: Table, column: string) {
    forall i, j :: 0 <= i < |t| && 0 <= j < |t| ==> (Cell(t[i], column).Null? <==> Cell(t[j], column).Null?)
  }

  /** An item whose column occurs before decides nothing. */
  predicate Repeated(order: seq<SortItem>, i: nat)
    requires i < |order|
  {
    exists j :: 0 <= j < i && order[j].column == order[i].column
  }

  predicate NullsAgree(order: seq<SortItem>, t: Table) {
    forall i :: 0 <= i < |order| ==> Repeated(order, i) || NullsKept(order[i]) || Unmixed(t, order[i].column)
  }

  lemma {:induction false} OrdersAgreeFrom(order: seq<SortItem>, t: Table, i: nat, j: nat, n: nat)
    requires NullsAgree(order, t) && i < |t| && j < |t| && n <= |order|
    requires forall m :: 0 <= m < n ==> Cell(t[i], order[m].column) == Cell(t[j], order[m].column)
    ensures CompareRows(t[i], t[j], PgKeys(order)[n..])
         == CompareRows(t[i], t[j], SqliteKeys(ReconstructSorts(order))[n..])
    decreases |order| - n
  {
    if n < |order| {
      var pg, sqlite := PgKeys(order), SqliteKeys(ReconstructSorts(order));
      assert pg[n..][1..] == pg[n + 1..] && sqlite[n..][1..] == sqlite[n + 1..];
      if Cell(t[i], order[n].column) == Cell(t[j], order[n].column) {
        OrdersAgreeFrom(order, t, i, j, n + 1);
      }
    }
  }

  lemma OrdersAgree(order: seq<SortItem>, t: Table)
    requires NullsAgree(order, t)
    ensures SameOrder(t, PgKeys(order), SqliteKeys(ReconstructSorts(order)))
  {
    var pg, sqlite := PgKeys(order), SqliteKeys(ReconstructSorts(order));
    forall i, j | 0 <= i < |t| && 0 <= j < |t|
      ensures Before(t, pg, i, j) <==> Before(t, sqlite, i, j)
    {
      OrdersAgreeFrom(order, t, i, j, 0);
      assert pg[0..] == pg && sqlite[0..] == sqlite;
    }
  }

  /** Every item that decides anything asks for SQLite's own placement of NULLs. */
  predicate EffectiveKept(order: seq<SortItem>) {
    forall i :: 0 <= i < |order| ==> Repeated(order, i) || NullsKept(order[i])
  }

  // ----- And where they do not -----

  /** NULL, 0, 1, ..., m in one column. */
  function NullTable(column: string, m: nat): (t: Table)
    ensures |t| == m + 2
  {
    seq(m + 2, i => map[column := if i == 0 then Null else Number(i - 1)])
  }

  /** Its positions in the order that a criterion on the column puts them in. */
  function NullTableSorted(m: nat, key: SortKey): (at: seq<nat>)
    ensures |at| == m + 2
  {
    seq(m + 2, i requires 0 <= i < m + 2 =>
      if key.nullsFirst then if i == 0 then 0 else if key.descending then m + 2 - i else i
      else if i == m + 1 then 0 else if key.descending then m + 1 - i else i + 1)
  }

  /** The first criterion on the column decides. */
  lemma {:induction false} FirstOnColumnDecides(a: Row, b: Row, keys: seq<SortKey>, column: string, n: nat)
    requires n < |keys| && keys[n].column == column && forall k :: 0 <= k < n ==> keys[k].column != column
    requires forall c :: c != column ==> Cell(a, c) == Cell(b, c)
    requires CompareValues(Cell(a, column), Cell(b, column), keys[n]) != 0
    ensures CompareRows(a, b, keys) == CompareValues(Cell(a, column), Cell(b, column), keys[n])
  {
    if n > 0 {
      FirstOnColumnDecides(a, b, keys[1..], column, n - 1);
    }
  }

  lemma NullTableIsSorted(keys: seq<SortKey>, n: nat, m: nat)
    requires n < |keys| && forall k :: 0 <= k < n ==> keys[k].column != keys[n].column
    ensures var t := NullTable(keys[n].column, m); Sort(t, keys, UpTo(|t|)) == NullTableSorted(m, keys[n])
  {
    var t, at := NullTable(keys[n].column, m), NullTableSorted(m, keys[n]);
    forall i, j | 0 <= i < j < |at|
      ensures Before(t, keys, at[i], at[j])
    {
      FirstOnColumnDecides(t[at[i]], t[at[j]], keys, keys[n].column, n);
    }
    PairwiseIsSorted(t, keys, at);
    AllPositions(t, keys);
    forall x: nat | x < |t|
      ensures x in at
    {
      NullTableHas(m, keys[n], x);
    }
    SortedIsUnique(t, keys, Sort(t, keys, UpTo(|t|)), at);
  }

  lemma NullTableHas(m: nat, key: SortKey, x: nat)
    requires x < m + 2
    ensures x in NullTableSorted(m, key)
  {
    var i := if key.nullsFirst then if x == 0 then 0 else if key.descending then m + 2 - x else x
             else if x == 0 then m + 1 else if key.descending then m + 1 - x else x - 1;
    assert NullTableSorted(m, key)[i] == x;
  }

  /** An item that loses its placement of NULLs: row m of the sorted table is another one. */
  lemma LostNullsShowAt(order: seq<SortItem>, n: nat, m: nat)
    requires n < |order| && !Repeated(order, n) && !NullsKept(order[n])
    ensures var t := NullTable(order[n].column, m);
            && |OrderBy(t, PgKeys(order))| == |OrderBy(t, SqliteKeys(ReconstructSorts(order)))| == m + 2
            && OrderBy(t, PgKeys(order))[m] != OrderBy(t, SqliteKeys(ReconstructSorts(order)))[m]
  {
    var column := order[n].column;
    var t, pg, sqlite := NullTable(column, m), PgKeys(order), SqliteKeys(ReconstructSorts(order));
    NullTableIsSorted(pg, n, m);
    NullTableIsSorted(sqlite, n, m);
    assert Cell(OrderBy(t, pg)[m], column) != Cell(OrderBy(t, sqlite)[m], column);
  }

  // ----- LIMIT and OFFSET -----

  /** LIMIT NULL is how LIMIT ALL arrives; NoLimit is the absence of the clause. */
  datatype Limit = NoLimit | LimitNull | LimitCount(n: nat)

  function Drop<T>(rows: seq<T>, n: nat): seq<T> {
    if n <= |rows| then rows[n..] else []
  }

  function Take<T>(rows: seq<T>, n: nat): seq<T> {
    if n <= |rows| then rows[..n] else rows
  }

  function PgSlice<T>(rows: seq<T>, limit: Limit, offset: nat): seq<T> {
    var rest := Drop(rows, offset);
    if limit.LimitCount? then Take(rest, limit.n) else rest
  }

  /** The text of a LIMIT clause and of an OFFSET clause. */
  datatype LimitText = LimitText(limit: int, offset: nat) | NoLimitText

  /** SQLite: a negative limit is no limit. */
  function SqliteSlice<T>(rows: seq<T>, text: LimitText): seq<T> {
    if text.NoLimitText? then rows
    else
      var rest := Drop(rows, text.offset);
      if text.limit >= 0 then Take(rest, text.limit) else rest
  }
}
