/** Trees of UNION, INTERSECT and EXCEPT, and their rewriting to the flat compounds of SQLite, which has one
    precedence for all three and associates to the left (src/transpiler/dml.rs). */
module SetOperations {
  import opened Sequences
  import opened Wrappers
  import opened Relations

  datatype Op = Union | Intersect | Except

  datatype Tail = Tail(order: seq<SortItem>, limit: Limit, offset: Option<nat>)

  /** `body` is a SELECT up to its ORDER BY clause; the rows of VALUES are texts as well. */
  datatype Query =
    | Simple(body: string, tail: Tail)
    | Values(rows: seq<string>, tail: Tail)
    | SetOp(op: Op, all: bool, left: Query, right: Query, tail: Tail)

  // ----- The emitted text -----

  datatype Token =
    | Body(text: string)
    | RowSelect(row: string)
    | ValuesList(rows: seq<string>)
    | OpWord(op: Op, all: bool)
    | OpenSelect  // select * from (
    | Close
    | OrderWord(order: seq<SortText>)
    | LimitWord(limit: int)
    | OffsetWord(offset: nat)

  function LimitTokens(limit: Limit, offset: Option<nat>): seq<Token> {
    (if limit.LimitCount? then [LimitWord(limit.n)]
     else if limit.LimitNull? || offset.Some? then [LimitWord(-1)] else [])
    + if offset.Some? then [OffsetWord(offset.value)] else []
  }

  function TailTokens(tail: Tail): seq<Token> {
    (if tail.order != [] then [OrderWord(ReconstructSorts(tail.order))] else [])
    + LimitTokens(tail.limit, tail.offset)
  }

  function UnionAllTokens(rows: seq<string>): seq<Token> {
    if rows == [] then []
    else if |rows| == 1 then [RowSelect(rows[0])]
    else [RowSelect(rows[0]), OpWord(Union, true)] + UnionAllTokens(rows[1..])
  }

  predicate NeedsWrapping(q: Query) {
    q.SetOp? || q.tail.order != [] || !q.tail.limit.NoLimit? || q.tail.offset.Some?
  }

  /** ALL survives on UNION only. */
  function Operator(op: Op, all: bool): Token {
    OpWord(op, op.Union? && all)
  }

  function OperandTokens(q: Query, inSubquery: bool): seq<Token>
    decreases q, 1
  {
    if NeedsWrapping(q) then [OpenSelect] + Tokens(q, inSubquery) + [Close] else Tokens(q, inSubquery)
  }

  /** A VALUES list loses its ORDER BY, LIMIT and OFFSET; inside a subquery it becomes a chain of UNION ALL. */
  function Tokens(q: Query, inSubquery: bool): seq<Token>
    decreases q, 0
  {
    match q
    case Simple(body, tail) => [Body(body)] + TailTokens(tail)
    case Values(rows, _) => if inSubquery then UnionAllTokens(rows) else [ValuesList(rows)]
    case SetOp(op, all, left, right, tail) =>
      OperandTokens(left, inSubquery) + [Operator(op, all)] + OperandTokens(right, inSubquery) + TailTokens(tail)
  }

  /** Pushes the clauses after the body, as both statement builders do. */
  method PushTail(parts: seq<Token>, tail: Tail) returns (result: seq<Token>)
    ensures result == parts + TailTokens(tail)
  {
    result := parts;
    if tail.order != [] {
      result := result + [OrderWord(ReconstructSorts(tail.order))];
    }
    var hasLimit := true;
    if tail.limit.LimitNull? {
      result := result + [LimitWord(-1)];
    } else if tail.limit.LimitCount? {
      result := result + [LimitWord(tail.limit.n)];
    } else {
      hasLimit := false;
    }
    if tail.offset.Some? {
      if !hasLimit {
        result := result + [LimitWord(-1)];
      }
      result := result + [OffsetWord(tail.offset.value)];
    }
  }

  method ReconstructOperand(q: Query, inSubquery: bool) returns (result: seq<Token>)
    ensures result == OperandTokens(q, inSubquery)
    decreases q, 1
  {
    var sql := ReconstructSelectStmt(q, inSubquery);
    if NeedsWrapping(q) {
      result := [OpenSelect] + sql + [Close];
    } else {
      result := sql;
    }
  }

  method ReconstructSelectStmt(q: Query, inSubquery: bool) returns (result: seq<Token>)
    ensures result == Tokens(q, inSubquery)
    decreases q, 0
  {
    match q
    case Simple(body, tail) =>
      result := PushTail([Body(body)], tail);
    case Values(rows, _) =>
      result := if inSubquery then UnionAllTokens(rows) else [ValuesList(rows)];
    case SetOp(op, all, left, right, tail) =>
      var leftSql := ReconstructOperand(left, inSubquery);
      var rightSql := ReconstructOperand(right, inSubquery);
      var flat := leftSql + [Operator(op, all)] + rightSql;
      result := PushTail(flat, tail);
  }

  // ----- SQLite's grammar -----

  datatype Core =
    | BodyCore(text: string)
    | RowCore(row: string)
    | ValuesCore(rows: seq<string>)
    | SubCore(select: Compound)

  datatype Link = Link(op: Op, all: bool, core: Core)

  /** A chain of SELECTs under operators of equal precedence, with the clauses that apply to the whole. */
  datatype Compound =
    Compound(first: Core, links: seq<Link>, order: seq<SortText>, limit: Option<int>, offset: Option<nat>)

  datatype Read<T> = Failed | Read(value: T, rest: seq<Token>)

  function ReadCore(ts: seq<Token>): (r: Read<Core>)
    ensures r.Read? ==> |r.rest| < |ts|
    decreases |ts|, 0
  {
    if ts == [] then Failed
    else match ts[0]
      case Body(text) => Read(BodyCore(text), ts[1..])
      case RowSelect(row) => Read(RowCore(row), ts[1..])
      case ValuesList(rows) => Read(ValuesCore(rows), ts[1..])
      case OpenSelect =>
        var sub := ReadCompound(ts[1..]);
        if sub.Read? && sub.rest != [] && sub.rest[0].Close? then Read(SubCore(sub.value), sub.rest[1..]) else Failed
      case _ => Failed
  }

  /** Reads further operators and operands as long as there are any. ALL is allowed after UNION only. */
  function ReadLinks(ts: seq<Token>): (r: Read<seq<Link>>)
    ensures r.Read? ==> |r.rest| <= |ts|
    decreases |ts|, 0
  {
    if ts == [] || !ts[0].OpWord? then Read([], ts)
    else if ts[0].all && !ts[0].op.Union? then Failed
    else
      var core := ReadCore(ts[1..]);
      if core.Failed? then Failed
      else
        var more := ReadLinks(core.rest);
        if more.Failed? then Failed else Read([Link(ts[0].op, ts[0].all, core.value)] + more.value, more.rest)
  }

  function ReadCompound(ts: seq<Token>): (r: Read<Compound>)
    ensures r.Read? ==> |r.rest| < |ts|
    decreases |ts|, 1
  {
    var first := ReadCore(ts);
    if first.Failed? then Failed
    else
      var links := ReadLinks(first.rest);
      if links.Failed? then Failed
      else
        var (order, afterOrder) := ReadOrder(links.rest);
        var (limit, offset, rest) := ReadLimit(afterOrder);
        Read(Compound(first.value, links.value, order, limit, offset), rest)
  }

  function ReadOrder(ts: seq<Token>): (r: (seq<SortText>, seq<Token>))
    ensures |r.1| <= |ts|
  {
    if ts != [] && ts[0].OrderWord? then (ts[0].order, ts[1..]) else ([], ts)
  }

  /** OFFSET is read after LIMIT only. */
  function ReadLimit(ts: seq<Token>): (r: (Option<int>, Option<nat>, seq<Token>))
    ensures |r.2| <= |ts|
  {
    if ts == [] || !ts[0].LimitWord? then (None, None, ts)
    else if |ts| > 1 && ts[1].OffsetWord? then (Some(ts[0].limit), Some(ts[1].offset), ts[2..])
    else (Some(ts[0].limit), None, ts[1..])
  }

  /** A whole statement. */
  function Parse(ts: seq<Token>): Option<Compound> {
    var r := ReadCompound(ts);
    if r.Read? && r.rest == [] then Some(r.value) else None
  }

  // ----- The reader inverts a printer -----

  function PrintCore(core: Core): seq<Token> {
    match core
    case BodyCore(text) => [Body(text)]
    case RowCore(row) => [RowSelect(row)]
    case ValuesCore(rows) => [ValuesList(rows)]
    case SubCore(select) => [OpenSelect] + PrintCompound(select) + [Close]
  }

  function PrintLinks(links: seq<Link>): seq<Token> {
    if links == [] then [] else PrintLink(links[0]) + PrintLinks(links[1..])
  }

  function PrintLink(link: Link): seq<Token> {
    [OpWord(link.op, link.all)] + PrintCore(link.core)
  }

  function PrintEnd(order: seq<SortText>, limit: Option<int>, offset: Option<nat>): seq<Token> {
    (if order != [] then [OrderWord(order)] else [])
    + (if limit.Some? then [LimitWord(limit.value)] else [])
    + if offset.Some? then [OffsetWord(offset.value)] else []
  }

  function PrintCompound(c: Compound): seq<Token> {
    PrintCore(c.first) + PrintLinks(c.links) + PrintEnd(c.order, c.limit, c.offset)
  }

  predicate LegalCore(core: Core) {
    core.SubCore? ==> Legal(core.select)
  }

  predicate LegalLink(link: Link) {
    LegalCore(link.core) && (link.all ==> link.op.Union?)
  }

  predicate Legal(c: Compound) {
    && LegalCore(c.first)
    && (forall link :: link in c.links ==> LegalLink(link))
    && (c.offset.Some? ==> c.limit.Some?)
  }

  /** What can follow a statement. */
  predicate Stops(rest: seq<Token>) {
    rest == [] || rest[0].Close?
  }

  lemma Regroup(a: seq<Token>, b: seq<Token>, c: seq<Token>, d: seq<Token>)
    ensures a + b + c + d == a + (b + (c + d))
  {
  }

  lemma EndReadsBack(order: seq<SortText>, limit: Option<int>, offset: Option<nat>, rest: seq<Token>)
    requires Stops(rest) && (offset.Some? ==> limit.Some?)
    ensures var (o, afterOrder) := ReadOrder(PrintEnd(order, limit, offset) + rest);
            o == order && ReadLimit(afterOrder) == (limit, offset, rest)
  {
    var limits := (if limit.Some? then [LimitWord(limit.value)] else [])
      + if offset.Some? then [OffsetWord(offset.value)] else [];
    var ts := PrintEnd(order, limit, offset) + rest;
    if order != [] {
      assert ts == [OrderWord(order)] + (limits + rest);
      assert ts[1..] == limits + rest;
    } else {
      assert ts == limits + rest;
    }
    LimitReadsBack(limit, offset, rest);
  }

  lemma LimitReadsBack(limit: Option<int>, offset: Option<nat>, rest: seq<Token>)
    requires Stops(rest) && (offset.Some? ==> limit.Some?)
    ensures var limits := (if limit.Some? then [LimitWord(limit.value)] else [])
              + if offset.Some? then [OffsetWord(offset.value)] else [];
            ReadLimit(limits + rest) == (limit, offset, rest)
            && (limits + rest == [] || !(limits + rest)[0].OrderWord?)
  {
    var offsets := if offset.Some? then [OffsetWord(offset.value)] else [];
    assert [] + rest == rest;
    if limit.Some? {
      var ts := [LimitWord(limit.value)] + offsets + rest;
      assert ts[1..] == offsets + rest;
      assert offset.Some? ==> ts[2..] == rest;
    }
  }

  lemma SubIsEnclosed(select: seq<Token>, rest: seq<Token>)
    ensures var ts := [OpenSelect] + select + [Close] + rest;
            ts[0] == OpenSelect && ts[1..] == select + ([Close] + rest)
    ensures ([Close] + rest)[0] == Close && ([Close] + rest)[1..] == rest
  {
  }

  lemma {:induction false} CoreReadsBack(core: Core, rest: seq<Token>)
    requires LegalCore(core)
    ensures ReadCore(PrintCore(core) + rest) == Read(core, rest)
    decreases core, 0
  {
    if core.SubCore? {
      CompoundReadsBack(core.select, [Close] + rest);
      SubIsEnclosed(PrintCompound(core.select), rest);
    } else {
      assert (PrintCore(core) + rest)[1..] == rest;
    }
  }

  lemma {:induction false} LinksReadBack(links: seq<Link>, rest: seq<Token>)
    requires forall link :: link in links ==> LegalLink(link)
    requires rest == [] || !rest[0].OpWord?
    ensures ReadLinks(PrintLinks(links) + rest) == Read(links, rest)
    decreases links, 1
  {
    if links == [] {
      assert [] + rest == rest;
    } else {
      assert links[0] in links;
      LinkReadsBack(links[0], PrintLinks(links[1..]) + rest);
      LinksReadBack(links[1..], rest);
      Assoc(PrintLink(links[0]), PrintLinks(links[1..]), rest);
      assert links == [links[0]] + links[1..];
    }
  }

  lemma LinkReadsBack(link: Link, rest: seq<Token>)
    requires LegalCore(link.core)
    ensures var ts := PrintLink(link) + rest;
            ts[0] == OpWord(link.op, link.all) && ReadCore(ts[1..]) == Read(link.core, rest)
    decreases link, 1
  {
    var ts := PrintLink(link) + rest;
    assert ts[1..] == PrintCore(link.core) + rest;
    CoreReadsBack(link.core, rest);
  }

  lemma {:induction false} CompoundReadsBack(c: Compound, rest: seq<Token>)
    requires Legal(c) && Stops(rest)
    ensures ReadCompound(PrintCompound(c) + rest) == Read(c, rest)
    decreases c, 2
  {
    var end := PrintEnd(c.order, c.limit, c.offset);
    Regroup(PrintCore(c.first), PrintLinks(c.links), end, rest);
    CoreReadsBack(c.first, PrintLinks(c.links) + (end + rest));
    LinksReadBack(c.links, end + rest);
    EndReadsBack(c.order, c.limit, c.offset, rest);
  }

  // ----- What the emitted text is read as -----

  /** A VALUES list has at least one row. */
  predicate WellFormed(q: Query) {
    match q
    case Simple(_, _) => true
    case Values(rows, _) => rows != []
    case SetOp(_, _, left, right, _) => WellFormed(left) && WellFormed(right)
  }

  function ReadingLimit(tail: Tail): Option<int> {
    if tail.limit.LimitCount? then (var n: int := tail.limit.n; Some(n))
    else if tail.limit.LimitNull? || tail.offset.Some? then Some(-1) else None
  }

  function UnionAllLinks(rows: seq<string>): (links: seq<Link>)
    ensures forall link :: link in links ==> LegalLink(link)
  {
    if rows == [] then [] else [Link(Union, true, RowCore(rows[0]))] + UnionAllLinks(rows[1..])
  }

  function OperandReading(q: Query, inSubquery: bool): (Core, seq<Link>)
    requires WellFormed(q)
    decreases q, 1
  {
    var reading := Reading(q, inSubquery);
    if NeedsWrapping(q) then (SubCore(reading), []) else (reading.first, reading.links)
  }

  function Reading(q: Query, inSubquery: bool): Compound
    requires WellFormed(q)
    decreases q, 0
  {
    match q
    case Simple(body, tail) =>
      Compound(BodyCore(body), [], ReconstructSorts(tail.order), ReadingLimit(tail), tail.offset)
    case Values(rows, _) =>
      if inSubquery then Compound(RowCore(rows[0]), UnionAllLinks(rows[1..]), [], None, None)
      else Compound(ValuesCore(rows), [], [], None, None)
    case SetOp(op, all, left, right, tail) =>
      var l := OperandReading(left, inSubquery);
      var r := OperandReading(right, inSubquery);
      Compound(l.0, l.1 + [Link(op, op.Union? && all, r.0)] + r.1, ReconstructSorts(tail.order), ReadingLimit(tail),
               tail.offset)
  }

  lemma {:induction false} PrintLinksAppend(a: seq<Link>, b: seq<Link>)
    ensures PrintLinks(a + b) == PrintLinks(a) + PrintLinks(b)
    decreases |a|
  {
    if a == [] {
      assert a + b == b;
    } else {
      assert (a + b)[1..] == a[1..] + b;
      PrintLinksAppend(a[1..], b);
      Assoc(PrintLink(a[0]), PrintLinks(a[1..]), PrintLinks(b));
    }
  }

  lemma {:induction false} UnionAllIsPrinted(rows: seq<string>)
    requires rows != []
    ensures UnionAllTokens(rows) == PrintCore(RowCore(rows[0])) + PrintLinks(UnionAllLinks(rows[1..]))
  {
    if |rows| > 1 {
      UnionAllIsPrinted(rows[1..]);
      assert rows[1..][0] == rows[1] && rows[1..][1..] == rows[2..];
      var links := UnionAllLinks(rows[1..]);
      assert links[0] == Link(Union, true, RowCore(rows[1])) && links[1..] == UnionAllLinks(rows[2..]);
    }
  }

  lemma TailIsPrinted(tail: Tail)
    ensures TailTokens(tail) == PrintEnd(ReconstructSorts(tail.order), ReadingLimit(tail), tail.offset)
  {
  }

  lemma {:induction false} TokensArePrinted(q: Query, inSubquery: bool)
    requires WellFormed(q)
    ensures Legal(Reading(q, inSubquery)) && Tokens(q, inSubquery) == PrintCompound(Reading(q, inSubquery))
    decreases q, 0
  {
    match q
    case Simple(body, tail) =>
      TailIsPrinted(tail);
      assert [Body(body)] + PrintLinks([]) == [Body(body)];
    case Values(rows, _) =>
      if inSubquery {
        UnionAllIsPrinted(rows);
        assert UnionAllTokens(rows) + PrintEnd([], None, None) == UnionAllTokens(rows);
      } else {
        assert [ValuesList(rows)] + PrintLinks([]) + PrintEnd([], None, None) == [ValuesList(rows)];
      }
    case SetOp(op, all, left, right, tail) =>
      OperandIsPrinted(left, inSubquery);
      OperandIsPrinted(right, inSubquery);
      TailIsPrinted(tail);
      var l := OperandReading(left, inSubquery);
      var r := OperandReading(right, inSubquery);
      ChainIsPrinted(l.0, l.1, Link(op, op.Union? && all, r.0), r.1);
  }

  lemma OperandIsPrinted(q: Query, inSubquery: bool)
    requires WellFormed(q)
    ensures var o := OperandReading(q, inSubquery);
            && LegalCore(o.0) && (forall link :: link in o.1 ==> LegalLink(link))
            && OperandTokens(q, inSubquery) == PrintCore(o.0) + PrintLinks(o.1)
    decreases q, 1
  {
    TokensArePrinted(q, inSubquery);
    var reading := Reading(q, inSubquery);
    if NeedsWrapping(q) {
      assert PrintCore(SubCore(reading)) + PrintLinks([]) == PrintCore(SubCore(reading));
    } else {
      var chain := PrintCore(reading.first) + PrintLinks(reading.links);
      assert PrintEnd([], None, None) == [];
      assert chain + [] == chain;
    }
  }

  lemma ChainIsPrinted(first: Core, before: seq<Link>, link: Link, after: seq<Link>)
    ensures PrintCore(first) + PrintLinks(before + [link] + after)
         == (PrintCore(first) + PrintLinks(before)) + [OpWord(link.op, link.all)]
            + (PrintCore(link.core) + PrintLinks(after))
  {
    PrintLinksAppend(before + [link], after);
    PrintLinksAppend(before, [link]);
    assert [link][1..] == [];
    assert PrintLinks([link]) == PrintLink(link) + PrintLinks([]);
    assert PrintLink(link) + PrintLinks([]) == PrintLink(link);
    FiveParts(PrintCore(first), PrintLinks(before), [OpWord(link.op, link.all)], PrintCore(link.core),
              PrintLinks(after));
  }

  lemma FiveParts(a: seq<Token>, b: seq<Token>, c: seq<Token>, d: seq<Token>, e: seq<Token>)
    ensures a + (b + (c + d) + e) == (a + b) + c + (d + e)
  {
  }

  /** SQLite's grammar reads the emitted text, and in one way only. */
  lemma TextParses(q: Query, inSubquery: bool)
    requires WellFormed(q)
    ensures Parse(Tokens(q, inSubquery)) == Some(Reading(q, inSubquery))
  {
    TokensArePrinted(q, inSubquery);
    CompoundReadsBack(Reading(q, inSubquery), []);
    assert Tokens(q, inSubquery) + [] == Tokens(q, inSubquery);
  }

  // ----- Meaning -----

  /** What the two databases share: the rows of a SELECT body and of a VALUES row, the operators and sorting. */
  datatype Engine = Engine(
    body: string -> Table, row: string -> Row, combine: (Op, bool, Table, Table) -> Table,
    sort: (seq<SortKey>, Table) -> Table)

  /** UNION ALL appends, and sorting uses nothing but the order that the keys put the rows in. */
  ghost predicate IsSql(e: Engine) {
    && (forall a, b :: e.combine(Union, true, a, b) == a + b)
    && (forall t :: e.sort([], t) == t)
    && (forall keys, others, t :: SameOrder(t, keys, others) ==> e.sort(keys, t) == e.sort(others, t))
  }

  function RowsOf(rows: seq<string>, e: Engine): (t: Table)
    ensures |t| == |rows|
  {
    seq(|rows|, i requires 0 <= i < |rows| => e.row(rows[i]))
  }

  function OffsetOf(tail: Tail): nat {
    if tail.offset.Some? then tail.offset.value else 0
  }

  function FinishPg(t: Table, tail: Tail, e: Engine): Table {
    PgSlice(e.sort(PgKeys(tail.order), t), tail.limit, OffsetOf(tail))
  }

  function EvalPg(q: Query, e: Engine): Table {
    match q
    case Simple(body, tail) => FinishPg(e.body(body), tail, e)
    case Values(rows, tail) => FinishPg(RowsOf(rows, e), tail, e)
    case SetOp(op, all, left, right, tail) =>
      FinishPg(e.combine(op, all, EvalPg(left, e), EvalPg(right, e)), tail, e)
  }

  function EvalCore(core: Core, e: Engine): Table
    decreases core
  {
    match core
    case BodyCore(text) => e.body(text)
    case RowCore(row) => [e.row(row)]
    case ValuesCore(rows) => RowsOf(rows, e)
    case SubCore(select) => EvalCompound(select, e)
  }

  /** Left to right, without regard to the kind of operator. */
  function EvalLinks(t: Table, links: seq<Link>, e: Engine): Table
    decreases links
  {
    if links == [] then t else EvalLinks(EvalLink(t, links[0], e), links[1..], e)
  }

  function EvalLink(t: Table, link: Link, e: Engine): Table
    decreases link
  {
    e.combine(link.op, link.all, t, EvalCore(link.core, e))
  }

  function FinishSqlite(t: Table, order: seq<SortText>, limit: Option<int>, offset: Option<nat>, e: Engine): Table {
    SqliteSlice(e.sort(SqliteKeys(order), t),
                LimitText(if limit.Some? then limit.value else -1, if offset.Some? then offset.value else 0))
  }

  function EvalCompound(c: Compound, e: Engine): Table
    decreases c
  {
    FinishSqlite(EvalLinks(EvalCore(c.first, e), c.links, e), c.order, c.limit, c.offset, e)
  }

  // ----- Which trees are preserved -----

  /** The clauses mean the same in both databases: nothing is returned, or no placement of NULLs is lost. */
  predicate TailKept(tail: Tail) {
    tail.limit == LimitCount(0) || EffectiveKept(tail.order)
  }

  /** Without its clauses the VALUES list has the same rows in the same order. */
  predicate TailHarmless(rows: seq<string>, tail: Tail) {
    && (tail.offset.Some? ==> tail.offset.value == 0)
    && (tail.limit.LimitCount? ==> tail.limit.n >= |rows|)
    && (tail.order == [] || forall i, j :: 0 <= i < j < |rows| ==> rows[i] == rows[j])
  }

  /** ALL on UNION only, harmless clauses on VALUES, no lost NULL placement, and inside a subquery no VALUES of several
      rows that is not wrapped on the right of an operator other than UNION ALL. */
  predicate Supported(q: Query, inSubquery: bool) {
    match q
    case Simple(_, tail) => TailKept(tail)
    case Values(rows, tail) => TailHarmless(rows, tail)
    case SetOp(op, all, left, right, tail) =>
      && TailKept(tail) && Supported(left, inSubquery) && Supported(right, inSubquery)
      && (all ==> op.Union?)
      && (inSubquery && right.Values? ==> |right.rows| <= 1 || all || NeedsWrapping(right))
  }

  lemma TailIsPreserved(t: Table, tail: Tail, e: Engine)
    requires TailKept(tail) && IsSql(e)
    ensures FinishSqlite(t, ReconstructSorts(tail.order), ReadingLimit(tail), tail.offset, e) == FinishPg(t, tail, e)
  {
    if EffectiveKept(tail.order) {
      OrdersAgree(tail.order, t);
    }
  }

  lemma EqualRowsStay(t: Table, keys: seq<SortKey>, e: Engine)
    requires IsSql(e) && forall i, j :: 0 <= i < j < |t| ==> t[i] == t[j]
    ensures e.sort(keys, t) == t
  {
    forall i, j | 0 <= i < |t| && 0 <= j < |t|
      ensures Before(t, keys, i, j) <==> Before(t, [], i, j)
    {
      assert t[i] == t[j];
      CompareEqualIff(t[i], t[j], keys);
    }
    assert SameOrder(t, keys, []);
  }

  lemma ValuesStayWhole(rows: seq<string>, tail: Tail, e: Engine)
    requires TailHarmless(rows, tail) && IsSql(e)
    ensures FinishPg(RowsOf(rows, e), tail, e) == RowsOf(rows, e)
  {
    if tail.order == [] {
      assert PgKeys(tail.order) == [];
    } else {
      EqualRowsStay(RowsOf(rows, e), PgKeys(tail.order), e);
    }
  }

  const NO_TAIL := Tail([], NoLimit, None)

  lemma NothingToFinish(t: Table, e: Engine)
    requires IsSql(e)
    ensures FinishPg(t, NO_TAIL, e) == t && FinishSqlite(t, [], None, None, e) == t
  {
    assert PgKeys([]) == [] && SqliteKeys([]) == [];
  }

  lemma {:induction false} EvalLinksAppend(t: Table, a: seq<Link>, b: seq<Link>, e: Engine)
    ensures EvalLinks(t, a + b, e) == EvalLinks(EvalLinks(t, a, e), b, e)
    decreases |a|
  {
    if a == [] {
      assert a + b == b;
    } else {
      assert (a + b)[1..] == a[1..] + b;
      EvalLinksAppend(EvalLink(t, a[0], e), a[1..], b, e);
    }
  }

  lemma {:induction false} UnionAllConcatenates(t: Table, rows: seq<string>, e: Engine)
    requires IsSql(e)
    ensures EvalLinks(t, UnionAllLinks(rows), e) == t + RowsOf(rows, e)
    decreases |rows|
  {
    var links := UnionAllLinks(rows);
    if rows == [] {
      assert t + RowsOf(rows, e) == t;
    } else {
      assert links[0] == Link(Union, true, RowCore(rows[0])) && links[1..] == UnionAllLinks(rows[1..]);
      assert EvalLink(t, links[0], e) == t + [e.row(rows[0])];
      UnionAllConcatenates(t + [e.row(rows[0])], rows[1..], e);
      assert t + [e.row(rows[0])] + RowsOf(rows[1..], e) == t + RowsOf(rows, e);
    }
  }

  lemma {:induction false} ReadingIsPreserved(q: Query, inSubquery: bool, e: Engine)
    requires WellFormed(q) && Supported(q, inSubquery) && IsSql(e)
    ensures EvalCompound(Reading(q, inSubquery), e) == EvalPg(q, e)
    decreases q, 0
  {
    match q
    case Simple(_, tail) =>
      TailIsPreserved(e.body(q.body), tail, e);
    case Values(rows, tail) =>
      ValuesStayWhole(rows, tail, e);
      NothingToFinish(RowsOf(rows, e), e);
      if inSubquery {
        UnionAllConcatenates([e.row(rows[0])], rows[1..], e);
        assert [e.row(rows[0])] + RowsOf(rows[1..], e) == RowsOf(rows, e);
      }
    case SetOp(op, all, left, right, tail) =>
      LeftIsPreserved(left, inSubquery, e);
      RightIsPreserved(EvalPg(left, e), op, all, right, inSubquery, e);
      var l := OperandReading(left, inSubquery);
      var r := OperandReading(right, inSubquery);
      EvalLinksAppend(EvalCore(l.0, e), l.1 + [Link(op, all, r.0)], r.1, e);
      EvalLinksAppend(EvalCore(l.0, e), l.1, [Link(op, all, r.0)], e);
      TailIsPreserved(e.combine(op, all, EvalPg(left, e), EvalPg(right, e)), tail, e);
  }

  lemma LeftIsPreserved(q: Query, inSubquery: bool, e: Engine)
    requires WellFormed(q) && Supported(q, inSubquery) && IsSql(e)
    ensures var o := OperandReading(q, inSubquery); EvalLinks(EvalCore(o.0, e), o.1, e) == EvalPg(q, e)
    decreases q, 1
  {
    ReadingIsPreserved(q, inSubquery, e);
  }

  lemma RightIsPreserved(t: Table, op: Op, all: bool, q: Query, inSubquery: bool, e: Engine)
    requires WellFormed(q) && Supported(q, inSubquery) && IsSql(e)
    requires (all ==> op.Union?) && (inSubquery && q.Values? ==> |q.rows| <= 1 || all || NeedsWrapping(q))
    ensures var o := OperandReading(q, inSubquery);
            EvalLinks(t, [Link(op, all, o.0)] + o.1, e) == e.combine(op, all, t, EvalPg(q, e))
    decreases q, 1
  {
    ReadingIsPreserved(q, inSubquery, e);
    var o := OperandReading(q, inSubquery);
    assert ([Link(op, all, o.0)] + o.1)[1..] == o.1;
    assert EvalLinks(t, [Link(op, all, o.0)] + o.1, e) == EvalLinks(e.combine(op, all, t, EvalCore(o.0, e)), o.1, e);
    if !q.Values? || !inSubquery || NeedsWrapping(q) {
      assert o.1 == [] && EvalCore(o.0, e) == EvalPg(q, e);
    } else {
      UnionAllConcatenates(e.combine(op, all, t, [e.row(q.rows[0])]), q.rows[1..], e);
      if all {
        assert t + [e.row(q.rows[0])] + RowsOf(q.rows[1..], e) == t + RowsOf(q.rows, e);
      } else {
        assert RowsOf(q.rows, e) == [e.row(q.rows[0])];
      }
      ValuesStayWhole(q.rows, q.tail, e);
    }
  }

  /** For every tree of set operations with ORDER BY, LIMIT and OFFSET at any level: SQLite reads the emitted text, and
      what it reads yields the rows of the tree, whatever the two databases' common operators compute. */
  lemma SetOperationsArePreserved(q: Query, inSubquery: bool, e: Engine)
    requires WellFormed(q) && Supported(q, inSubquery) && IsSql(e)
    ensures Parse(Tokens(q, inSubquery)).Some?
    ensures EvalCompound(Parse(Tokens(q, inSubquery)).value, e) == EvalPg(q, e)
  {
    TextParses(q, inSubquery);
    ReadingIsPreserved(q, inSubquery, e);
  }

  // ----- Where the rewriting departs -----

  function Dedup(t: Table): (r: Table)
    ensures forall x :: x in r <==> x in t
    ensures forall i, j :: 0 <= i < j < |r| ==> r[i] != r[j]
  {
    if t == [] then []
    else
      var r := Dedup(t[..|t| - 1]);
      assert t == t[..|t| - 1] + [t[|t| - 1]];
      if t[|t| - 1] in r then r else r + [t[|t| - 1]]
  }

  /** The rows of a that are (or are not) in b. */
  function Members(a: Table, b: Table, inside: bool): Table {
    if a == [] then []
    else (if (a[0] in b) == inside then [a[0]] else []) + Members(a[1..], b, inside)
  }

  /** With ALL every row of a needs a partner of its own in b. */
  function Partners(a: Table, b: multiset<Row>, inside: bool): Table {
    if a == [] then []
    else if a[0] in b then (if inside then [a[0]] else []) + Partners(a[1..], b - multiset{a[0]}, inside)
    else (if inside then [] else [a[0]]) + Partners(a[1..], b, inside)
  }

  function Combine(op: Op, all: bool, a: Table, b: Table): Table {
    match op
    case Union => if all then a + b else Dedup(a + b)
    case Intersect => if all then Partners(a, multiset(b), true) else Dedup(Members(a, b, true))
    case Except => if all then Partners(a, multiset(b), false) else Dedup(Members(a, b, false))
  }

  function SqlEngine(body: string -> Table, row: string -> Row): Engine {
    Engine(body, row, Combine, (keys, t) => OrderBy(t, keys))
  }

  lemma {:induction false} UnsortedStays(t: Table, n: nat)
    requires n <= |t|
    ensures Sort(t, [], UpTo(|t|)[n..]) == UpTo(|t|)[n..]
    decreases |t| - n
  {
    if n < |t| {
      assert UpTo(|t|)[n..][1..] == UpTo(|t|)[n + 1..];
      UnsortedStays(t, n + 1);
    }
  }

  lemma SqlEngineIsSql(body: string -> Table, row: string -> Row)
    ensures IsSql(SqlEngine(body, row))
  {
    forall t: Table
      ensures OrderBy(t, []) == t
    {
      UnsortedStays(t, 0);
      assert UpTo(|t|)[0..] == UpTo(|t|);
    }
    forall keys, others, t | SameOrder(t, keys, others)
      ensures OrderBy(t, keys) == OrderBy(t, others)
    {
      SortsAlike(t, keys, others, UpTo(|t|));
    }
  }

  function Operation(op: Op, all: bool, left: Query, right: Query): (q: Query)
    requires WellFormed(left) && WellFormed(right)
    ensures WellFormed(q)
  {
    SetOp(op, all, left, right, NO_TAIL)
  }

  function Plain(body: string): (q: Query)
    ensures WellFormed(q) && Supported(q, true) && Supported(q, false)
  {
    Simple(body, NO_TAIL)
  }

  function PlainValues(rows: seq<string>): (q: Query)
    requires rows != []
    ensures WellFormed(q) && Supported(q, true) && Supported(q, false)
  {
    Values(rows, NO_TAIL)
  }

  ghost predicate Preserved(q: Query, inSubquery: bool, e: Engine)
    requires WellFormed(q)
  {
    EvalCompound(Reading(q, inSubquery), e) == EvalPg(q, e)
  }

  /** An operation on a plain SELECT and another unwrapped operand, in both evaluations. */
  lemma OperationEvaluates(op: Op, all: bool, a: string, right: Query, tail: Tail, inSubquery: bool, e: Engine)
    requires WellFormed(right) && !NeedsWrapping(right) && IsSql(e)
    ensures var q := SetOp(op, all, Plain(a), right, tail);
            var r := OperandReading(right, inSubquery);
            && EvalPg(q, e) == FinishPg(e.combine(op, all, e.body(a), EvalPg(right, e)), tail, e)
            && EvalCompound(Reading(q, inSubquery), e)
               == FinishSqlite(EvalLinks(e.combine(op, op.Union? && all, e.body(a), EvalCore(r.0, e)), r.1, e),
                               ReconstructSorts(tail.order), ReadingLimit(tail), tail.offset, e)
  {
    var q := SetOp(op, all, Plain(a), right, tail);
    var r := OperandReading(right, inSubquery);
    var link := Link(op, op.Union? && all, r.0);
    NothingToFinish(e.body(a), e);
    assert OperandReading(Plain(a), inSubquery) == (BodyCore(a), []);
    var links := [link] + r.1;
    assert Reading(q, inSubquery)
        == Compound(BodyCore(a), links, ReconstructSorts(tail.order), ReadingLimit(tail), tail.offset) by {
      assert [] + [link] + r.1 == links;
    }
    assert links[0] == link && links[1..] == r.1;
    assert EvalCore(BodyCore(a), e) == e.body(a);
    assert EvalLinks(e.body(a), links, e) == EvalLinks(EvalLink(e.body(a), link, e), r.1, e);
  }

  lemma PlainEvaluates(op: Op, all: bool, a: string, b: string, tail: Tail, inSubquery: bool, e: Engine)
    requires IsSql(e)
    ensures var q := SetOp(op, all, Plain(a), Plain(b), tail);
            && EvalPg(q, e) == FinishPg(e.combine(op, all, e.body(a), e.body(b)), tail, e)
            && EvalCompound(Reading(q, inSubquery), e)
               == FinishSqlite(e.combine(op, op.Union? && all, e.body(a), e.body(b)), ReconstructSorts(tail.order),
                               ReadingLimit(tail), tail.offset, e)
  {
    OperationEvaluates(op, all, a, Plain(b), tail, inSubquery, e);
    NothingToFinish(e.body(b), e);
    assert OperandReading(Plain(b), inSubquery) == (BodyCore(b), []);
  }

  lemma PlainOperationEvaluates(op: Op, all: bool, a: string, b: string, inSubquery: bool, e: Engine)
    requires IsSql(e)
    ensures var q := Operation(op, all, Plain(a), Plain(b));
            && EvalPg(q, e) == e.combine(op, all, e.body(a), e.body(b))
            && EvalCompound(Reading(q, inSubquery), e) == e.combine(op, op.Union? && all, e.body(a), e.body(b))
  {
    PlainEvaluates(op, all, a, b, NO_TAIL, inSubquery, e);
    NothingToFinish(e.combine(op, all, e.body(a), e.body(b)), e);
    NothingToFinish(e.combine(op, op.Union? && all, e.body(a), e.body(b)), e);
    assert ReconstructSorts([]) == [];
  }

  lemma ValuesEvaluate(op: Op, a: string, rows: seq<string>, e: Engine)
    requires rows != [] && IsSql(e)
    ensures var q := Operation(op, false, Plain(a), PlainValues(rows));
            var values := RowsOf(rows, e);
            && EvalPg(q, e) == e.combine(op, false, e.body(a), values)
            && EvalCompound(Reading(q, true), e) == e.combine(op, false, e.body(a), [values[0]]) + values[1..]
  {
    var values := RowsOf(rows, e);
    OperationEvaluates(op, false, a, PlainValues(rows), NO_TAIL, true, e);
    NothingToFinish(values, e);
    UnionAllConcatenates(e.combine(op, false, e.body(a), [e.row(rows[0])]), rows[1..], e);
    assert RowsOf(rows[1..], e) == values[1..];
    NothingToFinish(e.combine(op, false, e.body(a), values), e);
    NothingToFinish(e.combine(op, false, e.body(a), [values[0]]) + values[1..], e);
    assert ReconstructSorts([]) == [];
  }

  lemma DedupPair(x: Row)
    ensures Dedup([x, x]) == [x]
  {
    assert [x][..0] == [] && [x, x][..1] == [x];
    assert Dedup([x]) == [x];
  }

  lemma AllMatters(op: Op, x: Row)
    requires !op.Union?
    ensures var b := if op.Intersect? then [x, x] else [x];
            |Combine(op, true, [x, x], b)| != |Combine(op, false, [x, x], b)|
  {
    assert [x, x][1..] == [x] && [x][1..] == [];
    if op.Intersect? {
      assert multiset([x, x]) - multiset{x} == multiset{x};
      assert Partners([x], multiset{x}, true) == [x] + Partners([], multiset{}, true);
      assert Members([x], [x, x], true) == [x] + Members([], [x, x], true);
      assert Members([x, x], [x, x], true) == [x, x];
      DedupPair(x);
    } else {
      assert multiset([x]) - multiset{x} == multiset{};
      assert Partners([x], multiset{}, false) == [x] + Partners([], multiset{}, false);
      assert Members([x], [x], false) == [] + Members([], [x], false);
      assert Members([x, x], [x], false) == [];
    }
  }

  /** A single operator on two SELECTs is preserved for all their results exactly if it is not INTERSECT ALL or
      EXCEPT ALL, whose ALL is lost. */
  lemma AllIsPreservedIff(op: Op, all: bool, a: string, b: string, inSubquery: bool, row: string -> Row)
    requires a != b
    ensures var q := Operation(op, all, Plain(a), Plain(b));
            (forall body :: Preserved(q, inSubquery, SqlEngine(body, row))) <==> (all ==> op.Union?)
  {
    var q := Operation(op, all, Plain(a), Plain(b));
    if all && !op.Union? {
      var x: Row := map[];
      var other: Table := if op.Intersect? then [x, x] else [x];
      AllIsLost(op, a, b, inSubquery, (s: string) => if s == a then [x, x] else other, row, x);
    } else {
      forall body: string -> Table
        ensures Preserved(q, inSubquery, SqlEngine(body, row))
      {
        SqlEngineIsSql(body, row);
        ReadingIsPreserved(q, inSubquery, SqlEngine(body, row));
      }
    }
  }

  lemma AllIsLost(op: Op, a: string, b: string, inSubquery: bool, body: string -> Table, row: string -> Row, x: Row)
    requires !op.Union? && body(a) == [x, x] && body(b) == if op.Intersect? then [x, x] else [x]
    ensures !Preserved(Operation(op, true, Plain(a), Plain(b)), inSubquery, SqlEngine(body, row))
  {
    SqlEngineIsSql(body, row);
    PlainOperationEvaluates(op, true, a, b, inSubquery, SqlEngine(body, row));
    AllMatters(op, x);
  }

  lemma RepeatedRow(r: Table, t: Table, i: nat, j: nat)
    requires forall i, j :: 0 <= i < j < |r| ==> r[i] != r[j]
    requires i < j < |t| && t[i] == t[j]
    ensures r != t
  {
  }

  lemma RowsAreAppended(op: Op, left: Table, values: Table)
    requires |values| > 1 && left == if op.Union? then [values[|values| - 1]] else []
    ensures Combine(op, false, left, values) != Combine(op, false, left, [values[0]]) + values[1..]
  {
    var last := values[|values| - 1];
    var first := Combine(op, false, left, [values[0]]);
    var appended := first + values[1..];
    assert appended[|appended| - 1] == last;
    if op.Union? {
      var r := Dedup(left + values);
      assert left[0] in left + [values[0]];
      assert last in first;
      var i :| 0 <= i < |first| && first[i] == last;
      RepeatedRow(r, appended, i, |appended| - 1);
    }
  }

  /** Inside a subquery, VALUES on the right of an operator is preserved for all results of the left side exactly if it
      has one row, the operator is UNION ALL, or clauses of its own get it wrapped: otherwise SQLite applies the
      operator to the first row only, and then appends the others. */
  lemma ValuesOnTheRightIff(op: Op, all: bool, a: string, rows: seq<string>, tail: Tail, row: string -> Row)
    requires rows != [] && TailHarmless(rows, tail) && (all ==> op.Union?)
    ensures var q := Operation(op, all, Plain(a), Values(rows, tail));
            (forall body :: Preserved(q, true, SqlEngine(body, row)))
            <==> |rows| == 1 || all || NeedsWrapping(Values(rows, tail))
  {
    var q := Operation(op, all, Plain(a), Values(rows, tail));
    if |rows| > 1 && !all && !NeedsWrapping(Values(rows, tail)) {
      assert tail == NO_TAIL;
      var left: Table := if op.Union? then [row(rows[|rows| - 1])] else [];
      ValuesAreSplit(op, a, rows, (s: string) => left, row);
    } else {
      forall body: string -> Table
        ensures Preserved(q, true, SqlEngine(body, row))
      {
        SqlEngineIsSql(body, row);
        ReadingIsPreserved(q, true, SqlEngine(body, row));
      }
    }
  }

  lemma ValuesAreSplit(op: Op, a: string, rows: seq<string>, body: string -> Table, row: string -> Row)
    requires |rows| > 1 && body(a) == if op.Union? then [row(rows[|rows| - 1])] else []
    ensures !Preserved(Operation(op, false, Plain(a), PlainValues(rows)), true, SqlEngine(body, row))
  {
    var e := SqlEngine(body, row);
    SqlEngineIsSql(body, row);
    ValuesEvaluate(op, a, rows, e);
    RowsAreAppended(op, body(a), RowsOf(rows, e));
  }

  // ----- VALUES loses its clauses -----

  lemma ValuesReading(rows: seq<string>, tail: Tail, inSubquery: bool, e: Engine)
    requires rows != [] && IsSql(e)
    ensures EvalCompound(Reading(Values(rows, tail), inSubquery), e) == RowsOf(rows, e)
  {
    ReadingIsPreserved(PlainValues(rows), inSubquery, e);
    NothingToFinish(RowsOf(rows, e), e);
  }

  lemma {:induction false} NeighboursDiffer(rows: seq<string>, i: nat, j: nat) returns (k: nat)
    requires i < j < |rows| && rows[i] != rows[j]
    ensures k + 1 < |rows| && rows[k] != rows[k + 1]
    decreases j
  {
    if rows[j - 1] != rows[j] {
      k := j - 1;
    } else {
      k := NeighboursDiffer(rows, i, j - 1);
    }
  }

  /** A meaning of the rows under which row k belongs behind row k + 1. */
  function Misplaced(key: SortKey, text: string): string -> Row {
    (s: string) => map[key.column := Number(if (s == text) == key.descending then 0 else 1)]
  }

  lemma LostOrderShows(rows: seq<string>, order: seq<SortItem>, k: nat, e: Engine)
    requires order != [] && k + 1 < |rows| && rows[k] != rows[k + 1]
    requires e.row == Misplaced(PgKey(order[0]), rows[k])
    ensures OrderBy(RowsOf(rows, e), PgKeys(order)) != RowsOf(rows, e)
  {
    var t, keys := RowsOf(rows, e), PgKeys(order);
    assert keys[0] == PgKey(order[0]);
    assert CompareValues(Cell(t[k], keys[0].column), Cell(t[k + 1], keys[0].column), keys[0]) > 0;
    OrderByIsOrdered(t, keys, k, k + 1);
  }

  /** VALUES is preserved for all meanings of its rows exactly if there is no OFFSET, no LIMIT below the number of its
      rows, and nothing to sort: no ORDER BY or only equal rows. */
  lemma {:induction false} ValuesClausesIff(rows: seq<string>, tail: Tail, inSubquery: bool, body: string -> Table)
    requires rows != []
    ensures (forall row :: Preserved(Values(rows, tail), inSubquery, SqlEngine(body, row)))
       <==> TailHarmless(rows, tail)
  {
    var q := Values(rows, tail);
    if TailHarmless(rows, tail) {
      forall row: string -> Row
        ensures Preserved(q, inSubquery, SqlEngine(body, row))
      {
        SqlEngineIsSql(body, row);
        ReadingIsPreserved(q, inSubquery, SqlEngine(body, row));
      }
    } else if (tail.offset.Some? && tail.offset.value > 0) || (tail.limit.LimitCount? && tail.limit.n < |rows|) {
      var row: string -> Row := (s: string) => map[];
      RowsAreCut(rows, tail, inSubquery, body, row);
    } else {
      var i, j :| 0 <= i < j < |rows| && rows[i] != rows[j];
      var k := NeighboursDiffer(rows, i, j);
      var row := Misplaced(PgKey(tail.order[0]), rows[k]);
      SqlEngineIsSql(body, row);
      RowsAreUnsorted(rows, tail, k, inSubquery, SqlEngine(body, row));
    }
  }

  lemma RowsAreUnsorted(rows: seq<string>, tail: Tail, k: nat, inSubquery: bool, e: Engine)
    requires (tail.offset.Some? ==> tail.offset.value == 0) && (tail.limit.LimitCount? ==> tail.limit.n >= |rows|)
    requires tail.order != [] && k + 1 < |rows| && rows[k] != rows[k + 1] && IsSql(e)
    requires e.row == Misplaced(PgKey(tail.order[0]), rows[k])
    requires e.sort(PgKeys(tail.order), RowsOf(rows, e)) == OrderBy(RowsOf(rows, e), PgKeys(tail.order))
    ensures !Preserved(Values(rows, tail), inSubquery, e)
  {
    var sorted := OrderBy(RowsOf(rows, e), PgKeys(tail.order));
    ValuesReading(rows, tail, inSubquery, e);
    LostOrderShows(rows, tail.order, k, e);
    assert |sorted| == |rows|;
    assert PgSlice(sorted, tail.limit, OffsetOf(tail)) == sorted;
  }

  lemma RowsAreCut(rows: seq<string>, tail: Tail, inSubquery: bool, body: string -> Table, row: string -> Row)
    requires rows != []
    requires (tail.offset.Some? && tail.offset.value > 0) || (tail.limit.LimitCount? && tail.limit.n < |rows|)
    ensures !Preserved(Values(rows, tail), inSubquery, SqlEngine(body, row))
  {
    var e := SqlEngine(body, row);
    SqlEngineIsSql(body, row);
    ValuesReading(rows, tail, inSubquery, e);
    assert |OrderBy(RowsOf(rows, e), PgKeys(tail.order))| == |rows|;
    assert |EvalPg(Values(rows, tail), e)| < |rows|;
  }

  // ----- ORDER BY loses its placement of NULLs -----

  /** Sorted and cut, the rows of t are others in SQLite. */
  ghost predicate Distinguishes(t: Table, tail: Tail, body: string -> Table, row: string -> Row) {
    var e := SqlEngine(body, row);
    FinishSqlite(t, ReconstructSorts(tail.order), ReadingLimit(tail), tail.offset, e) != FinishPg(t, tail, e)
  }

  /** Rows on which a lost placement of NULLs shows after sorting and cutting. */
  lemma NullTableDistinguishes(tail: Tail, n: nat, body: string -> Table, row: string -> Row)
    requires !TailKept(tail) && n < |tail.order| && !Repeated(tail.order, n) && !NullsKept(tail.order[n])
    ensures Distinguishes(NullTable(tail.order[n].column, OffsetOf(tail)), tail, body, row)
  {
    var e, m := SqlEngine(body, row), OffsetOf(tail);
    var t := NullTable(tail.order[n].column, m);
    LostNullsShowAt(tail.order, n, m);
    FirstAfterCut(OrderBy(t, PgKeys(tail.order)), OrderBy(t, SqliteKeys(ReconstructSorts(tail.order))), tail);
  }

  lemma FirstAfterCut(a: Table, b: Table, tail: Tail)
    requires tail.limit != LimitCount(0) && OffsetOf(tail) < |a| && OffsetOf(tail) < |b|
    requires a[OffsetOf(tail)] != b[OffsetOf(tail)]
    ensures PgSlice(a, tail.limit, OffsetOf(tail))
         != SqliteSlice(b, LimitText(if ReadingLimit(tail).Some? then ReadingLimit(tail).value else -1, OffsetOf(tail)))
  {
    var m, limit := OffsetOf(tail), if ReadingLimit(tail).Some? then ReadingLimit(tail).value else -1;
    assert PgSlice(a, tail.limit, m)[0] == a[m];
    assert SqliteSlice(b, LimitText(limit, m))[0] == b[m];
  }

  lemma NullTableIsDistinct(column: string, m: nat)
    ensures var t := NullTable(column, m); forall i, j :: 0 <= i < j < |t| ==> t[i] != t[j]
  {
    var t := NullTable(column, m);
    forall i, j | 0 <= i < j < |t|
      ensures t[i] != t[j]
    {
      assert Cell(t[i], column) != Cell(t[j], column);
    }
  }

  lemma SelectEvaluates(a: string, tail: Tail, inSubquery: bool, e: Engine)
    ensures var q := Simple(a, tail);
            && EvalPg(q, e) == FinishPg(e.body(a), tail, e)
            && EvalCompound(Reading(q, inSubquery), e)
               == FinishSqlite(e.body(a), ReconstructSorts(tail.order), ReadingLimit(tail), tail.offset, e)
  {
    assert EvalLinks(e.body(a), [], e) == e.body(a);
  }

  /** A SELECT is preserved for all its results exactly if LIMIT is 0 or every effective sort item asks for SQLite's own
      placement of NULLs. */
  lemma {:induction false} SelectIsPreservedIff(a: string, tail: Tail, inSubquery: bool, row: string -> Row)
    ensures (forall body :: Preserved(Simple(a, tail), inSubquery, SqlEngine(body, row))) <==> TailKept(tail)
  {
    var q := Simple(a, tail);
    if TailKept(tail) {
      forall body: string -> Table
        ensures Preserved(q, inSubquery, SqlEngine(body, row))
      {
        SqlEngineIsSql(body, row);
        ReadingIsPreserved(q, inSubquery, SqlEngine(body, row));
      }
    } else {
      var n :| 0 <= n < |tail.order| && !Repeated(tail.order, n) && !NullsKept(tail.order[n]);
      var t := NullTable(tail.order[n].column, OffsetOf(tail));
      var body := (s: string) => t;
      NullTableDistinguishes(tail, n, body, row);
      SelectEvaluates(a, tail, inSubquery, SqlEngine(body, row));
      assert !Preserved(q, inSubquery, SqlEngine(body, row));
    }
  }

  lemma {:induction false} DedupOfDistinct(t: Table)
    requires forall i, j :: 0 <= i < j < |t| ==> t[i] != t[j]
    ensures Dedup(t) == t
  {
    if t != [] {
      var front := t[..|t| - 1];
      DedupOfDistinct(front);
      assert t == front + [t[|t| - 1]];
    }
  }

  lemma {:induction false} AllMembers(a: Table, b: Table, inside: bool)
    requires forall x :: x in a ==> ((x in b) == inside)
    ensures Members(a, b, inside) == a
  {
    if a != [] {
      AllMembers(a[1..], b, inside);
      assert a == [a[0]] + a[1..];
    }
  }

  /** A right operand that changes nothing. */
  lemma NeutralOperand(op: Op, all: bool, t: Table)
    requires (all ==> op.Union?) && forall i, j :: 0 <= i < j < |t| ==> t[i] != t[j]
    ensures Combine(op, all, t, if op.Intersect? then t else []) == t
  {
    DedupOfDistinct(t);
    assert t + [] == t;
    AllMembers(t, if op.Intersect? then t else [], op.Intersect?);
  }

  /** The same for ORDER BY, LIMIT and OFFSET of an operator. */
  lemma {:induction false} OperatorIsPreservedIff(op: Op, all: bool, a: string, b: string, tail: Tail, inSubquery: bool,
                                                  row: string -> Row)
    requires a != b && (all ==> op.Union?)
    ensures (forall body :: Preserved(SetOp(op, all, Plain(a), Plain(b), tail), inSubquery, SqlEngine(body, row)))
       <==> TailKept(tail)
  {
    var q := SetOp(op, all, Plain(a), Plain(b), tail);
    if TailKept(tail) {
      forall body: string -> Table
        ensures Preserved(q, inSubquery, SqlEngine(body, row))
      {
        SqlEngineIsSql(body, row);
        ReadingIsPreserved(q, inSubquery, SqlEngine(body, row));
      }
    } else {
      var n :| 0 <= n < |tail.order| && !Repeated(tail.order, n) && !NullsKept(tail.order[n]);
      var t := NullTable(tail.order[n].column, OffsetOf(tail));
      var body := (s: string) => if s == a then t else if op.Intersect? then t else [];
      NullTableDistinguishes(tail, n, body, row);
      NullTableIsDistinct(tail.order[n].column, OffsetOf(tail));
      SqlEngineIsSql(body, row);
      NeutralOperand(op, all, t);
      PlainEvaluates(op, all, a, b, tail, inSubquery, SqlEngine(body, row));
      assert !Preserved(q, inSubquery, SqlEngine(body, row));
    }
  }
}
