/**
 The ways to end a query chain besides `All`: `IDs`, which goes through the
 other compiler, and `First`, `Only` and `Exist`, which overwrite the limit.
 */
module Terminals {
  import opened Base
  import opened Store
  import opened StoreLemmas
  import opened QueryTree
  import opened EagerSpec
  import opened EagerRows
  import opened EagerJoin
  import opened EagerLinks
  import opened EagerExact
  import opened EagerRerun
  import opened EagerPrefix
  import opened Fetched
  import opened EagerFailure

  // ---------- windows ----------

  lemma WindowPrefix<T>(offset: int, n: nat, longer: Option<int>, xs: seq<T>)
    requires longer.None? || longer.value >= n
    ensures var long := Window(offset, longer, xs);
            Window(offset, Some(n), xs) == if |long| <= n then long else long[..n]
  {
  }

  /** The rows of `q` with its limit replaced are a prefix of the rows without one. */
  lemma LimitIsPrefix(db: Database, q: Query, n: nat)
    requires 0 < n <= MAX_INT32
    ensures var all := NodeRows(db, q.(limit := None));
            NodeRows(db, q.(limit := Some(n))) == if |all| <= n then all else all[..n]
  {
    var limited, unlimited := q.(limit := Some(n)), q.(limit := None);
    var a := SpecSelector(SpecOf(limited).(columns := NodeColumns(limited)));
    var b := SpecSelector(SpecOf(unlimited).(columns := NodeColumns(unlimited)));
    assert Unwindowed(db, a) == Unwindowed(db, b);
    var offset := if a.offset.Some? then a.offset.value else 0;
    WindowPrefix(offset, n, b.limit, Unwindowed(db, b));
  }

  // ---------- First and Only ----------

  datatype Answer<T> = Found(value: T) | NotFound | NotSingular | Failed(error: LoadError)

  function FirstAnswer(db: Database, q: Query): Answer<Node> {
    match All(db, q.(limit := Some(1))).result
    case Err(e) => Failed(e)
    case Ok(nodes) => if nodes == [] then NotFound else Found(nodes[0])
  }

  function OnlyAnswer(db: Database, q: Query): Answer<Node> {
    match All(db, q.(limit := Some(2))).result
    case Err(e) => Failed(e)
    case Ok(nodes) =>
      if |nodes| == 1 then Found(nodes[0]) else if |nodes| == 0 then NotFound else NotSingular
  }

  /** The first n nodes of a list. */
  function FirstOf<T>(n: nat, nodes: seq<T>): seq<T> {
    if |nodes| <= n then nodes else nodes[..n]
  }

  lemma PartialIgnoresLimit(db: Database, q: Query, other: Query, rows: seq<Row>, m: nat)
    requires other == q.(limit := other.limit)
    ensures Partial(db, other, rows, m) == Partial(db, q, rows, m)
  {
    hide All, NodeRows;
    forall i | 0 <= i < |rows| ensures PartialNode(db, other, rows, m, i) == PartialNode(db, q, rows, m, i) {
      assert PartialNode(db, other, rows, m, i).links == PartialNode(db, q, rows, m, i).links;
    }
  }

  /**
   A limit of n returns the first n nodes of the unlimited graph exactly when it loads the
   first n rows as no limit does; in any case it returns nodes with their ids and columns.
   */
  lemma LimitedExact(db: Database, q: Query, n: nat)
    requires PrimaryKeys(db) && WellFormed(q) && FieldsValid(q) && 0 < n <= MAX_INT32
    ensures All(db, q.(limit := None)).result.Ok? && All(db, q.(limit := Some(n))).result.Ok?
    ensures var all := All(db, q.(limit := None)).result.value;
            All(db, q.(limit := Some(n))).result == Ok(FirstOf(n, all)) <==> PrefixAlike(db, q.(limit := None), n)
  {
    hide All, NodeRows, PrefixEdge;
    var limited, unlimited := q.(limit := Some(n)), q.(limit := None);
    var rows := NodeRows(db, unlimited);
    FitsAgain(q, Some(n));
    FitsAgain(q, None);
    AllIsEager(db, limited);
    AllIsEager(db, unlimited);
    LimitIsPrefix(db, q, n);
    PartialIgnoresLimit(db, unlimited, limited, NodeRows(db, limited), |q.with|);
    if n < |rows| { PrefixNodes(db, unlimited, rows, n); }
  }

  lemma FitsAgain(q: Query, limit: Option<int>)
    requires WellFormed(q) && FieldsValid(q)
    ensures WellFormed(q.(limit := limit)) && FieldsValid(q.(limit := limit))
  {
    var other := q.(limit := limit);
    assert other.with == q.with && other.entity == q.entity;
  }

  /** What `First` answers: the head of the unlimited result if a limit of one loads it alike, and always its row. */
  lemma FirstExact(db: Database, q: Query)
    requires PrimaryKeys(db) && WellFormed(q) && FieldsValid(q)
    ensures All(db, q.(limit := None)).result.Ok?
    ensures var all := All(db, q.(limit := None)).result.value;
            if all == [] then FirstAnswer(db, q) == NotFound
            else
              && FirstAnswer(db, q).Found? && FirstAnswer(db, q).value.id == all[0].id
              && (FirstAnswer(db, q) == Found(all[0]) <==> PrefixAlike(db, q.(limit := None), 1))
  {
    hide All, NodeRows, PrefixAlike;
    LimitedExact(db, q, 1);
    LimitIsPrefix(db, q, 1);
    ResultIDs(db, q.(limit := Some(1)));
    ResultIDs(db, q.(limit := None));
    var one, all := All(db, q.(limit := Some(1))).result.value, All(db, q.(limit := None)).result.value;
    SameLength(one, NodeRows(db, q.(limit := Some(1))));
    SameLength(all, NodeRows(db, q.(limit := None)));
    if all != [] {
      assert IDsOf(one)[0] == IDsOf(all)[0];
      assert FirstOf(1, all) == [all[0]] && one == [one[0]];
    }
  }

  /** So of all rows that meet the predicates, `First` answers the one that the order terms prefer. */
  lemma FirstPreferred(db: Database, q: Query, r: Row) returns (head: Row)
    requires PrimaryKeys(db) && PathIntoTable(db, q) && WellFormed(q) && FieldsValid(q)
    requires (q.offset.None? || q.offset == Some(0)) && r in Rows(db, q) && MeetsAll(q.predicates, r)
    ensures FirstAnswer(db, q).Found? && FirstAnswer(db, q).value.id == head.id
    ensures head in Rows(db, q) && MeetsAll(q.predicates, head)
    ensures head == r || InOrder(q.order, Rows(db, q), head, r)
  {
    hide All, NodeRows, MeetsAll, InOrder, PrefixAlike;
    var unlimited := q.(limit := None);
    var rows := NodeRows(db, unlimited);
    FetchedExact(db, unlimited, r);
    head := rows[0];
    assert head in rows;
    FetchedExact(db, unlimited, head);
    FirstExact(db, q);
    ResultIDs(db, unlimited);
    SameLength(All(db, unlimited).result.value, rows);
    assert IDsOf(All(db, unlimited).result.value)[0] == RowIDs(rows)[0];
    var j :| 0 <= j < |rows| && rows[j] == r;
    if j > 0 { OrderExact(db, unlimited, 0, j); }
  }

  /** `First` and `Only` fail exactly when their limited run does. */
  lemma AnswersFail(db: Database, q: Query)
    requires WellFormed(q)
    ensures FirstAnswer(db, q).Failed? <==> Fails(db, q.(limit := Some(1)))
    ensures OnlyAnswer(db, q).Failed? <==> Fails(db, q.(limit := Some(2)))
    ensures forall i | 0 <= i < |q.fields| && Unknown(q, i) && (forall j | 0 <= j < i :: !Unknown(q, j)) ::
              FirstAnswer(db, q) == OnlyAnswer(db, q) == Failed(InvalidField(q.fields[i]))
  {
    hide All, Fails;
    var one, two := q.(limit := Some(1)), q.(limit := Some(2));
    LimitKeepsShape(q, Some(1));
    LimitKeepsShape(q, Some(2));
    FailsExact(db, one);
    FailsExact(db, two);
    forall i | 0 <= i < |q.fields| ensures Unknown(one, i) == Unknown(q, i) == Unknown(two, i) { }
  }

  lemma LimitKeepsShape(q: Query, limit: Option<int>)
    requires WellFormed(q)
    ensures WellFormed(q.(limit := limit))
  {
    var other := q.(limit := limit);
    assert other.with == q.with && other.entity == q.entity;
  }

  lemma SameLength(nodes: seq<Node>, rows: seq<Row>)
    requires IDsOf(nodes) == RowIDs(rows)
    ensures |nodes| == |rows|
  {
    assert |IDsOf(nodes)| == |RowIDs(rows)|;
  }

  /** Without nested windows: exactly when its head does not take children from a later row with the same id. */
  lemma FirstWindowless(db: Database, q: Query)
    requires PrimaryKeys(db) && WellFormed(q) && FieldsValid(q) && NestedWindowless(q)
    requires NodeRows(db, q.(limit := None)) != []
    ensures var unlimited := q.(limit := None);
            && All(db, unlimited).result.Ok? && All(db, unlimited).result.value != []
            && (FirstAnswer(db, q) == Found(All(db, unlimited).result.value[0]) <==>
                forall k | 0 <= k < |q.with| :: !LosesChildren(db, unlimited, NodeRows(db, unlimited), 0, k))
  {
    hide All, NodeRows, PrefixAlike, LosesChildren;
    var unlimited := q.(limit := None);
    var rows := NodeRows(db, unlimited);
    FirstExact(db, q);
    FitsAgain(q, None);
    ResultIDs(db, unlimited);
    SameLength(All(db, unlimited).result.value, rows);
    WindowlessPrefix(db, unlimited, 1);
    assert IsLastRow(rows[..1], 0);
    forall k | 0 <= k < |q.with| ensures 1 < |rows| ==>
      (NoneGains(db, unlimited, rows, 1, k) <==> !LosesChildren(db, unlimited, rows, 0, k))
    {
      if 1 < |rows| { assert GainsChildren(db, unlimited, rows, 1, 0, k) == LosesChildren(db, unlimited, rows, 0, k); }
    }
    if |rows| == 1 { OnlyRow(db, unlimited, rows); }
  }

  lemma OnlyRow(db: Database, q: Query, rows: seq<Row>)
    requires |rows| == 1
    ensures forall k | 0 <= k < |q.with| :: !LosesChildren(db, q, rows, 0, k)
  {
  }

  /** The graph of a limited builder, for a root without repeated ids and trees without nested windows. */
  lemma LimitedGraph(db: Database, q: Query, n: nat)
    requires PrimaryKeys(db) && PathIntoTable(db, q) && WellFormed(q) && NestedWindowless(q) && FieldsValid(q)
    requires (q.path.None? || SpecOf(q).unique) && 0 < n <= MAX_INT32
    ensures All(db, q.(limit := None)).result.Ok?
    ensures All(db, q.(limit := Some(n))).result == Ok(FirstOf(n, All(db, q.(limit := None)).result.value))
  {
    hide All, NodeRows, PrefixAlike, LosesChildren;
    var unlimited := q.(limit := None);
    var rows := NodeRows(db, unlimited);
    LimitedExact(db, q, n);
    FitsAgain(q, None);
    RootDistinct(db, unlimited);
    DistinctLosesNone(db, unlimited);
    WindowlessPrefix(db, unlimited, n);
    if n < |rows| {
      forall k | 0 <= k < |q.with| ensures NoneGains(db, unlimited, rows, n, k) { }
    }
  }

  /** `Only` needs two rows to tell the three cases of the unlimited result apart, for every tree and database. */
  lemma OnlyExact(db: Database, q: Query, x: Node)
    requires All(db, q.(limit := Some(2))).result.Ok? && All(db, q.(limit := None)).result.Ok?
    ensures OnlyAnswer(db, q) == Found(x) <==> All(db, q.(limit := None)).result == Ok([x])
    ensures OnlyAnswer(db, q) == NotFound <==> All(db, q.(limit := None)).result == Ok([])
    ensures OnlyAnswer(db, q) == NotSingular <==> |All(db, q.(limit := None)).result.value| >= 2
  {
    hide All, NodeRows;
    var limited, unlimited := q.(limit := Some(2)), q.(limit := None);
    var two, all := All(db, limited).result.value, All(db, unlimited).result.value;
    LimitIsPrefix(db, q, 2);
    ResultIDs(db, limited);
    ResultIDs(db, unlimited);
    SameLength(two, NodeRows(db, limited));
    SameLength(all, NodeRows(db, unlimited));
    if |all| <= 2 { SameRowsSameResult(db, unlimited, limited); }
    if |all| == 1 { assert all == [all[0]]; }
  }

  // ---------- IDs ----------

  datatype ScanError = BadField(name: Column) | TooManyColumns(count: nat)

  /** The builder as `IDs` leaves it: distinct by default on a traversal, and the id selected. */
  function AfterIDs(q: Query): Query {
    var marked := if q.unique.None? && q.path.Some? then q.(unique := Some(true)) else q;
    marked.(fields := marked.fields + [ID_COLUMN])
  }

  /** A one-column result is what scanning into a list of ids needs. */
  function IDs(db: Database, q: Query): Result<seq<ID>, ScanError> {
    var ready := AfterIDs(q);
    var invalid := FirstInvalid(ready.entity, ready.fields);
    if invalid.Some? then Err(BadField(invalid.value))
    else if |SelectorOf(ready).columns| != 1 then Err(TooManyColumns(|SelectorOf(ready).columns|))
    else Ok(RowIDs(Select(db, SelectorOf(ready))))
  }

  /** The rows both compilers start from, before they cut their windows. */
  function Candidates(db: Database, q: Query): seq<Row> {
    Unwindowed(db, SpecSelector(SpecOf(q).(columns := NodeColumns(q))))
  }

  lemma SameCandidates(db: Database, q: Query)
    requires PrimaryKeys(db) && PathIntoTable(db, q)
    ensures Unwindowed(db, SelectorOf(AfterIDs(q))) == Candidates(db, q)
    ensures DistinctIDs(Candidates(db, q)) || (q.path.Some? && q.unique == Some(false))
  {
    var a := SpecSelector(SpecOf(q).(columns := NodeColumns(q)));
    var b := SelectorOf(AfterIDs(q));
    assert Source(db, a) == Source(db, b) && a.distinct == b.distinct;
    if a.distinct {
      assert OneRowPerID(Source(db, a));
      FilterKeepsOneRowPerID(q.predicates, Source(db, a));
      DistinctIgnoresColumns(a.columns, b.columns, Filter(q.predicates, Source(db, a)));
    }
    if q.path.None? || SpecOf(q).unique {
      var kept := Filter(q.predicates, Source(db, a));
      if q.path.None? {
        FilterKeepsDistinctIDs(q.predicates, Source(db, a));
        DistinctIDsSurvive(a.columns, kept);
      } else {
        DistinctLeavesDistinctIDs(a.columns, kept);
      }
      SortKeepsDistinctIDs(q.order, if a.distinct then Distinct(a.columns, kept) else kept);
    }
  }

  /**
   Where the two windows differ: an explicit `Limit(0)` means "none" to one
   compiler and "no rows" to the other, and an explicit `Offset(0)` without a
   limit caps one of them at 2^31-1 rows.
   */
  predicate WindowsAgree(q: Query, count: nat) {
    && (q.limit == Some(0) ==>
          count <= if q.offset.Some? && q.offset.value > 0 then q.offset.value else 0)
    && (q.limit.None? && q.offset == Some(0) ==> count <= MAX_INT32)
  }

  lemma WindowsExact(q: Query, rows: seq<Row>)
    ensures var a := SpecSelector(SpecOf(q));
            var b := SelectorOf(q);
            Window(if a.offset.Some? then a.offset.value else 0, a.limit, rows) ==
            Window(if b.offset.Some? then b.offset.value else 0, b.limit, rows)
            <==> WindowsAgree(q, |rows|)
  {
  }

  lemma IDsRuns(db: Database, q: Query)
    requires q.fields == [] && ID_COLUMN in q.entity.columns
    ensures IDs(db, q) == Ok(RowIDs(Select(db, SelectorOf(AfterIDs(q)))))
  {
    var ready := AfterIDs(q);
    assert ready.fields == [ID_COLUMN];
    assert ready.fields[1..] == [];
    assert FirstInvalid(ready.entity, ready.fields[1..]).None?;
  }

  /** `IDs` runs exactly on a builder without selected fields. */
  lemma IDsOkExact(db: Database, q: Query)
    requires ID_COLUMN in q.entity.columns
    ensures IDs(db, q).Ok? <==> q.fields == []
  {
    if q.fields == [] { IDsRuns(db, q); }
  }

  /** Otherwise it names the first selected field that is unknown, or finds one column too many for each field. */
  lemma IDsFailsExact(db: Database, q: Query)
    requires ID_COLUMN in q.entity.columns && q.fields != []
    ensures forall i | 0 <= i < |q.fields| && Unknown(q, i) && (forall j | 0 <= j < i :: !Unknown(q, j)) ::
              IDs(db, q) == Err(BadField(q.fields[i]))
    ensures (forall i | 0 <= i < |q.fields| :: !Unknown(q, i)) ==> IDs(db, q) == Err(TooManyColumns(|q.fields| + 1))
  {
    var ready := AfterIDs(q);
    assert ready.fields == q.fields + [ID_COLUMN];
    FirstUnknown(ready, ready.fields);
    forall i | 0 <= i < |q.fields| ensures Unknown(q, i) <==> !ValidColumn(ready.entity, ready.fields[i]) {
      assert ready.fields[i] == q.fields[i];
    }
  }

  lemma IDsOfRows(db: Database, q: Query)
    requires PrimaryKeys(db) && PathIntoTable(db, q) && ID_COLUMN in q.entity.columns
    ensures IDs(db, q) == Ok(RowIDs(NodeRows(db, q))) <==> q.fields == [] && WindowsAgree(q, |Candidates(db, q)|)
  {
    IDsOkExact(db, q);
    if q.fields == [] {
      IDsRuns(db, q);
      SameCandidates(db, q);
      var rows := Candidates(db, q);
      WindowsExact(q, rows);
      WindowLengths(q, rows);
    }
  }

  /**
   `IDs` returns the ids of the graph that `All` returns exactly when no field is selected
   and the two windows agree, as they do for every positive limit.
   */
  lemma IDsExact(db: Database, q: Query)
    requires PrimaryKeys(db) && PathIntoTable(db, q)
    requires ID_COLUMN in q.entity.columns && All(db, q).result.Ok?
    ensures IDs(db, q) == Ok(IDsOf(All(db, q).result.value)) <==>
            q.fields == [] && WindowsAgree(q, |Candidates(db, q)|)
  {
    hide NodeRows, All, IDs, Candidates;
    IDsOfRows(db, q);
    ResultIDs(db, q);
  }

  /** Windows of one list are told apart by the number of rows they keep. */
  lemma WindowLengths(q: Query, rows: seq<Row>)
    ensures var a := SpecSelector(SpecOf(q));
            var b := SelectorOf(q);
            var left := Window(if a.offset.Some? then a.offset.value else 0, a.limit, rows);
            var right := Window(if b.offset.Some? then b.offset.value else 0, b.limit, rows);
            RowIDs(left) == RowIDs(right) <==> left == right
  {
    var a, b := SpecSelector(SpecOf(q)), SelectorOf(q);
    var left := Window(if a.offset.Some? then a.offset.value else 0, a.limit, rows);
    var right := Window(if b.offset.Some? then b.offset.value else 0, b.limit, rows);
    assert |left| == |RowIDs(left)| && |right| == |RowIDs(right)|;
    if |left| <= |right| { assert left == right[..|left|]; } else { assert right == left[..|right|]; }
  }

  /** `IDs` leaves the id selected, so a second call on the same builder always fails. */
  lemma IDsTwiceFails(db: Database, q: Query)
    requires IDs(db, q).Ok?
    ensures IDs(db, AfterIDs(q)) == Err(TooManyColumns(2))
  {
    var again := AfterIDs(AfterIDs(q));
    assert q.fields == [];
    assert again.fields == [ID_COLUMN, ID_COLUMN];
    assert AfterIDs(q).fields == [ID_COLUMN];
    assert again.fields[1..] == [ID_COLUMN] && again.fields[1..][1..] == [];
  }

  // ---------- Exist ----------

  function Exist(db: Database, q: Query): Result<bool, ScanError> {
    match IDs(db, q.(limit := Some(1)))
    case Err(e) => Err(e)
    case Ok(ids) => Ok(ids != [])
  }

  /** `Exist` answers exactly when no field is selected, and then says whether the unlimited result is not empty. */
  lemma ExistExact(db: Database, q: Query)
    requires PrimaryKeys(db) && PathIntoTable(db, q)
    requires ID_COLUMN in q.entity.columns && All(db, q.(limit := None)).result.Ok?
    ensures Exist(db, q).Ok? <==> q.fields == []
    ensures Exist(db, q).Ok? ==> (Exist(db, q).value <==> All(db, q.(limit := None)).result.value != [])
  {
    hide NodeRows, All, IDs, Candidates;
    var one := q.(limit := Some(1));
    IDsOkExact(db, one);
    IDsOfRows(db, one);
    LimitIsPrefix(db, q, 1);
    ResultIDs(db, q.(limit := None));
    SameLength(All(db, q.(limit := None)).result.value, NodeRows(db, q.(limit := None)));
    assert |RowIDs(NodeRows(db, one))| == |NodeRows(db, one)|;
  }
}
