/**
 What a run fetches, in terms of the tables and of what the caller asked the
 builder for: which rows, in which order, in which window, with which columns.
 */
module Fetched {
  import opened Base
  import opened Store
  import opened StoreLemmas
  import opened QueryTree
  import opened EagerSpec
  import opened EagerRows
  import opened EagerExact

  // ---------- which rows ----------

  /** Where the rows come from: the table, or the traversal step. */
  function Rows(db: Database, q: Query): seq<Row> {
    if q.path.Some? then q.path.value(db)
    else if q.entity.table in db then db[q.entity.table]
    else []
  }

  /** The key cell of this column holds the id. */
  predicate Refers(r: Row, c: Column, id: ID) {
    c in r.cells && r.cells[c] == Key(id)
  }

  predicate Meets(p: Predicate, r: Row) {
    match p
    case Matches(test) => test(r)
    case ColumnIn(c, keys) => exists i | 0 <= i < |keys| :: Refers(r, c, keys[i])
    case IDIn(keys) => exists i | 0 <= i < |keys| :: keys[i] == r.id
  }

  predicate MeetsAll(ps: seq<Predicate>, r: Row) {
    forall i | 0 <= i < |ps| :: Meets(ps[i], r)
  }

  lemma MeetsExact(ps: seq<Predicate>, r: Row)
    ensures HoldAll(ps, r) <==> MeetsAll(ps, r)
  {
    forall i | 0 <= i < |ps| ensures Holds(ps[i], r) <==> Meets(ps[i], r) {
      match ps[i]
      case Matches(test) =>
      case ColumnIn(c, keys) =>
        if Holds(ps[i], r) {
          var j :| 0 <= j < |keys| && keys[j] == r.cells[c].id;
          assert Refers(r, c, keys[j]);
        }
      case IDIn(keys) =>
    }
  }

  predicate Unlimited(q: Query) {
    && (q.limit.None? || q.limit == Some(0))
    && (q.offset.None? || q.offset == Some(0))
  }

  lemma {:induction false} DistinctKeeps(columns: seq<Column>, rows: seq<Row>)
    requires OneRowPerID(rows)
    ensures forall r | r in rows :: r in Distinct(columns, rows)
  {
    if rows != [] {
      var n := |rows| - 1;
      DistinctKeeps(columns, rows[..n]);
      var p := Projections(columns, rows[..n]);
      if Project(columns, rows[n]) in p {
        var j :| 0 <= j < n && p[j] == Project(columns, rows[n]);
        assert rows[j].id == rows[n].id && rows[j] in rows && rows[n] in rows;
        assert rows[j] == rows[..n][j];
      }
      assert rows == rows[..n] + [rows[n]];
    }
  }

  /** The rows that a builder keeps and sorts. */
  function Sorted(db: Database, q: Query): seq<Row> {
    var kept := Filter(q.predicates, Rows(db, q));
    if SpecOf(q).unique then Distinct(NodeColumns(q), kept) else kept
  }

  lemma RowsSorted(db: Database, q: Query)
    ensures var s := SpecSelector(SpecOf(q));
            NodeRows(db, q) ==
            Window(if s.offset.Some? then s.offset.value else 0, s.limit, Sort(q.order, Sorted(db, q)))
  {
  }

  /** A run without Limit and Offset fetches exactly the rows of its source that meet every predicate. */
  lemma FetchedExact(db: Database, q: Query, r: Row)
    requires PrimaryKeys(db) && PathIntoTable(db, q) && Unlimited(q)
    ensures r in NodeRows(db, q) <==> r in Rows(db, q) && MeetsAll(q.predicates, r)
  {
    hide NodeRows, Sort, MeetsAll;
    var kept := Filter(q.predicates, Rows(db, q));
    RowsSorted(db, q);
    SortMembers(q.order, Sorted(db, q), r);
    MeetsExact(q.predicates, r);
    FilterMembers(q.predicates, Rows(db, q), r);
    DistinctMembers(NodeColumns(q), kept);
    SourceOneRow(db, q);
    FilterKeepsOneRowPerID(q.predicates, Rows(db, q));
    DistinctKeeps(NodeColumns(q), kept);
  }

  lemma SourceOneRow(db: Database, q: Query)
    requires PrimaryKeys(db) && PathIntoTable(db, q)
    ensures OneRowPerID(Rows(db, q))
  {
  }

  // ---------- which window ----------

  /** Rows skipped: a negative Offset is none. */
  function Skipped(q: Query): nat {
    if q.offset.Some? && q.offset.value > 0 then q.offset.value else 0
  }

  /** The most rows kept after those: a negative Limit is none, and an Offset brings one of its own. */
  function Most(q: Query): Option<nat> {
    if q.limit.Some? && q.limit.value != 0 then if q.limit.value > 0 then Some(q.limit.value) else None
    else if q.offset.Some? && q.offset.value != 0 then Some(MAX_INT32)
    else None
  }

  /** A run with Limit or Offset fetches that stretch of what it would fetch without. */
  lemma WindowedExact(db: Database, q: Query)
    ensures var all := NodeRows(db, q.(limit := None, offset := None));
            NodeRows(db, q) ==
            if |all| <= Skipped(q) then []
            else if Most(q).Some? && Most(q).value < |all| - Skipped(q)
            then all[Skipped(q)..Skipped(q) + Most(q).value]
            else all[Skipped(q)..]
  {
    hide Sort, Sorted, Window, NodeRows;
    var plain := q.(limit := None, offset := None);
    RowsSorted(db, q);
    RowsSorted(db, plain);
    SameSorted(db, q, plain);
    var all := Sort(q.order, Sorted(db, q));
    WindowIs(0, None, all);
    var s := SpecSelector(SpecOf(q));
    WindowIs(if s.offset.Some? then s.offset.value else 0, s.limit, all);
  }

  lemma WindowIs(offset: int, limit: Option<int>, rows: seq<Row>)
    ensures var skipped := if offset > 0 then offset else 0;
            Window(offset, limit, rows) ==
            if |rows| <= skipped then []
            else if limit.Some? && 0 <= limit.value < |rows| - skipped then rows[skipped..skipped + limit.value]
            else rows[skipped..]
  {
    if 0 < offset < |rows| && limit.Some? && 0 <= limit.value < |rows| - offset {
      assert rows[offset..][..limit.value] == rows[offset..offset + limit.value];
    }
  }

  lemma SameSorted(db: Database, q: Query, plain: Query)
    requires plain == q.(limit := plain.limit, offset := plain.offset)
    ensures Sorted(db, plain) == Sorted(db, q)
  {
    assert NodeColumns(plain) == NodeColumns(q);
  }

  // ---------- which order ----------

  /** The first term whose keys differ puts r first: the smaller key when ascending, the larger when descending. */
  predicate Precedes(order: seq<OrderTerm>, r: Row, s: Row) {
    exists t | 0 <= t < |order| :: Decides(order, t, r, s)
  }

  predicate Decides(order: seq<OrderTerm>, t: nat, r: Row, s: Row)
    requires t < |order|
  {
    && (forall u | 0 <= u < t :: order[u].key(r) == order[u].key(s))
    && if order[t].descending then order[t].key(r) > order[t].key(s) else order[t].key(r) < order[t].key(s)
  }

  predicate Ties(order: seq<OrderTerm>, r: Row, s: Row) {
    forall t | 0 <= t < |order| :: order[t].key(r) == order[t].key(s)
  }

  lemma {:induction false} BeforeExact(order: seq<OrderTerm>, r: Row, s: Row)
    ensures Before(order, r, s) <==> Precedes(order, r, s) || Ties(order, r, s)
  {
    if order != [] {
      var rest := order[1..];
      BeforeExact(rest, r, s);
      if order[0].key(r) == order[0].key(s) {
        forall t | 0 <= t < |rest| && Decides(rest, t, r, s) ensures Decides(order, t + 1, r, s) {
          forall u | 0 <= u < t + 1 ensures order[u].key(r) == order[u].key(s) {
            if u > 0 { assert order[u] == rest[u - 1]; }
          }
        }
        forall t | 0 <= t < |order| && Decides(order, t, r, s) ensures t > 0 && Decides(rest, t - 1, r, s) {
          forall u | 0 <= u < t - 1 ensures rest[u].key(r) == rest[u].key(s) { assert order[u + 1] == rest[u]; }
        }
        if Ties(rest, r, s) {
          forall t | 0 <= t < |order| ensures order[t].key(r) == order[t].key(s) {
            if t > 0 { assert order[t] == rest[t - 1]; }
          }
        }
      } else {
        assert Before(order, r, s) <==> Decides(order, 0, r, s);
      }
    }
  }

  /** The list holds r before s. */
  predicate Earlier(rows: seq<Row>, r: Row, s: Row) {
    exists a, b | 0 <= a < b < |rows| :: rows[a] == r && rows[b] == s
  }

  predicate InOrder(order: seq<OrderTerm>, source: seq<Row>, r: Row, s: Row) {
    Precedes(order, r, s) || (Ties(order, r, s) && Earlier(source, r, s))
  }

  ghost predicate AllInOrder(order: seq<OrderTerm>, source: seq<Row>, rows: seq<Row>) {
    forall i, j | 0 <= i < j < |rows| :: InOrder(order, source, rows[i], rows[j])
  }

  lemma MoreInOrder(order: seq<OrderTerm>, source: seq<Row>, last: Row, rows: seq<Row>)
    requires AllInOrder(order, source, rows)
    ensures AllInOrder(order, source + [last], rows)
  {
    forall i, j | 0 <= i < j < |rows| ensures InOrder(order, source + [last], rows[i], rows[j]) {
      assert InOrder(order, source, rows[i], rows[j]);
      if !Precedes(order, rows[i], rows[j]) {
        var a, b :| 0 <= a < b < |source| && source[a] == rows[i] && source[b] == rows[j];
        assert (source + [last])[a] == rows[i] && (source + [last])[b] == rows[j];
      }
    }
  }

  /** Inserting the last row of the source behind everything that does not come after it. */
  lemma {:induction false} InsertInOrder(order: seq<OrderTerm>, source: seq<Row>, last: Row, rows: seq<Row>)
    requires AllInOrder(order, source, rows) && Ordered(order, rows)
    requires forall i | 0 <= i < |rows| :: rows[i] in source
    ensures AllInOrder(order, source + [last], Insert(order, last, rows))
  {
    hide Before, Precedes, Ties;
    MoreInOrder(order, source, last, rows);
    if rows != [] {
      var n := |rows| - 1;
      var out := Insert(order, last, rows);
      if Before(order, rows[n], last) {
        forall i | 0 <= i <= n ensures InOrder(order, source + [last], rows[i], last) {
          if i < n { BeforeTransitive(order, rows[i], rows[n], last); }
          LastInOrder(order, source, last, rows[i]);
        }
      } else {
        InsertInOrder(order, source, last, rows[..n]);
        InsertMembers(order, last, rows[..n]);
        var front := Insert(order, last, rows[..n]);
        forall i | 0 <= i < |front| ensures InOrder(order, source + [last], front[i], rows[n]) {
          assert front[i] in multiset(front);
          assert front[i] in multiset(rows[..n]) || front[i] == last;
          if front[i] == last {
            BeforeTotal(order, rows[n], last);
            BeforeExact(order, last, rows[n]);
            BeforeExact(order, rows[n], last);
            TiesBack(order, last, rows[n]);
          }
          if front[i] in multiset(rows[..n]) {
            var k :| 0 <= k < n && rows[k] == front[i];
            assert InOrder(order, source + [last], rows[k], rows[n]);
          }
        }
      }
    }
  }

  lemma TiesBack(order: seq<OrderTerm>, r: Row, s: Row)
    ensures Ties(order, r, s) ==> Ties(order, s, r)
  {
  }

  lemma LastInOrder(order: seq<OrderTerm>, source: seq<Row>, last: Row, r: Row)
    requires r in source && Before(order, r, last)
    ensures InOrder(order, source + [last], r, last)
  {
    hide Before, Precedes, Ties;
    BeforeExact(order, r, last);
    var a :| 0 <= a < |source| && source[a] == r;
    assert (source + [last])[a] == r && (source + [last])[|source|] == last;
  }

  lemma {:induction false} SortInOrder(order: seq<OrderTerm>, rows: seq<Row>)
    ensures AllInOrder(order, rows, Sort(order, rows))
  {
    if rows != [] {
      var n := |rows| - 1;
      SortInOrder(order, rows[..n]);
      SortOrdered(order, rows[..n]);
      var front := Sort(order, rows[..n]);
      forall i | 0 <= i < |front| ensures front[i] in rows[..n] { SortMembers(order, rows[..n], front[i]); }
      InsertInOrder(order, rows[..n], rows[n], front);
      assert rows == rows[..n] + [rows[n]];
    }
  }

  // ---------- what filters leave is in the order of the source ----------

  lemma {:induction false} FilterEarlier(ps: seq<Predicate>, rows: seq<Row>, r: Row, s: Row)
    requires Earlier(Filter(ps, rows), r, s)
    ensures Earlier(rows, r, s)
  {
    if rows != [] {
      var n := |rows| - 1;
      var out, front := Filter(ps, rows), Filter(ps, rows[..n]);
      var a, b :| 0 <= a < b < |out| && out[a] == r && out[b] == s;
      FilterMembers(ps, rows[..n], r);
      if b < |front| {
        FilterEarlier(ps, rows[..n], r, s);
        var c, d :| 0 <= c < d < n && rows[..n][c] == r && rows[..n][d] == s;
        assert rows[c] == r && rows[d] == s;
      } else {
        assert front[a] == r;
        var c :| 0 <= c < n && rows[..n][c] == r;
        assert rows[c] == r && rows[n] == s;
      }
    }
  }

  lemma {:induction false} DistinctEarlier(columns: seq<Column>, rows: seq<Row>, r: Row, s: Row)
    requires Earlier(Distinct(columns, rows), r, s)
    ensures Earlier(rows, r, s)
  {
    if rows != [] {
      var n := |rows| - 1;
      var out, front := Distinct(columns, rows), Distinct(columns, rows[..n]);
      var a, b :| 0 <= a < b < |out| && out[a] == r && out[b] == s;
      DistinctMembers(columns, rows[..n]);
      if b < |front| {
        DistinctEarlier(columns, rows[..n], r, s);
        var c, d :| 0 <= c < d < n && rows[..n][c] == r && rows[..n][d] == s;
        assert rows[c] == r && rows[d] == s;
      } else {
        assert front[a] == r && r in front;
        var c :| 0 <= c < n && rows[..n][c] == r;
        assert rows[c] == r && rows[n] == s;
      }
    }
  }

  /**
   Of two fetched rows the first one is preferred by the first order term whose keys
   differ, the smaller key when ascending and the larger when descending; rows that
   tie in all terms are in the order of the table or of the traversal.
   */
  lemma OrderExact(db: Database, q: Query, i: nat, j: nat)
    requires i < j < |NodeRows(db, q)|
    ensures InOrder(q.order, Rows(db, q), NodeRows(db, q)[i], NodeRows(db, q)[j])
  {
    hide Sort, Precedes, Ties, NodeRows, Filter, Distinct;
    var rows, sorted, kept := NodeRows(db, q), Sort(q.order, Sorted(db, q)), Filter(q.predicates, Rows(db, q));
    RowsSorted(db, q);
    SortInOrder(q.order, Sorted(db, q));
    var from := WindowStart(db, q);
    assert rows[i] == sorted[from + i] && rows[j] == sorted[from + j];
    assert InOrder(q.order, Sorted(db, q), rows[i], rows[j]);
    if !Precedes(q.order, rows[i], rows[j]) {
      if SpecOf(q).unique { DistinctEarlier(NodeColumns(q), kept, rows[i], rows[j]); }
      FilterEarlier(q.predicates, Rows(db, q), rows[i], rows[j]);
    }
  }

  /** Where the window starts in the sorted rows. */
  function WindowStart(db: Database, q: Query): nat
    ensures WindowStart(db, q) <= |Sort(q.order, Sorted(db, q))|
  {
    var n, o := |Sort(q.order, Sorted(db, q))|, SpecOf(q).offset;
    if o <= 0 then 0 else if o < n then o else n
  }

  // ---------- which columns ----------

  /** The caller, or a loader, needs this column. */
  predicate Wanted(q: Query, c: Column) {
    || (if q.fields == [] then c in q.entity.columns else c == ID_COLUMN || c in q.fields)
    || (c in q.entity.foreignKeys && (q.withFKs || exists k | 0 <= k < |q.with| :: LoadsParent(q, k)))
  }

  predicate LoadsParent(q: Query, k: nat) {
    k < |q.with| && k < |q.entity.edges| && q.with[k].Some? && q.entity.edges[k].kind == ManyToOne
  }

  /**
   The node stands for the row: it has its id, exactly the wanted columns that are
   not NULL, with the values stored, and says for each edge whether it was requested.
   */
  ghost predicate Shows(q: Query, n: Node, r: Row) {
    && n.id == r.id
    && (forall c: Column :: c in n.cells <==> Wanted(q, c) && c in r.cells && !r.cells[c].Null?)
    && (forall c | c in n.cells :: n.cells[c] == r.cells[c])
    && |n.loaded| == |q.with|
    && forall k | 0 <= k < |q.with| :: n.loaded[k] <==> q.with[k].Some?
  }

  lemma {:induction false} WithoutExact(fields: seq<Column>, c: Column, d: Column)
    ensures d in Without(fields, c) <==> d in fields && d != c
  {
    if fields != [] {
      var n := |fields| - 1;
      WithoutExact(fields[..n], c, d);
      assert fields == fields[..n] + [fields[n]];
    }
  }

  lemma WantedExact(q: Query, c: Column)
    ensures c in NodeColumns(q) <==> Wanted(q, c)
  {
    WithoutExact(q.fields, ID_COLUMN, c);
    if HasManyToOne(q.entity.edges, q.with) {
      var k :| 0 <= k < |q.entity.edges| && k < |q.with| && q.entity.edges[k].kind == ManyToOne && q.with[k].Some?;
      assert LoadsParent(q, k);
    }
  }

  /** Whatever its links, a node with these cells stands for the row. */
  lemma DecodeShows(q: Query, r: Row, n: Node)
    requires SameColumns(n, Decode(q, r))
    ensures Shows(q, n, r)
  {
    hide NodeColumns, Wanted;
    forall c: Column ensures c in n.cells <==> Wanted(q, c) && c in r.cells && !r.cells[c].Null? {
      WantedExact(q, c);
    }
  }

  /** Every run that succeeds returns one node per fetched row, in order, that stands for it. */
  lemma AllShows(db: Database, q: Query)
    requires All(db, q).result.Ok?
    ensures |All(db, q).result.value| == |NodeRows(db, q)|
    ensures forall i | 0 <= i < |NodeRows(db, q)| :: Shows(q, All(db, q).result.value[i], NodeRows(db, q)[i])
  {
    hide NodeRows, All, Decode, Shows, SameColumns;
    AllKeepsRows(db, q);
    var nodes, rows := All(db, q).result.value, NodeRows(db, q);
    forall i | 0 <= i < |rows| ensures Shows(q, nodes[i], rows[i]) {
      assert SameColumns(nodes[i], DecodeAll(q, rows)[i]);
      DecodeShows(q, rows[i], nodes[i]);
    }
  }
}
