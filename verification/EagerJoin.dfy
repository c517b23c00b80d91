/**
 Eager loading agrees with the naive nested join: run the nested query once
 per row instead of once per edge.
 */
module EagerJoin {
  import opened Base
  import opened Store
  import opened StoreLemmas
  import opened QueryTree
  import opened EagerSpec
  import opened EagerIndex

  // ---------- the reference: one nested query per row ----------

  function Join(db: Database, q: Query): (nodes: seq<Node>)
    decreases q.with, 2
  {
    JoinRows(db, q, NodeRows(db, q))
  }

  function JoinRows(db: Database, q: Query, rows: seq<Row>): (nodes: seq<Node>)
    ensures |nodes| == |rows|
    ensures forall i | 0 <= i < |rows| :: nodes[i] == JoinRow(db, q, rows[i])
    decreases q.with, 1
  {
    seq(|rows|, i requires 0 <= i < |rows| => JoinRow(db, q, rows[i]))
  }

  function JoinRow(db: Database, q: Query, r: Row): Node
    decreases q.with, 0, 1
  {
    Decode(q, r).(links := seq(|q.with|, k requires 0 <= k < |q.with| => JoinLink(db, q, r, k)))
  }

  function JoinLink(db: Database, q: Query, r: Row, k: nat): Link<Node>
    requires k < |q.with|
    decreases q.with, 0, 0
  {
    if q.with[k].None? || k >= |q.entity.edges| then Unset
    else
      var e, nested := q.entity.edges[k], q.with[k].value;
      match e.kind
      case OneToMany => Many(Join(db, ForChildren(nested, e.column, [r.id])))
      case ManyToOne =>
        match ForeignKey(r.cells, e.column)
        case None => Unset
        case Some(key) =>
          var parents := Join(db, ForParents(nested, [key]));
          if parents == [] then Unset else One(parents[|parents| - 1])
  }

  // ---------- well-formed trees ----------

  /** `WithX` always nests a fresh builder of the edge's target, whose table carries the edge column. */
  ghost predicate WellFormed(q: Query)
    decreases q.with
  {
    && |q.with| == |q.entity.edges|
    && forall k | 0 <= k < |q.with| && q.with[k].Some? ::
         var e, nested := q.entity.edges[k], q.with[k].value;
         && nested.path.None?
         && nested.entity.table == e.target
         && (e.kind == OneToMany ==> e.column in nested.entity.foreignKeys)
         && (e.kind == ManyToOne ==> e.column in q.entity.foreignKeys)
         && WellFormed(nested)
  }

  predicate Windowless(q: Query) {
    SpecOf(q).limit == 0 && SpecOf(q).offset == 0
  }

  /** No Limit or Offset below the root. */
  ghost predicate NestedWindowless(q: Query)
    decreases q.with
  {
    forall k | 0 <= k < |q.with| && q.with[k].Some? ::
      Windowless(q.with[k].value) && NestedWindowless(q.with[k].value)
  }

  ghost predicate FieldsValid(q: Query)
    decreases q.with
  {
    FirstInvalid(q.entity, q.fields).None? &&
    forall k | 0 <= k < |q.with| && q.with[k].Some? :: FieldsValid(q.with[k].value)
  }

  // ---------- what a nested query fetches ----------

  /** The window of a compiled query: rows skipped, and rows kept after those. */
  function From(q: Query): nat {
    if SpecOf(q).offset > 0 then SpecOf(q).offset else 0
  }

  function Kept(q: Query): Option<nat> {
    var limit := SpecSelector(SpecOf(q)).limit;
    if limit.Some? && limit.value >= 0 then Some(limit.value) else None
  }

  /** The rows before that window is cut, for a builder that starts at its table. */
  function Stored(db: Database, q: Query): seq<Row> {
    Sort(q.order, Filter(q.predicates, Table(db, q.entity.table)))
  }

  lemma StoredDistinct(db: Database, q: Query)
    requires PrimaryKeys(db)
    ensures DistinctIDs(Stored(db, q))
  {
    var table := Table(db, q.entity.table);
    FilterKeepsDistinctIDs(q.predicates, table);
    SortKeepsDistinctIDs(q.order, Filter(q.predicates, table));
  }

  lemma SameWindow(q: Query, rows: seq<Row>)
    ensures var s := SpecSelector(SpecOf(q));
            Window(if s.offset.Some? then s.offset.value else 0, s.limit, rows) == Window(From(q), Kept(q), rows)
  {
  }

  lemma WindowDistinct(from: nat, kept: Option<nat>, rows: seq<Row>)
    requires DistinctIDs(rows)
    ensures DistinctIDs(Window(from, kept, rows))
  {
  }

  lemma NestedRows(db: Database, q: Query)
    requires PrimaryKeys(db) && q.path.None?
    ensures NodeRows(db, q) == Window(From(q), Kept(q), Stored(db, q))
    ensures DistinctIDs(NodeRows(db, q))
  {
    hide Window, From, Kept, Sort, Filter, Distinct;
    var s := SpecSelector(SpecOf(q).(columns := NodeColumns(q)));
    var table := Table(db, q.entity.table);
    FilterKeepsDistinctIDs(q.predicates, table);
    DistinctIDsSurvive(NodeColumns(q), Filter(q.predicates, table));
    StoredDistinct(db, q);
    assert Unwindowed(db, s) == Stored(db, q);
    SameWindow(q, Stored(db, q));
    WindowDistinct(From(q), Kept(q), Stored(db, q));
  }

  lemma StoredHolds(db: Database, q: Query, r: Row)
    ensures r in Stored(db, q) <==> r in Table(db, q.entity.table) && HoldAll(q.predicates, r)
  {
    var table := Table(db, q.entity.table);
    SortMembers(q.order, Filter(q.predicates, table), r);
    FilterMembers(q.predicates, table, r);
  }

  /** Tightening the predicates of a builder filters what it stores. */
  lemma TightStored(db: Database, q: Query, tight: Query, ps: seq<Predicate>)
    requires tight == q.(predicates := tight.predicates)
    requires forall r :: HoldAll(tight.predicates, r) == HoldAll(q.predicates + ps, r)
    ensures Stored(db, tight) == Filter(ps, Stored(db, q))
  {
    var table := Table(db, q.entity.table);
    FilterCongruence(tight.predicates, q.predicates + ps, table);
    FilterFilter(q.predicates, ps, table);
    FilterSort(q.order, ps, Filter(q.predicates, table));
  }

  lemma HoldsOne(ps: seq<Predicate>, p: Predicate, r: Row)
    ensures HoldAll(ps + [p], r) == (HoldAll(ps, r) && Holds(p, r))
  {
    HoldAllAppend(ps, [p], r);
    assert [p][0] == p;
  }

  // ---------- grouping nodes is grouping rows ----------

  /** A row joins to the same node whatever predicates selected it. */
  lemma JoinRowIgnoresPredicates(db: Database, q: Query, other: Query, r: Row)
    requires other == q.(predicates := other.predicates)
    ensures JoinRow(db, q, r) == JoinRow(db, other, r)
  {
    assert forall k | 0 <= k < |q.with| :: JoinLink(db, q, r, k) == JoinLink(db, other, r, k);
  }

  /** A projected foreign key survives decoding. */
  lemma KeySurvives(q: Query, r: Row, c: Column)
    requires c in NodeColumns(q)
    ensures ForeignKey(Decode(q, r).cells, c) == ForeignKey(r.cells, c)
  {
  }

  lemma JoinRowsPlus(db: Database, q: Query, rows: seq<Row>, last: Row)
    ensures JoinRows(db, q, rows + [last]) == JoinRows(db, q, rows) + [JoinRow(db, q, last)]
  {
  }

  lemma JoinRowsSnoc(db: Database, q: Query, rows: seq<Row>)
    requires rows != []
    ensures var n := |rows| - 1;
            JoinRows(db, q, rows) == JoinRows(db, q, rows[..n]) + [JoinRow(db, q, rows[n])]
  {
    assert rows == rows[..|rows| - 1] + [rows[|rows| - 1]];
    JoinRowsPlus(db, q, rows[..|rows| - 1], rows[|rows| - 1]);
  }

  lemma {:induction false} GroupChildren(db: Database, all: Query, one: Query, c: Column, id: ID, rows: seq<Row>)
    requires one == all.(predicates := one.predicates) && c in NodeColumns(all)
    ensures ChildrenOf(JoinRows(db, all, rows), c, id) == JoinRows(db, one, Filter([ColumnIn(c, [id])], rows))
  {
    if rows != [] {
      var n := |rows| - 1;
      GroupChildren(db, all, one, c, id, rows[..n]);
      JoinRowsSnoc(db, all, rows);
      ChildrenSnoc(JoinRows(db, all, rows[..n]), JoinRow(db, all, rows[n]), c, id);
      JoinRowsPlus(db, one, Filter([ColumnIn(c, [id])], rows[..n]), rows[n]);
      JoinRowIgnoresPredicates(db, all, one, rows[n]);
      KeySurvives(all, rows[n], c);
      HoldsOne([], ColumnIn(c, [id]), rows[n]);
      assert [] + [ColumnIn(c, [id])] == [ColumnIn(c, [id])];
    }
  }

  lemma {:induction false} GroupParents(db: Database, all: Query, one: Query, key: ID, rows: seq<Row>)
    requires one == all.(predicates := one.predicates)
    ensures ParentsOf(JoinRows(db, all, rows), key) == JoinRows(db, one, Filter([IDIn([key])], rows))
  {
    if rows != [] {
      var n := |rows| - 1;
      GroupParents(db, all, one, key, rows[..n]);
      assert JoinRows(db, all, rows)[..n] == JoinRows(db, all, rows[..n]);
      JoinRowIgnoresPredicates(db, all, one, rows[n]);
      HoldsOne([], IDIn([key]), rows[n]);
      assert [] + [IDIn([key])] == [IDIn([key])];
    }
  }
}
