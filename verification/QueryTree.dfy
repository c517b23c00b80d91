/**
 Query builders as values, and the two ways the generated code compiles one
 into a SELECT: `querySpec` (used by `All`) and `sqlQuery` (used by `IDs`).

 Every entity is generated from one template, so a builder carries a
 description of its entity type instead of being written out per entity.
 */
module QueryTree {
  import opened Base
  import opened Store

  // ---------- entity types ----------

  datatype EdgeKind = OneToMany | ManyToOne

  /** An edge that can be eager-loaded; `column` is the foreign key that realises it. */
  datatype Edge = Edge(kind: EdgeKind, target: string, column: Column)

  datatype EntityType = EntityType(
    table: string,
    columns: seq<Column>,
    foreignKeys: seq<Column>,
    edges: seq<Edge>)

  predicate ValidColumn(t: EntityType, c: Column) {
    c in t.columns || c in t.foreignKeys
  }

  // ---------- builders ----------

  /** A traversal step: the rows reached from an earlier query. */
  type Path = Database -> seq<Row>

  /** The state of one query builder; `with[k]` is the nested query on edge k, if requested. */
  datatype Query = Query(
    entity: EntityType,
    fields: seq<Column>,
    limit: Option<int>,
    offset: Option<int>,
    unique: Option<bool>,
    order: seq<OrderTerm>,
    predicates: seq<Predicate>,
    withFKs: bool,
    path: Option<Path>,
    with: seq<Option<Query>>)

  // ---------- compiled queries ----------

  /** What `querySpec` hands to the graph layer; there a zero limit or offset means "not set". */
  datatype QuerySpec = QuerySpec(
    table: string,
    columns: seq<Column>,
    from: Option<Path>,
    unique: bool,
    predicates: seq<Predicate>,
    order: seq<OrderTerm>,
    limit: int,
    offset: int)

  /** A SELECT statement under construction. */
  datatype Selector = Selector(
    table: string,
    columns: seq<Column>,
    from: Option<Path>,
    distinct: bool,
    predicates: seq<Predicate>,
    order: seq<OrderTerm>,
    limit: Option<int>,
    offset: Option<int>)

  function Without(fields: seq<Column>, c: Column): (out: seq<Column>)
  {
    if fields == [] then []
    else
      var n := |fields| - 1;
      var rest := Without(fields[..n], c);
      if fields[n] == c then rest else rest + [fields[n]]
  }

  function SpecOf(q: Query): QuerySpec {
    QuerySpec(
      q.entity.table,
      if q.fields == [] then q.entity.columns else [ID_COLUMN] + Without(q.fields, ID_COLUMN),
      q.path,
      if q.unique.Some? then q.unique.value else q.path.Some?,
      q.predicates,
      q.order,
      if q.limit.Some? then q.limit.value else 0,
      if q.offset.Some? then q.offset.value else 0)
  }

  function SelectorOf(q: Query): Selector {
    Selector(
      q.entity.table,
      if q.fields == [] then q.entity.columns else q.fields,
      q.path,
      q.unique == Some(true),
      q.predicates,
      q.order,
      if q.limit.Some? then q.limit else if q.offset.Some? then Some(MAX_INT32) else None,
      q.offset)
  }

  /** The graph layer's own translation of a spec. */
  function SpecSelector(s: QuerySpec): Selector {
    Selector(
      s.table, s.columns, s.from, s.unique, s.predicates, s.order,
      if s.limit != 0 then Some(s.limit) else if s.offset != 0 then Some(MAX_INT32) else None,
      if s.offset != 0 then Some(s.offset) else None)
  }

  // ---------- running a SELECT ----------

  function Source(db: Database, s: Selector): seq<Row> {
    if s.from.Some? then s.from.value(db) else Table(db, s.table)
  }

  /** The rows before the OFFSET/LIMIT window is cut. */
  function Unwindowed(db: Database, s: Selector): seq<Row> {
    var kept := Filter(s.predicates, Source(db, s));
    Sort(s.order, if s.distinct then Distinct(s.columns, kept) else kept)
  }

  function Select(db: Database, s: Selector): seq<Row> {
    Window(if s.offset.Some? then s.offset.value else 0, s.limit, Unwindowed(db, s))
  }

  // ---------- eager loading: what the root query fetches ----------

  predicate HasManyToOne(edges: seq<Edge>, with: seq<Option<Query>>) {
    exists k | 0 <= k < |edges| && k < |with| :: edges[k].kind == ManyToOne && with[k].Some?
  }

  /** Edge k of the builder is requested. */
  predicate Loads(q: Query, k: nat) {
    k < |q.with| && k < |q.entity.edges| && q.with[k].Some?
  }

  /** The projection used by `sqlAll`: foreign keys ride along when a loader will need them. */
  function NodeColumns(q: Query): seq<Column> {
    SpecOf(q).columns +
    if q.withFKs || HasManyToOne(q.entity.edges, q.with) then q.entity.foreignKeys else []
  }

  function NodeRows(db: Database, q: Query): seq<Row> {
    Select(db, SpecSelector(SpecOf(q).(columns := NodeColumns(q))))
  }
}
