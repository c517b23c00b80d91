/**
 The table store behind the generated code: rows, the predicates and ordering
 terms a builder collects, and the meaning of one SELECT over them.

 This stands in for the SQL library.  Its contract is: filter the source,
 drop duplicate projections when DISTINCT is set, order stably, then cut the
 OFFSET/LIMIT window.
 */
module Store {
  import opened Base

  type ID = x: int | 0 <= x < 0x1_0000_0000

  type Column = string

  const ID_COLUMN: Column := "id"

  const MAX_INT32 := 0x7fff_ffff

  /** A stored cell.  Foreign-key columns hold `Key` cells. */
  datatype Cell = Null | Key(id: ID) | Data(value: int)

  datatype Row = Row(id: ID, cells: map<Column, Cell>)

  /** The id a key column holds, if it holds one. */
  function ForeignKey(cells: map<Column, Cell>, c: Column): Option<ID> {
    if c in cells && cells[c].Key? then Some(cells[c].id) else None
  }

  type Database = map<string, seq<Row>>

  /** Anything a caller passes to `Where`, plus the two predicates the loaders add. */
  datatype Predicate =
    | Matches(test: Row -> bool)
    | ColumnIn(column: Column, keys: seq<ID>)
    | IDIn(keys: seq<ID>)

  datatype OrderTerm = OrderTerm(key: Row -> int, descending: bool)

  function Table(db: Database, name: string): seq<Row> {
    if name in db then db[name] else []
  }

  function RowIDs(rows: seq<Row>): (ids: seq<ID>)
    ensures |ids| == |rows|
    ensures forall i | 0 <= i < |rows| :: ids[i] == rows[i].id
  {
    seq(|rows|, i requires 0 <= i < |rows| => rows[i].id)
  }

  predicate DistinctIDs(rows: seq<Row>) {
    forall i, j | 0 <= i < j < |rows| :: rows[i].id != rows[j].id
  }

  /** Every table has a primary key. */
  ghost predicate PrimaryKeys(db: Database) {
    forall name | name in db :: DistinctIDs(db[name])
  }

  // ---------- filter ----------

  predicate Holds(p: Predicate, r: Row) {
    match p
    case Matches(test) => test(r)
    case ColumnIn(c, keys) => c in r.cells && r.cells[c].Key? && r.cells[c].id in keys
    case IDIn(keys) => r.id in keys
  }

  predicate HoldAll(ps: seq<Predicate>, r: Row) {
    forall i | 0 <= i < |ps| :: Holds(ps[i], r)
  }

  function Filter(ps: seq<Predicate>, rows: seq<Row>): (out: seq<Row>) {
    if rows == [] then []
    else
      var n := |rows| - 1;
      var rest := Filter(ps, rows[..n]);
      if HoldAll(ps, rows[n]) then rest + [rows[n]] else rest
  }

  // ---------- order ----------

  predicate Before(order: seq<OrderTerm>, r: Row, s: Row) {
    if order == [] then true
    else
      var t := order[0];
      var (a, b) := if t.descending then (t.key(s), t.key(r)) else (t.key(r), t.key(s));
      a < b || (a == b && Before(order[1..], r, s))
  }

  ghost predicate Ordered(order: seq<OrderTerm>, rows: seq<Row>) {
    forall i, j | 0 <= i < j < |rows| :: Before(order, rows[i], rows[j])
  }

  function Insert(order: seq<OrderTerm>, r: Row, rows: seq<Row>): (out: seq<Row>)
    ensures |out| == |rows| + 1
  {
    if rows == [] then [r]
    else
      var n := |rows| - 1;
      if Before(order, rows[n], r) then rows + [r]
      else Insert(order, r, rows[..n]) + [rows[n]]
  }

  function Sort(order: seq<OrderTerm>, rows: seq<Row>): (out: seq<Row>)
    ensures |out| == |rows|
  {
    if rows == [] then []
    else Insert(order, rows[|rows| - 1], Sort(order, rows[..|rows| - 1]))
  }

  // ---------- distinct and window ----------

  function Project(columns: seq<Column>, r: Row): Row {
    Row(r.id, map c | c in r.cells && c in columns && !r.cells[c].Null? :: r.cells[c])
  }

  function Projections(columns: seq<Column>, rows: seq<Row>): (out: seq<Row>)
    ensures |out| == |rows|
    ensures forall i | 0 <= i < |rows| :: out[i] == Project(columns, rows[i])
  {
    seq(|rows|, i requires 0 <= i < |rows| => Project(columns, rows[i]))
  }

  /** DISTINCT over a projection that includes the id: keeps first occurrences. */
  function Distinct(columns: seq<Column>, rows: seq<Row>): (out: seq<Row>)
  {
    if rows == [] then []
    else
      var n := |rows| - 1;
      var rest := Distinct(columns, rows[..n]);
      if Project(columns, rows[n]) in Projections(columns, rows[..n]) then rest else rest + [rows[n]]
  }

  /** OFFSET/LIMIT as SQLite reads them: a negative limit is no limit, a negative offset is none. */
  function Window<T>(offset: int, limit: Option<int>, xs: seq<T>): (out: seq<T>)
  {
    var from := if offset <= 0 then 0 else if offset < |xs| then offset else |xs|;
    var rest := xs[from..];
    if limit.None? || limit.value < 0 || |rest| <= limit.value then rest else rest[..limit.value]
  }
}
