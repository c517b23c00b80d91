/**
 Eager loading as the generated code performs it, step by step, on values:
 `All` fetches the nodes of one builder, then each requested edge is loaded by
 one query over all of them and joined back through an index.  Running a
 builder also changes the builders nested in it; `Run.after` is the tree left
 behind.
 */
module EagerSpec {
  import opened Base
  import opened Store
  import opened QueryTree

  // ---------- results ----------

  datatype Link<T> = Unset | Many(list: seq<T>) | One(item: T)

  /** A loaded entity with its edges; `cells` holds the non-null columns that were selected. */
  datatype Node = Node(id: ID, cells: map<Column, Cell>, loaded: seq<bool>, links: seq<Link<Node>>)

  datatype LoadError =
    | InvalidField(name: Column)
    | NilForeignKey(column: Column, id: ID)
    | UnexpectedForeignKey(column: Column, key: ID)

  type Loaded = Result<seq<Node>, LoadError>

  datatype Run = Run(result: Loaded, after: Query)

  // ---------- fetching ----------

  /** The first selected field the entity does not have. */
  function FirstInvalid(t: EntityType, fields: seq<Column>): Option<Column> {
    if fields == [] then None
    else if !ValidColumn(t, fields[0]) then Some(fields[0])
    else FirstInvalid(t, fields[1..])
  }

  function Requested(with: seq<Option<Query>>): (flags: seq<bool>)
    ensures |flags| == |with|
  {
    seq(|with|, k requires 0 <= k < |with| => with[k].Some?)
  }

  function NoLinks(n: nat): (links: seq<Link<Node>>)
    ensures |links| == n
  {
    seq(n, _ => Unset)
  }

  /** A row decoded into a node whose edges are not loaded yet. */
  function Decode(q: Query, r: Row): Node {
    Node(r.id, Project(NodeColumns(q), r).cells, Requested(q.with), NoLinks(|q.with|))
  }

  function DecodeAll(q: Query, rows: seq<Row>): (nodes: seq<Node>)
    ensures |nodes| == |rows|
    ensures forall i | 0 <= i < |rows| :: nodes[i] == Decode(q, rows[i])
  {
    seq(|rows|, i requires 0 <= i < |rows| => Decode(q, rows[i]))
  }

  // ---------- joining back ----------

  function IDsOf(nodes: seq<Node>): (ids: seq<ID>)
    ensures |ids| == |nodes|
    ensures forall i | 0 <= i < |nodes| :: ids[i] == nodes[i].id
  {
    seq(|nodes|, i requires 0 <= i < |nodes| => nodes[i].id)
  }

  function SetLink(n: Node, k: nat, link: Link<Node>): Node {
    if k < |n.links| then n.(links := n.links[k := link]) else n
  }

  function AppendLink(n: Node, k: nat, child: Node): Node {
    if k < |n.links| && n.links[k].Many? then SetLink(n, k, Many(n.links[k].list + [child]))
    else SetLink(n, k, Many([child]))
  }

  function ResetLinks(nodes: seq<Node>, k: nat): (out: seq<Node>)
    ensures |out| == |nodes|
    ensures forall i | 0 <= i < |nodes| :: out[i] == SetLink(nodes[i], k, Many([]))
  {
    seq(|nodes|, i requires 0 <= i < |nodes| => SetLink(nodes[i], k, Many([])))
  }

  /** Where an index keyed by id, filled from left to right, sends `id`. */
  function LastIndex(nodes: seq<Node>, id: ID): (i: int)
    ensures -1 <= i < |nodes|
  {
    if nodes == [] then -1
    else if nodes[|nodes| - 1].id == id then |nodes| - 1
    else LastIndex(nodes[..|nodes| - 1], id)
  }

  /** One step of a one-to-many loader's final loop. */
  function AttachChild(nodes: seq<Node>, k: nat, c: Column, child: Node): Loaded {
    match ForeignKey(child.cells, c)
    case None => Err(NilForeignKey(c, child.id))
    case Some(key) =>
      var i := LastIndex(nodes, key);
      if i < 0 then Err(UnexpectedForeignKey(c, key))
      else Ok(nodes[i := AppendLink(nodes[i], k, child)])
  }

  function AttachChildren(nodes: seq<Node>, k: nat, c: Column, children: seq<Node>): Loaded {
    if children == [] then Ok(nodes)
    else
      var n := |children| - 1;
      var prior := AttachChildren(nodes, k, c, children[..n]);
      if prior.Err? then prior else AttachChild(prior.value, k, c, children[n])
  }

  /** The distinct foreign keys of the nodes, in order of first occurrence. */
  function Keys(nodes: seq<Node>, c: Column): seq<ID> {
    if nodes == [] then []
    else
      var n := |nodes| - 1;
      var keys := Keys(nodes[..n], c);
      match ForeignKey(nodes[n].cells, c)
      case None => keys
      case Some(key) => if key in keys then keys else keys + [key]
  }

  function PointNode(n: Node, k: nat, c: Column, parent: Node): Node {
    if ForeignKey(n.cells, c) == Some(parent.id) then SetLink(n, k, One(parent)) else n
  }

  function PointTo(nodes: seq<Node>, k: nat, c: Column, parent: Node): (out: seq<Node>)
    ensures |out| == |nodes|
    ensures forall i | 0 <= i < |nodes| :: out[i] == PointNode(nodes[i], k, c, parent)
  {
    seq(|nodes|, i requires 0 <= i < |nodes| => PointNode(nodes[i], k, c, parent))
  }

  /** One step of a many-to-one loader's final loop. */
  function AttachParent(nodes: seq<Node>, k: nat, c: Column, parent: Node): Loaded {
    if parent.id !in Keys(nodes, c) then Err(UnexpectedForeignKey(c, parent.id))
    else Ok(PointTo(nodes, k, c, parent))
  }

  function AttachParents(nodes: seq<Node>, k: nat, c: Column, parents: seq<Node>): Loaded {
    if parents == [] then Ok(nodes)
    else
      var n := |parents| - 1;
      var prior := AttachParents(nodes, k, c, parents[..n]);
      if prior.Err? then prior else AttachParent(prior.value, k, c, parents[n])
  }

  // ---------- the recursion sqlAll -> load -> All -> sqlAll ----------

  /** A one-to-many loader's nested query, just before it runs. */
  function ForChildren(child: Query, c: Column, ids: seq<ID>): Query {
    child.(withFKs := true, predicates := child.predicates + [ColumnIn(c, ids)])
  }

  /** A many-to-one loader's nested query, just before it runs. */
  function ForParents(parent: Query, keys: seq<ID>): Query {
    parent.(predicates := parent.predicates + [IDIn(keys)])
  }

  function All(db: Database, q: Query): Run
    decreases q.with, 1, 0
  {
    var invalid := FirstInvalid(q.entity, q.fields);
    if invalid.Some? then Run(Err(InvalidField(invalid.value)), q)
    else
      var nodes := DecodeAll(q, NodeRows(db, q));
      if nodes == [] then Run(Ok([]), q)
      else
        var (result, with) := LoadAll(db, q, nodes, 0);
        Run(result, q.(with := with))
  }

  /** Loads edges k, k+1, ... in order, stopping at the first error. */
  function LoadAll(db: Database, q: Query, nodes: seq<Node>, k: nat): (out: (Loaded, seq<Option<Query>>))
    ensures |out.1| == |q.with|
    decreases q.with, 0, |q.with| - k
  {
    if k >= |q.with| then (Ok(nodes), q.with)
    else if q.with[k].None? || k >= |q.entity.edges| then LoadAll(db, q, nodes, k + 1)
    else
      var one := LoadEdge(db, q.entity.edges[k], q.with[k].value, nodes, k);
      if one.result.Err? then (one.result, q.with[k := Some(one.after)])
      else
        var (result, with) := LoadAll(db, q, one.result.value, k + 1);
        (result, with[k := Some(one.after)])
  }

  function LoadEdge(db: Database, e: Edge, nested: Query, nodes: seq<Node>, k: nat): Run
    decreases nested.with, 2, 0
  {
    match e.kind
    case OneToMany =>
      var run := All(db, ForChildren(nested, e.column, IDsOf(nodes)));
      if run.result.Err? then run
      else run.(result := AttachChildren(ResetLinks(nodes, k), k, e.column, run.result.value))
    case ManyToOne =>
      var keys := Keys(nodes, e.column);
      if keys == [] then Run(Ok(nodes), nested)
      else
        var run := All(db, ForParents(nested, keys));
        if run.result.Err? then run
        else run.(result := AttachParents(nodes, k, e.column, run.result.value))
  }
}
