/**
 A run returns one node per row of its root query: loading edges neither adds,
 drops nor reorders nodes, and leaves their columns alone.
 */
module EagerRows {
  import opened Base
  import opened Store
  import opened StoreLemmas
  import opened QueryTree
  import opened EagerSpec

  predicate SameColumns(n: Node, m: Node) {
    n.id == m.id && n.cells == m.cells && n.loaded == m.loaded
  }

  predicate Aligned(nodes: seq<Node>, others: seq<Node>) {
    |nodes| == |others| && forall i | 0 <= i < |nodes| :: SameColumns(nodes[i], others[i])
  }

  predicate Keeps(result: Loaded, nodes: seq<Node>) {
    result.Ok? ==> Aligned(result.value, nodes)
  }

  lemma {:induction false} AttachChildrenKeeps(nodes: seq<Node>, k: nat, c: Column, children: seq<Node>)
    ensures Keeps(AttachChildren(nodes, k, c, children), nodes)
  {
    if children != [] { AttachChildrenKeeps(nodes, k, c, children[..|children| - 1]); }
  }

  lemma {:induction false} AttachParentsKeeps(nodes: seq<Node>, k: nat, c: Column, parents: seq<Node>)
    ensures Keeps(AttachParents(nodes, k, c, parents), nodes)
  {
    if parents != [] { AttachParentsKeeps(nodes, k, c, parents[..|parents| - 1]); }
  }

  lemma LoadEdgeKeeps(db: Database, e: Edge, nested: Query, nodes: seq<Node>, k: nat)
    ensures Keeps(LoadEdge(db, e, nested, nodes, k).result, nodes)
  {
    hide All;
    match e.kind
    case OneToMany =>
      var run := All(db, ForChildren(nested, e.column, IDsOf(nodes)));
      if run.result.Ok? { AttachChildrenKeeps(ResetLinks(nodes, k), k, e.column, run.result.value); }
    case ManyToOne =>
      var run := All(db, ForParents(nested, Keys(nodes, e.column)));
      if run.result.Ok? { AttachParentsKeeps(nodes, k, e.column, run.result.value); }
  }

  lemma {:induction false} LoadAllKeeps(db: Database, q: Query, nodes: seq<Node>, k: nat)
    ensures Keeps(LoadAll(db, q, nodes, k).0, nodes)
    decreases if k < |q.with| then |q.with| - k else 0
  {
    if k < |q.with| {
      if q.with[k].None? || k >= |q.entity.edges| {
        LoadAllKeeps(db, q, nodes, k + 1);
      } else {
        LoadEdgeKeeps(db, q.entity.edges[k], q.with[k].value, nodes, k);
        var one := LoadEdge(db, q.entity.edges[k], q.with[k].value, nodes, k);
        if one.result.Ok? { LoadAllKeeps(db, q, one.result.value, k + 1); }
      }
    }
  }

  /** Whatever the tree and the database: a run that succeeds returns the rows of its root query, in order. */
  lemma AllKeepsRows(db: Database, q: Query)
    ensures Keeps(All(db, q).result, DecodeAll(q, NodeRows(db, q)))
  {
    LoadAllKeeps(db, q, DecodeAll(q, NodeRows(db, q)), 0);
  }

  /** So the ids of the loaded graph are the ids of those rows. */
  lemma ResultIDs(db: Database, q: Query)
    requires All(db, q).result.Ok?
    ensures IDsOf(All(db, q).result.value) == RowIDs(NodeRows(db, q))
  {
    AllKeepsRows(db, q);
    var nodes, rows := All(db, q).result.value, NodeRows(db, q);
    forall i | 0 <= i < |rows| ensures nodes[i].id == rows[i].id {
      assert SameColumns(nodes[i], DecodeAll(q, rows)[i]);
    }
  }

  /** Every fetched row stems from the source and satisfies the predicates. */
  lemma NodeRowHolds(db: Database, q: Query, r: Row)
    requires r in NodeRows(db, q)
    ensures HoldAll(q.predicates, r)
    ensures q.path.None? ==> r in Table(db, q.entity.table)
  {
    var s := SpecSelector(SpecOf(q).(columns := NodeColumns(q)));
    var kept := Filter(q.predicates, Source(db, s));
    assert r in Unwindowed(db, s);
    SortMembers(q.order, if s.distinct then Distinct(s.columns, kept) else kept, r);
    DistinctMembers(s.columns, kept);
    FilterMembers(q.predicates, Source(db, s), r);
  }
}
