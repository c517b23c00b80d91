/**
 What a run returns, edge by edge, for every tree: which ids a loader asks for,
 what it finds, and how each node's link follows from that. Nested windows and
 repeated ids are included; the reference join plays no part here.
 */
module EagerLinks {
  import opened Base
  import opened Store
  import opened StoreLemmas
  import opened QueryTree
  import opened EagerSpec
  import opened EagerIndex
  import opened EagerRows
  import opened EagerJoin

  // ---------- both directions of an edge alike ----------

  /** The id by which a row of the loading side looks up its neighbours. */
  function LinkKey(e: Edge, r: Row): Option<ID> {
    match e.kind
    case OneToMany => Some(r.id)
    case ManyToOne => ForeignKey(r.cells, e.column)
  }

  /** The id under which a fetched row is found. */
  function EdgeKey(e: Edge, r: Row): Option<ID> {
    match e.kind
    case OneToMany => ForeignKey(r.cells, e.column)
    case ManyToOne => Some(r.id)
  }

  function NodeKey(e: Edge, n: Node): Option<ID> {
    match e.kind
    case OneToMany => ForeignKey(n.cells, e.column)
    case ManyToOne => Some(n.id)
  }

  /** The predicate a loader adds for these ids. */
  function KeyIn(e: Edge, ids: seq<ID>): Predicate {
    match e.kind
    case OneToMany => ColumnIn(e.column, ids)
    case ManyToOne => IDIn(ids)
  }

  lemma KeyInHolds(e: Edge, ids: seq<ID>, r: Row)
    ensures Holds(KeyIn(e, ids), r) <==> EdgeKey(e, r).Some? && EdgeKey(e, r).value in ids
  {
  }

  /** A loader's nested query, just before it runs. */
  function Ask(e: Edge, nested: Query, ids: seq<ID>): (a: Query)
    ensures a == nested.(withFKs := a.withFKs, predicates := nested.predicates + [KeyIn(e, ids)])
  {
    match e.kind
    case OneToMany => ForChildren(nested, e.column, ids)
    case ManyToOne => ForParents(nested, ids)
  }

  /** The distinct foreign keys of the rows, in order of first occurrence. */
  function RowKeys(rows: seq<Row>, c: Column): seq<ID> {
    if rows == [] then []
    else
      var n := |rows| - 1;
      var keys := RowKeys(rows[..n], c);
      match ForeignKey(rows[n].cells, c)
      case None => keys
      case Some(key) => if key in keys then keys else keys + [key]
  }

  /** What a loader asks for; without ids it does not run its nested query. */
  function AskedIDs(e: Edge, rows: seq<Row>): seq<ID> {
    match e.kind
    case OneToMany => RowIDs(rows)
    case ManyToOne => RowKeys(rows, e.column)
  }

  lemma {:induction false} AskedExact(e: Edge, rows: seq<Row>, id: ID)
    ensures id in AskedIDs(e, rows) <==> exists i :: 0 <= i < |rows| && LinkKey(e, rows[i]) == Some(id)
  {
    match e.kind
    case OneToMany =>
      if id in RowIDs(rows) {
        var i :| 0 <= i < |rows| && RowIDs(rows)[i] == id;
        assert LinkKey(e, rows[i]) == Some(id);
      }
      forall i | 0 <= i < |rows| && LinkKey(e, rows[i]) == Some(id) ensures id in RowIDs(rows) {
        assert RowIDs(rows)[i] == id;
      }
    case ManyToOne =>
      if rows != [] {
        var n := |rows| - 1;
        AskedExact(e, rows[..n], id);
        if id in RowKeys(rows[..n], e.column) {
          var i :| 0 <= i < n && LinkKey(e, rows[..n][i]) == Some(id);
          assert LinkKey(e, rows[i]) == Some(id);
        } else if id in RowKeys(rows, e.column) {
          assert LinkKey(e, rows[n]) == Some(id);
        }
        forall i | 0 <= i < |rows| && LinkKey(e, rows[i]) == Some(id) ensures id in RowKeys(rows, e.column) {
          if i < n { assert rows[..n][i] == rows[i]; }
        }
      }
  }

  lemma {:induction false} KeysOfRows(nodes: seq<Node>, rows: seq<Row>, c: Column)
    requires |nodes| == |rows|
    requires forall i | 0 <= i < |rows| :: ForeignKey(nodes[i].cells, c) == ForeignKey(rows[i].cells, c)
    ensures Keys(nodes, c) == RowKeys(rows, c)
  {
    if rows != [] { KeysOfRows(nodes[..|rows| - 1], rows[..|rows| - 1], c); }
  }

  // ---------- groups ----------

  /** The nodes found under one id, in order. */
  function Group(e: Edge, found: seq<Node>, id: ID): seq<Node> {
    match e.kind
    case OneToMany => ChildrenOf(found, e.column, id)
    case ManyToOne => ParentsOf(found, id)
  }

  function ByKey(e: Edge, id: ID, rows: seq<Row>): seq<Row> {
    Filter([KeyIn(e, [id])], rows)
  }

  lemma ByKeySnoc(e: Edge, id: ID, rows: seq<Row>)
    requires rows != []
    ensures var n := |rows| - 1;
            ByKey(e, id, rows) ==
            if EdgeKey(e, rows[n]) == Some(id) then ByKey(e, id, rows[..n]) + [rows[n]] else ByKey(e, id, rows[..n])
  {
    var n := |rows| - 1;
    HoldsOne([], KeyIn(e, [id]), rows[n]);
    KeyInHolds(e, [id], rows[n]);
    assert [] + [KeyIn(e, [id])] == [KeyIn(e, [id])];
  }

  lemma GroupSnoc(e: Edge, found: seq<Node>, id: ID)
    requires found != []
    ensures var n := |found| - 1;
            Group(e, found, id) ==
            if NodeKey(e, found[n]) == Some(id) then Group(e, found[..n], id) + [found[n]] else Group(e, found[..n], id)
  {
  }

  lemma {:induction false} GroupMembers(e: Edge, found: seq<Node>, id: ID, n: Node)
    ensures n in Group(e, found, id) <==> n in found && NodeKey(e, n) == Some(id)
  {
    if found != [] {
      GroupSnoc(e, found, id);
      GroupMembers(e, found[..|found| - 1], id, n);
      assert found == found[..|found| - 1] + [found[|found| - 1]];
    }
  }

  /** Nodes that stand for rows, with the keys of those rows. */
  predicate StandFor(e: Edge, found: seq<Node>, rows: seq<Row>) {
    |found| == |rows| &&
    forall j | 0 <= j < |rows| :: found[j].id == rows[j].id && NodeKey(e, found[j]) == EdgeKey(e, rows[j])
  }

  /** Grouping the nodes is grouping their rows. */
  lemma {:induction false} GroupRows(e: Edge, found: seq<Node>, rows: seq<Row>, id: ID)
    requires StandFor(e, found, rows)
    ensures IDsOf(Group(e, found, id)) == RowIDs(ByKey(e, id, rows))
  {
    if rows != [] {
      var n := |rows| - 1;
      GroupRows(e, found[..n], rows[..n], id);
      GroupSnoc(e, found, id);
      ByKeySnoc(e, id, rows);
      assert IDsOf(Group(e, found, id)) == RowIDs(ByKey(e, id, rows));
    }
  }

  /** The groups determine the whole list, when ids are not repeated. */
  lemma GroupsDetermine(e: Edge, found: seq<Node>, others: seq<Node>, ids: seq<ID>)
    requires |found| == |others| && forall j | 0 <= j < |found| :: found[j].id == others[j].id
    requires forall i, j | 0 <= i < j < |found| :: found[i].id != found[j].id
    requires forall j | 0 <= j < |found| :: NodeKey(e, found[j]).Some? && NodeKey(e, found[j]).value in ids
    requires forall i | 0 <= i < |ids| :: Group(e, found, ids[i]) == Group(e, others, ids[i])
    ensures found == others
  {
    forall j | 0 <= j < |found| ensures found[j] == others[j] {
      var id := NodeKey(e, found[j]).value;
      var i :| 0 <= i < |ids| && ids[i] == id;
      GroupMembers(e, found, id, found[j]);
      GroupMembers(e, others, id, found[j]);
      assert Group(e, found, ids[i]) == Group(e, others, ids[i]);
      var m :| 0 <= m < |others| && others[m] == found[j];
      assert found[m].id == found[j].id;
    }
  }

  // ---------- what a loader finds ----------

  /** The shape of a tree at one edge. */
  ghost predicate EdgeFits(e: Edge, nested: Query) {
    nested.path.None? && (e.kind == OneToMany ==> e.column in nested.entity.foreignKeys)
  }

  /** Every row a loader fetches has a key, and it is one the loader asked for. */
  lemma FoundRows(db: Database, e: Edge, nested: Query, ids: seq<ID>)
    requires EdgeFits(e, nested)
    ensures forall j | 0 <= j < |NodeRows(db, Ask(e, nested, ids))| ::
              var key := EdgeKey(e, NodeRows(db, Ask(e, nested, ids))[j]);
              key.Some? && key.value in ids
  {
    var a := Ask(e, nested, ids);
    var rows := NodeRows(db, a);
    forall j | 0 <= j < |rows| ensures EdgeKey(e, rows[j]).Some? && EdgeKey(e, rows[j]).value in ids {
      NodeRowHolds(db, a, rows[j]);
      HoldsOne(nested.predicates, KeyIn(e, ids), rows[j]);
      KeyInHolds(e, ids, rows[j]);
    }
  }

  /** The nodes it gets back stand for those rows. */
  lemma FoundNodes(db: Database, e: Edge, nested: Query, ids: seq<ID>)
    requires EdgeFits(e, nested) && All(db, Ask(e, nested, ids)).result.Ok?
    ensures var a := Ask(e, nested, ids); StandFor(e, All(db, a).result.value, NodeRows(db, a))
  {
    hide All, NodeRows;
    var a := Ask(e, nested, ids);
    var found, rows := All(db, a).result.value, NodeRows(db, a);
    AllKeepsRows(db, a);
    forall j | 0 <= j < |rows| ensures found[j].id == rows[j].id && NodeKey(e, found[j]) == EdgeKey(e, rows[j]) {
      assert SameColumns(found[j], DecodeAll(a, rows)[j]);
      if e.kind == OneToMany { KeySurvives(a, rows[j], e.column); }
    }
  }

  // ---------- links ----------

  /** The link that a group of neighbours becomes. */
  function LinkOf(e: Edge, group: seq<Node>): Link<Node> {
    match e.kind
    case OneToMany => Many(group)
    case ManyToOne => if group == [] then Unset else One(group[|group| - 1])
  }

  /** Does row i carry the last occurrence of its id? */
  predicate IsLastRow(rows: seq<Row>, i: nat)
    requires i < |rows|
  {
    forall j | i < j < |rows| :: rows[j].id != rows[i].id
  }

  /** A one-to-many loader serves only the last row with an id. */
  predicate Served(e: Edge, rows: seq<Row>, i: nat)
    requires i < |rows|
  {
    e.kind == OneToMany ==> IsLastRow(rows, i)
  }

  function Found(db: Database, e: Edge, nested: Query, rows: seq<Row>): seq<Node> {
    var ids := AskedIDs(e, rows);
    if ids == [] then []
    else
      var result := All(db, Ask(e, nested, ids)).result;
      if result.Ok? then result.value else []
  }

  /** Link k of node i after the run. */
  function EagerLink(db: Database, q: Query, rows: seq<Row>, i: nat, k: nat): Link<Node>
    requires i < |rows| && k < |q.with|
  {
    if q.with[k].None? || k >= |q.entity.edges| then Unset
    else
      var e, nested := q.entity.edges[k], q.with[k].value;
      match LinkKey(e, rows[i])
      case None => Unset
      case Some(id) => LinkOf(e, if Served(e, rows, i) then Group(e, Found(db, e, nested, rows), id) else [])
  }

  /** Node i once edges 0..m are loaded. */
  function PartialNode(db: Database, q: Query, rows: seq<Row>, m: nat, i: nat): (n: Node)
    requires i < |rows|
    ensures n.id == rows[i].id && n.cells == Decode(q, rows[i]).cells && |n.links| == |q.with|
  {
    Decode(q, rows[i]).(links := seq(|q.with|, k requires 0 <= k < |q.with| =>
      if k < m then EagerLink(db, q, rows, i, k) else Unset))
  }

  function Partial(db: Database, q: Query, rows: seq<Row>, m: nat): (nodes: seq<Node>)
    ensures |nodes| == |rows|
    ensures forall i | 0 <= i < |rows| :: nodes[i] == PartialNode(db, q, rows, m, i)
  {
    seq(|rows|, i requires 0 <= i < |rows| => PartialNode(db, q, rows, m, i))
  }

  /** What `All` returns. */
  function EagerNodes(db: Database, q: Query): seq<Node> {
    Partial(db, q, NodeRows(db, q), |q.with|)
  }

  lemma LastAgree(nodes: seq<Node>, rows: seq<Row>, i: nat)
    requires |nodes| == |rows| && i < |rows|
    requires forall j | 0 <= j < |rows| :: nodes[j].id == rows[j].id
    ensures IsLast(nodes, i) == IsLastRow(rows, i)
  {
    LastIndexExact(nodes, nodes[i].id);
  }

  /** Loading edge k sets link k and nothing else. */
  lemma PartialStep(db: Database, q: Query, rows: seq<Row>, k: nat, i: nat)
    requires i < |rows| && k < |q.with|
    ensures PartialNode(db, q, rows, k + 1, i) ==
            SetLink(PartialNode(db, q, rows, k, i), k, EagerLink(db, q, rows, i, k))
    ensures PartialNode(db, q, rows, k, i).links[k] == Unset
  {
    var before, after := PartialNode(db, q, rows, k, i), PartialNode(db, q, rows, k + 1, i);
    assert after.links == before.links[k := EagerLink(db, q, rows, i, k)];
  }

  lemma SetLinkSame(n: Node, k: nat)
    requires k < |n.links|
    ensures SetLink(n, k, n.links[k]) == n
  {
    assert n.links[k := n.links[k]] == n.links;
  }

  lemma SetLinkTwice(n: Node, k: nat, first: Link<Node>, second: Link<Node>)
    ensures SetLink(SetLink(n, k, first), k, second) == SetLink(n, k, second)
  {
    if k < |n.links| { assert n.links[k := first][k := second] == n.links[k := second]; }
  }

  lemma SkipEdge(db: Database, q: Query, rows: seq<Row>, k: nat)
    requires k < |q.with| && (q.with[k].None? || k >= |q.entity.edges|)
    ensures Partial(db, q, rows, k) == Partial(db, q, rows, k + 1)
  {
    forall i | 0 <= i < |rows|
      ensures PartialNode(db, q, rows, k, i) == PartialNode(db, q, rows, k + 1, i)
    {
      PartialStep(db, q, rows, k, i);
      SetLinkSame(PartialNode(db, q, rows, k, i), k);
    }
  }

  /** The ids a loader collects from the nodes are those of their rows. */
  lemma CollectedIDs(db: Database, q: Query, rows: seq<Row>, k: nat)
    requires WellFormed(q) && k < |q.with| && q.with[k].Some?
    ensures var e, nodes := q.entity.edges[k], Partial(db, q, rows, k);
            match e.kind
            case OneToMany => IDsOf(nodes) == AskedIDs(e, rows)
            case ManyToOne => Keys(nodes, e.column) == AskedIDs(e, rows)
  {
    var e, nodes := q.entity.edges[k], Partial(db, q, rows, k);
    match e.kind
    case OneToMany => assert IDsOf(nodes) == RowIDs(rows);
    case ManyToOne =>
      forall i | 0 <= i < |rows|
        ensures ForeignKey(nodes[i].cells, e.column) == ForeignKey(rows[i].cells, e.column)
      {
        KeySurvives(q, rows[i], e.column);
      }
      KeysOfRows(nodes, rows, e.column);
  }

  /** A one-to-many loader meets no foreign-key error and sets link k of every node. */
  lemma LoadManyLinks(db: Database, q: Query, rows: seq<Row>, k: nat)
    requires WellFormed(q) && rows != []
    requires k < |q.with| && q.with[k].Some? && q.entity.edges[k].kind == OneToMany
    requires var e, nested := q.entity.edges[k], q.with[k].value;
             All(db, Ask(e, nested, RowIDs(rows))).result.Ok?
    ensures var e, nested := q.entity.edges[k], q.with[k].value;
            AttachChildren(ResetLinks(Partial(db, q, rows, k), k), k, e.column, Found(db, e, nested, rows)) ==
            Ok(Partial(db, q, rows, k + 1))
  {
    hide All, NodeRows;
    var e, nested := q.entity.edges[k], q.with[k].value;
    var nodes := Partial(db, q, rows, k);
    var reset, found := ResetLinks(nodes, k), Found(db, e, nested, rows);
    ChildrenKnown(db, e, nested, rows, reset);
    assert RowIDs(rows)[0] == rows[0].id;
    AttachChildrenExact(reset, k, e.column, found);
    var out := AttachChildren(reset, k, e.column, found).value;
    forall i | 0 <= i < |rows| ensures out[i] == PartialNode(db, q, rows, k + 1, i) {
      LastAgree(reset, rows, i);
      PartialStep(db, q, rows, k, i);
      SetLinkTwice(nodes[i], k, Many([]), EagerLink(db, q, rows, i, k));
    }
    assert out == Partial(db, q, rows, k + 1);
  }

  lemma ChildrenKnown(db: Database, e: Edge, nested: Query, rows: seq<Row>, reset: seq<Node>)
    requires e.kind == OneToMany && EdgeFits(e, nested) && All(db, Ask(e, nested, RowIDs(rows))).result.Ok?
    requires |reset| == |rows| && forall i | 0 <= i < |rows| :: reset[i].id == rows[i].id
    ensures AllKnown(reset, e.column, All(db, Ask(e, nested, RowIDs(rows))).result.value)
  {
    hide All, NodeRows;
    var a := Ask(e, nested, RowIDs(rows));
    var found := All(db, a).result.value;
    FoundRows(db, e, nested, RowIDs(rows));
    FoundNodes(db, e, nested, RowIDs(rows));
    forall j | 0 <= j < |found|
      ensures ForeignKey(found[j].cells, e.column).Some?
      ensures LastIndex(reset, ForeignKey(found[j].cells, e.column).value) >= 0
    {
      var key := EdgeKey(e, NodeRows(db, a)[j]);
      assert NodeKey(e, found[j]) == key;
      var i :| 0 <= i < |rows| && RowIDs(rows)[i] == key.value;
      LastIndexExact(reset, key.value);
      assert reset[i].id == key.value;
    }
  }

  /** Every fetched parent was asked for, so a many-to-one loader meets no error and sets link k of every node. */
  lemma LoadOneLinks(db: Database, q: Query, rows: seq<Row>, k: nat)
    requires WellFormed(q)
    requires k < |q.with| && q.with[k].Some? && q.entity.edges[k].kind == ManyToOne
    requires var e, nested := q.entity.edges[k], q.with[k].value;
             AskedIDs(e, rows) != [] ==> All(db, Ask(e, nested, AskedIDs(e, rows))).result.Ok?
    ensures var e, nested := q.entity.edges[k], q.with[k].value;
            AttachParents(Partial(db, q, rows, k), k, e.column, Found(db, e, nested, rows)) ==
            Ok(Partial(db, q, rows, k + 1))
  {
    hide All, NodeRows;
    var e, nested := q.entity.edges[k], q.with[k].value;
    var nodes, ids, found := Partial(db, q, rows, k), AskedIDs(e, rows), Found(db, e, nested, rows);
    CollectedIDs(db, q, rows, k);
    if ids != [] {
      FoundRows(db, e, nested, ids);
      FoundNodes(db, e, nested, ids);
    }
    forall j | 0 <= j < |found| ensures found[j].id in ids {
      assert NodeKey(e, found[j]) == EdgeKey(e, NodeRows(db, Ask(e, nested, ids))[j]);
    }
    AttachParentsExact(nodes, k, e.column, found);
    var out := AttachParents(nodes, k, e.column, found).value;
    forall i | 0 <= i < |rows| ensures out[i] == PartialNode(db, q, rows, k + 1, i) {
      KeySurvives(q, rows[i], e.column);
      PartialStep(db, q, rows, k, i);
      SetLinkSame(nodes[i], k);
    }
    assert out == Partial(db, q, rows, k + 1);
  }

  // ---------- whole runs ----------

  /** The one error a run can end in is a selected field the entity does not have. */
  predicate Agrees(result: Loaded, nodes: seq<Node>) {
    match result
    case Ok(found) => found == nodes
    case Err(e) => e.InvalidField?
  }

  lemma {:induction false} AllIsEager(db: Database, q: Query)
    requires WellFormed(q)
    ensures Agrees(All(db, q).result, EagerNodes(db, q))
    ensures FieldsValid(q) ==> All(db, q).result.Ok?
    decreases q.with, 1, 0
  {
    hide NodeRows;
    var rows := NodeRows(db, q);
    if FirstInvalid(q.entity, q.fields).None? {
      PartialStart(db, q, rows);
      if rows != [] { LoadAllLinks(db, q, rows, 0); }
    }
  }

  lemma PartialStart(db: Database, q: Query, rows: seq<Row>)
    ensures DecodeAll(q, rows) == Partial(db, q, rows, 0)
  {
    forall i | 0 <= i < |rows| ensures Decode(q, rows[i]) == PartialNode(db, q, rows, 0, i) {
      assert Decode(q, rows[i]).links == PartialNode(db, q, rows, 0, i).links;
    }
  }

  lemma {:induction false} LoadAllLinks(db: Database, q: Query, rows: seq<Row>, k: nat)
    requires WellFormed(q) && rows != [] && k <= |q.with|
    ensures Agrees(LoadAll(db, q, Partial(db, q, rows, k), k).0, Partial(db, q, rows, |q.with|))
    ensures FieldsValid(q) ==> LoadAll(db, q, Partial(db, q, rows, k), k).0.Ok?
    decreases q.with, 0, |q.with| - k
  {
    hide LoadEdge, NodeRows;
    if k < |q.with| {
      if q.with[k].None? { SkipEdge(db, q, rows, k); } else { LoadEdgeLinks(db, q, rows, k); }
      LoadAllLinks(db, q, rows, k + 1);
    }
  }

  /** Loading edge k: the nodes with link k set, or an invalid field below; and what is left of the nested builder. */
  lemma {:induction false} LoadEdgeLinks(db: Database, q: Query, rows: seq<Row>, k: nat)
    requires WellFormed(q) && rows != [] && k < |q.with| && q.with[k].Some?
    ensures var run := LoadEdge(db, q.entity.edges[k], q.with[k].value, Partial(db, q, rows, k), k);
            && Agrees(run.result, Partial(db, q, rows, k + 1))
            && (FieldsValid(q) ==> run.result.Ok?)
            && run.after == NestedAfter(db, q.entity.edges[k], q.with[k].value, rows)
    decreases q.with[k].value.with, 2, 0
  {
    hide NodeRows, All, Partial;
    var e, nested := q.entity.edges[k], q.with[k].value;
    var ids := AskedIDs(e, rows);
    CollectedIDs(db, q, rows, k);
    assert FieldsValid(q) ==> FieldsValid(nested);
    assert e.kind == OneToMany ==> ids != [] by { if e.kind == OneToMany { assert RowIDs(rows)[0] == rows[0].id; } }
    if ids != [] { AllIsEager(db, Ask(e, nested, ids)); }
    if ids == [] || All(db, Ask(e, nested, ids)).result.Ok? {
      if e.kind == OneToMany { LoadManyLinks(db, q, rows, k); } else { LoadOneLinks(db, q, rows, k); }
    }
  }

  /** The nested builder of an edge once it was loaded for these rows. */
  function NestedAfter(db: Database, e: Edge, nested: Query, rows: seq<Row>): Query {
    var ids := AskedIDs(e, rows);
    if ids == [] then nested else All(db, Ask(e, nested, ids)).after
  }

  lemma {:induction false} LoadedBuilder(db: Database, q: Query, rows: seq<Row>, j: nat, k: nat)
    requires WellFormed(q) && FieldsValid(q) && rows != []
    requires j <= k < |q.with| && q.with[k].Some?
    ensures LoadAll(db, q, Partial(db, q, rows, j), j).1[k] ==
            Some(NestedAfter(db, q.entity.edges[k], q.with[k].value, rows))
    decreases k - j
  {
    hide LoadEdge, NodeRows, NestedAfter;
    if q.with[j].None? {
      SkipEdge(db, q, rows, j);
      LoadedBuilder(db, q, rows, j + 1, k);
    } else {
      LoadEdgeLinks(db, q, rows, j);
      if j < k { LoadedBuilder(db, q, rows, j + 1, k); }
    }
  }

  /** What a run leaves of each nested builder: it keeps the predicate for the ids that were asked for. */
  lemma AllLeaves(db: Database, q: Query, k: nat)
    requires WellFormed(q) && FieldsValid(q) && NodeRows(db, q) != [] && k < |q.with| && q.with[k].Some?
    ensures |All(db, q).after.with| == |q.with|
    ensures All(db, q).after.with[k] == Some(NestedAfter(db, q.entity.edges[k], q.with[k].value, NodeRows(db, q)))
  {
    hide NodeRows, LoadAll, NestedAfter;
    var rows := NodeRows(db, q);
    PartialStart(db, q, rows);
    LoadedBuilder(db, q, rows, 0, k);
  }
}
