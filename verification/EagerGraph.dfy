/** What the links of a loaded graph say about the stored rows. */
module EagerGraph {
  import opened Base
  import opened Store
  import opened StoreLemmas
  import opened QueryTree
  import opened EagerSpec
  import opened EagerRows
  import opened EagerJoin
  import opened EagerLinks
  import opened EagerExact
  import opened Fetched

  /** A well-formed tree without nested windows, whose root fetches no id twice. */
  ghost predicate Plain(db: Database, q: Query) {
    && PrimaryKeys(db) && PathIntoTable(db, q)
    && WellFormed(q) && NestedWindowless(q) && FieldsValid(q)
    && (q.path.None? || q.unique != Some(false))
  }

  function TargetRows(db: Database, e: Edge): seq<Row> {
    if e.target in db then db[e.target] else []
  }

  /** What a nested builder finds for one id. */
  lemma FoundExact(db: Database, e: Edge, nested: Query, id: ID, r: Row)
    requires PrimaryKeys(db) && nested.path.None? && Unlimited(nested) && nested.entity.table == e.target
    ensures r in NodeRows(db, Ask(e, nested, [id])) <==>
            && r in TargetRows(db, e) && MeetsAll(nested.predicates, r)
            && if e.kind == OneToMany then Refers(r, e.column, id) else r.id == id
  {
    hide NodeRows, MeetsAll;
    var one := Ask(e, nested, [id]);
    FetchedExact(db, one, r);
    MeetsExact(one.predicates, r);
    MeetsExact(nested.predicates, r);
    HoldsOne(nested.predicates, KeyIn(e, [id]), r);
    KeyInHolds(e, [id], r);
  }

  lemma LinkIs(db: Database, q: Query, i: nat, k: nat)
    requires Plain(db, q) && i < |NodeRows(db, q)| && Loads(q, k)
    ensures All(db, q).result.Ok? && |All(db, q).result.value| == |NodeRows(db, q)|
    ensures k < |All(db, q).result.value[i].links|
    ensures var e, nested := q.entity.edges[k], q.with[k].value;
            All(db, q).result.value[i].links[k] ==
            match LinkKey(e, NodeRows(db, q)[i])
            case None => Unset
            case Some(id) => LinkOf(e, Join(db, Ask(e, nested, [id])))
  {
    hide NodeRows, All, JoinLink;
    EagerIsNaiveJoin(db, q);
    JoinLinkIs(db, q, NodeRows(db, q)[i], k);
    assert Join(db, q)[i] == JoinRow(db, q, NodeRows(db, q)[i]);
  }

  lemma JoinedNode(db: Database, q: Query, j: nat)
    requires j < |NodeRows(db, q)|
    ensures j < |Join(db, q)| && Shows(q, Join(db, q)[j], NodeRows(db, q)[j])
  {
    hide NodeRows, Shows, Decode;
    var rows := NodeRows(db, q);
    assert Join(db, q)[j] == JoinRow(db, q, rows[j]);
    DecodeShows(q, rows[j], Join(db, q)[j]);
  }

  // ---------- children ----------

  /** A stored row of the target table that refers to the owner and that the nested builder's predicates let through. */
  predicate IsChild(db: Database, e: Edge, nested: Query, owner: ID, s: Row) {
    s in TargetRows(db, e) && Refers(s, e.column, owner) && MeetsAll(nested.predicates, s)
  }

  /**
   A one-to-many edge of a loaded node lists, once each and in the order asked for,
   exactly the stored rows that refer to the node, foreign keys included.
   */
  lemma ChildrenExact(db: Database, q: Query, i: nat, k: nat) returns (children: seq<Row>)
    requires Plain(db, q) && i < |NodeRows(db, q)| && Loads(q, k) && q.entity.edges[k].kind == OneToMany
    ensures All(db, q).result.Ok? && |All(db, q).result.value| == |NodeRows(db, q)|
    ensures DistinctIDs(children)
    ensures var e, nested := q.entity.edges[k], q.with[k].value;
            && (forall s :: s in children <==> IsChild(db, e, nested, NodeRows(db, q)[i].id, s))
            && AllInOrder(nested.order, TargetRows(db, e), children)
    ensures k < |All(db, q).result.value[i].links|
    ensures var link := All(db, q).result.value[i].links[k];
            && link.Many? && |link.list| == |children|
            && forall j | 0 <= j < |children| ::
                 Shows(Target(q.entity.edges[k], q.with[k].value), link.list[j], children[j])
  {
    hide NodeRows, All, Shows, MeetsAll, InOrder, Join;
    var e, nested, owner := q.entity.edges[k], q.with[k].value, NodeRows(db, q)[i].id;
    var one := Ask(e, nested, [owner]);
    children := NodeRows(db, one);
    LinkIs(db, q, i, k);
    NestedRows(db, one);
    forall s ensures s in children <==> IsChild(db, e, nested, owner, s) { FoundExact(db, e, nested, owner, s); }
    forall a, b | 0 <= a < b < |children| ensures InOrder(nested.order, TargetRows(db, e), children[a], children[b]) {
      OrderExact(db, one, a, b);
    }
    JoinedNodes(db, e, nested, owner);
  }

  lemma ShowsAlike(q: Query, other: Query, n: Node, r: Row)
    requires other == q.(predicates := other.predicates) && Shows(q, n, r)
    ensures Shows(other, n, r)
  {
    forall c ensures Wanted(other, c) <==> Wanted(q, c) {
      assert forall k: nat :: LoadsParent(other, k) == LoadsParent(q, k);
    }
  }

  /** How the nodes on an edge are read: one-to-many loading adds the foreign keys. */
  function Target(e: Edge, nested: Query): Query {
    if e.kind == OneToMany then nested.(withFKs := true) else nested
  }

  /** The nodes joined for one id stand for the rows found for it. */
  lemma JoinedNodes(db: Database, e: Edge, nested: Query, id: ID)
    ensures var one := Ask(e, nested, [id]);
            && |Join(db, one)| == |NodeRows(db, one)|
            && forall j | 0 <= j < |NodeRows(db, one)| ::
                 Shows(Target(e, nested), Join(db, one)[j], NodeRows(db, one)[j])
  {
    hide NodeRows, JoinRow;
    var one := Ask(e, nested, [id]);
    forall j | 0 <= j < |NodeRows(db, one)| ensures Shows(Target(e, nested), Join(db, one)[j], NodeRows(db, one)[j]) {
      JoinedNode(db, one, j);
      ShowsAlike(one, one.(predicates := nested.predicates), Join(db, one)[j], NodeRows(db, one)[j]);
    }
  }

  // ---------- parents ----------

  /** A stored row of the target table to which r refers and that the nested builder's predicates let through. */
  predicate IsParent(db: Database, e: Edge, nested: Query, r: Row, s: Row) {
    s in TargetRows(db, e) && Refers(r, e.column, s.id) && MeetsAll(nested.predicates, s)
  }

  /** A many-to-one edge of a loaded node points at the one stored row that its key names, or at nothing. */
  lemma ParentExact(db: Database, q: Query, i: nat, k: nat) returns (parents: seq<Row>)
    requires Plain(db, q) && i < |NodeRows(db, q)| && Loads(q, k) && q.entity.edges[k].kind == ManyToOne
    ensures All(db, q).result.Ok? && |All(db, q).result.value| == |NodeRows(db, q)|
    ensures var e, nested := q.entity.edges[k], q.with[k].value;
            |parents| <= 1 && forall s :: s in parents <==> IsParent(db, e, nested, NodeRows(db, q)[i], s)
    ensures k < |All(db, q).result.value[i].links|
    ensures var link := All(db, q).result.value[i].links[k];
            if parents == [] then link == Unset
            else link.One? && Shows(Target(q.entity.edges[k], q.with[k].value), link.item, parents[0])
  {
    hide NodeRows, All, Shows, MeetsAll, Join;
    var e, nested, r := q.entity.edges[k], q.with[k].value, NodeRows(db, q)[i];
    LinkIs(db, q, i, k);
    if LinkKey(e, r).None? {
      parents := [];
    } else {
      var one := Ask(e, nested, [LinkKey(e, r).value]);
      parents := NodeRows(db, one);
      NestedRows(db, one);
      forall s ensures s in parents <==> IsParent(db, e, nested, r, s) {
        FoundExact(db, e, nested, LinkKey(e, r).value, s);
      }
      forall j | 0 <= j < |parents| ensures parents[j].id == LinkKey(e, r).value { assert parents[j] in parents; }
      AtMostOne(parents, LinkKey(e, r).value);
      JoinedNodes(db, e, nested, LinkKey(e, r).value);
    }
  }

  lemma SameIndex(rows: seq<Row>, id: ID, a: nat, b: nat)
    requires DistinctIDs(rows) && a < |rows| && b < |rows| && rows[a].id == rows[b].id == id
    ensures a == b
  {
  }

  lemma AtMostOne(rows: seq<Row>, id: ID)
    requires DistinctIDs(rows) && forall j | 0 <= j < |rows| :: rows[j].id == id
    ensures |rows| <= 1
  {
    if |rows| > 0 { SameIndex(rows, id, 0, |rows| - 1); }
  }

  // ---------- both ways ----------

  lemma ListedIDs(list: seq<Node>, rows: seq<Row>, q: Query, id: ID)
    requires |list| == |rows| && forall j | 0 <= j < |rows| :: Shows(q, list[j], rows[j])
    ensures id in IDsOf(list) <==> exists j | 0 <= j < |rows| :: rows[j].id == id
  {
    if id in IDsOf(list) {
      var j :| 0 <= j < |list| && IDsOf(list)[j] == id;
      assert rows[j].id == id;
    }
    forall j | 0 <= j < |rows| && rows[j].id == id ensures id in IDsOf(list) { assert IDsOf(list)[j] == id; }
  }

  lemma SameRow(rows: seq<Row>, r: Row, s: Row)
    requires DistinctIDs(rows) && r in rows && s in rows && r.id == s.id
    ensures r == s
  {
  }

  /**
   Over an edge and its inverse, loaded without further predicates, the graphs agree:
   a node is in an owner's list exactly when its own edge points back at that owner.
   */
  lemma BothWays(db: Database, p: Query, i: nat, k: nat, q: Query, m: nat, l: nat)
    requires Plain(db, p) && i < |NodeRows(db, p)| && Loads(p, k)
    requires Plain(db, q) && m < |NodeRows(db, q)| && Loads(q, l)
    requires var e, f := p.entity.edges[k], q.entity.edges[l];
             && e.kind == OneToMany && f.kind == ManyToOne && f.column == e.column
             && p.with[k].value.predicates == [] && q.with[l].value.predicates == []
             && NodeRows(db, p)[i] in TargetRows(db, f) && NodeRows(db, q)[m] in TargetRows(db, e)
    ensures All(db, p).result.Ok? && All(db, q).result.Ok?
    ensures i < |All(db, p).result.value| && k < |All(db, p).result.value[i].links|
    ensures m < |All(db, q).result.value| && l < |All(db, q).result.value[m].links|
    ensures var down, up := All(db, p).result.value[i].links[k], All(db, q).result.value[m].links[l];
            down.Many? &&
            (NodeRows(db, q)[m].id in IDsOf(down.list) <==> up.One? && up.item.id == NodeRows(db, p)[i].id)
  {
    hide NodeRows, All, NestedWindowless, WellFormed, FieldsValid, AllInOrder, Wanted;
    var e, f, owner, child := p.entity.edges[k], q.entity.edges[l], NodeRows(db, p)[i], NodeRows(db, q)[m];
    var children := ChildrenExact(db, p, i, k);
    var parents := ParentExact(db, q, m, l);
    ListedIDs(All(db, p).result.value[i].links[k].list, children, Target(e, p.with[k].value), child.id);
    assert DistinctIDs(TargetRows(db, e)) && DistinctIDs(TargetRows(db, f));
    assert child in children <==> Refers(child, e.column, owner.id);
    assert owner in parents <==> Refers(child, e.column, owner.id);
    forall j | 0 <= j < |children| && children[j].id == child.id ensures child in children {
      assert children[j] in children;
      SameRow(TargetRows(db, e), children[j], child);
    }
    if parents != [] && parents[0].id == owner.id {
      assert parents[0] in parents;
      SameRow(TargetRows(db, f), parents[0], owner);
    }
  }
}
