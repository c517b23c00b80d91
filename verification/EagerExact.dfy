/**
 Exactly when eager loading is the naive join. There are two ways in which it is
 not: ids repeated at the root, and a Limit or Offset on a nested builder, which
 is applied once across all parents.
 */
module EagerExact {
  import opened Base
  import opened Store
  import opened StoreLemmas
  import opened QueryTree
  import opened EagerSpec
  import opened EagerIndex
  import opened EagerRows
  import opened EagerJoin
  import opened EagerLinks
  import opened EagerWindows

  // ---------- one edge ----------

  lemma JoinLinkIs(db: Database, q: Query, r: Row, k: nat)
    requires k < |q.with| && k < |q.entity.edges| && q.with[k].Some?
    ensures var e, nested := q.entity.edges[k], q.with[k].value;
            JoinLink(db, q, r, k) ==
            match LinkKey(e, r)
            case None => Unset
            case Some(id) => LinkOf(e, Join(db, Ask(e, nested, [id])))
  {
  }

  /** What one id finds is a part of what all ids find. */
  lemma StoredOne(db: Database, e: Edge, nested: Query, ids: seq<ID>, id: ID)
    requires id in ids
    ensures Stored(db, Ask(e, nested, [id])) == ByKey(e, id, Stored(db, Ask(e, nested, ids)))
  {
    var all, one := Ask(e, nested, ids), Ask(e, nested, [id]);
    forall r ensures HoldAll(one.predicates, r) == HoldAll(all.predicates + [KeyIn(e, [id])], r) {
      HoldsOne(nested.predicates, KeyIn(e, ids), r);
      HoldsOne(nested.predicates, KeyIn(e, [id]), r);
      HoldsOne(all.predicates, KeyIn(e, [id]), r);
      KeyInHolds(e, ids, r);
      KeyInHolds(e, [id], r);
    }
    TightStored(db, all, one, [KeyIn(e, [id])]);
  }

  lemma StoredKeyed(db: Database, e: Edge, nested: Query, ids: seq<ID>)
    ensures AllKeyed(e, ids, Stored(db, Ask(e, nested, ids)))
  {
    var a := Ask(e, nested, ids);
    var rows := Stored(db, a);
    forall i | 0 <= i < |rows| ensures EdgeKey(e, rows[i]).Some? && EdgeKey(e, rows[i]).value in ids {
      StoredHolds(db, a, rows[i]);
      HoldsOne(nested.predicates, KeyIn(e, ids), rows[i]);
      KeyInHolds(e, ids, rows[i]);
    }
  }

  lemma GroupJoined(db: Database, e: Edge, nested: Query, ids: seq<ID>, id: ID)
    requires EdgeFits(e, nested)
    ensures var a := Ask(e, nested, ids);
            Group(e, Join(db, a), id) == JoinRows(db, Ask(e, nested, [id]), ByKey(e, id, NodeRows(db, a)))
  {
    hide NodeRows;
    var a, one := Ask(e, nested, ids), Ask(e, nested, [id]);
    match e.kind
    case OneToMany => GroupChildren(db, a, one, e.column, id, NodeRows(db, a));
    case ManyToOne => GroupParents(db, a, one, id, NodeRows(db, a));
  }

  /** Each id was given the nodes that a query of its own would have given it. */
  ghost predicate SameGroups(db: Database, e: Edge, nested: Query, ids: seq<ID>, found: seq<Node>) {
    forall i | 0 <= i < |ids| :: Group(e, found, ids[i]) == Join(db, Ask(e, nested, [ids[i]]))
  }

  lemma RowsByID(rows: seq<Row>, a: seq<Row>, b: seq<Row>)
    requires DistinctIDs(rows) && (forall r | r in a :: r in rows) && (forall r | r in b :: r in rows)
    requires RowIDs(a) == RowIDs(b)
    ensures a == b
  {
    forall i | 0 <= i < |a| ensures a[i] == b[i] {
      assert a[i] in a && b[i] in b && RowIDs(a)[i] == RowIDs(b)[i];
    }
    assert |a| == |RowIDs(a)| == |b|;
  }

  lemma JoinRowsIDs(db: Database, q: Query, rows: seq<Row>)
    ensures IDsOf(JoinRows(db, q, rows)) == RowIDs(rows)
  {
  }

  lemma SlicedByKey(db: Database, e: Edge, nested: Query, ids: seq<ID>, id: ID)
    requires PrimaryKeys(db) && nested.path.None? && id in ids
    ensures var a, one := Ask(e, nested, ids), Ask(e, nested, [id]);
            && ByKey(e, id, NodeRows(db, a)) == ByKey(e, id, Window(From(nested), Kept(nested), Stored(db, a)))
            && NodeRows(db, one) == Window(From(nested), Kept(nested), ByKey(e, id, Stored(db, a)))
  {
    hide NodeRows, Stored, Window;
    NestedRows(db, Ask(e, nested, ids));
    NestedRows(db, Ask(e, nested, [id]));
    StoredOne(db, e, nested, ids, id);
  }

  lemma GroupsJoin(db: Database, e: Edge, nested: Query, ids: seq<ID>)
    requires PrimaryKeys(db) && EdgeFits(e, nested)
    requires PerKey(e, From(nested), Kept(nested), ids, Stored(db, Ask(e, nested, ids)))
    ensures SameGroups(db, e, nested, ids, Join(db, Ask(e, nested, ids)))
  {
    hide NodeRows, Stored, Window;
    forall i | 0 <= i < |ids|
      ensures Group(e, Join(db, Ask(e, nested, ids)), ids[i]) == Join(db, Ask(e, nested, [ids[i]]))
    {
      GroupJoined(db, e, nested, ids, ids[i]);
      SlicedByKey(db, e, nested, ids, ids[i]);
    }
  }

  lemma GroupsSplit(db: Database, e: Edge, nested: Query, ids: seq<ID>, found: seq<Node>)
    requires PrimaryKeys(db) && EdgeFits(e, nested)
    requires All(db, Ask(e, nested, ids)).result == Ok(found) && SameGroups(db, e, nested, ids, found)
    ensures PerKey(e, From(nested), Kept(nested), ids, Stored(db, Ask(e, nested, ids)))
    ensures found == Join(db, Ask(e, nested, ids))
  {
    hide NodeRows, Stored, Window, All, From, Kept;
    var a := Ask(e, nested, ids);
    var rows, joined := NodeRows(db, a), Join(db, a);
    FoundNodes(db, e, nested, ids);
    FoundRows(db, e, nested, ids);
    NestedRows(db, a);
    forall i | 0 <= i < |ids|
      ensures ByKey(e, ids[i], rows) == NodeRows(db, Ask(e, nested, [ids[i]]))
      ensures Group(e, found, ids[i]) == Group(e, joined, ids[i])
    {
      GroupPart(db, e, nested, ids, i, found);
      GroupJoined(db, e, nested, ids, ids[i]);
    }
    forall i | 0 <= i < |ids|
      ensures ByKey(e, ids[i], Window(From(nested), Kept(nested), Stored(db, a))) ==
              Window(From(nested), Kept(nested), ByKey(e, ids[i], Stored(db, a)))
    {
      SlicedByKey(db, e, nested, ids, ids[i]);
    }
    GroupsDetermine(e, found, joined, ids);
  }

  lemma GroupPart(db: Database, e: Edge, nested: Query, ids: seq<ID>, i: nat, found: seq<Node>)
    requires PrimaryKeys(db) && EdgeFits(e, nested) && i < |ids|
    requires All(db, Ask(e, nested, ids)).result == Ok(found) && SameGroups(db, e, nested, ids, found)
    ensures ByKey(e, ids[i], NodeRows(db, Ask(e, nested, ids))) == NodeRows(db, Ask(e, nested, [ids[i]]))
  {
    hide NodeRows, All;
    var id := ids[i];
    var a, one := Ask(e, nested, ids), Ask(e, nested, [id]);
    var mine, own := ByKey(e, id, NodeRows(db, a)), NodeRows(db, one);
    FoundNodes(db, e, nested, ids);
    GroupRows(e, found, NodeRows(db, a), id);
    JoinRowsIDs(db, one, own);
    assert Group(e, found, ids[i]) == Join(db, one);
    assert RowIDs(mine) == RowIDs(own);
    var rows := Stored(db, a);
    StoredDistinct(db, a);
    SlicedByKey(db, e, nested, ids, id);
    forall r | r in mine ensures r in rows {
      FilterMembers([KeyIn(e, [id])], Window(From(nested), Kept(nested), rows), r);
    }
    forall r | r in own ensures r in rows {
      FilterMembers([KeyIn(e, [id])], rows, r);
    }
    RowsByID(rows, mine, own);
  }

  // ---------- whole trees ----------

  /** No window in the tree cuts what the naive join would keep, for the ids that are asked for on the way down. */
  ghost predicate TreeUncut(db: Database, q: Query)
    decreases q.with, 0
  {
    var rows := NodeRows(db, q);
    rows == [] || forall k | 0 <= k < |q.with| && Loads(q, k) :: EdgeUncut(db, q.entity.edges[k], q.with[k].value, rows)
  }

  ghost predicate EdgeUncut(db: Database, e: Edge, nested: Query, rows: seq<Row>)
    decreases nested.with, 1
  {
    var ids := AskedIDs(e, rows);
    ids == [] ||
    (Uncut(e, From(nested), Kept(nested), Stored(db, Ask(e, nested, ids))) && TreeUncut(db, Ask(e, nested, ids)))
  }

  /** The reference link, except that only the last row with an id receives children. */
  function IndexedLink(db: Database, q: Query, rows: seq<Row>, i: nat, k: nat): Link<Node>
    requires i < |rows| && k < |q.with|
  {
    var link := JoinLink(db, q, rows[i], k);
    if link.Many? && !IsLastRow(rows, i) then Many([]) else link
  }

  function IndexedNode(db: Database, q: Query, rows: seq<Row>, i: nat): Node
    requires i < |rows|
  {
    Decode(q, rows[i]).(links := seq(|q.with|, k requires 0 <= k < |q.with| => IndexedLink(db, q, rows, i, k)))
  }

  /** The naive join, with children on the last occurrence of each id. */
  function IndexedJoin(db: Database, q: Query): (nodes: seq<Node>)
    ensures |nodes| == |NodeRows(db, q)|
    ensures forall i | 0 <= i < |nodes| :: nodes[i] == IndexedNode(db, q, NodeRows(db, q), i)
  {
    var rows := NodeRows(db, q);
    seq(|rows|, i requires 0 <= i < |rows| => IndexedNode(db, q, rows, i))
  }

  lemma DistinctJoin(db: Database, q: Query)
    requires DistinctIDs(NodeRows(db, q))
    ensures IndexedJoin(db, q) == Join(db, q)
  {
    var rows := NodeRows(db, q);
    forall i | 0 <= i < |rows| ensures IndexedNode(db, q, rows, i) == JoinRow(db, q, rows[i]) {
      assert IndexedNode(db, q, rows, i).links == JoinRow(db, q, rows[i]).links;
    }
  }

  lemma {:induction false} LastServed(rows: seq<Row>, id: ID, n: nat) returns (i: nat)
    requires n < |rows| && rows[n].id == id
    ensures n <= i < |rows| && rows[i].id == id && IsLastRow(rows, i)
    decreases |rows| - n
  {
    if IsLastRow(rows, n) {
      i := n;
    } else {
      var m :| n < m < |rows| && rows[m].id == id;
      i := LastServed(rows, id, m);
    }
  }

  /** Links tell groups apart. */
  lemma LinkOfExact(e: Edge, a: seq<Node>, b: seq<Node>)
    requires LinkOf(e, a) == LinkOf(e, b)
    requires e.kind == ManyToOne ==> |a| <= 1 && |b| <= 1
    ensures a == b
  {
  }

  lemma OneFound(e: Edge, group: seq<Node>, rows: seq<Row>, id: ID)
    requires e.kind == ManyToOne && DistinctIDs(rows) && IDsOf(group) == RowIDs(rows)
    requires forall r | r in rows :: r.id == id
    ensures |group| <= 1
  {
    assert |group| == |IDsOf(group)| == |rows|;
    assert |rows| > 1 ==> rows[0].id == rows[1].id;
  }

  predicate LinkAgrees(db: Database, q: Query, rows: seq<Row>, i: nat, k: nat)
    requires i < |rows| && k < |q.with|
  {
    EagerLink(db, q, rows, i, k) == IndexedLink(db, q, rows, i, k)
  }

  predicate EdgeAgrees(db: Database, q: Query, rows: seq<Row>, k: nat)
    requires k < |q.with|
  {
    forall i | 0 <= i < |rows| :: LinkAgrees(db, q, rows, i, k)
  }

  /** An edge's links are the reference links exactly when its groups are. */
  lemma LinksExact(db: Database, q: Query, k: nat)
    requires PrimaryKeys(db) && WellFormed(q) && FieldsValid(q) && Loads(q, k)
    requires AskedIDs(q.entity.edges[k], NodeRows(db, q)) != []
    ensures var e, nested, rows := q.entity.edges[k], q.with[k].value, NodeRows(db, q);
            EdgeAgrees(db, q, rows, k) <==>
            SameGroups(db, e, nested, AskedIDs(e, rows), Found(db, e, nested, rows))
  {
    hide NodeRows, All, Join;
    var e, nested, rows := q.entity.edges[k], q.with[k].value, NodeRows(db, q);
    var ids, found := AskedIDs(e, rows), Found(db, e, nested, rows);
    if SameGroups(db, e, nested, ids, found) {
      forall i | 0 <= i < |rows| ensures LinkAgrees(db, q, rows, i, k) {
        JoinLinkIs(db, q, rows[i], k);
        if LinkKey(e, rows[i]).Some? {
          AskedExact(e, rows, LinkKey(e, rows[i]).value);
          var n :| 0 <= n < |ids| && ids[n] == LinkKey(e, rows[i]).value;
        }
      }
    }
    if EdgeAgrees(db, q, rows, k) {
      forall n | 0 <= n < |ids| ensures Group(e, found, ids[n]) == Join(db, Ask(e, nested, [ids[n]])) {
        var i := ServedRow(e, rows, ids[n]);
        JoinLinkIs(db, q, rows[i], k);
        assert LinkAgrees(db, q, rows, i, k);
        AllIsEager(db, Ask(e, nested, ids));
        if e.kind == ManyToOne { OneFoundEach(db, e, nested, ids, ids[n]); }
        LinkOfExact(e, Group(e, found, ids[n]), Join(db, Ask(e, nested, [ids[n]])));
      }
    }
  }

  lemma ServedRow(e: Edge, rows: seq<Row>, id: ID) returns (i: nat)
    requires id in AskedIDs(e, rows)
    ensures i < |rows| && LinkKey(e, rows[i]) == Some(id) && Served(e, rows, i)
  {
    AskedExact(e, rows, id);
    i :| 0 <= i < |rows| && LinkKey(e, rows[i]) == Some(id);
    if e.kind == OneToMany { i := LastServed(rows, id, i); }
  }

  lemma OneFoundEach(db: Database, e: Edge, nested: Query, ids: seq<ID>, id: ID)
    requires PrimaryKeys(db) && EdgeFits(e, nested) && e.kind == ManyToOne
    requires All(db, Ask(e, nested, ids)).result.Ok?
    ensures |Group(e, All(db, Ask(e, nested, ids)).result.value, id)| <= 1
    ensures |Join(db, Ask(e, nested, [id]))| <= 1
  {
    hide NodeRows, All;
    var a, one := Ask(e, nested, ids), Ask(e, nested, [id]);
    var rows := ByKey(e, id, NodeRows(db, a));
    NestedRows(db, a);
    NestedRows(db, one);
    ByKeyDistinct(e, id, NodeRows(db, a));
    FoundNodes(db, e, nested, ids);
    GroupRows(e, All(db, a).result.value, NodeRows(db, a), id);
    forall r | r in rows ensures r.id == id {
      FilterMembers([KeyIn(e, [id])], NodeRows(db, a), r);
      assert [KeyIn(e, [id])][0] == KeyIn(e, [id]);
      KeyInHolds(e, [id], r);
    }
    OneFound(e, Group(e, All(db, a).result.value, id), rows, id);
    JoinRowsIDs(db, one, NodeRows(db, one));
    FoundRows(db, e, nested, [id]);
    OneFound(e, Join(db, one), NodeRows(db, one), id);
  }

  /** An edge is loaded as the reference says exactly when its window, and every window below it, cuts nothing. */
  lemma {:induction false} EdgeExact(db: Database, q: Query, k: nat)
    requires PrimaryKeys(db) && WellFormed(q) && FieldsValid(q) && Loads(q, k)
    ensures var e, nested, rows := q.entity.edges[k], q.with[k].value, NodeRows(db, q);
            EdgeAgrees(db, q, rows, k) <==>
            EdgeUncut(db, e, nested, rows)
    decreases q.with[k].value.with, 1
  {
    hide NodeRows, All, Join, Stored, Uncut;
    var e, nested, rows := q.entity.edges[k], q.with[k].value, NodeRows(db, q);
    var ids := AskedIDs(e, rows);
    var a := Ask(e, nested, ids);
    if ids == [] {
      forall i | 0 <= i < |rows| ensures LinkAgrees(db, q, rows, i, k) {
        JoinLinkIs(db, q, rows[i], k);
        if LinkKey(e, rows[i]).Some? { AskedExact(e, rows, LinkKey(e, rows[i]).value); }
      }
    } else {
      LinksExact(db, q, k);
      AllIsEager(db, a);
      IndexedExact(db, a);
      NestedRows(db, a);
      DistinctJoin(db, a);
      StoredKeyed(db, e, nested, ids);
      StoredDistinct(db, a);
      WindowExact(e, From(nested), Kept(nested), ids, Stored(db, a));
      var found := Found(db, e, nested, rows);
      if SameGroups(db, e, nested, ids, found) { GroupsSplit(db, e, nested, ids, found); }
      if EdgeUncut(db, e, nested, rows) { GroupsJoin(db, e, nested, ids); }
    }
  }

  /**
   For any root, repeated ids included: `All` returns the join, with children on
   the last occurrence of each id, exactly when no window below the root cuts it.
   */
  lemma {:induction false} IndexedExact(db: Database, q: Query)
    requires PrimaryKeys(db) && WellFormed(q) && FieldsValid(q)
    ensures All(db, q).result == Ok(IndexedJoin(db, q)) <==> TreeUncut(db, q)
    decreases q.with, 0
  {
    hide NodeRows, All, LinkAgrees;
    var rows := NodeRows(db, q);
    var eager, joined := EagerNodes(db, q), IndexedJoin(db, q);
    AllIsEager(db, q);
    forall i | 0 <= i < |rows|
      ensures eager[i] == joined[i] <==> forall k | 0 <= k < |q.with| :: LinkAgrees(db, q, rows, i, k)
    {
      SameLinks(db, q, rows, i);
    }
    forall k | 0 <= k < |q.with|
      ensures EdgeAgrees(db, q, rows, k) <==> (Loads(q, k) ==> EdgeUncut(db, q.entity.edges[k], q.with[k].value, rows))
    {
      if Loads(q, k) { EdgeExact(db, q, k); } else { UnloadedEdge(db, q, rows, k); }
    }
    if TreeUncut(db, q) {
      forall i, k | 0 <= i < |rows| && 0 <= k < |q.with| ensures LinkAgrees(db, q, rows, i, k) {
        assert EdgeAgrees(db, q, rows, k);
      }
      assert eager == joined;
    }
    if eager == joined {
      forall k | 0 <= k < |q.with| ensures EdgeAgrees(db, q, rows, k) {
        forall i | 0 <= i < |rows| ensures LinkAgrees(db, q, rows, i, k) { assert eager[i] == joined[i]; }
      }
    }
  }

  lemma UnloadedEdge(db: Database, q: Query, rows: seq<Row>, k: nat)
    requires k < |q.with| && !Loads(q, k)
    ensures EdgeAgrees(db, q, rows, k)
  {
  }

  lemma SameLinks(db: Database, q: Query, rows: seq<Row>, i: nat)
    requires i < |rows|
    ensures PartialNode(db, q, rows, |q.with|, i) == IndexedNode(db, q, rows, i) <==>
            forall k | 0 <= k < |q.with| :: LinkAgrees(db, q, rows, i, k)
  {
    hide EagerLink, IndexedLink;
    var a, b := PartialNode(db, q, rows, |q.with|, i), IndexedNode(db, q, rows, i);
    forall k | 0 <= k < |q.with|
      ensures a.links[k] == EagerLink(db, q, rows, i, k) && b.links[k] == IndexedLink(db, q, rows, i, k)
    {
    }
    if forall k | 0 <= k < |q.with| :: LinkAgrees(db, q, rows, i, k) {
      forall k | 0 <= k < |q.with| ensures a.links[k] == b.links[k] { assert LinkAgrees(db, q, rows, i, k); }
      assert a.links == b.links;
    }
  }

  // ---------- the naive join ----------

  /** Traversals end in rows of the target table, so equal ids mean equal rows. */
  ghost predicate PathIntoTable(db: Database, q: Query) {
    q.path.Some? ==> OneRowPerID(q.path.value(db))
  }

  lemma FilterKeepsOneRowPerID(ps: seq<Predicate>, rows: seq<Row>)
    requires OneRowPerID(rows)
    ensures OneRowPerID(Filter(ps, rows))
  {
    forall r, s | r in Filter(ps, rows) && s in Filter(ps, rows) && r.id == s.id ensures r == s {
      FilterMembers(ps, rows, r);
      FilterMembers(ps, rows, s);
    }
  }

  /** Without an explicit `Unique(false)` on a traversal, no id is fetched twice. */
  lemma RootDistinct(db: Database, q: Query)
    requires PrimaryKeys(db) && PathIntoTable(db, q)
    requires q.path.None? || SpecOf(q).unique
    ensures DistinctIDs(NodeRows(db, q))
  {
    hide Sort, Filter, Distinct, Window, From, Kept, OneRowPerID;
    var s := SpecSelector(SpecOf(q).(columns := NodeColumns(q)));
    var kept := Filter(q.predicates, Source(db, s));
    if q.path.None? {
      FilterKeepsDistinctIDs(q.predicates, Source(db, s));
      DistinctIDsSurvive(s.columns, kept);
    } else {
      FilterKeepsOneRowPerID(q.predicates, Source(db, s));
      DistinctLeavesDistinctIDs(s.columns, kept);
    }
    var sorted := Sort(q.order, if s.distinct then Distinct(s.columns, kept) else kept);
    SortKeepsDistinctIDs(q.order, if s.distinct then Distinct(s.columns, kept) else kept);
    assert Unwindowed(db, s) == sorted;
    SameWindow(q, sorted);
    WindowDistinct(From(q), Kept(q), sorted);
  }

  ghost predicate LoadsNaively(db: Database, q: Query) {
    All(db, q).result == Ok(Join(db, q))
  }

  /** A node that shares its id with a later one, and has children of its own to lose. */
  ghost predicate LosesChildren(db: Database, q: Query, rows: seq<Row>, i: nat, k: nat)
    requires i < |rows| && k < |q.with|
  {
    var link := JoinLink(db, q, rows[i], k);
    link.Many? && link.list != [] && !IsLastRow(rows, i)
  }

  ghost predicate NoneLost(db: Database, q: Query, rows: seq<Row>) {
    forall i, k | 0 <= i < |rows| && 0 <= k < |q.with| :: !LosesChildren(db, q, rows, i, k)
  }

  lemma NodeUnchanged(db: Database, q: Query, rows: seq<Row>, i: nat)
    requires i < |rows|
    ensures IndexedNode(db, q, rows, i) == JoinRow(db, q, rows[i]) <==>
            forall k | 0 <= k < |q.with| :: !LosesChildren(db, q, rows, i, k)
  {
    var indexed, naive := IndexedNode(db, q, rows, i), JoinRow(db, q, rows[i]);
    forall k | 0 <= k < |q.with|
      ensures indexed.links[k] == naive.links[k] <==> !LosesChildren(db, q, rows, i, k)
    {
    }
    if forall k | 0 <= k < |q.with| :: !LosesChildren(db, q, rows, i, k) {
      assert indexed.links == naive.links;
    }
  }

  lemma NoneLostExact(db: Database, q: Query)
    ensures IndexedJoin(db, q) == Join(db, q) <==> NoneLost(db, q, NodeRows(db, q))
  {
    hide NodeRows;
    var rows := NodeRows(db, q);
    var indexed, naive := IndexedJoin(db, q), Join(db, q);
    forall i | 0 <= i < |rows|
      ensures indexed[i] == naive[i] <==> forall k | 0 <= k < |q.with| :: !LosesChildren(db, q, rows, i, k)
    {
      NodeUnchanged(db, q, rows, i);
    }
    if NoneLost(db, q, rows) { assert indexed == naive; }
  }

  /**
   Eager loading is the naive nested join exactly when no earlier occurrence of a
   repeated root id has children, and no window below the root cuts anything.
   */
  lemma NaiveExact(db: Database, q: Query)
    requires PrimaryKeys(db) && WellFormed(q) && FieldsValid(q)
    ensures LoadsNaively(db, q) <==> NoneLost(db, q, NodeRows(db, q)) && TreeUncut(db, q)
  {
    hide NodeRows, All, Join;
    IndexedExact(db, q);
    NoneLostExact(db, q);
    AllIsEager(db, q);
    if LoadsNaively(db, q) { ServedNaively(db, q); }
  }

  /** What is not served gets nothing either way, so a naive result is the indexed one. */
  lemma ServedNaively(db: Database, q: Query)
    requires WellFormed(q) && EagerNodes(db, q) == Join(db, q)
    ensures IndexedJoin(db, q) == Join(db, q)
  {
    hide NodeRows, All;
    var rows := NodeRows(db, q);
    forall i | 0 <= i < |rows| ensures IndexedNode(db, q, rows, i) == JoinRow(db, q, rows[i]) {
      var eager, indexed, naive := EagerNodes(db, q)[i], IndexedNode(db, q, rows, i), JoinRow(db, q, rows[i]);
      assert Join(db, q)[i] == naive;
      forall k | 0 <= k < |q.with| ensures indexed.links[k] == naive.links[k] {
        assert eager.links[k] == naive.links[k] == JoinLink(db, q, rows[i], k);
      }
      assert indexed.links == naive.links;
    }
  }

  lemma {:induction false} WindowlessUncut(db: Database, q: Query)
    requires NestedWindowless(q)
    ensures TreeUncut(db, q)
    decreases q.with
  {
    hide NodeRows;
    forall k | 0 <= k < |q.with| && Loads(q, k)
      ensures EdgeUncut(db, q.entity.edges[k], q.with[k].value, NodeRows(db, q))
    {
      WindowlessUncut(db, Ask(q.entity.edges[k], q.with[k].value, AskedIDs(q.entity.edges[k], NodeRows(db, q))));
    }
  }

  /** With repeated ids and no nested windows the two agree exactly when no earlier occurrence has children. */
  lemma RepeatedIDsExact(db: Database, q: Query)
    requires PrimaryKeys(db) && WellFormed(q) && NestedWindowless(q) && FieldsValid(q)
    ensures LoadsNaively(db, q) <==> NoneLost(db, q, NodeRows(db, q))
  {
    hide NodeRows;
    NaiveExact(db, q);
    WindowlessUncut(db, q);
  }

  lemma DistinctLosesNone(db: Database, q: Query)
    requires DistinctIDs(NodeRows(db, q))
    ensures NoneLost(db, q, NodeRows(db, q))
  {
    hide NodeRows;
    DistinctJoin(db, q);
    NoneLostExact(db, q);
  }

  /** With Limits and Offsets below a root without repeats, the two agree exactly when those cut nothing. */
  lemma NestedWindowsExact(db: Database, q: Query)
    requires PrimaryKeys(db) && PathIntoTable(db, q) && WellFormed(q) && FieldsValid(q)
    requires q.path.None? || SpecOf(q).unique
    ensures LoadsNaively(db, q) <==> TreeUncut(db, q)
  {
    hide NodeRows;
    RootDistinct(db, q);
    DistinctLosesNone(db, q);
    NaiveExact(db, q);
  }

  /**
   Eager loading is the naive nested join, for every tree whose nested builders
   have no Limit or Offset and whose root does not repeat an id.
   */
  lemma EagerIsNaiveJoin(db: Database, q: Query)
    requires PrimaryKeys(db) && PathIntoTable(db, q)
    requires WellFormed(q) && NestedWindowless(q) && FieldsValid(q)
    requires q.path.None? || SpecOf(q).unique
    ensures All(db, q).result == Ok(Join(db, q))
  {
    hide NodeRows, All, Join;
    NestedWindowsExact(db, q);
    WindowlessUncut(db, q);
  }
}
