/** A nested run over some of the rows of another one: exactly when it loads those rows as the other run does. */
module EagerPart {
  import opened Base
  import opened Store
  import opened StoreLemmas
  import opened QueryTree
  import opened EagerSpec
  import opened EagerIndex
  import opened EagerRows
  import opened EagerJoin
  import opened EagerLinks
  import opened EagerWindows
  import opened EagerExact
  import opened EagerStale
  import opened Sublists

  // ---------- cutting before and after ----------

  /** What the window leaves of the rows for a few ids is what it leaves of all rows, as far as those are alike. */
  predicate SameCut(e: Edge, from: nat, kept: Option<nat>, few: seq<ID>, alike: seq<ID>, rows: seq<Row>) {
    Window(from, kept, Seen(e, few, rows)) == Seen(e, alike, Window(from, kept, rows))
  }

  predicate Within(a: seq<ID>, b: seq<ID>) {
    forall i | 0 <= i < |a| :: a[i] in b
  }

  lemma StoredSome(db: Database, e: Edge, nested: Query, few: seq<ID>, all: seq<ID>)
    requires Within(few, all)
    ensures Stored(db, Ask(e, nested, few)) == Seen(e, few, Stored(db, Ask(e, nested, all)))
  {
    var most, some := Ask(e, nested, all), Ask(e, nested, few);
    forall r ensures HoldAll(some.predicates, r) == HoldAll(most.predicates + [KeyIn(e, few)], r) {
      HoldsOne(nested.predicates, KeyIn(e, all), r);
      HoldsOne(nested.predicates, KeyIn(e, few), r);
      HoldsOne(most.predicates, KeyIn(e, few), r);
      KeyInHolds(e, all, r);
      KeyInHolds(e, few, r);
    }
    TightStored(db, most, some, [KeyIn(e, few)]);
  }

  lemma PartRows(db: Database, e: Edge, nested: Query, few: seq<ID>, all: seq<ID>)
    requires PrimaryKeys(db) && nested.path.None? && Within(few, all)
    ensures var stored := Stored(db, Ask(e, nested, all));
            && NodeRows(db, Ask(e, nested, all)) == Window(From(nested), Kept(nested), stored)
            && NodeRows(db, Ask(e, nested, few)) == Window(From(nested), Kept(nested), Seen(e, few, stored))
  {
    hide NodeRows, Window, Stored, Seen;
    NestedRows(db, Ask(e, nested, all));
    NestedRows(db, Ask(e, nested, few));
    StoredSome(db, e, nested, few, all);
  }

  /** Both sides of `SameCut` are sublists of the stored rows. */
  lemma CutsSub(e: Edge, from: nat, kept: Option<nat>, few: seq<ID>, alike: seq<ID>, rows: seq<Row>)
    ensures Sub(Window(from, kept, Seen(e, few, rows)), rows)
    ensures Sub(Seen(e, alike, Window(from, kept, rows)), rows)
  {
    hide Sub;
    var seen, cut := Seen(e, few, rows), Window(from, kept, rows);
    SubFilter([KeyIn(e, few)], rows);
    SubWindow(from, kept, seen);
    SubTrans(Window(from, kept, seen), seen, rows);
    SubWindow(from, kept, rows);
    SubFilter([KeyIn(e, alike)], cut);
    SubTrans(Seen(e, alike, cut), cut, rows);
  }

  // ---------- a nested builder asked for some of the ids ----------

  /** The run over a few ids gives each its group of the run over all ids if it is alike, and nothing otherwise. */
  predicate PartGroups(e: Edge, few: seq<ID>, alike: seq<ID>, found: seq<Node>, others: seq<Node>) {
    forall i | 0 <= i < |few| ::
      Group(e, found, few[i]) == if few[i] in alike then Group(e, others, few[i]) else []
  }

  /** Where the two runs fetched the same row, they return the same node. */
  predicate NodesAgree(found: seq<Node>, few: seq<Row>, others: seq<Node>, all: seq<Row>) {
    |found| == |few| && |others| == |all| &&
    forall i, j | 0 <= i < |few| && 0 <= j < |all| && few[i] == all[j] :: found[i] == others[j]
  }

  predicate RowsWithin(few: seq<Row>, all: seq<Row>) {
    forall i | 0 <= i < |few| :: few[i] in all
  }

  /**
   The run of p fetches some of the rows that the run of q fetches, and loads them alike: at every
   edge, the window leaves for their ids what it leaves of the rows for all ids, and so on below.
   */
  ghost predicate PartAlike(db: Database, p: Query, q: Query)
    decreases q.with, 0
  {
    var few, all := NodeRows(db, p), NodeRows(db, q);
    few == [] ||
    forall k | 0 <= k < |q.with| && Loads(q, k) :: EdgePart(db, q.entity.edges[k], q.with[k].value, few, all)
  }

  ghost predicate EdgePart(db: Database, e: Edge, nested: Query, few: seq<Row>, all: seq<Row>)
    decreases nested.with, 2
  {
    AskedAlike(db, e, nested, AskedIDs(e, few), AskedIDs(e, few), AskedIDs(e, all))
  }

  ghost predicate AskedAlike(db: Database, e: Edge, nested: Query, few: seq<ID>, alike: seq<ID>, all: seq<ID>)
    decreases nested.with, 1
  {
    few == [] ||
    (SameCut(e, From(nested), Kept(nested), few, alike, Stored(db, Ask(e, nested, all))) &&
     PartAlike(db, Ask(e, nested, few), Ask(e, nested, all)))
  }

  lemma ByKeySeen(e: Edge, alike: seq<ID>, id: ID, rows: seq<Row>)
    ensures ByKey(e, id, Seen(e, alike, rows)) == if id in alike then ByKey(e, id, rows) else []
  {
    FilterFilter([KeyIn(e, alike)], [KeyIn(e, [id])], rows);
    var both := [KeyIn(e, alike)] + [KeyIn(e, [id])];
    forall r ensures HoldAll(both, r) == (id in alike && HoldAll([KeyIn(e, [id])], r)) {
      HoldsOne([KeyIn(e, alike)], KeyIn(e, [id]), r);
      assert [KeyIn(e, alike)][0] == KeyIn(e, alike) && [KeyIn(e, [id])][0] == KeyIn(e, [id]);
      KeyInHolds(e, alike, r);
      KeyInHolds(e, [id], r);
    }
    if id in alike {
      FilterCongruence(both, [KeyIn(e, [id])], rows);
    } else if Filter(both, rows) != [] {
      FilterMembers(both, rows, Filter(both, rows)[0]);
    }
  }

  /** Groups of the same ids, over rows that are alike, agree as soon as the nodes of equal rows do. */
  lemma GroupFromNodes(e: Edge, found: seq<Node>, few: seq<Row>, others: seq<Node>, all: seq<Row>, id: ID)
    requires StandFor(e, found, few) && StandFor(e, others, all) && DistinctIDs(all) && RowsWithin(few, all)
    requires NodesAgree(found, few, others, all) && ByKey(e, id, few) == ByKey(e, id, all)
    ensures Group(e, found, id) == Group(e, others, id)
  {
    hide ByKey, Group;
    GroupRows(e, found, few, id);
    GroupRows(e, others, all, id);
    var a, b := Group(e, found, id), Group(e, others, id);
    assert |a| == |IDsOf(a)| && |b| == |IDsOf(b)|;
    forall t | 0 <= t < |a| ensures a[t] == b[t] {
      assert IDsOf(a)[t] == IDsOf(b)[t];
      GroupMembers(e, found, id, a[t]);
      GroupMembers(e, others, id, b[t]);
      var i :| 0 <= i < |found| && found[i] == a[t];
      var j :| 0 <= j < |others| && others[j] == b[t];
      assert few[i] in all;
      var m :| 0 <= m < |all| && all[m] == few[i];
      assert all[m].id == all[j].id;
    }
  }

  /** A member of one group that is a member of another list of nodes stands for a row of that list. */
  lemma SharedMember(e: Edge, found: seq<Node>, few: seq<Row>, i: nat, others: seq<Node>, all: seq<Row>,
                     id: ID, stored: seq<Row>) returns (j: nat)
    requires StandFor(e, found, few) && StandFor(e, others, all) && DistinctIDs(stored)
    requires RowsWithin(few, stored) && RowsWithin(all, stored)
    requires i < |found| && NodeKey(e, found[i]) == Some(id) && Group(e, found, id) == Group(e, others, id)
    ensures j < |all| && all[j] == few[i] && others[j] == found[i]
  {
    GroupMembers(e, found, id, found[i]);
    GroupMembers(e, others, id, found[i]);
    j :| 0 <= j < |others| && others[j] == found[i];
    assert few[i] in stored && all[j] in stored && few[i].id == all[j].id;
  }

  lemma CutAgrees(e: Edge, few: seq<ID>, alike: seq<ID>, found: seq<Node>, fewRows: seq<Row>,
                  others: seq<Node>, allRows: seq<Row>)
    requires StandFor(e, found, fewRows) && StandFor(e, others, allRows) && DistinctIDs(allRows)
    requires AllKeyed(e, few, fewRows) && fewRows == Seen(e, alike, allRows)
    ensures PartGroups(e, few, alike, found, others) <==> NodesAgree(found, fewRows, others, allRows)
  {
    hide Group, ByKey, Seen;
    forall i | 0 <= i < |fewRows| ensures fewRows[i] in allRows && EdgeKey(e, fewRows[i]).value in alike {
      assert fewRows[i] in fewRows;
      SeenMembers(e, alike, allRows, fewRows[i]);
    }
    if NodesAgree(found, fewRows, others, allRows) {
      forall i | 0 <= i < |few|
        ensures Group(e, found, few[i]) == if few[i] in alike then Group(e, others, few[i]) else []
      {
        ByKeySeen(e, alike, few[i], allRows);
        if few[i] in alike {
          GroupFromNodes(e, found, fewRows, others, allRows, few[i]);
        } else {
          GroupRows(e, found, fewRows, few[i]);
          assert |IDsOf(Group(e, found, few[i]))| == 0;
        }
      }
    }
    if PartGroups(e, few, alike, found, others) {
      forall i, j | 0 <= i < |fewRows| && 0 <= j < |allRows| && fewRows[i] == allRows[j]
        ensures found[i] == others[j]
      {
        var id := EdgeKey(e, fewRows[i]).value;
        var t :| 0 <= t < |few| && few[t] == id;
        assert Group(e, found, few[t]) == Group(e, others, few[t]);
        var m := SharedMember(e, found, fewRows, i, others, allRows, id, allRows);
        assert allRows[m].id == allRows[j].id;
      }
    }
  }

  /** If the groups are as stated, so are the rows. */
  lemma GroupsCut(e: Edge, from: nat, kept: Option<nat>, few: seq<ID>, alike: seq<ID>, stored: seq<Row>,
                  found: seq<Node>, others: seq<Node>)
    requires DistinctIDs(stored) && AllKeyed(e, few, Seen(e, few, stored)) && Within(alike, few)
    requires StandFor(e, found, Window(from, kept, Seen(e, few, stored)))
    requires StandFor(e, others, Window(from, kept, stored))
    requires PartGroups(e, few, alike, found, others)
    ensures SameCut(e, from, kept, few, alike, stored)
  {
    hide Group, Seen, Window, Sub;
    var seen := Seen(e, few, stored);
    var fewRows, allRows := Window(from, kept, seen), Window(from, kept, stored);
    var part := Seen(e, alike, allRows);
    CutsSub(e, from, kept, few, alike, stored);
    SubWindow(from, kept, stored);
    forall r | r in fewRows ensures r in stored { SubMembers(fewRows, stored, r); }
    forall r | r in allRows ensures r in stored { SubMembers(allRows, stored, r); }
    WindowMembers(from, kept, seen);
    forall r ensures r in fewRows <==> r in part {
      SeenMembers(e, alike, allRows, r);
      if r in fewRows {
        var i :| 0 <= i < |fewRows| && fewRows[i] == r;
        var id := EdgeKey(e, r).value;
        var t :| 0 <= t < |few| && few[t] == id;
        GroupMembers(e, found, id, found[i]);
        assert Group(e, found, few[t]) != [];
        var j := SharedMember(e, found, fewRows, i, others, allRows, id, stored);
      }
      if r in part {
        var j :| 0 <= j < |allRows| && allRows[j] == r;
        var id := EdgeKey(e, r).value;
        var s :| 0 <= s < |alike| && alike[s] == id;
        assert alike[s] in few;
        var t :| 0 <= t < |few| && few[t] == id;
        assert Group(e, found, few[t]) == Group(e, others, few[t]);
        var i := SharedMember(e, others, allRows, j, found, fewRows, id, stored);
      }
    }
    assert SameMembers(fewRows, part);
    SubEqual(fewRows, part, stored);
  }

  lemma {:induction false} GroupsPart(db: Database, e: Edge, nested: Query, few: seq<ID>, alike: seq<ID>, all: seq<ID>)
    requires PrimaryKeys(db) && EdgeFits(e, nested) && WellFormed(nested) && FieldsValid(nested)
    requires few != [] && Within(few, all) && Within(alike, few)
    ensures All(db, Ask(e, nested, few)).result.Ok? && All(db, Ask(e, nested, all)).result.Ok?
    ensures PartGroups(e, few, alike, All(db, Ask(e, nested, few)).result.value,
                       All(db, Ask(e, nested, all)).result.value) <==>
            AskedAlike(db, e, nested, few, alike, all)
    decreases nested.with, 1
  {
    hide NodeRows, All, Window, Stored, Seen, PartAlike, From, Kept;
    var p, q := Ask(e, nested, few), Ask(e, nested, all);
    var stored := Stored(db, q);
    AllIsEager(db, p);
    AllIsEager(db, q);
    FoundNodes(db, e, nested, few);
    FoundNodes(db, e, nested, all);
    FoundRows(db, e, nested, few);
    PartRows(db, e, nested, few, all);
    NestedRows(db, q);
    StoredDistinct(db, q);
    SeenKeyed(e, few, stored);
    var found, others := All(db, p).result.value, All(db, q).result.value;
    if SameCut(e, From(nested), Kept(nested), few, alike, stored) {
      CutAgrees(e, few, alike, found, NodeRows(db, p), others, NodeRows(db, q));
      CutWithin(e, alike, NodeRows(db, q));
      PartExact(db, p, q);
    } else if PartGroups(e, few, alike, found, others) {
      GroupsCut(e, From(nested), Kept(nested), few, alike, stored, found, others);
    }
  }

  lemma SeenKeyed(e: Edge, few: seq<ID>, rows: seq<Row>)
    ensures AllKeyed(e, few, Seen(e, few, rows))
  {
    forall i | 0 <= i < |Seen(e, few, rows)|
      ensures EdgeKey(e, Seen(e, few, rows)[i]).Some? && EdgeKey(e, Seen(e, few, rows)[i]).value in few
    {
      SeenMembers(e, few, rows, Seen(e, few, rows)[i]);
    }
  }

  lemma CutWithin(e: Edge, alike: seq<ID>, rows: seq<Row>)
    ensures RowsWithin(Seen(e, alike, rows), rows)
  {
    forall i | 0 <= i < |Seen(e, alike, rows)| ensures Seen(e, alike, rows)[i] in rows {
      SeenMembers(e, alike, rows, Seen(e, alike, rows)[i]);
    }
  }

  // ---------- whole nested runs ----------

  predicate LinkPart(db: Database, p: Query, q: Query, few: seq<Row>, all: seq<Row>, i: nat, j: nat, k: nat)
    requires i < |few| && j < |all| && k < |p.with| && k < |q.with|
  {
    EagerLink(db, p, few, i, k) == EagerLink(db, q, all, j, k)
  }

  /** Where the two runs fetched the same row, edge k leads to the same nodes. */
  predicate LinksPart(db: Database, p: Query, q: Query, few: seq<Row>, all: seq<Row>, k: nat)
    requires k < |p.with| && k < |q.with|
  {
    forall i, j | 0 <= i < |few| && 0 <= j < |all| && few[i] == all[j] :: LinkPart(db, p, q, few, all, i, j, k)
  }

  lemma DistinctServed(e: Edge, rows: seq<Row>, i: nat)
    requires DistinctIDs(rows) && i < |rows|
    ensures Served(e, rows, i)
  {
  }

  lemma AskedWithin(e: Edge, few: seq<Row>, all: seq<Row>)
    requires RowsWithin(few, all)
    ensures Within(AskedIDs(e, few), AskedIDs(e, all))
  {
    var ids := AskedIDs(e, few);
    forall t | 0 <= t < |ids| ensures ids[t] in AskedIDs(e, all) {
      AskedExact(e, few, ids[t]);
      AskedExact(e, all, ids[t]);
      var i :| 0 <= i < |few| && LinkKey(e, few[i]) == Some(ids[t]);
      assert few[i] in all;
      var j :| 0 <= j < |all| && all[j] == few[i];
      assert LinkKey(e, all[j]) == Some(ids[t]);
    }
  }

  lemma {:induction false} EdgePartExact(db: Database, p: Query, q: Query, k: nat)
    requires PrimaryKeys(db) && WellFormed(q) && FieldsValid(q) && p == q.(predicates := p.predicates) && Loads(q, k)
    requires DistinctIDs(NodeRows(db, p)) && DistinctIDs(NodeRows(db, q))
    requires RowsWithin(NodeRows(db, p), NodeRows(db, q))
    ensures LinksPart(db, p, q, NodeRows(db, p), NodeRows(db, q), k) <==>
            EdgePart(db, q.entity.edges[k], q.with[k].value, NodeRows(db, p), NodeRows(db, q))
    decreases q.with[k].value.with, 2
  {
    hide NodeRows, All, SameCut, PartAlike;
    var e, nested := q.entity.edges[k], q.with[k].value;
    var few, all := NodeRows(db, p), NodeRows(db, q);
    var ids, most := AskedIDs(e, few), AskedIDs(e, all);
    AskedWithin(e, few, all);
    if ids == [] {
      forall i, j | 0 <= i < |few| && 0 <= j < |all| && few[i] == all[j] ensures LinkPart(db, p, q, few, all, i, j, k) {
        if LinkKey(e, few[i]).Some? { AskedExact(e, few, LinkKey(e, few[i]).value); }
      }
    } else {
      assert most != [] by { assert ids[0] in most; }
      GroupsPart(db, e, nested, ids, ids, most);
      PartLinks(db, p, q, k);
    }
  }

  lemma PartLinks(db: Database, p: Query, q: Query, k: nat)
    requires PrimaryKeys(db) && WellFormed(q) && FieldsValid(q) && p == q.(predicates := p.predicates) && Loads(q, k)
    requires DistinctIDs(NodeRows(db, p)) && DistinctIDs(NodeRows(db, q))
    requires RowsWithin(NodeRows(db, p), NodeRows(db, q))
    requires var e, nested := q.entity.edges[k], q.with[k].value;
             && AskedIDs(e, NodeRows(db, p)) != [] && AskedIDs(e, NodeRows(db, q)) != []
             && All(db, Ask(e, nested, AskedIDs(e, NodeRows(db, p)))).result.Ok?
             && All(db, Ask(e, nested, AskedIDs(e, NodeRows(db, q)))).result.Ok?
    ensures var e, nested, few, all := q.entity.edges[k], q.with[k].value, NodeRows(db, p), NodeRows(db, q);
            LinksPart(db, p, q, few, all, k) <==>
            PartGroups(e, AskedIDs(e, few), AskedIDs(e, few), Found(db, e, nested, few), Found(db, e, nested, all))
  {
    hide NodeRows, All;
    var e, nested, few, all := q.entity.edges[k], q.with[k].value, NodeRows(db, p), NodeRows(db, q);
    var ids, found, others := AskedIDs(e, few), Found(db, e, nested, few), Found(db, e, nested, all);
    if PartGroups(e, ids, ids, found, others) {
      forall i, j | 0 <= i < |few| && 0 <= j < |all| && few[i] == all[j] ensures LinkPart(db, p, q, few, all, i, j, k) {
        DistinctServed(e, few, i);
        DistinctServed(e, all, j);
        if LinkKey(e, few[i]).Some? {
          AskedExact(e, few, LinkKey(e, few[i]).value);
          var t :| 0 <= t < |ids| && ids[t] == LinkKey(e, few[i]).value;
          assert Group(e, found, ids[t]) == Group(e, others, ids[t]);
        }
      }
    }
    if LinksPart(db, p, q, few, all, k) {
      forall t | 0 <= t < |ids| ensures Group(e, found, ids[t]) == Group(e, others, ids[t]) {
        var i := ServedRow(e, few, ids[t]);
        assert few[i] in all;
        var j :| 0 <= j < |all| && all[j] == few[i];
        DistinctServed(e, all, j);
        assert LinkPart(db, p, q, few, all, i, j, k);
        if e.kind == ManyToOne {
          OneFoundEach(db, e, nested, ids, ids[t]);
          OneFoundEach(db, e, nested, AskedIDs(e, all), ids[t]);
        }
        LinkOfExact(e, Group(e, found, ids[t]), Group(e, others, ids[t]));
      }
    }
  }

  /** Two runs of one builder under different predicates, the first over some of the rows of the second. */
  lemma {:induction false} PartExact(db: Database, p: Query, q: Query)
    requires PrimaryKeys(db) && WellFormed(q) && FieldsValid(q) && p == q.(predicates := p.predicates)
    requires p.path.None? && RowsWithin(NodeRows(db, p), NodeRows(db, q))
    ensures All(db, p).result.Ok? && All(db, q).result.Ok?
    ensures NodesAgree(All(db, p).result.value, NodeRows(db, p), All(db, q).result.value, NodeRows(db, q)) <==>
            PartAlike(db, p, q)
    decreases q.with, 0
  {
    hide NodeRows, All, LinkPart, EagerLink, EdgePart;
    var few, all := NodeRows(db, p), NodeRows(db, q);
    NestedRows(db, p);
    NestedRows(db, q);
    AllIsEager(db, p);
    AllIsEager(db, q);
    var a, b := EagerNodes(db, p), EagerNodes(db, q);
    forall k | 0 <= k < |q.with|
      ensures LinksPart(db, p, q, few, all, k) <==>
              (Loads(q, k) ==> EdgePart(db, q.entity.edges[k], q.with[k].value, few, all))
    {
      if Loads(q, k) { EdgePartExact(db, p, q, k); } else { UnloadedPart(db, p, q, few, all, k); }
    }
    NodesFromLinks(db, p, q, few, all);
  }

  lemma NodesFromLinks(db: Database, p: Query, q: Query, few: seq<Row>, all: seq<Row>)
    requires |p.with| == |q.with| && forall r :: Decode(p, r) == Decode(q, r)
    ensures NodesAgree(Partial(db, p, few, |p.with|), few, Partial(db, q, all, |q.with|), all) <==>
            forall k | 0 <= k < |q.with| :: LinksPart(db, p, q, few, all, k)
  {
    hide LinkPart, EagerLink, Decode;
    var a, b := Partial(db, p, few, |p.with|), Partial(db, q, all, |q.with|);
    forall i, j | 0 <= i < |few| && 0 <= j < |all| && few[i] == all[j]
      ensures a[i] == b[j] <==> forall k | 0 <= k < |q.with| :: LinkPart(db, p, q, few, all, i, j, k)
    {
      NodePart(db, p, q, few, all, i, j);
    }
    if forall k | 0 <= k < |q.with| :: LinksPart(db, p, q, few, all, k) {
      forall i, j | 0 <= i < |few| && 0 <= j < |all| && few[i] == all[j] ensures a[i] == b[j] {
        forall k | 0 <= k < |q.with| ensures LinkPart(db, p, q, few, all, i, j, k) {
          assert LinksPart(db, p, q, few, all, k);
        }
      }
    }
    if NodesAgree(a, few, b, all) {
      forall k | 0 <= k < |q.with| ensures LinksPart(db, p, q, few, all, k) { }
    }
  }

  lemma UnloadedPart(db: Database, p: Query, q: Query, few: seq<Row>, all: seq<Row>, k: nat)
    requires p.with == q.with && p.entity == q.entity && k < |q.with| && !Loads(q, k)
    ensures LinksPart(db, p, q, few, all, k)
  {
  }

  lemma NodePart(db: Database, p: Query, q: Query, few: seq<Row>, all: seq<Row>, i: nat, j: nat)
    requires i < |few| && j < |all| && few[i] == all[j] && |p.with| == |q.with|
    requires Decode(p, few[i]) == Decode(q, all[j])
    ensures PartialNode(db, p, few, |p.with|, i) == PartialNode(db, q, all, |q.with|, j) <==>
            forall k | 0 <= k < |q.with| :: LinkPart(db, p, q, few, all, i, j, k)
  {
    hide EagerLink;
    var a, b := PartialNode(db, p, few, |p.with|, i), PartialNode(db, q, all, |q.with|, j);
    forall k | 0 <= k < |q.with|
      ensures a.links[k] == EagerLink(db, p, few, i, k) && b.links[k] == EagerLink(db, q, all, j, k)
    {
    }
    if forall k | 0 <= k < |q.with| :: LinkPart(db, p, q, few, all, i, j, k) {
      forall k | 0 <= k < |q.with| ensures a.links[k] == b.links[k] {
        assert LinkPart(db, p, q, few, all, i, j, k);
      }
      assert a.links == b.links;
    }
  }

  // ---------- the conditions spelled out ----------

  predicate AllSeen(e: Edge, seen: seq<ID>, rows: seq<Row>) {
    forall i | 0 <= i < |rows| :: EdgeKey(e, rows[i]).Some? && EdgeKey(e, rows[i]).value in seen
  }

  predicate NoneSeen(e: Edge, seen: seq<ID>, rows: seq<Row>) {
    forall i | 0 <= i < |rows| :: EdgeKey(e, rows[i]).Some? ==> EdgeKey(e, rows[i]).value !in seen
  }

  /**
   The offset may skip everything. If all rows it skips are for the few ids, then so must be all rows of
   the window, or none behind it; otherwise none of the window is, and too few are for the offset to reach.
   */
  predicate CutAlike(e: Edge, from: nat, kept: Option<nat>, few: seq<ID>, rows: seq<Row>) {
    |rows| <= from ||
    var to := End(from, kept, |rows|);
    if AllSeen(e, few, rows[..from])
    then AllSeen(e, few, rows[from..to]) || NoneSeen(e, few, rows[to..])
    else NoneSeen(e, few, rows[from..to]) && |Seen(e, few, rows)| <= from
  }

  lemma SeenSome(e: Edge, seen: seq<ID>, rows: seq<Row>)
    ensures |Seen(e, seen, rows)| <= |rows|
    ensures AllSeen(e, seen, rows) <==> |Seen(e, seen, rows)| == |rows|
    ensures AllSeen(e, seen, rows) ==> Seen(e, seen, rows) == rows
    ensures NoneSeen(e, seen, rows) <==> Seen(e, seen, rows) == []
  {
    SeenLength(e, seen, rows);
    if Seen(e, seen, rows) != [] { SeenMembers(e, seen, rows, Seen(e, seen, rows)[0]); }
    forall i | 0 <= i < |rows| && EdgeKey(e, rows[i]).Some? && EdgeKey(e, rows[i]).value in seen
      ensures Seen(e, seen, rows) != []
    {
      SeenMembers(e, seen, rows, rows[i]);
    }
  }

  lemma CutExact(e: Edge, from: nat, kept: Option<nat>, few: seq<ID>, rows: seq<Row>)
    requires DistinctIDs(rows) && kept != Some(0)
    ensures SameCut(e, from, kept, few, few, rows) <==> CutAlike(e, from, kept, few, rows)
  {
    hide Window, Seen, AllSeen, NoneSeen;
    var seen := Seen(e, few, rows);
    SeenSome(e, few, rows);
    WindowHead(from, kept, rows);
    WindowHead(from, kept, seen);
    SeenLength(e, few, rows);
    if |rows| <= from {
      SeenLength(e, few, []);
    } else {
      var to := End(from, kept, |rows|);
      WindowIsSlice(from, kept, rows);
      SeenSplit(e, few, rows, from);
      SeenSplit(e, few, rows[from..], to - from);
      assert rows[from..][..to - from] == rows[from..to] && rows[from..][to - from..] == rows[to..];
      SeenSome(e, few, rows[..from]);
      SeenSome(e, few, rows[from..to]);
      SeenSome(e, few, rows[to..]);
      SeenDistinct(e, few, rows);
      CutParts(from, kept, |rows|, Seen(e, few, rows[..from]), Seen(e, few, rows[from..to]),
               Seen(e, few, rows[to..]), seen);
    }
  }

  /** The window of the seen rows, by how many of them lie before, in and behind the window of all rows. */
  lemma CutParts(from: nat, kept: Option<nat>, n: nat, before: seq<Row>, inside: seq<Row>, behind: seq<Row>,
                 seen: seq<Row>)
    requires from < n && kept != Some(0) && seen == before + (inside + behind) && DistinctIDs(seen)
    requires |before| <= from && |inside| <= End(from, kept, n) - from && |behind| <= n - End(from, kept, n)
    ensures Window(from, kept, seen) == inside <==>
            if |before| == from then |inside| == End(from, kept, n) - from || behind == []
            else inside == [] && |seen| <= from
  {
    hide Window;
    var to := End(from, kept, n);
    WindowHead(from, kept, seen);
    if |before| == from {
      WindowIsSlice(from, kept, seen);
      var cut := End(from, kept, |seen|);
      assert seen[from..cut] == (inside + behind)[..cut - from];
      if |inside| == to - from || behind == [] { assert (inside + behind)[..cut - from] == inside; }
    } else if inside != [] && |seen| > from {
      assert seen[|before|] == inside[0];
      assert seen[|before|].id != seen[from].id;
    }
  }
}
