/**
 A run over the first rows of another run, as `First` makes one by setting a limit:
 exactly when it loads those rows as the other run does.
 */
module EagerPrefix {
  import opened Base
  import opened Store
  import opened StoreLemmas
  import opened QueryTree
  import opened EagerSpec
  import opened EagerIndex
  import opened EagerRows
  import opened EagerJoin
  import opened EagerLinks
  import opened EagerWindows
  import opened EagerExact
  import opened EagerStale
  import opened EagerPart

  // ---------- the first rows of a root ----------

  function Except(ids: seq<ID>, others: seq<ID>): seq<ID> {
    if ids == [] then []
    else
      var n := |ids| - 1;
      if ids[n] in others then Except(ids[..n], others) else Except(ids[..n], others) + [ids[n]]
  }

  lemma {:induction false} ExceptExact(ids: seq<ID>, others: seq<ID>, id: ID)
    ensures id in Except(ids, others) <==> id in ids && id !in others
  {
    if ids != [] {
      ExceptExact(ids[..|ids| - 1], others, id);
      assert ids == ids[..|ids| - 1] + [ids[|ids| - 1]];
    }
  }

  /** The ids of the first n rows that one-to-many loading still serves there: those that do not occur again later. */
  function AlikeIDs(e: Edge, rows: seq<Row>, n: nat): seq<ID>
    requires n <= |rows|
  {
    match e.kind
    case OneToMany => Except(RowIDs(rows[..n]), RowIDs(rows[n..]))
    case ManyToOne => AskedIDs(e, rows[..n])
  }

  /**
   A limit of n loads the first n rows as no limit does: at every edge the window leaves, for their
   ids, what it leaves of the rows for all ids, nothing is found for an id that occurs again beyond
   the limit, and so on below.
   */
  ghost predicate PrefixAlike(db: Database, q: Query, n: nat) {
    var rows := NodeRows(db, q);
    |rows| <= n ||
    forall k | 0 <= k < |q.with| && Loads(q, k) :: PrefixEdge(db, q.entity.edges[k], q.with[k].value, rows, n)
  }

  ghost predicate PrefixEdge(db: Database, e: Edge, nested: Query, rows: seq<Row>, n: nat)
    requires n <= |rows|
  {
    AskedAlike(db, e, nested, AskedIDs(e, rows[..n]), AlikeIDs(e, rows, n), AskedIDs(e, rows))
  }

  lemma AlikeExact(e: Edge, rows: seq<Row>, n: nat, id: ID)
    requires n <= |rows|
    ensures id in AlikeIDs(e, rows, n) <==>
            id in AskedIDs(e, rows[..n]) && (e.kind == OneToMany ==> id !in RowIDs(rows[n..]))
  {
    if e.kind == OneToMany { ExceptExact(RowIDs(rows[..n]), RowIDs(rows[n..]), id); }
  }

  lemma PrefixWithin(e: Edge, rows: seq<Row>, n: nat)
    requires n <= |rows|
    ensures Within(AskedIDs(e, rows[..n]), AskedIDs(e, rows))
    ensures Within(AlikeIDs(e, rows, n), AskedIDs(e, rows[..n]))
  {
    forall i | 0 <= i < n ensures rows[..n][i] in rows { }
    AskedWithin(e, rows[..n], rows);
    var ids := AlikeIDs(e, rows, n);
    forall t | 0 <= t < |ids| ensures ids[t] in AskedIDs(e, rows[..n]) { AlikeExact(e, rows, n, ids[t]); }
  }

  predicate PrefixLink(db: Database, q: Query, rows: seq<Row>, n: nat, i: nat, k: nat)
    requires i < n <= |rows| && k < |q.with|
  {
    EagerLink(db, q, rows[..n], i, k) == EagerLink(db, q, rows, i, k)
  }

  predicate PrefixLinks(db: Database, q: Query, rows: seq<Row>, n: nat, k: nat)
    requires n <= |rows| && k < |q.with|
  {
    forall i | 0 <= i < n :: PrefixLink(db, q, rows, n, i, k)
  }

  /** A row of the prefix is served in the whole list exactly when it is served in the prefix and is alike. */
  lemma ServedPrefix(e: Edge, rows: seq<Row>, n: nat, i: nat)
    requires i < n <= |rows| && LinkKey(e, rows[i]).Some?
    ensures Served(e, rows, i) <==>
            Served(e, rows[..n], i) && LinkKey(e, rows[i]).value in AlikeIDs(e, rows, n)
  {
    var id := LinkKey(e, rows[i]).value;
    AlikeExact(e, rows, n, id);
    AskedExact(e, rows[..n], id);
    assert LinkKey(e, rows[..n][i]) == Some(id);
    if e.kind == OneToMany {
      if id in RowIDs(rows[n..]) {
        var t :| 0 <= t < |rows| - n && RowIDs(rows[n..])[t] == id;
        assert rows[n + t].id == rows[i].id;
      }
      forall j | n <= j < |rows| && rows[j].id == id ensures id in RowIDs(rows[n..]) {
        assert RowIDs(rows[n..])[j - n] == id;
      }
      forall j | i < j < n ensures rows[..n][j] == rows[j] { }
    }
  }

  lemma PrefixEdgeExact(db: Database, q: Query, rows: seq<Row>, n: nat, k: nat)
    requires PrimaryKeys(db) && WellFormed(q) && FieldsValid(q) && Loads(q, k) && 0 < n <= |rows|
    ensures PrefixLinks(db, q, rows, n, k) <==> PrefixEdge(db, q.entity.edges[k], q.with[k].value, rows, n)
  {
    hide All, SameCut, PartAlike, AlikeIDs;
    var e, nested := q.entity.edges[k], q.with[k].value;
    var few, alike, all := AskedIDs(e, rows[..n]), AlikeIDs(e, rows, n), AskedIDs(e, rows);
    PrefixWithin(e, rows, n);
    if few == [] {
      forall i | 0 <= i < n ensures PrefixLink(db, q, rows, n, i, k) {
        assert rows[..n][i] == rows[i];
        if LinkKey(e, rows[i]).Some? { AskedExact(e, rows[..n], LinkKey(e, rows[i]).value); }
      }
    } else {
      assert all != [] by { assert few[0] in all; }
      GroupsPart(db, e, nested, few, alike, all);
      PrefixGroups(db, q, rows, n, k);
    }
  }

  lemma PrefixGroups(db: Database, q: Query, rows: seq<Row>, n: nat, k: nat)
    requires PrimaryKeys(db) && WellFormed(q) && FieldsValid(q) && Loads(q, k) && 0 < n <= |rows|
    requires var e, nested := q.entity.edges[k], q.with[k].value;
             && AskedIDs(e, rows[..n]) != [] && AskedIDs(e, rows) != []
             && All(db, Ask(e, nested, AskedIDs(e, rows[..n]))).result.Ok?
             && All(db, Ask(e, nested, AskedIDs(e, rows))).result.Ok?
    ensures var e, nested := q.entity.edges[k], q.with[k].value;
            PrefixLinks(db, q, rows, n, k) <==>
            PartGroups(e, AskedIDs(e, rows[..n]), AlikeIDs(e, rows, n),
                       Found(db, e, nested, rows[..n]), Found(db, e, nested, rows))
  {
    hide All, AlikeIDs, Served;
    var e, nested := q.entity.edges[k], q.with[k].value;
    var few, alike := AskedIDs(e, rows[..n]), AlikeIDs(e, rows, n);
    var found, others := Found(db, e, nested, rows[..n]), Found(db, e, nested, rows);
    if PartGroups(e, few, alike, found, others) {
      forall i | 0 <= i < n ensures PrefixLink(db, q, rows, n, i, k) {
        assert rows[..n][i] == rows[i];
        if LinkKey(e, rows[i]).Some? {
          ServedPrefix(e, rows, n, i);
          AskedExact(e, rows[..n], LinkKey(e, rows[i]).value);
          var t :| 0 <= t < |few| && few[t] == LinkKey(e, rows[i]).value;
          assert Group(e, found, few[t]) == if few[t] in alike then Group(e, others, few[t]) else [];
        }
      }
    }
    if PrefixLinks(db, q, rows, n, k) {
      forall t | 0 <= t < |few|
        ensures Group(e, found, few[t]) == if few[t] in alike then Group(e, others, few[t]) else []
      {
        var i := ServedRow(e, rows[..n], few[t]);
        ServedPrefix(e, rows, n, i);
        assert PrefixLink(db, q, rows, n, i, k);
        if e.kind == ManyToOne {
          OneFoundEach(db, e, nested, few, few[t]);
          OneFoundEach(db, e, nested, AskedIDs(e, rows), few[t]);
        }
        LinkOfExact(e, Group(e, found, few[t]), if few[t] in alike then Group(e, others, few[t]) else []);
      }
    }
  }

  /** The first n nodes of a run over these rows, and the nodes of a run over the first n rows. */
  lemma PrefixNodes(db: Database, q: Query, rows: seq<Row>, n: nat)
    requires PrimaryKeys(db) && WellFormed(q) && FieldsValid(q) && 0 < n <= |rows|
    ensures Partial(db, q, rows[..n], |q.with|) == Partial(db, q, rows, |q.with|)[..n] <==>
            forall k | 0 <= k < |q.with| && Loads(q, k) :: PrefixEdge(db, q.entity.edges[k], q.with[k].value, rows, n)
  {
    hide PrefixLink, PrefixEdge, EagerLink;
    var a, b := Partial(db, q, rows[..n], |q.with|), Partial(db, q, rows, |q.with|);
    forall k | 0 <= k < |q.with|
      ensures PrefixLinks(db, q, rows, n, k) <==>
              (Loads(q, k) ==> PrefixEdge(db, q.entity.edges[k], q.with[k].value, rows, n))
    {
      if Loads(q, k) { PrefixEdgeExact(db, q, rows, n, k); } else { UnloadedPrefix(db, q, rows, n, k); }
    }
    forall i | 0 <= i < n
      ensures a[i] == b[i] <==> forall k | 0 <= k < |q.with| :: PrefixLink(db, q, rows, n, i, k)
    {
      PrefixNode(db, q, rows, n, i);
    }
    if forall k | 0 <= k < |q.with| :: PrefixLinks(db, q, rows, n, k) {
      forall i | 0 <= i < n ensures a[i] == b[..n][i] {
        forall k | 0 <= k < |q.with| ensures PrefixLink(db, q, rows, n, i, k) {
          assert PrefixLinks(db, q, rows, n, k);
        }
      }
      assert a == b[..n];
    }
    if a == b[..n] {
      forall k | 0 <= k < |q.with| ensures PrefixLinks(db, q, rows, n, k) {
        forall i | 0 <= i < n ensures PrefixLink(db, q, rows, n, i, k) { assert a[i] == b[..n][i]; }
      }
    }
  }

  lemma UnloadedPrefix(db: Database, q: Query, rows: seq<Row>, n: nat, k: nat)
    requires n <= |rows| && k < |q.with| && !Loads(q, k)
    ensures PrefixLinks(db, q, rows, n, k)
  {
  }

  lemma PrefixNode(db: Database, q: Query, rows: seq<Row>, n: nat, i: nat)
    requires i < n <= |rows|
    ensures PartialNode(db, q, rows[..n], |q.with|, i) == PartialNode(db, q, rows, |q.with|, i) <==>
            forall k | 0 <= k < |q.with| :: PrefixLink(db, q, rows, n, i, k)
  {
    hide EagerLink;
    assert rows[..n][i] == rows[i];
    var a, b := PartialNode(db, q, rows[..n], |q.with|, i), PartialNode(db, q, rows, |q.with|, i);
    forall k | 0 <= k < |q.with|
      ensures a.links[k] == EagerLink(db, q, rows[..n], i, k) && b.links[k] == EagerLink(db, q, rows, i, k)
    {
    }
    if forall k | 0 <= k < |q.with| :: PrefixLink(db, q, rows, n, i, k) {
      forall k | 0 <= k < |q.with| ensures a.links[k] == b.links[k] {
        assert PrefixLink(db, q, rows, n, i, k);
      }
      assert a.links == b.links;
    }
  }

  // ---------- without nested windows ----------

  lemma {:induction false} WindowlessPart(db: Database, p: Query, q: Query)
    requires NestedWindowless(q)
    ensures PartAlike(db, p, q)
    decreases q.with
  {
    hide NodeRows, Stored;
    var few, all := NodeRows(db, p), NodeRows(db, q);
    forall k | 0 <= k < |q.with| && Loads(q, k)
      ensures EdgePart(db, q.entity.edges[k], q.with[k].value, few, all)
    {
      var e, nested := q.entity.edges[k], q.with[k].value;
      var ids := AskedIDs(e, few);
      NoWindow(Seen(e, ids, Stored(db, Ask(e, nested, AskedIDs(e, all)))));
      NoWindow(Stored(db, Ask(e, nested, AskedIDs(e, all))));
      WindowlessPart(db, Ask(e, nested, ids), Ask(e, nested, AskedIDs(e, all)));
    }
  }

  lemma NoWindow(rows: seq<Row>)
    ensures Window(0, None, rows) == rows
  {
  }

  /** A row that is the last of its id among the first n rows but not among all, and has children. */
  ghost predicate GainsChildren(db: Database, q: Query, rows: seq<Row>, n: nat, i: nat, k: nat)
    requires i < n <= |rows| && k < |q.with|
  {
    IsLastRow(rows[..n], i) && LosesChildren(db, q, rows, i, k)
  }

  ghost predicate NoneGains(db: Database, q: Query, rows: seq<Row>, n: nat, k: nat)
    requires n <= |rows| && k < |q.with|
  {
    forall i | 0 <= i < n :: !GainsChildren(db, q, rows, n, i, k)
  }

  /** Without nested windows a limit loads the first n rows alike exactly when none of them gains children. */
  lemma WindowlessPrefix(db: Database, q: Query, n: nat)
    requires PrimaryKeys(db) && WellFormed(q) && NestedWindowless(q) && 0 < n
    ensures PrefixAlike(db, q, n) <==>
            var rows := NodeRows(db, q);
            |rows| <= n || forall k | 0 <= k < |q.with| :: NoneGains(db, q, rows, n, k)
  {
    hide NodeRows, NoneGains, PrefixEdge;
    var rows := NodeRows(db, q);
    if n < |rows| {
      forall k | 0 <= k < |q.with|
        ensures (Loads(q, k) ==> PrefixEdge(db, q.entity.edges[k], q.with[k].value, rows, n)) <==>
                NoneGains(db, q, rows, n, k)
      {
        WindowlessEdge(db, q, rows, n, k);
      }
    }
  }

  lemma WindowlessEdge(db: Database, q: Query, rows: seq<Row>, n: nat, k: nat)
    requires PrimaryKeys(db) && WellFormed(q) && NestedWindowless(q) && 0 < n < |rows| && k < |q.with|
    ensures (Loads(q, k) ==> PrefixEdge(db, q.entity.edges[k], q.with[k].value, rows, n)) <==>
            NoneGains(db, q, rows, n, k)
  {
    hide NodeRows, Stored, Join, Seen, AlikeIDs;
    if Loads(q, k) {
      var e, nested := q.entity.edges[k], q.with[k].value;
      var few, alike, all := AskedIDs(e, rows[..n]), AlikeIDs(e, rows, n), AskedIDs(e, rows);
      var stored := Stored(db, Ask(e, nested, all));
      PrefixWithin(e, rows, n);
      NoWindow(Seen(e, few, stored));
      NoWindow(stored);
      WindowlessPart(db, Ask(e, nested, few), Ask(e, nested, all));
      if NoneGains(db, q, rows, n, k) {
        forall r | r in stored
          ensures EdgeKey(e, r).Some? && EdgeKey(e, r).value in few ==> EdgeKey(e, r).value in alike
        {
          if EdgeKey(e, r).Some? && EdgeKey(e, r).value in few {
            var id := EdgeKey(e, r).value;
            var i := ServedRow(e, rows[..n], id);
            ServedPrefix(e, rows, n, i);
            HasChildren(db, q, rows, i, k, r);
            assert !GainsChildren(db, q, rows, n, i, k);
          }
        }
        SeenAlike(e, few, alike, stored);
      }
      if PrefixEdge(db, e, nested, rows, n) {
        forall i | 0 <= i < n ensures !GainsChildren(db, q, rows, n, i, k) {
          NoGain(db, q, rows, n, i, k);
        }
      }
    }
  }

  lemma SeenAlike(e: Edge, few: seq<ID>, alike: seq<ID>, rows: seq<Row>)
    requires Within(alike, few)
    requires forall r | r in rows ::
               EdgeKey(e, r).Some? && EdgeKey(e, r).value in few ==> EdgeKey(e, r).value in alike
    ensures Seen(e, few, rows) == Seen(e, alike, rows)
  {
    forall r | r in rows ensures HoldAll([KeyIn(e, few)], r) == HoldAll([KeyIn(e, alike)], r) {
      KeyInHolds(e, few, r);
      KeyInHolds(e, alike, r);
      assert [KeyIn(e, few)][0] == KeyIn(e, few) && [KeyIn(e, alike)][0] == KeyIn(e, alike);
      if EdgeKey(e, r).Some? && EdgeKey(e, r).value in alike {
        var t :| 0 <= t < |alike| && alike[t] == EdgeKey(e, r).value;
      }
    }
    FilterCongruence([KeyIn(e, few)], [KeyIn(e, alike)], rows);
  }

  /** A stored row is in the reference list of the row whose id it has. */
  lemma HasChildren(db: Database, q: Query, rows: seq<Row>, i: nat, k: nat, r: Row)
    requires PrimaryKeys(db) && WellFormed(q) && NestedWindowless(q) && i < |rows| && Loads(q, k)
    requires var e, nested := q.entity.edges[k], q.with[k].value;
             && r in Stored(db, Ask(e, nested, AskedIDs(e, rows)))
             && EdgeKey(e, r).Some? && LinkKey(e, rows[i]) == EdgeKey(e, r) && EdgeKey(e, r).value in AskedIDs(e, rows)
    ensures q.entity.edges[k].kind == OneToMany ==>
              JoinLink(db, q, rows[i], k).Many? && JoinLink(db, q, rows[i], k).list != []
  {
    hide NodeRows, Stored, Join;
    var e, nested := q.entity.edges[k], q.with[k].value;
    var id := EdgeKey(e, r).value;
    JoinLinkIs(db, q, rows[i], k);
    ChildrenStored(db, e, nested, AskedIDs(e, rows), id);
    ByKeyLength(e, id, Stored(db, Ask(e, nested, AskedIDs(e, rows))));
  }

  /** A windowless builder asked for one id finds the stored rows with that key. */
  lemma ChildrenStored(db: Database, e: Edge, nested: Query, all: seq<ID>, id: ID)
    requires PrimaryKeys(db) && nested.path.None? && Windowless(nested) && id in all
    ensures |Join(db, Ask(e, nested, [id]))| == |ByKey(e, id, Stored(db, Ask(e, nested, all)))|
  {
    hide Stored, ByKey;
    var one := Ask(e, nested, [id]);
    NestedRows(db, one);
    NoWindow(Stored(db, one));
    StoredOne(db, e, nested, all, id);
    assert |Join(db, one)| == |NodeRows(db, one)|;
  }

  lemma NoGain(db: Database, q: Query, rows: seq<Row>, n: nat, i: nat, k: nat)
    requires PrimaryKeys(db) && WellFormed(q) && NestedWindowless(q) && i < n < |rows| && Loads(q, k)
    requires PrefixEdge(db, q.entity.edges[k], q.with[k].value, rows, n)
    ensures !GainsChildren(db, q, rows, n, i, k)
  {
    hide NodeRows, Stored, Join, Seen, AlikeIDs, PartAlike;
    var e, nested := q.entity.edges[k], q.with[k].value;
    var few, alike, all := AskedIDs(e, rows[..n]), AlikeIDs(e, rows, n), AskedIDs(e, rows);
    var stored := Stored(db, Ask(e, nested, all));
    JoinLinkIs(db, q, rows[i], k);
    if GainsChildren(db, q, rows, n, i, k) {
      var id := rows[i].id;
      assert LinkKey(e, rows[i]) == Some(id);
      ServedPrefix(e, rows, n, i);
      AskedExact(e, rows[..n], id);
      assert LinkKey(e, rows[..n][i]) == Some(id);
      PrefixWithin(e, rows, n);
      var t :| 0 <= t < |few| && few[t] == id;
      assert few[t] in all;
      ChildrenStored(db, e, nested, all, id);
      ByKeyLength(e, id, stored);
      var j :| 0 <= j < |stored| && EdgeKey(e, stored[j]) == Some(id);
      NoWindow(Seen(e, few, stored));
      NoWindow(stored);
      SeenMembers(e, few, stored, stored[j]);
      SeenMembers(e, alike, stored, stored[j]);
    }
  }
}
