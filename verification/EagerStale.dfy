/**
 A builder that ran keeps the ids its loaders asked for.  Running it again on a
 database that changed since: exactly when it still returns what a fresh
 builder would, after any number of runs on any databases.
 */
module EagerStale {
  import opened Base
  import opened Store
  import opened StoreLemmas
  import opened QueryTree
  import opened EagerSpec
  import opened EagerIndex
  import opened EagerRows
  import opened EagerJoin
  import opened EagerLinks
  import opened EagerWindows
  import opened EagerExact
  import opened EagerRerun

  // ---------- rows that an old list of ids hides ----------

  /** No row up to the end of the window has a key outside the list; an offset may skip all rows anyway. */
  predicate Reached(e: Edge, from: nat, kept: Option<nat>, seen: seq<ID>, rows: seq<Row>) {
    |rows| <= from ||
    forall i | 0 <= i < End(from, kept, |rows|) :: EdgeKey(e, rows[i]).Some? && EdgeKey(e, rows[i]).value in seen
  }

  function Seen(e: Edge, seen: seq<ID>, rows: seq<Row>): seq<Row> {
    Filter([KeyIn(e, seen)], rows)
  }

  lemma SeenMembers(e: Edge, seen: seq<ID>, rows: seq<Row>, r: Row)
    ensures r in Seen(e, seen, rows) <==> r in rows && EdgeKey(e, r).Some? && EdgeKey(e, r).value in seen
  {
    FilterMembers([KeyIn(e, seen)], rows, r);
    KeyInHolds(e, seen, r);
    assert [KeyIn(e, seen)][0] == KeyIn(e, seen);
  }

  lemma {:induction false} SeenLength(e: Edge, seen: seq<ID>, rows: seq<Row>)
    ensures |Seen(e, seen, rows)| <= |rows|
    ensures |Seen(e, seen, rows)| == |rows| <==>
            forall i | 0 <= i < |rows| :: EdgeKey(e, rows[i]).Some? && EdgeKey(e, rows[i]).value in seen
    ensures |Seen(e, seen, rows)| == |rows| ==> Seen(e, seen, rows) == rows
  {
    if rows != [] {
      var n := |rows| - 1;
      SeenLength(e, seen, rows[..n]);
      KeyInHolds(e, seen, rows[n]);
      assert [KeyIn(e, seen)][0] == KeyIn(e, seen);
      assert forall i | 0 <= i < n :: rows[i] == rows[..n][i];
      assert rows == rows[..n] + [rows[n]];
    }
  }

  lemma SeenSplit(e: Edge, seen: seq<ID>, rows: seq<Row>, m: nat)
    requires m <= |rows|
    ensures Seen(e, seen, rows) == Seen(e, seen, rows[..m]) + Seen(e, seen, rows[m..])
  {
    assert rows == rows[..m] + rows[m..];
    FilterAppend([KeyIn(e, seen)], rows[..m], rows[m..]);
  }

  lemma ReachedKeepsWindow(e: Edge, from: nat, kept: Option<nat>, seen: seq<ID>, rows: seq<Row>)
    requires kept != Some(0) && Reached(e, from, kept, seen, rows)
    ensures Window(from, kept, Seen(e, seen, rows)) == Window(from, kept, rows)
  {
    hide Window, Seen;
    SeenLength(e, seen, rows);
    WindowHead(from, kept, rows);
    WindowHead(from, kept, Seen(e, seen, rows));
    if from < |rows| {
      var to := End(from, kept, |rows|);
      SeenSplit(e, seen, rows, to);
      SeenLength(e, seen, rows[..to]);
      SeenLength(e, seen, rows[to..]);
      WindowOfPrefix(from, kept, rows, to, Seen(e, seen, rows[to..]));
      WindowIsSlice(from, kept, rows);
    }
  }

  /** Otherwise some row of the window is missed. */
  lemma UnreachedMisses(e: Edge, from: nat, kept: Option<nat>, seen: seq<ID>, rows: seq<Row>) returns (r: Row)
    requires DistinctIDs(rows) && kept != Some(0) && !Reached(e, from, kept, seen, rows)
    ensures r in Window(from, kept, rows) && r !in Window(from, kept, Seen(e, seen, rows))
  {
    hide Window, Seen;
    var to, rest := End(from, kept, |rows|), Seen(e, seen, rows);
    WindowIsSlice(from, kept, rows);
    WindowMembers(from, kept, rest);
    var i :| 0 <= i < to && !(EdgeKey(e, rows[i]).Some? && EdgeKey(e, rows[i]).value in seen);
    if from <= i {
      r := rows[i];
      assert r == rows[from..to][i - from];
      SeenMembers(e, seen, rows, r);
    } else {
      r := rows[from];
      assert r == rows[from..to][0];
      SeenSplit(e, seen, rows, from);
      SeenLength(e, seen, rows[..from]);
      assert rows[..from][i] == rows[i];
      ShiftedOut(e, from, kept, seen, rows);
    }
  }

  lemma WindowMembers(from: nat, kept: Option<nat>, rows: seq<Row>)
    ensures forall r | r in Window(from, kept, rows) :: exists j :: from <= j < |rows| && rows[j] == r
  {
  }

  /** A row just behind the skipped ones is skipped itself when fewer of those are left. */
  lemma ShiftedOut(e: Edge, from: nat, kept: Option<nat>, seen: seq<ID>, rows: seq<Row>)
    requires DistinctIDs(rows) && from < |rows| && |Seen(e, seen, rows[..from])| < from
    ensures rows[from] !in Window(from, kept, Seen(e, seen, rows))
  {
    hide Window, Seen;
    var r, rest := rows[from], Seen(e, seen, rows);
    WindowMembers(from, kept, rest);
    SeenMembers(e, seen, rows, r);
    if r in rest {
      SeenSplit(e, seen, rows, from);
      SeenSplit(e, seen, rows[from..], 1);
      assert rows[from..][..1] == [r];
      SeenLength(e, seen, [r]);
      var at := |Seen(e, seen, rows[..from])|;
      assert rest[at] == r;
      SeenDistinct(e, seen, rows);
    }
  }

  lemma SeenDistinct(e: Edge, seen: seq<ID>, rows: seq<Row>)
    requires DistinctIDs(rows)
    ensures DistinctIDs(Seen(e, seen, rows))
  {
    FilterKeepsDistinctIDs([KeyIn(e, seen)], rows);
  }

  // ---------- runs that came before ----------

  /** An earlier run of a builder: its database, and the predicates the builder held then. */
  datatype Step = Step(db: Database, predicates: seq<Predicate>)

  /** The builder that these runs leave behind, set to select what q selects. */
  function Used(h: seq<Step>, q: Query): Query {
    if h == [] then q
    else
      var n := |h| - 1;
      All(h[n].db, Used(h[..n], q).(predicates := h[n].predicates)).after.(predicates := q.predicates)
  }

  /** A loader running its nested query for a list of ids. */
  datatype Asking = Asking(db: Database, ids: seq<ID>)

  /** What these runs asked for along one edge, in order; without ids the nested query is not run. */
  function Asked(h: seq<Step>, q: Query, e: Edge): seq<Asking> {
    if h == [] then []
    else
      var n := |h| - 1;
      var prior, ids := Asked(h[..n], q, e), AskedIDs(e, NodeRows(h[n].db, q.(predicates := h[n].predicates)));
      if ids == [] then prior else prior + [Asking(h[n].db, ids)]
  }

  /** A nested builder once it was asked for these. */
  function AfterAsks(e: Edge, nested: Query, asks: seq<Asking>): Query {
    if asks == [] then nested
    else
      var n := |asks| - 1;
      All(asks[n].db, Ask(e, AfterAsks(e, nested, asks[..n]), asks[n].ids)).after
  }

  /** Every list of ids stays behind as a predicate. */
  function Inherited(e: Edge, ps: seq<Predicate>, asks: seq<Asking>): seq<Predicate> {
    if asks == [] then ps
    else
      var n := |asks| - 1;
      Inherited(e, ps, asks[..n]) + [KeyIn(e, asks[n].ids)]
  }

  /** The same as runs of the nested builder. */
  function Steps(e: Edge, ps: seq<Predicate>, asks: seq<Asking>): seq<Step> {
    if asks == [] then []
    else
      var n := |asks| - 1;
      Steps(e, ps, asks[..n]) + [Step(asks[n].db, Inherited(e, ps, asks))]
  }

  function Both(a: seq<ID>, b: seq<ID>): seq<ID> {
    if a == [] then []
    else
      var n := |a| - 1;
      Both(a[..n], b) + if a[n] in b then [a[n]] else []
  }

  lemma {:induction false} BothMembers(a: seq<ID>, b: seq<ID>, id: ID)
    ensures id in Both(a, b) <==> id in a && id in b
  {
    if a != [] {
      var n := |a| - 1;
      BothMembers(a[..n], b, id);
      assert a == a[..n] + [a[n]];
    }
  }

  /** The ids that all of them asked for. */
  function Common(asks: seq<Asking>): seq<ID>
    requires asks != []
  {
    var n := |asks| - 1;
    if n == 0 then asks[0].ids else Both(Common(asks[..n]), asks[n].ids)
  }

  lemma {:induction false} CommonExact(asks: seq<Asking>, id: ID)
    requires asks != []
    ensures id in Common(asks) <==> forall i | 0 <= i < |asks| :: id in asks[i].ids
  {
    var n := |asks| - 1;
    if n > 0 {
      CommonExact(asks[..n], id);
      BothMembers(Common(asks[..n]), asks[n].ids, id);
      assert forall i | 0 <= i < n :: asks[..n][i] == asks[i];
    }
  }

  lemma {:induction false} InheritedHolds(e: Edge, ps: seq<Predicate>, asks: seq<Asking>, r: Row)
    requires asks != []
    ensures HoldAll(Inherited(e, ps, asks), r) == HoldAll(ps + [KeyIn(e, Common(asks))], r)
  {
    var n := |asks| - 1;
    if n > 0 {
      var prior := asks[..n];
      InheritedHolds(e, ps, prior, r);
      HoldsOne(Inherited(e, ps, prior), KeyIn(e, asks[n].ids), r);
      HoldsOne(ps, KeyIn(e, Common(prior)), r);
      HoldsOne(ps, KeyIn(e, Common(asks)), r);
      KeyInHolds(e, asks[n].ids, r);
      KeyInHolds(e, Common(prior), r);
      KeyInHolds(e, Common(asks), r);
      if EdgeKey(e, r).Some? { BothMembers(Common(prior), asks[n].ids, EdgeKey(e, r).value); }
    }
  }

  lemma {:induction false} UsedShape(h: seq<Step>, q: Query)
    ensures SameButNested(q, Used(h, q))
  {
    hide All;
    if h != [] {
      var n := |h| - 1;
      UsedShape(h[..n], q);
      AllKeepsShape(h[n].db, Used(h[..n], q).(predicates := h[n].predicates));
    }
  }

  /** The earlier runs fetched the root rows that a fresh builder would have fetched then. */
  lemma PastRows(h: seq<Step>, q: Query, db: Database, ps: seq<Predicate>)
    ensures NodeRows(db, Used(h, q).(predicates := ps)) == NodeRows(db, q.(predicates := ps))
  {
    hide NodeRows;
    UsedShape(h, q);
    SameNodes(db, q.(predicates := ps), Used(h, q).(predicates := ps));
  }

  lemma {:induction false} AsksKeepShape(e: Edge, nested: Query, asks: seq<Asking>)
    ensures var used := AfterAsks(e, nested, asks);
            && used == nested.(withFKs := used.withFKs, with := used.with,
                               predicates := Inherited(e, nested.predicates, asks))
            && |used.with| == |nested.with|
            && forall k | 0 <= k < |nested.with| :: used.with[k].Some? == nested.with[k].Some?
  {
    hide All;
    if asks != [] {
      var n := |asks| - 1;
      AsksKeepShape(e, nested, asks[..n]);
      AllKeepsShape(asks[n].db, Ask(e, AfterAsks(e, nested, asks[..n]), asks[n].ids));
    }
  }

  /** Asking a nested builder is running it with the ids among its predicates. */
  lemma {:induction false} AsksAreRuns(e: Edge, nested: Query, asks: seq<Asking>, ids: seq<ID>)
    ensures var used := Used(Steps(e, nested.predicates, asks), Ask(e, nested, ids));
            Ask(e, AfterAsks(e, nested, asks), ids) ==
            used.(predicates := Inherited(e, nested.predicates, asks) + [KeyIn(e, ids)])
  {
    hide All;
    if asks != [] {
      var n := |asks| - 1;
      var prior, ps := asks[..n], nested.predicates;
      var h := Steps(e, ps, asks);
      AsksAreRuns(e, nested, prior, ids);
      AsksKeepShape(e, nested, asks);
      AsksKeepShape(e, nested, prior);
      StepsLength(e, ps, asks);
      assert h[..n] == Steps(e, ps, prior) && h[n] == Step(asks[n].db, Inherited(e, ps, asks));
      var u := Used(h[..n], Ask(e, nested, ids));
      assert Ask(e, AfterAsks(e, nested, prior), asks[n].ids) == u.(predicates := h[n].predicates);
      AllKeepsShape(asks[n].db, u.(predicates := h[n].predicates));
    }
  }

  lemma {:induction false} StepsLength(e: Edge, ps: seq<Predicate>, asks: seq<Asking>)
    ensures |Steps(e, ps, asks)| == |asks|
  {
    if asks != [] { StepsLength(e, ps, asks[..|asks| - 1]); }
  }

  lemma {:induction false} RunKeepsFit(db: Database, q: Query)
    requires WellFormed(q) && FieldsValid(q)
    ensures WellFormed(All(db, q).after) && FieldsValid(All(db, q).after)
    decreases q.with
  {
    hide NodeRows, All;
    var after := All(db, q).after;
    AllKeepsShape(db, q);
    if NodeRows(db, q) == [] {
      EmptyRun(db, q);
    } else {
      forall k | 0 <= k < |q.with| && q.with[k].Some?
        ensures after.with[k].Some?
        ensures after.with[k].value.path.None? && after.with[k].value.entity == q.with[k].value.entity
        ensures WellFormed(after.with[k].value) && FieldsValid(after.with[k].value)
      {
        AllLeaves(db, q, k);
        var a := Ask(q.entity.edges[k], q.with[k].value, AskedIDs(q.entity.edges[k], NodeRows(db, q)));
        RunKeepsFit(db, a);
        AllKeepsShape(db, a);
      }
    }
  }

  lemma EmptyRun(db: Database, q: Query)
    requires NodeRows(db, q) == []
    ensures All(db, q).after == q
  {
  }

  lemma {:induction false} UsedFits(h: seq<Step>, q: Query)
    requires WellFormed(q) && FieldsValid(q)
    ensures WellFormed(Used(h, q)) && FieldsValid(Used(h, q))
  {
    hide All;
    if h != [] {
      var n := |h| - 1;
      UsedFits(h[..n], q);
      var u := Used(h[..n], q).(predicates := h[n].predicates);
      RunKeepsFit(h[n].db, u);
      AllKeepsShape(h[n].db, u);
    }
  }

  lemma {:induction false} AsksKeepFit(e: Edge, nested: Query, asks: seq<Asking>)
    requires EdgeFits(e, nested) && WellFormed(nested) && FieldsValid(nested)
    ensures var used := AfterAsks(e, nested, asks); EdgeFits(e, used) && WellFormed(used) && FieldsValid(used)
  {
    hide All;
    AsksKeepShape(e, nested, asks);
    if asks != [] {
      var n := |asks| - 1;
      AsksKeepFit(e, nested, asks[..n]);
      RunKeepsFit(asks[n].db, Ask(e, AfterAsks(e, nested, asks[..n]), asks[n].ids));
    }
  }

  /** What these runs leave of a nested builder is what asking it leaves. */
  lemma {:induction false} UsedNested(h: seq<Step>, q: Query, k: nat)
    requires WellFormed(q) && FieldsValid(q) && Loads(q, k)
    ensures |Used(h, q).with| == |q.with|
    ensures Used(h, q).with[k] ==
            Some(AfterAsks(q.entity.edges[k], q.with[k].value, Asked(h, q, q.entity.edges[k])))
  {
    hide NodeRows, All;
    UsedShape(h, q);
    if h != [] {
      var n, e := |h| - 1, q.entity.edges[k];
      var u := Used(h[..n], q).(predicates := h[n].predicates);
      UsedShape(h[..n], q);
      UsedNested(h[..n], q, k);
      UsedFits(h[..n], q);
      PastRows(h[..n], q, h[n].db, h[n].predicates);
      if NodeRows(h[n].db, u) == [] {
        EmptyRun(h[n].db, u);
      } else {
        AllLeaves(h[n].db, u, k);
        assert Asked(h, q, e) == Asked(h[..n], q, e) ||
               Asked(h, q, e)[..|Asked(h, q, e)| - 1] == Asked(h[..n], q, e);
      }
    }
  }

  // ---------- one edge ----------

  /** A fresh query over `now` and one that still carries the ids asked for before. */
  lemma UsedRows(later: Database, e: Edge, nested: Query, used: Query, asks: seq<Asking>, now: seq<ID>)
    requires PrimaryKeys(later) && nested.path.None? && asks != []
    requires used == nested.(withFKs := used.withFKs, with := used.with,
                             predicates := Inherited(e, nested.predicates, asks))
    ensures NodeRows(later, Ask(e, used, now)) ==
            Window(From(nested), Kept(nested), Seen(e, Common(asks), Stored(later, Ask(e, nested, now))))
    ensures NodeRows(later, Ask(e, nested, now)) ==
            Window(From(nested), Kept(nested), Stored(later, Ask(e, nested, now)))
  {
    hide NodeRows, Window;
    var clean, stale, all := Ask(e, nested, now), Ask(e, used, now), KeyIn(e, Common(asks));
    NestedRows(later, clean);
    NestedRows(later, stale);
    var plain := clean.(predicates := stale.predicates);
    forall r ensures HoldAll(plain.predicates, r) == HoldAll(clean.predicates + [all], r) {
      InheritedHolds(e, nested.predicates, asks, r);
      HoldsOne(nested.predicates, all, r);
      HoldsOne(nested.predicates, KeyIn(e, now), r);
      HoldsOne(used.predicates, KeyIn(e, now), r);
      HoldsOne(clean.predicates, all, r);
    }
    TightStored(later, clean, plain, [all]);
    assert Stored(later, stale) == Stored(later, plain);
  }

  /** A nested builder that was asked before, asked again for other ids. */
  function Again(e: Edge, nested: Query, asks: seq<Asking>, now: seq<ID>): Query {
    Ask(e, AfterAsks(e, nested, asks), now)
  }

  lemma AgainRows(asks: seq<Asking>, later: Database, e: Edge, nested: Query, now: seq<ID>)
    requires PrimaryKeys(later) && nested.path.None? && asks != []
    ensures var stored := Stored(later, Ask(e, nested, now));
            && NodeRows(later, Ask(e, nested, now)) == Window(From(nested), Kept(nested), stored)
            && NodeRows(later, Again(e, nested, asks, now)) ==
               Window(From(nested), Kept(nested), Seen(e, Common(asks), stored))
  {
    hide NodeRows, Window, All;
    AsksKeepShape(e, nested, asks);
    UsedRows(later, e, nested, AfterAsks(e, nested, asks), asks, now);
  }

  lemma AgainFits(asks: seq<Asking>, later: Database, e: Edge, nested: Query, now: seq<ID>)
    requires EdgeFits(e, nested) && WellFormed(nested) && FieldsValid(nested)
    ensures var used := AfterAsks(e, nested, asks); EdgeFits(e, used) && WellFormed(used) && FieldsValid(used)
    ensures All(later, Ask(e, nested, now)).result.Ok?
    ensures All(later, Again(e, nested, asks, now)).result.Ok?
  {
    hide All;
    AsksKeepFit(e, nested, asks);
    AllIsEager(later, Ask(e, nested, now));
    AllIsEager(later, Again(e, nested, asks, now));
  }

  // ---------- what a later run misses ----------

  /**
   Nothing the later run looks for was out of reach of the earlier ones: at every edge
   that it loads, the rows it fetches have keys that every run of the nested builder
   asked for, and so on below.
   */
  ghost predicate Current(h: seq<Step>, later: Database, q: Query)
    decreases q.with, 0
  {
    var now := NodeRows(later, q);
    now == [] ||
    forall k | 0 <= k < |q.with| && Loads(q, k) ::
      EdgeCurrent(Asked(h, q, q.entity.edges[k]), later, q.entity.edges[k], q.with[k].value, now)
  }

  ghost predicate EdgeCurrent(asks: seq<Asking>, later: Database, e: Edge, nested: Query, now: seq<Row>)
    decreases nested.with, 1
  {
    var want := AskedIDs(e, now);
    asks == [] || want == [] ||
    (Reached(e, From(nested), Kept(nested), Common(asks), Stored(later, Ask(e, nested, want))) &&
     Current(Steps(e, nested.predicates, asks), later, Ask(e, nested, want)))
  }

  predicate GroupsAgree(e: Edge, ids: seq<ID>, found: seq<Node>, others: seq<Node>) {
    forall i | 0 <= i < |ids| :: Group(e, found, ids[i]) == Group(e, others, ids[i])
  }

  /** A row that only the clean builder fetches is missing from some group. */
  lemma MissedRow(asks: seq<Asking>, later: Database, e: Edge, nested: Query, now: seq<ID>, r: Row)
    requires PrimaryKeys(later) && EdgeFits(e, nested) && WellFormed(nested) && FieldsValid(nested) && asks != []
    requires r in NodeRows(later, Ask(e, nested, now)) && r !in NodeRows(later, Again(e, nested, asks, now))
    requires All(later, Ask(e, nested, now)).result.Ok? && All(later, Again(e, nested, asks, now)).result.Ok?
    ensures !GroupsAgree(e, now, All(later, Again(e, nested, asks, now)).result.value,
                         All(later, Ask(e, nested, now)).result.value)
  {
    hide NodeRows, All, Window, Stored;
    var clean, again := Ask(e, nested, now), Again(e, nested, asks, now);
    var found, others := All(later, again).result.value, All(later, clean).result.value;
    FoundNodes(later, e, nested, now);
    FoundRows(later, e, nested, now);
    var j :| 0 <= j < |NodeRows(later, clean)| && NodeRows(later, clean)[j] == r;
    var id := EdgeKey(e, r).value;
    var i :| 0 <= i < |now| && now[i] == id;
    GroupMembers(e, others, id, others[j]);
    GroupMembers(e, found, id, others[j]);
    if GroupsAgree(e, now, found, others) {
      assert Group(e, found, now[i]) == Group(e, others, now[i]);
      var m :| 0 <= m < |found| && found[m] == others[j];
      ResultIDs(later, again);
      assert IDsOf(found)[m] == RowIDs(NodeRows(later, again))[m];
      SameStored(asks, later, e, nested, now, r, NodeRows(later, again)[m]);
    }
  }

  lemma SameStored(asks: seq<Asking>, later: Database, e: Edge, nested: Query, now: seq<ID>, r: Row, s: Row)
    requires PrimaryKeys(later) && nested.path.None? && asks != []
    requires r in NodeRows(later, Ask(e, nested, now)) && s in NodeRows(later, Again(e, nested, asks, now))
    requires r.id == s.id
    ensures r == s
  {
    hide NodeRows, All, Stored, Window, Seen, AfterAsks, Common;
    var stored := Stored(later, Ask(e, nested, now));
    AgainRows(asks, later, e, nested, now);
    StoredDistinct(later, Ask(e, nested, now));
    WindowMembers(From(nested), Kept(nested), stored);
    WindowMembers(From(nested), Kept(nested), Seen(e, Common(asks), stored));
    SeenMembers(e, Common(asks), stored, s);
  }

  /** The used builder finds the same groups exactly when nothing was out of reach, here and below. */
  lemma {:induction false} AgainExact(asks: seq<Asking>, later: Database, e: Edge, nested: Query, now: seq<ID>)
    requires PrimaryKeys(later) && EdgeFits(e, nested) && WellFormed(nested) && FieldsValid(nested) && asks != []
    ensures All(later, Ask(e, nested, now)).result.Ok? && All(later, Again(e, nested, asks, now)).result.Ok?
    ensures GroupsAgree(e, now, All(later, Again(e, nested, asks, now)).result.value,
                        All(later, Ask(e, nested, now)).result.value) <==>
            && Reached(e, From(nested), Kept(nested), Common(asks), Stored(later, Ask(e, nested, now)))
            && Current(Steps(e, nested.predicates, asks), later, Ask(e, nested, now))
    decreases nested.with, 1
  {
    hide NodeRows, All, Window, Stored, Current, Reached, From, Kept, Used, Steps, Inherited, AfterAsks;
    var clean, again, all := Ask(e, nested, now), Again(e, nested, asks, now), Common(asks);
    var h, stored := Steps(e, nested.predicates, asks), Stored(later, clean);
    AgainFits(asks, later, e, nested, now);
    AgainRows(asks, later, e, nested, now);
    KeptSome(nested);
    if Reached(e, From(nested), Kept(nested), all, stored) {
      ReachedKeepsWindow(e, From(nested), Kept(nested), all, stored);
      UsedExact(h, later, clean);
      UsedShape(h, clean);
      SameNodes(later, clean, Used(h, clean));
      AsksAreRuns(e, nested, asks, now);
      SameRowsSameResult(later, Used(h, clean), again);
      AgainDetermined(asks, later, e, nested, now);
    } else {
      StoredDistinct(later, clean);
      var r := UnreachedMisses(e, From(nested), Kept(nested), all, stored);
      MissedRow(asks, later, e, nested, now, r);
    }
  }

  lemma KeptSome(q: Query)
    ensures Kept(q) != Some(0)
  {
  }

  lemma AgainDetermined(asks: seq<Asking>, later: Database, e: Edge, nested: Query, now: seq<ID>)
    requires PrimaryKeys(later) && EdgeFits(e, nested)
    requires All(later, Ask(e, nested, now)).result.Ok? && All(later, Again(e, nested, asks, now)).result.Ok?
    requires NodeRows(later, Again(e, nested, asks, now)) == NodeRows(later, Ask(e, nested, now))
    ensures var found, others := All(later, Again(e, nested, asks, now)).result.value,
                                 All(later, Ask(e, nested, now)).result.value;
            GroupsAgree(e, now, found, others) <==> found == others
  {
    hide NodeRows, All;
    var clean, again := Ask(e, nested, now), Again(e, nested, asks, now);
    var found, others := All(later, again).result.value, All(later, clean).result.value;
    var rows := NodeRows(later, clean);
    ResultIDs(later, again);
    ResultIDs(later, clean);
    NestedRows(later, clean);
    FoundRows(later, e, nested, now);
    FoundNodes(later, e, nested, now);
    forall j | 0 <= j < |rows| ensures found[j].id == rows[j].id == others[j].id {
      assert IDsOf(found)[j] == RowIDs(rows)[j] == IDsOf(others)[j];
    }
    assert |found| == |IDsOf(found)| && |others| == |IDsOf(others)|;
    if GroupsAgree(e, now, found, others) { GroupsDetermine(e, others, found, now); }
  }

  predicate LinkSame(db: Database, q: Query, other: Query, rows: seq<Row>, i: nat, k: nat)
    requires i < |rows| && k < |q.with| && k < |other.with|
  {
    EagerLink(db, other, rows, i, k) == EagerLink(db, q, rows, i, k)
  }

  predicate EdgeSame(db: Database, q: Query, other: Query, rows: seq<Row>, k: nat)
    requires k < |q.with| && k < |other.with|
  {
    forall i | 0 <= i < |rows| :: LinkSame(db, q, other, rows, i, k)
  }

  /** Links tell the two builders apart exactly when groups do. */
  lemma LinksTell(db: Database, q: Query, other: Query, rows: seq<Row>, k: nat)
    requires PrimaryKeys(db) && k < |q.with| == |other.with| && other.entity == q.entity
    requires Loads(q, k) && Loads(other, k)
    requires var e, a, b := q.entity.edges[k], q.with[k].value, other.with[k].value;
             var ids := AskedIDs(e, rows);
             ids != [] && EdgeFits(e, a) && EdgeFits(e, b) &&
             All(db, Ask(e, a, ids)).result.Ok? && All(db, Ask(e, b, ids)).result.Ok?
    ensures var e, a, b := q.entity.edges[k], q.with[k].value, other.with[k].value;
            EdgeSame(db, q, other, rows, k) <==>
            GroupsAgree(e, AskedIDs(e, rows), Found(db, e, b, rows), Found(db, e, a, rows))
  {
    hide NodeRows, All;
    var e, a, b := q.entity.edges[k], q.with[k].value, other.with[k].value;
    var ids, found, others := AskedIDs(e, rows), Found(db, e, b, rows), Found(db, e, a, rows);
    if GroupsAgree(e, ids, found, others) {
      forall i | 0 <= i < |rows| ensures LinkSame(db, q, other, rows, i, k) {
        if LinkKey(e, rows[i]).Some? {
          AskedExact(e, rows, LinkKey(e, rows[i]).value);
          var n :| 0 <= n < |ids| && ids[n] == LinkKey(e, rows[i]).value;
          assert Group(e, found, ids[n]) == Group(e, others, ids[n]);
        }
      }
    }
    if EdgeSame(db, q, other, rows, k) {
      forall n | 0 <= n < |ids| ensures Group(e, found, ids[n]) == Group(e, others, ids[n]) {
        var i := ServedRow(e, rows, ids[n]);
        assert LinkSame(db, q, other, rows, i, k);
        if e.kind == ManyToOne {
          OneFoundEach(db, e, a, ids, ids[n]);
          OneFoundEach(db, e, b, ids, ids[n]);
        }
        LinkOfExact(e, Group(e, found, ids[n]), Group(e, others, ids[n]));
      }
    }
  }

  // ---------- whole runs ----------

  lemma {:induction false} EdgeCurrentExact(h: seq<Step>, later: Database, q: Query, k: nat)
    requires PrimaryKeys(later) && WellFormed(q) && FieldsValid(q)
    requires NodeRows(later, q) != [] && Loads(q, k)
    ensures |Used(h, q).with| == |q.with|
    ensures EdgeSame(later, q, Used(h, q), NodeRows(later, q), k) <==>
            EdgeCurrent(Asked(h, q, q.entity.edges[k]), later, q.entity.edges[k], q.with[k].value, NodeRows(later, q))
    decreases q.with[k].value.with, 2
  {
    hide NodeRows, All, Stored, Reached, Used, Asked, Steps, Common;
    var e, nested := q.entity.edges[k], q.with[k].value;
    var now, used, asks := NodeRows(later, q), Used(h, q), Asked(h, q, e);
    var want := AskedIDs(e, now);
    UsedNested(h, q, k);
    UsedShape(h, q);
    if asks == [] {
      assert used.with[k] == q.with[k];
    } else if want == [] {
      assert Found(later, e, nested, now) == Found(later, e, used.with[k].value, now) == [];
      forall i | 0 <= i < |now| ensures LinkSame(later, q, used, now, i, k) { }
    } else {
      AgainExact(asks, later, e, nested, want);
      AgainFits(asks, later, e, nested, want);
      LinksTell(later, q, used, now, k);
    }
  }

  /** A used builder returns what a clean one returns exactly when nothing the later run looks for was out of reach. */
  lemma {:induction false} UsedExact(h: seq<Step>, later: Database, q: Query)
    requires PrimaryKeys(later) && WellFormed(q) && FieldsValid(q)
    ensures All(later, Used(h, q)).result == All(later, q).result <==> Current(h, later, q)
    decreases q.with, 0
  {
    hide NodeRows, All, Used, Asked, EagerLink, LinkSame;
    var used, rows := Used(h, q), NodeRows(later, q);
    UsedShape(h, q);
    UsedFits(h, q);
    SameNodes(later, q, used);
    AllIsEager(later, q);
    AllIsEager(later, used);
    if rows != [] {
      var a, b := EagerNodes(later, q), EagerNodes(later, used);
      forall i | 0 <= i < |rows|
        ensures b[i] == a[i] <==> forall k | 0 <= k < |q.with| :: LinkSame(later, q, used, rows, i, k)
      {
        assert Decode(used, rows[i]) == DecodeAll(used, rows)[i];
        assert Decode(q, rows[i]) == DecodeAll(q, rows)[i];
        NodesSame(later, q, used, rows, i);
      }
      forall k | 0 <= k < |q.with|
        ensures EdgeSame(later, q, used, rows, k) <==>
                (Loads(q, k) ==>
                 EdgeCurrent(Asked(h, q, q.entity.edges[k]), later, q.entity.edges[k], q.with[k].value, rows))
      {
        if Loads(q, k) { EdgeCurrentExact(h, later, q, k); } else { UnloadedSame(later, q, used, rows, k); }
      }
      if Current(h, later, q) {
        forall i, k | 0 <= i < |rows| && 0 <= k < |q.with| ensures LinkSame(later, q, used, rows, i, k) {
          assert EdgeSame(later, q, used, rows, k);
        }
        assert b == a;
      }
      if b == a {
        forall k | 0 <= k < |q.with| ensures EdgeSame(later, q, used, rows, k) {
          forall i | 0 <= i < |rows| ensures LinkSame(later, q, used, rows, i, k) { assert b[i] == a[i]; }
        }
      }
    }
  }

  lemma UnloadedSame(db: Database, q: Query, other: Query, rows: seq<Row>, k: nat)
    requires SameButNested(q, other) && k < |q.with| && !Loads(q, k)
    ensures EdgeSame(db, q, other, rows, k)
  {
  }

  lemma NodesSame(db: Database, q: Query, other: Query, rows: seq<Row>, i: nat)
    requires |other.with| == |q.with| && i < |rows| && Decode(other, rows[i]) == Decode(q, rows[i])
    ensures PartialNode(db, other, rows, |q.with|, i) == PartialNode(db, q, rows, |q.with|, i) <==>
            forall k | 0 <= k < |q.with| :: LinkSame(db, q, other, rows, i, k)
  {
    hide EagerLink;
    var a, b := PartialNode(db, q, rows, |q.with|, i), PartialNode(db, other, rows, |q.with|, i);
    forall k | 0 <= k < |q.with|
      ensures a.links[k] == EagerLink(db, q, rows, i, k) && b.links[k] == EagerLink(db, other, rows, i, k)
    {
    }
    if forall k | 0 <= k < |q.with| :: LinkSame(db, q, other, rows, i, k) {
      forall k | 0 <= k < |q.with| ensures a.links[k] == b.links[k] { assert LinkSame(db, q, other, rows, i, k); }
      assert a.links == b.links;
    }
  }

  // ---------- any number of runs ----------

  /** The builder once it ran on these databases, one after the other. */
  function AfterAll(dbs: seq<Database>, q: Query): Query {
    if dbs == [] then q
    else
      var n := |dbs| - 1;
      All(dbs[n], AfterAll(dbs[..n], q)).after
  }

  function Runs(dbs: seq<Database>, q: Query): (h: seq<Step>)
    ensures |h| == |dbs|
  {
    seq(|dbs|, i requires 0 <= i < |dbs| => Step(dbs[i], q.predicates))
  }

  lemma {:induction false} RunsLeave(dbs: seq<Database>, q: Query)
    ensures Used(Runs(dbs, q), q) == AfterAll(dbs, q)
  {
    hide All;
    if dbs != [] {
      var n := |dbs| - 1;
      RunsLeave(dbs[..n], q);
      assert Runs(dbs, q)[..n] == Runs(dbs[..n], q);
      UsedShape(Runs(dbs[..n], q), q);
      AllKeepsShape(dbs[n], AfterAll(dbs[..n], q));
    }
  }

  /** On the later database the used builder returns what a builder that never ran returns. */
  ghost predicate AsFresh(dbs: seq<Database>, later: Database, q: Query) {
    All(later, AfterAll(dbs, q)).result == All(later, q).result
  }

  /**
   Running the same builder again, after any number of runs on databases that need
   not be alike, returns what a builder that never ran would return exactly when, at
   every edge and every depth, the later run looks for nothing that was out of reach
   of an earlier one.
   */
  lemma RerunExact(dbs: seq<Database>, later: Database, q: Query)
    requires PrimaryKeys(later) && WellFormed(q) && FieldsValid(q)
    ensures AsFresh(dbs, later, q) <==> Current(Runs(dbs, q), later, q)
  {
    hide All, Current;
    UsedExact(Runs(dbs, q), later, q);
    RunsLeave(dbs, q);
  }

  // ---------- one row ----------

  /** A row whose key one of the runs did not ask for finds nothing, whatever the tables hold now. */
  lemma UnseenFindsNothing(h: seq<Step>, later: Database, q: Query, k: nat, r: Row, i: nat)
    requires PrimaryKeys(later) && WellFormed(q) && FieldsValid(q) && Loads(q, k)
    requires var e := q.entity.edges[k];
             i < |Asked(h, q, e)| && LinkKey(e, r).Some? && LinkKey(e, r).value !in Asked(h, q, e)[i].ids
    ensures |Used(h, q).with| == |q.with|
    ensures JoinLink(later, Used(h, q), r, k) == LinkOf(q.entity.edges[k], [])
  {
    hide NodeRows, All, Stored, Window, Used, Asked;
    var e, nested := q.entity.edges[k], q.with[k].value;
    var asks, id := Asked(h, q, e), LinkKey(e, r).value;
    UsedNested(h, q, k);
    UsedShape(h, q);
    AgainRows(asks, later, e, nested, [id]);
    CommonExact(asks, id);
    var all, stored := Common(asks), Stored(later, Ask(e, nested, [id]));
    StoredKeyed(later, e, nested, [id]);
    if Seen(e, all, stored) != [] { SeenMembers(e, all, stored, Seen(e, all, stored)[0]); }
    WindowHead(From(nested), Kept(nested), Seen(e, all, stored));
    JoinLinkIs(later, Used(h, q), r, k);
  }

  ghost predicate Leaf(q: Query) {
    forall k | 0 <= k < |q.with| :: q.with[k].None?
  }

  lemma {:induction false} LeafLoads(db: Database, q: Query, nodes: seq<Node>, k: nat)
    requires Leaf(q)
    ensures LoadAll(db, q, nodes, k) == (Ok(nodes), q.with)
    decreases if k < |q.with| then |q.with| - k else 0
  {
    if k < |q.with| { LeafLoads(db, q, nodes, k + 1); }
  }

  lemma LeafStays(db: Database, q: Query)
    requires Leaf(q)
    ensures All(db, q).after.with == q.with
  {
    LeafLoads(db, q, DecodeAll(q, NodeRows(db, q)), 0);
  }

  lemma {:induction false} LeafKeptByAsks(e: Edge, nested: Query, asks: seq<Asking>)
    requires Leaf(nested)
    ensures AfterAsks(e, nested, asks).with == nested.with
  {
    hide All;
    if asks != [] {
      var n := |asks| - 1;
      LeafKeptByAsks(e, nested, asks[..n]);
      LeafStays(asks[n].db, Ask(e, AfterAsks(e, nested, asks[..n]), asks[n].ids));
    }
  }

  lemma LeafAsks(e: Edge, nested: Query, asks: seq<Asking>, ids: seq<ID>)
    requires Leaf(nested)
    ensures var clean, again := Ask(e, nested, ids), Again(e, nested, asks, ids);
            again == clean.(predicates := again.predicates)
  {
    hide All, Used;
    LeafKeptByAsks(e, nested, asks);
    AsksAreRuns(e, nested, asks, ids);
    UsedShape(Steps(e, nested.predicates, asks), Ask(e, nested, ids));
  }

  /**
   One row and one edge, whose nested builder loads nothing further: the used builder
   gives it what a clean one would exactly when no earlier run ran the edge, or the
   row has no key, or every run asked for its key, or it has nothing to find.
   */
  lemma LinkCurrentExact(h: seq<Step>, later: Database, q: Query, k: nat, r: Row)
    requires PrimaryKeys(later) && WellFormed(q) && FieldsValid(q) && Loads(q, k)
    requires Leaf(q.with[k].value)
    ensures |Used(h, q).with| == |q.with|
    ensures var e, nested := q.entity.edges[k], q.with[k].value;
            var asks := Asked(h, q, e);
            JoinLink(later, Used(h, q), r, k) == JoinLink(later, q, r, k) <==>
            asks == [] || LinkKey(e, r).None? || LinkKey(e, r).value in Common(asks) ||
            NodeRows(later, Ask(e, nested, [LinkKey(e, r).value])) == []
  {
    hide NodeRows, All, Stored, Window, Used, Asked, Common;
    var e, nested, after := q.entity.edges[k], q.with[k].value, Used(h, q);
    var asks := Asked(h, q, e);
    UsedNested(h, q, k);
    UsedShape(h, q);
    JoinLinkIs(later, q, r, k);
    JoinLinkIs(later, after, r, k);
    if asks != [] && LinkKey(e, r).Some? {
      var id := LinkKey(e, r).value;
      var clean, again := Ask(e, nested, [id]), Again(e, nested, asks, [id]);
      AgainRows(asks, later, e, nested, [id]);
      StoredKeyed(later, e, nested, [id]);
      CommonExact(asks, id);
      if id in Common(asks) {
        SeenLength(e, Common(asks), Stored(later, clean));
        LeafAsks(e, nested, asks, [id]);
        JoinAlike(later, clean, again);
      } else {
        var i :| 0 <= i < |asks| && id !in asks[i].ids;
        UnseenFindsNothing(h, later, q, k, r, i);
        JoinRowsIDs(later, clean, NodeRows(later, clean));
      }
    }
  }

  lemma JoinAlike(db: Database, q: Query, other: Query)
    requires other == q.(predicates := other.predicates) && NodeRows(db, other) == NodeRows(db, q)
    ensures Join(db, other) == Join(db, q)
  {
    forall r | r in NodeRows(db, q) ensures JoinRow(db, q, r) == JoinRow(db, other, r) {
      JoinRowIgnoresPredicates(db, q, other, r);
    }
  }
}
