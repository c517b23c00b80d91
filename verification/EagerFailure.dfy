/** When a run fails, and with which error. */
module EagerFailure {
  import opened Base
  import opened Store
  import opened QueryTree
  import opened EagerSpec
  import opened EagerJoin
  import opened EagerLinks

  /** Field i is no column of the entity, not even a foreign key. */
  predicate Unknown(q: Query, i: nat) {
    i < |q.fields| && q.fields[i] !in q.entity.columns && q.fields[i] !in q.entity.foreignKeys
  }

  /** Following these edges, each of which the run loads for some ids, leads to a builder with an unknown field. */
  ghost predicate FailsAlong(db: Database, q: Query, path: seq<nat>)
    decreases |path|
  {
    if path == [] then exists i | 0 <= i < |q.fields| :: Unknown(q, i)
    else EdgeRuns(db, q, path[0]) && FailsAlong(db, AskFor(db, q, path[0]), path[1..])
  }

  /** A selected field is unknown, at the root or in a nested builder that the run reaches. */
  ghost predicate Fails(db: Database, q: Query) {
    exists path :: FailsAlong(db, q, path)
  }

  /** Edge k is requested, and the rows of the root have ids to ask for. */
  predicate EdgeRuns(db: Database, q: Query, k: nat) {
    Loads(q, k) && AskedIDs(q.entity.edges[k], NodeRows(db, q)) != []
  }

  function AskFor(db: Database, q: Query, k: nat): Query
    requires EdgeRuns(db, q, k)
  {
    var e := q.entity.edges[k];
    Ask(e, q.with[k].value, AskedIDs(e, NodeRows(db, q)))
  }

  ghost predicate EdgeFails(db: Database, q: Query, k: nat) {
    EdgeRuns(db, q, k) && Fails(db, AskFor(db, q, k))
  }

  lemma FailsStep(db: Database, q: Query)
    ensures Fails(db, q) <==>
            (exists i | 0 <= i < |q.fields| :: Unknown(q, i)) || exists k | 0 <= k < |q.with| :: EdgeFails(db, q, k)
  {
    hide NodeRows, Unknown;
    if Fails(db, q) {
      var path :| FailsAlong(db, q, path);
      if path != [] {
        assert FailsAlong(db, AskFor(db, q, path[0]), path[1..]);
        assert EdgeFails(db, q, path[0]);
      }
    }
    if exists i | 0 <= i < |q.fields| :: Unknown(q, i) { assert FailsAlong(db, q, []); }
    if exists k | 0 <= k < |q.with| :: EdgeFails(db, q, k) {
      var k :| 0 <= k < |q.with| && EdgeFails(db, q, k);
      var path :| FailsAlong(db, AskFor(db, q, k), path);
      var longer := [k] + path;
      assert longer[0] == k && longer[1..] == path;
      assert FailsAlong(db, q, longer);
    }
  }

  lemma {:induction false} FirstUnknown(q: Query, fields: seq<Column>)
    ensures match FirstInvalid(q.entity, fields)
            case None => forall i | 0 <= i < |fields| :: ValidColumn(q.entity, fields[i])
            case Some(c) =>
              exists i | 0 <= i < |fields| ::
                fields[i] == c && !ValidColumn(q.entity, c) &&
                forall j | 0 <= j < i :: ValidColumn(q.entity, fields[j])
  {
    if fields != [] && ValidColumn(q.entity, fields[0]) {
      var rest := fields[1..];
      FirstUnknown(q, rest);
      if FirstInvalid(q.entity, rest).Some? {
        var i :| 0 <= i < |rest| && rest[i] == FirstInvalid(q.entity, rest).value && !ValidColumn(q.entity, rest[i]) &&
                 forall j | 0 <= j < i :: ValidColumn(q.entity, rest[j]);
        forall j | 0 <= j < i + 1 ensures ValidColumn(q.entity, fields[j]) {
          if j > 0 { assert fields[j] == rest[j - 1]; }
        }
        assert fields[i + 1] == rest[i];
      }
    }
  }

  /** Loading edges k, k+1, ... fails exactly when one of their nested builders does. */
  lemma {:induction false} LoadFails(db: Database, q: Query, rows: seq<Row>, k: nat)
    requires WellFormed(q) && rows != [] && rows == NodeRows(db, q) && k <= |q.with|
    ensures LoadAll(db, q, Partial(db, q, rows, k), k).0.Err? <==>
            exists j | k <= j < |q.with| :: EdgeFails(db, q, j)
    decreases q.with, 0, |q.with| - k
  {
    hide LoadEdge, NodeRows, Partial, Fails;
    if k < |q.with| {
      if q.with[k].None? {
        SkipEdge(db, q, rows, k);
      } else {
        LoadEdgeLinks(db, q, rows, k);
        EdgeFailsExact(db, q, rows, k);
      }
      LoadFails(db, q, rows, k + 1);
    }
  }

  lemma {:induction false} EdgeFailsExact(db: Database, q: Query, rows: seq<Row>, k: nat)
    requires WellFormed(q) && rows != [] && rows == NodeRows(db, q) && k < |q.with| && q.with[k].Some?
    ensures LoadEdge(db, q.entity.edges[k], q.with[k].value, Partial(db, q, rows, k), k).result.Err? <==>
            EdgeFails(db, q, k)
    decreases q.with[k].value.with, 2, 0
  {
    hide NodeRows, All, Partial, Fails;
    var e, nested := q.entity.edges[k], q.with[k].value;
    var ids := AskedIDs(e, rows);
    CollectedIDs(db, q, rows, k);
    assert e.kind == OneToMany ==> ids != [] by { if e.kind == OneToMany { assert RowIDs(rows)[0] == rows[0].id; } }
    if ids != [] { FailsExact(db, Ask(e, nested, ids)); }
    if ids == [] || All(db, Ask(e, nested, ids)).result.Ok? {
      if e.kind == OneToMany { LoadManyLinks(db, q, rows, k); } else { LoadOneLinks(db, q, rows, k); }
    }
  }

  /**
   A run fails exactly when a selected field is unknown, at the root or in a nested
   builder that was run; if one is at the root, the error names the first of those.
   */
  lemma {:induction false} FailsExact(db: Database, q: Query)
    requires WellFormed(q)
    ensures All(db, q).result.Err? <==> Fails(db, q)
    ensures forall i | 0 <= i < |q.fields| && Unknown(q, i) && (forall j | 0 <= j < i :: !Unknown(q, j)) ::
              All(db, q).result == Err(InvalidField(q.fields[i]))
    decreases q.with, 1, 0
  {
    hide NodeRows, Partial, LoadAll, Fails;
    var rows := NodeRows(db, q);
    FirstUnknown(q, q.fields);
    FailsStep(db, q);
    if FirstInvalid(q.entity, q.fields).None? {
      PartialStart(db, q, rows);
      if rows != [] {
        LoadFails(db, q, rows, 0);
      } else {
        forall k | 0 <= k < |q.with| ensures !EdgeFails(db, q, k) {
          if Loads(q, k) { NothingAsked(q.entity.edges[k]); }
        }
      }
    } else {
      var i :| 0 <= i < |q.fields| && q.fields[i] == FirstInvalid(q.entity, q.fields).value &&
               !ValidColumn(q.entity, q.fields[i]) && forall j | 0 <= j < i :: ValidColumn(q.entity, q.fields[j]);
      assert Unknown(q, i);
    }
  }

  lemma NothingAsked(e: Edge)
    ensures AskedIDs(e, []) == []
  {
  }
}
