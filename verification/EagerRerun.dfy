/**
 Running a query tree changes it: every nested builder keeps the predicate the
 loader added.  What that means for running the same tree again.
 */
module EagerRerun {
  import opened Base
  import opened Store
  import opened StoreLemmas
  import opened QueryTree
  import opened EagerSpec
  import opened EagerIndex
  import opened EagerJoin

  // ---------- what a run leaves behind ----------

  /** Only nested builders change, and none is added or dropped. */
  ghost predicate SameButNested(q: Query, other: Query) {
    && other == q.(with := other.with)
    && |other.with| == |q.with|
    && forall k | 0 <= k < |q.with| :: other.with[k].Some? == q.with[k].Some?
  }

  lemma {:induction false} LoadAllKeepsShape(db: Database, q: Query, nodes: seq<Node>, k: nat)
    requires k <= |q.with|
    ensures forall j | 0 <= j < |q.with| :: LoadAll(db, q, nodes, k).1[j].Some? == q.with[j].Some?
    ensures forall j | 0 <= j < k :: LoadAll(db, q, nodes, k).1[j] == q.with[j]
    decreases |q.with| - k
  {
    if k < |q.with| {
      if q.with[k].None? || k >= |q.entity.edges| {
        LoadAllKeepsShape(db, q, nodes, k + 1);
      } else {
        var one := LoadEdge(db, q.entity.edges[k], q.with[k].value, nodes, k);
        if one.result.Ok? { LoadAllKeepsShape(db, q, one.result.value, k + 1); }
      }
    }
  }

  lemma AllKeepsShape(db: Database, q: Query)
    ensures SameButNested(q, All(db, q).after)
  {
    var nodes := DecodeAll(q, NodeRows(db, q));
    LoadAllKeepsShape(db, q, nodes, 0);
  }

  /** The nodes fetched at the root do not depend on what the nested builders hold. */
  lemma SameNodes(db: Database, q: Query, other: Query)
    requires SameButNested(q, other)
    ensures NodeColumns(other) == NodeColumns(q) && NodeRows(db, other) == NodeRows(db, q)
    ensures DecodeAll(other, NodeRows(db, other)) == DecodeAll(q, NodeRows(db, q))
  {
    forall k | 0 <= k < |q.entity.edges| && k < |q.with|
      ensures other.with[k].Some? == q.with[k].Some?
    {
    }
    assert HasManyToOne(q.entity.edges, other.with) == HasManyToOne(q.entity.edges, q.with);
    assert Requested(other.with) == Requested(q.with);
    assert SpecOf(other) == SpecOf(q);
  }

  // ---------- predicates that change nothing ----------

  lemma {:induction false} LoadAllIgnoresRoot(db: Database, q: Query, other: Query, nodes: seq<Node>, k: nat)
    requires other == q.(predicates := other.predicates, limit := other.limit)
    ensures LoadAll(db, other, nodes, k) == LoadAll(db, q, nodes, k)
    decreases if k < |q.with| then |q.with| - k else 0
  {
    if k < |q.with| {
      if q.with[k].None? || k >= |q.entity.edges| {
        LoadAllIgnoresRoot(db, q, other, nodes, k + 1);
      } else {
        var one := LoadEdge(db, q.entity.edges[k], q.with[k].value, nodes, k);
        if one.result.Ok? { LoadAllIgnoresRoot(db, q, other, one.result.value, k + 1); }
      }
    }
  }

  /** Builders that differ in predicates or limit alone and fetch the same rows return the same graph. */
  lemma SameRowsSameResult(db: Database, q: Query, other: Query)
    requires other == q.(predicates := other.predicates, limit := other.limit) && NodeRows(db, other) == NodeRows(db, q)
    ensures All(db, other).result == All(db, q).result
  {
    hide NodeRows;
    var nodes := DecodeAll(q, NodeRows(db, q));
    assert DecodeAll(other, NodeRows(db, other)) == nodes;
    LoadAllIgnoresRoot(db, q, other, nodes, 0);
  }

  lemma EquivalentPredicates(db: Database, q: Query, other: Query)
    requires other == q.(predicates := other.predicates)
    requires forall r :: HoldAll(other.predicates, r) == HoldAll(q.predicates, r)
    ensures All(db, other).result == All(db, q).result
  {
    hide All;
    var s := SpecSelector(SpecOf(q).(columns := NodeColumns(q)));
    FilterCongruence(other.predicates, q.predicates, Source(db, s));
    assert NodeRows(db, other) == NodeRows(db, q);
    SameRowsSameResult(db, q, other);
  }

  /** Adding a predicate that is already there changes nothing. */
  lemma RepeatPredicate(ps: seq<Predicate>, p: Predicate, r: Row)
    ensures HoldAll(ps + [p] + [p], r) == HoldAll(ps + [p], r)
  {
    HoldsOne(ps, p, r);
    HoldsOne(ps + [p], p, r);
  }

  // ---------- the same database ----------

  /** `All` again on the same builder and database returns the same graph. */
  lemma {:induction false} RunTwice(db: Database, q: Query)
    ensures All(db, All(db, q).after).result == All(db, q).result
    decreases q.with, 1, 0
  {
    var again := All(db, q).after;
    var nodes := DecodeAll(q, NodeRows(db, q));
    AllKeepsShape(db, q);
    SameNodes(db, q, again);
    if FirstInvalid(q.entity, q.fields).None? && nodes != [] {
      LoadAllKeepsShape(db, q, nodes, 0);
      LoadTwice(db, q, again, nodes, 0);
    }
  }

  lemma {:induction false} LoadTwice(db: Database, q: Query, again: Query, nodes: seq<Node>, k: nat)
    requires SameButNested(q, again) && k <= |q.with|
    requires forall j | k <= j < |q.with| :: again.with[j] == LoadAll(db, q, nodes, k).1[j]
    ensures LoadAll(db, again, nodes, k).0 == LoadAll(db, q, nodes, k).0
    decreases q.with, 0, |q.with| - k
  {
    if k < |q.with| {
      if q.with[k].None? || k >= |q.entity.edges| {
        LoadTwice(db, q, again, nodes, k + 1);
      } else {
        var e := q.entity.edges[k];
        var one := LoadEdge(db, e, q.with[k].value, nodes, k);
        assert again.with[k] == Some(one.after);
        LoadEdgeTwice(db, e, q.with[k].value, nodes, k);
        if one.result.Ok? {
          LoadTwice(db, q, again, one.result.value, k + 1);
        }
      }
    }
  }

  lemma {:induction false} LoadEdgeTwice(db: Database, e: Edge, nested: Query, nodes: seq<Node>, k: nat)
    ensures LoadEdge(db, e, LoadEdge(db, e, nested, nodes, k).after, nodes, k).result ==
            LoadEdge(db, e, nested, nodes, k).result
    decreases nested.with, 2, 0
  {
    match e.kind
    case OneToMany =>
      var first := ForChildren(nested, e.column, IDsOf(nodes));
      RunTwice(db, first);
      RunExtended(db, first, nested.predicates, ColumnIn(e.column, IDsOf(nodes)));
    case ManyToOne =>
      var keys := Keys(nodes, e.column);
      if keys != [] {
        var first := ForParents(nested, keys);
        RunTwice(db, first);
        RunExtended(db, first, nested.predicates, IDIn(keys));
      }
  }

  lemma RunExtended(db: Database, first: Query, ps: seq<Predicate>, p: Predicate)
    requires first.predicates == ps + [p]
    ensures var after := All(db, first).after;
            All(db, after.(predicates := after.predicates + [p])).result == All(db, after).result
  {
    var after := All(db, first).after;
    AllKeepsShape(db, first);
    forall r ensures HoldAll(after.predicates + [p], r) == HoldAll(after.predicates, r) {
      RepeatPredicate(ps, p, r);
    }
    EquivalentPredicates(db, after, after.(predicates := after.predicates + [p]));
  }

  function AfterRuns(db: Database, q: Query, n: nat): Query {
    if n == 0 then q else All(db, AfterRuns(db, q, n - 1)).after
  }

  /** However often a builder has run before, its next run returns what its first run did. */
  lemma {:induction false} RunAgain(db: Database, q: Query, n: nat)
    ensures All(db, AfterRuns(db, q, n)).result == All(db, q).result
  {
    hide All;
    if n > 0 {
      var prior := AfterRuns(db, q, n - 1);
      assert AfterRuns(db, q, n) == All(db, prior).after;
      RunTwice(db, prior);
      RunAgain(db, q, n - 1);
    }
  }
}
