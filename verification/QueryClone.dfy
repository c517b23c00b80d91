/**
 `Clone` copies a whole builder tree but not its `withFKs` marks.  The clone of
 a builder that was only ever configured and run still loads the same graph.
 */
module QueryClone {
  import opened Base
  import opened Store
  import opened QueryTree
  import opened EagerSpec
  import opened EagerRerun

  function Cloned(q: Query): Query
    decreases q.with
  {
    q.(withFKs := false,
       with := seq(|q.with|, k requires 0 <= k < |q.with| =>
         if q.with[k].None? then None else Some(Cloned(q.with[k].value))))
  }

  /** Builders that differ only where a one-to-many loader will set `withFKs` anyway. */
  ghost predicate AlikeBelow(q: Query, c: Query)
    decreases q.with
  {
    && c == q.(with := c.with, withFKs := c.withFKs) && |c.with| == |q.with|
    && (forall k | 0 <= k < |q.with| :: c.with[k].Some? == q.with[k].Some?)
    && forall k | 0 <= k < |q.with| && Loads(q, k) ::
         && AlikeBelow(q.with[k].value, c.with[k].value)
         && (q.entity.edges[k].kind == ManyToOne ==> c.with[k].value.withFKs == q.with[k].value.withFKs)
  }

  lemma {:induction false} AlikeRuns(db: Database, q: Query, c: Query)
    requires AlikeBelow(q, c) && c.withFKs == q.withFKs
    ensures All(db, c).result == All(db, q).result
    decreases q.with, 1, 0
  {
    SameNodes(db, q, c);
    var nodes := DecodeAll(q, NodeRows(db, q));
    if nodes != [] { AlikeLoads(db, q, c, nodes, 0); }
  }

  lemma {:induction false} AlikeLoads(db: Database, q: Query, c: Query, nodes: seq<Node>, k: nat)
    requires AlikeBelow(q, c) && k <= |q.with|
    ensures LoadAll(db, c, nodes, k).0 == LoadAll(db, q, nodes, k).0
    decreases q.with, 0, |q.with| - k
  {
    if k < |q.with| {
      if !Loads(q, k) {
        AlikeLoads(db, q, c, nodes, k + 1);
      } else {
        var e := q.entity.edges[k];
        AlikeEdge(db, e, q.with[k].value, c.with[k].value, nodes, k);
        var one := LoadEdge(db, e, q.with[k].value, nodes, k);
        if one.result.Ok? { AlikeLoads(db, q, c, one.result.value, k + 1); }
      }
    }
  }

  lemma {:induction false} AlikeEdge(db: Database, e: Edge, a: Query, b: Query, nodes: seq<Node>, k: nat)
    requires AlikeBelow(a, b) && (e.kind == ManyToOne ==> b.withFKs == a.withFKs)
    ensures LoadEdge(db, e, b, nodes, k).result == LoadEdge(db, e, a, nodes, k).result
    decreases a.with, 2, 0
  {
    match e.kind
    case OneToMany =>
      AlikeRuns(db, ForChildren(a, e.column, IDsOf(nodes)), ForChildren(b, e.column, IDsOf(nodes)));
    case ManyToOne =>
      AlikeRuns(db, ForParents(a, Keys(nodes, e.column)), ForParents(b, Keys(nodes, e.column)));
  }

  /** No builder carries a mark except where a one-to-many loader put it. */
  ghost predicate TidyBelow(q: Query)
    decreases q.with
  {
    forall k | 0 <= k < |q.with| && Loads(q, k) ::
      && TidyBelow(q.with[k].value)
      && (q.entity.edges[k].kind == ManyToOne ==> !q.with[k].value.withFKs)
  }

  /** Configuring sets no mark, and running sets only those the clone may lose. */
  lemma {:induction false} RunsKeepTidy(db: Database, q: Query)
    requires TidyBelow(q)
    ensures TidyBelow(All(db, q).after)
    decreases q.with, 1, 0
  {
    AllKeepsShape(db, q);
    var nodes := DecodeAll(q, NodeRows(db, q));
    if FirstInvalid(q.entity, q.fields).None? && nodes != [] {
      var after := All(db, q).after;
      forall k | 0 <= k < |q.with| && Loads(after, k)
        ensures TidyBelow(after.with[k].value)
        ensures q.entity.edges[k].kind == ManyToOne ==> !after.with[k].value.withFKs
      {
        LoadsKeepTidy(db, q, nodes, 0, k);
      }
    }
  }

  lemma {:induction false} LoadsKeepTidy(db: Database, q: Query, nodes: seq<Node>, j: nat, k: nat)
    requires TidyBelow(q) && k < |q.with| && Loads(q, k)
    ensures var after := LoadAll(db, q, nodes, j).1[k];
            && after.Some? && TidyBelow(after.value)
            && (q.entity.edges[k].kind == ManyToOne ==> !after.value.withFKs)
    decreases q.with, 0, if j < |q.with| then |q.with| - j else 0
  {
    assert TidyBelow(q.with[k].value);
    if j < |q.with| {
      if !Loads(q, j) {
        LoadsKeepTidy(db, q, nodes, j + 1, k);
      } else {
        assert TidyBelow(q.with[j].value);
        var one := LoadEdge(db, q.entity.edges[j], q.with[j].value, nodes, j);
        EdgeKeepsTidy(db, q.entity.edges[j], q.with[j].value, nodes, j);
        if one.result.Ok? { LoadsKeepTidy(db, q, one.result.value, j + 1, k); }
      }
    }
  }

  lemma {:induction false} EdgeKeepsTidy(db: Database, e: Edge, nested: Query, nodes: seq<Node>, k: nat)
    requires TidyBelow(nested)
    ensures TidyBelow(LoadEdge(db, e, nested, nodes, k).after)
    ensures e.kind == ManyToOne ==> LoadEdge(db, e, nested, nodes, k).after.withFKs == nested.withFKs
    decreases nested.with, 2, 0
  {
    match e.kind
    case OneToMany =>
      RunsKeepTidy(db, ForChildren(nested, e.column, IDsOf(nodes)));
    case ManyToOne =>
      RunsKeepTidy(db, ForParents(nested, Keys(nodes, e.column)));
      AllKeepsShape(db, ForParents(nested, Keys(nodes, e.column)));
  }

  lemma {:induction false} CloneIsAlike(q: Query)
    requires TidyBelow(q)
    ensures AlikeBelow(q, Cloned(q))
    decreases q.with
  {
    forall k | 0 <= k < |q.with| && Loads(q, k)
      ensures AlikeBelow(q.with[k].value, Cloned(q).with[k].value)
    {
      CloneIsAlike(q.with[k].value);
    }
  }

  /** A clone, taken before or after any number of runs, returns what the original returns. */
  lemma CloneSameGraph(db: Database, later: Database, q: Query, n: nat)
    requires TidyBelow(q) && !q.withFKs
    ensures var used := AfterRuns(db, q, n);
            All(later, Cloned(used)).result == All(later, used).result
  {
    RunsStayTidy(db, q, n);
    var used := AfterRuns(db, q, n);
    CloneIsAlike(used);
    AlikeRuns(later, used, Cloned(used));
  }

  lemma {:induction false} RunsStayTidy(db: Database, q: Query, n: nat)
    requires TidyBelow(q) && !q.withFKs
    ensures TidyBelow(AfterRuns(db, q, n)) && !AfterRuns(db, q, n).withFKs
  {
    if n > 0 {
      RunsStayTidy(db, q, n - 1);
      RunsKeepTidy(db, AfterRuns(db, q, n - 1));
      AllKeepsShape(db, AfterRuns(db, q, n - 1));
    }
  }
}
