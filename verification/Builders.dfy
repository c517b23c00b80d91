/**
 Query builders as the mutable objects of the generated code.  The ghost `view`
 of a builder is its value; running a builder realises `EagerSpec.All` on that
 value and leaves the tree in the state `EagerSpec` says.
 */
module Builders {
  import opened Base
  import opened Store
  import opened QueryTree
  import opened EntityGraph
  import Spec = EagerSpec
  import Rerun = EagerRerun
  import QueryClone
  import Terminals

  /** The part of a builder that `Limit`, `Offset`, `Unique` and `Select` write to. */
  class QueryContext {
    var fields: seq<Column>
    var limit: Option<int>
    var offset: Option<int>
    var unique: Option<bool>

    constructor ()
      ensures fields == [] && limit == None && offset == None && unique == None
    {
      fields, limit, offset, unique := [], None, None, None;
    }

    method Clone() returns (c: QueryContext)
      ensures fresh(c)
      ensures c.fields == fields && c.limit == limit && c.offset == offset && c.unique == unique
    {
      c := new QueryContext();
      c.fields, c.limit, c.offset, c.unique := fields, limit, offset, unique;
    }
  }

  class QueryBuilder {
    const entity: EntityType
    const ctx: QueryContext
    var order: seq<OrderTerm>
    var predicates: seq<Predicate>
    var withFKs: bool
    var path: Option<Path>
    var with: seq<QueryBuilder?>
    ghost var view: Query
    ghost var Repr: set<object>

    /** The builder owns its context and its nested builders, which share nothing. */
    ghost predicate Valid()
      reads this, Repr
      ensures Valid() ==> this in Repr
      decreases Repr
    {
      && this in Repr && ctx in Repr
      && |with| == |entity.edges| == |view.with|
      && (forall k | 0 <= k < |with| && with[k] != null ::
            && with[k] in Repr && with[k].Repr <= Repr
            && this !in with[k].Repr && ctx !in with[k].Repr
            && with[k].Valid())
      && (forall j, k | 0 <= j < k < |with| && with[j] != null && with[k] != null ::
            with[j].Repr !! with[k].Repr)
      && view == view.(entity := entity, fields := ctx.fields, limit := ctx.limit, offset := ctx.offset,
                       unique := ctx.unique, order := order, predicates := predicates,
                       withFKs := withFKs, path := path)
      && forall k | 0 <= k < |with| ::
           view.with[k] == if with[k] == null then None else Some(with[k].view)
    }

    constructor (t: EntityType)
      ensures Valid() && fresh(Repr)
      ensures view == Query(t, [], None, None, None, [], [], false, None, seq(|t.edges|, _ => None))
    {
      var c := new QueryContext();
      entity, ctx := t, c;
      order, predicates, withFKs, path := [], [], false, None;
      with := seq(|t.edges|, _ => null);
      view := Query(t, [], None, None, None, [], [], false, None, seq(|t.edges|, _ => None));
      Repr := {this, c};
    }

    method Where(p: Predicate)
      requires Valid()
      modifies this
      ensures Valid() && Repr == old(Repr) && with == old(with)
      ensures view == old(view).(predicates := old(view).predicates + [p])
    {
      predicates := predicates + [p];
      view := view.(predicates := predicates);
    }

    method Limit(n: int)
      requires Valid()
      modifies this, ctx
      ensures Valid() && Repr == old(Repr) && with == old(with)
      ensures view == old(view).(limit := Some(n))
    {
      ctx.limit := Some(n);
      view := view.(limit := Some(n));
    }

    method Offset(n: int)
      requires Valid()
      modifies this, ctx
      ensures Valid() && Repr == old(Repr) && with == old(with)
      ensures view == old(view).(offset := Some(n))
    {
      ctx.offset := Some(n);
      view := view.(offset := Some(n));
    }

    method Order(t: OrderTerm)
      requires Valid()
      modifies this
      ensures Valid() && Repr == old(Repr) && with == old(with)
      ensures view == old(view).(order := old(view).order + [t])
    {
      order := order + [t];
      view := view.(order := order);
    }

    method Unique(u: bool)
      requires Valid()
      modifies this, ctx
      ensures Valid() && Repr == old(Repr) && with == old(with)
      ensures view == old(view).(unique := Some(u))
    {
      ctx.unique := Some(u);
      view := view.(unique := Some(u));
    }

    method Select(c: Column)
      requires Valid()
      modifies this, ctx
      ensures Valid() && Repr == old(Repr) && with == old(with)
      ensures view == old(view).(fields := old(view).fields + [c])
    {
      ctx.fields := ctx.fields + [c];
      view := view.(fields := ctx.fields);
    }

    /** What a one-to-many loader does to its nested builder before running it. */
    method AskForChildren(c: Column, fks: seq<ID>)
      requires Valid()
      modifies this
      ensures Valid() && Repr == old(Repr) && with == old(with)
      ensures view == Spec.ForChildren(old(view), c, fks)
    {
      withFKs := true;
      view := view.(withFKs := true);
      Where(ColumnIn(c, fks));
    }

    /** `WithX`: eager-load edge k through a nested builder. */
    method With(k: nat, nested: QueryBuilder)
      requires Valid() && nested.Valid() && k < |entity.edges|
      requires nested.Repr !! Repr
      modifies this
      ensures Valid() && Repr == old(Repr) + nested.Repr
      ensures view == old(view).(with := old(view).with[k := Some(nested.view)])
    {
      with := with[k := nested];
      Repr := Repr + nested.Repr;
      view := view.(with := view.with[k := Some(nested.view)]);
    }

    // ---------- running ----------

    /** The field check of `prepareQuery`. */
    method PrepareQuery() returns (err: Option<LoadError>)
      requires Valid()
      ensures err == match Spec.FirstInvalid(entity, ctx.fields)
                     case None => None
                     case Some(c) => Some(Spec.InvalidField(c))
    {
      var i := 0;
      while i < |ctx.fields|
        invariant 0 <= i <= |ctx.fields|
        invariant Spec.FirstInvalid(entity, ctx.fields) == Spec.FirstInvalid(entity, ctx.fields[i..])
      {
        if !ValidColumn(entity, ctx.fields[i]) {
          return Some(Spec.InvalidField(ctx.fields[i]));
        }
        i := i + 1;
      }
      return None;
    }

    /** `querySpec`, filled in step by step. */
    method BuildSpec() returns (spec: QuerySpec)
      requires Valid()
      ensures spec == SpecOf(view)
    {
      spec := QuerySpec(entity.table, entity.columns, path, false, [], [], 0, 0);
      if ctx.unique.Some? {
        spec := spec.(unique := ctx.unique.value);
      } else if path.Some? {
        spec := spec.(unique := true);
      }
      if |ctx.fields| > 0 {
        var columns := [ID_COLUMN];
        var i := 0;
        while i < |ctx.fields|
          invariant 0 <= i <= |ctx.fields|
          invariant columns == [ID_COLUMN] + Without(ctx.fields[..i], ID_COLUMN)
        {
          assert ctx.fields[..i + 1][..i] == ctx.fields[..i];
          if ctx.fields[i] != ID_COLUMN {
            columns := columns + [ctx.fields[i]];
          }
          i := i + 1;
        }
        assert ctx.fields[..i] == ctx.fields;
        spec := spec.(columns := columns);
      }
      spec := spec.(predicates := predicates, order := order);
      if ctx.limit.Some? {
        spec := spec.(limit := ctx.limit.value);
      }
      if ctx.offset.Some? {
        spec := spec.(offset := ctx.offset.value);
      }
    }

    /** The flags `sqlAll` computes first: which edges are requested, and are foreign keys needed? */
    method Flags() returns (requested: seq<bool>, fks: bool)
      requires Valid()
      ensures requested == Spec.Requested(view.with)
      ensures fks == (view.withFKs || HasManyToOne(view.entity.edges, view.with))
    {
      requested, fks := [], withFKs;
      var k := 0;
      while k < |with|
        invariant 0 <= k <= |with| && |requested| == k
        invariant forall j | 0 <= j < k :: requested[j] == (with[j] != null)
        invariant fks == (withFKs || exists j | 0 <= j < k :: entity.edges[j].kind == ManyToOne && with[j] != null)
      {
        requested := requested + [with[k] != null];
        if with[k] != null && entity.edges[k].kind == ManyToOne {
          fks := true;
        }
        k := k + 1;
      }
      assert forall j | 0 <= j < |with| :: view.with[j].Some? == (with[j] != null);
    }

    /** Running the SELECT: one fresh object per row, in row order. */
    method FetchNodes(db: Database) returns (nodes: seq<Entity>)
      requires Valid()
      ensures fresh(nodes) && Stage(nodes, {})
      ensures Views(nodes) == Spec.DecodeAll(view, NodeRows(db, view))
    {
      var spec := BuildSpec();
      var requested, fks := Flags();
      if fks {
        spec := spec.(columns := spec.columns + entity.foreignKeys);
      }
      hide QueryTree.Select, SpecSelector, HasManyToOne, Stage;
      assert spec.columns == NodeColumns(view);
      nodes := ScanRows(spec.columns, requested, QueryTree.Select(db, SpecSelector(spec)));
    }

    /** `All`: check the fields, then fetch and load. */
    method All(db: Database) returns (r: Result<seq<Entity>, LoadError>, ghost kids: set<Entity>)
      requires Valid()
      modifies Repr
      ensures Valid() && Repr == old(Repr)
      ensures view == Spec.All(db, old(view)).after
      ensures fresh(kids) && Returned(r, kids, Spec.All(db, old(view)).result)
      decreases Repr, 3
    {
      var err := PrepareQuery();
      if err.Some? {
        return Err(err.value), {};
      }
      r, kids := SqlAll(db);
    }

    /** `sqlAll`: fetch the nodes, then load the requested edges one after the other. */
    method SqlAll(db: Database) returns (r: Result<seq<Entity>, LoadError>, ghost kids: set<Entity>)
      requires Valid() && Spec.FirstInvalid(view.entity, view.fields).None?
      modifies Repr
      ensures Valid() && Repr == old(Repr)
      ensures view == Spec.All(db, old(view)).after
      ensures fresh(kids) && Returned(r, kids, Spec.All(db, old(view)).result)
      decreases Repr, 2
    {
      var nodes := FetchNodes(db);
      if |nodes| == 0 {
        return Ok(nodes), {};
      }
      var err;
      err, kids := LoadEdges(db, nodes);
      if err.Some? {
        return Err(err.value), {};
      }
      r := Ok(nodes);
      Finish(nodes, kids);
      kids := kids + set e | e in nodes;
    }

    /** The loader calls of `sqlAll`, in edge order. */
    method LoadEdges(db: Database, nodes: seq<Entity>) returns (err: Option<LoadError>, ghost kids: set<Entity>)
      requires Valid() && Stage(nodes, {})
      requires forall n | n in nodes :: n !in Repr
      modifies Repr, nodes
      ensures Valid() && Repr == old(Repr)
      ensures var (result, with) := Spec.LoadAll(db, old(view), old(Views(nodes)), 0);
              view == old(view).(with := with) && Outcome(err, nodes, result)
      ensures fresh(kids)
      ensures err.None? ==> Stage(nodes, kids)
      decreases Repr, 1
    {
      hide Spec.LoadAll, Spec.LoadEdge, Progress, Graph;
      ghost var q, start := view, Views(nodes);
      ProgressStarts(db, q, start);
      kids := {};
      var k := 0;
      while k < |with|
        invariant 0 <= k <= |with|
        invariant Valid() && Repr == old(Repr) && with == old(with)
        invariant fresh(kids) && Stage(nodes, kids)
        invariant view == q.(with := view.with)
        invariant Progress(db, q, start, Views(nodes), view.with, k)
      {
        ghost var now, nested := Views(nodes), view.with;
        assert view.with[k].Some? == (with[k] != null);
        if with[k] != null {
          err, kids := LoadSlot(db, k, nodes, kids);
          if err.Some? {
            ProgressFails(db, q, start, now, nested, k);
            return;
          }
          ProgressStep(db, q, start, now, nested, k);
        } else {
          ProgressSkip(db, q, start, now, nested, k);
        }
        k := k + 1;
      }
      ProgressEnds(db, q, start, Views(nodes), view.with);
      err := None;
    }

    /** Loads edge k through its nested builder. */
    method LoadSlot(db: Database, k: nat, nodes: seq<Entity>, ghost before: set<Entity>)
      returns (err: Option<LoadError>, ghost kids: set<Entity>)
      requires Valid() && k < |with| && with[k] != null && Stage(nodes, before)
      requires forall n | n in nodes || n in before :: n !in Repr
      modifies Repr, nodes
      ensures Valid() && Repr == old(Repr) && with == old(with)
      ensures var one := Spec.LoadEdge(db, entity.edges[k], old(view).with[k].value, old(Views(nodes)), k);
              && view == old(view).(with := old(view).with[k := Some(one.after)])
              && Outcome(err, nodes, one.result)
      ensures fresh(kids - before)
      ensures err.None? ==> Stage(nodes, kids)
      decreases Repr, 0
    {
      hide Spec.LoadEdge, Stage, Graph, Outcome;
      err, kids := LoadEdge(db, entity.edges[k], with[k], nodes, k, before);
      forall j | 0 <= j < |with| && j != k && with[j] != null
        ensures with[j].Valid() && with[j].Repr == old(with[j].Repr) && with[j].view == old(with[j].view)
      {
        assert with[j].Repr !! with[k].Repr;
      }
      view := view.(with := view.with[k := Some(with[k].view)]);
    }

    // ---------- the other ends of a query chain ----------

    method First(db: Database) returns (r: Terminals.Answer<Entity>, ghost kids: set<Entity>)
      requires Valid()
      modifies Repr
      ensures Valid() && Repr == old(Repr)
      ensures view == Spec.All(db, old(view).(limit := Some(1))).after
      ensures fresh(kids) && Answered(r, kids, Terminals.FirstAnswer(db, old(view)))
    {
      Limit(1);
      var nodes;
      nodes, kids := All(db);
      match nodes
      case Err(e) => r := Terminals.Failed(e);
      case Ok(found) =>
        if |found| == 0 {
          r := Terminals.NotFound;
        } else {
          r := Terminals.Found(found[0]);
        }
    }

    method Only(db: Database) returns (r: Terminals.Answer<Entity>, ghost kids: set<Entity>)
      requires Valid()
      modifies Repr
      ensures Valid() && Repr == old(Repr)
      ensures view == Spec.All(db, old(view).(limit := Some(2))).after
      ensures fresh(kids) && Answered(r, kids, Terminals.OnlyAnswer(db, old(view)))
    {
      Limit(2);
      var nodes;
      nodes, kids := All(db);
      match nodes
      case Err(e) => r := Terminals.Failed(e);
      case Ok(found) =>
        if |found| == 1 {
          r := Terminals.Found(found[0]);
        } else if |found| == 0 {
          r := Terminals.NotFound;
        } else {
          r := Terminals.NotSingular;
        }
    }

    /** `sqlQuery`, filled in step by step. */
    method BuildSelector() returns (s: Selector)
      requires Valid()
      ensures s == SelectorOf(view)
    {
      var columns := ctx.fields;
      if |columns| == 0 {
        columns := entity.columns;
      }
      s := Selector(entity.table, columns, path, false, [], [], None, None);
      if ctx.unique.Some? && ctx.unique.value {
        s := s.(distinct := true);
      }
      s := s.(predicates := predicates, order := order);
      if ctx.offset.Some? {
        s := s.(offset := ctx.offset, limit := Some(MAX_INT32));
      }
      if ctx.limit.Some? {
        s := s.(limit := ctx.limit);
      }
    }

    method IDs(db: Database) returns (r: Result<seq<ID>, Terminals.ScanError>)
      requires Valid()
      modifies this, ctx
      ensures Valid() && Repr == old(Repr)
      ensures view == Terminals.AfterIDs(old(view))
      ensures r == Terminals.IDs(db, old(view))
    {
      if ctx.unique.None? && path.Some? {
        Unique(true);
      }
      Select(ID_COLUMN);
      var err := PrepareQuery();
      if err.Some? {
        return Err(Terminals.BadField(err.value.name));
      }
      var s := BuildSelector();
      if |s.columns| != 1 {
        return Err(Terminals.TooManyColumns(|s.columns|));
      }
      r := Ok(RowIDs(QueryTree.Select(db, s)));
    }

    method Exist(db: Database) returns (r: Result<bool, Terminals.ScanError>)
      requires Valid()
      modifies this, ctx
      ensures Valid() && Repr == old(Repr)
      ensures view == Terminals.AfterIDs(old(view).(limit := Some(1)))
      ensures r == Terminals.Exist(db, old(view))
    {
      Limit(1);
      var ids := IDs(db);
      match ids
      case Err(e) => r := Err(e);
      case Ok(found) => r := Ok(|found| != 0);
    }

    // ---------- copying ----------

    /** The struct literal at the end of `Clone`: a builder around copied parts. */
    constructor Assemble(t: EntityType, c: QueryContext, os: seq<OrderTerm>, ps: seq<Predicate>, via: Option<Path>,
                         copies: seq<QueryBuilder?>, ghost owned: set<object>, ghost image: Query)
      requires |copies| == |t.edges| == |image.with|
      requires image == Query(t, c.fields, c.limit, c.offset, c.unique, os, ps, false, via, image.with)
      requires Separate(copies, owned) && c !in owned
      requires forall k | 0 <= k < |copies| ::
                 image.with[k] == if copies[k] == null then None else Some(copies[k].view)
      ensures Valid() && Repr == {this, c} + owned
      ensures view == image
    {
      entity, ctx := t, c;
      order, predicates, withFKs, path := os, ps, false, via;
      with := copies;
      view := image;
      Repr := {this, c} + owned;
    }

    /** Copies the nested builders, recursively. */
    method CloneNested() returns (copies: seq<QueryBuilder?>, ghost owned: set<object>)
      requires Valid()
      ensures Separate(copies, owned) && fresh(owned) && |copies| == |with|
      ensures forall k | 0 <= k < |with| ::
                (copies[k] == null) == (with[k] == null) &&
                (with[k] != null ==> copies[k].view == QueryClone.Cloned(with[k].view))
      decreases Repr, 0
    {
      copies, owned := [], {};
      while |copies| < |with|
        invariant |copies| <= |with|
        invariant Separate(copies, owned) && fresh(owned)
        invariant forall k | 0 <= k < |copies| ::
                    (copies[k] == null) == (with[k] == null) &&
                    (with[k] != null ==> copies[k].view == QueryClone.Cloned(with[k].view))
      {
        if with[|copies|] == null {
          copies := copies + [null];
        } else {
          var copy := with[|copies|].Clone();
          copies, owned := copies + [copy], owned + copy.Repr;
        }
      }
    }

    /** Copies the builder with everything it owns. */
    method Clone() returns (c: QueryBuilder)
      requires Valid()
      ensures c.Valid() && fresh(c.Repr)
      ensures c.view == QueryClone.Cloned(view)
      decreases Repr, 1
    {
      var copies: seq<QueryBuilder?>;
      ghost var owned;
      copies, owned := CloneNested();
      var context := ctx.Clone();
      c := new QueryBuilder.Assemble(entity, context, order, predicates, path, copies, owned, QueryClone.Cloned(view));
    }
  }

  /**
   Configuring and running a clone touches no object that existed before, so the
   original and everything it owns stay as they are.
   */
  method RunClone(db: Database, q: QueryBuilder, p: Predicate, t: OrderTerm, n: int)
    returns (r: Result<seq<Entity>, LoadError>, ghost kids: set<Entity>)
    requires q.Valid()
    ensures fresh(kids)
    ensures var c := QueryClone.Cloned(q.view);
            Returned(r, kids,
              Spec.All(db, c.(predicates := c.predicates + [p], order := c.order + [t], limit := Some(n))).result)
  {
    var c := q.Clone();
    c.Where(p);
    c.Order(t);
    c.Limit(n);
    r, kids := c.All(db);
  }

  /** A decoded row, whose edges are not loaded yet. */
  function Scanned(columns: seq<Column>, requested: seq<bool>, r: Row): Node {
    Spec.Node(r.id, Project(columns, r).cells, requested, Spec.NoLinks(|requested|))
  }

  /** One object per row. */
  method ScanRows(columns: seq<Column>, requested: seq<bool>, rows: seq<Row>) returns (nodes: seq<Entity>)
    ensures fresh(nodes) && Stage(nodes, {}) && |nodes| == |rows|
    ensures forall i | 0 <= i < |rows| ::
              nodes[i].view == Scanned(columns, requested, rows[i])
  {
    nodes := [];
    while |nodes| < |rows|
      invariant |nodes| <= |rows| && fresh(nodes) && Stage(nodes, {})
      invariant forall i | 0 <= i < |nodes| ::
                  nodes[i].view == Scanned(columns, requested, rows[i])
    {
      var node := new Entity(columns, requested, rows[|nodes|]);
      nodes := nodes + [node];
    }
  }

  /** Nested builders that share nothing, and what they own together. */
  ghost predicate Separate(bs: seq<QueryBuilder?>, owned: set<object>)
    reads owned
  {
    && (forall k | 0 <= k < |bs| && bs[k] != null ::
          bs[k] in owned && bs[k].Repr <= owned && bs[k].Valid())
    && forall j, k | 0 <= j < k < |bs| && bs[j] != null && bs[k] != null :: bs[j].Repr !! bs[k].Repr
  }

  ghost predicate Answered(r: Terminals.Answer<Entity>, kids: set<Entity>, spec: Terminals.Answer<Node>)
    reads kids, if r.Found? then {r.value} else {}
  {
    match spec
    case Found(n) => r.Found? && Graph(kids) && r.value in kids && r.value.view == n
    case NotFound => r.NotFound?
    case NotSingular => r.NotSingular?
    case Failed(e) => r == Terminals.Failed(e)
  }

  // ---------- the loop over edges, on values ----------

  /** After edges 0..k: the rest of the specified run starts from `now`, and `nested` is final up to k. */
  ghost predicate Progress(db: Database, q: Query, start: seq<Node>, now: seq<Node>,
                           nested: seq<Option<Query>>, k: nat)
  {
    var (result, with) := Spec.LoadAll(db, q, start, 0);
    var (rest, tail) := Spec.LoadAll(db, q, now, k);
    && k <= |q.with| == |nested|
    && result == rest
    && forall j | 0 <= j < |nested| ::
         if j < k then with[j] == nested[j] else with[j] == tail[j] && nested[j] == q.with[j]
  }

  lemma ProgressStarts(db: Database, q: Query, start: seq<Node>)
    ensures Progress(db, q, start, start, q.with, 0)
  {
    Rerun.LoadAllKeepsShape(db, q, start, 0);
  }

  lemma ProgressSkip(db: Database, q: Query, start: seq<Node>, now: seq<Node>, nested: seq<Option<Query>>, k: nat)
    requires Progress(db, q, start, now, nested, k) && k < |q.with| && nested[k].None?
    ensures Progress(db, q, start, now, nested, k + 1)
  {
    Rerun.LoadAllKeepsShape(db, q, now, k + 1);
  }

  lemma ProgressStep(db: Database, q: Query, start: seq<Node>, now: seq<Node>, nested: seq<Option<Query>>, k: nat)
    requires Progress(db, q, start, now, nested, k)
    requires k < |q.with| && nested[k].Some? && k < |q.entity.edges|
    requires Spec.LoadEdge(db, q.entity.edges[k], nested[k].value, now, k).result.Ok?
    ensures var one := Spec.LoadEdge(db, q.entity.edges[k], nested[k].value, now, k);
            Progress(db, q, start, one.result.value, nested[k := Some(one.after)], k + 1)
  {
    var one := Spec.LoadEdge(db, q.entity.edges[k], nested[k].value, now, k);
    Rerun.LoadAllKeepsShape(db, q, one.result.value, k + 1);
  }

  lemma ProgressFails(db: Database, q: Query, start: seq<Node>, now: seq<Node>, nested: seq<Option<Query>>, k: nat)
    requires Progress(db, q, start, now, nested, k)
    requires k < |q.with| && nested[k].Some? && k < |q.entity.edges|
    requires Spec.LoadEdge(db, q.entity.edges[k], nested[k].value, now, k).result.Err?
    ensures var one := Spec.LoadEdge(db, q.entity.edges[k], nested[k].value, now, k);
            Spec.LoadAll(db, q, start, 0) == (one.result, nested[k := Some(one.after)])
  {
    var one := Spec.LoadEdge(db, q.entity.edges[k], nested[k].value, now, k);
    assert Spec.LoadAll(db, q, now, k) == (one.result, q.with[k := Some(one.after)]);
    assert Spec.LoadAll(db, q, start, 0).1 == nested[k := Some(one.after)];
  }

  lemma ProgressEnds(db: Database, q: Query, start: seq<Node>, now: seq<Node>, nested: seq<Option<Query>>)
    requires Progress(db, q, start, now, nested, |q.with|)
    ensures Spec.LoadAll(db, q, start, 0) == (Ok(now), nested)
  {
    assert Spec.LoadAll(db, q, start, 0).1 == nested;
  }

  // ---------- what a run hands back ----------

  ghost predicate Returned(r: Result<seq<Entity>, LoadError>, kids: set<Entity>, spec: Spec.Loaded)
    reads kids, if r.Ok? then set e | e in r.value else {}
  {
    match spec
    case Err(e) => r == Err(e)
    case Ok(nodes) =>
      && r.Ok? && Graph(kids) && DistinctObjects(r.value)
      && (forall e | e in r.value :: e in kids)
      && Views(r.value) == nodes
  }

  /** Once every edge is loaded the nodes themselves are finished objects. */
  lemma Finish(es: seq<Entity>, kids: set<Entity>)
    requires Stage(es, kids)
    ensures Graph(kids + set e | e in es)
  {
  }

  lemma StageGrows(es: seq<Entity>, kids: set<Entity>, more: set<Entity>)
    requires Stage(es, kids) && Graph(more)
    requires forall i | 0 <= i < |es| :: es[i] !in more
    ensures Stage(es, kids + more)
  {
  }

  // ---------- loaders ----------

  method LoadEdge(db: Database, e: Edge, nested: QueryBuilder, nodes: seq<Entity>, k: nat, ghost before: set<Entity>)
    returns (err: Option<LoadError>, ghost kids: set<Entity>)
    requires nested.Valid() && Stage(nodes, before)
    requires forall n | n in nodes || n in before :: n !in nested.Repr
    modifies nested.Repr, nodes
    ensures nested.Valid() && nested.Repr == old(nested.Repr)
    ensures fresh(kids - before)
    ensures var spec := Spec.LoadEdge(db, e, old(nested.view), old(Views(nodes)), k);
            nested.view == spec.after && Outcome(err, nodes, spec.result)
    ensures err.None? ==> Stage(nodes, kids)
    decreases nested.Repr, 6
  {
    match e.kind
    case OneToMany => err, kids := LoadChildren(db, e, nested, nodes, k, before);
    case ManyToOne => err, kids := LoadParents(db, e, nested, nodes, k, before);
  }

  /** Runs a nested builder while the nodes of the outer one wait. */
  method RunNested(db: Database, nested: QueryBuilder, nodes: seq<Entity>, ghost before: set<Entity>)
    returns (r: Result<seq<Entity>, LoadError>, ghost kids: set<Entity>)
    requires nested.Valid() && Stage(nodes, before)
    requires forall n | n in nodes || n in before :: n !in nested.Repr
    modifies nested.Repr
    ensures nested.Valid() && nested.Repr == old(nested.Repr)
    ensures nested.view == Spec.All(db, old(nested.view)).after
    ensures fresh(kids - before) && Stage(nodes, kids)
    ensures Views(nodes) == old(Views(nodes))
    ensures match Spec.All(db, old(nested.view)).result
            case Err(e) => r == Err(e)
            case Ok(found) => r.Ok? && Views(r.value) == found && forall n | n in r.value :: n in kids
    decreases nested.Repr, 4
  {
    hide Spec.All;
    kids := before;
    ghost var found;
    r, found := nested.All(db);
    assert Views(nodes) == old(Views(nodes));
    if r.Ok? {
      StageGrows(nodes, before, found);
      kids := before + found;
    }
  }

  lemma ChildrenRun(db: Database, e: Edge, nested: Query, nodes: seq<Node>, k: nat)
    requires e.kind == OneToMany
    ensures var run := Spec.All(db, Spec.ForChildren(nested, e.column, Spec.IDsOf(nodes)));
            Spec.LoadEdge(db, e, nested, nodes, k) ==
            if run.result.Err? then run
            else run.(result := Spec.AttachChildren(Spec.ResetLinks(nodes, k), k, e.column, run.result.value))
  {
  }

  lemma ParentsRun(db: Database, e: Edge, nested: Query, nodes: seq<Node>, k: nat)
    requires e.kind == ManyToOne
    ensures var keys := Spec.Keys(nodes, e.column);
            var run := Spec.All(db, Spec.ForParents(nested, keys));
            Spec.LoadEdge(db, e, nested, nodes, k) ==
            if keys == [] then Spec.Run(Ok(nodes), nested)
            else if run.result.Err? then run
            else run.(result := Spec.AttachParents(nodes, k, e.column, run.result.value))
  {
  }

  /** `loadFiles` and its siblings. */
  method LoadChildren(db: Database, e: Edge, nested: QueryBuilder, nodes: seq<Entity>, k: nat,
                      ghost before: set<Entity>)
    returns (err: Option<LoadError>, ghost kids: set<Entity>)
    requires nested.Valid() && Stage(nodes, before) && e.kind == OneToMany
    requires forall n | n in nodes || n in before :: n !in nested.Repr
    modifies nested.Repr, nodes
    ensures nested.Valid() && nested.Repr == old(nested.Repr)
    ensures fresh(kids - before)
    ensures var spec := Spec.LoadEdge(db, e, old(nested.view), old(Views(nodes)), k);
            nested.view == spec.after && Outcome(err, nodes, spec.result)
    ensures err.None? ==> Stage(nodes, kids)
    decreases nested.Repr, 5
  {
    hide Spec.All, Spec.LoadEdge, Stage, Graph, IsIndex, Spec.AttachChildren;
    ChildrenRun(db, e, nested.view, Views(nodes), k);
    kids := before;
    var fks, index := IndexByID(nodes, k, before);
    nested.AskForChildren(e.column, fks);
    var neighbors;
    neighbors, kids := RunNested(db, nested, nodes, before);
    if neighbors.Err? {
      return Some(neighbors.error), before;
    }
    err := AttachChildren(nodes, k, e.column, index, neighbors.value, kids);
  }

  /** `loadScan` and its siblings. */
  method LoadParents(db: Database, e: Edge, nested: QueryBuilder, nodes: seq<Entity>, k: nat,
                     ghost before: set<Entity>)
    returns (err: Option<LoadError>, ghost kids: set<Entity>)
    requires nested.Valid() && Stage(nodes, before) && e.kind == ManyToOne
    requires forall n | n in nodes || n in before :: n !in nested.Repr
    modifies nested.Repr, nodes
    ensures nested.Valid() && nested.Repr == old(nested.Repr)
    ensures fresh(kids - before)
    ensures var spec := Spec.LoadEdge(db, e, old(nested.view), old(Views(nodes)), k);
            nested.view == spec.after && Outcome(err, nodes, spec.result)
    ensures err.None? ==> Stage(nodes, kids)
    decreases nested.Repr, 5
  {
    hide Spec.All, Spec.LoadEdge, Stage, Graph, IsGrouping, Spec.AttachParents;
    ParentsRun(db, e, nested.view, Views(nodes), k);
    kids := before;
    var ids, groups := GroupByKey(nodes, e.column, before);
    if |ids| == 0 {
      return None, before;
    }
    nested.Where(IDIn(ids));
    var neighbors;
    neighbors, kids := RunNested(db, nested, nodes, before);
    if neighbors.Err? {
      return Some(neighbors.error), before;
    }
    err := AttachParents(nodes, k, e.column, groups, neighbors.value, kids);
  }
}
