/**
 Loaded entities as the heap objects the generated code builds: rows become
 objects, and a loader attaches edges by updating them through the pointers
 held in its index.  The ghost `view` of an object is the value it stands for.
 */
module EntityGraph {
  import opened Base
  import opened Store
  import opened QueryTree
  import Spec = EagerSpec
  import Index = EagerIndex

  type Link<T> = Spec.Link<T>
  type Node = Spec.Node
  type LoadError = Spec.LoadError

  class Entity {
    const id: ID
    const cells: map<Column, Cell>
    const loaded: seq<bool>
    var links: seq<Link<Entity>>
    ghost var view: Node

    /** The object stands for its view, and all its edges stay within `kids`. */
    ghost predicate Mirrors(kids: set<Entity>)
      reads this, kids
    {
      && view.id == id && view.cells == cells && view.loaded == loaded
      && |view.links| == |links|
      && forall k | 0 <= k < |links| :: LinkMirrors(links[k], view.links[k], kids)
    }

    /** A decoded row; `requested` says which edges will be loaded. */
    constructor (columns: seq<Column>, requested: seq<bool>, row: Row)
      ensures view == Spec.Node(row.id, Project(columns, row).cells, requested, Spec.NoLinks(|requested|))
      ensures Mirrors({})
    {
      id := row.id;
      cells := Project(columns, row).cells;
      loaded := requested;
      links := seq(|requested|, _ => Spec.Unset);
      view := Spec.Node(row.id, Project(columns, row).cells, requested, Spec.NoLinks(|requested|));
    }

    method SetLink(k: nat, link: Link<Entity>, ghost image: Link<Node>, ghost kids: set<Entity>)
      requires this !in kids && Mirrors(kids) && LinkMirrors(link, image, kids)
      modifies this
      ensures Mirrors(kids)
      ensures view == Spec.SetLink(old(view), k, image)
    {
      if k < |links| {
        links := links[k := link];
        view := Spec.SetLink(view, k, image);
      }
    }
  }

  ghost predicate LinkMirrors(link: Link<Entity>, image: Link<Node>, kids: set<Entity>)
    reads kids
  {
    match link
    case Unset => image.Unset?
    case One(e) => image.One? && e in kids && e.view == image.item
    case Many(es) =>
      image.Many? && |es| == |image.list| &&
      forall i | 0 <= i < |es| :: es[i] in kids && es[i].view == image.list[i]
  }

  /** A set of finished objects, closed under edges. */
  ghost predicate Graph(kids: set<Entity>)
    reads kids
  {
    forall e | e in kids :: e.Mirrors(kids)
  }

  ghost predicate DistinctObjects(es: seq<Entity>) {
    forall i, j | 0 <= i < j < |es| :: es[i] != es[j]
  }

  /** Objects whose edges are being loaded, and the finished objects their edges lead to. */
  ghost predicate Stage(es: seq<Entity>, kids: set<Entity>)
    reads es, kids
  {
    && DistinctObjects(es)
    && Graph(kids)
    && forall i | 0 <= i < |es| :: es[i] !in kids && es[i].Mirrors(kids)
  }

  ghost function Views(es: seq<Entity>): (vs: seq<Node>)
    reads es
    ensures |vs| == |es|
    ensures forall i | 0 <= i < |es| :: vs[i] == es[i].view
  {
    seq(|es|, i requires 0 <= i < |es| reads es => es[i].view)
  }

  // ---------- one-to-many ----------

  /** Position m holds the last object with this id. */
  ghost predicate LastAt(es: seq<Entity>, m: int, id: ID, e: Entity) {
    0 <= m < |es| && es[m] == e && e.id == id && forall j | m < j < |es| :: es[j].id != id
  }

  ghost predicate IsIndex(es: seq<Entity>, index: map<ID, Entity>) {
    && (forall i | 0 <= i < |es| :: es[i].id in index)
    && forall id | id in index :: exists m :: LastAt(es, m, id, index[id])
  }

  /** The first loop of a one-to-many loader: collect the ids, index the nodes, reset the edge. */
  method IndexByID(es: seq<Entity>, k: nat, ghost kids: set<Entity>)
    returns (fks: seq<ID>, index: map<ID, Entity>)
    requires Stage(es, kids)
    modifies es
    ensures Stage(es, kids)
    ensures fks == Spec.IDsOf(old(Views(es))) && IsIndex(es, index)
    ensures Views(es) == Spec.ResetLinks(old(Views(es)), k)
  {
    fks, index := [], map[];
    ghost var start := Views(es);
    var i := 0;
    while i < |es|
      invariant 0 <= i <= |es| && |fks| == i
      invariant forall j | 0 <= j < i :: fks[j] == es[j].id
      invariant IsIndex(es[..i], index)
      invariant Stage(es, kids)
      invariant forall j | 0 <= j < |es| ::
                  es[j].view == if j < i then Spec.SetLink(start[j], k, Spec.Many([])) else start[j]
    {
      fks := fks + [es[i].id];
      IndexGrows(es[..i], es[i], index);
      index := index[es[i].id := es[i]];
      assert es[..i + 1] == es[..i] + [es[i]];
      es[i].SetLink(k, Spec.Many([]), Spec.Many([]), kids);
      i := i + 1;
    }
    assert es[..i] == es;
  }

  lemma IndexGrows(es: seq<Entity>, e: Entity, index: map<ID, Entity>)
    requires IsIndex(es, index)
    ensures IsIndex(es + [e], index[e.id := e])
  {
    var after := index[e.id := e];
    forall id | id in after ensures exists m :: LastAt(es + [e], m, id, after[id]) {
      if id == e.id {
        assert LastAt(es + [e], |es|, id, after[id]);
      } else {
        var m :| LastAt(es, m, id, index[id]);
        assert LastAt(es + [e], m, id, after[id]);
      }
    }
  }

  /** Looking up a key in the index is what `LastIndex` describes. */
  lemma IndexIsLast(es: seq<Entity>, index: map<ID, Entity>, nodes: seq<Node>, id: ID)
    requires IsIndex(es, index) && |nodes| == |es|
    requires forall i | 0 <= i < |es| :: nodes[i].id == es[i].id
    ensures id in index <==> Spec.LastIndex(nodes, id) >= 0
    ensures id in index ==> index[id] == es[Spec.LastIndex(nodes, id)]
  {
    Index.LastIndexExact(nodes, id);
    var last := Spec.LastIndex(nodes, id);
    if id in index {
      var m :| LastAt(es, m, id, index[id]);
      assert nodes[m].id == id;
    }
  }

  method AppendChild(e: Entity, k: nat, child: Entity, ghost kids: set<Entity>)
    requires e !in kids && child in kids && e.Mirrors(kids)
    modifies e
    ensures e.Mirrors(kids)
    ensures e.view == Spec.AppendLink(old(e.view), k, child.view)
  {
    if k < |e.links| && e.links[k].Many? {
      e.SetLink(k, Spec.Many(e.links[k].list + [child]), Spec.Many(e.view.links[k].list + [child.view]), kids);
    } else {
      e.SetLink(k, Spec.Many([child]), Spec.Many([child.view]), kids);
    }
  }

  ghost predicate Outcome(err: Option<LoadError>, es: seq<Entity>, spec: Spec.Loaded)
    reads es
  {
    match spec
    case Ok(nodes) => err.None? && Views(es) == nodes
    case Err(e) => err == Some(e)
  }

  method AttachChild(es: seq<Entity>, k: nat, c: Column, index: map<ID, Entity>,
                     child: Entity, ghost kids: set<Entity>)
    returns (err: Option<LoadError>)
    requires Stage(es, kids) && IsIndex(es, index) && child in kids
    modifies es
    ensures Stage(es, kids)
    ensures Outcome(err, es, Spec.AttachChild(old(Views(es)), k, c, child.view))
  {
    ghost var now := Views(es);
    assert child.Mirrors(kids);
    var fk := ForeignKey(child.cells, c);
    if fk.None? {
      return Some(Spec.NilForeignKey(c, child.id));
    }
    IndexIsLast(es, index, now, fk.value);
    if fk.value !in index {
      return Some(Spec.UnexpectedForeignKey(c, fk.value));
    }
    AppendChild(index[fk.value], k, child, kids);
    assert Views(es) == now[Spec.LastIndex(now, fk.value) :=
                            Spec.AppendLink(now[Spec.LastIndex(now, fk.value)], k, child.view)];
    return None;
  }

  /** The last loop of a one-to-many loader. */
  method AttachChildren(es: seq<Entity>, k: nat, c: Column, index: map<ID, Entity>,
                        children: seq<Entity>, ghost kids: set<Entity>)
    returns (err: Option<LoadError>)
    requires Stage(es, kids) && IsIndex(es, index)
    requires forall j | 0 <= j < |children| :: children[j] in kids
    modifies es
    ensures Stage(es, kids)
    ensures Outcome(err, es, Spec.AttachChildren(old(Views(es)), k, c, old(Views(children))))
  {
    hide IsIndex, ForeignKey, Spec.AttachChild;
    ghost var start, found := Views(es), Views(children);
    var j := 0;
    while j < |children|
      invariant 0 <= j <= |children|
      invariant Stage(es, kids)
      invariant Views(children) == found
      invariant Spec.AttachChildren(start, k, c, found[..j]) == Ok(Views(es))
    {
      ChildStep(start, Views(es), k, c, found, j);
      err := AttachChild(es, k, c, index, children[j], kids);
      if err.Some? {
        AttachStops(start, k, c, found, j + 1);
        return;
      }
      j := j + 1;
    }
    assert found[..j] == found;
    return None;
  }

  lemma ChildStep(start: seq<Node>, now: seq<Node>, k: nat, c: Column, found: seq<Node>, j: nat)
    requires j < |found| && Spec.AttachChildren(start, k, c, found[..j]) == Ok(now)
    ensures Spec.AttachChildren(start, k, c, found[..j + 1]) == Spec.AttachChild(now, k, c, found[j])
  {
    assert found[..j + 1][..j] == found[..j];
  }

  lemma {:induction false} AttachStops(start: seq<Node>, k: nat, c: Column, found: seq<Node>, j: nat)
    requires j <= |found| && Spec.AttachChildren(start, k, c, found[..j]).Err?
    ensures Spec.AttachChildren(start, k, c, found) == Spec.AttachChildren(start, k, c, found[..j])
  {
    if j == |found| {
      assert found[..j] == found;
    } else {
      var n := |found| - 1;
      assert found[..n][..j] == found[..j];
      AttachStops(start, k, c, found[..n], j);
    }
  }

  // ---------- many-to-one ----------

  /** The groups list, for every key, exactly the nodes that hold it. */
  ghost predicate IsGrouping(es: seq<Entity>, c: Column, groups: map<ID, seq<Entity>>) {
    && (forall i | 0 <= i < |es| && ForeignKey(es[i].cells, c).Some? ::
          ForeignKey(es[i].cells, c).value in groups && es[i] in groups[ForeignKey(es[i].cells, c).value])
    && forall id | id in groups ::
         DistinctObjects(groups[id]) &&
         forall e | e in groups[id] :: e in es && ForeignKey(e.cells, c) == Some(id)
  }

  ghost predicate KeyedBy(groups: map<ID, seq<Entity>>, ids: seq<ID>) {
    forall id :: id in groups <==> id in ids
  }

  /** The first loop of a many-to-one loader: distinct keys in order, and the nodes behind each. */
  method GroupByKey(es: seq<Entity>, c: Column, ghost kids: set<Entity>)
    returns (ids: seq<ID>, groups: map<ID, seq<Entity>>)
    requires Stage(es, kids)
    ensures ids == Spec.Keys(Views(es), c)
    ensures KeyedBy(groups, ids)
    ensures IsGrouping(es, c, groups)
  {
    hide IsGrouping, ForeignKey;
    ids, groups := [], map[];
    ghost var nodes := Views(es);
    NoGroups(c);
    var i := 0;
    while i < |es|
      invariant 0 <= i <= |es|
      invariant ids == Spec.Keys(nodes[..i], c)
      invariant KeyedBy(groups, ids)
      invariant IsGrouping(es[..i], c, groups)
    {
      assert nodes[..i + 1][..i] == nodes[..i];
      assert es[i].Mirrors(kids);
      GroupGrows(es[..i], c, es[i], groups);
      assert es[..i + 1] == es[..i] + [es[i]];
      if ForeignKey(es[i].cells, c).Some? {
        var fk := ForeignKey(es[i].cells, c).value;
        if fk !in groups {
          ids := ids + [fk];
          groups := groups[fk := [es[i]]];
        } else {
          groups := groups[fk := groups[fk] + [es[i]]];
        }
      }
      i := i + 1;
    }
    assert nodes[..i] == nodes && es[..i] == es;
  }

  lemma NoGroups(c: Column)
    ensures IsGrouping([], c, map[])
  {
  }

  ghost function Grouped(groups: map<ID, seq<Entity>>, c: Column, e: Entity): map<ID, seq<Entity>> {
    match ForeignKey(e.cells, c)
    case None => groups
    case Some(fk) => groups[fk := if fk in groups then groups[fk] + [e] else [e]]
  }

  lemma GroupGrows(es: seq<Entity>, c: Column, e: Entity, groups: map<ID, seq<Entity>>)
    requires e !in es && IsGrouping(es, c, groups)
    ensures IsGrouping(es + [e], c, Grouped(groups, c, e))
  {
  }

  method PointAt(es: seq<Entity>, k: nat, group: seq<Entity>, parent: Entity, ghost kids: set<Entity>)
    requires Stage(es, kids) && parent in kids
    requires DistinctObjects(group) && forall e | e in group :: e in es
    modifies es
    ensures Stage(es, kids)
    ensures forall i | 0 <= i < |es| :: es[i].view ==
              if es[i] in group then Spec.SetLink(old(es[i].view), k, Spec.One(parent.view)) else old(es[i].view)
  {
    ghost var image := parent.view;
    var m := 0;
    while m < |group|
      invariant 0 <= m <= |group|
      invariant Stage(es, kids) && parent.view == image
      invariant forall i | 0 <= i < |es| :: es[i].view ==
                  if es[i] in group[..m] then Spec.SetLink(old(es[i].view), k, Spec.One(image)) else old(es[i].view)
    {
      assert group[m] in group && group[m] in es;
      assert group[m] !in group[..m];
      group[m].SetLink(k, Spec.One(parent), Spec.One(image), kids);
      assert group[..m + 1] == group[..m] + [group[m]];
      m := m + 1;
    }
    assert group[..m] == group;
  }

  method AttachParent(es: seq<Entity>, k: nat, c: Column, groups: map<ID, seq<Entity>>,
                      parent: Entity, ghost kids: set<Entity>)
    returns (err: Option<LoadError>)
    requires Stage(es, kids) && IsGrouping(es, c, groups) && parent in kids
    requires KeyedBy(groups, Spec.Keys(Views(es), c))
    modifies es
    ensures Stage(es, kids)
    ensures Outcome(err, es, Spec.AttachParent(old(Views(es)), k, c, parent.view))
    ensures Spec.Keys(Views(es), c) == old(Spec.Keys(Views(es), c))
  {
    ghost var now := Views(es);
    assert parent.Mirrors(kids);
    if parent.id !in groups {
      return Some(Spec.UnexpectedForeignKey(c, parent.id));
    }
    PointAt(es, k, groups[parent.id], parent, kids);
    GroupIsKey(es, c, groups, parent.id);
    PointsLikeSpec(es, kids, now, k, c, groups[parent.id], parent.view);
    Index.KeysOfLinks(Views(es), now, c);
    return None;
  }

  lemma PointsLikeSpec(es: seq<Entity>, kids: set<Entity>, now: seq<Node>, k: nat, c: Column,
                       group: seq<Entity>, parent: Node)
    requires Stage(es, kids) && |now| == |es|
    requires forall i | 0 <= i < |es| :: now[i].cells == es[i].cells
    requires forall i | 0 <= i < |es| :: es[i] in group <==> ForeignKey(es[i].cells, c) == Some(parent.id)
    requires forall i | 0 <= i < |es| :: es[i].view ==
               if es[i] in group then Spec.SetLink(now[i], k, Spec.One(parent)) else now[i]
    ensures Views(es) == Spec.PointTo(now, k, c, parent)
  {
    forall i | 0 <= i < |es| ensures es[i].view == Spec.PointNode(now[i], k, c, parent) {
      assert ForeignKey(now[i].cells, c) == ForeignKey(es[i].cells, c);
    }
  }

  /** The last loop of a many-to-one loader. */
  method AttachParents(es: seq<Entity>, k: nat, c: Column, groups: map<ID, seq<Entity>>,
                       parents: seq<Entity>, ghost kids: set<Entity>)
    returns (err: Option<LoadError>)
    requires Stage(es, kids) && IsGrouping(es, c, groups)
    requires KeyedBy(groups, Spec.Keys(Views(es), c))
    requires forall j | 0 <= j < |parents| :: parents[j] in kids
    modifies es
    ensures Stage(es, kids)
    ensures Outcome(err, es, Spec.AttachParents(old(Views(es)), k, c, old(Views(parents))))
  {
    hide IsGrouping, KeyedBy, ForeignKey, Spec.AttachParent, Spec.Keys;
    ghost var start, found := Views(es), Views(parents);
    var j := 0;
    while j < |parents|
      invariant 0 <= j <= |parents|
      invariant Stage(es, kids)
      invariant Views(parents) == found
      invariant Spec.AttachParents(start, k, c, found[..j]) == Ok(Views(es))
      invariant Spec.Keys(Views(es), c) == Spec.Keys(start, c)
    {
      ParentStep(start, Views(es), k, c, found, j);
      err := AttachParent(es, k, c, groups, parents[j], kids);
      if err.Some? {
        ParentsStop(start, k, c, found, j + 1);
        return;
      }
      j := j + 1;
    }
    assert found[..j] == found;
    return None;
  }

  lemma GroupIsKey(es: seq<Entity>, c: Column, groups: map<ID, seq<Entity>>, id: ID)
    requires IsGrouping(es, c, groups) && id in groups
    ensures forall i | 0 <= i < |es| :: es[i] in groups[id] <==> ForeignKey(es[i].cells, c) == Some(id)
  {
  }

  lemma ParentStep(start: seq<Node>, now: seq<Node>, k: nat, c: Column, found: seq<Node>, j: nat)
    requires j < |found| && Spec.AttachParents(start, k, c, found[..j]) == Ok(now)
    ensures Spec.AttachParents(start, k, c, found[..j + 1]) == Spec.AttachParent(now, k, c, found[j])
  {
    assert found[..j + 1][..j] == found[..j];
  }

  lemma {:induction false} ParentsStop(start: seq<Node>, k: nat, c: Column, found: seq<Node>, j: nat)
    requires j <= |found| && Spec.AttachParents(start, k, c, found[..j]).Err?
    ensures Spec.AttachParents(start, k, c, found) == Spec.AttachParents(start, k, c, found[..j])
  {
    if j == |found| {
      assert found[..j] == found;
    } else {
      var n := |found| - 1;
      assert found[..n][..j] == found[..j];
      ParentsStop(start, k, c, found[..n], j);
    }
  }
}
