/**
 What the two index structures of the loaders do, for every input: the
 one-to-many index sends a key to its last occurrence, the many-to-one index
 groups all nodes by key.
 */
module EagerIndex {
  import opened Base
  import opened Store
  import opened QueryTree
  import opened EagerSpec

  // ---------- one-to-many ----------

  function ChildrenOf(children: seq<Node>, c: Column, id: ID): seq<Node> {
    if children == [] then []
    else
      var n := |children| - 1;
      var rest := ChildrenOf(children[..n], c, id);
      if ForeignKey(children[n].cells, c) == Some(id) then rest + [children[n]] else rest
  }

  lemma ChildrenSnoc(children: seq<Node>, last: Node, c: Column, id: ID)
    ensures ChildrenOf(children + [last], c, id) ==
            var rest := ChildrenOf(children, c, id);
            if ForeignKey(last.cells, c) == Some(id) then rest + [last] else rest
  {
    assert (children + [last])[..|children|] == children;
  }

  lemma {:induction false} LastIndexExact(nodes: seq<Node>, id: ID)
    ensures var i := LastIndex(nodes, id);
            if i < 0 then forall j | 0 <= j < |nodes| :: nodes[j].id != id
            else nodes[i].id == id && forall j | i < j < |nodes| :: nodes[j].id != id
  {
    if nodes != [] && nodes[|nodes| - 1].id != id { LastIndexExact(nodes[..|nodes| - 1], id); }
  }

  lemma {:induction false} LastIndexOfIDs(nodes: seq<Node>, others: seq<Node>, id: ID)
    requires |nodes| == |others|
    requires forall i | 0 <= i < |nodes| :: nodes[i].id == others[i].id
    ensures LastIndex(nodes, id) == LastIndex(others, id)
  {
    if nodes != [] { LastIndexOfIDs(nodes[..|nodes| - 1], others[..|nodes| - 1], id); }
  }

  predicate IsLast(nodes: seq<Node>, i: nat)
    requires i < |nodes|
  {
    LastIndex(nodes, nodes[i].id) == i
  }

  /** Every child has a foreign key and it names one of the nodes. */
  predicate AllKnown(nodes: seq<Node>, c: Column, children: seq<Node>) {
    forall j | 0 <= j < |children| ::
      ForeignKey(children[j].cells, c).Some? && LastIndex(nodes, ForeignKey(children[j].cells, c).value) >= 0
  }

  predicate EmptyAt(nodes: seq<Node>, k: nat) {
    forall i | 0 <= i < |nodes| :: k < |nodes[i].links| && nodes[i].links[k] == Many([])
  }

  function Attached(nodes: seq<Node>, k: nat, c: Column, children: seq<Node>, i: nat): Node
    requires i < |nodes|
  {
    SetLink(nodes[i], k, Many(if IsLast(nodes, i) then ChildrenOf(children, c, nodes[i].id) else []))
  }

  predicate AllAttached(out: seq<Node>, nodes: seq<Node>, k: nat, c: Column, children: seq<Node>) {
    |out| == |nodes| && forall i | 0 <= i < |nodes| :: out[i] == Attached(nodes, k, c, children, i)
  }

  /**
   One-to-many loading succeeds exactly when every child's key is known, and
   then the last node with an id holds all children of that id, in order,
   while every other node holds an empty list.
   */
  lemma {:induction false} AttachChildrenExact(nodes: seq<Node>, k: nat, c: Column, children: seq<Node>)
    requires EmptyAt(nodes, k)
    ensures AttachChildren(nodes, k, c, children).Ok? <==> AllKnown(nodes, c, children)
    ensures AllKnown(nodes, c, children) ==>
              AllAttached(AttachChildren(nodes, k, c, children).value, nodes, k, c, children)
  {
    if children == [] {
      forall i | 0 <= i < |nodes| ensures nodes[i] == Attached(nodes, k, c, children, i) {
        assert nodes[i].links[k := Many([])] == nodes[i].links;
      }
    } else {
      var n := |children| - 1;
      AttachChildrenExact(nodes, k, c, children[..n]);
      assert children == children[..n] + [children[n]];
      if AllKnown(nodes, c, children[..n]) {
        AttachLastChild(nodes, AttachChildren(nodes, k, c, children[..n]).value, k, c, children);
      } else {
        var j :| 0 <= j < n && !(ForeignKey(children[..n][j].cells, c).Some? &&
                                 LastIndex(nodes, ForeignKey(children[..n][j].cells, c).value) >= 0);
        assert children[j] == children[..n][j];
      }
    }
  }

  lemma AttachLastChild(nodes: seq<Node>, prior: seq<Node>, k: nat, c: Column, children: seq<Node>)
    requires EmptyAt(nodes, k) && children != []
    requires AllKnown(nodes, c, children[..|children| - 1])
    requires AllAttached(prior, nodes, k, c, children[..|children| - 1])
    ensures var step := AttachChild(prior, k, c, children[|children| - 1]);
            && (step.Ok? <==> AllKnown(nodes, c, children))
            && (step.Ok? ==> AllAttached(step.value, nodes, k, c, children))
  {
    var n := |children| - 1;
    var child := children[n];
    assert forall j | 0 <= j < n :: children[..n][j] == children[j];
    if ForeignKey(child.cells, c).Some? {
      var key := ForeignKey(child.cells, c).value;
      LastIndexOfIDs(prior, nodes, key);
      LastIndexExact(nodes, key);
      var at := LastIndex(nodes, key);
      if at >= 0 {
        var step := prior[at := AppendLink(prior[at], k, child)];
        forall i | 0 <= i < |nodes| ensures step[i] == Attached(nodes, k, c, children, i) {
          assert prior[i].links[k].Many?;
          if i == at {
            assert nodes[i].links[k := Many(ChildrenOf(children[..n], c, key))]
                                  [k := Many(ChildrenOf(children, c, key))] ==
                   nodes[i].links[k := Many(ChildrenOf(children, c, key))];
          }
        }
      }
    }
  }

  // ---------- many-to-one ----------

  function ParentsOf(parents: seq<Node>, id: ID): seq<Node> {
    if parents == [] then []
    else
      var n := |parents| - 1;
      var rest := ParentsOf(parents[..n], id);
      if parents[n].id == id then rest + [parents[n]] else rest
  }

  function Pointed(n: Node, k: nat, c: Column, parents: seq<Node>): Node {
    match ForeignKey(n.cells, c)
    case None => n
    case Some(key) =>
      var found := ParentsOf(parents, key);
      if found == [] then n else SetLink(n, k, One(found[|found| - 1]))
  }

  /** The index keys are duplicate-free, and are exactly the non-nil foreign keys. */
  lemma {:induction false} KeysExact(nodes: seq<Node>, c: Column)
    ensures forall i, j | 0 <= i < j < |Keys(nodes, c)| :: Keys(nodes, c)[i] != Keys(nodes, c)[j]
    ensures forall i | 0 <= i < |nodes| && ForeignKey(nodes[i].cells, c).Some? ::
              ForeignKey(nodes[i].cells, c).value in Keys(nodes, c)
    ensures forall key | key in Keys(nodes, c) ::
              exists i :: 0 <= i < |nodes| && ForeignKey(nodes[i].cells, c) == Some(key)
  {
    if nodes != [] {
      var n := |nodes| - 1;
      KeysExact(nodes[..n], c);
      forall key | key in Keys(nodes, c)
        ensures exists i :: 0 <= i < |nodes| && ForeignKey(nodes[i].cells, c) == Some(key)
      {
        if key in Keys(nodes[..n], c) {
          var i :| 0 <= i < n && ForeignKey(nodes[..n][i].cells, c) == Some(key);
          assert ForeignKey(nodes[i].cells, c) == Some(key);
        } else {
          assert ForeignKey(nodes[n].cells, c) == Some(key);
        }
      }
      forall i | 0 <= i < |nodes| && ForeignKey(nodes[i].cells, c).Some?
        ensures ForeignKey(nodes[i].cells, c).value in Keys(nodes, c)
      {
        if i < n { assert nodes[i] == nodes[..n][i]; }
      }
    }
  }

  /** Keys come out in the order in which they first occur. */
  lemma {:induction false} KeysInOrder(nodes: seq<Node>, m: nat, c: Column)
    requires m <= |nodes|
    ensures Keys(nodes[..m], c) <= Keys(nodes, c)
  {
    if m == |nodes| {
      assert nodes[..m] == nodes;
    } else {
      var n := |nodes| - 1;
      KeysInOrder(nodes[..n], m, c);
      assert nodes[..n][..m] == nodes[..m];
    }
  }

  lemma {:induction false} KeysOfLinks(nodes: seq<Node>, others: seq<Node>, c: Column)
    requires |nodes| == |others|
    requires forall i | 0 <= i < |nodes| :: nodes[i].cells == others[i].cells
    ensures Keys(nodes, c) == Keys(others, c)
  {
    if nodes != [] { KeysOfLinks(nodes[..|nodes| - 1], others[..|nodes| - 1], c); }
  }

  /**
   Many-to-one loading succeeds exactly when every parent was asked for, and
   then every node with a key points at the parent with that id; nodes with a
   nil or dangling key are left alone.
   */
  lemma {:induction false} AttachParentsExact(nodes: seq<Node>, k: nat, c: Column, parents: seq<Node>)
    ensures AttachParents(nodes, k, c, parents).Ok? <==>
              forall j | 0 <= j < |parents| :: parents[j].id in Keys(nodes, c)
    ensures AttachParents(nodes, k, c, parents).Ok? ==>
              var out := AttachParents(nodes, k, c, parents).value;
              |out| == |nodes| && forall i | 0 <= i < |nodes| :: out[i] == Pointed(nodes[i], k, c, parents)
  {
    if parents != [] {
      var n := |parents| - 1;
      AttachParentsExact(nodes, k, c, parents[..n]);
      assert forall j | 0 <= j < n :: parents[..n][j] == parents[j];
      if AttachParents(nodes, k, c, parents[..n]).Ok? {
        var prior := AttachParents(nodes, k, c, parents[..n]).value;
        KeysOfLinks(prior, nodes, c);
        var out := PointTo(prior, k, c, parents[n]);
        forall i | 0 <= i < |nodes| ensures out[i] == Pointed(nodes[i], k, c, parents) {
          PointAgain(nodes[i], k, c, parents);
        }
      }
    }
  }

  lemma PointAgain(n: Node, k: nat, c: Column, parents: seq<Node>)
    requires parents != []
    ensures PointNode(Pointed(n, k, c, parents[..|parents| - 1]), k, c, parents[|parents| - 1]) ==
            Pointed(n, k, c, parents)
  {
    var m := |parents| - 1;
    if ForeignKey(n.cells, c) == Some(parents[m].id) && k < |n.links| {
      var found := ParentsOf(parents[..m], parents[m].id);
      if found != [] {
        assert n.links[k := One(found[|found| - 1])][k := One(parents[m])] == n.links[k := One(parents[m])];
      }
    }
  }

  // ---------- the errors ----------

  /** Child j is the first one without a known key. */
  predicate FirstLost(nodes: seq<Node>, c: Column, children: seq<Node>, j: nat) {
    && j < |children| && AllKnown(nodes, c, children[..j])
    && match ForeignKey(children[j].cells, c)
       case None => true
       case Some(key) => forall i | 0 <= i < |nodes| :: nodes[i].id != key
  }

  /** Attaching stops at the first child without a known key, and says whether it has none or an unknown one. */
  lemma {:induction false} AttachChildrenFails(nodes: seq<Node>, k: nat, c: Column, children: seq<Node>, j: nat)
    requires EmptyAt(nodes, k) && FirstLost(nodes, c, children, j)
    ensures AttachChildren(nodes, k, c, children) ==
            Err(if ForeignKey(children[j].cells, c).None? then NilForeignKey(c, children[j].id)
                else UnexpectedForeignKey(c, ForeignKey(children[j].cells, c).value))
  {
    var n := |children| - 1;
    if j < n {
      assert children[..n][..j] == children[..j];
      AttachChildrenFails(nodes, k, c, children[..n], j);
    } else {
      AttachChildrenExact(nodes, k, c, children[..n]);
      if ForeignKey(children[j].cells, c).Some? {
        var key := ForeignKey(children[j].cells, c).value;
        LastIndexOfIDs(AttachChildren(nodes, k, c, children[..n]).value, nodes, key);
        LastIndexExact(nodes, key);
      }
    }
  }

  /** Pointing stops at the first parent that was not asked for, and names it. */
  lemma {:induction false} AttachParentsFails(nodes: seq<Node>, k: nat, c: Column, parents: seq<Node>, j: nat)
    requires j < |parents| && parents[j].id !in Keys(nodes, c)
    requires forall l | 0 <= l < j :: parents[l].id in Keys(nodes, c)
    ensures AttachParents(nodes, k, c, parents) == Err(UnexpectedForeignKey(c, parents[j].id))
  {
    hide Keys, PointTo;
    var n := |parents| - 1;
    if j < n {
      AttachParentsFails(nodes, k, c, parents[..n], j);
    } else {
      AllPointed(nodes, k, c, parents[..n]);
    }
  }

  lemma AllPointed(nodes: seq<Node>, k: nat, c: Column, parents: seq<Node>)
    requires forall j | 0 <= j < |parents| :: parents[j].id in Keys(nodes, c)
    ensures AttachParents(nodes, k, c, parents).Ok?
    ensures Keys(AttachParents(nodes, k, c, parents).value, c) == Keys(nodes, c)
  {
    hide Keys, PointTo, AttachParents, Pointed;
    AttachParentsExact(nodes, k, c, parents);
    var out := AttachParents(nodes, k, c, parents).value;
    forall i | 0 <= i < |nodes| ensures out[i].cells == nodes[i].cells {
      PointedKeeps(nodes[i], k, c, parents);
    }
    KeysOfLinks(out, nodes, c);
  }

  lemma PointedKeeps(n: Node, k: nat, c: Column, parents: seq<Node>)
    ensures Pointed(n, k, c, parents).cells == n.cells
  {
  }

  // ---------- conservation ----------

  function Held(n: Node, k: nat): multiset<Node> {
    if k < |n.links| && n.links[k].Many? then multiset(n.links[k].list) else multiset{}
  }

  function Gather(nodes: seq<Node>, k: nat): multiset<Node> {
    if nodes == [] then multiset{}
    else Gather(nodes[..|nodes| - 1], k) + Held(nodes[|nodes| - 1], k)
  }

  lemma GatherSnoc(nodes: seq<Node>, k: nat, last: Node)
    ensures Gather(nodes + [last], k) == Gather(nodes, k) + Held(last, k)
  {
    assert (nodes + [last])[..|nodes|] == nodes;
  }

  lemma HeldGrows(n: Node, k: nat, child: Node)
    requires k < |n.links| && n.links[k].Many?
    ensures Held(AppendLink(n, k, child), k) == Held(n, k) + multiset{child}
  {
  }

  lemma MultisetSnoc(nodes: seq<Node>)
    requires nodes != []
    ensures multiset(nodes) == multiset(nodes[..|nodes| - 1]) + multiset{nodes[|nodes| - 1]}
  {
    assert nodes == nodes[..|nodes| - 1] + [nodes[|nodes| - 1]];
  }

  lemma {:induction false} GatherAppend(a: seq<Node>, b: seq<Node>, k: nat)
    ensures Gather(a + b, k) == Gather(a, k) + Gather(b, k)
  {
    if b == [] {
      assert a + b == a;
    } else {
      var n := |b| - 1;
      assert (a + b)[..|a + b| - 1] == a + b[..n];
      GatherAppend(a, b[..n], k);
    }
  }

  lemma GatherUpdate(nodes: seq<Node>, k: nat, i: nat, child: Node)
    requires i < |nodes| && k < |nodes[i].links| && nodes[i].links[k].Many?
    ensures Gather(nodes[i := AppendLink(nodes[i], k, child)], k) == Gather(nodes, k) + multiset{child}
  {
    var grown := AppendLink(nodes[i], k, child);
    var front, back := nodes[..i], nodes[i + 1..];
    HeldGrows(nodes[i], k, child);
    assert nodes == front + [nodes[i]] + back;
    assert nodes[i := grown] == front + [grown] + back;
    GatherAppend(front + [nodes[i]], back, k);
    GatherAppend(front + [grown], back, k);
    GatherSnoc(front, k, nodes[i]);
    GatherSnoc(front, k, grown);
  }

  lemma {:induction false} GatherEmpty(nodes: seq<Node>, k: nat)
    requires EmptyAt(nodes, k)
    ensures Gather(nodes, k) == multiset{}
  {
    if nodes != [] { GatherEmpty(nodes[..|nodes| - 1], k); }
  }

  lemma GatherStep(nodes: seq<Node>, prior: seq<Node>, k: nat, c: Column, children: seq<Node>)
    requires EmptyAt(nodes, k) && children != []
    requires AllAttached(prior, nodes, k, c, children[..|children| - 1])
    requires AttachChild(prior, k, c, children[|children| - 1]).Ok?
    ensures Gather(AttachChild(prior, k, c, children[|children| - 1]).value, k) ==
            Gather(prior, k) + multiset{children[|children| - 1]}
  {
    var child := children[|children| - 1];
    var at := LastIndex(prior, ForeignKey(child.cells, c).value);
    assert prior[at] == Attached(nodes, k, c, children[..|children| - 1], at);
    GatherUpdate(prior, k, at, child);
  }

  lemma PriorAttached(nodes: seq<Node>, k: nat, c: Column, children: seq<Node>)
    requires EmptyAt(nodes, k) && children != [] && AttachChildren(nodes, k, c, children).Ok?
    ensures var front := children[..|children| - 1];
            var prior := AttachChildren(nodes, k, c, front);
            && prior.Ok? && AllAttached(prior.value, nodes, k, c, front)
            && AttachChildren(nodes, k, c, children) == AttachChild(prior.value, k, c, children[|children| - 1])
  {
    AttachChildrenExact(nodes, k, c, children[..|children| - 1]);
  }

  ghost predicate Conserved(out: Loaded, k: nat, found: seq<Node>) {
    out.Ok? ==> Gather(out.value, k) == multiset(found)
  }

  /** One-to-many loading conserves rows: what the nodes hold afterwards is exactly what was fetched. */
  lemma {:induction false} RowsConserved(nodes: seq<Node>, k: nat, c: Column, children: seq<Node>)
    requires EmptyAt(nodes, k)
    ensures Conserved(AttachChildren(nodes, k, c, children), k, children)
  {
    if children == [] {
      GatherEmpty(nodes, k);
    } else if AttachChildren(nodes, k, c, children).Ok? {
      var n := |children| - 1;
      PriorAttached(nodes, k, c, children);
      RowsConserved(nodes, k, c, children[..n]);
      GatherStep(nodes, AttachChildren(nodes, k, c, children[..n]).value, k, c, children);
      MultisetSnoc(children);
    }
  }
}
