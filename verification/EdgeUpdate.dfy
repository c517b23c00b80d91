/**
 Updating the edges of an ImportScan: the mutation collects added, removed and
 cleared ids, `sqlSave` compiles them into edge specs, and the store applies
 first the clears and then the additions.
 */
module EdgeUpdate {
  import opened Base
  import opened Store
  import QueryTree

  // ---------- the mutation ----------

  /** The pending changes of one edge. */
  datatype Change = Change(added: set<ID>, removed: set<ID>, cleared: bool)

  const NO_CHANGE := Change({}, {}, false)

  /** One call on the mutation; ids are a caller's argument list, in order and with repeats. */
  datatype Call = Add(ids: seq<ID>) | Remove(ids: seq<ID>) | Clear | Reset

  function Members(ids: seq<ID>): set<ID> {
    set id | id in ids
  }

  function After(ch: Change, call: Call): Change {
    match call
    case Add(ids) => ch.(added := ch.added + Members(ids))
    case Remove(ids) => ch.(added := ch.added - Members(ids), removed := ch.removed + Members(ids))
    case Clear => ch.(cleared := true)
    case Reset => NO_CHANGE
  }

  function AfterAll(calls: seq<Call>): Change {
    if calls == [] then NO_CHANGE else After(AfterAll(calls[..|calls| - 1]), calls[|calls| - 1])
  }

  /** The fields of the mutation that concern one edge, and the calls that write them. */
  class EdgeChanges {
    var added: set<ID>
    var removed: set<ID>
    var cleared: bool

    function Pending(): Change
      reads this
    {
      Change(added, removed, cleared)
    }

    constructor ()
      ensures Pending() == NO_CHANGE
    {
      added, removed, cleared := {}, {}, false;
    }

    method AddIDs(ids: seq<ID>)
      modifies this
      ensures Pending() == After(old(Pending()), Add(ids))
    {
      for i := 0 to |ids|
        invariant Pending() == After(old(Pending()), Add(ids[..i]))
      {
        added := added + {ids[i]};
        assert ids[..i + 1] == ids[..i] + [ids[i]];
      }
      assert ids[..|ids|] == ids;
    }

    method RemoveIDs(ids: seq<ID>)
      modifies this
      ensures Pending() == After(old(Pending()), Remove(ids))
    {
      for i := 0 to |ids|
        invariant Pending() == After(old(Pending()), Remove(ids[..i]))
      {
        added := added - {ids[i]};
        removed := removed + {ids[i]};
        assert ids[..i + 1] == ids[..i] + [ids[i]];
      }
      assert ids[..|ids|] == ids;
    }

    method ClearAll()
      modifies this
      ensures Pending() == After(old(Pending()), Clear)
    {
      cleared := true;
    }

    method ResetAll()
      modifies this
      ensures Pending() == After(old(Pending()), Reset)
    {
      added, removed, cleared := {}, {}, false;
    }
  }

  // ---------- compiled specs and what they mean ----------

  datatype EdgeName = Files | Shows

  datatype EdgeSpec = EdgeSpec(edge: EdgeName, targets: seq<ID>)

  datatype EdgeSpecs = EdgeSpecs(clear: seq<EdgeSpec>, add: seq<EdgeSpec>)

  /** To the store a clear spec without targets means the whole edge. */
  function Cleared(specs: seq<EdgeSpec>, e: EdgeName, current: set<ID>): set<ID> {
    if specs == [] then current
    else
      var s := specs[0];
      Cleared(specs[1..], e,
        if s.edge != e then current else if s.targets == [] then {} else current - Members(s.targets))
  }

  function Joined(specs: seq<EdgeSpec>, e: EdgeName, current: set<ID>): set<ID> {
    if specs == [] then current
    else Joined(specs[1..], e, if specs[0].edge == e then current + Members(specs[0].targets) else current)
  }

  /** The edge after the store has applied the specs. */
  function Applied(specs: EdgeSpecs, e: EdgeName, current: set<ID>): set<ID> {
    Joined(specs.add, e, Cleared(specs.clear, e, current))
  }

  /** The set algebra an update stands for. */
  function Next(ch: Change, current: set<ID>): set<ID> {
    (if ch.cleared then {} else current - ch.removed) + ch.added
  }

  ghost predicate Realises(specs: EdgeSpecs, files: Change, shows: Change) {
    forall current: set<ID> ::
      Applied(specs, Files, current) == Next(files, current) &&
      Applied(specs, Shows, current) == Next(shows, current)
  }

  lemma MembersSnoc(ids: seq<ID>, id: ID)
    ensures Members(ids + [id]) == Members(ids) + {id}
  {
    forall x | x in Members(ids) + {id} ensures x in Members(ids + [id]) {
      assert x in ids + [id];
    }
  }

  predicate NoRepeats(ids: seq<ID>) {
    forall i, j | 0 <= i < j < |ids| :: ids[i] != ids[j]
  }

  /** Keys of a set in some order, as ranging over it yields them. */
  method Listed(s: set<ID>) returns (ids: seq<ID>)
    ensures Members(ids) == s && NoRepeats(ids) && (ids == [] <==> s == {})
  {
    ids := [];
    var rest := s;
    while rest != {}
      invariant rest <= s && Members(ids) == s - rest && NoRepeats(ids)
    {
      var id :| id in rest;
      MembersSnoc(ids, id);
      assert id !in Members(ids);
      ids, rest := ids + [id], rest - {id};
    }
    if ids != [] { assert ids[0] in Members(ids); }
  }

  predicate ListsOnce(ids: seq<ID>, s: set<ID>) {
    Members(ids) == s && NoRepeats(ids)
  }

  /** The specs `sqlSave` emits for one edge. */
  ghost predicate SpecsFor(e: EdgeName, ch: Change, clear: seq<EdgeSpec>, add: seq<EdgeSpec>) {
    && (if ch.cleared then clear == [EdgeSpec(e, [])]
        else if ch.removed == {} then clear == []
        else |clear| == 1 && clear[0].edge == e && ListsOnce(clear[0].targets, ch.removed))
    && (if ch.added == {} then add == []
        else |add| == 1 && add[0].edge == e && ListsOnce(add[0].targets, ch.added))
  }

  /** The clears and additions of one edge, in the order of the two `sqlSave` bodies. */
  method EmitEdge(e: EdgeName, ch: EdgeChanges) returns (clear: seq<EdgeSpec>, add: seq<EdgeSpec>)
    ensures SpecsFor(e, ch.Pending(), clear, add)
  {
    clear, add := [], [];
    if ch.cleared {
      clear := clear + [EdgeSpec(e, [])];
    }
    var removed := Listed(ch.removed);
    if |removed| > 0 && !ch.cleared {
      clear := clear + [EdgeSpec(e, removed)];
    }
    var added := Listed(ch.added);
    if |added| > 0 {
      add := add + [EdgeSpec(e, added)];
    }
  }

  lemma ConcatCleared(a: seq<EdgeSpec>, b: seq<EdgeSpec>, e: EdgeName, current: set<ID>)
    ensures Cleared(a + b, e, current) == Cleared(b, e, Cleared(a, e, current))
    decreases |a|
  {
    if a == [] {
      assert a + b == b;
    } else {
      var s := a[0];
      assert (a + b)[1..] == a[1..] + b;
      ConcatCleared(a[1..], b, e,
        if s.edge != e then current else if s.targets == [] then {} else current - Members(s.targets));
    }
  }

  lemma ConcatJoined(a: seq<EdgeSpec>, b: seq<EdgeSpec>, e: EdgeName, current: set<ID>)
    ensures Joined(a + b, e, current) == Joined(b, e, Joined(a, e, current))
    decreases |a|
  {
    if a == [] {
      assert a + b == b;
    } else {
      assert (a + b)[1..] == a[1..] + b;
      ConcatJoined(a[1..], b, e, if a[0].edge == e then current + Members(a[0].targets) else current);
    }
  }

  lemma OneEdge(e: EdgeName, ch: Change, clear: seq<EdgeSpec>, add: seq<EdgeSpec>, current: set<ID>)
    requires SpecsFor(e, ch, clear, add)
    ensures Joined(add, e, Cleared(clear, e, current)) == Next(ch, current)
    ensures forall other: EdgeName | other != e ::
              Cleared(clear, other, current) == current && Joined(add, other, current) == current
  {
    if clear != [] {
      assert clear[1..] == [];
      assert clear[0].targets == [] <==> ch.cleared by { assert Members([]) == {}; }
    }
    if add != [] { assert add[1..] == []; }
    forall other: EdgeName | other != e
      ensures Cleared(clear, other, current) == current && Joined(add, other, current) == current
    {
      if clear != [] { assert Cleared(clear, other, current) == Cleared(clear[1..], other, current); }
      if add != [] { assert Joined(add, other, current) == Joined(add[1..], other, current); }
    }
  }

  /**
   The emitted specs realise the set algebra of both edges independently,
   whatever the edges held before.
   */
  lemma SpecsRealise(files: Change, shows: Change, fc: seq<EdgeSpec>, fa: seq<EdgeSpec>,
                     sc: seq<EdgeSpec>, sa: seq<EdgeSpec>)
    requires SpecsFor(Files, files, fc, fa) && SpecsFor(Shows, shows, sc, sa)
    ensures Realises(EdgeSpecs(fc + sc, fa + sa), files, shows)
  {
    forall current: set<ID>
      ensures Applied(EdgeSpecs(fc + sc, fa + sa), Files, current) == Next(files, current)
      ensures Applied(EdgeSpecs(fc + sc, fa + sa), Shows, current) == Next(shows, current)
    {
      forall e: EdgeName
        ensures Applied(EdgeSpecs(fc + sc, fa + sa), e, current) ==
                Joined(sa, e, Joined(fa, e, Cleared(sc, e, Cleared(fc, e, current))))
      {
        ConcatCleared(fc, sc, e, current);
        ConcatJoined(fa, sa, e, Cleared(fc + sc, e, current));
      }
      OneEdge(Files, files, fc, fa, current);
      OneEdge(Shows, shows, sc, sa, current);
      OneEdge(Shows, shows, sc, sa, Cleared(fc, Files, current));
      OneEdge(Shows, shows, sc, sa, Next(files, current));
      OneEdge(Files, files, fc, fa, Cleared(sc, Shows, current));
    }
  }

  /** The specs of a mutation, as either update builder emits them: files first, then shows. */
  ghost predicate Emitted(specs: EdgeSpecs, files: Change, shows: Change) {
    exists fc, fa, sc, sa ::
      SpecsFor(Files, files, fc, fa) && SpecsFor(Shows, shows, sc, sa) && specs == EdgeSpecs(fc + sc, fa + sa)
  }

  lemma EmittedRealises(specs: EdgeSpecs, files: Change, shows: Change)
    requires Emitted(specs, files, shows)
    ensures Realises(specs, files, shows)
  {
    var fc, fa, sc, sa :|
      SpecsFor(Files, files, fc, fa) && SpecsFor(Shows, shows, sc, sa) && specs == EdgeSpecs(fc + sc, fa + sa);
    SpecsRealise(files, shows, fc, fa, sc, sa);
  }

  /** The same edges in the same places, with the same targets in some order. */
  predicate Reordered(a: seq<EdgeSpec>, b: seq<EdgeSpec>) {
    |a| == |b| &&
    forall i | 0 <= i < |a| :: a[i].edge == b[i].edge && multiset(a[i].targets) == multiset(b[i].targets)
  }

  lemma {:induction false} OnceEach(ids: seq<ID>, id: ID)
    requires NoRepeats(ids)
    ensures multiset(ids)[id] == if id in ids then 1 else 0
  {
    if ids != [] {
      var n := |ids| - 1;
      OnceEach(ids[..n], id);
      assert ids == ids[..n] + [ids[n]];
    }
  }

  lemma SameTargets(a: seq<ID>, b: seq<ID>, s: set<ID>)
    requires ListsOnce(a, s) && ListsOnce(b, s)
    ensures multiset(a) == multiset(b)
  {
    forall id ensures multiset(a)[id] == multiset(b)[id] {
      OnceEach(a, id);
      OnceEach(b, id);
      assert id in a <==> id in Members(a);
      assert id in b <==> id in Members(b);
    }
  }

  lemma SameSpecsFor(e: EdgeName, ch: Change, ca: seq<EdgeSpec>, aa: seq<EdgeSpec>,
                     cb: seq<EdgeSpec>, ab: seq<EdgeSpec>)
    requires SpecsFor(e, ch, ca, aa) && SpecsFor(e, ch, cb, ab)
    ensures Reordered(ca, cb) && Reordered(aa, ab)
  {
    if !ch.cleared && ch.removed != {} { SameTargets(ca[0].targets, cb[0].targets, ch.removed); }
    if ch.added != {} { SameTargets(aa[0].targets, ab[0].targets, ch.added); }
  }

  /**
   The two update builders send, for the same pending changes, the same clears and the
   same additions, up to the order in which a map yields the ids of one edge.
   */
  lemma SameChanges(a: EdgeSpecs, b: EdgeSpecs, files: Change, shows: Change)
    requires Emitted(a, files, shows) && Emitted(b, files, shows)
    ensures Reordered(a.clear, b.clear) && Reordered(a.add, b.add)
  {
    hide SpecsFor, Reordered;
    var fc, fa, sc, sa :|
      SpecsFor(Files, files, fc, fa) && SpecsFor(Shows, shows, sc, sa) && a == EdgeSpecs(fc + sc, fa + sa);
    var gc, ga, tc, ta :|
      SpecsFor(Files, files, gc, ga) && SpecsFor(Shows, shows, tc, ta) && b == EdgeSpecs(gc + tc, ga + ta);
    SameSpecsFor(Files, files, fc, fa, gc, ga);
    SameSpecsFor(Shows, shows, sc, sa, tc, ta);
    ReorderedBoth(fc, gc, sc, tc);
    ReorderedBoth(fa, ga, sa, ta);
  }

  lemma ReorderedBoth(a: seq<EdgeSpec>, b: seq<EdgeSpec>, c: seq<EdgeSpec>, d: seq<EdgeSpec>)
    requires Reordered(a, b) && Reordered(c, d)
    ensures Reordered(a + c, b + d)
  {
  }

  // ---------- saving ----------

  datatype StoreError = NoRow | Constraint(message: string) | Failure(message: string)

  datatype SaveError =
    | Invalid(name: string)
    | NotFound
    | ConstraintFailed(message: string)
    | StoreFailed(message: string)

  function Translated(e: StoreError): SaveError {
    match e
    case NoRow => NotFound
    case Constraint(message) => ConstraintFailed(message)
    case Failure(message) => StoreFailed(message)
  }

  /** What an update hands to the store: the row for UpdateOne, and the edges. */
  datatype UpdateSpec = UpdateSpec(id: Option<ID>, columns: seq<Column>, edges: EdgeSpecs)

  type Backend = UpdateSpec -> Result<nat, StoreError>

  /** The save was refused for the first selected field that is not a column. */
  ghost predicate RejectedAt(selected: seq<Column>, columns: seq<Column>, r: Result<nat, SaveError>) {
    exists i | 0 <= i < |selected| ::
      selected[i] !in columns && (forall j | 0 <= j < i :: selected[j] in columns) && r == Err(Invalid(selected[i]))
  }

  /** The caller is told what the store answered; without an answer, the save is refused as invalid. */
  ghost predicate Answers(r: Result<nat, SaveError>, sent: Option<UpdateSpec>, backend: Backend) {
    && (sent.None? <==> r.Err? && r.error.Invalid?)
    && (forall n :: r == Ok(n) <==> sent.Some? && backend(sent.value) == Ok(n))
    && (r == Err(NotFound) <==> sent.Some? && backend(sent.value) == Err(NoRow))
    && (forall m :: r == Err(ConstraintFailed(m)) <==> sent.Some? && backend(sent.value) == Err(Constraint(m)))
    && (forall m :: r == Err(StoreFailed(m)) <==> sent.Some? && backend(sent.value) == Err(Failure(m)))
  }

  class ScanMutation {
    const id: Option<ID>
    const files: EdgeChanges
    const shows: EdgeChanges
    var done: bool

    constructor (key: Option<ID>)
      ensures id == key && !done && fresh(files) && fresh(shows) && files != shows
      ensures files.Pending() == NO_CHANGE && shows.Pending() == NO_CHANGE
    {
      var f := new EdgeChanges();
      var s := new EdgeChanges();
      id, files, shows, done := key, f, s, false;
    }

    /** `ImportScanUpdate.sqlSave`; `invalid` is the first field its `check` rejects. */
    method Save(invalid: Option<string>, columns: seq<Column>, backend: Backend)
      returns (r: Result<nat, SaveError>, sent: Option<UpdateSpec>)
      modifies this`done
      ensures invalid.Some? ==> r == Err(Invalid(invalid.value)) && sent.None?
      ensures invalid.None? ==> sent.Some? && sent.value.id.None? && sent.value.columns == columns
      ensures sent.Some? ==> Emitted(sent.value.edges, files.Pending(), shows.Pending())
      ensures sent.Some? ==> Realises(sent.value.edges, files.Pending(), shows.Pending())
      ensures Answers(r, sent, backend)
      ensures done == (old(done) || r.Ok?)
    {
      if invalid.Some? {
        return Err(Invalid(invalid.value)), None;
      }
      var spec := UpdateSpec(None, columns, EdgeSpecs([], []));
      var fc, fa := EmitEdge(Files, files);
      var sc, sa := EmitEdge(Shows, shows);
      spec := spec.(edges := EdgeSpecs(fc + sc, fa + sa));
      EmittedRealises(spec.edges, files.Pending(), shows.Pending());
      sent := Some(spec);
      var outcome := backend(spec);
      match outcome
      case Err(e) => r := Err(Translated(e));
      case Ok(n) =>
        done := true;
        r := Ok(n);
    }

    /** `ImportScanUpdateOne.sqlSave`; `selected` are the fields to return. */
    method SaveOne(invalid: Option<string>, columns: seq<Column>, selected: seq<Column>, backend: Backend)
      returns (r: Result<nat, SaveError>, sent: Option<UpdateSpec>)
      modifies this`done
      ensures invalid.Some? ==> r == Err(Invalid(invalid.value)) && sent.None?
      ensures invalid.None? && id.None? ==> r == Err(Invalid("id")) && sent.None?
      ensures invalid.None? && id.Some? ==>
                if forall c | c in selected :: c in columns then sent.Some?
                else sent.None? && RejectedAt(selected, columns, r)
      ensures sent.Some? ==> sent.value.id == id && id.Some?
      ensures sent.Some? ==>
                sent.value.columns ==
                if selected == [] then columns else [ID_COLUMN] + QueryTree.Without(selected, ID_COLUMN)
      ensures sent.Some? ==> Emitted(sent.value.edges, files.Pending(), shows.Pending())
      ensures sent.Some? ==> Realises(sent.value.edges, files.Pending(), shows.Pending())
      ensures Answers(r, sent, backend)
      ensures done == (old(done) || r.Ok?)
    {
      if invalid.Some? {
        return Err(Invalid(invalid.value)), None;
      }
      if id.None? {
        return Err(Invalid("id")), None;
      }
      var spec := UpdateSpec(id, columns, EdgeSpecs([], []));
      if |selected| > 0 {
        var cs := [ID_COLUMN];
        for i := 0 to |selected|
          invariant cs == [ID_COLUMN] + QueryTree.Without(selected[..i], ID_COLUMN)
          invariant forall j | 0 <= j < i :: selected[j] in columns
        {
          assert selected[..i + 1][..i] == selected[..i];
          if selected[i] !in columns {
            return Err(Invalid(selected[i])), None;
          }
          if selected[i] != ID_COLUMN {
            cs := cs + [selected[i]];
          }
        }
        assert selected[..|selected|] == selected;
        spec := spec.(columns := cs);
      }
      var fc, fa := EmitEdge(Files, files);
      var sc, sa := EmitEdge(Shows, shows);
      spec := spec.(edges := EdgeSpecs(fc + sc, fa + sa));
      EmittedRealises(spec.edges, files.Pending(), shows.Pending());
      sent := Some(spec);
      var outcome := backend(spec);
      match outcome
      case Err(e) => r := Err(Translated(e));
      case Ok(n) =>
        done := true;
        r := Ok(n);
    }
  }

  // ---------- whole sequences of calls ----------

  /** What the calls say when read one after the other; a reset returns to where the edge started. */
  function Sequential(calls: seq<Call>, start: set<ID>): set<ID> {
    if calls == [] then start
    else
      var n := |calls| - 1;
      var before := Sequential(calls[..n], start);
      match calls[n]
      case Add(ids) => before + Members(ids)
      case Remove(ids) => before - Members(ids)
      case Clear => {}
      case Reset => start
  }

  /** Ids added before the last clear and not mentioned since. */
  function Stale(calls: seq<Call>): set<ID> {
    if calls == [] then {}
    else
      var n := |calls| - 1;
      match calls[n]
      case Add(ids) => Stale(calls[..n]) - Members(ids)
      case Remove(ids) => Stale(calls[..n]) - Members(ids)
      case Clear => AfterAll(calls[..n]).added
      case Reset => {}
  }

  /** The saved edge is what the calls say, plus the ids a clear was meant to drop. */
  lemma {:induction false} CallsExplained(calls: seq<Call>, start: set<ID>)
    ensures Next(AfterAll(calls), start) == Sequential(calls, start) + Stale(calls)
    ensures Sequential(calls, start) !! Stale(calls)
    ensures Stale(calls) <= AfterAll(calls).added
    ensures !AfterAll(calls).cleared ==> Stale(calls) == {}
  {
    if calls != [] { CallsExplained(calls[..|calls| - 1], start); }
  }

  /**
   Saving does what the calls say in order, from every starting point, exactly
   when no id was added before a clear and then left alone.
   */
  lemma SequentialExact(calls: seq<Call>)
    ensures (forall start: set<ID> :: Next(AfterAll(calls), start) == Sequential(calls, start)) <==>
            Stale(calls) == {}
  {
    forall start: set<ID>
      ensures Next(AfterAll(calls), start) == Sequential(calls, start) <==> Stale(calls) == {}
    {
      CallsExplained(calls, start);
    }
    var nothing: set<ID> := {};
    assert Next(AfterAll(calls), nothing) == Sequential(calls, nothing) <==> Stale(calls) == {};
  }

  /** The shortest example: adding and then clearing keeps the added id. */
  lemma AddThenClear(id: ID)
    ensures Next(AfterAll([Add([id]), Clear]), {}) == {id}
    ensures Sequential([Add([id]), Clear], {}) == {}
  {
    assert [Add([id]), Clear][..1] == [Add([id])];
    assert [Add([id])][..0] == [];
    assert AfterAll([]) == NO_CHANGE;
    assert Members([id]) == {id};
    assert AfterAll([Add([id])]) == Change({id}, {}, false);
  }
}
