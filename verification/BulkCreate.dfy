/**
 The bulk builder as an object: a chain of mutators over mutation objects that
 hooks may edit in place or replace, lists of specs and entities filled on the
 way down, and ids and marks set on the way back. `BulkSpec.Mutate` says what
 one call in the chain returns and does.
 */
module BulkCreate {
  import opened Base
  import opened FileCodec
  import Rows = FileRows
  import Spec = BulkSpec
  import Ready = BulkReady

  class FileMutation {
    var fields: Mutation
    var done: bool

    constructor (m: Mutation)
      ensures fields == m && !done
    {
      fields, done := m, false;
    }
  }

  /** A batch insert that succeeds returns one id per spec. */
  ghost predicate OneIDEach(backend: Spec.Backend) {
    forall specs :: backend(specs).Stored? ==> |backend(specs).ids| == |specs|
  }

  /** The id a spec holds before the insert. */
  function GivenID(m: Mutation): Option<Int64> {
    if m.id.Some? then Some(m.id.value) else None
  }

  /** The ids that the specs hold after a successful insert. */
  function Held(ids: seq<Int64>): (values: seq<Option<Int64>>)
    ensures |values| == |ids| && forall k | 0 <= k < |ids| :: values[k] == Some(ids[k])
  {
    seq(|ids|, k requires 0 <= k < |ids| => Some(ids[k]))
  }

  /** What the closure of builder p.i reports once its mutation passes the check. */
  lemma ClosureReport(env: Spec.Env, p: Spec.Point)
    requires Spec.At(env, p) && p.j == |env.slots[p.i].hooks| && Check(p.own).None?
    ensures var out, inner := Spec.Mutate(env, p), Spec.Below(env, p);
            && out.error == inner.error && out.ids == inner.ids
            && out.trace == [Spec.Checked(p.i), Spec.Built(p.i)] + inner.trace +
                            (if inner.error.None? then [Spec.Done(p.i)] else [])
            && out.made == [if inner.error.None? then Some(Spec.Finished(p.passed, inner.ids, p.i)) else None] +
                           inner.made
  {
    hide Check, SpecOf, Spec.Finished;
  }

  /** Builder k of the bulk has `mutations[k]` and `hooks[k]`; `values` are the ids held by the specs. */
  class FileCreateBulk {
    const json: Json
    const backend: Spec.Backend
    const hooks: seq<seq<Spec.Hook>>
    /** An error recorded while the bulk was put together. */
    const failure: Option<Spec.Error>
    var mutations: seq<FileMutation>
    var specs: seq<CreateSpec>
    var values: seq<Option<Int64>>
    var nodes: seq<ImportScanFile?>

    predicate Sized()
      reads this
    {
      |specs| == |values| == |nodes| == |mutations| == |hooks|
    }

    /** The bulk holds the builders that env describes. */
    ghost predicate Serves(env: Spec.Env)
      reads this
    {
      && Sized() && env.json == json && env.backend == backend && OneIDEach(backend)
      && |env.slots| == |hooks|
      && forall k | 0 <= k < |hooks| :: hooks[k] == env.slots[k].hooks
    }

    /** The builders from i on have not been reached: each has its own mutation, done only if it was before the save. */
    ghost predicate Pending(env: Spec.Env, was: seq<bool>, i: nat)
      requires |mutations| == |env.slots| == |was|
      reads this, mutations
    {
      && (forall k | i <= k < |mutations| ::
            (mutations[k].done ==> was[k]) && mutations[k].fields == env.slots[k].mutation)
      && forall a, b | i <= a < b < |mutations| :: mutations[a] != mutations[b]
    }

    /** The mutator of builder p.i is called with m: the later builders still wait. */
    ghost predicate Called(env: Spec.Env, was: seq<bool>, p: Spec.Point, m: FileMutation)
      reads this, m, mutations
    {
      && Serves(env) && Spec.At(env, p) && |was| == |mutations|
      && Pending(env, was, p.i + 1) && m !in mutations[p.i + 1..]
      && (m.done ==> was[p.i]) && m.fields == p.passed
      && (mutations[p.i].done ==> was[p.i]) && mutations[p.i].fields == p.own
      && (p.same <==> m == mutations[p.i])
      && specs[..p.i] == p.built
    }

    /** Builder k is done and has entity f, whose id its mutation now has. */
    ghost predicate Created(k: nat, f: File)
      requires k < |mutations| == |nodes|
      reads this, mutations[k], nodes[k]
    {
      nodes[k] != null && nodes[k].Fields() == f && mutations[k].done && mutations[k].fields.id == Some(f.id)
    }

    /** What the report says of builder k is what its mutation and the list of entities hold; no other mark is new. */
    ghost predicate Holds(k: nat, was: seq<bool>, made: seq<Option<File>>, i: nat)
      requires i <= k < |mutations| == |nodes| == |was| && k - i < |made|
      reads this, mutations[k], nodes[k]
    {
      if made[k - i].Some? then Created(k, made[k - i].value) else mutations[k].done ==> was[k]
    }

    /** Nothing before builder i changes, and after an insert the specs hold the ids. */
    twostate predicate Keeps(i: nat, report: Spec.Report)
      reads this
    {
      && Sized() && |mutations| == |old(mutations)| == |old(nodes)| == |old(values)| && i <= |mutations|
      && nodes[..i] == old(nodes[..i]) && mutations[..i] == old(mutations[..i])
      && if report.ids.Some? then values == Held(report.ids.value) else values[..i] == old(values[..i])
    }

    /** `sqlgraph.BatchCreate`: one insert of all specs, which then hold the ids of the rows. */
    method BatchCreate() returns (err: Option<Spec.Error>)
      requires |specs| == |values| && OneIDEach(backend)
      modifies this`values
      ensures match backend(specs)
              case Refused(e) => err == Some(e) && values == old(values)
              case Stored(ids) => err.None? && values == Held(ids)
    {
      var batch := backend(specs);
      match batch
      case Refused(e) => err := Some(e);
      case Stored(ids) =>
        for k := 0 to |values|
          invariant |values| == |specs| && forall l | 0 <= l < k :: values[l] == Some(ids[l])
        {
          values := values[k := Some(ids[k])];
        }
        err := None;
    }

    /** The mutator of builder i from hook j on, called with m. */
    method Mutate(i: nat, j: nat, m: FileMutation, ghost env: Spec.Env, ghost was: seq<bool>, ghost p: Spec.Point)
      returns (err: Option<Spec.Error>, ghost trace: seq<Spec.Event>)
      requires Called(env, was, p, m) && i == p.i && j == p.j
      modifies this, m, mutations[i..]
      ensures err == Spec.Mutate(env, p).error && trace == Spec.Mutate(env, p).trace
      ensures Keeps(i, Spec.Mutate(env, p))
      ensures forall k | i <= k < |mutations| :: Holds(k, was, Spec.Mutate(env, p).made, i)
      ensures forall k | i <= k < |mutations| && Spec.Mutate(env, p).made[k - i].Some? :: fresh(nodes[k])
      ensures forall k | i <= k < |mutations| ::
                (k == i && mutations[k] == m) || mutations[k] == old(mutations)[k] || fresh(mutations[k])
      decreases |hooks| - i, |env.slots[i].hooks| - j, 1
    {
      hide Check, SpecOf, Spec.Finished;
      if j < |hooks[i]| {
        err, trace := CallHook(i, j, m, env, was, p);
      } else {
        err, trace := Complete(i, m, env, was, p);
      }
    }

    method CallHook(i: nat, j: nat, m: FileMutation, ghost env: Spec.Env, ghost was: seq<bool>, ghost p: Spec.Point)
      returns (err: Option<Spec.Error>, ghost trace: seq<Spec.Event>)
      requires Called(env, was, p, m) && i == p.i && j == p.j && j < |hooks[i]|
      modifies this, m, mutations[i..]
      ensures err == Spec.Mutate(env, p).error && trace == Spec.Mutate(env, p).trace
      ensures Keeps(i, Spec.Mutate(env, p))
      ensures forall k | i <= k < |mutations| :: Holds(k, was, Spec.Mutate(env, p).made, i)
      ensures forall k | i <= k < |mutations| && Spec.Mutate(env, p).made[k - i].Some? :: fresh(nodes[k])
      ensures forall k | i <= k < |mutations| ::
                (k == i && mutations[k] == m) || mutations[k] == old(mutations)[k] || fresh(mutations[k])
      decreases |hooks| - i, |env.slots[i].hooks| - j, 0
    {
      hide Check, SpecOf, Spec.Finished;
      var hook := hooks[i][j];
      var entry := hook.enter(m.fields);
      match entry
      case Refuse(e) =>
        err, trace := Some(e), [Spec.Enter(i, j), Spec.Leave(i, j)];
      case Skip =>
        err, trace := None, [Spec.Enter(i, j), Spec.Leave(i, j)];
      case Edit(next) =>
        m.fields := next;
        err, trace := Mutate(i, j + 1, m, env, was, Spec.Through(p, entry));
        err, trace := hook.leave(err), [Spec.Enter(i, j)] + trace + [Spec.Leave(i, j)];
      case Swap(next) =>
        var other := new FileMutation(next);
        err, trace := Mutate(i, j + 1, other, env, was, Spec.Through(p, entry));
        err, trace := hook.leave(err), [Spec.Enter(i, j)] + trace + [Spec.Leave(i, j)];
    }

    /** Builder i takes the mutation and builds its entity and its spec. */
    method Begin(i: nat, m: FileMutation)
      requires Sized() && i < |mutations|
      modifies this
      ensures Sized() && mutations == old(mutations)[i := m]
      ensures specs == old(specs)[i := SpecOf(json, m.fields)] && values == old(values)[i := GivenID(m.fields)]
      ensures nodes == old(nodes)[i := nodes[i]] && nodes[i] != null
      ensures fresh(nodes[i]) && nodes[i].Fields() == NodeOf(m.fields)
    {
      hide SpecOf, NodeOf;
      mutations := mutations[i := m];
      var node, spec := BuildCreateSpec(json, m.fields);
      nodes, specs, values := nodes[i := node], specs[i := spec], values[i := GivenID(m.fields)];
    }

    /** After the insert: the entity takes its id, the mutation points at it and is marked done. */
    method Finish(i: nat, m: FileMutation)
      requires Sized() && i < |nodes| && nodes[i] != null
      modifies m, nodes[i]
      ensures nodes[i].Fields() == Spec.WithID(old(nodes[i].Fields()), values[i])
      ensures m.done && m.fields == old(m.fields).(id := Some(nodes[i].Fields().id))
    {
      var node := nodes[i];
      if values[i].Some? && node.id == 0 {
        node.id := Narrow32(values[i].value);
      }
      m.fields, m.done := m.fields.(id := Some(node.id)), true;
    }

    /** A mutation that fails the check leaves builder i and the later ones as they are. */
    lemma Untouched(i: nat, m: FileMutation, env: Spec.Env, was: seq<bool>, p: Spec.Point)
      requires Called(env, was, p, m) && i == p.i && p.j == |hooks[i]| && Check(p.own).Some?
      ensures var out := Spec.Mutate(env, p);
              && out.error == Some(Spec.Rejected(Check(p.own).value)) && out.trace == [Spec.Checked(i)] && out.ids.None?
              && out.made == Spec.NothingMade(|mutations| - i)
              && (forall k | i <= k < |mutations| :: Holds(k, was, out.made, i))
    {
      hide Check, SpecOf;
    }

    /** The closure of builder i: check, build the spec, call on, then set the id and the mark. */
    method Complete(i: nat, m: FileMutation, ghost env: Spec.Env, ghost was: seq<bool>, ghost p: Spec.Point)
      returns (err: Option<Spec.Error>, ghost trace: seq<Spec.Event>)
      requires Called(env, was, p, m) && i == p.i && p.j == |hooks[i]|
      modifies this, m, mutations[i..]
      ensures err == Spec.Mutate(env, p).error && trace == Spec.Mutate(env, p).trace
      ensures Keeps(i, Spec.Mutate(env, p))
      ensures forall k | i <= k < |mutations| :: Holds(k, was, Spec.Mutate(env, p).made, i)
      ensures forall k | i <= k < |mutations| && Spec.Mutate(env, p).made[k - i].Some? :: fresh(nodes[k])
      ensures forall k | i <= k < |mutations| ::
                (k == i && mutations[k] == m) || mutations[k] == old(mutations)[k] || fresh(mutations[k])
      decreases |hooks| - i, -1, 2
    {
      hide Check, SpecOf, NodeOf, Spec.Mutate, Holds, Spec.WithID, ImportScanFile.Fields, OneIDEach;
      var failed := Check(mutations[i].fields);
      if failed.Some? {
        Untouched(i, m, env, was, p);
        err, trace := Some(Spec.Rejected(failed.value)), [Spec.Checked(i)];
        return;
      }
      Begin(i, m);
      err, trace := Proceed(i, env, was, p);
    }

    /** The rest of the closure of builder i, once its entity and its spec are built. */
    method Proceed(i: nat, ghost env: Spec.Env, ghost was: seq<bool>, ghost p: Spec.Point)
      returns (err: Option<Spec.Error>, ghost trace: seq<Spec.Event>)
      requires Serves(env) && Spec.At(env, p) && |was| == |mutations| && i == p.i && Pending(env, was, i + 1)
      requires p.j == |hooks[i]| && Check(p.own).None?
      requires (mutations[i].done ==> was[i]) && mutations[i] !in mutations[i + 1..]
      requires specs[..i + 1] == p.built + [SpecOf(env.json, p.passed)] && values[i] == GivenID(p.passed)
      requires nodes[i] != null && nodes[i].Fields() == NodeOf(p.passed)
      modifies this, mutations[i..], nodes[i]
      ensures err == Spec.Mutate(env, p).error && trace == Spec.Mutate(env, p).trace
      ensures Keeps(i + 1, Spec.Mutate(env, p))
      ensures forall k | i <= k < |mutations| :: Holds(k, was, Spec.Mutate(env, p).made, i)
      ensures forall k | i < k < |mutations| && Spec.Mutate(env, p).made[k - i].Some? :: fresh(nodes[k])
      ensures forall k | i < k < |mutations| :: mutations[k] == old(mutations)[k] || fresh(mutations[k])
      decreases |hooks| - i, -1, 1
    {
      hide Check, SpecOf, NodeOf, Spec.Below, Spec.Mutate, Spec.WithID, ImportScanFile.Fields, OneIDEach, Pending;
      ClosureReport(env, p);
      err, trace := CallBelow(i + 1, env, was, p);
      label Returned:
      trace := [Spec.Checked(i), Spec.Built(i)] + trace;
      if err.None? {
        Finish(i, mutations[i]);
        trace := trace + [Spec.Done(i)];
      }
      forall k | i < k < |mutations| ensures Holds(k, was, Spec.Mutate(env, p).made, i) {
        assert old@Returned(Holds(k, was, Spec.Below(env, p).made, i + 1));
      }
    }

    /** The mutator of builder n, or the batch insert if there is none. */
    method CallBelow(n: nat, ghost env: Spec.Env, ghost was: seq<bool>, ghost p: Spec.Point)
      returns (err: Option<Spec.Error>, ghost trace: seq<Spec.Event>)
      requires Serves(env) && Spec.At(env, p) && |was| == |mutations| && n == p.i + 1 && Pending(env, was, n)
      requires specs[..n] == p.built + [SpecOf(env.json, p.passed)]
      modifies this, mutations[n..]
      ensures err == Spec.Below(env, p).error && trace == Spec.Below(env, p).trace
      ensures Keeps(n, Spec.Below(env, p))
      ensures forall k | n <= k < |mutations| :: Holds(k, was, Spec.Below(env, p).made, n)
      ensures forall k | n <= k < |mutations| && Spec.Below(env, p).made[k - n].Some? :: fresh(nodes[k])
      ensures forall k | n <= k < |mutations| :: mutations[k] == old(mutations)[k] || fresh(mutations[k])
      decreases |hooks| - n + 1, -1, 0
    {
      hide Check, SpecOf, Spec.Finished;
      if n < |mutations| {
        err, trace := Mutate(n, 0, mutations[n], env, was, Spec.Onward(env, p));
      } else {
        assert specs == specs[..n];
        err := BatchCreate();
        trace := [Spec.Insert(specs)];
      }
    }

    /** What env describes: every builder's mutation with its defaults, at the instants its clock returns. */
    ghost function EnvOf(clock: nat -> (Time, Time)): Spec.Env
      requires |mutations| == |hooks|
      reads this, mutations
    {
      var slots := seq(|hooks|, k requires 0 <= k < |hooks| && |mutations| == |hooks| reads this, mutations =>
        SlotOf(k, clock));
      Spec.Env(json, slots, backend)
    }

    /** Which mutations are done already. */
    ghost function Marks(): (was: seq<bool>)
      reads this, mutations
      ensures |was| == |mutations| && forall k | 0 <= k < |was| :: was[k] == mutations[k].done
    {
      seq(|mutations|, k requires 0 <= k < |mutations| reads this, mutations => mutations[k].done)
    }

    ghost function SlotOf(k: nat, clock: nat -> (Time, Time)): Spec.Slot
      requires k < |mutations| == |hooks|
      reads this, mutations[k]
    {
      Spec.Slot(Defaults(mutations[k].fields, clock(k).0, clock(k).1), hooks[k])
    }

    /** `defaults` on every builder, in order. */
    method SetDefaults(clock: nat -> (Time, Time))
      requires |mutations| == |hooks| && forall a, b | 0 <= a < b < |mutations| :: mutations[a] != mutations[b]
      modifies mutations
      ensures forall k | 0 <= k < |mutations| ::
                mutations[k].fields == old(SlotOf(k, clock)).mutation && mutations[k].done == old(mutations[k].done)
    {
      hide Defaults;
      for i := 0 to |mutations|
        invariant forall k | 0 <= k < i :: mutations[k].fields == old(SlotOf(k, clock)).mutation
        invariant forall k | i <= k < |mutations| :: mutations[k].fields == old(mutations[k].fields)
        invariant forall k | 0 <= k < |mutations| :: mutations[k].done == old(mutations[k].done)
      {
        var m := mutations[i];
        m.fields := Defaults(m.fields, clock(i).0, clock(i).1);
      }
    }

    /** `Save`: one call of the first mutator. */
    method Save(clock: nat -> (Time, Time))
      returns (saved: Result<seq<ImportScanFile?>, Spec.Error>, ghost trace: seq<Spec.Event>)
      requires |mutations| == |hooks| && OneIDEach(backend)
      requires forall a, b | 0 <= a < b < |mutations| :: mutations[a] != mutations[b]
      modifies this, mutations
      ensures failure.Some? ==> saved == Err(failure.value) && trace == [] && unchanged(this) && unchanged(mutations)
      ensures failure.None? && |hooks| == 0 ==> saved == Ok([]) && trace == []
      ensures failure.None? && |hooks| > 0 ==> SaveReported(old(EnvOf(clock)), old(Marks()), saved, trace)
    {
      hide Check, SpecOf, Defaults, Spec.Mutate;
      trace := [];
      if failure.Some? {
        return Err(failure.value), [];
      }
      ghost var env, was := EnvOf(clock), Marks();
      specs := seq(|mutations|, _ => CreateSpec(None, map[], []));
      values := seq(|mutations|, _ => None);
      nodes := seq(|mutations|, _ => null);
      SetDefaults(clock);
      if |mutations| > 0 {
        var err;
        err, trace := Mutate(0, 0, mutations[0], env, was, Spec.Start(env));
        if err.Some? {
          return Err(err.value), trace;
        }
      } else {
        assert nodes == [];
      }
      return Ok(nodes), trace;
    }

    /** What callers have set so far. */
    ghost function Pendings(): (ms: seq<Mutation>)
      reads this, mutations
      ensures |ms| == |mutations| && forall k | 0 <= k < |ms| :: ms[k] == mutations[k].fields
    {
      seq(|mutations|, k requires 0 <= k < |mutations| reads this, mutations => mutations[k].fields)
    }

    /**
     Without hooks: a save succeeds only if every mutation was acceptable, and returns then
     entities with what their callers set and the defaults for the rest; otherwise it names
     the first thing that is wrong with the first mutation that is not.
     */
    ghost predicate UnhookedSaved(ms: seq<Mutation>, clock: Ready.Clock,
                                  saved: Result<seq<ImportScanFile?>, Spec.Error>)
      reads this, nodes
    {
      && (saved.Ok? ==>
            && Ready.AllAcceptable(ms) && saved.value == nodes && |nodes| == |ms|
            && forall k | 0 <= k < |ms| ::
                 nodes[k] != null && Ready.Kept(ms[k], clock(k).0, clock(k).1, nodes[k].Fields()))
      && forall k, e | 0 <= k < |ms| && Ready.RefusedFor(ms[k], e) && Ready.AllAcceptable(ms[..k]) ::
           saved == Err(Spec.Rejected(e))
    }

    /** The list of entities comes back only without an error, and every builder is as the report says. */
    ghost predicate SaveReported(env: Spec.Env, was: seq<bool>,
                                 saved: Result<seq<ImportScanFile?>, Spec.Error>, trace: seq<Spec.Event>)
      reads this, mutations, nodes
    {
      && env.slots != [] && |env.slots| == |mutations| == |nodes| == |was|
      && var report := Spec.Mutate(env, Spec.Start(env));
      && trace == report.trace
      && saved == (if report.error.Some? then Err(report.error.value) else Ok(nodes))
      && forall k | 0 <= k < |mutations| :: Holds(k, was, report.made, 0)
    }

    /** What a save of builders without hooks finds after `defaults`. */
    lemma EnvUnhooked(clock: Ready.Clock)
      requires |mutations| == |hooks| && forall k | 0 <= k < |hooks| :: hooks[k] == []
      ensures Ready.Unhooked(EnvOf(clock), Pendings(), clock)
    {
      hide Defaults;
      forall k | 0 <= k < |hooks|
        ensures EnvOf(clock).slots[k] == Spec.Slot(Defaults(mutations[k].fields, clock(k).0, clock(k).1), [])
      {
        assert EnvOf(clock).slots[k] == SlotOf(k, clock);
      }
    }

    lemma UnhookedOutcome(env: Spec.Env, was: seq<bool>, ms: seq<Mutation>, clock: Ready.Clock,
                          saved: Result<seq<ImportScanFile?>, Spec.Error>, trace: seq<Spec.Event>)
      requires SaveReported(env, was, saved, trace) && Ready.Unhooked(env, ms, clock)
      ensures UnhookedSaved(ms, clock, saved)
    {
      hide Check, SpecOf, Spec.Finished, Spec.Mutate, Defaults, Ready.RefusedFor, Ready.Acceptable, Ready.Kept;
      assert Spec.AllFaithful(env);
      var p := Spec.Start(env);
      forall k, e | 0 <= k < |ms| && Ready.RefusedFor(ms[k], e) && Ready.AllAcceptable(ms[..k])
        ensures saved == Err(Spec.Rejected(e))
      {
        forall j | 0 <= j < k ensures Ready.Acceptable(ms[j]) { assert ms[..k][j] == ms[j]; }
        Ready.RefusedSave(env, ms, clock, k, e);
      }
      if saved.Ok? {
        Ready.AcceptedOnly(env, ms, clock);
        Spec.AllOrNothing(env);
        forall k | 0 <= k < |ms|
          ensures nodes[k] != null && Ready.Kept(ms[k], clock(k).0, clock(k).1, nodes[k].Fields())
        {
          Spec.MadeExact(env, p, k);
          assert Holds(k, was, Spec.Mutate(env, p).made, 0);
          Ready.FinishedKept(env, ms, clock, k, Spec.Mutate(env, p).ids);
        }
      }
    }

    /** The entity of builder k after a save in which every builder was ready. */
    ghost function SavedFields(env: Spec.Env, k: nat): File
      requires Spec.AllReady(env.slots, 0) && k < |env.slots|
      requires env.backend(Spec.SpecsFrom(env.json, env.slots, 0)).Stored?
    {
      Spec.Finished(Spec.Passed(env.slots[k]), Some(env.backend(Spec.SpecsFrom(env.json, env.slots, 0)).ids), k)
    }

    /**
     All or nothing, on the objects: with faithful hooks the save succeeds exactly when
     every builder is ready and the one batch is stored. Then builder k is done, and entry
     k of the list is the entity of the mutation its hooks passed on, with the k-th id;
     otherwise no mutation is newly marked done.
     */
    lemma SavedOrUntouched(env: Spec.Env, was: seq<bool>,
                           saved: Result<seq<ImportScanFile?>, Spec.Error>, trace: seq<Spec.Event>)
      requires SaveReported(env, was, saved, trace) && Spec.AllFaithful(env)
      ensures saved.Ok? <==>
                Spec.AllReady(env.slots, 0) && env.backend(Spec.SpecsFrom(env.json, env.slots, 0)).Stored?
      ensures saved.Ok? ==> saved.value == nodes && forall k | 0 <= k < |nodes| :: Created(k, SavedFields(env, k))
      ensures saved.Err? ==> forall k | 0 <= k < |mutations| :: mutations[k].done ==> was[k]
    {
      hide Check, SpecOf, Spec.Finished, Spec.Mutate;
      var p := Spec.Start(env);
      var report := Spec.Mutate(env, p);
      Spec.SucceedsExactly(env);
      Spec.AllOrNothing(env);
      Spec.OneBatchOrNone(env);
      Spec.StoredExact(env, p);
      forall k | 0 <= k < |mutations|
        ensures saved.Ok? ==> Created(k, SavedFields(env, k))
        ensures saved.Err? && mutations[k].done ==> was[k]
      {
        Spec.MadeExact(env, p, k);
        assert Holds(k, was, report.made, 0);
      }
    }
  }
}
