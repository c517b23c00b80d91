/**
 A bulk save whose hooks call their next mutator any number of times: how many batch
 inserts it issues. The closures check, take over the mutation, build the spec and
 call on, as in the chain where hooks call on at most once.
 */
module BulkRetries {
  import opened Base
  import opened FileCodec
  import opened Hooks
  import Spec = BulkSpec

  /** What the mutators of one save share: the builders' mutations, the specs, and the batches sent so far. */
  datatype Shared = Shared(owns: seq<Ref>, specs: seq<CreateSpec>, batches: seq<seq<CreateSpec>>, ids: seq<Int64>)

  type BulkWorld = World<Mutation, Shared>
  type BulkMutator<!V> = Mutator<Mutation, Shared, V>
  type BulkHook<!V> = Hook<Mutation, Shared, V>

  /** After a successful call: the mutation has the id of its row. */
  function Identified(w: BulkWorld, i: nat, arg: Ref): BulkWorld {
    if arg in w.objects && i < |w.store.ids| then
      w.(objects := w.objects[arg := w.objects[arg].(id := Some(Narrow32(w.store.ids[i])))])
    else w
  }

  /** The closure of builder i. */
  function Closure<V>(json: Json, i: nat): BulkHook<V> {
    (next: BulkMutator<V>) =>
      (w: BulkWorld, arg: Ref) =>
        if arg !in w.objects then (w, Err(UnexpectedMutation))
        else if i >= |w.store.owns| || i >= |w.store.specs| then (w, Err(Failed(i)))
        else if w.store.owns[i] !in w.objects || Check(w.objects[w.store.owns[i]]).Some? then (w, Err(Failed(i)))
        else
          var taken := w.(store := w.store.(owns := w.store.owns[i := arg],
                                            specs := w.store.specs[i := SpecOf(json, w.objects[arg])]));
          var (after, reply) := next(taken, if i + 1 < |taken.store.owns| then taken.store.owns[i + 1] else arg);
          (if reply.Ok? then Identified(after, i, arg) else after, reply)
  }

  function BatchInsert<V>(backend: Spec.Backend): BulkMutator<V> {
    (w: BulkWorld, arg: Ref) =>
      var sent := w.(store := w.store.(batches := w.store.batches + [w.store.specs]));
      match backend(w.store.specs)
      case Stored(ids) => (sent.(store := sent.store.(ids := ids)), Ok(Unexpected))
      case Refused(_) => (sent, Err(Failed(0)))
  }

  function Batches(s: Shared): nat {
    |s.batches|
  }

  /** The mutators of builders i, i+1, ... */
  function Chain<V>(json: Json, backend: Spec.Backend, hooks: seq<seq<BulkHook<V>>>, i: nat): BulkMutator<V>
    requires i <= |hooks|
    decreases |hooks| - i
  {
    if i == |hooks| then BatchInsert(backend)
    else Compose(hooks[i], Closure(json, i)(Chain(json, backend, hooks, i + 1)))
  }

  /**
   The closure of the last builder: if its own mutation passes the check, the batch holds the
   earlier specs and the spec of the mutation that arrived, which then has the id of its row.
   */
  lemma ClosureInserts<V>(json: Json, backend: Spec.Backend, i: nat, w: BulkWorld, arg: Ref)
    requires arg in w.objects && |w.store.owns| == |w.store.specs| == i + 1
    requires w.store.owns[i] in w.objects && Check(w.objects[w.store.owns[i]]).None?
    ensures var batch := w.store.specs[..i] + [SpecOf(json, w.objects[arg])];
            var (after, reply) := Closure<V>(json, i)(BatchInsert(backend))(w, arg);
            && after.store.batches == w.store.batches + [batch]
            && (reply.Ok? <==> backend(batch).Stored?)
            && (backend(batch).Stored? && i < |backend(batch).ids| ==>
                  after.objects ==
                  w.objects[arg := w.objects[arg].(id := Some(Narrow32(backend(batch).ids[i])))])
            && (backend(batch).Refused? ==> after.objects == w.objects)
  {
    hide Check, SpecOf, BatchInsert, Identified;
    var specs := w.store.specs[i := SpecOf(json, w.objects[arg])];
    var taken := w.(store := w.store.(owns := w.store.owns[i := arg], specs := specs));
    var (after, reply) := BatchInsert<V>(backend)(taken, arg);
    assert specs == w.store.specs[..i] + [SpecOf(json, w.objects[arg])];
    assert Closure<V>(json, i)(BatchInsert(backend))(w, arg) ==
           (if reply.Ok? then Identified(after, i, arg) else after, reply);
    BatchDone<V>(backend, taken, arg);
    IdentifiedIs(after, i, arg);
  }

  lemma BatchDone<V>(backend: Spec.Backend, w: BulkWorld, arg: Ref)
    ensures var (after, reply) := BatchInsert<V>(backend)(w, arg);
            && after.objects == w.objects && after.store.batches == w.store.batches + [w.store.specs]
            && (reply.Ok? <==> backend(w.store.specs).Stored?)
            && (reply.Ok? ==> after.store.ids == backend(w.store.specs).ids)
  {
  }

  lemma IdentifiedIs(w: BulkWorld, i: nat, arg: Ref)
    requires arg in w.objects
    ensures Identified(w, i, arg).store == w.store
    ensures i < |w.store.ids| ==>
              Identified(w, i, arg).objects ==
              w.objects[arg := w.objects[arg].(id := Some(Narrow32(w.store.ids[i])))]
  {
  }

  // ---------- every mutation passes the check ----------

  predicate AllChecked(w: BulkWorld) {
    forall r | r in w.objects :: Check(w.objects[r]).None?
  }

  /** For n builders: every mutation object passes the check, and the call is made with one of them. */
  function Sound(n: nat): (BulkWorld, Ref) -> bool {
    (w: BulkWorld, arg: Ref) =>
      && arg in w.objects && AllChecked(w)
      && |w.store.owns| == |w.store.specs| == n
      && forall k | 0 <= k < n :: w.store.owns[k] in w.objects
  }

  /** The closure of a builder then calls on, once. */
  lemma ClosureCallsOn<V(!new)>(json: Json, n: nat, i: nat)
    requires i < n
    ensures CallsOn(Closure<V>(json, i), Sound(n), Batches, 1)
  {
    forall next: BulkMutator<V>, d: nat | Raises(next, Sound(n), Batches, d)
      ensures Raises(Closure<V>(json, i)(next), Sound(n), Batches, Mul(1, d))
    {
      forall w: BulkWorld, arg: Ref | Sound(n)(w, arg)
        ensures var after := Closure<V>(json, i)(next)(w, arg).0;
                && Sound(n)(after, arg) && w.objects.Keys <= after.objects.Keys
                && Batches(after.store) == Batches(w.store) + d
      {
        ClosureOnce(json, n, i, next, d, w, arg);
      }
    }
  }

  lemma ClosureOnce<V(!new)>(json: Json, n: nat, i: nat, next: BulkMutator<V>, d: nat, w: BulkWorld, arg: Ref)
    requires i < n && Raises(next, Sound(n), Batches, d) && Sound(n)(w, arg)
    ensures var after := Closure<V>(json, i)(next)(w, arg).0;
            && Sound(n)(after, arg) && w.objects.Keys <= after.objects.Keys
            && Batches(after.store) == Batches(w.store) + d
  {
    hide Check, SpecOf, Raises, Identified;
    var taken := w.(store := w.store.(owns := w.store.owns[i := arg],
                                      specs := w.store.specs[i := SpecOf(json, w.objects[arg])]));
    var below := if i + 1 < |taken.store.owns| then taken.store.owns[i + 1] else arg;
    assert Sound(n)(taken, below);
    RaisesOnce(next, Sound(n), Batches, d, taken, below);
    var (after, reply) := next(taken, below);
    assert arg in taken.objects.Keys && arg in after.objects.Keys;
    assert Sound(n)(after, arg);
    IdentifiedSound(n, after, i, arg);
    assert Check(w.objects[w.store.owns[i]]).None?;
    assert Closure<V>(json, i)(next)(w, arg).0 == if reply.Ok? then Identified(after, i, arg) else after;
  }

  /** The check does not look at the id. */
  lemma IdentifiedSound(n: nat, w: BulkWorld, i: nat, arg: Ref)
    requires Sound(n)(w, arg)
    ensures Sound(n)(Identified(w, i, arg), arg)
    ensures w.objects.Keys <= Identified(w, i, arg).objects.Keys && Identified(w, i, arg).store == w.store
  {
  }

  lemma InsertRaises<V(!new)>(n: nat, backend: Spec.Backend)
    ensures Raises(BatchInsert<V>(backend), Sound(n), Batches, 1)
  {
    hide AllChecked, Sound, Batches, BatchInsert;
    forall w: BulkWorld, arg: Ref | Sound(n)(w, arg)
      ensures var after := BatchInsert<V>(backend)(w, arg).0;
              && Sound(n)(after, arg) && w.objects.Keys <= after.objects.Keys
              && Batches(after.store) == Batches(w.store) + 1
    {
      InsertOnce<V>(n, backend, w, arg);
    }
  }

  lemma InsertOnce<V>(n: nat, backend: Spec.Backend, w: BulkWorld, arg: Ref)
    requires Sound(n)(w, arg)
    ensures var after := BatchInsert<V>(backend)(w, arg).0;
            && Sound(n)(after, arg) && after.objects == w.objects
            && Batches(after.store) == Batches(w.store) + 1
  {
    hide AllChecked;
    SameObjects(w, BatchInsert<V>(backend)(w, arg).0);
  }

  lemma SameObjects(w: BulkWorld, after: BulkWorld)
    requires AllChecked(w) && after.objects == w.objects
    ensures AllChecked(after)
  {
  }

  lemma MulOne(d: nat)
    ensures Mul(1, d) == d
  {
  }

  function AllTimes(times: seq<seq<nat>>, i: nat): nat
    requires i <= |times|
    decreases |times| - i
  {
    if i == |times| then 1 else RunsOf(times[i], AllTimes(times, i + 1))
  }

  /**
   While every mutation passes the check, a bulk save issues as many batch inserts as the
   numbers of calls that the hooks of all builders make multiply to.
   */
  lemma {:induction false} BulkInserts<V(!new)>(json: Json, backend: Spec.Backend, hooks: seq<seq<BulkHook<V>>>,
                                               times: seq<seq<nat>>, i: nat)
    requires i <= |hooks| == |times|
    requires forall k | i <= k < |hooks| :: AllCallOn(hooks[k], Sound(|hooks|), Batches, times[k])
    ensures Raises(Chain(json, backend, hooks, i), Sound(|hooks|), Batches, AllTimes(times, i))
    decreases |hooks| - i
  {
    hide Raises, CallsOn, Sound, Mul;
    var n := |hooks|;
    if i == n {
      InsertRaises<V>(n, backend);
    } else {
      BulkInserts(json, backend, hooks, times, i + 1);
      var rest, below := AllTimes(times, i + 1), Chain(json, backend, hooks, i + 1);
      ClosureCallsOn<V>(json, n, i);
      OneMore(Closure<V>(json, i), Sound(n), Batches, 1, below, rest);
      MulOne(rest);
      RunsMultiply(hooks[i], times[i], Closure(json, i)(below), Sound(n), Batches, rest);
    }
  }

  // ---------- a builder that fails the check ----------

  predicate Failing(w: BulkWorld, i: nat) {
    i < |w.store.owns| && w.store.owns[i] in w.objects && Check(w.objects[w.store.owns[i]]).Some?
  }

  /** The closure of a builder that fails the check changes nothing and does not call on, however often it is called. */
  lemma ClosureStops<V>(json: Json, i: nat, next: BulkMutator<V>, w: BulkWorld, arg: Ref)
    requires Failing(w, i)
    ensures Closure<V>(json, i)(next)(w, arg).0 == w && Closure<V>(json, i)(next)(w, arg).1.Err?
  {
  }

  lemma {:induction false} NoRuns(times: seq<nat>)
    ensures RunsOf(times, 0) == 0
  {
    if times != [] { NoRuns(times[1..]); }
  }

  function StaysFailing(i: nat): (BulkWorld, Ref) -> bool {
    (w: BulkWorld, arg: Ref) => Failing(w, i)
  }

  /** So a save in which builder i fails the check, and hooks leave it failing, issues no insert below it. */
  lemma NothingBelow<V(!new)>(json: Json, backend: Spec.Backend, hooks: seq<seq<BulkHook<V>>>,
                              times: seq<seq<nat>>, i: nat)
    requires i < |hooks| == |times| && AllCallOn(hooks[i], StaysFailing(i), Batches, times[i])
    ensures Raises(Chain(json, backend, hooks, i), StaysFailing(i), Batches, 0)
  {
    var below := Chain(json, backend, hooks, i + 1);
    forall w: BulkWorld, arg: Ref | Failing(w, i) ensures Closure<V>(json, i)(below)(w, arg).0 == w {
      ClosureStops(json, i, below, w, arg);
    }
    assert Raises(Closure<V>(json, i)(below), StaysFailing(i), Batches, 0);
    RunsMultiply(hooks[i], times[i], Closure(json, i)(below), StaysFailing(i), Batches, 0);
    NoRuns(times[i]);
  }
}
