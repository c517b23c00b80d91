/**
 Bulk creation as a chain of calls: each builder's mutator runs its hooks, checks,
 builds its spec and calls the next builder's mutator; the last one issues the
 batch insert; marks are set while the calls return.
 */
module BulkSpec {
  import opened Base
  import opened FileCodec

  datatype Error = Rejected(why: CheckError) | StoreRefused(message: string) | HookFailed(code: int)

  /** What a hook does with a mutation before the next mutator: edit it in place, or pass another one. */
  datatype Entry = Refuse(error: Error) | Skip | Edit(next: Mutation) | Swap(next: Mutation)

  /** A hook that calls its next mutator at most once. */
  datatype Hook = Hook(enter: Mutation -> Entry, leave: Option<Error> -> Option<Error>)

  datatype Slot = Slot(mutation: Mutation, hooks: seq<Hook>)

  datatype Batch = Stored(ids: seq<Int64>) | Refused(error: Error)

  type Backend = seq<CreateSpec> -> Batch

  datatype Env = Env(json: Json, slots: seq<Slot>, backend: Backend)

  datatype Event =
    | Enter(builder: nat, hook: nat)
    | Leave(builder: nat, hook: nat)
    | Checked(builder: nat)
    | Built(builder: nat)
    | Insert(specs: seq<CreateSpec>)
    | Done(builder: nat)

  /**
   `marks[k]` says whether builder i+k is marked done, and `made[k]` is then its
   entity; `sent` is the batch, if one was issued, and `ids` what the store returned.
   */
  datatype Report = Report(
    error: Option<Error>,
    trace: seq<Event>,
    marks: seq<bool>,
    made: seq<Option<File>>,
    sent: Option<seq<CreateSpec>>,
    ids: Option<seq<Int64>>)

  function NoMarks(n: nat): (marks: seq<bool>)
    ensures |marks| == n && forall k | 0 <= k < n :: !marks[k]
  {
    seq(n, _ => false)
  }

  function NothingMade(n: nat): (made: seq<Option<File>>)
    ensures |made| == n && forall k | 0 <= k < n :: made[k].None?
  {
    seq(n, _ => None)
  }

  /** The id in a spec once the batch has run: what the store returned, or else what was given. */
  function SpecID(m: Mutation, ids: Option<seq<Int64>>, i: nat): Option<Int64> {
    if ids.Some? && i < |ids.value| then Some(ids.value[i])
    else if m.id.Some? then Some(m.id.value) else None
  }

  /** An entity without an id takes the one in its spec. */
  function WithID(f: File, id: Option<Int64>): File {
    if id.Some? && f.id == 0 then f.(id := Narrow32(id.value)) else f
  }

  /** The entity of builder i once its id is known. */
  function Finished(m: Mutation, ids: Option<seq<Int64>>, i: nat): File {
    WithID(NodeOf(m), SpecID(m, ids, i))
  }

  /** Where a call in the chain stands: builder i, hook j, and the mutation handed on. */
  datatype Point = Point(i: nat, j: nat, passed: Mutation, own: Mutation, same: bool, built: seq<CreateSpec>)

  predicate At(env: Env, p: Point) {
    p.i < |env.slots| && p.j <= |env.slots[p.i].hooks|
  }

  /** The point the next hook's mutator is called at; a swapped mutation no longer is the builder's own. */
  function Through(p: Point, entry: Entry): Point
    requires entry.Edit? || entry.Swap?
  {
    if entry.Swap? then p.(j := p.j + 1, passed := entry.next, same := false)
    else p.(j := p.j + 1, passed := entry.next, own := if p.same then entry.next else p.own)
  }

  /** The point the next builder's mutator is called at. */
  function Onward(env: Env, p: Point): Point
    requires p.i + 1 < |env.slots|
  {
    var m := env.slots[p.i + 1].mutation;
    Point(p.i + 1, 0, m, m, true, p.built + [SpecOf(env.json, p.passed)])
  }

  function Start(env: Env): Point
    requires env.slots != []
  {
    Point(0, 0, env.slots[0].mutation, env.slots[0].mutation, true, [])
  }

  /** Mutator i from hook j on: what the call returns and does. */
  function Mutate(env: Env, p: Point): (out: Report)
    requires At(env, p)
    ensures |out.marks| == |out.made| == |env.slots| - p.i
    ensures out.ids.Some? ==> out.sent.Some?
    decreases |env.slots| - p.i, |env.slots[p.i].hooks| - p.j
  {
    var n := |env.slots| - p.i;
    if p.j < |env.slots[p.i].hooks| then
      var hook := env.slots[p.i].hooks[p.j];
      var entry := hook.enter(p.passed);
      match entry
      case Refuse(e) => Report(Some(e), [Enter(p.i, p.j), Leave(p.i, p.j)], NoMarks(n), NothingMade(n), None, None)
      case Skip => Report(None, [Enter(p.i, p.j), Leave(p.i, p.j)], NoMarks(n), NothingMade(n), None, None)
      case _ =>
        var inner := Mutate(env, Through(p, entry));
        inner.(error := hook.leave(inner.error), trace := [Enter(p.i, p.j)] + inner.trace + [Leave(p.i, p.j)])
    else
      var failed := Check(p.own);
      if failed.Some? then
        Report(Some(Rejected(failed.value)), [Checked(p.i)], NoMarks(n), NothingMade(n), None, None)
      else
        var inner := Below(env, p);
        var ok := inner.error.None?;
        inner.(trace := [Checked(p.i), Built(p.i)] + inner.trace + if ok then [Done(p.i)] else [],
               marks := [ok] + inner.marks,
               made := [if ok then Some(Finished(p.passed, inner.ids, p.i)) else None] + inner.made)
  }

  /** What the closure of builder i calls: the next mutator, or the batch insert. */
  function Below(env: Env, p: Point): (out: Report)
    requires At(env, p)
    ensures |out.marks| == |out.made| == |env.slots| - p.i - 1
    ensures out.ids.Some? ==> out.sent.Some?
    decreases |env.slots| - p.i, -1
  {
    if p.i + 1 < |env.slots| then Mutate(env, Onward(env, p))
    else
      var specs := p.built + [SpecOf(env.json, p.passed)];
      match env.backend(specs)
      case Stored(ids) => Report(None, [Insert(specs)], [], [], Some(specs), Some(ids))
      case Refused(e) => Report(Some(e), [Insert(specs)], [], [], Some(specs), None)
  }

  // ---------- which mutation arrives ----------

  /** At the end of the hooks: the mutation passed on, the builder's own, and whether they are one object. */
  datatype Reached = Reached(passed: Mutation, own: Mutation, same: bool)

  /** The mutation that reaches the operation and the one that is checked, if no hook stops the call. */
  function Arrival(hooks: seq<Hook>, j: nat, passed: Mutation, own: Mutation, same: bool): Option<Reached>
    requires j <= |hooks|
    decreases |hooks| - j
  {
    if j == |hooks| then Some(Reached(passed, own, same))
    else
      match hooks[j].enter(passed)
      case Refuse(_) => None
      case Skip => None
      case Edit(next) => Arrival(hooks, j + 1, next, if same then next else own, same)
      case Swap(next) => Arrival(hooks, j + 1, next, own, false)
  }

  function SlotArrival(s: Slot): Option<Reached> {
    Arrival(s.hooks, 0, s.mutation, s.mutation, true)
  }

  /** A builder is ready when its hooks let the call through and its own mutation passes the check. */
  predicate Ready(s: Slot) {
    SlotArrival(s).Some? && Check(SlotArrival(s).value.own).None?
  }

  predicate AllReady(slots: seq<Slot>, i: nat) {
    forall k | i <= k < |slots| :: Ready(slots[k])
  }

  function Passed(s: Slot): Mutation
    requires Ready(s)
  {
    SlotArrival(s).value.passed
  }

  function SpecsFrom(json: Json, slots: seq<Slot>, i: nat): (specs: seq<CreateSpec>)
    requires i <= |slots| && AllReady(slots, i)
    ensures |specs| == |slots| - i
    decreases |slots| - i
  {
    if i == |slots| then [] else [SpecOf(json, Passed(slots[i]))] + SpecsFrom(json, slots, i + 1)
  }

  /** The same three, from the middle of builder i's hooks. */
  function PointArrival(env: Env, p: Point): Option<Reached>
    requires At(env, p)
  {
    Arrival(env.slots[p.i].hooks, p.j, p.passed, p.own, p.same)
  }

  predicate PointReady(env: Env, p: Point)
    requires At(env, p)
  {
    PointArrival(env, p).Some? && Check(PointArrival(env, p).value.own).None? && AllReady(env.slots, p.i + 1)
  }

  function PointSpecs(env: Env, p: Point): seq<CreateSpec>
    requires At(env, p) && PointReady(env, p)
  {
    p.built + [SpecOf(env.json, PointArrival(env, p).value.passed)] + SpecsFrom(env.json, env.slots, p.i + 1)
  }

  lemma ReadyNext(env: Env, p: Point)
    requires At(env, p) && p.i + 1 < |env.slots|
    ensures PointReady(env, Onward(env, p)) == AllReady(env.slots, p.i + 1)
    ensures AllReady(env.slots, p.i + 1) ==>
              PointSpecs(env, Onward(env, p)) ==
              p.built + [SpecOf(env.json, p.passed)] + SpecsFrom(env.json, env.slots, p.i + 1)
  {
    if AllReady(env.slots, p.i + 2) && Ready(env.slots[p.i + 1]) {
      forall k | p.i + 1 <= k < |env.slots| ensures Ready(env.slots[k]) { }
    }
    assert AllReady(env.slots, p.i + 1) ==> Ready(env.slots[p.i + 1]);
  }

  /**
   The batch insert is issued exactly when every builder is ready, and then it
   holds the specs of all builders, in order.
   */
  lemma {:induction false} BatchExact(env: Env, p: Point)
    requires At(env, p)
    ensures Mutate(env, p).sent == if PointReady(env, p) then Some(PointSpecs(env, p)) else None
    decreases |env.slots| - p.i, |env.slots[p.i].hooks| - p.j
  {
    hide Check, SpecOf;
    if p.j < |env.slots[p.i].hooks| {
      var entry := env.slots[p.i].hooks[p.j].enter(p.passed);
      if entry.Edit? || entry.Swap? { BatchExact(env, Through(p, entry)); }
    } else if Check(p.own).None? {
      if p.i + 1 < |env.slots| {
        ReadyNext(env, p);
        BatchExact(env, Onward(env, p));
      } else {
        assert AllReady(env.slots, p.i + 1);
        assert SpecsFrom(env.json, env.slots, p.i + 1) == [];
        assert PointSpecs(env, p) == p.built + [SpecOf(env.json, p.passed)];
      }
    }
  }

  /** The whole save: one batch with every builder's spec, or no batch at all. */
  lemma OneBatchOrNone(env: Env)
    requires env.slots != []
    ensures Mutate(env, Start(env)).sent ==
            if AllReady(env.slots, 0) then Some(SpecsFrom(env.json, env.slots, 0)) else None
  {
    BatchExact(env, Start(env));
    assert AllReady(env.slots, 0) <==> Ready(env.slots[0]) && AllReady(env.slots, 1);
    if AllReady(env.slots, 0) {
      assert PointSpecs(env, Start(env)) == SpecsFrom(env.json, env.slots, 0);
    }
  }

  /** A builder is marked exactly when it has an entity, and that is built from the mutation its hooks passed on. */
  lemma {:induction false} MadeExact(env: Env, p: Point, k: nat)
    requires At(env, p) && p.i <= k < |env.slots|
    ensures var out := Mutate(env, p);
            var arrival := if k == p.i then PointArrival(env, p) else SlotArrival(env.slots[k]);
            && (out.made[k - p.i].Some? <==> out.marks[k - p.i])
            && (out.marks[k - p.i] ==>
                  arrival.Some? && out.made[k - p.i] == Some(Finished(arrival.value.passed, out.ids, k)))
    decreases |env.slots| - p.i, |env.slots[p.i].hooks| - p.j
  {
    hide Check, SpecOf, Finished;
    if p.j < |env.slots[p.i].hooks| {
      var entry := env.slots[p.i].hooks[p.j].enter(p.passed);
      if entry.Edit? || entry.Swap? { MadeExact(env, Through(p, entry), k); }
    } else if p.i < k {
      MadeExact(env, Onward(env, p), k);
    }
  }

  // ---------- the entities ----------

  /** The store keeps an id it was given and otherwise chooses one that fits. */
  predicate Honours(m: Mutation, id: Int64) {
    0 <= id < 0x1_0000_0000 && (m.id.Some? && m.id.value != 0 ==> id == m.id.value)
  }

  /** The entity a bulk save returns for builder i is what reading its stored row back gives. */
  lemma ReadBack(json: Json, m: Mutation, ids: seq<Int64>, i: nat, columns: seq<Column>)
    requires InversePair(json) && i < |ids| && Honours(m, ids[i])
    requires forall c: Column | !c.Other? :: c in columns
    ensures var (f, err) := Decode(json, ZeroOf(), columns, Buffers(SpecOf(json, m), ids[i], columns));
            err.None? && f.(selected := map[]) == Finished(m, Some(ids), i)
  {
    hide SpecOf, Decode;
    CreateReadRoundTrip(json, m, ids[i], columns);
    assert NodeOf(m).(id := ids[i]) == Finished(m, Some(ids), i);
  }

  // ---------- the trace ----------

  function Opening(env: Env, i: nat, j: nat): seq<Event>
    requires i < |env.slots| && j <= |env.slots[i].hooks|
    decreases |env.slots| - i, |env.slots[i].hooks| - j
  {
    if j < |env.slots[i].hooks| then [Enter(i, j)] + Opening(env, i, j + 1)
    else [Checked(i), Built(i)] + if i + 1 < |env.slots| then Opening(env, i + 1, 0) else []
  }

  function Closing(env: Env, i: nat, j: nat, marks: seq<bool>): seq<Event>
    requires i < |env.slots| && j <= |env.slots[i].hooks| && |marks| == |env.slots| - i
    decreases |env.slots| - i, |env.slots[i].hooks| - j
  {
    if j < |env.slots[i].hooks| then Closing(env, i, j + 1, marks) + [Leave(i, j)]
    else
      (if i + 1 < |env.slots| then Closing(env, i + 1, 0, marks[1..]) else []) +
      if marks[0] then [Done(i)] else []
  }

  /**
   When the batch is issued, the trace is: all hooks entered, checks and specs
   in builder order; the one insert; then everything left in reverse, with the
   marks in between.
   */
  lemma {:induction false} TraceExact(env: Env, p: Point)
    requires At(env, p) && Mutate(env, p).sent.Some?
    ensures var out := Mutate(env, p);
            out.trace == Opening(env, p.i, p.j) + [Insert(out.sent.value)] + Closing(env, p.i, p.j, out.marks)
    decreases |env.slots| - p.i, |env.slots[p.i].hooks| - p.j
  {
    hide Check, SpecOf;
    if p.j < |env.slots[p.i].hooks| {
      var entry := env.slots[p.i].hooks[p.j].enter(p.passed);
      var inner := Mutate(env, Through(p, entry));
      TraceExact(env, Through(p, entry));
      Regroup([Enter(p.i, p.j)], Opening(env, p.i, p.j + 1), [Insert(inner.sent.value)],
              Closing(env, p.i, p.j + 1, inner.marks), [Leave(p.i, p.j)]);
    } else {
      if p.i + 1 < |env.slots| { TraceExact(env, Onward(env, p)); }
      ClosureTrace(env, p);
    }
  }

  lemma ClosureTrace(env: Env, p: Point)
    requires At(env, p) && p.j == |env.slots[p.i].hooks| && Mutate(env, p).sent.Some?
    requires p.i + 1 < |env.slots| ==>
               var inner := Mutate(env, Onward(env, p));
               inner.sent.Some? &&
               inner.trace ==
               Opening(env, p.i + 1, 0) + [Insert(inner.sent.value)] + Closing(env, p.i + 1, 0, inner.marks)
    ensures var out := Mutate(env, p);
            out.trace == Opening(env, p.i, p.j) + [Insert(out.sent.value)] + Closing(env, p.i, p.j, out.marks)
  {
    hide Check, SpecOf;
    var out, inner := Mutate(env, p), Below(env, p);
    assert out.marks[1..] == inner.marks;
    var rest := if p.i + 1 < |env.slots| then Opening(env, p.i + 1, 0) else [];
    var tail := if p.i + 1 < |env.slots| then Closing(env, p.i + 1, 0, inner.marks) else [];
    assert inner.trace == rest + [Insert(out.sent.value)] + tail;
    Regroup([Checked(p.i), Built(p.i)], rest, [Insert(out.sent.value)], tail,
            if inner.error.None? then [Done(p.i)] else []);
  }

  lemma Regroup(a: seq<Event>, b: seq<Event>, c: seq<Event>, d: seq<Event>, e: seq<Event>)
    ensures a + (b + c + d) + e == (a + b) + c + (d + e)
  {
  }

  datatype Frame = Frame(builder: nat, hook: nat)

  /** Reads a trace as brackets; None when a hook is left that is not the innermost one. */
  function Brackets(trace: seq<Event>, stack: seq<Frame>): Option<seq<Frame>> {
    if trace == [] then Some(stack)
    else
      match trace[0]
      case Enter(i, j) => Brackets(trace[1..], stack + [Frame(i, j)])
      case Leave(i, j) =>
        if stack != [] && stack[|stack| - 1] == Frame(i, j) then Brackets(trace[1..], stack[..|stack| - 1])
        else None
      case _ => Brackets(trace[1..], stack)
  }

  lemma {:induction false} BracketsAppend(a: seq<Event>, b: seq<Event>, stack: seq<Frame>)
    requires Brackets(a, stack).Some?
    ensures Brackets(a + b, stack) == Brackets(b, Brackets(a, stack).value)
    decreases |a|
  {
    if a == [] {
      assert a + b == b;
    } else {
      assert (a + b)[1..] == a[1..] + b;
      match a[0]
      case Enter(i, j) => BracketsAppend(a[1..], b, stack + [Frame(i, j)]);
      case Leave(i, j) => BracketsAppend(a[1..], b, stack[..|stack| - 1]);
      case _ => BracketsAppend(a[1..], b, stack);
    }
  }

  lemma BracketsAround(i: nat, j: nat, inner: seq<Event>, stack: seq<Frame>)
    requires Brackets(inner, stack + [Frame(i, j)]) == Some(stack + [Frame(i, j)])
    ensures Brackets([Enter(i, j)] + inner + [Leave(i, j)], stack) == Some(stack)
  {
    var deeper := stack + [Frame(i, j)];
    var rest := inner + [Leave(i, j)];
    BracketsAppend(inner, [Leave(i, j)], deeper);
    assert deeper[..|deeper| - 1] == stack;
    assert [Leave(i, j)][1..] == [];
    assert ([Enter(i, j)] + rest)[1..] == rest;
    assert [Enter(i, j)] + inner + [Leave(i, j)] == [Enter(i, j)] + rest;
  }

  predicate Plain(e: Event) {
    !e.Enter? && !e.Leave?
  }

  lemma {:induction false} BracketsPlain(a: seq<Event>, stack: seq<Frame>)
    requires forall k | 0 <= k < |a| :: Plain(a[k])
    ensures Brackets(a, stack) == Some(stack)
    decreases |a|
  {
    if a != [] { BracketsPlain(a[1..], stack); }
  }

  lemma BracketsBetween(a: seq<Event>, inner: seq<Event>, b: seq<Event>, stack: seq<Frame>)
    requires forall k | 0 <= k < |a| :: Plain(a[k])
    requires forall k | 0 <= k < |b| :: Plain(b[k])
    requires Brackets(inner, stack) == Some(stack)
    ensures Brackets(a + inner + b, stack) == Some(stack)
  {
    BracketsPlain(a, stack);
    BracketsPlain(b, stack);
    BracketsAppend(a, inner, stack);
    BracketsAppend(a + inner, b, stack);
  }

  /** Whatever the hooks do, the trace of a save is well bracketed. */
  lemma {:induction false} WellBracketed(env: Env, p: Point, stack: seq<Frame>)
    requires At(env, p)
    ensures Brackets(Mutate(env, p).trace, stack) == Some(stack)
    decreases |env.slots| - p.i, |env.slots[p.i].hooks| - p.j
  {
    hide Check, SpecOf;
    if p.j < |env.slots[p.i].hooks| {
      var entry := env.slots[p.i].hooks[p.j].enter(p.passed);
      if entry.Edit? || entry.Swap? {
        WellBracketed(env, Through(p, entry), stack + [Frame(p.i, p.j)]);
        BracketsAround(p.i, p.j, Mutate(env, Through(p, entry)).trace, stack);
      } else {
        BracketsAround(p.i, p.j, [], stack);
        assert [Enter(p.i, p.j)] + [] + [Leave(p.i, p.j)] == [Enter(p.i, p.j), Leave(p.i, p.j)];
      }
    } else if Check(p.own).Some? {
      BracketsPlain([Checked(p.i)], stack);
    } else {
      var inner := Below(env, p);
      if p.i + 1 < |env.slots| {
        WellBracketed(env, Onward(env, p), stack);
      } else {
        BracketsPlain(inner.trace, stack);
      }
      BracketsBetween([Checked(p.i), Built(p.i)], inner.trace, if inner.error.None? then [Done(p.i)] else [], stack);
    }
  }

  /** All hooks, builder by builder, in registration order. */
  function AllHooks(env: Env, i: nat, j: nat): seq<Frame>
    requires i < |env.slots| && j <= |env.slots[i].hooks|
    decreases |env.slots| - i, |env.slots[i].hooks| - j
  {
    if j < |env.slots[i].hooks| then [Frame(i, j)] + AllHooks(env, i, j + 1)
    else if i + 1 < |env.slots| then AllHooks(env, i + 1, 0)
    else []
  }

  lemma BracketsEnter(i: nat, j: nat, rest: seq<Event>, stack: seq<Frame>)
    ensures Brackets([Enter(i, j)] + rest, stack) == Brackets(rest, stack + [Frame(i, j)])
  {
    assert ([Enter(i, j)] + rest)[1..] == rest;
  }

  lemma BracketsSkip(i: nat, rest: seq<Event>, stack: seq<Frame>)
    ensures Brackets([Checked(i), Built(i)] + rest, stack) == Brackets(rest, stack)
  {
    BracketsPlain([Checked(i), Built(i)], stack);
    BracketsAppend([Checked(i), Built(i)], rest, stack);
  }

  /** At the insert every hook of every builder is open, builder 0's first hook outermost. */
  lemma {:induction false} InsertAtCentre(env: Env, i: nat, j: nat, stack: seq<Frame>)
    requires i < |env.slots| && j <= |env.slots[i].hooks|
    ensures Brackets(Opening(env, i, j), stack) == Some(stack + AllHooks(env, i, j))
    decreases |env.slots| - i, |env.slots[i].hooks| - j
  {
    hide Brackets;
    if j < |env.slots[i].hooks| {
      InsertAtCentre(env, i, j + 1, stack + [Frame(i, j)]);
      BracketsEnter(i, j, Opening(env, i, j + 1), stack);
      assert stack + [Frame(i, j)] + AllHooks(env, i, j + 1) == stack + AllHooks(env, i, j);
    } else {
      BracketsSkip(i, if i + 1 < |env.slots| then Opening(env, i + 1, 0) else [], stack);
      if i + 1 < |env.slots| {
        InsertAtCentre(env, i + 1, 0, stack);
      } else {
        BracketsPlain([], stack);
        assert stack + AllHooks(env, i, j) == stack;
      }
    }
  }

  // ---------- all or nothing ----------

  /** Hooks that never hide an error and never return without calling on. */
  ghost predicate Transparent(h: Hook) {
    (forall m :: !h.enter(m).Skip?) && (forall e :: h.leave(Some(e)).Some?)
  }

  /** Hooks that moreover never fail once the call below succeeded. */
  ghost predicate Faithful(h: Hook) {
    Transparent(h) && h.leave(None).None?
  }

  ghost predicate AllTransparent(env: Env) {
    forall i, j | 0 <= i < |env.slots| && 0 <= j < |env.slots[i].hooks| :: Transparent(env.slots[i].hooks[j])
  }

  ghost predicate AllFaithful(env: Env) {
    forall i, j | 0 <= i < |env.slots| && 0 <= j < |env.slots[i].hooks| :: Faithful(env.slots[i].hooks[j])
  }

  predicate NoneMarked(marks: seq<bool>) {
    forall k | 0 <= k < |marks| :: !marks[k]
  }

  predicate AllMarked(marks: seq<bool>) {
    forall k | 0 <= k < |marks| :: marks[k]
  }

  /** With transparent hooks, unless the batch is stored the save fails and marks nothing. */
  lemma {:induction false} NothingOnFailure(env: Env, p: Point)
    requires At(env, p) && AllTransparent(env) && Mutate(env, p).ids.None?
    ensures Mutate(env, p).error.Some? && NoneMarked(Mutate(env, p).marks)
    decreases |env.slots| - p.i, |env.slots[p.i].hooks| - p.j
  {
    hide Check, SpecOf;
    if p.j < |env.slots[p.i].hooks| {
      var hook := env.slots[p.i].hooks[p.j];
      var entry := hook.enter(p.passed);
      assert Transparent(hook);
      if entry.Edit? || entry.Swap? { NothingOnFailure(env, Through(p, entry)); }
    } else if Check(p.own).None? && p.i + 1 < |env.slots| {
      NothingOnFailure(env, Onward(env, p));
    }
  }

  /** With faithful hooks, a stored batch means success and every builder marked. */
  lemma {:induction false} EverythingOnSuccess(env: Env, p: Point)
    requires At(env, p) && AllFaithful(env) && Mutate(env, p).ids.Some?
    ensures Mutate(env, p).error.None? && AllMarked(Mutate(env, p).marks)
    decreases |env.slots| - p.i, |env.slots[p.i].hooks| - p.j
  {
    hide Check, SpecOf;
    if p.j < |env.slots[p.i].hooks| {
      var hook := env.slots[p.i].hooks[p.j];
      var entry := hook.enter(p.passed);
      assert Faithful(hook);
      EverythingOnSuccess(env, Through(p, entry));
    } else if p.i + 1 < |env.slots| {
      EverythingOnSuccess(env, Onward(env, p));
    }
  }

  lemma FaithfulIsTransparent(env: Env)
    requires AllFaithful(env)
    ensures AllTransparent(env)
  {
    forall i, j | 0 <= i < |env.slots| && 0 <= j < |env.slots[i].hooks|
      ensures Transparent(env.slots[i].hooks[j])
    {
      assert Faithful(env.slots[i].hooks[j]);
    }
  }

  /** With faithful hooks the save succeeds exactly when all builders are ready and the one batch is stored. */
  lemma SucceedsExactly(env: Env)
    requires env.slots != [] && AllFaithful(env)
    ensures Mutate(env, Start(env)).error.None? <==>
            AllReady(env.slots, 0) && env.backend(SpecsFrom(env.json, env.slots, 0)).Stored?
  {
    FaithfulIsTransparent(env);
    OneBatchOrNone(env);
    StoredExact(env, Start(env));
    if Mutate(env, Start(env)).ids.Some? {
      EverythingOnSuccess(env, Start(env));
    } else {
      NothingOnFailure(env, Start(env));
    }
  }

  /** All or nothing: with faithful hooks a save that succeeds marks every builder, and one that fails marks none. */
  lemma AllOrNothing(env: Env)
    requires env.slots != [] && AllFaithful(env)
    ensures var out := Mutate(env, Start(env));
            if out.error.None? then AllMarked(out.marks) else NoneMarked(out.marks)
  {
    FaithfulIsTransparent(env);
    if Mutate(env, Start(env)).ids.Some? {
      EverythingOnSuccess(env, Start(env));
    } else {
      NothingOnFailure(env, Start(env));
    }
  }

  /** The ids are those the store returned for the batch. */
  lemma {:induction false} StoredExact(env: Env, p: Point)
    requires At(env, p)
    ensures var out := Mutate(env, p);
            out.ids == if out.sent.Some? && env.backend(out.sent.value).Stored?
                       then Some(env.backend(out.sent.value).ids) else None
    decreases |env.slots| - p.i, |env.slots[p.i].hooks| - p.j
  {
    hide Check, SpecOf;
    if p.j < |env.slots[p.i].hooks| {
      var entry := env.slots[p.i].hooks[p.j].enter(p.passed);
      if entry.Edit? || entry.Swap? { StoredExact(env, Through(p, entry)); }
    } else if Check(p.own).None? && p.i + 1 < |env.slots| {
      StoredExact(env, Onward(env, p));
    }
  }
}
