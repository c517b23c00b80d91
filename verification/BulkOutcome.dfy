/**
 Two promises a bulk save does not keep for every hook: that success means the
 rows are stored, and that what is inserted was checked. Exactly when it keeps them.
 */
module BulkOutcome {
  import opened Base
  import opened FileCodec
  import opened BulkSpec

  // ---------- where the calls turn back ----------

  /** The first hook that returns without calling on, if there is one. */
  function StopOf(hooks: seq<Hook>, j: nat, passed: Mutation): (stop: Option<Entry>)
    requires j <= |hooks|
    ensures stop.Some? ==> stop.value.Refuse? || stop.value.Skip?
    decreases |hooks| - j
  {
    if j == |hooks| then None
    else
      var entry := hooks[j].enter(passed);
      match entry
      case Refuse(_) => Some(entry)
      case Skip => Some(entry)
      case Edit(next) => StopOf(hooks, j + 1, next)
      case Swap(next) => StopOf(hooks, j + 1, next)
  }

  lemma {:induction false} StopExact(hooks: seq<Hook>, j: nat, passed: Mutation, own: Mutation, same: bool)
    requires j <= |hooks|
    ensures Arrival(hooks, j, passed, own, same).None? <==> StopOf(hooks, j, passed).Some?
    decreases |hooks| - j
  {
    if j < |hooks| {
      match hooks[j].enter(passed)
      case Refuse(_) =>
      case Skip =>
      case Edit(next) => StopExact(hooks, j + 1, next, if same then next else own, same);
      case Swap(next) => StopExact(hooks, j + 1, next, own, false);
    }
  }

  predicate SkipsAt(s: Slot) {
    StopOf(s.hooks, 0, s.mutation) == Some(Skip)
  }

  /** The first builder from i on that is not ready. */
  function Turn(slots: seq<Slot>, i: nat): (u: nat)
    requires i <= |slots|
    ensures i <= u <= |slots|
    ensures forall k | i <= k < u :: Ready(slots[k])
    ensures u < |slots| ==> !Ready(slots[u])
    decreases |slots| - i
  {
    if i == |slots| || !Ready(slots[i]) then i else Turn(slots, i + 1)
  }

  /** The error a builder that is not ready turns the call back with; a skipping hook returns none. */
  function Halt(s: Slot): Option<Error> {
    match StopOf(s.hooks, 0, s.mutation)
    case Some(Refuse(e)) => Some(e)
    case Some(_) => None
    case None =>
      var arrival := SlotArrival(s);
      if arrival.Some? && Check(arrival.value.own).Some? then Some(Rejected(Check(arrival.value.own).value)) else None
  }

  /** The error at the innermost point of a save. */
  function Innermost(env: Env): Option<Error> {
    var u := Turn(env.slots, 0);
    if u < |env.slots| then Halt(env.slots[u])
    else
      assert AllReady(env.slots, 0);
      match env.backend(SpecsFrom(env.json, env.slots, 0))
      case Stored(_) => None
      case Refused(e) => Some(e)
  }

  /** Hooks that neither hide an error nor make one up. */
  ghost predicate PassesThrough(h: Hook) {
    h.leave(None).None? && forall e :: h.leave(Some(e)).Some?
  }

  ghost predicate AllPassThrough(env: Env) {
    forall i, j | 0 <= i < |env.slots| && 0 <= j < |env.slots[i].hooks| :: PassesThrough(env.slots[i].hooks[j])
  }

  // ---------- the error of any save ----------

  /** The index of that hook, or the number of hooks. */
  function StopAt(hooks: seq<Hook>, j: nat, passed: Mutation): (at: nat)
    requires j <= |hooks|
    ensures j <= at <= |hooks|
    decreases |hooks| - j
  {
    if j == |hooks| then j
    else
      match hooks[j].enter(passed)
      case Refuse(_) => j
      case Skip => j
      case Edit(next) => StopAt(hooks, j + 1, next)
      case Swap(next) => StopAt(hooks, j + 1, next)
  }

  /** The hooks still open when the calls turn back, from builder i on, outermost first. */
  function OpenAfter(slots: seq<Slot>, i: nat): seq<Hook>
    requires i <= |slots|
    decreases |slots| - i
  {
    if i == |slots| then []
    else
      var s := slots[i];
      s.hooks[..StopAt(s.hooks, 0, s.mutation)] + if Ready(s) then OpenAfter(slots, i + 1) else []
  }

  /** What an error becomes on its way out through these hooks. */
  function Unwind(hooks: seq<Hook>, error: Option<Error>): Option<Error> {
    if hooks == [] then error else hooks[0].leave(Unwind(hooks[1..], error))
  }

  predicate SelfReady(env: Env, p: Point)
    requires At(env, p)
  {
    PointArrival(env, p).Some? && Check(PointArrival(env, p).value.own).None?
  }

  function PointHalt(env: Env, p: Point): Option<Error>
    requires At(env, p)
  {
    match StopOf(env.slots[p.i].hooks, p.j, p.passed)
    case Some(Refuse(e)) => Some(e)
    case Some(_) => None
    case None =>
      var arrival := PointArrival(env, p);
      if arrival.Some? && Check(arrival.value.own).Some? then Some(Rejected(Check(arrival.value.own).value)) else None
  }

  /** The same three from the middle of builder i's hooks. */
  function InnermostFrom(env: Env, p: Point): Option<Error>
    requires At(env, p)
  {
    if !SelfReady(env, p) then PointHalt(env, p)
    else
      var u := Turn(env.slots, p.i + 1);
      if u < |env.slots| then Halt(env.slots[u])
      else
        match env.backend(PointSpecs(env, p))
        case Stored(_) => None
        case Refused(e) => Some(e)
  }

  function OpenFrom(env: Env, p: Point): seq<Hook>
    requires At(env, p)
  {
    var hooks := env.slots[p.i].hooks;
    hooks[p.j..StopAt(hooks, p.j, p.passed)] + if SelfReady(env, p) then OpenAfter(env.slots, p.i + 1) else []
  }

  lemma ThroughSame(env: Env, p: Point)
    requires At(env, p) && p.j < |env.slots[p.i].hooks|
    ensures var hook := env.slots[p.i].hooks[p.j];
            var entry := hook.enter(p.passed);
            entry.Edit? || entry.Swap? ==>
              var next := Through(p, entry);
              && PointArrival(env, next) == PointArrival(env, p)
              && InnermostFrom(env, next) == InnermostFrom(env, p)
              && OpenFrom(env, p) == [hook] + OpenFrom(env, next)
  {
    hide Check, SpecOf, Turn, OpenAfter;
    var hooks := env.slots[p.i].hooks;
    var at := StopAt(hooks, p.j, p.passed);
    if p.j < at { assert hooks[p.j..at] == [hooks[p.j]] + hooks[p.j + 1..at]; }
  }

  lemma OnwardSame(env: Env, p: Point)
    requires At(env, p) && p.j == |env.slots[p.i].hooks| && Check(p.own).None? && p.i + 1 < |env.slots|
    ensures InnermostFrom(env, Onward(env, p)) == InnermostFrom(env, p)
    ensures OpenFrom(env, Onward(env, p)) == OpenFrom(env, p)
    ensures SelfReady(env, Onward(env, p)) <==> Ready(env.slots[p.i + 1])
  {
    hide Check, SpecOf;
    ReadyNext(env, p);
    var next := Onward(env, p);
    assert OpenAfter(env.slots, p.i + 1) == OpenFrom(env, next);
    if AllReady(env.slots, p.i + 1) {
      assert PointSpecs(env, next) == PointSpecs(env, p);
    }
  }

  /** Whatever the hooks do, the error of a save is the innermost one, led out through the open hooks. */
  lemma {:induction false} ErrorExact(env: Env, p: Point)
    requires At(env, p)
    ensures Mutate(env, p).error == Unwind(OpenFrom(env, p), InnermostFrom(env, p))
    decreases |env.slots| - p.i, |env.slots[p.i].hooks| - p.j
  {
    hide Check, SpecOf, InnermostFrom, OpenFrom;
    if p.j < |env.slots[p.i].hooks| {
      ThroughSame(env, p);
      var entry := env.slots[p.i].hooks[p.j].enter(p.passed);
      if entry.Edit? || entry.Swap? {
        ErrorExact(env, Through(p, entry));
        assert OpenFrom(env, p)[1..] == OpenFrom(env, Through(p, entry));
      } else {
        StoppedHere(env, p);
      }
    } else if Check(p.own).None? && p.i + 1 < |env.slots| {
      OnwardSame(env, p);
      ErrorExact(env, Onward(env, p));
    } else {
      EndsHere(env, p);
    }
  }

  lemma StoppedHere(env: Env, p: Point)
    requires At(env, p) && p.j < |env.slots[p.i].hooks|
    ensures var entry := env.slots[p.i].hooks[p.j].enter(p.passed);
            entry.Refuse? || entry.Skip? ==>
              OpenFrom(env, p) == [] && InnermostFrom(env, p) == if entry.Refuse? then Some(entry.error) else None
  {
    hide Check, SpecOf;
  }

  lemma EndsHere(env: Env, p: Point)
    requires At(env, p) && p.j == |env.slots[p.i].hooks|
    ensures Check(p.own).Some? ==> OpenFrom(env, p) == [] && InnermostFrom(env, p) == Some(Rejected(Check(p.own).value))
    ensures Check(p.own).None? && p.i + 1 == |env.slots| ==>
              OpenFrom(env, p) == [] && InnermostFrom(env, p) == Below(env, p).error
  {
    hide Check, SpecOf;
    if Check(p.own).None? && p.i + 1 == |env.slots| {
      assert AllReady(env.slots, p.i + 1);
      assert SpecsFrom(env.json, env.slots, p.i + 1) == [];
      assert PointSpecs(env, p) == p.built + [SpecOf(env.json, p.passed)];
    }
  }

  // ---------- success and storage ----------

  predicate AllReadyAndStored(env: Env) {
    AllReady(env.slots, 0) && env.backend(SpecsFrom(env.json, env.slots, 0)).Stored?
  }

  /** The first builder that is not ready is stopped by a hook that skips. */
  predicate SkipsFirst(slots: seq<Slot>) {
    var u := Turn(slots, 0);
    u < |slots| && SkipsAt(slots[u])
  }

  lemma InnermostNone(env: Env)
    requires env.slots != []
    ensures InnermostFrom(env, Start(env)) == Innermost(env)
    ensures Innermost(env).None? <==> AllReadyAndStored(env) || SkipsFirst(env.slots)
  {
    hide Check, SpecOf;
    var p, u := Start(env), Turn(env.slots, 0);
    var s := env.slots[0];
    assert SelfReady(env, p) <==> Ready(s);
    if Ready(s) {
      assert Turn(env.slots, 1) == u;
      if u == |env.slots| {
        assert AllReady(env.slots, 0) && AllReady(env.slots, 1);
        assert PointSpecs(env, p) == SpecsFrom(env.json, env.slots, 0);
      }
    }
    if u < |env.slots| {
      assert !AllReady(env.slots, 0);
      StopExact(env.slots[u].hooks, 0, env.slots[u].mutation, env.slots[u].mutation, true);
    } else {
      assert AllReady(env.slots, 0);
    }
  }

  ghost predicate PassThroughAll(hooks: seq<Hook>) {
    forall j | 0 <= j < |hooks| :: PassesThrough(hooks[j])
  }

  lemma {:induction false} UnwindPasses(hooks: seq<Hook>, error: Option<Error>)
    requires PassThroughAll(hooks)
    ensures Unwind(hooks, error).None? <==> error.None?
  {
    if hooks != [] {
      UnwindPasses(hooks[1..], error);
      assert PassesThrough(hooks[0]);
      if Unwind(hooks[1..], error).Some? { assert Unwind(hooks[1..], error) == Some(Unwind(hooks[1..], error).value); }
    }
  }

  lemma {:induction false} OpenPass(env: Env, i: nat)
    requires AllPassThrough(env) && i <= |env.slots|
    ensures PassThroughAll(OpenAfter(env.slots, i))
    decreases |env.slots| - i
  {
    hide Check, StopAt, Ready;
    if i < |env.slots| {
      OpenPass(env, i + 1);
      var s := env.slots[i];
      var here := s.hooks[..StopAt(s.hooks, 0, s.mutation)];
      forall j | 0 <= j < |here| ensures PassesThrough(here[j]) { assert here[j] == s.hooks[j]; }
      PassBoth(here, if Ready(s) then OpenAfter(env.slots, i + 1) else []);
    }
  }

  lemma FromPass(env: Env, p: Point)
    requires AllPassThrough(env) && At(env, p)
    ensures PassThroughAll(OpenFrom(env, p))
  {
    hide Check, SpecOf, OpenAfter, StopAt, SelfReady;
    OpenPass(env, p.i + 1);
    var hooks := env.slots[p.i].hooks;
    var here := hooks[p.j..StopAt(hooks, p.j, p.passed)];
    forall j | 0 <= j < |here| ensures PassesThrough(here[j]) { assert here[j] == hooks[p.j + j]; }
    PassBoth(here, OpenAfter(env.slots, p.i + 1));
  }

  lemma PassBoth(a: seq<Hook>, b: seq<Hook>)
    requires PassThroughAll(a) && PassThroughAll(b)
    ensures PassThroughAll(a + b)
  {
  }

  /**
   With hooks that pass results through, though they may refuse or skip, a save
   succeeds exactly when all builders are ready and the batch is stored, or the first
   builder that is not ready is skipped.
   */
  lemma SuccessExact(env: Env)
    requires env.slots != [] && AllPassThrough(env)
    ensures Mutate(env, Start(env)).error.None? <==> AllReadyAndStored(env) || SkipsFirst(env.slots)
  {
    hide Check, SpecOf, Mutate;
    ErrorExact(env, Start(env));
    FromPass(env, Start(env));
    UnwindPasses(OpenFrom(env, Start(env)), InnermostFrom(env, Start(env)));
    InnermostNone(env);
  }

  /** So success means that the rows are stored exactly when the first builder that is not ready is not skipped. */
  lemma SuccessMeansStored(env: Env)
    requires env.slots != [] && AllPassThrough(env)
    ensures (Mutate(env, Start(env)).error.None? ==> Mutate(env, Start(env)).ids.Some?) <==> !SkipsFirst(env.slots)
  {
    hide Check, SpecOf, Mutate;
    SuccessExact(env);
    OneBatchOrNone(env);
    StoredExact(env, Start(env));
    if SkipsFirst(env.slots) { assert !Ready(env.slots[Turn(env.slots, 0)]) && !AllReady(env.slots, 0); }
  }

  /** Success without a stored batch, for any hooks at all: what the open hooks make of the innermost error. */
  lemma UnstoredSuccess(env: Env)
    requires env.slots != []
    ensures Mutate(env, Start(env)).error.None? && Mutate(env, Start(env)).ids.None? <==>
            !AllReadyAndStored(env) && Unwind(OpenAfter(env.slots, 0), Innermost(env)).None?
  {
    hide Check, SpecOf, Mutate;
    var p := Start(env);
    ErrorExact(env, p);
    InnermostNone(env);
    OneBatchOrNone(env);
    StoredExact(env, p);
    StartOpen(env);
  }

  lemma StartOpen(env: Env)
    requires env.slots != []
    ensures OpenFrom(env, Start(env)) == OpenAfter(env.slots, 0)
  {
    hide Check, SpecOf;
  }

  // ---------- marks ----------

  /**
   Builder k is marked exactly when the calls reach past it and what comes back to it, the
   innermost error led out through the hooks that are open below it, is no error.
   */
  predicate MarksAt(env: Env, p: Point, k: nat)
    requires At(env, p) && p.i <= k < |env.slots|
  {
    && SelfReady(env, p) && (k == p.i || k < Turn(env.slots, p.i + 1))
    && Unwind(OpenAfter(env.slots, k + 1), InnermostFrom(env, p)).None?
  }

  lemma {:induction false} MarkExact(env: Env, p: Point, k: nat)
    requires At(env, p) && p.i <= k < |env.slots|
    ensures Mutate(env, p).marks[k - p.i] <==> MarksAt(env, p, k)
    decreases |env.slots| - p.i, |env.slots[p.i].hooks| - p.j
  {
    hide Check, SpecOf, InnermostFrom, OpenAfter, Unwind, Turn;
    if p.j < |env.slots[p.i].hooks| {
      hide Mutate, MarksAt;
      HookMark(env, p, k);
      var entry := env.slots[p.i].hooks[p.j].enter(p.passed);
      if entry.Edit? || entry.Swap? { MarkExact(env, Through(p, entry), k); }
    } else if Check(p.own).None? {
      ClosureMark(env, p);
      if p.i < k {
        OnwardSame(env, p);
        MarkExact(env, Onward(env, p), k);
        TurnNext(env.slots, p.i + 1);
      }
    }
  }

  lemma HookMark(env: Env, p: Point, k: nat)
    requires At(env, p) && p.i <= k < |env.slots| && p.j < |env.slots[p.i].hooks|
    ensures var entry := env.slots[p.i].hooks[p.j].enter(p.passed);
            if entry.Edit? || entry.Swap? then
              && Mutate(env, p).marks == Mutate(env, Through(p, entry)).marks
              && MarksAt(env, p, k) == MarksAt(env, Through(p, entry), k)
            else !Mutate(env, p).marks[k - p.i] && !MarksAt(env, p, k)
  {
    hide Check, SpecOf, InnermostFrom, OpenAfter, Unwind, Turn;
    ThroughSame(env, p);
  }

  lemma TurnNext(slots: seq<Slot>, i: nat)
    requires i < |slots|
    ensures Turn(slots, i) == if Ready(slots[i]) then Turn(slots, i + 1) else i
  {
  }

  /** A closure marks its builder when the call below returns without an error. */
  lemma ClosureMark(env: Env, p: Point)
    requires At(env, p) && p.j == |env.slots[p.i].hooks| && Check(p.own).None?
    ensures SelfReady(env, p) && Mutate(env, p).marks == [Below(env, p).error.None?] + Below(env, p).marks
    ensures Below(env, p).error == Unwind(OpenAfter(env.slots, p.i + 1), InnermostFrom(env, p))
  {
    hide SpecOf, InnermostFrom, OpenAfter;
    ErrorExact(env, p);
    var hooks := env.slots[p.i].hooks;
    assert hooks[p.j..StopAt(hooks, p.j, p.passed)] == [];
    assert OpenFrom(env, p) == OpenAfter(env.slots, p.i + 1);
  }

  /** What comes back to builder k is no error. */
  predicate ClearAt(env: Env, k: nat)
    requires k < |env.slots|
  {
    Unwind(OpenAfter(env.slots, k + 1), Innermost(env)).None?
  }

  /** For a whole save and any hooks: which builders are marked. */
  lemma SaveMarks(env: Env, k: nat)
    requires k < |env.slots|
    ensures Mutate(env, Start(env)).marks[k] <==> k < Turn(env.slots, 0) && ClearAt(env, k)
  {
    hide Check, SpecOf, Mutate, OpenAfter, Unwind, Innermost;
    var p := Start(env);
    MarkExact(env, p, k);
    InnermostNone(env);
    TurnNext(env.slots, 0);
    assert SelfReady(env, p) <==> Ready(env.slots[0]);
  }

  /** Marks and result agree: all builders on success, none on failure. */
  predicate AllOrNone(env: Env)
    requires env.slots != []
  {
    var out := Mutate(env, Start(env));
    if out.error.None? then AllMarked(out.marks) else NoneMarked(out.marks)
  }

  /**
   For any hooks, marking is all or nothing exactly when, on success, every builder was ready and
   no hook made up an error on the way out, and, on failure, no hook hid the error from a builder.
   */
  lemma AllOrNoneExact(env: Env)
    requires env.slots != []
    ensures AllOrNone(env) <==>
            var u := Turn(env.slots, 0);
            if Unwind(OpenAfter(env.slots, 0), Innermost(env)).None?
            then u == |env.slots| && forall k | 0 <= k < |env.slots| :: ClearAt(env, k)
            else forall k | 0 <= k < u :: !ClearAt(env, k)
  {
    hide Check, SpecOf, Mutate, OpenAfter, Unwind, Innermost, Turn, ClearAt;
    SaveError(env);
    var marks, u := Mutate(env, Start(env)).marks, Turn(env.slots, 0);
    forall k | 0 <= k < |env.slots| ensures marks[k] <==> k < u && ClearAt(env, k) {
      SaveMarks(env, k);
    }
    if u < |env.slots| { assert !marks[u]; }
    if forall k | 0 <= k < |env.slots| :: marks[k] {
      forall k | 0 <= k < |env.slots| ensures ClearAt(env, k) { assert marks[k]; }
    }
    if forall k | 0 <= k < |env.slots| :: !marks[k] {
      forall k | 0 <= k < u ensures !ClearAt(env, k) { assert !marks[k]; }
    }
  }

  lemma SaveError(env: Env)
    requires env.slots != []
    ensures Mutate(env, Start(env)).error == Unwind(OpenAfter(env.slots, 0), Innermost(env))
  {
    hide Check, SpecOf, Mutate;
    ErrorExact(env, Start(env));
    InnermostNone(env);
    StartOpen(env);
  }

  /** A refused batch leaves builder k marked exactly when the hooks below it hide the refusal. */
  lemma RefusedMarks(env: Env, k: nat)
    requires k < |env.slots| && AllReady(env.slots, 0)
    requires env.backend(SpecsFrom(env.json, env.slots, 0)).Refused?
    ensures Mutate(env, Start(env)).marks[k] <==>
            Unwind(OpenAfter(env.slots, k + 1),
                   Some(env.backend(SpecsFrom(env.json, env.slots, 0)).error)).None?
  {
    hide Check, SpecOf, Mutate, OpenAfter, Unwind;
    SaveMarks(env, k);
  }

  predicate MarkedUpTo(marks: seq<bool>, n: int) {
    forall k | 0 <= k < |marks| :: marks[k] <==> k < n
  }

  /**
   With hooks that pass results through, a save that succeeds marks the builders before the
   one that is skipped, all of them if none is, and a save that fails marks none.
   */
  lemma MarksExact(env: Env)
    requires env.slots != [] && AllPassThrough(env)
    ensures var out := Mutate(env, Start(env));
            MarkedUpTo(out.marks, if out.error.None? then Turn(env.slots, 0) else 0)
  {
    hide Check, SpecOf, Mutate, OpenAfter, Unwind, Innermost, Turn, ClearAt, PassesThrough;
    SaveError(env);
    OpenPass(env, 0);
    UnwindPasses(OpenAfter(env.slots, 0), Innermost(env));
    var out := Mutate(env, Start(env));
    forall k | 0 <= k < |env.slots|
      ensures out.marks[k] <==> k < if out.error.None? then Turn(env.slots, 0) else 0
    {
      SaveMarks(env, k);
      ClearPasses(env, k);
    }
  }

  lemma ClearPasses(env: Env, k: nat)
    requires k < |env.slots| && AllPassThrough(env)
    ensures ClearAt(env, k) <==> Innermost(env).None?
  {
    hide Check, SpecOf, OpenAfter, Unwind, Innermost;
    OpenPass(env, k + 1);
    UnwindPasses(OpenAfter(env.slots, k + 1), Innermost(env));
  }

  // ---------- what was checked ----------

  /** A hook on the path of this call passes on another object. */
  function Swaps(hooks: seq<Hook>, j: nat, passed: Mutation): bool
    requires j <= |hooks|
    decreases |hooks| - j
  {
    j < |hooks| &&
    match hooks[j].enter(passed)
    case Refuse(_) => false
    case Skip => false
    case Edit(next) => Swaps(hooks, j + 1, next)
    case Swap(_) => true
  }

  /** What the hooks from j on make of a mutation, if they let it through. */
  function Edited(hooks: seq<Hook>, j: nat, passed: Mutation): Option<Mutation>
    requires j <= |hooks|
    decreases |hooks| - j
  {
    if j == |hooks| then Some(passed)
    else
      match hooks[j].enter(passed)
      case Refuse(_) => None
      case Skip => None
      case Edit(next) => Edited(hooks, j + 1, next)
      case Swap(next) => Edited(hooks, j + 1, next)
  }

  /** The other object, after the hooks that follow the first swap; None when no hook on the path swaps. */
  function Replacement(hooks: seq<Hook>, j: nat, passed: Mutation): Option<Mutation>
    requires j <= |hooks|
    decreases |hooks| - j
  {
    if j == |hooks| then None
    else
      match hooks[j].enter(passed)
      case Refuse(_) => None
      case Skip => None
      case Edit(next) => Replacement(hooks, j + 1, next)
      case Swap(next) => Edited(hooks, j + 1, next)
  }

  /** The mutation that is inserted is the object that is checked exactly when no hook on the path swaps. */
  lemma {:induction false} SameObjectExact(hooks: seq<Hook>, j: nat, passed: Mutation, own: Mutation, same: bool)
    requires j <= |hooks| && Arrival(hooks, j, passed, own, same).Some? && (same ==> passed == own)
    ensures var r := Arrival(hooks, j, passed, own, same).value;
            && (r.same <==> same && !Swaps(hooks, j, passed))
            && (r.same ==> r.passed == r.own)
            && Edited(hooks, j, passed) == Some(r.passed)
            && (Swaps(hooks, j, passed) ==> Replacement(hooks, j, passed) == Some(r.passed))
            && (!Swaps(hooks, j, passed) ==> Replacement(hooks, j, passed).None?)
    decreases |hooks| - j
  {
    if j < |hooks| {
      match hooks[j].enter(passed)
      case Edit(next) => SameObjectExact(hooks, j + 1, next, if same then next else own, same);
      case Swap(next) => SameObjectExact(hooks, j + 1, next, own, false);
    }
  }

  lemma {:induction false} SpecAt(json: Json, slots: seq<Slot>, i: nat, k: nat)
    requires i <= k < |slots| && AllReady(slots, i)
    ensures SpecsFrom(json, slots, i)[k - i] == SpecOf(json, Passed(slots[k]))
    decreases k - i
  {
    hide Check, SpecOf;
    if i < k { SpecAt(json, slots, i + 1, k); }
  }

  predicate Replaces(s: Slot) {
    Replacement(s.hooks, 0, s.mutation).Some?
  }

  /**
   Entry k of an issued batch: it is built from the mutation that arrived, and the
   builder's own passed the check. The two are one object exactly when no hook on
   the path swaps, and the entry fails the check exactly when what a hook put in
   its place does.
   */
  lemma EntryExact(env: Env, k: nat)
    requires env.slots != [] && Mutate(env, Start(env)).sent.Some? && k < |env.slots|
    ensures AllReady(env.slots, 0) && |Mutate(env, Start(env)).sent.value| == |env.slots|
    ensures var s := env.slots[k];
            var r := SlotArrival(s).value;
            && Mutate(env, Start(env)).sent.value[k] == SpecOf(env.json, r.passed)
            && Check(r.own).None?
            && (r.same <==> !Swaps(s.hooks, 0, s.mutation))
            && (Check(r.passed).Some? <==> Replaces(s) && Check(Replacement(s.hooks, 0, s.mutation).value).Some?)
  {
    hide Check, SpecOf, Mutate;
    OneBatchOrNone(env);
    var s := env.slots[k];
    assert Ready(s);
    SpecAt(env.json, env.slots, 0, k);
    SameObjectExact(s.hooks, 0, s.mutation, s.mutation, true);
  }

  /** An issued batch holds checked mutations alone exactly when every replacement would pass the check. */
  lemma BatchChecked(env: Env)
    requires env.slots != [] && Mutate(env, Start(env)).sent.Some?
    ensures AllReady(env.slots, 0)
    ensures (forall k | 0 <= k < |env.slots| :: Check(Passed(env.slots[k])).None?) <==>
            forall k | 0 <= k < |env.slots| && Replaces(env.slots[k]) ::
              Check(Replacement(env.slots[k].hooks, 0, env.slots[k].mutation).value).None?
  {
    hide Check, SpecOf, Mutate;
    OneBatchOrNone(env);
    forall k | 0 <= k < |env.slots|
      ensures Check(Passed(env.slots[k])).Some? <==>
              Replaces(env.slots[k]) &&
              Check(Replacement(env.slots[k].hooks, 0, env.slots[k].mutation).value).Some?
    {
      EntryExact(env, k);
    }
  }

  // ---------- the smallest examples ----------

  const SKIPPING := Hook(_ => Skip, e => e)

  /** A hook that returns without calling on: the save reports success, marks builder 0, and inserts nothing. */
  lemma SkippedSaveSucceeds(env: Env, good: Mutation)
    requires Check(good).None? && env.slots == [Slot(good, []), Slot(good, [SKIPPING])]
    ensures var out := Mutate(env, Start(env));
            out.error.None? && out.sent.None? && out.marks == [true, false]
  {
    var p := Start(env);
    var q := Onward(env, p);
    assert Mutate(env, q) == Report(None, [Enter(1, 0), Leave(1, 0)], NoMarks(1), NothingMade(1), None, None);
    assert Below(env, p) == Mutate(env, q);
  }

  const HIDING := Hook(m => Edit(m), _ => None)

  /** A hook that hides an error: the batch is refused, and the save succeeds with builder 0 marked. */
  lemma HiddenRefusal(env: Env, good: Mutation, why: Error)
    requires Check(good).None? && env.slots == [Slot(good, []), Slot(good, [HIDING])]
    requires forall specs :: env.backend(specs) == Refused(why)
    ensures var out := Mutate(env, Start(env));
            out.sent.Some? && out.ids.None? && out.error.None? && out.marks == [true, false]
  {
    hide Check, SpecOf;
    var p := Start(env);
    var q := Onward(env, p);
    var r := Through(q, Edit(good));
    assert Below(env, r).error == Some(why) && Below(env, r).marks == [];
    assert Mutate(env, r).marks == [false] && Mutate(env, r).error == Some(why);
    assert Mutate(env, q).error == None && Mutate(env, q).marks == [false];
    assert Below(env, p) == Mutate(env, q);
  }

  /** A hook that makes up an error: the batch is stored, and the save fails with the builder marked. */
  lemma MadeUpFailure(env: Env, good: Mutation, why: Error)
    requires Check(good).None? && env.slots == [Slot(good, [Hook(m => Edit(m), _ => Some(why))])]
    requires forall specs :: env.backend(specs).Stored?
    ensures var out := Mutate(env, Start(env));
            out.ids.Some? && out.error == Some(why) && out.marks == [true]
  {
    hide Check, SpecOf;
    var p := Start(env);
    var r := Through(p, Edit(good));
    assert Below(env, r).error.None? && Below(env, r).marks == [];
    assert Mutate(env, r).marks == [true] && Mutate(env, r).ids.Some?;
  }

  /** A hook that passes on another mutation gets it inserted without a check. */
  lemma SwappedIsUnchecked(env: Env, good: Mutation, bad: Mutation)
    requires Check(good).None? && Check(bad).Some?
    requires env.slots == [Slot(good, [Hook(_ => Swap(bad), e => e)])]
    ensures Mutate(env, Start(env)).sent == Some([SpecOf(env.json, bad)])
  {
    var s := env.slots[0];
    assert Arrival(s.hooks, 1, bad, good, false) == Some(Reached(bad, good, false));
    assert SlotArrival(s) == Some(Reached(bad, good, false));
    assert forall k | 0 <= k < 1 :: Ready(env.slots[k]);
    OneBatchOrNone(env);
    assert SpecsFrom(env.json, env.slots, 1) == [];
    assert SpecsFrom(env.json, env.slots, 0) == [SpecOf(env.json, Passed(s))];
  }
}
