/**
 Which mutations a bulk save accepts, what it says of the others, and what it
 stores for the fields a caller leaves unset, for builders without hooks.
 */
module BulkReady {
  import opened Base
  import opened FileCodec
  import opened FileRows
  import opened BulkSpec
  import opened BulkOutcome

  // ---------- the check ----------

  /** The requirements in the order in which they are tested. */
  const REQUIREMENTS := [
    MissingField(CreateTime), MissingField(UpdateTime), MissingField(SourcePath), RejectedField(SourcePath),
    MissingField(Size), MissingField(Classification), RejectedField(Classification), MissingField(Decision),
    RejectedField(Decision), MissingField(Outcome), RejectedField(Outcome), MissingScan]

  predicate Classified(s: string) {
    s == "confirmed" || s == "ambiguous" || s == "unmatched" || s == "existing"
  }

  predicate Decided(s: string) {
    s == "pending" || s == "accept" || s == "skip"
  }

  predicate Concluded(s: string) {
    s == "pending" || s == "created" || s == "attached" || s == "skipped" || s == "failed"
  }

  /** The mutation does not meet this requirement. */
  predicate Violates(m: Mutation, e: CheckError) {
    match e
    case MissingScan => m.scan.None?
    case MissingField(c) => !Sets(m, c)
    case RejectedField(SourcePath) => m.sourcePath == Some("")
    case RejectedField(Classification) => m.classification.Some? && !Classified(m.classification.value)
    case RejectedField(Decision) => m.decision.Some? && !Decided(m.decision.value)
    case RejectedField(Outcome) => m.outcome.Some? && !Concluded(m.outcome.value)
    case RejectedField(_) => false
  }

  /** The first requirement the mutation does not meet. */
  predicate FirstViolated(m: Mutation, i: nat) {
    && i < |REQUIREMENTS| && Violates(m, REQUIREMENTS[i])
    && forall j | 0 <= j < i :: !Violates(m, REQUIREMENTS[j])
  }

  predicate Flawless(m: Mutation) {
    forall i | 0 <= i < |REQUIREMENTS| :: !Violates(m, REQUIREMENTS[i])
  }

  lemma Listed()
    ensures REQUIREMENTS[0] == MissingField(CreateTime) && REQUIREMENTS[1] == MissingField(UpdateTime)
    ensures REQUIREMENTS[2] == MissingField(SourcePath) && REQUIREMENTS[3] == RejectedField(SourcePath)
    ensures REQUIREMENTS[4] == MissingField(Size) && REQUIREMENTS[5] == MissingField(Classification)
    ensures REQUIREMENTS[6] == RejectedField(Classification) && REQUIREMENTS[7] == MissingField(Decision)
    ensures REQUIREMENTS[8] == RejectedField(Decision) && REQUIREMENTS[9] == MissingField(Outcome)
    ensures REQUIREMENTS[10] == RejectedField(Outcome) && REQUIREMENTS[11] == MissingScan
    ensures |REQUIREMENTS| == 12
  {
  }

  /** A mutation passes exactly when it meets every requirement. */
  lemma CheckExact(m: Mutation)
    ensures Check(m).None? <==> Flawless(m)
  {
    Listed();
    if Check(m).Some? { assert exists i | 0 <= i < |REQUIREMENTS| :: Violates(m, REQUIREMENTS[i]); }
  }

  /** Otherwise it is refused for the first one it does not meet. */
  lemma CheckNames(m: Mutation, i: nat)
    requires FirstViolated(m, i)
    ensures Check(m) == Some(REQUIREMENTS[i])
  {
    Listed();
  }

  // ---------- what a caller has to set ----------

  predicate PathGiven(m: Mutation) {
    m.sourcePath.Some? && m.sourcePath.value != ""
  }

  /** Path, size and scan are set, and the three states are unset or among those listed. */
  predicate Acceptable(m: Mutation) {
    && PathGiven(m) && m.size.Some? && m.scan.Some?
    && (m.classification.Some? ==> Classified(m.classification.value))
    && (m.decision.Some? ==> Decided(m.decision.value))
    && (m.outcome.Some? ==> Concluded(m.outcome.value))
  }

  /** The first thing that is wrong with what the caller set. */
  predicate RefusedFor(m: Mutation, e: CheckError) {
    match e
    case MissingField(SourcePath) => m.sourcePath.None?
    case RejectedField(SourcePath) => m.sourcePath == Some("")
    case MissingField(Size) => PathGiven(m) && m.size.None?
    case RejectedField(Classification) =>
      PathGiven(m) && m.size.Some? && m.classification.Some? && !Classified(m.classification.value)
    case RejectedField(Decision) =>
      && PathGiven(m) && m.size.Some? && (m.classification.Some? ==> Classified(m.classification.value))
      && m.decision.Some? && !Decided(m.decision.value)
    case RejectedField(Outcome) =>
      && PathGiven(m) && m.size.Some? && (m.classification.Some? ==> Classified(m.classification.value))
      && (m.decision.Some? ==> Decided(m.decision.value))
      && m.outcome.Some? && !Concluded(m.outcome.value)
    case MissingScan => m.scan.None? && Acceptable(m.(scan := Some(0)))
    case _ => false
  }

  /** A builder without hooks is ready exactly when its caller set what is required. */
  lemma ReadyExact(m: Mutation, created: Time, updated: Time)
    ensures Ready(Slot(Defaults(m, created, updated), [])) <==> Acceptable(m)
  {
  }

  /** And it turns the save back for the first thing that is wrong. */
  lemma RefusedExact(m: Mutation, created: Time, updated: Time, e: CheckError)
    ensures Halt(Slot(Defaults(m, created, updated), [])) == Some(Rejected(e)) <==> RefusedFor(m, e)
  {
  }

  // ---------- what is stored for it ----------

  /** The caller's fields, where set; else the clock's instants, "unmatched", "pending" and "pending", or zero. */
  predicate Kept(m: Mutation, created: Time, updated: Time, f: File) {
    && f.createTime == GetOr(m.createTime, created)
    && f.updateTime == GetOr(m.updateTime, updated)
    && f.classification == GetOr(m.classification, "unmatched")
    && f.decision == GetOr(m.decision, "pending")
    && f.outcome == GetOr(m.outcome, "pending")
    && Given(m.(createTime := Some(f.createTime), updateTime := Some(f.updateTime),
                classification := Some(f.classification), decision := Some(f.decision), outcome := Some(f.outcome)), f)
  }

  lemma DefaultsKept(m: Mutation, created: Time, updated: Time, f: File)
    requires Given(Defaults(m, created, updated), f)
    ensures Kept(m, created, updated, f)
  {
  }

  type Clock = nat -> (Time, Time)

  /** Builders without hooks, one for each of these mutations, as a save finds them after `defaults`. */
  ghost predicate Unhooked(env: Env, ms: seq<Mutation>, clock: Clock) {
    && |env.slots| == |ms|
    && forall k | 0 <= k < |ms| :: env.slots[k] == Slot(Defaults(ms[k], clock(k).0, clock(k).1), [])
  }

  lemma SlotReady(env: Env, ms: seq<Mutation>, clock: Clock, k: nat)
    requires Unhooked(env, ms, clock) && k < |ms|
    ensures Ready(env.slots[k]) <==> Acceptable(ms[k])
  {
    ReadyExact(ms[k], clock(k).0, clock(k).1);
  }

  predicate AllAcceptable(ms: seq<Mutation>) {
    forall k | 0 <= k < |ms| :: Acceptable(ms[k])
  }

  lemma AllReadyExact(env: Env, ms: seq<Mutation>, clock: Clock)
    requires Unhooked(env, ms, clock)
    ensures AllReady(env.slots, 0) <==> AllAcceptable(ms)
  {
    hide Ready, Acceptable, Defaults;
    forall k | 0 <= k < |ms| ensures Ready(env.slots[k]) <==> Acceptable(ms[k]) { SlotReady(env, ms, clock, k); }
  }

  // ---------- the save ----------

  lemma {:induction false} NoneOpen(slots: seq<Slot>, i: nat)
    requires i <= |slots| && forall k | i <= k < |slots| :: slots[k].hooks == []
    ensures OpenAfter(slots, i) == []
    decreases |slots| - i
  {
    hide Ready;
    if i < |slots| { NoneOpen(slots, i + 1); }
  }

  lemma UnhookedError(env: Env, ms: seq<Mutation>, clock: Clock)
    requires Unhooked(env, ms, clock) && ms != []
    ensures Mutate(env, Start(env)).error == Innermost(env)
  {
    hide Check, SpecOf, Mutate, Innermost, Defaults;
    SaveError(env);
    NoneOpen(env.slots, 0);
  }

  lemma {:induction false} TurnIs(slots: seq<Slot>, i: nat, k: nat)
    requires i <= k < |slots| && !Ready(slots[k]) && forall j | i <= j < k :: Ready(slots[j])
    ensures Turn(slots, i) == k
    decreases k - i
  {
    hide Ready;
    if i < k { TurnIs(slots, i + 1, k); }
  }

  /**
   The first mutation that is not acceptable makes the whole save fail, for the first
   thing that is wrong with it: nothing is inserted, and nothing is marked.
   */
  lemma RefusedSave(env: Env, ms: seq<Mutation>, clock: Clock, k: nat, e: CheckError)
    requires Unhooked(env, ms, clock) && k < |ms|
    requires RefusedFor(ms[k], e) && forall j | 0 <= j < k :: Acceptable(ms[j])
    ensures var out := Mutate(env, Start(env));
            out.error == Some(Rejected(e)) && out.sent.None? && NoneMarked(out.marks)
  {
    hide Check, SpecOf, Mutate, Defaults, Ready, Acceptable, RefusedFor, Halt, OpenAfter;
    RefusedExact(ms[k], clock(k).0, clock(k).1, e);
    RefusedIsNot(ms[k], e);
    forall j | 0 <= j < |ms| ensures Ready(env.slots[j]) <==> Acceptable(ms[j]) { SlotReady(env, ms, clock, j); }
    TurnIs(env.slots, 0, k);
    UnhookedError(env, ms, clock);
    OneBatchOrNone(env);
    assert AllPassThrough(env);
    MarksExact(env);
  }

  lemma RefusedIsNot(m: Mutation, e: CheckError)
    requires RefusedFor(m, e)
    ensures !Acceptable(m)
  {
  }

  /** One of these things is wrong with every mutation that is not acceptable. */
  lemma SomethingWrong(m: Mutation) returns (e: CheckError)
    requires !Acceptable(m)
    ensures RefusedFor(m, e)
  {
    e := if m.sourcePath.None? then MissingField(SourcePath)
         else if m.sourcePath.value == "" then RejectedField(SourcePath)
         else if m.size.None? then MissingField(Size)
         else if m.classification.Some? && !Classified(m.classification.value) then RejectedField(Classification)
         else if m.decision.Some? && !Decided(m.decision.value) then RejectedField(Decision)
         else if m.outcome.Some? && !Concluded(m.outcome.value) then RejectedField(Outcome)
         else MissingScan;
  }

  /** A batch is issued exactly when all mutations are acceptable, and the save then ends as the batch does. */
  lemma AcceptedSave(env: Env, ms: seq<Mutation>, clock: Clock)
    requires Unhooked(env, ms, clock) && ms != []
    ensures var out := Mutate(env, Start(env));
            && (out.sent.Some? <==> AllAcceptable(ms))
            && (out.sent.Some? ==>
                  && |out.sent.value| == |ms|
                  && out.error == (match env.backend(out.sent.value)
                                   case Stored(_) => None
                                   case Refused(why) => Some(why)))
  {
    hide Check, SpecOf, Mutate, Defaults, Ready, Acceptable;
    AllReadyExact(env, ms, clock);
    OneBatchOrNone(env);
    UnhookedError(env, ms, clock);
  }

  /** Entry k of that batch, stored and read back, has what the caller set and the defaults for the rest. */
  lemma StoredAsGiven(env: Env, ms: seq<Mutation>, clock: Clock, k: nat, id: UInt32, columns: seq<Column>)
    requires Unhooked(env, ms, clock) && k < |ms| && AllAcceptable(ms) && InversePair(env.json)
    requires forall c: Column | !c.Other? :: c in columns
    ensures Mutate(env, Start(env)).sent.Some? && k < |Mutate(env, Start(env)).sent.value|
    ensures var row := RowOf(Mutate(env, Start(env)).sent.value[k], id);
            var (g, err) := Decode(env.json, ZeroOf(), columns, Scanned(row, columns));
            err.None? && g.id == id && Kept(ms[k], clock(k).0, clock(k).1, g)
  {
    hide Check, SpecOf, Mutate, Defaults, Acceptable, Decode, Given, Kept;
    AcceptedSave(env, ms, clock);
    AllReadyExact(env, ms, clock);
    OneBatchOrNone(env);
    SpecAt(env.json, env.slots, 0, k);
    var m := Defaults(ms[k], clock(k).0, clock(k).1);
    assert Passed(env.slots[k]) == m;
    SetAndRead(env.json, m, id, columns);
    var g := Decode(env.json, ZeroOf(), columns, Scanned(RowOf(SpecOf(env.json, m), id), columns)).0;
    DefaultsKept(ms[k], clock(k).0, clock(k).1, g);
  }

  lemma {:induction false} FirstBad(ms: seq<Mutation>) returns (k: nat)
    requires !AllAcceptable(ms)
    ensures k < |ms| && !Acceptable(ms[k]) && forall j | 0 <= j < k :: Acceptable(ms[j])
  {
    hide Acceptable;
    var n := |ms| - 1;
    if AllAcceptable(ms[..n]) {
      k := n;
      forall j | 0 <= j < n ensures Acceptable(ms[j]) { assert ms[..n][j] == ms[j]; }
    } else {
      k := FirstBad(ms[..n]);
      forall j | 0 <= j < k ensures Acceptable(ms[j]) { assert ms[..n][j] == ms[j]; }
    }
  }

  /** A save that succeeds had acceptable mutations alone. */
  lemma AcceptedOnly(env: Env, ms: seq<Mutation>, clock: Clock)
    requires Unhooked(env, ms, clock) && ms != [] && Mutate(env, Start(env)).error.None?
    ensures AllAcceptable(ms)
  {
    hide Check, Mutate, Unhooked, RefusedFor, Acceptable;
    if !AllAcceptable(ms) {
      var k := FirstBad(ms);
      var e := SomethingWrong(ms[k]);
      RefusedSave(env, ms, clock, k, e);
    }
  }

  /** The entity of builder k: its caller's fields or defaults, and the id it was given or else the store's. */
  lemma FinishedKept(env: Env, ms: seq<Mutation>, clock: Clock, k: nat, ids: Option<seq<Int64>>)
    requires Unhooked(env, ms, clock) && k < |ms|
    ensures SlotArrival(env.slots[k]).Some?
    ensures var f := Finished(SlotArrival(env.slots[k]).value.passed, ids, k);
            && Kept(ms[k], clock(k).0, clock(k).1, f)
            && (ms[k].id.Some? && ms[k].id.value != 0 ==> f.id == ms[k].id.value)
            && (GetOr(ms[k].id, 0) == 0 && ids.Some? && k < |ids.value| ==> f.id == Narrow32(ids.value[k]))
  {
    hide NodeOf, Kept, Given;
    var m := Defaults(ms[k], clock(k).0, clock(k).1);
    var f := Finished(m, ids, k);
    NodeGiven(m);
    GivenAnyID(m, NodeOf(m), f);
    DefaultsKept(ms[k], clock(k).0, clock(k).1, f);
  }

  lemma GivenAnyID(m: Mutation, f: File, g: File)
    requires Given(m, f) && g == f.(id := g.id)
    ensures Given(m, g)
  {
  }
}
