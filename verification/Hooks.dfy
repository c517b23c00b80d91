/**
 Hooks and interceptors as `ent.go` composes them. A mutator acts on a world of
 mutation objects and whatever it stores into; a hook turns the next mutator into one.
 */
module Hooks {
  import opened Base

  type Ref = nat

  /** The mutation objects of the expected type, by reference, and everything else. */
  datatype World<M, D> = World(objects: map<Ref, M>, store: D)

  datatype Failure = UnexpectedMutation | UninitializedHook | UnexpectedNode | Failed(code: int)

  /** What a mutator returns: a value of the expected type, or of another one. */
  datatype Returned<V> = Expected(value: V) | Unexpected

  type Exec<!M, !D, !V> = World<M, D> -> (World<M, D>, Result<V, Failure>)

  type Mutator<!M, !D, !V> = (World<M, D>, Ref) -> (World<M, D>, Result<Returned<V>, Failure>)

  type Hook<!M, !D, !V> = Mutator<M, D, V> -> Mutator<M, D, V>

  /** The meaning of a list of wrappers: the first one is outermost. */
  function Compose<T>(wraps: seq<T -> T>, base: T): T {
    if wraps == [] then base else wraps[0](Compose(wraps[1..], base))
  }

  /** `*mutation = *mutationT` */
  function Overwrite<M, D>(w: World<M, D>, own: Ref, arg: Ref): World<M, D>
    requires arg in w.objects
  {
    w.(objects := w.objects[own := w.objects[arg]])
  }

  function Lift<V>(result: Result<V, Failure>): Result<Returned<V>, Failure> {
    if result.Ok? then Ok(Expected(result.value)) else Err(result.error)
  }

  /** The innermost mutator: takes over the mutation it is called with, then runs the operation. */
  function Innermost<M, D, V>(exec: Exec<M, D, V>, own: Ref): Mutator<M, D, V> {
    (w: World<M, D>, arg: Ref) =>
      if arg !in w.objects then (w, Err(UnexpectedMutation))
      else
        var (after, result) := exec(Overwrite(w, own, arg));
        (after, Lift(result))
  }

  /** The type assertion on what comes back. */
  function Assert<V>(reply: Result<Returned<V>, Failure>): Result<V, Failure> {
    match reply
    case Err(e) => Err(e)
    case Ok(Expected(v)) => Ok(v)
    case Ok(Unexpected) => Err(UnexpectedNode)
  }

  predicate Initialized<H>(hooks: seq<Option<H>>) {
    forall i | 0 <= i < |hooks| :: hooks[i].Some?
  }

  function Given<H>(hooks: seq<Option<H>>): (given: seq<H>)
    requires Initialized(hooks)
    ensures |given| == |hooks| && forall i | 0 <= i < |hooks| :: Some(given[i]) == hooks[i]
  {
    seq(|hooks|, i requires 0 <= i < |hooks| => hooks[i].value)
  }

  /** What the composed hooks do with the builder's own mutation. */
  function Hooked<M, D, V>(w: World<M, D>, exec: Exec<M, D, V>, own: Ref, hooks: seq<Hook<M, D, V>>)
    : (World<M, D>, Result<V, Failure>)
  {
    var (after, reply) := Compose(hooks, Innermost(exec, own))(w, own);
    (after, Assert(reply))
  }

  /** What a caller gets for a reply: its value or error, and an error for a value of another type. */
  ghost predicate Answers<V(!new)>(reply: Result<Returned<V>, Failure>, result: Result<V, Failure>) {
    && (forall v :: result == Ok(v) <==> reply == Ok(Expected(v)))
    && (forall e | e != UnexpectedNode :: result == Err(e) <==> reply == Err(e))
    && (result == Err(UnexpectedNode) <==> reply == Ok(Unexpected) || reply == Err(UnexpectedNode))
  }

  method WithHooks<M, D, V(!new)>(w: World<M, D>, exec: Exec<M, D, V>, own: Ref, hooks: seq<Option<Hook<M, D, V>>>)
    returns (after: World<M, D>, result: Result<V, Failure>)
    requires own in w.objects
    ensures Initialized(hooks) ==> (after, result) == Hooked(w, exec, own, Given(hooks))
    ensures Initialized(hooks) ==>
              var (world, reply) := Compose(Given(hooks), Innermost(exec, own))(w, own);
              after == world && Answers(reply, result)
    ensures !Initialized(hooks) ==> after == w && result == Err(UninitializedHook)
  {
    if |hooks| == 0 {
      EmptyAgrees(w, exec, own);
      var done := exec(w);
      return done.0, done.1;
    }
    var mut := Innermost(exec, own);
    var i := |hooks|;
    while i > 0
      invariant 0 <= i <= |hooks|
      invariant Initialized(hooks[i..])
      invariant mut == Compose(Given(hooks[i..]), Innermost(exec, own))
    {
      i := i - 1;
      if hooks[i].None? {
        return w, Err(UninitializedHook);
      }
      assert Given(hooks[i..])[1..] == Given(hooks[i + 1..]);
      mut := hooks[i].value(mut);
    }
    assert hooks[0..] == hooks;
    var (world, reply) := mut(w, own);
    match reply
    case Err(e) => return world, Err(e);
    case Ok(Expected(v)) => return world, Ok(v);
    case Ok(Unexpected) => return world, Err(UnexpectedNode);
  }

  /** SKIPPING the fold for an empty list changes nothing. */
  lemma EmptyAgrees<M, D, V>(w: World<M, D>, exec: Exec<M, D, V>, own: Ref)
    requires own in w.objects
    ensures Hooked(w, exec, own, []) == exec(w)
  {
    assert w.objects[own := w.objects[own]] == w.objects;
    assert Overwrite(w, own, own) == w;
  }

  type Querier<!W, !Q, !V> = (W, Q) -> (W, Result<Returned<V>, Failure>)

  /** Interceptors compose the same way, around a querier, and without the check for missing ones. */
  method WithInterceptors<W, Q, V(!new)>(w: W, q: Q, querier: Querier<W, Q, V>,
                                   inters: seq<Querier<W, Q, V> -> Querier<W, Q, V>>)
    returns (after: W, result: Result<V, Failure>)
    ensures var (world, reply) := Compose(inters, querier)(w, q); after == world && Answers(reply, result)
  {
    var qr := querier;
    var i := |inters|;
    while i > 0
      invariant 0 <= i <= |inters|
      invariant qr == Compose(inters[i..], querier)
    {
      i := i - 1;
      assert inters[i..][1..] == inters[i + 1..];
      qr := inters[i](qr);
    }
    assert inters[0..] == inters;
    var (world, reply) := qr(w, q);
    match reply
    case Err(e) => return world, Err(e);
    case Ok(Expected(v)) => return world, Ok(v);
    case Ok(Unexpected) => return world, Err(UnexpectedNode);
  }

  // ---------- what the composition means ----------

  /** Wrappers given earlier enclose those given later. */
  lemma {:induction false} ComposeAppend<T>(a: seq<T -> T>, b: seq<T -> T>, base: T)
    ensures Compose(a + b, base) == Compose(a, Compose(b, base))
  {
    if a == [] {
      assert a + b == b;
    } else {
      assert (a + b)[1..] == a[1..] + b;
      ComposeAppend(a[1..], b, base);
    }
  }

  type Reply<V> = Result<Returned<V>, Failure>

  /** Before the next mutator, a hook passes a mutation on or returns without the call. */
  datatype Step<V> = Pass(arg: Ref) | Stop(reply: Reply<V>)

  /** A hook that calls its next mutator at most once. */
  datatype Layer<!M, !D, !V> = Layer(
    before: (World<M, D>, Ref) -> (World<M, D>, Step<V>),
    later: (World<M, D>, Reply<V>) -> (World<M, D>, Reply<V>))

  function Wrap<M, D, V>(layer: Layer<M, D, V>): Hook<M, D, V> {
    (next: Mutator<M, D, V>) =>
      (w: World<M, D>, arg: Ref) =>
        var (inner, step) := layer.before(w, arg);
        match step
        case Stop(reply) => (inner, reply)
        case Pass(passed) =>
          var (outer, reply) := next(inner, passed);
          layer.later(outer, reply)
  }

  function Wraps<M, D, V>(layers: seq<Layer<M, D, V>>): seq<Hook<M, D, V>> {
    if layers == [] then [] else [Wrap(layers[0])] + Wraps(layers[1..])
  }

  /** The way in: the world it leads to, the last step, and how many layers pass a mutation on. */
  datatype WayIn<M, D, V> = WayIn(world: World<M, D>, step: Step<V>, passed: nat)

  /** The first parts in registration order, up to a layer that stops. */
  function Entering<M, D, V>(layers: seq<Layer<M, D, V>>, w: World<M, D>, arg: Ref): (way: WayIn<M, D, V>)
    ensures way.passed <= |layers| && (way.step.Pass? <==> way.passed == |layers|)
  {
    if layers == [] then WayIn(w, Pass(arg), 0)
    else
      var (inner, step) := layers[0].before(w, arg);
      match step
      case Stop(_) => WayIn(inner, step, 0)
      case Pass(passed) =>
        var rest := Entering(layers[1..], inner, passed);
        rest.(passed := rest.passed + 1)
  }

  /** The second parts, in reverse registration order. */
  function Leaving<M, D, V>(layers: seq<Layer<M, D, V>>, w: World<M, D>, reply: Reply<V>): (World<M, D>, Reply<V>)
    decreases |layers|
  {
    if layers == [] then (w, reply)
    else
      var n := |layers| - 1;
      var (w1, r1) := layers[n].later(w, reply);
      Leaving(layers[..n], w1, r1)
  }

  lemma {:induction false} LeavingFirst<M, D, V>(layers: seq<Layer<M, D, V>>, w: World<M, D>, reply: Reply<V>)
    requires layers != []
    ensures Leaving(layers, w, reply) ==
            var (w1, r1) := Leaving(layers[1..], w, reply); layers[0].later(w1, r1)
    decreases |layers|
  {
    var n := |layers| - 1;
    if n == 0 {
      assert layers[..0] == [] && layers[1..] == [];
    } else {
      var (w1, r1) := layers[n].later(w, reply);
      LeavingFirst(layers[..n], w1, r1);
      assert layers[..n][1..] == layers[1..][..n - 1];
      assert layers[1..][n - 1] == layers[n];
    }
  }

  /**
   Hook 0 is outermost. If no layer stops, the first parts run in order, then the base,
   then the second parts in reverse; a layer that stops is answered by the layers before
   it alone, and neither the later ones nor the base run.
   */
  lemma {:induction false} LayersNest<M, D, V>(layers: seq<Layer<M, D, V>>, base: Mutator<M, D, V>,
                                               w: World<M, D>, arg: Ref)
    ensures var way := Entering(layers, w, arg);
            Compose(Wraps(layers), base)(w, arg) ==
            match way.step
            case Stop(reply) => Leaving(layers[..way.passed], way.world, reply)
            case Pass(passed) => var (outer, reply) := base(way.world, passed); Leaving(layers, outer, reply)
  {
    if layers != [] {
      var (inner, step) := layers[0].before(w, arg);
      var way := Entering(layers, w, arg);
      assert Wraps(layers)[1..] == Wraps(layers[1..]);
      if step.Pass? {
        LayersNest(layers[1..], base, inner, step.arg);
        if way.step.Pass? {
          var (outer, reply) := base(way.world, way.step.arg);
          LeavingFirst(layers, outer, reply);
        } else {
          assert layers[..way.passed][1..] == layers[1..][..way.passed - 1];
          LeavingFirst(layers[..way.passed], way.world, way.step.reply);
        }
      }
    }
  }

  /** What `withHooks` returns when the innermost mutator, or a layer that stops, replied. */
  function Answer<M, D, V>(layers: seq<Layer<M, D, V>>, w: World<M, D>, reply: Reply<V>)
    : (World<M, D>, Result<V, Failure>)
  {
    var (after, last) := Leaving(layers, w, reply);
    (after, Assert(last))
  }

  /**
   The operation runs at most once, in the world the hooks built, where the builder's
   own mutation has become the one the last hook passed on. It does not run if a layer
   stops or if what is passed on is not a mutation of the builder's type.
   */
  lemma ExecSees<M, D, V>(layers: seq<Layer<M, D, V>>, w: World<M, D>, exec: Exec<M, D, V>, own: Ref)
    ensures var way := Entering(layers, w, own);
            Hooked(w, exec, own, Wraps(layers)) ==
            match way.step
            case Stop(reply) => Answer(layers[..way.passed], way.world, reply)
            case Pass(arg) =>
              if arg !in way.world.objects then Answer(layers, way.world, Err(UnexpectedMutation))
              else
                var (done, result) := exec(way.world.(objects := way.world.objects[own := way.world.objects[arg]]));
                Answer(layers, done, Lift(result))
  {
    LayersNest(layers, Innermost(exec, own), w, own);
    var way := Entering(layers, w, own);
    if way.step.Pass? {
      var (outer, reply) := Innermost(exec, own)(way.world, way.step.arg);
      if way.step.arg in way.world.objects {
        var (done, result) := exec(Overwrite(way.world, own, way.step.arg));
        assert outer == done && reply == Lift(result);
      } else {
        assert outer == way.world && reply == Err(UnexpectedMutation);
      }
    }
  }

  // ---------- hooks that call on several times ----------

  /** Called where inv holds, the mutator keeps it, loses no object, and raises the count by n. */
  ghost predicate Raises<M(!new), D(!new), V(!new)>(mut: Mutator<M, D, V>, inv: (World<M, D>, Ref) -> bool,
                                                    count: D -> nat, n: nat)
  {
    forall w: World<M, D>, arg: Ref | inv(w, arg) ::
      && inv(mut(w, arg).0, arg) && w.objects.Keys <= mut(w, arg).0.objects.Keys
      && count(mut(w, arg).0.store) == count(w.store) + n
  }

  function Mul(a: nat, b: nat): nat {
    a * b
  }

  /** Each call of the hook's mutator calls the next one n times, as far as any count can tell. */
  ghost predicate CallsOn<M(!new), D(!new), V(!new)>(hook: Hook<M, D, V>, inv: (World<M, D>, Ref) -> bool,
                                                     count: D -> nat, n: nat)
  {
    forall next: Mutator<M, D, V>, d: nat :: Raises(next, inv, count, d) ==> Raises(hook(next), inv, count, Mul(n, d))
  }

  /** How often an operation runs that runs d times per call, around which hooks call on so many times each. */
  function RunsOf(times: seq<nat>, d: nat): nat {
    if times == [] then d else Mul(times[0], RunsOf(times[1..], d))
  }

  ghost predicate AllCallOn<M(!new), D(!new), V(!new)>(hooks: seq<Hook<M, D, V>>, inv: (World<M, D>, Ref) -> bool,
                                                       count: D -> nat, times: seq<nat>)
  {
    |hooks| == |times| && forall i | 0 <= i < |hooks| :: CallsOn(hooks[i], inv, count, times[i])
  }

  lemma OneMore<M(!new), D(!new), V(!new)>(hook: Hook<M, D, V>, inv: (World<M, D>, Ref) -> bool, count: D -> nat,
                                          n: nat, next: Mutator<M, D, V>, d: nat)
    requires CallsOn(hook, inv, count, n) && Raises(next, inv, count, d)
    ensures Raises(hook(next), inv, count, Mul(n, d))
  {
    hide Raises;
  }

  lemma RaisesOnce<M(!new), D(!new), V(!new)>(mut: Mutator<M, D, V>, inv: (World<M, D>, Ref) -> bool, count: D -> nat,
                                             n: nat, w: World<M, D>, arg: Ref)
    requires Raises(mut, inv, count, n) && inv(w, arg)
    ensures var after := mut(w, arg).0;
            && inv(after, arg) && w.objects.Keys <= after.objects.Keys
            && count(after.store) == count(w.store) + n
  {
  }

  /** Around an operation, hooks that call on several times multiply how often it runs. */
  lemma {:induction false} RunsMultiply<M(!new), D(!new), V(!new)>(
      hooks: seq<Hook<M, D, V>>, times: seq<nat>, base: Mutator<M, D, V>,
      inv: (World<M, D>, Ref) -> bool, count: D -> nat, d: nat)
    requires AllCallOn(hooks, inv, count, times) && Raises(base, inv, count, d)
    ensures Raises(Compose(hooks, base), inv, count, RunsOf(times, d))
  {
    hide Raises, CallsOn, Mul;
    if hooks != [] {
      RunsMultiply(hooks[1..], times[1..], base, inv, count, d);
      OneMore(hooks[0], inv, count, times[0], Compose(hooks[1..], base), RunsOf(times[1..], d));
    }
  }

  /** Calling on n times in a row; the last reply counts. */
  function Times<M, D, V>(n: nat, next: Mutator<M, D, V>, w: World<M, D>, arg: Ref): (World<M, D>, Reply<V>) {
    if n == 0 then (w, Ok(Unexpected))
    else if n == 1 then next(w, arg)
    else Times(n - 1, next, next(w, arg).0, arg)
  }

  function Retry<M, D, V>(n: nat): Hook<M, D, V> {
    (next: Mutator<M, D, V>) => (w: World<M, D>, arg: Ref) => Times(n, next, w, arg)
  }

  lemma {:induction false} TimesRaises<M(!new), D(!new), V(!new)>(
      n: nat, next: Mutator<M, D, V>, inv: (World<M, D>, Ref) -> bool, count: D -> nat, d: nat,
      w: World<M, D>, arg: Ref)
    requires Raises(next, inv, count, d) && inv(w, arg)
    ensures var after := Times(n, next, w, arg).0;
            && inv(after, arg) && w.objects.Keys <= after.objects.Keys
            && count(after.store) == count(w.store) + Mul(n, d)
  {
    if n > 1 {
      TimesRaises(n - 1, next, inv, count, d, next(w, arg).0, arg);
      assert Mul(n, d) == d + Mul(n - 1, d);
    }
  }

  /** A retry of n calls is such a hook. */
  lemma RetryCallsOn<M(!new), D(!new), V(!new)>(n: nat, inv: (World<M, D>, Ref) -> bool, count: D -> nat)
    ensures CallsOn(Retry<M, D, V>(n), inv, count, n)
  {
    forall next: Mutator<M, D, V>, d: nat | Raises(next, inv, count, d)
      ensures Raises(Retry(n)(next), inv, count, Mul(n, d))
    {
      forall w: World<M, D>, arg: Ref | inv(w, arg)
        ensures inv(Retry(n)(next)(w, arg).0, arg) && w.objects.Keys <= Retry(n)(next)(w, arg).0.objects.Keys
        ensures count(Retry(n)(next)(w, arg).0.store) == count(w.store) + Mul(n, d)
      {
        TimesRaises(n, next, inv, count, d, w, arg);
      }
    }
  }
}
