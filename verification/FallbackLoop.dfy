/** The dispatch loop that walks a request through the routes of a pool and of its fallback pools.

    The environment decides which route is selected, what the breaker says and what the provider
    answers, and may decide differently each time it is asked: the moment of a decision is the number
    of events before it. */
module FallbackLoop {
  import opened Options

  type Route = (string, string)

  /** An answer that came but cannot be used is `Unusable`: it cannot be streamed although a stream was
      asked for, or recording its success failed. */
  datatype Answer =
    | Served(response: string)
    | Unusable(error: string)
    | Failed(error: string)

  datatype Environment = Environment(
    guarded: bool,  // a circuit breaker is installed
    candidates: string -> set<Route>,
    select: (nat, string, set<Route>) -> Option<Route>,
    allows: (nat, Route) -> bool,
    answers: (nat, Route) -> Answer,
    stops: nat -> bool)  // the request is cancelled, or the breaker's store fails, after so many calls

  /** A selector returns a candidate of the pool that is not excluded, or nothing. */
  ghost predicate Selects(env: Environment) {
    forall k, pool, excluded ::
      env.select(k, pool, excluded).Some? ==> env.select(k, pool, excluded).value in env.candidates(pool) - excluded
  }

  datatype Event =
    | Checked(route: Route, allowed: bool)
    | Dispatched(route: Route, sanitized: bool, answer: Answer)
    | RecordedSuccess(route: Route)
    | RecordedFailure(route: Route)
    | Exhausted

  type Trace = seq<Event>

  datatype Outcome =
    | Returned(route: Route, response: string)
    | Raised(error: string)
    | NoHealthyModels(pool: string)
    | Stopped

  // ----- What a trace leaves behind -------------------------------------------------------------------

  /** What the loop still owes the route it is working on. */
  datatype Stage =
    | Idle
    | Admitted(route: Route)
    | Succeeding(route: Route, answer: Answer)
    | Failing(route: Route)
    | Finished(route: Route, response: string)

  /** `excluded` are the routes given up so far, `pool` counts the pools left behind. */
  datatype Memory = Memory(stage: Stage, excluded: set<Route>, pool: nat, lastError: Option<string>, firstProvider: Option<string>)

  const START: Memory := Memory(Idle, {}, 0, None, None)

  function GivenUp(m: Memory, route: Route): Memory {
    m.(stage := Idle, excluded := m.excluded + {route})
  }

  function Dispatch(guarded: bool, m: Memory, route: Route, answer: Answer): Memory {
    var m' := m.(lastError := if answer.Served? then m.lastError else Some(answer.error),
                 firstProvider := if m.firstProvider.None? then Some(route.0) else m.firstProvider);
    if guarded then m'.(stage := if answer.Failed? then Failing(route) else Succeeding(route, answer))
    else if answer.Served? then m'.(stage := Finished(route, answer.response))
    else GivenUp(m', route)
  }

  function Step(guarded: bool, m: Memory, e: Event): Memory {
    match e
    case Checked(route, allowed) => if allowed then m.(stage := Admitted(route)) else GivenUp(m, route)
    case Dispatched(route, _, answer) => Dispatch(guarded, m, route, answer)
    case RecordedSuccess(route) =>
      (match m.stage
       case Succeeding(_, Served(response)) => m.(stage := Finished(route, response))
       case _ => m.(stage := Failing(route)))
    case RecordedFailure(route) => GivenUp(m, route)
    case Exhausted => m.(pool := m.pool + 1)
  }

  function After(guarded: bool, t: Trace): Memory {
    if t == [] then START else Step(guarded, After(guarded, t[..|t| - 1]), t[|t| - 1])
  }

  /** The selector, asked at moment `k` with exactly the routes given up so far, returns `result`. */
  predicate Chosen(env: Environment, pools: seq<string>, k: nat, m: Memory, result: Option<Route>) {
    m.stage.Idle? && m.pool < |pools| && env.select(k, pools[m.pool], m.excluded) == result
  }

  predicate CanFollow(env: Environment, pools: seq<string>, k: nat, m: Memory, e: Event) {
    match e
    case Checked(route, allowed) =>
      env.guarded && Chosen(env, pools, k, m, Some(route)) && allowed == env.allows(k, route)
    case Dispatched(route, sanitized, answer) =>
      && (if env.guarded then m.stage == Admitted(route) else Chosen(env, pools, k, m, Some(route)))
      && sanitized == (m.firstProvider.Some? && m.firstProvider.value != route.0)
      && answer == env.answers(k, route)
    case RecordedSuccess(route) => m.stage.Succeeding? && m.stage.route == route
    case RecordedFailure(route) => m.stage == Failing(route)
    case Exhausted => Chosen(env, pools, k, m, None)
  }

  predicate Legal(env: Environment, pools: seq<string>, t: Trace) {
    t == [] || (Legal(env, pools, t[..|t| - 1])
                && CanFollow(env, pools, |t| - 1, After(env.guarded, t[..|t| - 1]), t[|t| - 1]))
  }

  /** The result a completed trace stands for. */
  predicate Concludes(pools: seq<string>, m: Memory, outcome: Outcome)
    requires |pools| > 0
  {
    match outcome
    case Returned(route, response) => m.stage == Finished(route, response)
    case Raised(error) => m.stage.Idle? && m.pool == |pools| && m.lastError == Some(error)
    case NoHealthyModels(pool) => m.stage.Idle? && m.pool == |pools| && m.lastError == None && pool == pools[0]
    case Stopped => true
  }

  lemma Extend(env: Environment, pools: seq<string>, t: Trace, e: Event)
    requires Legal(env, pools, t) && CanFollow(env, pools, |t|, After(env.guarded, t), e)
    ensures Legal(env, pools, t + [e])
    ensures After(env.guarded, t + [e]) == Step(env.guarded, After(env.guarded, t), e)
  {
    assert (t + [e])[..|t|] == t;
  }

  // ----- The loop -------------------------------------------------------------------------------------

  /** `trace` lists the calls made to the breaker and to the providers, in order.  A call that the
      request is cancelled in is made all the same. */
  method CallWithPoolFallback(env: Environment, pools: seq<string>) returns (outcome: Outcome, trace: Trace)
    requires |pools| > 0 && Selects(env)
    ensures Legal(env, pools, trace) && Concludes(pools, After(env.guarded, trace), outcome)
    ensures outcome.Stopped? ==> env.stops(|trace|)
  {
    var excluded: set<Route> := {};
    var lastError: Option<string> := None;
    var firstProvider: Option<string> := None;
    var poolIndex := 0;
    trace := [];
    hide After, Legal;
    assert Legal(env, pools, []) && After(env.guarded, []) == START by { Empty(env, pools); }
    while !env.stops(|trace|)
      invariant poolIndex < |pools| && Legal(env, pools, trace)
      invariant After(env.guarded, trace) == Memory(Idle, excluded, poolIndex, lastError, firstProvider)
      decreases |pools| - poolIndex, |env.candidates(pools[poolIndex]) - excluded|
    {
      var selected := env.select(|trace|, pools[poolIndex], excluded);
      ghost var untried := env.candidates(pools[poolIndex]) - excluded;
      if env.guarded {
        excluded, selected, trace := SkipRefused(env, pools, pools[poolIndex], trace, excluded, selected);
        if env.stops(|trace|) {
          return Stopped, trace;
        }
      }
      if selected.None? {
        Extend(env, pools, trace, Exhausted);
        trace := trace + [Exhausted];
        if poolIndex + 1 < |pools| {
          poolIndex := poolIndex + 1;
          continue;
        }
        return if lastError.Some? then Raised(lastError.value) else NoHealthyModels(pools[0]), trace;
      }
      var route := selected.value;
      assert route in untried;
      var sanitized := firstProvider.Some? && route.0 != firstProvider.value;
      if firstProvider.None? {
        firstProvider := Some(route.0);
      }
      var answer := env.answers(|trace|, route);
      Extend(env, pools, trace, Dispatched(route, sanitized, answer));
      trace := trace + [Dispatched(route, sanitized, answer)];
      if env.stops(|trace|) {
        return Stopped, trace;
      }
      var recorded;
      recorded, trace := RecordOutcome(env, pools, route, answer, trace);
      if !recorded {
        return Stopped, trace;
      }
      if answer.Served? {
        return Returned(route, answer.response), trace;
      }
      lastError := Some(answer.error);
      excluded := excluded + {route};
      Shrinks(env.candidates(pools[poolIndex]) - excluded, untried, route);
    }
    outcome := Stopped;
  }

  /** Behind a breaker: a success is recorded when an answer came, a failure when it was no use. */
  method RecordOutcome(env: Environment, ghost pools: seq<string>, route: Route, answer: Answer, before: Trace)
    returns (recorded: bool, trace: Trace)
    requires Legal(env, pools, before)
    requires var stage := After(env.guarded, before).stage;
             if !env.guarded then stage == if answer.Served? then Finished(route, answer.response) else Idle
             else stage == if answer.Failed? then Failing(route) else Succeeding(route, answer)
    requires !env.guarded && !answer.Served? ==> route in After(env.guarded, before).excluded
    ensures Legal(env, pools, trace)
    ensures !recorded ==> env.stops(|trace|)
    ensures recorded ==>
              After(env.guarded, trace) ==
              var m := After(env.guarded, before);
              if answer.Served? then m.(stage := Finished(route, answer.response)) else GivenUp(m, route)
  {
    hide After, Legal;
    trace := before;
    if env.guarded && !answer.Failed? {
      Extend(env, pools, trace, RecordedSuccess(route));
      trace := trace + [RecordedSuccess(route)];
      if env.stops(|trace|) {
        return false, trace;
      }
    }
    if env.guarded && !answer.Served? {
      Extend(env, pools, trace, RecordedFailure(route));
      trace := trace + [RecordedFailure(route)];
      if env.stops(|trace|) {
        return false, trace;
      }
    }
    assert {route} + After(env.guarded, before).excluded == After(env.guarded, before).excluded + {route};
    recorded := true;
  }

  lemma Empty(env: Environment, pools: seq<string>)
    ensures Legal(env, pools, []) && After(env.guarded, []) == START
  {
  }

  lemma Shrinks(less: set<Route>, more: set<Route>, gone: Route)
    requires less <= more && gone in more && gone !in less
    ensures |less| < |more|
  {
    assert less <= more - {gone};
    CardinalityOfSubset(less, more - {gone});
  }

  lemma {:induction false} CardinalityOfSubset(less: set<Route>, more: set<Route>)
    requires less <= more
    ensures |less| <= |more|
  {
    if less != {} {
      var r :| r in less;
      CardinalityOfSubset(less - {r}, more - {r});
    }
  }

  /** The inner loop: asks the breaker about the selected route and, as long as it refuses, excludes
      the route and selects another. */
  method SkipRefused(env: Environment, ghost pools: seq<string>, pool: string, before: Trace,
                     given: set<Route>, first: Option<Route>)
    returns (excluded: set<Route>, selected: Option<Route>, trace: Trace)
    requires Selects(env) && env.guarded && Legal(env, pools, before)
    requires given == After(true, before).excluded && Chosen(env, pools, |before|, After(true, before), first)
    requires pool == pools[After(true, before).pool]
    ensures Legal(env, pools, trace) && given <= excluded
    ensures After(true, trace)
         == After(true, before).(excluded := excluded, stage := if selected.Some? then Admitted(selected.value) else Idle)
    ensures selected.None? && !env.stops(|trace|) ==> Chosen(env, pools, |trace|, After(true, trace), None)
    ensures selected.Some? ==> selected.value in env.candidates(pool) - excluded
  {
    excluded, selected, trace := given, first, before;
    hide After, Legal;
    while selected.Some?
      invariant Legal(env, pools, trace) && given <= excluded
      invariant After(true, trace) == After(true, before).(excluded := excluded)
      invariant Chosen(env, pools, |trace|, After(true, trace), selected)
      decreases |env.candidates(pool) - excluded|
    {
      var allowed := env.allows(|trace|, selected.value);
      Extend(env, pools, trace, Checked(selected.value, allowed));
      trace := trace + [Checked(selected.value, allowed)];
      if allowed {
        break;
      }
      ghost var untried := env.candidates(pool) - excluded;
      excluded := excluded + {selected.value};
      Shrinks(env.candidates(pool) - excluded, untried, selected.value);
      if env.stops(|trace|) {
        return excluded, None, trace;
      }
      selected := env.select(|trace|, pool, excluded);
    }
  }
}
