/** What every run of the dispatch loop guarantees, whatever the selector, the breaker and the
    providers do. */
module FallbackRuns {
  import opened Options
  import opened FallbackLoop

  /** Every event of a legal trace was allowed by the events before it. */
  lemma {:induction false} EachFollows(env: Environment, pools: seq<string>, t: Trace, i: nat)
    requires Legal(env, pools, t) && i < |t|
    ensures Legal(env, pools, t[..i]) && CanFollow(env, pools, i, After(env.guarded, t[..i]), t[i])
    ensures After(env.guarded, t[..i + 1]) == Step(env.guarded, After(env.guarded, t[..i]), t[i])
  {
    hide CanFollow, Step;
    var before := t[..|t| - 1];
    if i < |before| {
      EachFollows(env, pools, before, i);
      assert before[..i] == t[..i] && before[..i + 1] == t[..i + 1];
    } else {
      assert t[..i + 1] == t && t[..i] == before;
    }
  }

  // ----- At most one attempt per route ----------------------------------------------------------------

  predicate Answered(s: Stage) {
    s.Succeeding? || s.Failing? || s.Finished?
  }

  /** A route that was asked about is given up, or is the one being worked on. */
  ghost predicate Accounted(m: Memory, t: Trace) {
    && (!m.stage.Idle? ==> m.stage.route !in m.excluded)
    && (forall i :: 0 <= i < |t| && t[i].Checked? ==>
          t[i].route in m.excluded || (!m.stage.Idle? && m.stage.route == t[i].route))
    && (forall i :: 0 <= i < |t| && t[i].Dispatched? ==>
          t[i].route in m.excluded || (Answered(m.stage) && m.stage.route == t[i].route))
  }

  lemma AccountedStep(env: Environment, pools: seq<string>, t: Trace, m: Memory, e: Event)
    requires Selects(env) && Accounted(m, t) && CanFollow(env, pools, |t|, m, e)
    ensures Accounted(Step(env.guarded, m, e), t + [e])
  {
    var m' := Step(env.guarded, m, e);
    var t' := t + [e];
    assert m.excluded <= m'.excluded;
    forall i | 0 <= i < |t'|
      ensures t'[i].Checked? ==> t'[i].route in m'.excluded || (!m'.stage.Idle? && m'.stage.route == t'[i].route)
      ensures t'[i].Dispatched? ==> t'[i].route in m'.excluded || (Answered(m'.stage) && m'.stage.route == t'[i].route)
    {
      if i < |t| {
        assert t'[i] == t[i];
      }
    }
  }

  lemma {:induction false} AlwaysAccounted(env: Environment, pools: seq<string>, t: Trace)
    requires Selects(env) && Legal(env, pools, t)
    ensures Accounted(After(env.guarded, t), t)
  {
    hide CanFollow, Step, Accounted;
    if t == [] {
      assert Accounted(START, []) by { Untouched(); }
    } else {
      var before := t[..|t| - 1];
      AlwaysAccounted(env, pools, before);
      AccountedStep(env, pools, before, After(env.guarded, before), t[|t| - 1]);
      assert t == before + [t[|t| - 1]];
    }
  }

  lemma Untouched()
    ensures Accounted(START, [])
  {
  }

  /** No route is put to the breaker twice or dispatched twice, over all the pools together. */
  lemma RouteTriedOnce(env: Environment, pools: seq<string>, t: Trace, i: nat, j: nat)
    requires Selects(env) && Legal(env, pools, t) && i < j < |t|
    ensures t[i].Checked? && t[j].Checked? ==> t[i].route != t[j].route
    ensures t[i].Dispatched? && t[j].Dispatched? ==> t[i].route != t[j].route
  {
    hide After, Legal;
    EachFollows(env, pools, t, j);
    AlwaysAccounted(env, pools, t[..j]);
    assert t[..j][i] == t[i];
  }

  lemma AdmittedByLastEvent(env: Environment, pools: seq<string>, t: Trace)
    requires Legal(env, pools, t) && After(env.guarded, t).stage.Admitted?
    ensures t != [] && t[|t| - 1] == Checked(After(env.guarded, t).stage.route, true)
  {
    hide Legal, After;
    if t == [] {
      Empty(env, pools);
    } else {
      EachFollows(env, pools, t, |t| - 1);
      assert t[..|t| - 1 + 1] == t;
    }
  }

  /** Behind a breaker, every dispatch comes directly after the breaker allowed that route; every
      dispatched route is a candidate of the pool being tried. */
  lemma OnlyAfterAllowed(env: Environment, pools: seq<string>, t: Trace, i: nat)
    requires Selects(env) && Legal(env, pools, t) && i < |t| && t[i].Dispatched?
    ensures After(env.guarded, t[..i]).pool < |pools|
    ensures t[i].route in env.candidates(pools[After(env.guarded, t[..i]).pool])
    ensures env.guarded ==> i > 0 && t[i - 1] == Checked(t[i].route, true) && env.allows(i - 1, t[i].route)
  {
    hide Legal, After;
    EachFollows(env, pools, t, i);
    if env.guarded {
      AdmittedByLastEvent(env, pools, t[..i]);
      EachFollows(env, pools, t, i - 1);
      assert t[..i][i - 1] == t[i - 1];
    }
  }

  /** Every event of a run is what its counterpart did at that moment: the verdict is the breaker's, the
      answer the provider's, the route the selector's choice out of what was not given up, and a pool is
      left when the selector had none. */
  lemma EventsAreTheEnvironments(env: Environment, pools: seq<string>, t: Trace, i: nat)
    requires Legal(env, pools, t) && i < |t|
    ensures var m := After(env.guarded, t[..i]);
            match t[i]
            case Checked(route, allowed) =>
              allowed == env.allows(i, route) && m.pool < |pools| && env.select(i, pools[m.pool], m.excluded) == Some(route)
            case Dispatched(route, _, answer) =>
              && answer == env.answers(i, route)
              && (!env.guarded ==> m.pool < |pools| && env.select(i, pools[m.pool], m.excluded) == Some(route))
            case Exhausted => m.pool < |pools| && env.select(i, pools[m.pool], m.excluded) == None
            case _ => env.guarded
  {
    hide Legal, After;
    EachFollows(env, pools, t, i);
    if t[i].RecordedSuccess? || t[i].RecordedFailure? {
      RecordsBehindBreaker(env, pools, t[..i]);
    }
  }

  /** Without a breaker nothing is ever owed to one. */
  lemma {:induction false} RecordsBehindBreaker(env: Environment, pools: seq<string>, t: Trace)
    requires Legal(env, pools, t)
    ensures var stage := After(env.guarded, t).stage; stage.Succeeding? || stage.Failing? || stage.Admitted? ==> env.guarded
  {
    if t != [] {
      RecordsBehindBreaker(env, pools, t[..|t| - 1]);
    }
  }

  /** A route the breaker refused is never dispatched, in this pool or a later one. */
  lemma RefusedIsNotDispatched(env: Environment, pools: seq<string>, t: Trace, i: nat, j: nat)
    requires Selects(env) && Legal(env, pools, t) && i < |t| && j < |t|
    requires t[i].Checked? && !t[i].allowed && t[j].Dispatched?
    ensures t[i].route != t[j].route
  {
    hide Legal, After, CanFollow, Step;
    OnlyAfterAllowed(env, pools, t, j);
    if t[i].route == t[j].route {
      EachFollows(env, pools, t, i);
      assert env.guarded by { CheckedBehindBreaker(env, pools, i, After(env.guarded, t[..i]), t[i]); }
      if i < j - 1 {
        RouteTriedOnce(env, pools, t, i, j - 1);
      } else if j - 1 < i {
        RouteTriedOnce(env, pools, t, j - 1, i);
      }
    }
  }

  lemma CheckedBehindBreaker(env: Environment, pools: seq<string>, k: nat, m: Memory, e: Event)
    requires CanFollow(env, pools, k, m, e) && e.Checked?
    ensures env.guarded
  {
  }

  // ----- Every admission is reported --------------------------------------------------------------------

  /** Wherever the loop is stopped, at most the admission it is working on is open: any other was
      dispatched next and its outcome recorded right after. */
  lemma EarlierAdmissionsAreSettled(env: Environment, pools: seq<string>, t: Trace, i: nat)
    requires Legal(env, pools, t) && i + 2 < |t| && t[i].Checked? && t[i].allowed
    ensures t[i + 1].Dispatched? && t[i + 1].route == t[i].route
    ensures t[i + 2] == if t[i + 1].answer.Failed? then RecordedFailure(t[i].route) else RecordedSuccess(t[i].route)
    ensures t[i + 1].answer.Unusable? && i + 3 < |t| ==> t[i + 3] == RecordedFailure(t[i].route)
  {
    hide Legal, After;
    EachFollows(env, pools, t, i);
    EachFollows(env, pools, t, i + 1);
    EachFollows(env, pools, t, i + 2);
    if i + 3 < |t| {
      EachFollows(env, pools, t, i + 3);
    }
  }

  /** Unless it is stopped, every route the breaker admits is dispatched next and its outcome is recorded right after, so
      no probe reservation is left open: an answer that came but cannot be streamed is recorded as a
      success and then as a failure. */
  lemma EveryAdmissionIsSettled(env: Environment, pools: seq<string>, t: Trace, outcome: Outcome, i: nat)
    requires |pools| > 0 && Legal(env, pools, t) && Concludes(pools, After(env.guarded, t), outcome)
    requires !outcome.Stopped? && i < |t| && t[i].Checked? && t[i].allowed
    ensures i + 2 < |t| && t[i + 1].Dispatched? && t[i + 1].route == t[i].route
    ensures t[i + 1].answer.Failed? ==> t[i + 2] == RecordedFailure(t[i].route)
    ensures !t[i + 1].answer.Failed? ==> t[i + 2] == RecordedSuccess(t[i].route)
    ensures t[i + 1].answer.Unusable? ==> i + 3 < |t| && t[i + 3] == RecordedFailure(t[i].route)
  {
    hide Legal, After;
    assert t[..|t|] == t;
    EachFollows(env, pools, t, i);
    EachFollows(env, pools, t, i + 1);
    EachFollows(env, pools, t, i + 2);
    if t[i + 1].answer.Unusable? {
      EachFollows(env, pools, t, i + 3);
    }
  }

  // ----- The order of the pools -------------------------------------------------------------------------

  /** The pool with this index was left, at moment `at`, because the selector had nothing to offer. */
  ghost predicate LeftEmpty(env: Environment, pools: seq<string>, t: Trace, at: nat, index: nat) {
    && at < |t| && t[at].Exhausted? && index < |pools|
    && After(env.guarded, t[..at]).pool == index
    && env.select(at, pools[index], After(env.guarded, t[..at]).excluded) == None
  }

  /** A pool is entered only when the selector had nothing left to offer in any pool before it. */
  lemma {:induction false} PoolsAreExhaustedInOrder(env: Environment, pools: seq<string>, t: Trace, index: nat)
    returns (at: nat)
    requires Legal(env, pools, t) && index < After(env.guarded, t).pool
    ensures LeftEmpty(env, pools, t, at, index)
  {
    assert t != [];
    var before := t[..|t| - 1];
    if index < After(env.guarded, before).pool {
      at := PoolsAreExhaustedInOrder(env, pools, before, index);
      assert before[..at] == t[..at];
    } else {
      at := |t| - 1;
    }
  }

  // ----- What the caller is told ------------------------------------------------------------------------

  /** The dispatch at `i` is the last one. */
  ghost predicate LastDispatch(t: Trace, i: int) {
    0 <= i < |t| && t[i].Dispatched? && forall j :: i < j < |t| ==> !t[j].Dispatched?
  }

  ghost predicate NoDispatch(t: Trace) {
    forall i :: 0 <= i < |t| ==> !t[i].Dispatched?
  }

  /** What the loop remembers reflects the last dispatch. */
  ghost predicate Reflects(m: Memory, t: Trace) {
    && (NoDispatch(t) ==> m.lastError.None? && m.firstProvider.None? && !Answered(m.stage))
    && (forall i :: LastDispatch(t, i) ==>
          match t[i].answer
          case Served(response) =>
            m.stage == Succeeding(t[i].route, t[i].answer) || m.stage == Finished(t[i].route, response)
          case _ => m.lastError == Some(t[i].answer.error) && !m.stage.Finished?
                    && (m.stage.Succeeding? ==> m.stage.answer == t[i].answer))
  }

  lemma ReflectsStep(env: Environment, pools: seq<string>, t: Trace, m: Memory, e: Event)
    requires Reflects(m, t) && CanFollow(env, pools, |t|, m, e)
    requires NoDispatch(t) || exists i :: LastDispatch(t, i)
    ensures Reflects(Step(env.guarded, m, e), t + [e])
    ensures NoDispatch(t + [e]) || exists i :: LastDispatch(t + [e], i)
  {
    var t' := t + [e];
    assert forall i :: 0 <= i < |t| ==> t'[i] == t[i];
    assert t'[|t|] == e;
    if e.Dispatched? {
      assert LastDispatch(t', |t|);
      assert !NoDispatch(t');
    } else {
      assert NoDispatch(t') ==> NoDispatch(t);
      assert forall i :: LastDispatch(t', i) ==> LastDispatch(t, i);
      if !NoDispatch(t) {
        var i :| LastDispatch(t, i);
        assert LastDispatch(t', i);
      }
    }
  }

  lemma {:induction false} AlwaysReflects(env: Environment, pools: seq<string>, t: Trace)
    requires Legal(env, pools, t)
    ensures Reflects(After(env.guarded, t), t)
    ensures NoDispatch(t) || exists i :: LastDispatch(t, i)
  {
    if t != [] {
      var before := t[..|t| - 1];
      AlwaysReflects(env, pools, before);
      ReflectsStep(env, pools, before, After(env.guarded, before), t[|t| - 1]);
      assert t == before + [t[|t| - 1]];
    }
  }

  /** The caller sees the last dispatch: its response if it was served, its error if not; it is told
      that no model is healthy exactly when nothing was dispatched at all. */
  lemma CallerSeesLastDispatch(env: Environment, pools: seq<string>, t: Trace, outcome: Outcome)
    requires |pools| > 0 && Legal(env, pools, t) && Concludes(pools, After(env.guarded, t), outcome) && !outcome.Stopped?
    ensures outcome.NoHealthyModels? <==> NoDispatch(t)
    ensures forall i :: LastDispatch(t, i) ==>
              outcome == match t[i].answer
                         case Served(response) => Returned(t[i].route, response)
                         case _ => Raised(t[i].answer.error)
    ensures outcome.NoHealthyModels? ==> outcome.pool == pools[0]
  {
    hide After, Legal, CanFollow;
    AlwaysReflects(env, pools, t);
    if !NoDispatch(t) {
      var i :| LastDispatch(t, i);
      assert t[i].Dispatched?;
    }
  }

  /** A served answer ends the run: no event follows but the record of the success. */
  lemma ServedEndsTheRun(env: Environment, pools: seq<string>, t: Trace, i: nat, j: nat)
    requires Legal(env, pools, t) && i < j < |t| && t[i].Dispatched? && t[i].answer.Served?
    ensures env.guarded && j == i + 1 && t[j] == RecordedSuccess(t[i].route)
  {
    hide After, Legal;
    EachFollows(env, pools, t, i);
    EachFollows(env, pools, t, i + 1);
    if i + 2 < |t| {
      EachFollows(env, pools, t, i + 2);
    }
  }

  // ----- Nothing is left untried ------------------------------------------------------------------------

  /** The breaker refused the route or a dispatch to it brought no usable answer. */
  ghost predicate GaveUp(t: Trace, route: Route) {
    exists i :: 0 <= i < |t| && (t[i] == Checked(route, false) || DispatchedInVain(t[i], route))
  }

  predicate DispatchedInVain(e: Event, route: Route) {
    e.Dispatched? && e.route == route && !e.answer.Served?
  }

  ghost predicate Justified(m: Memory, t: Trace) {
    && (forall r :: r in m.excluded ==> GaveUp(t, r))
    && (m.stage.Failing? ==> GaveUp(t, m.stage.route))
    && (m.stage.Succeeding? && !m.stage.answer.Served? ==> GaveUp(t, m.stage.route))
  }

  lemma JustifiedStep(env: Environment, pools: seq<string>, t: Trace, m: Memory, e: Event)
    requires Justified(m, t) && CanFollow(env, pools, |t|, m, e)
    ensures Justified(Step(env.guarded, m, e), t + [e])
  {
    var t' := t + [e];
    assert t'[|t|] == e;
    forall r | GaveUp(t, r)
      ensures GaveUp(t', r)
    {
      var i :| 0 <= i < |t| && (t[i] == Checked(r, false) || DispatchedInVain(t[i], r));
      assert t'[i] == t[i];
    }
  }

  lemma {:induction false} AlwaysJustified(env: Environment, pools: seq<string>, t: Trace)
    requires Legal(env, pools, t)
    ensures Justified(After(env.guarded, t), t)
  {
    if t != [] {
      var before := t[..|t| - 1];
      AlwaysJustified(env, pools, before);
      JustifiedStep(env, pools, before, After(env.guarded, before), t[|t| - 1]);
      assert t == before + [t[|t| - 1]];
    }
  }

  lemma {:induction false} ExcludedGrows(env: Environment, pools: seq<string>, t: Trace, i: nat)
    requires i <= |t|
    ensures After(env.guarded, t[..i]).excluded <= After(env.guarded, t).excluded
  {
    if i == |t| {
      assert t[..i] == t;
    } else {
      ExcludedGrows(env, pools, t[..|t| - 1], i);
      assert t[..|t| - 1][..i] == t[..i];
    }
  }

  /** With a selector that comes back empty-handed only when every candidate of the pool is excluded,
      a request fails only after every candidate of every pool was refused or tried in vain. */
  lemma FailureLeavesNothingUntried(env: Environment, pools: seq<string>, t: Trace, outcome: Outcome, index: nat, route: Route)
    requires |pools| > 0 && Legal(env, pools, t) && Concludes(pools, After(env.guarded, t), outcome)
    requires forall k, pool, excluded :: env.select(k, pool, excluded).None? ==> env.candidates(pool) <= excluded
    requires !outcome.Returned? && !outcome.Stopped? && index < |pools| && route in env.candidates(pools[index])
    ensures GaveUp(t, route)
  {
    hide Legal;
    var at := PoolsAreExhaustedInOrder(env, pools, t, index);
    ExcludedGrows(env, pools, t, at);
    AlwaysJustified(env, pools, t);
  }

  // ----- Replay state -----------------------------------------------------------------------------------

  ghost predicate FirstDispatch(t: Trace, i: nat) {
    i < |t| && t[i].Dispatched? && forall j :: 0 <= j < i ==> !t[j].Dispatched?
  }

  lemma {:induction false} FirstProviderIsRemembered(env: Environment, t: Trace, first: nat)
    requires FirstDispatch(t, first)
    ensures After(env.guarded, t).firstProvider == Some(t[first].route.0)
  {
    var before := t[..|t| - 1];
    if first < |before| {
      FirstProviderIsRemembered(env, before, first);
    } else {
      NothingRememberedYet(env, before);
    }
  }

  lemma {:induction false} NothingRememberedYet(env: Environment, t: Trace)
    requires NoDispatch(t)
    ensures After(env.guarded, t).firstProvider == None
  {
    if t != [] {
      NothingRememberedYet(env, t[..|t| - 1]);
    }
  }

  /** Opaque replay state of the conversation goes to the provider dispatched first and is stripped
      for every other one. */
  lemma SanitizedIffOtherProvider(env: Environment, pools: seq<string>, t: Trace, first: nat, i: nat)
    requires Legal(env, pools, t) && FirstDispatch(t, first) && i < |t| && t[i].Dispatched?
    ensures t[i].sanitized <==> t[i].route.0 != t[first].route.0
  {
    hide Legal, After;
    EachFollows(env, pools, t, i);
    if first < i {
      FirstProviderIsRemembered(env, t[..i], first);
    } else {
      NothingRememberedYet(env, t[..i]);
    }
  }
}
