/** Applying configuration generations: the poll loop, the admin hook, the startup hook and the
    query methods, which all touch the one field that remembers the last generation.

    A configuration is any value; `Buildable` says whether a pool manager can be constructed from
    it.  A reload of the store is taken as one step here; module ConfigSnapshots takes it apart. */
module ConfigRuntime {
  import opened Options

  type Config = string

  /** `history[g]` is the configuration committed as generation g.  `published` is what the
      application serves, `applied` the last generation whose apply went through: a history
      variable no method reads. */
  datatype World = World(
    history: seq<Config>,
    storeLoaded: bool,
    storeGeneration: nat,
    storeConfig: Config,
    generation: nat,
    lastGood: Option<Config>,
    published: Config,
    applied: nat)

  /** `up`: the store could be reached.  `late`: a step after publication failed. */
  datatype Action =
    | Commit(config: Config)
    | RefreshStore(up: bool)
    | Query(up: bool)
    | Poll(up: bool, late: bool)
    | AdminReload(up: bool, late: bool)
    | Initialize(up: bool, late: bool)

  function Current(s: World): nat
    requires s.history != []
  {
    |s.history| - 1
  }

  function Reloaded(s: World): World
    requires s.history != []
  {
    s.(storeLoaded := true, storeGeneration := Current(s), storeConfig := s.history[Current(s)])
  }

  /** The application of the loaded snapshot: validate, publish, then rebuild the rest. */
  predicate ApplySucceeds(buildable: Config -> bool, s: World, late: bool) {
    buildable(s.storeConfig) && !late
  }

  function Applied(buildable: Config -> bool, s: World, late: bool): World {
    if !buildable(s.storeConfig) then s
    else s.(published := s.storeConfig, applied := if late then s.applied else s.storeGeneration)
  }

  function Queried(s: World, up: bool): World
    requires s.history != []
  {
    var t := if !s.storeLoaded && up then Reloaded(s) else s;
    if t.storeLoaded then t.(generation := t.storeGeneration, lastGood := Some(t.storeConfig)) else t
  }

  function Next(buildable: Config -> bool, s: World, a: Action): World
    requires s.history != []
  {
    match a
    case Commit(config) => s.(history := s.history + [config])
    case RefreshStore(up) => if up then Reloaded(s) else s
    case Query(up) => Queried(s, up)
    case Poll(up, late) =>
      if !up then s
      else
        var t := Reloaded(s);
        if t.storeGeneration == s.generation then t
        else
          var u := Applied(buildable, t, late);
          if ApplySucceeds(buildable, t, late) then u.(generation := t.storeGeneration) else u
    case AdminReload(up, late) => if !up then s else Applied(buildable, Queried(Reloaded(s), up), late)
    case Initialize(up, late) =>
      if !up then s
      else
        var t := Reloaded(s);
        Applied(buildable, t.(generation := t.storeGeneration), late)
  }

  function Start(initial: Config, environment: Config): World {
    World([initial], false, 0, environment, 0, None, environment, 0)
  }

  function Reach(buildable: Config -> bool, initial: Config, environment: Config, run: seq<Action>): (s: World)
    ensures s.history != []
  {
    if run == [] then Start(initial, environment)
    else Next(buildable, Reach(buildable, initial, environment, run[..|run| - 1]), run[|run| - 1])
  }

  datatype ReloadResult = Done | Unavailable | Raised

  // ----- The runtime object ---------------------------------------------------------------

  /** The runtime together with the store it watches and the application it publishes to. */
  class Runtime {
    const buildable: Config -> bool
    var history: seq<Config>
    var storeLoaded: bool
    var storeGeneration: nat
    var storeConfig: Config
    var generation: nat
    var lastGood: Option<Config>
    var published: Config
    var applied: nat

    constructor (buildable: Config -> bool, initial: Config, environment: Config)
      ensures this.buildable == buildable && State() == Start(initial, environment)
    {
      this.buildable := buildable;
      history := [initial];
      storeLoaded, storeGeneration, storeConfig := false, 0, environment;
      generation, lastGood, published, applied := 0, None, environment, 0;
    }

    function State(): World
      reads this
    {
      World(history, storeLoaded, storeGeneration, storeConfig, generation, lastGood, published, applied)
    }

    method ReloadStore()
      requires history != []
      modifies this
      ensures State() == Reloaded(old(State()))
    {
      storeLoaded, storeGeneration, storeConfig := true, |history| - 1, history[|history| - 1];
    }

    /** Nothing is published unless the pool manager could be built. */
    method Apply(late: bool) returns (ok: bool)
      modifies this
      ensures State() == Applied(buildable, old(State()), late)
      ensures ok == ApplySucceeds(buildable, old(State()), late)
    {
      if !buildable(storeConfig) {
        return false;
      }
      published := storeConfig;
      if late {
        return false;
      }
      applied := storeGeneration;
      ok := true;
    }

    method RuntimeConfig(fallback: Config, up: bool) returns (config: Config)
      requires history != []
      modifies this
      ensures State() == Queried(old(State()), up)
      ensures config == if storeLoaded then storeConfig else if lastGood.Some? then lastGood.value else fallback
    {
      if !storeLoaded && up {
        ReloadStore();
      }
      if !storeLoaded {
        return if lastGood.Some? then lastGood.value else fallback;
      }
      generation := storeGeneration;
      lastGood := Some(storeConfig);
      config := storeConfig;
    }

    method PollOnce(up: bool, late: bool)
      requires history != []
      modifies this
      ensures State() == Next(buildable, old(State()), Poll(up, late))
    {
      if !up {
        return;
      }
      var oldGeneration := generation;
      ReloadStore();
      var newGeneration := storeGeneration;
      if newGeneration != oldGeneration {
        var ok := Apply(late);
        if ok {
          generation := newGeneration;
        }
      }
    }

    /** A failed apply is raised to the caller, with the generation already remembered. */
    method ApplyReload(up: bool, late: bool) returns (r: ReloadResult)
      requires history != []
      modifies this
      ensures State() == Next(buildable, old(State()), AdminReload(up, late))
      ensures r == Unavailable <==> !up
      ensures r == Done ==> applied == generation == |history| - 1 && published == history[|history| - 1]
      ensures r == Raised ==> generation == |history| - 1 && applied == old(applied)
                              && (buildable(history[|history| - 1]) ==> late)
    {
      if !up {
        return Unavailable;
      }
      ReloadStore();
      generation := storeGeneration;
      var _ := RuntimeConfig(published, up);
      var ok := Apply(late);
      r := if ok then Done else Raised;
    }

    method InitializeOnce(up: bool, late: bool) returns (ok: bool)
      requires history != []
      modifies this
      ensures State() == Next(buildable, old(State()), Initialize(up, late))
      ensures ok ==> applied == generation == |history| - 1 && published == history[|history| - 1]
    {
      if !up {
        return false;
      }
      ReloadStore();
      generation := storeGeneration;
      ok := Apply(late);
    }
  }

  // ----- Last good ------------------------------------------------------------------------

  /** The published configuration is the one the process started with or a committed one from which a
      pool manager was built, and the store shows the generation it is labelled with. */
  ghost predicate LastGood(buildable: Config -> bool, environment: Config, s: World) {
    && s.history != []
    && (s.published == environment || (buildable(s.published) && s.published in s.history))
    && (s.storeLoaded ==> s.storeGeneration <= Current(s) && s.storeConfig == s.history[s.storeGeneration])
    && (!s.storeLoaded ==> s.storeConfig == environment)
  }

  lemma LastGoodStep(buildable: Config -> bool, environment: Config, s: World, a: Action)
    requires LastGood(buildable, environment, s)
    ensures LastGood(buildable, environment, Next(buildable, s, a))
  {
  }

  /** In every run the published configuration is the one the process started with or one from
      which a pool manager was built, and it is a committed one. */
  lemma {:induction false} PublishedIsLastGood(buildable: Config -> bool, initial: Config, environment: Config, run: seq<Action>)
    ensures LastGood(buildable, environment, Reach(buildable, initial, environment, run))
  {
    if run != [] {
      PublishedIsLastGood(buildable, initial, environment, run[..|run| - 1]);
      LastGoodStep(buildable, environment, Reach(buildable, initial, environment, run[..|run| - 1]), run[|run| - 1]);
    }
  }

  /** A query, by itself or in a reload, that finds the store loaded. */
  predicate SeesStore(s: World, a: Action) {
    match a
    case Query(up) => s.storeLoaded || up
    case AdminReload(up, _) => up
    case _ => false
  }

  ghost predicate EverSeen(buildable: Config -> bool, initial: Config, environment: Config, run: seq<Action>) {
    && run != []
    && (EverSeen(buildable, initial, environment, run[..|run| - 1])
        || SeesStore(Reach(buildable, initial, environment, run[..|run| - 1]), run[|run| - 1]))
  }

  /** There is a remembered configuration exactly when such a query was made, and it is never called upon:
      from then on the store is loaded, and a query answers from the store. */
  lemma {:induction false} LastGoodIsSeen(buildable: Config -> bool, initial: Config, environment: Config, run: seq<Action>)
    ensures var s := Reach(buildable, initial, environment, run);
            && (s.lastGood.Some? <==> EverSeen(buildable, initial, environment, run))
            && (s.lastGood.Some? ==> s.storeLoaded && s.lastGood.value in s.history)
  {
    hide Next, SeesStore, LastGood;
    if run != [] {
      var before, a := run[..|run| - 1], run[|run| - 1];
      LastGoodIsSeen(buildable, initial, environment, before);
      PublishedIsLastGood(buildable, initial, environment, before);
      SeeingIsRemembering(buildable, environment, Reach(buildable, initial, environment, before), a);
    }
  }

  lemma SeeingIsRemembering(buildable: Config -> bool, environment: Config, s: World, a: Action)
    requires LastGood(buildable, environment, s) && (s.lastGood.Some? ==> s.storeLoaded && s.lastGood.value in s.history)
    ensures var t := Next(buildable, s, a);
            && (t.lastGood.Some? <==> s.lastGood.Some? || SeesStore(s, a))
            && (t.lastGood.Some? ==> t.storeLoaded && t.lastGood.value in t.history)
            && (SeesStore(s, a) ==> t.lastGood == Some(t.storeConfig))
  {
  }

  // ----- Retrying a failed generation -------------------------------------------------------

  /** The current generation is not remembered unless it was applied. */
  predicate Retried(s: World)
    requires s.history != []
  {
    s.generation == Current(s) ==> s.applied == Current(s)
  }

  /** That is what the retry depends on: a poll that reaches the store, meets a buildable current
      configuration and has no late failure leaves the current generation applied exactly then. */
  lemma NextPollAppliesIff(buildable: Config -> bool, s: World)
    requires s.history != [] && buildable(s.history[Current(s)])
    ensures Next(buildable, s, Poll(true, false)).applied == Current(s) <==> Retried(s)
    ensures s.generation != Current(s) ==> Next(buildable, s, Poll(true, false)).published == s.history[Current(s)]
    ensures var t := Next(buildable, s, Poll(true, false));
            t.storeLoaded && t.storeGeneration == Current(s) && t.storeConfig == s.history[Current(s)]
  {
  }

  /** What holds in every run: no generation is ahead of the committed ones, and what was published last
      is at least as new as what was applied last. */
  ghost predicate Bounded(s: World) {
    && s.history != []
    && s.generation <= Current(s) && s.applied <= Current(s)
    && (s.storeLoaded ==> s.generation <= s.storeGeneration <= Current(s) && s.storeConfig == s.history[s.storeGeneration])
    && (!s.storeLoaded ==> s.generation == 0 && s.applied == 0)
    && (s.applied == 0 || exists k :: s.applied <= k <= Current(s) && s.published == s.history[k])
  }

  lemma BoundedStep(buildable: Config -> bool, s: World, a: Action)
    requires Bounded(s)
    ensures Bounded(Next(buildable, s, a))
  {
    var t := Next(buildable, s, a);
    if t.published == t.history[Current(t)] {
    } else if s.applied != 0 {
      var k :| s.applied <= k <= Current(s) && s.published == s.history[k];
      assert t.published == t.history[k];
    }
  }

  lemma {:induction false} AlwaysBounded(buildable: Config -> bool, initial: Config, environment: Config, run: seq<Action>)
    ensures Bounded(Reach(buildable, initial, environment, run))
  {
    if run != [] {
      AlwaysBounded(buildable, initial, environment, run[..|run| - 1]);
      BoundedStep(buildable, Reach(buildable, initial, environment, run[..|run| - 1]), run[|run| - 1]);
    }
  }

  /** A step remembers the current generation without applying it: a query that finds the store showing
      it, or loads the store, or a reload or a start whose apply fails. */
  predicate RemembersUnapplied(buildable: Config -> bool, s: World, a: Action)
    requires s.history != []
  {
    s.applied != Current(s)
    && match a
       case Query(up) => if s.storeLoaded then s.storeGeneration == Current(s) else up
       case AdminReload(up, late) => up && !(buildable(s.history[Current(s)]) && !late)
       case Initialize(up, late) => up && !(buildable(s.history[Current(s)]) && !late)
       case _ => false
  }

  /** A step loses the retry exactly when it is such a step.  A query that remembers an older generation
      does no harm, nor does a poll whose apply fails. */
  lemma KeepsRetriedIff(buildable: Config -> bool, s: World, a: Action)
    requires Bounded(s) && Retried(s)
    ensures Retried(Next(buildable, s, a)) <==> !RemembersUnapplied(buildable, s, a)
  {
  }

  /** A commit, or a reload or start that applies the current configuration. */
  predicate RestoresRetry(buildable: Config -> bool, s: World, a: Action)
    requires s.history != []
  {
    match a
    case Commit(_) => true
    case AdminReload(up, late) => up && buildable(s.history[Current(s)]) && !late
    case Initialize(up, late) => up && buildable(s.history[Current(s)]) && !late
    case _ => false
  }

  /** A step brings a lost retry back exactly when it is such a step; a poll never does. */
  lemma RestoresRetryIff(buildable: Config -> bool, s: World, a: Action)
    requires Bounded(s) && !Retried(s)
    ensures Retried(Next(buildable, s, a)) <==> RestoresRetry(buildable, s, a)
  {
  }

  /** No step of the run since the last one that restores the retry remembered the current generation
      unapplied. */
  ghost predicate RetryKept(buildable: Config -> bool, initial: Config, environment: Config, run: seq<Action>) {
    run != [] ==>
      var s, a := Reach(buildable, initial, environment, run[..|run| - 1]), run[|run| - 1];
      RestoresRetry(buildable, s, a)
      || (RetryKept(buildable, initial, environment, run[..|run| - 1]) && !RemembersUnapplied(buildable, s, a))
  }

  lemma {:induction false} RetriedIffKept(buildable: Config -> bool, initial: Config, environment: Config, run: seq<Action>)
    ensures Retried(Reach(buildable, initial, environment, run)) <==> RetryKept(buildable, initial, environment, run)
  {
    if run != [] {
      var before, a := run[..|run| - 1], run[|run| - 1];
      var s := Reach(buildable, initial, environment, before);
      RetriedIffKept(buildable, initial, environment, before);
      AlwaysBounded(buildable, initial, environment, before);
      if Retried(s) {
        KeepsRetriedIff(buildable, s, a);
        if RestoresRetry(buildable, s, a) {
          RestoredIsNotLost(buildable, s, a);
        }
      } else {
        RestoresRetryIff(buildable, s, a);
      }
    }
  }

  lemma RestoredIsNotLost(buildable: Config -> bool, s: World, a: Action)
    requires s.history != [] && RestoresRetry(buildable, s, a)
    ensures !RemembersUnapplied(buildable, s, a)
  {
  }

  /** A generation that is not applied yet, because its apply failed or was never tried, is applied
      by the next poll that can, in a given run, exactly when no step since the last that restores the
      retry remembered it unapplied.  The poll then leaves it published as well. */
  lemma FailedGenerationIsRetriedIff(buildable: Config -> bool, initial: Config, environment: Config, run: seq<Action>)
    requires var s := Reach(buildable, initial, environment, run); buildable(s.history[Current(s)])
    ensures var s := Reach(buildable, initial, environment, run);
            var t := Next(buildable, s, Poll(true, false));
            && (t.applied == Current(t) == Current(s) <==> RetryKept(buildable, initial, environment, run))
            && (t.applied == Current(s) != 0 ==> t.published == t.history[Current(t)])
  {
    hide Reach;
    RetriedIffKept(buildable, initial, environment, run);
    AlwaysBounded(buildable, initial, environment, run);
    var s := Reach(buildable, initial, environment, run);
    NextPollAppliesIff(buildable, s);
    if s.generation == Current(s) && s.applied != 0 {
      var k :| s.applied <= k <= Current(s) && s.published == s.history[k];
    }
  }

  /** In particular in every run in which only the poll applies anything. */
  lemma {:induction false} PollOnlyRunsQualify(buildable: Config -> bool, initial: Config, environment: Config, run: seq<Action>)
    requires forall i :: 0 <= i < |run| ==> run[i].Commit? || run[i].RefreshStore? || run[i].Poll?
    ensures RetryKept(buildable, initial, environment, run)
  {
    if run != [] {
      PollOnlyRunsQualify(buildable, initial, environment, run[..|run| - 1]);
    }
  }

  /** With other writers around it need not be: a query that loads the store between the commit and the
      poll makes every later poll skip the generation, buildable as it may be. */
  lemma QueryHidesGeneration(buildable: Config -> bool, initial: Config, environment: Config, config: Config, polls: seq<Action>)
    requires forall i :: 0 <= i < |polls| ==> polls[i].Poll?
    ensures var s := Reach(buildable, initial, environment, [Commit(config), Query(true)] + polls);
            s.published == environment && s.applied == 0 && Current(s) == 1 && s.history[1] == config && s.generation == 1
    decreases |polls|
  {
    var run := [Commit(config), Query(true)] + polls;
    if polls == [] {
      assert run[..1] == [Commit(config)] && run[..1][..0] == [];
      assert run[..|run| - 1] == run[..1];
      assert Reach(buildable, initial, environment, run[..1])
          == Next(buildable, Start(initial, environment), Commit(config));
    } else {
      QueryHidesGeneration(buildable, initial, environment, config, polls[..|polls| - 1]);
      assert run[..|run| - 1] == [Commit(config), Query(true)] + polls[..|polls| - 1];
    }
  }
}
