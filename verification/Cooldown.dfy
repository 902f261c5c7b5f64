/** Cooldown deadlines per model, per provider and per capacity group. */
module Cooldown {
  import opened Options

  const MAX_COOLDOWN_SECS: int := 30 * 86400

  type Route = (string, string)

  /** `global` is a circuit over all routes; nothing in the gateway sets it. */
  datatype Deadlines = Deadlines(models: map<Route, int>, providers: map<string, int>, groups: map<string, int>, global: Option<int>)

  const NO_DEADLINES: Deadlines := Deadlines(map[], map[], map[], None)

  function Min(a: int, b: int): int { if a < b then a else b }

  /** Keeps the later of the stored deadline and a new one. */
  function Extend(m: map<string, int>, key: string, until: int): map<string, int> {
    if key in m && m[key] >= until then m else m[key := until]
  }

  /** Deadlines after a cooldown of one route.  `scoped` are the providers whose limits are kept
      per model; an empty model stands for the whole provider. */
  function Cooled(d: Deadlines, scoped: string -> bool, provider: string, model: string, seconds: int, now: int): Deadlines {
    if seconds <= 0 then d
    else
      var until := now + Min(seconds, MAX_COOLDOWN_SECS);
      var models := d.models[(provider, model) := until];
      if model == "" || !scoped(provider)
      then d.(models := models, providers := Extend(d.providers, provider, until))
      else d.(models := models)
  }

  function CooledGroup(d: Deadlines, group: string, seconds: int, now: int): Deadlines {
    if group == "" || seconds <= 0 then d
    else d.(groups := Extend(d.groups, group, now + Min(seconds, MAX_COOLDOWN_SECS)))
  }

  predicate Active<K>(m: map<K, int>, key: K, now: int) {
    key in m && now < m[key]
  }

  /** The global circuit or the shared capacity group of the route is in cooldown.  `groupOf` maps a
      route to its group. */
  predicate CapacityCooldown(d: Deadlines, groupOf: Route -> Option<string>, route: Route, now: int) {
    || (d.global.Some? && now < d.global.value)
    || (groupOf(route).Some? && groupOf(route).value != "" && Active(d.groups, groupOf(route).value, now))
  }

  /** A route is in cooldown if its capacity, it itself, or its whole provider is. */
  predicate InCooldown(d: Deadlines, groupOf: Route -> Option<string>, route: Route, now: int) {
    CapacityCooldown(d, groupOf, route, now) || Active(d.models, route, now) || Active(d.providers, route.0, now)
  }

  class CooldownTracker {
    const scoped: string -> bool
    const groupOf: Route -> Option<string>
    var cooldowns: map<Route, int>
    var providerDefault: map<string, int>
    var groupCooldowns: map<string, int>
    var globalCooldown: Option<int>

    constructor (scoped: string -> bool, groupOf: Route -> Option<string>)
      ensures this.scoped == scoped && this.groupOf == groupOf && State() == NO_DEADLINES
    {
      this.scoped, this.groupOf := scoped, groupOf;
      cooldowns, providerDefault, groupCooldowns, globalCooldown := map[], map[], map[], None;
    }

    function State(): Deadlines
      reads this
    {
      Deadlines(cooldowns, providerDefault, groupCooldowns, globalCooldown)
    }

    method Cooldown(provider: string, model: string, seconds: int, now: int)
      modifies this
      ensures State() == Cooled(old(State()), scoped, provider, model, seconds, now)
    {
      if seconds <= 0 {
        return;
      }
      var until := now + Min(seconds, MAX_COOLDOWN_SECS);
      cooldowns := cooldowns[(provider, model) := until];
      if model == "" || !scoped(provider) {
        if provider !in providerDefault || providerDefault[provider] < until {
          providerDefault := providerDefault[provider := until];
        }
      }
    }

    method CooldownGroup(group: string, seconds: int, now: int)
      modifies this
      ensures State() == CooledGroup(old(State()), group, seconds, now)
    {
      if group == "" || seconds <= 0 {
        return;
      }
      var until := now + Min(seconds, MAX_COOLDOWN_SECS);
      if group !in groupCooldowns || groupCooldowns[group] < until {
        groupCooldowns := groupCooldowns[group := until];
      }
    }

    method Clear(provider: string, model: string)
      modifies this
      ensures State() == old(State()).(models := old(cooldowns) - {(provider, model)})
    {
      cooldowns := cooldowns - {(provider, model)};
    }

    method IsCooldown(provider: string, model: string, now: int) returns (active: bool)
      ensures active <==> InCooldown(State(), groupOf, (provider, model), now)
    {
      var route := (provider, model);
      if globalCooldown.Some? && now < globalCooldown.value {
        return true;
      }
      var group := groupOf(route);
      if group.Some? && group.value != "" && group.value in groupCooldowns && now < groupCooldowns[group.value] {
        return true;
      }
      if route in cooldowns && now < cooldowns[route] {
        return true;
      }
      active := provider in providerDefault && now < providerDefault[provider];
    }
  }

  // ----- Runs -----------------------------------------------------------------------------------

  datatype Event =
    | CoolRoute(provider: string, model: string, seconds: int, now: int)
    | CoolGroup(group: string, seconds: int, now: int)
    | ClearRoute(provider: string, model: string)

  function Next(scoped: string -> bool, d: Deadlines, e: Event): Deadlines {
    match e
    case CoolRoute(provider, model, seconds, now) => Cooled(d, scoped, provider, model, seconds, now)
    case CoolGroup(group, seconds, now) => CooledGroup(d, group, seconds, now)
    case ClearRoute(provider, model) => d.(models := d.models - {(provider, model)})
  }

  function After(scoped: string -> bool, run: seq<Event>): Deadlines {
    if run == [] then NO_DEADLINES else Next(scoped, After(scoped, run[..|run| - 1]), run[|run| - 1])
  }

  /** The event sets the deadline of the whole provider. */
  predicate SetsProvider(scoped: string -> bool, e: Event, provider: string) {
    e.CoolRoute? && e.provider == provider && e.seconds > 0 && (e.model == "" || !scoped(provider))
  }

  predicate SetsGroup(e: Event, group: string) {
    e.CoolGroup? && e.group == group && group != "" && e.seconds > 0
  }

  function Until(e: Event): int
    requires !e.ClearRoute?
  {
    e.now + if e.seconds < 30 * 24 * 60 * 60 then e.seconds else 30 * 24 * 60 * 60
  }

  /** The deadline kept for a key is the maximum over the events that set it. */
  ghost predicate IsLatest(m: map<string, int>, key: string, run: seq<Event>, sets: Event -> bool)
    requires forall e :: sets(e) ==> !e.ClearRoute?
  {
    && (key in m <==> exists i :: 0 <= i < |run| && sets(run[i]))
    && (key in m ==>
          && (exists i :: 0 <= i < |run| && sets(run[i]) && m[key] == Until(run[i]))
          && (forall i :: 0 <= i < |run| && sets(run[i]) ==> Until(run[i]) <= m[key]))
  }

  lemma LatestStep(m: map<string, int>, m': map<string, int>, key: string, before: seq<Event>, e: Event, sets: Event -> bool)
    requires forall x :: sets(x) ==> !x.ClearRoute?
    requires IsLatest(m, key, before, sets)
    requires if sets(e) then key in m' && m'[key] == (if key in m && m[key] >= Until(e) then m[key] else Until(e))
             else (key in m' <==> key in m) && (key in m ==> m'[key] == m[key])
    ensures IsLatest(m', key, before + [e], sets)
  {
    var run := before + [e];
    assert forall i :: 0 <= i < |before| ==> run[i] == before[i];
    assert run[|before|] == e;
    if key in m {
      var i :| 0 <= i < |before| && sets(before[i]) && m[key] == Until(before[i]);
      assert sets(run[i]) && m[key] == Until(run[i]);
    }
  }

  /** Over any run the provider-wide deadline is the latest of the deadlines its events asked for,
      each capped at thirty days: a later, shorter response never brings it forward. */
  lemma {:induction false} ProviderDeadlineIsLatest(scoped: string -> bool, run: seq<Event>, provider: string)
    ensures IsLatest(After(scoped, run).providers, provider, run, e => SetsProvider(scoped, e, provider))
  {
    if run != [] {
      var before, e := run[..|run| - 1], run[|run| - 1];
      ProviderDeadlineIsLatest(scoped, before, provider);
      assert run == before + [e];
      LatestStep(After(scoped, before).providers, After(scoped, run).providers, provider, before, e,
                 x => SetsProvider(scoped, x, provider));
    }
  }

  lemma {:induction false} GroupDeadlineIsLatest(scoped: string -> bool, run: seq<Event>, group: string)
    ensures IsLatest(After(scoped, run).groups, group, run, e => SetsGroup(e, group))
  {
    if run != [] {
      var before, e := run[..|run| - 1], run[|run| - 1];
      GroupDeadlineIsLatest(scoped, before, group);
      assert run == before + [e];
      LatestStep(After(scoped, before).groups, After(scoped, run).groups, group, before, e, x => SetsGroup(x, group));
    }
  }

  /** Hence a route is held back for the whole of every cooldown its provider was given: no later
      event, not even clearing the route, re-enables it early. */
  lemma NoEarlyReturn(scoped: string -> bool, groupOf: Route -> Option<string>, run: seq<Event>, i: nat, model: string, now: int)
    requires i < |run| && run[i].CoolRoute? && SetsProvider(scoped, run[i], run[i].provider) && now < Until(run[i])
    ensures InCooldown(After(scoped, run), groupOf, (run[i].provider, model), now)
  {
    var provider := run[i].provider;
    ProviderDeadlineIsLatest(scoped, run, provider);
    var sets := e => SetsProvider(scoped, e, provider);
    assert sets(run[i]);
  }

  // ----- The deadline of one model ------------------------------------------------------------------

  predicate SetsModel(e: Event, route: Route) {
    e.CoolRoute? && (e.provider, e.model) == route && e.seconds > 0
  }

  predicate ClearsModel(e: Event, route: Route) {
    e.ClearRoute? && (e.provider, e.model) == route
  }

  /** The deadline of a model is the one its last event asked for: there is one exactly when some event
      set it and none cleared it since, and then it is that of the last one that set it, not the
      latest. */
  lemma {:induction false} ModelDeadlineIsLast(scoped: string -> bool, run: seq<Event>, route: Route, i: nat)
    requires i < |run| && (SetsModel(run[i], route) || ClearsModel(run[i], route))
    requires forall j :: i < j < |run| ==> !SetsModel(run[j], route) && !ClearsModel(run[j], route)
    ensures var models := After(scoped, run).models;
            && (route in models <==> SetsModel(run[i], route))
            && (SetsModel(run[i], route) ==> models[route] == Until(run[i]))
  {
    var before := run[..|run| - 1];
    if i < |before| {
      ModelDeadlineIsLast(scoped, before, route, i);
    }
  }

  lemma {:induction false} NoDeadlineUnlessSet(scoped: string -> bool, run: seq<Event>, route: Route)
    requires forall j :: 0 <= j < |run| ==> !SetsModel(run[j], route)
    ensures route !in After(scoped, run).models
  {
    if run != [] {
      NoDeadlineUnlessSet(scoped, run[..|run| - 1], route);
    }
  }

  /** Event i puts a deadline that stands to an earlier moment. */
  ghost predicate MovesBack(scoped: string -> bool, run: seq<Event>, i: nat, route: Route)
    requires i < |run|
  {
    var before, after := After(scoped, run[..i]).models, After(scoped, run[..i + 1]).models;
    route in before && route in after && after[route] < before[route]
  }

  predicate Touches(e: Event, route: Route) {
    SetsModel(e, route) || ClearsModel(e, route)
  }

  /** Events i and j set the deadline of the route one after the other, with no event for it in between. */
  ghost predicate Consecutive(run: seq<Event>, i: int, j: int, route: Route) {
    && 0 <= i < j < |run| && SetsModel(run[i], route) && SetsModel(run[j], route)
    && forall n :: i < n < j ==> !Touches(run[n], route)
  }

  /** The last event of the run for a route, -1 when there is none. */
  function LastTouch(run: seq<Event>, route: Route): (i: int)
    ensures -1 <= i < |run| && (i >= 0 ==> Touches(run[i], route))
    ensures forall n :: i < n < |run| ==> !Touches(run[n], route)
  {
    if run == [] then -1
    else if Touches(run[|run| - 1], route) then |run| - 1
    else LastTouch(run[..|run| - 1], route)
  }

  /** An event moves a deadline back exactly when it asks for less than the event before it did that set
      the deadline and was not cleared since. */
  lemma MovesBackIff(scoped: string -> bool, run: seq<Event>, j: nat, route: Route)
    requires j < |run|
    ensures MovesBack(scoped, run, j, route) <==> exists i :: Consecutive(run, i, j, route) && Until(run[j]) < Until(run[i])
  {
    var before := run[..j];
    assert run[..j + 1][..j] == before;
    assert After(scoped, run[..j + 1]) == Next(scoped, After(scoped, before), run[j]);
    var i := LastTouch(before, route);
    if i < 0 {
      NoDeadlineUnlessSet(scoped, before, route);
    } else {
      ModelDeadlineIsLast(scoped, before, route, i);
      assert before[i] == run[i];
    }
    forall n | Consecutive(run, n, j, route) ensures n == i {
      assert before[n] == run[n];
    }
    if MovesBack(scoped, run, j, route) {
      assert forall n :: i < n < j ==> run[n] == before[n];
      assert Consecutive(run, i, j, route);
    }
  }

  /** Over a whole run the deadline of a model never moves back exactly when no event that sets it asks
      for less than the previous one that set it, unless it was cleared in between. */
  lemma NeverMovesBackIff(scoped: string -> bool, run: seq<Event>, route: Route)
    ensures (forall j :: 0 <= j < |run| ==> !MovesBack(scoped, run, j, route))
            <==> (forall i, j :: Consecutive(run, i, j, route) ==> Until(run[j]) >= Until(run[i]))
  {
    forall j | 0 <= j < |run|
      ensures MovesBack(scoped, run, j, route) <==> exists i :: Consecutive(run, i, j, route) && Until(run[j]) < Until(run[i])
    {
      MovesBackIff(scoped, run, j, route);
    }
  }

  /** What an event does to a route that is being held back at a later moment: it lets the route go
      early exactly when it sets or clears the deadline of the model itself, by that moment, and
      neither the provider nor the capacity holds the route then. */
  lemma EarlyReturnIff(scoped: string -> bool, groupOf: Route -> Option<string>, d: Deadlines, e: Event, route: Route, asked: int)
    requires InCooldown(d, groupOf, route, asked)
    ensures !InCooldown(Next(scoped, d, e), groupOf, route, asked) <==>
            && ((SetsModel(e, route) && Until(e) <= asked) || ClearsModel(e, route))
            && !Active(d.providers, route.0, asked) && !CapacityCooldown(d, groupOf, route, asked)
  {
  }

  /** For instance: on a model-scoped provider a shorter response brings the model back early. */
  lemma ModelDeadlineIsOverwritten(scoped: string -> bool, groupOf: Route -> Option<string>, provider: string, model: string,
                                   long: int, short: int, now: int)
    requires scoped(provider) && model != "" && 0 < short < long && short < MAX_COOLDOWN_SECS
    requires groupOf((provider, model)) == None
    ensures var run := [CoolRoute(provider, model, long, now), CoolRoute(provider, model, short, now)];
            && !InCooldown(After(scoped, run), groupOf, (provider, model), now + short)
            && InCooldown(After(scoped, run[..1]), groupOf, (provider, model), now + short)
  {
    var a, b := CoolRoute(provider, model, long, now), CoolRoute(provider, model, short, now);
    assert [a, b][..1] == [a] && [a][..0] == [];
    assert After(scoped, [a]) == Next(scoped, NO_DEADLINES, a);
  }

  /** A cooldown of a named model of a model-scoped provider changes the status of that model and of
      no other route. */
  lemma SiblingsUnaffected(d: Deadlines, scoped: string -> bool, groupOf: Route -> Option<string>, provider: string, model: string,
                           seconds: int, now: int, other: Route, asked: int)
    requires scoped(provider) && model != "" && other != (provider, model)
    ensures InCooldown(Cooled(d, scoped, provider, model, seconds, now), groupOf, other, asked)
            <==> InCooldown(d, groupOf, other, asked)
  {
  }

  // ----- The status of a route, told by its events ----------------------------------------------------

  /** Some event gave the route's whole provider a cooldown that still runs. */
  ghost predicate ProviderHeld(scoped: string -> bool, run: seq<Event>, provider: string, now: int) {
    exists i :: 0 <= i < |run| && SetsProvider(scoped, run[i], provider) && now < Until(run[i])
  }

  /** Some event gave its capacity group one. */
  ghost predicate GroupHeld(run: seq<Event>, group: Option<string>, now: int) {
    group.Some? && exists i :: 0 <= i < |run| && SetsGroup(run[i], group.value) && now < Until(run[i])
  }

  /** The last event for the route itself gave it one, and it was not cleared. */
  ghost predicate ModelHeld(run: seq<Event>, route: Route, now: int) {
    var i := LastTouch(run, route);
    i >= 0 && SetsModel(run[i], route) && now < Until(run[i])
  }

  /** In every run a route is held back exactly while its group, its provider or the route itself is: the
      first two by any of their cooldowns, the last by its latest event alone. */
  lemma HeldIff(scoped: string -> bool, groupOf: Route -> Option<string>, run: seq<Event>, route: Route, now: int)
    ensures InCooldown(After(scoped, run), groupOf, route, now) <==>
            GroupHeld(run, groupOf(route), now) || ModelHeld(run, route, now) || ProviderHeld(scoped, run, route.0, now)
  {
    hide After, LastTouch;
    var d := After(scoped, run);
    NoGlobalCircuit(scoped, run);
    var sets := e => SetsProvider(scoped, e, route.0);
    ProviderDeadlineIsLatest(scoped, run, route.0);
    LatestHeld(d.providers, route.0, run, sets, now);
    assert Active(d.providers, route.0, now) <==> ProviderHeld(scoped, run, route.0, now);
    if groupOf(route).Some? {
      var group := groupOf(route).value;
      var setsGroup := e => SetsGroup(e, group);
      GroupDeadlineIsLatest(scoped, run, group);
      LatestHeld(d.groups, group, run, setsGroup, now);
      assert Active(d.groups, group, now) <==> GroupHeld(run, Some(group), now);
    }
    var i := LastTouch(run, route);
    if i >= 0 {
      ModelDeadlineIsLast(scoped, run, route, i);
    } else {
      NoDeadlineUnlessSet(scoped, run, route);
    }
  }

  lemma LatestHeld(m: map<string, int>, key: string, run: seq<Event>, sets: Event -> bool, now: int)
    requires forall e :: sets(e) ==> !e.ClearRoute?
    requires IsLatest(m, key, run, sets)
    ensures Active(m, key, now) <==> exists i :: 0 <= i < |run| && sets(run[i]) && now < Until(run[i])
  {
  }

  lemma {:induction false} NoGlobalCircuit(scoped: string -> bool, run: seq<Event>)
    ensures After(scoped, run).global == None
  {
    if run != [] {
      NoGlobalCircuit(scoped, run[..|run| - 1]);
    }
  }
}
