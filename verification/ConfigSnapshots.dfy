/** The in-process snapshot under concurrent reloads and writers.

    A reload reads the generation in one transaction and then the six tables one statement at a
    time; between any two of its steps other reloads may publish and writers may commit. */
module ConfigSnapshots {
  import opened Options
  import opened ConfigStore

  type ReloadId = nat

  /** A reload under way: the generation it read, how many tables it has read since, and the
      configuration overlaid so far. */
  datatype Reload = Asked(generation: nat) | Reading(generation: nat, done: nat, config: Config)

  datatype World = World(db: Db, loaded: bool, stamp: nat, config: Config, reloads: map<ReloadId, Reload>)

  datatype Action =
    | Write(w: ConfigStore.Write)
    | AskGeneration(id: ReloadId)
    | Decide(id: ReloadId)
    | ReadTable(id: ReloadId)
    | Publish(id: ReloadId)

  const TABLE_COUNT: nat := 6

  function Start(db: Db, fallback: Config): World {
    World(db, false, 0, fallback, map[])
  }

  /** The statement number `n` of a reload overlays the n-th table as it is now. */
  function Overlay(n: nat, cfg: Config, t: Tables): Config {
    if n == 0 then OverlayProviders(cfg, t.providers)
    else if n == 1 then OverlaySettings(cfg, t.settings)
    else if n == 2 then OverlayApiKeys(cfg, t.apiKeys)
    else if n == 3 then OverlayPools(cfg, t.pools)
    else if n == 4 then OverlayCredentials(cfg, t.oauth)
    else OverlayClientKeys(cfg, t.clientKeys)
  }

  /** What the first n statements yield when the tables stand still. */
  function Overlaid(n: nat, fallback: Config, t: Tables): Config {
    if n == 0 then fallback else Overlay(n - 1, Overlaid(n - 1, fallback, t), t)
  }

  lemma OverlaidIsProjection(fallback: Config, t: Tables)
    ensures Overlaid(TABLE_COUNT, fallback, t) == Project(fallback, t)
  {
    assert Overlaid(1, fallback, t) == OverlayProviders(fallback, t.providers);
    assert Overlaid(2, fallback, t) == OverlaySettings(Overlaid(1, fallback, t), t.settings);
    assert Overlaid(3, fallback, t) == OverlayApiKeys(Overlaid(2, fallback, t), t.apiKeys);
    assert Overlaid(4, fallback, t) == OverlayPools(Overlaid(3, fallback, t), t.pools);
  }

  function Next(fallback: Config, s: World, a: Action): World {
    match a
    case Write(w) => s.(db := Commit(s.db, w))
    case AskGeneration(id) => if id in s.reloads then s else s.(reloads := s.reloads[id := Asked(s.db.generation)])
    case Decide(id) =>
      if id !in s.reloads || !s.reloads[id].Asked? then s
      else if s.loaded && s.reloads[id].generation == s.stamp then s.(reloads := s.reloads - {id})
      else s.(reloads := s.reloads[id := Reading(s.reloads[id].generation, 0, fallback)])
    case ReadTable(id) =>
      if id !in s.reloads || !s.reloads[id].Reading? || s.reloads[id].done >= TABLE_COUNT then s
      else
        var r := s.reloads[id];
        s.(reloads := s.reloads[id := r.(done := r.done + 1, config := Overlay(r.done, r.config, s.db.tables))])
    case Publish(id) =>
      if id !in s.reloads || !s.reloads[id].Reading? || s.reloads[id].done != TABLE_COUNT then s
      else World(s.db, true, s.reloads[id].generation, s.reloads[id].config, s.reloads - {id})
  }

  function Reach(fallback: Config, db: Db, run: seq<Action>): World {
    if run == [] then Start(db, fallback) else Next(fallback, Reach(fallback, db, run[..|run| - 1]), run[|run| - 1])
  }

  /** A reload that still carries the database's generation has read nothing but the current tables. */
  ghost predicate FreshReload(fallback: Config, db: Db, r: Reload) {
    && r.generation <= db.generation
    && (r.Reading? ==> r.done <= TABLE_COUNT
                       && (r.generation == db.generation ==> r.config == Overlaid(r.done, fallback, db.tables)))
  }

  ghost predicate Honest(fallback: Config, s: World) {
    && (s.loaded ==> s.stamp <= s.db.generation
                     && (s.stamp == s.db.generation ==> s.config == Project(fallback, s.db.tables)))
    && forall id :: id in s.reloads ==> FreshReload(fallback, s.db, s.reloads[id])
  }

  lemma CommitBumpsOnChange(db: Db, w: ConfigStore.Write)
    ensures Commit(db, w) == db || Commit(db, w).generation == db.generation + 1
  {
  }

  lemma HonestStep(fallback: Config, s: World, a: Action)
    requires Honest(fallback, s)
    ensures Honest(fallback, Next(fallback, s, a))
  {
    match a
    case Write(w) => CommitBumpsOnChange(s.db, w);
    case AskGeneration(id) =>
    case Decide(id) =>
    case ReadTable(id) =>
    case Publish(id) => OverlaidIsProjection(fallback, s.db.tables);
  }

  /** Whenever the store is loaded and its generation equals the database's, its configuration is
      the projection of the current tables, whatever reloads and writers did on the way. */
  lemma {:induction false} EqualGenerationMeansCurrent(fallback: Config, db: Db, run: seq<Action>)
    ensures Honest(fallback, Reach(fallback, db, run))
    ensures var s := Reach(fallback, db, run);
            s.loaded && s.stamp == s.db.generation ==> s.config == Project(fallback, s.db.tables)
  {
    if run != [] {
      EqualGenerationMeansCurrent(fallback, db, run[..|run| - 1]);
      HonestStep(fallback, Reach(fallback, db, run[..|run| - 1]), run[|run| - 1]);
    }
  }

  /** A reload that ran between two writes without interruption leaves the snapshot current, from
      any reachable state: it is skipped only when the snapshot is current already. */
  lemma QuietReloadConverges(fallback: Config, db: Db, run: seq<Action>, id: ReloadId)
    requires id !in Reach(fallback, db, run).reloads
    ensures var s := AfterActions(fallback, Reach(fallback, db, run), WholeReload(id));
            s.loaded && s.stamp == s.db.generation && s.db == Reach(fallback, db, run).db
            && s.config == Project(fallback, s.db.tables)
  {
    hide Project, Reach;
    var s0 := Reach(fallback, db, run);
    EqualGenerationMeansCurrent(fallback, db, run);
    var s1 := Next(fallback, s0, AskGeneration(id));
    var s2 := Next(fallback, s1, Decide(id));
    assert WholeReload(id)[2..] == Reads(id) && WholeReload(id)[1..][1..] == Reads(id);
    if s0.loaded && s0.stamp == s0.db.generation {
      FinishedReloadIsInert(fallback, s2, id, Reads(id));
    } else {
      ReadsComplete(fallback, s2, id, 0);
    }
  }

  function AfterActions(fallback: Config, s: World, actions: seq<Action>): World
    decreases |actions|
  {
    if actions == [] then s else AfterActions(fallback, Next(fallback, s, actions[0]), actions[1..])
  }

  function Reads(id: ReloadId): seq<Action> {
    [ReadTable(id), ReadTable(id), ReadTable(id), ReadTable(id), ReadTable(id), ReadTable(id), Publish(id)]
  }

  function WholeReload(id: ReloadId): seq<Action> {
    [AskGeneration(id), Decide(id)] + Reads(id)
  }

  lemma {:induction false} FinishedReloadIsInert(fallback: Config, s: World, id: ReloadId, actions: seq<Action>)
    requires id !in s.reloads
    requires forall i :: 0 <= i < |actions| ==> actions[i] == ReadTable(id) || actions[i] == Publish(id)
    ensures AfterActions(fallback, s, actions) == s
    decreases |actions|
  {
    if actions != [] {
      FinishedReloadIsInert(fallback, s, id, actions[1..]);
    }
  }

  lemma {:induction false} ReadsComplete(fallback: Config, s: World, id: ReloadId, n: nat)
    requires n <= TABLE_COUNT && id in s.reloads
    requires s.reloads[id] == Reading(s.db.generation, n, Overlaid(n, fallback, s.db.tables))
    ensures var t := AfterActions(fallback, s, Reads(id)[n..]);
            t.loaded && t.db == s.db && t.stamp == s.db.generation && t.config == Project(fallback, s.db.tables)
    decreases TABLE_COUNT - n
  {
    if n == TABLE_COUNT {
      OverlaidIsProjection(fallback, s.db.tables);
      assert Reads(id)[n..] == [Publish(id)];
    } else {
      assert Reads(id)[n..][0] == ReadTable(id) && Reads(id)[n..][1..] == Reads(id)[n + 1..];
      ReadsComplete(fallback, Next(fallback, s, ReadTable(id)), id, n + 1);
    }
  }

  lemma {:induction false} ReachAppend(fallback: Config, db: Db, run: seq<Action>, more: seq<Action>)
    ensures Reach(fallback, db, run + more) == AfterActions(fallback, Reach(fallback, db, run), more)
    decreases |more|
  {
    if more == [] {
      assert run + more == run;
    } else {
      var longer := run + [more[0]];
      assert longer[..|longer| - 1] == run && longer + more[1..] == run + more;
      ReachAppend(fallback, db, longer, more[1..]);
    }
  }

  /** The actions of a reload that two writers overtake after its first table. */
  function Overtaken(provider: string, pool: Pool): seq<Action> {
    [AskGeneration(0), Decide(0), ReadTable(0), Write(PutProvider("p", provider)), Write(PutPool("q", pool, None))]
  }

  lemma OvertakenState(fallback: Config, provider: string, pool: Pool)
    ensures var s := AfterActions(fallback, Start(Db(0, EMPTY_TABLES), fallback), Overtaken(provider, pool));
            && s.db.generation == 2 && s.reloads == map[0 := Reading(0, 1, fallback)]
            && s.db.tables == EMPTY_TABLES.(providers := map["p" := provider], pools := map["q" := Normalize(pool)])
  {
    var actions := Overtaken(provider, pool);
    var s0 := Start(Db(0, EMPTY_TABLES), fallback);
    var s1 := Next(fallback, s0, actions[0]);
    var s2 := Next(fallback, s1, actions[1]);
    var s3 := Next(fallback, s2, actions[2]);
    assert s3.reloads == map[0 := Reading(0, 1, fallback)] && s3.db == s0.db;
    var s4 := Next(fallback, s3, actions[3]);
    var s5 := Next(fallback, s4, actions[4]);
    assert actions[1..][1..] == actions[2..] && actions[2..][1..] == actions[3..] && actions[3..][1..] == actions[4..];
    assert actions[4..] == [actions[4]];
    assert AfterActions(fallback, s4, actions[4..]) == s5;
    assert AfterActions(fallback, s3, actions[3..]) == AfterActions(fallback, s4, actions[4..]);
    assert AfterActions(fallback, s2, actions[2..]) == AfterActions(fallback, s3, actions[3..]);
    assert AfterActions(fallback, s1, actions[1..]) == AfterActions(fallback, s2, actions[2..]);
  }

  lemma {:induction false} OvertakenReads(fallback: Config, s: World, n: nat)
    requires n <= TABLE_COUNT && 0 in s.reloads && s.reloads[0].Reading? && s.reloads[0].done == n
    requires s.reloads[0].generation == 0 && n >= 1
    requires s.reloads[0].config.providers == map[] && (n >= 4 ==> "q" in s.reloads[0].config.pools)
    requires "q" in s.db.tables.pools
    ensures var t := AfterActions(fallback, s, Reads(0)[n..]);
            t.loaded && t.db == s.db && t.stamp == 0 && t.config.providers == map[] && "q" in t.config.pools
    decreases TABLE_COUNT - n
  {
    if n == TABLE_COUNT {
      assert Reads(0)[n..] == [Publish(0)];
    } else {
      assert Reads(0)[n..][0] == ReadTable(0) && Reads(0)[n..][1..] == Reads(0)[n + 1..];
      OvertakenReads(fallback, Next(fallback, s, ReadTable(0)), n + 1);
    }
  }

  lemma NothingReached(fallback: Config, db: Db)
    ensures Reach(fallback, db, []) == Start(db, fallback)
  {
  }

  lemma ProjectedNames(fallback: Config, t: Tables)
    requires fallback.providers == map[] && fallback.pools == map[]
    ensures "p" in t.providers ==> "p" in Project(fallback, t).providers
    ensures "q" !in t.pools ==> "q" !in Project(fallback, t).pools
  {
  }

  /** A snapshot can mix two generations of the tables.  Its generation then lags behind the
      database's, and the next reload reads the tables again. */
  lemma TornSnapshotKeepsOldGeneration(fallback: Config, provider: string, pool: Pool)
    requires fallback.providers == map[] && fallback.pools == map[]
    ensures exists run ::
              var s := Reach(fallback, Db(0, EMPTY_TABLES), run);
              && s.loaded && s.stamp < s.db.generation
              && s.config != Project(fallback, EMPTY_TABLES) && s.config != Project(fallback, s.db.tables)
  {
    hide Project, Next, Overtaken, Reach;
    var db := Db(0, EMPTY_TABLES);
    var before := Overtaken(provider, pool);
    assert Reach(fallback, db, []) == Start(db, fallback) by { NothingReached(fallback, db); }
    ReachAppend(fallback, db, [], before);
    assert [] + before == before;
    OvertakenState(fallback, provider, pool);
    ReachAppend(fallback, db, before, Reads(0)[1..]);
    OvertakenReads(fallback, Reach(fallback, db, before), 1);
    var s := Reach(fallback, db, before + Reads(0)[1..]);
    ProjectedNames(fallback, s.db.tables);
    ProjectedNames(fallback, EMPTY_TABLES);
  }
}
