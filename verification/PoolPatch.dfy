/** PATCH of a pool: parse If-Match, read the pool, merge the body over it, write it back under
    the generation precondition, while any other writers commit in between. */
module PoolPatch {
  import opened Options
  import opened ConfigStore

  type ClientId = nat

  /** The body of a PATCH: the fields it carries. */
  datatype Body = Body(
    models: Option<seq<string>>,
    contextWindow: Option<int>,
    zdr: Option<bool>,
    warmupSecs: Option<int>,
    autoCatalog: Option<bool>,
    heavyweightOnly: Option<bool>,
    requireToolQualification: Option<bool>,
    autoCatalogProviders: Option<seq<string>>,
    fallbackPools: Option<seq<string>>)

  function Or<T>(field: Option<T>, existing: T): T {
    if field.Some? then field.value else existing
  }

  function Merge(existing: Pool, b: Body): Pool {
    Pool(Or(b.models, existing.models), Or(b.contextWindow, existing.contextWindow), Or(b.zdr, existing.zdr),
         Or(b.warmupSecs, existing.warmupSecs), Or(b.autoCatalog, existing.autoCatalog),
         Or(b.heavyweightOnly, existing.heavyweightOnly),
         Or(b.requireToolQualification, existing.requireToolQualification),
         Or(b.autoCatalogProviders, existing.autoCatalogProviders), Or(b.fallbackPools, existing.fallbackPools))
  }

  /** A PATCH request: before its read it knows its If-Match value, after it the pool it read.
      `observed` tells whether the If-Match value had been a generation of this database by the
      time the request came in, as opposed to a number the client made up. */
  datatype Patch =
    | Received(name: Name, body: Body, expected: Option<nat>, observed: bool)
    | Fetched(name: Name, body: Body, expected: Option<nat>, observed: bool, existing: Pool, readAt: nat)

  /** `history[g]` is the content of the tables as committed at generation g. */
  datatype World = World(db: Db, history: seq<Tables>, patches: map<ClientId, Patch>)

  datatype Action =
    | Write(w: ConfigStore.Write)
    | Receive(id: ClientId, name: Name, body: Body, expected: Option<nat>)
    | Fetch(id: ClientId)
    | Store(id: ClientId)

  const START: World := World(Db(0, EMPTY_TABLES), [EMPTY_TABLES], map[])

  function Record(s: World, db: Db): World {
    s.(db := db, history := if db == s.db then s.history else s.history + [db.tables])
  }

  function PatchWrite(p: Patch): ConfigStore.Write
    requires p.Fetched?
  {
    PutPool(p.name, Merge(p.existing, p.body), p.expected)
  }

  function Next(s: World, a: Action): World {
    match a
    case Write(w) => Record(s, Commit(s.db, w))
    case Receive(id, name, body, expected) =>
      if id in s.patches then s
      else s.(patches := s.patches[id := Received(name, body, expected,
                                                  expected.Some? && expected.value <= s.db.generation)])
    case Fetch(id) =>
      if id !in s.patches || !s.patches[id].Received? then s
      else
        var p := s.patches[id];
        if p.name !in s.db.tables.pools then s.(patches := s.patches - {id})
        else s.(patches := s.patches[id := Fetched(p.name, p.body, p.expected, p.observed,
                                                   Normalize(s.db.tables.pools[p.name]), s.db.generation)])
    case Store(id) =>
      if id !in s.patches || !s.patches[id].Fetched? then s
      else Record(s, Commit(s.db, PatchWrite(s.patches[id]))).(patches := s.patches - {id})
  }

  function Reach(run: seq<Action>): World {
    if run == [] then START else Next(Reach(run[..|run| - 1]), run[|run| - 1])
  }

  /** The generation counts the commits, the history is faithful, and what a request fetched is the
      pool of the generation it was fetched at. */
  ghost predicate Faithful(s: World) {
    && |s.history| == s.db.generation + 1
    && s.history[0] == EMPTY_TABLES
    && s.history[s.db.generation] == s.db.tables
    && forall id :: id in s.patches ==> FaithfulPatch(s, s.patches[id])
  }

  ghost predicate FaithfulPatch(s: World, p: Patch) {
    && (p.observed ==> p.expected.Some? && p.expected.value <= s.db.generation)
    && (p.Fetched? ==>
          && p.readAt <= s.db.generation < |s.history|
          && p.name in s.history[p.readAt].pools && p.existing == Normalize(s.history[p.readAt].pools[p.name])
          && (p.observed ==> p.expected.value <= p.readAt))
  }

  lemma FaithfulStep(s: World, a: Action)
    requires Faithful(s)
    ensures Faithful(Next(s, a))
    ensures Next(s, a).db == s.db ==> Next(s, a).history == s.history
    ensures Next(s, a).db != s.db ==> Next(s, a).db.generation == s.db.generation + 1
  {
    var t := Next(s, a);
    forall id | id in t.patches ensures FaithfulPatch(t, t.patches[id]) {
      if id in s.patches {
        assert FaithfulPatch(s, s.patches[id]);
      }
    }
  }

  lemma {:induction false} AlwaysFaithful(run: seq<Action>)
    ensures Faithful(Reach(run))
  {
    if run != [] {
      AlwaysFaithful(run[..|run| - 1]);
      FaithfulStep(Reach(run[..|run| - 1]), run[|run| - 1]);
    }
  }

  lemma StoreUnderObservedGeneration(s: World, id: ClientId)
    requires Faithful(s) && id in s.patches && s.patches[id].Fetched? && s.patches[id].observed
    requires Next(s, Store(id)).db != s.db
    ensures var p := s.patches[id]; var after := Next(s, Store(id));
            && p.expected == Some(s.db.generation) && p.readAt == s.db.generation < |s.history|
            && after.db == Db(s.db.generation + 1,
                 s.db.tables.(pools := s.db.tables.pools[p.name := Normalize(Merge(p.existing, p.body))]))
            && after.history == s.history + [after.db.tables]
  {
    assert FaithfulPatch(s, s.patches[id]);
  }

  /** Zeros are replaced before they are stored, so no pool of any generation holds one. */
  ghost predicate NoZeros(pools: map<Name, Pool>) {
    forall n :: n in pools ==> pools[n].contextWindow != 0 && pools[n].warmupSecs != 0
  }

  ghost predicate NoZerosEver(s: World) {
    NoZeros(s.db.tables.pools) && forall g :: 0 <= g < |s.history| ==> NoZeros(s.history[g].pools)
  }

  lemma NoZerosCommit(db: Db, w: ConfigStore.Write)
    requires NoZeros(db.tables.pools)
    ensures NoZeros(Commit(db, w).tables.pools)
  {
    hide PurgedOauth, Swapped;
  }

  lemma {:induction false} StoredPoolsHaveNoZeros(run: seq<Action>)
    ensures NoZerosEver(Reach(run))
  {
    hide NoZeros, Commit, Merge;
    if run == [] {
      assert NoZeros(map[]) by { NoPoolsNoZeros(); }
    } else {
      var s, a := Reach(run[..|run| - 1]), run[|run| - 1];
      StoredPoolsHaveNoZeros(run[..|run| - 1]);
      match a
      case Write(w) => NoZerosCommit(s.db, w);
      case Store(id) =>
        if id in s.patches && s.patches[id].Fetched? {
          NoZerosCommit(s.db, PatchWrite(s.patches[id]));
        }
      case _ =>
    }
  }

  lemma NoPoolsNoZeros()
    ensures NoZeros(map[])
  {
  }

  /** Each of the nine fields is the one the body carries, or else the one from before; a zero in the
      body stands for the default. */
  predicate Overridden(before: Pool, body: Body, after: Pool) {
    && (match body.models case Some(v) => after.models == v case None => after.models == before.models)
    && (match body.contextWindow
        case Some(v) => after.contextWindow == (if v == 0 then 128000 else v)
        case None => after.contextWindow == before.contextWindow)
    && (match body.zdr case Some(v) => after.zdr == v case None => after.zdr == before.zdr)
    && (match body.warmupSecs
        case Some(v) => after.warmupSecs == (if v == 0 then 300 else v)
        case None => after.warmupSecs == before.warmupSecs)
    && (match body.autoCatalog case Some(v) => after.autoCatalog == v case None => after.autoCatalog == before.autoCatalog)
    && (match body.heavyweightOnly
        case Some(v) => after.heavyweightOnly == v
        case None => after.heavyweightOnly == before.heavyweightOnly)
    && (match body.requireToolQualification
        case Some(v) => after.requireToolQualification == v
        case None => after.requireToolQualification == before.requireToolQualification)
    && (match body.autoCatalogProviders
        case Some(v) => after.autoCatalogProviders == v
        case None => after.autoCatalogProviders == before.autoCatalogProviders)
    && (match body.fallbackPools
        case Some(v) => after.fallbackPools == v
        case None => after.fallbackPools == before.fallbackPools)
  }

  lemma MergeOverrides(before: Pool, body: Body)
    requires before.contextWindow != 0 && before.warmupSecs != 0
    ensures Overridden(before, body, Normalize(Merge(Normalize(before), body)))
  {
  }

  /** A PATCH that commits stores, field by field, what its body says over the pool as committed at the
      generation it read, and changes nothing else. */
  lemma PatchOverridesWhatItRead(run: seq<Action>, id: ClientId, s: World, p: Patch)
    requires s == Reach(run) && id in s.patches && s.patches[id] == p && p.Fetched? && Next(s, Store(id)).db != s.db
    ensures p.readAt < |s.history| && p.name in s.history[p.readAt].pools
    ensures var after := Next(s, Store(id)).db;
            && after.generation == s.db.generation + 1
            && p.name in after.tables.pools
            && Overridden(s.history[p.readAt].pools[p.name], p.body, after.tables.pools[p.name])
            && after.tables == s.db.tables.(pools := s.db.tables.pools[p.name := after.tables.pools[p.name]])
  {
    hide Reach, Overridden, Merge, Normalize;
    AlwaysFaithful(run);
    assert FaithfulPatch(s, p);
    StoredPoolsHaveNoZeros(run);
    MergeOverrides(s.history[p.readAt].pools[p.name], p.body);
  }

  /** A PATCH that commits under an observed If-Match generation g stores, field by field, what its body
      says over the pool as committed at g, and that pool was still in place when it committed: no
      concurrent update is lost, and nothing else changes. */
  lemma ObservedPatchLosesNothing(run: seq<Action>, id: ClientId, s: World, p: Patch, g: nat)
    requires s == Reach(run) && id in s.patches && s.patches[id] == p && p.Fetched? && p.observed
    requires p.expected == Some(g) && Next(s, Store(id)).db != s.db
    ensures g == s.db.generation < |s.history| && s.db.tables == s.history[g] && p.name in s.history[g].pools
    ensures var after := Next(s, Store(id));
            && p.name in after.db.tables.pools
            && Overridden(s.history[g].pools[p.name], p.body, after.db.tables.pools[p.name])
            && after.db == Db(g + 1, s.history[g].(pools := s.history[g].pools[p.name := after.db.tables.pools[p.name]]))
            && after.history == s.history + [after.db.tables]
  {
    hide Reach, Overridden, Merge, Normalize;
    AlwaysFaithful(run);
    assert FaithfulPatch(s, p);
    PatchOverridesWhatItRead(run, id, s, p);
    StoreUnderObservedGeneration(s, id);
  }

  /** A PATCH that finds no pool of its name is over: it writes nothing, then or later, unless it is sent
      again. */
  lemma {:induction false} MissingPoolEndsPatch(run: seq<Action>, id: ClientId, from: nat)
    requires from < |run| && run[from] == Fetch(id)
    requires var s := Reach(run[..from]);
             id in s.patches && s.patches[id].Received? && s.patches[id].name !in s.db.tables.pools
    requires forall k :: from < k < |run| ==> !(run[k].Receive? && run[k].id == id)
    ensures id !in Reach(run).patches && Next(Reach(run), Store(id)) == Reach(run)
    decreases |run|
  {
    hide Commit, Merge;
    var before := run[..|run| - 1];
    if from == |before| {
      assert run[..from] == before;
    } else {
      assert before[..from] == run[..from];
      MissingPoolEndsPatch(before, id, from);
    }
  }

  /** A commit overwrites an update it has not seen. */
  ghost predicate LosesUpdate(s: World, id: ClientId) {
    && id in s.patches && s.patches[id].Fetched? && Next(s, Store(id)).db != s.db
    && (s.patches[id].name !in s.db.tables.pools
        || Normalize(s.db.tables.pools[s.patches[id].name]) != s.patches[id].existing)
  }

  /** A request with this If-Match value, which was no generation of this database when the request
      came in, loses an update in some run. */
  ghost predicate CanLoseUnobserved(expected: Option<nat>) {
    exists run, id :: LosesUpdate(Reach(run), id)
                      && Reach(run).patches[id].expected == expected && !Reach(run).patches[id].observed
  }

  /** An observed If-Match is a protection; of the others, exactly these are not: none at all, or a
      number of two or more that the client guessed ahead of time.  A guessed 1 protects all the
      same, because nothing can change between the first commit and the write that expects it, and 0 is
      always observed. */
  lemma UnobservedPatchCanLoseIff(expected: Option<nat>)
    ensures CanLoseUnobserved(expected) <==> expected == None || expected.value >= 2
  {
    if expected == None {
      GuessLoses(expected, 2);
    } else if expected.value >= 2 {
      GuessLoses(expected, expected.value);
    } else {
      forall run, id | id in Reach(run).patches && Reach(run).patches[id].expected == expected && !Reach(run).patches[id].observed
        ensures !LosesUpdate(Reach(run), id)
      {
        SmallGuessProtects(run, id);
      }
    }
  }

  /** A write goes through under a precondition only at the generation it names. */
  lemma StoredAtExpected(s: World, id: ClientId)
    requires id in s.patches && s.patches[id].Fetched? && s.patches[id].expected.Some?
    requires Next(s, Store(id)).db != s.db
    ensures s.patches[id].expected == Some(s.db.generation)
  {
    hide Merge, Normalize;
  }

  lemma SmallGuessProtects(run: seq<Action>, id: ClientId)
    requires id in Reach(run).patches && !Reach(run).patches[id].observed
    requires Reach(run).patches[id].expected.Some? && Reach(run).patches[id].expected.value <= 1
    ensures !LosesUpdate(Reach(run), id)
  {
    hide Reach, Next, Normalize;
    AlwaysFaithful(run);
    var s := Reach(run);
    if s.patches[id].Fetched? && Next(s, Store(id)).db != s.db {
      StoredAtExpected(s, id);
      assert FaithfulPatch(s, s.patches[id]);
    }
  }

  const SAMPLE: Pool := Pool([], 1, false, 1, false, false, false, [], [])

  const NO_CHANGE: Body := Body(None, None, None, None, None, None, None, None, None)

  /** A request that names its If-Match value too early, reads a first pool, and is then overtaken by
      writes of a second one until the generation is the one it names. */
  function Overtaken(expected: Option<nat>, generation: nat): seq<Action>
    requires generation >= 1
  {
    if generation == 1 then [Receive(0, "q", NO_CHANGE, expected), Write(PutPool("q", SAMPLE, None)), Fetch(0)]
    else Overtaken(expected, generation - 1) + [Write(PutPool("q", SAMPLE.(contextWindow := 2), None))]
  }

  lemma ReachSnoc(run: seq<Action>, a: Action)
    ensures Reach(run + [a]) == Next(Reach(run), a)
  {
    assert (run + [a])[..|run|] == run;
  }

  ghost predicate OvertakenBy(s: World, expected: Option<nat>, generation: nat, current: Pool) {
    && s.db.generation == generation && s.db.tables.pools == map["q" := current]
    && s.patches == map[0 := Fetched("q", NO_CHANGE, expected, false, SAMPLE, 1)]
  }

  lemma FirstFetch(expected: Option<nat>)
    requires expected.Some? ==> expected.value > 0
    ensures OvertakenBy(Reach(Overtaken(expected, 1)), expected, 1, SAMPLE)
  {
    hide Reach;
    var a, b, c := Receive(0, "q", NO_CHANGE, expected), Write(PutPool("q", SAMPLE, None)), Fetch(0);
    assert Reach([]) == START by { NothingYet(); }
    ReachSnoc([], a);
    ReachSnoc([a], b);
    ReachSnoc([a, b], c);
    assert [] + [a] == [a] && [a] + [b] == [a, b] && [a, b] + [c] == Overtaken(expected, 1);
  }

  lemma NothingYet()
    ensures Reach([]) == START
  {
  }

  lemma {:induction false} OvertakenState(expected: Option<nat>, generation: nat)
    requires generation >= 1 && (expected.Some? ==> expected.value > 0)
    ensures OvertakenBy(Reach(Overtaken(expected, generation)), expected, generation,
                        if generation == 1 then SAMPLE else SAMPLE.(contextWindow := 2))
  {
    hide Reach;
    if generation == 1 {
      FirstFetch(expected);
    } else {
      OvertakenState(expected, generation - 1);
      ReachSnoc(Overtaken(expected, generation - 1), Write(PutPool("q", SAMPLE.(contextWindow := 2), None)));
    }
  }

  lemma GuessLoses(expected: Option<nat>, generation: nat)
    requires generation >= 2 && (expected == None || expected == Some(generation))
    ensures CanLoseUnobserved(expected)
  {
    hide Reach;
    OvertakenState(expected, generation);
    var s := Reach(Overtaken(expected, generation));
    assert Merge(SAMPLE, NO_CHANGE) == SAMPLE;
    assert LosesUpdate(s, 0) && s.patches[0].expected == expected && !s.patches[0].observed;
  }

  /** Put another way, an observed If-Match rules lost updates out in every run. */
  lemma ObservedPatchNeverLoses(run: seq<Action>, id: ClientId)
    requires id in Reach(run).patches && Reach(run).patches[id].observed
    ensures !LosesUpdate(Reach(run), id)
  {
    AlwaysFaithful(run);
    var s := Reach(run);
    assert FaithfulPatch(s, s.patches[id]);
    if LosesUpdate(s, id) {
      StoreUnderObservedGeneration(s, id);
      assert false;
    }
  }

  /** What a PUT stored is what a GET returns, and an empty PATCH changes no field. */
  lemma PatchRoundTrip(db: Db, name: Name, pool: Pool)
    requires name != "" && (name == "code" ==> pool.models != [] || pool.fallbackPools != [])
    ensures var stored := Commit(db, PutPool(name, pool, None));
            && name in stored.tables.pools
            && Normalize(stored.tables.pools[name]) == stored.tables.pools[name]
            && var keep := Body(None, None, None, None, None, None, None, None, None);
               Merge(Normalize(stored.tables.pools[name]), keep) == stored.tables.pools[name]
  {
  }
}
