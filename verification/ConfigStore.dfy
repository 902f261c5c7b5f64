/** The database behind the configuration store, the store's transactions and its snapshot.

    Table contents the store only passes on are kept as text; pools and OAuth credentials, which
    it takes apart, are records. */
module ConfigStore {
  import opened Options

  type Name = string

  datatype Pool = Pool(
    models: seq<string>,
    contextWindow: int,
    zdr: bool,
    warmupSecs: int,
    autoCatalog: bool,
    heavyweightOnly: bool,
    requireToolQualification: bool,
    autoCatalogProviders: seq<string>,
    fallbackPools: seq<string>)

  datatype Settings = Settings(enabled: bool, disabledProvider: bool, passthroughDisabled: bool)

  /** `grants` stands for the scopes and the lists of what the key may use. */
  datatype ClientKey = ClientKey(principal: string, tenant: string, grants: string, apiKey: string, revoked: bool)

  datatype Identity = Identity(principal: string, tenant: string, grants: string)

  /** A credential is identified by its refresh token and client id; `rest` is everything else. */
  datatype Credential = Credential(refreshToken: Option<string>, clientId: Option<string>, expiresAt: Option<int>, rest: string)

  datatype Tables = Tables(
    providers: map<Name, string>,
    settings: map<Name, Settings>,
    apiKeys: map<Name, string>,
    pools: map<Name, Pool>,
    oauth: map<Name, seq<Credential>>,
    clientKeys: map<Name, ClientKey>)

  const EMPTY_TABLES: Tables := Tables(map[], map[], map[], map[], map[], map[])

  datatype Db = Db(generation: nat, tables: Tables)

  datatype Result =
    | Ok
    | NotFound
    | Invalid
    | GenerationConflict

  datatype Write =
    | PutProvider(name: Name, definition: string)
    | DeleteProvider(name: Name)
    | PutSettings(name: Name, value: Settings)
    | PutApiKey(name: Name, secret: string)
    | PutPool(name: Name, pool: Pool, expected: Option<nat>)
    | DeletePool(name: Name)
    | PutClientKey(fingerprint: Name, key: ClientKey)
    | RevokeClientKey(fingerprint: Name)
    | RotateClientKey(fingerprint: Name, newFingerprint: Name, newKey: string)
    | SwapCredential(provider: Name, want: Credential, replacement: Credential)
    | PurgeExpired(now: int)

  datatype Committed = Committed(db: Db, result: Result)

  // ----- Values ---------------------------------------------------------------------------

  /** Zero stands for "use the default" in a stored pool and in a request body alike. */
  function Normalize(p: Pool): Pool {
    p.(contextWindow := if p.contextWindow == 0 then 128000 else p.contextWindow,
       warmupSecs := if p.warmupSecs == 0 then 300 else p.warmupSecs)
  }

  predicate CredEqual(a: Credential, b: Credential) {
    a.refreshToken == b.refreshToken && a.clientId == b.clientId
  }

  predicate Expired(c: Credential, now: int) {
    c.expiresAt.Some? && c.expiresAt.value <= now
  }

  predicate Has(creds: seq<Credential>, want: Credential) {
    exists i :: 0 <= i < |creds| && CredEqual(creds[i], want)
  }

  function Swapped(creds: seq<Credential>, want: Credential, replacement: Credential): (r: seq<Credential>)
    ensures |r| == |creds|
    ensures forall i :: 0 <= i < |creds| ==> r[i] == if CredEqual(creds[i], want) then replacement else creds[i]
  {
    if creds == [] then []
    else [if CredEqual(creds[0], want) then replacement else creds[0]] + Swapped(creds[1..], want, replacement)
  }

  function Unexpired(creds: seq<Credential>, now: int): seq<Credential> {
    if creds == [] then []
    else if Expired(creds[0], now) then Unexpired(creds[1..], now)
    else [creds[0]] + Unexpired(creds[1..], now)
  }

  function PurgedOauth(oauth: map<Name, seq<Credential>>, now: int): map<Name, seq<Credential>> {
    map n | n in oauth :: Unexpired(oauth[n], now)
  }

  // ----- Transactions ---------------------------------------------------------------------

  /** The tables after a write that takes effect, None for one that leaves the database alone. */
  function Effect(db: Db, w: Write): Option<Tables> {
    var t := db.tables;
    match w
    case PutProvider(name, definition) => Some(t.(providers := t.providers[name := definition]))
    case DeleteProvider(name) => if name in t.providers then Some(t.(providers := t.providers - {name})) else None
    case PutSettings(name, value) => Some(t.(settings := t.settings[name := value]))
    case PutApiKey(name, secret) => Some(t.(apiKeys := t.apiKeys[name := secret]))
    case PutPool(name, pool, expected) =>
      if name == "" || (name == "code" && pool.models == [] && pool.fallbackPools == []) then None
      else if expected.Some? && expected.value != db.generation then None
      else Some(t.(pools := t.pools[name := Normalize(pool)]))
    case DeletePool(name) =>
      if name != "code" && name in t.pools then Some(t.(pools := t.pools - {name})) else None
    case PutClientKey(fp, key) => Some(t.(clientKeys := t.clientKeys[fp := key]))
    case RevokeClientKey(fp) =>
      if fp in t.clientKeys then Some(t.(clientKeys := t.clientKeys[fp := t.clientKeys[fp].(revoked := true)])) else None
    case RotateClientKey(fp, newFp, newKey) =>
      if fp in t.clientKeys && newFp !in t.clientKeys then
        Some(t.(clientKeys := t.clientKeys[newFp := t.clientKeys[fp].(apiKey := newKey, revoked := false)] - {fp}))
      else None
    case SwapCredential(provider, want, replacement) =>
      if provider !in t.oauth then Some(t.(oauth := t.oauth[provider := [replacement]]))
      else if Has(t.oauth[provider], want) then
        Some(t.(oauth := t.oauth[provider := Swapped(t.oauth[provider], want, replacement)]))
      else None
    case PurgeExpired(now) =>
      if PurgedOauth(t.oauth, now) != t.oauth then Some(t.(oauth := PurgedOauth(t.oauth, now))) else None
  }

  /** A write that takes effect bumps the generation once, in its own transaction. */
  function Commit(db: Db, w: Write): Db {
    var effect := Effect(db, w);
    if effect.Some? then Db(db.generation + 1, effect.value) else db
  }

  // ----- The snapshot ---------------------------------------------------------------------

  datatype Config = Config(
    providers: map<Name, string>,
    disabled: set<Name>,
    passthroughDisabled: set<Name>,
    apiKeys: map<Name, string>,
    pools: map<Name, Pool>,
    credentials: map<Name, seq<Credential>>,
    clientSecrets: set<string>,
    identities: map<Name, Identity>)

  /** What the snapshot shows of each table; an empty table leaves the fallback in place. */
  function OverlayProviders(f: Config, t: map<Name, string>): Config { if t == map[] then f else f.(providers := t) }

  function OverlaySettings(f: Config, t: map<Name, Settings>): Config {
    f.(disabled := f.disabled + (set n | n in t && (t[n].disabledProvider || !t[n].enabled)),
       passthroughDisabled := f.passthroughDisabled + (set n | n in t && t[n].passthroughDisabled))
  }

  function OverlayApiKeys(f: Config, t: map<Name, string>): Config { if t == map[] then f else f.(apiKeys := t) }

  function OverlayPools(f: Config, t: map<Name, Pool>): Config {
    if t == map[] then f else f.(pools := map n | n in t :: Normalize(t[n]))
  }

  function OverlayCredentials(f: Config, t: map<Name, seq<Credential>>): Config {
    if t == map[] then f else f.(credentials := t)
  }

  /** The identities of all keys with a principal and a tenant, revoked ones included. */
  function Identities(t: map<Name, ClientKey>): map<Name, Identity> {
    map n | n in t && t[n].principal != "" && t[n].tenant != "" :: Identity(t[n].principal, t[n].tenant, t[n].grants)
  }

  function OverlayClientKeys(f: Config, t: map<Name, ClientKey>): Config {
    f.(clientSecrets := f.clientSecrets + (set n | n in t && !t[n].revoked && t[n].apiKey != "" :: t[n].apiKey),
       identities := if Identities(t) == map[] then f.identities else Identities(t))
  }

  /** The configuration a consistent read of the tables yields. */
  function Project(fallback: Config, t: Tables): Config {
    OverlayClientKeys(OverlayCredentials(OverlayPools(OverlayApiKeys(OverlaySettings(OverlayProviders(
      fallback, t.providers), t.settings), t.apiKeys), t.pools), t.oauth), t.clientKeys)
  }

  // ----- The snapshot, entry by entry -------------------------------------------------------

  function Lookup<V>(m: map<Name, V>, name: Name): Option<V> { if name in m then Some(m[name]) else None }

  /** A table that has any row hides the fallback altogether. */
  ghost predicate ShowsTable<V(!new)>(fallback: map<Name, V>, table: map<Name, V>, shown: map<Name, V>) {
    forall name :: Lookup(shown, name) == if exists n :: n in table then Lookup(table, name) else Lookup(fallback, name)
  }

  /** A stored pool is shown with the defaults in place of zeros. */
  predicate ShowsPool(stored: Pool, shown: Pool) {
    && shown.models == stored.models && shown.zdr == stored.zdr && shown.autoCatalog == stored.autoCatalog
    && shown.heavyweightOnly == stored.heavyweightOnly
    && shown.requireToolQualification == stored.requireToolQualification
    && shown.autoCatalogProviders == stored.autoCatalogProviders && shown.fallbackPools == stored.fallbackPools
    && shown.contextWindow == (if stored.contextWindow != 0 then stored.contextWindow else 128000)
    && shown.warmupSecs == (if stored.warmupSecs != 0 then stored.warmupSecs else 300)
  }

  ghost predicate ShowsPools(fallback: map<Name, Pool>, table: map<Name, Pool>, shown: map<Name, Pool>) {
    if forall n :: n !in table then shown == fallback
    else forall n :: (n in shown <==> n in table) && (n in table ==> ShowsPool(table[n], shown[n]))
  }

  /** A key in the table that is not revoked carries this secret, and it is no empty one. */
  ghost predicate LiveSecret(keys: map<Name, ClientKey>, secret: string) {
    secret != "" && exists fp :: fp in keys && !keys[fp].revoked && keys[fp].apiKey == secret
  }

  /** The key has an identity: it names a principal and a tenant. */
  predicate Identified(keys: map<Name, ClientKey>, fp: Name) {
    fp in keys && keys[fp].principal != "" && keys[fp].tenant != ""
  }

  ghost predicate ShowsIdentities(fallback: map<Name, Identity>, keys: map<Name, ClientKey>, shown: map<Name, Identity>) {
    if forall fp :: !Identified(keys, fp) then shown == fallback
    else
      forall fp ::
        && (fp in shown <==> Identified(keys, fp))
        && (fp in shown ==> && shown[fp].principal == keys[fp].principal && shown[fp].tenant == keys[fp].tenant
                            && shown[fp].grants == keys[fp].grants)
  }

  ghost predicate ShowsSettings(fallback: Config, t: map<Name, Settings>, c: Config) {
    && (forall n :: n in c.disabled <==> n in fallback.disabled || (n in t && (t[n].disabledProvider || !t[n].enabled)))
    && (forall n :: n in c.passthroughDisabled <==>
          n in fallback.passthroughDisabled || (n in t && t[n].passthroughDisabled))
  }

  ghost predicate ShowsSecrets(fallback: Config, keys: map<Name, ClientKey>, c: Config) {
    forall s :: s in c.clientSecrets <==> s in fallback.clientSecrets || LiveSecret(keys, s)
  }

  /** Every lookup a caller can make in the configuration, in terms of the rows of the tables. */
  ghost predicate Shows(fallback: Config, t: Tables, c: Config) {
    && ShowsTable(fallback.providers, t.providers, c.providers)
    && ShowsTable(fallback.apiKeys, t.apiKeys, c.apiKeys)
    && ShowsTable(fallback.credentials, t.oauth, c.credentials)
    && ShowsPools(fallback.pools, t.pools, c.pools)
    && ShowsIdentities(fallback.identities, t.clientKeys, c.identities)
    && ShowsSettings(fallback, t.settings, c)
    && ShowsSecrets(fallback, t.clientKeys, c)
  }

  lemma TableShows<V(!new)>(fallback: map<Name, V>, table: map<Name, V>)
    ensures ShowsTable(fallback, table, if table == map[] then fallback else table)
  {
    if table != map[] {
      assert exists n :: n in table;
    }
  }

  lemma PoolsShow(fallback: Config, table: map<Name, Pool>)
    ensures ShowsPools(fallback.pools, table, OverlayPools(fallback, table).pools)
  {
    if table != map[] {
      assert exists n :: n in table;
    }
  }

  lemma IdentitiesShow(fallback: Config, keys: map<Name, ClientKey>)
    ensures ShowsIdentities(fallback.identities, keys, OverlayClientKeys(fallback, keys).identities)
  {
    assert forall fp :: fp in Identities(keys) <==> Identified(keys, fp);
    if Identities(keys) != map[] {
      assert exists fp :: fp in Identities(keys);
    }
  }

  lemma SettingsShow(fallback: Config, t: map<Name, Settings>)
    ensures ShowsSettings(fallback, t, OverlaySettings(fallback, t))
  {
  }

  lemma SecretsShow(fallback: Config, keys: map<Name, ClientKey>)
    ensures ShowsSecrets(fallback, keys, OverlayClientKeys(fallback, keys))
  {
  }

  /** Each overlay works on fields of its own. */
  lemma SettingsAreSeparate(f: Config, g: Config, t: map<Name, Settings>)
    requires f.disabled == g.disabled && f.passthroughDisabled == g.passthroughDisabled
    ensures OverlaySettings(g, t) == g.(disabled := OverlaySettings(f, t).disabled,
                                        passthroughDisabled := OverlaySettings(f, t).passthroughDisabled)
  {
  }

  lemma ProvidersAreSeparate(f: Config, t: map<Name, string>)
    ensures OverlayProviders(f, t) == f.(providers := OverlayProviders(f, t).providers)
  {
  }

  lemma ApiKeysAreSeparate(f: Config, g: Config, t: map<Name, string>)
    requires f.apiKeys == g.apiKeys
    ensures OverlayApiKeys(g, t) == g.(apiKeys := OverlayApiKeys(f, t).apiKeys)
  {
  }

  lemma CredentialsAreSeparate(f: Config, g: Config, t: map<Name, seq<Credential>>)
    requires f.credentials == g.credentials
    ensures OverlayCredentials(g, t) == g.(credentials := OverlayCredentials(f, t).credentials)
  {
  }

  lemma PoolsAreSeparate(f: Config, g: Config, t: map<Name, Pool>)
    requires f.pools == g.pools
    ensures OverlayPools(g, t) == g.(pools := OverlayPools(f, t).pools)
  {
    hide Normalize;
  }

  lemma ClientKeysAreSeparate(f: Config, g: Config, t: map<Name, ClientKey>)
    requires f.clientSecrets == g.clientSecrets && f.identities == g.identities
    ensures OverlayClientKeys(g, t) == g.(clientSecrets := OverlayClientKeys(f, t).clientSecrets,
                                          identities := OverlayClientKeys(f, t).identities)
  {
    hide Identities;
  }

  /** So every field of the projection is that of its own overlay of the fallback. */
  lemma ProjectFields(f: Config, t: Tables)
    ensures var c := Project(f, t);
            && c.providers == OverlayProviders(f, t.providers).providers
            && c.disabled == OverlaySettings(f, t.settings).disabled
            && c.passthroughDisabled == OverlaySettings(f, t.settings).passthroughDisabled
            && c.apiKeys == OverlayApiKeys(f, t.apiKeys).apiKeys
            && c.pools == OverlayPools(f, t.pools).pools
            && c.credentials == OverlayCredentials(f, t.oauth).credentials
            && c.clientSecrets == OverlayClientKeys(f, t.clientKeys).clientSecrets
            && c.identities == OverlayClientKeys(f, t.clientKeys).identities
  {
    hide OverlayProviders, OverlaySettings, OverlayApiKeys, OverlayPools, OverlayCredentials, OverlayClientKeys;
    var c1 := OverlayProviders(f, t.providers);
    ProvidersAreSeparate(f, t.providers);
    var c2 := OverlaySettings(c1, t.settings);
    SettingsAreSeparate(f, c1, t.settings);
    var c3 := OverlayApiKeys(c2, t.apiKeys);
    ApiKeysAreSeparate(f, c2, t.apiKeys);
    var c4 := OverlayPools(c3, t.pools);
    PoolsAreSeparate(f, c3, t.pools);
    var c5 := OverlayCredentials(c4, t.oauth);
    CredentialsAreSeparate(f, c4, t.oauth);
    ClientKeysAreSeparate(f, c5, t.clientKeys);
  }

  /** The projection is what the rows say, and nothing else. */
  lemma ProjectShows(fallback: Config, t: Tables)
    ensures Shows(fallback, t, Project(fallback, t))
  {
    hide ShowsTable, ShowsPools, ShowsIdentities, LiveSecret, Project, OverlaySettings, OverlayPools, OverlayClientKeys;
    ProjectFields(fallback, t);
    TableShows(fallback.providers, t.providers);
    TableShows(fallback.apiKeys, t.apiKeys);
    TableShows(fallback.credentials, t.oauth);
    PoolsShow(fallback, t.pools);
    IdentitiesShow(fallback, t.clientKeys);
    SettingsShow(fallback, t.settings);
    SecretsShow(fallback, t.clientKeys);
  }

  // ----- The objects ----------------------------------------------------------------------

  /** The database, shared by the stores of all processes. */
  class Database {
    var generation: nat
    var tables: Tables

    constructor ()
      ensures generation == 0 && tables == EMPTY_TABLES
    {
      generation := 0;
      tables := EMPTY_TABLES;
    }

    function Contents(): Db
      reads this
    {
      Db(generation, tables)
    }

    method BumpGeneration()
      modifies this`generation
      ensures generation == old(generation) + 1
    {
      generation := generation + 1;
    }
  }

  class Store {
    const database: Database
    const fallback: Config
    var loaded: bool
    var generation: nat
    var config: Config

    constructor (database: Database, fallback: Config)
      ensures this.database == database && this.fallback == fallback && !loaded && generation == 0 && Valid()
    {
      this.database := database;
      this.fallback := fallback;
      loaded, generation, config := false, 0, fallback;
    }

    /** The snapshot shows the database as it is. */
    ghost predicate Current()
      reads this, database
    {
      loaded && generation == database.generation && config == Project(fallback, database.tables)
    }

    /** The snapshot is never ahead of the database, and an equal label means equal content. */
    ghost predicate Valid()
      reads this, database
    {
      loaded ==> generation <= database.generation && (generation == database.generation ==> Current())
    }

    /** A reload nobody interrupts.  It trusts an equal generation and skips the tables. */
    method ReloadNow() returns (changed: bool)
      requires Valid()
      modifies this
      ensures Current() && Valid() && Shows(fallback, database.tables, config)
      ensures changed <==> !(old(loaded) && old(generation) == database.generation)
    {
      hide Shows;
      ProjectShows(fallback, database.tables);
      var newGeneration := database.generation;
      if loaded && newGeneration == generation {
        return false;
      }
      var cfg := OverlayProviders(fallback, database.tables.providers);
      cfg := OverlaySettings(cfg, database.tables.settings);
      cfg := OverlayApiKeys(cfg, database.tables.apiKeys);
      cfg := OverlayPools(cfg, database.tables.pools);
      cfg := OverlayCredentials(cfg, database.tables.oauth);
      cfg := OverlayClientKeys(cfg, database.tables.clientKeys);
      config, generation, loaded := cfg, newGeneration, true;
      changed := true;
    }

    method UpsertPool(name: Name, pool: Pool, expected: Option<nat>) returns (r: Result)
      requires Valid()
      modifies this, database
      ensures database.Contents() == Commit(old(database.Contents()), PutPool(name, pool, expected))
      ensures r == Ok <==> database.generation == old(database.generation) + 1
      ensures r == Invalid <==> name == "" || (name == "code" && pool.models == [] && pool.fallbackPools == [])
      ensures r == GenerationConflict <==> r != Invalid && expected.Some? && expected.value != old(database.generation)
      ensures r == Ok ==> Current()
      ensures r != Ok ==> unchanged(this) && Valid()
    {
      if name == "" || (name == "code" && pool.models == [] && pool.fallbackPools == []) {
        return Invalid;
      }
      if expected.Some? && database.generation != expected.value {
        return GenerationConflict;
      }
      database.tables := database.tables.(pools := database.tables.pools[name := Normalize(pool)]);
      database.BumpGeneration();
      var _ := ReloadNow();
      r := Ok;
    }

    method GetPool(name: Name) returns (r: Option<Pool>)
      ensures name in database.tables.pools ==> r == Some(Normalize(database.tables.pools[name]))
      ensures r == None <==> name !in database.tables.pools
    {
      r := if name in database.tables.pools then Some(Normalize(database.tables.pools[name])) else None;
    }

    method DeletePool(name: Name) returns (r: Result)
      requires Valid()
      modifies this, database
      ensures database.Contents() == Commit(old(database.Contents()), Write.DeletePool(name))
      ensures r == Ok <==> name != "code" && name in old(database.tables.pools)
      ensures r == Invalid <==> name == "code"
      ensures r == Ok ==> Current() && name !in database.tables.pools
      ensures r != Ok ==> unchanged(this) && Valid()
    {
      if name == "code" {
        return Invalid;
      }
      if name !in database.tables.pools {
        return NotFound;
      }
      database.tables := database.tables.(pools := database.tables.pools - {name});
      database.BumpGeneration();
      var _ := ReloadNow();
      r := Ok;
    }

    /** The compare-and-swap for a rotated OAuth credential, as one transaction. */
    method PersistCredentials(provider: Name, want: Credential, replacement: Credential) returns (stored: bool)
      requires Valid()
      modifies this, database
      ensures database.Contents() == Commit(old(database.Contents()), SwapCredential(provider, want, replacement))
      ensures stored <==> database.generation == old(database.generation) + 1
      ensures stored ==> Current()
      ensures !stored ==> unchanged(this) && Valid()
    {
      hide Shows, Project;
      if provider !in database.tables.oauth {
        database.tables := database.tables.(oauth := database.tables.oauth[provider := [replacement]]);
        database.BumpGeneration();
        var _ := ReloadNow();
        return true;
      }
      var current := database.tables.oauth[provider];
      var updated: seq<Credential> := [];
      var found := false;
      for i := 0 to |current|
        invariant |updated| == i
        invariant forall k :: 0 <= k < i ==> updated[k] == if CredEqual(current[k], want) then replacement else current[k]
        invariant found <==> exists k :: 0 <= k < i && CredEqual(current[k], want)
      {
        if CredEqual(current[i], want) {
          updated := updated + [replacement];
          found := true;
        } else {
          updated := updated + [current[i]];
        }
      }
      if !found {
        return false;
      }
      assert updated == Swapped(current, want, replacement);
      database.tables := database.tables.(oauth := database.tables.oauth[provider := updated]);
      database.BumpGeneration();
      var _ := ReloadNow();
      stored := true;
    }
  }

  // ----- Credential races -----------------------------------------------------------------

  /** Two refreshers that start from the same credential cannot both store theirs: once one swap
      went through, the other finds nothing to replace.  This needs the first replacement to
      differ from what was swapped out, and the row to have existed; the first persist of a
      provider seeds the row whatever it expected. */
  lemma SecondSwapLoses(db: Db, provider: Name, want: Credential, first: Credential, second: Credential)
    requires provider in db.tables.oauth
    requires Effect(db, SwapCredential(provider, want, first)).Some?
    ensures Effect(Commit(db, SwapCredential(provider, want, first)), SwapCredential(provider, want, second)) == None
            <==> !CredEqual(first, want)
  {
    var before := db.tables.oauth[provider];
    var after := Swapped(before, want, first);
    var i :| 0 <= i < |before| && CredEqual(before[i], want);
    assert after[i] == first;
    if !CredEqual(first, want) {
      forall k | 0 <= k < |after| ensures !CredEqual(after[k], want) {
      }
    }
  }

  /** The swap as it runs without a lock: its statement rewrites the row from what it read earlier, or
      inserts a row when it read none, which raises when there is one by now.  None stands for that. */
  function WriteBack(db: Db, provider: Name, read: Option<seq<Credential>>, want: Credential, replacement: Credential): Option<Db> {
    var t := db.tables;
    match read
    case None =>
      if provider in t.oauth then None
      else Some(Db(db.generation + 1, t.(oauth := t.oauth[provider := [replacement]])))
    case Some(creds) =>
      if !Has(creds, want) then Some(db)
      else if provider !in t.oauth then Some(Db(db.generation + 1, t))
      else Some(Db(db.generation + 1, t.(oauth := t.oauth[provider := Swapped(creds, want, replacement)])))
  }

  /** An entry that replacing makes, or leaves, the replacement. */
  predicate Replaceable(c: Credential, want: Credential, replacement: Credential) {
    CredEqual(c, want) || c == replacement
  }

  /** Two rows differ only in entries that replacing makes equal. */
  ghost predicate SameButReplaced(a: seq<Credential>, b: seq<Credential>, want: Credential, replacement: Credential) {
    && |a| == |b|
    && forall i :: 0 <= i < |a| ==>
         a[i] == b[i] || (Replaceable(a[i], want, replacement) && Replaceable(b[i], want, replacement))
  }

  lemma SwappedAlikeIff(a: seq<Credential>, b: seq<Credential>, want: Credential, replacement: Credential)
    ensures Swapped(a, want, replacement) == Swapped(b, want, replacement) <==> SameButReplaced(a, b, want, replacement)
  {
    hide CredEqual;
    var x, y := Swapped(a, want, replacement), Swapped(b, want, replacement);
    if x == y {
      forall i | 0 <= i < |a|
        ensures a[i] == b[i] || (Replaceable(a[i], want, replacement) && Replaceable(b[i], want, replacement))
      {
        assert x[i] == y[i];
      }
    }
  }

  /** What a stale read may miss without harm.  Without a row, only that there still is none.  With one,
      the row must still be there; both must hold the credential or neither, and if they do they may
      differ only in entries that the swap replaces anyway. */
  ghost predicate ReadStillServes(row: Option<seq<Credential>>, read: Option<seq<Credential>>, want: Credential, replacement: Credential) {
    match read
    case None => row == None
    case Some(creds) =>
      && row.Some?
      && (Has(creds, want) <==> Has(row.value, want))
      && (Has(creds, want) ==> SameButReplaced(creds, row.value, want, replacement))
  }

  function RowOf(db: Db, provider: Name): Option<seq<Credential>> {
    if provider in db.tables.oauth then Some(db.tables.oauth[provider]) else None
  }

  /** Whatever was read and whatever has become of the row since, the write is the atomic swap exactly
      when the read still serves. */
  lemma WriteBackIsAtomicIff(db: Db, provider: Name, read: Option<seq<Credential>>, want: Credential, replacement: Credential)
    ensures WriteBack(db, provider, read, want, replacement) == Some(Commit(db, SwapCredential(provider, want, replacement)))
            <==> ReadStillServes(RowOf(db, provider), read, want, replacement)
  {
    hide Swapped, CredEqual, SameButReplaced, Has;
    if read.Some? && provider in db.tables.oauth {
      var row := db.tables.oauth[provider];
      SwappedAlikeIff(read.value, row, want, replacement);
      if Has(read.value, want) && Has(row, want) {
        var stale := WriteBack(db, provider, read, want, replacement).value;
        var atomic := Commit(db, SwapCredential(provider, want, replacement));
        assert stale.tables.oauth[provider] == Swapped(read.value, want, replacement);
        assert atomic.tables.oauth[provider] == Swapped(row, want, replacement);
      }
    } else if provider !in db.tables.oauth {
      assert provider in Commit(db, SwapCredential(provider, want, replacement)).tables.oauth;
    }
  }

  /** When two refreshers read the same row before either writes, both report success and the
      credential stored first is gone: the row is as if the first swap had never been made. */
  lemma UnlockedSwapsLoseOne(db: Db, provider: Name, want: Credential, first: Credential, second: Credential)
    requires Effect(db, SwapCredential(provider, want, first)).Some? && provider in db.tables.oauth
    requires first != second && !CredEqual(first, want)
    ensures var read := RowOf(db, provider);
            var once := WriteBack(db, provider, read, want, first);
            && once.Some?
            && var twice := WriteBack(once.value, provider, read, want, second);
               && twice.Some?
               && once.value.generation == db.generation + 1 && twice.value.generation == db.generation + 2
               && twice.value.tables == Commit(db, SwapCredential(provider, want, second)).tables
               && Commit(once.value, SwapCredential(provider, want, second)) == once.value
               && twice.value.tables != once.value.tables
  {
    hide Swapped;
    var read := db.tables.oauth[provider];
    var i :| 0 <= i < |read| && CredEqual(read[i], want);
    SecondSwapLoses(db, provider, want, first, second);
    assert db.tables.oauth[provider := Swapped(read, want, first)][provider := Swapped(read, want, second)]
        == db.tables.oauth[provider := Swapped(read, want, second)];
    assert Swapped(read, want, first)[i] == first && Swapped(read, want, second)[i] == second;
  }

  /** A swap changes only the matching entries of one provider. */
  lemma SwapTouchesOnlyMatches(db: Db, provider: Name, want: Credential, replacement: Credential, other: Name, i: nat)
    requires other in db.tables.oauth && i < |db.tables.oauth[other]|
    ensures var after := Commit(db, SwapCredential(provider, want, replacement));
            && other in after.tables.oauth && |after.tables.oauth[other]| == |db.tables.oauth[other]|
            && var c := db.tables.oauth[other][i];
               after.tables.oauth[other][i] ==
               (if other == provider && c.refreshToken == want.refreshToken && c.clientId == want.clientId then replacement
                else c)
  {
    hide Normalize, PurgedOauth;
    if other == provider {
      var creds := db.tables.oauth[provider];
      if CredEqual(creds[i], want) {
        assert exists k :: 0 <= k < |creds| && CredEqual(creds[k], want);
      }
    }
  }
}
