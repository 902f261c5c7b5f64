/** What callers find in the configuration after a run of writes and reloads: which writes take effect,
    how long they stand, and which client keys are let in. */
module ConfigLookups {
  import opened Options
  import opened ConfigStore
  import opened ConfigSnapshots

  // ----- Writes -------------------------------------------------------------------------------------

  ghost predicate AnyExpired(oauth: map<Name, seq<Credential>>, now: int) {
    exists n, i :: n in oauth && 0 <= i < |oauth[n]| && Expired(oauth[n][i], now)
  }

  /** The conditions under which a write changes the database. */
  ghost predicate Applicable(db: Db, w: ConfigStore.Write) {
    var t := db.tables;
    match w
    case PutProvider(_, _) => true
    case DeleteProvider(name) => name in t.providers
    case PutSettings(_, _) => true
    case PutApiKey(_, _) => true
    case PutPool(name, pool, expected) =>
      && name != "" && (name == "code" ==> pool.models != [] || pool.fallbackPools != [])
      && (expected.Some? ==> expected.value == db.generation)
    case DeletePool(name) => name != "code" && name in t.pools
    case PutClientKey(_, _) => true
    case RevokeClientKey(fp) => fp in t.clientKeys
    case RotateClientKey(fp, newFp, _) => fp in t.clientKeys && newFp !in t.clientKeys
    case SwapCredential(provider, want, _) => provider in t.oauth ==> Has(t.oauth[provider], want)
    case PurgeExpired(now) => AnyExpired(t.oauth, now)
  }

  /** A purge drops what has expired and keeps everything else. */
  lemma {:induction false} UnexpiredAreKept(creds: seq<Credential>, now: int, c: Credential)
    ensures multiset(Unexpired(creds, now))[c]
         == if c.expiresAt.Some? && c.expiresAt.value <= now then 0 else multiset(creds)[c]
  {
    if creds != [] {
      assert creds == [creds[0]] + creds[1..];
      UnexpiredAreKept(creds[1..], now, c);
    }
  }

  lemma {:induction false} NothingToPurgeIff(creds: seq<Credential>, now: int)
    ensures |Unexpired(creds, now)| <= |creds|
    ensures |Unexpired(creds, now)| == |creds| <==> forall i :: 0 <= i < |creds| ==> !Expired(creds[i], now)
    ensures (forall i :: 0 <= i < |creds| ==> !Expired(creds[i], now)) ==> Unexpired(creds, now) == creds
  {
    hide Expired;
    if creds != [] {
      assert creds == [creds[0]] + creds[1..];
      NothingToPurgeIff(creds[1..], now);
    }
  }

  lemma PurgesIff(oauth: map<Name, seq<Credential>>, now: int)
    ensures PurgedOauth(oauth, now) != oauth <==> AnyExpired(oauth, now)
  {
    forall n | n in oauth
      ensures Unexpired(oauth[n], now) == oauth[n] <==> forall i :: 0 <= i < |oauth[n]| ==> !Expired(oauth[n][i], now)
    {
      NothingToPurgeIff(oauth[n], now);
    }
    if !AnyExpired(oauth, now) {
      assert forall n :: n in oauth ==> PurgedOauth(oauth, now)[n] == oauth[n];
      assert PurgedOauth(oauth, now) == oauth;
    } else {
      var n, i :| n in oauth && 0 <= i < |oauth[n]| && Expired(oauth[n][i], now);
      assert PurgedOauth(oauth, now)[n] != oauth[n];
    }
  }

  /** A write moves the generation on by one exactly when it is applicable, and is a no-op otherwise. */
  lemma TakesEffectIff(db: Db, w: ConfigStore.Write)
    ensures Commit(db, w).generation == db.generation + if Applicable(db, w) then 1 else 0
    ensures !Applicable(db, w) ==> Commit(db, w) == db
  {
    hide PurgedOauth, Swapped, Normalize, Has, AnyExpired;
    match w
    case PurgeExpired(now) => PurgesIff(db.tables.oauth, now);
    case _ =>
  }

  ghost predicate SameIdentity(a: ClientKey, b: ClientKey) {
    a.principal == b.principal && a.tenant == b.tenant && a.grants == b.grants
  }

  /** The tables say what the write asked for, where `before` are the tables it found. */
  ghost predicate Stands(before: Tables, t: Tables, w: ConfigStore.Write) {
    match w
    case PutProvider(name, definition) => Lookup(t.providers, name) == Some(definition)
    case DeleteProvider(name) => name !in t.providers
    case PutSettings(name, value) => Lookup(t.settings, name) == Some(value)
    case PutApiKey(name, secret) => Lookup(t.apiKeys, name) == Some(secret)
    case PutPool(name, pool, _) => name in t.pools && ShowsPool(pool, t.pools[name])
    case DeletePool(name) => name !in t.pools
    case PutClientKey(fp, key) => Lookup(t.clientKeys, fp) == Some(key)
    case RevokeClientKey(fp) =>
      fp in before.clientKeys && fp in t.clientKeys ==>
        && t.clientKeys[fp].revoked && t.clientKeys[fp].apiKey == before.clientKeys[fp].apiKey
        && SameIdentity(t.clientKeys[fp], before.clientKeys[fp])
    case RotateClientKey(fp, newFp, newKey) =>
      && fp !in t.clientKeys && newFp in t.clientKeys
      && !t.clientKeys[newFp].revoked && t.clientKeys[newFp].apiKey == newKey
      && (fp in before.clientKeys ==> SameIdentity(t.clientKeys[newFp], before.clientKeys[fp]))
    case SwapCredential(provider, want, replacement) =>
      && provider in t.oauth
      && forall i :: 0 <= i < |t.oauth[provider]| && CredEqual(t.oauth[provider][i], want) ==>
                       t.oauth[provider][i] == replacement
    case PurgeExpired(now) => !AnyExpired(t.oauth, now)
  }

  /** `w` may undo what `done` wrote: it goes for the same entry. */
  predicate Overwrites(w: ConfigStore.Write, done: ConfigStore.Write) {
    match done
    case PutProvider(name, _) => WritesProvider(w, name)
    case DeleteProvider(name) => WritesProvider(w, name)
    case PutSettings(name, _) => w.PutSettings? && w.name == name
    case PutApiKey(name, _) => w.PutApiKey? && w.name == name
    case PutPool(name, _, _) => WritesPool(w, name)
    case DeletePool(name) => WritesPool(w, name)
    case PutClientKey(fp, _) => PutsKey(w, fp) || EndsKey(w, fp)
    case RevokeClientKey(fp) => PutsKey(w, fp)
    case RotateClientKey(fp, newFp, _) => PutsKey(w, fp) || PutsKey(w, newFp) || EndsKey(w, newFp)
    case SwapCredential(provider, _, _) => w.SwapCredential? && w.provider == provider
    case PurgeExpired(_) => w.SwapCredential?
  }

  predicate WritesProvider(w: ConfigStore.Write, name: Name) {
    (w.PutProvider? || w.DeleteProvider?) && w.name == name
  }

  predicate WritesPool(w: ConfigStore.Write, name: Name) {
    (w.PutPool? || w.DeletePool?) && w.name == name
  }

  predicate PutsKey(w: ConfigStore.Write, fp: Name) {
    (w.PutClientKey? && w.fingerprint == fp) || (w.RotateClientKey? && w.newFingerprint == fp)
  }

  predicate EndsKey(w: ConfigStore.Write, fp: Name) {
    (w.RevokeClientKey? || w.RotateClientKey?) && w.fingerprint == fp
  }

  lemma StandsAtFirst(db: Db, w: ConfigStore.Write)
    requires Applicable(db, w)
    ensures Stands(db.tables, Commit(db, w).tables, w)
  {
    hide PurgedOauth, Swapped, Has, AnyExpired;
    match w
    case PurgeExpired(now) => PurgedIsUnexpired(db.tables.oauth, now);
    case SwapCredential(provider, want, replacement) => SwappedStands(db, provider, want, replacement);
    case _ =>
  }

  lemma PurgedIsUnexpired(oauth: map<Name, seq<Credential>>, now: int)
    ensures !AnyExpired(PurgedOauth(oauth, now), now)
  {
    forall n, i | n in oauth && 0 <= i < |Unexpired(oauth[n], now)| ensures !Expired(Unexpired(oauth[n], now)[i], now) {
      UnexpiredAreKept(oauth[n], now, Unexpired(oauth[n], now)[i]);
    }
  }

  lemma SwappedStands(db: Db, provider: Name, want: Credential, replacement: Credential)
    requires provider in db.tables.oauth ==> Has(db.tables.oauth[provider], want)
    ensures var w := SwapCredential(provider, want, replacement); Stands(db.tables, Commit(db, w).tables, w)
  {
    hide PurgedOauth;
  }

  /** No other write disturbs it. */
  lemma StandsOn(before: Tables, db: Db, w: ConfigStore.Write, done: ConfigStore.Write)
    requires Stands(before, db.tables, done) && !Overwrites(w, done)
    ensures Stands(before, Commit(db, w).tables, done)
  {
    hide Stands, Commit, Overwrites;
    if w.PurgeExpired? {
      PurgeKeepsStanding(before, db, w.now, done);
    } else if AboutKeys(done) {
      KeysStandOn(before, db, w, done);
    } else {
      OthersStandOn(before, db, w, done);
    }
  }

  predicate AboutKeys(w: ConfigStore.Write) { w.PutClientKey? || w.RevokeClientKey? || w.RotateClientKey? }

  lemma KeysStandOn(before: Tables, db: Db, w: ConfigStore.Write, done: ConfigStore.Write)
    requires Stands(before, db.tables, done) && !Overwrites(w, done) && !w.PurgeExpired? && AboutKeys(done)
    ensures Stands(before, Commit(db, w).tables, done)
  {
    hide Swapped, Has, Normalize;
  }

  lemma OthersStandOn(before: Tables, db: Db, w: ConfigStore.Write, done: ConfigStore.Write)
    requires Stands(before, db.tables, done) && !Overwrites(w, done) && !w.PurgeExpired? && !AboutKeys(done)
    ensures Stands(before, Commit(db, w).tables, done)
  {
    hide Swapped, Has, AnyExpired, ShowsPool, Normalize;
  }

  lemma PurgeKeepsStanding(before: Tables, db: Db, now: int, done: ConfigStore.Write)
    requires Stands(before, db.tables, done)
    ensures Stands(before, Commit(db, PurgeExpired(now)).tables, done)
  {
    hide Unexpired, ShowsPool, SameIdentity;
    var oauth := db.tables.oauth;
    forall n, i | n in oauth && 0 <= i < |Unexpired(oauth[n], now)| ensures Unexpired(oauth[n], now)[i] in oauth[n] {
      UnexpiredAreKept(oauth[n], now, Unexpired(oauth[n], now)[i]);
    }
  }

  // ----- Runs ---------------------------------------------------------------------------------------

  /** Step i is this write, it took effect, and no later step of the run wrote over it. */
  ghost predicate LastWrite(fallback: Config, db: Db, run: seq<Action>, i: nat, w: ConfigStore.Write) {
    && i < |run| && run[i] == Write(w) && Applicable(Reach(fallback, db, run[..i]).db, w)
    && forall k :: i < k < |run| && run[k].Write? ==> !Overwrites(run[k].w, w)
  }

  /** In every run the tables say what the last write of an entry asked for. */
  lemma {:induction false} LastWriteStands(fallback: Config, db: Db, run: seq<Action>, i: nat, w: ConfigStore.Write)
    requires LastWrite(fallback, db, run, i, w)
    ensures Stands(Reach(fallback, db, run[..i]).db.tables, Reach(fallback, db, run).db.tables, w)
    decreases |run|
  {
    hide Stands, Commit, Applicable, Overwrites;
    var before, a := run[..|run| - 1], run[|run| - 1];
    if i == |before| {
      StandsAtFirst(Reach(fallback, db, run[..i]).db, w);
    } else {
      assert before[..i] == run[..i];
      LastWriteStands(fallback, db, before, i, w);
      if a.Write? {
        StandsOn(Reach(fallback, db, run[..i]).db.tables, Reach(fallback, db, before).db, a.w, w);
      }
    }
  }

  ghost predicate IsCurrent(s: World) { s.loaded && s.stamp == s.db.generation }

  /** Whenever the snapshot carries the database's generation, every lookup in it finds what the rows of
      the tables say. */
  lemma CurrentSnapshotShows(fallback: Config, db: Db, run: seq<Action>)
    requires IsCurrent(Reach(fallback, db, run))
    ensures Shows(fallback, Reach(fallback, db, run).db.tables, Reach(fallback, db, run).config)
  {
    EqualGenerationMeansCurrent(fallback, db, run);
    ProjectShows(fallback, Reach(fallback, db, run).db.tables);
  }

  /** Another key of the table is live and has the same secret. */
  ghost predicate SharedSecret(keys: map<Name, ClientKey>, fp: Name, secret: string) {
    exists other :: other != fp && other in keys && !keys[other].revoked && keys[other].apiKey == secret
  }

  /** Once a key was revoked, and until it is issued again, its secret opens nothing in any snapshot that is
      current, unless the fallback or another live key has the same. */
  lemma RevokedKeyIsOut(fallback: Config, db: Db, run: seq<Action>, i: nat, fp: Name)
    requires LastWrite(fallback, db, run, i, RevokeClientKey(fp)) && IsCurrent(Reach(fallback, db, run))
    ensures fp in Reach(fallback, db, run[..i]).db.tables.clientKeys
    ensures var s := Reach(fallback, db, run);
            var secret := Reach(fallback, db, run[..i]).db.tables.clientKeys[fp].apiKey;
            secret in s.config.clientSecrets <==>
              secret in fallback.clientSecrets || (secret != "" && SharedSecret(s.db.tables.clientKeys, fp, secret))
  {
    hide Reach;
    LastWriteStands(fallback, db, run, i, RevokeClientKey(fp));
    CurrentSnapshotShows(fallback, db, run);
    var s := Reach(fallback, db, run);
    var secret := Reach(fallback, db, run[..i]).db.tables.clientKeys[fp].apiKey;
    if LiveSecret(s.db.tables.clientKeys, secret) {
      var other :| other in s.db.tables.clientKeys && !s.db.tables.clientKeys[other].revoked
                   && s.db.tables.clientKeys[other].apiKey == secret;
      assert other != fp;
    }
  }

  /** A rotation replaces the secret and moves the identity: the new secret is let in, the old one is not,
      unless the fallback or another live key has it, and only the new fingerprint has an identity. */
  lemma RotatedKeyIsReplaced(fallback: Config, db: Db, run: seq<Action>, i: nat, fp: Name, newFp: Name, newKey: string)
    requires LastWrite(fallback, db, run, i, RotateClientKey(fp, newFp, newKey)) && IsCurrent(Reach(fallback, db, run))
    ensures fp in Reach(fallback, db, run[..i]).db.tables.clientKeys
    ensures var s := Reach(fallback, db, run);
            var key := Reach(fallback, db, run[..i]).db.tables.clientKeys[fp];
            && (newKey != "" ==> newKey in s.config.clientSecrets)
            && (key.apiKey in s.config.clientSecrets <==>
                  || key.apiKey in fallback.clientSecrets
                  || (key.apiKey != "" && SharedSecret(s.db.tables.clientKeys, fp, key.apiKey)))
            && (key.principal != "" && key.tenant != "" ==>
                  && Lookup(s.config.identities, newFp) == Some(Identity(key.principal, key.tenant, key.grants))
                  && fp !in s.config.identities)
  {
    hide Reach;
    LastWriteStands(fallback, db, run, i, RotateClientKey(fp, newFp, newKey));
    CurrentSnapshotShows(fallback, db, run);
    var keys := Reach(fallback, db, run).db.tables.clientKeys;
    var secret := Reach(fallback, db, run[..i]).db.tables.clientKeys[fp].apiKey;
    assert Identified(keys, newFp) || keys[newFp].principal == "" || keys[newFp].tenant == "";
    if LiveSecret(keys, secret) {
      var other :| other in keys && !keys[other].revoked && keys[other].apiKey == secret;
      assert other != fp;
    }
  }

  /** One quiet reload after any write is enough for that: it leaves the snapshot current. */
  lemma ReloadAfterWriteIsCurrent(fallback: Config, db: Db, run: seq<Action>, w: ConfigStore.Write, id: ReloadId)
    requires id !in Reach(fallback, db, run).reloads && Applicable(Reach(fallback, db, run).db, w)
    ensures var longer := run + [Write(w)] + WholeReload(id);
            && IsCurrent(Reach(fallback, db, longer))
            && LastWrite(fallback, db, longer, |run|, w)
  {
    hide Commit, Applicable, Overwrites, Reach;
    var written := run + [Write(w)];
    assert Reach(fallback, db, written).reloads == Reach(fallback, db, run).reloads by {
      ReachAppend(fallback, db, run, [Write(w)]);
      assert AfterActions(fallback, Reach(fallback, db, run), [Write(w)]) == Next(fallback, Reach(fallback, db, run), Write(w));
    }
    QuietReloadConverges(fallback, db, written, id);
    ReachAppend(fallback, db, written, WholeReload(id));
    var longer := written + WholeReload(id);
    assert longer[..|run|] == run && longer[|run|] == Write(w);
    forall k | |run| < k < |longer| ensures !longer[k].Write? {
      assert longer[k] == WholeReload(id)[k - |written|];
    }
  }
}
