/** Rebuilding the live credential rotators after a configuration change.

    Consumers keep a reference to the mapping and to rotators inside it, so identity matters: the
    mapping object stays, and a rotator that is kept stays the same object. */
module Rotators {
  import opened Options

  const CODEX: string := "openai-codex"

  /** The cooldowns a reload keeps: those of accounts, as opposed to tokens, that still run. */
  function AccountCooldowns(cooldowns: map<string, int>, now: int): map<string, int> {
    map key | key in cooldowns && "identity:" <= key && cooldowns[key] > now :: cooldowns[key]
  }

  /** An account in cooldown is in cooldown after any number of reloads until its time is over; what a
      token is in for is forgotten at the first one. */
  lemma {:induction false} ReloadsKeepAccounts(cooldowns: map<string, int>, reloads: seq<int>, key: string)
    ensures var kept := AfterReloads(cooldowns, reloads);
            && (key in kept <==>
                  key in cooldowns
                  && (reloads == [] || "identity:" <= key)
                  && forall i :: 0 <= i < |reloads| ==> reloads[i] < cooldowns[key])
            && (key in kept ==> kept[key] == cooldowns[key])
  {
    if reloads != [] {
      ReloadsKeepAccounts(cooldowns, reloads[..|reloads| - 1], key);
    }
  }

  /** The cooldowns after reloads at these moments. */
  function AfterReloads(cooldowns: map<string, int>, reloads: seq<int>): map<string, int> {
    if reloads == [] then cooldowns
    else AccountCooldowns(AfterReloads(cooldowns, reloads[..|reloads| - 1]), reloads[|reloads| - 1])
  }

  /** Hands out the credentials of one provider in turn; `index` is the cursor. */
  class Rotator {
    const provider: string
    const authFile: Option<string>
    var creds: seq<string>
    var index: nat
    var cooldowns: map<string, int>
    var refreshFailures: map<nat, int>

    constructor (provider: string, authFile: Option<string>, creds: seq<string>)
      ensures this.provider == provider && this.authFile == authFile && this.creds == creds && index == 0
      ensures cooldowns == map[] && refreshFailures == map[]
    {
      this.provider, this.authFile, this.creds, index := provider, authFile, creds, 0;
      cooldowns, refreshFailures := map[], map[];
    }

    method Reload(creds: seq<string>, now: int)
      modifies this
      ensures this.creds == creds && index == Clamped(old(index), |creds|)
      ensures cooldowns == AccountCooldowns(old(cooldowns), now) && refreshFailures == map[]
    {
      this.creds := creds;
      var last := if |creds| > 0 then |creds| - 1 else 0;
      if index > last {
        index := last;
      }
      refreshFailures := map[];
      cooldowns := AccountCooldowns(cooldowns, now);
    }
  }

  /** A cursor that stays where it is unless the list became too short. */
  function Clamped(index: nat, length: nat): (r: nat)
    ensures length > 0 ==> r < length
    ensures index < length ==> r == index
  {
    if index < length then index else if length > 0 then length - 1 else 0
  }

  type Pools = seq<(string, seq<string>)>

  ghost predicate DistinctProviders(configured: Pools) {
    forall i, j :: 0 <= i < j < |configured| ==> configured[i].0 != configured[j].0
  }

  /** No rotator serves two providers. */
  ghost predicate NotShared(live: map<string, Rotator>) {
    forall p, q :: p in live && q in live && p != q ==> live[p] != live[q]
  }

  /** The rotator of a provider is kept, unless the file it persists to has moved. */
  predicate Keeps(existing: map<string, Rotator>, provider: string, authFile: Option<string>) {
    provider in existing && (provider == CODEX ==> existing[provider].authFile == authFile)
  }

  /** What becomes of a rotator with this cursor, these credentials and these cooldowns that is given
      others: nothing when they are the same; otherwise the cursor stays unless the list became too short
      for it, then it points to the last credential, and of the cooldowns those of accounts that still run
      are left. */
  predicate Given(index: nat, had: seq<string>, cooldowns: map<string, int>, rotator: Rotator, creds: seq<string>, now: int)
    reads rotator
  {
    && rotator.creds == creds
    && rotator.index == (if creds == had || index < |creds| then index else if creds == [] then 0 else |creds| - 1)
    && rotator.cooldowns == if creds == had then cooldowns else AccountCooldowns(cooldowns, now)
  }

  /** A rotator that starts over. */
  predicate StartsOver(rotator: Rotator, provider: string, creds: seq<string>, authFile: Option<string>)
    reads rotator
  {
    && rotator.creds == creds && rotator.index == 0 && rotator.provider == provider && rotator.cooldowns == map[]
    && rotator.authFile == if provider == CODEX then authFile else None
  }

  /** What becomes of one configured provider: its rotator is the same object as before, unless there was
      none or the file that the Codex rotator persists to has moved; then it is a new one. */
  twostate predicate Rebuilt(existing: map<string, Rotator>, provider: string, new rotator: Rotator, creds: seq<string>,
                             authFile: Option<string>, now: int)
    reads rotator
  {
    if provider in existing && (provider != CODEX || existing[provider].authFile == authFile) then
      && rotator == existing[provider]
      && Given(old(existing[provider].index), old(existing[provider].creds),
               old(existing[provider].cooldowns), rotator, creds, now)
    else fresh(rotator) && StartsOver(rotator, provider, creds, authFile)
  }

  twostate predicate Untouched(rotator: Rotator)
    reads rotator
  {
    rotator.creds == old(rotator.creds) && rotator.index == old(rotator.index) && rotator.cooldowns == old(rotator.cooldowns)
  }

  /** The rotator for one configured provider: the one there is, reloaded if its credentials changed,
      or a new one. */
  method RotatorFor(existing: map<string, Rotator>, provider: string, clean: seq<string>, authFile: Option<string>, now: int)
    returns (rotator: Rotator)
    modifies if Keeps(existing, provider, authFile) then {existing[provider]} else {}
    ensures Rebuilt(existing, provider, rotator, clean, authFile, now)
  {
    if Keeps(existing, provider, authFile) {
      rotator := existing[provider];
      if rotator.creds != clean {
        rotator.Reload(clean, now);
      }
    } else {
      rotator := new Rotator(provider, if provider == CODEX then authFile else None, clean);
    }
  }

  method RotatorsFor(existing: map<string, Rotator>, configured: Pools, authFile: Option<string>, now: int)
    returns (result: map<string, Rotator>)
    requires DistinctProviders(configured) && NotShared(existing)
    modifies existing.Values
    ensures KeptOrNew(existing, result, authFile) && result.Keys == Providers(configured)
    ensures forall i :: 0 <= i < |configured| ==>
              configured[i].0 in result
              && Rebuilt(existing, configured[i].0, result[configured[i].0], configured[i].1, authFile, now)
    ensures forall p :: p in existing && !(p in result && Keeps(existing, p, authFile)) ==> Untouched(existing[p])
  {
    hide Given, StartsOver, AccountCooldowns, Clamped, Providers, KeptOrNew, NotShared;
    result := map[];
    assert Providers(configured[..0]) == {} by { NoProviders(); }
    assert KeptOrNew(existing, map[], authFile) by { NothingKept(existing, authFile); }
    for i := 0 to |configured|
      invariant result.Keys == Providers(configured[..i])
      invariant forall j :: 0 <= j < i ==>
                  configured[j].0 in result
                  && Rebuilt(existing, configured[j].0, result[configured[j].0], configured[j].1, authFile, now)
      invariant KeptOrNew(existing, result, authFile)
      invariant forall p :: p in existing && !(p in result && Keeps(existing, p, authFile)) ==> Untouched(existing[p])
    {
      var provider, clean := configured[i].0, configured[i].1;
      NextProvider(configured, i);
      var rotator := RotatorFor(existing, provider, clean, authFile, now);
      OneMore(existing, result, provider, rotator, authFile);
      result := result[provider := rotator];
    }
    assert configured[..|configured|] == configured;
  }

  /** Every rotator of the result is the existing one of its provider or none of the existing ones. */
  ghost predicate KeptOrNew(existing: map<string, Rotator>, result: map<string, Rotator>, authFile: Option<string>) {
    && (forall p :: p in result ==>
          if Keeps(existing, p, authFile) then result[p] == existing[p] else result[p] !in existing.Values)
    && NotShared(result)
  }

  lemma OneMore(existing: map<string, Rotator>, result: map<string, Rotator>, provider: string, rotator: Rotator,
                authFile: Option<string>)
    requires NotShared(existing) && KeptOrNew(existing, result, authFile) && provider !in result
    requires if Keeps(existing, provider, authFile) then rotator == existing[provider]
             else rotator !in existing.Values && rotator !in result.Values
    ensures KeptOrNew(existing, result[provider := rotator], authFile) && rotator !in result.Values
    ensures forall p :: p in existing && existing[p] == rotator ==> p == provider
  {
  }

  lemma NothingKept(existing: map<string, Rotator>, authFile: Option<string>)
    ensures KeptOrNew(existing, map[], authFile)
  {
  }

  lemma NoProviders()
    ensures Providers([]) == {}
  {
  }

  class LiveRotators {
    var live: map<string, Rotator>
    var codex: Rotator?

    constructor ()
      ensures live == map[] && codex == null
    {
      live, codex := map[], null;
    }

    /** The mapping ends up with exactly the configured providers and their credentials; a rotator
        that is dropped is not touched. */
    method Rebuild(configured: Pools, authFile: Option<string>, now: int)
      requires DistinctProviders(configured) && NotShared(live)
      modifies this, live.Values
      ensures NotShared(live) && live.Keys == Providers(configured)
      ensures forall i :: 0 <= i < |configured| ==>
                configured[i].0 in live
                && Rebuilt(old(live), configured[i].0, live[configured[i].0], configured[i].1, authFile, now)
      ensures forall p :: p in old(live) && !(p in live && Keeps(old(live), p, authFile)) ==> Untouched(old(live)[p])
      ensures codex == if CODEX in live then live[CODEX] else null
    {
      var result := RotatorsFor(live, configured, authFile, now);
      live := result;
      codex := if CODEX in result then result[CODEX] else null;
    }
  }

  function Providers(configured: Pools): set<string> {
    set i | 0 <= i < |configured| :: configured[i].0
  }

  lemma NextProvider(configured: Pools, i: nat)
    requires DistinctProviders(configured) && i < |configured|
    ensures configured[i].0 !in Providers(configured[..i])
    ensures Providers(configured[..i + 1]) == Providers(configured[..i]) + {configured[i].0}
  {
    var before, after := configured[..i], configured[..i + 1];
    forall p ensures p in Providers(after) <==> p in Providers(before) + {configured[i].0} {
      if p in Providers(before) {
        var j :| 0 <= j < i && before[j].0 == p;
        assert after[j].0 == p;
      }
      assert after[i].0 == configured[i].0;
      if p in Providers(after) {
        var j :| 0 <= j <= i && after[j].0 == p;
        assert j < i ==> before[j].0 == p;
      }
    }
  }
}
