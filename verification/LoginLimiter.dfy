/** The login limiter: a list of admitted attempts per identity, pruned at every call. */
module LoginLimiter {
  /** The moments less than one window before `now`. */
  function Recent(times: seq<int>, now: int, window: int): seq<int> {
    if times == [] then []
    else
      var before := Recent(times[..|times| - 1], now, window);
      if now - times[|times| - 1] < window then before + [times[|times| - 1]] else before
  }

  function Stored(attempts: map<string, seq<int>>, identity: string): seq<int> {
    if identity in attempts then attempts[identity] else []
  }

  class LoginRateLimiter {
    const max: int
    const window: int
    var attempts: map<string, seq<int>>

    constructor (max: int, window: int)
      ensures this.max == max && this.window == window && attempts == map[]
    {
      this.max, this.window := max, window;
      attempts := map[];
    }

    /** Admits the attempt if fewer than `max` admitted ones are recent, and forgets the others. */
    method Allow(identity: string, now: int) returns (ok: bool)
      modifies this
      ensures var recent := Recent(old(Stored(attempts, identity)), now, window);
              && (ok <==> |recent| < max)
              && attempts == old(attempts)[identity := if ok then recent + [now] else recent]
    {
      var times := Stored(attempts, identity);
      var recent: seq<int> := [];
      for i := 0 to |times|
        invariant recent == Recent(times[..i], now, window)
      {
        assert times[..i + 1][..i] == times[..i];
        if now - times[i] < window {
          recent := recent + [times[i]];
        }
      }
      assert times[..|times|] == times;
      if |recent| >= max {
        attempts := attempts[identity := recent];
        return false;
      }
      attempts := attempts[identity := recent + [now]];
      ok := true;
    }

    method Reset()
      modifies this
      ensures attempts == map[]
    {
      attempts := map[];
    }
  }

  // ----- Runs -----------------------------------------------------------------------------------

  datatype Event = Attempt(identity: string, now: int) | ResetAll(now: int)

  /** The stored lists after a run of attempts and resets, handled as `Allow` and `Reset` do. */
  function After(max: int, window: int, run: seq<Event>): map<string, seq<int>> {
    if run == [] || run[|run| - 1].ResetAll? then map[]
    else
      var attempts, a := After(max, window, run[..|run| - 1]), run[|run| - 1];
      var recent := Recent(Stored(attempts, a.identity), a.now, window);
      attempts[a.identity := if |recent| < max then recent + [a.now] else recent]
  }

  /** The verdict on attempt i. */
  predicate Allowed(max: int, window: int, run: seq<Event>, i: nat)
    requires i < |run| && run[i].Attempt?
  {
    |Recent(Stored(After(max, window, run[..i]), run[i].identity), run[i].now, window)| < max
  }

  /** The moments of all attempts of an identity admitted since the last reset: the history the limiter
      forgets. */
  function Admitted(max: int, window: int, run: seq<Event>, identity: string): seq<int> {
    if run == [] || run[|run| - 1].ResetAll? then []
    else
      var n := |run| - 1;
      Admitted(max, window, run[..n], identity)
      + if run[n].identity == identity && Allowed(max, window, run, n) then [run[n].now] else []
  }

  ghost predicate ClockMonotone(run: seq<Event>) {
    forall i, j :: 0 <= i <= j < |run| ==> run[i].now <= run[j].now
  }

  /** Pruning at an earlier moment does not change what is recent later. */
  lemma {:induction false} PruneTwice(times: seq<int>, earlier: int, later: int, window: int)
    requires earlier <= later
    ensures Recent(Recent(times, earlier, window), later, window) == Recent(times, later, window)
  {
    if times != [] {
      var before, last := times[..|times| - 1], times[|times| - 1];
      PruneTwice(before, earlier, later, window);
      if earlier - last < window {
        var kept := Recent(before, earlier, window);
        assert (kept + [last])[..|kept|] == kept;
      }
    }
  }

  lemma RecentSnoc(times: seq<int>, t: int, now: int, window: int)
    ensures Recent(times + [t], now, window)
         == if now - t < window then Recent(times, now, window) + [t] else Recent(times, now, window)
  {
    assert (times + [t])[..|times|] == times;
  }

  /** Seen from any later moment, the pruned list and the whole history hold the same recent
      attempts. */
  lemma {:induction false} PrunedListSuffices(max: int, window: int, run: seq<Event>, identity: string, now: int)
    requires ClockMonotone(run) && forall i :: 0 <= i < |run| ==> run[i].now <= now
    ensures Recent(Stored(After(max, window, run), identity), now, window)
         == Recent(Admitted(max, window, run, identity), now, window)
  {
    hide Recent;
    if run == [] || run[|run| - 1].ResetAll? {
      assert Stored(After(max, window, run), identity) == [] == Admitted(max, window, run, identity);
    } else {
      var n := |run| - 1;
      var before, a := run[..n], run[n];
      PrunedListSuffices(max, window, before, identity, now);
      assert Admitted(max, window, before, identity) + [] == Admitted(max, window, before, identity);
      if a.identity == identity {
        PrunedListSuffices(max, window, before, identity, a.now);
        OneMoreAttempt(Stored(After(max, window, before), identity), Admitted(max, window, before, identity), a.now, now, window);
      }
    }
  }

  /** Two lists that agree on what is recent still do after one is pruned and both are extended. */
  lemma OneMoreAttempt(stored: seq<int>, admitted: seq<int>, at: int, now: int, window: int)
    requires at <= now && Recent(stored, now, window) == Recent(admitted, now, window)
    ensures Recent(Recent(stored, at, window), now, window) == Recent(admitted + [], now, window)
    ensures Recent(Recent(stored, at, window) + [at], now, window) == Recent(admitted + [at], now, window)
  {
    hide Recent;
    PruneTwice(stored, at, now, window);
    RecentSnoc(Recent(stored, at, window), at, now, window);
    RecentSnoc(admitted, at, now, window);
    assert admitted + [] == admitted;
  }

  /** An attempt is denied exactly when `max` attempts of its identity were admitted in the window
      before it, counted over the whole history. */
  lemma DeniedIffWindowFull(max: int, window: int, run: seq<Event>, i: nat)
    requires ClockMonotone(run) && i < |run| && run[i].Attempt?
    ensures Allowed(max, window, run, i) <==>
            |Recent(Admitted(max, window, run[..i], run[i].identity), run[i].now, window)| < max
  {
    PrunedListSuffices(max, window, run[..i], run[i].identity, run[i].now);
  }

  /** On an ordered list the recent moments are its tail. */
  lemma {:induction false} RecentIsTail(times: seq<int>, now: int, window: int, k: nat)
    requires forall i, j :: 0 <= i <= j < |times| ==> times[i] <= times[j]
    requires k < |times| && now - times[k] < window
    ensures |Recent(times, now, window)| >= |times| - k
  {
    var n := |times| - 1;
    assert now - times[n] < window;
    if k < n {
      RecentIsTail(times[..n], now, window, k);
    }
  }

  ghost predicate OrderedUpTo(times: seq<int>, now: int) {
    && (forall i, j :: 0 <= i <= j < |times| ==> times[i] <= times[j])
    && (forall i :: 0 <= i < |times| ==> times[i] <= now)
  }

  lemma {:induction false} AdmittedAreOrdered(max: int, window: int, run: seq<Event>, identity: string, now: int)
    requires ClockMonotone(run) && forall i :: 0 <= i < |run| ==> run[i].now <= now
    ensures OrderedUpTo(Admitted(max, window, run, identity), now)
  {
    if run != [] && run[|run| - 1].Attempt? {
      var n := |run| - 1;
      AdmittedAreOrdered(max, window, run[..n], identity, run[n].now);
    }
  }

  lemma LastMaxRecent(times: seq<int>, now: int, window: int, k: nat)
    requires OrderedUpTo(times, now)
    ensures |Recent(times, now, window)| < |times| - k && k < |times| ==> now - times[k] >= window
  {
    if k < |times| && now - times[k] < window {
      RecentIsTail(times, now, window, k);
    }
  }

  /** Any max + 1 attempts of one identity admitted without a reset in between span at least the window. */
  lemma {:induction false} AdmittedSpanWindow(max: nat, window: int, run: seq<Event>, identity: string, k: nat)
    requires ClockMonotone(run) && k + max < |Admitted(max, window, run, identity)|
    ensures var times := Admitted(max, window, run, identity); times[k + max] - times[k] >= window
  {
    hide Recent, After, Stored, OrderedUpTo;
    var n := |run| - 1;
    var before := Admitted(max, window, run[..n], identity);
    if k + max < |before| {
      AdmittedSpanWindow(max, window, run[..n], identity, k);
    } else {
      DeniedIffWindowFull(max, window, run, n);
      AdmittedAreOrdered(max, window, run[..n], identity, run[n].now);
      LastMaxRecent(before, run[n].now, window, k);
    }
  }
}
