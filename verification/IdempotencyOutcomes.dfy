/** What every call of the idempotency store returns, told by the calls before it: who last
    succeeded on the key, what clock readings claims have taken since, and nothing else. */
module IdempotencyOutcomes {
  import opened Options
  import opened Idempotency
  import opened IdempotencyRuns

  /** Event n is a call for `key` that succeeded. */
  ghost predicate Succeeded(c: Config, init: Table, run: Run, n: nat, key: Key) {
    && n < |run| && run[n].op.key == key
    && (OutcomeAt(c, init, run, n).Claimed? || OutcomeAt(c, init, run, n) == Flag(true))
  }

  /** Nothing succeeded on the key from event `from` up to event m. */
  ghost predicate NoneSucceeded(c: Config, init: Table, run: Run, from: nat, m: nat, key: Key) {
    forall n :: from <= n < m ==> !Succeeded(c, init, run, n, key)
  }

  /** Event g is the last call for `key` that succeeded before event j. */
  ghost predicate LastSuccess(c: Config, init: Table, run: Run, g: nat, j: nat, key: Key) {
    g < j <= |run| && Succeeded(c, init, run, g, key) && NoneSucceeded(c, init, run, g + 1, j, key)
  }

  /** The last success on the key was a claim or a renewal. */
  ghost predicate LastGranted(c: Config, init: Table, run: Run, g: nat, j: nat, key: Key) {
    LastSuccess(c, init, run, g, j, key) && (run[g].op.Claim? || run[g].op.Renew?)
  }

  /** No claim, for any key, read the clock at or after this moment since event i, event j included:
      only claims purge. */
  ghost predicate Unpurged(run: Run, i: nat, j: nat, moment: int) {
    forall n :: i < n <= j && n < |run| && run[n].op.Claim? ==> run[n].now < moment
  }

  // ----- What stands on a key ------------------------------------------------------------------

  /** The row is on the key if `there` says so, and no row otherwise. */
  ghost predicate Stands(rows: Table, key: Key, row: Row, there: bool) {
    (key in rows <==> there) && (there ==> rows[key] == row)
  }

  /** A call that does not succeed on the key leaves its row alone, unless a claim finds it expired. */
  lemma QuietStep(c: Config, rows: Table, now: int, op: Op, key: Key, row: Row, there: bool)
    requires Stands(rows, key, row, there)
    requires var outcome := Apply(c, rows, now, op).outcome; op.key == key ==> !outcome.Claimed? && outcome != Flag(true)
    ensures Stands(Apply(c, rows, now, op).rows, key, row, there && (op.Claim? ==> now < row.expiresAt))
  {
  }

  lemma {:induction false} QuietEvents(c: Config, init: Table, run: Run, from: nat, m: nat, key: Key, row: Row, there: bool)
    requires from <= m <= |run| && NoneSucceeded(c, init, run, from, m, key)
    requires Stands(StateAt(c, init, run, from), key, row, there)
    ensures Stands(StateAt(c, init, run, m), key, row,
                   there && forall n :: from <= n < m && run[n].op.Claim? ==> run[n].now < row.expiresAt)
    decreases m
  {
    hide Apply, Stands;
    if m > from {
      QuietEvents(c, init, run, from, m - 1, key, row, there);
      assert !Succeeded(c, init, run, m - 1, key);
      QuietStep(c, StateAt(c, init, run, m - 1), run[m - 1].now, run[m - 1].op, key, row,
                there && forall n :: from <= n < m - 1 && run[n].op.Claim? ==> run[n].now < row.expiresAt);
    }
  }

  lemma GrantStep(c: Config, rows: Table, now: int, op: Op)
    requires op.Claim? || op.Renew?
    requires Apply(c, rows, now, op).outcome.Claimed? || Apply(c, rows, now, op).outcome == Flag(true)
    ensures Stands(Apply(c, rows, now, op).rows, op.key,
                   Row(op.hash, Processing, op.token, now + c.lockSecs, now + c.ttlSecs), true)
  {
  }

  /** After a grant its row stands, with lock and expiry counted from its reading, until the next
      success on the key or until a claim reads the clock past the expiry. */
  lemma GrantStands(c: Config, init: Table, run: Run, g: nat, m: nat, key: Key)
    requires LastGranted(c, init, run, g, m, key)
    ensures var e := run[g];
            Stands(StateAt(c, init, run, m), key,
                   Row(e.op.hash, Processing, e.op.token, e.now + c.lockSecs, e.now + c.ttlSecs),
                   Unpurged(run, g, m - 1, e.now + c.ttlSecs))
  {
    hide Apply, Stands;
    var e := run[g];
    GrantStep(c, StateAt(c, init, run, g), e.now, e.op);
    QuietEvents(c, init, run, g + 1, m, key,
                Row(e.op.hash, Processing, e.op.token, e.now + c.lockSecs, e.now + c.ttlSecs), true);
  }

  // ----- Claims --------------------------------------------------------------------------------

  /** The claim at event j got the key, with a row of its own. */
  ghost predicate TookOver(c: Config, init: Table, run: Run, j: nat) {
    && j < |run| && OutcomeAt(c, init, run, j) == Claimed(run[j].op.token)
    && var e := run[j];
       Stands(StateAt(c, init, run, j + 1), e.op.key,
              Row(e.op.hash, Processing, e.op.token, e.now + c.lockSecs, e.now + c.ttlSecs), true)
  }

  /** A claim after a grant read at t, with nothing completed or handed back since: before t + ttl the
      other hash conflicts, and the same hash waits for the lock and then takes the key over.  Once a
      claim has read t + ttl or later, this one included, any claim gets the key. */
  lemma ClaimAfterGrant(c: Config, init: Table, run: Run, g: nat, j: nat, key: Key)
    requires LastGranted(c, init, run, g, j, key) && j < |run| && run[j].op.Claim? && run[j].op.key == key
    ensures var t, same, now := run[g].now, run[j].op.hash == run[g].op.hash, run[j].now;
            var live := Unpurged(run, g, j, t + c.ttlSecs);
            && (TookOver(c, init, run, j) <==> !live || (same && t + c.lockSecs <= now))
            && (OutcomeAt(c, init, run, j) == InProgress <==> live && same && now < t + c.lockSecs)
            && (OutcomeAt(c, init, run, j) == Conflict <==> live && !same)
  {
    GrantStands(c, init, run, g, j, key);
  }

  /** A claim after a complete: until a claim reads t + ttl or later, where t is the reading of the grant
      that was completed, the same hash replays the response and another one conflicts. */
  lemma ClaimAfterComplete(c: Config, init: Table, run: Run, g: nat, d: nat, j: nat, key: Key)
    requires LastGranted(c, init, run, g, d, key) && LastSuccess(c, init, run, d, j, key) && run[d].op.Complete?
    requires j < |run| && run[j].op.Claim? && run[j].op.key == key
    ensures var t, same := run[g].now, run[j].op.hash == run[d].op.hash;
            var live := Unpurged(run, d, j, t + c.ttlSecs);
            && (OutcomeAt(c, init, run, j) == Replay(run[d].op.response) <==> live && same)
            && (OutcomeAt(c, init, run, j) == Conflict <==> live && !same)
            && (TookOver(c, init, run, j) <==> !live)
  {
    CompletedStands(c, init, run, g, d, j, key);
  }

  lemma CompletedStands(c: Config, init: Table, run: Run, g: nat, d: nat, m: nat, key: Key)
    requires LastGranted(c, init, run, g, d, key) && LastSuccess(c, init, run, d, m, key) && run[d].op.Complete?
    ensures Stands(StateAt(c, init, run, m), key,
                   Row(run[d].op.hash, Completed(run[d].op.response), run[d].op.token, 0, run[g].now + c.ttlSecs),
                   Unpurged(run, d, m - 1, run[g].now + c.ttlSecs))
  {
    hide Stands, Apply, Holds;
    var row := Row(run[d].op.hash, Completed(run[d].op.response), run[d].op.token, 0, run[g].now + c.ttlSecs);
    GrantStands(c, init, run, g, d, key);
    CompleteStep(c, StateAt(c, init, run, d), run[d].now, run[d].op, run[g].op.hash, run[g].op.token,
                 run[g].now + c.lockSecs, run[g].now + c.ttlSecs, Unpurged(run, g, d - 1, run[g].now + c.ttlSecs));
    QuietEvents(c, init, run, d + 1, m, key, row, true);
  }

  lemma CompleteStep(c: Config, rows: Table, now: int, op: Op, hash: Hash, token: Token, lock: int, expiry: int, there: bool)
    requires op.Complete? && Stands(rows, op.key, Row(hash, Processing, token, lock, expiry), there)
    requires Apply(c, rows, now, op).outcome.Claimed? || Apply(c, rows, now, op).outcome == Flag(true)
    ensures Stands(Apply(c, rows, now, op).rows, op.key, Row(op.hash, Completed(op.response), op.token, 0, expiry), true)
  {
  }

  ghost predicate HandedBack(c: Config, init: Table, run: Run, j: nat, key: Key) {
    exists d: nat :: LastSuccess(c, init, run, d, j, key) && run[d].op.Abandon?
  }

  /** Nobody ever got the key, or the last success on it handed it back. */
  ghost predicate NobodyHas(c: Config, init: Table, run: Run, j: nat, key: Key) {
    (key !in init && NoneSucceeded(c, init, run, 0, j, key)) || HandedBack(c, init, run, j, key)
  }

  /** A claim gets a key that nobody ever got, or that was handed back by the last success on it. */
  lemma ClaimOfFreeKey(c: Config, init: Table, run: Run, j: nat, key: Key)
    requires j < |run| && run[j].op.Claim? && run[j].op.key == key
    requires NobodyHas(c, init, run, j, key)
    ensures TookOver(c, init, run, j)
  {
    KeyIsFree(c, init, run, j, key);
  }

  lemma KeyIsFree(c: Config, init: Table, run: Run, j: nat, key: Key)
    requires j <= |run|
    requires NobodyHas(c, init, run, j, key)
    ensures key !in StateAt(c, init, run, j)
  {
    hide Holds, Purge;
    var row := Row("", Processing, "", 0, 0);
    if key !in init && NoneSucceeded(c, init, run, 0, j, key) {
      QuietEvents(c, init, run, 0, j, key, row, false);
    } else {
      var d: nat :| LastSuccess(c, init, run, d, j, key) && run[d].op.Abandon?;
      QuietEvents(c, init, run, d + 1, j, key, row, false);
    }
  }

  // ----- Complete, abandon, renew ----------------------------------------------------------------

  /** From the empty table the last success before a complete is the grant it completes. */
  lemma CompletesAGrant(c: Config, run: Run, d: nat, key: Key) returns (g: nat)
    requires Succeeded(c, map[], run, d, key) && !run[d].op.Claim?
    ensures LastGranted(c, map[], run, g, d, key)
  {
    if NoneSucceeded(c, map[], run, 0, d, key) {
      KeyIsFree(c, map[], run, d, key);
      assert false;
    }
    g := LastOf(c, run, d, key);
    if run[g].op.Complete? {
      var row := StateAt(c, map[], run, g + 1)[key];
      QuietEvents(c, map[], run, g + 1, d, key, row, true);
      assert false;
    } else if run[g].op.Abandon? {
      KeyIsFree(c, map[], run, d, key);
      assert false;
    }
  }

  /** If anything succeeded on the key, there is a last success. */
  lemma {:induction false} LastOf(c: Config, run: Run, j: nat, key: Key) returns (g: nat)
    requires j <= |run| && !NoneSucceeded(c, map[], run, 0, j, key)
    ensures LastSuccess(c, map[], run, g, j, key)
    decreases j
  {
    hide Succeeded;
    if Succeeded(c, map[], run, j - 1, key) {
      g := j - 1;
    } else {
      g := LastOf(c, run, j - 1, key);
    }
  }

  /** The caller of event j holds the lease: the last success on the key was a grant to its own token
      for its own hash, and no claim has purged the row since.  The clock of the call itself is not
      looked at. */
  ghost predicate HoldsLease(c: Config, run: Run, g: nat, j: nat) {
    && j < |run| && LastGranted(c, map[], run, g, j, run[j].op.key)
    && run[g].op.token == run[j].op.token && run[g].op.hash == run[j].op.hash
    && Unpurged(run, g, j - 1, run[g].now + c.ttlSecs)
  }

  /** In every run from the empty table a complete, an abandon or a renewal succeeds exactly for the
      holder of the lease. */
  lemma FencedCallSucceedsIff(c: Config, run: Run, j: nat)
    requires j < |run| && !run[j].op.Claim?
    ensures OutcomeAt(c, map[], run, j) == Flag(exists g :: HoldsLease(c, run, g, j))
  {
    var key := run[j].op.key;
    if g :| HoldsLease(c, run, g, j) {
      GrantStands(c, map[], run, g, j, key);
    }
    if OutcomeAt(c, map[], run, j) == Flag(true) {
      var g := CompletesAGrant(c, run, j, key);
      GrantStands(c, map[], run, g, j, key);
      assert HoldsLease(c, run, g, j);
    }
  }

  /** So every claim of every run from the empty table is one of these: nobody holds the key, or the
      last success on it was a grant, or it was the complete of a grant. */
  lemma EveryClaimIsCovered(c: Config, run: Run, j: nat)
    requires j < |run| && run[j].op.Claim?
    ensures var key := run[j].op.key;
            || NobodyHas(c, map[], run, j, key)
            || (exists g: nat :: LastGranted(c, map[], run, g, j, key))
            || (exists g: nat, d: nat :: LastGranted(c, map[], run, g, d, key) && LastSuccess(c, map[], run, d, j, key)
                               && run[d].op.Complete?)
  {
    var key := run[j].op.key;
    if !NoneSucceeded(c, map[], run, 0, j, key) {
      var d := LastOf(c, run, j, key);
      if run[d].op.Complete? {
        var g := CompletesAGrant(c, run, d, key);
      } else if run[d].op.Abandon? {
        assert HandedBack(c, map[], run, j, key);
      } else {
        assert LastGranted(c, map[], run, d, j, key);
      }
    }
  }
}
