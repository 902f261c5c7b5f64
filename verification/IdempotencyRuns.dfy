/** Safety of the idempotency store over every run: any callers, any interleaving of their
    claims, renewals, completions and abandons.

    Events are listed in the order in which their transactions commit.  A method reads the clock
    before its transaction starts, so the readings of different callers need not be in that order. */
module IdempotencyRuns {
  import opened Options
  import opened Idempotency

  datatype Event = Event(now: int, op: Op)

  type Run = seq<Event>

  /** The calls one holder of a token makes for a key follow each other, and so do their readings. */
  ghost predicate CallersInOrder(run: Run) {
    forall i, j :: 0 <= i <= j < |run| && run[i].op.key == run[j].op.key && run[i].op.token == run[j].op.token ==>
                     run[i].now <= run[j].now
  }

  /** All readings are in the order of the commits. */
  ghost predicate ClockMonotone(run: Run) {
    forall i, j :: 0 <= i <= j < |run| ==> run[i].now <= run[j].now
  }

  /** The table before event i, for a run that starts from `init`. */
  ghost function StateAt(c: Config, init: Table, run: Run, i: nat): Table
    requires i <= |run|
  {
    if i == 0 then init else Apply(c, StateAt(c, init, run, i - 1), run[i - 1].now, run[i - 1].op).rows
  }

  ghost function OutcomeAt(c: Config, init: Table, run: Run, i: nat): Outcome
    requires i < |run|
  {
    Apply(c, StateAt(c, init, run, i), run[i].now, run[i].op).outcome
  }

  /** Event i hands `token` a lease on `key`: a successful claim or a successful renewal. */
  ghost predicate Granted(c: Config, init: Table, run: Run, i: nat, key: Key, token: Token) {
    && i < |run|
    && run[i].op.key == key && run[i].op.token == token
    && ((run[i].op.Claim? && OutcomeAt(c, init, run, i).Claimed?)
        || (run[i].op.Renew? && OutcomeAt(c, init, run, i) == Flag(true)))
  }

  ghost predicate Abandoned(c: Config, init: Table, run: Run, i: nat, key: Key, token: Token) {
    && i < |run|
    && run[i].op.Abandon? && run[i].op.key == key && run[i].op.token == token
    && OutcomeAt(c, init, run, i) == Flag(true)
  }

  ghost predicate CompletedBy(c: Config, init: Table, run: Run, i: nat, key: Key) {
    i < |run| && run[i].op.Complete? && run[i].op.key == key && OutcomeAt(c, init, run, i) == Flag(true)
  }

  // ----- Mutual exclusion --------------------------------------------------------------

  /** `token` still occupies `key`, with a lock no shorter than `until`, or it finished its work. */
  ghost predicate Occupied(rows: Table, key: Key, token: Token, until: int) {
    && key in rows && rows[key].leaseToken == token && rows[key].expiresAt >= until
    && (rows[key].state.Processing? ==> rows[key].lockedUntil >= until)
  }

  lemma OccupiedStep(c: Config, rows: Table, now: int, op: Op, key: Key, token: Token, until: int)
    requires c.ttlSecs >= c.lockSecs
    requires Occupied(rows, key, token, until) && now < until
    requires op.key == key && op.token == token ==> now + c.lockSecs >= until
    requires !(op.Abandon? && op.key == key && op.token == token && Apply(c, rows, now, op).outcome == Flag(true))
    ensures Occupied(Apply(c, rows, now, op).rows, key, token, until)
    ensures op.Claim? && op.key == key ==> !Apply(c, rows, now, op).outcome.Claimed?
    ensures op.Renew? && op.key == key && op.token != token ==> Apply(c, rows, now, op).outcome == Flag(false)
  {
  }

  /** While nobody abandons it, a grant made at event i keeps its key until its lock runs out. */
  lemma {:induction false} GrantOccupies(c: Config, init: Table, run: Run, i: nat, m: nat, key: Key, token: Token)
    requires c.ttlSecs >= c.lockSecs && CallersInOrder(run)
    requires i < m <= |run| && Granted(c, init, run, i, key, token)
    requires forall n :: i < n < m ==> run[n].now < run[i].now + c.lockSecs
    requires forall n :: i < n < m ==> !Abandoned(c, init, run, n, key, token)
    ensures Occupied(StateAt(c, init, run, m), key, token, run[i].now + c.lockSecs)
    decreases m
  {
    if m > i + 1 {
      GrantOccupies(c, init, run, i, m - 1, key, token);
      assert !Abandoned(c, init, run, m - 1, key, token);
      OccupiedStep(c, StateAt(c, init, run, m - 1), run[m - 1].now, run[m - 1].op, key, token,
                   run[i].now + c.lockSecs);
    }
  }

  /** Between a grant and a later event some call read the clock a whole lock after the grant, or the
      grant was handed back. */
  ghost predicate Separated(c: Config, init: Table, run: Run, i: nat, j: nat, key: Key, first: Token) {
    && i < |run| && j < |run|
    && ((exists n :: i < n <= j && run[n].now >= run[i].now + c.lockSecs)
        || (exists m :: i < m < j && Abandoned(c, init, run, m, key, first)))
  }

  /** Two different tokens get the same key one after the other only if the lock of the first ran out
      by some reading in between, or the first one was handed back. */
  lemma LeaseExclusion(c: Config, init: Table, run: Run, i: nat, j: nat, key: Key, first: Token, second: Token)
    requires c.ttlSecs >= c.lockSecs && CallersInOrder(run)
    requires i < j && first != second
    requires Granted(c, init, run, i, key, first) && Granted(c, init, run, j, key, second)
    ensures Separated(c, init, run, i, j, key, first)
  {
    if !Separated(c, init, run, i, j, key, first) {
      GrantOccupies(c, init, run, i, j, key, first);
      OccupiedStep(c, StateAt(c, init, run, j), run[j].now, run[j].op, key, first, run[i].now + c.lockSecs);
      assert false;
    }
  }

  /** When all readings are in order, that is the reading of the second grant itself. */
  lemma LeaseExclusionOnOneClock(c: Config, init: Table, run: Run, i: nat, j: nat, key: Key, first: Token, second: Token)
    requires c.ttlSecs >= c.lockSecs && ClockMonotone(run)
    requires i < j && first != second
    requires Granted(c, init, run, i, key, first) && Granted(c, init, run, j, key, second)
    ensures run[j].now >= run[i].now + c.lockSecs || exists m :: i < m < j && Abandoned(c, init, run, m, key, first)
  {
    LeaseExclusion(c, init, run, i, j, key, first, second);
  }

  /** No two callers ever hold the same key at once, in any run from any table. */
  ghost predicate ExclusiveInEveryRun(c: Config) {
    forall init: Table, run: Run, i: nat, j: nat, key: Key, first: Token, second: Token ::
      CallersInOrder(run) && i < j && first != second
      && Granted(c, init, run, i, key, first) && Granted(c, init, run, j, key, second)
      ==> Separated(c, init, run, i, j, key, first)
  }

  /** Leases exclude one another in every run exactly when a row outlives its lock. */
  lemma ExclusiveIffRowsOutliveLocks(c: Config)
    ensures ExclusiveInEveryRun(c) <==> c.ttlSecs >= c.lockSecs
  {
    if c.ttlSecs >= c.lockSecs {
      forall init: Table, run: Run, i: nat, j: nat, key: Key, first: Token, second: Token |
        CallersInOrder(run) && i < j && first != second
        && Granted(c, init, run, i, key, first) && Granted(c, init, run, j, key, second)
        ensures Separated(c, init, run, i, j, key, first)
      {
        LeaseExclusion(c, init, run, i, j, key, first, second);
      }
    } else {
      EarlyPurgeOverlap(c);
    }
  }

  /** When a row expires before its lock does, a second claim is let in while the first lease
      still runs. */
  lemma EarlyPurgeOverlap(c: Config)
    requires c.ttlSecs < c.lockSecs
    ensures !ExclusiveInEveryRun(c)
  {
    var run := [Event(0, Claim("k", "h", "a")), Event(c.ttlSecs, Claim("k", "h", "b"))];
    var init: Table := map[];
    assert StateAt(c, init, run, 0) == init;
    assert Granted(c, init, run, 0, "k", "a");
    var rows := StateAt(c, init, run, 1);
    assert rows == init["k" := Row("h", Processing, "a", c.lockSecs, c.ttlSecs)] by {
      assert Purge(init, 0) == init;
    }
    assert "k" !in Purge(rows, c.ttlSecs);
    assert Granted(c, init, run, 1, "k", "b");
    assert !Separated(c, init, run, 0, 1, "k", "a");
  }

  // ----- Fencing -----------------------------------------------------------------------

  /** Every claim brings a token nobody used before. */
  ghost predicate FreshTokens(init: Table, run: Run) {
    && (forall i, j :: 0 <= i < j < |run| && run[i].op.Claim? && run[j].op.Claim? ==>
          run[i].op.token != run[j].op.token)
    && (forall i, k :: 0 <= i < |run| && run[i].op.Claim? && k in init ==> init[k].leaseToken != run[i].op.token)
  }

  ghost predicate Unused(rows: Table, token: Token) {
    forall k :: k in rows ==> rows[k].leaseToken != token
  }

  lemma UnusedStep(c: Config, rows: Table, now: int, op: Op, token: Token)
    requires Unused(rows, token)
    requires !(op.Claim? && op.token == token)
    ensures Unused(Apply(c, rows, now, op).rows, token)
    ensures !op.Claim? && op.token == token ==> Apply(c, rows, now, op) == Step(rows, Flag(false))
  {
  }

  /** Once no row carries a token it is dead: none ever will again, unless it is claimed anew. */
  lemma {:induction false} TokenStaysDead(c: Config, init: Table, run: Run, from: nat, m: nat, token: Token)
    requires from <= m <= |run| && Unused(StateAt(c, init, run, from), token)
    requires forall n :: from <= n < m && run[n].op.Claim? ==> run[n].op.token != token
    ensures Unused(StateAt(c, init, run, m), token)
    decreases m
  {
    if m > from {
      TokenStaysDead(c, init, run, from, m - 1, token);
      UnusedStep(c, StateAt(c, init, run, m - 1), run[m - 1].now, run[m - 1].op, token);
    }
  }

  /** Before its claim runs, a fresh token is in no row. */
  lemma FreshTokenUnused(c: Config, init: Table, run: Run, i: nat, m: nat)
    requires FreshTokens(init, run) && i < |run| && run[i].op.Claim? && m <= i
    ensures Unused(StateAt(c, init, run, m), run[i].op.token)
  {
    TokenStaysDead(c, init, run, 0, m, run[i].op.token);
  }

  /** The token sits on no other key than this one. */
  ghost predicate OnlyOn(rows: Table, key: Key, token: Token) {
    forall k :: k in rows && k != key ==> rows[k].leaseToken != token
  }

  lemma OnlyOnStep(c: Config, rows: Table, now: int, op: Op, key: Key, token: Token)
    requires OnlyOn(rows, key, token) && (op.Claim? && op.token == token ==> op.key == key)
    ensures OnlyOn(Apply(c, rows, now, op).rows, key, token)
  {
  }

  /** After its claim, a fresh token can only sit on the key it claimed. */
  lemma {:induction false} TokenOnlyOnItsKey(c: Config, init: Table, run: Run, i: nat, m: nat)
    requires FreshTokens(init, run) && i < m <= |run| && run[i].op.Claim?
    ensures OnlyOn(StateAt(c, init, run, m), run[i].op.key, run[i].op.token)
    decreases m
  {
    if m == i + 1 {
      FreshTokenUnused(c, init, run, i, i);
    } else {
      TokenOnlyOnItsKey(c, init, run, i, m - 1);
    }
    OnlyOnStep(c, StateAt(c, init, run, m - 1), run[m - 1].now, run[m - 1].op, run[i].op.key, run[i].op.token);
  }

  /** A superseded token is powerless for good: when a later claim took over its key, every
      call it still makes returns False and changes nothing. */
  lemma SupersededTokenIsFenced(c: Config, init: Table, run: Run, i: nat, j: nat, m: nat)
    requires FreshTokens(init, run)
    requires i < j < m < |run| && run[i].op.Claim? && run[j].op.Claim? && run[i].op.key == run[j].op.key
    requires OutcomeAt(c, init, run, i).Claimed? && OutcomeAt(c, init, run, j).Claimed?
    requires !run[m].op.Claim? && run[m].op.token == run[i].op.token
    ensures OutcomeAt(c, init, run, m) == Flag(false)
    ensures StateAt(c, init, run, m + 1) == StateAt(c, init, run, m)
  {
    TokenOnlyOnItsKey(c, init, run, i, j + 1);
    assert Unused(StateAt(c, init, run, j + 1), run[i].op.token);
    TokenStaysDead(c, init, run, j + 1, m, run[i].op.token);
    UnusedStep(c, StateAt(c, init, run, m), run[m].now, run[m].op, run[i].op.token);
  }

  // ----- Cleaning up after a cancelled claim ---------------------------------------------

  /** A cancelled caller only polls abandon with its escrow token.  Whenever its claim commits,
      the first poll after the commit leaves no row with that token, then or ever after, and it
      touches no row but its own.  A poll before the commit is a no-op. */
  lemma OrphanPollReleases(c: Config, init: Table, run: Run, commit: nat, poll: nat, m: nat)
    requires FreshTokens(init, run)
    requires commit < |run| && poll < |run| && poll < m <= |run| && run[commit].op.Claim?
    requires var op := run[commit].op; run[poll].op == Abandon(op.key, op.hash, op.token)
    requires forall n :: 0 <= n < |run| && n != commit && run[n].op.token == run[commit].op.token ==>
               run[n].op.Abandon?
    ensures var token := run[commit].op.token;
            && StateAt(c, init, run, poll + 1) - {run[commit].op.key} == StateAt(c, init, run, poll) - {run[commit].op.key}
            && (OutcomeAt(c, init, run, poll) == Flag(true) ==>
                  && run[commit].op.key in StateAt(c, init, run, poll)
                  && StateAt(c, init, run, poll)[run[commit].op.key].leaseToken == token)
            && (poll < commit ==> StateAt(c, init, run, poll + 1) == StateAt(c, init, run, poll))
            && (commit < poll ==> Unused(StateAt(c, init, run, m), token))
  {
    var token := run[commit].op.token;
    if poll < commit {
      FreshTokenUnused(c, init, run, commit, poll);
      UnusedStep(c, StateAt(c, init, run, poll), run[poll].now, run[poll].op, token);
    } else {
      TokenOnlyOnItsKey(c, init, run, commit, poll);
      OrphanRowUntouched(c, init, run, commit, poll);
      assert Unused(StateAt(c, init, run, poll + 1), token);
      TokenStaysDead(c, init, run, poll + 1, m, token);
    }
  }

  /** If the key still carries the token, the row is the one the claim wrote. */
  ghost predicate HoldsIfThere(rows: Table, key: Key, hash: Hash, token: Token) {
    key in rows && rows[key].leaseToken == token ==> Holds(rows, key, hash, token)
  }

  lemma HoldsIfThereStep(c: Config, rows: Table, now: int, op: Op, key: Key, hash: Hash, token: Token)
    requires HoldsIfThere(rows, key, hash, token)
    requires op.token == token ==> op.Abandon? || op == Claim(key, hash, token)
    ensures HoldsIfThere(Apply(c, rows, now, op).rows, key, hash, token)
  {
  }

  /** Until it is abandoned, the row of a claim nobody completes keeps the claim's own hash
      and stays in processing. */
  lemma {:induction false} OrphanRowUntouched(c: Config, init: Table, run: Run, commit: nat, m: nat)
    requires FreshTokens(init, run) && commit < m <= |run| && run[commit].op.Claim?
    requires forall n :: commit < n < m && run[n].op.token == run[commit].op.token ==> run[n].op.Abandon?
    ensures var op := run[commit].op; HoldsIfThere(StateAt(c, init, run, m), op.key, op.hash, op.token)
    decreases m
  {
    hide Apply, Holds;
    var op := run[commit].op;
    if m == commit + 1 {
      FreshTokenUnused(c, init, run, commit, commit);
    } else {
      OrphanRowUntouched(c, init, run, commit, m - 1);
    }
    HoldsIfThereStep(c, StateAt(c, init, run, m - 1), run[m - 1].now, run[m - 1].op, op.key, op.hash, op.token);
  }

  // ----- Replay --------------------------------------------------------------------------

  lemma CompletedRowStep(c: Config, rows: Table, now: int, op: Op, key: Key)
    requires key in rows && rows[key].state.Completed? && now < rows[key].expiresAt
    ensures key in Apply(c, rows, now, op).rows && Apply(c, rows, now, op).rows[key] == rows[key]
    ensures op.key == key && op.Claim? && op.hash == rows[key].requestHash ==>
              Apply(c, rows, now, op).outcome == Replay(rows[key].state.response)
    ensures op.key == key && op.Claim? && op.hash != rows[key].requestHash ==>
              Apply(c, rows, now, op).outcome == Conflict
    ensures op.key == key && !op.Claim? ==> Apply(c, rows, now, op).outcome == Flag(false)
  {
  }

  lemma {:induction false} CompletedRowPersists(c: Config, init: Table, run: Run, from: nat, m: nat, key: Key)
    requires from <= m <= |run|
    requires key in StateAt(c, init, run, from) && StateAt(c, init, run, from)[key].state.Completed?
    requires forall n :: from <= n < m ==> run[n].now < StateAt(c, init, run, from)[key].expiresAt
    ensures key in StateAt(c, init, run, m) && StateAt(c, init, run, m)[key] == StateAt(c, init, run, from)[key]
    decreases m
  {
    if m > from {
      CompletedRowPersists(c, init, run, from, m - 1, key);
      CompletedRowStep(c, StateAt(c, init, run, m - 1), run[m - 1].now, run[m - 1].op, key);
    }
  }

  /** No call after event i and up to event j read the clock at or after this moment. */
  ghost predicate NotYet(run: Run, i: nat, j: nat, moment: int) {
    forall n :: i < n <= j && n < |run| ==> run[n].now < moment
  }

  /** From a successful complete until the row expires, nothing alters the row; a claim with
      the same hash replays exactly the stored response, any other hash conflicts, and every
      complete, abandon or renewal is refused. */
  lemma CompletedResponseIsReplayed(c: Config, init: Table, run: Run, i: nat, j: nat)
    requires i < j < |run|
    requires run[i].op.Complete? && OutcomeAt(c, init, run, i) == Flag(true)
    ensures var key := run[i].op.key;
            && key in StateAt(c, init, run, i + 1)
            && var row := StateAt(c, init, run, i + 1)[key];
               row.state == Completed(run[i].op.response) && row.requestHash == run[i].op.hash
               && (NotYet(run, i, j, row.expiresAt) ==>
                     && key in StateAt(c, init, run, j + 1) && StateAt(c, init, run, j + 1)[key] == row
                     && (run[j].op.key == key ==>
                           OutcomeAt(c, init, run, j) ==
                           if !run[j].op.Claim? then Flag(false)
                           else if run[j].op.hash == run[i].op.hash then Replay(run[i].op.response)
                           else Conflict))
  {
    var key := run[i].op.key;
    var row := StateAt(c, init, run, i + 1)[key];
    if NotYet(run, i, j, row.expiresAt) {
      CompletedRowPersists(c, init, run, i + 1, j, key);
      CompletedRowStep(c, StateAt(c, init, run, j), run[j].now, run[j].op, key);
    }
  }

  /** What stands on a key between two events when no claim for it succeeds in between. */
  lemma {:induction false} NoClaimNoProcessing(c: Config, init: Table, run: Run, from: nat, m: nat, key: Key)
    requires from <= m <= |run|
    requires key in StateAt(c, init, run, from) ==> StateAt(c, init, run, from)[key].state.Completed?
    requires forall n :: from <= n < m && run[n].op.Claim? && run[n].op.key == key ==>
               !OutcomeAt(c, init, run, n).Claimed?
    ensures key in StateAt(c, init, run, m) ==> StateAt(c, init, run, m)[key].state.Completed?
    decreases m
  {
    if m > from {
      NoClaimNoProcessing(c, init, run, from, m - 1, key);
    }
  }

  /** One complete per row lifetime: between two successful completes of one key some call found the
      first row expired, and the key was claimed anew no earlier than that. */
  lemma OneCompletePerLifetime(c: Config, init: Table, run: Run, i: nat, j: nat, key: Key)
    requires i < j && CompletedBy(c, init, run, i, key) && CompletedBy(c, init, run, j, key)
    ensures key in StateAt(c, init, run, i + 1)
    ensures exists g :: i < g < j && run[g].op.Claim? && Granted(c, init, run, g, key, run[g].op.token)
                        && !NotYet(run, i, g, StateAt(c, init, run, i + 1)[key].expiresAt)
  {
    if forall g :: i < g < j && run[g].op.Claim? && run[g].op.key == key ==> !OutcomeAt(c, init, run, g).Claimed? {
      NoClaimNoProcessing(c, init, run, i + 1, j, key);
      assert false;
    }
    var g :| i < g < j && run[g].op.Claim? && run[g].op.key == key && OutcomeAt(c, init, run, g).Claimed?;
    if NotYet(run, i, g, StateAt(c, init, run, i + 1)[key].expiresAt) {
      CompletedResponseIsReplayed(c, init, run, i, g);
      assert false;
    }
    assert Granted(c, init, run, g, key, run[g].op.token);
  }

  // ----- Where rows come from --------------------------------------------------------------

  /** The last grant a row carries: its expiry, and its lock while it is processing, were both
      counted from the clock of that grant. */
  ghost predicate FromGrant(c: Config, init: Table, run: Run, g: nat, m: nat, key: Key) {
    && m <= |run| && g < m && key in StateAt(c, init, run, m)
    && var row := StateAt(c, init, run, m)[key];
       && Granted(c, init, run, g, key, row.leaseToken)
       && row.expiresAt == run[g].now + c.ttlSecs
       && (row.state.Processing? ==> row.lockedUntil == run[g].now + c.lockSecs)
  }

  /** In a run from the empty table every row stems from a grant, and so a completed response is
      replayed for ttlSecs from the last grant of the claim that produced it. */
  lemma {:induction false} RowsStemFromGrants(c: Config, run: Run, m: nat, key: Key) returns (g: nat)
    requires m <= |run| && key in StateAt(c, map[], run, m)
    ensures FromGrant(c, map[], run, g, m, key)
    decreases m
  {
    var before, after := StateAt(c, map[], run, m - 1), StateAt(c, map[], run, m);
    if key in before && after[key].leaseToken == before[key].leaseToken
       && after[key].expiresAt == before[key].expiresAt
       && (after[key].state.Processing? ==> before[key].state.Processing? && after[key].lockedUntil == before[key].lockedUntil) {
      g := RowsStemFromGrants(c, run, m - 1, key);
    } else {
      g := m - 1;
    }
  }
}
