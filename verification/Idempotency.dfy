/** The idempotency reservation table and the store that works on it.

    A clock reading is an integer number of ticks, and durations are counted in the same
    ticks.  Each store method is one transaction, so one method call is one atomic step. */
module Idempotency {
  import opened Options

  type Key = string
  type Hash = string
  type Token = string

  datatype Response = Response(status: int, body: seq<bv8>, contentType: Option<string>)

  datatype RowState = Processing | Completed(response: Response)

  datatype Row = Row(requestHash: Hash, state: RowState, leaseToken: Token, lockedUntil: int, expiresAt: int)

  type Table = map<Key, Row>

  datatype Config = Config(ttlSecs: nat, lockSecs: nat)

  datatype Outcome =
    | Claimed(token: Token)
    | Conflict
    | Replay(response: Response)
    | InProgress
    | Flag(ok: bool)

  datatype Op =
    | Claim(key: Key, hash: Hash, token: Token)
    | Complete(key: Key, hash: Hash, token: Token, response: Response)
    | Abandon(key: Key, hash: Hash, token: Token)
    | Renew(key: Key, hash: Hash, token: Token)

  datatype Step = Step(rows: Table, outcome: Outcome)

  /** The rows that outlive the purge every claim starts with. */
  function Purge(rows: Table, now: int): Table {
    map k | k in rows && rows[k].expiresAt > now :: rows[k]
  }

  /** The caller's claim owns the row: the fencing condition of complete, abandon and renew. */
  predicate Holds(rows: Table, key: Key, hash: Hash, token: Token) {
    key in rows && rows[key].requestHash == hash && rows[key].leaseToken == token && rows[key].state.Processing?
  }

  function ClaimStep(c: Config, rows: Table, now: int, key: Key, hash: Hash, token: Token): Step {
    var live := Purge(rows, now);
    if key !in live then
      Step(live[key := Row(hash, Processing, token, now + c.lockSecs, now + c.ttlSecs)], Claimed(token))
    else
      var row := live[key];
      if row.requestHash != hash then Step(live, Conflict)
      else if row.state.Completed? then Step(live, Replay(row.state.response))
      else if row.lockedUntil > now then Step(live, InProgress)
      else
        Step(live[key := row.(leaseToken := token, lockedUntil := now + c.lockSecs, expiresAt := now + c.ttlSecs)],
             Claimed(token))
  }

  function Apply(c: Config, rows: Table, now: int, op: Op): Step {
    match op
    case Claim(key, hash, token) => ClaimStep(c, rows, now, key, hash, token)
    case Complete(key, hash, token, response) =>
      if Holds(rows, key, hash, token) then
        Step(rows[key := rows[key].(state := Completed(response), lockedUntil := 0)], Flag(true))
      else Step(rows, Flag(false))
    case Abandon(key, hash, token) =>
      if Holds(rows, key, hash, token) then Step(rows - {key}, Flag(true)) else Step(rows, Flag(false))
    case Renew(key, hash, token) =>
      if Holds(rows, key, hash, token) then
        Step(rows[key := rows[key].(lockedUntil := now + c.lockSecs, expiresAt := now + c.ttlSecs)], Flag(true))
      else Step(rows, Flag(false))
  }

  /** The store object.  `now` is the clock reading a method takes when it starts. */
  class IdempotencyStore {
    const config: Config
    var rows: Table

    constructor (config: Config)
      ensures this.config == config && rows == map[]
    {
      this.config := config;
      rows := map[];
    }

    /** `leaseToken` is the caller's escrow token; `generated` is the fresh token drawn when
        the caller brings none. */
    method Claim(now: int, key: Key, hash: Hash, leaseToken: Option<Token>, generated: Token) returns (claim: Outcome)
      modifies this
      ensures var token := if leaseToken.Some? && leaseToken.value != "" then leaseToken.value else generated;
              Step(rows, claim) == Apply(config, old(rows), now, Op.Claim(key, hash, token))
    {
      rows := map k | k in rows && rows[k].expiresAt > now :: rows[k];
      var token := generated;
      if leaseToken.Some? && leaseToken.value != "" {
        token := leaseToken.value;
      }
      if key !in rows {
        rows := rows[key := Row(hash, Processing, token, now + config.lockSecs, now + config.ttlSecs)];
        return Claimed(token);
      }
      var row := rows[key];
      if row.requestHash != hash {
        return Conflict;
      }
      if row.state.Completed? {
        return Replay(row.state.response);
      }
      if row.lockedUntil > now {
        return InProgress;
      }
      rows := rows[key := row.(leaseToken := token, lockedUntil := now + config.lockSecs,
                               expiresAt := now + config.ttlSecs)];
      return Claimed(token);
    }

    method Complete(now: int, key: Key, hash: Hash, token: Token, response: Response) returns (ok: bool)
      modifies this
      ensures Step(rows, Flag(ok)) == Apply(config, old(rows), now, Op.Complete(key, hash, token, response))
    {
      ok := Holds(rows, key, hash, token);
      if ok {
        rows := rows[key := rows[key].(state := Completed(response), lockedUntil := 0)];
      }
    }

    method Abandon(now: int, key: Key, hash: Hash, token: Token) returns (ok: bool)
      modifies this
      ensures Step(rows, Flag(ok)) == Apply(config, old(rows), now, Op.Abandon(key, hash, token))
    {
      ok := Holds(rows, key, hash, token);
      if ok {
        rows := rows - {key};
      }
    }

    method Renew(now: int, key: Key, hash: Hash, token: Token) returns (ok: bool)
      modifies this
      ensures Step(rows, Flag(ok)) == Apply(config, old(rows), now, Op.Renew(key, hash, token))
    {
      ok := Holds(rows, key, hash, token);
      if ok {
        rows := rows[key := rows[key].(lockedUntil := now + config.lockSecs, expiresAt := now + config.ttlSecs)];
      }
    }
  }
}
