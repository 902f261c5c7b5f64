/** The circuit breaker of one gateway process: the row kept per route, the atomic statements
    the methods issue, and the breaker object.

    Clock readings and cooldowns are integers in the same unit. */
module CircuitBreaker {
  import opened Options

  datatype State = Closed | Open | HalfOpen

  datatype Policy = Policy(
    consecutiveFailures: int,
    windowSize: int,
    failureRatio: real,
    cooldownSecs: int,
    halfOpenMaxProbes: int)

  datatype Row = Row(
    state: State,
    consecutive: int,
    windowFailures: int,
    windowTotal: int,
    windowStartedAt: int,
    openedAt: Option<int>,
    cooldownSecs: Option<int>,
    probeInflight: bool,
    probes: int,
    payloadCeiling: Option<int>)

  datatype Decision = Decision(allowed: bool, state: State)

  const PAYLOAD_CEILING_MARGIN_BYTES: int := 1024
  const MIN_PAYLOAD_CEILING_BYTES: int := 32 * 1024

  /** The column defaults of an inserted row. */
  const NEW_ROW: Row := Row(Closed, 0, 0, 0, 0, None, None, false, 0, None)

  function Max(a: int, b: int): int { if a < b then b else a }

  // ----- Pieces of the methods ------------------------------------------------------------

  /** A stored cooldown of zero counts as absent. */
  function EffectiveCooldown(p: Policy, row: Row): int {
    if row.cooldownSecs.Some? && row.cooldownSecs.value != 0 then row.cooldownSecs.value else p.cooldownSecs
  }

  predicate CooldownExpired(p: Policy, row: Row, now: int) {
    row.openedAt == None || now - row.openedAt.value >= EffectiveCooldown(p, row)
  }

  datatype Window = Window(total: int, failures: int, startedAt: int)

  /** Counts one more outcome; past the window size both counters are halved. */
  function RollWindow(p: Policy, row: Row, success: bool, now: int): Window {
    var total := row.windowTotal + 1;
    var failures := row.windowFailures + if success then 0 else 1;
    if total > p.windowSize then Window(Max(1, total / 2), failures / 2, now)
    else Window(total, failures, row.windowStartedAt)
  }

  predicate ShouldTrip(p: Policy, consecutive: int, w: Window) {
    || consecutive >= p.consecutiveFailures
    || (w.total >= p.windowSize && w.total != 0 && (w.failures as real) / (w.total as real) >= p.failureRatio)
  }

  // ----- Atomic statements ----------------------------------------------------------------

  /** The conditional UPDATE that takes a probe slot; None when no row matched. */
  function ReserveProbe(db: Option<Row>, maxProbes: int, fromOpen: bool): Option<Row> {
    if db.Some? && db.value.probes < maxProbes && (db.value.state == HalfOpen || (fromOpen && db.value.state == Open))
    then Some(db.value.(state := HalfOpen, probes := db.value.probes + 1, probeInflight := true))
    else None
  }

  /** What record_success writes, given the row it read earlier. */
  function WriteSuccess(p: Policy, db: Option<Row>, read: Option<Row>, now: int): Option<Row> {
    if db == None || read == None then db
    else if read.value.state == HalfOpen then
      Some(db.value.(state := Closed, consecutive := 0, windowFailures := 0, windowTotal := 0,
                     windowStartedAt := now, openedAt := None, cooldownSecs := None,
                     probeInflight := false, probes := 0))
    else
      var w := RollWindow(p, read.value, true, now);
      Some(db.value.(state := Closed, consecutive := 0, windowFailures := w.failures, windowTotal := w.total,
                     windowStartedAt := w.startedAt, cooldownSecs := None))
  }

  function OverrideCooldown(row: Row, cooldown: Option<int>): Row {
    if cooldown.Some? && cooldown.value != 0 then row.(cooldownSecs := cooldown) else row
  }

  /** What record_failure writes, given the row it read earlier. */
  function WriteFailure(p: Policy, db: Option<Row>, read: Option<Row>, cooldown: Option<int>, now: int): Option<Row> {
    if read == None then
      var base := if db.Some? then db.value else NEW_ROW;
      var trip := ShouldTrip(p, 1, Window(1, 1, now));
      var row := base.(state := if trip then Open else Closed, consecutive := 1, windowFailures := 1,
                       windowTotal := 1, windowStartedAt := now,
                       openedAt := if trip then Some(now) else base.openedAt);
      Some(OverrideCooldown(row, cooldown))
    else if db == None then None
    else if read.value.state == HalfOpen then
      Some(OverrideCooldown(db.value.(state := Open, openedAt := Some(now), probeInflight := false, probes := 0), cooldown))
    else
      var consecutive := read.value.consecutive + 1;
      var w := RollWindow(p, read.value, false, now);
      var counted := db.value.(consecutive := consecutive, windowFailures := w.failures, windowTotal := w.total,
                               windowStartedAt := w.startedAt);
      if ShouldTrip(p, consecutive, w) then
        Some(OverrideCooldown(counted.(state := Open, openedAt := Some(now), probes := 0), cooldown))
      else Some(counted.(state := Closed))
  }

  function WriteRelease(db: Option<Row>): Option<Row> {
    if db == None then None else Some(db.value.(probeInflight := false))
  }

  function WriteAccepted(db: Option<Row>, read: Option<Row>, size: int): Option<Row> {
    if size <= 0 then db
    else if read == None then
      var base := if db.Some? then db.value else NEW_ROW;
      Some(base.(state := Closed, payloadCeiling := Some(size)))
    else if read.value.payloadCeiling.Some? && read.value.payloadCeiling.value >= size then db
    else if db == None then None
    else Some(db.value.(payloadCeiling := Some(size)))
  }

  function WriteRejected(db: Option<Row>, read: Option<Row>, size: int): Option<Row> {
    var candidate := Max(MIN_PAYLOAD_CEILING_BYTES, size - PAYLOAD_CEILING_MARGIN_BYTES);
    if size <= 0 then db
    else if read == None then
      var base := if db.Some? then db.value else NEW_ROW;
      Some(base.(state := Closed, payloadCeiling := Some(candidate)))
    else if read.value.payloadCeiling.Some? && read.value.payloadCeiling.value <= candidate then db
    else if db == None then None
    else Some(db.value.(payloadCeiling := Some(candidate)))
  }

  /** Startup recovery: a reservation left in flight by a dead process reopens the route. */
  function Recover(db: Option<Row>, now: int): Option<Row> {
    if db.Some? && db.value.state == HalfOpen && db.value.probeInflight
    then Some(db.value.(state := Open, probeInflight := false, probes := 0, openedAt := Some(now)))
    else db
  }

  // ----- check as a read followed by a statement ------------------------------------------

  datatype Checked = Checked(db: Option<Row>, decision: Decision)

  /** The part of `check` after its read: `read` is what it saw, `now` its clock reading. */
  function FinishCheck(p: Policy, db: Option<Row>, read: Option<Row>, force: bool, now: int): Checked {
    if read == None || read.value.state == Closed then Checked(db, Decision(true, Closed))
    else if read.value.state == Open && !force && !CooldownExpired(p, read.value, now) then
      Checked(db, Decision(false, Open))
    else
      var reserved := ReserveProbe(db, p.halfOpenMaxProbes, read.value.state == Open);
      if reserved.Some? then Checked(reserved, Decision(true, HalfOpen))
      else Checked(db, Decision(false, HalfOpen))
  }

  // ----- The breaker object ---------------------------------------------------------------

  type Route = (string, string)

  datatype Stats = Stats(trips: nat, shortCircuits: nat, probes: nat, probeSuccesses: nat, probeFailures: nat)

  class Breaker {
    const enabled: bool
    const policy: Policy
    const overrides: map<string, Policy>
    var rows: map<Route, Row>
    var stats: Stats

    constructor (enabled: bool, policy: Policy, overrides: map<string, Policy>)
      ensures this.enabled == enabled && this.policy == policy && this.overrides == overrides
      ensures rows == map[] && stats == Stats(0, 0, 0, 0, 0)
    {
      this.enabled := enabled;
      this.policy := policy;
      this.overrides := overrides;
      rows := map[];
      stats := Stats(0, 0, 0, 0, 0);
    }

    function PolicyFor(route: Route): Policy {
      if route.0 in overrides then overrides[route.0] else policy
    }

    function Read(route: Route): Option<Row>
      reads this
    {
      if route in rows then Some(rows[route]) else None
    }

    /** Only the row of `route` changed, and it became `row`. */
    twostate predicate RowBecame(route: Route, row: Option<Row>)
      reads this
    {
      Read(route) == row && rows - {route} == old(rows) - {route}
    }

    method Store(route: Route, row: Option<Row>)
      requires row == None ==> route !in rows
      modifies this`rows
      ensures RowBecame(route, row)
    {
      if row.Some? {
        rows := rows[route := row.value];
      }
    }

    /** Every non-CLOSED admission is counted as a probe, every refusal as a short circuit. */
    method Check(route: Route, allowOpenProbe: bool, now: int) returns (d: Decision)
      modifies this
      ensures !enabled ==> d == Decision(true, Closed) && unchanged(this)
      ensures enabled ==>
                var result := FinishCheck(PolicyFor(route), old(Read(route)), old(Read(route)), allowOpenProbe, now);
                RowBecame(route, result.db) && d == result.decision
      ensures enabled ==> stats == old(stats).(
                              probes := old(stats.probes) + (if d.allowed && d.state == HalfOpen then 1 else 0),
                              shortCircuits := old(stats.shortCircuits) + if d.allowed then 0 else 1)
    {
      if !enabled {
        return Decision(true, Closed);
      }
      var p := PolicyFor(route);
      var row := Read(route);
      if row == None || row.value.state == Closed {
        return Decision(true, Closed);
      }
      if row.value.state == Open && !allowOpenProbe && !CooldownExpired(p, row.value, now) {
        stats := stats.(shortCircuits := stats.shortCircuits + 1);
        return Decision(false, Open);
      }
      var reserved := ReserveProbe(Read(route), p.halfOpenMaxProbes, row.value.state == Open);
      if reserved == None {
        stats := stats.(shortCircuits := stats.shortCircuits + 1);
        return Decision(false, HalfOpen);
      }
      Store(route, reserved);
      stats := stats.(probes := stats.probes + 1);
      d := Decision(true, HalfOpen);
    }

    method RecordSuccess(route: Route, now: int)
      modifies this
      ensures !enabled ==> unchanged(this)
      ensures enabled ==>
                RowBecame(route, WriteSuccess(PolicyFor(route), old(Read(route)), old(Read(route)), now))
      ensures stats == old(stats).(probeSuccesses := old(stats.probeSuccesses)
                + if enabled && old(route in rows && rows[route].state == HalfOpen) then 1 else 0)
    {
      if !enabled || route !in rows {
        return;
      }
      var row := rows[route];
      if row.state == HalfOpen {
        stats := stats.(probeSuccesses := stats.probeSuccesses + 1);
        row := row.(state := Closed, consecutive := 0, windowFailures := 0, windowTotal := 0, windowStartedAt := now,
                    openedAt := None, cooldownSecs := None, probeInflight := false, probes := 0);
      } else {
        var window := RollWindow(PolicyFor(route), row, true, now);
        row := row.(state := Closed, consecutive := 0, windowFailures := window.failures, windowTotal := window.total,
                    windowStartedAt := window.startedAt, cooldownSecs := None);
      }
      Store(route, Some(row));
    }

    method RecordFailure(route: Route, cooldown: Option<int>, now: int)
      modifies this
      ensures !enabled ==> unchanged(this)
      ensures enabled ==>
                RowBecame(route, WriteFailure(PolicyFor(route), old(Read(route)), old(Read(route)), cooldown, now))
      ensures enabled && old(Read(route)).Some? && old(Read(route)).value.state == HalfOpen ==>
                stats == old(stats).(probeFailures := old(stats.probeFailures) + 1)
      ensures enabled && !(old(Read(route)).Some? && old(Read(route)).value.state == HalfOpen) ==>
                stats == old(stats).(trips := old(stats.trips) + if Read(route).value.state == Open then 1 else 0)
    {
      if !enabled {
        return;
      }
      var p := PolicyFor(route);
      var row := if route in rows then rows[route] else NEW_ROW;
      if row.state == HalfOpen {
        stats := stats.(probeFailures := stats.probeFailures + 1);
        row := row.(state := Open, openedAt := Some(now), probeInflight := false, probes := 0);
        if cooldown.Some? && cooldown.value != 0 {
          row := row.(cooldownSecs := cooldown);
        }
        Store(route, Some(row));
        return;
      }
      var consecutive, window := 1, Window(1, 1, now);
      if route in rows {
        consecutive, window := row.consecutive + 1, RollWindow(p, row, false, now);
      }
      var shouldTrip := ShouldTrip(p, consecutive, window);
      row := row.(consecutive := consecutive, windowFailures := window.failures, windowTotal := window.total,
                  windowStartedAt := window.startedAt, state := if shouldTrip then Open else Closed);
      if shouldTrip {
        stats := stats.(trips := stats.trips + 1);
        row := row.(openedAt := Some(now));
        if route in rows {
          row := row.(probes := 0);
        }
      }
      if (shouldTrip || route !in rows) && cooldown.Some? && cooldown.value != 0 {
        row := row.(cooldownSecs := cooldown);
      }
      Store(route, Some(row));
    }

    method ReleaseProbe(route: Route)
      modifies this`rows
      ensures !enabled ==> unchanged(this)
      ensures enabled ==> RowBecame(route, WriteRelease(old(Read(route))))
    {
      if enabled {
        Store(route, WriteRelease(Read(route)));
      }
    }

    method RecordAcceptedPayload(route: Route, size: int)
      modifies this`rows
      ensures !enabled ==> unchanged(this)
      ensures enabled ==> RowBecame(route, WriteAccepted(old(Read(route)), old(Read(route)), size))
    {
      if !enabled || size <= 0 {
        return;
      }
      var row := if route in rows then rows[route] else NEW_ROW;
      if row.payloadCeiling.Some? && row.payloadCeiling.value >= size {
        return;
      }
      Store(route, Some(row.(payloadCeiling := Some(size))));
    }

    method RecordRejectedPayload(route: Route, size: int)
      modifies this`rows
      ensures !enabled ==> unchanged(this)
      ensures enabled ==> RowBecame(route, WriteRejected(old(Read(route)), old(Read(route)), size))
    {
      if !enabled || size <= 0 {
        return;
      }
      var candidate := Max(MIN_PAYLOAD_CEILING_BYTES, size - PAYLOAD_CEILING_MARGIN_BYTES);
      var row := if route in rows then rows[route] else NEW_ROW;
      if row.payloadCeiling.Some? && row.payloadCeiling.value <= candidate {
        return;
      }
      Store(route, Some(row.(payloadCeiling := Some(candidate))));
    }
  }
}
