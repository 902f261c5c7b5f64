/** The breaker row under every interleaving: any number of callers, each of whose calls is a
    read of the row followed, any number of foreign steps later, by one statement. */
module BreakerRuns {
  import opened Options
  import opened CircuitBreaker

  type CallerId = nat

  /** A call between its read and its statement, with the row it read. */
  datatype Call =
    | Checking(read: Option<Row>, force: bool, now: int)
    | Succeeding(read: Option<Row>)
    | Failing(read: Option<Row>, cooldown: Option<int>)
    | Accepting(read: Option<Row>, size: int)
    | Rejecting(read: Option<Row>, size: int)

  datatype CallKind =
    | Check(force: bool, now: int)
    | Success
    | Failure(cooldown: Option<int>)
    | Accepted(size: int)
    | Rejected(size: int)

  /** A restart runs the startup recovery; the calls of the process that died are lost. */
  datatype Action =
    | Begin(caller: CallerId, kind: CallKind)
    | Finish(caller: CallerId, now: int)
    | Release
    | Restart(now: int, lost: set<CallerId>)

  /** `admitted` counts the probes let through since the route was last closed or reopened:
      it is a history variable, no method reads it. */
  datatype World = World(db: Option<Row>, calls: map<CallerId, Call>, admitted: nat)

  const START: World := World(None, map[], 0)

  function BeginCall(db: Option<Row>, kind: CallKind): Call {
    match kind
    case Check(force, now) => Checking(db, force, now)
    case Success => Succeeding(db)
    case Failure(cooldown) => Failing(db, cooldown)
    case Accepted(size) => Accepting(db, size)
    case Rejected(size) => Rejecting(db, size)
  }

  function FinishCall(p: Policy, db: Option<Row>, call: Call, now: int): Option<Row> {
    match call
    case Checking(read, force, asked) => FinishCheck(p, db, read, force, asked).db
    case Succeeding(read) => WriteSuccess(p, db, read, now)
    case Failing(read, cooldown) => WriteFailure(p, db, read, cooldown, now)
    case Accepting(read, size) => WriteAccepted(db, read, size)
    case Rejecting(read, size) => WriteRejected(db, read, size)
  }

  /** The statement admits a probe. */
  predicate Admits(p: Policy, db: Option<Row>, call: Call) {
    && call.Checking? && call.read.Some? && call.read.value.state != Closed
    && FinishCheck(p, db, call.read, call.force, call.now).decision.allowed
  }

  /** The statement closes or reopens the route: it writes CLOSED or OPEN into the state column. */
  predicate ClosesOrReopens(db: Option<Row>, call: Call) {
    match call
    case Checking(_, _, _) => false
    case Succeeding(read) => read.Some? && db.Some?
    case Failing(read, _) => read == None || db.Some?
    case Accepting(read, size) => read == None && size > 0
    case Rejecting(read, size) => read == None && size > 0
  }

  function Next(p: Policy, w: World, a: Action): World {
    match a
    case Begin(caller, kind) => if caller in w.calls then w else w.(calls := w.calls[caller := BeginCall(w.db, kind)])
    case Finish(caller, now) =>
      if caller !in w.calls then w
      else
        var call := w.calls[caller];
        World(FinishCall(p, w.db, call, now), w.calls - {caller},
              if ClosesOrReopens(w.db, call) then 0
              else if Admits(p, w.db, call) then w.admitted + 1
              else w.admitted)
    case Release => w.(db := WriteRelease(w.db))
    case Restart(now, lost) =>
      World(Recover(w.db, now), w.calls - lost, if Recover(w.db, now) != w.db then 0 else w.admitted)
  }

  function Reach(p: Policy, run: seq<Action>): World {
    if run == [] then START else Next(p, Reach(p, run[..|run| - 1]), run[|run| - 1])
  }

  // ----- Probe admission ----------------------------------------------------------------

  ghost predicate ProbesBounded(p: Policy, w: World) {
    && (w.db == None ==> w.admitted == 0)
    && (w.db.Some? ==> w.admitted <= w.db.value.probes <= Max(0, p.halfOpenMaxProbes))
  }

  lemma ProbesBoundedStep(p: Policy, w: World, a: Action)
    requires ProbesBounded(p, w)
    ensures ProbesBounded(p, Next(p, w, a))
  {
  }

  /** However the callers interleave, the probes admitted since the route last closed or reopened
      never exceed the configured number. */
  lemma {:induction false} ProbeAdmissionBounded(p: Policy, run: seq<Action>)
    ensures ProbesBounded(p, Reach(p, run))
    ensures Reach(p, run).admitted <= Max(0, p.halfOpenMaxProbes)
  {
    if run != [] {
      ProbeAdmissionBounded(p, run[..|run| - 1]);
      ProbesBoundedStep(p, Reach(p, run[..|run| - 1]), run[|run| - 1]);
    }
  }

  /** A caller that read a non-CLOSED row is admitted only by taking one of the probe slots: the
      row it leaves is HALF_OPEN with one probe more, and there was room for it. */
  lemma AdmissionTakesASlot(p: Policy, run: seq<Action>, caller: CallerId, now: int)
    requires var w := Reach(p, run);
             caller in w.calls && w.calls[caller].Checking? && w.calls[caller].read.Some?
             && w.calls[caller].read.value.state != Closed
    ensures var w := Reach(p, run); var call := w.calls[caller];
            var after := Next(p, w, Finish(caller, now));
            if FinishCheck(p, w.db, call.read, call.force, call.now).decision.allowed then
              && w.db.Some? && after.db.Some? && after.db.value.state == HalfOpen
              && after.db.value.probes == w.db.value.probes + 1 <= p.halfOpenMaxProbes
              && after.admitted == w.admitted + 1
            else after.db == w.db && after.admitted == w.admitted
  {
  }

  // ----- Counters -----------------------------------------------------------------------

  ghost predicate GoodWindow(p: Policy, row: Option<Row>) {
    row.Some? ==> 0 <= row.value.windowFailures <= row.value.windowTotal <= Max(1, p.windowSize)
                  && 0 <= row.value.consecutive
  }

  ghost predicate GoodWindows(p: Policy, w: World) {
    GoodWindow(p, w.db) && forall c :: c in w.calls ==> GoodWindow(p, w.calls[c].read)
  }

  lemma GoodWindowsStep(p: Policy, w: World, a: Action)
    requires GoodWindows(p, w)
    ensures GoodWindows(p, Next(p, w, a))
  {
    hide FinishCall, GoodWindow;
    match a
    case Begin(caller, kind) =>
    case Finish(caller, now) =>
      if caller in w.calls {
        GoodWindowFinish(p, w.db, w.calls[caller], now);
      }
    case Release => GoodWindowRelease(p, w.db);
    case Restart(now, lost) => GoodWindowRecover(p, w.db, now);
  }

  lemma GoodWindowFinish(p: Policy, db: Option<Row>, call: Call, now: int)
    requires GoodWindow(p, db) && GoodWindow(p, call.read)
    ensures GoodWindow(p, FinishCall(p, db, call, now))
  {
    if call.read.Some? {
      HalvedWindow(p, call.read.value, true, now);
      HalvedWindow(p, call.read.value, false, now);
    }
  }

  lemma GoodWindowRelease(p: Policy, db: Option<Row>)
    requires GoodWindow(p, db)
    ensures GoodWindow(p, WriteRelease(db))
  {
  }

  lemma GoodWindowRecover(p: Policy, db: Option<Row>, now: int)
    requires GoodWindow(p, db)
    ensures GoodWindow(p, Recover(db, now))
  {
  }

  lemma HalvedWindow(p: Policy, row: Row, success: bool, now: int)
    requires GoodWindow(p, Some(row))
    ensures var w := RollWindow(p, row, success, now); 0 <= w.failures <= w.total <= Max(1, p.windowSize)
  {
  }

  /** The window counters stay ordered and within the window through every halving, even though
      the statements write values computed from stale reads. */
  lemma {:induction false} WindowCountersBounded(p: Policy, run: seq<Action>)
    ensures GoodWindows(p, Reach(p, run))
  {
    if run != [] {
      WindowCountersBounded(p, run[..|run| - 1]);
      GoodWindowsStep(p, Reach(p, run[..|run| - 1]), run[|run| - 1]);
    }
  }

  /** A CLOSED row has not used up its failures. */
  ghost predicate ClosedBelowThreshold(p: Policy, db: Option<Row>) {
    db.Some? && db.value.state == Closed ==> db.value.consecutive < Max(1, p.consecutiveFailures)
  }

  /** A payload record that found no row inserts one; meanwhile another caller created the row and
      used up its failures. */
  predicate RacingPayloadInsert(p: Policy, w: World, a: Action) {
    && a.Finish? && a.caller in w.calls && w.db.Some?
    && w.db.value.consecutive >= Max(1, p.consecutiveFailures)
    && var call := w.calls[a.caller];
       (call.Accepting? || call.Rejecting?) && call.read == None && call.size > 0
  }

  /** One step keeps a CLOSED row below its threshold, unless it is a payload insert that lost a
      race: exactly then a tripped row is forced CLOSED with its failures still counted. */
  lemma ClosedBelowThresholdIff(p: Policy, w: World, a: Action)
    requires ClosedBelowThreshold(p, w.db)
    ensures ClosedBelowThreshold(p, Next(p, w, a).db) <==> !RacingPayloadInsert(p, w, a)
  {
    if RacingPayloadInsert(p, w, a) {
      assert Next(p, w, a).db.value.state == Closed;
    }
  }

  ghost predicate NoRacingInsert(p: Policy, run: seq<Action>) {
    forall i :: 0 <= i < |run| ==> !RacingPayloadInsert(p, Reach(p, run[..i]), run[i])
  }

  /** Without such a race a CLOSED row is below the trip threshold in every reachable state. */
  lemma {:induction false} ClosedRowsBelowThreshold(p: Policy, run: seq<Action>)
    requires NoRacingInsert(p, run)
    ensures ClosedBelowThreshold(p, Reach(p, run).db)
  {
    if run != [] {
      var before := run[..|run| - 1];
      forall i | 0 <= i < |before| ensures !RacingPayloadInsert(p, Reach(p, before[..i]), before[i]) {
        assert before[..i] == run[..i];
      }
      ClosedRowsBelowThreshold(p, before);
      assert before == run[..|run| - 1];
      ClosedBelowThresholdIff(p, Reach(p, before), run[|run| - 1]);
    }
  }

  /** The race is real: a threshold of one, a failure and a payload record that both found no row. */
  lemma PayloadInsertCanForceClosed(p: Policy, size: int)
    requires p.consecutiveFailures == 1 && size > 0
    ensures exists run :: !ClosedBelowThreshold(p, Reach(p, run).db)
  {
    var a, b, c, d := Begin(0, Accepted(size)), Begin(1, Failure(None)), Finish(1, 0), Finish(0, 0);
    assert [a][..0] == [] && [a, b][..1] == [a] && [a, b, c][..2] == [a, b] && [a, b, c, d][..3] == [a, b, c];
    assert Reach(p, [a]) == Next(p, START, a);
    assert Reach(p, [a, b]) == Next(p, Reach(p, [a]), b);
    assert Reach(p, [a, b, c]) == Next(p, Reach(p, [a, b]), c);
    var run := [a, b, c, d];
    assert Reach(p, run) == Next(p, Reach(p, [a, b, c]), d);
    assert !ClosedBelowThreshold(p, Reach(p, run).db);
  }

  // ----- The documented arrows --------------------------------------------------------------

  function StateOf(db: Option<Row>): State { if db.Some? then db.value.state else Closed }

  /** The row a call read was in this state. */
  predicate Saw(call: Call, state: State) {
    call.read.Some? && call.read.value.state == state
  }

  /** The failure trips the route, going by the row its caller read. */
  predicate Trips(p: Policy, call: Call, now: int) {
    match call.read
    case None => ShouldTrip(p, 1, Window(1, 1, now))
    case Some(row) => ShouldTrip(p, row.consecutive + 1, RollWindow(p, row, false, now))
  }

  /** The four arrows of the documented state machine with their labels: failures past the threshold, the
      end of the cooldown, and the outcomes of probes, whose callers saw the route HALF_OPEN; a failed
      probe restarts the cooldown. */
  predicate DocumentedEdge(p: Policy, call: Call, now: int, db: Option<Row>, db': Option<Row>) {
    var from, to := StateOf(db), StateOf(db');
    || from == to
    || (from == Closed && to == Open && call.Failing? && !Saw(call, HalfOpen) && Trips(p, call, now))
    || (from == Open && to == HalfOpen && call.Checking? && CooldownExpired(p, db.value, call.now))
    || (from == HalfOpen && to == Closed && call.Succeeding? && Saw(call, HalfOpen))
    || (from == HalfOpen && to == Open && call.Failing? && Saw(call, HalfOpen) && db'.value.openedAt == Some(now))
  }

  /** The statement writes a state its caller had no business writing: the row is not what the caller
      read, or it was OPEN all along, or the check was let in before the end of the cooldown. */
  predicate Escapes(p: Policy, db: Option<Row>, call: Call, now: int) {
    && db.Some?
    && match call
       case Checking(_, _, asked) =>
         db.value.state == Open && Admits(p, db, call) && !CooldownExpired(p, db.value, asked)
       case Succeeding(read) =>
         read.Some? && (db.value.state == Open || (db.value.state == HalfOpen && !Saw(call, HalfOpen)))
       case Failing(_, _) =>
         if Saw(call, HalfOpen) then db.value.state == Closed
         else db.value.state == HalfOpen || (db.value.state == Open && !Trips(p, call, now))
       case Accepting(read, size) => read == None && size > 0 && db.value.state != Closed
       case Rejecting(read, size) => read == None && size > 0 && db.value.state != Closed
  }

  /** Whatever happened between its read and its statement, a call takes an arrow of the documented
      machine exactly when it does not escape it. */
  lemma DocumentedEdgesIff(p: Policy, w: World, caller: CallerId, now: int)
    requires caller in w.calls
    ensures DocumentedEdge(p, w.calls[caller], now, w.db, Next(p, w, Finish(caller, now)).db)
            <==> !Escapes(p, w.db, w.calls[caller], now)
  {
  }

  /** The calls aside, only a restart moves the state, and only from HALF_OPEN to OPEN. */
  lemma OtherStepsKeepState(p: Policy, w: World, a: Action)
    requires !a.Finish?
    ensures StateOf(Next(p, w, a).db) == StateOf(w.db)
            || (a.Restart? && StateOf(w.db) == HalfOpen && StateOf(Next(p, w, a).db) == Open)
  {
  }

  /** An outcome that arrives while the route is OPEN and does not trip it again. */
  predicate LateOutcome(p: Policy, call: Call, now: int) {
    Saw(call, Open) && (call.Succeeding? || (call.Failing? && !Trips(p, call, now)))
  }

  /** A forced check takes a slot before the end of the cooldown. */
  predicate ForcedEarly(p: Policy, call: Call) {
    && call.Checking? && call.force && Saw(call, Open)
    && !CooldownExpired(p, call.read.value, call.now) && call.read.value.probes < p.halfOpenMaxProbes
  }

  /** Without interference, that is when the row is still what the call read, exactly the late
      outcomes and the forced checks escape: the former close an OPEN route, an arrow the documentation
      does not have, the latter do what they are for. */
  lemma UndisturbedEscapesIff(p: Policy, db: Option<Row>, call: Call, now: int)
    requires call.read == db
    ensures Escapes(p, db, call, now) <==> LateOutcome(p, call, now) || ForcedEarly(p, call)
    ensures LateOutcome(p, call, now) ==> StateOf(FinishCall(p, db, call, now)) == Closed
  {
  }

  /** From any reachable OPEN route that is due for a probe: the probe fails and reopens the route, and
      a request that was let through long before, while the route was CLOSED, then closes it, because
      its success was reported while the probe was out and its caller saw the route HALF_OPEN. */
  lemma StaleSuccessClosesReopened(p: Policy, run: seq<Action>, a: CallerId, b: CallerId, c: CallerId, now: int)
    requires FreshCallers(p, run, a, b, c)
    requires ProbeIsDue(p, Reach(p, run).db, now)
    ensures var race := run + [Begin(a, Check(false, now)), Finish(a, now), Begin(b, Success), Begin(c, Failure(None)),
                               Finish(c, now)];
            var w := Reach(p, race);
            && StateOf(w.db) == Open && b in w.calls && Escapes(p, w.db, w.calls[b], now)
            && StateOf(Reach(p, race + [Finish(b, now)]).db) == Closed
  {
    hide Reach;
    var s1 := run + [Begin(a, Check(false, now))];
    var s2 := s1 + [Finish(a, now)];
    var s3 := s2 + [Begin(b, Success)];
    var s4 := s3 + [Begin(c, Failure(None))];
    var s5 := s4 + [Finish(c, now)];
    ReachSnoc(p, run, Begin(a, Check(false, now)));
    ReachSnoc(p, s1, Finish(a, now));
    ReachSnoc(p, s2, Begin(b, Success));
    ReachSnoc(p, s3, Begin(c, Failure(None)));
    ReachSnoc(p, s4, Finish(c, now));
    ReachSnoc(p, s5, Finish(b, now));
    assert s5 == run + [Begin(a, Check(false, now)), Finish(a, now), Begin(b, Success), Begin(c, Failure(None)), Finish(c, now)];
  }

  /** Three callers that have no call under way. */
  predicate FreshCallers(p: Policy, run: seq<Action>, a: CallerId, b: CallerId, c: CallerId) {
    a != b && b != c && a != c && Reach(p, run).calls.Keys !! {a, b, c}
  }

  /** The route is OPEN, its cooldown is over and a slot is free. */
  predicate ProbeIsDue(p: Policy, db: Option<Row>, now: int) {
    db.Some? && db.value.state == Open && CooldownExpired(p, db.value, now) && db.value.probes < p.halfOpenMaxProbes
  }

  lemma ReachSnoc(p: Policy, run: seq<Action>, a: Action)
    ensures Reach(p, run + [a]) == Next(p, Reach(p, run), a)
  {
    assert (run + [a])[..|run|] == run;
  }

  // ----- No admission before the cooldown ends ----------------------------------------------

  /** An unforced check is admitted although the cooldown, counted from the opening that stands now, is
      not over at the clock reading of the check: on an OPEN row, or on one that is HALF_OPEN already. */
  predicate EarlyAdmission(p: Policy, w: World, a: Action) {
    && a.Finish? && a.caller in w.calls && w.db.Some?
    && var call := w.calls[a.caller];
       call.Checking? && !call.force && Admits(p, w.db, call) && !CooldownExpired(p, w.db.value, call.now)
  }

  /** The check read an OPEN row whose cooldown was over, but the row was reopened since. */
  predicate StaleExpiry(p: Policy, db: Row, call: Call) {
    && call.Checking? && !call.force && Saw(call, Open)
    && CooldownExpired(p, call.read.value, call.now) && !CooldownExpired(p, db, call.now)
  }

  /** An unforced check takes a slot exactly when one is free and it read either an OPEN row whose
      cooldown was over, on a route that is not CLOSED now, or a HALF_OPEN row on a route that still is
      HALF_OPEN: nothing looks at the opening that stands now. */
  lemma AdmittedIff(p: Policy, db: Option<Row>, call: Call)
    requires call.Checking? && !call.force
    ensures Admits(p, db, call) <==>
            && db.Some? && db.value.probes < p.halfOpenMaxProbes
            && ((Saw(call, Open) && CooldownExpired(p, call.read.value, call.now) && db.value.state != Closed)
                || (Saw(call, HalfOpen) && db.value.state == HalfOpen))
  {
  }

  /** Hence an admission is early exactly when, with a slot free and the standing cooldown not over,
      the row it read was OPEN with its cooldown over, which makes the read stale, or was HALF_OPEN and
      the route is HALF_OPEN: there any fresh read will do. */
  lemma EarlyAdmissionIff(p: Policy, w: World, caller: CallerId, now: int)
    requires caller in w.calls
    ensures var call := w.calls[caller];
            EarlyAdmission(p, w, Finish(caller, now)) <==>
            && w.db.Some? && w.db.value.state != Closed && w.db.value.probes < p.halfOpenMaxProbes
            && (StaleExpiry(p, w.db.value, call)
                || (call.Checking? && !call.force && Saw(call, HalfOpen) && w.db.value.state == HalfOpen
                    && !CooldownExpired(p, w.db.value, call.now)))
  {
    if w.calls[caller].Checking? && !w.calls[caller].force {
      AdmittedIff(p, w.db, w.calls[caller]);
    }
  }

  /** A forced check is documented to admit one probe before the cooldown ends.  With more than one slot
      it admits more: from every reachable OPEN route with two slots free whose cooldown is not over,
      an unforced check that follows it and reads the very row that stands is let in too. */
  lemma ForcedCheckOpensTheDoor(p: Policy, run: seq<Action>, a: CallerId, b: CallerId, c: CallerId, now: int)
    requires FreshCallers(p, run, a, b, c) && StateOf(Reach(p, run).db) == Open
    requires !CooldownExpired(p, Reach(p, run).db.value, now)
    requires Reach(p, run).db.value.probes + 1 < p.halfOpenMaxProbes
    ensures var w := Reach(p, run + [Begin(a, Check(true, now)), Finish(a, now), Begin(b, Check(false, now))]);
            && EarlyAdmission(p, w, Finish(b, now)) && w.calls[b].read == w.db
            && !StaleExpiry(p, w.db.value, w.calls[b])
  {
    hide Reach;
    var s1 := run + [Begin(a, Check(true, now))];
    var s2 := s1 + [Finish(a, now)];
    ReachSnoc(p, run, Begin(a, Check(true, now)));
    ReachSnoc(p, s1, Finish(a, now));
    ReachSnoc(p, s2, Begin(b, Check(false, now)));
    assert s2 + [Begin(b, Check(false, now))]
        == run + [Begin(a, Check(true, now)), Finish(a, now), Begin(b, Check(false, now))];
  }

  predicate SameOpening(p: Policy, x: Row, y: Row) {
    x.openedAt == y.openedAt && EffectiveCooldown(p, x) == EffectiveCooldown(p, y)
  }

  /** A check, forced or not, is admitted before the standing cooldown is over, and it is forced or read
      a row with another opening or another cooldown. */
  predicate ForcedOrStale(p: Policy, w: World, a: Action) {
    && a.Finish? && a.caller in w.calls && w.db.Some?
    && var call := w.calls[a.caller];
       && call.Checking? && Admits(p, w.db, call) && !CooldownExpired(p, w.db.value, call.now)
       && (call.force || !SameOpening(p, call.read.value, w.db.value))
  }

  /** The latest clock reading any check took. */
  function LatestReading(run: seq<Action>): Option<int> {
    if run == [] then None
    else
      match run[|run| - 1]
      case Begin(_, Check(_, now)) => Some(now)
      case _ => LatestReading(run[..|run| - 1])
  }

  predicate NotBefore(a: Action, latest: Option<int>) {
    a.Begin? && a.kind.Check? && latest.Some? ==> a.kind.now >= latest.value
  }

  /** Checks read a clock that does not go back. */
  ghost predicate ReadingsInOrder(run: seq<Action>) {
    run != [] ==> ReadingsInOrder(run[..|run| - 1]) && NotBefore(run[|run| - 1], LatestReading(run[..|run| - 1]))
  }

  /** A HALF_OPEN route got there after its cooldown, and so did every HALF_OPEN row a check has read. */
  ghost predicate Punctual(p: Policy, w: World, latest: Option<int>) {
    && (StateOf(w.db) == HalfOpen ==> latest.Some? && CooldownExpired(p, w.db.value, latest.value))
    && forall c :: c in w.calls ==> PunctualCall(p, w.calls[c], latest)
  }

  predicate PunctualCall(p: Policy, call: Call, latest: Option<int>) {
    call.Checking? ==>
      && latest.Some? && call.now <= latest.value
      && (Saw(call, HalfOpen) ==> CooldownExpired(p, call.read.value, call.now))
  }

  function Later(latest: Option<int>, a: Action): Option<int> {
    match a
    case Begin(_, Check(_, now)) => Some(now)
    case _ => latest
  }

  lemma PunctualStep(p: Policy, w: World, a: Action, latest: Option<int>)
    requires Punctual(p, w, latest) && NotBefore(a, latest) && !ForcedOrStale(p, w, a)
    ensures Punctual(p, Next(p, w, a), Later(latest, a)) && !EarlyAdmission(p, w, a)
  {
    match a
    case Begin(caller, kind) =>
    case Finish(caller, now) =>
      if caller in w.calls {
        PunctualFinish(p, w, caller, now, latest);
      }
    case Release =>
    case Restart(now, lost) =>
  }

  lemma PunctualFinish(p: Policy, w: World, caller: CallerId, now: int, latest: Option<int>)
    requires Punctual(p, w, latest) && caller in w.calls && !ForcedOrStale(p, w, Finish(caller, now))
    ensures Punctual(p, Next(p, w, Finish(caller, now)), latest) && !EarlyAdmission(p, w, Finish(caller, now))
  {
    assert PunctualCall(p, w.calls[caller], latest);
  }

  /** The first admission of an unforced check before the cooldown ends needs a forced check before it
      that was admitted early, or a stale read, its own or an earlier one: in every run whose checks
      read a clock that does not go back, and whatever outcomes, reopenings and restarts it contains. */
  lemma {:induction false} EarlyAdmissionNeedsForceOrStaleRead(p: Policy, run: seq<Action>, a: Action)
    requires ReadingsInOrder(run) && NotBefore(a, LatestReading(run)) && EarlyAdmission(p, Reach(p, run), a)
    ensures ForcedOrStale(p, Reach(p, run), a) || exists i :: 0 <= i < |run| && ForcedOrStale(p, Reach(p, run[..i]), run[i])
  {
    if forall i :: 0 <= i < |run| ==> !ForcedOrStale(p, Reach(p, run[..i]), run[i]) {
      AlwaysPunctual(p, run);
      if !ForcedOrStale(p, Reach(p, run), a) {
        PunctualStep(p, Reach(p, run), a, LatestReading(run));
        assert false;
      }
    }
  }

  lemma {:induction false} AlwaysPunctual(p: Policy, run: seq<Action>)
    requires ReadingsInOrder(run) && forall i :: 0 <= i < |run| ==> !ForcedOrStale(p, Reach(p, run[..i]), run[i])
    ensures Punctual(p, Reach(p, run), LatestReading(run))
  {
    hide Next, ForcedOrStale, Punctual;
    if run == [] {
      assert Punctual(p, Reach(p, []), None) by { PunctualAtStart(p); }
    } else {
      var before := run[..|run| - 1];
      forall i | 0 <= i < |before| ensures !ForcedOrStale(p, Reach(p, before[..i]), before[i]) {
        assert before[..i] == run[..i] && before[i] == run[i];
      }
      AlwaysPunctual(p, before);
      PunctualStep(p, Reach(p, before), run[|run| - 1], LatestReading(before));
    }
  }

  lemma PunctualAtStart(p: Policy)
    ensures Punctual(p, Reach(p, []), None)
  {
  }

  /** A stale read alone is enough, from every reachable OPEN route with a free slot: of two checks that read the
      expired row, one probes and fails, which reopens the route, and the other is then admitted at
      the beginning of the new cooldown.  No outcome arrives while the route is OPEN in it. */
  lemma StaleReadAdmitsEarly(p: Policy, run: seq<Action>, a: CallerId, b: CallerId, c: CallerId, now: int)
    requires FreshCallers(p, run, a, b, c) && ProbeIsDue(p, Reach(p, run).db, now)
    requires EffectiveCooldown(p, Reach(p, run).db.value) > 0
    ensures var race := run + [Begin(a, Check(false, now)), Begin(b, Check(false, now)), Finish(b, now),
                               Begin(c, Failure(None)), Finish(c, now)];
            EarlyAdmission(p, Reach(p, race), Finish(a, now))
  {
    hide Reach;
    ProbeAdmissionBounded(p, run);
    var s1 := run + [Begin(a, Check(false, now))];
    var s2 := s1 + [Begin(b, Check(false, now))];
    var s3 := s2 + [Finish(b, now)];
    var s4 := s3 + [Begin(c, Failure(None))];
    ReachSnoc(p, run, Begin(a, Check(false, now)));
    ReachSnoc(p, s1, Begin(b, Check(false, now)));
    ReachSnoc(p, s2, Finish(b, now));
    ReachSnoc(p, s3, Begin(c, Failure(None)));
    ReachSnoc(p, s4, Finish(c, now));
    assert s4 + [Finish(c, now)] == run + [Begin(a, Check(false, now)), Begin(b, Check(false, now)), Finish(b, now),
                                           Begin(c, Failure(None)), Finish(c, now)];
  }

  /** A step that may end or move the cooldown of an OPEN route: an outcome, a payload insert that
      lost a race, a forced check, a check made after the cooldown, or one whose read is stale. */
  predicate MayEndCooldown(p: Policy, w: World, a: Action) {
    && a.Finish? && a.caller in w.calls && w.db.Some?
    && match w.calls[a.caller]
       case Checking(_, force, now) =>
         force || CooldownExpired(p, w.db.value, now) || StaleExpiry(p, w.db.value, w.calls[a.caller])
       case Succeeding(read) => true
       case Failing(_, _) => true
       case Accepting(read, size) => read == None && size > 0
       case Rejecting(read, size) => read == None && size > 0
  }

  ghost predicate CoolingFrom(p: Policy, run: seq<Action>, from: nat)
    requires from <= |run|
  {
    forall i :: from <= i < |run| ==> !MayEndCooldown(p, Reach(p, run[..i]), run[i])
  }

  /** Once a route has tripped, and whatever calls interleave, it stays OPEN with the same opening and
      admits nobody until such a step is taken. */
  lemma {:induction false} NoAdmissionBeforeCooldown(p: Policy, run: seq<Action>, from: nat)
    requires from <= |run| && StateOf(Reach(p, run[..from]).db) == Open && CoolingFrom(p, run, from)
    ensures var tripped, w := Reach(p, run[..from]), Reach(p, run);
            && w.db.Some? && w.db.value.state == Open && w.db.value.openedAt == tripped.db.value.openedAt
            && EffectiveCooldown(p, w.db.value) == EffectiveCooldown(p, tripped.db.value)
            && w.db.value.probes == tripped.db.value.probes && w.admitted == tripped.admitted
    decreases |run|
  {
    if from == |run| {
      assert run[..from] == run;
    } else {
      var before, a := run[..|run| - 1], run[|run| - 1];
      assert before[..from] == run[..from];
      forall i | from <= i < |before| ensures !MayEndCooldown(p, Reach(p, before[..i]), before[i]) {
        assert before[..i] == run[..i] && before[i] == run[i];
      }
      NoAdmissionBeforeCooldown(p, before, from);
      CoolingStep(p, Reach(p, before), a);
    }
  }

  lemma CoolingStep(p: Policy, w: World, a: Action)
    requires w.db.Some? && w.db.value.state == Open && !MayEndCooldown(p, w, a)
    ensures var w' := Next(p, w, a);
            && w'.db.Some? && w'.db.value.state == Open && w'.db.value.openedAt == w.db.value.openedAt
            && EffectiveCooldown(p, w'.db.value) == EffectiveCooldown(p, w.db.value)
            && w'.db.value.probes == w.db.value.probes && w'.admitted == w.admitted
  {
  }

  // ----- Trip and recovery ------------------------------------------------------------------

  /** The row of a route after outcomes that are recorded one after another. */
  function AfterOutcomes(p: Policy, db: Option<Row>, outcomes: seq<bool>, now: int): Option<Row> {
    if outcomes == [] then db
    else
      var before := AfterOutcomes(p, db, outcomes[..|outcomes| - 1], now);
      if outcomes[|outcomes| - 1] then WriteSuccess(p, before, before, now)
      else WriteFailure(p, before, before, None, now)
  }

  /** What a full window keeps of its outcomes. */
  function KeptByHalving(size: int): int { Max(1, (size + 1) / 2) }

  /** The number of outcomes from one halving to the next. */
  function HalvingPeriod(size: int): int { Max(1, size + 1 - KeptByHalving(size)) }

  /** The n-th outcome after the first failure of a new route halves the window: the one past the
      window size does, and every so many after it. */
  predicate HalvesAt(size: int, n: nat) {
    n > 1 && n > size && (n - size - 1) % HalvingPeriod(size) == 0
  }

  /** The outcomes that count as being in the window after n of them. */
  function OutcomesCounted(size: int, n: nat): int {
    if n <= size then n else KeptByHalving(size) + (n - size - 1) % HalvingPeriod(size)
  }

  /** The failures that count: each halving rounds half of them away. */
  function FailuresCounted(size: int, outcomes: seq<bool>): nat {
    if outcomes == [] then 0
    else
      var n := |outcomes|;
      var failures := FailuresCounted(size, outcomes[..n - 1]) + if outcomes[n - 1] then 0 else 1;
      if HalvesAt(size, n) then failures / 2 else failures
  }

  lemma NextRemainder(m: int, period: int)
    requires period >= 1
    ensures (m + 1) % period == if m % period == period - 1 then 0 else m % period + 1
  {
    var gap := (m + 1) / period - m / period;
    assert period * gap == m % period + 1 - (m + 1) % period by {
      assert period * gap == period * ((m + 1) / period) - period * (m / period);
    }
    MultiplesAreApart(period, gap);
  }

  lemma MultiplesAreApart(period: int, gap: int)
    requires period >= 1
    ensures gap > 1 ==> period * gap >= period * 2
    ensures gap < 0 ==> period * gap <= -period
  {
  }

  /** One more outcome moves the counted window on, by the same arithmetic as the row. */
  lemma NextCounted(size: int, n: nat)
    requires n >= 1
    ensures 1 <= OutcomesCounted(size, n) <= Max(1, size)
    ensures var total := OutcomesCounted(size, n) + 1;
            && (HalvesAt(size, n + 1) <==> total > size)
            && OutcomesCounted(size, n + 1) == if total > size then Max(1, total / 2) else total
  {
    if n > size {
      NextRemainder(n - size - 1, HalvingPeriod(size));
    }
  }

  /** The length of the run of failures the outcomes end in. */
  function TrailingFailures(outcomes: seq<bool>): nat {
    if outcomes == [] || outcomes[|outcomes| - 1] then 0 else TrailingFailures(outcomes[..|outcomes| - 1]) + 1
  }

  ghost predicate Counted(db: Option<Row>, total: int, failures: int, consecutive: int) {
    && db.Some? && db.value.windowTotal == total && db.value.windowFailures == failures && total >= 1 && failures >= 0
    && db.value.consecutive == consecutive && db.value.probes == 0 && db.value.state != HalfOpen
  }

  /** A failure with these counters opens the route. */
  ghost predicate Enough(p: Policy, total: int, failures: int, consecutive: int)
    requires total >= 1
  {
    consecutive >= p.consecutiveFailures
    || (total >= p.windowSize && (failures as real) / (total as real) >= p.failureRatio)
  }

  lemma CountedStep(p: Policy, db: Option<Row>, total: int, failures: int, consecutive: int, success: bool, now: int)
    requires Counted(db, total, failures, consecutive)
    ensures var db' := if success then WriteSuccess(p, db, db, now) else WriteFailure(p, db, db, None, now);
            var halved := total + 1 > p.windowSize;
            var failures' := failures + if success then 0 else 1;
            var total' := if halved then Max(1, (total + 1) / 2) else total + 1;
            var counted' := if halved then failures' / 2 else failures';
            var consecutive' := if success then 0 else consecutive + 1;
            && Counted(db', total', counted', consecutive')
            && (db'.value.state == Open <==> !success && Enough(p, total', counted', consecutive'))
  {
  }

  /** A new route is OPEN after any number of outcomes exactly when the last of them failed and
      completed the allowed run of consecutive failures, or failed while the window was full with too
      large a share of failures in it.  The window fills up once every halving period, and the counters
      are exactly the counted ones. */
  lemma {:induction false} TripsIff(p: Policy, outcomes: seq<bool>, now: int)
    requires outcomes != [] && !outcomes[0]
    ensures var db, n := AfterOutcomes(p, None, outcomes, now), |outcomes|;
            var total, failures := OutcomesCounted(p.windowSize, n), FailuresCounted(p.windowSize, outcomes);
            && Counted(db, total, failures, TrailingFailures(outcomes))
            && (db.value.state == Open <==> !outcomes[n - 1] && Enough(p, total, failures, TrailingFailures(outcomes)))
  {
    hide WriteSuccess, OutcomesCounted, HalvesAt;
    var before := outcomes[..|outcomes| - 1];
    if before == [] {
      assert AfterOutcomes(p, None, before, now) == None && FailuresCounted(p.windowSize, before) == 0;
      FirstCounted(p.windowSize);
    } else {
      hide WriteFailure, Counted, Enough;
      TripsIff(p, before, now);
      NextCounted(p.windowSize, |before|);
      CountedStep(p, AfterOutcomes(p, None, before, now), OutcomesCounted(p.windowSize, |before|),
                  FailuresCounted(p.windowSize, before), TrailingFailures(before), outcomes[|outcomes| - 1], now);
    }
  }

  lemma FirstCounted(size: int)
    ensures OutcomesCounted(size, 1) == 1 && !HalvesAt(size, 1)
  {
  }

  /** Two routes with the same state, counters, opening and cooldown. */
  predicate SameSlate(a: Option<Row>, b: Option<Row>) {
    && a.Some? && b.Some? && a.value.state == b.value.state != HalfOpen
    && a.value.consecutive == b.value.consecutive && a.value.probes == b.value.probes
    && a.value.windowTotal == b.value.windowTotal && a.value.windowFailures == b.value.windowFailures
    && a.value.openedAt == b.value.openedAt && a.value.cooldownSecs == b.value.cooldownSecs
    && a.value.probeInflight == b.value.probeInflight
  }

  lemma SameSlateSuccess(p: Policy, a: Option<Row>, b: Option<Row>, now: int)
    requires SameSlate(a, b)
    ensures SameSlate(WriteSuccess(p, a, a, now), WriteSuccess(p, b, b, now))
  {
  }

  lemma SameSlateFailure(p: Policy, a: Option<Row>, b: Option<Row>, now: int)
    requires SameSlate(a, b)
    ensures SameSlate(WriteFailure(p, a, a, None, now), WriteFailure(p, b, b, None, now))
  {
  }

  /** A successful probe wipes the slate: from then on the route trips when a new one would. */
  lemma {:induction false} RecoveredRouteStartsOver(p: Policy, row: Row, closedAt: int, outcomes: seq<bool>, now: int)
    requires row.state == HalfOpen && p.windowSize >= 1 && outcomes != [] && !outcomes[0]
    ensures SameSlate(AfterOutcomes(p, WriteSuccess(p, Some(row), Some(row), closedAt), outcomes, now),
                      AfterOutcomes(p, None, outcomes, now))
  {
    var before := outcomes[..|outcomes| - 1];
    var recovered := WriteSuccess(p, Some(row), Some(row), closedAt);
    if before == [] {
      assert AfterOutcomes(p, None, before, now) == None && AfterOutcomes(p, recovered, before, now) == recovered;
    } else {
      hide WriteSuccess, WriteFailure, SameSlate;
      RecoveredRouteStartsOver(p, row, closedAt, before, now);
      SameSlateSuccess(p, AfterOutcomes(p, recovered, before, now), AfterOutcomes(p, None, before, now), now);
      SameSlateFailure(p, AfterOutcomes(p, recovered, before, now), AfterOutcomes(p, None, before, now), now);
    }
  }

  /** A failure that read no row, because the route had none yet, and trips on its own, although by
      now there is a row with probe slots in use. */
  predicate TrippingInsert(p: Policy, w: World, a: Action) {
    && a.Finish? && a.caller in w.calls && w.calls[a.caller].Failing? && w.calls[a.caller].read == None
    && Trips(p, w.calls[a.caller], a.now) && w.db.Some? && w.db.value.probes != 0
  }

  predicate OpenHasNoProbes(db: Option<Row>) {
    db.Some? && db.value.state == Open ==> db.value.probes == 0
  }

  /** An OPEN row has all its probe slots free, as the reservation relies on: one step keeps this
      exactly when it is no such insert. */
  lemma OpenHasNoProbesIff(p: Policy, w: World, a: Action)
    requires OpenHasNoProbes(w.db)
    ensures OpenHasNoProbes(Next(p, w, a).db) <==> !TrippingInsert(p, w, a)
  {
  }

  ghost predicate NoTrippingInsert(p: Policy, run: seq<Action>) {
    forall i :: 0 <= i < |run| ==> !TrippingInsert(p, Reach(p, run[..i]), run[i])
  }

  lemma {:induction false} OpenRowsHaveNoProbes(p: Policy, run: seq<Action>)
    requires NoTrippingInsert(p, run)
    ensures OpenHasNoProbes(Reach(p, run).db)
  {
    if run != [] {
      var before := run[..|run| - 1];
      forall i | 0 <= i < |before| ensures !TrippingInsert(p, Reach(p, before[..i]), before[i]) {
        assert before[..i] == run[..i];
      }
      OpenRowsHaveNoProbes(p, before);
      assert before == run[..|run| - 1];
      OpenHasNoProbesIff(p, Reach(p, before), run[|run| - 1]);
    }
  }

  function AfterChecks(p: Policy, db: Option<Row>, k: nat, now: int): Option<Row> {
    if k == 0 then db
    else
      var before := AfterChecks(p, db, k - 1, now);
      FinishCheck(p, before, before, false, now).db
  }

  /** After the cooldown an OPEN route lets through as many probes as it has slots left: the next
      check after k others is admitted if and only if k slots and one more were free. */
  lemma {:induction false} RecoveryAdmitsExactly(p: Policy, row: Row, k: nat, now: int)
    requires row.state == Open && CooldownExpired(p, row, now)
    ensures var db := AfterChecks(p, Some(row), k, now);
            && (FinishCheck(p, db, db, false, now).decision.allowed <==> row.probes + k < p.halfOpenMaxProbes)
            && db.Some? && (db.value.state == HalfOpen || db == Some(row))
            && db.value.probes == if row.probes + k <= p.halfOpenMaxProbes then row.probes + k
                                  else Max(row.probes, p.halfOpenMaxProbes)
  {
    if k > 0 {
      RecoveryAdmitsExactly(p, row, k - 1, now);
    }
  }

  /** So in runs without a tripping insert an OPEN route whose cooldown is over admits exactly the
      configured number of probes. */
  lemma ReachableRecovery(p: Policy, run: seq<Action>, k: nat, now: int)
    requires NoTrippingInsert(p, run)
    requires StateOf(Reach(p, run).db) == Open && CooldownExpired(p, Reach(p, run).db.value, now)
    ensures var db := AfterChecks(p, Reach(p, run).db, k, now);
            FinishCheck(p, db, db, false, now).decision.allowed <==> k < p.halfOpenMaxProbes
  {
    OpenRowsHaveNoProbes(p, run);
    RecoveryAdmitsExactly(p, Reach(p, run).db.value, k, now);
  }

  // ----- Stuck routes -----------------------------------------------------------------------

  /** All slots are taken, and no restart will give them back: either the route is OPEN, or the flag
      that restarts look for was cleared. */
  predicate Stuck(p: Policy, db: Option<Row>) {
    && db.Some? && db.value.probes >= p.halfOpenMaxProbes
    && (db.value.state == Open || (db.value.state == HalfOpen && !db.value.probeInflight))
  }

  /** An outcome or a payload insert that lost a race. */
  predicate WritesState(w: World, a: Action) {
    && a.Finish? && a.caller in w.calls
    && match w.calls[a.caller]
       case Checking(_, _, _) => false
       case Succeeding(read) => true
       case Failing(_, _) => true
       case Accepting(read, size) => read == None && size > 0
       case Rejecting(read, size) => read == None && size > 0
  }

  lemma StuckStep(p: Policy, w: World, a: Action)
    requires Stuck(p, w.db) && !WritesState(w, a)
    ensures var w' := Next(p, w, a); Stuck(p, w'.db) && w'.db.value.state == w.db.value.state && w'.admitted == w.admitted
  {
  }

  /** From then on only an outcome can help: whatever checks (forced or not), releases, payload records
      and restarts interleave, for however long, nobody is admitted. */
  lemma {:induction false} StuckRouteAdmitsNobody(p: Policy, run: seq<Action>, from: nat)
    requires from <= |run| && Stuck(p, Reach(p, run[..from]).db)
    requires forall i :: from <= i < |run| ==> !WritesState(Reach(p, run[..i]), run[i])
    ensures Stuck(p, Reach(p, run).db) && Reach(p, run).admitted == Reach(p, run[..from]).admitted
    decreases |run|
  {
    if from == |run| {
      assert run[..from] == run;
    } else {
      var before := run[..|run| - 1];
      assert before[..from] == run[..from];
      forall i | from <= i < |before| ensures !WritesState(Reach(p, before[..i]), before[i]) {
        assert before[..i] == run[..i] && before[i] == run[i];
      }
      StuckRouteAdmitsNobody(p, before, from);
      StuckStep(p, Reach(p, before), run[|run| - 1]);
    }
  }

  /** All slots are taken, whatever the state and the flag. */
  predicate Full(p: Policy, db: Option<Row>) {
    db.Some? && db.value.state != Closed && db.value.probes >= p.halfOpenMaxProbes
  }

  lemma FullStep(p: Policy, w: World, a: Action)
    requires Full(p, w.db) && !WritesState(w, a) && !a.Restart?
    ensures var w' := Next(p, w, a); Full(p, w'.db) && w'.db.value.state == w.db.value.state && w'.admitted == w.admitted
  {
  }

  /** A slot comes back with an outcome, a payload insert or a restart and in no other way.  So a request
      that is cancelled after it took the last slot, and reports nothing, shuts the route for every run
      without one of these. */
  lemma {:induction false} FullRouteAdmitsNobody(p: Policy, run: seq<Action>, from: nat)
    requires from <= |run| && Full(p, Reach(p, run[..from]).db)
    requires forall i :: from <= i < |run| ==> !WritesState(Reach(p, run[..i]), run[i]) && !run[i].Restart?
    ensures Full(p, Reach(p, run).db) && Reach(p, run).admitted == Reach(p, run[..from]).admitted
    decreases |run|
  {
    if from == |run| {
      assert run[..from] == run;
    } else {
      var before := run[..|run| - 1];
      assert before[..from] == run[..from];
      forall i | from <= i < |before| ensures !WritesState(Reach(p, before[..i]), before[i]) && !before[i].Restart? {
        assert before[..i] == run[..i] && before[i] == run[i];
      }
      FullRouteAdmitsNobody(p, before, from);
      FullStep(p, Reach(p, before), run[|run| - 1]);
    }
  }

  /** Releasing a probe is documented to let the next caller probe.  It does so only if a slot was
      free anyway: the counter that guards admission is not given back. */
  lemma ReleaseFreesNoSlot(p: Policy, row: Row, force: bool, now: int)
    requires row.state == HalfOpen
    ensures var released := WriteRelease(Some(row));
            FinishCheck(p, released, released, force, now).decision.allowed <==> row.probes < p.halfOpenMaxProbes
  {
  }

  /** A HALF_OPEN route whose slots are used up is stuck after a release. */
  lemma ReleaseCanStick(p: Policy, row: Row)
    requires row.state == HalfOpen && row.probes >= p.halfOpenMaxProbes
    ensures Stuck(p, WriteRelease(Some(row)))
  {
  }

  /** A stuck OPEN route is reachable: two failures find no row, the first one trips, a probe takes
      the only slot, and the second failure reopens the route without returning it. */
  lemma TrippingInsertCanStick(p: Policy, cooldown: int)
    requires p.consecutiveFailures <= 1 && p.halfOpenMaxProbes == 1 && cooldown >= p.cooldownSecs
    ensures var run := [Begin(0, Failure(None)), Begin(1, Failure(None)), Finish(1, 0),
                        Begin(2, Check(false, cooldown)), Finish(2, cooldown), Finish(0, cooldown)];
            Stuck(p, Reach(p, run).db) && StateOf(Reach(p, run).db) == Open
  {
    var s1 := [Begin(0, Failure(None))];
    var s2 := s1 + [Begin(1, Failure(None))];
    var s3 := s2 + [Finish(1, 0)];
    var s4 := s3 + [Begin(2, Check(false, cooldown))];
    var s5 := s4 + [Finish(2, cooldown)];
    assert [] + s1 == s1;
    ReachSnoc(p, [], Begin(0, Failure(None)));
    ReachSnoc(p, s1, Begin(1, Failure(None)));
    ReachSnoc(p, s2, Finish(1, 0));
    ReachSnoc(p, s3, Begin(2, Check(false, cooldown)));
    ReachSnoc(p, s4, Finish(2, cooldown));
    ReachSnoc(p, s5, Finish(0, cooldown));
    assert s5 + [Finish(0, cooldown)] == [Begin(0, Failure(None)), Begin(1, Failure(None)), Finish(1, 0),
                                          Begin(2, Check(false, cooldown)), Finish(2, cooldown), Finish(0, cooldown)];
  }
}
