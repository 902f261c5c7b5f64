/** How long a tripped route is held, told by the events of a run: the clock reading of the last step
    that opened the route and the last cooldown a failure asked for. */
module BreakerCooldowns {
  import opened Options
  import opened CircuitBreaker
  import opened BreakerRuns

  /** The call the action finishes. */
  function Finished(w: World, a: Action): Option<Call> {
    if a.Finish? && a.caller in w.calls then Some(w.calls[a.caller]) else None
  }

  /** A failure leaves the route OPEN, or a restart makes it so. */
  ghost predicate Opens(p: Policy, w: World, a: Action) {
    && StateOf(Next(p, w, a).db) == Open
    && ((Finished(w, a).Some? && Finished(w, a).value.Failing?) || (a.Restart? && StateOf(w.db) != Open))
  }

  /** A failure brings a cooldown other than zero, and it opens the route or finds no row. */
  ghost predicate AsksForCooldown(p: Policy, w: World, a: Action) {
    && Finished(w, a).Some? && Finished(w, a).value.Failing?
    && Finished(w, a).value.cooldown.Some? && Finished(w, a).value.cooldown.value != 0
    && (Opens(p, w, a) || Finished(w, a).value.read == None)
  }

  /** A success that found the row. */
  ghost predicate Forgives(w: World, a: Action) {
    Finished(w, a).Some? && Finished(w, a).value.Succeeding? && Finished(w, a).value.read.Some?
  }

  /** The clock reading of the last step that opened the route. */
  ghost function LastOpening(p: Policy, run: seq<Action>): Option<int> {
    if run == [] then None
    else
      var before, a := run[..|run| - 1], run[|run| - 1];
      if Opens(p, Reach(p, before), a) then Some(a.now) else LastOpening(p, before)
  }

  /** The last cooldown a failure asked for since the last success; None when there is none. */
  ghost function LastCooldown(p: Policy, run: seq<Action>): Option<int> {
    if run == [] then None
    else
      var before, a := run[..|run| - 1], run[|run| - 1];
      if AsksForCooldown(p, Reach(p, before), a) then Finished(Reach(p, before), a).value.cooldown
      else if Forgives(Reach(p, before), a) then None
      else LastCooldown(p, before)
  }

  // ----- What a run leaves in the row ------------------------------------------------------------

  ghost predicate RowIsThere(w: World) {
    w.db == None ==> forall c :: c in w.calls ==> w.calls[c].read == None
  }

  /** The row carries the opening and the cooldown of the events. */
  ghost predicate Held(w: World, opening: Option<int>, cooldown: Option<int>) {
    && RowIsThere(w)
    && (w.db == None ==> cooldown == None)
    && (w.db.Some? ==> w.db.value.cooldownSecs == cooldown)
    && (StateOf(w.db) == Open ==> opening.Some? && w.db.value.openedAt == opening)
  }

  lemma HeldStep(p: Policy, w: World, a: Action, opening: Option<int>, cooldown: Option<int>)
    requires Held(w, opening, cooldown)
    ensures Held(Next(p, w, a), if Opens(p, w, a) then Some(a.now) else opening,
                 if AsksForCooldown(p, w, a) then Finished(w, a).value.cooldown
                 else if Forgives(w, a) then None else cooldown)
  {
  }

  lemma {:induction false} RunIsHeld(p: Policy, run: seq<Action>)
    ensures Held(Reach(p, run), LastOpening(p, run), LastCooldown(p, run))
  {
    hide Next, Held, Opens, AsksForCooldown, Forgives;
    if run == [] {
      assert Held(Reach(p, run), None, None) by { HeldAtStart(p); }
    } else {
      RunIsHeld(p, run[..|run| - 1]);
      HeldStep(p, Reach(p, run[..|run| - 1]), run[|run| - 1], LastOpening(p, run[..|run| - 1]),
               LastCooldown(p, run[..|run| - 1]));
    }
  }

  lemma HeldAtStart(p: Policy)
    ensures Held(Reach(p, []), None, None)
  {
  }

  // ----- A check and the cooldown ------------------------------------------------------------------

  /** A check that began at event i is still between its read and its statement. */
  ghost predicate UnderWay(p: Policy, run: seq<Action>, i: nat, caller: CallerId, force: bool, now: int) {
    && i < |run| && run[i] == Begin(caller, Check(force, now)) && caller !in Reach(p, run[..i]).calls
    && forall k :: i < k < |run| ==> !Ends(run[k], caller)
  }

  predicate Ends(a: Action, caller: CallerId) {
    (a.Finish? && a.caller == caller) || (a.Restart? && caller in a.lost)
  }

  lemma {:induction false} CheckKeepsItsRead(p: Policy, run: seq<Action>, i: nat, caller: CallerId, force: bool, now: int)
    requires UnderWay(p, run, i, caller, force, now)
    ensures caller in Reach(p, run).calls
    ensures Reach(p, run).calls[caller] == Checking(Reach(p, run[..i]).db, force, now)
    decreases |run|
  {
    hide FinishCall, ClosesOrReopens, Admits, Recover, WriteRelease;
    var before := run[..|run| - 1];
    if i < |before| {
      assert before[..i] == run[..i] && before[i] == run[i];
      assert !Ends(run[|run| - 1], caller);
      CheckKeepsItsRead(p, before, i, caller, force, now);
    } else {
      assert before == run[..i];
    }
  }

  /** What becomes of a check, whatever steps came between its read and its statement.  One that read the
      route CLOSED is admitted.  One that read it OPEN is turned away as OPEN exactly when it is not forced
      and its reading is less than the cooldown after the last opening; past that point it is admitted
      exactly when the route is not CLOSED by then and a slot is free.  One that read it HALF_OPEN is
      admitted exactly when the route still is, with a slot free.  The cooldown is the last one a failure
      asked for since the last success, or else the policy's. */
  lemma CheckObeysTheCooldown(p: Policy, run: seq<Action>, i: nat, caller: CallerId, force: bool, now: int)
    requires UnderWay(p, run, i, caller, force, now)
    ensures var saw := StateOf(Reach(p, run[..i]).db); saw == Open ==> LastOpening(p, run[..i]).Some?
    ensures var w, saw, asked := Reach(p, run), StateOf(Reach(p, run[..i]).db), LastCooldown(p, run[..i]);
            var cooldown := if asked.Some? then asked.value else p.cooldownSecs;
            var slotFree := w.db.Some? && w.db.value.probes < p.halfOpenMaxProbes;
            && caller in w.calls && w.calls[caller].read == Reach(p, run[..i]).db
            && FinishCheck(p, w.db, w.calls[caller].read, force, now).decision
               == match saw
                  case Closed => Decision(true, Closed)
                  case Open =>
                    if !force && now - LastOpening(p, run[..i]).value < cooldown then Decision(false, Open)
                    else Decision(slotFree && StateOf(w.db) != Closed, HalfOpen)
                  case HalfOpen => Decision(slotFree && StateOf(w.db) == HalfOpen, HalfOpen)
  {
    hide Reach;
    RunIsHeld(p, run[..i]);
    CheckKeepsItsRead(p, run, i, caller, force, now);
    CooldownIsNotZero(p, run[..i]);
  }

  lemma {:induction false} CooldownIsNotZero(p: Policy, run: seq<Action>)
    ensures LastCooldown(p, run) != Some(0)
  {
    hide Reach, Opens;
    if run != [] {
      CooldownIsNotZero(p, run[..|run| - 1]);
    }
  }

  // ----- Restarts ------------------------------------------------------------------------------------

  /** A probe is out, as far as the events tell: the last of admissions, releases and ends was an
      admission.  A probe ends with an outcome whose caller saw the route HALF_OPEN, or with a restart. */
  ghost function ProbeIsOut(p: Policy, run: seq<Action>): bool {
    if run == [] then false
    else
      var before, a := run[..|run| - 1], run[|run| - 1];
      var w := Reach(p, before);
      if TakesSlot(p, w, a) then true
      else if a.Release? || EndsProbe(w, a) then false
      else ProbeIsOut(p, before)
  }

  ghost predicate TakesSlot(p: Policy, w: World, a: Action) {
    Finished(w, a).Some? && Admits(p, w.db, Finished(w, a).value)
  }

  ghost predicate EndsProbe(w: World, a: Action) {
    || (Finished(w, a).Some? && (Finished(w, a).value.Succeeding? || Finished(w, a).value.Failing?)
        && Saw(Finished(w, a).value, HalfOpen))
    || (a.Restart? && StateOf(w.db) == HalfOpen)
  }

  ghost predicate Flagged(w: World, out: bool) {
    RowIsThere(w) && if w.db.Some? then w.db.value.probeInflight == out else !out
  }

  lemma FlaggedStep(p: Policy, w: World, a: Action, out: bool)
    requires Flagged(w, out)
    ensures Flagged(Next(p, w, a), if TakesSlot(p, w, a) then true else if a.Release? || EndsProbe(w, a) then false else out)
  {
  }

  lemma {:induction false} RunIsFlagged(p: Policy, run: seq<Action>)
    ensures Flagged(Reach(p, run), ProbeIsOut(p, run))
  {
    hide Next, TakesSlot, EndsProbe;
    if run != [] {
      RunIsFlagged(p, run[..|run| - 1]);
      FlaggedStep(p, Reach(p, run[..|run| - 1]), run[|run| - 1], ProbeIsOut(p, run[..|run| - 1]));
    }
  }

  /** A restart reopens a HALF_OPEN route, with all its slots free and a cooldown that starts now, exactly
      when a probe is out by the events: one whose process died.  After a release it does nothing. */
  lemma RestartReopensIff(p: Policy, run: seq<Action>, now: int, lost: set<CallerId>)
    requires StateOf(Reach(p, run).db) == HalfOpen
    ensures var db, after := Reach(p, run).db, Next(p, Reach(p, run), Restart(now, lost)).db;
            if ProbeIsOut(p, run) then
              StateOf(after) == Open && after.value.openedAt == Some(now) && after.value.probes == 0
              && after.value.cooldownSecs == db.value.cooldownSecs
            else after == db
  {
    hide Reach;
    RunIsFlagged(p, run);
  }
}
