/** The scheduler of the qualification probes: one loop that serves a tool cadence, a modality clock
    and a composite clock.

    Clock readings are integers; an absent deadline stands for a probe that is not enabled. */
module Maintenance {
  import opened Options

  datatype Config = Config(
    initialDelay: int, interval: int,
    modality: bool, modalityInitialDelay: int, modalityInterval: int,
    composite: bool, compositeInitialDelay: int, compositeInterval: int,
    pools: seq<string>)

  /** The clock readings of one iteration, in the order they are taken: when each delay is computed,
      when the loop wakes, and when each probe it ran has finished. */
  datatype Tick = Tick(atModality: int, atComposite: int, woke: int, afterComposite: int, afterModality: int)

  datatype Schedule = Schedule(first: bool, poolIndex: nat, modalityDue: Option<int>, compositeDue: Option<int>)

  /** What one iteration ran. */
  datatype Cycle = Cycle(tool: Option<string>, composite: bool, modality: bool)

  function Start(c: Config, start: int): Schedule {
    Schedule(true, 0,
             if c.modality then Some(start + c.modalityInitialDelay) else None,
             if c.composite then Some(start + c.compositeInitialDelay) else None)
  }

  /** The time left until a deadline; nothing stands for an endless wait. */
  function Left(due: Option<int>, now: int): Option<int> {
    match due
    case None => None
    case Some(at) => Some(if at > now then at - now else 0)
  }

  function ToolDelay(c: Config, s: Schedule): int {
    if s.first then c.initialDelay else c.interval
  }

  predicate ToolDue(c: Config, s: Schedule, now: int) {
    match Left(s.modalityDue, now)
    case None => true
    case Some(left) => ToolDelay(c, s) <= left
  }

  function Earlier(delay: int, other: Option<int>): int {
    if other.Some? && other.value < delay then other.value else delay
  }

  /** How long an iteration sleeps: until whichever of the three is due first. */
  function Sleep(c: Config, s: Schedule, t: Tick): int {
    Earlier(Earlier(ToolDelay(c, s), Left(s.modalityDue, t.atModality)), Left(s.compositeDue, t.atComposite))
  }

  predicate Reached(due: Option<int>, now: int) {
    due.Some? && now >= due.value
  }

  function Ran(c: Config, s: Schedule, t: Tick): Cycle
    requires |c.pools| > 0
  {
    Cycle(if ToolDue(c, s, t.atModality) then Some(c.pools[s.poolIndex % |c.pools|]) else None,
          Reached(s.compositeDue, t.woke), Reached(s.modalityDue, t.woke))
  }

  function Step(c: Config, s: Schedule, t: Tick): Schedule {
    Schedule(false,
             if ToolDue(c, s, t.atModality) then s.poolIndex + 1 else s.poolIndex,
             if Reached(s.modalityDue, t.woke) then Some(t.afterModality + c.modalityInterval) else s.modalityDue,
             if Reached(s.compositeDue, t.woke) then Some(t.afterComposite + c.compositeInterval) else s.compositeDue)
  }

  function After(c: Config, start: int, ticks: seq<Tick>): Schedule {
    if ticks == [] then Start(c, start) else Step(c, After(c, start, ticks[..|ticks| - 1]), ticks[|ticks| - 1])
  }

  /** What the iteration after a given prefix ran. */
  function CycleAt(c: Config, start: int, ticks: seq<Tick>, i: nat): Cycle
    requires |c.pools| > 0 && i < |ticks|
  {
    Ran(c, After(c, start, ticks[..i]), ticks[i])
  }

  /** The loop up to the iteration in which it is told to stop. */
  method QualificationMaintenanceLoop(c: Config, start: int, ticks: seq<Tick>) returns (cycles: seq<Cycle>)
    requires |c.pools| > 0
    ensures |cycles| == |ticks| && forall i :: 0 <= i < |ticks| ==> cycles[i] == CycleAt(c, start, ticks, i)
  {
    cycles := [];
    var firstCycle, poolIndex := true, 0;
    var modalityDue: Option<int> := if c.modality then Some(start + c.modalityInitialDelay) else None;
    var compositeDue: Option<int> := if c.composite then Some(start + c.compositeInitialDelay) else None;
    for i := 0 to |ticks|
      invariant Schedule(firstCycle, poolIndex, modalityDue, compositeDue) == After(c, start, ticks[..i])
      invariant |cycles| == i && forall k :: 0 <= k < i ==> cycles[k] == CycleAt(c, start, ticks, k)
    {
      assert ticks[..i + 1][..i] == ticks[..i];
      var t := ticks[i];
      var toolDelay := if firstCycle then c.initialDelay else c.interval;
      var modalityDelay := Left(modalityDue, t.atModality);
      firstCycle := false;
      var cycle := Cycle(None, false, false);
      if modalityDelay.None? || toolDelay <= modalityDelay.value {
        cycle := cycle.(tool := Some(c.pools[poolIndex % |c.pools|]));
        poolIndex := poolIndex + 1;
      }
      if compositeDue.Some? && t.woke >= compositeDue.value {
        cycle := cycle.(composite := true);
        compositeDue := Some(t.afterComposite + c.compositeInterval);
      }
      if modalityDue.Some? && t.woke >= modalityDue.value {
        cycle := cycle.(modality := true);
        modalityDue := Some(t.afterModality + c.modalityInterval);
      }
      cycles := cycles + [cycle];
    }
  }

  // ----- The clocks ---------------------------------------------------------------------------------------

  /** The readings of the run never go back. */
  ghost predicate Forward(start: int, ticks: seq<Tick>) {
    && (forall i :: 0 <= i < |ticks| ==> Ordered(ticks[i]) && start <= ticks[i].atModality)
    && (forall i, j :: 0 <= i < j < |ticks| ==> ticks[i].afterModality <= ticks[j].atModality)
  }

  predicate Ordered(t: Tick) {
    t.atModality <= t.atComposite <= t.woke <= t.afterComposite <= t.afterModality
  }

  /** Since the modality probe ran in iteration `i`, its deadline is at least one interval after the
      end of that run and at most one interval after the latest iteration. */
  lemma {:induction false} DeadlineAfterRun(c: Config, start: int, ticks: seq<Tick>, i: nat)
    requires |c.pools| > 0 && Forward(start, ticks) && i < |ticks| && CycleAt(c, start, ticks, i).modality && c.modalityInterval >= 0
    ensures var due := After(c, start, ticks).modalityDue;
            due.Some? && due.value >= ticks[i].afterModality + c.modalityInterval
            && due.value <= ticks[|ticks| - 1].afterModality + c.modalityInterval
  {
    var n := |ticks| - 1;
    if i < n {
      assert ticks[..n][..i] == ticks[..i];
      DeadlineAfterRun(c, start, ticks[..n], i);
    }
  }

  /** Two runs of the modality probe are at least its interval apart, counted from the end of the
      first, whatever the other two clocks do in between. */
  lemma ModalityRunsAreSpaced(c: Config, start: int, ticks: seq<Tick>, i: nat, j: nat)
    requires |c.pools| > 0 && Forward(start, ticks) && i < j < |ticks| && c.modalityInterval >= 0
    requires CycleAt(c, start, ticks, i).modality && CycleAt(c, start, ticks, j).modality
    ensures ticks[j].woke >= ticks[i].afterModality + c.modalityInterval
  {
    assert ticks[..j][..i] == ticks[..i];
    DeadlineAfterRun(c, start, ticks[..j], i);
  }

  /** The same for the composite probe and its own clock. */
  lemma {:induction false} CompositeDeadlineAfterRun(c: Config, start: int, ticks: seq<Tick>, i: nat)
    requires |c.pools| > 0 && Forward(start, ticks) && i < |ticks| && CycleAt(c, start, ticks, i).composite
    requires c.compositeInterval >= 0
    ensures var due := After(c, start, ticks).compositeDue;
            due.Some? && due.value >= ticks[i].afterComposite + c.compositeInterval
  {
    var n := |ticks| - 1;
    if i < n {
      assert ticks[..n][..i] == ticks[..i];
      CompositeDeadlineAfterRun(c, start, ticks[..n], i);
    }
  }

  lemma CompositeRunsAreSpaced(c: Config, start: int, ticks: seq<Tick>, i: nat, j: nat)
    requires |c.pools| > 0 && Forward(start, ticks) && i < j < |ticks| && c.compositeInterval >= 0
    requires CycleAt(c, start, ticks, i).composite && CycleAt(c, start, ticks, j).composite
    ensures ticks[j].woke >= ticks[i].afterComposite + c.compositeInterval
  {
    assert ticks[..j][..i] == ticks[..i];
    CompositeDeadlineAfterRun(c, start, ticks[..j], i);
  }

  /** An iteration that starts before a deadline and wakes on time wakes no later than the deadline:
      neither clock is overslept. */
  lemma NoDeadlineIsOverslept(c: Config, s: Schedule, t: Tick)
    requires t.woke == t.atModality + Sleep(c, s, t) && t.atComposite == t.atModality
    ensures s.modalityDue.Some? && t.atModality <= s.modalityDue.value ==> t.woke <= s.modalityDue.value
    ensures s.compositeDue.Some? && t.atModality <= s.compositeDue.value ==> t.woke <= s.compositeDue.value
    ensures t.woke <= t.atModality + ToolDelay(c, s)
    ensures t.woke == t.atModality + ToolDelay(c, s) || WakesFor(s.modalityDue, t) || WakesFor(s.compositeDue, t)
  {
  }

  /** The iteration wakes at the deadline, or at once if that is over. */
  predicate WakesFor(due: Option<int>, t: Tick) {
    due.Some? && t.woke == if due.value > t.atModality then due.value else t.atModality
  }

  // ----- What each iteration runs, told by the earlier ones --------------------------------------------

  /** The last iteration of the run that ran the composite probe. */
  function LastComposite(c: Config, start: int, ticks: seq<Tick>): (last: Option<nat>)
    requires |c.pools| > 0
    ensures last.Some? ==> last.value < |ticks|
  {
    if ticks == [] then None
    else if CycleAt(c, start, ticks, |ticks| - 1).composite then Some(|ticks| - 1)
    else LastComposite(c, start, ticks[..|ticks| - 1])
  }

  function LastModality(c: Config, start: int, ticks: seq<Tick>): (last: Option<nat>)
    requires |c.pools| > 0
    ensures last.Some? ==> last.value < |ticks|
  {
    if ticks == [] then None
    else if CycleAt(c, start, ticks, |ticks| - 1).modality then Some(|ticks| - 1)
    else LastModality(c, start, ticks[..|ticks| - 1])
  }

  function ToolRuns(c: Config, start: int, ticks: seq<Tick>): nat
    requires |c.pools| > 0
  {
    if ticks == [] then 0
    else ToolRuns(c, start, ticks[..|ticks| - 1]) + if CycleAt(c, start, ticks, |ticks| - 1).tool.Some? then 1 else 0
  }

  /** An interval after the end of the last run, or the initial delay after the start. */
  function NextComposite(c: Config, start: int, ticks: seq<Tick>): int
    requires |c.pools| > 0
  {
    match LastComposite(c, start, ticks)
    case None => start + c.compositeInitialDelay
    case Some(i) => ticks[i].afterComposite + c.compositeInterval
  }

  function NextModality(c: Config, start: int, ticks: seq<Tick>): int
    requires |c.pools| > 0
  {
    match LastModality(c, start, ticks)
    case None => start + c.modalityInitialDelay
    case Some(i) => ticks[i].afterModality + c.modalityInterval
  }

  lemma {:induction false} ScheduleFollowsRuns(c: Config, start: int, ticks: seq<Tick>)
    requires |c.pools| > 0
    ensures After(c, start, ticks) == Schedule(ticks == [], ToolRuns(c, start, ticks),
                                               if c.modality then Some(NextModality(c, start, ticks)) else None,
                                               if c.composite then Some(NextComposite(c, start, ticks)) else None)
  {
    if ticks != [] {
      ScheduleFollowsRuns(c, start, ticks[..|ticks| - 1]);
    }
  }

  /** The composite probe runs exactly when it is enabled and the loop wakes no earlier than an interval
      after the end of its last run, or its initial delay after the start. */
  lemma CompositeRunsIff(c: Config, start: int, ticks: seq<Tick>, j: nat)
    requires |c.pools| > 0 && j < |ticks|
    ensures CycleAt(c, start, ticks, j).composite <==> c.composite && ticks[j].woke >= NextComposite(c, start, ticks[..j])
  {
    ScheduleFollowsRuns(c, start, ticks[..j]);
  }

  /** The same for the modality probe and its own clock. */
  lemma ModalityRunsIff(c: Config, start: int, ticks: seq<Tick>, j: nat)
    requires |c.pools| > 0 && j < |ticks|
    ensures CycleAt(c, start, ticks, j).modality <==> c.modality && ticks[j].woke >= NextModality(c, start, ticks[..j])
  {
    ScheduleFollowsRuns(c, start, ticks[..j]);
  }

  /** The tool cycle has no clock of its own.  It runs in an iteration exactly when the time to the next
      modality run, if there is to be one, is at least its delay, and it serves the pools in turn. */
  lemma ToolRunsIff(c: Config, start: int, ticks: seq<Tick>, j: nat)
    requires |c.pools| > 0 && j < |ticks|
    ensures var tool, delay := CycleAt(c, start, ticks, j).tool, if j == 0 then c.initialDelay else c.interval;
            var left := NextModality(c, start, ticks[..j]) - ticks[j].atModality;
            && (tool.Some? <==> !c.modality || delay <= left || (left < 0 && delay <= 0))
            && (tool.Some? ==> tool.value == c.pools[ToolRuns(c, start, ticks[..j]) % |c.pools|])
  {
    ScheduleFollowsRuns(c, start, ticks[..j]);
  }

  // ----- The tool cadence ---------------------------------------------------------------------------------

  /** The comments call the tool cadence independent of the modality clock.  It is not: once the
      modality probe has run, a modality interval shorter than the tool interval keeps the tool cycle
      from ever running again. */
  lemma ToolCycleStarves(c: Config, start: int, ticks: seq<Tick>, i: nat, j: nat)
    requires |c.pools| > 0 && Forward(start, ticks) && i < j < |ticks|
    requires CycleAt(c, start, ticks, i).modality && 0 <= c.modalityInterval < c.interval
    ensures CycleAt(c, start, ticks, j).tool == None
  {
    assert ticks[..j][..i] == ticks[..i];
    DeadlineAfterRun(c, start, ticks[..j], i);
    assert ticks[..j][j - 1] == ticks[j - 1];
  }

  /** Every iteration sleeps at least as long as it set out to. */
  ghost predicate Sleeps(c: Config, start: int, ticks: seq<Tick>) {
    forall i :: 0 <= i < |ticks| ==> ticks[i].woke >= ticks[i].atComposite + Sleep(c, After(c, start, ticks[..i]), ticks[i])
  }

  ghost predicate NeverAgain(c: Config, start: int)
    requires |c.pools| > 0
  {
    forall ticks, i, j ::
      Forward(start, ticks) && Sleeps(c, start, ticks) && 0 <= i < j < |ticks| && CycleAt(c, start, ticks, i).modality
      ==> CycleAt(c, start, ticks, j).tool == None
  }

  /** An iteration that takes its readings at one moment, wakes at another, and runs its probes in no time. */
  function Quick(at: int, woke: int): Tick {
    Tick(at, at, woke, woke, woke)
  }

  /** Exactly when: in the runs the loop can make, the tool cycle is lost after the first modality run
      if and only if the modality interval is the shorter one. */
  lemma ToolCycleStarvesIff(c: Config, start: int)
    requires |c.pools| > 0 && c.modality && c.initialDelay >= 0 && c.interval >= 0
    requires c.modalityInitialDelay >= 0 && c.modalityInterval >= 0
    ensures NeverAgain(c, start) <==> c.modalityInterval < c.interval
  {
    if c.modalityInterval < c.interval {
      forall ticks, i, j |
        Forward(start, ticks) && Sleeps(c, start, ticks) && 0 <= i < j < |ticks| && CycleAt(c, start, ticks, i).modality
        ensures CycleAt(c, start, ticks, j).tool == None
      {
        ToolCycleStarves(c, start, ticks, i, j);
      }
    } else {
      LongModalityIntervalLeavesRoom(c, start);
    }
  }

  /** The run that shows it: the loop sleeps until both first deadlines are over, runs the modality
      probe, and then finds the next modality deadline a full tool interval away. */
  lemma LongModalityIntervalLeavesRoom(c: Config, start: int)
    requires |c.pools| > 0 && c.modality && c.initialDelay >= 0 && c.interval >= 0
    requires c.modalityInitialDelay >= 0 && c.modalityInterval >= c.interval
    ensures !NeverAgain(c, start)
  {
    var first := start + c.initialDelay + c.modalityInitialDelay;
    var t, u := Quick(start, first), Quick(first, first + c.interval);
    var ticks := [t, u];
    assert ticks[..0] == [] && ticks[..1] == [t] && [t][..0] == [];
    assert After(c, start, [t]) == Step(c, Start(c, start), t);
    assert Forward(start, ticks) && Sleeps(c, start, ticks);
    assert CycleAt(c, start, ticks, 0).modality && CycleAt(c, start, ticks, 1).tool.Some?;
  }

  /** The tool cycle ignores the composite clock: it runs before its own delay has passed exactly when
      the composite probe wakes the loop early and the modality deadline is a full delay away. */
  lemma ToolRunsEarlyIff(c: Config, s: Schedule, t: Tick)
    requires |c.pools| > 0 && t.woke == t.atModality + Sleep(c, s, t)
    ensures Ran(c, s, t).tool.Some? && t.woke < t.atModality + ToolDelay(c, s)
            <==> ToolDue(c, s, t.atModality) && s.compositeDue.Some?
                 && Left(s.compositeDue, t.atComposite).value < ToolDelay(c, s)
  {
  }

  /** Without the modality probe every wake runs the tool cycle, so the pools are served in turn, one
      per iteration. */
  lemma {:induction false} EveryWakeServesNextPool(c: Config, start: int, ticks: seq<Tick>, i: nat)
    requires |c.pools| > 0 && !c.modality && i < |ticks|
    ensures CycleAt(c, start, ticks, i).tool == Some(c.pools[i % |c.pools|])
  {
    AllWakesCounted(c, start, ticks[..i]);
  }

  lemma {:induction false} AllWakesCounted(c: Config, start: int, ticks: seq<Tick>)
    requires !c.modality
    ensures After(c, start, ticks).poolIndex == |ticks| && After(c, start, ticks).modalityDue == None
  {
    if ticks != [] {
      AllWakesCounted(c, start, ticks[..|ticks| - 1]);
    }
  }
}
