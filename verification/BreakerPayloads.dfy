/** The payload ceiling a route learns from accepted and refused request bodies, and whether a body is
    ever skipped without evidence. */
module BreakerPayloads {
  import opened Options
  import opened CircuitBreaker
  import opened BreakerRuns

  /** An accepted body, or one refused as too large. */
  datatype Report = Took(size: int) | Refused(size: int)

  function CeilingOf(db: Option<Row>): Option<int> { if db.Some? then db.value.payloadCeiling else None }

  /** The selector skips the route for a body over its ceiling; no ceiling never skips. */
  predicate Skips(db: Option<Row>, size: int) {
    CeilingOf(db).Some? && CeilingOf(db).value < size
  }

  /** The row after reports that are recorded one after another. */
  function AfterReports(db: Option<Row>, reports: seq<Report>): Option<Row> {
    if reports == [] then db
    else
      var before := AfterReports(db, reports[..|reports| - 1]);
      match reports[|reports| - 1]
      case Took(size) => WriteAccepted(before, before, size)
      case Refused(size) => WriteRejected(before, before, size)
  }

  /** The size a refusal says might still pass: 1024 bytes less, and never under 32 KiB. */
  function StillPasses(size: int): int { if size < 33 * 1024 then 32 * 1024 else size - 1024 }

  ghost predicate NoReport(reports: seq<Report>, n: nat)
    requires n <= |reports|
  {
    forall k :: 0 <= k < n ==> reports[k].size <= 0
  }

  /** Report i vouches for bodies of this size: such a body was taken, or the very first report refused
      one that was large enough. */
  ghost predicate Vouches(reports: seq<Report>, i: nat, size: int) {
    && i < |reports| && reports[i].size > 0
    && match reports[i]
       case Took(taken) => size <= taken
       case Refused(refused) => size <= StillPasses(refused) && NoReport(reports, i)
  }

  /** A refusal after report i speaks against this size. */
  ghost predicate Contradicted(reports: seq<Report>, i: nat, size: int) {
    exists j :: i < j < |reports| && reports[j].Refused? && 0 < reports[j].size && StillPasses(reports[j].size) < size
  }

  ghost predicate StandingVoucher(reports: seq<Report>, size: int) {
    exists i: nat :: Vouches(reports, i, size) && !Contradicted(reports, i, size)
  }

  lemma SnocNoReport(reports: seq<Report>, r: Report, n: nat)
    requires n <= |reports|
    ensures NoReport(reports + [r], n) <==> NoReport(reports, n)
    ensures NoReport(reports + [r], |reports| + 1) <==> NoReport(reports, |reports|) && r.size <= 0
  {
    var longer := reports + [r];
    assert longer[|reports|] == r && forall k :: 0 <= k < |reports| ==> reports[k] == longer[k];
    if NoReport(longer, n) {
      assert forall k :: 0 <= k < n ==> longer[k].size <= 0;
    }
    if NoReport(longer, |reports| + 1) {
      assert forall k :: 0 <= k < |reports| ==> longer[k].size <= 0;
    }
  }

  lemma SnocVouches(reports: seq<Report>, r: Report, i: nat, size: int)
    requires i < |reports|
    ensures Vouches(reports + [r], i, size) <==> Vouches(reports, i, size)
    ensures Contradicted(reports + [r], i, size) <==>
            Contradicted(reports, i, size) || (r.Refused? && 0 < r.size && StillPasses(r.size) < size)
  {
    var longer := reports + [r];
    if Contradicted(reports, i, size) {
      var j :| i < j < |reports| && reports[j].Refused? && 0 < reports[j].size && StillPasses(reports[j].size) < size;
      assert longer[j] == reports[j];
    }
    if r.Refused? && 0 < r.size && StillPasses(r.size) < size {
      assert longer[|reports|] == r;
    }
    SnocNoReport(reports, r, i);
  }

  /** What one more report does to the vouchers for a size. */
  lemma SnocStanding(reports: seq<Report>, r: Report, size: int)
    ensures StandingVoucher(reports + [r], size) <==>
            || (StandingVoucher(reports, size) && !(r.Refused? && 0 < r.size && StillPasses(r.size) < size))
            || (r.size > 0 && (if r.Took? then size <= r.size
                               else size <= StillPasses(r.size) && NoReport(reports, |reports|)))
  {
    hide Vouches, Contradicted;
    var longer := reports + [r];
    forall i: nat | i < |reports| {
      SnocVouches(reports, r, i, size);
    }
    LastVouches(reports, r, size);
    if StandingVoucher(longer, size) {
      var i: nat :| Vouches(longer, i, size) && !Contradicted(longer, i, size);
      VouchesInRange(longer, i, size);
    }
    if StandingVoucher(reports, size) {
      var i: nat :| Vouches(reports, i, size) && !Contradicted(reports, i, size);
      VouchesInRange(reports, i, size);
    }
  }

  lemma VouchesInRange(reports: seq<Report>, i: nat, size: int)
    requires Vouches(reports, i, size)
    ensures i < |reports|
  {
  }

  lemma LastVouches(reports: seq<Report>, r: Report, size: int)
    ensures var n := |reports|;
            && !Contradicted(reports + [r], n, size)
            && (Vouches(reports + [r], n, size) <==>
                  r.size > 0 && (if r.Took? then size <= r.size else size <= StillPasses(r.size) && NoReport(reports, n)))
  {
    SnocNoReport(reports, r, |reports|);
  }

  /** A new route is skipped for a body, after any reports recorded one after another, exactly when
      there is some report and every one that vouches for the size was contradicted since. */
  lemma {:induction false} SkippedIff(reports: seq<Report>, size: int)
    ensures CeilingOf(AfterReports(None, reports)) == None <==> NoReport(reports, |reports|)
    ensures AfterReports(None, reports).Some? ==> CeilingOf(AfterReports(None, reports)).Some?
    ensures Skips(AfterReports(None, reports), size) <==>
            !NoReport(reports, |reports|) && !StandingVoucher(reports, size)
  {
    hide StandingVoucher;
    if reports != [] {
      var before, r := reports[..|reports| - 1], reports[|reports| - 1];
      assert before + [r] == reports;
      SkippedIff(before, size);
      SnocStanding(before, r, size);
      SnocNoReport(before, r, |before|);
      if NoReport(before, |before|) {
        NothingVouches(before, size);
      }
    }
  }

  lemma NothingVouches(reports: seq<Report>, size: int)
    requires NoReport(reports, |reports|)
    ensures !StandingVoucher(reports, size)
  {
  }

  /** A route is said to be skipped only for a body it is known not to take.  Where nothing was ever
      refused it is skipped all the same, exactly for the bodies larger than every one it took so far. */
  lemma SkippedWithoutRefusalIff(reports: seq<Report>, size: int)
    requires forall i :: 0 <= i < |reports| ==> reports[i].Took? && reports[i].size > 0
    ensures Skips(AfterReports(None, reports), size) <==>
            reports != [] && forall i :: 0 <= i < |reports| ==> reports[i].size < size
  {
    SkippedIff(reports, size);
    if reports != [] && !StandingVoucher(reports, size) {
      forall i | 0 <= i < |reports| ensures reports[i].size < size {
        assert !Vouches(reports, i, size) || Contradicted(reports, i, size);
      }
    }
  }

  // ----- Under every interleaving ----------------------------------------------------------------------

  /** Only a payload report moves the ceiling. */
  lemma OnlyReportsMoveTheCeiling(p: Policy, w: World, a: Action)
    requires a.Finish? && a.caller in w.calls ==> !w.calls[a.caller].Accepting? && !w.calls[a.caller].Rejecting?
    ensures CeilingOf(Next(p, w, a).db) == CeilingOf(w.db)
  {
  }

  /** An accepted body is said never to lower the ceiling.  It does exactly when it is under the ceiling
      that stands and its caller read a row with a lower one, or with none. */
  lemma AcceptedLowersIff(p: Policy, w: World, caller: CallerId, now: int, ceiling: int)
    requires caller in w.calls && w.calls[caller].Accepting? && CeilingOf(w.db) == Some(ceiling)
    ensures var call := w.calls[caller];
            var after := CeilingOf(Next(p, w, Finish(caller, now)).db);
            && after.Some?
            && (after.value < ceiling <==>
                  0 < call.size < ceiling && (CeilingOf(call.read) == None || CeilingOf(call.read).value < call.size))
  {
  }

  /** A refused body is said never to raise it, and does under the mirrored condition. */
  lemma RejectedRaisesIff(p: Policy, w: World, caller: CallerId, now: int, ceiling: int)
    requires caller in w.calls && w.calls[caller].Rejecting? && CeilingOf(w.db) == Some(ceiling)
    ensures var call := w.calls[caller];
            var after := CeilingOf(Next(p, w, Finish(caller, now)).db);
            && after.Some?
            && (after.value > ceiling <==>
                  && 0 < call.size && ceiling < StillPasses(call.size)
                  && (CeilingOf(call.read) == None || CeilingOf(call.read).value > StillPasses(call.size)))
  {
  }
}
