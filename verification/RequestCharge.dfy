/** How one request is charged against the budget and when the charge is taken back. */
module RequestCharge {
  import opened Options
  import opened Budget
  import BudgetRuns

  datatype Failure = BadRequest | OtherError | Cancelled

  /** `Complete` carries the provider's own token count, 0 when it gave none. */
  datatype Reply = Complete(total: int) | Stream

  datatype Pump = Delivered | Disconnected | Broken | Interrupted

  /** One request and what befalls it.  `dispatch` is the error of the dispatch loop, if any.  `ending`
      is an error raised after the reply arrived: while it is converted, or, for a stream, while the
      stream is closed, where everything but a cancellation is swallowed.  A cancellation that arrives
      while a record or a refund is being written does not stop the thread that writes it. */
  datatype Request = Request(
    budgeted: bool, streaming: bool, estimate: int,
    dispatch: Option<Failure>, reply: Reply, pump: Pump, ending: Option<Failure>,
    recordReachable: bool, refundReachable: bool, recordCancelled: bool, refundCancelled: bool)

  /** The amount the handler means to charge. */
  function Amount(r: Request): Option<int> {
    if !r.budgeted || r.dispatch.Some? then None
    else
      match r.reply
      case Complete(total) => Some(if total == 0 then r.estimate else total)
      case Stream => if r.streaming then Some(r.estimate) else None
  }

  /** A charge is taken back when the stream was not delivered, or when converting the reply failed
      for another reason than a rejected request, unless the request was cancelled while the charge
      was being written: that one is kept. */
  predicate TakenBack(r: Request) {
    && Amount(r).Some? && !r.recordCancelled
    && if r.streaming then r.pump != Delivered else r.ending == Some(OtherError)
  }

  /** The rows after an attempt to record an amount, or to take it back. */
  function Posted(enabled: bool, day: int, rows: seq<UsageRow>, fp: Fingerprint, pool: Option<string>, at: int, amount: int,
                  back: bool, reachable: bool): seq<UsageRow>
    requires day > 0
  {
    if enabled && amount > 0 && reachable then Charged(rows, day, fp, pool, at, if back then -amount else amount) else rows
  }

  function RowsAfter(enabled: bool, day: int, rows: seq<UsageRow>, fp: Fingerprint, pool: Option<string>, r: Request,
                     recordAt: int, refundAt: int): seq<UsageRow>
    requires day > 0
  {
    if Amount(r).None? then rows
    else
      var recorded := Posted(enabled, day, rows, fp, pool, recordAt, Amount(r).value, false, r.recordReachable);
      if TakenBack(r) then Posted(enabled, day, recorded, fp, pool, refundAt, Amount(r).value, true, r.refundReachable)
      else recorded
  }

  /** The flags of the handler, followed through every exit: the charge is recorded once, taken back
      at most once, and always by the amount that was recorded.  What the caller sees is a cancellation
      wherever one can strike; apart from that a stream ends quietly. */
  method Handle(tracker: BudgetTracker, fp: Fingerprint, pool: Option<string>, r: Request, recordAt: int, refundAt: int)
    returns (failure: Option<Failure>)
    requires tracker.day > 0
    modifies tracker
    ensures tracker.rows == RowsAfter(tracker.enabled, tracker.day, old(tracker.rows), fp, pool, r, recordAt, refundAt)
    ensures tracker.stats.records <= old(tracker.stats.records) + 1
    ensures tracker.stats.refunds <= old(tracker.stats.refunds) + if TakenBack(r) then 1 else 0
    ensures failure == Some(Cancelled) <==>
            || r.dispatch == Some(Cancelled)
            || (r.dispatch == None
                && ((Amount(r).Some? && r.recordCancelled) || (TakenBack(r) && r.refundCancelled)
                    || (r.streaming && r.pump == Interrupted) || r.ending == Some(Cancelled)))
    ensures failure != Some(Cancelled) ==>
              failure == if r.dispatch.Some? then r.dispatch else if r.streaming then None else r.ending
  {
    hide Charged;
    var recorded, charged := false, 0;
    failure := r.dispatch;
    if failure.None? && r.budgeted && r.reply.Complete? {
      var used := if r.reply.total != 0 then r.reply.total else r.estimate;
      tracker.Record(fp, pool, used, recordAt, r.recordReachable);
      if r.recordCancelled {
        return Some(Cancelled);
      }
      recorded, charged := true, used;
    }
    if failure.None? && r.streaming {
      if r.budgeted && !recorded {
        tracker.Record(fp, pool, r.estimate, recordAt, r.recordReachable);
        if r.recordCancelled {
          return Some(Cancelled);
        }
        recorded, charged := true, r.estimate;
      }
      if r.pump != Delivered {
        if recorded && r.budgeted {
          tracker.Refund(fp, pool, charged, refundAt, r.refundReachable);
          if r.refundCancelled {
            return Some(Cancelled);
          }
          recorded := false;
        }
        if r.pump == Interrupted {
          return Some(Cancelled);
        }
      }
      return if r.ending == Some(Cancelled) then r.ending else None;
    }
    if failure.None? {
      failure := r.ending;
    }
    if failure == Some(OtherError) {
      if recorded && r.budgeted {
        tracker.Refund(fp, pool, charged, refundAt, r.refundReachable);
        if r.refundCancelled {
          return Some(Cancelled);
        }
      }
    }
  }

  /** What a request that was taken back leaves in the current window: nothing exactly when the
      recording and the taking back both reached the store and fell into the same window, or neither
      reached it.  A charge that was never written, or was written before the window rolled over, is
      taken back all the same and turns into credit. */
  lemma TakenBackIsNeutralIff(day: int, rows: seq<UsageRow>, fp: Fingerprint, pool: Option<string>, r: Request,
                              recordAt: int, refundAt: int, period: Period)
    requires day > 0 && recordAt <= refundAt && TakenBack(r) && Amount(r).value > 0
    requires period.PerPool? ==> NamesPool(pool) && pool.value == period.name
    ensures var before := Used(rows, day, fp, period, refundAt);
            var left := Used(RowsAfter(true, day, rows, fp, pool, r, recordAt, refundAt), day, fp, period, refundAt);
            var sameWindow := recordAt >= BucketStart(refundAt, Window(day, period));
            && (left == before <==> r.refundReachable == (r.recordReachable && sameWindow))
            && (r.refundReachable && !(r.recordReachable && sameWindow) ==> left == before - Amount(r).value)
  {
    hide Charged, Sum;
    var amount, w := Amount(r).value, Window(day, period);
    var recorded := Posted(true, day, rows, fp, pool, recordAt, amount, false, r.recordReachable);
    BudgetRuns.SumAfterCharge(rows, day, BudgetRuns.Charge(recordAt, fp, pool, amount), fp, period, refundAt - w);
    BudgetRuns.SumAfterCharge(recorded, day, BudgetRuns.Charge(refundAt, fp, pool, -amount), fp, period, refundAt - w);
    BudgetRuns.RollingKeepsAlignedWindow(recordAt, refundAt, w);
    BudgetRuns.RollingKeepsAlignedWindow(refundAt, refundAt, w);
    BudgetRuns.BucketBounds(refundAt, w);
  }

  /** The request owes n tokens: it is budgeted, it was dispatched, and the provider reported n, or
      reported nothing, or streamed, and the estimate is n. */
  predicate Owes(r: Request, n: int) {
    && r.budgeted && r.dispatch == None
    && (r.reply == Complete(n) || (r.estimate == n && (r.reply == Complete(0) || (r.reply == Stream && r.streaming))))
  }

  /** The caller got what was charged, or went away while the charge was written. */
  predicate Kept(r: Request) {
    || r.recordCancelled
    || (r.streaming && r.pump == Delivered)
    || (!r.streaming && r.ending != Some(OtherError))
  }

  /** What a request moves in every window of its caller: the provider's own count when there is one and
      the estimate otherwise, once; nothing after the refund of a request that did not get through; and
      nothing at all when nothing is owed. */
  lemma WindowMovesByWhatIsOwed(day: int, rows: seq<UsageRow>, fp: Fingerprint, pool: Option<string>, r: Request, n: int,
                                recordAt: int, refundAt: int, period: Period)
    requires day > 0 && (period.PerPool? ==> NamesPool(pool) && pool.value == period.name)
    requires Owes(r, n) && n != 0 && r.recordReachable && r.refundReachable
    requires BucketStart(refundAt, Window(day, period)) <= recordAt <= refundAt
    ensures var before := Used(rows, day, fp, period, refundAt);
            var after := Used(RowsAfter(true, day, rows, fp, pool, r, recordAt, refundAt), day, fp, period, refundAt);
            after == before + if n > 0 && Kept(r) then n else 0
  {
    hide Charged, Sum;
    var w := Window(day, period);
    if n > 0 && !Kept(r) {
      TakenBackIsNeutralIff(day, rows, fp, pool, r, recordAt, refundAt, period);
    } else if n > 0 {
      BudgetRuns.SumAfterCharge(rows, day, BudgetRuns.Charge(recordAt, fp, pool, n), fp, period, refundAt - w);
      BudgetRuns.RollingKeepsAlignedWindow(recordAt, refundAt, w);
      BudgetRuns.BucketBounds(refundAt, w);
    }
  }

  /** Nothing is written for a request that owes nothing, that failed before a reply, or whose tracker is
      switched off. */
  lemma NothingOwedNothingWritten(enabled: bool, day: int, rows: seq<UsageRow>, fp: Fingerprint, pool: Option<string>, r: Request,
                                  recordAt: int, refundAt: int)
    requires day > 0 && (!enabled || forall n :: Owes(r, n) && n != 0 ==> n < 0)
    ensures RowsAfter(enabled, day, rows, fp, pool, r, recordAt, refundAt) == rows
  {
    if Amount(r).Some? {
      assert Owes(r, Amount(r).value);
    }
  }
}
