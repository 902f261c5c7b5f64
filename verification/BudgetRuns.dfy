/** What the budget rows add up to over whole runs, and what the caps therefore bound. */
module BudgetRuns {
  import opened Options
  import opened Budget

  /** One charge as it was written; a refund carries negative tokens. */
  datatype Charge = Charge(now: int, fp: Fingerprint, pool: Option<string>, tokens: int)

  function Rows(day: int, charges: seq<Charge>): seq<UsageRow>
    requires day > 0
  {
    if charges == [] then []
    else
      var last := charges[|charges| - 1];
      Charged(Rows(day, charges[..|charges| - 1]), day, last.fp, last.pool, last.now, last.tokens)
  }

  /** A charge counts towards a period of a key. */
  predicate CountsFor(c: Charge, fp: Fingerprint, period: Period) {
    c.fp == fp && (period.PerPool? ==> NamesPool(c.pool) && c.pool.value == period.name)
  }

  /** The net tokens of the charges in the interval [from, to). */
  function NetIn(charges: seq<Charge>, fp: Fingerprint, period: Period, from: int, to: int): int {
    if charges == [] then 0
    else
      var last := charges[|charges| - 1];
      NetIn(charges[..|charges| - 1], fp, period, from, to)
      + if CountsFor(last, fp, period) && from <= last.now < to then last.tokens else 0
  }

  ghost predicate AllBy(charges: seq<Charge>, now: int) {
    forall i :: 0 <= i < |charges| ==> charges[i].now <= now
  }

  ghost predicate NoRefunds(charges: seq<Charge>) {
    forall i :: 0 <= i < |charges| ==> charges[i].tokens >= 0
  }

  // ----- Buckets ------------------------------------------------------------------------------

  lemma MultipleBelow(k: int, q: int, w: int)
    requires k < q && w > 0
    ensures w * k <= w * q - w
  {
    var d := q - k - 1;
    assert w * q == w * k + w + w * d;
    ProductNotNegative(w, d);
  }

  lemma ProductNotNegative(a: int, b: int)
    requires a >= 0 && b >= 0
    ensures a * b >= 0
  {
  }

  /** A bucket start is where the window containing a moment begins. */
  lemma BucketBounds(now: int, w: int)
    requires w > 0
    ensures BucketStart(now, w) <= now < BucketStart(now, w) + w
    ensures BucketStart(now, w) == w * (now / w)
  {
  }

  /** For moments up to `now`, the rolling predicate keeps exactly those in the aligned window. */
  lemma RollingKeepsAlignedWindow(past: int, now: int, w: int)
    requires w > 0 && past <= now
    ensures BucketStart(past, w) > now - w <==> past >= BucketStart(now, w)
    ensures past >= BucketStart(now, w) ==> BucketStart(past, w) == BucketStart(now, w)
  {
    BucketBounds(past, w);
    BucketBounds(now, w);
    var k, q := past / w, now / w;
    if k < q {
      MultipleBelow(k, q, w);
    } else if q < k {
      MultipleBelow(q, k, w);
    }
  }

  lemma {:induction false} SumAfterUpsert(rows: seq<UsageRow>, fp: Fingerprint, period: Period, start: int, tokens: int,
                                         fp': Fingerprint, period': Period, after: int)
    ensures Sum(Upsert(rows, fp, period, start, tokens), fp', period', after)
         == Sum(rows, fp', period', after) + if fp == fp' && period == period' && start > after then tokens else 0
  {
    var r := Upsert(rows, fp, period, start, tokens);
    if rows == [] {
      assert r[1..] == [];
    } else if rows[0].fp == fp && rows[0].period == period && rows[0].start == start {
      assert r[1..] == rows[1..];
    } else {
      assert r[1..] == Upsert(rows[1..], fp, period, start, tokens);
      SumAfterUpsert(rows[1..], fp, period, start, tokens, fp', period', after);
    }
  }

  lemma SumAfterCharge(rows: seq<UsageRow>, day: int, c: Charge, fp: Fingerprint, period: Period, after: int)
    requires day > 0
    ensures Sum(Charged(rows, day, c.fp, c.pool, c.now, c.tokens), fp, period, after)
         == Sum(rows, fp, period, after)
            + if CountsFor(c, fp, period) && BucketStart(c.now, Window(day, period)) > after then c.tokens else 0
  {
    var one := Bump(rows, day, c.fp, Daily, c.now, c.tokens);
    var two := Bump(one, day, c.fp, Monthly, c.now, c.tokens);
    SumAfterUpsert(rows, c.fp, Daily, BucketStart(c.now, day), c.tokens, fp, period, after);
    SumAfterUpsert(one, c.fp, Monthly, BucketStart(c.now, 30 * day), c.tokens, fp, period, after);
    if NamesPool(c.pool) {
      SumAfterUpsert(two, c.fp, PerPool(c.pool.value), BucketStart(c.now, day), c.tokens, fp, period, after);
    }
  }

  /** On a clock that does not go back, what `_sum` reports is the net tokens since the last multiple
      of the window: an aligned window, not a rolling one. */
  lemma {:induction false} SumIsAlignedWindow(day: int, charges: seq<Charge>, fp: Fingerprint, period: Period, now: int)
    requires day > 0 && AllBy(charges, now)
    ensures var start := BucketStart(now, Window(day, period));
            Used(Rows(day, charges), day, fp, period, now)
            == NetIn(charges, fp, period, start, start + Window(day, period))
  {
    hide Charged, BucketStart;
    if charges != [] {
      var before, last := charges[..|charges| - 1], charges[|charges| - 1];
      SumIsAlignedWindow(day, before, fp, period, now);
      SumAfterCharge(Rows(day, before), day, last, fp, period, now - Window(day, period));
      RollingKeepsAlignedWindow(last.now, now, Window(day, period));
      BucketBounds(now, Window(day, period));
    }
  }

  // ----- A month is its thirty days --------------------------------------------------------------

  /** The tokens stored under one exact bucket. */
  function RowTokens(rows: seq<UsageRow>, fp: Fingerprint, period: Period, start: int): int {
    if rows == [] then 0
    else
      (if rows[0].fp == fp && rows[0].period == period && rows[0].start == start then rows[0].tokens else 0)
      + RowTokens(rows[1..], fp, period, start)
  }

  function DayRows(rows: seq<UsageRow>, day: int, fp: Fingerprint, start: int, days: nat): int {
    if days == 0 then 0
    else DayRows(rows, day, fp, start, days - 1) + RowTokens(rows, fp, Daily, start + (days - 1) * day)
  }

  lemma {:induction false} RowAfterUpsert(rows: seq<UsageRow>, fp: Fingerprint, period: Period, start: int, tokens: int,
                                         fp': Fingerprint, period': Period, start': int)
    ensures RowTokens(Upsert(rows, fp, period, start, tokens), fp', period', start')
         == RowTokens(rows, fp', period', start') + if fp == fp' && period == period' && start == start' then tokens else 0
  {
    var r := Upsert(rows, fp, period, start, tokens);
    if rows == [] {
      assert r[1..] == [];
    } else if rows[0].fp == fp && rows[0].period == period && rows[0].start == start {
      assert r[1..] == rows[1..];
    } else {
      assert r[1..] == Upsert(rows[1..], fp, period, start, tokens);
      RowAfterUpsert(rows[1..], fp, period, start, tokens, fp', period', start');
    }
  }

  lemma RowAfterCharge(rows: seq<UsageRow>, day: int, c: Charge, fp: Fingerprint, period: Period, start: int)
    requires day > 0
    ensures RowTokens(Charged(rows, day, c.fp, c.pool, c.now, c.tokens), fp, period, start)
         == RowTokens(rows, fp, period, start)
            + if CountsFor(c, fp, period) && BucketStart(c.now, Window(day, period)) == start then c.tokens else 0
  {
    var one := Bump(rows, day, c.fp, Daily, c.now, c.tokens);
    var two := Bump(one, day, c.fp, Monthly, c.now, c.tokens);
    RowAfterUpsert(rows, c.fp, Daily, BucketStart(c.now, day), c.tokens, fp, period, start);
    RowAfterUpsert(one, c.fp, Monthly, BucketStart(c.now, 30 * day), c.tokens, fp, period, start);
    if NamesPool(c.pool) {
      RowAfterUpsert(two, c.fp, PerPool(c.pool.value), BucketStart(c.now, day), c.tokens, fp, period, start);
    }
  }

  /** A charge lands in one of the first n days after a bucket start, or in none of them. */
  lemma {:induction false} DayRowsAfterCharge(rows: seq<UsageRow>, day: int, c: Charge, fp: Fingerprint, start: int, days: nat)
    requires day > 0 && start % day == 0
    ensures DayRows(Charged(rows, day, c.fp, c.pool, c.now, c.tokens), day, fp, start, days)
         == DayRows(rows, day, fp, start, days)
            + if c.fp == fp && start <= c.now < start + days * day then c.tokens else 0
  {
    if days > 0 {
      DayRowsAfterCharge(rows, day, c, fp, start, days - 1);
      RowAfterCharge(rows, day, c, fp, Daily, start + (days - 1) * day);
      InDay(c.now, day, start, days - 1);
    }
  }

  /** The bucket of a moment is the n-th day after a bucket start exactly when the moment falls in it. */
  lemma InDay(now: int, day: int, start: int, n: nat)
    requires day > 0 && start % day == 0
    ensures BucketStart(now, day) == start + n * day <==> start + n * day <= now < start + (n + 1) * day
    ensures start + n * day + day == start + (n + 1) * day
  {
    BucketBounds(now, day);
    var k := start / day;
    assert start == day * k;
    assert start + n * day == day * (k + n);
    var q := now / day;
    if q < k + n {
      MultipleBelow(q, k + n, day);
    } else if k + n < q {
      MultipleBelow(k + n, q, day);
    }
  }

  /** Every monthly row is the sum of its thirty daily rows, refunds included. */
  lemma {:induction false} MonthIsThirtyDays(day: int, charges: seq<Charge>, fp: Fingerprint, start: int)
    requires day > 0 && start % (30 * day) == 0
    ensures RowTokens(Rows(day, charges), fp, Monthly, start) == DayRows(Rows(day, charges), day, fp, start, 30)
  {
    var k := start / (30 * day);
    assert start == day * (30 * k);
    assert start % day == 0 by { MultipleIsAligned(day, 30 * k); }
    if charges == [] {
      NoRows(day, fp, start, 30);
    } else {
      var before, last := charges[..|charges| - 1], charges[|charges| - 1];
      MonthIsThirtyDays(day, before, fp, start);
      RowAfterCharge(Rows(day, before), day, last, fp, Monthly, start);
      DayRowsAfterCharge(Rows(day, before), day, last, fp, start, 30);
      InDay(last.now, 30 * day, start, 0);
    }
  }

  lemma MultipleIsAligned(w: int, k: int)
    requires w > 0
    ensures (w * k) % w == 0
  {
    var q, r := (w * k) / w, (w * k) % w;
    assert w * k == w * q + r;
    if q < k {
      MultipleBelow(q, k, w);
    } else if k < q {
      MultipleBelow(k, q, w);
    }
  }

  lemma {:induction false} NoRows(day: int, fp: Fingerprint, start: int, days: nat)
    ensures DayRows([], day, fp, start, days) == 0
  {
    if days > 0 {
      NoRows(day, fp, start, days - 1);
    }
  }

  // ----- Serialised requests ----------------------------------------------------------------------

  /** A request that is checked and, when allowed, recorded before the next one is checked. */
  datatype Request = Request(fp: Fingerprint, pool: Option<string>, checkedAt: int, checked: int, recordedAt: int, recorded: int)

  function Served(c: Config, day: int, requests: seq<Request>): seq<Charge>
    requires day > 0
  {
    if requests == [] then []
    else
      var before := Served(c, day, requests[..|requests| - 1]);
      var r := requests[|requests| - 1];
      if Decide(c, Rows(day, before), day, r.fp, r.pool, r.checked, r.checkedAt) == Allowed && r.recorded > 0
      then before + [Charge(r.recordedAt, r.fp, r.pool, r.recorded)]
      else before
  }

  ghost predicate Serialised(requests: seq<Request>) {
    && (forall i :: 0 <= i < |requests| ==>
          requests[i].checkedAt <= requests[i].recordedAt && requests[i].recorded <= requests[i].checked)
    && (forall i, j :: 0 <= i < j < |requests| ==> requests[i].recordedAt <= requests[j].checkedAt)
  }

  /** A cap that applies to a period of a key. */
  ghost predicate CapApplies(c: Config, fp: Fingerprint, period: Period, cap: int) {
    match period
    case Daily => c.globalDaily == Some(cap) || (fp in c.caps && c.caps[fp].daily == Some(cap))
    case Monthly => fp in c.caps && c.caps[fp].monthly == Some(cap)
    case PerPool(name) => fp in c.caps && name in c.caps[fp].perPool && c.caps[fp].perPool[name] == cap
  }

  function Positive(n: int): int { if n < 0 then 0 else n }

  lemma AllowedIsUnderEveryCap(c: Config, rows: seq<UsageRow>, day: int, r: Request, fp: Fingerprint, period: Period, cap: int)
    requires Decide(c, rows, day, r.fp, r.pool, r.checked, r.checkedAt) == Allowed && r.checked > 0
    requires CapApplies(c, fp, period, cap) && CountsFor(Charge(r.recordedAt, r.fp, r.pool, r.recorded), fp, period)
    ensures Used(rows, day, fp, period, r.checkedAt) + r.checked <= cap
  {
  }

  lemma {:induction false} ServedFacts(c: Config, day: int, requests: seq<Request>, now: int)
    requires day > 0
    requires forall i :: 0 <= i < |requests| ==> requests[i].recordedAt <= now
    ensures AllBy(Served(c, day, requests), now)
  {
    hide Decide, Rows;
    if requests != [] {
      ServedFacts(c, day, requests[..|requests| - 1], now);
    }
  }

  lemma {:induction false} ServedAreNoRefunds(c: Config, day: int, requests: seq<Request>)
    requires day > 0
    ensures NoRefunds(Served(c, day, requests))
  {
    hide Decide, Rows;
    if requests != [] {
      ServedAreNoRefunds(c, day, requests[..|requests| - 1]);
    }
  }

  lemma {:induction false} NetIsMonotone(charges: seq<Charge>, fp: Fingerprint, period: Period, from: int, to: int, from': int, to': int)
    requires NoRefunds(charges) && from' <= from && to <= to'
    ensures 0 <= NetIn(charges, fp, period, from, to) <= NetIn(charges, fp, period, from', to')
  {
    if charges != [] {
      NetIsMonotone(charges[..|charges| - 1], fp, period, from, to, from', to');
    }
  }

  lemma {:induction false} NetSplits(charges: seq<Charge>, fp: Fingerprint, period: Period, from: int, mid: int, to: int)
    requires from <= mid <= to
    ensures NetIn(charges, fp, period, from, to)
         == NetIn(charges, fp, period, from, mid) + NetIn(charges, fp, period, mid, to)
  {
    if charges != [] {
      NetSplits(charges[..|charges| - 1], fp, period, from, mid, to);
    }
  }

  lemma {:induction false} NothingYet(charges: seq<Charge>, fp: Fingerprint, period: Period, from: int, to: int)
    requires forall i :: 0 <= i < |charges| ==> charges[i].now < from
    ensures NetIn(charges, fp, period, from, to) == 0
  {
    if charges != [] {
      NothingYet(charges[..|charges| - 1], fp, period, from, to);
    }
  }

  lemma NetSnoc(charges: seq<Charge>, c: Charge, fp: Fingerprint, period: Period, from: int, to: int)
    ensures NetIn(charges + [c], fp, period, from, to)
         == NetIn(charges, fp, period, from, to) + if CountsFor(c, fp, period) && from <= c.now < to then c.tokens else 0
  {
    assert (charges + [c])[..|charges|] == charges;
  }

  /** What the check saw covers the window the record falls in. */
  lemma CheckCoversWindow(day: int, charges: seq<Charge>, fp: Fingerprint, period: Period, now: int, start: int)
    requires day > 0 && AllBy(charges, now) && NoRefunds(charges)
    requires start % Window(day, period) == 0 && now < start + Window(day, period)
    ensures NetIn(charges, fp, period, start, start + Window(day, period)) <= Used(Rows(day, charges), day, fp, period, now)
  {
    hide Rows, Used;
    var w := Window(day, period);
    var bucket := BucketStart(now, w);
    SumIsAlignedWindow(day, charges, fp, period, now);
    if now < start {
      NothingYet(charges, fp, period, start, start + w);
      NetIsMonotone(charges, fp, period, bucket, bucket + w, bucket, bucket + w);
    } else {
      InDay(now, w, start, 0);
    }
  }

  /** An aligned window carries at most the cap. */
  lemma {:induction false} AlignedWindowUnderCap(c: Config, day: int, requests: seq<Request>, fp: Fingerprint, period: Period,
                                                cap: int, start: int)
    requires day > 0 && Serialised(requests) && CapApplies(c, fp, period, cap) && start % Window(day, period) == 0
    ensures NetIn(Served(c, day, requests), fp, period, start, start + Window(day, period)) <= Positive(cap)
  {
    hide Decide, Rows, Used, NetIn, CapApplies;
    var w := Window(day, period);
    if requests == [] {
      NothingYet([], fp, period, start, start + w);
    } else {
      var n := |requests| - 1;
      var earlier, r := requests[..n], requests[n];
      var before := Served(c, day, earlier);
      AlignedWindowUnderCap(c, day, earlier, fp, period, cap, start);
      var charge := Charge(r.recordedAt, r.fp, r.pool, r.recorded);
      NetSnoc(before, charge, fp, period, start, start + w);
      if Decide(c, Rows(day, before), day, r.fp, r.pool, r.checked, r.checkedAt) == Allowed && r.recorded > 0
         && CountsFor(charge, fp, period) && start <= r.recordedAt < start + w {
        ServedFacts(c, day, earlier, r.checkedAt);
        ServedAreNoRefunds(c, day, earlier);
        AllowedIsUnderEveryCap(c, Rows(day, before), day, r, fp, period, cap);
        CheckCoversWindow(day, before, fp, period, r.checkedAt, start);
      }
    }
  }

  /** Any interval as long as the window carries at most twice the cap. */
  lemma IntervalUnderTwiceCap(c: Config, day: int, requests: seq<Request>, fp: Fingerprint, period: Period, cap: int, from: int)
    requires day > 0 && Serialised(requests) && CapApplies(c, fp, period, cap)
    ensures NetIn(Served(c, day, requests), fp, period, from, from + Window(day, period)) <= 2 * Positive(cap)
  {
    hide Served, NetIn, CapApplies;
    var w := Window(day, period);
    var charges := Served(c, day, requests);
    var start := BucketStart(from, w);
    BucketBounds(from, w);
    MultipleIsAligned(w, from / w);
    MultipleIsAligned(w, from / w + 1);
    assert w * (from / w + 1) == start + w;
    AlignedWindowUnderCap(c, day, requests, fp, period, cap, start);
    AlignedWindowUnderCap(c, day, requests, fp, period, cap, start + w);
    ServedAreNoRefunds(c, day, requests);
    NetIsMonotone(charges, fp, period, from, from + w, start, start + w + w);
    NetSplits(charges, fp, period, start, start + w, start + w + w);
  }

  /** The documentation calls the windows rolling.  A cap bounds an interval in every run exactly when
      the interval starts on a multiple of its window, a day for a daily or pool cap and thirty days
      for a monthly one; for every other start there is a run that puts twice the cap into it. */
  lemma CapBoundsIntervalIffAligned(day: int, fp: Fingerprint, period: Period, cap: int, from: int)
    requires day > 0 && cap > 0 && (period.PerPool? ==> period.name != "")
    ensures (forall requests :: Serialised(requests) ==>
               NetIn(Served(OneCap(fp, period, cap), day, requests), fp, period, from, from + Window(day, period)) <= cap)
            <==> from % Window(day, period) == 0
  {
    if from % Window(day, period) == 0 {
      forall requests | Serialised(requests)
        ensures NetIn(Served(OneCap(fp, period, cap), day, requests), fp, period, from, from + Window(day, period)) <= cap
      {
        AlignedWindowUnderCap(OneCap(fp, period, cap), day, requests, fp, period, cap, from);
      }
    } else {
      TwiceTheCap(day, fp, period, cap, from);
    }
  }

  function OneCap(fp: Fingerprint, period: Period, cap: int): Config {
    match period
    case Daily => Config(map[fp := Caps(Some(cap), None, map[])], None)
    case Monthly => Config(map[fp := Caps(None, Some(cap), map[])], None)
    case PerPool(name) => Config(map[fp := Caps(None, None, map[name := cap])], None)
  }

  function PoolOf(period: Period): Option<string> {
    if period.PerPool? then Some(period.name) else None
  }

  function FullRequest(fp: Fingerprint, period: Period, cap: int, now: int): Request {
    Request(fp, PoolOf(period), now, cap, now, cap)
  }

  /** A request of the full cap is let through when nothing was used. */
  lemma FullRequestIsServed(c: Config, day: int, earlier: seq<Request>, fp: Fingerprint, period: Period, cap: int, now: int)
    requires day > 0 && cap > 0 && c == OneCap(fp, period, cap) && (period.PerPool? ==> period.name != "")
    requires Used(Rows(day, Served(c, day, earlier)), day, fp, period, now) == 0
    ensures Served(c, day, earlier + [FullRequest(fp, period, cap, now)])
         == Served(c, day, earlier) + [Charge(now, fp, PoolOf(period), cap)]
  {
    hide Rows, Used;
    var requests := earlier + [FullRequest(fp, period, cap, now)];
    assert requests[..|requests| - 1] == earlier;
  }

  lemma NextMultiple(from: int, w: int)
    requires w > 0 && from % w != 0
    ensures var next := BucketStart(from, w) + w; next % w == 0 && BucketStart(next, w) == next && from < next < from + w
  {
    BucketBounds(from, w);
    MultipleIsAligned(w, from / w + 1);
  }

  /** What was charged before a multiple of the window is not seen after it. */
  lemma ForgottenAtMultiple(day: int, charge: Charge, fp: Fingerprint, period: Period, next: int)
    requires day > 0 && charge.now < next && BucketStart(next, Window(day, period)) == next
    ensures Used(Rows(day, [charge]), day, fp, period, next) == 0
  {
    hide Rows, Used, NetIn, BucketStart;
    SumIsAlignedWindow(day, [charge], fp, period, next);
    NothingYet([charge], fp, period, next, next + Window(day, period));
  }

  /** One full cap at the start of the interval, another one right after the next multiple. */
  lemma TwiceTheCap(day: int, fp: Fingerprint, period: Period, cap: int, from: int)
    requires day > 0 && cap > 0 && from % Window(day, period) != 0 && (period.PerPool? ==> period.name != "")
    ensures var w := Window(day, period);
            var requests := [FullRequest(fp, period, cap, from), FullRequest(fp, period, cap, BucketStart(from, w) + w)];
            && Serialised(requests)
            && NetIn(Served(OneCap(fp, period, cap), day, requests), fp, period, from, from + w) == 2 * cap
  {
    hide Rows, Used, Served, NetIn, BucketStart, Window, OneCap;
    var w := Window(day, period);
    assert w > 0 by { WindowIsPositive(day, period); }
    var c, next := OneCap(fp, period, cap), BucketStart(from, w) + w;
    NextMultiple(from, w);
    var first, second := FullRequest(fp, period, cap, from), FullRequest(fp, period, cap, next);
    var a, b := Charge(from, fp, PoolOf(period), cap), Charge(next, fp, PoolOf(period), cap);
    NothingServedYet(c, day, fp, period, from);
    FullRequestIsServed(c, day, [], fp, period, cap, from);
    assert [] + [first] == [first] && Served(c, day, []) + [a] == [a];
    ForgottenAtMultiple(day, a, fp, period, next);
    FullRequestIsServed(c, day, [first], fp, period, cap, next);
    assert [first] + [second] == [first, second];
    NothingNet(fp, period, from, from + w);
    NetSnoc([], a, fp, period, from, from + w);
    NetSnoc([a], b, fp, period, from, from + w);
    assert [] + [a] == [a];
  }

  lemma WindowIsPositive(day: int, period: Period)
    requires day > 0
    ensures Window(day, period) > 0
  {
  }

  lemma NothingServedYet(c: Config, day: int, fp: Fingerprint, period: Period, now: int)
    requires day > 0
    ensures Served(c, day, []) == [] && Used(Rows(day, []), day, fp, period, now) == 0
  {
  }

  lemma NothingNet(fp: Fingerprint, period: Period, from: int, to: int)
    ensures NetIn([], fp, period, from, to) == 0
  {
  }

  // ----- Requests in flight --------------------------------------------------------------------

  /** The checks and records of one key, freely interleaved, each for a pool of its own.  A request that
      fails before it is recorded is dropped. */
  datatype Action =
    | CheckTokens(pool: Option<string>, now: int, tokens: int)
    | RecordTokens(pool: Option<string>, now: int, tokens: int)
    | Drop(pool: Option<string>, now: int)

  /** `inFlight` holds the pool of every request that was let through and is neither recorded nor dropped. */
  datatype World = World(charges: seq<Charge>, clock: int, inFlight: multiset<Option<string>>)

  function Next(c: Config, day: int, fp: Fingerprint, s: World, a: Action): World
    requires day > 0
  {
    match a
    case CheckTokens(pool, now, tokens) =>
      if tokens > 0 && Decide(c, Rows(day, s.charges), day, fp, pool, tokens, now) == Allowed
      then World(s.charges, now, s.inFlight + multiset{pool}) else s.(clock := now)
    case RecordTokens(pool, now, tokens) =>
      if pool !in s.inFlight || tokens <= 0 then s.(clock := now)
      else World(s.charges + [Charge(now, fp, pool, tokens)], now, s.inFlight - multiset{pool})
    case Drop(pool, now) => World(s.charges, now, s.inFlight - multiset{pool})
  }

  function Reach(c: Config, day: int, fp: Fingerprint, clock: int, run: seq<Action>): World
    requires day > 0
  {
    if run == [] then World([], clock, multiset{})
    else Next(c, day, fp, Reach(c, day, fp, clock, run[..|run| - 1]), run[|run| - 1])
  }

  /** The requests in flight that will be charged to a period: all of them, or those of one pool. */
  function Pending(inFlight: multiset<Option<string>>, period: Period): nat {
    if period.PerPool? then inFlight[Some(period.name)] else |inFlight|
  }

  /** One step of a run whose clock does not go back, whose records do not exceed R tokens and
      which never has more than k requests in flight for the period. */
  ghost predicate LimitedStep(s: World, a: Action, t: World, period: Period, k: nat, R: nat) {
    a.now >= s.clock && Pending(t.inFlight, period) <= k && (a.RecordTokens? ==> a.tokens <= R)
  }

  ghost predicate LimitedAt(c: Config, day: int, fp: Fingerprint, clock: int, run: seq<Action>, i: nat, period: Period, k: nat, R: nat)
    requires day > 0 && i < |run|
  {
    LimitedStep(Reach(c, day, fp, clock, run[..i]), run[i], Reach(c, day, fp, clock, run[..i + 1]), period, k, R)
  }

  ghost predicate Limited(c: Config, day: int, fp: Fingerprint, clock: int, run: seq<Action>, period: Period, k: nat, R: nat)
    requires day > 0
  {
    forall i :: 0 <= i < |run| ==> LimitedAt(c, day, fp, clock, run, i, period, k, R)
  }

  lemma LimitedPrefix(c: Config, day: int, fp: Fingerprint, clock: int, run: seq<Action>, period: Period, k: nat, R: nat)
    requires day > 0 && run != [] && Limited(c, day, fp, clock, run, period, k, R)
    ensures var n := |run| - 1;
            && Limited(c, day, fp, clock, run[..n], period, k, R)
            && LimitedStep(Reach(c, day, fp, clock, run[..n]), run[n], Reach(c, day, fp, clock, run), period, k, R)
  {
    hide Reach;
    var n, before := |run| - 1, run[..|run| - 1];
    forall i | 0 <= i < n ensures LimitedAt(c, day, fp, clock, before, i, period, k, R) {
      assert LimitedAt(c, day, fp, clock, run, i, period, k, R);
      assert before[..i] == run[..i] && before[..i + 1] == run[..i + 1];
    }
    assert LimitedAt(c, day, fp, clock, run, n, period, k, R);
    assert run[..n + 1] == run;
  }

  /** The overshoot budget: a window that is still open keeps R tokens in reserve for each request
      in flight. */
  ghost predicate Reserved(day: int, fp: Fingerprint, period: Period, s: World, cap: int, k: nat, R: nat, start: int)
    requires day > 0
  {
    var w := Window(day, period);
    var carried := NetIn(s.charges, fp, period, start, start + w);
    var pending := Pending(s.inFlight, period);
    && AllBy(s.charges, s.clock) && NoRefunds(s.charges) && pending <= k
    && carried <= Positive(cap - 1) + k * R
    && (s.clock < start + w ==> carried + pending * R <= Positive(cap - 1) + k * R)
  }

  /** With at most k requests of at most R tokens in flight between check and record, an aligned
      window carries less than cap + k * R: k counts the requests of all pools for a daily or monthly
      cap, and those of the one pool for a pool cap. */
  lemma {:induction false} InFlightOvershoot(c: Config, day: int, fp: Fingerprint, clock: int,
                                            run: seq<Action>, period: Period, cap: int, k: nat, R: nat, start: int)
    requires day > 0 && CapApplies(c, fp, period, cap) && start % Window(day, period) == 0
    requires period.PerPool? ==> period.name != ""
    requires Limited(c, day, fp, clock, run, period, k, R)
    ensures Reserved(day, fp, period, Reach(c, day, fp, clock, run), cap, k, R, start)
    ensures NetIn(Reach(c, day, fp, clock, run).charges, fp, period, start, start + Window(day, period))
         <= Positive(cap - 1) + k * R
  {
    hide Next, CapApplies, Limited, LimitedStep;
    if run == [] {
      ScaledBound(0, k, R);
    } else {
      var n := |run| - 1;
      LimitedPrefix(c, day, fp, clock, run, period, k, R);
      InFlightOvershoot(c, day, fp, clock, run[..n], period, cap, k, R, start);
      ReservedStep(c, day, fp, Reach(c, day, fp, clock, run[..n]), run[n], period, cap, k, R, start);
    }
  }

  /** A request counts for a period exactly when it is one of those pending for it. */
  lemma PendingStep(inFlight: multiset<Option<string>>, pool: Option<string>, fp: Fingerprint, now: int, tokens: int, period: Period)
    requires period.PerPool? ==> period.name != ""
    ensures Pending(inFlight + multiset{pool}, period)
         == Pending(inFlight, period) + if CountsFor(Charge(now, fp, pool, tokens), fp, period) then 1 else 0
    ensures pool in inFlight ==>
              Pending(inFlight, period)
              == Pending(inFlight - multiset{pool}, period) + if CountsFor(Charge(now, fp, pool, tokens), fp, period) then 1 else 0
  {
  }

  lemma ReservedStep(c: Config, day: int, fp: Fingerprint, s: World, a: Action,
                     period: Period, cap: int, k: nat, R: nat, start: int)
    requires day > 0 && CapApplies(c, fp, period, cap) && start % Window(day, period) == 0
    requires period.PerPool? ==> period.name != ""
    requires Reserved(day, fp, period, s, cap, k, R, start)
    requires LimitedStep(s, a, Next(c, day, fp, s, a), period, k, R)
    ensures Reserved(day, fp, period, Next(c, day, fp, s, a), cap, k, R, start)
  {
    hide Reserved, Next, CapApplies;
    match a
    case CheckTokens(_, _, _) => ReservedCheck(c, day, fp, s, a, period, cap, k, R, start);
    case RecordTokens(_, _, _) => ReservedRecord(c, day, fp, s, a, period, cap, k, R, start);
    case Drop(pool, now) => ReservedDrop(c, day, fp, s, pool, now, period, cap, k, R, start);
  }

  lemma ReservedCheck(c: Config, day: int, fp: Fingerprint, s: World, a: Action,
                      period: Period, cap: int, k: nat, R: nat, start: int)
    requires day > 0 && CapApplies(c, fp, period, cap) && start % Window(day, period) == 0
    requires period.PerPool? ==> period.name != ""
    requires Reserved(day, fp, period, s, cap, k, R, start)
    requires LimitedStep(s, a, Next(c, day, fp, s, a), period, k, R)
    requires a.CheckTokens?
    ensures Reserved(day, fp, period, Next(c, day, fp, s, a), cap, k, R, start)
  {
    hide Decide, Rows, Used, NetIn, CapApplies, Window, Pending, CountsFor;
    var t, w := Next(c, day, fp, s, a), Window(day, period);
    PendingStep(s.inFlight, a.pool, fp, a.now, a.tokens, period);
    AllByLater(s.charges, s.clock, a.now);
    if Pending(t.inFlight, period) != Pending(s.inFlight, period) && a.now < start + w {
      ScaledBound(Pending(t.inFlight, period), k, R);
      AllowedIsUnderEveryCap(c, Rows(day, s.charges), day, Request(fp, a.pool, a.now, a.tokens, a.now, a.tokens), fp, period, cap);
      CheckCoversWindow(day, s.charges, fp, period, a.now, start);
    }
  }

  lemma ReservedRecord(c: Config, day: int, fp: Fingerprint, s: World, a: Action,
                       period: Period, cap: int, k: nat, R: nat, start: int)
    requires day > 0 && CapApplies(c, fp, period, cap) && start % Window(day, period) == 0
    requires period.PerPool? ==> period.name != ""
    requires Reserved(day, fp, period, s, cap, k, R, start)
    requires LimitedStep(s, a, Next(c, day, fp, s, a), period, k, R)
    requires a.RecordTokens?
    ensures Reserved(day, fp, period, Next(c, day, fp, s, a), cap, k, R, start)
  {
    hide Decide, Rows, Used, NetIn, CapApplies, Window, Pending, CountsFor;
    var t, w := Next(c, day, fp, s, a), Window(day, period);
    PendingStep(s.inFlight, a.pool, fp, a.now, a.tokens, period);
    AllByLater(s.charges, s.clock, a.now);
    if t.inFlight != s.inFlight {
      NetSnoc(s.charges, Charge(a.now, fp, a.pool, a.tokens), fp, period, start, start + w);
      var left := Pending(t.inFlight, period);
      OneMore(left, R);
      ScaledBound(0, left, R);
    }
  }

  lemma ReservedDrop(c: Config, day: int, fp: Fingerprint, s: World, pool: Option<string>, now: int,
                     period: Period, cap: int, k: nat, R: nat, start: int)
    requires day > 0 && Reserved(day, fp, period, s, cap, k, R, start) && now >= s.clock
    ensures Reserved(day, fp, period, Next(c, day, fp, s, Drop(pool, now)), cap, k, R, start)
  {
    hide Decide, Rows, Used, NetIn, Window;
    var left := Pending(s.inFlight - multiset{pool}, period);
    AllByLater(s.charges, s.clock, now);
    assert left <= Pending(s.inFlight, period);
    ScaledBound(left, Pending(s.inFlight, period), R);
  }

  lemma OneMore(n: nat, R: nat)
    ensures (n + 1) * R == n * R + R
  {
  }

  // ----- The overshoot is reached -------------------------------------------------------------

  /** Checks and records at one moment: `filled` requests of one token, one after the other, then k
      checks of one token each, then k records of R tokens each. */
  function Fill(period: Period, now: int, filled: nat): seq<Action> {
    if filled == 0 then []
    else Fill(period, now, filled - 1) + [CheckTokens(PoolOf(period), now, 1)] + [RecordTokens(PoolOf(period), now, 1)]
  }

  function Burst(period: Period, now: int, filled: nat, checks: nat, R: nat, records: nat): seq<Action> {
    if records > 0 then Burst(period, now, filled, checks, R, records - 1) + [RecordTokens(PoolOf(period), now, R)]
    else if checks > 0 then Burst(period, now, filled, checks - 1, R, 0) + [CheckTokens(PoolOf(period), now, 1)]
    else Fill(period, now, filled)
  }

  /** All charges were made at one moment and come to this many tokens, and so many requests are out. */
  ghost predicate Stands(s: World, fp: Fingerprint, period: Period, now: int, tokens: int, out: nat) {
    && s.clock == now && s.inFlight == multiset{}[PoolOf(period) := out]
    && (forall i :: 0 <= i < |s.charges| ==> s.charges[i].now == now)
    && forall from, to :: from <= now < to ==> NetIn(s.charges, fp, period, from, to) == tokens
  }

  lemma UsedAtOnce(day: int, s: World, fp: Fingerprint, period: Period, now: int, tokens: int, out: nat)
    requires day > 0 && Stands(s, fp, period, now, tokens, out)
    ensures Used(Rows(day, s.charges), day, fp, period, now) == tokens
  {
    hide Rows, Used, NetIn;
    BucketBounds(now, Window(day, period));
    SumIsAlignedWindow(day, s.charges, fp, period, now);
  }

  lemma OneCapAllows(rows: seq<UsageRow>, day: int, fp: Fingerprint, period: Period, cap: int, now: int)
    requires period.PerPool? ==> period.name != ""
    ensures Decide(OneCap(fp, period, cap), rows, day, fp, PoolOf(period), 1, now) == Allowed
            <==> Used(rows, day, fp, period, now) + 1 <= cap
  {
    hide Used;
  }

  lemma CheckStands(day: int, s: World, fp: Fingerprint, period: Period, cap: int, now: int, tokens: int, out: nat)
    requires day > 0 && Stands(s, fp, period, now, tokens, out) && tokens < cap && (period.PerPool? ==> period.name != "")
    ensures Stands(Next(OneCap(fp, period, cap), day, fp, s, CheckTokens(PoolOf(period), now, 1)), fp, period, now, tokens, out + 1)
  {
    hide Decide, Rows, Used, NetIn, OneCap;
    UsedAtOnce(day, s, fp, period, now, tokens, out);
    OneCapAllows(Rows(day, s.charges), day, fp, period, cap, now);
  }

  lemma RecordStands(c: Config, day: int, s: World, fp: Fingerprint, period: Period, now: int, tokens: int, out: nat, more: int)
    requires day > 0 && Stands(s, fp, period, now, tokens, out) && out > 0 && more > 0
    requires period.PerPool? ==> period.name != ""
    ensures Stands(Next(c, day, fp, s, RecordTokens(PoolOf(period), now, more)), fp, period, now, tokens + more, out - 1)
  {
    hide Decide, Rows, Used, NetIn;
    forall from, to | from <= now < to
      ensures NetIn(s.charges + [Charge(now, fp, PoolOf(period), more)], fp, period, from, to) == tokens + more
    {
      NetSnoc(s.charges, Charge(now, fp, PoolOf(period), more), fp, period, from, to);
    }
  }

  lemma ActionSnoc(c: Config, day: int, fp: Fingerprint, clock: int, run: seq<Action>, a: Action)
    requires day > 0
    ensures Reach(c, day, fp, clock, run + [a]) == Next(c, day, fp, Reach(c, day, fp, clock, run), a)
  {
    assert (run + [a])[..|run|] == run;
  }

  lemma NothingStands(c: Config, day: int, fp: Fingerprint, period: Period, now: int)
    requires day > 0
    ensures Stands(Reach(c, day, fp, now, []), fp, period, now, 0, 0)
  {
  }

  lemma {:induction false} FillStands(day: int, fp: Fingerprint, period: Period, cap: int, now: int, filled: nat)
    requires day > 0 && filled < cap && (period.PerPool? ==> period.name != "")
    ensures Stands(Reach(OneCap(fp, period, cap), day, fp, now, Fill(period, now, filled)), fp, period, now, filled, 0)
  {
    hide Stands, Next, Reach, OneCap;
    var c := OneCap(fp, period, cap);
    if filled == 0 {
      NothingStands(c, day, fp, period, now);
    } else {
      var before := Fill(period, now, filled - 1);
      FillStands(day, fp, period, cap, now, filled - 1);
      CheckStands(day, Reach(c, day, fp, now, before), fp, period, cap, now, filled - 1, 0);
      ActionSnoc(c, day, fp, now, before, CheckTokens(PoolOf(period), now, 1));
      var checked := before + [CheckTokens(PoolOf(period), now, 1)];
      RecordStands(c, day, Reach(c, day, fp, now, checked), fp, period, now, filled - 1, 1, 1);
      ActionSnoc(c, day, fp, now, checked, RecordTokens(PoolOf(period), now, 1));
    }
  }

  lemma {:induction false} BurstStands(day: int, fp: Fingerprint, period: Period, cap: int, now: int,
                                       filled: nat, checks: nat, R: nat, records: nat)
    requires day > 0 && filled < cap && records <= checks && R > 0 && (period.PerPool? ==> period.name != "")
    ensures Stands(Reach(OneCap(fp, period, cap), day, fp, now, Burst(period, now, filled, checks, R, records)),
                   fp, period, now, filled + records * R, checks - records)
    decreases records, checks
  {
    hide Stands, Next, Reach, OneCap;
    var c := OneCap(fp, period, cap);
    if records > 0 {
      var before := Burst(period, now, filled, checks, R, records - 1);
      BurstStands(day, fp, period, cap, now, filled, checks, R, records - 1);
      RecordStands(c, day, Reach(c, day, fp, now, before), fp, period, now,
                   filled + (records - 1) * R, checks - (records - 1), R);
      ActionSnoc(c, day, fp, now, before, RecordTokens(PoolOf(period), now, R));
      OneMore(records - 1, R);
    } else if checks > 0 {
      var before := Burst(period, now, filled, checks - 1, R, 0);
      BurstStands(day, fp, period, cap, now, filled, checks - 1, R, 0);
      CheckStands(day, Reach(c, day, fp, now, before), fp, period, cap, now, filled, checks - 1);
      ActionSnoc(c, day, fp, now, before, CheckTokens(PoolOf(period), now, 1));
    } else {
      FillStands(day, fp, period, cap, now, filled);
    }
  }

  /** Every run of this kind keeps to k requests in flight. */
  lemma {:induction false} FillIsLimited(day: int, fp: Fingerprint, period: Period, cap: int, now: int, filled: nat, k: nat, R: nat)
    requires day > 0 && filled < cap && k > 0 && R > 0 && (period.PerPool? ==> period.name != "")
    ensures Limited(OneCap(fp, period, cap), day, fp, now, Fill(period, now, filled), period, k, R)
  {
    hide Next, Reach, OneCap, LimitedAt;
    var c := OneCap(fp, period, cap);
    if filled > 0 {
      var before := Fill(period, now, filled - 1);
      var check, record := CheckTokens(PoolOf(period), now, 1), RecordTokens(PoolOf(period), now, 1);
      FillIsLimited(day, fp, period, cap, now, filled - 1, k, R);
      FillStands(day, fp, period, cap, now, filled - 1);
      CheckStands(day, Reach(c, day, fp, now, before), fp, period, cap, now, filled - 1, 0);
      LimitedSnoc(c, day, fp, now, before, check, period, now, filled - 1, 1, k, R);
      ActionSnoc(c, day, fp, now, before, check);
      FillStands(day, fp, period, cap, now, filled);
      ActionSnoc(c, day, fp, now, before + [check], record);
      LimitedSnoc(c, day, fp, now, before + [check], record, period, now, filled, 0, k, R);
    }
  }

  /** One action more keeps a run limited when the state it leads to has no more than k out. */
  lemma LimitedSnoc(c: Config, day: int, fp: Fingerprint, clock: int, run: seq<Action>, a: Action, period: Period,
                    now: int, tokens: int, out: nat, k: nat, R: nat)
    requires day > 0 && Limited(c, day, fp, clock, run, period, k, R)
    requires Reach(c, day, fp, clock, run).clock == now == a.now && (a.RecordTokens? ==> a.tokens <= R)
    requires Stands(Next(c, day, fp, Reach(c, day, fp, clock, run), a), fp, period, now, tokens, out) && out <= k
    ensures Limited(c, day, fp, clock, run + [a], period, k, R)
  {
    hide Next, Reach, NetIn;
    var longer := run + [a];
    ActionSnoc(c, day, fp, clock, run, a);
    forall i | 0 <= i < |longer| ensures LimitedAt(c, day, fp, clock, longer, i, period, k, R) {
      if i < |run| {
        assert LimitedAt(c, day, fp, clock, run, i, period, k, R);
        assert longer[..i] == run[..i] && longer[..i + 1] == run[..i + 1];
      } else {
        assert longer[..i] == run && longer[..i + 1] == longer;
        OutIsPending(Reach(c, day, fp, clock, longer).inFlight, period, out);
      }
    }
  }

  lemma OutIsPending(inFlight: multiset<Option<string>>, period: Period, out: nat)
    requires inFlight == multiset{}[PoolOf(period) := out]
    ensures Pending(inFlight, period) == out
  {
  }

  lemma {:induction false} BurstIsLimited(day: int, fp: Fingerprint, period: Period, cap: int, now: int,
                                          filled: nat, checks: nat, R: nat, records: nat, k: nat)
    requires day > 0 && filled < cap && records <= checks <= k && k > 0 && R > 0 && (period.PerPool? ==> period.name != "")
    ensures Limited(OneCap(fp, period, cap), day, fp, now, Burst(period, now, filled, checks, R, records), period, k, R)
    decreases records, checks
  {
    hide Next, Reach, OneCap, LimitedAt, Limited;
    var c := OneCap(fp, period, cap);
    BurstStands(day, fp, period, cap, now, filled, checks, R, records);
    if records > 0 {
      var before := Burst(period, now, filled, checks, R, records - 1);
      BurstIsLimited(day, fp, period, cap, now, filled, checks, R, records - 1, k);
      BurstStands(day, fp, period, cap, now, filled, checks, R, records - 1);
      ActionSnoc(c, day, fp, now, before, RecordTokens(PoolOf(period), now, R));
      LimitedSnoc(c, day, fp, now, before, RecordTokens(PoolOf(period), now, R), period, now,
                  filled + records * R, checks - records, k, R);
    } else if checks > 0 {
      var before := Burst(period, now, filled, checks - 1, R, 0);
      BurstIsLimited(day, fp, period, cap, now, filled, checks - 1, R, 0, k);
      BurstStands(day, fp, period, cap, now, filled, checks - 1, R, 0);
      ActionSnoc(c, day, fp, now, before, CheckTokens(PoolOf(period), now, 1));
      LimitedSnoc(c, day, fp, now, before, CheckTokens(PoolOf(period), now, 1), period, now, filled, checks, k, R);
    } else {
      FillIsLimited(day, fp, period, cap, now, filled, k, R);
    }
  }

  /** The documentation has one transaction wrap the check and the increment.  They are two, and the
      bound of InFlightOvershoot is what that costs, to the token: for every window, cap, k and R some
      run that keeps to them carries exactly that much. */
  lemma OvershootIsReached(day: int, fp: Fingerprint, period: Period, cap: int, k: nat, R: nat, start: int)
    requires day > 0 && cap > 0 && k > 0 && R > 0 && (period.PerPool? ==> period.name != "")
    ensures var c, run := OneCap(fp, period, cap), Burst(period, start, cap - 1, k, R, k);
            && Limited(c, day, fp, start, run, period, k, R)
            && NetIn(Reach(c, day, fp, start, run).charges, fp, period, start, start + Window(day, period))
               == Positive(cap - 1) + k * R
  {
    hide Next, Reach, OneCap, Limited;
    WindowIsPositive(day, period);
    BurstIsLimited(day, fp, period, cap, start, cap - 1, k, R, k, k);
    BurstStands(day, fp, period, cap, start, cap - 1, k, R, k);
  }

  lemma AllByLater(charges: seq<Charge>, now: int, later: int)
    requires AllBy(charges, now) && now <= later
    ensures AllBy(charges, later)
  {
  }

  lemma ScaledBound(a: nat, b: nat, R: nat)
    requires a <= b
    ensures a * R <= b * R
  {
  }
}
