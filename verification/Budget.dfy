/** Token budgets: usage rows in epoch-aligned buckets, read back with a rolling predicate.

    Clock readings are integers in some unit and `day` is the length of a day in that unit. */
module Budget {
  import opened Options

  type Fingerprint = string

  datatype Period = Daily | Monthly | PerPool(name: string)

  datatype UsageRow = UsageRow(fp: Fingerprint, period: Period, start: int, tokens: int)

  datatype Caps = Caps(daily: Option<int>, monthly: Option<int>, perPool: map<string, int>)

  datatype Config = Config(caps: map<Fingerprint, Caps>, globalDaily: Option<int>)

  datatype CapName = GlobalDailyCap | DailyCap | MonthlyCap | PoolCap(name: string)

  datatype Decision = Allowed | Blocked(cap: CapName, used: int, limit: int)

  datatype Stats = Stats(blocksDaily: nat, blocksMonthly: nat, blocksPool: nat, blocksGlobal: nat, records: nat, refunds: nat)

  /** A day or thirty of them. */
  function Window(day: int, period: Period): int {
    if period.Monthly? then 30 * day else day
  }

  /** The largest multiple of the window that is not after `now`. */
  function BucketStart(now: int, window: int): int
    requires window > 0
  {
    now - now % window
  }

  /** Adds tokens to the row of a bucket, inserting it when there is none. */
  function Upsert(rows: seq<UsageRow>, fp: Fingerprint, period: Period, start: int, tokens: int): seq<UsageRow> {
    if rows == [] then [UsageRow(fp, period, start, tokens)]
    else if rows[0].fp == fp && rows[0].period == period && rows[0].start == start then
      [rows[0].(tokens := rows[0].tokens + tokens)] + rows[1..]
    else [rows[0]] + Upsert(rows[1..], fp, period, start, tokens)
  }

  /** The tokens of all rows of a period that start after a given moment. */
  function Sum(rows: seq<UsageRow>, fp: Fingerprint, period: Period, after: int): int {
    if rows == [] then 0
    else
      (if rows[0].fp == fp && rows[0].period == period && rows[0].start > after then rows[0].tokens else 0)
      + Sum(rows[1..], fp, period, after)
  }

  function Used(rows: seq<UsageRow>, day: int, fp: Fingerprint, period: Period, now: int): int {
    Sum(rows, fp, period, now - Window(day, period))
  }

  predicate NamesPool(pool: Option<string>) {
    pool.Some? && pool.value != ""
  }

  function Bump(rows: seq<UsageRow>, day: int, fp: Fingerprint, period: Period, now: int, tokens: int): seq<UsageRow>
    requires day > 0
  {
    Upsert(rows, fp, period, BucketStart(now, Window(day, period)), tokens)
  }

  /** The rows after one charge, or one refund when the tokens are negative. */
  function Charged(rows: seq<UsageRow>, day: int, fp: Fingerprint, pool: Option<string>, now: int, tokens: int): seq<UsageRow>
    requires day > 0
  {
    var both := Bump(Bump(rows, day, fp, Daily, now, tokens), day, fp, Monthly, now, tokens);
    if NamesPool(pool) then Bump(both, day, fp, PerPool(pool.value), now, tokens) else both
  }

  predicate Exceeds(rows: seq<UsageRow>, day: int, fp: Fingerprint, period: Period, now: int, tokens: int, limit: Option<int>) {
    limit.Some? && Used(rows, day, fp, period, now) + tokens > limit.value
  }

  function Decide(c: Config, rows: seq<UsageRow>, day: int, fp: Fingerprint, pool: Option<string>, tokens: int, now: int): Decision {
    if tokens <= 0 then Allowed
    else if Exceeds(rows, day, fp, Daily, now, tokens, c.globalDaily) then
      Blocked(GlobalDailyCap, Used(rows, day, fp, Daily, now), c.globalDaily.value)
    else if fp !in c.caps then Allowed
    else if Exceeds(rows, day, fp, Daily, now, tokens, c.caps[fp].daily) then
      Blocked(DailyCap, Used(rows, day, fp, Daily, now), c.caps[fp].daily.value)
    else if Exceeds(rows, day, fp, Monthly, now, tokens, c.caps[fp].monthly) then
      Blocked(MonthlyCap, Used(rows, day, fp, Monthly, now), c.caps[fp].monthly.value)
    else if NamesPool(pool) && pool.value in c.caps[fp].perPool
            && Used(rows, day, fp, PerPool(pool.value), now) + tokens > c.caps[fp].perPool[pool.value] then
      Blocked(PoolCap(pool.value), Used(rows, day, fp, PerPool(pool.value), now), c.caps[fp].perPool[pool.value])
    else Allowed
  }

  /** Some cap applies to the request, so that a check of it has to read the store. */
  predicate NeedsSum(c: Config, fp: Fingerprint, pool: Option<string>, tokens: int) {
    && tokens > 0
    && (c.globalDaily.Some?
        || (fp in c.caps
            && (c.caps[fp].daily.Some? || c.caps[fp].monthly.Some? || (NamesPool(pool) && pool.value in c.caps[fp].perPool))))
  }

  class BudgetTracker {
    const enabled: bool
    const config: Config
    const day: int
    var rows: seq<UsageRow>
    var stats: Stats

    constructor (enabled: bool, config: Config, day: int)
      requires day > 0
      ensures this.enabled == enabled && this.config == config && this.day == day
      ensures rows == [] && stats == Stats(0, 0, 0, 0, 0, 0)
    {
      this.enabled, this.config, this.day := enabled, config, day;
      rows, stats := [], Stats(0, 0, 0, 0, 0, 0);
    }

    /** Never changes a usage row; a refusal is counted under the cap it names.  Without the store a
        check that needs a sum raises, which None stands for. */
    method Check(fp: Fingerprint, pool: Option<string>, tokens: int, now: int, reachable: bool) returns (d: Option<Decision>)
      modifies this`stats
      ensures d == if enabled && !reachable && NeedsSum(config, fp, pool, tokens) then None
                   else Some(if enabled then Decide(config, rows, day, fp, pool, tokens, now) else Allowed)
      ensures d == None || d == Some(Allowed) ==> stats == old(stats)
      ensures d.Some? && d.value.Blocked? ==>
                match d.value.cap
                case GlobalDailyCap => stats == old(stats).(blocksGlobal := old(stats).blocksGlobal + 1)
                case DailyCap => stats == old(stats).(blocksDaily := old(stats).blocksDaily + 1)
                case MonthlyCap => stats == old(stats).(blocksMonthly := old(stats).blocksMonthly + 1)
                case PoolCap(_) => stats == old(stats).(blocksPool := old(stats).blocksPool + 1)
    {
      if !enabled || tokens <= 0 {
        return Some(Allowed);
      }
      if config.globalDaily.Some? {
        if !reachable {
          return None;
        }
        var used := Sum(rows, fp, Daily, now - day);
        if used + tokens > config.globalDaily.value {
          stats := stats.(blocksGlobal := stats.blocksGlobal + 1);
          return Some(Blocked(GlobalDailyCap, used, config.globalDaily.value));
        }
      }
      if fp !in config.caps {
        return Some(Allowed);
      }
      var caps := config.caps[fp];
      if caps.daily.Some? {
        if !reachable {
          return None;
        }
        var used := Sum(rows, fp, Daily, now - day);
        if used + tokens > caps.daily.value {
          stats := stats.(blocksDaily := stats.blocksDaily + 1);
          return Some(Blocked(DailyCap, used, caps.daily.value));
        }
      }
      if caps.monthly.Some? {
        if !reachable {
          return None;
        }
        var used := Sum(rows, fp, Monthly, now - 30 * day);
        if used + tokens > caps.monthly.value {
          stats := stats.(blocksMonthly := stats.blocksMonthly + 1);
          return Some(Blocked(MonthlyCap, used, caps.monthly.value));
        }
      }
      if NamesPool(pool) && pool.value in caps.perPool {
        if !reachable {
          return None;
        }
        var used := Sum(rows, fp, PerPool(pool.value), now - day);
        if used + tokens > caps.perPool[pool.value] {
          stats := stats.(blocksPool := stats.blocksPool + 1);
          return Some(Blocked(PoolCap(pool.value), used, caps.perPool[pool.value]));
        }
      }
      d := Some(Allowed);
    }

    /** All windows of a charge are written in one transaction.  An unreachable store is passed over
        in silence: the caller cannot tell that nothing was written. */
    method Record(fp: Fingerprint, pool: Option<string>, tokens: int, now: int, reachable: bool)
      requires day > 0
      modifies this
      ensures rows == if enabled && tokens > 0 && reachable then Charged(old(rows), day, fp, pool, now, tokens) else old(rows)
      ensures stats == old(stats).(records := old(stats).records + if enabled && tokens > 0 && reachable then 1 else 0)
    {
      if !enabled || tokens <= 0 || !reachable {
        return;
      }
      rows := Bump(rows, day, fp, Daily, now, tokens);
      rows := Bump(rows, day, fp, Monthly, now, tokens);
      if NamesPool(pool) {
        rows := Bump(rows, day, fp, PerPool(pool.value), now, tokens);
      }
      stats := stats.(records := stats.records + 1);
    }

    method Refund(fp: Fingerprint, pool: Option<string>, tokens: int, now: int, reachable: bool)
      requires day > 0
      modifies this
      ensures rows == if enabled && tokens > 0 && reachable then Charged(old(rows), day, fp, pool, now, -tokens) else old(rows)
      ensures stats == old(stats).(refunds := old(stats).refunds + if enabled && tokens > 0 && reachable then 1 else 0)
    {
      if !enabled || tokens <= 0 || !reachable {
        return;
      }
      rows := Bump(rows, day, fp, Daily, now, -tokens);
      rows := Bump(rows, day, fp, Monthly, now, -tokens);
      if NamesPool(pool) {
        rows := Bump(rows, day, fp, PerPool(pool.value), now, -tokens);
      }
      stats := stats.(refunds := stats.refunds + 1);
    }
  }

  // ----- Which cap refuses -----------------------------------------------------------------------------

  /** The limit a cap sets for a caller and a pool. */
  function LimitOf(c: Config, fp: Fingerprint, pool: Option<string>, cap: CapName): Option<int> {
    match cap
    case GlobalDailyCap => c.globalDaily
    case DailyCap => if fp in c.caps then c.caps[fp].daily else None
    case MonthlyCap => if fp in c.caps then c.caps[fp].monthly else None
    case PoolCap(name) =>
      if fp in c.caps && pool == Some(name) && name != "" && name in c.caps[fp].perPool then Some(c.caps[fp].perPool[name])
      else None
  }

  /** The period a cap is counted over. */
  function PeriodOf(cap: CapName): Period {
    match cap
    case GlobalDailyCap => Daily
    case DailyCap => Daily
    case MonthlyCap => Monthly
    case PoolCap(name) => PerPool(name)
  }

  /** The order in which caps are looked at. */
  function Rank(cap: CapName): nat {
    match cap
    case GlobalDailyCap => 0
    case DailyCap => 1
    case MonthlyCap => 2
    case PoolCap(_) => 3
  }

  /** The request would carry the caller's usage past this cap. */
  predicate Over(c: Config, rows: seq<UsageRow>, day: int, fp: Fingerprint, pool: Option<string>, tokens: int, now: int, cap: CapName) {
    LimitOf(c, fp, pool, cap).Some? && Used(rows, day, fp, PeriodOf(cap), now) + tokens > LimitOf(c, fp, pool, cap).value
  }

  /** A request is let through exactly when it asks for nothing or stays within every cap.  A refusal names
      the first cap it would pass, with the usage and the limit of that cap. */
  lemma RefusedIff(c: Config, rows: seq<UsageRow>, day: int, fp: Fingerprint, pool: Option<string>, tokens: int, now: int)
    ensures var d := Decide(c, rows, day, fp, pool, tokens, now);
            && (d == Allowed <==> tokens <= 0 || forall cap :: !Over(c, rows, day, fp, pool, tokens, now, cap))
            && (d.Blocked? ==>
                  && Over(c, rows, day, fp, pool, tokens, now, d.cap)
                  && d.used == Used(rows, day, fp, PeriodOf(d.cap), now) && LimitOf(c, fp, pool, d.cap) == Some(d.limit)
                  && forall cap :: Over(c, rows, day, fp, pool, tokens, now, cap) ==> Rank(d.cap) <= Rank(cap))
  {
    hide Used;
    var d := Decide(c, rows, day, fp, pool, tokens, now);
    if d == Allowed && tokens > 0 {
      forall cap ensures !Over(c, rows, day, fp, pool, tokens, now, cap) {
        match cap
        case GlobalDailyCap =>
        case DailyCap =>
        case MonthlyCap =>
        case PoolCap(_) =>
      }
    } else if d.Blocked? {
      assert Over(c, rows, day, fp, pool, tokens, now, d.cap);
    }
  }

  /** The store is read exactly when some cap applies. */
  lemma NeedsSumIff(c: Config, fp: Fingerprint, pool: Option<string>, tokens: int)
    ensures NeedsSum(c, fp, pool, tokens) <==> tokens > 0 && exists cap :: LimitOf(c, fp, pool, cap).Some?
  {
    if NeedsSum(c, fp, pool, tokens) {
      assert LimitOf(c, fp, pool, GlobalDailyCap).Some? || LimitOf(c, fp, pool, DailyCap).Some?
          || LimitOf(c, fp, pool, MonthlyCap).Some? || LimitOf(c, fp, pool, PoolCap(pool.value)).Some?;
    }
  }
}
