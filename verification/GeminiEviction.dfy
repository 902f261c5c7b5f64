/** Which signatures the cache gives up first, over every run, and when that is the least recently
    used one. */
module GeminiEviction {
  import opened Options
  import opened GeminiThought
  import opened GeminiRuns

  // ----- Dictionaries by position -----------------------------------------------------------------------

  lemma {:induction false} LiveSplits(a: Dict<Signed>, b: Dict<Signed>, now: int)
    ensures Live(a + b, now) == Live(a, now) + Live(b, now)
  {
    if a == [] {
      assert a + b == b;
    } else {
      assert (a + b)[1..] == a[1..] + b;
      LiveSplits(a[1..], b, now);
    }
  }

  /** The live entries around entry i. */
  lemma LiveAround(d: Dict<Signed>, i: nat, now: int)
    requires i < |d|
    ensures Live(d, now)
         == Live(d[..i], now) + (if d[i].1.expires < now then [] else [d[i]]) + Live(d[i + 1..], now)
  {
    var one: Dict<Signed> := [d[i]];
    assert d == d[..i] + (one + d[i + 1..]);
    LiveSplits(d[..i], one + d[i + 1..], now);
    LiveSplits(one, d[i + 1..], now);
    LiveOfOne(d[i], now);
  }

  lemma LiveOfOne(entry: (string, Signed), now: int)
    ensures Live([entry], now) == if entry.1.expires < now then [] else [entry]
  {
    assert [entry][1..] == [];
  }

  lemma {:induction false} PutAt(d: Dict<Signed>, i: nat, e: Signed)
    requires i < |d| && forall k :: 0 <= k < i ==> d[k].0 != d[i].0
    ensures Put(d, d[i].0, e) == d[..i] + [(d[i].0, e)] + d[i + 1..]
  {
    if i > 0 {
      var rest := d[1..];
      PutAt(rest, i - 1, e);
      assert rest[..i - 1] == d[1..i] && rest[i..] == d[i + 1..];
      assert [d[0]] + d[1..i] == d[..i];
    }
  }

  lemma {:induction false} WithoutAt(d: Dict<Signed>, i: nat)
    requires i < |d| && forall k :: 0 <= k < i ==> d[k].0 != d[i].0
    ensures Without(d, d[i].0) == d[..i] + d[i + 1..]
  {
    if i > 0 {
      var rest := d[1..];
      WithoutAt(rest, i - 1);
      assert rest[..i - 1] == d[1..i] && rest[i..] == d[i + 1..];
      assert [d[0]] + d[1..i] == d[..i];
    }
  }

  lemma {:induction false} WithoutAbsent(d: Dict<Signed>, key: string)
    requires Absent(d, key)
    ensures Without(d, key) == d
  {
    if d != [] {
      WithoutAbsent(d[1..], key);
    }
  }

  // ----- Who survives -----------------------------------------------------------------------------------

  lemma InSuffixIff(d: Dict<Signed>, at: nat, from: nat)
    requires Distinct(d) && at < |d| && from <= |d|
    ensures !Absent(d[from..], d[at].0) <==> from <= at
  {
    if from <= at {
      assert d[from..][at - from] == d[at];
    }
  }

  /** An entry survives an eviction exactly when it is live and fewer than `most` live entries stand
      behind it. */
  lemma SurvivesIff(d: Dict<Signed>, i: nat, now: int, most: nat)
    requires Distinct(d) && i < |d|
    ensures !Absent(Evicted(d, now, most), d[i].0) <==> d[i].1.expires >= now && |Live(d[i + 1..], now)| < most
  {
    hide Live, Absent, Distinct;
    var live, at := Live(d, now), |Live(d[..i], now)|;
    LiveAround(d, i, now);
    LiveFacts(d, now);
    if d[i].1.expires >= now {
      assert live[at] == d[i];
      InSuffixIff(live, at, if |live| <= most then 0 else |live| - most);
      assert live[0..] == live;
    } else {
      DeadIsAbsent(d, i, now, Evicted(d, now, most));
    }
  }

  lemma DeadIsAbsent(d: Dict<Signed>, i: nat, now: int, kept: Dict<Signed>)
    requires Distinct(d) && i < |d| && d[i].1.expires < now
    requires forall e :: e in kept ==> e in d && e.1.expires >= now
    ensures Absent(kept, d[i].0)
  {
    forall k | 0 <= k < |kept| ensures kept[k].0 != d[i].0 {
      assert kept[k] in kept;
    }
  }

  /** The operation since which a key has been in the cache. */
  function Birth(run: seq<Op>, key: string, ttl: int, most: nat): nat {
    if run == [] then 0
    else if Lookup(After(run[..|run| - 1], ttl, most), key).Some? then Birth(run[..|run| - 1], key, ttl, most)
    else |run| - 1
  }

  ghost predicate PresentAt(run: seq<Op>, k: nat, key: string, ttl: int, most: nat) {
    k <= |run| && Lookup(After(run[..k], ttl, most), key).Some?
  }

  /** It stored the key, which was absent before it and has been present ever since. */
  lemma {:induction false} BirthFacts(run: seq<Op>, key: string, ttl: int, most: nat)
    requires Lookup(After(run, ttl, most), key).Some?
    ensures var b := Birth(run, key, ttl, most);
            && b < |run| && run[b].Store? && run[b].id == key && !PresentAt(run, b, key, ttl, most)
            && forall k :: b < k <= |run| ==> PresentAt(run, k, key, ttl, most)
  {
    hide Step;
    var before, n := run[..|run| - 1], |run| - 1;
    assert run[..|run|] == run;
    if Lookup(After(before, ttl, most), key).Some? {
      BirthFacts(before, key, ttl, most);
      forall k | 0 <= k < |run| ensures PresentAt(run, k, key, ttl, most) == PresentAt(before, k, key, ttl, most) {
        assert before[..k] == run[..k];
      }
    } else {
      OnlyStoreAdds(run, key, ttl, most);
    }
  }

  lemma OnlyStoreAdds(run: seq<Op>, key: string, ttl: int, most: nat)
    requires run != [] && Lookup(After(run, ttl, most), key).Some? && Lookup(After(run[..|run| - 1], ttl, most), key).None?
    ensures run[|run| - 1].Store? && run[|run| - 1].id == key
  {
    hide Put, Evicted, Without, Lookup;
    var before := After(run[..|run| - 1], ttl, most);
    NothingOrLastStored(run[..|run| - 1], ttl, most, key);
    match run[|run| - 1]
    case Store(id, signature, now, evictAt) =>
      if id != "" && signature != "" {
        var put := Put(before, id, Signed(signature, now + ttl));
        PutKeepsDistinct(before, id, Signed(signature, now + ttl));
        LookupPut(before, id, Signed(signature, now + ttl), key);
        EvictedFacts(put, evictAt, most);
        LookupInPart(put, Evicted(put, evictAt, most), key);
      }
    case Get(id, now) => LookupWithout(before, id, key);
  }

  /** The entries stand in ascending order of some number their keys have. */
  ghost predicate Ordered(d: Dict<Signed>, rank: string -> nat) {
    forall i, j :: 0 <= i < j < |d| ==> rank(d[i].0) < rank(d[j].0)
  }

  lemma {:induction false} OrderedWithout(d: Dict<Signed>, key: string, rank: string -> nat)
    requires Ordered(d, rank)
    ensures Ordered(Without(d, key), rank) && forall e :: e in Without(d, key) ==> e in d
  {
    if d != [] && d[0].0 != key {
      var rest := Without(d[1..], key);
      OrderedWithout(d[1..], key, rank);
      forall j | 0 <= j < |rest| ensures rank(d[0].0) < rank(rest[j].0) {
        assert rest[j] in d[1..];
      }
    }
  }

  lemma {:induction false} OrderedLive(d: Dict<Signed>, now: int, rank: string -> nat)
    requires Ordered(d, rank)
    ensures Ordered(Live(d, now), rank) && forall e :: e in Live(d, now) ==> e in d
  {
    if d != [] {
      var rest := Live(d[1..], now);
      OrderedLive(d[1..], now, rank);
      forall j | 0 <= j < |rest| ensures rank(d[0].0) < rank(rest[j].0) {
        assert rest[j] in d[1..];
      }
    }
  }

  lemma SameKeysSameOrder(d: Dict<Signed>, r: Dict<Signed>, rank: string -> nat)
    requires Ordered(d, rank) && |r| == |d| && forall k :: 0 <= k < |d| ==> r[k].0 == d[k].0
    ensures Ordered(r, rank)
  {
  }

  lemma OrderedPut(d: Dict<Signed>, key: string, e: Signed, rank: string -> nat)
    requires Ordered(d, rank) && Distinct(d)
    requires Absent(d, key) ==> forall i :: 0 <= i < |d| ==> rank(d[i].0) < rank(key)
    ensures Ordered(Put(d, key, e), rank)
  {
    hide Put;
    if Absent(d, key) {
      PutNewAppends(d, key, e);
    } else {
      hide Ordered;
      var i :| 0 <= i < |d| && d[i].0 == key;
      PutAt(d, i, e);
      SameKeysSameOrder(d, Put(d, key, e), rank);
    }
  }

  /** Every entry keeps the place it got when its key came in, however often it is stored again. */
  lemma {:induction false} OrderedByBirth(run: seq<Op>, ttl: int, most: nat)
    ensures Ordered(After(run, ttl, most), key => Birth(run, key, ttl, most))
  {
    hide Put, Evicted, Without, Distinct;
    if run != [] {
      var before, n := run[..|run| - 1], |run| - 1;
      var d := After(before, ttl, most);
      var rank := key => Birth(run, key, ttl, most);
      OrderedByBirth(before, ttl, most);
      BirthsCarryOver(run, ttl, most);
      match run[n]
      case Store(id, signature, now, evictAt) =>
        if id != "" && signature != "" {
          PutOrderedByBirth(run, ttl, most);
          OrderedEvicted(Put(d, id, Signed(signature, now + ttl)), evictAt, most, rank);
        }
      case Get(id, now) => OrderedWithout(d, id, rank);
    }
  }

  lemma OrderedEvicted(d: Dict<Signed>, now: int, most: nat, rank: string -> nat)
    requires Ordered(d, rank)
    ensures Ordered(Evicted(d, now, most), rank)
  {
    OrderedLive(d, now, rank);
  }

  lemma BirthsCarryOver(run: seq<Op>, ttl: int, most: nat)
    requires run != [] && Ordered(After(run[..|run| - 1], ttl, most), key => Birth(run[..|run| - 1], key, ttl, most))
    ensures Ordered(After(run[..|run| - 1], ttl, most), key => Birth(run, key, ttl, most))
    ensures forall e :: e in After(run[..|run| - 1], ttl, most) ==> Birth(run, e.0, ttl, most) < |run| - 1
  {
    hide After, Lookup;
    var before := run[..|run| - 1];
    var d := After(before, ttl, most);
    forall e | e in d
      ensures Birth(run, e.0, ttl, most) == Birth(before, e.0, ttl, most) < |before|
    {
      LookupHits(d, e.0);
      BirthFacts(before, e.0, ttl, most);
    }
    forall i, j | 0 <= i < j < |d| ensures Birth(run, d[i].0, ttl, most) < Birth(run, d[j].0, ttl, most) {
      assert d[i] in d && d[j] in d;
      var rank := key => Birth(before, key, ttl, most);
      assert rank(d[i].0) < rank(d[j].0);
    }
  }

  /** Also with the entry of a store put in and nothing evicted yet. */
  lemma PutOrderedByBirth(run: seq<Op>, ttl: int, most: nat)
    requires run != [] && run[|run| - 1].Store?
    requires Ordered(After(run[..|run| - 1], ttl, most), key => Birth(run, key, ttl, most))
    requires forall e :: e in After(run[..|run| - 1], ttl, most) ==> Birth(run, e.0, ttl, most) < |run| - 1
    ensures var op := run[|run| - 1];
            Ordered(Put(After(run[..|run| - 1], ttl, most), op.id, Signed(op.signature, op.now + ttl)),
                    key => Birth(run, key, ttl, most))
  {
    hide After, Put, Lookup;
    var op, d := run[|run| - 1], After(run[..|run| - 1], ttl, most);
    var rank := key => Birth(run, key, ttl, most);
    NothingOrLastStored(run[..|run| - 1], ttl, most, op.id);
    LookupHits(d, op.id);
    if Absent(d, op.id) {
      forall i | 0 <= i < |d| ensures rank(d[i].0) < rank(op.id) {
        assert d[i] in d;
      }
    }
    OrderedPut(d, op.id, Signed(op.signature, op.now + ttl), rank);
  }

  /** What a store leaves, in every run: with its own entry in place the entries stand in the order in
      which their keys came into the cache, and those survive that have not run out and have fewer
      than `most` such entries younger than they are. */
  lemma YoungestSurvive(run: seq<Op>, ttl: int, most: nat, i: nat)
    requires run != [] && run[|run| - 1].Store? && run[|run| - 1].id != "" && run[|run| - 1].signature != ""
    requires var op := run[|run| - 1];
             i < |Put(After(run[..|run| - 1], ttl, most), op.id, Signed(op.signature, op.now + ttl))|
    ensures var op := run[|run| - 1];
            var put := Put(After(run[..|run| - 1], ttl, most), op.id, Signed(op.signature, op.now + ttl));
            && Ordered(put, key => Birth(run, key, ttl, most))
            && (!Absent(After(run, ttl, most), put[i].0) <==>
                put[i].1.expires >= op.evictAt && |Live(put[i + 1..], op.evictAt)| < most)
  {
    hide Put, Evicted, Live, Absent, Birth;
    var op, before := run[|run| - 1], run[..|run| - 1];
    OrderedByBirth(before, ttl, most);
    BirthsCarryOver(run, ttl, most);
    PutOrderedByBirth(run, ttl, most);
    NothingOrLastStored(before, ttl, most, op.id);
    PutKeepsDistinct(After(before, ttl, most), op.id, Signed(op.signature, op.now + ttl));
    SurvivesIff(Put(After(before, ttl, most), op.id, Signed(op.signature, op.now + ttl)), i, op.evictAt, most);
  }

  // ----- Least recently used ----------------------------------------------------------------------------

  /** The entry goes to the young end, whether or not it was there before. */
  function Renewed(d: Dict<Signed>, id: string, e: Signed): Dict<Signed> {
    Without(d, id) + [(id, e)]
  }

  /** The cache the documentation names: a store and a hit both make an entry the youngest. */
  function LruAfter(run: seq<Op>, ttl: int, most: nat): Dict<Signed> {
    if run == [] then [] else LruStep(LruAfter(run[..|run| - 1], ttl, most), run[|run| - 1], ttl, most)
  }

  function LruStep(d: Dict<Signed>, op: Op, ttl: int, most: nat): Dict<Signed> {
    match op
    case Store(id, signature, now, evictAt) =>
      if id == "" || signature == "" then d else Evicted(Renewed(d, id, Signed(signature, now + ttl)), evictAt, most)
    case Get(id, now) =>
      if id == "" || Lookup(d, id).None? then d
      else if Lookup(d, id).value.expires < now then Without(d, id)
      else Renewed(d, id, Lookup(d, id).value)
  }

  /** The operation uses an entry that has younger ones behind it: a store of a cached id with an
      entry behind it that outlives the eviction, or a hit on any entry but the youngest. */
  ghost predicate UsesOlderEntry(d: Dict<Signed>, op: Op, ttl: int) {
    match op
    case Store(id, signature, now, evictAt) =>
      id != "" && signature != "" && now + ttl >= evictAt
      && exists i :: 0 <= i < |d| && d[i].0 == id && Live(d[i + 1..], evictAt) != []
    case Get(id, now) =>
      id != "" && exists i :: 0 <= i < |d| - 1 && d[i].0 == id && d[i].1.expires >= now
  }

  /** Moving an entry to the end changes the order exactly when something stands behind it. */
  lemma MovedIff(front: Dict<Signed>, entry: (string, Signed), behind: Dict<Signed>)
    requires forall i :: 0 <= i < |behind| ==> behind[i].0 != entry.0
    ensures front + [entry] + behind == front + behind + [entry] <==> behind == []
  {
    if behind != [] {
      assert (front + [entry] + behind)[|front|] == entry;
      assert (front + behind + [entry])[|front|] == behind[0];
    } else {
      assert front + [entry] + behind == front + behind + [entry];
    }
  }

  lemma MovedLiveIff(front: Dict<Signed>, entry: (string, Signed), behind: Dict<Signed>, now: int)
    requires forall i :: 0 <= i < |behind| ==> behind[i].0 != entry.0
    ensures Live(front + [entry] + behind, now) == Live(front + behind + [entry], now)
            <==> entry.1.expires < now || Live(behind, now) == []
  {
    hide Live;
    LiveSplits(front + [entry], behind, now);
    LiveSplits(front, [entry], now);
    LiveSplits(front + behind, [entry], now);
    LiveSplits(front, behind, now);
    LiveOfOne(entry, now);
    if entry.1.expires >= now {
      var young := Live(behind, now);
      forall k | 0 <= k < |young| ensures young[k].0 != entry.0 {
        LiveComesFrom(behind, now, k);
      }
      MovedIff(Live(front, now), entry, young);
    }
  }

  lemma {:induction false} LiveComesFrom(d: Dict<Signed>, now: int, k: nat)
    requires k < |Live(d, now)|
    ensures Live(d, now)[k] in d
  {
    if d[0].1.expires < now {
      LiveComesFrom(d[1..], now, k);
    } else if k > 0 {
      LiveComesFrom(d[1..], now, k - 1);
    }
  }

  lemma StoreIsLruIff(d: Dict<Signed>, i: nat, e: Signed, evictAt: int, most: nat)
    requires Distinct(d) && i < |d| <= most
    ensures Evicted(Put(d, d[i].0, e), evictAt, most) == Evicted(Renewed(d, d[i].0, e), evictAt, most)
            <==> e.expires < evictAt || Live(d[i + 1..], evictAt) == []
  {
    hide Live, Put, Without;
    PutAt(d, i, e);
    WithoutAt(d, i);
    LiveIsShorter(Put(d, d[i].0, e), evictAt);
    LiveIsShorter(Renewed(d, d[i].0, e), evictAt);
    MovedLiveIff(d[..i], (d[i].0, e), d[i + 1..], evictAt);
  }

  lemma {:induction false} LiveIsShorter(d: Dict<Signed>, now: int)
    ensures |Live(d, now)| <= |d|
  {
    if d != [] {
      LiveIsShorter(d[1..], now);
    }
  }

  lemma AbsentIsLru(d: Dict<Signed>, op: Op, ttl: int, most: nat)
    requires Absent(d, op.id)
    ensures Step(d, op, ttl, most) == LruStep(d, op, ttl, most) && !UsesOlderEntry(d, op, ttl)
  {
    hide Put, Evicted, Live, Without, Lookup;
    LookupHits(d, op.id);
    WithoutAbsent(d, op.id);
    if op.Store? {
      PutNewAppends(d, op.id, Signed(op.signature, op.now + ttl));
    }
  }

  lemma HitIsLruIff(d: Dict<Signed>, i: nat, ttl: int, most: nat, now: int)
    requires Distinct(d) && i < |d| && d[i].0 != ""
    ensures Step(d, Get(d[i].0, now), ttl, most) == LruStep(d, Get(d[i].0, now), ttl, most)
            <==> d[i].1.expires < now || i == |d| - 1
  {
    hide Without, Lookup;
    LookupAt(d, i);
    WithoutAt(d, i);
    assert d == d[..i] + [d[i]] + d[i + 1..];
    MovedIff(d[..i], d[i], d[i + 1..]);
  }

  /** One operation does what the documented cache does exactly when it uses no older entry. */
  lemma StepIsLruIff(d: Dict<Signed>, op: Op, ttl: int, most: nat)
    requires Distinct(d) && |d| <= most
    ensures Step(d, op, ttl, most) == LruStep(d, op, ttl, most) <==> !UsesOlderEntry(d, op, ttl)
  {
    hide Put, Evicted, Live, Without, Lookup, Step, LruStep;
    if Absent(d, op.id) {
      AbsentIsLru(d, op, ttl, most);
    } else if op.id == "" || (op.Store? && op.signature == "") {
      NothingIsLru(d, op, ttl, most);
    } else {
      var i :| 0 <= i < |d| && d[i].0 == op.id;
      assert forall k :: 0 <= k < |d| && d[k].0 == op.id ==> k == i;
      match op
      case Store(id, signature, now, evictAt) =>
        StoreIsLruIff(d, i, Signed(signature, now + ttl), evictAt, most);
        StoreSteps(d, op, ttl, most);
      case Get(id, now) => HitIsLruIff(d, i, ttl, most, now);
    }
  }

  lemma NothingIsLru(d: Dict<Signed>, op: Op, ttl: int, most: nat)
    requires op.id == "" || (op.Store? && op.signature == "")
    ensures Step(d, op, ttl, most) == LruStep(d, op, ttl, most)
  {
  }

  lemma StoreSteps(d: Dict<Signed>, op: Op, ttl: int, most: nat)
    requires op.Store? && op.id != "" && op.signature != ""
    ensures var e := Signed(op.signature, op.now + ttl);
            && Step(d, op, ttl, most) == Evicted(Put(d, op.id, e), op.evictAt, most)
            && LruStep(d, op, ttl, most) == Evicted(Renewed(d, op.id, e), op.evictAt, most)
  {
  }

  /** The two caches hold the same entries in the same order at every moment of the run. */
  ghost predicate IsLruThroughout(run: seq<Op>, ttl: int, most: nat) {
    && After(run, ttl, most) == LruAfter(run, ttl, most)
    && (run != [] ==> IsLruThroughout(run[..|run| - 1], ttl, most))
  }

  ghost predicate NeverUsesOlderEntry(run: seq<Op>, ttl: int, most: nat) {
    run != [] ==>
      && NeverUsesOlderEntry(run[..|run| - 1], ttl, most)
      && !UsesOlderEntry(After(run[..|run| - 1], ttl, most), run[|run| - 1], ttl)
  }

  /** The cache is the documented one throughout a run exactly when no operation of the run uses an
      older entry. */
  lemma {:induction false} LruIff(run: seq<Op>, ttl: int, most: nat)
    ensures IsLruThroughout(run, ttl, most) <==> NeverUsesOlderEntry(run, ttl, most)
  {
    hide UsesOlderEntry, LruStep, Step;
    if run != [] {
      var before := run[..|run| - 1];
      LruIff(before, ttl, most);
      NothingOrLastStored(before, ttl, most, "");
      StepIsLruIff(After(before, ttl, most), run[|run| - 1], ttl, most);
    }
  }
}
