/** What the signature cache guarantees over whole runs, and the round trip of a signature through a
    client that drops it. */
module GeminiRuns {
  import opened Options
  import opened GeminiThought

  // ----- Dictionaries -----------------------------------------------------------------------------------

  ghost predicate Absent<V>(d: Dict<V>, key: string) {
    forall i :: 0 <= i < |d| ==> d[i].0 != key
  }

  lemma {:induction false} PutNewAppends<V>(d: Dict<V>, key: string, value: V)
    requires Absent(d, key)
    ensures Put(d, key, value) == d + [(key, value)]
  {
    if d != [] {
      PutNewAppends(d[1..], key, value);
    }
  }

  lemma {:induction false} LookupAt<V>(d: Dict<V>, i: nat)
    requires Distinct(d) && i < |d|
    ensures Lookup(d, d[i].0) == Some(d[i].1)
  {
    if i > 0 {
      LookupAt(d[1..], i - 1);
    }
  }

  lemma {:induction false} LookupHits<V>(d: Dict<V>, key: string)
    ensures Lookup(d, key).None? <==> Absent(d, key)
    ensures Lookup(d, key).Some? ==> (key, Lookup(d, key).value) in d
  {
    if d != [] && d[0].0 != key {
      LookupHits(d[1..], key);
      assert Absent(d[1..], key) ==> Absent(d, key);
    }
  }

  /** Dropping entries hides keys but never changes what a remaining key maps to. */
  lemma LookupInPart(d: Dict<Signed>, part: Dict<Signed>, key: string)
    requires Distinct(d) && forall e :: e in part ==> e in d
    ensures Lookup(part, key).Some? ==> Lookup(part, key) == Lookup(d, key)
  {
    LookupHits(part, key);
    if Lookup(part, key).Some? {
      var i :| 0 <= i < |d| && d[i] == (key, Lookup(part, key).value);
      LookupAt(d, i);
    }
  }

  // ----- Only the last signature stored -------------------------------------------------------------------

  datatype Op =
    | Store(id: string, signature: string, now: int, evictAt: int)
    | Get(id: string, now: int)

  function Step(d: Dict<Signed>, op: Op, ttl: int, most: nat): Dict<Signed> {
    match op
    case Store(id, signature, now, evictAt) => Stored(d, id, signature, now, evictAt, ttl, most)
    case Get(id, now) => Forgotten(d, id, now)
  }

  function After(run: seq<Op>, ttl: int, most: nat): Dict<Signed> {
    if run == [] then [] else Step(After(run[..|run| - 1], ttl, most), run[|run| - 1], ttl, most)
  }

  function LastStored(run: seq<Op>, key: string, ttl: int): Option<Signed> {
    if run == [] then None
    else
      match run[|run| - 1]
      case Store(id, signature, now, _) =>
        if id == key && id != "" && signature != "" then Some(Signed(signature, now + ttl))
        else LastStored(run[..|run| - 1], key, ttl)
      case Get(_, _) => LastStored(run[..|run| - 1], key, ttl)
  }

  lemma EvictedFacts(d: Dict<Signed>, now: int, most: nat)
    requires Distinct(d)
    ensures Distinct(Evicted(d, now, most)) && |Evicted(d, now, most)| <= most
    ensures forall e :: e in Evicted(d, now, most) ==> e in d
  {
    LiveFacts(d, now);
  }

  /** In every run the cache stays within its bound, and looking an id up finds nothing or the last
      signature stored for that id, with the deadline it was given then. */
  lemma {:induction false} NothingOrLastStored(run: seq<Op>, ttl: int, most: nat, key: string)
    ensures Distinct(After(run, ttl, most)) && |After(run, ttl, most)| <= most
    ensures Lookup(After(run, ttl, most), key).Some? ==> Lookup(After(run, ttl, most), key) == LastStored(run, key, ttl)
  {
    hide Evicted, Put, Without, Distinct, Lookup;
    if run == [] {
      Nothing(key);
    } else {
      var before := After(run[..|run| - 1], ttl, most);
      NothingOrLastStored(run[..|run| - 1], ttl, most, key);
      match run[|run| - 1]
      case Store(id, signature, now, evictAt) =>
        if id != "" && signature != "" {
          var put := Put(before, id, Signed(signature, now + ttl));
          PutKeepsDistinct(before, id, Signed(signature, now + ttl));
          LookupPut(before, id, Signed(signature, now + ttl), key);
          EvictedFacts(put, evictAt, most);
          LookupInPart(put, Evicted(put, evictAt, most), key);
        }
      case Get(id, now) =>
        WithoutKeepsDistinct(before, id);
        LookupWithout(before, id, key);
    }
  }

  lemma Nothing(key: string)
    ensures Distinct<Signed>([]) && Lookup<Signed>([], key) == None
  {
  }

  // ----- Fresh ids are kept -------------------------------------------------------------------------------

  function Entries(items: Dict<string>, clock: Clock, ttl: int): Dict<Signed> {
    seq(|items|, i requires 0 <= i < |items| => (items[i].0, Signed(items[i].1, clock.storedAt(i) + ttl)))
  }

  /** None of n stores, and no request at a later moment, comes later than the time to live of any. */
  ghost predicate InTime(clock: Clock, n: nat, ttl: int, asked: int) {
    forall k :: 0 <= k < n ==>
      asked <= clock.storedAt(k) + ttl && forall i :: k <= i < n ==> clock.evictedAt(i) <= clock.storedAt(k) + ttl
  }

  lemma {:induction false} LiveOfConcat(a: Dict<Signed>, b: Dict<Signed>, now: int)
    requires forall i :: 0 <= i < |b| ==> b[i].1.expires >= now
    ensures Live(a + b, now) == Live(a, now) + b
  {
    if a != [] {
      assert (a + b)[1..] == a[1..] + b;
      LiveOfConcat(a[1..], b, now);
    } else {
      assert a + b == b;
      LiveOfAllLive(b, now);
    }
  }

  lemma {:induction false} LiveOfAllLive(b: Dict<Signed>, now: int)
    requires forall i :: 0 <= i < |b| ==> b[i].1.expires >= now
    ensures Live(b, now) == b
  {
    if b != [] {
      LiveOfAllLive(b[1..], now);
    }
  }

  lemma SuffixIsDistinct(d: Dict<Signed>, from: nat)
    requires Distinct(d) && from <= |d|
    ensures Distinct(d[from..])
  {
  }

  lemma AppendFresh(older: Dict<Signed>, kept: Dict<Signed>, id: string, e: Signed, now: int, most: nat) returns (left: Dict<Signed>)
    requires Distinct(older) && Absent(older, id) && Absent(kept, id) && |kept| < most
    requires e.expires >= now && forall i :: 0 <= i < |kept| ==> kept[i].1.expires >= now
    ensures Evicted(Put(older + kept, id, e), now, most) == left + (kept + [(id, e)])
    ensures Distinct(left) && forall x :: x in left ==> x in older
  {
    hide Put, Live, Distinct;
    PutNewAppends(older + kept, id, e);
    var added := kept + [(id, e)];
    assert older + kept + [(id, e)] == older + added;
    LiveOfConcat(older, added, now);
    LiveFacts(older, now);
    var live := Live(older, now);
    left := if |live| + |added| <= most then live else live[|live| + |added| - most..];
    assert Distinct(left) by { SuffixIsDistinct(live, |live| - |left|); }
    assert forall x :: x in left ==> x in live;
  }

  /** Entries with new ids and no more of them than the cache holds push out only older entries. */
  lemma {:induction false} FreshAreAppended(d: Dict<Signed>, items: Dict<string>, clock: Clock, ttl: int, most: nat, asked: int)
    returns (older: Dict<Signed>)
    requires Distinct(d) && Distinct(items) && |items| <= most && InTime(clock, |items|, ttl, asked)
    requires forall i :: 0 <= i < |items| ==> items[i].0 != "" && items[i].1 != "" && Absent(d, items[i].0)
    ensures StoredAll(d, items, clock, ttl, most) == older + Entries(items, clock, ttl)
    ensures Distinct(older) && forall e :: e in older ==> e in d
  {
    hide Put, Evicted;
    if items == [] {
      older := d;
    } else {
      var n := |items| - 1;
      var id, e := items[n].0, Signed(items[n].1, clock.storedAt(n) + ttl);
      var rest := FreshAreAppended(d, items[..n], clock, ttl, most, asked);
      AbsentInPart(d, rest, id);
      var kept := Entries(items[..n], clock, ttl);
      older := AppendFresh(rest, kept, id, e, clock.evictedAt(n), most);
      assert kept + [(id, e)] == Entries(items, clock, ttl);
    }
  }

  lemma AbsentInPart(d: Dict<Signed>, part: Dict<Signed>, key: string)
    requires Absent(d, key) && forall e :: e in part ==> e in d
    ensures Absent(part, key)
  {
    forall i | 0 <= i < |part| ensures part[i].0 != key {
      assert part[i] in d;
    }
  }

  /** Signatures stored together under fresh, distinct ids are all found until they run out. */
  lemma FreshAreFound(d: Dict<Signed>, items: Dict<string>, clock: Clock, ttl: int, most: nat, asked: int, key: string)
    requires Distinct(d) && Distinct(items) && |items| <= most && InTime(clock, |items|, ttl, asked)
    requires forall i :: 0 <= i < |items| ==> items[i].0 != "" && items[i].1 != "" && Absent(d, items[i].0)
    requires key != "" && Absent(d, key)
    ensures Found(StoredAll(d, items, clock, ttl, most), key, asked) == Lookup(items, key)
  {
    hide Lookup, StoredAll;
    var older := FreshAreAppended(d, items, clock, ttl, most, asked);
    var all := StoredAll(d, items, clock, ttl, most);
    LookupHits(items, key);
    LookupHits(all, key);
    AbsentInPart(d, older, key);
    if Lookup(items, key).Some? {
      var i :| 0 <= i < |items| && items[i] == (key, Lookup(items, key).value);
      var j :| 0 <= j < |all| && all[j] == (key, Lookup(all, key).value) by {
        assert all[|older| + i].0 == key;
      }
      assert j >= |older|;
      assert items[j - |older|].0 == items[i].0;
    }
  }

  // ----- Not least-recently-used --------------------------------------------------------------------------

  /** Eviction goes by first insertion: an entry that was just stored again is still the first to be
      pushed out, before the entry that has not been touched since. */
  lemma RefreshedEntryIsEvictedFirst(d: Dict<Signed>, signature: string, id: string, other: string, now: int, ttl: int, most: nat)
    requires Distinct(d) && |d| == most && most >= 2 && ttl >= 0
    requires forall i :: 0 <= i < |d| ==> d[i].1.expires >= now && d[i].0 != ""
    requires signature != "" && other != "" && id != "" && Absent(d, id)
    ensures var refreshed := Stored(d, d[0].0, signature, now, now, ttl, most);
            var pushed := Stored(refreshed, id, other, now, now, ttl, most);
            && Found(refreshed, d[0].0, now) == Some(signature)
            && Found(pushed, d[0].0, now) == None
            && Found(pushed, d[1].0, now) == Some(d[1].1.signature)
  {
    hide Lookup;
    var e := Signed(signature, now + ttl);
    var refreshed := d[0 := (d[0].0, e)];
    assert Put(d, d[0].0, e) == refreshed;
    LiveOfAllLive(refreshed, now);
    LookupAt(refreshed, 0);
    PutNewAppends(refreshed, id, Signed(other, now + ttl));
    var full := refreshed + [(id, Signed(other, now + ttl))];
    LiveOfAllLive(full, now);
    var pushed := full[1..];
    assert Evicted(full, now, most) == pushed;
    LookupHits(pushed, d[0].0);
    LookupAt(pushed, 0);
  }

  // ----- The round trip -----------------------------------------------------------------------------------

  /** What is left of a tool call after a client dropped the field it does not know. */
  function Stripped(call: Json): Json {
    if call.Obj? then Obj(call.fields - {"extra_content"}) else call
  }

  function StrippedCalls(calls: seq<Json>): seq<Json> {
    seq(|calls|, i requires 0 <= i < |calls| => Stripped(calls[i]))
  }

  lemma ReadAfterWrite(call: Json, signature: string)
    requires call.Obj?
    ensures signature != "" ==> ReadSignature(WriteSignature(call, signature)) == Some(signature)
    ensures forall key :: key != "extra_content" ==> Field(WriteSignature(call, signature), key) == Field(call, key)
    ensures var was, now := Field(call, "extra_content"), Field(WriteSignature(call, signature), "extra_content");
            && (forall key :: key != "google" ==> Field(now, key) == Field(was, key))
            && (forall key :: key != "thought_signature" ==> Field(Field(now, "google"), key) == Field(Field(was, "google"), key))
  {
    var written := WriteSignature(call, signature);
    var extra := Field(written, "extra_content");
    assert Field(Field(extra, "google"), "thought_signature") == Str(signature);
  }

  /** The signed calls of a message with the ids of all its calls distinct. */
  function SignedPairs(calls: seq<Json>): Dict<string> {
    if calls == [] then []
    else
      var call := calls[|calls| - 1];
      SignedPairs(calls[..|calls| - 1])
      + if ReadSignature(call).Some? then [(CallId(call), ReadSignature(call).value)] else []
  }

  ghost predicate WellIdentified(calls: seq<Json>) {
    && (forall i :: 0 <= i < |calls| ==> calls[i].Obj? && CallId(calls[i]) != "")
    && (forall i, j :: 0 <= i < j < |calls| ==> CallId(calls[i]) != CallId(calls[j]))
  }

  lemma {:induction false} PairIsSigned(calls: seq<Json>, k: nat) returns (i: nat)
    requires k < |SignedPairs(calls)|
    ensures i < |calls| && ReadSignature(calls[i]) == Some(SignedPairs(calls)[k].1) && CallId(calls[i]) == SignedPairs(calls)[k].0
  {
    hide ReadSignature, CallId;
    var before := calls[..|calls| - 1];
    if k < |SignedPairs(before)| {
      i := PairIsSigned(before, k);
    } else {
      i := |calls| - 1;
    }
  }

  lemma {:induction false} SignedIsPaired(calls: seq<Json>, i: nat)
    requires i < |calls| && ReadSignature(calls[i]).Some?
    ensures (CallId(calls[i]), ReadSignature(calls[i]).value) in SignedPairs(calls)
  {
    hide ReadSignature, CallId;
    if i < |calls| - 1 {
      SignedIsPaired(calls[..|calls| - 1], i);
    }
  }

  /** Extraction finds each signed call once, in order. */
  lemma {:induction false} CollectedAreSigned(calls: seq<Json>)
    requires WellIdentified(calls)
    ensures CollectCalls(calls, []) == SignedPairs(calls) && Distinct(SignedPairs(calls))
  {
    hide ReadSignature, CallId;
    if calls != [] {
      var n := |calls| - 1;
      var before, pairs := calls[..n], SignedPairs(calls[..n]);
      CollectedAreSigned(before);
      assert Absent(pairs, CallId(calls[n])) by {
        forall k | 0 <= k < |pairs| ensures pairs[k].0 != CallId(calls[n]) {
          var i := PairIsSigned(before, k);
        }
      }
      if ReadSignature(calls[n]).Some? {
        PutNewAppends(pairs, CallId(calls[n]), ReadSignature(calls[n]).value);
      }
    }
  }

  /** The tool calls of all choices, those of a final message before those of a streaming delta. */
  function AllCalls(choices: seq<Json>): seq<Json> {
    if choices == [] then []
    else
      var last := choices[|choices| - 1];
      AllCalls(choices[..|choices| - 1])
      + Items(Field(Field(last, "message"), "tool_calls")) + Items(Field(Field(last, "delta"), "tool_calls"))
  }

  /** A response that carries these calls, in as many choices as it likes, with no signature of a whole
      message. */
  predicate Carries(response: Json, calls: seq<Json>) {
    var choices := Items(Field(response, "choices"));
    && AllCalls(choices) == calls
    && forall i :: 0 <= i < |choices| ==> ReadSignature(Field(choices[i], "message")).None?
  }

  lemma {:induction false} CollectConcat(a: seq<Json>, b: seq<Json>, into: Dict<string>)
    ensures CollectCalls(a + b, into) == CollectCalls(b, CollectCalls(a, into))
  {
    hide ReadSignature, CallId, Put;
    if b == [] {
      assert a + b == a;
    } else {
      assert (a + b)[..|a + b| - 1] == a + b[..|b| - 1];
      CollectConcat(a, b[..|b| - 1], into);
    }
  }

  lemma {:induction false} ExtractionOfChoices(choices: seq<Json>)
    requires forall i :: 0 <= i < |choices| ==> ReadSignature(Field(choices[i], "message")).None?
    ensures CollectChoices(choices) == CollectCalls(AllCalls(choices), [])
  {
    hide ReadSignature, CollectCalls;
    if choices == [] {
      assert CollectCalls([], []) == [] by { NothingCollected(); }
    } else {
      var before, last := choices[..|choices| - 1], choices[|choices| - 1];
      var final, partial := Items(Field(Field(last, "message"), "tool_calls")), Items(Field(Field(last, "delta"), "tool_calls"));
      ExtractionOfChoices(before);
      CollectConcat(AllCalls(before), final, []);
      CollectConcat(AllCalls(before) + final, partial, []);
    }
  }

  lemma NothingCollected()
    ensures CollectCalls([], []) == []
  {
  }

  lemma ExtractionOfCarried(response: Json, calls: seq<Json>)
    requires Carries(response, calls)
    ensures Extracted(response) == CollectCalls(calls, [])
  {
    ExtractionOfChoices(Items(Field(response, "choices")));
  }

  /** Extract, strip, inject: for fresh, distinct ids, no more than the cache holds, every call gets
      its own signature back before the time to live is over, and a call without one stays without. */
  lemma SignaturesComeBack(d: Dict<Signed>, response: Json, calls: seq<Json>, clock: Clock, ttl: int, most: nat, asked: int, i: nat)
    requires Distinct(d) && Carries(response, calls) && WellIdentified(calls) && i < |calls|
    requires InTime(clock, |SignedPairs(calls)|, ttl, asked)
    requires |SignedPairs(calls)| <= most && forall k :: 0 <= k < |calls| ==> Absent(d, CallId(calls[k]))
    ensures var back := PatchedCalls(StoredAll(d, Extracted(response), clock, ttl, most), asked, StrippedCalls(calls))[i];
            && ReadSignature(back) == ReadSignature(calls[i])
            && (forall key :: key != "extra_content" ==> Field(back, key) == Field(calls[i], key))
  {
    hide StoredAll, SignedPairs, Found, WriteSignature, ReadSignature, CollectCalls, Extracted, Carries;
    assert Extracted(response) == CollectCalls(calls, []) by { ExtractionOfCarried(response, calls); }
    var call, pairs := calls[i], SignedPairs(calls);
    CollectedAreSigned(calls);
    forall k | 0 <= k < |pairs| ensures pairs[k].0 != "" && pairs[k].1 != "" && Absent(d, pairs[k].0) {
      var j := PairIsSigned(calls, k);
      NotEmpty(calls[j]);
    }
    FreshAreFound(d, pairs, clock, ttl, most, asked, CallId(call));
    SignedAreLookedUp(calls, i);
    StrippedIsUnsigned(call);
    if ReadSignature(call).Some? {
      ReadAfterWrite(Stripped(call), ReadSignature(call).value);
    }
  }

  lemma NotEmpty(call: Json)
    ensures ReadSignature(call) != Some("")
  {
  }

  lemma SignedAreLookedUp(calls: seq<Json>, i: nat)
    requires WellIdentified(calls) && i < |calls|
    ensures Lookup(SignedPairs(calls), CallId(calls[i])) == ReadSignature(calls[i])
    ensures ReadSignature(calls[i]) != Some("")
  {
    hide ReadSignature, Lookup;
    var pairs, id := SignedPairs(calls), CallId(calls[i]);
    CollectedAreSigned(calls);
    LookupHits(pairs, id);
    NotEmpty(calls[i]);
    if ReadSignature(calls[i]).Some? {
      SignedIsPaired(calls, i);
      var k :| 0 <= k < |pairs| && pairs[k] == (id, ReadSignature(calls[i]).value);
      LookupAt(pairs, k);
    } else if Lookup(pairs, id).Some? {
      var k :| 0 <= k < |pairs| && pairs[k] == (id, Lookup(pairs, id).value);
      var j := PairIsSigned(calls, k);
      assert false;
    }
  }

  lemma StrippedIsUnsigned(call: Json)
    ensures call.Obj? ==> ReadSignature(Stripped(call)) == None
    ensures forall key :: key != "extra_content" ==> Field(Stripped(call), key) == Field(call, key)
    ensures CallId(Stripped(call)) == CallId(call)
  {
  }

  /** Injecting a second time, now or later and with nothing stored in between, patches nothing. */
  lemma {:induction false} SecondInjectPatchesNothing(d: Dict<Signed>, d': Dict<Signed>, calls: seq<Json>, now: int, later: int)
    requires SameLive(d, d', now) && now <= later
    ensures PatchCount(d', later, PatchedCalls(d, now, calls)) == 0
  {
    if calls != [] {
      var n := |calls| - 1;
      var patched := PatchedCalls(d, now, calls);
      SecondInjectPatchesNothing(d, d', calls[..n], now, later);
      assert patched[..n] == PatchedCalls(d, now, calls[..n]);
      OncePatched(d, d', calls[n], now, later);
    }
  }

  lemma OncePatched(d: Dict<Signed>, d': Dict<Signed>, call: Json, now: int, later: int)
    requires SameLive(d, d', now) && now <= later
    ensures !Patchable(d', later, PatchedCall(d, now, call))
  {
    hide WriteSignature, ReadSignature;
    if Patchable(d, now, call) {
      ReadAfterWrite(call, Found(d, CallId(call), now).value);
    } else {
      assert Found(d', CallId(call), now) == Found(d, CallId(call), now);
    }
  }
}
