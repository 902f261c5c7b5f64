/** The process-local cache of thought signatures, and the walks that fill it from responses and put
    signatures back into requests. */
module GeminiThought {
  import opened Options

  datatype Json = Null | Str(s: string) | Other(n: int) | Arr(items: seq<Json>) | Obj(fields: map<string, Json>)

  /** A dictionary in insertion order: assigning to a key it holds keeps the key's place. */
  type Dict<V> = seq<(string, V)>

  datatype Signed = Signed(signature: string, expires: int)

  ghost predicate Distinct<V>(d: Dict<V>) {
    forall i, j :: 0 <= i < j < |d| ==> d[i].0 != d[j].0
  }

  function Put<V>(d: Dict<V>, key: string, value: V): Dict<V> {
    if d == [] then [(key, value)]
    else if d[0].0 == key then [(key, value)] + d[1..]
    else [d[0]] + Put(d[1..], key, value)
  }

  function Lookup<V>(d: Dict<V>, key: string): Option<V> {
    if d == [] then None
    else if d[0].0 == key then Some(d[0].1)
    else Lookup(d[1..], key)
  }

  function Without<V>(d: Dict<V>, key: string): Dict<V> {
    if d == [] then []
    else if d[0].0 == key then d[1..]
    else [d[0]] + Without(d[1..], key)
  }

  function Live(d: Dict<Signed>, now: int): Dict<Signed> {
    if d == [] then []
    else if d[0].1.expires < now then Live(d[1..], now)
    else [d[0]] + Live(d[1..], now)
  }

  function Evicted(d: Dict<Signed>, now: int, most: nat): Dict<Signed> {
    var live := Live(d, now);
    if |live| <= most then live else live[|live| - most..]
  }

  /** The cache after storing one signature: the deadline is taken at `now`, the eviction runs at
      `evictAt`. */
  function Stored(d: Dict<Signed>, id: string, signature: string, now: int, evictAt: int, ttl: int, most: nat): Dict<Signed> {
    if id == "" || signature == "" then d else Evicted(Put(d, id, Signed(signature, now + ttl)), evictAt, most)
  }

  /** What a request at `now` finds for an id. */
  function Found(d: Dict<Signed>, id: string, now: int): Option<string> {
    if id == "" then None
    else
      match Lookup(d, id)
      case None => None
      case Some(entry) => if entry.expires < now then None else Some(entry.signature)
  }

  /** Asking for an entry that has run out removes it. */
  function Forgotten(d: Dict<Signed>, id: string, now: int): Dict<Signed> {
    if Lookup(d, id).Some? && Lookup(d, id).value.expires < now && id != "" then Without(d, id) else d
  }

  // ----- The signature inside a tool call -------------------------------------------------------------

  function Field(node: Json, key: string): Json {
    if node.Obj? && key in node.fields then node.fields[key] else Null
  }

  function ReadSignature(node: Json): Option<string> {
    var leaf := Field(Field(Field(node, "extra_content"), "google"), "thought_signature");
    if leaf.Str? && leaf.s != "" then Some(leaf.s) else None
  }

  function FieldsOf(node: Json): map<string, Json> {
    if node.Obj? then node.fields else map[]
  }

  function WriteSignature(call: Json, signature: string): Json
    requires call.Obj?
  {
    var extra := Field(call, "extra_content");
    var google := FieldsOf(Field(extra, "google"))["thought_signature" := Str(signature)];
    Obj(call.fields["extra_content" := Obj(FieldsOf(extra)["google" := Obj(google)])])
  }

  /** The id of a tool call, empty when it has none. */
  function CallId(call: Json): string {
    if Field(call, "id").Str? then Field(call, "id").s else ""
  }

  function Items(node: Json): seq<Json> {
    if node.Arr? then node.items else []
  }

  // ----- Extraction -------------------------------------------------------------------------------------

  function CollectCalls(calls: seq<Json>, into: Dict<string>): Dict<string> {
    if calls == [] then into
    else
      var before := CollectCalls(calls[..|calls| - 1], into);
      var call := calls[|calls| - 1];
      if ReadSignature(call).Some? && CallId(call) != "" then Put(before, CallId(call), ReadSignature(call).value) else before
  }

  /** A signature on the message itself applies to every call in it. */
  function SpreadOverCalls(calls: seq<Json>, signature: string, into: Dict<string>): Dict<string> {
    if calls == [] then into
    else
      var before := SpreadOverCalls(calls[..|calls| - 1], signature, into);
      var id := CallId(calls[|calls| - 1]);
      if id != "" then Put(before, id, signature) else before
  }

  function CollectChoice(choice: Json, into: Dict<string>): Dict<string> {
    var message, delta := Field(choice, "message"), Field(choice, "delta");
    var calls := Items(Field(message, "tool_calls"));
    var own := CollectCalls(calls, into);
    var spread := if ReadSignature(message).Some? then SpreadOverCalls(calls, ReadSignature(message).value, own) else own;
    CollectCalls(Items(Field(delta, "tool_calls")), spread)
  }

  function CollectChoices(choices: seq<Json>): Dict<string> {
    if choices == [] then [] else CollectChoice(choices[|choices| - 1], CollectChoices(choices[..|choices| - 1]))
  }

  function Extracted(response: Json): Dict<string> {
    CollectChoices(Items(Field(response, "choices")))
  }

  method CollectFromToolCalls(calls: seq<Json>, into: Dict<string>) returns (found: Dict<string>)
    ensures found == CollectCalls(calls, into)
  {
    found := into;
    for i := 0 to |calls|
      invariant found == CollectCalls(calls[..i], into)
    {
      assert calls[..i + 1][..i] == calls[..i];
      var signature := ReadSignature(calls[i]);
      if signature.None? {
        continue;
      }
      var id := CallId(calls[i]);
      if id != "" {
        found := Put(found, id, signature.value);
      }
    }
    assert calls[..|calls|] == calls;
  }

  method SpreadSignature(calls: seq<Json>, signature: string, into: Dict<string>) returns (found: Dict<string>)
    ensures found == SpreadOverCalls(calls, signature, into)
  {
    found := into;
    for i := 0 to |calls|
      invariant found == SpreadOverCalls(calls[..i], signature, into)
    {
      assert calls[..i + 1][..i] == calls[..i];
      if CallId(calls[i]) != "" {
        found := Put(found, CallId(calls[i]), signature);
      }
    }
    assert calls[..|calls|] == calls;
  }

  method ExtractFromResponse(response: Json) returns (found: Dict<string>)
    ensures found == Extracted(response)
  {
    found := [];
    var choices := Items(Field(response, "choices"));
    for i := 0 to |choices|
      invariant found == CollectChoices(choices[..i])
    {
      assert choices[..i + 1][..i] == choices[..i];
      var message := Field(choices[i], "message");
      var calls := Items(Field(message, "tool_calls"));
      found := CollectFromToolCalls(calls, found);
      var signature := ReadSignature(message);
      if signature.Some? {
        found := SpreadSignature(calls, signature.value, found);
      }
      found := CollectFromToolCalls(Items(Field(Field(choices[i], "delta"), "tool_calls")), found);
    }
    assert choices[..|choices|] == choices;
  }

  // ----- Injection --------------------------------------------------------------------------------------

  predicate Patchable(d: Dict<Signed>, now: int, call: Json) {
    && call.Obj? && ReadSignature(call).None?
    && Found(d, CallId(call), now).Some? && Found(d, CallId(call), now).value != ""
  }

  function PatchedCall(d: Dict<Signed>, now: int, call: Json): Json {
    if Patchable(d, now, call) then WriteSignature(call, Found(d, CallId(call), now).value) else call
  }

  function PatchedCalls(d: Dict<Signed>, now: int, calls: seq<Json>): seq<Json> {
    seq(|calls|, i requires 0 <= i < |calls| => PatchedCall(d, now, calls[i]))
  }

  function PatchCount(d: Dict<Signed>, now: int, calls: seq<Json>): nat {
    if calls == [] then 0
    else PatchCount(d, now, calls[..|calls| - 1]) + if Patchable(d, now, calls[|calls| - 1]) then 1 else 0
  }

  predicate HasCalls(message: Json) {
    Field(message, "role") == Str("assistant") && Field(message, "tool_calls").Arr?
  }

  function PatchedMessage(d: Dict<Signed>, now: int, message: Json): Json {
    if HasCalls(message) then
      Obj(message.fields["tool_calls" := Arr(PatchedCalls(d, now, Field(message, "tool_calls").items))])
    else message
  }

  function MessagesPatchCount(d: Dict<Signed>, now: int, messages: seq<Json>): nat {
    if messages == [] then 0
    else
      var last := messages[|messages| - 1];
      MessagesPatchCount(d, now, messages[..|messages| - 1])
      + if HasCalls(last) then PatchCount(d, now, Field(last, "tool_calls").items) else 0
  }

  /** Forgetting an entry that has run out changes nothing a later request can find. */
  ghost predicate SameLive(d: Dict<Signed>, d': Dict<Signed>, now: int) {
    Live(d', now) == Live(d, now) && (forall id :: Found(d', id, now) == Found(d, id, now))
  }

  lemma {:induction false} WithoutKeepsDistinct(d: Dict<Signed>, key: string)
    requires Distinct(d)
    ensures Distinct(Without(d, key)) && |Without(d, key)| <= |d|
    ensures forall e :: e in Without(d, key) ==> e in d
  {
    if d != [] && d[0].0 != key {
      var rest := Without(d[1..], key);
      WithoutKeepsDistinct(d[1..], key);
      assert Without(d, key) == [d[0]] + rest;
      forall i | 0 <= i < |rest|
        ensures rest[i].0 != d[0].0
      {
        assert rest[i] in d[1..];
      }
    }
  }

  lemma {:induction false} LookupWithout(d: Dict<Signed>, key: string, other: string)
    requires Distinct(d)
    ensures Lookup(Without(d, key), other) == if other == key then None else Lookup(d, other)
  {
    hide Distinct;
    if d != [] {
      if d[0].0 == key {
        assert forall i :: 0 <= i < |d[1..]| ==> d[1..][i].0 != key by { HeadIsAlone(d); }
        NotThere(d[1..], key);
      } else {
        HeadIsAlone(d);
        LookupWithout(d[1..], key, other);
        assert Without(d, key)[1..] == Without(d[1..], key);
      }
    }
  }

  lemma HeadIsAlone<V>(d: Dict<V>)
    requires Distinct(d) && d != []
    ensures Distinct(d[1..]) && forall i :: 0 <= i < |d[1..]| ==> d[1..][i].0 != d[0].0
  {
  }

  lemma {:induction false} NotThere<V>(d: Dict<V>, key: string)
    requires forall i :: 0 <= i < |d| ==> d[i].0 != key
    ensures Lookup(d, key) == None
  {
    if d != [] {
      NotThere(d[1..], key);
    }
  }

  lemma {:induction false} LiveWithout(d: Dict<Signed>, key: string, now: int)
    requires Distinct(d) && Lookup(d, key).Some? && Lookup(d, key).value.expires < now
    ensures Live(Without(d, key), now) == Live(d, now)
  {
    if d[0].0 != key {
      LiveWithout(d[1..], key, now);
      assert Without(d, key)[1..] == Without(d[1..], key);
    }
  }

  class GeminiThoughtCache {
    const maxEntries: nat
    const ttl: int
    var entries: Dict<Signed>

    ghost predicate Valid()
      reads this
    {
      Distinct(entries) && |entries| <= maxEntries
    }

    constructor (maxEntries: nat, ttl: int)
      ensures this.maxEntries == maxEntries && this.ttl == ttl && entries == [] && Valid()
    {
      this.maxEntries, this.ttl, entries := maxEntries, ttl, [];
    }

    method Store(id: string, signature: string, now: int, evictAt: int)
      requires Valid()
      modifies this
      ensures Valid()
      ensures entries == Stored(old(entries), id, signature, now, evictAt, ttl, maxEntries)
    {
      if id == "" || signature == "" {
        return;
      }
      PutKeepsDistinct(entries, id, Signed(signature, now + ttl));
      entries := Put(entries, id, Signed(signature, now + ttl));
      EvictLocked(evictAt);
    }

    method EvictLocked(now: int)
      requires Distinct(entries)
      modifies this
      ensures entries == Evicted(old(entries), now, maxEntries) && Valid()
    {
      LiveFacts(entries, now);
      entries := Live(entries, now);
      if |entries| <= maxEntries {
        return;
      }
      var overflow := |entries| - maxEntries;
      entries := entries[overflow..];
    }

    method StoreMany(items: Dict<string>, clock: Clock)
      requires Valid()
      modifies this
      ensures Valid() && entries == StoredAll(old(entries), items, clock, ttl, maxEntries)
    {
      for i := 0 to |items|
        invariant Valid() && entries == StoredAll(old(entries), items[..i], clock, ttl, maxEntries)
      {
        assert items[..i + 1][..i] == items[..i];
        Store(items[i].0, items[i].1, clock.storedAt(i), clock.evictedAt(i));
      }
      assert items[..|items|] == items;
    }

    method Get(id: string, now: int) returns (signature: Option<string>)
      requires Valid()
      modifies this
      ensures Valid() && entries == Forgotten(old(entries), id, now)
      ensures signature == Found(old(entries), id, now) && SameLive(old(entries), entries, now)
    {
      if id == "" {
        return None;
      }
      var entry := Lookup(entries, id);
      if entry.None? {
        return None;
      }
      if entry.value.expires < now {
        LiveWithout(entries, id, now);
        forall other ensures Lookup(Without(entries, id), other) == if other == id then None else Lookup(entries, other) {
          LookupWithout(entries, id, other);
        }
        WithoutKeepsDistinct(entries, id);
        entries := Without(entries, id);
        return None;
      }
      signature := Some(entry.value.signature);
    }

    method InjectIntoCalls(calls: seq<Json>, now: int) returns (patchedCalls: seq<Json>, patched: nat)
      requires Valid()
      modifies this
      ensures Valid() && SameLive(old(entries), entries, now)
      ensures patchedCalls == PatchedCalls(old(entries), now, calls) && patched == PatchCount(old(entries), now, calls)
    {
      patchedCalls, patched := [], 0;
      for i := 0 to |calls|
        invariant Valid() && SameLive(old(entries), entries, now)
        invariant |patchedCalls| == i && patched == PatchCount(old(entries), now, calls[..i])
        invariant forall k :: 0 <= k < i ==> patchedCalls[k] == PatchedCall(old(entries), now, calls[k])
      {
        assert calls[..i + 1][..i] == calls[..i];
        var call := calls[i];
        if call.Obj? && CallId(call) != "" && ReadSignature(call).None? {
          var signature := Get(CallId(call), now);
          if signature.Some? && signature.value != "" {
            call := WriteSignature(call, signature.value);
            patched := patched + 1;
          }
        }
        patchedCalls := patchedCalls + [call];
      }
      assert calls[..|calls|] == calls;
    }

    method InjectIntoMessages(messages: array<Json>, now: int) returns (patched: nat)
      requires Valid()
      modifies this, messages
      ensures Valid() && SameLive(old(entries), entries, now)
      ensures forall i :: 0 <= i < messages.Length ==> messages[i] == PatchedMessage(old(entries), now, old(messages[i]))
      ensures patched == MessagesPatchCount(old(entries), now, old(messages[..]))
    {
      patched := 0;
      ghost var given := messages[..];
      for i := 0 to messages.Length
        invariant Valid() && SameLive(old(entries), entries, now)
        invariant patched == MessagesPatchCount(old(entries), now, given[..i])
        invariant forall k :: i <= k < messages.Length ==> messages[k] == given[k]
        invariant forall k :: 0 <= k < i ==> messages[k] == PatchedMessage(old(entries), now, given[k])
      {
        assert given[..i + 1][..i] == given[..i];
        var message := messages[i];
        if Field(message, "role") != Str("assistant") || !Field(message, "tool_calls").Arr? {
          continue;
        }
        ghost var before := entries;
        var calls, count := InjectIntoCalls(Field(message, "tool_calls").items, now);
        SamePatches(old(entries), before, now, Field(message, "tool_calls").items);
        messages[i] := Obj(message.fields["tool_calls" := Arr(calls)]);
        patched := patched + count;
      }
      assert given[..messages.Length] == given;
    }
  }

  /** The two readings the i-th of several stores takes. */
  datatype Clock = Clock(storedAt: nat -> int, evictedAt: nat -> int)

  function StoredAll(d: Dict<Signed>, items: Dict<string>, clock: Clock, ttl: int, most: nat): Dict<Signed> {
    if items == [] then d
    else
      var n := |items| - 1;
      Stored(StoredAll(d, items[..n], clock, ttl, most), items[n].0, items[n].1, clock.storedAt(n), clock.evictedAt(n), ttl, most)
  }

  lemma {:induction false} PutKeepsDistinct(d: Dict<Signed>, key: string, value: Signed)
    requires Distinct(d)
    ensures Distinct(Put(d, key, value))
    ensures forall e :: e in Put(d, key, value) ==> e == (key, value) || e in d
  {
    if d != [] && d[0].0 != key {
      var rest := Put(d[1..], key, value);
      HeadIsAlone(d);
      PutKeepsDistinct(d[1..], key, value);
      assert Put(d, key, value) == [d[0]] + rest;
      forall i | 0 <= i < |rest|
        ensures rest[i].0 != d[0].0
      {
        assert rest[i] in rest;
      }
    }
  }

  lemma {:induction false} LookupPut<V>(d: Dict<V>, key: string, value: V, other: string)
    ensures Lookup(Put(d, key, value), other) == if other == key then Some(value) else Lookup(d, other)
  {
    if d != [] && d[0].0 != key {
      LookupPut(d[1..], key, value, other);
      assert Put(d, key, value)[1..] == Put(d[1..], key, value);
    }
  }

  lemma {:induction false} LiveFacts(d: Dict<Signed>, now: int)
    requires Distinct(d)
    ensures Distinct(Live(d, now)) && |Live(d, now)| <= |d|
    ensures forall e :: e in Live(d, now) <==> e in d && e.1.expires >= now
  {
    if d != [] {
      LiveFacts(d[1..], now);
    }
  }

  lemma {:induction false} SamePatches(d: Dict<Signed>, d': Dict<Signed>, now: int, calls: seq<Json>)
    requires SameLive(d, d', now)
    ensures PatchedCalls(d', now, calls) == PatchedCalls(d, now, calls)
    ensures PatchCount(d', now, calls) == PatchCount(d, now, calls)
  {
    if calls != [] {
      SamePatches(d, d', now, calls[..|calls| - 1]);
    }
  }
}
