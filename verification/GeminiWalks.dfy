/** What the walks over responses and requests find and change, told by the tool calls themselves. */
module GeminiWalks {
  import opened Options
  import opened GeminiThought
  import opened GeminiRuns

  // ----- Extraction -----------------------------------------------------------------------------------

  /** A signature laid claim to for an id. */
  type Claims = seq<(string, string)>

  /** Every identified call with a signature of its own claims it for its id. */
  function OwnClaims(calls: seq<Json>): Claims {
    if calls == [] then []
    else
      OwnClaims(calls[..|calls| - 1])
      + match (Field(calls[|calls| - 1], "id"), ReadSignature(calls[|calls| - 1]))
        case (Str(id), Some(signature)) => if id == "" then [] else [(id, signature)]
        case _ => []
  }

  /** The signature of a message is claimed for every identified call in it. */
  function SharedClaims(calls: seq<Json>, signature: string): Claims {
    if calls == [] then []
    else
      SharedClaims(calls[..|calls| - 1], signature)
      + match Field(calls[|calls| - 1], "id")
        case Str(id) => if id == "" then [] else [(id, signature)]
        case _ => []
  }

  /** In a choice the calls of the message come first, then the message itself, then the streaming delta. */
  function ChoiceClaims(choice: Json): Claims {
    var message, delta := Field(choice, "message"), Field(choice, "delta");
    var calls := Items(Field(message, "tool_calls"));
    OwnClaims(calls)
    + (match ReadSignature(message)
       case None => []
       case Some(signature) => SharedClaims(calls, signature))
    + OwnClaims(Items(Field(delta, "tool_calls")))
  }

  function AllClaims(choices: seq<Json>): Claims {
    if choices == [] then [] else AllClaims(choices[..|choices| - 1]) + ChoiceClaims(choices[|choices| - 1])
  }

  function LastClaim(claims: Claims, id: string): Option<string> {
    if claims == [] then None
    else if claims[|claims| - 1].0 == id then Some(claims[|claims| - 1].1)
    else LastClaim(claims[..|claims| - 1], id)
  }

  /** The dictionary holds, for every id, the last claim there is, or else what `into` had. */
  ghost predicate Holds(found: Dict<string>, claims: Claims, into: Dict<string>) {
    forall id :: Lookup(found, id) == if LastClaim(claims, id).Some? then LastClaim(claims, id) else Lookup(into, id)
  }

  lemma {:induction false} LastOfBoth(a: Claims, b: Claims, id: string)
    ensures LastClaim(a + b, id) == if LastClaim(b, id).Some? then LastClaim(b, id) else LastClaim(a, id)
    decreases |b|
  {
    if b == [] {
      assert a + b == a;
    } else {
      assert (a + b)[..|a + b| - 1] == a + b[..|b| - 1];
      LastOfBoth(a, b[..|b| - 1], id);
    }
  }

  lemma HoldsThrough(found: Dict<string>, b: Claims, middle: Dict<string>, a: Claims, into: Dict<string>)
    requires Holds(middle, a, into) && Holds(found, b, middle)
    ensures Holds(found, a + b, into)
  {
    forall id {
      LastOfBoth(a, b, id);
    }
  }

  lemma HoldsPut(before: Dict<string>, claims: Claims, into: Dict<string>, id: string, signature: string)
    requires Holds(before, claims, into)
    ensures Holds(Put(before, id, signature), claims + [(id, signature)], into)
  {
    forall other {
      LookupPut(before, id, signature, other);
    }
    assert (claims + [(id, signature)])[..|claims|] == claims;
  }

  lemma {:induction false} OwnAreHeld(calls: seq<Json>, into: Dict<string>)
    ensures Holds(CollectCalls(calls, into), OwnClaims(calls), into)
  {
    hide Holds, ReadSignature;
    if calls == [] {
      NothingHeld(into);
    } else {
      var call := calls[|calls| - 1];
      OwnAreHeld(calls[..|calls| - 1], into);
      var claims := OwnClaims(calls[..|calls| - 1]);
      if ReadSignature(call).Some? && CallId(call) != "" {
        HoldsPut(CollectCalls(calls[..|calls| - 1], into), claims, into, CallId(call), ReadSignature(call).value);
      } else {
        assert claims + [] == claims;
      }
    }
  }

  lemma NothingHeld(into: Dict<string>)
    ensures Holds(into, [], into)
  {
  }

  lemma {:induction false} SharedAreHeld(calls: seq<Json>, signature: string, into: Dict<string>)
    ensures Holds(SpreadOverCalls(calls, signature, into), SharedClaims(calls, signature), into)
  {
    hide Holds;
    if calls == [] {
      NothingHeld(into);
    } else {
      var call := calls[|calls| - 1];
      SharedAreHeld(calls[..|calls| - 1], signature, into);
      var claims := SharedClaims(calls[..|calls| - 1], signature);
      if CallId(call) != "" {
        HoldsPut(SpreadOverCalls(calls[..|calls| - 1], signature, into), claims, into, CallId(call), signature);
      } else {
        assert claims + [] == claims;
      }
    }
  }

  lemma ChoiceIsHeld(choice: Json, into: Dict<string>)
    ensures Holds(CollectChoice(choice, into), ChoiceClaims(choice), into)
  {
    hide Holds, ReadSignature, CollectCalls, SpreadOverCalls, OwnClaims, SharedClaims;
    var message, delta := Field(choice, "message"), Field(choice, "delta");
    var calls, partial := Items(Field(message, "tool_calls")), Items(Field(delta, "tool_calls"));
    var own := CollectCalls(calls, into);
    OwnAreHeld(calls, into);
    var spread, claims := own, OwnClaims(calls);
    if ReadSignature(message).Some? {
      var signature := ReadSignature(message).value;
      spread := SpreadOverCalls(calls, signature, own);
      SharedAreHeld(calls, signature, own);
      HoldsThrough(spread, SharedClaims(calls, signature), own, claims, into);
      claims := claims + SharedClaims(calls, signature);
    } else {
      assert claims + [] == claims;
    }
    OwnAreHeld(partial, spread);
    HoldsThrough(CollectCalls(partial, spread), OwnClaims(partial), spread, claims, into);
  }

  lemma {:induction false} ChoicesAreHeld(choices: seq<Json>)
    ensures Holds(CollectChoices(choices), AllClaims(choices), [])
  {
    hide Holds, CollectChoice, ChoiceClaims;
    if choices == [] {
      NothingHeld([]);
    } else {
      var before, last := choices[..|choices| - 1], choices[|choices| - 1];
      ChoicesAreHeld(before);
      ChoiceIsHeld(last, CollectChoices(before));
      HoldsThrough(CollectChoices(choices), ChoiceClaims(last), CollectChoices(before), AllClaims(before), []);
    }
  }

  /** Extraction finds for every id the last signature the response claims for it, and nothing for an id
      that no claim names. */
  lemma ExtractionFindsLastClaim(response: Json, id: string)
    ensures Lookup(Extracted(response), id) == LastClaim(AllClaims(Items(Field(response, "choices"))), id)
  {
    ChoicesAreHeld(Items(Field(response, "choices")));
  }

  // ----- Injection ------------------------------------------------------------------------------------

  /** The call can take a signature from the cache: it has an id, no signature, and the cache has a live one
      for the id that is not empty. */
  ghost predicate Wants(d: Dict<Signed>, now: int, call: Json) {
    && call.Obj? && ReadSignature(call) == None
    && Field(call, "id").Str? && Field(call, "id").s != ""
    && exists entry :: Lookup(d, Field(call, "id").s) == Some(entry) && entry.expires >= now && entry.signature != ""
  }

  /** The number of places where two lists differ. */
  function Differences(before: seq<Json>, after: seq<Json>): nat
    requires |before| == |after|
  {
    if before == [] then 0
    else
      var n := |before| - 1;
      Differences(before[..n], after[..n]) + if before[n] != after[n] then 1 else 0
  }

  lemma PatchedIff(d: Dict<Signed>, now: int, call: Json)
    ensures Patchable(d, now, call) <==> Wants(d, now, call)
    ensures PatchedCall(d, now, call) != call <==> Wants(d, now, call)
    ensures Wants(d, now, call) ==>
              ReadSignature(PatchedCall(d, now, call)) == Some(Lookup(d, Field(call, "id").s).value.signature)
  {
    hide WriteSignature, ReadSignature;
    if Patchable(d, now, call) {
      ReadAfterWrite(call, Found(d, CallId(call), now).value);
    }
  }

  /** Injection changes exactly the calls that want a signature, each to carry the cached one, and returns
      how many there were. */
  lemma {:induction false} CountIsDifferences(d: Dict<Signed>, now: int, calls: seq<Json>)
    ensures |PatchedCalls(d, now, calls)| == |calls|
    ensures forall i :: 0 <= i < |calls| ==> (PatchedCalls(d, now, calls)[i] != calls[i] <==> Wants(d, now, calls[i]))
    ensures PatchCount(d, now, calls) == Differences(calls, PatchedCalls(d, now, calls))
  {
    hide Wants, PatchedCall, Patchable;
    if calls != [] {
      var n := |calls| - 1;
      CountIsDifferences(d, now, calls[..n]);
      assert PatchedCalls(d, now, calls)[..n] == PatchedCalls(d, now, calls[..n]);
      PatchedIff(d, now, calls[n]);
    }
  }

  /** A message is looked into exactly when it is an assistant's and lists tool calls.  Nothing but that list
      changes in it, and no other message changes at all. */
  lemma OnlyAssistantCallsChange(d: Dict<Signed>, now: int, message: Json)
    ensures var after := PatchedMessage(d, now, message);
            if Field(message, "role") == Str("assistant") && Field(message, "tool_calls").Arr? then
              && Field(after, "tool_calls") == Arr(PatchedCalls(d, now, Field(message, "tool_calls").items))
              && forall key :: key != "tool_calls" ==> Field(after, key) == Field(message, key)
            else after == message
  {
  }

  lemma {:induction false} SameIsNoDifference(calls: seq<Json>)
    ensures Differences(calls, calls) == 0
  {
    if calls != [] {
      SameIsNoDifference(calls[..|calls| - 1]);
    }
  }

  /** The number returned for a request is the number of calls that differ afterwards. */
  lemma {:induction false} RequestCountIsDifferences(d: Dict<Signed>, now: int, messages: seq<Json>)
    ensures MessagesPatchCount(d, now, messages) == CallDifferences(d, now, messages)
  {
    hide PatchCount, PatchedCalls, Differences;
    if messages != [] {
      var last := messages[|messages| - 1];
      RequestCountIsDifferences(d, now, messages[..|messages| - 1]);
      CountIsDifferences(d, now, Items(Field(last, "tool_calls")));
      OnlyAssistantCallsChange(d, now, last);
      SameIsNoDifference(Items(Field(last, "tool_calls")));
    }
  }

  /** The calls that differ in the messages of a request after injection. */
  function CallDifferences(d: Dict<Signed>, now: int, messages: seq<Json>): nat {
    if messages == [] then 0
    else
      var last := messages[|messages| - 1];
      var before, after := Items(Field(last, "tool_calls")), Items(Field(PatchedMessage(d, now, last), "tool_calls"));
      CallDifferences(d, now, messages[..|messages| - 1]) + if |before| == |after| then Differences(before, after) else 0
  }
}
