/** The hash chain of the audit log: appending a record, verifying a file, and what a verified
    file says.

    The digests, the JSON codec and str() are parameters.  Nothing is assumed about collisions:
    where a property rests on their absence, the collision is named in its conclusion. */
module AuditChain {
  import opened Options
  import opened AuditScan
  import opened AuditBounds

  type Payload = map<string, Value>

  const GENESIS: string := "0000000000000000000000000000000000000000000000000000000000000000"
  const MAX_KEY_CHARS: nat := 128

  /** `sha` and `hmac` digest a previous hash together with the canonical text of a payload; `blank`
      recognises the lines that strip() empties once they are text. */
  datatype Suite = Suite(
    sha: (string, Payload) -> string,
    hmac: (string, Payload) -> string,
    canonicalSize: Payload -> nat,
    encode: Payload -> Bytes,
    decode: Bytes -> Option<Payload>,
    blank: Bytes -> bool,
    show: Value -> string)

  ghost predicate ProperPayload(p: Payload) {
    forall k :: k in p ==> Proper(p[k])
  }

  /** A payload as it reads back: text with sorted keys forgets the order of insertion. */
  function CanonOf(p: Payload): Payload {
    map k | k in p :: Canon(p[k])
  }

  /** Digests are 64 hex digits and, like the text they are taken of, do not depend on the order in
      which nested keys were inserted.  JSON text reads back in canonical form, is one line without a
      raw line break that is not blank, and ends in a brace. */
  ghost predicate WellBehaved(s: Suite) {
    && (forall prev, p :: |s.sha(prev, p)| == 64)
    && (forall prev, p :: |s.hmac(prev, p)| == 64)
    && (forall prev, p :: ProperPayload(p) ==> s.sha(prev, CanonOf(p)) == s.sha(prev, p))
    && (forall prev, p :: ProperPayload(p) ==> s.hmac(prev, CanonOf(p)) == s.hmac(prev, p))
    && (forall p :: ProperPayload(p) ==> s.decode(s.encode(p)) == Some(CanonOf(p)))
    && (forall p :: |s.encode(p)| > 0 && FirstBreak(s.encode(p)) == |s.encode(p)|
                    && !IsSpace(s.encode(p)[|s.encode(p)| - 1]) && !s.blank(s.encode(p)))
  }

  datatype Event = Event(items: seq<(string, Value)>, timestamp: string, policyVersion: string)

  // ----- One record -------------------------------------------------------------------------

  /** The first items of the event with bounded keys and values; later duplicates win. */
  function EventFields(s: Suite, items: seq<(string, Value)>): Payload {
    if items == [] then map[]
    else
      var last := items[|items| - 1];
      EventFields(s, items[..|items| - 1])[Take(last.0, MAX_KEY_CHARS) := Bounded(s.show, last.1, 0)]
  }

  function SetDefault(p: Payload, key: string, v: Value): Payload {
    if key in p then p else p[key := v]
  }

  /** The payload whose canonical text is digested. */
  function Unsigned(s: Suite, keyed: bool, e: Event, previous: string): Payload {
    var fields := EventFields(s, Take(e.items, MAX_ITEMS));
    SetDefault(SetDefault(fields, "timestamp", Str(e.timestamp)), "policy_version", Str(e.policyVersion))
      ["previous_hash" := Str(previous)]
      ["chain_version" := Num(if keyed then 2 else 1)]
      ["chain_mode" := Str(if keyed then "hmac" else "sha256")]
  }

  function Digest(s: Suite, keyed: bool, previous: string, p: Payload): string {
    if keyed then s.hmac(previous, p) else s.sha(previous, p)
  }

  function Signed(s: Suite, keyed: bool, e: Event, previous: string): Payload {
    var p := Unsigned(s, keyed, e, previous);
    p["hash" := Str(Digest(s, keyed, previous, p))]
  }

  // ----- Appending --------------------------------------------------------------------------

  datatype AppendResult = Written(payload: Payload) | TooLarge | Corrupt | ScanFailed

  /** The hash the next record has to name, None when the last line is no chain record. */
  function RecordHash(s: Suite, line: Bytes): Option<string> {
    var record := s.decode(line);
    if record.Some? && "hash" in record.value && record.value["hash"].Str? && |record.value["hash"].s| == 64
    then Some(record.value["hash"].s) else None
  }

  function Appended(s: Suite, keyed: bool, file: Bytes, e: Event): (AppendResult, Bytes) {
    var last := Verdict(file);
    if last.LimitExceeded? then (ScanFailed, file)
    else
      var previous := if last.Nothing? then Some(GENESIS) else RecordHash(s, last.bytes);
      if previous == None then (Corrupt, file)
      else
        var payload := Signed(s, keyed, e, previous.value);
        if s.canonicalSize(Unsigned(s, keyed, e, previous.value)) > MAX_RECORD_BYTES
           || |s.encode(payload)| > MAX_RECORD_BYTES
        then (TooLarge, file)
        else (Written(payload), file + s.encode(payload) + [LF])
  }

  // ----- What a record says of its event -------------------------------------------------------

  /** The keys the logger sets itself, whatever the event says. */
  const RESERVED: set<string> := {"previous_hash", "chain_version", "chain_mode", "hash"}

  /** A key as it is written: its first 128 characters. */
  function CutKey(key: string): string { if |key| <= 128 then key else key[..128] }

  /** Of these items, i is the last one that is written under the key. */
  ghost predicate LastUnder(items: seq<(string, Value)>, key: string, i: nat) {
    && i < |items| && CutKey(items[i].0) == key
    && forall j :: i < j < |items| ==> CutKey(items[j].0) != key
  }

  ghost predicate Mentioned(items: seq<(string, Value)>, key: string) {
    exists i :: 0 <= i < |items| && CutKey(items[i].0) == key
  }

  /** The items of an event that are written: the first 32. */
  function FirstItems(items: seq<(string, Value)>): seq<(string, Value)> {
    if |items| <= 32 then items else items[..32]
  }

  /** The caller's event brings a field of its own called "hash". */
  ghost predicate HasHashKey(e: Event) {
    Mentioned(FirstItems(e.items), "hash")
  }

  /** What the record has under a key that is not reserved: the bounded value of the last item with that
      key, a default for the two keys that have one, and nothing under any other key. */
  ghost predicate CarriesKey(s: Suite, e: Event, payload: Payload, key: string) {
    var items := FirstItems(e.items);
    && (forall i: nat :: LastUnder(items, key, i) ==>
          key in payload && payload[key] == Bounded(s.show, items[i].1, 0))
    && (!Mentioned(items, key) ==>
          if key == "timestamp" then IsText(payload, key, e.timestamp)
          else if key == "policy_version" then IsText(payload, key, e.policyVersion)
          else key !in payload)
  }

  ghost predicate Carries(s: Suite, e: Event, payload: Payload) {
    forall key :: if key in RESERVED then key in payload else CarriesKey(s, e, payload, key)
  }

  lemma {:induction false} FieldUnder(s: Suite, items: seq<(string, Value)>, key: string, i: nat)
    requires LastUnder(items, key, i)
    ensures key in EventFields(s, items) && EventFields(s, items)[key] == Bounded(s.show, items[i].1, 0)
  {
    var before := items[..|items| - 1];
    if i < |before| {
      assert CutKey(items[|items| - 1].0) != key;
      assert forall j :: 0 <= j < |before| ==> before[j] == items[j];
      FieldUnder(s, before, key, i);
    }
  }

  lemma {:induction false} NoFieldUnder(s: Suite, items: seq<(string, Value)>, key: string)
    requires !Mentioned(items, key)
    ensures key !in EventFields(s, items)
  {
    if items != [] {
      var before := items[..|items| - 1];
      assert CutKey(items[|items| - 1].0) != key;
      forall j | 0 <= j < |before| ensures CutKey(before[j].0) != key {
        assert before[j] == items[j];
      }
      NoFieldUnder(s, before, key);
    }
  }

  lemma {:induction false} MentionedIsField(s: Suite, items: seq<(string, Value)>, key: string)
    requires Mentioned(items, key)
    ensures key in EventFields(s, items)
  {
    var n := |items| - 1;
    if CutKey(items[n].0) != key {
      var i :| 0 <= i < |items| && CutKey(items[i].0) == key;
      assert items[..n][i] == items[i];
      MentionedIsField(s, items[..n], key);
    }
  }

  /** The key that is digested on the way in and dropped on the way out is there before the hash is set
      exactly when the event brings one. */
  lemma UnsignedHashIff(s: Suite, keyed: bool, e: Event, previous: string)
    ensures "hash" in Unsigned(s, keyed, e, previous) <==> HasHashKey(e)
  {
    hide EventFields, Mentioned;
    var items := FirstItems(e.items);
    assert items == Take(e.items, MAX_ITEMS);
    if HasHashKey(e) {
      MentionedIsField(s, items, "hash");
    } else {
      NoFieldUnder(s, items, "hash");
    }
  }

  lemma SignedCarries(s: Suite, keyed: bool, e: Event, previous: string)
    ensures Carries(s, e, Signed(s, keyed, e, previous))
  {
    hide EventFields, Mentioned;
    var items, payload := FirstItems(e.items), Signed(s, keyed, e, previous);
    assert items == Take(e.items, MAX_ITEMS);
    forall key | key !in RESERVED ensures CarriesKey(s, e, payload, key) {
      forall i: nat | LastUnder(items, key, i) ensures key in payload && payload[key] == Bounded(s.show, items[i].1, 0) {
        FieldUnder(s, items, key, i);
      }
      if !Mentioned(items, key) {
        NoFieldUnder(s, items, key);
      }
    }
  }

  /** The line is JSON with a text of 64 characters under "hash". */
  ghost predicate IsChainRecord(s: Suite, line: Bytes, hash: string) {
    && s.decode(line).Some? && IsText(s.decode(line).value, "hash", hash) && |hash| == 64
  }

  ghost predicate NoChainRecord(s: Suite, line: Bytes) {
    forall hash :: !IsChainRecord(s, line, hash)
  }

  /** An append to any file, built by appends or not: what it writes goes after everything that is there and
      names the hash in the last non-blank line, or the genesis value when there is none.  It refuses a
      file whose last line is no chain record or too far back to find, and a refusal changes nothing. */
  lemma AppendToAnyFile(s: Suite, keyed: bool, file: Bytes, e: Event)
    ensures var r, after := Appended(s, keyed, file, e).0, Appended(s, keyed, file, e).1;
            var lines := Lines(file);
            && (if r.Written? then after == file + s.encode(r.payload) + [LF] else after == file)
            && (r.ScanFailed? <==> Unrecoverable(file))
            && (r.Corrupt? <==> !Unrecoverable(file) && lines != [] && NoChainRecord(s, lines[|lines| - 1]))
            && (r.Written? ==>
                  exists previous :: IsText(r.payload, "previous_hash", previous)
                                     && if lines == [] then previous == GENESIS
                                        else IsChainRecord(s, lines[|lines| - 1], previous))
  {
    hide Lines, Unrecoverable, EventFields;
    var lines, r := Lines(file), Appended(s, keyed, file, e).0;
    if !Unrecoverable(file) {
      var previous := if lines == [] then Some(GENESIS) else RecordHash(s, lines[|lines| - 1]);
      if lines != [] {
        ChainRecordIff(s, lines[|lines| - 1]);
      }
      if r.Written? {
        assert IsText(r.payload, "previous_hash", previous.value);
      }
    }
  }

  lemma ChainRecordIff(s: Suite, line: Bytes)
    ensures RecordHash(s, line) == None <==> NoChainRecord(s, line)
    ensures RecordHash(s, line).Some? ==> IsChainRecord(s, line, RecordHash(s, line).value)
  {
    var record := s.decode(line);
    if record.Some? && "hash" in record.value && record.value["hash"].Str? && |record.value["hash"].s| == 64 {
      assert IsChainRecord(s, line, record.value["hash"].s);
    }
  }

  /** An event that fits: few items, short keys that differ, values within the bounds. */
  ghost predicate Fits(e: Event) {
    && |e.items| <= 32
    && forall i :: 0 <= i < |e.items| ==>
         && |e.items[i].0| <= 128 && Within(e.items[i].1, 0)
         && forall j :: i < j < |e.items| ==> e.items[i].0 != e.items[j].0
  }

  lemma FittingItem(s: Suite, e: Event, payload: Payload, i: nat)
    requires Carries(s, e, payload) && Fits(e) && i < |e.items| && e.items[i].0 !in RESERVED
    ensures e.items[i].0 in payload && payload[e.items[i].0] == e.items[i].1
  {
    hide Bounded, Within;
    var key := e.items[i].0;
    assert CarriesKey(s, e, payload, key);
    assert LastUnder(e.items, key, i);
    WithinIsFixed(s.show, e.items[i].1, 0);
  }

  predicate HasItem(e: Event, key: string) {
    exists i :: 0 <= i < |e.items| && e.items[i].0 == key
  }

  lemma FittingKey(s: Suite, e: Event, payload: Payload, key: string)
    requires Carries(s, e, payload) && Fits(e) && key !in RESERVED && !HasItem(e, key)
    ensures if key == "timestamp" then IsText(payload, key, e.timestamp)
            else if key == "policy_version" then IsText(payload, key, e.policyVersion)
            else key !in payload
  {
    hide Bounded, Within;
    assert CarriesKey(s, e, payload, key);
    assert !Mentioned(e.items, key);
  }

  /** A record of an event that fits has every item of it as it is, reserved keys aside, and no other key
      than these, the reserved ones and the two defaults, which stand where the event has none. */
  lemma FittingEventIsKept(s: Suite, e: Event, payload: Payload)
    requires Carries(s, e, payload) && Fits(e)
    ensures forall i :: 0 <= i < |e.items| && e.items[i].0 !in RESERVED ==>
              e.items[i].0 in payload && payload[e.items[i].0] == e.items[i].1
    ensures forall key :: key in payload ==> key in RESERVED + {"timestamp", "policy_version"} || HasItem(e, key)
    ensures !HasItem(e, "timestamp") ==> IsText(payload, "timestamp", e.timestamp)
    ensures !HasItem(e, "policy_version") ==> IsText(payload, "policy_version", e.policyVersion)
  {
    hide Carries, Fits, HasItem;
    forall i | 0 <= i < |e.items| && e.items[i].0 !in RESERVED
      ensures e.items[i].0 in payload && payload[e.items[i].0] == e.items[i].1
    {
      FittingItem(s, e, payload, i);
    }
    forall key | key !in RESERVED && !HasItem(e, key)
      ensures key in payload ==> key in {"timestamp", "policy_version"}
      ensures key == "timestamp" ==> IsText(payload, key, e.timestamp)
      ensures key == "policy_version" ==> IsText(payload, key, e.policyVersion)
    {
      FittingKey(s, e, payload, key);
    }
  }

  // ----- Verifying --------------------------------------------------------------------------

  predicate IsText(p: Payload, key: string, text: string) {
    key in p && p[key] == Str(text)
  }

  /** The mode a record claims; a record without one counts as plain SHA-256. */
  function Mode(body: Payload): Value {
    if "chain_mode" in body then body["chain_mode"] else Str("sha256")
  }

  /** What the verifier recomputes for the body of a record. */
  function Recomputed(s: Suite, keyed: bool, previous: string, body: Payload): string {
    if Mode(body) == Str("hmac") then Digest(s, keyed, previous, body) else s.sha(previous, body)
  }

  /** A record follows `previous` in the chain. */
  predicate Link(s: Suite, keyed: bool, record: Payload, previous: string) {
    && "hash" in record
    && var body := record - {"hash"};
       && IsText(body, "previous_hash", previous)
       && (Mode(body) == Str("sha256") || Mode(body) == Str("hmac"))
       && record["hash"] == Str(Recomputed(s, keyed, previous, body))
  }

  function HashText(record: Payload): string {
    if "hash" in record && record["hash"].Str? then record["hash"].s else ""
  }

  /** The hash that record i has to name. */
  function PreviousHash(records: seq<Payload>, i: nat): string
    requires i <= |records|
  {
    if i == 0 then GENESIS else HashText(records[i - 1])
  }

  ghost predicate LinkAt(s: Suite, keyed: bool, records: seq<Payload>, i: nat) {
    i < |records| && Link(s, keyed, records[i], PreviousHash(records, i))
  }

  /** Every record names the hash of the one before it and carries its own. */
  ghost predicate Chain(s: Suite, keyed: bool, records: seq<Payload>) {
    forall i :: 0 <= i < |records| ==> LinkAt(s, keyed, records, i)
  }

  lemma LinkHere(s: Suite, keyed: bool, records: seq<Payload>, i: nat)
    requires i < |records|
    ensures LinkAt(s, keyed, records, i) <==> Link(s, keyed, records[i], PreviousHash(records, i))
  {
  }

  /** The records of a file up to the first line that is not JSON. */
  function Records(s: Suite, lines: seq<Bytes>): (r: seq<Payload>)
    ensures |r| <= |lines|
    ensures forall i :: 0 <= i < |r| ==> s.decode(lines[i]) == Some(r[i])
    ensures |r| < |lines| ==> s.decode(lines[|r|]) == None
  {
    if lines == [] || s.decode(lines[0]) == None then []
    else [s.decode(lines[0]).value] + Records(s, lines[1..])
  }

  /** The lines the verifier looks at: it reads the file as text and skips what strip() empties, which
      is more than the ASCII blanks. */
  function TextLines(s: Suite, lines: seq<Bytes>): seq<Bytes> {
    if lines == [] then []
    else (if s.blank(lines[0]) then [] else [lines[0]]) + TextLines(s, lines[1..])
  }

  class AuditLogger {
    const suite: Suite
    const keyed: bool
    var file: Bytes

    constructor (suite: Suite, keyed: bool, file: Bytes)
      ensures this.suite == suite && this.keyed == keyed && this.file == file
    {
      this.suite, this.keyed, this.file := suite, keyed, file;
    }

    /** Appends one event under the file lock; a refused event leaves the file as it was. */
    method Append(e: Event) returns (r: AppendResult)
      modifies this
      ensures (r, file) == Appended(suite, keyed, old(file), e)
      ensures r.Written? ==> Carries(suite, e, r.payload)
    {
      hide Carries, EventFields;
      var last, _ := ScanBackwards(file);
      if last.LimitExceeded? {
        return ScanFailed;
      }
      var previous := GENESIS;
      if last.Line? {
        var candidate := RecordHash(suite, last.bytes);
        if candidate == None {
          return Corrupt;
        }
        previous := candidate.value;
      }
      var payload := Unsigned(suite, keyed, e, previous);
      if suite.canonicalSize(payload) > MAX_RECORD_BYTES {
        return TooLarge;
      }
      payload := payload["hash" := Str(Digest(suite, keyed, previous, payload))];
      var serialized := suite.encode(payload);
      if |serialized| > MAX_RECORD_BYTES {
        return TooLarge;
      }
      file := file + serialized + [LF];
      SignedCarries(suite, keyed, e, previous);
      r := Written(payload);
    }

    /** Walks the links.  The verdict is true exactly for a file of records that form a chain, and
        the count is the number of links before the first bad line.  A missing file verifies like an
        empty one. */
    method VerifyFile() returns (valid: bool, count: nat)
      ensures var lines := TextLines(suite, Lines(file));
              var records := Records(suite, lines);
              && (valid <==> |records| == |lines| && Chain(suite, keyed, records))
              && count <= |records|
              && (forall i :: 0 <= i < count ==> LinkAt(suite, keyed, records, i))
              && (valid ==> count == |lines|)
              && (!valid && count < |records| ==> !LinkAt(suite, keyed, records, count))
    {
      hide Lines, Link, LinkAt, TextLines, HashText;
      var lines := TextLines(suite, Lines(file));
      ghost var records := Records(suite, lines);
      var previous := GENESIS;
      count := 0;
      while count < |lines|
        invariant count <= |records|
        invariant previous == PreviousHash(records, count)
        invariant forall i :: 0 <= i < count ==> LinkAt(suite, keyed, records, i)
      {
        var record := suite.decode(lines[count]);
        if record == None {
          return false, count;
        }
        assert count < |records| && records[count] == record.value;
        LinkHere(suite, keyed, records, count);
        if !Link(suite, keyed, record.value, previous) {
          return false, count;
        }
        previous := HashText(record.value);
        count := count + 1;
      }
      valid := true;
    }
  }

  // ----- Logs built by appending -------------------------------------------------------------

  /** A request to append; the process that serves it may or may not have an HMAC key. */
  datatype Request = Request(keyed: bool, event: Event)

  function FileAfter(s: Suite, requests: seq<Request>): Bytes {
    if requests == [] then []
    else
      var last := requests[|requests| - 1];
      Appended(s, last.keyed, FileAfter(s, requests[..|requests| - 1]), last.event).1
  }

  function ResultOf(s: Suite, requests: seq<Request>, i: nat): AppendResult
    requires i < |requests|
  {
    Appended(s, requests[i].keyed, FileAfter(s, requests[..i]), requests[i].event).0
  }

  /** The records that were written, in order. */
  function WrittenRecords(s: Suite, requests: seq<Request>): seq<Payload> {
    if requests == [] then []
    else
      var n := |requests| - 1;
      var r := ResultOf(s, requests, n);
      WrittenRecords(s, requests[..n]) + if r.Written? then [r.payload] else []
  }

  function Encodings(s: Suite, records: seq<Payload>): seq<Bytes> {
    seq(|records|, i requires 0 <= i < |records| => s.encode(records[i]))
  }

  ghost predicate GoodRecord(s: Suite, record: Payload) {
    && RecordLine(s.encode(record)) && ProperPayload(record)
    && "hash" in record && record["hash"].Str? && |record["hash"].s| == 64
  }

  lemma {:induction false} FieldsAreProper(s: Suite, items: seq<(string, Value)>)
    ensures ProperPayload(EventFields(s, items))
  {
    if items != [] {
      var last := items[|items| - 1];
      FieldsAreProper(s, items[..|items| - 1]);
      BoundedIsWithin(s.show, last.1, 0);
      WithinIsProper(Bounded(s.show, last.1, 0), 0);
    }
  }

  lemma SignedIsProper(s: Suite, keyed: bool, e: Event, previous: string)
    ensures ProperPayload(Unsigned(s, keyed, e, previous)) && ProperPayload(Signed(s, keyed, e, previous))
  {
    hide EventFields;
    FieldsAreProper(s, Take(e.items, MAX_ITEMS));
  }

  lemma SignedIsGood(s: Suite, keyed: bool, e: Event, previous: string)
    requires WellBehaved(s) && |s.encode(Signed(s, keyed, e, previous))| <= MAX_RECORD_BYTES
    ensures GoodRecord(s, Signed(s, keyed, e, previous))
  {
    SignedIsProper(s, keyed, e, previous);
  }

  /** Reading a good record back finds the hash that was written. */
  lemma ReadBackHash(s: Suite, record: Payload)
    requires WellBehaved(s) && GoodRecord(s, record)
    ensures RecordHash(s, s.encode(record)) == Some(HashText(record))
    ensures HashText(CanonOf(record)) == HashText(record)
  {
    assert CanonOf(record)["hash"] == record["hash"];
  }

  lemma EncodingsSnoc(s: Suite, records: seq<Payload>, record: Payload)
    ensures Encodings(s, records + [record]) == Encodings(s, records) + [s.encode(record)]
    ensures LogFile(Encodings(s, records + [record])) == LogFile(Encodings(s, records)) + s.encode(record) + [LF]
  {
    var e := Encodings(s, records + [record]);
    assert e[..|records|] == Encodings(s, records);
  }

  /** On a log of good records an append finds the hash of the record written last, so the only way
      it can fail is a record over the size limit. */
  lemma AppendToGoodLog(s: Suite, keyed: bool, records: seq<Payload>, e: Event)
    requires WellBehaved(s) && forall i :: 0 <= i < |records| ==> GoodRecord(s, records[i])
    ensures var file := LogFile(Encodings(s, records));
            var previous := PreviousHash(records, |records|);
            var payload := Signed(s, keyed, e, previous);
            Appended(s, keyed, file, e) ==
            if s.canonicalSize(Unsigned(s, keyed, e, previous)) > MAX_RECORD_BYTES
               || |s.encode(payload)| > MAX_RECORD_BYTES
            then (TooLarge, file)
            else (Written(payload), LogFile(Encodings(s, records + [payload])))
  {
    hide Lines, LogFile, GoodRecord, RecordHash, Signed, Unsigned, RecordLine, Unrecoverable, WellBehaved;
    var lines := Encodings(s, records);
    GoodAreRecordLines(s, records);
    LinesOfLog(lines);
    BoundedLogRecoverable(lines);
    if records != [] {
      ReadBackHash(s, records[|records| - 1]);
    }
    EncodingsSnoc(s, records, Signed(s, keyed, e, PreviousHash(records, |records|)));
  }

  /** The file holds the written records and nothing else. */
  lemma {:induction false} FileHoldsWritten(s: Suite, requests: seq<Request>)
    requires WellBehaved(s)
    ensures forall i :: 0 <= i < |WrittenRecords(s, requests)| ==> GoodRecord(s, WrittenRecords(s, requests)[i])
    ensures FileAfter(s, requests) == LogFile(Encodings(s, WrittenRecords(s, requests)))
  {
    hide LogFile, Appended;
    if requests == [] {
      LogOfNothing();
      assert Encodings(s, WrittenRecords(s, requests)) == [];
    } else {
      var n := |requests| - 1;
      FileHoldsWritten(s, requests[..n]);
      var records := WrittenRecords(s, requests[..n]);
      AppendToGoodLog(s, requests[n].keyed, records, requests[n].event);
      var previous := PreviousHash(records, |records|);
      if ResultOf(s, requests, n).Written? {
        SignedIsGood(s, requests[n].keyed, requests[n].event, previous);
      } else {
        assert WrittenRecords(s, requests) == records;
      }
    }
  }

  lemma LogOfNothing()
    ensures LogFile([]) == []
  {
  }

  /** What the verifier makes of a record the logger has just written: the record is good unless the
      event had a "hash" field, which is digested on the way in and dropped on the way out.  Such a
      record verifies only if the digests of two different texts agree. */
  lemma WrittenLinkIff(s: Suite, keyed: bool, verifierKeyed: bool, e: Event, previous: string)
    requires verifierKeyed || !keyed
    ensures Link(s, verifierKeyed, Signed(s, keyed, e, previous), previous) <==>
            var p := Unsigned(s, keyed, e, previous);
            Digest(s, keyed, previous, p) == Digest(s, keyed, previous, p - {"hash"})
    ensures !HasHashKey(e) ==> Link(s, verifierKeyed, Signed(s, keyed, e, previous), previous)
    ensures HasHashKey(e) ==> Unsigned(s, keyed, e, previous) - {"hash"} != Unsigned(s, keyed, e, previous)
  {
    var p := Unsigned(s, keyed, e, previous);
    var record := Signed(s, keyed, e, previous);
    UnsignedHashIff(s, keyed, e, previous);
    hide EventFields, HasHashKey;
    assert record - {"hash"} == p - {"hash"};
    if !HasHashKey(e) {
      assert p - {"hash"} == p;
    } else {
      assert "hash" in p;
    }
  }

  /** A record links exactly when its canonical form does: nothing the verifier looks at depends on
      the order of nested keys. */
  lemma CanonLinksIff(s: Suite, keyed: bool, record: Payload, previous: string)
    requires WellBehaved(s) && ProperPayload(record)
    ensures Link(s, keyed, CanonOf(record), previous) <==> Link(s, keyed, record, previous)
  {
    if "hash" in record {
      var body := record - {"hash"};
      assert CanonOf(record) - {"hash"} == CanonOf(body);
      assert ProperPayload(body);
      assert Mode(CanonOf(body)) == Str("hmac") <==> Mode(body) == Str("hmac");
    }
  }

  /** The requests that were served, in order: one for each written record. */
  function ServedRequests(s: Suite, requests: seq<Request>): seq<Request> {
    if requests == [] then []
    else
      var n := |requests| - 1;
      ServedRequests(s, requests[..n]) + if ResultOf(s, requests, n).Written? then [requests[n]] else []
  }

  /** Each written record is what its request asks for after the hash of the record before it. */
  ghost predicate Follows(s: Suite, records: seq<Payload>, served: seq<Request>, i: nat) {
    && i < |records| == |served|
    && records[i] == Signed(s, served[i].keyed, served[i].event, PreviousHash(records, i))
  }

  lemma {:induction false} RecordsFollowRequests(s: Suite, requests: seq<Request>)
    requires WellBehaved(s)
    ensures |WrittenRecords(s, requests)| == |ServedRequests(s, requests)|
    ensures forall i :: 0 <= i < |WrittenRecords(s, requests)| ==>
              Follows(s, WrittenRecords(s, requests), ServedRequests(s, requests), i)
  {
    hide Lines, LogFile, Appended, Signed, Unsigned;
    if requests != [] {
      var n := |requests| - 1;
      RecordsFollowRequests(s, requests[..n]);
      var before, after := WrittenRecords(s, requests[..n]), WrittenRecords(s, requests);
      var served := ServedRequests(s, requests);
      FileHoldsWritten(s, requests[..n]);
      AppendToGoodLog(s, requests[n].keyed, before, requests[n].event);
      forall i | 0 <= i < |after| ensures Follows(s, after, served, i) {
        assert i < |before| ==> Follows(s, before, ServedRequests(s, requests[..n]), i);
        assert PreviousHash(after, i) == PreviousHash(before, i);
      }
    }
  }

  /** The two digests of a written record agree: the one taken over all fields of the event and the
      one the verifier takes without a field called "hash". */
  ghost predicate DigestsAgree(s: Suite, r: Request, previous: string) {
    var p := Unsigned(s, r.keyed, r.event, previous);
    Digest(s, r.keyed, previous, p) == Digest(s, r.keyed, previous, p - {"hash"})
  }

  function Canons(records: seq<Payload>): seq<Payload> {
    seq(|records|, i requires 0 <= i < |records| => CanonOf(records[i]))
  }

  /** On a log built by appends, some of them refused, the verifier reads back exactly the written
      records in canonical form, and they form a chain exactly when the two digests of each of them
      agree.  Writers with and without an HMAC key may take turns as long as the verifier has the key. */
  lemma BuiltLogVerifiesIff(s: Suite, requests: seq<Request>, verifierKeyed: bool)
    requires WellBehaved(s)
    requires forall i :: 0 <= i < |requests| ==> verifierKeyed || !requests[i].keyed
    ensures var records := WrittenRecords(s, requests);
            var served := ServedRequests(s, requests);
            && |records| == |served|
            && TextLines(s, Lines(FileAfter(s, requests))) == Encodings(s, records)
            && Records(s, TextLines(s, Lines(FileAfter(s, requests)))) == Canons(records)
            && (Chain(s, verifierKeyed, Canons(records)) <==>
                forall i :: 0 <= i < |served| ==> DigestsAgree(s, served[i], PreviousHash(records, i)))
  {
    hide Lines, LogFile, Appended, Link, Signed, Unsigned, DigestsAgree, TextLines, CanonOf, GoodRecord;
    FileHoldsWritten(s, requests);
    var records, served := WrittenRecords(s, requests), ServedRequests(s, requests);
    GoodAreRecordLines(s, records);
    LinesOfLog(Encodings(s, records));
    TextLinesOfEncodings(s, records);
    RecordsOfEncodings(s, records);
    RecordsFollowRequests(s, requests);
    ServedAreRequests(s, requests);
    var read := Canons(records);
    forall i | 0 <= i < |records|
      ensures LinkAt(s, verifierKeyed, read, i) <==> DigestsAgree(s, served[i], PreviousHash(records, i))
    {
      assert Follows(s, records, served, i);
      ReadBackLink(s, verifierKeyed, records, i);
      LinkIffDigestsAgree(s, served[i], verifierKeyed, PreviousHash(records, i));
    }
  }

  lemma GoodAreRecordLines(s: Suite, records: seq<Payload>)
    requires forall i :: 0 <= i < |records| ==> GoodRecord(s, records[i])
    ensures forall i :: 0 <= i < |records| ==> RecordLine(Encodings(s, records)[i]) && ProperPayload(records[i])
  {
  }

  lemma ReadBackLink(s: Suite, keyed: bool, records: seq<Payload>, i: nat)
    requires WellBehaved(s) && i < |records| && forall k :: 0 <= k < |records| ==> GoodRecord(s, records[k])
    ensures LinkAt(s, keyed, Canons(records), i) <==> Link(s, keyed, records[i], PreviousHash(records, i))
  {
    hide Link, CanonOf;
    if i > 0 {
      ReadBackHash(s, records[i - 1]);
    }
    CanonLinksIff(s, keyed, records[i], PreviousHash(records, i));
  }

  lemma RecordsAreNotBlank(s: Suite, record: Payload)
    requires WellBehaved(s)
    ensures !s.blank(s.encode(record))
  {
  }

  lemma {:induction false} TextLinesOfEncodings(s: Suite, records: seq<Payload>)
    requires WellBehaved(s)
    ensures TextLines(s, Encodings(s, records)) == Encodings(s, records)
  {
    hide WellBehaved;
    var lines := Encodings(s, records);
    if records != [] {
      RecordsAreNotBlank(s, records[0]);
      assert lines[1..] == Encodings(s, records[1..]);
      TextLinesOfEncodings(s, records[1..]);
      assert lines == [lines[0]] + lines[1..];
    }
  }

  lemma LinkIffDigestsAgree(s: Suite, r: Request, verifierKeyed: bool, previous: string)
    requires verifierKeyed || !r.keyed
    ensures Link(s, verifierKeyed, Signed(s, r.keyed, r.event, previous), previous) <==> DigestsAgree(s, r, previous)
  {
    WrittenLinkIff(s, r.keyed, verifierKeyed, r.event, previous);
  }

  lemma {:induction false} ServedAreRequests(s: Suite, requests: seq<Request>)
    ensures forall i :: 0 <= i < |ServedRequests(s, requests)| ==> ServedRequests(s, requests)[i] in requests
  {
    hide ResultOf;
    if requests != [] {
      ServedAreRequests(s, requests[..|requests| - 1]);
    }
  }

  /** In particular every log of events without a "hash" field verifies. */
  lemma BuiltLogVerifies(s: Suite, requests: seq<Request>, verifierKeyed: bool)
    requires WellBehaved(s)
    requires forall i :: 0 <= i < |requests| ==> (verifierKeyed || !requests[i].keyed) && !HasHashKey(requests[i].event)
    ensures Records(s, TextLines(s, Lines(FileAfter(s, requests)))) == Canons(WrittenRecords(s, requests))
    ensures |TextLines(s, Lines(FileAfter(s, requests)))| == |WrittenRecords(s, requests)|
    ensures Chain(s, verifierKeyed, Canons(WrittenRecords(s, requests)))
  {
    hide Lines, LogFile, Appended, WrittenRecords, ServedRequests, DigestsAgree, Chain, Unsigned;
    BuiltLogVerifiesIff(s, requests, verifierKeyed);
    var served := ServedRequests(s, requests);
    ServedAreRequests(s, requests);
    forall i | 0 <= i < |served| ensures DigestsAgree(s, served[i], PreviousHash(WrittenRecords(s, requests), i)) {
      NoHashKeyAgrees(s, served[i], PreviousHash(WrittenRecords(s, requests), i));
    }
  }

  lemma NoHashKeyAgrees(s: Suite, r: Request, previous: string)
    requires !HasHashKey(r.event)
    ensures DigestsAgree(s, r, previous)
  {
    UnsignedHashIff(s, r.keyed, r.event, previous);
    var p := Unsigned(s, r.keyed, r.event, previous);
    assert p - {"hash"} == p;
  }

  /** The record names its predecessor and its mode, and, unless the event had a "hash" field, its hash is
      the digest of the rest of it: keyed in "hmac" mode, plain otherwise. */
  ghost predicate Sealed(s: Suite, keyed: bool, e: Event, previous: string, record: Payload) {
    && IsText(record, "previous_hash", previous)
    && "chain_version" in record && record["chain_version"] == Num(if keyed then 2 else 1)
    && IsText(record, "chain_mode", if keyed then "hmac" else "sha256")
    && (!HasHashKey(e) ==>
          var rest := record - {"hash"};
          IsText(record, "hash", if keyed then s.hmac(previous, rest) else s.sha(previous, rest)))
  }

  lemma SignedIsSealed(s: Suite, keyed: bool, e: Event, previous: string)
    ensures Sealed(s, keyed, e, previous, Signed(s, keyed, e, previous))
  {
    hide EventFields, HasHashKey;
    UnsignedHashIff(s, keyed, e, previous);
    if !HasHashKey(e) {
      assert Signed(s, keyed, e, previous) - {"hash"} == Unsigned(s, keyed, e, previous);
    }
  }

  /** What the verifier reads back tells what happened: record by record it is the canonical form of a
      record that carries the event of its request. */
  lemma LogTellsItsEvents(s: Suite, requests: seq<Request>, i: nat)
    requires WellBehaved(s) && i < |ServedRequests(s, requests)|
    ensures var read := Records(s, TextLines(s, Lines(FileAfter(s, requests))));
            var written := WrittenRecords(s, requests);
            && |read| == |written| == |ServedRequests(s, requests)|
            && Carries(s, ServedRequests(s, requests)[i].event, written[i])
            && Sealed(s, ServedRequests(s, requests)[i].keyed, ServedRequests(s, requests)[i].event,
                      PreviousHash(written, i), written[i])
            && read[i].Keys == written[i].Keys && forall key :: key in written[i] ==> read[i][key] == Canon(written[i][key])
  {
    hide Lines, FileAfter, Link, Chain, DigestsAgree, TextLines, Signed, Carries, Sealed, Canon;
    BuiltLogVerifiesIff(s, requests, true);
    RecordsFollowRequests(s, requests);
    var served, written := ServedRequests(s, requests), WrittenRecords(s, requests);
    assert Follows(s, written, served, i);
    SignedCarries(s, served[i].keyed, served[i].event, PreviousHash(written, i));
    SignedIsSealed(s, served[i].keyed, served[i].event, PreviousHash(written, i));
  }

  lemma {:induction false} RecordsOfEncodings(s: Suite, records: seq<Payload>)
    requires WellBehaved(s) && forall i :: 0 <= i < |records| ==> ProperPayload(records[i])
    ensures Records(s, Encodings(s, records)) == Canons(records)
  {
    var lines := Encodings(s, records);
    assert forall i :: 0 <= i < |lines| ==> s.decode(lines[i]) == Some(CanonOf(records[i]));
    assert Records(s, lines) == Canons(records);
  }

  /** An append to such a log is refused only for its size: the scan finds the last record and its
      hash every time. */
  lemma OnlyOversizeIsRefused(s: Suite, requests: seq<Request>, i: nat)
    requires WellBehaved(s) && i < |requests|
    ensures ResultOf(s, requests, i).Written? || ResultOf(s, requests, i).TooLarge?
  {
    FileHoldsWritten(s, requests[..i]);
    AppendToGoodLog(s, requests[i].keyed, WrittenRecords(s, requests[..i]), requests[i].event);
  }

  // ----- What a verified log says --------------------------------------------------------------

  function Body(record: Payload): Payload { record - {"hash"} }

  /** Two records with different bodies but the same hash, or a record whose hash is the genesis
      value: since both hashes were recomputed, this exhibits a digest collision. */
  ghost predicate Collision(a: seq<Payload>, b: seq<Payload>) {
    || (exists i, j :: 0 <= i < |a| && 0 <= j < |b| && Body(a[i]) != Body(b[j]) && HashText(a[i]) == HashText(b[j]))
    || (exists i :: 0 <= i < |a| && HashText(a[i]) == GENESIS)
    || (exists j :: 0 <= j < |b| && HashText(b[j]) == GENESIS)
  }

  /** Such records are a collision in earnest: in verified logs both hashes are digests, taken in the mode
      the record claims, over different texts. */
  lemma CollisionIsReal(s: Suite, keyed: bool, a: seq<Payload>, b: seq<Payload>, i: nat, j: nat)
    requires Chain(s, keyed, a) && Chain(s, keyed, b) && i < |a| && j < |b|
    requires HashText(a[i]) == HashText(b[j])
    ensures "hash" in a[i] && ClaimsMode(a[i], "hmac") == !ClaimsMode(a[i], "sha256")
    ensures (if keyed && ClaimsMode(a[i], "hmac") then s.hmac(PreviousHash(a, i), Body(a[i]))
             else s.sha(PreviousHash(a, i), Body(a[i])))
         == (if keyed && ClaimsMode(b[j], "hmac") then s.hmac(PreviousHash(b, j), Body(b[j]))
             else s.sha(PreviousHash(b, j), Body(b[j])))
  {
    assert LinkAt(s, keyed, a, i) && LinkAt(s, keyed, b, j);
  }

  /** A record without a mode claims the plain one. */
  predicate ClaimsMode(record: Payload, mode: string) {
    if "chain_mode" in record then record["chain_mode"] == Str(mode) else mode == "sha256"
  }

  lemma ChainPrefix(s: Suite, keyed: bool, records: seq<Payload>)
    requires Chain(s, keyed, records) && records != []
    ensures Chain(s, keyed, records[..|records| - 1])
  {
    var before := records[..|records| - 1];
    forall i | 0 <= i < |before| ensures LinkAt(s, keyed, before, i) {
      assert LinkAt(s, keyed, records, i);
      assert PreviousHash(before, i) == PreviousHash(records, i);
    }
  }

  lemma CollisionOfPrefixes(a: seq<Payload>, b: seq<Payload>, m: nat, n: nat)
    requires m <= |a| && n <= |b| && Collision(a[..m], b[..n])
    ensures Collision(a, b)
  {
    hide HashText, Body;
  }

  /** Equal bodies of two verified records name the same predecessor. */
  lemma SamePredecessor(s: Suite, keyed: bool, a: seq<Payload>, b: seq<Payload>, m: nat, n: nat)
    requires LinkAt(s, keyed, a, m) && LinkAt(s, keyed, b, n)
    requires Body(a[m]) == Body(b[n]) && HashText(a[m]) == HashText(b[n])
    ensures a[m] == b[n] && PreviousHash(a, m) == PreviousHash(b, n)
  {
    hide Recomputed;
    SameRecord(a[m], b[n]);
  }

  /** The last hash pins the whole log: two verified logs that end in the same hash are the same
      log, or they exhibit a collision. */
  lemma {:induction false} LastHashPinsLog(s: Suite, keyed: bool, a: seq<Payload>, b: seq<Payload>)
    requires Chain(s, keyed, a) && Chain(s, keyed, b)
    requires PreviousHash(a, |a|) == PreviousHash(b, |b|)
    ensures a == b || Collision(a, b)
    decreases |a|
  {
    hide Body, LinkAt, HashText;
    if a == [] && b != [] {
      assert HashText(b[|b| - 1]) == GENESIS;
    } else if a != [] && b == [] {
      assert HashText(a[|a| - 1]) == GENESIS;
    } else if a != [] && b != [] {
      var m, n := |a| - 1, |b| - 1;
      if Body(a[m]) == Body(b[n]) {
        SamePredecessor(s, keyed, a, b, m, n);
        ChainPrefix(s, keyed, a);
        ChainPrefix(s, keyed, b);
        LastHashPinsLog(s, keyed, a[..m], b[..n]);
        if a[..m] == b[..n] {
          assert a == a[..m] + [a[m]] && b == b[..n] + [b[n]];
        } else {
          CollisionOfPrefixes(a, b, m, n);
        }
      }
    }
  }

  lemma SameRecord(x: Payload, y: Payload)
    requires "hash" in x && x["hash"].Str? && "hash" in y && y["hash"].Str?
    requires Body(x) == Body(y) && HashText(x) == HashText(y)
    ensures x == y
  {
    assert x == Body(x)["hash" := x["hash"]];
    assert y == Body(y)["hash" := y["hash"]];
  }

  /** Hence tampering shows: a verified log can be changed, cut in the middle or reordered into
      another verified log of the same last hash only with a collision. */
  lemma TamperingShows(s: Suite, keyed: bool, original: seq<Payload>, tampered: seq<Payload>)
    requires Chain(s, keyed, original) && original != tampered && !Collision(original, tampered)
    ensures Chain(s, keyed, tampered) ==> PreviousHash(original, |original|) != PreviousHash(tampered, |tampered|)
  {
    if Chain(s, keyed, tampered) && PreviousHash(original, |original|) == PreviousHash(tampered, |tampered|) {
      LastHashPinsLog(s, keyed, original, tampered);
    }
  }
}
