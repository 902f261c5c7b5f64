/** The deployment smoke check of a chat stream, and why the chunking of the stream is irrelevant.

    Reading the JSON of a payload and recognising blank text are parameters. */
module StreamCheck {
  import opened Options
  import opened AuditScan

  const MAX_STREAM_BYTES: nat := 10 * 1024 * 1024

  function Ascii(s: string): Bytes
    requires forall i :: 0 <= i < |s| ==> s[i] < 128 as char
  {
    seq(|s|, i requires 0 <= i < |s| => s[i] as byte)
  }

  // ----- Frames ---------------------------------------------------------------------------------

  /** The length of the blank line that starts at position p: CR LF CR LF, LF LF or CR CR; 0 if none does. */
  function BoundaryLength(b: Bytes, p: nat): nat {
    if p + 4 <= |b| && b[p] == CR && b[p + 1] == LF && b[p + 2] == CR && b[p + 3] == LF then 4
    else if p + 2 <= |b| && b[p] == LF && b[p + 1] == LF then 2
    else if p + 2 <= |b| && b[p] == CR && b[p + 1] == CR then 2
    else 0
  }

  /** The leftmost blank line at or after position p; the length of the buffer when there is none. */
  function Boundary(b: Bytes, p: nat): (q: nat)
    requires p <= |b|
    ensures p <= q <= |b|
    ensures forall k :: p <= k < q ==> BoundaryLength(b, k) == 0
    ensures q < |b| ==> BoundaryLength(b, q) > 0
    decreases |b| - p
  {
    if p == |b| || BoundaryLength(b, p) > 0 then p else Boundary(b, p + 1)
  }

  datatype Split = Incomplete | Frame(frame: Bytes, rest: Bytes)

  /** Pops the first event off the buffer. */
  function SplitFrame(b: Bytes): (s: Split)
    ensures s.Frame? ==> |s.rest| < |b| && s.frame <= b && b[|b| - |s.rest|..] == s.rest
    ensures s.Frame? ==> BoundaryLength(b, |s.frame|) == |b| - |s.rest| - |s.frame| > 0
    ensures s.Incomplete? <==> forall p :: 0 <= p < |b| ==> BoundaryLength(b, p) == 0
  {
    var p := Boundary(b, 0);
    if p == |b| then Incomplete else Frame(b[..p], b[p + BoundaryLength(b, p)..])
  }

  /** More bytes do not change a frame that was already complete: no blank line can begin earlier,
      because the bytes between two such beginnings would have to be both. */
  lemma BoundaryIsStable(b: Bytes, c: Bytes)
    requires Boundary(b, 0) < |b|
    ensures Boundary(b + c, 0) == Boundary(b, 0)
    ensures BoundaryLength(b + c, Boundary(b, 0)) == BoundaryLength(b, Boundary(b, 0))
  {
    var p := Boundary(b, 0);
    assert BoundaryLength(b + c, p) == BoundaryLength(b, p);
    forall q | 0 <= q < p ensures BoundaryLength(b + c, q) == 0 {
      assert BoundaryLength(b, q) == 0;
      assert q + 3 <= |b|;
    }
  }

  lemma SplitIsStable(b: Bytes, c: Bytes)
    requires SplitFrame(b).Frame?
    ensures SplitFrame(b + c) == Frame(SplitFrame(b).frame, SplitFrame(b).rest + c)
  {
    BoundaryIsStable(b, c);
    var p := Boundary(b, 0);
    var n := BoundaryLength(b, p);
    assert (b + c)[..p] == b[..p];
    assert (b + c)[p + n..] == b[p + n..] + c;
  }

  // ----- One frame --------------------------------------------------------------------------------

  function TrimStart(b: Bytes): Bytes {
    if b == [] || !IsSpace(b[0]) then b else TrimStart(b[1..])
  }

  function TrimEnd(b: Bytes): Bytes {
    if b == [] || !IsSpace(b[|b| - 1]) then b else TrimEnd(b[..|b| - 1])
  }

  function Strip(b: Bytes): Bytes { TrimEnd(TrimStart(b)) }

  predicate NamesError(line: Bytes) {
    && Ascii("event:") <= line
    && Strip(line[6..]) in {Ascii("error"), Ascii("response.failed"), Ascii("response.incomplete")}
  }

  /** The values of the data fields, one optional space after the colon dropped. */
  function DataValues(lines: seq<Bytes>): seq<Bytes> {
    if lines == [] then []
    else
      var rest := DataValues(lines[1..]);
      if !(Ascii("data:") <= lines[0]) then rest
      else
        var value := lines[0][5..];
        [if value != [] && value[0] == 32 then value[1..] else value] + rest
  }

  function JoinLines(values: seq<Bytes>): Bytes {
    if values == [] then []
    else if |values| == 1 then values[0]
    else values[0] + [LF] + JoinLines(values[1..])
  }

  function Payload(frame: Bytes): Option<Bytes> {
    var values := DataValues(SplitLines(frame));
    if values == [] then None else Some(JoinLines(values))
  }

  /** What the JSON of a payload amounts to. */
  datatype Reading = Bad(reason: string) | Texts(texts: seq<string>)

  datatype Reader = Reader(read: Bytes -> Reading, blank: string -> bool)

  datatype Progress = Progress(content: seq<string>, done: bool)

  datatype FrameResult = Failed(reason: string) | Continue(progress: Progress)

  function HandleFrame(r: Reader, s: Progress, frame: Bytes): FrameResult {
    if exists line :: line in SplitLines(frame) && NamesError(line) then Failed("error event in stream")
    else
      var payload := Payload(frame);
      if payload == None then Continue(s)
      else if s.done then Failed("data after terminal event")
      else if Strip(payload.value) == Ascii("[DONE]") then Continue(s.(done := true))
      else
        match r.read(payload.value)
        case Bad(reason) => Failed(reason)
        case Texts(texts) => Continue(s.(content := s.content + texts))
  }

  // ----- A buffer of frames -----------------------------------------------------------------------

  datatype Drained = Broken(reason: string) | Waiting(rest: Bytes, progress: Progress)

  /** Handles every complete frame of the buffer; the incomplete rest waits for more bytes. */
  function Drain(r: Reader, b: Bytes, s: Progress): Drained
    decreases |b|
  {
    var split := SplitFrame(b);
    if split.Incomplete? then Waiting(b, s)
    else
      match HandleFrame(r, s, split.frame)
      case Failed(reason) => Broken(reason)
      case Continue(t) => Drain(r, split.rest, t)
  }

  /** Draining in two steps is draining at once. */
  lemma {:induction false} DrainInTwoSteps(r: Reader, b: Bytes, c: Bytes, s: Progress)
    ensures Drain(r, b + c, s) ==
            match Drain(r, b, s)
            case Broken(reason) => Broken(reason)
            case Waiting(rest, t) => Drain(r, rest + c, t)
    decreases |b|
  {
    hide HandleFrame;
    var split := SplitFrame(b);
    if split.Frame? {
      SplitIsStable(b, c);
      match HandleFrame(r, s, split.frame)
      case Failed(_) =>
      case Continue(t) => DrainInTwoSteps(r, split.rest, c, t);
    }
  }

  // ----- The whole stream -------------------------------------------------------------------------

  datatype Verdict = Verdict(ok: bool, reason: string, content: string)

  function Rejected(reason: string): Verdict { Verdict(false, reason, "") }

  function Join(texts: seq<string>): string {
    if texts == [] then "" else texts[0] + Join(texts[1..])
  }

  /** The checks at the end of the stream. */
  function Conclude(r: Reader, rest: Bytes, s: Progress): Verdict {
    if Strip(rest) != [] then Rejected("incomplete trailing frame")
    else if !s.done then Rejected("stream did not terminate with [DONE]")
    else if r.blank(Join(s.content)) then Rejected("stream produced no nonempty assistant content")
    else Verdict(true, "ok", Join(s.content))
  }

  const FRESH: Progress := Progress([], false)

  /** The verdict on a stream that arrives in one piece. */
  function CheckWhole(r: Reader, bytes: Bytes): Verdict {
    if |bytes| > MAX_STREAM_BYTES then Rejected("stream exceeds byte limit")
    else
      match Drain(r, bytes, FRESH)
      case Broken(reason) => Rejected(reason)
      case Waiting(rest, s) => Conclude(r, rest, s)
  }

  function Concat(chunks: seq<Bytes>): Bytes {
    if chunks == [] then [] else Concat(chunks[..|chunks| - 1]) + chunks[|chunks| - 1]
  }

  lemma {:induction false} ConcatGrows(chunks: seq<Bytes>, n: nat)
    requires n <= |chunks|
    ensures |Concat(chunks[..n])| <= |Concat(chunks)|
    ensures Concat(chunks[..|chunks|]) == Concat(chunks)
    decreases |chunks|
  {
    assert chunks[..|chunks|] == chunks;
    if n < |chunks| {
      var before := chunks[..|chunks| - 1];
      ConcatGrows(before, n);
      assert before[..n] == chunks[..n];
    }
  }

  /** The check as it runs, chunk by chunk.  Verdict and content depend on the concatenated bytes
      alone.  So does the reason, as long as the stream obeys the byte limit; over the limit the
      reason may name a fault found before the limit was passed. */
  method CheckStream(r: Reader, chunks: seq<Bytes>) returns (v: Verdict)
    ensures v.ok == CheckWhole(r, Concat(chunks)).ok && v.content == CheckWhole(r, Concat(chunks)).content
    ensures |Concat(chunks)| <= MAX_STREAM_BYTES ==> v == CheckWhole(r, Concat(chunks))
    ensures |Concat(chunks)| > MAX_STREAM_BYTES ==>
              v.reason == "stream exceeds byte limit"
              || exists n :: 0 <= n <= |chunks| && Drain(r, Concat(chunks[..n]), FRESH) == Broken(v.reason)
  {
    hide HandleFrame, SplitFrame, Conclude;
    var buffer: Bytes := [];
    var total := 0;
    var content: seq<string> := [];
    var done := false;
    EmptyDrain(r);
    for i := 0 to |chunks|
      invariant total == |Concat(chunks[..i])| <= MAX_STREAM_BYTES
      invariant Drain(r, Concat(chunks[..i]), FRESH) == Waiting(buffer, Progress(content, done))
    {
      var chunk := chunks[i];
      ghost var before, seen := Concat(chunks[..i]), Concat(chunks[..i + 1]);
      assert chunks[..i + 1][..i] == chunks[..i];
      ConcatGrows(chunks, i + 1);
      total := total + |chunk|;
      if total > MAX_STREAM_BYTES {
        return Rejected("stream exceeds byte limit");
      }
      DrainInTwoSteps(r, before, chunk, FRESH);
      buffer := buffer + chunk;
      while true
        invariant Drain(r, buffer, Progress(content, done)) == Drain(r, seen, FRESH)
        decreases |buffer|
      {
        var split := SplitFrame(buffer);
        if split.Incomplete? {
          break;
        }
        var handled := HandleFrame(r, Progress(content, done), split.frame);
        if handled.Failed? {
          BrokenPrefix(r, chunks, i + 1, handled.reason);
          return Rejected(handled.reason);
        }
        content, done := handled.progress.content, handled.progress.done;
        buffer := split.rest;
      }
    }
    ConcatGrows(chunks, |chunks|);
    v := Conclude(r, buffer, Progress(content, done));
  }

  lemma EmptyDrain(r: Reader)
    ensures Drain(r, Concat([]), FRESH) == Waiting([], FRESH)
  {
  }

  /** A fault in a prefix is a fault of the whole stream. */
  lemma {:induction false} BrokenPrefix(r: Reader, chunks: seq<Bytes>, n: nat, reason: string)
    requires n <= |chunks| && Drain(r, Concat(chunks[..n]), FRESH) == Broken(reason)
    ensures Drain(r, Concat(chunks), FRESH) == Broken(reason)
    ensures !CheckWhole(r, Concat(chunks)).ok && CheckWhole(r, Concat(chunks)).content == ""
    decreases |chunks|
  {
    hide Drain;
    if n == |chunks| {
      assert chunks[..n] == chunks;
    } else {
      var before := chunks[..|chunks| - 1];
      assert before[..n] == chunks[..n];
      BrokenPrefix(r, before, n, reason);
      DrainInTwoSteps(r, Concat(before), chunks[|chunks| - 1], FRESH);
    }
  }
}
