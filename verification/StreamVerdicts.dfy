/** Which streams the smoke check accepts, told by their frames, and that a well-formed stream passes in
    each of the three line-end conventions. */
module StreamVerdicts {
  import opened Options
  import opened AuditScan
  import opened StreamCheck

  // ----- Frames of a stream ---------------------------------------------------------------------

  /** The complete frames of the bytes, in order. */
  function Frames(b: Bytes): seq<Bytes>
    decreases |b|
  {
    var split := SplitFrame(b);
    if split.Incomplete? then [] else [split.frame] + Frames(split.rest)
  }

  /** What follows the last complete frame. */
  function Trailing(b: Bytes): Bytes
    decreases |b|
  {
    var split := SplitFrame(b);
    if split.Incomplete? then b else Trailing(split.rest)
  }

  ghost predicate ReportsError(frame: Bytes) {
    exists line :: line in SplitLines(frame) && NamesError(line)
  }

  predicate IsDone(frame: Bytes) {
    Payload(frame).Some? && Strip(Payload(frame).value) == Ascii("[DONE]")
  }

  /** A frame that may come before the end: it reports no error, and its data, if any, reads as texts. */
  ghost predicate Content(r: Reader, frame: Bytes) {
    !ReportsError(frame) && !IsDone(frame) && (Payload(frame).Some? ==> r.read(Payload(frame).value).Texts?)
  }

  /** A frame that may come after the end: it reports no error and has no data. */
  ghost predicate Silent(frame: Bytes) { !ReportsError(frame) && Payload(frame) == None }

  ghost predicate AllContent(r: Reader, frames: seq<Bytes>) {
    forall i :: 0 <= i < |frames| ==> Content(r, frames[i])
  }

  ghost predicate AllSilent(frames: seq<Bytes>) {
    forall i :: 0 <= i < |frames| ==> Silent(frames[i])
  }

  /** Frame d ends the stream: content before it, silence after it. */
  ghost predicate EndsAt(r: Reader, frames: seq<Bytes>, d: nat) {
    && d < |frames| && IsDone(frames[d]) && !ReportsError(frames[d])
    && AllContent(r, frames[..d]) && AllSilent(frames[d + 1..])
  }

  /** The texts of the frames, in order. */
  function TextsOf(r: Reader, frames: seq<Bytes>): seq<string> {
    if frames == [] then []
    else
      var payload := Payload(frames[0]);
      (if payload.Some? && r.read(payload.value).Texts? then r.read(payload.value).texts else [])
      + TextsOf(r, frames[1..])
  }

  // ----- Handling frame by frame -------------------------------------------------------------------

  function HandleAll(r: Reader, s: Progress, frames: seq<Bytes>): FrameResult
    decreases |frames|
  {
    if frames == [] then Continue(s)
    else
      match HandleFrame(r, s, frames[0])
      case Failed(reason) => Failed(reason)
      case Continue(t) => HandleAll(r, t, frames[1..])
  }

  lemma {:induction false} DrainHandlesAll(r: Reader, b: Bytes, s: Progress)
    ensures Drain(r, b, s) == match HandleAll(r, s, Frames(b))
                              case Failed(reason) => Broken(reason)
                              case Continue(t) => Waiting(Trailing(b), t)
    decreases |b|
  {
    hide HandleFrame;
    var split := SplitFrame(b);
    if split.Frame? {
      assert Frames(b)[1..] == Frames(split.rest);
      match HandleFrame(r, s, split.frame)
      case Failed(_) =>
      case Continue(t) => DrainHandlesAll(r, split.rest, t);
    }
  }

  lemma AfterTheEnd(r: Reader, s: Progress, frame: Bytes)
    requires s.done
    ensures HandleFrame(r, s, frame) == Continue(s) <==> Silent(frame)
    ensures HandleFrame(r, s, frame).Continue? ==> Silent(frame)
  {
  }

  lemma BeforeTheEnd(r: Reader, s: Progress, frame: Bytes)
    requires !s.done
    ensures HandleFrame(r, s, frame).Continue? <==> Content(r, frame) || (IsDone(frame) && !ReportsError(frame))
    ensures Content(r, frame) ==> HandleFrame(r, s, frame) == Continue(s.(content := s.content + TextsOf(r, [frame])))
    ensures IsDone(frame) && !ReportsError(frame) ==> HandleFrame(r, s, frame) == Continue(s.(done := true))
  {
    assert [frame][1..] == [];
  }

  lemma {:induction false} AllAfterTheEnd(r: Reader, s: Progress, frames: seq<Bytes>)
    requires s.done
    ensures HandleAll(r, s, frames).Continue? <==> AllSilent(frames)
    ensures AllSilent(frames) ==> HandleAll(r, s, frames) == Continue(s)
  {
    hide HandleFrame, Silent;
    if frames != [] {
      AfterTheEnd(r, s, frames[0]);
      SilentCons(frames);
      if Silent(frames[0]) {
        AllAfterTheEnd(r, s, frames[1..]);
      }
    }
  }

  lemma SilentCons(frames: seq<Bytes>)
    requires frames != []
    ensures AllSilent(frames) <==> Silent(frames[0]) && AllSilent(frames[1..])
  {
    hide Silent;
    if Silent(frames[0]) && AllSilent(frames[1..]) {
      forall i | 0 <= i < |frames| ensures Silent(frames[i]) {
        assert i > 0 ==> frames[i] == frames[1..][i - 1];
      }
    }
  }

  lemma ContentCons(r: Reader, frames: seq<Bytes>)
    requires frames != []
    ensures AllContent(r, frames) <==> Content(r, frames[0]) && AllContent(r, frames[1..])
  {
    hide Content;
    if Content(r, frames[0]) && AllContent(r, frames[1..]) {
      forall i | 0 <= i < |frames| ensures Content(r, frames[i]) {
        assert i > 0 ==> frames[i] == frames[1..][i - 1];
      }
    }
  }

  /** Where the end is, seen from one frame further on. */
  lemma EndsAtCons(r: Reader, frames: seq<Bytes>, d: nat)
    requires 0 < d < |frames|
    ensures EndsAt(r, frames, d) <==> Content(r, frames[0]) && EndsAt(r, frames[1..], d - 1)
    ensures TextsOf(r, frames[..d]) == TextsOf(r, [frames[0]]) + TextsOf(r, frames[1..][..d - 1])
  {
    hide Content, Silent;
    assert frames[..d][1..] == frames[1..][..d - 1] && frames[1..][d - 1 + 1..] == frames[d + 1..];
    assert [frames[0]][1..] == [];
    ContentCons(r, frames[..d]);
  }

  /** Frames with an end lead over the texts before it. */
  lemma {:induction false} EndLeads(r: Reader, s: Progress, frames: seq<Bytes>, d: nat)
    requires !s.done && EndsAt(r, frames, d) && d < |frames|
    ensures HandleAll(r, s, frames) == Continue(Progress(s.content + TextsOf(r, frames[..d]), true))
    decreases |frames|
  {
    hide HandleFrame, Content, EndsAt, AllSilent, AllContent;
    var f := frames[0];
    BeforeTheEnd(r, s, f);
    if d == 0 {
      EndsAtFirst(r, frames);
      AllAfterTheEnd(r, s.(done := true), frames[1..]);
    } else {
      EndsAtCons(r, frames, d);
      EndLeads(r, s.(content := s.content + TextsOf(r, [f])), frames[1..], d - 1);
      assert s.content + TextsOf(r, [f]) + TextsOf(r, frames[1..][..d - 1]) == s.content + TextsOf(r, frames[..d]);
    }
  }

  /** Frames that are handled up to a terminal event have an end. */
  lemma {:induction false} HandledFramesEnd(r: Reader, s: Progress, frames: seq<Bytes>)
    requires !s.done && HandleAll(r, s, frames).Continue? && HandleAll(r, s, frames).progress.done
    ensures exists d: nat :: EndsAt(r, frames, d)
    decreases |frames|
  {
    hide HandleFrame, Content, EndsAt, AllSilent;
    var f := frames[0];
    BeforeTheEnd(r, s, f);
    if IsDone(f) {
      EndsAtFirst(r, frames);
      ContentIsNotDone(r, f);
      AllAfterTheEnd(r, s.(done := true), frames[1..]);
    } else {
      HandledFramesEnd(r, s.(content := s.content + TextsOf(r, [f])), frames[1..]);
      EndsAreInRange(r, frames[1..]);
      var d: nat :| EndsAt(r, frames[1..], d);
      EndsAtCons(r, frames, d + 1);
    }
  }

  lemma EndsAreInRange(r: Reader, frames: seq<Bytes>)
    ensures forall d: nat :: EndsAt(r, frames, d) ==> d < |frames|
  {
  }

  lemma ContentIsNotDone(r: Reader, frame: Bytes)
    ensures Content(r, frame) ==> !IsDone(frame)
  {
  }

  lemma EndsAtFirst(r: Reader, frames: seq<Bytes>)
    requires frames != []
    ensures EndsAt(r, frames, 0) <==> IsDone(frames[0]) && !ReportsError(frames[0]) && AllSilent(frames[1..])
    ensures TextsOf(r, frames[..0]) == []
  {
  }

  // ----- The verdict ---------------------------------------------------------------------------------

  /** The stream obeys the byte limit, its frames end at d, only blanks trail, and the texts before d say
      something. */
  ghost predicate AcceptableUpTo(r: Reader, bytes: Bytes, d: nat) {
    && |bytes| <= MAX_STREAM_BYTES && EndsAt(r, Frames(bytes), d) && Strip(Trailing(bytes)) == []
    && !r.blank(Join(TextsOf(r, Frames(bytes)[..d])))
  }

  /** A stream passes exactly when it is acceptable, and its content is then the texts before its end, in
      order.  So an error event, data after [DONE], a missing [DONE], a trailing fragment, an unreadable
      payload, no text at all and too many bytes are each a reason to fail, and there is no other. */
  lemma AcceptedIff(r: Reader, bytes: Bytes)
    ensures CheckWhole(r, bytes).ok <==> exists d: nat :: AcceptableUpTo(r, bytes, d)
    ensures forall d: nat :: AcceptableUpTo(r, bytes, d) ==>
              CheckWhole(r, bytes).content == Join(TextsOf(r, Frames(bytes)[..d]))
    ensures !CheckWhole(r, bytes).ok ==> CheckWhole(r, bytes).content == ""
  {
    hide HandleAll, EndsAt, Strip, Frames, Trailing, TextsOf, Drain;
    DrainHandlesAll(r, bytes, FRESH);
    var frames := Frames(bytes);
    EndsAreInRange(r, frames);
    forall d: nat | EndsAt(r, frames, d)
      ensures HandleAll(r, FRESH, frames) == Continue(Progress(TextsOf(r, frames[..d]), true))
    {
      EndLeads(r, FRESH, frames, d);
      assert [] + TextsOf(r, frames[..d]) == TextsOf(r, frames[..d]);
    }
    if CheckWhole(r, bytes).ok {
      HandledFramesEnd(r, FRESH, frames);
      var d: nat :| EndsAt(r, frames, d);
      assert AcceptableUpTo(r, bytes, d);
    }
  }

  // ----- Reasons -------------------------------------------------------------------------------------

  lemma TextsCons(r: Reader, frames: seq<Bytes>)
    ensures frames == [] ==> TextsOf(r, frames) == []
    ensures frames != [] ==> TextsOf(r, frames) == TextsOf(r, [frames[0]]) + TextsOf(r, frames[1..])
  {
    if frames != [] {
      assert [frames[0]][1..] == [];
    }
  }

  lemma {:induction false} ContentLeads(r: Reader, s: Progress, frames: seq<Bytes>)
    requires !s.done && AllContent(r, frames)
    ensures HandleAll(r, s, frames) == Continue(Progress(s.content + TextsOf(r, frames), false))
    decreases |frames|
  {
    hide HandleFrame, Content, AllContent, TextsOf;
    TextsCons(r, frames);
    if frames == [] {
      assert s.content + [] == s.content;
    } else {
      BeforeTheEnd(r, s, frames[0]);
      ContentCons(r, frames);
      ContentLeads(r, s.(content := s.content + TextsOf(r, [frames[0]])), frames[1..]);
      assert s.content + TextsOf(r, [frames[0]]) + TextsOf(r, frames[1..]) == s.content + TextsOf(r, frames);
    }
  }

  /** Handling the frames up to k and then the others is handling them all. */
  lemma {:induction false} HandleInTwoSteps(r: Reader, s: Progress, frames: seq<Bytes>, k: nat)
    requires k <= |frames| && HandleAll(r, s, frames[..k]).Continue?
    ensures HandleAll(r, s, frames) == HandleAll(r, HandleAll(r, s, frames[..k]).progress, frames[k..])
    decreases k
  {
    hide HandleFrame;
    if k > 0 {
      assert frames[..k][1..] == frames[1..][..k - 1] && frames[1..][k - 1..] == frames[k..];
      HandleInTwoSteps(r, HandleFrame(r, s, frames[0]).progress, frames[1..], k - 1);
    } else {
      assert frames[k..] == frames;
    }
  }

  /** The frame the check stops at: everything before it is in order, and it is not. */
  ghost predicate FirstFault(r: Reader, frames: seq<Bytes>, k: nat) {
    && k < |frames|
    && if AllContent(r, frames[..k]) then !Content(r, frames[k]) && (ReportsError(frames[k]) || !IsDone(frames[k]))
       else (exists d: nat :: EndsAt(r, frames[..k], d)) && !Silent(frames[k])
  }

  /** The reason of a rejection is the first fault: an error that a frame reports, data after the end, or
      what is wrong with a payload. */
  lemma FaultIsTheReason(r: Reader, bytes: Bytes, k: nat)
    requires |bytes| <= MAX_STREAM_BYTES && FirstFault(r, Frames(bytes), k)
    ensures k < |Frames(bytes)|
    ensures var frame, before := Frames(bytes)[k], Frames(bytes)[..k];
            if ReportsError(frame) then CheckWhole(r, bytes).reason == "error event in stream"
            else if !AllContent(r, before) then CheckWhole(r, bytes).reason == "data after terminal event"
            else ReadsBad(r, frame) && CheckWhole(r, bytes).reason == r.read(Payload(frame).value).reason
  {
    hide HandleAll, Frames, Trailing, Drain, AllContent;
    DrainHandlesAll(r, bytes, FRESH);
    FaultFails(r, Frames(bytes), k);
  }

  /** Where no frame has a fault the stream can still fail as a whole. */
  lemma WholeIsTheReason(r: Reader, bytes: Bytes)
    ensures var frames, v := Frames(bytes), CheckWhole(r, bytes);
            if |bytes| > MAX_STREAM_BYTES then v.reason == "stream exceeds byte limit"
            else if AllContent(r, frames) then
              v.reason == if Strip(Trailing(bytes)) != [] then "incomplete trailing frame"
                          else "stream did not terminate with [DONE]"
            else
              forall d: nat :: EndsAt(r, frames, d) && d < |frames| ==>
                v.reason ==
                if Strip(Trailing(bytes)) != [] then "incomplete trailing frame"
                else if r.blank(Join(TextsOf(r, frames[..d]))) then "stream produced no nonempty assistant content"
                else "ok"
  {
    hide HandleAll, EndsAt, Strip, Frames, Trailing, TextsOf, Drain, AllContent;
    DrainHandlesAll(r, bytes, FRESH);
    var frames := Frames(bytes);
    if AllContent(r, frames) {
      ContentLeads(r, FRESH, frames);
    } else {
      forall d: nat | EndsAt(r, frames, d) && d < |frames|
        ensures HandleAll(r, FRESH, frames) == Continue(Progress(TextsOf(r, frames[..d]), true))
      {
        EndLeads(r, FRESH, frames, d);
        assert [] + TextsOf(r, frames[..d]) == TextsOf(r, frames[..d]);
      }
    }
  }

  ghost predicate ReadsBad(r: Reader, frame: Bytes) {
    Payload(frame).Some? && r.read(Payload(frame).value).Bad?
  }

  lemma FaultFails(r: Reader, frames: seq<Bytes>, k: nat)
    requires FirstFault(r, frames, k)
    ensures k < |frames| && (!AllContent(r, frames[..k]) || ReportsError(frames[k]) || ReadsBad(r, frames[k]))
    ensures HandleAll(r, FRESH, frames)
         == Failed(if ReportsError(frames[k]) then "error event in stream"
                   else if !AllContent(r, frames[..k]) then "data after terminal event"
                   else r.read(Payload(frames[k]).value).reason)
  {
    hide EndsAt, AllContent, TextsOf;
    if AllContent(r, frames[..k]) {
      ContentLeads(r, FRESH, frames[..k]);
    } else {
      var d: nat :| EndsAt(r, frames[..k], d);
      EndsAreInRange(r, frames[..k]);
      EndLeads(r, FRESH, frames[..k], d);
    }
    HandleInTwoSteps(r, FRESH, frames, k);
  }

  // ----- Stripping and naming ------------------------------------------------------------------------

  /** The bytes neither begin nor end with a blank. */
  predicate Tight(b: Bytes) { b == [] || (!IsSpace(b[0]) && !IsSpace(b[|b| - 1])) }

  lemma {:induction false} TrimStartDropsBlanks(blanks: Bytes, rest: Bytes)
    requires Blank(blanks) && (rest == [] || !IsSpace(rest[0]))
    ensures TrimStart(blanks + rest) == rest
  {
    if blanks == [] {
      assert blanks + rest == rest;
    } else {
      assert (blanks + rest)[1..] == blanks[1..] + rest;
      TrimStartDropsBlanks(blanks[1..], rest);
    }
  }

  lemma {:induction false} TrimEndDropsBlanks(rest: Bytes, blanks: Bytes)
    requires Blank(blanks) && (rest == [] || !IsSpace(rest[|rest| - 1]))
    ensures TrimEnd(rest + blanks) == rest
    decreases |blanks|
  {
    if blanks == [] {
      assert rest + blanks == rest;
    } else {
      assert (rest + blanks)[..|rest + blanks| - 1] == rest + blanks[..|blanks| - 1];
      TrimEndDropsBlanks(rest, blanks[..|blanks| - 1]);
    }
  }

  /** Stripping takes away the blanks at both ends and nothing else. */
  lemma StripDropsBlanks(before: Bytes, core: Bytes, after: Bytes)
    requires Blank(before) && Tight(core) && Blank(after)
    ensures Strip(before + core + after) == core
  {
    if core == [] {
      assert before + core + after == before + after + [];
      TrimStartDropsBlanks(before + after, []);
    } else {
      assert before + core + after == before + (core + after);
      TrimStartDropsBlanks(before, core + after);
      TrimEndDropsBlanks(core, after);
    }
  }

  /** An event line reports an error exactly when the name in it, blanks around it aside, is one of the
      three. */
  lemma ErrorNames(before: Bytes, name: Bytes, after: Bytes)
    requires Blank(before) && Tight(name) && Blank(after)
    ensures NamesError(Ascii("event:") + before + name + after) <==>
            || name == Ascii("error")
            || name == Ascii("response.failed")
            || name == Ascii("response.incomplete")
  {
    hide Strip;
    var line := Ascii("event:") + before + name + after;
    assert line[6..] == before + name + after;
    StripDropsBlanks(before, name, after);
  }

  /** A line of another kind reports none, whatever it says. */
  lemma OnlyEventLinesNameErrors(line: Bytes)
    requires |line| < 6 || line[..6] != Ascii("event:")
    ensures !NamesError(line)
  {
  }

  // ----- A well-formed stream ------------------------------------------------------------------------

  predicate IsNewline(nl: Bytes) { nl == [LF] || nl == [CR] || nl == [CR, LF] }

  predicate OneLine(v: Bytes) { FirstBreak(v) == |v| }

  function Field(v: Bytes): Bytes { Ascii("data: ") + v }

  /** An event whose payload has these lines. */
  function Event(values: seq<Bytes>, nl: Bytes): Bytes {
    if values == [] then []
    else if |values| == 1 then Field(values[0])
    else Field(values[0]) + nl + Event(values[1..], nl)
  }

  function Encoded(events: seq<seq<Bytes>>, nl: Bytes): Bytes {
    if events == [] then [] else Event(events[0], nl) + nl + nl + Encoded(events[1..], nl)
  }

  ghost predicate GoodValues(values: seq<Bytes>) {
    values != [] && forall i :: 0 <= i < |values| ==> OneLine(values[i])
  }

  /** The bytes do not begin with a line break. */
  predicate StartsClean(b: Bytes) { b == [] || !IsBreak(b[0]) }

  lemma FieldIsOneLine(v: Bytes)
    requires OneLine(v)
    ensures OneLine(Field(v)) && Ascii("data:") <= Field(v) && Field(v)[5] == 32 && Field(v)[6..] == v
    ensures Field(v)[0] == 100 && |Field(v)| == |v| + 6
  {
    var f := Field(v);
    forall i | 0 <= i < |f| ensures !IsBreak(f[i]) {
      if i >= 6 {
        assert f[i] == v[i - 6];
      }
    }
  }

  lemma EventStartsClean(values: seq<Bytes>, nl: Bytes)
    requires values != []
    ensures Event(values, nl) != [] && Event(values, nl)[0] == 100
  {
  }

  lemma LineOf(line: Bytes, nl: Bytes, rest: Bytes)
    requires OneLine(line) && IsNewline(nl) && StartsClean(rest)
    ensures SplitLines(line + nl + rest) == [line] + SplitLines(rest)
  {
    hide SplitLines, FirstBreak;
    var b := line + nl + rest;
    assert b == line + [nl[0]] + (nl[1..] + rest);
    FirstBreakAt(line, nl[0], nl[1..] + rest);
    SplitStep(b);
    assert b[..|line|] == line && b[|line| + |nl|..] == rest;
    if |nl| == 1 && rest != [] {
      assert b[|line| + 1] == rest[0];
    }
  }

  lemma {:induction false} EventLines(values: seq<Bytes>, nl: Bytes)
    requires GoodValues(values) && IsNewline(nl)
    ensures |SplitLines(Event(values, nl))| == |values|
    ensures forall i :: 0 <= i < |values| ==> SplitLines(Event(values, nl))[i] == Field(values[i])
  {
    hide SplitLines, Field;
    FieldIsOneLine(values[0]);
    if |values| == 1 {
      SplitStep(Field(values[0]));
    } else {
      EventStartsClean(values[1..], nl);
      EventLines(values[1..], nl);
      LineOf(Field(values[0]), nl, Event(values[1..], nl));
    }
  }

  lemma {:induction false} FieldValues(lines: seq<Bytes>, values: seq<Bytes>)
    requires |lines| == |values| && forall i :: 0 <= i < |lines| ==> lines[i] == Field(values[i]) && OneLine(values[i])
    ensures DataValues(lines) == values
  {
    hide Field;
    if lines != [] {
      FieldIsOneLine(values[0]);
      assert lines[0][5..][1..] == lines[0][6..];
      FieldValues(lines[1..], values[1..]);
    }
  }

  /** The payload of an event is its lines, put back together. */
  lemma EventPayload(values: seq<Bytes>, nl: Bytes)
    requires GoodValues(values) && IsNewline(nl)
    ensures Payload(Event(values, nl)) == Some(JoinLines(values)) && !ReportsError(Event(values, nl))
  {
    hide Event, SplitLines, Field, NamesError, DataValues;
    EventLines(values, nl);
    var lines := SplitLines(Event(values, nl));
    FieldValues(lines, values);
    forall line | line in lines ensures !NamesError(line) {
      var i :| 0 <= i < |lines| && lines[i] == line;
      FieldIsNoError(values[i]);
    }
  }

  lemma FieldIsNoError(v: Bytes)
    ensures !NamesError(Field(v))
  {
    assert Field(v)[0] == 100 && Ascii("event:")[0] == 101;
  }

  lemma NoBoundaryInLine(line: Bytes, nl: Bytes, rest: Bytes, p: nat)
    requires OneLine(line) && IsNewline(nl) && StartsClean(rest) && rest != [] && p < |line| + |nl|
    ensures BoundaryLength(line + nl + rest, p) == 0
  {
    var b := line + nl + rest;
    if p < |line| {
      assert b[p] == line[p];
    } else {
      assert b[|line| + |nl|] == rest[0];
    }
  }

  lemma BoundaryIsLeftmost(b: Bytes, p: nat)
    requires p < |b| && BoundaryLength(b, p) > 0 && forall k :: 0 <= k < p ==> BoundaryLength(b, k) == 0
    ensures SplitFrame(b) == Frame(b[..p], b[p + BoundaryLength(b, p)..])
  {
  }

  /** No blank line begins inside an event, and one follows it. */
  lemma {:induction false} EventBoundary(values: seq<Bytes>, nl: Bytes, more: Bytes)
    requires GoodValues(values) && IsNewline(nl) && StartsClean(more)
    ensures var b := Event(values, nl) + nl + nl + more; var n := |Event(values, nl)|;
            && BoundaryLength(b, n) == 2 * |nl|
            && forall k :: 0 <= k < n ==> BoundaryLength(b, k) == 0
  {
    hide Field, BoundaryLength;
    var e := Event(values, nl);
    var b := e + nl + nl + more;
    FieldIsOneLine(values[0]);
    if |values| == 1 {
      LastLine(e, nl, more);
    } else {
      var line, rest := Field(values[0]), Event(values[1..], nl);
      var tail := rest + nl + nl + more;
      var m := |line| + |nl|;
      EventStartsClean(values[1..], nl);
      EventBoundary(values[1..], nl, more);
      assert b == line + nl + tail && b[m..] == tail;
      forall k | 0 <= k < |b| - m ensures BoundaryLength(b, m + k) == BoundaryLength(tail, k) {
        BoundaryShifts(b, m, k);
      }
      assert BoundaryLength(b, m + |rest|) == BoundaryLength(tail, |rest|);
      forall k | 0 <= k < |e| ensures BoundaryLength(b, k) == 0 {
        if k < m {
          NoBoundaryInLine(line, nl, tail, k);
        } else {
          assert BoundaryLength(b, m + (k - m)) == BoundaryLength(tail, k - m);
        }
      }
    }
  }

  lemma LastLine(line: Bytes, nl: Bytes, more: Bytes)
    requires OneLine(line) && IsNewline(nl)
    ensures var b := line + nl + nl + more;
            && BoundaryLength(b, |line|) == 2 * |nl|
            && forall k :: 0 <= k < |line| ==> BoundaryLength(b, k) == 0
  {
    var b := line + nl + nl + more;
    forall k | 0 <= k < |line| ensures BoundaryLength(b, k) == 0 {
      assert b[k] == line[k];
    }
  }

  lemma BoundaryShifts(b: Bytes, m: nat, k: nat)
    requires m + k < |b|
    ensures BoundaryLength(b, m + k) == BoundaryLength(b[m..], k)
  {
  }

  lemma EventIsFrame(values: seq<Bytes>, nl: Bytes, more: Bytes)
    requires GoodValues(values) && IsNewline(nl) && StartsClean(more)
    ensures SplitFrame(Event(values, nl) + nl + nl + more) == Frame(Event(values, nl), more)
  {
    hide BoundaryLength, Event;
    var b, n := Event(values, nl) + nl + nl + more, |Event(values, nl)|;
    EventBoundary(values, nl, more);
    BoundaryIsLeftmost(b, n);
    assert b[..n] == Event(values, nl) && b[n + 2 * |nl|..] == more;
  }

  ghost predicate GoodEvents(events: seq<seq<Bytes>>) {
    forall i :: 0 <= i < |events| ==> GoodValues(events[i])
  }

  lemma FramesStep(b: Bytes, frame: Bytes, rest: Bytes)
    requires SplitFrame(b) == Frame(frame, rest)
    ensures Frames(b) == [frame] + Frames(rest) && Trailing(b) == Trailing(rest)
  {
    hide SplitFrame;
  }

  /** The frames of an encoded stream are its events. */
  lemma {:induction false} FramesOfEncoded(events: seq<seq<Bytes>>, nl: Bytes)
    requires GoodEvents(events) && IsNewline(nl)
    ensures StartsClean(Encoded(events, nl)) && Trailing(Encoded(events, nl)) == []
    ensures |Frames(Encoded(events, nl))| == |events|
    ensures forall i :: 0 <= i < |events| ==> Frames(Encoded(events, nl))[i] == Event(events[i], nl)
  {
    hide SplitFrame, Event, Frames, Trailing, GoodValues, IsNewline;
    if events == [] {
      NothingIsIncomplete();
    } else {
      var rest := Encoded(events[1..], nl);
      FramesOfEncoded(events[1..], nl);
      assert events[0] != [] by { GoodIsNotEmpty(events[0]); }
      EventStartsClean(events[0], nl);
      EventIsFrame(events[0], nl, rest);
      FramesStep(Encoded(events, nl), Event(events[0], nl), rest);
    }
  }

  lemma GoodIsNotEmpty(values: seq<Bytes>)
    requires GoodValues(values)
    ensures values != []
  {
  }

  lemma NothingIsIncomplete()
    ensures Frames([]) == [] && Trailing([]) == []
  {
  }

  ghost predicate GoodContent(r: Reader, values: seq<Bytes>) {
    GoodValues(values) && Strip(JoinLines(values)) != Ascii("[DONE]") && r.read(JoinLines(values)).Texts?
  }

  /** The texts of the events, in order. */
  function TextsIn(r: Reader, events: seq<seq<Bytes>>): seq<string> {
    if events == [] then []
    else
      (if r.read(JoinLines(events[0])).Texts? then r.read(JoinLines(events[0])).texts else []) + TextsIn(r, events[1..])
  }

  lemma {:induction false} TextsOfEvents(r: Reader, events: seq<seq<Bytes>>, frames: seq<Bytes>, nl: Bytes)
    requires GoodEvents(events) && IsNewline(nl) && |frames| == |events|
    requires forall i :: 0 <= i < |events| ==> frames[i] == Event(events[i], nl)
    ensures TextsOf(r, frames) == TextsIn(r, events)
  {
    hide Event, Payload;
    if events != [] {
      EventPayload(events[0], nl);
      TextsOfEvents(r, events[1..], frames[1..], nl);
    }
  }

  const DONE: Bytes := Ascii("[DONE]")

  lemma DoneIsDone(nl: Bytes)
    requires IsNewline(nl)
    ensures GoodValues([DONE]) && IsDone(Event([DONE], nl)) && !ReportsError(Event([DONE], nl))
  {
    hide Event, Payload;
    assert forall i :: 0 <= i < |DONE| ==> !IsBreak(DONE[i]);
    EventPayload([DONE], nl);
    assert !IsSpace(DONE[0]) && !IsSpace(DONE[5]);
    assert TrimStart(DONE) == DONE && TrimEnd(DONE) == DONE;
  }

  /** Whichever line ends the provider uses, a stream of readable events that ends with [DONE] passes,
      and its content is all the texts in order. */
  lemma WellFormedStreamPasses(r: Reader, events: seq<seq<Bytes>>, nl: Bytes)
    requires IsNewline(nl) && forall i :: 0 <= i < |events| ==> GoodContent(r, events[i])
    requires |Encoded(events + [[DONE]], nl)| <= MAX_STREAM_BYTES && !r.blank(Join(TextsIn(r, events)))
    ensures var v := CheckWhole(r, Encoded(events + [[DONE]], nl));
            v.ok && v.content == Join(TextsIn(r, events))
  {
    hide Frames, Trailing, Event, TextsOf, TextsIn, Payload, GoodValues, ReportsError;
    var all := events + [[DONE]];
    DoneIsDone(nl);
    FramesOfEncoded(all, nl);
    var bytes := Encoded(all, nl);
    var frames, d := Frames(bytes), |events|;
    forall i | 0 <= i < d ensures Content(r, frames[i]) && frames[..d][i] == Event(events[i], nl) {
      assert all[i] == events[i];
      EventPayload(events[i], nl);
    }
    TextsOfEvents(r, events, frames[..d], nl);
    assert frames[d] == Event(all[d], nl);
    assert AllSilent(frames[d + 1..]);
    assert EndsAt(r, frames, d);
    assert AcceptableUpTo(r, bytes, d);
    AcceptedIff(r, bytes);
  }
}
