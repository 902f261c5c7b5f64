/** Finding the last record of the audit log by reading it backwards in chunks. */
module AuditScan {
  newtype byte = b: int | 0 <= b < 256

  type Bytes = seq<byte>

  const LF: byte := 10
  const CR: byte := 13
  const CHUNK: nat := 65536
  const MAX_RECORD_BYTES: nat := 65536
  const RECOVERY_LIMIT: nat := 1048576

  predicate IsBreak(b: byte) { b == LF || b == CR }

  /** The ASCII whitespace that `strip` removes. */
  predicate IsSpace(b: byte) { 9 <= b <= 13 || b == 32 }

  predicate Blank(line: Bytes) { forall i :: 0 <= i < |line| ==> IsSpace(line[i]) }

  /** The position of the first line break, or the length when there is none. */
  function FirstBreak(b: Bytes): (k: nat)
    ensures k <= |b|
    ensures forall i :: 0 <= i < k ==> !IsBreak(b[i])
    ensures k < |b| ==> IsBreak(b[k])
  {
    if b == [] || IsBreak(b[0]) then 0 else 1 + FirstBreak(b[1..])
  }

  // ----- splitlines -------------------------------------------------------------------------

  /** How many bytes the line break at position k takes: CR LF counts as one. */
  function BreakLength(b: Bytes, k: nat): nat
    requires k < |b|
  {
    if b[k] == CR && k + 1 < |b| && b[k + 1] == LF then 2 else 1
  }

  /** `bytes.splitlines()`: a break at the very end opens no further line. */
  function SplitLines(b: Bytes): seq<Bytes>
    decreases |b|
  {
    if b == [] then []
    else
      var k := FirstBreak(b);
      if k == |b| then [b] else [b[..k]] + SplitLines(b[k + BreakLength(b, k)..])
  }

  function NonBlank(lines: seq<Bytes>): seq<Bytes> {
    if lines == [] then []
    else (if Blank(lines[0]) then [] else [lines[0]]) + NonBlank(lines[1..])
  }

  /** The non-blank lines of a text, splitting at every single break byte.  The extra empty line
      that CR LF yields this way is blank, so nothing is lost. */
  function Lines(b: Bytes): seq<Bytes>
    decreases |b|
  {
    var k := FirstBreak(b);
    var rest := if k == |b| then [] else Lines(b[k + 1..]);
    if Blank(b[..k]) then rest else [b[..k]] + rest
  }

  lemma {:induction false} LinesAreNonBlankSplitLines(b: Bytes)
    ensures NonBlank(SplitLines(b)) == Lines(b)
    decreases |b|
  {
    hide FirstBreak, Lines, NonBlank, SplitLines, Kept;
    var k := FirstBreak(b);
    LinesStep(b);
    SplitStep(b);
    if b == [] {
      NonBlankCons([], []);
      assert Kept([]) == [] by { EmptyIsNotKept(); }
    } else if k == |b| {
      NonBlankCons(b, []);
    } else {
      var rest := b[k + BreakLength(b, k)..];
      LinesAreNonBlankSplitLines(rest);
      NonBlankCons(b[..k], SplitLines(rest));
      if BreakLength(b, k) == 2 {
        FeedOpensNothing(b[k + 1..]);
        assert b[k + 1..][1..] == rest;
      }
    }
  }

  lemma SplitStep(b: Bytes)
    ensures b == [] ==> SplitLines(b) == []
    ensures b != [] && FirstBreak(b) == |b| ==> SplitLines(b) == [b] + []
    ensures var k := FirstBreak(b);
            k < |b| ==> SplitLines(b) == [b[..k]] + SplitLines(b[k + BreakLength(b, k)..])
  {
    hide FirstBreak, IsBreak, BreakLength;
  }

  lemma EmptyIsNotKept()
    ensures Kept([]) == []
  {
  }

  /** The feed of CR LF closes an empty line. */
  lemma FeedOpensNothing(tail: Bytes)
    requires tail != [] && IsBreak(tail[0])
    ensures Lines(tail) == Lines(tail[1..])
  {
    hide Lines;
    LinesStep(tail);
    assert tail[..0] == [];
  }

  lemma NonBlankCons(line: Bytes, rest: seq<Bytes>)
    ensures NonBlank([line] + rest) == Kept(line) + NonBlank(rest)
    ensures NonBlank([]) == []
  {
    assert ([line] + rest)[1..] == rest;
  }

  // ----- Lines of a concatenation -----------------------------------------------------------

  lemma {:induction false} FirstBreakPrefix(a: Bytes, c: Bytes)
    requires FirstBreak(a) < |a|
    ensures FirstBreak(a + c) == FirstBreak(a)
  {
    assert (a + c)[FirstBreak(a)] == a[FirstBreak(a)];
    forall i | 0 <= i < FirstBreak(a) ensures !IsBreak((a + c)[i]) {
      assert (a + c)[i] == a[i];
    }
  }

  lemma {:induction false} FirstBreakAt(a: Bytes, brk: byte, c: Bytes)
    requires IsBreak(brk) && FirstBreak(a) == |a|
    ensures FirstBreak(a + [brk] + c) == |a|
  {
    var s := a + [brk] + c;
    assert s[|a|] == brk;
    forall i | 0 <= i < |a| ensures !IsBreak(s[i]) {
      assert s[i] == a[i];
    }
  }

  function Kept(line: Bytes): seq<Bytes> {
    if Blank(line) then [] else [line]
  }

  lemma LinesStep(b: Bytes)
    ensures FirstBreak(b) < |b| ==> Lines(b) == Kept(b[..FirstBreak(b)]) + Lines(b[FirstBreak(b) + 1..])
    ensures FirstBreak(b) == |b| ==> Lines(b) == Kept(b)
  {
    hide FirstBreak, Blank;
    if FirstBreak(b) == |b| {
      assert b[..|b|] == b;
    }
  }

  /** The lines around a break are the lines before it and the lines after it. */
  lemma {:induction false} LinesAcrossBreak(a: Bytes, brk: byte, c: Bytes)
    requires IsBreak(brk)
    ensures Lines(a + [brk] + c) == Lines(a) + Lines(c)
    decreases |a|
  {
    hide Lines, FirstBreak, Kept;
    var s := a + [brk] + c;
    var k := FirstBreak(a);
    LinesStep(s);
    LinesStep(a);
    if k == |a| {
      FirstBreakAt(a, brk, c);
      assert s[..|a|] == a && s[|a| + 1..] == c;
    } else {
      assert s == a + ([brk] + c);
      FirstBreakPrefix(a, [brk] + c);
      assert s[..k] == a[..k] && s[k + 1..] == a[k + 1..] + [brk] + c;
      LinesAcrossBreak(a[k + 1..], brk, c);
    }
  }

  lemma {:induction false} BreaklessLines(b: Bytes)
    requires FirstBreak(b) == |b|
    ensures Lines(b) == if Blank(b) then [] else [b]
  {
    assert b[..|b|] == b;
  }

  /** Cutting a text at its first break: the part before it is at most one line. */
  lemma {:induction false} CutAtFirstBreak(b: Bytes) returns (head: Bytes, brk: byte, tail: Bytes)
    requires |Lines(b)| >= 2
    ensures IsBreak(brk) && b == head + [brk] + tail
    ensures Lines(b) == Lines(head) + Lines(tail) && |Lines(head)| <= 1
  {
    hide Lines;
    var k := FirstBreak(b);
    if k == |b| {
      BreaklessLines(b);
      assert false;
    } else {
      head, brk, tail := b[..k], b[k], b[k + 1..];
      assert FirstBreak(head) == |head| by {
        forall i | 0 <= i < k ensures !IsBreak(head[i]) {
          assert head[i] == b[i];
        }
      }
      BreaklessLines(head);
      LinesAcrossBreak(head, brk, tail);
    }
  }

  /** The lines of a suffix with two lines, but for the first of them, end the whole text. */
  lemma {:induction false} LinesOfWhole(whole: Bytes, n: nat) returns (front: Bytes, head: Bytes, tail: Bytes)
    requires n <= |whole| && |Lines(whole[n..])| >= 2
    ensures Lines(whole) == Lines(front) + Lines(tail)
    ensures Lines(whole[n..]) == Lines(head) + Lines(tail) && |Lines(head)| <= 1
    ensures front == whole[..n] + head
  {
    hide Lines;
    var brk: byte;
    head, brk, tail := CutAtFirstBreak(whole[n..]);
    front := whole[..n] + head;
    assert whole == front + [brk] + tail by {
      assert whole == whole[..n] + whole[n..];
    }
    LinesAcrossBreak(front, brk, tail);
  }

  /** The last non-blank line of a whole text is the last one of any suffix that shows two. */
  lemma LastLineOfSuffix(whole: Bytes, n: nat)
    requires n <= |whole| && |Lines(whole[n..])| >= 2
    ensures Lines(whole) != [] && Lines(whole)[|Lines(whole)| - 1] == Lines(whole[n..])[|Lines(whole[n..])| - 1]
  {
    hide Lines;
    var front, head, tail := LinesOfWhole(whole, n);
    assert Lines(tail) != [];
  }

  function FirstNonBlank(b: Bytes): (i: nat)
    requires !Blank(b)
    ensures i < |b| && !IsSpace(b[i])
  {
    if !IsSpace(b[0]) then 0 else 1 + FirstNonBlank(b[1..])
  }

  /** A text with a byte that is not whitespace has a non-blank line. */
  lemma {:induction false} SomethingInLine(b: Bytes, i: nat)
    requires i < |b| && !IsSpace(b[i])
    ensures Lines(b) != []
    decreases |b|
  {
    var k := FirstBreak(b);
    if i < k {
      assert b[..k][i] == b[i];
    } else if k < |b| {
      SomethingInLine(b[k + 1..], i - k - 1);
    }
  }

  /** ... and the other way round. */
  lemma {:induction false} BlankHasNoLines(b: Bytes)
    requires Blank(b)
    ensures Lines(b) == []
    decreases |b|
  {
    var k := FirstBreak(b);
    assert Blank(b[..k]);
    if k < |b| {
      BlankHasNoLines(b[k + 1..]);
    }
  }

  /** A text shows at least two non-blank lines if one of its suffixes does. */
  lemma MoreTextMoreLines(whole: Bytes, n: nat)
    requires n <= |whole| && |Lines(whole[n..])| >= 2
    ensures |Lines(whole)| >= 2
  {
    hide Lines, FirstBreak, IsSpace;
    var front, head, tail := LinesOfWhole(whole, n);
    if Blank(head) {
      BlankHasNoLines(head);
    } else {
      var i := FirstNonBlank(head);
      assert front[n + i] == head[i];
      SomethingInLine(front, n + i);
    }
  }

  // ----- The scan -----------------------------------------------------------------------------

  datatype LastLine = Nothing | Line(bytes: Bytes) | LimitExceeded

  /** The last non-blank line of the file, by definition. */
  function LastLineOf(file: Bytes): LastLine {
    var lines := Lines(file);
    if lines == [] then Nothing else Line(lines[|lines| - 1])
  }

  function Suffix(file: Bytes, length: nat): Bytes {
    if length <= |file| then file[|file| - length..] else file
  }

  /** The final megabyte of a longer file shows fewer than two non-blank lines. */
  predicate Unrecoverable(file: Bytes) {
    |file| > RECOVERY_LIMIT && |Lines(Suffix(file, RECOVERY_LIMIT))| < 2
  }

  /** What the scan returns. */
  function Verdict(file: Bytes): LastLine {
    if Unrecoverable(file) then LimitExceeded else LastLineOf(file)
  }

  function LastOf(lines: seq<Bytes>): LastLine {
    if lines == [] then Nothing else Line(lines[|lines| - 1])
  }

  /** Two lines in the buffer, or the whole file in it, settle the verdict. */
  lemma Settled(file: Bytes, position: nat)
    requires position <= |file| <= position + RECOVERY_LIMIT
    requires position == 0 || |Lines(file[position..])| >= 2
    ensures Verdict(file) == LastOf(Lines(file[position..]))
  {
    hide Lines;
    if position == 0 {
      assert file[position..] == file;
    } else {
      LastLineOfSuffix(file, position);
      if |file| > RECOVERY_LIMIT {
        var final := Suffix(file, RECOVERY_LIMIT);
        var skipped := |final| - (|file| - position);
        assert final[skipped..] == file[position..];
        MoreTextMoreLines(final, skipped);
      }
    }
  }

  lemma LimitReached(file: Bytes)
    requires |file| > RECOVERY_LIMIT && |Lines(Suffix(file, RECOVERY_LIMIT))| < 2
    ensures Verdict(file) == LimitExceeded
  {
  }

  lemma EmptyFile()
    ensures Lines([]) == [] && Verdict([]) == Nothing
  {
    BreaklessLines([]);
  }

  lemma OneChunkMore(file: Bytes, start: nat, position: nat)
    requires start <= position <= |file|
    ensures file[start..position] + file[position..] == file[start..]
    ensures Suffix(file, |file| - position) == file[position..]
  {
  }

  /** Reads the file from its end, chunk by chunk, until two non-blank lines are in the buffer or
      the file is exhausted.  It finds the last non-blank line of the whole file, and gives up on
      exactly the unrecoverable files.  `chunks` counts the chunks. */
  method ScanBackwards(file: Bytes) returns (last: LastLine, chunks: nat)
    ensures last == Verdict(file)
    ensures chunks > 1 ==> 65536 * (chunks - 1) < |file| && |Lines(Suffix(file, 65536 * (chunks - 1)))| < 2
    ensures chunks <= 16 + 1
  {
    hide Lines, Blank, FirstBreak, NonBlank, SplitLines, Verdict, Unrecoverable, Suffix;
    chunks := 0;
    EmptyFile();
    if |file| == 0 {
      return Nothing, 0;
    }
    var buffer: Bytes := [];
    var position := |file|;
    var lines: seq<Bytes> := [];
    assert file[position..] == [];
    while position > 0
      invariant 0 <= position <= |file|
      invariant buffer == file[position..] && |buffer| <= RECOVERY_LIMIT
      invariant position > 0 ==> |file| - position == 65536 * chunks
      invariant chunks > 0 ==> 65536 * (chunks - 1) < |file|
      invariant chunks > 0 && position == 0 ==> |file| <= RECOVERY_LIMIT
      invariant chunks <= 16
      invariant position < |file| ==> lines == Lines(buffer)
      invariant position > 0 ==> |Lines(buffer)| < 2
      invariant chunks > 1 ==> |Lines(Suffix(file, 65536 * (chunks - 1)))| < 2
      decreases position
    {
      var start := if position >= CHUNK then position - CHUNK else 0;
      OneChunkMore(file, start, position);
      buffer := file[start..position] + buffer;
      position := start;
      chunks := chunks + 1;
      LinesAreNonBlankSplitLines(buffer);
      lines := NonBlank(SplitLines(buffer));
      if |buffer| > RECOVERY_LIMIT {
        LimitReached(file);
        return LimitExceeded, chunks;
      }
      if position == 0 || |lines| >= 2 {
        break;
      }
    }
    Settled(file, position);
    if lines == [] {
      return Nothing, chunks;
    }
    last := Line(lines[|lines| - 1]);
  }

  // ----- Logs of bounded records --------------------------------------------------------------

  /** A serialized record: one line of bounded length that ends in a byte that is not blank. */
  predicate RecordLine(line: Bytes) {
    && 0 < |line| <= MAX_RECORD_BYTES
    && FirstBreak(line) == |line|
    && !IsSpace(line[|line| - 1])
  }

  /** The log file: every record followed by a line feed. */
  function LogFile(records: seq<Bytes>): Bytes {
    if records == [] then [] else LogFile(records[..|records| - 1]) + records[|records| - 1] + [LF]
  }

  lemma RecordLineAlone(record: Bytes)
    requires RecordLine(record)
    ensures Lines(record + [LF]) == [record]
  {
    BreaklessLines(record);
    assert !Blank(record) by {
      assert !IsSpace(record[|record| - 1]);
    }
    FinalFeed(record);
  }

  /** A line feed at the end opens no further line. */
  lemma FinalFeed(b: Bytes)
    ensures Lines(b + [LF]) == Lines(b)
  {
    BreaklessLines([]);
    LinesAcrossBreak(b, LF, []);
    assert b + [LF] + [] == b + [LF];
  }

  predicate EndsInFeed(file: Bytes) {
    file == [] || file[|file| - 1] == LF
  }

  /** Appending a record to a file that is empty or ends in a line feed adds exactly one line. */
  lemma LinesAfterAppend(file: Bytes, record: Bytes)
    requires RecordLine(record) && EndsInFeed(file)
    ensures Lines(file + record + [LF]) == Lines(file) + [record]
    ensures EndsInFeed(file + record + [LF])
  {
    RecordLineAlone(record);
    if file == [] {
      BreaklessLines([]);
      assert file + record + [LF] == record + [LF];
    } else {
      var body := file[..|file| - 1];
      assert file == body + [LF];
      assert file + record + [LF] == body + [LF] + (record + [LF]);
      LinesAcrossBreak(body, LF, record + [LF]);
      FinalFeed(body);
    }
  }

  lemma Rejoin<T>(s: seq<T>)
    requires s != []
    ensures s[..|s| - 1] + [s[|s| - 1]] == s
  {
  }

  lemma {:induction false} LinesOfLog(records: seq<Bytes>)
    requires forall i :: 0 <= i < |records| ==> RecordLine(records[i])
    ensures Lines(LogFile(records)) == records && EndsInFeed(LogFile(records))
  {
    if records == [] {
      BreaklessLines([]);
    } else {
      var n := |records| - 1;
      var file, record := LogFile(records[..n]), records[n];
      Rejoin(records);
      assert LogFile(records) == file + record + [LF];
      LinesOfLog(records[..n]);
      LinesAfterAppend(file, record);
    }
  }

  /** On a log of bounded records two chunks always show two lines or the whole file. */
  lemma {:induction false} TwoChunksSuffice(records: seq<Bytes>)
    requires forall i :: 0 <= i < |records| ==> RecordLine(records[i])
    ensures |LogFile(records)| <= 131072 || |Lines(Suffix(LogFile(records), 131072))| >= 2
  {
    var file := LogFile(records);
    if |file| > 131072 {
      var n := |records| - 1;
      var last := records[n];
      var before := LogFile(records[..n]);
      assert n > 0;
      var second := records[n - 1];
      var front := LogFile(records[..n][..n - 1]);
      assert before == front + second + [LF];
      var cut := |file| - 131072;
      var kept := (front + second)[cut..];
      assert Suffix(file, 131072) == kept + [LF] + (last + [LF]);
      LinesAcrossBreak(kept, LF, last + [LF]);
      assert kept[|kept| - 1] == second[|second| - 1];
      SomethingInLine(kept, |kept| - 1);
      SomethingInLine(last + [LF], |last| - 1);
    }
  }

  /** On a log whose records obey the limit the scan reads at most two chunks, never hits the
      recovery limit, and finds the record appended last. */
  method ScanLog(records: seq<Bytes>) returns (last: LastLine, chunks: nat)
    requires forall i :: 0 <= i < |records| ==> RecordLine(records[i])
    ensures last == if records == [] then Nothing else Line(records[|records| - 1])
    ensures chunks <= 2
  {
    hide Lines;
    LinesOfLog(records);
    TwoChunksSuffice(records);
    BoundedLogRecoverable(records);
    last, chunks := ScanBackwards(LogFile(records));
    if chunks > 2 {
      var file := LogFile(records);
      var more := Suffix(file, 65536 * (chunks - 1));
      var two := Suffix(file, 131072);
      assert more[|more| - 131072..] == two;
      MoreTextMoreLines(more, |more| - 131072);
      assert false;
    }
  }

  lemma BoundedLogRecoverable(records: seq<Bytes>)
    requires forall i :: 0 <= i < |records| ==> RecordLine(records[i])
    ensures !Unrecoverable(LogFile(records))
  {
    hide Lines, LogFile, RecordLine;
    var file := LogFile(records);
    TwoChunksSuffice(records);
    if |file| > RECOVERY_LIMIT {
      var more, two := Suffix(file, RECOVERY_LIMIT), Suffix(file, 131072);
      assert more[|more| - 131072..] == two;
      MoreTextMoreLines(more, |more| - 131072);
    }
  }
}
