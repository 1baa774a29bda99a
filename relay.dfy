/**
 * The `run-url-test` and `stop-url-test` handlers of main.js: the framing of
 * the child's standard output into lines, the forwarding of the
 * `DOMAIN_RESULT:` lines to the window, and the handle of the running child.
 * Spawning, signals and the window are outside the model; `JSON.parse` is a
 * parameter that says whether a payload parses.
 */
module Relay {
  import opened Wrappers
  import opened Strings
  import opened Seqs

  const Newline: char := '\n'
  const ResultPrefix: string := "DOMAIN_RESULT:"

  // Line framing (main.js:306-318).

  /** The lines that end in a newline, each a maximal piece without one. */
  function CompleteLines(buf: string): seq<string> {
    var parts := Split(buf, Newline);
    parts[..|parts| - 1]
  }

  /** `messageBuffer` after a chunk: the incomplete last line, or empty. */
  function KeptTail(buf: string): string {
    var parts := Split(buf, Newline);
    if EndsWith(buf, Newline) then "" else parts[|parts| - 1]
  }

  /** The `lines` the loop goes over: after `pop` when the buffer does not
      end in a newline; all pieces, the last one empty, when it does. */
  function ProcessedLines(buf: string): seq<string> {
    var parts := Split(buf, Newline);
    if EndsWith(buf, Newline) then parts else parts[..|parts| - 1]
  }

  /** The lines, each followed by a newline. */
  function Terminated(lines: seq<string>): string {
    if lines == [] then "" else Terminated(lines[..|lines| - 1]) + lines[|lines| - 1] + [Newline]
  }

  lemma {:induction false} TerminatedConcat(a: seq<string>, b: seq<string>)
    ensures Terminated(a + b) == Terminated(a) + Terminated(b)
    decreases |b|
  {
    if b == [] {
      assert a + b == a;
    } else {
      var init := b[..|b| - 1];
      assert (a + b)[..|a + b| - 1] == a + init;
      TerminatedConcat(a, init);
    }
  }

  lemma {:induction false} JoinTerminated(parts: seq<string>)
    requires |parts| >= 1
    ensures Join(parts, Newline) == Terminated(parts[..|parts| - 1]) + parts[|parts| - 1]
    decreases |parts|
  {
    var n := |parts|;
    if n > 1 {
      var init := parts[..n - 1];
      JoinTerminated(init);
      JoinSnoc(init, parts[n - 1], Newline);
      assert init + [parts[n - 1]] == parts;
      assert init[..n - 2] == parts[..n - 2];
      assert parts[..n - 1][..n - 2] == parts[..n - 2];
    }
  }

  /** The complete lines, each with its newline, followed by the kept tail
      give back the buffer. */
  lemma FramingJoin(buf: string)
    ensures buf == Terminated(CompleteLines(buf)) + KeptTail(buf)
  {
    var parts := Split(buf, Newline);
    JoinTerminated(parts);
    SplitLast(buf, Newline);
  }

  /** No framed piece holds a newline. */
  lemma FramingPieces(buf: string)
    ensures Newline !in KeptTail(buf)
    ensures forall k :: 0 <= k < |CompleteLines(buf)| ==> Newline !in CompleteLines(buf)[k]
  {
  }

  /** The buffer keeps no newline; the complete lines, each with its newline,
      followed by the kept tail give back the buffer; and the loop goes over
      the complete lines, plus one empty line when the buffer ends in a
      newline. */
  lemma FramingSpec(buf: string)
    ensures Newline !in KeptTail(buf)
    ensures forall k :: 0 <= k < |CompleteLines(buf)| ==> Newline !in CompleteLines(buf)[k]
    ensures buf == Terminated(CompleteLines(buf)) + KeptTail(buf)
    ensures ProcessedLines(buf) == CompleteLines(buf) + (if EndsWith(buf, Newline) then [""] else [])
  {
    FramingJoin(buf);
    FramingPieces(buf);
    ProcessedLinesSpec(buf);
  }

  lemma ProcessedLinesSpec(buf: string)
    ensures ProcessedLines(buf) == CompleteLines(buf) + (if EndsWith(buf, Newline) then [""] else [])
  {
    var parts := Split(buf, Newline);
    if EndsWith(buf, Newline) {
      SplitLast(buf, Newline);
      EmptyLast(parts);
    }
  }

  lemma EmptyLast(parts: seq<string>)
    requires |parts| >= 1 && parts[|parts| - 1] == ""
    ensures parts == parts[..|parts| - 1] + [""]
  {
  }

  /** Framing one more chunk keeps all output equal to the framed lines
      followed by a buffer without a newline. */
  lemma FrameStep(framed: seq<string>, buffer: string, message: string)
    ensures var buf := buffer + message;
      Terminated(framed + CompleteLines(buf)) + KeptTail(buf) == Terminated(framed) + buffer + message
      && Newline !in KeptTail(buf)
  {
    var buf := buffer + message;
    FramingJoin(buf);
    FramingPieces(buf);
    TerminatedConcat(framed, CompleteLines(buf));
    Reassemble(Terminated(framed + CompleteLines(buf)), Terminated(framed), Terminated(CompleteLines(buf)),
               KeptTail(buf), buffer, message);
  }

  lemma Reassemble(t: string, tf: string, tc: string, k: string, buffer: string, message: string)
    requires t == tf + tc && buffer + message == tc + k
    ensures t + k == tf + buffer + message
  {
    assert (tf + tc) + k == tf + (tc + k);
    assert tf + (buffer + message) == (tf + buffer) + message;
  }

  // Forwarding (main.js:321-336).

  /** The payload of a `DOMAIN_RESULT:` line, trimmed; none for other lines. */
  function Payload(line: string): (r: Option<string>)
    ensures r.Some? <==> StartsWith(Trim(line), ResultPrefix)
  {
    var t := Trim(line);
    if StartsWith(t, ResultPrefix) then Some(Trim(t[|ResultPrefix|..])) else None
  }

  /** A line whose payload, as `pay` reads it, does not parse: `JSON.parse`
      throws, and the `catch` around the loop ends it. */
  predicate BreaksBy(line: string, pay: string -> Option<string>, parses: string -> bool) {
    pay(line).Some? && !parses(pay(line).value)
  }

  /** What the loop sends for `lines`: the payloads seen before the first
      line that breaks, and whether one did. */
  datatype Scan = Scan(sent: seq<string>, broken: bool)

  function ScanBy(lines: seq<string>, pay: string -> Option<string>, parses: string -> bool): Scan {
    if lines == [] then Scan([], false)
    else
      var s := ScanBy(lines[..|lines| - 1], pay, parses);
      var line := lines[|lines| - 1];
      if s.broken then s
      else if BreaksBy(line, pay, parses) then Scan(s.sent, true)
      else match pay(line)
        case None => s
        case Some(p) => Scan(s.sent + [p], false)
  }

  /** The position of the first line that breaks, or the number of lines. */
  function FirstBreakBy(lines: seq<string>, pay: string -> Option<string>, parses: string -> bool): (k: nat)
    ensures k <= |lines|
    ensures forall j :: 0 <= j < k ==> !BreaksBy(lines[j], pay, parses)
    ensures k < |lines| ==> BreaksBy(lines[k], pay, parses)
    decreases |lines|
  {
    if lines == [] then 0
    else if BreaksBy(lines[0], pay, parses) then 0
    else 1 + FirstBreakBy(lines[1..], pay, parses)
  }

  lemma {:induction false} ScanBySpec(lines: seq<string>, pay: string -> Option<string>, parses: string -> bool)
    ensures var k := FirstBreakBy(lines, pay, parses);
      ScanBy(lines, pay, parses) == Scan(Collect(lines[..k], pay), k < |lines|)
    decreases |lines|
  {
    if lines != [] {
      var init := lines[..|lines| - 1];
      var line := lines[|lines| - 1];
      ScanBySpec(init, pay, parses);
      var k := FirstBreakBy(lines, pay, parses);
      var ki := FirstBreakBy(init, pay, parses);
      FirstBreakOfInit(lines, pay, parses);
      if ki < |init| {
        assert lines[..k] == init[..ki];
      } else {
        assert init[..ki] == init;
        if k == |init| {
          assert lines[..k] == init;
        } else {
          assert lines[..k] == init + [line];
          CollectConcat(init, [line], pay);
          var one := [line];
          assert one[..0] == [];
        }
      }
    }
  }

  /** The first break of a sequence is that of its prefix without the last
      line when the prefix has one, and otherwise the last line or the end. */
  lemma FirstBreakOfInit(lines: seq<string>, pay: string -> Option<string>, parses: string -> bool)
    requires lines != []
    ensures var init := lines[..|lines| - 1];
      var ki := FirstBreakBy(init, pay, parses);
      (ki < |init| ==> FirstBreakBy(lines, pay, parses) == ki)
      && (ki == |init| ==>
            FirstBreakBy(lines, pay, parses) == if BreaksBy(lines[|init|], pay, parses) then |init| else |lines|)
  {
    var init := lines[..|lines| - 1];
    assert forall j :: 0 <= j < |init| ==> init[j] == lines[j];
  }

  /** One more line. */
  lemma ScanByStep(a: seq<string>, line: string, pay: string -> Option<string>, parses: string -> bool)
    ensures var s := ScanBy(a, pay, parses);
      ScanBy(a + [line], pay, parses) ==
        if s.broken then s
        else if pay(line).None? then s
        else if !parses(pay(line).value) then Scan(s.sent, true)
        else Scan(s.sent + [pay(line).value], false)
  {
    assert (a + [line])[..|a|] == a;
  }

  /** Once a line breaks, nothing after it is sent. */
  lemma {:induction false} ScanBroken(a: seq<string>, b: seq<string>, pay: string -> Option<string>, parses: string -> bool)
    requires ScanBy(a, pay, parses).broken
    ensures ScanBy(a + b, pay, parses) == ScanBy(a, pay, parses)
    decreases |b|
  {
    if b == [] {
      assert a + b == a;
    } else {
      assert (a + b)[..|a + b| - 1] == a + b[..|b| - 1];
      ScanBroken(a, b[..|b| - 1], pay, parses);
    }
  }

  lemma ScanBrokenPrefix(lines: seq<string>, k: nat, pay: string -> Option<string>, parses: string -> bool)
    requires k <= |lines| && ScanBy(lines[..k], pay, parses).broken
    ensures ScanBy(lines, pay, parses) == ScanBy(lines[..k], pay, parses)
  {
    ScanBroken(lines[..k], lines[k..], pay, parses);
    assert lines[..k] + lines[k..] == lines;
  }

  /** The loop over the lines of one chunk. */
  function ScanLines(lines: seq<string>, parses: string -> bool): Scan {
    ScanBy(lines, Payload, parses)
  }

  function FirstBreak(lines: seq<string>, parses: string -> bool): nat {
    FirstBreakBy(lines, Payload, parses)
  }

  /** The loop sends the payloads of the lines before the first one whose
      payload does not parse, in order; it breaks off exactly when some line
      has such a payload, and every line after that one is dropped. */
  lemma ScanLinesSpec(lines: seq<string>, parses: string -> bool)
    ensures var k := FirstBreak(lines, parses);
      && k <= |lines|
      && (forall j :: 0 <= j < k ==> Payload(lines[j]).None? || parses(Payload(lines[j]).value))
      && (k < |lines| ==> Payload(lines[k]).Some? && !parses(Payload(lines[k]).value))
      && ScanLines(lines, parses) == Scan(Collect(lines[..k], Payload), k < |lines|)
  {
    ScanBySpec(lines, Payload, parses);
  }

  /** A valid result line behind one that breaks in the same chunk is lost. */
  lemma LaterResultLost(bad: string, good: string, parses: string -> bool)
    requires Unpadded(bad) && Unpadded(good)
    requires !parses(bad) && parses(good)
    ensures var lines := [ResultPrefix + bad, ResultPrefix + good];
      Payload(lines[1]).Some? && ScanLines(lines, parses).sent == []
  {
    var lines := [ResultPrefix + bad, ResultPrefix + good];
    PayloadOfResultLine(bad);
    PayloadOfResultLine(good);
    ScanLinesSpec(lines, parses);
  }

  /** No white space at either end, as with the text `JSON.stringify` gives. */
  predicate Unpadded(s: string) {
    s == [] || (!IsSpace(s[0]) && !IsSpace(s[|s| - 1]))
  }

  /** The line the child writes for a record has that record as payload,
      when the record text has no white space at its ends. */
  lemma PayloadOfResultLine(json: string)
    requires Unpadded(json)
    ensures Payload(ResultPrefix + json) == Some(json)
  {
    var line := ResultPrefix + json;
    TrimFixed(line);
    TrimFixed(json);
    assert line[|ResultPrefix|..] == json;
    assert line[..|ResultPrefix|] == ResultPrefix;
  }

  // The stdout handler (main.js:293-337).

  class StdoutRelay {
    var output: string
    var messageBuffer: string
    /** The `test-progress` messages, one per chunk. */
    var progress: seq<string>
    /** The `domain-result` payloads sent to the window. */
    var results: seq<string>
    /** The complete lines framed so far. */
    ghost var framed: seq<string>

    /** All output so far is the framed lines followed by the buffer, which
        holds no newline. */
    ghost predicate Valid()
      reads this
    {
      output == Terminated(framed) + messageBuffer && Newline !in messageBuffer
    }

    constructor()
      ensures Valid()
      ensures output == "" && messageBuffer == "" && progress == [] && results == [] && framed == []
    {
      output := "";
      messageBuffer := "";
      progress := [];
      results := [];
      framed := [];
    }

    /** One `data` event with the chunk `message`. */
    method OnData(message: string, parses: string -> bool)
      requires Valid()
      modifies this
      ensures Valid()
      ensures output == old(output) + message
      ensures progress == old(progress) + [message]
      ensures messageBuffer == KeptTail(old(messageBuffer) + message)
      ensures framed == old(framed) + CompleteLines(old(messageBuffer) + message)
      ensures results == old(results) + ScanLines(ProcessedLines(old(messageBuffer) + message), parses).sent
    {
      FrameStep(framed, messageBuffer, message);
      output := output + message;
      progress := progress + [message];
      var buf := messageBuffer + message;
      framed := framed + CompleteLines(buf);
      var lines := Split(buf, Newline);
      if !EndsWith(buf, Newline) {
        messageBuffer := lines[|lines| - 1];
        lines := lines[..|lines| - 1];
      } else {
        messageBuffer := "";
      }
      assert lines == ProcessedLines(buf);
      var sent := Forward(lines, parses);
      results := results + sent;
    }
  }

  /** The `for` loop inside the `try`: the payloads sent for `lines`. */
  method Forward(lines: seq<string>, parses: string -> bool) returns (sent: seq<string>)
    ensures sent == ScanLines(lines, parses).sent
  {
    sent := [];
    var i := 0;
    while i < |lines|
      invariant 0 <= i <= |lines|
      invariant sent == ScanLines(lines[..i], parses).sent
      invariant !ScanLines(lines[..i], parses).broken
    {
      ScanByStep(lines[..i], lines[i], Payload, parses);
      assert lines[..i] + [lines[i]] == lines[..i + 1];
      var trimmedLine := Trim(lines[i]);
      if StartsWith(trimmedLine, ResultPrefix) {
        var jsonPart := Trim(trimmedLine[|ResultPrefix|..]);
        assert Payload(lines[i]) == Some(jsonPart);
        if !parses(jsonPart) {
          ScanBrokenPrefix(lines, i + 1, Payload, parses);
          return;
        }
        sent := sent + [jsonPart];
      }
      i := i + 1;
    }
    assert lines[..i] == lines;
  }

  // The handle of the running child (main.js:359, 364-389).

  /** What `stop-url-test` answers. */
  datatype StopReply = Stopped | NoRunningTest

  /** The answer and the handle after a stop request. */
  function StopOutcome(current: Option<nat>): (StopReply, Option<nat>) {
    if current.Some? then (Stopped, None) else (NoRunningTest, None)
  }

  /** A stop with a live handle succeeds and clears it, so a second stop
      right after it finds no test; a stop without a handle changes nothing. */
  lemma StopTwice(current: Option<nat>)
    ensures StopOutcome(current).0 == Stopped <==> current.Some?
    ensures StopOutcome(StopOutcome(current).1).0 == NoRunningTest
    ensures current.None? ==> StopOutcome(current).1 == current
  {
  }

  class TestControl {
    /** `global.currentTestProcess`: the child, by its spawn number. */
    var current: Option<nat>
    var spawned: nat
    /** The children sent `SIGTERM`, in order. */
    var terminated: seq<nat>

    constructor()
      ensures current.None? && spawned == 0 && terminated == []
    {
      current := None;
      spawned := 0;
      terminated := [];
    }

    /** `run-url-test` once the child is spawned. The handle is not cleared
        when the child closes, so it outlives a finished run. */
    method Spawn()
      modifies this
      ensures current == Some(old(spawned)) && spawned == old(spawned) + 1
      ensures terminated == old(terminated)
    {
      current := Some(spawned);
      spawned := spawned + 1;
    }

    /** `stop-url-test`. */
    method Stop() returns (r: StopReply)
      modifies this
      ensures (r, current) == StopOutcome(old(current))
      ensures spawned == old(spawned)
      ensures terminated == old(terminated) + (if old(current).Some? then [old(current).value] else [])
    {
      if current.Some? {
        terminated := terminated + [current.value];
        current := None;
        r := Stopped;
      } else {
        r := NoRunningTest;
      }
    }
  }
}
