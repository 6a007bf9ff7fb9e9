/**
 The streaming chat proxy: passes the upstream server-sent events through chunk by chunk while
 reassembling lines to watch for the content and the finish reason. JSON text decoding is a
 parameter; everything done with the decoded value is modelled, exceptions included.
 */
module StreamProxy {
  import opened Wrappers

  newtype byte = x: int | 0 <= x < 256

  type Bytes = seq<byte>

  /** A decoded JSON value. */
  datatype Json =
    | JNull
    | JBool(b: bool)
    | JNum(r: real)
    | JStr(s: string)
    | JArr(a: seq<Json>)
    | JObj(m: map<string, Json>)

  /**
   What decoding a text gives: a value, an error the per-line handler catches, or one it does not
   (nesting beyond the interpreter's recursion limit).
   */
  datatype Parsed = Value(v: Json) | Malformed | Raised

  const NEWLINE: byte := 10
  /** "data: " */
  const DATA: Bytes := [100, 97, 116, 97, 58, 32]
  /** "[DONE]" */
  const DONE: Bytes := [91, 68, 79, 78, 69, 93]

  // ---------------------------------------------------------------------
  // Lines of a byte stream
  // ---------------------------------------------------------------------

  /** The position of the first newline, or the length if there is none. */
  function NewlineAt(b: Bytes): (k: nat)
    ensures k <= |b| && forall i | 0 <= i < k :: b[i] != NEWLINE
    ensures k < |b| ==> b[k] == NEWLINE
    ensures k < |b| <==> NEWLINE in b
  {
    if b == [] then 0 else if b[0] == NEWLINE then 0 else 1 + NewlineAt(b[1..])
  }

  /** The newline-terminated lines of a stream, without their newlines. */
  function Lines(b: Bytes): seq<Bytes> {
    var k := NewlineAt(b);
    if k < |b| then [b[..k]] + Lines(b[k + 1..]) else []
  }

  /** What follows the last newline. */
  function Tail(b: Bytes): Bytes {
    var k := NewlineAt(b);
    if k < |b| then Tail(b[k + 1..]) else b
  }

  function Terminated(lines: seq<Bytes>): Bytes {
    if lines == [] then [] else lines[0] + [NEWLINE] + Terminated(lines[1..])
  }

  /** A complete line at the front is the first line; a stream without a newline is all tail. */
  lemma {:induction false} LinesCut(line: Bytes, rest: Bytes)
    requires NEWLINE !in line
    ensures Lines(line + [NEWLINE] + rest) == [line] + Lines(rest)
    ensures Tail(line + [NEWLINE] + rest) == Tail(rest)
    ensures Lines(line) == [] && Tail(line) == line
  {
    var b := line + [NEWLINE] + rest;
    assert b[|line|] == NEWLINE && forall i | 0 <= i < |line| :: b[i] == line[i];
    assert NEWLINE in b && NewlineAt(b) == |line|;
    assert b[..|line|] == line && b[|line| + 1..] == rest;
  }

  /** Every stream with a newline splits at the first one. */
  lemma FirstLine(b: Bytes) returns (line: Bytes, rest: Bytes)
    requires NEWLINE in b
    ensures NEWLINE !in line && b == line + [NEWLINE] + rest && |rest| < |b|
  {
    var k := NewlineAt(b);
    line, rest := b[..k], b[k + 1..];
  }

  /** Splitting loses nothing: the lines, each with its newline, and the tail make up the stream. */
  lemma {:induction false} LinesRoundTrip(b: Bytes)
    ensures Terminated(Lines(b)) + Tail(b) == b
    ensures forall l | l in Lines(b) :: NEWLINE !in l
    ensures NEWLINE !in Tail(b)
    decreases |b|
  {
    hide Lines, Tail, NewlineAt;
    if NEWLINE in b {
      var line, rest := FirstLine(b);
      LinesCut(line, rest);
      LinesRoundTrip(rest);
      assert Lines(b)[1..] == Lines(rest) && Lines(b)[0] == line;
      assert Terminated(Lines(b)) == line + [NEWLINE] + Terminated(Lines(rest));
    } else {
      LinesCut(b, []);
    }
  }

  /** Splitting can be resumed from the unfinished line. */
  lemma {:induction false} LinesResume(a: Bytes, b: Bytes)
    ensures Lines(a + b) == Lines(a) + Lines(Tail(a) + b)
    ensures Tail(a + b) == Tail(Tail(a) + b)
    decreases |a|
  {
    hide Lines, Tail, NewlineAt;
    if NEWLINE in a {
      var line, rest := FirstLine(a);
      LinesCut(line, rest);
      LinesCut(line, rest + b);
      assert a + b == line + [NEWLINE] + (rest + b);
      LinesResume(rest, b);
    } else {
      LinesCut(a, []);
    }
  }

  // ---------------------------------------------------------------------
  // One line
  // ---------------------------------------------------------------------

  /** Python's notion of a value that counts as true. */
  predicate Truthy(v: Json) {
    match v
    case JNull => false
    case JBool(b) => b
    case JNum(r) => r != 0.0
    case JStr(s) => s != []
    case JArr(a) => a != []
    case JObj(m) => m != map[]
  }

  function Get(m: map<string, Json>, key: string): Json {
    if key in m then m[key] else JNull
  }

  predicate IsSpace(b: byte) {
    b == 32 || 9 <= b <= 13
  }

  function StripLeft(b: Bytes): Bytes {
    if b != [] && IsSpace(b[0]) then StripLeft(b[1..]) else b
  }

  function StripRight(b: Bytes): Bytes {
    if b != [] && IsSpace(b[|b| - 1]) then StripRight(b[..|b| - 1]) else b
  }

  function Strip(b: Bytes): Bytes {
    StripRight(StripLeft(b))
  }

  /** Tab, newline, vertical tab, form feed, carriage return and blank. */
  ghost predicate White(b: byte) {
    b == 9 || b == 10 || b == 11 || b == 12 || b == 13 || b == 32
  }

  ghost predicate AllSpace(b: Bytes) {
    forall k | 0 <= k < |b| :: White(b[k])
  }

  lemma {:induction false} StripLeftMeaning(b: Bytes) returns (left: Bytes)
    ensures b == left + StripLeft(b) && AllSpace(left)
    ensures StripLeft(b) != [] ==> !White(StripLeft(b)[0])
  {
    left := [];
    if b != [] && IsSpace(b[0]) {
      left := StripLeftMeaning(b[1..]);
      left := [b[0]] + left;
    }
  }

  lemma {:induction false} StripRightMeaning(b: Bytes) returns (right: Bytes)
    ensures b == StripRight(b) + right && AllSpace(right)
    ensures StripRight(b) != [] ==> !White(StripRight(b)[|StripRight(b)| - 1])
  {
    right := [];
    if b != [] && IsSpace(b[|b| - 1]) {
      right := StripRightMeaning(b[..|b| - 1]);
      right := right + [b[|b| - 1]];
    }
  }

  /** Stripping removes white space at both ends, all of it, and nothing else. */
  lemma StripMeaning(b: Bytes) returns (left: Bytes, right: Bytes)
    ensures b == left + Strip(b) + right && AllSpace(left) && AllSpace(right)
    ensures Strip(b) != [] ==> !White(Strip(b)[0]) && !White(Strip(b)[|Strip(b)| - 1])
  {
    left := StripLeftMeaning(b);
    right := StripRightMeaning(StripLeft(b));
  }

  lemma {:induction false} StripLeftSpace(left: Bytes, b: Bytes)
    requires AllSpace(left) && b != [] && !White(b[0])
    ensures StripLeft(left + b) == b
  {
    if left == [] {
      assert left + b == b;
    } else {
      assert (left + b)[1..] == left[1..] + b && White(left[0]);
      StripLeftSpace(left[1..], b);
    }
  }

  lemma {:induction false} StripRightSpace(b: Bytes, right: Bytes)
    requires AllSpace(right) && b != [] && !White(b[|b| - 1])
    ensures StripRight(b + right) == b
  {
    if right == [] {
      assert b + right == b;
    } else {
      var last := |right| - 1;
      assert (b + right)[..|b| + last] == b + right[..last] && White(right[last]);
      StripRightSpace(b, right[..last]);
    }
  }

  /** White space around a line makes no difference. */
  lemma StripExactly(left: Bytes, b: Bytes, right: Bytes)
    requires AllSpace(left) && AllSpace(right) && b != [] && !White(b[0]) && !White(b[|b| - 1])
    ensures Strip(left + b + right) == b
  {
    StripLeftSpace(left, b + right);
    assert left + b + right == left + (b + right);
    StripRightSpace(b, right);
  }

  predicate IsEvent(line: Bytes) {
    DATA <= line && !(|DONE| <= |line| && line[|line| - |DONE|..] == DONE)
  }

  /** What has been collected so far. */
  datatype Collected = Collected(finish: Option<Json>, parts: seq<Json>)

  /** Goes on with the next line, or stops with an exception that the per-line handler lets through. */
  datatype Outcome = Continue(got: Collected) | Abort(got: Collected)

  /** `choices or [{}]` subscripted by 0: a value, or an exception the handler does not catch. */
  datatype Subscript = Item(v: Json) | Uncaught

  /**
   The first element of `choices`. A missing or empty one stands for an empty object; a string
   yields its first character; numbers, true and non-empty objects raise an exception that is not caught.
   */
  function FirstChoice(choices: Json): Subscript {
    if !Truthy(choices) then Item(JObj(map[]))
    else match choices
      case JArr(a) => Item(a[0])
      case JStr(s) => Item(JStr(s[..1]))
      case _ => Uncaught
  }

  function AddChoice(got: Collected, choice: map<string, Json>): Collected {
    var fr := Get(choice, "finish_reason");
    var got1 := if Truthy(fr) then got.(finish := Some(fr)) else got;
    var delta := Get(choice, "delta");
    var d := if Truthy(delta) then delta else JObj(map[]);
    if d.JObj? && Truthy(Get(d.m, "content")) then got1.(parts := got1.parts + [Get(d.m, "content")]) else got1
  }

  function AddEvent(got: Collected, ev: Json): Outcome {
    if !ev.JObj? then Continue(got)
    else match FirstChoice(Get(ev.m, "choices"))
      case Uncaught => Abort(got)
      case Item(choice) => if choice.JObj? then Continue(AddChoice(got, choice.m)) else Continue(got)
  }

  function AddLine(parse: Bytes -> Parsed, got: Collected, raw: Bytes): Outcome {
    var line := Strip(raw);
    if !IsEvent(line) then Continue(got)
    else match parse(line[|DATA|..])
      case Malformed => Continue(got)
      case Raised => Abort(got)
      case Value(ev) => AddEvent(got, ev)
  }

  /** The fold over lines; it stops at the first line that aborts. */
  function FoldLines(parse: Bytes -> Parsed, got: Collected, lines: seq<Bytes>): Outcome
    decreases |lines|
  {
    if lines == [] then Continue(got)
    else
      var first := AddLine(parse, got, lines[0]);
      if first.Abort? then first else FoldLines(parse, first.got, lines[1..])
  }

  /** Goes on with more lines after an outcome. */
  function Resume(parse: Bytes -> Parsed, o: Outcome, lines: seq<Bytes>): Outcome {
    if o.Abort? then o else FoldLines(parse, o.got, lines)
  }

  const NOTHING := Collected(None, [])

  /** The meaning of a whole stream: the fold over its newline-terminated lines. */
  function Observe(parse: Bytes -> Parsed, stream: Bytes): Outcome {
    FoldLines(parse, NOTHING, Lines(stream))
  }

  // ---------------------------------------------------------------------
  // What single lines do, written out
  // ---------------------------------------------------------------------

  /** Everything counts as true but null, false, zero and the empty string, list and object. */
  lemma TruthyMeaning(v: Json)
    ensures Truthy(v) <==> v != JNull && v != JBool(false) && v != JNum(0.0) && v != JStr("") && v != JArr([]) && v != JObj(map[])
  {
  }

  /** `line` is a data line other than the end marker: "data: " in front, not "[DONE]" at the end. */
  ghost predicate DataLine(line: Bytes, text: Bytes) {
    line == [100, 97, 116, 97, 58, 32] + text
    && !White(line[|line| - 1])
    && !(|line| >= 6 && line[|line| - 6..] == [91, 68, 79, 78, 69, 93])
  }

  lemma DataLineIsEvent(line: Bytes, text: Bytes)
    requires DataLine(line, text)
    ensures Strip(line) == line && IsEvent(line) && line[|DATA|..] == text
  {
    StripExactly([], line, []);
    assert [] + line + [] == line;
  }

  /** A line without "data: " in front or with "[DONE]" at its end changes nothing. */
  lemma OtherLinesIgnored(parse: Bytes -> Parsed, got: Collected, left: Bytes, line: Bytes, right: Bytes)
    requires AllSpace(left) && AllSpace(right) && line != [] && !White(line[0]) && !White(line[|line| - 1])
    requires (|line| >= 6 && line[|line| - 6..] == [91, 68, 79, 78, 69, 93])
          || !(|line| >= 6 && line[..6] == [100, 97, 116, 97, 58, 32])
    ensures AddLine(parse, got, left + line + right) == Continue(got)
  {
    StripExactly(left, line, right);
  }

  ghost predicate FirstChoiceIs(ev: map<string, Json>, choice: map<string, Json>) {
    "choices" in ev && ev["choices"].JArr? && |ev["choices"].a| > 0 && ev["choices"].a[0] == JObj(choice)
  }

  /**
   An event adds the content of the delta of its first choice, whatever other choices it has: a
   non-empty string is added, an empty one, null or none adds nothing. In the same way a non-empty
   finish reason replaces the one before.
   */
  lemma EventCollected(parse: Bytes -> Parsed, got: Collected, left: Bytes, line: Bytes, right: Bytes, text: Bytes,
                       ev: map<string, Json>, choice: map<string, Json>)
    requires AllSpace(left) && AllSpace(right) && DataLine(line, text)
    requires parse(text) == Value(JObj(ev)) && FirstChoiceIs(ev, choice)
    ensures AddLine(parse, got, left + line + right).Continue?
    ensures var parts := AddLine(parse, got, left + line + right).got.parts;
            (forall d, s | "delta" in choice && choice["delta"] == JObj(d) && "content" in d && d["content"] == JStr(s) ::
               parts == if s == "" then got.parts else got.parts + [JStr(s)])
            && ("delta" !in choice || choice["delta"] == JNull ==> parts == got.parts)
            && (forall d | "delta" in choice && choice["delta"] == JObj(d) && ("content" !in d || d["content"] == JNull) ::
                  parts == got.parts)
    ensures var finish := AddLine(parse, got, left + line + right).got.finish;
            (forall s | "finish_reason" in choice && choice["finish_reason"] == JStr(s) ::
               finish == if s == "" then got.finish else Some(JStr(s)))
            && ("finish_reason" !in choice || choice["finish_reason"] == JNull ==> finish == got.finish)
  {
    DataLineIsEvent(line, text);
    StripExactly(left, line, right);
    assert AddLine(parse, got, left + line + right) == Continue(AddChoice(got, choice)) by {
      hide Strip;
    }
  }

  /** An event without choices changes nothing. */
  lemma NoChoicesIgnored(parse: Bytes -> Parsed, got: Collected, left: Bytes, line: Bytes, right: Bytes, text: Bytes,
                         ev: map<string, Json>)
    requires AllSpace(left) && AllSpace(right) && DataLine(line, text) && parse(text) == Value(JObj(ev))
    requires "choices" in ev ==> ev["choices"] == JNull || ev["choices"] == JArr([])
    ensures AddLine(parse, got, left + line + right) == Continue(got)
  {
    DataLineIsEvent(line, text);
    StripExactly(left, line, right);
    hide Strip;
    assert AddChoice(got, map[]) == got;
  }

  lemma OneLineObserved(parse: Bytes -> Parsed, line: Bytes)
    requires NEWLINE !in line
    ensures Observe(parse, line + [NEWLINE]) == AddLine(parse, NOTHING, line)
  {
    hide Lines, AddLine;
    LinesCut(line, []);
    assert line + [NEWLINE] + [] == line + [NEWLINE];
    NothingObserved(parse);
    FoldFirst(parse, NOTHING, line, []);
  }

  lemma OneTokenLine(parse: Bytes -> Parsed, line: Bytes, text: Bytes, s: string)
    requires s != "" && DataLine(line, text)
    requires parse(text) == Value(JObj(map["choices" := JArr([JObj(map["delta" := JObj(map["content" := JStr(s)])])])]))
    ensures AddLine(parse, NOTHING, line) == Continue(Collected(None, [JStr(s)]))
  {
    var content := map["content" := JStr(s)];
    var choice := map["delta" := JObj(content)];
    var ev := map["choices" := JArr([JObj(choice)])];
    assert ev["choices"].a[0] == JObj(choice);
    assert choice["delta"] == JObj(content) && content["content"] == JStr(s);
    hide AddLine, DataLine;
    EventCollected(parse, NOTHING, [], line, [], text, ev, choice);
    assert [] + line + [] == line;
  }

  /** A stream of one token yields that token, down to a single character. */
  lemma OneTokenCollected(parse: Bytes -> Parsed, text: Bytes, s: string)
    requires s != "" && 10 !in text && DataLine([100, 97, 116, 97, 58, 32] + text, text)
    requires parse(text) == Value(JObj(map["choices" := JArr([JObj(map["delta" := JObj(map["content" := JStr(s)])])])]))
    ensures Observe(parse, [100, 97, 116, 97, 58, 32] + text + [10]) == Continue(Collected(None, [JStr(s)]))
  {
    hide AddLine, DataLine, Observe;
    OneTokenLine(parse, [100, 97, 116, 97, 58, 32] + text, text, s);
    OneLineObserved(parse, [100, 97, 116, 97, 58, 32] + text);
  }

  // ---------------------------------------------------------------------
  // Which lines end the stream
  // ---------------------------------------------------------------------

  /**
   The line raises an exception that the handler lets through: an event line that cannot be decoded
   for its depth, or decodes to an object whose `choices` counts as true and is neither a list nor a string.
   */
  predicate Raises(parse: Bytes -> Parsed, raw: Bytes) {
    var line := Strip(raw);
    IsEvent(line) &&
    var ev := parse(line[|DATA|..]);
    ev.Raised?
    || (ev.Value? && ev.v.JObj? && "choices" in ev.v.m
        && Truthy(ev.v.m["choices"]) && !ev.v.m["choices"].JArr? && !ev.v.m["choices"].JStr?)
  }

  lemma LineAborts(parse: Bytes -> Parsed, got: Collected, raw: Bytes)
    ensures AddLine(parse, got, raw).Abort? <==> Raises(parse, raw)
  {
    hide Strip;
    var line := Strip(raw);
    if IsEvent(line) {
      match parse(line[|DATA|..])
      case Malformed =>
      case Raised =>
      case Value(ev) => assert AddLine(parse, got, raw) == AddEvent(got, ev);
    }
  }

  /** The fold aborts exactly if some line raises, whatever was collected before. */
  lemma {:induction false} AbortExactly(parse: Bytes -> Parsed, got: Collected, lines: seq<Bytes>)
    ensures FoldLines(parse, got, lines).Abort? <==> exists k :: 0 <= k < |lines| && Raises(parse, lines[k])
    decreases |lines|
  {
    hide AddLine, Raises;
    if lines != [] {
      LineAborts(parse, got, lines[0]);
      var first, rest := AddLine(parse, got, lines[0]), lines[1..];
      if first.Continue? {
        AbortExactly(parse, first.got, rest);
        if k :| 0 <= k < |lines| && Raises(parse, lines[k]) {
          assert Raises(parse, rest[k - 1]);
        }
        if k :| 0 <= k < |rest| && Raises(parse, rest[k]) {
          assert Raises(parse, lines[k + 1]);
        }
      }
    }
  }

  // ---------------------------------------------------------------------
  // What the fold collects, line by line
  // ---------------------------------------------------------------------

  /** The choice object an event line shows, if it is one and decodes to an event with such an object. */
  function ChoiceOf(parse: Bytes -> Parsed, raw: Bytes): Option<map<string, Json>> {
    var line := Strip(raw);
    var ev := if IsEvent(line) then parse(line[|DATA|..]) else Malformed;
    if ev.Value? && ev.v.JObj? then
      var first := FirstChoice(Get(ev.v.m, "choices"));
      if first.Item? && first.v.JObj? then Some(first.v.m) else None
    else None
  }

  /** The text a line contributes: nothing, or its delta's non-empty content. */
  function PartOf(parse: Bytes -> Parsed, raw: Bytes): seq<Json> {
    var choice := ChoiceOf(parse, raw);
    if choice.Some? && "delta" in choice.value && choice.value["delta"].JObj? && "content" in choice.value["delta"].m
       && Truthy(choice.value["delta"].m["content"])
    then [choice.value["delta"].m["content"]] else []
  }

  predicate Finishes(parse: Bytes -> Parsed, raw: Bytes) {
    var choice := ChoiceOf(parse, raw);
    choice.Some? && "finish_reason" in choice.value && Truthy(choice.value["finish_reason"])
  }

  function Parts(parse: Bytes -> Parsed, lines: seq<Bytes>): seq<Json>
    decreases |lines|
  {
    if lines == [] then [] else Parts(parse, lines[..|lines| - 1]) + PartOf(parse, lines[|lines| - 1])
  }

  /** The finish reason of the last line that has one. */
  function LastFinish(parse: Bytes -> Parsed, lines: seq<Bytes>): Option<Json>
    decreases |lines|
  {
    if lines == [] then None
    else if Finishes(parse, lines[|lines| - 1]) then Some(ChoiceOf(parse, lines[|lines| - 1]).value["finish_reason"])
    else LastFinish(parse, lines[..|lines| - 1])
  }

  lemma LineMeaning(parse: Bytes -> Parsed, got: Collected, raw: Bytes)
    requires AddLine(parse, got, raw).Continue?
    ensures AddLine(parse, got, raw).got
         == Collected(if Finishes(parse, raw) then Some(ChoiceOf(parse, raw).value["finish_reason"]) else got.finish,
                      got.parts + PartOf(parse, raw))
  {
    hide Strip;
    var choice := ChoiceOf(parse, raw);
    if choice.Some? {
      assert AddLine(parse, got, raw) == Continue(AddChoice(got, choice.value));
    } else if IsEvent(Strip(raw)) {
      match parse(Strip(raw)[|DATA|..])
      case Malformed =>
      case Raised =>
      case Value(ev) => assert AddLine(parse, got, raw) == AddEvent(got, ev);
    }
  }

  /**
   A stream that does not abort yields, in order, the content of every event line, and the finish
   reason of the last line that gives one.
   */
  lemma {:induction false} CollectedMeaning(parse: Bytes -> Parsed, lines: seq<Bytes>)
    requires FoldLines(parse, NOTHING, lines).Continue?
    ensures FoldLines(parse, NOTHING, lines).got == Collected(LastFinish(parse, lines), Parts(parse, lines))
    decreases |lines|
  {
    hide AddLine, PartOf, Finishes, ChoiceOf;
    if lines != [] {
      var front, last := lines[..|lines| - 1], lines[|lines| - 1];
      assert lines == front + [last];
      FoldConcat(parse, NOTHING, front, [last]);
      CollectedMeaning(parse, front);
      var got := FoldLines(parse, NOTHING, front).got;
      FoldFirst(parse, got, last, []);
      assert [last] + [] == [last];
      LineMeaning(parse, got, last);
    }
  }

  lemma {:induction false} FoldConcat(parse: Bytes -> Parsed, got: Collected, a: seq<Bytes>, b: seq<Bytes>)
    ensures FoldLines(parse, got, a + b) == Resume(parse, FoldLines(parse, got, a), b)
    decreases |a|
  {
    if a == [] {
      assert a + b == b;
    } else {
      assert (a + b)[1..] == a[1..] + b && (a + b)[0] == a[0];
      var first := AddLine(parse, got, a[0]);
      if first.Continue? {
        FoldConcat(parse, first.got, a[1..], b);
      }
    }
  }

  /** An abort in a prefix of the stream is the outcome of the whole stream. */
  lemma ObserveResume(parse: Bytes -> Parsed, a: Bytes, b: Bytes)
    ensures Observe(parse, a).Abort? ==> Observe(parse, a + b) == Observe(parse, a)
    ensures Observe(parse, a).Continue? ==>
              Observe(parse, a + b) == FoldLines(parse, Observe(parse, a).got, Lines(Tail(a) + b))
  {
    LinesResume(a, b);
    FoldConcat(parse, NOTHING, Lines(a), Lines(Tail(a) + b));
  }

  // ---------------------------------------------------------------------
  // Chunks
  // ---------------------------------------------------------------------

  function Concat(chunks: seq<Bytes>): Bytes {
    if chunks == [] then [] else Concat(chunks[..|chunks| - 1]) + chunks[|chunks| - 1]
  }

  /** The generator between two chunks: the buffered tail, the outcome so far and how many chunks went out. */
  datatype Progress = Progress(buf: Bytes, outcome: Outcome, forwarded: nat)

  /** Chunk by chunk: a chunk goes out, joins the buffer, and the complete lines are folded in. */
  function Feed(parse: Bytes -> Parsed, chunks: seq<Bytes>): Progress {
    if chunks == [] then Progress([], Continue(NOTHING), 0)
    else
      var before := Feed(parse, chunks[..|chunks| - 1]);
      if before.outcome.Abort? then before
      else
        var buf := before.buf + chunks[|chunks| - 1];
        Progress(Tail(buf), FoldLines(parse, before.outcome.got, Lines(buf)), before.forwarded + 1)
  }

  /** The bytes that were passed on. */
  function Forwarded(parse: Bytes -> Parsed, chunks: seq<Bytes>): Bytes {
    var k := Feed(parse, chunks).forwarded;
    Concat(if k <= |chunks| then chunks[..k] else chunks)
  }

  lemma ConcatPush(chunks: seq<Bytes>, k: nat)
    requires k < |chunks|
    ensures Concat(chunks[..k + 1]) == Concat(chunks[..k]) + chunks[k]
  {
    assert chunks[..k + 1][..k] == chunks[..k];
  }

  /** Drains the complete lines out of the buffer. */
  method DrainLines(parse: Bytes -> Parsed, buf: Bytes, got: Collected) returns (buf': Bytes, r: Outcome)
    ensures r == FoldLines(parse, got, Lines(buf))
    ensures r.Continue? ==> buf' == Tail(buf)
  {
    hide AddLine, Lines, Tail, NewlineAt;
    buf' := buf;
    r := Continue(got);
    while NEWLINE in buf'
      invariant r.Continue?
      invariant FoldLines(parse, got, Lines(buf)) == FoldLines(parse, r.got, Lines(buf'))
      invariant Tail(buf) == Tail(buf')
      decreases |buf'|
    {
      var k := NewlineAt(buf');
      var line, rest := buf'[..k], buf'[k + 1..];
      assert buf' == line + [NEWLINE] + rest;
      LinesCut(line, rest);
      FoldFirst(parse, r.got, line, Lines(rest));
      buf' := rest;
      r := AddLine(parse, r.got, line);
      if r.Abort? {
        return;
      }
    }
    LinesCut(buf', []);
  }

  lemma FoldFirst(parse: Bytes -> Parsed, got: Collected, line: Bytes, lines: seq<Bytes>)
    ensures FoldLines(parse, got, [line] + lines) == Resume(parse, AddLine(parse, got, line), lines)
  {
    assert ([line] + lines)[1..] == lines;
  }

  /**
   Feeding a stream in chunks observes the stream as a whole. The chunks that went out are all of
   them, or those up to the first at which what went out aborts.
   */
  lemma {:induction false} FeedMeaning(parse: Bytes -> Parsed, chunks: seq<Bytes>)
    ensures var r := Feed(parse, chunks);
            r.outcome == Observe(parse, Concat(chunks))
            && r.forwarded <= |chunks|
            && (r.outcome.Continue? ==> r.buf == Tail(Concat(chunks)) && r.forwarded == |chunks|)
            && (r.outcome.Abort? ==>
                  r.forwarded > 0
                  && Observe(parse, Concat(chunks[..r.forwarded])).Abort?
                  && Observe(parse, Concat(chunks[..r.forwarded - 1])).Continue?)
    decreases |chunks|
  {
    hide FoldLines, Lines, Tail, Observe;
    if chunks == [] {
      NothingObserved(parse);
    } else {
      var front, chunk := chunks[..|chunks| - 1], chunks[|chunks| - 1];
      var before := Feed(parse, front);
      FeedMeaning(parse, front);
      ObserveResume(parse, Concat(front), chunk);
      TailResume(Concat(front), chunk);
      if before.outcome.Abort? {
        var k := before.forwarded;
        assert chunks[..k] == front[..k] && chunks[..k - 1] == front[..k - 1];
      } else {
        assert chunks[..|chunks|] == chunks;
      }
    }
  }

  /**
   The generator. Whatever the chunking, what it collects is the fold over the lines of the whole
   stream; it forwards every chunk unless a line raises, and then up to the chunk that completed it.
   */
  method Upstream(parse: Bytes -> Parsed, chunks: seq<Bytes>) returns (forwarded: seq<Bytes>, outcome: Outcome)
    ensures outcome == Feed(parse, chunks).outcome == Observe(parse, Concat(chunks))
    ensures forwarded <= chunks && |forwarded| == Feed(parse, chunks).forwarded
    ensures outcome.Continue? ==> forwarded == chunks
  {
    hide AddLine, FoldLines, Lines, Tail, Observe, Concat;
    forwarded := [];
    var buf: Bytes := [];
    outcome := Continue(NOTHING);
    FeedMeaning(parse, chunks);
    for i := 0 to |chunks|
      invariant forwarded == chunks[..i] && outcome.Continue?
      invariant Feed(parse, chunks[..i]) == Progress(buf, outcome, i)
    {
      var chunk := chunks[i];
      forwarded := forwarded + [chunk];
      assert chunks[..i + 1][..i] == chunks[..i];
      buf := buf + chunk;
      buf, outcome := DrainLines(parse, buf, outcome.got);
      if outcome.Abort? {
        AbortIsFinal(parse, chunks, i + 1);
        return;
      }
    }
    assert chunks[..|chunks|] == chunks;
  }

  lemma NothingObserved(parse: Bytes -> Parsed)
    ensures Lines([]) == [] && Tail([]) == [] && Observe(parse, []) == Continue(NOTHING)
  {
  }

  lemma TailResume(a: Bytes, b: Bytes)
    ensures Tail(a + b) == Tail(Tail(a) + b)
  {
    LinesResume(a, b);
  }

  /** After an abort further chunks change nothing. */
  lemma {:induction false} AbortIsFinal(parse: Bytes -> Parsed, chunks: seq<Bytes>, k: nat)
    requires k <= |chunks| && Feed(parse, chunks[..k]).outcome.Abort?
    ensures Feed(parse, chunks) == Feed(parse, chunks[..k])
    decreases |chunks| - k
  {
    hide FoldLines, Lines, Tail;
    if k == |chunks| {
      assert chunks[..k] == chunks;
    } else {
      assert chunks[..k + 1][..k] == chunks[..k];
      AbortIsFinal(parse, chunks, k + 1);
    }
  }

  // ---------------------------------------------------------------------
  // Independence of the chunking
  // ---------------------------------------------------------------------

  /** Two ways of cutting the same stream collect the same and, unless a line raises, forward the same bytes. */
  lemma ChunkingIrrelevant(parse: Bytes -> Parsed, a: seq<Bytes>, b: seq<Bytes>)
    requires Concat(a) == Concat(b)
    ensures Feed(parse, a).outcome == Feed(parse, b).outcome
    ensures Feed(parse, a).outcome.Continue? ==>
              Feed(parse, a).buf == Feed(parse, b).buf && Forwarded(parse, a) == Forwarded(parse, b) == Concat(a)
  {
    hide Feed, Observe, Tail;
    FeedMeaning(parse, a);
    FeedMeaning(parse, b);
    assert a[..|a|] == a && b[..|b|] == b;
  }

  /** Some line raises and something follows it in the stream. */
  ghost predicate RaisesEarly(parse: Bytes -> Parsed, stream: Bytes) {
    exists k :: 0 <= k < |Lines(stream)| && Raises(parse, Lines(stream)[k])
                && (k + 1 < |Lines(stream)| || Tail(stream) != [])
  }

  ghost predicate ForwardsEverything(parse: Bytes -> Parsed, stream: Bytes) {
    forall chunks | Concat(chunks) == stream :: Forwarded(parse, chunks) == stream
  }

  /**
   Every chunking forwards the whole stream exactly if no line raises before the end of the stream;
   otherwise cutting right behind the raising line loses the rest.
   */
  lemma ForwardingCondition(parse: Bytes -> Parsed, stream: Bytes)
    ensures ForwardsEverything(parse, stream) <==> !RaisesEarly(parse, stream)
  {
    hide Feed, Concat, Forwarded, Lines, Tail, Raises, Observe;
    if RaisesEarly(parse, stream) {
      var k :| 0 <= k < |Lines(stream)| && Raises(parse, Lines(stream)[k])
               && (k + 1 < |Lines(stream)| || Tail(stream) != []);
      var p, rest := CutBehind(parse, stream, k);
      var chunks := [p, rest];
      ForwardsFirst(parse, p, rest);
      assert Concat(chunks) == stream && Forwarded(parse, chunks) != stream;
    } else {
      forall chunks | Concat(chunks) == stream ensures Forwarded(parse, chunks) == stream {
        NothingLost(parse, chunks);
      }
    }
  }

  /** The lines of a list of terminated lines are that list. */
  lemma {:induction false} LinesOfTerminated(lines: seq<Bytes>)
    requires forall l | l in lines :: NEWLINE !in l
    ensures Lines(Terminated(lines)) == lines && Tail(Terminated(lines)) == []
  {
    if lines == [] {
      LinesCut([], []);
    } else {
      hide Lines, Tail;
      LinesOfTerminated(lines[1..]);
      assert lines[0] in lines;
      LinesCut(lines[0], Terminated(lines[1..]));
    }
  }

  lemma {:induction false} TerminatedConcat(a: seq<Bytes>, b: seq<Bytes>)
    ensures Terminated(a + b) == Terminated(a) + Terminated(b)
  {
    if a == [] {
      assert a + b == b;
    } else {
      assert (a + b)[0] == a[0] && (a + b)[1..] == a[1..] + b;
      TerminatedConcat(a[1..], b);
    }
  }

  /** The stream cut right behind line k: the first part aborts if that line raises, the second is not empty. */
  lemma CutBehind(parse: Bytes -> Parsed, stream: Bytes, k: nat) returns (p: Bytes, rest: Bytes)
    requires k < |Lines(stream)| && Raises(parse, Lines(stream)[k])
    requires k + 1 < |Lines(stream)| || Tail(stream) != []
    ensures stream == p + rest && rest != [] && Observe(parse, p).Abort?
  {
    hide Lines, Tail, Raises, FoldLines;
    var lines := Lines(stream);
    LinesRoundTrip(stream);
    var a, b := lines[..k + 1], lines[k + 1..];
    assert lines == a + b;
    TerminatedConcat(a, b);
    p, rest := Terminated(a), Terminated(b) + Tail(stream);
    LinesOfTerminated(a);
    AbortExactly(parse, NOTHING, a);
    assert Raises(parse, a[k]);
  }

  lemma ForwardsFirst(parse: Bytes -> Parsed, p: Bytes, rest: Bytes)
    requires Observe(parse, p).Abort? && rest != []
    ensures Concat([p, rest]) == p + rest && |Forwarded(parse, [p, rest])| <= |p|
  {
    hide Observe, FoldLines, Lines, Tail;
    assert [p, rest][..1] == [p] && [p][..0] == [];
    assert Concat([p]) == [] + p == p;
    FeedMeaning(parse, [p]);
    AbortIsFinal(parse, [p, rest], 1);
    var k := Feed(parse, [p, rest]).forwarded;
    assert k <= 1 && [p, rest][..k] == [p][..k];
    assert [p][..1] == [p];
  }

  lemma {:induction false} ConcatSplit(chunks: seq<Bytes>, k: nat) returns (rest: Bytes)
    requires k <= |chunks|
    ensures Concat(chunks) == Concat(chunks[..k]) + rest
    decreases |chunks| - k
  {
    if k < |chunks| {
      ConcatPush(chunks, k);
      rest := ConcatSplit(chunks, k + 1);
      rest := chunks[k] + rest;
    } else {
      assert chunks[..k] == chunks;
      rest := [];
    }
  }

  /** If nothing follows the first raising line, no chunking loses anything. */
  lemma NothingLost(parse: Bytes -> Parsed, chunks: seq<Bytes>)
    requires !RaisesEarly(parse, Concat(chunks))
    ensures Forwarded(parse, chunks) == Concat(chunks)
  {
    hide Feed, Observe, FoldLines, Lines, Tail, Raises, Concat;
    FeedMeaning(parse, chunks);
    var k := Feed(parse, chunks).forwarded;
    if Feed(parse, chunks).outcome.Abort? {
      var p := Concat(chunks[..k]);
      var rest := ConcatSplit(chunks, k);
      AbortedPrefix(parse, p, rest);
    } else {
      assert chunks[..k] == chunks;
    }
  }

  /** A prefix that aborts with something behind it contains a line that raises early. */
  lemma AbortedPrefix(parse: Bytes -> Parsed, p: Bytes, rest: Bytes)
    requires Observe(parse, p).Abort? && !RaisesEarly(parse, p + rest)
    ensures p + rest == p
  {
    hide Lines, Tail, Raises, FoldLines;
    AbortExactly(parse, NOTHING, Lines(p));
    var k :| 0 <= k < |Lines(p)| && Raises(parse, Lines(p)[k]);
    LinesResume(p, rest);
    var more := Tail(p) + rest;
    assert Lines(p + rest)[k] == Lines(p)[k];
    LinesRoundTrip(more);
    assert Lines(more) == [] && Tail(more) == [];
    assert Terminated([]) == [];
  }

  /**
   The uncaught case is real: an event line whose `choices` decodes to a number aborts the stream, and
   whatever comes behind it in a chunk of its own is not forwarded.
   */
  lemma NumericChoicesAbort(parse: Bytes -> Parsed, line: Bytes, r: real)
    requires r != 0.0 && NEWLINE !in line && Strip(line) == line && IsEvent(line)
    requires parse(line[|DATA|..]) == Value(JObj(map["choices" := JNum(r)]))
    ensures Observe(parse, line + [NEWLINE]) == Abort(NOTHING)
    ensures forall rest | rest != [] ::
              var chunks := [line + [NEWLINE], rest];
              Concat(chunks) == line + [NEWLINE] + rest && |Forwarded(parse, chunks)| < |Concat(chunks)|
  {
    hide Lines, Strip;
    LinesCut(line, []);
    assert line + [NEWLINE] + [] == line + [NEWLINE];
    assert AddLine(parse, NOTHING, line) == Abort(NOTHING);
    assert ([line] + Lines([]))[0] == line;
    forall rest | rest != []
      ensures var chunks := [line + [NEWLINE], rest];
              Concat(chunks) == line + [NEWLINE] + rest && |Forwarded(parse, chunks)| < |Concat(chunks)|
    {
      hide Forwarded, Concat, Observe;
      ForwardsFirst(parse, line + [NEWLINE], rest);
    }
  }
}
