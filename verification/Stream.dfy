/**
 The streaming re-framer: decoded text arrives in arbitrary pieces, and leaves as events, one per line of
 the backend's output.  `StreamResponse` is the incremental loop; `Whole` says what the whole text means.
 */
module Stream {
  import opened Collections
  import opened Prelude

  const I32_LIMIT := 0x8000_0000

  /** One parsed line of the backend's output. */
  datatype BackendChunk = BackendChunk(content: Option<string>, done: bool, promptEvalCount: nat, evalCount: nat)

  datatype Event = Role | Content(text: string) | Stop | EndOfStream

  datatype Usage = Usage(tokensIn: int, tokensOut: int)

  /** Library functions the loop calls: trimming, JSON parsing and PII filtering. */
  datatype Codec = Codec(trim: string -> string, parse: string -> Option<BackendChunk>, filterPii: string -> string)

  datatype Outcome = Outcome(events: seq<Event>, recorded: seq<Usage>)

  /** A `u32` stored as an `i32`. */
  function AsI32(n: nat): int {
    var m := n % U32_LIMIT;
    if m < I32_LIMIT then m else m - U32_LIMIT
  }

  // ----- Lines

  /** The position of the first newline, or the length if there is none. */
  function NewlineAt(s: string): nat {
    if s == "" || s[0] == '\n' then 0 else 1 + NewlineAt(s[1..])
  }

  lemma {:induction false} NewlineAtIs(s: string)
    ensures NewlineAt(s) <= |s| && '\n' !in s[..NewlineAt(s)]
    ensures NewlineAt(s) < |s| ==> s[NewlineAt(s)] == '\n'
  {
    if s != "" && s[0] != '\n' {
      NewlineAtIs(s[1..]);
      assert s[..NewlineAt(s)] == [s[0]] + s[1..][..NewlineAt(s[1..])];
    }
  }

  /** The terminated lines of a text; what follows the last newline is not one. */
  function Lines(s: string): seq<string>
    decreases |s|
  {
    NewlineAtIs(s);
    if NewlineAt(s) == |s| then [] else [s[..NewlineAt(s)]] + Lines(s[NewlineAt(s) + 1..])
  }

  // ----- What a line means

  datatype Meaning = Nothing | Says(text: string) | Finishes(usage: Usage)

  function MeaningOf(codec: Codec, raw: string): Meaning {
    var line := codec.trim(raw);
    if line == "" then Nothing
    else
      match codec.parse(line)
      case None => Nothing
      case Some(chunk) =>
        if chunk.done then Finishes(Usage(AsI32(chunk.promptEvalCount), AsI32(chunk.evalCount)))
        else
          match chunk.content
          case None => Nothing
          case Some(text) => if codec.filterPii(text) == "" then Nothing else Says(codec.filterPii(text))
  }

  /** The index of the first line that finishes the answer, or the number of lines. */
  function FirstFinish(codec: Codec, lines: seq<string>): nat {
    if lines == [] || MeaningOf(codec, lines[0]).Finishes? then 0 else 1 + FirstFinish(codec, lines[1..])
  }

  lemma {:induction false} FirstFinishIs(codec: Codec, lines: seq<string>)
    ensures FirstFinish(codec, lines) <= |lines|
    ensures forall i :: 0 <= i < FirstFinish(codec, lines) ==> !MeaningOf(codec, lines[i]).Finishes?
    ensures FirstFinish(codec, lines) < |lines| ==> MeaningOf(codec, lines[FirstFinish(codec, lines)]).Finishes?
  {
    if lines != [] && !MeaningOf(codec, lines[0]).Finishes? {
      FirstFinishIs(codec, lines[1..]);
      forall i | 0 <= i < FirstFinish(codec, lines) ensures !MeaningOf(codec, lines[i]).Finishes? {
        assert i > 0 ==> lines[i] == lines[1..][i - 1];
      }
    }
  }

  /** What the lines say, in order, one event per line that says anything. */
  function Contents(codec: Codec, lines: seq<string>): seq<Event> {
    if lines == [] then []
    else
      (match MeaningOf(codec, lines[0]) case Says(text) => [Content(text)] case _ => []) + Contents(codec, lines[1..])
  }

  /**
   What a whole text is turned into: the role, then everything said up to the first finishing line, then
   `Stop` if there is such a line, then the end marker.  Usage is recorded only from a finishing line.
   */
  function Whole(codec: Codec, hasDb: bool, text: string): Outcome {
    var lines := Lines(text);
    var f := FirstFinish(codec, lines);
    FirstFinishIs(codec, lines);
    var said := [Role] + Contents(codec, lines[..f]);
    if f < |lines| then
      Outcome(said + [Stop, EndOfStream], if hasDb then [MeaningOf(codec, lines[f]).usage] else [])
    else Outcome(said + [EndOfStream], [])
  }

  // ----- The incremental loop

  /** The text received before the stream ends or a read fails (`None`). */
  function Received(chunks: seq<Option<string>>): string {
    if chunks == [] then ""
    else match chunks[0] case None => "" case Some(text) => text + Received(chunks[1..])
  }

  /** Chunks are read one after the other, and none after a failed read. */
  lemma {:induction false} ReceivedIs(a: seq<Option<string>>, b: seq<Option<string>>, text: string)
    ensures Received([Some(text)]) == text
    ensures None !in a ==> Received(a + b) == Received(a) + Received(b)
    ensures None in a ==> Received(a + b) == Received(a)
  {
    assert [Some(text)][1..] == [];
    if a == [] {
      assert a + b == b;
    } else {
      assert (a + b)[1..] == a[1..] + b;
      ReceivedIs(a[1..], b, text);
    }
  }

  lemma ReceivedFrom(chunks: seq<Option<string>>, k: nat)
    requires k < |chunks|
    ensures Received(chunks[k..]) == match chunks[k] case None => "" case Some(text) => text + Received(chunks[k + 1..])
  {
    assert chunks[k..][1..] == chunks[k + 1..];
  }

  lemma {:induction false} NewlineAtConcat(a: string, b: string)
    requires NewlineAt(a) < |a|
    ensures NewlineAt(a + b) == NewlineAt(a)
  {
    if a[0] != '\n' {
      assert (a + b)[1..] == a[1..] + b;
      NewlineAtConcat(a[1..], b);
    }
  }

  /** Cutting the first line off what is buffered cuts it off everything still to come. */
  lemma FirstLine(buf: string, rest: string)
    requires NewlineAt(buf) < |buf|
    ensures Lines(buf + rest) == [buf[..NewlineAt(buf)]] + Lines(buf[NewlineAt(buf) + 1..] + rest)
  {
    var p := NewlineAt(buf);
    NewlineAtConcat(buf, rest);
    assert (buf + rest)[..p] == buf[..p];
    assert (buf + rest)[p + 1..] == buf[p + 1..] + rest;
  }

  /** The outcome of `lines` when `events` have already been emitted. */
  function Continue(codec: Codec, hasDb: bool, events: seq<Event>, lines: seq<string>): Outcome
    decreases |lines|
  {
    if lines == [] then Outcome(events + [EndOfStream], [])
    else
      match MeaningOf(codec, lines[0])
      case Nothing => Continue(codec, hasDb, events, lines[1..])
      case Says(text) => Continue(codec, hasDb, events + [Content(text)], lines[1..])
      case Finishes(usage) => Outcome(events + [Stop, EndOfStream], if hasDb then [usage] else [])
  }

  lemma {:induction false} ContinueIs(codec: Codec, hasDb: bool, events: seq<Event>, lines: seq<string>)
    ensures FirstFinish(codec, lines) <= |lines|
    ensures var f := FirstFinish(codec, lines);
      var said := events + Contents(codec, lines[..f]);
      Continue(codec, hasDb, events, lines) ==
        if f < |lines| && MeaningOf(codec, lines[f]).Finishes? then
          Outcome(said + [Stop, EndOfStream], if hasDb then [MeaningOf(codec, lines[f]).usage] else [])
        else Outcome(said + [EndOfStream], [])
    decreases |lines|
  {
    FirstFinishIs(codec, lines);
    var f := FirstFinish(codec, lines);
    if f > 0 {
      var m := MeaningOf(codec, lines[0]);
      ContinueIs(codec, hasDb, if m.Says? then events + [Content(m.text)] else events, lines[1..]);
      assert lines[..f][1..] == lines[1..][..f - 1];
      assert lines[f..] == lines[1..][f - 1..];
      if m.Says? {
        assert events + Contents(codec, lines[..f]) == (events + [Content(m.text)]) + Contents(codec, lines[1..][..f - 1]);
      } else {
        assert Contents(codec, lines[..f]) == Contents(codec, lines[1..][..f - 1]);
      }
    } else {
      assert events + Contents(codec, lines[..f]) == events;
    }
  }

  /** What taking one line off the buffer does to the outcome. */
  lemma OneLine(codec: Codec, hasDb: bool, events: seq<Event>, buf: string, rest: string)
    requires NewlineAt(buf) < |buf|
    ensures var remaining := Lines(buf[NewlineAt(buf) + 1..] + rest);
      Continue(codec, hasDb, events, Lines(buf + rest)) ==
        match MeaningOf(codec, buf[..NewlineAt(buf)])
        case Nothing => Continue(codec, hasDb, events, remaining)
        case Says(text) => Continue(codec, hasDb, events + [Content(text)], remaining)
        case Finishes(usage) => Outcome(events + [Stop, EndOfStream], if hasDb then [usage] else [])
  {
    FirstLine(buf, rest);
  }

  lemma NoLineLeft(codec: Codec, hasDb: bool, events: seq<Event>, buf: string)
    requires NewlineAt(buf) == |buf|
    ensures Continue(codec, hasDb, events, Lines(buf)) == Outcome(events + [EndOfStream], [])
  {
  }

  lemma StartIsWhole(codec: Codec, hasDb: bool, text: string)
    ensures Continue(codec, hasDb, [Role], Lines("" + text)) == Whole(codec, hasDb, text)
  {
    assert "" + text == text;
    ContinueIs(codec, hasDb, [Role], Lines(text));
    FirstFinishIs(codec, Lines(text));
  }

  /**
   The inner loop of `stream_response`: takes terminated lines off the buffer until none is left or one finishes
   the answer.  `rest` is the text still to come.
   */
  method DrainLines(codec: Codec, hasDb: bool, said: seq<Event>, received: string, ghost rest: string)
    returns (events: seq<Event>, recorded: seq<Usage>, buf: string, finished: bool)
    ensures finished ==> Outcome(events, recorded) == Continue(codec, hasDb, said, Lines(received + rest))
    ensures !finished ==> recorded == [] && NewlineAt(buf) == |buf|
    ensures !finished ==> Continue(codec, hasDb, events, Lines(buf + rest)) == Continue(codec, hasDb, said, Lines(received + rest))
  {
    events, recorded, buf, finished := said, [], received, false;
    ghost var total := Continue(codec, hasDb, said, Lines(received + rest));
    NewlineAtIs(buf);
    while NewlineAt(buf) < |buf|
      invariant NewlineAt(buf) <= |buf|
      invariant Continue(codec, hasDb, events, Lines(buf + rest)) == total
      decreases |buf|
    {
      var nlPos := NewlineAt(buf);
      OneLine(codec, hasDb, events, buf, rest);
      var raw := buf[..nlPos];
      buf := buf[nlPos + 1..];
      NewlineAtIs(buf);
      var line := codec.trim(raw);
      if line == "" {
        continue;
      }
      var parsed := codec.parse(line);
      if parsed == None {
        continue;
      }
      var chunk := parsed.value;
      if chunk.done {
        if hasDb {
          recorded := [Usage(AsI32(chunk.promptEvalCount), AsI32(chunk.evalCount))];
        }
        events := events + [Stop, EndOfStream];
        finished := true;
        return;
      }
      if chunk.content.Some? {
        var filtered := codec.filterPii(chunk.content.value);
        if filtered != "" {
          events := events + [Content(filtered)];
        }
      }
    }
  }

  // ----- What is recorded and said, by line

  /** The line is readable and ends the answer. */
  predicate IsDone(codec: Codec, line: string) {
    codec.trim(line) != "" && codec.parse(codec.trim(line)).Some? && codec.parse(codec.trim(line)).value.done
  }

  /** The line is readable and, short of the end of the answer, has a text that is `text` after filtering. */
  predicate SaysText(codec: Codec, line: string, text: string) {
    codec.trim(line) != "" &&
    match codec.parse(codec.trim(line))
    case None => false
    case Some(chunk) => !chunk.done && chunk.content.Some? && text == codec.filterPii(chunk.content.value) && text != ""
  }

  /** `x` is what a database column of 32 bits holds of an unsigned count: itself, or its two's complement. */
  predicate StoredAs(n: nat, x: int) {
    && (n < 0x8000_0000 ==> x == n)
    && -0x8000_0000 <= x < 0x8000_0000
    && (x - n) % 0x1_0000_0000 == 0
  }

  /** The record is of the line's chunk: its prompt as input tokens, its completion as output tokens. */
  predicate RecordsLine(codec: Codec, line: string, usage: Usage)
    requires IsDone(codec, line)
  {
    var chunk := codec.parse(codec.trim(line)).value;
    StoredAs(chunk.promptEvalCount, usage.tokensIn) && StoredAs(chunk.evalCount, usage.tokensOut)
  }

  /** Usage is recorded for the first line that is done, if there is one and there is a database, and for no other. */
  ghost predicate RecordsFirstDone(codec: Codec, hasDb: bool, lines: seq<string>, recorded: seq<Usage>) {
    && ((!hasDb || forall i :: 0 <= i < |lines| ==> !IsDone(codec, lines[i])) ==> recorded == [])
    && (forall i :: 0 <= i < |lines| && IsDone(codec, lines[i]) && (forall j :: 0 <= j < i ==> !IsDone(codec, lines[j])) && hasDb ==>
          |recorded| == 1 && RecordsLine(codec, lines[i], recorded[0]))
  }

  /** Whatever is said is the filtered text of some line. */
  ghost predicate SaysOnlyLines(codec: Codec, lines: seq<string>, events: seq<Event>) {
    forall e :: e in events && e.Content? ==> exists line :: line in lines && SaysText(codec, line, e.text)
  }

  lemma StoredIs(n: nat)
    ensures StoredAs(n, AsI32(n))
  {
  }

  lemma DoneMeans(codec: Codec, line: string)
    ensures IsDone(codec, line) <==> MeaningOf(codec, line).Finishes?
    ensures IsDone(codec, line) ==> RecordsLine(codec, line, MeaningOf(codec, line).usage)
  {
    if IsDone(codec, line) {
      var chunk := codec.parse(codec.trim(line)).value;
      StoredIs(chunk.promptEvalCount);
      StoredIs(chunk.evalCount);
    }
  }

  lemma {:induction false} DoneAtFirstFinish(codec: Codec, lines: seq<string>)
    ensures FirstFinish(codec, lines) <= |lines|
    ensures forall i :: 0 <= i < FirstFinish(codec, lines) ==> !IsDone(codec, lines[i])
    ensures FirstFinish(codec, lines) < |lines| ==> IsDone(codec, lines[FirstFinish(codec, lines)])
  {
    if lines != [] {
      DoneMeans(codec, lines[0]);
      if !IsDone(codec, lines[0]) {
        DoneAtFirstFinish(codec, lines[1..]);
      }
    }
  }

  lemma RecordedIs(codec: Codec, hasDb: bool, text: string)
    ensures RecordsFirstDone(codec, hasDb, Lines(text), Whole(codec, hasDb, text).recorded)
  {
    var lines := Lines(text);
    var f := FirstFinish(codec, lines);
    DoneAtFirstFinish(codec, lines);
    if f < |lines| {
      DoneMeans(codec, lines[f]);
    }
    RecordIsFirst(codec, hasDb, lines, f, Whole(codec, hasDb, text).recorded);
  }

  lemma RecordIsFirst(codec: Codec, hasDb: bool, lines: seq<string>, f: nat, recorded: seq<Usage>)
    requires f <= |lines| && forall i :: 0 <= i < f ==> !IsDone(codec, lines[i])
    requires if hasDb && f < |lines| then |recorded| == 1 && IsDone(codec, lines[f]) && RecordsLine(codec, lines[f], recorded[0])
             else recorded == []
    ensures RecordsFirstDone(codec, hasDb, lines, recorded)
  {
  }

  lemma {:induction false} ContentsAreSaid(codec: Codec, lines: seq<string>)
    ensures SaysOnlyLines(codec, lines, Contents(codec, lines))
  {
    if lines != [] {
      ContentsAreSaid(codec, lines[1..]);
      forall e | e in Contents(codec, lines) && e.Content? ensures exists line :: line in lines && SaysText(codec, line, e.text) {
        if e in Contents(codec, lines[1..]) {
          var line :| line in lines[1..] && SaysText(codec, line, e.text);
        } else {
          assert SaysText(codec, lines[0], e.text);
        }
      }
    }
  }

  lemma SaidIs(codec: Codec, hasDb: bool, text: string)
    ensures SaysOnlyLines(codec, Lines(text), Whole(codec, hasDb, text).events)
  {
    var lines := Lines(text);
    var f := FirstFinish(codec, lines);
    FirstFinishIs(codec, lines);
    ContentsAreSaid(codec, lines[..f]);
    forall e | e in Whole(codec, hasDb, text).events && e.Content?
      ensures exists line :: line in lines && SaysText(codec, line, e.text)
    {
      assert e in Contents(codec, lines[..f]);
      var line :| line in lines[..f] && SaysText(codec, line, e.text);
    }
  }

  /**
   `stream_response`.  However the text is cut into chunks, the outcome is the one that the text received as a whole is
   turned into; usage is recorded from the first line that is done, and only texts of lines are said.
   */
  method StreamResponse(codec: Codec, hasDb: bool, chunks: seq<Option<string>>)
    returns (events: seq<Event>, recorded: seq<Usage>)
    ensures Outcome(events, recorded) == Whole(codec, hasDb, Received(chunks))
    ensures RecordsFirstDone(codec, hasDb, Lines(Received(chunks)), recorded)
    ensures SaysOnlyLines(codec, Lines(Received(chunks)), events)
  {
    events, recorded := StreamLoop(codec, hasDb, chunks);
    RecordedIs(codec, hasDb, Received(chunks));
    SaidIs(codec, hasDb, Received(chunks));
  }

  /** The spawned loop. */
  method StreamLoop(codec: Codec, hasDb: bool, chunks: seq<Option<string>>)
    returns (events: seq<Event>, recorded: seq<Usage>)
    ensures Outcome(events, recorded) == Whole(codec, hasDb, Received(chunks))
  {
    events := [Role];
    recorded := [];
    var buf := "";
    ghost var rest := Received(chunks);
    ghost var total := Whole(codec, hasDb, rest);
    StartIsWhole(codec, hasDb, rest);
    var k := 0;
    while k < |chunks|
      invariant 0 <= k <= |chunks| && recorded == []
      invariant NewlineAt(buf) == |buf| && rest == Received(chunks[k..])
      invariant Continue(codec, hasDb, events, Lines(buf + rest)) == total
    {
      var chunkResult := chunks[k];
      ReceivedFrom(chunks, k);
      if chunkResult == None {
        break;
      }
      assert buf + rest == (buf + chunkResult.value) + Received(chunks[k + 1..]);
      buf := buf + chunkResult.value;
      rest := Received(chunks[k + 1..]);
      k := k + 1;
      var finished;
      events, recorded, buf, finished := DrainLines(codec, hasDb, events, buf, rest);
      if finished {
        return;
      }
    }
    assert rest == "" && buf + rest == buf;
    NoLineLeft(codec, hasDb, events, buf);
    events := events + [EndOfStream];
  }

  // ----- What every client sees

  lemma {:induction false} ContentsOnly(codec: Codec, lines: seq<string>)
    ensures forall e :: e in Contents(codec, lines) ==> e.Content? && e.text != ""
  {
    if lines != [] {
      ContentsOnly(codec, lines[1..]);
    }
  }

  lemma EventPositions(said: seq<Event>, events: seq<Event>, stops: bool)
    requires forall e :: e in said ==> e.Content?
    requires events == [Role] + said + if stops then [Stop, EndOfStream] else [EndOfStream]
    ensures var n := |events|;
      && n >= 2
      && (forall i :: 0 <= i < n ==> (events[i] == Role <==> i == 0))
      && (forall i :: 0 <= i < n ==> (events[i] == EndOfStream <==> i == n - 1))
      && (forall i :: 0 <= i < n ==> (events[i] == Stop <==> stops && i == n - 2))
      && (stops ==> n >= 3 && events[n - 2] == Stop)
  {
    assert forall i :: 0 < i <= |said| ==> events[i] == said[i - 1];
    assert forall i :: 0 <= i < |said| ==> said[i].Content?;
  }

  /**
   The role comes first and only there, the end marker last and only there, `Stop` only just before it.
   `Stop` appears exactly when some terminated line finishes the answer, and usage is recorded, once,
   exactly when there is also a database.
   */
  lemma EventOrder(codec: Codec, hasDb: bool, text: string)
    ensures var events := Whole(codec, hasDb, text).events;
      && |events| >= 2
      && (forall i :: 0 <= i < |events| ==> (events[i] == Role <==> i == 0))
      && (forall i :: 0 <= i < |events| ==> (events[i] == EndOfStream <==> i == |events| - 1))
      && (forall i :: 0 <= i < |events| ==> events[i] == Stop ==> i == |events| - 2)
    ensures var o := Whole(codec, hasDb, text);
      && (Stop in o.events <==> exists line :: line in Lines(text) && MeaningOf(codec, line).Finishes?)
      && |o.recorded| <= 1
      && (o.recorded != [] <==> hasDb && Stop in o.events)
  {
    var lines := Lines(text);
    var f := FirstFinish(codec, lines);
    FirstFinishIs(codec, lines);
    var said := Contents(codec, lines[..f]);
    ContentsOnly(codec, lines[..f]);
    var events := Whole(codec, hasDb, text).events;
    EventPositions(said, events, f < |lines|);
    if f < |lines| {
      assert events[|events| - 2] == Stop;
      assert lines[f] in lines;
    }
  }

  /** A text ends its lines if it is empty or ends in a newline. */
  predicate EndsLine(s: string) {
    s == "" || s[|s| - 1] == '\n'
  }

  lemma {:induction false} HasNewline(a: string)
    requires a != "" && EndsLine(a)
    ensures NewlineAt(a) < |a|
  {
    if a[0] != '\n' {
      HasNewline(a[1..]);
    }
  }

  lemma {:induction false} LinesConcat(a: string, b: string)
    requires EndsLine(a)
    ensures Lines(a + b) == Lines(a) + Lines(b)
    decreases |a|
  {
    if a == "" {
      assert a + b == b;
    } else {
      NewlineAtIs(a);
      HasNewline(a);
      FirstLine(a, b);
      var tail := a[NewlineAt(a) + 1..];
      LinesConcat(tail, b);
      Associate([a[..NewlineAt(a)]], Lines(tail), Lines(b));
    }
  }

  /** A line with its end is that line. */
  lemma LineIs(line: string)
    requires '\n' !in line
    ensures Lines(line + "\n") == [line] && Lines(line) == []
  {
    NoNewline(line);
    LastNewline(line);
    var s := line + "\n";
    assert s[..|line|] == line && s[|line| + 1..] == "";
    assert Lines("") == [];
  }

  lemma {:induction false} NoNewline(s: string)
    requires '\n' !in s
    ensures NewlineAt(s) == |s|
  {
    if s != "" {
      NoNewline(s[1..]);
    }
  }

  lemma {:induction false} LastNewline(line: string)
    requires '\n' !in line
    ensures NewlineAt(line + "\n") == |line|
  {
    if line != "" {
      assert (line + "\n")[1..] == line[1..] + "\n";
      LastNewline(line[1..]);
    }
  }

  /** The unterminated tail of the text is dropped. */
  lemma TailDropped(codec: Codec, hasDb: bool, text: string, tail: string)
    requires EndsLine(text) && '\n' !in tail
    ensures Whole(codec, hasDb, text + tail) == Whole(codec, hasDb, text)
  {
    LinesConcat(text, tail);
    NewlineAtIs(tail);
    assert Lines(tail) == [];
    assert Lines(text) + [] == Lines(text);
  }

  lemma {:induction false} LinesExtend(a: string, b: string)
    ensures Lines(a) <= Lines(a + b)
    decreases |a|
  {
    NewlineAtIs(a);
    if NewlineAt(a) < |a| {
      FirstLine(a, b);
      LinesExtend(a[NewlineAt(a) + 1..], b);
    }
  }

  lemma {:induction false} FirstFinishExtend(codec: Codec, a: seq<string>, b: seq<string>)
    requires a <= b
    ensures FirstFinish(codec, a) <= |a|
    ensures FirstFinish(codec, a) < |a| ==> FirstFinish(codec, b) == FirstFinish(codec, a)
    ensures FirstFinish(codec, a) == |a| ==> |a| <= FirstFinish(codec, b) <= |b|
  {
    FirstFinishIs(codec, a);
    FirstFinishIs(codec, b);
    if a != [] && !MeaningOf(codec, a[0]).Finishes? {
      FirstFinishExtend(codec, a[1..], b[1..]);
    }
  }

  lemma {:induction false} ContentsConcat(codec: Codec, a: seq<string>, b: seq<string>)
    ensures Contents(codec, a + b) == Contents(codec, a) + Contents(codec, b)
  {
    if a == [] {
      assert a + b == b;
    } else {
      assert (a + b)[1..] == a[1..] + b;
      ContentsConcat(codec, a[1..], b);
    }
  }

  /** The outcome of a text, from its lines and the first one that finishes. */
  lemma WholeIs(codec: Codec, hasDb: bool, text: string, f: nat)
    requires f == FirstFinish(codec, Lines(text))
    ensures f <= |Lines(text)|
    ensures var lines := Lines(text); var said := [Role] + Contents(codec, lines[..f]);
      if f < |lines| then
        MeaningOf(codec, lines[f]).Finishes? &&
        Whole(codec, hasDb, text) == Outcome(said + [Stop, EndOfStream], if hasDb then [MeaningOf(codec, lines[f]).usage] else [])
      else Whole(codec, hasDb, text) == Outcome(said + [EndOfStream], [])
  {
    FirstFinishIs(codec, Lines(text));
  }

  lemma ContentsPrefix(codec: Codec, a: seq<string>, b: seq<string>, g: nat)
    requires a <= b && |a| <= g <= |b|
    ensures Contents(codec, a) <= Contents(codec, b[..g])
  {
    assert b[..g] == a + b[|a|..g];
    ContentsConcat(codec, a, b[|a|..g]);
  }

  /** However early the stream is cut off, what was emitted before the end marker begins what the full text gives. */
  lemma CutOffIsPrefix(codec: Codec, hasDb: bool, text: string, more: string)
    ensures var early, full := Whole(codec, hasDb, text), Whole(codec, hasDb, text + more);
      && early.events[..|early.events| - 1] <= full.events
      && early.recorded <= full.recorded
      && (Stop in early.events ==> early == full)
  {
    var a, b := Lines(text), Lines(text + more);
    LinesExtend(text, more);
    var f, g := FirstFinish(codec, a), FirstFinish(codec, b);
    WholeIs(codec, hasDb, text, f);
    WholeIs(codec, hasDb, text + more, g);
    FirstFinishExtend(codec, a, b);
    if f < |a| {
      assert a[..f] == b[..f];
    } else {
      assert a[..f] == a;
      ContentsPrefix(codec, a, b, g);
      ContentsOnly(codec, a);
    }
  }

  /** What one more line adds to what is emitted before the end marker. */
  function Adds(codec: Codec, line: string): seq<Event> {
    if codec.trim(line) == "" then []
    else
      match codec.parse(codec.trim(line))
      case None => []
      case Some(chunk) =>
        if chunk.done then [Stop]
        else if chunk.content.Some? && codec.filterPii(chunk.content.value) != "" then [Content(codec.filterPii(chunk.content.value))]
        else []
  }

  lemma {:induction false} FirstFinishConcat(codec: Codec, a: seq<string>, line: string)
    requires forall i :: 0 <= i < |a| ==> !IsDone(codec, a[i])
    ensures FirstFinish(codec, a) == |a|
    ensures FirstFinish(codec, a + [line]) == if IsDone(codec, line) then |a| else |a| + 1
  {
    if a != [] {
      assert !IsDone(codec, a[0]);
      assert (a + [line])[1..] == a[1..] + [line];
      FirstFinishConcat(codec, a[1..], line);
    } else {
      assert (a + [line])[1..] == [];
    }
  }

  /**
   The outcome, a line at a time: no text gives the role and the end marker, and as long as no line is done, one more
   line puts what it adds before the end marker.
   */
  lemma OneMoreLine(codec: Codec, hasDb: bool, text: string, line: string)
    requires EndsLine(text) && '\n' !in line && forall i :: 0 <= i < |Lines(text)| ==> !IsDone(codec, Lines(text)[i])
    ensures Whole(codec, hasDb, "").events == [Role, EndOfStream]
    ensures var before, after := Whole(codec, hasDb, text).events, Whole(codec, hasDb, text + (line + "\n")).events;
      && before != [] && before == before[..|before| - 1] + [EndOfStream]
      && after == before[..|before| - 1] + Adds(codec, line) + [EndOfStream]
  {
    LineIs(line);
    LinesConcat(text, line + "\n");
    UnfinishedIs(codec, hasDb, text);
    AddedIs(codec, hasDb, Lines(text), text + (line + "\n"), line);
    LineIs("");
    UnfinishedIs(codec, hasDb, "");
    assert [Role] + [] == [Role];
  }

  lemma UnfinishedIs(codec: Codec, hasDb: bool, text: string)
    requires forall i :: 0 <= i < |Lines(text)| ==> !IsDone(codec, Lines(text)[i])
    ensures var events, said := Whole(codec, hasDb, text).events, [Role] + Contents(codec, Lines(text));
      events == said + [EndOfStream] && events[..|events| - 1] == said
  {
    var lines := Lines(text);
    DoneAtFirstFinish(codec, lines);
    WholeIs(codec, hasDb, text, |lines|);
    assert lines[..|lines|] == lines;
    var said := [Role] + Contents(codec, lines);
    assert (said + [EndOfStream])[..|said|] == said;
  }

  lemma AddedIs(codec: Codec, hasDb: bool, lines: seq<string>, more: string, line: string)
    requires Lines(more) == lines + [line] && forall i :: 0 <= i < |lines| ==> !IsDone(codec, lines[i])
    ensures Whole(codec, hasDb, more).events == [Role] + Contents(codec, lines) + Adds(codec, line) + [EndOfStream]
  {
    FirstFinishConcat(codec, lines, line);
    if IsDone(codec, line) {
      DoneAdds(codec, hasDb, lines, more, line);
    } else {
      TextAdds(codec, hasDb, lines, more, line);
    }
  }

  lemma StopsAt(codec: Codec, hasDb: bool, text: string, f: nat)
    requires f == FirstFinish(codec, Lines(text)) && f < |Lines(text)|
    ensures Whole(codec, hasDb, text).events == [Role] + Contents(codec, Lines(text)[..f]) + [Stop, EndOfStream]
  {
    FirstFinishIs(codec, Lines(text));
  }

  lemma DoneAdds(codec: Codec, hasDb: bool, lines: seq<string>, more: string, line: string)
    requires Lines(more) == lines + [line] && FirstFinish(codec, lines + [line]) == |lines| && IsDone(codec, line)
    ensures Whole(codec, hasDb, more).events == [Role] + Contents(codec, lines) + Adds(codec, line) + [EndOfStream]
  {
    StopsAt(codec, hasDb, more, |lines|);
    assert (lines + [line])[..|lines|] == lines;
    StopThenEnd([Role] + Contents(codec, lines));
    assert Adds(codec, line) == [Stop];
  }

  lemma StopThenEnd(said: seq<Event>)
    ensures said + [Stop, EndOfStream] == said + [Stop] + [EndOfStream]
  {
  }

  lemma TextAdds(codec: Codec, hasDb: bool, lines: seq<string>, more: string, line: string)
    requires Lines(more) == lines + [line] && FirstFinish(codec, lines + [line]) == |lines| + 1 && !IsDone(codec, line)
    ensures Whole(codec, hasDb, more).events == [Role] + Contents(codec, lines) + Adds(codec, line) + [EndOfStream]
  {
    WholeIs(codec, hasDb, more, |lines| + 1);
    assert (lines + [line])[..|lines| + 1] == lines + [line];
    ContentsConcat(codec, lines, [line]);
    OneContent(codec, line);
    var adds := Adds(codec, line);
    assert [Role] + (Contents(codec, lines) + adds) == [Role] + Contents(codec, lines) + adds;
  }

  lemma OneContent(codec: Codec, line: string)
    requires !IsDone(codec, line)
    ensures Contents(codec, [line]) == Adds(codec, line)
  {
    assert [line][1..] == [];
  }
}
