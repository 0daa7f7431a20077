/**
 * Reading a Claude stream: chunks of bytes are decoded and cut into lines, lines are handed to the monitor up to
 * the first violation or the output limit, and the end of the process is classified.
 */
module ClaudeStream {
  import opened Options
  import opened Lines
  import opened ClaudeMonitor

  const STREAM_LIMIT := 16 * 1024 * 1024

  datatype Forced = Violated(violation: Violation) | OutputLimit

  datatype Reader = Reader(size: nat, pending: nat, partialLine: string, lines: seq<string>, parsed: Parsed, forced: Option<Forced>)

  const START := Reader(0, 0, [], [], NEW, None)

  function HandleLine(c: Config, r: Reader, piece: string): Reader {
    var line := StripReturn(piece);
    if IsBlank(line) then r
    else
      var v := ProcessEvent(c, r.parsed, c.parse(line));
      r.(lines := r.lines + [line], parsed := v.parsed,
         forced := if v.violation.Some? then Some(Violated(v.violation.value)) else r.forced)
  }

  /** The lines in order, up to the one that stops the stream. */
  function HandleLines(c: Config, r: Reader, pieces: seq<string>): Reader {
    if pieces == [] then r
    else
      var before := HandleLines(c, r, pieces[..|pieces| - 1]);
      if before.forced.Some? then before else HandleLine(c, before, pieces[|pieces| - 1])
  }

  /** The reader before its lines are looked at, with `text` decoded from `more` bytes. */
  function Received(r: Reader, more: nat, pending: nat, text: string): Reader {
    r.(size := r.size + more, pending := pending, partialLine := Partial(r.partialLine + text))
  }

  function ReadChunk(c: Config, r: Reader, chunk: Bytes): Reader {
    if r.forced.Some? then r
    else if r.size + |chunk| > STREAM_LIMIT then r.(size := r.size + |chunk|, forced := Some(OutputLimit))
    else
      var decoded := Decode(c.decoder, r.pending, chunk);
      HandleLines(c, Received(r, |chunk|, decoded.0, decoded.1), Complete(r.partialLine + decoded.1))
  }

  function ReadAll(c: Config, chunks: seq<Bytes>): Reader {
    if chunks == [] then START else ReadChunk(c, ReadAll(c, chunks[..|chunks| - 1]), chunks[|chunks| - 1])
  }

  function Flatten(chunks: seq<Bytes>): Bytes {
    if chunks == [] then [] else Flatten(chunks[..|chunks| - 1]) + chunks[|chunks| - 1]
  }

  function PendingAfter(c: Config, output: Bytes): nat {
    Decode(c.decoder, 0, output).0
  }

  function TextOf(c: Config, output: Bytes): string {
    Decode(c.decoder, 0, output).1
  }

  /** The whole output read at once. */
  function ReadWhole(c: Config, output: Bytes): Reader {
    HandleLines(c, Received(START, |output|, PendingAfter(c, output), TextOf(c, output)), Complete(TextOf(c, output)))
  }

  /** What is left after the last newline, once the decoder is flushed. */
  function Leftover(c: Config, r: Reader): string {
    r.partialLine + c.decoder.flush(r.pending)
  }

  // ---- Chunk boundaries do not matter ----

  /** A stopped reader forgets its unfinished line: nothing looks at it any more. */
  predicate SameReading(a: Reader, b: Reader) {
    a.lines == b.lines && a.parsed == b.parsed && a.forced == b.forced && (a.forced.None? ==> a == b)
  }

  lemma {:induction false} HandleConcat(c: Config, r: Reader, a: seq<string>, b: seq<string>)
    ensures HandleLines(c, r, a + b) == HandleLines(c, HandleLines(c, r, a), b)
    decreases |b|
  {
    hide HandleLine;
    if b == [] {
      assert a + b == a;
    } else {
      var n := |b| - 1;
      HandleConcat(c, r, a, b[..n]);
      assert (a + b)[..|a| + n] == a + b[..n];
    }
  }

  lemma {:induction false} HandlingIgnoresTheRest(c: Config, r: Reader, size: nat, pending: nat, partialLine: string,
                                                  pieces: seq<string>)
    ensures HandleLines(c, r.(size := size, pending := pending, partialLine := partialLine), pieces)
         == HandleLines(c, r, pieces).(size := size, pending := pending, partialLine := partialLine)
  {
    if pieces != [] {
      HandlingIgnoresTheRest(c, r, size, pending, partialLine, pieces[..|pieces| - 1]);
    }
  }

  lemma {:induction false} StoppedReaderStays(c: Config, r: Reader, pieces: seq<string>)
    requires r.forced.Some?
    ensures HandleLines(c, r, pieces) == r
  {
    if pieces != [] {
      StoppedReaderStays(c, r, pieces[..|pieces| - 1]);
    }
  }

  lemma WholeHolds(c: Config, output: Bytes)
    ensures var r := ReadWhole(c, output);
      r.size == |output| && r.pending == PendingAfter(c, output) && r.partialLine == Partial(TextOf(c, output))
  {
    var text := TextOf(c, output);
    assert [] + text == text;
    HandlingIgnoresTheRest(c, START, |output|, PendingAfter(c, output), Partial(text), Complete(text));
    hide HandleLines, Complete, Partial, Decode;
  }

  /** One more chunk, read by a reader that has read the output before it. */
  lemma WholeGrows(c: Config, output: Bytes, chunk: Bytes)
    ensures var r, text := ReadWhole(c, output), Decode(c.decoder, PendingAfter(c, output), chunk).1;
      SameReading(ReadWhole(c, output + chunk),
                  if r.forced.Some? then r
                  else HandleLines(c, Received(r, |chunk|, Decode(c.decoder, r.pending, chunk).0, text), Complete(r.partialLine + text)))
  {
    hide *;
    var r, next := ReadWhole(c, output), Decode(c.decoder, PendingAfter(c, output), chunk);
    WholeHolds(c, output);
    WholeIs(c, output);
    WholeIs(c, output + chunk);
    TextGrows(c, output, chunk);
    ReceivedIs(r, |chunk|, next.0, next.1);
    LinesGoOn(c, Complete(TextOf(c, output)), Complete(Partial(TextOf(c, output)) + next.1), |output|, PendingAfter(c, output),
              Partial(TextOf(c, output)), |output + chunk|, next.0, Partial(Partial(TextOf(c, output)) + next.1));
  }

  lemma WholeIs(c: Config, output: Bytes)
    ensures ReadWhole(c, output)
         == HandleLines(c, START.(size := |output|, pending := PendingAfter(c, output), partialLine := Partial(TextOf(c, output))),
                        Complete(TextOf(c, output)))
  {
    assert [] + TextOf(c, output) == TextOf(c, output);
    hide HandleLines, Complete, Partial, TextOf, PendingAfter;
  }

  lemma ReceivedIs(r: Reader, more: nat, pending: nat, text: string)
    ensures Received(r, more, pending, text) == r.(size := r.size + more, pending := pending, partialLine := Partial(r.partialLine + text))
  {
    hide Partial;
  }

  lemma TextGrows(c: Config, output: Bytes, chunk: Bytes)
    ensures var text, next := TextOf(c, output), Decode(c.decoder, PendingAfter(c, output), chunk);
      && PendingAfter(c, output + chunk) == next.0
      && Complete(TextOf(c, output + chunk)) == Complete(text) + Complete(Partial(text) + next.1)
      && Partial(TextOf(c, output + chunk)) == Partial(Partial(text) + next.1)
  {
    hide Decode, Complete, Partial;
    DecodeContinues(c.decoder, 0, output, chunk);
    SplitContinues(TextOf(c, output), Decode(c.decoder, PendingAfter(c, output), chunk).1);
  }

  lemma LinesGoOn(c: Config, lines: seq<string>, more: seq<string>, size: nat, pending: nat, rest: string,
                  size': nat, pending': nat, rest': string)
    ensures var r := HandleLines(c, START.(size := size, pending := pending, partialLine := rest), lines);
      SameReading(HandleLines(c, START.(size := size', pending := pending', partialLine := rest'), lines + more),
                  if r.forced.Some? then r
                  else HandleLines(c, r.(size := size', pending := pending', partialLine := rest'), more))
  {
    var later := START.(size := size', pending := pending', partialLine := rest');
    hide HandleLines;
    HandlingIgnoresTheRest(c, START, size, pending, rest, lines);
    HandlingIgnoresTheRest(c, START, size', pending', rest', lines);
    HandleConcat(c, later, lines, more);
    if HandleLines(c, later, lines).forced.Some? {
      StoppedReaderStays(c, HandleLines(c, later, lines), more);
    }
  }

  /** Within the limit, what is read depends only on the output, not on how it was cut, even inside a character. */
  lemma {:induction false} ChunksDoNotMatter(c: Config, chunks: seq<Bytes>)
    requires |Flatten(chunks)| <= STREAM_LIMIT
    ensures SameReading(ReadAll(c, chunks), ReadWhole(c, Flatten(chunks)))
  {
    if chunks == [] {
    } else {
      var n := |chunks| - 1;
      ChunksDoNotMatter(c, chunks[..n]);
      WholeGrows(c, Flatten(chunks[..n]), chunks[n]);
      WholeHolds(c, Flatten(chunks[..n]));
      hide HandleLines, ReadWhole, Partial, Complete, Decode, Received;
    }
  }

  /** Beyond the limit the stream is always stopped. */
  lemma {:induction false} LongOutputIsStopped(c: Config, chunks: seq<Bytes>)
    ensures |Flatten(chunks)| > STREAM_LIMIT ==> ReadAll(c, chunks).forced.Some?
    ensures ReadAll(c, chunks).forced.None? ==> ReadAll(c, chunks).size == |Flatten(chunks)|
  {
    if chunks != [] {
      var n := |chunks| - 1;
      LongOutputIsStopped(c, chunks[..n]);
      ChunkCounts(c, ReadAll(c, chunks[..n]), chunks[n]);
      hide ReadChunk;
    }
  }

  lemma ChunkCounts(c: Config, r: Reader, chunk: Bytes)
    ensures var r' := ReadChunk(c, r, chunk);
      && (r.forced.Some? ==> r' == r)
      && (r.forced.None? && r'.forced.None? ==> r'.size == r.size + |chunk| <= STREAM_LIMIT)
  {
    var decoded := Decode(c.decoder, r.pending, chunk);
    HandlingIgnoresTheRest(c, r, r.size + |chunk|, decoded.0, Partial(r.partialLine + decoded.1), Complete(r.partialLine + decoded.1));
    hide HandleLines, Partial, Complete, Decode;
  }

  /** Two ways of cutting the same output end in the same classification. */
  lemma OutcomeIgnoresChunks(c: Config, chunks: seq<Bytes>, others: seq<Bytes>, end: Ending)
    requires Flatten(chunks) == Flatten(others) && |Flatten(chunks)| <= STREAM_LIMIT
    ensures Classify(c, ReadAll(c, chunks), end) == Classify(c, ReadAll(c, others), end)
    ensures SameReading(ReadAll(c, chunks), ReadAll(c, others))
  {
    ChunksDoNotMatter(c, chunks);
    ChunksDoNotMatter(c, others);
    hide ReadAll, ReadWhole, Flatten, IsBlank;
  }

  // ---- Classification ----

  /** How the process and its pipes ended. `exitCode` is absent after a signal. */
  datatype Ending = Ending(
    aborted: bool,
    streamFailed: bool,
    deliveryFailed: bool,
    spawnFailed: bool,
    exitCode: Option<int>,
    stderrBlank: bool)

  datatype Classification =
    | Success
    | ResultError
    | ParameterError
    | StreamInterrupted
    | IsolationBreached
    | ModelMismatched
    | ProtocolFailed
    | SpawnError
    | Cancelled
    | OutputLimitExceeded

  function ForcedClassification(f: Forced): Classification {
    match f
    case OutputLimit => OutputLimitExceeded
    case Violated(IsolationBreach) => IsolationBreached
    case Violated(ModelMismatch) => ModelMismatched
    case Violated(ProtocolError) => ProtocolFailed
  }

  function Classify(c: Config, r: Reader, end: Ending): Classification {
    if end.aborted then Cancelled
    else if end.spawnFailed then SpawnError
    else if end.streamFailed then (if end.deliveryFailed then SpawnError else ProtocolFailed)
    else if r.forced.Some? then ForcedClassification(r.forced.value)
    else if !IsBlank(Leftover(c, r)) then StreamInterrupted
    else if r.parsed.resultEvent.Some? then
      if !r.parsed.initSeen then ProtocolFailed
      else if r.parsed.isError || end.exitCode != Some(0) then ResultError
      else Success
    else if r.lines == [] && end.exitCode == Some(1) && !end.stderrBlank then ParameterError
    else if end.exitCode != Some(0) && r.lines != [] then StreamInterrupted
    else ProtocolFailed
  }

  predicate EndedWell(end: Ending) {
    !end.aborted && !end.spawnFailed && !end.streamFailed && end.exitCode == Some(0)
  }

  /** The lines the monitor gets to see. */
  function Cleaned(pieces: seq<string>): seq<string> {
    if pieces == [] then []
    else
      var line := StripReturn(pieces[|pieces| - 1]);
      Cleaned(pieces[..|pieces| - 1]) + if IsBlank(line) then [] else [line]
  }

  function EventsOf(c: Config, lines: seq<string>): seq<Event> {
    if lines == [] then [] else EventsOf(c, lines[..|lines| - 1]) + [c.parse(lines[|lines| - 1])]
  }

  /** Handling lines is running the monitor over their events. */
  lemma {:induction false} HandlingRunsTheMonitor(c: Config, r: Reader, pieces: seq<string>)
    requires r.lines == [] && r.parsed == NEW && r.forced.None?
    ensures var r' := HandleLines(c, r, pieces);
      && (r'.forced.None? ==> r'.lines == Cleaned(pieces))
      && ProcessEvents(c, NEW, EventsOf(c, r'.lines))
         == Verdict(r'.parsed, if r'.forced.Some? && r'.forced.value.Violated? then Some(r'.forced.value.violation) else None)
      && (r'.forced.Some? ==> r'.forced.value.Violated?) && r'.lines <= Cleaned(pieces)
  {
    hide ProcessEvent, IsBlank, StripReturn, ProcessEvents, EventsOf;
    MonitorStep(c, [], NotAnEvent);
    if pieces != [] {
      var n := |pieces| - 1;
      HandlingRunsTheMonitor(c, r, pieces[..n]);
      var before := HandleLines(c, r, pieces[..n]);
      var line := StripReturn(pieces[n]);
      if before.forced.None? && !IsBlank(line) {
        EventsOfMore(c, before.lines, line);
        MonitorStep(c, EventsOf(c, before.lines), c.parse(line));
      }
    }
  }

  lemma MonitorStep(c: Config, events: seq<Event>, e: Event)
    ensures EventsOf(c, []) == [] && ProcessEvents(c, NEW, []) == Verdict(NEW, None)
    ensures ProcessEvents(c, NEW, events).violation.None? ==>
      ProcessEvents(c, NEW, events + [e]) == ProcessEvent(c, ProcessEvents(c, NEW, events).parsed, e)
  {
    assert (events + [e])[..|events|] == events;
    hide ProcessEvent;
  }

  lemma EventsOfMore(c: Config, lines: seq<string>, line: string)
    ensures EventsOf(c, lines + [line]) == EventsOf(c, lines) + [c.parse(line)]
  {
    assert (lines + [line])[..|lines|] == lines;
  }

  lemma {:induction false} EventsOfPrefix(c: Config, lines: seq<string>, prefix: seq<string>)
    requires prefix <= lines
    ensures EventsOf(c, prefix) <= EventsOf(c, lines)
  {
    if prefix == lines {
    } else {
      EventsOfPrefix(c, lines[..|lines| - 1], prefix);
    }
  }

  lemma {:induction false} ViolationsLast(c: Config, events: seq<Event>, prefix: seq<Event>)
    requires prefix <= events && ProcessEvents(c, NEW, prefix).violation.Some?
    ensures ProcessEvents(c, NEW, events) == ProcessEvents(c, NEW, prefix)
  {
    hide ProcessEvent;
    if prefix == events {
    } else {
      ViolationsLast(c, events[..|events| - 1], prefix);
    }
  }

  function MonitorVerdict(c: Config, output: Bytes): Verdict {
    ProcessEvents(c, NEW, EventsOf(c, Cleaned(Complete(TextOf(c, output)))))
  }

  lemma WholeRunsTheMonitor(c: Config, output: Bytes)
    ensures var r, v := ReadWhole(c, output), MonitorVerdict(c, output);
      && (r.forced.None? ==> v.violation.None? && r.parsed == v.parsed && r.lines == Cleaned(Complete(TextOf(c, output))))
      && (r.forced.Some? ==> v.violation.Some? && r.forced.value == Violated(v.violation.value))
  {
    var r, pieces := ReadWhole(c, output), Complete(TextOf(c, output));
    var start := Received(START, |output|, PendingAfter(c, output), TextOf(c, output));
    assert start.lines == [] && start.parsed == NEW && start.forced.None? && r == HandleLines(c, start, pieces);
    HandlingRunsTheMonitor(c, start, pieces);
    EventsOfPrefix(c, Cleaned(pieces), r.lines);
    hide HandleLines, Partial, Complete, ProcessEvents, EventsOf, Cleaned, ReadWhole, Received, Decode;
    if r.forced.Some? {
      ViolationsLast(c, EventsOf(c, Cleaned(pieces)), EventsOf(c, r.lines));
    }
  }

  /** The events of the non-blank lines of the output. */
  function OutputEvents(c: Config, output: Bytes): seq<Event> {
    EventsOf(c, Cleaned(Complete(TextOf(c, output))))
  }

  /**
   * The output is short enough and ends on a line end; its events are one clean exchange with an init event and a
   * result without error. The monitor is not mentioned.
   */
  ghost predicate IsGoodOutput(c: Config, output: Bytes) {
    && |output| <= STREAM_LIMIT && Ends(c, output)
    && CleanExchange(c, OutputEvents(c, output))
    && (exists e :: e in OutputEvents(c, output) && e.Init?) && Result(false) in OutputEvents(c, output)
  }

  lemma ClassifySuccess(c: Config, r: Reader, end: Ending)
    ensures Classify(c, r, end) == Success
       <==> EndedWell(end) && r.forced.None? && IsBlank(Leftover(c, r)) && r.parsed.initSeen && r.parsed.resultEvent.Some? && !r.parsed.isError
  {
    hide IsBlank, Leftover;
  }

  lemma {:induction false} SingleResult(events: seq<Event>, e: Event, f: Event)
    requires ResultCount(events) <= 1 && e in events && f in events && e.Result? && f.Result?
    ensures e == f && ResultCount(events) == 1
  {
    var n := |events| - 1;
    assert events == events[..n] + [events[n]];
    if e in events[..n] && f in events[..n] {
      SingleResult(events[..n], e, f);
    } else if e in events[..n] {
      SingleResult(events[..n], e, e);
    } else if f in events[..n] {
      SingleResult(events[..n], f, f);
    }
  }

  /** What the record of a clean exchange says of its init and result. */
  lemma RecordOfExchange(c: Config, events: seq<Event>)
    requires CleanExchange(c, events)
    ensures var v := ProcessEvents(c, NEW, events);
      && v.violation.None? && (v.parsed.initSeen <==> exists e :: e in events && e.Init?)
      && (v.parsed.resultEvent.Some? && !v.parsed.isError <==> Result(false) in events)
      && (v.parsed.resultEvent.Some? && v.parsed.isError <==> Result(true) in events)
  {
    StreamsPassExactly(c, events);
    var s := ProcessEvents(c, NEW, events).parsed;
    CleanStreamsAreMonitored(c, events);
    InitsSoFar(c, events, s);
    ResultsSoFar(c, events, s);
    assert ResultCount(events) <= 1 by { hide AllowedEvent, FreshIds, FirstInitReports; }
    hide CleanExchange, Monitored, ProcessEvents;
    if Result(false) in events {
      SingleResult(events, Result(false), Result(false));
      SingleResult(events, Result(false), s.resultEvent.value);
    }
    if Result(true) in events {
      SingleResult(events, Result(true), Result(true));
      SingleResult(events, Result(true), s.resultEvent.value);
    }
  }

  /** Exactly which streams succeed, in terms of the output alone. */
  lemma SuccessExactly(c: Config, chunks: seq<Bytes>, end: Ending)
    ensures Classify(c, ReadAll(c, chunks), end) == Success <==> EndedWell(end) && IsGoodOutput(c, Flatten(chunks))
    ensures Classify(c, ReadAll(c, chunks), end) == Success ==> ReadAll(c, chunks).parsed == MonitorVerdict(c, Flatten(chunks)).parsed
  {
    var output := Flatten(chunks);
    LongOutputIsStopped(c, chunks);
    ClassifySuccess(c, ReadAll(c, chunks), end);
    VerdictIs(c, output);
    StreamsPassExactly(c, OutputEvents(c, output));
    if CleanExchange(c, OutputEvents(c, output)) {
      RecordOfExchange(c, OutputEvents(c, output));
    }
    if |output| <= STREAM_LIMIT {
      ChunksDoNotMatter(c, chunks);
      WholeRunsTheMonitor(c, output);
      WholeHolds(c, output);
    }
    hide ReadWhole, ReadAll, Flatten, Partial, MonitorVerdict, IsBlank, Classify, EndedWell, TextOf, PendingAfter, OutputEvents,
         CleanExchange, ProcessEvents;
  }

  lemma VerdictIs(c: Config, output: Bytes)
    ensures MonitorVerdict(c, output) == ProcessEvents(c, NEW, OutputEvents(c, output))
  {
  }

  predicate Runs(end: Ending) {
    !end.aborted && !end.spawnFailed && !end.streamFailed
  }

  /** The other outcomes of an output within the limit; `ProtocolFailed` is what remains. */
  lemma FailuresExactly(c: Config, chunks: seq<Bytes>, end: Ending)
    requires |Flatten(chunks)| <= STREAM_LIMIT
    ensures var outcome, output := Classify(c, ReadAll(c, chunks), end), Flatten(chunks);
      var events, v := OutputEvents(c, output), MonitorVerdict(c, output).violation;
      var ends, failed, passed := Ends(c, output), Result(true) in events, Result(false) in events;
      && (outcome == Cancelled <==> end.aborted)
      && (outcome == SpawnError <==> !end.aborted && (end.spawnFailed || (end.streamFailed && end.deliveryFailed)))
      && (outcome == IsolationBreached <==> Runs(end) && v == Some(IsolationBreach))
      && (outcome == ModelMismatched <==> Runs(end) && v == Some(ModelMismatch))
      && (outcome == StreamInterrupted <==>
            (Runs(end) && CleanExchange(c, events) && (!ends || (!failed && !passed && end.exitCode != Some(0) && events != []))))
      && (outcome == ResultError <==>
            (Runs(end) && CleanExchange(c, events) && ends && (exists e :: e in events && e.Init?)
             && (failed || (passed && end.exitCode != Some(0)))))
      && (outcome == ParameterError <==> Runs(end) && ends && events == [] && end.exitCode == Some(1) && !end.stderrBlank)
      && outcome != OutputLimitExceeded
  {
    var output := Flatten(chunks);
    var events, r := OutputEvents(c, output), ReadAll(c, chunks);
    ChunksDoNotMatter(c, chunks);
    WholeRunsTheMonitor(c, output);
    WholeHolds(c, output);
    VerdictIs(c, output);
    StreamsPassExactly(c, events);
    NoEventsNoLines(c, output);
    if CleanExchange(c, events) {
      RecordOfExchange(c, events);
    }
    assert r.forced.None? ==> Leftover(c, r) == Partial(TextOf(c, output)) + c.decoder.flush(PendingAfter(c, output));
    hide ReadWhole, ReadAll, Flatten, Partial, Complete, Cleaned, MonitorVerdict, IsBlank, TextOf, PendingAfter, OutputEvents,
         CleanExchange, ProcessEvents, Leftover;
    ClassifyExactly(c, r, end, MonitorVerdict(c, output).violation);
    hide Classify;
  }

  /** The output ends on a line end, up to blanks. */
  predicate Ends(c: Config, output: Bytes) {
    IsBlank(Partial(TextOf(c, output)) + c.decoder.flush(PendingAfter(c, output)))
  }

  lemma NoEventsNoLines(c: Config, output: Bytes)
    ensures OutputEvents(c, output) == [] <==> Cleaned(Complete(TextOf(c, output))) == []
    ensures OutputEvents(c, output) == [] ==> CleanExchange(c, OutputEvents(c, output))
  {
    hide Cleaned, Complete, TextOf;
    assert BashCalls([]) == [] && ResultCount([]) == 0;
  }

  lemma ClassifyExactly(c: Config, r: Reader, end: Ending, v: Option<Violation>)
    requires r.forced == if v.Some? then Some(Violated(v.value)) else None
    ensures var outcome, blank, s := Classify(c, r, end), IsBlank(Leftover(c, r)), r.parsed;
      && (outcome == Cancelled <==> end.aborted)
      && (outcome == SpawnError <==> !end.aborted && (end.spawnFailed || (end.streamFailed && end.deliveryFailed)))
      && (outcome == IsolationBreached <==> Runs(end) && v == Some(IsolationBreach))
      && (outcome == ModelMismatched <==> Runs(end) && v == Some(ModelMismatch))
      && (outcome == StreamInterrupted <==>
            (Runs(end) && v.None? && (!blank || (s.resultEvent.None? && end.exitCode != Some(0) && r.lines != []))))
      && (outcome == ResultError <==>
            (Runs(end) && v.None? && blank && s.resultEvent.Some? && s.initSeen && (s.isError || end.exitCode != Some(0))))
      && (outcome == ParameterError <==>
            (Runs(end) && v.None? && blank && s.resultEvent.None? && r.lines == [] && end.exitCode == Some(1) && !end.stderrBlank))
      && outcome != OutputLimitExceeded
  {
    hide IsBlank, Leftover;
  }

  /**
   * Success means that the lines of the output form a monitored stream: an init event, every one with the
   * expected tools and model, one result event without error, and only accepted file paths and exactly
   * allowlisted commands with fresh identifiers.
   */
  lemma SuccessMeansMonitored(c: Config, chunks: seq<Bytes>, end: Ending)
    requires Classify(c, ReadAll(c, chunks), end) == Success
    ensures var events, s := OutputEvents(c, Flatten(chunks)), ReadAll(c, chunks).parsed;
      Monitored(c, events, s) && StatusesFit(events, s) && s.initSeen && ResultCount(events) == 1 && Result(false) in events
  {
    var events := OutputEvents(c, Flatten(chunks));
    SuccessExactly(c, chunks, end);
    VerdictIs(c, Flatten(chunks));
    GoodOutputIs(c, Flatten(chunks));
    StreamsPassExactly(c, events);
    StatusesAreReported(c, events);
    CleanStreamsAreMonitored(c, events);
    RecordOfExchange(c, events);
    hide *;
    ExchangeHasOneResult(c, events);
  }

  lemma GoodOutputIs(c: Config, output: Bytes)
    ensures IsGoodOutput(c, output) ==>
      var events := OutputEvents(c, output);
      CleanExchange(c, events) && (exists e :: e in events && e.Init?) && Result(false) in events
  {
    hide CleanExchange, OutputEvents, IsBlank;
  }

  lemma ExchangeHasOneResult(c: Config, events: seq<Event>)
    requires CleanExchange(c, events) && Result(false) in events
    ensures ResultCount(events) == 1
  {
    assert ResultCount(events) <= 1 by { hide AllowedEvent, FreshIds, FirstInitReports; }
    hide CleanExchange;
    SingleResult(events, Result(false), Result(false));
  }

  // ---- The mutable reader ----

  class ClaudeReader {
    const config: Config
    var stdoutSize: nat
    /** The decoder's state. */
    var pending: nat
    var partialLine: string
    var completeLines: seq<string>
    var parsed: Parsed
    var forced: Option<Forced>

    constructor (config: Config)
      ensures this.config == config && Current() == START
    {
      this.config := config;
      stdoutSize, pending, partialLine, completeLines, parsed, forced := 0, 0, [], [], NEW, None;
    }

    ghost function Current(): Reader
      reads this
    {
      Reader(stdoutSize, pending, partialLine, completeLines, parsed, forced)
    }

    /** One chunk of output; the lines after a violation are not looked at. */
    method Read(chunk: Bytes)
      requires forced.None?
      modifies this
      ensures Current() == ReadChunk(config, old(Current()), chunk)
    {
      hide ProcessEvent, IsBlank, StripReturn, Split, HandleLines, Decode;
      stdoutSize := stdoutSize + |chunk|;
      if stdoutSize > STREAM_LIMIT {
        forced := Some(OutputLimit);
        return;
      }
      var decoded := Decode(config.decoder, pending, chunk);
      pending := decoded.0;
      var pieces := Split(partialLine + decoded.1);
      var n := |pieces| - 1;
      partialLine := pieces[n];
      ghost var start := Current();
      HandleStep(config, start, pieces, 0);
      for i := 0 to n
        invariant Current() == HandleLines(config, start, pieces[..i]) && forced.None?
      {
        HandleStep(config, start, pieces, i);
        var line := StripReturn(pieces[i]);
        if !IsBlank(line) {
          completeLines := completeLines + [line];
          var v := ProcessEvent(config, parsed, config.parse(line));
          parsed := v.parsed;
          if v.violation.Some? {
            forced := Some(Violated(v.violation.value));
            assert pieces[..n][..i + 1] == pieces[..i + 1];
            StopAt(config, start, pieces[..n], i + 1);
            return;
          }
        }
      }
    }

    /** All chunks in turn, until the stream is stopped. */
    method ReadStream(chunks: seq<Bytes>)
      requires Current() == START
      modifies this
      ensures Current() == ReadAll(config, chunks)
    {
      hide ReadChunk;
      var n := 0;
      while n < |chunks| && forced.None?
        invariant n <= |chunks| && Current() == ReadAll(config, chunks[..n])
      {
        Read(chunks[n]);
        assert chunks[..n + 1][..n] == chunks[..n];
        n := n + 1;
      }
      assert chunks[..|chunks|] == chunks;
      if forced.Some? {
        StoppedStreamStays(config, chunks, n);
      }
    }
  }

  lemma HandleStep(c: Config, r: Reader, pieces: seq<string>, i: nat)
    requires i < |pieces|
    ensures HandleLines(c, r, pieces[..0]) == r
    ensures HandleLines(c, r, pieces[..i]).forced.None? ==>
      HandleLines(c, r, pieces[..i + 1]) == HandleLine(c, HandleLines(c, r, pieces[..i]), pieces[i])
  {
    assert pieces[..i + 1][..i] == pieces[..i];
    hide HandleLine;
  }

  lemma {:induction false} StopAt(c: Config, r: Reader, pieces: seq<string>, i: nat)
    requires i <= |pieces| && HandleLines(c, r, pieces[..i]).forced.Some?
    ensures HandleLines(c, r, pieces) == HandleLines(c, r, pieces[..i])
  {
    assert pieces == pieces[..i] + pieces[i..];
    HandleConcat(c, r, pieces[..i], pieces[i..]);
    StoppedReaderStays(c, HandleLines(c, r, pieces[..i]), pieces[i..]);
  }

  lemma {:induction false} StoppedStreamStays(c: Config, chunks: seq<Bytes>, n: nat)
    requires n <= |chunks| && ReadAll(c, chunks[..n]).forced.Some?
    ensures ReadAll(c, chunks) == ReadAll(c, chunks[..n])
    decreases |chunks|
  {
    if n < |chunks| {
      var m := |chunks| - 1;
      assert chunks[..m][..n] == chunks[..n];
      StoppedStreamStays(c, chunks[..m], n);
    } else {
      assert chunks[..n] == chunks;
    }
  }
}
