/**
 * The protocol monitor over the events of a Claude stream: it records what the stream says and stops it at the
 * first violation. Tool names are interned as identifiers; parsing a line and resolving a file path against the
 * workspace are functions of the configuration, as is the decoder of the output.
 */
module ClaudeMonitor {
  import opened Options
  import opened Paths
  import opened IdSets
  import opened Lines

  type ToolName = Id

  const BASH: ToolName := 0
  /** Read, Edit and Write. */
  const FILE_PATH_TOOLS: set<ToolName> := {1, 2, 3}

  /** A content block; what is not a `tool_use` block is ignored. */
  datatype Block =
    | OtherBlock
    | ToolUse(name: Option<ToolName>, id: Option<string>, filePath: Option<string>, command: Option<string>)

  datatype ToolResult = ToolResult(id: string, isError: bool)

  /** One parsed line. `Init.tools` is absent when it is no array; an entry that is no string is `None`. */
  datatype Event =
    | NotAnEvent
    | Init(tools: Option<seq<Option<ToolName>>>, model: Option<string>)
    | Assistant(blocks: seq<Block>)
    | User(results: seq<ToolResult>, toolFailed: bool)
    | Result(isError: bool)
    | OtherEvent

  datatype Config = Config(
    tools: seq<ToolName>,
    testCommands: set<string>,
    model: string,
    hasWorkspace: bool,
    accepts: (ToolName, string) -> bool,
    parse: string -> Event,
    decoder: Decoder,
    hookThrows: bool)

  datatype Violation = IsolationBreach | ModelMismatch | ProtocolError

  datatype Invocation = Invocation(command: string, completed: bool, failed: bool)

  datatype Parsed = Parsed(
    eventIndex: nat,
    initSeen: bool,
    runningNotified: bool,
    reportedModel: Option<string>,
    resultEvent: Option<Event>,
    isError: bool,
    invocations: map<string, Invocation>)

  const NEW := Parsed(0, false, false, None, None, false, map[])

  datatype Verdict = Verdict(parsed: Parsed, violation: Option<Violation>)

  // ---- One line ----

  /** The entries that are strings. */
  function Strings(tools: seq<Option<ToolName>>): seq<ToolName> {
    if tools == [] then [] else (if tools[0].Some? then [tools[0].value] else []) + Strings(tools[1..])
  }

  function ProcessInit(c: Config, s: Parsed, e: Event): Verdict
    requires e.Init?
  {
    if e.tools.None? then Verdict(s, Some(ProtocolError))
    else
      var actual := Sort(Strings(e.tools.value));
      if |actual| != |e.tools.value| || actual != Sort(c.tools) then Verdict(s, Some(IsolationBreach))
      else
        var reported := if e.model.Some? then e.model else s.reportedModel;
        if reported != Some(c.model) then Verdict(s.(reportedModel := reported), Some(ModelMismatch))
        else
          Verdict(s.(reportedModel := reported, initSeen := true, runningNotified := true),
                  if !s.runningNotified && c.hookThrows then Some(ProtocolError) else None)
  }

  function ProcessBlock(c: Config, s: Parsed, b: Block): Verdict {
    if b.OtherBlock? then Verdict(s, None)
    else if b.name.Some? && b.name.value in FILE_PATH_TOOLS then
      if b.filePath.None? || b.id.None? || !c.hasWorkspace || !c.accepts(b.name.value, b.filePath.value)
      then Verdict(s, Some(IsolationBreach))
      else Verdict(s, None)
    else if b.name != Some(BASH) || b.command.None? || b.id.None? || b.command.value !in c.testCommands
    then Verdict(s, Some(IsolationBreach))
    else if b.id.value in s.invocations then Verdict(s, Some(ProtocolError))
    else Verdict(s.(invocations := s.invocations[b.id.value := Invocation(b.command.value, false, false)]), None)
  }

  function ProcessBlocks(c: Config, s: Parsed, blocks: seq<Block>): Verdict
    decreases |blocks|
  {
    if blocks == [] then Verdict(s, None)
    else
      var v := ProcessBlock(c, s, blocks[0]);
      if v.violation.Some? then v else ProcessBlocks(c, v.parsed, blocks[1..])
  }

  function ProcessResult(s: Parsed, r: ToolResult, toolFailed: bool): Parsed {
    if r.id !in s.invocations then s
    else s.(invocations := s.invocations[r.id := Invocation(s.invocations[r.id].command, true, r.isError || toolFailed)])
  }

  function ProcessResults(s: Parsed, results: seq<ToolResult>, toolFailed: bool): Parsed
    decreases |results|
  {
    if results == [] then s else ProcessResults(ProcessResult(s, results[0], toolFailed), results[1..], toolFailed)
  }

  function ProcessEvent(c: Config, s: Parsed, e: Event): Verdict {
    match e
    case NotAnEvent => Verdict(s, Some(ProtocolError))
    case Init(_, _) => ProcessInit(c, s.(eventIndex := s.eventIndex + 1), e)
    case Assistant(blocks) => ProcessBlocks(c, s.(eventIndex := s.eventIndex + 1), blocks)
    case User(results, toolFailed) => Verdict(ProcessResults(s.(eventIndex := s.eventIndex + 1), results, toolFailed), None)
    case Result(isError) =>
      if s.resultEvent.Some? then Verdict(s.(eventIndex := s.eventIndex + 1), Some(ProtocolError))
      else Verdict(s.(eventIndex := s.eventIndex + 1, resultEvent := Some(e), isError := isError), None)
    case OtherEvent => Verdict(s.(eventIndex := s.eventIndex + 1), None)
  }

  /** The events in order, up to the first violation. */
  function ProcessEvents(c: Config, s: Parsed, events: seq<Event>): Verdict {
    if events == [] then Verdict(s, None)
    else
      var v := ProcessEvents(c, s, events[..|events| - 1]);
      if v.violation.Some? then v else ProcessEvent(c, v.parsed, events[|events| - 1])
  }

  // ---- What a stream without violation is ----

  datatype Call = Call(id: string, command: string)

  function BashCallsOf(blocks: seq<Block>): seq<Call> {
    if blocks == [] then []
    else
      (if blocks[0].ToolUse? && blocks[0].name == Some(BASH) && blocks[0].id.Some? && blocks[0].command.Some?
       then [Call(blocks[0].id.value, blocks[0].command.value)] else []) + BashCallsOf(blocks[1..])
  }

  function BashCalls(events: seq<Event>): seq<Call> {
    if events == [] then []
    else BashCalls(events[..|events| - 1]) + (if events[|events| - 1].Assistant? then BashCallsOf(events[|events| - 1].blocks) else [])
  }

  /** An accepted file path, or a Bash command of the allowlist, word for word. */
  predicate AllowedBlock(c: Config, b: Block) {
    b.ToolUse? ==>
      && b.name.Some? && b.id.Some?
      && (if b.name.value in FILE_PATH_TOOLS then c.hasWorkspace && b.filePath.Some? && c.accepts(b.name.value, b.filePath.value)
          else b.name.value == BASH && b.command.Some? && b.command.value in c.testCommands)
  }

  /** Exactly the expected tools, every one named, and no other model. */
  predicate AllowedInit(c: Config, e: Event) {
    e.Init? ==>
      && e.tools.Some? && (forall t | t in e.tools.value :: t.Some?)
      && multiset(Strings(e.tools.value)) == multiset(c.tools)
      && (e.model.Some? ==> e.model.value == c.model)
  }

  predicate AllowedEvent(c: Config, e: Event) {
    e != NotAnEvent && AllowedInit(c, e) && (e.Assistant? ==> forall b | b in e.blocks :: AllowedBlock(c, b))
  }

  ghost predicate FreshIds(calls: seq<Call>) {
    forall i, j :: 0 <= i < j < |calls| ==> calls[i].id != calls[j].id
  }

  /** The recorded invocations are the Bash calls of the stream. */
  ghost predicate Records(invocations: map<string, Invocation>, calls: seq<Call>) {
    && FreshIds(calls)
    && (forall i :: 0 <= i < |calls| ==> calls[i].id in invocations && invocations[calls[i].id].command == calls[i].command)
    && (forall id :: id in invocations ==> exists i :: 0 <= i < |calls| && calls[i].id == id)
  }

  function ResultCount(events: seq<Event>): nat {
    if events == [] then 0 else ResultCount(events[..|events| - 1]) + if events[|events| - 1].Result? then 1 else 0
  }

  /** A model was reported at or before the first init event. */
  ghost predicate ReportsModel(events: seq<Event>, model: string) {
    exists i :: 0 <= i < |events| && events[i].Init? && events[i].model == Some(model)
  }

  ghost predicate InitsFit(c: Config, events: seq<Event>, s: Parsed) {
    && (s.initSeen <==> exists e :: e in events && e.Init?)
    && (s.reportedModel.Some? <==> s.initSeen) && s.runningNotified == s.initSeen && (s.initSeen ==> s.reportedModel == Some(c.model) && ReportsModel(events, c.model))
  }

  ghost predicate ResultsFit(events: seq<Event>, s: Parsed) {
    && ResultCount(events) == (if s.resultEvent.Some? then 1 else 0)
    && (s.resultEvent.Some? ==> s.resultEvent.value in events && s.resultEvent.value == Result(s.isError))
  }

  ghost predicate Monitored(c: Config, events: seq<Event>, s: Parsed) {
    && (forall e :: e in events ==> AllowedEvent(c, e))
    && Records(s.invocations, BashCalls(events)) && InitsFit(c, events, s) && ResultsFit(events, s)
  }

  // ---- The monitor accepts only such streams ----

  lemma {:induction false} StringsLength(tools: seq<Option<ToolName>>)
    ensures |Strings(tools)| <= |tools|
    ensures |Strings(tools)| == |tools| <==> forall t :: t in tools ==> t.Some?
  {
    if tools != [] {
      StringsLength(tools[1..]);
      assert tools == [tools[0]] + tools[1..];
    }
  }

  lemma SortDecidesMultisets(a: seq<ToolName>, b: seq<ToolName>)
    ensures Sort(a) == Sort(b) <==> multiset(a) == multiset(b)
    ensures |Sort(a)| == |a|
  {
    SortIsAPermutation(a);
    SortIsAPermutation(b);
    hide Sort, Ascending;
    if multiset(a) == multiset(b) {
      AscendingIsUnique(Sort(a), Sort(b));
    }
    assert |multiset(Sort(a))| == |multiset(a)|;
  }

  /** An init event passes exactly when it lists the expected tools and the reported model is the expected one. */
  lemma InitPassesExactly(c: Config, s: Parsed, e: Event)
    requires e.Init?
    ensures ProcessInit(c, s, e).violation.None? <==>
        && e.tools.Some? && (forall t :: t in e.tools.value ==> t.Some?) && multiset(Strings(e.tools.value)) == multiset(c.tools)
        && (if e.model.Some? then e.model == Some(c.model) else s.reportedModel == Some(c.model))
        && (s.runningNotified || !c.hookThrows)
  {
    if e.tools.Some? {
      StringsLength(e.tools.value);
      SortDecidesMultisets(Strings(e.tools.value), c.tools);
    }
    hide Sort, Strings;
  }

  lemma BlockRecords(c: Config, s: Parsed, b: Block, calls: seq<Call>)
    requires Records(s.invocations, calls) && ProcessBlock(c, s, b).violation.None?
    ensures var s' := ProcessBlock(c, s, b).parsed;
      AllowedBlock(c, b) && Records(s'.invocations, calls + BashCallsOf([b])) && s' == s.(invocations := s'.invocations)
  {
    var s' := ProcessBlock(c, s, b).parsed;
    assert [b][1..] == [];
    if s'.invocations != s.invocations {
      var call := Call(b.id.value, b.command.value);
      assert BashCallsOf([b]) == [call];
      NewCallRecords(s.invocations, calls, call);
    } else {
      assert BashCallsOf([b]) == [];
      assert calls + [] == calls;
    }
  }

  lemma NewCallRecords(invocations: map<string, Invocation>, calls: seq<Call>, call: Call)
    requires Records(invocations, calls) && call.id !in invocations
    ensures Records(invocations[call.id := Invocation(call.command, false, false)], calls + [call])
  {
    var all := calls + [call];
    forall id | id in invocations || id == call.id
      ensures exists i :: 0 <= i < |all| && all[i].id == id
    {
      if id == call.id {
        assert all[|calls|].id == id;
      } else {
        var i :| 0 <= i < |calls| && calls[i].id == id;
        assert all[i].id == id;
      }
    }
  }

  lemma {:induction false} BlocksRecord(c: Config, s: Parsed, blocks: seq<Block>, calls: seq<Call>)
    requires Records(s.invocations, calls) && ProcessBlocks(c, s, blocks).violation.None?
    ensures forall b :: b in blocks ==> AllowedBlock(c, b)
    ensures var s' := ProcessBlocks(c, s, blocks).parsed;
      Records(s'.invocations, calls + BashCallsOf(blocks)) && s' == s.(invocations := s'.invocations)
    decreases |blocks|
  {
    hide Records, AllowedBlock, ProcessBlock;
    if blocks == [] {
      assert calls + BashCallsOf(blocks) == calls;
    } else {
      BlockRecords(c, s, blocks[0], calls);
      BlocksRecord(c, ProcessBlock(c, s, blocks[0]).parsed, blocks[1..], calls + BashCallsOf([blocks[0]]));
      assert blocks == [blocks[0]] + blocks[1..] && [blocks[0]][1..] == [];
      assert calls + BashCallsOf([blocks[0]]) + BashCallsOf(blocks[1..]) == calls + BashCallsOf(blocks);
    }
  }

  lemma {:induction false} ResultsKeepRecords(s: Parsed, results: seq<ToolResult>, toolFailed: bool, calls: seq<Call>)
    requires Records(s.invocations, calls)
    ensures var s' := ProcessResults(s, results, toolFailed);
      Records(s'.invocations, calls) && s' == s.(invocations := s'.invocations)
    decreases |results|
  {
    if results != [] {
      ResultsKeepRecords(ProcessResult(s, results[0], toolFailed), results[1..], toolFailed, calls);
    }
  }

  /** One event without violation is allowed, and changes only the part of the record it is about. */
  lemma EventIsAllowed(c: Config, s: Parsed, e: Event, calls: seq<Call>)
    requires Records(s.invocations, calls) && ProcessEvent(c, s, e).violation.None?
    requires s.reportedModel.Some? ==> s.reportedModel == Some(c.model)
    ensures AllowedEvent(c, e)
    ensures var s' := ProcessEvent(c, s, e).parsed;
      && Records(s'.invocations, if e.Assistant? then calls + BashCallsOf(e.blocks) else calls)
      && (if e.Init? then s'.initSeen && s'.reportedModel == Some(c.model) && (s.reportedModel.Some? || e.model == Some(c.model))
          else s'.initSeen == s.initSeen && s'.reportedModel == s.reportedModel)
      && s'.runningNotified == (s.runningNotified || e.Init?)
      && (if e.Result? then s.resultEvent.None? && s'.resultEvent == Some(e) && s'.isError == e.isError
          else s'.resultEvent == s.resultEvent && s'.isError == s.isError)
  {
    hide Records, AllowedBlock, ProcessBlocks, ProcessResults, Sort, Strings;
    var next := s.(eventIndex := s.eventIndex + 1);
    match e
    case Init(_, _) => InitPassesExactly(c, next, e);
    case Assistant(blocks) => BlocksRecord(c, next, blocks, calls);
    case User(results, toolFailed) => ResultsKeepRecords(next, results, toolFailed, calls);
    case _ =>
  }

  lemma EventIsMonitored(c: Config, events: seq<Event>, s: Parsed, e: Event)
    requires Monitored(c, events, s) && ProcessEvent(c, s, e).violation.None?
    ensures Monitored(c, events + [e], ProcessEvent(c, s, e).parsed)
  {
    hide *;
    MonitoredParts(c, events, s);
    EventIsAllowed(c, s, e, BashCalls(events));
    CountsGrow(events, e);
    ReportsGrow(events, e, c.model);
    InitsAfter(c, events, s, e, ProcessEvent(c, s, e).parsed);
    ResultsAfter(events, s, e, ProcessEvent(c, s, e).parsed);
    PartsMakeMonitored(c, events, e, ProcessEvent(c, s, e).parsed);
  }

  lemma MonitoredParts(c: Config, events: seq<Event>, s: Parsed)
    requires Monitored(c, events, s)
    ensures forall e :: e in events ==> AllowedEvent(c, e)
    ensures Records(s.invocations, BashCalls(events)) && InitsFit(c, events, s) && ResultsFit(events, s)
    ensures s.reportedModel.Some? ==> s.reportedModel == Some(c.model)
  {
    hide AllowedEvent, Records, ReportsModel, BashCalls;
  }

  lemma PartsMakeMonitored(c: Config, events: seq<Event>, e: Event, s': Parsed)
    requires (forall f :: f in events ==> AllowedEvent(c, f)) && AllowedEvent(c, e)
    requires Records(s'.invocations, BashCalls(events + [e])) && InitsFit(c, events + [e], s') && ResultsFit(events + [e], s')
    ensures Monitored(c, events + [e], s')
  {
    hide AllowedEvent, Records, InitsFit, ResultsFit, BashCalls;
  }

  lemma InitsAfter(c: Config, events: seq<Event>, s: Parsed, e: Event, s': Parsed)
    requires InitsFit(c, events, s)
    requires if e.Init? then s'.initSeen && s'.reportedModel == Some(c.model) && (s.reportedModel.Some? || e.model == Some(c.model))
             else s'.initSeen == s.initSeen && s'.reportedModel == s.reportedModel
    requires s'.runningNotified == (s.runningNotified || e.Init?)
    requires ReportsModel(events, c.model) || (e.Init? && e.model == Some(c.model)) ==> ReportsModel(events + [e], c.model)
    ensures InitsFit(c, events + [e], s')
  {
    hide ReportsModel;
    assert e in events + [e];
    assert forall f :: f in events + [e] <==> f in events || f == e;
  }

  lemma ResultsAfter(events: seq<Event>, s: Parsed, e: Event, s': Parsed)
    requires ResultsFit(events, s)
    requires if e.Result? then s.resultEvent.None? && s'.resultEvent == Some(e) && s'.isError == e.isError
             else s'.resultEvent == s.resultEvent && s'.isError == s.isError
    requires ResultCount(events + [e]) == ResultCount(events) + if e.Result? then 1 else 0
    ensures ResultsFit(events + [e], s')
  {
    hide ResultCount;
    assert forall f :: f in events + [e] <==> f in events || f == e;
  }

  lemma CountsGrow(events: seq<Event>, e: Event)
    ensures BashCalls(events + [e]) == if e.Assistant? then BashCalls(events) + BashCallsOf(e.blocks) else BashCalls(events)
    ensures ResultCount(events + [e]) == ResultCount(events) + if e.Result? then 1 else 0
  {
    assert (events + [e])[..|events|] == events;
    hide BashCallsOf;
  }

  lemma ReportsGrow(events: seq<Event>, e: Event, model: string)
    ensures ReportsModel(events, model) || (e.Init? && e.model == Some(model)) ==> ReportsModel(events + [e], model)
  {
    if ReportsModel(events, model) {
      var i :| 0 <= i < |events| && events[i].Init? && events[i].model == Some(model);
      assert (events + [e])[i] == events[i];
    } else {
      assert (events + [e])[|events|] == e;
    }
  }

  /** What the monitor lets through, from the start of the stream. */
  lemma {:induction false} CleanStreamsAreMonitored(c: Config, events: seq<Event>)
    requires ProcessEvents(c, NEW, events).violation.None?
    ensures Monitored(c, events, ProcessEvents(c, NEW, events).parsed)
  {
    if events == [] {
      assert BashCalls(events) == [];
    } else {
      var n := |events| - 1;
      CleanStreamsAreMonitored(c, events[..n]);
      EventIsMonitored(c, events[..n], ProcessEvents(c, NEW, events[..n]).parsed, events[n]);
      assert events == events[..n] + [events[n]];
      hide Monitored, ProcessEvent;
    }
  }

  // ---- And it accepts all of them ----

  predicate IsBashCall(b: Block) {
    b.ToolUse? && b.name == Some(BASH) && b.id.Some? && b.command.Some?
  }

  /** A block passes exactly when it is allowed and no Bash call reuses an identifier; and how it fails otherwise. */
  lemma BlockPassesExactly(c: Config, s: Parsed, b: Block)
    ensures ProcessBlock(c, s, b).violation.None? <==> AllowedBlock(c, b) && (IsBashCall(b) ==> b.id.value !in s.invocations)
    ensures ProcessBlock(c, s, b).violation == Some(IsolationBreach) <==> !AllowedBlock(c, b)
    ensures ProcessBlock(c, s, b).violation == Some(ProtocolError)
       <==> AllowedBlock(c, b) && IsBashCall(b) && b.id.value in s.invocations
  {
  }

  lemma FreshPrefix(calls: seq<Call>, more: seq<Call>)
    requires FreshIds(calls + more)
    ensures FreshIds(calls)
  {
    forall i, j | 0 <= i < j < |calls| ensures calls[i].id != calls[j].id {
      assert (calls + more)[i] == calls[i] && (calls + more)[j] == calls[j];
    }
  }

  lemma ReusedIdIsRecorded(invocations: map<string, Invocation>, calls: seq<Call>, call: Call)
    requires Records(invocations, calls)
    ensures FreshIds(calls + [call]) <==> call.id !in invocations
  {
    var all := calls + [call];
    if call.id in invocations {
      var i :| 0 <= i < |calls| && calls[i].id == call.id;
      assert all[i].id == all[|calls|].id;
    } else {
      forall i, j | 0 <= i < j < |all| ensures all[i].id != all[j].id {
        assert all[i] == calls[i];
      }
    }
  }

  lemma {:induction false} BlocksPassExactly(c: Config, s: Parsed, blocks: seq<Block>, calls: seq<Call>)
    requires Records(s.invocations, calls)
    ensures ProcessBlocks(c, s, blocks).violation.None?
       <==> (forall b :: b in blocks ==> AllowedBlock(c, b)) && FreshIds(calls + BashCallsOf(blocks))
    decreases |blocks|
  {
    hide Records, AllowedBlock, ProcessBlock, FreshIds;
    if blocks == [] {
      assert calls + BashCallsOf(blocks) == calls;
      RecordsAreFresh(s.invocations, calls);
    } else {
      var b, rest := blocks[0], blocks[1..];
      assert blocks == [b] + rest && [b][1..] == [];
      assert calls + BashCallsOf(blocks) == calls + BashCallsOf([b]) + BashCallsOf(rest);
      BlockPassesExactly(c, s, b);
      if ProcessBlock(c, s, b).violation.None? {
        BlockRecords(c, s, b, calls);
        BlocksPassExactly(c, ProcessBlock(c, s, b).parsed, rest, calls + BashCallsOf([b]));
      } else if AllowedBlock(c, b) {
        ReusedIdIsRecorded(s.invocations, calls, Call(b.id.value, b.command.value));
        assert BashCallsOf([b]) == [Call(b.id.value, b.command.value)];
        if FreshIds(calls + BashCallsOf(blocks)) {
          FreshPrefix(calls + BashCallsOf([b]), BashCallsOf(rest));
        }
      }
    }
  }

  lemma RecordsAreFresh(invocations: map<string, Invocation>, calls: seq<Call>)
    requires Records(invocations, calls)
    ensures FreshIds(calls)
  {
  }

  /** The first init event reports the expected model itself. */
  ghost predicate FirstInitReports(c: Config, events: seq<Event>) {
    forall i :: 0 <= i < |events| && events[i].Init? && (forall k :: 0 <= k < i ==> !events[k].Init?) ==> events[i].model == Some(c.model)
  }

  /** What a stream has to be, without the monitor: allowed events, fresh identifiers, one result, one reported model. */
  ghost predicate CleanExchange(c: Config, events: seq<Event>) {
    && (forall e :: e in events ==> AllowedEvent(c, e))
    && FreshIds(BashCalls(events)) && ResultCount(events) <= 1 && FirstInitReports(c, events)
    && (c.hookThrows ==> forall e :: e in events ==> !e.Init?)
  }

  /** The next event of a stream that was clean so far passes exactly when the stream stays clean. */
  lemma EventPassesExactly(c: Config, events: seq<Event>, s: Parsed, e: Event)
    requires Monitored(c, events, s) && CleanExchange(c, events)
    ensures ProcessEvent(c, s, e).violation.None? <==> CleanExchange(c, events + [e])
  {
    hide *;
    CleanGrows(c, events, e);
    match e
    case Init(_, _) => InitEventPasses(c, events, s, e);
    case Assistant(blocks) => MessagePasses(c, events, s, e);
    case _ => OtherEventPasses(c, events, s, e);
  }

  lemma InitEventPasses(c: Config, events: seq<Event>, s: Parsed, e: Event)
    requires Monitored(c, events, s) && e.Init?
    requires c.hookThrows ==> forall f :: f in events ==> !f.Init?
    ensures ProcessEvent(c, s, e).violation.None?
       <==> AllowedEvent(c, e) && !c.hookThrows && (e.model == Some(c.model) || exists f :: f in events && f.Init?)
  {
    InitsSoFar(c, events, s);
    InitPassesExactly(c, s.(eventIndex := s.eventIndex + 1), e);
    hide Monitored, Strings, Sort, ProcessInit;
  }

  lemma MessagePasses(c: Config, events: seq<Event>, s: Parsed, e: Event)
    requires Monitored(c, events, s) && e.Assistant?
    ensures ProcessEvent(c, s, e).violation.None? <==> AllowedEvent(c, e) && FreshIds(BashCalls(events) + BashCallsOf(e.blocks))
  {
    MonitoredParts(c, events, s);
    BlocksPassExactly(c, s.(eventIndex := s.eventIndex + 1), e.blocks, BashCalls(events));
    hide Monitored, Records, BashCalls, BashCallsOf, FreshIds, AllowedBlock, ProcessBlocks;
  }

  lemma OtherEventPasses(c: Config, events: seq<Event>, s: Parsed, e: Event)
    requires Monitored(c, events, s) && !e.Init? && !e.Assistant?
    ensures ProcessEvent(c, s, e).violation.None? <==> AllowedEvent(c, e) && (e.Result? ==> ResultCount(events) == 0)
  {
    ResultsSoFar(c, events, s);
    OtherEventsFailExactly(c, s, e);
    hide Monitored, ProcessEvent, ResultCount;
  }

  lemma InitsSoFar(c: Config, events: seq<Event>, s: Parsed)
    requires Monitored(c, events, s)
    ensures s.initSeen <==> exists e :: e in events && e.Init?
    ensures s.runningNotified == s.initSeen && s.reportedModel == if s.initSeen then Some(c.model) else None
  {
    hide AllowedEvent, Records, ResultsFit, ReportsModel;
  }

  lemma ResultsSoFar(c: Config, events: seq<Event>, s: Parsed)
    requires Monitored(c, events, s)
    ensures ResultCount(events) == if s.resultEvent.Some? then 1 else 0
    ensures s.resultEvent.Some? ==> s.resultEvent.value in events && s.resultEvent.value == Result(s.isError)
  {
    hide AllowedEvent, Records, InitsFit, ResultCount;
  }

  /** How one more event changes what is asked of a stream. */
  lemma CleanGrows(c: Config, events: seq<Event>, e: Event)
    requires CleanExchange(c, events)
    ensures c.hookThrows ==> forall f :: f in events ==> !f.Init?
    ensures CleanExchange(c, events + [e])
       <==> && AllowedEvent(c, e)
            && (e.Assistant? ==> FreshIds(BashCalls(events) + BashCallsOf(e.blocks)))
            && (e.Result? ==> ResultCount(events) == 0)
            && (e.Init? ==> !c.hookThrows && (e.model == Some(c.model) || exists f :: f in events && f.Init?))
  {
    CountsGrow(events, e);
    FirstInitGrows(c, events, e);
    assert e in events + [e] && forall f :: f in events + [e] <==> f in events || f == e;
    hide AllowedEvent, FreshIds, BashCalls, BashCallsOf, ResultCount, FirstInitReports;
  }

  lemma FirstInitGrows(c: Config, events: seq<Event>, e: Event)
    requires FirstInitReports(c, events)
    ensures FirstInitReports(c, events + [e]) <==> (e.Init? ==> e.model == Some(c.model) || exists f :: f in events && f.Init?)
  {
    var all, n := events + [e], |events|;
    assert all[n] == e && forall i :: 0 <= i < n ==> all[i] == events[i];
    if e.Init? && (forall f :: f in events ==> !f.Init?) {
      assert forall k :: 0 <= k < n ==> !all[k].Init?;
    }
    if f :| f in events && f.Init? {
      var k :| 0 <= k < n && events[k] == f;
      assert all[k].Init?;
    }
  }

  lemma CleanPrefix(c: Config, events: seq<Event>, e: Event)
    requires CleanExchange(c, events + [e])
    ensures CleanExchange(c, events)
  {
    CountsGrow(events, e);
    var all := events + [e];
    assert forall f :: f in events ==> f in all;
    forall i | 0 <= i < |events| && events[i].Init? && (forall k :: 0 <= k < i ==> !events[k].Init?) ensures events[i].model == Some(c.model) {
      assert all[i] == events[i] && forall k :: 0 <= k < i ==> all[k] == events[k];
    }
    FreshPrefix(BashCalls(events), if e.Assistant? then BashCallsOf(e.blocks) else []);
    assert BashCalls(events) + [] == BashCalls(events);
    hide AllowedEvent, FreshIds, BashCalls, BashCallsOf, ResultCount;
  }

  /** The monitor lets through exactly the clean exchanges. */
  lemma {:induction false} StreamsPassExactly(c: Config, events: seq<Event>)
    ensures ProcessEvents(c, NEW, events).violation.None? <==> CleanExchange(c, events)
  {
    if events == [] {
      assert BashCalls(events) == [];
    } else {
      hide CleanExchange, ProcessEvent;
      var n := |events| - 1;
      assert events == events[..n] + [events[n]];
      StreamsPassExactly(c, events[..n]);
      if ProcessEvents(c, NEW, events[..n]).violation.None? {
        CleanStreamsAreMonitored(c, events[..n]);
        EventPassesExactly(c, events[..n], ProcessEvents(c, NEW, events[..n]).parsed, events[n]);
      } else if CleanExchange(c, events) {
        CleanPrefix(c, events[..n], events[n]);
      }
    }
  }

  /** How an init event fails, check by check. */
  lemma InitFailsExactly(c: Config, s: Parsed, e: Event)
    requires e.Init?
    ensures var v, listed := ProcessInit(c, s, e).violation,
                             e.tools.Some? && (forall t :: t in e.tools.value ==> t.Some?) && multiset(Strings(e.tools.value)) == multiset(c.tools);
      var reported := if e.model.Some? then e.model else s.reportedModel;
      && (v == Some(IsolationBreach) <==> e.tools.Some? && !listed)
      && (v == Some(ModelMismatch) <==> listed && reported != Some(c.model))
      && (v == Some(ProtocolError) <==> e.tools.None? || (listed && reported == Some(c.model) && !s.runningNotified && c.hookThrows))
  {
    if e.tools.Some? {
      StringsLength(e.tools.value);
      SortDecidesMultisets(Strings(e.tools.value), c.tools);
    }
    hide Sort, Strings;
  }

  /** The first bad block of a message decides how it fails. */
  lemma {:induction false} FirstBadBlockDecides(c: Config, s: Parsed, good: seq<Block>, bad: Block, rest: seq<Block>)
    requires ProcessBlocks(c, s, good).violation.None?
    requires ProcessBlock(c, ProcessBlocks(c, s, good).parsed, bad).violation.Some?
    ensures ProcessBlocks(c, s, good + [bad] + rest) == ProcessBlock(c, ProcessBlocks(c, s, good).parsed, bad)
    decreases |good|
  {
    var all := good + [bad] + rest;
    hide ProcessBlock;
    if good == [] {
      assert all[0] == bad;
    } else {
      assert all[0] == good[0] && all[1..] == good[1..] + [bad] + rest;
      FirstBadBlockDecides(c, ProcessBlock(c, s, good[0]).parsed, good[1..], bad, rest);
    }
  }

  /** What is no event, and a second result, are protocol errors; results of tools and other events never fail. */
  lemma OtherEventsFailExactly(c: Config, s: Parsed, e: Event)
    requires !e.Init? && !e.Assistant?
    ensures ProcessEvent(c, s, e).violation
         == if e == NotAnEvent || (e.Result? && s.resultEvent.Some?) then Some(ProtocolError) else None
  {
    hide ProcessResults;
  }

  // ---- What became of each call ----

  /** The last result reported for `id`: whether it failed, or nothing. */
  function LastResult(results: seq<ToolResult>, toolFailed: bool, id: string): Option<bool> {
    if results == [] then None
    else if results[|results| - 1].id == id then Some(results[|results| - 1].isError || toolFailed)
    else LastResult(results[..|results| - 1], toolFailed, id)
  }

  predicate IsCalled(events: seq<Event>, id: string) {
    exists call | call in BashCalls(events) :: call.id == id
  }

  /** The same over the stream; a result before its call is ignored. */
  function Reported(events: seq<Event>, id: string): Option<bool> {
    if events == [] then None
    else
      var before, e := events[..|events| - 1], events[|events| - 1];
      if e.User? && IsCalled(before, id) && LastResult(e.results, e.toolFailed, id).Some?
      then LastResult(e.results, e.toolFailed, id)
      else Reported(before, id)
  }

  predicate StatusIs(i: Invocation, reported: Option<bool>) {
    i.completed == reported.Some? && i.failed == (reported == Some(true))
  }

  ghost predicate StatusesFit(events: seq<Event>, s: Parsed) {
    forall id :: id in s.invocations ==> StatusIs(s.invocations[id], Reported(events, id))
  }

  lemma {:induction false} ResultsReport(s: Parsed, results: seq<ToolResult>, toolFailed: bool, id: string)
    requires id in s.invocations
    ensures var s' := ProcessResults(s, results, toolFailed);
      && id in s'.invocations
      && (match LastResult(results, toolFailed, id)
          case None => s'.invocations[id] == s.invocations[id]
          case Some(failed) => s'.invocations[id].completed && s'.invocations[id].failed == failed)
    decreases |results|
  {
    if results != [] {
      var r := ProcessResult(s, results[0], toolFailed);
      ResultsReport(r, results[1..], toolFailed, id);
      LastResultFromFront(results, toolFailed, id);
    }
  }

  lemma {:induction false} LastResultFromFront(results: seq<ToolResult>, toolFailed: bool, id: string)
    requires results != []
    ensures LastResult(results, toolFailed, id)
         == if LastResult(results[1..], toolFailed, id).Some? then LastResult(results[1..], toolFailed, id)
            else if results[0].id == id then Some(results[0].isError || toolFailed) else None
    decreases |results|
  {
    if |results| > 1 {
      var n := |results| - 1;
      LastResultFromFront(results[..n], toolFailed, id);
      assert results[..n][1..] == results[1..][..n - 1] && results[1..][n - 1] == results[n];
    } else {
      assert results[..0] == [] && results[1..] == [];
    }
  }

  lemma ReportedStep(events: seq<Event>, e: Event, id: string)
    ensures Reported(events + [e], id)
         == if e.User? && IsCalled(events, id) && LastResult(e.results, e.toolFailed, id).Some?
            then LastResult(e.results, e.toolFailed, id) else Reported(events, id)
  {
    assert (events + [e])[..|events|] == events;
    hide IsCalled, LastResult;
  }

  lemma {:induction false} UncalledIsUnreported(events: seq<Event>, id: string)
    requires !IsCalled(events, id)
    ensures Reported(events, id).None?
  {
    if events != [] {
      var n := |events| - 1;
      assert forall call :: call in BashCalls(events[..n]) ==> call in BashCalls(events);
      UncalledIsUnreported(events[..n], id);
    }
  }

  lemma {:induction false} BlocksKeepStatuses(c: Config, s: Parsed, blocks: seq<Block>, id: string)
    ensures var s' := ProcessBlocks(c, s, blocks).parsed;
      && (id in s.invocations ==> id in s'.invocations && s'.invocations[id] == s.invocations[id])
      && (id in s'.invocations && id !in s.invocations ==> StatusIs(s'.invocations[id], None))
    decreases |blocks|
  {
    if blocks != [] {
      BlocksKeepStatuses(c, ProcessBlock(c, s, blocks[0]).parsed, blocks[1..], id);
    }
  }

  lemma CalledIsRecorded(invocations: map<string, Invocation>, events: seq<Event>, id: string)
    requires Records(invocations, BashCalls(events))
    ensures id in invocations <==> IsCalled(events, id)
  {
    if id in invocations {
      var i :| 0 <= i < |BashCalls(events)| && BashCalls(events)[i].id == id;
      assert BashCalls(events)[i] in BashCalls(events);
    }
    if IsCalled(events, id) {
      var call :| call in BashCalls(events) && call.id == id;
      var i :| 0 <= i < |BashCalls(events)| && BashCalls(events)[i] == call;
    }
    hide BashCalls;
  }

  lemma EventKeepsStatus(c: Config, events: seq<Event>, s: Parsed, e: Event, id: string)
    requires Records(s.invocations, BashCalls(events)) && StatusesFit(events, s)
    requires id in ProcessEvent(c, s, e).parsed.invocations
    ensures StatusIs(ProcessEvent(c, s, e).parsed.invocations[id], Reported(events + [e], id))
  {
    ReportedStep(events, e, id);
    CalledIsRecorded(s.invocations, events, id);
    if !IsCalled(events, id) {
      UncalledIsUnreported(events, id);
    }
    EventChangesStatus(c, s, e, id);
    hide *;
    StatusAfter(s, e, id, ProcessEvent(c, s, e).parsed.invocations[id], Reported(events, id), Reported(events + [e], id));
  }

  /** What one event does to one invocation. */
  lemma EventChangesStatus(c: Config, s: Parsed, e: Event, id: string)
    ensures var s' := ProcessEvent(c, s, e).parsed;
      id in s'.invocations ==>
        if id !in s.invocations then !e.User? && StatusIs(s'.invocations[id], None)
        else if e.User? && LastResult(e.results, e.toolFailed, id).Some?
        then StatusIs(s'.invocations[id], LastResult(e.results, e.toolFailed, id))
        else s'.invocations[id] == s.invocations[id]
  {
    var next := s.(eventIndex := s.eventIndex + 1);
    hide ProcessBlocks, ProcessResults, LastResult, Sort, Strings;
    match e
    case Assistant(blocks) => BlocksKeepStatuses(c, next, blocks, id);
    case User(results, toolFailed) =>
      if id in s.invocations {
        ResultsReport(next, results, toolFailed, id);
      } else {
        NoNewInvocations(next, results, toolFailed, id);
      }
    case _ =>
  }

  lemma StatusAfter(s: Parsed, e: Event, id: string, i: Invocation, before: Option<bool>, after: Option<bool>)
    requires if id !in s.invocations then !e.User? && StatusIs(i, None) && before.None?
             else if e.User? && LastResult(e.results, e.toolFailed, id).Some? then StatusIs(i, LastResult(e.results, e.toolFailed, id))
             else i == s.invocations[id] && StatusIs(i, before)
    requires after == if e.User? && id in s.invocations && LastResult(e.results, e.toolFailed, id).Some?
                      then LastResult(e.results, e.toolFailed, id) else before
    ensures StatusIs(i, after)
  {
    hide LastResult;
  }

  lemma {:induction false} NoNewInvocations(s: Parsed, results: seq<ToolResult>, toolFailed: bool, id: string)
    requires id !in s.invocations
    ensures id !in ProcessResults(s, results, toolFailed).invocations
    decreases |results|
  {
    if results != [] {
      NoNewInvocations(ProcessResult(s, results[0], toolFailed), results[1..], toolFailed, id);
    }
  }

  /** Each recorded invocation is completed and failed exactly as the last result reported for its call says. */
  lemma {:induction false} StatusesAreReported(c: Config, events: seq<Event>)
    requires ProcessEvents(c, NEW, events).violation.None?
    ensures StatusesFit(events, ProcessEvents(c, NEW, events).parsed)
  {
    hide ProcessEvent, Monitored, Reported, StatusIs;
    if events != [] {
      var n := |events| - 1;
      var before := ProcessEvents(c, NEW, events[..n]).parsed;
      StatusesAreReported(c, events[..n]);
      CleanStreamsAreMonitored(c, events[..n]);
      MonitoredParts(c, events[..n], before);
      assert events == events[..n] + [events[n]];
      forall id | id in ProcessEvent(c, before, events[n]).parsed.invocations
        ensures StatusIs(ProcessEvent(c, before, events[n]).parsed.invocations[id], Reported(events, id))
      {
        EventKeepsStatus(c, events[..n], before, events[n], id);
      }
    }
  }

  // ---- Evidence for the required commands ----

  datatype Note = ExitZero(command: string) | ToolError(command: string) | ResultMissing(command: string)

  datatype Evidence = Evidence(tests: seq<Note>, failures: seq<Note>, missing: seq<string>)

  predicate Ran(s: Parsed, command: string) {
    exists id | id in s.invocations :: s.invocations[id].command == command
  }

  predicate RanWell(s: Parsed, command: string) {
    exists id | id in s.invocations :: s.invocations[id].command == command && s.invocations[id].completed && !s.invocations[id].failed
  }

  predicate RanBadly(s: Parsed, command: string) {
    exists id | id in s.invocations :: s.invocations[id].command == command && s.invocations[id].failed
  }

  predicate LeftRunning(s: Parsed, command: string) {
    exists id | id in s.invocations :: s.invocations[id].command == command && !s.invocations[id].completed
  }

  predicate IsFailure(s: Parsed, n: Note) {
    (n.ToolError? && RanBadly(s, n.command)) || (n.ResultMissing? && LeftRunning(s, n.command))
  }

  /** The lists hold exactly what the invocations of the first `required` commands say. */
  ghost predicate IsEvidence(e: Evidence, s: Parsed, required: seq<string>) {
    && (forall n :: n in e.tests <==> n.ExitZero? && n.command in required && RanWell(s, n.command))
    && (forall n :: n in e.failures <==> n.command in required && IsFailure(s, n))
    && (forall k :: k in e.missing <==> k in required && !Ran(s, k))
  }

  /** Looks up, for each required command, the invocations with exactly that command. */
  method TestCommandEvidence(s: Parsed, required: seq<string>) returns (e: Evidence)
    ensures IsEvidence(e, s, required)
  {
    hide Ran, RanWell, RanBadly, LeftRunning;
    var tests: seq<Note>, failures: seq<Note>, missing: seq<string> := [], [], [];
    for i := 0 to |required|
      invariant IsEvidence(Evidence(tests, failures, missing), s, required[..i])
    {
      var command := required[i];
      assert required[..i + 1] == required[..i] + [command];
      UnrunHasNoNotes(s, command);
      if !Ran(s, command) {
        missing := missing + [command];
      } else {
        if RanWell(s, command) {
          tests := tests + [ExitZero(command)];
        }
        if RanBadly(s, command) {
          failures := failures + [ToolError(command)];
        }
        if LeftRunning(s, command) {
          failures := failures + [ResultMissing(command)];
        }
      }
    }
    assert required[..|required|] == required;
    return Evidence(tests, failures, missing);
  }

  lemma UnrunHasNoNotes(s: Parsed, command: string)
    ensures Ran(s, command) <==> RanWell(s, command) || RanBadly(s, command) || LeftRunning(s, command)
  {
  }

  ghost predicate CalledWith(events: seq<Event>, command: string, reported: Option<bool>) {
    exists call :: call in BashCalls(events) && call.command == command && Reported(events, call.id) == reported
  }

  /**
   * The evidence in terms of the stream alone: a required command is missing exactly when it was never called;
   * otherwise it is noted as passed, failed or without result exactly when some call of it was reported so.
   */
  lemma EvidenceIsWhatWasReported(c: Config, events: seq<Event>, s: Parsed, required: seq<string>, e: Evidence, command: string)
    requires Monitored(c, events, s) && StatusesFit(events, s) && IsEvidence(e, s, required) && command in required
    ensures command in e.missing <==> forall call :: call in BashCalls(events) ==> call.command != command
    ensures ExitZero(command) in e.tests <==> CalledWith(events, command, Some(false))
    ensures ToolError(command) in e.failures <==> CalledWith(events, command, Some(true))
    ensures ResultMissing(command) in e.failures <==> CalledWith(events, command, None)
  {
    MonitoredParts(c, events, s);
    EvidenceHolds(e, s, required, command);
    RanMeansCalled(events, s, command);
    hide *;
  }

  lemma EvidenceHolds(e: Evidence, s: Parsed, required: seq<string>, command: string)
    requires IsEvidence(e, s, required) && command in required
    ensures command in e.missing <==> !Ran(s, command)
    ensures ExitZero(command) in e.tests <==> RanWell(s, command)
    ensures ToolError(command) in e.failures <==> RanBadly(s, command)
    ensures ResultMissing(command) in e.failures <==> LeftRunning(s, command)
  {
    hide Ran, RanWell, RanBadly, LeftRunning;
  }

  lemma RanMeansCalled(events: seq<Event>, s: Parsed, command: string)
    requires Records(s.invocations, BashCalls(events)) && StatusesFit(events, s)
    ensures Ran(s, command) <==> exists call :: call in BashCalls(events) && call.command == command
    ensures RanWell(s, command) <==> CalledWith(events, command, Some(false))
    ensures RanBadly(s, command) <==> CalledWith(events, command, Some(true))
    ensures LeftRunning(s, command) <==> CalledWith(events, command, None)
  {
    CallsAndInvocations(events, s, command, Some(false));
    CallsAndInvocations(events, s, command, Some(true));
    CallsAndInvocations(events, s, command, None);
    hide BashCalls, Reported, Records, CalledWith;
  }

  lemma CallsAndInvocations(events: seq<Event>, s: Parsed, command: string, reported: Option<bool>)
    requires Records(s.invocations, BashCalls(events)) && StatusesFit(events, s)
    ensures CalledWith(events, command, reported)
       <==> exists id :: id in s.invocations && s.invocations[id].command == command && StatusIs(s.invocations[id], reported)
    ensures (exists id :: id in s.invocations && s.invocations[id].command == command)
       <==> exists call :: call in BashCalls(events) && call.command == command
  {
    var calls := BashCalls(events);
    hide BashCalls, Reported;
    forall id | id in s.invocations
      ensures Call(id, s.invocations[id].command) in calls && StatusIs(s.invocations[id], Reported(events, id))
    {
      var i :| 0 <= i < |calls| && calls[i].id == id;
      assert calls[i] == Call(id, s.invocations[id].command);
    }
    forall call | call in calls ensures call.id in s.invocations && s.invocations[call.id].command == call.command {
      var i :| 0 <= i < |calls| && calls[i] == call;
    }
    if id :| id in s.invocations && s.invocations[id].command == command && StatusIs(s.invocations[id], reported) {
      StatusDetermines(s.invocations[id], reported, Reported(events, id));
      assert Call(id, command) in calls;
    }
  }

  lemma StatusDetermines(i: Invocation, r: Option<bool>, r': Option<bool>)
    requires StatusIs(i, r) && StatusIs(i, r')
    ensures r == r'
  {
    if r.Some? && r'.Some? {
      assert r.value == i.failed == r'.value;
    }
  }
}
