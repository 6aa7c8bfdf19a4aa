/** The whole trace as a function of the events received: what each event makes the gateway write. */
module ResponseAnswers {
  import opened Common
  import opened ResponseStream
  import opened ResponseTrace

  // ---------------------------------------------------------------------------------------------
  // What the events so far say of an item
  // ---------------------------------------------------------------------------------------------

  /** All a client can know of an item. */
  datatype Card = Card(output: int, id: ItemID, kind: ItemKind, text: string, closed: bool)

  /** The item an event is about, if any. */
  function Subject(e: Event): Option<Owner> {
    match e
    case MessageStart => Some(MessageOwner)
    case ContentDelta(_) => Some(MessageOwner)
    case ReasoningDelta(_) => Some(ReasoningOwner)
    case ToolDelta(delta) => if delta.Some? then Some(ToolOwner(delta.value.index)) else None
    case _ => None
  }

  /** How many items the events have opened. */
  function Count(events: seq<Event>): nat {
    if events == [] then 0
    else
      var rest, last := events[..|events| - 1], Subject(events[|events| - 1]);
      Count(rest) + if last.Some? && !Opened(rest, last.value) then 1 else 0
  }

  /** An item's output number: how many items were opened before it. */
  function Place(events: seq<Event>, owner: Owner): nat {
    if events == [] then 0
    else if Opened(events[..|events| - 1], owner) then Place(events[..|events| - 1], owner)
    else Count(events[..|events| - 1])
  }

  /** The identifier an event gives to an item it opens. */
  function FreshID(e: Event, owner: Owner): ItemID {
    match owner
    case MessageOwner => MessageID
    case ReasoningOwner => ReasoningID
    case ToolOwner(k) =>
      if e.ToolDelta? && e.delta.Some? && e.delta.value.id != "" then Given(e.delta.value.id) else ToolIndexID(k)
  }

  /** The identifier from the event that opened the item; later ones do not change it. */
  function FirstID(events: seq<Event>, owner: Owner): ItemID {
    if events == [] then FreshID(OtherEvent, owner)
    else if Opened(events[..|events| - 1], owner) then FirstID(events[..|events| - 1], owner)
    else FreshID(events[|events| - 1], owner)
  }

  function KindOf(events: seq<Event>, owner: Owner): ItemKind {
    match owner
    case MessageOwner => Message
    case ReasoningOwner => Reasoning
    case ToolOwner(k) => FunctionCall(LastCallID(events, k), LastName(events, k))
  }

  function CardOf(events: seq<Event>, owner: Owner): Option<Card> {
    if !Opened(events, owner) then None
    else Some(Card(Place(events, owner), FirstID(events, owner), KindOf(events, owner), TextOf(events, owner),
                   ClosedIn(events, owner)))
  }

  function ToolIndices(events: seq<Event>): set<int> {
    if events == [] then {}
    else
      var last := Subject(events[|events| - 1]);
      ToolIndices(events[..|events| - 1]) + if last.Some? && last.value.ToolOwner? then {last.value.index} else {}
  }

  /** The last usage reported, and the last reason to finish. */
  function LastUsage(events: seq<Event>): Option<int> {
    if events == [] then None
    else if events[|events| - 1].UsageReport? then events[|events| - 1].usage
    else LastUsage(events[..|events| - 1])
  }

  function LastFinish(events: seq<Event>): string {
    if events == [] then ""
    else if events[|events| - 1].Finish? then events[|events| - 1].reason
    else LastFinish(events[..|events| - 1])
  }

  // ---------------------------------------------------------------------------------------------
  // What each event makes the gateway write
  // ---------------------------------------------------------------------------------------------

  /** The announcement of an item that is not there yet; a message also opens its content part. */
  function Announces(card: Option<Card>, next: int, id: ItemID, kind: ItemKind): seq<Payload> {
    if card.Some? then []
    else [ItemAdded(next, id, kind)] + if kind.Message? then [PartAdded(next, id)] else []
  }

  /** The closing of an open item: its text, its part if it is the message, then the item itself. */
  function Closing(card: Option<Card>): seq<Payload> {
    if card.None? || card.value.closed then []
    else
      var Card(output, id, kind, text, _) := card.value;
      [TextDone(output, id, kind, text)] + (if kind.Message? then [PartDone(output, id, text)] else [])
        + [ItemDone(output, id, kind, text)]
  }

  function ToolClosings(events: seq<Event>, indices: seq<int>): seq<Payload> {
    if indices == [] then []
    else
      ToolClosings(events, indices[..|indices| - 1]) + Closing(CardOf(events, ToolOwner(indices[|indices| - 1])))
  }

  /** Reasoning first, then the message, then the tools by index. */
  function Closings(events: seq<Event>): seq<Payload> {
    Closing(CardOf(events, ReasoningOwner)) + Closing(CardOf(events, MessageOwner))
      + ToolClosings(events, Ascending(ToolIndices(events)))
  }

  function Calls(events: seq<Event>, indices: seq<int>): seq<ToolCall> {
    seq(|indices|, i requires 0 <= i < |indices| =>
      ToolCall(LastCallID(events, indices[i]), LastName(events, indices[i]), TextOf(events, ToolOwner(indices[i]))))
  }

  function FinalResponse(events: seq<Event>): Response {
    Response(if Opened(events, MessageOwner) then Some(TextOf(events, MessageOwner)) else None,
             if Opened(events, ReasoningOwner) then Some(TextOf(events, ReasoningOwner)) else None,
             Calls(events, Ascending(ToolIndices(events))), LastUsage(events), LastFinish(events))
  }

  /** The kind under which a delta is announced: a tool has the identity this very event gives it. */
  function FreshKind(e: Event): ItemKind {
    match e
    case ToolDelta(delta) =>
      if delta.Some? then FunctionCall(delta.value.id, delta.value.name) else FunctionCall("", "")
    case ReasoningDelta(_) => Reasoning
    case _ => Message
  }

  /** The delta that follows, with the item's number, its first identifier and the identity known by now. */
  function Streams(before: seq<Event>, e: Event, owner: Owner): seq<Payload> {
    var after := before + [e];
    [TextDelta(Place(after, owner), FirstID(after, owner), KindOf(after, owner), TextFor(e, owner))]
  }

  function Answer(before: seq<Event>, e: Event): seq<Payload> {
    var owner := Subject(e);
    if owner.Some? then
      Announces(CardOf(before, owner.value), Count(before), FreshID(e, owner.value), FreshKind(e))
        + if e.MessageStart? then [] else Streams(before, e, owner.value)
    else if e.Finish? then Closings(before)
    else if e.Done? then Closings(before) + [Completed(FinalResponse(before + [e]))]
    else []
  }

  function Answers(events: seq<Event>): seq<Payload> {
    if events == [] then [Created, InProgress]
    else Answers(events[..|events| - 1]) + Answer(events[..|events| - 1], events[|events| - 1])
  }

  // ---------------------------------------------------------------------------------------------
  // The state agrees with the history
  // ---------------------------------------------------------------------------------------------

  function CardAt(s: State, owner: Owner): Option<Card> {
    match owner
    case MessageOwner =>
      if s.message.started then Some(Card(s.message.output, MessageID, Message, s.message.text, s.message.closed))
      else None
    case ReasoningOwner =>
      if s.reasoning.started
      then Some(Card(s.reasoning.output, ReasoningID, Reasoning, s.reasoning.text, s.reasoning.closed)) else None
    case ToolOwner(k) =>
      if k in s.tools
      then var t := s.tools[k]; Some(Card(t.output, t.id, Kind(t), t.arguments, t.closed)) else None
  }

  /** Output number and identifier never change; only opening an item allocates a number. */
  lemma PlaceStep(s: State, e: Event, owner: Owner)
    requires Inv(s)
    ensures var before, after := CardAt(s, owner), CardAt(Consume(s, e), owner);
            && (before.Some? ==> after.Some? && after.value.output == before.value.output
                                 && after.value.id == before.value.id)
            && (before.None? && after.Some? ==>
                  Subject(e) == Some(owner)
                  && after.value.output == s.nextOutput && after.value.id == FreshID(e, owner))
    ensures Consume(s, e).nextOutput == s.nextOutput
              + if Subject(e).Some? && CardAt(s, Subject(e).value).None? then 1 else 0
  {
    hide Inv, Consume, CardAt, FreshID;
    if Closes(e) {
      ClosePlaces(s, e, owner);
    } else {
      OpenPlaces(s, e, owner);
    }
  }

  lemma OpenPlaces(s: State, e: Event, owner: Owner)
    requires !Closes(e)
    ensures var before, after := CardAt(s, owner), CardAt(Consume(s, e), owner);
            && (before.Some? ==> after.Some? && after.value.output == before.value.output
                                 && after.value.id == before.value.id)
            && (before.None? && after.Some? ==>
                  Subject(e) == Some(owner)
                  && after.value.output == s.nextOutput && after.value.id == FreshID(e, owner))
    ensures Consume(s, e).nextOutput == s.nextOutput
              + if Subject(e).Some? && CardAt(s, Subject(e).value).None? then 1 else 0
  {
    hide CloseOutput, CompletedResponse;
  }

  lemma ClosePlaces(s: State, e: Event, owner: Owner)
    requires Inv(s) && Closes(e)
    ensures var before, after := CardAt(s, owner), CardAt(Consume(s, e), owner);
            && (before.Some? <==> after.Some?)
            && (before.Some? ==> after.value.output == before.value.output && after.value.id == before.value.id)
    ensures Consume(s, e).nextOutput == s.nextOutput
  {
    hide Inv, CloseOutput, CompletedResponse;
    match e
    case Finish(reason) =>
      FinishKeeps(s, reason);
      CloseOutputKeeps(s.(finish := reason));
      CloseAllocatesNothing(s.(finish := reason));
    case Done =>
      CloseOutputKeeps(s);
      CloseAllocatesNothing(s);
  }

  lemma CloseAllocatesNothing(s: State)
    ensures CloseOutput(s).nextOutput == s.nextOutput
  {
    var closed := CloseMessage(CloseReasoning(s));
    CloseToolsAllocateNothing(closed, Ascending(closed.tools.Keys));
  }

  lemma {:induction false} CloseToolsAllocateNothing(s: State, indices: seq<int>)
    ensures CloseTools(s, indices).nextOutput == s.nextOutput
    decreases |indices|
  {
    if indices != [] {
      CloseToolsAllocateNothing(s, indices[..|indices| - 1]);
    }
  }

  lemma OpensSubject(e: Event, owner: Owner)
    ensures Opens(e, owner) <==> Subject(e) == Some(owner)
  {
  }

  lemma CardExists(events: seq<Event>, owner: Owner)
    ensures CardAt(Streamed(events), owner).Some? <==> Opened(events, owner)
  {
    hide Opened, Run, TextOf, ClosedIn;
    RunOwned(events, owner);
  }

  lemma {:induction false} RunPlaces(events: seq<Event>, owner: Owner)
    ensures Streamed(events).nextOutput == Count(events)
    ensures var card := CardAt(Streamed(events), owner);
            card.Some? ==> card.value.output == Place(events, owner) && card.value.id == FirstID(events, owner)
    decreases |events|
  {
    hide Inv, Consume, CardAt, Opened, FreshID;
    if events == [] {
      NoCards(owner);
    } else {
      var rest, last := events[..|events| - 1], events[|events| - 1];
      RunPlaces(rest, owner);
      CardExists(rest, owner);
      if Subject(last).Some? {
        CardExists(rest, Subject(last).value);
      }
      StartInv();
      RunKeepsInv(Start(INITIAL), rest);
      PlaceStep(Streamed(rest), last, owner);
    }
  }

  lemma NoCards(owner: Owner)
    ensures CardAt(Start(INITIAL), owner).None? && Start(INITIAL).nextOutput == 0
  {
  }

  /** Everything the state says of an item is what the events so far say. */
  lemma CardsAgree(events: seq<Event>, owner: Owner)
    ensures CardAt(Streamed(events), owner) == CardOf(events, owner)
  {
    hide Opened, Run, TextOf, ClosedIn, Place, FirstID, LastCallID, LastName;
    CardExists(events, owner);
    RunOwned(events, owner);
    RunPlaces(events, owner);
    if owner.ToolOwner? {
      RunIdentity(events, owner.index);
    }
  }

  lemma {:induction false} ToolIndicesExact(events: seq<Event>, k: int)
    ensures k in ToolIndices(events) <==> Opened(events, ToolOwner(k))
    decreases |events|
  {
    hide Opened;
    if events == [] {
      NothingOpened(ToolOwner(k));
    } else {
      ToolIndicesExact(events[..|events| - 1], k);
      OpenedStep(events, ToolOwner(k));
      OpensSubject(events[|events| - 1], ToolOwner(k));
    }
  }

  lemma ToolKeys(events: seq<Event>)
    ensures Streamed(events).tools.Keys == ToolIndices(events)
  {
    hide Opened, Run, ToolIndices;
    forall k ensures k in Streamed(events).tools <==> k in ToolIndices(events) {
      CardExists(events, ToolOwner(k));
      ToolIndicesExact(events, k);
    }
  }

  lemma MetadataStep(s: State, e: Event)
    requires Inv(s)
    ensures Consume(s, e).usage == if e.UsageReport? then e.usage else s.usage
    ensures Consume(s, e).finish == if e.Finish? then e.reason else s.finish
  {
    hide Inv, CloseOutput, CompletedResponse;
    if e.Finish? {
      FinishKeeps(s, e.reason);
      CloseOutputKeeps(s.(finish := e.reason));
    } else if e.Done? {
      CloseOutputKeeps(s);
    }
  }

  /** Usage and finish reason are the last ones received. */
  lemma {:induction false} RunMetadata(events: seq<Event>)
    ensures Streamed(events).usage == LastUsage(events) && Streamed(events).finish == LastFinish(events)
    decreases |events|
  {
    hide Inv, Consume;
    if events != [] {
      var rest := events[..|events| - 1];
      RunMetadata(rest);
      StartInv();
      RunKeepsInv(Start(INITIAL), rest);
      MetadataStep(Streamed(rest), events[|events| - 1]);
    }
  }

  lemma ResponseMetadata(s: State)
    ensures CompletedResponse(s).usage == s.usage && CompletedResponse(s).finish == s.finish
  {
  }

  /** The final response, field by field, from the events received. */
  lemma ResponseIsFinal(events: seq<Event>)
    ensures CompletedResponse(Streamed(events)) == FinalResponse(events)
  {
    hide Opened, Run, TextOf, ClosedIn, LastCallID, LastName, CompletedResponse, LastUsage, LastFinish, ToolIndices;
    var s := Streamed(events);
    RunOwned(events, MessageOwner);
    RunOwned(events, ReasoningOwner);
    ResponseFields(s);
    RunMetadata(events);
    ResponseMetadata(s);
    forall k ensures k in ToolIndices(events) <==> Opened(events, ToolOwner(k)) {
      ToolIndicesExact(events, k);
    }
    ResponseToolCalls(events, ToolIndices(events));
    assert CompletedResponse(s).tools == Calls(events, Ascending(ToolIndices(events)));
  }

  // ---------------------------------------------------------------------------------------------
  // The trace
  // ---------------------------------------------------------------------------------------------

  function Payloads(trace: seq<Emitted>): seq<Payload> {
    if trace == [] then [] else Payloads(trace[..|trace| - 1]) + [trace[|trace| - 1].payload]
  }

  lemma EmitWrites(s: State, p: Payload)
    ensures Payloads(Emit(s, p).trace) == Payloads(s.trace) + [p]
  {
    assert Emit(s, p).trace[..|s.trace|] == s.trace;
  }

  lemma EnsureMessageWrites(s: State)
    ensures Payloads(EnsureMessage(s).trace)
              == Payloads(s.trace) + Announces(CardAt(s, MessageOwner), s.nextOutput, MessageID, Message)
  {
    hide Payloads, Emit;
    if !s.message.started {
      var p, q := ItemAdded(s.nextOutput, MessageID, Message), PartAdded(s.nextOutput, MessageID);
      var begun := s.(message := Item(true, false, s.nextOutput, ""), nextOutput := s.nextOutput + 1);
      EmitWrites(begun, p);
      EmitWrites(Emit(begun, p), q);
    }
  }

  lemma EnsureReasoningWrites(s: State)
    ensures Payloads(EnsureReasoning(s).trace)
              == Payloads(s.trace) + Announces(CardAt(s, ReasoningOwner), s.nextOutput, ReasoningID, Reasoning)
  {
    hide Payloads, Emit;
    if !s.reasoning.started {
      var begun := s.(reasoning := Item(true, false, s.nextOutput, ""), nextOutput := s.nextOutput + 1);
      EmitWrites(begun, ItemAdded(s.nextOutput, ReasoningID, Reasoning));
    }
  }

  lemma EnsureToolWrites(s: State, d: ToolCallDelta)
    ensures var e, owner := ToolDelta(Some(d)), ToolOwner(d.index);
            Payloads(EnsureTool(s, d).trace)
              == Payloads(s.trace) + Announces(CardAt(s, owner), s.nextOutput, FreshID(e, owner), FreshKind(e))
  {
    hide Payloads, Emit;
    if d.index !in s.tools {
      var tool := Tool(false, FreshID(ToolDelta(Some(d)), ToolOwner(d.index)), d.id, d.name, "", s.nextOutput);
      var begun := s.(tools := s.tools[d.index := tool], nextOutput := s.nextOutput + 1);
      EmitWrites(begun, ItemAdded(s.nextOutput, tool.id, Kind(tool)));
    }
  }

  /** What an event about an item writes, in terms of the item before and after. */
  lemma SubjectWrites(s: State, e: Event)
    requires Subject(e).Some?
    ensures var owner, after := Subject(e).value, Consume(s, e);
            var card := CardAt(after, owner);
            && card.Some?
            && Payloads(after.trace) == Payloads(s.trace)
                 + (Announces(CardAt(s, owner), s.nextOutput, FreshID(e, owner), FreshKind(e))
                    + if e.MessageStart? then []
                      else [TextDelta(card.value.output, card.value.id, card.value.kind, TextFor(e, owner))])
  {
    hide Payloads, Announces;
    match e
    case MessageStart => EnsureMessageWrites(s);
    case ContentDelta(text) =>
      EnsureMessageWrites(s);
      var t := EnsureMessage(s);
      EmitWrites(t.(message := t.message.(text := t.message.text + text)),
                 TextDelta(t.message.output, MessageID, Message, text));
    case ReasoningDelta(text) =>
      EnsureReasoningWrites(s);
      var t := EnsureReasoning(s);
      EmitWrites(t.(reasoning := t.reasoning.(text := t.reasoning.text + text)),
                 TextDelta(t.reasoning.output, ReasoningID, Reasoning, text));
    case ToolDelta(delta) =>
      EnsureToolWrites(s, delta.value);
      ArgumentsWrite(EnsureTool(s, delta.value), delta.value);
  }

  lemma ArgumentsWrite(s: State, d: ToolCallDelta)
    requires d.index in s.tools
    ensures var after := AppendArguments(s, d);
            var tool := after.tools[d.index];
            Payloads(after.trace) == Payloads(s.trace) + [TextDelta(tool.output, tool.id, Kind(tool), d.arguments)]
  {
    hide Payloads;
    var after := AppendArguments(s, d);
    var tool := after.tools[d.index];
    EmitWrites(s.(tools := s.tools[d.index := tool]), TextDelta(tool.output, tool.id, Kind(tool), d.arguments));
  }

  lemma CloseItemsWrite(s: State)
    ensures var after := CloseMessage(CloseReasoning(s));
            && Payloads(after.trace)
                 == Payloads(s.trace) + (Closing(CardAt(s, ReasoningOwner)) + Closing(CardAt(s, MessageOwner)))
            && after.tools == s.tools
  {
    hide Payloads, Closing;
    CloseReasoningWrites(s);
    CloseMessageWrites(CloseReasoning(s));
  }

  lemma CloseReasoningWrites(s: State)
    ensures Payloads(CloseReasoning(s).trace) == Payloads(s.trace) + Closing(CardAt(s, ReasoningOwner))
    ensures CardAt(CloseReasoning(s), MessageOwner) == CardAt(s, MessageOwner)
  {
    hide Payloads;
    if s.reasoning.started && !s.reasoning.closed {
      var r := s.reasoning;
      var closed := s.(reasoning := r.(closed := true));
      var p := TextDone(r.output, ReasoningID, Reasoning, r.text);
      var q := ItemDone(r.output, ReasoningID, Reasoning, r.text);
      EmitWrites(closed, p);
      EmitWrites(Emit(closed, p), q);
    }
  }

  lemma CloseMessageWrites(s: State)
    ensures Payloads(CloseMessage(s).trace) == Payloads(s.trace) + Closing(CardAt(s, MessageOwner))
  {
    hide Payloads;
    if s.message.started && !s.message.closed {
      var m := s.message;
      var closed := s.(message := m.(closed := true));
      var p, q := TextDone(m.output, MessageID, Message, m.text), PartDone(m.output, MessageID, m.text);
      EmitWrites(closed, p);
      EmitWrites(Emit(closed, p), q);
      EmitWrites(Emit(Emit(closed, p), q), ItemDone(m.output, MessageID, Message, m.text));
    }
  }

  lemma CloseToolWrites(s: State, k: int)
    ensures Payloads(CloseTool(s, k).trace) == Payloads(s.trace) + Closing(CardAt(s, ToolOwner(k)))
    ensures forall i :: i != k ==> CardAt(CloseTool(s, k), ToolOwner(i)) == CardAt(s, ToolOwner(i))
  {
    hide Payloads;
    if k in s.tools && !s.tools[k].closed {
      var tool := s.tools[k];
      var closed := s.(tools := s.tools[k := tool.(closed := true)]);
      var p := TextDone(tool.output, tool.id, Kind(tool), tool.arguments);
      EmitWrites(closed, p);
      EmitWrites(Emit(closed, p), ItemDone(tool.output, tool.id, Kind(tool), tool.arguments));
    }
  }

  /** Closing distinct tools in turn writes what each of them had to close at the start. */
  lemma {:induction false} CloseToolsWrite(s: State, events: seq<Event>, indices: seq<int>)
    requires forall k :: k in indices ==> CardAt(s, ToolOwner(k)) == CardOf(events, ToolOwner(k))
    requires Distinct(indices)
    ensures Payloads(CloseTools(s, indices).trace) == Payloads(s.trace) + ToolClosings(events, indices)
    ensures forall k :: k !in indices ==> CardAt(CloseTools(s, indices), ToolOwner(k)) == CardAt(s, ToolOwner(k))
    decreases |indices|
  {
    hide Payloads, CloseTool, Closing, CardAt, CardOf;
    if indices != [] {
      var rest, last := indices[..|indices| - 1], indices[|indices| - 1];
      assert indices == rest + [last] && last !in rest;
      CloseToolsWrite(s, events, rest);
      CloseToolWrites(CloseTools(s, rest), last);
    }
  }

  lemma CloseOutputWrites(events: seq<Event>, s: State)
    requires s == Streamed(events).(finish := s.finish)
    ensures Payloads(CloseOutput(s).trace) == Payloads(s.trace) + Closings(events)
  {
    hide Payloads, Closing, CardOf, CardAt, CloseMessage, CloseReasoning, CloseTools, Run, ToolClosings, Ascending;
    CloseItemsWrite(s);
    var closed := CloseMessage(CloseReasoning(s));
    forall owner ensures CardAt(s, owner) == CardOf(events, owner) {
      CardsAgree(events, owner);
      CardIgnoresFinish(Streamed(events), owner, s.finish);
    }
    ToolKeys(events);
    var indices := Ascending(closed.tools.Keys);
    AscendingIsDistinct(closed.tools.Keys);
    forall k | k in indices ensures CardAt(closed, ToolOwner(k)) == CardOf(events, ToolOwner(k)) {
      CardIsInTools(closed, s, k);
    }
    CloseToolsWrite(closed, events, indices);
    InOrder(Payloads(s.trace), Closing(CardOf(events, ReasoningOwner)), Closing(CardOf(events, MessageOwner)),
            ToolClosings(events, indices));
  }

  lemma AscendingIsDistinct(s: set<int>)
    ensures Distinct(Ascending(s))
  {
  }

  lemma InOrder(a: seq<Payload>, b: seq<Payload>, c: seq<Payload>, d: seq<Payload>)
    ensures a + (b + c) + d == a + (b + c + d)
  {
  }

  lemma CardIgnoresFinish(s: State, owner: Owner, reason: string)
    ensures CardAt(s.(finish := reason), owner) == CardAt(s, owner)
  {
  }

  lemma CardIsInTools(s: State, s': State, k: int)
    requires s.tools == s'.tools
    ensures CardAt(s, ToolOwner(k)) == CardAt(s', ToolOwner(k))
  {
  }

  lemma StreamedStep(events: seq<Event>, e: Event)
    ensures Streamed(events + [e]) == Consume(Streamed(events), e)
  {
    assert (events + [e])[..|events|] == events;
  }

  lemma SubjectAnswers(events: seq<Event>, e: Event)
    requires Subject(e).Some?
    ensures Payloads(Streamed(events + [e]).trace) == Payloads(Streamed(events).trace) + Answer(events, e)
  {
    hide Payloads, Announces, Consume, CardAt, Streamed, Opened, TextOf, ClosedIn;
    var owner := Subject(e).value;
    SubjectWrites(Streamed(events), e);
    StreamedStep(events, e);
    CardsAgree(events, owner);
    CardsAgree(events + [e], owner);
    RunPlaces(events, owner);
  }

  lemma CloseAnswers(events: seq<Event>, e: Event)
    requires Closes(e)
    ensures Payloads(Streamed(events + [e]).trace) == Payloads(Streamed(events).trace) + Answer(events, e)
  {
    hide Payloads, CloseOutput, Closings, Run, CompletedResponse, FinalResponse, Inv;
    var s := Streamed(events);
    StreamedStep(events, e);
    match e
    case Finish(reason) => CloseOutputWrites(events, s.(finish := reason));
    case Done =>
      CloseOutputWrites(events, s);
      var closed := CloseOutput(s);
      EmitWrites(closed, Completed(CompletedResponse(closed)));
      StartInv();
      RunKeepsInv(Start(INITIAL), events);
      DoneEmitsResponse(s);
      ResponseIsFinal(events + [e]);
  }

  /**
   * For every sequence of events, what the gateway has written is exactly what the events call for: each item
   * announced once, with the next free number and its first identifier; each delta under that number with the identity
   * known by then; each closing text, part and item in order; and the final response with the last usage and finish
   * reason. Sequence numbers count from one.
   */
  lemma {:induction false} TraceIsDetermined(events: seq<Event>)
    ensures Payloads(Streamed(events).trace) == Answers(events) && Numbered(Streamed(events).trace)
    decreases |events|
  {
    hide Payloads, Consume, Answer, Inv;
    StartInv();
    RunKeepsInv(Start(INITIAL), events);
    InvNumbers(Streamed(events));
    if events == [] {
      StartWrites();
    } else {
      var rest, last := events[..|events| - 1], events[|events| - 1];
      TraceIsDetermined(rest);
      assert events == rest + [last];
      if Subject(last).Some? {
        SubjectAnswers(rest, last);
      } else if Closes(last) {
        CloseAnswers(rest, last);
      } else {
        QuietAnswer(Streamed(rest), rest, last);
      }
    }
  }

  lemma InvNumbers(s: State)
    requires Inv(s)
    ensures Numbered(s.trace)
  {
  }

  lemma StartWrites()
    ensures Payloads(Start(INITIAL).trace) == [Created, InProgress]
  {
    EmitWrites(INITIAL, Created);
    EmitWrites(Emit(INITIAL, Created), InProgress);
  }

  lemma QuietAnswer(s: State, events: seq<Event>, e: Event)
    requires Subject(e).None? && !Closes(e)
    ensures Payloads(Consume(s, e).trace) == Payloads(s.trace) + Answer(events, e)
  {
  }
}
