/** The emitted trace is well formed and agrees with the final response. */
module ResponseTrace {
  import opened Common
  import opened ResponseStream

  // ---------------------------------------------------------------------------------------------
  // Reading a trace
  // ---------------------------------------------------------------------------------------------

  /** All text streamed for one output. */
  function Deltas(trace: seq<Emitted>, output: int): string {
    if trace == [] then ""
    else
      var p := trace[|trace| - 1].payload;
      Deltas(trace[..|trace| - 1], output) + if p.TextDelta? && p.output == output then p.delta else ""
  }

  /** The outputs announced, in order. */
  function AddedOutputs(trace: seq<Emitted>): seq<int> {
    if trace == [] then []
    else
      var p := trace[|trace| - 1].payload;
      AddedOutputs(trace[..|trace| - 1]) + if p.ItemAdded? then [p.output] else []
  }

  function DoneCount(trace: seq<Emitted>, output: int): nat {
    if trace == [] then 0
    else
      var p := trace[|trace| - 1].payload;
      DoneCount(trace[..|trace| - 1], output) + if p.ItemDone? && p.output == output then 1 else 0
  }

  function FirstOutputs(n: int): seq<int> { seq(Max(0, n), i => i) }

  /** The output an event refers to once its item was announced. */
  function Refers(p: Payload): Option<int> {
    if p.PartAdded? || p.TextDelta? || p.TextDone? || p.PartDone? || p.ItemDone? then Some(p.output) else None
  }

  /** The complete text a closing event repeats. */
  function ClosingText(p: Payload): Option<string> {
    if p.TextDone? || p.PartDone? || p.ItemDone? then Some(p.text) else None
  }

  /** Sequence numbers count the events from one. */
  ghost predicate Numbered(trace: seq<Emitted>) {
    forall i :: 0 <= i < |trace| ==> trace[i].sequence == i + 1
  }

  /** Every reference to an output comes after its announcement. */
  ghost predicate Announced(trace: seq<Emitted>) {
    forall j :: 0 <= j < |trace| && Refers(trace[j].payload).Some? ==>
      Refers(trace[j].payload).value in AddedOutputs(trace[..j])
  }

  /** A closing event repeats exactly the text streamed before it. */
  ghost predicate ClosingTextsMatch(trace: seq<Emitted>) {
    forall j :: 0 <= j < |trace| && ClosingText(trace[j].payload).Some? ==>
      ClosingText(trace[j].payload).value == Deltas(trace[..j], trace[j].payload.output)
  }

  /** The part of the invariant that speaks of the trace alone. */
  ghost predicate TraceOK(trace: seq<Emitted>, sequence: int, nextOutput: int) {
    && Numbered(trace) && sequence == |trace| && nextOutput >= 0
    && AddedOutputs(trace) == FirstOutputs(nextOutput)
    && Announced(trace) && ClosingTextsMatch(trace)
  }

  lemma Prefix(trace: seq<Emitted>, e: Emitted, j: nat)
    requires j <= |trace|
    ensures (trace + [e])[..j] == trace[..j]
  {
  }

  lemma ProjectionsAppend(trace: seq<Emitted>, e: Emitted, output: int)
    ensures var p := e.payload;
            && Deltas(trace + [e], output) == Deltas(trace, output)
                 + (if p.TextDelta? && p.output == output then p.delta else "")
            && DoneCount(trace + [e], output)
                 == DoneCount(trace, output) + (if p.ItemDone? && p.output == output then 1 else 0)
            && AddedOutputs(trace + [e]) == AddedOutputs(trace) + if p.ItemAdded? then [p.output] else []
  {
    Prefix(trace, e, |trace|);
  }

  lemma AnnouncedAppend(trace: seq<Emitted>, e: Emitted)
    requires Announced(trace) && (Refers(e.payload).Some? ==> Refers(e.payload).value in AddedOutputs(trace))
    ensures Announced(trace + [e])
  {
    hide AddedOutputs;
    forall j | 0 <= j < |trace + [e]| ensures (trace + [e])[..j] == trace[..j] {
      Prefix(trace, e, j);
    }
    assert trace[..|trace|] == trace;
  }

  lemma ClosingAppend(trace: seq<Emitted>, e: Emitted)
    requires ClosingTextsMatch(trace)
    requires ClosingText(e.payload).Some? ==> ClosingText(e.payload).value == Deltas(trace, e.payload.output)
    ensures ClosingTextsMatch(trace + [e])
  {
    hide Deltas;
    forall j | 0 <= j < |trace + [e]| ensures (trace + [e])[..j] == trace[..j] {
      Prefix(trace, e, j);
    }
    assert trace[..|trace|] == trace;
  }

  /** One more event keeps the trace well formed. */
  lemma TraceAppend(trace: seq<Emitted>, sequence: int, next: int, next': int, p: Payload)
    requires TraceOK(trace, sequence, next)
    requires if p.ItemAdded? then p.output == next && next' == next + 1 else next' == next
    requires Refers(p).Some? ==> 0 <= Refers(p).value < next
    requires ClosingText(p).Some? ==> ClosingText(p).value == Deltas(trace, p.output)
    ensures TraceOK(trace + [Emitted(sequence + 1, p)], sequence + 1, next')
  {
    hide Deltas, AddedOutputs, Announced, ClosingTextsMatch;
    var e := Emitted(sequence + 1, p);
    ProjectionsAppend(trace, e, 0);
    if Refers(p).Some? {
      var o := Refers(p).value;
      assert FirstOutputs(next)[o] == o;
    }
    AnnouncedAppend(trace, e);
    ClosingAppend(trace, e);
    assert FirstOutputs(next + 1) == FirstOutputs(next) + [next];
  }

  // ---------------------------------------------------------------------------------------------
  // Items
  // ---------------------------------------------------------------------------------------------

  datatype Owner = MessageOwner | ReasoningOwner | ToolOwner(index: int)

  datatype Record = Record(output: int, text: string, closed: bool)

  function RecordOf(item: Item): Option<Record> {
    if item.started then Some(Record(item.output, item.text, item.closed)) else None
  }

  function Owned(s: State, owner: Owner): Option<Record> {
    match owner
    case MessageOwner => RecordOf(s.message)
    case ReasoningOwner => RecordOf(s.reasoning)
    case ToolOwner(k) =>
      if k in s.tools then Some(Record(s.tools[k].output, s.tools[k].arguments, s.tools[k].closed)) else None
  }

  /** An item's text is what was streamed for it, and it is done exactly when it is closed. */
  ghost predicate RecordOK(trace: seq<Emitted>, next: int, r: Record) {
    0 <= r.output < next && r.text == Deltas(trace, r.output) && DoneCount(trace, r.output) == if r.closed then 1 else 0
  }

  ghost predicate Untouched(trace: seq<Emitted>, next: int) {
    forall o :: o >= next ==> Deltas(trace, o) == "" && DoneCount(trace, o) == 0
  }

  ghost predicate HasOwner(s: State, output: int) {
    exists owner :: Owned(s, owner).Some? && Owned(s, owner).value.output == output
  }

  /** Items and outputs correspond one to one. */
  ghost predicate ItemsOK(s: State) {
    && s.nextOutput >= 0
    && (forall owner :: Owned(s, owner).Some? ==> RecordOK(s.trace, s.nextOutput, Owned(s, owner).value))
    && (forall a, b ::
          Owned(s, a).Some? && Owned(s, b).Some? && Owned(s, a).value.output == Owned(s, b).value.output ==> a == b)
    && (forall o :: 0 <= o < s.nextOutput ==> HasOwner(s, o))
    && Untouched(s.trace, s.nextOutput)
  }

  ghost predicate Inv(s: State) {
    TraceOK(s.trace, s.sequence, s.nextOutput) && ItemsOK(s)
  }

  /** Only the item of `owner` differs. */
  ghost predicate OthersKept(s: State, s': State, owner: Owner) {
    forall other :: other != owner ==> Owned(s', other) == Owned(s, other)
  }

  lemma SameOwners(s: State, s': State)
    requires forall owner :: Owned(s', owner) == Owned(s, owner)
    ensures forall o :: HasOwner(s', o) <==> HasOwner(s, o)
  {
    hide Owned;
    forall o ensures HasOwner(s', o) <==> HasOwner(s, o) {
      if x :| Owned(s, x).Some? && Owned(s, x).value.output == o {
        assert Owned(s', x).Some?;
      }
      if x :| Owned(s', x).Some? && Owned(s', x).value.output == o {
        assert Owned(s, x).Some?;
      }
    }
  }

  lemma NeutralEmit(s: State, p: Payload)
    requires Inv(s) && !p.ItemAdded? && !p.TextDelta? && !p.ItemDone?
    requires Refers(p).Some? ==> 0 <= Refers(p).value < s.nextOutput
    requires ClosingText(p).Some? ==> ClosingText(p).value == Deltas(s.trace, p.output)
    ensures Inv(Emit(s, p))
    ensures forall owner :: Owned(Emit(s, p), owner) == Owned(s, owner)
  {
    hide TraceOK, Deltas, DoneCount;
    var after := Emit(s, p);
    TraceAppend(s.trace, s.sequence, s.nextOutput, s.nextOutput, p);
    forall o
      ensures Deltas(after.trace, o) == Deltas(s.trace, o) && DoneCount(after.trace, o) == DoneCount(s.trace, o)
    {
      ProjectionsAppend(s.trace, Emitted(s.sequence + 1, p), o);
      assert Deltas(s.trace, o) + "" == Deltas(s.trace, o);
    }
    forall owner ensures Owned(after, owner) == Owned(s, owner) {
    }
    SameOwners(s, after);
  }

  /** Announcing a new item. */
  lemma AddItem(s: State, s': State, owner: Owner, p: Payload)
    requires Inv(s) && Owned(s, owner).None? && OthersKept(s, s', owner)
    requires p.ItemAdded? && p.output == s.nextOutput && s'.nextOutput == s.nextOutput + 1
    requires s'.sequence == s.sequence + 1 && s'.trace == s.trace + [Emitted(s.sequence + 1, p)]
    requires Owned(s', owner) == Some(Record(s.nextOutput, "", false))
    ensures Inv(s')
  {
    hide TraceOK, Deltas, DoneCount, Owned;
    TraceAppend(s.trace, s.sequence, s.nextOutput, s'.nextOutput, p);
    forall o ensures Deltas(s'.trace, o) == Deltas(s.trace, o) && DoneCount(s'.trace, o) == DoneCount(s.trace, o) {
      ProjectionsAppend(s.trace, Emitted(s.sequence + 1, p), o);
      assert Deltas(s.trace, o) + "" == Deltas(s.trace, o);
    }
    forall o | 0 <= o < s'.nextOutput ensures HasOwner(s', o) {
      if o == s.nextOutput {
        assert Owned(s', owner).Some?;
      } else {
        assert HasOwner(s, o);
        var x :| Owned(s, x).Some? && Owned(s, x).value.output == o;
        assert Owned(s', x).Some?;
      }
    }
  }

  /** Streaming more text for an item. */
  lemma ExtendItem(s: State, s': State, owner: Owner, p: Payload)
    requires Inv(s) && Owned(s, owner).Some? && OthersKept(s, s', owner)
    requires p.TextDelta? && p.output == Owned(s, owner).value.output && s'.nextOutput == s.nextOutput
    requires s'.sequence == s.sequence + 1 && s'.trace == s.trace + [Emitted(s.sequence + 1, p)]
    requires var r := Owned(s, owner).value; Owned(s', owner) == Some(Record(r.output, r.text + p.delta, r.closed))
    ensures Inv(s')
  {
    hide TraceOK, Deltas, DoneCount, Owned;
    TraceAppend(s.trace, s.sequence, s.nextOutput, s.nextOutput, p);
    forall o ensures DoneCount(s'.trace, o) == DoneCount(s.trace, o)
      ensures Deltas(s'.trace, o) == if o == p.output then Deltas(s.trace, o) + p.delta else Deltas(s.trace, o)
    {
      ProjectionsAppend(s.trace, Emitted(s.sequence + 1, p), o);
      assert Deltas(s.trace, o) + "" == Deltas(s.trace, o);
    }
    SameOutputs(s, s', owner);
  }

  /** Closing an item with its final event. */
  lemma FinishItem(s: State, s': State, owner: Owner, p: Payload)
    requires Inv(s) && Owned(s, owner).Some? && !Owned(s, owner).value.closed && OthersKept(s, s', owner)
    requires p.ItemDone? && p.output == Owned(s, owner).value.output && p.text == Owned(s, owner).value.text
    requires s'.sequence == s.sequence + 1 && s'.trace == s.trace + [Emitted(s.sequence + 1, p)]
             && s'.nextOutput == s.nextOutput
    requires var r := Owned(s, owner).value; Owned(s', owner) == Some(Record(r.output, r.text, true))
    ensures Inv(s')
  {
    hide TraceOK, Deltas, DoneCount, Owned;
    TraceAppend(s.trace, s.sequence, s.nextOutput, s.nextOutput, p);
    forall o ensures Deltas(s'.trace, o) == Deltas(s.trace, o)
      ensures DoneCount(s'.trace, o) == if o == p.output then DoneCount(s.trace, o) + 1 else DoneCount(s.trace, o)
    {
      ProjectionsAppend(s.trace, Emitted(s.sequence + 1, p), o);
      assert Deltas(s.trace, o) + "" == Deltas(s.trace, o);
    }
    SameOutputs(s, s', owner);
  }

  /** Changing an item's text or status moves no output. */
  lemma SameOutputs(s: State, s': State, owner: Owner)
    requires ItemsOK(s) && OthersKept(s, s', owner) && s'.nextOutput == s.nextOutput
    requires Owned(s, owner).Some? && Owned(s', owner).Some?
             && Owned(s, owner).value.output == Owned(s', owner).value.output
    ensures forall o :: 0 <= o < s'.nextOutput ==> HasOwner(s', o)
    ensures forall a, b ::
              Owned(s', a).Some? && Owned(s', b).Some? && Owned(s', a).value.output == Owned(s', b).value.output ==>
                a == b
    ensures forall x :: Owned(s', x).Some? <==> Owned(s, x).Some?
    ensures forall x :: Owned(s', x).Some? ==> Owned(s', x).value.output == Owned(s, x).value.output
  {
    hide Owned, RecordOK, Untouched;
    forall x ensures Owned(s', x).Some? <==> Owned(s, x).Some?
      ensures Owned(s', x).Some? ==> Owned(s', x).value.output == Owned(s, x).value.output
    {
    }
    forall o | 0 <= o < s'.nextOutput ensures HasOwner(s', o) {
      assert HasOwner(s, o);
      var x :| Owned(s, x).Some? && Owned(s, x).value.output == o;
      assert Owned(s', x).Some?;
    }
  }

  // ---------------------------------------------------------------------------------------------
  // Operations
  // ---------------------------------------------------------------------------------------------

  lemma StartInv()
    ensures Inv(Start(INITIAL))
  {
    hide Refers, ClosingText;
    assert Inv(INITIAL) by {
      assert FirstOutputs(0) == [];
    }
    PlainPayloads();
    NeutralEmit(INITIAL, Created);
    NeutralEmit(Emit(INITIAL, Created), InProgress);
  }

  lemma PlainPayloads()
    ensures Refers(Created).None? && ClosingText(Created).None? && Refers(InProgress).None?
            && ClosingText(InProgress).None?
    ensures forall r :: Refers(Completed(r)).None? && ClosingText(Completed(r)).None?
  {
  }

  lemma RecordInRange(s: State, owner: Owner)
    requires ItemsOK(s) && Owned(s, owner).Some?
    ensures RecordOK(s.trace, s.nextOutput, Owned(s, owner).value)
  {
  }

  lemma EnsureMessageKeeps(s: State)
    requires Inv(s)
    ensures Inv(EnsureMessage(s)) && EnsureMessage(s).message.started
  {
    hide TraceOK, ItemsOK, Deltas, DoneCount;
    if !s.message.started {
      var p := ItemAdded(s.nextOutput, MessageID, Message);
      var added := Emit(s.(message := Item(true, false, s.nextOutput, ""), nextOutput := s.nextOutput + 1), p);
      AddItem(s, added, MessageOwner, p);
      RecordInRange(added, MessageOwner);
      NeutralEmit(added, PartAdded(s.nextOutput, MessageID));
    }
  }

  lemma EnsureReasoningKeeps(s: State)
    requires Inv(s)
    ensures Inv(EnsureReasoning(s)) && EnsureReasoning(s).reasoning.started
  {
    hide TraceOK, ItemsOK, Deltas, DoneCount;
    if !s.reasoning.started {
      AddItem(s, EnsureReasoning(s), ReasoningOwner, ItemAdded(s.nextOutput, ReasoningID, Reasoning));
    }
  }

  lemma EnsureToolKeeps(s: State, d: ToolCallDelta)
    requires Inv(s)
    ensures Inv(EnsureTool(s, d)) && d.index in EnsureTool(s, d).tools
  {
    hide TraceOK, ItemsOK, Deltas, DoneCount;
    if d.index !in s.tools {
      var after := EnsureTool(s, d);
      var tool := after.tools[d.index];
      AddItem(s, after, ToolOwner(d.index), ItemAdded(s.nextOutput, tool.id, Kind(tool)));
    }
  }

  lemma AppendContentKeeps(s: State, delta: string)
    requires Inv(s) && s.message.started
    ensures Inv(AppendContent(s, delta))
  {
    hide TraceOK, ItemsOK, Deltas, DoneCount;
    ExtendItem(s, AppendContent(s, delta), MessageOwner, TextDelta(s.message.output, MessageID, Message, delta));
  }

  lemma AppendReasoningKeeps(s: State, delta: string)
    requires Inv(s) && s.reasoning.started
    ensures Inv(AppendReasoning(s, delta))
  {
    hide TraceOK, ItemsOK, Deltas, DoneCount;
    ExtendItem(s, AppendReasoning(s, delta), ReasoningOwner,
               TextDelta(s.reasoning.output, ReasoningID, Reasoning, delta));
  }

  lemma AppendArgumentsKeeps(s: State, d: ToolCallDelta)
    requires Inv(s) && d.index in s.tools
    ensures Inv(AppendArguments(s, d))
  {
    hide TraceOK, ItemsOK, Deltas, DoneCount;
    var after := AppendArguments(s, d);
    var tool := after.tools[d.index];
    ExtendItem(s, after, ToolOwner(d.index), TextDelta(tool.output, tool.id, Kind(tool), d.arguments));
  }

  lemma CloseReasoningKeeps(s: State)
    requires Inv(s)
    ensures Inv(CloseReasoning(s))
  {
    hide TraceOK, ItemsOK, Deltas, DoneCount;
    if s.reasoning.started && !s.reasoning.closed {
      var r := s.reasoning;
      RecordInRange(s, ReasoningOwner);
      var text := Emit(s, TextDone(r.output, ReasoningID, Reasoning, r.text));
      NeutralEmit(s, TextDone(r.output, ReasoningID, Reasoning, r.text));
      FinishItem(text, CloseReasoning(s), ReasoningOwner, ItemDone(r.output, ReasoningID, Reasoning, r.text));
    }
  }

  lemma CloseMessageKeeps(s: State)
    requires Inv(s)
    ensures Inv(CloseMessage(s))
  {
    hide TraceOK, ItemsOK, Deltas, DoneCount;
    if s.message.started && !s.message.closed {
      var m := s.message;
      RecordInRange(s, MessageOwner);
      var text := Emit(s, TextDone(m.output, MessageID, Message, m.text));
      NeutralEmit(s, TextDone(m.output, MessageID, Message, m.text));
      RecordInRange(text, MessageOwner);
      var part := Emit(text, PartDone(m.output, MessageID, m.text));
      NeutralEmit(text, PartDone(m.output, MessageID, m.text));
      FinishItem(part, CloseMessage(s), MessageOwner, ItemDone(m.output, MessageID, Message, m.text));
    }
  }

  lemma CloseToolKeeps(s: State, k: int)
    requires Inv(s)
    ensures Inv(CloseTool(s, k))
  {
    hide TraceOK, ItemsOK, Deltas, DoneCount;
    if k in s.tools && !s.tools[k].closed {
      var tool := s.tools[k];
      RecordInRange(s, ToolOwner(k));
      var p := TextDone(tool.output, tool.id, Kind(tool), tool.arguments);
      NeutralEmit(s, p);
      FinishItem(Emit(s, p), CloseTool(s, k), ToolOwner(k), ItemDone(tool.output, tool.id, Kind(tool), tool.arguments));
    }
  }

  /** Closing touches neither texts nor identities, and closes the tools it is given. */
  lemma {:induction false} CloseToolsKeeps(s: State, indices: seq<int>)
    requires Inv(s)
    ensures var after := CloseTools(s, indices);
            && Inv(after) && after.message == s.message && after.reasoning == s.reasoning
            && after.tools.Keys == s.tools.Keys
            && after.usage == s.usage && after.finish == s.finish
            && (forall k :: k in s.tools ==> after.tools[k].(closed := s.tools[k].closed) == s.tools[k])
            && (forall k :: k in s.tools && (k in indices || s.tools[k].closed) ==> after.tools[k].closed)
    decreases |indices|
  {
    hide Inv, Emit;
    if indices != [] {
      var rest, last := indices[..|indices| - 1], indices[|indices| - 1];
      CloseToolsKeeps(s, rest);
      assert indices == rest + [last];
      CloseToolKeeps(CloseTools(s, rest), last);
      CloseToolEffect(CloseTools(s, rest), last);
    }
  }

  lemma CloseToolEffect(s: State, k: int)
    ensures var after := CloseTool(s, k);
            && after.message == s.message && after.reasoning == s.reasoning && after.usage == s.usage
            && after.finish == s.finish
            && after.tools.Keys == s.tools.Keys
            && (forall i :: i in s.tools ==>
                  after.tools[i] == if i == k then s.tools[i].(closed := true) else s.tools[i])
  {
  }

  lemma CloseItemsEffect(s: State)
    ensures var after := CloseMessage(CloseReasoning(s));
            && after.message == s.message.(closed := s.message.started || s.message.closed)
            && after.reasoning == s.reasoning.(closed := s.reasoning.started || s.reasoning.closed)
            && after.tools == s.tools && after.usage == s.usage && after.finish == s.finish
  {
  }

  ghost predicate AllClosed(s: State) {
    forall owner :: Owned(s, owner).Some? ==> Owned(s, owner).value.closed
  }

  /** Closing everything: the texts stay, every item is closed. */
  lemma CloseOutputKeeps(s: State)
    requires Inv(s)
    ensures var after := CloseOutput(s);
            && Inv(after) && AllClosed(after)
            && after.message.(closed := s.message.closed) == s.message
            && after.reasoning.(closed := s.reasoning.closed) == s.reasoning
            && after.tools.Keys == s.tools.Keys && after.usage == s.usage && after.finish == s.finish
            && (forall k :: k in s.tools ==> after.tools[k].(closed := s.tools[k].closed) == s.tools[k])
  {
    hide Inv, CloseMessage, CloseReasoning, CloseTools;
    CloseReasoningKeeps(s);
    CloseMessageKeeps(CloseReasoning(s));
    CloseItemsEffect(s);
    var closed := CloseMessage(CloseReasoning(s));
    CloseToolsKeeps(closed, Ascending(closed.tools.Keys));
    var after := CloseOutput(s);
    forall owner | Owned(after, owner).Some? ensures Owned(after, owner).value.closed {
    }
  }

  lemma FinishKeeps(s: State, reason: string)
    requires Inv(s)
    ensures Inv(s.(finish := reason))
  {
    ItemsIgnoreMetadata(s, s.(finish := reason));
  }

  lemma ItemsIgnoreMetadata(s: State, s': State)
    requires Inv(s) && s' == s.(finish := s'.finish, usage := s'.usage)
    ensures Inv(s')
  {
    hide TraceOK, RecordOK, Untouched;
    assert forall owner :: Owned(s', owner) == Owned(s, owner);
    SameOwners(s, s');
  }

  /** Every event keeps the trace well formed and in agreement with the items. */
  lemma ConsumeKeepsInv(s: State, e: Event)
    requires Inv(s)
    ensures Inv(Consume(s, e))
  {
    hide Inv, CloseOutput, AppendContent, AppendReasoning, AppendArguments, EnsureMessage, EnsureReasoning, EnsureTool;
    match e
    case MessageStart => EnsureMessageKeeps(s);
    case ContentDelta(text) =>
      EnsureMessageKeeps(s);
      AppendContentKeeps(EnsureMessage(s), text);
    case ReasoningDelta(text) =>
      EnsureReasoningKeeps(s);
      AppendReasoningKeeps(EnsureReasoning(s), text);
    case ToolDelta(delta) =>
      if delta.Some? {
        EnsureToolKeeps(s, delta.value);
        AppendArgumentsKeeps(EnsureTool(s, delta.value), delta.value);
      }
    case Finish(reason) =>
      FinishKeeps(s, reason);
      CloseOutputKeeps(s.(finish := reason));
    case UsageReport(usage) => ItemsIgnoreMetadata(s, s.(usage := usage));
    case Done =>
      CloseOutputKeeps(s);
      CompletedKeeps(CloseOutput(s));
    case OtherEvent =>
  }

  lemma CompletedKeeps(s: State)
    requires Inv(s)
    ensures Inv(Emit(s, Completed(CompletedResponse(s))))
    ensures forall owner :: Owned(Emit(s, Completed(CompletedResponse(s))), owner) == Owned(s, owner)
  {
    hide Inv, Refers, ClosingText, CompletedResponse;
    PlainPayloads();
    NeutralEmit(s, Completed(CompletedResponse(s)));
  }

  function Run(s: State, events: seq<Event>): State
  {
    if events == [] then s else Consume(Run(s, events[..|events| - 1]), events[|events| - 1])
  }

  lemma {:induction false} RunKeepsInv(s: State, events: seq<Event>)
    requires Inv(s)
    ensures Inv(Run(s, events))
    decreases |events|
  {
    hide Inv, Consume;
    if events != [] {
      RunKeepsInv(s, events[..|events| - 1]);
      ConsumeKeepsInv(Run(s, events[..|events| - 1]), events[|events| - 1]);
    }
  }

  // ---------------------------------------------------------------------------------------------
  // The input's text and the final response
  // ---------------------------------------------------------------------------------------------

  /** The text an event streams for one item. */
  function TextFor(e: Event, owner: Owner): string {
    match owner
    case MessageOwner => if e.ContentDelta? then e.text else ""
    case ReasoningOwner => if e.ReasoningDelta? then e.text else ""
    case ToolOwner(k) =>
      if e.ToolDelta? && e.delta.Some? && e.delta.value.index == k then e.delta.value.arguments else ""
  }

  /** Whether an event brings an item into being if it is not there yet. */
  predicate Opens(e: Event, owner: Owner) {
    match owner
    case MessageOwner => e.MessageStart? || e.ContentDelta?
    case ReasoningOwner => e.ReasoningDelta?
    case ToolOwner(k) => e.ToolDelta? && e.delta.Some? && e.delta.value.index == k
  }

  predicate Closes(e: Event) { e.Finish? || e.Done? }

  function TextOf(events: seq<Event>, owner: Owner): string {
    if events == [] then "" else TextOf(events[..|events| - 1], owner) + TextFor(events[|events| - 1], owner)
  }

  predicate Opened(events: seq<Event>, owner: Owner) {
    exists i :: 0 <= i < |events| && Opens(events[i], owner)
  }

  /** Some closing event came after the item was opened. */
  predicate ClosedIn(events: seq<Event>, owner: Owner) {
    exists i :: 0 <= i < |events| && Closes(events[i]) && Opened(events[..i], owner)
  }

  lemma CloseStep(s: State, e: Event, owner: Owner)
    requires Inv(s) && Closes(e)
    ensures var before, after := Owned(s, owner), Owned(Consume(s, e), owner);
            after == if before.None? then None else Some(before.value.(closed := true))
  {
    hide Inv, CloseOutput, CompletedResponse;
    match e
    case Finish(reason) =>
      FinishKeeps(s, reason);
      CloseOutputKeeps(s.(finish := reason));
      assert Owned(s.(finish := reason), owner) == Owned(s, owner);
    case Done =>
      CloseOutputKeeps(s);
      CompletedKeeps(CloseOutput(s));
  }

  lemma StreamStep(s: State, e: Event, owner: Owner)
    requires !Closes(e)
    ensures var before, after := Owned(s, owner), Owned(Consume(s, e), owner);
            && (after.Some? <==> before.Some? || Opens(e, owner))
            && (before.Some? ==> after.value == before.value.(text := before.value.text + TextFor(e, owner)))
            && (before.None? && after.Some? ==> after.value.text == TextFor(e, owner) && !after.value.closed)
  {
    assert forall t: string :: t + "" == t && "" + t == t;
  }

  /** One event opens, extends or closes an item by what it says for that item, and leaves all others alone. */
  lemma OwnedStep(s: State, e: Event, owner: Owner)
    requires Inv(s)
    ensures var before, after := Owned(s, owner), Owned(Consume(s, e), owner);
            && (after.Some? <==> before.Some? || Opens(e, owner))
            && (before.Some? ==>
                  after.value == Record(before.value.output, before.value.text + TextFor(e, owner),
                                        before.value.closed || Closes(e)))
            && (before.None? && after.Some? ==> after.value.text == TextFor(e, owner) && !after.value.closed)
  {
    hide Inv, Consume, Owned;
    if Closes(e) {
      CloseStep(s, e, owner);
      if Owned(s, owner).Some? {
        assert Owned(s, owner).value.text + "" == Owned(s, owner).value.text;
      }
    } else {
      StreamStep(s, e, owner);
    }
  }

  /** The whole run of one response. */
  function Streamed(events: seq<Event>): State { Run(Start(INITIAL), events) }

  lemma OpenedStep(events: seq<Event>, owner: Owner)
    requires events != []
    ensures var rest, last := events[..|events| - 1], events[|events| - 1];
            && (Opened(events, owner) <==> Opened(rest, owner) || Opens(last, owner))
            && (ClosedIn(events, owner) <==> ClosedIn(rest, owner) || (Closes(last) && Opened(rest, owner)))
            && (ClosedIn(rest, owner) ==> Opened(rest, owner))
  {
    hide Opens, Closes;
    var rest, last := events[..|events| - 1], events[|events| - 1];
    forall i | 0 <= i < |rest| ensures rest[i] == events[i] && rest[..i] == events[..i] {
    }
    if i :| 0 <= i < |rest| && Opens(rest[i], owner) {
      assert Opens(events[i], owner);
    }
    if i :| 0 <= i < |events| && Opens(events[i], owner) {
      assert i < |rest| ==> Opens(rest[i], owner);
    }
    if i :| 0 <= i < |rest| && Closes(rest[i]) && Opened(rest[..i], owner) {
      assert Closes(events[i]) && Opened(events[..i], owner);
      var h :| 0 <= h < i && Opens(rest[..i][h], owner);
      assert Opens(rest[h], owner);
    }
    if i :| 0 <= i < |events| && Closes(events[i]) && Opened(events[..i], owner) {
      assert i < |rest| ==> Closes(rest[i]) && Opened(rest[..i], owner);
    }
  }

  /** An item exists, has its text, and is closed exactly as the events so far say. */
  lemma {:induction false} RunOwned(events: seq<Event>, owner: Owner)
    ensures var r := Owned(Streamed(events), owner);
            && (r.Some? <==> Opened(events, owner))
            && (r.Some? ==> r.value.text == TextOf(events, owner) && (r.value.closed <==> ClosedIn(events, owner)))
            && (r.None? ==> TextOf(events, owner) == "")
    decreases |events|
  {
    hide Inv, Consume, Opens, Closes, Opened, ClosedIn, TextFor;
    if events == [] {
      NothingOpened(owner);
    } else {
      var rest, last := events[..|events| - 1], events[|events| - 1];
      RunOwned(rest, owner);
      StartInv();
      RunKeepsInv(Start(INITIAL), rest);
      OwnedStep(Streamed(rest), last, owner);
      OpenedStep(events, owner);
      SilentUnlessOpening(last, owner);
    }
  }

  lemma NothingOpened(owner: Owner)
    ensures !Opened([], owner) && Owned(Start(INITIAL), owner).None?
  {
  }

  lemma SilentUnlessOpening(e: Event, owner: Owner)
    ensures !Opens(e, owner) ==> TextFor(e, owner) == ""
    ensures "" + TextFor(e, owner) == TextFor(e, owner)
    ensures Closes(e) ==> !Opens(e, owner)
  {
  }

  // ---------------------------------------------------------------------------------------------
  // Identity of tool calls
  // ---------------------------------------------------------------------------------------------

  /** The last non-empty call identifier the events give for a tool. */
  function LastCallID(events: seq<Event>, k: int): string {
    if events == [] then ""
    else
      var e := events[|events| - 1];
      if Opens(e, ToolOwner(k)) && e.delta.value.id != "" then e.delta.value.id
      else LastCallID(events[..|events| - 1], k)
  }

  function LastName(events: seq<Event>, k: int): string {
    if events == [] then ""
    else
      var e := events[|events| - 1];
      if Opens(e, ToolOwner(k)) && e.delta.value.name != "" then e.delta.value.name
      else LastName(events[..|events| - 1], k)
  }

  function CallIDAt(s: State, k: int): string { if k in s.tools then s.tools[k].callID else "" }

  function NameAt(s: State, k: int): string { if k in s.tools then s.tools[k].name else "" }

  lemma CloseKeepsIdentity(s: State, e: Event, k: int)
    requires Inv(s) && Closes(e)
    ensures CallIDAt(Consume(s, e), k) == CallIDAt(s, k) && NameAt(Consume(s, e), k) == NameAt(s, k)
  {
    hide Inv, CloseOutput, CompletedResponse;
    match e
    case Finish(reason) =>
      FinishKeeps(s, reason);
      CloseOutputKeeps(s.(finish := reason));
    case Done => CloseOutputKeeps(s);
  }

  lemma StreamSetsIdentity(s: State, e: Event, k: int)
    requires !Closes(e)
    ensures var mine := Opens(e, ToolOwner(k));
            && CallIDAt(Consume(s, e), k) == (if mine && e.delta.value.id != "" then e.delta.value.id
                                              else CallIDAt(s, k))
            && NameAt(Consume(s, e), k) == (if mine && e.delta.value.name != "" then e.delta.value.name
                                            else NameAt(s, k))
  {
  }

  lemma {:induction false} RunIdentity(events: seq<Event>, k: int)
    ensures CallIDAt(Streamed(events), k) == LastCallID(events, k)
    ensures NameAt(Streamed(events), k) == LastName(events, k)
    decreases |events|
  {
    hide Inv, Consume, CallIDAt, NameAt;
    if events == [] {
      NoTools(k);
    } else {
      var rest, last := events[..|events| - 1], events[|events| - 1];
      RunIdentity(rest, k);
      StartInv();
      RunKeepsInv(Start(INITIAL), rest);
      if Closes(last) {
        CloseKeepsIdentity(Streamed(rest), last, k);
      } else {
        StreamSetsIdentity(Streamed(rest), last, k);
      }
    }
  }

  lemma NoTools(k: int)
    ensures CallIDAt(Start(INITIAL), k) == "" && NameAt(Start(INITIAL), k) == ""
  {
  }

  lemma DoneEmitsResponse(s: State)
    requires Inv(s)
    ensures var after := Consume(s, Done);
            && AllClosed(after) && after.trace != []
            && after.trace[|after.trace| - 1].payload == Completed(CompletedResponse(after))
  {
    hide Inv, CloseOutput;
    CloseOutputKeeps(s);
    var closed := CloseOutput(s);
    CompletedKeeps(closed);
    ResponseIgnoresTrace(closed, Emit(closed, Completed(CompletedResponse(closed))));
    var after := Consume(s, Done);
    forall owner | Owned(after, owner).Some? ensures Owned(after, owner).value.closed {
      assert Owned(after, owner) == Owned(closed, owner);
    }
  }

  lemma ResponseIgnoresTrace(s: State, s': State)
    requires s' == s.(sequence := s'.sequence, trace := s'.trace)
    ensures CompletedResponse(s') == CompletedResponse(s)
  {
    ToolCallsIgnoreTrace(s, s', Ascending(s.tools.Keys));
  }

  lemma {:induction false} ToolCallsIgnoreTrace(s: State, s': State, indices: seq<int>)
    requires s'.tools == s.tools && forall i :: 0 <= i < |indices| ==> indices[i] in s.tools
    ensures ToolCalls(s', indices) == ToolCalls(s, indices)
    decreases |indices|
  {
    if indices != [] {
      ToolCallsIgnoreTrace(s, s', indices[..|indices| - 1]);
    }
  }

  lemma {:induction false} ToolCallsAt(s: State, indices: seq<int>, i: nat)
    requires (forall j :: 0 <= j < |indices| ==> indices[j] in s.tools) && i < |indices|
    ensures |ToolCalls(s, indices)| == |indices|
    ensures var tool := s.tools[indices[i]];
            ToolCalls(s, indices)[i] == ToolCall(tool.callID, tool.name, tool.arguments)
    decreases |indices|
  {
    if i < |indices| - 1 {
      ToolCallsAt(s, indices[..|indices| - 1], i);
    } else if i > 0 {
      ToolCallsAt(s, indices[..|indices| - 1], 0);
    }
  }

  /**
   * The trace of every event sequence that ends in Done: numbered 1..k, outputs announced densely in order and
   * before any reference to them, and every announced output done exactly once.
   */
  lemma WellFormedTrace(events: seq<Event>)
    requires events != [] && events[|events| - 1] == Done
    ensures var s := Streamed(events);
            && Numbered(s.trace) && AddedOutputs(s.trace) == FirstOutputs(s.nextOutput)
            && Announced(s.trace) && ClosingTextsMatch(s.trace)
            && forall o :: 0 <= o < s.nextOutput ==> DoneCount(s.trace, o) == 1
  {
    hide Consume, Deltas, DoneCount, AddedOutputs, Announced, ClosingTextsMatch, Numbered;
    StartInv();
    var before := Run(Start(INITIAL), events[..|events| - 1]);
    RunKeepsInv(Start(INITIAL), events[..|events| - 1]);
    RunKeepsInv(Start(INITIAL), events);
    DoneEmitsResponse(before);
    var s := Streamed(events);
    forall o | 0 <= o < s.nextOutput ensures DoneCount(s.trace, o) == 1 {
      assert HasOwner(s, o);
      var owner :| Owned(s, owner).Some? && Owned(s, owner).value.output == o;
      RecordInRange(s, owner);
    }
  }

  /**
   * The last event carries the final response. Message and reasoning are present exactly when the input opened
   * them, and their text is the concatenation of the input's deltas, which is also that of the deltas in the trace.
   */
  lemma ResponseAgreesWithTrace(events: seq<Event>)
    requires events != [] && events[|events| - 1] == Done
    ensures var s := Streamed(events);
            && s.trace != [] && s.trace[|s.trace| - 1].payload == Completed(CompletedResponse(s))
            && CompletedResponse(s).text ==
                 (if Opened(events, MessageOwner) then Some(TextOf(events, MessageOwner)) else None)
            && CompletedResponse(s).reasoning ==
                 (if Opened(events, ReasoningOwner) then Some(TextOf(events, ReasoningOwner)) else None)
            && (forall owner :: Owned(s, owner).Some? ==>
                  Owned(s, owner).value.text == TextOf(events, owner) == Deltas(s.trace, Owned(s, owner).value.output))
  {
    hide Consume, Deltas, DoneCount, TraceOK, CompletedResponse, Opened, TextOf;
    StartInv();
    var before := Streamed(events[..|events| - 1]);
    RunKeepsInv(Start(INITIAL), events[..|events| - 1]);
    RunKeepsInv(Start(INITIAL), events);
    DoneEmitsResponse(before);
    var s := Streamed(events);
    ResponseFields(s);
    RunOwned(events, MessageOwner);
    RunOwned(events, ReasoningOwner);
    forall owner | Owned(s, owner).Some?
      ensures Owned(s, owner).value.text == TextOf(events, owner) == Deltas(s.trace, Owned(s, owner).value.output)
    {
      RunOwned(events, owner);
      RecordInRange(s, owner);
    }
  }

  lemma ResponseFields(s: State)
    ensures CompletedResponse(s).text == if s.message.started then Some(s.message.text) else None
    ensures CompletedResponse(s).reasoning == if s.reasoning.started then Some(s.reasoning.text) else None
  {
  }

  /**
   * The final response lists one call per tool index the input names, in ascending order, each with the last
   * non-empty identifier and name given for it and the concatenation of its argument fragments.
   */
  lemma ResponseToolCalls(events: seq<Event>, indices: set<int>)
    requires forall k :: k in indices <==> Opened(events, ToolOwner(k))
    ensures var calls, order := CompletedResponse(Streamed(events)).tools, Ascending(indices);
            && |calls| == |order|
            && forall i :: 0 <= i < |order| ==>
                 calls[i] == ToolCall(LastCallID(events, order[i]), LastName(events, order[i]),
                                      TextOf(events, ToolOwner(order[i])))
  {
    hide Opened, TextOf, LastCallID, LastName, Run;
    var s := Streamed(events);
    forall k ensures k in s.tools <==> k in indices {
      RunOwned(events, ToolOwner(k));
    }
    assert s.tools.Keys == indices;
    var order := Ascending(indices);
    if order == [] {
      assert ToolCalls(s, order) == [];
    } else {
      ToolCallsAt(s, order, 0);
    }
    forall i | 0 <= i < |order|
      ensures CompletedResponse(s).tools[i]
                == ToolCall(LastCallID(events, order[i]), LastName(events, order[i]),
                            TextOf(events, ToolOwner(order[i])))
    {
      assert order[i] in order;
      ToolCallsAt(s, order, i);
      RunOwned(events, ToolOwner(order[i]));
      RunIdentity(events, order[i]);
    }
  }
}
