/** The Responses stream: canonical events in, a numbered event trace and a final response out. */
module ResponseStream {
  import opened Common

  datatype ToolCallDelta = ToolCallDelta(index: int, id: string, name: string, arguments: string)

  datatype Event =
    | MessageStart
    | ContentDelta(text: string)
    | ReasoningDelta(text: string)
    | ToolDelta(delta: Option<ToolCallDelta>)
    | Finish(reason: string)
    | UsageReport(usage: Option<int>)
    | Done
    | OtherEvent

  /** Identifiers are derived from the response, from a tool index, or given by the provider. */
  datatype ItemID = MessageID | ReasoningID | ToolIndexID(index: int) | Given(id: string)

  datatype ItemKind = Message | Reasoning | FunctionCall(callID: string, name: string)

  datatype ToolCall = ToolCall(callID: string, name: string, arguments: string)

  datatype Response = Response(
    text: Option<string>,
    reasoning: Option<string>,
    tools: seq<ToolCall>,
    usage: Option<int>,
    finish: string)

  /** What is written to the client; the kind tells apart the text, reasoning and argument variants. */
  datatype Payload =
    | Created
    | InProgress
    | ItemAdded(output: int, id: ItemID, kind: ItemKind)
    | PartAdded(output: int, id: ItemID)
    | TextDelta(output: int, id: ItemID, kind: ItemKind, delta: string)
    | TextDone(output: int, id: ItemID, kind: ItemKind, text: string)
    | PartDone(output: int, id: ItemID, text: string)
    | ItemDone(output: int, id: ItemID, kind: ItemKind, text: string)
    | Completed(response: Response)

  datatype Emitted = Emitted(sequence: int, payload: Payload)

  /** The message or the reasoning item. */
  datatype Item = Item(started: bool, closed: bool, output: int, text: string)

  datatype Tool = Tool(closed: bool, id: ItemID, callID: string, name: string, arguments: string, output: int)

  datatype State = State(
    sequence: int,
    nextOutput: int,
    message: Item,
    reasoning: Item,
    tools: map<int, Tool>,
    usage: Option<int>,
    finish: string,
    trace: seq<Emitted>)

  const BLANK := Item(false, false, 0, "")
  const INITIAL := State(0, 0, BLANK, BLANK, map[], None, "", [])

  // ---------------------------------------------------------------------------------------------
  // Specification
  // ---------------------------------------------------------------------------------------------

  function Emit(s: State, p: Payload): State {
    s.(sequence := s.sequence + 1, trace := s.trace + [Emitted(s.sequence + 1, p)])
  }

  function Start(s: State): State {
    Emit(Emit(s, Created), InProgress)
  }

  function EnsureMessage(s: State): State {
    if s.message.started then s
    else
      var added := Emit(s.(message := Item(true, false, s.nextOutput, ""), nextOutput := s.nextOutput + 1),
                        ItemAdded(s.nextOutput, MessageID, Message));
      Emit(added, PartAdded(s.nextOutput, MessageID))
  }

  function EnsureReasoning(s: State): State {
    if s.reasoning.started then s
    else Emit(s.(reasoning := Item(true, false, s.nextOutput, ""), nextOutput := s.nextOutput + 1),
              ItemAdded(s.nextOutput, ReasoningID, Reasoning))
  }

  function AppendContent(s: State, delta: string): State {
    Emit(s.(message := s.message.(text := s.message.text + delta)),
         TextDelta(s.message.output, MessageID, Message, delta))
  }

  function AppendReasoning(s: State, delta: string): State {
    Emit(s.(reasoning := s.reasoning.(text := s.reasoning.text + delta)),
         TextDelta(s.reasoning.output, ReasoningID, Reasoning, delta))
  }

  function Kind(tool: Tool): ItemKind { FunctionCall(tool.callID, tool.name) }

  function EnsureTool(s: State, d: ToolCallDelta): (t: State)
    ensures d.index in t.tools
  {
    if d.index in s.tools then s
    else
      var tool := Tool(false, if d.id == "" then ToolIndexID(d.index) else Given(d.id), d.id, d.name, "", s.nextOutput);
      Emit(s.(tools := s.tools[d.index := tool], nextOutput := s.nextOutput + 1),
           ItemAdded(s.nextOutput, tool.id, Kind(tool)))
  }

  function AppendArguments(s: State, d: ToolCallDelta): State
    requires d.index in s.tools
  {
    var tool := s.tools[d.index];
    var after := Tool(tool.closed, tool.id, if d.id != "" then d.id else tool.callID,
                      if d.name != "" then d.name else tool.name, tool.arguments + d.arguments, tool.output);
    Emit(s.(tools := s.tools[d.index := after]), TextDelta(after.output, after.id, Kind(after), d.arguments))
  }

  function CloseReasoning(s: State): State {
    if !s.reasoning.started || s.reasoning.closed then s
    else
      var r := s.reasoning;
      Emit(Emit(s.(reasoning := r.(closed := true)), TextDone(r.output, ReasoningID, Reasoning, r.text)),
           ItemDone(r.output, ReasoningID, Reasoning, r.text))
  }

  function CloseMessage(s: State): State {
    if !s.message.started || s.message.closed then s
    else
      var m := s.message;
      var text := Emit(s.(message := m.(closed := true)), TextDone(m.output, MessageID, Message, m.text));
      Emit(Emit(text, PartDone(m.output, MessageID, m.text)), ItemDone(m.output, MessageID, Message, m.text))
  }

  function CloseTool(s: State, index: int): State {
    if index !in s.tools || s.tools[index].closed then s
    else
      var tool := s.tools[index];
      Emit(Emit(s.(tools := s.tools[index := tool.(closed := true)]),
                TextDone(tool.output, tool.id, Kind(tool), tool.arguments)),
           ItemDone(tool.output, tool.id, Kind(tool), tool.arguments))
  }

  function CloseTools(s: State, indices: seq<int>): State {
    if indices == [] then s else CloseTool(CloseTools(s, indices[..|indices| - 1]), indices[|indices| - 1])
  }

  predicate Least(s: set<int>, x: int) { x in s && forall y :: y in s ==> x <= y }

  lemma Member<T>(s: set<T>) returns (x: T)
    requires s != {}
    ensures x in s
  {
    x :| x in s;
  }

  lemma {:induction false} LeastExists(s: set<int>)
    requires s != {}
    ensures exists x :: Least(s, x)
    decreases |s|
  {
    var z := Member(s);
    var rest := s - {z};
    if rest == {} {
      assert s == {z};
      assert Least(s, z);
    } else {
      LeastExists(rest);
      var x :| Least(rest, x);
      assert forall y :: y in s ==> y == z || y in rest;
      assert Least(s, Min(x, z));
    }
  }

  /** The members of a set in ascending order. */
  function Ascending(s: set<int>): (r: seq<int>)
    ensures forall x :: x in r <==> x in s
    ensures forall i, j :: 0 <= i < j < |r| ==> r[i] < r[j]
  {
    if s == {} then []
    else
      LeastExists(s);
      var x :| Least(s, x);
      [x] + Ascending(s - {x})
  }

  function CloseOutput(s: State): State {
    var closed := CloseMessage(CloseReasoning(s));
    CloseTools(closed, Ascending(closed.tools.Keys))
  }

  function ToolCalls(s: State, indices: seq<int>): seq<ToolCall>
    requires forall i :: 0 <= i < |indices| ==> indices[i] in s.tools
  {
    if indices == [] then []
    else
      var tool := s.tools[indices[|indices| - 1]];
      ToolCalls(s, indices[..|indices| - 1]) + [ToolCall(tool.callID, tool.name, tool.arguments)]
  }

  function CompletedResponse(s: State): Response {
    Response(if s.message.started then Some(s.message.text) else None,
             if s.reasoning.started then Some(s.reasoning.text) else None,
             ToolCalls(s, Ascending(s.tools.Keys)), s.usage, s.finish)
  }

  function Consume(s: State, e: Event): State {
    match e
    case MessageStart => EnsureMessage(s)
    case ContentDelta(text) => AppendContent(EnsureMessage(s), text)
    case ReasoningDelta(text) => AppendReasoning(EnsureReasoning(s), text)
    case ToolDelta(delta) => if delta.None? then s else AppendArguments(EnsureTool(s, delta.value), delta.value)
    case Finish(reason) => CloseOutput(s.(finish := reason))
    case UsageReport(usage) => s.(usage := usage)
    case Done => (var closed := CloseOutput(s); Emit(closed, Completed(CompletedResponse(closed))))
    case OtherEvent => s
  }

  // ---------------------------------------------------------------------------------------------
  // The stream object
  // ---------------------------------------------------------------------------------------------

  class Stream {
    var sequence: int
    var nextOutput: int
    var message: Item
    var reasoning: Item
    var tools: map<int, Tool>
    var usage: Option<int>
    var finish: string
    var written: seq<Emitted>

    function View(): State
      reads this
    {
      State(sequence, nextOutput, message, reasoning, tools, usage, finish, written)
    }

    constructor ()
      ensures View() == INITIAL
    {
      sequence, nextOutput, message, reasoning := 0, 0, BLANK, BLANK;
      tools, usage, finish, written := map[], None, "", [];
    }

    method EmitEvent(p: Payload)
      modifies this`sequence, this`written
      ensures View() == Emit(old(View()), p)
    {
      sequence := sequence + 1;
      written := written + [Emitted(sequence, p)];
    }

    method AllocateOutput() returns (index: int)
      modifies this`nextOutput
      ensures index == old(nextOutput) && nextOutput == old(nextOutput) + 1
    {
      index := nextOutput;
      nextOutput := nextOutput + 1;
    }

    method StartStream()
      modifies this
      ensures View() == Start(old(View()))
    {
      EmitEvent(Created);
      EmitEvent(InProgress);
    }

    method EnsureMessageItem()
      modifies this
      ensures View() == EnsureMessage(old(View()))
    {
      if message.started {
        return;
      }
      var output := AllocateOutput();
      message := Item(true, false, output, "");
      EmitEvent(ItemAdded(message.output, MessageID, Message));
      EmitEvent(PartAdded(message.output, MessageID));
    }

    method EnsureReasoningItem()
      modifies this
      ensures View() == EnsureReasoning(old(View()))
    {
      if reasoning.started {
        return;
      }
      var output := AllocateOutput();
      reasoning := Item(true, false, output, "");
      EmitEvent(ItemAdded(reasoning.output, ReasoningID, Reasoning));
    }

    method ConsumeToolDelta(delta: Option<ToolCallDelta>)
      modifies this
      ensures View() == Consume(old(View()), ToolDelta(delta))
    {
      if delta.None? {
        return;
      }
      var d := delta.value;
      if d.index !in tools {
        var output := AllocateOutput();
        var id := if d.id == "" then ToolIndexID(d.index) else Given(d.id);
        tools := tools[d.index := Tool(false, id, d.id, d.name, "", output)];
        EmitEvent(ItemAdded(output, id, FunctionCall(d.id, d.name)));
      }
      var tool := tools[d.index];
      var callID, name := tool.callID, tool.name;
      if d.id != "" {
        callID := d.id;
      }
      if d.name != "" {
        name := d.name;
      }
      tool := Tool(tool.closed, tool.id, callID, name, tool.arguments + d.arguments, tool.output);
      tools := tools[d.index := tool];
      EmitEvent(TextDelta(tool.output, tool.id, Kind(tool), d.arguments));
    }

    method CloseReasoningItem()
      modifies this
      ensures View() == CloseReasoning(old(View()))
    {
      if !reasoning.started || reasoning.closed {
        return;
      }
      reasoning := reasoning.(closed := true);
      EmitEvent(TextDone(reasoning.output, ReasoningID, Reasoning, reasoning.text));
      EmitEvent(ItemDone(reasoning.output, ReasoningID, Reasoning, reasoning.text));
    }

    method CloseMessageItem()
      modifies this
      ensures View() == CloseMessage(old(View()))
    {
      if !message.started || message.closed {
        return;
      }
      message := message.(closed := true);
      EmitEvent(TextDone(message.output, MessageID, Message, message.text));
      EmitEvent(PartDone(message.output, MessageID, message.text));
      EmitEvent(ItemDone(message.output, MessageID, Message, message.text));
    }

    method CloseToolItem(index: int)
      requires index in tools
      modifies this
      ensures View() == CloseTool(old(View()), index)
    {
      var tool := tools[index];
      if tool.closed {
        return;
      }
      tools := tools[index := tool.(closed := true)];
      EmitEvent(TextDone(tool.output, tool.id, Kind(tool), tool.arguments));
      EmitEvent(ItemDone(tool.output, tool.id, Kind(tool), tool.arguments));
    }

    method CloseToolItems()
      modifies this
      ensures View() == CloseTools(old(View()), Ascending(old(tools.Keys)))
    {
      var indices := Ascending(tools.Keys);
      CloseEach(indices);
    }

    method CloseEach(indices: seq<int>)
      requires forall i :: 0 <= i < |indices| ==> indices[i] in tools
      modifies this
      ensures View() == CloseTools(old(View()), indices)
    {
      hide CloseTool;
      for i := 0 to |indices|
        invariant View() == CloseTools(old(View()), indices[..i]) && tools.Keys == old(tools.Keys)
      {
        assert indices[..i + 1][..i] == indices[..i];
        CloseToolKeepsKeys(View(), indices[i]);
        CloseToolItem(indices[i]);
      }
      assert indices[..|indices|] == indices;
    }

    method CloseAll()
      modifies this
      ensures View() == CloseOutput(old(View()))
    {
      CloseReasoningItem();
      CloseMessageItem();
      CloseToolItems();
    }

    /** The final object, its tool calls in ascending order of index. */
    method BuildResponse() returns (r: Response)
      ensures r == CompletedResponse(View())
    {
      var indices := Ascending(tools.Keys);
      var calls := [];
      for i := 0 to |indices|
        invariant forall k :: 0 <= k < |indices[..i]| ==> indices[..i][k] in tools
        invariant calls == ToolCalls(View(), indices[..i])
      {
        assert indices[i] in indices;
        assert indices[..i + 1][..i] == indices[..i];
        var tool := tools[indices[i]];
        calls := calls + [ToolCall(tool.callID, tool.name, tool.arguments)];
      }
      assert indices[..|indices|] == indices;
      r := Response(if message.started then Some(message.text) else None,
                    if reasoning.started then Some(reasoning.text) else None, calls, usage, finish);
    }

    method ConsumeEvent(e: Event)
      modifies this
      ensures View() == Consume(old(View()), e)
    {
      match e {
        case MessageStart => EnsureMessageItem();
        case ContentDelta(text) =>
          EnsureMessageItem();
          message := message.(text := message.text + text);
          EmitEvent(TextDelta(message.output, MessageID, Message, text));
        case ReasoningDelta(text) =>
          EnsureReasoningItem();
          reasoning := reasoning.(text := reasoning.text + text);
          EmitEvent(TextDelta(reasoning.output, ReasoningID, Reasoning, text));
        case ToolDelta(delta) => ConsumeToolDelta(delta);
        case Finish(reason) =>
          finish := reason;
          CloseAll();
        case UsageReport(report) => usage := report;
        case Done =>
          CloseAll();
          var response := BuildResponse();
          EmitEvent(Completed(response));
        case OtherEvent =>
      }
    }
  }

  lemma CloseToolKeepsKeys(s: State, index: int)
    ensures CloseTool(s, index).tools.Keys == s.tools.Keys
  {
  }
}
