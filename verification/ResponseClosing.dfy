/** Closing events repeat an item's text; exactly when that text is already the final one. */
module ResponseClosing {
  import opened Common
  import opened ResponseStream
  import opened ResponseTrace

  // ---------------------------------------------------------------------------------------------
  // What one event adds to the trace
  // ---------------------------------------------------------------------------------------------

  predicate Streams(e: Event) { e.ContentDelta? || e.ReasoningDelta? || (e.ToolDelta? && e.delta.Some?) }

  ghost predicate NoClosing(trace: seq<Emitted>) {
    forall j :: 0 <= j < |trace| ==> ClosingText(trace[j].payload).None?
  }

  ghost predicate NoDelta(trace: seq<Emitted>) {
    forall j :: 0 <= j < |trace| ==> !trace[j].payload.TextDelta?
  }

  /** What an event adds to the trace: no closing text unless it closes, no delta unless it streams. */
  ghost predicate Adds(s: State, s': State, closing: bool, streaming: bool) {
    && s.trace <= s'.trace
    && (!closing ==> NoClosing(s'.trace[|s.trace|..]))
    && (!streaming ==> NoDelta(s'.trace[|s.trace|..]))
  }

  lemma AddsCompose(a: State, b: State, c: State, closing: bool, streaming: bool)
    requires Adds(a, b, closing, streaming) && Adds(b, c, closing, streaming)
    ensures Adds(a, c, closing, streaming)
  {
    assert c.trace[|a.trace|..] == b.trace[|a.trace|..] + c.trace[|b.trace|..];
  }

  lemma EmitAdds(s: State, s': State, p: Payload, closing: bool, streaming: bool)
    requires s'.trace == s.trace + [Emitted(s.sequence + 1, p)]
    requires (ClosingText(p).Some? ==> closing) && (p.TextDelta? ==> streaming)
    ensures Adds(s, s', closing, streaming)
  {
    assert s'.trace[|s.trace|..] == [Emitted(s.sequence + 1, p)];
  }

  lemma SameTraceAdds(s: State, s': State, closing: bool, streaming: bool)
    requires s'.trace == s.trace
    ensures Adds(s, s', closing, streaming)
  {
  }

  lemma CloseItemsAdd(s: State)
    ensures Adds(s, CloseMessage(CloseReasoning(s)), true, false)
  {
    hide Adds;
    CloseReasoningAdds(s);
    CloseMessageAdds(CloseReasoning(s));
    AddsCompose(s, CloseReasoning(s), CloseMessage(CloseReasoning(s)), true, false);
  }

  lemma CloseReasoningAdds(s: State)
    ensures Adds(s, CloseReasoning(s), true, false)
  {
  }

  lemma CloseMessageAdds(s: State)
    ensures Adds(s, CloseMessage(s), true, false)
  {
  }

  lemma CloseToolAdds(s: State, k: int)
    ensures Adds(s, CloseTool(s, k), true, false)
  {
  }

  lemma {:induction false} CloseToolsAdd(s: State, indices: seq<int>)
    ensures Adds(s, CloseTools(s, indices), true, false)
    decreases |indices|
  {
    hide Adds, CloseTool;
    if indices == [] {
      SameTraceAdds(s, s, true, false);
    } else {
      var rest := CloseTools(s, indices[..|indices| - 1]);
      CloseToolsAdd(s, indices[..|indices| - 1]);
      CloseToolAdds(rest, indices[|indices| - 1]);
      AddsCompose(s, rest, CloseTools(s, indices), true, false);
    }
  }

  lemma CloseOutputAdds(s: State)
    ensures Adds(s, CloseOutput(s), true, false)
  {
    hide Adds, CloseMessage, CloseReasoning, CloseTools;
    CloseItemsAdd(s);
    var closed := CloseMessage(CloseReasoning(s));
    CloseToolsAdd(closed, Ascending(closed.tools.Keys));
    AddsCompose(s, closed, CloseOutput(s), true, false);
  }

  lemma EnsuresAdd(s: State)
    ensures Adds(s, EnsureMessage(s), false, false) && Adds(s, EnsureReasoning(s), false, false)
  {
    if !s.message.started {
      assert EnsureMessage(s).trace[|s.trace|..]
          == [Emitted(s.sequence + 1, ItemAdded(s.nextOutput, MessageID, Message)),
              Emitted(s.sequence + 2, PartAdded(s.nextOutput, MessageID))];
    }
  }

  lemma EnsureToolAdds(s: State, d: ToolCallDelta)
    ensures Adds(s, EnsureTool(s, d), false, false)
  {
  }

  lemma Weaken(s: State, s': State)
    requires Adds(s, s', false, false)
    ensures Adds(s, s', false, true)
  {
  }

  lemma StreamingAdds(s: State, e: Event)
    requires !Closes(e)
    ensures Adds(s, Consume(s, e), false, Streams(e))
  {
    hide Adds, EnsureMessage, EnsureReasoning, EnsureTool;
    EnsuresAdd(s);
    match e
    case ContentDelta(text) =>
      var open := EnsureMessage(s);
      Weaken(s, open);
      EmitAdds(open, Consume(s, e), TextDelta(open.message.output, MessageID, Message, text), false, true);
      AddsCompose(s, open, Consume(s, e), false, true);
    case ReasoningDelta(text) =>
      var open := EnsureReasoning(s);
      Weaken(s, open);
      EmitAdds(open, Consume(s, e), TextDelta(open.reasoning.output, ReasoningID, Reasoning, text), false, true);
      AddsCompose(s, open, Consume(s, e), false, true);
    case ToolDelta(Some(d)) =>
      var open := EnsureTool(s, d);
      EnsureToolAdds(s, d);
      Weaken(s, open);
      var tool := Consume(s, e).tools[d.index];
      EmitAdds(open, Consume(s, e), TextDelta(tool.output, tool.id, Kind(tool), d.arguments), false, true);
      AddsCompose(s, open, Consume(s, e), false, true);
    case MessageStart =>
    case _ => SameTraceAdds(s, Consume(s, e), false, false);
  }

  lemma ConsumeAdds(s: State, e: Event)
    ensures Adds(s, Consume(s, e), Closes(e), Streams(e))
  {
    hide Adds, CloseOutput, CompletedResponse;
    match e
    case Finish(reason) =>
      CloseOutputAdds(s.(finish := reason));
      SameTraceAdds(s, s.(finish := reason), true, false);
      AddsCompose(s, s.(finish := reason), Consume(s, e), true, false);
    case Done =>
      CloseOutputAdds(s);
      EmitAdds(CloseOutput(s), Consume(s, e), Completed(CompletedResponse(CloseOutput(s))), true, false);
      AddsCompose(s, CloseOutput(s), Consume(s, e), true, false);
    case _ => StreamingAdds(s, e);
  }

  // ---------------------------------------------------------------------------------------------
  // Final closing texts
  // ---------------------------------------------------------------------------------------------

  lemma {:induction false} DeltasSplit(trace: seq<Emitted>, j: nat, output: int)
    requires j <= |trace|
    ensures Deltas(trace, output) == Deltas(trace[..j], output) + Deltas(trace[j..], output)
    decreases |trace| - j
  {
    hide Deltas;
    if j == |trace| {
      assert trace[..j] == trace && trace[j..] == [];
      NoDeltaNoText([], output);
      assert Deltas(trace, output) + "" == Deltas(trace, output);
    } else {
      DeltasSplit(trace, j + 1, output);
      DeltasFirst(trace[j..], output);
      assert trace[..j + 1] == trace[..j] + [trace[j]] && trace[j..][1..] == trace[j + 1..];
      ProjectionsAppend(trace[..j], trace[j], output);
      var p := trace[j].payload;
      var d := if p.TextDelta? && p.output == output then p.delta else "";
      assert Deltas(trace[..j], output) + d + Deltas(trace[j + 1..], output)
          == Deltas(trace[..j], output) + (d + Deltas(trace[j + 1..], output));
    }
  }

  lemma {:induction false} DeltasFirst(trace: seq<Emitted>, output: int)
    requires trace != []
    ensures var p := trace[0].payload;
            Deltas(trace, output)
              == (if p.TextDelta? && p.output == output then p.delta else "") + Deltas(trace[1..], output)
    decreases |trace|
  {
    hide Deltas;
    var last := |trace| - 1;
    assert trace == trace[..last] + [trace[last]];
    ProjectionsAppend(trace[..last], trace[last], output);
    NoDeltaNoText([], output);
    if last == 0 {
      assert trace[..0] == [] && trace[1..] == [];
    } else {
      DeltasFirst(trace[..last], output);
      assert trace[1..] == trace[..last][1..] + [trace[last]];
      ProjectionsAppend(trace[..last][1..], trace[last], output);
    }
  }

  lemma {:induction false} NoDeltaNoText(trace: seq<Emitted>, output: int)
    requires NoDelta(trace)
    ensures Deltas(trace, output) == ""
    decreases |trace|
  {
    if trace != [] {
      NoDeltaNoText(trace[..|trace| - 1], output);
    }
  }

  /** Every closing event shows the final text of its item. */
  ghost predicate AllFinal(trace: seq<Emitted>) {
    forall j :: 0 <= j < |trace| && ClosingText(trace[j].payload).Some? ==> FinalAt(trace, j)
  }

  ghost predicate FinalAt(trace: seq<Emitted>, j: nat)
    requires j < |trace| && ClosingText(trace[j].payload).Some?
  {
    ClosingText(trace[j].payload).value == Deltas(trace, trace[j].payload.output)
  }

  /** Only closed items have closing events. */
  ghost predicate ClosingIsClosed(s: State) {
    forall j, owner ::
      (&& 0 <= j < |s.trace| && ClosingText(s.trace[j].payload).Some?
       && Owned(s, owner).Some? && Owned(s, owner).value.output == s.trace[j].payload.output)
      ==> Owned(s, owner).value.closed
  }

  /** The event streams text for an item that is already closed. */
  ghost predicate Late(s: State, e: Event) {
    exists owner :: Owned(s, owner).Some? && Owned(s, owner).value.closed && TextFor(e, owner) != ""
  }

  /** The item a closing event belongs to. */
  lemma ClosingOwner(s: State, j: nat) returns (owner: Owner)
    requires Inv(s) && j < |s.trace| && ClosingText(s.trace[j].payload).Some?
    ensures Owned(s, owner).Some? && Owned(s, owner).value.output == s.trace[j].payload.output
    ensures Owned(s, owner).value.text == Deltas(s.trace, s.trace[j].payload.output)
  {
    hide Deltas, DoneCount, Owned;
    var o := s.trace[j].payload.output;
    AnnouncedInRange(s.trace, j, s.nextOutput);
    assert HasOwner(s, o);
    owner :| Owned(s, owner).Some? && Owned(s, owner).value.output == o;
  }

  lemma AnnouncedInRange(trace: seq<Emitted>, j: nat, next: int)
    requires AddedOutputs(trace) == FirstOutputs(next) && Announced(trace)
    requires j < |trace| && ClosingText(trace[j].payload).Some?
    ensures 0 <= trace[j].payload.output < next
  {
    AddedGrow(trace, j);
    assert trace[j].payload.output in AddedOutputs(trace[..j]);
  }

  lemma {:induction false} AddedGrow(trace: seq<Emitted>, j: nat)
    requires j <= |trace|
    ensures AddedOutputs(trace[..j]) <= AddedOutputs(trace)
    decreases |trace| - j
  {
    if j == |trace| {
      assert trace[..j] == trace;
    } else {
      AddedGrow(trace, j + 1);
      assert trace[..j + 1][..j] == trace[..j];
    }
  }

  lemma {:induction false} DoneWitness(trace: seq<Emitted>, output: int) returns (j: nat)
    requires DoneCount(trace, output) > 0
    ensures j < |trace| && trace[j].payload.ItemDone? && trace[j].payload.output == output
    decreases |trace|
  {
    var last := |trace| - 1;
    if trace[last].payload.ItemDone? && trace[last].payload.output == output {
      j := last;
    } else {
      j := DoneWitness(trace[..last], output);
    }
  }

  /** An earlier closing text is still final after an event exactly if it was and the event adds nothing to its item. */
  lemma FinalStep(s: State, e: Event, j: nat, owner: Owner)
    requires Inv(s) && j < |s.trace| && ClosingText(s.trace[j].payload).Some?
    requires Owned(s, owner).Some? && Owned(s, owner).value.output == s.trace[j].payload.output
    ensures j < |Consume(s, e).trace| && Consume(s, e).trace[j] == s.trace[j]
    ensures FinalAt(Consume(s, e).trace, j) <==> FinalAt(s.trace, j) && TextFor(e, owner) == ""
  {
    hide Consume, Deltas, DoneCount, Owned, TextFor, TraceOK;
    ConsumeAdds(s, e);
    ConsumeKeepsInv(s, e);
    OwnedStep(s, e, owner);
    RecordInRange(s, owner);
    RecordInRange(Consume(s, e), owner);
    var o := s.trace[j].payload.output;
    ClosingIsPrefix(s, j);
    assert |Deltas(Consume(s, e).trace, o)| == |Deltas(s.trace, o)| + |TextFor(e, owner)|;
    assert Deltas(s.trace, o) + "" == Deltas(s.trace, o);
  }

  lemma ClosingIsPrefix(s: State, j: nat)
    requires Inv(s) && j < |s.trace| && ClosingText(s.trace[j].payload).Some?
    ensures |ClosingText(s.trace[j].payload).value| <= |Deltas(s.trace, s.trace[j].payload.output)|
  {
    hide Deltas, ItemsOK, Announced, AddedOutputs;
    DeltasSplit(s.trace, j, s.trace[j].payload.output);
  }

  /** A closing event just emitted shows the text as it stands. */
  lemma FreshIsFinal(s: State, e: Event, j: nat)
    requires Inv(s) && |s.trace| <= j < |Consume(s, e).trace| && ClosingText(Consume(s, e).trace[j].payload).Some?
    ensures Closes(e) && FinalAt(Consume(s, e).trace, j)
  {
    hide Consume, Deltas, ItemsOK, AddedOutputs, Announced, Numbered;
    ConsumeAdds(s, e);
    ConsumeKeepsInv(s, e);
    var trace := Consume(s, e).trace;
    var added := trace[|s.trace|..];
    assert added[j - |s.trace|] == trace[j];
    ClosingStreamsNothing(e);
    assert NoDelta(trace[j..]) by {
      forall i | 0 <= i < |trace[j..]| ensures !trace[j..][i].payload.TextDelta? {
        assert trace[j..][i] == added[j - |s.trace| + i];
      }
    }
    var o := trace[j].payload.output;
    NoDeltaNoText(trace[j..], o);
    DeltasSplit(trace, j, o);
    assert Deltas(trace[..j], o) + "" == Deltas(trace[..j], o);
  }

  lemma ClosingStreamsNothing(e: Event)
    ensures Closes(e) ==> !Streams(e) && forall owner :: TextFor(e, owner) == ""
  {
  }

  lemma StepKeepsClosed(s: State, e: Event)
    requires Inv(s) && ClosingIsClosed(s)
    ensures ClosingIsClosed(Consume(s, e))
  {
    hide Consume, Inv, Owned, TextFor;
    ConsumeAdds(s, e);
    var after := Consume(s, e);
    forall j, owner | 0 <= j < |after.trace| && ClosingText(after.trace[j].payload).Some? && Owned(after, owner).Some?
                      && Owned(after, owner).value.output == after.trace[j].payload.output
      ensures Owned(after, owner).value.closed
    {
      if j < |s.trace| {
        assert after.trace[j] == s.trace[j];
        var x := ClosingOwner(s, j);
        OwnedStep(s, e, x);
        ConsumeKeepsInv(s, e);
        OneOwner(after, x, owner);
      } else {
        FreshIsFinal(s, e, j);
        ConsumeKeepsInv(s, e);
        OwnedAfterClose(s, e, owner);
      }
    }
  }

  lemma OneOwner(s: State, a: Owner, b: Owner)
    requires Inv(s) && Owned(s, a).Some? && Owned(s, b).Some? && Owned(s, a).value.output == Owned(s, b).value.output
    ensures a == b
  {
  }

  lemma OwnedAfterClose(s: State, e: Event, owner: Owner)
    requires Inv(s) && Closes(e) && Owned(Consume(s, e), owner).Some?
    ensures Owned(Consume(s, e), owner).value.closed
  {
    hide Consume, Inv, Owned;
    CloseStep(s, e, owner);
  }

  /** One event spoils the closing texts exactly when it streams text for a closed item. */
  lemma SpoiledByLateText(s: State, e: Event)
    requires Inv(s) && ClosingIsClosed(s)
    ensures AllFinal(Consume(s, e).trace) <==> AllFinal(s.trace) && !Late(s, e)
  {
    hide Consume, Inv, Owned, TextFor, FinalAt;
    ConsumeAdds(s, e);
    var after := Consume(s, e).trace;
    if AllFinal(s.trace) && !Late(s, e) {
      forall j | 0 <= j < |after| && ClosingText(after[j].payload).Some? ensures FinalAt(after, j) {
        if j < |s.trace| {
          assert after[j] == s.trace[j];
          var x := ClosingOwner(s, j);
          FinalStep(s, e, j, x);
        } else {
          FreshIsFinal(s, e, j);
        }
      }
    }
    if !AllFinal(s.trace) {
      var j :| 0 <= j < |s.trace| && ClosingText(s.trace[j].payload).Some? && !FinalAt(s.trace, j);
      var x := ClosingOwner(s, j);
      FinalStep(s, e, j, x);
    }
    if x :| Owned(s, x).Some? && Owned(s, x).value.closed && TextFor(e, x) != "" {
      var j := ClosedHasEvent(s, x);
      FinalStep(s, e, j, x);
    }
  }

  lemma ClosedHasEvent(s: State, owner: Owner) returns (j: nat)
    requires Inv(s) && Owned(s, owner).Some? && Owned(s, owner).value.closed
    ensures j < |s.trace| && ClosingText(s.trace[j].payload).Some?
    ensures s.trace[j].payload.output == Owned(s, owner).value.output
  {
    hide DoneCount, Deltas, Owned, TraceOK;
    RecordInRange(s, owner);
    j := DoneWitness(s.trace, Owned(s, owner).value.output);
  }

  // ---------------------------------------------------------------------------------------------
  // Over the input
  // ---------------------------------------------------------------------------------------------

  /** Event `j` streams text for an item that was opened and then closed before it. */
  predicate LateAt(events: seq<Event>, owner: Owner, j: nat)
    requires j < |events|
  {
    ClosedIn(events[..j], owner) && TextFor(events[j], owner) != ""
  }

  /** Some item is streamed to after it was closed. */
  ghost predicate StreamsAfterClosing(events: seq<Event>) {
    exists owner, j :: 0 <= j < |events| && LateAt(events, owner, j)
  }

  lemma LateIsInput(events: seq<Event>, e: Event)
    ensures Late(Streamed(events), e) <==> exists owner :: ClosedIn(events, owner) && TextFor(e, owner) != ""
  {
    hide Owned, TextFor, Run, Opened, ClosedIn;
    var s := Streamed(events);
    if x :| Owned(s, x).Some? && Owned(s, x).value.closed && TextFor(e, x) != "" {
      RunOwned(events, x);
      assert ClosedIn(events, x);
    }
    if x :| ClosedIn(events, x) && TextFor(e, x) != "" {
      RunOwned(events, x);
      ClosedWasOpened(events, x);
      assert Owned(s, x).Some? && Owned(s, x).value.closed;
    }
  }

  lemma ClosedWasOpened(events: seq<Event>, owner: Owner)
    requires ClosedIn(events, owner)
    ensures Opened(events, owner)
  {
    hide Opens;
    var i :| 0 <= i < |events| && Closes(events[i]) && Opened(events[..i], owner);
    var h :| 0 <= h < i && Opens(events[..i][h], owner);
    assert Opens(events[h], owner);
  }

  lemma LateStep(events: seq<Event>)
    requires events != []
    ensures var rest, last := events[..|events| - 1], events[|events| - 1];
            StreamsAfterClosing(events) <==>
              StreamsAfterClosing(rest) || exists owner :: ClosedIn(rest, owner) && TextFor(last, owner) != ""
  {
    hide TextFor, ClosedIn;
    var rest, last := events[..|events| - 1], events[|events| - 1];
    forall j | 0 <= j < |rest| ensures rest[..j] == events[..j] && rest[j] == events[j] {
    }
    if owner, j :| 0 <= j < |events| && LateAt(events, owner, j) {
      assert j < |rest| ==> LateAt(rest, owner, j);
      assert j == |rest| ==> ClosedIn(rest, owner) && TextFor(last, owner) != "";
    }
    if owner, j :| 0 <= j < |rest| && LateAt(rest, owner, j) {
      assert LateAt(events, owner, j);
    }
    if owner :| ClosedIn(rest, owner) && TextFor(last, owner) != "" {
      assert LateAt(events, owner, |rest|);
    }
  }

  lemma {:induction false} ClosingInvariant(events: seq<Event>)
    ensures Inv(Streamed(events)) && ClosingIsClosed(Streamed(events))
    decreases |events|
  {
    hide Inv, Consume, ClosingIsClosed;
    StartInv();
    RunKeepsInv(Start(INITIAL), events);
    if events == [] {
      StartsUnclosed();
    } else {
      ClosingInvariant(events[..|events| - 1]);
      StepKeepsClosed(Streamed(events[..|events| - 1]), events[|events| - 1]);
    }
  }

  lemma StartsUnclosed()
    ensures ClosingIsClosed(Start(INITIAL)) && AllFinal(Start(INITIAL).trace)
  {
  }

  /**
   * Exactly when the closing events show final texts: every closing event of the trace repeats the final text of
   * its item if and only if no item is streamed non-empty text after it was opened and then closed.
   */
  lemma {:induction false} ClosingTextsFinalExactly(events: seq<Event>)
    ensures AllFinal(Streamed(events).trace) <==> !StreamsAfterClosing(events)
    decreases |events|
  {
    hide Inv, Consume, ClosingIsClosed, AllFinal, Late, StreamsAfterClosing;
    if events == [] {
      StartsUnclosed();
      NothingLate();
    } else {
      var rest, last := events[..|events| - 1], events[|events| - 1];
      ClosingTextsFinalExactly(rest);
      ClosingInvariant(rest);
      SpoiledByLateText(Streamed(rest), last);
      LateIsInput(rest, last);
      LateStep(events);
    }
  }

  lemma NothingLate()
    ensures !StreamsAfterClosing([])
  {
  }

  /** No text at all follows the first closing event. */
  ghost predicate NothingAfterFinish(events: seq<Event>) {
    forall i, j, owner :: 0 <= i < j < |events| && Closes(events[i]) ==> TextFor(events[j], owner) == ""
  }

  /** In particular, when no delta follows Finish every closing event already shows the final text. */
  lemma ClosingTextsAreFinal(events: seq<Event>)
    requires NothingAfterFinish(events)
    ensures AllFinal(Streamed(events).trace)
  {
    hide Run, AllFinal, TextFor, Opened;
    ClosingTextsFinalExactly(events);
  }

  /** Text that follows Finish for the same item is missing from the closing event. */
  lemma LateDeltaIsMissed()
    ensures !AllFinal(Streamed([ContentDelta("a"), Finish("stop"), ContentDelta("b"), Done]).trace)
  {
    hide Run, AllFinal;
    var events := [ContentDelta("a"), Finish("stop"), ContentDelta("b"), Done];
    ClosingTextsFinalExactly(events);
    assert Opens(events[..2][..1][0], MessageOwner);
    assert Closes(events[..2][1]) && Opened(events[..2][..1], MessageOwner);
    assert LateAt(events, MessageOwner, 2);
  }

  /** Text that follows Finish for another item does no harm. */
  lemma LateItemIsHarmless()
    ensures AllFinal(Streamed([ContentDelta("a"), Finish("stop"), ReasoningDelta("r"), Done]).trace)
  {
    hide Run, AllFinal, Opened;
    var events := [ContentDelta("a"), Finish("stop"), ReasoningDelta("r"), Done];
    ClosingTextsFinalExactly(events);
    if owner, j :| 0 <= j < |events| && LateAt(events, owner, j) {
      ClosedWasOpened(events[..j], owner);
      OnlyMessageBefore(events, owner, j);
    }
  }

  lemma OnlyMessageBefore(events: seq<Event>, owner: Owner, j: nat)
    requires events == [ContentDelta("a"), Finish("stop"), ReasoningDelta("r"), Done] && j < |events|
    requires Opened(events[..j], owner)
    ensures TextFor(events[j], owner) == ""
  {
    var h :| 0 <= h < j && Opens(events[..j][h], owner);
    assert Opens(events[h], owner);
  }
}
