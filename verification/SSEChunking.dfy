/** The decoder refines a reading of the whole input: how the bytes were cut into chunks does not matter. */
module SSEChunking {
  import opened Common
  import opened SSEDecoder

  // ---------------------------------------------------------------------------------------------
  // The reference: split the whole input into lines, then interpret the lines
  // ---------------------------------------------------------------------------------------------

  /** All lines of a finished input; a last line needs no line break. */
  function Lines(s: Bytes): seq<Bytes> {
    if s == [] then []
    else
      var n := LineLength(s);
      if n == |s| then [s] else [s[..n]] + Lines(s[n + BreakLength(s, n)..])
  }

  function Interpret(max: int, f: Fields, lines: seq<Bytes>): Option<(Fields, seq<Event>)>
    decreases |lines|
  {
    if lines == [] then Some((f, []))
    else
      var step := Line(max, f, lines[0]);
      if step.None? then None
      else
        var rest := Interpret(max, step.value.0, lines[1..]);
        if rest.None? then None else Some((rest.value.0, step.value.1 + rest.value.1))
  }

  /** A pending event at the end of input is still delivered. */
  function Finish(max: int, f: Fields, lines: seq<Bytes>): Option<seq<Event>> {
    var r := Interpret(max, f, lines);
    if r.None? then None else Some(r.value.1 + Dispatch(r.value.0).1)
  }

  function Reference(max: int, input: Bytes): Option<seq<Event>> {
    Finish(max, FRESH, Lines(input))
  }

  // ---------------------------------------------------------------------------------------------
  // Runs of the decoder
  // ---------------------------------------------------------------------------------------------

  function Concat(chunks: seq<Bytes>): Bytes {
    if chunks == [] then [] else chunks[0] + Concat(chunks[1..])
  }

  function New(max: int): Decoder { Decoder(max, [], FRESH, false) }

  /** Feeding the chunks in turn and closing; the first error ends the run. */
  function Decode(d: Decoder, chunks: seq<Bytes>): Option<seq<Event>>
    decreases |chunks|
  {
    if chunks == [] then Close(d).1
    else
      var (next, events) := Feed(d, chunks[0]);
      if events.None? then None else Before(events.value, Decode(next, chunks[1..]))
  }

  // ---------------------------------------------------------------------------------------------
  // Incremental splitting
  // ---------------------------------------------------------------------------------------------

  /** The lines an open buffer already yields, and the bytes it keeps. */
  function Complete(s: Bytes): seq<Bytes>
    decreases |s|
  {
    var next := NextLine(s, false);
    if next.None? then [] else [next.value.line] + Complete(s[next.value.consumed..])
  }

  function Tail(s: Bytes): Bytes
    decreases |s|
  {
    var next := NextLine(s, false);
    if next.None? then s else Tail(s[next.value.consumed..])
  }

  lemma {:induction false} ConsumeOpen(d: Decoder)
    ensures var r := Interpret(d.max, d.fields, Complete(d.buffer));
            if r.None? then ConsumeLines(d, false).1.None?
            else ConsumeLines(d, false) == (d.(buffer := Tail(d.buffer), fields := r.value.0), Some(r.value.1))
    decreases |d.buffer|
  {
    hide Line, NextLine;
    var next := NextLine(d.buffer, false);
    if next.Some? {
      var step := Line(d.max, d.fields, next.value.line);
      var lines := Complete(d.buffer);
      assert lines[0] == next.value.line && lines[1..] == Complete(d.buffer[next.value.consumed..]);
      if step.Some? {
        ConsumeOpen(d.(buffer := d.buffer[next.value.consumed..], fields := step.value.0));
      }
    }
  }

  lemma NextAtEnd(s: Bytes)
    ensures NextLine(s, true).None? <==> s == []
    ensures s != [] ==> var cut := NextLine(s, true).value; Lines(s) == [cut.line] + Lines(s[cut.consumed..])
  {
  }

  lemma {:induction false} ConsumeEnd(d: Decoder)
    ensures var r := Interpret(d.max, d.fields, Lines(d.buffer));
            if r.None? then ConsumeLines(d, true).1.None?
            else ConsumeLines(d, true) == (d.(buffer := [], fields := r.value.0), Some(r.value.1))
    decreases |d.buffer|
  {
    hide Line, NextLine, Lines;
    NextAtEnd(d.buffer);
    var next := NextLine(d.buffer, true);
    if next.Some? {
      var step := Line(d.max, d.fields, next.value.line);
      var lines := Lines(d.buffer);
      assert lines[0] == next.value.line && lines[1..] == Lines(d.buffer[next.value.consumed..]);
      if step.Some? {
        ConsumeEnd(d.(buffer := d.buffer[next.value.consumed..], fields := step.value.0));
      }
    } else {
      NoLines();
    }
  }

  lemma NoLines()
    ensures Lines([]) == []
  {
  }

  /** A complete line stays what it is when more bytes arrive. */
  lemma LineIsStable(a: Bytes, b: Bytes)
    requires NextLine(a, false).Some?
    ensures var cut := NextLine(a, false).value;
            && NextLine(a + b, false) == Some(cut)
            && Lines(a + b) == [cut.line] + Lines(a[cut.consumed..] + b)
            && (a + b)[cut.consumed..] == a[cut.consumed..] + b
  {
    hide LineLength;
    var n := LineLength(a);
    LineLengthIs(a + b, n);
    assert (a + b)[..n] == a[..n];
    var cut := NextLine(a, false).value;
    assert BreakLength(a + b, n) == BreakLength(a, n);
    assert (a + b)[cut.consumed..] == a[cut.consumed..] + b;
  }

  lemma {:induction false} LinesConcat(a: Bytes, b: Bytes)
    ensures Lines(a + b) == Complete(a) + Lines(Tail(a) + b)
    decreases |a|
  {
    hide Lines, NextLine;
    var next := NextLine(a, false);
    if next.Some? {
      LineIsStable(a, b);
      LinesConcat(a[next.value.consumed..], b);
    }
  }

  lemma {:induction false} TailConcat(a: Bytes, b: Bytes)
    ensures Tail(a + b) == Tail(Tail(a) + b)
    decreases |a|
  {
    hide Lines, NextLine;
    var next := NextLine(a, false);
    if next.Some? {
      LineIsStable(a, b);
      TailConcat(a[next.value.consumed..], b);
    }
  }

  lemma {:induction false} TailIsQuiet(s: Bytes)
    ensures NextLine(Tail(s), false).None?
    decreases |s|
  {
    hide NextLine;
    var next := NextLine(s, false);
    if next.Some? {
      TailIsQuiet(s[next.value.consumed..]);
    }
  }

  lemma {:induction false} InterpretConcat(max: int, f: Fields, a: seq<Bytes>, b: seq<Bytes>)
    ensures var r := Interpret(max, f, a);
            if r.None? then Interpret(max, f, a + b).None? && Finish(max, f, a + b).None?
            else Finish(max, f, a + b) == Before(r.value.1, Finish(max, r.value.0, b))
    decreases |a|
  {
    hide Line, Dispatch;
    if a == [] {
      assert a + b == b;
      BeforeBefore([], [], Finish(max, f, b));
    } else {
      assert (a + b)[0] == a[0] && (a + b)[1..] == a[1..] + b;
      var step := Line(max, f, a[0]);
      if step.Some? {
        InterpretConcat(max, step.value.0, a[1..], b);
        var rest := Interpret(max, step.value.0, a[1..]);
        FinishStep(max, f, a + b);
        if rest.Some? {
          BeforeBefore(step.value.1, rest.value.1, Finish(max, rest.value.0, b));
        }
      }
    }
  }

  lemma FinishStep(max: int, f: Fields, lines: seq<Bytes>)
    requires lines != [] && Line(max, f, lines[0]).Some?
    ensures var step := Line(max, f, lines[0]).value;
            Finish(max, f, lines) == Before(step.1, Finish(max, step.0, lines[1..]))
  {
    hide Line, Dispatch;
    var step := Line(max, f, lines[0]).value;
    var r := Interpret(max, step.0, lines[1..]);
    if r.Some? {
      assert step.1 + (r.value.1 + Dispatch(r.value.0).1) == step.1 + r.value.1 + Dispatch(r.value.0).1;
    }
  }

  // ---------------------------------------------------------------------------------------------
  // Exact behaviour of a run
  // ---------------------------------------------------------------------------------------------

  /** Some Feed leaves more than `max` bytes in the buffer. */
  predicate Overflows(max: int, kept: Bytes, chunks: seq<Bytes>)
    decreases |chunks|
  {
    && chunks != []
    && (if chunks[0] == [] then Overflows(max, kept, chunks[1..])
        else |Tail(kept + chunks[0])| > max || Overflows(max, Tail(kept + chunks[0]), chunks[1..]))
  }

  lemma CloseReads(d: Decoder)
    requires !d.closed
    ensures Close(d).1 == Finish(d.max, d.fields, Lines(d.buffer))
  {
    hide ConsumeLines, Interpret, Lines, Dispatch;
    ConsumeEnd(d.(closed := true));
  }

  lemma FeedReads(d: Decoder, chunk: Bytes)
    requires !d.closed && chunk != []
    ensures var r, tail := Interpret(d.max, d.fields, Complete(d.buffer + chunk)), Tail(d.buffer + chunk);
            if r.None? || |tail| > d.max then Feed(d, chunk).1.None?
            else Feed(d, chunk) == (d.(buffer := tail, fields := r.value.0), Some(r.value.1))
  {
    hide ConsumeLines, Interpret, Complete, Tail;
    ConsumeOpen(d.(buffer := d.buffer + chunk));
  }

  /** Any run equals the reference reading of all bytes, unless some Feed leaves too much behind. */
  lemma {:induction false} DecodeRefines(d: Decoder, chunks: seq<Bytes>)
    requires !d.closed
    ensures Decode(d, chunks) ==
              if Overflows(d.max, d.buffer, chunks) then None
              else Finish(d.max, d.fields, Lines(d.buffer + Concat(chunks)))
    decreases |chunks|
  {
    hide Feed, Close, Interpret, Finish, Lines, Complete, Tail, Before;
    if chunks == [] {
      CloseReads(d);
      assert d.buffer + [] == d.buffer;
    } else if chunks[0] == [] {
      FeedNothing(d);
      DecodeRefines(d, chunks[1..]);
      assert Concat(chunks) == Concat(chunks[1..]);
      BeforeBefore([], [], Decode(d, chunks[1..]));
    } else {
      DecodeChunk(d, chunks);
    }
  }

  lemma FeedNothing(d: Decoder)
    ensures Feed(d, []) == (d, if d.closed then None else Some([]))
  {
  }

  lemma {:induction false} DecodeChunk(d: Decoder, chunks: seq<Bytes>)
    requires !d.closed && chunks != [] && chunks[0] != []
    ensures Decode(d, chunks) ==
              if Overflows(d.max, d.buffer, chunks) then None
              else Finish(d.max, d.fields, Lines(d.buffer + Concat(chunks)))
    decreases |chunks|, 0
  {
    hide Feed, Close, Interpret, Finish, Lines, Complete, Tail, Before;
    var sofar, later := d.buffer + chunks[0], Concat(chunks[1..]);
    var r, tail := Interpret(d.max, d.fields, Complete(sofar)), Tail(sofar);
    FeedReads(d, chunks[0]);
    assert d.buffer + Concat(chunks) == sofar + later;
    LinesConcat(sofar, later);
    InterpretConcat(d.max, d.fields, Complete(sofar), Lines(tail + later));
    if r.Some? && |tail| <= d.max {
      DecodeRefines(d.(buffer := tail, fields := r.value.0), chunks[1..]);
      BeforeBefore(r.value.1, [], None);
    }
  }

  // ---------------------------------------------------------------------------------------------
  // When chunking matters
  // ---------------------------------------------------------------------------------------------

  /** After these bytes the buffer holds a line of exactly `max` bytes and a CR that may still begin a CR LF pair. */
  predicate Stalls(max: int, s: Bytes) {
    var tail := Tail(s);
    |tail| == max + 1 && tail != [] && tail[|tail| - 1] == CR
  }

  /** Some non-empty chunk ends where the decoder stalls. */
  ghost predicate StallsSomewhere(max: int, before: Bytes, chunks: seq<Bytes>) {
    exists k :: 0 <= k < |chunks| && chunks[k] != [] && Stalls(max, before + Concat(chunks[..k + 1]))
  }

  /** Unless it stalls, a tail over the limit is part of a line over the limit. */
  lemma LongTailFails(max: int, s: Bytes, more: Bytes)
    requires max >= 0 && |Tail(s)| > max && !Stalls(max, s)
    ensures Reference(max, s + more).None?
  {
    hide Interpret, Lines, Complete, Tail;
    TailIsQuiet(s);
    var tail := Tail(s);
    LinesConcat(s, more);
    LongLine(max, tail, more);
    InterpretConcat(max, FRESH, Complete(s), Lines(tail + more));
    if f :| Interpret(max, FRESH, Complete(s)) == Some(f) {
      LongLineFails(max, f.0, Lines(tail + more));
    }
  }

  lemma LongLine(max: int, tail: Bytes, more: Bytes)
    requires max >= 0 && NextLine(tail, false).None? && |tail| > max
    requires |tail| == max + 1 ==> tail[|tail| - 1] != CR
    ensures Lines(tail + more) != [] && |Lines(tail + more)[0]| > max
  {
    hide LineLength;
    var n, s := LineLength(tail), tail + more;
    if n < |tail| {
      LineLengthIs(s, n);
    } else {
      assert forall i :: 0 <= i < |tail| ==> s[i] == tail[i];
    }
  }

  lemma LongLineFails(max: int, f: Fields, lines: seq<Bytes>)
    requires lines != [] && |lines[0]| > max
    ensures Finish(max, f, lines).None?
  {
  }

  /** Over the limit without a stall fails either way, so only stalls matter. */
  lemma {:induction false} OverflowsOrFails(max: int, before: Bytes, chunks: seq<Bytes>)
    requires max >= 0
    ensures Overflows(max, Tail(before), chunks) ==>
              StallsSomewhere(max, before, chunks) || Reference(max, before + Concat(chunks)).None?
    ensures StallsSomewhere(max, before, chunks) ==> Overflows(max, Tail(before), chunks)
    decreases |chunks|
  {
    hide Tail, Reference, Stalls;
    if chunks != [] {
      var next := before + chunks[0];
      TailConcat(before, chunks[0]);
      OverflowsOrFails(max, next, chunks[1..]);
      assert next + Concat(chunks[1..]) == before + Concat(chunks);
      StallsStep(max, before, chunks);
      if chunks[0] == [] {
        assert next == before;
      } else if |Tail(next)| > max && !Stalls(max, next) {
        LongTailFails(max, next, Concat(chunks[1..]));
      }
      StallIsLong(max, next);
    }
  }

  lemma StallIsLong(max: int, s: Bytes)
    ensures Stalls(max, s) ==> |Tail(s)| > max
  {
  }

  lemma StallsStep(max: int, before: Bytes, chunks: seq<Bytes>)
    requires chunks != []
    ensures StallsSomewhere(max, before, chunks) <==>
              (chunks[0] != [] && Stalls(max, before + chunks[0]))
                || StallsSomewhere(max, before + chunks[0], chunks[1..])
  {
    hide Stalls;
    forall k | 0 <= k < |chunks|
      ensures before + Concat(chunks[..k + 1]) == (before + chunks[0]) + Concat(chunks[1..][..k])
    {
      assert chunks[..k + 1][1..] == chunks[1..][..k];
    }
    if k :| 0 <= k < |chunks| && chunks[k] != [] && Stalls(max, before + Concat(chunks[..k + 1])) {
      if k > 0 {
        assert chunks[1..][k - 1] != [] && Stalls(max, (before + chunks[0]) + Concat(chunks[1..][..k - 1 + 1]));
      } else {
        assert Concat(chunks[1..][..0]) == [];
        assert (before + chunks[0]) + [] == before + chunks[0];
      }
    }
    if chunks[0] != [] && Stalls(max, before + chunks[0]) {
      assert Concat(chunks[1..][..0]) == [];
      assert before + Concat(chunks[..0 + 1]) == before + chunks[0];
    }
    var next, rest := before + chunks[0], chunks[1..];
    if k :| 0 <= k < |rest| && rest[k] != [] && Stalls(max, next + Concat(rest[..k + 1])) {
      assert chunks[k + 1] != [] && Stalls(max, before + Concat(chunks[..k + 1 + 1]));
    }
  }

  /** Exact outcome of every run: the reference reading, unless a non-empty chunk ends on a stalled byte. */
  lemma DecodeExact(max: int, chunks: seq<Bytes>)
    requires max >= 0
    ensures Decode(New(max), chunks) ==
              if StallsSomewhere(max, [], chunks) then None else Reference(max, Concat(chunks))
  {
    hide Overflows, Decode, Finish, Lines, Tail, StallsSomewhere;
    DecodeRefines(New(max), chunks);
    TailOfNothing();
    OverflowsOrFails(max, [], chunks);
    assert [] + Concat(chunks) == Concat(chunks);
  }

  lemma TailOfNothing()
    ensures Tail([]) == []
  {
  }

  /** A stall shows a line of exactly `max` bytes in every continuation. */
  lemma StallShowsLine(max: int, s: Bytes, more: Bytes)
    requires Stalls(max, s)
    ensures exists i :: 0 <= i < |Lines(s + more)| && |Lines(s + more)[i]| == max
  {
    hide Complete, Tail;
    TailIsQuiet(s);
    LinesConcat(s, more);
    var tail := Tail(s);
    StalledLine(tail, more);
    var i := |Complete(s)|;
    assert Lines(s + more)[i] == Lines(tail + more)[0];
  }

  lemma StalledLine(tail: Bytes, more: Bytes)
    requires NextLine(tail, false).None? && tail != [] && tail[|tail| - 1] == CR
    ensures Lines(tail + more) != [] && |Lines(tail + more)[0]| == |tail| - 1
  {
    LineLengthIs(tail + more, LineLength(tail));
  }

  lemma ConcatPrefix(chunks: seq<Bytes>, k: nat)
    requires k <= |chunks|
    ensures Concat(chunks) == Concat(chunks[..k]) + Concat(chunks[k..])
    decreases k
  {
    if k == 0 {
      assert chunks[..0] == [] && chunks[0..] == chunks;
    } else {
      ConcatPrefix(chunks[1..], k - 1);
      assert chunks[..k][1..] == chunks[1..][..k - 1] && chunks[1..][k - 1..] == chunks[k..];
    }
  }

  /** Chunk independence: when every line is shorter than `max`, every way of cutting the input reads the same. */
  lemma ChunkIndependence(max: int, chunks: seq<Bytes>)
    requires max >= 0 && forall i :: 0 <= i < |Lines(Concat(chunks))| ==> |Lines(Concat(chunks))[i]| < max
    ensures Decode(New(max), chunks) == Reference(max, Concat(chunks))
  {
    hide Lines, Decode, Reference, Stalls;
    DecodeExact(max, chunks);
    if StallsSomewhere(max, [], chunks) {
      var k :| 0 <= k < |chunks| && chunks[k] != [] && Stalls(max, [] + Concat(chunks[..k + 1]));
      ConcatPrefix(chunks, k + 1);
      assert [] + Concat(chunks[..k + 1]) == Concat(chunks[..k + 1]);
      StallShowsLine(max, Concat(chunks[..k + 1]), Concat(chunks[k + 1..]));
    }
  }

  ghost predicate ChunkIndependent(max: int, input: Bytes) {
    forall chunks :: Concat(chunks) == input ==> Decode(New(max), chunks) == Decode(New(max), [input])
  }

  /** A cut inside the input that stalls the decoder. */
  ghost predicate StallsInside(max: int, input: Bytes) {
    exists p :: 0 < p < |input| && Stalls(max, input[..p])
  }

  /**
   * Exactly when the result depends on the cuts: the input is readable, does not itself end on a stall, and
   * has a line of exactly `max` bytes ended by a CR with more bytes behind it.
   */
  lemma WhenChunkingMatters(max: int, input: Bytes)
    requires max >= 0
    ensures ChunkIndependent(max, input) <==>
              Reference(max, input).None? || Stalls(max, input) || !StallsInside(max, input)
  {
    hide Decode, Reference, Stalls;
    WholeChunk(max, input);
    if Reference(max, input).None? || Stalls(max, input) || !StallsInside(max, input) {
      forall chunks | Concat(chunks) == input ensures Decode(New(max), chunks) == Decode(New(max), [input]) {
        CutsAgree(max, chunks);
      }
    } else {
      var p :| 0 < p < |input| && Stalls(max, input[..p]);
      CutStalls(max, input, p);
    }
  }

  lemma WholeChunk(max: int, input: Bytes)
    requires max >= 0
    ensures Concat([input]) == input
    ensures Decode(New(max), [input]) == if Stalls(max, input) then None else Reference(max, input)
  {
    hide Decode, Reference;
    var chunks := [input];
    assert Concat(chunks) == input + Concat([]);
    DecodeExact(max, chunks);
    StallsStep(max, [], chunks);
    assert [] + input == input;
    if input == [] {
      TailOfNothing();
    }
  }

  lemma CutStalls(max: int, input: Bytes, p: nat)
    requires max >= 0 && 0 < p < |input| && Stalls(max, input[..p])
    ensures Concat([input[..p], input[p..]]) == input
    ensures Decode(New(max), [input[..p], input[p..]]).None?
  {
    hide Decode, Reference, Stalls;
    var chunks := [input[..p], input[p..]];
    assert chunks[1..] == [input[p..]];
    assert Concat([input[p..]]) == input[p..] + Concat([]);
    DecodeExact(max, chunks);
    StallsStep(max, [], chunks);
    assert [] + input[..p] == input[..p];
  }

  /** A stall of a run is a stall at a cut of the input, or at its end. */
  lemma CutsAgree(max: int, chunks: seq<Bytes>)
    requires max >= 0
    requires var input := Concat(chunks);
             Reference(max, input).None? || Stalls(max, input) || !StallsInside(max, input)
    ensures Decode(New(max), chunks) == Decode(New(max), [Concat(chunks)])
  {
    hide Decode, Reference, Stalls;
    var input := Concat(chunks);
    DecodeExact(max, chunks);
    WholeChunk(max, input);
    if StallsSomewhere(max, [], chunks) {
      var k :| 0 <= k < |chunks| && chunks[k] != [] && Stalls(max, [] + Concat(chunks[..k + 1]));
      var prefix := Concat(chunks[..k + 1]);
      ConcatPrefix(chunks, k + 1);
      assert [] + prefix == prefix && prefix == input[..|prefix|];
      NonEmptyPrefix(chunks[..k + 1], k);
      assert |prefix| == |input| ==> prefix == input;
    } else if Stalls(max, input) {
      StallAtEnd(max, chunks);
    }
  }

  lemma NonEmptyPrefix(chunks: seq<Bytes>, k: nat)
    requires k < |chunks| && chunks[k] != []
    ensures Concat(chunks) != []
  {
    ConcatPrefix(chunks, k);
    assert Concat(chunks[k..]) == chunks[k] + Concat(chunks[k..][1..]);
  }

  lemma {:induction false} StallAtEnd(max: int, chunks: seq<Bytes>)
    requires max >= 0 && Stalls(max, Concat(chunks))
    ensures StallsSomewhere(max, [], chunks)
    decreases |chunks|
  {
    hide Stalls;
    if chunks == [] {
      StallIsLong(max, []);
      TailOfNothing();
    } else {
      var last := |chunks| - 1;
      ConcatPrefix(chunks, last);
      assert chunks[last..] == [chunks[last]];
      assert Concat([chunks[last]]) == chunks[last] + Concat([]);
      if chunks[last] == [] {
        assert Concat(chunks) == Concat(chunks[..last]);
        StallAtEnd(max, chunks[..last]);
        var k :| 0 <= k < last && chunks[..last][k] != [] && Stalls(max, [] + Concat(chunks[..last][..k + 1]));
        assert chunks[..last][..k + 1] == chunks[..k + 1];
        assert chunks[k] != [];
      } else {
        assert chunks[..last + 1] == chunks;
        assert [] + Concat(chunks) == Concat(chunks);
      }
    }
  }

  const EXAMPLE: Bytes := [100, 97, 116, 97, 58, 13, 10]

  lemma ExampleIsReadable()
    ensures Reference(5, EXAMPLE).Some?
  {
    hide Lines, Field;
    var line: Bytes := EXAMPLE[..5];
    ExampleLines();
    ExampleField();
    assert BOM[0] != line[0];
    assert TrimBOM(line) == line;
    assert Line(5, FRESH, line).Some?;
    assert [line][1..] == [];
    assert Interpret(5, FRESH, [line]).Some?;
  }

  lemma ExampleLines()
    ensures Lines(EXAMPLE) == [EXAMPLE[..5]]
  {
    LineLengthIs(EXAMPLE, 5);
    NoLines();
    assert EXAMPLE[7..] == [];
  }

  lemma ExampleField()
    ensures Field(5, FRESH.(firstLine := false), EXAMPLE[..5]).Some?
  {
    hide FieldName, ParseInt64;
    ExampleValue();
  }

  lemma ExampleValue()
    ensures FieldValue(EXAMPLE[..5]) == []
  {
    var line := EXAMPLE[..5];
    var rest := [line[3], line[4]];
    assert line[1..][1..][1..] == rest && rest[1..] == [COLON];
    assert FieldValue([COLON]) == [];
    assert FieldValue(rest) == [];
    assert FieldValue(line[1..][1..]) == [];
    assert FieldValue(line[1..]) == [];
  }

  lemma ExampleTails()
    ensures !Stalls(5, EXAMPLE) && Stalls(5, EXAMPLE[..6])
  {
    LineLengthIs(EXAMPLE, 5);
    assert EXAMPLE[7..] == [];
    assert NextLine(EXAMPLE, false) == Some(Cut(EXAMPLE[..5], 7));
    TailOfNothing();
    LineLengthIs(EXAMPLE[..6], 5);
  }

  /** The line "data:" ended by CR LF, under a maximum of five bytes: a cut between CR and LF makes it fail. */
  lemma ChunkingCanMatter()
    ensures !ChunkIndependent(5, EXAMPLE)
  {
    hide Decode, ChunkIndependent, Reference, Stalls;
    WhenChunkingMatters(5, EXAMPLE);
    ExampleIsReadable();
    ExampleTails();
  }
}
