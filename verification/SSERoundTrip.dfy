/** Bounded memory of the decoder, and the events the gateway writes read back as written. */
module SSERoundTrip {
  import opened Common
  import opened SSEDecoder
  import opened SSEChunking
  import SSEBlocks

  // ---------------------------------------------------------------------------------------------
  // Memory
  // ---------------------------------------------------------------------------------------------

  predicate Bounded(d: Decoder) {
    |d.buffer| <= d.max && |d.fields.data| <= d.max
  }

  lemma LineKeepsData(max: int, f: Fields, line: Bytes)
    requires |f.data| <= max && Line(max, f, line).Some?
    ensures |Line(max, f, line).value.0.data| <= max
  {
  }

  lemma {:induction false} InterpretKeepsData(max: int, f: Fields, lines: seq<Bytes>)
    requires |f.data| <= max && Interpret(max, f, lines).Some?
    ensures |Interpret(max, f, lines).value.0.data| <= max
    decreases |lines|
  {
    hide Line;
    if lines != [] {
      LineKeepsData(max, f, lines[0]);
      InterpretKeepsData(max, Line(max, f, lines[0]).value.0, lines[1..]);
    }
  }

  lemma FeedStaysBounded(d: Decoder, chunk: Bytes)
    requires Bounded(d) && Feed(d, chunk).1.Some?
    ensures Bounded(Feed(d, chunk).0) && !Feed(d, chunk).0.closed && Feed(d, chunk).0.max == d.max
  {
    hide Interpret, Complete, Tail, Feed;
    if d.closed || chunk == [] {
      FeedTrivially(d, chunk);
    } else {
      FeedReads(d, chunk);
      InterpretKeepsData(d.max, d.fields, Complete(d.buffer + chunk));
    }
  }

  lemma FeedTrivially(d: Decoder, chunk: Bytes)
    ensures d.closed ==> Feed(d, chunk) == (d, None)
    ensures !d.closed && chunk == [] ==> Feed(d, chunk) == (d, Some([]))
  {
  }

  /** The decoder after feeding all chunks, if no Feed failed. */
  function AfterFeeds(d: Decoder, chunks: seq<Bytes>): Option<Decoder>
    decreases |chunks|
  {
    if chunks == [] then Some(d)
    else
      var (next, events) := Feed(d, chunks[0]);
      if events.None? then None else AfterFeeds(next, chunks[1..])
  }

  /** After every successful Feed of every run, residual buffer and accumulated data are within the limit. */
  lemma {:induction false} MemoryStaysBounded(d: Decoder, chunks: seq<Bytes>)
    requires Bounded(d) && AfterFeeds(d, chunks).Some?
    ensures Bounded(AfterFeeds(d, chunks).value) && AfterFeeds(d, chunks).value.max == d.max
    decreases |chunks|
  {
    hide Feed, Bounded;
    if chunks != [] {
      FeedStaysBounded(d, chunks[0]);
      MemoryStaysBounded(Feed(d, chunks[0]).0, chunks[1..]);
    }
  }

  // ---------------------------------------------------------------------------------------------
  // Round trip with the gateway's own writer
  // ---------------------------------------------------------------------------------------------

  /** An event as the gateway writes it: an optional name and one line of encoded payload. */
  datatype Message = Message(name: Option<Bytes>, payload: Bytes)

  const EVENT_PREFIX: Bytes := EVENT + [COLON, SPACE]
  const DATA_PREFIX: Bytes := DATA + [COLON, SPACE]

  function Encode(m: Message): Bytes {
    (if m.name.Some? then EVENT_PREFIX + m.name.value + [LF] else []) + (DATA_PREFIX + m.payload + [LF] + [LF])
  }

  function EncodeAll(messages: seq<Message>): Bytes {
    if messages == [] then [] else Encode(messages[0]) + EncodeAll(messages[1..])
  }

  predicate Fits(max: int, m: Message) {
    && SSEBlocks.Unbroken(m.payload) && |DATA_PREFIX| + |m.payload| <= max
    && (m.name.Some? ==> SSEBlocks.Unbroken(m.name.value) && |EVENT_PREFIX| + |m.name.value| <= max)
  }

  function Decoded(m: Message): Event {
    Event(if m.name.Some? then m.name.value else [], m.payload, [], None)
  }

  function DecodedAll(messages: seq<Message>): seq<Event> {
    if messages == [] then [] else [Decoded(messages[0])] + DecodedAll(messages[1..])
  }

  /** Between events nothing is pending and no id was seen. */
  predicate Idle(f: Fields) {
    f == Fields([], [], [], None, false, f.firstLine)
  }

  lemma FirstLine(line: Bytes, rest: Bytes)
    requires SSEBlocks.Unbroken(line)
    ensures Lines(line + [LF] + rest) == [line] + Lines(rest)
  {
    SSEBlocks.TakesPiece(SSEBlocks.Piece(line, [LF]), rest);
  }

  lemma PrefixesAreUnbroken(value: Bytes)
    requires SSEBlocks.Unbroken(value)
    ensures SSEBlocks.Unbroken(EVENT_PREFIX + value) && SSEBlocks.Unbroken(DATA_PREFIX + value)
    ensures SSEBlocks.Unbroken([])
  {
  }

  function MessageLines(m: Message): seq<Bytes> {
    (if m.name.Some? then [EVENT_PREFIX + m.name.value] else []) + [DATA_PREFIX + m.payload, []]
  }

  lemma EncodedLines(max: int, m: Message, rest: Bytes)
    requires Fits(max, m)
    ensures Lines(Encode(m) + rest) == MessageLines(m) + Lines(rest)
  {
    hide Lines;
    var data := DATA_PREFIX + m.payload;
    PrefixesAreUnbroken(m.payload);
    var body := data + [LF] + [LF];
    FirstLine([], rest);
    assert [] + [LF] + rest == [LF] + rest;
    FirstLine(data, [LF] + rest);
    assert body + rest == data + [LF] + ([LF] + rest);
    if m.name.Some? {
      PrefixesAreUnbroken(m.name.value);
      FirstLine(EVENT_PREFIX + m.name.value, body + rest);
      assert Encode(m) + rest == EVENT_PREFIX + m.name.value + [LF] + (body + rest);
    } else {
      assert Encode(m) + rest == body + rest;
    }
  }

  lemma NameOf(value: Bytes)
    ensures var e, d := EVENT_PREFIX + value, DATA_PREFIX + value;
            FieldName(e) == EVENT && FieldValue(e) == value && FieldName(d) == DATA && FieldValue(d) == value
  {
    assert EVENT + [COLON, SPACE] + value == EVENT_PREFIX + value;
    assert DATA + [COLON, SPACE] + value == DATA_PREFIX + value;
    SSEBlocks.SplitsExactly(EVENT_PREFIX + value, EVENT, value);
    SSEBlocks.SplitsExactly(DATA_PREFIX + value, DATA, value);
  }

  lemma EventLine(max: int, f: Fields, value: Bytes)
    requires |EVENT_PREFIX| + |value| <= max
    ensures Line(max, f, EVENT_PREFIX + value) == Some((f.(firstLine := false, event := value), []))
  {
    hide FieldName, FieldValue;
    NameOf(value);
    var line := EVENT_PREFIX + value;
    assert line[0] == 101;
  }

  lemma DataLine(max: int, f: Fields, value: Bytes)
    requires |DATA_PREFIX| + |value| <= max && !f.seenData && f.data == []
    ensures Line(max, f, DATA_PREFIX + value) == Some((f.(firstLine := false, data := value, seenData := true), []))
  {
    hide FieldName, FieldValue;
    NameOf(value);
    var line := DATA_PREFIX + value;
    assert line[0] == 100;
    assert [] + [] + value == value;
  }

  lemma InterpretTwo(max: int, f: Fields, a: Bytes, b: Bytes)
    ensures Interpret(max, f, [a, b]) ==
              var one := Line(max, f, a);
              if one.None? then None
              else
                var two := Line(max, one.value.0, b);
                if two.None? then None else Some((two.value.0, one.value.1 + two.value.1))
  {
    hide Line;
    assert [a, b][1..] == [b];
    var one := Line(max, f, a);
    if one.Some? {
      InterpretOne(max, one.value.0, b);
    }
  }

  lemma InterpretOne(max: int, f: Fields, line: Bytes)
    ensures Interpret(max, f, [line]) == Line(max, f, line)
  {
    hide Line;
    var one := Line(max, f, line);
    if one.Some? {
      assert one.value.1 + [] == one.value.1;
    }
  }

  lemma DataAndBlank(max: int, f: Fields, payload: Bytes)
    requires |DATA_PREFIX| + |payload| <= max && !f.seenData && f.data == []
    ensures Interpret(max, f, [DATA_PREFIX + payload, []])
              == Some((Fields([], [], f.id, None, false, false), [Event(f.event, payload, f.id, f.retry)]))
  {
    hide Interpret, Field;
    InterpretTwo(max, f, DATA_PREFIX + payload, []);
    DataLine(max, f, payload);
    var event := Event(f.event, payload, f.id, f.retry);
    assert [] + [event] == [event];
  }

  lemma MessageReads(max: int, f: Fields, m: Message)
    requires Idle(f) && Fits(max, m)
    ensures Interpret(max, f, MessageLines(m)) == Some((Fields([], [], [], None, false, false), [Decoded(m)]))
  {
    hide Line;
    if m.name.Some? {
      var lines := MessageLines(m);
      EventLine(max, f, m.name.value);
      assert lines[0] == EVENT_PREFIX + m.name.value && lines[1..] == [DATA_PREFIX + m.payload, []];
      DataAndBlank(max, f.(firstLine := false, event := m.name.value), m.payload);
      assert [] + [Decoded(m)] == [Decoded(m)];
    } else {
      assert MessageLines(m) == [DATA_PREFIX + m.payload, []];
      DataAndBlank(max, f, m.payload);
    }
  }

  lemma {:induction false} AllRead(max: int, f: Fields, messages: seq<Message>)
    requires Idle(f) && forall i :: 0 <= i < |messages| ==> Fits(max, messages[i])
    ensures Finish(max, f, Lines(EncodeAll(messages))) == Some(DecodedAll(messages))
    decreases |messages|
  {
    hide Lines, Interpret, Encode, Fits;
    if messages == [] {
      NoLines();
      FinishNothing(max, f);
    } else {
      var m, rest := messages[0], EncodeAll(messages[1..]);
      EncodedLines(max, m, rest);
      MessageReads(max, f, m);
      AllRead(max, Fields([], [], [], None, false, false), messages[1..]);
      InterpretConcat(max, f, MessageLines(m), Lines(rest));
    }
  }

  lemma FinishNothing(max: int, f: Fields)
    requires !f.seenData
    ensures Finish(max, f, []) == Some([])
  {
    assert Interpret(max, f, []) == Some((f, []));
    var none: seq<Event> := [];
    assert none + none == none;
  }

  lemma {:induction false} NoReturns(max: int, messages: seq<Message>)
    requires forall i :: 0 <= i < |messages| ==> Fits(max, messages[i])
    ensures CR !in EncodeAll(messages)
    decreases |messages|
  {
    if messages != [] {
      assert Fits(max, messages[0]);
      NoReturns(max, messages[1..]);
    }
  }

  lemma {:induction false} TailIsSuffix(s: Bytes)
    ensures forall b :: b in Tail(s) ==> b in s
    decreases |s|
  {
    hide NextLine;
    var next := NextLine(s, false);
    if next.Some? {
      TailIsSuffix(s[next.value.consumed..]);
    }
  }

  /** Whatever the gateway writes, cut in any way, reads back as the same events in the same order. */
  lemma WrittenEventsReadBack(max: int, messages: seq<Message>, chunks: seq<Bytes>)
    requires max >= 0 && forall i :: 0 <= i < |messages| ==> Fits(max, messages[i])
    requires Concat(chunks) == EncodeAll(messages)
    ensures Decode(New(max), chunks) == Some(DecodedAll(messages))
  {
    hide Decode, Finish, Lines, Fits, EncodeAll, Tail;
    AllRead(max, FRESH, messages);
    NoReturns(max, messages);
    DecodeExact(max, chunks);
    if StallsSomewhere(max, [], chunks) {
      var k :| 0 <= k < |chunks| && chunks[k] != [] && Stalls(max, [] + Concat(chunks[..k + 1]));
      var prefix := Concat(chunks[..k + 1]);
      assert [] + prefix == prefix;
      ConcatPrefix(chunks, k + 1);
      TailIsSuffix(prefix);
    }
  }
}
