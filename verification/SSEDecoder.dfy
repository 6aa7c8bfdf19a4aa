/** The incremental decoder of server-sent events: bytes arrive in chunks, events come out at blank lines. */
module SSEDecoder {
  import opened Common

  newtype Byte = x: int | 0 <= x < 256

  type Bytes = seq<Byte>

  const LF: Byte := 10
  const CR: Byte := 13
  const SPACE: Byte := 32
  const COLON: Byte := 58
  const BOM: Bytes := [0xef, 0xbb, 0xbf]
  const DATA: Bytes := [100, 97, 116, 97]
  const EVENT: Bytes := [101, 118, 101, 110, 116]
  const ID: Bytes := [105, 100]
  const RETRY: Bytes := [114, 101, 116, 114, 121]
  const DEFAULT_MAX := 0x10_0000

  datatype Event = Event(event: Bytes, data: Bytes, id: Bytes, retry: Option<int>)

  /** What a stream of lines has built up so far. */
  datatype Fields = Fields(data: Bytes, event: Bytes, id: Bytes, retry: Option<int>, seenData: bool, firstLine: bool)

  datatype Decoder = Decoder(max: int, buffer: Bytes, fields: Fields, closed: bool)

  const FRESH := Fields([], [], [], None, false, true)

  // ---------------------------------------------------------------------------------------------
  // Lines
  // ---------------------------------------------------------------------------------------------

  predicate Break(b: Byte) { b == LF || b == CR }

  /** Number of leading bytes before the first line break. */
  function LineLength(s: Bytes): (n: nat)
    ensures n <= |s| && (n < |s| ==> Break(s[n])) && forall i :: 0 <= i < n ==> !Break(s[i])
  {
    if s == [] || Break(s[0]) then 0 else LineLength(s[1..]) + 1
  }

  /** Length of the line break that starts at `n`: a CR takes the LF after it along. */
  function BreakLength(s: Bytes, n: nat): (k: nat)
    requires n < |s|
    ensures 1 <= k <= |s| - n
  {
    if s[n] == CR && n + 1 < |s| && s[n + 1] == LF then 2 else 1
  }

  datatype Cut = Cut(line: Bytes, consumed: nat)

  /** The first complete line, unless a CR at the very end may still turn out to be a CR LF pair. */
  function NextLine(buffer: Bytes, atEOF: bool): (r: Option<Cut>)
    ensures r.Some? ==> 0 < r.value.consumed <= |buffer|
  {
    var n := LineLength(buffer);
    if n == |buffer| then if atEOF && n > 0 then Some(Cut(buffer, n)) else None
    else if buffer[n] == CR && n + 1 == |buffer| && !atEOF then None
    else Some(Cut(buffer[..n], n + BreakLength(buffer, n)))
  }

  method NextSSELine(buffer: Bytes, atEOF: bool) returns (r: Option<Cut>)
    ensures r == NextLine(buffer, atEOF)
  {
    for index := 0 to |buffer|
      invariant forall i :: 0 <= i < index ==> !Break(buffer[i])
    {
      if buffer[index] == LF {
        LineLengthIs(buffer, index);
        var end := index;
        if end > 0 && buffer[end - 1] == CR {
          end := end - 1;
        }
        return Some(Cut(buffer[..end], index + 1));
      } else if buffer[index] == CR {
        LineLengthIs(buffer, index);
        if index + 1 == |buffer| && !atEOF {
          return None;
        }
        var consumed := index + 1;
        if consumed < |buffer| && buffer[consumed] == LF {
          consumed := consumed + 1;
        }
        return Some(Cut(buffer[..index], consumed));
      }
    }
    LineLengthIs(buffer, |buffer|);
    if atEOF && |buffer| > 0 {
      return Some(Cut(buffer, |buffer|));
    }
    r := None;
  }

  lemma {:induction false} LineLengthIs(s: Bytes, n: nat)
    requires n <= |s| && (n < |s| ==> Break(s[n])) && forall i :: 0 <= i < n ==> !Break(s[i])
    ensures LineLength(s) == n
  {
    if n > 0 {
      LineLengthIs(s[1..], n - 1);
    }
  }

  // ---------------------------------------------------------------------------------------------
  // Fields
  // ---------------------------------------------------------------------------------------------

  function TrimBOM(line: Bytes): Bytes {
    if BOM <= line then line[|BOM|..] else line
  }

  /** Splits a line at its first colon; a line without one is a field with an empty value. */
  function FieldName(line: Bytes): Bytes {
    if line == [] || line[0] == COLON then [] else [line[0]] + FieldName(line[1..])
  }

  function FieldValue(line: Bytes): Bytes {
    if line == [] then []
    else if line[0] == COLON then if |line| > 1 && line[1] == SPACE then line[2..] else line[1..]
    else FieldValue(line[1..])
  }

  predicate Digit(b: Byte) { 48 <= b <= 57 }

  function Digits(s: Bytes): nat {
    if s == [] then 0 else Digits(s[..|s| - 1]) * 10 + (if Digit(s[|s| - 1]) then (s[|s| - 1] - 48) as int else 0)
  }

  /** strconv.ParseInt(s, 10, 64). */
  function ParseInt64(s: Bytes): Option<int> {
    var negative := s != [] && s[0] == 45;
    var digits := if s != [] && (s[0] == 45 || s[0] == 43) then s[1..] else s;
    if digits == [] || exists i :: 0 <= i < |digits| && !Digit(digits[i]) then None
    else
      var value: int := if negative then 0 - Digits(digits) else Digits(digits);
      if -0x8000_0000_0000_0000 <= value < 0x8000_0000_0000_0000 then Some(value) else None
  }

  function AppendData(max: int, f: Fields, value: Bytes): Option<Fields> {
    if |f.data| + |value| + (if f.seenData then 1 else 0) > max then None
    else Some(f.(data := f.data + (if f.seenData then [LF] else []) + value, seenData := true))
  }

  /** One non-empty line; None is an event over the limit. */
  function Field(max: int, f: Fields, line: Bytes): Option<Fields> {
    if line != [] && line[0] == COLON then Some(f)
    else
      var name, value := FieldName(line), FieldValue(line);
      if name == DATA then AppendData(max, f, value)
      else if name == EVENT then Some(f.(event := value))
      else if name == ID then Some(if 0 in value then f else f.(id := value))
      else if name == RETRY then
        var parsed := ParseInt64(value);
        Some(if parsed.Some? && parsed.value >= 0 then f.(retry := parsed) else f)
      else Some(f)
  }

  /** A blank line: an event if there was data; the last id stays. */
  function Dispatch(f: Fields): (Fields, seq<Event>) {
    (f.(data := [], event := [], retry := None, seenData := false),
     if f.seenData then [Event(f.event, f.data, f.id, f.retry)] else [])
  }

  // ---------------------------------------------------------------------------------------------
  // Feed and Close
  // ---------------------------------------------------------------------------------------------

  /** One line taken off the buffer: the fields after it and the event it completes, None on a limit error. */
  function Line(max: int, f: Fields, line: Bytes): Option<(Fields, seq<Event>)> {
    if |line| > max then None
    else
      var text := if f.firstLine then TrimBOM(line) else line;
      var f' := f.(firstLine := false);
      if text == [] then Some(Dispatch(f'))
      else
        var after := Field(max, f', text);
        if after.None? then None else Some((after.value, []))
  }

  function ConsumeLines(d: Decoder, atEOF: bool): (Decoder, Option<seq<Event>>)
    decreases |d.buffer|
  {
    var next := NextLine(d.buffer, atEOF);
    if next.None? then (d, Some([]))
    else
      var rest := d.(buffer := d.buffer[next.value.consumed..]);
      var step := Line(d.max, d.fields, next.value.line);
      if step.None? then (rest.(fields := AfterFailure(d.max, d.fields, next.value.line)), None)
      else
        var (last, events) := ConsumeLines(rest.(fields := step.value.0), atEOF);
        (last, Before(step.value.1, events))
  }

  /** Events already found, ahead of the outcome of the rest. */
  function Before(events: seq<Event>, rest: Option<seq<Event>>): Option<seq<Event>> {
    if rest.None? then None else Some(events + rest.value)
  }

  lemma BeforeBefore(a: seq<Event>, b: seq<Event>, rest: Option<seq<Event>>)
    ensures Before([], rest) == rest && Before(a, Before(b, rest)) == Before(a + b, rest)
    ensures Before(a, None) == None && Before(a, Some([])) == Some(a)
  {
    assert a + [] == a;
    if rest.Some? {
      assert [] + rest.value == rest.value && a + (b + rest.value) == a + b + rest.value;
    }
  }

  /** A line over the limit leaves the fields alone; an event over the limit has passed the first-line mark. */
  function AfterFailure(max: int, f: Fields, line: Bytes): Fields {
    if |line| > max then f else f.(firstLine := false)
  }

  function Feed(d: Decoder, chunk: Bytes): (Decoder, Option<seq<Event>>) {
    if d.closed then (d, None)
    else if chunk == [] then (d, Some([]))
    else
      var (after, events) := ConsumeLines(d.(buffer := d.buffer + chunk), false);
      (after, if events.Some? && |after.buffer| > d.max then None else events)
  }

  function Close(d: Decoder): (Decoder, Option<seq<Event>>) {
    if d.closed then (d, None)
    else
      var (after, events) := ConsumeLines(d.(closed := true), true);
      if events.None? then (after, None)
      else
        var (fields, last) := Dispatch(after.fields);
        (after.(fields := fields), Some(events.value + last))
  }

  class SSEReader {
    const maxEventBytes: int
    var buffer: Bytes
    var data: Bytes
    var event: Bytes
    var id: Bytes
    var retry: Option<int>
    var seenData: bool
    var firstLine: bool
    var closed: bool

    function Parts(): Fields
      reads this
    {
      Fields(data, event, id, retry, seenData, firstLine)
    }

    function View(): Decoder
      reads this
    {
      Decoder(maxEventBytes, buffer, Parts(), closed)
    }

    /** The accumulated data is empty unless a data field was seen. */
    ghost predicate Valid()
      reads this
    {
      seenData || data == []
    }

    constructor (limit: int)
      ensures Valid() && View() == Decoder(if limit <= 0 then DEFAULT_MAX else limit, [], FRESH, false)
    {
      maxEventBytes := if limit <= 0 then DEFAULT_MAX else limit;
      buffer, data, event, id, retry := [], [], [], [], None;
      seenData, firstLine, closed := false, true, false;
    }

    method FeedChunk(chunk: Bytes) returns (events: Option<seq<Event>>)
      requires Valid()
      modifies this
      ensures Valid() && (View(), events) == Feed(old(View()), chunk)
    {
      if closed {
        return None;
      }
      if |chunk| == 0 {
        return Some([]);
      }
      buffer := buffer + chunk;
      events := ConsumeBuffer(false);
      if events.Some? && |buffer| > maxEventBytes {
        return None;
      }
    }

    method CloseStream() returns (events: Option<seq<Event>>)
      requires Valid()
      modifies this
      ensures Valid() && (View(), events) == Close(old(View()))
    {
      if closed {
        return None;
      }
      closed := true;
      events := ConsumeBuffer(true);
      if events.None? {
        return None;
      }
      var event := DispatchEvent();
      if event.Some? {
        events := Some(events.value + [event.value]);
      } else {
        assert events.value + [] == events.value;
      }
    }

    method ConsumeBuffer(atEOF: bool) returns (events: Option<seq<Event>>)
      requires Valid()
      modifies this
      ensures Valid() && (View(), events) == ConsumeLines(old(View()), atEOF)
    {
      hide Line, NextLine, Before;
      var found := [];
      BeforeBefore([], [], ConsumeLines(View(), atEOF).1);
      while true
        invariant Valid() && closed == old(closed)
        invariant ConsumeLines(old(View()), atEOF).0 == ConsumeLines(View(), atEOF).0
        invariant ConsumeLines(old(View()), atEOF).1 == Before(found, ConsumeLines(View(), atEOF).1)
        decreases |buffer|
      {
        var next := NextSSELine(buffer, atEOF);
        BeforeBefore(found, [], None);
        if next.None? {
          break;
        }
        buffer := buffer[next.value.consumed..];
        var event := ConsumeLine(next.value.line);
        if event.None? {
          return None;
        }
        BeforeBefore(found, event.value, ConsumeLines(View(), atEOF).1);
        found := found + event.value;
      }
      events := Some(found);
    }

    /** The body of the line loop once a line is off the buffer. */
    method ConsumeLine(line: Bytes) returns (event: Option<seq<Event>>)
      requires Valid()
      modifies this`data, this`event, this`id, this`retry, this`seenData, this`firstLine
      ensures Valid()
      ensures var step := Line(maxEventBytes, old(Parts()), line);
              if step.None? then event == None && Parts() == AfterFailure(maxEventBytes, old(Parts()), line)
              else event == Some(step.value.1) && Parts() == step.value.0
    {
      if |line| > maxEventBytes {
        return None;
      }
      var text := line;
      if firstLine {
        firstLine := false;
        text := TrimBOM(line);
      }
      if |text| == 0 {
        var dispatched := DispatchEvent();
        return Some(if dispatched.Some? then [dispatched.value] else []);
      }
      var ok := ConsumeField(text);
      event := if ok then Some([]) else None;
    }

    method ConsumeField(line: Bytes) returns (ok: bool)
      requires Valid() && line != []
      modifies this`data, this`event, this`id, this`retry, this`seenData
      ensures Valid() && ok == Field(maxEventBytes, old(Parts()), line).Some?
      ensures Parts() == if ok then Field(maxEventBytes, old(Parts()), line).value else old(Parts())
    {
      if line[0] == COLON {
        return true;
      }
      var name, value := FieldName(line), FieldValue(line);
      if name == DATA {
        var additional := |value|;
        if seenData {
          additional := additional + 1;
        }
        if |data| + additional > maxEventBytes {
          return false;
        }
        if seenData {
          data := data + [LF];
        }
        data := data + value;
        seenData := true;
      } else if name == EVENT {
        event := value;
      } else if name == ID {
        if 0 !in value {
          id := value;
        }
      } else if name == RETRY {
        var parsed := ParseInt64(value);
        if parsed.Some? && parsed.value >= 0 {
          retry := parsed;
        }
      }
      ok := true;
    }

    method DispatchEvent() returns (dispatched: Option<Event>)
      requires Valid()
      modifies this`data, this`event, this`retry, this`seenData
      ensures Valid() && Parts() == Dispatch(old(Parts())).0
      ensures Dispatch(old(Parts())).1 == if dispatched.Some? then [dispatched.value] else []
    {
      if !seenData {
        event, retry := [], None;
        return None;
      }
      dispatched := Some(Event(event, data, id, retry));
      data, event, retry, seenData := [], [], None, false;
    }
  }
}
