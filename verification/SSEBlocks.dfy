/** What a stream of server-sent events means: its lines, its blocks, and the event each block declares. */
module SSEBlocks {
  import opened Common
  import opened SSEDecoder
  import opened SSEChunking

  // ---------------------------------------------------------------------------------------------
  // Lines and their terminators
  // ---------------------------------------------------------------------------------------------

  /** A line with the break that ends it. */
  datatype Piece = Piece(line: Bytes, ending: Bytes)

  predicate Unbroken(s: Bytes) { forall i :: 0 <= i < |s| ==> !Break(s[i]) }

  predicate Ending(s: Bytes) { s == [LF] || s == [CR] || s == [CR, LF] }

  function Rendered(pieces: seq<Piece>, last: Bytes): Bytes {
    if pieces == [] then last else pieces[0].line + pieces[0].ending + Rendered(pieces[1..], last)
  }

  function LinesOf(pieces: seq<Piece>): seq<Bytes> {
    if pieces == [] then [] else [pieces[0].line] + LinesOf(pieces[1..])
  }

  /** Proper lines and endings; a lone CR is not followed by an LF, which would belong to it. */
  predicate Proper(pieces: seq<Piece>, last: Bytes)
    decreases |pieces|
  {
    if pieces == [] then Unbroken(last)
    else
      && Unbroken(pieces[0].line) && Ending(pieces[0].ending)
      && (pieces[0].ending == [CR] ==> !([LF] <= Rendered(pieces[1..], last)))
      && Proper(pieces[1..], last)
  }

  /** Lines end at LF, CR LF or a lone CR, in any mix; a last line needs no ending, and an empty one is none. */
  lemma {:induction false} LinesReadBack(pieces: seq<Piece>, last: Bytes)
    requires Proper(pieces, last)
    ensures Lines(Rendered(pieces, last)) == LinesOf(pieces) + if last == [] then [] else [last]
    decreases |pieces|
  {
    if pieces == [] {
      LineLengthIs(last, |last|);
    } else {
      LinesReadBack(pieces[1..], last);
      TakesPiece(pieces[0], Rendered(pieces[1..], last));
    }
  }

  lemma TakesPiece(p: Piece, rest: Bytes)
    requires Unbroken(p.line) && Ending(p.ending) && (p.ending == [CR] ==> !([LF] <= rest))
    ensures Lines(p.line + p.ending + rest) == [p.line] + Lines(rest)
  {
    var s, n := p.line + p.ending + rest, |p.line|;
    assert s[n] == p.ending[0];
    LineLengthIs(s, n);
    assert n + |p.ending| < |s| ==> s[n + |p.ending|] == rest[0];
    assert |p.ending| == 2 ==> s[n + 1] == p.ending[1];
    assert s[..n] == p.line && s[n + |p.ending|..] == rest;
    assert BreakLength(s, n) == |p.ending|;
  }

  /** Every input is such a sequence of lines. */
  lemma {:induction false} EveryInputIsLines(s: Bytes) returns (pieces: seq<Piece>, last: Bytes)
    ensures Proper(pieces, last) && Rendered(pieces, last) == s
    decreases |s|
  {
    var n := LineLength(s);
    if n == |s| {
      pieces, last := [], s;
    } else {
      var rest, p := s[n + BreakLength(s, n)..], FirstPiece(s);
      FirstPieceFits(s);
      var more;
      more, last := EveryInputIsLines(rest);
      pieces := [p] + more;
      assert pieces[1..] == more;
    }
  }

  function FirstPiece(s: Bytes): Piece
    requires LineLength(s) < |s|
  {
    var n := LineLength(s);
    Piece(s[..n], s[n..n + BreakLength(s, n)])
  }

  lemma FirstPieceFits(s: Bytes)
    requires LineLength(s) < |s|
    ensures var n, p := LineLength(s), FirstPiece(s);
            var rest := s[n + BreakLength(s, n)..];
            && s == p.line + p.ending + rest && Unbroken(p.line) && Ending(p.ending)
            && (p.ending == [CR] ==> !([LF] <= rest))
  {
    hide LineLength, BreakLength;
    BreakIsEnding(s, LineLength(s));
    CutTwice(s, LineLength(s), BreakLength(s, LineLength(s)));
  }

  lemma BreakIsEnding(s: Bytes, n: nat)
    requires n < |s| && Break(s[n])
    ensures var k := BreakLength(s, n);
            var ending, rest := s[n..n + k], s[n + k..];
            Ending(ending) && (ending == [CR] ==> !([LF] <= rest))
  {
    if BreakLength(s, n) == 1 {
      assert s[n..n + 1] == [s[n]];
    } else {
      assert s[n..n + 2] == [CR, LF];
    }
  }

  lemma CutTwice(s: Bytes, n: nat, k: nat)
    requires n + k <= |s|
    ensures s == s[..n] + s[n..n + k] + s[n + k..]
  {
  }

  // ---------------------------------------------------------------------------------------------
  // Fields
  // ---------------------------------------------------------------------------------------------

  /** The name runs up to the first colon; the value is what follows it, less one leading space. */
  ghost predicate Splits(line: Bytes, name: Bytes, value: Bytes) {
    && COLON !in name
    && (|| (line == name && value == [])
        || line == name + [COLON, SPACE] + value
        || (line == name + [COLON] + value && !([SPACE] <= value)))
  }

  lemma {:induction false} SplitsExactly(line: Bytes, name: Bytes, value: Bytes)
    ensures Splits(line, name, value) <==> name == FieldName(line) && value == FieldValue(line)
    decreases |line|
  {
    if line == [] {
    } else if line[0] == COLON {
      SplitsAtColon(line, name, value);
    } else {
      if name != [] {
        SplitsExactly(line[1..], name[1..], value);
        SplitsLater(line, name, value);
      } else {
        assert line != [] + [COLON, SPACE] + value && line != [] + [COLON] + value;
      }
    }
  }

  lemma SplitsAtColon(line: Bytes, name: Bytes, value: Bytes)
    requires line != [] && line[0] == COLON
    ensures Splits(line, name, value) <==> name == [] && value == FieldValue(line)
  {
    if name != [] {
      assert COLON !in name ==> name[0] != COLON;
      assert (name + [COLON, SPACE] + value)[0] == name[0] && (name + [COLON] + value)[0] == name[0];
    } else {
      assert [] + [COLON, SPACE] + value == [COLON, SPACE] + value && [] + [COLON] + value == [COLON] + value;
      assert line == [COLON] + line[1..];
      assert |line| > 1 && line[1] == SPACE ==> line == [COLON, SPACE] + line[2..];
      assert line == [COLON, SPACE] + value ==> value == line[2..];
      assert line == [COLON] + value ==> value == line[1..];
    }
  }

  lemma SplitsLater(line: Bytes, name: Bytes, value: Bytes)
    requires line != [] && name != [] && line[0] != COLON
    ensures Splits(line, name, value) <==> line[0] == name[0] && Splits(line[1..], name[1..], value)
  {
    var first, rest := [name[0]], name[1..];
    assert name == first + rest;
    assert name + [COLON, SPACE] + value == first + (rest + [COLON, SPACE] + value);
    assert name + [COLON] + value == first + (rest + [COLON] + value);
    assert line == [line[0]] + line[1..];
    Shifted(line, name[0], rest);
    Shifted(line, name[0], rest + [COLON, SPACE] + value);
    Shifted(line, name[0], rest + [COLON] + value);
    assert COLON in rest ==> COLON in name;
  }

  lemma Shifted(line: Bytes, b: Byte, rest: Bytes)
    requires line != []
    ensures line == [b] + rest <==> line[0] == b && line[1..] == rest
  {
    assert line == [line[0]] + line[1..];
  }

  /** The values of the lines with this field name, in order. */
  function Values(block: seq<Bytes>, name: Bytes): seq<Bytes> {
    if block == [] then []
    else
      var line := block[|block| - 1];
      Values(block[..|block| - 1], name) + if FieldName(line) == name then [FieldValue(line)] else []
  }

  lemma ValuesAppend(block: seq<Bytes>, line: Bytes, name: Bytes)
    ensures Values(block + [line], name)
              == Values(block, name) + if FieldName(line) == name then [FieldValue(line)] else []
  {
    assert (block + [line])[..|block|] == block;
  }

  /** The values joined by line feeds. */
  function Joined(values: seq<Bytes>): Bytes {
    if values == [] then []
    else if |values| == 1 then values[0]
    else Joined(values[..|values| - 1]) + [LF] + values[|values| - 1]
  }

  lemma JoinedAppend(values: seq<Bytes>, value: Bytes)
    ensures Joined(values + [value]) == Joined(values) + (if values == [] then [] else [LF]) + value
  {
    assert (values + [value])[..|values|] == values;
  }

  function LastOf<T>(values: seq<T>, otherwise: T): T {
    if values == [] then otherwise else values[|values| - 1]
  }

  /** Identifiers with a NUL are ignored. */
  function Identifiers(values: seq<Bytes>): seq<Bytes> {
    if values == [] then []
    else Identifiers(values[..|values| - 1]) + if 0 in values[|values| - 1] then [] else [values[|values| - 1]]
  }

  /** Only non-negative decimal numbers count. */
  function Delays(values: seq<Bytes>): seq<int> {
    if values == [] then []
    else
      var n := ParseInt64(values[|values| - 1]);
      Delays(values[..|values| - 1]) + if n.Some? && n.value >= 0 then [n.value] else []
  }

  function IdAfter(block: seq<Bytes>, id: Bytes): Bytes { LastOf(Identifiers(Values(block, ID)), id) }

  function RetryOf(block: seq<Bytes>): Option<int> {
    var delays := Delays(Values(block, RETRY));
    if delays == [] then None else Some(delays[|delays| - 1])
  }

  /** The identifier is the last one seen so far, whatever blocks it was seen in. */
  lemma {:induction false} IdSpansBlocks(a: seq<Bytes>, b: seq<Bytes>, id: Bytes)
    ensures IdAfter(a + b, id) == IdAfter(b, IdAfter(a, id))
    ensures IdAfter(a + [[]] + b, id) == IdAfter(b, IdAfter(a, id))
    decreases |b|
  {
    hide IdAfter;
    if b == [] {
      assert a + b == a && a + [[]] + b == a + [[]];
      IdAppend(a, [], id);
      NoIdentifier(IdAfter(a, id));
    } else {
      var front, last := b[..|b| - 1], b[|b| - 1];
      IdSpansBlocks(a, front, id);
      assert b == front + [last];
      assert a + b == a + front + [last] && a + [[]] + b == a + [[]] + front + [last];
      IdAppend(a + front, last, id);
      IdAppend(a + [[]] + front, last, id);
      IdAppend(front, last, IdAfter(a, id));
    }
  }

  lemma NoIdentifier(id: Bytes)
    ensures IdAfter([], id) == id
  {
  }

  function Decimal(n: nat): Bytes {
    if n < 10 then [48 + n as Byte] else Decimal(n / 10) + [48 + (n % 10) as Byte]
  }

  lemma {:induction false} DecimalReads(n: nat)
    ensures Decimal(n) != [] && (forall i :: 0 <= i < |Decimal(n)| ==> Digit(Decimal(n)[i])) && Digits(Decimal(n)) == n
  {
    if n < 10 {
      OneDigit(48 + n as Byte);
    } else {
      DecimalReads(n / 10);
      DigitsAppend(Decimal(n / 10), 48 + (n % 10) as Byte);
    }
  }

  lemma OneDigit(b: Byte)
    requires Digit(b)
    ensures Digits([b]) == (b - 48) as int
  {
    assert [b][..0] == [];
  }

  lemma DigitsAppend(s: Bytes, b: Byte)
    requires Digit(b)
    ensures Digits(s + [b]) == Digits(s) * 10 + (b - 48) as int
  {
    assert (s + [b])[..|s|] == s;
  }

  /** A retry value is the number its decimal digits denote, as far as it fits 64 bits. */
  lemma NumbersReadBack(n: nat)
    ensures ParseInt64(Decimal(n)) == if n < 0x8000_0000_0000_0000 then Some(n) else None
    ensures ParseInt64([43] + Decimal(n)) == ParseInt64(Decimal(n))
    ensures ParseInt64([45] + Decimal(n)) == if n <= 0x8000_0000_0000_0000 then Some(0 - n) else None
  {
    hide Digits, Decimal;
    DecimalReads(n);
    var digits := Decimal(n);
    assert ([43] + digits)[1..] == digits && ([45] + digits)[1..] == digits;
    assert Digit(digits[0]);
  }

  // ---------------------------------------------------------------------------------------------
  // Blocks
  // ---------------------------------------------------------------------------------------------

  function DataOf(block: seq<Bytes>): Bytes { Joined(Values(block, DATA)) }

  /** The event a block declares: none without a data line. */
  function Declared(block: seq<Bytes>, id: Bytes): seq<Event> {
    if Values(block, DATA) == [] then []
    else [Event(LastOf(Values(block, EVENT), []), DataOf(block), IdAfter(block, id), RetryOf(block))]
  }

  /** The fields in the middle of a block. */
  function Pending(block: seq<Bytes>, id: Bytes): Fields {
    Fields(DataOf(block), LastOf(Values(block, EVENT), []), IdAfter(block, id), RetryOf(block),
           Values(block, DATA) != [], false)
  }

  function Between(id: Bytes): Fields { Fields([], [], id, None, false, false) }

  lemma PendingNothing(id: Bytes)
    ensures Pending([], id) == Between(id) && DataOf([]) == []
  {
  }

  lemma IdAppend(block: seq<Bytes>, line: Bytes, id: Bytes)
    ensures IdAfter(block + [line], id) ==
              if FieldName(line) == ID && !(0 in FieldValue(line)) then FieldValue(line) else IdAfter(block, id)
  {
    hide FieldName, FieldValue, Values, Identifiers;
    ValuesAppend(block, line, ID);
    IdentifiersAppend(Values(block, ID), FieldValue(line));
    assert Values(block, ID) + [] == Values(block, ID);
  }

  lemma DelaysAppend(values: seq<Bytes>, value: Bytes)
    ensures var n := ParseInt64(value);
            Delays(values + [value]) == if n.Some? && n.value >= 0 then Delays(values) + [n.value] else Delays(values)
  {
    hide ParseInt64;
    assert (values + [value])[..|values|] == values;
  }

  lemma IdentifiersAppend(values: seq<Bytes>, value: Bytes)
    ensures Identifiers(values + [value]) == if 0 in value then Identifiers(values) else Identifiers(values) + [value]
  {
    assert (values + [value])[..|values|] == values;
  }

  lemma RetryAppend(block: seq<Bytes>, line: Bytes)
    ensures RetryOf(block + [line]) ==
              var n := ParseInt64(FieldValue(line));
              if FieldName(line) == RETRY && n.Some? && n.value >= 0 then n else RetryOf(block)
  {
    hide ParseInt64, FieldName, FieldValue, Values, Delays;
    ValuesAppend(block, line, RETRY);
    DelaysAppend(Values(block, RETRY), FieldValue(line));
    assert Values(block, RETRY) + [] == Values(block, RETRY);
  }

  lemma EventAppend(block: seq<Bytes>, line: Bytes)
    ensures LastOf(Values(block + [line], EVENT), []) ==
              if FieldName(line) == EVENT then FieldValue(line) else LastOf(Values(block, EVENT), [])
  {
    hide FieldName, FieldValue, Values;
    ValuesAppend(block, line, EVENT);
    assert Values(block, EVENT) + [] == Values(block, EVENT);
  }

  lemma DataAppend(block: seq<Bytes>, line: Bytes)
    ensures var none := Values(block, DATA) == [];
            if FieldName(line) == DATA then
              && Values(block + [line], DATA) != []
              && DataOf(block + [line]) == DataOf(block) + (if none then [] else [LF]) + FieldValue(line)
            else DataOf(block + [line]) == DataOf(block) && (Values(block + [line], DATA) == [] <==> none)
  {
    hide FieldName, FieldValue, Values, Joined;
    ValuesAppend(block, line, DATA);
    assert Values(block, DATA) + [] == Values(block, DATA);
    JoinedAppend(Values(block, DATA), FieldValue(line));
  }

  lemma CommentHasNoName(line: Bytes)
    requires line != [] && line[0] == COLON
    ensures FieldName(line) == []
  {
  }

  /** One more line of a block is one more line of its meaning. */
  lemma FieldExtends(max: int, block: seq<Bytes>, id: Bytes, line: Bytes)
    requires line != [] && |line| <= max && |DataOf(block)| <= max
    ensures Line(max, Pending(block, id), line) ==
              if |DataOf(block + [line])| <= max then Some((Pending(block + [line], id), [])) else None
  {
    hide FieldName, FieldValue, Values, DataOf, IdAfter, RetryOf, LastOf, ParseInt64;
    DataAppend(block, line);
    EventAppend(block, line);
    IdAppend(block, line, id);
    RetryAppend(block, line);
    if line[0] == COLON {
      CommentHasNoName(line);
    }
  }

  lemma {:induction false} DataGrows(block: seq<Bytes>, more: seq<Bytes>)
    ensures |DataOf(block)| <= |DataOf(block + more)|
    decreases |more|
  {
    hide Values, DataOf;
    if more == [] {
      assert block + more == block;
    } else {
      var front, last := more[..|more| - 1], more[|more| - 1];
      DataGrows(block, front);
      assert block + more == block + front + [last];
      DataAppend(block + front, last);
    }
  }

  predicate NonBlank(lines: seq<Bytes>) { forall i :: 0 <= i < |lines| ==> lines[i] != [] }

  predicate Short(max: int, lines: seq<Bytes>) { forall i :: 0 <= i < |lines| ==> |lines[i]| <= max }

  /** The lines of a block read as its meaning, exactly when each of them and the joined data are within the limit. */
  lemma {:induction false} BlockReads(max: int, before: seq<Bytes>, lines: seq<Bytes>, id: Bytes)
    requires NonBlank(lines) && |DataOf(before)| <= max
    ensures Interpret(max, Pending(before, id), lines) ==
              if Short(max, lines) && |DataOf(before + lines)| <= max then Some((Pending(before + lines, id), []))
              else None
    decreases |lines|
  {
    hide Line, Pending, DataOf;
    if lines == [] {
      assert before + lines == before;
    } else {
      var line, rest, next := lines[0], lines[1..], before + [lines[0]];
      assert next + rest == before + lines;
      DataGrows(next, rest);
      ShortSplits(max, lines);
      if |line| > max {
        TooLong(max, Pending(before, id), line);
      } else {
        FieldExtends(max, before, id, line);
        if |DataOf(next)| <= max {
          BlockReads(max, next, rest, id);
          NoEvents(Interpret(max, Pending(next, id), rest));
        }
      }
    }
  }

  lemma TooLong(max: int, f: Fields, line: Bytes)
    requires |line| > max
    ensures Line(max, f, line) == None
  {
  }

  lemma ShortSplits(max: int, lines: seq<Bytes>)
    requires lines != []
    ensures Short(max, lines) <==> |lines[0]| <= max && Short(max, lines[1..])
  {
  }

  lemma BlankDispatches(max: int, block: seq<Bytes>, id: Bytes)
    requires max >= 0
    ensures Line(max, Pending(block, id), []) == Some((Between(IdAfter(block, id)), Declared(block, id)))
    ensures Dispatch(Pending(block, id)).1 == Declared(block, id)
  {
    hide Values, DataOf, IdAfter, RetryOf;
  }

  /**
   * A block of non-blank lines ended by a blank one yields exactly the event it declares, and leaves nothing behind
   * but the last identifier.
   */
  lemma BlockMeaning(max: int, block: seq<Bytes>, id: Bytes)
    requires max >= 0 && NonBlank(block)
    ensures Interpret(max, Between(id), block + [[]]) ==
              if Short(max, block) && |DataOf(block)| <= max
              then Some((Between(IdAfter(block, id)), Declared(block, id))) else None
  {
    hide Line, Pending, DataOf, Declared, IdAfter, Short;
    PendingNothing(id);
    assert [] + block == block;
    BlockReads(max, [], block, id);
    InterpretThenOne(max, Between(id), block, []);
    BlankDispatches(max, block, id);
    assert [] + Declared(block, id) == Declared(block, id);
  }

  lemma {:induction false} InterpretThenOne(max: int, f: Fields, lines: seq<Bytes>, line: Bytes)
    ensures Interpret(max, f, lines + [line]) ==
              var r := Interpret(max, f, lines);
              if r.None? then None
              else
                var step := Line(max, r.value.0, line);
                if step.None? then None else Some((step.value.0, r.value.1 + step.value.1))
    decreases |lines|
  {
    hide Line;
    var all := lines + [line];
    if lines == [] {
      assert all == [line];
      NoEvents(Line(max, f, line));
    } else {
      assert all[0] == lines[0] && all[1..] == lines[1..] + [line];
      var step := Line(max, f, lines[0]);
      if step.Some? {
        InterpretThenOne(max, step.value.0, lines[1..], line);
        var r := Interpret(max, step.value.0, lines[1..]);
        if r.Some? && Line(max, r.value.0, line).Some? {
          InOrder(step.value.1, r.value.1, Line(max, r.value.0, line).value.1);
        }
      }
    }
  }

  lemma InOrder(a: seq<Event>, b: seq<Event>, c: seq<Event>)
    ensures a + (b + c) == a + b + c
  {
  }

  lemma NoEvents(step: Option<(Fields, seq<Event>)>)
    ensures step.Some? ==> step.value.1 + [] == step.value.1 && [] + step.value.1 == step.value.1
  {
  }

  // ---------------------------------------------------------------------------------------------
  // Whole streams
  // ---------------------------------------------------------------------------------------------

  /** The number of leading non-blank lines. */
  function BlockLength(lines: seq<Bytes>): (n: nat)
    ensures n <= |lines| && NonBlank(lines[..n]) && (n < |lines| ==> lines[n] == [])
  {
    if lines == [] || lines[0] == [] then 0
    else
      assert forall i :: 1 <= i <= |lines[1..]| ==> lines[i] == lines[1..][i - 1];
      BlockLength(lines[1..]) + 1
  }

  /** The events of all blocks; the last one needs no blank line. */
  function Meaning(lines: seq<Bytes>, id: Bytes): seq<Event>
    decreases |lines|
  {
    var n := BlockLength(lines);
    if n == |lines| then Declared(lines, id)
    else Declared(lines[..n], id) + Meaning(lines[n + 1..], IdAfter(lines[..n], id))
  }

  /** Every block's data is within the limit. */
  predicate SmallBlocks(max: int, lines: seq<Bytes>)
    decreases |lines|
  {
    var n := BlockLength(lines);
    |DataOf(lines[..n])| <= max && (n < |lines| ==> SmallBlocks(max, lines[n + 1..]))
  }

  lemma {:induction false} LinesMean(max: int, lines: seq<Bytes>, id: Bytes)
    requires max >= 0
    ensures Finish(max, Between(id), lines) ==
              if Short(max, lines) && SmallBlocks(max, lines) then Some(Meaning(lines, id)) else None
    decreases |lines|
  {
    hide Interpret, DataOf, Declared, IdAfter, Short, Dispatch, Pending;
    var n := BlockLength(lines);
    if n == |lines| {
      assert lines[..n] == lines && [] + lines == lines;
      PendingNothing(id);
      BlockReads(max, [], lines, id);
      BlankDispatches(max, lines, id);
      assert [] + Declared(lines, id) == Declared(lines, id);
    } else {
      var block, rest := lines[..n], lines[n + 1..];
      assert lines == block + [[]] + rest;
      BlockMeaning(max, block, id);
      InterpretConcat(max, Between(id), block + [[]], rest);
      LinesMean(max, rest, IdAfter(block, id));
      ShortConcat(max, block, rest);
    }
  }

  lemma ShortConcat(max: int, block: seq<Bytes>, rest: seq<Bytes>)
    requires max >= 0
    ensures Short(max, block + [[]] + rest) <==> Short(max, block) && Short(max, rest)
  {
    var all := block + [[]] + rest;
    assert forall i :: 0 <= i < |block| ==> all[i] == block[i];
    assert forall i :: 0 <= i < |rest| ==> all[|block| + 1 + i] == rest[i];
  }

  /** The lines without a byte order mark at the very start. */
  function WithoutBOM(lines: seq<Bytes>): seq<Bytes> {
    if lines == [] then [] else [TrimBOM(lines[0])] + lines[1..]
  }

  lemma FirstLineTrims(max: int, line: Bytes)
    ensures Line(max, FRESH, line) == if |line| > max then None else Line(max, Between([]), TrimBOM(line))
  {
    hide Field;
  }

  /**
   * The whole input, in any mix of line endings: the events its blocks declare, in order, if every line and every
   * block's data is within the limit, and nothing otherwise. A byte order mark counts only at the very start.
   */
  lemma StreamMeaning(max: int, input: Bytes)
    requires max >= 0
    ensures var lines := WithoutBOM(Lines(input));
            Reference(max, input) ==
              if Short(max, Lines(input)) && SmallBlocks(max, lines) then Some(Meaning(lines, [])) else None
  {
    hide Line, SmallBlocks, Meaning, TrimBOM, Dispatch;
    var all := Lines(input);
    var lines := WithoutBOM(all);
    LinesMean(max, lines, []);
    if all == [] {
      NothingFinishes(max);
    } else {
      FirstLineTrims(max, all[0]);
      assert lines[0] == TrimBOM(all[0]) && lines[1..] == all[1..];
      if |all[0]| <= max {
        ShortSplits(max, all);
        ShortSplits(max, lines);
        TrimNeverGrows(all[0]);
      }
    }
  }

  /** Every run of the decoder, however the input is cut: the same events, unless a Feed stalls over the limit. */
  lemma RunMeaning(max: int, chunks: seq<Bytes>)
    requires max >= 0
    ensures var all := Lines(Concat(chunks));
            var lines := WithoutBOM(all);
            Decode(New(max), chunks) ==
              if !StallsSomewhere(max, [], chunks) && Short(max, all) && SmallBlocks(max, lines)
              then Some(Meaning(lines, [])) else None
  {
    hide Decode, Reference, Lines, StallsSomewhere, Short, SmallBlocks, Meaning, WithoutBOM;
    DecodeExact(max, chunks);
    StreamMeaning(max, Concat(chunks));
  }

  lemma TrimNeverGrows(line: Bytes)
    ensures |TrimBOM(line)| <= |line|
  {
  }

  lemma NothingFinishes(max: int)
    ensures Finish(max, FRESH, []) == Finish(max, Between([]), [])
  {
  }
}
