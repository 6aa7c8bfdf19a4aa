/** Reading a streamed body: what it commits, what it shows the client, and where it stops. */
module RequestBody {
  import opened Common
  import opened RequestFlow
  import opened RequestTrace

  datatype EventKind = ErrorEvent(error: Option<Failure>) | Done | Usage | Content

  /** A parsed stream event with the answers it meets: the store's commit and the client's sink. */
  datatype StreamEvent = StreamEvent(kind: EventKind, payload: string, commits: bool, accepted: bool)

  datatype Parsed = Events(events: seq<StreamEvent>) | ParseError(failure: Failure)

  /** A response body: what each read parses to, how reading ends, and what closing the parser yields. */
  datatype Body = Body(parts: seq<Parsed>, endsCleanly: bool, closing: Parsed)

  function Interrupted(): Failure { Failure(StreamInterrupted, false, None) }

  // ---------------------------------------------------------------------------------------------
  // Emission logs
  // ---------------------------------------------------------------------------------------------

  ghost predicate AllDelivered(log: seq<Event>) {
    forall i :: 0 <= i < |log| ==> log[i].Delivered? && !log[i].last
  }

  /** A log that takes the stream from `before` to `after`: one commit, ahead of every delivery. */
  ghost predicate Emission(log: seq<Event>, before: bool, after: bool) {
    if before then after && AllDelivered(log)
    else if after then log != [] && log[0] == Committed && AllDelivered(log[1..])
    else log == []
  }

  lemma EmissionsCompose(a: seq<Event>, b: seq<Event>, x: bool, y: bool, z: bool)
    requires Emission(a, x, y) && Emission(b, y, z)
    ensures Emission(a + b, x, z)
  {
    if !x && y {
      assert (a + b)[1..] == a[1..] + b;
    }
  }

  // ---------------------------------------------------------------------------------------------
  // What the client is shown
  // ---------------------------------------------------------------------------------------------

  /** The payloads a log delivers, in order. */
  function Shown(log: seq<Event>): seq<string> {
    if log == [] then []
    else Shown(log[..|log| - 1]) + if log[|log| - 1].Delivered? then [log[|log| - 1].payload] else []
  }

  lemma ShownAppend(log: seq<Event>, e: Event)
    ensures Shown(log + [e]) == Shown(log) + if e.Delivered? then [e.payload] else []
  {
    assert (log + [e])[..|log|] == log;
  }

  lemma {:induction false} ShownConcat(a: seq<Event>, b: seq<Event>)
    ensures Shown(a + b) == Shown(a) + Shown(b)
    decreases |b|
  {
    if b == [] {
      assert a + b == a;
    } else {
      var front, last := b[..|b| - 1], b[|b| - 1];
      ShownConcat(a, front);
      assert a + b == (a + front) + [last];
      ShownAppend(a + front, last);
    }
  }

  /** What of the events reaches the client: all but done events, errors, and usage nobody asked for. */
  function Deliverable(events: seq<StreamEvent>, streamUsage: bool): seq<string> {
    if events == [] then []
    else
      var e := events[|events| - 1];
      Deliverable(events[..|events| - 1], streamUsage)
        + if e.kind.Content? || (e.kind.Usage? && streamUsage) then [e.payload] else []
  }

  lemma {:induction false} DeliverableConcat(a: seq<StreamEvent>, b: seq<StreamEvent>, streamUsage: bool)
    ensures Deliverable(a + b, streamUsage) == Deliverable(a, streamUsage) + Deliverable(b, streamUsage)
    decreases |b|
  {
    if b == [] {
      assert a + b == a;
    } else {
      DeliverableConcat(a, b[..|b| - 1], streamUsage);
      assert (a + b)[..|a + b| - 1] == a + b[..|b| - 1];
    }
  }

  /** The payload of the last done event, withheld until usage is recorded. */
  function LastDone(events: seq<StreamEvent>, before: Option<string>): Option<string> {
    if events == [] then before
    else if events[|events| - 1].kind.Done? then Some(events[|events| - 1].payload)
    else LastDone(events[..|events| - 1], before)
  }

  lemma {:induction false} LastDoneConcat(a: seq<StreamEvent>, b: seq<StreamEvent>, before: Option<string>)
    ensures LastDone(a + b, before) == LastDone(b, LastDone(a, before))
    decreases |b|
  {
    if b == [] {
      assert a + b == a;
    } else {
      LastDoneConcat(a, b[..|b| - 1], before);
      assert (a + b)[..|a + b| - 1] == a + b[..|b| - 1];
    }
  }

  function EventsIn(p: Parsed): seq<StreamEvent> { if p.Events? then p.events else [] }

  function EventsOf(parts: seq<Parsed>): seq<StreamEvent> {
    if parts == [] then [] else EventsIn(parts[0]) + EventsOf(parts[1..])
  }

  /** All events of a body, whether or not reading gets to them. */
  function BodyEvents(body: Body): seq<StreamEvent> { EventsOf(body.parts + [body.closing]) }

  lemma DeliverableGrows(a: seq<StreamEvent>, b: seq<StreamEvent>, streamUsage: bool)
    requires a <= b
    ensures Deliverable(a, streamUsage) <= Deliverable(b, streamUsage)
  {
    assert b == a + b[|a|..];
    DeliverableConcat(a, b[|a|..], streamUsage);
  }

  // ---------------------------------------------------------------------------------------------
  // How reading goes
  // ---------------------------------------------------------------------------------------------

  /** Whether the client was committed to the stream, the withheld done event, and what went wrong. */
  datatype Reading = Reading(committed: bool, done: Option<string>, error: Option<Failure>)

  const UNREAD := Reading(false, None, None)

  function Emit(r: Reading, e: StreamEvent, streamUsage: bool): Reading {
    if r.error.Some? then r
    else if e.kind.ErrorEvent? then
      r.(error := Some(if e.kind.error.Some? then e.kind.error.value else Interrupted()))
    else if !r.committed && !e.commits then r.(error := Some(StorageFailure()))
    else if e.kind.Done? then Reading(true, Some(e.payload), None)
    else if (e.kind.Usage? && !streamUsage) || e.accepted then r.(committed := true)
    else Reading(true, r.done, Some(Interrupted()))
  }

  function EmitAll(r: Reading, events: seq<StreamEvent>, streamUsage: bool): Reading {
    if events == [] then r
    else Emit(EmitAll(r, events[..|events| - 1], streamUsage), events[|events| - 1], streamUsage)
  }

  function ReadPart(r: Reading, p: Parsed, streamUsage: bool): Reading {
    if r.error.Some? then r
    else if p.ParseError? then r.(error := Some(p.failure))
    else EmitAll(r, p.events, streamUsage)
  }

  function ReadParts(parts: seq<Parsed>, streamUsage: bool): Reading {
    if parts == [] then UNREAD
    else ReadPart(ReadParts(parts[..|parts| - 1], streamUsage), parts[|parts| - 1], streamUsage)
  }

  function ReadWhole(body: Body, streamUsage: bool): Reading {
    var r := ReadParts(body.parts, streamUsage);
    if r.error.Some? then r
    else if !body.endsCleanly then r.(error := Some(Interrupted()))
    else
      var all := ReadPart(r, body.closing, streamUsage);
      if all.error.None? && all.done.None? then all.(error := Some(Interrupted())) else all
  }

  /** An error ends the reading. */
  lemma {:induction false} EmitStuck(r: Reading, events: seq<StreamEvent>, i: nat, streamUsage: bool)
    requires i <= |events| && EmitAll(r, events[..i], streamUsage).error.Some?
    ensures EmitAll(r, events, streamUsage) == EmitAll(r, events[..i], streamUsage)
    decreases |events| - i
  {
    if i == |events| {
      assert events[..i] == events;
    } else {
      assert events[..i + 1][..i] == events[..i];
      EmitStuck(r, events, i + 1, streamUsage);
    }
  }

  lemma EmitNext(r: Reading, events: seq<StreamEvent>, i: nat, streamUsage: bool)
    requires i < |events|
    ensures EmitAll(r, events[..i + 1], streamUsage)
              == Emit(EmitAll(r, events[..i], streamUsage), events[i], streamUsage)
    ensures EmitAll(r, events[..i + 1], streamUsage).error.Some? ==>
              EmitAll(r, events, streamUsage) == EmitAll(r, events[..i + 1], streamUsage)
  {
    assert events[..i + 1][..i] == events[..i];
    if EmitAll(r, events[..i + 1], streamUsage).error.Some? {
      EmitStuck(r, events, i + 1, streamUsage);
    }
  }

  lemma {:induction false} ReadStuck(parts: seq<Parsed>, i: nat, streamUsage: bool)
    requires i <= |parts| && ReadParts(parts[..i], streamUsage).error.Some?
    ensures ReadParts(parts, streamUsage) == ReadParts(parts[..i], streamUsage)
    decreases |parts| - i
  {
    if i == |parts| {
      assert parts[..i] == parts;
    } else {
      assert parts[..i + 1][..i] == parts[..i];
      ReadStuck(parts, i + 1, streamUsage);
    }
  }

  lemma ReadNext(parts: seq<Parsed>, i: nat, streamUsage: bool)
    requires i < |parts|
    ensures ReadParts(parts[..i + 1], streamUsage)
              == ReadPart(ReadParts(parts[..i], streamUsage), parts[i], streamUsage)
    ensures ReadParts(parts[..i + 1], streamUsage).error.Some? ==>
              ReadParts(parts, streamUsage) == ReadParts(parts[..i + 1], streamUsage)
  {
    assert parts[..i + 1][..i] == parts[..i];
    if ReadParts(parts[..i + 1], streamUsage).error.Some? {
      ReadStuck(parts, i + 1, streamUsage);
    }
  }

  /** The first event of the parts, unless one ahead of it did not parse. */
  function Opening(parts: seq<Parsed>): Option<StreamEvent> {
    if parts == [] || parts[0].ParseError? then None
    else if parts[0].events != [] then Some(parts[0].events[0])
    else Opening(parts[1..])
  }

  predicate Opens(e: Option<StreamEvent>) { e.Some? && !e.value.kind.ErrorEvent? && e.value.commits }

  lemma {:induction false} EmitCommits(r: Reading, events: seq<StreamEvent>, streamUsage: bool)
    requires r.error.None?
    ensures EmitAll(r, events, streamUsage).committed <==> r.committed || (events != [] && Opens(Some(events[0])))
    ensures events != [] && !EmitAll(r, events, streamUsage).committed ==> EmitAll(r, events, streamUsage).error.Some?
    decreases |events|
  {
    if |events| > 0 {
      var front := events[..|events| - 1];
      EmitCommits(r, front, streamUsage);
      if front != [] {
        assert front[0] == events[0];
      }
    }
  }

  lemma {:induction false} OpeningAppend(parts: seq<Parsed>, p: Parsed)
    ensures Opening(parts).Some? ==> Opening(parts + [p]) == Opening(parts)
    ensures (forall i :: 0 <= i < |parts| ==> parts[i] == Events([])) ==> Opening(parts + [p]) == Opening([p])
    ensures Opening(parts).None? && Opening(parts + [p]).Some? ==>
              forall i :: 0 <= i < |parts| ==> parts[i] == Events([])
    decreases |parts|
  {
    if parts == [] {
      assert parts + [p] == [p];
    } else {
      assert (parts + [p])[1..] == parts[1..] + [p];
      OpeningAppend(parts[1..], p);
      assert forall i :: 1 <= i < |parts| ==> parts[i] == parts[1..][i - 1];
    }
  }

  /** The parts of a body that get read when nothing goes wrong. */
  function Readable(body: Body): seq<Parsed> {
    if body.endsCleanly then body.parts + [body.closing] else body.parts
  }

  lemma {:induction false} PartsCommit(parts: seq<Parsed>, streamUsage: bool)
    ensures ReadParts(parts, streamUsage).committed <==> Opens(Opening(parts))
    ensures ReadParts(parts, streamUsage).error.None? && !ReadParts(parts, streamUsage).committed ==>
              forall i :: 0 <= i < |parts| ==> parts[i] == Events([])
    ensures (forall i :: 0 <= i < |parts| ==> parts[i] == Events([])) ==> ReadParts(parts, streamUsage) == UNREAD
    decreases |parts|
  {
    hide EmitAll;
    NothingRead(UNREAD, streamUsage);
    if parts != [] {
      var front, last := parts[..|parts| - 1], parts[|parts| - 1];
      PartsCommit(front, streamUsage);
      OpeningAppend(front, last);
      assert parts == front + [last];
      var r := ReadParts(front, streamUsage);
      if last.Events? && r.error.None? {
        EmitCommits(r, last.events, streamUsage);
      }
    }
  }

  /** The client is committed exactly when the first event to be read is no error and its commit is recorded. */
  lemma CommittedExactly(body: Body, streamUsage: bool)
    ensures ReadWhole(body, streamUsage).committed <==> Opens(Opening(Readable(body)))
  {
    PartsCommit(body.parts, streamUsage);
    PartsCommit(body.parts + [body.closing], streamUsage);
    assert (body.parts + [body.closing])[..|body.parts|] == body.parts;
    OpeningAppend(body.parts, body.closing);
  }

  // ---------------------------------------------------------------------------------------------
  // How far reading gets
  // ---------------------------------------------------------------------------------------------

  /** An event that stops the reading: an error, a commit that is not recorded, a delivery the client refuses. */
  predicate Blocks(e: StreamEvent, committed: bool, streamUsage: bool) {
    || e.kind.ErrorEvent? || (!committed && !e.commits)
    || ((e.kind.Content? || (e.kind.Usage? && streamUsage)) && !e.accepted)
  }

  /** The number of events ahead of the first that stops the reading. */
  function Until(events: seq<StreamEvent>, committed: bool, streamUsage: bool): (n: nat)
    ensures n <= |events| && (n < |events| ==> Blocks(events[n], committed || n > 0, streamUsage))
    ensures forall i :: 0 <= i < n ==> !Blocks(events[i], committed || i > 0, streamUsage)
  {
    if events == [] || Blocks(events[0], committed, streamUsage) then 0
    else Until(events[1..], true, streamUsage) + 1
  }

  lemma {:induction false} UntilIs(events: seq<StreamEvent>, committed: bool, streamUsage: bool, n: nat)
    requires n <= |events| && (n < |events| ==> Blocks(events[n], committed || n > 0, streamUsage))
    requires forall i :: 0 <= i < n ==> !Blocks(events[i], committed || i > 0, streamUsage)
    ensures Until(events, committed, streamUsage) == n
    decreases |events|
  {
    hide Blocks;
    if n > 0 {
      UntilIs(events[1..], true, streamUsage, n - 1);
    }
  }

  /** The events that reading can reach: those of the parts ahead of one that does not parse. */
  function Reachable(parts: seq<Parsed>): seq<StreamEvent> {
    if parts == [] || parts[0].ParseError? then [] else parts[0].events + Reachable(parts[1..])
  }

  /** What the client is shown of a body: all that is deliverable ahead of the first event that stops the reading. */
  function Reached(body: Body, streamUsage: bool): seq<string> {
    var all := Reachable(Readable(body));
    Deliverable(all[..Until(all, false, streamUsage)], streamUsage)
  }

  lemma UntilConcat(a: seq<StreamEvent>, b: seq<StreamEvent>, streamUsage: bool)
    requires Until(a, false, streamUsage) == |a|
    ensures Until(a + b, false, streamUsage) == |a| + Until(b, a != [], streamUsage)
  {
    hide Blocks;
    var all, n := a + b, |a| + Until(b, a != [], streamUsage);
    forall i | 0 <= i < n ensures !Blocks(all[i], i > 0, streamUsage) {
      if i < |a| {
        assert all[i] == a[i];
      } else {
        assert all[i] == b[i - |a|];
      }
    }
    assert n < |all| ==> all[n] == b[n - |a|];
    UntilIs(all, false, streamUsage, n);
  }

  lemma UntilStops(a: seq<StreamEvent>, b: seq<StreamEvent>, committed: bool, streamUsage: bool)
    ensures Until(a, committed, streamUsage) < |a| ==>
              Until(a + b, committed, streamUsage) == Until(a, committed, streamUsage)
  {
    hide Blocks;
    var n := Until(a, committed, streamUsage);
    if n < |a| {
      UntilIs(a + b, committed, streamUsage, n);
    }
  }

  /** Nothing has stopped the reading of `sofar`; `events` come next, then `rest`. */
  lemma ShowsUntil(log: seq<Event>, more: seq<Event>, sofar: seq<StreamEvent>, events: seq<StreamEvent>,
                   rest: seq<StreamEvent>, streamUsage: bool)
    requires Shown(log) == Deliverable(sofar, streamUsage) && Until(sofar, false, streamUsage) == |sofar|
    requires Shown(more) == Deliverable(events[..Until(events, sofar != [], streamUsage)], streamUsage)
    ensures var all, n := sofar + (events + rest), Until(events, sofar != [], streamUsage);
            && (n < |events| || rest == [] ==>
                  Shown(log + more) == Deliverable(all[..Until(all, false, streamUsage)], streamUsage))
            && (n == |events| ==> Until(sofar + events, false, streamUsage) == |sofar + events|)
  {
    hide Until, Deliverable, Shown;
    var all, n := sofar + (events + rest), Until(events, sofar != [], streamUsage);
    UntilConcat(sofar, events + rest, streamUsage);
    UntilConcat(sofar, events, streamUsage);
    UntilStops(events, rest, sofar != [], streamUsage);
    ShownConcat(log, more);
    DeliverableConcat(sofar, events[..n], streamUsage);
    if rest == [] {
      assert events + rest == events;
    }
    if n < |events| || rest == [] {
      CutAt(sofar, events, rest, n);
    }
  }

  lemma CutAt(sofar: seq<StreamEvent>, events: seq<StreamEvent>, rest: seq<StreamEvent>, n: nat)
    requires n <= |events|
    ensures (sofar + (events + rest))[..|sofar| + n] == sofar + events[..n]
  {
  }

  /** What is left, and what of it can be reached, after the first `i` parts. */
  lemma PartsFrom(parts: seq<Parsed>, i: nat)
    requires i < |parts|
    ensures EventsOf(parts[i..]) == EventsIn(parts[i]) + EventsOf(parts[i + 1..])
    ensures Reachable(parts[i..]) ==
              if parts[i].ParseError? then [] else parts[i].events + Reachable(parts[i + 1..])
  {
    assert parts[i..][1..] == parts[i + 1..];
  }

  /** At the end of the parts, the closing of a clean body is left. */
  lemma PartsEnd(body: Body)
    ensures var all, readable, n := body.parts + [body.closing], Readable(body), |body.parts|;
            && n <= |readable| && (forall i :: 0 <= i < n ==> readable[i] == body.parts[i] == all[i])
            && EventsOf(all[n..]) == EventsIn(body.closing)
            && all[0..] == all && readable[0..] == readable
            && Reachable(readable[n..]) == if body.endsCleanly then EventsIn(body.closing) else []
  {
    var all, readable, n := body.parts + [body.closing], Readable(body), |body.parts|;
    assert all[n..] == [body.closing];
    OnePart(body.closing);
    if body.endsCleanly {
      assert readable == all;
    } else {
      assert readable[n..] == [];
    }
  }

  lemma OnePart(p: Parsed)
    ensures EventsOf([p]) == EventsIn(p) == Reachable([p])
  {
    assert [p][1..] == [];
  }

  lemma {:induction false} ReachableIsPrefix(parts: seq<Parsed>)
    ensures Reachable(parts) <= EventsOf(parts)
    decreases |parts|
  {
    if parts != [] {
      ReachableIsPrefix(parts[1..]);
    }
  }

  lemma {:induction false} EventsGrow(parts: seq<Parsed>, p: Parsed)
    ensures EventsOf(parts) <= EventsOf(parts + [p])
    decreases |parts|
  {
    if parts != [] {
      EventsGrow(parts[1..], p);
      assert (parts + [p])[1..] == parts[1..] + [p];
    }
  }

  /** The client is shown a prefix of what the body holds for it. */
  lemma ReachedIsPrefix(body: Body, streamUsage: bool)
    ensures Reached(body, streamUsage) <= Deliverable(BodyEvents(body), streamUsage)
  {
    hide Deliverable, Until, Reachable, EventsOf;
    ReachableIsPrefix(Readable(body));
    EventsGrow(body.parts, body.closing);
    var all := Reachable(Readable(body));
    DeliverableGrows(all[..Until(all, false, streamUsage)], BodyEvents(body), streamUsage);
  }

  /** The events of one read, in order: commit before the first, deliver all but the withheld ones. */
  method EmitEvents(events: seq<StreamEvent>, streamUsage: bool, committed: bool, done: Option<string>)
    returns (committed': bool, done': Option<string>, error: Option<Failure>, log: seq<Event>)
    requires done.Some? ==> committed
    ensures Emits(events, streamUsage, Reading(committed, done, None), Reading(committed', done', error), log)
  {
    hide Emission, Deliverable, LastDone, Shown, EmitAll, Until;
    committed', done', error, log := committed, done, None, [];
    ghost var start := Reading(committed, done, None);
    NothingRead(start, streamUsage);
    NothingEmitted(committed);
    EmptyStream(streamUsage, done);
    for i := 0 to |events|
      invariant Emission(log, committed, committed') && (done'.Some? ==> committed') && error.None?
      invariant done' == LastDone(events[..i], done) && Shown(log) == Deliverable(events[..i], streamUsage)
      invariant forall k :: 0 <= k < i ==> !events[k].kind.ErrorEvent?
      invariant committed' <==> committed || i > 0
      invariant forall k :: 0 <= k < i ==> !Blocks(events[k], committed || k > 0, streamUsage)
      invariant Reading(committed', done', None) == EmitAll(start, events[..i], streamUsage)
    {
      var event := events[i];
      EmitNext(start, events, i, streamUsage);
      NextEvent(events, i, streamUsage, done);
      if Blocks(event, committed || i > 0, streamUsage) {
        UntilIs(events, committed, streamUsage, i);
      }
      if event.kind.ErrorEvent? {
        error := if event.kind.error.Some? then event.kind.error else Some(Interrupted());
        return;
      }
      if !committed' {
        if !event.commits {
          error := Some(StorageFailure());
          return;
        }
        Commits(log, committed);
        ShownAppend(log, Committed);
        log := log + [Committed];
        committed' := true;
      }
      if event.kind.Done? {
        done' := Some(event.payload);
        continue;
      }
      if event.kind.Usage? && !streamUsage {
        continue;
      }
      if !event.accepted {
        error := Some(Interrupted());
        return;
      }
      Delivers(log, committed, event.payload);
      ShownAppend(log, Delivered(false, event.payload));
      log := log + [Delivered(false, event.payload)];
    }
    assert events[..|events|] == events;
    UntilIs(events, committed, streamUsage, |events|);
    Harmless(events);
  }

  lemma NothingRead(r: Reading, streamUsage: bool)
    ensures EmitAll(r, [], streamUsage) == r && ReadParts([], streamUsage) == UNREAD
  {
  }

  lemma EmptyStream(streamUsage: bool, done: Option<string>)
    ensures Shown([]) == [] && Deliverable([], streamUsage) == [] && LastDone([], done) == done
  {
  }

  /** What one more event adds. */
  lemma NextEvent(events: seq<StreamEvent>, i: nat, streamUsage: bool, done: Option<string>)
    requires i < |events|
    ensures var e := events[i];
            && Deliverable(events[..i + 1], streamUsage) ==
                 Deliverable(events[..i], streamUsage)
                   + (if e.kind.Content? || (e.kind.Usage? && streamUsage) then [e.payload] else [])
            && LastDone(events[..i + 1], done)
                 == (if e.kind.Done? then Some(e.payload) else LastDone(events[..i], done))
  {
    assert events[..i + 1][..i] == events[..i];
  }

  lemma NothingEmitted(committed: bool)
    ensures Emission([], committed, committed)
  {
  }

  lemma Commits(log: seq<Event>, before: bool)
    requires Emission(log, before, false)
    ensures Emission(log + [Committed], before, true)
  {
  }

  lemma Delivers(log: seq<Event>, before: bool, payload: string)
    requires Emission(log, before, true)
    ensures Emission(log + [Delivered(false, payload)], before, true)
  {
    EmissionsCompose(log, [Delivered(false, payload)], before, true, true);
  }

  ghost predicate NoErrorIn(p: Parsed) {
    p.Events? && forall i :: 0 <= i < |p.events| ==> !p.events[i].kind.ErrorEvent?
  }

  /** What emitting events does, as the reading, the log and the client see it. */
  ghost predicate Emits(events: seq<StreamEvent>, streamUsage: bool, before: Reading, after: Reading, log: seq<Event>) {
    && after == EmitAll(before, events, streamUsage)
    && Emission(log, before.committed, after.committed) && (after.done.Some? ==> after.committed)
    && Shown(log) == Deliverable(events[..Until(events, before.committed, streamUsage)], streamUsage)
    && (after.error.None? <==> Until(events, before.committed, streamUsage) == |events|)
    && (after.error.None? ==>
          && after.done == LastDone(events, before.done) && Shown(log) == Deliverable(events, streamUsage)
          && NoErrorIn(Events(events)) && (after.committed <==> before.committed || events != []))
  }

  /** The reading has come through the first `i` parts with the events `sofar`. */
  ghost predicate Halfway(body: Body, streamUsage: bool, i: nat, sofar: seq<StreamEvent>, r: Reading, log: seq<Event>) {
    && i <= |body.parts| <= |Readable(body)| && r.error.None? && r == ReadParts(body.parts[..i], streamUsage)
    && Emission(log, false, r.committed) && (r.done.Some? ==> r.committed)
    && r.done == LastDone(sofar, None) && Shown(log) == Deliverable(sofar, streamUsage)
    && (forall k :: 0 <= k < i ==> NoErrorIn(body.parts[k]))
    && (r.committed <==> sofar != []) && Until(sofar, false, streamUsage) == |sofar|
    && BodyEvents(body) == sofar + EventsOf((body.parts + [body.closing])[i..])
    && Reachable(Readable(body)) == sofar + Reachable(Readable(body)[i..])
  }

  /** The reading is over, with this result and this log. */
  ghost predicate ReadTo(body: Body, streamUsage: bool, r: Reading, log: seq<Event>) {
    && r == ReadWhole(body, streamUsage) && Emission(log, false, r.committed)
    && Shown(log) == Reached(body, streamUsage)
    && (r.error.None? ==>
          && r.committed && body.endsCleanly && r.done.Some? && r.done == LastDone(BodyEvents(body), None)
          && Shown(log) == Deliverable(BodyEvents(body), streamUsage)
          && (forall k :: 0 <= k < |body.parts| ==> NoErrorIn(body.parts[k])) && NoErrorIn(body.closing))
  }

  lemma HalfwayStart(body: Body, streamUsage: bool)
    ensures Halfway(body, streamUsage, 0, [], UNREAD, [])
  {
    hide EventsOf, Reachable, Readable, Until;
    NothingRead(UNREAD, streamUsage);
    NothingEmitted(false);
    EmptyStream(streamUsage, None);
    PartsEnd(body);
    UntilIs([], false, streamUsage, 0);
    NothingSoFar(BodyEvents(body));
    NothingSoFar(Reachable(Readable(body)));
    assert body.parts[..0] == [];
  }

  /** A part that does not parse ends the reading. */
  lemma HalfwayFails(body: Body, streamUsage: bool, i: nat, sofar: seq<StreamEvent>, r: Reading, log: seq<Event>)
    requires Halfway(body, streamUsage, i, sofar, r, log) && i < |body.parts| && body.parts[i].ParseError?
    ensures ReadTo(body, streamUsage, r.(error := Some(body.parts[i].failure)), log)
  {
    hide Emission, Deliverable, LastDone, Shown, EventsOf, ReadParts, Reachable, Readable, Until, BodyEvents;
    ReadNext(body.parts, i, streamUsage);
    PartsEnd(body);
    PartsFrom(Readable(body), i);
    NothingMore(sofar);
  }

  /** The events of a part end the reading or take it one part further. */
  lemma HalfwayEmits(body: Body, streamUsage: bool, i: nat, sofar: seq<StreamEvent>, r: Reading, log: seq<Event>,
                     r': Reading, more: seq<Event>)
    requires Halfway(body, streamUsage, i, sofar, r, log) && i < |body.parts| && body.parts[i].Events?
    requires Emits(body.parts[i].events, streamUsage, r, r', more)
    ensures if r'.error.Some? then ReadTo(body, streamUsage, r', log + more)
            else Halfway(body, streamUsage, i + 1, sofar + body.parts[i].events, r', log + more)
  {
    hide Emission, Deliverable, LastDone, Shown, EventsOf, ReadParts, Reachable, Readable, Until, EmitAll, NoErrorIn;
    hide BodyEvents;
    var events, readable, parts := body.parts[i].events, Readable(body), body.parts + [body.closing];
    ReadNext(body.parts, i, streamUsage);
    PartsEnd(body);
    PartsFrom(parts, i);
    PartsFrom(readable, i);
    EmissionsCompose(log, more, false, r.committed, r'.committed);
    Continues(log, more, sofar, events, streamUsage);
    ShowsUntil(log, more, sofar, events, Reachable(readable[i + 1..]), streamUsage);
    Regroup(sofar, events, Reachable(readable[i + 1..]));
    Regroup(sofar, events, EventsOf(parts[i + 1..]));
  }

  /** After the last part, a body that broke off or does not close ends the reading. */
  lemma HalfwayEnds(body: Body, streamUsage: bool, sofar: seq<StreamEvent>, r: Reading, log: seq<Event>)
    requires Halfway(body, streamUsage, |body.parts|, sofar, r, log)
    ensures !body.endsCleanly ==> ReadTo(body, streamUsage, r.(error := Some(Interrupted())), log)
    ensures body.endsCleanly && body.closing.ParseError? ==>
              ReadTo(body, streamUsage, r.(error := Some(body.closing.failure)), log)
  {
    hide Emission, Deliverable, LastDone, Shown, EventsOf, ReadParts, Reachable, Readable, Until, BodyEvents, EmitAll;
    PartsEnd(body);
    NothingMore(sofar);
    assert body.parts[..|body.parts|] == body.parts;
  }

  /** The events of the closing end the reading; without a done event it is incomplete. */
  lemma HalfwayCloses(body: Body, streamUsage: bool, sofar: seq<StreamEvent>, r: Reading, log: seq<Event>,
                      r': Reading, more: seq<Event>)
    requires Halfway(body, streamUsage, |body.parts|, sofar, r, log) && body.endsCleanly && body.closing.Events?
    requires Emits(body.closing.events, streamUsage, r, r', more)
    ensures ReadTo(body, streamUsage,
                   if r'.error.None? && r'.done.None? then r'.(error := Some(Interrupted())) else r', log + more)
  {
    hide Emission, Deliverable, LastDone, Shown, EventsOf, ReadParts, Reachable, Readable, Until, EmitAll, NoErrorIn;
    hide BodyEvents;
    var events := body.closing.events;
    PartsEnd(body);
    EmissionsCompose(log, more, false, r.committed, r'.committed);
    Continues(log, more, sofar, events, streamUsage);
    ShowsUntil(log, more, sofar, events, [], streamUsage);
    NothingMore(events);
    assert Reachable(Readable(body)) == sofar + (events + []);
    assert Shown(log + more) == Reached(body, streamUsage);
    hide Reached;
    assert BodyEvents(body) == sofar + events;
    assert body.parts[..|body.parts|] == body.parts;
  }

  /**
   * Reads the body to its end. What is delivered is all the body holds for the client ahead of the first event that
   * stops the reading; success means all of it, from a body that ended cleanly with a done event, which is handed
   * back and still withheld.
   */
  method ReadBody(body: Body, streamUsage: bool)
    returns (committed: bool, done: Option<string>, error: Option<Failure>, log: seq<Event>)
    ensures ReadTo(body, streamUsage, Reading(committed, done, error), log)
  {
    hide Emits, ReadTo, ReadParts, Readable, BodyEvents, Reachable, EventsOf, Until, Deliverable, Shown, NoErrorIn;
    hide Emission, LastDone;
    committed, done, error, log := false, None, None, [];
    ghost var sofar: seq<StreamEvent> := [];
    HalfwayStart(body, streamUsage);
    for i := 0 to |body.parts|
      invariant error.None? && Halfway(body, streamUsage, i, sofar, Reading(committed, done, None), log)
    {
      ghost var before := Reading(committed, done, None);
      if body.parts[i].ParseError? {
        HalfwayFails(body, streamUsage, i, sofar, before, log);
        error := Some(body.parts[i].failure);
        return;
      }
      var more;
      committed, done, error, more := EmitEvents(body.parts[i].events, streamUsage, committed, done);
      HalfwayEmits(body, streamUsage, i, sofar, before, log, Reading(committed, done, error), more);
      log, sofar := log + more, sofar + body.parts[i].events;
      if error.Some? {
        return;
      }
    }
    ghost var before := Reading(committed, done, None);
    HalfwayEnds(body, streamUsage, sofar, before, log);
    if !body.endsCleanly {
      error := Some(Interrupted());
      return;
    }
    if body.closing.ParseError? {
      error := Some(body.closing.failure);
      return;
    }
    var more;
    committed, done, error, more := EmitEvents(body.closing.events, streamUsage, committed, done);
    HalfwayCloses(body, streamUsage, sofar, before, log, Reading(committed, done, error), more);
    log := log + more;
    if error.None? && done.None? {
      error := Some(Interrupted());
    }
  }

  lemma Harmless(events: seq<StreamEvent>)
    ensures (forall i :: 0 <= i < |events| ==> !events[i].kind.ErrorEvent?) ==> NoErrorIn(Events(events))
  {
  }

  lemma Regroup(a: seq<StreamEvent>, b: seq<StreamEvent>, c: seq<StreamEvent>)
    ensures a + (b + c) == a + b + c
  {
  }

  /** Emitting the next events continues what was shown and withheld so far. */
  lemma Continues(log: seq<Event>, more: seq<Event>, sofar: seq<StreamEvent>, events: seq<StreamEvent>,
                  streamUsage: bool)
    ensures Shown(log + more) == Shown(log) + Shown(more)
    ensures Deliverable(sofar + events, streamUsage)
              == Deliverable(sofar, streamUsage) + Deliverable(events, streamUsage)
    ensures LastDone(sofar + events, None) == LastDone(events, LastDone(sofar, None))
  {
    ShownConcat(log, more);
    DeliverableConcat(sofar, events, streamUsage);
    LastDoneConcat(sofar, events, None);
  }

  lemma NothingMore(sofar: seq<StreamEvent>)
    ensures sofar + [] == sofar && sofar[..|sofar|] == sofar
  {
  }

  lemma NothingSoFar(events: seq<StreamEvent>)
    ensures [] + events == events
  {
  }
}
