/** The gate over the queue: callers wait on one-shot channels, own permits, and may leave at any moment. */
module AdmissionGate {
  import opened Common
  import opened AdmissionQueue
  import opened AdmissionInvariant
  import opened AdmissionDispatch

  datatype Outcome = Grant(ticket: Ticket, admittedAt: int) | TimedOut

  /** Where an Acquire call stands: in its select, past it on the cancel or timer branch, or returned. */
  datatype Phase = Selecting | Leaving | Returned

  /** An Acquire call whose request was enqueued, with the buffer of its channel (capacity one). */
  datatype Call = Call(id: TicketID, phase: Phase, channel: seq<Outcome>) {
    predicate Open() { !phase.Returned? }
  }

  /** A permit handed out; its release runs once. */
  datatype Permit = Permit(id: TicketID, released: bool)

  /** `waiters` maps a ticket to the call whose channel it is. */
  datatype GateState = GateState(queue: State, waiters: map<TicketID, nat>, calls: seq<Call>, permits: seq<Permit>)

  datatype Delivery = Sent | Blocked | NoWaiter

  // ---------------------------------------------------------------------------------------------
  // Delivery and dispatch
  // ---------------------------------------------------------------------------------------------

  function Send(calls: seq<Call>, c: nat, outcome: Outcome): seq<Call>
    requires c < |calls|
  {
    calls[c := calls[c].(channel := calls[c].channel + [outcome])]
  }

  function Deliver(g: GateState, id: TicketID, outcome: Outcome): (GateState, Delivery) {
    var without := g.(waiters := g.waiters - {id});
    if id !in g.waiters || g.waiters[id] >= |g.calls| then (without, NoWaiter)
    else
      var c := g.waiters[id];
      (without.(calls := Send(g.calls, c, outcome)), if g.calls[c].channel == [] then Sent else Blocked)
  }

  function DeliverExpired(g: GateState, tickets: seq<Ticket>): (GateState, seq<Delivery>) {
    if tickets == [] then (g, [])
    else
      var (before, log) := DeliverExpired(g, tickets[..|tickets| - 1]);
      var (after, delivery) := Deliver(before, tickets[|tickets| - 1].id, TimedOut);
      (after, log + [delivery])
  }

  /** A grant nobody waits for gives its slot back. */
  function DeliverGrant(g: GateState, ticket: Ticket, now: int): (GateState, Delivery) {
    var (after, delivery) := Deliver(g, ticket.id, Grant(ticket, now));
    (if delivery.NoWaiter? then after.(queue := Release(after.queue, ticket.id).0) else after, delivery)
  }

  function DeliverAdmitted(g: GateState, tickets: seq<Ticket>, now: int): (GateState, seq<Delivery>) {
    if tickets == [] then (g, [])
    else
      var (before, log) := DeliverAdmitted(g, tickets[..|tickets| - 1], now);
      var (after, delivery) := DeliverGrant(before, tickets[|tickets| - 1], now);
      (after, log + [delivery])
  }

  function DispatchGate(config: Config, g: GateState, now: int): (GateState, seq<Delivery>)
    requires Inv(config, g.queue)
  {
    var d := Dispatch(config, g.queue, now);
    var (expired, log) := DeliverExpired(g.(queue := d.state), d.expired);
    var (admitted, log') := DeliverAdmitted(expired, d.admitted, now);
    (admitted, log + log')
  }

  // ---------------------------------------------------------------------------------------------
  // The gate object
  // ---------------------------------------------------------------------------------------------

  class Gate {
    const queue: Queue
    var waiters: map<TicketID, nat>
    var calls: seq<Call>
    var permits: seq<Permit>

    function View(): GateState
      reads this, queue
    {
      GateState(queue.View(), waiters, calls, permits)
    }

    constructor (config: Config)
      requires config.Valid()
      ensures fresh(queue) && queue.config == config && View() == GateState(EMPTY, map[], [], [])
    {
      queue := new Queue(config);
      waiters, calls, permits := map[], [], [];
    }

    method DeliverLocked(id: TicketID, outcome: Outcome) returns (delivered: bool)
      modifies this
      ensures var (after, delivery) := Deliver(old(View()), id, outcome);
              View() == after && delivered == !delivery.NoWaiter?
    {
      var waiter := if id in waiters && waiters[id] < |calls| then Some(waiters[id]) else None;
      waiters := waiters - {id};
      if waiter.None? {
        return false;
      }
      calls := Send(calls, waiter.value, outcome);
      delivered := true;
    }

    method DispatchLocked(now: int)
      requires Inv(queue.config, queue.View())
      modifies this, queue
      ensures View() == DispatchGate(queue.config, old(View()), now).0
    {
      hide Inv, Dispatch, Deliver;
      var expired, admitted := DispatchQueue(queue, now);
      ghost var start := View();
      for i := 0 to |expired|
        invariant View() == DeliverExpired(start, expired[..i]).0
      {
        assert expired[..i + 1][..i] == expired[..i];
        var _ := DeliverLocked(expired[i].id, TimedOut);
      }
      assert expired[..|expired|] == expired;
      ghost var middle := View();
      for i := 0 to |admitted|
        invariant View() == DeliverAdmitted(middle, admitted[..i], now).0
      {
        assert admitted[..i + 1][..i] == admitted[..i];
        var delivered := DeliverLocked(admitted[i].id, Grant(admitted[i], now));
        if !delivered {
          var _ := queue.ReleaseTicket(admitted[i].id);
        }
      }
      assert admitted[..|admitted|] == admitted;
    }

    /** The locked part of Acquire; an accepted call gets the next entry of the call table. */
    method BeginAcquire(r: Request, enqueuedAt: int, dispatchedAt: int) returns (result: EnqueueResult)
      requires Inv(queue.config, queue.View())
      modifies this, queue
      ensures View() == Begin(queue.config, old(View()), r, enqueuedAt, dispatchedAt).0
      ensures result == Enqueue(queue.config, old(queue.View()), r, enqueuedAt).1
    {
      hide Inv, Enqueue, DispatchGate;
      EnqueueKeepsInv(queue.config, queue.View(), r, enqueuedAt);
      result := queue.EnqueueRequest(r, enqueuedAt);
      if !result.Queued? {
        RefusedEnqueue(queue.config, old(queue.View()), r, enqueuedAt);
        return;
      }
      waiters := waiters[result.ticket.id := |calls|];
      calls := calls + [Call(result.ticket.id, Selecting, [])];
      DispatchLocked(dispatchedAt);
    }

    /** The cancel or timer branch of Acquire. */
    method CancelCall(c: nat, now: int)
      requires c < |calls| && Inv(queue.config, queue.View())
      modifies this, queue
      ensures View() == Leave(queue.config, old(View()), c, now).0
    {
      hide Inv, Cancel, DispatchGate;
      var id := calls[c].id;
      CancelKeepsInv(queue.config, queue.View(), id);
      calls := calls[c := calls[c].(phase := Returned)];
      waiters := waiters - {id};
      var _ := queue.CancelTicket(id);
      DispatchLocked(now);
    }

    method ReleasePermit(p: nat, now: int)
      requires p < |permits| && Inv(queue.config, queue.View())
      modifies this, queue
      ensures View() == if old(permits[p].released) then old(View()) else GiveBack(queue.config, old(View()), p, now).0
    {
      hide Inv, Release, DispatchGate;
      if permits[p].released {
        return;
      }
      var id := permits[p].id;
      ReleaseKeepsInv(queue.config, queue.View(), id);
      permits := permits[p := Permit(id, true)];
      var _ := queue.ReleaseTicket(id);
      DispatchLocked(now);
    }
  }

  lemma RefusedEnqueue(config: Config, s: State, r: Request, now: int)
    ensures !Enqueue(config, s, r, now).1.Queued? ==> Enqueue(config, s, r, now).0 == s
  {
  }

  // ---------------------------------------------------------------------------------------------
  // Steps
  // ---------------------------------------------------------------------------------------------

  function Join(g: GateState, after: State, t: Ticket): GateState {
    GateState(after, g.waiters[t.id := |g.calls|], g.calls + [Call(t.id, Selecting, [])], g.permits)
  }

  /** Enqueue and dispatch read the clock one after the other. */
  function Begin(config: Config, g: GateState, r: Request, enqueuedAt: int, dispatchedAt: int)
    : (GateState, seq<Delivery>)
    requires Inv(config, g.queue)
  {
    EnqueueKeepsInv(config, g.queue, r, enqueuedAt);
    var (after, result) := Enqueue(config, g.queue, r, enqueuedAt);
    if !result.Queued? then (g, []) else DispatchGate(config, Join(g, after, result.ticket), dispatchedAt)
  }

  function CloseCall(g: GateState, c: nat): GateState
    requires c < |g.calls|
  {
    g.(calls := g.calls[c := g.calls[c].(phase := Returned)])
  }

  function Drop(g: GateState, c: nat): GateState
    requires c < |g.calls|
  {
    var id := g.calls[c].id;
    CloseCall(g, c).(waiters := g.waiters - {id}, queue := Cancel(g.queue, id).0)
  }

  function Leave(config: Config, g: GateState, c: nat, now: int): (GateState, seq<Delivery>)
    requires c < |g.calls| && Inv(config, g.queue)
  {
    CancelKeepsInv(config, g.queue, g.calls[c].id);
    DispatchGate(config, Drop(g, c), now)
  }

  function Freed(g: GateState, p: nat): GateState
    requires p < |g.permits|
  {
    var id := g.permits[p].id;
    g.(permits := g.permits[p := Permit(id, true)], queue := Release(g.queue, id).0)
  }

  function GiveBack(config: Config, g: GateState, p: nat, now: int): (GateState, seq<Delivery>)
    requires p < |g.permits| && Inv(config, g.queue)
  {
    ReleaseKeepsInv(config, g.queue, g.permits[p].id);
    DispatchGate(config, Freed(g, p), now)
  }

  /** Taking the buffered result out of the channel: a grant becomes a permit. */
  function Received(g: GateState, c: nat): GateState
    requires c < |g.calls| && g.calls[c].channel != []
  {
    var call := g.calls[c];
    GateState(g.queue, g.waiters, g.calls[c := Call(call.id, Returned, call.channel[1..])],
              if call.channel[0].Grant? then g.permits + [Permit(call.id, false)] else g.permits)
  }

  datatype Step =
    | BeginStep(request: Request, enqueuedAt: int, dispatchedAt: int)
    | ReceiveStep(call: nat)
    | AbandonStep(call: nat)
    | LeaveStep(call: nat, now: int)
    | ReleaseStep(permit: nat, now: int)

  /** Overlapping Acquire calls use distinct ticket IDs; the other steps need a call or permit in the right phase. */
  ghost predicate Enabled(g: GateState, step: Step) {
    match step
    case BeginStep(r, _, _) => forall c :: 0 <= c < |g.calls| && g.calls[c].Open() ==> g.calls[c].id != r.id
    case ReceiveStep(c) => c < |g.calls| && g.calls[c].phase.Selecting? && g.calls[c].channel != []
    case AbandonStep(c) => c < |g.calls| && g.calls[c].phase.Selecting?
    case LeaveStep(c, _) => c < |g.calls| && g.calls[c].phase.Leaving?
    case ReleaseStep(p, _) => p < |g.permits| && !g.permits[p].released
  }

  /** One lock region or one local move; the log lists the sends it made. */
  function Take(config: Config, g: GateState, step: Step): (GateState, seq<Delivery>)
    requires Inv(config, g.queue) && Enabled(g, step)
  {
    match step
    case BeginStep(r, enqueuedAt, dispatchedAt) => Begin(config, g, r, enqueuedAt, dispatchedAt)
    case ReceiveStep(c) => (Received(g, c), [])
    case AbandonStep(c) => (g.(calls := g.calls[c := g.calls[c].(phase := Leaving)]), [])
    case LeaveStep(c, now) => Leave(config, g, c, now)
    case ReleaseStep(p, now) => GiveBack(config, g, p, now)
  }

  // ---------------------------------------------------------------------------------------------
  // The ownership invariant
  // ---------------------------------------------------------------------------------------------

  ghost predicate CallsDistinct(calls: seq<Call>) {
    forall i, j :: 0 <= i < j < |calls| && calls[i].Open() && calls[j].Open() ==> calls[i].id != calls[j].id
  }

  ghost predicate PermitsDistinct(permits: seq<Permit>) {
    forall i, j :: 0 <= i < j < |permits| && !permits[i].released && !permits[j].released ==>
      permits[i].id != permits[j].id
  }

  ghost predicate WaiterOK(g: GateState, id: TicketID) {
    id in g.waiters ==>
      var c := g.waiters[id];
      c < |g.calls| && g.calls[c].Open() && g.calls[c].id == id && g.calls[c].channel == []
  }

  /** An open call waits with an empty channel, or owns its grant, made in time, or holds a timeout. */
  ghost predicate CallOK(g: GateState, admitted: set<TicketID>, c: nat) {
    c < |g.calls| && g.calls[c].Open() ==>
      var call := g.calls[c];
      if call.channel == [] then call.id in g.waiters && g.waiters[call.id] == c
      else
        && |call.channel| == 1
        && (match call.channel[0]
            case Grant(ticket, at) =>
              && ticket.id == call.id && call.id in g.queue.active && call.id !in admitted
              && g.queue.active[call.id] == ticket && at < ticket.deadline
            case TimedOut => call.id !in g.queue.active)
  }

  /** An unreleased permit owns an active ticket that no open call refers to. */
  ghost predicate PermitOK(g: GateState, admitted: set<TicketID>, p: nat) {
    p < |g.permits| && !g.permits[p].released ==>
      && g.permits[p].id in g.queue.active
      && g.permits[p].id !in admitted
      && (forall c :: 0 <= c < |g.calls| && g.calls[c].Open() ==> g.calls[c].id != g.permits[p].id)
  }

  ghost predicate BufferedGrant(g: GateState, id: TicketID, c: nat) {
    && c < |g.calls| && g.calls[c].Open() && g.calls[c].id == id
    && g.calls[c].channel != [] && g.calls[c].channel[0].Grant?
  }

  ghost predicate HeldPermit(g: GateState, id: TicketID, p: nat) {
    p < |g.permits| && g.permits[p] == Permit(id, false)
  }

  ghost predicate Owned(g: GateState, id: TicketID) {
    (exists c: nat :: BufferedGrant(g, id, c)) || (exists p: nat :: HeldPermit(g, id, p))
  }

  /** The links between callers and queue while the results for `expired` and `admitted` are still undelivered. */
  ghost predicate Linked(g: GateState, expired: set<TicketID>, admitted: set<TicketID>) {
    && g.waiters.Keys == g.queue.waitingTicket.Keys + expired + admitted
    && (forall id :: WaiterOK(g, id))
    && CallsDistinct(g.calls) && PermitsDistinct(g.permits)
    && (forall c: nat :: CallOK(g, admitted, c))
    && (forall p: nat :: PermitOK(g, admitted, p))
    && (forall id :: id in g.queue.active && id !in admitted ==> Owned(g, id))
  }

  /** What holds at every lock boundary. */
  ghost predicate GateInv(config: Config, g: GateState) {
    && Inv(config, g.queue)
    && Linked(g, {}, {})
    && (|g.queue.active| == config.maxActive || g.queue.waitingCount == 0)
  }
}
