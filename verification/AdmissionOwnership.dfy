/** Gate ownership: over every interleaving, each active ticket has one owner and every send finds its waiter. */
module AdmissionOwnership {
  import opened Common
  import opened AdmissionQueue
  import opened AdmissionInvariant
  import opened AdmissionDispatch
  import opened AdmissionGate
  import AdmissionRuns

  // ---------------------------------------------------------------------------------------------
  // What the queue's operations do to the sets of waiting and active tickets
  // ---------------------------------------------------------------------------------------------

  ghost predicate DistinctIDs(tickets: seq<Ticket>) {
    forall i, j :: 0 <= i < j < |tickets| ==> tickets[i].id != tickets[j].id
  }

  lemma IDsConcat(a: seq<Ticket>, b: seq<Ticket>)
    ensures IDs(a + b) == IDs(a) + IDs(b)
  {
    var ab := a + b;
    forall id | id in IDs(a) + IDs(b) ensures id in IDs(ab) {
      if id in IDs(a) {
        var i :| 0 <= i < |a| && a[i].id == id;
        assert ab[i].id == id;
      } else {
        var i :| 0 <= i < |b| && b[i].id == id;
        assert ab[|a| + i].id == id;
      }
    }
  }

  lemma DistinctConcat(a: seq<Ticket>, b: seq<Ticket>)
    requires DistinctIDs(a) && DistinctIDs(b) && IDs(a) !! IDs(b)
    ensures DistinctIDs(a + b)
  {
    forall i, j | 0 <= i < |a| && 0 <= j < |b| ensures a[i].id != b[j].id {
      assert a[i].id in IDs(a) && b[j].id in IDs(b);
    }
  }

  lemma {:induction false} LapsedDistinct(queue: seq<Ticket>, now: int)
    requires DistinctIDs(queue)
    ensures DistinctIDs(Lapsed(queue, now)) && IDs(Lapsed(queue, now)) <= IDs(queue)
  {
    if queue != [] {
      var rest, last := queue[..|queue| - 1], queue[|queue| - 1];
      LapsedDistinct(rest, now);
      assert queue == rest + [last];
      IDsConcat(rest, [last]);
      IDsConcat(Lapsed(rest, now), [last]);
      forall i | 0 <= i < |Lapsed(rest, now)| ensures Lapsed(rest, now)[i].id != last.id {
        assert Lapsed(rest, now)[i].id in IDs(rest);
      }
    }
  }

  lemma {:induction false} SweepTickets(s: State, now: int, n: nat)
    requires Loose(s) && OrderOK(s) && n <= |s.order|
    ensures var (done, _, lapsed) := ExpireFirst(s, now, n);
            && DistinctIDs(lapsed) && IDs(lapsed) <= s.waitingTicket.Keys
            && done.waitingTicket.Keys == s.waitingTicket.Keys - IDs(lapsed)
  {
    hide Kept, Lapsed, Loose, DistinctIDs, IDs, OrderOK, QueueOf;
    if n > 0 {
      SweepTickets(s, now, n - 1);
      SweepKeeps(s, now, n - 1);
      var (done, _, lapsed) := ExpireFirst(s, now, n - 1);
      var u := s.order[n - 1];
      var queue := QueueOf(done.waiting, u);
      QueueTickets(done, u);
      LapsedDistinct(queue, now);
      DistinctConcat(lapsed, Lapsed(queue, now));
      IDsConcat(lapsed, Lapsed(queue, now));
    } else {
      NoIDs();
    }
  }

  lemma NoIDs()
    ensures DistinctIDs([]) && IDs([]) == {}
  {
  }

  lemma QueueTickets(s: State, u: UserID)
    requires Loose(s)
    ensures DistinctIDs(QueueOf(s.waiting, u)) && IDs(QueueOf(s.waiting, u)) <= s.waitingTicket.Keys
  {
    assert QueueOK(s, u);
  }

  lemma ExpireTickets(config: Config, s: State, now: int)
    requires Inv(config, s)
    ensures var (live, expired) := Expire(s, now);
            && DistinctIDs(expired) && IDs(expired) <= s.waitingTicket.Keys
            && live.waitingTicket.Keys == s.waitingTicket.Keys - IDs(expired) && live.active == s.active
  {
    hide ExpireFirst, DistinctIDs, IDs, Total, QueueOK, IndexedOK, ActiveOK, Loose, OrderOK, IndexOf;
    InvIsLoose(config, s);
    SweepTickets(s, now, |s.order|);
    ExpireShape(config, s, now);
    NoIDs();
  }

  lemma TakeTickets(config: Config, s: State)
    requires Inv(config, s) && s.order != [] && s.cursor < |s.order| && QueueOf(s.waiting, s.order[s.cursor]) != []
    ensures var (next, ticket) := TakeAt(s, s.cursor);
            && ticket.id in s.waitingTicket
            && next.waitingTicket.Keys == s.waitingTicket.Keys - {ticket.id} && next.active == s.active
  {
    hide Total, ActiveOK, IndexedOK;
    assert QueueOK(s, s.order[s.cursor]);
  }

  lemma AdmitTickets(config: Config, s: State)
    requires Inv(config, s)
    ensures var (next, ticket) := Admit(s);
            if ticket.None? then next == s
            else
              && ticket.value.id in s.waitingTicket
              && next.waitingTicket.Keys == s.waitingTicket.Keys - {ticket.value.id}
              && next.active.Keys == s.active.Keys + {ticket.value.id}
  {
    hide Inv, TakeAt;
    TakeServesCursor(config, s);
    if s.order != [] {
      TakeTickets(config, s);
    }
  }

  lemma {:induction false} AdmitAllTickets(config: Config, s: State)
    requires Inv(config, s)
    ensures var (last, admitted) := AdmitAll(config, s);
            && DistinctIDs(admitted) && IDs(admitted) <= s.waitingTicket.Keys
            && last.waitingTicket.Keys == s.waitingTicket.Keys - IDs(admitted)
            && last.active.Keys == s.active.Keys + IDs(admitted)
    decreases config.maxActive - |s.active|
  {
    hide Inv, Admit, AdmitAll, DistinctIDs, IDs;
    NoIDs();
    AdmitAllUnfolds(config, s);
    AdmitTickets(config, s);
    if |s.active| < config.maxActive && Admit(s).1.Some? {
      var (next, ticket) := Admit(s);
      AdmitAllTickets(config, next);
      var (last, more) := AdmitAll(config, next);
      SingleID(ticket.value);
      MovesChain(s.waitingTicket.Keys, next.waitingTicket.Keys, last.waitingTicket.Keys,
                 s.active.Keys, next.active.Keys, last.active.Keys, ticket.value.id, IDs(more));
      DistinctConcat([ticket.value], more);
      IDsConcat([ticket.value], more);
    }
  }

  lemma MovesChain<T>(w: set<T>, w': set<T>, w'': set<T>, a: set<T>, a': set<T>, a'': set<T>, x: T, more: set<T>)
    requires x in w && w' == w - {x} && a' == a + {x} && more <= w' && w'' == w' - more && a'' == a' + more
    ensures {x} !! more && {x} + more <= w && w'' == w - ({x} + more) && a'' == a + ({x} + more)
  {
  }

  lemma AdmitAllUnfolds(config: Config, s: State)
    requires Inv(config, s)
    ensures if |s.active| < config.maxActive && Admit(s).1.Some?
            then
              && Inv(config, Admit(s).0) && |Admit(s).0.active| == |s.active| + 1
              && AdmitAll(config, s).0 == AdmitAll(config, Admit(s).0).0
              && AdmitAll(config, s).1 == [Admit(s).1.value] + AdmitAll(config, Admit(s).0).1
            else AdmitAll(config, s) == (if |s.active| < config.maxActive then Admit(s).0 else s, [])
  {
    hide Inv, Admit;
    if |s.active| < config.maxActive {
      AdmitKeepsInv(config, s);
    }
  }

  lemma SingleID(t: Ticket)
    ensures DistinctIDs([t]) && IDs([t]) == {t.id}
  {
    assert [t][0].id in IDs([t]);
  }

  /** Admission leaves the active tickets alone and adds the admitted ones. */
  lemma AdmittedIsActive(config: Config, s: State, now: int, k: nat)
    requires Inv(config, s) && k < |Dispatch(config, s, now).admitted|
    ensures var d := Dispatch(config, s, now);
            d.admitted[k].id in d.state.active && d.state.active[d.admitted[k].id] == d.admitted[k]
  {
    hide Inv, Expire, AdmitAll;
    ExpireKeepsInv(config, s, now);
    AdmitAllActivates(config, Expire(s, now).0, k);
  }

  lemma {:induction false} AdmitAllKeepsActive(config: Config, s: State, id: TicketID)
    requires Inv(config, s) && id in s.active
    ensures id in AdmitAll(config, s).0.active && AdmitAll(config, s).0.active[id] == s.active[id]
    decreases config.maxActive - |s.active|
  {
    hide Inv, AdmitAll, Admit;
    AdmitAllUnfolds(config, s);
    AdmitAdds(config, s);
    if |s.active| < config.maxActive && Admit(s).1.Some? {
      AdmitAllKeepsActive(config, Admit(s).0, id);
    }
  }

  lemma AdmitAdds(config: Config, s: State)
    requires Inv(config, s)
    ensures var (next, ticket) := Admit(s);
            if ticket.None? then next.active == s.active
            else ticket.value.id !in s.active && next.active == s.active[ticket.value.id := ticket.value]
  {
    hide Inv, TakeAt;
    TakeServesCursor(config, s);
    if s.order != [] {
      TakeKeepsInv(config, s);
      TakeLeavesActive(s, s.cursor);
    }
  }

  lemma {:induction false} AdmitAllActivates(config: Config, s: State, k: nat)
    requires Inv(config, s) && k < |AdmitAll(config, s).1|
    ensures var (last, admitted) := AdmitAll(config, s);
            admitted[k].id in last.active && last.active[admitted[k].id] == admitted[k]
    decreases config.maxActive - |s.active|
  {
    hide Inv, AdmitAll, Admit;
    AdmitAllUnfolds(config, s);
    AdmitAdds(config, s);
    if k == 0 {
      AdmitAllKeepsActive(config, Admit(s).0, Admit(s).1.value.id);
    } else {
      AdmitAllActivates(config, Admit(s).0, k - 1);
    }
  }

  lemma DispatchKeepsActive(config: Config, s: State, now: int, id: TicketID)
    requires Inv(config, s) && id in s.active
    ensures var after := Dispatch(config, s, now).state; id in after.active && after.active[id] == s.active[id]
  {
    hide Inv, Expire, AdmitAll;
    ExpireKeepsInv(config, s, now);
    ExpireShape(config, s, now);
    AdmitAllKeepsActive(config, Expire(s, now).0, id);
  }

  /** A dispatch moves each ticket it names out of the waiting set once: expired ones away, admitted ones to active. */
  lemma DispatchTickets(config: Config, s: State, now: int)
    requires Inv(config, s)
    ensures var d := Dispatch(config, s, now);
            && DistinctIDs(d.expired) && DistinctIDs(d.admitted) && IDs(d.expired) !! IDs(d.admitted)
            && IDs(d.expired) + IDs(d.admitted) <= s.waitingTicket.Keys
            && d.state.waitingTicket.Keys == s.waitingTicket.Keys - IDs(d.expired) - IDs(d.admitted)
            && d.state.active.Keys == s.active.Keys + IDs(d.admitted)
  {
    hide Inv, Expire, AdmitAll, DistinctIDs, IDs;
    ExpireKeepsInv(config, s, now);
    ExpireTickets(config, s, now);
    AdmitAllTickets(config, Expire(s, now).0);
  }

  lemma WaitingIsNotActive(config: Config, s: State, id: TicketID)
    requires Inv(config, s) && id in s.waitingTicket
    ensures id !in s.active
  {
    assert IndexedOK(s, id);
    assert QueueOK(s, s.waitingTicket[id]);
  }

  lemma RemoveTickets(s: State, u: UserID, id: TicketID)
    requires id in IDs(QueueOf(s.waiting, u))
    ensures var after := RemoveWaiting(s, u, id).0;
            after.waitingTicket == s.waitingTicket - {id} && after.active == s.active
  {
    hide IndexOf;
  }

  lemma CancelTickets(config: Config, s: State, id: TicketID)
    requires Inv(config, s)
    ensures var after := Cancel(s, id).0;
            && after.waitingTicket.Keys == s.waitingTicket.Keys - {id}
            && after.active.Keys == s.active.Keys - {id}
  {
    hide RemoveWaiting, Total, ActiveOK, OrderOK;
    if id in s.waitingTicket {
      WaitingIsNotActive(config, s, id);
      assert IndexedOK(s, id);
      RemoveTickets(s, s.waitingTicket[id], id);
    }
  }

  // ---------------------------------------------------------------------------------------------
  // Deliveries
  // ---------------------------------------------------------------------------------------------

  /** A due result finds its waiter with an empty channel. */
  lemma DeliveryIsSent(g: GateState, expired: set<TicketID>, admitted: set<TicketID>, id: TicketID, outcome: Outcome)
    requires Linked(g, expired, admitted) && id in expired + admitted
    ensures Deliver(g, id, outcome).1 == Sent
    ensures id in g.waiters && g.waiters[id] < |g.calls|
    ensures Deliver(g, id, outcome).0
              == g.(waiters := g.waiters - {id},
                    calls := g.calls[g.waiters[id] := Call(id, g.calls[g.waiters[id]].phase, [outcome])])
    ensures g.calls[g.waiters[id]].Open() && g.calls[g.waiters[id]].id == id && g.calls[g.waiters[id]].channel == []
  {
    hide CallOK, PermitOK, Owned, CallsDistinct, PermitsDistinct;
    assert WaiterOK(g, id);
    assert [] + [outcome] == [outcome];
  }

  /** The effect of one send on the tables. */
  lemma SendKeepsCalls(g: GateState, g': GateState, admitted: set<TicketID>, admitted': set<TicketID>, id: TicketID,
                       outcome: Outcome)
    requires WaiterOK(g, id) && id in g.waiters && CallsDistinct(g.calls) && admitted' <= admitted
    requires g' == g.(waiters := g.waiters - {id},
                      calls := g.calls[g.waiters[id] := Call(id, g.calls[g.waiters[id]].phase, [outcome])])
    requires forall c: nat :: CallOK(g, admitted, c)
    requires forall t :: WaiterOK(g, t)
    requires if outcome.Grant? then
               && outcome.ticket.id == id && id in g.queue.active && id !in admitted'
               && g.queue.active[id] == outcome.ticket && outcome.admittedAt < outcome.ticket.deadline
             else id !in g.queue.active
    ensures CallsDistinct(g'.calls)
    ensures forall t :: WaiterOK(g', t)
    ensures forall c: nat :: CallOK(g', admitted', c)
  {
    forall t ensures WaiterOK(g', t) {
      assert WaiterOK(g, t);
    }
    forall c: nat ensures CallOK(g', admitted', c) {
      assert CallOK(g, admitted, c);
    }
  }

  lemma SendKeepsOwners(g: GateState, g': GateState, admitted: set<TicketID>, admitted': set<TicketID>, id: TicketID,
                        outcome: Outcome)
    requires WaiterOK(g, id) && id in g.waiters && admitted' <= admitted
    requires g' == g.(waiters := g.waiters - {id},
                      calls := g.calls[g.waiters[id] := Call(id, g.calls[g.waiters[id]].phase, [outcome])])
    requires forall p: nat :: PermitOK(g, admitted, p)
    requires forall t :: t in g.queue.active && t !in admitted ==> Owned(g, t)
    requires if outcome.Grant? then admitted == admitted' + {id} else admitted == admitted'
    ensures forall p: nat :: PermitOK(g', admitted', p)
    ensures forall t :: t in g'.queue.active && t !in admitted' ==> Owned(g', t)
  {
    var at := g.waiters[id];
    forall p: nat ensures PermitOK(g', admitted', p) {
      assert PermitOK(g, admitted, p);
    }
    forall t | t in g'.queue.active && t !in admitted' ensures Owned(g', t) {
      if t == id && outcome.Grant? {
        assert BufferedGrant(g', t, at);
      } else {
        assert Owned(g, t);
        if c: nat :| BufferedGrant(g, t, c) {
          assert BufferedGrant(g', t, c);
        } else {
          var p: nat :| HeldPermit(g, t, p);
          assert HeldPermit(g', t, p);
        }
      }
    }
  }

  lemma DeliverTimeout(g: GateState, expired: set<TicketID>, admitted: set<TicketID>, id: TicketID)
    requires Linked(g, expired, admitted) && id in expired && id !in admitted
    requires id !in g.queue.active && id !in g.queue.waitingTicket
    ensures Deliver(g, id, TimedOut).1 == Sent
    ensures Deliver(g, id, TimedOut).0.queue == g.queue
    ensures Linked(Deliver(g, id, TimedOut).0, expired - {id}, admitted)
  {
    hide CallOK, PermitOK, Owned, CallsDistinct, PermitsDistinct, Deliver;
    DeliveryIsSent(g, expired, admitted, id, TimedOut);
    SendKeepsCalls(g, Deliver(g, id, TimedOut).0, admitted, admitted, id, TimedOut);
    SendKeepsOwners(g, Deliver(g, id, TimedOut).0, admitted, admitted, id, TimedOut);
  }

  /** The ticket is active and its deadline has not passed. */
  predicate DueGrant(s: State, ticket: Ticket, now: int) {
    ticket.id in s.active && s.active[ticket.id] == ticket && now < ticket.deadline
  }

  lemma DeliverSlot(g: GateState, admitted: set<TicketID>, ticket: Ticket, now: int)
    requires Linked(g, {}, admitted) && ticket.id in admitted
    requires DueGrant(g.queue, ticket, now) && ticket.id !in g.queue.waitingTicket
    ensures DeliverGrant(g, ticket, now).1 == Sent
    ensures DeliverGrant(g, ticket, now).0.queue == g.queue
    ensures Linked(DeliverGrant(g, ticket, now).0, {}, admitted - {ticket.id})
  {
    hide CallOK, PermitOK, Owned, CallsDistinct, PermitsDistinct, Deliver;
    var outcome := Grant(ticket, now);
    DeliveryIsSent(g, {}, admitted, ticket.id, outcome);
    SendKeepsCalls(g, Deliver(g, ticket.id, outcome).0, admitted, admitted - {ticket.id}, ticket.id, outcome);
    SendKeepsOwners(g, Deliver(g, ticket.id, outcome).0, admitted, admitted - {ticket.id}, ticket.id, outcome);
  }

  ghost predicate AllSent(log: seq<Delivery>) {
    forall i :: 0 <= i < |log| ==> log[i] == Sent
  }

  lemma {:induction false} DeliverAllExpired(g: GateState, tickets: seq<Ticket>, admitted: set<TicketID>)
    requires DistinctIDs(tickets) && IDs(tickets) !! g.queue.active.Keys && IDs(tickets) !! g.queue.waitingTicket.Keys
    requires IDs(tickets) !! admitted
    requires Linked(g, IDs(tickets), admitted)
    ensures Linked(DeliverExpired(g, tickets).0, {}, admitted)
    ensures DeliverExpired(g, tickets).0.queue == g.queue && AllSent(DeliverExpired(g, tickets).1)
  {
    DeliverSomeExpired(g, tickets, |tickets|, admitted);
    assert tickets[..|tickets|] == tickets;
  }

  lemma {:induction false} DeliverSomeExpired(g: GateState, tickets: seq<Ticket>, n: nat, admitted: set<TicketID>)
    requires n <= |tickets|
    requires DistinctIDs(tickets) && IDs(tickets) !! g.queue.active.Keys && IDs(tickets) !! g.queue.waitingTicket.Keys
    requires IDs(tickets) !! admitted
    requires Linked(g, IDs(tickets), admitted)
    ensures var (after, log) := DeliverExpired(g, tickets[..n]);
            Linked(after, IDs(tickets[n..]), admitted) && after.queue == g.queue && AllSent(log)
  {
    hide Linked, Deliver;
    if n == 0 {
      assert tickets[..0] == [] && tickets[0..] == tickets;
    } else {
      DeliverSomeExpired(g, tickets, n - 1, admitted);
      assert tickets[..n][..n - 1] == tickets[..n - 1];
      var before := DeliverExpired(g, tickets[..n - 1]).0;
      IDsAfter(tickets, n - 1);
      DeliverTimeout(before, IDs(tickets[n - 1..]), admitted, tickets[n - 1].id);
    }
  }

  lemma IDsAfter(tickets: seq<Ticket>, n: nat)
    requires n < |tickets| && DistinctIDs(tickets)
    ensures tickets[n].id in IDs(tickets[n..]) && IDs(tickets[n + 1..]) == IDs(tickets[n..]) - {tickets[n].id}
    ensures IDs(tickets[n..]) <= IDs(tickets)
  {
    SingleID(tickets[n]);
    assert tickets[n..] == [tickets[n]] + tickets[n + 1..];
    IDsConcat([tickets[n]], tickets[n + 1..]);
    assert tickets == tickets[..n] + tickets[n..];
    IDsConcat(tickets[..n], tickets[n..]);
  }

  lemma {:induction false} DeliverSomeAdmitted(g: GateState, tickets: seq<Ticket>, n: nat, now: int)
    requires n <= |tickets|
    requires DistinctIDs(tickets) && IDs(tickets) !! g.queue.waitingTicket.Keys
    requires forall i :: 0 <= i < |tickets| ==> DueGrant(g.queue, tickets[i], now)
    requires Linked(g, {}, IDs(tickets))
    ensures var (after, log) := DeliverAdmitted(g, tickets[..n], now);
            Linked(after, {}, IDs(tickets[n..])) && after.queue == g.queue && AllSent(log)
  {
    hide Linked, DeliverGrant;
    if n == 0 {
      assert tickets[..0] == [] && tickets[0..] == tickets;
    } else {
      DeliverSomeAdmitted(g, tickets, n - 1, now);
      assert tickets[..n][..n - 1] == tickets[..n - 1];
      var before := DeliverAdmitted(g, tickets[..n - 1], now).0;
      IDsAfter(tickets, n - 1);
      DeliverSlot(before, IDs(tickets[n - 1..]), tickets[n - 1], now);
    }
  }

  lemma DeliverAllAdmitted(g: GateState, tickets: seq<Ticket>, now: int)
    requires DistinctIDs(tickets) && IDs(tickets) !! g.queue.waitingTicket.Keys
    requires forall i :: 0 <= i < |tickets| ==> DueGrant(g.queue, tickets[i], now)
    requires Linked(g, {}, IDs(tickets))
    ensures Linked(DeliverAdmitted(g, tickets, now).0, {}, {})
    ensures DeliverAdmitted(g, tickets, now).0.queue == g.queue && AllSent(DeliverAdmitted(g, tickets, now).1)
  {
    DeliverSomeAdmitted(g, tickets, |tickets|, now);
    assert tickets[..|tickets|] == tickets;
  }

  // ---------------------------------------------------------------------------------------------
  // Dispatch
  // ---------------------------------------------------------------------------------------------

  /** The queue moves on; callers learn about it next. */
  lemma QueueMovesOn(g: GateState, after: State, expired: set<TicketID>, admitted: set<TicketID>)
    requires Linked(g, {}, {}) && expired + admitted <= g.queue.waitingTicket.Keys && expired !! admitted
    requires g.queue.waitingTicket.Keys !! g.queue.active.Keys
    requires after.waitingTicket.Keys == g.queue.waitingTicket.Keys - expired - admitted
    requires after.active.Keys == g.queue.active.Keys + admitted
    requires forall id :: id in g.queue.active ==> after.active[id] == g.queue.active[id]
    ensures Linked(g.(queue := after), expired, admitted)
  {
    var g' := g.(queue := after);
    forall id ensures WaiterOK(g', id) {
      assert WaiterOK(g, id);
    }
    forall c: nat ensures CallOK(g', admitted, c) {
      assert CallOK(g, {}, c);
      if c < |g.calls| && g.calls[c].Open() && g.calls[c].channel != [] {
        NotWaiting(g, c);
      }
    }
    forall p: nat ensures PermitOK(g', admitted, p) {
      assert PermitOK(g, {}, p);
    }
    forall id | id in after.active && id !in admitted ensures Owned(g', id) {
      KeepsOwner(g, g', id);
    }
  }

  /** An owner that is still there still owns. */
  lemma KeepsOwner(g: GateState, g': GateState, id: TicketID)
    requires Owned(g, id)
    requires forall c: nat :: BufferedGrant(g, id, c) ==> BufferedGrant(g', id, c)
    requires forall p: nat :: HeldPermit(g, id, p) ==> HeldPermit(g', id, p)
    ensures Owned(g', id)
  {
  }

  /** A call whose result is buffered no longer waits. */
  lemma NotWaiting(g: GateState, c: nat)
    requires Linked(g, {}, {}) && c < |g.calls| && g.calls[c].Open() && g.calls[c].channel != []
    ensures g.calls[c].id !in g.queue.waitingTicket
  {
    hide CallOK, PermitOK, Owned;
    assert WaiterOK(g, g.calls[c].id);
  }

  lemma WaitingActiveDisjoint(config: Config, s: State)
    requires Inv(config, s)
    ensures s.waitingTicket.Keys !! s.active.Keys
  {
    hide Inv;
    forall id | id in s.waitingTicket ensures id !in s.active {
      WaitingIsNotActive(config, s, id);
    }
  }

  /** A locked dispatch restores every link, fills the slots, and each of its sends finds an empty channel. */
  lemma DispatchLinks(config: Config, g: GateState, now: int)
    requires Inv(config, g.queue) && Linked(g, {}, {})
    ensures GateInv(config, DispatchGate(config, g, now).0)
    ensures AllSent(DispatchGate(config, g, now).1)
  {
    hide Inv, Linked, Dispatch, DeliverExpired, DeliverAdmitted, DistinctIDs, IDs;
    var d := Dispatch(config, g.queue, now);
    DispatchKeepsInv(config, g.queue, now);
    DispatchTickets(config, g.queue, now);
    WaitingActiveDisjoint(config, g.queue);
    forall id | id in g.queue.active ensures d.state.active[id] == g.queue.active[id] {
      DispatchKeepsActive(config, g.queue, now, id);
    }
    AdmissionRuns.DispatchRespectsDeadlines(config, g.queue, now);
    forall i | 0 <= i < |d.admitted| ensures DueGrant(d.state, d.admitted[i], now) {
      AdmittedIsActive(config, g.queue, now, i);
    }
    QueueMovesOn(g, d.state, IDs(d.expired), IDs(d.admitted));
    var start := g.(queue := d.state);
    DeliverAllExpired(start, d.expired, IDs(d.admitted));
    DeliverAllAdmitted(DeliverExpired(start, d.expired).0, d.admitted, now);
  }

  // ---------------------------------------------------------------------------------------------
  // Steps
  // ---------------------------------------------------------------------------------------------

  lemma EnqueueTickets(config: Config, s: State, r: Request, now: int)
    requires Enqueue(config, s, r, now).1.Queued?
    ensures var (after, result) := Enqueue(config, s, r, now);
            && result.ticket.id == r.id && r.id !in s.waitingTicket && r.id !in s.active
            && after.waitingTicket.Keys == s.waitingTicket.Keys + {r.id} && after.active == s.active
  {
  }

  lemma JoinLinks(g: GateState, after: State, t: Ticket)
    requires Linked(g, {}, {}) && t.id !in g.queue.waitingTicket && t.id !in g.queue.active
    requires after.waitingTicket.Keys == g.queue.waitingTicket.Keys + {t.id} && after.active == g.queue.active
    requires forall c :: 0 <= c < |g.calls| && g.calls[c].Open() ==> g.calls[c].id != t.id
    ensures Linked(Join(g, after, t), {}, {})
  {
    var g' := Join(g, after, t);
    forall id ensures WaiterOK(g', id) {
      assert WaiterOK(g, id);
    }
    forall c: nat ensures CallOK(g', {}, c) {
      assert CallOK(g, {}, c);
    }
    forall p: nat ensures PermitOK(g', {}, p) {
      assert PermitOK(g, {}, p);
    }
    forall id | id in after.active ensures Owned(g', id) {
      KeepsOwner(g, g', id);
    }
  }

  lemma BeginKeeps(config: Config, g: GateState, r: Request, enqueuedAt: int, dispatchedAt: int)
    requires GateInv(config, g) && Enabled(g, BeginStep(r, enqueuedAt, dispatchedAt))
    ensures var (after, log) := Begin(config, g, r, enqueuedAt, dispatchedAt); GateInv(config, after) && AllSent(log)
  {
    hide Inv, Linked, Enqueue, DispatchGate;
    EnqueueKeepsInv(config, g.queue, r, enqueuedAt);
    var (after, result) := Enqueue(config, g.queue, r, enqueuedAt);
    if result.Queued? {
      EnqueueTickets(config, g.queue, r, enqueuedAt);
      JoinLinks(g, after, result.ticket);
      DispatchLinks(config, Join(g, after, result.ticket), dispatchedAt);
    }
  }

  /** Closing a call changes no other call, waiter or permit. */
  lemma DropLinks(config: Config, g: GateState, c: nat)
    requires Linked(g, {}, {}) && c < |g.calls| && g.calls[c].Open() && Inv(config, g.queue)
    ensures Linked(Drop(g, c), {}, {})
  {
    hide Inv, Cancel;
    var g', gone := Drop(g, c), g.calls[c].id;
    CancelTickets(config, g.queue, gone);
    CancelAddsNothing(g.queue, gone);
    forall id ensures WaiterOK(g', id) {
      assert WaiterOK(g, id);
    }
    forall k: nat ensures CallOK(g', {}, k) {
      assert CallOK(g, {}, k);
    }
    forall p: nat ensures PermitOK(g', {}, p) {
      assert PermitOK(g, {}, p);
    }
    forall id | id in g'.queue.active ensures Owned(g', id) {
      KeepsOwner(g, g', id);
    }
  }

  lemma FreedLinks(g: GateState, p: nat)
    requires Linked(g, {}, {}) && p < |g.permits| && !g.permits[p].released
    ensures Linked(Freed(g, p), {}, {})
  {
    var g', gone := Freed(g, p), g.permits[p].id;
    assert PermitOK(g, {}, p);
    assert g'.queue.active.Keys == g.queue.active.Keys - {gone};
    forall id ensures WaiterOK(g', id) {
      assert WaiterOK(g, id);
    }
    forall k: nat ensures CallOK(g', {}, k) {
      assert CallOK(g, {}, k);
    }
    forall q: nat ensures PermitOK(g', {}, q) {
      assert PermitOK(g, {}, q);
    }
    forall id | id in g'.queue.active ensures Owned(g', id) {
      KeepsOwner(g, g', id);
    }
  }

  /** Receiving hands the buffered grant over to a permit. */
  lemma ReceivedLinks(g: GateState, c: nat)
    requires Linked(g, {}, {}) && c < |g.calls| && g.calls[c].Open() && g.calls[c].channel != []
    ensures Linked(Received(g, c), {}, {})
  {
    var g', mine := Received(g, c), g.calls[c].id;
    assert CallOK(g, {}, c);
    NotWaiting(g, c);
    forall id ensures WaiterOK(g', id) {
      assert WaiterOK(g, id);
    }
    forall k: nat ensures CallOK(g', {}, k) {
      assert CallOK(g, {}, k);
    }
    ReceivedPermits(g, c);
    forall id | id in g'.queue.active ensures Owned(g', id) {
      assert Owned(g, id);
      if k: nat :| BufferedGrant(g, id, k) {
        if k == c {
          assert HeldPermit(g', id, |g.permits|);
        } else {
          assert BufferedGrant(g', id, k);
        }
      } else {
        var q: nat :| HeldPermit(g, id, q);
        assert HeldPermit(g', id, q);
      }
    }
  }

  lemma ReceivedPermits(g: GateState, c: nat)
    requires Linked(g, {}, {}) && c < |g.calls| && g.calls[c].Open() && g.calls[c].channel != []
    ensures PermitsDistinct(Received(g, c).permits)
    ensures forall q: nat :: PermitOK(Received(g, c), {}, q)
  {
    var g' := Received(g, c);
    assert CallOK(g, {}, c);
    forall q: nat ensures PermitOK(g', {}, q) {
      assert PermitOK(g, {}, q);
    }
    forall q: nat | q < |g.permits| && !g.permits[q].released ensures g.permits[q].id != g.calls[c].id {
      assert PermitOK(g, {}, q);
    }
  }

  lemma AbandonLinks(g: GateState, c: nat)
    requires Linked(g, {}, {}) && c < |g.calls| && g.calls[c].Open()
    ensures Linked(g.(calls := g.calls[c := g.calls[c].(phase := Leaving)]), {}, {})
  {
    var g' := g.(calls := g.calls[c := g.calls[c].(phase := Leaving)]);
    forall id ensures WaiterOK(g', id) {
      assert WaiterOK(g, id);
    }
    forall k: nat ensures CallOK(g', {}, k) {
      assert CallOK(g, {}, k);
    }
    forall p: nat ensures PermitOK(g', {}, p) {
      assert PermitOK(g, {}, p);
    }
    forall id | id in g'.queue.active ensures Owned(g', id) {
      KeepsOwner(g, g', id);
    }
  }

  /**
   * Every step keeps the gate invariant, and none of its sends blocks or finds no waiter.
   */
  lemma StepKeepsGate(config: Config, g: GateState, step: Step)
    requires GateInv(config, g) && Enabled(g, step)
    ensures GateInv(config, Take(config, g, step).0)
    ensures AllSent(Take(config, g, step).1)
  {
    hide Inv, Linked, DispatchGate, Begin, Cancel, Release;
    match step
    case BeginStep(r, enqueuedAt, dispatchedAt) => BeginKeeps(config, g, r, enqueuedAt, dispatchedAt);
    case ReceiveStep(c) => ReceivedLinks(g, c);
    case AbandonStep(c) => AbandonLinks(g, c);
    case LeaveStep(c, now) =>
      CancelKeepsInv(config, g.queue, g.calls[c].id);
      DropLinks(config, g, c);
      DispatchLinks(config, Drop(g, c), now);
    case ReleaseStep(p, now) =>
      ReleaseKeepsInv(config, g.queue, g.permits[p].id);
      FreedLinks(g, p);
      DispatchLinks(config, Freed(g, p), now);
  }

  // ---------------------------------------------------------------------------------------------
  // Runs
  // ---------------------------------------------------------------------------------------------

  const IDLE := GateState(EMPTY, map[], [], [])

  /** Every interleaving of enabled steps; steps that are not enabled do not happen. */
  ghost function GateRun(config: Config, g: GateState, steps: seq<Step>): (GateState, seq<Delivery>)
    requires GateInv(config, g)
    decreases steps
  {
    if steps == [] then (g, [])
    else if !Enabled(g, steps[0]) then GateRun(config, g, steps[1..])
    else
      StepKeepsGate(config, g, steps[0]);
      var (next, log) := Take(config, g, steps[0]);
      var (last, more) := GateRun(config, next, steps[1..]);
      (last, log + more)
  }

  /**
   * Over every interleaving of Acquire, context cancellation, timer and Release, the gate invariant holds at
   * each lock boundary and all sends of the run went to an empty channel.
   */
  lemma {:induction false} GateOwnership(config: Config, g: GateState, steps: seq<Step>)
    requires GateInv(config, g)
    ensures GateInv(config, GateRun(config, g, steps).0)
    ensures AllSent(GateRun(config, g, steps).1)
    decreases steps
  {
    hide Inv, Linked, Take, Enabled;
    if steps != [] {
      if Enabled(g, steps[0]) {
        StepKeepsGate(config, g, steps[0]);
        GateOwnership(config, Take(config, g, steps[0]).0, steps[1..]);
      } else {
        GateOwnership(config, g, steps[1..]);
      }
    }
  }

  lemma IdleGate(config: Config)
    requires config.Valid()
    ensures GateInv(config, IDLE)
  {
    EmptyInv(config);
  }

  datatype Owner = ByCall(call: nat) | ByPermit(permit: nat)

  ghost predicate Owns(g: GateState, owner: Owner, id: TicketID) {
    match owner
    case ByCall(c) => BufferedGrant(g, id, c)
    case ByPermit(p) => HeldPermit(g, id, p)
  }

  /** Every active ticket has exactly one owner, and owners own active tickets only. */
  lemma ExactlyOneOwner(config: Config, g: GateState, id: TicketID)
    requires GateInv(config, g)
    ensures id in g.queue.active <==> exists o :: Owns(g, o, id)
    ensures forall o, o' :: Owns(g, o, id) && Owns(g, o', id) ==> o == o'
  {
    hide Inv;
    if id in g.queue.active {
      assert Owned(g, id);
      if c: nat :| BufferedGrant(g, id, c) {
        assert Owns(g, ByCall(c), id);
      } else {
        var p: nat :| HeldPermit(g, id, p);
        assert Owns(g, ByPermit(p), id);
      }
    }
    forall o | Owns(g, o, id) ensures id in g.queue.active {
      match o
      case ByCall(c) => assert CallOK(g, {}, c);
      case ByPermit(p) => assert PermitOK(g, {}, p);
    }
    forall o, o' | Owns(g, o, id) && Owns(g, o', id) ensures o == o' {
      assert o.ByPermit? ==> PermitOK(g, {}, o.permit);
      assert o'.ByPermit? ==> PermitOK(g, {}, o'.permit);
    }
  }
}
