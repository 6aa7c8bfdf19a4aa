/** When a caller finds its grant waiting for it. */
module AdmissionGrants {
  import opened AdmissionQueue
  import opened AdmissionInvariant
  import opened AdmissionDispatch
  import opened AdmissionAnswers
  import opened AdmissionGate
  import opened AdmissionOwnership
  import AdmissionRuns

  /** With nobody waiting and a free slot, a dispatch admits exactly the one ticket that just joined in time. */
  lemma LoneTicketIsAdmitted(config: Config, s: State, t: Ticket, now: int)
    requires Inv(config, s) && s.waitingTicket.Keys == {t.id} && QueueOf(s.waiting, t.user) == [t]
    requires |s.active| < config.maxActive && now < t.deadline
    ensures Dispatch(config, s, now).expired == [] && Dispatch(config, s, now).admitted == [t]
  {
    hide Inv, AdmitAll, Expire, Kept, IDs, DistinctIDs;
    ExpireKeepsInv(config, s, now);
    ExpireTickets(config, s, now);
    ExpireQueues(config, s, now, t.user);
    KeptAlone(t, now);
    var (live, expired) := Expire(s, now);
    InQueueIsIndexed(config, live, t);
    OnlyIDs(expired, live.waitingTicket.Keys, t.id);
    FirstAdmitted(config, live, t);
    AdmitAllTickets(config, live);
    SingleAdmitted(AdmitAll(config, live).1, t);
  }

  lemma KeptAlone(t: Ticket, now: int)
    requires now < t.deadline
    ensures Kept([t], now) == [t]
  {
    assert [t][..0] == [];
    EmptyKept(now);
  }

  lemma InQueueIsIndexed(config: Config, s: State, t: Ticket)
    requires Inv(config, s) && t in QueueOf(s.waiting, t.user)
    ensures t.id in s.waitingTicket && s.order != []
  {
    assert QueueOK(s, t.user);
  }

  lemma OnlyIDs(tickets: seq<Ticket>, left: set<TicketID>, id: TicketID)
    requires left == {id} - IDs(tickets) && id in left && IDs(tickets) <= {id}
    ensures tickets == []
  {
    if tickets != [] {
      var first := tickets[0].id;
      Listed(tickets);
    }
  }

  lemma Listed(tickets: seq<Ticket>)
    ensures forall i :: 0 <= i < |tickets| ==> tickets[i].id in IDs(tickets)
  {
  }

  lemma FirstAdmitted(config: Config, s: State, t: Ticket)
    requires Inv(config, s) && s.waitingTicket.Keys == {t.id} && QueueOf(s.waiting, t.user) == [t]
    requires |s.active| < config.maxActive
    ensures AdmitAll(config, s).1 != [] && AdmitAll(config, s).1[0] == t
  {
    hide Inv, AdmitAll, TakeAt;
    InQueueIsIndexed(config, s, t);
    TakeServesCursor(config, s);
    AdmissionRuns.HeadBelongsToUser(config, s);
    AdmissionRuns.TakeQueue(s, s.cursor, s.order[s.cursor]);
    HeadIsOnly(config, s, t);
    AdmitAllUnfolds(config, s);
  }

  lemma HeadIsOnly(config: Config, s: State, t: Ticket)
    requires Inv(config, s) && s.waitingTicket.Keys == {t.id} && QueueOf(s.waiting, t.user) == [t]
    requires s.cursor < |s.order| && QueueOf(s.waiting, s.order[s.cursor]) != []
    ensures QueueOf(s.waiting, s.order[s.cursor])[0] == t
  {
    hide Total, ActiveOK;
    var u := s.order[s.cursor];
    assert QueueOK(s, u) && QueueOK(s, t.user);
    var head := QueueOf(s.waiting, u)[0];
    assert head.id in s.waitingTicket.Keys && s.waitingTicket[head.id] == u;
    assert s.waiting[t.user][0] == t && s.waitingTicket[t.id] == t.user;
  }

  lemma SingleAdmitted(admitted: seq<Ticket>, t: Ticket)
    requires admitted != [] && admitted[0] == t && DistinctIDs(admitted) && IDs(admitted) <= {t.id}
    ensures admitted == [t]
  {
    if |admitted| > 1 {
      var second := admitted[1].id;
      Listed(admitted);
    }
  }

  /**
   * A caller whose request is accepted while a slot is free and nobody waits finds its grant in the channel as soon
   * as Acquire leaves the lock, if its own dispatch comes before its deadline.
   */
  lemma GrantedAtOnce(config: Config, g: GateState, r: Request, enqueuedAt: int, dispatchedAt: int)
    requires config.Valid() && GateInv(config, g) && Enabled(g, BeginStep(r, enqueuedAt, dispatchedAt))
    requires r.id != "" && r.user != "" && !Known(g.queue, r.id) && 0 <= r.queueTimeout <= config.maxQueueWait
    requires g.queue.waitingCount == 0 && |g.queue.active| < config.maxActive
    requires dispatchedAt < enqueuedAt + Patience(config, r)
    ensures var ticket := Promised(config, r, enqueuedAt);
            var after := Begin(config, g, r, enqueuedAt, dispatchedAt).0;
            && after.calls == g.calls + [Call(r.id, Selecting, [Grant(ticket, dispatchedAt)])]
            && r.id in after.queue.active && after.queue.active[r.id] == ticket
  {
    hide Inv, Linked, Enqueue, Dispatch, Known, Total;
    var ticket := Promised(config, r, enqueuedAt);
    AcceptedExactly(config, g.queue, r, enqueuedAt);
    NobodyWaits(config, g.queue);
    EnqueueKeepsInv(config, g.queue, r, enqueuedAt);
    var joined := Enqueue(config, g.queue, r, enqueuedAt).0;
    EnqueueTickets(config, g.queue, r, enqueuedAt);
    LoneQueue(config, g.queue, r, enqueuedAt);
    LoneTicketIsAdmitted(config, joined, ticket, dispatchedAt);
    AdmittedIsActive(config, joined, dispatchedAt, 0);
    DeliverLone(config, Join(g, joined, ticket), ticket, dispatchedAt);
  }

  lemma NobodyWaits(config: Config, s: State)
    requires Inv(config, s) && s.waitingCount == 0
    ensures s.waitingTicket.Keys == {} && s.waiting == map[] && Total(s.order, s.waiting) == 0
  {
    hide ActiveOK, Search, TakeAt;
    TakeServesCursor(config, s);
    forall id ensures id !in s.waitingTicket {
      assert IndexedOK(s, id);
    }
  }

  lemma LoneQueue(config: Config, s: State, r: Request, now: int)
    requires s.waiting == map[] && Enqueue(config, s, r, now).1.Queued?
    ensures QueueOf(Enqueue(config, s, r, now).0.waiting, r.user) == [Promised(config, r, now)]
  {
  }

  lemma DeliverLone(config: Config, g: GateState, t: Ticket, now: int)
    requires Inv(config, g.queue) && Dispatch(config, g.queue, now).expired == []
    requires Dispatch(config, g.queue, now).admitted == [t]
    requires g.calls != [] && g.calls[|g.calls| - 1] == Call(t.id, Selecting, []) && t.id in g.waiters
    requires g.waiters[t.id] == |g.calls| - 1
    ensures var after, last := DispatchGate(config, g, now).0, |g.calls| - 1;
            && after.calls == g.calls[..last] + [Call(t.id, Selecting, [Grant(t, now)])]
            && after.queue == Dispatch(config, g.queue, now).state
  {
    hide Inv, Dispatch;
    var moved := g.(queue := Dispatch(config, g.queue, now).state);
    assert DeliverExpired(moved, []) == (moved, []);
    assert [t][..0] == [];
    assert DeliverAdmitted(moved, [], now) == (moved, []);
    assert [] + [Grant(t, now)] == [Grant(t, now)];
  }
}
