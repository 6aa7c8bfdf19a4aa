/** Which requests are accepted, and which instant and deadline their tickets carry. */
module AdmissionAnswers {
  import opened Common
  import opened AdmissionQueue
  import opened AdmissionInvariant
  import opened AdmissionDispatch
  import opened AdmissionRuns
  import AdmissionOwnership

  // ---------------------------------------------------------------------------------------------
  // Acceptance
  // ---------------------------------------------------------------------------------------------

  /** How long a request is willing to wait. */
  function Patience(config: Config, r: Request): int {
    if r.queueTimeout == 0 then config.maxQueueWait else r.queueTimeout
  }

  /** The ticket a request is promised at `now`. */
  function Promised(config: Config, r: Request, now: int): Ticket {
    Ticket(r.id, r.user, now, now + Patience(config, r))
  }

  /** Some ticket with this identifier is waiting or active. */
  ghost predicate Known(s: State, id: TicketID) {
    id in s.active || exists u, i :: 0 <= i < |QueueOf(s.waiting, u)| && QueueOf(s.waiting, u)[i].id == id
  }

  lemma KnownIsIndexed(config: Config, s: State, id: TicketID)
    requires Inv(config, s)
    ensures Known(s, id) <==> id in s.waitingTicket || id in s.active
  {
    hide Total, ActiveOK, OrderOK;
    assert IndexedOK(s, id);
    if id in s.waitingTicket {
      var u := s.waitingTicket[id];
      var i :| 0 <= i < |s.waiting[u]| && s.waiting[u][i].id == id;
      assert QueueOf(s.waiting, u)[i].id == id;
    }
    if u, i :| 0 <= i < |QueueOf(s.waiting, u)| && QueueOf(s.waiting, u)[i].id == id {
      assert QueueOK(s, u);
    }
  }

  /**
   * An enqueue is accepted exactly when both identifiers are given, the ticket is not known, there is room and the
   * timeout lies in range; the ticket then carries the request's own instant and patience. A known ticket and a
   * full queue are told apart from an invalid request.
   */
  lemma AcceptedExactly(config: Config, s: State, r: Request, now: int)
    requires config.Valid() && Inv(config, s)
    ensures var result := Enqueue(config, s, r, now).1;
            var named, room := r.id != "" && r.user != "", Total(s.order, s.waiting) < config.maxQueued;
            && (result.DuplicateTicket? <==> named && Known(s, r.id))
            && (result.QueueFull? <==> named && !Known(s, r.id) && !room)
            && (result.Queued? <==> named && !Known(s, r.id) && room && 0 <= r.queueTimeout <= config.maxQueueWait)
            && (result.Queued? ==> result.ticket == Promised(config, r, now))
  {
    hide Total, OrderOK, QueueOK, IndexedOK, ActiveOK, Known;
    KnownIsIndexed(config, s, r.id);
  }

  // ---------------------------------------------------------------------------------------------
  // Tickets over runs
  // ---------------------------------------------------------------------------------------------

  /** The ticket is waiting or active. */
  predicate Present(s: State, t: Ticket) {
    t in QueueOf(s.waiting, t.user) || (t.id in s.active && s.active[t.id] == t)
  }

  lemma WaitingAfterStep(config: Config, s: State, op: Op, t: Ticket, u: UserID)
    requires Inv(config, s) && t in QueueOf(Step(config, s, op).waiting, u)
    ensures t in QueueOf(s.waiting, u) || t in Joined(config, s, op, u)
  {
    hide Inv, Step, Joined, Served1, Dropped, Subsequence;
    StepMoves(config, s, op, u);
    var before, after := QueueOf(s.waiting, u), QueueOf(Step(config, s, op).waiting, u);
    var joined := Joined(config, s, op, u);
    assert t in multiset(after);
    assert t in multiset(before) + multiset(joined);
  }

  lemma ActiveAfterStep(config: Config, s: State, op: Op, t: Ticket)
    requires Inv(config, s) && t.id in Step(config, s, op).active && Step(config, s, op).active[t.id] == t
    ensures Present(s, t)
  {
    hide Inv, Search, Expire, Cancel, TakeAt;
    match op
    case EnqueueOp(_, _) =>
    case ExpireOp(now) => ExpireShape(config, s, now);
    case AdmitOp =>
      TakeServesCursor(config, s);
      if s.order != [] {
        HeadBelongsToUser(config, s);
        TakeQueue(s, s.cursor, s.order[s.cursor]);
        TakeLeavesActive(s, s.cursor);
      }
    case CancelOp(id) => CancelAddsNothing(s, id);
    case ReleaseOp(_) =>
  }

  /** The request of operation `i` was accepted in the state it met, and was promised this ticket. */
  ghost predicate AcceptedAt(config: Config, s: State, ops: seq<Op>, i: nat, t: Ticket) {
    && i < |ops| && ops[i].EnqueueOp? && t == Promised(config, ops[i].request, ops[i].now)
    && Enqueue(config, Run(config, s, ops[..i]), ops[i].request, ops[i].now).1.Queued?
  }

  lemma NewTicketIsPromised(config: Config, s: State, op: Op, t: Ticket, u: UserID)
    requires config.Valid() && Inv(config, s) && t in Joined(config, s, op, u)
    ensures op.EnqueueOp? && Enqueue(config, s, op.request, op.now).1.Queued?
            && t == Promised(config, op.request, op.now)
  {
    hide Inv, Known, Enqueue, Total, Promised;
    AcceptedExactly(config, s, op.request, op.now);
  }

  /**
   * Over every run, each ticket that waits or is active was there at the start or belongs to an accepted request of
   * the run, with the instant of that request and the deadline its patience allows.
   */
  lemma {:induction false} TicketsComeFromRequests(config: Config, s: State, ops: seq<Op>, t: Ticket)
    requires config.Valid() && Inv(config, s) && Present(Run(config, s, ops), t)
    ensures Present(s, t) || exists i: nat :: AcceptedAt(config, s, ops, i, t)
    decreases ops
  {
    hide Inv, Step, Enqueue, Joined, Promised;
    if ops != [] {
      var op, rest := ops[0], ops[1..];
      var next := Step(config, s, op);
      StepKeepsInv(config, s, op);
      TicketsComeFromRequests(config, next, rest, t);
      if Present(next, t) {
        if t in QueueOf(next.waiting, t.user) {
          WaitingAfterStep(config, s, op, t, t.user);
          if t !in QueueOf(s.waiting, t.user) {
            NewTicketIsPromised(config, s, op, t, t.user);
            assert ops[..0] == [];
            assert AcceptedAt(config, s, ops, 0, t);
          }
        } else {
          ActiveAfterStep(config, s, op, t);
        }
      } else {
        var i: nat :| AcceptedAt(config, next, rest, i, t);
        assert ops[..i + 1][1..] == rest[..i] && ops[i + 1] == rest[i];
        assert AcceptedAt(config, s, ops, i + 1, t);
      }
    }
  }

  /** The same for the tickets a dispatch admits. */
  lemma AdmittedComeFromRequests(config: Config, s: State, ops: seq<Op>, now: int, k: nat)
    requires config.Valid() && Inv(config, s) && Inv(config, Run(config, s, ops))
    requires k < |Dispatch(config, Run(config, s, ops), now).admitted|
    ensures var t := Dispatch(config, Run(config, s, ops), now).admitted[k];
            Present(s, t) || exists i: nat :: AcceptedAt(config, s, ops, i, t)
  {
    hide Inv, AdmitAll, Expire, Run, AcceptedAt, Kept;
    var before := Run(config, s, ops);
    ExpireKeepsInv(config, before, now);
    var live := Expire(before, now).0;
    var t := AdmitAll(config, live).1[k];
    AdmittedWereWaiting(config, live, k);
    ExpireQueues(config, before, now, t.user);
    KeptMember(QueueOf(before.waiting, t.user), now, t);
    TicketsComeFromRequests(config, s, ops, t);
  }

  // ---------------------------------------------------------------------------------------------
  // Cancelling, releasing and expiring
  // ---------------------------------------------------------------------------------------------

  lemma WithoutKeeps(q: seq<Ticket>, i: nat, t: Ticket)
    requires i < |q| && forall j, k :: 0 <= j < k < |q| ==> q[j].id != q[k].id
    ensures t in Without(q, i) <==> t in q && t.id != q[i].id
  {
    assert q == q[..i] + [q[i]] + q[i + 1..];
  }

  lemma CancelWaiting(config: Config, s: State, id: TicketID, t: Ticket)
    requires Inv(config, s) && id in s.waitingTicket && id !in s.active
    ensures var (after, result) := Cancel(s, id);
            && result.Canceled? && result.ticket.id == id && Present(s, result.ticket) && !result.wasActive
            && (t in QueueOf(after.waiting, t.user) <==> t in QueueOf(s.waiting, t.user) && t.id != id)
            && after.active == s.active
  {
    hide Total, ActiveOK, OrderOK, TicketIndex, RemoveUser;
    assert IndexedOK(s, id);
    var owner := s.waitingTicket[id];
    assert QueueOK(s, owner) && QueueOK(s, t.user);
    var q := s.waiting[owner];
    var i := TicketIndex(q, id);
    RemoveQueue(s, owner, id, t.user);
    RemoveTicketsActive(s, owner, id);
    WithoutKeeps(q, i, t);
    assert q[i] in QueueOf(s.waiting, q[i].user);
  }

  lemma RemoveTicketsActive(s: State, u: UserID, id: TicketID)
    ensures RemoveWaiting(s, u, id).0.active == s.active
  {
    hide IndexOf, TicketIndex;
  }

  /**
   * A cancellation finds exactly the tickets that wait or are active, says which it was, takes that ticket away and
   * leaves every other ticket where it is.
   */
  lemma CancelTakesOneTicket(config: Config, s: State, id: TicketID, t: Ticket)
    requires Inv(config, s)
    ensures var (after, result) := Cancel(s, id);
            && (result.Canceled? <==> Known(s, id))
            && (result.Canceled? ==>
                  result.ticket.id == id && Present(s, result.ticket) && (result.wasActive <==> id in s.active))
            && (t in QueueOf(after.waiting, t.user) <==> t in QueueOf(s.waiting, t.user) && t.id != id)
            && (t.id in after.active <==> t.id in s.active && t.id != id)
  {
    hide Inv, Known, RemoveWaiting;
    KnownIsIndexed(config, s, id);
    AdmissionOwnership.CancelTickets(config, s, id);
    if id in s.active {
      ActiveIsNamed(config, s, id);
      NotWaitingAndActive(config, s, id, t);
    } else if id in s.waitingTicket {
      CancelWaiting(config, s, id, t);
    } else {
      UnknownIsNotWaiting(config, s, id, t);
    }
  }

  lemma ActiveIsNamed(config: Config, s: State, id: TicketID)
    requires Inv(config, s) && id in s.active
    ensures s.active[id].id == id
  {
  }

  lemma NotWaitingAndActive(config: Config, s: State, id: TicketID, t: Ticket)
    requires Inv(config, s) && id in s.active
    ensures t in QueueOf(s.waiting, t.user) ==> t.id != id
  {
    assert QueueOK(s, t.user);
  }

  lemma UnknownIsNotWaiting(config: Config, s: State, id: TicketID, t: Ticket)
    requires Inv(config, s) && id !in s.waitingTicket
    ensures t in QueueOf(s.waiting, t.user) ==> t.id != id
  {
    assert QueueOK(s, t.user);
  }

  /** A release succeeds exactly for an active ticket and frees that ticket only. */
  lemma ReleaseFreesOneTicket(s: State, id: TicketID)
    ensures var (after, released) := Release(s, id);
            && (released <==> id in s.active) && after.active == s.active - {id} && after.waiting == s.waiting
  {
    if id !in s.active {
      assert s.active - {id} == s.active;
    }
  }

  lemma {:induction false} SweepExpires(config: Config, s: State, now: int, n: nat, t: Ticket)
    requires Inv(config, s) && n <= |s.order|
    ensures t in ExpireFirst(s, now, n).2 <==>
              t.user in s.order[..n] && t in QueueOf(s.waiting, t.user) && now >= t.deadline
    decreases n
  {
    hide Kept, Lapsed, Inv, ExpireUser, Distinct, QueueOf;
    if n > 0 {
      var u := s.order[n - 1];
      OrderIsDistinct(config, s);
      SweepExpires(config, s, now, n - 1, t);
      SweepQueues(s, now, n - 1, u);
      LastIsNew(s.order, n);
      KeptMember(QueueOf(s.waiting, u), now, t);
      WaitsForItsUser(config, s, u, t);
    }
  }

  lemma OrderIsDistinct(config: Config, s: State)
    requires Inv(config, s)
    ensures Distinct(s.order)
  {
  }

  lemma WaitsForItsUser(config: Config, s: State, u: UserID, t: Ticket)
    requires Inv(config, s)
    ensures t in QueueOf(s.waiting, u) ==> t.user == u
  {
    assert QueueOK(s, u);
  }

  /** An expiry reports exactly the waiting tickets whose deadline has passed, and keeps exactly the others waiting. */
  lemma ExpiresExactlyTheLapsed(config: Config, s: State, now: int, t: Ticket)
    requires Inv(config, s)
    ensures var (live, expired) := Expire(s, now);
            && (t in expired <==> t in QueueOf(s.waiting, t.user) && now >= t.deadline)
            && (t in QueueOf(live.waiting, t.user) <==> t in QueueOf(s.waiting, t.user) && now < t.deadline)
            && live.active == s.active
  {
    hide Kept, Lapsed, Total, ActiveOK, IndexedOK, QueueOK, ExpireFirst, Search;
    TakeServesCursor(config, s);
    ExpireShape(config, s, now);
    ExpireQueues(config, s, now, t.user);
    KeptMember(QueueOf(s.waiting, t.user), now, t);
    SweepExpires(config, s, now, |s.order|, t);
    assert s.order[..|s.order|] == s.order;
  }
}
