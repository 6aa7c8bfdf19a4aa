/** The queue's five redundant structures agree after every operation. */
module AdmissionInvariant {
  import opened Common
  import opened AdmissionQueue

  // ---------------------------------------------------------------------------------------------
  // The invariant
  // ---------------------------------------------------------------------------------------------

  function Total(order: seq<UserID>, waiting: map<UserID, seq<Ticket>>): nat {
    if order == [] then 0
    else Total(order[..|order| - 1], waiting) + |QueueOf(waiting, order[|order| - 1])|
  }

  /** userOrder lists, without duplicates, exactly the users with waiting tickets; the cursor is in range. */
  ghost predicate OrderOK(s: State) {
    && Distinct(s.order)
    && (if s.order == [] then s.cursor == 0 else s.cursor < |s.order|)
    && (forall u :: u in s.waiting <==> u in s.order)
    && (forall u :: u in s.waiting ==> s.waiting[u] != [])
  }

  ghost predicate QueueOK(s: State, u: UserID) {
    u in s.waiting ==>
      var q := s.waiting[u];
      && (forall i :: 0 <= i < |q| ==> q[i].user == u && q[i].id !in s.active
                                       && q[i].id in s.waitingTicket && s.waitingTicket[q[i].id] == u)
      && (forall i, j :: 0 <= i < j < |q| ==> q[i].id != q[j].id)
  }

  ghost predicate IndexedOK(s: State, id: TicketID) {
    id in s.waitingTicket ==>
      var u := s.waitingTicket[id];
      u in s.waiting && exists i :: 0 <= i < |s.waiting[u]| && s.waiting[u][i].id == id
  }

  function ActiveTickets(active: map<TicketID, Ticket>, u: UserID): set<TicketID> {
    set id | id in active && active[id].user == u
  }

  ghost predicate ActiveOK(s: State) {
    && (forall id :: id in s.active ==> s.active[id].id == id)
    && (forall u :: ActiveOf(s.activeByUser, u) == |ActiveTickets(s.active, u)|)
    && (forall u :: u in s.activeByUser ==> s.activeByUser[u] > 0)
  }

  ghost predicate Inv(config: Config, s: State) {
    && OrderOK(s)
    && (forall u :: QueueOK(s, u))
    && (forall id :: IndexedOK(s, id))
    && s.waitingCount == Total(s.order, s.waiting) <= config.maxQueued
    && ActiveOK(s)
    && |s.active| <= config.maxActive
  }

  lemma EmptyInv(config: Config)
    requires config.Valid()
    ensures Inv(config, EMPTY)
  {
    forall u ensures ActiveTickets(EMPTY.active, u) == {} {
    }
  }

  // ---------------------------------------------------------------------------------------------
  // Totals
  // ---------------------------------------------------------------------------------------------

  lemma {:induction false} TotalCongruent(order: seq<UserID>, a: map<UserID, seq<Ticket>>, b: map<UserID, seq<Ticket>>)
    requires forall i :: 0 <= i < |order| ==> QueueOf(a, order[i]) == QueueOf(b, order[i])
    ensures Total(order, a) == Total(order, b)
  {
    if order != [] {
      TotalCongruent(order[..|order| - 1], a, b);
    }
  }

  lemma {:induction false} TotalWithout(order: seq<UserID>, i: nat, waiting: map<UserID, seq<Ticket>>)
    requires i < |order|
    ensures Total(Without(order, i), waiting) == Total(order, waiting) - |QueueOf(waiting, order[i])|
  {
    hide QueueOf;
    var last := |order| - 1;
    var shorter := Without(order, i);
    if i == last {
      assert shorter == order[..last];
    } else {
      TotalWithout(order[..last], i, waiting);
      assert shorter[..last - 1] == Without(order[..last], i) && shorter[last - 1] == order[last];
    }
  }

  /** Replacing one listed user's queue changes the total by the difference in length. */
  lemma TotalUpdate(order: seq<UserID>, i: nat, a: map<UserID, seq<Ticket>>, b: map<UserID, seq<Ticket>>)
    requires Distinct(order) && i < |order|
    requires forall u :: u != order[i] ==> QueueOf(a, u) == QueueOf(b, u)
    ensures Total(order, b) == Total(order, a) - |QueueOf(a, order[i])| + |QueueOf(b, order[i])|
  {
    TotalWithout(order, i, a);
    TotalWithout(order, i, b);
    TotalCongruent(Without(order, i), a, b);
  }

  lemma TotalAppend(order: seq<UserID>, u: UserID, waiting: map<UserID, seq<Ticket>>)
    ensures Total(order + [u], waiting) == Total(order, waiting) + |QueueOf(waiting, u)|
  {
    assert (order + [u])[..|order|] == order;
  }

  // ---------------------------------------------------------------------------------------------
  // Enqueue
  // ---------------------------------------------------------------------------------------------

  /** What enqueueing does to the waiting side once the request is accepted. */
  function Append(s: State, t: Ticket): State {
    var queue := QueueOf(s.waiting, t.user);
    s.(order := if queue == [] then s.order + [t.user] else s.order,
       waiting := s.waiting[t.user := queue + [t]],
       waitingTicket := s.waitingTicket[t.id := t.user],
       waitingCount := s.waitingCount + 1)
  }

  lemma AppendKeepsOrder(s: State, t: Ticket)
    requires OrderOK(s)
    ensures OrderOK(Append(s, t))
    ensures Total(Append(s, t).order, Append(s, t).waiting) == Total(s.order, s.waiting) + 1
  {
    hide Total;
    var after := Append(s, t);
    if t.user in s.order {
      var i :| 0 <= i < |s.order| && s.order[i] == t.user;
      TotalUpdate(s.order, i, s.waiting, after.waiting);
    } else {
      TotalCongruent(s.order, s.waiting, after.waiting);
      TotalAppend(s.order, t.user, after.waiting);
    }
  }

  lemma AppendKeepsQueue(s: State, t: Ticket, u: UserID)
    requires QueueOK(s, u) && QueueOK(s, t.user) && t.id !in s.waitingTicket && t.id !in s.active
    ensures QueueOK(Append(s, t), u)
  {
  }

  lemma AppendKeepsIndex(s: State, t: Ticket, id: TicketID)
    requires IndexedOK(s, id)
    ensures IndexedOK(Append(s, t), id)
  {
    var after := Append(s, t);
    var queue, longer := QueueOf(s.waiting, t.user), after.waiting[t.user];
    if id == t.id {
      assert longer[|queue|].id == id;
    } else if id in s.waitingTicket {
      var u := s.waitingTicket[id];
      var i :| 0 <= i < |s.waiting[u]| && s.waiting[u][i].id == id;
      assert after.waiting[u][i].id == id;
    }
  }

  lemma EnqueueKeepsTickets(config: Config, s: State, r: Request, now: int)
    requires Inv(config, s)
    ensures forall u :: QueueOK(Enqueue(config, s, r, now).0, u)
    ensures forall id :: IndexedOK(Enqueue(config, s, r, now).0, id)
  {
    hide QueueOK, IndexedOK, OrderOK, Total, ActiveOK;
    var (after, result) := Enqueue(config, s, r, now);
    if result.Queued? {
      assert after == Append(s, result.ticket);
      forall u ensures QueueOK(after, u) {
        AppendKeepsQueue(s, result.ticket, u);
      }
      forall id ensures IndexedOK(after, id) {
        AppendKeepsIndex(s, result.ticket, id);
      }
    }
  }

  lemma EnqueueKeepsInv(config: Config, s: State, r: Request, now: int)
    requires Inv(config, s)
    ensures Inv(config, Enqueue(config, s, r, now).0)
  {
    hide Total, OrderOK, QueueOK, IndexedOK;
    EnqueueKeepsTickets(config, s, r, now);
    if Enqueue(config, s, r, now).1.Queued? {
      AppendKeepsOrder(s, Enqueue(config, s, r, now).1.ticket);
    }
  }

  // ---------------------------------------------------------------------------------------------
  // Take
  // ---------------------------------------------------------------------------------------------

  lemma SearchStopsAtCursor(s: State)
    requires s.order != [] && s.cursor < |s.order| && QueueOf(s.waiting, s.order[s.cursor]) != []
    ensures Search(s, 0) == s.cursor
  {
    assert (s.cursor + 0) % |s.order| == s.cursor;
  }

  /** Every listed user has a ticket, so the rotation always stops at the cursor itself. */
  lemma TakeServesCursor(config: Config, s: State)
    requires Inv(config, s)
    ensures TakeNext(s).1.None? <==> s.order == []
    ensures s.order == [] <==> s.waitingCount == 0
    ensures s.order != [] ==>
              && s.cursor < |s.order| && QueueOf(s.waiting, s.order[s.cursor]) != []
              && TakeNext(s) == (TakeAt(s, s.cursor).0, Some(TakeAt(s, s.cursor).1))
  {
    hide TakeAt, QueueOK, IndexedOK, ActiveOK, Search;
    if s.order != [] {
      var last := |s.order| - 1;
      assert s.order[last] in s.waiting && s.order[s.cursor] in s.waiting;
      SearchStopsAtCursor(s);
    }
  }

  lemma TakeKeepsOrder(s: State, index: nat)
    requires OrderOK(s) && index < |s.order| && QueueOf(s.waiting, s.order[index]) != []
    ensures OrderOK(TakeAt(s, index).0)
    ensures Total(TakeAt(s, index).0.order, TakeAt(s, index).0.waiting) == Total(s.order, s.waiting) - 1
  {
    var after, u := TakeAt(s, index).0, s.order[index];
    TotalUpdate(s.order, index, s.waiting, after.waiting);
    if |s.waiting[u]| == 1 {
      TotalWithout(s.order, index, after.waiting);
      WithoutMember(s.order, index);
    }
  }

  lemma WithoutMember(order: seq<UserID>, index: nat)
    requires Distinct(order) && index < |order|
    ensures Distinct(Without(order, index))
    ensures forall u :: u in Without(order, index) <==> u in order && u != order[index]
  {
    assert order == order[..index] + [order[index]] + order[index + 1..];
  }

  lemma TakeKeepsQueue(s: State, index: nat, u: UserID)
    requires index < |s.order| && QueueOf(s.waiting, s.order[index]) != []
    requires QueueOK(s, u) && QueueOK(s, s.order[index])
    ensures QueueOK(TakeAt(s, index).0, u)
  {
  }

  lemma TakeKeepsIndex(s: State, index: nat, id: TicketID)
    requires index < |s.order| && QueueOf(s.waiting, s.order[index]) != [] && IndexedOK(s, id)
    ensures IndexedOK(TakeAt(s, index).0, id)
  {
    var after, user := TakeAt(s, index).0, s.order[index];
    if id in after.waitingTicket {
      var u := s.waitingTicket[id];
      var i :| 0 <= i < |s.waiting[u]| && s.waiting[u][i].id == id;
      if u == user {
        assert after.waiting[u][i - 1].id == id;
      } else {
        assert after.waiting[u][i].id == id;
      }
    }
  }

  lemma TakeKeepsTickets(config: Config, s: State, index: nat)
    requires Inv(config, s) && index < |s.order| && QueueOf(s.waiting, s.order[index]) != []
    ensures forall u :: QueueOK(TakeAt(s, index).0, u)
    ensures forall id :: IndexedOK(TakeAt(s, index).0, id)
  {
    hide QueueOK, IndexedOK, TakeAt, Total, ActiveOK;
    forall u ensures QueueOK(TakeAt(s, index).0, u) {
      TakeKeepsQueue(s, index, u);
    }
    forall id ensures IndexedOK(TakeAt(s, index).0, id) {
      TakeKeepsIndex(s, index, id);
    }
  }

  lemma ActivateCounts(s: State, ticket: Ticket, u: UserID)
    requires ActiveOK(s) && ticket.id !in s.active
    ensures ActiveOf(Activate(s, ticket).activeByUser, u) == |ActiveTickets(Activate(s, ticket).active, u)|
  {
    var after := Activate(s, ticket);
    var before := ActiveTickets(s.active, u);
    if u == ticket.user {
      assert ActiveTickets(after.active, u) == before + {ticket.id};
    } else {
      assert ActiveTickets(after.active, u) == before;
    }
  }

  lemma ActivateGrows(s: State, ticket: Ticket)
    requires ticket.id !in s.active
    ensures |Activate(s, ticket).active| == |s.active| + 1
  {
    assert Activate(s, ticket).active.Keys == s.active.Keys + {ticket.id};
  }

  lemma ActivateKeepsActive(s: State, ticket: Ticket)
    requires ActiveOK(s) && ticket.id !in s.active
    ensures ActiveOK(Activate(s, ticket)) && |Activate(s, ticket).active| == |s.active| + 1
  {
    hide ActiveTickets;
    var after := Activate(s, ticket);
    ActivateGrows(s, ticket);
    forall u ensures ActiveOf(after.activeByUser, u) == |ActiveTickets(after.active, u)| {
      ActivateCounts(s, ticket, u);
    }
    forall u | u in after.activeByUser ensures after.activeByUser[u] > 0 {
      assert ActiveOf(s.activeByUser, u) >= 0;
    }
  }

  /** Taking the next ticket and activating it. */
  function Admit(s: State): (State, Option<Ticket>) {
    var (next, ticket) := TakeNext(s);
    if ticket.None? then (next, None) else (Activate(next, ticket.value), ticket)
  }

  lemma TakeKeepsInv(config: Config, s: State)
    requires Inv(config, s) && s.order != []
    ensures s.cursor < |s.order| && QueueOf(s.waiting, s.order[s.cursor]) != []
    ensures var (next, ticket) := TakeAt(s, s.cursor);
            Inv(config, next) && ticket.id !in next.active && ticket.id !in next.waitingTicket
  {
    hide Total, OrderOK, ActiveOK, Search, IndexedOK;
    TakeServesCursor(config, s);
    TakeKeepsOrder(s, s.cursor);
    TakeKeepsTickets(config, s, s.cursor);
    assert QueueOK(s, s.order[s.cursor]);
    ActiveDependsOnActive(s, TakeAt(s, s.cursor).0);
  }

  lemma ActiveDependsOnActive(s: State, s': State)
    requires s.active == s'.active && s.activeByUser == s'.activeByUser
    ensures ActiveOK(s) == ActiveOK(s')
  {
  }

  lemma ActivateKeepsInv(config: Config, s: State, ticket: Ticket)
    requires Inv(config, s) && ticket.id !in s.active && ticket.id !in s.waitingTicket && |s.active| < config.maxActive
    ensures Inv(config, Activate(s, ticket))
    ensures |Activate(s, ticket).active| == |s.active| + 1
  {
    hide Total, ActiveOK;
    ActivateKeepsActive(s, ticket);
    forall u ensures QueueOK(Activate(s, ticket), u) {
      assert QueueOK(s, u);
    }
    forall id ensures IndexedOK(Activate(s, ticket), id) {
      assert IndexedOK(s, id);
    }
  }

  lemma AdmitKeepsInv(config: Config, s: State)
    requires Inv(config, s) && |s.active| < config.maxActive
    ensures Inv(config, Admit(s).0)
    ensures Admit(s).1.Some? ==> |Admit(s).0.active| == |s.active| + 1
  {
    hide Inv, TakeAt, Activate;
    TakeServesCursor(config, s);
    if s.order != [] {
      TakeKeepsInv(config, s);
      var (next, ticket) := TakeAt(s, s.cursor);
      TakeLeavesActive(s, s.cursor);
      ActivateKeepsInv(config, next, ticket);
    }
  }

  lemma TakeLeavesActive(s: State, index: nat)
    requires index < |s.order| && QueueOf(s.waiting, s.order[index]) != []
    ensures TakeAt(s, index).0.active == s.active && TakeAt(s, index).0.activeByUser == s.activeByUser
  {
  }

  // ---------------------------------------------------------------------------------------------
  // Release and cancel
  // ---------------------------------------------------------------------------------------------

  lemma ReleaseCounts(s: State, id: TicketID, u: UserID)
    requires ActiveOK(s) && id in s.active
    ensures ActiveOf(Release(s, id).0.activeByUser, u) == |ActiveTickets(Release(s, id).0.active, u)|
    ensures u in Release(s, id).0.activeByUser ==> Release(s, id).0.activeByUser[u] > 0
  {
    var after, before := Release(s, id).0, ActiveTickets(s.active, u);
    if u == s.active[id].user {
      assert id in before;
      assert ActiveTickets(after.active, u) == before - {id};
    } else {
      assert ActiveTickets(after.active, u) == before;
    }
  }

  lemma ReleaseKeepsInv(config: Config, s: State, id: TicketID)
    requires Inv(config, s)
    ensures Inv(config, Release(s, id).0)
  {
    hide Total, ActiveTickets;
    if id in s.active {
      var after := Release(s, id).0;
      assert after.active.Keys == s.active.Keys - {id};
      forall u ensures ActiveOf(after.activeByUser, u) == |ActiveTickets(after.active, u)|
        && (u in after.activeByUser ==> after.activeByUser[u] > 0)
      {
        ReleaseCounts(s, id, u);
      }
      forall u ensures QueueOK(after, u) {
        assert QueueOK(s, u);
      }
      forall t ensures IndexedOK(after, t) {
        assert IndexedOK(s, t);
      }
    }
  }

  /** The order may still list users whose queue is gone; everything else agrees. */
  ghost predicate Loose(s: State) {
    && Distinct(s.order)
    && (forall u :: u in s.waiting ==> u in s.order && s.waiting[u] != [])
    && (forall u :: QueueOK(s, u))
    && (forall id :: IndexedOK(s, id))
    && s.waitingCount == Total(s.order, s.waiting)
  }

  lemma RemoveTicketKeeps(s: State, u: UserID, index: nat)
    requires Loose(s) && u in s.waiting && index < |s.waiting[u]|
    ensures var q := s.waiting[u];
            var rest := Without(q, index);
            Loose(s.(waiting := if rest == [] then s.waiting - {u} else s.waiting[u := rest],
                     waitingTicket := s.waitingTicket - {q[index].id},
                     waitingCount := s.waitingCount - 1))
  {
    hide Total, QueueOK, IndexedOK;
    var q := s.waiting[u];
    var rest := Without(q, index);
    var after := s.(waiting := if rest == [] then s.waiting - {u} else s.waiting[u := rest],
                    waitingTicket := s.waitingTicket - {q[index].id},
                    waitingCount := s.waitingCount - 1);
    var at :| 0 <= at < |s.order| && s.order[at] == u;
    TotalUpdate(s.order, at, s.waiting, after.waiting);
    forall v ensures QueueOK(after, v) {
      RemovedQueue(s, after, u, index, v);
    }
    forall id ensures IndexedOK(after, id) {
      RemovedIndex(s, after, u, index, id);
    }
  }

  lemma RemovedQueue(s: State, after: State, u: UserID, index: nat, v: UserID)
    requires QueueOK(s, u) && QueueOK(s, v) && u in s.waiting && index < |s.waiting[u]| && after.active == s.active
    requires after.waitingTicket == s.waitingTicket - {s.waiting[u][index].id}
    requires var rest := Without(s.waiting[u], index);
             after.waiting == if rest == [] then s.waiting - {u} else s.waiting[u := rest]
    ensures QueueOK(after, v)
  {
  }

  lemma RemovedIndex(s: State, after: State, u: UserID, index: nat, id: TicketID)
    requires IndexedOK(s, id) && QueueOK(s, u) && u in s.waiting && index < |s.waiting[u]|
    requires after.waitingTicket == s.waitingTicket - {s.waiting[u][index].id}
    requires var rest := Without(s.waiting[u], index);
             after.waiting == if rest == [] then s.waiting - {u} else s.waiting[u := rest]
    ensures IndexedOK(after, id)
  {
    if id in after.waitingTicket {
      var v := s.waitingTicket[id];
      var i :| 0 <= i < |s.waiting[v]| && s.waiting[v][i].id == id;
      if v != u {
        assert after.waiting[v][i].id == id;
      } else {
        var rest := Without(s.waiting[u], index);
        var k := if i < index then i else i - 1;
        assert rest[k].id == id;
      }
    }
  }

  lemma RemoveUserKeeps(s: State, u: UserID)
    requires Loose(s) && u !in s.waiting && u in s.order && s.cursor < |s.order|
    requires forall v :: v in s.order && v != u ==> v in s.waiting
    ensures Loose(RemoveUser(s, u)) && OrderOK(RemoveUser(s, u))
  {
    hide Total, IndexedOK;
    var index := IndexOf(s.order, u);
    WithoutMember(s.order, index);
    TotalWithout(s.order, index, s.waiting);
    var after := RemoveUser(s, u);
    forall v ensures QueueOK(after, v) {
      assert QueueOK(s, v);
    }
    forall id ensures IndexedOK(after, id) {
      assert IndexedOK(s, id);
      IndexIgnoresOrder(s, after, id);
    }
  }

  lemma IndexIgnoresOrder(s: State, s': State, id: TicketID)
    requires s.waiting == s'.waiting && s.waitingTicket == s'.waitingTicket
    ensures IndexedOK(s, id) == IndexedOK(s', id)
  {
  }

  lemma CancelWaitingKeeps(config: Config, s: State, id: TicketID)
    requires Inv(config, s) && id in s.waitingTicket
    ensures var (next, ticket) := RemoveWaiting(s, s.waitingTicket[id], id);
            && ticket.Some? && ticket.value.id == id
            && Loose(next) && OrderOK(next) && next.waitingCount == s.waitingCount - 1
            && next.active == s.active && next.activeByUser == s.activeByUser
  {
    hide Total, QueueOK, ActiveOK, Loose;
    assert IndexedOK(s, id);
    var u := s.waitingTicket[id];
    var q := s.waiting[u];
    var index := TicketIndex(q, id);
    InvIsLoose(config, s);
    RemoveTicketKeeps(s, u, index);
    if |q| == 1 {
      RemoveUserKeeps(s.(waiting := s.waiting - {u}, waitingTicket := s.waitingTicket - {id},
                         waitingCount := s.waitingCount - 1), u);
    }
  }

  lemma InvIsLoose(config: Config, s: State)
    requires Inv(config, s)
    ensures Loose(s)
  {
  }

  lemma CancelKeepsInv(config: Config, s: State, id: TicketID)
    requires Inv(config, s)
    ensures Inv(config, Cancel(s, id).0)
  {
    hide Total, RemoveWaiting, OrderOK, QueueOK, IndexedOK, ActiveOK, Release;
    ReleaseKeepsInv(config, s, id);
    if id !in s.active && id in s.waitingTicket {
      CancelWaitingKeeps(config, s, id);
      ActiveDependsOnActive(s, RemoveWaiting(s, s.waitingTicket[id], id).0);
    }
  }

  lemma CancelAddsNothing(s: State, id: TicketID)
    ensures forall k :: k in Cancel(s, id).0.active ==> k in s.active && Cancel(s, id).0.active[k] == s.active[k]
  {
    hide IndexOf, TicketIndex;
  }
}
