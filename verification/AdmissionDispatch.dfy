/** Expiry and dispatch: elapsed tickets leave first, then every free slot is filled. */
module AdmissionDispatch {
  import opened Common
  import opened AdmissionQueue
  import opened AdmissionInvariant

  // ---------------------------------------------------------------------------------------------
  // Splitting one queue
  // ---------------------------------------------------------------------------------------------

  lemma {:induction false} KeptMember(queue: seq<Ticket>, now: int, t: Ticket)
    ensures t in Kept(queue, now) <==> t in queue && now < t.deadline
    ensures t in Lapsed(queue, now) <==> t in queue && now >= t.deadline
    ensures |Kept(queue, now)| + |Lapsed(queue, now)| == |queue|
  {
    if queue != [] {
      var rest := queue[..|queue| - 1];
      KeptMember(rest, now, t);
      assert queue == rest + [queue[|queue| - 1]];
    }
  }

  lemma {:induction false} KeptDistinct(queue: seq<Ticket>, now: int)
    requires forall i, j :: 0 <= i < j < |queue| ==> queue[i].id != queue[j].id
    ensures forall i, j :: 0 <= i < j < |Kept(queue, now)| ==> Kept(queue, now)[i].id != Kept(queue, now)[j].id
    ensures IDs(Kept(queue, now)) !! IDs(Lapsed(queue, now))
  {
    if queue != [] {
      var rest, last := queue[..|queue| - 1], queue[|queue| - 1];
      KeptDistinct(rest, now);
      assert queue == rest + [last];
      forall i | 0 <= i < |Kept(rest, now)| ensures Kept(rest, now)[i].id != last.id {
        KeptMember(rest, now, Kept(rest, now)[i]);
      }
      forall i | 0 <= i < |Lapsed(rest, now)| ensures Lapsed(rest, now)[i].id != last.id {
        KeptMember(rest, now, Lapsed(rest, now)[i]);
      }
      LapsedIDs(Lapsed(rest, now), last);
      LapsedIDs(Kept(rest, now), last);
    }
  }

  // ---------------------------------------------------------------------------------------------
  // One user's turn
  // ---------------------------------------------------------------------------------------------

  lemma ExpireUserQueues(s: State, u: UserID, now: int)
    requires (forall v :: QueueOK(s, v)) && u in s.waiting
    ensures forall v :: QueueOK(ExpireUser(s, u, now), v)
  {
    hide Kept, Lapsed;
    var after, queue := ExpireUser(s, u, now), s.waiting[u];
    assert QueueOK(s, u);
    KeptDistinct(queue, now);
    forall v ensures QueueOK(after, v) {
      assert QueueOK(s, v);
      if v == u {
        var kept := Kept(queue, now);
        forall i | 0 <= i < |kept| ensures kept[i] in queue && kept[i].id in IDs(kept) {
          KeptMember(queue, now, kept[i]);
        }
      } else if v in after.waiting {
        forall id | id in IDs(Lapsed(queue, now)) ensures id in s.waitingTicket && s.waitingTicket[id] == u {
          var i :| 0 <= i < |Lapsed(queue, now)| && Lapsed(queue, now)[i].id == id;
          KeptMember(queue, now, Lapsed(queue, now)[i]);
        }
      }
    }
  }

  lemma ExpireUserIndex(s: State, u: UserID, now: int, id: TicketID)
    requires IndexedOK(s, id) && QueueOK(s, u) && u in s.waiting
    ensures IndexedOK(ExpireUser(s, u, now), id)
  {
    hide Kept, Lapsed;
    var after, queue := ExpireUser(s, u, now), s.waiting[u];
    if id in after.waitingTicket {
      var v := s.waitingTicket[id];
      var i :| 0 <= i < |s.waiting[v]| && s.waiting[v][i].id == id;
      if v == u {
        KeptMember(queue, now, queue[i]);
        var kept := Kept(queue, now);
        var k :| 0 <= k < |kept| && kept[k] == queue[i];
        assert after.waiting[u][k].id == id;
      } else {
        assert after.waiting[v][i].id == id;
      }
    }
  }

  lemma ExpireUserKeeps(s: State, u: UserID, now: int)
    requires Loose(s) && u in s.waiting
    ensures Loose(ExpireUser(s, u, now))
  {
    hide Kept, Lapsed, Total, QueueOK, IndexedOK;
    var after := ExpireUser(s, u, now);
    ExpireUserQueues(s, u, now);
    forall id ensures IndexedOK(after, id) {
      ExpireUserIndex(s, u, now, id);
    }
    var at :| 0 <= at < |s.order| && s.order[at] == u;
    TotalUpdate(s.order, at, s.waiting, after.waiting);
    KeptMember(s.waiting[u], now, Ticket("", "", 0, 0));
  }

  // ---------------------------------------------------------------------------------------------
  // The sweep
  // ---------------------------------------------------------------------------------------------

  /** Listed users of a prefix who still have a ticket, in order. */
  function Survivors(order: seq<UserID>, waiting: map<UserID, seq<Ticket>>, now: int): seq<UserID> {
    if order == [] then []
    else
      var rest, last := Survivors(order[..|order| - 1], waiting, now), order[|order| - 1];
      if Kept(QueueOf(waiting, last), now) == [] then rest else rest + [last]
  }

  /** The user swept last was not swept before. */
  lemma LastIsNew(order: seq<UserID>, n: nat)
    requires Distinct(order) && 0 < n <= |order|
    ensures order[..n] == order[..n - 1] + [order[n - 1]] && order[..n][..n - 1] == order[..n - 1]
    ensures order[n - 1] !in order[..n - 1]
  {
  }

  lemma ExpireUserEffect(s: State, u: UserID, now: int, v: UserID)
    ensures var after := ExpireUser(s, u, now);
            && after.order == s.order && after.cursor == s.cursor
            && after.active == s.active && after.activeByUser == s.activeByUser && after.waitingCount <= s.waitingCount
            && QueueOf(after.waiting, v) == if v == u then Kept(QueueOf(s.waiting, v), now) else QueueOf(s.waiting, v)
  {
    hide Kept, Lapsed, IDs;
  }

  /** Sweeping touches one queue at a time and nothing but the waiting side. */
  lemma {:induction false} SweepQueues(s: State, now: int, n: nat, u: UserID)
    requires Distinct(s.order) && n <= |s.order|
    ensures var done := ExpireFirst(s, now, n).0;
            && done.order == s.order && done.cursor == s.cursor
            && done.active == s.active && done.activeByUser == s.activeByUser
            && QueueOf(done.waiting, u) ==
                 if u in s.order[..n] then Kept(QueueOf(s.waiting, u), now) else QueueOf(s.waiting, u)
  {
    hide Kept, Lapsed, ExpireUser, Distinct, QueueOf;
    if n > 0 {
      SweepQueues(s, now, n - 1, u);
      LastIsNew(s.order, n);
      ExpireUserEffect(ExpireFirst(s, now, n - 1).0, s.order[n - 1], now, u);
    }
  }

  lemma {:induction false} SweepOrder(s: State, now: int, n: nat)
    requires Distinct(s.order) && n <= |s.order|
    ensures ExpireFirst(s, now, n).1 == Survivors(s.order[..n], s.waiting, now)
    ensures ExpireFirst(s, now, n).0.waitingCount <= s.waitingCount
  {
    hide Kept, Lapsed, ExpireUser, Distinct, QueueOf;
    if n > 0 {
      var u := s.order[n - 1];
      SweepOrder(s, now, n - 1);
      SweepQueues(s, now, n - 1, u);
      LastIsNew(s.order, n);
      ExpireUserEffect(ExpireFirst(s, now, n - 1).0, u, now, u);
    }
  }

  lemma {:induction false} SweepKeeps(s: State, now: int, n: nat)
    requires Loose(s) && OrderOK(s) && n <= |s.order|
    ensures Loose(ExpireFirst(s, now, n).0)
  {
    hide Kept, Lapsed, Loose;
    if n > 0 {
      SweepKeeps(s, now, n - 1);
      var done, u := ExpireFirst(s, now, n - 1).0, s.order[n - 1];
      SweepQueues(s, now, n - 1, u);
      assert u !in s.order[..n - 1] && u in s.waiting;
      ExpireUserKeeps(done, u, now);
    }
  }

  lemma {:induction false} SurvivorsMember(order: seq<UserID>, waiting: map<UserID, seq<Ticket>>, now: int)
    requires Distinct(order)
    ensures Distinct(Survivors(order, waiting, now))
    ensures forall u :: u in Survivors(order, waiting, now) <==> u in order && Kept(QueueOf(waiting, u), now) != []
  {
    hide Kept;
    if order != [] {
      var rest, last := order[..|order| - 1], order[|order| - 1];
      SurvivorsMember(rest, waiting, now);
      assert order == rest + [last];
      assert last !in rest;
    }
  }

  /** Users without tickets contribute nothing to the total. */
  lemma {:induction false} TotalSurvivors(order: seq<UserID>, before: map<UserID, seq<Ticket>>,
                                          after: map<UserID, seq<Ticket>>, now: int)
    requires forall i :: 0 <= i < |order| ==> QueueOf(after, order[i]) == Kept(QueueOf(before, order[i]), now)
    ensures Total(Survivors(order, before, now), after) == Total(order, after)
  {
    hide Kept;
    if order != [] {
      var rest, last := order[..|order| - 1], order[|order| - 1];
      TotalSurvivors(rest, before, after, now);
      TotalAppend(Survivors(rest, before, now), last, after);
    }
  }

  lemma ExpireQueues(config: Config, s: State, now: int, u: UserID)
    requires Inv(config, s)
    ensures QueueOf(Expire(s, now).0.waiting, u) == Kept(QueueOf(s.waiting, u), now)
  {
    hide Kept, Lapsed, Total, QueueOK, IndexedOK, ActiveOK, Search;
    TakeServesCursor(config, s);
    EmptyKept(now);
    SweepQueues(s, now, |s.order|, u);
    assert s.order[..|s.order|] == s.order;
  }

  lemma ExpireShape(config: Config, s: State, now: int)
    requires Inv(config, s)
    ensures var after := Expire(s, now).0;
            && after.order == Survivors(s.order, s.waiting, now)
            && after.active == s.active && after.activeByUser == s.activeByUser && after.waitingCount <= s.waitingCount
            && (if after.order == [] then after.cursor == 0 else after.cursor < |after.order|)
  {
    hide Kept, Lapsed, Total, QueueOK, IndexedOK, ActiveOK, Search, ExpireFirst, Distinct;
    TakeServesCursor(config, s);
    SweepQueues(s, now, |s.order|, "");
    SweepOrder(s, now, |s.order|);
    assert s.order[..|s.order|] == s.order;
  }

  /** Replacing a loose order by an exact listing of the users still waiting. */
  lemma Relist(done: State, order: seq<UserID>, cursor: nat)
    requires Loose(done) && Distinct(order) && Total(order, done.waiting) == Total(done.order, done.waiting)
    requires forall u :: u in order <==> u in done.waiting
    requires if order == [] then cursor == 0 else cursor < |order|
    ensures var after := done.(order := order, cursor := cursor);
            && OrderOK(after) && after.waitingCount == Total(after.order, after.waiting)
            && (forall u :: QueueOK(after, u)) && (forall id :: IndexedOK(after, id))
  {
    hide Total, QueueOK, IndexedOK;
    var after := done.(order := order, cursor := cursor);
    forall u ensures QueueOK(after, u) {
      assert QueueOK(done, u);
      QueueIgnoresOrder(done, after, u);
    }
    forall id ensures IndexedOK(after, id) {
      assert IndexedOK(done, id);
      IndexIgnoresOrder(done, after, id);
    }
  }

  lemma SweptListing(s: State, now: int)
    requires OrderOK(s) && Loose(s)
    ensures var (done, order, _) := ExpireFirst(s, now, |s.order|);
            && Loose(done) && Distinct(order) && (forall u :: u in order <==> u in done.waiting)
            && Total(order, done.waiting) == Total(done.order, done.waiting)
  {
    hide Kept, Total, ExpireFirst;
    var (done, order, _) := ExpireFirst(s, now, |s.order|);
    assert s.order[..|s.order|] == s.order;
    SweepOrder(s, now, |s.order|);
    SweepKeeps(s, now, |s.order|);
    SurvivorsMember(s.order, s.waiting, now);
    EmptyKept(now);
    forall u ensures u in order <==> u in done.waiting
      ensures u in s.order ==> QueueOf(done.waiting, u) == Kept(QueueOf(s.waiting, u), now)
    {
      SweepQueues(s, now, |s.order|, u);
    }
    SweepQueues(s, now, |s.order|, "");
    TotalSurvivors(s.order, s.waiting, done.waiting, now);
  }

  lemma ExpireLoose(config: Config, s: State, now: int)
    requires Inv(config, s)
    ensures var after := Expire(s, now).0;
            && OrderOK(after) && after.waitingCount == Total(after.order, after.waiting)
            && (forall u :: QueueOK(after, u)) && (forall id :: IndexedOK(after, id))
  {
    hide Total, QueueOK, IndexedOK, ActiveOK, Search, ExpireFirst, OrderOK, Loose;
    InvIsLoose(config, s);
    if s.waitingCount != 0 {
      ExpireShape(config, s, now);
      SweptListing(s, now);
      var (done, order, _) := ExpireFirst(s, now, |s.order|);
      Relist(done, order, Expire(s, now).0.cursor);
    }
  }

  lemma ExpireKeepsInv(config: Config, s: State, now: int)
    requires Inv(config, s)
    ensures Inv(config, Expire(s, now).0)
  {
    hide Expire, OrderOK, QueueOK, IndexedOK, ActiveOK, Total;
    ExpireShape(config, s, now);
    ExpireLoose(config, s, now);
    ActiveDependsOnActive(s, Expire(s, now).0);
  }

  lemma EmptyKept(now: int)
    ensures Kept([], now) == []
  {
  }

  lemma QueueIgnoresOrder(s: State, s': State, u: UserID)
    requires s.waiting == s'.waiting && s.waitingTicket == s'.waitingTicket && s.active == s'.active
    ensures QueueOK(s, u) == QueueOK(s', u)
  {
  }

  // ---------------------------------------------------------------------------------------------
  // Dispatch
  // ---------------------------------------------------------------------------------------------

  /** Fills free slots until none is free or nobody waits. */
  function AdmitAll(config: Config, s: State): (State, seq<Ticket>)
    requires Inv(config, s)
    decreases config.maxActive - |s.active|
  {
    if |s.active| >= config.maxActive then (s, [])
    else
      var (next, ticket) := Admit(s);
      AdmitKeepsInv(config, s);
      if ticket.None? then (next, [])
      else var (last, more) := AdmitAll(config, next); (last, [ticket.value] + more)
  }

  datatype Dispatched = Dispatched(state: State, expired: seq<Ticket>, admitted: seq<Ticket>)

  function Dispatch(config: Config, s: State, now: int): Dispatched
    requires Inv(config, s)
  {
    ExpireKeepsInv(config, s, now);
    var (live, expired) := Expire(s, now);
    var (last, admitted) := AdmitAll(config, live);
    Dispatched(last, expired, admitted)
  }

  method AdmitOne(q: Queue) returns (taken: Option<Ticket>)
    modifies q
    ensures (q.View(), taken) == Admit(old(q.View()))
  {
    taken := q.TakeNextLocked();
    if taken.Some? {
      var ticket := taken.value;
      q.active := q.active[ticket.id := ticket];
      q.activeByUser := q.activeByUser[ticket.user := ActiveOf(q.activeByUser, ticket.user) + 1];
    }
  }

  method DispatchQueue(q: Queue, now: int) returns (expired: seq<Ticket>, admitted: seq<Ticket>)
    requires Inv(q.config, q.View())
    modifies q
    ensures Dispatched(q.View(), expired, admitted) == Dispatch(q.config, old(q.View()), now)
  {
    hide Inv, Expire, Admit;
    ExpireKeepsInv(q.config, q.View(), now);
    expired := q.ExpireLocked(now);
    admitted := [];
    ghost var live := q.View();
    while |q.active| < q.config.maxActive
      invariant Inv(q.config, live) && Inv(q.config, q.View())
      invariant AdmitAll(q.config, live).0 == AdmitAll(q.config, q.View()).0
      invariant AdmitAll(q.config, live).1 == admitted + AdmitAll(q.config, q.View()).1
      decreases q.config.maxActive - |q.active|
    {
      AdmitKeepsInv(q.config, q.View());
      var taken := AdmitOne(q);
      if taken.None? {
        break;
      }
      admitted := admitted + [taken.value];
    }
  }

  lemma {:induction false} AdmitAllFills(config: Config, s: State)
    requires Inv(config, s)
    ensures Inv(config, AdmitAll(config, s).0)
    ensures var last := AdmitAll(config, s).0; |last.active| == config.maxActive || last.order == []
    decreases config.maxActive - |s.active|
  {
    hide Inv, Search, TakeAt;
    InvBound(config, s);
    if |s.active| < config.maxActive {
      AdmitKeepsInv(config, s);
      TakeServesCursor(config, s);
      if Admit(s).1.Some? {
        AdmitAllFills(config, Admit(s).0);
      }
    }
  }

  lemma InvBound(config: Config, s: State)
    requires Inv(config, s)
    ensures |s.active| <= config.maxActive
  {
  }

  /** Dispatch keeps the invariant and never leaves a slot idle while a ticket waits. */
  lemma DispatchKeepsInv(config: Config, s: State, now: int)
    requires Inv(config, s)
    ensures var after := Dispatch(config, s, now).state;
            Inv(config, after) && (|after.active| == config.maxActive || after.waitingCount == 0)
  {
    hide Inv, AdmitAll, Expire, Search;
    ExpireKeepsInv(config, s, now);
    AdmitAllFills(config, Expire(s, now).0);
    TakeServesCursor(config, Dispatch(config, s, now).state);
  }
}
