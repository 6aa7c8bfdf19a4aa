/** Rotation: a waiting user's cyclic distance from the cursor bounds how often others are served first. */
module AdmissionFairness {
  import opened Common
  import opened AdmissionQueue
  import opened AdmissionInvariant
  import opened AdmissionDispatch

  /** How many users come before `u` in the rotation. */
  function Distance(s: State, u: UserID): int
    requires u in s.order
  {
    Cyclic(IndexOf(s.order, u), s.cursor, |s.order|)
  }

  /** Steps from `cursor` forward to `i` on a cycle of `n`. */
  function Cyclic(i: int, cursor: int, n: int): int {
    if i >= cursor then i - cursor else i - cursor + n
  }

  lemma DistanceInRange(s: State, u: UserID)
    requires OrderOK(s) && u in s.order
    ensures 0 <= Distance(s, u) < |s.order|
    ensures Distance(s, u) == 0 <==> s.order[s.cursor] == u
  {
  }

  lemma IndexAt(order: seq<UserID>, i: nat)
    requires Distinct(order) && i < |order|
    ensures IndexOf(order, order[i]) == i
  {
  }

  lemma IndexWithout(order: seq<UserID>, r: nat, u: UserID)
    requires Distinct(order) && r < |order| && u in order && u != order[r]
    ensures u in Without(order, r)
    ensures IndexOf(Without(order, r), u) == IndexOf(order, u) - if IndexOf(order, u) > r then 1 else 0
  {
    WithoutMember(order, r);
    var i := IndexOf(order, u);
    IndexAt(Without(order, r), if i > r then i - 1 else i);
  }

  // ---------------------------------------------------------------------------------------------
  // One operation
  // ---------------------------------------------------------------------------------------------

  /** Serving another user brings `u` exactly one step closer, whether or not that user leaves the rotation. */
  lemma TakeBringsCloser(config: Config, s: State, u: UserID)
    requires Inv(config, s) && u in s.order && u != s.order[s.cursor]
    ensures QueueOf(s.waiting, s.order[s.cursor]) != []
    ensures u in TakeAt(s, s.cursor).0.order
    ensures Distance(TakeAt(s, s.cursor).0, u) == Distance(s, u) - 1
  {
    hide Inv, IndexOf, TakeAt, TakeNext, Cyclic;
    TakeServesCursor(config, s);
    InvOrder(config, s);
    if |QueueOf(s.waiting, s.order[s.cursor])| == 1 {
      CloserWhenCut(s, u);
    } else {
      CloserWhenKept(s, u);
    }
  }

  lemma CloserWhenKept(s: State, u: UserID)
    requires OrderOK(s) && u in s.order && u != s.order[s.cursor] && |QueueOf(s.waiting, s.order[s.cursor])| > 1
    ensures u in TakeAt(s, s.cursor).0.order && Distance(TakeAt(s, s.cursor).0, u) == Distance(s, u) - 1
  {
    hide TakeAt, IndexOf;
    NotAtCursor(s, u);
    TakeMovesCursor(s);
    OneStepCloser(IndexOf(s.order, u), s.cursor, |s.order|);
  }

  lemma CloserWhenCut(s: State, u: UserID)
    requires OrderOK(s) && u in s.order && u != s.order[s.cursor] && |QueueOf(s.waiting, s.order[s.cursor])| == 1
    ensures u in TakeAt(s, s.cursor).0.order && Distance(TakeAt(s, s.cursor).0, u) == Distance(s, u) - 1
  {
    hide TakeAt, IndexOf;
    NotAtCursor(s, u);
    TakeMovesCursor(s);
    IndexWithout(s.order, s.cursor, u);
    OneStepCloser(IndexOf(s.order, u), s.cursor, |s.order|);
  }

  lemma InvOrder(config: Config, s: State)
    requires Inv(config, s)
    ensures OrderOK(s)
  {
  }

  lemma TakeMovesCursor(s: State)
    requires s.cursor < |s.order| && QueueOf(s.waiting, s.order[s.cursor]) != []
    ensures var c, n, last := s.cursor, |s.order|, |QueueOf(s.waiting, s.order[s.cursor])| == 1;
            var after := TakeAt(s, c).0;
            && after.order == (if last then Without(s.order, c) else s.order)
            && (n > 1 ==> after.cursor == if c == n - 1 then 0 else if last then c else c + 1)
  {
    SmallMod(s.cursor + 1, |s.order|);
    if |s.order| > 1 {
      SmallMod(s.cursor, |s.order| - 1);
    }
  }

  /** Advancing the cursor past one position, kept or cut out, shortens every other distance by one. */
  lemma OneStepCloser(i: nat, c: nat, n: nat)
    requires i < n && c < n && i != c
    ensures Cyclic(i, if c == n - 1 then 0 else c + 1, n) == Cyclic(i, c, n) - 1
    ensures Cyclic(if i > c then i - 1 else i, if c == n - 1 then 0 else c, n - 1) == Cyclic(i, c, n) - 1
  {
  }

  lemma NotAtCursor(s: State, u: UserID)
    requires OrderOK(s) && u in s.order && u != s.order[s.cursor]
    ensures IndexOf(s.order, u) != s.cursor && |s.order| > 1
  {
  }

  lemma SmallMod(a: nat, n: nat)
    requires 0 < n && a <= n
    ensures a % n == if a == n then 0 else a
  {
  }

  /** Enqueueing moves nobody forward, and moves `u` back by at most one, only when a new user joins. */
  lemma EnqueueBarelyDelays(config: Config, s: State, r: Request, now: int, u: UserID)
    requires Inv(config, s) && u in s.order
    ensures var after := Enqueue(config, s, r, now).0;
            && u in after.order
            && Distance(s, u) <= Distance(after, u) <= Distance(s, u) + |after.order| - |s.order|
            && |after.order| - |s.order| == if r.user !in s.order && Enqueue(config, s, r, now).1.Queued? then 1 else 0
  {
    hide Total, QueueOK, IndexedOK, ActiveOK;
    var after := Enqueue(config, s, r, now).0;
    var i := IndexOf(s.order, u);
    if |after.order| > |s.order| {
      EnqueueKeepsInv(config, s, r, now);
      assert after.order[i] == u;
      IndexAt(after.order, i);
    }
  }

  /** Removing a user from the rotation never moves another one back. */
  lemma RemoveUserNeverDelays(s: State, gone: UserID, u: UserID)
    requires Distinct(s.order) && s.cursor < |s.order| && u in s.order && gone in s.order && u != gone
    ensures u in RemoveUser(s, gone).order
    ensures Distance(RemoveUser(s, gone), u) <= Distance(s, u)
  {
    hide IndexOf;
    IndexWithout(s.order, IndexOf(s.order, gone), u);
  }

  /** Cancelling the last ticket of a user removes exactly that user from the rotation. */
  lemma CancelOrder(config: Config, s: State, id: TicketID)
    requires Inv(config, s) && id !in s.active && id in s.waitingTicket
    ensures var after, gone := Cancel(s, id).0, s.waitingTicket[id];
            && gone in s.order
            && if |QueueOf(s.waiting, gone)| == 1
               then after.order == RemoveUser(s, gone).order && after.cursor == RemoveUser(s, gone).cursor
               else after.order == s.order && after.cursor == s.cursor
  {
    hide Total, QueueOK, ActiveOK, IndexOf;
    assert IndexedOK(s, id);
  }

  /** Cancelling never moves a user back. */
  lemma CancelNeverDelays(config: Config, s: State, id: TicketID, u: UserID)
    requires Inv(config, s) && u in s.order && u in Cancel(s, id).0.order
    ensures Distance(Cancel(s, id).0, u) <= Distance(s, u)
  {
    hide Inv, RemoveWaiting, RemoveUser, IndexOf, Cyclic;
    if id !in s.active && id in s.waitingTicket {
      CancelOrder(config, s, id);
      InvOrder(config, s);
      var gone := s.waitingTicket[id];
      if |QueueOf(s.waiting, gone)| == 1 {
        RemoveUserCuts(s, gone);
        RemoveUserNeverDelays(s, gone, u);
      }
    }
  }

  lemma RemoveUserCuts(s: State, gone: UserID)
    requires Distinct(s.order) && gone in s.order
    ensures gone !in RemoveUser(s, gone).order
  {
    WithoutMember(s.order, IndexOf(s.order, gone));
  }

  // ---------------------------------------------------------------------------------------------
  // Expiry
  // ---------------------------------------------------------------------------------------------

  predicate Survives(s: State, u: UserID, now: int) {
    Kept(QueueOf(s.waiting, u), now) != []
  }

  /** Surviving users among the first `i`. */
  function Alive(s: State, now: int, i: nat): nat
    requires i <= |s.order|
  {
    |Survivors(s.order[..i], s.waiting, now)|
  }

  lemma AliveStep(s: State, now: int, i: nat)
    requires i < |s.order|
    ensures Alive(s, now, i + 1) == Alive(s, now, i) + if Survives(s, s.order[i], now) then 1 else 0
  {
    hide Kept;
    assert s.order[..i + 1][..i] == s.order[..i];
  }

  lemma {:induction false} AliveGrows(s: State, now: int, i: nat, j: nat)
    requires i <= j <= |s.order|
    ensures Alive(s, now, i) <= Alive(s, now, j) <= Alive(s, now, i) + j - i
    decreases j
  {
    if i < j {
      AliveGrows(s, now, i, j - 1);
      AliveStep(s, now, j - 1);
    }
  }

  lemma {:induction false} SurvivorIndex(s: State, now: int, i: nat, n: nat)
    requires Distinct(s.order) && i < n <= |s.order| && Survives(s, s.order[i], now)
    ensures Alive(s, now, i) < Alive(s, now, n)
    ensures Survivors(s.order[..n], s.waiting, now)[Alive(s, now, i)] == s.order[i]
    decreases n
  {
    hide Kept;
    assert s.order[..n][..n - 1] == s.order[..n - 1];
    if i < n - 1 {
      SurvivorIndex(s, now, i, n - 1);
    }
  }

  /** Where expiry leaves a survivor and the cursor. */
  lemma ExpirePosition(config: Config, s: State, now: int, i: nat)
    requires Inv(config, s) && i < |s.order| && Survives(s, s.order[i], now)
    ensures var after := Expire(s, now).0;
            && |after.order| == Alive(s, now, |s.order|)
            && s.order[i] in after.order && IndexOf(after.order, s.order[i]) == Alive(s, now, i)
            && after.cursor == if Survives(s, s.order[s.cursor], now) then Alive(s, now, s.cursor) else 0
  {
    hide Kept, Total, QueueOK, IndexedOK, ActiveOK, ExpireFirst, Survivors, Search;
    TakeServesCursor(config, s);
    ExpireShape(config, s, now);
    SurvivorsMember(s.order, s.waiting, now);
    SweepOrder(s, now, |s.order|);
    assert s.order[..|s.order|] == s.order;
    SurvivorIndex(s, now, i, |s.order|);
    IndexAt(Survivors(s.order, s.waiting, now), Alive(s, now, i));
    SmallMod(s.cursor, |s.order|);
    if Survives(s, s.order[s.cursor], now) {
      SurvivorIndex(s, now, s.cursor, |s.order|);
      IndexAt(Survivors(s.order, s.waiting, now), Alive(s, now, s.cursor));
    }
  }

  /** While the cursor's own user survives, expiry never moves a user back. */
  lemma ExpiryNeverDelays(config: Config, s: State, now: int, u: UserID)
    requires Inv(config, s) && u in s.order && Survives(s, u, now) && Survives(s, s.order[s.cursor], now)
    ensures u in Expire(s, now).0.order
    ensures Distance(Expire(s, now).0, u) <= Distance(s, u)
  {
    hide Kept, Total, QueueOK, IndexedOK, ActiveOK, Expire, Alive, Survives;
    var i, c, n := IndexOf(s.order, u), s.cursor, |s.order|;
    ExpirePosition(config, s, now, i);
    if i >= c {
      AliveGrows(s, now, c, i);
    } else {
      AliveGrows(s, now, 0, i);
      AliveGrows(s, now, c, n);
      AliveGrows(s, now, i, c);
      NobodyBeforeFirst(s, now);
    }
  }

  lemma NobodyBeforeFirst(s: State, now: int)
    ensures Alive(s, now, 0) == 0
  {
    assert s.order[..0] == [];
  }

  /** First surviving position at or after `i`, or the length of the order. */
  function NextSurvivor(s: State, now: int, i: nat): (f: nat)
    requires i <= |s.order|
    ensures i <= f <= |s.order|
    ensures f < |s.order| ==> Survives(s, s.order[f], now)
    ensures forall j :: i <= j < f ==> !Survives(s, s.order[j], now)
    decreases |s.order| - i
  {
    if i == |s.order| || Survives(s, s.order[i], now) then i else NextSurvivor(s, now, i + 1)
  }

  /** Whether no survivor is moved back by this expiry. */
  ghost predicate DelaysNobody(s: State, now: int) {
    forall i :: 0 <= i < |s.order| && Survives(s, s.order[i], now) ==>
      s.order[i] in Expire(s, now).0.order && Distance(Expire(s, now).0, s.order[i]) <= Distance(s, s.order[i])
  }

  lemma {:induction false} NobodyInBetween(s: State, now: int, i: nat, j: nat)
    requires i <= j <= |s.order| && forall k :: i <= k < j ==> !Survives(s, s.order[k], now)
    ensures Alive(s, now, j) == Alive(s, now, i)
    decreases j
  {
    hide Survives, Alive;
    if i < j {
      NobodyInBetween(s, now, i, j - 1);
      AliveStep(s, now, j - 1);
    }
  }

  /**
   * When the cursor's user itself expires the cursor falls back to the first user.  That moves nobody back
   * exactly when the survivors before the old cursor are no more than the lapsed users between it and the
   * next survivor (or there is no such survivor).
   */
  lemma LostAnchorDelays(config: Config, s: State, now: int)
    requires Inv(config, s) && s.order != [] && !Survives(s, s.order[s.cursor], now)
    ensures var f := NextSurvivor(s, now, s.cursor);
            DelaysNobody(s, now) <==> f == |s.order| || Alive(s, now, s.cursor) <= f - s.cursor
  {
    hide Kept, Total, QueueOK, IndexedOK, ActiveOK, Expire, Alive, Survives;
    var c, n := s.cursor, |s.order|;
    var f := NextSurvivor(s, now, c);
    NobodyInBetween(s, now, c, f);
    forall i | 0 <= i < n && Survives(s, s.order[i], now)
      ensures s.order[i] in Expire(s, now).0.order
      ensures Distance(Expire(s, now).0, s.order[i]) == Alive(s, now, i)
      ensures i < c ==> Distance(Expire(s, now).0, s.order[i]) <= Distance(s, s.order[i])
      ensures i >= c ==> f <= i && Distance(s, s.order[i]) == i - c && Alive(s, now, i) <= Alive(s, now, c) + i - f
    {
      ExpirePosition(config, s, now, i);
      IndexAt(s.order, i);
      AliveGrows(s, now, 0, i);
      NobodyBeforeFirst(s, now);
      if i >= c {
        AliveGrows(s, now, f, i);
      }
    }
  }

  /** How far an expiry can move a survivor back: nothing while the cursor's user survives. */
  function Setback(s: State, now: int): nat {
    if s.cursor >= |s.order| || Survives(s, s.order[s.cursor], now) then 0
    else
      var f := NextSurvivor(s, now, s.cursor);
      if f == |s.order| then 0 else Max(0, Alive(s, now, s.cursor) - (f - s.cursor))
  }

  /** No expiry moves a survivor back by more than the setback. */
  lemma ExpiryDelaysAtMost(config: Config, s: State, now: int, u: UserID)
    requires Inv(config, s) && u in s.order && Survives(s, u, now)
    ensures u in Expire(s, now).0.order
    ensures Distance(Expire(s, now).0, u) <= Distance(s, u) + Setback(s, now)
  {
    hide Kept, Total, QueueOK, IndexedOK, ActiveOK, Expire, Alive, Survives;
    if Survives(s, s.order[s.cursor], now) {
      ExpiryNeverDelays(config, s, now, u);
    } else {
      var i, c := IndexOf(s.order, u), s.cursor;
      var f := NextSurvivor(s, now, c);
      ExpirePosition(config, s, now, i);
      AliveGrows(s, now, 0, i);
      NobodyBeforeFirst(s, now);
      NobodyInBetween(s, now, c, f);
      if i >= c {
        AliveGrows(s, now, f, i);
      }
    }
  }

  /** The setback is attained: the next survivor after the cursor is moved back by exactly that much. */
  lemma SetbackIsAttained(config: Config, s: State, now: int)
    requires Inv(config, s) && Setback(s, now) > 0
    ensures exists u :: u in s.order && u in Expire(s, now).0.order
                        && Distance(Expire(s, now).0, u) == Distance(s, u) + Setback(s, now)
  {
    hide Kept, Total, QueueOK, IndexedOK, ActiveOK, Expire, Alive, Survives;
    var c := s.cursor;
    var f := NextSurvivor(s, now, c);
    NobodyInBetween(s, now, c, f);
    ExpirePosition(config, s, now, f);
    IndexAt(s.order, f);
    var u := s.order[f];
    assert Distance(Expire(s, now).0, u) == Distance(s, u) + Setback(s, now);
  }

  /** Four users, the cursor on the third, whose only ticket lapses at 1. */
  function Example(): State {
    State(map["a" := [Ticket("a", "a", 0, 9)], "b" := [Ticket("b", "b", 0, 9)],
              "c" := [Ticket("c", "c", 0, 1)], "d" := [Ticket("d", "d", 0, 9)]],
          map["a" := "a", "b" := "b", "c" := "c", "d" := "d"], ["a", "b", "c", "d"], 2, 4, map[], map[])
  }

  lemma ExampleSurvivors(u: UserID)
    requires u in Example().order
    ensures Survives(Example(), u, 1) <==> u != "c"
  {
    SingleKept(Example().waiting[u][0], 1);
  }

  lemma ExampleAlive()
    ensures Alive(Example(), 1, 2) == 2 && NextSurvivor(Example(), 1, 2) == 3
  {
    hide Alive, Survives;
    var s := Example();
    forall u | u in s.order ensures Survives(s, u, 1) <==> u != "c" {
      ExampleSurvivors(u);
    }
    NobodyBeforeFirst(s, 1);
    AliveStep(s, 1, 0);
    AliveStep(s, 1, 1);
  }

  /** The reset cursor can move a waiting user back. */
  lemma LostAnchorCanDelay()
    ensures exists config: Config, s: State, now: int :: Inv(config, s) && s.order != [] && !DelaysNobody(s, now)
  {
    hide Inv, Alive, DelaysNobody, Survives, NextSurvivor;
    var config, s := Config(4, 1, 9), Example();
    ConcreteInv(config, s);
    ExampleAlive();
    ExampleSurvivors("c");
    LostAnchorDelays(config, s, 1);
  }

  lemma SingleKept(t: Ticket, now: int)
    ensures Kept([t], now) == if now < t.deadline then [t] else []
  {
    assert [t][..0] == [];
  }

  ghost predicate FourUsers(s: State) {
    && s.order == ["a", "b", "c", "d"] && s.cursor == 2 && s.waitingCount == 4
    && s.active == map[] && s.activeByUser == map[]
    && s.waiting.Keys == {"a", "b", "c", "d"} && s.waitingTicket.Keys == {"a", "b", "c", "d"}
    && (forall u :: u in s.waiting ==>
          s.waitingTicket[u] == u && |s.waiting[u]| == 1 && s.waiting[u][0].id == s.waiting[u][0].user == u)
  }

  lemma FourUsersOrder(s: State)
    requires FourUsers(s)
    ensures OrderOK(s)
  {
    assert Distinct(s.order);
    assert forall u :: u in s.order <==> u in {"a", "b", "c", "d"};
  }

  lemma FourUsersTickets(s: State, u: UserID)
    requires FourUsers(s)
    ensures QueueOK(s, u) && IndexedOK(s, u)
  {
    if u in s.waitingTicket {
      assert s.waiting[u][0].id == u;
    }
  }

  lemma FourUsersActive(s: State)
    requires FourUsers(s)
    ensures ActiveOK(s)
  {
    forall u ensures ActiveTickets(s.active, u) == {} {
      NothingActive(u);
    }
  }

  lemma FourUsersTotal(s: State)
    requires FourUsers(s)
    ensures Total(s.order, s.waiting) == 4
  {
    hide Total;
    TotalOfFour(s.waiting);
  }

  lemma ConcreteInv(config: Config, s: State)
    requires config.maxQueued >= 4 && config.maxActive >= 0 && FourUsers(s)
    ensures Inv(config, s)
  {
    hide Total, OrderOK, QueueOK, IndexedOK, ActiveOK;
    FourUsersOrder(s);
    FourUsersActive(s);
    FourUsersTotal(s);
    forall u ensures QueueOK(s, u) && IndexedOK(s, u) {
      FourUsersTickets(s, u);
    }
  }

  lemma NothingActive(u: UserID)
    ensures ActiveTickets(map[], u) == {}
  {
  }

  lemma TotalOfFour(waiting: map<UserID, seq<Ticket>>)
    requires forall u :: u in {"a", "b", "c", "d"} ==> |QueueOf(waiting, u)| == 1
    ensures Total(["a", "b", "c", "d"], waiting) == 4
  {
    hide Total;
    TotalAppend([], "a", waiting);
    TotalAppend(["a"], "b", waiting);
    TotalAppend(["a", "b"], "c", waiting);
    TotalAppend(["a", "b", "c"], "d", waiting);
    assert [] + ["a"] == ["a"] && ["a"] + ["b"] == ["a", "b"] && ["a", "b"] + ["c"] == ["a", "b", "c"];
    assert ["a", "b", "c"] + ["d"] == ["a", "b", "c", "d"];
    TotalOfNone(waiting);
  }

  lemma TotalOfNone(waiting: map<UserID, seq<Ticket>>)
    ensures Total([], waiting) == 0
  {
  }
}
