/** Whole runs of the queue: bounded overtaking, first-come-first-served per user, and ticket conservation. */
module AdmissionRuns {
  import opened Common
  import opened AdmissionQueue
  import opened AdmissionInvariant
  import opened AdmissionDispatch
  import opened AdmissionFairness

  datatype Op =
    | EnqueueOp(request: Request, now: int)
    | ExpireOp(now: int)
    | AdmitOp
    | CancelOp(id: TicketID)
    | ReleaseOp(id: TicketID)

  /** One atomic operation; a dispatch is an expiry followed by admissions. */
  function Step(config: Config, s: State, op: Op): State {
    match op
    case EnqueueOp(r, now) => Enqueue(config, s, r, now).0
    case ExpireOp(now) => Expire(s, now).0
    case AdmitOp => if |s.active| < config.maxActive then Admit(s).0 else s
    case CancelOp(id) => Cancel(s, id).0
    case ReleaseOp(id) => Release(s, id).0
  }

  function Run(config: Config, s: State, ops: seq<Op>): State
    decreases ops
  {
    if ops == [] then s else Run(config, Step(config, s, ops[0]), ops[1..])
  }

  lemma StepKeepsInv(config: Config, s: State, op: Op)
    requires Inv(config, s)
    ensures Inv(config, Step(config, s, op))
  {
    hide Inv, Enqueue, Expire, Admit, Cancel, Release;
    match op
    case EnqueueOp(r, now) => EnqueueKeepsInv(config, s, r, now);
    case ExpireOp(now) => ExpireKeepsInv(config, s, now);
    case AdmitOp => if |s.active| < config.maxActive { AdmitKeepsInv(config, s); }
    case CancelOp(id) => CancelKeepsInv(config, s, id);
    case ReleaseOp(id) => ReleaseKeepsInv(config, s, id);
  }

  /** After every operation of every run the queue's structures agree and stay within their bounds. */
  lemma {:induction false} RunKeepsInv(config: Config, s: State, ops: seq<Op>)
    requires Inv(config, s)
    ensures Inv(config, Run(config, s, ops))
    decreases ops
  {
    hide Inv, Step;
    if ops != [] {
      StepKeepsInv(config, s, ops[0]);
      RunKeepsInv(config, Step(config, s, ops[0]), ops[1..]);
    }
  }

  function Admissions(n: nat): seq<Op> {
    if n == 0 then [] else [AdmitOp] + Admissions(n - 1)
  }

  lemma {:induction false} AdmitAllIsRun(config: Config, s: State)
    requires Inv(config, s)
    ensures Run(config, s, Admissions(|AdmitAll(config, s).1|)) == AdmitAll(config, s).0
    decreases config.maxActive - |s.active|
  {
    hide Inv, TakeAt, Search;
    if |s.active| < config.maxActive {
      AdmitKeepsInv(config, s);
      TakeServesCursor(config, s);
      if Admit(s).1.Some? {
        var next := Admit(s).0;
        AdmitAllIsRun(config, next);
        var ops := Admissions(|AdmitAll(config, s).1|);
        assert ops[0] == AdmitOp && ops[1..] == Admissions(|AdmitAll(config, next).1|);
      }
    }
  }

  /** A dispatch is a run of these operations. */
  lemma DispatchIsRun(config: Config, s: State, now: int)
    requires Inv(config, s)
    ensures var d := Dispatch(config, s, now);
            Run(config, s, [ExpireOp(now)] + Admissions(|d.admitted|)) == d.state
  {
    hide Inv, AdmitAll, Expire;
    ExpireKeepsInv(config, s, now);
    var live := Expire(s, now).0;
    AdmitAllIsRun(config, live);
    var ops := [ExpireOp(now)] + Admissions(|AdmitAll(config, live).1|);
    assert ops[1..] == Admissions(|AdmitAll(config, live).1|);
  }

  // ---------------------------------------------------------------------------------------------
  // Bounded overtaking
  // ---------------------------------------------------------------------------------------------

  /** The user an operation serves, if any. */
  function Served(config: Config, s: State, op: Op): Option<UserID> {
    if op.AdmitOp? && |s.active| < config.maxActive && Admit(s).1.Some? then Some(Admit(s).1.value.user) else None
  }

  function Overtakings(config: Config, s: State, ops: seq<Op>, u: UserID): nat
    decreases ops
  {
    if ops == [] then 0
    else
      (if Served(config, s, ops[0]).Some? && Served(config, s, ops[0]).value != u then 1 else 0)
        + Overtakings(config, Step(config, s, ops[0]), ops[1..], u)
  }

  /** Enqueues that bring a new user into the rotation. */
  function Newcomers(config: Config, s: State, ops: seq<Op>): nat
    decreases ops
  {
    if ops == [] then 0
    else
      (if ops[0].EnqueueOp? && |Step(config, s, ops[0]).order| > |s.order| then 1 else 0)
        + Newcomers(config, Step(config, s, ops[0]), ops[1..])
  }

  /** What expiries that lose the cursor's user cost. */
  function Setbacks(config: Config, s: State, ops: seq<Op>): nat
    decreases ops
  {
    if ops == [] then 0
    else
      (if ops[0].ExpireOp? then Setback(s, ops[0].now) else 0) + Setbacks(config, Step(config, s, ops[0]), ops[1..])
  }

  /** `u` waits all along without being served. */
  ghost predicate KeepsWaiting(config: Config, s: State, ops: seq<Op>, u: UserID)
    decreases ops
  {
    && u in s.order
    && (ops != [] ==>
          Served(config, s, ops[0]) != Some(u) && KeepsWaiting(config, Step(config, s, ops[0]), ops[1..], u))
  }

  lemma AdmitRank(config: Config, s: State, u: UserID)
    requires Inv(config, s) && u in s.order && Served(config, s, AdmitOp) != Some(u)
    ensures var after := Step(config, s, AdmitOp);
            && u in after.order
            && Distance(after, u) + (if Served(config, s, AdmitOp).Some? then 1 else 0) == Distance(s, u)
  {
    hide Inv, TakeAt, Search, Distance;
    if |s.active| < config.maxActive {
      TakeServesCursor(config, s);
      var (next, ticket) := TakeAt(s, s.cursor);
      HeadBelongsToUser(config, s);
      TakeBringsCloser(config, s, u);
      DistanceIgnoresActive(next, Activate(next, ticket), u);
    }
  }

  lemma HeadBelongsToUser(config: Config, s: State)
    requires Inv(config, s) && s.order != []
    ensures s.cursor < |s.order| && QueueOf(s.waiting, s.order[s.cursor]) != []
    ensures TakeAt(s, s.cursor).1.user == s.order[s.cursor]
  {
    TakeServesCursor(config, s);
    assert QueueOK(s, s.order[s.cursor]);
  }

  lemma DistanceIgnoresActive(s: State, s': State, u: UserID)
    requires s.order == s'.order && s.cursor == s'.cursor && u in s.order
    ensures Distance(s, u) == Distance(s', u)
  {
  }

  lemma ExpireKeepsOnlySurvivors(config: Config, s: State, now: int, u: UserID)
    requires Inv(config, s) && u in Expire(s, now).0.order
    ensures u in s.order && Survives(s, u, now)
  {
    hide Kept, Expire;
    ExpireShape(config, s, now);
    SurvivorsMember(s.order, s.waiting, now);
  }

  lemma ReleaseKeepsRank(s: State, id: TicketID, u: UserID)
    requires u in s.order
    ensures u in Release(s, id).0.order && Distance(Release(s, id).0, u) == Distance(s, u)
  {
  }

  lemma StepRank(config: Config, s: State, op: Op, u: UserID)
    requires Inv(config, s) && u in s.order && u in Step(config, s, op).order && Served(config, s, op) != Some(u)
    ensures Distance(Step(config, s, op), u) + (if Served(config, s, op).Some? then 1 else 0)
              <= Distance(s, u) + (if op.EnqueueOp? && |Step(config, s, op).order| > |s.order| then 1 else 0)
                 + if op.ExpireOp? then Setback(s, op.now) else 0
  {
    hide Inv, Distance, Enqueue, Expire, Cancel, Release, Admit, Survives, Setback;
    match op
    case EnqueueOp(r, now) => EnqueueBarelyDelays(config, s, r, now, u);
    case ExpireOp(now) =>
      ExpireKeepsOnlySurvivors(config, s, now, u);
      ExpiryDelaysAtMost(config, s, now, u);
    case AdmitOp => AdmitRank(config, s, u);
    case CancelOp(id) => CancelNeverDelays(config, s, id, u);
    case ReleaseOp(id) => ReleaseKeepsRank(s, id, u);
  }

  /**
   * Bounded overtaking over every run: while `u` waits, others are served at most as often as `u` was far from
   * the cursor, plus once per newcomer, plus the setbacks of expiries that lose the cursor's user.
   */
  lemma {:induction false} BoundedOvertaking(config: Config, s: State, ops: seq<Op>, u: UserID)
    requires Inv(config, s) && KeepsWaiting(config, s, ops, u)
    ensures u in Run(config, s, ops).order
    ensures Distance(Run(config, s, ops), u) + Overtakings(config, s, ops, u)
              <= Distance(s, u) + Newcomers(config, s, ops) + Setbacks(config, s, ops)
    decreases ops
  {
    hide Inv, Distance, Step, Served, Setback;
    if ops != [] {
      var next := Step(config, s, ops[0]);
      assert u in next.order;
      StepRank(config, s, ops[0], u);
      StepKeepsInv(config, s, ops[0]);
      BoundedOvertaking(config, next, ops[1..], u);
    }
  }

  /** The tickets of `k` successive takes. */
  function Takes(s: State, k: nat): seq<Ticket>
    decreases k
  {
    if k == 0 || TakeNext(s).1.None? then [] else [TakeNext(s).1.value] + Takes(TakeNext(s).0, k - 1)
  }

  /** Without arrivals, take number d serves the user at distance d: n takes serve n distinct users. */
  lemma {:induction false} TakesServeByDistance(config: Config, s: State, k: nat, u: UserID)
    requires Inv(config, s) && u in s.order && Distance(s, u) < k
    ensures 0 <= Distance(s, u) < |Takes(s, k)|
    ensures Takes(s, k)[Distance(s, u)].user == u
    decreases k
  {
    hide Inv, Distance, TakeNext, TakeAt;
    InvOrder(config, s);
    DistanceInRange(s, u);
    TakeServesCursor(config, s);
    HeadBelongsToUser(config, s);
    TakeKeepsInv(config, s);
    if Distance(s, u) > 0 {
      TakeBringsCloser(config, s, u);
      TakesServeByDistance(config, TakeAt(s, s.cursor).0, k - 1, u);
    }
  }

  /** Without arrivals, the takes go round the rotation from the cursor, so n takes serve n distinct users. */
  lemma TakesServeDistinctUsers(config: Config, s: State, k: nat)
    requires Inv(config, s)
    ensures |Takes(s, k)| >= Min(k, |s.order|)
    ensures forall i :: 0 <= i < Min(k, |s.order|) ==> Takes(s, k)[i].user == s.order[(s.cursor + i) % |s.order|]
    ensures forall i, j :: 0 <= i < j < Min(k, |s.order|) ==> Takes(s, k)[i].user != Takes(s, k)[j].user
  {
    hide Inv, Takes, Distance;
    InvOrder(config, s);
    var n := |s.order|;
    forall i | 0 <= i < Min(k, n)
      ensures i < |Takes(s, k)| && Takes(s, k)[i].user == s.order[(s.cursor + i) % n]
    {
      UserAtDistance(s, i);
      TakesServeByDistance(config, s, k, s.order[(s.cursor + i) % n]);
    }
    if Min(k, n) > 0 {
      var last := Min(k, n) - 1;
      UserAtDistance(s, last);
      TakesServeByDistance(config, s, k, s.order[(s.cursor + last) % n]);
    }
    forall i, j | 0 <= i < j < Min(k, n) ensures Takes(s, k)[i].user != Takes(s, k)[j].user {
      UserAtDistance(s, i);
      UserAtDistance(s, j);
    }
  }

  lemma UserAtDistance(s: State, i: nat)
    requires OrderOK(s) && i < |s.order|
    ensures Distance(s, s.order[(s.cursor + i) % |s.order|]) == i
  {
    var n := |s.order|;
    var at := if s.cursor + i < n then s.cursor + i else s.cursor + i - n;
    ModIs(s.cursor + i, n, at);
    IndexAt(s.order, at);
  }

  lemma ModIs(a: nat, n: nat, r: nat)
    requires r < n && (a == r || a == r + n)
    ensures a % n == r
  {
    if a == r + n {
      assert a == 1 * n + r;
    }
  }

  // ---------------------------------------------------------------------------------------------
  // Order and conservation of tickets
  // ---------------------------------------------------------------------------------------------

  ghost predicate Subsequence<T(!new)>(a: seq<T>, b: seq<T>) {
    a == [] || (b != [] && ((a[0] == b[0] && Subsequence(a[1..], b[1..])) || Subsequence(a, b[1..])))
  }

  lemma {:induction false} SubsequenceRefl<T(!new)>(a: seq<T>)
    ensures Subsequence(a, a)
  {
    if a != [] {
      SubsequenceRefl(a[1..]);
    }
  }

  lemma {:induction false} SubsequenceTrans<T(!new)>(a: seq<T>, b: seq<T>, c: seq<T>)
    requires Subsequence(a, b) && Subsequence(b, c)
    ensures Subsequence(a, c)
    decreases |b| + |c|
  {
    if a != [] {
      if b[0] == c[0] && Subsequence(b[1..], c[1..]) {
        if a[0] == b[0] && Subsequence(a[1..], b[1..]) {
          SubsequenceTrans(a[1..], b[1..], c[1..]);
        } else {
          SubsequenceTrans(a, b[1..], c[1..]);
        }
      } else {
        SubsequenceTrans(a, b, c[1..]);
      }
    }
  }

  lemma {:induction false} SubsequenceAppend<T(!new)>(a: seq<T>, b: seq<T>, c: seq<T>)
    requires Subsequence(a, b)
    ensures Subsequence(a + c, b + c)
    decreases |b|
  {
    if b == [] {
      SubsequenceRefl(c);
      assert a + c == c && b + c == c;
    } else {
      assert (b + c)[1..] == b[1..] + c;
      if a != [] && a[0] == b[0] && Subsequence(a[1..], b[1..]) {
        SubsequenceAppend(a[1..], b[1..], c);
        assert (a + c)[1..] == a[1..] + c;
      } else {
        if a == [] {
          assert Subsequence(a, b[1..]);
        }
        SubsequenceAppend(a, b[1..], c);
      }
    }
  }

  lemma {:induction false} SubsequenceSkip<T(!new)>(a: seq<T>, x: T)
    ensures Subsequence(a, a + [x])
  {
    if a != [] {
      SubsequenceSkip(a[1..], x);
      assert (a + [x])[1..] == a[1..] + [x];
    }
  }

  /**
   * A queue goes from `before` to `after`: the served tickets followed by the remaining ones keep the order of
   * arrival, and every ticket is accounted for once.
   */
  ghost predicate Moves(before: seq<Ticket>, joined: seq<Ticket>, served: seq<Ticket>, dropped: seq<Ticket>,
                        after: seq<Ticket>)
  {
    && Subsequence(served + after, before + joined)
    && multiset(served) + multiset(dropped) + multiset(after) == multiset(before) + multiset(joined)
  }

  lemma MovesNothing(q: seq<Ticket>)
    ensures Moves(q, [], [], [], q)
  {
    SubsequenceRefl(q);
    assert [] + q == q && q + [] == q;
  }

  lemma MovesJoin(q: seq<Ticket>, t: Ticket)
    ensures Moves(q, [t], [], [], q + [t])
  {
    SubsequenceRefl(q + [t]);
    assert [] + (q + [t]) == q + [t];
  }

  lemma MovesServe(q: seq<Ticket>)
    requires q != []
    ensures Moves(q, [], [q[0]], [], q[1..])
  {
    SubsequenceRefl(q);
    assert [q[0]] + q[1..] == q && q + [] == q;
    assert multiset([q[0]]) + multiset(q[1..]) == multiset([q[0]] + q[1..]);
  }

  lemma MovesDrop(q: seq<Ticket>, i: nat)
    requires i < |q|
    ensures Moves(q, [], [], [q[i]], Without(q, i))
  {
    hide Subsequence;
    SubsequenceSkip(q[..i], q[i]);
    SubsequenceAppend(q[..i], q[..i] + [q[i]], q[i + 1..]);
    assert q == q[..i] + [q[i]] + q[i + 1..];
    assert [] + Without(q, i) == Without(q, i) && q + [] == q;
  }

  lemma {:induction false} KeptIsSubsequence(queue: seq<Ticket>, now: int)
    ensures Subsequence(Kept(queue, now), queue)
  {
    hide Subsequence;
    if queue != [] {
      var rest, last := queue[..|queue| - 1], queue[|queue| - 1];
      KeptIsSubsequence(rest, now);
      assert queue == rest + [last];
      SubsequenceAppend(Kept(rest, now), rest, [last]);
      SubsequenceSkip(rest, last);
      SubsequenceTrans(Kept(rest, now), rest, queue);
    } else {
      SubsequenceRefl(queue);
    }
  }

  lemma {:induction false} KeptAndLapsed(queue: seq<Ticket>, now: int)
    ensures multiset(Kept(queue, now)) + multiset(Lapsed(queue, now)) == multiset(queue)
  {
    if queue != [] {
      KeptAndLapsed(queue[..|queue| - 1], now);
      assert queue == queue[..|queue| - 1] + [queue[|queue| - 1]];
    }
  }

  lemma MovesExpire(q: seq<Ticket>, now: int)
    ensures Moves(q, [], [], Lapsed(q, now), Kept(q, now))
  {
    hide Subsequence, Kept, Lapsed;
    KeptIsSubsequence(q, now);
    KeptAndLapsed(q, now);
    assert [] + Kept(q, now) == Kept(q, now) && q + [] == q;
  }

  lemma MovesCompose(before: seq<Ticket>, j: seq<Ticket>, s: seq<Ticket>, d: seq<Ticket>, middle: seq<Ticket>,
                     j': seq<Ticket>, s': seq<Ticket>, d': seq<Ticket>, after: seq<Ticket>)
    requires Moves(before, j, s, d, middle) && Moves(middle, j', s', d', after)
    ensures Moves(before, j + j', s + s', d + d', after)
  {
    hide Subsequence;
    SubsequencePrefix(s, s' + after, middle + j');
    SubsequenceAppend(s + middle, before + j, j');
    assert s + (middle + j') == s + middle + j';
    assert before + j + j' == before + (j + j');
    assert s + (s' + after) == s + s' + after;
    SubsequenceTrans(s + s' + after, s + middle + j', before + (j + j'));
    AccountsCompose(multiset(before), multiset(j), multiset(s), multiset(d), multiset(middle),
                    multiset(j'), multiset(s'), multiset(d'), multiset(after));
  }

  lemma AccountsCompose<T>(b: multiset<T>, j: multiset<T>, s: multiset<T>, d: multiset<T>, m: multiset<T>,
                           j': multiset<T>, s': multiset<T>, d': multiset<T>, a: multiset<T>)
    requires s + d + m == b + j && s' + d' + a == m + j'
    ensures (s + s') + (d + d') + a == b + (j + j')
  {
    assert (s + s') + (d + d') + a == (s + d) + (s' + d' + a);
    assert (s + d) + (m + j') == (s + d + m) + j';
  }

  /** Tickets of `u` that an operation adds, admits, and drops unserved. */
  function Joined(config: Config, s: State, op: Op, u: UserID): seq<Ticket> {
    if op.EnqueueOp? && op.request.user == u && Enqueue(config, s, op.request, op.now).1.Queued?
    then [Enqueue(config, s, op.request, op.now).1.ticket] else []
  }

  function Served1(config: Config, s: State, op: Op, u: UserID): seq<Ticket> {
    if Served(config, s, op) == Some(u) then [Admit(s).1.value] else []
  }

  function Dropped(config: Config, s: State, op: Op, u: UserID): seq<Ticket> {
    match op
    case ExpireOp(now) => Lapsed(QueueOf(s.waiting, u), now)
    case CancelOp(id) =>
      (var result := Cancel(s, id).1;
       if result.Canceled? && !result.wasActive && result.ticket.user == u then [result.ticket] else [])
    case _ => []
  }

  /** What one operation does to one user's queue. */
  ghost predicate QueueMoves(config: Config, s: State, op: Op, u: UserID) {
    Moves(QueueOf(s.waiting, u), Joined(config, s, op, u), Served1(config, s, op, u), Dropped(config, s, op, u),
          QueueOf(Step(config, s, op).waiting, u))
  }

  lemma EnqueueMoves(config: Config, s: State, op: Op, u: UserID)
    requires op.EnqueueOp?
    ensures QueueMoves(config, s, op, u)
  {
    hide Moves;
    var before, result := QueueOf(s.waiting, u), Enqueue(config, s, op.request, op.now).1;
    MovesNothing(before);
    if result.Queued? && op.request.user == u {
      MovesJoin(before, result.ticket);
    }
  }

  lemma ExpireMoves(config: Config, s: State, op: Op, u: UserID)
    requires Inv(config, s) && op.ExpireOp?
    ensures QueueMoves(config, s, op, u)
  {
    hide Inv, Expire, Moves, Kept, Lapsed;
    ExpireQueues(config, s, op.now, u);
    MovesExpire(QueueOf(s.waiting, u), op.now);
  }

  lemma TakeQueue(s: State, index: nat, u: UserID)
    requires index < |s.order| && QueueOf(s.waiting, s.order[index]) != []
    ensures var (next, ticket) := TakeAt(s, index);
            var q := QueueOf(s.waiting, u);
            if u == s.order[index] then ticket == q[0] && QueueOf(next.waiting, u) == q[1..]
            else QueueOf(next.waiting, u) == q
  {
  }

  lemma AdmitMoves(config: Config, s: State, u: UserID)
    requires Inv(config, s)
    ensures QueueMoves(config, s, AdmitOp, u)
  {
    hide Inv, Moves, TakeAt, TakeNext;
    var before := QueueOf(s.waiting, u);
    MovesNothing(before);
    TakeServesCursor(config, s);
    if |s.active| < config.maxActive && s.order != [] {
      HeadBelongsToUser(config, s);
      TakeQueue(s, s.cursor, u);
      if u == s.order[s.cursor] {
        MovesServe(before);
      }
    } else if s.order == [] {
      NothingToTake(s);
    }
  }

  lemma NothingToTake(s: State)
    requires s.order == []
    ensures TakeNext(s).0 == s
  {
  }

  lemma RemoveUserKeepsQueues(s: State, u: UserID)
    ensures RemoveUser(s, u).waiting == s.waiting
  {
  }

  lemma RemoveQueue(s: State, owner: UserID, id: TicketID, u: UserID)
    ensures var q := QueueOf(s.waiting, owner);
            var i := TicketIndex(q, id);
            QueueOf(RemoveWaiting(s, owner, id).0.waiting, u) ==
              if i >= 0 && u == owner then Without(q, i) else QueueOf(s.waiting, u)
  {
    hide RemoveUser, TicketIndex;
    var q := QueueOf(s.waiting, owner);
    var i := TicketIndex(q, id);
    if i >= 0 {
      var rest := Without(q, i);
      var removed := s.(waiting := if rest == [] then s.waiting - {owner} else s.waiting[owner := rest],
                        waitingTicket := s.waitingTicket - {id},
                        waitingCount := s.waitingCount - 1);
      RemoveUserKeepsQueues(removed, owner);
    }
  }

  lemma CancelMoves(config: Config, s: State, op: Op, u: UserID)
    requires Inv(config, s) && op.CancelOp?
    ensures QueueMoves(config, s, op, u)
  {
    hide Moves, Total, ActiveOK, OrderOK, TicketIndex, RemoveUser;
    var before, id := QueueOf(s.waiting, u), op.id;
    MovesNothing(before);
    if id !in s.active && id in s.waitingTicket {
      assert IndexedOK(s, id);
      var owner := s.waitingTicket[id];
      assert QueueOK(s, owner);
      var index := TicketIndex(s.waiting[owner], id);
      RemoveQueue(s, owner, id, u);
      if u == owner {
        MovesDrop(before, index);
      }
    }
  }

  lemma ReleaseMoves(config: Config, s: State, op: Op, u: UserID)
    requires op.ReleaseOp?
    ensures QueueMoves(config, s, op, u)
  {
    hide Moves;
    MovesNothing(QueueOf(s.waiting, u));
  }

  lemma StepMoves(config: Config, s: State, op: Op, u: UserID)
    requires Inv(config, s)
    ensures QueueMoves(config, s, op, u)
  {
    hide Inv, QueueMoves;
    match op
    case EnqueueOp(_, _) => EnqueueMoves(config, s, op, u);
    case ExpireOp(_) => ExpireMoves(config, s, op, u);
    case AdmitOp => AdmitMoves(config, s, u);
    case CancelOp(_) => CancelMoves(config, s, op, u);
    case ReleaseOp(_) => ReleaseMoves(config, s, op, u);
  }

  function AllJoined(config: Config, s: State, ops: seq<Op>, u: UserID): seq<Ticket>
    decreases ops
  {
    if ops == [] then [] else Joined(config, s, ops[0], u) + AllJoined(config, Step(config, s, ops[0]), ops[1..], u)
  }

  function AllServed(config: Config, s: State, ops: seq<Op>, u: UserID): seq<Ticket>
    decreases ops
  {
    if ops == [] then [] else Served1(config, s, ops[0], u) + AllServed(config, Step(config, s, ops[0]), ops[1..], u)
  }

  function AllDropped(config: Config, s: State, ops: seq<Op>, u: UserID): seq<Ticket>
    decreases ops
  {
    if ops == [] then [] else Dropped(config, s, ops[0], u) + AllDropped(config, Step(config, s, ops[0]), ops[1..], u)
  }

  lemma {:induction false} SubsequencePrefix<T(!new)>(c: seq<T>, a: seq<T>, b: seq<T>)
    requires Subsequence(a, b)
    ensures Subsequence(c + a, c + b)
  {
    if c == [] {
      assert c + a == a && c + b == b;
    } else {
      SubsequencePrefix(c[1..], a, b);
      assert (c + a)[1..] == c[1..] + a && (c + b)[1..] == c[1..] + b;
    }
  }

  /**
   * Over every run, a user's admissions followed by the tickets still waiting are, in order, tickets that were
   * waiting or enqueued (first come, first served), and every such ticket leaves the queue exactly once:
   * admitted, dropped (expired or cancelled), or still waiting.
   */
  lemma {:induction false} FirstComeFirstServed(config: Config, s: State, ops: seq<Op>, u: UserID)
    requires Inv(config, s)
    ensures Moves(QueueOf(s.waiting, u), AllJoined(config, s, ops, u), AllServed(config, s, ops, u),
                  AllDropped(config, s, ops, u), QueueOf(Run(config, s, ops).waiting, u))
    decreases ops
  {
    hide Inv, Step, Joined, Served1, Dropped, Moves;
    var before := QueueOf(s.waiting, u);
    if ops == [] {
      MovesNothing(before);
    } else {
      var op, rest := ops[0], ops[1..];
      var next := Step(config, s, op);
      StepKeepsInv(config, s, op);
      StepMoves(config, s, op, u);
      FirstComeFirstServed(config, next, rest, u);
      MovesCompose(before, Joined(config, s, op, u), Served1(config, s, op, u), Dropped(config, s, op, u),
                   QueueOf(next.waiting, u),
                   AllJoined(config, next, rest, u), AllServed(config, next, rest, u),
                   AllDropped(config, next, rest, u),
                   QueueOf(Run(config, next, rest).waiting, u));
    }
  }

  // ---------------------------------------------------------------------------------------------
  // Deadlines
  // ---------------------------------------------------------------------------------------------

  lemma {:induction false} AdmittedWereWaiting(config: Config, s: State, i: nat)
    requires Inv(config, s) && i < |AdmitAll(config, s).1|
    ensures var t := AdmitAll(config, s).1[i]; t in QueueOf(s.waiting, t.user)
    decreases config.maxActive - |s.active|
  {
    hide Inv, Search;
    AdmitKeepsInv(config, s);
    TakeServesCursor(config, s);
    HeadBelongsToUser(config, s);
    if i > 0 {
      AdmittedWereWaiting(config, Admit(s).0, i - 1);
    }
  }

  /** A dispatch never admits a ticket whose deadline has passed, and leaves none of them waiting. */
  lemma DispatchRespectsDeadlines(config: Config, s: State, now: int)
    requires Inv(config, s)
    ensures var d := Dispatch(config, s, now);
            && (forall i :: 0 <= i < |d.admitted| ==> now < d.admitted[i].deadline)
            && (forall u, i :: 0 <= i < |QueueOf(Expire(s, now).0.waiting, u)| ==>
                  now < QueueOf(Expire(s, now).0.waiting, u)[i].deadline)
  {
    hide Inv, AdmitAll, Expire;
    ExpireKeepsInv(config, s, now);
    var live := Expire(s, now).0;
    forall u, i | 0 <= i < |QueueOf(live.waiting, u)| ensures now < QueueOf(live.waiting, u)[i].deadline {
      ExpireQueues(config, s, now, u);
      KeptMember(QueueOf(s.waiting, u), now, QueueOf(live.waiting, u)[i]);
    }
    var admitted := AdmitAll(config, live).1;
    forall i | 0 <= i < |admitted| ensures now < admitted[i].deadline {
      AdmittedWereWaiting(config, live, i);
    }
  }
}
