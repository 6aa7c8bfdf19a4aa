/** The bounded admission queue: users rotate, each user's own tickets are served first come, first served. */
module AdmissionQueue {
  import opened Common

  type TicketID = string
  type UserID = string

  datatype Config = Config(maxQueued: int, maxActive: int, maxQueueWait: int) {
    predicate Valid() { maxQueued > 0 && maxActive > 0 && maxQueueWait > 0 }
  }

  datatype Request = Request(id: TicketID, user: UserID, queueTimeout: int)

  datatype Ticket = Ticket(id: TicketID, user: UserID, enqueuedAt: int, deadline: int)

  datatype EnqueueResult = Queued(ticket: Ticket) | InvalidRequest | DuplicateTicket | QueueFull

  datatype Cancellation = Canceled(ticket: Ticket, wasActive: bool) | NotFound

  /** Everything the queue stores; five of the fields are redundant with each other. */
  datatype State = State(
    waiting: map<UserID, seq<Ticket>>,
    waitingTicket: map<TicketID, UserID>,
    order: seq<UserID>,
    cursor: nat,
    waitingCount: int,
    active: map<TicketID, Ticket>,
    activeByUser: map<UserID, int>)

  const EMPTY := State(map[], map[], [], 0, 0, map[], map[])

  /** Reading a Go map: a missing user has an empty queue. */
  function QueueOf(waiting: map<UserID, seq<Ticket>>, u: UserID): seq<Ticket> {
    if u in waiting then waiting[u] else []
  }

  function ActiveOf(m: map<UserID, int>, u: UserID): int {
    if u in m then m[u] else 0
  }

  function Without<T>(s: seq<T>, i: nat): seq<T>
    requires i < |s|
  {
    s[..i] + s[i + 1..]
  }

  // ---------------------------------------------------------------------------------------------
  // Enqueue
  // ---------------------------------------------------------------------------------------------

  function Timeout(config: Config, r: Request): int {
    if r.queueTimeout == 0 then config.maxQueueWait else r.queueTimeout
  }

  function Enqueue(config: Config, s: State, r: Request, now: int): (State, EnqueueResult) {
    if r.id == "" || r.user == "" then (s, InvalidRequest)
    else if r.id in s.waitingTicket || r.id in s.active then (s, DuplicateTicket)
    else if s.waitingCount >= config.maxQueued then (s, QueueFull)
    else
      var timeout := Timeout(config, r);
      if timeout < 0 || timeout > config.maxQueueWait then (s, InvalidRequest)
      else
        var ticket := Ticket(r.id, r.user, now, now + timeout);
        var queue := QueueOf(s.waiting, r.user);
        (s.(order := if queue == [] then s.order + [r.user] else s.order,
            waiting := s.waiting[r.user := queue + [ticket]],
            waitingTicket := s.waitingTicket[r.id := r.user],
            waitingCount := s.waitingCount + 1),
         Queued(ticket))
  }

  // ---------------------------------------------------------------------------------------------
  // Taking the next ticket
  // ---------------------------------------------------------------------------------------------

  /** First position at or after `cursor + offset`, cyclically, whose user has a waiting ticket; -1 if none. */
  function Search(s: State, offset: nat): (index: int)
    requires s.order != [] && offset <= |s.order|
    ensures -1 <= index < |s.order|
    ensures index >= 0 ==> QueueOf(s.waiting, s.order[index]) != []
    decreases |s.order| - offset
  {
    if offset == |s.order| then -1
    else
      var index := (s.cursor + offset) % |s.order|;
      if QueueOf(s.waiting, s.order[index]) != [] then index else Search(s, offset + 1)
  }

  /** Serves the head of the queue of the user at `index` and moves the cursor past that user. */
  function TakeAt(s: State, index: nat): (State, Ticket)
    requires index < |s.order| && QueueOf(s.waiting, s.order[index]) != []
  {
    var u := s.order[index];
    var queue := QueueOf(s.waiting, u);
    var order := if |queue| == 1 then Without(s.order, index) else s.order;
    (s.(waiting := if |queue| == 1 then s.waiting - {u} else s.waiting[u := queue[1..]],
        waitingTicket := s.waitingTicket - {queue[0].id},
        waitingCount := s.waitingCount - 1,
        order := order,
        cursor := if |queue| > 1 then (index + 1) % |order|
                  else if order == [] then 0 else index % |order|),
     queue[0])
  }

  function TakeNext(s: State): (State, Option<Ticket>) {
    if s.waitingCount == 0 || s.order == [] then (s, None)
    else
      var index := Search(s, 0);
      if index < 0 then (s, None) else var (next, ticket) := TakeAt(s, index); (next, Some(ticket))
  }

  // ---------------------------------------------------------------------------------------------
  // Expiry
  // ---------------------------------------------------------------------------------------------

  function Kept(queue: seq<Ticket>, now: int): seq<Ticket> {
    if queue == [] then []
    else
      var last := queue[|queue| - 1];
      if now < last.deadline then Kept(queue[..|queue| - 1], now) + [last] else Kept(queue[..|queue| - 1], now)
  }

  function Lapsed(queue: seq<Ticket>, now: int): seq<Ticket> {
    if queue == [] then []
    else
      var last := queue[|queue| - 1];
      if now < last.deadline then Lapsed(queue[..|queue| - 1], now) else Lapsed(queue[..|queue| - 1], now) + [last]
  }

  function IDs(tickets: seq<Ticket>): set<TicketID> {
    set i | 0 <= i < |tickets| :: tickets[i].id
  }

  /** One user's turn of the expiry loop; the user stays listed only with a ticket left. */
  function ExpireUser(s: State, u: UserID, now: int): State {
    var queue := QueueOf(s.waiting, u);
    var kept, lapsed := Kept(queue, now), Lapsed(queue, now);
    s.(waiting := if kept == [] then s.waiting - {u} else s.waiting[u := kept],
       waitingTicket := s.waitingTicket - IDs(lapsed),
       waitingCount := s.waitingCount - |lapsed|)
  }

  /** The state, surviving order and lapsed tickets after the first `n` users. */
  function ExpireFirst(s: State, now: int, n: nat): (State, seq<UserID>, seq<Ticket>)
    requires n <= |s.order|
  {
    if n == 0 then (s, [], [])
    else
      var (done, order, lapsed) := ExpireFirst(s, now, n - 1);
      var u := s.order[n - 1];
      var queue := QueueOf(done.waiting, u);
      (ExpireUser(done, u, now),
       if Kept(queue, now) == [] then order else order + [u],
       lapsed + Lapsed(queue, now))
  }

  /** Position of `u`, or -1. */
  function IndexOf(order: seq<UserID>, u: UserID): (i: int)
    ensures -1 <= i < |order|
    ensures i >= 0 ==> order[i] == u && forall j :: 0 <= j < i ==> order[j] != u
    ensures i < 0 ==> u !in order
  {
    if order == [] then -1
    else if order[0] == u then 0
    else var rest := IndexOf(order[1..], u); if rest < 0 then -1 else rest + 1
  }

  function Expire(s: State, now: int): (State, seq<Ticket>) {
    if s.waitingCount == 0 then (s, [])
    else
      var (done, order, lapsed) := ExpireFirst(s, now, |s.order|);
      var position := if s.order == [] then -1 else IndexOf(order, s.order[s.cursor % |s.order|]);
      (done.(order := order, cursor := Max(0, position)), lapsed)
  }

  // ---------------------------------------------------------------------------------------------
  // Cancel and release
  // ---------------------------------------------------------------------------------------------

  function TicketIndex(queue: seq<Ticket>, id: TicketID): (i: int)
    ensures -1 <= i < |queue|
    ensures i >= 0 ==> queue[i].id == id && forall j :: 0 <= j < i ==> queue[j].id != id
    ensures i < 0 ==> forall j :: 0 <= j < |queue| ==> queue[j].id != id
  {
    if queue == [] then -1
    else if queue[0].id == id then 0
    else var rest := TicketIndex(queue[1..], id); if rest < 0 then -1 else rest + 1
  }

  function RemoveUser(s: State, u: UserID): State {
    var index := IndexOf(s.order, u);
    if index < 0 then s
    else
      var order := Without(s.order, index);
      s.(order := order,
         cursor := if order == [] then 0
                   else if index < s.cursor then s.cursor - 1
                   else if s.cursor >= |order| then 0
                   else s.cursor)
  }

  function RemoveWaiting(s: State, u: UserID, id: TicketID): (State, Option<Ticket>) {
    var queue := QueueOf(s.waiting, u);
    var index := TicketIndex(queue, id);
    if index < 0 then (s, None)
    else
      var rest := Without(queue, index);
      var removed := s.(waiting := if rest == [] then s.waiting - {u} else s.waiting[u := rest],
                        waitingTicket := s.waitingTicket - {id},
                        waitingCount := s.waitingCount - 1);
      (if rest == [] then RemoveUser(removed, u) else removed, Some(queue[index]))
  }

  function DecrementActive(m: map<UserID, int>, u: UserID): map<UserID, int> {
    var left := ActiveOf(m, u) - 1;
    if left == 0 then m - {u} else m[u := left]
  }

  function Release(s: State, id: TicketID): (State, bool) {
    if id !in s.active then (s, false)
    else (s.(active := s.active - {id}, activeByUser := DecrementActive(s.activeByUser, s.active[id].user)), true)
  }

  function Cancel(s: State, id: TicketID): (State, Cancellation) {
    if id in s.active then (Release(s, id).0, Canceled(s.active[id], true))
    else if id !in s.waitingTicket then (s, NotFound)
    else
      var (next, ticket) := RemoveWaiting(s, s.waitingTicket[id], id);
      (next, if ticket.None? then NotFound else Canceled(ticket.value, false))
  }

  function Activate(s: State, ticket: Ticket): State {
    s.(active := s.active[ticket.id := ticket],
       activeByUser := s.activeByUser[ticket.user := ActiveOf(s.activeByUser, ticket.user) + 1])
  }

  // ---------------------------------------------------------------------------------------------
  // The queue object
  // ---------------------------------------------------------------------------------------------

  class Queue {
    const config: Config
    var waiting: map<UserID, seq<Ticket>>
    var waitingTicket: map<TicketID, UserID>
    var userOrder: seq<UserID>
    var cursor: nat
    var waitingCount: int
    var active: map<TicketID, Ticket>
    var activeByUser: map<UserID, int>

    function View(): State
      reads this
    {
      State(waiting, waitingTicket, userOrder, cursor, waitingCount, active, activeByUser)
    }

    constructor (config: Config)
      requires config.Valid()
      ensures this.config == config && View() == EMPTY
    {
      this.config := config;
      waiting, waitingTicket, userOrder, cursor, waitingCount := map[], map[], [], 0, 0;
      active, activeByUser := map[], map[];
    }

    method EnqueueRequest(r: Request, now: int) returns (result: EnqueueResult)
      modifies this
      ensures (View(), result) == Enqueue(config, old(View()), r, now)
    {
      if r.id == "" || r.user == "" {
        return InvalidRequest;
      }
      if r.id in waitingTicket {
        return DuplicateTicket;
      }
      if r.id in active {
        return DuplicateTicket;
      }
      if waitingCount >= config.maxQueued {
        return QueueFull;
      }
      var timeout := r.queueTimeout;
      if timeout == 0 {
        timeout := config.maxQueueWait;
      }
      if timeout < 0 || timeout > config.maxQueueWait {
        return InvalidRequest;
      }
      var ticket := Ticket(r.id, r.user, now, now + timeout);
      var queue := QueueOf(waiting, r.user);
      if |queue| == 0 {
        userOrder := userOrder + [r.user];
      }
      waiting := waiting[r.user := queue + [ticket]];
      waitingTicket := waitingTicket[r.id := r.user];
      waitingCount := waitingCount + 1;
      result := Queued(ticket);
    }

    /** Serves the user found at `index`. */
    method ServeLocked(index: nat) returns (ticket: Ticket)
      requires index < |userOrder| && QueueOf(waiting, userOrder[index]) != []
      modifies this
      ensures (View(), ticket) == TakeAt(old(View()), index)
    {
      var user := userOrder[index];
      var queue := QueueOf(waiting, user);
      ticket := queue[0];
      waiting := waiting[user := queue[1..]];
      waitingTicket := waitingTicket - {ticket.id};
      waitingCount := waitingCount - 1;
      if |waiting[user]| == 0 {
        waiting := waiting - {user};
        assert waiting == old(waiting) - {user};
        userOrder := userOrder[..index] + userOrder[index + 1..];
        if |userOrder| == 0 {
          cursor := 0;
        } else {
          cursor := index % |userOrder|;
        }
      } else {
        cursor := (index + 1) % |userOrder|;
      }
    }

    method TakeNextLocked() returns (taken: Option<Ticket>)
      modifies this
      ensures (View(), taken) == TakeNext(old(View()))
    {
      if waitingCount == 0 || |userOrder| == 0 {
        return None;
      }
      for offset := 0 to |userOrder|
        invariant View() == old(View())
        invariant Search(View(), offset) == Search(View(), 0)
      {
        var index := (cursor + offset) % |userOrder|;
        if |QueueOf(waiting, userOrder[index])| == 0 {
          continue;
        }
        var ticket := ServeLocked(index);
        return Some(ticket);
      }
      taken := None;
    }

    /** The inner loop of expiry: splits one user's queue. */
    method ExpireQueue(user: UserID, now: int) returns (kept: seq<Ticket>, lapsed: seq<Ticket>)
      modifies this`waitingTicket, this`waitingCount
      ensures kept == Kept(QueueOf(waiting, user), now) && lapsed == Lapsed(QueueOf(waiting, user), now)
      ensures waitingTicket == old(waitingTicket) - IDs(lapsed) && waitingCount == old(waitingCount) - |lapsed|
    {
      var queue := QueueOf(waiting, user);
      kept, lapsed := [], [];
      for i := 0 to |queue|
        invariant kept == Kept(queue[..i], now) && lapsed == Lapsed(queue[..i], now)
        invariant waitingTicket == old(waitingTicket) - IDs(lapsed) && waitingCount == old(waitingCount) - |lapsed|
      {
        var ticket := queue[i];
        assert queue[..i + 1][..i] == queue[..i];
        if now >= ticket.deadline {
          waitingTicket := waitingTicket - {ticket.id};
          waitingCount := waitingCount - 1;
          LapsedIDs(lapsed, ticket);
          lapsed := lapsed + [ticket];
        } else {
          kept := kept + [ticket];
        }
      }
      assert queue[..|queue|] == queue;
    }

    /** The outer loop of expiry: sweeps every listed user and collects who stays. */
    method ExpireUsers(now: int) returns (order: seq<UserID>, expired: seq<Ticket>)
      modifies this`waiting, this`waitingTicket, this`waitingCount
      ensures (View(), order, expired) == ExpireFirst(old(View()), now, |userOrder|)
    {
      hide Kept, Lapsed, IDs;
      order, expired := [], [];
      for n := 0 to |userOrder|
        invariant (View(), order, expired) == ExpireFirst(old(View()), now, n)
      {
        var user := userOrder[n];
        var kept, lapsed := ExpireQueue(user, now);
        expired := expired + lapsed;
        if |kept| == 0 {
          waiting := waiting - {user};
        } else {
          waiting := waiting[user := kept];
          order := order + [user];
        }
      }
    }

    /** Puts the cursor back on the anchor user, or on the first user when the anchor is gone. */
    method Reanchor(anchor: UserID)
      modifies this`cursor
      ensures cursor == Max(0, IndexOf(userOrder, anchor))
    {
      cursor := 0;
      for index := 0 to |userOrder|
        invariant cursor == 0 && forall j :: 0 <= j < index ==> userOrder[j] != anchor
      {
        if userOrder[index] == anchor {
          cursor := index;
          break;
        }
      }
    }

    method ExpireLocked(now: int) returns (expired: seq<Ticket>)
      modifies this
      ensures (View(), expired) == Expire(old(View()), now)
    {
      if waitingCount == 0 {
        return [];
      }
      var anchor := if |userOrder| > 0 then Some(userOrder[cursor % |userOrder|]) else None;
      var order;
      order, expired := ExpireUsers(now);
      userOrder := order;
      cursor := 0;
      if anchor.Some? {
        Reanchor(anchor.value);
      }
    }

    method RemoveUserLocked(user: UserID)
      modifies this`userOrder, this`cursor
      ensures View() == RemoveUser(old(View()), user)
    {
      for index := 0 to |userOrder|
        invariant View() == old(View())
        invariant forall j :: 0 <= j < index ==> userOrder[j] != user
      {
        if userOrder[index] == user {
          assert IndexOf(userOrder, user) == index;
          userOrder := userOrder[..index] + userOrder[index + 1..];
          if |userOrder| == 0 {
            cursor := 0;
          } else if index < cursor {
            cursor := cursor - 1;
          } else if cursor >= |userOrder| {
            cursor := 0;
          }
          return;
        }
      }
    }

    method RemoveWaitingLocked(user: UserID, id: TicketID) returns (removed: Option<Ticket>)
      modifies this
      ensures (View(), removed) == RemoveWaiting(old(View()), user, id)
    {
      var queue := QueueOf(waiting, user);
      for index := 0 to |queue|
        invariant View() == old(View())
        invariant forall j :: 0 <= j < index ==> queue[j].id != id
      {
        if queue[index].id == id {
          assert TicketIndex(queue, id) == index;
          waiting := waiting[user := queue[..index] + queue[index + 1..]];
          waitingTicket := waitingTicket - {id};
          waitingCount := waitingCount - 1;
          if |waiting[user]| == 0 {
            waiting := waiting - {user};
            assert waiting == old(waiting) - {user};
            RemoveUserLocked(user);
          }
          return Some(queue[index]);
        }
      }
      removed := None;
    }

    method ReleaseTicket(id: TicketID) returns (released: bool)
      modifies this
      ensures (View(), released) == Release(old(View()), id)
    {
      if id !in active {
        return false;
      }
      var user := active[id].user;
      active := active - {id};
      activeByUser := DecrementActive(activeByUser, user);
      released := true;
    }

    method CancelTicket(id: TicketID) returns (result: Cancellation)
      modifies this
      ensures (View(), result) == Cancel(old(View()), id)
    {
      if id in active {
        var ticket := active[id];
        var released := ReleaseTicket(id);
        return Canceled(ticket, true);
      }
      if id !in waitingTicket {
        return NotFound;
      }
      var removed := RemoveWaitingLocked(waitingTicket[id], id);
      result := if removed.None? then NotFound else Canceled(removed.value, false);
    }
  }

  lemma LapsedIDs(lapsed: seq<Ticket>, ticket: Ticket)
    ensures IDs(lapsed + [ticket]) == IDs(lapsed) + {ticket.id}
  {
    var longer := lapsed + [ticket];
    forall id | id in IDs(lapsed) + {ticket.id} ensures id in IDs(longer) {
      if id != ticket.id {
        var i :| 0 <= i < |lapsed| && lapsed[i].id == id;
        assert longer[i].id == id;
      } else {
        assert longer[|lapsed|].id == id;
      }
    }
  }
}
