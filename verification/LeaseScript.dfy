/**
 * The lease scripts: concurrency slots held in one sorted set per dimension, acquired all-or-nothing.
 * A sorted set is a sequence ordered by expiry; only expiries are ever read by rank, so the order of
 * equal scores does not matter.
 */
module LeaseScript {
  import opened Common

  type Dimension = string
  type Member = string

  const GRACE_MS := 1000

  datatype Slot = Slot(member: Member, expiry: int)

  type SortedSet = seq<Slot>

  datatype Limit = Limit(dimension: Dimension, maxInFlight: int)

  /** A stored sorted set and the instant PEXPIREAT lets its key go. */
  datatype Key = Key(slots: SortedSet, expireAt: int)

  type Leases = map<Dimension, Key>

  predicate Has(z: SortedSet, member: Member) {
    exists i :: 0 <= i < |z| && z[i].member == member
  }

  /** ZREMRANGEBYSCORE -inf now. */
  function Live(z: SortedSet, now: int): (live: SortedSet)
    ensures |live| <= |z|
  {
    if z == [] then [] else if z[0].expiry <= now then Live(z[1..], now) else z
  }

  /** ZREM. */
  function Remove(z: SortedSet, member: Member): SortedSet {
    if z == [] then [] else if z[0].member == member then z[1..] else [z[0]] + Remove(z[1..], member)
  }

  function Insert(z: SortedSet, slot: Slot): SortedSet {
    if z == [] || slot.expiry < z[0].expiry then [slot] + z else [z[0]] + Insert(z[1..], slot)
  }

  /** What a script does to each set it names, after pruning it. */
  datatype Edit = Keep | Put(member: Member, expiry: int) | Drop(member: Member)

  function Apply(edit: Edit, z: SortedSet): SortedSet {
    match edit
    case Keep => z
    case Put(member, expiry) => Insert(Remove(z, member), Slot(member, expiry))
    case Drop(member) => Remove(z, member)
  }

  function Slots(s: Leases, d: Dimension, now: int): SortedSet {
    if d in s && now < s[d].expireAt then s[d].slots else []
  }

  function LiveSlots(s: Leases, d: Dimension, now: int): SortedSet {
    Live(Slots(s, d, now), now)
  }

  /** retain_live_key: an empty set is deleted, any other lives until its tail plus the grace period. */
  function Retain(s: Leases, d: Dimension, z: SortedSet): Leases {
    if z == [] then s - {d} else s[d := Key(z, z[|z| - 1].expiry + GRACE_MS)]
  }

  type Dimensions = dims: seq<Dimension> | Distinct(dims) witness []

  function DimensionsOf(limits: seq<Limit>): (dims: seq<Dimension>)
    ensures |dims| == |limits| && forall i :: 0 <= i < |limits| ==> dims[i] == limits[i].dimension
  {
    seq(|limits|, i requires 0 <= i < |limits| => limits[i].dimension)
  }

  predicate ValidLimits(limits: seq<Limit>) {
    && Distinct(DimensionsOf(limits))
    && forall i :: 0 <= i < |limits| ==> limits[i].maxInFlight >= 1
  }

  /** Limits as preparation hands them over. */
  type Limits = limits: seq<Limit> | ValidLimits(limits) witness []

  /** Limits on distinct dimensions, of any size. */
  type AnyLimits = limits: seq<Limit> | Distinct(DimensionsOf(limits)) witness []

  /** Prunes and edits the first `n` sets. */
  function UpdateFirst(s: Leases, now: int, dims: Dimensions, edit: Edit, n: nat): Leases
    requires n <= |dims|
  {
    if n == 0 then s
    else Retain(UpdateFirst(s, now, dims, edit, n - 1), dims[n - 1], Apply(edit, LiveSlots(s, dims[n - 1], now)))
  }

  function Update(s: Leases, now: int, dims: Dimensions, edit: Edit): Leases {
    UpdateFirst(s, now, dims, edit, |dims|)
  }

  /** ZRANGE with one rank: the slot there, or nothing. */
  function ByRank(z: SortedSet, rank: int): Option<Slot> {
    if 0 <= rank < |z| then Some(z[rank]) else None
  }

  /** How long this dimension keeps `member` out: until the slot at rank count - limit expires. */
  function Wait(z: SortedSet, member: Member, limit: int, now: int): int {
    if Has(z, member) || |z| < limit then 0
    else
      match ByRank(z, |z| - limit)
      case Some(slot) => Max(1, slot.expiry - now)
      case None => 0
  }

  function WaitAt(s: Leases, now: int, member: Member, l: Limit): int {
    Wait(LiveSlots(s, l.dimension, now), member, l.maxInFlight, now)
  }

  function LongestWait(s: Leases, now: int, member: Member, limits: AnyLimits, n: nat): int
    requires n <= |limits|
  {
    if n == 0 then 0
    else Max(LongestWait(s, now, member, limits, n - 1), WaitAt(s, now, member, limits[n - 1]))
  }

  /** The set is full for `member`, but no slot has the blocking rank. */
  predicate CorruptAt(s: Leases, now: int, member: Member, l: Limit) {
    var z := LiveSlots(s, l.dimension, now);
    !Has(z, member) && |z| >= l.maxInFlight && ByRank(z, |z| - l.maxInFlight).None?
  }

  function FirstCorrupt(s: Leases, now: int, member: Member, limits: AnyLimits, n: nat): (i: Option<nat>)
    requires n <= |limits|
    ensures i.Some? ==> i.value < n
  {
    if n == 0 then None
    else
      var earlier := FirstCorrupt(s, now, member, limits, n - 1);
      if earlier.Some? then earlier
      else if CorruptAt(s, now, member, limits[n - 1]) then Some(n - 1)
      else None
  }

  /** ZREMRANGEBYSCORE on the first `n` sets, their key lifetimes untouched. */
  function PruneFirst(s: Leases, now: int, dims: Dimensions, n: nat): Leases
    requires n <= |dims|
  {
    if n == 0 then s
    else
      var pruned, d := PruneFirst(s, now, dims, n - 1), dims[n - 1];
      var z := LiveSlots(s, d, now);
      if d !in pruned || z == [] then pruned - {d} else pruned[d := Key(z, pruned[d].expireAt)]
  }

  datatype Reply =
    | Granted(at: int, expiresAt: int, counts: seq<nat>)
    | Denied(at: int, retryAfter: int, counts: seq<nat>)
    | Renewed(at: int, expiresAt: int)
    | Lost(at: int)
    | Released(at: int, removed: nat)
    | Cleaned(at: int, removed: nat, counts: seq<nat>)
    | Corrupt

  function Counts(s: Leases, now: int, dims: Dimensions, member: Member, granted: bool): seq<nat> {
    seq(|dims|, i requires 0 <= i < |dims| =>
      var z := LiveSlots(s, dims[i], now); if granted && !Has(z, member) then |z| + 1 else |z|)
  }

  function AcquireEdit(s: Leases, now: int, ttl: int, member: Member, limits: AnyLimits): Edit {
    if LongestWait(s, now, member, limits, |limits|) == 0 then Put(member, now + ttl) else Keep
  }

  /** The decision once every set could be read. */
  function Settle(s: Leases, now: int, ttl: int, member: Member, limits: AnyLimits): (Leases, Reply) {
    var dims: Dimensions := DimensionsOf(limits);
    var retry := LongestWait(s, now, member, limits, |limits|);
    (Update(s, now, dims, AcquireEdit(s, now, ttl, member, limits)),
     if retry == 0 then Granted(now, now + ttl, Counts(s, now, dims, member, true))
     else Denied(now, retry, Counts(s, now, dims, member, false)))
  }

  function Acquire(s: Leases, now: int, ttl: int, member: Member, limits: AnyLimits): (Leases, Reply) {
    var corrupt := FirstCorrupt(s, now, member, limits, |limits|);
    if corrupt.Some? then (PruneFirst(s, now, DimensionsOf(limits), corrupt.value + 1), Corrupt)
    else Settle(s, now, ttl, member, limits)
  }

  predicate HeldEverywhere(s: Leases, now: int, dims: Dimensions, member: Member) {
    forall i :: 0 <= i < |dims| ==> Has(LiveSlots(s, dims[i], now), member)
  }

  function Renew(s: Leases, now: int, ttl: int, member: Member, dims: Dimensions): (Leases, Reply) {
    if HeldEverywhere(s, now, dims, member)
    then (Update(s, now, dims, Put(member, now + ttl)), Renewed(now, now + ttl))
    else (Update(s, now, dims, Drop(member)), Lost(now))
  }

  function HeldCount(s: Leases, now: int, dims: Dimensions, member: Member, n: nat): nat
    requires n <= |dims|
  {
    if n == 0 then 0
    else HeldCount(s, now, dims, member, n - 1) + if Has(LiveSlots(s, dims[n - 1], now), member) then 1 else 0
  }

  function Release(s: Leases, now: int, member: Member, dims: Dimensions): (Leases, Reply) {
    (Update(s, now, dims, Drop(member)), Released(now, HeldCount(s, now, dims, member, |dims|)))
  }

  function PrunedCount(s: Leases, now: int, dims: Dimensions, n: nat): nat
    requires n <= |dims|
  {
    if n == 0 then 0
    else PrunedCount(s, now, dims, n - 1) + |Slots(s, dims[n - 1], now)| - |LiveSlots(s, dims[n - 1], now)|
  }

  function Cleanup(s: Leases, now: int, dims: Dimensions): (Leases, Reply) {
    (Update(s, now, dims, Keep),
     Cleaned(now, PrunedCount(s, now, dims, |dims|), Counts(s, now, dims, "", false)))
  }

  /** The keyspace the lease scripts mutate. */
  class Valkey {
    var leases: Leases

    constructor ()
      ensures leases == map[]
    {
      leases := map[];
    }

    /** Prune, edit and retain every named set. */
    method UpdateAll(now: int, dims: Dimensions, edit: Edit)
      modifies this
      ensures leases == Update(old(leases), now, dims, edit)
    {
      hide Apply, Live, Retain;
      for i := 0 to |dims|
        invariant leases == UpdateFirst(old(leases), now, dims, edit, i)
      {
        UntouchedSoFar(old(leases), now, dims, edit, i, dims[i]);
        var z := Apply(edit, Live(Slots(leases, dims[i], now), now));
        leases := Retain(leases, dims[i], z);
      }
    }

    method AcquireLease(now: int, ttl: int, member: Member, limits: AnyLimits) returns (reply: Reply)
      modifies this
      ensures (leases, reply) == Acquire(old(leases), now, ttl, member, limits)
    {
      hide LiveSlots, CorruptAt, Counts, PruneFirst, UpdateFirst;
      var dims: Dimensions := DimensionsOf(limits);
      var retry := 0;
      for i := 0 to |limits|
        invariant retry == LongestWait(leases, now, member, limits, i) && leases == old(leases)
        invariant FirstCorrupt(leases, now, member, limits, i).None?
      {
        if CorruptAt(leases, now, member, limits[i]) {
          CorruptionEndsAcquire(leases, now, member, limits, i + 1);
          leases := PruneFirst(leases, now, dims, i + 1);
          return Corrupt;
        }
        retry := Max(retry, WaitAt(leases, now, member, limits[i]));
      }
      var counts := Counts(leases, now, dims, member, retry == 0);
      if retry == 0 {
        UpdateAll(now, dims, Put(member, now + ttl));
        reply := Granted(now, now + ttl, counts);
      } else {
        UpdateAll(now, dims, Keep);
        reply := Denied(now, retry, counts);
      }
    }

    method RenewLease(now: int, ttl: int, member: Member, dims: Dimensions) returns (reply: Reply)
      modifies this
      ensures (leases, reply) == Renew(old(leases), now, ttl, member, dims)
    {
      var held := true;
      for i := 0 to |dims|
        invariant leases == old(leases)
        invariant held <==> forall j :: 0 <= j < i ==> Has(LiveSlots(leases, dims[j], now), member)
      {
        if !Has(LiveSlots(leases, dims[i], now), member) {
          held := false;
        }
      }
      if held {
        UpdateAll(now, dims, Put(member, now + ttl));
        reply := Renewed(now, now + ttl);
      } else {
        UpdateAll(now, dims, Drop(member));
        reply := Lost(now);
      }
    }

    method ReleaseLease(now: int, member: Member, dims: Dimensions) returns (reply: Reply)
      modifies this
      ensures (leases, reply) == Release(old(leases), now, member, dims)
    {
      var removed := 0;
      for i := 0 to |dims|
        invariant removed == HeldCount(leases, now, dims, member, i) && leases == old(leases)
      {
        if Has(LiveSlots(leases, dims[i], now), member) {
          removed := removed + 1;
        }
      }
      UpdateAll(now, dims, Drop(member));
      reply := Released(now, removed);
    }

    method CleanupExpired(now: int, dims: Dimensions) returns (reply: Reply)
      modifies this
      ensures (leases, reply) == Cleanup(old(leases), now, dims)
    {
      var removed := 0;
      for i := 0 to |dims|
        invariant removed == PrunedCount(leases, now, dims, i) && leases == old(leases)
      {
        removed := removed + |Slots(leases, dims[i], now)| - |Live(Slots(leases, dims[i], now), now)|;
      }
      var counts := Counts(leases, now, dims, "", false);
      UpdateAll(now, dims, Keep);
      reply := Cleaned(now, removed, counts);
    }
  }

  lemma {:induction false} CorruptionEndsAcquire(s: Leases, now: int, member: Member, limits: AnyLimits, n: nat)
    requires n <= |limits| && FirstCorrupt(s, now, member, limits, n).Some?
    ensures FirstCorrupt(s, now, member, limits, |limits|) == FirstCorrupt(s, now, member, limits, n)
    decreases |limits| - n
  {
    hide CorruptAt;
    if n < |limits| {
      CorruptionEndsAcquire(s, now, member, limits, n + 1);
    }
  }

  /** Updating some sets leaves every other set alone. */
  lemma {:induction false} UntouchedSoFar(s: Leases, now: int, dims: Dimensions, edit: Edit, n: nat, d: Dimension)
    requires n <= |dims| && forall i :: 0 <= i < n ==> dims[i] != d
    ensures var after := UpdateFirst(s, now, dims, edit, n);
            (d in after <==> d in s) && (d in s ==> after[d] == s[d])
  {
    if n > 0 {
      UntouchedSoFar(s, now, dims, edit, n - 1, d);
    }
  }
}
