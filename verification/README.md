# A verified model of the gateway's admission, limiting, retry and streaming core

llm2api is a gateway in front of LLM providers. Most of what can go wrong in it is decided by a stack of
schedulers, limiters and state machines: shared token buckets and leases kept in Valkey by Lua scripts, a local
admission queue with a permit gate, the retry and failover loops with their router, backoff and circuit breaker,
the incremental decoder of server-sent events, and the state machine that turns provider deltas into a
Responses stream. This project models these components and proves what every run of each of them keeps.

`dafny verify dfyconfig.toml` checks everything.

## How it is organised

Each stateful component appears twice. A value-level specification (a state datatype and functions) says what
one atomic step does; a class or loop with the source's own shape (fields, in-place updates, early exits) is
proved to compute exactly that. The laws are then proved about the specification, first for one step and then,
by induction, for whole runs from any reachable state. Every invariant is shown to hold of the initial state
(`EmptyInv`, `EmptyTrails`, `IdleGate`, `FreshCircuit`, `StartInv`).

| files | component |
|---|---|
| `RateScript`, `RateLaws`, `RateBounds`, `RateRetry`, `RateExpiry`, `RateRefund`, `RateAnswers`, `RateWindow`, `RatePrepare` | rate buckets: the three Lua scripts, run-level bounds, exact retry times, invisible expiry, refunds, what the replies report, windows, argument preparation |
| `LeaseScript`, `LeaseLaws`, `LeaseRetry`, `LeaseAnswers`, `LeaseCleanup` | concurrency leases: the four Lua scripts, capacity and atomicity, exact retry times, what the replies promise, when key expiry shows |
| `AdmissionQueue`, `AdmissionInvariant`, `AdmissionDispatch`, `AdmissionFairness`, `AdmissionRuns`, `AdmissionAnswers` | the bounded queue: redundant structures, rotation, bounded overtaking, order and conservation of tickets, which requests get which deadline |
| `AdmissionGate`, `AdmissionOwnership`, `AdmissionGrants` | the gate: waiters, one-shot channels, permits, every interleaving of them, and the grant at once when a slot is free |
| `SSEDecoder`, `SSEChunking`, `SSEBlocks`, `SSERoundTrip` | the event-stream decoder, its independence from chunking, what lines and blocks mean, the round trip with the gateway's writer |
| `Backoff`, `Retry`, `Router`, `RouterLaws`, `RouterAnswers` | retry arithmetic and policy, the weighted router, its odds and its reports |
| `RequestFlow`, `RequestChoice`, `RequestTrace`, `RequestHistory`, `RequestChat`, `RequestBody`, `RequestStream` | selection loops, what a run keeps, when it must go on, the two request workflows |
| `Circuit` | the generation-fenced circuit breaker |
| `ResponseStream`, `ResponseTrace`, `ResponseAnswers`, `ResponseClosing` | the Responses stream, the laws of its trace, the trace as a function of the input, and its closing events |
| `Common` | options, minimum and maximum, ceiling |

Three idealisations hold throughout. Time is an integer (milliseconds in the scripts, nanoseconds in Go) and
token balances are exact reals, where Lua uses doubles and prints them. Storage keys are injective names of their
dimensions. Every answer of the surroundings (clock, random source, upstream, store, client) is a parameter that
may take any value, and a script or a lock region is one atomic step.

Where a promised property does not hold of the code as it stands, the model keeps the code, states exactly when
the property holds, and gives an input at which it fails:

- Cutting the same bytes into different chunks can change the decoder's outcome, exactly when the input is
  readable, does not itself end on such a line, and contains a line of exactly the maximum length that is ended by
  a carriage return and followed by more bytes (`SSEChunking.WhenChunkingMatters`). `SSEChunking.ChunkingCanMatter`
  is the line `data:` with CR LF under a maximum of five bytes.
- An expiry that removes the cursor's own user sends the cursor back to the first user, which delays some waiting
  user exactly under the condition of `AdmissionFairness.LostAnchorDelays`; `LostAnchorCanDelay` gives an instance,
  and `ExpiryDelaysAtMost` and `SetbackIsAttained` give the size of the delay.
- A closing event of the Responses stream repeats the final text of its item, for every item, exactly when no item
  is streamed non-empty text after it was opened and then closed (`ResponseClosing.ClosingTextsFinalExactly`).
  `LateDeltaIsMissed` is a content delta after Finish; `LateItemIsHarmless` is a reasoning delta there.
- Dropping an expired lease key changes no decision (`LeaseRetry.ExpiryIsUnobservable`, which masks the number of
  dead slots a cleanup reports). Over every run, all replies in full are those of a server that never drops a key
  exactly when every cleanup finds, alive, the key of each set which that server still stores in the dimensions it
  names (`LeaseCleanup.ExpiryShowsExactly`); a key already dropped is not found. `CleanupCountCanDiffer` gives an
  instance, with the key due and with the key dropped.

## Model

| member | source | states |
|---|---|---|
| `RateScript.Valkey.AcquireRate` | internal/coordination/rate_script.go:5-110 | the script's read and write loops charge all buckets or none and reply as specified, including the corrupt reply that leaves everything untouched |
| `RateScript.Valkey.InspectRate` | internal/coordination/rate_script.go:113-194 | inspection writes back what it reads, bucket by bucket, and stops at a corrupt one |
| `RateScript.Valkey.RefundRate` | internal/coordination/rate_script.go:197-304 | a refund credits once per live marker, fixed windows only while they hold the same window and configuration |
| `RateScript.Valkey.ReadAll` | internal/coordination/rate_script.go:11-92 | the reading loop succeeds exactly when no bucket is corrupt and then yields every balance |
| `RateScript.LongestWaitIsMaximum` | internal/coordination/rate_script.go:53-55 | the reported delay is the maximum of the buckets' own waits and is attained by one of them |
| `RateScript.CorruptionEndsInspect` | internal/coordination/rate_script.go:118-194 | a corrupt bucket ends an inspection; later buckets are not touched |
| `RateLaws.ExpiredReadsAsAbsent` | internal/coordination/rate_script.go:58-107 | a hash whose key lifetime has run out reads exactly as a missing key would, for balances and for refunds |
| `RateLaws.StepKeepsInv` | internal/coordination/rate_script.go:5-304 | every script call and key expiry on a non-decreasing clock keeps all stored hashes well formed with balances in range, and the corrupt reply is unreachable |
| `RateBounds.CallLedger` | internal/coordination/rate_script.go:94-110 | one call conserves tokens: balance left plus granted is at most balance before plus refunded |
| `RateBounds.RunConservesTokens` | internal/coordination/rate_script.go:58-110 | over any interleaving of acquire, inspect, refund and expiry the balance stays within [0, capacity] and final balance plus grants is at most initial balance plus refill plus refunds |
| `RateBounds.RateBound` | internal/coordination/rate_script.go:58-110 | between any two steps at most capacity + elapsed * refill / interval + refunds is granted |
| `RateBounds.WindowBound` | internal/coordination/rate_script.go:30-56 | within one fixed window at most capacity plus the refunds applied in it is granted |
| `RateBounds.NoMillisecondTwice` | internal/coordination/rate_script.go:78-91 | with an arbitrary clock and the key alive, all credit comes from the advance of the stored stamp, which never exceeds the highest clock seen, so no millisecond is credited twice |
| `RateRetry.WaitCountsDown` | internal/coordination/rate_script.go:78-91 | one bucket's wait only counts down with time and is zero exactly when the bucket can pay |
| `RateRetry.RetryTimeIsExact` | internal/coordination/rate_script.go:86-95 | a refused acquire over any mix of buckets is refused at every instant before the reported one, naming that same instant, and granted from it on |
| `RateRetry.QuietCall` | internal/coordination/rate_script.go:94-109 | a refused acquire or an inspection leaves a store that no later reading can tell from the old one |
| `RateRetry.QuietRetry` | internal/coordination/rate.go:38-43 | with repeats of the request, any other refused acquires and inspections in between, the request is refused until exactly the first reported retry time and granted from then on |
| `RateExpiry.ExpiryIsUnobservable` | internal/coordination/rate_script.go:90-107 | a server that drops bucket keys at their lifetime, at any moment once due, answers every call of every run like one that never drops them |
| `RateRefund.RefundAtMostOnce` | internal/coordination/rate_script.go:201-284 | within one marker lifetime any number of refunds with one reference credits at most once, whatever the clock does |
| `RateRefund.RefusedCallChangesNothing` | internal/coordination/rate_script.go:278-303 | a script error or a refund whose marker is live changes neither marker nor balances |
| `RateRefund.GrantedIffAllCanPay` | internal/coordination/rate_script.go:94-101 | an acquire is granted if and only if every bucket is readable and holds what is asked of it |
| `RateRefund.ReconcileBucket` | internal/requestflow/coordination_adapter.go:414-428 | for either bucket kind and across a window reset, reserving the estimate and returning the difference reads as having reserved the actual amount, down to zero |
| `RateRefund.ReconcileEqualsReservingActual` | internal/requestflow/coordination_adapter.go:414-428 | on whole stores with any mix of buckets: the refund applies and no later reading tells the result from having reserved the actual amounts, nothing at all in buckets whose actual amount is zero |
| `RateAnswers.SpendableIsUnique` | internal/coordination/rate_script.go:108-110 | what can be taken from a bucket at an instant, the greatest amount an acquire from it alone would be granted, is one number |
| `RateAnswers.ReportsWhatIsLeft` | internal/coordination/rate_script.go:94-304 | on every reachable store each number that an acquire, an inspection or a refund reports is what could be taken from that bucket right after the call |
| `RateAnswers.ReportsWhatWasThere` | internal/coordination/rate_script.go:94-194 | against the store before the call an inspection and a refused acquire report what could be taken, and a granted acquire that amount less what it took |
| `RateAnswers.RefundAppliesExactly` | internal/coordination/rate_script.go:200-284 | after any run a refund is credited if and only if no refund with its reference was credited within the marker lifetime before it |
| `RateWindow.CapacityChangeFreezesWindow` | internal/coordination/rate_script.go:45-51 | absent refunds, a capacity change in mid-window allows no further grant in that window under any later capacities |
| `RateWindow.FrozenRun` | internal/coordination/rate_script.go:45-55 | an exhausted window grants nothing until it ends |
| `RateWindow.DailyResetAgreesWithScript` | internal/requestflow/coordination_adapter.go:382-393 | the calendar's next reset equals the end of the script's window for every instant and reset minute |
| `RatePrepare.PrepareRateLimits` | internal/coordination/rate.go:108-155 | preparation succeeds exactly on a non-empty, not too long list of limits with valid dimension, metric and bounds, no two with the same dimension and metric, and yields their arguments |
| `RatePrepare.KeysAreInjective` | internal/coordination/coordinator.go:60-62 | two accepted limits have the same key exactly if they have the same dimension and metric |
| `RatePrepare.ArgumentIsValid` | internal/coordination/rate.go:129-145 | the prepared idle lifetime is long enough for a full refill, which the expiry law needs |
| `LeaseScript.Valkey.AcquireLease` | internal/coordination/lease_script.go:7-61 | acquire prunes every set, adds the member to all of them or none, and replies corrupt at the first full set without a slot at the blocking rank |
| `LeaseScript.Valkey.RenewLease` | internal/coordination/lease_script.go:64-99 | renew extends the member everywhere, or removes it everywhere if it is missing anywhere |
| `LeaseScript.Valkey.ReleaseLease` | internal/coordination/lease_script.go:102-119 | release removes the member from every set and counts the removals |
| `LeaseScript.Valkey.CleanupExpired` | internal/coordination/lease_script.go:122-140 | cleanup removes exactly the expired members |
| `LeaseLaws.LiveCount` | internal/coordination/lease_script.go:28-38 | at least n members are alive exactly while the n-th from the end of the sorted set is |
| `LeaseLaws.StepKeepsInv` | internal/coordination/lease_script.go:26-119 | every script and key expiry keeps each set within its limit and each live lease complete |
| `LeaseLaws.CapacityAndAtomicity` | internal/coordination/types.go:83-88 | over every run from an empty store each dimension has at most MaxInFlight live members, and a lease is live in all its dimensions with one common expiry or in none |
| `LeaseLaws.CorruptExactly` | internal/coordination/lease_script.go:32-37 | for any limits an acquire replies corrupt if and only if some dimension that does not hold the member has a limit below one |
| `LeaseRetry.CorruptReplyIsUnreachable` | internal/coordination/lease_script.go:32-37 | with prepared limits no script call replies corrupt, whatever the store holds |
| `LeaseRetry.LeaseRetryIsExact` | internal/coordination/lease_script.go:26-43 | a refused acquire is refused before the reported instant, naming it each time, and granted from it on, for the maximum over all dimensions |
| `LeaseRetry.QuietRetry` | internal/coordination/lease_script.go:26-57 | the same with repeats, any other refused acquires, cleanups and key drops in between |
| `LeaseRetry.ExpiryIsUnobservable` | internal/coordination/lease_script.go:17-24 | dropping a lease key after its tail plus grace changes no decision of any later run |
| `LeaseAnswers.ReplyDecidesLeases` | internal/coordination/lease_script.go:7-119 | after a granted acquire or a renewal the member is alive in every named dimension until exactly the reported expiry, now + ttl; after a release or a lost renewal in none of them; every other lease stays as it was |
| `LeaseAnswers.LeaseLivesUntilExpiry` | internal/coordination/lease_script.go:7-141 | over every run that does not renew, acquire or release it, a lease is alive at any later instant exactly if it was due to be |
| `LeaseAnswers.GrantedExactlyWithRoom` | internal/coordination/lease_script.go:26-43 | an acquire is granted if and only if every dimension holds the member or fewer live members than its limit, and promises now + ttl |
| `LeaseAnswers.RenewedExactlyWhenHeld` | internal/coordination/lease_script.go:81-99 | a renewal succeeds if and only if the member is alive in every dimension |
| `LeaseAnswers.CountsAreLive` | internal/coordination/lease_script.go:14-61 | the counts an acquire or a cleanup reports are the numbers of live members right after it |
| `LeaseAnswers.ReleaseReportsHeld` | internal/coordination/lease_script.go:107-119 | a release reports in how many of its dimensions the lease was alive |
| `LeaseAnswers.CleanupReportsRemoved` | internal/coordination/lease_script.go:126-140 | a cleanup reports by how many the stored members shrank, and keeps exactly the live ones |
| `LeaseCleanup.StepKeepsTrailing` | internal/coordination/lease_script.go:7-141 | every script and key drop keeps a server and its never-dropping twin storing the same sets, except for sets the first was entitled to drop |
| `LeaseCleanup.RepliesAlike` | internal/coordination/lease_script.go:128-138 | a call replies in full like the never-dropping server if and only if it is no cleanup, or every set that server stores in its dimensions is still there under a key not yet due |
| `LeaseCleanup.ExpiryShowsExactly` | internal/coordination/lease_script.go:17-24 | over every run all replies in full are those of the never-dropping server if and only if that holds at each cleanup |
| `LeaseCleanup.CleanupCountCanDiffer` | internal/coordination/lease_script.go:128-138 | a store the scripts leave on which the reported count differs, with the key due and with the key dropped |
| `AdmissionQueue.Queue.EnqueueRequest` | internal/admission/queue.go:43-82 | the four refusals in the source's order, else the ticket joins its user's queue and a new user the end of the rotation |
| `AdmissionQueue.Queue.TakeNextLocked` | internal/admission/queue.go:176-206 | the search from the cursor, the removal of the head ticket and the new cursor |
| `AdmissionQueue.Queue.ExpireLocked` | internal/admission/queue.go:208-246 | the expiry sweep over all users and the cursor back on its anchor user, or on the first user |
| `AdmissionQueue.Queue.RemoveWaitingLocked` | internal/admission/queue.go:248-264 | removal of one waiting ticket by identifier, and of its user when none is left |
| `AdmissionQueue.Queue.RemoveUserLocked` | internal/admission/queue.go:266-281 | removal from the rotation with the cursor adjusted |
| `AdmissionQueue.Queue.CancelTicket` | internal/admission/queue.go:106-125 | an active ticket gives its slot back, a waiting one leaves the queue, any other is not found |
| `AdmissionQueue.Queue.ReleaseTicket` | internal/admission/queue.go:128-139 | an active ticket is released once; a repeat is a no-op |
| `AdmissionInvariant.EnqueueKeepsInv` | internal/admission/queue.go:43-82 | after an enqueue userOrder still lists exactly the users with tickets without duplicates, the cursor is in range, all counters and indexes match the queues, waiting and active are disjoint and bounded |
| `AdmissionInvariant.AdmitKeepsInv` | internal/admission/queue.go:92-99 | the same after taking and activating a ticket, which occupies exactly one more slot |
| `AdmissionInvariant.CancelKeepsInv` | internal/admission/queue.go:106-125 | the same after a cancellation |
| `AdmissionInvariant.ReleaseKeepsInv` | internal/admission/queue.go:128-139 | the same after a release |
| `AdmissionInvariant.TakeServesCursor` | internal/admission/queue.go:181-187 | every listed user has a ticket, so the search stops at the cursor itself, and nothing is taken only when nobody waits |
| `AdmissionDispatch.DispatchQueue` | internal/admission/queue.go:86-102 | the dispatch loop: expiry, then admissions until no slot is free or nobody waits |
| `AdmissionDispatch.ExpireKeepsInv` | internal/admission/queue.go:208-246 | the structures agree after an expiry sweep |
| `AdmissionDispatch.DispatchKeepsInv` | internal/admission/queue.go:86-102 | after a dispatch the structures agree and no slot is idle while a ticket waits |
| `AdmissionFairness.TakeBringsCloser` | internal/admission/queue.go:188-203 | serving another user brings a waiting user exactly one step closer, even when that user leaves the rotation |
| `AdmissionFairness.EnqueueBarelyDelays` | internal/admission/queue.go:75-80 | an enqueue moves a waiting user back by at most one step, and only for a new user |
| `AdmissionFairness.CancelNeverDelays` | internal/admission/queue.go:248-281 | a cancellation never moves a waiting user back |
| `AdmissionFairness.ExpiryNeverDelays` | internal/admission/queue.go:237-244 | expiry never moves a surviving user back if the cursor's user survives |
| `AdmissionFairness.LostAnchorDelays` | internal/admission/queue.go:238-244 | when the cursor's user expires, the exact condition under which some surviving user is moved back |
| `AdmissionFairness.LostAnchorCanDelay` | internal/admission/queue.go:238-244 | a concrete queue satisfying the invariant in which it happens |
| `AdmissionFairness.ExpiryDelaysAtMost` | internal/admission/queue.go:208-246 | no expiry moves a surviving user back by more than the setback, which is zero while the cursor's user survives |
| `AdmissionFairness.SetbackIsAttained` | internal/admission/queue.go:208-246 | a positive setback is the exact delay of some surviving user |
| `AdmissionRuns.BoundedOvertaking` | internal/admission/queue.go:176-281 | over every run in which a user keeps waiting, others are served at most as often as the user was far from the cursor, plus once per newcomer, plus the setbacks of the run's expiries |
| `AdmissionRuns.TakesServeByDistance` | internal/admission/queue.go:176-206 | without arrivals take number d serves the user at distance d |
| `AdmissionRuns.TakesServeDistinctUsers` | internal/admission/queue.go:176-206 | without arrivals the takes follow the rotation from the cursor, so n takes serve n distinct users |
| `AdmissionRuns.DispatchIsRun` | internal/admission/queue.go:86-102 | a dispatch is one expiry followed by admissions, so the laws over runs cover it |
| `AdmissionRuns.FirstComeFirstServed` | internal/admission/queue.go:43-139 | over every run a user's admissions followed by the tickets still waiting are in enqueue order, and every ticket leaves waiting exactly once: admitted, expired or cancelled |
| `AdmissionRuns.DispatchRespectsDeadlines` | internal/admission/queue.go:86-102 | a dispatch never admits a ticket whose deadline has passed |
| `AdmissionRuns.RunKeepsInv` | internal/admission/queue.go:43-288 | all structures agree and stay bounded in every reachable state |
| `AdmissionAnswers.AcceptedExactly` | internal/admission/queue.go:43-82 | an enqueue is accepted if and only if both identifiers are given, the ticket is not known, there is room and the timeout is in [0, MaxQueueWait]; it then gets the instant of the request and that instant plus its timeout, or plus MaxQueueWait if none was given |
| `AdmissionAnswers.TicketsComeFromRequests` | internal/admission/queue.go:43-139 | over every run each waiting or active ticket was there at the start or is exactly the one promised to a request that the run accepted |
| `AdmissionAnswers.AdmittedComeFromRequests` | internal/admission/queue.go:86-102 | the same of every ticket a dispatch admits |
| `AdmissionAnswers.ExpiresExactlyTheLapsed` | internal/admission/queue.go:208-246 | a sweep removes exactly the waiting tickets whose deadline has come, and no others |
| `AdmissionAnswers.CancelTakesOneTicket` | internal/admission/queue.go:106-125 | a cancellation reports a known ticket, says whether it was active, and takes that one and no other out of waiting and active |
| `AdmissionAnswers.ReleaseFreesOneTicket` | internal/admission/queue.go:128-139 | a release reports whether the ticket was active and frees that one only |
| `AdmissionGate.Gate.DispatchLocked` | internal/admission/gate.go:96-106 | the two delivery loops after a dispatch, with the branch that releases an undeliverable grant |
| `AdmissionGate.Gate.DeliverLocked` | internal/admission/gate.go:114-122 | delivery removes the waiter and sends on its channel, or reports that nobody waits |
| `AdmissionGate.Gate.BeginAcquire` | internal/admission/gate.go:37-47 | the locked part of Acquire, with separate clock readings for enqueue and dispatch |
| `AdmissionGate.Gate.CancelCall` | internal/admission/gate.go:75-81 | the context and timer branches of Acquire |
| `AdmissionGate.Gate.ReleasePermit` | internal/admission/gate.go:66-94 | a permit releases its ticket once |
| `AdmissionOwnership.DispatchTickets` | internal/admission/queue.go:86-102 | a dispatch moves each ticket it names out of waiting once: expired ones away, admitted ones to active |
| `AdmissionOwnership.StepKeepsGate` | internal/admission/gate.go:37-122 | every step keeps the ownership invariant, and each of its sends finds its waiter with an empty channel |
| `AdmissionOwnership.GateOwnership` | internal/admission/gate.go:37-122 | over every interleaving of Acquire, cancellation, timer and Release with distinct identifiers, waiters are exactly the waiting tickets, no send blocks, the no-waiter branch is unreachable and no slot is idle while a ticket waits |
| `AdmissionOwnership.ExactlyOneOwner` | internal/admission/gate.go:51-73 | a ticket is active if and only if it is owned, and by exactly one buffered grant or unreleased permit |
| `AdmissionGrants.LoneTicketIsAdmitted` | internal/admission/queue.go:86-102 | with a free slot and nobody else waiting, a dispatch before its deadline admits exactly the one ticket |
| `AdmissionGrants.GrantedAtOnce` | internal/admission/gate.go:37-56 | with a free slot, nobody waiting and a dispatch before the promised deadline, Acquire finds the grant of its own ticket in its channel as soon as it leaves the lock |
| `SSEDecoder.NextSSELine` | internal/canonical/sse.go:99-123 | the scan returns the first line up to its CR, LF or CR LF, and waits on a CR at the end of an open buffer |
| `SSEDecoder.SSEReader.FeedChunk` | internal/canonical/sse.go:38-54 | Feed on the decoder's fields, with both limit errors |
| `SSEDecoder.SSEReader.CloseStream` | internal/canonical/sse.go:56-69 | Close reads the rest and dispatches a pending event |
| `SSEDecoder.SSEReader.ConsumeBuffer` | internal/canonical/sse.go:71-97 | the line loop, byte order mark and dispatch included |
| `SSEDecoder.SSEReader.ConsumeField` | internal/canonical/sse.go:125-163 | the four fields, comments, and the event size limit; what the fields mean is stated by the laws on blocks below |
| `SSEDecoder.SSEReader.DispatchEvent` | internal/canonical/sse.go:165-182 | an event only if data was seen; the last id survives |
| `SSEChunking.LinesConcat` | internal/canonical/sse.go:71-123 | the lines of a whole input are those an open prefix already yields followed by those of its residue and the rest |
| `SSEChunking.DecodeRefines` | internal/canonical/sse.go:38-97 | from any open decoder a run equals a reading of all bytes at once, unless a Feed leaves too much behind |
| `SSEChunking.DecodeExact` | internal/canonical/sse.go:38-123 | the exact outcome of every run over every chunking |
| `SSEChunking.ChunkIndependence` | internal/canonical/sse.go:38-123 | when every line is shorter than the maximum, every way of cutting the input yields the same events or the same failure |
| `SSEChunking.WhenChunkingMatters` | internal/canonical/sse.go:50-52 | the input is chunk independent if and only if it has no readable cut behind a CR that ends a line of exactly maximum length |
| `SSEChunking.ChunkingCanMatter` | internal/canonical/sse.go:50-52 | an input whose outcome depends on the cut |
| `SSEBlocks.LinesReadBack` | internal/canonical/sse.go:99-123 | lines written with any mix of LF, CR LF and lone CR read back as those lines; a last line needs no ending |
| `SSEBlocks.EveryInputIsLines` | internal/canonical/sse.go:99-123 | every input is such a sequence of lines |
| `SSEBlocks.SplitsExactly` | internal/canonical/sse.go:129-134 | a line has this field name and value if and only if the name runs up to the first colon and the value is what follows it less one leading space, or there is no colon and no value |
| `SSEBlocks.NumbersReadBack` | internal/canonical/sse.go:156-160 | a retry value is the number its decimal digits denote if that fits in 64 bits, with its sign, and nothing otherwise |
| `SSEBlocks.BlockMeaning` | internal/canonical/sse.go:71-182 | a block of any non-blank lines ended by a blank one yields, if it has a data line, one event: the data values joined by LF in order, the last event value, the last identifier without a NUL seen so far, the last non-negative retry value; it fails exactly when a line or the joined data is over the maximum, and leaves only the identifier behind |
| `SSEBlocks.IdSpansBlocks` | internal/canonical/sse.go:152-155 | the identifier is the last one seen in all blocks so far |
| `SSEBlocks.StreamMeaning` | internal/canonical/sse.go:71-97 | a whole input yields the events its blocks declare in order, a last block needing no blank line and a byte order mark counting only at the very start, or fails exactly when a line or a block is over the maximum |
| `SSEBlocks.RunMeaning` | internal/canonical/sse.go:38-97 | the same of every run over every chunking, unless a Feed stalls over the maximum |
| `SSERoundTrip.MemoryStaysBounded` | internal/canonical/sse.go:50-53 | after every successful Feed of every run residual buffer and accumulated data are within the maximum |
| `SSERoundTrip.WrittenEventsReadBack` | internal/protocol/present.go:67-86 | events as the gateway writes them, cut in any way, decode to the same events in the same order |
| `Backoff.BackoffDelay` | internal/resilience/backoff.go:37-65 | in 64-bit arithmetic no step overflows and the delay equals the one over unbounded integers |
| `Backoff.BaseDelay` | internal/resilience/backoff.go:38-49 | the guarded loop equals the recursion base' = min(Maximum, ceil(base * num / den)) |
| `Backoff.GuardIsExact` | internal/resilience/backoff.go:40-43 | above the guard the next base would exceed the maximum; below it the product is in range |
| `Backoff.BaseIsMonotone` | internal/resilience/backoff.go:37-49 | the base never decreases with the ordinal |
| `Backoff.BaseIsLeastMultiple` | internal/resilience/backoff.go:38-49 | each base is determined by the one before: the least integer that is at least its product with the multiplier, or Maximum if that is larger; the first is Initial |
| `Backoff.BaseIsGeometric` | internal/resilience/backoff.go:37-49 | until capped the base grows at least like Initial * (num/den)^(ordinal-1) |
| `Backoff.DelayInRange` | internal/resilience/backoff.go:53-64 | the jittered delay lies in [base - spread, min(base + spread, Maximum)] |
| `Backoff.EveryDelayIsReached` | internal/resilience/backoff.go:59-64 | every delay in that range is reached by some draw |
| `Retry.ScheduledExactlyWithinBudgets` | internal/resilience/retry.go:33-78 | an attempt is scheduled if and only if repeating is safe, an attempt is left and its instant is strictly before start + MaxElapsed; the instant respects backoff and retry-after |
| `Retry.WaitsForTheLonger` | internal/resilience/retry.go:57-77 | a scheduled attempt waits exactly as long as the longer of the backoff and what the upstream asked for |
| `Router.SelectCandidate` | internal/routing/router.go:16-78 | the validation, scanning, priority, weighing and drawing loops |
| `Router.ScanCandidates` | internal/routing/router.go:28-47 | the first invalid or duplicate candidate is reported, else all evaluations, eligible identifiers and the earliest cooldown end |
| `Router.EvaluateEligibility` | internal/routing/eligibility.go:3-36 | every reason that excludes a candidate, in order |
| `RouterLaws.EligibleMeansQualified` | internal/routing/eligibility.go:3-36 | no reason is listed if and only if the model is published and matches, the pool matches, the credential is authorized, active, not cooling down and not excluded, and every capability is offered |
| `Router.CheckCapabilities` | internal/routing/eligibility.go:62-71 | capabilities are accepted exactly when non-empty and unique |
| `RouterLaws.DrawsAreExact` | internal/routing/router.go:54-75 | over all draws in range a candidate is selected for exactly its effective weight if it is eligible with lowest effective priority, and never otherwise |
| `RouterLaws.SomeoneIsSelected` | internal/routing/router.go:48-77 | whenever a candidate is eligible, every draw in range selects a preferred one |
| `RouterLaws.SelectionIgnoresOrder` | internal/routing/router.go:51-75 | permuting the candidates changes neither success nor the choice for a given draw |
| `RouterLaws.SelectedIsEligible` | internal/routing/router.go:38-46 | a selected candidate is listed and not excluded |
| `RouterAnswers.ReasonsExactly` | internal/routing/eligibility.go:3-36 | the reasons listed for a candidate are exactly its obstacles, each named once |
| `RouterAnswers.DecisionReports` | internal/routing/router.go:28-77 | a decision has one evaluation per candidate in order that says whether it qualifies and names its obstacles, the sorted identifiers of those that do, a selection exactly if there are any, and the earliest cooldown end among candidates that only cool down, zero if there are none |
| `RouterAnswers.SelectedIsPreferred` | internal/routing/router.go:54-75 | the selection is an eligible candidate of lowest effective priority |
| `RouterAnswers.ScanNamesFirstBad` | internal/routing/router.go:30-37 | a refusal names the first candidate that is invalid or repeats an identifier |
| `RouterAnswers.DefaultsAreExplicit` | internal/routing/router.go:100-112 | leaving priority or weight at zero decides like giving 100 or 1 |
| `RequestFlow.ChosenIsFresh` | internal/requestflow/service.go:494-525 | a selection is one of the run's candidates outside the exclusion list |
| `RequestChoice.ChosenIsPreferred` | internal/requestflow/service.go:494-525 | the chosen candidate is neither excluded nor cooling down and has the lowest effective priority among those |
| `RequestChoice.FailsExactlyWithoutCandidates` | internal/requestflow/service.go:508-525 | on input the router accepts, the choice fails if and only if every candidate is excluded or cooling down, and the failure names the earliest cooldown end among those not excluded |
| `RequestChoice.OddsAreWeights` | internal/requestflow/service.go:494-525 | over all draws a candidate is chosen for exactly its effective weight if it is preferred, and never otherwise |
| `RequestFlow.CandidateDecision` | internal/requestflow/service.go:413-437 | the health loop ends; exactly the chosen but unhealthy candidates join the duplicate-free exclusion list, and the result is the router's last answer or, with nobody left, a failure carrying its hint |
| `RequestFlow.AttemptDecision` | internal/requestflow/service.go:439-464 | the capacity loop ends: a healthy candidate whose capacity was granted, a refusal passed on, or, only when routing finds nobody outside the exclusions, the health loop's own failure or the earliest of exactly the instants the coordinator answered with; every exclusion it adds was chosen and found unhealthy or without capacity |
| `RequestFlow.EarliestIsMinimum` | internal/requestflow/service.go:484-492 | the instant named is the minimum of the reported ones, zero instants aside |
| `RequestHistory.ScheduledWithinBudgets` | internal/requestflow/chat.go:50-59 | a retry the workflow schedules is within both budgets and never for an uncertain or storage failure |
| `RequestHistory.NextMoveIsSafe` | internal/requestflow/chat.go:46-63 | failing over or waiting keeps the exclusion list sound and never follows a failure that forbids repeating |
| `RequestHistory.OthersByCount` | internal/requestflow/chat.go:46 | with the router's distinct identifiers, counting the exclusions tells whether a candidate outside them is left |
| `RequestHistory.DueIsScheduled` | internal/requestflow/chat.go:50-59 | the policy schedules an attempt exactly when the failure is a rate limit, temporary or an interrupted stream, an attempt is left and its instant lies within the elapsed budget |
| `RequestHistory.DueAfterTheLonger` | internal/requestflow/chat.go:50-56 | that instant is the longer of the backoff and the upstream's own hint away |
| `RequestHistory.NextMoveGoesOn` | internal/requestflow/chat.go:46-63 | the workflow fails over if and only if the failure is replay safe, of one of the five kinds, and a candidate outside the exclusions is left; else it waits exactly if an attempt is due, and gives up otherwise |
| `RequestChat.NonStreamAttempt` | internal/requestflow/chat.go:71-156 | an ambiguous outcome ends in success or a failure that forbids repeating, a storage failure exactly if the response was understood or marking failed and else an uncertain one; a rejection keeps the provider's classification; success exactly when every step succeeded |
| `RequestChat.Chat` | internal/requestflow/chat.go:30-68 | every run terminates; its trace is exactly the requests and waits its rounds call for; each round is a selection that follows from the one before, at once after a failover and else after the wait that was due; it ends only because nobody could be selected, an attempt succeeded or was uncertain, it was cancelled while waiting, or it could neither fail over nor was another attempt due, and reports just that, adding a time to come back where it is missing; nothing is sent after an ambiguous outcome, a candidate is repeated only after a wait within both budgets, and at most MaxAttempts + candidates - 1 requests are sent |
| `RequestBody.EmitEvents` | internal/requestflow/stream.go:192-234 | one commit ahead of every delivery; the deliveries are exactly the content events and requested usage events ahead of the first event that is an error, is not committed or is refused by the client; the last done event is withheld |
| `RequestBody.ReadBody` | internal/requestflow/stream.go:127-159 | the client is shown exactly what can be delivered ahead of the first event that stops the reading, in the parts ahead of one that does not parse; success means all of it, from a body that ended cleanly with a done event |
| `RequestBody.CommittedExactly` | internal/requestflow/stream.go:192-209 | the client is committed if and only if the first event to be read is no error and its commit is recorded |
| `RequestStream.StreamAttempt` | internal/requestflow/stream.go:74-180 | an ambiguous outcome ends in success or a failure at which the workflow stops: interrupted only if the client was committed, uncertain only if not, else a storage failure; the final event follows recorded usage |
| `RequestStream.Stream` | internal/requestflow/stream.go:33-71 | the rounds, waits and reasons to end of a non-streaming run, and after a commit nothing is sent or waited for again, deliveries follow the commit, the final event comes last, and the client is shown exactly what the last attempt reached, all of its stream on success |
| `Circuit.Breaker.AcquirePermit` | internal/resilience/circuit.go:79-98 | the transition to half-open, both refusals and the granted permit |
| `Circuit.Breaker.RecordOutcome` | internal/resilience/circuit.go:128-190 | outcomes of the current generation move counters and state; others are refused |
| `Circuit.Handle.Complete` | internal/resilience/circuit.go:102-117 | the first recognised completion uses the permit up; repeats and unknown outcomes do nothing |
| `Circuit.RunKeepsInv` | internal/resilience/circuit.go:79-190 | over every run in-flight probes equal the uncompleted permits of the generation and stay within the limit, equal generation means equal state, failures and successes equal the recorded streaks and stay below threshold |
| `Circuit.StaleCompletionIsIgnored` | internal/resilience/circuit.go:109-133 | repeated completions change nothing, stale ones only their own permit, current ones are recorded |
| `Circuit.NoPermitWhileOpen` | internal/resilience/circuit.go:83-89 | from opening until OpenDuration has passed no run of requests and late completions obtains a permit |
| `Circuit.OpensExactly` | internal/resilience/circuit.go:134-173 | the circuit opens if and only if a failure completes the streak or a probe fails, for a full OpenDuration |
| `Circuit.ClosesExactly` | internal/resilience/circuit.go:146-190 | a completion closes the circuit if and only if it records success number SuccessThreshold of the current half-open generation |
| `Circuit.GrantsExactly` | internal/resilience/circuit.go:79-98 | a request is granted if and only if the circuit is closed, is open with OpenDuration passed, or is half-open with fewer probes outstanding than allowed; a closed circuit stays as it is |
| `Circuit.ProbeAfterOpenDuration` | internal/resilience/circuit.go:84-98 | once OpenDuration has passed the next request is let through as a probe of a new generation |
| `ResponseStream.Stream.StartStream` | internal/publicapi/responses_stream_state.go:60-76 | the two opening events |
| `ResponseStream.Stream.ConsumeEvent` | internal/publicapi/responses_stream_state.go:78-124 | the event switch on the stream's fields |
| `ResponseStream.Stream.ConsumeToolDelta` | internal/publicapi/responses_stream_state.go:154-187 | a tool is announced on its first delta; identity is kept up to date and arguments accumulate |
| `ResponseStream.Stream.CloseToolItems` | internal/publicapi/responses_stream_state.go:239-265 | open tools are closed in ascending order of index |
| `ResponseStream.Stream.BuildResponse` | internal/publicapi/responses_stream_state.go:267-289 | the final object |
| `ResponseTrace.ConsumeKeepsInv` | internal/publicapi/responses_stream_state.go:78-305 | every event keeps the trace numbered, outputs dense and owned one to one, texts equal to streamed deltas, and items done exactly when closed |
| `ResponseTrace.WellFormedTrace` | internal/publicapi/responses_stream_state.go:60-305 | for every event sequence ending in Done sequence numbers are 1..k, outputs are announced densely and before any reference, and each is done exactly once |
| `ResponseTrace.RunOwned` | internal/publicapi/responses_stream_state.go:78-265 | over every event sequence an item exists, carries its text and is closed exactly as the events say |
| `ResponseTrace.ResponseAgreesWithTrace` | internal/publicapi/responses_stream_state.go:108-120 | the last event carries the final response: text and reasoning are present exactly when the input opened them, and equal the concatenation of the input's deltas and of the deltas in the trace |
| `ResponseTrace.ResponseToolCalls` | internal/publicapi/responses_stream_state.go:275-283 | the final response has one call per tool index the input names, in ascending order, with the last non-empty identifier and name given and the concatenated arguments |
| `ResponseAnswers.CardsAgree` | internal/publicapi/responses_stream_state.go:126-197 | over every event sequence an item's number is how many items were opened before it, its identifier that of the event that opened it, and its kind, text and status what the events say |
| `ResponseAnswers.RunMetadata` | internal/publicapi/responses_stream_state.go:102-107 | usage and finish reason are the last ones received |
| `ResponseAnswers.ResponseIsFinal` | internal/publicapi/responses_stream_state.go:267-289 | every field of the final response is the one the events received call for |
| `ResponseAnswers.TraceIsDetermined` | internal/publicapi/responses_stream_state.go:60-305 | for every event sequence the whole trace is the one its events call for: each announcement with the next free number, a message's part with it, each delta under its item's number with the identity known by then, each closing text, part and item in order, and the final response |
| `ResponseClosing.ClosingTextsFinalExactly` | internal/publicapi/responses_stream_state.go:199-262 | every closing event shows its item's final text if and only if no item is streamed non-empty text after it was opened and then closed |
| `ResponseClosing.LateDeltaIsMissed` | internal/publicapi/responses_stream_state.go:82-104 | an input at which a closing event misses text |
| `ResponseClosing.LateItemIsHarmless` | internal/publicapi/responses_stream_state.go:91-104 | a delta after Finish for an item not yet opened does no harm |
| `ResponseClosing.ClosingTextsAreFinal` | internal/publicapi/responses_stream_state.go:102-120 | when no delta follows Finish every closing event shows the final text |

## Left out

- Floating point and the printing of Lua numbers: balances are exact reals, so rounding is not modelled.
- Malformed non-numeric hash fields and partially missing fields in Valkey: a stored hash is always complete; the remaining corrupt replies (a window or a stamp ahead of the clock) are modelled.
- Key derivation by HMAC and the transport to Valkey: keys are injective names of metric, scope and subject, and scripts are atomic steps.
- Changes of window length or offset on a live fixed-window key: stored window indices are not comparable across them.
- LeaseScript.Valkey.AcquireLease: members with equal expiry are kept in insertion order, where Valkey orders them by name; no reply depends on that order.
- RatePrepare.KeysAreInjective: the key is a plain name in place of prefix and digest, whose injectivity rests on HMAC.
- Preparation of lease arguments, decoding of script replies into Go structures, lease renewal timers: field checks and copying, renewals are ordinary steps of a run.
- Snapshot and NextDeadline of the queue: read-only reports.
- AdmissionOwnership.GateOwnership: wall-clock timing of contexts and timers is not modelled; either may fire at any moment.
- Overlapping Acquire calls with one ticket identifier: cancellation works by identifier, so the ownership law is stated for distinct identifiers.
- Generation counters, sequence numbers and weights as machine integers: unbounded here, except in Backoff, where 64-bit arithmetic is modelled.
- Circuit.Breaker.AcquirePermit: a refusal carries no state or retry instant, which are copies of the fields.
- Retry.ScheduledExactlyWithinBudgets: instants are unbounded integers, so saturation of very distant retry-after instants is not modelled.
- RequestChat.NonStreamAttempt: the branch that acquires a missing lease is not modelled, because the selection loop always hands one over.
- Token accounting, usage estimates and health observations of an attempt: bookkeeping that decides no branch of the loops.
- ResponseStream.Stream.ConsumeEvent: writes to the client succeed; a failing write ends the stream after a prefix of the modelled trace.
- Presentation of the final response as JSON, item identifier formatting, and the response.failed event of a broken stream.
- PostgreSQL repositories, HTTP routing, provider adapters, capability checks, configuration, credentials, metrics and the web console.
