/** The retry policy: when another attempt is scheduled, and for which instant. */
module Retry {
  import opened Common
  import Backoff

  datatype FailureClass =
    | InvalidRequest | Authentication | Permission | Quota | RateLimit | ProviderTemporary | ProviderPermanent
    | Timeout | Network | Canceled | StreamInterrupted | Storage | Uncertain | UnknownFailure

  datatype SendBoundary = NotStarted | Rejected | AcceptedByUpstream | SendUncertain | UnknownSend

  datatype ClientBoundary = Uncommitted | Committed | UnknownClient

  /** Either a delay or an instant; an instant of zero is unset. */
  datatype RetryAfter = RetryAfter(delay: int, at: int)

  datatype Input = Input(
    attempt: int,
    startedAt: int,
    failure: FailureClass,
    send: SendBoundary,
    client: ClientBoundary,
    idempotent: bool,
    retryAfter: Option<RetryAfter>)

  datatype Policy = Policy(maxAttempts: int, maxElapsed: int, backoff: Backoff.Config) {
    predicate Valid() { 0 < maxAttempts <= 1000 && maxElapsed > 0 && Backoff.Valid(backoff, true) }
  }

  datatype Reason = TerminalFailure | AttemptBudget | ElapsedBudget | ClientCommitted | RequestCanceled

  datatype Decision = Schedule(nextAttempt: int, delay: int, at: int) | Stop(reason: Reason) | LeaveUncertain

  predicate Retryable(failure: FailureClass) {
    match failure
    case RateLimit | ProviderTemporary | Timeout | Network | StreamInterrupted | Uncertain => true
    case _ => false
  }

  predicate ValidInput(input: Input, now: int) {
    && input.attempt > 0 && input.startedAt != 0 && input.startedAt <= now
    && !input.failure.UnknownFailure? && !input.send.UnknownSend? && !input.client.UnknownClient?
  }

  function AfterDelay(after: RetryAfter, now: int): Backoff.Result<int> {
    if after.delay < 0 || (after.at != 0 && after.delay != 0) then Backoff.Err(Backoff.InvalidInput)
    else if after.at != 0 then Backoff.Ok(Max(0, after.at - now))
    else Backoff.Ok(after.delay)
  }

  /** The longer of the backoff and the upstream's own retry-after. */
  function TotalDelay(p: Policy, random: Backoff.int64 -> Backoff.int64, now: int, input: Input): Backoff.Result<int>
    requires p.Valid()
  {
    var backoff := Backoff.Delay(p.backoff, input.attempt, random);
    if backoff.Err? || input.retryAfter.None? then backoff
    else
      var after := AfterDelay(input.retryAfter.value, now);
      if after.Err? then after else Backoff.Ok(Max(backoff.value, after.value))
  }

  function Decide(p: Policy, random: Backoff.int64 -> Backoff.int64, now: int, input: Input): Backoff.Result<Decision>
    requires p.Valid()
  {
    if !ValidInput(input, now) then Backoff.Err(Backoff.InvalidInput)
    else if input.client.Committed? then Backoff.Ok(Stop(ClientCommitted))
    else if input.failure.Canceled? then Backoff.Ok(Stop(RequestCanceled))
    else if (input.failure.Uncertain? || input.send.SendUncertain?) && !input.idempotent then Backoff.Ok(LeaveUncertain)
    else if !Retryable(input.failure) then Backoff.Ok(Stop(TerminalFailure))
    else if input.attempt >= p.maxAttempts then Backoff.Ok(Stop(AttemptBudget))
    else
      var deadline := input.startedAt + p.maxElapsed;
      if now >= deadline then Backoff.Ok(Stop(ElapsedBudget))
      else
        var delay := TotalDelay(p, random, now, input);
        if delay.Err? then Backoff.Err(delay.error)
        else if now + delay.value >= deadline then Backoff.Ok(Stop(ElapsedBudget))
        else Backoff.Ok(Schedule(input.attempt + 1, delay.value, now + delay.value))
  }

  /** Replaying this failure cannot repeat an effect the upstream may already have had. */
  predicate SafeToRepeat(input: Input) {
    && Retryable(input.failure)
    && !input.client.Committed?
    && (input.idempotent || !(input.failure.Uncertain? || input.send.SendUncertain?))
  }

  /**
   * An attempt is scheduled exactly when repeating is safe, an attempt is left, and its instant, no earlier than
   * the backoff and the upstream's retry-after allow, falls strictly before the elapsed budget runs out.
   */
  lemma ScheduledExactlyWithinBudgets(p: Policy, random: Backoff.int64 -> Backoff.int64, now: int, input: Input)
    requires p.Valid() && ValidInput(input, now)
    ensures var d, delay := Decide(p, random, now, input), TotalDelay(p, random, now, input);
            (d.Ok? && d.value.Schedule?) <==>
              (SafeToRepeat(input) && input.attempt < p.maxAttempts && delay.Ok?
               && now + delay.value < input.startedAt + p.maxElapsed)
    ensures var d := Decide(p, random, now, input);
            d.Ok? && d.value.Schedule? ==>
              && d.value.nextAttempt == input.attempt + 1 <= p.maxAttempts
              && now <= d.value.at == now + d.value.delay < input.startedAt + p.maxElapsed
              && Backoff.Lowest(p.backoff, input.attempt) <= d.value.delay
              && (input.retryAfter.Some? && input.retryAfter.value.at != 0 ==> d.value.at >= input.retryAfter.value.at)
              && (input.retryAfter.Some? ==> d.value.delay >= input.retryAfter.value.delay)
  {
    hide Backoff.Delay, Backoff.Lowest;
    if Backoff.Delay(p.backoff, input.attempt, random).Ok? {
      DelayIsNatural(p.backoff, input.attempt, random);
    }
  }

  /** How long the upstream asks to wait: until its instant, or for its delay. */
  function Asked(input: Input, now: int): int {
    if input.retryAfter.None? then 0
    else if input.retryAfter.value.at != 0 then Max(0, input.retryAfter.value.at - now)
    else input.retryAfter.value.delay
  }

  /** A scheduled attempt waits exactly as long as the longer of the backoff and what the upstream asked for. */
  lemma WaitsForTheLonger(p: Policy, random: Backoff.int64 -> Backoff.int64, now: int, input: Input)
    requires p.Valid() && Decide(p, random, now, input).Ok? && Decide(p, random, now, input).value.Schedule?
    ensures var backoff := Backoff.Delay(p.backoff, input.attempt, random);
            var d := Decide(p, random, now, input).value;
            && backoff.Ok? && d.at == now + d.delay
            && backoff.value <= d.delay && Asked(input, now) <= d.delay
            && (d.delay == backoff.value || d.delay == Asked(input, now))
  {
    hide Backoff.Delay, Backoff.Lowest;
    if Backoff.Delay(p.backoff, input.attempt, random).Ok? {
      DelayIsNatural(p.backoff, input.attempt, random);
    }
  }

  lemma DelayIsNatural(c: Backoff.Config, ordinal: int, random: Backoff.int64 -> Backoff.int64)
    requires Backoff.Valid(c, true) && Backoff.Delay(c, ordinal, random).Ok?
    ensures 0 <= Backoff.Lowest(c, ordinal) <= Backoff.Delay(c, ordinal, random).value
  {
    Backoff.DelayInRange(c, ordinal, random);
  }

  lemma ScheduledAtTotalDelay(p: Policy, random: Backoff.int64 -> Backoff.int64, now: int, input: Input)
    requires p.Valid() && Decide(p, random, now, input).Ok? && Decide(p, random, now, input).value.Schedule?
    ensures TotalDelay(p, random, now, input).Ok?
    ensures Decide(p, random, now, input).value.at == now + TotalDelay(p, random, now, input).value
  {
    hide TotalDelay;
  }
}
