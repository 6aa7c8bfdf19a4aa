/** The non-streaming workflow: attempts, failover and scheduled retries, and what every run keeps. */
module RequestChat {
  import opened Common
  import opened RequestFlow
  import opened RequestTrace
  import opened RequestHistory
  import Retry
  import Backoff

  /** Everything one attempt meets: the store's answers, the built request, the upstream. */
  datatype Exchange = Exchange(
    created: bool,
    buildError: Option<Failure>,
    sending: bool,
    upstream: Upstream,
    marking: Marking,
    completed: bool,
    accounted: bool,
    persisted: bool,
    cooldownUntil: int)

  /** Whether the attempt gets as far as sending its request. */
  predicate SendsRequest(x: Exchange) {
    x.created && x.buildError.None? && x.sending
  }

  /** The failure an attempt ends in, if any. */
  function AttemptError(x: Exchange): Option<Failure> {
    if !SendsRequest(x) then Some(if x.created && x.buildError.Some? then x.buildError.value else StorageFailure())
    else if !Ambiguous(x.upstream) then Some(x.upstream.classified)
    else if x.upstream.TransportError? || !x.upstream.readable || !Success(x.upstream.status) || !x.upstream.parses
    then Some(UncertainFailure(x.marking, x.cooldownUntil))
    else if x.completed && x.accounted && x.persisted then None
    else Some(StorageFailure())
  }

  /**
   * One attempt on a leased candidate. An ambiguous outcome ends in success or in a final failure; a rejected
   * request keeps the provider's classification; without a send there is no outcome to be ambiguous about.
   */
  method NonStreamAttempt(x: Exchange) returns (error: Option<Failure>, sent: bool)
    ensures sent == SendsRequest(x) && error == AttemptError(x)
    ensures error.None? <==>
              sent && x.upstream.Response? && x.upstream.readable && Success(x.upstream.status) && x.upstream.parses
              && x.completed && x.accounted && x.persisted
    ensures sent && Ambiguous(x.upstream) && error.Some? ==> Final(error.value)
    ensures sent && Ambiguous(x.upstream) && error.Some? ==>
              var understood := x.upstream.Response? && x.upstream.readable && Success(x.upstream.status)
                                && x.upstream.parses;
              && (error.value.kind.StorageUnavailable? <==> understood || x.marking.MarkFailed?)
              && (error.value.kind.Uncertain? ==>
                    error.value.retryAfter == Some(RetryAfter(None, Some(x.cooldownUntil))))
    ensures sent && !Ambiguous(x.upstream) ==> error == Some(x.upstream.classified)
  {
    sent := false;
    if !x.created {
      return Some(StorageFailure()), sent;
    }
    if x.buildError.Some? {
      return x.buildError, sent;
    }
    if !x.sending {
      return Some(StorageFailure()), sent;
    }
    sent := true;
    if x.upstream.TransportError? {
      return Some(UncertainFailure(x.marking, x.cooldownUntil)), sent;
    }
    if !x.upstream.readable {
      return Some(UncertainFailure(x.marking, x.cooldownUntil)), sent;
    }
    if x.upstream.status < 200 || x.upstream.status > 299 {
      if x.upstream.status >= 500 && !x.upstream.classified.replaySafe {
        return Some(UncertainFailure(x.marking, x.cooldownUntil)), sent;
      }
      return Some(x.upstream.classified), sent;
    }
    if !x.upstream.parses {
      return Some(UncertainFailure(x.marking, x.cooldownUntil)), sent;
    }
    if !x.completed {
      return Some(StorageFailure()), sent;
    }
    if !x.accounted {
      return Some(StorageFailure()), sent;
    }
    if !x.persisted {
      return Some(StorageFailure()), sent;
    }
    error := None;
  }

  // ---------------------------------------------------------------------------------------------
  // The workflow
  // ---------------------------------------------------------------------------------------------

  /** Surroundings of a whole run: the selection world, plus what each attempt meets. */
  datatype Script = Script(
    world: World,
    exchange: nat -> Exchange,
    jitter: nat -> (Backoff.int64 -> Backoff.int64),
    canceled: nat -> bool,
    openDuration: int)

  predicate EndsUncertain(x: Exchange) { AttemptError(x).Some? && AttemptError(x).value.kind.Uncertain? }

  function ContextOf(run: Run, policy: Retry.Policy, s: Script): Context {
    Context(run, policy, s.world.now(0), s.world, s.jitter, s.canceled, s.openDuration,
            (k: nat) => s.exchange(k).upstream, (k: nat) => SendsRequest(s.exchange(k)),
            (k: nat) => AttemptError(s.exchange(k)), (k: nat) => EndsUncertain(s.exchange(k)))
  }

  lemma ContextIs(run: Run, policy: Retry.Policy, s: Script, k: nat)
    ensures var x := ContextOf(run, policy, s);
            && x.replies(k) == s.exchange(k).upstream && x.sends(k) == SendsRequest(s.exchange(k))
            && x.errors(k) == AttemptError(s.exchange(k)) && x.stops(k) == EndsUncertain(s.exchange(k))
  {
  }

  /**
   * A whole non-streaming run. It terminates; its trace holds exactly the requests its attempts sent; it never
   * sends after an ambiguous outcome; it repeats a candidate only after a scheduled wait; its waits are the ones due
   * and respect both budgets; it sends at most MaxAttempts + candidates - 1 requests; each round follows from the one
   * before; and it ends only where it could not go on, for the reason it gives.
   */
  method Chat(run: Run, policy: Retry.Policy, script: Script)
    returns (outcome: Outcome, trace: seq<Event>, ghost rounds: seq<Round>)
    requires policy.Valid()
    ensures Over(ContextOf(run, policy, script), trace, rounds, outcome)
    ensures outcome.Completed? ==> trace != [] && var last := trace[|trace| - 1];
                                   last.Sent? && last.upstream.Response? && Success(last.upstream.status)
    ensures trace != [] && trace[|trace| - 1].Sent? && Ambiguous(trace[|trace| - 1].upstream) ==>
              outcome.Completed? || (outcome.Failed? && Final(outcome.failure))
  {
    hide Choose, Earliest, CapacityFailure, ValueOrNow, NextMove, SelectCapacity, SelectHealthy, Asked, ContextOf;
    hide ExclusionsOK, Retry.Policy.Valid, AttemptError, SendsRequest, Extended, AllJustified, ChosenAt, NobodyLeft;
    hide Standing, Sound, History, Ended, Played, Attempted;
    ghost var x := ContextOf(run, policy, script);
    ContextFields(run, policy, script);
    var excluded: seq<CandidateID> := [];
    var startedAt := script.world.now(0);
    var tick, attempt := 1, 1;
    trace, rounds := [], [];
    StandsAtStart(x);
    NoExclusions(run);
    while true
      invariant attempt >= 1 && |rounds| == attempt - 1 && ExclusionsOK(run, excluded)
      invariant Standing(x, trace, rounds, excluded, tick)
      invariant trace != [] && trace[|trace| - 1].Sent? ==> !Ambiguous(trace[|trace| - 1].upstream)
      decreases Max(0, policy.maxAttempts - attempt), |run.candidates| - |excluded|
    {
      ghost var before, asked := excluded, tick;
      ghost var round := Fresh(x, excluded, tick);
      var selection;
      ghost var questions, reported;
      selection, excluded, tick, questions, reported := AttemptDecision(run, excluded, script.world, tick);
      if selection.Err? {
        SelectionEnds(x, trace, rounds, before, asked);
        return Failed(selection.failure), trace, rounds + [round];
      }
      var candidate := selection.value;
      var exchange := script.exchange(attempt);
      var error, sent := NonStreamAttempt(exchange);
      ContextIs(run, policy, script, attempt);
      ExtendedIs(x, trace, candidate, attempt);
      ghost var sofar := trace;
      if sent {
        trace := trace + [Sent(candidate.id, attempt, exchange.upstream)];
      }
      if error.None? {
        AttemptEnds(x, sofar, rounds, before, asked);
        return Completed, trace, rounds + [round];
      }
      if error.value.kind.Uncertain? {
        AttemptEnds(x, sofar, rounds, before, asked);
        return Failed(error.value), trace, rounds + [round];
      }
      var now := script.world.now(tick);
      var jitter := script.jitter(attempt);
      var next := NextMove(run, policy, jitter, attempt, now, startedAt, error.value, excluded, candidate.id);
      DecisionStands(x, sofar, rounds, before, asked, error.value);
      NextMoveIsSafe(run, policy, jitter, attempt, now, startedAt, error.value, excluded, candidate);
      rounds := rounds + [round];
      tick := tick + 1;
      match next {
        case GiveUp =>
          var failure := ClientFailure(error.value, script.world.now(tick), script.openDuration);
          return Failed(failure), trace, rounds;
        case TryNext(more) =>
          excluded := more;
        case WaitUntil(more, at) =>
          excluded := more;
          trace := trace + [Waited(attempt, at)];
          if script.canceled(attempt) {
            return CanceledWhileWaiting, trace, rounds;
          }
      }
      attempt := attempt + 1;
    }
  }

  lemma ContextFields(run: Run, policy: Retry.Policy, s: Script)
    ensures var x := ContextOf(run, policy, s);
            && x.run == run && x.policy == policy && x.startedAt == s.world.now(0) && x.world == s.world
            && x.jitter == s.jitter && x.canceled == s.canceled && x.openDuration == s.openDuration
  {
  }
}
