/**
  The CircuitBreaker object of circuit_breaker.go: a status and three
  counters updated in place by Execute and by the recovery timer. Each Go
  method is a method here. Execute and Recover take exactly one
  BreakerModel.Step and keep the invariant; HandleError and
  HandleSuccessResponse equal AfterError and AfterSuccess.
 */
module Breaker {
  import opened BreakerModel

  datatype Option<T> = None | Some(value: T)

  /** Why a context ended before the operation delivered its result. */
  datatype ContextError = DeadlineExceeded | Canceled

  /** The errors Execute returns: the breaker's own, the context's, or the operation's, passed through. */
  datatype Error<E> = CircuitOpened | Context(reason: ContextError) | Operation(err: E)

  /**
    How the race between the operation and its deadline ended: either the
    operation delivered a result and an error (nil or not) first, or the
    context was done first. The environment picks it. Returned(zero, None)
    also covers a done context whose worker closed the channel, so that the
    main select read the zero response with a nil error.
   */
  datatype Outcome<R, E> = Returned(result: R, opErr: Option<E>) | Expired(reason: ContextError)

  /** Whether an outcome counts as a failure for the breaker. */
  predicate IsFailure<R, E>(outcome: Outcome<R, E>) {
    outcome.Expired? || outcome.opErr.Some?
  }

  /** The error Execute returns for a failed outcome. */
  function FailureError<R, E>(outcome: Outcome<R, E>): Error<E>
    requires IsFailure(outcome)
  {
    match outcome
    case Expired(reason) => Context(reason)
    case Returned(_, opErr) => Operation(opErr.value)
  }

  /** The event of the transition system that an outcome stands for. */
  function EventOf<R, E>(outcome: Outcome<R, E>): Event {
    if IsFailure(outcome) then CallFails else CallSucceeds
  }

  class CircuitBreaker<R, E> {
    /** How long one execution may take, in nanoseconds. */
    const timeout: int
    /** How long the breaker stays open before probing, in nanoseconds. */
    const recoverTimeout: int
    /** Error percentage at which a failure opens the breaker. */
    const errorThreshold: real
    /** Streak of successes that closes, and count of errors that reopens, a half-open breaker. */
    const halfOpenLimit: int
    /** The response returned with every error. */
    const zero: R

    var status: Status
    var errorResponses: nat
    var successResponses: nat
    var totalExecutions: nat

    function Cfg(): Config {
      Config(errorThreshold, halfOpenLimit)
    }

    function State(): BreakerModel.State
      reads this
    {
      BreakerModel.State(status, errorResponses, successResponses, totalExecutions)
    }

    ghost predicate Valid()
      reads this
    {
      Inv(State())
    }

    /** NewCB: a closed breaker with zero counters and the given configuration. */
    constructor (timeout: int, recoverTimeout: int, errorThreshold: real, halfOpenLimit: int, zero: R)
      ensures this.timeout == timeout && this.recoverTimeout == recoverTimeout
      ensures this.errorThreshold == errorThreshold && this.halfOpenLimit == halfOpenLimit
      ensures this.zero == zero
      ensures State() == Initial()
      ensures Valid()
    {
      this.timeout := timeout;
      this.recoverTimeout := recoverTimeout;
      this.errorThreshold := errorThreshold;
      this.halfOpenLimit := halfOpenLimit;
      this.zero := zero;
      status := Closed;
      errorResponses, successResponses, totalExecutions := 0, 0, 0;
    }

    method IncrementErrors()
      modifies this
      ensures errorResponses == old(errorResponses) + 1 && totalExecutions == old(totalExecutions) + 1
      ensures successResponses == 0 && status == old(status)
    {
      errorResponses := errorResponses + 1;
      totalExecutions := totalExecutions + 1;
      successResponses := 0;
    }

    method IncrementSuccesses()
      modifies this
      ensures successResponses == old(successResponses) + 1 && totalExecutions == old(totalExecutions) + 1
      ensures errorResponses == old(errorResponses) && status == old(status)
    {
      successResponses := successResponses + 1;
      totalExecutions := totalExecutions + 1;
    }

    method SetStatus(s: Status)
      modifies this
      ensures status == s
      ensures errorResponses == old(errorResponses) && successResponses == old(successResponses)
      ensures totalExecutions == old(totalExecutions)
    {
      status := s;
    }

    method ResetCounters()
      modifies this
      ensures errorResponses == 0 && successResponses == 0 && totalExecutions == 0
      ensures status == old(status)
    {
      errorResponses, successResponses, totalExecutions := 0, 0, 0;
    }

    /**
      What the recovery goroutine does once its sleep is over: an open breaker
      becomes half-open with all counters at zero; any other breaker is left
      alone. This is the only method that lowers errors or total.
     */
    method Recover()
      modifies this
      ensures old(status) == Open ==> status == HalfOpen && errorResponses == 0 && successResponses == 0 && totalExecutions == 0
      ensures old(status) != Open ==> State() == old(State())
      ensures State() == AfterRecovery(old(State()))
      ensures old(Valid()) ==> Valid()
    {
      if status == Open {
        ResetCounters();
        SetStatus(HalfOpen);
      }
    }

    /**
      Counts a failure and opens the breaker when the error percentage reaches
      the threshold or a half-open breaker has seen halfOpenLimit errors.
      recoveryScheduled says whether the recovery timer is started.
     */
    method HandleError() returns (recoveryScheduled: bool)
      modifies this
      ensures errorResponses == old(errorResponses) + 1 && totalExecutions == old(totalExecutions) + 1
      ensures successResponses == 0 && totalExecutions > 0
      ensures recoveryScheduled <==>
                (errorResponses as real) * 100.0 >= errorThreshold * (totalExecutions as real)
                || (old(status) == HalfOpen && errorResponses >= halfOpenLimit)
      ensures status == (if recoveryScheduled then Open else old(status))
      ensures State() == AfterError(Cfg(), old(State()))
    {
      IncrementErrors();
      recoveryScheduled := Trips(Cfg(), State());
      if recoveryScheduled {
        SetStatus(Open);
      }
    }

    /** Counts a success; a half-open breaker whose streak reaches halfOpenLimit closes. It never opens. */
    method HandleSuccessResponse()
      modifies this
      ensures successResponses == old(successResponses) + 1 && totalExecutions == old(totalExecutions) + 1
      ensures errorResponses == old(errorResponses)
      ensures status == (if old(status) == HalfOpen && successResponses >= halfOpenLimit then Closed else old(status))
      ensures old(status) != Open ==> status != Open
      ensures State() == AfterSuccess(Cfg(), old(State()))
    {
      IncrementSuccesses();
      if status == HalfOpen && successResponses >= halfOpenLimit {
        SetStatus(Closed);
      }
    }

    /**
      Runs one call. While open the operation is not invoked, the zero
      response and CircuitOpened are returned and nothing changes. Otherwise
      the call is counted twice in total and its outcome handled: a failure
      returns the context's or the operation's error with the zero response,
      a success returns the operation's result with no error.
     */
    method Execute(outcome: Outcome<R, E>) returns (resp: R, err: Option<Error<E>>, invoked: bool)
      modifies this
      ensures invoked <==> old(status) != Open
      ensures !invoked ==> resp == zero && err == Some(CircuitOpened) && State() == old(State())
      ensures invoked ==> totalExecutions == old(totalExecutions) + 2
      ensures invoked && IsFailure(outcome) ==>
                resp == zero && err == Some(FailureError(outcome))
                && errorResponses == old(errorResponses) + 1 && successResponses == 0
                && (status == Open <==> PercentageReached(Cfg(), State())
                                        || (old(status) == HalfOpen && errorResponses >= halfOpenLimit))
                && (status != Open ==> status == old(status))
      ensures invoked && !IsFailure(outcome) ==>
                resp == outcome.result && err == None
                && successResponses == old(successResponses) + 1 && errorResponses == old(errorResponses)
                && status != Open
                && (status == Closed <==> old(status) == Closed || successResponses >= halfOpenLimit)
      ensures State() == Step(Cfg(), old(State()), EventOf(outcome))
      ensures old(Valid()) ==> Valid()
    {
      if status == Open {
        return zero, Some(CircuitOpened), false;
      }
      invoked := true;
      ghost var before := State();
      totalExecutions := totalExecutions + 1;
      if IsFailure(outcome) {
        var _ := HandleError();
        resp, err := zero, Some(FailureError(outcome));
      } else {
        HandleSuccessResponse();
        resp, err := outcome.result, None;
      }
      if Inv(before) {
        StepKeepsInv(Cfg(), before, EventOf(outcome));
      }
    }
  }
}
