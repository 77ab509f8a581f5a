# Circuit breaker, modelled in Dafny

This project models the circuit breaker in `circuit_breaker.go`. A breaker wraps
an operation. It has a status (Closed, Open or Half-Open) and three counters:
error responses, success responses and total executions.

- `Execute` rejects every call while the breaker is Open, without running the operation.
- Any other call is counted, run against a deadline, and its outcome is handled.
- A failure (an operation error or a timeout) may open the breaker. Opening starts a recovery timer.
- When the timer fires, an Open breaker becomes Half-Open with all counters cleared.
- In Half-Open, a streak of `halfOpenLimit` successes closes the breaker again.

The project has three modules:

- `BreakerModel` (breaker_model.dfy) is the breaker as a transition system on values.
  It has a `State`, three events (a call that succeeds, a call that fails, the
  recovery timer firing), `Step`, `Run` over a sequence of events, and the
  lemmas about whole runs.
- `Breaker` (circuit_breaker.dfy) holds the class `CircuitBreaker`, with one method per
  Go method. The methods update the fields in place. Each method's `ensures` states
  the new fields in terms of the old ones. `Execute` and `Recover` take exactly one
  `BreakerModel.Step`; `HandleError` and `HandleSuccessResponse` equal `AfterError` and
  `AfterSuccess`. `Execute` and `Recover` keep the invariant `Valid()`.
- `BreakerScenario` (scenario.dfy) replays the scripted test against the class.

`Execute` returns one value that the Go method does not: `invoked`, which says
whether the operation ran. It lets the contract state that a rejected call never
runs the operation. The operation's behaviour is an argument of type `Outcome`.

The model follows the code, including three behaviours that the usual
circuit-breaker pattern might not lead one to expect:

- Every admitted call adds 2 to the total. It is counted once before the operation
  runs and once more when the outcome is counted. So errors are at most half of
  the total, and an error threshold above 50% can never be reached by the
  percentage rule. `HighThresholdNeverReached` and `NeverOpensAboveHalf` prove this.
- The success counter is a streak: every failure sets it to 0.
- Counters are reset only on the move from Open to Half-Open. Closed→Open and
  Half-Open→Closed keep them, so failures from an earlier period still count
  after the breaker closes. The usual circuit-breaker pattern resets the history
  on every transition; this model keeps the code's behaviour.

The percentage test `errors / total * 100 >= errorThreshold` is written as
`errors * 100 >= errorThreshold * total` over `real`. Total is always positive at
that point, and `PercentageIsDivision` proves the two forms agree.

## Model

| member | source | states |
|---|---|---|
| `Breaker.CircuitBreaker.constructor` | circuit_breaker.go:43-52 | A new breaker is Closed with all three counters at 0 and keeps the given timeout, recoverTimeout, errorThreshold and halfOpenLimit. These are `const` fields, so no operation changes them. |
| `Breaker.CircuitBreaker.IncrementErrors` | circuit_breaker.go:104-111 | Errors and total go up by 1, the success streak becomes 0, the status is kept. |
| `Breaker.CircuitBreaker.IncrementSuccesses` | circuit_breaker.go:113-116 | Successes and total go up by 1; errors and status are kept. |
| `Breaker.CircuitBreaker.SetStatus` | circuit_breaker.go:118-123 | The status becomes the given one; the counters are kept. |
| `Breaker.CircuitBreaker.ResetCounters` | circuit_breaker.go:125-129 | All three counters become 0; the status is kept. |
| `Breaker.CircuitBreaker.Recover` | circuit_breaker.go:131-146 | An Open breaker becomes Half-Open with all counters at 0. Any other breaker is left unchanged. The method keeps the invariant. |
| `Breaker.CircuitBreaker.HandleError` | circuit_breaker.go:148-158 | Counts the failure, so total is positive afterwards. Recovery is scheduled and the status becomes Open exactly when errors*100 >= threshold*total, or the breaker was Half-Open and errors >= halfOpenLimit. Otherwise the status is unchanged. |
| `Breaker.CircuitBreaker.HandleSuccessResponse` | circuit_breaker.go:160-166 | Counts the success and never opens the breaker. It moves Half-Open to Closed exactly when the streak reaches halfOpenLimit; other statuses are kept. |
| `Breaker.CircuitBreaker.Execute` | circuit_breaker.go:54-102 | While Open: the operation is not invoked, the result is the zero response with CircuitOpened, and nothing changes. Otherwise: total goes up by 2. A timeout or an operation error is counted as a failure and returned with the zero response. A success is counted and its result returned with no error. The new state is exactly one `BreakerModel.Step`, and the invariant is kept. |
| `BreakerModel.PercentageIsDivision` | circuit_breaker.go:151-153 | When total > 0, the cross-multiplied test holds exactly when errors / total * 100 >= errorThreshold. |
| `BreakerModel.StepKeepsInv` | circuit_breaker.go:62-116 | Each event keeps total even and 2*(errors + successes) <= total. |
| `BreakerModel.CountersResetOnlyByRecovery` | circuit_breaker.go:104-146 | Errors or total go down only when recovery fires on an Open breaker. Successes go down only then or on an admitted failure. |
| `BreakerModel.HighThresholdNeverReached` | circuit_breaker.go:148-153 | If the state satisfies the invariant and the threshold is above 50, the failure just counted never meets the percentage rule. |
| `BreakerModel.RunKeepsInv` | circuit_breaker.go:54-166 | Every sequence of events from a state with the invariant ends in a state with the invariant. |
| `BreakerModel.ReachableCounts` | circuit_breaker.go:43-166 | In every state reachable from a new breaker: total is even, errors + successes <= total, and 2*errors <= total. |
| `BreakerModel.OpenUntilRecovery` | circuit_breaker.go:55-59 | Before the recovery timer fires, an Open breaker stays exactly as it is, whatever calls arrive. |
| `BreakerModel.CountersGrowWithoutRecovery` | circuit_breaker.go:104-129 | Over any sequence of events without a recovery, errors and total never decrease. |
| `BreakerModel.ClosedForeverAboveHalf` | circuit_breaker.go:148-166 | A Closed breaker with the invariant and a threshold above 50 stays Closed over every sequence of events. |
| `BreakerModel.NeverOpensAboveHalf` | circuit_breaker.go:43-166 | A breaker created with a threshold above 50 is Closed after every sequence of events. |
| `BreakerModel.ProbeSuccesses` | circuit_breaker.go:160-166 | Start Half-Open with a streak below halfOpenLimit. After k successes that do not pass the limit, the state is Half-Open, or Closed exactly when the streak reaches the limit. The streak grows by k, total by 2k, and errors are kept. |
| `BreakerModel.RecoveryThenLimitSuccessesCloses` | circuit_breaker.go:131-166 | Start Open with a positive halfOpenLimit. Recovery followed by halfOpenLimit successes leaves the breaker Closed, with 0 errors, a streak of halfOpenLimit and total 2*halfOpenLimit. |
| `BreakerScenario.TestExecuteScenario` | circuit_breaker_test.go:10-66 | Uses threshold 1% and halfOpenLimit 3. Three successes keep the breaker Closed. A timeout opens it, with errors 1 and total 8. Two calls before recovery get CircuitOpened and do not run. After recovery, two successes leave it Half-Open and the third closes it. |

## Left out

- The goroutine and channel race between the operation and the context deadline (circuit_breaker.go:72-101) is not modelled. Its outcome is an `Outcome` argument of `Execute`, which the environment chooses: the operation returned first, with or without an error, or the context was done first. A third ending is also covered: when the context is already done and the operation returns quickly, the worker takes `ctx.Done()` (circuit_breaker.go:80) and closes the channel (:75), and the main `select` (:86-91) may read the zero response from the closed channel, count a success and return the zero response with no error; the model allows this as the outcome `Returned(zero, None)`. The resource-leak behaviour of the abandoned goroutine is concurrent and is left out.
- The mutex, the atomic counters and the unlocked reads of the status are concurrency concerns and are left out. The fields are plain, and each method runs alone.
- `time.Sleep(recoverTimeout)` and `go cb.recover()` are not modelled as timers. `HandleError` returns whether recovery is scheduled. Recovery is the method `Recover`, which the environment may call at any time. Wall-clock time and several pending timers are not modelled, so `timeout` and `recoverTimeout` are only stored.
- `context.WithTimeout` and `ctx.Err()` are not modelled. A context that is done is represented only by its reason (deadline exceeded or cancelled).
- Go generics are not modelled, and neither is the request parameter. The operation is never called in the model, so the request does not appear. The response is an abstract type `R` whose zero value is a constructor argument.
- `float64` arithmetic is replaced by exact arithmetic over `real`, so rounding, NaN and infinities are not modelled.
- Counters are unbounded `nat`. The wrap-around of `int64` is not modelled.
- The test helper `F` and the test's logging are not modelled. The test's script appears only as `TestExecuteScenario`, where the sleeps become the choice of outcome and the point where `Recover` is called.
