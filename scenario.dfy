/**
  The scripted run of circuit_breaker_test.go, replayed against the class:
  threshold 1%, halfOpenLimit 3, 3-second timeouts, an operation that sleeps
  for its parameter and then answers "ok". Sleeps become the choice of
  outcome and the point where the recovery timer fires.
 */
module BreakerScenario {
  import opened BreakerModel
  import opened Breaker

  const Second: int := 1000000000

  /**
    The nine calls, in order: three successes keep the breaker closed; a call
    that outlives its timeout fails and opens it (errors 1, total 8); two
    calls before recovery are rejected without running; after recovery three
    successes pass, the first two probing in Half-Open and the third closing
    the breaker with its counters kept.
   */
  method TestExecuteScenario() returns (failed: seq<bool>, statuses: seq<Status>, ran: seq<bool>)
    ensures failed == [false, false, false, true, true, true, false, false, false]
    ensures statuses == [Closed, Closed, Closed, Open, Open, Open, HalfOpen, HalfOpen, Closed]
    ensures ran == [true, true, true, true, false, false, true, true, true]
  {
    var cb := new CircuitBreaker<string, string>(3 * Second, 3 * Second, 1.0, 3, "");
    var ok: Outcome<string, string> := Returned("ok", None);
    var late: Outcome<string, string> := Expired(DeadlineExceeded);
    var outcomes := [ok, ok, ok, late, ok, ok, ok, ok, ok];
    failed, statuses, ran := [], [], [];
    var i := 0;
    while i < |outcomes|
      invariant 0 <= i <= |outcomes|
      invariant |failed| == |statuses| == |ran| == i
      invariant i == 0 ==> cb.State() == Initial()
      invariant i == 1 ==> cb.State() == State(Closed, 0, 1, 2)
      invariant i == 2 ==> cb.State() == State(Closed, 0, 2, 4)
      invariant i == 3 ==> cb.State() == State(Closed, 0, 3, 6)
      invariant 4 <= i <= 6 ==> cb.State() == State(Open, 1, 0, 8)
      invariant i == 7 ==> cb.State() == State(HalfOpen, 0, 1, 2)
      invariant i == 8 ==> cb.State() == State(HalfOpen, 0, 2, 4)
      invariant i == 9 ==> cb.State() == State(Closed, 0, 3, 6)
      invariant failed == [false, false, false, true, true, true, false, false, false][..i]
      invariant statuses == [Closed, Closed, Closed, Open, Open, Open, HalfOpen, HalfOpen, Closed][..i]
      invariant ran == [true, true, true, true, false, false, true, true, true][..i]
      invariant cb.errorThreshold == 1.0 && cb.halfOpenLimit == 3 && cb.zero == ""
    {
      if i == 6 {
        // the test sleeps past recoverTimeout before its seventh call
        cb.Recover();
      }
      var resp, err, invoked := cb.Execute(outcomes[i]);
      if i == 3 {
        assert err == Some(Context(DeadlineExceeded)) && resp == "";
      } else if i == 4 || i == 5 {
        assert err == Some(CircuitOpened) && resp == "";
      } else {
        assert err == None && resp == "ok";
      }
      failed := failed + [err.Some?];
      statuses := statuses + [cb.status];
      ran := ran + [invoked];
      i := i + 1;
    }
  }
}
