/**
  The circuit breaker of circuit_breaker.go, seen as a sequential transition
  system on values: a status and the three counters, driven by three events.
  The class in module Breaker is proved to move along these steps;
  the lemmas here are about whole runs of the machine.
 */
module BreakerModel {

  /** The breaker's status; the Go constants are 0, 1, 2 in this order. */
  datatype Status = Closed | Open | HalfOpen

  /** The two configuration values that decide transitions. */
  datatype Config = Config(errorThreshold: real, halfOpenLimit: int)

  /** The mutable part of a breaker: its status and its three counters. */
  datatype State = State(status: Status, errors: nat, successes: nat, total: nat)

  /**
    What the environment can do to a breaker: an Execute call whose operation
    succeeds, one whose operation fails or times out, and the recovery timer
    firing.
   */
  datatype Event = CallSucceeds | CallFails | RecoveryFires

  /** The state a new breaker starts in. */
  function Initial(): State {
    State(Closed, 0, 0, 0)
  }

  /** errors / total * 100 >= errorThreshold, cross-multiplied by total. */
  predicate PercentageReached(cfg: Config, st: State) {
    (st.errors as real) * 100.0 >= cfg.errorThreshold * (st.total as real)
  }

  /** The condition under which a failure opens the breaker. */
  predicate Trips(cfg: Config, st: State) {
    PercentageReached(cfg, st) || (st.status == HalfOpen && st.errors >= cfg.halfOpenLimit)
  }

  /** The first count of an admitted call, made before the operation runs. */
  function Admitted(st: State): State {
    st.(total := st.total + 1)
  }

  /** incrementErrors: one more error, one more execution, the success streak broken. */
  function ErrorCounted(st: State): State {
    st.(errors := st.errors + 1, total := st.total + 1, successes := 0)
  }

  /** incrementSuccesses: one more success, one more execution. */
  function SuccessCounted(st: State): State {
    st.(successes := st.successes + 1, total := st.total + 1)
  }

  /** handleError: count the failure, then open the breaker if it trips. */
  function AfterError(cfg: Config, st: State): State {
    var c := ErrorCounted(st);
    if Trips(cfg, c) then c.(status := Open) else c
  }

  /** handleSuccessResponse: count the success, then close a half-open breaker whose streak is long enough. */
  function AfterSuccess(cfg: Config, st: State): State {
    var c := SuccessCounted(st);
    if c.status == HalfOpen && c.successes >= cfg.halfOpenLimit then c.(status := Closed) else c
  }

  /** recover, once its sleep is over: an open breaker becomes half-open with all counters cleared. */
  function AfterRecovery(st: State): State {
    if st.status == Open then State(HalfOpen, 0, 0, 0) else st
  }

  /** One event. A call while open is rejected and changes nothing. */
  function Step(cfg: Config, st: State, ev: Event): State {
    match ev
    case RecoveryFires => AfterRecovery(st)
    case CallSucceeds => if st.status == Open then st else AfterSuccess(cfg, Admitted(st))
    case CallFails => if st.status == Open then st else AfterError(cfg, Admitted(st))
  }

  /** The state after a whole sequence of events, first event first. */
  function Run(cfg: Config, st: State, evs: seq<Event>): State
    decreases |evs|
  {
    if evs == [] then st else Run(cfg, Step(cfg, st, evs[0]), evs[1..])
  }

  /**
    The invariant the double counting gives: every admitted call adds two to
    total, and errors plus successes grow by at most one per call.
   */
  predicate Inv(st: State) {
    st.total % 2 == 0 && 2 * (st.errors + st.successes) <= st.total
  }

  /** n successful calls in a row. */
  function Successes(n: nat): (evs: seq<Event>)
    ensures |evs| == n && forall i :: 0 <= i < n ==> evs[i] == CallSucceeds
  {
    seq(n, _ => CallSucceeds)
  }

  // ---------------------------------------------------------------------
  // One step

  /** The test written with cross-multiplication is the source's percentage test whenever total > 0. */
  lemma PercentageIsDivision(cfg: Config, st: State)
    requires st.total > 0
    ensures PercentageReached(cfg, st) <==> (st.errors as real) / (st.total as real) * 100.0 >= cfg.errorThreshold
  {
  }

  /** Every step keeps the invariant. */
  lemma StepKeepsInv(cfg: Config, st: State, ev: Event)
    requires Inv(st)
    ensures Inv(Step(cfg, st, ev))
  {
  }

  /** Only recovery from Open lowers errors or total; only a failure or that recovery lowers successes. */
  lemma CountersResetOnlyByRecovery(cfg: Config, st: State, ev: Event)
    ensures Step(cfg, st, ev).errors < st.errors || Step(cfg, st, ev).total < st.total
            ==> ev == RecoveryFires && st.status == Open
    ensures Step(cfg, st, ev).successes < st.successes
            ==> (ev == CallFails && st.status != Open) || (ev == RecoveryFires && st.status == Open)
  {
  }

  /**
    Because total grows by two per admitted call and errors by at most one,
    the percentage after a failure is at most 50: a threshold above 50 can
    never be reached.
   */
  lemma HighThresholdNeverReached(cfg: Config, st: State)
    requires Inv(st) && cfg.errorThreshold > 50.0
    ensures !PercentageReached(cfg, ErrorCounted(Admitted(st)))
  {
    var c := ErrorCounted(Admitted(st));
    assert 2 * c.errors <= c.total && c.total > 0;
    var e, t := c.errors as real, c.total as real;
    assert e * 100.0 <= 50.0 * t;
    MulStrictMonotone(50.0, cfg.errorThreshold, t);
  }

  lemma MulStrictMonotone(a: real, b: real, t: real)
    requires a < b && t > 0.0
    ensures a * t < b * t
  {
    assert (b - a) * t > 0.0;
  }

  // ---------------------------------------------------------------------
  // Whole runs

  /** Every run from a state that satisfies the invariant ends in one that does. */
  lemma {:induction false} RunKeepsInv(cfg: Config, st: State, evs: seq<Event>)
    requires Inv(st)
    ensures Inv(Run(cfg, st, evs))
    decreases |evs|
  {
    if evs != [] {
      StepKeepsInv(cfg, st, evs[0]);
      RunKeepsInv(cfg, Step(cfg, st, evs[0]), evs[1..]);
    }
  }

  /** In every reachable state, total is even, errors + successes <= total, and errors are at most half of total. */
  lemma ReachableCounts(cfg: Config, evs: seq<Event>)
    ensures var r := Run(cfg, Initial(), evs);
            r.total % 2 == 0 && r.errors + r.successes <= r.total && 2 * r.errors <= r.total
  {
    RunKeepsInv(cfg, Initial(), evs);
  }

  /** Without a recovery, an open breaker stays exactly as it is: every call is rejected. */
  lemma {:induction false} OpenUntilRecovery(cfg: Config, st: State, evs: seq<Event>)
    requires st.status == Open
    requires forall i :: 0 <= i < |evs| ==> evs[i] != RecoveryFires
    ensures Run(cfg, st, evs) == st
    decreases |evs|
  {
    if evs != [] {
      OpenUntilRecovery(cfg, st, evs[1..]);
    }
  }

  /** Without a recovery, errors and total never decrease. */
  lemma {:induction false} CountersGrowWithoutRecovery(cfg: Config, st: State, evs: seq<Event>)
    requires forall i :: 0 <= i < |evs| ==> evs[i] != RecoveryFires
    ensures Run(cfg, st, evs).errors >= st.errors && Run(cfg, st, evs).total >= st.total
    decreases |evs|
  {
    if evs != [] {
      CountersGrowWithoutRecovery(cfg, Step(cfg, st, evs[0]), evs[1..]);
    }
  }

  /**
    With a threshold above 50 a closed breaker never opens, whatever happens:
    the half-open rule cannot apply while closed and the percentage rule
    cannot be met.
   */
  lemma {:induction false} ClosedForeverAboveHalf(cfg: Config, st: State, evs: seq<Event>)
    requires Inv(st) && st.status == Closed && cfg.errorThreshold > 50.0
    ensures Run(cfg, st, evs).status == Closed
    decreases |evs|
  {
    if evs != [] {
      if evs[0] == CallFails {
        HighThresholdNeverReached(cfg, st);
      }
      StepKeepsInv(cfg, st, evs[0]);
      ClosedForeverAboveHalf(cfg, Step(cfg, st, evs[0]), evs[1..]);
    }
  }

  /** So a breaker configured with a threshold above 50 stays closed for its whole life. */
  lemma NeverOpensAboveHalf(cfg: Config, evs: seq<Event>)
    requires cfg.errorThreshold > 50.0
    ensures Run(cfg, Initial(), evs).status == Closed
  {
    ClosedForeverAboveHalf(cfg, Initial(), evs);
  }

  /**
    Probing: in Half-Open, k successes short of the limit keep the breaker
    half-open with a streak of k more; the success that reaches
    halfOpenLimit closes it. Counters are kept, not reset, on closing.
   */
  lemma {:induction false} ProbeSuccesses(cfg: Config, st: State, k: nat)
    requires st.status == HalfOpen && st.successes < cfg.halfOpenLimit
    requires st.successes + k <= cfg.halfOpenLimit
    ensures Run(cfg, st, Successes(k))
            == State(if st.successes + k == cfg.halfOpenLimit then Closed else HalfOpen,
                     st.errors, st.successes + k, st.total + 2 * k)
    decreases k
  {
    if k > 0 {
      var next := Step(cfg, st, CallSucceeds);
      assert Successes(k)[1..] == Successes(k - 1);
      if st.successes + 1 == cfg.halfOpenLimit {
        assert k == 1;
        assert Successes(0) == [];
      } else {
        ProbeSuccesses(cfg, next, k - 1);
      }
    }
  }

  /** After recovery, halfOpenLimit successes in a row close the breaker (when the limit is positive). */
  lemma RecoveryThenLimitSuccessesCloses(cfg: Config, st: State)
    requires st.status == Open && cfg.halfOpenLimit > 0
    ensures Run(cfg, Step(cfg, st, RecoveryFires), Successes(cfg.halfOpenLimit))
            == State(Closed, 0, cfg.halfOpenLimit, 2 * cfg.halfOpenLimit)
  {
    ProbeSuccesses(cfg, State(HalfOpen, 0, 0, 0), cfg.halfOpenLimit);
  }
}
