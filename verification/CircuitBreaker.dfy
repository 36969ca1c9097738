/** The circuit breaker of the provider calls, over whole runs with a clock. Times are in nanoseconds. */
module CircuitBreaker {
  import opened Wrappers

  const U64: nat := 0x1_0000_0000_0000_0000
  const MAX_RECOVERY_TIMEOUT: nat := 300_000_000_000

  datatype CircuitState = Closed | Open | HalfOpen

  datatype Config = Config(failureThreshold: nat, baseRecoveryTimeout: nat)

  /** The fields of a breaker as a value. */
  datatype Fields = Fields(state: CircuitState, failures: nat, openedAt: Option<nat>, timeout: nat)

  datatype Event = CanExecute | Success | Failure

  function Initial(c: Config): Fields {
    Fields(Closed, 0, None, c.baseRecoveryTimeout)
  }

  function Min(a: nat, b: nat): nat { if a <= b then a else b }

  /** The time since `at`, 0 if that is not yet over. */
  function Since(at: nat, now: nat): nat {
    if now >= at then now - at else 0
  }

  predicate Elapsed(f: Fields, now: nat) {
    f.openedAt.None? || Since(f.openedAt.value, now) >= f.timeout
  }

  /** Whether a request is let through. */
  predicate Admits(f: Fields, now: nat) {
    !f.state.Open? || Elapsed(f, now)
  }

  function After(c: Config, f: Fields, event: Event, now: nat): Fields {
    match event
    case CanExecute => if f.state.Open? && Elapsed(f, now) then f.(state := HalfOpen) else f
    case Success => Fields(Closed, 0, f.openedAt, c.baseRecoveryTimeout)
    case Failure =>
      var counted := f.(failures := (f.failures + 1) % U64);
      match f.state
      case Closed =>
        if f.failures + 1 >= c.failureThreshold then counted.(state := Open, openedAt := Some(now)) else counted
      case HalfOpen =>
        counted.(state := Open, openedAt := Some(now), timeout := Min(2 * f.timeout, MAX_RECOVERY_TIMEOUT))
      case Open => counted
  }

  /** The breaker object; the clock is an argument. */
  class Breaker {
    const config: Config
    var state: CircuitState
    var consecutiveFailures: nat
    var openedAt: Option<nat>
    var currentRecoveryTimeout: nat

    function Value(): Fields
      reads this
    {
      Fields(state, consecutiveFailures, openedAt, currentRecoveryTimeout)
    }

    constructor (config: Config)
      ensures this.config == config && Value() == Initial(config)
    {
      this.config := config;
      state, consecutiveFailures, openedAt, currentRecoveryTimeout := Closed, 0, None, config.baseRecoveryTimeout;
    }

    method CheckExecution(now: nat) returns (admitted: bool)
      modifies this
      ensures admitted == Admits(old(Value()), now)
      ensures Value() == After(config, old(Value()), CanExecute, now)
    {
      match state {
        case Closed => admitted := true;
        case Open =>
          var timeout := currentRecoveryTimeout;
          var shouldTry := match openedAt case Some(at) => Since(at, now) >= timeout case None => true;
          if shouldTry {
            state := HalfOpen;
          }
          admitted := shouldTry;
        case HalfOpen => admitted := true;
      }
    }

    method RecordSuccess(now: nat)
      modifies this
      ensures Value() == After(config, old(Value()), Success, now)
    {
      state := Closed;
      consecutiveFailures := 0;
      currentRecoveryTimeout := config.baseRecoveryTimeout;
    }

    method RecordFailure(now: nat)
      modifies this
      ensures Value() == After(config, old(Value()), Failure, now)
    {
      var failures := consecutiveFailures + 1;
      consecutiveFailures := failures % U64;
      match state {
        case Closed =>
          if failures >= config.failureThreshold {
            state, openedAt := Open, Some(now);
          }
        case HalfOpen =>
          state, openedAt := Open, Some(now);
          currentRecoveryTimeout := Min(currentRecoveryTimeout * 2, MAX_RECOVERY_TIMEOUT);
        case Open =>
      }
    }
  }

  // ---------------------------------------------------------------------
  // Runs
  // ---------------------------------------------------------------------

  datatype Call = Call(event: Event, at: nat)

  /** A run: calls with a clock that never goes back. */
  ghost predicate IsRun(run: seq<Call>) {
    forall i, j :: 0 <= i <= j < |run| ==> run[i].at <= run[j].at
  }

  /** A threshold of at least one (a `u64`), and a base timeout within the maximum. */
  ghost predicate Sensible(c: Config) {
    1 <= c.failureThreshold < U64 && c.baseRecoveryTimeout <= MAX_RECOVERY_TIMEOUT
  }

  /** The fields before call `k`. */
  ghost function Before(c: Config, run: seq<Call>, k: nat): Fields
    requires k <= |run|
  {
    if k == 0 then Initial(c) else After(c, Before(c, run, k - 1), run[k - 1].event, run[k - 1].at)
  }

  /** Failures recorded before call `k` and after the last success before it. */
  ghost function FailuresInARow(run: seq<Call>, k: nat): nat
    requires k <= |run|
  {
    if k == 0 || run[k - 1].event.Success? then 0
    else FailuresInARow(run, k - 1) + (if run[k - 1].event.Failure? then 1 else 0)
  }

  /** After `n` failures in a row. */
  ghost predicate Counts(c: Config, f: Fields, n: nat) {
    && f.failures == n % U64
    && (f.state.Closed? <==> n < c.failureThreshold)
    && (f.state.Closed? ==> f.timeout == c.baseRecoveryTimeout)
    && (!f.state.Closed? ==> f.openedAt.Some?)
  }

  lemma CountStep(c: Config, f: Fields, n: nat, event: Event, now: nat)
    requires Sensible(c) && Counts(c, f, n)
    ensures Counts(c, After(c, f, event, now), if event.Success? then 0 else if event.Failure? then n + 1 else n)
  {
    CountWraps(n);
  }

  lemma CountWraps(n: nat)
    ensures (n % U64 + 1) % U64 == (n + 1) % U64
  {
  }

  /** The circuit is closed exactly while the failures in a row are below the threshold; it has the base timeout
      then. Otherwise there was an opening. */
  lemma {:induction false} ClosedMeansFewFailures(c: Config, run: seq<Call>, k: nat)
    requires Sensible(c) && k <= |run|
    ensures Counts(c, Before(c, run, k), FailuresInARow(run, k))
  {
    if k > 0 {
      ClosedMeansFewFailures(c, run, k - 1);
      CountStep(c, Before(c, run, k - 1), FailuresInARow(run, k - 1), run[k - 1].event, run[k - 1].at);
    }
  }

  // ---------------------------------------------------------------------
  // Outages
  // ---------------------------------------------------------------------

  /** Call `j` opens the closed circuit. */
  ghost predicate Opens(c: Config, run: seq<Call>, j: nat) {
    && j < |run| && Before(c, run, j).state.Closed? && Before(c, run, j + 1).state.Open?
  }

  /** No success is recorded by the calls from `j` up to, not including, `k`. */
  ghost predicate NoSuccess(run: seq<Call>, j: nat, k: nat) {
    k <= |run| && forall i :: j <= i < k ==> !run[i].event.Success?
  }

  /** How many test requests failed in calls `j` up to, not including, `k`. */
  ghost function FailedTests(c: Config, run: seq<Call>, j: nat, k: nat): nat
    requires j <= k <= |run|
  {
    if k == j then 0
    else FailedTests(c, run, j, k - 1)
         + (if run[k - 1].event.Failure? && Before(c, run, k - 1).state.HalfOpen? then 1 else 0)
  }

  function Power(n: nat): nat {
    if n == 0 then 1 else 2 * Power(n - 1)
  }

  /** The timeout after `n` failed tests: doubled each time, up to the maximum. */
  function Backoff(base: nat, n: nat): nat {
    if n == 0 then Min(base, MAX_RECOVERY_TIMEOUT) else Min(2 * Backoff(base, n - 1), MAX_RECOVERY_TIMEOUT)
  }

  lemma {:induction false} BackoffIsCappedPower(base: nat, n: nat)
    ensures Backoff(base, n) == Min(Power(n) * base, MAX_RECOVERY_TIMEOUT)
  {
    if n == 0 {
      assert Power(0) * base == base;
    } else {
      BackoffIsCappedPower(base, n - 1);
      assert Power(n) * base == 2 * (Power(n - 1) * base);
    }
  }

  /** The first `n` timeouts together. */
  function Delay(base: nat, n: nat): nat {
    if n == 0 then 0 else Delay(base, n - 1) + Backoff(base, n - 1)
  }

  /** During an outage: the timeout is the one for the failed tests so far, the circuit opened no earlier than
      their timeouts allow, and it is half open only after the current timeout, too. */
  ghost predicate InOutage(c: Config, f: Fields, start: nat, now: nat, n: nat) {
    && !f.state.Closed? && f.timeout == Backoff(c.baseRecoveryTimeout, n)
    && f.openedAt.Some? && start + Delay(c.baseRecoveryTimeout, n) <= f.openedAt.value <= now
    && (f.state.HalfOpen? ==> start + Delay(c.baseRecoveryTimeout, n + 1) <= now)
  }

  lemma {:induction false} OutageStep(c: Config, f: Fields, start: nat, before: nat, n: nat, event: Event, now: nat)
    requires InOutage(c, f, start, before, n) && before <= now && !event.Success?
    ensures InOutage(c, After(c, f, event, now), start, now, if event.Failure? && f.state.HalfOpen? then n + 1 else n)
  {
  }

  lemma {:induction false} OutageInvariant(c: Config, run: seq<Call>, j: nat, k: nat)
    requires Sensible(c) && IsRun(run) && Opens(c, run, j) && j < k <= |run| && NoSuccess(run, j + 1, k)
    ensures InOutage(c, Before(c, run, k), run[j].at, run[k - 1].at, FailedTests(c, run, j + 1, k))
  {
    if k == j + 1 {
      ClosedMeansFewFailures(c, run, j);
    } else {
      OutageInvariant(c, run, j, k - 1);
      OutageStep(c, Before(c, run, k - 1), run[j].at, run[k - 2].at, FailedTests(c, run, j + 1, k - 1),
                 run[k - 1].event, run[k - 1].at);
    }
  }

  lemma {:induction false} OutageMeaning(c: Config, f: Fields, start: nat, before: nat, n: nat, now: nat)
    requires InOutage(c, f, start, before, n) && before <= now
    ensures Admits(f, now) ==> now >= start + Delay(c.baseRecoveryTimeout, n + 1)
    ensures f.state.HalfOpen? ==> now >= start + Delay(c.baseRecoveryTimeout, n + 1)
    ensures f.timeout == Backoff(c.baseRecoveryTimeout, n)
  {
    assert Delay(c.baseRecoveryTimeout, n + 1) == Delay(c.baseRecoveryTimeout, n) + Backoff(c.baseRecoveryTimeout, n);
  }

  /** The m-th failed test after an opening, with no success in between, comes no earlier than the first m
      timeouts together, and leaves the m-th doubling of the timeout. */
  lemma {:induction false} FailedTestsAreSpacedOut(c: Config, run: seq<Call>, j: nat, k: nat, m: nat)
    requires Sensible(c) && IsRun(run) && Opens(c, run, j) && j < k < |run| && NoSuccess(run, j + 1, k)
    requires run[k].event.Failure? && Before(c, run, k).state.HalfOpen? && m == FailedTests(c, run, j + 1, k) + 1
    ensures run[k].at >= run[j].at + Delay(c.baseRecoveryTimeout, m)
    ensures Before(c, run, k + 1).timeout == Backoff(c.baseRecoveryTimeout, m)
  {
    OutageInvariant(c, run, j, k);
    OutageMeaning(c, Before(c, run, k), run[j].at, run[k - 1].at, m - 1, run[k].at);
  }

  /** After an opening and n failed tests, with no success in between, nothing is let through before the first
      n + 1 timeouts are over. */
  lemma {:induction false} NothingAdmittedEarly(c: Config, run: seq<Call>, j: nat, k: nat)
    requires Sensible(c) && IsRun(run) && Opens(c, run, j) && j < k < |run| && NoSuccess(run, j + 1, k)
    requires Admits(Before(c, run, k), run[k].at)
    ensures run[k].at >= run[j].at + Delay(c.baseRecoveryTimeout, FailedTests(c, run, j + 1, k) + 1)
  {
    OutageInvariant(c, run, j, k);
    OutageMeaning(c, Before(c, run, k), run[j].at, run[k - 1].at, FailedTests(c, run, j + 1, k), run[k].at);
  }

  /** Call `j` takes the circuit to open, and it is still open before call `k`. */
  ghost predicate OpenSince(c: Config, run: seq<Call>, j: nat, k: nat) {
    && j < k <= |run| && !Before(c, run, j).state.Open?
    && forall i :: j < i <= k ==> Before(c, run, i).state.Open?
  }

  /** Meanwhile neither the time of the opening nor the timeout changes, whatever is recorded. */
  lemma {:induction false} OpenKeepsTime(c: Config, run: seq<Call>, j: nat, k: nat)
    requires OpenSince(c, run, j, k)
    ensures Before(c, run, k).openedAt == Some(run[j].at) && Before(c, run, k).timeout == Before(c, run, j + 1).timeout
    decreases k
  {
    if k > j + 1 {
      OpenKeepsTime(c, run, j, k - 1);
    }
    assert Before(c, run, j + 1).state.Open? && Before(c, run, k).state.Open?;
  }

  /** The exact time at which requests are let through again: in an outage that began at call `o`, after the circuit was
      opened by call `j` with n failed tests so far, and as long as it stays open, a request is let through if and only
      if the timeout for n failed tests is over, whatever failures were recorded meanwhile. */
  lemma {:induction false} AdmittedExactlyAfterTimeout(c: Config, run: seq<Call>, o: nat, j: nat, k: nat)
    requires Sensible(c) && IsRun(run) && Opens(c, run, o) && o <= j < k < |run| && NoSuccess(run, o + 1, k)
    requires OpenSince(c, run, j, k)
    ensures Admits(Before(c, run, k), run[k].at) <==>
              run[k].at >= run[j].at + Backoff(c.baseRecoveryTimeout, FailedTests(c, run, o + 1, j + 1))
  {
    OpenKeepsTime(c, run, j, k);
    OutageInvariant(c, run, o, j + 1);
  }

  /** Without a success, the circuit is still in the test period it was in after call `i` exactly if nothing but
      requests came since. */
  lemma {:induction false} SameTestIff(c: Config, run: seq<Call>, i: nat, k: nat)
    requires i < k <= |run| && Before(c, run, i + 1).state.HalfOpen? && NoSuccess(run, i + 1, k)
    ensures (Before(c, run, k).state.HalfOpen? && FailedTests(c, run, i + 1, k) == 0) <==> OnlyRequests(run, i + 1, k)
    ensures !OnlyRequests(run, i + 1, k) ==> FailedTests(c, run, i + 1, k) > 0
  {
    if k > i + 1 {
      SameTestIff(c, run, i, k - 1);
      assert OnlyRequests(run, i + 1, k) <==> OnlyRequests(run, i + 1, k - 1) && run[k - 1].event.CanExecute?;
    }
  }

  /** The calls from `j` up to, not including, `k` only ask whether they may execute. */
  ghost predicate OnlyRequests(run: seq<Call>, j: nat, k: nat) {
    k <= |run| && forall l :: j <= l < k ==> run[l].event.CanExecute?
  }

  /** Not one test request but every request is let through from the moment the circuit is half open until an
      outcome is recorded. */
  lemma HalfOpenAdmitsEveryone(c: Config, run: seq<Call>, i: nat, k: nat)
    requires i < k < |run| && Before(c, run, i + 1).state.HalfOpen? && OnlyRequests(run, i + 1, k)
    ensures Admits(Before(c, run, k), run[k].at)
  {
    SameTestIff(c, run, i, k);
  }

  /** One request is let through per test period if and only if the call after the one that began the period is
      not another request: its outcome has to be recorded first. */
  lemma OneTestRequestIff(c: Config, run: seq<Call>, i: nat)
    requires i < |run| && Before(c, run, i).state.Open? && Before(c, run, i + 1).state.HalfOpen?
    ensures (exists k :: i < k < |run| && OnlyRequests(run, i + 1, k) && run[k].event.CanExecute?
                         && Admits(Before(c, run, k), run[k].at))
            <==> i + 1 < |run| && run[i + 1].event.CanExecute?
  {
    if i + 1 < |run| && run[i + 1].event.CanExecute? {
      assert OnlyRequests(run, i + 1, i + 1);
      HalfOpenAdmitsEveryone(c, run, i, i + 1);
    }
  }

  /** Two requests tested by one recovery: the circuit opens at 0, and both requests after the timeout are let
      through. */
  lemma TwoTestRequests(base: nat)
    requires base <= MAX_RECOVERY_TIMEOUT
    ensures var c, run := Config(1, base), [Call(Failure, 0), Call(CanExecute, base), Call(CanExecute, base)];
            && Sensible(c) && IsRun(run) && Opens(c, run, 0)
            && Before(c, run, 1).state.Open? && Admits(Before(c, run, 1), base)
            && Before(c, run, 2).state.HalfOpen? && Admits(Before(c, run, 2), base)
  {
    var c, run := Config(1, base), [Call(Failure, 0), Call(CanExecute, base), Call(CanExecute, base)];
    assert Before(c, run, 0) == Initial(c);
    assert Before(c, run, 1) == Fields(Open, 1, Some(0), base);
    assert Before(c, run, 2) == Fields(HalfOpen, 1, Some(0), base);
  }
}
