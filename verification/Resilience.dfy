/** The circuit breaker and the retry helper (app/core/resilience.py), and the requests
    they let through during an outage (app/collectors/http.py). */
module Resilience {
  import opened Windows

  // ----------------------------------------------------------------- the breaker

  datatype CircuitState = Closed | Open | HalfOpen

  datatype Breaker = Breaker(state: CircuitState, failures: nat, openedAt: real, probeInFlight: bool)

  datatype Config = Config(threshold: int, recovery: real)

  const INITIAL: Breaker := Breaker(Closed, 0, 0.0, false)

  predicate Attempts(cfg: Config, b: Breaker, now: real) {
    match b.state
    case Closed => true
    case Open => now - b.openedAt >= cfg.recovery
    case HalfOpen => !b.probeInFlight
  }

  function AfterAttempt(cfg: Config, b: Breaker, now: real): Breaker {
    if !Attempts(cfg, b, now) || b.state == Closed then b
    else b.(state := HalfOpen, probeInFlight := true)
  }

  function AfterSuccess(b: Breaker): Breaker {
    Breaker(Closed, 0, b.openedAt, false)
  }

  function AfterFailure(cfg: Config, b: Breaker, now: real): Breaker {
    var n := b.failures + 1;
    if b.state == HalfOpen || n >= cfg.threshold then Breaker(Open, n, now, false)
    else Breaker(b.state, n, b.openedAt, false)
  }

  class CircuitBreaker {
    const failureThreshold: int
    const recoveryTimeout: real
    var state: CircuitState
    var failures: nat
    var openedAt: real
    var probeInFlight: bool

    function View(): Breaker
      reads this
    {
      Breaker(state, failures, openedAt, probeInFlight)
    }

    function Settings(): Config {
      Config(failureThreshold, recoveryTimeout)
    }

    constructor (failureThreshold: int, recoveryTimeout: real)
      ensures View() == INITIAL && Settings() == Config(failureThreshold, recoveryTimeout)
    {
      this.failureThreshold := failureThreshold;
      this.recoveryTimeout := recoveryTimeout;
      state, failures, openedAt, probeInFlight := Closed, 0, 0.0, false;
    }

    /** The first locked section of a call. */
    method CanAttempt(now: real) returns (ok: bool)
      modifies this
      ensures ok == Attempts(Settings(), old(View()), now)
      ensures View() == AfterAttempt(Settings(), old(View()), now)
    {
      if state == Closed {
        return true;
      }
      if state == Open {
        if now - openedAt >= recoveryTimeout {
          state := HalfOpen;
          probeInFlight := true;
          return true;
        }
        return false;
      }
      if probeInFlight {
        return false;
      }
      probeInFlight := true;
      return true;
    }

    method RecordSuccess()
      modifies this
      ensures View() == AfterSuccess(old(View()))
    {
      failures := 0;
      state := Closed;
      probeInFlight := false;
    }

    method RecordFailure(now: real)
      modifies this
      ensures View() == AfterFailure(Settings(), old(View()), now)
    {
      failures := failures + 1;
      probeInFlight := false;
      if state == HalfOpen || failures >= failureThreshold {
        state := Open;
        openedAt := now;
      }
    }
  }

  // -------------------------------------------------------------------- the runs

  /** How one request of a call ends: with a value, with an error that is retried, or
      with one that is not. */
  datatype Outcome = Done(value: int) | Transient(error: int) | Fatal(error: int)

  /** The lock is not held across a call, so the beginnings and endings of any number of
      calls interleave. An abandoned call records nothing. */
  datatype Event =
    | Begin(at: real, requests: nat -> Outcome)
    | Success(at: real)
    | Failure(at: real)
    | Abandoned(at: real)

  function Step(cfg: Config, b: Breaker, e: Event): Breaker {
    match e
    case Begin(now, _) => AfterAttempt(cfg, b, now)
    case Success(_) => AfterSuccess(b)
    case Failure(now) => AfterFailure(cfg, b, now)
    case Abandoned(_) => b
  }

  function After(cfg: Config, b: Breaker, run: seq<Event>): Breaker {
    if run == [] then b else Step(cfg, After(cfg, b, run[..|run| - 1]), run[|run| - 1])
  }

  predicate Admits(cfg: Config, b: Breaker, e: Event) {
    e.Begin? && Attempts(cfg, b, e.at)
  }

  ghost predicate InOrder(run: seq<Event>) {
    forall i, j | 0 <= i < j < |run| :: run[i].at <= run[j].at
  }

  /** The failures recorded since the last recorded success. */
  function RecentFailures(run: seq<Event>): nat {
    if run == [] then 0
    else
      var before := RecentFailures(run[..|run| - 1]);
      match run[|run| - 1]
      case Success(_) => 0
      case Failure(_) => before + 1
      case _ => before
  }

  /** A threshold below one opens on the first failure. */
  function Threshold(cfg: Config): nat {
    if cfg.threshold < 1 then 1 else cfg.threshold
  }

  /** In every interleaving: the counter is the number of failures since the last success,
      the circuit is closed exactly while that number is below the threshold, and it is
      half open exactly while a probe is in flight, so that nothing more is admitted. */
  lemma {:induction false} BreakerInvariant(cfg: Config, run: seq<Event>)
    ensures var b := After(cfg, INITIAL, run);
      && b.failures == RecentFailures(run)
      && (b.state == Closed <==> RecentFailures(run) < Threshold(cfg))
      && (b.state == HalfOpen <==> b.probeInFlight)
      && (b.state == HalfOpen ==> forall now :: !Attempts(cfg, b, now))
  {
    if run != [] {
      BreakerInvariant(cfg, run[..|run| - 1]);
    }
  }

  /** The time of the last failure recorded in a run. */
  function LastFailure(run: seq<Event>): real {
    if run == [] then 0.0
    else match run[|run| - 1]
      case Failure(now) => now
      case _ => LastFailure(run[..|run| - 1])
  }

  /** Whether a call begun since the last recorded result was due as a probe: enough failures
      in a row before it, and the recovery time over. */
  predicate Probed(cfg: Config, run: seq<Event>) {
    if run == [] then false
    else
      var init := run[..|run| - 1];
      match run[|run| - 1]
      case Begin(now, _) =>
        Probed(cfg, init) || (RecentFailures(init) >= Threshold(cfg) && now - LastFailure(init) >= cfg.recovery)
      case Abandoned(_) => Probed(cfg, init)
      case _ => false
  }

  /** In every interleaving, told from the events alone, a call is admitted exactly when
      fewer failures than the threshold were recorded since the last success, or when the
      recovery time is over since the last one and no probe has begun. */
  lemma {:induction false} AdmittedIff(cfg: Config, run: seq<Event>, now: real)
    ensures Attempts(cfg, After(cfg, INITIAL, run), now)
       <==> RecentFailures(run) < Threshold(cfg) || (!Probed(cfg, run) && now - LastFailure(run) >= cfg.recovery)
  {
    BreakerInvariant(cfg, run);
    OpenSince(cfg, run);
  }

  lemma {:induction false} OpenSince(cfg: Config, run: seq<Event>)
    ensures var b := After(cfg, INITIAL, run);
      && (b.state == Open ==> b.openedAt == LastFailure(run))
      && (b.state != Closed ==> (Probed(cfg, run) <==> b.state == HalfOpen))
      && (b.state == Closed ==> !Probed(cfg, run))
  {
    if run != [] {
      BreakerInvariant(cfg, run[..|run| - 1]);
      OpenSince(cfg, run[..|run| - 1]);
    }
  }

  /** So an open circuit admits a call as soon as the recovery time is over since the last failure. */
  lemma {:induction false} OpenAdmitsIff(cfg: Config, run: seq<Event>, now: real)
    requires After(cfg, INITIAL, run).state == Open
    ensures Attempts(cfg, After(cfg, INITIAL, run), now) <==> now - LastFailure(run) >= cfg.recovery
  {
    OpenSince(cfg, run);
  }

  // ------------------------------------------------------------------ the outage

  ghost predicate NoSuccess(run: seq<Event>) {
    forall i | 0 <= i < |run| :: !run[i].Success?
  }

  /** The times of the calls admitted in a run that starts from a given state. */
  function Admissions(cfg: Config, b: Breaker, run: seq<Event>): seq<real> {
    if run == [] then []
    else
      var n := |run| - 1;
      var before := Admissions(cfg, b, run[..n]);
      if Admits(cfg, After(cfg, b, run[..n]), run[n]) then before + [run[n].at] else before
  }

  /** While nothing succeeds the circuit stays away from closed, and it can only be open
      for a new probe after the last one was recorded as failed. */
  lemma {:induction false} OutageSpacing(cfg: Config, b: Breaker, run: seq<Event>)
    requires b.state == Open && b.failures >= Threshold(cfg) && !b.probeInFlight
    requires InOrder(run) && NoSuccess(run)
    ensures var ts, b' := Admissions(cfg, b, run), After(cfg, b, run);
      && b'.state != Closed && b'.failures >= Threshold(cfg) && (b'.state == HalfOpen <==> b'.probeInFlight)
      && Sorted(ts) && Spaced(ts, 1, cfg.recovery)
      && (ts != [] ==> run != [] && ts[|ts| - 1] <= run[|run| - 1].at)
      && (ts != [] && b'.state == Open ==> ts[|ts| - 1] <= b'.openedAt)
  {
    if run != [] {
      var n := |run| - 1;
      assert forall i | 0 <= i < n :: run[..n][i] == run[i];
      OutageSpacing(cfg, b, run[..n]);
      var ts, mid, e := Admissions(cfg, b, run[..n]), After(cfg, b, run[..n]), run[n];
      if Admits(cfg, mid, e) {
        assert mid.state == Open;
        SpacedExtends(ts, e.at, cfg.recovery, mid.openedAt);
      }
    }
  }

  lemma SpacedExtends(ts: seq<real>, at: real, gap: real, since: real)
    requires Sorted(ts) && Spaced(ts, 1, gap) && at - since >= gap
    requires ts != [] ==> ts[|ts| - 1] <= since && ts[|ts| - 1] <= at
    ensures Sorted(ts + [at]) && Spaced(ts + [at], 1, gap)
  {
  }

  /** Once open and until the next recorded success, admissions are at least the
      recovery time apart, even with late results from earlier calls. */
  lemma {:induction false} OutageBound(cfg: Config, before: seq<Event>, run: seq<Event>, lo: real, hi: real)
    requires cfg.recovery > 0.0 && lo <= hi
    requires After(cfg, INITIAL, before).state == Open && InOrder(run) && NoSuccess(run)
    ensures var ts := Admissions(cfg, After(cfg, INITIAL, before), run);
      Spaced(ts, 1, cfg.recovery) && CountIn(ts, lo, hi) <= Whole(hi - lo, cfg.recovery) + 1
  {
    var b := After(cfg, INITIAL, before);
    BreakerInvariant(cfg, before);
    OutageSpacing(cfg, b, run);
    SpacedBound(Admissions(cfg, b, run), 1, cfg.recovery, lo, hi);
  }

  // ------------------------------------------------------------------- the retry

  datatype Result = Returned(value: int) | Raised(error: int) | NoAttempt

  /** The first attempt from the i-th on that is not retried, or `n`. */
  function FirstDecisive(f: nat -> Outcome, i: nat, n: nat): (k: nat)
    requires i <= n
    ensures i <= k <= n
    ensures forall j | i <= j < k :: f(j).Transient?
    ensures k < n ==> !f(k).Transient?
    decreases n - i
  {
    if i == n || !f(i).Transient? then i else FirstDecisive(f, i + 1, n)
  }

  function Limit(attempts: int): nat {
    if attempts < 0 then 0 else attempts
  }

  /** How many requests one call sends. */
  function Tries(attempts: int, f: nat -> Outcome): nat {
    var k := FirstDecisive(f, 0, Limit(attempts));
    if k < Limit(attempts) then k + 1 else k
  }

  function Doubled(base: real, k: nat): real {
    if k == 0 then base else Doubled(base, k - 1) * 2.0
  }

  /** The wait after the k-th failed attempt: doubled each time, up to a maximum. */
  function Delay(base: real, max: real, k: nat): real {
    if Doubled(base, k) < max then Doubled(base, k) else max
  }

  method AsyncRetry(attempts: int, baseDelay: real, maxDelay: real, f: nat -> Outcome)
    returns (r: Result, calls: nat, sleeps: seq<real>)
    ensures calls == Tries(attempts, f) && calls <= Limit(attempts)
    ensures var k := FirstDecisive(f, 0, Limit(attempts));
      if k < Limit(attempts) then r == (if f(k).Done? then Returned(f(k).value) else Raised(f(k).error))
      else if attempts >= 1 then r == Raised(f(attempts - 1).error)
      else r == NoAttempt
    ensures |sleeps| == if calls == 0 then 0 else calls - 1
    ensures forall i | 0 <= i < |sleeps| :: sleeps[i] == Delay(baseDelay, maxDelay, i)
    ensures |sleeps| > 0 ==> sleeps[0] == if baseDelay < maxDelay then baseDelay else maxDelay
    ensures forall i | 0 < i < |sleeps| && sleeps[i - 1] < maxDelay ::
      sleeps[i] == if 2.0 * sleeps[i - 1] < maxDelay then 2.0 * sleeps[i - 1] else maxDelay
  {
    var delay := baseDelay;
    var lastError := NoAttempt;
    sleeps := [];
    calls := 0;
    var attempt := 1;
    while attempt <= attempts
      invariant 1 <= attempt && calls == attempt - 1 <= Limit(attempts)
      invariant FirstDecisive(f, 0, Limit(attempts)) == FirstDecisive(f, calls, Limit(attempts))
      invariant delay == Doubled(baseDelay, calls)
      invariant calls == 0 ==> lastError == NoAttempt
      invariant |sleeps| == calls && (calls == Limit(attempts) ==> calls == 0)
      invariant forall i | 0 <= i < |sleeps| :: sleeps[i] == Delay(baseDelay, maxDelay, i)
    {
      var outcome := f(calls);
      calls := calls + 1;
      match outcome {
        case Done(v) =>
          return Returned(v), calls, sleeps;
        case Fatal(e) =>
          return Raised(e), calls, sleeps;
        case Transient(e) =>
          lastError := Raised(e);
          if attempt == attempts {
            return lastError, calls, sleeps;
          }
          sleeps := sleeps + [if delay < maxDelay then delay else maxDelay];
          delay := delay * 2.0;
      }
      attempt := attempt + 1;
    }
    return lastError, calls, sleeps;
  }

  // ------------------------------------------------- requests during an outage

  /** The requests sent by the calls admitted in a window. */
  function RequestsIn(cfg: Config, attempts: int, b: Breaker, run: seq<Event>, lo: real, hi: real): nat {
    if run == [] then 0
    else
      var n := |run| - 1;
      RequestsIn(cfg, attempts, b, run[..n], lo, hi)
        + if Admits(cfg, After(cfg, b, run[..n]), run[n]) && lo <= run[n].at <= hi
          then Tries(attempts, run[n].requests) else 0
  }

  lemma {:induction false} RequestsPerCall(cfg: Config, attempts: int, b: Breaker, run: seq<Event>, lo: real, hi: real)
    ensures RequestsIn(cfg, attempts, b, run, lo, hi) <= Limit(attempts) * CountIn(Admissions(cfg, b, run), lo, hi)
  {
    if run != [] {
      var n := |run| - 1;
      RequestsPerCall(cfg, attempts, b, run[..n], lo, hi);
      var ts := Admissions(cfg, b, run[..n]);
      if Admits(cfg, After(cfg, b, run[..n]), run[n]) {
        assert (ts + [run[n].at])[..|ts|] == ts;
        var c := CountIn(ts, lo, hi);
        assert Limit(attempts) * (c + 1) == Limit(attempts) * c + Limit(attempts);
      }
    }
  }

  /** With a retry of `attempts` inside each call, the calls admitted during an outage
      send at most `attempts * (whole recovery times in the window + 1)` requests. */
  lemma {:induction false} OutageRequests(cfg: Config, attempts: int, before: seq<Event>, run: seq<Event>, lo: real,
          hi: real)
    requires cfg.recovery > 0.0 && lo <= hi
    requires After(cfg, INITIAL, before).state == Open && InOrder(run) && NoSuccess(run)
    ensures RequestsIn(cfg, attempts, After(cfg, INITIAL, before), run, lo, hi)
         <= Limit(attempts) * (Whole(hi - lo, cfg.recovery) + 1)
  {
    var b := After(cfg, INITIAL, before);
    OutageBound(cfg, before, run, lo, hi);
    RequestsPerCall(cfg, attempts, b, run, lo, hi);
    Times(Limit(attempts), CountIn(Admissions(cfg, b, run), lo, hi), Whole(hi - lo, cfg.recovery) + 1);
  }

  lemma Times(k: nat, x: int, y: int)
    requires x <= y
    ensures k * x <= k * y
  {
  }

  /** A provider client makes at most three attempts a call; its breaker has the default
      threshold of five failures and recovery time of thirty seconds. */
  lemma {:induction false} ProviderOutage(before: seq<Event>, run: seq<Event>, lo: real, hi: real)
    requires lo <= hi && InOrder(run) && NoSuccess(run)
    requires RecentFailures(before) >= 5 && !Probed(Config(5, 30.0), before)
    ensures RequestsIn(Config(5, 30.0), 3, After(Config(5, 30.0), INITIAL, before), run, lo, hi)
         <= 3 * (((hi - lo) / 30.0).Floor + 1)
  {
    BreakerInvariant(Config(5, 30.0), before);
    OpenSince(Config(5, 30.0), before);
    OutageRequests(Config(5, 30.0), 3, before, run, lo, hi);
  }
}
