/** How many wrong passwords all replicas together can have evaluated for one identity
    while Redis answers every call (app/security/throttle.py). Each login is atomic. */
module FleetRuns {
  import opened Throttle
  import opened Windows
  import opened Wrappers
  import opened LoginRuns

  /** One login handled by some replica at one moment. */
  datatype Request = Request(replica: nat, key: string, at: real, outcome: Outcome)

  /** The shared Redis server and each replica's own entries. */
  datatype Fleet = Fleet(server: Server, replicas: map<nat, Entries>)

  const FRESH: Fleet := Fleet(Server(map[], map[]), map[])

  function EntriesOf(f: Fleet, replica: nat): Entries {
    if replica in f.replicas then f.replicas[replica] else map[]
  }

  /** The login as its replica sees it, with Redis telling the truth about the lock. */
  function AsLogin(f: Fleet, r: Request): Login {
    Login(r.key, Answer(LockExists(f.server, r.key, r.at)), r.at, r.at, r.at, r.outcome)
  }

  predicate Evaluated(f: Fleet, r: Request) {
    Admitted(EntriesOf(f, r.replica), AsLogin(f, r))
  }

  function FleetStep(cfg: Config, f: Fleet, r: Request): Fleet {
    var replicas := f.replicas[r.replica := Step(cfg, EntriesOf(f, r.replica), AsLogin(f, r))];
    if !Evaluated(f, r) then Fleet(f.server, replicas)
    else match r.outcome
      case Wrong => Fleet(ServerFailure(f.server, r.key, r.at, cfg.maxAttempts, cfg.lockout), replicas)
      case Inactive => Fleet(f.server, replicas)
      case Correct => Fleet(Execute(f.server, r.at, Delete(r.key)), replicas)
  }

  function FleetState(cfg: Config, run: seq<Request>): Fleet {
    if run == [] then FRESH else FleetStep(cfg, FleetState(cfg, run[..|run| - 1]), run[|run| - 1])
  }

  predicate WrongHere(cfg: Config, run: seq<Request>, key: string)
    requires run != []
  {
    var r := run[|run| - 1];
    r.key == key && r.outcome == Wrong && Evaluated(FleetState(cfg, run[..|run| - 1]), r)
  }

  /** The times at which any replica compared a wrong password for an identity. */
  function FleetWrongTimes(cfg: Config, run: seq<Request>, key: string): seq<real> {
    if run == [] then []
    else
      var before := FleetWrongTimes(cfg, run[..|run| - 1], key);
      if WrongHere(cfg, run, key) then before + [run[|run| - 1].at] else before
  }

  ghost predicate Ordered(run: seq<Request>) {
    forall i, j | 0 <= i < j < |run| :: run[i].at <= run[j].at
  }

  ghost predicate NoFleetSuccess(cfg: Config, run: seq<Request>, key: string) {
    forall i | 0 <= i < |run| && run[i].key == key && run[i].outcome == Correct ::
      !Evaluated(FleetState(cfg, run[..i]), run[i])
  }

  /** `starts[i]` is when the counter window of the i-th failure began. A window holds at
      most `attempts` failures, and the next one begins a lockout after it began, and
      after all its failures. */
  ghost predicate WellSpaced(cfg: Config, ts: seq<real>, starts: seq<real>) {
    var k := Attempts(cfg);
    && Sorted(ts) && |starts| == |ts|
    && (forall i | 0 <= i < |ts| :: starts[i] <= ts[i])
    && Spaced(starts, k, cfg.lockout)
    && (forall i, j | 0 <= i < j < |ts| && j - i == k :: starts[j] >= ts[i])
  }

  /** What a live counter says about the history: it counts the failures of the latest
      window and expires a lockout after its start, and a full counter comes with a lock. */
  ghost predicate ServerTracks(cfg: Config, s: Server, key: string, ts: seq<real>, starts: seq<real>) {
    var k, n := Attempts(cfg), |ts|;
    && |starts| == n && (n == 0 <==> key !in s.counters)
    && (n > 0 ==>
      var c, start := s.counters[key], starts[n - 1];
      && c.expires == Some(start + cfg.lockout)
      && 0 < c.count <= n && c.count <= k
      && (forall i | 0 <= i < n :: starts[i] <= start)
      && (forall i | 0 <= i < n - c.count :: starts[i] + cfg.lockout <= start && ts[i] <= start)
      && (c.count == k ==> key in s.locks && s.locks[key] >= ts[n - 1] + cfg.lockout))
  }

  /** When the window of a failure recorded now began. */
  function WindowStart(s: Server, key: string, starts: seq<real>, at: real): real {
    if CounterAlive(s, key, at) && starts != [] then starts[|starts| - 1] else at
  }

  /** A live counter is not full when a login gets past the lock. */
  lemma CounterHasRoom(cfg: Config, s: Server, key: string, ts: seq<real>, starts: seq<real>, at: real)
    requires cfg.lockout > 0.0 && WellSpaced(cfg, ts, starts) && ServerTracks(cfg, s, key, ts, starts)
    requires ts != [] && !LockExists(s, key, at) && CounterAlive(s, key, at)
    ensures s.counters[key].count < Attempts(cfg)
  {
  }

  lemma ExtendedSpaced(cfg: Config, s: Server, key: string, ts: seq<real>, starts: seq<real>, at: real)
    requires cfg.lockout > 0.0 && WellSpaced(cfg, ts, starts) && ServerTracks(cfg, s, key, ts, starts)
    requires (ts != [] ==> ts[|ts| - 1] <= at) && !LockExists(s, key, at)
    ensures WellSpaced(cfg, ts + [at], starts + [WindowStart(s, key, starts, at)])
  {
    var k, n, start := Attempts(cfg), |ts|, WindowStart(s, key, starts, at);
    if n > 0 {
      if CounterAlive(s, key, at) {
        CounterHasRoom(cfg, s, key, ts, starts, at);
      }
      assert start <= at;
      forall i | 0 <= i <= n - k ensures start - starts[i] >= cfg.lockout && start >= ts[i] {
      }
    }
  }

  lemma ExtendedTracks(cfg: Config, s: Server, key: string, ts: seq<real>, starts: seq<real>, at: real)
    requires cfg.lockout > 0.0 && WellSpaced(cfg, ts, starts) && ServerTracks(cfg, s, key, ts, starts)
    requires (ts != [] ==> ts[|ts| - 1] <= at) && !LockExists(s, key, at)
    ensures ServerTracks(cfg, ServerFailure(s, key, at, cfg.maxAttempts, cfg.lockout), key,
                         ts + [at], starts + [WindowStart(s, key, starts, at)])
  {
    ServerFailureEffect(s, key, at, cfg.maxAttempts, cfg.lockout);
    if ts != [] && CounterAlive(s, key, at) {
      CounterHasRoom(cfg, s, key, ts, starts, at);
    }
  }

  lemma OtherKey(cfg: Config, s: Server, key: string, at: real, other: string)
    requires key != other
    ensures var s' := ServerFailure(s, key, at, cfg.maxAttempts, cfg.lockout);
      && (other in s'.counters <==> other in s.counters)
      && (other in s.counters ==> s'.counters[other] == s.counters[other])
      && (other in s'.locks <==> other in s.locks) && (other in s.locks ==> s'.locks[other] == s.locks[other])
  {
    ServerFailureEffect(s, key, at, cfg.maxAttempts, cfg.lockout);
  }

  /** The window starts of a run's failures. */
  ghost function StartsOf(cfg: Config, run: seq<Request>, key: string): seq<real> {
    if run == [] then []
    else
      var before := StartsOf(cfg, run[..|run| - 1], key);
      if WrongHere(cfg, run, key)
      then before + [WindowStart(FleetState(cfg, run[..|run| - 1]).server, key, before, run[|run| - 1].at)] else before
  }

  lemma PrefixFleetRun(cfg: Config, run: seq<Request>, key: string)
    requires run != [] && Ordered(run) && NoFleetSuccess(cfg, run, key)
    ensures Ordered(run[..|run| - 1]) && NoFleetSuccess(cfg, run[..|run| - 1], key)
    ensures var r := run[|run| - 1];
      r.key == key && r.outcome == Correct ==> !Evaluated(FleetState(cfg, run[..|run| - 1]), r)
  {
    var n := |run| - 1;
    assert forall i | 0 <= i < n :: run[..n][i] == run[i] && run[..n][..i] == run[..i];
  }

  lemma {:induction false} TimesFromRun(cfg: Config, run: seq<Request>, key: string)
    requires Ordered(run)
    ensures forall t | t in FleetWrongTimes(cfg, run, key) :: run != [] && t <= run[|run| - 1].at
  {
    if run != [] {
      var n := |run| - 1;
      assert forall i | 0 <= i < n :: run[..n][i] == run[i];
      TimesFromRun(cfg, run[..n], key);
    }
  }

  /** One login keeps the account of an identity. */
  lemma FleetStepTracks(cfg: Config, f: Fleet, r: Request, key: string, ts: seq<real>, starts: seq<real>)
    requires cfg.lockout > 0.0 && WellSpaced(cfg, ts, starts) && ServerTracks(cfg, f.server, key, ts, starts)
    requires ts != [] ==> ts[|ts| - 1] <= r.at
    requires r.key == key && r.outcome == Correct ==> !Evaluated(f, r)
    ensures if r.key == key && r.outcome == Wrong && Evaluated(f, r)
      then var starts' := starts + [WindowStart(f.server, key, starts, r.at)];
        WellSpaced(cfg, ts + [r.at], starts')
            && ServerTracks(cfg, FleetStep(cfg, f, r).server, key, ts + [r.at], starts')
      else ServerTracks(cfg, FleetStep(cfg, f, r).server, key, ts, starts)
  {
    if r.key != key {
      OtherKey(cfg, f.server, r.key, r.at, key);
    } else if r.outcome == Wrong && Evaluated(f, r) {
      ExtendedSpaced(cfg, f.server, key, ts, starts, r.at);
      ExtendedTracks(cfg, f.server, key, ts, starts, r.at);
    }
  }

  lemma {:induction false} FleetTracks(cfg: Config, run: seq<Request>, key: string)
    requires cfg.lockout > 0.0 && Ordered(run) && NoFleetSuccess(cfg, run, key)
    ensures WellSpaced(cfg, FleetWrongTimes(cfg, run, key), StartsOf(cfg, run, key))
    ensures ServerTracks(cfg, FleetState(cfg, run).server, key, FleetWrongTimes(cfg, run, key), StartsOf(cfg, run, key))
  {
    if run != [] {
      var init, r := run[..|run| - 1], run[|run| - 1];
      var ts := FleetWrongTimes(cfg, init, key);
      PrefixFleetRun(cfg, run, key);
      FleetTracks(cfg, init, key);
      assert ts != [] ==> ts[|ts| - 1] <= r.at by {
        TimesFromRun(cfg, init, key);
        if ts != [] { assert ts[|ts| - 1] in ts; }
      }
      FleetStepTracks(cfg, FleetState(cfg, init), r, key, ts, StartsOf(cfg, init, key));
    }
  }

  lemma EventsApart(cfg: Config, ts: seq<real>, starts: seq<real>, i: nat, j: nat, k: nat, n: nat)
    requires WellSpaced(cfg, ts, starts) && k == Attempts(cfg) && i + k + k * n == j < |ts|
    ensures ts[j] - ts[i] >= cfg.lockout * n as real
  {
    var next := i + k;
    SpacingAdds(starts, k, cfg.lockout, next, n);
    NotNegative(k, n);
    assert next - i == k && next <= j;
    assert starts[next] >= ts[i];
    assert starts[j] <= ts[j];
  }

  lemma NotNegative(k: nat, n: nat)
    ensures k * n >= 0
  {
  }

  lemma SpacedHistoryBound(cfg: Config, ts: seq<real>, starts: seq<real>, k: nat, lo: real, hi: real)
    requires cfg.lockout > 0.0 && WellSpaced(cfg, ts, starts) && k == Attempts(cfg) && lo <= hi
    ensures CountIn(ts, lo, hi) <= k * (Whole(hi - lo, cfg.lockout) + 1 + 1)
  {
    WholeExceeded(hi - lo, cfg.lockout);
    var n := Whole(hi - lo, cfg.lockout) + 1;
    var m := k + k * n;
    forall i, j | 0 <= i <= j < |ts| && j - i == m ensures ts[j] - ts[i] > hi - lo {
      EventsApart(cfg, ts, starts, i, j, k, n);
    }
    NotNegative(k, n);
    WindowBound(ts, m, lo, hi);
    OneMore(k, n);
  }

  lemma OneMore(k: nat, n: int)
    ensures k * (n + 1) == k + k * n
  {
  }

  /** With Redis up and any number of replicas, at most
      `attempts * (whole lockouts in the window + 2)` wrong passwords are compared for an
      identity in any time window, as long as none of its logins succeeds. */
  lemma FleetBound(cfg: Config, run: seq<Request>, key: string, lo: real, hi: real)
    requires cfg.lockout > 0.0 && Ordered(run) && NoFleetSuccess(cfg, run, key) && lo <= hi
    ensures CountIn(FleetWrongTimes(cfg, run, key), lo, hi) <= Attempts(cfg) * (Whole(hi - lo, cfg.lockout) + 2)
  {
    FleetTracks(cfg, run, key);
    SpacedHistoryBound(cfg, FleetWrongTimes(cfg, run, key), StartsOf(cfg, run, key), Attempts(cfg), lo, hi);
  }

  /** The wrong passwords all replicas compared for an identity since its last success. */
  function FleetWrongSinceSuccess(cfg: Config, run: seq<Request>, key: string): nat {
    if run == [] then 0
    else
      var r, init := run[|run| - 1], run[..|run| - 1];
      var before := FleetWrongSinceSuccess(cfg, init, key);
      if r.key != key || !Evaluated(FleetState(cfg, init), r) then before
      else match r.outcome case Wrong => before + 1 case Inactive => before case Correct => 0
  }

  /** When the last of all the wrong passwords for an identity was compared. */
  function LastFleetWrong(cfg: Config, run: seq<Request>, key: string): real {
    if run == [] then 0.0
    else if WrongHere(cfg, run, key) then run[|run| - 1].at
    else LastFleetWrong(cfg, run[..|run| - 1], key)
  }

  /** What the shared counter and lock of an identity owe to `strikes` wrong passwords, the
      last of them at `last`. */
  ghost predicate ServerEarned(cfg: Config, s: Server, key: string, strikes: nat, last: real) {
    && (key in s.counters ==> 0 < s.counters[key].count <= strikes)
    && (key in s.locks ==> strikes >= Attempts(cfg) && s.locks[key] <= last + cfg.lockout)
  }

  lemma StrikeEarned(cfg: Config, s: Server, key: string, strikes: nat, last: real, at: real)
    requires ServerEarned(cfg, s, key, strikes, last) && (strikes == 0 || last <= at)
    ensures ServerEarned(cfg, ServerFailure(s, key, at, cfg.maxAttempts, cfg.lockout), key, strikes + 1, at)
  {
    ServerFailureEffect(s, key, at, cfg.maxAttempts, cfg.lockout);
  }

  lemma FleetStepEarned(cfg: Config, f: Fleet, r: Request, key: string, strikes: nat, last: real)
    requires ServerEarned(cfg, f.server, key, strikes, last) && (strikes == 0 || last <= r.at)
    ensures var s := FleetStep(cfg, f, r).server;
      if r.key != key || !Evaluated(f, r) || r.outcome == Inactive then ServerEarned(cfg, s, key, strikes, last)
      else if r.outcome == Wrong then ServerEarned(cfg, s, key, strikes + 1, r.at)
      else ServerEarned(cfg, s, key, 0, last)
  {
    if r.key != key {
      OtherKey(cfg, f.server, r.key, r.at, key);
    } else if Evaluated(f, r) && r.outcome == Wrong {
      StrikeEarned(cfg, f.server, key, strikes, last, r.at);
    }
  }

  /** The shared lock is earned too: it needs the threshold of wrong passwords since the last
      success, at whichever replicas, and ends a lockout after the last one at the latest. */
  lemma {:induction false} FleetLockIsEarned(cfg: Config, run: seq<Request>, key: string)
    requires Ordered(run)
    ensures ServerEarned(cfg, FleetState(cfg, run).server, key, FleetWrongSinceSuccess(cfg, run, key),
                         LastFleetWrong(cfg, run, key))
  {
    if run != [] {
      var n := |run| - 1;
      var init, r := run[..n], run[n];
      assert forall i | 0 <= i < n :: init[i] == run[i];
      FleetLockIsEarned(cfg, init, key);
      LastFleetWrongBefore(cfg, init, key);
      FleetStepEarned(cfg, FleetState(cfg, init), r, key, FleetWrongSinceSuccess(cfg, init, key),
        LastFleetWrong(cfg, init, key));
    }
  }

  lemma {:induction false} LastFleetWrongBefore(cfg: Config, run: seq<Request>, key: string)
    requires Ordered(run)
    ensures FleetWrongSinceSuccess(cfg, run, key) > 0 ==>
      run != [] && LastFleetWrong(cfg, run, key) <= run[|run| - 1].at
  {
    if run != [] {
      var n := |run| - 1;
      assert forall i | 0 <= i < n :: run[..n][i] == run[i];
      LastFleetWrongBefore(cfg, run[..n], key);
    }
  }
}
