/** How many wrong passwords a run of logins can have evaluated, per replica whatever
    Redis does, and over all replicas while Redis is up (app/security/throttle.py,
    `authenticate` in app/services/auth_service.py). */
module LoginRuns {
  import opened Throttle
  import opened Windows
  import opened Wrappers

  /** What comparing the password finds, if it gets that far. */
  datatype Outcome = Wrong | Inactive | Correct

  /** One login: its identity, what Redis answers to the lock query, the clock at the
      lock check, at the password comparison and at the recording, and the outcome. */
  datatype Login = Login(key: string, lockFound: Reply<bool>, checked: real, compared: real, recorded: real,
          outcome: Outcome)

  datatype Config = Config(maxAttempts: int, lockout: real)

  /** A threshold below one locks on the first failure. */
  function Attempts(cfg: Config): nat {
    if cfg.maxAttempts < 1 then 1 else cfg.maxAttempts
  }

  predicate Admitted(es: Entries, l: Login) {
    l.lockFound != Answer(true) && !Locked(es, l.key, l.checked)
  }

  /** The entries of one replica after a login: `authenticate` with the throttle's steps. */
  function Step(cfg: Config, es: Entries, l: Login): Entries {
    if l.lockFound == Answer(true) then es
    else
      var es1 := AfterCheck(es, l.key, l.checked);
      if !Admitted(es, l) then es1
      else match l.outcome
        case Wrong => AfterFailure(es1, l.key, l.recorded, cfg.maxAttempts, cfg.lockout)
        case Inactive => es1
        case Correct => es1 - {l.key}
  }

  /** The entries of a fresh replica after a run. */
  function State(cfg: Config, run: seq<Login>): Entries {
    if run == [] then map[] else Step(cfg, State(cfg, run[..|run| - 1]), run[|run| - 1])
  }

  /** The times at which wrong passwords for one identity were compared. */
  function WrongTimes(cfg: Config, run: seq<Login>, key: string): seq<real> {
    if run == [] then []
    else
      var n := |run| - 1;
      var before := WrongTimes(cfg, run[..n], key);
      if run[n].key == key && run[n].outcome == Wrong && Admitted(State(cfg, run[..n]), run[n])
      then before + [run[n].compared] else before
  }

  /** Logins for one identity follow one another; other identities may interleave freely. */
  ghost predicate Sequential(run: seq<Login>) {
    && (forall i | 0 <= i < |run| :: 0.0 <= run[i].checked <= run[i].compared <= run[i].recorded)
    && (forall i, j | 0 <= i < j < |run| && run[i].key == run[j].key :: run[i].recorded <= run[j].checked)
  }

  ghost predicate NoSuccess(cfg: Config, run: seq<Login>, key: string) {
    forall i | 0 <= i < |run| && run[i].key == key && run[i].outcome == Correct ::
        !Admitted(State(cfg, run[..i]), run[i])
  }

  /** The recording time of the last login for an identity. */
  function LastTime(run: seq<Login>, key: string): real {
    if run == [] then 0.0
    else if run[|run| - 1].key == key then run[|run| - 1].recorded
    else LastTime(run[..|run| - 1], key)
  }

  /** What the entry of an identity says about its history of wrong passwords: it counts
      the failures since the last completed group, whose end lies a lockout back. */
  ghost predicate Tracks(cfg: Config, e: Option<Entry>, ts: seq<real>, last: real) {
    var k, n := Attempts(cfg), |ts|;
    && Sorted(ts)
    && (n > 0 ==> 0.0 <= ts[n - 1] <= last)
    && Spaced(ts, k, cfg.lockout)
    && match e
       case None => n > 0 ==> last - ts[n - 1] >= cfg.lockout
       case Some(entry) =>
         var f := entry.failures;
         && 0 < f <= n && f <= k
         && (f < n ==> ts[n - f] - ts[n - f - 1] >= cfg.lockout)
         && (if f < k then entry.lockedUntil == 0.0 else entry.lockedUntil >= ts[n - 1] + cfg.lockout)
  }

  function Lookup(es: Entries, key: string): Option<Entry> {
    if key in es then Some(es[key]) else None
  }

  /** A new event keeps the spacing if the last `f` events, fewer than `k`, come a gap
      after the ones before them. */
  lemma SpacedWith(ts: seq<real>, k: nat, gap: real, f: nat, at: real)
    requires Sorted(ts) && Spaced(ts, k, gap) && f <= |ts| && f < k
    requires ts != [] ==> ts[|ts| - 1] <= at
    requires f < |ts| ==> (if f == 0 then at else ts[|ts| - f]) - ts[|ts| - f - 1] >= gap
    ensures Sorted(ts + [at]) && Spaced(ts + [at], k, gap)
  {
  }

  /** One more wrong password, after the check has let it through. */
  lemma TracksFailure(cfg: Config, es: Entries, key: string, ts: seq<real>, last: real, compared: real, recorded: real)
    requires cfg.lockout > 0.0 && 0.0 <= last <= compared <= recorded
    requires Tracks(cfg, Lookup(es, key), ts, last) && !(key in es && es[key].lockedUntil != 0.0)
    ensures Tracks(cfg, Lookup(AfterFailure(es, key, recorded, cfg.maxAttempts, cfg.lockout), key), ts + [compared],
        recorded)
  {
    SpacedWith(ts, Attempts(cfg), cfg.lockout, if key in es then es[key].failures else 0, compared);
  }

  lemma TracksCheck(cfg: Config, es: Entries, key: string, ts: seq<real>, last: real, now: real)
    requires cfg.lockout > 0.0 && 0.0 <= last <= now
    requires Tracks(cfg, Lookup(es, key), ts, last)
    ensures Tracks(cfg, Lookup(AfterCheck(es, key, now), key), ts, now)
    ensures !Locked(es, key, now) ==>
      !(key in AfterCheck(es, key, now) && AfterCheck(es, key, now)[key].lockedUntil != 0.0)
  {
  }

  lemma PrefixRun(cfg: Config, run: seq<Login>, key: string)
    requires run != [] && Sequential(run) && NoSuccess(cfg, run, key)
    ensures Sequential(run[..|run| - 1]) && NoSuccess(cfg, run[..|run| - 1], key)
    ensures var l := run[|run| - 1];
      l.key == key && l.outcome == Correct ==> !Admitted(State(cfg, run[..|run| - 1]), l)
  {
    var n := |run| - 1;
    var init := run[..n];
    assert forall i | 0 <= i < n :: init[i] == run[i] && init[..i] == run[..i];
  }

  /** The entry of an identity tracks its history in every run without a success. */
  lemma {:induction false} RunTracks(cfg: Config, run: seq<Login>, key: string)
    requires cfg.lockout > 0.0 && Sequential(run) && NoSuccess(cfg, run, key)
    ensures 0.0 <= LastTime(run, key)
    ensures Tracks(cfg, Lookup(State(cfg, run), key), WrongTimes(cfg, run, key), LastTime(run, key))
  {
    if run != [] {
      var n := |run| - 1;
      var init, l := run[..n], run[n];
      PrefixRun(cfg, run, key);
      RunTracks(cfg, init, key);
      var es := State(cfg, init);
      if l.key == key {
        LastBefore(run, key);
        TracksStep(cfg, es, l, WrongTimes(cfg, init, key), LastTime(init, key));
      } else {
        OtherIdentity(cfg, es, l, key);
      }
    }
  }

  lemma OtherIdentity(cfg: Config, es: Entries, l: Login, key: string)
    requires l.key != key
    ensures Lookup(Step(cfg, es, l), key) == Lookup(es, key)
  {
  }

  lemma LastBefore(run: seq<Login>, key: string)
    requires run != [] && Sequential(run) && run[|run| - 1].key == key
    ensures LastTime(run[..|run| - 1], key) <= run[|run| - 1].checked
  {
    LastIsSome(run[..|run| - 1], key);
  }

  lemma {:induction false} LastIsSome(run: seq<Login>, key: string)
    ensures LastTime(run, key) == 0.0 || exists i ::
        0 <= i < |run| && run[i].key == key && run[i].recorded == LastTime(run, key)
  {
    if run != [] && run[|run| - 1].key != key {
      LastIsSome(run[..|run| - 1], key);
    }
  }

  lemma TracksStep(cfg: Config, es: Entries, l: Login, ts: seq<real>, last: real)
    requires cfg.lockout > 0.0 && 0.0 <= last <= l.checked <= l.compared <= l.recorded
    requires Tracks(cfg, Lookup(es, l.key), ts, last)
    requires l.outcome == Correct ==> !Admitted(es, l)
    ensures Tracks(cfg, Lookup(Step(cfg, es, l), l.key),
                   if l.outcome == Wrong && Admitted(es, l) then ts + [l.compared] else ts, l.recorded)
  {
    if l.lockFound != Answer(true) {
      TracksCheck(cfg, es, l.key, ts, last, l.checked);
      if Admitted(es, l) && l.outcome == Wrong {
        TracksFailure(cfg, AfterCheck(es, l.key, l.checked), l.key, ts, l.checked, l.compared, l.recorded);
      }
    }
  }

  /** Whatever Redis answers and whichever of its calls fail, one replica compares at most
      `attempts * (whole lockouts in the window + 1)` wrong passwords for an identity in any
      time window, as long as none of its logins succeeds. */
  lemma ReplicaBound(cfg: Config, run: seq<Login>, key: string, lo: real, hi: real)
    requires cfg.lockout > 0.0 && Sequential(run) && NoSuccess(cfg, run, key) && lo <= hi
    ensures CountIn(WrongTimes(cfg, run, key), lo, hi) <= Attempts(cfg) * (Whole(hi - lo, cfg.lockout) + 1)
  {
    RunTracks(cfg, run, key);
    SpacedBound(WrongTimes(cfg, run, key), Attempts(cfg), cfg.lockout, lo, hi);
  }

  /** The wrong passwords compared for an identity since its last success. */
  function WrongSinceSuccess(cfg: Config, run: seq<Login>, key: string): nat {
    if run == [] then 0
    else
      var l, es := run[|run| - 1], State(cfg, run[..|run| - 1]);
      var before := WrongSinceSuccess(cfg, run[..|run| - 1], key);
      if l.key != key || !Admitted(es, l) then before
      else match l.outcome case Wrong => before + 1 case Inactive => before case Correct => 0
  }

  /** The throttle locks nobody out early, and for no longer than a lockout: in every run,
      a lock means at least the threshold of wrong passwords since the last success, and
      ends a lockout after the identity's last login at the latest. */
  lemma {:induction false} LockIsEarned(cfg: Config, run: seq<Login>, key: string)
    requires Sequential(run) && cfg.lockout > 0.0
    ensures 0.0 <= LastTime(run, key)
    ensures var es := State(cfg, run);
      key in es ==>
        && es[key].failures <= WrongSinceSuccess(cfg, run, key)
        && (es[key].lockedUntil != 0.0 ==>
              es[key].failures >= Attempts(cfg) && es[key].lockedUntil <= LastTime(run, key) + cfg.lockout)
  {
    if run != [] {
      var init, l := run[..|run| - 1], run[|run| - 1];
      assert Sequential(init) by {
        assert forall i | 0 <= i < |init| :: init[i] == run[i];
      }
      LockIsEarned(cfg, init, key);
      if l.key == key {
        LastBefore(run, key);
      } else {
        OtherIdentity(cfg, State(cfg, init), l, key);
      }
    }
  }

  /** When the last wrong password of an identity was recorded. */
  function LastWrong(cfg: Config, run: seq<Login>, key: string): real {
    if run == [] then 0.0
    else
      var l, init := run[|run| - 1], run[..|run| - 1];
      if l.key == key && l.outcome == Wrong && Admitted(State(cfg, init), l) then l.recorded
      else LastWrong(cfg, init, key)
  }

  lemma {:induction false} EntryIsEarned(cfg: Config, run: seq<Login>, key: string)
    ensures var es := State(cfg, run);
      key in es ==>
        && es[key].failures <= WrongSinceSuccess(cfg, run, key)
        && (es[key].lockedUntil != 0.0 ==>
              es[key].failures >= Attempts(cfg) && es[key].lockedUntil == LastWrong(cfg, run, key) + cfg.lockout)
  {
    if run != [] {
      var init, l := run[..|run| - 1], run[|run| - 1];
      EntryIsEarned(cfg, init, key);
      if l.key != key {
        OtherIdentity(cfg, State(cfg, init), l, key);
      }
    }
  }

  /** Nobody is refused without cause: when Redis reports no lock, a refused login follows at
      least the threshold of wrong passwords since the last success, the last of them
      recorded less than a lockout ago. */
  lemma RefusedIsEarned(cfg: Config, run: seq<Login>, l: Login)
    requires l.lockFound != Answer(true) && !Admitted(State(cfg, run), l)
    ensures WrongSinceSuccess(cfg, run, l.key) >= Attempts(cfg)
    ensures l.checked < LastWrong(cfg, run, l.key) + cfg.lockout
  {
    EntryIsEarned(cfg, run, l.key);
  }

  /** A lock that has ended is forgotten together with its failures: as many logins as a new
      identity has are let through after it. */
  lemma {:induction false} FreshAttempts(cfg: Config, run: seq<Login>, more: seq<Login>, key: string)
    requires more != [] && |more| <= Attempts(cfg)
    requires forall i | 0 <= i < |more| :: more[i].key == key && more[i].lockFound != Answer(true)
    requires key in State(cfg, run) ==>
      var e := State(cfg, run)[key]; e.lockedUntil != 0.0 && e.lockedUntil <= more[0].checked
    ensures var n := |more| - 1;
      Admitted(State(cfg, run + more[..n]), more[n])
    ensures var es := State(cfg, run + more);
      key in es ==> es[key].failures <= |more| && (es[key].lockedUntil == 0.0 || es[key].failures == Attempts(cfg))
  {
    var n := |more| - 1;
    assert (run + more)[..|run| + n] == run + more[..n] && (run + more)[|run| + n] == more[n];
    if n == 0 {
      assert run + more[..n] == run;
    } else {
      FreshAttempts(cfg, run, more[..n], key);
    }
  }
}
