/** Brute-force throttling of logins (app/security/throttle.py). Clock readings are
    parameters, and so is what Redis answers: any call to it may fail. */
module Throttle {
  import opened Wrappers
  import opened Text

  function Normalise(identity: string): string {
    Lower(Strip(identity))
  }

  datatype Entry = Entry(failures: nat, lockedUntil: real)

  type Entries = map<string, Entry>

  // ------------------------------------------------- the in-process transitions

  /** Locked now; a lock time of zero means no lock. */
  predicate Locked(es: Entries, key: string, now: real) {
    key in es && es[key].lockedUntil != 0.0 && now < es[key].lockedUntil
  }

  /** The entries after a check: an elapsed lockout is forgiven with its failures. */
  function AfterCheck(es: Entries, key: string, now: real): Entries {
    if key in es && es[key].lockedUntil != 0.0 && !(now < es[key].lockedUntil) then es - {key} else es
  }

  function AfterFailure(es: Entries, key: string, now: real, maxAttempts: int, lockout: real): Entries {
    var e := if key in es then es[key] else Entry(0, 0.0);
    var n := e.failures + 1;
    es[key := Entry(n, if n >= maxAttempts then now + lockout else e.lockedUntil)]
  }

  class InMemoryLoginThrottle {
    const maxAttempts: int
    const lockoutSeconds: real
    var entries: Entries

    constructor (maxAttempts: int, lockoutSeconds: real)
      ensures this.maxAttempts == maxAttempts && this.lockoutSeconds == lockoutSeconds && entries == map[]
    {
      this.maxAttempts := maxAttempts;
      this.lockoutSeconds := lockoutSeconds;
      entries := map[];
    }

    method IsLocked(identity: string, now: real) returns (locked: bool)
      modifies this
      ensures locked == Locked(old(entries), Normalise(identity), now)
      ensures entries == AfterCheck(old(entries), Normalise(identity), now)
    {
      var key := Normalise(identity);
      if key !in entries || entries[key].lockedUntil == 0.0 {
        return false;
      }
      if now < entries[key].lockedUntil {
        return true;
      }
      entries := entries - {key};
      return false;
    }

    method RetryAfter(identity: string, now: real) returns (seconds: int)
      ensures seconds >= 0
      ensures seconds > 0 ==> Locked(entries, Normalise(identity), now)
      ensures Locked(entries, Normalise(identity), now) ==>
        seconds as real <= entries[Normalise(identity)].lockedUntil - now < (seconds + 1) as real
    {
      var key := Normalise(identity);
      if key !in entries || entries[key].lockedUntil == 0.0 {
        return 0;
      }
      var left := entries[key].lockedUntil - now;
      seconds := if left > 0.0 then left.Floor else 0;
    }

    method RecordFailure(identity: string, now: real)
      modifies this
      ensures entries == AfterFailure(old(entries), Normalise(identity), now, maxAttempts, lockoutSeconds)
    {
      var key := Normalise(identity);
      if key !in entries {
        entries := entries[key := Entry(0, 0.0)];
      }
      entries := entries[key := entries[key].(failures := entries[key].failures + 1)];
      if entries[key].failures >= maxAttempts {
        entries := entries[key := entries[key].(lockedUntil := now + lockoutSeconds)];
      }
    }

    method RecordSuccess(identity: string)
      modifies this
      ensures entries == old(entries) - {Normalise(identity)}
    {
      entries := entries - {Normalise(identity)};
    }
  }

  // ------------------------------------------------------- the Redis-backed one

  /** The outcome of one call to Redis. */
  datatype Reply<T> = Answer(value: T) | Failed

  datatype Command =
    | Incr(key: string)
    | Expire(key: string, seconds: real)
    | SetLock(key: string, seconds: real)
    | Delete(key: string)

  /** The commands a failure sends, given what the increment answers and whether the
      expiry call succeeds; nothing is sent after a failed call. */
  function FailureCommands(key: string, incr: Reply<int>, expireOk: bool, maxAttempts: int,
          lockout: real): seq<Command> {
    match incr
    case Failed => [Incr(key)]
    case Answer(n) =>
      if n == 1 && !expireOk then [Incr(key), Expire(key, lockout)]
      else [Incr(key)] + (if n == 1 then [Expire(key, lockout)] else [])
                       + (if n >= maxAttempts then [SetLock(key, lockout)] else [])
  }

  class RedisLoginThrottle {
    const maxAttempts: int
    const lockoutSeconds: real
    const fallback: InMemoryLoginThrottle

    ghost predicate Valid() {
      fallback.maxAttempts == maxAttempts && fallback.lockoutSeconds == lockoutSeconds
    }

    constructor (maxAttempts: int, lockoutSeconds: real)
      ensures Valid() && fresh(fallback) && fallback.entries == map[]
      ensures this.maxAttempts == maxAttempts && this.lockoutSeconds == lockoutSeconds
    {
      this.maxAttempts := maxAttempts;
      this.lockoutSeconds := lockoutSeconds;
      fallback := new InMemoryLoginThrottle(maxAttempts, lockoutSeconds);
    }

    /** Locked if Redis says so; otherwise, and when Redis is unreachable, the local
        throttle decides. */
    method IsLocked(identity: string, now: real, lockFound: Reply<bool>) returns (locked: bool)
      requires Valid()
      modifies fallback
      ensures Valid()
      ensures lockFound == Answer(true) ==> locked && fallback.entries == old(fallback.entries)
      ensures lockFound != Answer(true) ==>
        && locked == Locked(old(fallback.entries), Normalise(identity), now)
        && fallback.entries == AfterCheck(old(fallback.entries), Normalise(identity), now)
    {
      if lockFound.Answer? && lockFound.value {
        return true;
      }
      locked := fallback.IsLocked(identity, now);
    }

    /** The failure is recorded locally whatever Redis does. */
    method RecordFailure(identity: string, now: real, incr: Reply<int>, expireOk: bool) returns (sent: seq<Command>)
      requires Valid()
      modifies fallback
      ensures Valid()
      ensures fallback.entries == AfterFailure(old(fallback.entries), Normalise(identity), now, maxAttempts,
          lockoutSeconds)
      ensures sent == FailureCommands(Normalise(identity), incr, expireOk, maxAttempts, lockoutSeconds)
    {
      fallback.RecordFailure(identity, now);
      var key := Normalise(identity);
      sent := [Incr(key)];
      match incr {
        case Failed =>
        case Answer(failures) =>
          if failures == 1 {
            sent := sent + [Expire(key, lockoutSeconds)];
            if !expireOk {
              return;
            }
          }
          if failures >= maxAttempts {
            sent := sent + [SetLock(key, lockoutSeconds)];
          }
      }
    }

    method RecordSuccess(identity: string) returns (sent: seq<Command>)
      requires Valid()
      modifies fallback
      ensures Valid()
      ensures fallback.entries == old(fallback.entries) - {Normalise(identity)}
      ensures sent == [Delete(Normalise(identity))]
    {
      fallback.RecordSuccess(identity);
      sent := [Delete(Normalise(identity))];
    }
  }

  // ------------------------------------------------------------ the Redis server

  datatype Counter = Counter(count: int, expires: Option<real>)

  /** Failure counters and locks, each with the time it expires. */
  datatype Server = Server(counters: map<string, Counter>, locks: map<string, real>)

  predicate CounterAlive(s: Server, key: string, now: real) {
    key in s.counters && (s.counters[key].expires.None? || now < s.counters[key].expires.value)
  }

  predicate LockExists(s: Server, key: string, now: real) {
    key in s.locks && now < s.locks[key]
  }

  /** What INCR answers; it keeps the expiry of a live counter and starts a new one without. */
  function Incremented(s: Server, key: string, now: real): Counter {
    if CounterAlive(s, key, now) then s.counters[key].(count := s.counters[key].count + 1)
    else Counter(1, None)
  }

  function Execute(s: Server, now: real, c: Command): Server {
    match c
    case Incr(key) => s.(counters := s.counters[key := Incremented(s, key, now)])
    case Expire(key, seconds) =>
      if key !in s.counters then s
      else s.(counters := s.counters[key := s.counters[key].(expires := Some(now + seconds))])
    case SetLock(key, seconds) => s.(locks := s.locks[key := now + seconds])
    case Delete(key) => Server(s.counters - {key}, s.locks - {key})
  }

  function ExecuteAll(s: Server, now: real, cs: seq<Command>): Server
    decreases |cs|
  {
    if cs == [] then s else ExecuteAll(Execute(s, now, cs[0]), now, cs[1..])
  }

  /** A failure recorded while Redis answers every call truthfully. */
  function ServerFailure(s: Server, key: string, now: real, maxAttempts: int, lockout: real): Server {
    ExecuteAll(s, now, FailureCommands(key, Answer(Incremented(s, key, now).count), true, maxAttempts, lockout))
  }

  /** Its effect in one step: the expiry is set on the first failure only, and the lock
      is set from the `maxAttempts`-th on. */
  lemma ServerFailureEffect(s: Server, key: string, now: real, maxAttempts: int, lockout: real)
    ensures var c := Incremented(s, key, now);
      && ServerFailure(s, key, now, maxAttempts, lockout).counters
           == s.counters[key := if c.count == 1 then c.(expires := Some(now + lockout)) else c]
      && ServerFailure(s, key, now, maxAttempts, lockout).locks
           == if c.count >= maxAttempts then s.locks[key := now + lockout] else s.locks
  {
    var c := Incremented(s, key, now);
    var cs := FailureCommands(key, Answer(c.count), true, maxAttempts, lockout);
    var s1 := Execute(s, now, Incr(key));
    var s2 := if c.count == 1 then Execute(s1, now, Expire(key, lockout)) else s1;
    var last := if c.count >= maxAttempts then [SetLock(key, lockout)] else [];
    assert cs[0] == Incr(key) && ExecuteAll(s, now, cs) == ExecuteAll(s1, now, cs[1..]);
    if c.count == 1 {
      assert cs[1..][0] == Expire(key, lockout) && cs[1..][1..] == last;
    } else {
      assert cs[1..] == last;
    }
    assert ExecuteAll(s1, now, cs[1..]) == ExecuteAll(s2, now, last);
    assert ExecuteAll(s2, now, last) == if last == [] then s2 else Execute(s2, now, last[0]) by {
      if last != [] { assert last[1..] == []; }
    }
  }
}
