/** The sliding-window rate limiter (app/api/middleware.py). Clock readings are parameters. */
module RateLimiter {
  import opened Windows

  const WINDOW: real := 60.0

  datatype Verdict = Admitted | Rejected(retryAfter: int)

  type Hits = map<string, seq<real>>

  // ------------------------------------------------------------ the transitions

  function Bucket(hits: Hits, client: string): seq<real> {
    if client in hits then hits[client] else []
  }

  /** The hits still inside the window. */
  function Live(bucket: seq<real>, now: real): seq<real> {
    if bucket != [] && now - bucket[0] > WINDOW then Live(bucket[1..], now) else bucket
  }

  predicate Stale(bucket: seq<real>, now: real) {
    bucket == [] || now - bucket[|bucket| - 1] > WINDOW
  }

  function Swept(hits: Hits, lastSweep: real, now: real): Hits {
    if now - lastSweep < WINDOW then hits
    else map c | c in hits && !Stale(hits[c], now) :: hits[c]
  }

  function Decide(limit: int, hits: Hits, client: string, now: real): Verdict {
    var bucket := Live(Bucket(hits, client), now);
    if |bucket| < limit then Admitted
    else if bucket == [] then Rejected(60)
    else
      var left := WINDOW - (now - bucket[0]);
      Rejected(if left > 0.0 then left.Floor else 0)
  }

  function HitsAfter(limit: int, hits: Hits, lastSweep: real, client: string, now: real): Hits {
    var bucket := Live(Bucket(hits, client), now);
    if |bucket| < limit then Swept(hits[client := bucket + [now]], lastSweep, now) else hits[client := bucket]
  }

  function SweepAfter(limit: int, hits: Hits, lastSweep: real, client: string, now: real): real {
    if Decide(limit, hits, client, now) == Admitted && now - lastSweep >= WINDOW then now else lastSweep
  }

  const EXEMPT: set<string> := {"/api/v1/health", "/api/v1/ready"}

  class InMemoryRateLimiter {
    const limit: int
    var hits: Hits
    var lastSweep: real

    constructor (limit: int)
      ensures this.limit == limit && hits == map[] && lastSweep == 0.0
    {
      this.limit := limit;
      hits := map[];
      lastSweep := 0.0;
    }

    method Dispatch(path: string, client: string, now: real) returns (verdict: Verdict)
      modifies this
      ensures path in {"/api/v1/health", "/api/v1/ready"} ==>
        verdict == Admitted && hits == old(hits) && lastSweep == old(lastSweep)
      ensures path !in {"/api/v1/health", "/api/v1/ready"} ==>
        && verdict == Decide(limit, old(hits), client, now)
        && hits == HitsAfter(limit, old(hits), old(lastSweep), client, now)
        && lastSweep == SweepAfter(limit, old(hits), old(lastSweep), client, now)
    {
      if path in EXEMPT {
        return Admitted;
      }
      var bucket := Bucket(hits, client);
      ghost var live := Live(bucket, now);
      while bucket != [] && now - bucket[0] > WINDOW
        invariant Live(bucket, now) == live
        decreases |bucket|
      {
        bucket := bucket[1..];
      }
      hits := hits[client := bucket];
      if |bucket| >= limit {
        if bucket == [] {
          return Rejected(60);
        }
        var left := WINDOW - (now - bucket[0]);
        return Rejected(if left > 0.0 then left.Floor else 0);
      }
      hits := hits[client := bucket + [now]];
      assert hits == old(hits)[client := live + [now]];
      MaybeSweep(now);
      return Admitted;
    }

    method MaybeSweep(now: real)
      modifies this
      ensures hits == Swept(old(hits), old(lastSweep), now)
      ensures lastSweep == if now - old(lastSweep) < WINDOW then old(lastSweep) else now
    {
      if now - lastSweep < WINDOW {
        return;
      }
      lastSweep := now;
      ghost var before := hits;
      var stale := set c | c in hits && Stale(hits[c], now);
      var todo := stale;
      while todo != {}
        invariant todo <= stale && lastSweep == now
        invariant hits == before - (stale - todo)
        decreases todo
      {
        var c :| c in todo;
        hits := hits - {c};
        todo := todo - {c};
      }
    }
  }

  // -------------------------------------------------------------- specification

  datatype Request = Request(client: string, at: real)

  /** The intended rule: fewer than `limit` admissions in the last minute. */
  predicate Allows(limit: int, history: seq<real>, now: real) {
    CountIn(history, now - WINDOW, now) < limit
  }

  /** All admissions of a client, by the intended rule, over a run. */
  function History(limit: int, run: seq<Request>, client: string): seq<real> {
    if run == [] then []
    else
      var r := run[|run| - 1];
      var before := History(limit, run[..|run| - 1], client);
      if r.client == client && Allows(limit, before, r.at) then before + [r.at] else before
  }

  datatype State = State(hits: Hits, lastSweep: real)

  /** The limiter's own state after a run. */
  function StateAfter(limit: int, run: seq<Request>): State {
    if run == [] then State(map[], 0.0)
    else
      var s, r := StateAfter(limit, run[..|run| - 1]), run[|run| - 1];
      State(HitsAfter(limit, s.hits, s.lastSweep, r.client, r.at),
          SweepAfter(limit, s.hits, s.lastSweep, r.client, r.at))
  }

  /** The limiter's verdict on a request after a run. */
  function VerdictAfter(limit: int, run: seq<Request>, r: Request): Verdict {
    Decide(limit, StateAfter(limit, run).hits, r.client, r.at)
  }

  ghost predicate InOrder(run: seq<Request>) {
    forall i, j | 0 <= i < j < |run| :: run[i].at <= run[j].at
  }

  /** The request is not earlier than the run before it. */
  ghost predicate Follows(run: seq<Request>, r: Request) {
    run != [] ==> run[|run| - 1].at <= r.at
  }

  ghost predicate NotAfter(ts: seq<real>, now: real) {
    forall i | 0 <= i < |ts| :: ts[i] <= now
  }

  // ------------------------------------------------------------- the refinement

  /** The bucket is the tail of the history; what it lacks lies outside the window. */
  ghost predicate Represents(bucket: seq<real>, history: seq<real>, now: real) {
    var gone := |history| - |bucket|;
    && gone >= 0 && bucket == history[gone..]
    && forall i | 0 <= i < gone :: now - history[i] > WINDOW
  }

  lemma {:induction false} LiveRepresents(bucket: seq<real>, history: seq<real>, since: real, now: real)
    requires Represents(bucket, history, since) && since <= now
    ensures Represents(Live(bucket, now), history, now)
    decreases |bucket|
  {
    if bucket != [] && now - bucket[0] > WINDOW {
      var gone := |history| - |bucket|;
      assert bucket[0] == history[gone] && bucket[1..] == history[gone + 1..];
      assert Represents(bucket[1..], history, now);
      LiveRepresents(bucket[1..], history, now, now);
    }
  }

  lemma {:induction false} LiveFront(bucket: seq<real>, now: real)
    ensures var live := Live(bucket, now); live != [] ==> now - live[0] <= WINDOW
  {
    if bucket != [] && now - bucket[0] > WINDOW {
      LiveFront(bucket[1..], now);
    }
  }

  /** After expiry the bucket holds exactly the admissions the rule counts. */
  lemma LiveCounts(bucket: seq<real>, history: seq<real>, now: real)
    requires Sorted(history) && NotAfter(history, now) && Represents(bucket, history, now)
    requires bucket != [] ==> now - bucket[0] <= WINDOW
    ensures CountIn(history, now - WINDOW, now) == |bucket|
  {
    var gone := |history| - |bucket|;
    CountTail(history, gone, now - WINDOW, now);
    forall i | gone <= i < |history| ensures now - WINDOW <= history[i] <= now {
      assert bucket[0] == history[gone] <= history[i];
    }
  }

  /** After expiry the bucket holds exactly the admissions inside the window. */
  ghost predicate InStep(bucket: seq<real>, history: seq<real>, now: real) {
    && Sorted(history) && NotAfter(history, now) && Represents(bucket, history, now)
    && (bucket != [] ==> now - bucket[0] <= WINDOW)
    && CountIn(history, now - WINDOW, now) == |bucket|
  }

  lemma LiveBucket(bucket: seq<real>, history: seq<real>, since: real, now: real)
    requires Sorted(history) && NotAfter(history, since) && Represents(bucket, history, since) && since <= now
    ensures InStep(Live(bucket, now), history, now)
  {
    LiveRepresents(bucket, history, since, now);
    LiveFront(bucket, now);
    LiveCounts(Live(bucket, now), history, now);
  }

  /** Sweeping loses no admission that still counts. */
  lemma SweepKeeps(hits: Hits, lastSweep: real, client: string, history: seq<real>, now: real)
    requires Sorted(history) && Represents(Bucket(hits, client), history, now)
    ensures Represents(Bucket(Swept(hits, lastSweep, now), client), history, now)
  {
  }

  /** A sweep that is due leaves only clients that were admitted in the last minute. */
  lemma SweepForgets(hits: Hits, lastSweep: real, client: string, now: real)
    requires now - lastSweep >= 60.0 && client in Swept(hits, lastSweep, now)
    ensures client in hits && Swept(hits, lastSweep, now)[client] == hits[client]
    ensures hits[client] != [] && now - hits[client][|hits[client]| - 1] <= 60.0
  {
  }

  lemma PrefixInOrder(run: seq<Request>)
    requires run != [] && InOrder(run)
    ensures InOrder(run[..|run| - 1])
    ensures forall i | 0 <= i < |run| :: run[i].at <= run[|run| - 1].at
  {
  }

  lemma {:induction false} HistorySorted(limit: int, run: seq<Request>, client: string)
    requires InOrder(run)
    ensures Sorted(History(limit, run, client))
    ensures forall i | 0 <= i < |History(limit, run, client)| ::
        run != [] && History(limit, run, client)[i] <= run[|run| - 1].at
  {
    if run != [] {
      PrefixInOrder(run);
      HistorySorted(limit, run[..|run| - 1], client);
    }
  }

  /** One request keeps every client's bucket in step with its history. */
  lemma StepRepresents(limit: int, s: State, r: Request, client: string, history: seq<real>, since: real)
    requires since <= r.at && Sorted(history) && NotAfter(history, since)
    requires Represents(Bucket(s.hits, client), history, since)
    ensures var admitted := client == r.client && Allows(limit, history, r.at);
      Represents(Bucket(HitsAfter(limit, s.hits, s.lastSweep, r.client, r.at), client),
                 if admitted then history + [r.at] else history, r.at)
  {
    var bucket := Bucket(s.hits, client);
    if client != r.client {
      RepresentsLater(bucket, history, since, r.at);
      OtherClient(limit, s, r, client, history);
    } else {
      LiveBucket(bucket, history, since, r.at);
      if |Live(bucket, r.at)| < limit {
        OwnAdmission(s, client, history, Live(bucket, r.at), r.at);
      }
    }
  }

  lemma RepresentsLater(bucket: seq<real>, history: seq<real>, since: real, now: real)
    requires Represents(bucket, history, since) && since <= now
    ensures Represents(bucket, history, now)
  {
  }

  lemma OwnAdmission(s: State, client: string, history: seq<real>, live: seq<real>, now: real)
    requires Sorted(history) && NotAfter(history, now) && Represents(live, history, now)
    ensures Represents(Bucket(Swept(s.hits[client := live + [now]], s.lastSweep, now), client), history + [now], now)
  {
    assert (history + [now])[|history| - |live|..] == live + [now];
    SweepKeeps(s.hits[client := live + [now]], s.lastSweep, client, history + [now], now);
  }

  lemma OtherClient(limit: int, s: State, r: Request, client: string, history: seq<real>)
    requires client != r.client && Sorted(history)
    requires Represents(Bucket(s.hits, client), history, r.at)
    ensures Represents(Bucket(HitsAfter(limit, s.hits, s.lastSweep, r.client, r.at), client), history, r.at)
  {
    var bucket := Live(Bucket(s.hits, r.client), r.at);
    if |bucket| < limit {
      SweepKeeps(s.hits[r.client := bucket + [r.at]], s.lastSweep, client, history, r.at);
    }
  }

  lemma {:induction false} RunRepresents(limit: int, run: seq<Request>, client: string, now: real)
    requires InOrder(run) && (run != [] ==> run[|run| - 1].at <= now)
    ensures Represents(Bucket(StateAfter(limit, run).hits, client), History(limit, run, client), now)
    ensures Sorted(History(limit, run, client)) && NotAfter(History(limit, run, client), now)
  {
    HistorySorted(limit, run, client);
    if run != [] {
      var init, r := run[..|run| - 1], run[|run| - 1];
      PrefixInOrder(run);
      RunRepresents(limit, init, client, r.at);
      StepRepresents(limit, StateAfter(limit, init), r, client, History(limit, init, client), r.at);
      RepresentsLater(Bucket(StateAfter(limit, run).hits, client), History(limit, run, client), r.at, now);
    }
  }

  /** The deques, with their pops and sweeps, decide exactly as the rule that counts all
      past admissions within the window. */
  lemma DecidesAsRule(limit: int, run: seq<Request>, r: Request)
    requires InOrder(run) && Follows(run, r)
    ensures VerdictAfter(limit, run, r) == Admitted <==> Allows(limit, History(limit, run, r.client), r.at)
  {
    BucketAt(limit, run, r);
  }

  /** The live part of a client's bucket when its next request comes. */
  lemma BucketAt(limit: int, run: seq<Request>, r: Request)
    requires InOrder(run) && Follows(run, r)
    ensures InStep(Live(Bucket(StateAfter(limit, run).hits, r.client), r.at), History(limit, run, r.client), r.at)
  {
    RunRepresents(limit, run, r.client, r.at);
    LiveBucket(Bucket(StateAfter(limit, run).hits, r.client), History(limit, run, r.client), r.at, r.at);
  }

  // ----------------------------------------------------------- the window bound

  function Ceiling(limit: int): nat {
    if limit < 0 then 0 else limit
  }

  /** An admission lies more than a window after the one `limit` places before it. */
  lemma NextIsSpaced(limit: int, history: seq<real>, at: real)
    requires limit > 0 && Sorted(history) && NotAfter(history, at) && Allows(limit, history, at)
    ensures |history| >= limit ==> at - history[|history| - limit] > WINDOW
  {
    if |history| >= limit {
      CountTail(history, |history| - limit, at - WINDOW, at);
    }
  }

  lemma {:induction false} HistorySpaced(limit: int, run: seq<Request>, client: string)
    requires InOrder(run)
    ensures limit <= 0 ==> History(limit, run, client) == []
    ensures forall i, j | 0 <= i <= j < |History(limit, run, client)| && j - i == limit ::
      History(limit, run, client)[j] - History(limit, run, client)[i] > WINDOW
  {
    if run != [] {
      var init, r := run[..|run| - 1], run[|run| - 1];
      var h := History(limit, init, client);
      PrefixInOrder(run);
      HistorySpaced(limit, init, client);
      HistorySorted(limit, init, client);
      if r.client == client && Allows(limit, h, r.at) {
        assert limit > 0;
        NextIsSpaced(limit, h, r.at);
      }
    }
  }

  /** The times at which the limiter itself admits a client over a run. */
  function Admissions(limit: int, run: seq<Request>, client: string): seq<real> {
    if run == [] then []
    else
      var init, r := run[..|run| - 1], run[|run| - 1];
      var before := Admissions(limit, init, client);
      if r.client == client && VerdictAfter(limit, init, r) == Admitted then before + [r.at] else before
  }

  /** They are those of the rule, in every run. */
  lemma {:induction false} AdmissionsAreHistory(limit: int, run: seq<Request>, client: string)
    requires InOrder(run)
    ensures Admissions(limit, run, client) == History(limit, run, client)
  {
    if run != [] {
      var init, r := run[..|run| - 1], run[|run| - 1];
      PrefixInOrder(run);
      AdmissionsAreHistory(limit, init, client);
      DecidesAsRule(limit, init, r);
    }
  }

  /** Over every run, each closed window of a minute holds at most `limit` admissions of a client. */
  lemma AtMostLimit(limit: int, run: seq<Request>, client: string, lo: real)
    requires InOrder(run)
    ensures CountIn(Admissions(limit, run, client), lo, lo + 60.0) <= Ceiling(limit)
  {
    AdmissionsAreHistory(limit, run, client);
    HistorySpaced(limit, run, client);
    HistorySorted(limit, run, client);
    if limit > 0 {
      WindowBound(History(limit, run, client), limit, lo, lo + WINDOW);
    }
  }

  /** With a limit below one nothing is ever admitted, and the wait advertised is a minute. */
  lemma NoLimitNoService(limit: int, run: seq<Request>, r: Request)
    requires limit <= 0 && InOrder(run) && Follows(run, r)
    ensures VerdictAfter(limit, run, r) == Rejected(60)
  {
    EmptyBucket(limit, run, r);
  }

  lemma EmptyBucket(limit: int, run: seq<Request>, r: Request)
    requires limit <= 0 && InOrder(run) && Follows(run, r)
    ensures Live(Bucket(StateAfter(limit, run).hits, r.client), r.at) == []
  {
    var history := History(limit, run, r.client);
    assert history == [] by {
      HistorySpaced(limit, run, r.client);
    }
    BucketAt(limit, run, r);
  }

  // ---------------------------------------------------------------- Retry-After

  lemma {:induction false} Unaffected(limit: int, run: seq<Request>, more: seq<Request>, client: string)
    requires forall i | 0 <= i < |more| :: more[i].client != client
    ensures History(limit, run + more, client) == History(limit, run, client)
  {
    if more == [] {
      assert run + more == run;
    } else {
      var n := |more| - 1;
      assert (run + more)[..|run| + n] == run + more[..n];
      assert (run + more)[|run| + n] == more[n];
      Unaffected(limit, run, more[..n], client);
    }
  }

  /** With a full bucket, the rule admits exactly when its oldest admission has left the window. */
  lemma OldestDecides(limit: int, bucket: seq<real>, history: seq<real>, now: real, later: real)
    requires limit >= 1 && Sorted(history) && NotAfter(history, now) && now <= later
    requires Represents(bucket, history, now) && |bucket| == limit && now - bucket[0] <= WINDOW
    ensures Allows(limit, history, later) <==> later - bucket[0] > WINDOW
  {
    var gone := |history| - limit;
    assert bucket[0] == history[gone];
    if later - bucket[0] > WINDOW {
      CountTail(history, gone + 1, later - WINDOW, later);
    } else {
      CountTail(history, gone, later - WINDOW, later);
    }
  }

  /** The live part of a client's bucket when its request comes. */
  function LiveAt(limit: int, run: seq<Request>, r: Request): seq<real> {
    Live(Bucket(StateAfter(limit, run).hits, r.client), r.at)
  }

  /** After a rejection, a client that sends nothing in between is admitted exactly when the
      oldest admission in its bucket has left the window, whatever the others do meanwhile. */
  lemma AdmittedAgainIff(limit: int, run: seq<Request>, r: Request, more: seq<Request>, later: Request)
    requires limit >= 1 && InOrder(run + [r] + more) && Follows(run + [r] + more, later)
    requires VerdictAfter(limit, run, r).Rejected?
    requires later.client == r.client && forall i | 0 <= i < |more| :: more[i].client != r.client
    ensures LiveAt(limit, run, r) != []
    ensures VerdictAfter(limit, run + [r] + more, later) == Admitted <==> later.at - LiveAt(limit, run, r)[0] > 60.0
  {
    var h := History(limit, run, r.client);
    BeforeRejection(run, r, more, later);
    RejectedState(limit, run, r);
    OldestDecides(limit, LiveAt(limit, run, r), h, r.at, later.at);
    assert History(limit, run + [r], r.client) == h by {
      assert (run + [r])[..|run|] == run;
      DecidesAsRule(limit, run, r);
    }
    Unaffected(limit, run + [r], more, r.client);
    DecidesAsRule(limit, run + [r] + more, later);
  }

  /** What the header advertises at a rejection: the whole seconds until then. */
  lemma Advertised(limit: int, run: seq<Request>, r: Request)
    requires limit >= 1 && InOrder(run) && Follows(run, r) && VerdictAfter(limit, run, r).Rejected?
    ensures LiveAt(limit, run, r) != []
    ensures VerdictAfter(limit, run, r).retryAfter == (WINDOW - (r.at - LiveAt(limit, run, r)[0])).Floor >= 0
  {
    RejectedState(limit, run, r);
  }

  /** A client that sends nothing for the advertised number of seconds and one more is admitted ... */
  lemma RetryAfterIsSound(limit: int, run: seq<Request>, r: Request, more: seq<Request>, later: Request)
    requires limit >= 1 && InOrder(run + [r] + more) && Follows(run + [r] + more, later)
    requires VerdictAfter(limit, run, r).Rejected?
    requires later.client == r.client && forall i | 0 <= i < |more| :: more[i].client != r.client
    requires later.at >= r.at + (VerdictAfter(limit, run, r).retryAfter + 1) as real
    ensures VerdictAfter(limit, run + [r] + more, later) == Admitted
  {
    BeforeRejection(run, r, more, later);
    Advertised(limit, run, r);
    AdmittedAgainIff(limit, run, r, more, later);
  }

  /** ... and one that returns after exactly that number is always rejected again. */
  lemma RetryAfterIsTooEarly(limit: int, run: seq<Request>, r: Request, more: seq<Request>, later: Request)
    requires limit >= 1 && InOrder(run + [r] + more) && Follows(run + [r] + more, later)
    requires VerdictAfter(limit, run, r).Rejected?
    requires later.client == r.client && forall i | 0 <= i < |more| :: more[i].client != r.client
    requires later.at == r.at + VerdictAfter(limit, run, r).retryAfter as real
    ensures VerdictAfter(limit, run + [r] + more, later).Rejected?
  {
    BeforeRejection(run, r, more, later);
    Advertised(limit, run, r);
    AdmittedAgainIff(limit, run, r, more, later);
  }

  lemma BeforeRejection(run: seq<Request>, r: Request, more: seq<Request>, later: Request)
    requires InOrder(run + [r] + more) && Follows(run + [r] + more, later)
    ensures InOrder(run) && Follows(run, r) && r.at <= later.at
  {
    var all := run + [r] + more;
    assert all[|run|] == r && all[|all| - 1].at <= later.at;
    assert forall i | 0 <= i < |run| :: run[i] == all[i];
  }

  /** At a rejection the bucket holds exactly `limit` admissions, all inside the window. */
  lemma RejectedState(limit: int, run: seq<Request>, r: Request)
    requires limit >= 1 && InOrder(run) && Follows(run, r) && VerdictAfter(limit, run, r).Rejected?
    ensures var bucket, h := LiveAt(limit, run, r), History(limit, run, r.client);
      && Sorted(h) && NotAfter(h, r.at) && Represents(bucket, h, r.at)
      && |bucket| == limit && r.at - bucket[0] <= WINDOW
  {
    BucketAt(limit, run, r);
    AdmissionsAreHistory(limit, run, r.client);
    AtMostLimit(limit, run, r.client, r.at - WINDOW);
    assert r.at - WINDOW + WINDOW == r.at;
  }
}
