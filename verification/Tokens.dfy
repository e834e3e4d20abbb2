/** Revocation of refresh tokens (app/security/token_store.py) and their rotation
    (`refresh` and `logout` in app/services/auth_service.py). Expiry is section 4.1.4
    of RFC 7519: a token is dead from its expiry time on, which is a whole second. */
module Tokens {
  import opened Wrappers

  // ------------------------------------------------------------------- the store

  type Revocations = map<string, real>

  function Pruned(m: Revocations, now: real): Revocations {
    map j | j in m && m[j] > now :: m[j]
  }

  function AtLeastOne(ttl: int): int {
    if ttl < 1 then 1 else ttl
  }

  function AfterRevoke(m: Revocations, jti: string, ttl: int, now: real): Revocations {
    Pruned(m, now)[jti := now + AtLeastOne(ttl) as real]
  }

  predicate IsRevokedAt(m: Revocations, jti: string, now: real) {
    jti in m && m[jti] > now
  }

  function AfterQuery(m: Revocations, jti: string, now: real): Revocations {
    if jti in m && m[jti] <= now then m - {jti} else m
  }

  class InMemoryTokenStore {
    var revoked: Revocations

    constructor ()
      ensures revoked == map[]
    {
      revoked := map[];
    }

    method Prune(now: real)
      modifies this
      ensures revoked == Pruned(old(revoked), now)
    {
      ghost var before := revoked;
      var expired := set j | j in revoked && revoked[j] <= now;
      var todo := expired;
      while todo != {}
        invariant todo <= expired
        invariant revoked == before - (expired - todo)
        decreases todo
      {
        var j :| j in todo;
        revoked := revoked - {j};
        todo := todo - {j};
      }
    }

    method Revoke(jti: string, ttlSeconds: int, now: real)
      modifies this
      ensures revoked == AfterRevoke(old(revoked), jti, ttlSeconds, now)
    {
      Prune(now);
      revoked := revoked[jti := now + AtLeastOne(ttlSeconds) as real];
    }

    method IsRevoked(jti: string, now: real) returns (b: bool)
      modifies this
      ensures b == IsRevokedAt(old(revoked), jti, now)
      ensures revoked == AfterQuery(old(revoked), jti, now)
    {
      if jti !in revoked {
        return false;
      }
      if revoked[jti] <= now {
        revoked := revoked - {jti};
        return false;
      }
      return true;
    }
  }

  // ------------------------------------------------------------------ time to live

  /** `int(x)`, which drops the fraction. */
  function Truncate(x: real): int {
    if x >= 0.0 then x.Floor else -((-x).Floor)
  }

  function RemainingTtl(expires: int, now: real): int {
    AtLeastOne(Truncate(expires as real - now))
  }

  /** When the revocation of a token ends, computed at one moment and stored at another. */
  function RevokedUntil(expires: int, computed: real, stored: real): real {
    stored + AtLeastOne(RemainingTtl(expires, computed)) as real
  }

  /** The truncation costs less than a second. */
  lemma RevocationAlmostOutlives(expires: int, computed: real, stored: real)
    requires computed <= stored
    ensures RevokedUntil(expires, computed, stored) > expires as real - 1.0
  {
  }

  /** A token revoked at one moment is rejected until it expires exactly when at most a
      second is left, or a whole number of seconds is. */
  lemma RevocationOutlivesIff(expires: int, now: real)
    ensures RevokedUntil(expires, now, now) >= expires as real
       <==> expires as real - now <= 1.0 || now == now.Floor as real
  {
    var left := expires as real - now;
    if left >= 1.0 {
      assert RevokedUntil(expires, now, now) == now + left.Floor as real;
      if now == now.Floor as real {
        assert left == (expires - now.Floor) as real;
      }
      if left.Floor as real == left {
        assert now == (expires - left.Floor) as real;
      }
    }
  }

  /** Equivalently: a revoked token is accepted again at some moment before its expiry
      exactly when more than a second is left at its revocation, and not a whole number. */
  lemma RevokedTokenRevivesIff(m: Revocations, jti: string, expires: int, now: real)
    ensures var m' := AfterRevoke(m, jti, RemainingTtl(expires, now), now);
      (exists t :: now <= t < expires as real && !IsRevokedAt(m', jti, t)) <==>
        expires as real - now > 1.0 && now != now.Floor as real
  {
    var m' := AfterRevoke(m, jti, RemainingTtl(expires, now), now);
    RevocationOutlivesIff(expires, now);
    assert m'[jti] == RevokedUntil(expires, now, now);
    if m'[jti] < expires as real {
      assert !IsRevokedAt(m', jti, m'[jti]);
    }
  }

  // ---------------------------------------------------------------- the rotation

  datatype Kind = Access | Refresh

  /** The claims the service looks at, and the login the token descends from. */
  datatype Token = Token(kind: Kind, expires: int, lineage: nat)

  /** The identifiers and expiry times of a newly issued pair. */
  datatype Pair = Pair(access: string, accessExpires: int, refresh: string, refreshExpires: int)

  /** One login, refresh, logout or revocation query. Its clock readings are in order:
      at decoding, at the query, at computing the time to live, and at storing. */
  datatype Op =
    | Login(lineage: nat, pair: Pair, at: real)
    | Rotate(token: string, pair: Pair, userActive: bool, decoded: real, queried: real, computed: real, stored: real)
    | Logout(token: string, access: Option<string>, decoded: real, computed: real, stored: real)
    | Query(token: string, queried: real)

  datatype Service = Service(store: Revocations, issued: map<string, Token>)

  const EMPTY: Service := Service(map[], map[])

  function Start(op: Op): real {
    match op
    case Login(_, _, t) => t
    case Rotate(_, _, _, t, _, _, _) => t
    case Logout(_, _, t, _, _) => t
    case Query(_, t) => t
  }

  function End(op: Op): real {
    match op
    case Login(_, _, t) => t
    case Rotate(_, _, _, _, _, _, t) => t
    case Logout(_, _, _, _, t) => t
    case Query(_, t) => t
  }

  predicate ClockInOrder(op: Op) {
    match op
    case Rotate(_, _, _, d, q, c, s) => d <= q <= c <= s
    case Logout(_, _, d, c, s) => d <= c <= s
    case _ => true
  }

  /** `decode` accepts a known token of the expected kind before its expiry. */
  predicate Decodes(s: Service, jti: string, kind: Kind, now: real) {
    jti in s.issued && s.issued[jti].kind == kind && now < s.issued[jti].expires as real
  }

  function Issue(s: Service, pair: Pair, lineage: nat): Service {
    s.(issued := s.issued[pair.access := Token(Access, pair.accessExpires, lineage)]
                         [pair.refresh := Token(Refresh, pair.refreshExpires, lineage)])
  }

  predicate Rotates(s: Service, op: Op)
    requires op.Rotate?
  {
    Decodes(s, op.token, Refresh, op.decoded) && !IsRevokedAt(s.store, op.token, op.queried) && op.userActive
  }

  /** Revoke a token for as long as its claims say it has left. */
  function RevokeToken(s: Service, jti: string, computed: real, stored: real): Service {
    if jti in s.issued
    then s.(store := AfterRevoke(s.store, jti, RemainingTtl(s.issued[jti].expires, computed), stored))
    else s
  }

  function Step(s: Service, op: Op): Service {
    match op
    case Login(lineage, pair, _) => Issue(s, pair, lineage)
    case Rotate(token, pair, _, decoded, queried, computed, stored) =>
      if !Decodes(s, token, Refresh, decoded) then s
      else
        var s1 := s.(store := AfterQuery(s.store, token, queried));
        if !Rotates(s, op) then s1
        else Issue(RevokeToken(s1, token, computed, stored), pair, s.issued[token].lineage)
    case Logout(token, access, decoded, computed, stored) =>
      var s1 := if Decodes(s, token, Refresh, decoded) then RevokeToken(s, token, computed, stored) else s;
      if access.Some? && Decodes(s1, access.value, Access, decoded)
      then RevokeToken(s1, access.value, computed, stored) else s1
    case Query(token, queried) => s.(store := AfterQuery(s.store, token, queried))
  }

  function After(run: seq<Op>): Service {
    if run == [] then EMPTY else Step(After(run[..|run| - 1]), run[|run| - 1])
  }

  /** The tokens an operation revokes. */
  function Revokes(s: Service, op: Op): set<string> {
    match op
    case Rotate(token, _, _, _, _, _, _) => if Rotates(s, op) then {token} else {}
    case Logout(token, access, decoded, _, _) =>
      (if Decodes(s, token, Refresh, decoded) then {token} else {})
        + (if access.Some? && Decodes(s, access.value, Access, decoded) then {access.value} else {})
    case _ => {}
  }

  /** The tokens that rotations and logouts have revoked. */
  function Spent(run: seq<Op>): set<string> {
    if run == [] then {} else Spent(run[..|run| - 1]) + Revokes(After(run[..|run| - 1]), run[|run| - 1])
  }

  /** When the last revocation of a token that an operation revokes will end. */
  function RevokesUntil(s: Service, op: Op, jti: string): real
    requires jti in Revokes(s, op) && jti in s.issued
  {
    RevokedUntil(s.issued[jti].expires, op.computed, op.stored)
  }

  /** When the last revocation of a token in the whole history of a run ends. */
  function Until(run: seq<Op>, jti: string): real {
    if run == [] then 0.0
    else
      var s, op := After(run[..|run| - 1]), run[|run| - 1];
      if jti in Revokes(s, op) then RevokesUntil(s, op, jti) else Until(run[..|run| - 1], jti)
  }

  /** The identifiers an operation may issue. */
  function NewIds(op: Op): set<string> {
    match op
    case Login(_, pair, _) => {pair.access, pair.refresh}
    case Rotate(_, pair, _, _, _, _, _) => {pair.access, pair.refresh}
    case _ => {}
  }

  /** The clock never goes back, identifiers are never issued twice, and each login
      begins a lineage of its own. */
  ghost predicate Proper(run: seq<Op>) {
    && (forall i | 0 <= i < |run| :: ClockInOrder(run[i]))
    && (forall i, j | 0 <= i < j < |run| :: End(run[i]) <= Start(run[j]))
    && (forall i, j | 0 <= i < j < |run| :: NewIds(run[i]) !! NewIds(run[j]))
    && (forall i | 0 <= i < |run| && (run[i].Login? || run[i].Rotate?) :: run[i].pair.access != run[i].pair.refresh)
    && (forall i, j | 0 <= i < j < |run| && run[i].Login? && run[j].Login? :: run[i].lineage != run[j].lineage)
  }

  predicate IsWhole(t: real) {
    t == t.Floor as real
  }

  /** Whether the clock is only ever read at whole seconds. */
  ghost predicate WholeSeconds(run: seq<Op>) {
    forall i | 0 <= i < |run| && (run[i].Rotate? || run[i].Logout?) :: IsWhole(run[i].computed)
  }

  // ---------------------------------------------------------------- the guarantee

  /** The moment up to which a revoked token is certain to be rejected: its expiry on a
      clock of whole seconds, and a second earlier on any clock. */
  predicate Certain(whole: bool, token: Token, now: real) {
    if whole then now < token.expires as real else now <= token.expires as real - 1.0
  }

  lemma UncertainAtEnd(whole: bool, token: Token, computed: real, stored: real)
    requires computed <= stored && (whole ==> IsWhole(computed))
    ensures !Certain(whole, token, RevokedUntil(token.expires, computed, stored))
  {
    RevocationAlmostOutlives(token.expires, computed, stored);
    if whole {
      RevocationOutlivesIff(token.expires, computed);
    }
  }

  // ------------------------------------------------------- the store and its log

  /** What the store holds of one token is what the log of its revocations says: the end
      of the last one, unless that has passed. */
  ghost predicate FollowsLog(m: Revocations, jti: string, spent: bool, until: real, now: real) {
    && (jti in m ==> spent && m[jti] == until)
    && (jti !in m && spent ==> until <= now)
  }

  /** Every operation keeps that so, whatever it prunes, forgets or revokes again. */
  lemma StepFollowsLog(s: Service, op: Op, jti: string, spent: bool, until: real, since: real)
    requires FollowsLog(s.store, jti, spent, until, since) && since <= Start(op) && ClockInOrder(op)
    ensures FollowsLog(Step(s, op).store, jti, spent || jti in Revokes(s, op),
                       if jti in Revokes(s, op) then RevokesUntil(s, op, jti) else until, End(op))
  {
  }

  lemma {:induction false} RunFollowsLog(run: seq<Op>, jti: string, now: real)
    requires Proper(run) && (run != [] ==> End(run[|run| - 1]) <= now)
    ensures FollowsLog(After(run).store, jti, jti in Spent(run), Until(run, jti), now)
  {
    if run != [] {
      PrefixProper(run);
      RunFollowsLog(run[..|run| - 1], jti, Start(run[|run| - 1]));
      StepFollowsLog(After(run[..|run| - 1]), run[|run| - 1], jti, jti in Spent(run[..|run| - 1]),
                     Until(run[..|run| - 1], jti), Start(run[|run| - 1]));
    }
  }

  /** At all times after a run the pruned store answers as its full log would: a token is
      rejected exactly when it was revoked and its last revocation has not ended. */
  lemma RejectedIff(run: seq<Op>, jti: string, now: real)
    requires Proper(run) && (run != [] ==> End(run[|run| - 1]) <= now)
    ensures IsRevokedAt(After(run).store, jti, now) <==> jti in Spent(run) && now < Until(run, jti)
  {
    RunFollowsLog(run, jti, now);
  }

  /** The operation comes after the run. */
  ghost predicate Next(run: seq<Op>, op: Op) {
    ClockInOrder(op) && (run != [] ==> End(run[|run| - 1]) <= Start(op))
  }

  /** What decides a refresh, in terms of the token's claims, the log of revocations and
      the clock. */
  predicate Accepted(run: seq<Op>, op: Op)
    requires op.Rotate?
  {
    var issued := After(run).issued;
    && op.token in issued && issued[op.token].kind == Refresh && op.decoded < issued[op.token].expires as real
    && op.userActive
    && (op.token in Spent(run) ==> Until(run, op.token) <= op.queried)
  }

  /** A refresh with a revoked token is accepted exactly when its revocation has ended
      before it expires. */
  lemma RotatesIff(run: seq<Op>, op: Op)
    requires Proper(run) && Next(run, op) && op.Rotate?
    ensures Rotates(After(run), op) <==> Accepted(run, op)
  {
    RejectedIff(run, op.token, op.queried);
  }

  lemma PrefixProper(run: seq<Op>)
    requires run != [] && Proper(run)
    ensures Proper(run[..|run| - 1])
    ensures WholeSeconds(run) ==> WholeSeconds(run[..|run| - 1])
  {
  }

  /** Every issued token comes from an operation of the run, its lineage from a login. */
  lemma {:induction false} IssuedByRun(run: seq<Op>, jti: string)
    requires jti in After(run).issued
    ensures exists i :: 0 <= i < |run| && jti in NewIds(run[i])
    ensures exists i :: 0 <= i < |run| && run[i].Login? && run[i].lineage == After(run).issued[jti].lineage
  {
    var n := |run| - 1;
    var init := run[..n];
    assert forall i | 0 <= i < n :: init[i] == run[i];
    if jti in NewIds(run[n]) {
      if run[n].Rotate? && jti in After(init).issued {
        IssuedByRun(init, jti);
      }
      if run[n].Rotate? && Decodes(After(init), run[n].token, Refresh, run[n].decoded) {
        IssuedByRun(init, run[n].token);
      }
    } else {
      IssuedByRun(init, jti);
    }
  }

  lemma NewIdsAreNew(run: seq<Op>, jti: string)
    requires run != [] && Proper(run) && jti in NewIds(run[|run| - 1])
    ensures jti !in After(run[..|run| - 1]).issued
  {
    var n := |run| - 1;
    assert forall i | 0 <= i < n :: run[..n][i] == run[i];
    if jti in After(run[..n]).issued {
      IssuedByRun(run[..n], jti);
    }
  }

  lemma {:induction false} SpentIsIssued(run: seq<Op>)
    ensures forall j | j in Spent(run) :: j in After(run).issued
  {
    if run != [] {
      SpentIsIssued(run[..|run| - 1]);
    }
  }

  /** The last revocation of a token ends after the moment up to which that is certain. */
  lemma {:induction false} UncertainUntil(whole: bool, run: seq<Op>, jti: string)
    requires Proper(run) && (whole ==> WholeSeconds(run)) && jti in Spent(run)
    ensures jti in After(run).issued && !Certain(whole, After(run).issued[jti], Until(run, jti))
  {
    var init, op := run[..|run| - 1], run[|run| - 1];
    PrefixProper(run);
    SpentIsIssued(init);
    if jti in NewIds(op) {
      NewIdsAreNew(run, jti);
    }
    if jti in Revokes(After(init), op) {
      UncertainAtEnd(whole, After(init).issued[jti], op.computed, op.stored);
    } else {
      UncertainUntil(whole, init, jti);
    }
  }

  /** A token revoked by a refresh or a logout is rejected for as long as that is certain,
      despite truncated times to live, pruning, and being revoked again. */
  lemma SpentStaysRevoked(whole: bool, run: seq<Op>, jti: string, now: real)
    requires Proper(run) && (whole ==> WholeSeconds(run))
    requires jti in Spent(run) && (run != [] ==> End(run[|run| - 1]) <= now)
    ensures jti in After(run).issued
    ensures Certain(whole, After(run).issued[jti], now) ==> IsRevokedAt(After(run).store, jti, now)
  {
    UncertainUntil(whole, run, jti);
    RejectedIff(run, jti, now);
  }

  /** Up to that moment exactly the spent tokens are rejected. */
  lemma RejectedIffSpent(whole: bool, run: seq<Op>, jti: string, now: real)
    requires Proper(run) && (whole ==> WholeSeconds(run)) && (run != [] ==> End(run[|run| - 1]) <= now)
    requires jti in After(run).issued && Certain(whole, After(run).issued[jti], now)
    ensures IsRevokedAt(After(run).store, jti, now) <==> jti in Spent(run)
  {
    RejectedIff(run, jti, now);
    if jti in Spent(run) {
      SpentStaysRevoked(whole, run, jti, now);
    }
  }

  // -------------------------------------------------------- what an operation does

  /** A token of the kind that has not expired. */
  predicate Alive(s: Service, jti: string, kind: Kind, now: real) {
    jti in s.issued && s.issued[jti].kind == kind && now < s.issued[jti].expires as real
  }

  /** A logout ends the session: the refresh token and the access token it is given are
      rejected from then on ... */
  lemma LogoutRejects(s: Service, token: string, access: Option<string>, decoded: real, computed: real, stored: real)
    ensures var s' := Step(s, Logout(token, access, decoded, computed, stored));
      && (Alive(s, token, Refresh, decoded) ==> IsRevokedAt(s'.store, token, stored))
      && (access.Some? && Alive(s, access.value, Access, decoded) ==> IsRevokedAt(s'.store, access.value, stored))
      && s'.issued == s.issued
  {
  }

  /** ... for as long as rejection of a revoked token is certain, whatever happens later. */
  lemma LogoutLasts(whole: bool, run: seq<Op>, i: nat, jti: string, now: real)
    requires Proper(run) && (whole ==> WholeSeconds(run)) && i < |run| && End(run[|run| - 1]) <= now
    requires run[i].Logout?
    requires (jti == run[i].token && Alive(After(run[..i]), jti, Refresh, run[i].decoded))
          || (run[i].access == Some(jti) && Alive(After(run[..i]), jti, Access, run[i].decoded))
    ensures jti in After(run).issued
    ensures Certain(whole, After(run).issued[jti], now) ==> IsRevokedAt(After(run).store, jti, now)
  {
    assert jti in Spent(run[..i + 1]) by {
      assert run[..i + 1][..i] == run[..i];
    }
    SpentGrows(run, i + 1, jti);
    SpentStaysRevoked(whole, run, jti, now);
  }

  lemma {:induction false} SpentGrows(run: seq<Op>, k: nat, jti: string)
    requires k <= |run| && jti in Spent(run[..k])
    ensures jti in Spent(run)
    decreases |run|
  {
    if k == |run| {
      assert run[..k] == run;
    } else {
      assert run[..|run| - 1][..k] == run[..k];
      SpentGrows(run[..|run| - 1], k, jti);
    }
  }

  /** A login issues one access and one refresh token of its own lineage, and changes nothing else. */
  lemma LoginIssues(s: Service, lineage: nat, pair: Pair, at: real)
    requires pair.access != pair.refresh
    ensures var s' := Step(s, Login(lineage, pair, at));
      && s'.store == s.store && s'.issued.Keys == s.issued.Keys + {pair.access, pair.refresh}
      && s'.issued[pair.access] == Token(Access, pair.accessExpires, lineage)
      && s'.issued[pair.refresh] == Token(Refresh, pair.refreshExpires, lineage)
      && forall j | j in s.issued && j !in {pair.access, pair.refresh} :: s'.issued[j] == s.issued[j]
  {
  }

  /** An accepted refresh revokes the token presented and issues a pair for the same login. */
  lemma RefreshReplaces(s: Service, op: Op)
    requires op.Rotate? && Alive(s, op.token, Refresh, op.decoded) && !IsRevokedAt(s.store, op.token, op.queried)
    requires op.userActive && op.token !in {op.pair.access, op.pair.refresh} && op.pair.access != op.pair.refresh
    ensures var s' := Step(s, op);
      && IsRevokedAt(s'.store, op.token, op.stored)
      && s'.issued.Keys == s.issued.Keys + {op.pair.access, op.pair.refresh}
      && s'.issued[op.pair.access] == Token(Access, op.pair.accessExpires, s.issued[op.token].lineage)
      && s'.issued[op.pair.refresh] == Token(Refresh, op.pair.refreshExpires, s.issued[op.token].lineage)
      && forall j | j in s.issued && j !in {op.pair.access, op.pair.refresh} :: s'.issued[j] == s.issued[j]
  {
  }

  /** A refresh that is not accepted revokes nothing and issues nothing. */
  lemma RefusedRefresh(s: Service, op: Op)
    requires op.Rotate?
    requires !Alive(s, op.token, Refresh, op.decoded) || IsRevokedAt(s.store, op.token, op.queried) || !op.userActive
    ensures Step(s, op).issued == s.issued && forall j, t | t >= op.queried ::
      IsRevokedAt(Step(s, op).store, j, t) <==> IsRevokedAt(s.store, j, t)
  {
  }

  // ------------------------------------------------------------ tokens of one login

  /** A refresh token of a login that no refresh or logout has revoked. */
  predicate Unspent(run: seq<Op>, jti: string, lineage: nat) {
    var s := After(run);
    jti in s.issued && s.issued[jti].kind == Refresh && s.issued[jti].lineage == lineage && jti !in Spent(run)
  }

  ghost predicate AtMostOneUnspent(run: seq<Op>, lineage: nat) {
    forall a, b | Unspent(run, a, lineage) && Unspent(run, b, lineage) :: a == b
  }

  /** The last operation is an accepted refresh for this login. */
  predicate Refreshes(run: seq<Op>, lineage: nat)
    requires run != []
  {
    var init, op := run[..|run| - 1], run[|run| - 1];
    op.Rotate? && Accepted(init, op) && After(init).issued[op.token].lineage == lineage
  }

  /** If the last operation is one, no other token of the login is unspent when it is made. */
  ghost predicate LeavesNoOther(run: seq<Op>, lineage: nat)
    requires run != []
  {
    var init, op := run[..|run| - 1], run[|run| - 1];
    Refreshes(run, lineage) ==> forall a | Unspent(init, a, lineage) :: a == op.token
  }

  lemma LastRotates(run: seq<Op>)
    requires run != [] && Proper(run) && run[|run| - 1].Rotate?
    ensures Rotates(After(run[..|run| - 1]), run[|run| - 1]) <==> Accepted(run[..|run| - 1], run[|run| - 1])
  {
    PrefixProper(run);
    RotatesIff(run[..|run| - 1], run[|run| - 1]);
  }

  /** An operation takes the tokens it revokes from the unspent ones. */
  lemma OldUnspent(run: seq<Op>, lineage: nat, jti: string)
    requires run != [] && Proper(run)
    requires jti in After(run[..|run| - 1]).issued
    ensures After(run).issued[jti] == After(run[..|run| - 1]).issued[jti]
    ensures var init, op := run[..|run| - 1], run[|run| - 1];
      Unspent(run, jti, lineage) <==> Unspent(init, jti, lineage) && jti !in Revokes(After(init), op)
  {
    if jti in NewIds(run[|run| - 1]) {
      NewIdsAreNew(run, jti);
    }
  }

  /** It adds at most one, which is the refresh token of the pair it issues. */
  lemma NewUnspent(run: seq<Op>, lineage: nat, jti: string)
    requires run != [] && Proper(run) && jti !in After(run[..|run| - 1]).issued
    ensures var op := run[|run| - 1];
      Unspent(run, jti, lineage) <==>
        ((op.Login? && op.lineage == lineage) || Refreshes(run, lineage)) && jti == op.pair.refresh
  {
    SpentIsIssued(run[..|run| - 1]);
    if run[|run| - 1].Rotate? {
      LastRotates(run);
    }
  }

  /** A login has no token before it is made. */
  lemma LoginIsFirst(run: seq<Op>, jti: string)
    requires run != [] && Proper(run) && run[|run| - 1].Login? && jti in After(run[..|run| - 1]).issued
    ensures After(run[..|run| - 1]).issued[jti].lineage != run[|run| - 1].lineage
  {
    IssuedByRun(run[..|run| - 1], jti);
  }

  /** Where two tokens of a login that are unspent after a run come from: both were there
      before the last operation, or it was a refresh that left the older one. */
  lemma UnspentFrom(run: seq<Op>, lineage: nat, a: string, b: string)
    requires run != [] && Proper(run) && a != b
    requires Unspent(run, a, lineage) && Unspent(run, b, lineage)
    ensures var init, op := run[..|run| - 1], run[|run| - 1];
      || (Unspent(init, a, lineage) && Unspent(init, b, lineage))
      || (Refreshes(run, lineage) && exists c ::
          Unspent(init, c, lineage) && c != op.token && {a, b} == {c, op.pair.refresh})
  {
    var init, op := run[..|run| - 1], run[|run| - 1];
    if a in After(init).issued { OldUnspent(run, lineage, a); } else { NewUnspent(run, lineage, a); }
    if b in After(init).issued { OldUnspent(run, lineage, b); } else { NewUnspent(run, lineage, b); }
    if (a in After(init).issued) != (b in After(init).issued) {
      var c := if a in After(init).issued then a else b;
      if op.Login? { LoginIsFirst(run, c); }
      LastRotates(run);
      assert Unspent(init, c, lineage) && c != op.token && {a, b} == {c, op.pair.refresh};
    }
  }

  /** An accepted refresh leaves the login's other tokens as they are and adds a new one. */
  lemma RefreshAdds(run: seq<Op>, lineage: nat, a: string)
    requires run != [] && Proper(run) && Refreshes(run, lineage)
    requires Unspent(run[..|run| - 1], a, lineage) && a != run[|run| - 1].token
    ensures var added := run[|run| - 1].pair.refresh;
      && Unspent(run, a, lineage) && Unspent(run, added, lineage) && a != added
      && After(run).issued[a] == After(run[..|run| - 1]).issued[a]
      && After(run).issued[added].expires == run[|run| - 1].pair.refreshExpires
  {
    LastRotates(run);
    OldUnspent(run, lineage, a);
    NewIdsAreNew(run, run[|run| - 1].pair.refresh);
    NewUnspent(run, lineage, run[|run| - 1].pair.refresh);
  }

  /** One operation keeps at most one token unspent exactly when it leaves no other. */
  lemma StepKeepsOneIff(run: seq<Op>, lineage: nat)
    requires run != [] && Proper(run) && AtMostOneUnspent(run[..|run| - 1], lineage)
    ensures AtMostOneUnspent(run, lineage) <==> LeavesNoOther(run, lineage)
  {
    if LeavesNoOther(run, lineage) {
      forall a, b | Unspent(run, a, lineage) && Unspent(run, b, lineage) ensures a == b {
        if a != b { UnspentFrom(run, lineage, a, b); }
      }
    } else {
      var a :| Unspent(run[..|run| - 1], a, lineage) && a != run[|run| - 1].token;
      RefreshAdds(run, lineage, a);
    }
  }

  /** The first operations of a run. */
  lemma PrefixAt(run: seq<Op>, k: nat)
    requires Proper(run) && k <= |run|
    ensures Proper(run[..k]) && (WholeSeconds(run) ==> WholeSeconds(run[..k]))
    ensures k > 0 ==> run[..k][..k - 1] == run[..k - 1]
    ensures k < |run| ==> Next(run[..k], run[k])
  {
  }

  lemma {:induction false} NoneCrossed(run: seq<Op>, lineage: nat, k: nat)
    requires Proper(run) && k <= |run| && forall i | 0 < i <= |run| :: LeavesNoOther(run[..i], lineage)
    ensures AtMostOneUnspent(run[..k], lineage)
  {
    PrefixAt(run, k);
    if k > 0 {
      NoneCrossed(run, lineage, k - 1);
      StepKeepsOneIff(run[..k], lineage);
    } else {
      assert After(run[..0]).issued == map[];
    }
  }

  /** Throughout a run each login has at most one unspent refresh token, exactly when every
      refresh is accepted for the one it has, or when it has none left. */
  lemma OneUnspentIff(run: seq<Op>, lineage: nat)
    requires Proper(run)
    ensures (forall k | 0 <= k <= |run| :: AtMostOneUnspent(run[..k], lineage))
       <==> (forall k | 0 < k <= |run| :: LeavesNoOther(run[..k], lineage))
  {
    if forall k | 0 <= k <= |run| :: AtMostOneUnspent(run[..k], lineage) {
      forall k | 0 < k <= |run| ensures LeavesNoOther(run[..k], lineage) {
        PrefixAt(run, k);
        assert AtMostOneUnspent(run[..k - 1], lineage);
        StepKeepsOneIff(run[..k], lineage);
      }
    } else if forall i | 0 < i <= |run| :: LeavesNoOther(run[..i], lineage) {
      var k :| 0 <= k <= |run| && !AtMostOneUnspent(run[..k], lineage);
      NoneCrossed(run, lineage, k);
    }
  }

  // ----------------------------------------------------------- usable tokens of one login

  /** A refresh token of a login that is accepted at a moment before its margin. */
  predicate Usable(whole: bool, run: seq<Op>, jti: string, lineage: nat, now: real) {
    var s := After(run);
    && jti in s.issued && s.issued[jti].kind == Refresh && s.issued[jti].lineage == lineage
    && Certain(whole, s.issued[jti], now) && !IsRevokedAt(s.store, jti, now)
  }

  /** From the end of the run on, for as long as nothing else happens. */
  ghost predicate AtMostOneUsable(whole: bool, run: seq<Op>, lineage: nat) {
    forall a, b, now | (run != [] ==> End(run[|run| - 1]) <= now)
      && Usable(whole, run, a, lineage, now) && Usable(whole, run, b, lineage, now) :: a == b
  }

  /** The last operation is an accepted refresh that leaves behind another unspent token of
      the login, and neither that nor the new one is past its margin when it ends. */
  ghost predicate Splits(whole: bool, run: seq<Op>, lineage: nat)
    requires run != []
  {
    var init, op := run[..|run| - 1], run[|run| - 1];
    && Refreshes(run, lineage)
    && Certain(whole, Token(Refresh, op.pair.refreshExpires, lineage), End(op))
    && exists a :: Unspent(init, a, lineage) && a != op.token && Certain(whole, After(init).issued[a], End(op))
  }

  /** Before the margin the usable tokens are the unspent ones. */
  lemma UsableIffUnspent(whole: bool, run: seq<Op>, jti: string, lineage: nat, now: real)
    requires Proper(run) && (whole ==> WholeSeconds(run)) && (run != [] ==> End(run[|run| - 1]) <= now)
    ensures Usable(whole, run, jti, lineage, now)
       <==> Unspent(run, jti, lineage) && Certain(whole, After(run).issued[jti], now)
  {
    if jti in After(run).issued && Certain(whole, After(run).issued[jti], now) {
      RejectedIffSpent(whole, run, jti, now);
    }
  }

  /** One operation keeps at most one token usable exactly when it does not split the login. */
  lemma StepKeepsOneUsableIff(whole: bool, run: seq<Op>, lineage: nat)
    requires run != [] && Proper(run) && (whole ==> WholeSeconds(run))
    requires AtMostOneUsable(whole, run[..|run| - 1], lineage)
    ensures AtMostOneUsable(whole, run, lineage) <==> !Splits(whole, run, lineage)
  {
    var init, op := run[..|run| - 1], run[|run| - 1];
    if Splits(whole, run, lineage) {
      var a :| Unspent(init, a, lineage) && a != op.token && Certain(whole, After(init).issued[a], End(op));
      RefreshAdds(run, lineage, a);
      UsableIffUnspent(whole, run, a, lineage, End(op));
      UsableIffUnspent(whole, run, op.pair.refresh, lineage, End(op));
    } else {
      forall a, b, now | End(op) <= now && Usable(whole, run, a, lineage, now) && Usable(whole, run, b, lineage, now)
        ensures a == b
      {
        if a != b { TwoAreSplit(whole, run, lineage, a, b, now); }
      }
    }
  }

  lemma TwoAreSplit(whole: bool, run: seq<Op>, lineage: nat, a: string, b: string, now: real)
    requires run != [] && Proper(run) && (whole ==> WholeSeconds(run)) && End(run[|run| - 1]) <= now && a != b
    requires Usable(whole, run, a, lineage, now) && Usable(whole, run, b, lineage, now)
    requires AtMostOneUsable(whole, run[..|run| - 1], lineage)
    ensures Splits(whole, run, lineage)
  {
    var init, op := run[..|run| - 1], run[|run| - 1];
    PrefixProper(run);
    UsableIffUnspent(whole, run, a, lineage, now);
    UsableIffUnspent(whole, run, b, lineage, now);
    UnspentFrom(run, lineage, a, b);
    if Unspent(init, a, lineage) { OldUnspent(run, lineage, a); }
    if Unspent(init, b, lineage) { OldUnspent(run, lineage, b); }
    if Unspent(init, a, lineage) && Unspent(init, b, lineage) {
      UsableIffUnspent(whole, init, a, lineage, now);
      UsableIffUnspent(whole, init, b, lineage, now);
    } else {
      var c :| Unspent(init, c, lineage) && c != op.token && {a, b} == {c, op.pair.refresh};
      assert c in {a, b} && op.pair.refresh in {a, b};
      RefreshAdds(run, lineage, c);
    }
  }

  lemma {:induction false} NoneSplit(whole: bool, run: seq<Op>, lineage: nat, k: nat)
    requires Proper(run) && (whole ==> WholeSeconds(run)) && k <= |run|
    requires forall i | 0 < i <= |run| :: !Splits(whole, run[..i], lineage)
    ensures AtMostOneUsable(whole, run[..k], lineage)
  {
    PrefixAt(run, k);
    if k > 0 {
      NoneSplit(whole, run, lineage, k - 1);
      StepKeepsOneUsableIff(whole, run[..k], lineage);
    } else {
      assert After(run[..0]).issued == map[];
    }
  }

  /** Throughout a run, up to the margin, each login has at most one usable refresh token,
      exactly when no accepted refresh splits the login. Whether one would is decided by
      the claims of its tokens, the log of revocations, and the clock. */
  lemma OneUsableIff(whole: bool, run: seq<Op>, lineage: nat)
    requires Proper(run) && (whole ==> WholeSeconds(run))
    ensures (forall k | 0 <= k <= |run| :: AtMostOneUsable(whole, run[..k], lineage))
       <==> (forall k | 0 < k <= |run| :: !Splits(whole, run[..k], lineage))
  {
    if forall k | 0 <= k <= |run| :: AtMostOneUsable(whole, run[..k], lineage) {
      forall k | 0 < k <= |run| ensures !Splits(whole, run[..k], lineage) {
        PrefixAt(run, k);
        assert AtMostOneUsable(whole, run[..k - 1], lineage);
        StepKeepsOneUsableIff(whole, run[..k], lineage);
      }
    } else if forall i | 0 < i <= |run| :: !Splits(whole, run[..i], lineage) {
      var k :| 0 <= k <= |run| && !AtMostOneUsable(whole, run[..k], lineage);
      NoneSplit(whole, run, lineage, k);
    }
  }

  /** No revoked token is presented after its last revocation has ended and before it expires. */
  ghost predicate NoReplay(run: seq<Op>) {
    forall k | 0 <= k < |run| && run[k].Rotate? && run[k].token in Spent(run[..k]) :: !Accepted(run[..k], run[k])
  }

  lemma {:induction false} NoReplayLeavesOne(run: seq<Op>, lineage: nat, k: nat)
    requires Proper(run) && NoReplay(run) && k <= |run|
    ensures AtMostOneUnspent(run[..k], lineage)
  {
    PrefixAt(run, k);
    if k > 0 {
      NoReplayLeavesOne(run, lineage, k - 1);
      if Refreshes(run[..k], lineage) {
        assert Unspent(run[..k - 1], run[k - 1].token, lineage);
      }
      StepKeepsOneIff(run[..k], lineage);
    } else {
      assert After(run[..0]).issued == map[];
    }
  }

  /** Without such a replay each login has at most one usable refresh token, up to the margin. */
  lemma OneUsable(whole: bool, run: seq<Op>, lineage: nat)
    requires Proper(run) && (whole ==> WholeSeconds(run)) && NoReplay(run)
    ensures AtMostOneUsable(whole, run, lineage)
  {
    NoReplayLeavesOne(run, lineage, |run|);
    assert run[..|run|] == run;
    forall a, b, now | (run != [] ==> End(run[|run| - 1]) <= now)
      && Usable(whole, run, a, lineage, now) && Usable(whole, run, b, lineage, now)
      ensures a == b
    {
      UsableIffUnspent(whole, run, a, lineage, now);
      UsableIffUnspent(whole, run, b, lineage, now);
    }
  }

  /** The clock does not move between decoding a token and looking it up. */
  ghost predicate AtOnce(run: seq<Op>) {
    forall k | 0 <= k < |run| && run[k].Rotate? :: run[k].decoded == run[k].queried
  }

  /** On a clock of whole seconds a revoked token is never accepted by an atomic refresh ... */
  lemma WholeSecondsNoReplay(run: seq<Op>)
    requires Proper(run) && WholeSeconds(run) && AtOnce(run)
    ensures NoReplay(run)
  {
    forall k | 0 <= k < |run| && run[k].Rotate? && run[k].token in Spent(run[..k])
      ensures !Accepted(run[..k], run[k])
    {
      PrefixAt(run, k);
      UncertainUntil(true, run[..k], run[k].token);
    }
  }

  /** ... so that each login always has at most one usable refresh token until it expires. */
  lemma WholeSecondsOneUsable(run: seq<Op>, lineage: nat)
    requires Proper(run) && WholeSeconds(run) && AtOnce(run)
    ensures AtMostOneUsable(true, run, lineage)
  {
    WholeSecondsNoReplay(run);
    OneUsable(true, run, lineage);
  }

  const LOGIN: Op := Login(0, Pair("a1", 5, "r1", 10), 0.0)

  const FIRST: Op := Rotate("r1", Pair("a2", 5, "r2", 1000), true, 0.5, 0.5, 0.5, 0.5)

  const SECOND: Op := Rotate("r1", Pair("a3", 15, "r3", 1000), true, 9.75, 9.75, 9.75, 9.75)

  lemma AfterLast(run: seq<Op>, op: Op)
    ensures After(run + [op]) == Step(After(run), op)
  {
  }

  lemma AfterFirst()
    ensures var s := After([LOGIN, FIRST]);
      && s.store == map["r1" := 9.5]
      && "r1" in s.issued && s.issued["r1"] == Token(Refresh, 10, 0)
      && "r2" in s.issued && s.issued["r2"] == Token(Refresh, 1000, 0)
  {
    AfterLast([], LOGIN);
    AfterLast([LOGIN], FIRST);
    assert [] + [LOGIN] == [LOGIN] && [LOGIN] + [FIRST] == [LOGIN, FIRST];
    assert RemainingTtl(10, 0.5) == 9;
    assert After([LOGIN]).store == map[];
  }

  lemma SecondRotates(s: Service)
    requires s.store == map["r1" := 9.5]
    requires "r1" in s.issued && s.issued["r1"] == Token(Refresh, 10, 0)
    requires "r2" in s.issued && s.issued["r2"] == Token(Refresh, 1000, 0)
    ensures var s' := Step(s, SECOND);
      && "r2" in s'.issued && "r3" in s'.issued && s'.issued["r2"] == s'.issued["r3"] == Token(Refresh, 1000, 0)
      && !IsRevokedAt(s'.store, "r2", 10.0) && !IsRevokedAt(s'.store, "r3", 10.0)
  {
  }

  lemma ReplayIsProper()
    ensures Proper([LOGIN, FIRST, SECOND])
  {
  }

  /** The proviso is needed: a refresh token presented twice, the second time within its
      last second, leaves two usable tokens that descend from one login. */
  lemma TwoUsable(run: seq<Op>)
    requires run == [LOGIN, FIRST, SECOND]
    ensures Proper(run) && End(run[2]) < 10.0
    ensures var s := After(run);
      && "r2" in s.issued && "r3" in s.issued && s.issued["r2"] == s.issued["r3"] == Token(Refresh, 1000, 0)
      && !IsRevokedAt(s.store, "r2", 10.0) && !IsRevokedAt(s.store, "r3", 10.0)
  {
    ReplayIsProper();
    AfterFirst();
    AfterLast([LOGIN, FIRST], SECOND);
    assert [LOGIN, FIRST] + [SECOND] == run;
    SecondRotates(After([LOGIN, FIRST]));
  }
}
