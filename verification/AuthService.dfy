/** The authentication service (app/services/auth_service.py): its methods drive the
    throttle, the revocation store and the user table, and do exactly the steps that
    the run properties of LoginRuns, Tokens and Accounts are about. */
module AuthService {
  import opened Wrappers
  import opened Text
  import opened Throttle
  import LoginRuns
  import Tokens
  import Accounts

  datatype LoginResult = LoggedIn | LockedOut(retryAfter: int) | BadCredentials

  /** The throttle's identity for an e-mail address. */
  function Identity(email: string): string {
    Normalise(Lower(email))
  }

  /** Two spellings of an address share one throttle entry exactly when they differ only in
      letter case and surrounding blanks. */
  lemma OneIdentity(a: string, b: string)
    ensures Identity(a) == Identity(b) <==> SameButCase(Strip(a), Strip(b))
  {
    LowerStrip(a);
    LowerStrip(b);
    LowerTwice(Strip(a));
    LowerTwice(Strip(b));
    LowerIff(Strip(a), Strip(b));
  }

  /** The remaining lock time of Redis when it is positive; otherwise the whole seconds left
      of a local lock, and zero without one. */
  predicate RetryAfterIs(es: Entries, key: string, now: real, ttl: Reply<int>, seconds: int) {
    if ttl.Answer? && ttl.value > 0 then seconds == ttl.value
    else if Locked(es, key, now) then seconds as real <= es[key].lockedUntil - now < (seconds + 1) as real
    else seconds == 0
  }

  class Service {
    const throttle: RedisLoginThrottle
    const store: Tokens.InMemoryTokenStore
    var users: seq<Accounts.User>

    ghost predicate Valid() {
      throttle.Valid()
    }

    constructor (throttle: RedisLoginThrottle, store: Tokens.InMemoryTokenStore, users: seq<Accounts.User>)
      requires throttle.Valid()
      ensures Valid() && this.throttle == throttle && this.store == store && this.users == users
    {
      this.throttle := throttle;
      this.store := store;
      this.users := users;
    }

    function ThrottleConfig(): LoginRuns.Config {
      LoginRuns.Config(throttle.maxAttempts, throttle.lockoutSeconds)
    }

    /** One login. `verify` says whether the password matches the stored hash of a user;
        an unknown user is compared against a decoy and counts as a wrong password. */
    method Authenticate(email: string, verify: Accounts.User -> bool, lockFound: Reply<bool>, ttl: Reply<int>,
                        incr: Reply<int>, expireOk: bool, checked: real, compared: real, recorded: real)
      returns (r: LoginResult, sent: seq<Command>, ghost login: LoginRuns.Login)
      requires Valid()
      modifies throttle.fallback
      ensures Valid()
      ensures login == LoginRuns.Login(Identity(email), lockFound, checked, compared, recorded, login.outcome)
      ensures login.outcome ==
        (match Accounts.FindEmail(users, Lower(email))
         case None => LoginRuns.Wrong
         case Some(i) =>
           if !verify(users[i]) then LoginRuns.Wrong
           else if !users[i].active then LoginRuns.Inactive else LoginRuns.Correct)
      ensures throttle.fallback.entries == LoginRuns.Step(ThrottleConfig(), old(throttle.fallback.entries), login)
      ensures r.LockedOut? <==> !LoginRuns.Admitted(old(throttle.fallback.entries), login)
      ensures r.LockedOut? ==> RetryAfterIs(throttle.fallback.entries, Identity(email), compared, ttl, r.retryAfter)
      ensures r == LoggedIn
         <==> LoginRuns.Admitted(old(throttle.fallback.entries), login) && login.outcome == LoginRuns.Correct
      ensures sent ==
        if r.LockedOut? || login.outcome == LoginRuns.Inactive then []
        else if r == LoggedIn then [Delete(Identity(email))]
        else FailureCommands(Identity(email), incr, expireOk, throttle.maxAttempts, throttle.lockoutSeconds)
    {
      var address := Lower(email);
      var found := Accounts.FindEmail(users, address);
      login := LoginRuns.Login(Identity(email), lockFound, checked, compared, recorded,
        if found.None? || !verify(users[found.value]) then LoginRuns.Wrong
        else if !users[found.value].active then LoginRuns.Inactive else LoginRuns.Correct);
      sent := [];
      var locked := throttle.IsLocked(address, checked, lockFound);
      if locked {
        var seconds := RetryAfter(address, compared, ttl);
        return LockedOut(seconds), sent, login;
      }
      if found.None? || !verify(users[found.value]) {
        sent := throttle.RecordFailure(address, recorded, incr, expireOk);
        return BadCredentials, sent, login;
      }
      if !users[found.value].active {
        return BadCredentials, sent, login;
      }
      sent := throttle.RecordSuccess(address);
      return LoggedIn, sent, login;
    }

    method RetryAfter(address: string, now: real, ttl: Reply<int>) returns (seconds: int)
      requires Valid()
      ensures seconds >= 0
      ensures RetryAfterIs(throttle.fallback.entries, Normalise(address), now, ttl, seconds)
    {
      if ttl.Answer? && ttl.value > 0 {
        return ttl.value;
      }
      seconds := throttle.fallback.RetryAfter(address, now);
    }

    /** Exchange a refresh token for a new pair; `issued` are the tokens the signing key
        vouches for, and `active` says whether the subject is a known active user. */
    method Refresh(ghost issued: map<string, Tokens.Token>, token: string, claims: Option<Tokens.Token>,
                   pair: Tokens.Pair, active: bool, decoded: real, queried: real, computed: real, stored: real)
      returns (ok: bool)
      requires claims == if token in issued then Some(issued[token]) else None
      modifies store
      ensures var s := Tokens.Service(old(store.revoked), issued);
        var op := Tokens.Rotate(token, pair, active, decoded, queried, computed, stored);
        && ok == Tokens.Rotates(s, op)
        && store.revoked == Tokens.Step(s, op).store
    {
      if claims.None? || claims.value.kind != Tokens.Refresh || decoded >= claims.value.expires as real {
        return false;
      }
      var revoked := store.IsRevoked(token, queried);
      if revoked || !active {
        return false;
      }
      store.Revoke(token, Tokens.RemainingTtl(claims.value.expires, computed), stored);
      return true;
    }

    /** Best effort: whatever does not decode is ignored. */
    method Logout(ghost issued: map<string, Tokens.Token>, token: string, claims: Option<Tokens.Token>,
                  access: Option<string>, accessClaims: Option<Tokens.Token>,
                  decoded: real, computed: real, stored: real)
      requires claims == if token in issued then Some(issued[token]) else None
      requires accessClaims == if access.Some? && access.value in issued then Some(issued[access.value]) else None
      modifies store
      ensures store.revoked == Tokens.Step(Tokens.Service(old(store.revoked), issued),
                                           Tokens.Logout(token, access, decoded, computed, stored)).store
    {
      if claims.Some? && claims.value.kind == Tokens.Refresh && decoded < claims.value.expires as real {
        store.Revoke(token, Tokens.RemainingTtl(claims.value.expires, computed), stored);
      }
      if access.Some? && accessClaims.Some? && accessClaims.value.kind == Tokens.Access
         && decoded < accessClaims.value.expires as real {
        store.Revoke(access.value, Tokens.RemainingTtl(accessClaims.value.expires, computed), stored);
      }
    }

    method CountActiveWithRole(role: Accounts.Role) returns (n: nat)
      ensures n == Accounts.CountActive(users, role)
    {
      n := 0;
      for k := 0 to |users|
        invariant n == Accounts.CountActive(users[..k], role)
      {
        assert users[..k + 1][..k] == users[..k];
        if users[k].role == role && users[k].active {
          n := n + 1;
        }
      }
      assert users[..|users|] == users;
    }

    method SetUserRole(actor: string, target: string, role: Accounts.Role) returns (r: Accounts.Change)
      modifies this
      ensures r == Accounts.WithRole(old(users), actor, target, role)
      ensures users == Accounts.Step(old(users), Accounts.SetRole(actor, target, role))
    {
      var found := Accounts.FindId(users, target);
      if found.None? {
        return Accounts.Refused(Accounts.NotFound);
      }
      var i := found.value;
      if target == actor && role != Accounts.Admin {
        return Accounts.Refused(Accounts.OwnAdminRole);
      }
      if users[i].role == Accounts.Admin && role != Accounts.Admin {
        var n := CountActiveWithRole(Accounts.Admin);
        if n <= 1 {
          return Accounts.Refused(Accounts.LastAdmin);
        }
      }
      users := users[i := users[i].(role := role)];
      return Accounts.Changed(users);
    }

    method SetUserActive(actor: string, target: string, active: bool) returns (r: Accounts.Change)
      modifies this
      ensures r == Accounts.WithActive(old(users), actor, target, active)
      ensures users == Accounts.Step(old(users), Accounts.SetActive(actor, target, active))
    {
      var found := Accounts.FindId(users, target);
      if found.None? {
        return Accounts.Refused(Accounts.NotFound);
      }
      var i := found.value;
      if target == actor && !active {
        return Accounts.Refused(Accounts.OwnAccount);
      }
      if !active && users[i].role == Accounts.Admin {
        var n := CountActiveWithRole(Accounts.Admin);
        if n <= 1 {
          return Accounts.Refused(Accounts.LastAdmin);
        }
      }
      users := users[i := users[i].(active := active)];
      return Accounts.Changed(users);
    }

    method Register(open: bool, id: string, email: string, role: Accounts.Role) returns (r: Accounts.Change)
      modifies this
      ensures r == Accounts.Registered(old(users), open, id, email, role)
      ensures users == Accounts.Step(old(users), Accounts.Register(open, id, email, role))
    {
      if !open {
        return Accounts.Refused(Accounts.RegistrationClosed);
      }
      var address := Lower(email);
      if Accounts.FindEmail(users, address).Some? {
        return Accounts.Refused(Accounts.EmailTaken);
      }
      users := users + [Accounts.User(id, address, role, true)];
      return Accounts.Changed(users);
    }
  }
}
