/** User administration (app/services/auth_service.py) and the admin bootstrap script
    (app/scripts/create_admin.py): no run of them leaves a deployment without an admin. */
module Accounts {
  import opened Wrappers
  import opened Text

  datatype Role = Viewer | Analyst | Admin

  datatype User = User(id: string, email: string, role: Role, active: bool)

  datatype Refusal = NotFound | OwnAdminRole | OwnAccount | LastAdmin | RegistrationClosed | EmailTaken

  datatype Change = Changed(users: seq<User>) | Refused(why: Refusal)

  function FindId(users: seq<User>, id: string): (r: Option<nat>)
    ensures r.Some? ==> r.value < |users| && users[r.value].id == id
  {
    if users == [] then None
    else
      var n := |users| - 1;
      if users[n].id == id then Some(n) else FindId(users[..n], id)
  }

  function FindEmail(users: seq<User>, email: string): (r: Option<nat>)
    ensures r.Some? ==> r.value < |users| && users[r.value].email == email
  {
    if users == [] then None
    else
      var n := |users| - 1;
      if users[n].email == email then Some(n) else FindEmail(users[..n], email)
  }

  predicate IsActiveAdmin(u: User) {
    u.role == Admin && u.active
  }

  /** The active users of a role. */
  function CountActive(users: seq<User>, role: Role): nat {
    if users == [] then 0
    else
      var u := users[|users| - 1];
      CountActive(users[..|users| - 1], role) + if u.role == role && u.active then 1 else 0
  }

  function CountActiveAdmins(users: seq<User>): nat {
    CountActive(users, Admin)
  }

  // ------------------------------------------------------------- the transitions

  function WithRole(users: seq<User>, actor: string, target: string, role: Role): Change {
    match FindId(users, target)
    case None => Refused(NotFound)
    case Some(i) =>
      if target == actor && role != Admin then Refused(OwnAdminRole)
      else if users[i].role == Admin && role != Admin && CountActiveAdmins(users) <= 1 then Refused(LastAdmin)
      else Changed(users[i := users[i].(role := role)])
  }

  function WithActive(users: seq<User>, actor: string, target: string, active: bool): Change {
    match FindId(users, target)
    case None => Refused(NotFound)
    case Some(i) =>
      if target == actor && !active then Refused(OwnAccount)
      else if !active && users[i].role == Admin && CountActiveAdmins(users) <= 1 then Refused(LastAdmin)
      else Changed(users[i := users[i].(active := active)])
  }

  function Registered(users: seq<User>, open: bool, id: string, email: string, role: Role): Change {
    if !open then Refused(RegistrationClosed)
    else if FindEmail(users, Lower(email)).Some? then Refused(EmailTaken)
    else Changed(users + [User(id, Lower(email), role, true)])
  }

  function Bootstrapped(users: seq<User>, id: string, email: string): seq<User> {
    match FindEmail(users, Lower(email))
    case None => users + [User(id, Lower(email), Admin, true)]
    case Some(i) => users[i := users[i].(role := Admin, active := true)]
  }

  datatype Op =
    | SetRole(actor: string, target: string, role: Role)
    | SetActive(actor: string, target: string, active: bool)
    | Register(open: bool, id: string, email: string, role: Role)
    | Bootstrap(id: string, email: string)

  function Outcome(users: seq<User>, op: Op): Change {
    match op
    case SetRole(actor, target, role) => WithRole(users, actor, target, role)
    case SetActive(actor, target, active) => WithActive(users, actor, target, active)
    case Register(open, id, email, role) => Registered(users, open, id, email, role)
    case Bootstrap(id, email) => Changed(Bootstrapped(users, id, email))
  }

  function Step(users: seq<User>, op: Op): seq<User> {
    match Outcome(users, op) case Changed(us) => us case Refused(_) => users
  }

  function After(users: seq<User>, run: seq<Op>): seq<User> {
    if run == [] then users else Step(After(users, run[..|run| - 1]), run[|run| - 1])
  }

  // ------------------------------------------------------------------ the lookups

  lemma {:induction false} IdNotFound(users: seq<User>, id: string)
    ensures FindId(users, id).None? <==> forall i | 0 <= i < |users| :: users[i].id != id
  {
    if users != [] {
      IdNotFound(users[..|users| - 1], id);
      assert forall i | 0 <= i < |users| - 1 :: users[..|users| - 1][i] == users[i];
    }
  }

  lemma {:induction false} EmailNotFound(users: seq<User>, email: string)
    ensures FindEmail(users, email).None? <==> forall i | 0 <= i < |users| :: users[i].email != email
  {
    if users != [] {
      EmailNotFound(users[..|users| - 1], email);
      assert forall i | 0 <= i < |users| - 1 :: users[..|users| - 1][i] == users[i];
    }
  }

  // ----------------------------------------------------------------- the counting

  lemma {:induction false} CountUpdate(users: seq<User>, i: nat, u: User)
    requires i < |users|
    ensures CountActiveAdmins(users[i := u]) + (if IsActiveAdmin(users[i]) then 1 else 0)
         == CountActiveAdmins(users) + (if IsActiveAdmin(u) then 1 else 0)
  {
    var n := |users| - 1;
    if i == n {
      assert users[i := u][..n] == users[..n];
    } else {
      assert users[i := u][..n] == users[..n][i := u];
      CountUpdate(users[..n], i, u);
    }
  }

  lemma {:induction false} CountSome(users: seq<User>, i: nat)
    requires i < |users| && IsActiveAdmin(users[i])
    ensures CountActiveAdmins(users) >= 1
  {
    if i < |users| - 1 {
      CountSome(users[..|users| - 1], i);
    }
  }

  /** Each operation keeps an active admin if there was one. */
  lemma StepKeepsAdmin(users: seq<User>, op: Op)
    requires CountActiveAdmins(users) >= 1
    ensures CountActiveAdmins(Step(users, op)) >= 1
  {
    match op {
      case SetRole(_, target, role) =>
        if i :| FindId(users, target) == Some(i) {
          CountUpdate(users, i, users[i].(role := role));
        }
      case SetActive(_, target, active) =>
        if i :| FindId(users, target) == Some(i) {
          CountUpdate(users, i, users[i].(active := active));
        }
      case Register(_, id, email, role) =>
        assert (users + [User(id, Lower(email), role, true)])[..|users|] == users;
      case Bootstrap(id, email) =>
        BootstrapGivesAdmin(users, id, email);
    }
  }

  /** The bootstrap leaves the named account an active admin, whatever came before. */
  lemma BootstrapGivesAdmin(users: seq<User>, id: string, email: string)
    ensures var users' := Bootstrapped(users, id, email);
      && (exists i :: 0 <= i < |users'| && users'[i].email == Lower(email) && IsActiveAdmin(users'[i]))
      && CountActiveAdmins(users') >= 1
  {
    var users' := Bootstrapped(users, id, email);
    var k := match FindEmail(users, Lower(email)) case None => |users| case Some(i) => i;
    assert users'[k].email == Lower(email) && IsActiveAdmin(users'[k]);
    CountSome(users', k);
  }

  /** There is an active admin exactly when the count is not zero. */
  lemma {:induction false} CountedIff(users: seq<User>)
    ensures CountActiveAdmins(users) >= 1 <==> exists i :: 0 <= i < |users| && users[i].role == Admin && users[i].active
  {
    if i :| 0 <= i < |users| && users[i].role == Admin && users[i].active {
      CountSome(users, i);
    }
    if users != [] && CountActiveAdmins(users[..|users| - 1]) >= 1 {
      CountedIff(users[..|users| - 1]);
      assert forall i | 0 <= i < |users| - 1 :: users[..|users| - 1][i] == users[i];
    }
  }

  lemma {:induction false} RunKeepsCount(users: seq<User>, run: seq<Op>)
    requires CountActiveAdmins(users) >= 1
    ensures CountActiveAdmins(After(users, run)) >= 1
  {
    if run != [] {
      RunKeepsCount(users, run[..|run| - 1]);
      StepKeepsAdmin(After(users, run[..|run| - 1]), run[|run| - 1]);
    }
  }

  /** From at least one active admin, every run keeps at least one. */
  lemma AlwaysAnAdmin(users: seq<User>, run: seq<Op>)
    requires exists i :: 0 <= i < |users| && users[i].role == Admin && users[i].active
    ensures var users' := After(users, run);
      exists i :: 0 <= i < |users'| && users'[i].role == Admin && users'[i].active
  {
    CountedIff(users);
    RunKeepsCount(users, run);
    CountedIff(After(users, run));
  }

  // ----------------------------------------------------------- what an operation changes

  /** The i-th user may have become another; all others are as they were. */
  ghost predicate OnlyChanged(users: seq<User>, users': seq<User>, i: nat) {
    |users'| == |users| && forall k | 0 <= k < |users| && k != i :: users'[k] == users[k]
  }

  /** A role change gives the user that role and changes nothing else, unless it would take
      the caller's own admin role or that of the only active admin. */
  lemma SetRoleEffect(users: seq<User>, actor: string, i: nat, role: Role)
    requires Keyed(users) && i < |users|
    ensures var users' := Step(users, SetRole(actor, users[i].id, role));
      && OnlyChanged(users, users', i)
      && users'[i].id == users[i].id && users'[i].email == users[i].email && users'[i].active == users[i].active
      && users'[i].role == (
           if role != Admin && (users[i].id == actor || (users[i].role == Admin && CountActiveAdmins(users) <= 1))
           then users[i].role else role)
  {
    IdNotFound(users, users[i].id);
  }

  /** The same for activation. */
  lemma SetActiveEffect(users: seq<User>, actor: string, i: nat, active: bool)
    requires Keyed(users) && i < |users|
    ensures var users' := Step(users, SetActive(actor, users[i].id, active));
      && OnlyChanged(users, users', i)
      && users'[i].id == users[i].id && users'[i].email == users[i].email && users'[i].role == users[i].role
      && users'[i].active == (
           if !active && (users[i].id == actor || (users[i].role == Admin && CountActiveAdmins(users) <= 1))
           then users[i].active else active)
  {
    IdNotFound(users, users[i].id);
  }

  /** An unknown user is not changed, and neither is anyone else. */
  lemma UnknownUser(users: seq<User>, actor: string, target: string, role: Role, active: bool)
    requires forall i | 0 <= i < |users| :: users[i].id != target
    ensures Outcome(users, SetRole(actor, target, role)) == Refused(NotFound)
    ensures Outcome(users, SetActive(actor, target, active)) == Refused(NotFound)
  {
    IdNotFound(users, target);
  }

  /** Registration adds one active user with the role given, when it is open and the
      address is new; nobody else is changed. */
  lemma RegisterEffect(users: seq<User>, open: bool, id: string, email: string, role: Role)
    ensures Step(users, Register(open, id, email, role)) ==
      if open && forall i | 0 <= i < |users| :: users[i].email != Lower(email)
      then users + [User(id, Lower(email), role, true)] else users
  {
    EmailNotFound(users, Lower(email));
  }

  /** User `i` became an active admin, and nobody else is changed. */
  ghost predicate MadeAdmin(users: seq<User>, users': seq<User>, i: nat)
    requires i < |users|
  {
    OnlyChanged(users, users', i) && users'[i] == User(users[i].id, users[i].email, Admin, true)
  }

  /** The bootstrap makes the account of that address an active admin, adding it if there
      is none; nobody else is changed. */
  lemma BootstrapEffect(users: seq<User>, id: string, email: string)
    ensures var users' := Step(users, Bootstrap(id, email));
      if forall i | 0 <= i < |users| :: users[i].email != Lower(email)
      then users' == users + [User(id, Lower(email), Admin, true)]
      else exists i | 0 <= i < |users| && users[i].email == Lower(email) :: MadeAdmin(users, users', i)
  {
    EmailNotFound(users, Lower(email));
  }

  /** An operation that hands out the admin role. */
  predicate GrantsAdmin(op: Op) {
    match op
    case SetRole(_, _, role) => role == Admin
    case Register(_, _, _, role) => role == Admin
    case SetActive(_, _, _) => false
    case Bootstrap(_, _) => true
  }

  /** Every admin after it was one before, at the same place with the same id. */
  ghost predicate NoNewAdmin(users: seq<User>, users': seq<User>) {
    |users| <= |users'| && forall k | 0 <= k < |users'| && users'[k].role == Admin ::
      k < |users| && users[k].role == Admin && users[k].id == users'[k].id
  }

  lemma StepGrantsNone(users: seq<User>, op: Op)
    requires !GrantsAdmin(op)
    ensures NoNewAdmin(users, Step(users, op))
  {
  }

  /** Nobody becomes an admin by a run of operations that do not hand out that role. */
  lemma {:induction false} NobodyBecomesAdmin(users: seq<User>, run: seq<Op>)
    requires forall i | 0 <= i < |run| :: !GrantsAdmin(run[i])
    ensures NoNewAdmin(users, After(users, run))
  {
    if run != [] {
      NobodyBecomesAdmin(users, run[..|run| - 1]);
      StepGrantsNone(After(users, run[..|run| - 1]), run[|run| - 1]);
    }
  }

  lemma StepReactivatesNone(users: seq<User>, op: Op, k: nat)
    requires k < |users| && !users[k].active
    requires !op.Bootstrap? && (op.SetActive? ==> !op.active)
    ensures k < |Step(users, op)| && !Step(users, op)[k].active
  {
  }

  /** A deactivated account stays so in a run in which nobody is activated or bootstrapped. */
  lemma {:induction false} NobodyIsReactivated(users: seq<User>, run: seq<Op>, k: nat)
    requires k < |users| && !users[k].active
    requires forall i | 0 <= i < |run| :: !run[i].Bootstrap? && (run[i].SetActive? ==> !run[i].active)
    ensures k < |After(users, run)| && !After(users, run)[k].active
  {
    if run != [] {
      NobodyIsReactivated(users, run[..|run| - 1], k);
      StepReactivatesNone(After(users, run[..|run| - 1]), run[|run| - 1], k);
    }
  }

  ghost predicate Keyed(users: seq<User>) {
    forall i, j | 0 <= i < j < |users| :: users[i].id != users[j].id && users[i].email != users[j].email
  }

  /** Identifiers are never reused. */
  ghost predicate FreshIds(users: seq<User>, run: seq<Op>) {
    forall k | 0 <= k < |run| && (run[k].Register? || run[k].Bootstrap?) ::
      FindId(After(users, run[..k]), run[k].id).None?
  }

  lemma StepKeepsKeyed(users: seq<User>, op: Op)
    requires Keyed(users)
    requires op.Register? || op.Bootstrap? ==> FindId(users, op.id).None?
    ensures Keyed(Step(users, op))
  {
    match op {
      case SetRole(_, _, _) =>
      case SetActive(_, _, _) =>
      case Register(_, id, email, _) =>
        IdNotFound(users, id);
        EmailNotFound(users, Lower(email));
      case Bootstrap(id, email) =>
        IdNotFound(users, id);
        EmailNotFound(users, Lower(email));
    }
  }

  /** Ids and e-mail addresses stay unique. */
  lemma {:induction false} AlwaysKeyed(users: seq<User>, run: seq<Op>)
    requires Keyed(users) && FreshIds(users, run)
    ensures Keyed(After(users, run))
  {
    if run != [] {
      var init := run[..|run| - 1];
      assert forall k | 0 <= k < |init| :: init[..k] == run[..k] && init[k] == run[k];
      AlwaysKeyed(users, init);
      StepKeepsKeyed(After(users, init), run[|run| - 1]);
    }
  }

  /** When the guard refuses to change an admin other than the caller for the sake of the
      last active admin, no active admin would be left, and the other way round: except that
      it also protects a deactivated admin while exactly one active admin exists. */
  lemma GuardIsExact(users: seq<User>, actor: string, i: nat, role: Role)
    requires Keyed(users) && i < |users| && users[i].role == Admin && users[i].id != actor && role != Admin
    ensures var refused, none :=
        WithRole(users, actor, users[i].id, role) == Refused(LastAdmin),
        CountActiveAdmins(users[i := users[i].(role := role)]) == 0;
      refused == none <==> users[i].active || CountActiveAdmins(users) != 1
    ensures var refused, none :=
        WithActive(users, actor, users[i].id, false) == Refused(LastAdmin),
        CountActiveAdmins(users[i := users[i].(active := false)]) == 0;
      refused == none <==> users[i].active || CountActiveAdmins(users) != 1
  {
    IdNotFound(users, users[i].id);
    CountUpdate(users, i, users[i].(role := role));
    CountUpdate(users, i, users[i].(active := false));
    if users[i].active {
      CountSome(users, i);
    }
  }

  /** The exception is real: the one active admin cannot demote a deactivated one, although
      an active admin would stay. */
  lemma DeactivatedAdminIsProtected(users: seq<User>)
    requires users == [User("a", "a@example.com", Admin, true), User("b", "b@example.com", Admin, false)]
    ensures WithRole(users, "a", "b", Viewer) == Refused(LastAdmin)
    ensures WithActive(users, "a", "b", false) == Refused(LastAdmin)
    ensures CountActiveAdmins(users[1 := users[1].(role := Viewer)]) == 1
    ensures CountActiveAdmins(users[1 := users[1].(active := false)]) == 1
  {
    var one := users[..1];
    assert one[..0] == [] && one[0] == users[0];
    assert CountActive(one, Admin) == CountActive([], Admin) + 1;
    assert CountActive(users, Admin) == CountActive(one, Admin);
    CountUpdate(users, 1, users[1].(role := Viewer));
    CountUpdate(users, 1, users[1].(active := false));
  }

  /** Addresses are stored in lower case. */
  ghost predicate LowerCased(users: seq<User>) {
    forall i | 0 <= i < |users| :: users[i].email == Lower(users[i].email)
  }

  lemma {:induction false} AddressesAreLower(users: seq<User>, run: seq<Op>)
    requires LowerCased(users)
    ensures LowerCased(After(users, run))
  {
    if run != [] {
      AddressesAreLower(users, run[..|run| - 1]);
      StepLower(After(users, run[..|run| - 1]), run[|run| - 1]);
    }
  }

  lemma StepLower(users: seq<User>, op: Op)
    requires LowerCased(users)
    ensures LowerCased(Step(users, op))
  {
    match op {
      case Register(_, _, email, _) => LowerTwice(email);
      case Bootstrap(_, email) => LowerTwice(email);
      case _ =>
    }
  }

  /** An account is found under every spelling of its address, and under nothing else. */
  lemma AnySpelling(users: seq<User>, email: string, i: nat)
    requires Keyed(users) && LowerCased(users) && i < |users|
    ensures FindEmail(users, Lower(email)) == Some(i) <==> SameButCase(users[i].email, email)
  {
    EmailNotFound(users, Lower(email));
    LowerIff(users[i].email, email);
  }

  /** A second account under another spelling of a taken address is refused. */
  lemma NoSecondSpelling(users: seq<User>, id: string, email: string, role: Role, i: nat)
    requires LowerCased(users) && i < |users| && SameButCase(users[i].email, email)
    ensures Outcome(users, Register(true, id, email, role)) == Refused(EmailTaken)
  {
    EmailNotFound(users, Lower(email));
    LowerIff(users[i].email, email);
  }
}
