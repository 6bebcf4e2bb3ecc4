/**
 Sessions: a token carries a user, a session version and an active tenant, and
 counts only while its version is the one stored with the user
 (server/auth.go:112-262, server/auth_credentials.go:77-230, users.go:187-267).

 Tokens are the claims themselves: signing and verifying a token is assumed to
 give back what was signed.  Between any two store calls of one request other
 requests may commit transactions; `OtherTransactions` stands there for them.
 */
module Sessions {
  import opened Wrappers
  import opened Records
  import opened Access
  import opened AccessSafety
  import opened AccessStore
  import opened Interleaving

  datatype Claim = Claim(user: UserId, version: nat, tenant: Option<TenantId>)

  datatype Session = Session(
    user: UserId, account: User, memberships: seq<Membership>, activeTenant: Option<TenantId>)

  predicate SameUserSession(claim: Claim, user: UserId, account: User) {
    claim.user == user && claim.version == account.sessionVersion
  }

  /** The first check that every request with a token has to pass. */
  predicate Resolves(claim: Claim, db: Db) {
    claim.user in db.users && SameUserSession(claim, claim.user, db.users[claim.user])
  }

  // ----- which transactions end sessions

  predicate EndsSessions(db: Db, action: Action, user: UserId) {
    match action
    case UpdateMembership(update) => update.membership in db.memberships
        && db.memberships[update.membership].user == user
    case AcceptInvitation(a) => a.existing == Some(user)
    case Logout(u) => u == user
    case SwitchTenant(u, _) => u == user
    case _ => false
  }

  /**
   A committed transaction raises the version of a user by one if it ends its sessions,
   and leaves it alone otherwise.
   */
  lemma VersionRaisedExactlyWhenSessionsEnd(db: Db, action: Action, after: Db, user: UserId)
    requires Inv(db) && Commits(db, action, after) && user in db.users
    ensures user in after.users
    ensures after.users[user].sessionVersion ==
            db.users[user].sessionVersion + if EndsSessions(db, action, user) then 1 else 0
  {
    if action.AcceptInvitation? {
      assert after == AcceptEffect(db, action.acceptance);
    }
  }

  /**
   After a committed membership update, acceptance by an existing account,
   logout or tenant switch of a user, no token with the version of before, or an
   older one, ever resolves again, however late it was issued.
   */
  lemma EndedSessionsStayEnded(states: seq<Db>, i: nat, j: nat, action: Action, claim: Claim)
    requires Run(states) && i < j < |states|
    requires Commits(states[i], action, states[i + 1]) && EndsSessions(states[i], action, claim.user)
    requires claim.user in states[i].users && claim.version <= states[i].users[claim.user].sessionVersion
    ensures !Resolves(claim, states[j])
  {
    RunKeeps(states, i, i);
    VersionRaisedExactlyWhenSessionsEnd(states[i], action, states[i + 1], claim.user);
    RunKeeps(states, i + 1, j);
    assert UserKept(states[i + 1].users[claim.user], states[j].users[claim.user]);
  }

  /** The same for every interleaving of transactions that run statement by statement. */
  lemma EndedSessionsStayEndedInterleaved(states: seq<Sys>, moves: seq<Move>, i: nat, j: nat, action: Action,
          claim: Claim)
    requires SysRun(states, moves, true) && i < j < |states|
    requires Commits(states[i].db, action, states[i + 1].db) && EndsSessions(states[i].db, action, claim.user)
    requires claim.user in states[i].db.users && claim.version <= states[i].db.users[claim.user].sessionVersion
    ensures !Resolves(claim, states[j].db)
  {
    InterleavedRunsAreSerial(states, moves);
    EndedSessionsStayEnded(Tables(states), i, j, action, claim);
  }

  // ----- how long a token lives

  /** Between two states of a run a transaction committed that ends the user's sessions. */
  ghost predicate EndsAt(states: seq<Db>, i: nat, user: UserId)
    requires i + 1 < |states|
  {
    exists action :: Commits(states[i], action, states[i + 1]) && EndsSessions(states[i], action, user)
  }

  lemma EndsRaiseVersion(states: seq<Db>, i: nat, user: UserId)
    requires Run(states) && i + 1 < |states| && user in states[i].users
    ensures user in states[i + 1].users
    ensures EndsAt(states, i, user) ==>
              states[i + 1].users[user].sessionVersion == states[i].users[user].sessionVersion + 1
    ensures !EndsAt(states, i, user) ==>
              states[i + 1].users[user].sessionVersion == states[i].users[user].sessionVersion
  {
    RunKeepsInv(states, i);
    if EndsAt(states, i, user) {
      var action :| Commits(states[i], action, states[i + 1]) && EndsSessions(states[i], action, user);
      VersionRaisedExactlyWhenSessionsEnd(states[i], action, states[i + 1], user);
    } else {
      assert CommittedAt(states, i);
      if states[i] != states[i + 1] {
        var action :| Commits(states[i], action, states[i + 1]);
        VersionRaisedExactlyWhenSessionsEnd(states[i], action, states[i + 1], user);
      }
    }
  }

  /** A counter that steps exactly where marked is back at its value exactly if nothing was marked since. */
  lemma {:induction false} CounterStandsExactly(values: seq<nat>, marked: seq<bool>, i: nat, j: nat)
    requires |values| == |marked| + 1 && i <= j < |values|
    requires forall k :: 0 <= k < |marked| && i <= k ==> values[k + 1] == values[k] + if marked[k] then 1 else 0
    ensures values[i] <= values[j]
    ensures values[i] == values[j] <==> forall k :: i <= k < j ==> !marked[k]
  {
    if i < j {
      CounterStandsExactly(values, marked, i, j - 1);
    }
  }

  lemma {:induction false} UserStays(states: seq<Db>, i: nat, j: nat, user: UserId)
    requires Run(states) && i <= j < |states| && user in states[i].users
    ensures user in states[j].users
  {
    RunKeeps(states, i, j);
    assert UserKept(states[i].users[user], states[j].users[user]);
  }

  function VersionOf(db: Db, user: UserId): nat {
    if user in db.users then db.users[user].sessionVersion else 0
  }

  ghost predicate NoEndBetween(states: seq<Db>, i: nat, j: nat, user: UserId)
    requires j < |states|
  {
    forall k :: i <= k < j ==> !EndsAt(states, k, user)
  }

  /** A token that resolves goes on resolving exactly until a transaction ends the user's sessions. */
  lemma TokenLivesExactly(states: seq<Db>, i: nat, j: nat, claim: Claim)
    requires Run(states) && i <= j < |states| && Resolves(claim, states[i])
    ensures Resolves(claim, states[j]) <==> NoEndBetween(states, i, j, claim.user)
  {
    var user := claim.user;
    var versions := seq(|states|, k requires 0 <= k < |states| => VersionOf(states[k], user));
    var ends := seq(|states| - 1, k requires 0 <= k < |states| - 1 => EndsAt(states, k, user));
    forall k | i <= k < |ends| ensures versions[k + 1] == versions[k] + if ends[k] then 1 else 0 {
      UserStays(states, i, k, user);
      EndsRaiseVersion(states, k, user);
    }
    CounterStandsExactly(versions, ends, i, j);
    assert forall k :: i <= k < j ==> (ends[k] <==> EndsAt(states, k, user));
    UserStays(states, i, j, user);
  }

  /**
   A tenant switch commits at `rotation` and another transaction that ends the
   user's sessions at `ending`.  The switched token resolves once both are through
   exactly if the rotation was the later one: switching does not look at the version
   of its session again, so it outlives a logout that came in between.
   */
  lemma SwitchAgainstEnding(states: seq<Db>, rotation: nat, ending: nat, user: UserId, tenant: TenantId)
    requires Run(states) && rotation != ending && rotation + 1 < |states| && ending + 1 < |states|
    requires Commits(states[rotation], Action.SwitchTenant(user, tenant), states[rotation + 1])
    requires EndsAt(states, ending, user)
    ensures Resolves(SwitchedClaim(states[rotation + 1], user, tenant), states[rotation + 1])
    ensures var both := if rotation < ending then ending + 1 else rotation + 1;
            Resolves(SwitchedClaim(states[rotation + 1], user, tenant), states[both]) <==> ending < rotation
  {
    RotatedTokenResolves(states[rotation], user, tenant, states[rotation + 1]);
    if rotation < ending {
      EndedTokenIsDead(states, rotation + 1, ending, SwitchedClaim(states[rotation + 1], user, tenant));
    }
  }

  lemma RotatedTokenResolves(before: Db, user: UserId, tenant: TenantId, after: Db)
    requires Commits(before, Action.SwitchTenant(user, tenant), after)
    ensures Resolves(SwitchedClaim(after, user, tenant), after)
  {
  }

  lemma EndedTokenIsDead(states: seq<Db>, i: nat, ending: nat, claim: Claim)
    requires Run(states) && i <= ending && ending + 1 < |states|
    requires Resolves(claim, states[i]) && EndsAt(states, ending, claim.user)
    ensures !Resolves(claim, states[ending + 1])
  {
    TokenLivesExactly(states, i, ending + 1, claim);
    assert !NoEndBetween(states, i, ending + 1, claim.user);
  }

  /** The token that a committed rotation hands out. */
  function SwitchedClaim(db: Db, user: UserId, tenant: TenantId): Claim {
    Claim(user, VersionOf(db, user), Some(tenant))
  }

  /**
   The run: a session is resolved and its user found to be an active member of the
   tenant; the user logs out; the switch that was started with that session commits.
   */
  lemma SwitchOutlivesLogout(db: Db, session: Session, tenant: TenantId, m: MembershipId) returns (states: seq<Db>)
    requires Inv(db) && Resolves(Issue(session), db) && db.users[session.user] == session.account
    requires !session.account.superAdministrator && IsActiveMember(db.memberships, m, tenant, session.user)
    ensures Run(states) && |states| == 3 && states[0] == db
    ensures Commits(states[0], Action.Logout(session.user), states[1])
    ensures Commits(states[1], Action.SwitchTenant(session.user, tenant), states[2])
    ensures !Resolves(Issue(session), states[1]) && !Resolves(Issue(session), states[2])
    ensures Resolves(SwitchedClaim(states[2], session.user, tenant), states[2])
  {
    var loggedOut := Effect(db, Action.Logout(session.user));
    var switched := Effect(loggedOut, Action.SwitchTenant(session.user, tenant));
    states := [db, loggedOut, switched];
    assert Commits(db, Action.Logout(session.user), loggedOut);
    assert Commits(loggedOut, Action.SwitchTenant(session.user, tenant), switched);
    assert CommittedAt(states, 0) && CommittedAt(states, 1);
  }

  // ----- building a session

  /** The session that fits the memberships read: its tenant is one of theirs, the one asked for or else the first. */
  ghost predicate Fits(session: Session, user: UserId, account: User, rows: seq<Membership>,
          requested: Option<TenantId>) {
    && session.user == user && session.account == account
    && if account.superAdministrator then session.memberships == [] && session.activeTenant.None?
       else
         && session.memberships == rows
         && session.activeTenant.Some?
         && (exists k :: 0 <= k < |rows| && rows[k].tenant == session.activeTenant.value)
         && session.activeTenant == if requested.Some? then requested else Some(rows[0].tenant)
  }

  /** An active membership of the user, in the requested tenant if one is requested. */
  predicate MayEnter(memberships: map<MembershipId, Membership>, user: UserId, requested: Option<TenantId>) {
    exists m :: m in memberships && memberships[m].user == user && memberships[m].status == Active
                && (requested.Some? ==> memberships[m].tenant == requested.value)
  }

  /** Fails exactly for a user who is no super administrator and has no membership to enter with. */
  method SessionForUser(store: Store, user: UserId, account: User, requested: Option<TenantId>)
    returns (r: Result<Session, Error>, ghost rows: seq<Membership>)
    ensures forall row :: row in rows ==> row.user == user && row.status == Active
    ensures forall row :: row in rows ==> exists m :: m in store.memberships && store.memberships[m] == row
    ensures r.Ok? ==> Fits(r.value, user, account, rows, requested)
    ensures r.Ok? <==> account.superAdministrator || MayEnter(store.memberships, user, requested)
    ensures r.Ok? && !account.superAdministrator ==>
              r.value.activeTenant.Some? && MayEnter(store.memberships, user, r.value.activeTenant)
    ensures r.Err? ==> r.error == Unauthorized
  {
    rows := [];
    if account.superAdministrator {
      return Ok(Session(user, account, [], None)), rows;
    }
    var found := store.MembershipsForUser(user);
    var active := [];
    for k := 0 to |found|
      invariant active == found[..k]
    {
      assert found[k] in found;
      if found[k].status == Active {
        active := active + [found[k]];
      }
    }
    assert active == found;
    rows := active;
    EntriesAreRows(store.memberships, user, rows, requested);
    if |active| == 0 {
      return Err(Unauthorized), rows;
    }
    if requested.None? {
      return Ok(Session(user, account, active, Some(active[0].tenant))), rows;
    }
    for k := 0 to |active|
      invariant forall j :: 0 <= j < k ==> active[j].tenant != requested.value
    {
      if active[k].tenant == requested.value {
        return Ok(Session(user, account, active, Some(active[k].tenant))), rows;
      }
    }
    return Err(Unauthorized), rows;
  }

  lemma EntriesAreRows(memberships: map<MembershipId, Membership>, user: UserId, rows: seq<Membership>,
          requested: Option<TenantId>)
    requires forall row :: row in rows <==>
               exists m :: m in memberships && memberships[m] == row && row.user == user && row.status == Active
    ensures MayEnter(memberships, user, requested) <==>
            exists row :: row in rows && (requested.Some? ==> row.tenant == requested.value)
    ensures forall row :: row in rows ==> MayEnter(memberships, user, Some(row.tenant))
  {
    if MayEnter(memberships, user, requested) {
      var m :| m in memberships && memberships[m].user == user && memberships[m].status == Active
               && (requested.Some? ==> memberships[m].tenant == requested.value);
      assert memberships[m] in rows;
    }
  }

  function Issue(session: Session): Claim {
    Claim(session.user, session.account.sessionVersion, session.activeTenant)
  }

  // ----- requests

  /**
   A request with a token.  It gets a session only if the version still counts,
   and then one whose active tenant is the token's and among the user's active
   memberships.
   */
  method CurrentSession(store: Store, claim: Claim) returns (r: Result<Session, Error>, ghost rows: seq<Membership>)
    requires store.Valid()
    modifies store
    ensures store.Valid() && Evolves(old(store.Tables()), store.Tables())
    ensures r.Ok? ==> Resolves(claim, old(store.Tables()))
    ensures r.Ok? ==> Fits(r.value, claim.user, old(store.users)[claim.user], rows, claim.tenant)
    ensures forall row :: row in rows ==> row.user == claim.user && row.status == Active
    ensures forall row :: row in rows ==> exists m :: m in store.memberships && store.memberships[m] == row
    ensures r.Ok? <==>
              && claim.user in old(store.users) && old(store.users)[claim.user].sessionVersion == claim.version
              && (old(store.users)[claim.user].superAdministrator
                  || MayEnter(store.memberships, claim.user, claim.tenant))
    ensures !Resolves(claim, old(store.Tables())) ==> r == Err(InvalidCredentials)
  {
    rows := [];
    if claim.user !in store.users || store.users[claim.user].sessionVersion != claim.version {
      EvolvesNot(store.Tables());
      return Err(InvalidCredentials), rows;
    }
    var account := store.users[claim.user];
    store.OtherTransactions();
    r, rows := SessionForUser(store, claim.user, account, claim.tenant);
  }

  /**
   A login with a verified password: the token carries the version read at the
   start, so it is dead on arrival when the version was raised in the meantime.
   */
  method Login(store: Store, user: UserId, requireSuperAdministrator: bool) returns (r: Result<Claim, Error>)
    requires store.Valid()
    modifies store
    ensures store.Valid() && Evolves(old(store.Tables()), store.Tables())
    ensures r.Ok? ==> user in old(store.users) && r.value.user == user
    ensures r.Ok? ==> r.value.version == old(store.users)[user].sessionVersion
    ensures r.Ok? ==> (requireSuperAdministrator <==> old(store.users)[user].superAdministrator)
    ensures r.Ok? ==> user in store.users && r.value.version <= store.users[user].sessionVersion
    ensures r.Ok? ==> (r.value.tenant.None? <==> requireSuperAdministrator)
    ensures r.Ok? <==>
              && user in old(store.users) && old(store.users)[user].superAdministrator == requireSuperAdministrator
              && (requireSuperAdministrator || MayEnter(store.memberships, user, None))
    ensures r.Ok? && !requireSuperAdministrator ==> MayEnter(store.memberships, user, r.value.tenant)
  {
    if user !in store.users || requireSuperAdministrator != store.users[user].superAdministrator {
      EvolvesNot(store.Tables());
      return Err(InvalidCredentials);
    }
    var account := store.users[user];
    store.OtherTransactions();
    EvolvedIsLater(old(store.Tables()), store.Tables());
    ghost var rows;
    var session;
    session, rows := SessionForUser(store, user, account, None);
    if session.Err? {
      return Err(session.error);
    }
    return Ok(Issue(session.value));
  }

  /**
   Switching the tenant of a resolved session.  The new token has a version that
   no token had before; tokens of the session's version or older are ended.
   */
  method SwitchTenant(store: Store, session: Session, requested: TenantId, fails: bool)
    returns (r: Result<Claim, Error>)
    requires store.Valid()
    requires session.user in store.users && session.account.sessionVersion <= store.users[session.user].sessionVersion
    modifies store
    ensures store.Valid() && Evolves(old(store.Tables()), store.Tables())
    ensures r.Ok? ==> r.value.user == session.user && r.value.tenant == Some(requested)
    ensures r.Ok? ==> session.user in store.users
    ensures r.Ok? ==> old(store.users)[session.user].sessionVersion < r.value.version
    ensures r.Ok? ==> r.value.version <= store.users[session.user].sessionVersion
    ensures r.Ok? ==> !Resolves(Issue(session), store.Tables())
    ensures r.Ok? <==> !fails && !session.account.superAdministrator
                       && exists m :: IsActiveMember(old(store.memberships), m, requested, session.user)
  {
    EvolvesNot(store.Tables());
    if session.account.superAdministrator {
      return Err(Unauthorized);
    }
    if m :| m in store.memberships && IsActiveMember(store.memberships, m, requested, session.user) {
      r := Rotate(store, session.user, requested, fails);
      return;
    }
    return Err(MembershipNotFound);
  }

  predicate IsActiveMember(memberships: map<MembershipId, Membership>, m: MembershipId, tenant: TenantId,
          user: UserId) {
    m in memberships && memberships[m].tenant == tenant && memberships[m].user == user
        && memberships[m].status == Active
  }

  /**
   `fails` says whether the database fails.  The membership was found active; by the
   time the version is raised others may have raised it too.
   */
  method Rotate(store: Store, user: UserId, requested: TenantId, fails: bool) returns (r: Result<Claim, Error>)
    requires store.Valid() && user in store.users
    modifies store
    ensures store.Valid() && Evolves(old(store.Tables()), store.Tables())
    ensures r.Ok? <==> !fails
    ensures r.Ok? ==> r.value.user == user && r.value.tenant == Some(requested)
    ensures r.Ok? ==> user in store.users
    ensures r.Ok? ==> old(store.users)[user].sessionVersion < r.value.version == store.users[user].sessionVersion
  {
    ghost var start := store.Tables();
    store.OtherTransactions();
    ghost var middle := store.Tables();
    if fails {
      return Err(Internal);
    }
    EvolvedIsLater(start, middle);
    assert UserKept(start.users[user], middle.users[user]);
    var rotated := store.RotateTenantSession(user, requested);
    EvolvesByCommit(start, middle, Action.SwitchTenant(user, requested), store.Tables());
    return Ok(Claim(user, rotated.value, Some(requested)));
  }

  /**
   Logging out ends every token of the user that resolved before.  A switch that is
   under way may still commit afterwards; see `SwitchAgainstEnding`.
   */
  method Logout(store: Store, session: Session) returns (r: Result<(), Error>)
    requires store.Valid()
    modifies store
    ensures store.Valid()
    ensures r.Ok? ==> session.user in store.users
    ensures r.Ok? ==> forall claim: Claim | claim.user == session.user ::
              Resolves(claim, old(store.Tables())) ==> !Resolves(claim, store.Tables())
    ensures r.Err? ==> session.user !in old(store.users) && store.Tables() == old(store.Tables())
  {
    r := store.InvalidateSession(session.user);
  }
}
