/**
 What every committed transaction keeps, and what that means over whole runs:
 unique memberships, single-use invitations, the final administrator, revision
 chains and session versions that only grow.
 */
module AccessSafety {
  import opened Wrappers
  import opened Records
  import opened Access

  // ----- counting in the audit table

  /** How many audit events say that invitation `i` was accepted. */
  function Acceptances(audit: seq<AuditEvent>, i: InvitationId): nat {
    if audit == [] then 0
    else
      var last := audit[|audit| - 1];
      Acceptances(audit[..|audit| - 1], i) +
      if last.action == InvitationAccepted && last.invitation == Some(i) then 1 else 0
  }

  /** How many committed transactions wrote membership `m`, its creation included. */
  function Writes(audit: seq<AuditEvent>, m: MembershipId): nat {
    if audit == [] then 0
    else
      var last := audit[|audit| - 1];
      Writes(audit[..|audit| - 1], m) + if last.membership == Some(m) then 1 else 0
  }

  lemma CountsAppend(audit: seq<AuditEvent>, e: AuditEvent)
    ensures forall i: InvitationId :: Acceptances(audit + [e], i) ==
                        Acceptances(audit, i) +
                        if e.action == InvitationAccepted && e.invitation == Some(i) then 1 else 0
    ensures forall m: MembershipId :: Writes(audit + [e], m) ==
                        Writes(audit, m) + if e.membership == Some(m) then 1 else 0
  {
    assert (audit + [e])[..|audit + [e]| - 1] == audit;
  }

  // ----- the invariant

  ghost predicate References(db: Db) {
    && (forall r :: r in db.roles ==> db.roles[r].tenant in db.tenants)
    && (forall m :: m in db.memberships ==> SoundMembership(db, db.memberships[m]))
    && (forall i :: i in db.invitations ==> SoundInvitation(db, db.invitations[i]))
  }

  /** Its tenant, its role of that tenant and its user exist, and the user is no super administrator. */
  ghost predicate SoundMembership(db: Db, row: Membership) {
    && row.tenant in db.tenants
    && IsRole(db, row.role, row.tenant)
    && row.user in db.users
    && !db.users[row.user].superAdministrator
  }

  ghost predicate SoundInvitation(db: Db, row: Invitation) {
    && row.tenant in db.tenants
    && IsRole(db, row.role, row.tenant)
    && !(row.usedAt.Some? && row.revokedAt.Some?)
  }

  /** At most one membership per tenant and user. */
  ghost predicate OneMembershipPerPair(memberships: map<MembershipId, Membership>) {
    forall m, n | m in memberships && n in memberships ::
      memberships[m].tenant == memberships[n].tenant && memberships[m].user == memberships[n].user ==> m == n
  }

  ghost predicate OneUserPerEmail(users: map<UserId, User>) {
    forall u, v | u in users && v in users :: users[u].email == users[v].email ==> u == v
  }

  ghost predicate OneInvitationPerHash(invitations: map<InvitationId, Invitation>) {
    forall i, j | i in invitations && j in invitations ::
      invitations[i].tokenHash.Some? && invitations[i].tokenHash == invitations[j].tokenHash ==> i == j
  }

  predicate IsUsed(invitations: map<InvitationId, Invitation>, i: InvitationId) {
    i in invitations && invitations[i].usedAt.Some?
  }

  function RevisionOf(memberships: map<MembershipId, Membership>, m: MembershipId): nat {
    if m in memberships then memberships[m].revision else 0
  }

  /** An invitation is used exactly when one acceptance of it was committed and audited; there is never a second. */
  ghost predicate AcceptedOnce(audit: seq<AuditEvent>, invitations: map<InvitationId, Invitation>) {
    forall i: InvitationId :: Acceptances(audit, i) == if IsUsed(invitations, i) then 1 else 0
  }

  /** The revision of a membership is one plus the number of its committed changes. */
  ghost predicate RevisionsCountWrites(audit: seq<AuditEvent>, memberships: map<MembershipId, Membership>) {
    forall m: MembershipId :: Writes(audit, m) == RevisionOf(memberships, m)
  }

  ghost predicate Inv(db: Db) {
    && References(db)
    && OneMembershipPerPair(db.memberships)
    && OneUserPerEmail(db.users)
    && OneInvitationPerHash(db.invitations)
    && AcceptedOnce(db.audit, db.invitations)
    && RevisionsCountWrites(db.audit, db.memberships)
  }

  // ----- one transaction

  lemma UpdateKeepsInv(db: Db, update: MembershipUpdate)
    requires Inv(db) && UpdateRefusal(db, update).None?
    ensures Inv(UpdateEffect(db, update))
  {
    var after := UpdateEffect(db, update);
    CountsAppend(db.audit, after.audit[|db.audit|]);
    assert SoundMembership(db, db.memberships[update.membership]);
    KeepsSound(db, after);
  }

  /** The membership an acceptance writes is the only one of its tenant and user. */
  lemma AcceptKeepsPairs(db: Db, row: Invitation, a: Acceptance)
    requires OneMembershipPerPair(db.memberships)
    requires MembershipRefusal(db, row, a).None?
    ensures var (m, membership) := AcceptedMembership(db, row, a);
            OneMembershipPerPair(db.memberships[m := membership])
  {
    var (m, membership) := AcceptedMembership(db, row, a);
    forall n | n in db.memberships && n != m ensures !IsMembershipOf(db, n, membership.tenant, membership.user) {
      assert FindMembership(db, row.tenant, AcceptingUser(a)).None? ==>
          !IsMembershipOf(db, n, membership.tenant, membership.user);
    }
  }

  lemma AcceptKeepsReferences(db: Db, a: Acceptance)
    requires References(db) && AcceptRefusal(db, a).None?
    ensures References(AcceptEffect(db, a))
  {
    var after := AcceptEffect(db, a);
    var row := db.invitations[FindByHash(db, a.hash).value];
    assert SoundInvitation(db, row);
    KeepsSound(db, after);
    var m := FindMembership(db, row.tenant, AcceptingUser(a));
    assert m.Some? ==> SoundMembership(db, db.memberships[m.value]);
  }

  lemma AcceptKeepsUsers(db: Db, a: Acceptance)
    requires OneUserPerEmail(db.users) && AcceptRefusal(db, a).None?
    ensures OneUserPerEmail(AcceptEffect(db, a).users)
  {
    assert a.existing.None? ==> !EmailInUse(db, a.email);
  }

  lemma AcceptKeepsHashes(db: Db, a: Acceptance)
    requires OneInvitationPerHash(db.invitations) && AcceptRefusal(db, a).None?
    ensures OneInvitationPerHash(AcceptEffect(db, a).invitations)
  {
    assert HasHash(db, FindByHash(db, a.hash).value, a.hash);
  }

  lemma AcceptKeepsCounts(db: Db, a: Acceptance)
    requires AcceptedOnce(db.audit, db.invitations) && RevisionsCountWrites(db.audit, db.memberships)
    requires AcceptRefusal(db, a).None?
    ensures AcceptedOnce(AcceptEffect(db, a).audit, AcceptEffect(db, a).invitations)
    ensures RevisionsCountWrites(AcceptEffect(db, a).audit, AcceptEffect(db, a).memberships)
  {
    CountsAppend(db.audit, AcceptEffect(db, a).audit[|db.audit|]);
  }

  lemma AcceptKeepsInv(db: Db, a: Acceptance)
    requires Inv(db) && AcceptRefusal(db, a).None?
    ensures Inv(AcceptEffect(db, a))
  {
    AcceptKeepsReferences(db, a);
    AcceptKeepsPairs(db, db.invitations[FindByHash(db, a.hash).value], a);
    AcceptKeepsUsers(db, a);
    AcceptKeepsHashes(db, a);
    AcceptKeepsCounts(db, a);
  }

  lemma OwnerKeepsReferences(db: Db, action: Action)
    requires References(db) && action.RegisterOwner? && OwnerRefusal(db, action).None?
    ensures References(OwnerEffect(db, action))
  {
    KeepsSound(db, OwnerEffect(db, action));
  }

  lemma OwnerKeepsUnique(db: Db, action: Action)
    requires References(db) && OneMembershipPerPair(db.memberships) && OneUserPerEmail(db.users)
    requires action.RegisterOwner? && OwnerRefusal(db, action).None?
    ensures OneMembershipPerPair(OwnerEffect(db, action).memberships)
    ensures OneUserPerEmail(OwnerEffect(db, action).users)
  {
    assert forall m :: m in db.memberships ==> SoundMembership(db, db.memberships[m]);
  }

  lemma OwnerKeepsCounts(db: Db, action: Action)
    requires AcceptedOnce(db.audit, db.invitations) && RevisionsCountWrites(db.audit, db.memberships)
    requires action.RegisterOwner? && OwnerRefusal(db, action).None?
    ensures AcceptedOnce(OwnerEffect(db, action).audit, db.invitations)
    ensures RevisionsCountWrites(OwnerEffect(db, action).audit, OwnerEffect(db, action).memberships)
  {
    CountsAppend(db.audit, OwnerEffect(db, action).audit[|db.audit|]);
  }

  lemma OwnerKeepsInv(db: Db, action: Action)
    requires Inv(db) && action.RegisterOwner? && OwnerRefusal(db, action).None?
    ensures Inv(OwnerEffect(db, action))
  {
    OwnerKeepsReferences(db, action);
    OwnerKeepsUnique(db, action);
    OwnerKeepsCounts(db, action);
  }

  lemma TenantKeepsInv(db: Db, tenant: TenantId, administrator: RoleId, standard: RoleId)
    requires Inv(db) && TenantRefusal(db, tenant, administrator, standard).None?
    ensures Inv(TenantEffect(db, tenant, administrator, standard))
  {
    var after := TenantEffect(db, tenant, administrator, standard);
    CountsAppend(db.audit, after.audit[|db.audit|]);
    KeepsSound(db, after);
  }

  lemma SuperAdminKeepsInv(db: Db, user: UserId, email: Email)
    requires Inv(db) && SuperAdminRefusal(db, user, email).None?
    ensures Inv(SuperAdminEffect(db, user, email))
  {
    KeepsSound(db, SuperAdminEffect(db, user, email));
    assert !IsSuperAdministrator(db, email) ==> !EmailInUse(db, email);
  }

  lemma CreateRoleKeepsInv(db: Db, role: RoleId, tenant: TenantId)
    requires Inv(db) && role !in db.roles && tenant in db.tenants
    ensures Inv(CreateRoleEffect(db, role, tenant))
  {
    var after := CreateRoleEffect(db, role, tenant);
    CountsAppend(db.audit, after.audit[|db.audit|]);
    KeepsSound(db, after);
  }

  lemma UpdateRoleKeepsInv(db: Db, role: RoleId, tenant: TenantId)
    requires Inv(db) && IsRole(db, role, tenant)
    ensures Inv(UpdateRoleEffect(db, role, tenant))
  {
    var after := UpdateRoleEffect(db, role, tenant);
    CountsAppend(db.audit, after.audit[|db.audit|]);
    KeepsSound(db, after);
  }

  lemma DeleteRoleKeepsInv(db: Db, role: RoleId, tenant: TenantId)
    requires Inv(db) && !RoleInUse(db, role)
    ensures Inv(DeleteRoleEffect(db, role, tenant))
  {
    var after := DeleteRoleEffect(db, role, tenant);
    CountsAppend(db.audit, after.audit[|db.audit|]);
    KeepsSound(db, after);
  }

  lemma InviteKeepsInv(db: Db, action: Action)
    requires Inv(db) && action.CreateInvitation? && InviteRefusal(db, action).None?
    ensures Inv(InviteEffect(db, action))
  {
    var after := InviteEffect(db, action);
    CountsAppend(db.audit, after.audit[|db.audit|]);
    forall j | j in db.invitations ensures db.invitations[j].tokenHash != Some(action.hash) {
      assert !HasHash(db, j, action.hash);
    }
    KeepsSound(db, after);
  }

  lemma RevokeKeepsInv(db: Db, id: InvitationId, now: int)
    requires Inv(db) && RevokeRefusal(db, id).None?
    ensures Inv(RevokeEffect(db, id, now))
  {
    var after := RevokeEffect(db, id, now);
    CountsAppend(db.audit, after.audit[|db.audit|]);
    assert SoundInvitation(db, db.invitations[id]);
    KeepsSound(db, after);
  }

  lemma AnonymizeKeepsInv(db: Db, ids: set<InvitationId>, before: int, now: int)
    requires Inv(db) && AllAnonymizable(db, ids, before)
    ensures Inv(AnonymizeEffect(db, ids, now))
  {
    var after := AnonymizeEffect(db, ids, now);
    forall i | i in after.invitations ensures SoundInvitation(after, after.invitations[i]) {
      assert SoundInvitation(db, db.invitations[i]);
    }
    KeepsSound(db, after);
  }

  lemma SessionKeepsInv(db: Db, user: UserId, e: AuditEvent)
    requires Inv(db) && user in db.users && e.membership.None? && e.action != InvitationAccepted
    ensures Inv(SessionEffect(db, user, e))
  {
    CountsAppend(db.audit, e);
    KeepsSound(db, SessionEffect(db, user, e));
  }

  /** Rows that stay as they are stay sound while tables grow and unused roles go. */
  lemma KeepsSound(db: Db, after: Db)
    requires References(db)
    requires db.tenants <= after.tenants
    requires forall u :: u in db.users ==>
               u in after.users && after.users[u].superAdministrator == db.users[u].superAdministrator
    requires forall r :: r in db.roles && RoleInUse(db, r) ==>
               r in after.roles && after.roles[r].tenant == db.roles[r].tenant
    ensures forall m :: m in db.memberships ==> SoundMembership(after, db.memberships[m])
    ensures forall i :: i in db.invitations ==> SoundInvitation(after, db.invitations[i])
  {
    forall m | m in db.memberships ensures SoundMembership(after, db.memberships[m]) {
      assert SoundMembership(db, db.memberships[m]) && RoleInUse(db, db.memberships[m].role);
    }
    forall i | i in db.invitations ensures SoundInvitation(after, db.invitations[i]) {
      assert SoundInvitation(db, db.invitations[i]) && RoleInUse(db, db.invitations[i].role);
    }
  }

  /** Every committed transaction keeps the invariant. */
  lemma CommitKeepsInv(db: Db, action: Action, after: Db)
    requires Inv(db) && Commits(db, action, after)
    ensures Inv(after)
  {
    match action
    case RegisterOwner(_, _, _, _, _, _) => OwnerKeepsInv(db, action);
    case CreateTenant(tenant, administrator, standard) => TenantKeepsInv(db, tenant, administrator, standard);
    case CreateRole(role, tenant) => CreateRoleKeepsInv(db, role, tenant);
    case UpdateRole(role, tenant, _) => UpdateRoleKeepsInv(db, role, tenant);
    case DeleteRole(role, tenant, _) => DeleteRoleKeepsInv(db, role, tenant);
    case CreateInvitation(_, _, _, _, _, _) => InviteKeepsInv(db, action);
    case UpdateMembership(update) => UpdateKeepsInv(db, update);
    case AcceptInvitation(a) => AcceptKeepsInv(db, a);
    case RevokeInvitation(id, now) => RevokeKeepsInv(db, id, now);
    case Anonymize(ids, before, now) => AnonymizeKeepsInv(db, ids, before, now);
    case EnsureSuperAdmin(user, email) => SuperAdminKeepsInv(db, user, email);
    case Logout(user) => SessionKeepsInv(db, user, AuditEvent(SessionLogout, None, None, None));
    case SwitchTenant(user, tenant) => SessionKeepsInv(db, user, AuditEvent(TenantSwitch, Some(tenant), None, None));
  }

  // ----- what an accepted invitation leaves

  /** The membership that an acceptance must leave behind: active, in the tenant, with the role, for the address. */
  ghost predicate Admits(db: Db, invitation: Invitation) {
    exists m :: m in db.memberships && IsAdmission(db, db.memberships[m], invitation)
  }

  ghost predicate IsAdmission(db: Db, row: Membership, invitation: Invitation) {
    && row.tenant == invitation.tenant && row.role == invitation.role && row.status == Active
    && row.user in db.users && db.users[row.user].email == invitation.email
  }

  /** The acceptance turned this invitation, and no other, from unused to used. */
  ghost predicate UsesInvitation(db: Db, a: Acceptance, after: Db, i: InvitationId) {
    && i in db.invitations && i in after.invitations
    && db.invitations[i].tokenHash == Some(a.hash)
    && db.invitations[i].usedAt.None? && db.invitations[i].revokedAt.None? && db.invitations[i].expiresAt > a.now
    && after.invitations == db.invitations[i := db.invitations[i].(usedAt := Some(a.now))]
    && Admits(after, db.invitations[i])
    && Acceptances(db.audit, i) == 0 && Acceptances(after.audit, i) == 1
  }

  ghost predicate UsesOneInvitation(db: Db, a: Acceptance, after: Db) {
    exists i :: UsesInvitation(db, a, after, i)
  }

  lemma AcceptedIsAdmitted(db: Db, a: Acceptance)
    requires Inv(db) && AcceptRefusal(db, a).None?
    ensures var i := FindByHash(db, a.hash).value; Admits(AcceptEffect(db, a), db.invitations[i])
  {
    var i := FindByHash(db, a.hash).value;
    var row := db.invitations[i];
    var (m, membership) := AcceptedMembership(db, row, a);
    assert a.existing.None? || db.users[a.existing.value].email == a.email;
    assert IsAdmission(AcceptEffect(db, a), AcceptEffect(db, a).memberships[m], row);
  }

  /**
   A committed acceptance used an invitation that was unused, unrevoked and not
   expired, and leaves it used, unrevoked and with its membership in place.
   */
  lemma AcceptanceAdmits(db: Db, a: Acceptance, after: Db)
    requires Inv(db) && Commits(db, AcceptInvitation(a), after)
    ensures UsesOneInvitation(db, a, after)
  {
    var i := FindByHash(db, a.hash).value;
    AcceptedIsAdmitted(db, a);
    CountsAppend(db.audit, after.audit[|db.audit|]);
    assert HasHash(db, i, a.hash);
    assert after.invitations[i] == db.invitations[i].(usedAt := Some(a.now));
    assert UsesInvitation(db, a, after, i);
  }

  // ----- what no transaction takes back

  /** The first administrator of a tenant that a transaction leaves untouched or makes. */
  lemma AdministratorStays(db: Db, action: Action, after: Db, tenant: TenantId)
    requires Inv(db) && Commits(db, action, after)
    requires HasAdministrator(db, tenant)
    ensures HasAdministrator(after, tenant)
  {
    var m :| m in db.memberships && db.memberships[m].tenant == tenant && ActiveAdministrator(db, m);
    assert SoundMembership(db, db.memberships[m]) && RoleInUse(db, db.memberships[m].role);
    if action.UpdateMembership? && action.update.membership == m {
      var update := action.update;
      if RemovesAdministrator(update.status, Administrator, db.roles[update.role].kind) {
        var other :| other in db.memberships && other != m && db.memberships[other].tenant == tenant
            && ActiveAdministrator(db, other);
        assert ActiveAdministrator(after, other);
      } else {
        assert ActiveAdministrator(after, m);
      }
    } else {
      AdministratorUntouched(db, action, after, m);
    }
  }

  lemma AdministratorUntouched(db: Db, action: Action, after: Db, m: MembershipId)
    requires Inv(db) && Commits(db, action, after)
    requires ActiveAdministrator(db, m)
    requires action.UpdateMembership? ==> action.update.membership != m
    ensures m in after.memberships && after.memberships[m].tenant == db.memberships[m].tenant
    ensures ActiveAdministrator(after, m)
  {
    assert SoundMembership(db, db.memberships[m]) && RoleInUse(db, db.memberships[m].role);
    if action.AcceptInvitation? {
      AdministratorUntouchedByAcceptance(db, action.acceptance, m);
    } else {
      OtherMembershipsUntouched(db, action, after, m);
      RoleInUseKept(db, action, after, db.memberships[m].role);
    }
  }

  lemma OtherMembershipsUntouched(db: Db, action: Action, after: Db, m: MembershipId)
    requires Commits(db, action, after) && m in db.memberships
    requires !action.AcceptInvitation? && (action.UpdateMembership? ==> action.update.membership != m)
    ensures m in after.memberships && after.memberships[m] == db.memberships[m]
  {
  }

  lemma RoleInUseKept(db: Db, action: Action, after: Db, role: RoleId)
    requires Commits(db, action, after) && role in db.roles && RoleInUse(db, role)
    ensures role in after.roles && after.roles[role].kind == db.roles[role].kind
  {
  }

  /**
   A role that a transaction changes or removes is a custom one, seen in its latest
   revision; a removed one is used by no membership and no invitation.
   */
  lemma OnlyCustomRolesChange(db: Db, action: Action, after: Db, role: RoleId)
    requires Commits(db, action, after) && role in db.roles
    requires role !in after.roles || after.roles[role] != db.roles[role]
    ensures db.roles[role].kind == Custom && (action.UpdateRole? || action.DeleteRole?)
    ensures action.role == role && action.revision == db.roles[role].revision
    ensures role !in after.roles ==> !RoleInUse(db, role)
    ensures role in after.roles ==> after.roles[role] == db.roles[role].(revision := db.roles[role].revision + 1)
  {
  }

  lemma AdministratorUntouchedByAcceptance(db: Db, a: Acceptance, m: MembershipId)
    requires AcceptRefusal(db, a).None? && ActiveAdministrator(db, m)
    ensures ActiveAdministrator(AcceptEffect(db, a), m)
    ensures AcceptEffect(db, a).memberships[m].tenant == db.memberships[m].tenant
  {
  }

  /** What every later state has kept of an earlier one. */
  ghost predicate Later(before: Db, after: Db) {
    && UsersKept(before.users, after.users)
    && MembershipsKept(before.memberships, after.memberships)
    && InvitationsKept(before.invitations, after.invitations)
    && AdministratorsKept(before, after)
  }

  ghost predicate UsersKept(before: map<UserId, User>, after: map<UserId, User>) {
    forall u :: u in before ==> u in after && UserKept(before[u], after[u])
  }

  ghost predicate MembershipsKept(before: map<MembershipId, Membership>, after: map<MembershipId, Membership>) {
    forall m :: m in before ==> m in after && MembershipKept(before[m], after[m])
  }

  ghost predicate InvitationsKept(before: map<InvitationId, Invitation>, after: map<InvitationId, Invitation>) {
    forall i :: i in before ==> i in after && InvitationKept(before[i], after[i])
  }

  ghost predicate AdministratorsKept(before: Db, after: Db) {
    forall t :: HasAdministrator(before, t) ==> HasAdministrator(after, t)
  }

  ghost predicate UserKept(before: User, after: User) {
    before.email == after.email && before.superAdministrator == after.superAdministrator
        && before.sessionVersion <= after.sessionVersion
  }

  ghost predicate MembershipKept(before: Membership, after: Membership) {
    && before.tenant == after.tenant && before.user == after.user
    && before.revision <= after.revision
    && (before.revision == after.revision ==> before == after)
  }

  /** Used stays used and revoked stays revoked, at the time it happened; neither gets a new token. */
  ghost predicate InvitationKept(before: Invitation, after: Invitation) {
    && before.tenant == after.tenant && before.role == after.role && before.expiresAt == after.expiresAt
    && (before.usedAt.Some? ==> after.usedAt == before.usedAt)
    && (before.revokedAt.Some? ==> after.revokedAt == before.revokedAt)
    && (after.tokenHash.Some? ==> after.tokenHash == before.tokenHash)
  }

  lemma CommitKeepsUsers(db: Db, action: Action, after: Db)
    requires Commits(db, action, after)
    ensures UsersKept(db.users, after.users)
  {
  }

  lemma CommitKeepsMemberships(db: Db, action: Action, after: Db)
    requires Commits(db, action, after)
    ensures MembershipsKept(db.memberships, after.memberships)
  {
  }

  lemma CommitKeepsInvitations(db: Db, action: Action, after: Db)
    requires Commits(db, action, after)
    ensures InvitationsKept(db.invitations, after.invitations)
  {
  }

  lemma CommitIsLater(db: Db, action: Action, after: Db)
    requires Inv(db) && Commits(db, action, after)
    ensures Later(db, after)
  {
    CommitKeepsUsers(db, action, after);
    CommitKeepsMemberships(db, action, after);
    CommitKeepsInvitations(db, action, after);
    forall t | HasAdministrator(db, t) ensures HasAdministrator(after, t) {
      AdministratorStays(db, action, after, t);
    }
  }

  lemma LaterTransitive(a: Db, b: Db, c: Db)
    requires Later(a, b) && Later(b, c)
    ensures Later(a, c)
  {
  }

  // ----- whole runs

  ghost predicate Committed(before: Db, after: Db) {
    after == before || exists action :: Commits(before, action, after)
  }

  /** The states of a run: between two of them at most one transaction commits. */
  ghost predicate Run(states: seq<Db>) {
    && states != [] && Inv(states[0])
    && forall k :: 0 <= k < |states| - 1 ==> CommittedAt(states, k)
  }

  ghost predicate CommittedAt(states: seq<Db>, k: nat)
    requires k + 1 < |states|
  {
    Committed(states[k], states[k + 1])
  }

  lemma CommittedKeeps(before: Db, after: Db)
    requires Inv(before) && Committed(before, after)
    ensures Inv(after) && Later(before, after)
  {
    if after != before {
      var action :| Commits(before, action, after);
      CommitKeepsInv(before, action, after);
      CommitIsLater(before, action, after);
    }
  }

  lemma {:induction false} RunKeepsInv(states: seq<Db>, j: nat)
    requires Run(states) && j < |states|
    ensures Inv(states[j])
  {
    if j > 0 {
      RunKeepsInv(states, j - 1);
      assert CommittedAt(states, j - 1);
      CommittedKeeps(states[j - 1], states[j]);
    }
  }

  /** In every run every state satisfies the invariant and keeps what earlier states had. */
  lemma {:induction false} RunKeeps(states: seq<Db>, i: nat, j: nat)
    requires Run(states) && i <= j < |states|
    ensures Inv(states[j]) && Later(states[i], states[j])
  {
    RunKeepsInv(states, j);
    if i < j {
      RunKeeps(states, i, j - 1);
      assert CommittedAt(states, j - 1);
      CommittedKeeps(states[j - 1], states[j]);
      LaterTransitive(states[i], states[j - 1], states[j]);
    }
  }

  /** The final-administrator guarantee: a tenant that has had an active administrator always has one. */
  lemma FinalAdministrator(states: seq<Db>, i: nat, j: nat, tenant: TenantId)
    requires Run(states) && i <= j < |states|
    requires HasAdministrator(states[i], tenant)
    ensures HasAdministrator(states[j], tenant)
  {
    RunKeeps(states, i, j);
  }

  /**
   Single use, over a run from any state: while one acceptance commits, no other
   commits on the same invitation, before or after, and it is never revoked.
   */
  lemma SingleUse(states: seq<Db>, i: nat, j: nat, id: InvitationId)
    requires Run(states) && i <= j < |states|
    ensures Acceptances(states[j].audit, id) <= 1
    ensures IsUsed(states[i].invitations, id) ==>
              IsUsed(states[j].invitations, id) && states[j].invitations[id].revokedAt.None?
    ensures IsUsed(states[j].invitations, id) <==> Acceptances(states[j].audit, id) == 1
  {
    RunKeeps(states, i, j);
    assert id in states[j].invitations ==> SoundInvitation(states[j], states[j].invitations[id]);
  }

  /** Of two membership updates that present the same revision at most one commits. */
  lemma StaleUpdateRefused(states: seq<Db>, i: nat, j: nat, first: MembershipUpdate, second: MembershipUpdate)
    requires Run(states) && i < j < |states|
    requires Commits(states[i], UpdateMembership(first), states[i + 1])
    requires second.membership == first.membership && second.revision == first.revision
    ensures UpdateRefusal(states[j], second).Some?
  {
    RunKeeps(states, i + 1, j);
    RunKeeps(states, i, i);
  }

  /** `after` is a later state of some run from `before`. */
  ghost predicate Evolves(before: Db, after: Db) {
    exists states :: Run(states) && states[0] == before && states[|states| - 1] == after
  }

  lemma EvolvesNot(db: Db)
    requires Inv(db)
    ensures Evolves(db, db)
  {
    assert Run([db]);
  }

  lemma EvolvesByCommit(before: Db, db: Db, action: Action, after: Db)
    requires Evolves(before, db) && Commits(db, action, after)
    ensures Evolves(before, after)
  {
    var states :| Run(states) && states[0] == before && states[|states| - 1] == db;
    var longer := states + [after];
    forall k | 0 <= k < |longer| - 1 ensures CommittedAt(longer, k) {
      if k < |states| - 1 {
        assert CommittedAt(states, k);
      }
    }
    assert Run(longer);
  }

  lemma EvolvedIsLater(before: Db, after: Db)
    requires Evolves(before, after)
    ensures Inv(after) && Later(before, after)
  {
    var states :| Run(states) && states[0] == before && states[|states| - 1] == after;
    RunKeeps(states, 0, |states| - 1);
  }
}
