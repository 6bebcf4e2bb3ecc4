/**
 What the transactions of `Access` do, on the fields of the rows: which requests are
 granted, exactly, what is refused with which error, and what every row is afterwards.
 The laws are about `Commits` and `Refusal` and use none of the functions these are
 computed with.
 (server/postgres/memberships.go:143-295, invitations.go:43-69 and 186-605,
 invitation_administration.go:76-101, outbox.go:354-395, roles.go:118-223.)
 */
module AccessLaws {
  import opened Wrappers
  import opened Records
  import opened Access
  import opened AccessSafety

  predicate RoleOfTenant(db: Db, role: RoleId, tenant: TenantId) {
    role in db.roles && db.roles[role].tenant == tenant
  }

  /** All rows but the named one are the same. */
  predicate SameBut<K(==), V(==)>(before: map<K, V>, after: map<K, V>, key: K) {
    && before.Keys <= after.Keys <= before.Keys + {key}
    && forall k :: k in before && k != key ==> after[k] == before[k]
  }

  // ----- membership updates

  /** Another active membership of the tenant has an administrator role. */
  predicate AnotherAdministrator(db: Db, tenant: TenantId, except: MembershipId) {
    exists m :: m in db.memberships && m != except
                && db.memberships[m].tenant == tenant && db.memberships[m].status == Active
                && db.memberships[m].role in db.roles && db.roles[db.memberships[m].role].kind == Administrator
  }

  /** The update would leave an administrator without the role, or inactive. */
  predicate Demotes(db: Db, update: MembershipUpdate)
    requires update.membership in db.memberships && db.memberships[update.membership].role in db.roles
    requires update.role in db.roles
  {
    && db.roles[db.memberships[update.membership].role].kind == Administrator
    && (update.status == Inactive || db.roles[update.role].kind != Administrator)
  }

  /** The membership and the role are of the tenant, and the writer has seen the latest revision. */
  predicate Addresses(db: Db, update: MembershipUpdate) {
    && update.tenant in db.tenants
    && update.membership in db.memberships && db.memberships[update.membership].tenant == update.tenant
    && db.memberships[update.membership].role in db.roles
    && RoleOfTenant(db, update.role, update.tenant)
  }

  predicate MayUpdate(db: Db, update: MembershipUpdate) {
    && Addresses(db, update)
    && db.memberships[update.membership].revision == update.revision
    && (Demotes(db, update) ==> AnotherAdministrator(db, update.tenant, update.membership))
  }

  /** An update is granted exactly to a writer with the latest revision who does not demote the last administrator. */
  lemma UpdateGrantedExactly(db: Db, update: MembershipUpdate)
    requires Inv(db)
    ensures Refusal(db, UpdateMembership(update)).None? <==> MayUpdate(db, update)
    ensures Addresses(db, update) && !MayUpdate(db, update) ==> Refusal(db, UpdateMembership(update)) == Some(Conflict)
    ensures update.tenant !in db.tenants ==> Refusal(db, UpdateMembership(update)) == Some(Conflict)
    ensures update.tenant in db.tenants
            && (update.membership !in db.memberships || db.memberships[update.membership].tenant != update.tenant) ==>
              Refusal(db, UpdateMembership(update)) == Some(MembershipNotFound)
    ensures update.tenant in db.tenants && update.membership in db.memberships
            && db.memberships[update.membership].tenant == update.tenant
            && !RoleOfTenant(db, update.role, update.tenant) ==>
              Refusal(db, UpdateMembership(update)) == Some(RoleNotFound)
  {
    assert update.membership in db.memberships ==> SoundMembership(db, db.memberships[update.membership]);
    assert AnotherAdministrator(db, update.tenant, update.membership) <==>
           OtherAdministrator(db, update.tenant, update.membership) by {
      assert forall m | m in db.memberships && db.memberships[m].status == Active
                        && db.memberships[m].role in db.roles ::
          db.roles[db.memberships[m].role].kind == Administrator ==> ActiveAdministrator(db, m);
    }
  }

  /**
   A granted update writes the presented role and status, and ends the sessions of
   the member; nothing else changes.
   */
  lemma UpdateWrites(db: Db, update: MembershipUpdate, after: Db)
    requires Commits(db, UpdateMembership(update), after)
    ensures update.membership in db.memberships && update.membership in after.memberships
    ensures var row := db.memberships[update.membership];
            && after.memberships[update.membership] ==
               Membership(row.tenant, row.user, update.role, update.status, update.revision + 1)
            && row.user in db.users && row.user in after.users
            && var user := db.users[row.user];
               after.users[row.user] == User(user.email, user.superAdministrator, user.sessionVersion + 1)
               && SameBut(db.users, after.users, row.user)
    ensures SameBut(db.memberships, after.memberships, update.membership)
    ensures after.tenants == db.tenants && after.roles == db.roles && after.invitations == db.invitations
    ensures after.audit ==
            db.audit + [AuditEvent(MembershipUpdated, Some(update.tenant), None, Some(update.membership))]
  {
  }

  // ----- acceptances

  /** The user that accepts: the account found, or the one that will be created. */
  function Invitee(a: Acceptance): UserId {
    if a.existing.Some? then a.existing.value else a.newUser
  }

  predicate Invites(db: Db, a: Acceptance, i: InvitationId) {
    && i in db.invitations
    && db.invitations[i].tokenHash == Some(a.hash)
    && db.invitations[i].usedAt.None? && db.invitations[i].revokedAt.None?
    && a.now < db.invitations[i].expiresAt
    && db.invitations[i].email == a.email
    && db.invitations[i].tenant in db.tenants
    && RoleOfTenant(db, db.invitations[i].role, db.invitations[i].tenant)
  }

  /** The account has the address and is no super administrator, or address and id are free. */
  predicate Identifies(db: Db, a: Acceptance) {
    if a.existing.Some?
    then a.existing.value in db.users && db.users[a.existing.value].email == a.email
         && !db.users[a.existing.value].superAdministrator
    else a.newUser !in db.users && forall u :: u in db.users ==> db.users[u].email != a.email
  }

  predicate Member(db: Db, m: MembershipId, tenant: TenantId, user: UserId) {
    m in db.memberships && db.memberships[m].tenant == tenant && db.memberships[m].user == user
  }

  /** The user has an inactive membership of the tenant, of whatever role, or none and there is a free id. */
  ghost predicate MayJoin(db: Db, a: Acceptance, tenant: TenantId) {
    && (forall m :: Member(db, m, tenant, Invitee(a)) ==> db.memberships[m].status == Inactive)
    && ((exists m :: Member(db, m, tenant, Invitee(a))) || a.newMembership !in db.memberships)
  }

  ghost predicate MayAccept(db: Db, a: Acceptance) {
    Identifies(db, a) && exists i :: Invites(db, a, i) && MayJoin(db, a, db.invitations[i].tenant)
  }

  lemma FoundIsMember(db: Db, tenant: TenantId, user: UserId)
    ensures FindMembership(db, tenant, user).Some? <==> exists m :: Member(db, m, tenant, user)
    ensures FindMembership(db, tenant, user).Some? ==> Member(db, FindMembership(db, tenant, user).value, tenant, user)
  {
    assert forall m :: Member(db, m, tenant, user) <==> IsMembershipOf(db, m, tenant, user);
  }

  lemma JoinsExactly(db: Db, i: InvitationId, a: Acceptance)
    requires OneMembershipPerPair(db.memberships) && i in db.invitations && db.invitations[i].tenant in db.tenants
    ensures MembershipRefusal(db, db.invitations[i], a).None? <==>
              && RoleOfTenant(db, db.invitations[i].role, db.invitations[i].tenant)
              && MayJoin(db, a, db.invitations[i].tenant)
  {
    var tenant := db.invitations[i].tenant;
    FoundIsMember(db, tenant, Invitee(a));
    if FindMembership(db, tenant, Invitee(a)).Some? {
      var m := FindMembership(db, tenant, Invitee(a)).value;
      assert forall n :: Member(db, n, tenant, Invitee(a)) ==> n == m;
    }
  }

  lemma IdentifiesExactly(db: Db, a: Acceptance)
    ensures IdentityRefusal(db, a).None? <==> Identifies(db, a)
  {
  }

  /**
   An acceptance is granted exactly if an unused, unrevoked, unexpired invitation for
   the address has the hash, its role is one of its tenant, the account fits, and the
   user has no active membership there; an inactive one, of whatever role, is no obstacle.
   */
  lemma AcceptanceGrantedExactly(db: Db, a: Acceptance)
    requires Inv(db)
    ensures Refusal(db, AcceptInvitation(a)).None? <==> MayAccept(db, a)
  {
    IdentifiesExactly(db, a);
    assert forall i :: HasHash(db, i, a.hash) <==> i in db.invitations && db.invitations[i].tokenHash == Some(a.hash);
    if FindByHash(db, a.hash).Some? {
      var i := FindByHash(db, a.hash).value;
      assert SoundInvitation(db, db.invitations[i]);
      JoinsExactly(db, i, a);
      assert forall j :: Invites(db, a, j) ==> j == i;
    }
  }

  /** The error of a located invitation, by its fields: used, revoked, expired, other address. */
  lemma InvitationErrors(db: Db, a: Acceptance, i: InvitationId)
    requires Inv(db) && i in db.invitations && db.invitations[i].tokenHash == Some(a.hash)
    ensures var row, refusal := db.invitations[i], Refusal(db, AcceptInvitation(a));
            && (row.usedAt.Some? ==> refusal == Some(InvitationUsed))
            && (row.usedAt.None? && row.revokedAt.Some? ==> refusal == Some(InvitationInvalid))
            && (row.usedAt.None? && row.revokedAt.None? && row.expiresAt <= a.now ==>
                  refusal == Some(InvitationExpired))
            && (row.usedAt.None? && row.revokedAt.None? && row.expiresAt > a.now && row.email != a.email ==>
                  refusal == Some(InviteEmailMismatch))
  {
    assert HasHash(db, i, a.hash);
    assert HasHash(db, FindByHash(db, a.hash).value, a.hash);
  }

  lemma UnknownHashIsInvalid(db: Db, a: Acceptance)
    requires forall i :: i in db.invitations ==> db.invitations[i].tokenHash != Some(a.hash)
    ensures Refusal(db, AcceptInvitation(a)) == Some(InvitationInvalid)
  {
    assert forall i :: !HasHash(db, i, a.hash);
  }

  /** With a fitting invitation, the error of the account and then of the membership. */
  lemma AccountErrors(db: Db, a: Acceptance, i: InvitationId)
    requires Inv(db) && Invites(db, a, i)
    ensures var refusal := Refusal(db, AcceptInvitation(a));
            && (a.existing.Some? && a.existing.value !in db.users ==> refusal == Some(UserNotFound))
            && (a.existing.Some? && a.existing.value in db.users && !Identifies(db, a) ==>
                  refusal == Some(Unauthorized))
            && (a.existing.None? && (exists u :: u in db.users && db.users[u].email == a.email) ==>
                  refusal == Some(EmailTaken))
            && (Identifies(db, a) && !MayJoin(db, a, db.invitations[i].tenant) ==> refusal == Some(Conflict))
  {
    assert HasHash(db, i, a.hash);
    assert HasHash(db, FindByHash(db, a.hash).value, a.hash);
    JoinsExactly(db, i, a);
    FoundIsMember(db, db.invitations[i].tenant, Invitee(a));
  }

  /** The membership that a granted acceptance writes: the inactive one of the user, or a new one. */
  ghost predicate Joins(db: Db, a: Acceptance, i: InvitationId, m: MembershipId, after: Db)
    requires i in db.invitations
  {
    var invitation := db.invitations[i];
    && m in after.memberships && SameBut(db.memberships, after.memberships, m)
    && if exists n :: Member(db, n, invitation.tenant, Invitee(a))
       then Member(db, m, invitation.tenant, Invitee(a))
            && after.memberships[m] ==
               Membership(invitation.tenant, Invitee(a), invitation.role, Active, db.memberships[m].revision + 1)
       else m == a.newMembership && m !in db.memberships
            && after.memberships[m] == Membership(invitation.tenant, Invitee(a), invitation.role, Active, 1)
  }

  /** An existing account has its sessions ended, a new one is created with version 1; no other account changes. */
  predicate Identified(db: Db, a: Acceptance, after: Db) {
    && SameBut(db.users, after.users, Invitee(a)) && Invitee(a) in after.users
    && if a.existing.Some?
       then Invitee(a) in db.users
            && after.users[Invitee(a)] == User(a.email, false, db.users[Invitee(a)].sessionVersion + 1)
       else after.users[Invitee(a)] == User(a.email, false, 1)
  }

  lemma AcceptanceWrites(db: Db, a: Acceptance, i: InvitationId, after: Db) returns (m: MembershipId)
    requires Inv(db) && Commits(db, AcceptInvitation(a), after) && Invites(db, a, i)
    ensures Joins(db, a, i, m, after) && Identified(db, a, after)
    ensures i in after.invitations && after.invitations == db.invitations[i := after.invitations[i]]
    ensures var row := db.invitations[i];
            after.invitations[i] == Invitation(row.tenant, a.email, row.role, Some(a.hash), row.expiresAt, Some(a.now),
                                               None, row.anonymizedAt, row.delivery)
    ensures after.tenants == db.tenants && after.roles == db.roles
    ensures after.audit == db.audit +
              [AuditEvent(InvitationAccepted, Some(db.invitations[i].tenant), Some(i), Some(m))]
  {
    assert HasHash(db, i, a.hash) && HasHash(db, FindByHash(db, a.hash).value, a.hash);
    assert FindByHash(db, a.hash) == Some(i);
    FoundIsMember(db, db.invitations[i].tenant, Invitee(a));
    m := AcceptedMembership(db, db.invitations[i], a).0;
  }

  // ----- inviting

  /** A new invitation is accepted exactly before it expires, by its address, with a fitting account. */
  lemma InviteThenAccept(db: Db, invite: Action, after: Db, a: Acceptance)
    requires Inv(db) && invite.CreateInvitation? && Commits(db, invite, after)
    requires a.hash == invite.hash
    ensures Refusal(after, AcceptInvitation(a)).None? <==>
              a.email == invite.email && a.now < invite.expiresAt && Identifies(db, a) && MayJoin(db, a, invite.tenant)
  {
    CommitKeepsInv(db, invite, after);
    AcceptanceGrantedExactly(after, a);
    assert Identifies(after, a) <==> Identifies(db, a);
    assert forall m :: Member(after, m, invite.tenant, Invitee(a)) <==> Member(db, m, invite.tenant, Invitee(a));
    assert after.invitations[invite.id].tokenHash == Some(a.hash);
    assert forall i :: Invites(after, a, i) ==> i == invite.id;
    assert Invites(after, a, invite.id) <==> a.email == invite.email && a.now < invite.expiresAt;
    assert MayJoin(after, a, invite.tenant) <==> MayJoin(db, a, invite.tenant);
  }

  /**
   Inviting is granted exactly for a role of the tenant, with a new id and a new
   hash, and adds one unused invitation.
   */
  lemma InviteGrantedExactly(db: Db, id: InvitationId, tenant: TenantId, email: Email, role: RoleId, hash: TokenHash,
                             expiresAt: int)
    ensures var invite := CreateInvitation(id, tenant, email, role, hash, expiresAt);
            && (Refusal(db, invite).None? <==>
                  && id !in db.invitations && tenant in db.tenants && RoleOfTenant(db, role, tenant)
                  && forall i :: i in db.invitations ==> db.invitations[i].tokenHash != Some(hash))
            && (Refusal(db, invite).None? ==>
                  var row := Invitation(tenant, email, role, Some(hash), expiresAt, None, None, None, Queued);
                  Effect(db, invite) == db.(
                    invitations := db.invitations[id := row],
                    audit := db.audit + [AuditEvent(InvitationCreated, Some(tenant), None, None)]))
  {
    assert forall i :: HasHash(db, i, hash) <==> i in db.invitations && db.invitations[i].tokenHash == Some(hash);
  }

  // ----- revoking and anonymizing

  /** Revoking is granted exactly for an unused and unrevoked invitation, and only dates its revocation. */
  lemma RevokeExactly(db: Db, id: InvitationId, now: int)
    ensures var revoke := RevokeInvitation(id, now);
            && (Refusal(db, revoke).None? <==>
                  id in db.invitations && db.invitations[id].usedAt == None && db.invitations[id].revokedAt == None)
            && (Refusal(db, revoke).Some? ==> Refusal(db, revoke) == Some(InvitationInvalid))
            && (Refusal(db, revoke).None? ==>
                  var row := db.invitations[id];
                  Effect(db, revoke) == db.(
                    invitations := db.invitations[id := Invitation(row.tenant, row.email, row.role, row.tokenHash,
                      row.expiresAt, None, Some(now), row.anonymizedAt, row.delivery)],
                    audit := db.audit + [AuditEvent(InvitationRevoked, Some(row.tenant), None, None)]))
  {
  }

  /**
   Anonymizing is granted exactly for invitations that are not anonymized yet and
   expired or were used before the cutoff; a live one is never blanked.
   */
  lemma AnonymizeGrantedExactly(db: Db, ids: set<InvitationId>, before: int, now: int)
    ensures Refusal(db, Anonymize(ids, before, now)).None? <==>
              forall i :: i in ids ==>
                && i in db.invitations && db.invitations[i].anonymizedAt == None
                && (db.invitations[i].expiresAt < before
                    || (db.invitations[i].usedAt.Some? && db.invitations[i].usedAt.value < before))
  {
  }

  /** An anonymized invitation has the empty address and no token, and all else it had. */
  lemma AnonymizeWrites(db: Db, ids: set<InvitationId>, before: int, now: int, after: Db, i: InvitationId)
    requires Commits(db, Anonymize(ids, before, now), after) && i in db.invitations
    ensures i in after.invitations && after.invitations.Keys == db.invitations.Keys
    ensures i !in ids ==> after.invitations[i] == db.invitations[i]
    ensures i in ids ==>
              var row := db.invitations[i];
              after.invitations[i] == Invitation(row.tenant, 0, row.role, None, row.expiresAt, row.usedAt,
                                                 row.revokedAt, Some(now), row.delivery)
    ensures after == db.(invitations := after.invitations)
  {
  }

  // ----- roles, registration, super administrators

  /**
   Editing is granted exactly for custom roles of the tenant under their latest
   revision; deleting also needs that nothing refers to the role.
   */
  lemma RoleWritesGrantedExactly(db: Db, role: RoleId, tenant: TenantId, revision: nat)
    ensures Refusal(db, UpdateRole(role, tenant, revision)).None? <==>
              RoleOfTenant(db, role, tenant) && db.roles[role].revision == revision && db.roles[role].kind == Custom
    ensures Refusal(db, DeleteRole(role, tenant, revision)).None? <==>
              && RoleOfTenant(db, role, tenant) && db.roles[role].revision == revision && db.roles[role].kind == Custom
              && (forall m :: m in db.memberships ==> db.memberships[m].role != role)
              && (forall i :: i in db.invitations ==> db.invitations[i].role != role)
  {
  }

  lemma RoleWrites(db: Db, action: Action, after: Db)
    requires Commits(db, action, after) && (action.CreateRole? || action.UpdateRole? || action.DeleteRole?)
    ensures match action
            case CreateRole(role, tenant) =>
              role !in db.roles && after.roles == db.roles[role := Role(tenant, Custom, 1)]
            case UpdateRole(role, tenant, revision) =>
              after.roles == db.roles[role := Role(tenant, Custom, revision + 1)]
            case DeleteRole(role, _, _) => after.roles == db.roles - {role}
            case _ => true
    ensures after.memberships == db.memberships && after.invitations == db.invitations && after.users == db.users
  {
  }

  /**
   Registration is granted exactly with a free address and new ids, and leaves a
   tenant whose only member administers it.
   */
  lemma RegistrationExactly(db: Db, action: Action)
    requires Inv(db) && action.RegisterOwner?
    ensures Refusal(db, action).None? <==>
              && action.tenant !in db.tenants && action.administrator != action.standard
              && action.administrator !in db.roles && action.administrator !in db.retired
              && action.standard !in db.roles && action.standard !in db.retired
              && (forall u :: u in db.users ==> db.users[u].email != action.email)
              && action.user !in db.users && action.membership !in db.memberships
    ensures Refusal(db, action).None? ==>
              var after := Effect(db, action);
              && after.users == db.users[action.user := User(action.email, false, 1)]
              && after.roles == db.roles[action.administrator := Role(action.tenant, Administrator, 1)]
                                        [action.standard := Role(action.tenant, StandardUser, 1)]
              && after.memberships == db.memberships[action.membership :=
                   Membership(action.tenant, action.user, action.administrator, Active, 1)]
              && after.tenants == db.tenants + {action.tenant} && after.invitations == db.invitations
              && HasAdministrator(after, action.tenant)
  {
    if Refusal(db, action).None? {
      assert ActiveAdministrator(Effect(db, action), action.membership);
    }
  }

  /** Ensuring a super administrator twice is ensuring it once. */
  lemma SuperAdministratorOnce(db: Db, user: UserId, email: Email, later: UserId)
    requires Refusal(db, EnsureSuperAdmin(user, email)).None?
    ensures var after := Effect(db, EnsureSuperAdmin(user, email));
            && (exists u :: u in after.users && after.users[u].email == email && after.users[u].superAdministrator)
            && Refusal(after, EnsureSuperAdmin(later, email)).None?
            && Effect(after, EnsureSuperAdmin(later, email)) == after
            && (forall u :: u in db.users ==> u in after.users && after.users[u] == db.users[u])
            && after == db.(users := after.users)
  {
    var after := Effect(db, EnsureSuperAdmin(user, email));
    if !IsSuperAdministrator(db, email) {
      assert after.users[user] == User(email, true, 1);
    }
  }

  /** Logging out and switching are granted to every existing user, and change nothing but that user's version. */
  lemma SessionWrites(db: Db, user: UserId, tenant: TenantId)
    ensures Refusal(db, Action.Logout(user)).None? <==> user in db.users
    ensures Refusal(db, Action.SwitchTenant(user, tenant)).None? <==> user in db.users
    ensures user in db.users ==>
              var row := db.users[user];
              var users := db.users[user := User(row.email, row.superAdministrator, row.sessionVersion + 1)];
              && Effect(db, Action.Logout(user)) ==
                 db.(users := users, audit := db.audit + [AuditEvent(SessionLogout, None, None, None)])
              && Effect(db, Action.SwitchTenant(user, tenant)) ==
                 db.(users := users, audit := db.audit + [AuditEvent(TenantSwitch, Some(tenant), None, None)])
  {
  }
}
