/**
 The transactions of `Access` executed on mutable tables, one statement after the
 other and in the order of the program (server/postgres/memberships.go:130-295,
 invitations.go:167-605, invitation_administration.go:76-101, users.go:187-267,
 outbox.go:354-395).  A transaction that returns an error is rolled back, whatever
 it had written by then.
 */
module AccessStore {
  import opened Wrappers
  import opened Records
  import opened Access
  import opened AccessSafety
  import opened AccessLaws

  class Store {
    var tenants: set<TenantId>
    var users: map<UserId, User>
    var roles: map<RoleId, Role>
    var retired: set<RoleId>
    var memberships: map<MembershipId, Membership>
    var invitations: map<InvitationId, Invitation>
    var audit: seq<AuditEvent>

    function Tables(): Db
      reads this
    {
      Db(tenants, users, roles, retired, memberships, invitations, audit)
    }

    ghost predicate Valid()
      reads this
    {
      Inv(Tables())
    }

    constructor ()
      ensures Valid()
      ensures tenants == {} && users == map[] && roles == map[] && memberships == map[] && invitations == map[]
                && audit == []
    {
      tenants, users, roles, retired := {}, map[], map[], {};
      memberships, invitations, audit := map[], map[], [];
    }

    /** Rolls back to the tables a transaction started from. */
    method Rollback(saved: Db)
      modifies this
      ensures Tables() == saved
    {
      tenants, users, roles, retired := saved.tenants, saved.users, saved.roles, saved.retired;
      memberships, invitations, audit := saved.memberships, saved.invitations, saved.audit;
    }

    // ----- membership updates

    /** Updates the membership as the atomic transaction says, or leaves every table as it was. */
    method UpdateMembership(update: MembershipUpdate) returns (r: Result<Membership, Error>)
      requires Valid()
      modifies this
      ensures Valid()
      ensures r.Ok? <==> Refusal(old(Tables()), Action.UpdateMembership(update)).None?
      ensures r.Ok? ==> Commits(old(Tables()), Action.UpdateMembership(update), Tables())
      ensures r.Ok? <==> MayUpdate(old(Tables()), update)
      ensures r.Ok? ==> update.membership in memberships && memberships[update.membership] == r.value
      ensures r.Ok? ==> var row := old(memberships)[update.membership];
                r.value == Membership(row.tenant, row.user, update.role, update.status, update.revision + 1)
      ensures r.Ok? ==> SameBut(old(memberships), memberships, update.membership)
      ensures r.Err? ==> Tables() == old(Tables())
      ensures r.Err? ==> Refusal(old(Tables()), Action.UpdateMembership(update)) == Some(r.error)
    {
      var saved := Tables();
      UpdateGrantedExactly(saved, update);
      r := UpdateMembershipTx(update);
      if r.Err? {
        Rollback(saved);
      } else {
        UpdateWrites(saved, update, Tables());
        CommitKeepsInv(saved, Action.UpdateMembership(update), Tables());
      }
    }

    method UpdateMembershipTx(update: MembershipUpdate) returns (r: Result<Membership, Error>)
      requires Valid()
      modifies this
      ensures match UpdateRefusal(old(Tables()), update)
              case None => Tables() == UpdateEffect(old(Tables()), update)
                           && update.membership in memberships && r == Ok(memberships[update.membership])
              case Some(e) => r == Err(e)
    {
      if update.tenant !in tenants {
        return Err(Conflict);
      }
      var locked := LockMembership(update.membership, update.tenant);
      if locked.Err? {
        return Err(locked.error);
      }
      var (user, current) := locked.value;
      if update.role !in roles || roles[update.role].tenant != update.tenant {
        return Err(RoleNotFound);
      }
      var allowed := ProtectFinalAdministrator(update, current, roles[update.role].kind);
      if !allowed {
        return Err(Conflict);
      }
      if memberships[update.membership].revision != update.revision {
        return Err(Conflict);
      }
      assert SoundMembership(Tables(), memberships[update.membership]);
      memberships := memberships[update.membership :=
        memberships[update.membership].(role := update.role, status := update.status,
                                        revision := memberships[update.membership].revision + 1)];
      users := users[user := users[user].(sessionVersion := users[user].sessionVersion + 1)];
      audit := audit + [AuditEvent(MembershipUpdated, Some(update.tenant), None, Some(update.membership))];
      return Ok(memberships[update.membership]);
    }

    /** The user of the membership, and the kind of the role it has now. */
    method LockMembership(m: MembershipId, tenant: TenantId) returns (r: Result<(UserId, RoleKind), Error>)
      ensures r.Ok? <==> m in memberships && memberships[m].tenant == tenant && memberships[m].role in roles
      ensures r.Ok? ==> r.value == (memberships[m].user, roles[memberships[m].role].kind)
      ensures r.Err? ==> r.error == MembershipNotFound
    {
      if m !in memberships || memberships[m].tenant != tenant || memberships[m].role !in roles {
        return Err(MembershipNotFound);
      }
      return Ok((memberships[m].user, roles[memberships[m].role].kind));
    }

    /** Refuses exactly the updates that would take the tenant's last active administrator away. */
    method ProtectFinalAdministrator(update: MembershipUpdate, current: RoleKind, target: RoleKind)
      returns (allowed: bool)
      ensures allowed <==> (RemovesAdministrator(update.status, current, target) ==>
                              OtherAdministrator(Tables(), update.tenant, update.membership))
    {
      if !RemovesAdministrator(update.status, current, target) {
        return true;
      }
      var others := set m | m in memberships && m != update.membership && memberships[m].tenant == update.tenant
                            && memberships[m].status == Active
                            && memberships[m].role in roles && roles[memberships[m].role].kind == Administrator;
      assert forall m :: m in others ==> ActiveAdministrator(Tables(), m);
      assert OtherAdministrator(Tables(), update.tenant, update.membership) ==> others != {} by {
        if OtherAdministrator(Tables(), update.tenant, update.membership) {
          var m :| m in memberships && m != update.membership && memberships[m].tenant == update.tenant
              && ActiveAdministrator(Tables(), m);
          assert m in others;
        }
      }
      return |others| != 0;
    }

    // ----- invitations

    /** Accepts the invitation as the atomic transaction says, or leaves every table as it was. */
    method AcceptInvitation(a: Acceptance) returns (r: Result<UserId, Error>)
      requires Valid()
      modifies this
      ensures Valid()
      ensures r.Ok? <==> Refusal(old(Tables()), Action.AcceptInvitation(a)).None?
      ensures r.Ok? <==> MayAccept(old(Tables()), a)
      ensures r.Ok? ==> Commits(old(Tables()), Action.AcceptInvitation(a), Tables()) && r.value == Invitee(a)
      ensures r.Err? ==> Tables() == old(Tables())
      ensures r.Err? ==> Refusal(old(Tables()), Action.AcceptInvitation(a)) == Some(r.error)
    {
      var saved := Tables();
      AcceptanceGrantedExactly(saved, a);
      r := AcceptInvitationTx(a);
      if r.Err? {
        Rollback(saved);
      } else {
        CommitKeepsInv(saved, Action.AcceptInvitation(a), Tables());
      }
    }

    method AcceptInvitationTx(a: Acceptance) returns (r: Result<UserId, Error>)
      requires Valid()
      modifies this
      ensures match AcceptRefusal(old(Tables()), a)
              case None => Tables() == AcceptEffect(old(Tables()), a) && r == Ok(AcceptingUser(a))
              case Some(e) => r == Err(e)
    {
      var located := LockedInvitation(a.hash, a.now);
      if located.Err? {
        return Err(located.error);
      }
      var id := located.value;
      if invitations[id].email != a.email {
        return Err(InviteEmailMismatch);
      }
      ghost var before := Tables();
      assert SoundInvitation(before, before.invitations[id]);

      var identity := AcceptIdentity(a);
      if identity.Err? {
        return Err(identity.error);
      }
      var user := identity.value;
      var created := CreateMembership(before, invitations[id], user, a);
      if created.Err? {
        return Err(created.error);
      }
      if a.existing.Some? {
        users := users[user := users[user].(sessionVersion := users[user].sessionVersion + 1)];
      }
      invitations := invitations[id := invitations[id].(usedAt := Some(a.now))];
      audit := audit + [AuditEvent(InvitationAccepted, Some(invitations[id].tenant), Some(id), Some(created.value))];
      return Ok(user);
    }

    /** The invitation with this token, when it is unused, unrevoked and not expired. */
    method LockedInvitation(hash: TokenHash, now: int) returns (r: Result<InvitationId, Error>)
      requires Valid()
      ensures match FindByHash(Tables(), hash)
              case None => r == Err(InvitationInvalid)
              case Some(i) =>
                match InvitationRefusal(invitations[i], invitations[i].email, now)
                case Some(e) => r == Err(e)
                case None => r == Ok(i)
    {
      assert forall i :: HasHash(Tables(), i, hash) <==> i in invitations && invitations[i].tokenHash == Some(hash);
      if id :| id in invitations && invitations[id].tokenHash == Some(hash) {
        assert HasHash(Tables(), id, hash);
        if invitations[id].usedAt.Some? {
          return Err(InvitationUsed);
        }
        if invitations[id].revokedAt.Some? {
          return Err(InvitationInvalid);
        }
        if invitations[id].expiresAt <= now {
          return Err(InvitationExpired);
        }
        return Ok(id);
      }
      return Err(InvitationInvalid);
    }

    /** The existing account for the address, or a new one with session version 1. */
    method AcceptIdentity(a: Acceptance) returns (r: Result<UserId, Error>)
      modifies this`users
      ensures match IdentityRefusal(old(Tables()), a)
              case Some(e) => r == Err(e)
              case None =>
                && r == Ok(AcceptingUser(a))
                && users == if a.existing.Some? then old(users) else old(users)[a.newUser := User(a.email, false, 1)]
    {
      if a.existing.Some? {
        var u := a.existing.value;
        if u !in users {
          return Err(UserNotFound);
        }
        if users[u].email != a.email || users[u].superAdministrator {
          return Err(Unauthorized);
        }
        return Ok(u);
      }
      if u :| u in users && users[u].email == a.email {
        return Err(EmailTaken);
      }
      if a.newUser in users {
        return Err(Internal);
      }
      users := users[a.newUser := User(a.email, false, 1)];
      return Ok(a.newUser);
    }

    /** Reactivates an inactive membership of the user, or inserts a new one; an active one is a conflict. */
    method CreateMembership(ghost before: Db, invitation: Invitation, user: UserId, a: Acceptance)
      returns (r: Result<MembershipId, Error>)
      requires before == Tables().(users := before.users) && OneMembershipPerPair(memberships)
      requires user == AcceptingUser(a)
      modifies this`memberships
      ensures match MembershipRefusal(before, invitation, a)
              case Some(e) => r == Err(e)
              case None =>
                var (m, membership) := AcceptedMembership(before, invitation, a);
                r == Ok(m) && memberships == old(memberships)[m := membership]
    {
      if invitation.tenant !in tenants || invitation.role !in roles
         || roles[invitation.role].tenant != invitation.tenant {
        return Err(RoleNotFound);
      }
      assert forall m :: IsMembershipOf(before, m, invitation.tenant, user)
                    <==> m in memberships && memberships[m].tenant == invitation.tenant && memberships[m].user == user;
      if m :| m in memberships && memberships[m].tenant == invitation.tenant && memberships[m].user == user {
        assert IsMembershipOf(before, m, invitation.tenant, user);
        if memberships[m].status == Active {
          return Err(Conflict);
        }
        memberships := memberships[m := memberships[m].(role := invitation.role, status := Active,
                                                       revision := memberships[m].revision + 1)];
        return Ok(m);
      }
      if a.newMembership in memberships {
        return Err(Conflict);
      }
      memberships := memberships[a.newMembership := Membership(invitation.tenant, user, invitation.role, Active, 1)];
      return Ok(a.newMembership);
    }

    /** Revokes an invitation that is neither used nor revoked. */
    method RevokeInvitation(id: InvitationId, now: int) returns (r: Result<(), Error>)
      requires Valid()
      modifies this
      ensures Valid()
      ensures r.Ok? <==>
              id in old(invitations) && old(invitations)[id].usedAt.None? && old(invitations)[id].revokedAt.None?
      ensures r.Ok? ==> Commits(old(Tables()), Action.RevokeInvitation(id, now), Tables())
      ensures r.Err? ==> Tables() == old(Tables())
      ensures r.Err? ==> Refusal(old(Tables()), Action.RevokeInvitation(id, now)) == Some(r.error)
    {
      ghost var before := Tables();
      if id !in invitations || invitations[id].usedAt.Some? || invitations[id].revokedAt.Some? {
        return Err(InvitationInvalid);
      }
      invitations := invitations[id := invitations[id].(revokedAt := Some(now))];
      audit := audit + [AuditEvent(InvitationRevoked, Some(invitations[id].tenant), None, None)];
      CommitKeepsInv(before, Action.RevokeInvitation(id, now), Tables());
      return Ok(());
    }

    /** Takes address and token from every invitation that expired or was used before the cutoff; says how many. */
    method AnonymizeExpiredInvitations(before: int, now: int) returns (affected: nat)
      requires Valid()
      modifies this
      ensures Valid()
      ensures var ids := set i | i in old(invitations) && Anonymizable(old(invitations)[i], before);
              affected == |ids| && Commits(old(Tables()), Anonymize(ids, before, now), Tables())
      ensures forall i :: i in invitations ==> !Anonymizable(invitations[i], before)
    {
      ghost var saved := Tables();
      var ids := set i | i in invitations && Anonymizable(invitations[i], before);
      invitations := map i | i in invitations :: if i in ids then Anonymized(invitations[i], now) else invitations[i];
      CommitKeepsInv(saved, Anonymize(ids, before, now), Tables());
      return |ids|;
    }

    // ----- sessions

    /** Logging out raises the session version of the user. */
    method InvalidateSession(user: UserId) returns (r: Result<(), Error>)
      requires Valid()
      modifies this
      ensures Valid()
      ensures r.Ok? ==> Commits(old(Tables()), Logout(user), Tables())
      ensures r.Err? ==> Tables() == old(Tables()) && Refusal(old(Tables()), Logout(user)) == Some(r.error)
    {
      ghost var before := Tables();
      if user !in users {
        return Err(InvalidCredentials);
      }
      users := users[user := users[user].(sessionVersion := users[user].sessionVersion + 1)];
      audit := audit + [AuditEvent(SessionLogout, None, None, None)];
      CommitKeepsInv(before, Logout(user), Tables());
      return Ok(());
    }

    /** Switching tenants raises the session version too, and returns the new one. */
    method RotateTenantSession(user: UserId, tenant: TenantId) returns (r: Result<nat, Error>)
      requires Valid()
      modifies this
      ensures Valid()
      ensures r.Ok? ==> Commits(old(Tables()), SwitchTenant(user, tenant), Tables())
      ensures r.Ok? ==> user in users && r.value == users[user].sessionVersion
      ensures r.Err? ==> Tables() == old(Tables())
      ensures r.Err? ==> Refusal(old(Tables()), SwitchTenant(user, tenant)) == Some(r.error)
    {
      ghost var before := Tables();
      if user !in users {
        return Err(InvalidCredentials);
      }
      users := users[user := users[user].(sessionVersion := users[user].sessionVersion + 1)];
      audit := audit + [AuditEvent(TenantSwitch, Some(tenant), None, None)];
      CommitKeepsInv(before, SwitchTenant(user, tenant), Tables());
      return Ok(users[user].sessionVersion);
    }

    // ----- reading

    /** The active memberships of the user, each once, in some order. */
    method MembershipsForUser(user: UserId) returns (rows: seq<Membership>)
      ensures forall row :: row in rows <==>
                exists m :: m in memberships && memberships[m] == row && row.user == user && row.status == Active
    {
      rows := [];
      var remaining := set m | m in memberships && memberships[m].user == user && memberships[m].status == Active;
      ghost var all := remaining;
      while remaining != {}
        invariant remaining <= all
        invariant forall row :: row in rows <==> exists m :: m in all && m !in remaining && memberships[m] == row
        decreases remaining
      {
        var m :| m in remaining;
        ghost var before, left := rows, remaining;
        rows := rows + [memberships[m]];
        remaining := remaining - {m};
        forall row ensures row in rows <==> exists n :: n in all && n !in remaining && memberships[n] == row {
          if row in rows && row in before {
            var n :| n in all && n !in left && memberships[n] == row;
            assert n !in remaining;
          }
          if row == memberships[m] {
            assert m in all && m !in remaining;
          }
          if n :| n in all && n !in remaining && memberships[n] == row {
            assert n == m || n !in left;
          }
        }
      }
    }

    /**
     Other requests commit any number of transactions in the meantime.  Callers know
     only that the tables evolve as in some run; the body is one witness of that.
     */
    method OtherTransactions()
      requires Valid()
      modifies this
      ensures Valid() && Evolves(old(Tables()), Tables())
    {
      ghost var start := Tables();
      EvolvesNot(start);
      var count: nat := *;
      while count > 0
        invariant Valid() && Evolves(start, Tables())
      {
        ghost var before := Tables();
        if * {
          var update: MembershipUpdate := *;
          var r := UpdateMembership(update);
          if r.Ok? { EvolvesByCommit(start, before, Action.UpdateMembership(update), Tables()); }
        } else if * {
          var a: Acceptance := *;
          var r := AcceptInvitation(a);
          if r.Ok? { EvolvesByCommit(start, before, Action.AcceptInvitation(a), Tables()); }
        } else if * {
          var user: UserId := *;
          var r := InvalidateSession(user);
          if r.Ok? { EvolvesByCommit(start, before, Logout(user), Tables()); }
        } else {
          var user: UserId, tenant: TenantId := *, *;
          var r := RotateTenantSession(user, tenant);
          if r.Ok? { EvolvesByCommit(start, before, SwitchTenant(user, tenant), Tables()); }
        }
        count := count - 1;
      }
    }
  }
}
