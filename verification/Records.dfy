/**
 The rows of the tables that memberships, invitations, sessions and the outbox
 share.  Ids, emails, hashes and texts are only compared for equality, so numbers
 stand for them.  Times are seconds of the one database clock.
 */
module Records {
  import opened Wrappers

  type TenantId = nat
  type UserId = nat
  type RoleId = nat
  type MembershipId = nat
  type InvitationId = nat
  type TokenHash = nat
  type Email = nat

  /** The text '' that anonymization leaves in place of an address. */
  const NO_EMAIL: Email := 0

  datatype RoleKind = Administrator | StandardUser | Custom

  datatype Role = Role(tenant: TenantId, kind: RoleKind, revision: nat)

  datatype User = User(email: Email, superAdministrator: bool, sessionVersion: nat)

  datatype MembershipStatus = Active | Inactive

  datatype Membership = Membership(
    tenant: TenantId, user: UserId, role: RoleId, status: MembershipStatus, revision: nat)

  datatype Delivery = Queued | Retrying | Sent | Failed

  datatype Invitation = Invitation(
    tenant: TenantId,
    email: Email,
    role: RoleId,
    tokenHash: Option<TokenHash>,
    expiresAt: int,
    usedAt: Option<int>,
    revokedAt: Option<int>,
    anonymizedAt: Option<int>,
    delivery: Delivery)

  /** The public error kinds that the modelled operations return. */
  datatype Error =
    | Conflict
    | MembershipNotFound
    | RoleNotFound
    | InvitationInvalid
    | InvitationUsed
    | InvitationExpired
    | InviteEmailMismatch
    | UserNotFound
    | Unauthorized
    | EmailTaken
    | InvalidCredentials
    | LeaseLost
    | Internal
}
