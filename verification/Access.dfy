/**
 Membership updates, invitations, roles and session versions as atomic
 transactions: `Apply` says, for one transaction executed alone, which error it
 returns or what it leaves in the tables.

 (server/postgres/memberships.go, invitations.go, invitation_administration.go,
 roles.go, users.go, tenant_provisioner.go.)  The module `Interleaving` shows
 that transactions running statement by statement next to each other commit
 nothing else; `AccessStore` executes them on mutable tables.
 */
module Access {
  import opened Wrappers
  import opened Records

  datatype AuditAction =
    | TenantRegistered | TenantCreated
    | RoleCreated | RoleUpdated | RoleDeleted
    | InvitationCreated | InvitationAccepted | InvitationRevoked
    | MembershipUpdated
    | SessionLogout | TenantSwitch

  /**
   One row of the append-only audit table.  The last two fields say which
   invitation was consumed and which membership was written; the table itself
   only names actor, tenant and target.
   */
  datatype AuditEvent = AuditEvent(
    action: AuditAction,
    tenant: Option<TenantId>,
    invitation: Option<InvitationId>,
    membership: Option<MembershipId>)

  /** `retired` holds the ids of deleted roles: a newly generated id is none of them. */
  datatype Db = Db(
    tenants: set<TenantId>,
    users: map<UserId, User>,
    roles: map<RoleId, Role>,
    retired: set<RoleId>,
    memberships: map<MembershipId, Membership>,
    invitations: map<InvitationId, Invitation>,
    audit: seq<AuditEvent>)

  // ----- requests

  datatype MembershipUpdate = MembershipUpdate(
    membership: MembershipId, tenant: TenantId, role: RoleId, status: MembershipStatus, revision: nat)

  /** `existing` is the account found for the email before the transaction; the other two ids are newly generated. */
  datatype Acceptance = Acceptance(
    hash: TokenHash, email: Email, existing: Option<UserId>,
    newUser: UserId, newMembership: MembershipId, now: int)

  datatype Action =
    | RegisterOwner(tenant: TenantId, email: Email, user: UserId, membership: MembershipId,
                    administrator: RoleId, standard: RoleId)
    | CreateTenant(tenant: TenantId, administrator: RoleId, standard: RoleId)
    | CreateRole(role: RoleId, tenant: TenantId)
    | UpdateRole(role: RoleId, tenant: TenantId, revision: nat)
    | DeleteRole(role: RoleId, tenant: TenantId, revision: nat)
    | CreateInvitation(id: InvitationId, tenant: TenantId, email: Email, role: RoleId, hash: TokenHash, expiresAt: int)
    | UpdateMembership(update: MembershipUpdate)
    | AcceptInvitation(acceptance: Acceptance)
    | RevokeInvitation(id: InvitationId, now: int)
    | Anonymize(ids: set<InvitationId>, before: int, now: int)
    | EnsureSuperAdmin(user: UserId, email: Email)
    | Logout(user: UserId)
    | SwitchTenant(user: UserId, tenant: TenantId)

  // ----- reading the tables

  predicate IsRole(db: Db, role: RoleId, tenant: TenantId) {
    role in db.roles && db.roles[role].tenant == tenant
  }

  predicate ActiveAdministrator(db: Db, m: MembershipId) {
    && m in db.memberships
    && db.memberships[m].status == Active
    && db.memberships[m].role in db.roles
    && db.roles[db.memberships[m].role].kind == Administrator
  }

  /** Some membership of the tenant other than `except` is an active administrator. */
  predicate OtherAdministrator(db: Db, tenant: TenantId, except: MembershipId) {
    exists m :: m in db.memberships && m != except && db.memberships[m].tenant == tenant && ActiveAdministrator(db, m)
  }

  predicate HasAdministrator(db: Db, tenant: TenantId) {
    exists m :: m in db.memberships && db.memberships[m].tenant == tenant && ActiveAdministrator(db, m)
  }

  predicate RemovesAdministrator(status: MembershipStatus, current: RoleKind, target: RoleKind) {
    current == Administrator && (status != Active || target != Administrator)
  }

  predicate EmailInUse(db: Db, email: Email) {
    exists u :: u in db.users && db.users[u].email == email
  }

  /** A role that a membership or an invitation refers to. */
  predicate RoleInUse(db: Db, role: RoleId) {
    || (exists m :: m in db.memberships && db.memberships[m].role == role)
    || (exists i :: i in db.invitations && db.invitations[i].role == role)
  }

  predicate IsMembershipOf(db: Db, m: MembershipId, tenant: TenantId, user: UserId) {
    m in db.memberships && db.memberships[m].tenant == tenant && db.memberships[m].user == user
  }

  predicate HasHash(db: Db, i: InvitationId, hash: TokenHash) {
    i in db.invitations && db.invitations[i].tokenHash == Some(hash)
  }

  ghost function FindMembership(db: Db, tenant: TenantId, user: UserId): (found: Option<MembershipId>)
    ensures found.Some? ==> IsMembershipOf(db, found.value, tenant, user)
    ensures found.None? ==> forall m :: !IsMembershipOf(db, m, tenant, user)
  {
    if exists m :: IsMembershipOf(db, m, tenant, user) then
      var m :| IsMembershipOf(db, m, tenant, user); Some(m)
    else None
  }

  ghost function FindByHash(db: Db, hash: TokenHash): (found: Option<InvitationId>)
    ensures found.Some? ==> HasHash(db, found.value, hash)
    ensures found.None? ==> forall i :: !HasHash(db, i, hash)
  {
    if exists i :: HasHash(db, i, hash) then
      var i :| HasHash(db, i, hash); Some(i)
    else None
  }

  // ----- writing rows

  function BumpSession(users: map<UserId, User>, u: UserId): map<UserId, User>
    requires u in users
  {
    users[u := users[u].(sessionVersion := users[u].sessionVersion + 1)]
  }

  function Updated(row: Membership, update: MembershipUpdate): Membership {
    row.(role := update.role, status := update.status, revision := row.revision + 1)
  }

  function Reactivated(row: Membership, role: RoleId): Membership {
    row.(role := role, status := Active, revision := row.revision + 1)
  }

  /** Long expired or long used, and not anonymized yet. */
  predicate Anonymizable(row: Invitation, before: int) {
    row.anonymizedAt.None? && (row.expiresAt < before || (row.usedAt.Some? && row.usedAt.value < before))
  }

  function Anonymized(row: Invitation, now: int): Invitation {
    row.(email := NO_EMAIL, tokenHash := None, anonymizedAt := Some(now))
  }

  // ----- the two long transactions

  /** The error a membership update executed alone would return. */
  function UpdateRefusal(db: Db, update: MembershipUpdate): Option<Error> {
    if update.tenant !in db.tenants then Some(Conflict)
    else if update.membership !in db.memberships || db.memberships[update.membership].tenant != update.tenant then
      Some(MembershipNotFound)
    else if db.memberships[update.membership].role !in db.roles then Some(MembershipNotFound)
    else if !IsRole(db, update.role, update.tenant) then Some(RoleNotFound)
    else
      var row := db.memberships[update.membership];
      if && RemovesAdministrator(update.status, db.roles[row.role].kind, db.roles[update.role].kind)
         && !OtherAdministrator(db, update.tenant, update.membership) then Some(Conflict)
      else if row.revision != update.revision then Some(Conflict)
      else if row.user !in db.users then Some(Internal)
      else None
  }

  function UpdateEffect(db: Db, update: MembershipUpdate): Db
    requires UpdateRefusal(db, update).None?
  {
    var row := db.memberships[update.membership];
    db.(memberships := db.memberships[update.membership := Updated(row, update)],
        users := BumpSession(db.users, row.user),
        audit := db.audit + [AuditEvent(MembershipUpdated, Some(update.tenant), None, Some(update.membership))])
  }

  /** Whether a located invitation can be accepted now, and by this address. */
  function InvitationRefusal(row: Invitation, email: Email, now: int): Option<Error> {
    if row.usedAt.Some? then Some(InvitationUsed)
    else if row.revokedAt.Some? then Some(InvitationInvalid)
    else if row.expiresAt <= now then Some(InvitationExpired)
    else if row.email != email then Some(InviteEmailMismatch)
    else None
  }

  /** Whether the account may be used, or a new one created. */
  function IdentityRefusal(db: Db, a: Acceptance): Option<Error> {
    match a.existing
    case Some(u) =>
      if u !in db.users then Some(UserNotFound)
      else if db.users[u].email != a.email || db.users[u].superAdministrator then Some(Unauthorized)
      else None
    case None =>
      if EmailInUse(db, a.email) then Some(EmailTaken)
      else if a.newUser in db.users then Some(Internal)
      else None
  }

  function AcceptingUser(a: Acceptance): UserId {
    match a.existing case Some(u) => u case None => a.newUser
  }

  /** Whether the membership can be created or reactivated. */
  ghost function MembershipRefusal(db: Db, row: Invitation, a: Acceptance): Option<Error> {
    if row.tenant !in db.tenants || !IsRole(db, row.role, row.tenant) then Some(RoleNotFound)
    else match FindMembership(db, row.tenant, AcceptingUser(a))
      case Some(m) => if db.memberships[m].status == Active then Some(Conflict) else None
      case None => if a.newMembership in db.memberships then Some(Conflict) else None
  }

  ghost function AcceptRefusal(db: Db, a: Acceptance): Option<Error> {
    match FindByHash(db, a.hash)
    case None => Some(InvitationInvalid)
    case Some(i) =>
      var row := db.invitations[i];
      var invitation := InvitationRefusal(row, a.email, a.now);
      if invitation.Some? then invitation
      else
        var identity := IdentityRefusal(db, a);
        if identity.Some? then identity else MembershipRefusal(db, row, a)
  }

  function AcceptedUsers(users: map<UserId, User>, a: Acceptance): map<UserId, User>
    requires a.existing.Some? ==> a.existing.value in users
  {
    match a.existing
    case Some(u) => BumpSession(users, u)
    case None => users[a.newUser := User(a.email, false, 1)]
  }

  /** The id and the row of the membership that the acceptance writes. */
  ghost function AcceptedMembership(db: Db, row: Invitation, a: Acceptance): (MembershipId, Membership) {
    match FindMembership(db, row.tenant, AcceptingUser(a))
    case Some(m) => (m, Reactivated(db.memberships[m], row.role))
    case None => (a.newMembership, Membership(row.tenant, AcceptingUser(a), row.role, Active, 1))
  }

  ghost function AcceptEffect(db: Db, a: Acceptance): Db
    requires AcceptRefusal(db, a).None?
  {
    var i := FindByHash(db, a.hash).value;
    var row := db.invitations[i];
    var (m, membership) := AcceptedMembership(db, row, a);
    db.(users := AcceptedUsers(db.users, a),
        memberships := db.memberships[m := membership],
        invitations := db.invitations[i := row.(usedAt := Some(a.now))],
        audit := db.audit + [AuditEvent(InvitationAccepted, Some(row.tenant), Some(i), Some(m))])
  }

  // ----- the short transactions

  predicate FreshRoles(db: Db, administrator: RoleId, standard: RoleId) {
    administrator != standard && {administrator, standard} !! db.roles.Keys + db.retired
  }

  function WithDefaultRoles(roles: map<RoleId, Role>, tenant: TenantId, administrator: RoleId,
          standard: RoleId): map<RoleId, Role> {
    roles[administrator := Role(tenant, Administrator, 1)][standard := Role(tenant, StandardUser, 1)]
  }

  function TenantRefusal(db: Db, tenant: TenantId, administrator: RoleId, standard: RoleId): Option<Error> {
    if tenant in db.tenants || !FreshRoles(db, administrator, standard) then Some(Internal) else None
  }

  function TenantEffect(db: Db, tenant: TenantId, administrator: RoleId, standard: RoleId): Db {
    db.(tenants := db.tenants + {tenant},
        roles := WithDefaultRoles(db.roles, tenant, administrator, standard),
        audit := db.audit + [AuditEvent(TenantCreated, Some(tenant), None, None)])
  }

  function OwnerRefusal(db: Db, action: Action): Option<Error>
    requires action.RegisterOwner?
  {
    var tenant := TenantRefusal(db, action.tenant, action.administrator, action.standard);
    if tenant.Some? then tenant
    else if EmailInUse(db, action.email) then Some(EmailTaken)
    else if action.user in db.users || action.membership in db.memberships then Some(Internal)
    else None
  }

  /** A new tenant, its two protected roles, and its owner as first administrator. */
  function OwnerEffect(db: Db, action: Action): Db
    requires action.RegisterOwner?
  {
    db.(tenants := db.tenants + {action.tenant},
        roles := WithDefaultRoles(db.roles, action.tenant, action.administrator, action.standard),
        users := db.users[action.user := User(action.email, false, 1)],
        memberships := db.memberships[action.membership :=
          Membership(action.tenant, action.user, action.administrator, Active, 1)],
        audit := db.audit + [AuditEvent(TenantRegistered, Some(action.tenant), None, Some(action.membership))])
  }

  function CreateRoleEffect(db: Db, role: RoleId, tenant: TenantId): Db {
    db.(roles := db.roles[role := Role(tenant, Custom, 1)],
        audit := db.audit + [AuditEvent(RoleCreated, Some(tenant), None, None)])
  }

  /** Only custom roles can be edited, and only by a writer that has seen their latest revision. */
  predicate EditableRole(db: Db, role: RoleId, tenant: TenantId, revision: nat) {
    IsRole(db, role, tenant) && db.roles[role].revision == revision && db.roles[role].kind == Custom
  }

  function UpdateRoleEffect(db: Db, role: RoleId, tenant: TenantId): Db
    requires role in db.roles
  {
    db.(roles := db.roles[role := db.roles[role].(revision := db.roles[role].revision + 1)],
        audit := db.audit + [AuditEvent(RoleUpdated, Some(tenant), None, None)])
  }

  function DeleteRoleEffect(db: Db, role: RoleId, tenant: TenantId): Db {
    db.(roles := db.roles - {role},
        retired := db.retired + {role},
        audit := db.audit + [AuditEvent(RoleDeleted, Some(tenant), None, None)])
  }

  ghost function InviteRefusal(db: Db, action: Action): Option<Error>
    requires action.CreateInvitation?
  {
    if action.id in db.invitations || action.tenant !in db.tenants || !IsRole(db, action.role, action.tenant) then
      Some(Internal)
    else if FindByHash(db, action.hash).Some? then Some(Internal)
    else None
  }

  function InviteEffect(db: Db, action: Action): Db
    requires action.CreateInvitation?
  {
    var row := Invitation(action.tenant, action.email, action.role, Some(action.hash), action.expiresAt,
                          None, None, None, Queued);
    db.(invitations := db.invitations[action.id := row],
        audit := db.audit + [AuditEvent(InvitationCreated, Some(action.tenant), None, None)])
  }

  function RevokeRefusal(db: Db, id: InvitationId): Option<Error> {
    if id !in db.invitations || db.invitations[id].usedAt.Some? || db.invitations[id].revokedAt.Some?
    then Some(InvitationInvalid) else None
  }

  function RevokeEffect(db: Db, id: InvitationId, now: int): Db
    requires id in db.invitations
  {
    var row := db.invitations[id];
    db.(invitations := db.invitations[id := row.(revokedAt := Some(now))],
        audit := db.audit + [AuditEvent(InvitationRevoked, Some(row.tenant), None, None)])
  }

  predicate AllAnonymizable(db: Db, ids: set<InvitationId>, before: int) {
    forall i :: i in ids ==> i in db.invitations && Anonymizable(db.invitations[i], before)
  }

  function AnonymizeEffect(db: Db, ids: set<InvitationId>, now: int): Db {
    db.(invitations := map i | i in db.invitations ::
      if i in ids then Anonymized(db.invitations[i], now) else db.invitations[i])
  }

  predicate IsSuperAdministrator(db: Db, email: Email) {
    exists u :: u in db.users && db.users[u].email == email && db.users[u].superAdministrator
  }

  function SuperAdminRefusal(db: Db, user: UserId, email: Email): Option<Error> {
    if IsSuperAdministrator(db, email) then None
    else if EmailInUse(db, email) then Some(EmailTaken)
    else if user in db.users then Some(Internal)
    else None
  }

  function SuperAdminEffect(db: Db, user: UserId, email: Email): Db {
    if IsSuperAdministrator(db, email) then db else db.(users := db.users[user := User(email, true, 1)])
  }

  function SessionEffect(db: Db, user: UserId, event: AuditEvent): Db
    requires user in db.users
  {
    db.(users := BumpSession(db.users, user), audit := db.audit + [event])
  }

  // ----- every transaction

  /** The error that the transaction executed alone returns. */
  ghost function Refusal(db: Db, action: Action): Option<Error> {
    match action
    case RegisterOwner(_, _, _, _, _, _) => OwnerRefusal(db, action)
    case CreateTenant(tenant, administrator, standard) => TenantRefusal(db, tenant, administrator, standard)
    case CreateRole(role, tenant) => if role in db.roles || tenant !in db.tenants then Some(Conflict) else None
    case UpdateRole(role, tenant, revision) => if EditableRole(db, role, tenant, revision) then None else Some(Conflict)
    case DeleteRole(role, tenant, revision) =>
      if EditableRole(db, role, tenant, revision) && !RoleInUse(db, role) then None else Some(Conflict)
    case CreateInvitation(_, _, _, _, _, _) => InviteRefusal(db, action)
    case UpdateMembership(update) => UpdateRefusal(db, update)
    case AcceptInvitation(a) => AcceptRefusal(db, a)
    case RevokeInvitation(id, _) => RevokeRefusal(db, id)
    case Anonymize(ids, before, _) => if AllAnonymizable(db, ids, before) then None else Some(Internal)
    case EnsureSuperAdmin(user, email) => SuperAdminRefusal(db, user, email)
    case Logout(user) => if user in db.users then None else Some(InvalidCredentials)
    case SwitchTenant(user, _) => if user in db.users then None else Some(InvalidCredentials)
  }

  /** The tables that the transaction leaves when it is not refused. */
  ghost function Effect(db: Db, action: Action): Db
    requires Refusal(db, action).None?
  {
    match action
    case RegisterOwner(_, _, _, _, _, _) => OwnerEffect(db, action)
    case CreateTenant(tenant, administrator, standard) => TenantEffect(db, tenant, administrator, standard)
    case CreateRole(role, tenant) => CreateRoleEffect(db, role, tenant)
    case UpdateRole(role, tenant, _) => UpdateRoleEffect(db, role, tenant)
    case DeleteRole(role, tenant, _) => DeleteRoleEffect(db, role, tenant)
    case CreateInvitation(_, _, _, _, _, _) => InviteEffect(db, action)
    case UpdateMembership(update) => UpdateEffect(db, update)
    case AcceptInvitation(a) => AcceptEffect(db, a)
    case RevokeInvitation(id, now) => RevokeEffect(db, id, now)
    case Anonymize(ids, _, now) => AnonymizeEffect(db, ids, now)
    case EnsureSuperAdmin(user, email) => SuperAdminEffect(db, user, email)
    case Logout(user) => SessionEffect(db, user, AuditEvent(SessionLogout, None, None, None))
    case SwitchTenant(user, tenant) => SessionEffect(db, user, AuditEvent(TenantSwitch, Some(tenant), None, None))
  }

  /** `after` is what one transaction committed on `before`. */
  ghost predicate Commits(before: Db, action: Action, after: Db) {
    Refusal(before, action).None? && after == Effect(before, action)
  }
}
