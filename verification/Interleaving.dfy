/**
 Membership updates, acceptances, revocations and anonymization as they really
 run: one SQL statement at a time, next to each other, under row locks.

 Every statement sees committed rows.  A row that a transaction has locked or
 written stays locked until it ends; a statement that needs a locked row waits,
 which here means that its step is not enabled.  Writes become visible at commit.
 Any transaction may abort before it commits (deadlocks, lost connections).

 The main result is a refinement: what an interleaved run commits is what the
 atomic transactions of `Access` commit one after the other.  The promises proved
 for those therefore hold of every interleaving.  It needs the tenant lock:
 `WithoutTenantLock` is a run that loses the last administrator without it.
 (server/postgres/memberships.go:143-295, invitations.go:186-256 and 292-505.)
 */
module Interleaving {
  import opened Wrappers
  import opened Records
  import opened Access
  import opened AccessSafety

  /** What a transaction can hold exclusively: a row, or a value of the unique index on emails. */
  datatype Resource =
    | TenantRow(tenant: TenantId)
    | MembershipRow(membership: MembershipId)
    | UserRow(user: UserId)
    | InvitationRow(invitation: InvitationId)
    | EmailKey(email: Email)

  /** How far a membership update has come, with the values it has read. */
  datatype UpdatePoint =
    | UpdateStarted
    | TenantLocked
    | MembershipLocked(row: Membership, current: RoleKind)
    | TargetRead(row: Membership, current: RoleKind, target: RoleKind)
    | Checked(row: Membership, current: RoleKind, target: RoleKind)
    | Persisted(row: Membership, current: RoleKind, target: RoleKind)
    | SessionBumped(row: Membership, current: RoleKind, target: RoleKind, user: User)

  /** How far an acceptance has come.  `user` is the account it read, or the one it inserted. */
  datatype AcceptPoint =
    | AcceptStarted
    | InvitationLocked(id: InvitationId, invitation: Invitation)
    | Identified(id: InvitationId, invitation: Invitation, user: User)
    | MembershipRead(id: InvitationId, invitation: Invitation, user: User, found: Option<MembershipId>, row: Membership)

  datatype Tx =
    | Updating(update: MembershipUpdate, updateAt: UpdatePoint)
    | Accepting(acceptance: Acceptance, acceptAt: AcceptPoint)
    | Revoking(id: InvitationId, now: int, revoked: Option<Invitation>)
    | Anonymizing(before: int, now: int, rows: map<InvitationId, Invitation>)

  datatype Sys = Sys(db: Db, txs: map<nat, Tx>)

  // ----- locks

  function UpdateHolds(update: MembershipUpdate, at: UpdatePoint, tenantLock: bool): set<Resource> {
    match at
    case UpdateStarted => {}
    case TenantLocked => TenantHeld(update, tenantLock)
    case SessionBumped(row, _, _, _) =>
      TenantHeld(update, tenantLock) + {MembershipRow(update.membership), UserRow(row.user)}
    case _ => TenantHeld(update, tenantLock) + {MembershipRow(update.membership)}
  }

  function TenantHeld(update: MembershipUpdate, tenantLock: bool): set<Resource> {
    if tenantLock then {TenantRow(update.tenant)} else {}
  }

  /** An existing account is locked; for a new one its id and its email are taken. */
  function IdentityHeld(a: Acceptance): set<Resource> {
    {UserRow(AcceptingUser(a))} + if a.existing.None? then {EmailKey(a.email)} else {}
  }

  /** Looking for a membership locks the row found, or nothing; writing a new one takes its id. */
  function AcceptHolds(a: Acceptance, at: AcceptPoint): set<Resource> {
    match at
    case AcceptStarted => {}
    case InvitationLocked(id, _) => {InvitationRow(id)}
    case Identified(id, _, _) => {InvitationRow(id)} + IdentityHeld(a)
    case MembershipRead(id, _, _, found, _) =>
      {InvitationRow(id), MembershipRow(if found.Some? then found.value else a.newMembership)} + IdentityHeld(a)
  }

  function Holds(tx: Tx, tenantLock: bool): set<Resource> {
    match tx
    case Updating(update, at) => UpdateHolds(update, at, tenantLock)
    case Accepting(a, at) => AcceptHolds(a, at)
    case Revoking(id, _, revoked) => if revoked.Some? then {InvitationRow(id)} else {}
    case Anonymizing(_, _, rows) => set i | i in rows :: InvitationRow(i)
  }

  predicate AtMembership(at: UpdatePoint) {
    !at.UpdateStarted? && !at.TenantLocked?
  }

  /**
   What is held from which statement on: the tenant from the first one (`FOR UPDATE`
   on its row), the membership from the second, the account from the raise of its
   session version; the invitation and then the account or its email, and the
   membership that was found; the revoked invitation; each row to be blanked.
   */
  lemma LocksTaken(tx: Tx)
    ensures tx.Updating? && !tx.updateAt.UpdateStarted? ==> TenantRow(tx.update.tenant) in Holds(tx, true)
    ensures tx.Updating? && AtMembership(tx.updateAt) ==> MembershipRow(tx.update.membership) in Holds(tx, true)
    ensures tx.Updating? && tx.updateAt.SessionBumped? ==> UserRow(tx.updateAt.row.user) in Holds(tx, true)
    ensures tx.Accepting? && !tx.acceptAt.AcceptStarted? ==> InvitationRow(tx.acceptAt.id) in Holds(tx, true)
    ensures tx.Accepting? && (tx.acceptAt.Identified? || tx.acceptAt.MembershipRead?) ==>
              if tx.acceptance.existing.Some? then UserRow(tx.acceptance.existing.value) in Holds(tx, true)
              else EmailKey(tx.acceptance.email) in Holds(tx, true)
    ensures tx.Accepting? && tx.acceptAt.MembershipRead? && tx.acceptAt.found.Some? ==>
              MembershipRow(tx.acceptAt.found.value) in Holds(tx, true)
    ensures tx.Revoking? && tx.revoked.Some? ==> InvitationRow(tx.id) in Holds(tx, true)
    ensures tx.Anonymizing? ==> forall i :: i in tx.rows ==> InvitationRow(i) in Holds(tx, true)
    ensures Starting(tx) ==> Holds(tx, true) == {}
  {
  }

  /** A written reference to a role keeps the role from being deleted until commit. */
  predicate SharesRole(tx: Tx, role: RoleId) {
    tx.Updating? && (tx.updateAt.Persisted? || tx.updateAt.SessionBumped?) && tx.update.role == role
  }

  ghost predicate Free(sys: Sys, self: nat, wanted: set<Resource>, tenantLock: bool) {
    forall id :: id in sys.txs && id != self ==> Holds(sys.txs[id], tenantLock) !! wanted
  }

  // ----- statements

  function UpdateNext(db: Db, update: MembershipUpdate, at: UpdatePoint): Result<UpdatePoint, Error> {
    match at
    case UpdateStarted =>
      if update.tenant in db.tenants then Ok(TenantLocked) else Err(Conflict)
    case TenantLocked =>
      if update.membership !in db.memberships || db.memberships[update.membership].tenant != update.tenant then
        Err(MembershipNotFound)
      else if db.memberships[update.membership].role !in db.roles then Err(MembershipNotFound)
      else Ok(MembershipLocked(db.memberships[update.membership],
          db.roles[db.memberships[update.membership].role].kind))
    case MembershipLocked(row, current) =>
      if IsRole(db, update.role, update.tenant) then Ok(TargetRead(row, current, db.roles[update.role].kind))
      else Err(RoleNotFound)
    case TargetRead(row, current, target) =>
      if RemovesAdministrator(update.status, current, target)
         && !OtherAdministrator(db, update.tenant, update.membership)
      then Err(Conflict) else Ok(Checked(row, current, target))
    case Checked(row, current, target) =>
      if update.membership !in db.memberships || db.memberships[update.membership].revision != update.revision then
        Err(Conflict)
      else if !IsRole(db, update.role, update.tenant) then Err(Internal)
      else Ok(Persisted(row, current, target))
    case Persisted(row, current, target) =>
      if row.user in db.users then Ok(SessionBumped(row, current, target, db.users[row.user])) else Err(Internal)
    case SessionBumped(_, _, _, _) => Ok(at)
  }

  ghost function AcceptNext(db: Db, a: Acceptance, at: AcceptPoint): Result<AcceptPoint, Error> {
    match at
    case AcceptStarted =>
      (match FindByHash(db, a.hash)
       case None => Err(InvitationInvalid)
       case Some(id) =>
         var refusal := InvitationRefusal(db.invitations[id], a.email, a.now);
         if refusal.Some? then Err(refusal.value) else Ok(InvitationLocked(id, db.invitations[id])))
    case InvitationLocked(id, invitation) =>
      var refusal := IdentityRefusal(db, a);
      if refusal.Some? then Err(refusal.value)
      else
        Ok(Identified(id, invitation, if a.existing.Some? then db.users[a.existing.value] else User(a.email, false, 1)))
    case Identified(id, invitation, user) =>
      var refusal := MembershipRefusal(db, invitation, a);
      if refusal.Some? then Err(refusal.value)
      else Ok(MembershipRead(id, invitation, user, FindMembership(db, invitation.tenant, AcceptingUser(a)),
                             AcceptedMembership(db, invitation, a).1))
    case MembershipRead(_, _, _, _, _) => Ok(at)
  }

  /** The state of the transaction after its next statement, or the error on which it rolls back. */
  ghost function Next(db: Db, tx: Tx): Result<Tx, Error> {
    match tx
    case Updating(update, at) =>
      (match UpdateNext(db, update, at) case Ok(next) => Ok(Updating(update, next)) case Err(e) => Err(e))
    case Accepting(a, at) =>
      (match AcceptNext(db, a, at) case Ok(next) => Ok(Accepting(a, next)) case Err(e) => Err(e))
    case Revoking(id, now, revoked) =>
      if revoked.Some? then Ok(tx)
      else if RevokeRefusal(db, id).Some? then Err(InvitationInvalid)
      else Ok(Revoking(id, now, Some(db.invitations[id])))
    case Anonymizing(_, _, _) => Ok(tx)
  }

  predicate Starting(tx: Tx) {
    match tx
    case Updating(_, at) => at.UpdateStarted?
    case Accepting(_, at) => at.AcceptStarted?
    case Revoking(_, _, revoked) => revoked.None?
    case Anonymizing(_, _, rows) => rows == map[]
  }

  // ----- commit

  predicate Ready(tx: Tx) {
    match tx
    case Updating(_, at) => at.SessionBumped?
    case Accepting(_, at) => at.MembershipRead?
    case Revoking(_, _, revoked) => revoked.Some?
    case Anonymizing(_, _, _) => true
  }

  function BumpedVersion(user: User): User {
    user.(sessionVersion := user.sessionVersion + 1)
  }

  /** The written rows, computed from the rows that were read, replace what is stored. */
  function Commit(db: Db, tx: Tx): Db
    requires Ready(tx)
  {
    match tx
    case Updating(update, at) =>
      db.(memberships := db.memberships[update.membership := Updated(at.row, update)],
          users := db.users[at.row.user := BumpedVersion(at.user)],
          audit := db.audit + [AuditEvent(MembershipUpdated, Some(update.tenant), None, Some(update.membership))])
    case Accepting(a, at) =>
      var m := if at.found.Some? then at.found.value else a.newMembership;
      db.(users := db.users[AcceptingUser(a) := if a.existing.Some? then BumpedVersion(at.user) else at.user],
          memberships := db.memberships[m := at.row],
          invitations := db.invitations[at.id := at.invitation.(usedAt := Some(a.now))],
          audit := db.audit + [AuditEvent(InvitationAccepted, Some(at.invitation.tenant), Some(at.id), Some(m))])
    case Revoking(id, now, revoked) =>
      db.(invitations := db.invitations[id := revoked.value.(revokedAt := Some(now))],
          audit := db.audit + [AuditEvent(InvitationRevoked, Some(revoked.value.tenant), None, None)])
    case Anonymizing(_, now, rows) =>
      db.(invitations := db.invitations + map i | i in rows :: Anonymized(rows[i], now))
  }

  function ActionOf(tx: Tx): Action {
    match tx
    case Updating(update, _) => UpdateMembership(update)
    case Accepting(a, _) => AcceptInvitation(a)
    case Revoking(id, now, _) => RevokeInvitation(id, now)
    case Anonymizing(before, now, rows) => Anonymize(rows.Keys, before, now)
  }

  // ----- the other transactions, each one locking what it writes

  predicate Direct(action: Action) {
    !action.UpdateMembership? && !action.AcceptInvitation? && !action.RevokeInvitation? && !action.Anonymize?
  }

  function Needs(action: Action): set<Resource>
    requires Direct(action)
  {
    match action
    case RegisterOwner(tenant, email, user, membership, _, _) =>
      {TenantRow(tenant), EmailKey(email), UserRow(user), MembershipRow(membership)}
    case CreateTenant(tenant, _, _) => {TenantRow(tenant)}
    case CreateInvitation(id, _, _, _, _, _) => {InvitationRow(id)}
    case EnsureSuperAdmin(user, email) => {UserRow(user), EmailKey(email)}
    case Logout(user) => {UserRow(user)}
    case SwitchTenant(user, _) => {UserRow(user)}
    case _ => {}
  }

  // ----- steps

  datatype Move =
    | Begin(id: nat, tx: Tx)
    | Statement(id: nat)
    | LockForAnonymizing(id: nat, row: InvitationId)
    | CommitTx(id: nat)
    | Abort(id: nat)
    | Do(action: Action)

  ghost predicate Step(before: Sys, move: Move, after: Sys, tenantLock: bool) {
    match move
    case Begin(id, tx) =>
      id !in before.txs && Starting(tx) && after == before.(txs := before.txs[id := tx])
    case Statement(id) =>
      && id in before.txs
      && var next := Next(before.db, before.txs[id]);
         && next.Ok?
         && Free(before, id, Holds(next.value, tenantLock), tenantLock)
         && after == before.(txs := before.txs[id := next.value])
    case LockForAnonymizing(id, row) =>
      && id in before.txs && before.txs[id].Anonymizing?
      && row in before.db.invitations && Anonymizable(before.db.invitations[row], before.txs[id].before)
      && row !in before.txs[id].rows
      && Free(before, id, {InvitationRow(row)}, tenantLock)
      && after == before.(txs := before.txs[id := WithRow(before.txs[id], row, before.db.invitations[row])])
    case CommitTx(id) =>
      && id in before.txs && Ready(before.txs[id])
      && after == Sys(Commit(before.db, before.txs[id]), before.txs - {id})
    case Abort(id) =>
      id in before.txs && after == before.(txs := before.txs - {id})
    case Do(action) =>
      && Direct(action)
      && (forall id :: id in before.txs ==> Holds(before.txs[id], tenantLock) !! Needs(action))
      && (action.DeleteRole? ==> forall id :: id in before.txs ==> !SharesRole(before.txs[id], action.role))
      && Commits(before.db, action, after.db) && after.txs == before.txs
  }

  function WithRow(tx: Tx, id: InvitationId, row: Invitation): Tx
    requires tx.Anonymizing?
  {
    tx.(rows := tx.rows[id := row])
  }

  // ----- what the values read by a running transaction still say about the tables

  predicate RowHeld(db: Db, update: MembershipUpdate, row: Membership, current: RoleKind) {
    && update.tenant in db.tenants
    && update.membership in db.memberships && db.memberships[update.membership] == row
    && row.tenant == update.tenant
    && row.role in db.roles && db.roles[row.role].kind == current
  }

  /** The kind of a role never changes; a role that is gone was a custom one. */
  predicate TargetKnown(db: Db, role: RoleId, target: RoleKind) {
    if role in db.roles then db.roles[role].kind == target else target == Custom && role in db.retired
  }

  predicate Guarded(db: Db, update: MembershipUpdate, current: RoleKind, target: RoleKind) {
    RemovesAdministrator(update.status, current, target) ==> OtherAdministrator(db, update.tenant, update.membership)
  }

  predicate UpdateInv(db: Db, update: MembershipUpdate, at: UpdatePoint) {
    match at
    case UpdateStarted => true
    case TenantLocked => update.tenant in db.tenants
    case MembershipLocked(row, current) => RowHeld(db, update, row, current)
    case TargetRead(row, current, target) => RowHeld(db, update, row, current) && TargetKnown(db, update.role, target)
    case Checked(row, current, target) =>
      RowHeld(db, update, row, current) && TargetKnown(db, update.role, target) && Guarded(db, update, current, target)
    case Persisted(row, current, target) =>
      && RowHeld(db, update, row, current) && TargetKnown(db, update.role, target)
      && Guarded(db, update, current, target)
      && row.revision == update.revision && IsRole(db, update.role, update.tenant)
    case SessionBumped(row, current, target, user) =>
      && RowHeld(db, update, row, current) && TargetKnown(db, update.role, target)
      && Guarded(db, update, current, target)
      && row.revision == update.revision && IsRole(db, update.role, update.tenant)
      && row.user in db.users && db.users[row.user] == user
  }

  predicate InvitationHeld(db: Db, a: Acceptance, id: InvitationId, invitation: Invitation) {
    && id in db.invitations && db.invitations[id] == invitation
    && invitation.tokenHash == Some(a.hash)
    && InvitationRefusal(invitation, a.email, a.now).None?
  }

  predicate IdentityHolds(db: Db, a: Acceptance, user: User) {
    && IdentityRefusal(db, a).None?
    && user == if a.existing.Some? then db.users[a.existing.value] else User(a.email, false, 1)
  }

  ghost predicate MembershipHolds(db: Db, a: Acceptance, invitation: Invitation, found: Option<MembershipId>,
          row: Membership) {
    && MembershipRefusal(db, invitation, a).None?
    && found == FindMembership(db, invitation.tenant, AcceptingUser(a))
    && row == AcceptedMembership(db, invitation, a).1
  }

  ghost predicate AcceptInv(db: Db, a: Acceptance, at: AcceptPoint) {
    match at
    case AcceptStarted => true
    case InvitationLocked(id, invitation) => InvitationHeld(db, a, id, invitation)
    case Identified(id, invitation, user) => InvitationHeld(db, a, id, invitation) && IdentityHolds(db, a, user)
    case MembershipRead(id, invitation, user, found, row) =>
      InvitationHeld(db, a, id, invitation) && IdentityHolds(db, a, user)
      && MembershipHolds(db, a, invitation, found, row)
  }

  ghost predicate TxInv(db: Db, tx: Tx) {
    match tx
    case Updating(update, at) => UpdateInv(db, update, at)
    case Accepting(a, at) => AcceptInv(db, a, at)
    case Revoking(id, _, revoked) =>
      revoked.Some? ==> id in db.invitations && db.invitations[id] == revoked.value && RevokeRefusal(db, id).None?
    case Anonymizing(before, _, rows) =>
      forall i :: i in rows ==> i in db.invitations && db.invitations[i] == rows[i] && Anonymizable(rows[i], before)
  }

  /** No two transactions hold the same thing. */
  ghost predicate Exclusive(sys: Sys) {
    forall id, other :: id in sys.txs && other in sys.txs && id != other ==>
      Holds(sys.txs[id], true) !! Holds(sys.txs[other], true)
  }

  ghost predicate SysInv(sys: Sys) {
    && Inv(sys.db)
    && (forall id :: id in sys.txs ==> TxInv(sys.db, sys.txs[id]))
    && Exclusive(sys)
  }

  // ----- the refinement

  lemma FindByHashIs(db: Db, i: InvitationId, hash: TokenHash)
    requires OneInvitationPerHash(db.invitations) && HasHash(db, i, hash)
    ensures FindByHash(db, hash) == Some(i)
  {
  }

  lemma FindMembershipIs(db: Db, m: MembershipId, tenant: TenantId, user: UserId)
    requires OneMembershipPerPair(db.memberships) && IsMembershipOf(db, m, tenant, user)
    ensures FindMembership(db, tenant, user) == Some(m)
  {
  }

  lemma UpdateCommitRefines(db: Db, update: MembershipUpdate, at: UpdatePoint)
    requires at.SessionBumped? && UpdateInv(db, update, at)
    ensures UpdateRefusal(db, update).None?
    ensures Commit(db, Updating(update, at)) == UpdateEffect(db, update)
  {
  }

  lemma AcceptCommitRefines(db: Db, a: Acceptance, at: AcceptPoint)
    requires OneInvitationPerHash(db.invitations)
    requires at.MembershipRead? && AcceptInv(db, a, at)
    ensures AcceptRefusal(db, a).None?
    ensures Commit(db, Accepting(a, at)) == AcceptEffect(db, a)
  {
    FindByHashIs(db, at.id, a.hash);
  }

  lemma AnonymizeCommitRefines(db: Db, before: int, now: int, rows: map<InvitationId, Invitation>)
    requires TxInv(db, Anonymizing(before, now, rows))
    ensures AllAnonymizable(db, rows.Keys, before)
    ensures Commit(db, Anonymizing(before, now, rows)) == AnonymizeEffect(db, rows.Keys, now)
  {
    assert Commit(db, Anonymizing(before, now, rows)).invitations == AnonymizeEffect(db, rows.Keys, now).invitations;
  }

  /** Committing the rows computed along the way is executing the transaction at that moment, alone. */
  lemma CommitRefines(db: Db, tx: Tx)
    requires Inv(db) && Ready(tx) && TxInv(db, tx)
    ensures Commits(db, ActionOf(tx), Commit(db, tx))
  {
    match tx
    case Updating(update, at) => UpdateCommitRefines(db, update, at);
    case Accepting(a, at) => AcceptCommitRefines(db, a, at);
    case Revoking(id, now, revoked) =>
    case Anonymizing(before, now, rows) => AnonymizeCommitRefines(db, before, now, rows);
  }

  // ----- what a commit can change for the others

  /** Rows of `db` that `held` does not name are as before in `after`; what is new in `after` is named. */
  ghost predicate MembershipsFramed(db: Db, after: Db, held: set<Resource>) {
    && (forall m :: m in db.memberships ==> m in after.memberships && SamePair(db.memberships[m], after.memberships[m]))
    && (forall m :: m in db.memberships && MembershipRow(m) !in held ==> after.memberships[m] == db.memberships[m])
    && (forall m :: m in after.memberships && m !in db.memberships ==> MembershipRow(m) in held)
    && (forall m :: m in after.memberships && m !in db.memberships ==> UserRow(after.memberships[m].user) in held)
  }

  ghost predicate SamePair(row: Membership, after: Membership) {
    row.tenant == after.tenant && row.user == after.user
  }

  ghost predicate UsersFramed(users: map<UserId, User>, after: map<UserId, User>, held: set<Resource>) {
    && (forall u :: u in users ==> u in after && SameAccount(users[u], after[u]))
    && (forall u :: u in users && UserRow(u) !in held ==> after[u] == users[u])
    && (forall u :: u in after && u !in users ==> UserRow(u) in held && EmailKey(after[u].email) in held)
  }

  ghost predicate SameAccount(user: User, after: User) {
    user.email == after.email && user.superAdministrator == after.superAdministrator
  }

  ghost predicate InvitationsFramed(invitations: map<InvitationId, Invitation>,
          after: map<InvitationId, Invitation>, held: set<Resource>) {
    forall i :: i in invitations ==> i in after && (InvitationRow(i) !in held ==> after[i] == invitations[i])
  }

  /** Kinds and tenants of roles stay; only unused custom roles go, and their ids come back only as custom roles. */
  ghost predicate RolesFramed(db: Db, after: Db) {
    && db.retired <= after.retired
    && (forall r :: r in db.roles && r in after.roles ==>
         after.roles[r].kind == db.roles[r].kind && after.roles[r].tenant == db.roles[r].tenant)
    && (forall r :: r in db.roles && r !in after.roles ==>
         db.roles[r].kind == Custom && r in after.retired && !RoleInUse(db, r))
    && (forall r :: r in after.roles && r !in db.roles && r in db.retired ==> after.roles[r].kind == Custom)
  }

  /** Active administrators of tenants that `held` does not name stay so. */
  ghost predicate AdministratorsFramed(db: Db, after: Db, held: set<Resource>) {
    forall m :: ActiveAdministrator(db, m) && TenantRow(db.memberships[m].tenant) !in held ==>
      && ActiveAdministrator(after, m)
      && after.memberships[m].tenant == db.memberships[m].tenant
  }

  ghost predicate Framed(db: Db, after: Db, held: set<Resource>) {
    && db.tenants <= after.tenants
    && MembershipsFramed(db, after, held)
    && UsersFramed(db.users, after.users, held)
    && InvitationsFramed(db.invitations, after.invitations, held)
    && RolesFramed(db, after)
    && AdministratorsFramed(db, after, held)
  }

  lemma UpdateFramed(db: Db, update: MembershipUpdate, after: Db, held: set<Resource>)
    requires Inv(db) && Commits(db, UpdateMembership(update), after)
    requires held == {TenantRow(update.tenant), MembershipRow(update.membership),
               UserRow(db.memberships[update.membership].user)}
    ensures Framed(db, after, held)
  {
    forall m | ActiveAdministrator(db, m) && TenantRow(db.memberships[m].tenant) !in held
      ensures ActiveAdministrator(after, m) && after.memberships[m].tenant == db.memberships[m].tenant
    {
      AdministratorUntouched(db, UpdateMembership(update), after, m);
    }
  }

  /** The rows that a committed acceptance writes. */
  ghost predicate AcceptWrites(db: Db, a: Acceptance, held: set<Resource>)
    requires AcceptRefusal(db, a).None?
  {
    var i := FindByHash(db, a.hash).value;
    held == {InvitationRow(i), MembershipRow(AcceptedMembership(db, db.invitations[i], a).0)} + IdentityHeld(a)
  }

  lemma AcceptFramesMemberships(db: Db, a: Acceptance, held: set<Resource>)
    requires AcceptRefusal(db, a).None? && AcceptWrites(db, a, held)
    ensures MembershipsFramed(db, AcceptEffect(db, a), held)
  {
  }

  lemma AcceptFramesUsers(db: Db, a: Acceptance, held: set<Resource>)
    requires AcceptRefusal(db, a).None? && AcceptWrites(db, a, held)
    ensures UsersFramed(db.users, AcceptEffect(db, a).users, held)
  {
  }

  lemma AcceptFramesAdministrators(db: Db, a: Acceptance, held: set<Resource>)
    requires AcceptRefusal(db, a).None?
    ensures AdministratorsFramed(db, AcceptEffect(db, a), held)
  {
    forall m | ActiveAdministrator(db, m)
      ensures ActiveAdministrator(AcceptEffect(db, a), m)
      ensures AcceptEffect(db, a).memberships[m].tenant == db.memberships[m].tenant
    {
      AdministratorUntouchedByAcceptance(db, a, m);
    }
  }

  lemma AcceptFramed(db: Db, a: Acceptance, after: Db, held: set<Resource>)
    requires Commits(db, AcceptInvitation(a), after) && AcceptWrites(db, a, held)
    ensures Framed(db, after, held)
  {
    assert after == AcceptEffect(db, a);
    AcceptFramesMemberships(db, a, held);
    AcceptFramesUsers(db, a, held);
    AcceptFramesAdministrators(db, a, held);
    assert InvitationsFramed(db.invitations, after.invitations, held);
  }

  /** Transactions that write no existing membership. */
  predicate LeavesMemberships(action: Action) {
    !action.UpdateMembership? && !action.AcceptInvitation?
  }

  ghost predicate Covers(held: set<Resource>, action: Action) {
    && (Direct(action) ==> held == Needs(action))
    && (action.RevokeInvitation? ==> held == {InvitationRow(action.id)})
    && (action.Anonymize? ==> held == set i | i in action.ids :: InvitationRow(i))
  }

  lemma OthersFrameMemberships(db: Db, action: Action, after: Db, held: set<Resource>)
    requires Commits(db, action, after) && LeavesMemberships(action) && Covers(held, action)
    ensures MembershipsFramed(db, after, held)
  {
  }

  lemma OthersFrameUsers(db: Db, action: Action, after: Db, held: set<Resource>)
    requires Commits(db, action, after) && LeavesMemberships(action) && Covers(held, action)
    ensures UsersFramed(db.users, after.users, held)
  {
  }

  lemma OthersFrameInvitations(db: Db, action: Action, after: Db, held: set<Resource>)
    requires Commits(db, action, after) && LeavesMemberships(action) && Covers(held, action)
    ensures InvitationsFramed(db.invitations, after.invitations, held)
  {
  }

  lemma OthersFrameRoles(db: Db, action: Action, after: Db)
    requires Commits(db, action, after) && LeavesMemberships(action)
    ensures RolesFramed(db, after) && db.tenants <= after.tenants
  {
  }

  lemma OthersFramed(db: Db, action: Action, after: Db, held: set<Resource>)
    requires Inv(db) && Commits(db, action, after)
    requires LeavesMemberships(action) && Covers(held, action)
    ensures Framed(db, after, held)
  {
    OthersFrameMemberships(db, action, after, held);
    OthersFrameUsers(db, action, after, held);
    OthersFrameInvitations(db, action, after, held);
    OthersFrameRoles(db, action, after);
    forall m | ActiveAdministrator(db, m)
      ensures ActiveAdministrator(after, m) && after.memberships[m].tenant == db.memberships[m].tenant
    {
      AdministratorUntouched(db, action, after, m);
    }
  }

  // ----- running transactions keep what they rely on

  lemma RowKept(db: Db, after: Db, held: set<Resource>, update: MembershipUpdate, row: Membership, current: RoleKind)
    requires Framed(db, after, held) && RowHeld(db, update, row, current)
    requires MembershipRow(update.membership) !in held
    ensures RowHeld(after, update, row, current)
  {
    assert RoleInUse(db, row.role);
  }

  /** Without anybody else in the tenant's membership updates, another administrator stays. */
  lemma GuardKept(db: Db, after: Db, held: set<Resource>, update: MembershipUpdate, current: RoleKind, target: RoleKind)
    requires Framed(db, after, held) && Guarded(db, update, current, target)
    requires TenantRow(update.tenant) !in held
    ensures Guarded(after, update, current, target)
  {
    if OtherAdministrator(db, update.tenant, update.membership) {
      var m :| m in db.memberships && m != update.membership && db.memberships[m].tenant == update.tenant
          && ActiveAdministrator(db, m);
      assert ActiveAdministrator(after, m);
    }
  }

  lemma UpdateInvKept(db: Db, after: Db, held: set<Resource>, update: MembershipUpdate, at: UpdatePoint)
    requires Framed(db, after, held) && UpdateInv(db, update, at)
    requires UpdateHolds(update, at, true) !! held
    requires SharesRole(Updating(update, at), update.role) ==> update.role in after.roles
    ensures UpdateInv(after, update, at)
  {
    if !at.UpdateStarted? && !at.TenantLocked? {
      assert {MembershipRow(update.membership), TenantRow(update.tenant)} <= UpdateHolds(update, at, true);
      RowKept(db, after, held, update, at.row, at.current);
      if !at.MembershipLocked? && !at.TargetRead? {
        GuardKept(db, after, held, update, at.current, at.target);
      }
    }
  }

  lemma AcceptInvKept(db: Db, after: Db, held: set<Resource>, a: Acceptance, at: AcceptPoint)
    requires Inv(db) && Inv(after) && Framed(db, after, held) && AcceptInv(db, a, at)
    requires AcceptHolds(a, at) !! held
    ensures AcceptInv(after, a, at)
  {
    if !at.AcceptStarted? {
      assert InvitationRow(at.id) in AcceptHolds(a, at);
      assert InvitationHeld(after, a, at.id, at.invitation);
      if !at.InvitationLocked? {
        assert IdentityHeld(a) <= AcceptHolds(a, at);
        IdentityKept(db, after, held, a, at.user);
        if at.MembershipRead? {
          MembershipKeptFor(db, after, held, a, at.id, at.invitation, at.found, at.row);
        }
      }
    }
  }

  lemma IdentityKept(db: Db, after: Db, held: set<Resource>, a: Acceptance, user: User)
    requires Framed(db, after, held) && IdentityHolds(db, a, user) && IdentityHeld(a) !! held
    ensures IdentityHolds(after, a, user)
  {
    assert UserRow(AcceptingUser(a)) in IdentityHeld(a);
    if a.existing.None? {
      assert EmailKey(a.email) in IdentityHeld(a);
      forall u | u in after.users ensures after.users[u].email != a.email {
        assert u in db.users ==> !(db.users[u].email == a.email) by {
          assert !EmailInUse(db, a.email);
        }
      }
    }
  }

  /** While the account is locked nobody else creates its membership, although no row of it is there to lock. */
  lemma MembershipKeptFor(
      db: Db, after: Db, held: set<Resource>, a: Acceptance, id: InvitationId, invitation: Invitation,
      found: Option<MembershipId>, row: Membership)
    requires Inv(db) && Inv(after) && Framed(db, after, held)
    requires id in after.invitations && after.invitations[id] == invitation
    requires MembershipHolds(db, a, invitation, found, row)
    requires UserRow(AcceptingUser(a)) !in held
    requires MembershipRow(if found.Some? then found.value else a.newMembership) !in held
    ensures MembershipHolds(after, a, invitation, found, row)
  {
    var user := AcceptingUser(a);
    assert SoundInvitation(after, invitation);
    match found {
      case Some(m) =>
        FindMembershipIs(after, m, invitation.tenant, user);
      case None =>
        forall m | IsMembershipOf(after, m, invitation.tenant, user)
          ensures IsMembershipOf(db, m, invitation.tenant, user)
        {
          assert m in db.memberships;
          assert SamePair(db.memberships[m], after.memberships[m]);
        }
        assert FindMembership(after, invitation.tenant, user).None?;
    }
  }

  lemma TxInvKept(db: Db, after: Db, held: set<Resource>, tx: Tx)
    requires Inv(db) && Inv(after) && Framed(db, after, held) && TxInv(db, tx)
    requires Holds(tx, true) !! held
    requires forall role :: SharesRole(tx, role) ==> role in after.roles
    ensures TxInv(after, tx)
  {
    match tx
    case Updating(update, at) => UpdateInvKept(db, after, held, update, at);
    case Accepting(a, at) => AcceptInvKept(db, after, held, a, at);
    case Revoking(id, _, revoked) =>
      assert revoked.Some? ==> InvitationRow(id) in Holds(tx, true);
    case Anonymizing(_, _, rows) =>
      forall i | i in rows ensures i in after.invitations && after.invitations[i] == rows[i] {
        assert InvitationRow(i) in Holds(tx, true);
      }
  }

  // ----- one step

  /** A statement establishes what its transaction relies on from then on. */
  lemma StatementKeepsTxInv(db: Db, tx: Tx)
    requires Inv(db) && TxInv(db, tx) && Next(db, tx).Ok?
    ensures TxInv(db, Next(db, tx).value)
    ensures Holds(tx, true) <= Holds(Next(db, tx).value, true)
  {
    match tx
    case Updating(update, at) =>
    case Accepting(a, at) =>
      assert at.Identified? ==>
        MembershipHolds(db, a, at.invitation, Next(db, tx).value.acceptAt.found, Next(db, tx).value.acceptAt.row);
    case Revoking(id, now, revoked) =>
    case Anonymizing(_, _, _) =>
  }

  /** What a transaction holds when it commits names every row that it changes. */
  lemma CommitFramed(db: Db, tx: Tx)
    requires Inv(db) && Ready(tx) && TxInv(db, tx)
    ensures Framed(db, Commit(db, tx), Holds(tx, true))
  {
    CommitRefines(db, tx);
    var after := Commit(db, tx);
    match tx
    case Updating(update, at) =>
      UpdateFramed(db, update, after, Holds(tx, true));
    case Accepting(a, at) =>
      FindByHashIs(db, at.id, a.hash);
      AcceptFramed(db, a, after, Holds(tx, true));
    case Revoking(id, now, revoked) =>
      OthersFramed(db, RevokeInvitation(id, now), after, Holds(tx, true));
    case Anonymizing(before, now, rows) =>
      OthersFramed(db, Anonymize(rows.Keys, before, now), after, Holds(tx, true));
  }

  lemma CommitTxKeeps(before: Sys, id: nat)
    requires SysInv(before) && id in before.txs && Ready(before.txs[id])
    ensures var after := Sys(Commit(before.db, before.txs[id]), before.txs - {id});
            SysInv(after) && Committed(before.db, after.db)
  {
    var tx := before.txs[id];
    var after := Sys(Commit(before.db, tx), before.txs - {id});
    CommitRefines(before.db, tx);
    CommitKeepsInv(before.db, ActionOf(tx), after.db);
    CommitFramed(before.db, tx);
    forall other | other in after.txs ensures TxInv(after.db, after.txs[other]) {
      TxInvKept(before.db, after.db, Holds(tx, true), before.txs[other]);
    }
  }

  lemma DoKeeps(before: Sys, action: Action, after: Sys)
    requires SysInv(before) && Step(before, Do(action), after, true)
    ensures SysInv(after) && Committed(before.db, after.db)
  {
    CommitKeepsInv(before.db, action, after.db);
    OthersFramed(before.db, action, after.db, Needs(action));
    forall other | other in after.txs ensures TxInv(after.db, after.txs[other]) {
      SharedRolesStay(before, action, after, before.txs[other]);
      TxInvKept(before.db, after.db, Needs(action), before.txs[other]);
    }
  }

  lemma SharedRolesStay(before: Sys, action: Action, after: Sys, tx: Tx)
    requires Commits(before.db, action, after.db) && Direct(action)
    requires TxInv(before.db, tx)
    requires action.DeleteRole? ==> !SharesRole(tx, action.role)
    ensures forall role :: SharesRole(tx, role) ==> role in after.db.roles
  {
  }

  lemma StatementKeeps(before: Sys, id: nat, after: Sys)
    requires SysInv(before) && Step(before, Statement(id), after, true)
    ensures SysInv(after) && after.db == before.db
  {
    StatementKeepsTxInv(before.db, before.txs[id]);
  }

  lemma LockedRowFits(db: Db, tx: Tx, row: InvitationId)
    requires tx.Anonymizing? && TxInv(db, tx) && row in db.invitations && Anonymizable(db.invitations[row], tx.before)
    ensures TxInv(db, WithRow(tx, row, db.invitations[row]))
    ensures Holds(WithRow(tx, row, db.invitations[row]), true) == Holds(tx, true) + {InvitationRow(row)}
  {
  }

  lemma LockForAnonymizingKeeps(before: Sys, id: nat, row: InvitationId, after: Sys)
    requires SysInv(before) && Step(before, LockForAnonymizing(id, row), after, true)
    ensures SysInv(after) && after.db == before.db
  {
    LockedRowFits(before.db, before.txs[id], row);
    assert forall other :: other in after.txs && other != id ==> after.txs[other] == before.txs[other];
  }

  lemma BeginOrAbortKeeps(before: Sys, move: Move, after: Sys)
    requires SysInv(before) && Step(before, move, after, true) && (move.Begin? || move.Abort?)
    ensures SysInv(after) && after.db == before.db
  {
    assert move.Begin? ==> Holds(move.tx, true) == {};
  }

  /** Every step keeps the invariant, and changes the tables at most as one atomic transaction would. */
  lemma StepKeeps(before: Sys, move: Move, after: Sys)
    requires SysInv(before) && Step(before, move, after, true)
    ensures SysInv(after) && Committed(before.db, after.db)
    ensures !move.CommitTx? && !move.Do? ==> after.db == before.db
  {
    match move
    case Begin(_, _) => BeginOrAbortKeeps(before, move, after);
    case Statement(id) => StatementKeeps(before, id, after);
    case LockForAnonymizing(id, row) => LockForAnonymizingKeeps(before, id, row, after);
    case CommitTx(id) => CommitTxKeeps(before, id);
    case Abort(_) => BeginOrAbortKeeps(before, move, after);
    case Do(action) => DoKeeps(before, action, after);
  }

  // ----- whole interleaved runs

  ghost predicate SysRun(states: seq<Sys>, moves: seq<Move>, tenantLock: bool) {
    && |states| == |moves| + 1 && SysInv(states[0])
    && forall k :: 0 <= k < |moves| ==> Step(states[k], moves[k], states[k + 1], tenantLock)
  }

  function Tables(states: seq<Sys>): (dbs: seq<Db>)
    ensures |dbs| == |states| && forall k :: 0 <= k < |dbs| ==> dbs[k] == states[k].db
  {
    seq(|states|, k requires 0 <= k < |states| => states[k].db)
  }

  lemma {:induction false} SysRunKeeps(states: seq<Sys>, moves: seq<Move>, k: nat)
    requires SysRun(states, moves, true) && k < |states|
    ensures SysInv(states[k])
    ensures forall j :: 0 <= j < k ==> Committed(states[j].db, states[j + 1].db)
  {
    if k > 0 {
      SysRunKeeps(states, moves, k - 1);
      assert Step(states[k - 1], moves[k - 1], states[k], true);
      StepKeeps(states[k - 1], moves[k - 1], states[k]);
    }
  }

  /** The refinement: the tables of every interleaved run form a run of atomic transactions. */
  lemma InterleavedRunsAreSerial(states: seq<Sys>, moves: seq<Move>)
    requires SysRun(states, moves, true)
    ensures Run(Tables(states))
  {
    SysRunKeeps(states, moves, |moves|);
  }
}
