/**
 The promises about memberships and invitations, for every interleaving of
 transactions that run statement by statement, and the run that breaks the first
 of them when membership updates do not lock their tenant.
 */
module InterleavedPromises {
  import opened Wrappers
  import opened Records
  import opened Access
  import opened AccessSafety
  import opened AccessLaws
  import opened Interleaving

  /** A tenant that has had an active administrator has one in every later state. */
  lemma AlwaysAnAdministrator(states: seq<Sys>, moves: seq<Move>, i: nat, j: nat, tenant: TenantId)
    requires SysRun(states, moves, true) && i <= j < |states|
    requires HasAdministrator(states[i].db, tenant)
    ensures HasAdministrator(states[j].db, tenant)
  {
    InterleavedRunsAreSerial(states, moves);
    FinalAdministrator(Tables(states), i, j, tenant);
  }

  /** The address of the member. */
  function EmailOf(db: Db, m: MembershipId): Email
    requires m in db.memberships && db.memberships[m].user in db.users
  {
    db.users[db.memberships[m].user].email
  }

  /** In no state do a tenant and a user, or a tenant and an address, have two memberships. */
  lemma AtMostOneMembership(states: seq<Sys>, moves: seq<Move>, k: nat, m: MembershipId, n: MembershipId)
    requires SysRun(states, moves, true) && k < |states|
    requires m in states[k].db.memberships && n in states[k].db.memberships
    requires states[k].db.memberships[m].tenant == states[k].db.memberships[n].tenant
    ensures m in states[k].db.memberships && states[k].db.memberships[m].user in states[k].db.users
    ensures n in states[k].db.memberships && states[k].db.memberships[n].user in states[k].db.users
    ensures EmailOf(states[k].db, m) == EmailOf(states[k].db, n) ==> m == n
  {
    SysRunKeeps(states, moves, k);
    var db := states[k].db;
    assert SoundMembership(db, db.memberships[m]) && SoundMembership(db, db.memberships[n]);
  }

  /**
   An invitation is never used and revoked at once, is used exactly when exactly
   one acceptance of it was committed and audited, and stays used.
   */
  lemma InvitationsAreSingleUse(states: seq<Sys>, moves: seq<Move>, i: nat, j: nat, id: InvitationId)
    requires SysRun(states, moves, true) && i <= j < |states|
    ensures id in states[j].db.invitations ==>
              !(states[j].db.invitations[id].usedAt.Some? && states[j].db.invitations[id].revokedAt.Some?)
    ensures Acceptances(states[j].db.audit, id) == if IsUsed(states[j].db.invitations, id) then 1 else 0
    ensures IsUsed(states[i].db.invitations, id) ==> IsUsed(states[j].db.invitations, id)
  {
    InterleavedRunsAreSerial(states, moves);
    RunKeeps(Tables(states), i, j);
    var db := states[j].db;
    assert id in db.invitations ==> SoundInvitation(db, db.invitations[id]);
  }

  /**
   The step that commits an acceptance uses exactly the invitation with its hash,
   unexpired, audited once, and leaves the invited membership behind; all other
   invitations stay, and no other step of the acceptance changes a table.
   */
  lemma AcceptanceInARun(states: seq<Sys>, moves: seq<Move>, k: nat, tx: nat)
    requires SysRun(states, moves, true) && k < |moves|
    requires tx in states[k].txs && states[k].txs[tx].Accepting?
    ensures moves[k] == CommitTx(tx) ==> UsesOneInvitation(states[k].db, states[k].txs[tx].acceptance, states[k + 1].db)
    ensures moves[k] == Statement(tx) || moves[k] == Abort(tx) ==> states[k + 1].db == states[k].db
  {
    SysRunKeeps(states, moves, k);
    assert Step(states[k], moves[k], states[k + 1], true);
    StepKeeps(states[k], moves[k], states[k + 1]);
    if moves[k] == CommitTx(tx) {
      var accepting := states[k].txs[tx];
      CommitRefines(states[k].db, accepting);
      AcceptanceAdmits(states[k].db, accepting.acceptance, states[k + 1].db);
    }
  }

  /**
   After the commit of an update the row has the presented role and status, and it keeps
   them in every later state for as long as no one raises its revision again.
   */
  lemma UpdateStands(states: seq<Sys>, moves: seq<Move>, k: nat, j: nat, tx: nat)
    requires SysRun(states, moves, true) && k < |moves| && k < j < |states|
    requires tx in states[k].txs && states[k].txs[tx].Updating? && moves[k] == CommitTx(tx)
    ensures var update := states[k].txs[tx].update;
            && update.membership in states[j].db.memberships
            && var row := states[j].db.memberships[update.membership];
               && row.tenant == update.tenant && update.revision + 1 <= row.revision
               && (row.revision == update.revision + 1 ==> row.role == update.role && row.status == update.status)
  {
    SysRunKeeps(states, moves, k);
    assert Step(states[k], moves[k], states[k + 1], true);
    var update := states[k].txs[tx].update;
    CommitRefines(states[k].db, states[k].txs[tx]);
    UpdateWrites(states[k].db, update, states[k + 1].db);
    InterleavedRunsAreSerial(states, moves);
    RunKeeps(Tables(states), k + 1, j);
    assert MembershipKept(states[k + 1].db.memberships[update.membership], states[j].db.memberships[update.membership]);
  }

  // ----- without the tenant lock

  /** A tenant whose two members are both administrators: its owner, and a user who accepted an invitation. */
  const TWO_ADMINISTRATORS := Db(
    {1},
    map[1 := User(11, false, 1), 2 := User(12, false, 1)],
    map[1 := Role(1, Administrator, 1), 2 := Role(1, StandardUser, 1)],
    {},
    map[1 := Membership(1, 1, 1, Active, 1), 2 := Membership(1, 2, 1, Active, 1)],
    map[1 := Invitation(1, 12, 1, Some(7), 100, Some(50), None, None, Sent)],
    [AuditEvent(TenantRegistered, Some(1), None, Some(1)), AuditEvent(InvitationAccepted, Some(1), Some(1), Some(2))])

  lemma TwoAdministratorsCounts()
    ensures AcceptedOnce(TWO_ADMINISTRATORS.audit, TWO_ADMINISTRATORS.invitations)
    ensures RevisionsCountWrites(TWO_ADMINISTRATORS.audit, TWO_ADMINISTRATORS.memberships)
  {
    var none: seq<AuditEvent> := [];
    var audit := TWO_ADMINISTRATORS.audit;
    assert audit == none + [audit[0]] + [audit[1]];
    CountsAppend(none, audit[0]);
    CountsAppend(none + [audit[0]], audit[1]);
  }

  lemma TwoAdministratorsRows()
    ensures AdministratorRow(TWO_ADMINISTRATORS, 1) && AdministratorRow(TWO_ADMINISTRATORS, 2)
    ensures TWO_ADMINISTRATORS.memberships.Keys == {1, 2}
    ensures HasAdministrator(TWO_ADMINISTRATORS, 1)
  {
    assert ActiveAdministrator(TWO_ADMINISTRATORS, 1);
  }

  lemma TwoAdministratorsIsSound()
    ensures Inv(TWO_ADMINISTRATORS)
  {
    TwoAdministratorsCounts();
  }

  /** The update that deactivates membership `m` of that tenant. */
  function Deactivate(m: MembershipId): MembershipUpdate {
    MembershipUpdate(m, 1, 1, Inactive, 1)
  }

  /** Two running deactivations, of membership 1 and of membership 2. */
  function Two(db: Db, first: UpdatePoint, second: UpdatePoint): Sys {
    Sys(db, map[0 := Updating(Deactivate(1), first), 1 := Updating(Deactivate(2), second)])
  }

  /** The second one, alone. */
  function Second(db: Db, second: UpdatePoint): Sys {
    Sys(db, map[1 := Updating(Deactivate(2), second)])
  }

  /** Membership `m` of tenant 1 belongs to user `m`, is active and has the administrator role 1. */
  predicate AdministratorRow(db: Db, m: MembershipId) {
    && m in db.memberships && db.memberships[m] == Membership(1, m, 1, Active, 1)
    && m in db.users && 1 in db.tenants
    && 1 in db.roles && db.roles[1].tenant == 1 && db.roles[1].kind == Administrator
  }

  /** Where the deactivation of membership `m` is after `n` of its statements. */
  function PointAfter(db: Db, m: MembershipId, n: nat): UpdatePoint
    requires AdministratorRow(db, m)
  {
    var row := db.memberships[m];
    match n
    case 0 => UpdateStarted
    case 1 => TenantLocked
    case 2 => MembershipLocked(row, Administrator)
    case 3 => TargetRead(row, Administrator, Administrator)
    case 4 => Checked(row, Administrator, Administrator)
    case 5 => Persisted(row, Administrator, Administrator)
    case _ => SessionBumped(row, Administrator, Administrator, db.users[m])
  }

  /** The next statement gets through; its check needs another administrator at that moment. */
  lemma NextPoint(db: Db, m: MembershipId, n: nat)
    requires AdministratorRow(db, m) && n < 6
    requires n == 3 ==> OtherAdministrator(db, 1, m)
    ensures UpdateNext(db, Deactivate(m), PointAfter(db, m, n)) == Ok(PointAfter(db, m, n + 1))
  {
  }

  /** Without tenant locks the two hold rows of their own only. */
  lemma OwnRowsAreDisjoint(db: Db, f: nat, s: nat)
    requires AdministratorRow(db, 1) && AdministratorRow(db, 2)
    ensures UpdateHolds(Deactivate(1), PointAfter(db, 1, f), false) !!
            UpdateHolds(Deactivate(2), PointAfter(db, 2, s), false)
  {
    assert UpdateHolds(Deactivate(1), PointAfter(db, 1, f), false) <= {MembershipRow(1), UserRow(1)};
    assert UpdateHolds(Deactivate(2), PointAfter(db, 2, s), false) <= {MembershipRow(2), UserRow(2)};
  }

  lemma FirstMoves(db: Db, f: nat, s: nat)
    requires AdministratorRow(db, 1) && AdministratorRow(db, 2) && f < 6
    ensures Step(Two(db, PointAfter(db, 1, f), PointAfter(db, 2, s)), Statement(0),
                 Two(db, PointAfter(db, 1, f + 1), PointAfter(db, 2, s)), false)
  {
    assert ActiveAdministrator(db, 2);
    NextPoint(db, 1, f);
    OwnRowsAreDisjoint(db, f + 1, s);
    var before := Two(db, PointAfter(db, 1, f), PointAfter(db, 2, s));
    var after := Two(db, PointAfter(db, 1, f + 1), PointAfter(db, 2, s));
    assert after.txs == before.txs[0 := Updating(Deactivate(1), PointAfter(db, 1, f + 1))];
  }

  lemma SecondMoves(db: Db, f: nat, s: nat)
    requires AdministratorRow(db, 1) && AdministratorRow(db, 2) && s < 6
    ensures Step(Two(db, PointAfter(db, 1, f), PointAfter(db, 2, s)), Statement(1),
                 Two(db, PointAfter(db, 1, f), PointAfter(db, 2, s + 1)), false)
  {
    assert ActiveAdministrator(db, 1);
    NextPoint(db, 2, s);
    OwnRowsAreDisjoint(db, f, s + 1);
    var before := Two(db, PointAfter(db, 1, f), PointAfter(db, 2, s));
    var after := Two(db, PointAfter(db, 1, f), PointAfter(db, 2, s + 1));
    assert after.txs == before.txs[1 := Updating(Deactivate(2), PointAfter(db, 2, s + 1))];
  }

  lemma SecondMovesAlone(db: Db, s: nat)
    requires AdministratorRow(db, 2) && 4 <= s < 6
    ensures Step(Second(db, PointAfter(db, 2, s)), Statement(1), Second(db, PointAfter(db, 2, s + 1)), false)
  {
    NextPoint(db, 2, s);
    var before, after := Second(db, PointAfter(db, 2, s)), Second(db, PointAfter(db, 2, s + 1));
    assert after.txs == before.txs[1 := Updating(Deactivate(2), PointAfter(db, 2, s + 1))];
  }

  /** The tables after the deactivation of `m` has committed. */
  function AfterCommit(db: Db, m: MembershipId): Db
    requires AdministratorRow(db, m)
  {
    Commit(db, Updating(Deactivate(m), PointAfter(db, m, 6)))
  }

  lemma FirstCommits(db: Db, s: nat)
    requires AdministratorRow(db, 1) && AdministratorRow(db, 2) && s <= 4
    ensures AdministratorRow(AfterCommit(db, 1), 2)
    ensures PointAfter(db, 2, s) == PointAfter(AfterCommit(db, 1), 2, s)
    ensures Step(Two(db, PointAfter(db, 1, 6), PointAfter(db, 2, s)), CommitTx(0),
                 Second(AfterCommit(db, 1), PointAfter(db, 2, s)), false)
  {
    var before := Two(db, PointAfter(db, 1, 6), PointAfter(db, 2, s));
    assert before.txs - {0} == Second(db, PointAfter(db, 2, s)).txs;
  }

  lemma SecondCommits(db: Db)
    requires AdministratorRow(db, 2)
    ensures Step(Second(db, PointAfter(db, 2, 6)), CommitTx(1), Sys(AfterCommit(db, 2), map[]), false)
  {
    assert Second(db, PointAfter(db, 2, 6)).txs - {1} == map[];
  }

  /**
   The schedule: both begin, the first runs up to its check, the second runs up
   to its check, then the first finishes and then the second.
   */
  function StateAt(db: Db, k: nat): Sys
    requires AdministratorRow(db, 1) && AdministratorRow(db, 2)
  {
    if k == 0 then Sys(db, map[])
    else if k == 1 then Sys(db, map[0 := Updating(Deactivate(1), UpdateStarted)])
    else if k <= 6 then Two(db, PointAfter(db, 1, k - 2), PointAfter(db, 2, 0))
    else if k <= 10 then Two(db, PointAfter(db, 1, 4), PointAfter(db, 2, k - 6))
    else if k <= 12 then Two(db, PointAfter(db, 1, k - 6), PointAfter(db, 2, 4))
    else
      FirstCommits(db, 4);
      if k <= 15 then Second(AfterCommit(db, 1), PointAfter(AfterCommit(db, 1), 2, k - 9))
      else Sys(AfterCommit(AfterCommit(db, 1), 2), map[])
  }

  function MoveAt(k: nat): Move {
    if k == 0 then Begin(0, Updating(Deactivate(1), UpdateStarted))
    else if k == 1 then Begin(1, Updating(Deactivate(2), UpdateStarted))
    else if k <= 5 then Statement(0)
    else if k <= 9 then Statement(1)
    else if k <= 11 then Statement(0)
    else if k == 12 then CommitTx(0)
    else if k <= 14 then Statement(1)
    else CommitTx(1)
  }

  lemma BothBegin(db: Db)
    requires AdministratorRow(db, 1) && AdministratorRow(db, 2)
    ensures Step(StateAt(db, 0), MoveAt(0), StateAt(db, 1), false)
    ensures Step(StateAt(db, 1), MoveAt(1), StateAt(db, 2), false)
  {
    assert StateAt(db, 1).txs[1 := Updating(Deactivate(2), UpdateStarted)] == StateAt(db, 2).txs;
  }

  lemma ScheduleIsARun(db: Db, k: nat)
    requires AdministratorRow(db, 1) && AdministratorRow(db, 2) && k < 16
    ensures Step(StateAt(db, k), MoveAt(k), StateAt(db, k + 1), false)
  {
    if k <= 1 {
      BothBegin(db);
    } else if k <= 5 {
      FirstMoves(db, k - 2, 0);
    } else if k <= 9 {
      SecondMoves(db, 4, k - 6);
    } else if k <= 11 {
      FirstMoves(db, k - 6, 4);
    } else {
      FirstCommits(db, 4);
      if 13 <= k <= 14 {
        SecondMovesAlone(AfterCommit(db, 1), k - 9);
      } else if k == 15 {
        SecondCommits(AfterCommit(db, 1));
      }
    }
  }

  lemma ScheduleFrom(db: Db) returns (states: seq<Sys>, moves: seq<Move>)
    requires AdministratorRow(db, 1) && AdministratorRow(db, 2) && Inv(db)
    ensures SysRun(states, moves, false)
    ensures states[0].db == db && states[|moves|].db == StateAt(db, 16).db
  {
    states, moves := seq(17, k requires 0 <= k => StateAt(db, k)), seq(16, k requires 0 <= k => MoveAt(k));
    forall k | 0 <= k < |moves| ensures Step(states[k], moves[k], states[k + 1], false) {
      ScheduleIsARun(db, k);
    }
  }

  lemma NobodyLeft(db: Db)
    requires AdministratorRow(db, 1) && AdministratorRow(db, 2) && db.memberships.Keys == {1, 2}
    ensures !HasAdministrator(StateAt(db, 16).db, 1)
  {
    FirstCommits(db, 4);
  }

  /**
   Two deactivations that do not lock their tenant both find the other
   administrator, and leave the tenant without any.
   */
  lemma WithoutTenantLock()
    ensures exists states: seq<Sys>, moves: seq<Move> ::
              && SysRun(states, moves, false)
              && HasAdministrator(states[0].db, 1)
              && !HasAdministrator(states[|moves|].db, 1)
  {
    TwoAdministratorsIsSound();
    TwoAdministratorsRows();
    NobodyLeft(TWO_ADMINISTRATORS);
    var states, moves := ScheduleFrom(TWO_ADMINISTRATORS);
  }
}
