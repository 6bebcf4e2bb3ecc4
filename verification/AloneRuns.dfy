/**
 The other direction of the refinement: whatever an atomic transaction commits, its
 statements commit when they run one after the other and nobody is in the way.  The
 locks and checks between the statements refuse nothing that the transaction grants.
 */
module AloneRuns {
  import opened Wrappers
  import opened Records
  import opened Access
  import opened AccessSafety
  import opened Interleaving

  /** The statements a transaction still has to run before it can commit. */
  function StatementsLeft(tx: Tx): nat {
    match tx
    case Updating(_, at) =>
      (match at
       case UpdateStarted => 6 case TenantLocked => 5 case MembershipLocked(_, _) => 4 case TargetRead(_, _, _) => 3
       case Checked(_, _, _) => 2 case Persisted(_, _, _) => 1 case SessionBumped(_, _, _, _) => 0)
    case Accepting(_, at) =>
      (match at
       case AcceptStarted => 3 case InvitationLocked(_, _) => 2 case Identified(_, _, _) => 1
       case MembershipRead(_, _, _, _, _) => 0)
    case Revoking(_, _, revoked) => if revoked.None? then 1 else 0
    case Anonymizing(_, _, _) => 0
  }

  lemma UpdateGoesOn(db: Db, update: MembershipUpdate, at: UpdatePoint)
    requires Inv(db) && UpdateInv(db, update, at) && UpdateRefusal(db, update).None? && !at.SessionBumped?
    ensures UpdateNext(db, update, at).Ok?
    ensures StatementsLeft(Updating(update, UpdateNext(db, update, at).value)) < StatementsLeft(Updating(update, at))
  {
    assert SoundMembership(db, db.memberships[update.membership]);
  }

  lemma AcceptGoesOn(db: Db, a: Acceptance, at: AcceptPoint)
    requires Inv(db) && AcceptInv(db, a, at) && AcceptRefusal(db, a).None? && !at.MembershipRead?
    ensures AcceptNext(db, a, at).Ok?
    ensures StatementsLeft(Accepting(a, AcceptNext(db, a, at).value)) < StatementsLeft(Accepting(a, at))
  {
    if !at.AcceptStarted? {
      FindByHashIs(db, at.id, a.hash);
    }
  }

  lemma GoesOn(db: Db, tx: Tx)
    requires Inv(db) && TxInv(db, tx) && Refusal(db, ActionOf(tx)).None? && StatementsLeft(tx) > 0
    ensures Next(db, tx).Ok? && ActionOf(Next(db, tx).value) == ActionOf(tx)
    ensures StatementsLeft(Next(db, tx).value) < StatementsLeft(tx)
  {
    match tx {
      case Updating(update, at) => UpdateGoesOn(db, update, at);
      case Accepting(a, at) => AcceptGoesOn(db, a, at);
      case Revoking(_, _, _) =>
    }
  }

  function Only(db: Db, tx: Tx): Sys {
    Sys(db, map[0 := tx])
  }

  lemma CommitsNow(db: Db, tx: Tx)
    requires SysInv(Only(db, tx)) && Ready(tx)
    ensures Refusal(db, ActionOf(tx)).None?
    ensures Step(Only(db, tx), CommitTx(0), Sys(Effect(db, ActionOf(tx)), map[]), true)
  {
    assert TxInv(db, Only(db, tx).txs[0]);
    CommitRefines(db, tx);
    assert Only(db, tx).txs - {0} == map[];
  }

  lemma StepsOn(db: Db, tx: Tx)
    requires SysInv(Only(db, tx)) && StatementsLeft(tx) > 0 && Refusal(db, ActionOf(tx)).None?
    ensures Next(db, tx).Ok? && ActionOf(Next(db, tx).value) == ActionOf(tx)
    ensures StatementsLeft(Next(db, tx).value) < StatementsLeft(tx)
    ensures Step(Only(db, tx), Statement(0), Only(db, Next(db, tx).value), true)
    ensures SysInv(Only(db, Next(db, tx).value))
  {
    var start := Only(db, tx);
    assert TxInv(db, start.txs[0]);
    GoesOn(db, tx);
    var next := Only(db, Next(db, tx).value);
    assert next == start.(txs := start.txs[0 := Next(db, tx).value]);
    assert Step(start, Statement(0), next, true);
    StepKeeps(start, Statement(0), next);
  }

  lemma TwoStates(start: Sys, move: Move, end: Sys)
    requires SysInv(start) && Step(start, move, end, true)
    ensures SysRun([start, end], [move], true)
  {
  }

  /** From wherever a transaction is that will not be refused, its remaining statements and its commit run. */
  lemma {:induction false} RunsToItsCommit(db: Db, tx: Tx) returns (states: seq<Sys>, moves: seq<Move>)
    requires SysInv(Only(db, tx)) && !tx.Anonymizing? && Refusal(db, ActionOf(tx)).None?
    ensures SysRun(states, moves, true) && states[0] == Only(db, tx)
    ensures states[|moves|] == Sys(Effect(db, ActionOf(tx)), map[])
    decreases StatementsLeft(tx)
  {
    if StatementsLeft(tx) == 0 {
      CommitsNow(db, tx);
      states, moves := [Only(db, tx), Sys(Effect(db, ActionOf(tx)), map[])], [CommitTx(0)];
      TwoStates(states[0], CommitTx(0), states[1]);
    } else {
      StepsOn(db, tx);
      var rest, more := RunsToItsCommit(db, Next(db, tx).value);
      RunPrepended(Only(db, tx), Statement(0), rest, more);
      states, moves := [Only(db, tx)] + rest, [Statement(0)] + more;
    }
  }

  lemma RunPrepended(start: Sys, move: Move, states: seq<Sys>, moves: seq<Move>)
    requires SysInv(start) && SysRun(states, moves, true) && Step(start, move, states[0], true)
    ensures SysRun([start] + states, [move] + moves, true)
  {
    var all, allMoves := [start] + states, [move] + moves;
    forall k | 0 <= k < |allMoves| ensures Step(all[k], allMoves[k], all[k + 1], true) {
      if k > 0 {
        assert Step(states[k - 1], moves[k - 1], states[k - 1 + 1], true);
      }
    }
  }

  predicate FromTheStart(tx: Tx) {
    Starting(tx) && !tx.Anonymizing?
  }

  /**
   An update, acceptance or revocation that is granted when it runs alone is committed
   by its statements: begin, every lock and check, commit.
   */
  lemma GrantedIsCommitted(db: Db, tx: Tx) returns (states: seq<Sys>, moves: seq<Move>)
    requires Inv(db) && FromTheStart(tx) && Refusal(db, ActionOf(tx)).None?
    ensures SysRun(states, moves, true) && states[0] == Sys(db, map[])
    ensures states[|moves|] == Sys(Effect(db, ActionOf(tx)), map[])
  {
    var idle := Sys(db, map[]);
    assert Step(idle, Begin(0, tx), Only(db, tx), true);
    StepKeeps(idle, Begin(0, tx), Only(db, tx));
    var rest, more := RunsToItsCommit(db, tx);
    states, moves := [idle] + rest, [Begin(0, tx)] + more;
    RunPrepended(idle, Begin(0, tx), rest, more);
  }
}
