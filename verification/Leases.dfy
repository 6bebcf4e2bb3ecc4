/**
 Workers and revokers as they really run: one SQL statement at a time, next to
 each other, under row locks, each transaction free to abort before it commits.

 Finishing writes the job first and its invitation second; revoking writes the
 invitation first and its jobs second.  Every row written stays locked until the
 transaction ends, and writes become visible at commit.  The main result is that
 what such a run commits is what the atomic transactions of `Outbox` commit one
 after the other (server/postgres/outbox.go:137-352,
 invitation_administration.go:76-101).
 */
module Leases {
  import opened Wrappers
  import opened Records
  import opened Outbox
  import opened OutboxSafety

  datatype Resource = JobRow(job: JobId) | InvitationRow(invitation: InvitationId)

  datatype FinishPoint =
    | FinishStarted
    | JobWritten(job: Job)
    | DeliveryWritten(job: Job, invitation: Invitation)

  datatype RevokePoint =
    | RevokeStarted
    | InvitationMarked(invitation: Invitation)
    | JobsCancelled(invitation: Invitation, jobs: map<JobId, Job>)

  /** `action` is a `Complete` or a `Retry`. */
  datatype Tx =
    | Finishing(action: Action, finishAt: FinishPoint)
    | Revoking(id: InvitationId, now: int, revokeAt: RevokePoint)

  datatype Sys = Sys(queue: Queue, txs: map<nat, Tx>)

  // ----- locks

  function Rows(jobs: map<JobId, Job>): set<Resource> {
    set j | j in jobs :: JobRow(j)
  }

  function Holds(tx: Tx): set<Resource> {
    match tx
    case Finishing(action, at) =>
      if !Finishes(action) then {}
      else (match at
            case FinishStarted => {}
            case JobWritten(_) => {JobRow(action.handle.job)}
            case DeliveryWritten(job, _) => {JobRow(action.handle.job), InvitationRow(job.invitation)})
    case Revoking(id, _, at) =>
      match at
      case RevokeStarted => {}
      case InvitationMarked(_) => {InvitationRow(id)}
      case JobsCancelled(_, jobs) => {InvitationRow(id)} + Rows(jobs)
  }

  ghost predicate Free(txs: map<nat, Tx>, self: Option<nat>, wanted: set<Resource>) {
    forall id :: id in txs && self != Some(id) ==> Holds(txs[id]) !! wanted
  }

  // ----- statements

  predicate Finishes(action: Action) {
    action.Complete? || action.Retry?
  }

  function OutcomeOf(action: Action): Outcome
    requires Finishes(action)
  {
    if action.Complete? then Delivered else RetryOutcome(action.handle, action.now)
  }

  function LiveJobsOf(jobs: map<JobId, Job>, id: InvitationId): map<JobId, Job> {
    map j | j in jobs && Cancelled(jobs, j, id) :: jobs[j]
  }

  /** The state of the transaction after its next statement, or the error on which it rolls back. */
  function Next(q: Queue, tx: Tx): Result<Tx, Error> {
    match tx
    case Finishing(action, at) =>
      if !Finishes(action) then Err(Internal)
      else (match at
            case FinishStarted =>
              if Current(q.jobs, action.handle) then Ok(Finishing(action, JobWritten(q.jobs[action.handle.job])))
              else Err(LeaseLost)
            case JobWritten(job) =>
              if job.invitation in q.invitations then
                Ok(Finishing(action, DeliveryWritten(job, q.invitations[job.invitation])))
              else Err(Internal)
            case DeliveryWritten(_, _) => Ok(tx))
    case Revoking(id, now, at) =>
      match at
      case RevokeStarted =>
        if Unused(q, id) then Ok(Revoking(id, now, InvitationMarked(q.invitations[id]))) else Err(InvitationInvalid)
      case InvitationMarked(invitation) => Ok(Revoking(id, now, JobsCancelled(invitation, LiveJobsOf(q.jobs, id))))
      case JobsCancelled(_, _) => Ok(tx)
  }

  predicate Starting(q: Queue, tx: Tx) {
    match tx
    case Finishing(action, at) => Finishes(action) && at.FinishStarted? && Issued(q.history, action.handle)
    case Revoking(_, _, at) => at.RevokeStarted?
  }

  predicate Ready(tx: Tx) {
    match tx
    case Finishing(action, at) => Finishes(action) && at.DeliveryWritten?
    case Revoking(_, _, at) => at.JobsCancelled?
  }

  /** The written rows, computed from the rows that were read, replace what is stored. */
  function Commit(q: Queue, tx: Tx): Queue
    requires Ready(tx)
  {
    match tx
    case Finishing(action, at) =>
      Queue(q.jobs[action.handle.job := FinishedJob(at.job, OutcomeOf(action))],
            q.invitations[at.job.invitation := FinishedInvitation(at.invitation, OutcomeOf(action))],
            q.history + [Ended(action.handle, OutcomeOf(action))],
            q.audit + if OutcomeOf(action).GaveUp? then [action.handle.job] else [])
    case Revoking(id, now, at) =>
      q.(jobs := q.jobs + map j | j in at.jobs :: CancelledJob(at.jobs[j]),
         invitations := q.invitations[id := at.invitation.(revokedAt := Some(now))])
  }

  function ActionOf(tx: Tx): Action {
    match tx
    case Finishing(action, _) => action
    case Revoking(id, now, _) => Revoke(id, now)
  }

  // ----- single-statement transactions, and those that keep their invitation locked throughout

  predicate Direct(action: Action) {
    !Finishes(action) && !action.Revoke?
  }

  function Needs(action: Action): set<Resource>
    requires Direct(action)
  {
    match action
    case Enqueue(job, id, _, _) => {JobRow(job), InvitationRow(id)}
    case Claim(job, _, _) => {JobRow(job)}
    case Accept(id, _) => {InvitationRow(id)}
    case Anonymize(id, _, _) => {InvitationRow(id)}
  }

  datatype Move =
    | Begin(id: nat, tx: Tx)
    | Statement(id: nat)
    | CommitTx(id: nat)
    | Abort(id: nat)
    | Do(action: Action)

  ghost predicate Step(before: Sys, move: Move, after: Sys) {
    match move
    case Begin(id, tx) =>
      id !in before.txs && Starting(before.queue, tx) && after == before.(txs := before.txs[id := tx])
    case Statement(id) =>
      && id in before.txs
      && var next := Next(before.queue, before.txs[id]);
         && next.Ok?
         && Free(before.txs, Some(id), Holds(next.value))
         && after == before.(txs := before.txs[id := next.value])
    case CommitTx(id) =>
      && id in before.txs && Ready(before.txs[id])
      && after == Sys(Commit(before.queue, before.txs[id]), before.txs - {id})
    case Abort(id) => id in before.txs && after == before.(txs := before.txs - {id})
    case Do(action) =>
      && Direct(action) && Free(before.txs, None, Needs(action))
      && Commits(before.queue, action, after.queue) && after.txs == before.txs
  }

  // ----- what the values read by a running transaction still say about the tables

  predicate TxInv(q: Queue, tx: Tx) {
    match tx
    case Finishing(action, at) =>
      && Finishes(action) && Issued(q.history, action.handle)
      && (at.FinishStarted? || (Current(q.jobs, action.handle) && q.jobs[action.handle.job] == at.job))
      && (at.DeliveryWritten? ==>
          at.job.invitation in q.invitations && q.invitations[at.job.invitation] == at.invitation)
    case Revoking(id, _, at) =>
      && (at.RevokeStarted? || (Unused(q, id) && q.invitations[id] == at.invitation))
      && (at.JobsCancelled? ==> at.jobs == LiveJobsOf(q.jobs, id))
  }

  ghost predicate Disjoint(txs: map<nat, Tx>) {
    forall a, b :: a in txs && b in txs && a != b ==> Holds(txs[a]) !! Holds(txs[b])
  }

  ghost predicate SysInv(sys: Sys) {
    && Inv(sys.queue)
    && Disjoint(sys.txs)
    && (forall id :: id in sys.txs ==> TxInv(sys.queue, sys.txs[id]))
  }

  predicate JobsFramed(before: map<JobId, Job>, after: map<JobId, Job>, written: set<Resource>) {
    forall j :: j in before && JobRow(j) !in written ==> j in after && after[j] == before[j]
  }

  predicate InvitationsFramed(before: map<InvitationId, Invitation>, after: map<InvitationId, Invitation>,
          written: set<Resource>) {
    forall i :: i in before && InvitationRow(i) !in written ==> i in after && after[i] == before[i]
  }

  /** Jobs keep their invitation, finished ones are not alive again, and new jobs belong to new invitations. */
  predicate NoneRevived(before: map<JobId, Job>, after: map<JobId, Job>, invitations: map<InvitationId, Invitation>) {
    && (forall j :: j in before && j in after ==>
          after[j].invitation == before[j].invitation && (Live(after[j]) ==> Live(before[j])))
    && (forall j :: j in after && j !in before ==> after[j].invitation !in invitations)
  }

  /** Only the rows in `written` differ. */
  ghost predicate Framed(before: Queue, after: Queue, written: set<Resource>) {
    && before.history <= after.history
    && JobsFramed(before.jobs, after.jobs, written)
    && InvitationsFramed(before.invitations, after.invitations, written)
    && NoneRevived(before.jobs, after.jobs, before.invitations)
  }

  lemma IssuedKept(before: seq<Event>, after: seq<Event>, handle: Handle)
    requires before <= after && Issued(before, handle)
    ensures Issued(after, handle)
  {
    assert forall event :: event in before ==> event in after;
  }

  lemma FramedKeepsTx(before: Queue, after: Queue, written: set<Resource>, tx: Tx)
    requires Framed(before, after, written) && TxInv(before, tx) && Holds(tx) !! written
    ensures TxInv(after, tx)
  {
    match tx {
      case Finishing(action, at) =>
        IssuedKept(before.history, after.history, action.handle);
        if !at.FinishStarted? {
          assert JobRow(action.handle.job) in Holds(tx);
          assert at.DeliveryWritten? ==> InvitationRow(at.job.invitation) in Holds(tx);
        }
      case Revoking(id, now, at) =>
        if !at.RevokeStarted? {
          assert InvitationRow(id) in Holds(tx);
        }
        if at.JobsCancelled? {
          assert forall j :: j in at.jobs ==> JobRow(j) in Holds(tx);
          assert at.jobs == LiveJobsOf(after.jobs, id);
        }
    }
  }

  // ----- commits refine the atomic transactions

  lemma FinishRefines(q: Queue, action: Action, at: FinishPoint)
    requires TxInv(q, Finishing(action, at)) && Ready(Finishing(action, at))
    ensures Commits(q, action, Commit(q, Finishing(action, at)))
    ensures Framed(q, Commit(q, Finishing(action, at)), Holds(Finishing(action, at)))
  {
  }

  lemma RevokeRefines(q: Queue, id: InvitationId, now: int, at: RevokePoint)
    requires TxInv(q, Revoking(id, now, at)) && Ready(Revoking(id, now, at))
    ensures Commits(q, Revoke(id, now), Commit(q, Revoking(id, now, at)))
    ensures Framed(q, Commit(q, Revoking(id, now, at)), Holds(Revoking(id, now, at)))
  {
    assert Commit(q, Revoking(id, now, at)).jobs == RevokeEffect(q, id, now).jobs;
    assert forall j :: j in at.jobs ==> JobRow(j) in Rows(at.jobs);
  }

  lemma CommitRefines(q: Queue, tx: Tx)
    requires TxInv(q, tx) && Ready(tx)
    ensures Commits(q, ActionOf(tx), Commit(q, tx))
    ensures Framed(q, Commit(q, tx), Holds(tx))
  {
    match tx {
      case Finishing(action, at) => FinishRefines(q, action, at);
      case Revoking(id, now, at) => RevokeRefines(q, id, now, at);
    }
  }

  lemma DirectFramed(q: Queue, action: Action, after: Queue)
    requires Direct(action) && Commits(q, action, after)
    ensures Framed(q, after, Needs(action))
  {
  }

  // ----- steps

  lemma StatementKeeps(before: Sys, id: nat, after: Sys)
    requires SysInv(before) && Step(before, Statement(id), after)
    ensures SysInv(after)
  {
    assert TxInv(before.queue, before.txs[id]);
  }

  lemma CommitKeeps(before: Sys, id: nat, after: Sys)
    requires SysInv(before) && Step(before, CommitTx(id), after)
    ensures SysInv(after) && Commits(before.queue, ActionOf(before.txs[id]), after.queue)
  {
    CommitRefines(before.queue, before.txs[id]);
    CommitKeepsInv(before.queue, ActionOf(before.txs[id]), after.queue);
    forall other | other in after.txs ensures TxInv(after.queue, after.txs[other]) {
      FramedKeepsTx(before.queue, after.queue, Holds(before.txs[id]), before.txs[other]);
    }
  }

  lemma DoKeeps(before: Sys, action: Action, after: Sys)
    requires SysInv(before) && Step(before, Do(action), after)
    ensures SysInv(after)
  {
    DirectFramed(before.queue, action, after.queue);
    CommitKeepsInv(before.queue, action, after.queue);
    forall other | other in after.txs ensures TxInv(after.queue, after.txs[other]) {
      FramedKeepsTx(before.queue, after.queue, Needs(action), before.txs[other]);
    }
  }

  ghost predicate SameOrCommitted(before: Queue, after: Queue) {
    before == after || OutboxSafety.Next(before, after)
  }

  lemma StepRefines(before: Sys, move: Move, after: Sys)
    requires SysInv(before) && Step(before, move, after)
    ensures SysInv(after) && SameOrCommitted(before.queue, after.queue)
  {
    match move {
      case Begin(_, _) =>
      case Statement(id) => StatementKeeps(before, id, after);
      case CommitTx(id) => CommitKeeps(before, id, after);
      case Abort(_) =>
      case Do(action) => DoKeeps(before, action, after);
    }
  }

  // ----- runs

  ghost predicate SysRun(states: seq<Sys>, moves: seq<Move>) {
    && |states| == |moves| + 1
    && SysInv(states[0])
    && forall k :: 0 <= k < |moves| ==> Step(states[k], moves[k], states[k + 1])
  }

  function Queues(states: seq<Sys>): (queues: seq<Queue>)
    ensures |queues| == |states| && forall k :: 0 <= k < |states| ==> queues[k] == states[k].queue
  {
    seq(|states|, k requires 0 <= k < |states| => states[k].queue)
  }

  lemma {:induction false} SysInvHolds(states: seq<Sys>, moves: seq<Move>, k: nat)
    requires SysRun(states, moves) && k < |states|
    ensures SysInv(states[k])
  {
    if 0 < k {
      SysInvHolds(states, moves, k - 1);
      StepRefines(states[k - 1], moves[k - 1], states[k - 1 + 1]);
    }
  }

  /** What any number of interleaved workers and revokers commit, they could have committed one after the other. */
  lemma InterleavedRunsAreSerial(states: seq<Sys>, moves: seq<Move>)
    requires SysRun(states, moves)
    ensures Run(Queues(states))
  {
    var queues := Queues(states);
    forall k | 0 <= k < |queues| - 1 ensures StepAt(queues, k) {
      SysInvHolds(states, moves, k);
      StepRefines(states[k], moves[k], states[k + 1]);
      assert SameOrCommitted(states[k].queue, states[k + 1].queue);
    }
  }

  // ----- what is granted is committed

  function StatementsLeft(tx: Tx): nat {
    match tx
    case Finishing(_, at) => if at.FinishStarted? then 2 else if at.JobWritten? then 1 else 0
    case Revoking(_, _, at) => if at.RevokeStarted? then 2 else if at.InvitationMarked? then 1 else 0
  }

  function Only(q: Queue, tx: Tx): Sys {
    Sys(q, map[0 := tx])
  }

  lemma GoesOn(q: Queue, tx: Tx)
    requires Inv(q) && TxInv(q, tx) && Refusal(q, ActionOf(tx)).None? && StatementsLeft(tx) > 0
    ensures Next(q, tx).Ok? && ActionOf(Next(q, tx).value) == ActionOf(tx)
    ensures StatementsLeft(Next(q, tx).value) < StatementsLeft(tx)
  {
  }

  lemma RunPrepended(start: Sys, move: Move, states: seq<Sys>, moves: seq<Move>)
    requires SysInv(start) && SysRun(states, moves) && Step(start, move, states[0])
    ensures SysRun([start] + states, [move] + moves)
  {
    var all, allMoves := [start] + states, [move] + moves;
    forall k | 0 <= k < |allMoves| ensures Step(all[k], allMoves[k], all[k + 1]) {
      if k > 0 {
        assert Step(states[k - 1], moves[k - 1], states[k - 1 + 1]);
      }
    }
  }

  lemma {:induction false} RunsToItsCommit(q: Queue, tx: Tx) returns (states: seq<Sys>, moves: seq<Move>)
    requires SysInv(Only(q, tx)) && Refusal(q, ActionOf(tx)).None?
    ensures SysRun(states, moves) && states[0] == Only(q, tx)
    ensures states[|moves|] == Sys(Effect(q, ActionOf(tx)), map[])
    decreases StatementsLeft(tx)
  {
    var start := Only(q, tx);
    assert TxInv(q, start.txs[0]);
    if StatementsLeft(tx) == 0 {
      CommitRefines(q, tx);
      var end := Sys(Commit(q, tx), start.txs - {0});
      assert end == Sys(Effect(q, ActionOf(tx)), map[]);
      assert Step(start, CommitTx(0), end);
      states, moves := [start, end], [CommitTx(0)];
    } else {
      GoesOn(q, tx);
      var next := Only(q, Next(q, tx).value);
      assert next == start.(txs := start.txs[0 := Next(q, tx).value]);
      assert Step(start, Statement(0), next);
      StepRefines(start, Statement(0), next);
      var rest, more := RunsToItsCommit(q, Next(q, tx).value);
      states, moves := [start] + rest, [Statement(0)] + more;
      RunPrepended(start, Statement(0), rest, more);
    }
  }

  /** A finishing or revoking transaction that is granted when it runs alone is committed by its statements. */
  lemma GrantedIsCommitted(q: Queue, tx: Tx) returns (states: seq<Sys>, moves: seq<Move>)
    requires Inv(q) && Starting(q, tx) && Refusal(q, ActionOf(tx)).None?
    ensures SysRun(states, moves) && states[0] == Sys(q, map[])
    ensures states[|moves|] == Sys(Effect(q, ActionOf(tx)), map[])
  {
    var idle := Sys(q, map[]);
    assert Step(idle, Begin(0, tx), Only(q, tx));
    StepRefines(idle, Begin(0, tx), Only(q, tx));
    var rest, more := RunsToItsCommit(q, tx);
    states, moves := [idle] + rest, [Begin(0, tx)] + more;
    RunPrepended(idle, Begin(0, tx), rest, more);
  }

  /** Fencing, at the level of statements: the first statement of a worker that lost its lease never succeeds again. */
  lemma LostLeaseNeverWrites(states: seq<Sys>, moves: seq<Move>, i: nat, j: nat, action: Action)
    requires SysRun(states, moves) && i <= j < |states|
    requires Finishes(action) && Issued(states[i].queue.history, action.handle)
    requires !Current(states[i].queue.jobs, action.handle)
    ensures Next(states[j].queue, Finishing(action, FinishStarted)) == Err(LeaseLost)
  {
    InterleavedRunsAreSerial(states, moves);
    LostLeaseChangesNothing(Queues(states), i, j, action);
  }

  /** In every interleaving at most one transaction has an effect under any lease. */
  lemma OneOutcomePerLease(states: seq<Sys>, moves: seq<Move>, j: nat, lease: LeaseToken)
    requires SysRun(states, moves) && j < |states|
    ensures EndingsOf(states[j].queue.history, lease) <= 1
  {
    InterleavedRunsAreSerial(states, moves);
    OneOutcomePerClaim(Queues(states), j, lease);
  }
}
