/**
 What the transactions of `Outbox` do, on the fields of the rows: which jobs can be
 claimed and when, exactly, and what every row is afterwards.  The laws are about
 `Commits` and `Refusal` and use none of the functions these are computed with.
 (server/postgres/outbox.go:46-352, invitations.go:43-84,
 invitation_administration.go:76-101.)
 */
module OutboxLaws {
  import opened Wrappers
  import opened Records
  import opened Outbox
  import opened OutboxSafety
  import AccessLaws

  /** Waiting and available, or leased for more than ten minutes. */
  predicate Claimable(job: Job, now: int) {
    || (job.status == Pending && job.availableAt <= now)
    || (job.status == Processing && job.lockedAt.Some? && job.lockedAt.value < now - 600)
  }

  /** Earlier available; then older; then the smaller id. */
  predicate Precedes(a: JobId, first: Job, b: JobId, second: Job) {
    if first.availableAt != second.availableAt then first.availableAt < second.availableAt
    else if first.createdAt != second.createdAt then first.createdAt < second.createdAt
    else a < b
  }

  lemma DueIsClaimable(job: Job, now: int)
    ensures Due(job, now) <==> Claimable(job, now)
  {
  }

  lemma FirstPrecedes(jobs: map<JobId, Job>, now: int, locked: set<JobId>, first: JobId, other: JobId)
    requires IsFirst(jobs, DueJobs(jobs, now, locked), first)
    requires other in jobs && other != first && other !in locked && Claimable(jobs[other], now)
    ensures Precedes(first, jobs[first], other, jobs[other])
  {
    assert other in DueJobs(jobs, now, locked);
  }

  /** Nothing but the history, the audit and the named rows is different. */
  predicate OnlyRows(before: Queue, after: Queue, job: JobId, id: InvitationId) {
    AccessLaws.SameBut(before.jobs, after.jobs, job) && AccessLaws.SameBut(before.invitations, after.invitations, id)
  }

  // ----- claiming

  lemma ClaimGrantedExactly(q: Queue, job: JobId, lease: LeaseToken, now: int)
    ensures Refusal(q, Claim(job, lease, now)).None? <==>
              && job in q.jobs && Claimable(q.jobs[job], now)
              && forall handle :: Issued(q.history, handle) ==> handle.lease != lease
  {
  }

  /** A claim takes the job under the lease from now on, one attempt further, and leaves all else. */
  lemma ClaimTakes(q: Queue, job: JobId, lease: LeaseToken, now: int, after: Queue)
    requires Commits(q, Claim(job, lease, now), after)
    ensures job in q.jobs && job in after.jobs
    ensures var row := q.jobs[job];
            after.jobs[job] ==
            Job(row.invitation, Processing, row.attempts + 1, row.availableAt, row.createdAt, Some(now), Some(lease))
    ensures AccessLaws.SameBut(q.jobs, after.jobs, job)
    ensures after.invitations == q.invitations && after.audit == q.audit
    ensures Issued(after.history, Handle(job, q.jobs[job].attempts + 1, lease))
  {
    Recorded(q.history, after.history[|q.history|]);
  }

  // ----- finishing

  predicate Holds(q: Queue, handle: Handle) {
    && handle.job in q.jobs && q.jobs[handle.job].status == Processing
    && q.jobs[handle.job].lease == Some(handle.lease)
  }

  lemma FinishGrantedExactly(q: Queue, handle: Handle, now: int)
    ensures Refusal(q, Complete(handle)) == if Holds(q, handle) then None else Some(LeaseLost)
    ensures Refusal(q, Retry(handle, now)) == if Holds(q, handle) then None else Some(LeaseLost)
  {
  }

  lemma LeasedOnce(q: Queue, handle: Handle)
    requires Inv(q) && Issued(q.history, handle) && Holds(q, handle)
    ensures q.jobs[handle.job].attempts == handle.attempts > 0
    ensures q.jobs[handle.job].invitation in q.invitations
  {
    var row := q.jobs[handle.job];
    assert LeaseUnspent(handle.job, row, q.history) && AttemptsCounted(handle.job, row, q.history);
    assert Issued(q.history, Handle(handle.job, row.attempts, handle.lease));
    IssuedCounts(q.history, handle);
  }

  /** The row of a job once it is no longer being processed. */
  function Released(row: Job, status: JobStatus, availableAt: int): Job {
    Job(row.invitation, status, row.attempts, availableAt, row.createdAt, None, None)
  }

  predicate Reports(before: Queue, after: Queue, id: InvitationId, delivery: Delivery) {
    && id in before.invitations && id in after.invitations
    && var row := before.invitations[id];
       after.invitations[id] == Invitation(row.tenant, row.email, row.role, row.tokenHash, row.expiresAt, row.usedAt,
                                           row.revokedAt, row.anonymizedAt, delivery)
  }

  /** Completing releases the job for good and reports the mail as sent. */
  lemma CompleteWrites(q: Queue, handle: Handle, after: Queue)
    requires Inv(q) && Commits(q, Complete(handle), after)
    ensures handle.job in q.jobs && handle.job in after.jobs
    ensures var row := q.jobs[handle.job];
            && after.jobs[handle.job] == Released(row, Completed, row.availableAt)
            && Reports(q, after, row.invitation, Sent) && OnlyRows(q, after, handle.job, row.invitation)
    ensures after.audit == q.audit
  {
    LeasedOnce(q, handle);
  }

  /** The delays in seconds, by the number of attempts. */
  function Delay(attempts: nat): int {
    if attempts == 1 then 60 else if attempts == 2 then 120 else if attempts == 3 then 240 else 480
  }

  /** After the first four attempts the job waits a minute, two, four and eight; after the fifth it is given up. */
  lemma RetryWrites(q: Queue, handle: Handle, now: int, after: Queue)
    requires Inv(q) && Commits(q, Retry(handle, now), after)
    ensures handle.job in q.jobs && handle.job in after.jobs
    ensures var row := q.jobs[handle.job];
            && 0 < row.attempts && OnlyRows(q, after, handle.job, row.invitation)
            && if row.attempts < 5
               then after.jobs[handle.job] == Released(row, Pending, now + Delay(row.attempts))
                    && Reports(q, after, row.invitation, Retrying) && after.audit == q.audit
               else after.jobs[handle.job] == Released(row, DeadLetter, row.availableAt)
                    && Reports(q, after, row.invitation, Failed) && after.audit == q.audit + [handle.job]
  {
    LeasedOnce(q, handle);
    assert Power(0) == 1 && Power(1) == 2 && Power(2) == 4 && Power(3) == 8;
  }

  // ----- laws over two transactions

  /**
   A job put back at time t after its a-th attempt can be claimed, under a fresh
   lease, exactly from t plus the delay on.
   */
  lemma RetryThenClaim(q: Queue, handle: Handle, t: int, after: Queue, lease: LeaseToken, later: int)
    requires Inv(q) && Commits(q, Retry(handle, t), after)
    requires forall other :: Issued(after.history, other) ==> other.lease != lease
    ensures handle.job in q.jobs
    ensures Refusal(after, Claim(handle.job, lease, later)).None? <==>
              q.jobs[handle.job].attempts < 5 && t + Delay(q.jobs[handle.job].attempts) <= later
  {
    RetryWrites(q, handle, t, after);
    ClaimGrantedExactly(after, handle.job, lease, later);
  }

  /** The job of a new invitation can be claimed exactly from the time it was enqueued on. */
  lemma EnqueueThenClaim(q: Queue, job: JobId, id: InvitationId, row: Invitation, now: int, after: Queue,
                         lease: LeaseToken, later: int)
    requires Commits(q, Enqueue(job, id, row, now), after)
    requires forall other :: Issued(q.history, other) ==> other.lease != lease
    ensures Refusal(after, Claim(job, lease, later)).None? <==> now <= later
    ensures job in after.jobs && after.jobs[job] == Job(id, Pending, 0, now, now, None, None)
    ensures AccessLaws.SameBut(q.jobs, after.jobs, job) && after.invitations == q.invitations[id := row]
  {
    ClaimGrantedExactly(after, job, lease, later);
  }

  /** A claimed job can be claimed again exactly when its lease is more than ten minutes old. */
  lemma ClaimThenClaim(q: Queue, job: JobId, lease: LeaseToken, now: int, after: Queue, other: LeaseToken, later: int)
    requires Commits(q, Claim(job, lease, now), after)
    requires forall handle :: Issued(after.history, handle) ==> handle.lease != other
    ensures Refusal(after, Claim(job, other, later)).None? <==> now + 600 < later
  {
    ClaimTakes(q, job, lease, now, after);
    ClaimGrantedExactly(after, job, other, later);
  }

  // ----- revoking

  /** Revoking dates the revocation and kills exactly the live jobs of the invitation, releasing them. */
  lemma RevokeWrites(q: Queue, id: InvitationId, now: int, after: Queue, j: JobId)
    requires Commits(q, Revoke(id, now), after) && j in q.jobs
    ensures id in q.invitations && q.invitations[id].usedAt.None? && q.invitations[id].revokedAt.None?
    ensures after.jobs.Keys == q.jobs.Keys && after.audit == q.audit
    ensures var row := q.jobs[j];
            after.jobs[j] == if row.invitation == id && (row.status == Pending || row.status == Processing)
                             then Released(row, DeadLetter, row.availableAt) else row
    ensures AccessLaws.SameBut(q.invitations, after.invitations, id)
    ensures id in after.invitations
            && var row := q.invitations[id];
               after.invitations[id] == Invitation(row.tenant, row.email, row.role, row.tokenHash, row.expiresAt, None,
                                                   Some(now), row.anonymizedAt, row.delivery)
  {
  }

  /** Revoking is granted exactly for an unused and unrevoked invitation. */
  lemma RevokeGrantedExactly(q: Queue, id: InvitationId, now: int)
    ensures Refusal(q, Revoke(id, now)).None? <==>
              id in q.invitations && q.invitations[id].usedAt.None? && q.invitations[id].revokedAt.None?
  {
  }

  // ----- accepting and anonymizing leave the queue alone

  /** An acceptance dates the use of an unused invitation; anonymization blanks one that may be blanked. */
  lemma InvitationOnly(q: Queue, action: Action, after: Queue)
    requires Commits(q, action, after) && (action.Accept? || action.Anonymize?)
    ensures after.jobs == q.jobs && after.history == q.history && after.audit == q.audit
    ensures AccessLaws.SameBut(q.invitations, after.invitations, action.id)
    ensures action.id in q.invitations && action.id in after.invitations
    ensures var row, now := q.invitations[action.id], action.now;
            && (action.Accept? ==> row.usedAt.None? && row.revokedAt.None?)
            && after.invitations[action.id] ==
               if action.Accept?
               then Invitation(row.tenant, row.email, row.role, row.tokenHash, row.expiresAt, Some(now), row.revokedAt,
                               row.anonymizedAt, row.delivery)
               else Invitation(row.tenant, 0, row.role, None, row.expiresAt, row.usedAt, row.revokedAt, Some(now),
                               row.delivery)
  {
  }
}
