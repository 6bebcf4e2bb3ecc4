/**
 What every run of the queue keeps, with any number of workers and revokers, and
 what a lease is worth.
 */
module OutboxSafety {
  import opened Wrappers
  import opened Records
  import opened Outbox

  // ----- the invariant

  predicate DeliveryFits(job: Job, row: Invitation) {
    match job.status
    case Pending => row.revokedAt.None? && row.delivery == if job.attempts == 0 then Queued else Retrying
    case Processing => row.revokedAt.None? && row.delivery in {Queued, Retrying}
    case Completed => row.delivery == Sent
    case DeadLetter => row.delivery == Failed || (row.revokedAt.Some? && row.delivery in {Queued, Retrying})
  }

  /** The lease and the lock time are set exactly while the job is being processed. */
  predicate LeaseFits(job: Job) {
    (job.status == Processing <==> job.lease.Some?) && (job.lease.Some? <==> job.lockedAt.Some?)
  }

  /** The lease in the row was issued with the number of attempts in the row, and nothing was done under it yet. */
  predicate LeaseUnspent(j: JobId, job: Job, history: seq<Event>) {
    job.lease.Some? ==>
      Issued(history, Handle(j, job.attempts, job.lease.value)) && EndingsOf(history, job.lease.value) == 0
  }

  predicate AttemptsCounted(j: JobId, job: Job, history: seq<Event>) {
    && job.attempts == ClaimsOf(history, j, false) + ClaimsOf(history, j, true)
    && ClaimsOf(history, j, false) <= MAXIMUM_ATTEMPTS
    && (job.status == Pending ==> job.attempts < MAXIMUM_ATTEMPTS)
  }

  predicate JobsFit(jobs: map<JobId, Job>, invitations: map<InvitationId, Invitation>) {
    forall j :: j in jobs ==>
      LeaseFits(jobs[j]) && jobs[j].invitation in invitations && DeliveryFits(jobs[j], invitations[jobs[j].invitation])
  }

  predicate OneJobPerInvitation(jobs: map<JobId, Job>) {
    forall j, k :: j in jobs && k in jobs && jobs[j].invitation == jobs[k].invitation ==> j == k
  }

  predicate JobsCounted(jobs: map<JobId, Job>, history: seq<Event>) {
    forall j :: j in jobs ==> LeaseUnspent(j, jobs[j], history) && AttemptsCounted(j, jobs[j], history)
  }

  ghost predicate LeasesUnique(history: seq<Event>) {
    && (forall a, b :: Issued(history, a) && Issued(history, b) && a.lease == b.lease ==> a == b)
    && (forall lease :: EndingsOf(history, lease) <= 1)
    && (forall lease :: EndingsOf(history, lease) > 0 ==> LeaseIssued(history, lease))
  }

  ghost predicate NothingForgotten(jobs: map<JobId, Job>, history: seq<Event>) {
    forall j, reclaim :: j !in jobs ==> ClaimsOf(history, j, reclaim) == 0
  }

  /** The job was given up: it is dead, and not because its invitation was revoked. */
  predicate WasGivenUp(jobs: map<JobId, Job>, invitations: map<InvitationId, Invitation>, j: JobId) {
    && j in jobs && jobs[j].status == DeadLetter
    && jobs[j].invitation in invitations && invitations[jobs[j].invitation].delivery == Failed
  }

  /** One audit event for every job that was given up, and no others. */
  ghost predicate AuditFits(jobs: map<JobId, Job>, invitations: map<InvitationId, Invitation>, audit: seq<JobId>) {
    forall j :: multiset(audit)[j] == if WasGivenUp(jobs, invitations, j) then 1 else 0
  }

  ghost predicate Inv(q: Queue) {
    && JobsFit(q.jobs, q.invitations)
    && OneJobPerInvitation(q.jobs)
    && JobsCounted(q.jobs, q.history)
    && LeasesUnique(q.history)
    && NothingForgotten(q.jobs, q.history)
    && AuditFits(q.jobs, q.invitations, q.audit)
  }

  // ----- every transaction keeps it

  lemma ClaimKeepsInv(q: Queue, job: JobId, lease: LeaseToken, now: int)
    requires Inv(q) && Refusal(q, Claim(job, lease, now)).None?
    ensures Inv(ClaimEffect(q, job, lease, now))
  {
    ClaimKeepsRows(q, job, lease, now);
    ClaimKeepsHistory(q, job, lease, now);
  }

  lemma ClaimKeepsRows(q: Queue, job: JobId, lease: LeaseToken, now: int)
    requires JobsFit(q.jobs, q.invitations) && OneJobPerInvitation(q.jobs) && AuditFits(q.jobs, q.invitations, q.audit)
    requires job in q.jobs && Due(q.jobs[job], now)
    ensures var after := ClaimEffect(q, job, lease, now);
            && JobsFit(after.jobs, after.invitations) && OneJobPerInvitation(after.jobs)
            && AuditFits(after.jobs, after.invitations, after.audit)
  {
    ClaimKeepsFit(q.jobs, q.invitations, job, lease, now);
    ClaimKeepsAudit(q.jobs, q.invitations, q.audit, job, lease, now);
  }

  lemma ClaimKeepsHistory(q: Queue, job: JobId, lease: LeaseToken, now: int)
    requires JobsCounted(q.jobs, q.history) && LeasesUnique(q.history) && NothingForgotten(q.jobs, q.history)
    requires job in q.jobs && Due(q.jobs[job], now) && !LeaseIssued(q.history, lease)
    ensures var after := ClaimEffect(q, job, lease, now);
            && JobsCounted(after.jobs, after.history) && LeasesUnique(after.history)
            && NothingForgotten(after.jobs, after.history)
  {
    var event := ClaimWrites(q, job, lease, now);
    FreshLeaseUnspent(q.history, lease);
    ClaimKeepsLeases(q.history, event);
    ClaimKeepsCounts(q.jobs, q.history, job, lease, now);
    ClaimForgetsNothing(q.jobs, q.history, ClaimEffect(q, job, lease, now).jobs, event);
  }

  /** The tables a claim leaves, and the event it adds. */
  lemma ClaimWrites(q: Queue, job: JobId, lease: LeaseToken, now: int) returns (event: Event)
    requires job in q.jobs
    ensures event == Claimed(Handle(job, q.jobs[job].attempts + 1, lease), q.jobs[job].status == Processing)
    ensures var after := ClaimEffect(q, job, lease, now);
            && after.jobs == q.jobs[job := Leased(q.jobs[job], lease, now)]
            && after.history == q.history + [event]
            && after.invitations == q.invitations && after.audit == q.audit
  {
    event := Claimed(Handle(job, q.jobs[job].attempts + 1, lease), q.jobs[job].status == Processing);
  }

  lemma AuditKept(jobs: map<JobId, Job>, invitations: map<InvitationId, Invitation>,
                  after: map<JobId, Job>, rows: map<InvitationId, Invitation>, audit: seq<JobId>)
    requires AuditFits(jobs, invitations, audit)
    requires forall j :: WasGivenUp(after, rows, j) <==> WasGivenUp(jobs, invitations, j)
    ensures AuditFits(after, rows, audit)
  {
  }

  lemma ClaimKeepsAudit(jobs: map<JobId, Job>, invitations: map<InvitationId, Invitation>, audit: seq<JobId>,
                        job: JobId, lease: LeaseToken, now: int)
    requires AuditFits(jobs, invitations, audit) && job in jobs && Due(jobs[job], now)
    ensures AuditFits(jobs[job := Leased(jobs[job], lease, now)], invitations, audit)
  {
    AuditKept(jobs, invitations, jobs[job := Leased(jobs[job], lease, now)], invitations, audit);
  }

  lemma FreshLeaseUnspent(history: seq<Event>, lease: LeaseToken)
    requires LeasesUnique(history) && !LeaseIssued(history, lease)
    ensures EndingsOf(history, lease) == 0
  {
  }

  lemma ClaimKeepsFit(jobs: map<JobId, Job>, invitations: map<InvitationId, Invitation>, job: JobId,
          lease: LeaseToken, now: int)
    requires JobsFit(jobs, invitations) && OneJobPerInvitation(jobs) && job in jobs && Due(jobs[job], now)
    ensures JobsFit(jobs[job := Leased(jobs[job], lease, now)], invitations)
    ensures OneJobPerInvitation(jobs[job := Leased(jobs[job], lease, now)])
  {
  }

  lemma ClaimForgetsNothing(jobs: map<JobId, Job>, history: seq<Event>, after: map<JobId, Job>, event: Event)
    requires NothingForgotten(jobs, history) && after.Keys == jobs.Keys
    requires event.Claimed? && event.handle.job in jobs
    ensures NothingForgotten(after, history + [event])
  {
    Recorded(history, event);
  }

  lemma CountsOfOthersKept(j: JobId, row: Job, history: seq<Event>, event: Event)
    requires LeaseUnspent(j, row, history) && AttemptsCounted(j, row, history)
    requires event.Claimed? && event.handle.job != j
    ensures LeaseUnspent(j, row, history + [event]) && AttemptsCounted(j, row, history + [event])
  {
    Recorded(history, event);
  }

  lemma CountsOfClaimed(j: JobId, row: Job, history: seq<Event>, lease: LeaseToken, now: int)
    requires AttemptsCounted(j, row, history) && Due(row, now) && EndingsOf(history, lease) == 0
    ensures var event := Claimed(Handle(j, row.attempts + 1, lease), row.status == Processing);
            LeaseUnspent(j, Leased(row, lease, now), history + [event])
                && AttemptsCounted(j, Leased(row, lease, now), history + [event])
  {
    var event := Claimed(Handle(j, row.attempts + 1, lease), row.status == Processing);
    Recorded(history, event);
    assert (history + [event])[|history|] == event;
  }

  lemma ClaimKeepsCounts(jobs: map<JobId, Job>, history: seq<Event>, job: JobId, lease: LeaseToken, now: int)
    requires JobsCounted(jobs, history) && EndingsOf(history, lease) == 0
    requires job in jobs && Due(jobs[job], now)
    ensures var event := Claimed(Handle(job, jobs[job].attempts + 1, lease), jobs[job].status == Processing);
            JobsCounted(jobs[job := Leased(jobs[job], lease, now)], history + [event])
  {
    var event := Claimed(Handle(job, jobs[job].attempts + 1, lease), jobs[job].status == Processing);
    CountsOfClaimed(job, jobs[job], history, lease, now);
    forall j | j in jobs && j != job
      ensures LeaseUnspent(j, jobs[j], history + [event]) && AttemptsCounted(j, jobs[j], history + [event])
    {
      CountsOfOthersKept(j, jobs[j], history, event);
    }
  }

  lemma ClaimKeepsLeases(history: seq<Event>, event: Event)
    requires LeasesUnique(history) && event.Claimed? && !LeaseIssued(history, event.handle.lease)
    ensures LeasesUnique(history + [event])
  {
    var after := history + [event];
    Recorded(history, event);
    forall lease | EndingsOf(after, lease) > 0 ensures LeaseIssued(after, lease) {
      assert LeaseIssued(history, lease);
      var h :| Issued(history, h) && h.lease == lease;
      assert Issued(after, h);
    }
  }

  lemma FinishKeepsInv(q: Queue, handle: Handle, outcome: Outcome)
    requires Inv(q) && Current(q.jobs, handle) && Issued(q.history, handle)
    requires outcome.Rescheduled? ==> handle.attempts < MAXIMUM_ATTEMPTS
    ensures Inv(FinishEffect(q, handle, outcome))
  {
    FinishKeepsFit(q, handle, outcome);
    assert LeaseUnspent(handle.job, q.jobs[handle.job], q.history);
    FinishKeepsCounts(q, handle, outcome);
    FinishKeepsLeases(q.history, handle, outcome);
    FinishKeepsAudit(q, handle, outcome);
    Recorded(q.history, Ended(handle, outcome));
  }

  lemma FinishKeepsFit(q: Queue, handle: Handle, outcome: Outcome)
    requires JobsFit(q.jobs, q.invitations) && OneJobPerInvitation(q.jobs) && JobsCounted(q.jobs, q.history)
    requires Current(q.jobs, handle)
    ensures JobsFit(FinishEffect(q, handle, outcome).jobs, FinishEffect(q, handle, outcome).invitations)
  {
    var row := q.jobs[handle.job];
    assert row.attempts > 0 by {
      assert AttemptsCounted(handle.job, row, q.history) && LeaseUnspent(handle.job, row, q.history);
      IssuedCounts(q.history, Handle(handle.job, row.attempts, handle.lease));
    }
    assert DeliveryFits(row, q.invitations[row.invitation]);
    assert forall j :: j in q.jobs && j != handle.job ==> q.jobs[j].invitation != row.invitation;
  }

  lemma FinishKeepsAudit(q: Queue, handle: Handle, outcome: Outcome)
    requires JobsFit(q.jobs, q.invitations) && OneJobPerInvitation(q.jobs) && Current(q.jobs, handle)
    requires AuditFits(q.jobs, q.invitations, q.audit)
    ensures var after := FinishEffect(q, handle, outcome); AuditFits(after.jobs, after.invitations, after.audit)
  {
    var after, row := FinishEffect(q, handle, outcome), q.jobs[handle.job];
    assert !WasGivenUp(q.jobs, q.invitations, handle.job);
    assert WasGivenUp(after.jobs, after.invitations, handle.job) <==> outcome.GaveUp?;
    forall j | j != handle.job
      ensures WasGivenUp(after.jobs, after.invitations, j) <==> WasGivenUp(q.jobs, q.invitations, j)
    {
      assert j in q.jobs ==> q.jobs[j].invitation != row.invitation;
    }
  }

  lemma {:induction false} IssuedCounts(history: seq<Event>, handle: Handle)
    requires Issued(history, handle)
    ensures ClaimsOf(history, handle.job, false) + ClaimsOf(history, handle.job, true) > 0
  {
    var last := history[|history| - 1];
    if !(last.Claimed? && last.handle == handle) {
      var rest := history[..|history| - 1];
      assert history == rest + [last];
      IssuedCounts(rest, handle);
    }
  }

  lemma FinishKeepsCounts(q: Queue, handle: Handle, outcome: Outcome)
    requires JobsCounted(q.jobs, q.history) && LeasesUnique(q.history)
    requires Current(q.jobs, handle) && Issued(q.history, handle)
    requires outcome.Rescheduled? ==> handle.attempts < MAXIMUM_ATTEMPTS
    ensures JobsCounted(FinishEffect(q, handle, outcome).jobs, FinishEffect(q, handle, outcome).history)
  {
    Recorded(q.history, Ended(handle, outcome));
    var after := FinishEffect(q, handle, outcome);
    forall j | j in after.jobs
      ensures LeaseUnspent(j, after.jobs[j], after.history) && AttemptsCounted(j, after.jobs[j], after.history)
    {
      assert LeaseUnspent(j, q.jobs[j], q.history) && AttemptsCounted(j, q.jobs[j], q.history);
      if q.jobs[j].lease.Some? {
        assert Issued(q.history, Handle(j, q.jobs[j].attempts, q.jobs[j].lease.value));
      }
    }
  }

  lemma FinishKeepsLeases(history: seq<Event>, handle: Handle, outcome: Outcome)
    requires LeasesUnique(history) && Issued(history, handle) && EndingsOf(history, handle.lease) == 0
    ensures LeasesUnique(history + [Ended(handle, outcome)])
  {
    var after := history + [Ended(handle, outcome)];
    Recorded(history, Ended(handle, outcome));
    forall lease | EndingsOf(after, lease) > 0 ensures LeaseIssued(after, lease) {
      var h :| Issued(history, h) && h.lease == lease;
      assert Issued(after, h);
    }
  }

  lemma EnqueueKeepsInv(q: Queue, job: JobId, id: InvitationId, row: Invitation, now: int)
    requires Inv(q) && Refusal(q, Enqueue(job, id, row, now)).None?
    ensures Inv(EnqueueEffect(q, job, id, row, now))
  {
    var after := EnqueueEffect(q, job, id, row, now);
    AuditKept(q.jobs, q.invitations, after.jobs, after.invitations, q.audit);
  }

  lemma RevokeKeepsFit(q: Queue, id: InvitationId, now: int)
    requires JobsFit(q.jobs, q.invitations) && OneJobPerInvitation(q.jobs) && id in q.invitations
    ensures JobsFit(RevokeEffect(q, id, now).jobs, RevokeEffect(q, id, now).invitations)
    ensures OneJobPerInvitation(RevokeEffect(q, id, now).jobs)
  {
  }

  lemma RevokeKeepsCounts(q: Queue, id: InvitationId, now: int)
    requires JobsCounted(q.jobs, q.history) && NothingForgotten(q.jobs, q.history) && id in q.invitations
    ensures JobsCounted(RevokeEffect(q, id, now).jobs, q.history)
    ensures NothingForgotten(RevokeEffect(q, id, now).jobs, q.history)
  {
    assert RevokeEffect(q, id, now).jobs.Keys == q.jobs.Keys;
  }

  lemma RevokeKeepsAudit(q: Queue, id: InvitationId, now: int)
    requires JobsFit(q.jobs, q.invitations) && AuditFits(q.jobs, q.invitations, q.audit) && id in q.invitations
    ensures AuditFits(RevokeEffect(q, id, now).jobs, RevokeEffect(q, id, now).invitations, q.audit)
  {
    var after := RevokeEffect(q, id, now);
    forall j ensures WasGivenUp(after.jobs, after.invitations, j) <==> WasGivenUp(q.jobs, q.invitations, j) {
      assert j in q.jobs ==> DeliveryFits(q.jobs[j], q.invitations[q.jobs[j].invitation]);
    }
    AuditKept(q.jobs, q.invitations, after.jobs, after.invitations, q.audit);
  }

  lemma RevokeKeepsInv(q: Queue, id: InvitationId, now: int)
    requires Inv(q) && Refusal(q, Revoke(id, now)).None?
    ensures Inv(RevokeEffect(q, id, now))
  {
    RevokeKeepsFit(q, id, now);
    RevokeKeepsCounts(q, id, now);
    RevokeKeepsAudit(q, id, now);
  }

  lemma ReplacingKeepsFit(jobs: map<JobId, Job>, invitations: map<InvitationId, Invitation>, audit: seq<JobId>,
                          id: InvitationId, row: Invitation)
    requires JobsFit(jobs, invitations) && AuditFits(jobs, invitations, audit) && id in invitations
    requires row.delivery == invitations[id].delivery && row.revokedAt == invitations[id].revokedAt
    ensures JobsFit(jobs, invitations[id := row]) && AuditFits(jobs, invitations[id := row], audit)
  {
    AuditKept(jobs, invitations, jobs, invitations[id := row], audit);
  }

  lemma CommitKeepsInv(before: Queue, action: Action, after: Queue)
    requires Inv(before) && Commits(before, action, after)
    ensures Inv(after)
  {
    match action {
      case Claim(job, lease, now) => ClaimKeepsInv(before, job, lease, now);
      case Complete(handle) => FinishKeepsInv(before, handle, Delivered);
      case Retry(handle, now) => FinishKeepsInv(before, handle, RetryOutcome(handle, now));
      case Enqueue(job, id, row, now) => EnqueueKeepsInv(before, job, id, row, now);
      case Revoke(id, now) => RevokeKeepsInv(before, id, now);
      case Accept(_, _) =>
        ReplacingKeepsFit(before.jobs, before.invitations, before.audit, action.id, after.invitations[action.id]);
      case Anonymize(_, _, _) =>
        ReplacingKeepsFit(before.jobs, before.invitations, before.audit, action.id, after.invitations[action.id]);
    }
  }

  // ----- fencing

  /**
   A worker's finishing transaction has an effect exactly while its lease is the
   one in the row; the handle then has the row's number of attempts, and the
   invariant survives.  In all other cases it gets `LeaseLost`.
   */
  lemma FinishNeedsTheLease(q: Queue, action: Action)
    requires Inv(q) && (action.Complete? || action.Retry?) && Issued(q.history, action.handle)
    ensures Refusal(q, action).None? <==> Current(q.jobs, action.handle)
    ensures Refusal(q, action).Some? ==> Refusal(q, action).value == LeaseLost
    ensures Refusal(q, action).None? ==>
              && action.handle.attempts == q.jobs[action.handle.job].attempts
              && EndingsOf(q.history, action.handle.lease) == 0
              && EndingsOf(Effect(q, action).history, action.handle.lease) == 1
              && !Current(Effect(q, action).jobs, action.handle)
  {
    if Current(q.jobs, action.handle) {
      var row := q.jobs[action.handle.job];
      assert Issued(q.history, Handle(action.handle.job, row.attempts, action.handle.lease));
      Recorded(q.history, Ended(action.handle, Delivered));
      if action.Retry? {
        Recorded(q.history, Ended(action.handle, RetryOutcome(action.handle, action.now)));
      }
    }
  }

  /** A claim gives out a lease no one had, and thereby takes the job from everyone who had one. */
  lemma ClaimFences(before: Queue, job: JobId, lease: LeaseToken, now: int, other: Handle)
    requires Inv(before) && Refusal(before, Claim(job, lease, now)).None?
    requires Issued(before.history, other) && other.job == job
    ensures other.lease != lease && !Current(ClaimEffect(before, job, lease, now).jobs, other)
  {
    assert LeaseIssued(before.history, other.lease);
  }

  /** Revoking an invitation cancels the worker that is sending its email. */
  lemma RevokeFences(before: Queue, id: InvitationId, now: int, j: JobId, handle: Handle)
    requires Inv(before) && Refusal(before, Revoke(id, now)).None?
    requires j in before.jobs && before.jobs[j].invitation == id && handle.job == j
    ensures var after := RevokeEffect(before, id, now);
            !Live(after.jobs[j]) && !Current(after.jobs, handle)
                && after.invitations[id].delivery == before.invitations[id].delivery
  {
  }

  // ----- runs

  ghost predicate Next(before: Queue, after: Queue) {
    exists action :: Commits(before, action, after)
  }

  ghost predicate StepAt(states: seq<Queue>, k: nat)
    requires k + 1 < |states|
  {
    states[k] == states[k + 1] || Next(states[k], states[k + 1])
  }

  ghost predicate Run(states: seq<Queue>) {
    && (forall k :: 0 <= k < |states| - 1 ==> StepAt(states, k))
    && (|states| > 0 ==> Inv(states[0]))
  }

  /** Finished jobs are final, attempts only grow, and a lease that was lost is lost. */
  ghost predicate JobLater(before: Queue, j: JobId, after: Queue)
    requires j in before.jobs
  {
    && j in after.jobs
    && after.jobs[j].invitation == before.jobs[j].invitation
    && before.jobs[j].attempts <= after.jobs[j].attempts
    && (!Live(before.jobs[j]) ==> after.jobs[j] == before.jobs[j])
  }

  predicate LeaseStaysLost(before: Queue, handle: Handle, after: Queue) {
    Issued(before.history, handle) ==>
      Issued(after.history, handle) && (!Current(before.jobs, handle) ==> !Current(after.jobs, handle))
  }

  ghost predicate Later(before: Queue, after: Queue) {
    && (forall j :: j in before.jobs ==> JobLater(before, j, after))
    && (forall handle :: LeaseStaysLost(before, handle, after))
  }

  lemma HandleAfter(before: Queue, action: Action, after: Queue, handle: Handle)
    requires Inv(before) && Commits(before, action, after)
    ensures LeaseStaysLost(before, handle, after)
  {
    if Issued(before.history, handle) {
      assert LeaseIssued(before.history, handle.lease);
      if |after.history| > |before.history| {
        Recorded(before.history, after.history[|before.history|]);
        assert after.history == before.history + [after.history[|before.history|]];
      } else {
        assert after.history == before.history;
      }
      if action.Claim? {
        assert action.lease != handle.lease;
      }
    }
  }

  lemma CommitIsLater(before: Queue, action: Action, after: Queue)
    requires Inv(before) && Commits(before, action, after)
    ensures Later(before, after)
  {
    forall handle ensures LeaseStaysLost(before, handle, after) {
      HandleAfter(before, action, after, handle);
    }
  }

  lemma {:induction false} RunKeepsInv(states: seq<Queue>, j: nat)
    requires Run(states) && j < |states|
    ensures Inv(states[j])
  {
    if 0 < j {
      RunKeepsInv(states, j - 1);
      StepKeeps(states, j);
    }
  }

  lemma {:induction false} RunKeeps(states: seq<Queue>, i: nat, j: nat)
    requires Run(states) && i <= j < |states|
    ensures Inv(states[i]) && Inv(states[j]) && Later(states[i], states[j])
    decreases j
  {
    RunKeepsInv(states, i);
    RunKeepsInv(states, j);
    if i < j {
      RunKeeps(states, i, j - 1);
      StepKeeps(states, j);
      LaterComposes(states[i], states[j - 1], states[j]);
    }
  }

  lemma StepKeeps(states: seq<Queue>, j: nat)
    requires Run(states) && 0 < j < |states| && Inv(states[j - 1])
    ensures Inv(states[j]) && Later(states[j - 1], states[j])
  {
    assert StepAt(states, j - 1);
    if states[j - 1] != states[j] {
      var action :| Commits(states[j - 1], action, states[j]);
      CommitKeepsInv(states[j - 1], action, states[j]);
      CommitIsLater(states[j - 1], action, states[j]);
    }
  }

  lemma LaterComposes(a: Queue, b: Queue, c: Queue)
    requires Later(a, b) && Later(b, c)
    ensures Later(a, c)
  {
    forall handle ensures LeaseStaysLost(a, handle, c) {
      assert LeaseStaysLost(a, handle, b) && LeaseStaysLost(b, handle, c);
    }
    forall j | j in a.jobs ensures JobLater(a, j, c) {
      assert JobLater(a, j, b) && JobLater(b, j, c);
    }
  }

  // ----- promises about runs

  /**
   A worker that lost its lease, by expiry and reclaim, by cancellation or by
   having finished, gets `LeaseLost` from every later attempt to finish.
   */
  lemma LostLeaseChangesNothing(states: seq<Queue>, i: nat, j: nat, action: Action)
    requires Run(states) && i <= j < |states|
    requires (action.Complete? || action.Retry?) && Issued(states[i].history, action.handle)
    requires !Current(states[i].jobs, action.handle)
    ensures Refusal(states[j], action) == Some(LeaseLost)
  {
    RunKeeps(states, i, j);
    assert LeaseStaysLost(states[i], action.handle, states[j]);
  }

  /** However many workers run, at most one transaction has an effect under any claim. */
  lemma OneOutcomePerClaim(states: seq<Queue>, j: nat, lease: LeaseToken)
    requires Run(states) && j < |states|
    ensures EndingsOf(states[j].history, lease) <= 1
  {
    RunKeeps(states, j, j);
  }

  /**
   Attempts are the claims of the waiting job, at most five, and the reclaims of
   expired leases.  They exceed five exactly when the reclaims exceed what the claims
   have left of it.
   */
  lemma AttemptsCountClaims(states: seq<Queue>, j: nat, job: JobId)
    requires Run(states) && j < |states| && job in states[j].jobs
    ensures states[j].jobs[job].attempts ==
              ClaimsOf(states[j].history, job, false) + ClaimsOf(states[j].history, job, true)
    ensures ClaimsOf(states[j].history, job, false) <= MAXIMUM_ATTEMPTS
    ensures states[j].jobs[job].attempts > MAXIMUM_ATTEMPTS <==>
              ClaimsOf(states[j].history, job, true) > MAXIMUM_ATTEMPTS - ClaimsOf(states[j].history, job, false)
  {
    RunKeeps(states, j, j);
  }

  /** Completed and dead jobs never change again, and their invitations say how it went. */
  lemma FinishedJobsAreFinal(states: seq<Queue>, i: nat, j: nat, job: JobId)
    requires Run(states) && i <= j < |states| && job in states[i].jobs && !Live(states[i].jobs[job])
    ensures job in states[j].jobs && states[j].jobs[job] == states[i].jobs[job]
    ensures states[j].jobs[job].invitation in states[j].invitations
    ensures var delivery := states[j].invitations[states[j].jobs[job].invitation].delivery;
            if states[i].jobs[job].status == Completed then delivery == Sent
            else delivery == Failed || states[j].invitations[states[j].jobs[job].invitation].revokedAt.Some?
  {
    RunKeeps(states, i, j);
    assert JobLater(states[i], job, states[j]);
  }

  /** A job that was given up has one audit event, every other job none. */
  lemma GivenUpAuditedOnce(states: seq<Queue>, k: nat, job: JobId)
    requires Run(states) && k < |states|
    ensures multiset(states[k].audit)[job] == if WasGivenUp(states[k].jobs, states[k].invitations, job) then 1 else 0
  {
    RunKeeps(states, k, k);
  }

  /** An invitation is reported as sent exactly when its job was completed, as failed only when the job is dead. */
  lemma ReportedDelivery(states: seq<Queue>, k: nat, job: JobId)
    requires Run(states) && k < |states| && job in states[k].jobs
    ensures states[k].jobs[job].invitation in states[k].invitations
    ensures states[k].invitations[states[k].jobs[job].invitation].delivery == Sent <==>
              states[k].jobs[job].status == Completed
    ensures states[k].invitations[states[k].jobs[job].invitation].delivery == Failed ==>
              states[k].jobs[job].status == DeadLetter
  {
    RunKeeps(states, k, k);
  }

  // ----- how long a lease is safe

  ghost predicate CommitsAt(states: seq<Queue>, actions: seq<Action>, k: nat)
    requires k < |actions| && k + 1 < |states|
  {
    Commits(states[k], actions[k], states[k + 1])
  }

  /** The transactions committed between the states, in order. */
  ghost predicate Trace(states: seq<Queue>, actions: seq<Action>) {
    && |states| == |actions| + 1 && Inv(states[0])
    && forall k :: 0 <= k < |actions| ==> CommitsAt(states, actions, k)
  }

  lemma {:induction false} TraceKeepsInv(states: seq<Queue>, actions: seq<Action>, k: nat)
    requires Trace(states, actions) && k < |states|
    ensures Inv(states[k])
  {
    if k > 0 {
      TraceKeepsInv(states, actions, k - 1);
      assert CommitsAt(states, actions, k - 1);
      CommitKeepsInv(states[k - 1], actions[k - 1], states[k]);
    }
  }

  /** Another worker's claim within the lock time, another handle's ending, or the revocation of another invitation. */
  predicate LeavesLease(action: Action, handle: Handle, lockedAt: int, invitation: InvitationId) {
    match action
    case Claim(_, _, now) => now <= lockedAt + LOCK_SECONDS
    case Complete(other) => other != handle
    case Retry(other, _) => other != handle
    case Revoke(id, _) => id != invitation
    case _ => true
  }

  predicate HeldSince(q: Queue, handle: Handle, lockedAt: int, invitation: InvitationId) {
    && Current(q.jobs, handle) && q.jobs[handle.job].attempts == handle.attempts
    && q.jobs[handle.job].lockedAt == Some(lockedAt) && q.jobs[handle.job].invitation == invitation
  }

  lemma LeaseLeft(q: Queue, action: Action, after: Queue, handle: Handle, lockedAt: int, invitation: InvitationId)
    requires Inv(q) && Commits(q, action, after)
    requires HeldSince(q, handle, lockedAt, invitation) && LeavesLease(action, handle, lockedAt, invitation)
    ensures HeldSince(after, handle, lockedAt, invitation)
  {
    assert Issued(q.history, handle) by {
      assert LeaseUnspent(handle.job, q.jobs[handle.job], q.history);
    }
    if action.Complete? || action.Retry? {
      assert Issued(q.history, action.handle);
    }
  }

  /**
   A worker that finishes within the lock time of its claim still has its lease,
   whatever all others do in the meantime, unless the invitation was revoked.
   */
  lemma {:induction false} TimelyWorkerKeepsItsLease(
      states: seq<Queue>, actions: seq<Action>, i: nat, j: nat, handle: Handle, lockedAt: int, invitation: InvitationId)
    requires Trace(states, actions) && i <= j < |states|
    requires HeldSince(states[i], handle, lockedAt, invitation)
    requires forall k :: i <= k < j ==> LeavesLease(actions[k], handle, lockedAt, invitation)
    ensures HeldSince(states[j], handle, lockedAt, invitation)
  {
    if i < j {
      TimelyWorkerKeepsItsLease(states, actions, i, j - 1, handle, lockedAt, invitation);
      TraceKeepsInv(states, actions, j - 1);
      assert CommitsAt(states, actions, j - 1);
      LeaseLeft(states[j - 1], actions[j - 1], states[j], handle, lockedAt, invitation);
    }
  }

  // ----- more attempts than the maximum

  /** A claim of the job when it has used up its attempts; it must be the reclaim of an expired lease. */
  predicate ClaimsPastMaximum(q: Queue, action: Action, job: JobId) {
    action.Claim? && action.job == job && job in q.jobs && q.jobs[job].attempts >= MAXIMUM_ATTEMPTS
  }

  lemma StepPastMaximum(q: Queue, action: Action, after: Queue, job: JobId)
    requires Inv(q) && Commits(q, action, after) && job in q.jobs
    ensures job in after.jobs && q.jobs[job].attempts <= after.jobs[job].attempts
    ensures q.jobs[job].attempts <= MAXIMUM_ATTEMPTS ==>
              (after.jobs[job].attempts > MAXIMUM_ATTEMPTS <==> ClaimsPastMaximum(q, action, job))
    ensures ClaimsPastMaximum(q, action, job) ==> q.jobs[job].status == Processing
  {
    assert AttemptsCounted(job, q.jobs[job], q.history);
  }

  /**
   A job stays within the maximum of attempts exactly until an expired lease is
   reclaimed when they are used up: only `Retry` looks at the maximum, a claim does not.
   */
  lemma {:induction false} WithinMaximumExactly(states: seq<Queue>, actions: seq<Action>, i: nat, j: nat, job: JobId)
    requires Trace(states, actions) && i <= j < |states|
    requires job in states[i].jobs && states[i].jobs[job].attempts <= MAXIMUM_ATTEMPTS
    ensures job in states[j].jobs
    ensures states[j].jobs[job].attempts <= MAXIMUM_ATTEMPTS <==>
              forall k :: i <= k < j ==> !ClaimsPastMaximum(states[k], actions[k], job)
  {
    if i < j {
      WithinMaximumExactly(states, actions, i, j - 1, job);
      TraceKeepsInv(states, actions, j - 1);
      assert CommitsAt(states, actions, j - 1);
      StepPastMaximum(states[j - 1], actions[j - 1], states[j], job);
    }
  }

  lemma {:induction false} SomeTokenIsFresh(history: seq<Event>) returns (token: LeaseToken)
    ensures !LeaseIssued(history, token)
    ensures forall handle :: Issued(history, handle) ==> handle.lease < token
  {
    if history == [] {
      token := 0;
    } else {
      var before, last := history[..|history| - 1], history[|history| - 1];
      token := SomeTokenIsFresh(before);
      assert history == before + [last];
      Recorded(before, last);
      if last.Claimed? && last.handle.lease >= token {
        token := last.handle.lease + 1;
      }
    }
  }

  /** The lease of a worker that died is reclaimed once it has expired, however many attempts there were. */
  lemma ReclaimOnce(q: Queue, job: JobId) returns (after: Queue)
    requires Inv(q) && job in q.jobs && q.jobs[job].status == Processing
    ensures Next(q, after) && Inv(after) && job in after.jobs && after.jobs[job].status == Processing
    ensures after.jobs[job].attempts == q.jobs[job].attempts + 1
    ensures ClaimsOf(after.history, job, true) == ClaimsOf(q.history, job, true) + 1
    ensures after.invitations == q.invitations
  {
    var row := q.jobs[job];
    var token := SomeTokenIsFresh(q.history);
    assert LeaseFits(row);
    var now := row.lockedAt.value + LOCK_SECONDS + 1;
    after := ClaimEffect(q, job, token, now);
    assert Commits(q, Claim(job, token, now), after);
    ClaimKeepsInv(q, job, token, now);
    Recorded(q.history, Claimed(Handle(job, row.attempts + 1, token), true));
  }

  /**
   For every n there is a run in which workers die n times over the same job: it is
   still being processed, with n more attempts, all of them reclaims.
   */
  lemma {:induction false} DyingWorkersReclaimForever(q: Queue, job: JobId, n: nat) returns (states: seq<Queue>)
    requires Inv(q) && job in q.jobs && q.jobs[job].status == Processing
    ensures |states| == n + 1 && states[0] == q && Run(states)
    ensures Inv(states[n]) && job in states[n].jobs && states[n].jobs[job].status == Processing
    ensures states[n].jobs[job].attempts == q.jobs[job].attempts + n
    ensures ClaimsOf(states[n].history, job, true) == ClaimsOf(q.history, job, true) + n
    ensures states[n].invitations == q.invitations
  {
    if n == 0 {
      states := [q];
    } else {
      var shorter := DyingWorkersReclaimForever(q, job, n - 1);
      var after := ReclaimOnce(shorter[n - 1], job);
      states := shorter + [after];
      forall k | 0 <= k < n ensures StepAt(states, k) {
        assert k < n - 1 ==> StepAt(shorter, k);
      }
    }
  }
}
