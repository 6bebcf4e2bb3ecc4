/**
 The queue of invitation emails as atomic transactions: enqueue, claim under a
 fresh lease, complete, retry or give up under that lease, cancel by revoking the
 invitation (server/postgres/outbox.go, invitations.go:60-87,
 invitation_administration.go:76-101).

 `Leases` shows that the same transactions running statement by statement next to
 each other commit nothing else; `OutboxStore` executes them on mutable tables.
 */
module Outbox {
  import opened Wrappers
  import opened Records
  import Access

  type JobId = nat
  type LeaseToken = nat

  const MAXIMUM_ATTEMPTS: nat := 5
  const LOCK_SECONDS: int := 600

  datatype JobStatus = Pending | Processing | Completed | DeadLetter

  datatype Job = Job(
    invitation: InvitationId,
    status: JobStatus,
    attempts: nat,
    availableAt: int,
    createdAt: int,
    lockedAt: Option<int>,
    lease: Option<LeaseToken>)

  /** What a claim gives to the worker. */
  datatype Handle = Handle(job: JobId, attempts: nat, lease: LeaseToken)

  datatype Outcome = Delivered | Rescheduled(at: int) | GaveUp

  /** Which leases were given out and what was done under them; no column holds this. */
  datatype Event =
    | Claimed(handle: Handle, reclaim: bool)
    | Ended(handle: Handle, outcome: Outcome)

  /** `audit` holds the jobs of the dead-letter events in the audit table. */
  datatype Queue = Queue(
    jobs: map<JobId, Job>,
    invitations: map<InvitationId, Invitation>,
    history: seq<Event>,
    audit: seq<JobId>)

  // ----- the delay before a retry

  function Power(e: nat): int {
    if e == 0 then 1 else 2 * Power(e - 1)
  }

  function Max(a: int, b: int): int { if a < b then b else a }

  function Min(a: int, b: int): int { if a < b then a else b }

  /** Seconds until a job that failed for the given attempt is due again. */
  function RetryDelay(attempts: int): (seconds: int) {
    Min(60 * Power(Min(Max(attempts, 1) - 1, 6)), 3600)
  }

  /** The first delay is a minute, every further failure doubles it, and it stops at an hour. */
  lemma RetryDelayDoubles(attempts: int)
    ensures attempts <= 1 ==> RetryDelay(attempts) == 60
    ensures attempts >= 1 ==> RetryDelay(attempts + 1) == Min(2 * RetryDelay(attempts), 3600)
    ensures 60 <= RetryDelay(attempts) <= 3600
  {
    assert Power(1) == 2 && Power(2) == 4 && Power(3) == 8 && Power(4) == 16 && Power(5) == 32 && Power(6) == 64;
    if 1 <= attempts <= 6 {
      assert attempts == 1 || attempts == 2 || attempts == 3 || attempts == 4 || attempts == 5 || attempts == 6;
    }
  }

  // ----- claiming

  predicate Live(job: Job) {
    job.status == Pending || job.status == Processing
  }

  /** Waiting long enough, or left behind by a worker whose lease has expired. */
  predicate Due(job: Job, now: int) {
    || (job.status == Pending && job.availableAt <= now)
    || (job.status == Processing && job.lockedAt.Some? && job.lockedAt.value < now - LOCK_SECONDS)
  }

  /** The due jobs whose rows no other transaction has locked. */
  function DueJobs(jobs: map<JobId, Job>, now: int, locked: set<JobId>): set<JobId> {
    set j | j in jobs && j !in locked && Due(jobs[j], now)
  }

  /** The order of the queue: availability, then age, then id. */
  predicate Ahead(jobs: map<JobId, Job>, a: JobId, b: JobId)
    requires a in jobs && b in jobs
  {
    || jobs[a].availableAt < jobs[b].availableAt
    || (jobs[a].availableAt == jobs[b].availableAt && jobs[a].createdAt < jobs[b].createdAt)
    || (jobs[a].availableAt == jobs[b].availableAt && jobs[a].createdAt == jobs[b].createdAt && a < b)
  }

  predicate IsFirst(jobs: map<JobId, Job>, due: set<JobId>, j: JobId)
    requires due <= jobs.Keys
  {
    j in due && forall k :: k in due && k != j ==> Ahead(jobs, j, k)
  }

  lemma {:induction false} SomeJobIsFirst(jobs: map<JobId, Job>, due: set<JobId>) returns (first: JobId)
    requires due <= jobs.Keys && due != {}
    ensures IsFirst(jobs, due, first)
    decreases due
  {
    var j :| j in due;
    if due == {j} {
      first := j;
    } else {
      var other := SomeJobIsFirst(jobs, due - {j});
      first := if Ahead(jobs, j, other) then j else other;
      assert forall k :: k in due && k != j ==> k in due - {j};
    }
  }

  function Leased(job: Job, lease: LeaseToken, now: int): Job {
    job.(status := Processing, attempts := job.attempts + 1, lockedAt := Some(now), lease := Some(lease))
  }

  // ----- history

  predicate Issued(history: seq<Event>, handle: Handle) {
    Claimed(handle, false) in history || Claimed(handle, true) in history
  }

  ghost predicate LeaseIssued(history: seq<Event>, lease: LeaseToken) {
    exists handle :: Issued(history, handle) && handle.lease == lease
  }

  function ClaimsOf(history: seq<Event>, job: JobId, reclaim: bool): nat {
    if history == [] then 0
    else
      var last := history[|history| - 1];
      ClaimsOf(history[..|history| - 1], job, reclaim) +
      if last.Claimed? && last.handle.job == job && last.reclaim == reclaim then 1 else 0
  }

  /** How often a transaction had an effect under the lease. */
  function EndingsOf(history: seq<Event>, lease: LeaseToken): nat {
    if history == [] then 0
    else
      var last := history[|history| - 1];
      EndingsOf(history[..|history| - 1], lease) + if last.Ended? && last.handle.lease == lease then 1 else 0
  }

  lemma Recorded(history: seq<Event>, event: Event)
    ensures forall job, reclaim :: ClaimsOf(history + [event], job, reclaim) == ClaimsOf(history, job, reclaim) +
                                   if event.Claimed? && event.handle.job == job && event.reclaim == reclaim
                                   then 1 else 0
    ensures forall lease :: EndingsOf(history + [event], lease) == EndingsOf(history, lease) +
                            if event.Ended? && event.handle.lease == lease then 1 else 0
    ensures forall handle :: Issued(history + [event], handle) <==>
              Issued(history, handle) || (event.Claimed? && event.handle == handle)
  {
    assert (history + [event])[..|history|] == history;
  }

  // ----- finishing

  /** The row still belongs to the caller: no one reclaimed, finished or cancelled the job. */
  predicate Current(jobs: map<JobId, Job>, handle: Handle) {
    handle.job in jobs && jobs[handle.job].status == Processing && jobs[handle.job].lease == Some(handle.lease)
  }

  function RetryOutcome(handle: Handle, now: int): Outcome {
    if handle.attempts >= MAXIMUM_ATTEMPTS then GaveUp else Rescheduled(now + RetryDelay(handle.attempts))
  }

  function FinishedJob(job: Job, outcome: Outcome): Job {
    match outcome
    case Delivered => job.(status := Completed, lockedAt := None, lease := None)
    case Rescheduled(at) => job.(status := Pending, availableAt := at, lockedAt := None, lease := None)
    case GaveUp => job.(status := DeadLetter, lockedAt := None, lease := None)
  }

  function FinishedInvitation(row: Invitation, outcome: Outcome): Invitation {
    match outcome
    case Delivered => row.(delivery := Sent)
    case Rescheduled(_) => row.(delivery := Retrying)
    case GaveUp => row.(delivery := Failed)
  }

  function CancelledJob(job: Job): Job {
    job.(status := DeadLetter, lockedAt := None, lease := None)
  }

  // ----- the transactions

  datatype Action =
    | Enqueue(job: JobId, id: InvitationId, row: Invitation, now: int)
    | Claim(job: JobId, lease: LeaseToken, now: int)
    | Complete(handle: Handle)
    | Retry(handle: Handle, now: int)
    | Revoke(id: InvitationId, now: int)
    | Accept(id: InvitationId, now: int)
    | Anonymize(id: InvitationId, before: int, now: int)

  predicate Unused(q: Queue, id: InvitationId) {
    id in q.invitations && q.invitations[id].usedAt.None? && q.invitations[id].revokedAt.None?
  }

  /** A new invitation is queued, unused and unrevoked; its id and its job's are newly generated. */
  predicate NewInvitation(q: Queue, action: Action)
    requires action.Enqueue?
  {
    && action.job !in q.jobs && action.id !in q.invitations
    && action.row.delivery == Queued && action.row.usedAt.None? && action.row.revokedAt.None?
  }

  ghost function Refusal(q: Queue, action: Action): Option<Error> {
    match action
    case Enqueue(_, _, _, _) => if NewInvitation(q, action) then None else Some(Internal)
    case Claim(job, lease, now) =>
      if job in q.jobs && Due(q.jobs[job], now) && !LeaseIssued(q.history, lease) then None else Some(Internal)
    case Complete(handle) => if Current(q.jobs, handle) then None else Some(LeaseLost)
    case Retry(handle, _) => if Current(q.jobs, handle) then None else Some(LeaseLost)
    case Revoke(id, _) => if Unused(q, id) then None else Some(InvitationInvalid)
    case Accept(id, _) => if Unused(q, id) then None else Some(InvitationInvalid)
    case Anonymize(id, before, _) =>
      if id in q.invitations && Access.Anonymizable(q.invitations[id], before) then None else Some(Internal)
  }

  function EnqueueEffect(q: Queue, job: JobId, id: InvitationId, row: Invitation, now: int): Queue {
    q.(jobs := q.jobs[job := Job(id, Pending, 0, now, now, None, None)], invitations := q.invitations[id := row])
  }

  function ClaimEffect(q: Queue, job: JobId, lease: LeaseToken, now: int): Queue
    requires job in q.jobs
  {
    q.(jobs := q.jobs[job := Leased(q.jobs[job], lease, now)],
       history := q.history + [Claimed(Handle(job, q.jobs[job].attempts + 1, lease), q.jobs[job].status == Processing)])
  }

  function FinishEffect(q: Queue, handle: Handle, outcome: Outcome): Queue
    requires Current(q.jobs, handle)
  {
    var row := q.jobs[handle.job];
    Queue(
      q.jobs[handle.job := FinishedJob(row, outcome)],
      if row.invitation in q.invitations
      then q.invitations[row.invitation := FinishedInvitation(q.invitations[row.invitation], outcome)]
      else q.invitations,
      q.history + [Ended(handle, outcome)],
      q.audit + if outcome.GaveUp? then [handle.job] else [])
  }

  predicate Cancelled(jobs: map<JobId, Job>, j: JobId, id: InvitationId)
    requires j in jobs
  {
    jobs[j].invitation == id && Live(jobs[j])
  }

  function RevokeEffect(q: Queue, id: InvitationId, now: int): Queue
    requires id in q.invitations
  {
    q.(jobs := map j | j in q.jobs :: if Cancelled(q.jobs, j, id) then CancelledJob(q.jobs[j]) else q.jobs[j],
       invitations := q.invitations[id := q.invitations[id].(revokedAt := Some(now))])
  }

  ghost function Effect(q: Queue, action: Action): Queue
    requires Refusal(q, action).None?
  {
    match action
    case Enqueue(job, id, row, now) => EnqueueEffect(q, job, id, row, now)
    case Claim(job, lease, now) => ClaimEffect(q, job, lease, now)
    case Complete(handle) => FinishEffect(q, handle, Delivered)
    case Retry(handle, now) => FinishEffect(q, handle, RetryOutcome(handle, now))
    case Revoke(id, now) => RevokeEffect(q, id, now)
    case Accept(id, now) => q.(invitations := q.invitations[id := q.invitations[id].(usedAt := Some(now))])
    case Anonymize(id, _, now) => q.(invitations := q.invitations[id := Access.Anonymized(q.invitations[id], now)])
  }

  /** Workers finish with handles they were given by a claim. */
  predicate FromAClaim(q: Queue, action: Action) {
    (action.Complete? || action.Retry?) ==> Issued(q.history, action.handle)
  }

  /** `after` is what one transaction committed on `before`. */
  ghost predicate Commits(before: Queue, action: Action, after: Queue) {
    FromAClaim(before, action) && Refusal(before, action).None? && after == Effect(before, action)
  }
}
