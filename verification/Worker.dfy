/**
 The invitation worker: claim a job, create its message, send it, finish under the
 lease, and drain the queue until nothing is due (server/worker.go:106-172,
 225-267).

 What fails is given from outside: the message of a round cannot be created, the mailer
 refuses the mail, or a transaction fails, which is rolled back and stops the worker.
 */
module Worker {
  import opened Wrappers
  import opened Records
  import opened Outbox
  import opened OutboxSafety
  import opened OutboxLaws
  import opened OutboxStore
  import AccessLaws

  // ----- how many claims a queue can still take from a single worker

  function Remaining(job: Job): nat {
    match job.status
    case Pending => if job.attempts < MAXIMUM_ATTEMPTS then MAXIMUM_ATTEMPTS - job.attempts else 0
    case Processing => if job.attempts < MAXIMUM_ATTEMPTS then MAXIMUM_ATTEMPTS - job.attempts else 1
    case _ => 0
  }

  ghost function Total(jobs: map<JobId, Job>): nat {
    if jobs == map[] then 0
    else
      var j :| j in jobs;
      Remaining(jobs[j]) + Total(jobs - {j})
  }

  lemma {:induction false} TotalAt(jobs: map<JobId, Job>, j: JobId)
    requires j in jobs
    ensures Total(jobs) == Remaining(jobs[j]) + Total(jobs - {j})
    decreases |jobs|
  {
    var k :| k in jobs && Total(jobs) == Remaining(jobs[k]) + Total(jobs - {k});
    if k != j {
      TotalAt(jobs - {k}, j);
      TotalAt(jobs - {j}, k);
      assert jobs - {k} - {j} == jobs - {j} - {k};
    }
  }

  lemma {:induction false} TotalShrinks(before: map<JobId, Job>, after: map<JobId, Job>)
    requires before.Keys == after.Keys
    requires forall j :: j in before ==> Remaining(after[j]) <= Remaining(before[j])
    ensures Total(after) <= Total(before)
    decreases |before|
  {
    if before != map[] {
      var j :| j in before;
      TotalAt(before, j);
      TotalAt(after, j);
      TotalShrinks(before - {j}, after - {j});
    } else {
      assert after.Keys == {};
    }
  }

  /** The measure that the drain loop lowers. */
  lemma TotalFalls(before: map<JobId, Job>, after: map<JobId, Job>, j: JobId)
    requires before.Keys == after.Keys && j in before
    requires forall k :: k in before ==> Remaining(after[k]) <= Remaining(before[k])
    requires Remaining(after[j]) < Remaining(before[j])
    ensures Total(after) < Total(before)
  {
    TotalAt(before, j);
    TotalAt(after, j);
    TotalShrinks(before - {j}, after - {j});
  }

  // ----- one job

  /**
   How a claimed job is left: completed if the message was sent, otherwise waiting
   for at least a minute or, after the last attempt, dead; or cancelled meanwhile.
   */
  ghost predicate Settled(q: Queue, handle: Handle, sent: bool, claimedAt: int) {
    && handle.job in q.jobs
    && var job := q.jobs[handle.job];
       && job.attempts == handle.attempts
       && match job.status
          case Completed => sent
          case Pending => !sent && handle.attempts < MAXIMUM_ATTEMPTS && claimedAt + 60 <= job.availableAt
          case DeadLetter =>
            || (!sent && handle.attempts >= MAXIMUM_ATTEMPTS)
            || (job.invitation in q.invitations && q.invitations[job.invitation].revokedAt.Some?)
          case Processing => false
  }

  /**
   The mail server.  Which mails it accepts is not the worker's choice; `delivered`
   lists the claims whose mail was accepted, in order.
   */
  class Mailer {
    const accepts: Handle -> bool
    ghost var delivered: seq<Handle>

    constructor (accepts: Handle -> bool)
      ensures this.accepts == accepts && delivered == []
    {
      this.accepts := accepts;
      delivered := [];
    }

    method Send(handle: Handle) returns (accepted: bool)
      modifies this
      ensures accepted <==> accepts(handle)
      ensures delivered == if accepted then old(delivered) + [handle] else old(delivered)
    {
      accepted := accepts(handle);
      if accepted {
        delivered := delivered + [handle];
      }
    }
  }

  /** The mails of a round. */
  function Mailed(handle: Handle, sent: bool): seq<Handle> {
    if sent then [handle] else []
  }

  /** What fails in a round: the claiming transaction, creating token and message, the finishing transaction. */
  datatype Faults = Faults(claim: bool, message: bool, finish: bool)

  class InvitationWorker {
    const store: Store
    const mailer: Mailer

    constructor (store: Store, mailer: Mailer)
      ensures this.store == store && this.mailer == mailer
    {
      this.store, this.mailer := store, mailer;
    }

    /**
     Nothing claimable that is not locked; or one job settled, with fewer claims left,
     and none of the others due that was not.  The job is completed only if its mail
     was accepted, and a mail goes out for a created message only.
     */
    method RunOnce(locked: set<JobId>, faults: Faults) returns (r: Result<bool, Error>, ghost handle: Handle)
      requires store.Valid()
      modifies store, mailer
      ensures store.Valid() && old(store.clock) <= store.clock
      ensures old(store.jobs).Keys == store.jobs.Keys
      ensures r.Ok? <==> !faults.claim && (faults.finish ==> DueJobs(old(store.jobs), old(store.clock), locked) == {})
      ensures faults.claim ==> store.Tables() == old(store.Tables()) && mailer.delivered == old(mailer.delivered)
      ensures r.Ok? ==> (r.value <==> DueJobs(old(store.jobs), old(store.clock), locked) != {})
      ensures r == Ok(false) ==> store.Tables() == old(store.Tables()) && store.clock == old(store.clock)
                                 && mailer.delivered == old(mailer.delivered)
      ensures r == Ok(true) ==> Total(store.jobs) < Total(old(store.jobs))
      ensures r == Ok(true) && store.clock == old(store.clock) ==>
                DueJobs(store.jobs, store.clock, {}) < DueJobs(old(store.jobs), store.clock, {})
      ensures r == Ok(true) ==>
                && IsFirst(old(store.jobs), DueJobs(old(store.jobs), old(store.clock), locked), handle.job)
                && Settled(store.Tables(), handle, !faults.message && mailer.accepts(handle), old(store.clock))
                && (store.jobs[handle.job].status == Completed ==> handle in mailer.delivered)
      ensures r == Ok(true) ==>
                mailer.delivered == old(mailer.delivered) + Mailed(handle, !faults.message && mailer.accepts(handle))
    {
      handle := *;
      if faults.claim {
        return Err(Internal), handle;
      }
      var claimed := store.ClaimInvitationEmail(locked);
      if claimed.None? {
        return Ok(false), handle;
      }
      var job := claimed.value.0;
      handle := job;
      ghost var atClaim := store.Tables();
      r := WorkOff(job, faults);
      if r.Ok? {
        ghost var sent := !faults.message && mailer.accepts(job);
        Left(old(store.Tables()), atClaim, store.Tables(), job, sent, old(store.clock), store.clock);
      }
    }

    /** Between the claim and the end: create the message, send it, finish under the lease. */
    method WorkOff(job: Handle, faults: Faults) returns (r: Result<bool, Error>)
      requires store.Valid() && Issued(store.history, job)
      modifies store, mailer
      ensures store.Valid() && old(store.clock) <= store.clock && store.jobs.Keys == old(store.jobs).Keys
      ensures r == if faults.finish then Err(Internal) else Ok(true)
      ensures var sent := !faults.message && mailer.accepts(job);
              && mailer.delivered == old(mailer.delivered) + Mailed(job, sent)
              && (sent ==> job in mailer.delivered)
              && (r.Ok? ==> WorkedOff(old(store.Tables()), job, sent, store.clock, store.Tables()))
    {
      store.OtherActivity();
      ghost var atFinish := store.Tables();
      var sent := false;
      if !faults.message {
        sent := mailer.Send(job);
      }
      assert mailer.delivered == old(mailer.delivered) + Mailed(job, sent);
      if sent {
        r := Complete(job, faults.finish);
      } else {
        r := Retry(job, faults.finish);
      }
    }

    /** A lost lease is not an error: the job is somebody else's now. */
    method Complete(handle: Handle, fails: bool) returns (r: Result<bool, Error>)
      requires store.Valid() && Issued(store.history, handle)
      modifies store
      ensures store.Valid() && store.clock == old(store.clock)
      ensures r == if fails then Err(Internal) else Ok(true)
      ensures r.Ok? ==> Finishing(old(store.Tables()), handle, Delivered, store.Tables())
      ensures r.Err? ==> store.Tables() == old(store.Tables())
    {
      if fails {
        return Err(Internal);
      }
      var completed := store.Complete(handle);
      return Ok(true);
    }

    method Retry(handle: Handle, fails: bool) returns (r: Result<bool, Error>)
      requires store.Valid() && Issued(store.history, handle)
      modifies store
      ensures store.Valid() && store.clock == old(store.clock)
      ensures r == if fails then Err(Internal) else Ok(true)
      ensures r.Ok? ==>
                Finishing(old(store.Tables()), handle, RetryOutcome(handle, store.clock), store.Tables())
      ensures r.Err? ==> store.Tables() == old(store.Tables())
    {
      if fails {
        return Err(Internal);
      }
      var retried := store.Retry(handle);
      return Ok(true);
    }

    /**
     Runs until no job that is not locked can be claimed.  It terminates whatever fails
     and however the clock moves, because every round uses up a claim, and stops with an
     error only if a transaction failed.  Which rows others have locked at which time,
     and what fails in which round, is given from outside.
     */
    method Drain(locked: int -> set<JobId>, faults: nat -> Faults) returns (r: Result<(), Error>)
      requires store.Valid()
      modifies store, mailer
      ensures store.Valid() && old(store.clock) <= store.clock
      ensures r.Ok? ==> Total(store.jobs) <= Total(old(store.jobs))
      ensures r.Ok? ==> forall j :: j in store.jobs && j !in locked(store.clock) ==>
                                      !Claimable(store.jobs[j], store.clock)
      ensures (forall n: nat :: !faults(n).claim && !faults(n).finish) ==> r.Ok?
    {
      var round := 0;
      while true
        invariant store.Valid() && old(store.clock) <= store.clock
        invariant Total(store.jobs) <= Total(old(store.jobs))
        decreases Total(store.jobs)
      {
        ghost var before := store.Tables();
        store.OtherActivity();
        CancelledShrinks(before, store.Tables());
        ghost var handle;
        var processed;
        processed, handle := RunOnce(locked(store.clock), faults(round));
        if processed.Err? {
          return Err(processed.error);
        }
        if !processed.value {
          NothingClaimable(store.jobs, store.clock, locked(store.clock));
          return Ok(());
        }
        round := round + 1;
      }
    }
  }

  /** Finishing took effect under the lease, or the lease was lost and nothing changed. */
  ghost predicate Finishing(before: Queue, handle: Handle, outcome: Outcome, after: Queue) {
    if Current(before.jobs, handle) then after == FinishEffect(before, handle, outcome) else after == before
  }

  lemma CancelledShrinks(before: Queue, after: Queue)
    requires OnlyCancelled(before, after)
    ensures Total(after.jobs) <= Total(before.jobs)
  {
    TotalShrinks(before.jobs, after.jobs);
  }

  lemma NothingClaimable(jobs: map<JobId, Job>, now: int, locked: set<JobId>)
    requires DueJobs(jobs, now, locked) == {}
    ensures forall j :: j in jobs && j !in locked ==> !Claimable(jobs[j], now)
  {
    assert forall j :: j in jobs && j !in locked && Claimable(jobs[j], now) ==> j in DueJobs(jobs, now, locked);
  }

  /** Others were active, and then finishing took place. */
  ghost predicate WorkedOff(atClaim: Queue, handle: Handle, sent: bool, now: int, end: Queue) {
    exists atFinish :: OnlyCancelled(atClaim, atFinish)
                       && Finishing(atFinish, handle, if sent then Delivered else RetryOutcome(handle, now), end)
  }

  /** What one round, from the claim to the end, does to the jobs it did not claim, and to the one it did. */
  ghost predicate Round(start: map<JobId, Job>, end: map<JobId, Job>, handle: Handle, claimedAt: int) {
    && start.Keys == end.Keys && handle.job in start
    && (forall j :: j in start && j != handle.job ==> end[j] == start[j] || end[j] == CancelledJob(start[j]))
    && end[handle.job].attempts == start[handle.job].attempts + 1
    && match end[handle.job].status
       case Pending => claimedAt + 60 <= end[handle.job].availableAt && handle.attempts < MAXIMUM_ATTEMPTS
       case Processing => false
       case _ => true
  }

  lemma LostMeansCancelled(atClaim: Queue, atFinish: Queue, handle: Handle)
    requires Current(atClaim.jobs, handle) && OnlyCancelled(atClaim, atFinish)
    ensures Current(atFinish.jobs, handle) ==> atFinish.jobs[handle.job] == atClaim.jobs[handle.job]
    ensures !Current(atFinish.jobs, handle) ==>
              && handle.job in atFinish.jobs && atFinish.jobs[handle.job] == CancelledJob(atClaim.jobs[handle.job])
              && atFinish.jobs[handle.job].invitation in atFinish.invitations
              && atFinish.invitations[atFinish.jobs[handle.job].invitation].revokedAt.Some?
  {
  }

  lemma FinishSettles(atClaim: Queue, atFinish: Queue, end: Queue, handle: Handle, sent: bool, claimedAt: int, now: int)
    requires Current(atClaim.jobs, handle) && atClaim.jobs[handle.job].attempts == handle.attempts
    requires OnlyCancelled(atClaim, atFinish) && claimedAt <= now
    requires Finishing(atFinish, handle, if sent then Delivered else RetryOutcome(handle, now), end)
    ensures Settled(end, handle, sent, claimedAt)
    ensures forall j :: j in end.jobs && j != handle.job ==> j in atFinish.jobs && end.jobs[j] == atFinish.jobs[j]
    ensures end.jobs.Keys == atFinish.jobs.Keys
  {
    LostMeansCancelled(atClaim, atFinish, handle);
    RetryDelayDoubles(handle.attempts);
  }

  /** From the claim to the end of one round. */
  lemma Left(start: Queue, atClaim: Queue, end: Queue, handle: Handle, sent: bool, claimedAt: int, now: int)
    requires JobsCounted(start.jobs, start.history)
    requires Commits(start, Claim(handle.job, handle.lease, claimedAt), atClaim)
    requires handle.attempts == start.jobs[handle.job].attempts + 1
    requires WorkedOff(atClaim, handle, sent, now, end) && claimedAt <= now
    ensures end.jobs.Keys == start.jobs.Keys
    ensures Settled(end, handle, sent, claimedAt)
    ensures Total(end.jobs) < Total(start.jobs)
    ensures now == claimedAt ==> DueJobs(end.jobs, now, {}) < DueJobs(start.jobs, now, {})
  {
    ClaimTakes(start, handle.job, handle.lease, claimedAt, atClaim);
    WorkedOffSettles(start, atClaim, end, handle, sent, claimedAt, now);
    assert AttemptsCounted(handle.job, start.jobs[handle.job], start.history);
    RoundMakesProgress(start.jobs, end.jobs, handle, claimedAt);
  }

  lemma WorkedOffSettles(start: Queue, atClaim: Queue, end: Queue, handle: Handle, sent: bool, claimedAt: int, now: int)
    requires handle.job in start.jobs && handle.job in atClaim.jobs && claimedAt <= now
    requires AccessLaws.SameBut(start.jobs, atClaim.jobs, handle.job) && Current(atClaim.jobs, handle)
    requires handle.attempts == start.jobs[handle.job].attempts + 1 == atClaim.jobs[handle.job].attempts
    requires WorkedOff(atClaim, handle, sent, now, end)
    ensures Settled(end, handle, sent, claimedAt) && Round(start.jobs, end.jobs, handle, claimedAt)
  {
    var atFinish :| OnlyCancelled(atClaim, atFinish)
                    && Finishing(atFinish, handle, if sent then Delivered else RetryOutcome(handle, now), end);
    FinishSettles(atClaim, atFinish, end, handle, sent, claimedAt, now);
  }

  /**
   The claimed job can take fewer claims than before, and none of the other jobs
   more; at the time of the claim it is not due any more, and no other job became due.
   */
  lemma RoundMakesProgress(start: map<JobId, Job>, end: map<JobId, Job>, handle: Handle, claimedAt: int)
    requires Round(start, end, handle, claimedAt) && Due(start[handle.job], claimedAt)
    requires handle.attempts == start[handle.job].attempts + 1
    requires start[handle.job].status == Pending ==> start[handle.job].attempts < MAXIMUM_ATTEMPTS
    ensures Total(end) < Total(start)
    ensures DueJobs(end, claimedAt, {}) < DueJobs(start, claimedAt, {})
  {
    TotalFalls(start, end, handle.job);
    assert handle.job in DueJobs(start, claimedAt, {});
    assert handle.job !in DueJobs(end, claimedAt, {});
  }
}
