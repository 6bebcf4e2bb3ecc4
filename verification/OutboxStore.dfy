/**
 The queue on mutable tables, one statement after the other as in
 server/postgres/outbox.go:31-352 and invitation_administration.go:76-101.  The
 class also carries the database clock and the generator of lease tokens.
 */
module OutboxStore {
  import opened Wrappers
  import opened Records
  import opened Outbox
  import opened OutboxSafety
  import opened OutboxLaws

  class Store {
    var jobs: map<JobId, Job>
    var invitations: map<InvitationId, Invitation>
    ghost var history: seq<Event>
    var audit: seq<JobId>
    var clock: int
    var nextToken: LeaseToken

    ghost function Tables(): Queue
      reads this
    {
      Queue(jobs, invitations, history, audit)
    }

    /** Generated tokens are new: none of the issued leases has one. */
    ghost predicate Valid()
      reads this
    {
      Inv(Tables()) && forall handle :: Issued(history, handle) ==> handle.lease < nextToken
    }

    constructor (clock: int)
      ensures Valid() && Tables() == Queue(map[], map[], [], []) && this.clock == clock
    {
      jobs, invitations, history, audit := map[], map[], [], [];
      this.clock, nextToken := clock, 0;
    }

    /**
     Leases the first due job whose row is not locked by someone else, or reports
     that there is none.
     */
    method ClaimInvitationEmail(locked: set<JobId>) returns (r: Option<(Handle, Invitation)>)
      requires Valid()
      modifies this
      ensures Valid() && clock == old(clock)
      ensures r.None? <==> forall j :: j in old(jobs) && j !in locked ==> !Claimable(old(jobs)[j], clock)
      ensures r.Some? ==>
                var job := r.value.0.job;
                && job in old(jobs) && job !in locked && Claimable(old(jobs)[job], clock)
                && forall j :: j in old(jobs) && j !in locked && j != job && Claimable(old(jobs)[j], clock) ==>
                     Precedes(job, old(jobs)[job], j, old(jobs)[j])
      ensures r.None? <==> DueJobs(old(jobs), clock, locked) == {}
      ensures r.None? ==> Tables() == old(Tables())
      ensures jobs.Keys == old(jobs).Keys
      ensures r.Some? ==> var (handle, invitation) := r.value;
                && IsFirst(old(jobs), DueJobs(old(jobs), clock, locked), handle.job)
                && handle.attempts == old(jobs)[handle.job].attempts + 1 && Issued(history, handle)
                && Commits(old(Tables()), Claim(handle.job, handle.lease, clock), Tables())
                && old(jobs)[handle.job].invitation in invitations
                && invitation == invitations[old(jobs)[handle.job].invitation]
    {
      var candidate := FirstDue(locked);
      assert forall j :: j in jobs && j !in locked ==>
          (j in DueJobs(jobs, clock, locked) <==> Claimable(jobs[j], clock));
      if candidate.None? {
        return None;
      }
      forall j | j in jobs && j !in locked && j != candidate.value && Claimable(jobs[j], clock)
        ensures Precedes(candidate.value, jobs[candidate.value], j, jobs[j])
      {
        FirstPrecedes(jobs, clock, locked, candidate.value, j);
      }
      var handle := Lease(candidate.value);
      return Some((handle, invitations[jobs[handle.job].invitation]));
    }

    /** The candidate of the claiming statement. */
    method FirstDue(locked: set<JobId>) returns (r: Option<JobId>)
      ensures r.None? <==> DueJobs(jobs, clock, locked) == {}
      ensures r.Some? ==> IsFirst(jobs, DueJobs(jobs, clock, locked), r.value)
    {
      var candidates := DueJobs(jobs, clock, locked);
      if |candidates| == 0 {
        return None;
      }
      ghost var first := SomeJobIsFirst(jobs, candidates);
      var job :| job in candidates && IsFirst(jobs, candidates, job);
      return Some(job);
    }

    /** Its update. */
    method Lease(job: JobId) returns (handle: Handle)
      requires Valid() && job in jobs && Due(jobs[job], clock)
      modifies this
      ensures Valid() && clock == old(clock)
      ensures handle.job == job && handle.attempts == old(jobs)[job].attempts + 1
      ensures Issued(history, handle) && jobs.Keys == old(jobs).Keys
      ensures Commits(old(Tables()), Claim(job, handle.lease, clock), Tables())
    {
      ghost var before, reclaim := Tables(), jobs[job].status == Processing;
      handle := Handle(job, jobs[job].attempts + 1, nextToken);
      nextToken := nextToken + 1;
      jobs := jobs[job := jobs[job].(status := Processing, attempts := handle.attempts,
                                         lockedAt := Some(clock), lease := Some(handle.lease))];
      history := history + [Claimed(handle, reclaim)];
      ClaimIsSound(before, handle, clock, Tables());
    }

    /** Reports the delivery if the lease is still the caller's, and otherwise changes nothing. */
    method Complete(handle: Handle) returns (r: Result<(), Error>)
      modifies this
      ensures clock == old(clock) && nextToken == old(nextToken)
      ensures r.Ok? <==> Current(old(jobs), handle)
      ensures r.Ok? ==> Tables() == FinishEffect(old(Tables()), handle, Delivered)
      ensures r.Err? ==> r.error == LeaseLost && Tables() == old(Tables())
      ensures old(Valid()) && old(Issued(history, handle)) ==> Valid()
    {
      ghost var before := Tables();
      if handle.job !in jobs || jobs[handle.job].lease != Some(handle.lease) || jobs[handle.job].status != Processing {
        return Err(LeaseLost);
      }
      jobs := jobs[handle.job := jobs[handle.job].(status := Completed, lockedAt := None, lease := None)];
      SetDelivery(jobs[handle.job].invitation, Sent);
      history := history + [Ended(handle, Delivered)];
      Finished(before, handle, Delivered);
      return Ok(());
    }

    method SetDelivery(id: InvitationId, delivery: Delivery)
      modifies this`invitations
      ensures invitations ==
                if id in old(invitations) then old(invitations)[id := old(invitations)[id].(delivery := delivery)]
                else old(invitations)
    {
      if id in invitations {
        invitations := invitations[id := invitations[id].(delivery := delivery)];
      }
    }

    ghost method Finished(before: Queue, handle: Handle, outcome: Outcome)
      requires Current(before.jobs, handle) && Tables() == FinishEffect(before, handle, outcome)
      requires outcome.Rescheduled? ==> handle.attempts < MAXIMUM_ATTEMPTS
      ensures Inv(before) && Issued(before.history, handle) ==> Inv(Tables())
      ensures forall other :: Issued(history, other) <==> Issued(before.history, other)
    {
      Recorded(before.history, Ended(handle, outcome));
      if Inv(before) && Issued(before.history, handle) {
        FinishKeepsInv(before, handle, outcome);
      }
    }

    /** Puts the job back with a delay, or gives up after the last attempt, if the lease is still the caller's. */
    method Retry(handle: Handle) returns (r: Result<(), Error>)
      modifies this
      ensures clock == old(clock) && nextToken == old(nextToken)
      ensures r.Ok? <==> Current(old(jobs), handle)
      ensures r.Ok? ==> Tables() == FinishEffect(old(Tables()), handle, RetryOutcome(handle, clock))
      ensures r.Err? ==> r.error == LeaseLost && Tables() == old(Tables())
      ensures old(Valid()) && old(Issued(history, handle)) ==> Valid()
    {
      if handle.attempts >= MAXIMUM_ATTEMPTS {
        r := GiveUp(handle);
        return;
      }
      ghost var before := Tables();
      var availableAt := clock + RetryDelay(handle.attempts);
      if handle.job !in jobs || jobs[handle.job].lease != Some(handle.lease) || jobs[handle.job].status != Processing {
        return Err(LeaseLost);
      }
      jobs := jobs[handle.job := jobs[handle.job].(status := Pending, availableAt := availableAt,
                                                       lockedAt := None, lease := None)];
      SetDelivery(jobs[handle.job].invitation, Retrying);
      history := history + [Ended(handle, Rescheduled(availableAt))];
      Finished(before, handle, Rescheduled(availableAt));
      return Ok(());
    }

    method GiveUp(handle: Handle) returns (r: Result<(), Error>)
      modifies this
      ensures clock == old(clock) && nextToken == old(nextToken)
      ensures r.Ok? <==> Current(old(jobs), handle)
      ensures r.Ok? ==> Tables() == FinishEffect(old(Tables()), handle, Outcome.GaveUp)
      ensures r.Err? ==> r.error == LeaseLost && Tables() == old(Tables())
      ensures old(Valid()) && old(Issued(history, handle)) ==> Valid()
    {
      ghost var before := Tables();
      if handle.job !in jobs || jobs[handle.job].lease != Some(handle.lease) || jobs[handle.job].status != Processing {
        return Err(LeaseLost);
      }
      jobs := jobs[handle.job := jobs[handle.job].(status := DeadLetter, lockedAt := None, lease := None)];
      SetDelivery(jobs[handle.job].invitation, Failed);
      audit := audit + [handle.job];
      history := history + [Ended(handle, Outcome.GaveUp)];
      Finished(before, handle, Outcome.GaveUp);
      return Ok(());
    }

    /** Revokes an unused invitation and cancels its live job, whoever has it leased. */
    method RevokeInvitation(id: InvitationId) returns (r: Result<(), Error>)
      requires Valid()
      modifies this`jobs, this`invitations
      ensures Valid()
      ensures r.Ok? <==> Refusal(old(Tables()), Revoke(id, clock)).None?
      ensures r.Ok? ==> Commits(old(Tables()), Revoke(id, clock), Tables())
      ensures r.Err? ==> r.error == InvitationInvalid && Tables() == old(Tables())
    {
      ghost var before := Tables();
      if id !in invitations || invitations[id].usedAt.Some? || invitations[id].revokedAt.Some? {
        return Err(InvitationInvalid);
      }
      invitations := invitations[id := invitations[id].(revokedAt := Some(clock))];
      jobs := map j | j in jobs ::
        if jobs[j].invitation == id && jobs[j].status in {Pending, Processing}
        then jobs[j].(status := DeadLetter, lockedAt := None, lease := None)
        else jobs[j];
      assert jobs == RevokeEffect(before, id, clock).jobs;
      CommitKeepsInv(before, Revoke(id, clock), Tables());
      return Ok(());
    }

    /**
     While a worker is busy, time passes and other requests revoke invitations.
     Jobs are left alone or cancelled.
     */
    method OtherActivity()
      requires Valid()
      modifies this
      ensures Valid() && old(clock) <= clock && history == old(history)
      ensures OnlyCancelled(old(Tables()), Tables())
    {
      ghost var start := Tables();
      var count: nat := *;
      while count > 0
        invariant Valid() && old(clock) <= clock && history == start.history
        invariant OnlyCancelled(start, Tables())
      {
        if * {
          var id: InvitationId := *;
          ghost var before := Tables();
          var r := RevokeInvitation(id);
          if r.Ok? {
            RevokeOnlyCancels(start, before, id, clock, Tables());
          }
        } else {
          var later: int := *;
          clock := if clock < later then later else clock;
        }
        count := count - 1;
      }
    }
  }

  lemma ClaimIsSound(before: Queue, handle: Handle, now: int, after: Queue)
    requires Inv(before) && handle.job in before.jobs && Due(before.jobs[handle.job], now)
    requires handle.attempts == before.jobs[handle.job].attempts + 1
    requires forall other :: Issued(before.history, other) ==> other.lease < handle.lease
    requires after.jobs == before.jobs[handle.job := Leased(before.jobs[handle.job], handle.lease, now)]
    requires after.history == before.history + [Claimed(handle, before.jobs[handle.job].status == Processing)]
    requires after.invitations == before.invitations && after.audit == before.audit
    ensures Commits(before, Claim(handle.job, handle.lease, now), after) && Inv(after)
    ensures forall other :: Issued(after.history, other) ==> other.lease < handle.lease + 1
    ensures Issued(after.history, handle)
  {
    assert after == ClaimEffect(before, handle.job, handle.lease, now);
    ClaimKeepsInv(before, handle.job, handle.lease, now);
    Recorded(before.history, Claimed(handle, before.jobs[handle.job].status == Processing));
  }

  lemma RevokeOnlyCancels(start: Queue, before: Queue, id: InvitationId, now: int, after: Queue)
    requires OnlyCancelled(start, before)
    requires Commits(before, Revoke(id, now), after)
    ensures OnlyCancelled(start, after)
  {
  }

  /** The same jobs, each as it was, or cancelled with its invitation revoked. */
  ghost predicate OnlyCancelled(before: Queue, after: Queue) {
    && before.jobs.Keys == after.jobs.Keys
    && (forall i :: i in before.invitations ==> i in after.invitations)
    && (forall i :: i in before.invitations && before.invitations[i].revokedAt.Some? ==>
        after.invitations[i].revokedAt.Some?)
    && (forall j :: j in before.jobs ==>
          || after.jobs[j] == before.jobs[j]
          || (after.jobs[j] == CancelledJob(before.jobs[j])
              && before.jobs[j].invitation in after.invitations
                  && after.invitations[before.jobs[j].invitation].revokedAt.Some?))
  }
}
