# Clinks: transaction protocols and in-memory algorithms, verified

A Dafny model of the parts of the Clinks server and its browser session store
where the order of events matters: membership updates and invitations under row
locks, session versions, the leased queue of invitation emails and its worker,
keyset listings, the rate limiter, translation layers, the session store of the
browser, schema migrations and optimistic revisions.  `dafny verify
dfyconfig.toml` checks everything.

## How the model is laid out

| topic | modules |
|---|---|
| memberships, invitations, roles, session versions | `Records`, `Access` (each transaction alone), `AccessLaws` (what is granted, refused and written, on the fields of the rows), `AccessSafety` (what every run keeps), `Interleaving` (statement by statement, under locks), `AloneRuns`, `InterleavedPromises`, `AccessStore` (on mutable tables), `Sessions` |
| invitation emails | `Outbox` (each transaction alone), `OutboxLaws` (on the fields of the rows), `OutboxSafety` (every run), `Leases` (statement by statement), `OutboxStore` (on mutable tables), `Worker` |
| listings | `Cursor`, `Keyset`, `Collation` |
| rate limiter | `RateLimit`, `LimiterClock` (clock readings out of order) |
| translations | `Translations`, `Catalog` |
| session store of the browser | `AuthStore` |
| migrations | `Migrations` |
| revisions | `Revisions` |

Two protocols are modelled twice on purpose.  `Access` and `Outbox` say what a
transaction does when it runs alone.  `Interleaving` and `Leases` split the
transactions that lock more than one row into their SQL statements: a statement
sees committed rows (READ COMMITTED), waits for rows that others have locked, and
any transaction may abort before it commits.  `InterleavedRunsAreSerial` proves in
each of them that every interleaved run commits what the transactions could have
committed one after the other, and the promises of the atomic model follow for
all interleavings.  `GrantedIsCommitted` is the other direction: what a transaction
commits alone, its statements commit.  The classes (`AccessStore.Store`, `OutboxStore.Store`,
`RateLimit.RateLimiter`, `AuthStore.Store`, `Migrations.Database`,
`Revisions.Store`, `Worker.InvitationWorker`) execute the same steps on mutable
state and are proved against those specifications.

## Assumptions

- Generated ids, tokens and lease tokens are new.  The primary keys, the unique
  email of users, the unique invitation hash and the foreign keys of the schema hold.
- There is one clock, and it does not go back.  The limiter reads it before it takes
  its lock, so its readings may still be recorded out of order; nothing is assumed
  about that, see below.
- Hashes, checksums and cursor fingerprints are injective.  JSON, base64url
  (section 5 of RFC 4648), timestamps (section 5.6 of RFC 3339), signed tokens and
  passwords give back what was put in.
- A deadlock or a lost connection is an abort.  Waiting for a lock only removes
  behaviours, so liveness of locks is not considered.
- Ids, emails, hashes, locales, scopes and translation keys are only compared, so
  numbers stand for them.

## Where the code does not keep a promise

- The limiter answers as the full history of calls does while its clock readings come
  in the order of its lock, but the clock is read before the lock
  (server/web/rate_limit.go:41-45).  With readings out of order a call can get through
  above the limit (`LimiterClock.ForgottenCallGetsThrough`) or be denied below it
  (`LimiterClock.LateCallIsCounted`).  `LimiterClock.CountsAgreeExactly` and
  `LimiterClock.LaterCallsAgreeExactly` give the exact conditions, and
  `LimiterClock.AnswersExactly` by how much the counts differ.
- A logout ends every token that resolves when it commits, but a tenant switch does not
  look at the version of its session again (server/auth_credentials.go:125-166): one
  that is under way commits after the logout and hands out a token that resolves.
  `Sessions.SwitchOutlivesLogout` is the run, `Sessions.SwitchAgainstEnding` the exact
  condition.
- A listing refuses its own cursor when the last row of a page has an empty sort
  value (server/postgres/cursor.go:58), and anonymized invitations have the email ''
  (server/postgres/outbox.go:369).  `Keyset.WalkIsComplete` gives the exact
  condition, `Keyset.AnonymizedInvitationsBreakTheWalk` the failing family.
- The maximum of five attempts is looked at when a worker reports a failure
  (server/postgres/outbox.go:211), not when a job is claimed (server/postgres/outbox.go:54-77):
  a job whose workers die is reclaimed without end, and is never given up.
  `OutboxSafety.DyingWorkersReclaimForever` gives the runs,
  `OutboxSafety.WithinMaximumExactly` the exact condition.
- A translation override that is deleted and created again starts at revision 1
  again, so an update made against the deleted one can commit over a text its
  writer never saw.  `Revisions.UpdateReplacesWhatWasRead` gives the exact condition,
  `Revisions.RecreationLosesUpdate` a run.
- Latent: the lookup of one built-in message treats an empty shared text as missing
  when another scope is asked for, the bundle does not (`Catalog.EmptySharedText`,
  exact condition in `Catalog.ProductMessageAgrees`).  Every caller asks for the shared
  scope, and there both agree (`Catalog.SharedTextsAgree`).
- The index-preserving merge and the merge by map and sort differ when the list
  merged into has duplicate keys.  `Translations.MergesAgreeExactly` is the
  if-and-only-if; bundles never have duplicates.

## Model

| member | source | states |
|---|---|---|
| InterleavedPromises.AlwaysAnAdministrator | server/postgres/memberships.go:143-284 | In every interleaving of updates, acceptances, revocations and role edits, split into statements, a tenant that has had an active administrator has one in every later state |
| InterleavedPromises.WithoutTenantLock | server/postgres/memberships.go:186-197 | Without the tenant lock there is a run of two updates after which a tenant has lost its last active administrator |
| InterleavedPromises.AtMostOneMembership | server/postgres/invitations.go:369-505 | In no state of an interleaved run do a tenant and a user, or a tenant and an email, have two memberships, although looking for an absent membership locks nothing |
| InterleavedPromises.InvitationsAreSingleUse | server/postgres/invitations.go:186-256 | In every interleaving an invitation is never both used and revoked, is used exactly when exactly one acceptance was committed and audited, and stays used |
| InterleavedPromises.AcceptanceInARun | server/postgres/invitations.go:186-228 | The commit of an acceptance uses exactly the invitation with its hash, unused, unrevoked and unexpired, audits it once and leaves the invited membership in place, while all other invitations stay; none of its other steps, and no abort, changes a table |
| Interleaving.InterleavedRunsAreSerial | server/postgres/memberships.go:143-295 | What an interleaved run under row locks commits is what the atomic transactions commit one after the other |
| Interleaving.CommitRefines | server/postgres/invitations.go:186-228 | Writing back rows computed from what was read statement by statement is exactly one atomic transaction on the tables as they are at commit |
| Interleaving.LocksTaken | server/postgres/memberships.go:187-218 | From its first statement on an update holds its tenant, then its membership, then the account; an acceptance its invitation, the account or the email, and the membership found |
| AccessSafety.CommitKeepsInv | server/postgres/invitations.go:447-505 | Every committed transaction keeps references sound, one membership per tenant and user, unique emails and hashes, one audited acceptance per used invitation, and revisions equal to the number of writes |
| AccessSafety.FinalAdministrator | server/postgres/memberships.go:235-269 | In every run of atomic transactions a tenant that has had an active administrator has one later |
| AccessSafety.RoleInUseKept | server/postgres/roles.go:161-212 | A role that a membership or an invitation uses stays, with its kind, whatever commits |
| AccessSafety.OnlyCustomRolesChange | server/postgres/roles.go:154-223 | A role that a transaction changes or removes is a custom one, presented with its latest revision, and a removed one is in no use |
| AccessSafety.AcceptanceAdmits | server/postgres/invitations.go:292-367 | A committed acceptance found an unused, unrevoked, unexpired invitation with the presented hash and leaves it used once, every other invitation as it was, and an active membership in its tenant with its role for its email |
| AccessSafety.SingleUse | server/postgres/invitations.go:244-256 | Over any run at most one acceptance of an invitation is audited, and an invitation that is used stays used and is never revoked |
| AccessSafety.StaleUpdateRefused | server/postgres/memberships.go:271-284 | Of two membership updates presenting the same revision, the one that comes after the other's commit is refused |
| AccessLaws.UpdateGrantedExactly | server/postgres/memberships.go:143-284 | An update is granted exactly if membership and role are of the tenant, the revision is the latest one and the last active administrator is not demoted; which error comes for a missing tenant, membership or role |
| AccessLaws.UpdateWrites | server/postgres/memberships.go:271-295 | The row then has the presented role and status and the next revision, the member's sessions are ended, it is audited, and no other row changes |
| InterleavedPromises.UpdateStands | server/postgres/memberships.go:271-284 | In every interleaving the row has the presented role and status from the commit on, until its revision is raised again |
| AloneRuns.GrantedIsCommitted | server/postgres/memberships.go:143-184 | What an update, acceptance or revocation commits when it runs alone, its statements under locks commit: no lock or check in between refuses it |
| AccessStore.Store.UpdateMembership | server/postgres/memberships.go:130-184 | Commits exactly the granted updates and returns the row with the presented role and status, or returns the error of the first failing check and leaves every table unchanged |
| AccessStore.Store.ProtectFinalAdministrator | server/postgres/memberships.go:235-269 | Refuses exactly the updates that take the administrator role or the activity from the only active administrator of the tenant |
| AccessStore.Store.LockMembership | server/postgres/memberships.go:199-221 | Finds a membership only in the given tenant, with the user and the kind of the role it has now |
| AccessLaws.AcceptanceGrantedExactly | server/postgres/invitations.go:186-505 | An acceptance is granted exactly if an unused, unrevoked, unexpired invitation for the address has the hash, its role is of its tenant, the account fits, and the user has no active membership there; an inactive one of whatever role is reactivated |
| AccessLaws.AcceptanceWrites | server/postgres/invitations.go:186-256 | What it leaves: the invitation used, the member active with the invited role, an existing account with its sessions ended or a new one, one audit event, and every other row as it was |
| AccessLaws.InvitationErrors | server/postgres/invitations.go:292-367 | The error of a used, revoked, expired or mismatching invitation, in this order |
| AccessLaws.UnknownHashIsInvalid | server/postgres/invitations.go:292-340 | A hash of no invitation is invalid |
| AccessLaws.AccountErrors | server/postgres/invitations.go:369-483 | With a fitting invitation: the error of a missing, mismatching or super administrator account, of a taken address, and of an active member |
| AccessLaws.InviteThenAccept | server/postgres/invitations.go:43-69 | A new invitation is accepted exactly before it expires, by its address, with a fitting account without an active membership |
| AccessLaws.InviteGrantedExactly | server/postgres/invitations.go:43-69 | Inviting is granted exactly for a role of the tenant with a new id and hash, and adds one unused, queued invitation |
| AccessStore.Store.AcceptInvitation | server/postgres/invitations.go:167-228 | Commits exactly the granted acceptances for the existing or the new user, or returns the error with every table unchanged |
| AccessStore.Store.LockedInvitation | server/postgres/invitations.go:292-367 | Which of unknown, used, revoked and expired is reported, in this order, and the invitation otherwise |
| AccessStore.Store.AcceptIdentity | server/postgres/invitations.go:369-445 | Uses the existing account of the address, refusing super administrators, or inserts a new one only if the address is free |
| AccessStore.Store.CreateMembership | server/postgres/invitations.go:447-505 | Reactivates an inactive membership with the invited role, refuses an active one, or inserts one with revision 1 |
| AccessStore.Store.RevokeInvitation | server/postgres/invitation_administration.go:76-89 | Revokes exactly an unused and unrevoked invitation |
| AccessLaws.RevokeExactly | server/postgres/invitation_administration.go:76-101 | Revoking is granted exactly for an unused and unrevoked invitation, dates its revocation, audits it and changes nothing else |
| AccessLaws.AnonymizeGrantedExactly | server/postgres/outbox.go:367-378 | Only invitations that expired or were used before the cutoff, and are not anonymized yet, can be anonymized |
| AccessLaws.AnonymizeWrites | server/postgres/outbox.go:367-378 | An anonymized invitation has the empty address and no token and keeps all else; every other invitation keeps everything |
| AccessLaws.RoleWritesGrantedExactly | server/postgres/roles.go:154-223 | Editing is granted exactly for custom roles of the tenant under their latest revision, deleting also only without use |
| AccessLaws.RoleWrites | server/postgres/roles.go:118-223 | What creating, editing and deleting a role leave of the roles, and that no other table changes |
| AccessLaws.RegistrationExactly | server/postgres/roles.go:225-250 | Registration is granted exactly with a free address and new ids, and leaves a tenant with its two roles whose owner administers it |
| AccessLaws.SuperAdministratorOnce | server/postgres/users.go:16-80 | Ensuring a super administrator leaves one and changes no account, and doing it again changes nothing |
| AccessLaws.SessionWrites | server/postgres/users.go:187-267 | Logout and tenant switch are granted to every existing user and raise that user's version by one and nothing else |
| AccessStore.Store.AnonymizeExpiredInvitations | server/postgres/outbox.go:354-395 | Blanks email and hash of exactly the invitations that expired or were used before the cutoff and are not anonymized yet, and counts them |
| AccessStore.Store.InvalidateSession | server/postgres/users.go:187-234 | Raises the session version of an existing user by one and audits it, and otherwise changes nothing |
| AccessStore.Store.RotateTenantSession | server/postgres/users.go:236-267 | Raises the session version and returns the new one |
| Sessions.VersionRaisedExactlyWhenSessionsEnd | server/postgres/memberships.go:286-295 | A committed transaction raises a user's session version, by one, exactly when it is a membership update, existing-user acceptance, logout or tenant switch of that user |
| Sessions.EndedSessionsStayEnded | server/auth.go:256-262 | After such a transaction no token of the version before it, or an older one, ever resolves again |
| Sessions.EndedSessionsStayEndedInterleaved | server/auth.go:256-262 | The same in every interleaving of transactions that run statement by statement |
| Sessions.SessionForUser | server/auth.go:112-176 | A session of a user who is no super administrator has its active tenant among the active memberships read, the requested one or else the first; it fails exactly when the user has no such membership |
| Sessions.CurrentSession | server/auth_credentials.go:78-109 | A token gets a session exactly if its version is the stored one and the user, unless a super administrator, has an active membership in the token's tenant when they are read; it is then the session of that tenant, whatever commits in between |
| Sessions.Login | server/auth_credentials.go:168-230 | A login succeeds exactly for an account of the asked kind that, unless a super administrator, has an active membership; the token carries the version read at the start, so it is not newer than what is stored at the end |
| Sessions.SwitchTenant | server/auth_credentials.go:125-166 | A switch succeeds exactly for a user with an active membership of the tenant, if the database does not fail, and leaves a token with a version no token had before, while the session's own tokens stop resolving |
| Sessions.TokenLivesExactly | server/auth.go:256-262 | A token that resolves goes on resolving exactly until a membership update, existing-user acceptance, logout or tenant switch of its user commits |
| Sessions.SwitchAgainstEnding | server/auth_credentials.go:125-166 | A tenant switch and another transaction that ends the user's sessions: the switched token resolves after both exactly if the switch committed later |
| Sessions.SwitchOutlivesLogout | server/auth_credentials.go:111-166 | For every resolved session and active membership of its user: a run in which the user logs out while a switch to that tenant is under way, and the switch then hands out a token that resolves |
| Sessions.Logout | server/auth_credentials.go:111-123 | No token of the user that resolved before resolves afterwards |
| Outbox.RetryDelayDoubles | server/postgres/outbox.go:397-411 | The delay is a minute after the first attempt, doubles with every further one, and stays between a minute and an hour |
| OutboxSafety.CommitKeepsInv | server/postgres/outbox.go:46-352 | Every transaction keeps: lease and lock time set exactly while processing, waiting jobs under five attempts and queued or retrying accordingly, completed jobs sent, dead jobs failed or revoked, one job per invitation, attempts equal to claims |
| OutboxSafety.FinishNeedsTheLease | server/postgres/outbox.go:151-172 | Completing or retrying has an effect exactly while the caller's lease is the one in the row, the handle then has the row's attempts and nothing was done under the lease before; otherwise the error is lease lost |
| OutboxSafety.ClaimFences | server/postgres/outbox.go:46-94 | A claim or reclaim gives out a lease nobody had and takes the job from every earlier handle |
| OutboxSafety.RevokeFences | server/postgres/invitation_administration.go:76-97 | Revoking kills the live job, takes the lease from its worker and leaves the reported delivery alone |
| OutboxSafety.LostLeaseChangesNothing | server/postgres/outbox.go:229-252 | Once lost, by reclaim, cancellation or having finished, a lease stays lost: every later attempt to finish gets lease lost |
| OutboxSafety.TimelyWorkerKeepsItsLease | server/postgres/outbox.go:54-64 | A worker that finishes within 600 seconds of its claim still has its lease, whatever the other workers do, unless its invitation was revoked |
| OutboxSafety.OneOutcomePerClaim | server/postgres/outbox.go:151-172 | In every run at most one transaction has an effect under any claim |
| OutboxSafety.AttemptsCountClaims | server/postgres/outbox.go:27-94 | Attempts equal claims of the waiting job, at most five, plus reclaims of expired leases, and exceed five exactly by reclaims |
| OutboxSafety.WithinMaximumExactly | server/postgres/outbox.go:54-77 | A job's attempts stay within five exactly until a claim takes its expired lease when they are used up |
| OutboxSafety.DyingWorkersReclaimForever | server/postgres/outbox.go:54-77 | For every n there is a run of n reclaims of a job whose workers die, after which it has n more attempts and is still being processed |
| OutboxSafety.FinishedJobsAreFinal | server/postgres/outbox.go:290-340 | Completed and dead jobs never change again, and their invitations report sent, failed or are revoked |
| OutboxSafety.GivenUpAuditedOnce | server/postgres/outbox.go:341-349 | In every reachable state a job that was given up has exactly one dead-letter audit event, and every other job, a cancelled one too, has none |
| OutboxSafety.ReportedDelivery | server/postgres/outbox.go:180-191 | In every reachable state an invitation is reported as sent exactly when its job is completed, and as failed only when it is dead |
| Leases.InterleavedRunsAreSerial | server/postgres/outbox.go:137-352 | Finishing (job, then invitation) and revoking (invitation, then jobs), interleaved by any number of workers and revokers, commit what the atomic transactions commit one after the other |
| Leases.CommitRefines | server/postgres/invitation_administration.go:76-97 | Committing the rows written statement by statement is one atomic transaction on the tables as they are at commit |
| Leases.LostLeaseNeverWrites | server/postgres/outbox.go:157-172 | In every interleaving the first statement of a worker whose lease is gone matches no row |
| Leases.OneOutcomePerLease | server/postgres/outbox.go:157-172 | In every interleaving at most one transaction has an effect under any lease |
| OutboxLaws.ClaimGrantedExactly | server/postgres/outbox.go:50-71 | A job can be claimed exactly when it is pending and available, whatever attempts it has behind it, or its lease is more than 600 seconds old |
| OutboxLaws.ClaimTakes | server/postgres/outbox.go:73-87 | A claim takes the job under the lease from now on, one attempt further, and leaves all other rows |
| OutboxLaws.FinishGrantedExactly | server/postgres/outbox.go:162-172 | Completing and retrying are granted exactly to the holder of the row's lease and are lease lost to everyone else |
| OutboxLaws.CompleteWrites | server/postgres/outbox.go:151-191 | Completing releases the job for good, reports the mail as sent, and leaves all other rows and fields |
| OutboxLaws.RetryWrites | server/postgres/outbox.go:211-352 | After the first four attempts the job waits 60, 120, 240 and 480 seconds and is retrying, after the fifth it is given up, failed and audited; all other rows and fields stay |
| OutboxLaws.RetryThenClaim | server/postgres/outbox.go:219-252 | A job put back at t can be claimed under a fresh lease exactly from t plus its delay on, and never once it was given up |
| OutboxLaws.EnqueueThenClaim | server/postgres/invitations.go:71-84 | The job of a new invitation can be claimed exactly from the time it was enqueued on |
| OutboxLaws.ClaimThenClaim | server/postgres/outbox.go:54-64 | A claimed job can be claimed again exactly when its lease is more than 600 seconds old |
| OutboxLaws.RevokeWrites | server/postgres/invitation_administration.go:79-97 | Revoking dates the revocation and kills exactly the live jobs of that invitation, releasing them |
| OutboxLaws.InvitationOnly | server/postgres/invitations.go:186-228 | Acceptance and anonymization date or blank their invitation and leave every job, lease and audit event alone |
| Leases.GrantedIsCommitted | server/postgres/outbox.go:137-352 | What finishing or revoking commits when it runs alone, its statements commit |
| OutboxStore.Store.ClaimInvitationEmail | server/postgres/outbox.go:31-135 | Claims the claimable job no one has locked that comes first by availability, age and id, with one more attempt and a new lease, and reports none exactly if there is none |
| OutboxStore.Store.Complete | server/postgres/outbox.go:137-194 | Completes the job and reports the delivery exactly if the lease is current, and otherwise leaves every table unchanged |
| OutboxStore.Store.Retry | server/postgres/outbox.go:196-274 | Puts the job back after the delay, or gives up after five attempts, exactly if the lease is current, and otherwise leaves every table unchanged |
| OutboxStore.Store.GiveUp | server/postgres/outbox.go:276-352 | Marks job and delivery as failed and adds the audit event exactly if the lease is current, and otherwise leaves every table unchanged |
| OutboxStore.Store.RevokeInvitation | server/postgres/invitation_administration.go:79-97 | Revokes an unused, unrevoked invitation and cancels its live jobs, whoever has them leased |
| Worker.InvitationWorker.RunOnce | server/worker.go:106-172 | One round settles the first job in the queue: completed exactly if the message was created and the mailer accepted it, unless the invitation was revoked meanwhile; else waiting, or dead after five attempts.  It fails exactly if a transaction fails, sends one mail at most, lowers the claims left, and at a frozen time makes the due jobs a proper subset |
| Worker.InvitationWorker.WorkOff | server/worker.go:122-171 | A mail goes out exactly for a created message that the mailer accepts, and the job is completed only then and retried otherwise |
| Worker.InvitationWorker.Drain | server/worker.go:225-242 | With one worker and no new jobs draining terminates, whatever fails and however time passes; it succeeds if no transaction fails, and only when no job is left that can be claimed and is not locked by others at that time |
| Worker.RoundMakesProgress | server/postgres/outbox.go:211-221 | A round lowers the sum of the claims that the jobs can still take, and makes no other job due |
| Cursor.CursorRoundTrip | server/postgres/cursor.go:39-62 | A cursor decodes to the row it was made from exactly if the row's sort value is not empty, and is refused otherwise |
| Cursor.ForeignCursorRefused | server/postgres/cursor.go:58-60 | The cursor of a row is accepted by a query exactly if the query made it and the row has a sort value: never by another listing, filter, sort or direction |
| Cursor.AcceptedCursorsAreOurs | server/postgres/cursor.go:24-62 | Any accepted cursor record, whoever made it, is one that the query itself hands out for some row key |
| Cursor.SplitJoin | server/postgres/localization.go:301-304 | Splitting the joined id of an override gives back its three parts exactly if none of them contains the separator |
| Keyset.List | server/postgres/tenants.go:72-162 | The page holds the first rows behind the cursor up to the page size, and a cursor of the last one exactly if there are more; it fails exactly on a refused cursor |
| Keyset.EffectiveLimit | server/pagination.go:184-195 | A requested page size between 1 and 100 is kept, a larger one becomes 100, and none or a negative one 20 |
| Keyset.WalkIsComplete | server/postgres/invitation_administration.go:108-287 | On a fixed table following the cursors ends, the pages put together are the sorted matching rows, and all but the last are full, exactly if no page but the last ends with an empty sort value; otherwise the walk stops with a validation error |
| Keyset.AnonymizedInvitationsBreakTheWalk | server/postgres/outbox.go:367-371 | Two anonymized invitations, listed by email on pages of one, cannot be walked |
| Keyset.NamedRowsEndPages | server/postgres/tenants.go:150-160 | A column without empty texts always meets that condition |
| Keyset.WalkUnderMutation | server/postgres/tenants.go:72-162 | With rows inserted and deleted between requests, in both directions, rows come out strictly in order, none twice, and a finished walk has given every row that was there throughout |
| Keyset.OutputWasThere | server/postgres/localization.go:296-333 | Every row given out matched the filter when its page was read |
| Collation.RowOrderIsStrictTotal | server/postgres/localization.go:320-322 | Comparing the sort column first and the id, with its parts, second is a strict total order |
| Collation.RowLessExactly | server/postgres/localization.go:320-322 | The earlier time or, at the first difference of the texts, the smaller one comes first; then the smaller UUID or, for overrides, locale, scope and key in turn |
| RateLimit.RateLimiter.Allow | server/web/rate_limit.go:40-61 | With any clock reading a call is one step of the limiter; while readings are in the order of the lock it is allowed exactly if the full history holds fewer than limit allowed calls for its key in the window since the last reset, and the reported delay is the full-history one |
| RateLimit.RateLimiter.CleanupLocked | server/web/rate_limit.go:69-79 | Periodic cleanup leaves every key's list trimmed at the cutoff and drops exactly the keys with nothing left |
| RateLimit.RateLimiter.ResetKey | server/web/rate_limit.go:63-67 | A reset removes the key's times and no others |
| LimiterClock.AllowedAfterReset | server/web/rate_limit.go:63-67 | Whatever came before, the first call of a key after its reset is allowed at any reading |
| LimiterClock.CleanupOnSchedule | server/web/rate_limit.go:47-50 | A cleanup runs exactly when there was none yet or half a window has passed since the last, and leaves no other key with an empty or expired list |
| RateLimit.TrimExpired | server/web/rate_limit.go:81-89 | Drops the leading times up to the cutoff |
| RateLimit.KeptIsCounted | server/web/rate_limit.go:52-53 | Under a clock that does not go back, trimming the kept list gives exactly the times of the full history that are in the window |
| RateLimit.WindowHoldsAtMostLimit | server/web/rate_limit.go:52-60 | In every run no window holds more than limit allowed calls of a key since its last reset |
| RateLimit.AnyStretchHoldsAtMostLimit | server/web/rate_limit.go:40-61 | Any stretch of a run without a reset of the key has at most limit allowed calls in an interval of the window's length |
| RateLimit.RetryAfterIsExact | server/web/rate_limit.go:52-57 | A denied call's delay is positive, every call before it has passed is denied, and a call when it has passed is allowed |
| RateLimit.NothingAllowedWithinDelay | server/web/rate_limit.go:52-57 | However the run goes on without a reset, no call of the key is allowed within the delay |
| RateLimit.NextKeepsTheEnd | server/web/rate_limit.go:40-79 | Whatever the clock readings, what is kept for a key is the end of its full list of allowed calls: only times at the front are forgotten |
| LimiterClock.CountsAgreeExactly | server/web/rate_limit.go:52-53 | For every order of readings: a call counts exactly the full history's times in its window if and only if no forgotten time is in the window and no kept time behind the first one in the window is out of it |
| LimiterClock.AnswersExactly | server/web/rate_limit.go:40-61 | After any calls with any readings the answer is that of the full history with the stale times added and the lost ones removed, so a wrong admission needs a lost time and a wrong denial a stale one |
| LimiterClock.LaterCallsAgreeExactly | server/web/rate_limit.go:40-61 | After any calls with any readings, all later readings of a key count right exactly if nothing forgotten is in the window of the earliest of them and the kept times are in order from there on |
| LimiterClock.TrimsExactly | server/web/rate_limit.go:81-89 | Dropping the front of a list drops what is out of the window, for every cutoff, exactly if the list never decreases |
| LimiterClock.ForgottenCallGetsThrough | server/web/rate_limit.go:41-50 | A run over the limit: the cleanup of a call with a later reading forgets a time that a call with an earlier reading still had to count |
| LimiterClock.LateCallIsCounted | server/web/rate_limit.go:41-53 | A run under the limit: a time recorded behind a later one is counted after it has left the window, and a call is denied |
| LimiterClock.OrderedReadingsAgree | server/web/rate_limit.go:40-61 | After any calls whose readings never decrease, the next one counts what the full history counts |
| Translations.SortedTranslations | server/localization/product_catalog.go:264-294 | Each entry of the map once, by ascending key, in whatever order the map is walked |
| Translations.MergeByKey | server/localization/product_catalog.go:244-262 | The last override of a key is found, else the last baseline entry, each key once and ascending |
| Translations.MergeByIndex | server/translations.go:91-123 | The loop over an index map computes the in-place replacement of each override |
| Translations.IndexedLookup | server/translations.go:91-123 | Merged into a list without duplicate keys, keys stay unique, fallback keys keep their places, and the last override of a key is found before the fallback |
| Translations.MergesAgreeExactly | server/localization/product_catalog.go:244-262 | The two merges agree on every lookup, for all overrides, exactly if the list merged into has no duplicate keys |
| Catalog.ProductTranslations | server/localization/product_catalog.go:168-200 | The two passes resolve a key to the scope's entry, else to the shared one |
| Catalog.StoredTranslations | server/postgres/localization.go:34-115 | The store's merge of the ordered rows resolves a key to the scope's override, else to the shared one |
| Catalog.CatalogTranslations | server/localization/product_catalog.go:100-126 | For one locale and key, read off the tables: the override of the scope if there is one, else the shared override, else an entry of the scope, else a shared entry; each key once |
| Catalog.TranslationBundle | server/translations.go:28-89 | A key of a bundle resolves through the layers of the requested locale and then of the default locale, each key once, and the bundle's locale is the default one exactly if the requested one has nothing |
| Catalog.ProductMessage | server/localization/product_catalog.go:202-229 | The single pass finds the scope's text, else a shared text that is not empty |
| Catalog.ProductMessageAgrees | server/localization/product_catalog.go:202-229 | With unique entries it gives what the two passes give, except exactly when the only entry for the key is a shared one with an empty text |
| Catalog.SharedTextsAgree | server/localization/product_catalog.go:152-158 | In the shared scope both give the one shared entry there is, whatever its text |
| Catalog.EmptySharedText | server/localization/product_catalog.go:224-228 | In another scope a shared entry with an empty text is found by the two passes and not by the single one |
| Catalog.Message | server/localization/product_catalog.go:128-166 | One message of a locale is the shared override's text if there is one, else the shared entry's, else not found |
| Catalog.ResolveMessage | server/localization/translator.go:93-138 | A message is found exactly if the shared-scope bundle of the locale contains its key, with the bundle's value |
| Catalog.LocalizedMessage | server/worker.go:204-223 | The worker's lookup finds the same keys with the same layers |
| AuthStore.StatusTellsTheTruth | packages/auth/src/auth-store.svelte.ts:37-180 | In every interleaving authenticated implies a session and no error, anonymous implies neither, and at most one initializing load is in flight |
| AuthStore.SupersededNeverShows | packages/auth/src/auth-store.svelte.ts:162-180 | A request superseded by a later one or by an invalidation changes nothing, however late it is answered |
| AuthStore.LatestAnswerStands | packages/auth/src/auth-store.svelte.ts:162-180 | Until another request is started or the store is invalidated, the store shows the answer of the latest request: its session, no session, or its error next to the session there was |
| AuthStore.LoadingEnds | packages/auth/src/auth-store.svelte.ts:139-160 | Once a request was started and the latest one is answered the status is not loading |
| AuthStore.OneLoadAtATime | packages/auth/src/auth-store.svelte.ts:37-49 | While the initializing load is on its way neither initializing nor refreshing starts another; once it has settled a refresh starts one |
| AuthStore.SettledStaysSettled | packages/auth/src/auth-store.svelte.ts:37-49 | While no request is started, a store whose latest request is answered does not change |
| AuthStore.Store.Initialize | packages/auth/src/auth-store.svelte.ts:37-44 | Starts a load exactly while loading without one on its way |
| AuthStore.Store.Refresh | packages/auth/src/auth-store.svelte.ts:46-49 | Joins the initializing load or starts its own |
| AuthStore.Store.FinishSession | packages/auth/src/auth-store.svelte.ts:139-180 | The answer of a load or an update is one transition of the specification |
| AuthStore.Store.FinishLogout | packages/auth/src/auth-store.svelte.ts:75-85 | A successful latest logout invalidates, a failed one is rejected, a superseded one is ignored |
| AuthStore.Store.Invalidate | packages/auth/src/auth-store.svelte.ts:96-101 | Empties the store and supersedes every request in flight |
| Migrations.LedgerIsPrefix | server/postgres/migrations.go:59-73 | For a fixed file list and any number of runs cut off anywhere, exactly the first n files of the sorted list took effect, each once and in order, and exactly these are recorded with their checksums |
| Migrations.ChangedFileStops | server/postgres/migrations.go:86-99 | A changed checksum stops a run before that file, so neither it nor any later file takes effect or is recorded |
| Migrations.UnchangedFilesMatch | server/postgres/migrations.go:92-97 | With the files unchanged no run is stopped by a checksum |
| Migrations.Database.Migrate | server/postgres/migrations.go:38-73 | A run gets through a number of files from the start, and succeeds, having got through all, exactly if every file is recorded unchanged or can be executed and confirmed; otherwise it stops at the first file that is not, with the error of that file |
| Migrations.Database.ApplyMigration | server/postgres/migrations.go:75-128 | Executes and records an unrecorded file together, or not at all if its statements fail; skips a recorded one and refuses exactly a changed one |
| Revisions.RevisionCountsChanges | server/postgres/localization.go:174-188 | In every run a record's revision is one plus the changes committed since it was created |
| Revisions.WritesOneRow | server/postgres/localization.go:165-197 | A committed write leaves its row with the next revision and the value presented, or removes it, and touches no other row |
| Revisions.OneCommitPerRevision | server/postgres/localization.go:181-187 | Two updates presenting the same revision of a key both commit only if the key was created anew in between |
| Revisions.UpdateReplacesWhatWasRead | server/postgres/localization.go:181-187 | An update whose revision was read earlier has no other write of the key in between exactly if the key was not created anew, and then replaces the very row that was read |
| Revisions.NoUpdateIsLost | server/postgres/tenants.go:186-203 | Where a key is not deleted, a committed update always replaces the row its writer read |
| Revisions.RecreationLosesUpdate | server/postgres/localization.go:352-373 | A run in which an update against a deleted override commits over its re-created successor |
| Revisions.Store.UpsertRow | server/postgres/localization.go:165-197 | Creates with revision 1 when none is presented and the key is free, updates exactly under the stored revision, and is a conflict otherwise |
| Revisions.Store.DeleteRow | server/postgres/localization.go:352-373 | Deletes exactly under the stored revision |

## Left out

- SQL text, collations, ILIKE and query building: a statement is its effect on rows, a filter an arbitrary choice of rows, an order any strict total order.
- Row-level security and the schema itself; the model does not claim tenant isolation where a statement has no tenant condition (server/postgres/invitation_administration.go:79-83).
- External identities: accepting an invitation through an identity provider links one more row in the same transaction.
- Role permissions and role names: only the kind of a role and whether it is in use matter to memberships.
- Texts and actors of audit events, creation and update timestamps, last errors of jobs.
- The order of memberships by tenant name: a session without a requested tenant gets the first one read, in some order.
- Sending mail more than once: a worker that crashed between sending and completing sends again after its lease expires; only the recorded outcome is unique.
- The polling loop around the drain and its tickers, and cancellation of contexts.
- OutboxStore.Store.Complete: does not model the validation of empty job ids and lease tokens.
- OutboxStore.Store.Retry: does not model the refusal of a missing cause.
- Catalog.ResolveMessage: locales are taken as normalized and scopes as valid; the error texts are one error.
- Keyset.List: which rows of a tenant a listing of members or roles ranges over is part of the table it runs on, not of the fingerprint, as in the program; the user directory and the audit log are not modelled; timestamps and ids that are texts are told apart by type.
- Cursor.AcceptedCursorsAreOurs: speaks of the record in a cursor; the program also accepts other spellings of the same JSON, and upper-case or braced UUIDs and other notations of a timestamp, which it never hands out.
- AuthStore.Store.Initialize: promises are modelled by the events that settle them; who awaits them is not.
- Migrations.Database.Migrate: the advisory lock is taken as given, so runs do not overlap.
- HTTP and Connect handlers, cookies, CORS, configuration, OIDC, SMTP, generated code, Svelte components, field validators.
