# Verification of dinchy's sessions, accounts, event bus and generators

A model, in Dafny 4.11, of the parts of dinchy whose correctness a test cannot settle, with proofs of
what they promise. `dafny verify dfyconfig.toml` checks all of it.

Code that changes things in place is modelled by classes and loops, one method for each of the
program's, and each is proved to do what a function says. The laws are then proved about the
functions, over every input, every run or every reachable state.

- **Sessions** (`SessionModel`, `SessionService`, `SessionRuns`, `SessionInterleaved`, `CacheKeys`). A
  table behind a read-through cache, with a job that deletes rows underneath. In the first reading each
  operation is one step and the cache and the job are shown to be unobservable. In the second, reading
  the row, writing the cache, loading hashes, revoking and deleting keys are steps of their own that
  interleave and may fail, and staleness is bounded.
- **Accounts** (`AccountTables`, `Accounts`, `AccountsService`, `AccountsRuns`, `AccountsLaws`,
  `InvitationLaws`, `InvitedMembers`, `InvitationRuns`, `PasswordReset`, `PasswordResetService`).
  First-user setup, invitations, their acceptance and password reset over tables with uniqueness and
  reference constraints. Every store call may fail, and a write outside a transaction may fail after it took
  effect. No part of the program disables a user; only an administrator of the database can, and runs
  include that step.
- **Two-factor login** (`TwoFactor`, `TwoFactorRuns`). Lockout and replay over serial runs.
- **Events** (`EventRecords`, `EventBus`, `EventBusRuns`, `EventBusLosses`, `EventBusService`,
  `EventBusStrands`, `EventBusDrain`, `AuditListing`). Publishing with trimming, group reads with claims,
  handling by the audit subscriber, acknowledging, and crashes at any point, as a protocol of steps; one
  pass of a subscriber as a loop that runs it; the worker that repeats passes; and what the audit log
  lists after any run.
- **Catalogs and generation** (`CatalogMerge`, `CatalogMergeLaws`, `CatalogMergeMeaning`,
  `CatalogValidate`, `EventCodegen`, `Naming`). The tree merge as an algebra and path by path, the
  validator as a declarative predicate, and what the two give the generated constants.
- **Password hashes** (`PasswordCodec`, `PasswordHash`). Printer and parser.
- **The log-and-return rule** (`LogReturn`). An early-stopping walk against a declarative predicate.

`Wrappers` and `Text` hold what the others share. Token digests are a free constructor, so distinct
tokens have distinct digests; Argon2id is any function; generated identifiers and tokens are
parameters, new where a lemma says so; clocks are parameters.

## What turned out not to hold

Each of these is behaviour of the program, kept as it is and proved, with the exact condition.

- An entry of the bus that was handled but not acknowledged, because its worker crashed or the
  acknowledgement was lost, is never acknowledged: redelivery inserts the same primary key again and
  fails (`StrandedForGood`, `CrashStrands`). It can still be acknowledged exactly while some worker is
  between the two steps (`AcknowledgeableExactly`). A pass that meets such an entry stops there or
  before, whatever else fails, and the entries behind it in the batch stay pending
  (`PassMeetsStranded`).
- Retention is by age alone, so events are lost that nobody handled: one that the group was never given,
  though nothing failed (`TrimLosesUnread`), and one given to a worker that crashed before handling it
  (`TrimLosesDelivered`). An event that is not in the audit log can still get there exactly when its
  record converts and it is still in the stream, or some worker has it ahead with only entries between
  that it can handle (`LoggableExactly`).
- The time of an event is stamped in nanoseconds and stored in microseconds. A published record comes
  back from the audit log unchanged exactly when its time is a whole number of microseconds and its IDs
  are in canonical spelling (`AuditRoundTrip`; `FractionIsLost` gives a record that is changed).
- The comment at `internal/features/session/session_service.go:209-211` says that cached principals expire
  within the TTL cap when purging is skipped. A request that read its row before the change may write
  its entry later, so the bound counts from that write: `max(r, w) + cap`. It is proved
  (`StaleAnswersEnd`, `RevocationTakesHold`) and attained to the last unit of time
  (`LateWriteOutlivesPurge`).
- A token that stopped resolving only because its user had left the organization may resolve again when
  the user is back. An issued token can still resolve exactly when its row is there, not revoked and
  within both deadlines (`ResolvesAgainExactly`).
- Accepting a pending, unexpired invitation does meet a uniqueness violation when a disabled user holds
  the email: the lookup skips disabled users and the insert does not. It succeeds exactly when no
  disabled user does (`AcceptSucceedsExactly`), so always while no administrator of the database has
  disabled anybody (`OpenInvitationIsAccepted`). `DisabledInviteeCannotAccept` is a run that ends in the
  refusal.
- The lookup for pending invitations ignores expiry, so an invitation that expired, or whose mail failed,
  keeps its organization from inviting that email again for good (`PendingBlocksForGood`,
  `UnsentInvitationIsPending`; `ExpiredInvitationBars` is a run). Inviting succeeds exactly when nothing
  is pending for the email, whether expired or not, it is no live member's, the inviter may invite and
  the row can go in (`InviteSucceedsExactly`).
- Enrolling in two-factor login again switches it off until the new secret is confirmed: the row becomes
  unverified, and every login passes without a code (`EnrollingSuspends`). A confirmed second factor
  holds for as long as nobody enrolls or disables (`RowIsEnrollment`, `SecondFactorHolds`).
- A user without a two-factor row cannot log in where a second factor is asked for: the missing row is
  returned as the store's error (`NoRowNoLogin`; `LoginPassesExactly` gives the full condition).
- A call in the header of a function literal inside a function, as in `func(a [len("ab")]int) {}`, is
  examined with neither function (`OrphanExample`); every other call or return is examined with exactly
  one (`PartitionExactly`, `BelongsToOneUnit`). Such a call can only stand in an array length, so it is
  part of a constant expression and does not log, and nothing that matters to the rule is missed
  (`NoneThatCountsIsMissed`).
- `return f()` for several results counts as an error return exactly when the first result is an error
  (`ForwardedExactly`). A function of results `(T, error)` that logs an error and then does `return f()`
  is not reported (`ForwardedErrorExample`).

## Model

| member | source | states |
|---|---|---|
| SessionService.Service.Session | internal/features/session/session_service.go:80-114 | resolves through the cache, else through the row, and caches what it found, exactly as `SessionModel.Session` |
| SessionService.Service.Create | internal/features/session/session_service.go:125-143 | inserts a row with idle and absolute deadlines counted from now and answers the token; fails on a token already there |
| SessionService.Service.Logout | internal/features/session/session_service.go:146-163 | answers whom the token resolved to, revokes that row and no other, if it was not revoked yet, and purges the key |
| SessionService.Service.RevokeForUser | internal/features/session/session_service.go:166-179 | loads the active hashes, revokes every unrevoked row of the user and of nobody else, purges those keys; failures of loading or purging are not reported |
| SessionService.Service.InvalidateForUser | internal/features/session/session_service.go:184-193 | purges the keys of the unrevoked sessions of the user and of nobody else, and changes no row |
| SessionService.Service.InvalidateForOrganization | internal/features/session/session_service.go:198-207 | the same for an organization |
| SessionService.Service.SetWithTTL | internal/platform/cache/entry.go:71-83 | the key answers the value at every time before the deadline and nothing from it on, unless the cache is disabled or the write fails; every other key answers as before |
| SessionService.Service.Delete | internal/platform/cache/entry.go:86-98 | the named keys answer nothing at any time once the delete got through, and every other key answers as before |
| SessionService.Service.CleanupEndedSessions | internal/workers/session_cleanup_background_job.go:46-55 | removes exactly the rows that are revoked, or more than a day past their absolute deadline, and not touched since; other rows are unchanged, and no token resolves by its row differently from then on |
| SessionRuns.CacheAndCleanupAreUnobservable | internal/features/session/session_service.go:80-222 | over every run from the empty state, with cache reads and writes failing at will, every answer is the one given with the cache disabled and no row ever deleted |
| SessionRuns.SessionIsNeverWrong | internal/features/session/session_service.go:80-122 | after every run a lookup that answers, answers what the row says, unless revoked, expired or unjoined; it errs only when the row had to be read and could not |
| SessionRuns.NeverResolvesAgain | internal/features/session/session_service.go:80-163 | an issued token that once resolves to nothing never resolves again, in every run that leaves its session's own user and organization alone |
| SessionRuns.OverNeverResolves | internal/features/session/session_service.go:97-122 | a token whose row is revoked, past a deadline or gone never resolves again, whatever happens to users and organizations |
| SessionRuns.ResolvesAgainExactly | internal/features/session/session_service.go:97-122 | and any other issued token can: in some continuation it resolves |
| SessionRuns.SessionLivesExactly | internal/features/session/session_service.go:80-143 | the token that creation answers resolves to its user and organization, with the deadlines it was given, exactly until the first of the two, in every run that does not revoke it or change that user or that organization |
| SessionRuns.CreateAnswers | internal/features/session/session_service.go:125-143 | in every reachable state creating with a new token answers a token |
| SessionRuns.LogoutEnds | internal/features/session/session_service.go:146-163 | logging out answers whom the token resolved to, and it resolves to nothing in any continuation |
| SessionRuns.LogoutSparesOthers | internal/features/session/session_service.go:146-163 | and every other token resolves as before |
| SessionRuns.LookupIsRemembered | internal/features/session/session_service.go:97-122 | a lookup by row that finds someone is remembered until the idle deadline or the TTL cap, counted from the write, and nothing else is |
| SessionRuns.RevokeForUserEnds | internal/platform/store/sqlcgen/users.sql.go:718-722 | after revoking a user no earlier token of theirs resolves in any continuation, and other users' lookups are as before |
| SessionRuns.CleanupSimulates | internal/platform/store/sqlcgen/sessions.sql.go:16-19 | deleting ended rows keeps the tables in agreement with those where nothing is deleted, though the retention period is measured by the absolute deadline |
| SessionInterleaved.StaleAnswersEnd | internal/features/session/session_service.go:97-122 | with steps interleaved at will and deletes lost at will, a principal that the table no longer gives is never answered from `max(r, w) + cap` on, where w bounds the writes of requests already holding it |
| SessionInterleaved.RevocationTakesHold | internal/features/session/session_service.go:97-179 | so a session revoked at r resolves to nothing from `max(r, w) + cap` on |
| SessionInterleaved.LateWriteOutlivesPurge | internal/features/session/session_service.go:209-222 | the bound is attained: a run whose session is revoked and purged, and which one unit of time before the bound still resolves |
| CacheKeys.Keyer.Key | internal/platform/cache/keyer.go:16-28 | joins prefix and parts by colons, dropping outer colons and empty parts |
| CacheKeys.CleanParts | internal/platform/cache/keyer.go:16-28 | no part of a key is empty or has an outer colon, and parts without are taken as they are |
| CacheKeys.KeysCollideExactly | internal/platform/cache/keyer.go:16-28 | two part lists share a key exactly when their colon-separated pieces are the same |
| CacheKeys.DistinctHashesDistinctKeys | internal/platform/cache/entry.go:36-38 | token hashes without colons have distinct keys, whatever the prefix |
| AccountsService.Service.SetupFirstUser | internal/features/auth/setup_service.go:24-56 | whatever calls fail, the tables are as before or hold the whole setup; a transaction opened ends in one commit or one rollback; without faults it is the setup step; the session afterwards is for the new user in the new organization, and for nobody if setup failed |
| AccountsService.Service.CreateFirstUserRows | internal/features/auth/setup_service.go:58-92 | the ordered inserts are the specified setup, and fail only as specified or by a failing call |
| AccountsService.Service.CreateRoles | internal/features/auth/setup_service.go:76-87 | the nested loops insert every built-in role with its permissions |
| AccountsService.Service.Invite | internal/features/auth/invite_service.go:44-115 | refuses or inserts one pending row, outright, so the row outlives the failure of its mail, and an insert whose reply is lost |
| AccountsService.Service.Accept | internal/features/auth/invite_service.go:118-321 | whatever calls fail, the tables are as before or hold the whole acceptance, and a transaction opened ends in one commit or one rollback, made at the exit itself; without faults it is the acceptance step; the session afterwards is for the invited user in the inviting organization, and for nobody if the acceptance failed |
| AccountsService.Service.AcceptTransaction | internal/features/auth/invite_service.go:118-165 | opening, and an invitation that is unknown, closed or expired: every exit ends its transaction, and an error is the specified one or a failing call |
| AccountsService.Service.AcceptUser | internal/features/auth/invite_service.go:167-223 | the same from the search for the user on |
| AccountsService.Service.AcceptPassword | internal/features/auth/invite_service.go:225-265 | the same from the search for the password account on |
| AccountsService.Service.AcceptMember | internal/features/auth/invite_service.go:267-321 | the same from the search for the membership on, where a commit that fails may have taken effect |
| AccountsRuns.RunKeepsInv | internal/platform/store/migrations/00001_init.sql:3-72 | every run of setups, invitations, acceptances and disabled users keeps IDs, emails, slugs, token hashes, memberships, roles and grants unique, every reference to a user, organization or role met, and tables empty until there is a user |
| AccountsRuns.RunsMeetConstraints | internal/platform/store/migrations/00001_init.sql:3-72 | so in every run every unique and every foreign key of these tables, each written out, is met |
| AccountsRuns.RunsAreConsistent | internal/features/auth/invite_service.go:72-103 | in every run a password account is known by its owner's email, and an organization has at most one pending invitation to one email |
| AccountsRuns.SetupSucceedsExactly | internal/features/auth/setup_service.go:58-92 | setup succeeds exactly when there is no user, and otherwise says that it has been done |
| AccountsLaws.SetupMeans | internal/features/auth/setup_service.go:58-92 | setup leaves one verified user known by a password, the only member of the only organization, with exactly an administrator's permissions there |
| AccountsLaws.SetupSucceedsOnce | internal/features/auth/setup_service.go:63-65 | in no run does setup succeed twice |
| AccountsLaws.EveryoneHasPasswordInRuns | internal/features/auth/invite_service.go:204-256 | in every run every user has a password account |
| AccountsLaws.AcceptSucceedsExactly | internal/features/auth/invite_service.go:127-311 | an open invitation is accepted exactly when no disabled user holds its email: nothing else can violate a constraint |
| AccountsLaws.AcceptRefusedExactly | internal/features/auth/invite_service.go:127-165 | it is refused as invalid exactly when no invitation of that token is pending and unexpired, and by the store otherwise |
| AccountsLaws.AcceptMeans | internal/features/auth/invite_service.go:127-311 | row by row what an acceptance leaves: the live user of the invited email, or a new one, verified, with the given password, a member of the organization; that one invitation accepted; every row of anyone else as it was |
| AccountsLaws.AcceptedOnce | internal/platform/store/sqlcgen/users.sql.go:32-36 | in no run is a token accepted twice |
| AccountsLaws.StepProgresses | internal/platform/store/sqlcgen/users.sql.go:32-36 | invitations are only added and only go from pending to accepted, and only by their own token |
| InvitationLaws.InviteSucceedsExactly | internal/features/auth/invite_service.go:44-102 | inviting succeeds exactly when mail is configured, the inviter may invite, the email is no live member's, no invitation to it is pending, expired or not, and the row can go in |
| InvitationLaws.InviteRefusedExactly | internal/features/auth/invite_service.go:44-102 | and otherwise which refusal is given, first reason first; what is inserted is the inviter's organization, the given email, role and token, and the deadline counted from now |
| InvitationLaws.PendingBlocksForGood | internal/platform/store/sqlcgen/users.sql.go:211-217 | a pending invitation whose token is not presented in time stays pending for good, and its organization cannot invite that email again |
| InvitationLaws.UnsentInvitationIsPending | internal/features/auth/invite_service.go:89-105 | when the mail fails the caller is told so and the pending row is there |
| InvitedMembers.AcceptAddsOneMember | internal/features/auth/invite_service.go:267-297 | in every run an acceptance adds exactly one member, the user of the invited email, in the invited organization and role and with that role's permissions: nobody with an open invitation is a member already |
| InvitedMembers.InvitedMayAccept | internal/features/auth/invite_service.go:87-311 | in every run, whatever comes between, an invitation that was created can be accepted exactly until its lifetime is over, unless it was presented before or a disabled user then holds the email; the invitee then joins in that role |
| InvitationRuns.OpenInvitationIsAccepted | internal/features/auth/invite_service.go:127-311 | in every run in which nobody is disabled an open invitation is accepted |
| InvitationRuns.ExpiredInvitationBars | internal/features/auth/invite_service.go:72-81 | a run in which an invitation expires: it cannot be accepted, and its email cannot be invited again |
| InvitationRuns.DisabledInviteeCannotAccept | internal/platform/store/sqlcgen/users.sql.go:284-288 | a run in which a member is disabled and invited again like a stranger, and whatever IDs are new the acceptance fails |
| PasswordResetService.Service.ResetPassword | internal/features/auth/password_service.go:85-119 | the writes happen in order, each only when those before it succeeded, and each may fail before or after it took effect; it succeeds exactly when a token of that value is some user's, not consumed and not expired, and no call fails |
| PasswordReset.ResetSucceedsExactly | internal/features/auth/password_service.go:85-119 | a reset succeeds exactly when a reset token of that value is there with `now <= expiresAt`, unconsumed and some user's, and no call on the way fails; purging caches is not on the way |
| PasswordReset.ResetMeans | internal/platform/store/sqlcgen/users.sql.go:752-756 | a reset sets the password of the token's user and of nobody else, consumes that token and no other, and revokes that user's sessions |
| PasswordReset.ResetSetsPassword | internal/features/auth/password_service.go:43-119 | in every run of accounts and resets, a reset that succeeds leaves its token's user with a password account that holds the new hash |
| PasswordReset.FailedResetLeaves | internal/features/auth/password_service.go:112-118 | what a failed reset leaves done is a prefix of the three writes, of the length that the faults say, also when a write fails after it took effect; the token is usable again exactly when it was not consumed |
| PasswordReset.ResetEndsSessions | internal/features/auth/password_service.go:112-118 | after a reset no earlier token of the user resolves in any continuation, and other users' sessions are untouched |
| PasswordReset.ResetOnce | internal/platform/store/sqlcgen/users.sql.go:49-53 | in no run does a reset token work twice |
| PasswordReset.ForgetIssues | internal/features/auth/password_service.go:43-82 | a live user who forgot a password is sent a token of their own, and nothing else changes |
| PasswordReset.ForgetIsSilent | internal/features/auth/password_service.go:50-59 | for any other email nothing is issued and the answer is the same |
| PasswordReset.TokenResetsExactly | internal/features/auth/password_service.go:43-119 | in every run, whatever comes between, that token resets that user's password exactly when it is presented at `now <= expiresAt`, was not consumed before and no call fails; too late or a second time it is refused and nothing changes |
| TwoFactor.Service.StartTOTPEnrollment | internal/features/auth/totp_service.go:21-37 | replaces secret and verification, forgets failures and lock, and keeps the last used step |
| TwoFactor.Service.ConfirmTOTP | internal/features/auth/totp_service.go:40-68 | confirms by a right code, counts a wrong one, refuses while locked, and reports a failing event after the row was confirmed; other users' rows untouched |
| TwoFactor.Service.VerifyTOTPForLogin | internal/features/auth/totp_service.go:107-132 | every branch of a login: missing row, unverified, locked, empty, wrong, repeated step, right |
| TwoFactor.Service.RecordTOTPFailure | internal/features/auth/totp_service.go:138-156 | counts one failure, locks for fifteen minutes from the fifth on, and leaves secret, verification and last step as they are |
| TwoFactor.Service.DisableTOTP | internal/features/auth/totp_service.go:92-105 | removes that user's row and no other, also when the event that follows fails |
| TwoFactorRuns.LockoutBoundsFailures | internal/platform/store/sqlcgen/users.sql.go:689-699 | over every serial run, writes and events failing at will, a lock is set exactly when the count is at least 5, and by time t at most 5 + (t − t5) / 15 min failures are recorded |
| TwoFactorRuns.AcceptedStepsIncrease | internal/features/auth/totp_service.go:120-136 | each login that marks a step, as an accepted one does, marks one after those of all earlier logins and confirmations on the row, across re-enrollment |
| TwoFactorRuns.AcceptedIsUsed | internal/features/auth/totp_service.go:128-131 | in every run a login accepted by code marks its own step |
| TwoFactorRuns.NoRowNoLogin | internal/features/auth/totp_service.go:107-111 | until a user enrolls, every login that asks for the second factor fails |
| TwoFactorRuns.LoginPassesExactly | internal/features/auth/totp_service.go:107-132 | in every reachable state, exactly which logins pass, in terms of the history of failures and accepted uses |
| TwoFactorRuns.ConfirmPassesExactly | internal/features/auth/totp_service.go:40-68 | in every reachable state, exactly which confirmations pass, and that one that passes starts the count over and bars its own step from logins |
| TwoFactorRuns.AnswersExactly | internal/features/auth/totp_service.go:40-132 | and with which answer each login and confirmation is refused |
| TwoFactorRuns.RowIsEnrollment | internal/platform/store/sqlcgen/users.sql.go:689-699 | in every run the row holds the secret enrolled last and is verified exactly if that was confirmed since: no failure and no login changes either |
| TwoFactorRuns.SecondFactorHolds | internal/features/auth/totp_service.go:40-132 | once confirmed, in every continuation without enrolling or disabling, the row stays verified with its secret, and no login passes without a right code |
| TwoFactorRuns.EnrollingSuspends | internal/features/auth/totp_service.go:21-37 | enrolling again unverifies the row, so that until it is confirmed every login passes without a code |
| TwoFactor.StepIsThirtySeconds | internal/features/auth/totp_service.go:134-136 | a step is thirty seconds of the clock |
| EventRecords.AuditRoundTrip | internal/features/audit/audit_service.go:99-162 | a published record comes back from the audit table unchanged exactly when its IDs are canonical and its time is a whole number of microseconds |
| EventRecords.ListedIsStored | internal/features/audit/audit_service.go:99-162 | what is inserted is listed with its IDs spelled canonically and its time cut to microseconds |
| EventRecords.FractionIsLost | internal/platform/events/bus.go:144-146 | a record that is a nanosecond off comes back changed |
| EventRecords.PublishedIsAssigned | internal/platform/events/bus.go:140-146 | a published record has an ID and a time, so the handler's own assignment changes nothing |
| EventRecords.PublishedCarries | internal/platform/events/bus.go:202-205 | what is published of a defined event has the definition of its type and, field by field, the event's own ID, actor user, actor organization, target, request, metadata, changes and time; a new ID and the time of publication where it has none |
| EventBusRuns.DeliveryIsAccounted | internal/platform/events/bus.go:151-196 | in every run, what the group passed and the stream still holds is pending or acknowledged and never both, what is acknowledged is in the audit log, no worker holds more than a batch, and what was trimmed was older than the retention window up to clock skew; without a window nothing is |
| EventBusRuns.OneRowPerEvent | internal/platform/store/migrations/00002_app_audit_logs.sql:4 | in every run each audit row is what the record of exactly one published event converts to |
| AuditListing.List | internal/features/audit/audit_service.go:60-97 | refuses an actor that is no ID; otherwise converts every row, in order |
| AuditListing.ListShowsWhatWasPublished | internal/platform/store/sqlcgen/audit.sql.go:72-89 | after every run each listed record is the stored form of exactly one published event, and equal to it exactly when nothing was lost in storing |
| AuditListing.ListShowsEvents | internal/features/audit/audit_service.go:60-162 | and tells of one event passed to Publish, and of one the filter asks for: type, definition, actor, organization, target, request, metadata and changes are that event's |
| AuditListing.ListIsNewestFirst | internal/platform/store/sqlcgen/audit.sql.go:72-89 | the newest record is first, and of one time the greatest ID |
| AuditListing.AcknowledgedIsListed | internal/platform/store/sqlcgen/audit.sql.go:72-89 | after every run each acknowledged event that the filter admits is listed, unless rows before it reach the limit |
| AuditListing.AcknowledgedEventIsListed | internal/platform/store/sqlcgen/audit.sql.go:72-89 | in terms of the event itself: once acknowledged it is listed wherever the filter asks for it, as far as the limit goes |
| EventBusRuns.RunKeepsInv | internal/platform/events/bus.go:129-196 | publishing, reading with claims, handling, acknowledging, trimming and crashing keep the invariant |
| EventBusRuns.StrandedForGood | internal/features/audit/audit_service.go:37-52 | an entry in the log that nobody is about to acknowledge is never acknowledged in any continuation |
| EventBusRuns.AcknowledgeableExactly | internal/platform/events/bus.go:186-191 | a logged entry can still be acknowledged exactly when a worker is between handling and acknowledging it |
| EventBusRuns.CrashStrands | internal/platform/events/bus.go:186-191 | a run in which a crash between the two strands an entry |
| EventBusLosses.LostForGood | internal/platform/events/bus.go:151-155 | an event trimmed before it was logged, and which no worker can get to, never reaches the audit log |
| EventBusLosses.LoggableExactly | internal/platform/events/bus.go:151-196 | an event that is not logged can still be exactly when its record converts and it is in the stream, or a worker has it ahead and can handle every entry on the way to it |
| EventBusLosses.TrimLosesUnread | internal/platform/events/bus.go:151-155 | a run without failures that loses an event the group was never given |
| EventBusLosses.TrimLosesDelivered | internal/platform/events/bus.go:151-191 | a run that loses an event given to a worker that crashed, while it is still pending |
| EventBusStrands.PassMeetsStranded | internal/platform/events/bus.go:178-191 | a pass over a batch with a stranded entry fails and stops there or before, whatever else fails, and what is behind it stays pending |
| EventBusService.Service.Publish | internal/platform/events/bus.go:129-160 | extends the run by one publish step and the stream by one entry that carries the event, with an ID and a time set; changes nothing for an undefined event or an addition that failed; an addition whose reply was lost is there |
| EventBusService.Service.HandleEvent | internal/features/audit/audit_service.go:37-52 | inserts the record's row under its primary key, or fails and changes nothing unless the insert took effect |
| EventBusService.Service.ReadGroup | internal/platform/events/bus.go:171-177 | a read step that starts a pass over distinct entries |
| EventBusService.Service.ProcessMessage | internal/platform/events/bus.go:180-193 | handles one message and then acknowledges it, each possibly failing before or after taking effect |
| EventBusService.Service.Abandon | internal/platform/events/bus.go:171-177 | a read that fails after the server served it leaves its entries pending with nobody: a crash step |
| EventBusService.Service.ProcessBatch | internal/platform/events/bus.go:178-195 | the loop over the messages, with its count |
| EventBusService.Service.ProcessSubscriber | internal/platform/events/bus.go:163-196 | a pass extends the run; a read that fails handles nothing; otherwise, returning n, it has acknowledged exactly the first n entries and handled nothing beyond entry n + 1, which is acknowledged only by an acknowledgement that took effect and then failed; without faults it fails only at an entry no handler can insert |
| EventBusDrain.PassesTake | internal/platform/events/bus.go:163-196 | n complete passes from a time on acknowledge at least as many entries as were available then, or n batches if that is less, and never more than n batches |
| EventBusDrain.PassesLeave | internal/platform/events/bus.go:163-196 | so, when all that is outstanding is available to the first, they leave k − n · BatchSize of k outstanding entries, or none |
| EventBusDrain.DrainedExactly | internal/platform/events/bus.go:163-196 | and then k entries are drained exactly when there were at least k / BatchSize passes, rounded up |
| EventBusDrain.CleanPassSucceeds | internal/platform/events/bus.go:178-195 | with every outstanding entry handleable a pass without faults does not fail |
| EventBusDrain.PassKeepsHandleable | internal/features/audit/audit_service.go:37-52 | and what is outstanding after it is still handleable |
| EventBusDrain.CleanPass | internal/platform/events/bus.go:163-196 | so a pass that reads what it may and meets no fault is complete, and leaves the rest handleable |
| EventBusDrain.Drain | internal/platform/events/worker.go:17-29 | a worker that ticks at given times makes such passes: they acknowledge as many entries as were available at the first, as far as their batches go; with all of k available they drain them exactly when there are at least k / BatchSize passes, rounded up; and everything acknowledged is in the audit log |
| CatalogMerge.MergeEventModules | internal/manifest/event.go:116-135 | the loop with its index map is the specified merge |
| CatalogMerge.MergeEventModule | internal/manifest/event.go:137-150 | merges descriptions and children and appends events |
| CatalogMerge.MergeCatalogs | internal/manifest/event.go:104-114 | merges a list of catalogs onto the empty one |
| CatalogMergeLaws.MergeAssociates | internal/manifest/event.go:116-161 | merging is associative, in order and content and in whether a conflict makes it fail, for all catalogs, sibling IDs distinct or not |
| CatalogMergeLaws.MergeIsCompositional | internal/manifest/event.go:104-114 | merging xs ++ ys is merging the merge of xs with the merge of ys, and merging a merged catalog alone changes nothing |
| CatalogMergeLaws.EmptyIsIdentityExactly | internal/manifest/event.go:104-135 | the empty catalog is the identity on the right, and on the left, so that merging one catalog gives it back, exactly for catalogs of distinct top-level IDs |
| CatalogMergeLaws.InsertsCommute | internal/manifest/event.go:116-135 | modules of different IDs merge in either order once the first is there |
| CatalogMergeLaws.DescriptionsAssociate | internal/manifest/event.go:152-161 | combining descriptions is associative, conflicts included |
| CatalogMergeLaws.MergeConserves | internal/manifest/event.go:116-150 | a merge that succeeds keeps the multiset of events with their paths |
| CatalogMergeLaws.MergeAllConserves | internal/manifest/event.go:104-150 | so does merging any number of catalogs |
| CatalogMergeMeaning.MergeHolds | internal/manifest/event.go:116-161 | in a merge that succeeds each path has the events of both catalogs, the first's before the second's, and the descriptions of both |
| CatalogMergeMeaning.MergeOrder | internal/manifest/event.go:116-135 | modules keep their place, and new ones follow in the order in which they first occur |
| CatalogMergeMeaning.MergeSucceedsExactly | internal/manifest/event.go:116-161 | catalogs with distinct sibling IDs merge exactly when on no path they give two different descriptions |
| CatalogMergeMeaning.MergeAllHolds | internal/manifest/event.go:104-150 | merging many has at each path the events of all, in order |
| CatalogMergeMeaning.MergeAllSucceedsExactly | internal/manifest/event.go:104-161 | and succeeds exactly when no two of them disagree on any path |
| CatalogValidate.Validator.ValidateEventModules | internal/manifest/event.go:175-225 | the nested loops over mutable seen maps are the specified validator, with the same first error |
| CatalogValidate.ValidateTypedFields | internal/manifest/event.go:227-247 | the loop over fields likewise |
| CatalogValidate.FieldsExactly | internal/manifest/event.go:227-247 | fields pass exactly when named, well typed and without duplicates |
| CatalogValidate.AcceptsExactly | internal/manifest/event.go:165-247 | the validator accepts exactly the non-empty catalogs with non-empty sibling-distinct module IDs, complete events with IDs distinct in their module, types and constant names pairwise distinct overall, and valid fields |
| CatalogValidate.ErrorIsTrue | internal/manifest/event.go:165-247 | a catalog that is refused has the fault it is refused for: the empty ID, the ID twice among siblings, the type or constant twice in the catalog, or an event with that faulty field |
| EventCodegen.FlattenEventDefinitions | cmd/codegen/event.go:236-256 | the nested loops list every event with its path |
| EventCodegen.CheckFragments | cmd/codegen/event.go:64-87 | accepts exactly a non-empty list of fragments each of one module named after its directory, and names the first that is not |
| EventCodegen.GenerateEvent | cmd/codegen/event.go:34-62 | succeeds exactly when the fragments are well named and their merge succeeds and validates, and otherwise fails by the first of these checks that does, and for a fault that is there; each file declares its fragment's events in the order of their types |
| EventCodegen.NamesAreGloballyUnique | cmd/codegen/event.go:34-62 | then every event of every fragment has a type and a constant name of its own across all fragments |
| EventCodegen.LocalNamesAreDistinctExactly | cmd/codegen/event.go:153-165 | for one fragment, the constants without the module's segment are distinct exactly when those with it are |
| EventCodegen.SortSorts | cmd/codegen/event.go:97-99 | sorting by type keeps the multiset of events and puts them in order |
| EventCodegen.GeneratedConstantsAreDistinct | cmd/codegen/event.go:153-186 | and each generated file declares every event of its fragment once, in order, under pairwise distinct constants |
| EventCodegen.FileTells | cmd/codegen/event.go:153-186 | each event of the fragment is declared with its ID and path, the type that is its dotted path and ID, and elements 1 and 2 of its path as category and subcategory |
| EventCodegen.ConstantIsPkgAndLocal | cmd/codegen/event.go:161-165 | the full name is the package's name followed by the generated constant |
| EventCodegen.AcceptanceExactly | cmd/codegen/event.go:34-87 | fragments of different directories are accepted exactly when each is well formed by itself and no type or constant name occurs twice among all |
| Naming.BuildGoName | internal/manifest/naming.go:22-43 | the loop builds the specified name |
| Naming.SegmentSpelling | internal/manifest/naming.go:27-41 | an acronym, or a segment without lower-case letters, becomes upper case; any other a capital and the rest in lower case |
| Naming.GoNameOfOne | internal/manifest/naming.go:22-43 | a name without separators is spelled as one segment |
| Naming.BuildDisplayPath | internal/manifest/naming.go:62-75 | the loop builds the specified path |
| Naming.TypeIsDotted | internal/manifest/event.go:250-253 | a type is the path and the ID with dots between |
| Naming.BlankIsDropped | internal/manifest/naming.go:62-75 | blank parts add nothing to a path |
| Naming.PartsAreTrimmed | internal/manifest/naming.go:62-75 | and blanks around a part make no difference |
| Naming.GoNameDistributes | internal/manifest/naming.go:22-48 | the name of two segments joined by any separator is the names one after the other |
| Naming.ConstantNamesAgree | internal/manifest/i18n.go:257-260 | message and event constants agree on every path |
| Naming.ConstantOfTail | internal/manifest/event.go:256-263 | dropping the leading module drops exactly its name from the constant |
| PasswordCodec.DecimalRoundTrip | internal/foundation/security/password.go:29-42 | a printed decimal reads back |
| PasswordCodec.ParseUint32Exactly | internal/foundation/security/password.go:93-96 | a decimal is read exactly when it is all digits and below 2^32 |
| PasswordCodec.Base64RoundTrip | internal/foundation/security/password.go:29-42 | unpadded base64 (sections 4 and 3.2 of RFC 4648) reads back |
| PasswordCodec.DecodesExactly | internal/foundation/security/password.go:66-73 | text is decoded exactly when, but for line breaks, it is of the alphabet and of a possible length |
| PasswordCodec.LineBreaksAreSkipped | internal/foundation/security/password.go:66-73 | a line break anywhere makes no difference |
| PasswordHash.ParsePasswordHashParams | internal/foundation/security/password.go:81-112 | the loop over the parts is the specified parser |
| PasswordHash.AcceptsExactly | internal/foundation/security/password.go:81-112 | a string parses exactly when it is three parts naming each of m, t and p once, with 32-bit decimals, m and t nonzero and p nonzero modulo 256 |
| PasswordHash.OrderDoesNotMatter | internal/foundation/security/password.go:81-112 | the order of the parts is immaterial |
| PasswordHash.PrintParseRoundTrip | internal/foundation/security/password.go:22-79 | parsing a printed hash gives back its parameters, salt and digest |
| PasswordHash.VerifiesItsHash | internal/foundation/security/password.go:22-52 | a password verifies against its own hash, and another exactly when the digests agree |
| PasswordHash.HashLooksSo | internal/foundation/security/password.go:22-42 | a hash is version, algorithm, `m=65536,t=2,p=4`, salt and digest of the password under these |
| PasswordHash.HashParsesExactly | internal/foundation/security/password.go:54-79 | a string parses exactly when it is these five parts, with a salt of 16 bytes and a digest of 32 |
| PasswordHash.VerifiesExactly | internal/foundation/security/password.go:45-52 | and exactly the passwords that the key function takes to the digest verify |
| LogReturn.Search.Inspect | cmd/coderules/logreturn.go:329-343 | the early-stopping walk finds nothing outside the function's own nodes, and misses nothing unless it has found both |
| LogReturn.LogReturnViolation | cmd/coderules/logreturn.go:326-348 | reports exactly when the own nodes hold a logging call and an error return |
| LogReturn.LoggingCall | cmd/coderules/logreturn.go:377-403 | a selector that one of the sinks matches |
| LogReturn.LoggingCallExactly | cmd/coderules/logreturn.go:377-403 | exactly Error, HTTPError and Panic of the logging package, and Error and ErrorContext of a logger of log/slog |
| LogReturn.ErrorReturn | cmd/coderules/logreturn.go:354-370 | the loop over the error positions: a naked return, or one with something other than nil at an error position it has |
| LogReturn.ErrorReturnExactly | cmd/coderules/logreturn.go:211-370 | of the signature: a return is an error return exactly when some result is an error and, unless the return is naked, its expression is there and not nil |
| LogReturn.OneEachExactly | cmd/coderules/logreturn.go:354-370 | with one expression for each result, exactly when that of some error result, wherever it stands, is not nil |
| LogReturn.ReturnedErrorExample | cmd/coderules/logreturn.go:326-370 | a function of results (T, error) that logs an error and does `return nil, err` is reported |
| LogReturn.OneExpressionExactly | cmd/coderules/logreturn.go:361-369 | one returned expression is an error return exactly when the first result is an error and the expression is not nil |
| LogReturn.ForwardedExactly | cmd/coderules/logreturn.go:361-369 | so `return f()` is one exactly when the first result is an error |
| LogReturn.ForwardedErrorExample | cmd/coderules/logreturn.go:326-370 | a function of results (T, error) that logs an error and does `return f()`: nothing is reported |
| LogReturn.ErrorResultIndexes | cmd/coderules/logreturn.go:211-224 | the positions of the error results, in ascending order |
| LogReturn.AllowDirective | cmd/coderules/logreturn.go:277-324 | the reason of the first directive in the documentation, then among comments on the first or last line |
| LogReturn.DirectiveExactly | cmd/coderules/logreturn.go:277-306 | a unit's directive is the first in its documentation or, if that has none, the first in the first comment group on its first or last line that has one |
| LogReturn.ReasonExactly | cmd/coderules/logreturn.go:308-324 | a comment is a directive exactly when its name begins the text after slashes and blanks; the reason is the rest, trimmed |
| LogReturn.AnalyzeFunctionUnit | cmd/coderules/logreturn.go:257-273 | the findings of a unit, in order |
| LogReturn.ReportedExactly | cmd/coderules/logreturn.go:257-348 | a function of given results is reported exactly when it has a logging call of its own, a return of its own that gives an error by those results, and no directive with a reason |
| LogReturn.DeclaredReportedExactly | cmd/coderules/logreturn.go:170-273 | a declared function by the results of its own signature |
| LogReturn.LiteralReportedExactly | cmd/coderules/logreturn.go:170-273 | a function literal by those of its own |
| LogReturn.CollectTypedFunctionUnits | cmd/coderules/logreturn.go:170-209 | one unit for every function with a body and every literal, outer before inner |
| LogReturn.FilePartition | cmd/coderules/logreturn.go:170-209 | the calls and returns inside bodies are, each once, the own ones of the units and those in headers of inner literals |
| LogReturn.PartitionExactly | cmd/coderules/logreturn.go:170-209 | the units' own nodes are all of them exactly when no inner literal's header holds any |
| LogReturn.BelongsToOneUnit | cmd/coderules/logreturn.go:170-209 | such a call or return belongs to exactly one unit |
| LogReturn.NoneThatCountsIsMissed | cmd/coderules/logreturn.go:170-209 | with constant headers every return and every logging call in a body is some unit's own, as often as it occurs |
| LogReturn.OrphanExample | cmd/coderules/logreturn.go:329-332 | a constant call in a literal's header that belongs to none |

## Left out

- SessionService.Service.Session: request logging and the JSON form of a cached principal; a value that fails to decode counts as a failing cache read.
- SessionRuns.CacheAndCleanupAreUnobservable: time is an integer on one clock; Redis and the service may in fact differ, and Redis rounds TTLs to milliseconds.
- CacheKeys.DistinctHashesDistinctKeys: the prefix is trimmed as the constructor does; that hashes hold no colon is assumed of base64url.
- AccountsService.Service.SetupFirstUser: a password that cannot be hashed, which ends setup before its transaction.
- AccountsService.Service.Accept: what a failing rollback adds to the error text; only that nothing of the transaction remains. The program's one function is four methods here, each ending by a call of the next.
- AccountsRuns.RunKeepsInv: transactions are serial; two acceptances or two setups at once are not modelled.
- PasswordReset.ForgetIssues: calls that fail before the mail is sent, and the minimum duration of a request.
- PasswordReset.ResetEndsSessions: is for calls that do not fail; with a lost purge the bound of `SessionInterleaved.RevocationTakesHold` applies.
- TwoFactorRuns.AcceptedStepsIncrease: whether a code is right is any boolean; the library's tolerance of neighbouring steps is not modelled, so it speaks of the step of the clock, which is what the program records.
- EventBusService.Service.Publish: a caller that repeats a publication whose reply was lost, which would put two entries of one ID on the stream; published records have IDs of their own.
- EventBusService.Service.ProcessSubscriber: one registered subscriber, and payloads that decode; an unregistered name is refused before anything is read, and an entry not written by Publish fails the pass where it stands.
- EventBusDrain.Drain: the server gives as much as it may at each read; one that returns less drains later.
- EventRecords.AuditRoundTrip: metadata and changes map to strings, so their JSON form is not modelled.
- EventCodegen.GenerateEvent: the text of the generated files; and events of one type, which sorting may leave in any order, keep theirs. Where generation succeeds there are none.
- CatalogMerge.MergeEventModules: catalogs are values, so that the merge writes into slices shared with its inputs is not modelled.
- Naming.BuildGoName: case mapping is that of ASCII letters; other characters have no case.
- LogReturn.LoggingCall: takes what type checking says of a selector as given.
- Concurrent read-check-write on a two-factor row.
- HTTP handlers, middleware, cookies, rendering and configuration.
- Single sign-on, whose substance is in a library and the network.
- Postgres, Redis, gocron and River themselves.
- The column `last_seen_at`, which the program does not set although the schema requires it.
- The merge and validation of message catalogs, which are twins of those of event catalogs.
- Names of generated types other than event constants, which the validator does not check.
- File globbing, JSON decoding, templates and gofmt.
- The reverse round trip of password hashes: leading zeros and the order of parameters make several strings parse alike.
