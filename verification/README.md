# Verified model of the backend's stateful core

This project models, and proves properties of, the parts of the service where several
operations, several actors and the passage of time meet:

- **Transactional outbox and relay.** Web transactions stage rows that commit or roll back with
  the domain change. Any number of drain loops take locked batches, publish row by row, and commit
  each batch once; any of them may fail between any two steps. `OutboxProtocol` is the state
  machine, `OutboxSafety` what every interleaving keeps, `OutboxRetention` the simulation between
  keeping and deleting relayed rows, `OutboxDrain` and `OutboxSelect` what a drain loop achieves,
  and `OutboxRelay` the loop itself, step by step over a shared table, proved to be a run of the
  state machine.
- **Organizations.** One table holds invitations and memberships. `OrganizationModel` defines every
  command on values and runs over them; `OrganizationSafety`, `OrganizationOwners`,
  `OrganizationAccess`, `OrganizationProvenance` and `OrganizationIsolation` hold the properties of
  runs, and `OrganizationExamples` has runs into surprising states; `OrganizationService` has the commands as they execute, with tracked entities, staged inserts
  and deletes and one commit, each proved to do what the command on values says.
  `AccountService` is the deactivation of an account, which reaches into organizations and sessions.
- **Sliding-window sessions.** `Sessions` is the arithmetic of one session over many requests, with
  a separate clock reading for each of the four places that read it; `SessionStore` runs over all
  sessions and tokens; `AuthService` the service itself. A token's expiry claim is section 4.1.4 of
  RFC 7519.
- **List queries.** `Pagination` (order, pages, totals), `OrganizationLists` (the three queries) and
  `OrganizationReader` (what is listed agrees with what the commands accept).
- **API keys** (`ApiKeys`, `ApiKeyService`), **event routing** (`EventDispatch`, and `EventDelivery`,
  which carries it through the web transaction and the outbox to the broker), **names**
  (`NameGrammar`, with the meaning of the regular expressions) and **alert limiting** (`AlertCooldown`).

Where the source works by changing things step by step, the model has classes, fields and loops
whose contracts equate the new state with a function on values; the properties of whole runs are
lemmas about those functions.

Identifiers and key material are taken to be new when they are generated, and clock readings never to
go backwards. Times are whole microseconds, as in the source, except for the alert limiter, which
works in real seconds. `dafny verify dfyconfig.toml` checks the project.

## Where the code and its documentation differ

- The project's documentation says every organization always keeps an accepted, active owner. The
  code keeps an accepted owner always; an active one survives every organization command but not the
  deactivation of the last active owner's account (`ActiveOwnerCanBeLost`,
  `OnlyDeactivationLosesActiveOwner`, `DeactivationKeepsActiveOwnerIff`).
- The last-owner guard counts active owners without asking whether the target is one of them, so the
  only active owner cannot remove a deactivated co-owner although one active owner would remain
  (`LastOwnerGuardExact`, `InactiveCoOwnerCannotBeRemoved`).
- Only an owner may remove or change an OWNER row, pending ones included; but an ADMIN may replace an
  expired OWNER invitation by inviting the same user again with a lesser role (`OnlyAuthorizedWrites`,
  `AdminReplacesOwnerInvitation`).
- An expired API key that has not been revoked still takes up one of its user's slots
  (`ExpiredKeysHoldTheirSlots`).
- The token library compares the expiry claim in whole seconds, so in the last, incomplete second of a
  session its token is refused although the stored session has not expired; used at gaps within a second
  of the refresh threshold, a session can be lost (`RefusedEarlyIff`, `LastUnitCanBeLost`; `NextVisit` has
  the bound that holds). When the threshold rounds up to the whole TTL, gaps of exactly the threshold are
  no longer safe either (`SafeGap`).
- A list of more than 2^31 - 1 rows cannot be walked to its end when the offset of its last page exceeds
  the 32-bit bound. A client that stops at the reported total needs the page of the last row
  (`PagesByTotalConcatenate`); one that stops at the first page that is not full may need one empty page
  more (`PagesConcatenate`). Both conditions are exact.

## Model

| member | source | states |
|---|---|---|
| OutboxSafety.StepPreserves | src/app/main/worker/outbox_drain_loop.py:118-134 | every step of any web transaction or drain loop keeps the outbox invariant: locks match batches, marks match sends, and every publication is accounted for |
| OutboxSafety.RunPreserves | src/app/main/worker/outbox_drain_loop.py:118-134 | so does every run, whatever the interleaving |
| OutboxSafety.NothingLostNoGhosts | src/app/main/worker/outbox_drain_loop.py:118-134 | in every reachable state each committed row is pending or published, and each published task has the id and content of a committed row and never of an aborted one |
| OutboxSafety.CommittedRowIsRelayed | src/app/outbound/adapters/sqla_outbox_repository.py:54-121 | from the commit of its transaction on, a row stays pending until it is published, with its content unchanged |
| OutboxSafety.AbortedRowIsNeverRelayed | src/app/outbound/adapters/sqla_outbox_repository.py:34-52 | a row of a rolled-back transaction is never stored and never published |
| OutboxSafety.HistoryCounts | src/app/main/worker/outbox_drain_loop.py:119-134 | the history variables equal the number of failed batches that had sent the row and the number of batches that committed its mark, counted over the run |
| OutboxSafety.PublicationCount | src/app/main/worker/outbox_drain_loop.py:88-134 | a row has been published once per committed mark (at most one), once per batch that sent it and failed, and once if a send is in flight |
| OutboxSafety.AtMostOnceWithoutFailures | src/app/main/worker/outbox_drain_loop.py:88-134 | without failed batches no row is published twice, whatever the number of drain loops |
| OutboxSafety.BatchesAreDisjoint | src/app/outbound/adapters/sqla_outbox_repository.py:74-85 | batches of concurrent drain loops share no row, and every locked row is still pending |
| OutboxSafety.LockHeldToBatchEnd | src/app/outbound/adapters/sqla_outbox_repository.py:106-121 | a row stays locked and unchanged until its own drain loop ends its whole batch; a commit comes only after the whole batch was sent |
| OutboxProtocol.RunsCompose | src/app/main/worker/outbox_drain_loop.py:66-71 | a run continued by a run is a run, ending where the second one does |
| OutboxRetention.StepSimulates | src/app/main/worker/outbox_drain_loop.py:130-134 | a step with relayed rows kept and the same step with them deleted lead to states that agree on everything pending, locked and published |
| OutboxRetention.RetentionNeverChangesRelay | src/app/main/worker/outbox_drain_loop.py:118-134 | change the retention setting of any ticks of any run: still a run, with the same published tasks and the same pending rows |
| OutboxRetention.RetainedRowsStay | src/app/main/worker/outbox_drain_loop.py:130-134 | with retention on, on every run no committed row ever leaves the table, and those marked processed have been published |
| OutboxRetention.DeletedRowsWerePublished | src/app/main/worker/outbox_drain_loop.py:130-134 | with retention off, on every run the table holds no processed row, and a committed row that is gone has been published |
| OutboxDrain.DrainIsRun | src/app/main/worker/outbox_drain_loop.py:66-71 | ticks one after the other are a run of the protocol |
| OutboxDrain.DrainKeepsOrder | src/app/outbound/adapters/sqla_outbox_repository.py:74-85 | the ticks relay pending rows each once, oldest first, and what is left is at least as new |
| OutboxDrain.DrainsInOrder | src/app/main/worker/outbox_drain_loop.py:118-134 | n pending rows are gone after k ticks of one drain loop exactly when n <= 100 k, published in non-decreasing created_at order |
| OutboxSelect.BatchExists | src/app/outbound/adapters/sqla_outbox_repository.py:74-85 | whatever is locked, there is a batch of the oldest unlocked pending rows to take |
| OutboxSelect.DrainExists | src/app/main/worker/outbox_drain_loop.py:66-71 | from any quiet table any number of ticks is possible |
| OutboxSelect.OldestFirstSorted | src/app/outbound/adapters/sqla_outbox_repository.py:74-85 | the selection takes the n oldest rows, in order, and leaves out only rows at least as new |
| OutboxRelay.SqlaOutboxRepository.Add | src/app/outbound/adapters/sqla_outbox_repository.py:34-52 | stages one unprocessed row and nothing else |
| OutboxRelay.SqlaOutboxRepository.GetPending | src/app/outbound/adapters/sqla_outbox_repository.py:54-85 | returns a batch in the protocol's sense and locks exactly its rows |
| OutboxRelay.SqlaOutboxRepository.MarkProcessed | src/app/outbound/adapters/sqla_outbox_repository.py:87-93 | records the mark in the session only |
| OutboxRelay.SqlaOutboxRepository.Delete | src/app/outbound/adapters/sqla_outbox_repository.py:95-104 | records the deletion in the session only |
| OutboxRelay.SqlaOutboxRepository.Commit | src/app/outbound/adapters/sqla_outbox_repository.py:106-121 | writes everything staged to the table, releases the session's locks, leaves the session clean |
| OutboxRelay.RelayMessage | src/app/main/worker/outbox_drain_loop.py:119-132 | one task published with the row's id and content, one mark, and a deletion unless rows are retained; or which part of that was done before a call raised |
| OutboxRelay.RelayBatch | src/app/main/worker/outbox_drain_loop.py:119-132 | publishes the batch in order with marks for all of it, or the prefix reached when a call raises, a send that raised after delivery included |
| OutboxRelay.CommittedTick | src/app/main/worker/outbox_drain_loop.py:130-134 | the same of the table on values: marked in place at each message's own time, or deleted, and all other rows untouched |
| OutboxRelay.DrainOutbox | src/app/main/worker/outbox_drain_loop.py:88-134 | one tick, wherever a call raises: what the broker has; when it commits, each row of the batch stays with its own mark and nothing else changed, or is gone without retention; every other row and lock is as before |
| OutboxRelay.DrainOutboxFromWorker | src/app/main/worker/outbox_drain_loop.py:74-85 | a tick on the real table and broker, wherever it raises, is a run of the protocol |
| OutboxRelay.RunForever | src/app/main/worker/outbox_drain_loop.py:44-71 | any number of ticks of any number of workers, raising anywhere and swallowed, is a run of the protocol and keeps its invariant |
| OrganizationSafety.CommandIsLegal | src/app/core/commands/change_organization_member_role.py:48-80 | every command commits at most one write that keeps unique rows, foreign keys, dates and an owner |
| OrganizationSafety.LegalWriteKeeps | src/app/outbound/adapters/sqla_organization_repository.py:34-99 | each kind of write, the cascade included, keeps the invariant of the tables |
| OrganizationSafety.RunKeeps | src/app/core/commands/invite_organization_member.py:76-123 | the invariant holds in every state of every run |
| OrganizationSafety.ReachableStates | src/app/core/common/entities/organization_membership.py:55-138 | at most one row per organization and user; pending rows expire one TTL after creation, accepted ones were accepted before that; every organization has an accepted OWNER |
| OrganizationSafety.RequireRoleIff | src/app/core/common/authorization/current_organization_service.py:33-54 | the role check lets in exactly active users with an accepted row of at least that rank |
| OrganizationSafety.HierarchyIsRank | src/app/core/common/authorization/organization_permissions.py:15-44 | the hierarchy map is the order OWNER, ADMIN, MEMBER |
| OrganizationOwners.CommandsKeepActiveOwner | src/app/core/commands/remove_organization_member.py:62-78 | no command takes the last active owner from an organization it leaves in place |
| OrganizationOwners.OnlyDeactivationLosesActiveOwner | src/app/core/commands/deactivate_user.py:80-87 | a step that loses the last active owner is the deactivation of that owner's account |
| OrganizationOwners.DeactivationKeepsActiveOwnerIff | src/app/core/commands/deactivate_user.py:80-87 | a deactivation leaves an active owner exactly when another user is one |
| OrganizationOwners.ActivationRestoresOwner | src/app/core/common/services/user.py:112-125 | activating an accepted owner's account gives the organization an active owner |
| OrganizationOwners.LastOwnerGuardExact | src/app/core/commands/remove_organization_member.py:68-74 | the guard refuses exactly when no active owner would remain, or the target is inactive and one active owner is left |
| OrganizationOwners.DemotionGuardExact | src/app/core/commands/change_organization_member_role.py:69-76 | the same for demotion to any other role |
| OrganizationExamples.ActiveOwnerCanBeLost | src/app/core/commands/deactivate_user.py:80-87 | a run into an organization with an accepted owner and no active one |
| OrganizationExamples.InactiveCoOwnerCannotBeRemoved | src/app/outbound/adapters/sqla_organization_repository.py:101-120 | a run after which an active owner is refused the removal of a deactivated co-owner |
| OrganizationOwners.HoldsIffRequired | src/app/outbound/adapters/sqla_membership_checker.py:17-34 | the role check succeeds exactly when some accepted row of the caller holds the role |
| OrganizationOwners.OnlyAuthorizedWrites | src/app/core/commands/remove_organization_member.py:46-78 | a changed row is the caller's own, or the caller is an active ADMIN there, and an OWNER if the row held or gets that role, with one exception |
| OrganizationOwners.AdminReplacesOwnerInvitation | src/app/core/commands/invite_organization_member.py:96-110 | the exception: an ADMIN refused removal and demotion of an expired OWNER invitation may renew it with any lesser role |
| OrganizationAccess.RemoveSucceedsIff | src/app/core/commands/remove_organization_member.py:46-78 | exactly when removing or leaving succeeds, and that it takes away that row only |
| OrganizationAccess.RemoveRefusals | src/app/core/commands/remove_organization_member.py:46-87 | which refusal a failed removal gets, in the order of the checks |
| OrganizationAccess.ChangeRoleSucceedsIff | src/app/core/commands/change_organization_member_role.py:48-80 | exactly when a role change succeeds, and that it changes that role only |
| OrganizationAccess.ChangeRoleRefusals | src/app/core/commands/change_organization_member_role.py:48-89 | which refusal a failed role change gets |
| OrganizationAccess.DeclineSucceedsIff | src/app/core/commands/decline_organization_invitation.py:44-62 | the invitee's own pending invitation, expired or not, and nothing else can be declined; that row goes, owners and everything else stay, and no row of the caller is left there |
| OrganizationAccess.DeleteSucceedsIff | src/app/core/commands/delete_organization.py:39-57 | OWNERs delete, and exactly the organization and its rows go |
| OrganizationAccess.DeleteRefusals | src/app/core/commands/delete_organization.py:39-51 | which refusal a failed deletion gets |
| OrganizationAccess.RoleAnswers | src/app/core/common/authorization/current_organization_service.py:33-54 | the role check's three answers: not logged in, not a member, not enough of one, in that order |
| OrganizationAccess.CreateSucceedsIff | src/app/core/commands/create_organization.py:55-99 | when founding succeeds, and field by field the organization and the founder's row it leaves |
| OrganizationAccess.InviteSucceedsIff | src/app/core/commands/invite_organization_member.py:76-123 | inviting takes the right role, an active invitee, and no live row |
| OrganizationAccess.InviteLeavesAnInvitation | src/app/core/commands/invite_organization_member.py:90-123 | field by field the pending row it leaves, new or in place of a lapsed one; everything else as before |
| OrganizationAccess.InviterRefusals | src/app/core/commands/invite_organization_member.py:80-88 | which refusal an inviter without the role gets |
| OrganizationAccess.InviteeRefusals | src/app/core/commands/invite_organization_member.py:90-104 | which refusal an entitled inviter gets |
| OrganizationAccess.AcceptSucceedsIff | src/app/core/commands/accept_organization_invitation.py:47-76 | exactly when accepting joins, repeats, comes too late, or is not the caller's to do |
| OrganizationAccess.AcceptJoinsAsInvited | src/app/core/common/entities/organization_membership.py:130-138 | the row is dated and its expiry ended; role, inviter, creation and all else stay; the caller has the invited role |
| OrganizationAccess.OutsidersLearnNothing | src/app/core/common/authorization/current_organization_service.py:41-47 | to a caller without an accepted row every managing command answers not found, whether or not the organization exists |
| OrganizationAccess.OthersInvitationsAreHidden | src/app/core/commands/accept_organization_invitation.py:56-61 | accept and decline answer the same for another user's invitation as if that row did not exist |
| OrganizationProvenance.GrantNeedsOwner | src/app/core/commands/invite_organization_member.py:80-88 | inviting as OWNER, renewing to OWNER and promoting to OWNER all need an OWNER |
| OrganizationProvenance.OnlyGrantsMakeOwners | src/app/core/commands/change_organization_member_role.py:52-80 | no other command turns a row into an OWNER row |
| OrganizationProvenance.WhereOwnersComeFrom | src/app/core/commands/change_organization_member_role.py:52-80 | a new OWNER row was founded with its organization, or put there by a caller who was an accepted, active OWNER of it |
| OrganizationProvenance.OwnersTraceToTheFounder | src/app/core/commands/invite_organization_member.py:80-123 | on every run every OWNER row is reached from the founder's by a finite chain of such grants |
| OrganizationIsolation.CommandIsLocal | src/app/outbound/adapters/sqla_organization_repository.py:51-90 | the outcome of a command depends on the accounts and its own organization only |
| OrganizationIsolation.CommandWritesWithin | src/app/outbound/adapters/sqla_organization_repository.py:45-99 | a command writes rows of its own organization only |
| OrganizationIsolation.CommandsLeaveOthersAlone | src/app/core/commands/remove_organization_member.py:46-78 | every other organization is exactly as before |
| OrganizationIsolation.NonInterference | src/app/core/common/authorization/current_organization_service.py:33-54 | delete all commands to other organizations from a run: the rest is a run, with the same outcomes and the same final rows for this one |
| OrganizationIsolation.SameSliceSameOutcomes | src/app/outbound/adapters/sqla_organization_repository.py:51-90 | two worlds that agree on users and on this organization's rows: the same commands have the same outcomes and leave the same rows in both |
| OrganizationReader.ListedIffAcceptable | src/app/outbound/adapters/sqla_organization_reader.py:193-226 | an invitation is listed exactly when accepting it at that instant would join |
| OrganizationReader.ListedIffMember | src/app/outbound/adapters/sqla_organization_reader.py:84-105 | an organization is listed exactly when the MEMBER check succeeds |
| OrganizationReader.ConflictIffListed | src/app/core/commands/invite_organization_member.py:99-110 | re-inviting is a conflict exactly when one of the two lists shows the invitee, and succeeds otherwise |
| OrganizationService.OrganizationMembership.Make | src/app/core/common/entities/organization_membership.py:36-68 | an entity is made exactly when one of accepted_at and expires_at is set |
| OrganizationService.OrganizationMembership.RenewInvitation | src/app/core/common/entities/organization_membership.py:111-128 | role, inviter, creation and expiry start over; identity and acceptance stay |
| OrganizationService.OrganizationMembership.Accept | src/app/core/common/entities/organization_membership.py:130-138 | sets accepted_at and clears expires_at |
| OrganizationService.OrganizationRepository.CountOwners | src/app/outbound/adapters/sqla_organization_repository.py:101-120 | counts accepted OWNER rows of active accounts |
| OrganizationService.OrganizationRepository.GetRole | src/app/outbound/adapters/sqla_membership_checker.py:17-34 | the role of the user's accepted row there, if any |
| OrganizationService.OrganizationRepository.GetMembershipById | src/app/outbound/adapters/sqla_organization_repository.py:51-69 | finds a row by id within its organization only |
| OrganizationService.OrganizationRepository.GetMembershipForUser | src/app/outbound/adapters/sqla_organization_repository.py:71-90 | finds the one row of a user in an organization, pending or accepted |
| OrganizationService.OrganizationRepository.DeleteMembership | src/app/outbound/adapters/sqla_organization_repository.py:92-99 | stages the removal of that row and no other |
| OrganizationService.OrganizationRepository.Delete | src/app/outbound/adapters/sqla_organization_repository.py:34-43 | stages the removal of the organization with all its rows |
| OrganizationService.RequireRole | src/app/core/common/authorization/current_organization_service.py:33-54 | answers as the role check on values: no access, not found, or the caller |
| OrganizationService.CreateOrganization | src/app/core/commands/create_organization.py:55-99 | organization and first owner in one commit |
| OrganizationService.InviteOrganizationMember | src/app/core/commands/invite_organization_member.py:76-153 | answers and commits exactly what the invite command on values does, renewals in place |
| OrganizationService.AcceptOrganizationInvitation | src/app/core/commands/accept_organization_invitation.py:47-76 | answers and commits exactly what the accept command on values does |
| OrganizationService.DeclineOrganizationInvitation | src/app/core/commands/decline_organization_invitation.py:44-62 | answers and commits exactly what the decline command on values does |
| OrganizationService.RemoveOrganizationMember | src/app/core/commands/remove_organization_member.py:46-87 | answers and commits exactly what the remove command on values does |
| OrganizationService.ChangeOrganizationMemberRole | src/app/core/commands/change_organization_member_role.py:48-89 | answers and commits exactly what the role change on values does |
| OrganizationService.DeleteOrganization | src/app/core/commands/delete_organization.py:39-57 | answers and commits exactly what the delete command on values does |
| AccountService.DeactivateUser | src/app/core/commands/deactivate_user.py:54-89 | who may, what becomes of the account, and whose sessions are removed, in every branch |
| AccountService.DeactivationSucceedsIff | src/app/core/commands/deactivate_user.py:57-79 | an active caller may deactivate exactly the existing accounts ranked below |
| AccountService.OnlySubordinates | src/app/core/common/authorization/permissions.py:21-42 | nobody can deactivate themselves, a super admin, or an account that could deactivate theirs |
| AccountService.DeactivatedUserIsOut | src/app/core/commands/deactivate_user.py:80-87 | no token of the user's sessions is ever let in again, and every organization command of an inactive user is refused |
| Sessions.RoundedProduct | src/app/outbound/auth_ctx/utc_timer.py:27-29 | the threshold is the nearest whole number to ratio times TTL, the even one of two, between 0 and the TTL |
| Sessions.CutDownIsWhole | src/app/outbound/auth_ctx/jwt_processor.py:17-27 | the claim is compared as the last whole unit up to it |
| Sessions.ExpiryNeverMovesBack | src/app/outbound/auth_ctx/service.py:47-57 | a request never moves an expiry back |
| Sessions.RegularUseNeverExpires | src/app/outbound/auth_ctx/utc_timer.py:20-29 | used at gaps of at most the threshold, or less than it when it is the whole TTL, a session never expires, over any number of requests |
| Sessions.LongerGapsCanExpire | src/app/outbound/auth_ctx/utc_timer.py:24-29 | the bound is sharp: any longer gap can lose the session |
| Sessions.UseWithinRatioNeverExpires | src/app/outbound/auth_ctx/utc_timer.py:27-29 | for the threshold the code computes from a ratio: gaps a microsecond below ratio times TTL are safe |
| Sessions.IdleSessionExpires | src/app/outbound/auth_ctx/utc_timer.py:24-25 | after an idle gap of a TTL the next request is turned away |
| Sessions.RefreshesAreSpaced | src/app/outbound/auth_ctx/service.py:50-56 | refreshes are at least TTL minus threshold apart |
| Sessions.RefreshesInWindow | src/app/outbound/auth_ctx/service.py:50-56 | a window of length w holds at most w / (TTL - threshold) + 1 refreshes |
| Spacing.WindowBound | src/app/outbound/auth_ctx/utc_timer.py:27-29 | at most w / gap + 1 moments of a spaced sequence fit a window of length w |
| SessionStore.RunKeeps | src/app/outbound/auth_ctx/service.py:27-68 | on every run tokens belong to issued sessions, never outlive a stored one, and its newest token carries its expiry |
| SessionStore.TokensNeverOutliveSessions | src/app/outbound/auth_ctx/jwt_processor.py:17-33 | the row check never turns away, at one instant, a token that the token check accepts |
| SessionStore.RemovalRemoves | src/app/outbound/auth_ctx/service.py:59-68 | logout removes the token's session and no other; revoke-all exactly the user's |
| SessionStore.RemovedForGood | src/app/outbound/auth_ctx/service.py:59-68 | no token of a removed session is ever let in again |
| SessionStore.StoredForItsUser | src/app/outbound/auth_ctx/service.py:27-36 | on every run a stored session belongs to the user it was issued to |
| SessionStore.LetInAsIssued | src/app/outbound/auth_ctx/service.py:38-68 | on every run a request with a session's token is answered as the user it was issued to, and revoking that user's sessions removes it |
| SessionStore.ForgedTokensAreRefused | src/app/outbound/auth_ctx/jwt_processor.py:24-33 | a token that was never minted, or none, lets nobody in |
| SessionStore.ExpiryFollowsVisits | src/app/outbound/auth_ctx/service.py:38-57 | in any run a stored session's expiry is what its own visits made of it |
| SessionStore.RefusedEarlyIff | src/app/outbound/auth_ctx/jwt_processor.py:17-33 | the newest token is refused before its session expires exactly in the last, incomplete second |
| SessionStore.NextVisit | src/app/outbound/auth_ctx/service.py:38-57 | in any run of all sessions, a request within the safe gap less that second is let in, and one after an idle TTL is not |
| SessionStore.LastUnitCanBeLost | src/app/outbound/auth_ctx/service.py:38-57 | the second has to come off: any longer gap within the threshold can meet a refused token |
| AuthService.AuthService.IssueSession | src/app/outbound/auth_ctx/service.py:27-36 | one new session, for that user and one TTL, its token set as cookie; until it expires the cookie is answered as that user |
| AuthService.AuthService.GetCurrentUserId | src/app/outbound/auth_ctx/service.py:38-57 | answers as the run's request step, refreshes in place, and sets a cookie exactly when it refreshes |
| AuthService.AuthService.LogoutCurrentSession | src/app/outbound/auth_ctx/service.py:59-64 | the run's logout step; the cookie goes in any case |
| AuthService.AuthService.RevokeAllSessions | src/app/outbound/auth_ctx/service.py:66-68 | the run's revoke-all step |
| Pagination.ListingExists | src/app/outbound/adapters/sqla_organization_reader.py:30-40 | every set of rows has a sorted listing |
| Pagination.ListingIsSorted | src/app/outbound/adapters/sqla_organization_reader.py:30-40 | ascending values do not fall and equal ones are in id order; descending the opposite |
| Pagination.ListingIsUnique | src/app/outbound/adapters/sqla_organization_reader.py:30-40 | and only one: the tie-break by id leaves no order open |
| Pagination.DescendingIsReversed | src/app/outbound/adapters/sqla_organization_reader.py:37-40 | descending is ascending reversed, ties included |
| Pagination.ParamsAccepted | src/app/core/queries/query_support/offset_pagination.py:8-28 | the accepted limits and offsets, and which bound is reported first |
| Pagination.PageRows | src/app/outbound/adapters/sqla_organization_reader.py:101-104 | a page holds the rows at its places of the listing and no more than the limit |
| Pagination.PagesConcatenate | src/app/core/queries/query_support/offset_pagination.py:8-28 | pages of any limit, read until one is not full, are the full listing exactly when that page's offset fits 32 bits |
| Pagination.PagesByTotalConcatenate | src/app/core/queries/query_support/offset_pagination.py:8-28 | read until the reported total, they are exactly when the page of the last row does |
| Pagination.TotalsAgreeIff | src/app/outbound/adapters/sqla_organization_reader.py:47-62 | every page reports the same total exactly when the fallback count is the number of rows |
| OrganizationLists.AnswerIsThePage | src/app/outbound/adapters/sqla_organization_reader.py:30-62 | a query's rows are the slice of the one listing at limit and offset; an unknown field is an error |
| OrganizationLists.MembersListed | src/app/outbound/adapters/sqla_organization_reader.py:132-160 | the members' list holds every row of the organization, pending ones included, and no other |
| OrganizationLists.OrganizationsListed | src/app/outbound/adapters/sqla_organization_reader.py:84-105 | an active user's list holds exactly the organizations with an accepted row of the user |
| OrganizationLists.MembersCountedIff | src/app/outbound/adapters/sqla_organization_reader.py:132-160 | the count without the join is right exactly when no row lacks its account, as foreign keys guarantee |
| OrganizationLists.InvitationsCounted | src/app/outbound/adapters/sqla_organization_reader.py:193-226 | under the foreign keys the un-joined condition selects the same invitations |
| OrganizationLists.OrganizationsCounted | src/app/outbound/adapters/sqla_organization_reader.py:84-105 | the join shows each organization once |
| OrganizationLists.TotalsOfAllLists | src/app/outbound/adapters/sqla_organization_reader.py:42-62 | every page of all three lists, empty or not, reports the number of rows of its list |
| ApiKeys.RunKeeps | src/app/core/commands/issue_api_key.py:89-112 | on every run hashes are unique, no user exceeds the cap, dates are consistent, and last use is unset exactly when the counter is zero |
| ApiKeys.NeverMoreThanTheCap | src/app/core/commands/issue_api_key.py:86-91 | no user ever has more unrevoked keys than the cap |
| ApiKeys.IssueSucceedsIff | src/app/core/commands/issue_api_key.py:73-96 | who is issued a key, for how many days, and which refusal comes first |
| ApiKeys.IssuedKeyIsLetInForItsDays | src/app/core/commands/issue_api_key.py:96-112 | in any later run an issued, unrevoked key is let in exactly until the days asked for are over, and as the user who logged in |
| ApiKeys.ExpiredKeysHoldTheirSlots | src/app/outbound/adapters/sqla_api_key_repository.py:76-90 | a user with all slots taken by expired keys can use none and is issued none |
| ApiKeys.LetInIff | src/app/outbound/adapters/api_key_identity_provider.py:44-51 | the key found is the one with that hash, unrevoked and unexpired |
| ApiKeys.RevokedForGood | src/app/core/commands/revoke_api_key.py:60-62 | nothing about a revoked key's row changes in any later run, neither the moment nor the counter |
| ApiKeys.RevokeAnswers | src/app/core/commands/revoke_api_key.py:45-64 | the answers of a revoke in order, what it changes and that it changes nothing else |
| ApiKeys.RevokedAloneOrWithAll | src/app/core/commands/revoke_api_key.py:45-64 | a key becomes revoked exactly by its owner's revoke or by a revoke-all of its owner's keys, at that moment |
| ApiKeys.RevokeAllExact | src/app/outbound/adapters/sqla_api_key_repository.py:48-74 | no active key is left, revoked keys and other users' keys are untouched |
| ApiKeys.RevokeFreesASlot | src/app/core/commands/issue_api_key.py:86-91 | revoking frees exactly one slot, and the next issue is possible |
| ApiKeys.UsageIsTheHistory | src/app/core/common/entities/api_key.py:108-112 | the counter is the number of requests let in with the key, the timestamp that of the last |
| ApiKeyService.ApiKey.Revoke | src/app/core/common/entities/api_key.py:95-96 | sets the moment and nothing else |
| ApiKeyService.ApiKey.RecordUse | src/app/core/common/entities/api_key.py:108-112 | one more use, at that moment |
| ApiKeyService.ApiKeyRepository.RevokeAllForUser | src/app/outbound/adapters/sqla_api_key_repository.py:48-74 | the loop revokes each active key of the user once and leaves all other rows as they are |
| ApiKeyService.ApiKeyRepository.CountActiveForUser | src/app/outbound/adapters/sqla_api_key_repository.py:76-90 | counts the user's unrevoked keys |
| ApiKeyService.IssueApiKey | src/app/core/commands/issue_api_key.py:73-119 | the run's issue step with the errors in the source's order; the stored row field by field, its expiry the days asked for after its creation |
| ApiKeyService.GetCurrentUserId | src/app/outbound/adapters/api_key_identity_provider.py:44-62 | the run's authentication step: its user, and the use recorded and committed |
| ApiKeyService.RevokeApiKey | src/app/core/commands/revoke_api_key.py:45-64 | the run's revoke step: unknown key, another's key, or revoked once |
| ApiKeyService.RemoveAllUserAccess | src/app/outbound/adapters/api_key_access_revoker.py:21-23 | the run's revoke-all step, committed |
| EventDispatch.EveryPairExactlyOnce | src/app/outbound/adapters/hybrid_event_dispatcher.py:64-107 | stage and dispatch between them take every (event, registered handler) pair exactly once: staged when Celery is on and the handler is background |
| EventDispatch.SameTaken | src/app/outbound/adapters/hybrid_event_dispatcher.py:74-107 | the order of the nested loops determines what each phase takes completely |
| EventDispatch.DeliveryNames | src/app/outbound/adapters/hybrid_event_dispatcher.py:84-88 | the message has the event's type, the handler's type and the event's payload, each in its place |
| EventDispatch.DeliveryFindsItsHandler | src/app/outbound/adapters/hybrid_event_dispatcher.py:84-88 | looking the message up in the registry finds exactly its handler |
| EventDispatch.InlineCallsName | src/app/outbound/adapters/hybrid_event_dispatcher.py:99-107 | the k-th inline call runs the k-th pair's registered handler on that pair's event |
| EventDispatch.HybridEventDispatcher.Stage | src/app/outbound/adapters/hybrid_event_dispatcher.py:64-88 | one fresh unprocessed row per pair it takes, field by field the event's type and payload and the handler's type, created in order while it ran, and nothing else |
| EventDispatch.HybridEventDispatcher.Dispatch | src/app/outbound/adapters/hybrid_event_dispatcher.py:90-107 | calls the handlers of the pairs it takes, in order, up to and including the first that raises |
| EventDispatch.CollectedOnce | src/app/core/common/entities/base.py:26-34 | over any calls, what was recorded is what was collected followed by what is held |
| EventDispatch.Perform | src/app/core/common/entities/base.py:26-34 | the entity's field and results follow the sequence of calls |
| EventDelivery.StagingRuns | src/app/outbound/adapters/sqla_outbox_repository.py:34-52 | fresh rows can always be staged, and the transaction then holds all of them |
| EventDelivery.EveryPairIsMet | src/app/core/commands/invite_organization_member.py:131-150 | after the commit every pair is left to inline dispatch or held by exactly one row that is pending or published with its content, whatever runs before or after |
| EventDelivery.MetMeans | src/app/outbound/adapters/hybrid_event_dispatcher.py:74-88 | after a committed use case and any further steps, each deferred pair's row is pending, or its task published, with the right fields; all others were never staged |
| EventDelivery.FinishUseCase | src/app/core/commands/invite_organization_member.py:144-150 | collect, stage, commit or roll back, dispatch: on the table and the broker the run of a web transaction, after which every pair is met from then on, or nothing of it is ever relayed |
| EventDelivery.EndTransaction | src/app/outbound/adapters/sqla_outbox_repository.py:34-52 | a session that has only inserted adds exactly its rows or none, and touches no lock |
| EventDelivery.RolledBackEventsAreNotRelayed | src/app/outbound/adapters/hybrid_event_dispatcher.py:64-88 | nothing staged by a transaction that rolls back is ever published |
| NameGrammar.AcceptedIffWords | src/app/core/common/value_objects/organization_name.py:46-60 | the four pattern checks accept exactly non-empty alphanumeric words joined by single separators, at any length |
| NameGrammar.EndIff | src/app/core/common/value_objects/organization_name.py:29-29 | on its own the end pattern also accepts one final newline |
| NameGrammar.JoinParse | src/app/core/common/value_objects/username.py:15-41 | joining the parsed words gives the text back |
| NameGrammar.ParseJoin | src/app/core/common/value_objects/username.py:15-41 | parsing joined words gives the words back |
| NameGrammar.SplitIsUnique | src/app/core/common/value_objects/organization_name.py:24-31 | a text splits into words and separators in one way |
| NameGrammar.StripExact | src/app/core/common/value_objects/organization_name.py:42-44 | stripping removes exactly the spaces at both ends |
| NameGrammar.PaddingIsIgnored | src/app/core/common/value_objects/organization_name.py:42-44 | blanks, tabs and line ends around a text are gone before it is looked at |
| NameGrammar.AlnumAre | src/app/core/common/value_objects/organization_name.py:24-31 | the alphanumeric characters by ASCII code |
| NameGrammar.Complaints | src/app/core/common/value_objects/organization_name.py:46-60 | which of several complaints is made, in plain terms |
| NameGrammar.MadeIff | src/app/core/common/value_objects/organization_name.py:35-60 | a value exists exactly for normalized texts of the right length in that grammar |
| NameGrammar.OrganizationNamesAre | src/app/core/common/value_objects/organization_name.py:21-31 | organization names: stripped, 1 to 100 characters, words joined by single spaces, underscores or hyphens |
| NameGrammar.UsernamesAre | src/app/core/common/value_objects/username.py:11-20 | usernames: as given, 5 to 20 characters, words joined by single dots, underscores or hyphens |
| NameGrammar.MadeOnce | src/app/core/common/value_objects/organization_name.py:35-60 | making a value from a value gives the same value |
| AlertCooldown.TableIsLatestSend | src/app/inbound/http/errors/alerting.py:25-33 | the table agrees with the history: for each type sent, the time of its latest send |
| AlertCooldown.SuppressedIff | src/app/inbound/http/errors/alerting.py:27-33 | a call is suppressed exactly when its type was sent less than one cooldown ago |
| AlertCooldown.SendsInWindow | src/app/inbound/http/errors/alerting.py:27-33 | a window of length w holds at most w / cooldown + 1 sends of one type |
| AlertCooldown.OtherTypesDoNotMatter | src/app/inbound/http/errors/alerting.py:18-20 | leaving out all calls about other types gives the same sends |
| AlertCooldown.AlertCooldown.ShouldSend | src/app/inbound/http/errors/alerting.py:27-33 | answers by the whole history, and remembers a send and nothing else |

## Left out

- HTTP routing, request parsing, dependency injection, settings, logging, metrics, command line and scripts: no hard property.
- The internals of Postgres, SQLAlchemy, Celery, Redis, PyJWT and bcrypt: an atomic table with row locks, a list of published tasks, an ideal signed token, an opaque hash.
- The re-check of a locking select under READ COMMITTED: a batch is taken as one atomic step.
- Celery's own redelivery and retry after publication: it happens behind the broker.
- Overlapping organization commands, requests of one session, and API-key commands: each is one step, as they take no locks on the rows they count.
- OutboxRelay.RunForever: the endless loops are cut off after any number of ticks, and ticks of different workers follow one another; ticks that overlap, and web transactions between them, appear in the protocol's own runs. The sleep between ticks and the loop's cancellation are not modelled.
- OutboxRelay.SqlaOutboxRepository.GetPending: among rows created at the same instant it takes the lowest ids first; the protocol leaves that choice open.
- OrganizationService.InviteOrganizationMember: recording and staging the invitation event are represented by what its answer carries; the branch for an organization that vanished in mid-request cannot be reached under the foreign keys.
- OrganizationService.CreateOrganization: name and description checks are folded into a name that is valid or not; the description itself is not stored.
- The side effect of an inactive caller's organization command, which also removes the caller's sessions: modelled only in AccountService.DeactivateUser.
- AccountService.DeactivateUser: the updated_at timestamp and the row lock are not modelled, and the refusal for system roles does not appear because no role hierarchy entry lets a caller reach it.
- Updating an organization's name and description, activating accounts and changing platform roles: easy members.
- Sessions.CutDown: times are taken to lie after 1970, where cutting down and truncating are the same.
- ApiKeyService.IssueApiKey: resolving the identifier and checking the password are one input; the raw key, its prefix and its label are not modelled.
- EventDelivery.FinishUseCase: the domain rows the transaction writes beside the outbox are not in its state; a commit whose outcome is unknown to the request is not modelled.
- NameGrammar.StripExact: spaces are the characters that Unicode and Python count as whitespace, listed by code point.
- AlertCooldown.SuppressedIff: floating-point seconds are modelled as real numbers.
- Email, phone, label and description values, the profile commands, the password hasher's concurrency, and the matching of constraint names in database errors.
