# Approval-gated writes: a Dafny model

The program is a Discord-operated HR assistant that changes employee records in
an external web application ("DIC"). A change is prepared, confirmed by its
requester with a one-use code, approved by other people, claimed once, dispatched
through a browser, and driven to a durable outcome. This project models that
machinery and proves what it is for.

| file | what it models |
|---|---|
| ApprovalModel | the approval state machine: one pure decision per service operation |
| MemoryStore, SqlStore | the dictionary repository and the three-table repository, as classes over mutable fields, each proved against a value-level specification |
| ApprovalService | the service object, method by method, over the dictionary repository |
| ServiceDecisions | what each service call does to a stored action, in terms of the action and the arguments alone |
| ApprovalProtocol | any number of services over one repository, interleaved at single repository calls; every persistence call may fail before or after its commit, processes may crash anywhere, clocks are arbitrary, the remote system answers as it likes, no lock is assumed |
| ApprovalSafety, ApprovalProvenance, ApprovalOutcome | what every run keeps: at-most-once execution, separation of duty, authorisation of every execution, bounded lives, freshness, outcome fidelity |
| ServiceRuns | an undisturbed service method, and an undisturbed critical section, as short runs of the protocol |
| TableDecisions | what the statements of the three-table repository accept, refuse and leave, whatever is in the tables |
| SqlRefinement, SqlSimulation | the tables refine the dictionaries, operation by operation and in lock step over whole runs; the run theorems carry over to the database |
| DatabaseProvenance | freshness and provenance of what the database committed |
| ApprovalOrder | when the database keeps the order of approvals over a run, and a run in which it does not |
| TargetFingerprint | the target fingerprint and its fail-closed markers |
| WriteReconciliation | one write at the browser adapter: baseline, the page operation with its own reads, dispatch, read-back |
| WriteChecks | which page states let a write through, and which confirm it, deny it or raise |
| WriteEndToEnd, DeliveredRun | the protocol on the database with the adapter behind it: at most one remote write per request, and what a stored status tells about it |
| AuditChain | the hash-chained audit log, its appends, verification and concurrent writers |
| Pagination, PageChecks, ContractScan | complete page collection and what it accepts, the employee list's page arithmetic, the tenant-wide contract scan |
| CanonicalDecimal | the bounded decimal parser and printer |
| Calendar | month and day intervals |
| QueryPlans | the payroll search with its early exit, and both compound query plans with their failures |
| Options, TextOrder | absent values and the order of texts, shared by the others |
| CredentialSubmission | one login attempt and the latch on unknown outcomes |

A run of the protocol is a list of steps, so a lemma about `Run(repo, steps)` for
all `steps` is a statement about every interleaving. Oracles (the remote system,
page reads, clocks, servers, identifiers drawn at random, hash functions) are
parameters. Where a property needs a hash not to collide, the lemma says on which
finite set of materials, so that a hash of 64 digits can meet it; the page digest of
the browser adapter is arbitrary. `AuditChain.AssumptionsAreMet`,
`TargetFingerprint.AssumptionIsMet`, `Pagination.HonestServersExist` and
`DeliveredRun.DeliveredCanBeStoredAsFailed` show that what is assumed does occur.

Some properties do not hold of the code as it is. For each there is a lemma with an
input for which it fails, and one with the exact condition under which it holds:

- *The database reads approvals back in the order they were given.* Condition: the
  approved rows, as written, are ordered by creation time and then row identifier
  (`SqlRefinement.ExactOrder`); so increasing clock stamps suffice and a stamp that
  goes back breaks it (`ApprovalOrder.StampsDecideOrder`). Input: a run with two
  approvals, the second by a clock set back (`ApprovalOrder.OrderCanDiffer`).
- *A success shows a change from what was read before the dispatch.* Condition: not a
  balance correction or role change whose page operation ended in a caught error
  (`WriteReconciliation.ChangeIsShownExactlyWhenAnchored`). Input: one unchanging page
  and an operation stopped before it looked (`WriteReconciliation.IdleSucceeds`).
- *A success was this call's own dispatch.* Condition, for each function and each end of
  the page operation: that end is not a caught error, or no read-back ever confirms the
  function (`WriteReconciliation.SuccessWasSentExactlyWhen`). Input: for every other
  function a page on which the wish came true without this call
  (`WriteReconciliation.UnsentWishSucceeds`).
- *A delivered write is never recorded as a certain failure.* Condition, for each function
  and each end: the page operation did not raise outside the caught classes, or the
  function is disabled (`WriteReconciliation.FailureAfterDispatch`). Input: a notification
  marked read whose answer cannot be decoded
  (`WriteReconciliation.DeliveredCanBeRecordedAsFailed`), and a whole run on the database
  that stores FAILED for it (`DeliveredRun.DeliveredCanBeStoredAsFailed`).
- *One credential submission per process.* Condition: the latch is set. No continuation
  sends the secret again exactly then (`CredentialSubmission.NoFurtherSendExactlyWhenLatched`,
  `CredentialSubmission.OneSubmissionExactlyWhenLatched`); after a send a further one is
  reachable exactly when it ended in a persisted session, a CAPTCHA, an MFA demand or an
  expired password (`CredentialSubmission.SendsAgainExactlyAfter`). Input: two calls that
  end in a CAPTCHA (`CredentialSubmission.CaptchaAllowsASecondSend`).
- *The trusted sequence number fixes an audit log.* Condition: it is zero
  (`AuditChain.SequenceFixesOnlyTheEmptyLog`). Input: for every other length and any two
  inputs, two accepted logs that differ in every event
  (`AuditChain.SequenceAloneIsNotEnough`). The trusted hash does fix the log
  (`AuditChain.HeadAloneFixesLog`).
- *The contract scan accepts every honest employee list.* Condition: the server needs
  at most 100 pages for it (`ContractScan.HonestAccepted`). Input: any 2,001 distinct
  employees on the live list's pages of 20 (`ContractScan.LivePagesHoldTwoThousand`).
- *Adding months in two steps is adding them in one.* Condition: the month in between
  is long enough for the day (`Calendar.AddMonthsInSteps`). Input: 31 January 2023, one
  month and one month (`Calendar.StepsCanClamp`).

`dafny verify dfyconfig.toml` checks the project.

## Model

| member | source | states |
|---|---|---|
| ApprovalModel.DecisionsAreLegal | src/bh_dic/approvals/service.py:154-427 | every write of every operation keeps separation of duty, raises the version by exactly one, strictly lowers the rank, follows the status graph, only grows the approvals and keeps the action's identity |
| ApprovalModel.ExecutingNeedsFreshTarget | src/bh_dic/approvals/service.py:276-312 | EXECUTING is decided only by begin, with writes enabled, from APPROVED, before expiry, on the prepared fingerprint, and only behind an idempotency claim |
| ApprovalModel.PreparedIsWellFormed | src/bh_dic/approvals/service.py:78-146 | a prepared action satisfies every invariant of a stored action |
| ApprovalModel.RankIsNatural | src/bh_dic/approvals/models.py:12-35 | the rank is within 0 and approvals_required + 4 and is zero exactly in the terminal statuses |
| ApprovalService.Service.Prepare | src/bh_dic/approvals/service.py:78-146 | succeeds exactly on complete arguments, a positive lifetime, a key of 16 to 200 characters and a fresh identifier and key; then stores exactly the PENDING action these arguments describe, expiring after the given or default lifetime; failure changes nothing |
| ApprovalService.Service.RequireActiveOrExpire | src/bh_dic/approvals/service.py:412-427 | an overdue active action is expired as a side effect, an inactive one refused, a live one left alone |
| ApprovalService.Service.Confirm | src/bh_dic/approvals/service.py:154-195 | answer and new store are those of the decision on the stored action |
| ApprovalService.Service.Approve | src/bh_dic/approvals/service.py:197-239 | answer and new store are those of the decision on the stored action |
| ApprovalService.Service.Reject | src/bh_dic/approvals/service.py:241-274 | answer and new store are those of the decision on the stored action |
| ApprovalService.Service.BeginExecution | src/bh_dic/approvals/service.py:276-312 | answer and new store are those of the decision, the claim and the CAS, in that order |
| ApprovalService.Service.CompleteSuccess | src/bh_dic/approvals/service.py:314-339 | answer and new store are those of the decision, whatever the time |
| ApprovalService.Service.CompleteFailure | src/bh_dic/approvals/service.py:341-363 | answer and new store are those of the decision, whatever the time |
| ApprovalService.Service.Reconcile | src/bh_dic/approvals/service.py:365-387 | answer and new store are those of the decision, whatever the time |
| ApprovalService.Service.ExpirePending | src/bh_dic/approvals/service.py:389-410 | expires exactly the overdue active actions, returns their number, changes nothing else |
| ServiceDecisions.ConfirmSucceedsExactlyWhen | src/bh_dic/approvals/service.py:154-195 | succeeds exactly for the requester's first confirmation, code and text matching, enabled and in time, and then changes only status, consumption time and version |
| ServiceDecisions.ConfirmRefusals | src/bh_dic/approvals/service.py:154-195 | the error of every other confirmation, and an overdue action expired on the way |
| ServiceDecisions.ApproveSucceedsExactlyWhen | src/bh_dic/approvals/service.py:197-239 | succeeds exactly for somebody else's first approval, by an eligible role, of a confirmed action that still needs one, and then appends it; APPROVED exactly with the required number |
| ServiceDecisions.ApproveRefusals | src/bh_dic/approvals/service.py:197-239 | the error of every other approval |
| ServiceDecisions.RejectSucceedsExactlyWhen | src/bh_dic/approvals/service.py:241-274 | succeeds exactly for the requester or somebody eligible who has not approved, with a reason and in time, enabled or not, and then stores who, when and why |
| ServiceDecisions.RejectRefusals | src/bh_dic/approvals/service.py:241-274 | the error of every other rejection |
| ServiceDecisions.BeginSucceedsExactlyWhen | src/bh_dic/approvals/service.py:276-312 | succeeds exactly for an approved, unexpired action on its prepared target with its key unclaimed, and then claims the key and stores EXECUTING |
| ServiceDecisions.BeginRefusals | src/bh_dic/approvals/service.py:276-312 | the error of every other begin, and what it stores: EXPIRED, STALE or nothing |
| ServiceDecisions.CompleteSuccessExactly | src/bh_dic/approvals/service.py:314-339 | only EXECUTING completes, to SUCCEEDED or UNKNOWN, each text in its own field |
| ServiceDecisions.CompleteFailureExactly | src/bh_dic/approvals/service.py:341-363 | only EXECUTING fails, to FAILED or UNKNOWN |
| ServiceDecisions.ReconcileExactly | src/bh_dic/approvals/service.py:365-387 | only UNKNOWN is reconciled, to SUCCEEDED or RECONCILED_NOT_APPLIED |
| ServiceDecisions.ExpiryExactly | src/bh_dic/approvals/service.py:389-410 | expiry touches the open actions at or past their time, and only status and version |
| ServiceDecisions.UnknownActionsAreRefused | src/bh_dic/approvals/service.py:148-152 | a missing action is reported as such, after the kill switch |
| ServiceRuns.CallIsPerform | src/bh_dic/approvals/service.py:154-387 | the three protocol steps of an undisturbed call end in the store the method produces and commit exactly the value it stores |
| ServiceRuns.UndisturbedWriteCompletes | src/bh_dic/application.py:3452-3538 | from an approved action on an unchanged target, an undisturbed critical section dispatches once and stores and reports SUCCEEDED when verified, UNKNOWN when not |
| ServiceRuns.UndisturbedRecoveryCompletes | src/bh_dic/application.py:3598-3648 | after an ambiguous answer it stores UNKNOWN, SUCCEEDED once the read-back confirms, and never dispatches again |
| ServiceRuns.UndisturbedFailureCompletes | src/bh_dic/application.py:3468-3510 | failed preparation and deterministic errors store FAILED, report nothing and dispatch nothing more |
| ServiceRuns.PersistenceFails | src/bh_dic/application.py:3511-3538 | a result that cannot be stored is followed by recording an uncertain outcome, never by a failure |
| ServiceRuns.MarkingFails | src/bh_dic/application.py:3598-3612 | when that cannot be stored either, the action stays EXECUTING and nothing is reported |
| ServiceRuns.PromotionFails | src/bh_dic/application.py:3630-3648 | a confirmation that cannot be stored is reported as UNKNOWN |
| ServiceRuns.ExpiryPlansExactly | src/bh_dic/approvals/service.py:389-410 | one expiry is planned for each overdue active action listed, in order |
| MemoryStore.InMemoryApprovalRepository.Insert | src/bh_dic/approvals/storage.py:43-50 | a duplicate identifier or key is refused and nothing changes; otherwise action and reservation are added |
| MemoryStore.InMemoryApprovalRepository.Replace | src/bh_dic/approvals/storage.py:56-65 | compare-and-swap: the new value is stored only on the expected version and only one version ahead |
| MemoryStore.InMemoryApprovalRepository.ClaimIdempotency | src/bh_dic/approvals/storage.py:67-72 | granted exactly when the key was never claimed |
| MemoryStore.InMemoryApprovalRepository.ListActions | src/bh_dic/approvals/storage.py:74-76 | every stored action exactly once |
| ServiceDecisions.ReplaceExactly | src/bh_dic/approvals/storage.py:56-65 | exactly which replacements are accepted, and the error of the others |
| ServiceDecisions.InsertExactly | src/bh_dic/approvals/storage.py:43-50 | exactly which insertions are accepted, and the error of the others |
| SqlStore.SqlAlchemyApprovalRepository.Insert | src/bh_dic/approvals/storage.py:109-141 | all rows of the action or, on a violated constraint, none |
| SqlStore.SqlAlchemyApprovalRepository.Get | src/bh_dic/approvals/storage.py:143-151 | the domain value the rows denote, or the decoding error |
| SqlStore.SqlAlchemyApprovalRepository.Replace | src/bh_dic/approvals/storage.py:153-196 | conditional update and both synchronisations in one transaction; any failure leaves all three tables unchanged |
| SqlStore.SqlAlchemyApprovalRepository.SyncDecisions | src/bh_dic/approvals/storage.py:240-253 | adds the missing decision rows only, under the unique constraint |
| SqlStore.SqlAlchemyApprovalRepository.SyncExecution | src/bh_dic/approvals/storage.py:256-279 | brings the one execution row up to date, or fails when there is none |
| SqlStore.SqlAlchemyApprovalRepository.ClaimIdempotency | src/bh_dic/approvals/storage.py:198-229 | one execution row per action and per key |
| SqlStore.ResultRoundTrip | src/bh_dic/approvals/storage.py:87-100 | a stored result decodes to itself |
| TableDecisions.ClaimExactly | src/bh_dic/approvals/storage.py:198-229 | granted exactly for the action that carries the key, with no execution row for either, and then adds one CLAIMED row |
| TableDecisions.ReplaceRefusals | src/bh_dic/approvals/storage.py:153-196 | version skew, conflict and key clash are told apart |
| TableDecisions.ReplaceLeaves | src/bh_dic/approvals/storage.py:153-196 | a replacement writes its action row, only adds decision rows, and touches no other execution row |
| TableDecisions.MissingClaimIsRefused | src/bh_dic/approvals/storage.py:256-279 | execution state without a claim is refused exactly then |
| TableDecisions.InsertExactly | src/bh_dic/approvals/storage.py:109-141 | a prepared action with a fresh identifier and key becomes one row, any other is refused |
| TableDecisions.GetRaises | src/bh_dic/approvals/storage.py:305-346 | reading raises exactly on a result document without its text |
| ApprovalSafety.RunsKeepInv | src/bh_dic/approvals/service.py:57-427 | the invariant behind the run theorems holds after every interleaving |
| ApprovalSafety.SwapIsLegal | src/bh_dic/approvals/storage.py:56-65 | a CAS that succeeds replaces exactly the value the call had read, however long ago |
| ApprovalSafety.AtMostOnceExecution | src/bh_dic/approvals/service.py:276-312 | over every run each action and each idempotency key enters EXECUTING at most once, and each action is dispatched at most once; no lock is used |
| ApprovalSafety.ExecutionsWereClaimed | src/bh_dic/approvals/service.py:303-312 | everything dispatched, or with an execution outcome, was committed as EXECUTING under a granted key |
| ApprovalSafety.SeparationOfDuty | src/bh_dic/approvals/service.py:154-274 | every committed value: distinct approvers, none the requester; APPROVED or later means confirmed and exactly the required number; unconfirmed means no approvals; a rejecter never approved; approvals only grow |
| ApprovalSafety.LifeIsBounded | src/bh_dic/approvals/service.py:154-427 | each commit is one legal step from the value it read, the rank falls, and no version exceeds approvals_required + 5 |
| ApprovalSafety.OutcomesAreFinal | src/bh_dic/approvals/models.py:26-35 | terminal statuses are never left and UNKNOWN only to SUCCEEDED or RECONCILED_NOT_APPLIED |
| ApprovalSafety.ExecutionIsFresh | src/bh_dic/approvals/service.py:293-301 | every committed EXECUTING came from begin, enabled, unexpired, on the prepared fingerprint |
| ApprovalProvenance.RunsKeepProvenance | src/bh_dic/approvals/service.py:154-274 | every confirmation, approval and rejection in any committed value goes back to a committed call with the matching actor and verdicts |
| ApprovalProvenance.ExecutionIsAuthorised | src/bh_dic/approvals/service.py:154-312 | behind every execution there are committed calls: the requester's confirmation and each approval by a different eligible person, all before expiry |
| ApprovalProvenance.RejectionIsAuthorised | src/bh_dic/approvals/service.py:241-274 | every rejection goes back to a committed call by the requester or someone eligible, with a reason |
| ApprovalOutcome.RunsAreFaithful | src/bh_dic/application.py:3452-3538 | what each point of the critical section knows about its action holds in every interleaving |
| ApprovalOutcome.OutcomeFidelity | src/bh_dic/application.py:3484-3655 | after a returned or ambiguous execution the stored status is EXECUTING, SUCCEEDED or UNKNOWN whatever persistence did; SUCCEEDED needs a verified postcondition or a confirming read-back; RECONCILED_NOT_APPLIED is never written; reports agree with the store |
| ApprovalOutcome.CommitHonest | src/bh_dic/application.py:3598-3648 | the decision table of one commit inside the critical section |
| SqlRefinement.GetRefines | src/bh_dic/approvals/storage.py:305-346 | reading the rows gives back the reference action, up to approval order |
| SqlRefinement.ExactOrder | src/bh_dic/approvals/storage.py:310-318 | the order is exact if and only if the approved rows are already in reader order |
| SqlRefinement.StampsDecide | src/bh_dic/approvals/storage.py:310-318 | increasing approval times read back exactly, a time that goes back never does |
| SqlRefinement.SyncDecisionsRefines | src/bh_dic/approvals/storage.py:240-253 | insert-only synchronisation suffices: the decision rows then match the new value and at most one row was added |
| SqlRefinement.RejectionRefines | src/bh_dic/database/models.py:220-222 | the rejection row never meets the unique constraint, because a rejecter never approved |
| SqlRefinement.SyncExecutionRefines | src/bh_dic/approvals/storage.py:256-279 | the missing-claim error cannot occur, and the execution row mirrors the new status |
| SqlRefinement.InsertRefines | src/bh_dic/approvals/storage.py:109-141 | both stores accept and refuse the same insertions and still correspond |
| SqlRefinement.ReplaceRefines | src/bh_dic/approvals/storage.py:153-196 | a CAS that succeeds on the dictionary succeeds on the tables and they still correspond |
| SqlRefinement.ReplaceConflicts | src/bh_dic/approvals/storage.py:175-190 | a stale version is refused by both with the same error |
| SqlRefinement.ClaimRefines | src/bh_dic/approvals/storage.py:198-229 | both stores grant the same claims |
| SqlSimulation.DecideAlike | src/bh_dic/approvals/service.py:154-427 | no decision depends on the order of the approvals |
| SqlSimulation.DatabaseSimulates | src/bh_dic/approvals/storage.py:103-346 | every run on the tables proceeds in lock step with the same run on the dictionaries: processes, dispatches, grants, reports, commits and the calls behind the commits |
| SqlSimulation.DatabaseExecutesAtMostOnce | src/bh_dic/approvals/service.py:276-312 | at-most-once execution and dispatch on the database |
| SqlSimulation.DatabaseSeparatesDuty | src/bh_dic/approvals/service.py:154-274 | the whole duty predicate for every value the database committed, distinct approvers and the rejection equivalence included, and approvals that only grow from one commit of an action to the next |
| SqlSimulation.DatabaseLivesAreBounded | src/bh_dic/approvals/service.py:154-427 | growing bounded versions and final terminal statuses on the database |
| SqlSimulation.DatabaseOutcomeFidelity | src/bh_dic/application.py:3484-3655 | outcome fidelity as the status column shows it: also that RECONCILED_NOT_APPLIED is never written and that every report agrees with the rows |
| DatabaseProvenance.DatabaseKeepsProvenance | src/bh_dic/approvals/service.py:154-274 | every confirmation, approval and rejection the database committed goes back to a call it committed |
| DatabaseProvenance.DatabaseExecutionIsAuthorised | src/bh_dic/approvals/service.py:154-312 | behind every execution on the database: the requester's confirmation and each approval by a different eligible person, before expiry |
| DatabaseProvenance.DatabaseRejectionIsAuthorised | src/bh_dic/approvals/service.py:241-274 | behind every rejection on the database: a call by the requester or someone eligible, with a reason |
| DatabaseProvenance.DatabaseExecutionIsFresh | src/bh_dic/approvals/service.py:293-301 | every EXECUTING on the database came from begin, enabled, unexpired, on the prepared fingerprint |
| SqlSimulation.OnlyConflictsFail | src/bh_dic/database/models.py:220-240 | in any run a CAS on the database fails only by version conflict: no unique constraint, no missing claim |
| SqlSimulation.DatabaseReadsBack | src/bh_dic/approvals/storage.py:143-151 | everything stored can be read back in any run, exactly so when the approvals are in timestamp order |
| ApprovalOrder.StampsDecideOrder | src/bh_dic/approvals/storage.py:305-346 | the same over every run on the database against the same run on the dictionaries |
| ApprovalOrder.OrderCanDiffer | src/bh_dic/approvals/service.py:197-239 | in one run, prepared, confirmed and approved twice with the clock set back, the two stores disagree on the order |
| SqlSimulation.ExecutionRowsFollow | src/bh_dic/approvals/storage.py:256-279 | in any run every column of an execution row is what the status and results of its action call for |
| SqlSimulation.ActionRowsCarry | src/bh_dic/approvals/storage.py:109-196 | in any run every column of an action row is the reference action's, and a rejection row says who, when and why |
| TargetFingerprint.MarkedExactlyWhenUnstable | src/bh_dic/application.py:3737-3805 | validation succeeds exactly on a stable snapshot; otherwise, without validation, the material carries a marker |
| TargetFingerprint.SnapshotExactly | src/bh_dic/application.py:3737-3805 | without validation a snapshot exists exactly unless a read breaks or a digest is none, a missing or refused target included, and holds these fields and markers |
| TargetFingerprint.FingerprintMatchesExactly | src/bh_dic/application.py:3737-3788 | the later fingerprint equals the prepared one exactly for the same function and employee, a stable snapshot, the same digest and local state, short of a collision between the two documents |
| TargetFingerprint.UnreadableTargetGoesStale | src/bh_dic/approvals/service.py:293-301 | an approved action whose target is gone, refused, unavailable or unstable becomes STALE, short of a collision between its two documents |
| TargetFingerprint.ClaimNeedsTheSameTarget | src/bh_dic/application.py:3452-3468 | begin goes on to claim only on the unchanged target, short of a collision between its two documents |
| TargetFingerprint.AssumptionIsMet | src/bh_dic/application.py:3737-3788 | a hash of 64 digits and two different snapshots, one of them unstable, for which the assumption holds |
| WriteReconciliation.PlaywrightAdapter.ExecutePrepared | src/bh_dic/dic/playwright_adapter.py:824-880 | at most one run of the page operation and one dispatch per call, none when closed, disabled or unverifiable, and the verdict of the reconciliation |
| WriteReconciliation.PlaywrightAdapter.RunWrite | src/bh_dic/dic/pages/routes.py:1451-1475 | a page operation that stops early or refuses what it reads dispatches nothing; otherwise at most one dispatch, then its end |
| WriteChecks.CaptureExactly | src/bh_dic/dic/playwright_adapter.py:569-691 | for each function, exactly which page states before the dispatch let it through |
| WriteChecks.SentExactly | src/bh_dic/dic/playwright_adapter.py:824-848 | a write is received exactly from these states, by an enabled function whose page operation is reached and passes its own checks |
| WriteChecks.RefusedBeforeDispatch | src/bh_dic/dic/playwright_adapter.py:824-842 | from any other state the call refuses and nothing is sent: an update that would change nothing, an unlisted employee, a missing row, a flag already set |
| WriteChecks.OwnCheckExactly | src/bh_dic/dic/pages/routes.py:940-975 | exactly when a balance correction or role change passes its own check |
| WriteChecks.EndExactly | src/bh_dic/dic/pages/routes.py:1451-1478 | how the page operation ends in each case |
| WriteChecks.AnswerExactly | src/bh_dic/dic/playwright_adapter.py:843-880 | the answer, from the end of the page operation and the verdict of the read-back |
| WriteChecks.BaselineDigests | src/bh_dic/dic/playwright_adapter.py:595-689 | the digest of a baseline is that of its own last read |
| WriteChecks.NotificationReadBack | src/bh_dic/dic/playwright_adapter.py:1006-1028 | exactly when a read-back confirms, denies or raises |
| WriteChecks.CreationReadBack | src/bh_dic/dic/playwright_adapter.py:1029-1047 | the same for employee creation: one new employee of that name and those values |
| WriteChecks.DeletionReadBack | src/bh_dic/dic/playwright_adapter.py:1055-1083 | the same for employee deletion |
| WriteChecks.StatusReadBack | src/bh_dic/dic/playwright_adapter.py:902-979 | the same for the two status changes |
| WriteChecks.UpdateReadBack | src/bh_dic/dic/playwright_adapter.py:902-979 | the same for the profile update |
| WriteChecks.AccountReadBack | src/bh_dic/dic/playwright_adapter.py:902-979 | the same for account connection and invitation |
| WriteChecks.ContractReadBack | src/bh_dic/dic/playwright_adapter.py:1094-1119 | the same for an identified contract: exactly one row shows the values, on a changed page |
| WriteChecks.NewContractReadBack | src/bh_dic/dic/playwright_adapter.py:1094-1119 | the same for a new contract: exactly one new row shows the values |
| WriteChecks.MaturationReadBack | src/bh_dic/dic/playwright_adapter.py:1146-1165 | the same for a maturation |
| WriteChecks.RoleReadBack | src/bh_dic/dic/playwright_adapter.py:1166-1190 | the same for a role change |
| WriteChecks.BalanceReadBack | src/bh_dic/dic/playwright_adapter.py:1191-1222 | the same for a balance correction |
| WriteChecks.UploadReadBack | src/bh_dic/dic/playwright_adapter.py:1223-1240 | the same for a document upload |
| WriteChecks.MetadataReadBack | src/bh_dic/dic/playwright_adapter.py:1241-1266 | the same for document metadata |
| WriteChecks.RemovalReadBack | src/bh_dic/dic/playwright_adapter.py:1120-1145 | the same for the removals, which are never confirmed |
| WriteReconciliation.NoFalseSuccess | src/bh_dic/dic/playwright_adapter.py:902-1297 | success means the promised value is on the page read after the dispatch and that the page before was different, unless a balance correction or role change ended in a caught error; for any page digest |
| WriteReconciliation.SummarySuccess | src/bh_dic/dic/playwright_adapter.py:902-979 | for the summary functions: postcondition and a changed page, for any digest |
| WriteReconciliation.ContractSuccess | src/bh_dic/dic/playwright_adapter.py:1092-1119 | for contracts: exact values on the identified row of a changed page, or on exactly one new row |
| WriteReconciliation.DocumentSuccess | src/bh_dic/dic/playwright_adapter.py:1223-1266 | for documents: one new row, or exact metadata on a changed page |
| WriteReconciliation.ListSuccess | src/bh_dic/dic/playwright_adapter.py:1006-1165 | for notifications, creations, deletions and maturations: flag or identifier membership changed |
| WriteReconciliation.UnanchoredSuccess | src/bh_dic/dic/pages/routes.py:940-975 | a balance correction or role change that ends normally had read, in the page operation itself, another value than the one then confirmed |
| WriteReconciliation.ChangeIsShownExactlyWhenAnchored | src/bh_dic/dic/playwright_adapter.py:843-880 | for each function and each end of the page operation: every success shows a change exactly unless it is a balance correction or role change that ended in a caught error |
| WriteReconciliation.IdleSucceeds | src/bh_dic/dic/playwright_adapter.py:843-868 | for those two functions one unchanging page and an operation stopped early by a caught error end in success |
| WriteReconciliation.SuccessWasSentExactlyWhen | src/bh_dic/dic/playwright_adapter.py:843-868 | for each function and each end of the page operation: every success was dispatched by this call exactly when that end is not a caught error or no read-back ever confirms the function |
| WriteReconciliation.UnsentWishSucceeds | src/bh_dic/dic/playwright_adapter.py:843-868 | for every confirmable function and every caught error a success without a dispatch exists |
| WriteReconciliation.SuccessNeedsNoDispatch | src/bh_dic/dic/playwright_adapter.py:843-868 | a success without a dispatch exists |
| WriteReconciliation.FailureAfterDispatch | src/bh_dic/application.py:3504-3510 | for each function and each end: no delivered write is recorded as a certain failure exactly when that end is in the caught classes or the function is disabled |
| WriteReconciliation.DeliveredCanBeRecordedAsFailed | src/bh_dic/application.py:3504-3510 | and a delivered notification change is, when decoding the answer exceeds the recursion limit |
| WriteReconciliation.ReadBackConfirmsOnlyUnanchored | src/bh_dic/dic/playwright_adapter.py:1299-1309 | the later read-back without a baseline confirms only balance corrections and role changes |
| WriteReconciliation.RemovalsAreNeverConfirmed | src/bh_dic/dic/playwright_adapter.py:1120-1145 | contract and document deletions are never dispatched here and never confirmed by a read-back |
| WriteReconciliation.CreationsAreNeverDenied | src/bh_dic/dic/playwright_adapter.py:1029-1266 | functions that prove presence never report NOT_APPLIED |
| WriteEndToEnd.AtMostOneRemoteWrite | src/bh_dic/application.py:3452-3538 | over every run on the database and whatever the adapter meets: at most one remote write per request, one exactly when a dispatch of it was delivered |
| WriteEndToEnd.StatusTellsTheWrite | src/bh_dic/application.py:3484-3655 | a dispatched request is stored as EXECUTING, SUCCEEDED, UNKNOWN or FAILED; SUCCEEDED means the promised value was seen after the dispatch, FAILED that nothing was delivered or its answer broke outside the caught classes |
| WriteEndToEnd.DeliveredIsNeverForgotten | src/bh_dic/application.py:3484-3655 | a delivered write is stored as EXECUTING, SUCCEEDED or UNKNOWN, or as FAILED after such a broken answer |
| DeliveredRun.DeliveredCanBeStoredAsFailed | src/bh_dic/application.py:3504-3510 | a run in which one write is delivered and the database stores FAILED |
| AuditChain.VerifyEvents | src/bh_dic/audit/chain.py:63-130 | accepts exactly the chained logs that agree with the given state; otherwise last_sequence is the longest chained prefix, failure_sequence one more, with the right reason |
| AuditChain.FaultsInOrder | src/bh_dic/audit/chain.py:74-104 | a wrong sequence is reported before a wrong previous hash, and that before a wrong event hash |
| AuditChain.SameHeadSameLog | src/bh_dic/audit/chain.py:74-104 | two chained logs of one length with one last hash are equal, short of a collision between their own materials |
| AuditChain.HeadAloneFixesLog | src/bh_dic/audit/chain.py:115-123 | the trusted hash alone fixes the log, short of a collision between the two logs and up to a hash that prints as genesis |
| AuditChain.SequenceAloneIsNotEnough | src/bh_dic/audit/chain.py:106-114 | for any positive length and any two inputs two accepted logs differ in every event |
| AuditChain.SequenceFixesOnlyTheEmptyLog | src/bh_dic/audit/chain.py:106-114 | all accepted logs of a length are equal exactly for length zero |
| AuditChain.OnlyTheAppendedLogVerifies | src/bh_dic/audit/chain.py:63-130 | with the state the appends left, the only rows accepted are the rows appended, short of a collision between the two logs |
| AuditChain.AssumptionsAreMet | src/bh_dic/audit/chain.py:63-130 | a hash of 64 digits, an appended log of two events and a relinked forgery of it for which all the assumptions hold, and which the state tells apart |
| AuditChain.AppendsVerify | src/bh_dic/audit/service.py:36-79 | after any appends the log verifies, and when the materials hashed do not collide it lists the inputs with fresh identifiers in order |
| AuditChain.AppendsStaySound | src/bh_dic/audit/service.py:36-79 | after any appends the log verifies, whatever the hash collides on |
| AuditChain.FreshAppendSucceeds | src/bh_dic/audit/service.py:36-79 | on a sound log an append fails exactly when its event identifier was used, short of a collision with the log |
| AuditChain.RacesStaySound | src/bh_dic/audit/service.py:36-79 | concurrent writers without a lock: the primary key alone keeps the log verifiable |
| AuditChain.AuditService.AppendEvent | src/bh_dic/audit/service.py:36-103 | one linked row and the new state, or nothing |
| AuditChain.AppendExactly | src/bh_dic/audit/service.py:36-79 | on any log, exactly which appends succeed, and the row and state they leave |
| AuditChain.AuditService.Verify | src/bh_dic/audit/service.py:105-138 | valid exactly when there is a chain state and the rows chain up to it; otherwise the longest chained prefix, the failing sequence and the first fault, or the part of the state that disagrees, or the missing state |
| Pagination.PageFrom | src/bh_dic/dic/paginated_capture.py:284-338 | an accepted page is within every bound and has a next link exactly before the last page |
| PageChecks.UrlExactly | src/bh_dic/dic/paginated_capture.py:205-247 | exactly which URLs are accepted: first-party, the right path, allowed keys once each, the employee, the page |
| PageChecks.PageExactly | src/bh_dic/dic/paginated_capture.py:284-338 | exactly which documents are accepted, and the page they make |
| PageChecks.FetchExactly | src/bh_dic/dic/paginated_capture.py:413-465 | exactly which fetches succeed |
| PageChecks.StrIsDecimal | src/bh_dic/dic/paginated_capture.py:242-246 | page numbers are compared as decimals without leading zeros |
| Pagination.CollectCompletePages | src/bh_dic/dic/paginated_capture.py:468-515 | yields the items of the pages followed, with one fetch per further page |
| Pagination.SuccessIsComplete | src/bh_dic/dic/paginated_capture.py:468-515 | any server: success means consecutive pages up to the last, constant totals, a query that changes only in its page, and length equal to the total |
| Pagination.HonestFromFirstPage | src/bh_dic/dic/paginated_capture.py:468-515 | an honest paginator from page 1 yields exactly its list, after last_page - 1 fetches |
| Pagination.HonestFromLaterPage | src/bh_dic/dic/paginated_capture.py:512-514 | from any later page the collection is rejected |
| Pagination.HonestServersExist | src/bh_dic/dic/paginated_capture.py:468-515 | a two-page paginator and its first page meet the honesty assumptions |
| Pagination.RecordsFromItems | src/bh_dic/dic/employee_resource_capture.py:149-203 | one record per item, accepted exactly when all are valid and all identifiers distinct |
| Pagination.ReadRecords | src/bh_dic/dic/pages/routes.py:1026-1046 | a complete read has exactly total records with distinct identifiers; it fails exactly when the collection fails, an item is invalid or an identifier repeats |
| Pagination.PagesTile | src/bh_dic/dic/employee_list_capture.py:701-732 | accepted pages cover 1..total exactly once |
| Pagination.PagesStayInside | src/bh_dic/dic/employee_list_capture.py:716-731 | nothing lies outside 1..total and only an empty list has an empty page |
| PageChecks.ListPageExactly | src/bh_dic/dic/employee_list_capture.py:701-732 | exactly which list pages are accepted, and what they say |
| Pagination.HasNextForms | src/bh_dic/dic/mock.py:319-328 | has_next in its page, product and offset forms agree |
| Pagination.CeilingForm | src/bh_dic/dic/employee_list_capture.py:708-712 | the page and product forms agree for any page size |
| Pagination.ValidateLinks | src/bh_dic/dic/employee_list_capture.py:481-528 | accepted exactly when both ends are right and exactly one page link is active, on the current page |
| ContractScan.ScanContracts | src/bh_dic/application.py:3189-3233 | ends within 100 calls for any source; succeeds exactly on complete pages; the records are the contracts ending in the interval, sorted |
| ContractScan.CompleteMeansAll | src/bh_dic/application.py:3189-3231 | distinct identifiers equal in number to the total every page reported |
| ContractScan.UndatedLast | src/bh_dic/application.py:3232 | dated before undated, dates ascending, names ascending within a date |
| ContractScan.SortSorted | src/bh_dic/application.py:3232 | the stable sort orders by the key |
| ContractScan.SortIsStable | src/bh_dic/application.py:3232 | equal keys keep their order |
| ContractScan.KeptExactly | src/bh_dic/application.py:3208-3213 | kept are exactly the contracts ending within the bounds given, both included; undated ones pass no bound |
| ContractScan.HonestAccepted | src/bh_dic/application.py:3189-3231 | a fixed list of distinct employees, served in pages of any size, is accepted and read whole exactly when at most 100 pages hold it |
| ContractScan.LivePagesHoldTwoThousand | src/bh_dic/dic/employee_list_capture.py:701-732 | on the live list's pages of 20 that is exactly at most 2,000 employees |
| CanonicalDecimal.ValueIsKept | src/bh_dic/dic/values.py:8-40 | every accepted text maps to an accepted text of the same number |
| CanonicalDecimal.WrittenIsAccepted | src/bh_dic/dic/values.py:18-34 | white space around, a minus sign, digits without leading zero, perhaps a point and digits: accepted, the digits read as they are |
| CanonicalDecimal.AcceptedIsWritten | src/bh_dic/dic/values.py:18-34 | nothing else is accepted |
| CanonicalDecimal.OutputExactly | src/bh_dic/dic/values.py:37-40 | the output has ASCII digits, no leading zero, no trailing zero or bare point, and no negative zero |
| CanonicalDecimal.EqualExactlyWhenSame | src/bh_dic/dic/values.py:8-40 | outputs are equal exactly when the numbers are |
| CanonicalDecimal.Idempotent | src/bh_dic/dic/values.py:37-40 | canonical text is its own canonical text |
| CanonicalDecimal.BalanceCheckIsNumeric | src/bh_dic/dic/playwright_adapter.py:483-490 | the string comparisons of the balance check decide numeric equality |
| Calendar.MonthIntervalIsTheMonth | src/bh_dic/hr_assistant.py:1207-1209 | a month's interval holds exactly its days |
| Calendar.NextMonthFollows | src/bh_dic/hr_assistant.py:1212-1215 | the next month starts the day after this one ends, unless the calendar ends |
| Calendar.PreviousInvertsNext | src/bh_dic/hr_assistant.py:928-929 | the previous-month step inverts next month from any of its days |
| Calendar.NextInvertsPrevious | src/bh_dic/hr_assistant.py:928-929 | and the other way round |
| Calendar.PreviousExists | src/bh_dic/hr_assistant.py:928-929 | only January of year 1 has no previous month |
| Calendar.PreviousDayIsOneLess | src/bh_dic/hr_assistant.py:928-929 | the day before is one day number less and the day after it is the day itself |
| Calendar.AddMonthsLands | src/bh_dic/hr_assistant.py:1223-1231 | adding months lands on that month index with the day clamped, and raises exactly past year 9999 |
| Calendar.AddMonthsIncreases | src/bh_dic/hr_assistant.py:1223-1231 | strictly later for more months |
| Calendar.AddMonthsNotEarlier | src/bh_dic/hr_assistant.py:1223-1231 | never before today |
| Calendar.OneMonthIsNextMonth | src/bh_dic/hr_assistant.py:1212-1231 | one month ahead lies in the next month's interval |
| Calendar.AddMonthsInSteps | src/bh_dic/hr_assistant.py:1223-1231 | two steps land no later than one, and on the same day exactly when the stop can hold it |
| Calendar.StepsCanClamp | src/bh_dic/hr_assistant.py:1223-1231 | 31 January 2023 by one month twice is 28 March, by two months 31 March |
| Calendar.IntervalsAreOrdered | src/bh_dic/hr_assistant.py:1218-1238 | every interval is ordered and a day count spans that many days |
| Calendar.ThisMonthExactly | src/bh_dic/hr_assistant.py:1221-1222 | this month is exactly the days of today's month |
| Calendar.NextMonthExactly | src/bh_dic/hr_assistant.py:1219-1220 | next month is exactly the days of the month after, and raises in December 9999 |
| Calendar.NextMonthsExactly | src/bh_dic/hr_assistant.py:1223-1231 | the next n months end on today's day, or the last, of the month n later, and raise exactly past year 9999 |
| Calendar.NextDaysExactly | src/bh_dic/hr_assistant.py:1232-1238 | the next n days, 1 to 366, end n days later, and raise exactly past year 9999 |
| Calendar.UnsupportedExactly | src/bh_dic/hr_assistant.py:1218-1238 | nothing but an empty request or a day count outside 1 to 366 is unsupported |
| Calendar.PreviousMonthExactly | src/bh_dic/hr_assistant.py:928-929 | the default payroll period is the month before today's |
| QueryPlans.PayrollForRow | src/bh_dic/application.py:1176-1212 | within three reads the early exit finds the record a search of all years finds and, if an unread older year is inconsistent, the largest record of the newest year that has one; it raises exactly when an inconsistent year comes before any record |
| QueryPlans.RowExactly | src/bh_dic/application.py:1176-1212 | the years read are the given one, or this and the two before; the record has a net amount and the month asked for, none of its year is later by month and publication, and no newer year has one |
| QueryPlans.EarlyExitIsFull | src/bh_dic/application.py:1202-1212 | records of older years never win |
| QueryPlans.FirstMaxIsMax | src/bh_dic/application.py:1206-1211 | the record found has the largest key |
| QueryPlans.FirstMaxIsFirst | src/bh_dic/application.py:1206-1211 | of equal records the first |
| QueryPlans.WorkforcePlan | src/bh_dic/application.py:1001-1067 | within 1 + 4 * 200 reads, one such row per employee in order; none exactly when some contract answer is unusable or some employee's search raises |
| QueryPlans.ComparisonPlan | src/bh_dic/application.py:836-898 | within 1 + 2 * 500 reads, exactly the employees asked for in list order; none exactly when a contract answer of the group or a payroll answer of a candidate is unusable |
| QueryPlans.CandidatesSuffice | src/bh_dic/application.py:854-891 | reading the payrolls of the candidates only loses nobody |
| QueryPlans.SoughtOfHolds | src/bh_dic/application.py:854-891 | the list holds exactly those of the group with a contract ending in the range, both days included, and with or without a payroll of the month as asked |
| CredentialSubmission.WaitForAuthCompletion | src/bh_dic/dic/auth.py:936-991 | the verdict of the first decisive poll before the deadline |
| CredentialSubmission.WaitExactly | src/bh_dic/dic/auth.py:936-991 | the verdict of each decisive poll: expiry, application, CAPTCHA, MFA, anything else, or the deadline |
| CredentialSubmission.PlaywrightAuthenticator.Authenticate | src/bh_dic/dic/auth.py:1050-1200 | at most one dispatch of the secret per run, and only five exits after it |
| CredentialSubmission.ExitsAfterDispatch | src/bh_dic/dic/auth.py:1161-1200 | after a dispatch: AUTHENTICATED exactly by attestation, else unknown outcome, CAPTCHA, MFA or expired password |
| CredentialSubmission.StartExactly | src/bh_dic/dic/auth.py:1050-1082 | how an attempt can end before the login form |
| CredentialSubmission.EntryExactly | src/bh_dic/dic/auth.py:1083-1152 | where the first look at the routes leads |
| CredentialSubmission.FormExactly | src/bh_dic/dic/auth.py:1150-1200 | what the credential form and its one submit lead to |
| CredentialSubmission.DispatchExactly | src/bh_dic/dic/auth.py:1140-1180 | the secret may be out exactly after a prepared submit that was accepted or lost in delivery |
| CredentialSubmission.OtherErrorsMeanNothingSent | src/bh_dic/dic/auth.py:879-911 | any other error means nothing was dispatched |
| CredentialSubmission.DicRuntime.ReconnectDicSession | src/bh_dic/runtime.py:478-515 | exit, counters and latch of one reconnect |
| CredentialSubmission.ReconnectExactly | src/bh_dic/runtime.py:478-515 | exit, latch and counters in each case |
| CredentialSubmission.EnsureExactly | src/bh_dic/dic/playwright_adapter.py:248-330 | a live session needs no attempt, an open circuit allows none, a cancelled attempt is an unknown outcome |
| CredentialSubmission.DicRuntime.ReconnectDic | src/bh_dic/application.py:1579-1709 | the administrator's command and its own latch |
| CredentialSubmission.DicRuntime.StartupStatusProbe | src/bh_dic/runtime.py:589-614 | the startup probe shares the latch |
| CredentialSubmission.ServeExactly | src/bh_dic/application.py:1579-1709 | which commands and probes get through to a reconnect, and what they leave |
| CredentialSubmission.LatchIsForever | src/bh_dic/runtime.py:478-515 | over any calls, once latched no later call reaches ensure_authenticated or sends the secret |
| CredentialSubmission.LatchesExactlyOnUnknown | src/bh_dic/runtime.py:496-514 | which exits latch, exactly |
| CredentialSubmission.SendsAreBounded | src/bh_dic/runtime.py:478-515 | over any calls the sends exceed the unlatched sends by at most one |
| CredentialSubmission.NoFurtherSendExactlyWhenLatched | src/bh_dic/runtime.py:478-515 | after any calls, no continuation sends the secret again exactly when the latch is set |
| CredentialSubmission.OneSubmissionExactlyWhenLatched | src/bh_dic/runtime.py:478-515 | all continuations keep to one submission exactly when the latch is set and at most one was sent |
| CredentialSubmission.SendsAgainExactlyAfter | src/bh_dic/runtime.py:496-514 | after a call that sent the secret a further send is reachable exactly when it ended in a persisted session, a CAPTCHA, an MFA demand or an expired password |
| CredentialSubmission.CaptchaAllowsASecondSend | src/bh_dic/runtime.py:496-514 | two calls that each send the secret |

## Left out

- Export branch of the critical section: it changes nothing remotely, so outcome fidelity does not apply to it.
- Browser, page objects, selectors, scripts and Discord screens: oracles that show a page or raise; the URL and JSON grammars are taken as already split and decoded.
- Encryption, hashing and the confirmation code: parameters or verdicts; collision-freedom is assumed only where a lemma says so, and only of the materials at hand.
- SQLAlchemy sessions: only transactions, unique constraints and the conditional update are modelled; the primary keys of approval and execution rows are taken as never colliding, and `completed_at` is not kept.
- Status and decision columns: enumerations instead of strings, so unreadable column values do not occur; time zones are resolved before the model.
- The service class is written over the dictionary repository only; over the database the protocol and its simulation take its place.
- ApprovalOutcome.OutcomeFidelity: assumes that only critical sections complete or reconcile actions, as the application does; an operator calling those service methods directly is outside it.
- WriteEndToEnd.AtMostOneRemoteWrite: one run of a page operation counts as at most one write; what its single submit triggers remotely is outside.
- WriteReconciliation.ReadBack: expected values are texts; the boolean contract field is compared as text here, and the two ways of reading a role control, its checked state and its aria attribute, are one flag.
- WriteReconciliation.SuccessWasSentExactlyWhen: a page operation that ends normally past its own checks is taken to have reached the remote system; the click that returned is the receipt.
- WriteReconciliation.PlaywrightAdapter.ExecutePrepared: the read retries and circuit breakers around it are part of the read and write oracles.
- AuditChain.AuditService.Verify: rows are well-formed events; a row the event schema refuses raises before verification starts.
- Pagination.CollectCompletePages: item schemas and the employee-name test of a query value are parameters.
- CanonicalDecimal.ValueIsKept: the Unicode tables are a parameter that agrees with ASCII on the ASCII digits and signs.
- QueryPlans.WorkforcePlan: the authorisation of each employee's reads, which can also refuse the plan, and the other columns of a row are not modelled.
- QueryPlans.ComparisonPlan: choosing which matching contract is shown, and the rendering, are not modelled.
- CredentialSubmission.PlaywrightAuthenticator.Authenticate: the e-mail subflow before the credential page is one oracle answer.
- Process-local locks: the protocol does without the approval lock; reconnects are taken one at a time, as their lock makes them.
- Policy catalogue and engine, intent parsing, name matching, configuration, logging and command line: parameters, or left out as they would add only easy members.
