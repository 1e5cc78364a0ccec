/** The approval state machine as one pure decision per service operation.

    A service operation reads an action, decides, and writes at most one
    replacement.  `Decide` is that decision; the repositories, the service and
    the interleaved protocol are all built on it. */
module ApprovalModel {
  import opened Options

  type Id = string
  type Instant = int

  datatype Result<+T> = Ok(value: T) | Raise(error: Error)

  datatype Error =
    | ActionNotFound
    | InvalidState
    | Unauthorized
    | ExpiredAction
    | InvalidConfirmation
    | DuplicateExecution
    | WriteDisabled
    | StaleTarget
    | EmptyReason
    | InvalidArgument
    | DuplicateActionId
    | DuplicateIdempotencyKey
    | MissingAction
    | ConcurrentUpdate
    | VersionSkew
    | UniqueViolation
    | MissingClaim
    | StorageFailure

  datatype Status =
    | Pending
    | PartiallyApproved
    | Approved
    | Executing
    | Succeeded
    | Failed
    | Rejected
    | Expired
    | Stale
    | Unknown
    | ReconciledNotApplied

  /** TERMINAL_STATUSES. */
  predicate Terminal(s: Status) {
    s.Succeeded? || s.Failed? || s.Rejected? || s.Expired? || s.Stale? || s.ReconciledNotApplied?
  }

  /** Still open to confirmation, approval, rejection and expiry. */
  predicate Active(s: Status) {
    s.Pending? || s.PartiallyApproved? || s.Approved?
  }

  /** Statuses an action can have only after it was claimed for execution. */
  predicate Execution(s: Status) {
    s.Executing? || s.Succeeded? || s.Failed? || s.Unknown? || s.ReconciledNotApplied?
  }

  datatype ApprovalRecord = ApprovalRecord(approverId: Id, approvedAt: Instant)

  /** The fields no operation reads or changes after preparation. */
  datatype Envelope = Envelope(
    correlationId: string,
    functionId: string,
    guildId: Id,
    channelId: Id,
    targetEmployeeId: Option<string>,
    encryptedParameters: seq<bv8>,
    redactedDiff: map<string, string>,
    motivation: Option<string>,
    confirmationSalt: seq<bv8>,
    confirmationDigest: seq<bv8>)

  datatype PendingAction = PendingAction(
    actionId: Id,
    requesterId: Id,
    envelope: Envelope,
    stateFingerprint: string,
    status: Status,
    createdAt: Instant,
    expiresAt: Instant,
    approvalsRequired: nat,
    approvals: seq<ApprovalRecord>,
    confirmationConsumedAt: Option<Instant>,
    idempotencyKey: string,
    executionResult: Option<string>,
    postconditionResult: Option<string>,
    rejectionReason: Option<string>,
    rejectedBy: Option<Id>,
    rejectedAt: Option<Instant>,
    version: int)
  {
    predicate Confirmed() { confirmationConsumedAt.Some? }

    predicate ApprovedBy(actor: Id) { exists r <- approvals :: r.approverId == actor }
  }

  /** One call of the service, with the verdicts of the parts outside the
      model: the confirmation digest, the function catalogue and the roles. */
  datatype Op =
    | Confirm(actor: Id, codeMatches: bool, specKnown: bool, textMatches: bool)
    | Approve(actor: Id, specKnown: bool, rolesKnown: bool, eligible: bool)
    | Reject(actor: Id, specKnown: bool, rolesKnown: bool, eligible: bool, reason: string)
    | Begin(currentFingerprint: string)
    | CompleteSuccess(executionResult: string, postconditionResult: string, verified: bool)
    | CompleteFailure(result: string, uncertain: bool)
    | Reconcile(met: bool, result: string)
    | Expire

  /** What a service call does with the action it read. */
  datatype Decision =
    | Refuse(error: Error)
    | Write(next: PendingAction, raises: Option<Error>)
    | ClaimThenWrite(next: PendingAction)

  function Bump(a: PendingAction, status: Status): PendingAction {
    a.(status := status, version := a.version + 1)
  }

  /** `_require_active`: None when the operation may go on. */
  function RequireActive(a: PendingAction, now: Instant): Option<Decision> {
    if !Active(a.status) then Some(Refuse(InvalidState))
    else if now >= a.expiresAt then Some(Write(Bump(a, Expired), Some(ExpiredAction)))
    else None
  }

  function DecideConfirm(op: Op, a: PendingAction, now: Instant): Decision
    requires op.Confirm?
  {
    match RequireActive(a, now)
    case Some(stop) => stop
    case None =>
      if op.actor != a.requesterId then Refuse(Unauthorized)
      else if a.Confirmed() then Refuse(InvalidConfirmation)
      else if !op.codeMatches then Refuse(InvalidConfirmation)
      else if !op.specKnown then Refuse(InvalidState)
      else if !op.textMatches then Refuse(InvalidConfirmation)
      else
        var status := if a.approvalsRequired == 0 then Approved else Pending;
        Write(Bump(a, status).(confirmationConsumedAt := Some(now)), None)
  }

  function DecideApprove(op: Op, a: PendingAction, now: Instant): Decision
    requires op.Approve?
  {
    match RequireActive(a, now)
    case Some(stop) => stop
    case None =>
      if !a.Confirmed() then Refuse(InvalidState)
      else if a.approvalsRequired == 0 then Refuse(InvalidState)
      else if a.status == Approved then Refuse(InvalidState)
      else if op.actor == a.requesterId then Refuse(Unauthorized)
      else if a.ApprovedBy(op.actor) then Refuse(Unauthorized)
      else if !op.specKnown then Refuse(InvalidState)
      else if !op.rolesKnown then Refuse(Unauthorized)
      else if !op.eligible then Refuse(Unauthorized)
      else
        var approvals := a.approvals + [ApprovalRecord(op.actor, now)];
        var status := if |approvals| >= a.approvalsRequired then Approved else PartiallyApproved;
        Write(Bump(a, status).(approvals := approvals), None)
  }

  function DecideReject(op: Op, a: PendingAction, now: Instant): Decision
    requires op.Reject?
  {
    match RequireActive(a, now)
    case Some(stop) => stop
    case None =>
      if !op.specKnown then Refuse(InvalidState)
      else if !op.rolesKnown then Refuse(Unauthorized)
      else if a.ApprovedBy(op.actor) then Refuse(InvalidState)
      else if op.actor != a.requesterId && !op.eligible then Refuse(Unauthorized)
      else if op.reason == "" then Refuse(EmptyReason)
      else
        Write(Bump(a, Rejected).(rejectionReason := Some(op.reason),
                                 rejectedBy := Some(op.actor),
                                 rejectedAt := Some(now)), None)
  }

  function DecideBegin(op: Op, a: PendingAction, now: Instant): Decision
    requires op.Begin?
  {
    if a.status in {Executing, Succeeded, Unknown, ReconciledNotApplied} then Refuse(DuplicateExecution)
    else
      match RequireActive(a, now)
      case Some(stop) => stop
      case None =>
        if a.status != Approved then Refuse(InvalidState)
        else if op.currentFingerprint != a.stateFingerprint then Write(Bump(a, Stale), Some(StaleTarget))
        else ClaimThenWrite(Bump(a, Executing))
  }

  function Decide(op: Op, writesEnabled: bool, a: PendingAction, now: Instant): Decision {
    if (op.Confirm? || op.Approve? || op.Begin?) && !writesEnabled then Refuse(WriteDisabled)
    else
      match op
      case Confirm(_, _, _, _) => DecideConfirm(op, a, now)
      case Approve(_, _, _, _) => DecideApprove(op, a, now)
      case Reject(_, _, _, _, _) => DecideReject(op, a, now)
      case Begin(_) => DecideBegin(op, a, now)
      case CompleteSuccess(execution, postcondition, verified) =>
        if a.status != Executing then Refuse(InvalidState)
        else Write(Bump(a, if verified then Succeeded else Unknown).(
                     executionResult := Some(execution),
                     postconditionResult := Some(postcondition)), None)
      case CompleteFailure(result, uncertain) =>
        if a.status != Executing then Refuse(InvalidState)
        else Write(Bump(a, if uncertain then Unknown else Failed).(executionResult := Some(result)), None)
      case Reconcile(met, result) =>
        if a.status != Unknown then Refuse(InvalidState)
        else Write(Bump(a, if met then Succeeded else ReconciledNotApplied).(
                     postconditionResult := Some(result)), None)
      case Expire =>
        if Active(a.status) && now >= a.expiresAt then Write(Bump(a, Expired), None)
        else Refuse(InvalidState)
  }

  /** A freshly prepared action. */
  predicate Prepared(a: PendingAction) {
    && a.status == Pending
    && a.version == 1
    && a.approvals == []
    && a.confirmationConsumedAt == None
    && a.executionResult == None
    && a.postconditionResult == None
    && a.rejectionReason == None
    && a.rejectedBy == None
    && a.rejectedAt == None
    && a.createdAt < a.expiresAt
  }

  // ---------- what every action in a store satisfies ----------

  predicate DistinctApprovers(approvals: seq<ApprovalRecord>) {
    forall i, j :: 0 <= i < j < |approvals| ==> approvals[i].approverId != approvals[j].approverId
  }

  /** Separation of duty: who decided, and what each status needs. */
  predicate DutySeparated(a: PendingAction) {
    && DistinctApprovers(a.approvals)
    && !a.ApprovedBy(a.requesterId)
    && (!a.Confirmed() ==> a.approvals == [] && a.status in {Pending, Rejected, Expired})
    && (a.status == Pending ==> a.approvals == [] && (a.Confirmed() ==> a.approvalsRequired > 0))
    && (a.status == PartiallyApproved ==> 0 < |a.approvals| < a.approvalsRequired)
    && ((a.status.Approved? || a.status.Stale? || Execution(a.status)) ==> a.Confirmed() && |a.approvals| == a.approvalsRequired)
    && |a.approvals| <= a.approvalsRequired
    && (a.status == Rejected <==> a.rejectedBy.Some?)
    && (a.rejectedBy.Some? <==> a.rejectedAt.Some?)
    && (a.rejectedBy.Some? ==> !a.ApprovedBy(a.rejectedBy.value))
  }

  /** Steps an action can still take: the termination measure of its life. */
  function Rank(a: PendingAction): int {
    match a.status
    case Pending => if a.Confirmed() then a.approvalsRequired + 3 else a.approvalsRequired + 4
    case PartiallyApproved => a.approvalsRequired + 3 - |a.approvals|
    case Approved => 3
    case Executing => 2
    case Unknown => 1
    case _ => 0
  }

  predicate WellFormed(a: PendingAction) {
    && DutySeparated(a)
    && 1 <= a.version
    && a.version + Rank(a) <= a.approvalsRequired + 5
  }

  /** Who and what the action is about; constant over its whole life. */
  predicate SameIdentity(a: PendingAction, b: PendingAction) {
    && a.actionId == b.actionId
    && a.requesterId == b.requesterId
    && a.envelope == b.envelope
    && a.stateFingerprint == b.stateFingerprint
    && a.createdAt == b.createdAt
    && a.expiresAt == b.expiresAt
    && a.approvalsRequired == b.approvalsRequired
    && a.idempotencyKey == b.idempotencyKey
  }

  /** The status graph. */
  predicate Edge(s: Status, t: Status) {
    match s
    case Pending => t in {Pending, PartiallyApproved, Approved, Rejected, Expired}
    case PartiallyApproved => t in {PartiallyApproved, Approved, Rejected, Expired}
    case Approved => t in {Executing, Stale, Rejected, Expired}
    case Executing => t in {Succeeded, Failed, Unknown}
    case Unknown => t in {Succeeded, ReconciledNotApplied}
    case _ => false
  }

  /** One legal write: everything the store and the protocol rely on. */
  ghost predicate Succeeds(a: PendingAction, b: PendingAction) {
    && SameIdentity(a, b)
    && b.version == a.version + 1
    && 0 <= Rank(b) < Rank(a)
    && Edge(a.status, b.status)
    && a.approvals <= b.approvals
    && |b.approvals| <= |a.approvals| + 1
    && (b.approvals != a.approvals ==> b.rejectedBy == None)
    && a.rejectedBy == None
  }

  lemma PreparedIsWellFormed(a: PendingAction)
    requires Prepared(a)
    ensures WellFormed(a)
  {
    assert Rank(a) == a.approvalsRequired + 4;
  }

  lemma RankIsNatural(a: PendingAction)
    requires DutySeparated(a)
    ensures 0 <= Rank(a) <= a.approvalsRequired + 4
    ensures Terminal(a.status) <==> Rank(a) == 0
  {
    if a.status == PartiallyApproved {
      assert |a.approvals| < a.approvalsRequired;
    }
  }

  function Next(d: Decision): PendingAction
    requires !d.Refuse?
  {
    d.next
  }

  lemma ApproveSucceeds(op: Op, a: PendingAction, now: Instant)
    requires WellFormed(a) && op.Approve? && DecideApprove(op, a, now).Write?
    ensures Succeeds(a, DecideApprove(op, a, now).next) && WellFormed(DecideApprove(op, a, now).next)
  {
    var b := DecideApprove(op, a, now).next;
    if RequireActive(a, now).None? {
      assert b.approvals == a.approvals + [ApprovalRecord(op.actor, now)];
      assert forall r <- b.approvals :: r in a.approvals || r == ApprovalRecord(op.actor, now);
    }
  }

  /** Every write the service decides on is one legal step: it keeps separation
      of duty, raises the version by one, lowers the rank and follows the graph. */
  lemma DecisionsAreLegal(op: Op, enabled: bool, a: PendingAction, now: Instant)
    requires WellFormed(a) && !Decide(op, enabled, a, now).Refuse?
    ensures Succeeds(a, Next(Decide(op, enabled, a, now)))
    ensures WellFormed(Next(Decide(op, enabled, a, now)))
  {
    if op.Approve? {
      ApproveSucceeds(op, a, now);
    }
    var b := Next(Decide(op, enabled, a, now));
    assert b.approvals == a.approvals || op.Approve?;
  }

  /** EXECUTING is entered only from APPROVED, before expiry by the deciding
      clock, with the fingerprint that was prepared, and never without a claim. */
  lemma ExecutingNeedsFreshTarget(op: Op, enabled: bool, a: PendingAction, now: Instant)
    requires !Decide(op, enabled, a, now).Refuse?
    requires Next(Decide(op, enabled, a, now)).status == Executing
    ensures Decide(op, enabled, a, now).ClaimThenWrite?
    ensures enabled && op.Begin? && a.status == Approved
    ensures now < a.expiresAt && op.currentFingerprint == a.stateFingerprint
  {
  }
}
