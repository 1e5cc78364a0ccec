/** What each service call does to a stored action, in terms of the action and the
    arguments alone: when it succeeds, what it then stores, and what it raises
    otherwise. */
module ServiceDecisions {
  import opened ApprovalModel
  import opened ApprovalService
  import opened MemoryStore
  import opened Options

  /** The calls concern a stored action. */
  predicate Has(s: Store, id: Id) {
    id in s.actions && s.actions[id].actionId == id
  }

  predicate Open(a: PendingAction) {
    a.status == Pending || a.status == PartiallyApproved || a.status == Approved
  }

  /** The call succeeded and changed nothing but this action, to `b`. */
  predicate Stores(s: Store, id: Id, outcome: (Result<PendingAction>, Store), b: PendingAction) {
    outcome == (Ok(b), Store(s.actions[id := b], s.claims, s.reserved))
  }

  /** The call raised and changed nothing. */
  predicate Refuses(s: Store, outcome: (Result<PendingAction>, Store), e: Error) {
    outcome == (Raise(e), s)
  }

  /** The call raised and changed nothing but this action, to `b`. */
  predicate Diverts(s: Store, id: Id, outcome: (Result<PendingAction>, Store), b: PendingAction, e: Error) {
    outcome == (Raise(e), Store(s.actions[id := b], s.claims, s.reserved))
  }

  /** A closed action is refused, an overdue one is expired on the way. */
  predicate ClosedOrOverdue(s: Store, id: Id, outcome: (Result<PendingAction>, Store), now: Instant)
    requires id in s.actions
  {
    var a := s.actions[id];
    && (!Open(a) ==> Refuses(s, outcome, InvalidState))
    && (Open(a) && now >= a.expiresAt ==>
          Diverts(s, id, outcome, a.(status := Expired, version := a.version + 1), ExpiredAction))
  }

  lemma UnknownActionsAreRefused(s: Store, op: Op, enabled: bool, id: Id, now: Instant)
    requires id !in s.actions
    ensures (op.Confirm? || op.Approve? || op.Begin?) && !enabled ==>
              Refuses(s, Perform(s, op, enabled, id, now), WriteDisabled)
    ensures enabled || !(op.Confirm? || op.Approve? || op.Begin?) ==>
              Refuses(s, Perform(s, op, enabled, id, now), ActionNotFound)
  {
  }

  // ---------- confirmation ----------

  /** The requester's first confirmation, code and text matching, in time. */
  predicate MayConfirm(a: PendingAction, op: Op, enabled: bool, now: Instant)
    requires op.Confirm?
  {
    && enabled && Open(a) && now < a.expiresAt
    && op.actor == a.requesterId && a.confirmationConsumedAt == None
    && op.codeMatches && op.specKnown && op.textMatches
  }

  lemma ConfirmSucceedsExactlyWhen(s: Store, op: Op, enabled: bool, id: Id, now: Instant)
    requires Has(s, id) && op.Confirm?
    ensures var a, outcome := s.actions[id], Perform(s, op, enabled, id, now);
            && (outcome.0.Ok? <==> MayConfirm(a, op, enabled, now))
            && (outcome.0.Ok? ==>
                  Stores(s, id, outcome, a.(confirmationConsumedAt := Some(now), version := a.version + 1,
                                            status := if a.approvalsRequired == 0 then Approved else Pending)))
  {
  }

  lemma ConfirmRefusals(s: Store, op: Op, enabled: bool, id: Id, now: Instant)
    requires Has(s, id) && op.Confirm?
    ensures !enabled ==> Refuses(s, Perform(s, op, enabled, id, now), WriteDisabled)
    ensures enabled ==> ClosedOrOverdue(s, id, Perform(s, op, enabled, id, now), now)
    ensures var a, outcome := s.actions[id], Perform(s, op, enabled, id, now);
            enabled && Open(a) && now < a.expiresAt ==>
              && (op.actor != a.requesterId ==> Refuses(s, outcome, Unauthorized))
              && (op.actor == a.requesterId && (a.confirmationConsumedAt.Some? || !op.codeMatches) ==>
                    Refuses(s, outcome, InvalidConfirmation))
              && (op.actor == a.requesterId && a.confirmationConsumedAt == None && op.codeMatches && !op.specKnown ==>
                    Refuses(s, outcome, InvalidState))
              && (op.actor == a.requesterId && a.confirmationConsumedAt == None && op.codeMatches && op.specKnown ==>
                    (!op.textMatches ==> Refuses(s, outcome, InvalidConfirmation)))
  {
  }

  // ---------- approval ----------

  predicate HasApproved(a: PendingAction, actor: Id) {
    exists i :: 0 <= i < |a.approvals| && a.approvals[i].approverId == actor
  }

  /** Somebody else's first approval, by an eligible role, of a confirmed action that
      still needs one, in time. */
  predicate MayApprove(a: PendingAction, op: Op, enabled: bool, now: Instant)
    requires op.Approve?
  {
    && enabled && (a.status == Pending || a.status == PartiallyApproved) && now < a.expiresAt
    && a.confirmationConsumedAt.Some? && a.approvalsRequired > 0
    && op.actor != a.requesterId && !HasApproved(a, op.actor)
    && op.specKnown && op.rolesKnown && op.eligible
  }

  function WithApproval(a: PendingAction, actor: Id, now: Instant): PendingAction {
    a.(approvals := a.approvals + [ApprovalRecord(actor, now)], version := a.version + 1,
       status := if |a.approvals| + 1 < a.approvalsRequired then PartiallyApproved else Approved)
  }

  lemma ApproversAreFound(a: PendingAction, actor: Id)
    ensures a.ApprovedBy(actor) <==> HasApproved(a, actor)
  {
    if HasApproved(a, actor) {
      var i :| 0 <= i < |a.approvals| && a.approvals[i].approverId == actor;
      assert a.approvals[i] in a.approvals;
    }
  }

  lemma ApproveSucceedsExactlyWhen(s: Store, op: Op, enabled: bool, id: Id, now: Instant)
    requires Has(s, id) && op.Approve?
    ensures var a, outcome := s.actions[id], Perform(s, op, enabled, id, now);
            && (outcome.0.Ok? <==> MayApprove(a, op, enabled, now))
            && (outcome.0.Ok? ==> Stores(s, id, outcome, WithApproval(a, op.actor, now)))
  {
    ApproversAreFound(s.actions[id], op.actor);
  }

  lemma ApproveRefusals(s: Store, op: Op, enabled: bool, id: Id, now: Instant)
    requires Has(s, id) && op.Approve?
    ensures !enabled ==> Refuses(s, Perform(s, op, enabled, id, now), WriteDisabled)
    ensures enabled ==> ClosedOrOverdue(s, id, Perform(s, op, enabled, id, now), now)
    ensures var a, outcome := s.actions[id], Perform(s, op, enabled, id, now);
            var due := a.confirmationConsumedAt.Some? && a.approvalsRequired > 0 && a.status != Approved;
            var other := op.actor != a.requesterId && !HasApproved(a, op.actor);
            enabled && Open(a) && now < a.expiresAt ==>
              && (!due ==> Refuses(s, outcome, InvalidState))
              && (due && !other ==> Refuses(s, outcome, Unauthorized))
              && (due && other && !op.specKnown ==> Refuses(s, outcome, InvalidState))
              && (due && other && op.specKnown && !(op.rolesKnown && op.eligible) ==> Refuses(s, outcome, Unauthorized))
  {
    ApproversAreFound(s.actions[id], op.actor);
  }

  // ---------- rejection ----------

  /** The requester or somebody eligible, who has not approved, with a reason, in time. */
  predicate MayReject(a: PendingAction, op: Op, now: Instant)
    requires op.Reject?
  {
    && Open(a) && now < a.expiresAt
    && op.specKnown && op.rolesKnown
    && !HasApproved(a, op.actor) && (op.actor == a.requesterId || op.eligible) && op.reason != ""
  }

  /** Whether writes are enabled or not: rejections are always possible. */
  lemma RejectSucceedsExactlyWhen(s: Store, op: Op, enabled: bool, id: Id, now: Instant)
    requires Has(s, id) && op.Reject?
    ensures var a, outcome := s.actions[id], Perform(s, op, enabled, id, now);
            && (outcome.0.Ok? <==> MayReject(a, op, now))
            && (outcome.0.Ok? ==>
                  Stores(s, id, outcome, a.(status := Rejected, rejectionReason := Some(op.reason),
                                            rejectedBy := Some(op.actor), rejectedAt := Some(now), version := a.version + 1)))
  {
    ApproversAreFound(s.actions[id], op.actor);
  }

  lemma RejectRefusals(s: Store, op: Op, enabled: bool, id: Id, now: Instant)
    requires Has(s, id) && op.Reject?
    ensures ClosedOrOverdue(s, id, Perform(s, op, enabled, id, now), now)
    ensures var a, outcome := s.actions[id], Perform(s, op, enabled, id, now);
            var entitled := op.actor == a.requesterId || op.eligible;
            Open(a) && now < a.expiresAt ==>
              && (!op.specKnown ==> Refuses(s, outcome, InvalidState))
              && (op.specKnown && !op.rolesKnown ==> Refuses(s, outcome, Unauthorized))
              && (op.specKnown && op.rolesKnown && HasApproved(a, op.actor) ==> Refuses(s, outcome, InvalidState))
              && (op.specKnown && op.rolesKnown && !HasApproved(a, op.actor) && !entitled ==>
                    Refuses(s, outcome, Unauthorized))
              && (op.specKnown && op.rolesKnown && !HasApproved(a, op.actor) && entitled && op.reason == "" ==>
                    Refuses(s, outcome, EmptyReason))
  {
    ApproversAreFound(s.actions[id], op.actor);
  }

  // ---------- execution ----------

  /** An approved, unexpired action on its prepared target, its key unclaimed. */
  predicate MayBegin(s: Store, a: PendingAction, op: Op, enabled: bool, now: Instant)
    requires op.Begin?
  {
    && enabled && a.status == Approved && now < a.expiresAt
    && op.currentFingerprint == a.stateFingerprint && a.idempotencyKey !in s.claims
  }

  /** Success claims the key and stores EXECUTING, and nothing else. */
  lemma BeginSucceedsExactlyWhen(s: Store, op: Op, enabled: bool, id: Id, now: Instant)
    requires Has(s, id) && op.Begin?
    ensures var a, outcome := s.actions[id], Perform(s, op, enabled, id, now);
            && (outcome.0.Ok? <==> MayBegin(s, a, op, enabled, now))
            && (outcome.0.Ok? ==>
                  var b := a.(status := Executing, version := a.version + 1);
                  outcome == (Ok(b), Store(s.actions[id := b], s.claims[a.idempotencyKey := id], s.reserved)))
  {
  }

  lemma BeginRefusals(s: Store, op: Op, enabled: bool, id: Id, now: Instant)
    requires Has(s, id) && op.Begin?
    ensures !enabled ==> Refuses(s, Perform(s, op, enabled, id, now), WriteDisabled)
    ensures var a, outcome := s.actions[id], Perform(s, op, enabled, id, now);
            enabled ==>
              && (a.status == Executing || a.status == Succeeded || a.status == Unknown || a.status == ReconciledNotApplied ==>
                    Refuses(s, outcome, DuplicateExecution))
              && (a.status == Failed || a.status == Rejected || a.status == Expired || a.status == Stale ==>
                    Refuses(s, outcome, InvalidState))
              && (Open(a) && now >= a.expiresAt ==>
                    Diverts(s, id, outcome, a.(status := Expired, version := a.version + 1), ExpiredAction))
              && ((a.status == Pending || a.status == PartiallyApproved) && now < a.expiresAt ==>
                    Refuses(s, outcome, InvalidState))
              && (a.status == Approved && now < a.expiresAt && op.currentFingerprint != a.stateFingerprint ==>
                    Diverts(s, id, outcome, a.(status := Stale, version := a.version + 1), StaleTarget))
              && (a.status == Approved && now < a.expiresAt && op.currentFingerprint == a.stateFingerprint ==>
                    (a.idempotencyKey in s.claims ==> Refuses(s, outcome, DuplicateExecution)))
  {
  }

  // ---------- completion ----------

  /** A verified result is SUCCEEDED, an unverified one UNKNOWN; each text in its field. */
  lemma CompleteSuccessExactly(s: Store, op: Op, enabled: bool, id: Id, now: Instant)
    requires Has(s, id) && op.CompleteSuccess?
    ensures var a, outcome := s.actions[id], Perform(s, op, enabled, id, now);
            if a.status == Executing then
              Stores(s, id, outcome, a.(status := if op.verified then Succeeded else Unknown, version := a.version + 1,
                                        executionResult := Some(op.executionResult),
                                        postconditionResult := Some(op.postconditionResult)))
            else Refuses(s, outcome, InvalidState)
  {
  }

  /** An uncertain outcome is UNKNOWN, a certain failure FAILED. */
  lemma CompleteFailureExactly(s: Store, op: Op, enabled: bool, id: Id, now: Instant)
    requires Has(s, id) && op.CompleteFailure?
    ensures var a, outcome := s.actions[id], Perform(s, op, enabled, id, now);
            if a.status == Executing then
              Stores(s, id, outcome, a.(status := if op.uncertain then Unknown else Failed, version := a.version + 1,
                                        executionResult := Some(op.result)))
            else Refuses(s, outcome, InvalidState)
  {
  }

  /** Only UNKNOWN is reconciled, to SUCCEEDED or RECONCILED_NOT_APPLIED. */
  lemma ReconcileExactly(s: Store, op: Op, enabled: bool, id: Id, now: Instant)
    requires Has(s, id) && op.Reconcile?
    ensures var a, outcome := s.actions[id], Perform(s, op, enabled, id, now);
            if a.status == Unknown then
              Stores(s, id, outcome, a.(status := if op.met then Succeeded else ReconciledNotApplied,
                                        version := a.version + 1, postconditionResult := Some(op.result)))
            else Refuses(s, outcome, InvalidState)
  {
  }

  /** Expiry touches the open actions past their time, and only their status. */
  lemma ExpiryExactly(actions: map<Id, PendingAction>, now: Instant, id: Id)
    requires id in actions
    ensures var a, b := actions[id], ExpiryOf(actions, actions.Keys, now)[id];
            b == if Open(a) && a.expiresAt <= now then a.(status := Expired, version := a.version + 1) else a
    ensures id in OverdueIn(actions, actions.Keys, now) <==> Open(actions[id]) && actions[id].expiresAt <= now
    ensures ExpiryOf(actions, actions.Keys, now).Keys == actions.Keys
  {
  }

  /** The same for one action inside the protocol. */
  lemma ExpireExactly(s: Store, enabled: bool, id: Id, now: Instant)
    requires Has(s, id)
    ensures var a, outcome := s.actions[id], Perform(s, Expire, enabled, id, now);
            if Open(a) && a.expiresAt <= now then Stores(s, id, outcome, a.(status := Expired, version := a.version + 1))
            else outcome.1 == s && outcome.0.Raise?
  {
  }

  // ---------- the repository underneath ----------

  /** A replacement is one version ahead of what is stored, and then all that changes. */
  lemma ReplaceExactly(s: Store, a: PendingAction, expected: int)
    ensures s.Replace(a, expected).Ok? <==>
              a.actionId in s.actions && s.actions[a.actionId].version == expected && a.version == expected + 1
    ensures s.Replace(a, expected).Ok? ==>
              s.Replace(a, expected).value == Store(s.actions[a.actionId := a], s.claims, s.reserved)
    ensures a.actionId !in s.actions ==> s.Replace(a, expected) == Raise(MissingAction)
    ensures a.actionId in s.actions && s.actions[a.actionId].version != expected ==>
              s.Replace(a, expected) == Raise(ConcurrentUpdate)
  {
  }

  /** An insertion needs a fresh identifier and a fresh key, and reserves the key. */
  lemma InsertExactly(s: Store, a: PendingAction)
    ensures s.Insert(a).Ok? <==> a.actionId !in s.actions && a.idempotencyKey !in s.reserved
    ensures s.Insert(a).Ok? ==>
              s.Insert(a).value == Store(s.actions[a.actionId := a], s.claims, s.reserved[a.idempotencyKey := a.actionId])
    ensures a.actionId in s.actions ==> s.Insert(a) == Raise(DuplicateActionId)
    ensures a.actionId !in s.actions && a.idempotencyKey in s.reserved ==> s.Insert(a) == Raise(DuplicateIdempotencyKey)
  {
  }
}
