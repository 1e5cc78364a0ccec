/** The approval service over the dictionary repository, one call at a time.

    The process-local mutation lock is not modelled: ApprovalProtocol lets the
    repository calls of any number of services interleave freely. */
module ApprovalService {
  import opened ApprovalModel
  import opened MemoryStore
  import opened Options

  /** The parts of a catalogue entry that preparation and confirmation read. */
  datatype FunctionSpec = FunctionSpec(
    isWrite: bool,
    requiresTarget: bool,
    destructive: bool,
    approvalsRequired: nat)

  function NeedsWrites(op: Op): bool {
    op.Confirm? || op.Approve? || op.Begin?
  }

  function Answered(next: PendingAction, raises: Option<Error>): Result<PendingAction> {
    match raises
    case None => Ok(next)
    case Some(e) => Raise(e)
  }

  /** One undisturbed service call: kill switch, read, decision, claim, CAS. */
  function Perform(s: Store, op: Op, enabled: bool, id: Id, now: Instant): (Result<PendingAction>, Store) {
    if NeedsWrites(op) && !enabled then (Raise(WriteDisabled), s)
    else
      match s.Get(id)
      case None => (Raise(ActionNotFound), s)
      case Some(a) =>
        match Decide(op, enabled, a, now)
        case Refuse(e) => (Raise(e), s)
        case Write(next, raises) =>
          (match s.Replace(next, a.version)
           case Ok(s1) => (Answered(next, raises), s1)
           case Raise(e) => (Raise(e), s))
        case ClaimThenWrite(next) =>
          (match s.Claim(a.idempotencyKey, a.actionId)
           case None => (Raise(DuplicateExecution), s)
           case Some(s1) =>
             match s1.Replace(next, a.version)
             case Ok(s2) => (Ok(next), s2)
             case Raise(e) => (Raise(e), s1))
  }

  /** The arguments preparation insists on. */
  predicate Complete(spec: FunctionSpec, requesterId: Id, envelope: Envelope, fingerprint: string) {
    && (spec.requiresTarget ==> envelope.targetEmployeeId.Some? && envelope.targetEmployeeId.value != "")
    && requesterId != "" && fingerprint != ""
    && envelope.correlationId != "" && envelope.guildId != "" && envelope.channelId != ""
    && (spec.destructive ==> envelope.motivation.Some? && envelope.motivation.value != "")
    && |envelope.encryptedParameters| > 0
  }

  /** A given lifetime or key counts unless it is zero or empty. */
  function Lifetime(ttl: Option<int>, defaultTtl: int): int {
    match ttl case None => defaultTtl case Some(t) => if t == 0 then defaultTtl else t
  }

  function KeyOf(idempotencyKey: Option<string>, freshKey: string): string {
    match idempotencyKey case None => freshKey case Some(k) => if k == "" then freshKey else k
  }

  /** The arguments are accepted. */
  predicate Preparable(enabled: bool, spec: Option<FunctionSpec>, requesterId: Id, envelope: Envelope, fingerprint: string,
                       lifetime: int, key: string)
  {
    && enabled && spec.Some? && spec.value.isWrite
    && Complete(spec.value, requesterId, envelope, fingerprint)
    && lifetime > 0 && 16 <= |key| <= 200
  }

  predicate Overdue(a: PendingAction, now: Instant) {
    Active(a.status) && now >= a.expiresAt
  }

  function AfterExpiry(a: PendingAction, now: Instant): PendingAction {
    if Overdue(a, now) then Bump(a, Expired) else a
  }

  class Service {
    const repository: InMemoryApprovalRepository
    const defaultTtl: int

    constructor (repository: InMemoryApprovalRepository, defaultTtl: int)
      requires 0 < defaultTtl
      ensures this.repository == repository && this.defaultTtl == defaultTtl
    {
      this.repository := repository;
      this.defaultTtl := defaultTtl;
    }

    /** `actionId` and `freshKey` stand for the random identifiers drawn by the
        service; `motivation` is already normalised. */
    method Prepare(enabled: bool, spec: Option<FunctionSpec>, requesterId: Id, envelope: Envelope,
                   fingerprint: string, ttl: Option<int>, idempotencyKey: Option<string>,
                   actionId: Id, freshKey: string, now: Instant)
      returns (r: Result<PendingAction>)
      requires 0 < defaultTtl
      modifies repository
      ensures r.Ok? <==>
                && Preparable(enabled, spec, requesterId, envelope, fingerprint, Lifetime(ttl, defaultTtl),
                              KeyOf(idempotencyKey, freshKey))
                && actionId !in old(repository.actions)
                && KeyOf(idempotencyKey, freshKey) !in old(repository.pendingIdempotency)
      ensures r.Ok? ==> Prepared(r.value) && r.value.actionId == actionId && r.value.requesterId == requesterId
      ensures r.Ok? ==> r.value.envelope == envelope && r.value.stateFingerprint == fingerprint
      ensures r.Ok? ==> r.value.createdAt == now && r.value.expiresAt == now + Lifetime(ttl, defaultTtl)
      ensures r.Ok? ==> spec.Some? && r.value.approvalsRequired == spec.value.approvalsRequired
      ensures r.Ok? ==> r.value.idempotencyKey == KeyOf(idempotencyKey, freshKey)
      ensures r.Ok? ==> repository.actions == old(repository.actions)[actionId := r.value]
      ensures r.Ok? ==> repository.pendingIdempotency
                        == old(repository.pendingIdempotency)[KeyOf(idempotencyKey, freshKey) := actionId]
      ensures r.Ok? ==> old(repository.Value()).Insert(r.value) == Ok(repository.Value())
      ensures r.Raise? ==> repository.Value() == old(repository.Value())
      ensures !enabled ==> r == Raise(WriteDisabled)
      ensures r == Raise(InvalidArgument) <==>
                && enabled
                && !Preparable(enabled, spec, requesterId, envelope, fingerprint, Lifetime(ttl, defaultTtl),
                               KeyOf(idempotencyKey, freshKey))
    {
      if !enabled { return Raise(WriteDisabled); }
      if spec.None? || !spec.value.isWrite { return Raise(InvalidArgument); }
      if spec.value.requiresTarget && (envelope.targetEmployeeId.None? || envelope.targetEmployeeId.value == "") {
        return Raise(InvalidArgument);
      }
      if envelope.correlationId == "" || requesterId == "" || envelope.guildId == "" || envelope.channelId == ""
         || fingerprint == "" {
        return Raise(InvalidArgument);
      }
      if spec.value.destructive && (envelope.motivation.None? || envelope.motivation.value == "") {
        return Raise(InvalidArgument);
      }
      if envelope.encryptedParameters == [] { return Raise(InvalidArgument); }
      var effectiveTtl := if ttl.Some? && ttl.value != 0 then ttl.value else defaultTtl;
      if effectiveTtl <= 0 { return Raise(InvalidArgument); }
      var key := if idempotencyKey.Some? && idempotencyKey.value != "" then idempotencyKey.value else freshKey;
      if !(16 <= |key| <= 200) { return Raise(InvalidArgument); }
      var action := PendingAction(
        actionId, requesterId, envelope, fingerprint, Pending, now, now + effectiveTtl,
        spec.value.approvalsRequired, [], None, key, None, None, None, None, None, 1);
      var inserted := repository.Insert(action);
      r := match inserted case Ok(_) => Ok(action) case Raise(e) => Raise(e);
    }

    /** `_require_active`: expires an overdue action as a side effect. */
    method RequireActiveOrExpire(action: PendingAction, now: Instant) returns (stop: Option<Error>)
      modifies repository
      ensures match RequireActive(action, now)
              case None => stop == None && repository.Value() == old(repository.Value())
              case Some(d) =>
                match d
                case Refuse(e) => stop == Some(e) && repository.Value() == old(repository.Value())
                case Write(next, raises) =>
                  (match old(repository.Value()).Replace(next, action.version)
                   case Ok(s) => stop == raises && repository.Value() == s
                   case Raise(e) => stop == Some(e) && repository.Value() == old(repository.Value()))
                case ClaimThenWrite(_) => true
    {
      if now >= action.expiresAt && Active(action.status) {
        var replaced := repository.Replace(action.(status := Expired, version := action.version + 1), action.version);
        return Some(match replaced case Ok(_) => ExpiredAction case Raise(e) => e);
      }
      if !Active(action.status) { return Some(InvalidState); }
      return None;
    }

    method Confirm(op: Op, enabled: bool, actionId: Id, now: Instant) returns (r: Result<PendingAction>)
      requires op.Confirm?
      modifies repository
      ensures (r, repository.Value()) == Perform(old(repository.Value()), op, enabled, actionId, now)
    {
      if !enabled { return Raise(WriteDisabled); }
      var found := repository.Get(actionId);
      if found.None? { return Raise(ActionNotFound); }
      var action := found.value;
      var stop := RequireActiveOrExpire(action, now);
      if stop.Some? { return Raise(stop.value); }
      if op.actor != action.requesterId { return Raise(Unauthorized); }
      if action.confirmationConsumedAt.Some? { return Raise(InvalidConfirmation); }
      if !op.codeMatches { return Raise(InvalidConfirmation); }
      if !op.specKnown { return Raise(InvalidState); }
      if !op.textMatches { return Raise(InvalidConfirmation); }
      var status := if action.approvalsRequired == 0 then Approved else Pending;
      var updated := action.(confirmationConsumedAt := Some(now), status := status, version := action.version + 1);
      var replaced := repository.Replace(updated, action.version);
      r := match replaced case Ok(_) => Ok(updated) case Raise(e) => Raise(e);
    }

    method Approve(op: Op, enabled: bool, actionId: Id, now: Instant) returns (r: Result<PendingAction>)
      requires op.Approve?
      modifies repository
      ensures (r, repository.Value()) == Perform(old(repository.Value()), op, enabled, actionId, now)
    {
      if !enabled { return Raise(WriteDisabled); }
      var found := repository.Get(actionId);
      if found.None? { return Raise(ActionNotFound); }
      var action := found.value;
      var stop := RequireActiveOrExpire(action, now);
      if stop.Some? { return Raise(stop.value); }
      if action.confirmationConsumedAt.None? || action.approvalsRequired == 0 || action.status == Approved {
        return Raise(InvalidState);
      }
      if op.actor == action.requesterId { return Raise(Unauthorized); }
      if exists record <- action.approvals :: record.approverId == op.actor { return Raise(Unauthorized); }
      if !op.specKnown { return Raise(InvalidState); }
      if !op.rolesKnown || !op.eligible { return Raise(Unauthorized); }
      var approvals := action.approvals + [ApprovalRecord(op.actor, now)];
      var status := if |approvals| >= action.approvalsRequired then Approved else PartiallyApproved;
      var updated := action.(approvals := approvals, status := status, version := action.version + 1);
      var replaced := repository.Replace(updated, action.version);
      r := match replaced case Ok(_) => Ok(updated) case Raise(e) => Raise(e);
    }

    method Reject(op: Op, actionId: Id, now: Instant) returns (r: Result<PendingAction>)
      requires op.Reject?
      modifies repository
      ensures (r, repository.Value()) == Perform(old(repository.Value()), op, false, actionId, now)
    {
      var found := repository.Get(actionId);
      if found.None? { return Raise(ActionNotFound); }
      var action := found.value;
      var stop := RequireActiveOrExpire(action, now);
      if stop.Some? { return Raise(stop.value); }
      if !op.specKnown { return Raise(InvalidState); }
      if !op.rolesKnown { return Raise(Unauthorized); }
      if exists record <- action.approvals :: record.approverId == op.actor { return Raise(InvalidState); }
      if op.actor != action.requesterId && !op.eligible { return Raise(Unauthorized); }
      if op.reason == "" { return Raise(EmptyReason); }
      var updated := action.(status := Rejected, rejectionReason := Some(op.reason), rejectedBy := Some(op.actor),
                             rejectedAt := Some(now), version := action.version + 1);
      var replaced := repository.Replace(updated, action.version);
      r := match replaced case Ok(_) => Ok(updated) case Raise(e) => Raise(e);
    }

    method BeginExecution(op: Op, enabled: bool, actionId: Id, now: Instant) returns (r: Result<PendingAction>)
      requires op.Begin?
      modifies repository
      ensures (r, repository.Value()) == Perform(old(repository.Value()), op, enabled, actionId, now)
    {
      if !enabled { return Raise(WriteDisabled); }
      var found := repository.Get(actionId);
      if found.None? { return Raise(ActionNotFound); }
      var action := found.value;
      if action.status in {Executing, Succeeded, Unknown, ReconciledNotApplied} { return Raise(DuplicateExecution); }
      var stop := RequireActiveOrExpire(action, now);
      if stop.Some? { return Raise(stop.value); }
      if action.status != Approved { return Raise(InvalidState); }
      if op.currentFingerprint != action.stateFingerprint {
        var stale := action.(status := Stale, version := action.version + 1);
        var swapped := repository.Replace(stale, action.version);
        return Raise(match swapped case Ok(_) => StaleTarget case Raise(e) => e);
      }
      var granted := repository.ClaimIdempotency(action.idempotencyKey, action.actionId);
      if !granted { return Raise(DuplicateExecution); }
      var executing := action.(status := Executing, version := action.version + 1);
      var replaced := repository.Replace(executing, action.version);
      r := match replaced case Ok(_) => Ok(executing) case Raise(e) => Raise(e);
    }

    method CompleteSuccess(op: Op, actionId: Id) returns (r: Result<PendingAction>)
      requires op.CompleteSuccess?
      modifies repository
      ensures forall now: Instant :: (r, repository.Value()) == Perform(old(repository.Value()), op, false, actionId, now)
    {
      var found := repository.Get(actionId);
      if found.None? { return Raise(ActionNotFound); }
      var action := found.value;
      if action.status != Executing { return Raise(InvalidState); }
      var updated := action.(status := if op.verified then Succeeded else Unknown,
                             executionResult := Some(op.executionResult),
                             postconditionResult := Some(op.postconditionResult),
                             version := action.version + 1);
      var replaced := repository.Replace(updated, action.version);
      r := match replaced case Ok(_) => Ok(updated) case Raise(e) => Raise(e);
    }

    method CompleteFailure(op: Op, actionId: Id) returns (r: Result<PendingAction>)
      requires op.CompleteFailure?
      modifies repository
      ensures forall now: Instant :: (r, repository.Value()) == Perform(old(repository.Value()), op, false, actionId, now)
    {
      var found := repository.Get(actionId);
      if found.None? { return Raise(ActionNotFound); }
      var action := found.value;
      if action.status != Executing { return Raise(InvalidState); }
      var updated := action.(status := if op.uncertain then Unknown else Failed,
                             executionResult := Some(op.result),
                             version := action.version + 1);
      var replaced := repository.Replace(updated, action.version);
      r := match replaced case Ok(_) => Ok(updated) case Raise(e) => Raise(e);
    }

    method Reconcile(op: Op, actionId: Id) returns (r: Result<PendingAction>)
      requires op.Reconcile?
      modifies repository
      ensures forall now: Instant :: (r, repository.Value()) == Perform(old(repository.Value()), op, false, actionId, now)
    {
      var found := repository.Get(actionId);
      if found.None? { return Raise(ActionNotFound); }
      var action := found.value;
      if action.status != Unknown { return Raise(InvalidState); }
      var updated := action.(status := if op.met then Succeeded else ReconciledNotApplied,
                             postconditionResult := Some(op.result),
                             version := action.version + 1);
      var replaced := repository.Replace(updated, action.version);
      r := match replaced case Ok(_) => Ok(updated) case Raise(e) => Raise(e);
    }

    /** The loop body of `expire_pending`. */
    method ExpireOne(action: PendingAction, now: Instant) returns (expired: bool)
      requires action.actionId in repository.actions && repository.actions[action.actionId] == action
      modifies repository
      ensures repository.actions == old(repository.actions)[action.actionId := AfterExpiry(action, now)]
      ensures expired == Overdue(action, now)
      ensures repository.idempotency == old(repository.idempotency)
      ensures repository.pendingIdempotency == old(repository.pendingIdempotency)
    {
      expired := false;
      if Active(action.status) && now >= action.expiresAt {
        var replaced := repository.Replace(action.(status := Expired, version := action.version + 1), action.version);
        expired := replaced.Ok?;
      }
    }

    /** Expires exactly the overdue active actions, counts them, and changes nothing else. */
    method ExpirePending(now: Instant) returns (count: nat)
      requires forall id <- repository.actions :: repository.actions[id].actionId == id
      modifies repository
      ensures repository.actions == ExpiryOf(old(repository.actions), old(repository.actions).Keys, now)
      ensures count == |OverdueIn(old(repository.actions), old(repository.actions).Keys, now)|
      ensures repository.idempotency == old(repository.idempotency)
      ensures repository.pendingIdempotency == old(repository.pendingIdempotency)
    {
      count := 0;
      var listed, ids := repository.ListActions();
      ghost var start := repository.actions;
      ghost var visited: set<Id> := {};
      for i := 0 to |listed|
        invariant visited <= start.Keys
        invariant forall k :: 0 <= k < |ids| ==> (ids[k] in visited <==> k < i)
        invariant repository.actions == ExpiryOf(start, visited, now)
        invariant count == |OverdueIn(start, visited, now)|
        invariant repository.idempotency == old(repository.idempotency)
        invariant repository.pendingIdempotency == old(repository.pendingIdempotency)
      {
        var expired := ExpireOne(listed[i], now);
        ExpiryStep(start, visited, ids[i], now);
        visited := visited + {ids[i]};
        count := if expired then count + 1 else count;
      }
      assert visited == start.Keys;
    }
  }

  /** The dictionary once the actions in `visited` have been looked at. */
  ghost function ExpiryOf(actions: map<Id, PendingAction>, visited: set<Id>, now: Instant): map<Id, PendingAction> {
    map id | id in actions :: if id in visited then AfterExpiry(actions[id], now) else actions[id]
  }

  ghost function OverdueIn(actions: map<Id, PendingAction>, visited: set<Id>, now: Instant): set<Id> {
    set id | id in visited && id in actions && Overdue(actions[id], now)
  }

  lemma ExpiryStep(actions: map<Id, PendingAction>, visited: set<Id>, id: Id, now: Instant)
    requires id in actions && id !in visited
    ensures ExpiryOf(actions, visited, now)[id := AfterExpiry(actions[id], now)] == ExpiryOf(actions, visited + {id}, now)
    ensures |OverdueIn(actions, visited + {id}, now)|
            == |OverdueIn(actions, visited, now)| + if Overdue(actions[id], now) then 1 else 0
  {
    var before, after := OverdueIn(actions, visited, now), OverdueIn(actions, visited + {id}, now);
    assert after == if Overdue(actions[id], now) then before + {id} else before;
  }
}
