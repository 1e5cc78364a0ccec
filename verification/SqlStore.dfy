/** The three-table repository: rows, constraints and the statements that
    `replace` issues inside one transaction. */
module SqlStore {
  import opened ApprovalModel
  import opened Options

  datatype ActionRow = ActionRow(
    requesterDiscordId: Id,
    envelope: Envelope,
    stateFingerprint: string,
    status: Status,
    createdAt: Instant,
    expiresAt: Instant,
    approvalsRequired: nat,
    approvalsReceived: nat,
    confirmationConsumedAt: Option<Instant>,
    idempotencyKey: string,
    executionResult: Option<map<string, string>>,
    postconditionResult: Option<map<string, string>>,
    rejectionReason: Option<string>,
    version: int)

  datatype Verdict = APPROVED | REJECTED

  datatype ApprovalRow = ApprovalRow(
    approvalId: int,
    actionId: Id,
    approverDiscordId: Id,
    decision: Verdict,
    redactedReason: Option<string>,
    createdAt: Instant)

  datatype ExecutionStatus = CLAIMED | STARTED | Finished(status: Status)

  datatype ExecutionRow = ExecutionRow(
    actionId: Id,
    idempotencyKey: string,
    status: ExecutionStatus,
    result: Option<map<string, string>>,
    postcondition: Option<map<string, string>>,
    uncertainOutcome: bool)

  /** `actions` is keyed by its primary key; the child tables keep insertion order. */
  datatype Tables = Tables(
    actions: map<Id, ActionRow>,
    approvals: seq<ApprovalRow>,
    executions: seq<ExecutionRow>)
  {
    function SyncDecisions(a: PendingAction, uuid: int, clock: Instant): Result<Tables> {
      var existing := RowsOf(approvals, a.actionId);
      match SyncApprovals(approvals, existing, a.actionId, a.approvals, uuid)
      case None => Raise(UniqueViolation)
      case Some(rows) =>
        if a.rejectedBy.None? || Recorded(existing, a.rejectedBy.value, REJECTED) then Ok(this.(approvals := rows))
        else
          match AddApproval(rows, RejectionRow(a, uuid + |a.approvals|, clock))
          case None => Raise(UniqueViolation)
          case Some(final) => Ok(this.(approvals := final))
    }

    function SyncExecution(a: PendingAction): Result<Tables> {
      if !Execution(a.status) then Ok(this)
      else
        match FindExecution(executions, a.actionId)
        case None => Raise(MissingClaim)
        case Some(i) => Ok(this.(executions := executions[i := ExecutionAfter(executions[i], a)]))
    }

    function Insert(a: PendingAction, uuid: int, clock: Instant): Result<Tables> {
      if a.actionId in actions then Raise(UniqueViolation)
      else if exists id <- actions :: actions[id].idempotencyKey == a.idempotencyKey then Raise(UniqueViolation)
      else
        match SyncApprovals(approvals, [], a.actionId, a.approvals, uuid)
        case None => Raise(UniqueViolation)
        case Some(rows) =>
          var t1 := this.(actions := actions[a.actionId := EncodeRow(a)], approvals := rows);
          if a.rejectedBy.None? then Ok(t1)
          else
            match AddApproval(rows, RejectionRow(a, uuid + |a.approvals|, clock))
            case None => Raise(UniqueViolation)
            case Some(final) => Ok(t1.(approvals := final))
    }

    function Get(id: Id): Result<Option<PendingAction>> {
      if id !in actions then Ok(None)
      else
        match ToDomain(id, actions[id], RowsOf(approvals, id))
        case Ok(a) => Ok(Some(a))
        case Raise(e) => Raise(e)
    }

    /** The conditional UPDATE, then both synchronisations; any failure rolls all
        three tables back.  A clash on the idempotency key of another row is the
        remaining unique constraint. */
    function Replace(a: PendingAction, expectedVersion: int, uuid: int, clock: Instant): Result<Tables> {
      if a.version != expectedVersion + 1 then Raise(VersionSkew)
      else if !(a.actionId in actions && actions[a.actionId].version == expectedVersion) then Raise(ConcurrentUpdate)
      else if exists id <- actions :: id != a.actionId && actions[id].idempotencyKey == a.idempotencyKey
      then Raise(UniqueViolation)
      else
        var updated := this.(actions := actions[a.actionId := EncodeRow(a)]);
        match updated.SyncDecisions(a, uuid, clock)
        case Raise(e) => Raise(e)
        case Ok(decided) => decided.SyncExecution(a)
    }

    /** None when the claim is refused. */
    function Claim(key: string, id: Id): Option<Tables> {
      if !(id in actions && actions[id].idempotencyKey == key) then None
      else if exists x <- executions :: x.actionId == id || x.idempotencyKey == key then None
      else Some(this.(executions := executions + [ExecutionRow(id, key, CLAIMED, None, None, false)]))
    }
  }

  const EMPTY: Tables := Tables(map[], [], [])

  // ---------- row conversions ----------

  function EncodeResult(value: Option<string>): Option<map<string, string>> {
    match value
    case None => None
    case Some(text) => Some(map["summary" := text])
  }

  /** A stored result without a summary is rejected by the reader. */
  function DecodeResult(value: Option<map<string, string>>): Result<Option<string>> {
    match value
    case None => Ok(None)
    case Some(document) => if "summary" in document then Ok(Some(document["summary"])) else Raise(StorageFailure)
  }

  lemma ResultRoundTrip(value: Option<string>)
    ensures DecodeResult(EncodeResult(value)) == Ok(value)
  {
  }

  function EncodeRow(a: PendingAction): ActionRow {
    ActionRow(a.requesterId, a.envelope, a.stateFingerprint, a.status, a.createdAt, a.expiresAt,
              a.approvalsRequired, |a.approvals|, a.confirmationConsumedAt, a.idempotencyKey,
              EncodeResult(a.executionResult), EncodeResult(a.postconditionResult), a.rejectionReason, a.version)
  }

  function ApprovedRow(id: Id, record: ApprovalRecord, uuid: int): ApprovalRow {
    ApprovalRow(uuid, id, record.approverId, APPROVED, None, record.approvedAt)
  }

  function RejectionRow(a: PendingAction, uuid: int, clock: Instant): ApprovalRow
    requires a.rejectedBy.Some?
  {
    ApprovalRow(uuid, a.actionId, a.rejectedBy.value, REJECTED, a.rejectionReason,
                if a.rejectedAt.Some? then a.rejectedAt.value else clock)
  }

  /** The rows of one action, in insertion order: `row.approvals`. */
  function RowsOf(rows: seq<ApprovalRow>, id: Id): (r: seq<ApprovalRow>)
    ensures forall x <- r :: x in rows && x.actionId == id
    ensures forall x <- rows :: x.actionId == id ==> x in r
  {
    if rows == [] then []
    else
      var head, last := RowsOf(rows[..|rows| - 1], id), rows[|rows| - 1];
      if last.actionId == id then head + [last] else head
  }

  /** The sort key of the reader: creation time, then row identifier. */
  predicate Before(x: ApprovalRow, y: ApprovalRow) {
    x.createdAt < y.createdAt || (x.createdAt == y.createdAt && x.approvalId <= y.approvalId)
  }

  ghost predicate Sorted(rows: seq<ApprovalRow>) {
    forall i, j :: 0 <= i < j < |rows| ==> Before(rows[i], rows[j])
  }

  /** Stable insertion from the right. */
  function InsertRow(rows: seq<ApprovalRow>, row: ApprovalRow): (r: seq<ApprovalRow>)
    ensures multiset(r) == multiset(rows) + multiset{row}
    ensures |r| == |rows| + 1
  {
    if rows == [] then [row]
    else
      var n := |rows| - 1;
      assert rows == rows[..n] + [rows[n]];
      if Before(rows[n], row) then rows + [row]
      else InsertRow(rows[..n], row) + [rows[n]]
  }

  function SortRows(rows: seq<ApprovalRow>): (r: seq<ApprovalRow>)
    ensures multiset(r) == multiset(rows)
    ensures |r| == |rows|
  {
    if rows == [] then []
    else
      var n := |rows| - 1;
      assert rows == rows[..n] + [rows[n]];
      InsertRow(SortRows(rows[..n]), rows[n])
  }

  /** APPROVED rows as approval records, order kept. */
  function Records(rows: seq<ApprovalRow>): (r: seq<ApprovalRecord>)
  {
    if rows == [] then []
    else
      var head, last := Records(rows[..|rows| - 1]), rows[|rows| - 1];
      if last.decision == APPROVED then head + [ApprovalRecord(last.approverDiscordId, last.createdAt)] else head
  }

  /** The first REJECTED row, if any. */
  function FirstRejection(rows: seq<ApprovalRow>): (r: Option<ApprovalRow>)
    ensures r.Some? ==> r.value in rows && r.value.decision == REJECTED
    ensures r.None? ==> forall x <- rows :: x.decision != REJECTED
  {
    if rows == [] then None
    else if rows[0].decision == REJECTED then Some(rows[0])
    else
      assert forall x <- rows :: x == rows[0] || x in rows[1..];
      FirstRejection(rows[1..])
  }

  /** `_to_domain`. */
  function ToDomain(id: Id, row: ActionRow, children: seq<ApprovalRow>): Result<PendingAction> {
    var execution := DecodeResult(row.executionResult);
    var postcondition := DecodeResult(row.postconditionResult);
    var rejection := FirstRejection(children);
    if execution.Raise? || postcondition.Raise? then Raise(StorageFailure)
    else
      Ok(PendingAction(
           id, row.requesterDiscordId, row.envelope, row.stateFingerprint, row.status, row.createdAt,
           row.expiresAt, row.approvalsRequired, Records(SortRows(children)), row.confirmationConsumedAt,
           row.idempotencyKey, execution.value, postcondition.value, row.rejectionReason,
           if rejection.Some? then Some(rejection.value.approverDiscordId) else None,
           if rejection.Some? then Some(rejection.value.createdAt) else None,
           row.version))
  }

  // ---------- statements ----------

  /** INSERT into approvals, subject to UNIQUE(action_id, approver_discord_id). */
  function AddApproval(rows: seq<ApprovalRow>, row: ApprovalRow): Option<seq<ApprovalRow>> {
    if exists x <- rows :: x.actionId == row.actionId && x.approverDiscordId == row.approverDiscordId
    then None
    else Some(rows + [row])
  }

  predicate Recorded(existing: seq<ApprovalRow>, approver: Id, decision: Verdict) {
    exists x <- existing :: x.approverDiscordId == approver && x.decision == decision
  }

  /** The insert-only loop of `_sync_decisions` over the approvals. */
  function SyncApprovals(rows: seq<ApprovalRow>, existing: seq<ApprovalRow>, id: Id,
                         approvals: seq<ApprovalRecord>, uuid: int): Option<seq<ApprovalRow>>
  {
    if approvals == [] then Some(rows)
    else
      var n := |approvals| - 1;
      match SyncApprovals(rows, existing, id, approvals[..n], uuid)
      case None => None
      case Some(before) =>
        if Recorded(existing, approvals[n].approverId, APPROVED) then Some(before)
        else AddApproval(before, ApprovedRow(id, approvals[n], uuid + n))
  }

  function FindExecution(rows: seq<ExecutionRow>, id: Id): (r: Option<nat>)
    ensures r.Some? ==> r.value < |rows| && rows[r.value].actionId == id
    ensures r.None? ==> forall x <- rows :: x.actionId != id
  {
    if rows == [] then None
    else
      var n := |rows| - 1;
      if rows[n].actionId == id then Some(n) else FindExecution(rows[..n], id)
  }

  function ExecutionAfter(row: ExecutionRow, a: PendingAction): ExecutionRow {
    row.(status := if a.status == Executing then STARTED else Finished(a.status),
         result := EncodeResult(a.executionResult),
         postcondition := EncodeResult(a.postconditionResult),
         uncertainOutcome := a.status == Unknown)
  }

  /** The same repository as mutable tables. */
  class SqlAlchemyApprovalRepository {
    var actionRows: map<Id, ActionRow>
    var approvalRows: seq<ApprovalRow>
    var executionRows: seq<ExecutionRow>

    ghost function Value(): Tables
      reads this
    {
      Tables(actionRows, approvalRows, executionRows)
    }

    constructor ()
      ensures Value() == EMPTY
    {
      actionRows, approvalRows, executionRows := map[], [], [];
    }

    method Insert(action: PendingAction, uuid: int, clock: Instant) returns (r: Result<()>)
      modifies this
      ensures match old(Value()).Insert(action, uuid, clock)
              case Ok(t) => r == Ok(()) && Value() == t
              case Raise(e) => r == Raise(e) && Value() == old(Value())
    {
      if action.actionId in actionRows { return Raise(UniqueViolation); }
      if exists id <- actionRows :: actionRows[id].idempotencyKey == action.idempotencyKey {
        return Raise(UniqueViolation);
      }
      var rows := approvalRows;
      for i := 0 to |action.approvals|
        invariant SyncApprovals(approvalRows, [], action.actionId, action.approvals[..i], uuid) == Some(rows)
      {
        assert action.approvals[..i + 1][..i] == action.approvals[..i];
        var added := AddApproval(rows, ApprovedRow(action.actionId, action.approvals[i], uuid + i));
        if added.None? {
          SyncApprovalsFails(approvalRows, [], action.actionId, action.approvals, uuid, i + 1);
          return Raise(UniqueViolation);
        }
        rows := added.value;
      }
      assert action.approvals[..|action.approvals|] == action.approvals;
      if action.rejectedBy.Some? {
        var added := AddApproval(rows, RejectionRow(action, uuid + |action.approvals|, clock));
        if added.None? { return Raise(UniqueViolation); }
        rows := added.value;
      }
      actionRows, approvalRows := actionRows[action.actionId := EncodeRow(action)], rows;
      r := Ok(());
    }

    method SyncDecisions(action: PendingAction, uuid: int, clock: Instant) returns (r: Result<()>)
      modifies this`approvalRows
      ensures match old(Value()).SyncDecisions(action, uuid, clock)
              case Ok(t) => r == Ok(()) && Value() == t
              case Raise(e) => r == Raise(e)
    {
      var existing := RowsOf(approvalRows, action.actionId);
      ghost var start := approvalRows;
      for i := 0 to |action.approvals|
        invariant SyncApprovals(start, existing, action.actionId, action.approvals[..i], uuid) == Some(approvalRows)
      {
        var approval := action.approvals[i];
        assert action.approvals[..i + 1][..i] == action.approvals[..i];
        if !Recorded(existing, approval.approverId, APPROVED) {
          var added := AddApproval(approvalRows, ApprovedRow(action.actionId, approval, uuid + i));
          if added.None? {
            SyncApprovalsFails(start, existing, action.actionId, action.approvals, uuid, i + 1);
            return Raise(UniqueViolation);
          }
          approvalRows := added.value;
        }
      }
      assert action.approvals[..|action.approvals|] == action.approvals;
      if action.rejectedBy.Some? && !Recorded(existing, action.rejectedBy.value, REJECTED) {
        var added := AddApproval(approvalRows, RejectionRow(action, uuid + |action.approvals|, clock));
        if added.None? { return Raise(UniqueViolation); }
        approvalRows := added.value;
      }
      r := Ok(());
    }

    method SyncExecution(action: PendingAction) returns (r: Result<()>)
      modifies this`executionRows
      ensures match old(Value()).SyncExecution(action)
              case Ok(t) => r == Ok(()) && Value() == t
              case Raise(e) => r == Raise(e)
    {
      if !Execution(action.status) { return Ok(()); }
      var found := FindExecution(executionRows, action.actionId);
      if found.None? { return Raise(MissingClaim); }
      var row := executionRows[found.value];
      row := row.(status := if action.status == Executing then STARTED else Finished(action.status));
      row := row.(result := EncodeResult(action.executionResult));
      row := row.(postcondition := EncodeResult(action.postconditionResult));
      row := row.(uncertainOutcome := action.status == Unknown);
      executionRows := executionRows[found.value := row];
      r := Ok(());
    }

    method Replace(action: PendingAction, expectedVersion: int, uuid: int, clock: Instant) returns (r: Result<()>)
      modifies this
      ensures match old(Value()).Replace(action, expectedVersion, uuid, clock)
              case Ok(t) => r == Ok(()) && Value() == t
              case Raise(e) => r == Raise(e) && Value() == old(Value())
    {
      if action.version != expectedVersion + 1 { return Raise(VersionSkew); }
      var savedActions, savedApprovals, savedExecutions := actionRows, approvalRows, executionRows;
      var matched := action.actionId in actionRows && actionRows[action.actionId].version == expectedVersion;
      if !matched { return Raise(ConcurrentUpdate); }
      if exists id <- actionRows :: id != action.actionId && actionRows[id].idempotencyKey == action.idempotencyKey {
        return Raise(UniqueViolation);
      }
      actionRows := actionRows[action.actionId := EncodeRow(action)];
      r := SyncDecisions(action, uuid, clock);
      if r.Ok? {
        r := SyncExecution(action);
      }
      if r.Raise? {
        actionRows, approvalRows, executionRows := savedActions, savedApprovals, savedExecutions;
      }
    }

    method ClaimIdempotency(key: string, actionId: Id) returns (granted: bool)
      modifies this`executionRows
      ensures granted <==> old(Value()).Claim(key, actionId).Some?
      ensures Value() == if granted then old(Value()).Claim(key, actionId).value else old(Value())
    {
      if !(actionId in actionRows && actionRows[actionId].idempotencyKey == key) { return false; }
      if exists x <- executionRows :: x.actionId == actionId || x.idempotencyKey == key { return false; }
      executionRows := executionRows + [ExecutionRow(actionId, key, CLAIMED, None, None, false)];
      granted := true;
    }

    method Get(actionId: Id) returns (r: Result<Option<PendingAction>>)
      ensures r == Value().Get(actionId)
    {
      if actionId !in actionRows { return Ok(None); }
      var domain := ToDomain(actionId, actionRows[actionId], RowsOf(approvalRows, actionId));
      r := match domain case Ok(a) => Ok(Some(a)) case Raise(e) => Raise(e);
    }
  }

  lemma {:induction false} SyncApprovalsFails(rows: seq<ApprovalRow>, existing: seq<ApprovalRow>, id: Id,
                                              approvals: seq<ApprovalRecord>, uuid: int, k: nat)
    requires k <= |approvals|
    requires SyncApprovals(rows, existing, id, approvals[..k], uuid).None?
    ensures SyncApprovals(rows, existing, id, approvals, uuid).None?
    decreases |approvals|
  {
    if k == |approvals| {
      assert approvals[..k] == approvals;
    } else {
      var n := |approvals| - 1;
      assert approvals[..n][..k] == approvals[..k];
      SyncApprovalsFails(rows, existing, id, approvals[..n], uuid, k);
    }
  }
}
