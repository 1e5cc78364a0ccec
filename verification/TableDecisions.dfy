/** What the statements of the three-table repository accept and refuse, whatever is in
    the tables, and what they leave. */
module TableDecisions {
  import opened ApprovalModel
  import opened Options
  import opened SqlStore

  predicate KeyTaken(t: Tables, key: string) {
    exists id <- t.actions :: t.actions[id].idempotencyKey == key
  }

  /** Some other action has the key. */
  predicate KeyClashes(t: Tables, a: PendingAction) {
    exists id <- t.actions :: id != a.actionId && t.actions[id].idempotencyKey == a.idempotencyKey
  }

  predicate HasExecution(t: Tables, id: Id) {
    exists i :: 0 <= i < |t.executions| && t.executions[i].actionId == id
  }

  /** A key is claimed once, for the action that carries it, and leaves one CLAIMED row. */
  lemma ClaimExactly(t: Tables, key: string, id: Id)
    ensures t.Claim(key, id).Some?
            <==> && id in t.actions && t.actions[id].idempotencyKey == key
                 && forall i :: 0 <= i < |t.executions| ==> t.executions[i].actionId != id && t.executions[i].idempotencyKey != key
    ensures t.Claim(key, id).Some? ==>
              t.Claim(key, id).value
              == Tables(t.actions, t.approvals, t.executions + [ExecutionRow(id, key, CLAIMED, None, None, false)])
  {
    if id in t.actions && t.actions[id].idempotencyKey == key {
      if exists x <- t.executions :: x.actionId == id || x.idempotencyKey == key {
        var x :| x in t.executions && (x.actionId == id || x.idempotencyKey == key);
        var i :| 0 <= i < |t.executions| && t.executions[i] == x;
      }
    }
  }

  /** The conditional update comes first: skewed and stale versions, then the key. */
  lemma ReplaceRefusals(t: Tables, a: PendingAction, expected: int, uuid: int, clock: Instant)
    ensures a.version != expected + 1 ==> t.Replace(a, expected, uuid, clock) == Raise(VersionSkew)
    ensures a.version == expected + 1 && (a.actionId !in t.actions || t.actions[a.actionId].version != expected) ==>
              t.Replace(a, expected, uuid, clock) == Raise(ConcurrentUpdate)
    ensures a.version == expected + 1 && a.actionId in t.actions && t.actions[a.actionId].version == expected ==>
              (KeyClashes(t, a) ==> t.Replace(a, expected, uuid, clock) == Raise(UniqueViolation))
  {
  }

  /** A replacement that goes through writes the action's row, adds decision rows and
      changes the one execution row, and no other. */
  lemma ReplaceLeaves(t: Tables, a: PendingAction, expected: int, uuid: int, clock: Instant)
    requires t.Replace(a, expected, uuid, clock).Ok?
    ensures var after := t.Replace(a, expected, uuid, clock).value;
            && after.actions == t.actions[a.actionId := EncodeRow(a)]
            && t.approvals <= after.approvals
            && |after.executions| == |t.executions|
            && (!Executes(a.status) ==> after.executions == t.executions)
            && (forall i :: 0 <= i < |t.executions| && t.executions[i].actionId != a.actionId ==>
                  after.executions[i] == t.executions[i])
  {
    SyncOnlyAdds(t.approvals, RowsOf(t.approvals, a.actionId), a.actionId, a.approvals, uuid);
  }

  predicate Executes(s: Status) {
    s == Executing || s == Succeeded || s == Failed || s == Unknown || s == ReconciledNotApplied
  }

  lemma {:induction false} SyncOnlyAdds(rows: seq<ApprovalRow>, existing: seq<ApprovalRow>, id: Id,
                                        approvals: seq<ApprovalRecord>, uuid: int)
    ensures var r := SyncApprovals(rows, existing, id, approvals, uuid); r.Some? ==> rows <= r.value
  {
    if approvals != [] {
      SyncOnlyAdds(rows, existing, id, approvals[..|approvals| - 1], uuid);
    }
  }

  /** An execution status without a claim is refused, whatever else is written. */
  lemma MissingClaimIsRefused(t: Tables, a: PendingAction)
    ensures t.SyncExecution(a).Raise? <==> Executes(a.status) && !HasExecution(t, a.actionId)
    ensures t.SyncExecution(a).Raise? ==> t.SyncExecution(a) == Raise(MissingClaim)
  {
    if HasExecution(t, a.actionId) {
      var i :| 0 <= i < |t.executions| && t.executions[i].actionId == a.actionId;
      assert t.executions[i] in t.executions;
    }
  }

  /** A fresh action needs a fresh identifier and key, and is one row. */
  lemma InsertExactly(t: Tables, a: PendingAction, uuid: int, clock: Instant)
    requires Prepared(a)
    ensures a.actionId in t.actions || KeyTaken(t, a.idempotencyKey) ==>
              t.Insert(a, uuid, clock) == Raise(UniqueViolation)
    ensures a.actionId !in t.actions && !KeyTaken(t, a.idempotencyKey) ==>
              t.Insert(a, uuid, clock) == Ok(Tables(t.actions[a.actionId := EncodeRow(a)], t.approvals, t.executions))
  {
  }

  predicate Legible(column: Option<map<string, string>>) {
    column.None? || "summary" in column.value
  }

  /** Reading raises exactly on a result document without its text. */
  lemma GetRaises(t: Tables, id: Id)
    ensures t.Get(id) == Ok(None) <==> id !in t.actions
    ensures t.Get(id).Raise?
            <==> id in t.actions && !(Legible(t.actions[id].executionResult) && Legible(t.actions[id].postconditionResult))
    ensures t.Get(id).Raise? ==> t.Get(id) == Raise(StorageFailure)
  {
  }
}
