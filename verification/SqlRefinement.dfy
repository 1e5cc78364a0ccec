/** The three tables represent the dictionaries, operation by operation and
    over whole runs. */
module SqlRefinement {
  import opened ApprovalModel
  import opened ApprovalProtocol
  import opened ApprovalSafety
  import opened Options
  import opened SqlStore
  import MemoryStore

  /** Equal but for the order of the approvals. */
  ghost predicate Same(a: PendingAction, b: PendingAction) {
    a.(approvals := b.approvals) == b && multiset(a.approvals) == multiset(b.approvals)
  }

  function ApprovedRows(rows: seq<ApprovalRow>): (r: seq<ApprovalRow>)
    ensures forall x <- r :: x in rows && x.decision == APPROVED
  {
    if rows == [] then []
    else
      var head, last := ApprovedRows(rows[..|rows| - 1]), rows[|rows| - 1];
      if last.decision == APPROVED then head + [last] else head
  }

  ghost predicate Mirrors(x: ExecutionRow, a: PendingAction) {
    && x.idempotencyKey == a.idempotencyKey
    && (Execution(a.status) ==>
          && x.status == (if a.status == Executing then STARTED else Finished(a.status))
          && Holds(x.result, a.executionResult) && Holds(x.postcondition, a.postconditionResult)
          && (x.uncertainOutcome <==> a.status == Unknown))
    && (!Execution(a.status) ==>
          x.status == CLAIMED && x.result == None && x.postcondition == None && !x.uncertainOutcome)
  }

  /** The column holds the text, under the one key of its document. */
  predicate Holds(column: Option<map<string, string>>, text: Option<string>) {
    column == match text case None => None case Some(t) => Some(map["summary" := t])
  }

  ghost predicate DecisionsMatch(rows: seq<ApprovalRow>, a: PendingAction) {
    && Records(RowsOf(rows, a.actionId)) == a.approvals
    && match FirstRejection(RowsOf(rows, a.actionId))
       case None => a.rejectedBy == None && a.rejectedAt == None
       case Some(row) =>
         && a.rejectedBy == Some(row.approverDiscordId) && a.rejectedAt == Some(row.createdAt)
         && row.redactedReason == a.rejectionReason
  }

  ghost predicate ExecutionsMatch(rows: seq<ExecutionRow>, st: MemoryStore.Store) {
    && (forall x <- rows ::
          x.actionId in st.actions && Mirrors(x, st.actions[x.actionId]) && x.idempotencyKey in st.claims)
    && (forall key <- st.claims :: exists x <- rows :: x.idempotencyKey == key)
    && (forall i, j :: 0 <= i < j < |rows| ==> rows[i].actionId != rows[j].actionId)
  }

  ghost predicate RowsMatch(rows: map<Id, ActionRow>, actions: map<Id, PendingAction>) {
    && rows.Keys == actions.Keys
    && (forall id <- actions :: rows[id] == EncodeRow(actions[id]))
  }

  ghost predicate OwnersIn(rows: seq<ApprovalRow>, ids: set<Id>) {
    forall row <- rows :: row.actionId in ids
  }

  ghost predicate DecisionsAllMatch(rows: seq<ApprovalRow>, actions: map<Id, PendingAction>) {
    forall id <- actions :: DecisionsMatch(rows, actions[id])
  }

  ghost predicate Represents(t: Tables, st: MemoryStore.Store) {
    && RowsMatch(t.actions, st.actions)
    && DecisionsAllMatch(t.approvals, st.actions)
    && OwnersIn(t.approvals, st.actions.Keys)
    && ExecutionsMatch(t.executions, st)
  }

  // ---------- rows ----------

  lemma RowsOfAppend(rows: seq<ApprovalRow>, row: ApprovalRow, id: Id)
    ensures RowsOf(rows + [row], id) == if row.actionId == id then RowsOf(rows, id) + [row] else RowsOf(rows, id)
  {
    assert (rows + [row])[..|rows|] == rows;
  }

  lemma RecordsAppend(rows: seq<ApprovalRow>, row: ApprovalRow)
    ensures Records(rows + [row])
            == if row.decision == APPROVED
               then Records(rows) + [ApprovalRecord(row.approverDiscordId, row.createdAt)] else Records(rows)
  {
    assert (rows + [row])[..|rows|] == rows;
  }

  lemma {:induction false} FirstRejectionAppend(rows: seq<ApprovalRow>, row: ApprovalRow)
    ensures FirstRejection(rows + [row])
            == if FirstRejection(rows).Some? then FirstRejection(rows)
               else if row.decision == REJECTED then Some(row) else None
  {
    if rows != [] {
      assert (rows + [row])[1..] == rows[1..] + [row];
      FirstRejectionAppend(rows[1..], row);
    }
  }

  lemma {:induction false} RecordsOfRows(rows: seq<ApprovalRow>, approver: Id)
    ensures Recorded(rows, approver, APPROVED) <==> exists r <- Records(rows) :: r.approverId == approver
  {
    if rows == [] {
      return;
    }
    var head, last := rows[..|rows| - 1], rows[|rows| - 1];
    assert rows == head + [last];
    RecordsOfRows(head, approver);
    RecordsAppend(head, last);
    var record := ApprovalRecord(last.approverDiscordId, last.createdAt);
    assert forall x :: x in rows <==> x in head || x == last;
    assert last.decision == APPROVED ==> forall r :: r in Records(rows) <==> r in Records(head) || r == record;
  }

  // ---------- the sort of the reader ----------

  lemma {:induction false} InsertRowSorted(rows: seq<ApprovalRow>, row: ApprovalRow)
    requires Sorted(rows)
    ensures Sorted(InsertRow(rows, row))
  {
    if rows != [] && !Before(rows[|rows| - 1], row) {
      var n := |rows| - 1;
      InsertRowSorted(rows[..n], row);
      var head := InsertRow(rows[..n], row);
      forall x | x in head
        ensures Before(x, rows[n])
      {
        assert x in multiset(head);
        assert x in multiset(rows[..n]) || x == row;
      }
    }
  }

  lemma {:induction false} SortRowsSorted(rows: seq<ApprovalRow>)
    ensures Sorted(SortRows(rows))
  {
    if rows != [] {
      SortRowsSorted(rows[..|rows| - 1]);
      InsertRowSorted(SortRows(rows[..|rows| - 1]), rows[|rows| - 1]);
    }
  }

  lemma {:induction false} SortedIsFixed(rows: seq<ApprovalRow>)
    requires Sorted(rows)
    ensures SortRows(rows) == rows
  {
    if rows != [] {
      var n := |rows| - 1;
      SortedIsFixed(rows[..n]);
      assert rows == rows[..n] + [rows[n]];
      if n > 0 {
        assert Before(rows[n - 1], rows[n]);
      }
    }
  }

  lemma ApprovedAppend(rows: seq<ApprovalRow>, row: ApprovalRow)
    ensures ApprovedRows(rows + [row])
            == if row.decision == APPROVED then ApprovedRows(rows) + [row] else ApprovedRows(rows)
  {
    assert (rows + [row])[..|rows|] == rows;
  }

  lemma InsertBefore(rows: seq<ApprovalRow>, last: ApprovalRow, row: ApprovalRow)
    ensures Before(last, row) ==> InsertRow(rows + [last], row) == rows + [last] + [row]
    ensures !Before(last, row) ==> InsertRow(rows + [last], row) == InsertRow(rows, row) + [last]
  {
    assert (rows + [last])[..|rows|] == rows;
  }

  lemma {:induction false} ApprovedOfInsert(rows: seq<ApprovalRow>, row: ApprovalRow)
    requires Sorted(rows)
    ensures ApprovedRows(InsertRow(rows, row))
            == if row.decision == APPROVED then InsertRow(ApprovedRows(rows), row) else ApprovedRows(rows)
  {
    if rows == [] {
      ApprovedAppend([], row);
      assert [] + [row] == [row];
      return;
    }
    var head, last := rows[..|rows| - 1], rows[|rows| - 1];
    assert rows == head + [last];
    InsertBefore(head, last, row);
    if Before(last, row) {
      ApprovedAppend(rows, row);
      InsertLast(rows, row);
    } else {
      ApprovedOfInsert(head, row);
      ApprovedStep(head, last, row);
    }
  }

  lemma ApprovedStep(head: seq<ApprovalRow>, last: ApprovalRow, row: ApprovalRow)
    requires !Before(last, row)
    requires ApprovedRows(InsertRow(head, row))
             == if row.decision == APPROVED then InsertRow(ApprovedRows(head), row) else ApprovedRows(head)
    ensures ApprovedRows(InsertRow(head, row) + [last])
            == if row.decision == APPROVED then InsertRow(ApprovedRows(head + [last]), row) else ApprovedRows(head + [last])
  {
    ApprovedAppend(InsertRow(head, row), last);
    ApprovedAppend(head, last);
    InsertBefore(ApprovedRows(head), last, row);
  }

  lemma InsertLast(rows: seq<ApprovalRow>, row: ApprovalRow)
    requires Sorted(rows) && rows != [] && Before(rows[|rows| - 1], row)
    ensures InsertRow(ApprovedRows(rows), row) == ApprovedRows(rows) + [row]
  {
    var a := ApprovedRows(rows);
    if a != [] {
      assert a[|a| - 1] in a;
      assert a[|a| - 1] in rows;
    }
  }

  lemma SortAppend(rows: seq<ApprovalRow>, row: ApprovalRow)
    ensures SortRows(rows + [row]) == InsertRow(SortRows(rows), row)
  {
    assert (rows + [row])[..|rows|] == rows;
  }

  /** Sorting and selecting the approvals commute. */
  lemma {:induction false} SortSelects(rows: seq<ApprovalRow>)
    ensures ApprovedRows(SortRows(rows)) == SortRows(ApprovedRows(rows))
  {
    if rows == [] {
      return;
    }
    var head, last := rows[..|rows| - 1], rows[|rows| - 1];
    assert rows == head + [last];
    SortSelects(head);
    SortRowsSorted(head);
    SortAppend(head, last);
    ApprovedOfInsert(SortRows(head), last);
    ApprovedAppend(head, last);
    SortAppend(ApprovedRows(head), last);
  }

  lemma {:induction false} RecordsOfApproved(rows: seq<ApprovalRow>)
    ensures Records(ApprovedRows(rows)) == Records(rows)
  {
    if rows == [] {
      return;
    }
    var head, last := rows[..|rows| - 1], rows[|rows| - 1];
    assert rows == head + [last];
    RecordsOfApproved(head);
    ApprovedAppend(head, last);
    RecordsAppend(head, last);
    RecordsAppend(ApprovedRows(head), last);
  }

  lemma {:induction false} RecordsOfAllApproved(rows: seq<ApprovalRow>)
    requires forall x <- rows :: x.decision == APPROVED
    ensures |Records(rows)| == |rows|
    ensures forall i :: 0 <= i < |rows| ==> Records(rows)[i] == ApprovalRecord(rows[i].approverDiscordId, rows[i].createdAt)
  {
    if rows != [] {
      RecordsOfAllApproved(rows[..|rows| - 1]);
    }
  }

  /** Rows of distinct approvers come back in order just when they are sorted. */
  lemma OrderKept(rows: seq<ApprovalRow>)
    requires DistinctApprovers(Records(rows))
    ensures Records(SortRows(rows)) == Records(rows) <==> Sorted(ApprovedRows(rows))
  {
    var approved := ApprovedRows(rows);
    SortSelects(rows);
    RecordsOfApproved(rows);
    RecordsOfApproved(SortRows(rows));
    assert Records(SortRows(rows)) == Records(SortRows(approved));
    if Sorted(approved) {
      SortedIsFixed(approved);
    }
    if Records(SortRows(approved)) == Records(approved) {
      SameRecordsSameRows(approved);
      SortRowsSorted(approved);
    }
  }

  lemma SameRecordsSameRows(rows: seq<ApprovalRow>)
    requires forall x <- rows :: x.decision == APPROVED
    requires DistinctApprovers(Records(rows)) && Records(SortRows(rows)) == Records(rows)
    ensures SortRows(rows) == rows
  {
    var sorted := SortRows(rows);
    forall x | x in sorted
      ensures x in rows
    {
      assert x in multiset(sorted);
    }
    RecordsOfAllApproved(rows);
    RecordsOfAllApproved(sorted);
    MatchingRows(sorted, rows, Records(rows));
  }

  lemma MatchingRows(s: seq<ApprovalRow>, t: seq<ApprovalRow>, records: seq<ApprovalRecord>)
    requires |s| == |t| == |records| && DistinctApprovers(records)
    requires forall i :: 0 <= i < |records| ==>
               records[i].approverId == s[i].approverDiscordId && records[i].approverId == t[i].approverDiscordId
    requires forall x <- s :: x in t
    ensures s == t
  {
    forall i | 0 <= i < |s|
      ensures s[i] == t[i]
    {
      assert s[i] in t;
      var k :| 0 <= k < |t| && t[k] == s[i];
      assert records[k].approverId == records[i].approverId;
    }
  }

  lemma {:induction false} RecordsPermute(rows: seq<ApprovalRow>, row: ApprovalRow)
    ensures multiset(Records(InsertRow(rows, row))) == multiset(Records(rows + [row]))
  {
    RecordsAppend(rows, row);
    if rows != [] && !Before(rows[|rows| - 1], row) {
      var n := |rows| - 1;
      assert rows == rows[..n] + [rows[n]];
      RecordsPermute(rows[..n], row);
      RecordsAppend(InsertRow(rows[..n], row), rows[n]);
      RecordsAppend(rows[..n], row);
      RecordsAppend(rows[..n], rows[n]);
    }
  }

  lemma {:induction false} SortPermutesRecords(rows: seq<ApprovalRow>)
    ensures multiset(Records(SortRows(rows))) == multiset(Records(rows))
  {
    if rows != [] {
      var n := |rows| - 1;
      assert rows == rows[..n] + [rows[n]];
      SortPermutesRecords(rows[..n]);
      RecordsPermute(SortRows(rows[..n]), rows[n]);
      RecordsAppend(SortRows(rows[..n]), rows[n]);
      RecordsAppend(rows[..n], rows[n]);
    }
  }

  // ---------- get ----------

  lemma ToDomainSame(rows: seq<ApprovalRow>, a: PendingAction)
    requires DecisionsMatch(rows, a)
    ensures ToDomain(a.actionId, EncodeRow(a), RowsOf(rows, a.actionId)).Ok?
    ensures Same(ToDomain(a.actionId, EncodeRow(a), RowsOf(rows, a.actionId)).value, a)
    ensures ToDomain(a.actionId, EncodeRow(a), RowsOf(rows, a.actionId)).value.approvals
            == Records(SortRows(RowsOf(rows, a.actionId)))
  {
    SortPermutesRecords(RowsOf(rows, a.actionId));
    ResultRoundTrip(a.executionResult);
    ResultRoundTrip(a.postconditionResult);
  }

  /** Reading back: never an error, the same action up to approval order. */
  lemma GetRefines(t: Tables, st: MemoryStore.Store, id: Id)
    requires StoreInv(st) && Represents(t, st)
    ensures id !in st.actions ==> t.Get(id) == Ok(None)
    ensures id in st.actions ==>
              t.Get(id).Ok? && t.Get(id).value.Some? && Same(t.Get(id).value.value, st.actions[id])
  {
    if id in st.actions {
      ToDomainSame(t.approvals, st.actions[id]);
    }
  }

  /** The order is exact if and only if the APPROVED rows, in the order in which
      they were written, are already ordered by creation time and then row
      identifier (so distinct increasing timestamps suffice). */
  lemma ExactOrder(t: Tables, st: MemoryStore.Store, id: Id)
    requires StoreInv(st) && Represents(t, st) && id in st.actions
    ensures t.Get(id) == Ok(Some(st.actions[id])) <==> Sorted(ApprovedRows(RowsOf(t.approvals, id)))
  {
    ToDomainSame(t.approvals, st.actions[id]);
    OrderKept(RowsOf(t.approvals, id));
  }

  /** Each record stamped later than the one before it. */
  predicate StampsIncrease(rs: seq<ApprovalRecord>) {
    forall i, j :: 0 <= i < j < |rs| ==> rs[i].approvedAt < rs[j].approvedAt
  }

  /** Some record stamped earlier than one before it. */
  predicate StampGoesBack(rs: seq<ApprovalRecord>) {
    exists i, j :: 0 <= i < j < |rs| && rs[j].approvedAt < rs[i].approvedAt
  }

  /** What the clocks of the approvals decide: increasing stamps read back exactly, a
      stamp that goes back never does; between equal stamps the row identifiers do. */
  lemma StampsDecide(t: Tables, st: MemoryStore.Store, id: Id)
    requires StoreInv(st) && Represents(t, st) && id in st.actions
    ensures StampsIncrease(st.actions[id].approvals) ==> t.Get(id) == Ok(Some(st.actions[id]))
    ensures StampGoesBack(st.actions[id].approvals) ==> t.Get(id) != Ok(Some(st.actions[id]))
  {
    ExactOrder(t, st, id);
    StampsSort(RowsOf(t.approvals, id));
  }

  lemma StampsSort(rows: seq<ApprovalRow>)
    ensures StampsIncrease(Records(rows)) ==> Sorted(ApprovedRows(rows))
    ensures StampGoesBack(Records(rows)) ==> !Sorted(ApprovedRows(rows))
  {
    var approved := ApprovedRows(rows);
    RecordsOfApproved(rows);
    RecordsOfAllApproved(approved);
    if StampGoesBack(Records(rows)) {
      var i, j :| 0 <= i < j < |Records(rows)| && Records(rows)[j].approvedAt < Records(rows)[i].approvedAt;
      assert !Before(approved[i], approved[j]);
    }
  }

  // ---------- replace: the decision rows ----------

  predicate Extended(before: seq<ApprovalRecord>, after: seq<ApprovalRecord>, added: Option<ApprovalRecord>) {
    after == if added.Some? then before + [added.value] else before
  }

  /** At most one row was added, and it belongs to `id`. */
  predicate GrownBy(before: seq<ApprovalRow>, after: seq<ApprovalRow>, id: Id) {
    after == before || (|after| == |before| + 1 && after[..|before|] == before && after[|before|].actionId == id)
  }

  lemma {:induction false} SyncKnown(rows: seq<ApprovalRow>, existing: seq<ApprovalRow>, id: Id,
                                     approvals: seq<ApprovalRecord>, uuid: int)
    requires forall r <- approvals :: Recorded(existing, r.approverId, APPROVED)
    ensures SyncApprovals(rows, existing, id, approvals, uuid) == Some(rows)
  {
    if approvals != [] {
      SyncKnown(rows, existing, id, approvals[..|approvals| - 1], uuid);
    }
  }

  lemma SyncNew(rows: seq<ApprovalRow>, existing: seq<ApprovalRow>, id: Id,
                known: seq<ApprovalRecord>, added: ApprovalRecord, uuid: int)
    requires forall r <- known :: Recorded(existing, r.approverId, APPROVED)
    requires !Recorded(existing, added.approverId, APPROVED)
    requires forall x <- rows :: x.actionId == id ==> x.approverDiscordId != added.approverId
    ensures SyncApprovals(rows, existing, id, known + [added], uuid)
            == Some(rows + [ApprovedRow(id, added, uuid + |known|)])
  {
    SyncKnown(rows, existing, id, known, uuid);
    assert (known + [added])[..|known|] == known;
  }

  /** While an action is undecided its rows are exactly its recorded approvals. */
  lemma UndecidedRows(rows: seq<ApprovalRow>, a: PendingAction, approver: Id)
    requires DecisionsMatch(rows, a) && a.rejectedBy == None
    ensures Recorded(RowsOf(rows, a.actionId), approver, APPROVED) <==> a.ApprovedBy(approver)
    ensures !Recorded(RowsOf(rows, a.actionId), approver, REJECTED)
    ensures !a.ApprovedBy(approver) ==> forall x <- rows :: x.actionId == a.actionId ==> x.approverDiscordId != approver
  {
    var mine := RowsOf(rows, a.actionId);
    RecordsOfRows(mine, approver);
    if !a.ApprovedBy(approver) {
      forall x | x in rows && x.actionId == a.actionId
        ensures x.approverDiscordId != approver
      {
        assert x in mine && x.decision != REJECTED;
        assert x.decision == APPROVED;
      }
    }
  }

  lemma ApprovedAlike(p: seq<ApprovalRecord>, q: seq<ApprovalRecord>, r: ApprovalRecord)
    requires multiset(p) == multiset(q) && r in p
    ensures r in q
  {
    assert r in multiset(p);
  }

  lemma ReadIsRecorded(rows: seq<ApprovalRow>, a: PendingAction, read: seq<ApprovalRecord>)
    requires DecisionsMatch(rows, a) && a.rejectedBy == None && multiset(read) == multiset(a.approvals)
    ensures forall r <- read :: Recorded(RowsOf(rows, a.actionId), r.approverId, APPROVED)
  {
    forall r | r in read
      ensures Recorded(RowsOf(rows, a.actionId), r.approverId, APPROVED)
    {
      ApprovedAlike(read, a.approvals, r);
      UndecidedRows(rows, a, r.approverId);
    }
  }

  lemma ApprovalRefines(rows: seq<ApprovalRow>, a: PendingAction, next: PendingAction,
                        read: seq<ApprovalRecord>, record: ApprovalRecord, uuid: int)
    requires DecisionsMatch(rows, a) && Succeeds(a, next) && WellFormed(next)
    requires multiset(read) == multiset(a.approvals) && next.approvals == a.approvals + [record]
    ensures var row := ApprovedRow(a.actionId, record, uuid + |read|);
            && SyncApprovals(rows, RowsOf(rows, a.actionId), a.actionId, read + [record], uuid) == Some(rows + [row])
            && DecisionsMatch(rows + [row], next)
    ensures next.rejectedBy == None
  {
    var existing := RowsOf(rows, a.actionId);
    var row := ApprovedRow(a.actionId, record, uuid + |read|);
    ReadIsRecorded(rows, a, read);
    NotYetApproved(a, next, record);
    UndecidedRows(rows, a, record.approverId);
    SyncNew(rows, existing, a.actionId, read, record, uuid);
    assert next.approvals != a.approvals;
    RowsOfAppend(rows, row, a.actionId);
    RecordsAppend(existing, row);
    FirstRejectionAppend(existing, row);
  }

  /** The insert-only synchronisation never meets the unique constraint and
      leaves exactly the decisions of the new value. */
  lemma SyncDecisionsRefines(t: Tables, a: PendingAction, next: PendingAction, write: PendingAction,
                             read: seq<ApprovalRecord>, added: Option<ApprovalRecord>, uuid: int, clock: Instant)
    requires DecisionsMatch(t.approvals, a) && Succeeds(a, next) && WellFormed(next) && Same(write, next)
    requires multiset(read) == multiset(a.approvals)
    requires Extended(read, write.approvals, added) && Extended(a.approvals, next.approvals, added)
    ensures var r := t.SyncDecisions(write, uuid, clock);
            && r.Ok? && r.value == t.(approvals := r.value.approvals)
            && DecisionsMatch(r.value.approvals, next)
            && GrownBy(t.approvals, r.value.approvals, a.actionId)
  {
    if added.Some? {
      ApprovalRefines(t.approvals, a, next, read, added.value, uuid);
      SyncDecisionsIs(t, write, t.approvals + [ApprovedRow(a.actionId, added.value, uuid + |read|)], uuid, clock);
    } else {
      ReadIsRecorded(t.approvals, a, read);
      SyncKnown(t.approvals, RowsOf(t.approvals, a.actionId), a.actionId, read, uuid);
      if next.rejectedBy.Some? {
        RejectionRefines(t, a, next, write, uuid, clock);
      }
      SyncDecisionsIs(t, write, t.approvals, uuid, clock);
    }
  }

  lemma SyncDecisionsIs(t: Tables, write: PendingAction, rows: seq<ApprovalRow>, uuid: int, clock: Instant)
    requires SyncApprovals(t.approvals, RowsOf(t.approvals, write.actionId), write.actionId, write.approvals, uuid)
             == Some(rows)
    requires write.rejectedBy.Some? ==>
               && !Recorded(RowsOf(t.approvals, write.actionId), write.rejectedBy.value, REJECTED)
               && AddApproval(rows, RejectionRow(write, uuid + |write.approvals|, clock)).Some?
    ensures t.SyncDecisions(write, uuid, clock)
            == Ok(t.(approvals := if write.rejectedBy.None? then rows
                                  else rows + [RejectionRow(write, uuid + |write.approvals|, clock)]))
  {
  }

  lemma NotYetApproved(a: PendingAction, next: PendingAction, record: ApprovalRecord)
    requires WellFormed(next) && next.approvals == a.approvals + [record]
    ensures !a.ApprovedBy(record.approverId)
  {
    forall r | r in a.approvals
      ensures r.approverId != record.approverId
    {
      var i :| 0 <= i < |a.approvals| && a.approvals[i] == r;
      assert next.approvals[i].approverId != next.approvals[|a.approvals|].approverId;
    }
  }

  lemma RejectionRefines(t: Tables, a: PendingAction, next: PendingAction, write: PendingAction, uuid: int, clock: Instant)
    requires DecisionsMatch(t.approvals, a) && Succeeds(a, next) && WellFormed(next) && Same(write, next)
    requires next.rejectedBy.Some? && next.approvals == a.approvals
    ensures var row := RejectionRow(write, uuid + |write.approvals|, clock);
            && !Recorded(RowsOf(t.approvals, a.actionId), write.rejectedBy.value, REJECTED)
            && row.actionId == a.actionId
            && AddApproval(t.approvals, row) == Some(t.approvals + [row])
            && DecisionsMatch(t.approvals + [row], next)
  {
    var row := RejectionRow(write, uuid + |write.approvals|, clock);
    assert !a.ApprovedBy(row.approverDiscordId);
    UndecidedRows(t.approvals, a, row.approverDiscordId);
    RowsOfAppend(t.approvals, row, a.actionId);
    RecordsAppend(RowsOf(t.approvals, a.actionId), row);
    FirstRejectionAppend(RowsOf(t.approvals, a.actionId), row);
  }

  // ---------- replace: the execution row ----------

  /** An action with a claimed key has its execution row. */
  lemma ClaimHasRow(rows: seq<ExecutionRow>, st: MemoryStore.Store, id: Id)
    requires StoreInv(st) && ExecutionsMatch(rows, st)
    requires id in st.actions && st.actions[id].idempotencyKey in st.claims
    ensures FindExecution(rows, id).Some?
  {
    var key := st.actions[id].idempotencyKey;
    var x :| x in rows && x.idempotencyKey == key;
    assert st.reserved[st.actions[x.actionId].idempotencyKey] == x.actionId;
    assert x.actionId == id;
  }

  lemma RowAfter(rows: seq<ExecutionRow>, i: nat, write: PendingAction, x: ExecutionRow)
    requires i < |rows| && x in rows[i := ExecutionAfter(rows[i], write)]
    requires forall k, l :: 0 <= k < l < |rows| ==> rows[k].actionId != rows[l].actionId
    ensures x == ExecutionAfter(rows[i], write) || (x in rows && x.actionId != rows[i].actionId)
  {
    var after := rows[i := ExecutionAfter(rows[i], write)];
    var k :| 0 <= k < |after| && after[k] == x;
  }

  lemma KeysCovered(rows: seq<ExecutionRow>, i: nat, write: PendingAction, key: string)
    requires i < |rows| && exists x <- rows :: x.idempotencyKey == key
    ensures exists x <- rows[i := ExecutionAfter(rows[i], write)] :: x.idempotencyKey == key
  {
    var after := rows[i := ExecutionAfter(rows[i], write)];
    var x :| x in rows && x.idempotencyKey == key;
    var k :| 0 <= k < |rows| && rows[k] == x;
    assert after[k] in after && after[k].idempotencyKey == key;
  }

  lemma ExecutionUpdated(rows: seq<ExecutionRow>, st: MemoryStore.Store, i: nat, next: PendingAction, write: PendingAction)
    requires ExecutionsMatch(rows, st) && i < |rows| && rows[i].actionId == next.actionId && Execution(next.status)
    requires next.actionId in st.actions && SameIdentity(st.actions[next.actionId], next) && Same(write, next)
    ensures ExecutionsMatch(rows[i := ExecutionAfter(rows[i], write)],
                            st.(actions := st.actions[next.actionId := next]))
  {
    var after := rows[i := ExecutionAfter(rows[i], write)];
    var st1 := st.(actions := st.actions[next.actionId := next]);
    assert rows[i] in rows;
    forall x | x in after
      ensures x.actionId in st1.actions && Mirrors(x, st1.actions[x.actionId]) && x.idempotencyKey in st1.claims
    {
      RowAfter(rows, i, write, x);
    }
    forall key | key in st.claims
      ensures exists x <- after :: x.idempotencyKey == key
    {
      KeysCovered(rows, i, write, key);
    }
  }

  lemma ExecutionUntouched(rows: seq<ExecutionRow>, st: MemoryStore.Store, a: PendingAction, next: PendingAction)
    requires ExecutionsMatch(rows, st) && !Execution(next.status) && !Execution(a.status)
    requires next.actionId in st.actions && st.actions[next.actionId] == a && SameIdentity(a, next)
    ensures ExecutionsMatch(rows, st.(actions := st.actions[next.actionId := next]))
  {
  }

  /** "execution state exists without an idempotency claim" cannot happen. */
  lemma SyncExecutionRefines(t: Tables, st: MemoryStore.Store, next: PendingAction, write: PendingAction)
    requires StoreInv(st) && ExecutionsMatch(t.executions, st) && Same(write, next)
    requires next.actionId in st.actions && Succeeds(st.actions[next.actionId], next)
    requires Execution(next.status) ==> next.idempotencyKey in st.claims
    ensures var r := t.SyncExecution(write);
            && r.Ok? && r.value == t.(executions := r.value.executions)
            && ExecutionsMatch(r.value.executions, st.(actions := st.actions[next.actionId := next]))
  {
    var a := st.actions[next.actionId];
    if Execution(next.status) {
      ClaimHasRow(t.executions, st, next.actionId);
      ExecutionUpdated(t.executions, st, FindExecution(t.executions, next.actionId).value, next, write);
    } else {
      assert !Execution(a.status);
      ExecutionUntouched(t.executions, st, a, next);
    }
  }

  // ---------- the operations ----------

  lemma GrownKeeps(before: seq<ApprovalRow>, after: seq<ApprovalRow>, id: Id, b: PendingAction)
    requires DecisionsMatch(before, b) && GrownBy(before, after, id) && b.actionId != id
    ensures DecisionsMatch(after, b)
  {
    if after != before {
      assert after == before + [after[|before|]];
      RowsOfAppend(before, after[|before|], b.actionId);
    }
  }

  lemma SameRow(write: PendingAction, next: PendingAction)
    requires Same(write, next)
    ensures EncodeRow(write) == EncodeRow(next)
  {
    assert |multiset(write.approvals)| == |write.approvals|;
    assert |multiset(next.approvals)| == |next.approvals|;
  }

  lemma NoKeyClash(t: Tables, st: MemoryStore.Store, id: Id)
    requires StoreInv(st) && Represents(t, st) && id in st.actions
    ensures !exists other <- t.actions :: other != id && t.actions[other].idempotencyKey == st.actions[id].idempotencyKey
  {
    forall other | other in t.actions && other != id
      ensures t.actions[other].idempotencyKey != st.actions[id].idempotencyKey
    {
      assert t.actions[other] == EncodeRow(st.actions[other]);
      assert st.reserved[st.actions[other].idempotencyKey] == other;
    }
  }

  /** The decision rows after a CAS, for all actions. */
  lemma DecisionsRefine(t: Tables, actions: map<Id, PendingAction>, next: PendingAction, write: PendingAction,
                        read: seq<ApprovalRecord>, added: Option<ApprovalRecord>, uuid: int, clock: Instant)
    requires DecisionsAllMatch(t.approvals, actions) && OwnersIn(t.approvals, actions.Keys) && next.actionId in actions
    requires forall id <- actions :: actions[id].actionId == id
    requires Succeeds(actions[next.actionId], next) && WellFormed(next) && Same(write, next)
    requires multiset(read) == multiset(actions[next.actionId].approvals)
    requires Extended(read, write.approvals, added)
             && Extended(actions[next.actionId].approvals, next.approvals, added)
    ensures var r := t.SyncDecisions(write, uuid, clock);
            && r.Ok? && r.value == t.(approvals := r.value.approvals)
            && DecisionsAllMatch(r.value.approvals, actions[next.actionId := next])
            && OwnersIn(r.value.approvals, actions.Keys)
  {
    SyncDecisionsRefines(t, actions[next.actionId], next, write, read, added, uuid, clock);
    var decided := t.SyncDecisions(write, uuid, clock).value;
    DecisionsKept(t.approvals, decided.approvals, actions, next);
    OwnersKnown(t.approvals, decided.approvals, next.actionId, actions.Keys);
  }

  /** A successful CAS on the dictionary succeeds on the tables, with no
      constraint violated and no claim missing, and they still correspond. */
  lemma ReplaceRefines(t: Tables, st: MemoryStore.Store, next: PendingAction, write: PendingAction,
                       read: seq<ApprovalRecord>, added: Option<ApprovalRecord>, version: int, uuid: int, clock: Instant)
    requires StoreInv(st) && Represents(t, st) && st.Replace(next, version).Ok?
    requires Succeeds(st.actions[next.actionId], next) && WellFormed(next) && Same(write, next)
    requires Execution(next.status) ==> next.idempotencyKey in st.claims
    requires multiset(read) == multiset(st.actions[next.actionId].approvals)
    requires Extended(read, write.approvals, added)
             && Extended(st.actions[next.actionId].approvals, next.approvals, added)
    ensures t.Replace(write, version, uuid, clock).Ok?
    ensures Represents(t.Replace(write, version, uuid, clock).value, st.Replace(next, version).value)
  {
    var updated := t.(actions := t.actions[next.actionId := EncodeRow(write)]);
    SameRow(write, next);
    NoKeyClash(t, st, next.actionId);
    DecisionsRefine(updated, st.actions, next, write, read, added, uuid, clock);
    var decided := updated.SyncDecisions(write, uuid, clock).value;
    SyncExecutionRefines(decided, st, next, write);
    ReplacedRepresents(t, st, next, decided.approvals, decided.SyncExecution(write).value.executions);
    ReplaceIs(t, write, version, uuid, clock, decided);
  }

  lemma ReplaceIs(t: Tables, write: PendingAction, version: int, uuid: int, clock: Instant, decided: Tables)
    requires write.version == version + 1 && write.actionId in t.actions && t.actions[write.actionId].version == version
    requires !exists id <- t.actions :: id != write.actionId && t.actions[id].idempotencyKey == write.idempotencyKey
    requires t.(actions := t.actions[write.actionId := EncodeRow(write)]).SyncDecisions(write, uuid, clock) == Ok(decided)
    ensures t.Replace(write, version, uuid, clock) == decided.SyncExecution(write)
  {
  }

  lemma ReplacedRepresents(t: Tables, st: MemoryStore.Store, next: PendingAction,
                           approvals: seq<ApprovalRow>, executions: seq<ExecutionRow>)
    requires Represents(t, st) && next.actionId in st.actions
    requires DecisionsAllMatch(approvals, st.actions[next.actionId := next])
    requires OwnersIn(approvals, st.actions.Keys)
    requires ExecutionsMatch(executions, st.(actions := st.actions[next.actionId := next]))
    ensures Represents(Tables(t.actions[next.actionId := EncodeRow(next)], approvals, executions),
                       st.(actions := st.actions[next.actionId := next]))
  {
    RowReplaced(t.actions, st.actions, next);
    assert st.actions[next.actionId := next].Keys == st.actions.Keys;
  }

  lemma RowReplaced(rows: map<Id, ActionRow>, actions: map<Id, PendingAction>, next: PendingAction)
    requires RowsMatch(rows, actions)
    ensures RowsMatch(rows[next.actionId := EncodeRow(next)], actions[next.actionId := next])
  {
  }

  lemma DecisionsKept(before: seq<ApprovalRow>, after: seq<ApprovalRow>, actions: map<Id, PendingAction>, next: PendingAction)
    requires DecisionsAllMatch(before, actions) && forall id <- actions :: actions[id].actionId == id
    requires GrownBy(before, after, next.actionId) && DecisionsMatch(after, next)
    ensures DecisionsAllMatch(after, actions[next.actionId := next])
  {
    forall id | id in actions && id != next.actionId
      ensures DecisionsMatch(after, actions[id])
    {
      GrownKeeps(before, after, next.actionId, actions[id]);
    }
  }

  lemma OwnersKnown(before: seq<ApprovalRow>, after: seq<ApprovalRow>, id: Id, ids: set<Id>)
    requires GrownBy(before, after, id) && id in ids && OwnersIn(before, ids)
    ensures OwnersIn(after, ids)
  {
    if after != before {
      assert after == before + [after[|before|]];
    }
  }

  /** A stale version is refused by both stores. */
  lemma ReplaceConflicts(t: Tables, st: MemoryStore.Store, next: PendingAction, write: PendingAction,
                         version: int, uuid: int, clock: Instant)
    requires Represents(t, st) && Same(write, next) && next.actionId in st.actions && next.version == version + 1
    requires st.Replace(next, version).Raise?
    ensures st.Replace(next, version) == Raise(ConcurrentUpdate)
    ensures t.Replace(write, version, uuid, clock) == Raise(ConcurrentUpdate)
  {
    assert t.actions[next.actionId] == EncodeRow(st.actions[next.actionId]);
  }

  lemma {:induction false} NoRows(rows: seq<ApprovalRow>, id: Id)
    requires forall row <- rows :: row.actionId != id
    ensures RowsOf(rows, id) == []
  {
    if rows != [] {
      NoRows(rows[..|rows| - 1], id);
    }
  }

  /** Every reserved key belongs to a stored action. */
  ghost predicate ReservedMatch(st: MemoryStore.Store) {
    forall key <- st.reserved ::
      st.reserved[key] in st.actions && st.actions[st.reserved[key]].idempotencyKey == key
  }

  /** A key is reserved exactly when some row carries it. */
  lemma KeyReserved(rows: map<Id, ActionRow>, st: MemoryStore.Store, key: string)
    requires StoreInv(st) && RowsMatch(rows, st.actions) && ReservedMatch(st)
    ensures key in st.reserved <==> exists id <- rows :: rows[id].idempotencyKey == key
  {
    if key in st.reserved {
      var id := st.reserved[key];
      assert rows[id] == EncodeRow(st.actions[id]);
      assert id in rows && rows[id].idempotencyKey == key;
    }
    if exists id <- rows :: rows[id].idempotencyKey == key {
      var id :| id in rows && rows[id].idempotencyKey == key;
      assert rows[id] == EncodeRow(st.actions[id]);
    }
  }

  /** Inserting a prepared action writes one action row and nothing else. */
  lemma InsertIs(t: Tables, a: PendingAction, uuid: int, clock: Instant)
    requires Prepared(a) && a.actionId !in t.actions
    requires !exists id <- t.actions :: t.actions[id].idempotencyKey == a.idempotencyKey
    ensures t.Insert(a, uuid, clock) == Ok(t.(actions := t.actions[a.actionId := EncodeRow(a)]))
  {
  }

  lemma InsertRefines(t: Tables, st: MemoryStore.Store, a: PendingAction, uuid: int, clock: Instant)
    requires StoreInv(st) && Represents(t, st) && ReservedMatch(st) && Prepared(a)
    ensures t.Insert(a, uuid, clock).Ok? <==> st.Insert(a).Ok?
    ensures st.Insert(a).Ok? ==> Represents(t.Insert(a, uuid, clock).value, st.Insert(a).value)
  {
    KeyReserved(t.actions, st, a.idempotencyKey);
    if st.Insert(a).Ok? {
      InsertIs(t, a, uuid, clock);
      NoRows(t.approvals, a.actionId);
      InsertedRepresents(t, st, a);
    }
  }

  lemma InsertedRepresents(t: Tables, st: MemoryStore.Store, a: PendingAction)
    requires Represents(t, st) && st.Insert(a).Ok? && DecisionsMatch(t.approvals, a)
    ensures Represents(t.(actions := t.actions[a.actionId := EncodeRow(a)]), st.Insert(a).value)
  {
    DecisionsExtended(t.approvals, st.actions, a);
    RowReplaced(t.actions, st.actions, a);
    ExecutionsKept(t.executions, st, a);
  }

  lemma DecisionsExtended(rows: seq<ApprovalRow>, actions: map<Id, PendingAction>, a: PendingAction)
    requires DecisionsAllMatch(rows, actions) && DecisionsMatch(rows, a)
    ensures DecisionsAllMatch(rows, actions[a.actionId := a])
  {
  }

  lemma ExecutionsKept(rows: seq<ExecutionRow>, st: MemoryStore.Store, a: PendingAction)
    requires ExecutionsMatch(rows, st) && st.Insert(a).Ok?
    ensures ExecutionsMatch(rows, st.Insert(a).value)
  {
  }

  /** Both stores grant the same claims. */
  lemma ClaimRefines(t: Tables, st: MemoryStore.Store, key: string, id: Id)
    requires StoreInv(st) && Represents(t, st) && id in st.actions && st.actions[id].idempotencyKey == key
    requires key !in st.claims ==> !Execution(st.actions[id].status)
    ensures t.Claim(key, id).Some? <==> st.Claim(key, id).Some?
    ensures st.Claim(key, id).Some? ==> Represents(t.Claim(key, id).value, st.Claim(key, id).value)
  {
    ClaimAgrees(t, st, key, id);
    if key !in st.claims {
      ClaimedRepresents(t, st, key, id);
    }
  }

  lemma ClaimAgrees(t: Tables, st: MemoryStore.Store, key: string, id: Id)
    requires RowsMatch(t.actions, st.actions) && ExecutionsMatch(t.executions, st)
    requires id in st.actions && st.actions[id].idempotencyKey == key
    ensures t.Claim(key, id).Some? <==> st.Claim(key, id).Some?
    ensures key !in st.claims ==> forall x <- t.executions :: x.actionId != id
  {
    assert t.actions[id] == EncodeRow(st.actions[id]);
    ClaimVisible(t.executions, st, key, id);
  }

  lemma ClaimedRepresents(t: Tables, st: MemoryStore.Store, key: string, id: Id)
    requires Represents(t, st) && id in st.actions && st.actions[id].idempotencyKey == key
    requires !Execution(st.actions[id].status) && forall x <- t.executions :: x.actionId != id
    ensures Represents(t.(executions := t.executions + [ExecutionRow(id, key, CLAIMED, None, None, false)]),
                       st.(claims := st.claims[key := id]))
  {
    ClaimedMatch(t.executions, st, key, id);
  }

  lemma ClaimVisible(rows: seq<ExecutionRow>, st: MemoryStore.Store, key: string, id: Id)
    requires ExecutionsMatch(rows, st) && id in st.actions && st.actions[id].idempotencyKey == key
    ensures key in st.claims <==> exists x <- rows :: x.actionId == id || x.idempotencyKey == key
    ensures key !in st.claims ==> forall x <- rows :: x.actionId != id
  {
    if key in st.claims {
      var x :| x in rows && x.idempotencyKey == key;
    }
    forall x | x in rows && (x.actionId == id || x.idempotencyKey == key)
      ensures key in st.claims
    {
      assert Mirrors(x, st.actions[x.actionId]);
    }
  }

  lemma ClaimedMatch(rows: seq<ExecutionRow>, st: MemoryStore.Store, key: string, id: Id)
    requires ExecutionsMatch(rows, st) && id in st.actions && st.actions[id].idempotencyKey == key
    requires !Execution(st.actions[id].status) && forall x <- rows :: x.actionId != id
    ensures ExecutionsMatch(rows + [ExecutionRow(id, key, CLAIMED, None, None, false)],
                            st.(claims := st.claims[key := id]))
  {
    var row := ExecutionRow(id, key, CLAIMED, None, None, false);
    var after := rows + [row];
    assert after[|rows|] == row;
    assert forall x <- after :: x in rows || x == row;
    var claims := st.claims[key := id];
    forall k | k in claims
      ensures exists x <- after :: x.idempotencyKey == k
    {
      if k in st.claims {
        var x :| x in rows && x.idempotencyKey == k;
        assert x in after;
      } else {
        assert row in after;
      }
    }
  }
}
