/** Freshness and provenance of what the database committed: the causes of its
    commits are those of the reference run, up to approval order. */
module DatabaseProvenance {
  import opened ApprovalModel
  import opened ApprovalProtocol
  import opened ApprovalProvenance
  import opened ApprovalSafety
  import opened Options
  import opened SqlRefinement
  import opened SqlSimulation

  lemma ConfirmedAlike(c: Commit, d: Commit, a: PendingAction, b: PendingAction)
    requires SameCommit(c, d) && Same(a, b) && ConfirmedIn(d, b)
    ensures ConfirmedIn(c, a)
  {
  }

  lemma ApprovalAlike(c: Commit, d: Commit, a: PendingAction, b: PendingAction, r: ApprovalRecord)
    requires SameCommit(c, d) && Same(a, b) && ApprovedIn(d, b, r)
    ensures ApprovedIn(c, a, r)
  {
  }

  lemma RejectedAlike(c: Commit, d: Commit, a: PendingAction, b: PendingAction)
    requires SameCommit(c, d) && Same(a, b) && RejectedIn(d, b)
    ensures RejectedIn(c, a)
  {
  }

  lemma ConfirmationAlike(q: seq<Commit>, m: seq<Commit>, a: PendingAction, b: PendingAction)
    requires SameCommits(q, m) && Same(a, b) && ConfirmationVouched(m, b)
    ensures ConfirmationVouched(q, a)
  {
    if a.Confirmed() {
      var i :| 0 <= i < |m| && ConfirmedIn(m[i], b);
      ConfirmedAlike(q[i], m[i], a, b);
    }
  }

  lemma ApprovalsAlike(q: seq<Commit>, m: seq<Commit>, a: PendingAction, b: PendingAction, r: ApprovalRecord)
    requires SameCommits(q, m) && Same(a, b) && r in b.approvals && ApprovalVouched(m, b, r)
    ensures ApprovalVouched(q, a, r)
  {
    var i :| 0 <= i < |m| && ApprovedIn(m[i], b, r);
    ApprovalAlike(q[i], m[i], a, b, r);
  }

  lemma RejectionAlike(q: seq<Commit>, m: seq<Commit>, a: PendingAction, b: PendingAction)
    requires SameCommits(q, m) && Same(a, b) && RejectionVouched(m, b)
    ensures RejectionVouched(q, a)
  {
    if a.rejectedBy.Some? {
      var i :| 0 <= i < |m| && RejectedIn(m[i], b);
      RejectedAlike(q[i], m[i], a, b);
    }
  }

  lemma VouchedAlike(q: seq<Commit>, m: seq<Commit>, a: PendingAction, b: PendingAction)
    requires SameCommits(q, m) && Same(a, b) && Vouched(m, b)
    ensures Vouched(q, a)
  {
    ConfirmationAlike(q, m, a, b);
    RejectionAlike(q, m, a, b);
    forall r | r in a.approvals
      ensures ApprovalVouched(q, a, r)
    {
      assert r in multiset(a.approvals) && r in b.approvals;
      ApprovalsAlike(q, m, a, b, r);
    }
  }

  /** Every confirmation, approval and rejection in a value the database committed
      goes back to a call the database committed. */
  lemma DatabaseKeepsProvenance(steps: seq<Step>)
    ensures var h := Run(DATABASE, steps).history; forall c <- h :: Vouched(h, c.value)
  {
    DatabaseSimulates(steps);
    RunsKeepProvenance(steps);
    var q, m := Run(DATABASE, steps).history, Run(MEMORY, steps).history;
    forall c | c in q
      ensures Vouched(q, c.value)
    {
      var i :| 0 <= i < |q| && q[i] == c;
      assert m[i] in m;
      VouchedAlike(q, m, c.value, m[i].value);
    }
  }

  /** Behind every execution the database committed: the requester's confirmation and,
      for each required approval, a call by that eligible approver, before expiry. */
  lemma DatabaseExecutionIsAuthorised(steps: seq<Step>)
    ensures var h := Run(DATABASE, steps).history;
            forall c <- h :: Execution(c.value.status) ==>
              && (exists d <- h :: ConfirmedIn(d, c.value))
              && |c.value.approvals| == c.value.approvalsRequired && DistinctApprovers(c.value.approvals)
              && (forall r <- c.value.approvals :: r.approverId != c.value.requesterId && ApprovalVouched(h, c.value, r))
  {
    DatabaseKeepsProvenance(steps);
    DatabaseSeparatesDuty(steps);
    var h := Run(DATABASE, steps).history;
    forall c | c in h && Execution(c.value.status)
      ensures exists d <- h :: ConfirmedIn(d, c.value)
    {
      assert Vouched(h, c.value) && DutySeparated(c.value) && c.value.Confirmed();
    }
  }

  /** And behind every rejection a call with a reason and the authority to reject. */
  lemma DatabaseRejectionIsAuthorised(steps: seq<Step>)
    ensures var h := Run(DATABASE, steps).history;
            forall c <- h :: c.value.status == Rejected ==> exists d <- h :: RejectedIn(d, c.value)
  {
    DatabaseKeepsProvenance(steps);
    DatabaseSeparatesDuty(steps);
    var h := Run(DATABASE, steps).history;
    forall c | c in h && c.value.status == Rejected
      ensures exists d <- h :: RejectedIn(d, c.value)
    {
      assert Vouched(h, c.value) && DutySeparated(c.value) && c.value.rejectedBy.Some?;
    }
  }

  /** The write of EXECUTING came from begin, enabled, unexpired, from APPROVED and on
      the fingerprint recorded at preparation. */
  predicate FreshBegin(c: Commit) {
    && c.cause.Some? && c.cause.value.op.Begin? && c.cause.value.enabled
    && c.cause.value.base.status == Approved
    && c.cause.value.now < c.value.expiresAt
    && c.cause.value.op.currentFingerprint == c.value.stateFingerprint
  }

  lemma FreshAlike(c: Commit, d: Commit)
    requires SameCommit(c, d) && FreshBegin(d)
    ensures FreshBegin(c)
  {
  }

  /** Every execution the database committed was fresh. */
  lemma DatabaseExecutionIsFresh(steps: seq<Step>)
    ensures forall c <- Run(DATABASE, steps).history :: c.value.status == Executing ==> FreshBegin(c)
  {
    DatabaseSimulates(steps);
    ExecutionIsFresh(steps);
    var q, m := Run(DATABASE, steps).history, Run(MEMORY, steps).history;
    forall c | c in q && c.value.status == Executing
      ensures FreshBegin(c)
    {
      var i :| 0 <= i < |q| && q[i] == c;
      assert m[i] in m && SameCommit(c, m[i]);
      FreshAlike(c, m[i]);
    }
  }
}
