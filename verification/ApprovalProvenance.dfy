/** Where every confirmation, approval and rejection came from, over all runs. */
module ApprovalProvenance {
  import opened ApprovalModel
  import opened ApprovalProtocol
  import opened ApprovalSafety
  import opened Options

  /** The commit is the requester's own confirmation, code and text matching, before expiry. */
  predicate ConfirmedIn(c: Commit, a: PendingAction) {
    && c.value.actionId == a.actionId && c.cause.Some?
    && var plan := c.cause.value;
       && plan.op.Confirm? && plan.enabled && plan.op.actor == a.requesterId
       && plan.op.codeMatches && plan.op.specKnown && plan.op.textMatches
       && plan.now < a.expiresAt && a.confirmationConsumedAt == Some(plan.now)
  }

  /** The commit is this approval, by an eligible approver, before expiry. */
  predicate ApprovedIn(c: Commit, a: PendingAction, r: ApprovalRecord) {
    && c.value.actionId == a.actionId && c.cause.Some?
    && var plan := c.cause.value;
       && plan.op.Approve? && plan.enabled && plan.op.actor == r.approverId
       && plan.op.specKnown && plan.op.rolesKnown && plan.op.eligible
       && plan.now == r.approvedAt && plan.now < a.expiresAt
       && plan.base.Confirmed()
  }

  /** The commit is the rejection, with a reason, by the requester or someone eligible. */
  predicate RejectedIn(c: Commit, a: PendingAction) {
    && c.value.actionId == a.actionId && c.cause.Some? && a.rejectedBy.Some?
    && var plan := c.cause.value;
       && plan.op.Reject? && plan.op.actor == a.rejectedBy.value
       && plan.op.specKnown && plan.op.rolesKnown && (plan.op.eligible || plan.op.actor == a.requesterId)
       && plan.op.reason != "" && a.rejectionReason == Some(plan.op.reason)
       && a.rejectedAt == Some(plan.now) && plan.now < a.expiresAt
  }

  ghost predicate ConfirmationVouched(h: seq<Commit>, a: PendingAction) {
    a.Confirmed() ==> exists c <- h :: ConfirmedIn(c, a)
  }

  ghost predicate ApprovalVouched(h: seq<Commit>, a: PendingAction, r: ApprovalRecord) {
    exists c <- h :: ApprovedIn(c, a, r)
  }

  ghost predicate RejectionVouched(h: seq<Commit>, a: PendingAction) {
    a.rejectedBy.Some? ==> exists c <- h :: RejectedIn(c, a)
  }

  ghost predicate Vouched(h: seq<Commit>, a: PendingAction) {
    && ConfirmationVouched(h, a)
    && (forall r <- a.approvals :: ApprovalVouched(h, a, r))
    && RejectionVouched(h, a)
  }

  ghost predicate Recorded(h: seq<Commit>, a: PendingAction) {
    exists c <- h :: c.value == a
  }

  ghost predicate Provenance(s: System) {
    && s.repo.Memory?
    && (forall c <- s.history :: Vouched(s.history, c.value))
    && (forall id <- s.repo.store.actions :: Recorded(s.history, s.repo.store.actions[id]))
  }

  // ---------- one write ----------

  lemma ConfirmationOf(h: seq<Commit>, plan: Plan)
    requires PlanLegal(plan) && ConfirmationVouched(h, plan.base)
    ensures ConfirmationVouched(h + [Commit(Next(plan.Verdict()), Some(plan))], Next(plan.Verdict()))
  {
    var next := Next(plan.Verdict());
    var c := Commit(next, Some(plan));
    DecisionsAreLegal(plan.op, plan.enabled, plan.base, plan.now);
    assert (h + [c])[|h|] == c;
    if next.confirmationConsumedAt == plan.base.confirmationConsumedAt {
      if next.Confirmed() {
        var d :| d in h && ConfirmedIn(d, plan.base);
        assert d in h + [c] && ConfirmedIn(d, next);
      }
    } else {
      assert ConfirmedIn(c, next);
    }
  }

  lemma ApprovalsOf(h: seq<Commit>, plan: Plan, r: ApprovalRecord)
    requires PlanLegal(plan) && r in Next(plan.Verdict()).approvals
    requires forall x <- plan.base.approvals :: ApprovalVouched(h, plan.base, x)
    ensures ApprovalVouched(h + [Commit(Next(plan.Verdict()), Some(plan))], Next(plan.Verdict()), r)
  {
    var next := Next(plan.Verdict());
    var c := Commit(next, Some(plan));
    DecisionsAreLegal(plan.op, plan.enabled, plan.base, plan.now);
    assert (h + [c])[|h|] == c;
    if r in plan.base.approvals {
      var d :| d in h && ApprovedIn(d, plan.base, r);
      assert d in h + [c] && ApprovedIn(d, next, r);
    } else {
      assert ApprovedIn(c, next, r);
    }
  }

  lemma RejectionOf(h: seq<Commit>, plan: Plan)
    requires PlanLegal(plan)
    ensures RejectionVouched(h + [Commit(Next(plan.Verdict()), Some(plan))], Next(plan.Verdict()))
  {
    var next := Next(plan.Verdict());
    var c := Commit(next, Some(plan));
    DecisionsAreLegal(plan.op, plan.enabled, plan.base, plan.now);
    assert (h + [c])[|h|] == c;
    if next.rejectedBy.Some? {
      assert RejectedIn(c, next);
    }
  }

  lemma WriteVouched(h: seq<Commit>, plan: Plan)
    requires PlanLegal(plan) && Vouched(h, plan.base)
    ensures Vouched(h + [Commit(Next(plan.Verdict()), Some(plan))], Next(plan.Verdict()))
  {
    ConfirmationOf(h, plan);
    RejectionOf(h, plan);
    forall r | r in Next(plan.Verdict()).approvals
      ensures ApprovalVouched(h + [Commit(Next(plan.Verdict()), Some(plan))], Next(plan.Verdict()), r)
    {
      ApprovalsOf(h, plan, r);
    }
  }

  lemma VouchedStays(h: seq<Commit>, c: Commit, a: PendingAction)
    requires Vouched(h, a)
    ensures Vouched(h + [c], a)
  {
    assert forall d <- h :: d in h + [c];
    forall r | r in a.approvals
      ensures ApprovalVouched(h + [c], a, r)
    {
      assert ApprovalVouched(h, a, r);
    }
  }

  // ---------- one step ----------

  /** What a step can do to the store and the history. */
  ghost predicate Moves(s: System, s1: System) {
    && s.repo.Memory? && s1.repo.Memory?
    && ((s1.history == s.history && s1.repo.store.actions == s.repo.store.actions)
        || (|s1.history| == |s.history| + 1 && CommitsLast(s, s1, s1.history[|s.history|])))
  }

  ghost predicate CommitsLast(s: System, s1: System, c: Commit)
    requires s.repo.Memory? && s1.repo.Memory?
  {
    && s1.history == s.history + [c]
    && s1.repo.store.actions == s.repo.store.actions[c.value.actionId := c.value]
    && match c.cause
       case None => Prepared(c.value)
       case Some(plan) =>
         PlanLegal(plan) && c.value == Next(plan.Verdict())
         && plan.base.actionId in s.repo.store.actions && s.repo.store.actions[plan.base.actionId] == plan.base
  }

  lemma SwapMoves(s: System, p: nat, fault: Fault, uuid: int, clock: Instant)
    requires Inv(s)
    ensures Moves(s, ExecSwap(s, p, fault, uuid, clock))
  {
    SwapsAreSound(s, p);
    var plans := ProcOf(s, p).plans;
    if plans != [] {
      assert plans[0] in plans && ProcInv(s.repo.store, s.dispatches, s.procs[p]);
      SwapMovesBy(s, p, fault, uuid, clock, plans[0]);
    }
  }

  lemma SwapMovesBy(s: System, p: nat, fault: Fault, uuid: int, clock: Instant, plan: Plan)
    requires SwapSound(s, p) && PlanLegal(plan) && ProcOf(s, p).plans != [] && plan == ProcOf(s, p).plans[0]
    ensures Moves(s, ExecSwap(s, p, fault, uuid, clock))
  {
    var s1 := ExecSwap(s, p, fault, uuid, clock);
    if s1.history != s.history {
      assert s1.history == s.history + [Commit(Next(plan.Verdict()), Some(plan))];
    }
  }

  lemma OtherMoves(s: System, step: Step)
    requires s.repo.Memory? && !step.Swap?
    ensures Moves(s, Exec(s, step))
  {
  }

  lemma VouchCommit(s: System, s1: System, c: Commit)
    requires Provenance(s) && s1.repo.Memory? && CommitsLast(s, s1, c)
    ensures Vouched(s1.history, c.value)
  {
    if c.cause.Some? {
      var plan := c.cause.value;
      var d :| d in s.history && d.value == plan.base;
      WriteVouched(s.history, plan);
    }
  }

  lemma MoveVouched(s: System, s1: System)
    requires Provenance(s) && Moves(s, s1)
    ensures Provenance(s1)
  {
    if s1.history == s.history {
      return;
    }
    var c := s1.history[|s.history|];
    VouchCommit(s, s1, c);
    forall d | d in s1.history
      ensures Vouched(s1.history, d.value)
    {
      if d in s.history {
        VouchedStays(s.history, c, d.value);
      }
    }
    assert c in s1.history && forall d <- s.history :: d in s1.history;
    forall id | id in s1.repo.store.actions
      ensures Recorded(s1.history, s1.repo.store.actions[id])
    {
      if id != c.value.actionId {
        assert Recorded(s.history, s.repo.store.actions[id]);
      }
    }
  }

  lemma {:induction false} RunsKeepProvenance(steps: seq<Step>)
    ensures Provenance(Run(MEMORY, steps))
  {
    if steps != [] {
      var s, step := Run(MEMORY, steps[..|steps| - 1]), steps[|steps| - 1];
      RunsKeepProvenance(steps[..|steps| - 1]);
      RunsKeepInv(steps[..|steps| - 1]);
      if step.Swap? {
        SwapMoves(s, step.p, step.fault, step.uuid, step.clock);
      } else {
        OtherMoves(s, step);
      }
      MoveVouched(s, Exec(s, step));
    }
  }

  /** Nothing executes on borrowed authority: behind every value that was ever
      EXECUTING, or reached any execution outcome, there is a committed confirmation
      by the requester and, for each required approval, a committed call by that
      eligible approver, all made before expiry. */
  lemma ExecutionIsAuthorised(steps: seq<Step>)
    ensures var h := Run(MEMORY, steps).history;
            forall c <- h :: Execution(c.value.status) ==>
              && (exists d <- h :: ConfirmedIn(d, c.value))
              && |c.value.approvals| == c.value.approvalsRequired && DistinctApprovers(c.value.approvals)
              && (forall r <- c.value.approvals :: r.approverId != c.value.requesterId && ApprovalVouched(h, c.value, r))
  {
    RunsKeepProvenance(steps);
    SeparationOfDuty(steps);
    var h := Run(MEMORY, steps).history;
    forall c | c in h && Execution(c.value.status)
      ensures exists d <- h :: ConfirmedIn(d, c.value)
    {
      assert Vouched(h, c.value) && c.value.Confirmed();
    }
  }

  /** And a rejection always names who rejected, why, and under which authority. */
  lemma RejectionIsAuthorised(steps: seq<Step>)
    ensures var h := Run(MEMORY, steps).history;
            forall c <- h :: c.value.status == Rejected ==> exists d <- h :: RejectedIn(d, c.value)
  {
    RunsKeepProvenance(steps);
    SeparationOfDuty(steps);
    var h := Run(MEMORY, steps).history;
    forall c | c in h && c.value.status == Rejected
      ensures exists d <- h :: RejectedIn(d, c.value)
    {
      assert Vouched(h, c.value) && c.value.rejectedBy.Some?;
    }
  }
}
