/** When the database keeps the order of approvals over a run, and a run in which it
    does not. */
module ApprovalOrder {
  import opened ApprovalModel
  import opened ApprovalProtocol
  import opened ApprovalSafety
  import opened Options
  import opened ServiceRuns
  import SqlRefinement
  import SqlSimulation

  /** In any run: approvals stamped in increasing order read back exactly, an approval
      stamped earlier than one before it makes the order differ. */
  lemma StampsDecideOrder(steps: seq<Step>, id: Id)
    requires Run(MEMORY, steps).repo.Memory? && Run(DATABASE, steps).repo.Sql?
    requires id in Run(MEMORY, steps).repo.store.actions
    ensures var a := Run(MEMORY, steps).repo.store.actions[id];
            var read := Run(DATABASE, steps).repo.tables.Get(id);
            && (SqlRefinement.StampsIncrease(a.approvals) ==> read == Ok(Some(a)))
            && (SqlRefinement.StampGoesBack(a.approvals) ==> read != Ok(Some(a)))
  {
    SqlSimulation.DatabaseSimulates(steps);
    RunsKeepInv(steps);
    SqlRefinement.StampsDecide(Run(DATABASE, steps).repo.tables, Run(MEMORY, steps).repo.store, id);
  }

  // ---------- a clock that steps back ----------

  function Request(): PendingAction {
    PendingAction("a", "requester", Envelope("c", "f", "g", "h", None, [], map[], None, [], []), "target", Pending, 0, 100, 2,
                  [], None, "key-of-the-request", None, None, None, None, None, 1)
  }

  function CallSteps(op: Op, now: Instant): seq<Step> {
    [Call(0, op, true, "a", now, false), Swap(0, Clean, 0, 0)]
  }

  function Confirmation(): Op { Confirm("requester", true, true, true) }

  function Approval(actor: Id): Op { Approve(actor, true, true, true) }

  /** Prepared, confirmed at 1, approved at 5 and then, by a clock set back, at 4. */
  function SteppedBack(): seq<Step> {
    [Prepare(Request(), Clean, 0, 0)] + CallSteps(Confirmation(), 1) + CallSteps(Approval("x"), 5) + CallSteps(Approval("y"), 4)
  }

  lemma RunSnoc(repo: Repository, steps: seq<Step>, step: Step)
    ensures Run(repo, steps + [step]) == Exec(Run(repo, steps), step)
  {
    assert (steps + [step])[..|steps|] == steps;
  }

  lemma RunCall(steps: seq<Step>, op: Op, now: Instant)
    ensures Run(MEMORY, steps + CallSteps(op, now)) == Called(Run(MEMORY, steps), 0, op, "a", now)
  {
    var call, swap := CallSteps(op, now)[0], CallSteps(op, now)[1];
    RunSnoc(MEMORY, steps, call);
    RunSnoc(MEMORY, steps + [call], swap);
    assert steps + CallSteps(op, now) == steps + [call] + [swap];
  }

  /** One more call of the run, on the stored request. */
  lemma NextCall(steps: seq<Step>, op: Op, a: PendingAction, now: Instant)
    requires At(Run(MEMORY, steps), 0, Free, a) && a.actionId == "a" && (op.Confirm? || op.Approve?)
    requires Decide(op, true, a, now).Write? && Decide(op, true, a, now).raises == None
    ensures At(Run(MEMORY, steps + CallSteps(op, now)), 0, Free, Next(Decide(op, true, a, now)))
  {
    RunCall(steps, op, now);
    CallReturns(Run(MEMORY, steps), 0, Free, op, a, now);
  }

  lemma Preparing()
    ensures At(Run(MEMORY, [Prepare(Request(), Clean, 0, 0)]), 0, Free, Request())
  {
    RunSnoc(MEMORY, [], Prepare(Request(), Clean, 0, 0));
    assert [] + [Prepare(Request(), Clean, 0, 0)] == [Prepare(Request(), Clean, 0, 0)];
  }

  function Approvals(): seq<ApprovalRecord> { [ApprovalRecord("x", 5), ApprovalRecord("y", 4)] }

  lemma SteppedBackStores()
    ensures exists a :: At(Run(MEMORY, SteppedBack()), 0, Free, a) && a.actionId == "a" && a.approvals == Approvals()
  {
    var s0 := [Prepare(Request(), Clean, 0, 0)];
    var s1 := s0 + CallSteps(Confirmation(), 1);
    var s2 := s1 + CallSteps(Approval("x"), 5);
    Preparing();
    NextCall(s0, Confirmation(), Request(), 1);
    var b := Request().(status := Pending, version := 2, confirmationConsumedAt := Some(1));
    assert Next(Decide(Confirmation(), true, Request(), 1)) == b;
    NextCall(s1, Approval("x"), b, 5);
    var c := Next(Decide(Approval("x"), true, b, 5));
    assert c == b.(status := PartiallyApproved, version := 3, approvals := [ApprovalRecord("x", 5)]);
    assert !c.ApprovedBy("y");
    NextCall(s2, Approval("y"), c, 4);
    assert Next(Decide(Approval("y"), true, c, 4)).approvals == Approvals();
  }

  /** In this run the database reads the two approvals back in the other order. */
  lemma OrderCanDiffer()
    ensures var m, q := Run(MEMORY, SteppedBack()).repo, Run(DATABASE, SteppedBack()).repo;
            && m.Memory? && q.Sql? && "a" in m.store.actions
            && m.store.actions["a"].approvals == Approvals()
            && q.tables.Get("a") != Ok(Some(m.store.actions["a"]))
  {
    SteppedBackStores();
    SqlSimulation.DatabaseReadsBack(SteppedBack(), "a");
    assert Approvals()[1].approvedAt < Approvals()[0].approvedAt;
    StampsDecideOrder(SteppedBack(), "a");
  }
}
