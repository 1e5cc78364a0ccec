/** A whole run in which the remote system receives a write and the database records
    FAILED for it. */
module DeliveredRun {
  import opened ApprovalModel
  import opened ApprovalProtocol
  import opened Options
  import opened ServiceRuns
  import opened WriteEndToEnd
  import Adapter = WriteReconciliation
  import ApprovalOrder
  import ApprovalOutcome
  import SqlSimulation

  /** Every adapter call marks a notification read and cannot decode the answer. */
  function Undecodable(): World {
    var (action, env) := Adapter.MarkRead();
    World((k: nat) => AdapterCall(true, action, env), (n: nat) => env)
  }

  /** Prepared, confirmed, approved twice, claimed, dispatched; the answer breaks and
      the failure is recorded. */
  function Approving(): seq<Step> {
    [Prepare(ApprovalOrder.Request(), Clean, 0, 0)] + ApprovalOrder.CallSteps(ApprovalOrder.Confirmation(), 1)
    + ApprovalOrder.CallSteps(ApprovalOrder.Approval("x"), 2) + ApprovalOrder.CallSteps(ApprovalOrder.Approval("y"), 3)
  }

  function Executing(): seq<Step> {
    [Call(0, Begin("target"), true, "a", 4, false), ClaimKey(0, Clean), Swap(0, Clean, 0, 0),
     Dispatch(0), RemoteAnswers(0, OtherError)]
  }

  function Broken(): seq<Step> {
    Approving() + Executing() + ApprovalOrder.CallSteps(CompleteFailure("failed", false), 5)
  }

  // ---------- growing the run ----------

  ghost predicate LawfulStep(s: System, step: Step, n: nat) {
    ApprovalOutcome.DisciplinedStep(s, step) && DrivenStep(s, step, n, Undecodable())
  }

  /** The run so far, and process 0 at `pc` with `a` stored. */
  ghost predicate Reached(steps: seq<Step>, pc: Pc, a: PendingAction, dispatches: seq<Id>) {
    At(Run(MEMORY, steps), 0, pc, a) && Run(MEMORY, steps).dispatches == dispatches && Lawful(steps)
  }

  /** Only critical sections complete actions, and the adapter gives the answers. */
  ghost predicate Lawful(steps: seq<Step>) {
    steps != [] ==>
      var n := |steps| - 1;
      Lawful(steps[..n]) && LawfulStep(Run(MEMORY, steps[..n]), steps[n], n)
  }

  lemma {:induction false} StepLawful(steps: seq<Step>, n: nat)
    requires Lawful(steps) && n < |steps|
    ensures LawfulStep(Run(MEMORY, steps[..n]), steps[n], n)
  {
    if n < |steps| - 1 {
      StepLawful(steps[..|steps| - 1], n);
      assert steps[..|steps| - 1][..n] == steps[..n];
    }
  }

  lemma AllLawful(steps: seq<Step>)
    requires Lawful(steps)
    ensures ApprovalOutcome.Disciplined(MEMORY, steps) && Driven(MEMORY, steps, Undecodable())
  {
    Undecoded();
    forall n | 0 <= n < |steps|
      ensures ApprovalOutcome.DisciplinedStep(Run(MEMORY, steps[..n]), steps[n])
      ensures DrivenStep(Run(MEMORY, steps[..n]), steps[n], n, Undecodable())
    {
      StepLawful(steps, n);
    }
  }

  lemma Grow(steps: seq<Step>, step: Step)
    requires Lawful(steps) && LawfulStep(Run(MEMORY, steps), step, |steps|)
    ensures Lawful(steps + [step])
  {
    assert (steps + [step])[..|steps|] == steps;
  }

  lemma Undecoded()
    ensures var c := Undecodable().call(0); Answer(c) == OtherError && Delivers(c) && BrokeAfterwards(c)
    ensures forall k: nat :: Undecodable().call(k) == Undecodable().call(0) && Adapter.Honest(Undecodable().call(k).env.write)
  {
    Adapter.DeliveredCanBeRecordedAsFailed();
  }

  lemma StartReached()
    ensures Reached([Prepare(ApprovalOrder.Request(), Clean, 0, 0)], Free, ApprovalOrder.Request(), [])
    ensures Run(MEMORY, [Prepare(ApprovalOrder.Request(), Clean, 0, 0)]).repo.store.claims == map[]
  {
    ApprovalOrder.Preparing();
    var step := Prepare(ApprovalOrder.Request(), Clean, 0, 0);
    assert [] + [step] == [step];
    GrowQuietly([], step);
  }

  /** Two more steps: a call of process 0 and its write. */
  lemma CallReached(steps: seq<Step>, pc: Pc, op: Op, a: PendingAction, now: Instant, dispatches: seq<Id>)
    requires Reached(steps, pc, a, dispatches) && a.actionId == "a" && Entry(pc, op, "a").Some?
    requires pc.Free? ==> ApprovalOutcome.UserOp(op)
    requires Decide(op, true, a, now).Write? && Decide(op, true, a, now).raises == None
    ensures var next := Next(Decide(op, true, a, now));
            var after := steps + ApprovalOrder.CallSteps(op, now);
            && Reached(after, Resume(Entry(pc, op, "a").value, Some(next)), next, dispatches)
            && Run(MEMORY, after).repo.store.claims == Run(MEMORY, steps).repo.store.claims
  {
    var call, swap := ApprovalOrder.CallSteps(op, now)[0], ApprovalOrder.CallSteps(op, now)[1];
    Grow(steps, call);
    GrowQuietly(steps + [call], swap);
    ApprovalOrder.RunSnoc(MEMORY, steps, call);
    assert steps + [call] + [swap] == steps + ApprovalOrder.CallSteps(op, now);
    CallReturns(Run(MEMORY, steps), 0, pc, op, a, now);
    ClaimsStay(Run(MEMORY, steps), call, swap);
  }

  lemma ClaimsStay(s: System, call: Step, swap: Step)
    requires s.repo.Memory? && call.Call? && swap.Swap?
    ensures var after := Exec(Exec(s, call), swap);
            after.repo.Memory? && after.repo.store.claims == s.repo.store.claims
  {
    SqlSimulation.CallKeepsRepo(s, call.p, call.op, call.enabled, call.id, call.now, call.readFails);
    SwapKeepsClaims(Exec(s, call), swap.p, swap.fault, swap.uuid, swap.clock);
  }

  lemma SwapKeepsClaims(s: System, p: nat, fault: Fault, uuid: int, clock: Instant)
    requires s.repo.Memory?
    ensures var after := ExecSwap(s, p, fault, uuid, clock);
            after.repo.Memory? && after.repo.store.claims == s.repo.store.claims
  {
  }

  function Approved2(): PendingAction {
    ApprovalOrder.Request().(status := Approved, version := 4, confirmationConsumedAt := Some(1),
                             approvals := [ApprovalRecord("x", 2), ApprovalRecord("y", 3)])
  }

  function Confirmed1(): PendingAction {
    ApprovalOrder.Request().(status := Pending, version := 2, confirmationConsumedAt := Some(1))
  }

  function Approved1(): PendingAction {
    Confirmed1().(status := PartiallyApproved, version := 3, approvals := [ApprovalRecord("x", 2)])
  }

  lemma DecisionsOfTheRun()
    ensures Decide(ApprovalOrder.Confirmation(), true, ApprovalOrder.Request(), 1) == Write(Confirmed1(), None)
    ensures Decide(ApprovalOrder.Approval("x"), true, Confirmed1(), 2) == Write(Approved1(), None)
    ensures Decide(ApprovalOrder.Approval("y"), true, Approved1(), 3) == Write(Approved2(), None)
    ensures Decide(Begin("target"), true, Approved2(), 4).ClaimThenWrite?
  {
    assert !Approved1().ApprovedBy("y");
  }

  lemma ApprovedReached()
    ensures Reached(Approving(), Free, Approved2(), [])
    ensures Run(MEMORY, Approving()).repo.store.claims == map[]
  {
    var s0 := [Prepare(ApprovalOrder.Request(), Clean, 0, 0)];
    var s1 := s0 + ApprovalOrder.CallSteps(ApprovalOrder.Confirmation(), 1);
    var s2 := s1 + ApprovalOrder.CallSteps(ApprovalOrder.Approval("x"), 2);
    StartReached();
    DecisionsOfTheRun();
    CallReached(s0, Free, ApprovalOrder.Confirmation(), ApprovalOrder.Request(), 1, []);
    CallReached(s1, Free, ApprovalOrder.Approval("x"), Confirmed1(), 2, []);
    CallReached(s2, Free, ApprovalOrder.Approval("y"), Approved1(), 3, []);
  }

  /** A step that neither completes an action nor answers. */
  predicate Quiet(step: Step) {
    !step.RemoteAnswers? && !step.ReadBack? && (step.Call? ==> ApprovalOutcome.UserOp(step.op))
  }

  lemma GrowQuietly(steps: seq<Step>, step: Step)
    requires Lawful(steps) && Quiet(step)
    ensures Lawful(steps + [step]) && Run(MEMORY, steps + [step]) == Exec(Run(MEMORY, steps), step)
  {
    Grow(steps, step);
    ApprovalOrder.RunSnoc(MEMORY, steps, step);
  }

  lemma LastTwo(steps: seq<Step>, x: Step, y: Step)
    ensures Run(MEMORY, steps + [x] + [y]) == Exec(Exec(Run(MEMORY, steps), x), y)
  {
    ApprovalOrder.RunSnoc(MEMORY, steps, x);
    ApprovalOrder.RunSnoc(MEMORY, steps + [x], y);
  }

  lemma LastThree(steps: seq<Step>, x: Step, y: Step, z: Step)
    ensures Run(MEMORY, steps + [x, y, z]) == Exec(Exec(Exec(Run(MEMORY, steps), x), y), z)
  {
    LastTwo(steps, x, y);
    ApprovalOrder.RunSnoc(MEMORY, steps + [x] + [y], z);
    assert steps + [x] + [y] + [z] == steps + [x, y, z];
  }

  lemma QuietlyOn(steps: seq<Step>, step: Step)
    requires Lawful(steps) && Quiet(step)
    ensures Lawful(steps + [step])
  {
    GrowQuietly(steps, step);
  }

  lemma ThreeQuietly(steps: seq<Step>, x: Step, y: Step, z: Step)
    requires Lawful(steps) && Quiet(x) && Quiet(y) && Quiet(z)
    ensures Lawful(steps + [x, y, z])
  {
    QuietlyOn(steps, x);
    QuietlyOn(steps + [x], y);
    QuietlyOn(steps + [x] + [y], z);
    assert steps + [x] + [y] + [z] == steps + [x, y, z];
  }

  lemma ClaimedReached()
    ensures Reached(Approving() + Executing()[..3], Claimed("a"), Bump(Approved2(), Status.Executing), [])
  {
    ApprovedReached();
    DecisionsOfTheRun();
    ThreeQuietly(Approving(), Call(0, Begin("target"), true, "a", 4, false), ClaimKey(0, Clean), Swap(0, Clean, 0, 0));
    LastThree(Approving(), Call(0, Begin("target"), true, "a", 4, false), ClaimKey(0, Clean), Swap(0, Clean, 0, 0));
    assert Executing()[..3] == [Call(0, Begin("target"), true, "a", 4, false), ClaimKey(0, Clean), Swap(0, Clean, 0, 0)];
    BeginReturns(Run(MEMORY, Approving()), 0, Begin("target"), Approved2(), 4);
  }

  /** The dispatch of the run and its broken answer. */
  lemma BreaksOff(s: System, a: PendingAction)
    requires At(s, 0, Claimed(a.actionId), a) && s.dispatches == []
    ensures var sent := Exec(s, Dispatch(0));
            var broken := Exec(sent, RemoteAnswers(0, OtherError));
            && sent.dispatches == broken.dispatches == [a.actionId] && At(broken, 0, Failing(a.actionId), a)
  {
  }

  lemma DispatchIsLawful(steps: seq<Step>)
    requires Lawful(steps)
    ensures Lawful(steps + [Dispatch(0)] + [RemoteAnswers(0, OtherError)])
  {
    Undecoded();
    GrowQuietly(steps, Dispatch(0));
    Grow(steps + [Dispatch(0)], RemoteAnswers(0, OtherError));
  }

  lemma FailingReached()
    ensures Reached(Approving() + Executing(), Failing("a"), Bump(Approved2(), Status.Executing), ["a"])
  {
    ClaimedReached();
    var steps := Approving() + Executing()[..3];
    BreaksOff(Run(MEMORY, steps), Bump(Approved2(), Status.Executing));
    DispatchIsLawful(steps);
    LastTwo(steps, Dispatch(0), RemoteAnswers(0, OtherError));
    assert steps + [Dispatch(0)] + [RemoteAnswers(0, OtherError)] == Approving() + Executing();
  }

  lemma FailureReached()
    ensures var failed := Bump(Bump(Approved2(), Status.Executing), Failed).(executionResult := Some("failed"));
            Reached(Broken(), Free, failed, ["a"])
  {
    FailingReached();
    CallReached(Approving() + Executing(), Failing("a"), CompleteFailure("failed", false), Bump(Approved2(), Status.Executing),
                5, ["a"]);
  }

  lemma DatabaseAlike(steps: seq<Step>, w: World)
    requires ApprovalOutcome.Disciplined(MEMORY, steps) && Driven(MEMORY, steps, w)
    ensures ApprovalOutcome.Disciplined(DATABASE, steps) && Driven(DATABASE, steps, w)
  {
    forall n | 0 <= n < |steps|
      ensures ApprovalOutcome.DisciplinedStep(Run(DATABASE, steps[..n]), steps[n])
      ensures DrivenStep(Run(DATABASE, steps[..n]), steps[n], n, w)
    {
      assert ApprovalOutcome.DisciplinedStep(Run(MEMORY, steps[..n]), steps[n]);
      assert DrivenStep(Run(MEMORY, steps[..n]), steps[n], n, w);
      SqlSimulation.DatabaseSimulates(steps[..n]);
      if steps[n].RemoteAnswers? || steps[n].ReadBack? || steps[n].Call? {
        SqlSimulation.ProcSim(Run(DATABASE, steps[..n]), Run(MEMORY, steps[..n]), steps[n].p);
      }
    }
  }

  /** In this run the adapter delivers one write and the database stores FAILED. */
  lemma DeliveredCanBeStoredAsFailed()
    ensures ApprovalOutcome.Disciplined(DATABASE, Broken()) && Driven(DATABASE, Broken(), Undecodable())
    ensures var s := Run(DATABASE, Broken());
            && RemoteWrites(s.dispatches, Undecodable(), "a") == 1
            && s.repo.Sql? && "a" in s.repo.tables.actions && s.repo.tables.actions["a"].status == Failed
  {
    FailureReached();
    AllLawful(Broken());
    DatabaseAlike(Broken(), Undecodable());
    SqlSimulation.DatabaseSimulates(Broken());
    var s, m := Run(DATABASE, Broken()), Run(MEMORY, Broken());
    SqlSimulation.StatusesAlike(s.repo.tables.actions, m.repo.store.actions);
    Undecoded();
    AtMostOneRemoteWrite(Broken(), Undecodable(), "a");
    assert s.dispatches[0] == "a" && Delivers(Undecodable().call(0));
  }
}
